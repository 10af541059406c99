/**
 * The order in which `Array.prototype.sort` without a comparator puts strings:
 * lexicographic by character code, a proper prefix first. So "Day 10" comes before "Day 2".
 */
module StringOrder {

  /** a sorts strictly before b; a proper prefix sorts before the longer string. */
  predicate Less(a: string, b: string)
    ensures |a| < |b| && a == b[..|a|] ==> Less(a, b)
    decreases |a|
  {
    |b| > 0 && (|a| == 0 || a[0] < b[0] || (a[0] == b[0] && Less(a[1..], b[1..])))
  }

  /** No string sorts before itself. */
  lemma {:induction false} LessIrreflexive(a: string)
    ensures !Less(a, a)
  {
    if |a| > 0 {
      LessIrreflexive(a[1..]);
    }
  }

  /** The order is transitive. */
  lemma {:induction false} LessTransitive(a: string, b: string, c: string)
    requires Less(a, b) && Less(b, c)
    ensures Less(a, c)
  {
    if |a| > 0 && a[0] == b[0] && b[0] == c[0] {
      LessTransitive(a[1..], b[1..], c[1..]);
    }
  }

  /** Any two different strings are ordered one way or the other. */
  lemma {:induction false} LessTotal(a: string, b: string)
    requires a != b
    ensures Less(a, b) || Less(b, a)
  {
    if |a| > 0 && |b| > 0 && a[0] == b[0] {
      assert a == [a[0]] + a[1..] && b == [b[0]] + b[1..];
      LessTotal(a[1..], b[1..]);
    }
  }

  /** No two strings are ordered both ways. */
  lemma LessAsymmetric(a: string, b: string)
    requires Less(a, b)
    ensures !Less(b, a)
  {
  }

  /** m is the element of keys that sorts before every other one. */
  predicate IsLeast(m: string, keys: set<string>)
  {
    m in keys && forall k :: k in keys && k != m ==> Less(m, k)
  }

  /** Every non-empty finite set of strings has a least element. */
  lemma {:induction false} LeastExists(keys: set<string>)
    requires keys != {}
    ensures exists m :: IsLeast(m, keys)
  {
    var x :| x in keys;
    if keys == {x} {
      assert IsLeast(x, keys);
    } else {
      LeastExists(keys - {x});
      var m :| IsLeast(m, keys - {x});
      if Less(m, x) {
        assert IsLeast(m, keys);
      } else {
        LessTotal(m, x);
        forall k | k in keys && k != x
          ensures Less(x, k)
        {
          if k != m {
            LessTransitive(x, m, k);
          }
        }
        assert IsLeast(x, keys);
      }
    }
  }

  /** The elements of a sequence of strings. */
  function Elements(xs: seq<string>): set<string>
  {
    set i | 0 <= i < |xs| :: xs[i]
  }

  /** A sequence has no elements exactly when it is empty. */
  lemma EmptyElements(xs: seq<string>)
    ensures Elements(xs) == {} <==> xs == []
  {
    if xs != [] {
      assert xs[0] in Elements(xs);
    }
  }

  /** Sorted without duplicates. */
  predicate StrictlyAscending(xs: seq<string>)
  {
    forall i, j :: 0 <= i < j < |xs| ==> Less(xs[i], xs[j])
  }

  /** A strictly ascending sequence has as many entries as distinct elements. */
  lemma {:induction false} AscendingLength(xs: seq<string>)
    requires StrictlyAscending(xs)
    ensures |Elements(xs)| == |xs|
  {
    if xs != [] {
      var tail := xs[1..];
      assert Elements(xs) == {xs[0]} + Elements(tail) by {
        forall y | y in Elements(xs) ensures y in {xs[0]} + Elements(tail) {
          var i :| 0 <= i < |xs| && xs[i] == y;
          if i > 0 {
            assert tail[i - 1] == y;
          }
        }
      }
      assert xs[0] !in Elements(tail) by {
        if xs[0] in Elements(tail) {
          var i :| 0 <= i < |tail| && tail[i] == xs[0];
          assert Less(xs[0], xs[i + 1]);
          LessIrreflexive(xs[0]);
        }
      }
      AscendingLength(tail);
    }
  }

  /** A set of strings has only one strictly ascending arrangement. */
  lemma {:induction false} AscendingUnique(xs: seq<string>, ys: seq<string>)
    requires StrictlyAscending(xs) && StrictlyAscending(ys)
    requires Elements(xs) == Elements(ys)
    ensures xs == ys
  {
    EmptyElements(xs);
    EmptyElements(ys);
    if xs != [] && ys != [] {
      var a, b := xs[0], ys[0];
      assert a in Elements(ys) && b in Elements(xs);
      var i :| 0 <= i < |xs| && xs[i] == b;
      var j :| 0 <= j < |ys| && ys[j] == a;
      if a != b {
        assert i > 0 && j > 0;
        assert Less(a, b) && Less(b, a);
        LessAsymmetric(a, b);
      }
      TailElements(xs);
      TailElements(ys);
      AscendingUnique(xs[1..], ys[1..]);
      assert xs == [a] + xs[1..] && ys == [b] + ys[1..];
    }
  }

  /** Dropping the head of a strictly ascending sequence removes exactly that element. */
  lemma TailElements(xs: seq<string>)
    requires StrictlyAscending(xs) && xs != []
    ensures StrictlyAscending(xs[1..])
    ensures Elements(xs[1..]) == Elements(xs) - {xs[0]}
  {
    var tail := xs[1..];
    forall y | y in Elements(xs) - {xs[0]} ensures y in Elements(tail) {
      var i :| 0 <= i < |xs| && xs[i] == y;
      assert tail[i - 1] == y;
    }
    forall y | y in Elements(tail) ensures y in Elements(xs) - {xs[0]} {
      var i :| 0 <= i < |tail| && tail[i] == y;
      assert xs[i + 1] == y;
      if y == xs[0] {
        assert Less(xs[0], xs[i + 1]);
        LessIrreflexive(xs[0]);
      }
    }
  }
}
