/**
 * The navigation bar as data: its links in document order, each with the day it names
 * (its text and its `data-day` attribute) and whether it carries the `active` class.
 */
module Navigation {

  import opened StringOrder

  datatype Link = Link(day: string, active: bool)

  /** The `data-day` attributes of the links, in order. */
  function Days(links: seq<Link>): (days: seq<string>)
    ensures |days| == |links|
    ensures forall i :: 0 <= i < |links| ==> days[i] == links[i].day
  {
    seq(|links|, i requires 0 <= i < |links| => links[i].day)
  }

  /** A link is active exactly when its day is d. */
  predicate ActiveExactlyAt(links: seq<Link>, d: string)
  {
    forall i :: 0 <= i < |links| ==> links[i].active == (links[i].day == d)
  }

  /** The links name each key once, in ascending order, and nothing else. */
  predicate ListsKeys(links: seq<Link>, keys: set<string>)
  {
    StrictlyAscending(Days(links)) && Elements(Days(links)) == keys
  }

  /** The links after the `active` class is cleared everywhere and set where the day is d. */
  function WithActive(links: seq<Link>, d: string): (r: seq<Link>)
    ensures Days(r) == Days(links)
    ensures ActiveExactlyAt(r, d)
  {
    seq(|links|, i requires 0 <= i < |links| => Link(links[i].day, links[i].day == d))
  }

  /** How many links carry the `active` class. */
  function ActiveCount(links: seq<Link>): nat
  {
    if links == [] then 0 else (if links[0].active then 1 else 0) + ActiveCount(links[1..])
  }

  /** Marking the same day twice is the same as marking it once. */
  lemma WithActiveIdempotent(links: seq<Link>, d: string)
    ensures WithActive(WithActive(links, d), d) == WithActive(links, d)
  {
  }

  /** Marking d changes nothing exactly when the links are already marked for d. */
  lemma WithActiveFixpoint(links: seq<Link>, d: string)
    ensures WithActive(links, d) == links <==> ActiveExactlyAt(links, d)
  {
  }

  /** A link list is fully determined by the keys it lists and the day it marks. */
  lemma NavigationDetermined(a: seq<Link>, b: seq<Link>, keys: set<string>, d: string)
    requires ListsKeys(a, keys) && ActiveExactlyAt(a, d)
    requires ListsKeys(b, keys) && ActiveExactlyAt(b, d)
    ensures a == b
  {
    AscendingUnique(Days(a), Days(b));
    assert |a| == |b|;
    forall i | 0 <= i < |a| ensures a[i] == b[i] {
      assert Days(a)[i] == Days(b)[i];
    }
  }

  /** A listing of keys has exactly one link per key. */
  lemma ListingLength(links: seq<Link>, keys: set<string>)
    requires ListsKeys(links, keys)
    ensures |links| == |keys|
  {
    AscendingLength(Days(links));
  }

  /** No day is named twice. */
  predicate Distinct(days: seq<string>)
  {
    forall i, j :: 0 <= i < j < |days| ==> days[i] != days[j]
  }

  /** A strictly ascending list names no day twice. */
  lemma AscendingDistinct(days: seq<string>)
    requires StrictlyAscending(days)
    ensures Distinct(days)
  {
    forall i, j | 0 <= i < j < |days| ensures days[i] != days[j] {
      if days[i] == days[j] {
        LessIrreflexive(days[i]);
      }
    }
  }

  /**
   * With no day named twice (in any order) and only day d marked, exactly one link is active when
   * some link names d, and none otherwise.
   */
  lemma {:induction false} ActiveCountExact(links: seq<Link>, d: string)
    requires Distinct(Days(links))
    requires ActiveExactlyAt(links, d)
    ensures ActiveCount(links) == if d in Days(links) then 1 else 0
  {
    if links != [] {
      var tail := links[1..];
      assert Days(tail) == Days(links)[1..];
      assert d in Days(links) <==> links[0].day == d || d in Days(tail) by {
        assert Days(links) == [links[0].day] + Days(tail);
      }
      ActiveCountExact(tail, d);
    }
  }

  /** In a listing of keys marked for d, one link is active if d is a key and none otherwise. */
  lemma ListingActiveCount(links: seq<Link>, keys: set<string>, d: string)
    requires ListsKeys(links, keys) && ActiveExactlyAt(links, d)
    ensures ActiveCount(links) == if d in keys then 1 else 0
  {
    AscendingDistinct(Days(links));
    ActiveCountExact(links, d);
    if d in keys {
      var i :| 0 <= i < |links| && Days(links)[i] == d;
      assert d in Days(links);
    }
  }
}
