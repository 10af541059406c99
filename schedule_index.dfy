/**
 * The in-memory index of the schedule: records written one after another into a map keyed
 * by day identifier, so a later record with the same identifier replaces an earlier one.
 */
module ScheduleIndex {

  import opened Schedule

  /** The map that results from writing each record of days, in order, into base under its identifier. */
  function Indexed(base: map<string, DayRecord>, days: seq<DayRecord>): (index: map<string, DayRecord>)
    ensures index.Keys == base.Keys + DayIds(days)
    decreases |days|
  {
    if days == [] then
      base
    else
      var front, last := days[..|days| - 1], days[|days| - 1];
      assert DayIds(days) == DayIds(front) + {last.dayId} by {
        assert days == front + [last];
      }
      Indexed(base, front)[last.dayId := last]
  }

  /** Position i holds the last record of days that carries identifier id. */
  predicate IsLastWith(days: seq<DayRecord>, id: string, i: int)
  {
    0 <= i < |days| && days[i].dayId == id && forall j :: i < j < |days| ==> days[j].dayId != id
  }

  /** Every identifier in the input maps to the last record that carries it. */
  lemma {:induction false} IndexedLastWins(base: map<string, DayRecord>, days: seq<DayRecord>, i: int)
    requires 0 <= i < |days| && IsLastWith(days, days[i].dayId, i)
    ensures Indexed(base, days)[days[i].dayId] == days[i]
  {
    var front := days[..|days| - 1];
    if i < |days| - 1 {
      assert IsLastWith(front, front[i].dayId, i);
      IndexedLastWins(base, front, i);
    }
  }

  /** Every identifier of the input has a last occurrence. */
  lemma {:induction false} LastOccurrenceExists(days: seq<DayRecord>, id: string)
    requires id in DayIds(days)
    ensures exists i :: IsLastWith(days, id, i)
  {
    var last := |days| - 1;
    if days[last].dayId == id {
      assert IsLastWith(days, id, last);
    } else {
      var front := days[..last];
      assert id in DayIds(front) by {
        var k :| 0 <= k < |days| && days[k].dayId == id;
        assert front[k] == days[k];
      }
      LastOccurrenceExists(front, id);
      var i :| IsLastWith(front, id, i);
      assert IsLastWith(days, id, i);
    }
  }

  /** A key that no record carries keeps the value it had before the records were written. */
  lemma {:induction false} IndexedKeepsBase(base: map<string, DayRecord>, days: seq<DayRecord>, id: string)
    requires id in base && id !in DayIds(days)
    ensures Indexed(base, days)[id] == base[id]
  {
    if days != [] {
      var front := days[..|days| - 1];
      assert id !in DayIds(front) by {
        assert forall k :: 0 <= k < |front| ==> front[k] == days[k];
      }
      IndexedKeepsBase(base, front, id);
    }
  }

  /** Each key of the map is the identifier of the record it holds. */
  predicate KeyedById(index: map<string, DayRecord>)
  {
    forall id :: id in index ==> index[id].dayId == id
  }

  /** Writing records under their own identifiers keeps every key equal to its record's identifier. */
  lemma {:induction false} IndexedKeyedById(base: map<string, DayRecord>, days: seq<DayRecord>)
    requires KeyedById(base)
    ensures KeyedById(Indexed(base, days))
  {
    if days != [] {
      IndexedKeyedById(base, days[..|days| - 1]);
    }
  }

  /**
   * Indexing an array into the empty map: the keys are exactly the identifiers of the array,
   * each key holds the last record carrying it, and every key is its record's identifier.
   */
  lemma IndexOfDays(days: seq<DayRecord>, id: string)
    ensures Indexed(map[], days).Keys == DayIds(days)
    ensures KeyedById(Indexed(map[], days))
    ensures id in DayIds(days) ==>
      exists i :: IsLastWith(days, id, i) && Indexed(map[], days)[id] == days[i]
  {
    IndexedKeyedById(map[], days);
    if id in DayIds(days) {
      LastOccurrenceExists(days, id);
      var i :| IsLastWith(days, id, i);
      IndexedLastWins(map[], days, i);
    }
  }
}
