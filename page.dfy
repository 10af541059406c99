/**
 * The page: the module-level schedule index, the navigation bar's links and the content
 * panel, and the handlers that change them (the load outcome and a click in the navigation).
 */
module App {

  import opened Schedule
  import opened StringOrder
  import opened CycleDay
  import opened ScheduleIndex
  import opened Navigation
  import opened Render

  /** Loading until the fetch settles; Failed is terminal; Ready has the click listener wired. */
  datatype Phase = Loading | Failed | Ready

  /** Where a click inside the navigation bar lands: on the bar itself, or on the link at a position. */
  datatype NavTarget = Container | Anchor(position: nat)

  class Page {
    var schedule: map<string, DayRecord>
    var nav: seq<Link>
    var content: View
    var phase: Phase

    ghost predicate Valid()
      reads this
    {
      && (phase == Loading ==> schedule == map[])
      && (phase == Ready ==> KeyedById(schedule) && ListsKeys(nav, schedule.Keys))
    }

    /** The page as the host document provides it: an empty index and whatever links the bar holds. */
    constructor (hostNav: seq<Link>)
      ensures Valid()
      ensures phase == Loading && schedule == map[] && nav == hostNav && content == Blank
    {
      schedule := map[];
      nav := hostNav;
      content := Blank;
      phase := Loading;
    }

    /** Writes each record, in order, into the index under its identifier. */
    method IndexDays(days: seq<DayRecord>)
      modifies this`schedule
      ensures schedule == Indexed(old(schedule), days)
    {
      var i := 0;
      while i < |days|
        invariant 0 <= i <= |days|
        invariant schedule == Indexed(old(schedule), days[..i])
      {
        assert days[..i + 1][..i] == days[..i];
        schedule := schedule[days[i].dayId := days[i]];
        i := i + 1;
      }
      assert days[..|days|] == days;
    }

    /**
     * Empties the navigation bar, then appends one link per index key in ascending order,
     * marking the link for currentDay.
     */
    method SetupNavigation(currentDay: string)
      modifies this`nav
      ensures ListsKeys(nav, schedule.Keys) && ActiveExactlyAt(nav, currentDay)
    {
      nav := [];
      var remaining := schedule.Keys;
      while remaining != {}
        invariant Elements(Days(nav)) + remaining == schedule.Keys
        invariant Elements(Days(nav)) !! remaining
        invariant StrictlyAscending(Days(nav))
        invariant forall i, k :: 0 <= i < |nav| && k in remaining ==> Less(nav[i].day, k)
        invariant ActiveExactlyAt(nav, currentDay)
        decreases remaining
      {
        LeastExists(remaining);
        var day :| IsLeast(day, remaining);
        ghost var before := nav;
        nav := nav + [Link(day, day == currentDay)];
        assert Days(nav) == Days(before) + [day];
        assert Elements(Days(nav)) == Elements(Days(before)) + {day} by {
          forall x | x in Elements(Days(nav)) ensures x in Elements(Days(before)) + {day} {
            var i :| 0 <= i < |nav| && Days(nav)[i] == x;
            if i < |before| {
              assert Days(before)[i] == x;
            }
          }
          assert Days(nav)[|before|] == day;
          forall x | x in Elements(Days(before)) ensures x in Elements(Days(nav)) {
            var i :| 0 <= i < |before| && Days(before)[i] == x;
            assert Days(nav)[i] == x;
          }
        }
        remaining := remaining - {day};
      }
    }

    /** Clears the `active` class on every link, then sets it on the links whose day is activeDay. */
    method UpdateActiveClass(activeDay: string)
      modifies this`nav
      ensures nav == WithActive(old(nav), activeDay)
    {
      var i := 0;
      while i < |nav|
        invariant 0 <= i <= |nav| == |old(nav)|
        invariant forall k :: 0 <= k < i ==> nav[k] == Link(old(nav)[k].day, old(nav)[k].day == activeDay)
        invariant forall k :: i <= k < |nav| ==> nav[k] == old(nav)[k]
      {
        var link := nav[i].(active := false);
        if link.day == activeDay {
          link := link.(active := true);
        }
        nav := nav[i := link];
        i := i + 1;
      }
    }

    /** Replaces the content panel with the view of day; "today" is the cycle day of weekday. */
    method DisplayDayContent(day: string, weekday: Weekday)
      modifies this`content
      ensures content == RenderDay(schedule, day, TodayCycleDay(weekday))
    {
      content := RenderDay(schedule, day, TodayCycleDay(weekday));
    }

    /**
     * Settles the load. A failure shows the error view and leaves the index and the navigation
     * as they were, with no listener; a success indexes the days, builds the navigation and shows
     * today's cycle day, then wires the listener.
     */
    method Load(result: LoadResult, weekday: Weekday)
      requires Valid() && phase == Loading
      modifies this
      ensures Valid()
      ensures result.LoadFailure? ==>
        && phase == Failed
        && content == LoadFailed(result.message)
        && nav == old(nav)
        && schedule == old(schedule)
      ensures result.Loaded? ==>
        var today := TodayCycleDay(weekday);
        && phase == Ready
        && schedule == Indexed(map[], result.days)
        && ListsKeys(nav, schedule.Keys) && ActiveExactlyAt(nav, today)
        && ActiveCount(nav) == (if today in schedule then 1 else 0)
        && content == RenderDay(schedule, today, today)
    {
      match result
      case LoadFailure(message) =>
        content := LoadFailed(message);
        phase := Failed;
      case Loaded(days) =>
        IndexDays(days);
        IndexedKeyedById(map[], days);
        var today := TodayCycleDay(weekday);
        SetupNavigation(today);
        DisplayDayContent(today, weekday);
        ListingActiveCount(nav, schedule.Keys, today);
        phase := Ready;
    }

    /**
     * A click in the navigation bar. Once the page is ready, a click on a link shows that link's
     * day, which is always found, and makes that link the only active one; anything else changes nothing.
     */
    method Click(target: NavTarget, weekday: Weekday)
      requires Valid()
      requires target.Anchor? ==> target.position < |nav|
      modifies this
      ensures Valid()
      ensures schedule == old(schedule) && phase == old(phase)
      ensures old(phase) != Ready || target.Container? ==> nav == old(nav) && content == old(content)
      ensures old(phase) == Ready && target.Anchor? ==>
        var day := old(nav)[target.position].day;
        && content == RenderDay(schedule, day, TodayCycleDay(weekday))
        && ReadView(content) == Some(schedule[day])
        && nav == WithActive(old(nav), day)
        && ActiveCount(nav) == 1 && nav[target.position].active
    {
      if phase == Ready && target.Anchor? {
        var day := nav[target.position].day;
        assert day in schedule by {
          assert Days(nav)[target.position] == day;
        }
        DisplayDayContent(day, weekday);
        RenderDayShowsRecord(schedule, day, TodayCycleDay(weekday));
        UpdateActiveClass(day);
        ListingActiveCount(nav, schedule.Keys, day);
      }
    }
  }
}
