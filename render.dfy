/**
 * The content renderer: what the content panel shows for a day, as a view value
 * in place of the HTML string the page assigns to the panel.
 */
module Render {

  import opened Schedule

  /** The timetable has four columns: period, time, subject, location. */
  const TimetableColumns: nat := 4

  /** The announcements block: the "no announcements" paragraph, or a list with one item per announcement. */
  datatype HandbookBlock = NoAnnouncements | AnnouncementList(items: seq<string>)

  /** A row of the timetable body: the "no classes" row spanning colspan columns, or one cell per column. */
  datatype TableRow = PlaceholderRow(colspan: nat) | EntryRow(cells: seq<string>)

  /** What the content panel holds. */
  datatype View =
    | Blank                              // the host page's panel before anything is rendered
    | LoadFailed(message: string)        // the load error heading with the error message
    | NotFound(day: string)              // the "no information for day" heading, alone
    | DayPage(day: string, isToday: bool, handbook: HandbookBlock, rows: seq<TableRow>)

  /** How many columns a row occupies. */
  function Width(row: TableRow): nat
  {
    match row
    case PlaceholderRow(colspan) => colspan
    case EntryRow(cells) => |cells|
  }

  /** The announcements block: the placeholder for an empty handbook, else one item per announcement in order. */
  function RenderHandbook(handbook: seq<Announcement>): (block: HandbookBlock)
    ensures block.NoAnnouncements? <==> handbook == []
    ensures block.AnnouncementList? ==>
      |block.items| == |handbook| &&
      forall i :: 0 <= i < |handbook| ==> block.items[i] == handbook[i].announcement
  {
    if |handbook| > 0 then
      AnnouncementList(seq(|handbook|, i requires 0 <= i < |handbook| => handbook[i].announcement))
    else
      NoAnnouncements
  }

  /**
   * The timetable body: one placeholder row spanning every column for an empty timetable,
   * else one row per entry in order, with cells period, time, subject, location.
   */
  function RenderTimetable(timetable: seq<TimetableRow>): (rows: seq<TableRow>)
    ensures timetable == [] ==> rows == [PlaceholderRow(TimetableColumns)]
    ensures timetable != [] ==>
      |rows| == |timetable| &&
      forall i :: 0 <= i < |timetable| ==>
        rows[i] == EntryRow([timetable[i].period, timetable[i].time, timetable[i].subject, timetable[i].location])
    ensures forall i :: 0 <= i < |rows| ==> Width(rows[i]) == TimetableColumns
  {
    if |timetable| > 0 then
      seq(|timetable|, i requires 0 <= i < |timetable| =>
        var row := timetable[i];
        EntryRow([row.period, row.time, row.subject, row.location]))
    else
      [PlaceholderRow(TimetableColumns)]
  }

  /**
   * The view for day, given the index and today's cycle-day label: the not-found view when day
   * is not a key, otherwise the day's page with the today marker exactly when day is today.
   */
  function RenderDay(schedule: map<string, DayRecord>, day: string, today: string): (v: View)
    ensures v.NotFound? <==> day !in schedule
    ensures v.NotFound? || v.DayPage?
    ensures v.day == day
    ensures v.DayPage? ==>
      (v.isToday <==> day == today) &&
      v.handbook == RenderHandbook(schedule[day].handbook) &&
      v.rows == RenderTimetable(schedule[day].timetable)
  {
    if day !in schedule then
      NotFound(day)
    else
      var record := schedule[day];
      DayPage(day, day == today, RenderHandbook(record.handbook), RenderTimetable(record.timetable))
  }

  /** The announcements a handbook block shows. */
  function ReadHandbook(block: HandbookBlock): seq<Announcement>
  {
    match block
    case NoAnnouncements => []
    case AnnouncementList(items) => seq(|items|, i requires 0 <= i < |items| => Announcement(items[i]))
  }

  /** The timetable entries that a run of entry rows shows; None if some row is not a four-cell entry. */
  function ReadEntries(rows: seq<TableRow>): Option<seq<TimetableRow>>
  {
    if rows == [] then
      Some([])
    else
      match (rows[0], ReadEntries(rows[1..]))
      case (EntryRow(cells), Some(rest)) =>
        if |cells| == TimetableColumns then
          Some([TimetableRow(cells[0], cells[1], cells[2], cells[3])] + rest)
        else
          None
      case _ => None
  }

  /** The timetable a table body shows: nothing for the placeholder row, else its entries. */
  function ReadTimetable(rows: seq<TableRow>): Option<seq<TimetableRow>>
  {
    if rows == [PlaceholderRow(TimetableColumns)] then Some([]) else ReadEntries(rows)
  }

  /** The day record a page view shows, if it is a page. */
  function ReadView(v: View): Option<DayRecord>
  {
    match v
    case DayPage(day, _, handbook, rows) =>
      (match ReadTimetable(rows)
       case Some(timetable) => Some(DayRecord(day, ReadHandbook(handbook), timetable))
       case None => None)
    case _ => None
  }

  /** The announcements block reads back to exactly the handbook. */
  lemma HandbookRoundTrip(handbook: seq<Announcement>)
    ensures ReadHandbook(RenderHandbook(handbook)) == handbook
  {
  }

  /** The rows of a non-empty timetable read back to exactly its entries. */
  lemma {:induction false} EntriesRoundTrip(timetable: seq<TimetableRow>)
    requires timetable != []
    ensures ReadEntries(RenderTimetable(timetable)) == Some(timetable)
  {
    var rows := RenderTimetable(timetable);
    var tail := timetable[1..];
    if tail == [] {
      assert rows[1..] == [];
    } else {
      assert RenderTimetable(tail) == rows[1..];
      EntriesRoundTrip(tail);
    }
    assert timetable == [timetable[0]] + tail;
  }

  /** The rendered timetable shows exactly the day's entries, in order. */
  lemma TimetableRoundTrip(timetable: seq<TimetableRow>)
    ensures ReadTimetable(RenderTimetable(timetable)) == Some(timetable)
  {
    if timetable != [] {
      EntriesRoundTrip(timetable);
      var rows := RenderTimetable(timetable);
      assert rows[0].EntryRow?;
    }
  }

  /**
   * For a key of an index whose keys are the records' own identifiers, the page shows
   * exactly that record: its identifier, every announcement and every timetable entry in order.
   */
  lemma RenderDayShowsRecord(schedule: map<string, DayRecord>, day: string, today: string)
    requires day in schedule && schedule[day].dayId == day
    ensures ReadView(RenderDay(schedule, day, today)) == Some(schedule[day])
  {
    HandbookRoundTrip(schedule[day].handbook);
    TimetableRoundTrip(schedule[day].timetable);
  }
}
