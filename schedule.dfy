/** The schedule document that the page loads, as plain data. */
module Schedule {

  datatype Option<T> = None | Some(value: T)

  /** One entry of a day's handbook: a free-text announcement. */
  datatype Announcement = Announcement(announcement: string)

  /** One row of a day's timetable, with its four columns. */
  datatype TimetableRow = TimetableRow(period: string, time: string, subject: string, location: string)

  /** The record of one cycle day (`day_id`, `handbook`, `timetable` in the document). */
  datatype DayRecord = DayRecord(dayId: string, handbook: seq<Announcement>, timetable: seq<TimetableRow>)

  /** What fetching and parsing the document yields: its `days` array, or the error that was thrown. */
  datatype LoadResult = Loaded(days: seq<DayRecord>) | LoadFailure(message: string)

  /** The day identifiers that a sequence of records carries. */
  function DayIds(days: seq<DayRecord>): set<string>
  {
    set i | 0 <= i < |days| :: days[i].dayId
  }
}
