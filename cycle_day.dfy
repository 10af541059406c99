/** The cycle-day calculator: which of the seven cycle days "today" is. */
module CycleDay {

  import opened Schedule

  /** A value of `Date.prototype.getDay`: 0 for Sunday, 1 for Monday, ... 6 for Saturday. */
  type Weekday = w: int | 0 <= w < 7

  /**
   * The position of a weekday in the seven-day cycle: Monday is 1, Sunday is 7.
   * It is the one number in 1..7 that is congruent to the weekday modulo 7.
   */
  function CycleDayNumber(w: Weekday): (n: int)
    ensures 1 <= n <= 7
    ensures n % 7 == w
  {
    if w == 0 then 7 else w
  }

  /** The decimal digit for 0..9. */
  function DigitChar(d: int): (c: char)
    requires 0 <= d <= 9
    ensures '0' <= c <= '9' && c as int - '0' as int == d
  {
    ('0' as int + d) as char
  }

  /** Reads a label of the form "Day d" back to its number d. */
  function ParseCycleDay(text: string): (r: Option<int>)
    ensures r.Some? <==> |text| == 5 && text[..4] == "Day " && '0' <= text[4] <= '9'
    ensures r.Some? ==> 0 <= r.value <= 9 && text == "Day " + [DigitChar(r.value)]
  {
    if |text| == 5 && text[..4] == "Day " && '0' <= text[4] <= '9' then
      assert text == text[..4] + [text[4]];
      Some(text[4] as int - '0' as int)
    else
      None
  }

  /** The label of today's cycle day, "Day 1" .. "Day 7", for the given weekday. */
  function TodayCycleDay(w: Weekday): (text: string)
    ensures |text| == 5 && text[..4] == "Day "
    ensures ParseCycleDay(text) == Some(CycleDayNumber(w))
  {
    var text := "Day " + [DigitChar(CycleDayNumber(w))];
    assert text[..4] == "Day ";
    text
  }

  /** Monday..Saturday keep their number; Sunday becomes "Day 7", never "Day 0". */
  lemma TodayCycleDayByWeekday(w: Weekday)
    ensures w == 0 ==> TodayCycleDay(w) == "Day 7"
    ensures w != 0 ==> TodayCycleDay(w) == "Day " + [DigitChar(w)]
    ensures TodayCycleDay(w) != "Day 0"
  {
  }

  /** Distinct weekdays get distinct labels, so each cycle day is "today" on exactly one weekday. */
  lemma TodayCycleDayInjective(v: Weekday, w: Weekday)
    requires TodayCycleDay(v) == TodayCycleDay(w)
    ensures v == w
  {
  }
}
