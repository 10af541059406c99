# Class schedule page, modelled in Dafny

The page loads a schedule document (`/schedule.json`) that holds one record per cycle day.
Each record has a day identifier such as `"Day 3"`, a handbook of announcements and a timetable
of period / time / subject / location rows. On a successful load it does four things:

- it writes the records into a module-level map keyed by day identifier (`CLASS_SCHEDULE`);
- it works out today's cycle day from the weekday, Monday = `Day 1` through Sunday = `Day 7`;
- it builds the navigation bar with one link per key in sorted order, marking today's link `active`;
- it renders today's record into the content panel.

A click on a navigation link renders that day and moves the `active` mark. A failed load shows an
error in the content panel and wires nothing.

The model replaces the DOM with data:

- the navigation bar is a sequence of `Link(day, active)` records;
- the content panel holds a `View` value: `Blank`, `LoadFailed`, `NotFound(day)` or
  `DayPage(day, isToday, handbook block, table rows)`;
- the fetch outcome is an input `Loaded(days)` or `LoadFailure(message)`;
- the weekday that `new Date().getDay()` would return is a parameter (0 = Sunday .. 6 = Saturday).

Modules, one per part of `script.js`:

- `Schedule`: the document's records.
- `CycleDay`: `getTodayCycleDay`, with its inverse `ParseCycleDay`.
- `ScheduleIndex`: the map the `forEach` loop builds, as the function `Indexed`.
- `StringOrder`: the order of `Array.prototype.sort` on strings (lexicographic by character code, so `"Day 10"` sorts before `"Day 2"`).
- `Navigation`: link lists, and `WithActive`, the specification of `updateActiveClass`.
- `Render`: `displayDayContent` as a pure function `RenderDay`, with read-back functions that recover the record from a view.
- `App`: the class `Page`. Its fields are the index, the links, the panel and the load phase. Its methods are the imperative parts: the index loop, `setupNavigation`, `updateActiveClass`, `displayDayContent`, the load outcome and the click handler.

`setupNavigation` walks `Object.keys(...).sort()`. The model walks the same keys in the same
order by one loop that takes the least remaining key each time.

## Model

| member | source | states |
|---|---|---|
| `CycleDay.CycleDayNumber` | script.js:55-60 | the cycle position is in 1..7 and is congruent to the weekday modulo 7 (so Sunday 0 becomes 7, never 0) |
| `CycleDay.TodayCycleDay` | script.js:52-64 | the label is `"Day "` followed by one digit, and reads back to exactly the weekday's cycle position |
| `CycleDay.TodayCycleDayByWeekday` | script.js:55-63 | Monday..Saturday give `"Day w"`, Sunday gives `"Day 7"`, and no weekday gives `"Day 0"` |
| `CycleDay.TodayCycleDayInjective` | script.js:58-63 | two weekdays with the same label are the same weekday |
| `ScheduleIndex.Indexed` | script.js:20-22 | the index's keys are the keys it had plus the identifiers of all written records |
| `ScheduleIndex.IndexedLastWins` | script.js:20-22 | a key holds the last record carrying it; later duplicates overwrite earlier ones |
| `ScheduleIndex.LastOccurrenceExists` | script.js:20-22 | every identifier in the input has a last record carrying it |
| `ScheduleIndex.IndexedKeepsBase` | script.js:5-22 | a key that no record carries keeps its previous value |
| `ScheduleIndex.IndexedKeyedById` | script.js:21 | every key of the index is the identifier of the record it holds |
| `ScheduleIndex.IndexOfDays` | script.js:5-22 | starting from the empty map, the key set is exactly the input's identifiers and each key holds the last record with that identifier |
| `StringOrder.Less` | script.js:77 | the sort compares strings lexicographically by character, and a proper prefix sorts before every longer string that extends it |
| `StringOrder.LessIrreflexive` | script.js:77 | no key sorts before itself |
| `StringOrder.LessTransitive` | script.js:77 | the sort order is transitive |
| `StringOrder.LessTotal` | script.js:77 | any two different keys are ordered one way or the other |
| `StringOrder.LessAsymmetric` | script.js:77 | two keys are never ordered both ways |
| `StringOrder.LeastExists` | script.js:77 | every non-empty key set has a first key in sort order |
| `StringOrder.AscendingLength` | script.js:77 | a sorted key list without duplicates has one entry per distinct key |
| `StringOrder.AscendingUnique` | script.js:77 | a key set has only one sorted arrangement without duplicates |
| `Navigation.WithActive` | script.js:93-100 | marking keeps every link's day and order, and leaves a link active exactly when its day is the target |
| `Navigation.WithActiveIdempotent` | script.js:94-99 | marking the same day twice gives the same links as marking it once |
| `Navigation.WithActiveFixpoint` | script.js:94-99 | marking changes nothing exactly when the links are already marked for that day |
| `Navigation.NavigationDetermined` | script.js:74-86 | the key set and the marked day fully determine the navigation, so nothing of the old bar survives |
| `Navigation.ListingLength` | script.js:77-86 | the rebuilt bar has exactly one link per key |
| `Navigation.AscendingDistinct` | script.js:77 | a sorted key list without duplicates names no day twice |
| `Navigation.ActiveCountExact` | script.js:82-84 | with no day named twice, in any order, one link is active if the marked day is present, none otherwise |
| `Navigation.ListingActiveCount` | script.js:82-84 | in the rebuilt bar exactly one link is active when the current day is a key, and none when it is not |
| `Render.RenderHandbook` | script.js:116-118 | an empty handbook gives the placeholder, otherwise one list item per announcement in input order |
| `Render.RenderTimetable` | script.js:122-131 | an empty timetable gives one placeholder row spanning 4 columns, otherwise one row per entry in order with cells period, time, subject, location; every row spans the 4 header columns |
| `Render.RenderDay` | script.js:106-162 | the view is exactly `NotFound(day)` when day is not a key, otherwise the day's page whose today marker is set exactly when day is today |
| `Render.HandbookRoundTrip` | script.js:116-118 | the announcements block shows every announcement, so they can be read back unchanged |
| `Render.EntriesRoundTrip` | script.js:123-130 | the rows of a non-empty timetable read back to exactly its entries |
| `Render.TimetableRoundTrip` | script.js:122-131 | the table body of any timetable, empty or not, reads back to exactly that timetable |
| `Render.RenderDayShowsRecord` | script.js:107-161 | for a key of an index keyed by identifier, the page reads back to exactly the stored record |
| `App.Page.constructor` | script.js:5 | the index starts empty, the bar holds the host page's links, and nothing is rendered yet |
| `App.Page.IndexDays` | script.js:20-22 | the loop leaves the index equal to `Indexed` of its old value and the records |
| `App.Page.SetupNavigation` | script.js:72-87 | the bar is replaced by one link per key in strictly ascending order, each active exactly when its day is the current day |
| `App.Page.UpdateActiveClass` | script.js:93-100 | the bar becomes `WithActive` of the old bar: same days and order, active exactly where the day matches |
| `App.Page.DisplayDayContent` | script.js:106-162 | the panel holds `RenderDay` of the index, the day and today's label |
| `App.Page.Load` | script.js:9-43 | failure: the panel holds the error view and the bar and the index are untouched. Success: the index is built from the days, the bar lists the keys with today's link as the only active one (none if today is missing), and the panel shows today |
| `App.Page.Click` | script.js:30-37 | when ready, a click on a link shows that link's day, always found and showing exactly its record, and leaves that link the only active one; a click elsewhere, or before or after a failed load, changes nothing |

## Left out

- The fetch, its promise chain and JSON parsing are not modelled (script.js:9-17). The load outcome is an input instead.
- Documents whose shape is wrong are left out; the model's records are always well-formed. In the source such a document leads, for example, to these outcomes:
  - A document with no `days` array (`{}`, `{"days": null}`, a string), or whose `days` holds a `null` entry, throws at script.js:20-21, inside the success branch but before the navigation is built (script.js:26). The catch (script.js:39-43) shows the error view, no bar is built, no listener is wired, and any records written before the bad entry stay in `CLASS_SCHEDULE`.
  - A record with no `day_id`, or with a `day_id` that is not a string, throws nothing: script.js:21 files it under the identifier's string form (`"undefined"` when it is missing).
  - A record whose text fields are missing, or whose `handbook` or `timetable` is not an array, can render without throwing. A missing `announcement` or cell field shows as `undefined` (script.js:117, 125-128). A non-array list such as `5`, `true` or `{}` has no positive `length`, so its placeholder is shown (script.js:116, 122). Such a record behaves like a well-formed one at load and on a click: the page reaches Ready and `updateActiveClass` runs.
  - A record whose rendering throws (a missing or `null` `handbook` or `timetable`, a `null` entry), when rendered during load as today's record, throws inside the success branch. The navigation bar is already built (script.js:26), the catch (script.js:39-43) replaces the panel with the error view, and the click listener is never wired (script.js:30 is not reached).
  - A record whose rendering throws, when rendered later by a click, throws in script.js:116-131 (a `null` handbook entry at 117, a missing `timetable` at 122) inside the click listener (script.js:34). That is outside the promise chain, so the catch never runs. The panel keeps the previous day and `updateActiveClass` (script.js:35) is not called for that click.
- The real DOM is not modelled: element lookup, `createElement`, `classList`, `innerHTML`, `addEventListener`, `preventDefault`. Links are records and the panel is a view value. A link's other classes and its `href` (script.js:79) are not represented.
- Text fields are inserted into `innerHTML` as raw HTML, without escaping: the announcement (script.js:117), the four cell texts (script.js:125-128) and the day (script.js:111, 151). The model treats them as opaque strings. So `Render.RenderHandbook`, `Render.RenderTimetable`, `Render.HandbookRoundTrip`, `Render.EntriesRoundTrip`, `Render.TimetableRoundTrip` and `Render.RenderDayShowsRecord` describe the real page only for text without markup or character references. For example, the announcement `a</li><li>b` gives two list items, the cell `1</td><td>x` gives five cells, and `&amp;` displays as `&`.
- The exact HTML text, the emoji, the Chinese headings and placeholder wording, and whitespace are left out. Only the structure is modelled: placeholder versus items, row count, cell order and column span.
- `new Date()` and the local time zone are not modelled: the weekday is a parameter. The source computes "today" again at render time (script.js:151). `App.Page.Load` reads the weekday once and uses it both for the navigation's today (script.js:25) and for the render-time today. `App.Page.DisplayDayContent` and `App.Page.Click` take the weekday current at their own call. The model says nothing about the page staying open across midnight.
- `console.error` logging (script.js:40) is left out.
- The `data-day` attribute is modelled as always present on a link, because every link the page builds has one. A click target is either the bar or one of its links.
- `StringOrder.Less` compares characters by code point, while `Array.prototype.sort` compares UTF-16 code units. The two orders differ only for characters outside the Basic Multilingual Plane. A JavaScript string from the document can also hold a lone surrogate (`"\ud800"`), which a Dafny `string` cannot hold at all, so such identifiers and texts are outside the model.
- `ScheduleIndex.Indexed` treats the index as a plain map. `CLASS_SCHEDULE` is a JavaScript object, so an identifier such as `__proto__` would change its prototype instead of adding a key, and `constructor` would be found by lookup even when absent. These object-prototype effects are not modelled.
