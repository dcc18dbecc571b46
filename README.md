# Free-slot computation of the Meet booking widget

The widget shows a calendar. For the picked date it fetches the busy intervals
from a backend and renders the still-free time slots of a working day as
buttons. This project models the logic behind those buttons and proves
properties of it:

- `filter.dfy` (module `SlotFilter`): `filter(timeInt, startTime, endTime)`
  is `SlotFilter.Filter`, with `Array.prototype.indexOf` as `IndexOf` and the
  index-testing `Array.prototype.filter` callback as `KeepOutside`. Both tokens are looked up by their first occurrence in the ordered slot grid.
  When either is missing the result is the empty list. Otherwise every grid
  entry whose index lies in the inclusive range between the two positions is
  dropped.
- `formatter.dfy` (module `Formatter`):
  - `formatTimeStr` is `Formatter.FormatTimeStr`. It turns a backend timestamp
    such as `2024-01-01T08:30:00.000Z` into the grid token `08:30:00`.
  - `formatDateStr` is `Formatter.FormatDateStr`. It writes a date as
    `year-MM-day`; the padded month is `Formatter.MonthText`.
  - `formatDateTimeStr` is `Formatter.FormatDateTimeStr`. It appends `%20` and
    the time word of `Date.toString()`.
  - JavaScript's `String.prototype.split` with a one-character separator is
    `Split`, `Array.prototype.join` is `Join`, and number-to-text conversion
    is `NatToString` / `IntToString`.
- `app.dfy` (module `App`): the effect of `App.tsx` that recomputes the free list
  whenever the busy list `data` changes, and the button label.
  - The component's `freeTimeInt` state is the field of class `FreeTimeView`.
  - The effect is the method `OnDataChange`. It resets the field to `[]`. It
    then takes the whole grid when `data` is empty. Otherwise it appends, interval
    by interval, what `filter` leaves of the grid for that interval.
  - A busy interval of the `Payload` type (src/utils/types/data.d.ts) is the
    datatype `App.Payload`.
  - The method is proved equal to the function `App.FreeTimeInt`. That is the
    grid for empty `data`, else `Flatten(Parts(hours, data))`: `App.Parts`
    holds what `filter` leaves for each interval, in the order of `data`, and
    `App.Flatten` is their in-order concatenation.
  - The label `hour.substring(0, hour.length - 3)` is `App.ButtonLabel`.
  - Duplicates are kept. A slot free with respect to N intervals is listed N
    times. A slot one interval excludes comes back from another interval that
    does not exclude it.

Inputs that come from outside the model are parameters:
- The working-hours grid `hours` lives in a module that is not part of this
  model.
- The busy list arrives over the network.
- The host `Date` becomes integers plus the text of `toString()`.

Two behaviours of the code are worth stating:
- A token missing from the grid makes `filter` return the empty list, not the
  whole grid.
- `Request` (src/utils/types/data.d.ts:8-11) is declared but no code builds
  one; it is not modelled.

## Model

| member | source | states |
|---|---|---|
| SlotFilter.IndexOf | src/utils/filter.ts:3-4 | the result is -1 or a position holding the token |
| SlotFilter.IndexOfFirstOccurrence | src/utils/filter.ts:3-4 | the lookup yields -1 exactly when the token is absent, and otherwise no earlier entry holds it (first occurrence) |
| SlotFilter.IndexOfFirst | src/utils/filter.ts:3-4 | any position holding the token with no earlier occurrence is the one the lookup returns |
| SlotFilter.KeepOutside | src/utils/filter.ts:13-15 | filtering by index never lengthens the grid |
| SlotFilter.KeepOutsideSlices | src/utils/filter.ts:13-15 | keeping indices `< lo` or `> hi` gives the prefix before `lo` followed by the suffix after `hi` |
| SlotFilter.FilterUnmatched | src/utils/filter.ts:6-8 | a start or end token missing from the grid gives the empty list, not the grid |
| SlotFilter.FilterMatched | src/utils/filter.ts:10-15 | with both tokens at first positions i and j, the result is `grid[..min] + grid[max+1..]` and its length is `|grid| - (max - min + 1)` |
| SlotFilter.FilterSymmetric | src/utils/filter.ts:10-11 | swapping start and end gives the identical result |
| SlotFilter.FilterSameToken | src/utils/filter.ts:10-15 | an interval whose start equals its end removes exactly one entry |
| SlotFilter.KeepOutsideIsSubsequence | src/utils/filter.ts:13-15 | the index filter keeps entries in grid order (order-preserving subsequence) |
| SlotFilter.SubsequenceMultiset | src/utils/filter.ts:13-15 | an order-preserving subsequence never holds an entry more often than the original |
| SlotFilter.FilterIsSubsequence | src/utils/filter.ts:2-17 | the result is an order-preserving subsequence of the grid, so each entry is a grid entry and none is repeated more often than in the grid |
| SlotFilter.FilterExcludesRange | src/utils/filter.ts:1-17 | on a duplicate-free grid a grid entry is kept exactly when its index is outside `[min(i,j), max(i,j)]`; the start and end tokens are never kept |
| SlotFilter.DistinctAtMostOnce | src/utils/filter.ts:13-15 | on a duplicate-free grid every token occurs at most once, and exactly once if present |
| Formatter.Split | src/utils/formatter.ts:16 | `split` always yields at least one piece, and more than one exactly when the separator occurs |
| Formatter.SplitPieces | src/utils/formatter.ts:16 | no piece holds the separator; the first piece is a prefix; text without the separator is its own single piece |
| Formatter.SplitJoin | src/utils/formatter.ts:16 | joining the pieces with the separator gives back the text |
| Formatter.JoinSplit | src/utils/formatter.ts:16 | splitting separator-free pieces joined by the separator gives back the pieces |
| Formatter.SplitAt | src/utils/formatter.ts:16 | the text before the first separator is the first piece and the rest splits on its own |
| Formatter.SplitHead | src/utils/formatter.ts:16 | the first piece is the text up to the first separator or the end |
| Formatter.FormatTimeStr | src/utils/formatter.ts:16 | needs a 'T' in the input; the result contains neither 'T' nor '.' |
| Formatter.FormatTimeStrParts | src/utils/formatter.ts:16 | the result is the segment after the first 'T', up to the next 'T' or the end, cut at its first '.'; with no '.' it is the whole segment |
| Formatter.FormatTimeStrBackend | src/utils/formatter.ts:15-16 | a backend timestamp `<date>T<clock>.000Z` gives the grid token `<clock>` |
| Formatter.FormatTimeStrExample | src/utils/formatter.ts:16 | `2024-01-01T08:30:00.000Z` gives `08:30:00` |
| Formatter.NatToString | src/utils/formatter.ts:3-7 | the decimal text is a non-empty digit string, one digit exactly below 10 |
| Formatter.ParseNatToString | src/utils/formatter.ts:3-7 | reading the decimal text back gives the number |
| Formatter.MonthTextTwoDigits | src/utils/formatter.ts:4-6 | each month 1..12 is written with two digits (padded below 10) that read back as the month |
| Formatter.FormatDateStrIsJoin | src/utils/formatter.ts:2-8 | for every year, month and day the date text is the year text, the padded month and the day text joined by '-' |
| Formatter.FormatDateStrFields | src/utils/formatter.ts:2-8 | the date text splits on '-' into exactly three fields that read back as year, `getMonth() + 1` and day; the month field has two digits; the day field is the unpadded day |
| Formatter.FormatDateStrExample | src/utils/formatter.ts:7 | the fifth of May 2024 is `2024-05-5`: the day is not padded |
| Formatter.FormatDateTimeStrTime | src/utils/formatter.ts:10-14 | for a `toString()` text of at least five space-separated words, the result is the date text, `%20`, and the fifth word |
| Formatter.FormatDateTimeStrShort | src/utils/formatter.ts:12-13 | with fewer than five words the template writes `undefined` as the time |
| App.Parts | src/App.tsx:65-69 | one part per busy interval |
| App.FreeTimeView.constructor | src/App.tsx:34 | the free list starts empty |
| App.FreeTimeView.OnDataChange | src/App.tsx:58-72 | after the effect the free list is the grid when `data` is empty, else the in-order concatenation of `filter(hours, formatTimeStr(start), formatTimeStr(end))` over `data`; it does not depend on the previous value |
| App.FreeTimeNoBusy | src/App.tsx:62-63 | with no busy interval the free list equals the grid exactly |
| App.FlattenAppend | src/App.tsx:65-70 | concatenating two batches of parts concatenates their flattenings |
| App.FreeTimeConcat | src/App.tsx:65-70 | two non-empty busy lists one after the other give the two free lists one after the other |
| App.FreeTimePair | src/App.tsx:65-70 | two single busy intervals in a row give their free lists one after the other |
| App.FreeTimeSingle | src/App.tsx:65-70 | a single busy interval gives exactly what `filter` leaves for it |
| App.FlattenLength | src/App.tsx:65-70 | parts of at most n entries flatten to at most `parts * n` entries |
| App.FlattenLengthSum | src/App.tsx:65-70 | the concatenation is exactly as long as all the parts together |
| App.FreeTimeLength | src/App.tsx:62-70 | with no busy interval the free list is as long as the grid; otherwise it is exactly as long as the per-interval `filter` results together, hence at most `|data| * |grid|` entries |
| App.FlattenMembers | src/App.tsx:66-69 | an entry is in the concatenation exactly when it is in one of the parts |
| App.FreeTimeInGrid | src/App.tsx:68 | every free-list entry is a grid entry |
| App.FlattenEmpty | src/App.tsx:65-70 | empty parts flatten to the empty list |
| App.AllUnmatchedNothingFree | src/App.tsx:65-70 | when every interval has a token missing from the grid, the free list is empty, not the grid |
| App.FlattenCount | src/App.tsx:66-69 | an entry occurring once in every part occurs once per part in the concatenation |
| App.UntouchedSlotRepeats | src/App.tsx:66-69 | on a duplicate-free grid, a slot every one of the N intervals leaves free appears exactly N times: no de-duplication |
| App.OneBusyIntervalScenario | src/App.tsx:65-70 | busy 08:30-09:00 on the half-hour grid 08:00..10:00 leaves `[08:00, 09:30, 10:00]` |
| App.SingleSlotIntervalScenario | src/App.tsx:65-70 | busy 09:30-09:30 on that grid leaves every other slot |
| App.TwoBusyIntervalsScenario | src/App.tsx:65-70 | both intervals together list 08:00 and 10:00 twice, and bring back 08:30 and 09:00 from the second interval |
| App.ButtonLabel | src/App.tsx:110-111 | the label is a prefix of the token, three characters shorter, or empty for a token shorter than three |
| App.ButtonLabelDropsSeconds | src/App.tsx:110-111 | for `HH:MM:SS` the label is `HH:MM`, and appending `:SS` again gives the token |
| App.ButtonLabelExample | src/App.tsx:111 | `08:30:00` is shown as `08:30` |

## Left out

- `src/utils/fetcher.ts`: the HTTP request, JSON decoding, the `ResponseError` class and the toast notifications. These are network I/O and a foreign UI library. The busy list is an input to `OnDataChange`.
- The date-change effect of `src/App.tsx` (lines 37-55): it compares `formatDateStr` of the picked date with that of today to decide whether to pass the date to `fetcher`, or raises the "No date selected" toast when there is no date. It only triggers network I/O or a toast. The request URL itself is built in `src/utils/fetcher.ts`.
- The rendering: calendar, dialogs, skeletons and the fallback button list. React's state scheduling, its batching of the queued updates and StrictMode's double effect runs are also left out. They are framework and concurrency concerns. The `setFreeTimeInt(prev => ...)` updates are modelled as sequential appends to one field.
- `src/main.tsx`: DOM mounting only.
- `src/utils/types/data.d.ts`: only `start` and `end` of `Payload` are used by the logic, so `showAs` and `isBusyAllDay` are dropped. `Request` is declared but no code builds one, so it is not modelled.
- The contents of `./utils/hours` are not part of this model. The grid is the parameter `hours`. The lemmas that need a duplicate-free grid say so in their requires.
- The host `Date` object, with `getFullYear`, `getMonth`, `getDate` and `toString`, depends on the host and its time zone. The model takes integers for the first three and a string for `toString()`.
- Formatter.FormatTimeStr: a timestamp without 'T' makes the source throw a TypeError (`[1]` is undefined). The model states this as a precondition. The effect's crash is not modelled.
- Formatter.FormatDateStrFields: stated only for a non-negative year and day. A negative year would carry a '-' of its own, and `getDate()` is never negative.
- Text is `seq<char>`, counted in Unicode scalar values, while JavaScript's `length`, `substring` and `split` count UTF-16 code units. The two agree on the ASCII `HH:MM:SS` tokens, ISO timestamps and one-character ASCII separators the code uses; text outside the Basic Multilingual Plane is not modelled.
- Formatter.IntToString: JavaScript number-to-text conversion is modelled for integers only. `NaN` from an invalid date is not modelled.
