# Schedule screen helpers of the RANEPA timetable viewer

This project models the helpers at the top of the timetable screen of a
React Native timetable viewer (`screens/Schedule.tsx`), with proofs:

- **groupByDate** buckets the lesson records returned by the schedule service
  by their date string `xdt`. The screen then renders one section per date,
  in the order the dates were first inserted.
- **getFullTypeName** expands the lesson-type abbreviations `Лек` and `Прак`.
  The card applies it to the part of `type` before the first comma.
- **getAddressAndRoom** splits a room code into a campus address and a room
  number. The prefix `П8-` means `Пушкина 8` and the prefix `СО` means
  `Пушкина 10`. The card shows `Аудитория <room number>, <address>`.
- **formatDate** renders a date as `dd.mm.yyyy` for the request body.
- **addDays** returns a copy of a date moved by whole days.
- **formatHumanReadableDate** builds a day heading from its weekday, day
  and month names.
- The request body: the fixed group id `18792`, today, and the day 7 days
  later.

Modules, leaf first:

- `Text` holds the JavaScript string primitives these helpers use:
  `startsWith`, `indexOf`, `replace` with a string pattern, `split(',')[0]`,
  `padStart` and `String(n)`.
- `Lessons` holds the lesson record, the type-name and room helpers, and the
  composition of one lesson card.
- `Grouping` holds `groupByDate`. The source fills a dictionary in a loop,
  so the model is a method that does the same. It is proved against the
  specification functions `Dates`, `Bucket` and `Grouped`.
- `Calendar` holds the proleptic Gregorian calendar over a day count. It
  gives what `getDate`, `getMonth` and `getFullYear` answer for a day.
- `ScheduleDates` holds a `LocalDate` class. It stands for a JavaScript
  `Date` and has one field, the day count. `setDate` updates that field in
  place. This module also holds `addDays`, `formatDate`, the day heading and
  the request body.

Details of the code that the model keeps:
- The campus prefixes are the Cyrillic `П8-` and `СО`.
- For `СО` codes, the first `СО ` (with a space) is removed wherever it
  stands. A code without one is kept unchanged.
- A code such as `СДО` starts with `СО`'s first letter only, so it goes to
  the fallback branch.
- The dates are rendered in dictionary insertion order.
- The request covers a fixed window of 7 days.

## Model

| member | source | states |
|---|---|---|
| Lessons.FullTypeName | screens/Schedule.tsx:27-36 | `Лек` becomes `Лекция` and `Прак` becomes `Практическое занятие`; every other text is returned unchanged |
| Lessons.FullTypeNameChanges | screens/Schedule.tsx:27-36 | the type text is changed exactly when it is one of the two abbreviations |
| Lessons.FullTypeNameIdempotent | screens/Schedule.tsx:27-36 | expanding an already expanded name changes nothing |
| Lessons.TypeLabel | screens/Schedule.tsx:141 | the card shows `Лекция` exactly when the segment before the first comma is `Лек` or `Лекция`, the practice name exactly when it is `Прак` or the practice name, and any other segment as it is |
| Lessons.TypeLabelSpec | screens/Schedule.tsx:141 | a type text without a comma is expanded as a whole, and text after the first comma never changes the label |
| Lessons.AddressAndRoom | screens/Schedule.tsx:37-55 | the address is `Пушкина 8` iff the code starts with `П8-`, `Пушкина 10` iff it starts with `СО`, and empty iff neither; with an empty address the room number is the code itself |
| Lessons.CampusPrefixesExclusive | screens/Schedule.tsx:38-43 | no room code starts with both campus prefixes |
| Lessons.Pushkina8Room | screens/Schedule.tsx:38-42 | for a `П8-` code, the room number is the code without its leading `П8-`, and prefixing `П8-` gives the code back |
| Lessons.Pushkina10Room | screens/Schedule.tsx:43-47 | for a `СО` code, the first `СО ` anywhere in the code is cut out and reinserting it at that index restores the code; with no `СО ` the code is kept; a code starting with `СО ` loses exactly that prefix |
| Lessons.RoomLabel | screens/Schedule.tsx:150 | the room line is `Аудитория `, then the room number, then `, `, then the address, and nothing else |
| Lessons.RoomLabelShape | screens/Schedule.tsx:37-55 | an unrecognised code appears verbatim followed by an empty address; a `П8-` code appears without its prefix before `Пушкина 8`; a `СО` code appears with its first `СО ` cut out before `Пушкина 10` |
| Lessons.CardFor | screens/Schedule.tsx:140-153 | a card shows the lesson's start time, end time and subject unchanged |
| Lessons.CardForSpec | screens/Schedule.tsx:141-150 | the card's type line is `Лекция`, the practice name, or the first type segment itself, by the rule of `TypeLabel`; its room line is the `П8-`, `СО` or fallback line of `RoomLabelShape` |
| Grouping.GroupByDate | screens/Schedule.tsx:20-25 | the push loop returns the dates in first-insertion order (`Dates`) and the dictionary `Grouped(lessons)` of one bucket per date; empty input gives an empty dictionary |
| Grouping.DatesMembers | screens/Schedule.tsx:20-25 | the listed dates are exactly the dates that occur in the input, each listed once |
| Grouping.BucketMembers | screens/Schedule.tsx:22 | a lesson is in a bucket iff it is in the input and the bucket is keyed by its own date |
| Grouping.BucketAppend | screens/Schedule.tsx:22 | the bucket of a concatenation is the first part's bucket followed by the second's, so lessons keep their relative input order |
| Grouping.BucketCount | screens/Schedule.tsx:21-23 | a bucket holds each lesson of its date as many times as the input does, and no lesson of another date |
| Grouping.GroupedSnoc | screens/Schedule.tsx:21-24 | one reduction step appends the lesson to its date's bucket, creating the bucket if it is missing, and leaves all other buckets unchanged |
| Grouping.GroupedPartition | screens/Schedule.tsx:20-25 | every lesson is in the bucket of its own date and in no other |
| Grouping.GroupedFlatten | screens/Schedule.tsx:20-25 | concatenating the buckets in date order gives the input as a multiset; the bucket sizes add up to the input length |
| Calendar.CivilOf | screens/Schedule.tsx:79-81 | the date of a day count is a valid calendar date whose day count is that day |
| Calendar.CivilOfOrdinal | screens/Schedule.tsx:79-81 | the date of a valid date's day count is that date |
| Calendar.OrdinalInjective | screens/Schedule.tsx:79-81 | distinct valid dates have distinct day counts |
| Calendar.NextDayIsSuccessor | screens/Schedule.tsx:86 | the day after day n is the calendar's next day after n's date, rolling over month ends, year ends and leap days |
| ScheduleDates.LocalDate.Copy | screens/Schedule.tsx:85 | `new Date(date)` is a separate object on the same day |
| ScheduleDates.LocalDate.GetDate | screens/Schedule.tsx:79 | the day of the month lies between 1 and the month's length |
| ScheduleDates.LocalDate.GetMonth | screens/Schedule.tsx:80 | the month is counted from 0 and is below 12 |
| ScheduleDates.LocalDate.GetFullYear | screens/Schedule.tsx:81 | the year is the one whose days include the date's day |
| ScheduleDates.LocalDate.SetDate | screens/Schedule.tsx:86 | `setDate(d)` moves the date to day `d` counted from the first of its month |
| ScheduleDates.SetDateInMonth | screens/Schedule.tsx:86 | `setDate` with a day `d` inside the month gives day `d` of the same year and month |
| ScheduleDates.AddDays | screens/Schedule.tsx:84-88 | the result is a fresh object, `days` days after the argument; the argument is not modified |
| ScheduleDates.NextDaysOrdinal | screens/Schedule.tsx:84-88 | stepping k times to the calendar's next day adds k to the day count |
| ScheduleDates.AddDaysIsCalendarDays | screens/Schedule.tsx:84-88 | moving k days on gives the same date as taking the calendar's next day k times |
| ScheduleDates.Pad2Digits | screens/Schedule.tsx:79-80 | a day or month below 100, padded, is exactly two digits that read back as the number |
| ScheduleDates.FormatCivil | screens/Schedule.tsx:78-83 | the text has the shape `DD.MM.` followed by the year: two digits, a dot, two digits, a dot, and the unpadded year |
| ScheduleDates.FormatDate | screens/Schedule.tsx:78-83 | splitting the text on `.` gives the padded day, the padded month and the year of the date, and reading it back gives the date |
| ScheduleDates.FormatDateFields | screens/Schedule.tsx:78-83 | `formatDate` is the padded day, `.`, the padded `getMonth() + 1`, `.`, and the unpadded year |
| ScheduleDates.FormatCivilRoundTrip | screens/Schedule.tsx:78-83 | splitting the output on `.` gives the two-digit day, the two-digit month and the unpadded year, and parsing the output gives the date back |
| ScheduleDates.FormatCivilInjective | screens/Schedule.tsx:78-83 | distinct dates are formatted differently |
| ScheduleDates.BuildRequest | screens/Schedule.tsx:99-103 | the body carries the id `18792`, today's date, and the date 7 days later, both formatted |
| ScheduleDates.RequestWindowSpan | screens/Schedule.tsx:101-102 | `dateEnd` parses to the date 7 calendar days after the date `dateBegin` parses to |
| ScheduleDates.HumanDate | screens/Schedule.tsx:65-75 | `<weekday>, <day> <month>` parses back to the weekday, day and month indices it was built from |
| Text.StartsWithRest | screens/Schedule.tsx:38-43 | `startsWith(p)` holds exactly when the string is `p` followed by the rest of the string |
| Text.IndexOf | screens/Schedule.tsx:46 | the index found is the first occurrence of the pattern; none is found only when the pattern occurs nowhere |
| Text.ReplaceFirst | screens/Schedule.tsx:41-46 | `replace` with a string pattern replaces only the first occurrence; with no occurrence, the string is returned unchanged |
| Text.BeforeFirst | screens/Schedule.tsx:141 | `split(',')[0]` is the longest prefix with no comma; when it is shorter than the string, a comma follows it |
| Text.PadStart | screens/Schedule.tsx:79-80 | `padStart` keeps the string as the suffix and fills up to the width with the fill character |
| Text.IntToStringRoundTrip | screens/Schedule.tsx:79-82 | `String(n)` reads back as `n`, for negative years too |

## Left out

- The React component body (lines 58-175) is not modelled: `useState`, `useEffect`, the loading flag, the `fetch` POST to the schedule service, the response checks and the console logging. They are UI state and network I/O. `BuildRequest` models only the request body the component builds.
- `formatHumanReadableDate` parses its date string with `new Date(dateString)` and reads `getUTCDay`, `getUTCDate` and `getUTCMonth` (lines 69-72). That parsing is JavaScript library behaviour, so it is left out. `HumanDate` takes the weekday, day and month indices already decomposed. For an unparsable string the source renders `undefined, NaN undefined`; the model has no such input.
- HumanDate: the heading is built for every natural day number. It is not restricted to the 1..31 that `getUTCDate` returns.
- The clock is not modelled: `new Date()` becomes the `today` parameter of `BuildRequest`. The source reads the clock twice (lines 101 and 102), so a request built across midnight is not modelled.
- `LocalDate` is a local calendar day. Its time of day, time zones, changes of daylight-saving time during `setDate`, and the finite range of JavaScript dates are not modelled.
- GroupByDate: in JavaScript, keys that are canonical array indices (such as `"5"`) are listed first, in ascending order. Keys such as `__proto__` and `constructor` clash with members of `Object.prototype`. The model treats the dictionary as a plain map whose keys are in insertion order. Dates such as those the service sends are not such keys.
- The card's `showBg` and `showBg1` flags (lines 151-152) are always the constant `false`. They are presentation flags of the card component, so `LessonCard` does not carry them.
- The buckets hold references to the lesson objects, and the model holds values. No helper modifies a lesson, so aliasing does not matter here.
- Dafny strings are sequences of Unicode scalar values, while JavaScript strings are sequences of UTF-16 code units. A character outside the Basic Multilingual Plane in a room code or type text counts as two units in JavaScript and as one in the model, so indices and lengths inside such a string differ. The result strings still agree, because every search in these helpers looks for a literal made of Basic Multilingual Plane characters or for `','`, and such a match never splits a surrogate pair. A JavaScript string holding a lone surrogate cannot be held in a Dafny string at all, so such input is not modelled.
- AddDays: `days` is an integer. In JavaScript it is a number: `setDate` truncates a fractional day toward zero, and a `NaN` or infinite argument gives an invalid date. Neither case is modelled. The screen only ever passes 7.
- The other files are not part of this model: the storage hooks, the group contexts and slices, the store, the version check, the style helpers and the layout components. They are persistence, network I/O, framework wiring and presentation.
