# Attendance assistant: chat route, dashboard arithmetic and the teacher's class page

This project models, in Dafny, the core of a college attendance system:

- **The `/chat` route** of the backend (`backend/routes/chatbot.js`) answers a question in natural language.
  - It asks a query generator for a database intent.
  - It runs the intent and picks a way to phrase the result.
  - It maps every failure to a response.
  - Its attendance report formatter turns a student's per-subject rows into a report. The report has an overall summary, a per-subject breakdown tagged OK or LOW, and a shortage list that says how many more classes each weak subject needs.
- **The dashboard routes** (`backend/routes/dashboard.js`) reduce fetched records to statistics:
  - attendance rates;
  - an activity feed;
  - a date-range filter;
  - per-stream semester lists.
- **The teacher's class page** (`teaching/js/myclass.js`) keeps three lists: created subjects, the attendance queue and completed classes. Its actions change those lists and roll the change back when the server refuses it. Pure helpers name stream icons and codes, load the stream list, label subjects and show a class's time slot.

The modules:

- `Js`: the JavaScript built-ins the core relies on, stated over Dafny values. This covers whitespace and `trim`, ASCII case mapping, `includes`, `startsWith`, `split`, `parseInt` without a radix (decimal, or hexadecimal after `0x`), `String(n)`, `Math.round`, `Math.ceil`, `toFixed(2)` and `slice`.
- `AttendanceReport`: `formatAttendanceReport` as a method with loops, proved equal to a specification function `Report`. Properties about the report are proved on `Report`.
- `ChatRoute`: the `/chat` handler as a function of the request body and of what the outside services answer (`Services`).
- `Dashboard`:
  - The `forEach` accumulations of `/stats` and `/attendance/stats` are methods with loops.
  - The date filter is built key by key.
  - The activity feed, the `/summary` reduction and the stream stats are functions.
- `MyClass`: class `ClassBoard` holds the three lists, and its methods change them. The helpers are functions.

A conversational question does not always get HTTP 200 and a non-empty answer from the `/chat` route (backend/routes/chatbot.js:91-120):

- the answer is the trimmed reply of the language model, which can be empty;
- a failing reply gives a 500;
- the conversational branch is taken whenever `collection` is falsy or `operation` is `null`, not only when both are `null`.

The model states these behaviours (`ChatRoute.ConversationalIsSuccess`, `ChatRoute.ServerErrorCauses`).

## Model

| member | source | states |
|---|---|---|
| Js.Trim | backend/routes/chatbot.js:77 | the trimmed text is the slice of the input that starts after its leading whitespace and is followed only by whitespace; it starts and ends with a non-space and is empty exactly when the input is blank |
| Js.IncludesIsOccurs | backend/routes/chatbot.js:238-243 | the `includes` scan is true exactly when the phrase occurs at some index |
| Js.JoinSplit | backend/routes/chatbot.js:135 | joining the parts of `split` with the separator gives back the message |
| Js.SplitJoin | backend/routes/chatbot.js:135 | splitting parts joined by a separator none of them holds gives the parts back |
| Js.SplitAfterPrefix | backend/routes/chatbot.js:135 | splitting `prefix:rest` gives the prefix, then the parts of the rest |
| Js.SplitNoSeparator | backend/routes/chatbot.js:165 | a text without the separator splits into itself alone |
| Js.ParseInt | backend/routes/dashboard.js:153 | `parseInt` of blank text is NaN; the definition reads an optional sign, then hexadecimal digits after `0x` or decimal digits, and `Js.ParseIntToString` and `Js.ParseIntHex` state what it reads |
| Js.ParseIntToString | teaching/js/myclass.js:863-872 | `parseInt` reads the decimal text of every integer back as that integer |
| Js.ParseIntHex | backend/routes/dashboard.js:153 | `parseInt` of `0x` followed by hexadecimal digits is their hexadecimal value |
| Js.ParseIntHexExample | backend/routes/dashboard.js:153 | `parseInt("0x14")` is 20 and `parseInt("-0x14")` is -20 |
| Js.Ceil | backend/routes/chatbot.js:56 | `Math.ceil(x)` is the least integer not below `x` |
| Js.Round | backend/routes/dashboard.js:78 | `Math.round(x)` lies in (x - 0.5, x + 0.5], halves going up |
| Js.Round2 | backend/routes/dashboard.js:287-288 | `Number(x.toFixed(2))` is a whole number of hundredths within half a hundredth of `x`; a tie goes away from zero (up for non-negative `x`, down for negative `x`) |
| Js.PercentOfNearExact | backend/routes/dashboard.js:287-288 | a positive whole gives a whole number of hundredths within half a hundredth of part over whole times 100; otherwise the percentage is 0 |
| Js.PercentOfBounds | backend/routes/chatbot.js:30-32 | a part not above its whole gives a percentage between 0 and 100 |
| Js.SliceTo | backend/routes/dashboard.js:188 | `slice(0, end)` is a prefix of the list of length `end` clipped to the list, with a negative `end` counted from the back |
| Js.ToUpper | backend/routes/dashboard.js:178 | every character mapped to its upper case, length kept |
| Js.RemoveSpaces | teaching/js/myclass.js:454 | no whitespace remains, every remaining character comes from the input, and the result is empty exactly for blank input |
| Js.RemoveSpacesAppend | teaching/js/myclass.js:454 | removing the whitespace of a concatenation removes it from each part, so the kept characters stay in order |
| Js.RemoveSpacesChar | teaching/js/myclass.js:454 | one character is dropped exactly when it is whitespace and kept otherwise |
| Js.ToLowerAppend | teaching/js/myclass.js:454 | lower-casing a concatenation lower-cases each part |
| AttendanceReport.Report | backend/routes/chatbot.js:17-64 | definition of the report; `AttendanceReport.FormatAttendanceReport` is proved equal to it, and `BreakdownLinesAt`, `ShortageLinesAt`, `CrashIffMissingPercentage` and `ShortageAndExcellentExclusive` state its content |
| AttendanceReport.FormatAttendanceReport | backend/routes/chatbot.js:17-64 | the method's report (lines, or the type error on line 57) equals the specification `Report` |
| AttendanceReport.SumTotals | backend/routes/chatbot.js:28-29 | the two `reduce` loops compute the total and the attended classes over all rows |
| AttendanceReport.AppendBreakdown | backend/routes/chatbot.js:44-48 | the `forEach` appends exactly one breakdown line per row, in order |
| AttendanceReport.AppendShortage | backend/routes/chatbot.js:55-58 | one shortage line per shortage row when every row has a percentage, otherwise the `toFixed` type error |
| AttendanceReport.TotalsSplit | backend/routes/chatbot.js:28-29 | the class totals of two lists of rows add up |
| AttendanceReport.StatusOf | backend/routes/chatbot.js:45-46 | a row is tagged OK exactly when its percentage rounded to two decimals reaches 75 |
| AttendanceReport.ShortageRowsMembers | backend/routes/chatbot.js:51 | a row is in the shortage list exactly when its percentage (0 if missing) is below 75 |
| AttendanceReport.ShortageRowsSplit | backend/routes/chatbot.js:51 | the shortage filter distributes over concatenation |
| AttendanceReport.ClassesNeeded | backend/routes/chatbot.js:56 | the count is `max(0, 3T - 4A)` for T classes held and A attended, and it is absent exactly when a count is missing |
| AttendanceReport.ClassesNeededIsLeast | backend/routes/chatbot.js:56 | that count is the least k >= 0 after which attending k more classes reaches 75% |
| AttendanceReport.ClassUnit | backend/routes/chatbot.js:57 | the singular "class" exactly when one class is needed |
| AttendanceReport.BreakdownLinesAt | backend/routes/chatbot.js:44-48 | one breakdown line per row, in order |
| AttendanceReport.ShortageLinesAt | backend/routes/chatbot.js:55-58 | one shortage line per shortage row, in order |
| AttendanceReport.CrashIffMissingPercentage | backend/routes/chatbot.js:51-58 | the report throws exactly when some row has no `attendancePercentage` |
| AttendanceReport.ShortageAndExcellentExclusive | backend/routes/chatbot.js:52-61 | the shortage alert and the "Excellent" note never both appear; the alert appears exactly when some subject is short; the note appears exactly when none is short and classes were held |
| AttendanceReport.LowTagIsShortage | backend/routes/chatbot.js:46-51 | a row tagged LOW is always in the shortage list |
| AttendanceReport.OkTagShortageRow | backend/routes/chatbot.js:46-51 | a row at 74.999% is tagged OK yet listed as a shortage |
| ChatRoute.Chat | backend/routes/chatbot.js:71-333 | definition of the `/chat` handler; `BadRequestIffNoText`, `ConversationalIsSuccess`, `ExecutionFailureIsSuccess`, `EmptyResultAdvice`, `ResultCountAndRawData` and `ServerErrorCauses` state its outcomes |
| ChatRoute.Execute | backend/routes/chatbot.js:122-304 | definition of the handler's steps after a database intent; `ExecutionFailureIsSuccess`, `EmptyResultAdvice` and `ResultCountAndRawData` state its outcomes |
| ChatRoute.FormatAnswer | backend/routes/chatbot.js:248-282 | definition of the phrasing step; `ChooseFormatter` states which formatter it uses and `ServerErrorCauses` when it throws |
| ChatRoute.Classify | backend/routes/chatbot.js:311-326 | definition of the error classification; `ClassifyByOccurrence` states it |
| ChatRoute.UserQuery | backend/routes/chatbot.js:74-75 | a non-empty `message` wins over `question` |
| ChatRoute.MissingTextIffBlank | backend/routes/chatbot.js:77 | the query is rejected exactly when it is not a string or is blank |
| ChatRoute.BadRequestIffNoText | backend/routes/chatbot.js:74-82 | the route answers 400 exactly when the chosen field holds no non-blank text |
| ChatRoute.ConversationalIsSuccess | backend/routes/chatbot.js:91-120 | a conversational intent answers 200 with the trimmed reply, null collection and operation, and a result count of 0 |
| ChatRoute.ExplanationOr | backend/routes/chatbot.js:117 | the intent's explanation when it is a non-empty string, otherwise the fallback |
| ChatRoute.ExecutionFailureAnswer | backend/routes/chatbot.js:131-188 | the answer to a failed execution is chosen by the message's prefix, in the source's order, and the generic error is chosen last |
| ChatRoute.StudentNotFoundName | backend/routes/chatbot.js:164-176 | a not-found message answers with the name that follows the prefix |
| ChatRoute.NoClassesConductedFields | backend/routes/chatbot.js:134-135 | a `NO_ATTENDANCE_RECORDS:name:stream:semester` message answers with that name, stream and semester |
| ChatRoute.NoAttendanceForStudentFields | backend/routes/chatbot.js:149-150 | a `STUDENT_EXISTS_NO_ATTENDANCE:name:stream:semester:id` message answers with that name, stream, semester and id |
| ChatRoute.PrefixedSplit | backend/routes/chatbot.js:134-165 | a message made of a failure prefix and its fields starts with the prefix and splits into the prefix's name, then the fields |
| ChatRoute.ExecutionFailureIsSuccess | backend/routes/chatbot.js:128-189 | every failed execution answers 200 with result count 0, the intent's collection and operation, the answer and the explanation its prefix selects (`ExecutionFailureAnswer`, `ExecutionFailureExplanation`) |
| ChatRoute.AdviceFor | backend/routes/chatbot.js:197-223 | the suggestions are the students, subjects or attendance ones exactly for those collections, and the general ones otherwise |
| ChatRoute.EmptyResultAdvice | backend/routes/chatbot.js:192-235 | an empty or falsy result answers "no results" with the collection's suggestions and result count 0 |
| ChatRoute.AttendanceReportIffPhrase | backend/routes/chatbot.js:238-243 | an explanation asks for a report exactly when its lower-cased text contains one of the five phrases |
| ChatRoute.ChooseFormatter | backend/routes/chatbot.js:248-282 | the report formatter for a report on a non-empty array; the table for more than three rows when a table is produced; otherwise the narration, or the friendly fallback when the narration throws |
| ChatRoute.ResultCount | backend/routes/chatbot.js:285-292 | the count is the array length, the number itself, or 1 |
| ChatRoute.RawDataOf | backend/routes/chatbot.js:303 | the rows are returned exactly when there are more than one, and `null` otherwise |
| ChatRoute.ResultCountAndRawData | backend/routes/chatbot.js:284-304 | a formatted non-empty result reports a non-zero count and the raw rows exactly when there are several |
| ChatRoute.ClassifyByOccurrence | backend/routes/chatbot.js:311-326 | the error kind is chosen by the substrings of the message, in the source's order, and an unknown message is passed through |
| ChatRoute.ServerErrorCauses | backend/routes/chatbot.js:306-332 | the route answers 500 exactly when the query generator throws, the conversational reply throws, or the report formatter meets a row without a percentage |
| Dashboard.PresentOf | backend/routes/dashboard.js:71 | a non-zero `presentCount` wins; otherwise the length of `studentsPresent`, which is 0 exactly when that list is absent or empty |
| Dashboard.RoundedPercent | backend/routes/dashboard.js:78 | the integer `(200p + m) div 2m` is `Math.round(100p/m)`, and 0 when m <= 0 |
| Dashboard.RoundedPercentIsRound | backend/routes/dashboard.js:78 | the integer formula and the real rounding agree for every positive denominator |
| Dashboard.RoundedPercentBounds | backend/routes/dashboard.js:78 | a part not above its whole gives a rate from 0 to 100 |
| Dashboard.Stats | backend/routes/dashboard.js:64-123 | the loop's rate is the rounded percentage of all present counts over all `totalStudents`, and 0 with no records; inactive plus active is the total; at most the first five recent students |
| Dashboard.AttendanceStats | backend/routes/dashboard.js:278-288 | the loop's totals are the sums of the present counts and of `absentCount`, the record count, and the two-decimal percentage of present over present plus absent |
| Dashboard.BuildDateFilter | backend/routes/dashboard.js:265-270 | `date` is present exactly when a start or an end is given; `$gte` exactly with a start and `$lte` exactly with an end, each holding the parameter |
| Dashboard.SummaryRate | backend/routes/dashboard.js:361-366 | the summary rate is the rounded percentage of `presentCount` alone over `totalStudents` |
| Dashboard.SummaryIgnoresStudentsPresent | backend/routes/dashboard.js:363-364 | records that agree on `presentCount` and `totalStudents` give the same summary rate |
| Dashboard.SummaryAgreesWithStats | backend/routes/dashboard.js:361-366 | without the `studentsPresent` fallback, `/summary` and `/stats` compute the same rate |
| Dashboard.SummaryMissesStudentsPresent | backend/routes/dashboard.js:361-366 | a record listing two of four students present gives 50 on `/stats` and 0 on `/summary` |
| Dashboard.ActivityLimit | backend/routes/dashboard.js:153 | the limit is the parsed number when it is non-zero, and 10 when parsing fails or gives 0 |
| Dashboard.Avatar | backend/routes/dashboard.js:178 | the first two characters of the name upper-cased, or "ST" for a missing or empty name |
| Dashboard.SortByTime | backend/routes/dashboard.js:188 | the sort keeps the length; `SortByTimeSortsAndPermutes` states that it is newest first and a permutation |
| Dashboard.SortByTimeSortsAndPermutes | backend/routes/dashboard.js:188 | the sorted feed is newest first and holds exactly the entries it was given |
| Dashboard.Activities | backend/routes/dashboard.js:171-195 | the feed is newest first, a prefix of the sorted merge of student and attendance entries, of length min(limit, entries) for a non-negative limit, and `count` is its length |
| Dashboard.TextLeTotal | backend/routes/dashboard.js:234 | any two texts are ordered one way or the other |
| Dashboard.SortAsText | backend/routes/dashboard.js:234 | the sort keeps the length; `SortAsTextSortsAndPermutes` states that it is in text order and a permutation |
| Dashboard.SortAsTextSortsAndPermutes | backend/routes/dashboard.js:234 | the default `sort()` orders the semesters by their decimal text and keeps the same semesters |
| Dashboard.FormatStreamStat | backend/routes/dashboard.js:230-235 | `semesterCount` is the number of semesters collected; the list keeps the same semesters, sorted as text |
| Dashboard.FormatStreamStats | backend/routes/dashboard.js:230-235 | one shaped entry per group, in the aggregation's order |
| Dashboard.SingleDigitSemesters | backend/routes/dashboard.js:234 | for semesters 0 to 9 the text order is the numeric order |
| Dashboard.TwoDigitSemestersSortAsText | backend/routes/dashboard.js:234 | semesters 2 and 10 are returned as 10, 2 |
| MyClass.GetIconForStream | teaching/js/myclass.js:72-84 | the mapped icon for the eight known names, and "school" exactly for any other or missing name |
| MyClass.StreamCode | teaching/js/myclass.js:454 | a stream code has no whitespace and no upper-case letter, and is empty exactly for a blank name |
| MyClass.StreamCodeAppend | teaching/js/myclass.js:454 | the code of a concatenation is the concatenation of the codes |
| MyClass.StreamCodeChar | teaching/js/myclass.js:454 | one character's code is nothing for whitespace and the character lower-cased otherwise; with the previous row this fixes every code |
| MyClass.StreamCodeIdempotent | teaching/js/myclass.js:454 | deriving a code from a code changes nothing |
| MyClass.LoadStreams | teaching/js/myclass.js:427-491 | the list is empty exactly when the response fails, is empty, or has an element the mapping cannot read; otherwise there is one stream per element, shown under its name with its icon and, for names given as strings, the derived code; for objects, each element's own `name` and `streamCode` (absent for an element that is not an object) |
| MyClass.SubjectLabel | teaching/js/myclass.js:765-771 | `name`, then `subjectName`, then `subject` for an object; the value itself otherwise |
| MyClass.SubjectOptions | teaching/js/myclass.js:762-779 | one option per subject, in order |
| MyClass.FormatTime | teaching/js/myclass.js:1098-1102 | every hour of the day gets a 12-hour label from 1 to 12 that reads back as that hour; hour 24 gets display hour 12 and PM |
| MyClass.LabelDetermined | teaching/js/myclass.js:1098-1102 | two labels with display hours from 1 to 12 that name the same hour and the same half-hour mark are the same label |
| MyClass.LabelText | teaching/js/myclass.js:1101 | the text ends with ":30" or ":00" by the half-hour mark, then "PM" or "AM" |
| MyClass.PmLabelText | teaching/js/myclass.js:1101 | the PM labels with display hours 10, 11 and 12 read "10:00 PM", "11:00 PM" and "12:00 PM" |
| MyClass.GetClassTiming | teaching/js/myclass.js:1083-1109 | definition of the slot text, the two labels joined by " - "; `ClassTiming` and `LabelDetermined` fix both labels and `LateClassTimingText` gives an example |
| MyClass.LateClassTimingText | teaching/js/myclass.js:1083-1109 | a class completed at 23:10 is shown as "11:00 PM - 12:00 PM" |
| MyClass.ClassTiming | teaching/js/myclass.js:1083-1109 | the slot starts at the completion hour, on the half hour after half past; it ends an hour later before 23:00, and at noon (display hour 12, PM) for a class completed after 23:00; both display hours lie from 1 to 12, so `LabelDetermined` fixes both labels; both ends are on the half hour exactly when the class was completed after half past |
| MyClass.LateClassEndsAtNoon | teaching/js/myclass.js:1088-1105 | a class completed at 23:10 is shown ending at 12:00 PM, not at midnight |
| MyClass.CorrectedClassTiming | teaching/js/myclass.js:1083-1109 | the slot starts at the completion hour and ends exactly one hour later, modulo 24; both display hours lie from 1 to 12 and both ends are on the half hour exactly after half past |
| MyClass.CorrectedLateClassEndsAtMidnight | teaching/js/myclass.js:1090-1105 | corrected, a class completed at 23:10 ends at "12:00 AM" |
| MyClass.CorrectedAgreesBeforeEleven | teaching/js/myclass.js:1083-1109 | the corrected slot is the page's slot for every hour before 23 |
| MyClass.FirstWithId | teaching/js/myclass.js:1468 | `find` gives the first entry with the id, or nothing when no entry has it |
| MyClass.WithoutId | teaching/js/myclass.js:1505 | the filter keeps exactly the entries whose id differs |
| MyClass.WithoutIdAppend | teaching/js/myclass.js:1505 | filtering a concatenation filters each part, so the kept entries stay in their order |
| MyClass.WithoutIdSingle | teaching/js/myclass.js:1505 | one entry is kept exactly when its id differs |
| MyClass.WithoutAbsentId | teaching/js/myclass.js:1505 | removing an id no entry has changes nothing |
| MyClass.WithoutPresentId | teaching/js/myclass.js:1556 | removing an id some entry has shortens the list |
| MyClass.WithoutIdKeepsDistinct | teaching/js/myclass.js:1505 | a queue without a repeated class keeps that property after the filter |
| MyClass.AppendDistinct | teaching/js/myclass.js:1470-1491 | pushing a class that is not queued keeps the classes distinct |
| MyClass.ClassBoard.constructor | teaching/js/myclass.js:17-19 | the three lists start empty |
| MyClass.ClassBoard.AddToQueue | teaching/js/myclass.js:1467-1501 | nothing for an unknown subject or an already queued class; otherwise the item is pushed, and popped again when saving fails; no class is queued twice |
| MyClass.ClassBoard.RemoveFromQueue | teaching/js/myclass.js:1503-1516 | the queue loses every item with the id, or is restored when saving fails |
| MyClass.ClassBoard.TakeAttendance | teaching/js/myclass.js:1542-1589 | a found item leaves the queue and a completed entry stamped now is appended; when saving fails both lists are as before |
| MyClass.ClassBoard.HandleCreateSubject | teaching/js/myclass.js:844-894 | the checks in order: missing fields, no signed-in user, a class already created with the parsed semester (never for a semester that does not parse); then the entry sent to the server |

## Left out

- The language model, the query generator, the table formatter and the database are not modelled. `ChatRoute.Services` holds what each answered. For the query generator, the query execution, the conversational reply and the narration it may instead hold the message the call threw; the table formatter and the friendly fallback formatter are plain answers.
- The dashboard's Mongo queries and aggregation pipelines are not modelled. Their results are the input sequences.
- The page's server calls are a `saved` flag.
- The markdown text of the report and of the chat answers is not reproduced. Each answer is a structured value carrying the data its template prints.
- Numbers are exact: `int` and `real`, with no floating-point rounding error. `toFixed(2)` is rounding to hundredths, halves away from zero.
- Case mapping covers ASCII letters only. There is no Unicode case folding. Characters outside the Basic Multilingual Plane are not modelled: JavaScript counts them as two UTF-16 code units (for `substring` in `Dashboard.Avatar`, for example), the model as one character.
- Request bodies and query parameters are strings, `null` or absent. Other JSON values (numbers, arrays, objects) are not modelled.
- `new Date(...)` parsing and local-time conversion are not modelled. Times are whole milliseconds or, for the class slot, local minutes. ISO date text is not modelled.
- The health endpoints (backend/routes/chatbot.js:340-376, backend/routes/dashboard.js:394-401) and the database middleware (backend/routes/dashboard.js:10-22) are not modelled.
- Concurrency is not modelled: `Promise.all` fan-out, and two page actions interleaving while a save is pending. The actions run one at a time.
- `teacherEmail` and the creation, queue and completion timestamps' text are not stored in `MyClass.Entry`.
- The session data and navigation after `takeAttendance` are not modelled.
- Reloading the lists from the server after a subject is created is not modelled. `loadAllData` and the other loaders are I/O.
- `deleteSubject`, DOM rendering and notifications are not part of this model.
- The stream and semester distributions of `/stats` are field renamings of aggregation output and are not modelled. So are the daily trends of `/attendance/stats`.
- backend/utils/schemaContext.js and the configuration files are not part of this model.
- MyClass.GetIconForStream: the source looks the name up in an object literal, so names of inherited members such as `constructor` or `toString` return that member, not "school". The model looks names up in a map and returns "school" for them.
- Dashboard.FormatStreamStat: semesters are modelled as numbers. Semesters stored as strings, or mixed with numbers, are not modelled.
- ChatRoute.ServerErrorCauses: the table formatter (backend/routes/chatbot.js:254) and the friendly fallback formatter (backend/routes/chatbot.js:268, 280) are assumed not to throw, so neither is listed as a cause of a 500.
- MyClass.SubjectLabel: a `null` element of the subjects array is not modelled. `typeof null` is "object", so the page would throw reading `subject.name`.
- AttendanceReport.FormatAttendanceReport: `attendancePercentage` is an `Option<real>`, so a `null` percentage and a missing one are both `None`. Both make the source throw at backend/routes/chatbot.js:57, but for `null` JavaScript's message reads "Cannot read properties of null (reading 'toFixed')", while the model gives the `undefined` message for both. The message reaches the user through backend/routes/chatbot.js:324.
- AttendanceReport.ClassesNeeded: a `null` count and a missing count are both `None`, giving `NaN`. In JavaScript `75 * null` is 0, so a `null` count gives a number there; only a missing count gives `NaN`.
- Dashboard.SortByTime: the sort is stable (equal timestamps keep their merge order), but no lemma states stability.

## Findings

| source | as written | input that shows it | evidently intended | confidence | as-written member | corrected member |
|---|---|---|---|---|---|---|
| teaching/js/myclass.js:1090-1105 | the end hour of the slot is `hours + 1`, and `formatTime(24)` gives "12:00 PM" | a class completed at 23:10 is shown as "11:00 PM - 12:00 PM" | the slot ends at midnight, "12:00 AM", that is hour `(hours + 1) % 24` | not executed | MyClass.ClassTiming, MyClass.LateClassEndsAtNoon, MyClass.LateClassTimingText | MyClass.CorrectedClassTiming, MyClass.CorrectedLateClassEndsAtMidnight |
