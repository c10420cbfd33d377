# Time-entry reconciliation, modelled in Dafny

The script reads a timesheet export and sends each time entry to a Notion database. It runs in four stages:

1. It reads the CSV rows into tasks. Each row's `h:m:s` duration is rounded to quarter hours, and a fresh TaskID is stamped into any row that has none.
2. A classifier returns categorised entries. The model takes the JSON text out of the classifier's answer and moves each `[TaskID: …]` marker out of the task name.
3. Each entry is routed to a database by its category and client, and the entries are grouped into one bucket per database.
4. For each bucket, the script fetches the existing records once. It then either updates the matching record (matched by TaskID, else by cleaned name) or creates a page.

The model proves what each of these steps computes. It includes the quirks of the code as written:

- The update path rounds a value that is already in hours as if it were minutes.
- The create path stores the duration unrounded.
- The TaskID sent to Notion is the classifier's `task_id`, not the id generated for the CSV row.
- The billing-month split has a branch that a whole-day date never reaches.

There are six files, each one module:

| file | module | models |
|---|---|---|
| `js.dfy` | `Js` | undefined/null, thrown errors, numbers with NaN, `trim`, `split`, `startsWith`, `Number(...)` |
| `calendar.dfy` | `Calendar` | day numbers and the month/day overflow of `new Date(y, m, d)` |
| `task_processing.dfy` | `TaskProcessing` | `TaskProcessing.js`, all pure functions |
| `notion_api.dfy` | `NotionApi` | `NotionAPI.js`: the config fold (a loop), request building, `retryOperation` (a loop) |
| `openai_api.dfy` | `OpenAiApi` | `OpenAIAPI.js` after the HTTP call: response check, code fence, TaskID pass (in place on an array) |
| `main_script.dfy` | `MainScript` | `Main.js`: `readTasksFromCSV` (in place on the row array), `groupTasksByDatabase`, `updateNotionDatabases`, `verifyDatabaseIds` |

External dependencies become parameters:

- Every HTTP answer is a parameter: the config rows, the snapshot of existing records, the billing date, the status codes and the classifier's response.
- `generateTaskId` is an oracle function of the row or call index.
- The current date is a parameter.
- A `throw` is an `Err` result. Where a loop stops on it, the method's postcondition says how far the loop got.

Two places follow the code rather than the behaviour one might expect from the function names:

- `Math.round` rounds halves up, so 7.5 minutes becomes a quarter hour. Negative halves go toward zero: -7.5 minutes becomes 0.
- The billing window is built with `new Date(year, month, billingDay)`. A billing day past the end of the task's month rolls into the next month instead of being rejected.

## Model

| member | source | states |
|---|---|---|
| TaskProcessing.RoundToQuarterHour | TaskProcessing.js:1-3 | the result is a whole number of quarter hours, within 1/8 hour of minutes/60 (lower bound strict, so halves round up) |
| TaskProcessing.RoundNumber | TaskProcessing.js:1-3 | NaN stays NaN; a finite number is rounded by RoundToQuarterHour |
| TaskProcessing.QuarterUnique | TaskProcessing.js:1-3 | any quarter value within those bounds is the result, so the bounds define the rounding |
| TaskProcessing.RoundMonotone | TaskProcessing.js:1-3 | rounding never decreases as the number of minutes grows |
| TaskProcessing.ReRound | TaskProcessing.js:1-3 | a quarter value q, expressed as 60*q minutes, rounds back to q |
| TaskProcessing.HoursReadAsMinutes | NotionAPI.js:97 | passing hours where minutes are expected maps every value in [-7.5, 7.5) to 0 |
| TaskProcessing.RoundTwiceLosesTheHour | NotionAPI.js:97 | 60 minutes round to 1 hour, and rounding that 1 again gives 0 |
| TaskProcessing.TotalMinutes | TaskProcessing.js:7 | h*60 + m + s/60, and NaN exactly when any operand is NaN |
| TaskProcessing.ParseDuration | TaskProcessing.js:5-8 | a finite result is a quarter value; with fewer than three `:`-fields the result is NaN; the result is also non-negative, but only because the modelled Number reads digit strings only (see ParseDuration under Left out) |
| TaskProcessing.ParseDurationOfFields | TaskProcessing.js:5-8 | for exactly three fields, the result is the rounded TotalMinutes of Number of each field |
| TaskProcessing.SplitThreeDigitFields | TaskProcessing.js:6 | `h:m:s` made of digit strings splits back into exactly h, m and s |
| TaskProcessing.RoundFiniteFields | TaskProcessing.js:6-7 | numeric fields give the rounded total of their values |
| TaskProcessing.ParseDurationValue | TaskProcessing.js:5-8 | three numeric fields parse to roundToQuarterHour(h*60 + m + s/60) |
| TaskProcessing.ParseDurationOfDigits | TaskProcessing.js:5-8 | `h:m:s` built from digit strings parses to the quarter-hour rounding of its total of minutes |
| TaskProcessing.RoundingExamples | TaskProcessing.js:1-7 | 90 minutes give 1.5 hours; 7 give 0; 8 and 7.5 give 0.25 |
| TaskProcessing.BillingMonthStart | TaskProcessing.js:15 | `new Date(year, month, billingDay)` for the task's month; no contract of its own, its meaning is given by BillingWindowLength and BillingWindowFacts |
| TaskProcessing.BillingMonthEnd | TaskProcessing.js:16 | the same billing day one month on; its meaning is given by BillingWindowLength and BillingWindowFacts |
| TaskProcessing.BillingWindowLength | TaskProcessing.js:15-16 | the window from BillingMonthStart to BillingMonthEnd is exactly as many days as the task's month, for any billing day, one past the month's end included |
| TaskProcessing.CalculateDurationMonth | TaskProcessing.js:10-28 | for whole-day dates: the full duration when the task's day of month is on or after the billing day (years 0..99 excepted), otherwise 0 |
| TaskProcessing.BillingWindowFacts | TaskProcessing.js:15-19 | a whole-day task date is always before the window's end; for a year in 0..99 it is also before the window's start |
| TaskProcessing.OverlapBranchNotPositive | TaskProcessing.js:23-26 | in the overlap branch the overlap is not positive, so the result is at most 0 |
| TaskProcessing.GetDatabaseId | TaskProcessing.js:31-51 | Client Work with a truthy client: the client's id if non-empty, else default; Work gives work; Personal gives personal; anything else gives default; the result is always a value of the config |
| TaskProcessing.RoutingNeverEmptyWhenVerified | TaskProcessing.js:31-51 | once default, work and personal are set, the routed id is never empty |
| TaskProcessing.Lower | TaskProcessing.js:65 | maps A-Z to a-z, U+0130 to i (the U+0307 that `toLowerCase` adds is removed by the cleaning) and U+212A (Kelvin sign) to k; every other character maps to itself |
| TaskProcessing.CleanName | TaskProcessing.js:65 | the result holds only lower-case letters, digits and white space, and is no longer than the input |
| TaskProcessing.CleanNameOfClean | TaskProcessing.js:65 | an already clean string is left unchanged |
| TaskProcessing.CleanNameAppend | TaskProcessing.js:65 | cleaning distributes over concatenation |
| TaskProcessing.CleanNameIdempotent | TaskProcessing.js:65-67 | cleaning twice is cleaning once |
| TaskProcessing.CleanNameIgnoresCase | TaskProcessing.js:65-67 | names that differ only in letter case clean alike |
| TaskProcessing.CleanNameOfRemoved | TaskProcessing.js:65 | a string of punctuation cleans to the empty string |
| TaskProcessing.NonAsciiCapitals | TaskProcessing.js:65-67 | a leading U+0130 or U+212A cleans to "i" or "k", so "İstanbul" matches "istanbul" |
| TaskProcessing.CleanNameIgnoresPunctuation | TaskProcessing.js:65-68 | inserting punctuation anywhere does not change the cleaned name, so "Fix Bug!!" matches "fix bug" |
| TaskProcessing.FindById | TaskProcessing.js:58-61 | the first record whose TaskID equals the given id, or none |
| TaskProcessing.FindByName | TaskProcessing.js:66-69 | the first record whose cleaned title equals the cleaned name; it throws when it reaches a record with no title before any match |
| TaskProcessing.FindMatchingTask | TaskProcessing.js:57-70 | a truthy taskId finds the first record with that TaskID, and finds one exactly when one exists; otherwise the match is by cleaned name, and an undefined name throws |
| TaskProcessing.NoNameFallback | TaskProcessing.js:58-62 | with a truthy taskId the name plays no part |
| NotionApi.FoldRowKeeps | NotionAPI.js:21-33 | one row of the fold keeps config equal to the last-row-wins reading of the rows seen so far |
| NotionApi.FetchDatabaseConfig | NotionAPI.js:19-33 | the fold starts from empty ids and no clients, and throws exactly when some row cannot be read; otherwise the last Default, Work and Personal rows set their ids, the clients are exactly the names on Client rows, and each maps to its last row's id |
| NotionApi.LaterRowWins | NotionAPI.js:26-28 | a later row of a category overwrites the earlier ones |
| NotionApi.OtherRowIgnored | NotionAPI.js:26-32 | a row of another category leaves an id unchanged |
| NotionApi.ClientRowHasEntry | NotionAPI.js:29-31 | every client named on a Client row has an entry |
| NotionApi.FoldRow | NotionAPI.js:26-32 | one `forEach` step; its meaning is given by FoldRowKeeps, LaterRowWins and OtherRowIgnored |
| NotionApi.FirstTruthy | NotionAPI.js:107 | `a \|\| b \|\| fresh` on TaskID candidates |
| NotionApi.UpdateRequest | NotionAPI.js:93-111 | patches the matched page: Duration is roundToQuarterHour(duration), Duration (month) is calculateDurationMonth, and TaskID is the record's TaskID, else taskId, else a fresh id |
| NotionApi.CreateRequest | NotionAPI.js:131-145 | the create has the unrounded duration, the date, the category and TaskID = taskId or a fresh id; Client is rich text and is present exactly when client is truthy |
| NotionApi.UpdateNotionTask | NotionAPI.js:82-169 | a failing match throws before anything is sent; no match leads to a create; a match fetches the billing date (which may throw) and then sends the update; the status code decides the error |
| NotionApi.Checked | NotionAPI.js:127-129 | no error exactly when the request answered with a status below 400; a status of 400 or more gives the path's failure (NotionAPI.js:160-162 on the create side); a failed request passes its error on |
| NotionApi.StatusDecidesFailure | NotionAPI.js:127-129 | once a request is sent, a status of 400 or more is what makes it fail, with UpdateFailed or CreateFailed by path; NotionAPI.js:160-162 is the create side |
| NotionApi.UpdateReplacesDuration | NotionAPI.js:96-104 | the stored Duration plays no part in the update, so it is replaced, never added to |
| NotionApi.StoredDuration | NotionAPI.js:174 | `Duration.number \|\| 0`: null and NaN read as 0 |
| NotionApi.AddNumber | NotionAPI.js:175 | addition on JS numbers; NaN propagates |
| NotionApi.UpdateExistingTask | NotionAPI.js:171-195 | patches the same page with roundToQuarterHour(stored + duration) and the name |
| NotionApi.ReplaceVersusAccumulate | NotionAPI.js:96-175 | a record storing 60, updated with duration 0: updateExistingTask writes 1 and updateNotionTask writes 0 |
| NotionApi.CreateNewTask | NotionAPI.js:197-212 | creates a page with the unrounded duration, the date, the category and TaskID = taskId or a fresh id; Client is a select, present exactly when client is truthy |
| NotionApi.CreatePathsAgree | NotionAPI.js:131-145 | createNewTask and the create path of updateNotionTask agree in every field except the kind of the Client property |
| NotionApi.BackoffIsExponential | NotionAPI.js:237-239 | the n-th wait is delay * 2^n |
| NotionApi.RetryOperation | NotionAPI.js:228-242 | at most maxRetries attempts; earlier attempts failed; the result is that of the first success; after maxRetries failures the last error is rethrown; exactly attempts-1 waits of delay, 2*delay, 4*delay, …; no attempt happens when maxRetries < 1 |
| NotionApi.RetryWithDefaults | NotionAPI.js:228 | with the defaults maxRetries = 3 and delay = 1000 (DefaultMaxRetries, DefaultDelay), every call in the script makes 1 to 3 attempts, with waits of 1000 and then 2000 ms |
| OpenAiApi.HasContent | OpenAIAPI.js:45 | the negation of the four-part check: choices, choices[0], its message and the message's content are all present and truthy; used by ExtractContent |
| OpenAiApi.ExtractContent | OpenAIAPI.js:45-49 | succeeds exactly when choices[0].message.content is present and truthy, and returns it; otherwise it throws "Unexpected response structure" |
| OpenAiApi.FindFirst | OpenAIAPI.js:50 | the first occurrence of a pattern |
| OpenAiApi.FindLast | OpenAIAPI.js:50 | the last occurrence of a pattern |
| OpenAiApi.FencePair | OpenAIAPI.js:50 | an opener followed, at or after its end, by a closer: what the pattern needs to match |
| OpenAiApi.FenceMatch | OpenAIAPI.js:50 | there is a match exactly when some opener has a closer after it; the group then starts after the first opener and ends at the last closer (greedy) |
| OpenAiApi.FirstOpener | OpenAIAPI.js:50 | where the first opener starts |
| OpenAiApi.LastCloser | OpenAIAPI.js:50 | where the last closer starts |
| OpenAiApi.ExtractJson | OpenAIAPI.js:50-51 | when the last closer lies after the first opener, the trimmed text between them; when no opener has a closer after it, the whole content, trimmed (stated without going through FenceMatch) |
| OpenAiApi.FirstAndLastUnique | OpenAIAPI.js:50 | the first opener and the last closer are unique |
| OpenAiApi.ClassifierJson | OpenAIAPI.js:45-51 | the JSON text of a response with content, and the error otherwise |
| OpenAiApi.FenceRoundTrip | OpenAIAPI.js:50-51 | a body wrapped in a json fence comes back trimmed |
| OpenAiApi.NoClosingFence | OpenAIAPI.js:50-51 | without a closer, the whole content is the JSON |
| OpenAiApi.CloseFrom | OpenAIAPI.js:58 | the first `]` not preceded by a line terminator; no result exactly when every `]` from there on has a line terminator before it |
| OpenAiApi.MarkerEnd | OpenAIAPI.js:58 | the lazy group `(.+?)` holds at least one non-newline character and ends at the first `]` after its first character: no `]` and no line terminator lies in between; no result only when every later `]` has a line terminator between the marker and it |
| OpenAiApi.MarkerFound | OpenAIAPI.js:58-61 | a marker followed on its line by a `]` past its first character is always matched, whatever precedes it (brackets included): the leftmost match starts at or before it |
| OpenAiApi.FirstMarkerFound | OpenAIAPI.js:58-61 | when no earlier text spells the marker, the leftmost match is that marker, ending at its first `]`, so ExtractMarker returns its id and the rest of the name |
| OpenAiApi.FindMarker | OpenAIAPI.js:58 | the leftmost marker position that matches |
| OpenAiApi.ExtractMarker | OpenAIAPI.js:58-61 | the id between `[TaskID: ` and `]`, and the name without the marker, trimmed |
| OpenAiApi.RemovedIsMarker | OpenAIAPI.js:58-61 | the removed text is exactly `[TaskID: ` + id + `]`, and the id is non-empty without line terminators |
| OpenAiApi.MarkerRoundTrip | OpenAIAPI.js:58-61 | a marker inserted after text without `[` is found again, with the same id and the surrounding text, trimmed |
| OpenAiApi.NoBracketNoMarker | OpenAIAPI.js:58-59 | a name without `[` carries no marker |
| OpenAiApi.Preserved | OpenAIAPI.js:58-62 | moves the marker's id into task_id and the cleaned name into task; a name without a marker leaves the entry unchanged |
| OpenAiApi.FirstUnreadable | OpenAIAPI.js:57-58 | the first entry whose `task` cannot be matched |
| OpenAiApi.PreserveTaskIds | OpenAIAPI.js:57-63 | updates the entries in place up to the first unreadable one, which throws a TypeError; the later entries stay untouched |
| OpenAiApi.UnreadableStops | OpenAIAPI.js:57-58 | characterises where the pass stops |
| OpenAiApi.PreservedChangesOnlyMarkedNames | OpenAIAPI.js:58-62 | an entry changes exactly when its name carries a marker |
| MainScript.Listed | Main.js:42 | `row[0] && !row[0].startsWith("#")`; its meaning is given by ListedFrom, TasksAreListedNames and UnlistedRowsIgnored |
| MainScript.Unreadable | Main.js:43-44 | a listed row without a duration cell, on which `split` throws; used by FirstUnreadableRow and ReadTasksFromCsv |
| MainScript.HasTaskId | Main.js:47-48 | cell 3 is present and non-empty; used by TaskOf and Stamped |
| MainScript.TaskOf | Main.js:43-52 | name is row[0]; duration is parseDuration(row[1]); taskId is row[3] when non-empty, else a fresh id |
| MainScript.SetCell | Main.js:49 | writing cell 3 pads a short row and changes no other cell |
| MainScript.Stamped | Main.js:47-50 | after the body, cell 3 holds the task's id and every other cell is unchanged, a short row being padded to four cells; a row that had an id is unchanged |
| MainScript.TasksFrom | Main.js:41-55 | the tasks in row order: the reference for ReadTasksFromCsv, characterised by TasksMatchListedRows, TasksAreListedNames and UnlistedRowsIgnored |
| MainScript.TasksAreListedNames | Main.js:41-52 | at most one task per row, and every task's name is a first cell that is neither empty nor starts with "#" |
| MainScript.ListedFrom | Main.js:41-42 | the listed rows, in increasing order |
| MainScript.FirstUnreadableRow | Main.js:43-44 | the first listed row without a duration cell |
| MainScript.TasksMatchListedRows | Main.js:41-55 | without unreadable rows, the tasks correspond one to one and in order to the listed rows |
| MainScript.UnlistedRowsIgnored | Main.js:41-42 | replacing one of the six header rows by any row, or an unlisted row (empty or starting with "#") by another unlisted row, leaves the tasks unchanged |
| MainScript.TasksFromSuffix | Main.js:41 | the tasks read from row `from` on depend only on the rows from `from` on |
| MainScript.RowAfter | Main.js:47-50 | a row the loop has not stamped keeps its contents |
| MainScript.RowsAfter | Main.js:47-50 | every row as the loop left it once it has passed a given index: RowAfter row by row |
| MainScript.RowsAfterStep | Main.js:41-50 | passing a readable row changes that row alone, stamping it exactly when it is listed |
| MainScript.ReadStop | Main.js:41-44 | the index where reading stops: a listed row from index 6 on without a duration cell, with none before it, or the end |
| MainScript.ReadStep | Main.js:41-55 | each readable row appends its task exactly when it is listed |
| MainScript.ReadTasksFromCsv | Main.js:34-60 | skips 6 header rows; returns the tasks of the listed rows, or throws at the first listed row without a duration; each row is as left by the loop (stamped when listed and before the stop) |
| MainScript.FindTask | Main.js:74 | the first input task with that name |
| MainScript.RouteOne | Main.js:67-99 | drops non-objects, names found in no input task and entries routed to ""; otherwise records cleaned_task, that task's duration, today, category, client, the classifier's task_id and the routed id |
| MainScript.OptionSeq | Main.js:91 | zero or one entries |
| MainScript.Routed | Main.js:67-100 | at most one entry per classifier entry, each with a non-empty id equal to getDatabaseId |
| MainScript.RoutedAppend | Main.js:67 | routing a list routes its parts in order |
| MainScript.KeysOf | Main.js:87-89 | the distinct database ids, in order of first appearance |
| MainScript.Select | Main.js:91-99 | a bucket holds exactly the entries for its id, in list order |
| MainScript.Grouped | Main.js:63-104 | one bucket per key, in creation order, holding that key's entries |
| MainScript.SelectAppend | Main.js:91-99 | appending keeps earlier entries first |
| MainScript.GroupedKeepsEveryEntry | Main.js:87-99 | the buckets hold exactly the routed entries in number |
| MainScript.GroupingFacts | Main.js:81-99 | at most one entry per classifier entry; each entry sits under its routed id, which equals getDatabaseId |
| MainScript.VerifiedConfigRoutesEverything | Main.js:74-85 | with verified ids, only non-objects and unmatched names are dropped |
| MainScript.RoutedStep | Main.js:67 | one step of the forEach |
| MainScript.SnocFacts | Main.js:87-91 | the keys and buckets after one push |
| MainScript.GroupTasksByDatabase | Main.js:63-104 | the dictionary built by the loop, read as Object.entries, is Grouped(Routed(...)) |
| MainScript.GroupStep | Main.js:87-91 | one push keeps the dictionary and key order in step with the routed entries |
| MainScript.SelectAbsent | Main.js:87-88 | a key not yet created has no entries |
| MainScript.SharedSnapshotCreatesTwice | Main.js:110-123 | two tasks of a bucket with the same TaskID, not in the shared snapshot, both take the create path |
| MainScript.Outcome | Main.js:113-123 | what a recorded call sends or throws: updateNotionTask on the call's arguments and answers |
| MainScript.TaskCall | Main.js:113-123 | the call for one task, with its bucket's shared snapshot and its own `fetchBillingDate` answer (NotionAPI.js:98 runs once per matched task) |
| MainScript.SnapshotOf | Main.js:110 | the snapshot fetch of a bucket, throwing on an empty bucket; GroupedBucketsNonEmpty shows that case never arises from groupTasksByDatabase |
| MainScript.BucketCalls | Main.js:111-128 | one call per task, in order, each with the shared snapshot |
| MainScript.FirstFailedFetch | Main.js:108-110 | the first bucket whose snapshot fetch fails |
| MainScript.UpdateBucket | Main.js:111-128 | every task of the bucket is sent, whatever the earlier ones did |
| MainScript.UpdateNotionDatabases | Main.js:107-130 | one fetch per bucket up to the first failure, which ends the run with its error; the calls are those of every task of every fetched bucket |
| MainScript.StoppedAt | Main.js:108-110 | where the loop stops, its results are those the postcondition names |
| MainScript.DatabaseIds | Main.js:108-110 | the ids of the first n buckets |
| MainScript.CallsUpToStep | Main.js:108-128 | one more bucket appends its calls |
| MainScript.FirstFailedAt | Main.js:108-110 | characterises the first failed fetch |
| MainScript.EveryTaskAttempted | Main.js:108-128 | the number of calls equals the number of tasks in the fetched buckets |
| MainScript.TotalSizeAppend | Main.js:108 | bucket sizes add up |
| MainScript.OneFetchPerDatabase | Main.js:108-110 | the buckets name distinct databases, so each snapshot is fetched once |
| MainScript.GroupedBucketsNonEmpty | Main.js:110 | no bucket is empty, so reading `tasks[0].date` does not throw |
| MainScript.VerifyDatabaseIds | Main.js:133-141 | throws exactly when one of default, work and personal is empty, naming the first such key; otherwise returns with nothing changed |
| Js.TrimStart | OpenAIAPI.js:51 | removes exactly the leading white space |
| Js.TrimEnd | OpenAIAPI.js:51 | removes exactly the trailing white space |
| Js.Trim | OpenAIAPI.js:51 | the result neither starts nor ends with white space |
| Js.TrimRemovesOnlySpace | OpenAIAPI.js:61 | the result is a slice of the input, with only white space outside it |
| Js.TrimOfNoSpace | OpenAIAPI.js:51 | trimming a string without white space leaves it unchanged |
| Js.TrimIdempotent | OpenAIAPI.js:61 | trimming twice is trimming once |
| Js.IndexOf | TaskProcessing.js:6 | the first occurrence of a character |
| Js.Split | TaskProcessing.js:6 | at least one part, none containing the separator |
| Js.IndexOfAfter | TaskProcessing.js:6 | the first separator after a separator-free prefix |
| Js.SplitCons | TaskProcessing.js:6 | a separator-free prefix becomes the first part |
| Js.SplitJoin | TaskProcessing.js:6 | joining what split returns gives back the string |
| Js.JoinSplit | TaskProcessing.js:6 | splitting what join returns gives back the parts |
| Js.ToNumber | TaskProcessing.js:6 | finite exactly for blank or all-digit strings, with a non-negative whole value |
| Js.DigitIsNotSpace | TaskProcessing.js:6 | digits are not white space |
| Js.DigitsHaveNoSpace | TaskProcessing.js:6 | a digit string has no white space |
| Js.ToNumberOfDigits | TaskProcessing.js:6 | Number of a digit string is its decimal value |
| Calendar.MakeDay | TaskProcessing.js:15-16 | the day number of `new Date(y, m, d)` with month and day overflow; its meaning is given by MakeDayInYear, MonthOverflow, DayOverflow and MakeDayByDay |
| Calendar.NewDate | TaskProcessing.js:15-16 | MakeDay with years 0..99 read as 1900..1999; see TwoDigitYearIsLater |
| Calendar.MakeDayByDay | TaskProcessing.js:15-16 | the day of month counts on from the 1st, in or out of the month's range |
| Calendar.NextMonthSameDay | TaskProcessing.js:15-16 | the same day of the next month is DaysInMonth days later |
| Calendar.DaysInMonth | TaskProcessing.js:15-16 | each month has from 28 to 31 days |
| Calendar.MakeDayInYear | TaskProcessing.js:15-16 | inside a year, the day number adds the days before the month and the day of month |
| Calendar.YearLength | TaskProcessing.js:16 | a year has 366 days if it is a leap year, else 365 |
| Calendar.MonthLength | TaskProcessing.js:16 | the 1st of the next month is DaysInMonth days later, including December to January |
| Calendar.DayOverflow | TaskProcessing.js:15-16 | a day past the month's end is that many days into the next month (June 31 is July 1) |
| Calendar.MonthOverflow | TaskProcessing.js:16 | month index 12 is January of the next year |
| Calendar.BeforeNextMonth | TaskProcessing.js:16-19 | every date of a month lies before every day of the next month |
| Calendar.YearsAtLeast | TaskProcessing.js:15 | n years span at least 365*n days |
| Calendar.TwoDigitYearIsLater | TaskProcessing.js:15-16 | `new Date` reads years 0..99 as 1900..1999, which lie after every day of the year itself |
| Calendar.MonthBounds | TaskProcessing.js:15-16 | the days before a month are between 0 and 335 |

## Left out

- The HTTP requests, their URLs, headers and bodies, and `JSON.parse`. Their results are parameters: config rows, snapshots, billing dates, status codes, and the response and entry records.
- The config cache (NotionAPI.js:2-6, 35), script properties, logging and the email notification: platform services with no logic of their own.
- `main` and `processSummaryCSV`, which wire the stages together, their top-level try/catch, and the trigger setup. They only orchestrate.
- The Drive fetch and `Utilities.parseCsv`: the model starts from the parsed rows.
- `Utilities.getUuid` (`generateTaskId`): an oracle function of the row or call index.
- The classifier prompt and model choice: not deterministic logic.
- The retry wrappers around the config fold, the classifier call, `fetchBillingDate` (NotionAPI.js:49), `getExistingTasks` (NotionAPI.js:74), `updateExistingTask` and `createNewTask`. `retryOperation` is modelled on its own (RetryOperation, RetryWithDefaults), with the attempt outcomes as a parameter. The billing date and the snapshot are taken as the results of those wrapped calls.
- `Utilities.sleep`: the waits are recorded instead.
- The `if (!existingTasks)` refetch in `updateNotionTask` (NotionAPI.js:86-88). `updateNotionDatabases` always passes an array, and an array is truthy, so the branch never runs from there.
- The key order of `Object.entries`: the model uses key-creation order. JavaScript puts integer-like keys first; database ids are not integer-like.
- IEEE-754 rounding: numbers are exact reals.
- Lower: other letters whose lower case is not an ASCII letter map to themselves. `toLowerCase` would change them, but both forms are removed by the cleaning, so CleanName is unaffected.
- Time zones: `new Date("yyyy-MM-dd")` is UTC while `new Date(y, m, d)` is local time. All dates are calendar days in one zone, and billing dates are compared as whole days.
- ParseDuration: its result is non-negative only because ToNumber reads a sign as NaN. `Number("-1")` is -1, so `parseDuration("-1:00:00")` gives -1, where the model gives NaN.
- ToNumber: blank and digit strings only. Decimals, signs and exponents read as NaN here, though `Number` would accept them.
- SetCell: the holes an out-of-range array write leaves are modelled as empty strings.
- CalculateDurationMonth: states its result for valid whole-day dates only. An out-of-range date such as 30 February is not handled as `new Date` handles it: only the task's day number is normalised, while the billing window is built from the raw year and month, so `CalculateDurationMonth` may give 0 where JavaScript gives the duration or NaN. Every caller passes a formatted, valid date.
- RoundingExamples: the boundary cases are stated on minutes given to RoundToQuarterHour. The `"h:m:s"` string literals are covered generally by ParseDurationOfDigits.
- UpdateNotionDatabases: records each call with the answers it receives instead of executing it. What a call sends or throws is `Outcome` of that call.
- The TaskIDs stamped into the CSV rows exist only in memory. The file is never written back, and the model keeps it that way.
