# summerjob data-handling rules in Dafny

summerjob is the web application that plans a summer volunteer camp: proposed jobs, workers,
their rides and plans. Most of it is React forms, Next.js API routes and database calls; this
project models the sequential rules underneath them and proves what they promise:

- the input normalisers and list/date helpers of `web/lib/helpers/helpers.ts`
  (`Helpers`, with JavaScript's `filter`, `includes` and insertion-ordered `Map` in `Seqs`
  and `JsMap`);
- the photo-path rewrite of `web/lib/api/fileManager.ts` (`FileManager`);
- the upload rules of `web/lib/api/parse-form.ts`: size limits, the per-request file-name
  generator with its `count`, the image-only filter, `getJson` and `getPhotoPath`
  (`ParseForm`);
- the proposed-jobs table: the four-bucket partition, `sortJobs` and the composed view
  (`JobsTable`, with the sort in `Sorting`), and the row logic: colour class, update
  payloads, icons, available days (`ProposedJobRow`);
- the workers page: URL flags, the full-text index and the three-stage filter
  (`WorkersClientPage`);
- the photo list of the proposed-job edit form (`EditProposedJobForm`);
- the passenger grouping of a job's rides (`JobRideList`);
- the tool to job-type table (`ToolMapping`);
- the API method dispatcher and its error-to-status mapping, after sections 9.3 and
  15.5.6 of RFC 9110 (`MethodHandler`).

Dates are millisecond timestamps (`int`). Strings are `seq<char>`. State that the source
changes in place is modelled as classes: the upload namer's `count`, the edit form's photo
values and the API response. Foreign code is passed in as function parameters:
`mime.getExtension`, `JSON.parse`, `normalizeString`, `toLowerCase`, `toUpperCase` of one
character, `formatDateShort`, and the Unicode letter test `\p{L}`.

## Model

| member | source | states |
|---|---|---|
| `Helpers.CapitalizeFirstLetter` | web/lib/helpers/helpers.ts:3-5 | the result is the upper-cased first character followed by the rest unchanged; empty stays empty |
| `Helpers.DatesBetween` | web/lib/helpers/helpers.ts:70-80 | the loop pushes exactly the day series from `start` while not after `end` |
| `Helpers.DaySeriesShape` | web/lib/helpers/helpers.ts:70-80 | the series has `(end-start)/day + 1` entries (none when `start > end`), the i-th being `start + i` days |
| `Helpers.DaySeriesMembers` | web/lib/helpers/helpers.ts:70-84 | a timestamp is in `datesBetween` iff `isBetweenDates` holds (inclusive at both ends) and it is a whole number of days after `start` |
| `Helpers.DaySeriesOfDayNumbers` | web/lib/helpers/helpers.ts:70-80 | for day numbers `s..e` the series has `e - s + 1` days, and none when `s > e` |
| `Helpers.DatesAfterDateSpec` | web/lib/helpers/helpers.ts:115-117 | the result holds exactly the dates `>=` the cutoff, each as often as the input has it, as an order-preserving subsequence |
| `Helpers.FilterUniqueByIdSpec` | web/lib/helpers/helpers.ts:86-88 | result ids are pairwise distinct, are exactly the input's ids, come in first-occurrence order, and each kept element is the last one with its id |
| `JsMap.FromEntries` | web/lib/helpers/helpers.ts:87 | `new Map(entries)` lists every key once and has an entry for exactly the listed keys |
| `JsMap.FromEntriesKeys` | web/lib/helpers/helpers.ts:87 | a key has an entry iff some input entry has that key |
| `JsMap.FromEntriesLastWins` | web/lib/helpers/helpers.ts:87 | the stored value is that of the last entry with the key |
| `JsMap.FromEntriesOrder` | web/lib/helpers/helpers.ts:87 | keys are listed in the order of their first occurrence |
| `Helpers.Pick` | web/lib/helpers/helpers.ts:125-132 | the result has exactly the given keys, each mapped to `obj[key]` or to `undefined` when absent |
| `Helpers.PickPartialUpdate` | web/lib/helpers/helpers.ts:119-132 | applying `pick(form, ...dirty)` as a partial update changes exactly the dirty fields the form holds, to the form's values, and nothing else |
| `Helpers.Digits` | web/lib/helpers/helpers.ts:136 | `replace(/\D/g, '')` leaves only digits |
| `Helpers.FormatNumberFixedPoints` | web/lib/helpers/helpers.ts:152-155 | `formatNumber` leaves a string unchanged iff it is all digits |
| `Helpers.FormatNumberSpec` | web/lib/helpers/helpers.ts:152-155 | `formatNumber` is idempotent and returns exactly the input's digits, each as often as the input has it, as an order-preserving subsequence |
| `Helpers.GroupDigitsSpec` | web/lib/helpers/helpers.ts:143 | grouping a digit string puts a single space at every fourth position, never at the end, and loses no digit |
| `Helpers.FormatPhoneNumberSpec` | web/lib/helpers/helpers.ts:134-145 | keeps the first min(n,12) digits after a leading `+`, else min(n,9), drops every non-digit, starts with `+` iff the input did, and is grouped by three |
| `Helpers.FormatPhoneNumberIdempotent` | web/lib/helpers/helpers.ts:134-145 | re-formatting a formatted phone number changes nothing |
| `Helpers.TrimStart` | web/lib/helpers/helpers.ts:149 | `trimStart` returns a suffix of the input that does not start with whitespace, and what it removes is all whitespace |
| `Helpers.CollapseShape` | web/lib/helpers/helpers.ts:149 | after collapsing `\s+` to one space, a string of letters and whitespace has only letters and single spaces |
| `Helpers.TrimStartShape` | web/lib/helpers/helpers.ts:149 | trimming the front of a collapsed string keeps single spaces and removes any leading one |
| `Helpers.CollapseIdentity` | web/lib/helpers/helpers.ts:149 | collapsing a string with only single spaces changes nothing |
| `Helpers.FormatNameSpec` | web/lib/helpers/helpers.ts:147-150 | `formatName` yields letters and single spaces with no leading whitespace, keeps every letter of the input in order, and is idempotent |
| `Helpers.CollapseLetters` | web/lib/helpers/helpers.ts:149 | collapsing whitespace runs removes no letter and adds none |
| `Helpers.TrimStartLetters` | web/lib/helpers/helpers.ts:149 | `trimStart` removes no letter |
| `Helpers.AllowForNumberSpec` | web/lib/helpers/helpers.ts:157-162 | only the five editing keys and keys made of digits are let through, every other key is blocked; a one-character key passes iff it is a digit; the editing keys always pass |
| `Helpers.AllowForNumberSubstrings` | web/lib/helpers/helpers.ts:160 | the `includes` substring test also lets through the empty key and runs of consecutive digits such as `45`, but not `54` |
| `FileManager.LastIndexOf` | web/lib/api/fileManager.ts:31-32 | `lastIndexOf` is -1 iff the character is absent, else the position of an occurrence with none after it |
| `FileManager.UpdatePhotoPathSpec` | web/lib/api/fileManager.ts:27-44 | empty string when `/` or `.` is missing; otherwise directory up to the last `/`, the new name, and the tail from the last `.`, with the length that implies; never undefined |
| `FileManager.RenameTwice` | web/lib/api/fileManager.ts:27-44 | renaming a renamed path equals renaming the original with the second name, when the extension follows the last `/` and the first name has neither `/` nor `.` |
| `FileManager.DotInDirectory` | web/lib/api/fileManager.ts:40-41 | with the last `.` before the last `/`, the kept tail starts at that dot: `a.b/c` renamed to `x` is `a.b/x.b/c` |
| `ParseForm.GetJson` | web/lib/api/parse-form.ts:9-20 | a missing field or an empty list gives `undefined` rather than an exception |
| `ParseForm.GetJsonFirstOnly` | web/lib/api/parse-form.ts:9-20 | for a list only the first value is parsed, and a parse failure yields `undefined` without raising |
| `ParseForm.GetPhotoPath` | web/lib/api/parse-form.ts:23-29 | the single file's path, or the first file's path of a non-empty list; an empty list has none |
| `ParseForm.TotalLimitImplied` | web/lib/api/parse-form.ts:64-67 | at most `maxFiles` files of at most 10 MiB each always fit the 10 MiB × `maxFiles` total |
| `ParseForm.DecimalString` | web/lib/api/parse-form.ts:72 | `${count}` is a non-empty string of decimal digits |
| `ParseForm.DecimalRoundTrip` | web/lib/api/parse-form.ts:72 | the digits of `${count}` denote `count` |
| `ParseForm.Extension` | web/lib/api/parse-form.ts:72-78 | a known non-empty extension is used as is; with none (a missing media type is looked up as the empty string) it is `unknown`; never empty |
| `ParseForm.IndexedNamesDistinct` | web/lib/api/parse-form.ts:61-75 | names made with different counts differ whatever their extensions, so files of one request never collide |
| `ParseForm.UploadNamer.constructor` | web/lib/api/parse-form.ts:61 | each request starts with `count = 0` |
| `ParseForm.UploadNamer.Filename` | web/lib/api/parse-form.ts:69-82 | with `maxFiles > 1` the name is `<base>-<count>.<ext>` and `count` rises by one; otherwise `<base>.<ext>` and `count` is unchanged |
| `ParseForm.AcceptsPart` | web/lib/api/parse-form.ts:83-89 | a part is accepted iff it has a media type containing `image` |
| `ParseForm.SettleSpec` | web/lib/api/parse-form.ts:83-98 | the upload resolves iff there is no parser error and every part is accepted |
| `Sorting.Insert` | web/lib/components/jobs/JobsTable.tsx:202-210 | inserting adds exactly one element and loses none |
| `Sorting.Sort` | web/lib/components/jobs/JobsTable.tsx:202-210 | the sorted list is a permutation of the input |
| `Sorting.InsertSorted` | web/lib/components/jobs/JobsTable.tsx:202-210 | inserting into an ordered list keeps it ordered |
| `Sorting.SortSorted` | web/lib/components/jobs/JobsTable.tsx:202-210 | the result of the sort is ordered by the comparator |
| `Sorting.SortOfSorted` | web/lib/components/jobs/JobsTable.tsx:202-210 | sorting an ordered list leaves it unchanged |
| `Sorting.SortIdempotent` | web/lib/components/jobs/JobsTable.tsx:202-210 | sorting twice equals sorting once |
| `Sorting.LexLessIrreflexive` | web/lib/components/jobs/JobsTable.tsx:203-206 | no string is `<` itself |
| `Sorting.LexLessAsymmetric` | web/lib/components/jobs/JobsTable.tsx:203-206 | string `<` never holds both ways |
| `Sorting.LexLessTransitive` | web/lib/components/jobs/JobsTable.tsx:203-206 | string `<` is transitive |
| `Sorting.LexLessTotal` | web/lib/components/jobs/JobsTable.tsx:203-206 | two different strings are ordered one way or the other |
| `Sorting.LexNotLessTransitive` | web/lib/components/jobs/JobsTable.tsx:203-206 | "not `<`" is transitive on strings, as the sort needs |
| `JobsTable.Partition` | web/lib/components/jobs/JobsTable.tsx:65-91 | the reduce puts into each bucket exactly the jobs whose flags select it, in the order of `data` |
| `JobsTable.BucketsPermutation` | web/lib/components/jobs/JobsTable.tsx:65-91 | the four buckets together are a permutation of `data` |
| `JobsTable.BucketsExclusive` | web/lib/components/jobs/JobsTable.tsx:66-88 | a job is in a bucket iff it is in `data` and hidden > completed > pinned > regular selects that bucket; each bucket keeps the order of `data` |
| `JobsTable.ColumnOf` | web/lib/components/jobs/JobsTable.tsx:188-200 | exactly the seven `getSortable` column ids are sortable |
| `JobsTable.KeyOf` | web/lib/components/jobs/JobsTable.tsx:188-198 | name, area and address give text keys; the other columns give numbers |
| `JobsTable.KeyLessOrder` | web/lib/components/jobs/JobsTable.tsx:203-206 | `<` on keys of one kind is asymmetric and its negation transitive |
| `JobsTable.PrecedesOrder` | web/lib/components/jobs/JobsTable.tsx:202-210 | every column and direction gives a comparator that is a strict weak order |
| `JobsTable.SortJobs` | web/lib/components/jobs/JobsTable.tsx:182-213 | no column: the input itself; unknown column: the input order; known column: a permutation ordered by the column in the chosen direction |
| `JobsTable.SortJobsKeys` | web/lib/components/jobs/JobsTable.tsx:200-210 | in a sorted result keys never decrease for `asc` and never increase for `desc` |
| `JobsTable.SortJobsIdempotent` | web/lib/components/jobs/JobsTable.tsx:182-213 | re-sorting a sorted table changes nothing |
| `JobsTable.TableViewMembers` | web/lib/components/jobs/JobsTable.tsx:93-109 | the main list holds exactly the jobs neither hidden nor completed, the completed list the completed jobs not hidden, the hidden list the hidden jobs |
| `JobsTable.TableViewPinnedFirst` | web/lib/components/jobs/JobsTable.tsx:93-101 | the main list starts with the jobs this worker pinned, and no other job sits among them |
| `JobsTable.TableViewPermutation` | web/lib/components/jobs/JobsTable.tsx:93-109 | the three lists together are a permutation of `data` |
| `ProposedJobRow.BucketColor` | web/lib/components/jobs/ProposedJobRow.tsx:154-165 | only the regular bucket has no colour class |
| `ProposedJobRow.RowColorMatchesBucket` | web/lib/components/jobs/ProposedJobRow.tsx:154-165 | the row's class is the colour of the bucket the table puts the job in, and marks only that bucket |
| `ProposedJobRow.SetJobPinned` | web/lib/components/jobs/ProposedJobRow.tsx:37-39 | the payload carries only `pinnedByChange` with the current worker and the requested state |
| `ProposedJobRow.SetJobCompleted` | web/lib/components/jobs/ProposedJobRow.tsx:41-43 | the payload carries only `completed` |
| `ProposedJobRow.SetJobHidden` | web/lib/components/jobs/ProposedJobRow.tsx:45-47 | the payload carries only `hidden` |
| `ProposedJobRow.CompletedClickToggles` | web/lib/components/jobs/ProposedJobRow.tsx:229-232 | a click flips `completed` and nothing else; a second click restores the job |
| `ProposedJobRow.HideClickToggles` | web/lib/components/jobs/ProposedJobRow.tsx:248-251 | a click flips `hidden` and nothing else, a second click restores the job, and a visible job moves to the hidden bucket |
| `ProposedJobRow.PinChangesOnlyThisWorker` | web/lib/components/jobs/ProposedJobRow.tsx:37-39 | pinning sets this worker's pin as asked and leaves other workers' pins and the flags alone |
| `ProposedJobRow.IconsFollowClicks` | web/lib/components/jobs/ProposedJobRow.tsx:216-253 | icon, colour and title depend only on the flag; a click changes all three of its own icon and none of the other |
| `ProposedJobRow.AvailableDays` | web/lib/components/jobs/ProposedJobRow.tsx:72-76 | the days shown are a copy of `availability` in ascending order, with the same elements |
| `ProposedJobRow.JoinSplit` | web/lib/components/jobs/ProposedJobRow.tsx:75 | splitting a `join` at the separator's first character gives back the parts, in order, when no part contains it |
| `ProposedJobRow.AvailableDaysTextSpec` | web/lib/components/jobs/ProposedJobRow.tsx:72-76 | no days give an empty text; otherwise the text is one capitalised date label per available day, earliest first, separated by `, ` |
| `ProposedJobRow.DaysLeftShownShrinks` | web/lib/components/jobs/ProposedJobRow.tsx:176-186 | the days-left count never exceeds the available days and never grows as time passes |
| `ProposedJobRow.DaysLeftShownCounts` | web/lib/components/jobs/ProposedJobRow.tsx:176-186 | a day counts iff it starts no earlier than six hours before now |
| `WorkersClientPage.GetBoolean` | web/lib/components/worker/WorkersClientPage.tsx:36-46 | true exactly for `true`, `1`, `ano` and `yes`, case-sensitive |
| `WorkersClientPage.GetBooleanOfBoolText` | web/lib/components/worker/WorkersClientPage.tsx:36-62 | `getBoolean` reads back the `${flag}` the page writes |
| `WorkersClientPage.Param` | web/lib/components/worker/WorkersClientPage.tsx:32-34 | a parameter is present iff its key is in the query |
| `WorkersClientPage.FlagFrom` | web/lib/components/worker/WorkersClientPage.tsx:49-54 | a flag is on iff its parameter is present and `getBoolean` accepts it |
| `WorkersClientPage.ReloadDropsFlagsAsWritten` | web/lib/components/worker/WorkersClientPage.tsx:32-62 | reading the flags from `area` and `day` loses both flags the page wrote |
| `WorkersClientPage.QueryRoundTrip` | web/lib/components/worker/WorkersClientPage.tsx:58-69 | reading the keys the page writes restores the page state |
| `WorkersClientPage.ReloadShowsSameWorkers` | web/lib/components/worker/WorkersClientPage.tsx:71-82 | with the keys matched, a reload shows the same workers |
| `WorkersClientPage.FulltextEntries` | web/lib/components/worker/WorkersClientPage.tsx:195-202 | one `set` per worker, in order, keyed by id with the normalized name, phone and email |
| `WorkersClientPage.GetFulltextData` | web/lib/components/worker/WorkersClientPage.tsx:193-204 | the `forEach` loop builds the map of those entries |
| `WorkersClientPage.FulltextDataSpec` | web/lib/components/worker/WorkersClientPage.tsx:193-204 | one entry per worker id, holding the text of the last worker with that id |
| `WorkersClientPage.FilterWorkers` | web/lib/components/worker/WorkersClientPage.tsx:206-213 | no workers give an empty list |
| `WorkersClientPage.FilterWorkersSpec` | web/lib/components/worker/WorkersClientPage.tsx:214-232 | a worker is listed iff it is in the input, its indexed text contains the lower-cased search or it has no entry, and it meets the set flags; it is listed as often as the input lists it, and order is kept |
| `WorkersClientPage.FilterWorkersKeepsAll` | web/lib/components/worker/WorkersClientPage.tsx:214-232 | no search text and no flag list every worker |
| `WorkersClientPage.TrimEnd` | web/lib/components/worker/WorkersClientPage.tsx:75 | `trimEnd` returns a prefix that does not end in whitespace, and removes only whitespace |
| `EditProposedJobForm.RemoveAtSpec` | web/lib/components/jobs/EditProposedJobForm.tsx:131-139 | removing drops exactly the file at the index and keeps the rest in order; an index out of range changes nothing |
| `EditProposedJobForm.RemoveUndoesRegister` | web/lib/components/jobs/EditProposedJobForm.tsx:131-150 | removing the file just registered gives back the previous list |
| `EditProposedJobForm.PhotoFormState.RemoveExistingPhoto` | web/lib/components/jobs/EditProposedJobForm.tsx:125-128 | appends the id to the deleted ids, from an empty list when unset, and touches nothing else |
| `EditProposedJobForm.PhotoFormState.RemoveNewPhoto` | web/lib/components/jobs/EditProposedJobForm.tsx:131-139 | the loop keeps every file but the one at the index; the deleted ids are untouched |
| `EditProposedJobForm.PhotoFormState.RegisterPhoto` | web/lib/components/jobs/EditProposedJobForm.tsx:142-150 | the new list is the previous files followed by the chosen ones, of the summed length |
| `EditProposedJobForm.RegisterThenRemove` | web/lib/components/jobs/EditProposedJobForm.tsx:131-150 | registering a file and removing it again restores the files and never touches the deleted ids |
| `EditProposedJobForm.FetchImages` | web/lib/components/jobs/EditProposedJobForm.tsx:152-157 | one entry per photo id, in order, with the photo URL and the id as index |
| `EditProposedJobForm.PhotoUrlIdentifies` | web/lib/components/jobs/EditProposedJobForm.tsx:154 | the photo id can be read back from its URL, so different photos of a job have different URLs |
| `EditProposedJobForm.GetCoordinations` | web/lib/components/jobs/EditProposedJobForm.tsx:163-168 | the pair is returned iff both coordinates are present and non-zero |
| `EditProposedJobForm.CoordinationsRoundTrip` | web/lib/components/jobs/EditProposedJobForm.tsx:163-168 | a stored pair is shown again iff neither coordinate is zero |
| `JobRideList.OtherJobPassengerIdsSpec` | web/summerjob/lib/components/plan/JobRideList.tsx:13-15 | an id is listed iff it is a passenger's and not a worker's of this job, in the order of the ride's passengers; no more ids than passengers |
| `JobRideList.PassengerGroups` | web/summerjob/lib/components/plan/JobRideList.tsx:16-26 | the loop builds one group per other job with riders, in `otherJobs` order |
| `JobRideList.GroupsSpec` | web/summerjob/lib/components/plan/JobRideList.tsx:17-26 | no more groups than other jobs, none empty, each exactly one other job's riders, and every job with riders has its group |
| `JobRideList.GroupsAreJobsWithRiders` | web/summerjob/lib/components/plan/JobRideList.tsx:17-26 | the groups are the other jobs that have riders, in `otherJobs` order, each turned into its group, so one group per such job and no other |
| `JobRideList.ListedPassenger` | web/summerjob/lib/components/plan/JobRideList.tsx:13-20 | a listed passenger works on that other job, rides in this ride and is not a worker of this job |
| `JobRideList.FormatSingleRide` | web/summerjob/lib/components/plan/JobRideList.tsx:31-34 | occupancy is passengers + 1 over the car's seats, and the number is index + 1 |
| `JobRideList.RenderJobRidesSpec` | web/summerjob/lib/components/plan/JobRideList.tsx:10-70 | no rides show only `Není`; otherwise one line per ride, in order, numbered from 1 |
| `ToolMapping.MapToolNameToJobType` | web/lib/data/enumMapping/mapToolNameToJobType.ts:21-22 | the result is never empty, and is `[OTHER]` for a tool the table does not list |
| `ToolMapping.OtherExactlyForUnknown` | web/lib/data/enumMapping/mapToolNameToJobType.ts:3-22 | `OTHER` appears iff the tool is not in the table |
| `ToolMapping.LadderOnlyMultiType` | web/lib/data/enumMapping/mapToolNameToJobType.ts:3-22 | the ladder maps to garden, housework and painting in that order, and is the only tool with several types |
| `ToolMapping.ToolGroups` | web/lib/data/enumMapping/mapToolNameToJobType.ts:3-18 | axe and bow saw give wood; bucket, rag and broom give housework; exactly the paint tools give painting |
| `MethodHandler.ErrorResponse` | web/summerjob/lib/api/method_handler.ts:66-80 | a known request error gives 400, every other error 500 |
| `MethodHandler.Handle` | web/summerjob/lib/api/method_handler.ts:59-81 | the response gets the handler's own writes, then the error's status and body if it threw |
| `MethodHandler.HttpMethodHandler` | web/summerjob/lib/api/method_handler.ts:19-57 | the handler for the method is invoked if given, and the response gets exactly the dispatch log |
| `MethodHandler.FinalStatus` | web/summerjob/lib/api/method_handler.ts:26-80 | a final status exists iff some status was set, and it is the code of the last status set |
| `MethodHandler.HandledRequest` | web/summerjob/lib/api/method_handler.ts:26-50 | with the handler given, only it acts: the dispatcher adds no write, and `handle` adds none when it completes |
| `MethodHandler.NotAllowed` | web/summerjob/lib/api/method_handler.ts:51-55 | without a handler the request ends with 405, written twice for an unknown method, and no `Allow` header is sent |
| `MethodHandler.MethodIsCaseSensitive` | web/summerjob/lib/api/method_handler.ts:26-55 | a lower-case `get` is refused even with a GET handler |
| `MethodHandler.ErrorStatus` | web/summerjob/lib/api/method_handler.ts:66-80 | a thrown error ends with its kind's status (500 database, 400 known request, 500 other) and the matching error body |

## Left out

- Helpers.DatesBetween: a day is 86 400 000 ms; the source steps by calendar day in local time, so days of 23 or 25 hours at daylight-saving changes are not modelled.
- ProposedJobRow.DaysLeftShownCounts: "six hours ago" is 21 600 000 ms; `setHours(getHours() - 6)` in local time differs across a daylight-saving change.
- ProposedJobRow.AvailableDaysTextSpec: reads the text back only when no date label holds a comma, because `formatDateShort` is a parameter here and a comma inside a label would make the split ambiguous.
- JobsTable.SortJobs: does not claim stability (that equal keys keep their input order). The sort keeps them in order, but only the permutation and the ordering are proved.
- JobsTable.KeyOf: a job without an area is keyed by the empty string. The source keys it by the number -1, and JavaScript's comparison of a number with a string does not give a consistent order.
- JobsTable.ColumnOf: ids inherited from `Object.prototype` (`toString`, `constructor`, …) pass the source's `in getSortable` test. Here they are treated as unknown columns. The UI never sends them.
- Sorting.LexLess: compares Unicode scalar values. JavaScript compares UTF-16 code units, which orders characters outside the Basic Multilingual Plane differently. Strings are sequences of Unicode scalar values throughout the model, so `charAt(0)` in `Helpers.CapitalizeFirstLetter` and the `\s` tests behind `Helpers.TrimStart`, `Helpers.FormatName` and `WorkersClientPage.TrimEnd` act on whole characters, where JavaScript acts on UTF-16 code units (which differs only for characters outside the Basic Multilingual Plane).
- ToolMapping.MapToolNameToJobType: names inherited from `Object.prototype` would return a non-array in the source; the tool ids the app sends are enum names. Only the job types the table mentions are in `JobType`.
- ProposedJobRow.ApplyUpdate: the server side of the update endpoint is not part of this model. `ApplyUpdate` states how the row's payloads are read: present fields are set and a pin change adds or removes one worker.
- MethodHandler.Handle: async execution is not modelled. A handler is its outcome, meaning its writes and whether it completes or throws. What Node does with writes after `end()` or after headers are sent is not modelled.
- EditProposedJobForm.GetCoordinations: coordinates are reals; `NaN`, which is also falsy, is not modelled.
- Locale date formatting (`formatDateShort`, `formatDateLong`, …) and relative time are parameters or left out, because they rely on `Intl` and floating point.
- File-system operations, environment variables and random file names (`deleteFile`, `renameFile`, `createDirectory`, `getUploadDirForImages`, `generateFileName`) are left out, because they do I/O.
- formidable's multipart parsing, its enforcement of the limits, `mime.getExtension` and `JSON.parse` are foreign code: they are parameters or outcomes.
- `parseForm` without images is not part of this model; only `getJson` is shared with it.
- Rendering: React markup, modals, `shouldShowJob`, the empty-table message, category titles and name joining in the ride list are not modelled.
- `searchParams` being null and URL percent-encoding are not modelled; the query is a map from keys to values.
- API route handlers, the data access layer and the form wiring with react-hook-form are not part of this model.

## Findings

| source | as written | input that shows it | evidently intended | confidence | as-written member | corrected member |
|---|---|---|---|---|---|---|
| web/lib/components/worker/WorkersClientPage.tsx:32-33 | the initial flags are read from the `area` and `day` parameters, while the effect at lines 58-69 writes them as `onlyStrong` and `onlyWithCar` | set both flags, so the URL becomes `?onlyStrong=true&onlyWithCar=true&search=`; after a reload both flags are off | read `onlyStrong` and `onlyWithCar`, so that a reload restores the filters | not executed; high | `WorkersClientPage.ReloadDropsFlagsAsWritten` | `WorkersClientPage.QueryRoundTrip` |
