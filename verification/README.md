# Canvas assignment manager — Dafny model of the acquisition, classification and selection core

This project models the part of the Canvas assignment manager that decides
which assignments the user sees:

- the **classifier** (`isDueInClass`, `isRealAssignment`): keyword matching
  over the lower-cased name and description, plus the due-date, points and
  submission-type rules;
- the **aggregator** (`getAllAssignments`): lists the active courses, lists
  each course's assignments, keeps the real ones, and builds the
  selectable records. A failed course contributes nothing. The per-course
  results are concatenated in course order and cut to a 7-day recency window;
- the **credential heuristic** (`validateApiKey`);
- the **selection/visibility store** (`useAssignmentStore`): every mutator,
  every query, and the write-through to browser storage.

Files and modules:

| file | module | models |
|---|---|---|
| `wrappers.dfy` | `Wrappers` | `Option` (nullable fields) and `Result` (settled promises) |
| `seqs.dfy` | `Seqs` | order-preserving `Filter` and its algebra |
| `text.dfy` | `Text` | ASCII `toLowerCase`, `includes` as substring search |
| `canvas.dfy` | `Canvas` | the records of `src/types/canvas.ts` |
| `classifier.dfy` | `Classifier` | keyword lists, `isDueInClass`, `isRealAssignment` |
| `aggregator.dfy` | `Aggregator` | `getAllAssignments` with the network calls as inputs |
| `credentials.dfy` | `Credentials` | `validateApiKey` |
| `store.dfy` | `AssignmentStore` | the store as pure `Store -> Store` transitions |

Modelling choices:

- `due_at` is `DueAt = NoDue | BlankDue | DueOn(ms) | UnparseableDue`. The
  cases are `null`, `""`, a date string already parsed to epoch
  milliseconds, and a non-empty string that `new Date` cannot parse.
  `!due_at` is true for the first two only. The recency filter keeps the
  first two. It drops `UnparseableDue`, because an invalid `Date` compares
  false against the cutoff.
- `points_possible` is `Option<real>`. `!points_possible` is true for
  `None` and `Some(0.0)`.
- `description` is `Option<string>`. A missing description reads as `""`.
  `submission_types` is `Option<seq<string>>`, because the code also tests
  `!submission_types`.
- The network is an input. The course listing is a
  `Result<seq<Course>, FetchError>`. Each course's assignment listing is a
  function from course id to `Result<seq<Assignment>, FetchError>`.
  `FetchError` is either an `Error` with a message or some other thrown
  value; that choice decides the wrapped message. The current time `now` is
  a parameter.
- The store is a record `State` plus a `Storage` map from key to an
  abstract stored value. Each mutator returns the new state and the new
  storage. `Consistent` states that reloading storage (`initializeStore`)
  restores the configuration, the list and the show-hidden flag held in
  memory. Every mutator preserves it, and so does any sequence of calls
  (`RunKeepsConsistent`).

Two consequences of the code worth stating:

- Records are not deduplicated across courses. The per-course lists are
  concatenated as they are, so two records may share an id, and the id-based
  toggles then flip both.
- Only a failed course listing is an error. When every per-course request
  fails, the call succeeds with `[]` (`Aggregator.AllCoursesFailing`).

## Model

| member | source | states |
|---|---|---|
| Text.Lower | src/services/canvasApi.ts:54-55 | lower-casing keeps the length, maps each position's 'A'..'Z' to the letter 32 code points above and keeps every other character, so no ASCII upper-case letter is left |
| Text.IncludesOccurs | src/services/canvasApi.ts:80-82 | `Text.Includes`, the `includes` scan, succeeds exactly when the needle occurs at some position of the text, whatever surrounds it |
| Text.OccursInside | src/services/canvasApi.ts:80-82 | a keyword placed between any prefix and suffix is found: matching is substring, not whole word |
| Classifier.LowerDescription | src/services/canvasApi.ts:55 | a missing description is searched as the empty string; a present one as its lower-cased text |
| Classifier.SomeKeywordOccurs | src/services/canvasApi.ts:80-82 | `keywords.some(...)` holds exactly when some keyword occurs in the lower-cased name or description |
| Classifier.DueInClassIffMentioned | src/services/canvasApi.ts:53-83 | `Classifier.IsDueInClass`: an assignment is due in class if and only if some in-class keyword occurs as a substring of its lower-cased name or description |
| Classifier.InClassKeywordClassifies | src/services/canvasApi.ts:58-82 | an in-class keyword written in any ASCII case, anywhere in the name or description, makes the assignment due in class |
| Classifier.IsRealAssignment | src/services/canvasApi.ts:121-131 | rejected when the due date is `null`/`""` and the points are `null`/0; rejected when the submission types are missing, `[]` or `["none"]`; a real assignment has a non-empty submission-type list |
| Classifier.RealIffNoRuleRejects | src/services/canvasApi.ts:86-134 | real exactly when no deny-list keyword is mentioned, a due date or non-zero points is present, and the submission types are neither missing, empty nor exactly `["none"]` |
| Classifier.DenyKeywordRejects | src/services/canvasApi.ts:91-119 | a deny-list keyword in any ASCII case anywhere in the name or description rejects the assignment whatever its other fields |
| Classifier.SyllabusIsNeverReal | src/services/canvasApi.ts:91-119 | a name containing "syllabus" in any case is never a real assignment |
| Classifier.NoneAmongOthersAccepted | src/services/canvasApi.ts:121-131 | a submission-type list of length two or more containing "none" at any position does not trigger the rule, so an assignment with a due date or non-zero points and no deny-list keyword is real |
| Aggregator.CourseContribution | src/services/canvasApi.ts:152-171 | a course whose request failed gives no records; a course whose request succeeded gives no more records than it has assignments |
| Aggregator.ContributionAppend | src/services/canvasApi.ts:155-165 | a course's records follow the order in which the API returned its assignments: the contribution of a listing is that of its first part followed by that of the rest |
| Aggregator.ContributionSingle | src/services/canvasApi.ts:155-165 | one assignment contributes its classified record when it is real and nothing otherwise |
| Aggregator.ContributionClassified | src/services/canvasApi.ts:152-171 | `Aggregator.Classify` builds the records: each record of a course is one of its real assignments, unchanged, unselected, hidden exactly when due in class, and labelled with the course's name; each real assignment of the course has a record |
| Aggregator.CollectAppend | src/services/canvasApi.ts:173-174 | `Aggregator.Collect`, the `Promise.all` then `flat()`: the flattened list is the concatenation of the per-course lists in course order |
| Aggregator.FailedCourseContributesNothing | src/services/canvasApi.ts:167-170 | removing a course whose request failed does not change the flattened list |
| Aggregator.CollectClassified | src/services/canvasApi.ts:152-174 | every flattened record is a real assignment of a course whose request succeeded, with `isSelected` false, `isHidden == isDueInClass`, and that course's name |
| Aggregator.CollectComplete | src/services/canvasApi.ts:152-174 | every real assignment of a course whose request succeeded appears, classified, in the flattened list |
| Aggregator.RecentOnly | src/services/canvasApi.ts:176-184 | with `Aggregator.IsRecent` as the window test: a record is kept exactly when it has no due date or is due no earlier than `now` minus 7 days; nothing is added |
| Aggregator.RecentOnlyAppend | src/services/canvasApi.ts:180-184 | the recency filter distributes over concatenation, so kept records keep their relative order |
| Aggregator.StaleRecordDropped | src/services/canvasApi.ts:177-184 | a record due ten days before `now` is excluded from the list |
| Aggregator.GetAllAssignments | src/services/canvasApi.ts:146-195 | fails, with "Failed to fetch assignments: " and the message or "Unknown error", exactly when the course listing fails; every returned record is recent and comes from the collected list |
| Aggregator.AggregatedRecords | src/services/canvasApi.ts:146-191 | every returned record is recent, real, unselected, hidden exactly when due in class, and labelled with its course |
| Aggregator.AggregatedComplete | src/services/canvasApi.ts:146-191 | every real assignment of a course whose request succeeded and that falls inside the recency window is returned, classified with that course's name |
| Aggregator.AggregatedInCourseOrder | src/services/canvasApi.ts:152-191 | the returned list follows course order: the records for a run of courses are those of its first part followed by those of the rest |
| Aggregator.CollectFailing | src/services/canvasApi.ts:167-174 | courses whose requests all fail contribute an empty flattened list |
| Aggregator.AllCoursesFailing | src/services/canvasApi.ts:152-174 | when every per-course request fails the call still succeeds, with an empty list |
| Aggregator.OneCourseFailingScenario | src/services/canvasApi.ts:152-184 | course A failing and course B returning two real undated assignments yields exactly B's two records |
| Credentials.ValidateApiKey | src/services/canvasApi.ts:197-200 | true exactly when the key is longer than 20 characters and every character is in `[a-zA-Z0-9~]` |
| AssignmentStore.Reload | src/store/useAssignmentStore.ts:148-171 | a saved configuration, assignment list or show-hidden flag is restored into its field; a missing key leaves its field at the initial value; loading and error start cleared |
| AssignmentStore.SetApiConfig | src/store/useAssignmentStore.ts:47-51 | installs the configuration, writes it under "canvas-api-config", changes no other field, keeps storage consistent |
| AssignmentStore.SetAssignments | src/store/useAssignmentStore.ts:54-58 | installs the list and writes exactly that list under "canvas-assignments"; config, show-hidden flag, loading flag and error unchanged |
| AssignmentStore.WriteAssignments | src/store/useAssignmentStore.ts:54-58 | the list written to "canvas-assignments" is the list installed in memory; no other key changes |
| AssignmentStore.ToggleSelected | src/store/useAssignmentStore.ts:61-70 | same length; items with the id have `isSelected` flipped, all other fields and all other items unchanged |
| AssignmentStore.ToggleAssignmentSelection | src/store/useAssignmentStore.ts:61-70 | an item's selection changes exactly when its id matches; nothing else in the list or the state changes, loading flag and error included; an absent id is a no-op; the new list is persisted |
| AssignmentStore.ToggleSelectionInvolution | src/store/useAssignmentStore.ts:61-70 | toggling the same id twice restores the state and the stored list |
| AssignmentStore.SelectVisible | src/store/useAssignmentStore.ts:72-80 | displayed items become selected; hidden items keep their selection while hidden ones are not shown; nothing but selection changes |
| AssignmentStore.SelectAllAssignments | src/store/useAssignmentStore.ts:72-80 | selects every item with `showHidden` or not hidden, leaves other items' selection alone, changes no other field of the state (loading flag and error included), persists the list |
| AssignmentStore.SelectAllAfterShowingHidden | src/store/useAssignmentStore.ts:72-80 | with hidden items not shown, select-all leaves them as they were; after showing them, select-all selects every item |
| AssignmentStore.DeselectEvery | src/store/useAssignmentStore.ts:82-90 | every item is unselected and otherwise unchanged |
| AssignmentStore.DeselectAllAssignments | src/store/useAssignmentStore.ts:82-90 | clears every selection regardless of visibility, changes nothing else in the list or the state (loading flag and error included), persists the list |
| AssignmentStore.DeselectAllIdempotent | src/store/useAssignmentStore.ts:82-90 | deselecting twice equals deselecting once |
| AssignmentStore.DeselectAllLeavesNothingSelected | src/store/useAssignmentStore.ts:82-95 | after deselecting all, the selected query returns nothing |
| AssignmentStore.GetSelectedAssignments | src/store/useAssignmentStore.ts:92-95 | returns exactly the selected items, each as many times as it occurs in the list |
| AssignmentStore.ToggleHidden | src/store/useAssignmentStore.ts:98-107 | items with the id have `isHidden` flipped; everything else unchanged |
| AssignmentStore.ToggleAssignmentVisibility | src/store/useAssignmentStore.ts:98-107 | an item's hidden flag changes exactly when its id matches; `isDueInClass` and `isSelected` never change; config, show-hidden flag, loading flag and error unchanged; the new list is persisted |
| AssignmentStore.ToggleVisibilityInvolution | src/store/useAssignmentStore.ts:98-107 | toggling visibility of the same id twice restores the state and the stored list |
| AssignmentStore.SetShowHiddenAssignments | src/store/useAssignmentStore.ts:109-112 | changes only the show-hidden flag and writes it under "canvas-show-hidden" |
| AssignmentStore.GetVisibleAssignments | src/store/useAssignmentStore.ts:114-119 | all items when hidden ones are shown; otherwise exactly the items that are not hidden, each as many times as it occurs in the list |
| AssignmentStore.SelectedKeepsListOrder | src/store/useAssignmentStore.ts:92-95 | the selected query keeps list order: on a list made of two parts it returns its answer on the first part followed by its answer on the second |
| AssignmentStore.VisibleKeepsListOrder | src/store/useAssignmentStore.ts:114-119 | the visible query keeps list order in the same sense, whether or not hidden items are shown |
| AssignmentStore.HiddenKeepsListOrder | src/store/useAssignmentStore.ts:121-124 | the hidden query keeps list order in the same sense |
| AssignmentStore.GetHiddenAssignments | src/store/useAssignmentStore.ts:121-124 | exactly the hidden items, each as many times as it occurs in the list, whatever the show-hidden flag |
| AssignmentStore.VisibleAndHiddenSplit | src/store/useAssignmentStore.ts:114-124 | with hidden items not shown, the visible and hidden lists together have as many items as the whole list |
| AssignmentStore.SetIsLoading | src/store/useAssignmentStore.ts:127 | sets the loading flag; storage and persistent fields untouched |
| AssignmentStore.SetError | src/store/useAssignmentStore.ts:130 | sets the error; storage and persistent fields untouched |
| AssignmentStore.ClearData | src/store/useAssignmentStore.ts:133-144 | resets to the initial state (no config, no items, flags false, no error), removes the three keys and keeps every other key |
| AssignmentStore.RunKeepsConsistent | src/store/useAssignmentStore.ts:38-144 | after any sequence of store calls, reloading storage restores the configuration, list and show-hidden flag in memory |
| AssignmentStore.RunFromLoadKeepsConsistent | src/store/useAssignmentStore.ts:148-176 | a store loaded from any storage, after any sequence of calls, is still restored by a reload |
| AssignmentStore.RunKeepsRecords | src/store/useAssignmentStore.ts:61-112 | no sequence of selection and visibility calls changes any assignment, course name or due-in-class flag |
| Seqs.FilterAppend | src/services/canvasApi.ts:180-184 | filtering distributes over concatenation (order is preserved) |
| Seqs.FilterCounts | src/store/useAssignmentStore.ts:92-124 | `filter` keeps each element that passes the test exactly as many times as it occurs, and no other element |

## Left out

- `makeRequest`, `getCourses`, `getAssignmentsForCourse` and `testProxyConnection` (src/services/canvasApi.ts:12-50, 136-144, 211-224) are network I/O and browser-environment detection. Their outcomes are inputs: the course listing and the per-course fetch function.
- The concurrent fan-out through `Promise.all` is modelled as a sequential map. The per-course tasks share no mutable state, and each failure is caught inside its own task.
- `validateBaseUrl` depends on the WHATWG URL parser. That parser is not part of this model.
- Date parsing: a due date is either already parsed to epoch milliseconds or marked unparseable. Out-of-range timestamps, which give an invalid `Date`, count as unparseable. `now` is a parameter rather than a clock read.
- JSON serialisation in `setItem`/`getItem` is left out. Storage holds the values themselves, so JSON parsing is assumed to invert stringifying.
- `initializeStore` catching a parse error is not modelled. A stored value of the wrong shape is treated as absent; in the code it would be installed as-is.
- Console logging (src/services/canvasApi.ts:38, 168, 186-189) is left out.
- `toLowerCase` is modelled on ASCII letters only. Unicode case mapping is out of scope.
- `points_possible` being `NaN` is not modelled, because JSON cannot carry it.
- An assignment whose `name` is `null` is not modelled. In the code it would throw inside the per-course `try` and drop that whole course. Names are always strings here.
- Key length: in `validateApiKey`, JavaScript's `length` counts UTF-16 code units while Dafny counts characters. The verdict is the same, because every accepted character is ASCII.
- The React components (src/App.tsx, src/components/*.tsx) are left out. So are the relay servers (server.cjs, api/canvas.js), which pass HTTP through with no decision logic.
- Storage writes are assumed to succeed. In the code each mutator updates memory before calling `localStorage.setItem` (src/store/useAssignmentStore.ts:48-50, 55-57, 68-69, 78-79, 88-89, 105-106, 110-111). A write that throws, for example when the quota is exceeded, leaves memory ahead of storage, and `Consistent` no longer holds after it.
- The store's subscription and re-render machinery is left out. Store calls are assumed to run one at a time.
