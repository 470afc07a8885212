# Auto Flow Pro, modelled in Dafny

Auto Flow Pro is a browser extension that feeds a queue of video prompts, text or image,
to a video generation page. Three scripts make it up, and this project models the core
of each:

- **the side panel** (`panel.js`) holds the task lists and the queue. It covers:
  - adding, moving, duplicating and importing tasks;
  - the prompt enhancer (`SmartEnhancer`) and the queue strategies (`SmartQueue`);
  - choosing the next scene, with the retry rule and batch rests;
  - merging the page's progress reports into the task list (`monitor`,
    `handleVideoCompleted`);
  - retrying failed tasks, batch tuning and the error threshold;
  - the scene order check, the panel log and the CSV export.
- **the content script** (`content.js`) runs in the generation page. It covers:
  - its log buffer and the selector engine with its cache and learned patterns;
  - the retry wrapper and the rate limiter;
  - the scan that turns the page into per-task progress reports;
  - the choice of the file input for image tasks;
  - the DOM watcher that reports progress changes and new videos.
- **the service worker** (`background.js`) keeps the scheduled jobs and their alarms. It
  computes the next run of repeating jobs and holds the one-shot name for the next
  download.

Code built from expressions, filters and sorts is modelled as functions with lemmas. The
handlers that change the panel's, the content script's or the service worker's state
are classes:
- `Panel.PanelState`, `Selectors.SelectorEngine`, `RateLimit.RateLimiter`,
  `ContentLog.Logger`, `Watcher.DomWatcher` and `Background.Scheduler`;
- their fields hold the source's lists, maps and sets;
- each method is proved against the function that specifies it, and the properties of
  that function are proved as lemmas.

Pages, timers and clocks are parameters:
- the current time is an argument `now`;
- a page is the list of texts, sources and elements a handler reads;
- a function says which selector patterns are present at each pass;
- whether a submission throws is a boolean.

Where the source and the comments and messages in it disagree, the model follows the source:

- Enhancing twice is not a no-op when a known camera style is set.
  `applyContext` appends the camera phrase unconditionally (`panel.js:129-131`), so
  re-enhancing always grows the text (`Enhancer.EnhanceGrowsWithCamera`). It is a no-op
  otherwise (`Enhancer.EnhanceIdempotentWithoutCamera`).
- A task can go from done to failed. `monitor` applies the error flag after the
  completion flag (`panel.js:1610-1614`), so one report with both set fails a done task
  (`Merge.MergeTaskDoneToFailed`, `Scan.ErrorFailsCurrent`).
- Scene indexes are not unique. `duplicatePrompt` copies the scene index
  (`panel.js:617-632`), so a duplicated list always has two tasks with the same scene
  (`Edits.DuplicateBreaksUniqueScenes`). `addPrompts` alone keeps them unique
  (`Edits.AddPromptsKeepsScenesUnique`).
- The queue strategy chosen in the settings never reaches the queue. `startQueue`
  reorders by `settings.queueStrategy` (`panel.js:1346`), which is `fifo` when the panel
  loads (`panel.js:32`) and is never written. The choice only goes into the `config`
  sent to the content script (`panel.js:1341-1342`, `1766`). So the prompts keep their
  order (`Panel.PanelState.StartQueue`, `Queue.DropdownIgnored`); see "## Findings".
- An image task counts twice against the rate limit. It is recorded once by the prompt
  step (`content.js:599`) and once more by `submitImageTask` (`content.js:1096`), so six
  image tasks fill the minute (`RateLimit.SubmissionsFillMinute`).
- The Retry-Failed button retries only the failed prompts with retries left. The number
  it reports is the count of all failed prompts (`panel.js:433-451`).
- The CSV video cell is quoted but its own quotes are not doubled
  (`panel.js:2035`). It reads back correctly only while no url holds a quote
  (`Csv.VideoCellSpec`).

## Model

| member | source | states |
|---|---|---|
| TextOps.TrimSpec | panel.js:485 | the trimmed text is the infix of the input with only white space outside it and no white space at either of its ends |
| TextOps.TrimEmptyIffBlank | panel.js:485 | a line is dropped by the blank-line filter exactly when every character is white space |
| TextOps.ToLower | panel.js:117 | lower-casing keeps the length and maps each character on its own |
| TextOps.SplitJoin | panel.js:485 | joining the pieces of a split with the same separator gives the text back, and no piece holds the separator |
| TextOps.NatToStringRoundTrip | content.js:700-701 | reading back the decimal text of a number, as `parseInt` does, gives the number |
| Tasks.NonBlankMembers | panel.js:485 | the blank-line filter keeps exactly the lines that are not blank |
| Tasks.NonBlankAppend | panel.js:485 | the filter works line by line: filtering two runs of lines one after the other gives their filtered lines one after the other, so order and repeats are kept |
| Tasks.CountStatusZero | panel.js:1322 | a status is absent from a list exactly when its count is zero |
| Enhancer.TablesShaped | panel.js:64-84 | every style suffix starts with a comma and every style and camera entry ends in a non-space |
| Enhancer.EmptyContextAddsNothing | panel.js:98-100 | with an empty scene context `applyContext` adds nothing, so the `hasContext` guard never changes the result |
| Enhancer.FieldPresentAfter | panel.js:112-134 | every non-empty context field occurs, ignoring case, in what `applyContext` returns |
| Enhancer.EnhanceCoversContext | panel.js:86-104 | the trimmed input is a prefix of the enhanced text, a known style's suffix occurs in it, and every non-empty context field occurs in it ignoring case |
| Enhancer.EdgesWith | panel.js:86-104 | the enhanced text has no leading white space, and no trailing white space when the fields are trimmed or a camera phrase closes it |
| Enhancer.FixedWhenCovered | panel.js:86-134 | a trimmed text that already holds the style suffix and every non-empty field, ignoring case, comes out of `enhance` unchanged when no camera phrase applies |
| Enhancer.EnhanceIdempotentWithoutCamera | panel.js:86-134 | without a known camera style and with trimmed fields, enhancing an enhanced text changes nothing |
| Enhancer.EnhanceGrowsWithCamera | panel.js:129-131 | with a known camera style, enhancing again always makes the text longer |
| Enhancer.CommaPairsFixed | panel.js:146 | the comma-pair rewrite returns the text unchanged exactly when it holds no comma, white space run and comma in a row, and makes it shorter when it holds one |
| Enhancer.CommaPairsKeepsWords | panel.js:146 | the comma-pair rewrite removes only commas and white space: all other characters are kept, in order |
| Enhancer.CollapseSpaces | panel.js:149 | after the space rewrite no two neighbouring characters are white space and the only white space is the plain space |
| Enhancer.Capitalize | panel.js:152 | only the first character changes, to its upper-case form |
| Enhancer.StripFrom | panel.js:155 | the trailing-comma rewrite cuts the text at its comma followed only by white space when there is one, and otherwise returns it unchanged |
| Enhancer.OptimizeShape | panel.js:142-158 | an optimised prompt has no double white space, no white space other than the space, and does not start with white space or a lower-case letter |
| Enhancer.OptimizeMayEndInComma | panel.js:146-155 | only one trailing comma is removed, so an optimised prompt can still end in a comma |
| Enhancer.GenerateVariations | panel.js:161-173 | `count` variations are produced, none for a non-positive count |
| Enhancer.VariationsPrefix | panel.js:161-173 | asking for fewer variations gives a prefix of asking for more |
| Enhancer.VariationsPeriodic | panel.js:161-173 | the variations repeat with period 35, the camera cycle of 7 times the time-of-day cycle of 5 |
| Enhancer.VariationsDistinct | panel.js:161-173 | within one period of 35 the variations are pairwise different |
| Ordering.InsertWithKey | panel.js:183-200 | inserting into the stable sort puts the element ahead of the later ones with its key and leaves every other key's elements in place |
| Ordering.SortByCorrect | panel.js:183-200 | the stable sort returns the input ordered by key, as a permutation, with the input order kept among equal keys |
| Ordering.SortBySorted | panel.js:183-200 | the sort's result is ordered by key |
| Ordering.SortByPermutes | panel.js:183-200 | the sort's result holds the input's elements, each as often |
| Ordering.SortByStable | panel.js:183-200 | the sort keeps, for every key, the input order of the elements with that key |
| Queue.ReorderSpec | panel.js:183-200 | reordering is a permutation; `priority` puts higher priorities first and `short-first` shorter texts first, both stable; `fifo` and unknown strategies change nothing |
| Queue.NextIndexSpec | panel.js:1380-1383 | the next scene is the eligible task with the smallest scene index, first among equals, and there is none exactly when nothing is pending or retryable |
| Queue.NextIndexUnique | panel.js:1380-1383 | any index with the properties of the chosen one is the chosen one |
| Queue.RetryFailedSpec | panel.js:1944-1962 | exactly the retryable failed tasks become pending with one more retry and progress 0, retry counts stay within the maximum, and retrying again changes nothing |
| Queue.ProcessStepSpec | panel.js:1373-1530 | `processNext` acts only on the task `NextIndex` picks, retries a failed one first, and its new status says whether it rested, was dispatched or failed; it rests exactly when the done and generating tasks are a positive multiple of the batch size and the task has not rested yet, and fails exactly when it does not rest and the submission throws; with nothing eligible the list is unchanged |
| Queue.ProcessStepKeepsRetriesBounded | panel.js:1431-1435 | the retry rule of `processNext` never takes a retry count past the maximum |
| Queue.RestedThenProceeds | panel.js:1444-1463 | a task rests at most once: right after resting, the next run picks it again and dispatches it |
| Queue.DoneScenes | panel.js:1534 | one scene index per done task |
| Queue.FailedLabels | panel.js:1537-1540 | one label per failed task |
| Queue.FailedLabelsSpec | panel.js:1535-1538 | the labels are those of the failed tasks, one each and in list order: the scene label, or `S` and the scene index, or `Sundefined` for a task with neither |
| Queue.FailedImageLabel | panel.js:1538 | a failed image task, which has no scene label or index, is reported as `Failed scenes: Sundefined` |
| Queue.CheckDownload | panel.js:1628-1647 | the loop over the done tasks not yet downloaded marks each of them, as the download check specifies |
| Queue.MarkDownloadedSpec | panel.js:1628-1647 | after the download check no done task is left undownloaded, only those tasks change and only in their flag, and a second check changes nothing |
| Queue.VerifySceneOrderSpec | panel.js:1533-1551 | the scene order is accepted exactly when no task failed and the done tasks' scene indexes are exactly 1..k for k done tasks |
| Merge.FindByUuid | panel.js:1570 | the result is the first task with the uuid, and none exactly when no task has it |
| Merge.KeepLast20 | panel.js:1588-1590 | the completion-time history keeps its newest 20 entries, in order, or all of them when there are at most 20 |
| Merge.RecordTimeSpec | panel.js:1578-1591 | a completion of a task with a start time appends the elapsed time and keeps the newest 20 entries; any other result leaves the history as it was |
| Merge.MergeTaskSpec | panel.js:1570-1615 | one report only ever sets a task to done or failed, stamps completion only on a task not already done, and replaces video urls only by a non-empty list |
| Merge.MergeTaskDoneToFailed | panel.js:1578-1614 | a report with both completion and an error turns a done task into a failed one |
| Merge.ApplyResult | panel.js:1566-1615 | one pass of `monitor`'s loop updates the task list and the time history as merging that one result specifies |
| Merge.MergeAllSpec | panel.js:1566-1613 | over a whole reply the list keeps its length and uuids, no task moves back to pending or generating, completion times are only `now`, and the time history stays within 20 |
| Merge.VideoCompletedCombined | panel.js:1915-1939 | the prompts and image tasks change as the combined list of the source does |
| Merge.CompleteFirstSpec | panel.js:1920-1930 | exactly the first generating task becomes done at 100 with the url among its videos and no old url lost, one task fewer is generating, and with none generating nothing changes |
| Merge.CountUpdate | panel.js:1920-1930 | replacing one task changes a status count only by the change at that position |
| Edits.MaxSceneIndex | panel.js:488-490 | the result bounds every scene index and is attained when the list is non-empty |
| Edits.AddPromptsSpec | panel.js:484-512 | one pending, untried task per non-blank line, with the trimmed line as text and scene indexes continuing after the highest existing one; existing tasks are unchanged |
| Edits.AddPromptsKeepsScenesUnique | panel.js:484-512 | adding prompts keeps scene indexes unique |
| Edits.NewUuidsDistinct | panel.js:494 | the tasks of one call get pairwise different uuids |
| Edits.MoveSpec | panel.js:585-599 | a drag-and-drop move keeps the same tasks, puts the moved one at the target position, and moving it back restores the list |
| Edits.DuplicateSpec | panel.js:617-632 | the copy sits right after its original, pending, undownloaded, at progress 0, created now with a new uuid, and equal to the original in every other field (text, scene, retries, rest flag, video urls, completion time); every other task keeps its order |
| Edits.DuplicateBreaksUniqueScenes | panel.js:617-632 | after a duplication two tasks share a scene index |
| Edits.ImportProfileSpec | panel.js:1131-1183 | a profile is refused exactly when it has no version; each list it holds replaces the current one with every task reset to pending, progress 0 and not downloaded |
| Edits.ApplyLinesSpec | panel.js:732-749 | every image gets a prompt and keeps its other fields; image i gets line i while there are no more images than lines; without lines nothing changes |
| Edits.ApplyLinesPeriodic | panel.js:740-742 | the prompts applied to images repeat with the period of the line count |
| Edits.ApplyPromptsNonBlank | panel.js:732-749 | applied from raw text, every image whose prompt was set gets a non-blank prompt |
| PanelLog.MakeEntry | panel.js:208-225 | the message is its first 200 characters, or all of it when shorter; data up to 150 characters is kept and longer data becomes its first 150 characters followed by `...` |
| PanelLog.AddLogSpec | panel.js:208-238 | the newest entry comes first, the older ones follow in order, nothing is invented, and a log within its bound stays within it |
| PanelLog.OptimizeBatchSpec | panel.js:1967-1992 | batch tuning keeps the batch size in 2..6 and the rest time in 0..120; with fewer than five finished tasks it changes nothing; under half successes set the batch one lower but at least 2 and the rest 15 seconds longer but at most 120; ten or more recent tasks with over 90% successes set the batch one higher but at most 6; otherwise nothing changes |
| PanelLog.OptimizeBatchRaises | panel.js:1983-1988 | twenty finished tasks with at most one failure among the last twenty raise a batch below 6 by one |
| PanelLog.NoFailuresNoPause | panel.js:1997-2020 | without any failed task the error threshold is never reached |
| PanelLog.ThreeFailuresPause | panel.js:1997-2020 | three failures as the most recent finished tasks reach the threshold, whatever came before |
| Csv.EscapeRoundTrip | panel.js:2032 | reading back a quoted prompt cell gives the original text and what follows the cell |
| Csv.EscapeNoQuote | panel.js:2032 | text without quotes is quoted as it is |
| Csv.CellsSpec | panel.js:2029-2038 | each task's line has eight cells: the uuid, `Text` exactly when the uuid holds `TXT` and `Image` otherwise, the prompt cell that reads back as the text or the image prompt when there is no text, the status name, the progress that reads back as the number when it is not negative, the video cell that reads back as the urls joined by `;` while no url holds a quote, and date cells empty exactly when the time is unset |
| Csv.ExportSpec | panel.js:2028-2040 | the file is the header alone for no tasks, and one more task adds a line break and its line at the end, so the lines follow the task order |
| Csv.RowStart | panel.js:2029-2031 | a task's line starts with its uuid, a comma, its type cell and a comma |
| TextOps.JoinSnoc | panel.js:2040 | joining one more part appends the separator and that part |
| Csv.VideoCellSpec | panel.js:2035 | the unescaped video cell reads back as the joined urls when no url holds a quote |
| Panel.PanelState.constructor | panel.js:12-22 | the panel starts with empty lists, no log, on the text tab, not running and not paused |
| Panel.PanelState.SetActive | panel.js:1375-1377 | the list of the open tab is replaced and the other list is unchanged |
| Panel.PanelState.AddLog | panel.js:208-238 | the log becomes the new entry in front of the old log, cut to its bound, and nothing else changes |
| Panel.PanelState.AddPrompts | panel.js:484-512 | the prompts become the old ones followed by the new tasks, and nothing else changes |
| Panel.PanelState.HandleDrop | panel.js:585-599 | the prompts become the old list with one task moved, and nothing else changes |
| Panel.PanelState.DuplicatePrompt | panel.js:617-632 | the prompts become the old list with the copy inserted after the original |
| Panel.PanelState.ImportProfile | panel.js:1131-1183 | the import succeeds exactly when the profile has a version, and then the lists it holds replace the current ones |
| Edits.AssignPrompts | panel.js:740-742 | the `forEach` over the images sets each prompt in turn and ends with the line assignment |
| Panel.PanelState.ApplyPromptsToImages | panel.js:732-749 | the loop over the image tasks leaves them as the line assignment specifies |
| Panel.PanelState.AutoRetryFailed | panel.js:1944-1962 | the loop retries exactly the retryable failed prompts and returns how many it retried |
| Panel.PanelState.RetryFailedButton | panel.js:433-451 | the button applies the retry rule and reports the count of all failed prompts |
| Panel.PanelState.StartQueue | panel.js:1317-1358 | the queue starts exactly when the open list is non-empty and not all done; the reorder by `settings.queueStrategy`, always `fifo`, leaves the prompts in their order |
| Queue.DropdownIgnored | panel.js:1341-1346 | with two prompts of different priority, the reorder `startQueue` performs keeps them as they are, while the `priority` strategy chosen in the settings would put the higher one first |
| Panel.PanelState.StopQueue | panel.js:1360-1371 | the queue is neither running nor paused afterwards, and the lists are unchanged |
| Panel.PanelState.SelectNext | panel.js:1380-1383 | the one-pass selection picks the task `NextIndex` specifies |
| Panel.PanelState.ProcessNext | panel.js:1373-1530 | a stopped or paused queue changes nothing; otherwise the open list becomes what `ProcessStep` specifies, a dispatched task gets its start time, and a drained queue marks its done tasks downloaded when auto-download is on, then stops |
| Panel.PanelState.Monitor | panel.js:1553-1626 | the open list and the completion-time history become what merging the reply specifies |
| Panel.PanelState.HandleVideoCompleted | panel.js:1915-1939 | both lists change as completing the first generating task of the combined list specifies |
| Panel.PanelState.CheckErrorThreshold | panel.js:1997-2020 | the check reports whether at least three of the last ten finished tasks failed and then pauses the queue; otherwise the paused flag stays as it was |
| ContentLog.MakeEntry | content.js:16-28 | the message is its first 200 characters, or all of it when shorter, and data longer than 300 characters becomes its first 300 followed by `...` |
| ContentLog.AppendedSpec | content.js:30-39 | the new entry is last, the kept entries are the newest in order, and the log grows to 500 and drops back to 400 on the next entry |
| ContentLog.Logger.constructor | content.js:8-12 | the buffer starts empty |
| ContentLog.Logger.Log | content.js:13-43 | the buffer becomes the old one with the new entry appended and cut to the newest 400 once it holds more than 500 |
| ContentLog.Logger.Export | content.js:50 | the export is the buffer's entries |
| ContentLog.Logger.Clear | content.js:52 | the buffer is empty afterwards |
| Selectors.FirstMatch | content.js:159-166 | the result is the first pattern the page shows in that pass |
| Selectors.SearchSpec | content.js:158-171 | a search finds the first pattern, in list order, of the first pass that shows any, and finds nothing only when no pass shows one |
| Selectors.FindCorrect | content.js:140-175 | a cached selector the page still shows is returned; a stale one is evicted; otherwise the first pattern found is returned and cached, and other kinds are untouched |
| Selectors.CachedAfterFind | content.js:144-150 | a selector once found is served from the cache while the page shows it |
| Selectors.LoadedSpec | content.js:202-212 | stored patterns go in front of the kind's earlier ones, kinds without a stored list keep theirs, and loading twice puts them in front twice |
| Selectors.LearnedFirst | content.js:185-199 | a learned selector wins the next search whenever the page shows it, unless a cached selector is still shown |
| Selectors.SelectorEngine.constructor | content.js:58-139 | the engine starts with the built-in patterns and an empty cache |
| Selectors.SelectorEngine.Find | content.js:140-175 | the nested pass loops return and cache what the search specifies |
| Selectors.SelectorEngine.Learn | content.js:185-199 | the selector is put at the front of its kind's list and nothing else changes |
| Selectors.SelectorEngine.LoadPatterns | content.js:202-212 | the loop over the stored kinds leaves the patterns as loading specifies, and nothing changes without stored patterns |
| Retry.RunSpec | content.js:250-269 | from attempt i on: at most the remaining calls, a returned value is the first success, a throw carries the last error after every attempt failed, and one sleep between calls |
| Retry.WithRetrySpec | content.js:250-269 | `withRetry` returns exactly when some attempt within the bound succeeds, and then the first such value; otherwise it made `maxRetries` calls and throws the last error, or throws with no call when the bound is not positive |
| Retry.WithRetry | content.js:250-269 | the attempt loop produces the outcome, calls and sleeps the specification gives |
| RateLimit.Within | content.js:306-309 | the pruning filter keeps only time stamps younger than the window, in order |
| RateLimit.WithinMember | content.js:306 | a time stamp survives the filter exactly when it is young enough |
| RateLimit.WithinNested | content.js:306-309 | pruning to the hour first does not change the minute count |
| RateLimit.WithinMonotone | content.js:328-334 | a narrower window never counts more requests than a wider one |
| RateLimit.MinuteWaitSpec | content.js:308-314 | no minute wait while fewer than 12 requests fall in the last minute; otherwise more than a second, counted from the oldest of them, and at most 61 seconds when no stamp lies in the future |
| RateLimit.HourWaitSpec | content.js:316-321 | no hour wait while fewer than 120 requests remain; otherwise more than a second, counted from the oldest, and at most an hour and a second when no stamp lies in the future |
| RateLimit.Submissions | content.js:1093-1096 | a text prompt leaves one time stamp and an image task two |
| RateLimit.SubmissionsFillMinute | content.js:1093-1096 | within one minute the limit is reached by 12 text prompts but by 6 image tasks |
| RateLimit.RateLimiter.constructor | content.js:295-296 | the limiter starts with no requests |
| RateLimit.RateLimiter.CheckAndWait | content.js:302-322 | the history is pruned to the last hour and the minute and hour waits are those the specification gives |
| RateLimit.RateLimiter.Record | content.js:324-326 | the submission time is appended |
| RateLimit.RateLimiter.GetStats | content.js:328-334 | the counts of the last minute and the last hour, the first never above the second |
| Scan.CountCompletedVideos | content.js:674-689 | the count is the number of distinct http or blob video sources |
| Scan.CompletedVideosBound | content.js:674-689 | the count never exceeds the number of video elements, and a repeated url does not add to it |
| Scan.PercentTextRoundTrip | content.js:700-701 | a number printed with a percent sign reads back as that number |
| Scan.GetCurrentGeneratingProgress | content.js:692-710 | the loop over the elements returns the largest percentage any leaf shows |
| Scan.MaxProgressSpec | content.js:692-710 | the progress is the largest percentage from 1 to 100 a leaf shows, 0 when none does, so always in 0..100 |
| Scan.AnyMentions | content.js:717-722 | an alert is reported exactly when one of them mentions an error phrase |
| Scan.ErrorPhraseReported | content.js:713-734 | an error phrase in any mix of ASCII letter cases anywhere in an alert is reported |
| Scan.ScanWith | content.js:625-668 | each task gets the state its position gives relative to the number of finished videos |
| Scan.ScanWithShape | content.js:625-668 | one result per uuid in order; tasks before the finished-video count are done at 100, tasks after it pending at 0, and only the task at that position can carry an error |
| Scan.ScanWithCurrent | content.js:636-659 | the current task reports its positive progress, done from 100; without progress an error makes it done and failed at once, and otherwise it runs at 0 |
| Scan.ScanProgressOrdered | content.js:610-671 | the reported progress lies in 0..100 and never rises along the list, and the done tasks form a prefix |
| Scan.ErrorFailsCurrent | content.js:636-650 | an error on the page fails the current task when the panel merges the scan, even when the scan reports it done |
| FileInput.FirstWhere | content.js:1024-1046 | the result is the first element with the property, and none exactly when no element has it |
| FileInput.PollChoice | content.js:1021-1037 | one poll takes an input of the page that is new or accepts images, and takes nothing only when no input is either |
| FileInput.ChooseFileInput | content.js:1018-1047 | the polling loop chooses the input the specification gives |
| FileInput.PollsSpec | content.js:1020-1042 | the polls choose a new or image-accepting input seen at one of them, and nothing only when no poll shows one |
| FileInput.ChooseFails | content.js:1018-1050 | the search fails exactly when no poll shows a new or image input and every input left accepts `.txt` files |
| FileInput.ChooseFinds | content.js:1018-1047 | what is found is a new or image input seen at some poll, or an input on the page that is not for text files only |
| FileInput.NewInputWins | content.js:1024-1028 | a new input seen at the first poll is taken whatever it accepts |
| Watcher.PercentInRoundTrip | content.js:1363-1365 | a number printed with a percent sign after a text without digits is read back as that number |
| Watcher.ProgressNotesSpec | content.js:1358-1377 | every reported progress is in 0..100, the remembered value stays -1 or in 0..100, and it changes only to a value just reported |
| Watcher.RepeatedReadingOnce | content.js:1363-1369 | the same percentage read twice in a row is reported once |
| Watcher.ScanVideosSpec | content.js:1379-1404 | a scan reports each url at most once and no url it knew, remembers exactly the reported ones, and afterwards knows every http video source of the page |
| Watcher.NoRepeatAcrossScans | content.js:1379-1404 | a url reported by one scan is not reported by the next |
| Watcher.DomWatcher.constructor | content.js:1273-1279 | a watcher starts with no known videos, progress -1 and not destroyed |
| Watcher.DomWatcher.CheckProgressChanges | content.js:1358-1377 | the loop over the changed texts sends the progress notes and remembers the value the specification gives |
| Watcher.DomWatcher.ScanForVideos | content.js:1379-1404 | the two loops over the video elements report and remember the urls the specification gives |
| Watcher.DomWatcher.HandleMutations | content.js:1334-1356 | a destroyed watcher does nothing; otherwise the progress check runs, then the video scan |
| Watcher.DomWatcher.Disconnect | content.js:1310-1332 | the watcher is destroyed and forgets its videos and progress |
| Background.CalculateNextRunSpec | background.js:198-212 | the next run is never earlier, and later exactly for hourly, daily and weekly; a week is seven days and a day 24 hours |
| Background.RemoveJob | background.js:148-160 | no kept job has the id, and every kept job was in the list |
| Background.RemoveJobSpec | background.js:148-160 | cancelling keeps a job exactly when its id differs |
| Background.RemoveJobAbsent | background.js:148-160 | cancelling an id no job has leaves the list unchanged, order included |
| Background.CancelUndoesSchedule | background.js:124-160 | scheduling a job with a new id and cancelling it restores the job list and leaves no alarm for the id |
| Background.FindJob | background.js:170 | the result is the first job with the id, and none exactly when no job has it |
| Background.ReplaceAll | background.js:185-190 | every job with the id is replaced and the others are kept |
| Background.FireSpec | background.js:168-196 | firing sends the first job with the alarm's name; a repeating job moves on from its scheduled time and is re-armed; a one-time job is completed with no new alarm; other jobs and alarms are unchanged |
| Background.OneTimeFiresOnce | background.js:168-196 | after a one-time job has fired no alarm is left for it and it is completed |
| Background.SuggestOneShot | background.js:112-119 | a download name that was set is used by exactly one download |
| Background.Scheduler.constructor | background.js:13 | the service worker starts with no jobs, no alarms and no download name |
| Background.Scheduler.ScheduleJob | background.js:124-146 | the job is appended as scheduled and an alarm set for its time |
| Background.Scheduler.CancelJob | background.js:148-160 | the alarm is cleared and every job with the id removed |
| Background.Scheduler.GetScheduledJobs | background.js:162-165 | the stored job list is returned |
| Background.Scheduler.OnAlarm | background.js:168-196 | jobs, alarms and the message sent are what firing specifies |
| Background.Scheduler.SetNextDownloadName | background.js:27-29 | the name is stored and nothing else changes |
| Background.Scheduler.SuggestFilename | background.js:112-119 | a stored name is suggested and cleared; with none the default name is used |

## Left out

- The DOM, rendering, alerts, confirm dialogs and CSS are not modelled: handlers receive
  what they read from the page as arguments.
- Extension storage, messaging between the scripts, notifications and webhooks are not
  modelled. Saved state is a field, and a message sent is a return value.
- Timers, sleeps and the delay arithmetic of the retry backoff are not modelled. Waits
  are returned as numbers, and `setTimeout`/`setInterval` rescheduling is not.
- Each call reads the clock once, as its argument `now`. In particular, the two time
  stamps of an image task are taken at one instant.
- Queue.Label: an absent scene index is stored as 0 and printed as `Sundefined`, as the
  source prints an image task's missing index. A task imported with an explicit scene
  index of 0 would print `S0` in the source and `Sundefined` in the model.
- Queue.Reorder: the `shuffle` strategy is not modelled, because it draws random numbers.
  `startQueue` never uses it, since its strategy is always `fifo`.
- Floating point, the ETA and the average-time dashboard figures are not modelled. The
  success-rate comparisons of batch tuning are made exact on integers.
- Background.CalculateNextRun: days and hours are fixed lengths, so daylight-saving
  changes of the local calendar are not modelled.
- Case mapping covers ASCII letters only, and lengths are counted in characters rather
  than UTF-16 code units.
- The loggers do not model serialisation of their data, or its failure; the data is
  given as a string.
- The entries the panel's handlers add to the log along the way are not modelled: each
  handler leaves `logs` unchanged, and `Panel.PanelState.AddLog` models one `addLog` call.
- Selectors.SelectorEngine.Learn does not model the copy written to extension storage.
- `monitor` handles the reply asynchronously. The model applies one reply in one step,
  with no other handler between the awaits of its loop.
- Panel.PanelState.RetryFailedButton: the confirm dialog and the automatic start are not
  modelled.
- Panel.PanelState.ProcessNext: the submission's reply is not modelled, only whether the
  submission step throws. The wait for generating tasks, the batch countdown, the
  download requests with their pauses and the completion notifications are timers or
  I/O. The download check's own effect, the `isDownloaded` flag, is modelled
  (`Queue.CheckDownload`); whether auto-download is on is an argument.
- Panel.PanelState.HandleVideoCompleted: the rescan it triggers is a separate `Monitor`
  call.
- Panel.PanelState.DuplicatePrompt and Panel.PanelState.HandleVideoCompleted: the model
  gives each task its own list of video urls. In the source the copy made by
  `duplicatePrompt` is shallow (`{...p}`, `panel.js:619-628`), so it shares its
  original's `videoUrls` array until `monitor` replaces it, and the url that
  `handleVideoCompleted` pushes (`panel.js:1923-1925`) then shows up on both tasks. The
  model adds it to the completed task only, so `Merge.CompleteFirstSpec`'s "every other
  task unchanged" does not hold of the source for such a pair.
- `autoRetryFailed`, `optimizeBatchSize` and `checkErrorThreshold` (`panel.js:1944`,
  `panel.js:1967`, `panel.js:1997`) are defined but never called in `panel.js`. The
  model states what each would do if called; nothing in the model runs them.
- `executeScheduledJob`, scheduling from the panel, profile export, the keyboard
  shortcuts, image file reading and downloads are UI and I/O around the modelled state.
- Page automation in the content script is not modelled: `submitPrompt` and
  `submitImageTask` beyond the rate limiter and the file-input choice, dropdown
  selection, zoom and history retry drive the page.
- `Watcher.DomWatcher` does not model the debounce timer, the mutation observer or the
  periodic scan, only what one handler run does.

## Findings

| source | as written | input that shows it | evidently intended | confidence | as-written member | corrected member |
|---|---|---|---|---|---|---|
| panel.js:1346 | `startQueue` reorders by `settings.queueStrategy`, which stays `fifo` (set at `panel.js:32`, never written), so the queue order never changes | text tab, prompts `[a (priority 1), b (priority 3)]`, `priority` chosen in the settings form: the queue runs `a` before `b` | reorder by the strategy chosen in the settings, which `getCurrentSettings` reads (`panel.js:1766`): `priority` runs `b` first | not executed; high that the choice is ignored, medium on the intent | Panel.PanelState.StartQueue, Queue.DropdownIgnored | Queue.ReorderSpec |
