# Code Time extension core, in Dafny

A model of the decision and aggregation logic at the heart of the Code Time
VS Code extension (swdc-vscode), with its properties proved:

- **Session summary aggregator** (`src/storage/SessionSummaryData.ts`): the gap
  rule that decides whether the time since the last payload counts as session
  time, the normaliser that turns every missing or falsy summary field into 0,
  the additive daily counters, the reset, the single-field liveshare overwrite
  and the rocket/clock status icon (`session_summary.dfy`).
- **Project and date-range selector** (`src/menu/ProjectCommitManager.ts`): the
  project listing turned into sorted checkbox rows (`project_rows.dfy`), the
  date-selection state, the range resolution and the input validator
  (`date_range.dfy`, with the strict `YYYY-MM-DD` parse in `date_text.dfy`),
  and the final dispatch to a dashboard (`project_menu.dfy`).
- **Key-value session store and helpers** (`lib/Util.ts`): whole-document
  `setItem`/`getItem` with JavaScript truthiness, the file paths under the
  home directory, the platform test, the random sign-up code and the
  status-bar setter (`store.dfy`).
- **Activation state machine** (`extension.ts`): `activate` as a pure step
  function (defer, retry with or without the offline notice, initialise), the
  heartbeat and intervals of `intializePlugin`, `periodicSessionCheck`, the
  pause/enable handlers and the liveshare-minutes update (`activation.dfy`).

`js.dfy` holds the JavaScript values the extension keeps in its JSON documents
(`null`, booleans, numbers, text) with the truthiness and number-conversion
rules its `||`, `!`, `>` and `+=` rely on. Numbers are modelled as `real`.
The session document, the summary file, the server's answers, the window
focus, the clock (as a day number and a UTC offset) and the random bytes are
all parameters; every operation is a pure function of them.

Where the summary class, the checkbox class and two constants are defined
outside the modelled files, the model fixes them: the summary has eight
numeric fields (the four current-day counters, three daily averages and the
liveshare minutes), each 0 when new; a checkbox has a label, a value (project
ids), a checked flag, the share shown, the record count and a line number; the
default session threshold is 900 seconds; `coalesceNumber` is the identity on
numbers.

## Model

| member | source | states |
|---|---|---|
| Js.Plus | src/storage/SessionSummaryData.ts:124-129 | `+=` on a value that is not text adds as a number, with `null`, `false` reading as 0 |
| Store.ReadSession | lib/Util.ts:99-110 | a missing file, an empty file and falsy JSON all read as the empty document; an object reads as itself |
| Store.SetItem | lib/Util.ts:13-27 | the document written has the read document's keys plus `key`, holds `value` at `key` and every other key's old value |
| Store.GetItem | lib/Util.ts:29-33 | the result is `null` or truthy; it is truthy exactly when the key is present with a truthy value, and then it is that value |
| Store.GetItemAfterSetItem | lib/Util.ts:13-33 | reading a key just written gives the value written when it is truthy, `null` otherwise |
| Store.SetItemKeepsOtherKeys | lib/Util.ts:13-33 | writing one key leaves what every other key reads unchanged |
| Store.SetItemOverwrites | lib/Util.ts:13-27 | a second write of the same key replaces the first |
| Store.SetItemCommutes | lib/Util.ts:13-27 | writes of two different keys commute |
| Store.IndexOfFrom | lib/Util.ts:55-57 | `indexOf` returns the first position at or after `from` where the text occurs, or -1 when there is none |
| Store.IsWindowsIffContainsWin32 | lib/Util.ts:55-57 | the platform test holds exactly when "win32" occurs somewhere in the platform name |
| Store.IsWindows | lib/Util.ts:55-57 | a platform named "win32" is Windows, and when the test holds "win32" does occur at the index found |
| Store.InSoftwareDir | lib/Util.ts:63-97 | a file path is home, separator, `.software`, separator, file name, and so is 11 characters longer than home and name |
| Store.SoftwareDir | lib/Util.ts:63-77 | the software directory is the home directory followed by `\.software` on Windows and `/.software` elsewhere |
| Store.SoftwareSessionFile | lib/Util.ts:79-87 | the session file path starts with the home directory, continues with the platform's `.software` infix and ends in `session.json` |
| Store.SoftwareDataStoreFile | lib/Util.ts:89-97 | the data store path starts with the home directory, continues with the platform's `.software` infix and ends in `data.json` |
| Store.InSoftwareDirLayout | lib/Util.ts:63-97 | the path splits back into the home, the `\.software\` or `/.software/` part chosen by the platform, and the file name |
| Store.InSoftwareDirInjective | lib/Util.ts:63-97 | two homes or two names of the same length that give the same path are equal |
| Store.SessionAndDataFilesDiffer | lib/Util.ts:79-97 | the session file and the data store file of one home are different paths |
| Store.AlphaIndex | lib/Util.ts:130-137 | `floor(v * 32 / 256)` is below 32 and selects the block of eight bytes `v` lies in |
| Store.RandomCode | lib/Util.ts:130-137 | the code has 16 characters, the i-th being the letter the i-th byte selects, all drawn from the 32-letter alphabet |
| Store.AlphaIndexPreimage | lib/Util.ts:130-137 | each letter is selected by exactly eight byte values, so uniform bytes give uniform letters |
| Store.ShowStatus | lib/Util.ts:43-51 | the text is the message; an empty (null) tooltip becomes "Click to see more from Software.com", a non-empty one is kept |
| SessionSummary.TemplateIsZeroFields | src/storage/SessionSummaryData.ts:24-27 | a new summary holds every field, nothing else, each 0 |
| SessionSummary.FieldName | src/storage/SessionSummaryData.ts:124-129 | every field has one of the eight JSON names the summary uses |
| SessionSummary.FieldNameInjective | src/storage/SessionSummaryData.ts:124-129 | different fields have different names |
| SessionSummary.KeyNamesDistinct | src/storage/SessionSummaryData.ts:39-49 | in a document whose extra keys are not spelled like fields, as in any parsed JSON object, no two keys share a name |
| SessionSummary.SessionSummaryFile | src/storage/SessionSummaryData.ts:29-37 | the summary file is `sessionSummary.json` beside the session file, and is not the session file |
| SessionSummary.SessionThresholdSeconds | src/storage/SessionSummaryData.ts:18-22 | the threshold is the stored value when truthy, else 900; it is always truthy |
| SessionSummary.ZeroThresholdFallsBack | src/storage/SessionSummaryData.ts:18-22 | a stored threshold of 0 is ignored in favour of the default |
| SessionSummary.LastPayloadEnd | src/storage/SessionSummaryData.ts:94-97 | a last payload end is used exactly when it is stored, truthy and compares above 0, and then it is the stored number |
| SessionSummary.NoLastEndDefaultGap | src/storage/SessionSummaryData.ts:89-99 | an absent, falsy, non-numeric, zero or negative stored end gives 0 session seconds and 60 elapsed |
| SessionSummary.TimeBetweenLastPayload | src/storage/SessionSummaryData.ts:88-113 | with no usable last payload end the result is 0 session seconds and 60 elapsed; otherwise elapsed is now minus that end |
| SessionSummary.GapBilledIff | src/storage/SessionSummaryData.ts:97-110 | session seconds are non-zero exactly when there is a last end and the elapsed time is positive and within the threshold; they are then all of the elapsed time |
| SessionSummary.SessionSecondsBounded | src/storage/SessionSummaryData.ts:97-110 | session seconds are never negative, and when positive they are within the threshold |
| SessionSummary.CoalesceFrom | src/storage/SessionSummaryData.ts:51-60 | after the loop over the fields from `i` on, those fields hold their value when truthy and 0 otherwise; every other key is untouched |
| SessionSummary.CoalesceMissingAttributes | src/storage/SessionSummaryData.ts:51-60 | every field is present and holds 0 or a truthy value, truthy fields keep their value, other keys are kept |
| SessionSummary.CoalesceKeepsJsonKeyed | src/storage/SessionSummaryData.ts:51-60 | normalising adds only field keys, so no extra key comes to be spelled like a field |
| SessionSummary.CoalesceIdempotent | src/storage/SessionSummaryData.ts:51-60 | normalising twice is normalising once |
| SessionSummary.CoalesceTemplate | src/storage/SessionSummaryData.ts:51-60 | a new summary is already normalised |
| SessionSummary.GetSessionSummaryData | src/storage/SessionSummaryData.ts:39-70 | a missing file is replaced by a new summary; the data read is the file's content normalised |
| SessionSummary.ReadCountersAddable | src/storage/SessionSummaryData.ts:119-129 | once read, the four counters are present and add as numbers (a falsy counter has become 0) |
| SessionSummary.SessionMinutes | src/storage/SessionSummaryData.ts:123 | the session minutes are the session seconds divided by 60, including 0 for 0 |
| SessionSummary.AddToCounters | src/storage/SessionSummaryData.ts:123-129 | the four counters grow by the minutes and the aggregate's counts; the keys and every other value are unchanged |
| SessionSummary.IncrementSessionSummaryData | src/storage/SessionSummaryData.ts:115-132 | the file written has the read data's keys, the counters grown by seconds/60 and the aggregate's counts, every other key unchanged |
| SessionSummary.CoalesceNormalises | src/storage/SessionSummaryData.ts:51-60 | after normalising, every field is present and holds 0 or a truthy value |
| SessionSummary.CoalesceKeepsKey | src/storage/SessionSummaryData.ts:51-60 | normalising a summary whose fields are all 0 or truthy adds no key and keeps each key's value |
| SessionSummary.CoalesceKeepsNormalised | src/storage/SessionSummaryData.ts:51-60 | normalising a summary whose fields are all 0 or truthy changes nothing |
| SessionSummary.AddToCountersKeepsNormalised | src/storage/SessionSummaryData.ts:123-129 | the counter updates keep every field 0 or truthy |
| SessionSummary.AddToCountersTwice | src/storage/SessionSummaryData.ts:123-129 | two rounds of counter updates are one round by the summed aggregates and the summed minutes |
| SessionSummary.IncrementIsAddToCounters | src/storage/SessionSummaryData.ts:115-132 | an increment applies the counter updates to the data read |
| SessionSummary.IncrementNormalised | src/storage/SessionSummaryData.ts:115-132 | the file an increment writes is normalised |
| SessionSummary.IncrementOfNormalised | src/storage/SessionSummaryData.ts:115-132 | incrementing a normalised file updates its counters in place |
| SessionSummary.IncrementAfterIncrement | src/storage/SessionSummaryData.ts:115-132 | a second increment applies the counter updates on top of the first increment's, with nothing normalised away in between |
| SessionSummary.IncrementTwiceAdds | src/storage/SessionSummaryData.ts:115-132 | two successive increments write the same file as one increment by the summed aggregates and summed session seconds |
| SessionSummary.ClearSessionSummaryData | src/storage/SessionSummaryData.ts:24-27 | the cleared file holds exactly the fields, each 0 |
| SessionSummary.ReadAfterClear | src/storage/SessionSummaryData.ts:24-49 | reading after a clear yields the new summary, every field 0 |
| SessionSummary.SetSessionSummaryLiveshareMinutes | src/storage/SessionSummaryData.ts:77-82 | the file written is the data read with only the liveshare minutes replaced |
| SessionSummary.UpdateStatusBarWithSummaryData | src/storage/SessionSummaryData.ts:137-152 | the read leaves the file as reading does, and the tooltip is the default one |
| SessionSummary.InFlowIcon | src/storage/SessionSummaryData.ts:144-147 | the icon is the rocket exactly when the active minutes compare above the average as JavaScript compares, the clock otherwise; a missing average compares as 0 |
| SessionSummary.StatusIconIff | src/storage/SessionSummaryData.ts:141-150 | the text is the rocket when today's active minutes exceed the numeric daily average, the clock otherwise, then a space and the humanized minutes; with no file the rocket shows exactly for positive minutes |
| ProjectRows.Defaulted | src/menu/ProjectCommitManager.ts:269-272 | a missing or zero record count becomes 1; any other is kept |
| ProjectRows.TotalRecords | src/menu/ProjectCommitManager.ts:267-274 | the total is at least the number of projects listed |
| ProjectRows.DefaultedAtMostTotal | src/menu/ProjectCommitManager.ts:267-274 | every project's defaulted count lies between 1 and the total |
| ProjectRows.ShareBounds | src/menu/ProjectCommitManager.ts:290-291 | the percentage of a positive count not above the total lies in (0, 100] |
| ProjectRows.Share | src/menu/ProjectCommitManager.ts:290-291 | the share times the total is 100 times the record count |
| ProjectRows.DisplayName | src/menu/ProjectCommitManager.ts:279-283 | the name is `project_name`, else `name`; it is empty exactly when both are |
| ProjectRows.IdList | src/menu/ProjectCommitManager.ts:284-288 | a present id list is used as it is; otherwise `[id]` when the id is non-zero, `[]` when it is zero |
| ProjectRows.KeptProjects | src/menu/ProjectCommitManager.ts:277-289 | the projects kept are listed ones with a name and at least one id |
| ProjectRows.KeptProjectsMembership | src/menu/ProjectCommitManager.ts:277-289 | a project is kept exactly when it is listed, named and has an id |
| ProjectRows.RowFor | src/menu/ProjectCommitManager.ts:290-299 | a row carries the name, the ids, the defaulted count and its share, is checked and has the line number given |
| ProjectRows.BuildRows | src/menu/ProjectCommitManager.ts:276-303 | the i-th row is the row of the i-th kept project numbered `line + i`; skipped projects use no number |
| ProjectRows.Insert | src/menu/ProjectCommitManager.ts:305-308 | inserting into rows sorted by count keeps them sorted and adds exactly the row inserted |
| ProjectRows.SortRows | src/menu/ProjectCommitManager.ts:305-308 | the result is a permutation of the rows, sorted by record count, largest first |
| ProjectRows.InsertOrdered | src/menu/ProjectCommitManager.ts:305-308 | inserting a row numbered before all others keeps the order "more records first, equal counts by line number" |
| ProjectRows.SortRowsStable | src/menu/ProjectCommitManager.ts:305-308 | rows numbered in input order keep that order among equal counts |
| ProjectRows.Listing | src/menu/ProjectCommitManager.ts:265-268 | a failed response or one without data lists nothing |
| ProjectRows.ProjectCheckboxes | src/menu/ProjectCommitManager.ts:260-313 | an empty listing gives no rows; otherwise a sorted permutation of the kept projects' rows, every one checked, count at least 1, share in (0, 100] |
| ProjectRows.ProjectCheckboxesStable | src/menu/ProjectCommitManager.ts:276-308 | among equal counts the rows stay in input order |
| ProjectRows.ProjectShownIff | src/menu/ProjectCommitManager.ts:277-301 | every kept project gets a row with its name, ids and count, and every row is such a project's row |
| ProjectRows.KeptProjectShown | src/menu/ProjectCommitManager.ts:277-301 | a listed project with a name and ids has a row with its name, ids and count |
| ProjectRows.ShownRowIsKept | src/menu/ProjectCommitManager.ts:277-301 | every row shown is the row of a listed project with a name and ids |
| DateRange.StartOfDay | src/menu/ProjectCommitManager.ts:151-153 | local midnight plus the offset is the day number times 86400 |
| DateRange.EndOfDay | src/menu/ProjectCommitManager.ts:166-168 | the end of a day is one second before the next day's start |
| DateRange.HasDateSelected | src/menu/ProjectCommitManager.ts:78-80 | a date is selected exactly when the range type or the local start is truthy |
| DateRange.ResetDateRange | src/menu/ProjectCommitManager.ts:70-76 | after a reset every field is 0 or empty and no date is selected |
| DateRange.SelectDateRange | src/menu/ProjectCommitManager.ts:121-186 | a cancelled menu changes nothing; a custom range stores its start, and its local start and end once the end day is given; the last 90 days end at today's local midnight and span 90 days; any other label sets only the range type |
| DateRange.SelectedAfterReset | src/menu/ProjectCommitManager.ts:136-185 | after a reset a date is selected exactly when a plain label was picked, or a custom range with both days and a start day other than the epoch, or the 90 days with today not day 90 |
| DateRange.ValidateInput | src/menu/ProjectCommitManager.ts:324-338 | the format message exactly when the strict parse fails; the order message exactly when a parsed date starts before a non-zero stored start and is itself non-zero; no other message |
| DateRange.AcceptedEndIsOrdered | src/menu/ProjectCommitManager.ts:329-337 | an accepted text parses, and its day starts no earlier than the stored start unless one of them is 0 |
| DateRange.SameDayAccepted | src/menu/ProjectCommitManager.ts:324-337 | the day the start was stored for is accepted as the end |
| DateRange.CustomRangeOrdered | src/menu/ProjectCommitManager.ts:324-337 | a custom range whose end was accepted against its start ends after it starts, in unix and in local seconds |
| DateText.ParseDate | src/menu/ProjectCommitManager.ts:325 | a text parses exactly when it has the `DDDD-DD-DD` shape and names a real day |
| DateText.FormatDate | src/menu/ProjectCommitManager.ts:140-143 | a formatted date has the `DDDD-DD-DD` shape |
| DateText.ParseFormat | src/menu/ProjectCommitManager.ts:325 | parsing a formatted date gives the date back |
| DateText.FormatParse | src/menu/ProjectCommitManager.ts:325 | a text the strict parse accepts is exactly the formatted date |
| DateText.ValuePad | src/menu/ProjectCommitManager.ts:12 | reading a zero-padded number gives the number back |
| DateText.PadValue | src/menu/ProjectCommitManager.ts:12 | padding the value of a digit string to its length gives it back |
| DateText.DaysInMonth | src/menu/ProjectCommitManager.ts:325 | months have 28 to 31 days; February has 29 exactly in leap years |
| DateText.DayNumberNextDay | src/menu/ProjectCommitManager.ts:151-168 | within a month the next date has the next day number |
| ProjectMenu.Flatten | src/menu/ProjectCommitManager.ts:222-225 | the ids reported are as many as the picks carry together |
| ProjectMenu.FlattenAppend | src/menu/ProjectCommitManager.ts:222-225 | the ids of two runs of picks are the ids of the first run followed by those of the second |
| ProjectMenu.FlattenMembership | src/menu/ProjectCommitManager.ts:222-225 | an id is reported exactly when some pick carries it |
| ProjectMenu.LaunchProjectSelectionMenu | src/menu/ProjectCommitManager.ts:207-241 | no picks: nothing happens; the date menu is shown once only when no date is selected; a report needs a selected date and carries the picks' ids; the range type wins over start and end, which both must be non-zero |
| ProjectMenu.CancelledDateMenuReportsNothing | src/menu/ProjectCommitManager.ts:213-219 | after a reset, cancelling the date menu opens no report |
| Activation.Activate | extension.ts:92-140 | defer exactly for an unfocused first window, without probing; otherwise the server is probed; a user is created only online with missing credentials; a retry follows missing credentials unless the user was created, after 10 minutes, with the notice only on the first; initialise reports whether a user was created; telemetry, intervals, status and liveshare are untouched |
| Activation.DeferAtMostOnce | extension.ts:96-103 | the activation after a deferral never defers |
| Activation.OfflineNoticeOnlyFirst | extension.ts:110-130 | a retry after a retry never shows the offline notice |
| Activation.CredentialsPresentInitialise | extension.ts:135-137 | with session file and jwt present the plugin initialises without creating a user |
| Activation.InitialiseIff | extension.ts:107-134 | with credentials missing the plugin initialises exactly when online and the user is created, and retries otherwise |
| Activation.HeartbeatLabel | extension.ts:238-250 | the heartbeat is "INSTALLED" exactly when a user was created, "INITIALIZED" exactly when not |
| Activation.IntializePlugin | extension.ts:142-256 | every periodic job is registered with its period, the status shows "Code Time" with the default tooltip, the login prompt shows exactly when a user was created; telemetry, retries, secondary activations and the liveshare start are unchanged |
| Activation.PluginIntervalsOnePerJob | extension.ts:186-231 | an interval is registered exactly when its period is its job's period: 35, 60, 30, 10 and 1 minutes |
| Activation.PeriodicSessionCheck | extension.ts:307-320 | a user is created only online with missing credentials; the status refresh and the flush follow exactly a successful creation |
| Activation.PeriodicCheckAgreesWithActivate | extension.ts:307-319 | the periodic check creates a user exactly when an activation would initialise with a new user |
| Activation.HandlePauseMetricsEvent | extension.ts:258-261 | telemetry off, the paused text and tooltip; intervals and counters untouched |
| Activation.HandleEnableMetricsEvent | extension.ts:263-266 | telemetry on, "Code Time" with the default tooltip; intervals and counters untouched |
| Activation.PauseThenEnable | extension.ts:258-266 | enabling after a pause is enabling, and pausing twice is pausing once |
| Activation.UpdateLiveshareTime | extension.ts:268-274 | with an open session the summary records `(now - start) * 60` as the liveshare minutes; without one nothing is written |
| Activation.LiveshareMinutesAsWrittenOverstates | extension.ts:271-272 | a one-minute session is recorded as 3600 |
| Activation.LiveshareMinutesAsWritten | extension.ts:271-272 | the value written is 3600 times the minutes the session lasted, and never less than the elapsed seconds |
| Activation.ElapsedLiveshareMinutes | extension.ts:271-272 | the minutes times 60 are the elapsed seconds |
| Activation.ElapsedLiveshareMinutesExact | extension.ts:271-272 | a session of n whole minutes records n |
| Activation.UpdateLiveshareTimeCorrected | extension.ts:268-274 | with an open session the summary records minutes whose 60-fold is the elapsed seconds |

## Left out

- I/O: reading and writing the files, JSON parsing and its errors, the HTTP calls, the quick picks and input boxes, timers and their interleaving. Their results are parameters (the session document, the summary file, `Env`, the picks and the typed days), and a timer is modelled by the state it leaves when it fires.
- `launchDailyReportMenuFlow`, `launchViewProjectSummaryMenuFlow` and `launchProjectSummaryMenuFlow`: UI flows that chain the modelled pieces. `launchDailyReportMenuFlow` passes a range value where project checkboxes are expected; that is not modelled.
- The `/projects` query-string building and the `(x.xx%)` text: `toFixed(2)` rounding is left out; the share is an exact real.
- Floating point: numbers are reals, so rounding, `NaN` from arithmetic and integer overflow of JavaScript numbers are not modelled.
- Js.ToNumber: text other than "" converts to `NaN`, where JavaScript converts numeric text such as "900" to its number; so on stored numeric text the model computes something different from the source, not merely less.
- SessionSummary.TimeBetweenLastPayload: a last payload end stored as numeric text (say "1000") is not used, so the model gives 0 session seconds and 60 elapsed where the source computes now minus 1000; a threshold stored as numeric text (say "600") never admits a gap, where the source compares against 600.
- SessionSummary.GapBilledIff: states the billing rule with the conversion above, so it differs from the source for a last end or threshold stored as numeric text.
- SessionSummary.StatusIconIff: an average stored as numeric text always gives the clock, where the source compares the active minutes against its number.
- Store.GetItem: `jsonObj[key]` also reads members inherited from `Object.prototype` (`getItem("constructor")` on `{}` is a truthy function); the model reads only the document's own keys. No key the extension reads is such a name.
- ProjectRows.ProjectCheckboxes: record counts are taken as non-negative whole numbers; the source sums whatever the server sends, so a negative count (say 5 and -3) would give a share above 100%.
- Store.ReadSession: a truthy JSON value that is not an object (a number, text, an array) is not modelled; it reads as an object in the source.
- SessionSummary.IncrementSessionSummaryData: requires that the four counters do not hold non-empty text, because JavaScript would then concatenate instead of add.
- The `SessionSummary` and `Checkbox` classes, `Constants.ts`, `coalesceNumber` and `humanizeMinutes` are not part of this model: the eight fields, the 900-second default and the identity on numbers are choices stated above, and the humanized minutes are an input.
- `getCodeTimeSummary`: the active code time is an input of the status-bar update.
- Day arithmetic: a day is a local day number and the UTC offset is fixed, so daylight-saving changes are not modelled. The strict date parse covers four-digit years 0 to 9999 of the proleptic Gregorian calendar.
- The initial values shown in the date input boxes (yesterday and the day after the start) are UI text and are not modelled.
- `updateLiveshareTime` calls a `setSessionSummaryLiveshareMinutes` from `lib/OfflineManager`, which is not part of this model; the one in `src/storage/SessionSummaryData.ts` stands in for it. `parseInt` of the start is the identity on the whole seconds stored.
- `initializeLiveshare`, `deactivate`, the commands, preferences, the status-bar item creation, `getStatusBarKpmItem`, `storePayload`, and everything under music, repositories and liveshare sessions: outside the modelled core.
- `crypto.randomBytes`: the 16 bytes are an input of `randomCode`.

## Findings

| source | as written | input that shows it | evidently intended | confidence | as-written member | corrected member |
|---|---|---|---|---|---|---|
| extension.ts:271-272 | `setSessionSummaryLiveshareMinutes(diffSeconds * 60)` writes the elapsed seconds times 60 as minutes | a session started at second 0 and updated at second 60 records 3600 minutes | the elapsed seconds divided by 60, so one minute records 1 | high; not executed | Activation.LiveshareMinutesAsWritten (with Activation.LiveshareMinutesAsWrittenOverstates) | Activation.ElapsedLiveshareMinutes (with Activation.ElapsedLiveshareMinutesExact, used by Activation.UpdateLiveshareTimeCorrected) |
