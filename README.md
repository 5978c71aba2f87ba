# Playlunky script manager, modelled in Dafny

This project models the script-mod manager of Playlunky, `ScriptManager` in
`source/playlunky/mod/script_manager.cpp`. The manager keeps one record per
mod whose main file is a Lua script, held in a vector ordered by priority.
It also owns an optional developer console. It drives each script through
these stages:

- registration;
- commit, where scripts are instantiated;
- refresh, where scripts are reloaded;
- the per-frame update, where result strings are checked and queued
  messages forwarded;
- the options window, with its cursor and one checkbox per script;
- the overlay pass, with the online warning and script drawing.

The model is split into these files:

- `host.dfy` (`HostInterface`): what the manager exchanges with the outside
  world. This covers log entries, the calls it makes into the host and the
  console, and the engine's answers as plain values. It also defines the
  two-state cursor machine over the recorded calls.
- `records.dfy` (`ModRecords`): the mod record, the signed 64-bit priority,
  the ascending priority order and the upper-bound insertion.
- `script_results.dfy` (`ScriptResults`): the result check
  (`TestScriptResult`), and its behaviour over a stream of results
  (de-duplication of consecutive repeats only).
- `messages.dfy` (`ScriptMessages`): message forwarding by timestamp, and
  the running maximum of message times.
- `lifecycle.dfy` (`Lifecycle`): the commit, refresh and update step for one
  record. It also defines `Sweep`, which applies such a step to every record
  in list order.
- `presentation.dfy` (`Presentation`): the checkbox toggle, the panel
  contents and the overlay selection.
- `script_manager.dfy` (`ScriptManagement`): the loops over the records,
  and the `ScriptManager` class. The class has the record list, the console,
  the cursor flag, the log and the record of host calls as fields.

The manager's invariant (`ScriptManager.Valid`) has four parts:

- the list is sorted by ascending priority;
- names are unique;
- every live script holds the enabled state its record shows;
- the show-cursor and hide-cursor calls alternate, and `showCursor` records
  the last one.

Every state-changing operation preserves it.

Each answer the engine or console gives during a call is a parameter of that
call, with one entry per record where the C++ code asks once per record.
These answers are:

- whether creation succeeded and the handle it returned;
- the `unsafe` metadata bit;
- the result string;
- the queued messages;
- the console's messages;
- whether the console has new history or is toggled;
- the current screen;
- whether a checkbox was clicked.

A script handle is `Option<Script>`. `Script(id, enabled)` records the
engine instance and the enabled state last handed to it.

The vector is kept in ascending priority order. Registration uses
`std::upper_bound` with the comparator `mod.Priority > prio`
(`script_manager.cpp:28-30`), so a new record goes before the first record
of strictly greater priority. It therefore lands after every record of equal
priority. Registering priorities 5, 1, 5, 10 gives 1, 5, 5, 10
(`ModRecords.RegistrationOrderExample`).

## Model

| member | source | states |
|---|---|---|
| ModRecords.UpperBound | source/playlunky/mod/script_manager.cpp:28-29 | the insertion point in a sorted list: every record before it has priority at most the new one, every record from it on has a strictly greater priority |
| ModRecords.Inserted | source/playlunky/mod/script_manager.cpp:28-30 | inserting at the upper bound grows the list by one, keeps it sorted, puts the record at the upper bound, leaves the other records in their old order, and adds nothing else |
| ModRecords.InsertedKeepsNamesUnique | source/playlunky/mod/script_manager.cpp:24-30 | inserting under a name not yet present keeps every name unique |
| ModRecords.RegistrationOrderExample | source/playlunky/mod/script_manager.cpp:28-30 | priorities 5, 1, 5, 10 registered in that order end up as 1, 5, 5, 10, the second 5 after the first |
| HostInterface.AppendCursorCall | source/playlunky/mod/script_manager.cpp:152-156 | a show call issued while hidden, or a hide call issued while shown, keeps the cursor calls alternating and sets the cursor state it names |
| ScriptResults.TestScriptResult | source/playlunky/mod/script_manager.cpp:307-321 | only the last result can change; one Lua error is logged, exactly when the script is live and the result is non-null, not "Got metadata" or "OK", and not the last result; that result is then stored |
| ScriptResults.Significant | source/playlunky/mod/script_manager.cpp:312-314 | a result is significant if and only if it is a non-null result in the stream other than "Got metadata" and "OK" |
| ScriptResults.SignificantAppend | source/playlunky/mod/script_manager.cpp:312-314 | significant results keep the stream's order: the significant results of a split stream are those of its parts, in turn |
| ScriptResults.ReplayCollapsesRepeats | source/playlunky/mod/script_manager.cpp:307-321 | running the check once per result logs exactly the significant results with consecutive repeats collapsed, compared first with the stored last result |
| ScriptResults.CollapseHasNoRepeats | source/playlunky/mod/script_manager.cpp:314-317 | what is logged never repeats the error logged just before it, and contains only results that were reported |
| ScriptResults.CollapseKeepsNonRepeats | source/playlunky/mod/script_manager.cpp:314-317 | a stream without consecutive repeats is logged whole: only repeats are suppressed |
| ScriptResults.SentinelsNeverLogged | source/playlunky/mod/script_manager.cpp:314 | for any stream of results, every logged entry is a Lua error that is not a success sentinel |
| ScriptResults.ReplaySentinelExample | source/playlunky/mod/script_manager.cpp:312-318 | results "OK", "Got metadata", A, A, B log exactly A and B |
| ScriptResults.ReplayAlternationExample | source/playlunky/mod/script_manager.cpp:314-318 | results A, A, B, A log A, B, A |
| ScriptMessages.Kept | source/playlunky/mod/script_manager.cpp:120-127 | the forwarded messages come from the queue and each has non-null text and a timestamp newer than the old message time |
| ScriptMessages.KeptIsComplete | source/playlunky/mod/script_manager.cpp:123 | a message is forwarded if and only if it is queued, has non-null text and a timestamp strictly newer than the old message time |
| ScriptMessages.KeptAppend | source/playlunky/mod/script_manager.cpp:120-127 | forwarded messages keep their queue order and their number: a split queue forwards its parts in turn, nothing reordered or merged |
| ScriptMessages.LatestTimeIsMaximum | source/playlunky/mod/script_manager.cpp:119-129 | the new message time is at least the old one and every forwarded timestamp, and is the old time or one of them: their maximum, so it never decreases |
| ScriptMessages.ProcessMessages | source/playlunky/mod/script_manager.cpp:118-129 | the message loop forwards exactly the kept messages, tagged with the mod's name and in queue order, and ends with their maximum timestamp |
| ScriptMessages.MessageTimeExample | source/playlunky/mod/script_manager.cpp:119-129 | timestamps 3, 7, 5 arriving at time 0 are all forwarded in order and the message time becomes 7 |
| ScriptMessages.ConsoleLog | source/playlunky/mod/script_manager.cpp:100-108 | a console line is logged if and only if its text is a non-null console message |
| ScriptMessages.ConsoleLogAppend | source/playlunky/mod/script_manager.cpp:101-107 | console lines keep the console's order: a split batch logs its parts in turn |
| Lifecycle.Sweep | source/playlunky/mod/script_manager.cpp:58 | a pass over the records keeps their number and gives record i the result of its own step with its own input |
| Lifecycle.CommitRecord | source/playlunky/mod/script_manager.cpp:60-79 | a disabled record is untouched; an enabled one has a script exactly when creation succeeded; a created script (created disabled) has its result checked, which logs and stores the error as the check does, its unsafe bit copied, and its toggle kept only when safe; registration never changes; live scripts carry the record's toggle |
| Lifecycle.CommitDisablesUnsafe | source/playlunky/mod/script_manager.cpp:68-73 | after commit, an enabled record whose created script is unsafe has its toggle off and its script disabled |
| Lifecycle.CommitKeepsLayout | source/playlunky/mod/script_manager.cpp:58-80 | commit keeps every record's registration and position, and keeps every live script in sync with its toggle |
| Lifecycle.RefreshRecord | source/playlunky/mod/script_manager.cpp:87-92 | refresh logs nothing, changes only the script and the last result, which becomes empty; the new script exists exactly when creation succeeded and starts with the record's toggle |
| Lifecycle.RefreshKeepsLayout | source/playlunky/mod/script_manager.cpp:85-93 | refresh of every record, enabled or not, keeps registrations, order, toggles and message times, clears every last result, logs nothing, and gives each record a script exactly when its creation succeeded |
| Lifecycle.UpdateRecord | source/playlunky/mod/script_manager.cpp:113-130 | a record without a script is untouched; for a live script the result is checked, the kept messages are logged after any error, and the message time becomes their maximum; only the last result and message time change, and the message time never decreases |
| Lifecycle.UpdateKeepsLayout | source/playlunky/mod/script_manager.cpp:111-131 | update keeps registrations, order and scripts, keeps live scripts in sync, and no record's message time decreases |
| Presentation.ToggleRecord | source/playlunky/mod/script_manager.cpp:182-185 | a click on a shown checkbox flips the toggle and hands the new value to the script at once; otherwise the record is unchanged |
| Presentation.Toggled | source/playlunky/mod/script_manager.cpp:171-185 | one frame of clicks gives record i exactly the checkbox step of record i with click i; it keeps every registration, keeps live scripts in sync and does not change which records have a panel |
| Presentation.ToggleTwiceRestores | source/playlunky/mod/script_manager.cpp:182-185 | the same clicks in two frames put every record back as it was |
| Presentation.PanelOf | source/playlunky/mod/script_manager.cpp:199-214 | a panel shows the unsafe warning exactly when an unsafe script is off, and the script's options exactly when it is on, never both |
| Presentation.Panels | source/playlunky/mod/script_manager.cpp:171-173 | every panel shown belongs to an enabled record with a live script |
| Presentation.PanelsAreComplete | source/playlunky/mod/script_manager.cpp:173 | every enabled record with a live script gets its panel |
| Presentation.PanelsAppend | source/playlunky/mod/script_manager.cpp:171-173 | panels follow list order: a split list gives the panels of its parts in turn |
| Presentation.LiveIndices | source/playlunky/mod/script_manager.cpp:282-288 | the overlay draws exactly the records with a live script, whatever their toggle, in list order |
| ScriptManagement.CommitEach | source/playlunky/mod/script_manager.cpp:58-80 | the commit loop leaves each record as its commit step does and logs what the steps log, in list order |
| ScriptManagement.RefreshEach | source/playlunky/mod/script_manager.cpp:85-93 | the refresh loop leaves each record as its refresh step does |
| ScriptManagement.ForwardConsole | source/playlunky/mod/script_manager.cpp:100-108 | the console loop logs every non-null console message, in order |
| ScriptManagement.UpdateEach | source/playlunky/mod/script_manager.cpp:111-131 | the update loop leaves each record as its update step does and logs what the steps log, in list order |
| ScriptManagement.ToggleEach | source/playlunky/mod/script_manager.cpp:171-216 | the window loop applies each record's click and returns the panels of the resulting records |
| ScriptManagement.LiveScripts | source/playlunky/mod/script_manager.cpp:282-288 | the overlay loop collects the positions of the records with a live script |
| ScriptManagement.ScriptManager.RegisterModWithScript | source/playlunky/mod/script_manager.cpp:16-37 | a name already present is refused and nothing changes; otherwise the new record (both flags set to the enabled argument) is inserted at the upper bound, the other records keep their order, and an enabled mod registers the script mod type; the invariant is kept |
| ScriptManagement.ScriptManager.CommitScripts | source/playlunky/mod/script_manager.cpp:39-82 | the console is opened, its history loaded and bounded, exactly when speedrun mode is off and the console setting is on; every record takes its commit step in order; the invariant is kept |
| ScriptManagement.ScriptManager.RefreshScripts | source/playlunky/mod/script_manager.cpp:83-94 | every record takes its refresh step; the invariant is kept |
| ScriptManagement.ScriptManager.Update | source/playlunky/mod/script_manager.cpp:95-132 | console messages are logged first when there is a console; then every record takes its update step in order; the invariant is kept |
| ScriptManagement.ScriptManager.NeedsWindowDraw | source/playlunky/mod/script_manager.cpp:134-142 | false with no mods and no console; otherwise true exactly when options are forced or the screen is the menu |
| ScriptManagement.ScriptManager.WindowDraw | source/playlunky/mod/script_manager.cpp:143-223 | idle: nothing changes; otherwise the cursor state becomes whether the window is wanted, with a show call only on hidden to shown and a hide call only on shown to hidden; when shown, clicks are applied and the panels returned; the cursor calls keep alternating |
| ScriptManagement.ScriptManager.Draw | source/playlunky/mod/script_manager.cpp:224-291 | idle: nothing is drawn; otherwise the online warning shows exactly on the online screen with some toggle on, the console draws when present and saves its history only when it has new history, and every live script draws |
| ScriptManagement.ScriptManager.IsConsoleToggled | source/playlunky/mod/script_manager.cpp:293-298 | false without a console; the console's answer otherwise |
| ScriptManagement.ScriptManager.ToggleConsole | source/playlunky/mod/script_manager.cpp:299-305 | a toggle call is made exactly when there is a console; nothing else changes |

## Left out

- ImGui layout and rendering are not modelled: separators, text, version and author lines, cursor positions, window flags and the click-handler window. Only the decisions are kept: which panels show and what they hold, the checkbox effect, which scripts draw, and when the warning and console draw.
- The colour-cycling text of the online warning is not modelled. It is floating-point `sin` arithmetic and purely cosmetic. The model keeps only whether the warning shows.
- The script and console engine is not modelled. Each call into it is a parameter: creation (as a handle or none), metadata, results, messages, console messages, history state and toggle state. Calls whose effect lies outside the manager are recorded as `HostCall` values. These are type registration, history load and save, the history size, cursor show and hide, and console toggle. The calls that only draw are not recorded.
- Console history file I/O is not modelled, beyond the call to load or save `console_history.txt`. The history size comes from the settings, whose default of 20 lives in the settings lookup. The size is a parameter of commit.
- Reading settings is not modelled. Speedrun mode, the console setting and the history size are parameters of commit.
- The branches guarded by `g_DisableScriptMods` are not modelled. That constant is fixed to false, so only its else branches are modelled.
- Ownership and freeing of script handles is not modelled (the deleter, `reset`). A handle is an optional value, and releasing it is replacing that value.
- Path-to-string conversion and the formatting of log lines are not modelled. A log entry keeps the mod name and the text.
- `SpelunkyConsole_Update` and `SpelunkyConsole_ConsumeMessages` are not modelled. The console's messages for one frame are given as a parameter of the update.
- `source/playlunky/playlunky.cpp` is not part of this model. It is process-wide singleton plumbing over code that is not shown.
- The header `script_manager.h` is not part of this model. The model assumes its defaults: a new record is not unsafe, has an empty last result and message time 0, and a new manager starts with the cursor not shown (`mShowCursor` false), no console and no mods. `mForceShowOptions` is set outside this file, so the model takes it as a constructor parameter.
- Message timestamps are unbounded naturals. `std::size_t` wrap-around is not modelled, because the code only compares and takes maxima.
