# QPar2 main window: a Dafny model of its control logic

QPar2 is a Qt front end to the libpar2 engine, which verifies and repairs
files protected by a PAR2 recovery set. All of its logic is in the window
class `MainWindow` (mainwindow.cpp, mainwindow.h). This project models that
logic without the widgets. It has three parts:

- **The operation/status state machine.** `operation` is none, scanning,
  verifying or repairing. `status` is undef, verifiable, repairable,
  unrepairable or complete. `file_loaded` records whether a set was loaded.
  The model covers:
  - `preprocess`, which loads and scans a set.
  - The browse button, a drop and the constructor, which all call `preprocess`.
  - The verify and repair buttons, with their guards.
  - `update_status`, which maps the engine's `Result` to a new status.
- **The per-file table.** The engine's callbacks `sig_filename`,
  `sig_progress` and `sig_done` append rows and edit them in place. The
  model covers how they do it.
- **The status-bar texts and the archive summary.** `errors` writes a
  status line per error, `update_status` writes a status line per result,
  and `signal_headers` fills the seven summary labels.

The engine is an input. `CommandLine::Parse` becomes a boolean. Each
`PreProcess` or `Process` call becomes an `EngineRun`: the callbacks it
makes, in order, and the `Result` it returns.

Modules:
- `Wrappers` and `Engine` (engine.dfy): `Option`, and the engine's types.
- `WindowState` (window_state.dfy): the enums, `StatusAfter` and the two
  rejection checks.
- `Messages` (messages.dfy): the status-bar lines.
- `HeaderSummary` (headers.dfy): the summary labels.
- `ProgressTable` (progress_table.dfy): the rows, and `Replay`, the effect of
  a callback stream.
- `Controller` (controller.dfy): the whole window state as a `Window` value,
  one function per user action, and the proof that any sequence of actions
  keeps the window valid.
- `MainWindowModel` (main_window.dfy): the class `MainWindow`. Its fields are
  the window's state. Each method is proved to carry out the matching
  `Controller` function.
- `Scenarios` (scenarios.dfy): client code that drives the class through
  typical sequences.

Behaviour kept as the code has it:
- `file_loaded` is set before the path is parsed. It stays true when the
  parse fails.
- The repair button treats an undefined status like a set that is not
  loaded: it reports `notloaded_repair`.
- The table is never cleared, not even when a new set is loaded.
- A drop and the constructor call `preprocess` without checking `operation`.
- Progress values are truncated toward zero and not clamped.
- `sig_done` for a file with a row that is not the last one gives the last
  row the block counts. Scenarios.TwoFilesVerify shows a file left without
  counts this way.
- `sig_progress` during a scan or verification, and every `sig_done`, need
  a non-empty table, because the code indexes `rowCount()-1`. The model
  requires the engine to announce a file before either callback
  (`RowsReady`).

## Model

| member | source | states |
|---|---|---|
| WindowState.StatusAfter | mainwindow.cpp:433-480 | Each status is reached exactly when the result produces it. Success gives verifiable after a scan and complete after a verify or repair. RepairPossible gives repairable. Each of the six failure results gives unrepairable. Otherwise the status is kept: Success with no operation, or any other result. The status becomes undefined only if it already was. |
| WindowState.VerifyRejection | mainwindow.cpp:194-197 | Verification proceeds exactly when the set is loaded and verifiable. Otherwise the error is notloaded_verify if not loaded, and already_verified if loaded. |
| WindowState.RepairRejection | mainwindow.cpp:216-221 | Repair proceeds exactly when the set is loaded and verifiable or repairable. Errors come in priority order: notloaded_repair (not loaded, or status undefined), then notnecessary_repair (complete), then notpossible_repair (unrepairable). |
| Messages.ErrorText | mainwindow.cpp:384-427 | Each error's status line. ErrorOf maps every line back to its own error, so the six lines are distinct. |
| Messages.ResultText | mainwindow.cpp:433-480 | update_status shows a line exactly when it sets the status. The line names the status set, whatever the previous status. |
| HeaderSummary.UnitOf | mainwindow.cpp:330-340 | A size below 1024 is shown in bytes. Otherwise it is shown in the largest unit not above it, so the scaled value lies in [1, 1024), except in gigabytes. |
| HeaderSummary.UnitTierIsUnique | mainwindow.cpp:350-360 | Only one unit meets the tier property of UnitOf, so the thresholds 1024, 1024² and 1024³ pick exactly one unit. |
| HeaderSummary.Summarize | mainwindow.cpp:317-379 | Each label shows its own header field. An empty set id or a -1 field leaves the label with nothing appended. Block size and data size carry their unit tier. Counts are shown unscaled. |
| ProgressTable.TruncateToInt | mainwindow.cpp:275-283 | The `(int)` cast of a progress value truncates toward zero and does not clamp. |
| ProgressTable.Announce | mainwindow.cpp:236-263 | signal_filename appends exactly one row (name, a bar never given a value, no counts) at the end, and only if the name is absent. Existing rows are kept unchanged. Names stay unique. |
| ProgressTable.SetLastProgress | mainwindow.cpp:275-280 | Only the last row's progress changes, to the given value. Its name and block counts, and all other rows, are kept. |
| ProgressTable.MarkDone | mainwindow.cpp:294-311 | A name with no row gains a row at the end carrying the counts. Otherwise the counts go to the last row, whoever's it is. Earlier rows are unchanged and names stay unique. |
| ProgressTable.Apply | mainwindow.cpp:236-379 | Each callback touches only its own widgets. A file name changes only the table, as Announce says, and a done count only the table, as MarkDone says. A progress value goes to the last row during a scan or verification, and to the global bar otherwise. A header sets the labels to Summarize of it, and sets nbfiles exactly when recoverable_files is not -1. |
| ProgressTable.Replay | mainwindow.cpp:169-178 | The effect of a stream of callbacks. The table never shrinks, and it is non-empty once a file has been announced. |
| ProgressTable.ReplayStep | mainwindow.cpp:169-178 | A well-formed callback stream is processed one callback at a time. Every prefix is well-formed, and each callback that indexes the last row finds the table non-empty. |
| ProgressTable.ReplayKeepsNamesUnique | mainwindow.cpp:236-263 | No stream of callbacks gives a file name a second row. |
| ProgressTable.ReplayNames | mainwindow.cpp:236-311 | The names after a stream are the names before plus every name announced or completed. |
| ProgressTable.ReplayKeepsOrder | mainwindow.cpp:236-311 | Rows present before a stream keep their names and places: rows are never removed or reordered. |
| ProgressTable.RowCountIsDistinctNames | mainwindow.cpp:236-311 | From a table with unique names, the row count after a stream equals the number of distinct names: the old ones plus those announced or completed. |
| Controller.Scanned | mainwindow.cpp:136-185 | preprocess marks the set loaded and ends with no operation. A failed parse leaves the status undefined and verify disabled, and shows cmdline_error. The table, nbfiles and labels are unchanged; only the global bar is reset. Otherwise verify is enabled. The status is verifiable exactly after a successful parse and a Success result. A scan never marks the set complete. The global bar is reset. |
| Controller.Launched | mainwindow.cpp:24-53 | The constructor ends with no operation. The set is loaded exactly when a path was given. Without a path the window is the initial one. With one, it is exactly what preprocess makes of the initial window. |
| Controller.Browsed | mainwindow.cpp:115-130 | While an operation runs, or when the dialog returns no name, nothing changes. Otherwise the window becomes exactly what preprocess makes of the chosen set, which is then loaded. |
| Controller.Dropped | mainwindow.cpp:493-505 | Nothing changes when the drop gives no existing `file://` path. Otherwise the window becomes exactly what preprocess makes of it, whatever the current operation: the set is loaded and no operation is left running. |
| Controller.Step | mainwindow.cpp:115-229 | A browse, drop, verify click or repair click does exactly what Browsed, Dropped, Verified or Repaired says. A click on a disabled button changes nothing. An idle window stays idle. |
| Controller.Verified | mainwindow.cpp:191-207 | Busy: nothing changes. Rejected: only the status line changes. Status, table and repair button are kept. Engine called: repair is enabled exactly on RepairPossible, which also makes the status repairable. The set is complete exactly on Success. |
| Controller.Repaired | mainwindow.cpp:213-229 | Busy: nothing changes. Rejected: the status line shows the error, in priority order. Status and table are kept. Engine called: complete exactly on Success, unrepairable on any failure. The buttons are never changed. |
| Controller.StepKeepsValid | mainwindow.cpp:115-229 | Every user action returns to no operation, keeps row names unique, and never gives a set that is not loaded a status. A click on a disabled verify or repair button changes nothing, as Qt delivers no click for it. |
| Controller.RunKeepsValid | mainwindow.cpp:115-229 | The same holds after any sequence of user actions. |
| Controller.LaunchedIsValid | mainwindow.cpp:24-53 | The constructed window is valid, whether or not it loaded a set. |
| MainWindowModel.MainWindow.constructor | mainwindow.cpp:24-53 | The new window is in the state Controller.Launched gives. |
| MainWindowModel.MainWindow.Preprocess | mainwindow.cpp:136-185 | The fields are updated in place to the state Controller.Scanned gives. |
| MainWindowModel.MainWindow.BrowseClicked | mainwindow.cpp:115-130 | The new state is the one Controller.Browsed gives. |
| MainWindowModel.MainWindow.DropEvent | mainwindow.cpp:493-505 | The new state is the one Controller.Dropped gives. |
| MainWindowModel.MainWindow.VerifyClicked | mainwindow.cpp:191-207 | The engine is called exactly when the window is idle, loaded and verifiable. The new state is the one Controller.Verified gives. |
| MainWindowModel.MainWindow.RepairClicked | mainwindow.cpp:213-229 | The engine is called exactly when the window is idle, loaded and verifiable or repairable. The new state is the one Controller.Repaired gives. |
| MainWindowModel.MainWindow.Process | mainwindow.cpp:199-205 | The accepted branch of the verify button, and likewise of the repair button (lines 223-227). It shows the operation's line, runs the engine while its callbacks fill the widgets as Replay says, moves the status as StatusAfter says and leaves no operation running. |
| MainWindowModel.MainWindow.Call | mainwindow.cpp:178-179 | One engine call followed by update_status: the widgets change as Replay says, then the status and its line change as StatusAfter and StatusLine say. |
| MainWindowModel.MainWindow.Errors | mainwindow.cpp:384-427 | The status line becomes the error's line. Nothing else changes. |
| MainWindowModel.MainWindow.UpdateStatus | mainwindow.cpp:433-480 | The status becomes StatusAfter of the current operation and result. The status line changes only when ResultText gives one. |
| MainWindowModel.MainWindow.Feed | mainwindow.cpp:169-178 | Delivering the callbacks in order changes only the table, the global bar, nbfiles and the labels, exactly as Replay says. |
| MainWindowModel.MainWindow.Emit | mainwindow.cpp:169-176 | Each callback reaches the slot its signal is connected to, and changes the widgets exactly as Apply says. |
| MainWindowModel.MainWindow.SignalFilename | mainwindow.cpp:236-267 | The linear scan with its `exist` flag appends a row exactly as Announce says. |
| MainWindowModel.MainWindow.SignalProgress | mainwindow.cpp:275-287 | During a scan or verification only the last row's bar changes. Otherwise only the global bar changes. |
| MainWindowModel.MainWindow.SignalDone | mainwindow.cpp:294-311 | The rows become MarkDone of the old rows. |
| MainWindowModel.MainWindow.SignalHeaders | mainwindow.cpp:317-379 | The labels become Summarize of the header. nbfiles is set exactly when recoverable_files is present. |
| Scenarios.TwoFilesScan | mainwindow.cpp:236-287 | A scan announcing a.txt, a progress of 1000, then b.txt leaves exactly two rows, in that order. The first shows 1000 and the second has never been given a value. |
| Scenarios.TwoFilesVerify | mainwindow.cpp:294-311 | Completing a.txt then b.txt on that table writes both counts to b.txt's row: a.txt's row keeps none. |

## Left out

- Widget construction, menus, the about dialog, column resizing, scrolling and the message boxes that come with each error. Only the status-bar line of each error is modelled.
- The libpar2 engine and command-line construction (`CommandLine::Parse`, `LibPar2`, `PreProcess`, `Process`, `strdup`/`free`) are foreign code. The parse outcome and each engine call's callbacks and result are inputs.
- `QCoreApplication::processEvents` inside the callbacks and before the constructor's `preprocess` is not modelled. Nor is the re-entrancy it allows, such as a button click or a drop arriving while an operation runs. The guards on `operation` are modelled, but a model run never starts an action inside another.
- The file dialog, the drag-enter MIME check, the `file://` pattern match and `QFile::exists` are I/O. Each becomes an optional input: None when no path results.
- The numeric text of the labels (`QString::number` of a double divided by 1024, 1024² or 1024³) is floating-point formatting. A label records only whether a value is shown and, for sizes, the unit.
- ProgressTable.TruncateToInt: a double outside the `int` range, whose cast is undefined in C++, is not modelled. How a Qt progress bar treats a value outside its range is Qt's behaviour, not part of this model.
- ui_mainwindow.h is not part of this model. The model starts both buttons enabled (Qt's default for a widget), the global bar and summary labels unset, and the table empty.
- `nbdone` and `avail_blocks` are never read or assigned, and are not modelled.
- `repairer`, the engine handle, is not modelled as a field. `preprocess` creates it after a successful parse. Verify and repair use it, and reach it only when the status is verifiable or repairable, which only a successful parse can produce. Each engine call's input (`EngineRun`) stands for what that handle does.
- MainWindowModel.MainWindow.VerifyClicked sets the repair button just after update_status, where the code sets it just before (mainwindow.cpp:203-204). Neither step reads the button, so the resulting state is the same.
- The class methods VerifyClicked and RepairClicked are the slots themselves: they run whenever called, whatever the button's enabled state. The gate of a disabled button (Qt delivers no click) is modelled in Controller.Step, which applies a click only while its button is enabled.
