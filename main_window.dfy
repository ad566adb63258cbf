/**
 * The window object: its fields are updated in place by the button
 * handlers, by preprocess and by the engine's callbacks. Every method is
 * proved to carry out the matching function of module Controller.
 */
module MainWindowModel {
  import opened Wrappers
  import opened Engine
  import opened WindowState
  import opened Messages
  import opened HeaderSummary
  import opened ProgressTable
  import opened Controller

  class MainWindow {
    var operation: Operation
    var status: Status
    var fileLoaded: bool
    var rows: seq<Row>                  // the table's rows, top to bottom
    var globalProgress: Option<int>     // None once the bar is reset
    var nbfiles: Option<int>            // None while never assigned
    var labels: Option<HeaderLabels>    // None while the summary labels show the form's text
    var statusText: string
    var verifyEnabled: bool
    var repairEnabled: bool

    /** The widgets the engine's callbacks write to. */
    function View(): Panel
      reads this
    {
      Panel(rows, globalProgress, nbfiles, labels)
    }

    /** The whole state, as module Controller sees it. */
    function Snapshot(): Window
      reads this
    {
      Window(operation, status, fileLoaded, View(), statusText, verifyEnabled, repairEnabled)
    }

    /** Builds the window and, when a path was given on the command line, loads it. */
    constructor (launch: Option<ScanRun>)
      requires launch.Some? ==> ScanReady(Initial(), launch.value)
      ensures Snapshot() == Launched(launch)
    {
      statusText := WaitingText;
      operation := Idle;
      status := Undefined;
      fileLoaded := false;
      rows := [];
      globalProgress := None;
      nbfiles := None;
      labels := None;
      verifyEnabled := true;
      repairEnabled := true;
      new;
      if launch.Some? {
        Preprocess(launch.value);
      }
    }

    /** Loads and scans a set; see Controller.Scanned. */
    method Preprocess(scan: ScanRun)
      requires ScanReady(Snapshot(), scan)
      modifies this
      ensures Snapshot() == Scanned(old(Snapshot()), scan)
    {
      ghost var panel := View();
      statusText := ScanningText;
      operation := Scanning;
      status := Undefined;
      fileLoaded := true;
      if !scan.parseOk {
        Errors(CmdlineError);
        verifyEnabled := false;
      } else {
        Call(scan.run);
        verifyEnabled := true;
        panel := Replay(panel, Scanning, scan.run.events);
      }
      globalProgress := None;
      operation := Idle;
      assert View() == panel.(global := None);
    }

    /** The browse button; `chosen` is None when the dialog returns no file name. */
    method BrowseClicked(chosen: Option<ScanRun>)
      requires operation == Idle && chosen.Some? ==> ScanReady(Snapshot(), chosen.value)
      modifies this
      ensures Snapshot() == Browsed(old(Snapshot()), chosen)
    {
      if operation != Idle {
        return;
      }
      if chosen.Some? {
        Preprocess(chosen.value);
      }
    }

    /** A drop; `dropped` is None unless the text is a `file://` path to an existing file. */
    method DropEvent(dropped: Option<ScanRun>)
      requires dropped.Some? ==> ScanReady(Snapshot(), dropped.value)
      modifies this
      ensures Snapshot() == Dropped(old(Snapshot()), dropped)
    {
      if dropped.Some? {
        Preprocess(dropped.value);
      }
    }

    /** The verify button; reports whether the engine was called. */
    method VerifyClicked(run: EngineRun) returns (engineCalled: bool)
      requires VerifyCallsEngine(Snapshot()) ==> RowsReady(View(), Verifying, run.events)
      modifies this
      ensures engineCalled == VerifyCallsEngine(old(Snapshot()))
      ensures Snapshot() == Verified(old(Snapshot()), run)
    {
      engineCalled := false;
      if operation != Idle {
        return;
      }
      if !fileLoaded {
        Errors(NotLoadedVerify);
      } else if status != Verifiable {
        Errors(AlreadyVerified);
      } else {
        Process(Verifying, VerifyingText, run);
        engineCalled := true;
        // the callbacks never touch the repair button, so setting it after
        // the status is the same as setting it before
        repairEnabled := run.result == RepairPossible;
      }
    }

    /** The repair button; reports whether the engine was called. */
    method RepairClicked(run: EngineRun) returns (engineCalled: bool)
      requires RepairCallsEngine(Snapshot()) ==> RowsReady(View(), Repairing, run.events)
      modifies this
      ensures engineCalled == RepairCallsEngine(old(Snapshot()))
      ensures Snapshot() == Repaired(old(Snapshot()), run)
    {
      engineCalled := false;
      if operation != Idle {
        return;
      }
      if !fileLoaded || status == Undefined {
        Errors(NotLoadedRepair);
      } else if status == Complete {
        Errors(NotNecessaryRepair);
      } else if status == Unrepairable {
        Errors(NotPossibleRepair);
      } else {
        Process(Repairing, RepairingText, run);
        engineCalled := true;
      }
    }

    /**
     * The accepted branch of a button: shows `text`, runs `op` on the
     * engine while its callbacks fill the widgets, moves the status after
     * the result and leaves the window idle.
     */
    method Process(op: Operation, text: string, run: EngineRun)
      requires operation == Idle && op != Idle
      requires RowsReady(View(), op, run.events)
      modifies this`operation, this`status, this`statusText
      modifies this`rows, this`globalProgress, this`nbfiles, this`labels
      ensures operation == Idle
      ensures View() == Replay(old(View()), op, run.events)
      ensures status == StatusAfter(op, run.result, old(status))
      ensures statusText == StatusLine(text, op, run.result)
    {
      statusText := text;
      operation := op;
      Call(run);
      operation := Idle;
    }

    /**
     * One call into the engine while `operation` runs: its callbacks fill the
     * widgets, then its result moves the status.
     */
    method Call(run: EngineRun)
      requires RowsReady(View(), operation, run.events)
      modifies this`status, this`statusText
      modifies this`rows, this`globalProgress, this`nbfiles, this`labels
      ensures View() == Replay(old(View()), operation, run.events)
      ensures status == StatusAfter(operation, run.result, old(status))
      ensures statusText == StatusLine(old(statusText), operation, run.result)
    {
      Feed(run.events);
      UpdateStatus(run.result);
    }

    /** Shows the status line of an error. */
    method Errors(e: Error)
      modifies this`statusText
      ensures statusText == ErrorText(e)
    {
      statusText := ErrorText(e);
    }

    /** Moves the status, and the status line, after the current operation ended with `result`. */
    method UpdateStatus(result: Result)
      modifies this`status, this`statusText
      ensures status == StatusAfter(operation, result, old(status))
      ensures statusText == StatusLine(old(statusText), operation, result)
    {
      match result
      case Success =>
        if operation == Scanning {
          status := Verifiable;
          statusText := "Scan complete";
        } else if operation == Verifying {
          status := Complete;
          statusText := "Verifying complete, no need to repair";
        } else if operation == Repairing {
          status := Complete;
          statusText := "Repairing complete";
        }
      case RepairPossible =>
        statusText := "Repair possible";
        status := Repairable;
      case RepairNotPossible =>
        statusText := "Repair not possible";
        status := Unrepairable;
      case InsufficientCriticalData =>
        statusText := "Insufficient critical data";
        status := Unrepairable;
      case RepairFailed =>
        statusText := "Repair failed";
        status := Unrepairable;
      case FileIOError =>
        statusText := "I/O error";
        status := Unrepairable;
      case LogicError =>
        statusText := "Internal error";
        status := Unrepairable;
      case MemoryError =>
        statusText := "Out of memory";
        status := Unrepairable;
      case InvalidCommandLineArguments =>
    }

    /** Delivers the engine's callbacks, in order, while the engine call runs. */
    method Feed(events: seq<Event>)
      requires RowsReady(View(), operation, events)
      modifies this`rows, this`globalProgress, this`nbfiles, this`labels
      ensures View() == Replay(old(View()), operation, events)
    {
      ghost var start := View();
      for i := 0 to |events|
        invariant View() == Replay(start, operation, events[..i])
      {
        ReplayStep(start, operation, events, i);
        ghost var next := Replay(start, operation, events[..i + 1]);
        Emit(events[i]);
        assert View() == next;
      }
      assert events[..|events|] == events;
    }

    /** Delivers one callback to the slot connected to its signal. */
    method Emit(e: Event)
      requires NeedsRow(operation, e) ==> |rows| > 0
      modifies this`rows, this`globalProgress, this`nbfiles, this`labels
      ensures View() == Apply(old(View()), operation, e)
    {
      match e
      case FileName(name) => SignalFilename(name);
      case Progress(value) => SignalProgress(value);
      case Done(name, available, total) => SignalDone(name, available, total);
      case Headers(h) => SignalHeaders(h);
    }

    /** sig_filename: appends a row for `name` unless one exists. */
    method SignalFilename(name: string)
      modifies this`rows
      ensures rows == Announce(old(rows), name)
      ensures View() == Apply(old(View()), operation, FileName(name))
    {
      var row := |rows|;
      var exist := false;
      var i := 0;
      while i < row && !exist
        invariant 0 <= i <= row
        invariant exist ==> Present(rows, name)
        invariant !exist ==> forall k :: 0 <= k < i ==> rows[k].name != name
      {
        if rows[i].name == name {
          exist := true;
        }
        i := i + 1;
      }
      if !exist {
        rows := rows + [Row(name, None, None)];
      }
    }

    /** sig_progress: a scan or verification moves the last row's bar, anything else the global bar. */
    method SignalProgress(progress: real)
      requires (operation == Verifying || operation == Scanning) ==> |rows| > 0
      modifies this`rows, this`globalProgress
      ensures View() == Apply(old(View()), operation, Progress(progress))
    {
      if operation == Verifying || operation == Scanning {
        var row := |rows| - 1;
        rows := rows[row := rows[row].(progress := Some(TruncateToInt(progress)))];
      } else {
        globalProgress := Some(TruncateToInt(progress));
      }
    }

    /** sig_done: announces `name` unless it is the last row's, then writes the counts into the last row. */
    method SignalDone(name: string, available: int, total: int)
      requires |rows| > 0
      modifies this`rows
      ensures rows == MarkDone(old(rows), name, available, total)
      ensures View() == Apply(old(View()), operation, Done(name, available, total))
    {
      if rows[|rows| - 1].name != name {
        SignalFilename(name);
      }
      var last := |rows| - 1;
      rows := rows[last := rows[last].(blocks := Some(Blocks(available, total)))];
    }

    /** sig_headers: fills the seven summary labels and records the number of recoverable files. */
    method SignalHeaders(h: ParHeaders)
      modifies this`labels, this`nbfiles
      ensures labels == Some(Summarize(h))
      ensures nbfiles == if h.recoverableFiles != -1 then Some(h.recoverableFiles) else old(nbfiles)
      ensures View() == Apply(old(View()), operation, Headers(h))
    {
      if h.recoverableFiles != -1 {
        nbfiles := Some(h.recoverableFiles);
      }
      labels := Some(Summarize(h));
    }
  }
}
