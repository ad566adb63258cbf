/**
 * The window's control logic as a function of its state: loading a set
 * (preprocess, from the constructor, the browse button or a drop), the
 * verify button and the repair button. The class in module MainWindowModel
 * is proved to carry these out.
 */
module Controller {
  import opened Wrappers
  import opened Engine
  import opened WindowState
  import opened Messages
  import opened ProgressTable

  /** Everything the control logic reads or writes. */
  datatype Window = Window(
    operation: Operation,
    status: Status,
    fileLoaded: bool,
    panel: Panel,
    statusText: string,
    verifyEnabled: bool,
    repairEnabled: bool)

  /** What loading a path yields: whether CommandLine::Parse accepted it and, if so, the PreProcess run. */
  datatype ScanRun = ScanRun(parseOk: bool, run: EngineRun)

  /** The window once constructed, before any set is loaded. */
  function Initial(): Window {
    Window(Idle, Undefined, false, Panel([], None, None, None), WaitingText, true, true)
  }

  /** The state between two user actions. */
  predicate Valid(w: Window) {
    w.operation == Idle && UniqueNames(w.panel.rows) && (!w.fileLoaded ==> w.status == Undefined)
  }

  /** The engine's callbacks are well-formed for `scan` from state `w`. */
  predicate ScanReady(w: Window, scan: ScanRun) {
    scan.parseOk ==> RowsReady(w.panel, Scanning, scan.run.events)
  }

  /**
   * preprocess: the set is marked loaded before its path is parsed. A bad
   * path leaves the status undefined and the verify button disabled without
   * calling the engine; otherwise the scan's callbacks fill the widgets and
   * its result sets the status. The table is not cleared, and a scan never
   * marks the set complete.
   */
  function Scanned(w: Window, scan: ScanRun): (w': Window)
    requires ScanReady(w, scan)
    ensures w'.operation == Idle && w'.fileLoaded
    ensures w'.verifyEnabled == scan.parseOk && w'.repairEnabled == w.repairEnabled
    ensures w'.panel.global == None
    ensures w'.status == Verifiable <==> scan.parseOk && scan.run.result.Success?
    ensures w'.status == Undefined <==> !scan.parseOk || scan.run.result.InvalidCommandLineArguments?
    ensures w'.status != Complete
    ensures !scan.parseOk ==> w'.panel == w.panel.(global := None) && w'.statusText == ErrorText(CmdlineError)
    ensures |w'.panel.rows| >= |w.panel.rows|
  {
    if !scan.parseOk then
      Window(Idle, Undefined, true, w.panel.(global := None), ErrorText(CmdlineError), false, w.repairEnabled)
    else
      var p := Replay(w.panel, Scanning, scan.run.events);
      Window(Idle, StatusAfter(Scanning, scan.run.result, Undefined), true, p.(global := None),
             StatusLine(ScanningText, Scanning, scan.run.result), true, w.repairEnabled)
  }

  /** The window as the constructor leaves it, given the command-line set to load, if any. */
  function Launched(launch: Option<ScanRun>): (w: Window)
    requires launch.Some? ==> ScanReady(Initial(), launch.value)
    ensures w.operation == Idle
    ensures w.fileLoaded <==> launch.Some?
    ensures launch.None? ==> w == Initial()
    ensures launch.Some? ==> w == Scanned(Initial(), launch.value)
  {
    match launch
    case None => Initial()
    case Some(scan) => Scanned(Initial(), scan)
  }

  /**
   * The browse button: ignored while an operation runs; otherwise the chosen
   * file, if the dialog returned one, is loaded.
   */
  function Browsed(w: Window, chosen: Option<ScanRun>): (w': Window)
    requires w.operation == Idle && chosen.Some? ==> ScanReady(w, chosen.value)
    ensures w.operation != Idle || chosen.None? ==> w' == w
    ensures w.operation == Idle && chosen.Some? ==> w' == Scanned(w, chosen.value) && w'.fileLoaded
    ensures w'.operation == Idle <==> w.operation == Idle
  {
    if w.operation != Idle then w
    else match chosen
      case None => w
      case Some(scan) => Scanned(w, scan)
  }

  /**
   * A drop: a `file://` path naming an existing file is loaded, with no
   * check of the current operation.
   */
  function Dropped(w: Window, dropped: Option<ScanRun>): (w': Window)
    requires dropped.Some? ==> ScanReady(w, dropped.value)
    ensures dropped.None? ==> w' == w
    ensures dropped.Some? ==> w' == Scanned(w, dropped.value) && w'.operation == Idle && w'.fileLoaded
  {
    match dropped
    case None => w
    case Some(scan) => Scanned(w, scan)
  }

  /** The verify button reaches the engine. */
  predicate VerifyCallsEngine(w: Window) {
    w.operation == Idle && w.fileLoaded && w.status == Verifiable
  }

  /**
   * The verify button: ignored while an operation runs; otherwise it either
   * reports why it cannot verify, changing nothing but the status line, or
   * runs the verification. Repair is then enabled exactly when the engine
   * answered RepairPossible, and the set is complete exactly when it
   * answered Success.
   */
  function Verified(w: Window, run: EngineRun): (w': Window)
    requires VerifyCallsEngine(w) ==> RowsReady(w.panel, Verifying, run.events)
    ensures w.operation != Idle ==> w' == w
    ensures w.operation == Idle ==> w'.operation == Idle
    ensures w'.fileLoaded == w.fileLoaded && w'.verifyEnabled == w.verifyEnabled
    ensures !VerifyCallsEngine(w) ==> w'.status == w.status && w'.panel == w.panel && w'.repairEnabled == w.repairEnabled
    ensures w.operation == Idle && !VerifyCallsEngine(w) ==>
              w'.statusText == ErrorText(if w.fileLoaded then AlreadyVerified else NotLoadedVerify)
    ensures VerifyCallsEngine(w) ==> w'.repairEnabled == run.result.RepairPossible?
    ensures VerifyCallsEngine(w) && run.result.RepairPossible? ==> w'.status == Repairable
    ensures VerifyCallsEngine(w) ==> (w'.status == Complete <==> run.result.Success?)
  {
    if w.operation != Idle then w
    else match VerifyRejection(w.fileLoaded, w.status)
      case Some(e) => w.(statusText := ErrorText(e))
      case None =>
        var p := Replay(w.panel, Verifying, run.events);
        w.(panel := p,
           repairEnabled := run.result == RepairPossible,
           status := StatusAfter(Verifying, run.result, w.status),
           statusText := StatusLine(VerifyingText, Verifying, run.result))
  }

  /** The repair button reaches the engine. */
  predicate RepairCallsEngine(w: Window) {
    w.operation == Idle && w.fileLoaded && (w.status == Verifiable || w.status == Repairable)
  }

  /**
   * The repair button: ignored while an operation runs; otherwise it either
   * reports why it cannot repair (not loaded, not necessary, not possible,
   * in that order), changing nothing but the status line, or runs the
   * repair, after which the set is complete on Success and unrepairable on
   * any failure.
   */
  function Repaired(w: Window, run: EngineRun): (w': Window)
    requires RepairCallsEngine(w) ==> RowsReady(w.panel, Repairing, run.events)
    ensures w.operation != Idle ==> w' == w
    ensures w.operation == Idle ==> w'.operation == Idle
    ensures w'.fileLoaded == w.fileLoaded && w'.verifyEnabled == w.verifyEnabled
    ensures w'.repairEnabled == w.repairEnabled
    ensures !RepairCallsEngine(w) ==> w'.status == w.status && w'.panel == w.panel
    ensures w.operation == Idle && (!w.fileLoaded || w.status == Undefined) ==>
              w'.statusText == ErrorText(NotLoadedRepair)
    ensures w.operation == Idle && w.fileLoaded && w.status == Complete ==>
              w'.statusText == ErrorText(NotNecessaryRepair)
    ensures w.operation == Idle && w.fileLoaded && w.status == Unrepairable ==>
              w'.statusText == ErrorText(NotPossibleRepair)
    ensures RepairCallsEngine(w) ==> (w'.status == Complete <==> run.result.Success?)
    ensures RepairCallsEngine(w) && IsFailure(run.result) ==> w'.status == Unrepairable
  {
    if w.operation != Idle then w
    else match RepairRejection(w.fileLoaded, w.status)
      case Some(e) => w.(statusText := ErrorText(e))
      case None =>
        var p := Replay(w.panel, Repairing, run.events);
        w.(panel := p,
           status := StatusAfter(Repairing, run.result, w.status),
           statusText := StatusLine(RepairingText, Repairing, run.result))
  }

  /**
   * A user action, with what the dialog, the drop and the engine yield for
   * it. A click on a disabled button is delivered to no slot: Qt emits
   * `clicked()` only for an enabled button.
   */
  datatype Action =
    | Browse(chosen: Option<ScanRun>)
    | Drop(dropped: Option<ScanRun>)
    | ClickVerify(run: EngineRun)
    | ClickRepair(run: EngineRun)

  /** The engine's callbacks are well-formed for action `a` from state `w`. */
  predicate Ready(w: Window, a: Action) {
    match a
    case Browse(chosen) => w.operation == Idle && chosen.Some? ==> ScanReady(w, chosen.value)
    case Drop(dropped) => dropped.Some? ==> ScanReady(w, dropped.value)
    case ClickVerify(run) => w.verifyEnabled && VerifyCallsEngine(w) ==> RowsReady(w.panel, Verifying, run.events)
    case ClickRepair(run) => w.repairEnabled && RepairCallsEngine(w) ==> RowsReady(w.panel, Repairing, run.events)
  }

  /** The window after action `a`; a click on a disabled button changes nothing. */
  function Step(w: Window, a: Action): (w': Window)
    requires Ready(w, a)
    ensures a.Browse? ==> w' == Browsed(w, a.chosen)
    ensures a.Drop? ==> w' == Dropped(w, a.dropped)
    ensures a.ClickVerify? ==> w' == if w.verifyEnabled then Verified(w, a.run) else w
    ensures a.ClickRepair? ==> w' == if w.repairEnabled then Repaired(w, a.run) else w
    ensures w.operation == Idle ==> w'.operation == Idle
  {
    match a
    case Browse(chosen) => Browsed(w, chosen)
    case Drop(dropped) => Dropped(w, dropped)
    case ClickVerify(run) => if w.verifyEnabled then Verified(w, run) else w
    case ClickRepair(run) => if w.repairEnabled then Repaired(w, run) else w
  }

  /** Every action of `acts` is well-formed from the state the earlier ones leave. */
  predicate Runnable(w: Window, acts: seq<Action>)
    decreases |acts|
  {
    acts == [] || (Ready(w, acts[0]) && Runnable(Step(w, acts[0]), acts[1..]))
  }

  function RunAll(w: Window, acts: seq<Action>): Window
    requires Runnable(w, acts)
    decreases |acts|
  {
    if acts == [] then w else RunAll(Step(w, acts[0]), acts[1..])
  }

  /**
   * Each action returns the window to Idle, keeps the table free of
   * duplicate names, and never leaves a status on a set that is not loaded.
   */
  lemma StepKeepsValid(w: Window, a: Action)
    requires Valid(w) && Ready(w, a)
    ensures Valid(Step(w, a))
  {
    match a
    case Browse(chosen) =>
      if chosen.Some? && chosen.value.parseOk {
        ReplayKeepsNamesUnique(w.panel, Scanning, chosen.value.run.events);
      }
    case Drop(dropped) =>
      if dropped.Some? && dropped.value.parseOk {
        ReplayKeepsNamesUnique(w.panel, Scanning, dropped.value.run.events);
      }
    case ClickVerify(run) =>
      if w.verifyEnabled && VerifyCallsEngine(w) {
        ReplayKeepsNamesUnique(w.panel, Verifying, run.events);
      }
    case ClickRepair(run) =>
      if w.repairEnabled && RepairCallsEngine(w) {
        ReplayKeepsNamesUnique(w.panel, Repairing, run.events);
      }
  }

  /** After any sequence of user actions from the initial window, the window is Idle and valid. */
  lemma {:induction false} RunKeepsValid(w: Window, acts: seq<Action>)
    requires Valid(w) && Runnable(w, acts)
    ensures Valid(RunAll(w, acts)) && RunAll(w, acts).operation == Idle
    decreases |acts|
  {
    if acts != [] {
      StepKeepsValid(w, acts[0]);
      RunKeepsValid(Step(w, acts[0]), acts[1..]);
    }
  }

  /** The constructor leaves a valid window, whatever it loads. */
  lemma LaunchedIsValid(launch: Option<ScanRun>)
    requires launch.Some? ==> ScanReady(Initial(), launch.value)
    ensures Valid(Launched(launch))
  {
    if launch.Some? && launch.value.parseOk {
      ReplayKeepsNamesUnique(Initial().panel, Scanning, launch.value.run.events);
    }
  }
}
