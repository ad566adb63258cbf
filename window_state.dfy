/**
 * The window's control state (the enums of mainwindow.h), the way the engine
 * result moves the archive status, and the checks that reject a verify or a
 * repair request before the engine is called.
 */
module WindowState {
  import opened Wrappers
  import opened Engine

  /** What the window is busy with; `Idle` is the source's `none`. */
  datatype Operation = Idle | Repairing | Verifying | Scanning

  /** What is known of the loaded archive set; `Undefined` is the source's `undef`. */
  datatype Status = Complete | Repairable | Unrepairable | Verifiable | Undefined

  /** The sequencing and loading errors the window reports to the user. */
  datatype Error =
    | NotLoadedRepair
    | NotLoadedVerify
    | NotNecessaryRepair
    | NotPossibleRepair
    | AlreadyVerified
    | CmdlineError

  /** The engine results that mark the set unrepairable whatever the operation. */
  predicate IsFailure(r: Result) {
    r.RepairNotPossible? || r.InsufficientCriticalData? || r.RepairFailed?
    || r.FileIOError? || r.LogicError? || r.MemoryError?
  }

  /** The results after which update_status leaves the status as it was. */
  predicate KeepsStatus(op: Operation, r: Result) {
    r.InvalidCommandLineArguments? || (r.Success? && op.Idle?)
  }

  /**
   * The status update_status sets after `op` ended with result `r`. Each
   * status is reached exactly when the result produces it, or when it was
   * already the status and the result keeps it.
   */
  function StatusAfter(op: Operation, r: Result, s: Status): (s': Status)
    ensures s' == Verifiable <==> (r.Success? && op.Scanning?) || (s == Verifiable && KeepsStatus(op, r))
    ensures s' == Complete <==>
              (r.Success? && (op.Verifying? || op.Repairing?)) || (s == Complete && KeepsStatus(op, r))
    ensures s' == Repairable <==> r.RepairPossible? || (s == Repairable && KeepsStatus(op, r))
    ensures s' == Unrepairable <==> IsFailure(r) || (s == Unrepairable && KeepsStatus(op, r))
    ensures s' == Undefined <==> s == Undefined && KeepsStatus(op, r)
  {
    match r
    case Success =>
      (match op
       case Scanning => Verifiable
       case Verifying => Complete
       case Repairing => Complete
       case Idle => s)
    case RepairPossible => Repairable
    case RepairNotPossible => Unrepairable
    case InsufficientCriticalData => Unrepairable
    case RepairFailed => Unrepairable
    case FileIOError => Unrepairable
    case LogicError => Unrepairable
    case MemoryError => Unrepairable
    case InvalidCommandLineArguments => s
  }

  /**
   * The error the verify button reports instead of calling the engine, or
   * None when verification proceeds: only a loaded, verifiable set is verified.
   */
  function VerifyRejection(loaded: bool, s: Status): (e: Option<Error>)
    ensures e.None? <==> loaded && s == Verifiable
    ensures e == Some(NotLoadedVerify) <==> !loaded
    ensures e == Some(AlreadyVerified) <==> loaded && s != Verifiable
  {
    if !loaded then Some(NotLoadedVerify)
    else if s != Verifiable then Some(AlreadyVerified)
    else None
  }

  /**
   * The error the repair button reports instead of calling the engine, or
   * None when repair proceeds. The checks are made in this order: not loaded
   * (which includes a set whose status is still undefined), already complete,
   * not repairable.
   */
  function RepairRejection(loaded: bool, s: Status): (e: Option<Error>)
    ensures e.None? <==> loaded && (s == Verifiable || s == Repairable)
    ensures e == Some(NotLoadedRepair) <==> !loaded || s == Undefined
    ensures e == Some(NotNecessaryRepair) <==> loaded && s == Complete
    ensures e == Some(NotPossibleRepair) <==> loaded && s == Unrepairable
  {
    if !loaded || s == Undefined then Some(NotLoadedRepair)
    else if s == Complete then Some(NotNecessaryRepair)
    else if s == Unrepairable then Some(NotPossibleRepair)
    else assert s.Verifiable? || s.Repairable?; None
  }
}
