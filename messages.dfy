/**
 * The status-bar lines the window writes: one per reported error (the
 * `errors` method) and one per engine result (the `update_status` method).
 * The message boxes that accompany the errors are not modelled.
 */
module Messages {
  import opened Wrappers
  import opened Engine
  import opened WindowState

  const WaitingText := "Waiting for par2 files..."
  const ScanningText := "Scanning headers..."
  const VerifyingText := "Verifying..."
  const RepairingText := "Repairing..."

  /** Which error wrote the status line `msg`, if one did. */
  function ErrorOf(msg: string): Option<Error> {
    if msg == "Repair failed" then Some(NotLoadedRepair)
    else if msg == "Verification failed" then Some(NotLoadedVerify)
    else if msg == "Archive complete" then Some(NotNecessaryRepair)
    else if msg == "Archive already verified" then Some(AlreadyVerified)
    else if msg == "Repair not possible" then Some(NotPossibleRepair)
    else if msg == "The recovery file does not exist" then Some(CmdlineError)
    else None
  }

  /** The status line shown for an error; distinct errors show distinct lines. */
  function ErrorText(e: Error): (msg: string)
    ensures ErrorOf(msg) == Some(e)
  {
    match e
    case NotLoadedRepair => "Repair failed"
    case NotLoadedVerify => "Verification failed"
    case NotNecessaryRepair => "Archive complete"
    case AlreadyVerified => "Archive already verified"
    case NotPossibleRepair => "Repair not possible"
    case CmdlineError => "The recovery file does not exist"
  }

  /** The status named by an update_status line, if `msg` is one. */
  function StatusOfText(msg: string): Option<Status> {
    if msg == "Scan complete" then Some(Verifiable)
    else if msg == "Verifying complete, no need to repair" then Some(Complete)
    else if msg == "Repairing complete" then Some(Complete)
    else if msg == "Repair possible" then Some(Repairable)
    else if msg == "Repair not possible" then Some(Unrepairable)
    else if msg == "Insufficient critical data" then Some(Unrepairable)
    else if msg == "Repair failed" then Some(Unrepairable)
    else if msg == "I/O error" then Some(Unrepairable)
    else if msg == "Internal error" then Some(Unrepairable)
    else if msg == "Out of memory" then Some(Unrepairable)
    else None
  }

  /**
   * The line update_status shows for result `r` of operation `op`. A line is
   * shown exactly when the status is (re)set, and the line names the status
   * that was set, whatever the status was before.
   */
  function ResultText(op: Operation, r: Result): (msg: Option<string>)
    ensures msg.None? <==> KeepsStatus(op, r)
    ensures msg.Some? ==> forall s :: StatusOfText(msg.value) == Some(StatusAfter(op, r, s))
  {
    match r
    case Success =>
      (match op
       case Scanning => Some("Scan complete")
       case Verifying => Some("Verifying complete, no need to repair")
       case Repairing => Some("Repairing complete")
       case Idle => None)
    case RepairPossible => Some("Repair possible")
    case RepairNotPossible => Some("Repair not possible")
    case InsufficientCriticalData => Some("Insufficient critical data")
    case RepairFailed => Some("Repair failed")
    case FileIOError => Some("I/O error")
    case LogicError => Some("Internal error")
    case MemoryError => Some("Out of memory")
    case InvalidCommandLineArguments => None
  }

  /** The status line after update_status, starting from line `prev`. */
  function StatusLine(prev: string, op: Operation, r: Result): string {
    match ResultText(op, r)
    case Some(msg) => msg
    case None => prev
  }
}
