/** The optional-value wrapper used throughout the model. */
module Wrappers {
  datatype Option<T> = None | Some(value: T)
}

/**
 * What the window sees of the libpar2 engine. The engine itself (command-line
 * parsing, PreProcess, Process) is not modelled: each call becomes an input,
 * namely the callbacks it emits, in order, and the Result it finally returns.
 */
module Engine {
  /** The engine's terminal outcome (libpar2's `Result`). */
  datatype Result =
    | Success
    | RepairPossible
    | RepairNotPossible
    | InvalidCommandLineArguments
    | InsufficientCriticalData
    | RepairFailed
    | FileIOError
    | LogicError
    | MemoryError

  /**
   * The archive-set summary delivered by `sig_headers`. A field the engine
   * does not know is sent as -1, an unknown set id as the empty string.
   */
  datatype ParHeaders = ParHeaders(
    setId: string,
    blockSize: int,
    chunkSize: int,
    dataBlocks: int,
    dataSize: int,
    recoverableFiles: int,
    otherFiles: int)

  /** One callback the engine makes while PreProcess or Process runs. */
  datatype Event =
    | FileName(name: string)                           // sig_filename
    | Progress(value: real)                            // sig_progress, nominally 0..1000
    | Done(name: string, available: int, total: int)   // sig_done
    | Headers(headers: ParHeaders)                     // sig_headers

  /** One synchronous engine call: the callbacks it makes, then its result. */
  datatype EngineRun = EngineRun(events: seq<Event>, result: Result)
}
