/** Vocabulary shared by every part of the model: child specifications, errors and
    the events that a supervision tree reports. */
module Types {

  datatype Option<+T> = None | Some(value: T)

  const UINT32_MAX := 0xFFFF_FFFF
  const INT64_MAX := 0x7FFF_FFFF_FFFF_FFFF

  type uint32 = x: int | 0 <= x <= UINT32_MAX
  type int64 = x: int | -INT64_MAX - 1 <= x <= INT64_MAX

  datatype Restart = Permanent | Transient | Temporary

  datatype Tag = Worker | Supervisor

  /** How long a parent waits for a child: for ever, or until a timer fires.  The length of
      the timer plays no role in the model, which lets it fire at any moment. */
  datatype Shutdown = Indefinitely | Timed

  datatype Order = LeftToRight | RightToLeft

  datatype Strategy = OneForOne | OneForAll

  datatype ChildSpec = ChildSpec(name: string, tag: Tag, restart: Restart, shutdown: Shutdown)

  /** A non-nil Go error.  A nil error is `None` of `Option<Error>`. */
  datatype Error =
    | Failure(code: int)                                                  // reported by user code
    | ShutdownTimeout                                                     // "child shutdown timeout"
    | StartError(node: string, cause: Error, stuck: map<string, Error>)   // SupervisorStartError

  /** Which of the two channels carried an exit notification. */
  datatype Route = ViaNotify | ViaTerminate

  /** A child goroutine as its supervisor can tell it apart: still in user code, blocked offering
      its exit notification on both channels, or gone after one of them took it. */
  datatype Phase = Running | Exiting(err: Option<Error>) | Gone(route: Route, err: Option<Error>)

  datatype EventKind =
    | Started | Terminated | StartFailed | Failed | Completed
    | Cleanup  // history marker: the resource cleanup callback ran here

  /** An event, with the incarnation it is about as a history annotation. */
  datatype Event = Event(kind: EventKind, tag: Tag, name: string, id: nat, err: Option<Error>)
}
