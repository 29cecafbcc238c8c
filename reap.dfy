/**
 * One non-blocking `waitpid` and the classification of what it returns
 * (src/lib.rs; src/reaper.rs repeats `reap` and the classification word
 * for word, so both files share these definitions).
 */
module Zombie {
  import opened RustStr

  /** A process id: nix's `Pid` wraps a 32-bit `pid_t`. */
  type Pid = Int32

  /** A signal number as nix's `Signal` enum carries it. */
  type Signal = int

  const SIGKILL: Signal := 9
  const SIGTERM: Signal := 15

  /**
   * What `waitpid(None, WNOHANG)` answered. `Other` stands for the
   * remaining nix variants (Stopped, Continued, the ptrace events), which
   * the reaper does not interpret.
   */
  datatype WaitStatus =
    | Exited(pid: Pid, status: Int32)
    | Signaled(pid: Pid, signal: Signal)
    | StillAlive
    | Other

  /** A reaped process: its pid and how it ended. */
  datatype Carcass = Carcass(pid: Pid, status: Option<Int32>, signal: Option<Signal>)

  /** The shape `reap` always produces: exactly one of status and signal. */
  predicate WellFormed(c: Carcass) {
    c.status.Some? != c.signal.Some?
  }

  /** How a reaped process died, as the restart and orphan policies see it. */
  datatype Event = ExitSuccess | ExitCode | ExitSignal

  /** `reap` with the `waitpid` answer passed in. */
  function Reap(ws: WaitStatus): (r: Option<Carcass>)
    ensures r.Some? <==> ws.Exited? || ws.Signaled?
    ensures r.Some? ==> r.value.pid == ws.pid && WellFormed(r.value)
    ensures ws.Exited? ==> r.Some? && r.value.status == Some(ws.status)
    ensures ws.Signaled? ==> r.Some? && r.value.signal == Some(ws.signal)
  {
    match ws
    case Exited(pid, st) => Some(Carcass(pid, Some(st), None))
    case Signaled(pid, sig) => Some(Carcass(pid, None, Some(sig)))
    case StillAlive => None
    case Other => None
  }

  /**
   * The match on a carcass in `Reaper::spawn`: a status of 0 is a clean
   * exit, any other status an error exit, and a lone signal a kill. A
   * carcass with neither is `unreachable!()` there.
   */
  function Classify(c: Carcass): (e: Event)
    requires c.status.Some? || c.signal.Some?
    ensures e == ExitSuccess <==> c.status == Some(0)
    ensures e == ExitCode <==> c.status.Some? && c.status.value != 0
    ensures e == ExitSignal <==> c.status.None?
  {
    match c
    case Carcass(_, Some(0), _) => ExitSuccess
    case Carcass(_, Some(_), _) => ExitCode
    case Carcass(_, None, Some(_)) => ExitSignal
  }

  /** The two steps together: how a wait status is judged. */
  lemma ReapThenClassify(ws: WaitStatus)
    requires Reap(ws).Some?
    ensures Classify(Reap(ws).value) == ExitSuccess <==> ws.Exited? && ws.status == 0
    ensures Classify(Reap(ws).value) == ExitCode <==> ws.Exited? && ws.status != 0
    ensures Classify(Reap(ws).value) == ExitSignal <==> ws.Signaled?
  {
  }

  /** The signals the reaper's trap is set up for. */
  datatype Trapped = SigChld | SigInt | SigTerm

  /** What ends one wait of the event loop: a trapped signal, or the 1-second deadline. */
  datatype Wakeup = Caught(signal: Trapped) | DeadlinePassed
}
