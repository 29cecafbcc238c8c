/**
 * The persistent command of src/command.rs: a command line with a restart
 * policy (three flags and an optional spawn limit) and a spawn counter, and
 * `spawn`, which decides from the previous exit whether to launch again.
 */
module Command {
  import opened RustStr

  /**
   * How the previous process of the command ended. This file declares its
   * own enum, separate from (though shaped like) the one in src/lib.rs.
   */
  datatype Event = ExitSuccess | ExitCode | ExitSignal

  datatype PersistentCommandError =
    | SpawnLimitReached(limit: nat)
    | SpawnFailed(cause: IoError)
    | MustNotRespawn(reason: Event)

  /** The configuration `spawn` consults: the three flags and the limit. */
  datatype RestartPolicy = RestartPolicy(
    restartOnSuccess: bool,
    restartOnError: bool,
    restartOnSignal: bool,
    spawnLimit: Option<nat>)

  /** The flag that governs a restart after the given kind of exit. */
  function RestartFlag(p: RestartPolicy, e: Event): bool {
    match e
    case ExitSuccess => p.restartOnSuccess
    case ExitCode => p.restartOnError
    case ExitSignal => p.restartOnSignal
  }

  /** Whether `spawn` goes on to the OS after its two checks, or why not. */
  datatype Admission = Admitted | Refused(error: PersistentCommandError)

  /**
   * The two checks at the head of `spawn`: first the restart flag for the
   * previous exit (only when there is one), then the spawn limit against
   * the number of spawns so far.
   */
  function Admit(p: RestartPolicy, spawns: nat, previous: Option<Event>): (a: Admission)
    ensures a.Refused? ==> !a.error.SpawnFailed?
    ensures (a.Refused? && a.error.MustNotRespawn?) <==>
              previous.Some? && !RestartFlag(p, previous.value)
    ensures a.Refused? && a.error.MustNotRespawn? ==> a.error.reason == previous.value
    ensures (a.Refused? && a.error.SpawnLimitReached?) <==>
              (previous.None? || RestartFlag(p, previous.value))
              && p.spawnLimit.Some? && spawns >= p.spawnLimit.value
    ensures a.Refused? && a.error.SpawnLimitReached? ==> a.error.limit == p.spawnLimit.value
  {
    if previous.Some? && !RestartFlag(p, previous.value) then Refused(MustNotRespawn(previous.value))
    else if p.spawnLimit.Some? && spawns >= p.spawnLimit.value then Refused(SpawnLimitReached(p.spawnLimit.value))
    else Admitted
  }

  /** A first launch does not look at the restart flags at all. */
  lemma FirstLaunchIgnoresFlags(p: RestartPolicy, q: RestartPolicy, spawns: nat)
    requires p.spawnLimit == q.spawnLimit
    ensures Admit(p, spawns, None) == Admit(q, spawns, None)
  {
  }

  /** The counter after a sequence of `spawn` calls with the given previous exits. */
  function SpawnsAfter(p: RestartPolicy, spawns: nat, calls: seq<Option<Event>>): nat
    decreases |calls|
  {
    if calls == [] then spawns
    else SpawnsAfter(p, if Admit(p, spawns, calls[0]).Admitted? then spawns + 1 else spawns, calls[1..])
  }

  /** How many of those calls went on to the OS spawn. */
  function Launches(p: RestartPolicy, spawns: nat, calls: seq<Option<Event>>): nat
    decreases |calls|
  {
    if calls == [] then 0
    else if Admit(p, spawns, calls[0]).Admitted? then 1 + Launches(p, spawns + 1, calls[1..])
    else Launches(p, spawns, calls[1..])
  }

  /** Every OS spawn is counted, whether or not it then succeeds. */
  lemma {:induction false} LaunchesAreCounted(p: RestartPolicy, spawns: nat, calls: seq<Option<Event>>)
    ensures SpawnsAfter(p, spawns, calls) == spawns + Launches(p, spawns, calls)
    decreases |calls|
  {
    if calls != [] {
      var next := if Admit(p, spawns, calls[0]).Admitted? then spawns + 1 else spawns;
      LaunchesAreCounted(p, next, calls[1..]);
    }
  }

  /**
   * The spawn limit holds across any sequence of calls, whatever previous
   * exits they carry: the counter never passes the limit, and so at most
   * `limit - spawns` further calls reach the OS.
   */
  lemma {:induction false} SpawnLimitHolds(p: RestartPolicy, spawns: nat, calls: seq<Option<Event>>)
    requires p.spawnLimit.Some? && spawns <= p.spawnLimit.value
    ensures SpawnsAfter(p, spawns, calls) <= p.spawnLimit.value
    ensures Launches(p, spawns, calls) <= p.spawnLimit.value - spawns
    decreases |calls|
  {
    LaunchesAreCounted(p, spawns, calls);
    if calls != [] {
      var next := if Admit(p, spawns, calls[0]).Admitted? then spawns + 1 else spawns;
      SpawnLimitHolds(p, next, calls[1..]);
    }
  }

  /** With the flag for an exit kind cleared, calls after that exit never count nor launch. */
  lemma {:induction false} RefusedExitsNeverLaunch(p: RestartPolicy, spawns: nat, calls: seq<Option<Event>>, e: Event)
    requires !RestartFlag(p, e)
    requires forall i :: 0 <= i < |calls| ==> calls[i] == Some(e)
    ensures SpawnsAfter(p, spawns, calls) == spawns
    ensures Launches(p, spawns, calls) == 0
    decreases |calls|
  {
    if calls != [] {
      RefusedExitsNeverLaunch(p, spawns, calls[1..], e);
    }
  }

  /** A command line `cmd args` with its restart policy and spawn counter. */
  class PersistentCommand {
    const cmd: string
    const args: string

    var restartOnSuccess: bool
    var restartOnError: bool
    var restartOnSignal: bool

    var spawnLimit: Option<nat>
    var spawns: nat

    /** `PersistentCommand::new`: never restart, no limit, nothing spawned yet. */
    constructor New(cmd: string, args: string)
      ensures this.cmd == cmd && this.args == args
      ensures !restartOnSuccess && !restartOnError && !restartOnSignal
      ensures spawnLimit == None && spawns == 0
      ensures WithinLimit()
    {
      this.cmd := cmd;
      this.args := args;
      restartOnSuccess := false;
      restartOnError := false;
      restartOnSignal := false;
      spawnLimit := None;
      spawns := 0;
    }

    /** The builders consume the command and hand it back with one field set. */
    method RestartOnSuccess(restart: bool)
      modifies this`restartOnSuccess
      ensures restartOnSuccess == restart
    {
      restartOnSuccess := restart;
    }

    method RestartOnError(restart: bool)
      modifies this`restartOnError
      ensures restartOnError == restart
    {
      restartOnError := restart;
    }

    method RestartOnSignal(restart: bool)
      modifies this`restartOnSignal
      ensures restartOnSignal == restart
    {
      restartOnSignal := restart;
    }

    method SpawnLimit(limit: nat)
      modifies this`spawnLimit
      ensures spawnLimit == Some(limit)
    {
      spawnLimit := Some(limit);
    }

    function Policy(): RestartPolicy
      reads this
    {
      RestartPolicy(restartOnSuccess, restartOnError, restartOnSignal, spawnLimit)
    }

    /** The counter has not passed the limit, if there is one. */
    predicate WithinLimit()
      reads this
    {
      spawnLimit.Some? ==> spawns <= spawnLimit.value
    }

    /**
     * `spawn(previous_exit_reason)`. `launched` is what `Command::spawn`
     * answers (the child's id, or the I/O error); it is consulted only
     * when both checks pass, and the counter goes up before it is.
     */
    method Spawn(previous: Option<Event>, launched: Result<UInt32, IoError>)
      returns (r: Result<UInt32, PersistentCommandError>)
      modifies this`spawns
      ensures Admit(Policy(), old(spawns), previous).Refused? ==>
                r == Err(Admit(Policy(), old(spawns), previous).error) && spawns == old(spawns)
      ensures Admit(Policy(), old(spawns), previous).Admitted? ==>
                spawns == old(spawns) + 1
                && r == (if launched.Ok? then Ok(launched.value) else Err(SpawnFailed(launched.error)))
      ensures r.Ok? ==> launched.Ok? && r.value == launched.value
      ensures spawns == SpawnsAfter(Policy(), old(spawns), [previous])
      ensures old(WithinLimit()) ==> WithinLimit()
    {
      if previous.Some? {
        var reason := previous.value;
        match reason {
          case ExitSuccess =>
            if !restartOnSuccess { return Err(MustNotRespawn(reason)); }
          case ExitCode =>
            if !restartOnError { return Err(MustNotRespawn(reason)); }
          case ExitSignal =>
            if !restartOnSignal { return Err(MustNotRespawn(reason)); }
        }
      }
      if spawnLimit.Some? {
        var limit := spawnLimit.value;
        if spawns >= limit {
          return Err(SpawnLimitReached(limit));
        }
      }
      spawns := spawns + 1;
      match launched {
        case Ok(id) => r := Ok(id);
        case Err(e) => r := Err(SpawnFailed(e));
      }
    }
  }

  /**
   * A worked run, not a model of any one function: the restart policy with
   * limit 2 and restart on error. Two launches succeed, the third call is
   * refused at the limit.
   */
  method SpawnLimitExample(id1: UInt32, id2: UInt32)
  {
    var c := new PersistentCommand.New("/usr/sbin/sshd", "");
    c.RestartOnError(true);
    c.SpawnLimit(2);
    var r1 := c.Spawn(None, Ok(id1));
    assert r1 == Ok(id1) && c.spawns == 1;
    var r2 := c.Spawn(Some(ExitCode), Ok(id2));
    assert r2 == Ok(id2) && c.spawns == 2;
    var r3 := c.Spawn(Some(ExitCode), Ok(id2));
    assert r3 == Err(SpawnLimitReached(2)) && c.spawns == 2;
    var r4 := c.Spawn(Some(ExitSuccess), Ok(id2));
    assert r4 == Err(MustNotRespawn(ExitSuccess));
  }
}
