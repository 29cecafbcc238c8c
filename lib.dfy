/**
 * The reaper of src/lib.rs: the init process's event loop state (the
 * orphan table, the last snapshot of its own children, and the registry
 * of persistent commands keyed by their live pid) and the operations
 * that update it. The OS is reached only through inputs: the `waitpid`
 * answer, the /proc listing, the answers of `kill` and of
 * `Command::spawn`.
 */
module Lib {
  import opened RustStr
  import opened Zombie
  import opened ProcTable
  import opened Orphan

  /** A registered command line `Cmd(cmd, args)`. */
  datatype Cmd = Cmd(cmd: string, args: string)

  /** The registry after `update_ensured_process_pid(from, to)`. */
  function Rekey(m: map<Pid, Cmd>, from: Pid, to: Pid): (r: map<Pid, Cmd>)
    ensures from !in m ==> r == m
    ensures from in m ==> to in r && r[to] == m[from] && (from != to ==> from !in r)
    ensures forall k :: k != from && k != to ==> (k in r <==> k in m)
    ensures forall k :: k != from && k != to && k in r ==> r[k] == m[k]
  {
    if from in m then (m - {from})[to := m[from]] else m
  }

  /**
   * The registry after `ensure_process(p)`: the entry for `p` is removed
   * and, when the respawn succeeds, filed again under the new child's pid.
   */
  function Respawned(m: map<Pid, Cmd>, p: Pid, launched: Result<UInt32, IoError>): (r: map<Pid, Cmd>)
    ensures p !in m ==> r == m
    ensures p in m && launched.Ok? ==> r == Rekey(m, p, AsInt32(launched.value))
    ensures p in m && launched.Err? ==> r.Keys == m.Keys - {p}
    ensures forall k :: k in r && k != p && (launched.Ok? ==> k != AsInt32(launched.value)) ==> k in m && r[k] == m[k]
  {
    if p !in m then m
    else if launched.Ok? then (m - {p})[AsInt32(launched.value) := m[p]]
    else m - {p}
  }

  /** The registry after spawning every command, each at the pid its spawn returned. */
  function RegisterAll(m: map<Pid, Cmd>, cmds: seq<Cmd>, launched: seq<Result<UInt32, IoError>>): map<Pid, Cmd>
    requires |cmds| == |launched|
    decreases |cmds|
  {
    if cmds == [] then m
    else
      var n := |cmds| - 1;
      var before := RegisterAll(m, cmds[..n], launched[..n]);
      if launched[n].Ok? then before[AsInt32(launched[n].value) := cmds[n]] else before
  }

  /** A pid is registered after the spawns exactly when it was before or a spawn returned it. */
  lemma {:induction false} RegisterAllKeys(m: map<Pid, Cmd>, cmds: seq<Cmd>, launched: seq<Result<UInt32, IoError>>,
                                           p: Pid)
    requires |cmds| == |launched|
    ensures p in RegisterAll(m, cmds, launched) <==>
              p in m || exists i :: 0 <= i < |launched| && launched[i].Ok? && AsInt32(launched[i].value) == p
    decreases |cmds|
  {
    if cmds != [] {
      var n := |cmds| - 1;
      RegisterAllKeys(m, cmds[..n], launched[..n], p);
      if exists i :: 0 <= i < |launched| && launched[i].Ok? && AsInt32(launched[i].value) == p {
        var i :| 0 <= i < |launched| && launched[i].Ok? && AsInt32(launched[i].value) == p;
        if i < n {
          assert launched[..n][i] == launched[i];
        }
      }
    }
  }

  /**
   * When every spawn succeeded, at the pids `pids`, all different, each
   * command is registered under its own pid.
   */
  lemma {:induction false} RegisterAllValues(m: map<Pid, Cmd>, cmds: seq<Cmd>, launched: seq<Result<UInt32, IoError>>,
                                             pids: seq<Pid>)
    requires |cmds| == |launched| == |pids|
    requires forall i :: 0 <= i < |launched| ==> launched[i].Ok? && AsInt32(launched[i].value) == pids[i]
    requires forall i, j :: 0 <= i < j < |pids| ==> pids[i] != pids[j]
    ensures forall i :: 0 <= i < |cmds| ==>
              pids[i] in RegisterAll(m, cmds, launched) && RegisterAll(m, cmds, launched)[pids[i]] == cmds[i]
    decreases |cmds|
  {
    if cmds != [] {
      var n := |cmds| - 1;
      var cs, ls, earlier := cmds[..n], launched[..n], pids[..n];
      RegisterAllValues(m, cs, ls, earlier);
      var before := RegisterAll(m, cs, ls);
      var after := RegisterAll(m, cmds, launched);
      assert after == before[pids[n] := cmds[n]];
      forall i | 0 <= i < |cmds|
        ensures pids[i] in after && after[pids[i]] == cmds[i]
      {
        if i < n {
          assert pids[i] == earlier[i] && pids[i] != pids[n];
          assert cs[i] == cmds[i];
        }
      }
    }
  }

  /** The part of the reaper's state that its decisions read and write. */
  datatype ReaperState = ReaperState(
    orphans: map<Pid, OrphanState>,
    children: seq<Pid>,
    commands: map<Pid, Cmd>)

  /**
   * A state together with how the step ended. `Err` is the spawn error on
   * which the source's `.unwrap()` panics: the loop does not go on.
   */
  datatype Handled = Handled(state: ReaperState, outcome: Result<(), IoError>)

  /**
   * The SIGCHLD branch for a reaped carcass: classify it, rescan the
   * init process's children, then for an error exit or a kill mark the
   * new children as orphans and respawn the command, and for a clean exit
   * re-key the command to the first new child (a daemonising fork); last,
   * drop the carcass's pid from the orphan table.
   */
  function OnCarcass(s: ReaperState, self: Pid, c: Carcass, table: seq<ProcEntry>,
                     kill: KillOracle, launched: Result<UInt32, IoError>): Handled
    requires c.status.Some? || c.signal.Some?
  {
    var current := ListChildren(self, table);
    var discovered := NewPids(current, s.children);
    if Classify(c) == ExitSuccess then
      var commands := if |discovered| > 0 then Rekey(s.commands, c.pid, discovered[0]) else s.commands;
      Handled(ReaperState(s.orphans - {c.pid}, current, commands), Ok(()))
    else
      var marked := TransitionAll(MarkAll(s.orphans, discovered), kill);
      var commands := Respawned(s.commands, c.pid, launched);
      if c.pid in s.commands && launched.Err? then
        Handled(ReaperState(marked, current, commands), Err(launched.error))
      else
        Handled(ReaperState(marked - {c.pid}, current, commands), Ok(()))
  }

  /** One SIGCHLD: reap at most one child and handle its carcass. */
  function OnSigchld(s: ReaperState, self: Pid, ws: WaitStatus, table: seq<ProcEntry>,
                     kill: KillOracle, launched: Result<UInt32, IoError>): Handled
  {
    match Reap(ws)
    case None => Handled(s, Ok(()))
    case Some(c) => OnCarcass(s, self, c, table, kill, launched)
  }

  /** One pass of the event loop's body for one wake-up. */
  function OnWakeup(s: ReaperState, self: Pid, w: Wakeup, ws: WaitStatus, table: seq<ProcEntry>,
                    kill: KillOracle, launched: Result<UInt32, IoError>): Handled
  {
    match w
    case Caught(SigChld) => OnSigchld(s, self, ws, table, kill, launched)
    case Caught(_) => Handled(s, Ok(()))
    case DeadlinePassed => Handled(s.(orphans := TransitionAll(s.orphans, kill)), Ok(()))
  }

  /** Once its carcass is handled, a pid is no longer in the orphan table. */
  lemma CarcassLeavesOrphanTable(s: ReaperState, self: Pid, c: Carcass, table: seq<ProcEntry>,
                                 kill: KillOracle, launched: Result<UInt32, IoError>)
    requires c.status.Some? || c.signal.Some?
    requires OnCarcass(s, self, c, table, kill, launched).outcome.Ok?
    ensures c.pid !in OnCarcass(s, self, c, table, kill, launched).state.orphans
  {
  }

  /** Whatever the death, the children snapshot is replaced by the new scan, not merged. */
  lemma SnapshotIsReplaced(s: ReaperState, self: Pid, c: Carcass, table: seq<ProcEntry>,
                           kill: KillOracle, launched: Result<UInt32, IoError>)
    requires c.status.Some? || c.signal.Some?
    ensures OnCarcass(s, self, c, table, kill, launched).state.children == ListChildren(self, table)
  {
  }

  /**
   * A clean exit signals nobody and respawns nothing: the other orphans are
   * untouched, and the command, if the exit came with a new child, is filed
   * under the first one.
   */
  lemma CleanExitSparesChildren(s: ReaperState, self: Pid, c: Carcass, table: seq<ProcEntry>,
                                kill: KillOracle, launched: Result<UInt32, IoError>)
    requires c.status == Some(0)
    ensures var h := OnCarcass(s, self, c, table, kill, launched);
            var discovered := NewPids(ListChildren(self, table), s.children);
            && h.outcome.Ok?
            && h.state.orphans.Keys == s.orphans.Keys - {c.pid}
            && (forall k :: k in h.state.orphans ==> h.state.orphans[k] == s.orphans[k])
            && (|discovered| > 0 ==> h.state.commands == Rekey(s.commands, c.pid, discovered[0]))
            && (|discovered| == 0 ==> h.state.commands == s.commands)
    ensures forall k2: KillOracle, l2: Result<UInt32, IoError> ::
              OnCarcass(s, self, c, table, k2, l2) == OnCarcass(s, self, c, table, kill, launched)
  {
  }

  /**
   * An error exit or a kill: the command has been respawned (the step
   * fails only when that spawn does), and each new child of the init
   * process other than the dead one has been sent SIGTERM or has failed.
   */
  lemma AbnormalExitMarksNewChildren(s: ReaperState, self: Pid, c: Carcass, table: seq<ProcEntry>,
                                     kill: KillOracle, launched: Result<UInt32, IoError>)
    requires c.status.Some? || c.signal.Some?
    requires c.status != Some(0)
    ensures var h := OnCarcass(s, self, c, table, kill, launched);
            var discovered := NewPids(ListChildren(self, table), s.children);
            && h.state.commands == Respawned(s.commands, c.pid, launched)
            && (h.outcome.Err? <==> c.pid in s.commands && launched.Err?)
            && (forall p :: p in discovered && p != c.pid ==>
                  p in h.state.orphans
                  && h.state.orphans[p] ==
                       if kill(p, SIGTERM).Ok? then HasBeenSentSIGTERM(p) else Errored(p, kill(p, SIGTERM).error))
  {
    var discovered := NewPids(ListChildren(self, table), s.children);
    MarkedOrphansAreSignalled(s.orphans, discovered, kill);
    var marked := TransitionAll(MarkAll(s.orphans, discovered), kill);
    var h := OnCarcass(s, self, c, table, kill, launched);
    assert Classify(c) != ExitSuccess;
    assert h.state.orphans == if h.outcome.Err? then marked else marked - {c.pid};
  }

  /**
   * The orphan table afterwards holds exactly the older orphans and the newly
   * discovered children, less the dead pid once its handling has succeeded.
   */
  lemma AbnormalExitOrphanKeys(s: ReaperState, self: Pid, c: Carcass, table: seq<ProcEntry>,
                               kill: KillOracle, launched: Result<UInt32, IoError>)
    requires c.status.Some? || c.signal.Some?
    requires c.status != Some(0)
    ensures var h := OnCarcass(s, self, c, table, kill, launched);
            var discovered := NewPids(ListChildren(self, table), s.children);
            h.state.orphans.Keys ==
              if h.outcome.Err? then s.orphans.Keys + (set p | p in discovered)
              else (s.orphans.Keys + (set p | p in discovered)) - {c.pid}
  {
    var discovered := NewPids(ListChildren(self, table), s.children);
    MarkAllFacts(s.orphans, discovered);
    TransitionAllSteps(MarkAll(s.orphans, discovered), kill);
    var marked := TransitionAll(MarkAll(s.orphans, discovered), kill);
    var h := OnCarcass(s, self, c, table, kill, launched);
    assert Classify(c) != ExitSuccess;
    assert h.state.orphans == if h.outcome.Err? then marked else marked - {c.pid};
  }

  /** Meanwhile every older orphan other than the dead one takes its one step of the pass. */
  lemma AbnormalExitStepsOtherOrphans(s: ReaperState, self: Pid, c: Carcass, table: seq<ProcEntry>,
                                      kill: KillOracle, launched: Result<UInt32, IoError>)
    requires c.status.Some? || c.signal.Some?
    requires c.status != Some(0)
    ensures var h := OnCarcass(s, self, c, table, kill, launched);
            forall k :: k in s.orphans && k !in NewPids(ListChildren(self, table), s.children) && k != c.pid ==>
              k in h.state.orphans && h.state.orphans[k] == TransitionOrphan(s.orphans[k], kill)
  {
    var discovered := NewPids(ListChildren(self, table), s.children);
    MarkedOrphansAreSignalled(s.orphans, discovered, kill);
    var marked := TransitionAll(MarkAll(s.orphans, discovered), kill);
    var h := OnCarcass(s, self, c, table, kill, launched);
    assert Classify(c) != ExitSuccess;
    assert h.state.orphans == if h.outcome.Err? then marked else marked - {c.pid};
  }

  /**
   * The orphans that matter after a crash are the crashed process's
   * children, which the kernel has handed to the init process: any such
   * child not in the last snapshot is marked and signalled.
   */
  lemma ReparentedChildrenAreSignalled(s: ReaperState, self: Pid, c: Carcass, table: seq<ProcEntry>,
                                       kill: KillOracle, launched: Result<UInt32, IoError>, i: nat, q: Pid)
    requires c.status.Some? || c.signal.Some?
    requires c.status != Some(0)
    requires i < |table| && ChildOf(table[i], self) == Some(q)
    requires q !in s.children && q != c.pid
    ensures var h := OnCarcass(s, self, c, table, kill, launched);
            q in h.state.orphans
            && (h.state.orphans[q].HasBeenSentSIGTERM? || h.state.orphans[q].Errored?)
  {
    AbnormalExitMarksNewChildren(s, self, c, table, kill, launched);
  }

  /** The reaper. Its signal trap is the source of the `Wakeup`s given to `Step`. */
  class Reaper {
    var orphans: map<Pid, OrphanState>
    var children: seq<Pid>
    var commands: map<Pid, Cmd>
    /** The reaper's own pid, `getpid()` at construction. */
    const pid: Pid

    function State(): ReaperState
      reads this
    {
      ReaperState(orphans, children, commands)
    }

    /** `Reaper::new`, with the result of `getpid()` passed in. */
    constructor (ownPid: Pid)
      ensures orphans == map[] && children == [] && commands == map[] && pid == ownPid
    {
      orphans := map[];
      children := [];
      commands := map[];
      pid := ownPid;
    }

    /** `spawn_child`: launch `cmd` and, on success, register it under the child's pid. */
    method SpawnChild(cmd: string, args: string, launched: Result<UInt32, IoError>)
      returns (r: Result<(), IoError>)
      modifies this`commands
      ensures launched.Ok? ==> r == Ok(()) && commands == old(commands)[AsInt32(launched.value) := Cmd(cmd, args)]
      ensures launched.Err? ==> r == Err(launched.error) && commands == old(commands)
    {
      match launched {
        case Err(e) =>
          return Err(e);
        case Ok(id) =>
          commands := commands[AsInt32(id) := Cmd(cmd, args)];
          return Ok(());
      }
    }

    /** `ensure_process(p)`: take the command registered at `p` out and spawn it again. */
    method EnsureProcess(p: Pid, launched: Result<UInt32, IoError>) returns (r: Result<(), IoError>)
      modifies this`commands
      ensures commands == Respawned(old(commands), p, launched)
      ensures r == if p in old(commands) && launched.Err? then Err(launched.error) else Ok(())
    {
      if p in commands {
        var c := commands[p];
        commands := commands - {p};
        r := SpawnChild(c.cmd, c.args, launched);
      } else {
        r := Ok(());
      }
    }

    /** `update_ensured_process_pid(from, to)`: move the command registered at `from` to `to`. */
    method UpdateEnsuredProcessPid(from: Pid, to: Pid)
      modifies this`commands
      ensures commands == Rekey(old(commands), from, to)
    {
      if from in commands {
        var c := commands[from];
        commands := commands - {from};
        commands := commands[to := c];
      }
    }

    /** `new_children`: the children not seen in the last scan; the scan becomes the memory. */
    method NewChildren(table: seq<ProcEntry>) returns (discovered: seq<Pid>)
      modifies this`children
      ensures children == ListChildren(pid, table)
      ensures discovered == NewPids(children, old(children))
    {
      var all := ListChildren(pid, table);
      discovered := NewPids(all, children);
      children := all;
    }

    /** `transition_orphans`: every orphan, in whatever order the table yields them, once. */
    method TransitionOrphans(kill: KillOracle)
      modifies this`orphans
      ensures orphans == TransitionAll(old(orphans), kill)
    {
      ghost var start := orphans;
      var pending := orphans.Keys;
      while pending != {}
        invariant pending <= start.Keys
        invariant orphans.Keys == start.Keys
        invariant forall k :: k in pending ==> orphans[k] == start[k]
        invariant forall k :: k in start && k !in pending ==> orphans[k] == TransitionOrphan(start[k], kill)
        decreases pending
      {
        var k :| k in pending;
        orphans := orphans[k := TransitionOrphan(orphans[k], kill)];
        pending := pending - {k};
      }
      assert orphans == TransitionAll(start, kill);
    }

    /** `mark_orphans(pids)`: insert each as BlissfulIgnorance, then one transition pass. */
    method MarkOrphans(pids: seq<Pid>, kill: KillOracle)
      modifies this`orphans
      ensures orphans == TransitionAll(MarkAll(old(orphans), pids), kill)
    {
      for i := 0 to |pids|
        invariant MarkAll(orphans, pids[i..]) == MarkAll(old(orphans), pids)
      {
        assert pids[i..][1..] == pids[i + 1..];
        orphans := orphans[pids[i] := BlissfulIgnorance(pids[i])];
      }
      TransitionOrphans(kill);
    }

    /** The SIGCHLD branch of the event loop. */
    method HandleSigchld(ws: WaitStatus, table: seq<ProcEntry>, kill: KillOracle,
                         launched: Result<UInt32, IoError>) returns (r: Result<(), IoError>)
      modifies this`orphans, this`children, this`commands
      ensures Handled(State(), r) == OnSigchld(old(State()), pid, ws, table, kill, launched)
    {
      var reaped := Reap(ws);
      if reaped.None? {
        return Ok(());
      }
      r := HandleCarcass(reaped.value, table, kill, launched);
    }

    /** The handling of one reaped carcass, from its classification to its removal. */
    method HandleCarcass(carcass: Carcass, table: seq<ProcEntry>, kill: KillOracle,
                         launched: Result<UInt32, IoError>) returns (r: Result<(), IoError>)
      requires carcass.status.Some? || carcass.signal.Some?
      modifies this`orphans, this`children, this`commands
      ensures Handled(State(), r) == OnCarcass(old(State()), pid, carcass, table, kill, launched)
    {
      ghost var s := State();
      var event := Classify(carcass);
      var discovered := NewChildren(table);
      ghost var current := ListChildren(pid, table);
      assert children == current && discovered == NewPids(current, s.children);
      if event == ExitSuccess {
        SpareChildren(carcass.pid, discovered);
        r := Ok(());
        ghost var commands' := if |discovered| > 0 then Rekey(s.commands, carcass.pid, discovered[0]) else s.commands;
        assert State() == ReaperState(s.orphans - {carcass.pid}, current, commands');
        assert OnCarcass(s, pid, carcass, table, kill, launched) == Handled(State(), r);
      } else {
        r := KillChildren(carcass.pid, discovered, kill, launched);
        ghost var marked := TransitionAll(MarkAll(s.orphans, discovered), kill);
        assert State() == ReaperState(if r.Err? then marked else marked - {carcass.pid},
                                      current, Respawned(s.commands, carcass.pid, launched));
        assert OnCarcass(s, pid, carcass, table, kill, launched) == Handled(State(), r);
      }
    }

    /** After a clean exit: follow a daemonising fork, then drop the pid from the orphans. */
    method SpareChildren(dead: Pid, discovered: seq<Pid>)
      modifies this`orphans, this`commands
      ensures orphans == old(orphans) - {dead}
      ensures commands == if |discovered| > 0 then Rekey(old(commands), dead, discovered[0]) else old(commands)
    {
      if |discovered| > 0 {
        UpdateEnsuredProcessPid(dead, discovered[0]);
      }
      if dead in orphans {
        orphans := orphans - {dead};
      }
    }

    /**
     * After an error exit or a kill: mark the new children, respawn the
     * command, and (unless the respawn failed) drop the pid from the orphans.
     */
    method KillChildren(dead: Pid, discovered: seq<Pid>, kill: KillOracle, launched: Result<UInt32, IoError>)
      returns (r: Result<(), IoError>)
      modifies this`orphans, this`commands
      ensures commands == Respawned(old(commands), dead, launched)
      ensures r == if dead in old(commands) && launched.Err? then Err(launched.error) else Ok(())
      ensures r.Err? ==> orphans == TransitionAll(MarkAll(old(orphans), discovered), kill)
      ensures r.Ok? ==> orphans == TransitionAll(MarkAll(old(orphans), discovered), kill) - {dead}
    {
      MarkOrphans(discovered, kill);
      r := EnsureProcess(dead, launched);
      if r.Err? {
        // the source's `.unwrap()` panics here
        return;
      }
      if dead in orphans {
        orphans := orphans - {dead};
      }
    }

    /** One turn of the event loop for one wake-up of the trap. */
    method Step(w: Wakeup, ws: WaitStatus, table: seq<ProcEntry>, kill: KillOracle,
                launched: Result<UInt32, IoError>) returns (r: Result<(), IoError>)
      modifies this`orphans, this`children, this`commands
      ensures Handled(State(), r) == OnWakeup(old(State()), pid, w, ws, table, kill, launched)
    {
      match w {
        case Caught(SigChld) =>
          r := HandleSigchld(ws, table, kill, launched);
        case Caught(_) =>
          r := Ok(());
        case DeadlinePassed =>
          TransitionOrphans(kill);
          r := Ok(());
      }
    }

    /**
     * The start of `Reaper::spawn`: spawn every persistent command, then
     * take a first snapshot of the children. A failed spawn is where the
     * source's `.unwrap()` panics.
     */
    method Start(cmds: seq<Cmd>, launched: seq<Result<UInt32, IoError>>, table: seq<ProcEntry>)
      returns (r: Result<(), IoError>)
      requires |launched| == |cmds|
      modifies this`commands, this`children
      ensures r.Ok? <==> forall i :: 0 <= i < |launched| ==> launched[i].Ok?
      ensures r.Ok? ==> commands == RegisterAll(old(commands), cmds, launched) && children == ListChildren(pid, table)
      ensures r.Err? ==> exists i :: 0 <= i < |launched| && launched[i] == Err(r.error)
    {
      var i := 0;
      while i < |cmds|
        invariant 0 <= i <= |cmds|
        invariant forall j :: 0 <= j < i ==> launched[j].Ok?
        invariant commands == RegisterAll(old(commands), cmds[..i], launched[..i])
      {
        r := SpawnChild(cmds[i].cmd, cmds[i].args, launched[i]);
        if r.Err? {
          return;
        }
        assert cmds[..i + 1][..i] == cmds[..i] && launched[..i + 1][..i] == launched[..i];
        i := i + 1;
      }
      assert cmds[..i] == cmds && launched[..i] == launched;
      var _ := NewChildren(table);
      r := Ok(());
    }
  }
}
