/**
 * The older reaper of src/reaper.rs: it keeps only the orphan table, and on
 * an error exit or a kill it marks the children that /proc lists for the
 * dead pid itself. Its `reap`, `list_children` and `transition_orphan` are
 * the ones of src/lib.rs (modules Zombie, ProcTable and Orphan).
 */
module LegacyReaper {
  import opened RustStr
  import opened Zombie
  import opened ProcTable
  import opened Orphan

  /**
   * The SIGCHLD branch for a reaped carcass: a clean exit marks nobody, an
   * error exit or a kill runs `mark_children` on the dead pid; either way
   * the dead pid then leaves the orphan table.
   */
  function OnCarcass(orphans: map<Pid, OrphanState>, c: Carcass, table: seq<ProcEntry>,
                     kill: KillOracle): map<Pid, OrphanState>
    requires c.status.Some? || c.signal.Some?
  {
    var marked := if Classify(c) == ExitSuccess then orphans
                  else TransitionAll(MarkAll(orphans, ListChildren(c.pid, table)), kill);
    marked - {c.pid}
  }

  function OnSigchld(orphans: map<Pid, OrphanState>, ws: WaitStatus, table: seq<ProcEntry>,
                     kill: KillOracle): map<Pid, OrphanState>
  {
    match Reap(ws)
    case None => orphans
    case Some(c) => OnCarcass(orphans, c, table, kill)
  }

  function OnWakeup(orphans: map<Pid, OrphanState>, w: Wakeup, ws: WaitStatus, table: seq<ProcEntry>,
                    kill: KillOracle): map<Pid, OrphanState>
  {
    match w
    case Caught(SigChld) => OnSigchld(orphans, ws, table, kill)
    case Caught(_) => orphans
    case DeadlinePassed => TransitionAll(orphans, kill)
  }

  /** After its carcass is handled, a pid is not in the orphan table. */
  lemma CarcassLeavesOrphanTable(orphans: map<Pid, OrphanState>, c: Carcass, table: seq<ProcEntry>,
                                 kill: KillOracle)
    requires c.status.Some? || c.signal.Some?
    ensures c.pid !in OnCarcass(orphans, c, table, kill)
    ensures OnCarcass(orphans, c, table, kill).Keys <= orphans.Keys + (set p | p in ListChildren(c.pid, table))
  {
    MarkAllFacts(orphans, ListChildren(c.pid, table));
  }

  /** A status of 0 marks no orphan and signals nobody. */
  lemma CleanExitMarksNothing(orphans: map<Pid, OrphanState>, c: Carcass, table: seq<ProcEntry>,
                              kill: KillOracle)
    requires c.status == Some(0)
    ensures OnCarcass(orphans, c, table, kill).Keys == orphans.Keys - {c.pid}
    ensures forall k :: k in OnCarcass(orphans, c, table, kill) ==> OnCarcass(orphans, c, table, kill)[k] == orphans[k]
  {
  }

  /**
   * A non-zero status or a signal marks exactly the children listed for
   * the dead pid, and each of them is sent SIGTERM or fails.
   */
  lemma AbnormalExitMarksListedChildren(orphans: map<Pid, OrphanState>, c: Carcass, table: seq<ProcEntry>,
                                        kill: KillOracle)
    requires c.status.Some? || c.signal.Some?
    requires c.status != Some(0)
    ensures var r := OnCarcass(orphans, c, table, kill);
            var listed := ListChildren(c.pid, table);
            && r.Keys == (orphans.Keys + (set p | p in listed)) - {c.pid}
            && (forall p :: p in listed && p != c.pid ==>
                  r[p] == if kill(p, SIGTERM).Ok? then HasBeenSentSIGTERM(p) else Errored(p, kill(p, SIGTERM).error))
  {
    var listed := ListChildren(c.pid, table);
    MarkedOrphansAreSignalled(orphans, listed, kill);
    assert Classify(c) != ExitSuccess;
    assert OnCarcass(orphans, c, table, kill) == TransitionAll(MarkAll(orphans, listed), kill) - {c.pid};
  }

  /** Meanwhile every other orphan takes its one step of the pass. */
  lemma AbnormalExitStepsOtherOrphans(orphans: map<Pid, OrphanState>, c: Carcass, table: seq<ProcEntry>,
                                      kill: KillOracle)
    requires c.status.Some? || c.signal.Some?
    requires c.status != Some(0)
    ensures var r := OnCarcass(orphans, c, table, kill);
            forall k :: k in orphans && k !in ListChildren(c.pid, table) && k != c.pid ==>
              k in r && r[k] == TransitionOrphan(orphans[k], kill)
  {
    var listed := ListChildren(c.pid, table);
    MarkedOrphansAreSignalled(orphans, listed, kill);
    assert Classify(c) != ExitSuccess;
    assert OnCarcass(orphans, c, table, kill) == TransitionAll(MarkAll(orphans, listed), kill) - {c.pid};
  }

  /**
   * The scan is for children of the dead process. Linux hands those
   * children to the init process before the death can be reaped, so in
   * the table the reaper reads none of them names the dead pid as parent:
   * nothing is marked, and a crashed command's children run on unsignalled.
   */
  lemma ReparentedChildrenEscape(orphans: map<Pid, OrphanState>, c: Carcass, table: seq<ProcEntry>,
                                 kill: KillOracle, self: Pid, i: nat, q: Pid)
    requires c.status.Some? || c.signal.Some?
    requires forall j :: 0 <= j < |table| ==> EntryParent(table[j]) != Some(c.pid)
    requires i < |table| && ChildOf(table[i], self) == Some(q) && q !in orphans
    ensures OnCarcass(orphans, c, table, kill).Keys == orphans.Keys - {c.pid}
    ensures q !in OnCarcass(orphans, c, table, kill)
  {
    NoneListed(c.pid, table);
    assert ListChildren(c.pid, table) == [];
    assert MarkAll(orphans, []) == orphans;
  }

  lemma {:induction false} NoneListed(parent: Pid, table: seq<ProcEntry>)
    requires forall j :: 0 <= j < |table| ==> EntryParent(table[j]) != Some(parent)
    ensures ListChildren(parent, table) == []
  {
    if table != [] {
      NoneListed(parent, table[1..]);
    }
  }

  /** The reaper of src/reaper.rs: just the orphan table and the signal trap. */
  class Reaper {
    var orphans: map<Pid, OrphanState>

    constructor ()
      ensures orphans == map[]
    {
      orphans := map[];
    }

    /** `mark_children(pid)`: mark as orphans the children /proc lists for `pid`. */
    method MarkChildren(pid: Pid, table: seq<ProcEntry>, kill: KillOracle)
      modifies this`orphans
      ensures orphans == TransitionAll(MarkAll(old(orphans), ListChildren(pid, table)), kill)
    {
      var children := ListChildren(pid, table);
      for i := 0 to |children|
        invariant MarkAll(orphans, children[i..]) == MarkAll(old(orphans), children)
      {
        assert children[i..][1..] == children[i + 1..];
        orphans := orphans[children[i] := BlissfulIgnorance(children[i])];
      }
      TransitionOrphans(kill);
    }

    /** `transition_orphans`: every orphan, in whatever order the table yields them, once. */
    method TransitionOrphans(kill: KillOracle)
      modifies this`orphans
      ensures orphans == TransitionAll(old(orphans), kill)
    {
      ghost var start := orphans;
      var pending := orphans.Keys;
      while pending != {}
        invariant pending <= start.Keys
        invariant orphans.Keys == start.Keys
        invariant forall k :: k in pending ==> orphans[k] == start[k]
        invariant forall k :: k in start && k !in pending ==> orphans[k] == TransitionOrphan(start[k], kill)
        decreases pending
      {
        var k :| k in pending;
        orphans := orphans[k := TransitionOrphan(orphans[k], kill)];
        pending := pending - {k};
      }
      assert orphans == TransitionAll(start, kill);
    }

    /** The SIGCHLD branch of the event loop. */
    method HandleSigchld(ws: WaitStatus, table: seq<ProcEntry>, kill: KillOracle)
      modifies this`orphans
      ensures orphans == OnSigchld(old(orphans), ws, table, kill)
    {
      var reaped := Reap(ws);
      if reaped.None? {
        return;
      }
      var carcass := reaped.value;
      match carcass {
        case Carcass(_, Some(0), _) =>
        case Carcass(pid, Some(_), _) =>
          MarkChildren(pid, table, kill);
        case Carcass(pid, None, Some(_)) =>
          MarkChildren(pid, table, kill);
      }
      if carcass.pid in orphans {
        orphans := orphans - {carcass.pid};
      }
    }

    /** One turn of the event loop for one wake-up of the trap. */
    method Step(w: Wakeup, ws: WaitStatus, table: seq<ProcEntry>, kill: KillOracle)
      modifies this`orphans
      ensures orphans == OnWakeup(old(orphans), w, ws, table, kill)
    {
      match w {
        case Caught(SigChld) =>
          HandleSigchld(ws, table, kill);
        case Caught(_) =>
        case DeadlinePassed =>
          TransitionOrphans(kill);
      }
    }
  }
}
