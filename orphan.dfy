/**
 * The orphan escalation state machine (`OrphanState`, `transition_orphan`
 * in src/lib.rs; src/reaper.rs repeats both word for word) and the two
 * table-wide operations built on it: one pass over every orphan, and
 * marking pids as fresh orphans.
 */
module Orphan {
  import opened RustStr
  import opened Zombie

  /** A `nix::Error` returned by `kill`. */
  type Errno = int

  /**
   * The outcome of `kill(pid, sig)`. The reaper's decisions depend on the
   * OS only through this answer, so it is an input.
   */
  type KillOracle = (Pid, Signal) -> Result<(), Errno>

  /**
   * Where an orphan is in its escalation. `HasBeenSentSIGKILL` also keeps
   * an `Instant` in the source, used only for a log line; it is dropped here.
   */
  datatype OrphanState =
    | BlissfulIgnorance(pid: Pid)
    | HasBeenSentSIGTERM(pid: Pid)
    | HasBeenSentSIGKILL(pid: Pid)
    | Errored(pid: Pid, error: Errno)
    | Carcass(carcass: Zombie.Carcass)

  /** The process an orphan record is about. */
  function Target(os: OrphanState): Pid {
    match os
    case Carcass(c) => c.pid
    case _ => os.pid
  }

  /** The signal `transition_orphan` sends from this state, if it sends one. */
  function SignalFor(os: OrphanState): Option<Signal> {
    match os
    case BlissfulIgnorance(_) => Some(SIGTERM)
    case HasBeenSentSIGTERM(_) => Some(SIGKILL)
    case _ => None
  }

  /**
   * One allowed move: an untouched orphan is asked to exit or fails, an
   * asked orphan is killed or fails, and every other state stays put.
   */
  ghost predicate Step(a: OrphanState, b: OrphanState) {
    Target(a) == Target(b) &&
    match a
    case BlissfulIgnorance(_) => b.HasBeenSentSIGTERM? || b.Errored?
    case HasBeenSentSIGTERM(_) => b.HasBeenSentSIGKILL? || b.Errored?
    case _ => b == a
  }

  /**
   * Any number of moves: the record only moves forward along
   * BlissfulIgnorance, HasBeenSentSIGTERM, HasBeenSentSIGKILL, or into
   * Errored, and keeps its pid.
   */
  ghost predicate MayBecome(a: OrphanState, b: OrphanState) {
    Target(a) == Target(b) &&
    (a == b
     || (a.BlissfulIgnorance? && (b.HasBeenSentSIGTERM? || b.HasBeenSentSIGKILL? || b.Errored?))
     || (a.HasBeenSentSIGTERM? && (b.HasBeenSentSIGKILL? || b.Errored?)))
  }

  /** `transition_orphan`, with the answers of `kill` given by `kill`. */
  function TransitionOrphan(os: OrphanState, kill: KillOracle): (r: OrphanState)
    ensures Step(os, r)
    ensures r == os <==> SignalFor(os).None?
    ensures SignalFor(os).Some? ==>
              (r.Errored? <==> kill(os.pid, SignalFor(os).value).Err?)
              && (r.Errored? ==> r.error == kill(os.pid, SignalFor(os).value).error)
  {
    match os
    case BlissfulIgnorance(pid) =>
      (match kill(pid, SIGTERM)
       case Ok(_) => HasBeenSentSIGTERM(pid)
       case Err(e) => Errored(pid, e))
    case HasBeenSentSIGTERM(pid) =>
      (match kill(pid, SIGKILL)
       case Ok(_) => HasBeenSentSIGKILL(pid)
       case Err(e) => Errored(pid, e))
    case HasBeenSentSIGKILL(_) => os
    case Carcass(_) => os
    case Errored(_, _) => os
  }

  /** A state that sends no signal is left alone whatever `kill` would answer. */
  lemma FixedPointsSendNothing(os: OrphanState, k1: KillOracle, k2: KillOracle)
    requires SignalFor(os).None?
    ensures TransitionOrphan(os, k1) == TransitionOrphan(os, k2) == os
  {
  }

  lemma StepMayBecome(a: OrphanState, b: OrphanState)
    requires Step(a, b)
    ensures MayBecome(a, b)
  {
  }

  lemma MayBecomeTransitive(a: OrphanState, b: OrphanState, c: OrphanState)
    requires MayBecome(a, b) && MayBecome(b, c)
    ensures MayBecome(a, c)
  {
  }

  /** The state after one `transition_orphan` per tick, in tick order. */
  function Advance(os: OrphanState, ticks: seq<KillOracle>): OrphanState
    decreases |ticks|
  {
    if ticks == [] then os else Advance(TransitionOrphan(os, ticks[0]), ticks[1..])
  }

  /** Over any number of ticks an orphan record never regresses. */
  lemma {:induction false} AdvanceNeverRegresses(os: OrphanState, ticks: seq<KillOracle>)
    ensures MayBecome(os, Advance(os, ticks))
    decreases |ticks|
  {
    if ticks != [] {
      var next := TransitionOrphan(os, ticks[0]);
      StepMayBecome(os, next);
      AdvanceNeverRegresses(next, ticks[1..]);
      MayBecomeTransitive(os, next, Advance(next, ticks[1..]));
    }
  }

  /** After two ticks every record has reached a state that sends nothing more. */
  lemma {:induction false} AdvanceSettles(os: OrphanState, ticks: seq<KillOracle>)
    requires |ticks| >= 2
    ensures SignalFor(Advance(os, ticks)).None?
    ensures forall k: KillOracle :: TransitionOrphan(Advance(os, ticks), k) == Advance(os, ticks)
    decreases |ticks|
  {
    var once := TransitionOrphan(os, ticks[0]);
    var twice := TransitionOrphan(once, ticks[1]);
    assert SignalFor(twice).None?;
    assert Advance(os, ticks) == Advance(twice, ticks[2..]);
    SettledStays(twice, ticks[2..]);
  }

  lemma {:induction false} SettledStays(os: OrphanState, ticks: seq<KillOracle>)
    requires SignalFor(os).None?
    ensures Advance(os, ticks) == os
    decreases |ticks|
  {
    if ticks != [] {
      SettledStays(TransitionOrphan(os, ticks[0]), ticks[1..]);
    }
  }

  /** When every `kill` is delivered, an untouched orphan is SIGKILLed on the second tick. */
  lemma EscalatesToKill(pid: Pid, t1: KillOracle, t2: KillOracle)
    requires t1(pid, SIGTERM).Ok? && t2(pid, SIGKILL).Ok?
    ensures Advance(BlissfulIgnorance(pid), [t1, t2]) == HasBeenSentSIGKILL(pid)
  {
    var once := TransitionOrphan(BlissfulIgnorance(pid), t1);
    assert once == HasBeenSentSIGTERM(pid);
    assert [t1, t2][1..] == [t2];
    assert Advance(BlissfulIgnorance(pid), [t1, t2]) == Advance(once, [t2]);
    assert Advance(once, [t2]) == Advance(TransitionOrphan(once, t2), []);
  }

  // ---------------------------------------------------------------------
  // The orphan table

  /** One pass of `transition_orphans`: every value transitioned once, keys kept. */
  function TransitionAll(m: map<Pid, OrphanState>, kill: KillOracle): map<Pid, OrphanState> {
    map k | k in m :: TransitionOrphan(m[k], kill)
  }

  /** A pass moves every record one allowed step and adds or drops no key. */
  lemma TransitionAllSteps(m: map<Pid, OrphanState>, kill: KillOracle)
    ensures TransitionAll(m, kill).Keys == m.Keys
    ensures forall k :: k in m ==> Step(m[k], TransitionAll(m, kill)[k])
  {
  }

  /** The insertions in `mark_orphans`: each pid, in order, set to BlissfulIgnorance. */
  function MarkAll(m: map<Pid, OrphanState>, pids: seq<Pid>): map<Pid, OrphanState>
    decreases |pids|
  {
    if pids == [] then m else MarkAll(m[pids[0] := BlissfulIgnorance(pids[0])], pids[1..])
  }

  /** Marking adds exactly the given pids, overwrites their state, and keeps the rest. */
  lemma {:induction false} MarkAllFacts(m: map<Pid, OrphanState>, pids: seq<Pid>)
    ensures MarkAll(m, pids).Keys == m.Keys + (set p | p in pids)
    ensures forall p :: p in pids ==> MarkAll(m, pids)[p] == BlissfulIgnorance(p)
    ensures forall k :: k in m && k !in pids ==> MarkAll(m, pids)[k] == m[k]
    decreases |pids|
  {
    if pids != [] {
      var m' := m[pids[0] := BlissfulIgnorance(pids[0])];
      MarkAllFacts(m', pids[1..]);
      assert forall p :: p in pids <==> p == pids[0] || p in pids[1..];
    }
  }

  /**
   * `mark_orphans` as a whole: every marked pid has been sent SIGTERM or has
   * failed, and every other orphan has taken its usual step of the pass.
   */
  lemma MarkedOrphansAreSignalled(m: map<Pid, OrphanState>, pids: seq<Pid>, kill: KillOracle)
    ensures TransitionAll(MarkAll(m, pids), kill).Keys == m.Keys + (set p | p in pids)
    ensures forall p :: p in pids ==>
              TransitionAll(MarkAll(m, pids), kill)[p] ==
                (if kill(p, SIGTERM).Ok? then HasBeenSentSIGTERM(p) else Errored(p, kill(p, SIGTERM).error))
    ensures forall k :: k in m && k !in pids ==>
              TransitionAll(MarkAll(m, pids), kill)[k] == TransitionOrphan(m[k], kill)
  {
    MarkAllFacts(m, pids);
  }

  /**
   * Because marking overwrites, a pid that is marked again after it was
   * SIGKILLed is taken back to SIGTERM (or Errored): at the level of the
   * table, escalation can restart.
   */
  lemma RemarkingRestartsEscalation(m: map<Pid, OrphanState>, pids: seq<Pid>, kill: KillOracle, p: Pid)
    requires p in m && m[p] == HasBeenSentSIGKILL(p) && p in pids
    ensures p in TransitionAll(MarkAll(m, pids), kill)
            && !MayBecome(m[p], TransitionAll(MarkAll(m, pids), kill)[p])
  {
    MarkedOrphansAreSignalled(m, pids, kill);
  }
}
