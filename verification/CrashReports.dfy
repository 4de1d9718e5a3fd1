// From the death of a process to the report of it: a death between set_lock
// and clear_lock leaves a mark, and the scans that come to the mark later
// report a zombie.

module CrashReports {
  import opened Options
  import opened CrashDetector
  import opened CrashSafety

  /** The death of an owner leaves its mark, if it has not been erased, and
      frees the lock of the cell.  Without the race the mark is always there. */
  lemma DeathLeavesZombie(s: State, p: Pid)
    requires Inv(s) && p in s.procs && Owns(s.procs[p])
    ensures var t, i := Apply(s, Die(p)), s.procs[p].lockpos;
      Inv(t) && (Zombie(t, i) <==> s.cells[i] == InUse) && t.holder[i] == None && (!s.raced ==> Zombie(t, i))
  {
    var t, i := Apply(s, Die(p)), s.procs[p].lockpos;
    ApplyKeepsInv(s, Die(p));
    assert ProcOk(s, p);
    forall q | q in t.procs ensures !LiveOwner(t, q, i) {
      assert ProcOk(s, q);
    }
  }

  /** No write of recovery erases the mark in cell i during the run. */
  ghost predicate Undisturbed(s: State, es: seq<Event>, i: nat)
    requires Inv(s) && CanRun(s, es)
  {
    forall k: nat | k < |es| :: !Erases(StateAt(s, es, k), es[k], i)
  }

  lemma UndisturbedRest(s: State, es: seq<Event>, i: nat)
    requires Inv(s) && CanRun(s, es) && es != [] && Undisturbed(s, es, i)
    requires Inv(Apply(s, es[0]))
    ensures Enabled(s, es[0]) && !Erases(s, es[0], i)
    ensures CanRun(Apply(s, es[0]), es[1..]) && Undisturbed(Apply(s, es[0]), es[1..], i)
  {
    var t, rest := Apply(s, es[0]), es[1..];
    assert StateAt(s, es, 0) == s;
    forall k: nat | k < |rest| ensures !Erases(StateAt(t, rest, k), rest[k], i) {
      assert StateAt(s, es, k + 1) == StateAt(t, rest, k) && es[k + 1] == rest[k];
    }
  }

  /** All along such a run the mark stays, and nobody begins to contend for its cell. */
  lemma {:induction false} MarkStays(s: State, es: seq<Event>, i: nat, k: nat, q: Pid)
    requires Inv(s) && CanRun(s, es) && Zombie(s, i) && Undisturbed(s, es, i) && k <= |es|
    ensures Zombie(StateAt(s, es, k), i) && (Contends(StateAt(s, es, k), q, i) ==> Contends(s, q, i))
    decreases k
  {
    if k > 0 {
      ApplyKeepsInv(s, es[0]);
      UndisturbedRest(s, es, i);
      ZombieKept(s, es[0], i);
      var t := Apply(s, es[0]);
      MarkStays(t, es[1..], i, k - 1, q);
      if Contends(t, q, i) { ContendersShrink(s, es[0], i, q); }
    }
  }

  /** The event ends the scan of process q with the report of a zombie. */
  predicate Reports(s: State, e: Event, q: Pid, kind: ScanKind)
    requires Inv(s)
  {
    e == Step(q) && q in s.procs && EffectOf(s, q) == AfterDirty(s.procs[q], kind)
  }

  lemma StepOfScan(s: State, q: Pid, kind: ScanKind, i: nat)
    requires Inv(s) && Enabled(s, Step(q)) && ScansUpTo(s, q, kind, i) && Zombie(s, i)
    ensures
      || ScansUpTo(Apply(s, Step(q)), q, kind, i)
      || Reports(s, Step(q), q, kind)
      || TestedWhileContended(s, Step(q), q, kind, i)
  {
    var me := s.procs[q];
    StepPerforms(s, q);
    PerformTouchesOne(s, q, EffectOf(s, q), q);
    if me.pc == ScanTest(kind, i) {
      TestSeesQuietZombie(s, q, kind, i);
      if s.holder[i].Some? { ZombieLockHolder(s, i); }
    }
  }

  /** A scan that has not got past cell i goes on before it, dies, or reports a zombie. */
  predicate Answered(s: State, e: Event, t: State, q: Pid, kind: ScanKind, i: nat)
    requires Inv(s)
  {
    ScansUpTo(t, q, kind, i) || e == Die(q) || Reports(s, e, q, kind)
  }

  /** One event, for a scan that has not got past a mark. */
  lemma ScanEvent(s: State, e: Event, q: Pid, kind: ScanKind, i: nat)
    requires Inv(s) && Enabled(s, e) && ScansUpTo(s, q, kind, i) && Zombie(s, i)
    ensures Answered(s, e, Apply(s, e), q, kind, i) || TestedWhileContended(s, e, q, kind, i)
  {
    match e
    case Step(p) =>
      if p == q {
        StepOfScan(s, q, kind, i);
      } else {
        StepPerforms(s, p);
        PerformTouchesOne(s, p, EffectOf(s, p), q);
      }
    case Start(p, stale) =>
    case Finish(p) =>
    case Alarm(p) =>
    case Die(p) =>
  }

  /** The same at the k-th event of a run in which nothing erases the mark. */
  lemma MarkIsReported(s: State, es: seq<Event>, i: nat, k: nat, q: Pid, kind: ScanKind)
    requires Inv(s) && CanRun(s, es) && Zombie(s, i) && Undisturbed(s, es, i) && k < |es|
    requires ScansUpTo(StateAt(s, es, k), q, kind, i)
    ensures var t := StateAt(s, es, k);
      || Answered(t, es[k], StateAt(s, es, k + 1), q, kind, i)
      || (TestedWhileContended(t, es[k], q, kind, i) && Contends(s, t.holder[i].value, i))
  {
    var t := StateAt(s, es, k);
    MarkStays(s, es, i, k, if i < |t.holder| && t.holder[i].Some? then t.holder[i].value else q);
    StateAtNext(s, es, k);
    ScanEvent(t, es[k], q, kind, i);
  }

  lemma ContendersBefore(s: State, p: Pid, q: Pid, i: nat)
    requires Inv(s) && p in s.procs && Contends(Apply(s, Die(p)), q, i)
    ensures Contends(s, q, i)
  {
  }

  /** After the death of an owner, at every event of every run in which no
      recovery erases its mark, every scan that has not got past the mark goes
      on before it, dies, or reports a zombie.  The one exception is a test of
      the cell while its lock is held by a process that read the byte before
      the owner wrote its mark, and has not looked again since. */
  lemma CrashIsReported(s: State, p: Pid, es: seq<Event>, k: nat, q: Pid, kind: ScanKind)
    requires Inv(s) && p in s.procs && Owns(s.procs[p]) && s.cells[s.procs[p].lockpos] == InUse
    requires var d, i := Apply(s, Die(p)), s.procs[p].lockpos;
      Inv(d) && CanRun(d, es) && Undisturbed(d, es, i) && k < |es| && ScansUpTo(StateAt(d, es, k), q, kind, i)
    ensures var d, i := Apply(s, Die(p)), s.procs[p].lockpos;
      var t := StateAt(d, es, k);
      || Answered(t, es[k], StateAt(d, es, k + 1), q, kind, i)
      || (TestedWhileContended(t, es[k], q, kind, i) && Contends(s, t.holder[i].value, i))
  {
    var d, i := Apply(s, Die(p)), s.procs[p].lockpos;
    DeathLeavesZombie(s, p);
    MarkIsReported(d, es, i, k, q, kind);
    var t := StateAt(d, es, k);
    if TestedWhileContended(t, es[k], q, kind, i) && Contends(d, t.holder[i].value, i) {
      ContendersBefore(s, p, t.holder[i].value, i);
    }
  }

  /** If nobody contends for the cell when its owner dies, no scan ever gets
      past the mark: every scan that is complete reports a zombie. */
  lemma UncontendedCrashIsReported(s: State, p: Pid, es: seq<Event>, k: nat, q: Pid, kind: ScanKind)
    requires Inv(s) && p in s.procs && Owns(s.procs[p]) && s.cells[s.procs[p].lockpos] == InUse
    requires forall x: Pid :: !Contends(s, x, s.procs[p].lockpos)
    requires var d, i := Apply(s, Die(p)), s.procs[p].lockpos;
      Inv(d) && CanRun(d, es) && Undisturbed(d, es, i) && k < |es| && ScansUpTo(StateAt(d, es, k), q, kind, i)
    ensures var d, i := Apply(s, Die(p)), s.procs[p].lockpos;
      Answered(StateAt(d, es, k), es[k], StateAt(d, es, k + 1), q, kind, i)
  {
    CrashIsReported(s, p, es, k, q, kind);
  }

  /** From the death on: in every run without the race the mark stays until
      clear_lockfile is called by a process that holds the exclusive lock. */
  lemma DeathSurvivesUntilRecovery(s: State, p: Pid, es: seq<Event>)
    requires Reachable(s) && Inv(s) && p in s.procs && Owns(s.procs[p])
    requires var d := Apply(s, Die(p)); Inv(d) && CanRun(d, es) && !StateAt(d, es, |es|).raced
    ensures var d, i := Apply(s, Die(p)), s.procs[p].lockpos;
      || Zombie(StateAt(d, es, |es|), i)
      || exists k: nat :: k < |es| && RecoveredAt(StateAt(d, es, k), es[k], i)
  {
    var d, i := Apply(s, Die(p)), s.procs[p].lockpos;
    ReachableNext(s, Die(p));
    ReachableWiped(d);
    RunKeepsWiped(d, es, 0);
    DeathLeavesZombie(s, p);
    CrashSurvivesUntilRecovery(d, es, i);
  }
}
