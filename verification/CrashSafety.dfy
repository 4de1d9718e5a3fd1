// What the crash detector guarantees over whole runs: marks of crashed
// processes survive until recovery, recovery with the exclusive lock touches
// no live process, and scans see every mark that nobody is contending for.
// It also shows where dbx_recover does not keep these promises: when its loop
// condition sees no zombie but its second test does.

module CrashSafety {
  import opened Options
  import opened CrashDetector

  // ----- runs -----

  ghost predicate CanRun(s: State, es: seq<Event>)
    requires Inv(s)
    decreases |es|
  {
    es == [] || (Enabled(s, es[0]) && (ApplyKeepsInv(s, es[0]); CanRun(Apply(s, es[0]), es[1..])))
  }

  ghost function StateAt(s: State, es: seq<Event>, k: nat): (t: State)
    requires Inv(s) && CanRun(s, es) && k <= |es|
    ensures Inv(t) && |t.cells| == |s.cells|
    decreases k
  {
    if k == 0 then s else (ApplyKeepsInv(s, es[0]); StateAt(Apply(s, es[0]), es[1..], k - 1))
  }

  ghost predicate Leads(s: State, t: State)
    requires Inv(s)
  {
    exists es :: CanRun(s, es) && StateAt(s, es, |es|) == t
  }

  ghost predicate Reachable(t: State) {
    exists s :: Init(s) && Inv(s) && Leads(s, t)
  }

  lemma {:induction false} StateAtNext(s: State, es: seq<Event>, k: nat)
    requires Inv(s) && CanRun(s, es) && k < |es|
    ensures Enabled(StateAt(s, es, k), es[k])
    ensures StateAt(s, es, k + 1) == Apply(StateAt(s, es, k), es[k])
    decreases k
  {
    ApplyKeepsInv(s, es[0]);
    if k > 0 { StateAtNext(Apply(s, es[0]), es[1..], k - 1); }
  }

  lemma {:induction false} LeadsOn(s: State, es: seq<Event>, e: Event)
    requires Inv(s) && CanRun(s, es) && Enabled(StateAt(s, es, |es|), e)
    ensures CanRun(s, es + [e]) && StateAt(s, es + [e], |es| + 1) == Apply(StateAt(s, es, |es|), e)
    decreases |es|
  {
    if es == [] {
      ApplyKeepsInv(s, e);
    } else {
      ApplyKeepsInv(s, es[0]);
      LeadsOn(Apply(s, es[0]), es[1..], e);
      assert (es + [e])[1..] == es[1..] + [e];
    }
  }

  lemma LeadsNext(s: State, t: State, e: Event, u: State)
    requires Inv(s) && Leads(s, t) && Inv(t) && Enabled(t, e) && u == Apply(t, e)
    ensures Inv(u) && Leads(s, u)
  {
    var es :| CanRun(s, es) && StateAt(s, es, |es|) == t;
    LeadsOn(s, es, e);
    ApplyKeepsInv(t, e);
    assert CanRun(s, es + [e]) && StateAt(s, es + [e], |es + [e]|) == u;
  }

  lemma ReachableInv(s: State)
    requires Reachable(s)
    ensures Inv(s)
  {
  }

  lemma ReachableNext(s: State, e: Event)
    requires Reachable(s) && Inv(s) && Enabled(s, e)
    ensures Inv(Apply(s, e)) && Reachable(Apply(s, e))
  {
    var s0 :| Init(s0) && Inv(s0) && Leads(s0, s);
    LeadsNext(s0, s, e, Apply(s, e));
  }

  // ----- zombies and contenders -----

  /** A live process is between set_lock and clear_lock for this cell. */
  predicate LiveOwner(s: State, p: Pid, i: nat) {
    p in s.procs && Owns(s.procs[p]) && s.procs[p].lockpos == i
  }

  /** A mark in the file that no live process stands behind. */
  predicate Zombie(s: State, i: nat)
    requires Shape(s)
  {
    i < |s.cells| && s.cells[i] == InUse && forall p | p in s.procs :: !LiveOwner(s, p, i)
  }

  /** A process inside set_lock that read the cell as free and has not yet looked again. */
  predicate Contends(s: State, p: Pid, i: nat) {
    p in s.procs && s.procs[p].lockpos == i && Claims(s.procs[p].pc)
  }

  predicate Claims(pc: PC) {
    pc.ClaimLock? || pc.Recheck? || pc.BackOut?
  }

  /** The two writes of recovery that can erase a mark. */
  predicate Erases(s: State, e: Event, i: nat) {
    && e.Step? && e.pid in s.procs
    && var me := s.procs[e.pid];
       (me.pc.Wipe? || (me.pc == ClearWrite(true) && me.lockpos == i))
  }

  lemma ProgramWrites(me: Proc, v: View)
    ensures var f := Program(me, v);
      && (f.WriteCell? ==> me.pc.ClaimWrite? || me.pc.ClearWrite?)
      && (f.WriteAllFree? ==> me.pc.Wipe?)
      && (!f.Exit? && Owns(f.me) ==> f.me.lockpos == me.lockpos && (Owns(me) || me.pc.ClaimWrite?))
      && (!f.Exit? && Claims(f.me.pc) ==>
            || (f.me.lockpos == me.lockpos && Claims(me.pc))
            || (me.pc == ClaimRead(f.me.lockpos) && v.cell == Free))
  {
  }

  lemma PerformKeepsZombie(s: State, p: Pid, f: Effect, i: nat)
    requires Performs(s, p, f) && Zombie(s, i) && Shape(Perform(s, p, f))
    requires !f.WriteAllFree?
    requires f.WriteCell? ==> s.procs[p].lockpos != i
    requires !f.Exit? && Owns(f.me) ==> f.me.lockpos != i
    ensures Zombie(Perform(s, p, f), i)
  {
    var s' := Perform(s, p, f);
    forall q | q in s'.procs ensures !LiveOwner(s', q, i) {
      if q != p { assert !LiveOwner(s, q, i); }
    }
  }

  lemma ZombieStep(s: State, p: Pid, i: nat)
    requires Inv(s) && Enabled(s, Step(p)) && Zombie(s, i) && !Erases(s, Step(p), i)
    ensures Shape(Apply(s, Step(p))) && Zombie(Apply(s, Step(p)), i)
    ensures var f := EffectOf(s, p); !f.Exit? && Claims(f.me.pc) && f.me.lockpos == i ==> Contends(s, p, i)
  {
    ApplyKeepsInv(s, Step(p));
    StepPerforms(s, p);
    assert ProcOk(s, p) && !LiveOwner(s, p, i);
    ProgramWrites(s.procs[p], ViewAt(s, p, Place(s.procs[p])));
    PerformKeepsZombie(s, p, EffectOf(s, p), i);
  }

  /** No event but a write of recovery erases a mark. */
  lemma ZombieKept(s: State, e: Event, i: nat)
    requires Inv(s) && Enabled(s, e) && Zombie(s, i) && !Erases(s, e, i)
    ensures Inv(Apply(s, e)) && Zombie(Apply(s, e), i)
  {
    ApplyKeepsInv(s, e);
    match e
    case Step(p) => ZombieStep(s, p, i);
    case Start(p, stale) =>
      var s' := Apply(s, e);
      forall q | q in s'.procs ensures !LiveOwner(s', q, i) { if q != p { assert !LiveOwner(s, q, i); } }
    case Finish(p) =>
      assert ProcOk(s, p) && !LiveOwner(s, p, i);
      PerformKeepsZombie(s, p, Move(s.procs[p].(pc := ClearWrite(false))), i);
    case Alarm(p) =>
      assert ProcOk(s, p) && !LiveOwner(s, p, i);
      PerformKeepsZombie(s, p, Move(s.procs[p].(pc := ScanRead(Watch, 0))), i);
    case Die(p) =>
      assert ProcOk(s, p);
      PerformKeepsZombie(s, p, Exit, i);
  }

  lemma PerformTouchesOne(s: State, p: Pid, f: Effect, q: Pid)
    requires Performs(s, p, f)
    ensures var t := Perform(s, p, f);
      if q != p then (q in t.procs <==> q in s.procs) && (q in s.procs ==> t.procs[q] == s.procs[q])
      else q in t.procs ==> !f.Exit? && t.procs[q] == f.me
  {
  }

  /** A process that has not read the cell as free before it became a zombie
      never contends for it afterwards. */
  lemma ContendersShrink(s: State, e: Event, i: nat, q: Pid)
    requires Inv(s) && Enabled(s, e) && Zombie(s, i) && !Erases(s, e, i)
    requires Contends(Apply(s, e), q, i)
    ensures Contends(s, q, i)
  {
    match e
    case Step(p) =>
      StepPerforms(s, p);
      PerformTouchesOne(s, p, EffectOf(s, p), q);
      if p == q { ZombieStep(s, q, i); }
    case Start(p, stale) =>
    case Finish(p) =>
    case Alarm(p) =>
    case Die(p) =>
  }

  /** The lock of a zombie cell can only be held by a process that is about to
      look again and back out. */
  lemma ZombieLockHolder(s: State, i: nat)
    requires Inv(s) && Zombie(s, i) && s.holder[i].Some?
    ensures Contends(s, s.holder[i].value, i) && !s.procs[s.holder[i].value].pc.ClaimLock?
  {
    var q := s.holder[i].value;
    assert LockOk(s, i) && ProcOk(s, q) && !LiveOwner(s, q, i);
  }

  // ----- a crash is never forgotten -----

  /** The k-th event of the run is a write of recovery that meets the mark. */
  ghost predicate ErasedAt(s: State, es: seq<Event>, k: nat, i: nat)
    requires Inv(s) && CanRun(s, es)
  {
    k < |es| && Zombie(StateAt(s, es, k), i) && Erases(StateAt(s, es, k), es[k], i)
  }

  /** The states of a run are those of its tail. */
  lemma TailStates(s: State, es: seq<Event>, k: nat)
    requires Inv(s) && CanRun(s, es) && es != [] && k <= |es| - 1 && Inv(Apply(s, es[0]))
    ensures CanRun(Apply(s, es[0]), es[1..])
    ensures StateAt(s, es, k + 1) == StateAt(Apply(s, es[0]), es[1..], k)
    ensures k < |es| - 1 ==> es[k + 1] == es[1..][k]
  {
  }

  /** The mark of a crashed process stays through every run, until a process
      inside recovery writes over it, at the k-th event. */
  lemma {:induction false} CrashIsNeverForgotten(s: State, es: seq<Event>, i: nat) returns (k: nat)
    requires Inv(s) && CanRun(s, es) && Zombie(s, i)
    ensures Zombie(StateAt(s, es, |es|), i) || ErasedAt(s, es, k, i)
    decreases |es|
  {
    k := 0;
    if es != [] && !ErasedAt(s, es, 0, i) {
      ZombieKept(s, es[0], i);
      var j := CrashIsNeverForgotten(Apply(s, es[0]), es[1..], i);
      TailStates(s, es, |es| - 1);
      if j < |es| - 1 { TailStates(s, es, j); }
      k := j + 1;
    }
  }

  // ----- recovery -----

  /** Recovery holds the exclusive lock exactly when the loop of dbx_recover
      had seen a zombie; then no other process is inside a session or a
      recovery of that kind, and every mark in the file is a dead one. */
  lemma RecoveryIsExclusive(s: State, p: Pid)
    requires Inv(s) && p in s.procs && InRecovery(s.procs[p])
    ensures s.writer == Some(p) <==> s.procs[p].loopDirty
    ensures !s.raced ==> s.procs[p].loopDirty
    ensures s.procs[p].loopDirty ==>
      forall q | q in s.procs && q != p :: !InSession(s.procs[q]) && !Excludes(s.procs[q])
    ensures s.procs[p].loopDirty ==> forall i: nat | i < |s.cells| && s.cells[i] == InUse :: Zombie(s, i)
  {
    assert ProcOk(s, p);
    if s.procs[p].loopDirty {
      forall q | q in s.procs && q != p ensures !InSession(s.procs[q]) && !Excludes(s.procs[q]) {
        assert ProcOk(s, q);
      }
    }
  }

  /** In a run without the race, the clear_lock that ends recovery finds the
      file already clean: only clear_lockfile erases marks. */
  predicate Wiped(s: State)
    requires Shape(s)
  {
    !s.raced ==>
      forall p, i: nat | p in s.procs && s.procs[p].pc == ClearWrite(true) && i < |s.cells| :: s.cells[i] == Free
  }

  lemma ProgramEndsRecovery(me: Proc, v: View)
    ensures var f := Program(me, v);
      && (!f.Exit? && f.me.pc == ClearWrite(true) ==> f.WriteAllFree?)
      && (f.WriteCell? && f.cell == InUse ==> me.pc.ClaimWrite?)
  {
  }

  lemma PerformKeepsWiped(s: State, p: Pid, f: Effect)
    requires Performs(s, p, f) && Wiped(s) && Shape(Perform(s, p, f))
    requires !f.Exit? && f.me.pc == ClearWrite(true) ==> f.WriteAllFree?
    requires f.WriteCell? && f.cell == InUse ==> s.procs[p].pc.ClaimWrite?
    ensures Wiped(Perform(s, p, f))
  {
    var t := Perform(s, p, f);
    assert ProcOk(s, p);
    if !t.raced {
      forall q, i: nat | q in t.procs && t.procs[q].pc == ClearWrite(true) && i < |t.cells|
        ensures t.cells[i] == Free
      {
        if q != p {
          assert ProcOk(s, q) && s.cells[i] == Free;
        }
      }
    }
  }

  lemma ApplyKeepsWiped(s: State, e: Event)
    requires Inv(s) && Enabled(s, e) && Wiped(s)
    ensures Inv(Apply(s, e)) && Wiped(Apply(s, e))
    ensures s.raced ==> Apply(s, e).raced
  {
    ApplyKeepsInv(s, e);
    match e
    case Step(p) =>
      StepPerforms(s, p);
      ProgramEndsRecovery(s.procs[p], ViewAt(s, p, Place(s.procs[p])));
      PerformKeepsWiped(s, p, EffectOf(s, p));
    case Start(p, stale) =>
    case Finish(p) =>
      assert ProcOk(s, p);
      PerformKeepsWiped(s, p, Move(s.procs[p].(pc := ClearWrite(false))));
    case Alarm(p) =>
      assert ProcOk(s, p);
      PerformKeepsWiped(s, p, Move(s.procs[p].(pc := ScanRead(Watch, 0))));
    case Die(p) =>
      assert ProcOk(s, p);
      PerformKeepsWiped(s, p, Exit);
  }

  lemma {:induction false} RacedStays(s: State, es: seq<Event>)
    requires Inv(s) && CanRun(s, es) && s.raced
    ensures StateAt(s, es, |es|).raced
    decreases |es|
  {
    if es != [] {
      ApplyKeepsWiped(s, es[0]);
      RacedStays(Apply(s, es[0]), es[1..]);
    }
  }

  lemma {:induction false} RunKeepsWiped(s: State, es: seq<Event>, k: nat)
    requires Inv(s) && CanRun(s, es) && Wiped(s) && k <= |es|
    ensures Wiped(StateAt(s, es, k))
    ensures StateAt(s, es, k).raced ==> StateAt(s, es, |es|).raced
    decreases |es|
  {
    if k == 0 {
      if s.raced { RacedStays(s, es); }
    } else {
      ApplyKeepsWiped(s, es[0]);
      RunKeepsWiped(Apply(s, es[0]), es[1..], k - 1);
    }
  }

  lemma ReachableWiped(s: State)
    requires Reachable(s)
    ensures Inv(s) && Wiped(s)
  {
    var s0 :| Init(s0) && Inv(s0) && Leads(s0, s);
    var es :| CanRun(s0, es) && StateAt(s0, es, |es|) == s;
    RunKeepsWiped(s0, es, |es|);
  }

  /** In every run in which no recovery begins without the exclusive lock, a
      mark stays until clear_lockfile is called by a process that holds it. */
  lemma CrashSurvivesUntilRecovery(s: State, es: seq<Event>, i: nat)
    requires Reachable(s) && Inv(s) && CanRun(s, es) && Zombie(s, i) && !StateAt(s, es, |es|).raced
    ensures
      || Zombie(StateAt(s, es, |es|), i)
      || exists k: nat :: k < |es| && RecoveredAt(StateAt(s, es, k), es[k], i)
  {
    ReachableWiped(s);
    var k := CrashIsNeverForgotten(s, es, i);
    if !Zombie(StateAt(s, es, |es|), i) {
      var t := StateAt(s, es, k);
      RunKeepsWiped(s, es, k);
      RecoveryIsExclusive(t, es[k].pid);
      assert RecoveredAt(t, es[k], i);
    }
  }

  /** The event is clear_lockfile, called under the exclusive lock, on a file that holds the mark. */
  predicate RecoveredAt(s: State, e: Event, i: nat)
    requires Shape(s)
  {
    && Zombie(s, i) && e.Step? && e.pid in s.procs
    && s.procs[e.pid].pc.Wipe? && s.writer == Some(e.pid)
  }

  // ----- ownership and detection -----

  /** A cell has at most one live owner, which holds its lock; a cell in use
      without one is a zombie, and its lock is free or held by a contender. */
  lemma CellOwnership(s: State, i: nat)
    requires Inv(s) && i < |s.cells|
    ensures forall p: Pid, q: Pid | LiveOwner(s, p, i) && LiveOwner(s, q, i) :: p == q
    ensures forall p: Pid | LiveOwner(s, p, i) :: s.holder[i] == Some(p) && (!s.raced ==> s.cells[i] == InUse)
    ensures s.cells[i] == InUse ==>
      || (exists p: Pid :: LiveOwner(s, p, i))
      || (Zombie(s, i) && (s.holder[i].Some? ==> Contends(s, s.holder[i].value, i)))
  {
    forall p: Pid | LiveOwner(s, p, i) ensures s.holder[i] == Some(p) && (!s.raced ==> s.cells[i] == InUse) {
      assert ProcOk(s, p);
    }
    if Zombie(s, i) && s.holder[i].Some? { ZombieLockHolder(s, i); }
  }

  /** What one test of check_zombies decides: a cell in use is passed over
      exactly when somebody holds its lock. */
  lemma TestSeesQuietZombie(s: State, p: Pid, kind: ScanKind, i: nat)
    requires Inv(s) && p in s.procs && s.procs[p].pc == ScanTest(kind, i) && Zombie(s, i)
    ensures EffectOf(s, p) == (if s.holder[i] == None then AfterDirty(s.procs[p], kind)
                               else Move(s.procs[p].(pc := ScanRead(kind, i + 1))))
  {
    assert ProcOk(s, p) && !LiveOwner(s, p, i);
    if s.holder[i].Some? { ZombieLockHolder(s, i); }
  }

  predicate ScansUpTo(s: State, p: Pid, kind: ScanKind, i: nat) {
    p in s.procs && Scans(s.procs[p].pc, kind) && s.procs[p].pc.pos <= i
  }

  /** Throughout the run the process keeps scanning and the cell stays a zombie. */
  ghost predicate ScanSpansZombie(s: State, es: seq<Event>, p: Pid, kind: ScanKind, i: nat)
    requires Inv(s) && CanRun(s, es)
  {
    forall k: nat | k <= |es| ::
      var t := StateAt(s, es, k);
      p in t.procs && Scans(t.procs[p].pc, kind) && Zombie(t, i)
  }

  /** The process tests the zombie while a contender holds its lock. */
  ghost predicate TestedWhileContended(s: State, e: Event, p: Pid, kind: ScanKind, i: nat)
    requires Inv(s)
  {
    && e == Step(p) && p in s.procs && s.procs[p].pc == ScanTest(kind, i)
    && i < |s.holder| && s.holder[i].Some? && Contends(s, s.holder[i].value, i)
  }

  lemma ScanStep(me: Proc, v: View, kind: ScanKind, i: nat)
    requires Scans(me.pc, kind) && me.pc.pos <= i && !v.eof && (me.pc.pos == i ==> v.cell == InUse)
    ensures var f := Program(me, v);
      !f.Exit? && Scans(f.me.pc, kind) && f.me.pc.pos > i ==>
        me.pc == ScanTest(kind, i) && f == Move(me.(pc := ScanRead(kind, i + 1)))
  {
  }

  lemma ScanPassStep(s: State, e: Event, p: Pid, kind: ScanKind, i: nat)
    requires Inv(s) && Enabled(s, e) && ScansUpTo(s, p, kind, i) && Zombie(s, i)
    requires var t := Apply(s, e); p in t.procs && Scans(t.procs[p].pc, kind)
    ensures ScansUpTo(Apply(s, e), p, kind, i) || TestedWhileContended(s, e, p, kind, i)
  {
    if e == Step(p) {
      StepPerforms(s, p);
      var f := EffectOf(s, p);
      PerformTouchesOne(s, p, f, p);
      var v := ViewAt(s, p, Place(s.procs[p]));
      ScanStep(s.procs[p], v, kind, i);
      if f.me.pc.pos > i {
        TestSeesQuietZombie(s, p, kind, i);
        if s.holder[i].Some? { ZombieLockHolder(s, i); }
      }
    } else if e.Step? {
      StepPerforms(s, e.pid);
      PerformTouchesOne(s, e.pid, EffectOf(s, e.pid), p);
    }
  }

  /** Whether the scan has not got past the cell at the k-th state ... */
  ghost function StillBefore(s: State, es: seq<Event>, p: Pid, kind: ScanKind, i: nat): nat -> bool
    requires Inv(s) && CanRun(s, es)
  {
    (k: nat) => k <= |es| && ScansUpTo(StateAt(s, es, k), p, kind, i)
  }

  /** ... and whether at the k-th event it tests it while a contender holds its lock. */
  ghost function PassedAt(s: State, es: seq<Event>, p: Pid, kind: ScanKind, i: nat): nat -> bool
    requires Inv(s) && CanRun(s, es)
  {
    (k: nat) => k < |es| && TestedWhileContended(StateAt(s, es, k), es[k], p, kind, i)
  }

  lemma SpansAt(s: State, es: seq<Event>, p: Pid, kind: ScanKind, i: nat, k: nat)
    requires Inv(s) && CanRun(s, es) && ScanSpansZombie(s, es, p, kind, i) && k <= |es|
    ensures var t := StateAt(s, es, k); p in t.procs && Scans(t.procs[p].pc, kind) && Zombie(t, i)
  {
  }

  lemma ScanStepAt(s: State, es: seq<Event>, p: Pid, kind: ScanKind, i: nat, k: nat)
    requires Inv(s) && CanRun(s, es) && k < |es|
    ensures ScanSpansZombie(s, es, p, kind, i) && ScansUpTo(StateAt(s, es, k), p, kind, i) ==>
      || ScansUpTo(StateAt(s, es, k + 1), p, kind, i)
      || TestedWhileContended(StateAt(s, es, k), es[k], p, kind, i)
  {
    if ScanSpansZombie(s, es, p, kind, i) && ScansUpTo(StateAt(s, es, k), p, kind, i) {
      SpansAt(s, es, p, kind, i, k);
      SpansAt(s, es, p, kind, i, k + 1);
      StateAtNext(s, es, k);
      ScanPassStep(StateAt(s, es, k), es[k], p, kind, i);
    }
  }

  lemma ScanGoesOn(s: State, es: seq<Event>, p: Pid, kind: ScanKind, i: nat, k: nat)
    requires Inv(s) && CanRun(s, es) && k < |es|
    ensures ScanSpansZombie(s, es, p, kind, i) && StillBefore(s, es, p, kind, i)(k) ==>
      StillBefore(s, es, p, kind, i)(k + 1) || PassedAt(s, es, p, kind, i)(k)
  {
    ScanStepAt(s, es, p, kind, i, k);
  }

  /** What holds at first, and is kept until something happens, holds at the
      end, or that happens. */
  lemma {:induction false} KeptUntil(before: nat -> bool, passed: nat -> bool, n: nat) returns (k: nat)
    requires before(0) && forall j: nat | j < n && before(j) :: before(j + 1) || passed(j)
    ensures before(n) || (k < n && passed(k))
  {
    k := 0;
    if n > 0 {
      k := KeptUntil(before, passed, n - 1);
      if before(n - 1) { k := n - 1; }
    }
  }

  lemma ScanAlwaysGoesOn(s: State, es: seq<Event>, p: Pid, kind: ScanKind, i: nat,
                         before: nat -> bool, passed: nat -> bool)
    requires Inv(s) && CanRun(s, es) && ScanSpansZombie(s, es, p, kind, i)
    requires before == StillBefore(s, es, p, kind, i) && passed == PassedAt(s, es, p, kind, i)
    ensures forall j: nat | j < |es| && before(j) :: before(j + 1) || passed(j)
  {
    forall j: nat | j < |es| && before(j) ensures before(j + 1) || passed(j) { ScanGoesOn(s, es, p, kind, i, j); }
  }

  /** Up to the n-th event, a scan gets past a cell that is a zombie all the
      while only by testing it, at the k-th, while a contender holds its lock. */
  lemma ScanMissesOnlyContendedZombie(s: State, es: seq<Event>, p: Pid, kind: ScanKind, i: nat, n: nat)
    returns (k: nat)
    requires Inv(s) && CanRun(s, es) && ScanSpansZombie(s, es, p, kind, i) && n <= |es|
    requires StillBefore(s, es, p, kind, i)(0)
    ensures StillBefore(s, es, p, kind, i)(n) || (k < n && PassedAt(s, es, p, kind, i)(k))
  {
    var before, passed := StillBefore(s, es, p, kind, i), PassedAt(s, es, p, kind, i);
    ScanAlwaysGoesOn(s, es, p, kind, i, before, passed);
    k := KeptUntil(before, passed, n);
  }

  /** A zombie whose lock is free. */
  predicate QuietZombie(s: State, i: nat)
    requires Shape(s)
  {
    Zombie(s, i) && s.holder[i] == None
  }

  lemma UnlockedIsQuietZombie(s: State, p: Pid, kind: ScanKind, i: nat)
    requires Inv(s) && p in s.procs && Scans(s.procs[p].pc, kind) && i < |s.cells|
    ensures QuietZombie(s, i) <==>
      s.cells[i] == InUse && !SeesLock(s.procs[p], i, ViewAt(s, p, i).foreign)
  {
    assert ProcOk(s, p) && LockOk(s, i);
    if s.cells[i] == InUse && s.holder[i] == None {
      forall q | q in s.procs ensures q != p ==> !LiveOwner(s, q, i) { assert ProcOk(s, q); }
    }
    if Zombie(s, i) { assert !LiveOwner(s, p, i); }
  }

  /** check_zombies with no step of another process in between: it returns 1
      exactly when there is a mark with no live owner and no lock, else 0. */
  method CheckZombies(s: State, p: Pid, kind: ScanKind) returns (r: int)
    requires Inv(s) && p in s.procs && Scans(s.procs[p].pc, kind)
    ensures r == if exists i: nat :: i < |s.cells| && QuietZombie(s, i) then 1 else 0
  {
    var me := s.procs[p];
    var pos := 0;
    while pos < |s.cells|
      invariant pos <= |s.cells|
      invariant forall i: nat | i < pos :: !QuietZombie(s, i)
    {
      UnlockedIsQuietZombie(s, p, kind, pos);
      var v := ViewAt(s, p, pos);
      if v.cell == InUse && !SeesLock(me, pos, v.foreign) { return 1; }
      pos := pos + 1;
    }
    return 0;
  }
}
