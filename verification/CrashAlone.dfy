// What the calls of the crash detector achieve when no other process moves in
// between: which cell set_lock claims, what a scan reports, and how dbx_init
// gets from its first scan to a claimed cell, through recovery if it must.

module CrashAlone {
  import opened Options
  import opened CrashDetector
  import opened CrashSafety

  /** The state after the next call of process p, if it can make one. */
  function Next(s: State, p: Pid): Option<State> {
    if Shape(s) && Enabled(s, Step(p)) then Some(Apply(s, Step(p))) else None
  }

  /** n calls in a row. */
  function Iterate<S>(next: S -> Option<S>, s: S, n: nat): Option<S>
    decreases n
  {
    if n == 0 then Some(s)
    else
      match next(s)
      case None => None
      case Some(t) => Iterate(next, t, n - 1)
  }

  lemma {:induction false} IterateThen<S>(next: S -> Option<S>, s: S, n: nat, t: S, m: nat)
    requires Iterate(next, s, n) == Some(t)
    ensures Iterate(next, s, n + m) == Iterate(next, t, m)
    decreases n
  {
    if n > 0 { IterateThen(next, next(s).value, n - 1, t, m); }
  }

  /** The state after n calls of process p in a row. */
  function Alone(s: State, p: Pid, n: nat): Option<State> {
    Iterate((x: State) => Next(x, p), s, n)
  }

  lemma AloneThen(s: State, p: Pid, n: nat, t: State, m: nat, u: State)
    requires Alone(s, p, n) == Some(t) && Alone(t, p, m) == Some(u)
    ensures Alone(s, p, n + m) == Some(u)
  {
    IterateThen((x: State) => Next(x, p), s, n, t, m);
  }

  lemma AloneOne(s: State, p: Pid, t: State)
    requires Next(s, p) == Some(t)
    ensures Alone(s, p, 1) == Some(t)
  {
    assert Iterate((x: State) => Next(x, p), t, 0) == Some(t);
  }

  lemma AloneFour(s: State, p: Pid, s1: State, s2: State, s3: State, s4: State) returns (n: nat)
    requires Next(s, p) == Some(s1) && Next(s1, p) == Some(s2) && Next(s2, p) == Some(s3) && Next(s3, p) == Some(s4)
    ensures Alone(s, p, n) == Some(s4)
  {
    AloneOne(s3, p, s4);
    AloneOne(s2, p, s3);
    AloneThen(s2, p, 1, s3, 1, s4);
    AloneOne(s1, p, s2);
    AloneThen(s1, p, 1, s2, 2, s4);
    AloneOne(s, p, s1);
    AloneThen(s, p, 1, s1, 3, s4);
    n := 4;
  }

  /** The state s but for the variables of p. */
  function With(s: State, p: Pid, me: Proc): State {
    s.(procs := s.procs[p := me])
  }

  lemma WithTwice(s: State, p: Pid, a: Proc, b: Proc)
    ensures With(With(s, p, a), p, b) == With(s, p, b)
  {
    assert s.procs[p := a][p := b] == s.procs[p := b];
  }

  /** A call that changes the variables of p only. */
  lemma MoveOne(s: State, p: Pid, me: Proc)
    requires Shape(s) && p in s.procs && CanStep(s, p, s.procs[p].pc)
    requires EffectOf(s, p) == Move(me) && (me.pc.Recovering? ==> s.writer == Some(p) || s.raced)
    ensures Next(s, p) == Some(With(s, p, me))
  {
  }

  // ----- set_lock -----

  /** The cell can be claimed: its byte is free, and so is its lock. */
  predicate Open(s: State, i: nat) {
    i < |s.cells| == |s.holder| && s.cells[i] == Free && s.holder[i] == None
  }

  predicate NoCellLock(s: State, p: Pid) {
    forall i | 0 <= i < |s.holder| :: s.holder[i] != Some(p)
  }

  /** The process has marked cell i as its own and goes on. */
  function Claimed(s: State, p: Pid, i: nat): State
    requires i < |s.cells| == |s.holder| && p in s.procs
  {
    With(s, p, s.procs[p].(pc := Running, lockpos := i, locked := true))
      .(cells := s.cells[i := InUse], holder := s.holder[i := Some(p)])
  }

  /** The process has ended. */
  function Gone(s: State, p: Pid): State {
    s.(readers := s.readers - {p}, writer := NoWriter(s.writer, p), procs := s.procs - {p})
  }

  lemma DroppedNone(s: State, p: Pid)
    requires NoCellLock(s, p)
    ensures Dropped(s.holder, p) == s.holder
  {
  }

  /** The calls that claim an open cell. */
  lemma ClaimHere(s: State, p: Pid, i: nat) returns (n: nat)
    requires Shape(s) && p in s.procs && s.procs[p].pc == ClaimRead(i) && Open(s, i)
    ensures Alone(s, p, n) == Some(Claimed(s, p, i))
  {
    var me := s.procs[p].(lockpos := i);
    var s1 := With(s, p, me.(pc := ClaimLock));
    var s2 := With(s, p, me.(pc := Recheck)).(holder := s.holder[i := Some(p)]);
    var s3 := With(s, p, me.(pc := ClaimWrite)).(holder := s.holder[i := Some(p)]);
    MoveOne(s, p, me.(pc := ClaimLock));
    LockHere(s, p, i, me);
    WriteHere(s, p, i, me);
    n := AloneFour(s, p, s1, s2, s3, Claimed(s, p, i));
  }

  lemma LockHere(s: State, p: Pid, i: nat, me: Proc)
    requires Shape(s) && p in s.procs && Open(s, i) && me.lockpos == i
    ensures Next(With(s, p, me.(pc := ClaimLock)), p)
      == Some(With(s, p, me.(pc := Recheck)).(holder := s.holder[i := Some(p)]))
  {
    WithTwice(s, p, me.(pc := ClaimLock), me.(pc := Recheck));
  }

  lemma WriteHere(s: State, p: Pid, i: nat, me: Proc)
    requires Shape(s) && p in s.procs && Open(s, i) && me == s.procs[p].(lockpos := i)
    ensures var h := s.holder[i := Some(p)]; var s3 := With(s, p, me.(pc := ClaimWrite)).(holder := h);
      && Next(With(s, p, me.(pc := Recheck)).(holder := h), p) == Some(s3)
      && Next(s3, p) == Some(Claimed(s, p, i))
  {
    WithTwice(s, p, me.(pc := Recheck), me.(pc := ClaimWrite));
    WithTwice(s, p, me.(pc := ClaimWrite), me.(pc := Running, locked := true));
  }

  /** A cell that is not open is passed by. */
  lemma PassHere(s: State, p: Pid, i: nat) returns (n: nat)
    requires Shape(s) && p in s.procs && s.procs[p].pc == ClaimRead(i) && i < |s.cells|
    requires !Open(s, i) && NoCellLock(s, p)
    ensures Alone(s, p, n) == Some(With(s, p, s.procs[p].(lockpos := i, pc := ClaimRead(i + 1))))
  {
    var me := s.procs[p].(lockpos := i);
    if s.cells[i] == InUse {
      n := 1;
      MoveOne(s, p, me.(pc := ClaimRead(i + 1)));
      AloneOne(s, p, With(s, p, me.(pc := ClaimRead(i + 1))));
    } else {
      n := 2;
      var s1 := With(s, p, me.(pc := ClaimLock));
      MoveOne(s, p, me.(pc := ClaimLock));
      AloneOne(s, p, s1);
      WithTwice(s, p, me.(pc := ClaimLock), me.(pc := ClaimRead(i + 1)));
      MoveOne(s1, p, me.(pc := ClaimRead(i + 1)));
      AloneOne(s1, p, With(s1, p, me.(pc := ClaimRead(i + 1))));
      AloneThen(s, p, 1, s1, 1, With(s1, p, me.(pc := ClaimRead(i + 1))));
    }
  }

  /** set_lock, reading from place pos on, claims the first open cell, and
      changes nothing else; it gives up exactly when there is none. */
  lemma {:induction false} ClaimFrom(s: State, p: Pid, pos: nat) returns (n: nat, i: Option<nat>, t: State)
    requires Shape(s) && p in s.procs && s.procs[p].pc == ClaimRead(pos) && NoCellLock(s, p) && pos <= |s.cells|
    ensures Alone(s, p, n) == Some(t)
    ensures match i
      case Some(k) => pos <= k && Open(s, k) && (forall j: nat | pos <= j < k :: !Open(s, j)) && t == Claimed(s, p, k)
      case None => (forall j: nat | pos <= j :: !Open(s, j)) && t == Gone(s, p)
    decreases |s.cells| - pos
  {
    if pos == |s.cells| {
      n, i, t := 1, None, Gone(s, p);
      DroppedNone(s, p);
      AloneOne(s, p, t);
    } else if Open(s, pos) {
      i, t := Some(pos), Claimed(s, p, pos);
      n := ClaimHere(s, p, pos);
    } else {
      var m := PassHere(s, p, pos);
      var me := s.procs[p].(lockpos := pos, pc := ClaimRead(pos + 1));
      n, i, t := ClaimFrom(With(s, p, me), p, pos + 1);
      AloneThen(s, p, m, With(s, p, me), n, t);
      n := m + n;
      PassedBy(s, p, me, pos, i);
    }
  }

  /** Passing by one cell does not change what is claimed further on. */
  lemma PassedBy(s: State, p: Pid, me: Proc, pos: nat, i: Option<nat>)
    requires |s.cells| == |s.holder| && p in s.procs && me == s.procs[p].(lockpos := me.lockpos, pc := me.pc)
    ensures Gone(With(s, p, me), p) == Gone(s, p)
    ensures i.Some? && i.value < |s.cells| ==> Claimed(With(s, p, me), p, i.value) == Claimed(s, p, i.value)
    ensures forall j: nat :: Open(With(s, p, me), j) == Open(s, j)
  {
    assert s.procs[p := me] - {p} == s.procs - {p};
    if i.Some? { WithTwice(s, p, me, me.(pc := Running, lockpos := i.value, locked := true)); }
  }

  /** set_lock, undisturbed: the process runs with the first cell that is free
      and not locked, which it has marked and locked, and all else is as
      before; it gives up exactly when there is no such cell. */
  lemma SetLock(s: State, p: Pid) returns (n: nat, i: Option<nat>, t: State)
    requires Inv(s) && p in s.procs && s.procs[p].pc == ClaimRead(0)
    ensures Alone(s, p, n) == Some(t)
    ensures i.None? ==> (forall j: nat :: !Open(s, j)) && t == Gone(s, p) && t.cells == s.cells && p !in t.procs
    ensures i.Some? ==>
      var k := i.value;
      && Open(s, k) && (forall j: nat | j < k :: !Open(s, j))
      && t.cells == s.cells[k := InUse] && t.holder == s.holder[k := Some(p)]
      && t.procs == s.procs[p := s.procs[p].(pc := Running, lockpos := k, locked := true)]
      && t.readers == s.readers && t.writer == s.writer && t.raced == s.raced
  {
    NoLockOutside(s, p);
    n, i, t := ClaimFrom(s, p, 0);
  }

  lemma NoLockOutside(s: State, p: Pid)
    requires Inv(s) && p in s.procs && !HoldsCell(s.procs[p])
    ensures NoCellLock(s, p)
  {
    forall i | 0 <= i < |s.holder| ensures s.holder[i] != Some(p) { assert LockOk(s, i); }
  }

  // ----- set_lock among others -----

  /** How many cells the process has passed by, inside the loop of set_lock. */
  function Passed(me: Proc): nat {
    if me.pc.ClaimRead? then me.pc.pos else me.lockpos
  }

  predicate Claiming(s: State, p: Pid) {
    p in s.procs && (s.procs[p].pc.ClaimRead? || s.procs[p].pc.ClaimLock?)
  }

  /** The process stays inside the loop of set_lock throughout the run. */
  ghost predicate KeepsClaiming(s: State, es: seq<Event>, p: Pid)
    requires Inv(s) && CanRun(s, es)
  {
    forall k: nat | k <= |es| :: Claiming(StateAt(s, es, k), p)
  }

  /** The event is a call of p that finds cell i in use, or its lock taken. */
  predicate Refuses(s: State, e: Event, p: Pid, i: nat) {
    && e == Step(p) && p in s.procs && i < |s.cells| == |s.holder|
    && var me := s.procs[p];
       if me.pc == ClaimRead(i) then s.cells[i] == InUse
       else me.pc == ClaimLock && me.lockpos == i && s.holder[i].Some? && s.holder[i] != Some(p)
  }

  lemma PassedStep(s: State, e: Event, p: Pid, i: nat)
    requires Inv(s) && Enabled(s, e) && Claiming(s, p) && Claiming(Apply(s, e), p)
    requires Passed(s.procs[p]) <= i < Passed(Apply(s, e).procs[p])
    ensures Refuses(s, e, p, i)
  {
    if e.Step? {
      StepPerforms(s, e.pid);
      PerformTouchesOne(s, e.pid, EffectOf(s, e.pid), p);
    }
  }

  /** Whether at the k-th state the process has not passed by cell i ... */
  ghost function NotPast(s: State, es: seq<Event>, p: Pid, i: nat): nat -> bool
    requires Inv(s) && CanRun(s, es)
  {
    (k: nat) => k <= |es| && p in StateAt(s, es, k).procs && Passed(StateAt(s, es, k).procs[p]) <= i
  }

  /** ... and whether the k-th event is its finding the cell in use or locked. */
  ghost function RefusedAt(s: State, es: seq<Event>, p: Pid, i: nat): nat -> bool
    requires Inv(s) && CanRun(s, es)
  {
    (k: nat) => k < |es| && Refuses(StateAt(s, es, k), es[k], p, i)
  }

  lemma PassedStepAt(s: State, es: seq<Event>, p: Pid, i: nat, k: nat)
    requires Inv(s) && CanRun(s, es) && k < |es|
    ensures KeepsClaiming(s, es, p) && p in StateAt(s, es, k).procs && Passed(StateAt(s, es, k).procs[p]) <= i ==>
      || (p in StateAt(s, es, k + 1).procs && Passed(StateAt(s, es, k + 1).procs[p]) <= i)
      || Refuses(StateAt(s, es, k), es[k], p, i)
  {
    var t, u := StateAt(s, es, k), StateAt(s, es, k + 1);
    if KeepsClaiming(s, es, p) && Passed(t.procs[p]) <= i < Passed(u.procs[p]) {
      StateAtNext(s, es, k);
      assert Claiming(t, p) && Claiming(u, p);
      PassedStep(t, es[k], p, i);
    }
  }

  lemma NotPastGoesOn(s: State, es: seq<Event>, p: Pid, i: nat, k: nat)
    requires Inv(s) && CanRun(s, es) && k < |es|
    ensures KeepsClaiming(s, es, p) && NotPast(s, es, p, i)(k) ==>
      NotPast(s, es, p, i)(k + 1) || RefusedAt(s, es, p, i)(k)
  {
    PassedStepAt(s, es, p, i, k);
  }

  lemma AlwaysGoesOn(s: State, es: seq<Event>, p: Pid, i: nat, before: nat -> bool, passed: nat -> bool)
    requires Inv(s) && CanRun(s, es) && KeepsClaiming(s, es, p)
    requires p in s.procs && s.procs[p].pc == ClaimRead(0)
    requires before == NotPast(s, es, p, i) && passed == RefusedAt(s, es, p, i)
    ensures before(0) && forall j: nat | j < |es| && before(j) :: before(j + 1) || passed(j)
  {
    assert StateAt(s, es, 0) == s;
    forall j: nat | j < |es| && before(j) ensures before(j + 1) || passed(j) { NotPastGoesOn(s, es, p, i, j); }
  }

  /** Whatever other processes do, set_lock passes by no cell but one that it
      finds in use, or locked by another. */
  lemma PassesOnlyRefused(s: State, es: seq<Event>, p: Pid, i: nat, n: nat) returns (k: nat)
    requires Inv(s) && CanRun(s, es) && KeepsClaiming(s, es, p) && n <= |es|
    requires p in s.procs && s.procs[p].pc == ClaimRead(0)
    ensures NotPast(s, es, p, i)(n) || (k < n && RefusedAt(s, es, p, i)(k))
  {
    var before, passed := NotPast(s, es, p, i), RefusedAt(s, es, p, i);
    AlwaysGoesOn(s, es, p, i, before, passed);
    k := KeptUntil(before, passed, n);
  }

  /** A process that gives up at the end of the file has found each cell in use or locked. */
  lemma GivesUpOnlyIfRefused(s: State, es: seq<Event>, p: Pid, i: nat) returns (k: nat)
    requires Inv(s) && CanRun(s, es) && KeepsClaiming(s, es, p) && p in s.procs && s.procs[p].pc == ClaimRead(0)
    requires var t := StateAt(s, es, |es|);
      p in t.procs && t.procs[p].pc.ClaimRead? && EffectOf(t, p) == Exit && i < |t.cells|
    ensures k < |es| && Refuses(StateAt(s, es, k), es[k], p, i)
  {
    k := PassesOnlyRefused(s, es, p, i, |es|);
  }

  // ----- check_zombies -----

  /** What check_celllock tells of cell i. */
  predicate Suspect(s: State, p: Pid, i: nat) {
    && p in s.procs && i < |s.cells| == |s.holder|
    && s.cells[i] == InUse && !SeesLock(s.procs[p], i, ViewAt(s, p, i).foreign)
  }

  /** The scan from place pos on, and what its caller does next. */
  lemma {:induction false} ScanFrom(s: State, p: Pid, kind: ScanKind, pos: nat) returns (n: nat, dirty: bool, t: State)
    requires Shape(s) && p in s.procs && s.procs[p].pc == ScanRead(kind, pos) && pos <= |s.cells|
    ensures Alone(s, p, n) == Some(t)
    ensures dirty <==> exists i: nat :: pos <= i && Suspect(s, p, i)
    ensures t == Perform(s, p, if dirty then AfterDirty(s.procs[p], kind) else AfterClean(s.procs[p], kind))
    decreases |s.cells| - pos
  {
    var me := s.procs[p];
    if pos == |s.cells| {
      n, dirty, t := 1, false, Perform(s, p, AfterClean(me, kind));
      AloneOne(s, p, t);
    } else if Suspect(s, p, pos) {
      n, dirty := 2, true;
      t := FoundHere(s, p, kind, pos);
    } else {
      var m := ScanPast(s, p, kind, pos);
      var me' := me.(pc := ScanRead(kind, pos + 1));
      n, dirty, t := ScanFrom(With(s, p, me'), p, kind, pos + 1);
      AloneThen(s, p, m, With(s, p, me'), n, t);
      n := m + n;
      ScannedPast(s, p, me', if dirty then AfterDirty(me, kind) else AfterClean(me, kind));
      SameSuspects(s, p, me', pos);
    }
  }

  lemma SameSuspects(s: State, p: Pid, me: Proc, pos: nat)
    requires Shape(s) && p in s.procs && me.lockpos == s.procs[p].lockpos && me.locked == s.procs[p].locked
    requires !Suspect(s, p, pos)
    ensures (exists i: nat :: pos <= i && Suspect(s, p, i))
      <==> exists i: nat :: pos + 1 <= i && Suspect(With(s, p, me), p, i)
  {
    assert forall i: nat :: Suspect(With(s, p, me), p, i) == Suspect(s, p, i);
  }

  lemma FoundHere(s: State, p: Pid, kind: ScanKind, pos: nat) returns (t: State)
    requires Shape(s) && Suspect(s, p, pos) && s.procs[p].pc == ScanRead(kind, pos)
    ensures t == Perform(s, p, AfterDirty(s.procs[p], kind)) && Alone(s, p, 2) == Some(t)
  {
    var me := s.procs[p].(pc := ScanTest(kind, pos));
    t := Perform(s, p, AfterDirty(s.procs[p], kind));
    MoveOne(s, p, me);
    AloneOne(s, p, With(s, p, me));
    ScannedPast(s, p, me, AfterDirty(s.procs[p], kind));
    AloneOne(With(s, p, me), p, t);
    AloneThen(s, p, 1, With(s, p, me), 1, t);
  }

  lemma ScanPast(s: State, p: Pid, kind: ScanKind, pos: nat) returns (n: nat)
    requires Shape(s) && p in s.procs && s.procs[p].pc == ScanRead(kind, pos) && pos < |s.cells| && !Suspect(s, p, pos)
    ensures Alone(s, p, n) == Some(With(s, p, s.procs[p].(pc := ScanRead(kind, pos + 1))))
  {
    var me, me' := s.procs[p].(pc := ScanTest(kind, pos)), s.procs[p].(pc := ScanRead(kind, pos + 1));
    if s.cells[pos] == Free {
      n := 1;
      MoveOne(s, p, me');
      AloneOne(s, p, With(s, p, me'));
    } else {
      n := 2;
      MoveOne(s, p, me);
      AloneOne(s, p, With(s, p, me));
      MoveOne(With(s, p, me), p, me');
      WithTwice(s, p, me, me');
      AloneOne(With(s, p, me), p, With(s, p, me'));
      AloneThen(s, p, 1, With(s, p, me), 1, With(s, p, me'));
    }
  }

  /** What the caller does does not depend on how far the scan has come. */
  lemma ScannedPast(s: State, p: Pid, me: Proc, f: Effect)
    requires Shape(s) && p in s.procs && me.lockpos == s.procs[p].lockpos && (f.Exit? || f.Move?)
    ensures Perform(With(s, p, me), p, f) == Perform(s, p, f)
  {
    if f.Move? { WithTwice(s, p, me, f.me); } else { assert s.procs[p := me] - {p} == s.procs - {p}; }
  }

  /** needs_recovery, undisturbed: it reports a zombie exactly when there is
      a mark without a live owner whose lock is free. */
  lemma NeedsRecovery(s: State, p: Pid, kind: ScanKind) returns (n: nat, dirty: bool, t: State)
    requires Inv(s) && p in s.procs && s.procs[p].pc == ScanRead(kind, 0)
    ensures Alone(s, p, n) == Some(t)
    ensures dirty <==> exists i: nat :: i < |s.cells| && QuietZombie(s, i)
    ensures t == Perform(s, p, if dirty then AfterDirty(s.procs[p], kind) else AfterClean(s.procs[p], kind))
  {
    n, dirty, t := ScanFrom(s, p, kind, 0);
    forall i: nat ensures Suspect(s, p, i) <==> i < |s.cells| && QuietZombie(s, i) {
      if i < |s.cells| { UnlockedIsQuietZombie(s, p, kind, i); }
    }
  }

  /** The check that the alarm of a running process makes, undisturbed: it
      ends the process, as a death does, exactly if there is a mark without a
      live owner whose lock is free, and else it changes nothing. */
  lemma PeriodicCheck(s: State, p: Pid) returns (n: nat, dirty: bool, t: State)
    requires Inv(s) && Enabled(s, Alarm(p))
    ensures Alone(Apply(s, Alarm(p)), p, n) == Some(t)
    ensures dirty <==> exists i: nat :: i < |s.cells| && QuietZombie(s, i)
    ensures !dirty ==> t == s
    ensures dirty ==> t == Apply(s, Die(p))
  {
    AlarmChanges(s, p);
    AlarmZombies(s, p);
    n, dirty, t := NeedsRecovery(Apply(s, Alarm(p)), p, Watch);
  }

  lemma AlarmChanges(s: State, p: Pid)
    requires Inv(s) && Enabled(s, Alarm(p))
    ensures var u := Apply(s, Alarm(p));
      && Inv(u) && p in u.procs && u.procs[p].pc == ScanRead(Watch, 0)
      && Perform(u, p, AfterDirty(u.procs[p], Watch)) == Apply(s, Die(p))
      && Perform(u, p, AfterClean(u.procs[p], Watch)) == s
  {
    ApplyKeepsInv(s, Alarm(p));
    WatchEnds(s, p, s.procs[p].(pc := ScanRead(Watch, 0)));
  }

  lemma WatchEnds(s: State, p: Pid, me: Proc)
    requires Shape(s) && p in s.procs && s.procs[p].pc.Running? && me == s.procs[p].(pc := ScanRead(Watch, 0))
    ensures Perform(With(s, p, me), p, Exit) == Perform(s, p, Exit)
    ensures Perform(With(s, p, me), p, Move(s.procs[p])) == s
  {
    ScannedPast(s, p, me, Exit);
    ScannedPast(s, p, me, Move(s.procs[p]));
    assert s.procs[p := s.procs[p]] == s.procs;
  }

  lemma AlarmZombies(s: State, p: Pid)
    requires Inv(s) && Enabled(s, Alarm(p))
    ensures var u := Apply(s, Alarm(p));
      Shape(u) && forall i: nat | i < |s.cells| :: QuietZombie(u, i) <==> QuietZombie(s, i)
  {
    forall i: nat | i < |s.cells| ensures QuietZombie(Apply(s, Alarm(p)), i) <==> QuietZombie(s, i) {
      SameOwners(s, p, s.procs[p].(pc := ScanRead(Watch, 0)), i);
    }
  }

  lemma SameOwners(s: State, p: Pid, me: Proc, i: nat)
    requires Shape(s) && p in s.procs && i < |s.cells| && me.lockpos == s.procs[p].lockpos < |s.cells|
    requires Owns(me) <==> Owns(s.procs[p])
    ensures QuietZombie(With(s, p, me), i) <==> QuietZombie(s, i)
  {
    var u := With(s, p, me);
    forall q ensures LiveOwner(u, q, i) <==> LiveOwner(s, q, i) {}
  }

  // ----- dbx_init and the end of a session -----

  /** The shared environment lock is set, or what was held is demoted. */
  function Shared(s: State, p: Pid): State
    requires p in s.procs
  {
    With(s, p, s.procs[p].(pc := ClaimRead(0), loopDirty := false))
      .(readers := s.readers + {p}, writer := NoWriter(s.writer, p))
  }

  /** From the shared lock to a claimed cell, with the locks as they then are. */
  lemma ShareAndClaim(s: State, p: Pid) returns (n: nat, i: Option<nat>, t: State)
    requires Shape(s) && p in s.procs && s.procs[p].pc == WantShared && NoWriter(s.writer, p) == None
    requires NoCellLock(s, p)
    ensures Alone(s, p, n) == Some(t)
    ensures match i
      case Some(k) => Open(s, k) && (forall j: nat | j < k :: !Open(s, j)) && t == Claimed(Shared(s, p), p, k)
      case None => (forall j: nat :: !Open(s, j)) && t == Gone(Shared(s, p), p)
  {
    var u := Shared(s, p);
    AloneOne(s, p, u);
    n, i, t := ClaimFrom(u, p, 0);
    AloneThen(s, p, 1, u, n, t);
    n := 1 + n;
    forall j: nat ensures Open(u, j) == Open(s, j) {}
  }

  /** The process runs with cell k, and all else is as in s. */
  function Entered(s: State, p: Pid, k: nat): State
    requires k < |s.cells| == |s.holder|
  {
    With(s, p, Proc(Running, k, true, false))
      .(cells := s.cells[k := InUse], holder := s.holder[k := Some(p)], readers := s.readers + {p})
  }

  lemma SharedClaimed(s: State, p: Pid, me: Proc, k: nat)
    requires p in s.procs && k < |s.cells| == |s.holder| && s.writer == None
    ensures Claimed(Shared(With(s, p, me), p), p, k) == Entered(s, p, k)
  {
    var b := me.(pc := ClaimRead(0), loopDirty := false);
    WithTwice(s, p, me, b);
    WithTwice(s, p, b, Proc(Running, k, true, false));
  }

  /** dbx_init without a zombie: no recovery, and the first open cell is
      claimed; the process ends if there is none. */
  lemma OpenClean(s: State, p: Pid) returns (n: nat, i: Option<nat>, t: State)
    requires Inv(s) && p in s.procs && s.procs[p].pc == ScanRead(Initial, 0) && s.writer == None
    requires forall j: nat | j < |s.cells| :: !QuietZombie(s, j)
    ensures Alone(s, p, n) == Some(t)
    ensures match i
      case Some(k) => Open(s, k) && (forall j: nat | j < k :: !Open(s, j)) && t == Entered(s, p, k)
      case None => (forall j: nat :: !Open(s, j)) && p !in t.procs && t.cells == s.cells
  {
    NoLockOutside(s, p);
    var n1, s1 := ScanClean(s, p);
    var n2;
    n2, i, t := ClaimAfterScan(s, p, s1);
    AloneThen(s, p, n1, s1, n2, t);
    n := n1 + n2;
  }

  lemma ScanClean(s: State, p: Pid) returns (n: nat, s1: State)
    requires Inv(s) && p in s.procs && s.procs[p].pc == ScanRead(Initial, 0)
    requires forall j: nat | j < |s.cells| :: !QuietZombie(s, j)
    ensures s1 == With(s, p, s.procs[p].(pc := WantShared)) && Alone(s, p, n) == Some(s1)
  {
    var dirty;
    n, dirty, s1 := NeedsRecovery(s, p, Initial);
  }

  lemma ClaimAfterScan(s: State, p: Pid, s1: State) returns (n: nat, i: Option<nat>, t: State)
    requires Shape(s) && p in s.procs && NoCellLock(s, p) && s.writer == None
    requires s1 == With(s, p, s.procs[p].(pc := WantShared))
    ensures Alone(s1, p, n) == Some(t)
    ensures match i
      case Some(k) => Open(s, k) && (forall j: nat | j < k :: !Open(s, j)) && t == Entered(s, p, k)
      case None => (forall j: nat :: !Open(s, j)) && p !in t.procs && t.cells == s.cells
  {
    n, i, t := ShareAndClaim(s1, p);
    forall j: nat ensures Open(s1, j) == Open(s, j) {}
    if i.Some? { SharedClaimed(s, p, s.procs[p].(pc := WantShared), i.value); }
  }

  /** The file as clear_lockfile leaves it, and the process before the shared lock. */
  function Recovered(s: State, p: Pid): State
    requires p in s.procs
  {
    With(s, p, s.procs[p].(pc := WantShared, locked := false, loopDirty := false))
      .(cells := AllFree(|s.cells|), readers := s.readers - {p}, writer := NoWriter(s.writer, p))
  }

  function AllFree(n: nat): (r: seq<Cell>)
    ensures |r| == n && forall i | 0 <= i < n :: r[i] == Free
  {
    seq(n, i => Free)
  }

  predicate Unlocked(s: State) {
    forall i | 0 <= i < |s.holder| :: s.holder[i] == None
  }

  /** Recovery under the exclusive lock: the whole file is free afterwards. */
  lemma Recover(s: State, p: Pid) returns (n: nat)
    requires Shape(s) && p in s.procs && s.procs[p].pc == Recovering && s.writer == Some(p) && Unlocked(s)
    ensures Alone(s, p, n) == Some(Recovered(s, p))
  {
    var s2 := With(s.(cells := AllFree(|s.cells|)), p, s.procs[p].(pc := ClearWrite(true)));
    WipeCalls(s, p);
    n := ClearCalls(s.(cells := AllFree(|s.cells|)), p);
    AloneThen(s, p, 2, s2, n, Recovered(s, p));
    n := 2 + n;
  }

  lemma WipeCalls(s: State, p: Pid)
    requires Shape(s) && p in s.procs && s.procs[p].pc == Recovering && s.writer == Some(p)
    ensures Alone(s, p, 2)
      == Some(With(s.(cells := AllFree(|s.cells|)), p, s.procs[p].(pc := ClearWrite(true))))
  {
    var me := s.procs[p];
    var s1 := With(s, p, me.(pc := Wipe));
    var s2 := With(s.(cells := AllFree(|s.cells|)), p, me.(pc := ClearWrite(true)));
    MoveOne(s, p, me.(pc := Wipe));
    AloneOne(s, p, s1);
    WithTwice(s, p, me.(pc := Wipe), me.(pc := ClearWrite(true)));
    AloneOne(s1, p, s2);
    AloneThen(s, p, 1, s1, 1, s2);
  }

  lemma ClearCalls(b: State, p: Pid) returns (n: nat)
    requires Shape(b) && p in b.procs && Unlocked(b) && b.cells == AllFree(|b.cells|)
    ensures Alone(With(b, p, b.procs[p].(pc := ClearWrite(true))), p, n) == Some(Recovered(b, p))
  {
    var me := b.procs[p];
    var s2, s3 := With(b, p, me.(pc := ClearWrite(true))), With(b, p, me.(pc := ClearUnlock(true), locked := false));
    var s4 := With(b, p, me.(pc := CloseFile(true), locked := false));
    var s5 := With(b, p, me.(pc := DropEnvLock(true), locked := false));
    ClearWrites(b, p, me);
    ClearCloses(b, p, me);
    n := AloneFour(s2, p, s3, s4, s5, Recovered(b, p));
  }

  lemma ClearWrites(b: State, p: Pid, me: Proc)
    requires Shape(b) && p in b.procs && Unlocked(b) && b.cells == AllFree(|b.cells|) && me == b.procs[p]
    ensures var s3 := With(b, p, me.(pc := ClearUnlock(true), locked := false));
      && Next(With(b, p, me.(pc := ClearWrite(true))), p) == Some(s3)
      && Next(s3, p) == Some(With(b, p, me.(pc := CloseFile(true), locked := false)))
  {
    var me3 := me.(pc := ClearUnlock(true), locked := false);
    WithTwice(b, p, me.(pc := ClearWrite(true)), me3);
    WithTwice(b, p, me3, me.(pc := CloseFile(true), locked := false));
    assert b.cells[me.lockpos := Free] == b.cells;
    assert b.holder[me.lockpos := None] == b.holder;
  }

  lemma ClearCloses(b: State, p: Pid, me: Proc)
    requires Shape(b) && p in b.procs && Unlocked(b) && b.cells == AllFree(|b.cells|) && me == b.procs[p]
    ensures var s5 := With(b, p, me.(pc := DropEnvLock(true), locked := false));
      && Next(With(b, p, me.(pc := CloseFile(true), locked := false)), p) == Some(s5)
      && Next(s5, p) == Some(Recovered(b, p))
  {
    var me5 := me.(pc := DropEnvLock(true), locked := false);
    WithTwice(b, p, me.(pc := CloseFile(true), locked := false), me5);
    WithTwice(b, p, me5, me.(pc := WantShared, locked := false, loopDirty := false));
    assert Dropped(b.holder, p) == b.holder;
  }

  /** A scan of a file with a suspect cell. */
  lemma ScanDirty(s: State, p: Pid, kind: ScanKind, i: nat) returns (n: nat)
    requires Shape(s) && p in s.procs && s.procs[p].pc == ScanRead(kind, 0) && Suspect(s, p, i)
    ensures Alone(s, p, n) == Some(Perform(s, p, AfterDirty(s.procs[p], kind)))
  {
    var dirty, t;
    n, dirty, t := ScanFrom(s, p, kind, 0);
  }

  function Waiting(s: State, p: Pid): State
    requires p in s.procs
  {
    With(s, p, s.procs[p].(pc := WantExclusive, loopDirty := true))
  }

  /** From the first scan to the request for the exclusive lock, and the lock. */
  lemma ReachWaiting(s: State, p: Pid, i: nat) returns (n: nat)
    requires Shape(s) && p in s.procs && s.procs[p].pc == ScanRead(Initial, 0) && Suspect(s, p, i)
    ensures Alone(s, p, n) == Some(Waiting(s, p))
  {
    var me := s.procs[p].(pc := ScanRead(Loop, 0));
    var n1 := ScanDirty(s, p, Initial, i);
    assert Suspect(With(s, p, me), p, i);
    var n2 := ScanDirty(With(s, p, me), p, Loop, i);
    WithTwice(s, p, me, me.(pc := WantExclusive, loopDirty := true));
    AloneThen(s, p, n1, With(s, p, me), n2, Waiting(s, p));
    n := n1 + n2;
  }

  lemma ReachExclusive(s: State, p: Pid, i: nat) returns (n: nat, t: State)
    requires Shape(s) && p in s.procs && s.procs[p].pc == ScanRead(Initial, 0) && Suspect(s, p, i)
    requires s.readers == {} && s.writer == None
    ensures t == With(s, p, s.procs[p].(pc := ScanRead(Again, 0), loopDirty := true)).(writer := Some(p))
    ensures Alone(s, p, n) == Some(t)
  {
    var n1 := ReachWaiting(s, p, i);
    t := With(s, p, s.procs[p].(pc := ScanRead(Again, 0), loopDirty := true)).(writer := Some(p));
    LockedOut(s, p, t);
    AloneOne(Waiting(s, p), p, t);
    AloneThen(s, p, n1, Waiting(s, p), 1, t);
    n := n1 + 1;
  }

  lemma LockedOut(s: State, p: Pid, t: State)
    requires Shape(s) && p in s.procs && s.readers == {} && s.writer == None
    requires t == With(s, p, s.procs[p].(pc := ScanRead(Again, 0), loopDirty := true)).(writer := Some(p))
    ensures Next(Waiting(s, p), p) == Some(t)
  {
    var me := s.procs[p].(loopDirty := true);
    WithTwice(s, p, me.(pc := WantExclusive), me.(pc := ScanRead(Again, 0)));
    assert s.readers - {p} == s.readers;
  }

  lemma ScanAgain(s: State, p: Pid, i: nat) returns (n: nat)
    requires Shape(s) && p in s.procs && s.procs[p].pc == ScanRead(Again, 0) && Suspect(s, p, i)
    requires s.writer == Some(p)
    ensures Alone(s, p, n) == Some(With(s, p, s.procs[p].(pc := Recovering)))
  {
    n := ScanDirty(s, p, Again, i);
  }

  lemma RecoverFrom(s: State, p: Pid) returns (n: nat)
    requires Shape(s) && p in s.procs && s.writer == Some(p) && Unlocked(s)
    ensures var s1 := With(s, p, s.procs[p].(pc := Recovering)); Alone(s1, p, n) == Some(Recovered(s1, p))
  {
    n := Recover(With(s, p, s.procs[p].(pc := Recovering)), p);
  }

  /** From the second test, under the exclusive lock, through recovery ... */
  lemma ReachRecovered(s: State, p: Pid, i: nat) returns (n: nat)
    requires Shape(s) && p in s.procs && s.procs[p].pc == ScanRead(Again, 0) && Suspect(s, p, i)
    requires s.writer == Some(p) && Unlocked(s)
    ensures Alone(s, p, n) == Some(Recovered(With(s, p, s.procs[p].(pc := Recovering)), p))
  {
    var s1 := With(s, p, s.procs[p].(pc := Recovering));
    var n1 := ScanAgain(s, p, i);
    var n2 := RecoverFrom(s, p);
    AloneThen(s, p, n1, s1, n2, Recovered(s1, p));
    n := n1 + n2;
  }

  /** ... to the first cell. */
  lemma RecoverAndClaim(s: State, p: Pid, i: nat) returns (n: nat, t: State)
    requires Shape(s) && p in s.procs && s.procs[p].pc == ScanRead(Again, 0) && Suspect(s, p, i)
    requires s.readers == {} && s.writer == Some(p) && Unlocked(s)
    ensures Alone(s, p, n) == Some(t)
    ensures t == Entered(s.(cells := AllFree(|s.cells|), writer := None), p, 0)
  {
    var n1 := ReachRecovered(s, p, i);
    var me := s.procs[p].(pc := Recovering);
    var s2 := Recovered(With(s, p, me), p);
    var n3 := ClaimFirst(s2, p);
    t := Claimed(Shared(s2, p), p, 0);
    AloneThen(s, p, n1, s2, n3, t);
    n := n1 + n3;
    RecoveredClaimed(s, p, me);
  }

  lemma ClaimFirst(s: State, p: Pid) returns (n: nat)
    requires Shape(s) && p in s.procs && s.procs[p].pc == WantShared && s.writer == None && Unlocked(s)
    requires Open(s, 0)
    ensures Alone(s, p, n) == Some(Claimed(Shared(s, p), p, 0))
  {
    var i, t;
    n, i, t := ShareAndClaim(s, p);
  }

  lemma RecoveredClaimed(s: State, p: Pid, me: Proc)
    requires p in s.procs && |s.holder| == |s.cells| > 0 && s.readers == {} && s.writer == Some(p)
    ensures Claimed(Shared(Recovered(With(s, p, me), p), p), p, 0)
      == Entered(s.(cells := AllFree(|s.cells|), writer := None), p, 0)
  {
    var b := me.(pc := WantShared, locked := false, loopDirty := false);
    WithTwice(s, p, me, b);
    WithTwice(s, p, b, b.(pc := ClaimRead(0)));
    WithTwice(s, p, b.(pc := ClaimRead(0)), Proc(Running, 0, true, false));
    assert s.readers - {p} + {p} == s.readers + {p};
  }

  lemma NoSessionNoLock(s: State)
    requires Inv(s) && s.readers == {}
    ensures Unlocked(s)
  {
    forall i | 0 <= i < |s.holder| ensures s.holder[i] == None {
      assert LockOk(s, i) && forall q | q in s.procs :: ProcOk(s, q) && !InSession(s.procs[q]);
    }
  }

  /** dbx_init after a crash, with no other session: it recovers under the
      exclusive lock, so that the file is all free, and claims the first cell. */
  lemma OpenAfterCrash(s: State, p: Pid, i: nat) returns (n: nat, t: State)
    requires Inv(s) && p in s.procs && s.procs[p].pc == ScanRead(Initial, 0)
    requires s.readers == {} && s.writer == None && Zombie(s, i)
    ensures Alone(s, p, n) == Some(t)
    ensures t == Entered(s.(cells := AllFree(|s.cells|), writer := None), p, 0)
  {
    NoSessionNoLock(s);
    UnlockedIsQuietZombie(s, p, Initial, i);
    var n1, s1 := ReachExclusive(s, p, i);
    var n2;
    n2, t := OpenUnder(s, p, i, s1);
    AloneThen(s, p, n1, s1, n2, t);
    n := n1 + n2;
  }

  lemma OpenUnder(s: State, p: Pid, i: nat, s1: State) returns (n: nat, t: State)
    requires Shape(s) && p in s.procs && Unlocked(s) && Suspect(s, p, i) && s.readers == {}
    requires s1 == With(s, p, s.procs[p].(pc := ScanRead(Again, 0), loopDirty := true)).(writer := Some(p))
    ensures Alone(s1, p, n) == Some(t)
    ensures t == Entered(s.(cells := AllFree(|s.cells|), writer := None), p, 0)
  {
    n, t := RecoverAndClaim(s1, p, i);
    WithTwice(s, p, s1.procs[p], Proc(Running, 0, true, false));
  }

  /** The end of a session: the cell is free and unlocked again, and the process gone. */
  lemma CloseSession(s: State, p: Pid) returns (n: nat, t: State)
    requires Inv(s) && p in s.procs && s.procs[p].pc == ClearWrite(false)
    ensures Alone(s, p, n) == Some(t)
    ensures var i := s.procs[p].lockpos;
      t.cells == s.cells[i := Free] && t.holder == s.holder[i := None]
    ensures t.procs == s.procs - {p} && t.readers == s.readers - {p} && t.writer == s.writer
  {
    var me := s.procs[p];
    assert ProcOk(s, p);
    forall i | 0 <= i < |s.holder| && i != me.lockpos ensures s.holder[i] != Some(p) { assert LockOk(s, i); }
    n, t := CloseCalls(s, p);
  }

  lemma CloseCalls(s: State, p: Pid) returns (n: nat, t: State)
    requires Shape(s) && p in s.procs && s.procs[p].pc == ClearWrite(false) && s.holder[s.procs[p].lockpos] == Some(p)
    requires forall i | 0 <= i < |s.holder| && i != s.procs[p].lockpos :: s.holder[i] != Some(p)
    requires s.writer != Some(p)
    ensures Alone(s, p, n) == Some(t)
    ensures var i := s.procs[p].lockpos;
      t.cells == s.cells[i := Free] && t.holder == s.holder[i := None]
    ensures t.procs == s.procs - {p} && t.readers == s.readers - {p} && t.writer == s.writer
  {
    var me := s.procs[p].(locked := false);
    var b := s.(cells := s.cells[me.lockpos := Free], holder := s.holder[me.lockpos := None]);
    var s1 := With(s, p, me.(pc := ClearUnlock(false))).(cells := b.cells);
    var s2, s3 := With(b, p, me.(pc := CloseFile(false))), With(b, p, me.(pc := DropEnvLock(false)));
    t := Gone(b, p);
    FreeCalls(s, p, me);
    EndCalls(b, p, me);
    n := AloneFour(s, p, s1, s2, s3, t);
  }

  lemma FreeCalls(s: State, p: Pid, me: Proc)
    requires Shape(s) && p in s.procs && s.procs[p].pc == ClearWrite(false) && s.holder[s.procs[p].lockpos] == Some(p)
    requires me == s.procs[p].(locked := false)
    ensures var b := s.(cells := s.cells[me.lockpos := Free], holder := s.holder[me.lockpos := None]);
      var s1 := With(s, p, me.(pc := ClearUnlock(false))).(cells := b.cells);
      Next(s, p) == Some(s1) && Next(s1, p) == Some(With(b, p, me.(pc := CloseFile(false))))
  {
    WithTwice(s, p, me.(pc := ClearUnlock(false)), me.(pc := CloseFile(false)));
  }

  lemma EndCalls(b: State, p: Pid, me: Proc)
    requires Shape(b) && p in b.procs && NoCellLock(b, p) && me.lockpos == b.procs[p].lockpos
    ensures var s2, s3 := With(b, p, me.(pc := CloseFile(false))), With(b, p, me.(pc := DropEnvLock(false)));
      Next(s2, p) == Some(s3) && Next(s3, p) == Some(Gone(b, p))
  {
    var out := me.(pc := DropEnvLock(false));
    DroppedNone(b, p);
    WithTwice(b, p, me.(pc := CloseFile(false)), out);
    assert b.procs[p := out] - {p} == b.procs - {p};
  }
}
