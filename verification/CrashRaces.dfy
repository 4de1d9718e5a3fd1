// Two runs in which the crash detector breaks its promise, built call by call
// on a cell file of one byte.
//
// dbx_recover takes the exclusive lock only when its loop condition sees a
// zombie, but recovers when its second test sees one.  If the zombie shows up
// between the two scans, recovery runs without the lock.  And a scan misses a
// mark while a claimer that read the byte before the crash holds its lock.

module CrashRaces {
  import opened Options
  import opened CrashDetector
  import opened CrashSafety

  function With(b: State, p: Pid, me: Proc): State {
    b.(procs := b.procs[p := me])
  }

  /** One call of process p, in a world that is b but for p itself. */
  lemma Go(s: State, b: State, p: Pid, me: Proc, f: Effect, b': State)
    requires Inv(s) && Inv(With(b, p, me)) && Leads(s, With(b, p, me))
    requires CanStep(b, p, me.pc) && f == Program(me, ViewAt(b, p, Place(me))) && !f.Exit?
    requires With(b', p, f.me) == Perform(With(b, p, me), p, f)
    ensures Inv(With(b', p, f.me)) && Leads(s, With(b', p, f.me))
  {
    LeadsNext(s, With(b, p, me), Step(p), With(b', p, f.me));
  }

  lemma GoMove(s: State, b: State, p: Pid, me: Proc, me': Proc)
    requires Inv(s) && Inv(With(b, p, me)) && Leads(s, With(b, p, me))
    requires CanStep(b, p, me.pc) && Program(me, ViewAt(b, p, Place(me))) == Move(me') && !me'.pc.Recovering?
    ensures Inv(With(b, p, me')) && Leads(s, With(b, p, me'))
  {
    assert b.procs[p := me][p := me'] == b.procs[p := me'];
    Go(s, b, p, me, Move(me'), b);
  }

  lemma GoShared(s: State, b: State, p: Pid, me: Proc, me': Proc)
    requires Inv(s) && Inv(With(b, p, me)) && Leads(s, With(b, p, me)) && b.writer == None
    requires me.pc.WantShared? && me' == me.(pc := ClaimRead(0), loopDirty := false)
    ensures var b' := b.(readers := b.readers + {p}); Inv(With(b', p, me')) && Leads(s, With(b', p, me'))
  {
    assert b.procs[p := me][p := me'] == b.procs[p := me'];
    Go(s, b, p, me, LockShared(me'), b.(readers := b.readers + {p}));
  }

  lemma GoLockCell(s: State, b: State, p: Pid, me: Proc, me': Proc)
    requires Inv(s) && Inv(With(b, p, me)) && Leads(s, With(b, p, me)) && b.holder == [None]
    requires me.lockpos == 0 && me.pc.ClaimLock? && me' == me.(pc := Recheck)
    ensures var b' := b.(holder := [Some(p)]); Inv(With(b', p, me')) && Leads(s, With(b', p, me'))
  {
    assert b.procs[p := me][p := me'] == b.procs[p := me'];
    assert b.holder[0 := Some(p)] == [Some(p)];
    Go(s, b, p, me, LockCell(me'), b.(holder := [Some(p)]));
  }

  lemma GoWrite(s: State, b: State, p: Pid, me: Proc, me': Proc, c: Cell)
    requires Inv(s) && Inv(With(b, p, me)) && Leads(s, With(b, p, me)) && |b.cells| == 1
    requires me.lockpos == 0 && CanStep(b, p, me.pc) && Program(me, ViewAt(b, p, 0)) == WriteCell(me', c)
    requires Place(me) == 0
    ensures var b' := b.(cells := [c]); Inv(With(b', p, me')) && Leads(s, With(b', p, me'))
  {
    assert b.procs[p := me][p := me'] == b.procs[p := me'];
    assert b.cells[0 := c] == [c];
    Go(s, b, p, me, WriteCell(me', c), b.(cells := [c]));
  }

  lemma GoUnlock(s: State, b: State, p: Pid, me: Proc, me': Proc)
    requires Inv(s) && Inv(With(b, p, me)) && Leads(s, With(b, p, me)) && b.holder == [Some(p)]
    requires me.lockpos == 0 && me.pc.ClearUnlock? && me' == me.(pc := CloseFile(me.pc.recovery))
    ensures var b' := b.(holder := [None]); Inv(With(b', p, me')) && Leads(s, With(b', p, me'))
  {
    assert b.procs[p := me][p := me'] == b.procs[p := me'];
    assert b.holder[0 := None] == [None];
    Go(s, b, p, me, UnlockCell(me'), b.(holder := [None]));
  }

  lemma GoClose(s: State, b: State, p: Pid, me: Proc, me': Proc)
    requires Inv(s) && Inv(With(b, p, me)) && Leads(s, With(b, p, me)) && b.holder == [None]
    requires me.pc.CloseFile? && me' == me.(pc := DropEnvLock(me.pc.recovery))
    ensures Inv(With(b, p, me')) && Leads(s, With(b, p, me'))
  {
    assert b.procs[p := me][p := me'] == b.procs[p := me'];
    assert Dropped(b.holder, p) == b.holder;
    Go(s, b, p, me, CloseAll(me'), b);
  }

  /** The process ends, by its own exit or by a crash. */
  lemma GoExit(s: State, b: State, p: Pid, me: Proc, e: Event, b': State)
    requires Inv(s) && Inv(With(b, p, me)) && Leads(s, With(b, p, me)) && p !in b.procs && p !in b'.readers
    requires e == Die(p) || (e == Step(p) && me.pc == DropEnvLock(false))
    requires b == b'.(holder := b.holder, readers := b'.readers + {p}) && Dropped(b.holder, p) == b'.holder
    requires b'.writer == None
    ensures Inv(b') && Leads(s, b')
  {
    assert b.procs[p := me] - {p} == b.procs;
    assert b'.readers + {p} - {p} == b'.readers;
    LeadsNext(s, With(b, p, me), e, b');
  }

  /** A file of one cell, free and unlocked, and nobody with the exclusive lock. */
  predicate Quiet(t: State) {
    t.cells == [Free] && t.holder == [None] && t.writer == None
  }

  function Entered(t: State, p: Pid): State {
    With(t.(cells := [InUse], holder := [Some(p)], readers := t.readers + {p}), p, Proc(Running, 0, true, false))
  }

  const FRESH := Proc(ScanRead(Initial, 0), 0, false, false)
  const ONE_CELL := State([Free], [None], {}, None, map[], false)

  lemma Begin(s: State, t: State, p: Pid)
    requires Inv(s) && Leads(s, t) && Inv(t) && |t.cells| == 1 && p !in t.procs
    ensures Inv(With(t, p, FRESH)) && Leads(s, With(t, p, FRESH))
  {
    LeadsNext(s, t, Start(p, 0), With(t, p, FRESH));
  }

  /** dbx_init of an undisturbed process, up to the lock call of set_lock. */
  lemma ReachClaimLock(s: State, t: State, p: Pid)
    requires Inv(s) && Leads(s, t) && Inv(t) && Quiet(t) && p !in t.procs
    ensures var u := With(t.(readers := t.readers + {p}), p, FRESH.(pc := ClaimLock)); Inv(u) && Leads(s, u)
  {
    Begin(s, t, p);
    GoMove(s, t, p, FRESH, FRESH.(pc := ScanRead(Initial, 1)));
    GoMove(s, t, p, FRESH.(pc := ScanRead(Initial, 1)), FRESH.(pc := WantShared));
    GoShared(s, t, p, FRESH.(pc := WantShared), FRESH.(pc := ClaimRead(0)));
    GoMove(s, t.(readers := t.readers + {p}), p, FRESH.(pc := ClaimRead(0)), FRESH.(pc := ClaimLock));
  }

  const RUN := Proc(Running, 0, true, false)

  lemma EnterSession(s: State, t: State, p: Pid)
    requires Inv(s) && Leads(s, t) && Inv(t) && Quiet(t) && p !in t.procs
    ensures Inv(Entered(t, p)) && Leads(s, Entered(t, p))
  {
    ReachClaimLock(s, t, p);
    var t1 := t.(readers := t.readers + {p});
    GoLockCell(s, t1, p, FRESH.(pc := ClaimLock), FRESH.(pc := Recheck));
    var t2 := t1.(holder := [Some(p)]);
    GoMove(s, t2, p, FRESH.(pc := Recheck), FRESH.(pc := ClaimWrite));
    GoWrite(s, t2, p, FRESH.(pc := ClaimWrite), RUN, InUse);
  }

  lemma LeaveFirst(s: State, t: State, p: Pid)
    requires Inv(s) && Quiet(t) && p !in t.procs
    requires Inv(Entered(t, p)) && Leads(s, Entered(t, p))
    ensures var u := With(t.(readers := t.readers + {p}), p, Proc(CloseFile(false), 0, false, false));
      Inv(u) && Leads(s, u)
  {
    var b := t.(cells := [InUse], holder := [Some(p)], readers := t.readers + {p});
    var out := RUN.(pc := ClearWrite(false));
    assert t.procs[p := RUN][p := out] == t.procs[p := out];
    LeadsNext(s, Entered(t, p), Finish(p), With(b, p, out));
    var out1 := Proc(ClearUnlock(false), 0, false, false);
    GoWrite(s, b, p, out, out1, Free);
    GoUnlock(s, b.(cells := [Free]), p, out1, out1.(pc := CloseFile(false)));
  }

  lemma LeaveSession(s: State, t: State, p: Pid)
    requires Inv(s) && Quiet(t) && p !in t.procs && p !in t.readers
    requires Inv(Entered(t, p)) && Leads(s, Entered(t, p))
    ensures Inv(t) && Leads(s, t)
  {
    LeaveFirst(s, t, p);
    var b := t.(readers := t.readers + {p});
    var out := Proc(CloseFile(false), 0, false, false);
    GoClose(s, b, p, out, out.(pc := DropEnvLock(false)));
    assert Dropped([None], p) == [None];
    GoExit(s, b, p, out.(pc := DropEnvLock(false)), Step(p), t);
  }

  lemma Commute<K, V>(m: map<K, V>, p: K, a: V, q: K, b: V)
    requires p != q
    ensures m[p := a][q := b] == m[q := b][p := a]
  {
  }

  /** A process is about to read the byte while q is running; q leaves cleanly
      after the read and before the test of the lock. */
  lemma ScanSeesDepartedOwner(s: State, t: State, p: Pid, q: Pid, me: Proc, me': Proc)
    requires Inv(s) && Quiet(t) && p !in t.procs && q !in t.procs && p != q
    requires me.pc.ScanRead? && me.pc.pos == 0 && me' == me.(pc := ScanTest(me.pc.kind, 0))
    requires Inv(With(t, p, me)) && Leads(s, With(t, p, me))
    ensures Inv(With(t, p, me')) && Leads(s, With(t, p, me'))
  {
    EnterSession(s, With(t, p, me), q);
    var e := With(t.(cells := [InUse], holder := [Some(q)], readers := t.readers + {q}), q, RUN);
    Commute(t.procs, p, me, q, RUN);
    Commute(t.procs, p, me', q, RUN);
    GoMove(s, e, p, me, me');
    assert With(e, p, me') == Entered(With(t, p, me'), q);
    assert q !in t.readers by { assert EnvOk(With(t, p, me)); }
    LeaveSession(s, With(t, p, me'), q);
  }

  lemma OneCell()
    ensures Init(ONE_CELL) && Inv(ONE_CELL) && Leads(ONE_CELL, ONE_CELL)
  {
    assert CanRun(ONE_CELL, []) && StateAt(ONE_CELL, [], 0) == ONE_CELL;
  }

  lemma LoopThenAgain(s: State)
    requires Inv(s) && Quiet(s) && 2 !in s.procs
    requires var t := With(s, 2, FRESH.(pc := ScanTest(Initial, 0))); Inv(t) && Leads(s, t)
    ensures var t := With(s, 2, FRESH.(pc := ScanRead(Again, 0))); Inv(t) && Leads(s, t)
  {
    GoMove(s, s, 2, FRESH.(pc := ScanTest(Initial, 0)), FRESH.(pc := ScanRead(Loop, 0)));
    GoMove(s, s, 2, FRESH.(pc := ScanRead(Loop, 0)), FRESH.(pc := ScanRead(Loop, 1)));
    GoMove(s, s, 2, FRESH.(pc := ScanRead(Loop, 1)), FRESH.(pc := ScanRead(Again, 0)));
  }

  lemma BeginUnlockedRecovery(s: State)
    requires Inv(s) && s == ONE_CELL
    requires var t := With(s, 2, FRESH.(pc := ScanTest(Again, 0))); Inv(t) && Leads(s, t)
    ensures var t := With(s.(raced := true), 2, FRESH.(pc := Wipe)); Inv(t) && Leads(s, t)
  {
    var r := s.(raced := true);
    LeadsNext(s, With(s, 2, FRESH.(pc := ScanTest(Again, 0))), Step(2), With(r, 2, FRESH.(pc := Recovering)));
    GoMove(s, r, 2, FRESH.(pc := Recovering), FRESH.(pc := Wipe));
  }

  /** Recovery without the lock has come to clear_lockfile. */
  lemma ReachUnlockedWipe()
    ensures Inv(ONE_CELL)
    ensures var t := With(ONE_CELL.(raced := true), 2, FRESH.(pc := Wipe)); Inv(t) && Leads(ONE_CELL, t)
  {
    var s := ONE_CELL;
    OneCell();
    Begin(s, s, 2);
    ScanSeesDepartedOwner(s, s, 2, 1, FRESH, FRESH.(pc := ScanTest(Initial, 0)));
    LoopThenAgain(s);
    ScanSeesDepartedOwner(s, s, 2, 3, FRESH.(pc := ScanRead(Again, 0)), FRESH.(pc := ScanTest(Again, 0)));
    BeginUnlockedRecovery(s);
  }

  /** A recovery without the exclusive lock erases the mark of a running
      process, although no process has crashed. */
  lemma RecoveryCanEraseLiveMark() returns (u: State)
    ensures Reachable(u) && Inv(u)
    ensures 2 in u.procs && u.procs[2].pc.Wipe? && u.writer == None && !u.procs[2].loopDirty
    ensures LiveOwner(u, 4, 0) && u.cells == [InUse]
    ensures LiveOwner(Apply(u, Step(2)), 4, 0) && Apply(u, Step(2)).cells == [Free]
  {
    var t := With(ONE_CELL.(raced := true), 2, FRESH.(pc := Wipe));
    OneCell();
    ReachUnlockedWipe();
    EnterSession(ONE_CELL, t, 4);
    u := Entered(t, 4);
    LastWipe(u);
  }

  lemma LastWipe(u: State)
    requires Shape(u) && u == Entered(With(ONE_CELL.(raced := true), 2, FRESH.(pc := Wipe)), 4)
    ensures 2 in u.procs && u.procs[2].pc.Wipe? && u.writer == None && !u.procs[2].loopDirty
    ensures LiveOwner(u, 4, 0) && u.cells == [InUse]
    ensures LiveOwner(Apply(u, Step(2)), 4, 0) && Apply(u, Step(2)).cells == [Free]
  {
    assert u.procs == map[2 := FRESH.(pc := Wipe), 4 := RUN];
  }

  lemma FourSteps(s: State, es: seq<Event>, t1: State, t2: State, t3: State, t4: State)
    requires Inv(s) && |es| == 4
    requires Enabled(s, es[0]) && Apply(s, es[0]) == t1 && Inv(t1)
    requires Enabled(t1, es[1]) && Apply(t1, es[1]) == t2 && Inv(t2)
    requires Enabled(t2, es[2]) && Apply(t2, es[2]) == t3 && Inv(t3)
    requires Enabled(t3, es[3]) && Apply(t3, es[3]) == t4 && Inv(t4)
    ensures CanRun(s, es)
    ensures StateAt(s, es, 0) == s && StateAt(s, es, 1) == t1 && StateAt(s, es, 2) == t2
    ensures StateAt(s, es, 3) == t3 && StateAt(s, es, 4) == t4
  {
    assert CanRun(t4, es[1..][1..][1..][1..]);
    assert CanRun(t3, es[1..][1..][1..]);
    assert CanRun(t2, es[1..][1..]);
    assert CanRun(t1, es[1..]);
    assert CanRun(s, es);
    StateAtNext(s, es, 0);
    StateAtNext(s, es, 1);
    StateAtNext(s, es, 2);
    StateAtNext(s, es, 3);
  }

  lemma StepIs(b: State, p: Pid, me: Proc, f: Effect, b': State)
    requires Inv(With(b, p, me)) && CanStep(b, p, me.pc)
    requires f == Program(me, ViewAt(b, p, Place(me))) && !f.Exit?
    requires With(b', p, f.me) == Perform(With(b, p, me), p, f)
    ensures Inv(With(b', p, f.me)) && Apply(With(b, p, me), Step(p)) == With(b', p, f.me)
  {
    ApplyKeepsInv(With(b, p, me), Step(p));
  }

  lemma ScanPastContender(s: State) returns (t1: State, t2: State)
    requires s == State([InUse], [None], {1}, None, map[1 := FRESH.(pc := ClaimLock), 3 := FRESH], false) && Inv(s)
    ensures t1 == State([InUse], [None], {1}, None,
      map[1 := FRESH.(pc := ClaimLock), 3 := FRESH.(pc := ScanTest(Initial, 0))], false)
    ensures t2 == State([InUse], [Some(1)], {1}, None,
      map[1 := FRESH.(pc := Recheck), 3 := FRESH.(pc := ScanTest(Initial, 0))], false)
    ensures Inv(t1) && Inv(t2) && Apply(s, Step(3)) == t1 && Apply(t1, Step(1)) == t2
    ensures Zombie(s, 0) && Zombie(t1, 0) && Zombie(t2, 0)
  {
    var b := State([InUse], [None], {1}, None, map[1 := FRESH.(pc := ClaimLock)], false);
    t1 := With(b, 3, FRESH.(pc := ScanTest(Initial, 0)));
    assert s == With(b, 3, FRESH);
    assert t1 == Perform(s, 3, Move(FRESH.(pc := ScanTest(Initial, 0))));
    StepIs(b, 3, FRESH, Move(FRESH.(pc := ScanTest(Initial, 0))), b);
    t2 := ContenderLocks(t1);
    MarkBeside(s);
    MarkBeside(t1);
    MarkBeside(t2);
  }

  lemma ContenderLocks(t1: State) returns (t2: State)
    requires t1 == State([InUse], [None], {1}, None,
      map[1 := FRESH.(pc := ClaimLock), 3 := FRESH.(pc := ScanTest(Initial, 0))], false)
    requires Inv(t1)
    ensures t2 == State([InUse], [Some(1)], {1}, None,
      map[1 := FRESH.(pc := Recheck), 3 := FRESH.(pc := ScanTest(Initial, 0))], false)
    ensures Inv(t2) && Apply(t1, Step(1)) == t2
  {
    var b := State([InUse], [None], {1}, None, map[3 := FRESH.(pc := ScanTest(Initial, 0))], false);
    assert t1 == With(b, 1, FRESH.(pc := ClaimLock));
    t2 := With(b.(holder := [Some(1)]), 1, FRESH.(pc := Recheck));
    assert t1.holder[0 := Some(1)] == [Some(1)];
    assert t2 == Perform(t1, 1, LockCell(FRESH.(pc := Recheck)));
    StepIs(b, 1, FRESH.(pc := ClaimLock), LockCell(FRESH.(pc := Recheck)), b.(holder := [Some(1)]));
  }

  lemma ScanEndsClean(t2: State) returns (t3: State, t4: State)
    requires t2 == State([InUse], [Some(1)], {1}, None,
      map[1 := FRESH.(pc := Recheck), 3 := FRESH.(pc := ScanTest(Initial, 0))], false)
    requires Inv(t2)
    ensures t3 == With(t2, 3, FRESH.(pc := ScanRead(Initial, 1))) && t4 == With(t2, 3, FRESH.(pc := WantShared))
    ensures Inv(t3) && Inv(t4) && Apply(t2, Step(3)) == t3 && Apply(t3, Step(3)) == t4
    ensures Zombie(t3, 0) && Zombie(t4, 0)
  {
    t3 := With(t2, 3, FRESH.(pc := ScanRead(Initial, 1)));
    t4 := With(t2, 3, FRESH.(pc := WantShared));
    assert t2 == With(t2, 3, FRESH.(pc := ScanTest(Initial, 0)));
    assert t3 == Perform(t2, 3, Move(FRESH.(pc := ScanRead(Initial, 1))));
    StepIs(t2, 3, FRESH.(pc := ScanTest(Initial, 0)), Move(FRESH.(pc := ScanRead(Initial, 1))), t2);
    assert t4 == Perform(t3, 3, Move(FRESH.(pc := WantShared)));
    StepIs(t2, 3, FRESH.(pc := ScanRead(Initial, 1)), Move(FRESH.(pc := WantShared)), t2);
    MarkBeside(t3);
    MarkBeside(t4);
  }

  lemma ZombieThroughout(s: State, e0: Event, t1: State, e1: Event, t2: State, e2: Event, t3: State, e3: Event,
                         t4: State)
    returns (es: seq<Event>)
    requires Inv(s) && Enabled(s, e0) && Apply(s, e0) == t1 && Inv(t1)
    requires Enabled(t1, e1) && Apply(t1, e1) == t2 && Inv(t2)
    requires Enabled(t2, e2) && Apply(t2, e2) == t3 && Inv(t3)
    requires Enabled(t3, e3) && Apply(t3, e3) == t4 && Inv(t4)
    requires Zombie(s, 0) && Zombie(t1, 0) && Zombie(t2, 0) && Zombie(t3, 0) && Zombie(t4, 0)
    ensures CanRun(s, es) && StateAt(s, es, |es|) == t4
    ensures forall k: nat | k <= |es| :: Zombie(StateAt(s, es, k), 0)
  {
    es := [e0, e1, e2, e3];
    FourSteps(s, es, t1, t2, t3, t4);
    forall k: nat | k <= |es| ensures Zombie(StateAt(s, es, k), 0) {
      assert k == 0 || k == 1 || k == 2 || k == 3 || k == 4;
    }
  }

  lemma WholeScan() returns (s: State, t1: State, t2: State, t3: State, t4: State)
    ensures Reachable(s) && Inv(s)
    ensures Enabled(s, Step(3)) && Apply(s, Step(3)) == t1 && Inv(t1)
    ensures Enabled(t1, Step(1)) && Apply(t1, Step(1)) == t2 && Inv(t2)
    ensures Enabled(t2, Step(3)) && Apply(t2, Step(3)) == t3 && Inv(t3)
    ensures Enabled(t3, Step(3)) && Apply(t3, Step(3)) == t4 && Inv(t4)
    ensures Zombie(s, 0) && Zombie(t1, 0) && Zombie(t2, 0) && Zombie(t3, 0) && Zombie(t4, 0)
    ensures 3 in s.procs && s.procs[3].pc == ScanRead(Initial, 0)
    ensures 3 in t4.procs && t4.procs[3].pc == WantShared
  {
    s := CrashBesideContender();
    t1, t2 := ScanPastContender(s);
    t3, t4 := ScanEndsClean(t2);
  }

  lemma MarkBeside(t: State)
    requires Shape(t) && t.cells == [InUse] && t.procs.Keys == {1, 3}
    requires !Owns(t.procs[1]) && !Owns(t.procs[3])
    ensures Zombie(t, 0)
  {
  }

  lemma CrashInSession(s: State, a: State)
    requires Inv(s) && Leads(s, a) && Inv(a) && Quiet(a) && 2 !in a.procs && 2 !in a.readers
    ensures var u := a.(cells := [InUse]); Inv(u) && Leads(s, u)
  {
    EnterSession(s, a, 2);
    var b := a.(cells := [InUse], holder := [Some(2)], readers := a.readers + {2});
    assert Dropped([Some(2)], 2) == [None];
    GoExit(s, b, 2, RUN, Die(2), a.(cells := [InUse]));
  }

  lemma CrashBesideContender() returns (s: State)
    ensures s == State([InUse], [None], {1}, None, map[1 := FRESH.(pc := ClaimLock), 3 := FRESH], false)
    ensures Inv(s) && Reachable(s)
  {
    var s0 := ONE_CELL;
    OneCell();
    ReachClaimLock(s0, s0, 1);
    var a := With(s0.(readers := s0.readers + {1}), 1, FRESH.(pc := ClaimLock));
    CrashInSession(s0, a);
    Begin(s0, a.(cells := [InUse]), 3);
    s := With(a.(cells := [InUse]), 3, FRESH);
  }

  /** A scan that starts and ends while the byte is the mark of a crashed
      process reports no zombie, because a claimer locks the byte in between. */
  lemma ScanCanMissZombie() returns (s: State, es: seq<Event>)
    ensures Reachable(s) && Inv(s) && CanRun(s, es)
    ensures 3 in s.procs && s.procs[3].pc == ScanRead(Initial, 0)
    ensures forall k: nat | k <= |es| :: Zombie(StateAt(s, es, k), 0)
    ensures 3 in StateAt(s, es, |es|).procs && StateAt(s, es, |es|).procs[3].pc == WantShared
  {
    var t1, t2, t3, t4;
    s, t1, t2, t3, t4 := WholeScan();
    es := ZombieThroughout(s, Step(3), t1, Step(1), t2, Step(3), t3, Step(3), t4);
  }
}
