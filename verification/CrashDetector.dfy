// The crash detector of the transactional store: the cell file of db_lock.c
// together with the environment lock of datastore_db_trans.c.
//
// Any number of processes run the same program.  One event is one system
// call (read, write, lock, unlock) or one return into the caller; between any
// two events every other process may move, and a process may die before any
// of its events.  Death drops all locks of the process and keeps every byte.
//
// Program says what one process does next, given what the system call shows
// it; Perform says what that does to the shared files and locks.

module CrashDetector {
  import opened Options

  type Pid = nat

  /** A byte of the cell file: '0' or '1'. */
  datatype Cell = Free | InUse

  /** Which call of needs_recovery a scan belongs to. */
  datatype ScanKind =
    | Initial  // in dbx_init
    | Loop     // the loop condition of dbx_recover
    | Again    // the second test in dbx_recover
    | Watch    // the periodic check of a running process

  /** The program counter, named after the system call that comes next. */
  datatype PC =
    | ScanRead(kind: ScanKind, pos: nat)
    | ScanTest(kind: ScanKind, pos: nat)
    | WantExclusive
    | Recovering
    | Wipe
    | WantShared
    | ClaimRead(pos: nat)
    | ClaimLock
    | Recheck
    | BackOut
    | ClaimWrite
    | Running
    | ClearWrite(recovery: bool)
    | ClearUnlock(recovery: bool)
    | CloseFile(recovery: bool)
    | DropEnvLock(recovery: bool)

  /** The variables of one process: lockpos and locked of db_lock.c, and
      whether the loop of dbx_recover saw a zombie (and so asked for the
      exclusive lock). */
  datatype Proc = Proc(pc: PC, lockpos: nat, locked: bool, loopDirty: bool)

  /** What a system call shows: the end of the file, the byte, and whether
      another process holds the lock of that byte. */
  datatype View = View(eof: bool, cell: Cell, foreign: bool)

  datatype Effect =
    | Exit
    | Move(me: Proc)
    | WriteCell(me: Proc, cell: Cell)
    | WriteAllFree(me: Proc)
    | LockCell(me: Proc)
    | UnlockCell(me: Proc)
    | CloseAll(me: Proc)
    | LockExclusive(me: Proc)
    | LockShared(me: Proc)
    | UnlockEnv(me: Proc)

  // ----- the program of one process -----

  /** The byte the next system call is about. */
  function Place(me: Proc): nat {
    match me.pc
    case ScanRead(_, pos) => pos
    case ScanTest(_, pos) => pos
    case ClaimRead(pos) => pos
    case _ => me.lockpos
  }

  /** What the caller of needs_recovery does when the scan reports a zombie. */
  function AfterDirty(me: Proc, kind: ScanKind): Effect {
    match kind
    case Initial => Move(me.(pc := ScanRead(Loop, 0)))
    case Loop => Move(me.(pc := WantExclusive, loopDirty := true))
    case Again => Move(me.(pc := Recovering))
    case Watch => Exit
  }

  /** ... and when it reaches the end of the file without one. */
  function AfterClean(me: Proc, kind: ScanKind): Effect {
    match kind
    case Initial => Move(me.(pc := WantShared))
    case Loop => Move(me.(pc := ScanRead(Again, 0), loopDirty := false))
    case Again => Move(me.(pc := WantShared))
    case Watch => Move(me.(pc := Running))
  }

  /** check_celllock: the own lock is recognised by position, others by F_GETLK. */
  predicate SeesLock(me: Proc, pos: nat, foreign: bool) {
    (pos == me.lockpos && me.locked) || foreign
  }

  function Program(me: Proc, v: View): Effect {
    match me.pc
    // check_zombies
    case ScanRead(kind, pos) =>
      if v.eof then AfterClean(me, kind)
      else if v.cell == InUse then Move(me.(pc := ScanTest(kind, pos)))
      else Move(me.(pc := ScanRead(kind, pos + 1)))
    case ScanTest(kind, pos) =>
      if !SeesLock(me, pos, v.foreign) then AfterDirty(me, kind)
      else Move(me.(pc := ScanRead(kind, pos + 1)))
    // dbx_recover
    case WantExclusive => LockExclusive(me.(pc := ScanRead(Again, 0)))
    case Recovering => Move(me.(pc := Wipe))
    case Wipe => WriteAllFree(me.(pc := ClearWrite(true)))
    // dbx_init sets or demotes to the shared lock
    case WantShared => LockShared(me.(pc := ClaimRead(0), loopDirty := false))
    // set_lock
    case ClaimRead(pos) =>
      if v.eof then Exit
      else Move(me.(lockpos := pos, pc := if v.cell == Free then ClaimLock else ClaimRead(pos + 1)))
    case ClaimLock =>
      if v.foreign then Move(me.(pc := ClaimRead(me.lockpos + 1)))
      else LockCell(me.(pc := Recheck))
    case Recheck => Move(me.(pc := if v.cell == Free then ClaimWrite else BackOut))
    case BackOut => Exit
    case ClaimWrite => WriteCell(me.(pc := Running, locked := true), InUse)
    case Running => Move(me)
    // clear_lock, then the environment lock
    case ClearWrite(r) => WriteCell(me.(pc := ClearUnlock(r), locked := false), Free)
    case ClearUnlock(r) => UnlockCell(me.(pc := CloseFile(r)))
    case CloseFile(r) => CloseAll(me.(pc := DropEnvLock(r)))
    case DropEnvLock(r) => if r then UnlockEnv(me.(pc := WantShared, loopDirty := false)) else Exit
  }

  // ----- the shared files and locks -----

  /** holder is the fcntl lock of each byte; readers and writer are the
      environment lock; raced records that some recovery began without the
      exclusive lock. */
  datatype State = State(
    cells: seq<Cell>,
    holder: seq<Option<Pid>>,
    readers: set<Pid>,
    writer: Option<Pid>,
    procs: map<Pid, Proc>,
    raced: bool)

  datatype Event =
    | Start(pid: Pid, stale: nat)  // enter dbx_init; lockpos may be left from an earlier session
    | Step(pid: Pid)               // the next system call
    | Finish(pid: Pid)             // a running process begins dbx_cleanup
    | Alarm(pid: Pid)              // a running process begins its periodic check
    | Die(pid: Pid)

  ghost predicate Init(s: State) {
    && |s.cells| > 0
    && s.cells == seq(|s.cells|, i => Free)
    && s.holder == seq(|s.cells|, i => None)
    && s.readers == {} && s.writer == None && s.procs == map[] && !s.raced
  }

  predicate Shape(s: State) {
    && |s.holder| == |s.cells| > 0
    && (forall p | p in s.procs :: s.procs[p].lockpos < |s.cells|)
  }

  function ViewAt(s: State, p: Pid, pos: nat): View
    requires |s.holder| == |s.cells|
  {
    if pos >= |s.cells| then View(true, Free, false)
    else View(false, s.cells[pos], s.holder[pos].Some? && s.holder[pos] != Some(p))
  }

  function EffectOf(s: State, p: Pid): Effect
    requires Shape(s) && p in s.procs
  {
    Program(s.procs[p], ViewAt(s, p, Place(s.procs[p])))
  }

  function Dropped(holder: seq<Option<Pid>>, p: Pid): seq<Option<Pid>> {
    seq(|holder|, i requires 0 <= i < |holder| => if holder[i] == Some(p) then None else holder[i])
  }

  function NoWriter(w: Option<Pid>, p: Pid): Option<Pid> {
    if w == Some(p) then None else w
  }

  function Perform(s: State, p: Pid, f: Effect): State
    requires Shape(s) && p in s.procs
  {
    match f
    case Exit =>
      s.(holder := Dropped(s.holder, p), readers := s.readers - {p}, writer := NoWriter(s.writer, p),
         procs := s.procs - {p})
    case Move(me) =>
      s.(procs := s.procs[p := me], raced := s.raced || (me.pc.Recovering? && s.writer != Some(p)))
    case WriteCell(me, c) =>
      s.(procs := s.procs[p := me], cells := s.cells[s.procs[p].lockpos := c])
    case WriteAllFree(me) =>
      s.(procs := s.procs[p := me], cells := seq(|s.cells|, i => Free))
    case LockCell(me) =>
      s.(procs := s.procs[p := me], holder := s.holder[s.procs[p].lockpos := Some(p)])
    case UnlockCell(me) =>
      s.(procs := s.procs[p := me],
         holder := s.holder[s.procs[p].lockpos := NoWriter(s.holder[s.procs[p].lockpos], p)])
    case CloseAll(me) =>
      s.(procs := s.procs[p := me], holder := Dropped(s.holder, p))
    case LockExclusive(me) =>
      s.(procs := s.procs[p := me], readers := s.readers - {p}, writer := Some(p))
    case LockShared(me) =>
      s.(procs := s.procs[p := me], readers := s.readers + {p}, writer := NoWriter(s.writer, p))
    case UnlockEnv(me) =>
      s.(procs := s.procs[p := me], readers := s.readers - {p}, writer := NoWriter(s.writer, p))
  }

  /** The two waiting lock calls are held up by the other kind of lock; a
      running process has no call of its own to make. */
  predicate CanStep(s: State, p: Pid, pc: PC) {
    match pc
    case WantExclusive => s.readers <= {p} && NoWriter(s.writer, p) == None
    case WantShared => NoWriter(s.writer, p) == None
    case Running => false
    case _ => true
  }

  predicate Enabled(s: State, e: Event) {
    match e
    case Start(p, stale) => p !in s.procs && stale < |s.cells|
    case Step(p) => p in s.procs && CanStep(s, p, s.procs[p].pc)
    case Finish(p) => p in s.procs && s.procs[p].pc.Running?
    case Alarm(p) => p in s.procs && s.procs[p].pc.Running?
    case Die(p) => p in s.procs
  }

  function Apply(s: State, e: Event): State
    requires Shape(s) && Enabled(s, e)
  {
    match e
    case Start(p, stale) => s.(procs := s.procs[p := Proc(ScanRead(Initial, 0), stale, false, false)])
    case Step(p) => Perform(s, p, EffectOf(s, p))
    case Finish(p) => Perform(s, p, Move(s.procs[p].(pc := ClearWrite(false))))
    case Alarm(p) => Perform(s, p, Move(s.procs[p].(pc := ScanRead(Watch, 0))))
    case Die(p) => Perform(s, p, Exit)
  }

  // ----- the invariant -----

  predicate Scans(pc: PC, kind: ScanKind) {
    (pc.ScanRead? || pc.ScanTest?) && pc.kind == kind
  }

  predicate Clears(pc: PC, recovery: bool) {
    (pc.ClearWrite? || pc.ClearUnlock? || pc.CloseFile? || pc.DropEnvLock?) && pc.recovery == recovery
  }

  /** The process is between the write of set_lock and the write of clear_lock. */
  predicate Owns(me: Proc) {
    me.pc.Running? || me.pc == ClearWrite(false) || Scans(me.pc, Watch)
  }

  /** The process holds the byte lock of the cell at its lockpos. */
  predicate HoldsCell(me: Proc) {
    me.pc.Recheck? || me.pc.BackOut? || me.pc.ClaimWrite? || me.pc == ClearUnlock(false) || Owns(me)
  }

  /** The process is inside the recovery part of dbx_recover. */
  predicate InRecovery(me: Proc) {
    me.pc.Recovering? || me.pc.Wipe? || Clears(me.pc, true)
  }

  /** The process holds the shared environment lock. */
  predicate InSession(me: Proc) {
    me.pc.ClaimRead? || me.pc.ClaimLock? || me.pc.Recheck? || me.pc.BackOut? || me.pc.ClaimWrite?
    || me.pc.Running? || Scans(me.pc, Watch) || Clears(me.pc, false)
  }

  /** The process holds the exclusive environment lock. */
  predicate Excludes(me: Proc) {
    me.loopDirty && (InRecovery(me) || me.pc.WantShared? || Scans(me.pc, Again))
  }

  /** What holds of one process, given whether it holds the lock of its cell,
      the byte of that cell, and which environment lock it holds. */
  predicate LocalOk(me: Proc, mine: bool, cell: Cell, shares: bool, writes: bool, raced: bool) {
    && (HoldsCell(me) ==> mine)
    && (me.pc.ClaimWrite? || me.pc == ClearUnlock(false) ==> cell == Free)
    && (me.locked <==> Owns(me))
    && (InSession(me) <==> shares)
    && (Excludes(me) <==> writes)
    && (me.pc.WantExclusive? ==> me.loopDirty)
    && (Scans(me.pc, Initial) ==> !me.loopDirty)
    && (!raced && Owns(me) ==> cell == InUse)
    && (!raced && InRecovery(me) ==> me.loopDirty)
  }

  predicate ProcOk(s: State, p: Pid)
    requires Shape(s) && p in s.procs
  {
    var me := s.procs[p];
    LocalOk(me, s.holder[me.lockpos] == Some(p), s.cells[me.lockpos], p in s.readers, s.writer == Some(p), s.raced)
  }

  predicate LockOk(s: State, i: nat)
    requires Shape(s) && i < |s.cells|
  {
    s.holder[i].Some? ==>
      var q := s.holder[i].value;
      q in s.procs && HoldsCell(s.procs[q]) && s.procs[q].lockpos == i
  }

  predicate EnvOk(s: State) {
    && (forall p | p in s.readers :: p in s.procs)
    && (s.writer.Some? ==> s.writer.value in s.procs && s.readers == {})
  }

  predicate Inv(s: State) {
    && Shape(s)
    && (forall p | p in s.procs :: ProcOk(s, p))
    && (forall i: nat | i < |s.cells| :: LockOk(s, i))
    && EnvOk(s)
  }

  /** What every effect of the program guarantees, in the terms of LocalOk. */
  predicate EffectOk(me: Proc, f: Effect, cell: Cell, shares: bool, writes: bool, raced: bool) {
    && (f.Exit? || f.Move? || f.me.lockpos == me.lockpos)
    && match f
       case Exit => true
       case Move(me') =>
         && (HoldsCell(me') <==> HoldsCell(me))
         && (HoldsCell(me) ==> me'.lockpos == me.lockpos)
         && LocalOk(me', HoldsCell(me'), cell, shares, writes, raced || (me'.pc.Recovering? && !writes))
       case WriteCell(me', c) =>
         && (HoldsCell(me') <==> HoldsCell(me))
         && (HoldsCell(me) || (c == Free && (raced || writes)))
         && LocalOk(me', HoldsCell(me'), c, shares, writes, raced)
       case WriteAllFree(me') =>
         && !HoldsCell(me) && !HoldsCell(me') && (raced || writes)
         && LocalOk(me', false, Free, shares, writes, raced)
       case LockCell(me') =>
         && !HoldsCell(me) && HoldsCell(me')
         && LocalOk(me', true, cell, shares, writes, raced)
       case UnlockCell(me') => !HoldsCell(me') && LocalOk(me', false, cell, shares, writes, raced)
       case CloseAll(me') => !HoldsCell(me') && LocalOk(me', false, cell, shares, writes, raced)
       case LockExclusive(me') => !HoldsCell(me) && LocalOk(me', false, cell, false, true, raced)
       case LockShared(me') => !HoldsCell(me) && LocalOk(me', false, cell, true, false, raced)
       case UnlockEnv(me') => !HoldsCell(me) && LocalOk(me', false, cell, false, false, raced)
  }

  lemma ScanGuarantees(me: Proc, v: View, cell: Cell, shares: bool, writes: bool, raced: bool)
    requires LocalOk(me, HoldsCell(me), cell, shares, writes, raced)
    requires me.pc.ScanRead? || me.pc.ScanTest?
    ensures EffectOk(me, Program(me, v), cell, shares, writes, raced)
  {
  }

  lemma ClaimGuarantees(me: Proc, v: View, cell: Cell, shares: bool, writes: bool, raced: bool)
    requires LocalOk(me, HoldsCell(me), cell, shares, writes, raced)
    requires me.pc.ClaimRead? || me.pc.ClaimLock? || me.pc.Recheck? || me.pc.BackOut? || me.pc.ClaimWrite?
    requires me.pc.ClaimRead? || v.cell == cell
    ensures EffectOk(me, Program(me, v), cell, shares, writes, raced)
  {
  }

  lemma ProgramGuarantees(me: Proc, v: View, cell: Cell, shares: bool, writes: bool, raced: bool)
    requires LocalOk(me, HoldsCell(me), cell, shares, writes, raced)
    requires Place(me) == me.lockpos ==> v.cell == cell
    ensures EffectOk(me, Program(me, v), cell, shares, writes, raced)
  {
    if me.pc.ScanRead? || me.pc.ScanTest? {
      ScanGuarantees(me, v, cell, shares, writes, raced);
    } else if me.pc.ClaimRead? || me.pc.ClaimLock? || me.pc.Recheck? || me.pc.BackOut? || me.pc.ClaimWrite? {
      ClaimGuarantees(me, v, cell, shares, writes, raced);
    }
  }

  predicate Performs(s: State, p: Pid, f: Effect) {
    && Inv(s) && p in s.procs
    && EffectOk(s.procs[p], f, s.cells[s.procs[p].lockpos], p in s.readers, s.writer == Some(p), s.raced)
    && (f.Exit? || f.me.lockpos < |s.cells|)
    && (f.LockCell? ==> NoWriter(s.holder[s.procs[p].lockpos], p) == None)
    && (f.LockExclusive? ==> s.readers <= {p} && NoWriter(s.writer, p) == None)
    && (f.LockShared? ==> NoWriter(s.writer, p) == None)
  }

  lemma SelfOk(s: State, p: Pid, f: Effect)
    requires Performs(s, p, f)
    ensures Shape(Perform(s, p, f))
    ensures !f.Exit? ==> ProcOk(Perform(s, p, f), p)
  {
    assert ProcOk(s, p);
  }

  lemma OtherOk(s: State, p: Pid, f: Effect, q: Pid)
    requires Performs(s, p, f) && q in s.procs && q != p && Shape(Perform(s, p, f))
    ensures ProcOk(Perform(s, p, f), q)
  {
    assert ProcOk(s, p);
    assert ProcOk(s, q);
  }

  lemma LocksOk(s: State, p: Pid, f: Effect, i: nat)
    requires Performs(s, p, f) && i < |s.cells| && Shape(Perform(s, p, f))
    ensures LockOk(Perform(s, p, f), i)
  {
    assert ProcOk(s, p);
    assert LockOk(s, i);
  }

  lemma EnvLockOk(s: State, p: Pid, f: Effect)
    requires Performs(s, p, f) && Shape(Perform(s, p, f))
    ensures EnvOk(Perform(s, p, f))
  {
    assert ProcOk(s, p);
  }

  lemma PerformKeepsInv(s: State, p: Pid, f: Effect)
    requires Performs(s, p, f)
    ensures Inv(Perform(s, p, f))
  {
    SelfOk(s, p, f);
    var s' := Perform(s, p, f);
    forall q | q in s'.procs && q != p ensures ProcOk(s', q) { OtherOk(s, p, f, q); }
    forall i: nat | i < |s'.cells| ensures LockOk(s', i) { LocksOk(s, p, f, i); }
    EnvLockOk(s, p, f);
  }

  lemma StepPerforms(s: State, p: Pid)
    requires Inv(s) && Enabled(s, Step(p))
    ensures Performs(s, p, EffectOf(s, p))
  {
    assert ProcOk(s, p);
    var me := s.procs[p];
    ProgramGuarantees(me, ViewAt(s, p, Place(me)), s.cells[me.lockpos], p in s.readers, s.writer == Some(p), s.raced);
  }

  lemma StartKeepsInv(s: State, p: Pid, stale: nat)
    requires Inv(s) && Enabled(s, Start(p, stale))
    ensures Inv(Apply(s, Start(p, stale)))
  {
    var s' := Apply(s, Start(p, stale));
    forall q | q in s'.procs ensures ProcOk(s', q) { if q != p { assert ProcOk(s, q); } }
    forall i: nat | i < |s'.cells| ensures LockOk(s', i) { assert LockOk(s, i); }
  }

  lemma ApplyKeepsInv(s: State, e: Event)
    requires Inv(s) && Enabled(s, e)
    ensures Inv(Apply(s, e)) && |Apply(s, e).cells| == |s.cells|
  {
    match e
    case Start(p, stale) => StartKeepsInv(s, p, stale);
    case Step(p) =>
      StepPerforms(s, p);
      PerformKeepsInv(s, p, EffectOf(s, p));
    case Finish(p) =>
      assert ProcOk(s, p);
      PerformKeepsInv(s, p, Move(s.procs[p].(pc := ClearWrite(false))));
    case Alarm(p) =>
      assert ProcOk(s, p);
      PerformKeepsInv(s, p, Move(s.procs[p].(pc := ScanRead(Watch, 0))));
    case Die(p) => PerformKeepsInv(s, p, Exit);
  }

  lemma InitHasInv(s: State)
    requires Init(s)
    ensures Inv(s)
  {
  }
}
