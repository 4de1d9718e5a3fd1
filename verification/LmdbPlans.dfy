// Whole transactions on a plain map, and what LMDB must answer for one of
// them to be committed.

module LmdbPlans {
  import opened Options
  import opened ReplayLog
  import opened LmdbCalls

  type Table = map<Bytes, Bytes>

  datatype Op = SetOp(key: Bytes, val: Bytes) | DelOp(key: Bytes) | GetOp(key: Bytes)

  datatype Answer = Status(code: int) | Value(found: Option<Bytes>)

  /** What an operation does to a plain map; keys over the limit are ignored. */
  function OpEffect(t: Table, op: Op, limit: nat): Table {
    if |op.key| > limit then t
    else match op
      case SetOp(k, v) => t[k := v]
      case DelOp(k) => t - {k}
      case GetOp(_) => t
  }

  function OpAnswer(t: Table, op: Op, limit: nat): Answer {
    match op
    case SetOp(_, _) => Status(0)
    case DelOp(k) => Status(if |k| <= limit && k !in t then -1 else 0)
    case GetOp(k) => Value(if |k| > limit || k !in t then None else Some(t[k]))
  }

  function Final(t: Table, ops: seq<Op>, limit: nat): Table {
    if ops == [] then t else OpEffect(Final(t, ops[..|ops| - 1], limit), ops[|ops| - 1], limit)
  }

  function Answers(t: Table, ops: seq<Op>, limit: nat): seq<Answer> {
    if ops == [] then []
    else Answers(t, ops[..|ops| - 1], limit) + [OpAnswer(Final(t, ops[..|ops| - 1], limit), ops[|ops| - 1], limit)]
  }

  // ----- which answers let a transaction through -----

  /** The operation leaves an entry in the log. */
  predicate Changes(t: Table, op: Op, limit: nat) {
    |op.key| <= limit &&
    match op
    case SetOp(_, _) => true
    case DelOp(k) => k in t
    case GetOp(_) => false
  }

  /** A value that does not fit the buffer of a read ends the program. */
  predicate TooLong(t: Table, op: Op, limit: nat) {
    op.GetOp? && |op.key| <= limit && op.key in t && |t[op.key]| > 12
  }

  /** A put or a delete that has something to change, with a log of n entries. */
  function Attempt(changes: bool, n: nat, e: Env): Option<Env> {
    if changes then Tried(n, false, GROW_TRIES, e) else Some(e)
  }

  /** A transaction in progress: how it reads, how many entries its log has,
      and what lies ahead. */
  datatype Standing = Standing(txn: Table, logged: nat, ahead: Env)

  /** One operation, if the program survives it. */
  function Step(st: Standing, op: Op, limit: nat): Option<Standing> {
    var changes := Changes(st.txn, op, limit);
    if TooLong(st.txn, op, limit) then None
    else
      match Attempt(changes, st.logged, st.ahead)
      case None => None
      case Some(f) => Some(Standing(OpEffect(st.txn, op, limit), st.logged + if changes then 1 else 0, f))
  }

  lemma SetStep(st: Standing, k: Bytes, v: Bytes, limit: nat)
    ensures Step(st, SetOp(k, v), limit) ==
      if |k| > limit then Some(st)
      else
        match Tried(st.logged, false, GROW_TRIES, st.ahead)
        case None => None
        case Some(f) => Some(Standing(st.txn[k := v], st.logged + 1, f))
  {
  }

  lemma DelStep(st: Standing, k: Bytes, limit: nat)
    ensures Step(st, DelOp(k), limit) ==
      if |k| > limit then Some(st)
      else
        match Attempt(k in st.txn, st.logged, st.ahead)
        case None => None
        case Some(f) => Some(Standing(st.txn - {k}, st.logged + if k in st.txn then 1 else 0, f))
  {
  }

  function Steps(st: Standing, ops: seq<Op>, limit: nat): Option<Standing> {
    if ops == [] then Some(st)
    else
      match Steps(st, ops[..|ops| - 1], limit)
      case None => None
      case Some(now) => Step(now, ops[|ops| - 1], limit)
  }

  predicate Commits(st: Standing, ops: seq<Op>, limit: nat) {
    match Steps(st, ops, limit)
    case None => false
    case Some(end) => Tried(end.logged, true, GROW_TRIES, end.ahead).Some?
  }

  lemma {:induction false} StepsFinal(st: Standing, ops: seq<Op>, limit: nat)
    requires Steps(st, ops, limit).Some?
    ensures Steps(st, ops, limit).value.txn == Final(st.txn, ops, limit)
  {
    if ops != [] { StepsFinal(st, ops[..|ops| - 1], limit); }
  }

  /** What one more operation adds. */
  lemma StepsNext(st: Standing, ops: seq<Op>, limit: nat, i: nat)
    requires i < |ops|
    ensures Answers(st.txn, ops[..i + 1], limit)
      == Answers(st.txn, ops[..i], limit) + [OpAnswer(Final(st.txn, ops[..i], limit), ops[i], limit)]
    ensures Steps(st, ops[..i + 1], limit) ==
      match Steps(st, ops[..i], limit)
      case None => None
      case Some(now) => Step(now, ops[i], limit)
  {
    assert ops[..i + 1][..i] == ops[..i];
  }

  lemma {:induction false} StepsNot(st: Standing, ops: seq<Op>, limit: nat, i: nat)
    requires i <= |ops| && Steps(st, ops[..i], limit) == None
    ensures Steps(st, ops, limit) == None
    decreases |ops| - i
  {
    if i < |ops| {
      StepsNext(st, ops, limit, i);
      StepsNot(st, ops, limit, i + 1);
    } else {
      assert ops[..i] == ops;
    }
  }

  /** No value is longer than the buffer of a read. */
  predicate Short(t: Table) {
    forall k | k in t :: |t[k]| <= 12
  }

  predicate ShortSets(ops: seq<Op>) {
    forall i | 0 <= i < |ops| && ops[i].SetOp? :: |ops[i].val| <= 12
  }

  predicate AllOk(c: seq<Rc>) {
    forall i | 0 <= i < |c| :: c[i] == Ok
  }

  /** If no call fails every transaction is committed. */
  lemma {:induction false} NothingFails(st: Standing, ops: seq<Op>, limit: nat)
    requires AllOk(st.ahead.calls) && Short(st.txn) && ShortSets(ops)
    ensures Steps(st, ops, limit).Some?
    ensures AllOk(Steps(st, ops, limit).value.ahead.calls) && Short(Steps(st, ops, limit).value.txn)
    ensures Commits(st, ops, limit)
    decreases |ops|
  {
    if ops != [] { NothingFails(st, ops[..|ops| - 1], limit); }
  }

  // ----- plans -----

  /** One operation whose meetings with a full map are rs. */
  ghost function PlannedStep(st: Standing, op: Op, limit: nat, rs: seq<Round>): Option<Standing> {
    if TooLong(st.txn, op, limit) then None
    else if !Changes(st.txn, op, limit) then Some(Standing(OpEffect(st.txn, op, limit), st.logged, st.ahead))
    else if Reads(st.logged, false, 3, st.ahead, rs)
    then Some(Standing(OpEffect(st.txn, op, limit), st.logged + 1, After(st.logged, st.ahead, rs)))
    else None
  }

  /** For each operation, its meetings with a full map. */
  type Plan = seq<seq<Round>>

  /** The operations, if the answers of LMDB go as planned: those of each
      operation are read one after the other. */
  ghost function Planned(st: Standing, ops: seq<Op>, limit: nat, plan: Plan): Option<Standing>
    requires |plan| == |ops|
  {
    if ops == [] then Some(st)
    else
      match Planned(st, ops[..|ops| - 1], limit, plan[..|ops| - 1])
      case None => None
      case Some(now) => PlannedStep(now, ops[|ops| - 1], limit, plan[|ops| - 1])
  }

  lemma StepPlan(st: Standing, op: Op, limit: nat) returns (rs: seq<Round>)
    requires Step(st, op, limit).Some?
    ensures PlannedStep(st, op, limit, rs) == Step(st, op, limit)
  {
    rs := [];
    if Changes(st.txn, op, limit) { rs := TriedReads(st.logged, false, 3, st.ahead); }
  }

  lemma PlanStep(st: Standing, op: Op, limit: nat, rs: seq<Round>)
    requires PlannedStep(st, op, limit, rs).Some?
    ensures Step(st, op, limit) == PlannedStep(st, op, limit, rs)
  {
    if Changes(st.txn, op, limit) { ReadsTried(st.logged, false, 3, st.ahead, rs); }
  }

  lemma {:induction false} StepsPlan(st: Standing, ops: seq<Op>, limit: nat) returns (plan: Plan)
    requires Steps(st, ops, limit).Some?
    ensures |plan| == |ops| && Planned(st, ops, limit, plan) == Steps(st, ops, limit)
    decreases |ops|
  {
    plan := [];
    if ops != [] {
      var m := |ops| - 1;
      plan := StepsPlan(st, ops[..m], limit);
      var rs := StepPlan(Steps(st, ops[..m], limit).value, ops[m], limit);
      assert (plan + [rs])[..m] == plan;
      plan := plan + [rs];
    }
  }

  lemma {:induction false} PlanSteps(st: Standing, ops: seq<Op>, limit: nat, plan: Plan)
    requires |plan| == |ops| && Planned(st, ops, limit, plan).Some?
    ensures Steps(st, ops, limit) == Planned(st, ops, limit, plan)
    decreases |ops|
  {
    if ops != [] {
      var m := |ops| - 1;
      PlanSteps(st, ops[..m], limit, plan[..m]);
      PlanStep(Planned(st, ops[..m], limit, plan[..m]).value, ops[m], limit, plan[m]);
    }
  }

  /** The answers of a whole transaction: those of its operations, and then
      those of the commit, which may also find the map resized. */
  ghost predicate GoesThrough(st: Standing, ops: seq<Op>, limit: nat, plan: Plan, last: seq<Round>) {
    |plan| == |ops| &&
    match Planned(st, ops, limit, plan)
    case None => false
    case Some(end) => Reads(end.logged, true, 3, end.ahead, last)
  }

  /** A transaction is committed exactly if the answers of LMDB read like this. */
  lemma CommitsMeaning(st: Standing, ops: seq<Op>, limit: nat)
    ensures Commits(st, ops, limit) <==> exists plan, last :: GoesThrough(st, ops, limit, plan, last)
  {
    if Commits(st, ops, limit) {
      var plan := StepsPlan(st, ops, limit);
      var end := Steps(st, ops, limit).value;
      var last := TriedReads(end.logged, true, 3, end.ahead);
      assert GoesThrough(st, ops, limit, plan, last);
    }
    if plan, last :| GoesThrough(st, ops, limit, plan, last) {
      var end := Planned(st, ops, limit, plan).value;
      PlanSteps(st, ops, limit, plan);
      ReadsTried(end.logged, true, 3, end.ahead, last);
    }
  }
}
