// The registration loop of register.c over a transactional store.  Any call to
// the store may find the transaction rolled back to resolve a deadlock; the
// loop then begins again from what is committed by that time.

module Register {
  import opened Words
  import opened Options
  import opened Datastore
  import opened Schedules
  import opened HashNodes
  import opened ListSort
  import WordHash
  import opened Registration

  datatype Rc = Found | NotFound | AbortRetry | Error

  /** The outcomes of calls that a returned code stands for. */
  function OutcomeOf(rc: Rc): Outcome {
    match rc
    case AbortRetry => Deadlock
    case Error => Broken
    case _ => Fine
  }

  /** A handle on the store as the current transaction sees it.  The n-th
      transaction begins from world(n), the writes others have committed by
      then; the schedule lists what the coming calls meet. */
  class Handle {
    const store: Store
    const world: nat -> Db
    var round: nat
    var active: bool
    var schedule: Schedule

    constructor (store: Store, world: nat -> Db, schedule: Schedule)
      ensures this.store == store && this.schedule == schedule && this.world == world && round == 0 && !active
    {
      this.store, this.schedule, this.world, round, active := store, schedule, world, 0, false;
    }

    ghost function Base(): Table
      reads this
    {
      TableOf(store.swapped, world(round))
    }

    /** The list version that each transaction finds. */
    ghost function Versions(): Versions {
      (n: nat) => VersionIn(TableOf(store.swapped, world(n)))
    }

    ghost function Deadlocks(): nat
      reads this`schedule
    {
      Ahead(Deadlock, schedule)
    }

    ghost function Breaks(): nat
      reads this`schedule
    {
      Ahead(Broken, schedule)
    }

    ghost function StampingNow(): Stamping
      reads store
    {
      Stamping(store.timestamps, store.today)
    }

    method Next() returns (o: Outcome)
      modifies this`schedule
      ensures o == First(old(schedule)) && schedule == Rest(old(schedule))
    {
      if schedule == [] { return Fine; }
      o, schedule := schedule[0], schedule[1..];
    }

    /** ds_txn_begin */
    method Begin() returns (ok: bool)
      requires !active
      modifies this, store`db
      ensures active == ok && (ok ==> store.db == world(round))
      ensures schedule == Rest(old(schedule)) && (ok <==> First(old(schedule)) == Fine)
      ensures round == old(round) + if ok then 1 else 0
    {
      var o := Next();
      ok := o == Fine;
      if ok {
        active, round := true, round + 1;
        store.db := world(round);
      }
    }

    /** How a single call ends; a deadlock takes the transaction away. */
    twostate predicate OneCall(rc: Rc)
      reads this
    {
      if !old(active) then rc == Error && schedule == old(schedule)
      else
        && schedule == Rest(old(schedule))
        && (rc == AbortRetry <==> First(old(schedule)) == Deadlock)
        && (rc == AbortRetry ==> !active)
        && (rc == Error <==> First(old(schedule)) == Broken)
    }

    /** Whether a call goes through.  A deadlock rolls the transaction back, and
        a call without a transaction stops the program at an assertion. */
    method Reaches() returns (rc: Rc)
      modifies this`active, this`schedule, store`db
      ensures rc in {Found, AbortRetry, Error} && OneCall(rc)
      ensures rc == Found ==> old(active) && active && store.db == old(store.db)
    {
      if !active { return Error; }
      var o := Next();
      match o
      case Fine => rc := Found;
      case Deadlock => active, store.db := false, world(round); rc := AbortRetry;
      case Broken => rc := Error;
    }

    /** ds_read */
    method Read(w: Word) returns (rc: Rc, val: Dsv)
      modifies this`active, this`schedule, store`db
      ensures OneCall(rc)
      ensures rc in {Found, NotFound} ==>
        old(active) && active && store.db == old(store.db) && val == ValueAt(store.Contents(), w)
      ensures rc in {Found, NotFound} ==> (rc == Found <==> w in store.Contents())
    {
      val := ZERO;
      rc := Reaches();
      if rc == Found {
        var status;
        status, val := store.Read(w);
        if status == 1 { rc := NotFound; }
      }
    }

    /** ds_write */
    method Write(w: Word, val: Dsv) returns (rc: Rc)
      modifies this`active, this`schedule, store`db
      ensures rc in {Found, AbortRetry, Error} && OneCall(rc)
      ensures rc == Found ==>
        old(active) && active && store.Contents() == old(store.Contents())[w := Stamped(StampingNow(), val)]
    {
      rc := Reaches();
      if rc == Found { var status, stamped := store.Write(w, val); }
    }
  }

  function VersionIn(t: Table): U32 {
    ValueAt(t, WORDLIST_VERSION).spam
  }

  /** A word list with its message counts, and the global word list version. */
  class WordList {
    const dsh: Handle
    var msgSpam: U32
    var msgGood: U32
    var encoding: U32
    var version: U32

    constructor (dsh: Handle)
      ensures this.dsh == dsh
    {
      this.dsh := dsh;
    }

    /** A transaction is open and has not changed anything. */
    ghost predicate Fresh()
      reads dsh, dsh.store
    {
      dsh.active && dsh.store.Contents() == dsh.Base()
    }

    /** The fields agree with what the transaction holds. */
    ghost predicate ShowsCounts()
      reads this, dsh, dsh.store
    {
      var v := ValueAt(dsh.store.Contents(), MSG_COUNT);
      msgSpam == v.spam && msgGood == v.good
    }

    /** The list's own data, read at the start of a transaction.  An abort
        while reading the version goes unnoticed until the next read. */
    method ReadOwnData() returns (rc: Rc)
      requires dsh.active
      modifies this, dsh`active, dsh`schedule, dsh.store`db
      ensures rc in {Found, AbortRetry, Error}
      ensures rc == Found ==> dsh.active && dsh.store.db == old(dsh.store.db) && ShowsCounts()
      ensures rc == Found && WORDLIST_ENCODING in dsh.store.Contents() ==>
        encoding == dsh.store.Contents()[WORDLIST_ENCODING].spam
      ensures rc == Found && old(version) == 0 && WORDLIST_VERSION in dsh.store.Contents() ==>
        version == dsh.store.Contents()[WORDLIST_VERSION].spam
      ensures rc == AbortRetry ==> !dsh.active
      ensures old(dsh.Breaks()) == 0 ==>
        (rc == Error <==>
          old(version) == 0 && First(old(dsh.schedule)) == Fine && First(Rest(old(dsh.schedule))) == Deadlock)
      ensures var o := OwnData(VersionIn(old(dsh.store.Contents())), old(version), old(dsh.schedule));
        OutcomeOf(rc) == o.0 && version == o.1 && dsh.schedule == o.2
    {
      OwnDataStops(VersionIn(dsh.store.Contents()), version, dsh.schedule);
      var val;
      rc, val := dsh.Read(MSG_COUNT);
      if rc in {AbortRetry, Error} { return; }
      msgGood, msgSpam := val.good, val.spam;
      var broken := ReadVersion();
      if broken { return Error; }
      rc, val := dsh.Read(WORDLIST_ENCODING);
      if rc in {AbortRetry, Error} { return; }
      if rc == Found { encoding := val.spam; }
      rc := Found;
    }

    /** The version, if it is not known.  After an abort the list goes on
        without a transaction. */
    method ReadVersion() returns (broken: bool)
      requires dsh.active
      modifies `version, dsh`active, dsh`schedule, dsh.store`db
      ensures dsh.schedule == if old(version) == 0 then Rest(old(dsh.schedule)) else old(dsh.schedule)
      ensures broken <==> old(version) == 0 && First(old(dsh.schedule)) == Broken
      ensures if old(version) == 0 && First(old(dsh.schedule)) != Fine then version == 0 && (broken || !dsh.active)
              else
                dsh.active && dsh.store.db == old(dsh.store.db)
                && version == if old(version) == 0 then VersionIn(dsh.store.Contents()) else old(version)
    {
      if version != 0 { return false; }
      var rc, val := dsh.Read(WORDLIST_VERSION);
      if rc == Found { version := val.spam; }
      broken := rc == Error;
    }

    /** Where the list stands: the transaction, the version, and what lies ahead. */
    ghost function Now(): Start
      reads this`version, dsh`round, dsh`schedule
    {
      Start(dsh.round, version, dsh.schedule)
    }

    /** begin_wordlist; false if the program stops.  On a store that never
        breaks it stops exactly at a deadlock met while reading an unknown version. */
    method BeginWordlist() returns (ok: bool)
      requires !dsh.active
      modifies this, dsh, dsh.store`db
      ensures ok ==> Fresh() && ShowsCounts()
      ensures ok && WORDLIST_ENCODING in dsh.store.Contents() ==>
        encoding == dsh.store.Contents()[WORDLIST_ENCODING].spam
      ensures Opening(dsh.Versions(), old(Now())) == if ok then Some(Now()) else None
      ensures old(dsh.Breaks()) == 0 ==> (ok <==> !StopsAtVersion(dsh.Versions(), old(Now())))
    {
      if dsh.Breaks() == 0 { OpeningStops(dsh.Versions(), Now()); }
      while true
        invariant !dsh.active
        invariant Opening(dsh.Versions(), Now()) == Opening(dsh.Versions(), old(Now()))
        decreases |Now().rest|
      {
        var done := Pass();
        if done.Some? { return done.value; }
      }
    }

    /** One pass of begin_wordlist; None if it is to be made again. */
    method Pass() returns (done: Option<bool>)
      requires !dsh.active
      modifies this, dsh, dsh.store`db
      ensures done == Some(true) ==> Fresh() && ShowsCounts()
      ensures done == Some(true) && WORDLIST_ENCODING in dsh.store.Contents() ==>
        encoding == dsh.store.Contents()[WORDLIST_ENCODING].spam
      ensures Opening(dsh.Versions(), old(Now())) ==
        if done.None? then Opening(dsh.Versions(), Now()) else if done.value then Some(Now()) else None
      ensures done.None? ==> !dsh.active && |Now().rest| < |old(Now()).rest|
    {
      ghost var st := Now();
      var begun := dsh.Begin();
      assert begun <==> First(st.rest) == Fine;
      if !begun { return None; }
      assert VersionIn(dsh.store.Contents()) == dsh.Versions()(st.round + 1);
      var rc := ReadOwnData();
      return if rc == AbortRetry then None else Some(rc == Found);
    }
  }

  /** The list of hash nodes holds these tokens. */
  ghost predicate Holds(s: seq<HashNode>, ws: Tokens)
    reads set n | n in s :: n.data
  {
    |s| == |ws| && forall i | 0 <= i < |s| :: ws[i] == (s[i].key, s[i].data.freq)
  }

  /** The list of a hash table whose words are not the message count is that
      of a message ... */
  lemma ListIsMessage(s: seq<HashNode>, ws: Tokens)
    requires Holds(s, ws) && WordHash.KeysDiffer(s) && forall n | n in s :: n.key != MSG_COUNT
    ensures IsMessage(ws)
  {
    forall i | 0 <= i < |ws| ensures ws[i].0 != MSG_COUNT { assert s[i] in s; }
  }

  lemma TableIsMessage(wh: WordHash.WordHash, ws: Tokens)
    requires wh.Valid() && Holds(wh.iter, ws) && MSG_COUNT !in wh.c.view.table
    ensures IsList(wh.iterHead, wh.iter) && IsMessage(ws)
  {
    wh.IterInTable();
    ListIsMessage(wh.iter, ws);
  }

  /** ... so that registering it changes the word of each node by its frequency. */
  lemma RegisteredNode(s: seq<HashNode>, ws: Tokens, t: Table, c: Change, st: Stamping, m: U32, i: nat)
    requires Holds(s, ws) && IsMessage(ws) && i < |s|
    ensures var r := Registered(t, ws, c, st, m);
      s[i].key in r && r[s[i].key] == Stamped(st, Apply(ValueAt(t, s[i].key), c, s[i].data.freq))
  {
    CountedAt(ws, i);
    RegisteredAt(t, ws, c, st, m, ws[i].0);
  }

  /** The calls made so far ended like this, as the schedule had it. */
  predicate Ended(rc: Rc, calls: (Outcome, Schedule), rest: Schedule) {
    OutcomeOf(rc) == calls.0 && rest == calls.1
  }

  /** One token: read, count, write back. */
  method RegisterToken(list: WordList, node: HashNode, c: Change, n: Freq) returns (rc: Rc)
    requires list.dsh.active
    modifies list.dsh`active, list.dsh`schedule, list.dsh.store`db
    ensures rc in {Found, AbortRetry, Error} && Ended(rc, Calls(2, old(list.dsh.schedule)), list.dsh.schedule)
    ensures list.dsh.active || rc != Found
    ensures rc == AbortRetry ==> !list.dsh.active
    ensures rc == Found ==>
      list.dsh.store.Contents() == Token(old(list.dsh.store.Contents()), node.key, c, list.dsh.StampingNow(), n)
  {
    CallsTwo(list.dsh.schedule);
    var val;
    rc, val := list.dsh.Read(node.key);
    if rc in {AbortRetry, Error} { return; }
    if c.incr != Undef { val := Set(val, c.incr, Add32(Get(val, c.incr), n)); }
    if c.decr != Undef {
      val := Set(val, c.decr, if Get(val, c.decr) < n then 0 else Get(val, c.decr) - n);
    }
    rc := list.dsh.Write(node.key, val);
  }

  /** The list's own message counts (register.c:131-142). */
  method CountMessages(list: WordList, val: Dsv, c: Change, m: U32)
    modifies list`msgSpam, list`msgGood
    ensures Dsv(list.msgSpam, list.msgGood, val.date) == Apply(val, c, m)
  {
    list.msgSpam, list.msgGood := val.spam, val.good;
    if c.incr == Spam { list.msgSpam := Add32(list.msgSpam, m); }
    if c.incr == Good { list.msgGood := Add32(list.msgGood, m); }
    if c.decr == Spam { list.msgSpam := if list.msgSpam > m then list.msgSpam - m else 0; }
    if c.decr == Good { list.msgGood := if list.msgGood > m then list.msgGood - m else 0; }
  }

  /** The message counts, by way of the word list's own fields. */
  method RegisterMessages(list: WordList, c: Change, m: U32) returns (rc: Rc)
    requires list.dsh.active
    modifies list`msgSpam, list`msgGood, list.dsh`active, list.dsh`schedule, list.dsh.store`db
    ensures rc in {Found, AbortRetry, Error} && Ended(rc, Calls(2, old(list.dsh.schedule)), list.dsh.schedule)
    ensures list.dsh.active || rc != Found
    ensures rc == AbortRetry ==> !list.dsh.active
    ensures rc == Found ==>
      list.dsh.store.Contents() == Messages(old(list.dsh.store.Contents()), c, list.dsh.StampingNow(), m)
    ensures rc == Found ==> list.ShowsCounts()
  {
    CallsTwo(list.dsh.schedule);
    var val;
    rc, val := list.dsh.Read(MSG_COUNT);
    if rc in {AbortRetry, Error} { return; }
    CountMessages(list, val, c, m);
    val := Dsv(list.msgSpam, list.msgGood, list.dsh.store.today);
    rc := list.dsh.Write(MSG_COUNT, val);
  }

  /** A try reads and writes each token, and the message counts. */
  function CallsFor(ws: Tokens): nat {
    2 * |ws| + 2
  }

  /** All tokens, each read, counted and written back. */
  method RegisterTokens(list: WordList, h: HashNode?, ghost s: seq<HashNode>, ghost ws: Tokens, c: Change)
    returns (rc: Rc)
    requires list.Fresh() && IsList(h, s) && Holds(s, ws)
    modifies list.dsh`active, list.dsh`schedule, list.dsh.store`db
    ensures rc in {Found, AbortRetry, Error}
    ensures Ended(rc, Calls(2 * |ws|, old(list.dsh.schedule)), list.dsh.schedule)
    ensures rc == Found ==>
      list.dsh.active && list.dsh.store.Contents() == Tally(list.dsh.Base(), ws, c, list.dsh.StampingNow())
    ensures rc == AbortRetry ==> !list.dsh.active
  {
    var dsh := list.dsh;
    var node := h;
    ghost var i := 0;
    rc := Found;
    while node != null
      invariant 0 <= i <= |s| && node == (if i < |s| then s[i] else null)
      invariant dsh.active && dsh.store.Contents() == Tally(dsh.Base(), ws[..i], c, dsh.StampingNow())
      invariant rc == Found && Calls(2 * |ws|, old(dsh.schedule)) == Calls(2 * (|ws| - i), dsh.schedule)
      decreases |s| - i
    {
      assert ws[..i + 1][..i] == ws[..i];
      CallsSplit(2, 2 * (|ws| - i - 1), dsh.schedule);
      rc := RegisterToken(list, node, c, node.data.freq);
      if rc != Found { return; }
      node := node.iterNext;
      i := i + 1;
    }
    assert ws[..i] == ws;
  }

  /** One try: all tokens, then the message counts. */
  method Attempt(list: WordList, h: HashNode?, ghost s: seq<HashNode>, ghost ws: Tokens, c: Change, m: U32)
    returns (rc: Rc)
    requires list.Fresh() && IsList(h, s) && Holds(s, ws)
    modifies list`msgSpam, list`msgGood, list.dsh`active, list.dsh`schedule, list.dsh.store`db
    ensures rc in {Found, AbortRetry, Error}
    ensures Ended(rc, Calls(CallsFor(ws), old(list.dsh.schedule)), list.dsh.schedule)
    ensures rc == Found ==>
      list.dsh.active && list.ShowsCounts()
      && list.dsh.store.Contents() == Registered(list.dsh.Base(), ws, c, list.dsh.StampingNow(), m)
    ensures rc == AbortRetry ==> !list.dsh.active
  {
    CallsSplit(2 * |ws|, 2, list.dsh.schedule);
    rc := RegisterTokens(list, h, s, ws, c);
    if rc != Found { return; }
    rc := RegisterMessages(list, c, m);
  }

  datatype End = Done | Exits

  /** register_words.  Whatever deadlocks there are, what is left in the
      transaction is one registration of the message on top of what was
      committed when that transaction began.  With fewer than sixty deadlocks
      on a store that never breaks, the program gets there unless it stops at
      a deadlock met while reading an unknown list version. */
  method RegisterWords(runType: RunType, list: WordList, h: HashNode?, ghost s: seq<HashNode>, ghost ws: Tokens,
                       wordcount: U32, msgcount: U32) returns (e: End)
    requires list.Fresh() && IsList(h, s) && Holds(s, ws)
    modifies list, list.dsh, list.dsh.store`db
    ensures e == Done ==> list.dsh.active && list.ShowsCounts()
    ensures e == Done ==>
      list.dsh.store.Contents() == Registered(list.dsh.Base(), ws, ChangeOf(runType), list.dsh.StampingNow(),
                                              if wordcount == 0 then 0 else msgcount)
    ensures Ending(list.dsh.Versions(), CallsFor(ws), TRIES, old(list.Now()))
      == if e == Done then Some(list.Now()) else None
    ensures e == Done <==> Succeeds(list.dsh.Versions(), 2 * |s| + 2, 60, old(list.Now()))
    ensures old(list.dsh.Deadlocks()) < 60 && old(list.dsh.Breaks()) == 0 ==>
      (e == Done <==> !StopsBetweenTries(list.dsh.Versions(), CallsFor(ws), old(list.Now())))
    ensures old(list.dsh.Deadlocks()) < 60 && old(list.dsh.Breaks()) == 0 && old(list.version) != 0 ==> e == Done
  {
    EndingMeaning(list.dsh.Versions(), CallsFor(ws), TRIES, list.Now());
    EndingSucceeds(list.dsh.Versions(), CallsFor(ws), TRIES, list.Now());
    var retrycount := TRIES;
    var incr, decr := Undef, Undef;
    if runType.regSpam { incr := Spam; }
    if runType.regGood { incr := Good; }
    if runType.unregSpam { decr := Spam; }
    if runType.unregGood { decr := Good; }
    var m := if wordcount == 0 then 0 else msgcount;
    var first := true;
    while true
      invariant 0 <= retrycount <= TRIES && (if first then list.Fresh() else !list.dsh.active)
      invariant Coming(list.dsh.Versions(), CallsFor(ws), retrycount, first, list.Now())
        == Ending(list.dsh.Versions(), CallsFor(ws), TRIES, old(list.Now()))
      decreases retrycount
    {
      var end;
      end, retrycount := Retry(list, h, s, ws, Change(incr, decr), m, first, retrycount);
      if end.Some? { return end.value; }
      first := false;
    }
  }

  const TRIES := 60

  /** How it ends, seen from the retry label: but for the first time, a transaction is opened there. */
  function Coming(vs: Versions, calls: nat, tries: nat, first: bool, st: Start): Option<Start> {
    if first then Ending(vs, calls, tries, st)
    else
      match Opening(vs, st)
      case None => None
      case Some(next) => Ending(vs, calls, tries, next)
  }

  /** From the retry label to its end or back to the label. */
  method Retry(list: WordList, h: HashNode?, ghost s: seq<HashNode>, ghost ws: Tokens, c: Change, m: U32,
               first: bool, retrycount: nat) returns (end: Option<End>, left: nat)
    requires (if first then list.Fresh() else !list.dsh.active) && IsList(h, s) && Holds(s, ws)
    modifies list, list.dsh, list.dsh.store`db
    ensures Coming(list.dsh.Versions(), CallsFor(ws), retrycount, first, old(list.Now()))
      == if end.None? then Coming(list.dsh.Versions(), CallsFor(ws), left, false, list.Now())
         else if end.value == Done then Some(list.Now()) else None
    ensures end.None? ==> !list.dsh.active && left < retrycount
    ensures end == Some(Done) ==>
      list.dsh.active && list.ShowsCounts()
      && list.dsh.store.Contents() == Registered(list.dsh.Base(), ws, c, list.dsh.StampingNow(), m)
  {
    left := retrycount;
    if !first {
      var ok := list.BeginWordlist();
      if !ok { return Some(Exits), left; }
    }
    if left == 0 { return Some(Exits), left; }
    left := left - 1;
    var rc := Attempt(list, h, s, ws, c, m);
    end := if rc == AbortRetry then None else Some(if rc == Found then Done else Exits);
  }
}
