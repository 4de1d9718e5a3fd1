// The LMDB back end of datastore_lmdb.c: gets, puts and deletes inside one
// transaction, and the growing of the map when a put, a delete or the commit
// reports that it is full.  LMDB itself is a map with begin, commit and
// abort, which may report a full map at any put, delete or commit: what the
// coming calls answer is a list that the store knows nothing of.

module LmdbStore {
  import opened Options
  import opened ReplayLog
  import opened LmdbCalls
  import opened LmdbPlans

  // ----- what a log means -----

  function Effect(t: Table, e: Entry): Table {
    match e
    case Put(k, v) => t[k := v]
    case Del(k) => t - {k}
  }

  function Effects(t: Table, es: seq<Entry>): Table {
    if es == [] then t else Effect(Effects(t, es[..|es| - 1]), es[|es| - 1])
  }

  /** Every delete of the log finds its key. */
  predicate Replayable(t: Table, es: seq<Entry>) {
    es == [] ||
    (var n := |es| - 1;
     Replayable(t, es[..n]) && (es[n].Del? ==> es[n].key in Effects(t, es[..n])))
  }

  lemma EffectsPush(t: Table, es: seq<Entry>, e: Entry)
    ensures Effects(t, es + [e]) == Effect(Effects(t, es), e)
    ensures Replayable(t, es + [e]) <==> Replayable(t, es) && (e.Del? ==> e.key in Effects(t, es))
  {
    assert (es + [e])[..|es|] == es;
  }

  lemma {:induction false} ReplayablePrefix(t: Table, done: seq<Entry>, more: seq<Entry>)
    requires Replayable(t, done + more)
    ensures Replayable(t, done)
    decreases |more|
  {
    if more == [] {
      assert done + more == done;
    } else {
      var n := |more| - 1;
      assert (done + more)[..|done| + n] == done + more[..n];
      ReplayablePrefix(t, done, more[..n]);
    }
  }

  lemma Shift(done: seq<Entry>, rest: seq<Entry>)
    requires rest != []
    ensures done + [rest[0]] + rest[1..] == done + rest
  {
  }

  /** The next entry of a replayable log: a delete finds its key. */
  lemma ReplayNext(t: Table, done: seq<Entry>, rest: seq<Entry>, after: seq<Entry>)
    requires rest != [] && Replayable(t, done + rest + after)
    ensures Effects(t, done + [rest[0]]) == Effect(Effects(t, done), rest[0])
    ensures rest[0].Del? ==> rest[0].key in Effects(t, done)
    ensures Replayable(t, done + [rest[0]] + rest[1..] + after)
  {
    assert done + rest + after == done + [rest[0]] + rest[1..] + after;
    assert done + [rest[0]] + rest[1..] + after == (done + [rest[0]]) + (rest[1..] + after);
    ReplayablePrefix(t, done + [rest[0]], rest[1..] + after);
    EffectsPush(t, done, rest[0]);
  }

  // ----- the store -----

  /** The number of entries of the log from chunk n on. */
  ghost function Left(cs: seq<Chunk>, n: nat): nat
    requires n <= |cs|
    reads cs`entries
  {
    var k := |Flat(cs)| - |Flat(cs[..n])|;
    if k < 0 then 0 else k
  }

  lemma LeftSplit(cs: seq<Chunk>, n: nat)
    requires n < |cs|
    ensures Left(cs, n) == |cs[n].entries| + Left(cs, n + 1)
  {
    FlatPush(cs[..n], cs[n]);
    assert cs[..n + 1] == cs[..n] + [cs[n]];
    var after := FlatSplit(cs, n + 1);
  }

  lemma LeftNext(cs: seq<Chunk>, n: nat, c: seq<Rc>)
    requires n < |cs|
    ensures Succeed(Left(cs, n), c) ==
      match Succeed(|cs[n].entries|, c)
      case None => None
      case Some(d) => Succeed(Left(cs, n + 1), d)
  {
    LeftSplit(cs, n);
    SucceedSplit(|cs[n].entries|, Left(cs, n + 1), c);
  }

  /** How a call ends: with a value, or with the end of the process. */
  datatype Outcome<T> = Done(value: T) | Exited

  /** struct a_bflm, and what LMDB keeps for it. */
  class Store {
    var committed: Table
    var txn: Table
    var dbsize: Size
    var calls: seq<Rc>       // what the coming calls answer
    var reports: seq<Size>   // what mdb_env_info is going to report
    const maxKeySize: nat
    const log: TxnLog

    /** The log is in order, and the limits are those of LMDB. */
    ghost predicate Ready()
      reads this, log, log.Repr
    {
      log.Valid() && log.Roomy() && this !in log.Repr && maxKeySize <= 511
    }

    /** Inside a transaction: the log holds exactly the changes made so far. */
    ghost predicate Valid()
      reads this, log, log.Repr
    {
      && Ready()
      && txn == Effects(committed, log.Entries()) && Replayable(committed, log.Entries())
    }

    /** The transaction in progress. */
    ghost function Stands(): Standing
      reads this, log, log.chunks`entries
    {
      Standing(txn, |log.Entries()|, Ahead())
    }

    /** What has been logged, if the log is in order. */
    ghost function Logged(): Option<seq<Entry>>
      reads this, log, log.Repr
    {
      if Ready() then Some(log.Entries()) else None
    }

    /** The transaction as it stands, if the log agrees with it. */
    ghost function Current(): Option<Table>
      reads this, log, log.Repr
    {
      if Valid() then Some(txn) else None
    }

    /** A store whose table is t, with a transaction just begun. */
    constructor (t: Table, maxKeySize: nat, calls: seq<Rc>, reports: seq<Size>)
      requires maxKeySize <= 511
      ensures Current() == Some(txn) && fresh(log) && fresh(log.Repr)
      ensures committed == t && txn == t && this.maxKeySize == maxKeySize
      ensures Ahead() == Env(calls, Sizes(reports, 0))
    {
      committed, txn, dbsize := t, t, 0;
      this.calls, this.reports := calls, reports;
      this.maxKeySize := maxKeySize;
      log := new TxnLog();
    }

    /** What lies ahead of the store. */
    ghost function Ahead(): Env
      reads `calls, `reports, `dbsize
    {
      Env(calls, Sizes(reports, dbsize))
    }

    // LMDB calls

    method Next() returns (e: Rc)
      modifies `calls
      ensures e == First(old(calls)) && calls == Rest(old(calls))
    {
      if calls == [] { return Rc.Ok; }
      e, calls := calls[0], calls[1..];
    }

    method CursorPut(key: Bytes, val: Bytes) returns (e: Rc)
      modifies `txn, `calls
      ensures e == First(old(calls)) && calls == Rest(old(calls))
      ensures txn == if e == Rc.Ok then old(txn)[key := val] else old(txn)
    {
      e := Next();
      if e == Rc.Ok { txn := txn[key := val]; }
    }

    method CursorGet(key: Bytes) returns (e: Rc, val: Bytes)
      ensures e == (if key in txn then Rc.Ok else NotFound)
      ensures key in txn ==> val == txn[key]
    {
      if key in txn { return Rc.Ok, txn[key]; }
      return NotFound, [];
    }

    method CursorDel(key: Bytes) returns (e: Rc)
      requires key in txn
      modifies `txn, `calls
      ensures e == First(old(calls)) && calls == Rest(old(calls))
      ensures txn == if e == Rc.Ok then old(txn) - {key} else old(txn)
    {
      e := Next();
      if e == Rc.Ok { txn := txn - {key}; }
    }

    method TxnCommit() returns (e: Rc)
      modifies `committed, `calls
      ensures e == First(old(calls)) && calls == Rest(old(calls))
      ensures committed == if e == Rc.Ok then txn else old(committed)
    {
      e := Next();
      if e == Rc.Ok { committed := txn; }
    }

    /** Apply one parsed entry through the cursor. */
    method ReplayEntry(e: Entry) returns (ok: bool)
      requires e.Del? ==> e.key in txn
      modifies `txn, `calls
      ensures (ok <==> First(old(calls)) == Rc.Ok) && calls == Rest(old(calls))
      ensures ok ==> txn == Effect(old(txn), e)
    {
      var rc;
      if e.Put? {
        rc := CursorPut(e.key, e.val);
      } else {
        var found, _ := CursorGet(e.key);
        assert found == Rc.Ok;
        rc := CursorDel(e.key);
      }
      return rc == Rc.Ok;
    }

    /** All entries of the bytes, if those before dp have been replayed. */
    ghost function Replayed(bytes: Bytes, dp: nat, done: seq<Entry>, rest: seq<Entry>, after: seq<Entry>)
      : Option<seq<Entry>>
      reads this
    {
      if EncodedFrom(bytes, dp, rest) == Some(dp)
        && Replayable(committed, done + rest + after) && txn == Effects(committed, done)
      then Some(done + rest) else None
    }

    method ReplayNextEntry(bytes: Bytes, start: nat, ghost done: seq<Entry>, ghost rest: seq<Entry>,
                           ghost after: seq<Entry>)
      returns (ok: bool, dp: nat)
      requires Replayed(bytes, start, done, rest, after) == Some(done + rest) && rest != []
      modifies `txn, `calls
      ensures (ok <==> First(old(calls)) == Rc.Ok) && calls == Rest(old(calls))
      ensures ok ==> start < dp && Replayed(bytes, dp, done + [rest[0]], rest[1..], after) == Some(done + rest)
    {
      ReplayNext(committed, done, rest, after);
      Shift(done, rest);
      var e;
      e, dp := ParseEntry(bytes, start, rest);
      ok := ReplayEntry(e);
    }

    /** Replay the entries of one chunk. */
    method ReplayChunk(c: Chunk, ghost done: seq<Entry>, ghost after: seq<Entry>) returns (ok: bool)
      requires c.Ok() && Replayable(committed, done + c.entries + after) && txn == Effects(committed, done)
      modifies `txn, `calls
      ensures Succeed(|c.entries|, old(calls)) == if ok then Some(calls) else None
      ensures ok ==> txn == Effects(committed, done + c.entries)
    {
      var bytes := c.data[..c.caster];
      var dp := 0;
      ghost var now, rest := done, c.entries;
      ReplayBegins(bytes, done, c.entries, after);
      while dp < |bytes|
        invariant Replayed(bytes, dp, now, rest, after) == Some(done + c.entries) && dp <= |bytes|
        invariant Succeed(|c.entries|, old(calls)) == Succeed(|rest|, calls)
        decreases |bytes| - dp
      {
        EncodedEmpty(bytes[dp..], rest);
        ok, dp := ReplayNextEntry(bytes, dp, now, rest, after);
        if !ok { return false; }
        now, rest := now + [rest[0]], rest[1..];
      }
      ReplayEnds(bytes, now, rest, after);
      return true;
    }

    lemma ReplayBegins(bytes: Bytes, done: seq<Entry>, es: seq<Entry>, after: seq<Entry>)
      requires Encoded(bytes, es) && Replayable(committed, done + es + after) && txn == Effects(committed, done)
      ensures Replayed(bytes, 0, done, es, after) == Some(done + es)
    {
      assert bytes[0..] == bytes;
    }

    lemma ReplayEnds(bytes: Bytes, now: seq<Entry>, rest: seq<Entry>, after: seq<Entry>)
      requires Replayed(bytes, |bytes|, now, rest, after).Some?
      ensures rest == [] && txn == Effects(committed, Replayed(bytes, |bytes|, now, rest, after).value)
    {
      EncodedEmpty(bytes[|bytes|..], rest);
      assert now + rest == now;
    }

    /** Replay chunk n of the log, after those before it. */
    method ReplayNth(c: Chunk, ghost cs: seq<Chunk>, ghost n: nat) returns (ok: bool)
      requires Stacked(cs) && n < |cs| && c == cs[n]
      requires Replayable(committed, Flat(cs)) && txn == Effects(committed, Flat(cs[..n]))
      modifies `txn, `calls
      ensures Succeed(|cs[n].entries|, old(calls)) == if ok then Some(calls) else None
      ensures ok ==> txn == Effects(committed, Flat(cs[..n + 1]))
    {
      ghost var after := ChunkAt(cs, n);
      ok := ReplayChunk(c, Flat(cs[..n]), after);
    }

    /** The same, in terms of all that is left to replay. */
    method ReplayOne(c: Chunk, ghost cs: seq<Chunk>, ghost n: nat) returns (ok: bool)
      requires Content(cs) == Some(Flat(cs)) && n < |cs| && c == cs[n]
      requires Replayable(committed, Flat(cs)) && txn == Effects(committed, Flat(cs[..n]))
      modifies `txn, `calls
      ensures Succeed(Left(cs, n), old(calls)) == if ok then Succeed(Left(cs, n + 1), calls) else None
      ensures ok ==> txn == Effects(committed, Flat(cs[..n + 1]))
    {
      LeftNext(cs, n, calls);
      ok := ReplayNth(c, cs, n);
    }

    method ReplayFrom(head0: Chunk?, ghost cs: seq<Chunk>) returns (ok: bool)
      requires Content(cs) == Some(Flat(cs)) && head0 == Oldest(cs, 0) && NextFrom(cs, 0)
      requires txn == committed && Replayable(committed, Flat(cs))
      modifies `txn, `calls
      ensures Succeed(|Flat(cs)|, old(calls)) == if ok then Some(calls) else None
      ensures ok ==> txn == Effects(committed, Flat(cs))
    {
      var head := head0;
      ghost var n := 0;
      while head != null
        invariant n <= |cs| && head == Oldest(cs, n)
        invariant txn == Effects(committed, Flat(cs[..n]))
        invariant Succeed(Left(cs, 0), old(calls)) == Succeed(Left(cs, n), calls)
        decreases |cs| - n
      {
        ok := ReplayOne(head, cs, n);
        if !ok { return; }
        head := head.next;
        n := n + 1;
      }
      assert cs[..n] == cs;
      return true;
    }

    /** a_bflm_txn__replay: apply the whole log to a fresh transaction. */
    method Replay() returns (ok: bool)
      requires Logged() == Some(log.Entries())
      requires txn == committed && Replayable(committed, log.Entries())
      modifies `txn, `calls, log.chunks`next
      ensures Logged() == Some(old(log.Entries()))
      ensures Succeed(|old(log.Entries())|, old(calls)) == if ok then Some(calls) else None
      ensures ok ==> txn == Effects(committed, old(log.Entries()))
    {
      var head := RewindLog();
      ok := ReplayFrom(head, log.chunks);
    }

    method RewindLog() returns (head: Chunk?)
      requires Logged() == Some(log.Entries())
      modifies log.chunks`next
      ensures Logged() == Some(old(log.Entries()))
      ensures Content(log.chunks) == Some(log.Entries()) && head == Oldest(log.chunks, 0) && NextFrom(log.chunks, 0)
    {
      head := log.Rewind();
    }

    /** The resizing loop of a_bflm_txn_mapfull: fails if a call fails or no size is left. */
    method Resize() returns (ok: bool)
      modifies `dbsize, `calls, `reports
      ensures Resized(old(Ahead())) == if ok then Some(Ahead()) else None
    {
      while true
        invariant Resized(Ahead()) == Resized(old(Ahead()))
        decreases |calls|
      {
        var i := if reports == [] then 0 else reports[0];   // envinfo.me_mapsize
        reports := if reports == [] then [] else reports[1..];
        if dbsize > i { i := dbsize; }
        var j := GrownSize(i);
        if j == None { return false; }
        var e := Next();   // mdb_env_set_mapsize
        if e != Rc.Ok { return false; }
        dbsize := j.value;
        SucceedNext(2, calls);
        e := Next();       // mdb_txn_begin
        if e != MapResized {
          ok := Opened(e);
          return;
        }
      }
    }

    /** What follows the begin of a transaction. */
    method Opened(begun: Rc) returns (ok: bool)
      modifies `calls
      ensures ok <==> begun == Rc.Ok && Succeed(2, old(calls)).Some?
      ensures ok ==> Succeed(2, old(calls)) == Some(calls)
    {
      SucceedNext(1, calls);
      SucceedNext(0, Rest(calls));
      if begun != Rc.Ok { return false; }
      var e := Next();   // mdb_dbi_open
      if e != Rc.Ok { return false; }
      e := Next();       // mdb_cursor_open
      return e == Rc.Ok;
    }

    /** a_bflm_txn_mapfull: abort, grow, begin again and replay.  On success
        the transaction is what it was before. */
    method GrowMap() returns (ok: bool)
      requires Current() == Some(txn) && Logged() == Some(log.Entries())
      modifies `txn, `dbsize, `calls, `reports, log.chunks`next
      ensures Logged() == Some(old(log.Entries()))
      ensures Grown(|old(log.Entries())|, old(Ahead())) == if ok then Some(Ahead()) else None
      ensures ok ==> Current() == Some(old(txn))
    {
      AbortTxn();
      ok := Resize();
      if ok {
        ok := Replay();
        if ok { IsCurrent(); }
      }
    }

    /** mdb_txn_abort: what the log stands for is what the transaction was. */
    method AbortTxn()
      requires Current() == Some(txn) && Logged() == Some(log.Entries())
      modifies `txn
      ensures txn == committed && Logged() == Some(old(log.Entries()))
      ensures Replayable(committed, log.Entries()) && Effects(committed, log.Entries()) == old(txn)
    {
      txn := committed;
    }

    lemma IsCurrent()
      requires Logged() == Some(log.Entries())
      requires Replayable(committed, log.Entries()) && txn == Effects(committed, log.Entries())
      ensures Current() == Some(txn)
    {
    }

    /** After a call that failed with e: grow the map and try again, if it was
        full and there are tries left; here is what lay ahead of that call. */
    method GrowAgain(e: Rc, commit: bool, retries: nat, ghost here: Env) returns (ok: bool, more: nat)
      requires Current() == Some(txn) && Logged() == Some(log.Entries()) && retries <= GROW_TRIES
      requires e == First(here.calls) && e != Rc.Ok && Ahead() == Env(Rest(here.calls), here.sizes)
      modifies `txn, `dbsize, `calls, `reports, log.chunks`next
      ensures Logged() == Some(old(log.Entries()))
      ensures ok ==> Current() == Some(old(txn)) && retries < more <= GROW_TRIES
      ensures Tried(|old(log.Entries())|, commit, GROW_TRIES - retries, here)
        == if ok then Tried(|old(log.Entries())|, commit, GROW_TRIES - more, Ahead()) else None
    {
      TriedAgain(|log.Entries()|, commit, GROW_TRIES - retries, here);
      ok := GrowIfFull(e, commit, retries);
      more := retries + 1;
    }

    method GrowIfFull(e: Rc, commit: bool, retries: nat) returns (ok: bool)
      requires Current() == Some(txn) && Logged() == Some(log.Entries())
      modifies `txn, `dbsize, `calls, `reports, log.chunks`next
      ensures Logged() == Some(old(log.Entries())) && (ok ==> Current() == Some(old(txn)))
      ensures if IsFull(e, commit) && retries < GROW_TRIES
              then Grown(|old(log.Entries())|, old(Ahead())) == if ok then Some(Ahead()) else None
              else !ok
    {
      ok := false;
      if IsFull(e, commit) && retries < GROW_TRIES { ok := GrowMap(); }
    }

    lemma WasCurrent()
      requires Current() == Some(txn)
      ensures Logged() == Some(log.Entries()) && maxKeySize <= 511
    {
    }

    /** The transaction, if it is what the log stands for but for this last change. */
    ghost function Pending(e: Entry): Option<Table>
      reads this, log, log.Repr
    {
      if Ready() && Replayable(committed, log.Entries())
        && (e.Del? ==> e.key in Effects(committed, log.Entries()))
        && txn == Effect(Effects(committed, log.Entries()), e)
      then Some(txn) else None
    }

    /** Log a change that the transaction has just made. */
    method Record(e: Entry)
      requires Pending(e) == Some(txn) && |e.key| <= 511 && (e.Put? ==> |e.val| <= 12)
      modifies log.Repr
      ensures Current() == Some(old(txn)) && fresh(log.Repr - old(log.Repr))
      ensures |log.Entries()| == |old(log.Entries())| + 1
    {
      EffectsPush(committed, log.Entries(), e);
      var ok := log.Put(e);
    }

    /** db_set_dbvalue */
    method Set(key: Bytes, val: Bytes) returns (r: Outcome<int>)
      requires Current() == Some(txn) && |val| <= 12
      modifies this, log.Repr
      ensures committed == old(committed) && fresh(log.Repr - old(log.Repr))
      ensures r.Done? ==> r.value == 0
      ensures r.Done? ==> Current() == Some(if |key| > maxKeySize then old(txn) else old(txn)[key := val])
      ensures Step(old(Stands()), SetOp(key, val), maxKeySize) == if r.Done? then Some(Stands()) else None
    {
      SetStep(Stands(), key, val, maxKeySize);
      if |key| > maxKeySize { return Done(0); }
      var ok := SetFitting(key, val);
      return if ok then Done(0) else Exited;
    }

    /** The same for a key within the limit. */
    method SetFitting(key: Bytes, val: Bytes) returns (ok: bool)
      requires Current() == Some(txn) && |key| <= maxKeySize && |val| <= 12
      modifies this, log.Repr
      ensures committed == old(committed) && fresh(log.Repr - old(log.Repr))
      ensures ok ==> Current() == Some(txn) && txn == old(txn)[key := val]
      ensures ok ==> |log.Entries()| == |old(log.Entries())| + 1
      ensures Tried(|old(log.Entries())|, false, GROW_TRIES, old(Ahead())) == if ok then Some(Ahead()) else None
    {
      WasCurrent();
      ok := Insert(key, val);
      if ok { Record(Put(key, val)); }
    }

    /** One put, and what it leaves to be logged. */
    method TryPut(key: Bytes, val: Bytes) returns (e: Rc)
      requires Current() == Some(txn) && Logged() == Some(log.Entries())
      modifies `txn, `calls
      ensures e == First(old(calls)) && calls == Rest(old(calls)) && Logged() == Some(old(log.Entries()))
      ensures if e == Rc.Ok then Pending(Put(key, val)) == Some(txn) && txn == old(txn)[key := val]
              else Current() == Some(txn) && txn == old(txn)
    {
      e := CursorPut(key, val);
    }

    /** The loop of db_set_dbvalue. */
    method Insert(key: Bytes, val: Bytes) returns (ok: bool)
      requires Current() == Some(txn) && Logged() == Some(log.Entries()) && |key| <= maxKeySize <= 511
      modifies `txn, `dbsize, `calls, `reports, log.chunks`next
      ensures Logged() == Some(old(log.Entries()))
      ensures ok ==> Pending(Put(key, val)) == Some(txn) && txn == old(txn)[key := val]
      ensures Tried(|old(log.Entries())|, false, GROW_TRIES, old(Ahead())) == if ok then Some(Ahead()) else None
    {
      var retries := 0;
      while true
        invariant Current() == Some(txn) && txn == old(txn) && retries <= GROW_TRIES
        invariant Logged() == Some(old(log.Entries()))
        invariant Tried(|old(log.Entries())|, false, GROW_TRIES - retries, Ahead())
          == Tried(|old(log.Entries())|, false, GROW_TRIES, old(Ahead()))
        decreases GROW_TRIES - retries
      {
        ghost var here := Ahead();
        var e := TryPut(key, val);
        if e == Rc.Ok { return true; }
        ok, retries := GrowAgain(e, false, retries, here);
        if !ok { return false; }
      }
    }

    /** db_delete: -1 (DS_NOTFOUND) if the key is absent. */
    method Delete(key: Bytes) returns (r: Outcome<int>)
      requires Current() == Some(txn)
      modifies this, log.Repr
      ensures committed == old(committed) && fresh(log.Repr - old(log.Repr))
      ensures r.Done? ==> r.value == if |key| <= maxKeySize && key !in old(txn) then -1 else 0
      ensures r.Done? ==> Current() == Some(if |key| > maxKeySize then old(txn) else old(txn) - {key})
      ensures Step(old(Stands()), DelOp(key), maxKeySize) == if r.Done? then Some(Stands()) else None
    {
      DelStep(Stands(), key, maxKeySize);
      if |key| > maxKeySize { return Done(0); }
      var found := DeleteFitting(key);
      match found
      case Exited => return Exited;
      case Done(there) => return Done(if there then 0 else -1);
    }

    /** The same for a key within the limit; whether it was there. */
    method DeleteFitting(key: Bytes) returns (r: Outcome<bool>)
      requires Current() == Some(txn) && |key| <= maxKeySize
      modifies this, log.Repr
      ensures committed == old(committed) && fresh(log.Repr - old(log.Repr))
      ensures r.Done? ==> Current() == Some(old(txn) - {key}) && (r.value <==> key in old(txn))
      ensures r.Done? ==> |log.Entries()| == |old(log.Entries())| + if r.value then 1 else 0
      ensures Attempt(key in old(txn), |old(log.Entries())|, old(Ahead())) == if r.Done? then Some(Ahead()) else None
    {
      WasCurrent();
      r := Erase(key);
      match r
      case Exited =>
      case Done(there) =>
        if there {
          Record(Del(key));
        } else {
          assert old(txn) - {key} == txn;
        }
    }

    /** One delete of a key that is there, and what it leaves to be logged. */
    method TryDel(key: Bytes) returns (e: Rc)
      requires Current() == Some(txn) && Logged() == Some(log.Entries()) && key in txn
      modifies `txn, `calls
      ensures e == First(old(calls)) && calls == Rest(old(calls)) && Logged() == Some(old(log.Entries()))
      ensures if e == Rc.Ok then Pending(Del(key)) == Some(txn) && txn == old(txn) - {key}
              else Current() == Some(txn) && txn == old(txn)
    {
      e := CursorDel(key);
    }

    /** The loop of db_delete: whether the key was found, and so deleted. */
    method Erase(key: Bytes) returns (r: Outcome<bool>)
      requires Current() == Some(txn) && Logged() == Some(log.Entries()) && |key| <= maxKeySize <= 511
      modifies `txn, `dbsize, `calls, `reports, log.chunks`next
      ensures Logged() == Some(old(log.Entries()))
      ensures r == Done(true) ==> key in old(txn) && Pending(Del(key)) == Some(txn) && txn == old(txn) - {key}
      ensures r == Done(false) ==> key !in txn && Current() == Some(txn) && txn == old(txn)
      ensures Attempt(key in old(txn), |old(log.Entries())|, old(Ahead())) == if r.Done? then Some(Ahead()) else None
    {
      var retries := 0;
      while true
        invariant Current() == Some(txn) && txn == old(txn) && Logged() == Some(old(log.Entries()))
        invariant retries <= GROW_TRIES
        invariant Attempt(key in txn, |old(log.Entries())|, old(Ahead()))
          == if key in txn then Tried(|old(log.Entries())|, false, GROW_TRIES - retries, Ahead()) else Some(Ahead())
        decreases GROW_TRIES - retries
      {
        var e, _ := CursorGet(key);
        if e == NotFound { return Done(false); }
        ghost var here := Ahead();
        e := TryDel(key);
        if e == Rc.Ok { return Done(true); }
        var ok;
        ok, retries := GrowAgain(e, false, retries, here);
        if !ok { return Exited; }
      }
    }

    /** db_get_dbvalue, into a buffer of size bytes. */
    method Get(key: Bytes, size: nat) returns (r: Outcome<Option<Bytes>>)
      requires Current() == Some(txn)
      ensures r == if |key| > maxKeySize || key !in txn then Done(None)
                   else if |txn[key]| <= size then Done(Some(txn[key])) else Exited
    {
      if |key| > maxKeySize { return Done(None); }
      var e, val := CursorGet(key);
      if e != Rc.Ok { return Done(None); }
      if |val| > size { return Exited; }
      return Done(Some(val));
    }

    method CommitOrGrow() returns (ok: bool)
      requires Current() == Some(txn) && Logged() == Some(log.Entries())
      modifies `committed, `txn, `dbsize, `calls, `reports, log.chunks`next
      ensures committed == if ok then old(txn) else old(committed)
      ensures Logged() == Some(old(log.Entries()))
      ensures Tried(|old(log.Entries())|, true, GROW_TRIES, old(Ahead())) == if ok then Some(Ahead()) else None
    {
      var retries := 0;
      while true
        invariant Current() == Some(txn) && txn == old(txn) && committed == old(committed)
        invariant retries <= GROW_TRIES && Logged() == Some(old(log.Entries()))
        invariant Tried(|old(log.Entries())|, true, GROW_TRIES - retries, Ahead())
          == Tried(|old(log.Entries())|, true, GROW_TRIES, old(Ahead()))
        decreases GROW_TRIES - retries
      {
        ghost var here := Ahead();
        var e := TxnCommit();
        if e == Rc.Ok { return true; }
        var grown;
        grown, retries := GrowAgain(e, true, retries, here);
        if !grown { return false; }
      }
    }

    /** a_bflm_txn_commit: everything or nothing; the log is dropped. */
    method Commit() returns (ok: bool)
      requires Current() == Some(txn)
      modifies this, log.Repr
      ensures committed == if ok then old(txn) else old(committed)
      ensures Tried(|old(log.Entries())|, true, GROW_TRIES, old(Ahead())) == if ok then Some(Ahead()) else None
      ensures Logged() == Some([]) && fresh(log.Repr - old(log.Repr))
    {
      WasCurrent();
      ok := CommitOrGrow();
      log.Free();
    }

    /** a_bflm_txn_abort */
    method Abort()
      requires Current() == Some(txn)
      modifies this, log
      ensures committed == old(committed) && Logged() == Some([])
    {
      log.Free();
    }

    /** a_bflm_txn_begin, when it succeeds. */
    method Begin()
      requires Logged() == Some([])
      modifies `txn
      ensures Current() == Some(txn) && txn == committed
    {
      txn := committed;
    }
  }

  // ----- whole transactions -----

  method Execute(s: Store, op: Op) returns (r: Outcome<Answer>)
    requires s.Current() == Some(s.txn) && (op.SetOp? ==> |op.val| <= 12)
    modifies s, s.log.Repr
    ensures s.committed == old(s.committed) && fresh(s.log.Repr - old(s.log.Repr))
    ensures r.Done? ==> s.Current() == Some(OpEffect(old(s.txn), op, s.maxKeySize))
    ensures r.Done? ==> r.value == OpAnswer(old(s.txn), op, s.maxKeySize)
    ensures Step(old(s.Stands()), op, s.maxKeySize) == if r.Done? then Some(s.Stands()) else None
  {
    match op
    case SetOp(k, v) =>
      var o := s.Set(k, v);
      r := if o.Done? then Done(Status(o.value)) else Exited;
    case DelOp(k) =>
      var o := s.Delete(k);
      r := if o.Done? then Done(Status(o.value)) else Exited;
    case GetOp(k) =>
      var o := s.Get(k, 12);
      r := if o.Done? then Done(Value(o.value)) else Exited;
  }

  /** Some(i) if the first i operations have been carried out, with these
      answers, on a transaction that stood at st. */
  ghost function Running(s: Store, st: Standing, ops: seq<Op>, answers: seq<Answer>, i: nat): Option<nat>
    reads s, s.log, s.log.Repr
  {
    if i == |answers| <= |ops| && s.Current() == Some(s.txn) && s.committed == st.txn
      && answers == Answers(st.txn, ops[..i], s.maxKeySize)
      && Steps(st, ops[..i], s.maxKeySize) == Some(s.Stands())
    then Some(i) else None
  }

  method RunOne(s: Store, op: Op, ghost st: Standing, ghost ops: seq<Op>, ghost answers: seq<Answer>, ghost i: nat)
    returns (r: Outcome<Answer>)
    requires i < |ops| && op == ops[i] && (op.SetOp? ==> |op.val| <= 12)
    requires Running(s, st, ops, answers, i) == Some(i)
    modifies s, s.log.Repr
    ensures s.committed == st.txn && fresh(s.log.Repr - old(s.log.Repr))
    ensures i == |answers| && answers == Answers(st.txn, ops[..i], s.maxKeySize)
    ensures r.Done? ==> Running(s, st, ops, answers + [r.value], i + 1) == Some(i + 1)
    ensures r == Exited ==> Steps(st, ops[..i + 1], s.maxKeySize) == None
  {
    StepsFinal(st, ops[..i], s.maxKeySize);
    StepsNext(st, ops, s.maxKeySize, i);
    r := Execute(s, op);
  }

  /** The store refines a plain map: whatever full maps are reported on the way,
      every answer is that of the plain map, and in the end either all changes
      are committed, each applied once and in order, or none.  Which of the two
      it is depends on the answers of LMDB alone. */
  method RunTransaction(s: Store, ops: seq<Op>) returns (answers: seq<Answer>, ok: bool)
    requires s.Current() == Some(s.txn) && s.txn == s.committed
    requires forall i | 0 <= i < |ops| && ops[i].SetOp? :: |ops[i].val| <= 12
    modifies s, s.log.Repr
    ensures |answers| <= |ops| && answers == Answers(old(s.committed), ops[..|answers|], s.maxKeySize)
    ensures ok ==> |answers| == |ops|
    ensures ok <==> Commits(old(s.Stands()), ops, s.maxKeySize)
    ensures s.committed == if ok then Final(old(s.committed), ops, s.maxKeySize) else old(s.committed)
  {
    ghost var st := s.Stands();
    answers, ok := RunAll(s, ops, st);
    if ok { ok := CommitAll(s, ops, st, answers); }
  }

  /** All the operations, up to the first that ends the program. */
  method RunAll(s: Store, ops: seq<Op>, ghost st: Standing) returns (answers: seq<Answer>, ok: bool)
    requires Running(s, st, ops, [], 0) == Some(0)
    requires forall i | 0 <= i < |ops| && ops[i].SetOp? :: |ops[i].val| <= 12
    modifies s, s.log.Repr
    ensures s.committed == st.txn && fresh(s.log.Repr - old(s.log.Repr))
    ensures |answers| <= |ops| && answers == Answers(st.txn, ops[..|answers|], s.maxKeySize)
    ensures ok ==> Running(s, st, ops, answers, |ops|) == Some(|ops|)
    ensures !ok ==> Steps(st, ops, s.maxKeySize) == None
  {
    answers := [];
    var i := 0;
    while i < |ops|
      invariant i <= |ops| && Running(s, st, ops, answers, i) == Some(i)
      invariant fresh(s.log.Repr - old(s.log.Repr))
    {
      var r := RunOne(s, ops[i], st, ops, answers, i);
      if r == Exited {
        StepsNot(st, ops, s.maxKeySize, i + 1);
        return answers, false;
      }
      answers := answers + [r.value];
      i := i + 1;
    }
    return answers, true;
  }

  method CommitAll(s: Store, ops: seq<Op>, ghost st: Standing, ghost answers: seq<Answer>) returns (ok: bool)
    requires Running(s, st, ops, answers, |ops|) == Some(|ops|)
    modifies s, s.log.Repr
    ensures |answers| == |ops| && (ok <==> Commits(st, ops, s.maxKeySize))
    ensures s.committed == if ok then Final(st.txn, ops, s.maxKeySize) else st.txn
  {
    assert ops[..|ops|] == ops;
    StepsFinal(st, ops, s.maxKeySize);
    ok := s.Commit();
  }
}
