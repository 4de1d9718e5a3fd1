// The write-behind queue of transaction.c: deletes and writes are queued on a
// doubly linked list, reads look through the list from its end before they
// ask the store, and commit carries the queue out.

module TaQueue {
  import opened Words
  import opened Options
  import opened Datastore

  const TA_OK := 0
  const TA_ERR := 1

  datatype TaOp = TaDelete(word: Word) | TaWrite(word: Word, val: Dsv)

  // ----- what a queue means -----

  /** The table after the queued operations; what is written is what is kept. */
  function Commit(t: Table, ops: seq<TaOp>, timestamps: bool): Table {
    if ops == [] then t
    else
      var u := Commit(t, ops[..|ops| - 1], timestamps);
      match ops[|ops| - 1]
      case TaDelete(w) => u - {w}
      case TaWrite(w, v) => u[w := Kept(timestamps, v)]
  }

  /** The last queued operation on a word. */
  function LastOn(ops: seq<TaOp>, w: Word): Option<TaOp> {
    if ops == [] then None
    else if ops[|ops| - 1].word == w then Some(ops[|ops| - 1])
    else LastOn(ops[..|ops| - 1], w)
  }

  /** Status and value of a read of the table. */
  function Look(t: Table, w: Word): (int, Dsv) {
    if w in t then (0, t[w]) else (1, ZERO)
  }

  /** Status and value of a read through the queue. */
  function LookThrough(t: Table, ops: seq<TaOp>, w: Word): (int, Dsv) {
    match LastOn(ops, w)
    case None => Look(t, w)
    case Some(TaDelete(_)) => (TA_ERR, ZERO)
    case Some(TaWrite(_, v)) => (TA_OK, v)
  }

  lemma {:induction false} CommitAtWord(t: Table, ops: seq<TaOp>, w: Word, timestamps: bool)
    ensures Look(Commit(t, ops, timestamps), w) ==
      match LastOn(ops, w)
      case None => Look(t, w)
      case Some(TaDelete(_)) => (TA_ERR, ZERO)
      case Some(TaWrite(_, v)) => (TA_OK, Kept(timestamps, v))
    decreases |ops|
  {
    if ops != [] && ops[|ops| - 1].word != w { CommitAtWord(t, ops[..|ops| - 1], w, timestamps); }
  }

  /** Read-your-writes: reading through the queue gives the status and value a
      read will give after the commit, exactly when timestamps are on or the
      last thing queued for the word is not a write with a date. */
  lemma ReadYourWrites(t: Table, ops: seq<TaOp>, w: Word, timestamps: bool)
    ensures LookThrough(t, ops, w) == Look(Commit(t, ops, timestamps), w) <==>
      timestamps || !(LastOn(ops, w).Some? && LastOn(ops, w).value.TaWrite? && LastOn(ops, w).value.val.date != 0)
  {
    CommitAtWord(t, ops, w, timestamps);
  }

  /** Every queued delete finds its word when its turn comes. */
  function AllFound(t: Table, ops: seq<TaOp>, timestamps: bool): bool {
    ops == [] ||
    (var n := |ops| - 1;
     AllFound(t, ops[..n], timestamps) && (ops[n].TaDelete? ==> ops[n].word in Commit(t, ops[..n], timestamps)))
  }

  lemma {:induction false} AllFoundMeaning(t: Table, ops: seq<TaOp>, timestamps: bool)
    ensures AllFound(t, ops, timestamps) <==>
      forall i | 0 <= i < |ops| && ops[i].TaDelete? :: ops[i].word in Commit(t, ops[..i], timestamps)
    decreases |ops|
  {
    if ops != [] {
      var n := |ops| - 1;
      AllFoundMeaning(t, ops[..n], timestamps);
      forall i | 0 <= i < n ensures ops[..n][..i] == ops[..i] && ops[..n][i] == ops[i] {}
    }
  }

  lemma CommitPush(t: Table, ops: seq<TaOp>, op: TaOp, timestamps: bool)
    ensures Commit(t, ops + [op], timestamps) == Commit(Commit(t, ops, timestamps), [op], timestamps)
    ensures AllFound(t, ops + [op], timestamps) <==>
      AllFound(t, ops, timestamps) && (op.TaDelete? ==> op.word in Commit(t, ops, timestamps))
  {
    assert (ops + [op])[..|ops|] == ops;
    assert [op][..0] == [];
  }

  // ----- the list -----

  class Item {
    const op: TaOp
    var next: Item?
    var prev: Item?
    ghost const place: nat   // in the queue

    constructor (op: TaOp, prev: Item?, ghost place: nat)
      ensures this.op == op && next == null && this.prev == prev && this.place == place
    {
      this.op, next, this.prev, this.place := op, null, prev, place;
    }
  }

  function At(s: seq<Item>, i: int): Item? {
    if 0 <= i < |s| then s[i] else null
  }

  ghost predicate Linked(s: seq<Item>)
    reads s
  {
    && (forall i {:trigger s[i].place} | 0 <= i < |s| :: s[i].place == i)
    && (forall i {:trigger s[i].next} | 0 <= i < |s| :: s[i].next == At(s, i + 1))
    && (forall i {:trigger s[i].prev} | 0 <= i < |s| :: s[i].prev == At(s, i - 1))
  }

  ghost function OpsOf(s: seq<Item>): seq<TaOp> {
    seq(|s|, i requires 0 <= i < |s| => s[i].op)
  }

  lemma OpsPush(s: seq<Item>, item: Item)
    ensures OpsOf(s + [item]) == OpsOf(s) + [item.op]
  {
  }

  class Queue {
    var head: Item?
    var last: Item?
    ghost var items: seq<Item>
    ghost var repr: set<Item>

    ghost predicate Valid()
      reads this, repr
    {
      (forall i {:trigger items[i]} | 0 <= i < |items| :: items[i] in repr)
      && head == At(items, 0) && last == At(items, |items| - 1) && Linked(items)
    }

    ghost function Ops(): seq<TaOp>
      reads this
    {
      OpsOf(items)
    }

    /** ta_init */
    constructor ()
      ensures Valid() && Ops() == [] && repr == {}
    {
      head, last, items, repr := null, null, [], {};
    }

    /** The link from the last item to a new one. */
    method LinkLast(item: Item)
      requires Linked(items) && last == At(items, |items| - 1) && item !in items
      requires item.place == |items| && item.prev == last && item.next == null
      modifies items`next
      ensures Linked(items + [item])
    {
      if last != null {
        assert last.place == |items| - 1;
        forall i | 0 <= i < |items| - 1 ensures items[i] != last { assert items[i].place == i; }
        last.next := item;
      }
    }

    /** ta_add */
    method Add(op: TaOp)
      requires Valid()
      modifies this, repr
      ensures Valid() && Ops() == old(Ops()) + [op] && fresh(repr - old(repr))
    {
      var item := new Item(op, last, |items|);
      OpsPush(items, item);
      LinkLast(item);
      if head == null { head := item; }
      last := item;
      items, repr := items + [item], repr + {item};
    }

    /** ta_read */
    method Read(store: Store, word: Word) returns (status: int, val: Dsv)
      requires Valid()
      ensures (status, val) == LookThrough(store.Contents(), Ops(), word)
    {
      var iter := last;
      ghost var n := |items|;
      assert Ops()[..n] == Ops();
      while iter != null
        invariant 0 <= n <= |items| && iter == At(items, n - 1)
        invariant LastOn(Ops(), word) == LastOn(Ops()[..n], word)
        decreases n
      {
        assert Ops()[..n][..n - 1] == Ops()[..n - 1];
        if iter.op.word == word {
          match iter.op
          case TaDelete(_) => return TA_ERR, ZERO;
          case TaWrite(_, v) => return TA_OK, v;
        }
        iter := iter.prev;
        n := n - 1;
      }
      status, val := store.Read(word);
    }

    /** ta_flush: carry the queue out on the store, or (wr false) drop it. */
    method Flush(store: Store, wr: bool) returns (ret: int)
      requires Valid()
      modifies store`db, store`today
      ensures store.Contents() ==
        if wr then Commit(old(store.Contents()), Ops(), store.timestamps) else old(store.Contents())
      ensures ret == if wr && !AllFound(old(store.Contents()), Ops(), store.timestamps) then -1 else TA_OK
    {
      ret := TA_OK;
      var iter := head;
      ghost var n := 0;
      while iter != null
        invariant 0 <= n <= |items| && iter == At(items, n)
        invariant store.Contents() ==
          if wr then Commit(old(store.Contents()), Ops()[..n], store.timestamps) else old(store.Contents())
        invariant ret == if wr && !AllFound(old(store.Contents()), Ops()[..n], store.timestamps) then -1 else TA_OK
        decreases |items| - n
      {
        if wr {
          CommitPush(old(store.Contents()), Ops()[..n], iter.op, store.timestamps);
          assert Ops()[..n + 1] == Ops()[..n] + [iter.op];
          match iter.op
          case TaDelete(w) =>
            var s := store.Delete(w);
            if s != 0 { ret := -1; }
          case TaWrite(w, v) =>
            store.SetDate(v.date);
            var s, stamped := store.Write(w, v);
        }
        iter := iter.next;
        n := n + 1;
      }
      assert Ops()[..n] == Ops();
    }
  }
}
