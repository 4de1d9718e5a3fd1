// Replacing non-ASCII characters in a word list (maint.c): every token with a
// byte above 127 is merged into the token with '?' in its place.  The changes
// are queued while the list is walked, in whatever order the store gives, and
// carried out at the end.

module Maint {
  import opened Words
  import opened Options
  import opened Datastore
  import opened TaQueue

  // ----- the ASCII image of a token -----

  function Image(w: Word): (v: Word)
    ensures |v| == |w| && forall i | 0 <= i < |w| :: v[i] == if w[i] >= 128 then '?' as int as Byte else w[i]
  {
    seq(|w|, i requires 0 <= i < |w| => if w[i] >= 128 then '?' as int as Byte else w[i])
  }

  lemma ImageOfImage(w: Word)
    ensures Image(Image(w)) == Image(w)
  {
  }

  /** do_replace_nonascii_characters, in place. */
  method ReplaceNonAscii(str: array<Byte>) returns (change: bool)
    modifies str
    ensures str[..] == Image(old(str[..])) && (change <==> str[..] != old(str[..]))
  {
    change := false;
    ghost var before := str[..];
    var i := 0;
    while i < str.Length
      invariant 0 <= i <= str.Length
      invariant forall k | 0 <= k < i :: str[k] == Image(before)[k]
      invariant forall k | i <= k < str.Length :: str[k] == before[k]
      invariant change <==> exists k | 0 <= k < i :: before[k] != Image(before)[k]
    {
      if str[i] >= 128 {
        str[i] := '?' as int as Byte;
        change := true;
        assert before[i] != Image(before)[i];
      }
      i := i + 1;
    }
    assert str[..] == Image(before);
  }

  // ----- merging -----

  /** The sum of the counts and the later date. */
  function Combine(a: Dsv, b: Dsv): Dsv {
    Dsv(Add32(a.spam, b.spam), Add32(a.good, b.good), if a.date >= b.date then a.date else b.date)
  }

  function CombineOpt(a: Dsv, b: Option<Dsv>): Option<Dsv> {
    match b
    case None => Some(a)
    case Some(v) => Some(Combine(a, v))
  }

  /** The combined value of all tokens of a table with the given image. */
  ghost function Group(t: Table, image: Word): Option<Dsv>
    decreases |t|
  {
    if w :| w in t && Image(w) == image then CombineOpt(t[w], Group(t - {w}, image)) else None
  }

  lemma CombineSwaps(a: Dsv, b: Dsv, c: Option<Dsv>)
    ensures CombineOpt(a, CombineOpt(b, c)) == CombineOpt(b, CombineOpt(a, c))
  {
  }

  /** The order in which a group is combined does not matter. */
  lemma {:induction false} GroupAny(t: Table, image: Word, w: Word)
    requires w in t && Image(w) == image
    ensures Group(t, image) == CombineOpt(t[w], Group(t - {w}, image))
    decreases |t|
  {
    var k :| k in t && Image(k) == image && Group(t, image) == CombineOpt(t[k], Group(t - {k}, image));
    if k != w {
      GroupAny(t - {k}, image, w);
      GroupAny(t - {w}, image, k);
      assert t - {k} - {w} == t - {w} - {k};
      CombineSwaps(t[k], t[w], Group(t - {k} - {w}, image));
    }
  }

  lemma {:induction false} GroupOther(t: Table, image: Word, w: Word)
    requires w in t && Image(w) != image
    ensures Group(t, image) == Group(t - {w}, image)
    decreases |t|
  {
    if k :| k in t && Image(k) == image {
      GroupAny(t, image, k);
      GroupAny(t - {w}, image, k);
      GroupOther(t - {k}, image, w);
      assert t - {k} - {w} == t - {w} - {k};
    }
  }

  /** merge_tokens on the table seen through the queue; t0 is the list as it is walked. */
  function MergeOne(now: Table, t0: Table, w: Word): Table
    requires w in t0
  {
    var n := Image(w);
    if n == w then now
    else
      var u := now - {w};
      u[n := if n in u then Combine(u[n], t0[w]) else t0[w]]
  }

  function MergeAll(t0: Table, ws: seq<Word>): Table
    requires forall i | 0 <= i < |ws| :: ws[i] in t0
  {
    if ws == [] then t0 else MergeOne(MergeAll(t0, ws[..|ws| - 1]), t0, ws[|ws| - 1])
  }

  function Find(t: Table, w: Word): Option<Dsv> {
    if w in t then Some(t[w]) else None
  }

  /** The tokens that count so far: the ASCII ones and those already merged. */
  ghost function Live(t0: Table, ws: seq<Word>): Table {
    map k | k in t0 && (Image(k) == k || k in ws) :: t0[k]
  }

  ghost predicate MergedSoFar(t0: Table, ws: seq<Word>, now: Table, w: Word) {
    Find(now, w) == if Image(w) == w then Group(Live(t0, ws), w)
                    else if w in ws then None else Find(t0, w)
  }

  lemma LivePush(t0: Table, ws: seq<Word>, w: Word)
    requires w in t0 && w !in ws && Image(w) != w
    ensures var m := Live(t0, ws + [w]); w in m && m[w] == t0[w] && m - {w} == Live(t0, ws)
  {
    assert Live(t0, ws + [w]) - {w} == Live(t0, ws);
  }

  lemma LiveStays(t0: Table, ws: seq<Word>, w: Word)
    requires Image(w) == w
    ensures Live(t0, ws + [w]) == Live(t0, ws)
  {
  }

  lemma MergeStep(t0: Table, ws: seq<Word>, now: Table, w: Word, t: Word)
    requires w in t0 && w !in ws && MergedSoFar(t0, ws, now, t)
    requires MergedSoFar(t0, ws, now, w) && MergedSoFar(t0, ws, now, Image(w))
    ensures MergedSoFar(t0, ws + [w], MergeOne(now, t0, w), t)
  {
    var n := Image(w);
    ImageOfImage(w);
    if n == w {
      LiveStays(t0, ws, w);
    } else {
      LivePush(t0, ws, w);
      if t == n {
        GroupAny(Live(t0, ws + [w]), n, w);
      } else if Image(t) == t {
        GroupOther(Live(t0, ws + [w]), t, w);
      }
    }
  }

  lemma {:induction false} NoGroup(t: Table, image: Word)
    requires forall k | k in t :: Image(k) != image
    ensures Group(t, image) == None
  {
  }

  lemma {:induction false} LiveStart(t0: Table, w: Word)
    ensures MergedSoFar(t0, [], t0, w)
  {
    if Image(w) == w {
      var m := Live(t0, []);
      if w in t0 {
        GroupAny(m, w, w);
        NoGroup(m - {w}, w);
      } else {
        NoGroup(m, w);
      }
    }
  }

  lemma {:induction false} MergeAllSoFar(t0: Table, ws: seq<Word>, t: Word)
    requires forall i | 0 <= i < |ws| :: ws[i] in t0
    requires forall i, j | 0 <= i < j < |ws| :: ws[i] != ws[j]
    ensures MergedSoFar(t0, ws, MergeAll(t0, ws), t)
    decreases |ws|
  {
    if ws == [] {
      LiveStart(t0, t);
    } else {
      var n := |ws| - 1;
      MergeAllSoFar(t0, ws[..n], t);
      MergeAllSoFar(t0, ws[..n], ws[n]);
      MergeAllSoFar(t0, ws[..n], Image(ws[n]));
      MergeStep(t0, ws[..n], MergeAll(t0, ws[..n]), ws[n], t);
      assert ws == ws[..n] + [ws[n]];
    }
  }

  /** An enumeration of the words of a table, in any order. */
  ghost predicate Enumerates(ws: seq<Word>, t: Table) {
    && (forall i | 0 <= i < |ws| :: ws[i] in t)
    && (forall w | w in t :: w in ws)
    && (forall i, j | 0 <= i < j < |ws| :: ws[i] != ws[j])
  }

  /** Whatever the order of the walk, the merged table maps each word to the
      combination of all tokens with that image, and has no other words. */
  lemma MergeIsOrderIndependent(t0: Table, ws: seq<Word>, t: Word)
    requires Enumerates(ws, t0)
    ensures Find(MergeAll(t0, ws), t) == Group(t0, t)
  {
    MergeAllSoFar(t0, ws, t);
    assert Live(t0, ws) == t0;
    if Image(t) != t {
      forall k | k in t0 ensures Image(k) != t { ImageOfImage(k); }
      NoGroup(t0, t);
    }
  }

  // ----- the pass over a list -----

  /** The same words with the same counts; dates may differ. */
  ghost predicate SameButDates(a: Table, b: Table) {
    a.Keys == b.Keys && forall w | w in a :: a[w].(date := 0) == b[w].(date := 0)
  }

  lemma {:induction false} TimestampsOnlyDates(t: Table, ops: seq<TaOp>, timestamps: bool)
    ensures SameButDates(Commit(t, ops, timestamps), Commit(t, ops, true))
    decreases |ops|
  {
    if ops != [] { TimestampsOnlyDates(t, ops[..|ops| - 1], timestamps); }
  }

  /** Through the queue the list reads as now, and every queued delete will find its token. */
  ghost predicate Shows(t: Table, ops: seq<TaOp>, timestamps: bool, now: Table) {
    Commit(t, ops, true) == now && AllFound(t, ops, timestamps)
  }

  lemma ShowsDelete(t: Table, ops: seq<TaOp>, timestamps: bool, now: Table, w: Word)
    requires Shows(t, ops, timestamps, now) && w in now
    ensures Shows(t, ops + [TaDelete(w)], timestamps, now - {w})
  {
    TimestampsOnlyDates(t, ops, timestamps);
    CommitPush(t, ops, TaDelete(w), timestamps);
    assert (ops + [TaDelete(w)])[..|ops|] == ops;
  }

  lemma ShowsWrite(t: Table, ops: seq<TaOp>, timestamps: bool, now: Table, w: Word, v: Dsv)
    requires Shows(t, ops, timestamps, now)
    ensures Shows(t, ops + [TaWrite(w, v)], timestamps, now[w := v])
  {
    CommitPush(t, ops, TaWrite(w, v), timestamps);
    assert (ops + [TaWrite(w, v)])[..|ops|] == ops;
  }

  lemma ShowsRead(t: Table, ops: seq<TaOp>, timestamps: bool, now: Table, w: Word)
    requires Shows(t, ops, timestamps, now)
    ensures LookThrough(t, ops, w) == Look(now, w)
  {
    ReadYourWrites(t, ops, w, true);
  }

  /** merge_tokens: through the queue, the old token is gone and the new one has
      its value added. */
  method MergeTokens(store: Store, queue: Queue, oldToken: Word, newToken: Word, val: Dsv,
                     ghost t: Table, ghost now: Table)
    requires queue.Valid() && t == store.Contents() && Shows(t, queue.Ops(), store.timestamps, now) && oldToken in now
    modifies store`today, queue, queue.repr
    ensures queue.Valid() && fresh(queue.repr - old(queue.repr))
    ensures Shows(t, queue.Ops(), store.timestamps,
                  var u := now - {oldToken}; u[newToken := if newToken in u then Combine(u[newToken], val) else val])
  {
    ShowsDelete(t, queue.Ops(), store.timestamps, now, oldToken);
    queue.Add(TaDelete(oldToken));
    ghost var u := now - {oldToken};
    var ret, tmp := queue.Read(store, newToken);
    ShowsRead(t, queue.Ops(), store.timestamps, u, newToken);
    if ret == 0 {
      tmp := Combine(tmp, val);
    } else {
      tmp := val;
    }
    store.SetDate(tmp.date);
    ShowsWrite(t, queue.Ops(), store.timestamps, u, newToken, tmp);
    queue.Add(TaWrite(newToken, tmp));
    store.SetDate(0);
  }

  /** maintain_hook, with replacement as the only thing asked for. */
  method MaintainHook(store: Store, queue: Queue, key: Word, val: Dsv, ghost t: Table, ghost now: Table)
    requires queue.Valid() && t == store.Contents() && Shows(t, queue.Ops(), store.timestamps, now)
    requires key in now && key in t && t[key] == val
    modifies store`today, queue, queue.repr
    ensures queue.Valid() && fresh(queue.repr - old(queue.repr))
    ensures Shows(t, queue.Ops(), store.timestamps, MergeOne(now, t, key))
  {
    if key == MSG_COUNT { return; }
    var text := new Byte[|key|](i requires 0 <= i < |key| => key[i]);
    assert text[..] == key;
    var change := ReplaceNonAscii(text);
    if change { MergeTokens(store, queue, key, text[..], val, t, now); }
  }

  /** A token not yet walked can still be deleted when it has to be. */
  lemma StillThere(t0: Table, ws: seq<Word>, i: nat)
    requires Enumerates(ws, t0) && i < |ws|
    ensures ws[i] in MergeAll(t0, ws[..i])
  {
    var w := ws[i];
    MergeAllSoFar(t0, ws[..i], w);
    if Image(w) == w { GroupAny(Live(t0, ws[..i]), w, w); }
  }

  lemma CommitsMerge(t: Table, ops: seq<TaOp>, timestamps: bool, now: Table)
    requires Shows(t, ops, timestamps, now)
    ensures AllFound(t, ops, timestamps) && SameButDates(Commit(t, ops, timestamps), now)
    ensures timestamps ==> Commit(t, ops, timestamps) == now
  {
    TimestampsOnlyDates(t, ops, timestamps);
  }

  lemma ShowsStart(t: Table, timestamps: bool, ws: seq<Word>)
    ensures Shows(t, [], timestamps, MergeAll(t, ws[..0]))
  {
  }

  lemma MergeAllPush(t: Table, ws: seq<Word>, i: nat)
    requires i < |ws| && forall j | 0 <= j < |ws| :: ws[j] in t
    ensures MergeAll(t, ws[..i + 1]) == MergeOne(MergeAll(t, ws[..i]), t, ws[i])
  {
    assert ws[..i + 1][..i] == ws[..i];
  }

  /** ds_foreach over the list with maintain_hook. */
  method Foreach(store: Store, queue: Queue, ws: seq<Word>, ghost t: Table)
    requires t == store.Contents() && Enumerates(ws, t)
    requires queue.Valid() && Shows(t, queue.Ops(), store.timestamps, t)
    modifies store`today, queue, queue.repr
    ensures queue.Valid() && Shows(t, queue.Ops(), store.timestamps, MergeAll(t, ws))
  {
    var i := 0;
    while i < |ws|
      invariant 0 <= i <= |ws| && queue.Valid() && fresh(queue.repr - old(queue.repr))
      invariant Shows(t, queue.Ops(), store.timestamps, MergeAll(t, ws[..i]))
    {
      var status, val := store.Read(ws[i]);
      StillThere(t, ws, i);
      MergeAllPush(t, ws, i);
      MaintainHook(store, queue, ws[i], val, t, MergeAll(t, ws[..i]));
      i := i + 1;
    }
    assert ws[..i] == ws;
  }

  /** maintain_wordlist: walk the list in the order given, then commit. */
  method MaintainWordlist(store: Store, ws: seq<Word>) returns (ret: int)
    requires Enumerates(ws, store.Contents())
    modifies store`db, store`today
    ensures ret == TA_OK
    ensures SameButDates(store.Contents(), MergeAll(old(store.Contents()), ws))
    ensures store.timestamps ==> store.Contents() == MergeAll(old(store.Contents()), ws)
  {
    ghost var t := store.Contents();
    var queue := new Queue();
    ShowsStart(t, store.timestamps, ws);
    Foreach(store, queue, ws, t);
    CommitsMerge(t, queue.Ops(), store.timestamps, MergeAll(t, ws));
    ret := queue.Flush(store, true);
  }
}
