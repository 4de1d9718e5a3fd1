// Filling a hash table from the tokens of a message (collect.c), and adding
// one table's counts to another's (wordhash_add in wordhash.c).

module WordCounts {
  import opened Words
  import opened Options
  import opened HashNodes
  import opened ListSort
  import opened WordHash

  // ----- keys in the order of their first insertion -----

  /** Every word not yet there is added, in the order of first sight. */
  function AddKeys(keys: seq<Word>, ws: seq<Word>): seq<Word> {
    if ws == [] then keys else AddKey(AddKeys(keys, ws[..|ws| - 1]), ws[|ws| - 1])
  }

  lemma {:induction false} AddKeysMeaning(keys: seq<Word>, ws: seq<Word>)
    requires forall i, j | 0 <= i < j < |keys| :: keys[i] != keys[j]
    ensures keys <= AddKeys(keys, ws)
    ensures forall w :: w in AddKeys(keys, ws) <==> w in keys || w in ws
    ensures forall i, j | 0 <= i < j < |AddKeys(keys, ws)| :: AddKeys(keys, ws)[i] != AddKeys(keys, ws)[j]
  {
    if ws != [] {
      var n := |ws| - 1;
      AddKeysMeaning(keys, ws[..n]);
      assert ws == ws[..n] + [ws[n]];
    }
  }

  type CountMap = map<Word, Counts>

  /** What a table is for: the counts of each word. */
  ghost function CountsOf(table: map<Word, WordProp>): CountMap
    reads table.Values
  {
    map w | w in table :: CountsIn(table[w])
  }

  function AddCounts(a: Counts, b: Counts): Counts {
    Counts(a.freq + b.freq, Plus(a.good, b.good), Plus(a.bad, b.bad))
  }

  function Get(m: CountMap, w: Word): Counts {
    if w in m then m[w] else NONE
  }

  lemma CountsPush(table: map<Word, WordProp>, t: Word, d: WordProp)
    ensures CountsOf(table[t := d]) == CountsOf(table)[t := CountsIn(d)]
    ensures t in table && table[t] == d ==> CountsIn(d) == Get(CountsOf(table), t)
    ensures t !in table ==> Get(CountsOf(table), t) == NONE
  {
  }

  /** wordhash_insert; a new word counts nothing yet. */
  method InsertWord(wh: WordHash, t: Word) returns (wp: WordProp)
    requires wh.Seen() == Some(wh.c.view)
    modifies wh, wh.bin, wh.c.own`iterNext
    ensures wh.Seen() == Some(wh.c.view) && wh.c.view == Put(old(wh.c.view), t, wp)
    ensures fresh(wh.c.own - old(wh.c.own)) && (fresh(wp) || wp in old(wh.c.view.table.Values))
    ensures fresh(wh.c.view.table.Values - old(wh.c.view.table.Values))
    ensures CountsOf(wh.c.view.table) == old(CountsOf(wh.c.view.table))[t := CountsIn(wp)]
    ensures CountsIn(wp) == Get(old(CountsOf(wh.c.view.table)), t)
  {
    ghost var table := wh.c.view.table;
    wp := wh.Insert(t);
    CountsPush(table, t, wp);
    ValuesPush(table, t, wp);
  }

  /** Writing to the data block of a word changes the counts of that word alone. */
  method Update(wh: WordHash, d: WordProp, ghost t: Word, v: Counts)
    requires wh.Seen() == Some(wh.c.view) && t in wh.c.view.table && d == wh.c.view.table[t]
    modifies d
    ensures wh.Seen() == Some(wh.c.view)
    ensures CountsOf(wh.c.view.table) == old(CountsOf(wh.c.view.table))[t := v]
  {
    SetCounts(d, v, wh.c.view.table, t);
  }

  method SetCounts(d: WordProp, v: Counts, ghost table: map<Word, WordProp>, ghost t: Word)
    requires t in table && d == table[t] && forall w | w in table && w != t :: table[w] != d
    modifies d
    ensures CountsOf(table) == old(CountsOf(table))[t := v]
  {
    d.freq, d.good, d.bad := v.freq, v.good, v.bad;
  }

  lemma ValuesPush(table: map<Word, WordProp>, t: Word, d: WordProp)
    ensures table[t := d].Values <= table.Values + {d}
  {
  }

  lemma UpdateTwice(m: CountMap, t: Word, u: Counts, v: Counts)
    ensures m[t := u][t := v] == m[t := v]
  {
  }

  // ----- collecting the words of a message -----

  /** One round of the loop in collect_words. */
  method CollectToken(wh: WordHash, token: Word)
    requires wh.Seen() == Some(wh.c.view)
    modifies wh, wh.bin, wh.c.own`iterNext, wh.c.view.table.Values
    ensures wh.Seen() == Some(wh.c.view) && wh.c.view.keys == AddKey(old(wh.c.view.keys), token)
    ensures fresh(wh.c.own - old(wh.c.own)) && fresh(wh.c.view.table.Values - old(wh.c.view.table.Values))
    ensures CountsOf(wh.c.view.table)
      == old(CountsOf(wh.c.view.table))[token := Get(old(CountsOf(wh.c.view.table)), token).(freq := 1)]
  {
    ghost var m := CountsOf(wh.c.view.table);
    var wp := InsertWord(wh, token);
    var v := Counts(1, wp.good, wp.bad);
    UpdateTwice(m, token, CountsIn(wp), v);
    Update(wh, wp, token, v);
  }

  /** Every word once. */
  function Once(ws: seq<Word>): CountMap {
    map w | w in ws :: Counts(1, 0, 0)
  }

  /** Some(i) if the table holds what the first i tokens have put there. */
  ghost function Collected(wh: WordHash, tokens: seq<Word>, i: nat): Option<nat>
    reads wh`iterHead, wh`c, wh`iter, wh`iterTail
    reads wh.bin, wh.c.nodes, wh.iter, wh.c.view.table.Values
  {
    if i <= |tokens| && wh.Seen() == Some(wh.c.view)
      && wh.c.view.keys == AddKeys([], tokens[..i]) && CountsOf(wh.c.view.table) == Once(tokens[..i])
    then Some(i) else None
  }

  lemma CollectedPush(keys: seq<Word>, tokens: seq<Word>, t: Word)
    ensures AddKeys(keys, tokens + [t]) == AddKey(AddKeys(keys, tokens), t)
    ensures Once(tokens + [t]) == Once(tokens)[t := Get(Once(tokens), t).(freq := 1)]
  {
    assert (tokens + [t])[..|tokens|] == tokens;
  }

  method CollectNext(wh: WordHash, ghost tokens: seq<Word>, ghost i: nat, token: Word)
    requires i < |tokens| && token == tokens[i] && Collected(wh, tokens, i) == Some(i)
    modifies wh, wh.bin, wh.c.own`iterNext, wh.c.view.table.Values
    ensures Collected(wh, tokens, i + 1) == Some(i + 1)
    ensures fresh(wh.c.own - old(wh.c.own)) && fresh(wh.c.view.table.Values - old(wh.c.view.table.Values))
  {
    assert tokens[..i + 1] == tokens[..i] + [token];
    CollectedPush([], tokens[..i], token);
    CollectToken(wh, token);
  }

  /** collect_words: each word of the message is there, in the order of first
      sight, and is counted once. */
  method CollectWords(wh: WordHash, tokens: seq<Word>)
    requires wh.Seen() == Some(wh.c.view) && wh.c == EMPTY
    modifies wh, wh.bin
    ensures wh.Seen() == Some(wh.c.view)
    ensures wh.c.view.keys == AddKeys([], tokens) && CountsOf(wh.c.view.table) == Once(tokens)
    ensures forall t :: t in wh.c.view.table <==> t in tokens
    ensures forall t | t in tokens :: wh.c.view.table[t].freq == 1
  {
    CollectedNone(wh, tokens);
    var i := 0;
    while i < |tokens|
      invariant Collected(wh, tokens, i) == Some(i) && i <= |tokens|
      invariant fresh(wh.c.own) && fresh(wh.c.view.table.Values)
    {
      CollectNext(wh, tokens, i, tokens[i]);
      i := i + 1;
    }
    CollectedAll(wh, tokens);
    OnceIn(wh.c.view.table, tokens);
  }

  lemma OnceIn(table: map<Word, WordProp>, tokens: seq<Word>)
    requires CountsOf(table) == Once(tokens)
    ensures forall t :: t in table <==> t in tokens
    ensures forall t | t in tokens :: table[t].freq == 1
  {
    forall t ensures t in table <==> t in tokens {
      assert t in table <==> t in CountsOf(table);
      assert t in tokens <==> t in Once(tokens);
    }
    forall t | t in tokens ensures table[t].freq == 1 { assert CountsOf(table)[t] == Once(tokens)[t]; }
  }

  lemma CollectedNone(wh: WordHash, tokens: seq<Word>)
    requires wh.Seen() == Some(wh.c.view) && wh.c == EMPTY
    ensures Collected(wh, tokens, 0) == Some(0)
  {
    assert tokens[..0] == [] && CountsOf(wh.c.view.table) == Once([]);
  }

  lemma CollectedAll(wh: WordHash, tokens: seq<Word>)
    requires Collected(wh, tokens, |tokens|) == Some(|tokens|)
    ensures wh.Seen() == Some(wh.c.view)
    ensures wh.c.view.keys == AddKeys([], tokens) && CountsOf(wh.c.view.table) == Once(tokens)
  {
    assert tokens[..|tokens|] == tokens;
  }

  // ----- adding the counts of two tables -----

  /** One round of the loop in wordhash_add, for a source node with this key and these counts. */
  method AddNode(dest: WordHash, key: Word, p: Counts)
    requires dest.Seen() == Some(dest.c.view)
    modifies dest, dest.bin, dest.c.own`iterNext, dest.c.view.table.Values
    ensures dest.Seen() == Some(dest.c.view) && dest.c.view.keys == AddKey(old(dest.c.view.keys), key)
    ensures fresh(dest.c.own - old(dest.c.own)) && fresh(dest.c.view.table.Values - old(dest.c.view.table.Values))
    ensures CountsOf(dest.c.view.table)
      == old(CountsOf(dest.c.view.table))[key := AddCounts(Get(old(CountsOf(dest.c.view.table)), key), p)]
  {
    ghost var m := CountsOf(dest.c.view.table);
    var d := InsertWord(dest, key);
    var had := Counts(d.freq, d.good, d.bad);
    UpdateTwice(m, key, had, AddCounts(had, p));
    Update(dest, d, key, AddCounts(had, p));
  }

  /** The counts after adding those of the words ws from another table. */
  function AddAll(m: CountMap, from: CountMap, ws: seq<Word>): CountMap {
    if ws == [] then m
    else
      var k, w := AddAll(m, from, ws[..|ws| - 1]), ws[|ws| - 1];
      k[w := AddCounts(Get(k, w), Get(from, w))]
  }

  function Sum(m: CountMap, from: CountMap): CountMap {
    map w | w in m.Keys + from.Keys :: AddCounts(Get(m, w), Get(from, w))
  }

  lemma AddAllPush(m: CountMap, from: CountMap, ws: seq<Word>, w: Word)
    ensures AddAll(m, from, ws + [w]) == var k := AddAll(m, from, ws); k[w := AddCounts(Get(k, w), Get(from, w))]
  {
    assert (ws + [w])[..|ws|] == ws;
  }

  lemma LastOf(ws: seq<Word>, w: Word)
    requires ws != []
    ensures w in ws <==> w == ws[|ws| - 1] || w in ws[..|ws| - 1]
  {
    assert ws == ws[..|ws| - 1] + [ws[|ws| - 1]];
  }

  ghost predicate NoRepeats<K>(s: seq<K>) {
    forall i, j | 0 <= i < j < |s| :: s[i] != s[j]
  }

  ghost predicate ListsKeys<K(!new), V>(s: seq<K>, m: map<K, V>) {
    forall k :: k in s <==> k in m
  }

  lemma {:induction false} AddAllAt(m: CountMap, from: CountMap, ws: seq<Word>, w: Word)
    requires NoRepeats(ws)
    ensures w in AddAll(m, from, ws) <==> w in m || w in ws
    ensures Get(AddAll(m, from, ws), w) == if w in ws then AddCounts(Get(m, w), Get(from, w)) else Get(m, w)
  {
    if ws != [] {
      var n := |ws| - 1;
      AddAllAt(m, from, ws[..n], w);
      LastOf(ws, w);
    }
  }

  lemma SumAt(m: CountMap, from: CountMap, ws: seq<Word>, w: Word)
    requires NoRepeats(ws)
    requires w in ws <==> w in from
    ensures w in AddAll(m, from, ws) <==> w in Sum(m, from)
    ensures Get(AddAll(m, from, ws), w) == Get(Sum(m, from), w)
  {
    AddAllAt(m, from, ws, w);
  }

  /** Frequencies and counts are added up word by word; a word that one table
      lacks counts nothing there, and the counts wrap around at 32 bits. */
  lemma SumMeaning(m: CountMap, from: CountMap, w: Word)
    ensures w in Sum(m, from) <==> w in m || w in from
    ensures w in m && w in from ==>
      && Sum(m, from)[w].freq == m[w].freq + from[w].freq
      && Sum(m, from)[w].good == (m[w].good + from[w].good) % 0x1_0000_0000
      && Sum(m, from)[w].bad == (m[w].bad + from[w].bad) % 0x1_0000_0000
    ensures w in m && w !in from ==> Sum(m, from)[w] == m[w]
    ensures w !in m && w in from ==> Sum(m, from)[w] == from[w]
  {
  }

  lemma SameMaps(a: CountMap, b: CountMap)
    requires forall w :: (w in a <==> w in b) && Get(a, w) == Get(b, w)
    ensures a == b
  {
    forall w | w in a ensures a[w] == b[w] { assert Get(a, w) == Get(b, w); }
  }

  /** Adding each word of a table once adds the two tables up. */
  lemma AddAllIsSum(m: CountMap, from: CountMap, ws: seq<Word>)
    requires NoRepeats(ws)
    requires ListsKeys(ws, from)
    ensures AddAll(m, from, ws) == Sum(m, from)
  {
    var a, b := AddAll(m, from, ws), Sum(m, from);
    forall w ensures (w in a <==> w in b) && Get(a, w) == Get(b, w) { SumAt(m, from, ws, w); }
    SameMaps(a, b);
  }

  // ----- the walk over the source -----

  function KeysOf(s: seq<HashNode>): seq<Word> {
    seq(|s|, i requires 0 <= i < |s| => s[i].key)
  }

  /** What the walk goes over: the list of the source and its nodes, its data
      blocks, and the counts in them; and what it adds these to. */
  class Walk {
    ghost const list: seq<HashNode>
    ghost const nodes: set<HashNode>
    ghost const table: map<Word, WordProp>
    ghost const from: CountMap
    ghost const m: CountMap
    ghost const ks: seq<Word>

    ghost constructor (dest: WordHash, src: WordHash)
      ensures Begins(dest, src)
    {
      list, nodes, table, from := src.iter, src.c.own, src.c.view.table, CountsOf(src.c.view.table);
      m, ks := CountsOf(dest.c.view.table), dest.c.view.keys;
    }

    ghost predicate Begins(dest: WordHash, src: WordHash)
      reads dest`c, src`iter, src`c, dest.c.view.table.Values, src.c.view.table.Values
    {
      && list == src.iter && nodes == src.c.own && table == src.c.view.table && from == CountsOf(table)
      && m == CountsOf(dest.c.view.table) && ks == dest.c.view.keys
    }
  }

  /** The data block of each node is that of its word. */
  ghost predicate Lists(w: Walk) {
    forall i {:trigger w.list[i]} | 0 <= i < |w.list| ::
      w.list[i] in w.nodes && w.list[i].key in w.table && w.table[w.list[i].key] == w.list[i].data
  }

  /** Some(i) if the walk has come to node i, and the source is as it was. */
  ghost function Reached(src: WordHash, w: Walk, s: HashNode?, i: nat): Option<nat>
    requires Lists(w)
    reads src`iter, src`iterPtr, w.nodes, w.table.Values
  {
    if i <= |w.list| && src.iter == w.list && Chain(w.list, null) && CountsOf(w.table) == w.from
      && s == src.iterPtr == (if i < |w.list| then w.list[i] else null)
    then Some(i) else None
  }

  /** Some(i) if what has been added to counts m and keys ks is that of the first i nodes. */
  ghost function Added(dest: WordHash, w: Walk, i: nat): Option<nat>
    reads dest`iterHead, dest`c, dest`iter, dest`iterTail
    reads dest.bin, dest.c.nodes, dest.iter, dest.c.view.table.Values
  {
    if i <= |w.list| && dest.Seen() == Some(dest.c.view)
      && CountsOf(dest.c.view.table) == AddAll(w.m, w.from, KeysOf(w.list[..i]))
      && dest.c.view.keys == AddKeys(w.ks, KeysOf(w.list[..i]))
    then Some(i) else None
  }

  lemma KeysNext(list: seq<HashNode>, i: nat)
    requires i < |list|
    ensures KeysOf(list[..i + 1]) == KeysOf(list[..i]) + [list[i].key]
  {
  }

  /** The counts that are read from node i. */
  lemma CountsAt(w: Walk, i: nat)
    requires Lists(w) && i < |w.list| && CountsOf(w.table) == w.from
    ensures CountsIn(w.list[i].data) == Get(w.from, w.list[i].key)
  {
    assert CountsOf(w.table)[w.list[i].key] == CountsIn(w.list[i].data);
  }

  /** One round, in terms of the counts of the source. */
  method AddStep(dest: WordHash, s: HashNode, ghost w: Walk, ghost i: nat)
    requires Lists(w) && i < |w.list| && s == w.list[i] && CountsOf(w.table) == w.from
    requires Added(dest, w, i) == Some(i)
    modifies dest, dest.bin, dest.c.own`iterNext, dest.c.view.table.Values
    ensures Added(dest, w, i + 1) == Some(i + 1)
    ensures fresh(dest.c.own - old(dest.c.own)) && fresh(dest.c.view.table.Values - old(dest.c.view.table.Values))
  {
    KeysNext(w.list, i);
    AddAllPush(w.m, w.from, KeysOf(w.list[..i]), s.key);
    CollectedPush(w.ks, KeysOf(w.list[..i]), s.key);
    CountsAt(w, i);
    AddNode(dest, s.key, Counts(s.data.freq, s.data.good, s.data.bad));
  }

  /** The table shares no node and no data block with the source. */
  ghost predicate Apart(c: Content, w: Walk) {
    w.table.Values !! c.view.table.Values && w.nodes !! c.own
  }

  /** Adding the counts of one node leaves the source alone. */
  method AddApart(dest: WordHash, src: WordHash, s: HashNode, ghost w: Walk, ghost i: nat)
    requires dest != src && Lists(w) && Apart(dest.c, w) && i < |w.list| && s == w.list[i]
    requires CountsOf(w.table) == w.from
    requires Reached(src, w, s, i) == Some(i) && Added(dest, w, i) == Some(i)
    modifies dest, dest.bin, dest.c.own`iterNext, dest.c.view.table.Values
    ensures Reached(src, w, s, i) == Some(i) && Added(dest, w, i + 1) == Some(i + 1)
    ensures fresh(dest.c.own - old(dest.c.own)) && fresh(dest.c.view.table.Values - old(dest.c.view.table.Values))
  {
    AddStep(dest, s, w, i);
    assert Reached(src, w, s, i) == old(Reached(src, w, s, i));
  }

  /** One round of the loop of wordhash_add. */
  method AddRound(dest: WordHash, src: WordHash, s: HashNode, ghost w: Walk, ghost i: nat) returns (n: HashNode?)
    requires dest != src && Lists(w) && Apart(dest.c, w) && i < |w.list|
    requires Reached(src, w, s, i) == Some(i) && Added(dest, w, i) == Some(i)
    modifies dest, dest.bin, dest.c.own`iterNext, dest.c.view.table.Values, src`iterPtr
    ensures Reached(src, w, n, i + 1) == Some(i + 1) && Added(dest, w, i + 1) == Some(i + 1)
    ensures fresh(dest.c.own - old(dest.c.own)) && fresh(dest.c.view.table.Values - old(dest.c.view.table.Values))
  {
    AddApart(dest, src, s, w, i);
    n := WalkOn(dest, src, w, s, i);
  }

  /** wordhash_next on the source leaves the destination alone. */
  method WalkOn(dest: WordHash, src: WordHash, ghost w: Walk, ghost s: HashNode?, ghost i: nat) returns (n: HashNode?)
    requires dest != src && Lists(w) && i < |w.list|
    requires Reached(src, w, s, i) == Some(i) && Added(dest, w, i + 1) == Some(i + 1)
    modifies src`iterPtr
    ensures Reached(src, w, n, i + 1) == Some(i + 1) && Added(dest, w, i + 1) == Some(i + 1)
  {
    n := src.Next(i);
  }

  /** The loop of wordhash_add. */
  method AddList(dest: WordHash, src: WordHash, ghost w: Walk)
    requires dest != src && Lists(w) && Apart(dest.c, w) && CountsOf(w.table) == w.from
    requires w.list == src.iter && src.iterHead == Head(w.list) && Chain(w.list, null)
    requires Added(dest, w, 0) == Some(0)
    modifies dest, dest.bin, dest.c.own`iterNext, dest.c.view.table.Values, src`iterPtr
    ensures Added(dest, w, |w.list|) == Some(|w.list|)
  {
    var s := WalkFrom(dest, src, w);
    ghost var i: nat := 0;
    while s != null
      invariant Reached(src, w, s, i) == Some(i) && Added(dest, w, i) == Some(i)
      invariant fresh(dest.c.own - old(dest.c.own)) && fresh(dest.c.view.table.Values - old(dest.c.view.table.Values))
      decreases |w.list| - i
    {
      s := AddRound(dest, src, s, w, i);
      i := i + 1;
    }
  }

  /** wordhash_first on the source. */
  method WalkFrom(dest: WordHash, src: WordHash, ghost w: Walk)
    returns (s: HashNode?)
    requires dest != src && Lists(w) && CountsOf(w.table) == w.from
    requires w.list == src.iter && src.iterHead == Head(w.list) && Chain(w.list, null)
    requires Added(dest, w, 0) == Some(0)
    modifies src`iterPtr
    ensures Reached(src, w, s, 0) == Some(0) && Added(dest, w, 0) == Some(0)
  {
    s := src.First();
  }

  lemma KeysListed(list: seq<HashNode>, table: map<Word, WordProp>)
    requires forall n | n in list :: n.key in table
    requires forall w | w in table :: exists n :: n in list && n.key == w
    ensures ListsKeys(KeysOf(list), table)
  {
    var ks := KeysOf(list);
    forall w | w in table ensures w in ks {
      var n :| n in list && n.key == w;
      var i :| 0 <= i < |list| && list[i] == n;
      assert ks[i] == w;
    }
  }

  lemma KeysOnce(list: seq<HashNode>)
    requires KeysDiffer(list)
    ensures NoRepeats(KeysOf(list))
  {
  }

  lemma SourceKeys(src: WordHash)
    requires src.Valid()
    ensures NoRepeats(KeysOf(src.iter)) && ListsKeys(KeysOf(src.iter), src.c.view.table)
  {
    src.IterInTable();
    KeysOnce(src.iter);
    KeysListed(src.iter, src.c.view.table);
  }

  lemma OwnNodes(src: WordHash)
    requires src.Valid()
    ensures forall n | n in src.iter :: n in src.c.own
  {
    forall n | n in src.iter ensures n in src.c.own {
      assert n in multiset(src.c.nodes);
      var i :| 0 <= i < |src.c.nodes| && src.c.nodes[i] == n;
    }
  }

  lemma ListedData(src: WordHash, list: seq<HashNode>, nodes: set<HashNode>, table: map<Word, WordProp>)
    requires src.Valid() && list == src.iter && nodes == src.c.own && table == src.c.view.table
    ensures forall n | n in list :: n in nodes && n.key in table && table[n.key] == n.data
  {
    src.IterInTable();
    OwnNodes(src);
  }

  lemma ListsReady(dest: WordHash, src: WordHash, w: Walk)
    requires src.Valid() && w.Begins(dest, src)
    ensures Lists(w) && Chain(w.list, null) && src.iterHead == Head(w.list)
  {
    ListedData(src, w.list, w.nodes, w.table);
    forall i {:trigger w.list[i]} | 0 <= i < |w.list| ensures w.list[i] in w.list {}
  }

  lemma AddedNone(dest: WordHash, src: WordHash, w: Walk)
    requires dest.Seen() == Some(dest.c.view) && w.Begins(dest, src)
    ensures Added(dest, w, 0) == Some(0)
  {
    assert KeysOf(w.list[..0]) == [];
  }

  /** What has been added at the end of the walk. */
  lemma WalkSum(src: WordHash, list: seq<HashNode>, m: CountMap, from: CountMap)
    requires src.Valid() && list == src.iter && from == CountsOf(src.c.view.table)
    ensures AddAll(m, from, KeysOf(list)) == Sum(m, from)
  {
    SourceKeys(src);
    AddAllIsSum(m, from, KeysOf(list));
  }

  /** wordhash_add: the counts of the two tables are added up, word by word;
      new words come in the order of the source list.  The source is not changed. */
  method Add(dest: WordHash, src: WordHash)
    requires dest != src && dest.Seen() == Some(dest.c.view) && src.Valid()
    requires src.c.view.table.Values !! dest.c.view.table.Values && src.c.own !! dest.c.own
    modifies dest, dest.bin, dest.c.own`iterNext, dest.c.view.table.Values, src`iterPtr
    ensures dest.Seen() == Some(dest.c.view)
    ensures CountsOf(dest.c.view.table) == Sum(old(CountsOf(dest.c.view.table)), old(CountsOf(src.c.view.table)))
    ensures dest.c.view.keys == AddKeys(old(dest.c.view.keys), KeysOf(src.iter))
    ensures dest.size == Plus(old(dest.count), old(src.count))
  {
    ghost var w := new Walk(dest, src);
    AddTables(dest, src, w);
  }

  /** The same, with what there was at the start kept in w. */
  method AddTables(dest: WordHash, src: WordHash, ghost w: Walk)
    requires dest != src && dest.Seen() == Some(dest.c.view) && src.Valid()
    requires w.Begins(dest, src) && Apart(dest.c, w)
    modifies dest, dest.bin, dest.c.own`iterNext, dest.c.view.table.Values, src`iterPtr
    ensures dest.Seen() == Some(dest.c.view) && dest.c.view.keys == AddKeys(w.ks, KeysOf(w.list))
    ensures CountsOf(dest.c.view.table) == Sum(w.m, w.from)
    ensures dest.size == Plus(old(dest.count), old(src.count))
  {
    WalkSum(src, w.list, w.m, w.from);
    var count := AddWalk(dest, src, w);
    AddedAll(dest, w);
    SetSize(dest, count);
  }

  /** All of wordhash_add but its last line. */
  method AddWalk(dest: WordHash, src: WordHash, ghost w: Walk) returns (count: Uint)
    requires dest != src && dest.Seen() == Some(dest.c.view) && src.Valid()
    requires w.Begins(dest, src) && Apart(dest.c, w)
    modifies dest, dest.bin, dest.c.own`iterNext, dest.c.view.table.Values, src`iterPtr
    ensures Added(dest, w, |w.list|) == Some(|w.list|) && count == Plus(old(dest.count), old(src.count))
  {
    ListsReady(dest, src, w);
    AddedNone(dest, src, w);
    count := Plus(dest.count, src.count);
    SetCount(dest, w, count);
    AddList(dest, src, w);
  }

  lemma AddedAll(dest: WordHash, w: Walk)
    requires Added(dest, w, |w.list|) == Some(|w.list|)
    ensures dest.Seen() == Some(dest.c.view)
    ensures CountsOf(dest.c.view.table) == AddAll(w.m, w.from, KeysOf(w.list))
    ensures dest.c.view.keys == AddKeys(w.ks, KeysOf(w.list))
  {
    assert w.list[..|w.list|] == w.list;
  }

  method SetSize(dest: WordHash, size: Uint)
    modifies dest`size
    ensures dest.size == size && dest.Seen() == old(dest.Seen())
    ensures CountsOf(dest.c.view.table) == old(CountsOf(dest.c.view.table))
  {
    dest.size := size;
  }

  method SetCount(dest: WordHash, ghost w: Walk, count: Uint)
    modifies dest`count
    ensures dest.count == count && Added(dest, w, 0) == old(Added(dest, w, 0))
  {
    dest.count := count;
  }
}
