// The hash table of wordhash.c: bins chained through next, and a list of all
// nodes chained through iterNext.

module WordHash {
  import opened Words
  import opened Options
  import opened HashNodes
  import opened ListSort

  const NHASH := 29989
  const MULT := 31
  const UINT := 0x1_0000_0000

  // ----- the hash of a word -----

  /** The value of the bytes of a word as digits to the base 31. */
  function Horner(w: Word): nat {
    if w == [] then 0 else MULT * Horner(w[..|w| - 1]) + w[|w| - 1] as nat
  }

  function Hash(w: Word): nat {
    Horner(w) % UINT % NHASH
  }

  lemma ModStep(h: nat, x: nat, b: nat)
    requires h == x % UINT
    ensures (MULT * h + b) % UINT == (MULT * x + b) % UINT
  {
    var q := x / UINT;
    assert MULT * x + b == MULT * h + b + MULT * q * UINT;
    AddMultiple(MULT * h + b, MULT * q);
  }

  lemma AddMultiple(a: nat, k: nat)
    ensures (a + k * UINT) % UINT == a % UINT
  {
    if k > 0 {
      AddMultiple(a, k - 1);
      assert a + k * UINT == a + (k - 1) * UINT + UINT;
    }
  }

  /** hash: each step wraps around at 32 bits; wrapping once at the end gives the same. */
  method HashWord(t: Word) returns (h: nat)
    ensures h == Hash(t) && h < NHASH
  {
    h := 0;
    var l := 0;
    while l < |t|
      invariant 0 <= l <= |t| && h == Horner(t[..l]) % UINT
    {
      assert t[..l + 1][..l] == t[..l];
      ModStep(h, Horner(t[..l]), t[l] as nat);
      h := (MULT * h + t[l] as nat) % UINT;
      l := l + 1;
    }
    assert t[..l] == t;
    h := h % NHASH;
  }

  // ----- what the table holds -----

  function AddKey(keys: seq<Word>, w: Word): seq<Word> {
    if w in keys then keys else keys + [w]
  }

  /** What a table holds: the data block of each word, and the words in the order of insertion. */
  datatype View = View(table: map<Word, WordProp>, keys: seq<Word>)

  /** The word has this data block now; a new word comes last. */
  function Put(v: View, t: Word, data: WordProp): View {
    View(v.table[t := data], AddKey(v.keys, t))
  }

  /** The nodes in the order of insertion, with the bin of each; what they
      stand for; the place of each word among them; the word of each data block;
      and the nodes as a set. */
  datatype Content = Content(nodes: seq<HashNode>, bins: seq<nat>, view: View, at: map<Word, nat>,
                             owner: map<WordProp, Word>, own: set<HashNode>)

  const EMPTY := Content([], [], View(map[], []), map[], map[], {})

  /** Each word has one node and one data block, and no two words share one. */
  ghost predicate Consistent(c: Content) {
    && |c.view.keys| == |c.nodes| == |c.bins| && OneToOne(c.view.keys, c.at, c.view.table, c.owner)
    && (forall i {:trigger c.nodes[i]} | 0 <= i < |c.nodes| ::
          Holds(c.nodes[i], c.view.keys[i], c.view.table) && c.nodes[i] in c.own)
  }

  ghost predicate Holds(n: HashNode, w: Word, table: map<Word, WordProp>) {
    n.key == w && w in table && table[w] == n.data
  }

  /** The keys are distinct, and so are their values; at gives a key's place, owner a value's key. */
  ghost predicate OneToOne<K, D>(keys: seq<K>, at: map<K, nat>, table: map<K, D>, owner: map<D, K>) {
    && (forall i {:trigger keys[i]} | 0 <= i < |keys| :: keys[i] in at && at[keys[i]] == i && keys[i] in table)
    && (forall k {:trigger at[k]} {:trigger k in at} | k in at :: at[k] < |keys| && keys[at[k]] == k)
    && (forall k {:trigger table[k]} {:trigger k in table} | k in table ::
          k in at && table[k] in owner && owner[table[k]] == k)
  }

  lemma OneToOnePush<K, D>(keys: seq<K>, at: map<K, nat>, table: map<K, D>, owner: map<D, K>, k: K, d: D)
    requires OneToOne(keys, at, table, owner) && k !in at && d !in owner
    ensures OneToOne(keys + [k], at[k := |keys|], table[k := d], owner[d := k])
  {
  }

  ghost predicate Hashed(c: Content) {
    forall i {:trigger c.bins[i]} | 0 <= i < |c.bins| && i < |c.view.keys| :: c.bins[i] == Hash(c.view.keys[i])
  }

  ghost function Push(c: Content, hn: HashNode, idx: nat): Content {
    Content(c.nodes + [hn], c.bins + [idx], Put(c.view, hn.key, hn.data), c.at[hn.key := |c.nodes|],
            c.owner[hn.data := hn.key], c.own + {hn})
  }

  lemma ConsistentPush(c: Content, hn: HashNode, idx: nat)
    requires Consistent(c) && hn.data !in c.owner && hn.key !in c.at
    ensures Consistent(Push(c, hn, idx)) && hn !in c.nodes
  {
    assert hn.key !in c.view.keys;
    OneToOnePush(c.view.keys, c.at, c.view.table, c.owner, hn.key, hn.data);
  }

  lemma HashedPush(c: Content, hn: HashNode, idx: nat)
    requires Consistent(c) && Hashed(c) && idx == Hash(hn.key) && hn.key !in c.at
    ensures Hashed(Push(c, hn, idx))
  {
    assert hn.key !in c.view.keys;
  }

  lemma PutBack(c: Content, t: Word)
    requires Consistent(c) && t in c.view.table
    ensures Put(c.view, t, c.view.table[t]) == c.view
  {
    assert c.view.keys[c.at[t]] == t;
  }

  // ----- bins -----

  /** p begins a chain of those of the first n nodes that are in bin idx, the latest first. */
  ghost predicate Bucket(p: HashNode?, nodes: seq<HashNode>, bins: seq<nat>, n: nat, idx: nat)
    requires n <= |nodes| == |bins|
    reads nodes`next
  {
    if n == 0 then p == null
    else if bins[n - 1] == idx then p == nodes[n - 1] && Bucket(nodes[n - 1].next, nodes, bins, n - 1, idx)
    else Bucket(p, nodes, bins, n - 1, idx)
  }

  ghost predicate Bins(bin: array<HashNode?>, nodes: seq<HashNode>, bins: seq<nat>)
    reads bin, nodes`next
  {
    && |bins| == |nodes| && bin.Length == NHASH
    && forall idx | 0 <= idx < NHASH :: Bucket(bin[idx], nodes, bins, |nodes|, idx)
  }

  lemma {:induction false} BucketLonger(p: HashNode?, nodes: seq<HashNode>, bins: seq<nat>, n: nat, idx: nat,
                                        hn: HashNode, b: nat)
    requires n <= |nodes| == |bins| && Bucket(p, nodes, bins, n, idx)
    ensures Bucket(p, nodes + [hn], bins + [b], n, idx)
    decreases n
  {
    if n > 0 {
      BucketLonger(if bins[n - 1] == idx then nodes[n - 1].next else p, nodes, bins, n - 1, idx, hn, b);
    }
  }

  /** A search in bin idx for the node at place want (if any) has come to p,
      and has passed all but n nodes. */
  ghost predicate Searching(p: HashNode?, c: Content, idx: nat, n: nat, w: Word)
    requires Consistent(c) && n <= |c.nodes|
    reads c.nodes`next
  {
    && (w in c.at ==> c.at[w] < n)
    && if n == 0 then p == null else p == c.nodes[n - 1] && Bucket(c.nodes[n - 1].next, c.nodes, c.bins, n - 1, idx)
  }

  lemma {:induction false} SearchOn(p: HashNode?, c: Content, idx: nat, n: nat, w: Word) returns (k: nat)
    requires Consistent(c) && n <= |c.nodes| && Bucket(p, c.nodes, c.bins, n, idx)
    requires w in c.at ==> c.at[w] < n && c.bins[c.at[w]] == idx
    ensures k <= n && Searching(p, c, idx, k, w)
    decreases n
  {
    if n == 0 || c.bins[n - 1] == idx { return n; }
    k := SearchOn(p, c, idx, n - 1, w);
  }

  /** The loop of wordhash_search. */
  method SearchBin(hn0: HashNode?, ghost c: Content, ghost idx: nat, t: Word) returns (data: WordProp?)
    requires Consistent(c) && Bucket(hn0, c.nodes, c.bins, |c.nodes|, idx)
    requires t in c.at ==> c.bins[c.at[t]] == idx
    ensures data == if t in c.view.table then c.view.table[t] else null
  {
    var hn := hn0;
    ghost var k: nat := SearchOn(hn, c, idx, |c.nodes|, t);
    while hn != null
      invariant k <= |c.nodes| && Searching(hn, c, idx, k, t)
      decreases k
    {
      if hn.key == t { return hn.data; }
      k := SearchOn(hn.next, c, idx, k - 1, t);
      hn := hn.next;
    }
    return null;
  }

  // ----- the table -----

  /** The counts of a word. */
  datatype Counts = Counts(freq: int, good: Uint, bad: Uint)

  const NONE := Counts(0, 0, 0)

  ghost function CountsIn(d: WordProp): Counts
    reads d
  {
    Counts(d.freq, d.good, d.bad)
  }

  class WordHash {
    const bin: array<HashNode?>
    var iterHead: HashNode?
    var iterTail: HashNode?
    var iterPtr: HashNode?
    var count: Uint
    var size: Uint
    ghost var c: Content
    ghost var iter: seq<HashNode>    // in the order of iteration

    ghost predicate Valid()
      reads `iterHead, `c, `iter, bin, c.nodes, iter
    {
      && Consistent(c) && Hashed(c) && Bins(bin, c.nodes, c.bins)
      && multiset(iter) == multiset(c.nodes) && iterHead == Head(iter) && Chain(iter, null)
    }

    /** No sort has moved the nodes since the last insertion. */
    ghost predicate InOrder()
      reads `c, `iter, `iterTail
    {
      iter == c.nodes && (iter != [] ==> iterTail == iter[|iter| - 1])
    }

    /** The table as it is seen from outside, if all is in order for an insertion. */
    ghost function Seen(): Option<View>
      reads `iterHead, `c, `iter, `iterTail, bin, c.nodes, iter
    {
      if Valid() && InOrder() then Some(c.view) else None
    }

    /** wordhash_new */
    constructor ()
      ensures Valid() && InOrder() && c == EMPTY
      ensures count == 0 && size == 0 && fresh(bin)
    {
      bin := new HashNode?[NHASH](_ => null);
      iterHead, iterTail, iterPtr, count, size := null, null, null, 0, 0;
      c, iter := EMPTY, [];
    }

    /** wordhash_search: the data of the word, if it is in the table. */
    method Search(t: Word, idx0: nat) returns (data: WordProp?)
      requires Valid() && idx0 in {0, Hash(t)}
      ensures data == if t in c.view.table then c.view.table[t] else null
    {
      var idx := idx0;
      if idx == 0 { idx := HashWord(t); }
      data := SearchBin(bin[idx], c, idx, t);
    }

    /** A new node at the head of its bin. */
    method Link(hn: HashNode, idx: nat)
      requires Bins(bin, c.nodes, c.bins) && hn !in c.nodes && idx < NHASH
      modifies bin, hn`next
      ensures Bins(bin, c.nodes + [hn], c.bins + [idx])
    {
      hn.next := bin[idx];
      bin[idx] := hn;
      forall i: nat | i < NHASH ensures Bucket(bin[i], c.nodes + [hn], c.bins + [idx], |c.nodes| + 1, i) {
        BucketLonger(if i == idx then hn.next else bin[i], c.nodes, c.bins, |c.nodes|, i, hn, idx);
      }
    }

    /** A new node at the end of the list. */
    method Append(hn: HashNode, ghost d: Content)
      requires InOrder() && iterHead == Head(iter) && Chain(iter, null) && hn !in iter && hn.iterNext == null
      requires d.nodes == iter + [hn] && Bins(bin, d.nodes, d.bins)
      modifies `iterHead, `iterTail, `c, `iter, iter`iterNext
      ensures InOrder() && iterHead == Head(iter) && Chain(iter, null) && c == d && Bins(bin, d.nodes, d.bins)
    {
      if iterHead == null {
        iterHead := hn;
      } else {
        iterTail.iterNext := hn;
      }
      iterTail := hn;
      c, iter := d, d.nodes;
    }

    /** wordhash.c:337-348: a new node, in its bin and in the list. */
    method AddNode(hn: HashNode, idx: nat, ghost d: Content)
      requires Valid() && InOrder() && idx < NHASH && hn.iterNext == null && hn !in c.nodes
      requires d == Push(c, hn, idx) && Consistent(d) && Hashed(d)
      modifies `iterHead, `iterTail, `c, `iter, bin, c.nodes`iterNext, hn`next
      ensures Valid() && InOrder() && c == d
    {
      Link(hn, idx);
      Append(hn, d);
    }

    /** The counts of wordhash.c:350-351. */
    method CountWord()
      requires Valid() && InOrder()
      modifies `count, `size
      ensures Valid() && InOrder() && count == Plus(old(count), 1) && size == Plus(old(size), 1)
    {
      count := Plus(count, 1);
      size := Plus(size, 1);
    }

    /** wordhash.c:328-335: a node for a word that is not in the table, not yet linked. */
    method NewNode(t: Word, ghost idx: nat) returns (hn: HashNode, ghost d: Content)
      requires Valid() && InOrder() && idx == Hash(t) && t !in c.view.table
      ensures Valid() && InOrder()
      ensures fresh(hn) && fresh(hn.data) && CountsIn(hn.data) == NONE && hn.key == t && hn.iterNext == null
      ensures d == Push(c, hn, idx) && Consistent(d) && Hashed(d) && hn !in c.nodes
    {
      var data := new WordProp();
      hn := new HashNode(t, data);
      ConsistentPush(c, hn, idx);
      HashedPush(c, hn, idx);
      d := Push(c, hn, idx);
    }

    /** The node linked and counted (wordhash.c:337-351). */
    method Enter(hn: HashNode, idx: nat, ghost d: Content)
      requires Valid() && InOrder() && idx < NHASH && hn.iterNext == null && hn !in c.nodes
      requires d == Push(c, hn, idx) && Consistent(d) && Hashed(d)
      modifies `iterHead, `iterTail, `c, `iter, `count, `size, bin, c.nodes`iterNext, hn`next
      ensures Valid() && InOrder() && c == d && CountsIn(hn.data) == old(CountsIn(hn.data))
      ensures count == Plus(old(count), 1) && size == Plus(old(size), 1)
    {
      AddNode(hn, idx, d);
      CountWord();
    }

    /** wordhash.c:328-353: make the node, link it and count it. */
    method InsertNew(t: Word, idx: nat) returns (data: WordProp)
      requires Valid() && InOrder() && idx == Hash(t) && t !in c.view.table
      modifies this, bin, c.nodes`iterNext
      ensures Valid() && InOrder() && c.view == Put(old(c.view), t, data)
      ensures unchanged(old(c.view.table.Values))
      ensures fresh(c.own - old(c.own)) && fresh(data) && CountsIn(data) == NONE
      ensures count == Plus(old(count), 1) && size == Plus(old(size), 1)
    {
      var node, d := NewNode(t, idx);
      Enter(node, idx, d);
      data := node.data;
    }

    /** wordhash_standard_insert: the data of the word, in a new node at the
        end of the list if there was none. */
    method Insert(t: Word) returns (data: WordProp)
      requires Seen() == Some(c.view)
      modifies this, bin, c.nodes`iterNext
      ensures Seen() == Some(c.view)
      ensures c.view == Put(old(c.view), t, data) && fresh(c.own - old(c.own))
      ensures unchanged(old(c.view.table.Values))
      ensures t in old(c.view.table) ==> data == old(c.view.table)[t]
      ensures t in old(c.view.table) ==> c == old(c) && count == old(count) && size == old(size)
      ensures t !in old(c.view.table) ==> fresh(data) && CountsIn(data) == NONE
      ensures t !in old(c.view.table) ==> count == Plus(old(count), 1) && size == Plus(old(size), 1)
    {
      var idx := HashWord(t);
      var buf := Search(t, idx);
      if buf != null {
        PutBack(c, t);
        return buf;
      }
      data := InsertNew(t, idx);
    }

    /** The list has the node of each word, once. */
    lemma IterInTable()
      requires Valid()
      ensures forall n | n in iter :: n.key in c.view.table && c.view.table[n.key] == n.data
      ensures forall w | w in c.view.table :: c.nodes[c.at[w]] in iter
      ensures KeysDiffer(iter)
      ensures IsList(iterHead, iter)
    {
      forall n | n in iter ensures n.key in c.at && c.nodes[c.at[n.key]] == n {
        assert n in multiset(c.nodes);
      }
      forall w | w in c.at ensures c.nodes[c.at[w]] in iter {
        assert c.nodes[c.at[w]] in multiset(iter);
      }
      KeysApart(c);
      DistinctByCount(c.nodes, iter);
      forall i, j | 0 <= i < j < |iter| ensures iter[i].key != iter[j].key {
        assert iter[i] in multiset(c.nodes) && iter[j] in multiset(c.nodes) && iter[i] != iter[j];
      }
    }

    lemma IterIsList()
      requires Valid()
      ensures IsList(iterHead, iter) && KeysDiffer(c.nodes)
    {
      IterInTable();
      KeysApart(c);
    }

    /** wordhash_first */
    method First() returns (n: HashNode?)
      requires iterHead == Head(iter)
      modifies `iterPtr
      ensures n == iterPtr == Head(iter)
    {
      iterPtr := iterHead;
      n := iterPtr;
    }

    /** wordhash_next: the node after the one given out last. */
    method Next(ghost i: nat) returns (n: HashNode?)
      requires Chain(iter, null) && i < |iter| && iterPtr == iter[i]
      modifies `iterPtr
      ensures n == iterPtr == if i + 1 < |iter| then iter[i + 1] else null
    {
      if iterPtr != null { iterPtr := iterPtr.iterNext; }
      n := iterPtr;
    }

    /** wordhash_sort: the list in the order of word_cmp; the bins are as before. */
    method Sort()
      requires Valid() && |iter| <= 0x4000_0000
      modifies `iterHead, `iter, iter`iterNext
      ensures Valid() && SortedByKey(iter)
    {
      IterIsList();
      var list, sorted := SortByKey(iterHead, iter, c.nodes, bin, c.bins);
      iterHead, iter := list, sorted;
    }
  }

  ghost predicate KeysDiffer(s: seq<HashNode>) {
    forall i, j | 0 <= i < j < |s| :: s[i].key != s[j].key
  }

  lemma KeysApart(c: Content)
    requires Consistent(c)
    ensures KeysDiffer(c.nodes)
  {
  }

  ghost predicate SortedByKey(s: seq<HashNode>) {
    forall i, j | 0 <= i < j < |s| :: WordCmp(s[i].key, s[j].key) < 0
  }

  /** Sorting the list leaves the bins alone. */
  method SortByKey(list0: HashNode?, ghost s: seq<HashNode>, ghost nodes: seq<HashNode>,
                   ghost bin: array<HashNode?>, ghost bins: seq<nat>)
    returns (list: HashNode?, ghost sorted: seq<HashNode>)
    requires IsList(list0, s) && |s| <= 0x4000_0000 && multiset(s) == multiset(nodes)
    requires KeysDiffer(nodes)
    requires Bins(bin, nodes, bins)
    modifies s`iterNext
    ensures IsList(list, sorted) && multiset(sorted) == multiset(nodes) && SortedByKey(sorted)
    ensures Bins(bin, nodes, bins)
  {
    var le: Order := (a: HashNode, b: HashNode) => WordCmp(a.key, b.key) <= 0;
    KeysTotal(le, s);
    list, sorted := ListSort.ListSort(list0, le, s);
    SortedStrictly(le, nodes, s, sorted);
  }

  function Plus(a: Uint, b: Uint): Uint {
    if a + b < UINT then a + b else a + b - UINT
  }

  lemma KeysTotal(le: Order, s: seq<HashNode>)
    requires forall a: HashNode, b: HashNode | a in s && b in s :: le(a, b) <==> WordCmp(a.key, b.key) <= 0
    ensures TotalPreorder(le, s)
  {
    forall a, b | a in s && b in s ensures le(a, b) || le(b, a) { WordCmpIsLexicographic(a.key, b.key); }
    forall a, b, c | a in s && b in s && c in s && le(a, b) && le(b, c) ensures le(a, c) {
      WordCmpTransitive(a.key, b.key, c.key);
    }
  }

  lemma SortedStrictly(le: Order, nodes: seq<HashNode>, s: seq<HashNode>, sorted: seq<HashNode>)
    requires KeysDiffer(nodes) && multiset(s) == multiset(nodes) && StablySorted(le, s, sorted)
    requires forall a: HashNode, b: HashNode | a in s && b in s :: le(a, b) <==> WordCmp(a.key, b.key) <= 0
    requires Distinct(sorted)
    ensures SortedByKey(sorted)
  {
    forall i, j | 0 <= i < j < |sorted| ensures WordCmp(sorted[i].key, sorted[j].key) < 0 {
      var a, b := sorted[i], sorted[j];
      assert a in multiset(nodes) && b in multiset(nodes) && a in multiset(s) && b in multiset(s);
      assert a in nodes && b in nodes && a != b;
      WordCmpIsLexicographic(a.key, b.key);
    }
  }
}
