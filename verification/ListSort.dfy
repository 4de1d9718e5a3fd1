// The bottom-up merge sort of listsort.c, on nodes linked by iterNext.

module ListSort {
  import opened HashNodes

  /** compare(a, b) <= 0 */
  type Order = (HashNode, HashNode) -> bool

  /** The comparator is total and transitive on the nodes of the list. */
  ghost predicate TotalPreorder(le: Order, s: seq<HashNode>) {
    && (forall a, b | a in s && b in s :: le(a, b) || le(b, a))
    && (forall a, b, c | a in s && b in s && c in s :: le(a, b) && le(b, c) ==> le(a, c))
  }

  // ----- the sort on sequences -----

  function Min(a: nat, b: nat): nat { if a <= b then a else b }

  function Merge(le: Order, p: seq<HashNode>, q: seq<HashNode>): seq<HashNode> {
    if p == [] then q
    else if q == [] then p
    else if le(p[0], q[0]) then [p[0]] + Merge(le, p[1..], q)
    else [q[0]] + Merge(le, p, q[1..])
  }

  /** One pass over the list, merging neighbouring runs of length k. */
  function Pass(le: Order, s: seq<HashNode>, k: nat): seq<HashNode>
    requires k > 0
    decreases |s|
  {
    if s == [] then []
    else
      var m := Min(k, |s|);
      var n := Min(2 * k, |s|);
      Merge(le, s[..m], s[m..n]) + Pass(le, s[n..], k)
  }

  /** Ordered, with ties in the order given by pos. */
  ghost predicate Ordered(le: Order, pos: HashNode -> int, s: seq<HashNode>) {
    forall i, j :: 0 <= i < j < |s| ==> Before(le, pos, s[i], s[j])
  }

  predicate Before(le: Order, pos: HashNode -> int, a: HashNode, b: HashNode) {
    le(a, b) && (le(b, a) ==> pos(a) < pos(b))
  }

  ghost predicate AllBefore(pos: HashNode -> int, p: seq<HashNode>, q: seq<HashNode>) {
    forall a, b :: a in p && b in q ==> pos(a) < pos(b)
  }

  /** The list is a row of ordered runs of length k (the last may be shorter),
      each holding nodes from later positions than the one before. */
  ghost predicate Runs(le: Order, pos: HashNode -> int, s: seq<HashNode>, k: nat)
    requires k > 0
    decreases |s|
  {
    s == [] ||
    (var m := Min(k, |s|);
     Ordered(le, pos, s[..m]) && AllBefore(pos, s[..m], s[m..]) && Runs(le, pos, s[m..], k))
  }

  lemma {:induction false} MergeKeepsNodes(le: Order, p: seq<HashNode>, q: seq<HashNode>)
    ensures multiset(Merge(le, p, q)) == multiset(p) + multiset(q)
    ensures |Merge(le, p, q)| == |p| + |q|
    decreases |p| + |q|
  {
    if p != [] && q != [] {
      if le(p[0], q[0]) {
        MergeKeepsNodes(le, p[1..], q);
        assert p == [p[0]] + p[1..];
      } else {
        MergeKeepsNodes(le, p, q[1..]);
        assert q == [q[0]] + q[1..];
      }
    }
  }

  lemma OrderedCons(le: Order, pos: HashNode -> int, a: HashNode, s: seq<HashNode>, m: multiset<HashNode>)
    requires Ordered(le, pos, s) && multiset(s) == m
    requires forall b | b in m :: Before(le, pos, a, b)
    ensures Ordered(le, pos, [a] + s)
  {
    forall j | 0 <= j < |s| ensures Before(le, pos, a, s[j]) {
      assert s[j] in multiset(s);
    }
  }

  lemma {:induction false} MergeOrders(le: Order, pos: HashNode -> int, p: seq<HashNode>, q: seq<HashNode>)
    requires TotalPreorder(le, p + q) && Ordered(le, pos, p) && Ordered(le, pos, q) && AllBefore(pos, p, q)
    ensures Ordered(le, pos, Merge(le, p, q))
    decreases |p| + |q|
  {
    if p != [] && q != [] {
      assert forall a | a in p || a in q :: a in p + q;
      if le(p[0], q[0]) {
        MergeOrders(le, pos, p[1..], q);
        MergeKeepsNodes(le, p[1..], q);
        forall b | b in multiset(p[1..]) + multiset(q) ensures Before(le, pos, p[0], b) {
          if b in p[1..] {
            var j :| 0 <= j < |p| - 1 && p[1..][j] == b;
            assert Before(le, pos, p[0], p[j + 1]);
          } else {
            var j :| 0 <= j < |q| && q[j] == b;
            assert j > 0 ==> Before(le, pos, q[0], q[j]);
          }
        }
        OrderedCons(le, pos, p[0], Merge(le, p[1..], q), multiset(p[1..]) + multiset(q));
      } else {
        MergeOrders(le, pos, p, q[1..]);
        MergeKeepsNodes(le, p, q[1..]);
        forall b | b in multiset(p) + multiset(q[1..]) ensures Before(le, pos, q[0], b) {
          if b in q[1..] {
            var j :| 0 <= j < |q| - 1 && q[1..][j] == b;
            assert Before(le, pos, q[0], q[j + 1]);
          } else {
            var j :| 0 <= j < |p| && p[j] == b;
            assert j > 0 ==> Before(le, pos, p[0], p[j]);
          }
        }
        OrderedCons(le, pos, q[0], Merge(le, p, q[1..]), multiset(p) + multiset(q[1..]));
      }
    }
  }

  lemma CutKeepsNodes(s: seq<HashNode>, m: nat, n: nat)
    requires m <= n <= |s|
    ensures multiset(s[..m]) + multiset(s[m..n]) + multiset(s[n..]) == multiset(s)
  {
    assert s[..m] + s[m..n] == s[..n];
    assert s[..n] + s[n..] == s;
  }

  lemma {:induction false} PassKeepsNodes(le: Order, s: seq<HashNode>, k: nat)
    requires k > 0
    ensures multiset(Pass(le, s, k)) == multiset(s) && |Pass(le, s, k)| == |s|
    decreases |s|
  {
    if s != [] {
      var m, n := Min(k, |s|), Min(2 * k, |s|);
      MergeKeepsNodes(le, s[..m], s[m..n]);
      PassKeepsNodes(le, s[n..], k);
      CutKeepsNodes(s, m, n);
    }
  }

  lemma SameNodes(s: seq<HashNode>, t: seq<HashNode>, a: HashNode)
    requires multiset(s) == multiset(t)
    ensures a in s <==> a in t
  {
    assert a in multiset(s) <==> a in multiset(t);
  }

  lemma CutTwice(s: seq<HashNode>, m: nat, n: nat)
    requires m <= n <= |s|
    ensures s[m..][..n - m] == s[m..n] && s[m..][n - m..] == s[n..] && s[..n] == s[..m] + s[m..n]
  {
  }

  lemma AllBeforeJoin(pos: HashNode -> int, p: seq<HashNode>, q: seq<HashNode>, r: seq<HashNode>)
    requires AllBefore(pos, p, q + r) && AllBefore(pos, q, r)
    ensures AllBefore(pos, p, q) && AllBefore(pos, p + q, r)
  {
    forall a, b | a in p && (b in q || b in r) ensures pos(a) < pos(b) { assert b in q + r; }
  }

  /** Where one run ends, the next begins. */
  lemma RunsSplit(le: Order, pos: HashNode -> int, s: seq<HashNode>, k: nat)
    requires k > 0 && s != [] && Runs(le, pos, s, k)
    ensures var m, n := Min(k, |s|), Min(2 * k, |s|);
      && Ordered(le, pos, s[..m]) && Ordered(le, pos, s[m..n]) && AllBefore(pos, s[..m], s[m..n])
      && AllBefore(pos, s[..n], s[n..]) && Runs(le, pos, s[n..], k)
  {
    var m, n := Min(k, |s|), Min(2 * k, |s|);
    var t := s[m..];
    CutTwice(s, m, n);
    if t == [] {
      assert s[m..n] == [] && s[n..] == [];
    } else {
      assert Min(k, |t|) == n - m;
      assert t == s[m..n] + s[n..];
      AllBeforeJoin(pos, s[..m], s[m..n], s[n..]);
    }
  }

  /** A pass over runs of length k leaves runs of length 2k. */
  lemma {:induction false} PassDoublesRuns(le: Order, pos: HashNode -> int, s: seq<HashNode>, k: nat)
    requires k > 0 && TotalPreorder(le, s) && Runs(le, pos, s, k)
    ensures Runs(le, pos, Pass(le, s, k), 2 * k)
    decreases |s|
  {
    if s != [] {
      var m, n := Min(k, |s|), Min(2 * k, |s|);
      RunsSplit(le, pos, s, k);
      assert s[..m] + s[m..n] == s[..n];
      MergeOrders(le, pos, s[..m], s[m..n]);
      MergeKeepsNodes(le, s[..m], s[m..n]);
      PassDoublesRuns(le, pos, s[n..], k);
      PassKeepsNodes(le, s[n..], k);
      var first, rest := Merge(le, s[..m], s[m..n]), Pass(le, s[n..], k);
      assert s[..n] == s[..m] + s[m..n];
      assert multiset(first) == multiset(s[..n]);
      forall a, b | a in first && b in rest ensures pos(a) < pos(b) {
        SameNodes(first, s[..n], a);
        SameNodes(rest, s[n..], b);
      }
      PassFirstRun(le, pos, first, rest, k);
    }
  }

  lemma PassFirstRun(le: Order, pos: HashNode -> int, first: seq<HashNode>, rest: seq<HashNode>, k: nat)
    requires k > 0 && first != [] && |first| <= 2 * k && (|first| < 2 * k ==> rest == [])
    requires Ordered(le, pos, first) && AllBefore(pos, first, rest) && Runs(le, pos, rest, 2 * k)
    ensures Runs(le, pos, first + rest, 2 * k)
  {
    var s := first + rest;
    assert s[..|first|] == first && s[|first|..] == rest;
  }

  lemma {:induction false} SingletonsAreRuns(le: Order, pos: HashNode -> int, s: seq<HashNode>)
    requires forall i, j :: 0 <= i < j < |s| ==> pos(s[i]) < pos(s[j])
    ensures Runs(le, pos, s, 1)
    decreases |s|
  {
    if s != [] { SingletonsAreRuns(le, pos, s[1..]); }
  }

  function IndexOf(s: seq<HashNode>, a: HashNode): (i: int)
    ensures a in s ==> 0 <= i < |s| && s[i] == a
  {
    if s == [] then 0 else if s[0] == a then 0 else 1 + IndexOf(s[1..], a)
  }

  ghost predicate Distinct(s: seq<HashNode>) {
    forall i, j :: 0 <= i < j < |s| ==> s[i] != s[j]
  }

  /** The same nodes, in ascending order, ties in their old order. */
  ghost predicate StablySorted(le: Order, before: seq<HashNode>, s: seq<HashNode>) {
    && multiset(s) == multiset(before)
    && forall i, j :: 0 <= i < j < |s| ==>
         le(s[i], s[j]) && (le(s[j], s[i]) ==> IndexOf(before, s[i]) < IndexOf(before, s[j]))
  }

  // ----- the lists -----

  /** The nodes of s are linked in this order, and the last one to end. */
  ghost predicate Chain(s: seq<HashNode>, end: HashNode?)
    reads s
  {
    Linked(s) && (s != [] ==> s[|s| - 1].iterNext == end)
  }

  /** The nodes of s are linked in this order; the last link is not looked at. */
  ghost predicate Linked(s: seq<HashNode>)
    reads s
  {
    forall i {:trigger s[i].iterNext} :: 0 <= i < |s| - 1 ==> s[i].iterNext == s[i + 1]
  }

  function Head(s: seq<HashNode>): HashNode? { if s == [] then null else s[0] }

  function Last(s: seq<HashNode>): HashNode? { if s == [] then null else s[|s| - 1] }

  ghost predicate IsList(list: HashNode?, s: seq<HashNode>)
    reads s
  {
    list == Head(s) && Distinct(s) && Chain(s, null)
  }

  lemma ChainSuffix(s: seq<HashNode>, m: nat)
    requires Chain(s, null) && m <= |s|
    ensures Chain(s[m..], null)
  {
  }

  lemma DistinctByCount(s: seq<HashNode>, t: seq<HashNode>)
    requires Distinct(s) && multiset(s) == multiset(t)
    ensures Distinct(t)
  {
    if i, j :| 0 <= i < j < |t| && t[i] == t[j] {
      assert t == t[..i] + [t[i]] + t[i + 1..j] + [t[j]] + t[j + 1..];
      var x := t[i];
      assert multiset(t)[x] >= 2;
      DistinctCount(s, x);
    }
  }

  lemma {:induction false} DistinctCount(s: seq<HashNode>, x: HashNode)
    requires Distinct(s)
    ensures multiset(s)[x] <= 1
    decreases |s|
  {
    if s != [] {
      DistinctCount(s[1..], x);
      assert s == [s[0]] + s[1..];
      if s[0] == x { assert x !in s[1..]; }
    }
  }

  /** Append node e to the merged list. */
  method Append(list: HashNode?, tail: HashNode?, e: HashNode, ghost out: seq<HashNode>)
    returns (list': HashNode)
    requires list == Head(out) && tail == Last(out) && Linked(out) && Distinct(out) && e !in out
    modifies (if tail == null then {} else {tail})`iterNext
    ensures list' == Head(out + [e]) && Linked(out + [e])
    ensures tail != null ==> tail.iterNext == e
  {
    if tail != null {
      tail.iterNext := e;
      list' := list;
    } else {
      list' := e;
    }
  }

  /** The part of the rest that belongs to a run of n nodes, and the part after it. */
  function Front(s: seq<HashNode>, n: nat): seq<HashNode> { s[..Min(n, |s|)] }

  function Back(s: seq<HashNode>, n: nat): seq<HashNode> { s[Min(n, |s|)..] }

  lemma TakeP(le: Order, out: seq<HashNode>, p: seq<HashNode>, q: seq<HashNode>)
    requires p != [] && (q == [] || le(p[0], q[0]))
    ensures out + [p[0]] + Merge(le, p[1..], q) == out + Merge(le, p, q)
  {
    if q == [] {
      assert Merge(le, p[1..], q) == p[1..];
      assert p == [p[0]] + p[1..];
    }
    assert Merge(le, p, q) == [p[0]] + Merge(le, p[1..], q);
  }

  lemma TakeQ(le: Order, out: seq<HashNode>, p: seq<HashNode>, rest: seq<HashNode>, n: nat)
    requires rest != [] && n > 0 && (p == [] || !le(p[0], rest[0]))
    ensures out + [rest[0]] + Merge(le, p, Front(rest[1..], n - 1)) == out + Merge(le, p, Front(rest, n))
    ensures Back(rest[1..], n - 1) == Back(rest, n)
  {
    var q := Front(rest, n);
    assert q[1..] == Front(rest[1..], n - 1);
    assert Merge(le, p, q) == [q[0]] + Merge(le, p, q[1..]);
  }

  /** The three lists of a merge: merged nodes, the first run, and the rest of the list. */
  ghost predicate Parts(nodes: set<HashNode>, list: HashNode?, tail: HashNode?, out: seq<HashNode>,
                        p: HashNode?, run: seq<HashNode>, q: HashNode?, rest: seq<HashNode>)
    reads nodes, out, run, rest
  {
    && Within(out, nodes) && Within(run, nodes) && Within(rest, nodes)
    && list == Head(out) && tail == Last(out) && Linked(out)
    && (run != [] ==> p == run[0]) && Linked(run)
    && q == Head(rest) && Chain(rest, null)
    && Distinct(out) && Distinct(run) && Distinct(rest)
    && Apart(out, run) && Apart(out, rest) && Apart(run, rest)
  }

  ghost predicate Within(s: seq<HashNode>, nodes: set<HashNode>) {
    forall i | 0 <= i < |s| :: s[i] in nodes
  }

  ghost predicate Apart(s: seq<HashNode>, t: seq<HashNode>) {
    forall i, j | 0 <= i < |s| && 0 <= j < |t| :: s[i] != t[j]
  }

  /** Take the next node from the first run. */
  method StepP(ghost nodes: set<HashNode>, list: HashNode?, tail: HashNode?, ghost out: seq<HashNode>,
               p: HashNode, ghost run: seq<HashNode>,
               ghost q: HashNode?, ghost rest: seq<HashNode>)
    returns (list': HashNode, p': HashNode?)
    requires run != [] && Parts(nodes, list, tail, out, p, run, q, rest)
    modifies (if tail == null then {} else {tail})`iterNext
    ensures Parts(nodes, list', p, out + [p], p', run[1..], q, rest)
  {
    p' := p.iterNext;
    assert forall i | 0 <= i < |run| - 1 :: run[1..][i] == run[i + 1];
    list' := Append(list, tail, p, out);
  }

  /** Take the next node from the second run, the front of the rest of the list. */
  method StepQ(ghost nodes: set<HashNode>, list: HashNode?, tail: HashNode?, ghost out: seq<HashNode>,
               ghost p: HashNode?, ghost run: seq<HashNode>,
               q: HashNode, ghost rest: seq<HashNode>)
    returns (list': HashNode, q': HashNode?)
    requires rest != [] && Parts(nodes, list, tail, out, p, run, q, rest)
    modifies (if tail == null then {} else {tail})`iterNext
    ensures Parts(nodes, list', q, out + [q], p, run, q', rest[1..])
  {
    q' := q.iterNext;
    assert forall i | 0 <= i < |rest| - 1 :: rest[1..][i] == rest[i + 1] && rest[1..][i] != tail;
    ChainSuffix(rest, 1);
    list' := Append(list, tail, q, out);
  }

  /** One round of the merge loop: decide which run the next node comes from, and move it. */
  method MergeStep(le: Order, ghost nodes: set<HashNode>, list: HashNode?, tail: HashNode?, ghost out: seq<HashNode>,
                   p: HashNode?, psize: nat, ghost run: seq<HashNode>,
                   q: HashNode?, qsize: nat, ghost rest: seq<HashNode>)
    returns (list': HashNode, tail': HashNode, ghost out': seq<HashNode>,
             p': HashNode?, psize': nat, ghost run': seq<HashNode>,
             q': HashNode?, qsize': nat, ghost rest': seq<HashNode>)
    requires Parts(nodes, list, tail, out, p, run, q, rest) && psize == |run|
    requires psize > 0 || (qsize > 0 && q != null)
    modifies nodes`iterNext
    ensures Parts(nodes, list', tail', out', p', run', q', rest') && psize' == |run'|
    ensures out' + Merge(le, run', Front(rest', qsize')) == out + Merge(le, run, Front(rest, qsize))
    ensures Back(rest', qsize') == Back(rest, qsize)
    ensures psize' + qsize' < psize + qsize
  {
    p', psize', run', q', qsize', rest' := p, psize, run, q, qsize, rest;
    var fromQ := psize == 0 || !(qsize == 0 || q == null || le(p, q));
    if fromQ {
      TakeQ(le, out, run, rest, qsize);
      tail' := q;
      list', q' := StepQ(nodes, list, tail, out, p, run, q, rest);
      qsize', rest' := qsize - 1, rest[1..];
    } else {
      TakeP(le, out, run, Front(rest, qsize));
      tail' := p;
      list', p' := StepP(nodes, list, tail, out, p, run, q, rest);
      psize', run' := psize - 1, run[1..];
    }
    out' := out + [tail'];
  }

  /** The end of a merge: nothing is left of the first run, nor of what may be taken from the rest. */
  lemma MergeEnd(le: Order, nodes: set<HashNode>, list: HashNode?, tail: HashNode?, out: seq<HashNode>,
                 p: HashNode?, run: seq<HashNode>, q: HashNode?, rest: seq<HashNode>, qsize: nat)
    requires Parts(nodes, list, tail, out, p, run, q, rest) && run == [] && (qsize == 0 || q == null)
    ensures Parts(nodes, list, tail, out, null, [], q, rest)
    ensures Back(rest, qsize) == rest && Merge(le, run, Front(rest, qsize)) == []
  {
  }

  /** Merge a run of psize nodes at p with at most insize nodes at q. */
  method MergeRuns(le: Order, ghost nodes: set<HashNode>, insize: nat, p0: HashNode, psize0: nat, q0: HashNode?,
                   list0: HashNode?, tail0: HashNode?,
                   ghost out0: seq<HashNode>, ghost run0: seq<HashNode>, ghost rest0: seq<HashNode>)
    returns (list: HashNode?, tail: HashNode?, q: HashNode?, ghost out: seq<HashNode>)
    requires insize > 0 && psize0 == |run0| > 0 && Parts(nodes, list0, tail0, out0, p0, run0, q0, rest0)
    modifies nodes`iterNext
    ensures out == out0 + Merge(le, run0, Front(rest0, insize))
    ensures Parts(nodes, list, tail, out, null, [], q, Back(rest0, insize))
  {
    var p: HashNode? := p0;
    var psize, qsize := psize0, insize;
    ghost var run, rest := run0, rest0;
    list, tail, q, out := list0, tail0, q0, out0;
    while psize > 0 || (qsize > 0 && q != null)
      invariant psize == |run| && Parts(nodes, list, tail, out, p, run, q, rest)
      invariant Back(rest, qsize) == Back(rest0, insize)
      invariant out + Merge(le, run, Front(rest, qsize)) == out0 + Merge(le, run0, Front(rest0, insize))
      decreases psize + qsize
    {
      list, tail, out, p, psize, run, q, qsize, rest :=
        MergeStep(le, nodes, list, tail, out, p, psize, run, q, qsize, rest);
    }
    MergeEnd(le, nodes, list, tail, out, p, run, q, rest, qsize);
  }

  /** Step at most insize places along from p. */
  method StepAlong(p: HashNode, insize: nat, ghost s: seq<HashNode>) returns (q: HashNode?, psize: nat)
    requires insize > 0 && s != [] && p == s[0] && Chain(s, null)
    ensures psize == Min(insize, |s|) && q == Head(s[psize..])
  {
    q := p;
    psize := 0;
    var i := 0;
    while i < insize && q != null
      invariant i == psize <= |s| && psize <= insize && q == Head(s[psize..])
    {
      ChainSuffix(s, psize);
      psize := psize + 1;
      q := q.iterNext;
      i := i + 1;
    }
  }

  /** The number of merges of a pass over n nodes in runs of length k. */
  function Merges(n: nat, k: nat): nat
    requires k > 0
    decreases n
  {
    if n == 0 then 0 else 1 + Merges(n - Min(2 * k, n), k)
  }

  lemma PassStep(le: Order, out: seq<HashNode>, rest: seq<HashNode>, k: nat)
    requires k > 0 && rest != []
    ensures var m, n := Min(k, |rest|), Min(2 * k, |rest|);
      && out + Merge(le, rest[..m], Front(rest[m..], k)) + Pass(le, rest[n..], k) == out + Pass(le, rest, k)
      && Back(rest[m..], k) == rest[n..]
  {
    var m, n := Min(k, |rest|), Min(2 * k, |rest|);
    assert Front(rest[m..], k) == rest[m..n];
  }

  /** One round of the pass: cut two runs off the list and merge them. */
  method MergePair(le: Order, ghost nodes: set<HashNode>, insize: nat, list0: HashNode?, tail0: HashNode?,
                   ghost out0: seq<HashNode>, p: HashNode, ghost rest: seq<HashNode>)
    returns (list: HashNode?, tail: HashNode?, ghost out: seq<HashNode>, q: HashNode?)
    requires insize > 0 && rest != [] && Parts(nodes, list0, tail0, out0, null, [], p, rest)
    modifies nodes`iterNext
    ensures Parts(nodes, list, tail, out, null, [], q, rest[Min(2 * insize, |rest|)..])
    ensures out + Pass(le, rest[Min(2 * insize, |rest|)..], insize) == out0 + Pass(le, rest, insize)
  {
    var psize;
    q, psize := StepAlong(p, insize, rest);
    CutRuns(nodes, list0, tail0, out0, p, rest, psize);
    PassStep(le, out0, rest, insize);
    list, tail, q, out := MergeRuns(le, nodes, insize, p, psize, q, list0, tail0, out0, rest[..psize], rest[psize..]);
  }

  method MergePass(le: Order, ghost nodes: set<HashNode>, list0: HashNode, insize: nat, ghost s: seq<HashNode>)
    returns (list: HashNode?, nmerges: nat)
    requires insize > 0 && s != [] && IsList(list0, s) && Within(s, nodes)
    modifies nodes`iterNext
    ensures IsList(list, Pass(le, s, insize)) && nmerges == Merges(|s|, insize)
  {
    var tail;
    list, tail, nmerges := MergeAll(le, nodes, list0, insize, s);
    PassLength(le, s, insize);
    EndList(nodes, list, tail, Pass(le, s, insize));
  }

  /** The loop of one pass. */
  method MergeAll(le: Order, ghost nodes: set<HashNode>, list0: HashNode, insize: nat, ghost s: seq<HashNode>)
    returns (list: HashNode?, tail: HashNode?, nmerges: nat)
    requires insize > 0 && s != [] && IsList(list0, s) && Within(s, nodes)
    modifies nodes`iterNext
    ensures Parts(nodes, list, tail, Pass(le, s, insize), null, [], null, []) && nmerges == Merges(|s|, insize)
  {
    var p: HashNode? := list0;
    ghost var out, rest := [], s;
    list, tail, nmerges := null, null, 0;
    while p != null
      invariant Parts(nodes, list, tail, out, null, [], p, rest)
      invariant out + Pass(le, rest, insize) == Pass(le, s, insize)
      invariant nmerges + Merges(|rest|, insize) == Merges(|s|, insize)
      decreases |rest|
    {
      nmerges := nmerges + 1;
      list, tail, out, p := MergePair(le, nodes, insize, list, tail, out, p, rest);
      rest := rest[Min(2 * insize, |rest|)..];
    }
    assert rest == [] && out == Pass(le, s, insize);
  }

  lemma PassLength(le: Order, s: seq<HashNode>, k: nat)
    requires k > 0
    ensures |Pass(le, s, k)| == |s|
  {
    PassKeepsNodes(le, s, k);
  }

  method EndList(ghost nodes: set<HashNode>, list: HashNode?, tail: HashNode?, ghost out: seq<HashNode>)
    requires out != [] && Parts(nodes, list, tail, out, null, [], null, [])
    modifies nodes`iterNext
    ensures IsList(list, out)
  {
    assert forall i | 0 <= i < |out| - 1 :: out[i] != tail;
    tail.iterNext := null;
  }

  lemma CutRuns(nodes: set<HashNode>, list: HashNode?, tail: HashNode?, out: seq<HashNode>,
                p: HashNode?, rest: seq<HashNode>, m: nat)
    requires Parts(nodes, list, tail, out, null, [], p, rest) && 0 < m <= |rest|
    ensures Parts(nodes, list, tail, out, p, rest[..m], Head(rest[m..]), rest[m..])
  {
    ChainSuffix(rest, m);
  }

  lemma {:induction false} MergesMeaning(n: nat, k: nat)
    requires k > 0
    ensures Merges(n, k) <= 1 <==> n <= 2 * k
    decreases n
  {
  }

  lemma {:induction false} OneRun(le: Order, pos: HashNode -> int, s: seq<HashNode>, k: nat)
    requires k >= |s| && k > 0 && Runs(le, pos, s, k)
    ensures Ordered(le, pos, s)
  {
    if s != [] { assert s[..|s|] == s; }
  }

  lemma PreorderKept(le: Order, s: seq<HashNode>, t: seq<HashNode>)
    requires TotalPreorder(le, s) && multiset(s) == multiset(t)
    ensures TotalPreorder(le, t)
  {
    forall a | a in t ensures a in s { SameNodes(s, t, a); }
  }

  function PosIn(s: seq<HashNode>): HashNode -> int { (a: HashNode) => IndexOf(s, a) }

  /** The list holds the nodes of s, in runs of length k. */
  ghost predicate Sorting(le: Order, nodes: set<HashNode>, s: seq<HashNode>, list: HashNode?, t: seq<HashNode>, k: nat)
    requires k > 0
    reads t
  {
    && list != null && IsList(list, t) && multiset(t) == multiset(s) && |t| == |s|
    && Within(t, nodes)
    && TotalPreorder(le, t) && Runs(le, PosIn(s), t, k)
  }

  lemma SortingPass(le: Order, nodes: set<HashNode>, s: seq<HashNode>, list: HashNode?, t: seq<HashNode>, k: nat)
    requires k > 0 && Sorting(le, nodes, s, list, t, k)
    ensures var u := Pass(le, t, k);
      && multiset(u) == multiset(s) && |u| == |s| && Within(u, nodes)
      && TotalPreorder(le, u) && Runs(le, PosIn(s), u, 2 * k)
  {
    var u := Pass(le, t, k);
    PassKeepsNodes(le, t, k);
    PreorderKept(le, t, u);
    PassDoublesRuns(le, PosIn(s), t, k);
    forall i | 0 <= i < |u| ensures u[i] in nodes { SameNodes(u, t, u[i]); }
  }

  lemma SortingStart(le: Order, nodes: set<HashNode>, s: seq<HashNode>, list: HashNode)
    requires IsList(list, s) && TotalPreorder(le, s) && Within(s, nodes)
    ensures Sorting(le, nodes, s, list, s, 1)
  {
    IndexOfDistinct(s);
    SingletonsAreRuns(le, PosIn(s), s);
  }

  /** One turn of the outer loop: after it the runs are twice as long. */
  method DoubleRuns(le: Order, ghost nodes: set<HashNode>, list0: HashNode, insize: nat,
                    ghost s: seq<HashNode>, ghost t: seq<HashNode>)
    returns (list: HashNode?, nmerges: nat)
    requires insize > 0 && s != [] && Sorting(le, nodes, s, list0, t, insize)
    modifies nodes`iterNext
    ensures Sorting(le, nodes, s, list, Pass(le, t, insize), 2 * insize)
    ensures nmerges <= 1 <==> |s| <= 2 * insize
  {
    SortingPass(le, nodes, s, list0, t, insize);
    MergesMeaning(|s|, insize);
    list, nmerges := MergePass(le, nodes, list0, insize, t);
  }

  lemma SortedAtEnd(le: Order, s: seq<HashNode>, t: seq<HashNode>, k: nat)
    requires Distinct(s) && k > 0 && |s| <= k && multiset(t) == multiset(s) && |t| == |s|
    requires Runs(le, PosIn(s), t, k)
    ensures StablySorted(le, s, t)
  {
    var pos := PosIn(s);
    OneRun(le, pos, t, k);
    forall i, j | 0 <= i < j < |t|
      ensures le(t[i], t[j]) && (le(t[j], t[i]) ==> IndexOf(s, t[i]) < IndexOf(s, t[j]))
    {
      assert Before(le, pos, t[i], t[j]);
    }
  }

  method SortRuns(le: Order, ghost nodes: set<HashNode>, list0: HashNode, ghost s: seq<HashNode>)
    returns (list: HashNode?, ghost sorted: seq<HashNode>)
    requires s != [] && |s| <= 0x4000_0000 && Distinct(s) && Sorting(le, nodes, s, list0, s, 1)
    modifies nodes`iterNext
    ensures IsList(list, sorted) && StablySorted(le, s, sorted)
  {
    list, sorted := list0, s;
    var insize: int := 1;
    while true
      invariant 0 < insize <= 0x4000_0000 && (insize == 1 || insize < 2 * |s|)
      invariant Sorting(le, nodes, s, list, sorted, insize)
      decreases 2 * |s| - insize
    {
      var nmerges;
      list, nmerges := DoubleRuns(le, nodes, list, insize, s, sorted);
      sorted := Pass(le, sorted, insize);
      if nmerges <= 1 {
        SortedAtEnd(le, s, sorted, 2 * insize);
        return;
      }
      insize := 2 * insize;
    }
  }

  /** listsort: the result is the list of the same nodes in ascending order,
      ties in their old order.  The bound keeps insize an int. */
  method ListSort(list0: HashNode?, le: Order, ghost s: seq<HashNode>)
    returns (list: HashNode?, ghost sorted: seq<HashNode>)
    requires IsList(list0, s) && TotalPreorder(le, s) && |s| <= 0x4000_0000
    modifies s`iterNext
    ensures IsList(list, sorted) && StablySorted(le, s, sorted)
  {
    if list0 == null { return null, []; }
    ghost var nodes := set a | a in s;
    SortingStart(le, nodes, s, list0);
    list, sorted := SortRuns(le, nodes, list0, s);
  }

  lemma {:induction false} IndexOfDistinct(s: seq<HashNode>)
    requires Distinct(s)
    ensures forall i | 0 <= i < |s| :: IndexOf(s, s[i]) == i
    decreases |s|
  {
    if s != [] {
      IndexOfDistinct(s[1..]);
      forall i | 0 <= i < |s| ensures IndexOf(s, s[i]) == i {
        if i > 0 { assert s[1..][i - 1] == s[i] && s[0] != s[i]; }
      }
    }
  }
}
