// Selecting the tokens that count (score.c): those that deviate most from the
// even odds, as many as the limits ask for.

module ScoreBoundary {
  import opened Options
  import opened HashNodes
  import opened ListSort

  /** The deviation of a token's probability from the even odds. */
  type Deviation = HashNode -> real

  /** The limits on the number of tokens; 0 stands for none. */
  datatype Limits = Limits(min: nat, max: nat, fix: nat)

  function Max(a: nat, b: nat): nat { if a >= b then a else b }

  /** How many tokens the limits ask for. */
  function Asked(l: Limits): nat {
    Max(l.fix, Max(l.min, l.max))
  }

  /** need_scoring_boundary */
  method NeedScoringBoundary(l: Limits, count: nat) returns (need: bool)
    ensures !need <==>
      (l.min != 0 ==> l.min <= count) && (l.max != 0 ==> count <= l.max) && (l.fix != 0 ==> count == l.fix)
    ensures need ==> Asked(l) > 0
  {
    if (l.min == 0 || l.min <= count) && (l.max == 0 || l.max >= count) && (l.fix == 0 || l.fix == count) {
      return false;
    } else {
      return true;
    }
  }

  // ----- sets of nodes -----

  ghost function Nodes(s: seq<HashNode>): set<HashNode> {
    set n | n in s
  }

  ghost function DatasOf(nodes: set<HashNode>): set<WordProp> {
    set n | n in nodes :: n.data
  }

  /** The used tokens are those that deviate at least as much as b. */
  ghost predicate Chosen(nodes: set<HashNode>, dev: Deviation, b: real)
    reads DatasOf(nodes)
  {
    forall n | n in nodes :: n.data.used <==> dev(n) >= b
  }

  ghost function AtLeast(s: seq<HashNode>, dev: Deviation, b: real): set<HashNode> {
    set n | n in s && dev(n) >= b
  }

  ghost function Above(s: seq<HashNode>, dev: Deviation, b: real): set<HashNode> {
    set n | n in s && dev(n) > b
  }

  ghost function Used(s: seq<HashNode>): set<HashNode>
    reads set n | n in s :: n.data
  {
    set n | n in s && n.data.used
  }

  lemma {:induction false} NodesCount(s: seq<HashNode>)
    requires Distinct(s)
    ensures |Nodes(s)| == |s|
  {
    if s != [] {
      var n := |s| - 1;
      NodesCount(s[..n]);
      assert Nodes(s) == Nodes(s[..n]) + {s[n]};
      assert s[n] !in s[..n];
    }
  }

  lemma {:induction false} SubsetCount(a: set<HashNode>, b: set<HashNode>)
    requires a <= b
    ensures |a| <= |b|
  {
    if n :| n in a {
      SubsetCount(a - {n}, b - {n});
    }
  }

  /** Nodes in descending order of deviation. */
  ghost predicate Descending(s: seq<HashNode>, dev: Deviation) {
    forall i, j | 0 <= i < j < |s| :: dev(s[i]) >= dev(s[j])
  }

  /** The deviation of the last of the first k nodes, as a boundary: it takes in
      those k and the ones that tie with the last, and fewer than k lie above it. */
  lemma BoundaryCounts(s: seq<HashNode>, dev: Deviation, k: nat, b: real)
    requires Distinct(s) && Descending(s, dev) && 0 < k && s != []
    requires var m := if k <= |s| then k else |s|; b == dev(s[m - 1])
    ensures |AtLeast(s, dev, b)| >= if k <= |s| then k else |s|
    ensures |Above(s, dev, b)| < k
  {
    var m := if k <= |s| then k else |s|;
    NodesCount(s[..m]);
    NodesCount(s[..m - 1]);
    assert Nodes(s[..m]) <= AtLeast(s, dev, b) by {
      forall i | 0 <= i < m ensures dev(s[i]) >= b {}
    }
    SubsetCount(Nodes(s[..m]), AtLeast(s, dev, b));
    assert Above(s, dev, b) <= Nodes(s[..m - 1]) by {
      forall i | m - 1 <= i < |s| ensures dev(s[i]) <= b {}
    }
    SubsetCount(Above(s, dev, b), Nodes(s[..m - 1]));
  }

  // ----- the choice -----

  /** No two tokens share their properties. */
  ghost predicate OwnData(s: seq<HashNode>) {
    forall i, j | 0 <= i < j < |s| :: s[i].data != s[j].data
  }

  /** The boundary that the limits and the first n of the sorted tokens give. */
  function Boundary(s: seq<HashNode>, n: nat, dev: Deviation, l: Limits, minDev: real): real
    requires n <= |s|
  {
    var k := Asked(l);
    if k == 0 || n == 0 then (if l.max == 0 then minDev else 1.0)
    else dev(s[if k <= n then k - 1 else n - 1])
  }

  /** One token: the first ones asked for are used and set the boundary. */
  method ChooseOne(node: HashNode, d: real, count: nat, minProb: real) returns (left: nat, b: real)
    modifies node.data`used
    ensures left == (if count > 0 then count - 1 else 0) && b == (if count > 0 then d else minProb)
    ensures node.data.used == (count > 0 || d >= minProb)
  {
    left, b := count, minProb;
    if count > 0 {
      left := count - 1;
      node.data.used := true;
      b := d;
    } else if d >= minProb {
      node.data.used := true;
    } else {
      node.data.used := false;
    }
  }

  /** Taking the next token into account lowers the boundary only as long as
      all tokens so far are at or above it. */
  lemma BoundaryNext(s: seq<HashNode>, i: nat, dev: Deviation, l: Limits, minDev: real, j: nat)
    requires Descending(s, dev) && j < i < |s|
    ensures dev(s[j]) >= Boundary(s, i, dev, l, minDev) <==> dev(s[j]) >= Boundary(s, i + 1, dev, l, minDev)
  {
  }

  /** The first i tokens are marked by the boundary they give. */
  ghost predicate Marked(s: seq<HashNode>, i: nat, dev: Deviation, b: real)
    reads set n | n in s :: n.data
  {
    i <= |s| && forall j {:trigger s[j].data} | 0 <= j < i :: s[j].data.used <==> dev(s[j]) >= b
  }

  /** Some(i) if the loop stands at token i, with so many left to be asked for
      and this boundary, by which the tokens so far are marked. */
  ghost function Reached(node: HashNode?, count: nat, b: real, dev: Deviation, l: Limits, minDev: real,
                         s: seq<HashNode>, i: nat): Option<nat>
    reads s, set n | n in s :: n.data
  {
    if i <= |s| && node == (if i < |s| then s[i] else null) && Chain(s, null)
      && count == (if i <= Asked(l) then Asked(l) - i else 0)
      && b == Boundary(s, i, dev, l, minDev) && Marked(s, i, dev, b)
    then Some(i) else None
  }

  /** One round of the loop. */
  method ChooseNext(node: HashNode, dev: Deviation, l: Limits, count: nat, minProb: real,
                    ghost minDev: real, ghost s: seq<HashNode>, ghost i: nat)
    returns (next: HashNode?, left: nat, b: real)
    requires OwnData(s) && Descending(s, dev) && i < |s|
    requires Reached(node, count, minProb, dev, l, minDev, s, i) == Some(i)
    modifies node.data`used
    ensures Reached(next, left, b, dev, l, minDev, s, i + 1) == Some(i + 1)
  {
    forall j | 0 <= j < i
      ensures s[j].data != node.data
      ensures dev(s[j]) >= minProb <==> dev(s[j]) >= Boundary(s, i + 1, dev, l, minDev)
    {
      BoundaryNext(s, i, dev, l, minDev, j);
    }
    left, b := ChooseOne(node, dev(node), count, minProb);
    next := node.iterNext;
  }

  /** The loop of find_scoring_boundary over the sorted list. */
  method Choose(head: HashNode?, dev: Deviation, l: Limits, minDev: real, ghost s: seq<HashNode>)
    returns (minProb: real)
    requires head == Head(s) && Chain(s, null) && OwnData(s) && Descending(s, dev)
    modifies DatasOf(Nodes(s))`used
    ensures minProb == Boundary(s, |s|, dev, l, minDev)
    ensures Chosen(Nodes(s), dev, minProb)
  {
    minProb := if l.max == 0 then minDev else 1.0;
    var count := Asked(l);
    var node := head;
    ghost var i := 0;
    while node != null
      invariant i <= |s| && Reached(node, count, minProb, dev, l, minDev, s, i) == Some(i)
      decreases |s| - i
    {
      node, count, minProb := ChooseNext(node, dev, l, count, minProb, minDev, s, i);
      i := i + 1;
    }
  }

  lemma SortedDescending(le: Order, dev: Deviation, before: seq<HashNode>, s: seq<HashNode>)
    requires forall a: HashNode, b: HashNode | a in before && b in before :: le(a, b) <==> dev(a) >= dev(b)
    requires StablySorted(le, before, s) && OwnData(before) && Distinct(before) && Distinct(s)
    ensures Descending(s, dev) && OwnData(s) && Nodes(s) == Nodes(before)
  {
    forall n ensures n in s <==> n in before { assert n in multiset(s) <==> n in multiset(before); }
    forall i, j | 0 <= i < j < |s| ensures s[i].data != s[j].data {
      assert s[i] in multiset(before) && s[j] in multiset(before) by {
        assert s[i] in multiset(s) && s[j] in multiset(s);
      }
      var x :| 0 <= x < |before| && before[x] == s[i];
      var y :| 0 <= y < |before| && before[y] == s[j];
      if x < y { assert before[x].data != before[y].data; } else { assert before[y].data != before[x].data; }
    }
  }

  /** find_scoring_boundary: a token is used if and only if it deviates at least
      as much as the boundary returned.  As many tokens are used as each limit
      asks for, or all; fewer than the greatest limit lie strictly above the
      boundary.  If no two tokens deviate alike, exactly as many are used as the
      greatest limit says, if there are so many. */
  method FindScoringBoundary(iterHead: HashNode?, dev: Deviation, l: Limits, minDev: real, ghost s: seq<HashNode>)
    returns (head: HashNode?, minProb: real, ghost sorted: seq<HashNode>)
    requires IsList(iterHead, s) && OwnData(s) && |s| <= 0x4000_0000
    modifies s`iterNext, DatasOf(Nodes(s))`used
    ensures IsList(head, sorted) && Nodes(sorted) == Nodes(s) && Descending(sorted, dev)
    ensures Chosen(Nodes(s), dev, minProb)
    ensures s != [] && (l.min > 0 || l.max > 0 || l.fix > 0) ==>
      && EnoughUsed(s, l.min) && EnoughUsed(s, l.max) && EnoughUsed(s, l.fix)
      && (|Above(s, dev, minProb)| < l.min || |Above(s, dev, minProb)| < l.max || |Above(s, dev, minProb)| < l.fix)
    ensures NoTies(s, dev) ==>
      && (0 < l.max <= |s| && l.min <= l.max && l.fix <= l.max ==> |Used(s)| == l.max)
      && (0 < l.min <= |s| && l.max <= l.min && l.fix <= l.min ==> |Used(s)| == l.min)
      && (0 < l.fix <= |s| && l.min <= l.fix && l.max <= l.fix ==> |Used(s)| == l.fix)
    ensures s == [] || (l.min == 0 && l.max == 0 && l.fix == 0) ==> minProb == if l.max == 0 then minDev else 1.0
  {
    head, sorted := SortByDeviation(iterHead, dev, s);
    minProb := Choose(head, dev, l, minDev, sorted);
    BoundaryMeaning(s, sorted, dev, l, minDev, minProb);
    if s != [] && Asked(l) > 0 { UsedExactly(s, dev, Asked(l), minProb); }
  }

  /** At least k tokens are used, or all. */
  ghost predicate EnoughUsed(s: seq<HashNode>, k: nat)
    reads set n | n in s :: n.data
  {
    |Used(s)| >= k || |Used(s)| == |s|
  }

  ghost predicate NoTies(s: seq<HashNode>, dev: Deviation) {
    forall a: HashNode, b: HashNode | a in s && b in s && a != b :: dev(a) != dev(b)
  }

  lemma UsedExactly(s: seq<HashNode>, dev: Deviation, k: nat, b: real)
    requires Distinct(s) && Chosen(Nodes(s), dev, b)
    requires |Used(s)| >= (if k <= |s| then k else |s|) && |Above(s, dev, b)| < k
    ensures |Used(s)| <= |s| && (NoTies(s, dev) ==> |Used(s)| <= k)
  {
    NodesCount(s);
    SubsetCount(Used(s), Nodes(s));
    var above := Above(s, dev, b);
    if NoTies(s, dev) {
      if n :| n in Used(s) - above {
        assert Used(s) <= above + {n};
        SubsetCount(Used(s), above + {n});
      } else {
        forall n | n in Used(s) ensures n in above { assert n !in Used(s) - above; }
        SubsetCount(Used(s), above);
      }
    }
  }

  method SortByDeviation(iterHead: HashNode?, dev: Deviation, ghost s: seq<HashNode>)
    returns (head: HashNode?, ghost sorted: seq<HashNode>)
    requires IsList(iterHead, s) && OwnData(s) && |s| <= 0x4000_0000
    modifies s`iterNext
    ensures IsList(head, sorted) && Descending(sorted, dev) && OwnData(sorted) && Nodes(sorted) == Nodes(s)
  {
    var le: Order := (a: HashNode, b: HashNode) => dev(a) >= dev(b);
    head, sorted := ListSort.ListSort(iterHead, le, s);
    SortedDescending(le, dev, s, sorted);
  }

  lemma BoundaryOfSame(s: seq<HashNode>, sorted: seq<HashNode>, dev: Deviation, k: nat, b: real)
    requires Nodes(sorted) == Nodes(s) && Distinct(s) && Distinct(sorted) && Descending(sorted, dev)
    requires 0 < k && s != [] && sorted != []
    requires var m := if k <= |sorted| then k else |sorted|; b == dev(sorted[m - 1])
    requires Chosen(Nodes(s), dev, b)
    ensures |Used(s)| >= (if k <= |s| then k else |s|) && |Above(s, dev, b)| < k
  {
    NodesCount(s);
    NodesCount(sorted);
    BoundaryCounts(sorted, dev, k, b);
    forall n ensures n in s <==> n in sorted { assert n in Nodes(s) <==> n in Nodes(sorted); }
    assert Used(s) == AtLeast(sorted, dev, b);
    assert Above(s, dev, b) == Above(sorted, dev, b);
  }

  lemma BoundaryMeaning(s: seq<HashNode>, sorted: seq<HashNode>, dev: Deviation, l: Limits, minDev: real, b: real)
    requires Nodes(sorted) == Nodes(s) && Distinct(s) && Distinct(sorted) && Descending(sorted, dev)
    requires b == Boundary(sorted, |sorted|, dev, l, minDev) && Chosen(Nodes(s), dev, b)
    ensures s != [] && Asked(l) > 0 ==>
      |Used(s)| >= (if Asked(l) <= |s| then Asked(l) else |s|) && |Above(s, dev, b)| < Asked(l)
    ensures s == [] || Asked(l) == 0 ==> b == if l.max == 0 then minDev else 1.0
  {
    assert s != [] ==> s[0] in Nodes(s);
    assert sorted != [] ==> sorted[0] in Nodes(sorted);
    if s != [] && Asked(l) > 0 { BoundaryOfSame(s, sorted, dev, Asked(l), b); }
  }

  /** compute_count_and_spamicity, as to the count: it is that of the used tokens. */
  method CountUsed(head: HashNode?, ghost s: seq<HashNode>) returns (count: nat)
    requires IsList(head, s)
    ensures count == |Used(s)|
  {
    count := 0;
    var node := head;
    ghost var i := 0;
    while node != null
      invariant 0 <= i <= |s| && node == (if i < |s| then s[i] else null)
      invariant count == |Used(s[..i])|
      decreases |s| - i
    {
      UsedNext(s, i);
      if node.data.used { count := count + 1; }
      node := node.iterNext;
      i := i + 1;
    }
    assert s[..i] == s;
  }

  lemma UsedNext(s: seq<HashNode>, i: nat)
    requires Distinct(s) && i < |s|
    ensures |Used(s[..i + 1])| == |Used(s[..i])| + if s[i].data.used then 1 else 0
  {
    assert s[..i + 1] == s[..i] + [s[i]];
    assert s[i] !in s[..i];
    if s[i].data.used {
      assert Used(s[..i + 1]) == Used(s[..i]) + {s[i]};
    } else {
      assert Used(s[..i + 1]) == Used(s[..i]);
    }
  }
}
