// bogogrep.c: the Boyer-Moore-Horspool search, and the loop that reports the
// lines of a file that start with the pattern.

module Horspool {
  import opened Words
  import opened Options

  const ALPHABET := 256
  const LF: Byte := 10

  predicate MatchAt(text: Word, pat: Word, p: int) {
    0 <= p && p + |pat| <= |text| && text[p..p + |pat|] == pat
  }

  /** How far the window may move when it ends in c: no place of the pattern
      that would come to lie on c before that holds c. */
  predicate Shift(pat: Word, c: Byte, d: int) {
    && 1 <= d <= |pat|
    && (forall j | |pat| - d <= j < |pat| - 1 :: pat[j] != c)
  }

  /** The skip table after the first n places of the pattern have been entered. */
  ghost predicate SkipSoFar(skip: array<int>, pat: Word, n: int)
    reads skip
  {
    && skip.Length == ALPHABET && 0 <= n < |pat|
    && (forall c: Byte {:trigger skip[c as int]} ::
          && |pat| - n <= skip[c as int] <= |pat|
          && forall j | |pat| - skip[c as int] <= j < n :: pat[j] != c)
  }

  method FillSkip(pat: Word) returns (skip: array<int>)
    requires pat != []
    ensures fresh(skip)
    ensures SkipSoFar(skip, pat, |pat| - 1)
  {
    var m := |pat|;
    skip := new int[ALPHABET](_ => m);
    var k := 0;
    while k < m - 1
      invariant 0 <= k <= m - 1 && SkipSoFar(skip, pat, k)
    {
      skip[pat[k] as int] := m - k - 1;
      k := k + 1;
    }
  }

  /** No window that ends between k and k + d can match. */
  lemma ShiftSafe(text: Word, pat: Word, k: int, d: int, p: int)
    requires pat != [] && |pat| - 1 <= k < |text| && Shift(pat, text[k], d)
    requires k < p + |pat| - 1 < k + d
    ensures !MatchAt(text, pat, p)
  {
    if 0 <= p && p + |pat| <= |text| {
      assert text[p..p + |pat|][k - p] == text[k];
      assert pat[k - p] != text[k];
    }
  }

  /** The window agrees with the pattern from its end down to place j, and not there. */
  lemma WindowEqual(text: Word, pat: Word, p: int, j: int)
    requires 0 <= p && p + |pat| <= |text| && -1 <= j < |pat|
    requires forall l {:trigger pat[l]} | j < l < |pat| :: text[p + l] == pat[l]
    requires j >= 0 ==> text[p + j] != pat[j]
    ensures MatchAt(text, pat, p) <==> j == -1
  {
    var w := text[p..p + |pat|];
    if j >= 0 {
      assert w[j] != pat[j];
    } else {
      forall l | 0 <= l < |pat| ensures w[l] == pat[l] {}
    }
  }

  /** bogogrep.c:46-47: compare the window that ends at k, from its end. */
  method Compare(text: Word, pat: Word, k: int) returns (hit: bool)
    requires |pat| - 1 <= k < |text|
    ensures hit <==> MatchAt(text, pat, k - |pat| + 1)
  {
    var j, i := |pat| - 1, k;
    ghost var p := k - |pat| + 1;
    while j >= 0 && text[i] == pat[j]
      invariant -1 <= j < |pat| && i == p + j
      invariant forall l {:trigger pat[l]} | j < l < |pat| :: text[p + l] == pat[l]
      decreases j
    {
      i, j := i - 1, j - 1;
    }
    WindowEqual(text, pat, p, j);
    return j == -1;
  }

  /** search in the text from start on: the leftmost place where the pattern
      stands, or nothing if it stands nowhere. */
  method Search(text: Word, start: nat, pat: Word) returns (r: Option<nat>)
    requires start <= |text|
    ensures match r
      case None => forall p | start <= p :: !MatchAt(text, pat, p)
      case Some(q) => start <= q && MatchAt(text, pat, q) && forall p | start <= p < q :: !MatchAt(text, pat, p)
  {
    var m := |pat|;
    if m == 0 {
      assert text[start..start] == [];
      return Some(start);
    }
    var skip := FillSkip(pat);
    var k := start + m - 1;
    while k < |text|
      invariant k >= start + m - 1 && SkipSoFar(skip, pat, m - 1)
      invariant forall p | start <= p && p + m - 1 < k :: !MatchAt(text, pat, p)
      decreases |text| - k
    {
      var hit := Compare(text, pat, k);
      if hit { return Some(k - m + 1); }
      var d := skip[text[k] as int];
      assert Shift(pat, text[k], d);
      forall p | start <= p && p + m - 1 < k + d ensures !MatchAt(text, pat, p) {
        if k < p + m - 1 { ShiftSafe(text, pat, k, d, p); }
      }
      k := k + d;
    }
    return None;
  }

  // ----- the lines that start with the pattern -----

  predicate LineStart(text: Word, p: int) {
    0 <= p <= |text| && (p == 0 || text[p - 1] == LF)
  }

  predicate Wanted(text: Word, pat: Word, p: int) {
    LineStart(text, p) && MatchAt(text, pat, p)
  }

  /** The offsets, in order, of exactly the lines before place n that start with the pattern. */
  ghost predicate Reported(text: Word, pat: Word, n: int, r: seq<nat>) {
    && (forall i, j | 0 <= i < j < |r| :: r[i] < r[j])
    && (forall i | 0 <= i < |r| :: r[i] < n && Wanted(text, pat, r[i]))
    && (forall p | 0 <= p < n && Wanted(text, pat, p) :: p in r)
  }

  /** Inside a hit no line begins, as the pattern has no newline. */
  lemma NoLineInside(text: Word, pat: Word, q: int, p: int)
    requires MatchAt(text, pat, q) && LF !in pat && q < p < q + |pat|
    ensures !LineStart(text, p)
  {
    assert text[p - 1] == text[q..q + |pat|][p - 1 - q] == pat[p - 1 - q];
  }

  lemma ReportedFurther(text: Word, pat: Word, n: int, r: seq<nat>, q: nat, r': seq<nat>)
    requires Reported(text, pat, n, r) && LF !in pat && pat != [] && n <= q && MatchAt(text, pat, q)
    requires forall p | n <= p < q :: !MatchAt(text, pat, p)
    requires r' == if LineStart(text, q) then r + [q] else r
    ensures Reported(text, pat, q + |pat|, r')
  {
    forall p | 0 <= p < q + |pat| && Wanted(text, pat, p) ensures p in r' {
      if p >= n && p != q {
        if p > q { NoLineInside(text, pat, q, p); }
      }
      if p < n { assert p in r; }
    }
  }

  /** The loop of main over one file: each line that starts with the pattern is
      reported once, in the order of the file, and nothing else is. */
  method Grep(text: Word, pat: Word) returns (r: seq<nat>)
    requires pat != [] && LF !in pat
    ensures Reported(text, pat, |text| + 1, r)
  {
    r := [];
    var i := 0;
    while true
      invariant 0 <= i <= |text| && Reported(text, pat, i, r)
      decreases |text| - i
    {
      var hit := Search(text, i, pat);
      match hit
      case None => break;
      case Some(q) =>
        var start := q == 0 || text[q - 1] == LF;
        ReportedFurther(text, pat, i, r, q, if start then r + [q] else r);
        if start { r := r + [q]; }
        i := q + |pat|;
    }
  }

  // ----- a file by its lines -----

  /** Lines, each with its newline, and what comes behind the last newline. */
  function Text(lines: seq<Word>, rest: Word): Word {
    if lines == [] then rest else lines[0] + [LF] + Text(lines[1..], rest)
  }

  /** Where the lines begin that start with the pattern; the first begins at place n. */
  function Hits(lines: seq<Word>, rest: Word, pat: Word, n: nat): seq<nat> {
    if lines == [] then if pat <= rest then [n] else []
    else (if pat <= lines[0] then [n] else []) + Hits(lines[1..], rest, pat, n + |lines[0]| + 1)
  }

  predicate NoNewlines(lines: seq<Word>, rest: Word) {
    LF !in rest && forall i | 0 <= i < |lines| :: LF !in lines[i]
  }

  /** A line behind the text before begins there, and nowhere else up to its newline. */
  lemma LineAt(before: Word, line: Word, more: Word, pat: Word, p: nat)
    requires (before == [] || before[|before| - 1] == LF) && LF !in line && LF !in pat
    requires |before| <= p <= |before| + |line| && (more == [] || more[0] == LF)
    ensures Wanted(before + line + more, pat, p) <==> p == |before| && pat <= line
  {
    var text := before + line + more;
    if p > |before| {
      assert text[p - 1] == line[p - 1 - |before|];
    } else {
      assert p > 0 ==> text[p - 1] == before[p - 1];
      assert text[p..] == line + more;
      if |pat| > |line| && p + |pat| <= |text| {
        assert text[p..p + |pat|][|line|] == more[0];
      } else if |pat| <= |line| {
        assert text[p..p + |pat|] == line[..|pat|];
      }
    }
  }

  lemma HitsFirst(lines: seq<Word>, rest: Word, pat: Word, n: nat, p: nat)
    requires lines != [] && p >= n
    ensures var m := n + |lines[0]| + 1;
      && (p < m ==> (p in Hits(lines, rest, pat, n) <==> p == n && pat <= lines[0]))
      && (p >= m ==> (p in Hits(lines, rest, pat, n) <==> p in Hits(lines[1..], rest, pat, m)))
  {
    HitsBehind(lines[1..], rest, pat, n + |lines[0]| + 1);
  }

  lemma {:induction false} HitsWanted(text: Word, before: Word, lines: seq<Word>, rest: Word, pat: Word, p: nat)
    requires (before == [] || before[|before| - 1] == LF) && NoNewlines(lines, rest) && LF !in pat && p >= |before|
    requires text == before + Text(lines, rest)
    ensures Wanted(text, pat, p) <==> p in Hits(lines, rest, pat, |before|)
    decreases |lines|
  {
    if lines == [] {
      assert text == before + rest + [];
      if p <= |before| + |rest| { LineAt(before, rest, [], pat, p); }
    } else {
      var l, more := lines[0], Text(lines[1..], rest);
      HitsFirst(lines, rest, pat, |before|, p);
      if p <= |before| + |l| {
        assert text == before + l + ([LF] + more);
        LineAt(before, l, [LF] + more, pat, p);
      } else {
        assert text == before + l + [LF] + more;
        HitsWanted(text, before + l + [LF], lines[1..], rest, pat, p);
      }
    }
  }

  lemma {:induction false} HitsBehind(lines: seq<Word>, rest: Word, pat: Word, n: nat)
    ensures forall i | 0 <= i < |Hits(lines, rest, pat, n)| :: n <= Hits(lines, rest, pat, n)[i]
    ensures forall i, j | 0 <= i < j < |Hits(lines, rest, pat, n)| ::
      Hits(lines, rest, pat, n)[i] < Hits(lines, rest, pat, n)[j]
    decreases |lines|
  {
    if lines != [] { HitsBehind(lines[1..], rest, pat, n + |lines[0]| + 1); }
  }

  lemma InRest(a: seq<nat>, x: nat)
    requires a != [] && forall i, j | 0 <= i < j < |a| :: a[i] < a[j]
    ensures x in a[1..] <==> x in a && x != a[0]
  {
    assert a == [a[0]] + a[1..];
  }

  lemma {:induction false} SameAscending(a: seq<nat>, b: seq<nat>)
    requires forall i, j | 0 <= i < j < |a| :: a[i] < a[j]
    requires forall i, j | 0 <= i < j < |b| :: b[i] < b[j]
    requires forall x :: x in a <==> x in b
    ensures a == b
  {
    var x, y := if a == [] then 0 else a[0], if b == [] then 0 else b[0];
    assert (x in a <==> x in b) && (y in a <==> y in b);
    if a != [] && b != [] {
      assert x == y;
      forall z ensures z in a[1..] <==> z in b[1..] {
        InRest(a, z);
        InRest(b, z);
      }
      SameAscending(a[1..], b[1..]);
    }
  }

  /** What is reported of a file are the beginnings of its lines that start
      with the pattern; what is behind the last newline counts as a line. */
  lemma ReportedLines(lines: seq<Word>, rest: Word, pat: Word, r: seq<nat>)
    requires NoNewlines(lines, rest) && LF !in pat && pat != []
    requires Reported(Text(lines, rest), pat, |Text(lines, rest)| + 1, r)
    ensures r == Hits(lines, rest, pat, 0)
  {
    var text, hits := Text(lines, rest), Hits(lines, rest, pat, 0);
    HitsBehind(lines, rest, pat, 0);
    assert [] + text == text;
    forall x: nat ensures x in r <==> x in hits {
      HitsWanted(text, [], lines, rest, pat, x);
      if x in r { assert Wanted(text, pat, x); }
    }
    SameAscending(r, hits);
  }
}
