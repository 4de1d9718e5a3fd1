// What the merge of non-ASCII tokens does to the totals of a list.  The C code
// adds counts in 32-bit words and never looks at the carry.

module MergeTotals {
  import opened Words
  import opened Options
  import opened Datastore
  import opened Maint

  // ----- sums over finite maps -----

  ghost function Sum(m: map<Word, int>): int
    decreases |m|
  {
    if w :| w in m then m[w] + Sum(m - {w}) else 0
  }

  lemma {:induction false} SumAny(m: map<Word, int>, w: Word)
    requires w in m
    ensures Sum(m) == m[w] + Sum(m - {w})
    decreases |m|
  {
    var k :| k in m && Sum(m) == m[k] + Sum(m - {k});
    if k != w {
      SumAny(m - {k}, w);
      SumAny(m - {w}, k);
      assert m - {k} - {w} == m - {w} - {k};
    }
  }

  /** A map below another sums to no more, and to the same only if it is the same. */
  lemma {:induction false} SumBelow(a: map<Word, int>, b: map<Word, int>)
    requires a.Keys == b.Keys && forall w | w in a :: a[w] <= b[w]
    ensures Sum(a) <= Sum(b) && (Sum(a) == Sum(b) <==> forall w | w in a :: a[w] == b[w])
    decreases |a|
  {
    if w :| w in a {
      SumAny(a, w);
      SumAny(b, w);
      SumBelow(a - {w}, b - {w});
      if Sum(a) == Sum(b) {
        forall k | k in a ensures a[k] == b[k] {
          if k != w { assert k in a - {w} && (a - {w})[k] == a[k] && (b - {w})[k] == b[k]; }
        }
      }
    } else {
      assert b.Keys == {} && |b| == 0;
      assert a == b;
    }
  }

  // ----- the counts of a list, and of the tokens with one image -----

  function Count(good: bool, v: Dsv): U32 {
    if good then v.good else v.spam
  }

  function Counts(good: bool, t: Table): map<Word, int> {
    map w | w in t :: Count(good, t[w])
  }

  function Slice(good: bool, t: Table, image: Word): map<Word, int> {
    map w | w in t && Image(w) == image :: Count(good, t[w])
  }

  /** The exact count, spam or good, of all tokens with one image. */
  ghost function GroupSum(good: bool, t: Table, image: Word): int {
    Sum(Slice(good, t, image))
  }

  function Images(t: Table): set<Word> {
    set w | w in t :: Image(w)
  }

  ghost function Sums(good: bool, t: Table): map<Word, int> {
    map v | v in Images(t) :: GroupSum(good, t, v)
  }

  ghost function Total(good: bool, t: Table): int {
    Sum(Counts(good, t))
  }

  lemma SliceLess(good: bool, t: Table, w: Word)
    requires w in t
    ensures GroupSum(good, t, Image(w)) == Count(good, t[w]) + GroupSum(good, t - {w}, Image(w))
  {
    var n := Image(w);
    SumAny(Slice(good, t, n), w);
    assert Slice(good, t, n) - {w} == Slice(good, t - {w}, n);
  }

  lemma SliceOther(good: bool, t: Table, w: Word, v: Word)
    requires w in t && Image(w) != v
    ensures GroupSum(good, t, v) == GroupSum(good, t - {w}, v)
  {
    assert Slice(good, t, v) == Slice(good, t - {w}, v);
  }

  lemma ImagesLess(t: Table, w: Word)
    requires w in t
    ensures Images(t) == Images(t - {w}) + {Image(w)}
  {
    forall v | v in Images(t) ensures v in Images(t - {w}) + {Image(w)} {
      var k :| k in t && Image(k) == v;
      if k != w { assert k in t - {w}; }
    }
  }

  lemma NoSlice(good: bool, t: Table, image: Word)
    requires image !in Images(t)
    ensures GroupSum(good, t, image) == 0
  {
    assert forall k | k in t :: Image(k) in Images(t);
    assert Slice(good, t, image) == map[];
  }

  /** Only the sum of a token's own group depends on the token. */
  lemma SumsElsewhere(good: bool, t: Table, w: Word)
    requires w in t
    ensures Sums(good, t) - {Image(w)} == Sums(good, t - {w}) - {Image(w)}
    ensures Image(w) in Images(t)
  {
    var n := Image(w);
    ImagesLess(t, w);
    forall v | v in Images(t) && v != n ensures GroupSum(good, t, v) == GroupSum(good, t - {w}, v) {
      SliceOther(good, t, w, v);
    }
  }

  lemma SumWithout(a: map<Word, int>, n: Word)
    ensures Sum(a) == (if n in a then a[n] else 0) + Sum(a - {n})
  {
    if n in a { SumAny(a, n); } else { assert a - {n} == a; }
  }

  lemma SumsLess(good: bool, t: Table, w: Word)
    requires w in t
    ensures Sum(Sums(good, t)) == Count(good, t[w]) + Sum(Sums(good, t - {w}))
  {
    var n, u := Image(w), t - {w};
    SumsElsewhere(good, t, w);
    SumWithout(Sums(good, t), n);
    SumWithout(Sums(good, u), n);
    SliceLess(good, t, w);
    if n !in Images(u) { NoSlice(good, u, n); }
  }

  lemma TotalLess(good: bool, t: Table, w: Word)
    requires w in t
    ensures Total(good, t) == Count(good, t[w]) + Total(good, t - {w})
  {
    SumAny(Counts(good, t), w);
    assert Counts(good, t) - {w} == Counts(good, t - {w});
  }

  /** The images split the list, so the group sums add up to the total. */
  lemma {:induction false} TotalIsSumOfGroups(good: bool, t: Table)
    ensures Total(good, t) == Sum(Sums(good, t))
    decreases |t|
  {
    if w :| w in t {
      TotalIsSumOfGroups(good, t - {w});
      SumsLess(good, t, w);
      TotalLess(good, t, w);
    } else {
      assert Counts(good, t) == map[] && Sums(good, t) == map[];
    }
  }

  // ----- the combined value of a group -----

  lemma Wrap(sum: int, rest: U32, c: U32, exact: int)
    requires exact >= 0 && rest == exact % WORD_SIZE && sum == c + exact
    ensures sum % WORD_SIZE == Add32(c, rest)
  {
    assert exact == exact / WORD_SIZE * WORD_SIZE + rest;
    assert sum == exact / WORD_SIZE * WORD_SIZE + (c + rest);
    if c + rest >= WORD_SIZE {
      assert sum == (exact / WORD_SIZE + 1) * WORD_SIZE + (c + rest - WORD_SIZE);
    }
  }

  /** A group is there if some token has the image, and its counts are the
      exact sums cut to 32 bits. */
  lemma {:induction false} GroupIsSum(good: bool, t: Table, image: Word)
    ensures Group(t, image).Some? <==> image in Images(t)
    ensures GroupSum(good, t, image) >= 0
    ensures Group(t, image).Some? ==> Count(good, Group(t, image).value) == GroupSum(good, t, image) % WORD_SIZE
    decreases |t|
  {
    if w :| w in t && Image(w) == image {
      GroupAny(t, image, w);
      GroupIsSum(good, t - {w}, image);
      SliceLess(good, t, w);
      match Group(t - {w}, image)
      case Some(v) =>
        Wrap(GroupSum(good, t, image), Count(good, v), Count(good, t[w]), GroupSum(good, t - {w}, image));
      case None =>
        NoSlice(good, t - {w}, image);
    } else {
      NoGroup(t, image);
      assert Slice(good, t, image) == map[];
    }
  }

  lemma DateOfGroup(t: Table, image: Word)
    requires Group(t, image).Some?
    ensures forall w | w in t && Image(w) == image :: t[w].date <= Group(t, image).value.date
    ensures exists w :: w in t && Image(w) == image && t[w].date == Group(t, image).value.date
    decreases |t|
  {
    var w :| w in t && Image(w) == image;
    GroupAny(t, image, w);
    if Group(t - {w}, image).Some? {
      DateOfGroup(t - {w}, image);
      assert forall k | k in t && k != w :: k in t - {w} && (t - {w})[k] == t[k];
    } else {
      forall k | k in t && Image(k) == image ensures k == w {
        if k != w { GroupAny(t - {w}, image, k); }
      }
    }
  }

  // ----- conservation -----

  lemma MergedKeys(t0: Table, ws: seq<Word>)
    requires Enumerates(ws, t0)
    ensures MergeAll(t0, ws).Keys == Images(t0)
  {
    forall v ensures v in MergeAll(t0, ws) <==> v in Images(t0) {
      MergeIsOrderIndependent(t0, ws, v);
      GroupIsSum(true, t0, v);
    }
  }

  /** Each merged token carries the exact count of its group, cut to 32 bits. */
  lemma MergedCount(good: bool, t0: Table, ws: seq<Word>, v: Word)
    requires Enumerates(ws, t0) && v in MergeAll(t0, ws)
    ensures Count(good, MergeAll(t0, ws)[v]) == GroupSum(good, t0, v) % WORD_SIZE
    ensures 0 <= GroupSum(good, t0, v)
  {
    MergeIsOrderIndependent(t0, ws, v);
    GroupIsSum(good, t0, v);
  }

  /** Merging never raises a total, and keeps it exactly when every group of
      tokens with one image counts less than 2^32 altogether. */
  lemma MergeConservesCounts(good: bool, t0: Table, ws: seq<Word>)
    requires Enumerates(ws, t0)
    ensures Total(good, MergeAll(t0, ws)) <= Total(good, t0)
    ensures Total(good, MergeAll(t0, ws)) == Total(good, t0)
      <==> forall v | v in Images(t0) :: GroupSum(good, t0, v) < WORD_SIZE
  {
    TotalIsSumOfGroups(good, t0);
    var a, b := Counts(good, MergeAll(t0, ws)), Sums(good, t0);
    MergedKeys(t0, ws);
    assert a.Keys == b.Keys;
    forall v | v in a ensures a[v] <= b[v] && (a[v] == b[v] <==> GroupSum(good, t0, v) < WORD_SIZE) {
      MergedCount(good, t0, ws, v);
      Reduce(GroupSum(good, t0, v));
    }
    SumBelow(a, b);
    assert (forall v | v in Images(t0) :: GroupSum(good, t0, v) < WORD_SIZE)
      <==> (forall v | v in a :: a[v] == b[v]) by {
      forall v | v in a ensures v in Images(t0) {}
      forall v | v in Images(t0) ensures v in a {}
    }
  }

  lemma Reduce(x: int)
    requires x >= 0
    ensures x % WORD_SIZE <= x && (x % WORD_SIZE == x <==> x < WORD_SIZE)
  {
  }
}
