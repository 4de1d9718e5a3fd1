// What the coming calls of LMDB answer, and when an operation that meets a
// full map gets through: how datastore_lmdb.c grows the map, and how often it
// tries again.

module LmdbCalls {
  import opened Options

  datatype Rc = Ok | MapFull | MapResized | NotFound | Other

  // ----- growing the map -----

  const GROW := 0x100_0000      // a_BFLM_GROW
  const WORD := 0x1_0000_0000   // the mask ~(a_BFLM_GROW - 1) is 32 bits wide

  const SIZE_MAX := 0xFFFF_FFFF_FFFF_FFFF
  const MIB := 0x10_0000
  const GROW_TRIES := 3         // a_BFLM_GROW_TRIES

  type Size = x: int | 0 <= x <= SIZE_MAX

  /** The new map size, if there is one; the mask keeps bits 24 to 31 only. */
  function GrownSize(i: Size): Option<Size> {
    if SIZE_MAX - i >= 2 * GROW then Some((i + GROW / 10 + (GROW - 1)) % WORD / GROW * GROW)
    else if SIZE_MAX - i >= 2 * MIB then Some(SIZE_MAX - (MIB - 1))
    else None
  }

  /** A new size is a larger one exactly while the size computed before masking
      (a tenth of 16 MiB more, rounded up to 16 MiB) fits in 32 bits, or in
      the last 32 MiB of the address space but two. */
  lemma GrowsIffBelow32Bits(i: Size)
    ensures (exists j :: GrownSize(i) == Some(j) && j > i) <==>
      i + 0x19_9999 + 0xFF_FFFF < 0x1_0000_0000 || 0x20_0000 <= 0xFFFF_FFFF_FFFF_FFFF - i < 0x200_0000
  {
    var x := i + GROW / 10 + (GROW - 1);
    if x >= WORD && i < WORD { assert x % WORD == x - WORD; }
    if SIZE_MAX - i >= 2 * MIB { assert GrownSize(i) == Some(GrownSize(i).value); }
  }

  /** The sizes that mdb_env_info is going to report (then 0), and bflm_dbsize. */
  datatype Sizes = Sizes(reports: seq<Size>, dbsize: Size)

  function Reported(m: Sizes): Size {
    if m.reports == [] then 0 else m.reports[0]
  }

  /** The map after one resizing, if a size is left. */
  function Larger(m: Sizes): Option<Sizes> {
    match GrownSize(if m.dbsize > Reported(m) then m.dbsize else Reported(m))
    case None => None
    case Some(j) => Some(Sizes(if m.reports == [] then [] else m.reports[1..], j))
  }

  /** The map after k of them. */
  function LargerBy(m: Sizes, k: nat): Option<Sizes>
    decreases k
  {
    if k == 0 then Some(m)
    else
      match Larger(m)
      case None => None
      case Some(l) => LargerBy(l, k - 1)
  }

  lemma {:induction false} LargerBySplit(m: Sizes, j: nat, k: nat)
    ensures LargerBy(m, j + k) ==
      match LargerBy(m, j)
      case None => None
      case Some(l) => LargerBy(l, k)
    decreases j
  {
    if j > 0 && Larger(m).Some? { LargerBySplit(Larger(m).value, j - 1, k); }
  }

  /** Below 4 GB a size is always left. */
  lemma {:induction false} SmallMapsGrow(m: Sizes, k: nat)
    requires m.dbsize < WORD && forall i | 0 <= i < |m.reports| :: m.reports[i] < WORD
    ensures LargerBy(m, k).Some?
    decreases k
  {
    if k > 0 { SmallMapsGrow(Larger(m).value, k - 1); }
  }

  // ----- the calls -----

  /** What lies ahead: the answers of the coming calls (after these every call
      succeeds), and the sizes of the map. */
  datatype Env = Env(calls: seq<Rc>, sizes: Sizes)

  function First(c: seq<Rc>): Rc {
    if c == [] then Ok else c[0]
  }

  function Rest(c: seq<Rc>): (r: seq<Rc>)
    ensures |r| <= |c| && (First(c) != Ok ==> |r| < |c|)
  {
    if c == [] then [] else c[1..]
  }

  /** The resizing of a_bflm_txn_mapfull: mdb_env_set_mapsize, mdb_txn_begin,
      mdb_dbi_open and mdb_cursor_open; all over again if another process has
      resized the map meanwhile. */
  function Resized(e: Env): Option<Env>
    decreases |e.calls|
  {
    match Larger(e.sizes)
    case None => None
    case Some(m) =>
      var begun := Rest(e.calls);
      if First(e.calls) != Ok then None
      else if First(begun) == MapResized then Resized(Env(Rest(begun), m))
      else
        match Succeed(3, begun)
        case None => None
        case Some(c) => Some(Env(c, m))
  }

  /** What lies ahead after n calls that must succeed. */
  function Succeed(n: nat, c: seq<Rc>): Option<seq<Rc>> {
    if n == 0 then Some(c) else if First(c) != Ok then None else Succeed(n - 1, Rest(c))
  }

  lemma SucceedNext(n: nat, c: seq<Rc>)
    ensures Succeed(n + 1, c) == if First(c) != Ok then None else Succeed(n, Rest(c))
  {
  }

  lemma {:induction false} SucceedSplit(j: nat, k: nat, c: seq<Rc>)
    ensures Succeed(j + k, c) ==
      match Succeed(j, c)
      case None => None
      case Some(d) => Succeed(k, d)
  {
    if j > 0 && First(c) == Ok { SucceedSplit(j - 1, k, Rest(c)); }
  }

  /** a_bflm_txn_mapfull, with a log of n entries to replay. */
  function Grown(n: nat, e: Env): Option<Env> {
    match Resized(e)
    case None => None
    case Some(r) =>
      match Succeed(n, r.calls)
      case None => None
      case Some(c) => Some(Env(c, r.sizes))
  }

  /** The answers that are met by growing the map. */
  predicate IsFull(rc: Rc, commit: bool) {
    rc == MapFull || (commit && rc == MapResized)
  }

  /** A put, a delete or (commit) the commit, with a log of n entries, and so
      many tries left: what lies ahead after it has succeeded. */
  function Tried(n: nat, commit: bool, tries: nat, e: Env): Option<Env>
    decreases tries
  {
    var rest := Env(Rest(e.calls), e.sizes);
    if First(e.calls) == Ok then Some(rest)
    else if !IsFull(First(e.calls), commit) || tries == 0 then None
    else
      match Grown(n, rest)
      case None => None
      case Some(g) => Tried(n, commit, tries - 1, g)
  }

  lemma TriedAgain(n: nat, commit: bool, tries: nat, e: Env)
    requires First(e.calls) != Ok
    ensures Tried(n, commit, tries, e) ==
      if !IsFull(First(e.calls), commit) || tries == 0 then None
      else
        match Grown(n, Env(Rest(e.calls), e.sizes))
        case None => None
        case Some(g) => Tried(n, commit, tries - 1, g)
  {
  }

  // ----- when an operation succeeds -----

  /** One meeting with a full map: what is reported, and how often a begin
      finds the map resized by another process. */
  datatype Round = Round(full: Rc, resized: nat)

  function Oks(n: nat): (r: seq<Rc>)
    ensures |r| == n && forall i | 0 <= i < n :: r[i] == Ok
  {
    seq(n, i => Ok)
  }

  function Resizes(k: nat): seq<Rc> {
    if k == 0 then [] else [Ok, MapResized] + Resizes(k - 1)
  }

  /** The answers of a growing: four calls open the new transaction, n replay the log. */
  function Growing(n: nat, resized: nat): seq<Rc> {
    Resizes(resized) + Oks(4 + n)
  }

  /** The answers in a successful operation that meets a full map so often. */
  function Text(n: nat, rs: seq<Round>): seq<Rc> {
    if rs == [] then [Ok] else [rs[0].full] + Growing(n, rs[0].resized) + Text(n, rs[1..])
  }

  /** How often the map is resized in it. */
  function Times(rs: seq<Round>): nat {
    if rs == [] then 0 else 1 + rs[0].resized + Times(rs[1..])
  }

  /** What lies ahead begins with these answers. */
  predicate Begins(c: seq<Rc>, text: seq<Rc>) {
    text == [] || (First(c) == text[0] && Begins(Rest(c), text[1..]))
  }

  function Dropped(c: seq<Rc>, n: nat): seq<Rc> {
    if n == 0 then c else Dropped(Rest(c), n - 1)
  }

  lemma {:induction false} BeginsSplit(c: seq<Rc>, a: seq<Rc>, b: seq<Rc>)
    ensures Begins(c, a + b) <==> Begins(c, a) && Begins(Dropped(c, |a|), b)
    decreases |a|
  {
    if a == [] {
      assert a + b == b;
    } else {
      assert (a + b)[1..] == a[1..] + b;
      BeginsSplit(Rest(c), a[1..], b);
    }
  }

  lemma BeginsOne(c: seq<Rc>, a: Rc, b: seq<Rc>)
    ensures Begins(c, [a] + b) <==> First(c) == a && Begins(Rest(c), b)
    ensures Dropped(c, |[a] + b|) == Dropped(Rest(c), |b|)
  {
    assert ([a] + b)[1..] == b;
  }

  lemma {:induction false} DroppedSplit(c: seq<Rc>, j: nat, k: nat)
    ensures Dropped(c, j + k) == Dropped(Dropped(c, j), k)
    decreases j
  {
    if j > 0 { DroppedSplit(Rest(c), j - 1, k); }
  }

  lemma BeginsThree(c: seq<Rc>, x: Rc, g: seq<Rc>, more: seq<Rc>)
    ensures Begins(c, [x] + g + more) <==>
      First(c) == x && Begins(Rest(c), g) && Begins(Dropped(Rest(c), |g|), more)
  {
    assert [x] + g + more == [x] + (g + more);
    BeginsOne(c, x, g + more);
    BeginsSplit(Rest(c), g, more);
  }

  lemma DroppedThree(c: seq<Rc>, j: nat, k: nat, all: nat)
    requires all == 1 + j + k
    ensures Dropped(c, all) == Dropped(Dropped(Rest(c), j), k)
  {
    assert Dropped(c, 1 + (j + k)) == Dropped(Rest(c), j + k);
    DroppedSplit(Rest(c), j, k);
  }

  lemma {:induction false} SucceedMeaning(n: nat, c: seq<Rc>)
    ensures Succeed(n, c).Some? <==> Begins(c, Oks(n))
    ensures Succeed(n, c).Some? ==> Succeed(n, c).value == Dropped(c, n)
  {
    if n > 0 {
      assert Oks(n)[1..] == Oks(n - 1);
      SucceedMeaning(n - 1, Rest(c));
    }
  }

  /** A growing that succeeds met some number of maps resized by others ... */
  lemma {:induction false} GrownReads(n: nat, e: Env) returns (k: nat)
    requires Grown(n, e).Some?
    ensures Begins(e.calls, Growing(n, k)) && LargerBy(e.sizes, 1 + k).Some?
    ensures Grown(n, e) == Some(Env(Dropped(e.calls, |Growing(n, k)|), LargerBy(e.sizes, 1 + k).value))
    decreases |e.calls|
  {
    var begun, m := Rest(e.calls), Larger(e.sizes).value;
    if First(begun) == MapResized {
      k := GrownReads(n, Env(Rest(begun), m));
      k := k + 1;
      GrowingMore(n, k - 1, e.calls);
      LargerBySplit(e.sizes, 1, k);
    } else {
      k := 0;
      GrowingNone(n, e.calls);
      LargerBySplit(e.sizes, 1, 0);
    }
  }

  lemma GrowingMore(n: nat, k: nat, c: seq<Rc>)
    requires First(c) == Ok && First(Rest(c)) == MapResized
    ensures Begins(c, Growing(n, k + 1)) <==> Begins(Rest(Rest(c)), Growing(n, k))
    ensures Dropped(c, |Growing(n, k + 1)|) == Dropped(Rest(Rest(c)), |Growing(n, k)|)
  {
    var two := [Ok, MapResized];
    assert Growing(n, k + 1) == two + Growing(n, k);
    BeginsSplit(c, two, Growing(n, k));
    assert Dropped(c, 2) == Dropped(Rest(c), 1) == Rest(Rest(c));
    assert two[1..] == [MapResized] && two[1..][1..] == [];
    DroppedSplit(c, 2, |Growing(n, k)|);
  }

  /** Four calls and the log. */
  lemma GrowingNone(n: nat, c: seq<Rc>)
    ensures Begins(c, Growing(n, 0)) <==>
      First(c) == Ok && Succeed(3, Rest(c)).Some? && Succeed(n, Succeed(3, Rest(c)).value).Some?
    ensures Begins(c, Growing(n, 0)) ==>
      Succeed(n, Succeed(3, Rest(c)).value) == Some(Dropped(c, |Growing(n, 0)|))
  {
    assert Growing(n, 0) == Oks(4 + n);
    SucceedMeaning(4 + n, c);
    SucceedSplit(1, 3 + n, c);
    assert Succeed(1, c) == if First(c) != Ok then None else Succeed(0, Rest(c));
    SucceedSplit(3, n, Rest(c));
  }

  /** ... and the other way round. */
  lemma {:induction false} ReadsGrown(n: nat, k: nat, e: Env)
    requires Begins(e.calls, Growing(n, k)) && LargerBy(e.sizes, 1 + k).Some?
    ensures Grown(n, e) == Some(Env(Dropped(e.calls, |Growing(n, k)|), LargerBy(e.sizes, 1 + k).value))
    decreases k
  {
    LargerBySplit(e.sizes, 1, k);
    var m := Larger(e.sizes).value;
    if k == 0 {
      GrowingNone(n, e.calls);
      assert First(Rest(e.calls)) == Ok;
    } else {
      assert Growing(n, k)[..2] == [Ok, MapResized];
      BeginsSplit(e.calls, [Ok, MapResized], Growing(n, k)[2..]);
      assert Growing(n, k) == [Ok, MapResized] + Growing(n, k)[2..];
      assert [Ok, MapResized][1..] == [MapResized];
      GrowingMore(n, k - 1, e.calls);
      ReadsGrown(n, k - 1, Env(Rest(Rest(e.calls)), m));
    }
  }

  /** The answers of a successful operation: at most so many times full, each
      time met by a growing that succeeds, and then a success. */
  ghost predicate Reads(n: nat, commit: bool, tries: nat, e: Env, rs: seq<Round>) {
    && |rs| <= tries && (forall i | 0 <= i < |rs| :: IsFull(rs[i].full, commit))
    && Begins(e.calls, Text(n, rs)) && LargerBy(e.sizes, Times(rs)).Some?
  }

  lemma TextBegins(n: nat, rs: seq<Round>, c: seq<Rc>)
    requires rs != []
    ensures var g := Growing(n, rs[0].resized);
      Begins(c, Text(n, rs)) <==>
        First(c) == rs[0].full && Begins(Rest(c), g) && Begins(Dropped(Rest(c), |g|), Text(n, rs[1..]))
  {
    BeginsThree(c, rs[0].full, Growing(n, rs[0].resized), Text(n, rs[1..]));
  }

  lemma TextLength(n: nat, rs: seq<Round>)
    requires rs != []
    ensures |Text(n, rs)| == 1 + |Growing(n, rs[0].resized)| + |Text(n, rs[1..])|
  {
  }

  lemma TextDropped(n: nat, rs: seq<Round>, c: seq<Rc>)
    requires rs != []
    ensures var g := Growing(n, rs[0].resized);
      Dropped(c, |Text(n, rs)|) == Dropped(Dropped(Rest(c), |g|), |Text(n, rs[1..])|)
  {
    TextLength(n, rs);
    DroppedThree(c, |Growing(n, rs[0].resized)|, |Text(n, rs[1..])|, |Text(n, rs)|);
  }

  /** What lies ahead after such answers. */
  function After(n: nat, e: Env, rs: seq<Round>): Env
    requires LargerBy(e.sizes, Times(rs)).Some?
  {
    Env(Dropped(e.calls, |Text(n, rs)|), LargerBy(e.sizes, Times(rs)).value)
  }

  /** ... and after the first growing. */
  function AfterRound(n: nat, e: Env, k: nat): Env
    requires LargerBy(e.sizes, 1 + k).Some?
  {
    Env(Dropped(Rest(e.calls), |Growing(n, k)|), LargerBy(e.sizes, 1 + k).value)
  }

  lemma ReadsNext(n: nat, commit: bool, tries: nat, e: Env, rs: seq<Round>)
    requires rs != [] && tries > 0 && First(e.calls) == rs[0].full && IsFull(rs[0].full, commit)
    requires Begins(Rest(e.calls), Growing(n, rs[0].resized)) && LargerBy(e.sizes, 1 + rs[0].resized).Some?
    ensures var f := AfterRound(n, e, rs[0].resized);
      && (Reads(n, commit, tries, e, rs) <==> Reads(n, commit, tries - 1, f, rs[1..]))
      && (Reads(n, commit, tries, e, rs) ==> After(n, e, rs) == After(n, f, rs[1..]))
  {
    TextBegins(n, rs, e.calls);
    TextDropped(n, rs, e.calls);
    LargerBySplit(e.sizes, 1 + rs[0].resized, Times(rs[1..]));
    assert rs == [rs[0]] + rs[1..];
  }

  lemma ReadsFirst(n: nat, commit: bool, tries: nat, e: Env, rs: seq<Round>)
    requires rs != [] && Reads(n, commit, tries, e, rs)
    ensures tries > 0 && First(e.calls) == rs[0].full && IsFull(rs[0].full, commit)
    ensures Begins(Rest(e.calls), Growing(n, rs[0].resized)) && LargerBy(e.sizes, 1 + rs[0].resized).Some?
  {
    TextBegins(n, rs, e.calls);
    LargerBySplit(e.sizes, 1 + rs[0].resized, Times(rs[1..]));
  }

  lemma ReadsNone(n: nat, commit: bool, tries: nat, e: Env)
    ensures Reads(n, commit, tries, e, []) <==> First(e.calls) == Ok
    ensures After(n, e, []) == Env(Rest(e.calls), e.sizes)
  {
    var none: seq<Rc> := [];
    var rs: seq<Round> := [];
    assert Text(n, rs) == [Ok] == [Ok] + none;
    BeginsOne(e.calls, Ok, none);
    assert LargerBy(e.sizes, Times(rs)) == Some(e.sizes);
  }

  lemma {:induction false} TriedReads(n: nat, commit: bool, tries: nat, e: Env) returns (rs: seq<Round>)
    requires Tried(n, commit, tries, e).Some?
    ensures Reads(n, commit, tries, e, rs)
    ensures Tried(n, commit, tries, e) == Some(After(n, e, rs))
    decreases tries
  {
    if First(e.calls) == Ok {
      rs := [];
      ReadsNone(n, commit, tries, e);
    } else {
      var k := GrownReads(n, Env(Rest(e.calls), e.sizes));
      var more := TriedReads(n, commit, tries - 1, AfterRound(n, e, k));
      rs := [Round(First(e.calls), k)] + more;
      assert rs[1..] == more;
      ReadsNext(n, commit, tries, e, rs);
    }
  }

  lemma {:induction false} ReadsTried(n: nat, commit: bool, tries: nat, e: Env, rs: seq<Round>)
    requires Reads(n, commit, tries, e, rs)
    ensures Tried(n, commit, tries, e) == Some(After(n, e, rs))
    decreases |rs|
  {
    if rs == [] {
      ReadsNone(n, commit, tries, e);
    } else {
      ReadsFirst(n, commit, tries, e, rs);
      ReadsNext(n, commit, tries, e, rs);
      ReadsGrown(n, rs[0].resized, Env(Rest(e.calls), e.sizes));
      ReadsTried(n, commit, tries - 1, AfterRound(n, e, rs[0].resized), rs[1..]);
    }
  }

  /** An operation succeeds exactly if the answers read like this. */
  lemma TriedMeaning(n: nat, commit: bool, tries: nat, e: Env)
    ensures Tried(n, commit, tries, e).Some? <==> exists rs :: Reads(n, commit, tries, e, rs)
  {
    if Tried(n, commit, tries, e).Some? { var rs := TriedReads(n, commit, tries, e); }
    if rs :| Reads(n, commit, tries, e, rs) { ReadsTried(n, commit, tries, e, rs); }
  }
}
