// The transaction cache of datastore_lmdb.c: every put and delete of a
// transaction is written as bytes into a stack of chunks, so that it can be
// replayed after the map has been grown.

module ReplayLog {
  import opened Words
  import opened Options

  type Bytes = seq<Byte>

  /** One change of the store. */
  datatype Entry = Put(key: Bytes, val: Bytes) | Del(key: Bytes)

  const CHUNK_SIZE := 0x10_0000       // a_BFLM_TXN_CACHE_SIZE
  const HEADER_SIZE := 40             // sizeof(struct a_bflm_txn_cache): five pointers
  const SPARE := 8                    // 2 * sizeof(uint32_t), kept free at the end
  const TOO_LARGE := 0x7FFF_FFFF
  const FLAG := 0x8000_0000           // the entry has a value
  const SIZE_T := 0x1_0000_0000_0000_0000

  // ----- bytes -----

  function U32(n: nat): (s: Bytes)
    requires n < 0x1_0000_0000
    ensures |s| == 4
  {
    [(n % 256) as Byte, (n / 256 % 256) as Byte, (n / 65536 % 256) as Byte, (n / 16777216) as Byte]
  }

  function ReadU32(s: Bytes): nat
    requires |s| == 4
  {
    s[0] as nat + 256 * s[1] as nat + 65536 * s[2] as nat + 16777216 * s[3] as nat
  }

  lemma U32RoundTrip(n: nat)
    requires n < 0x1_0000_0000
    ensures ReadU32(U32(n)) == n
  {
    assert n / 256 == 256 * (n / 65536) + n / 256 % 256;
    assert n / 65536 == 256 * (n / 16777216) + n / 65536 % 256;
  }

  /** a_BFLM_TXN_CACHE_ALIGN */
  function Align(n: nat): (m: nat)
    ensures n <= m < n + 4 && m % 4 == 0
    ensures n % 4 == 0 ==> m == n
  {
    (n + 3) / 4 * 4
  }

  /** The number of bytes of an entry before the padding. */
  function RawSize(e: Entry): nat {
    if e.Put? then |e.key| + |e.val| + 8 else |e.key| + 4
  }

  /** The bytes of an entry before the padding. */
  function Raw(e: Entry): (b: Bytes)
    requires Storable(e)
    ensures |b| == RawSize(e)
  {
    match e
    case Put(k, v) => U32(|k| + FLAG) + U32(|v|) + k + v
    case Del(k) => U32(|k|) + k
  }

  /** Every test of a_bflm_txn_cache_put for an entry that cannot be stored is passed. */
  predicate Storable(e: Entry) {
    match e
    case Put(k, v) =>
      |k| < TOO_LARGE && |v| < TOO_LARGE && |k| + |v| < TOO_LARGE - 8
      && Align(|k| + |v| + 8) < TOO_LARGE - HEADER_SIZE
    case Del(k) =>
      |k| < TOO_LARGE - 4 && Align(|k| + 4) < TOO_LARGE - HEADER_SIZE
  }

  /** The number of bytes an entry takes in a chunk. */
  function Size(e: Entry): nat {
    Align(RawSize(e))
  }

  lemma AlignShift(start: nat, n: nat)
    requires start % 4 == 0
    ensures Align(start + n) == start + Align(n)
  {
    assert (start + n + 3) / 4 == start / 4 + (n + 3) / 4;
  }

  lemma SizeOfRaw(e: Entry, start: nat)
    requires Storable(e) && start % 4 == 0
    ensures |Raw(e)| <= Size(e) && Align(start + |Raw(e)|) == start + Size(e)
  {
    AlignShift(start, |Raw(e)|);
  }

  /** The padding after the raw bytes is whatever was in memory. */
  ghost predicate Encodes(b: Bytes, e: Entry) {
    Storable(e) && |b| == Size(e) && Raw(e) <= b
  }

  ghost predicate Encoded(b: Bytes, es: seq<Entry>)
    decreases |es|
  {
    if es == [] then b == []
    else Size(es[0]) <= |b| && Encodes(b[..Size(es[0])], es[0]) && Encoded(b[Size(es[0])..], es[1..])
  }

  lemma EncodedEmpty(b: Bytes, es: seq<Entry>)
    requires Encoded(b, es)
    ensures b == [] <==> es == []
  {
  }

  lemma CutAppend(b: Bytes, x: Bytes, n: nat)
    requires n <= |b|
    ensures (b + x)[..n] == b[..n] && (b + x)[n..] == b[n..] + x
  {
  }

  lemma {:induction false} EncodedAppend(b: Bytes, es: seq<Entry>, x: Bytes, e: Entry)
    requires Encoded(b, es) && Encodes(x, e)
    ensures Encoded(b + x, es + [e])
    decreases |es|
  {
    if es == [] {
      assert b + x == x && x[..Size(e)] == x && x[Size(e)..] == [];
      assert (es + [e])[1..] == [];
    } else {
      EncodedAppend(b[Size(es[0])..], es[1..], x, e);
      CutAppend(b, x, Size(es[0]));
      assert (es + [e])[1..] == es[1..] + [e];
    }
  }

  lemma Assoc(a: Bytes, b: Bytes, c: Bytes)
    ensures (a + b) + c == a + (b + c)
  {
  }

  /** What parsing finds in the bytes of a put. */
  lemma PutParses(k: Bytes, v: Bytes)
    requires Storable(Put(k, v))
    ensures var b := Raw(Put(k, v));
      && ReadU32(b[..4]) == |k| + FLAG && ReadU32(b[4..8]) == |v|
      && b[8..8 + |k|] == k && b[8 + |k|..8 + |k| + |v|] == v
  {
    var kl, vl := U32(|k| + FLAG), U32(|v|);
    var b := kl + vl + k + v;
    U32RoundTrip(|k| + FLAG);
    U32RoundTrip(|v|);
    assert b[..4] == kl && b[4..8] == vl;
  }

  lemma DelParses(k: Bytes)
    requires Storable(Del(k))
    ensures var b := Raw(Del(k)); ReadU32(b[..4]) == |k| && b[4..4 + |k|] == k
  {
    U32RoundTrip(|k|);
    assert Raw(Del(k))[..4] == U32(|k|);
  }

  lemma EntryWritten(before: Bytes, es: seq<Entry>, after: Bytes, e: Entry, dp: nat)
    requires Encoded(before, es) && Storable(e)
    requires |after| == |before| + Size(e) && dp == |before| + |Raw(e)| && after[..dp] == before + Raw(e)
    ensures Encoded(after, es + [e])
  {
    var x := after[|before|..];
    CutAfter(before, Raw(e), after);
    EncodedAppend(before, es, x, e);
  }

  lemma CutAfter(before: Bytes, r: Bytes, after: Bytes)
    requires |before| + |r| <= |after| && after[..|before| + |r|] == before + r
    ensures r <= after[|before|..] && after == before + after[|before|..]
  {
    var d := |before| + |r|;
    assert after[|before|..][..|r|] == after[..d][|before|..] == r;
    assert after[..d][..|before|] == before;
    assert after == after[..|before|] + after[|before|..];
    assert after[..|before|] == after[..d][..|before|];
  }

  lemma EncodesReads(b: Bytes, e: Entry)
    requires Size(e) <= |b| && Encodes(b[..Size(e)], e)
    ensures ReadsAt(b, 0, e)
  {
    SizeOfRaw(e, 0);
    assert b[0..|Raw(e)|] == b[..Size(e)][..|Raw(e)|];
    RawAt(b, 0, e);
  }

  lemma ReadsOne(b: Bytes, i: nat, e: Entry, f: Entry)
    requires ReadsAt(b, i, e) && ReadsAt(b, i, f)
    ensures e == f
  {
  }

  lemma EncodesPrefix(b: Bytes, e: Entry, f: Entry)
    requires Size(e) <= |b| && Size(f) <= |b| && Encodes(b[..Size(e)], e) && Encodes(b[..Size(f)], f)
    ensures e == f
  {
    EncodesReads(b, e);
    EncodesReads(b, f);
    ReadsOne(b, 0, e, f);
  }

  /** The bytes of a chunk stand for one sequence of entries only. */
  lemma {:induction false} EncodedUnique(b: Bytes, es: seq<Entry>, fs: seq<Entry>)
    requires Encoded(b, es) && Encoded(b, fs)
    ensures es == fs
    decreases |es|
  {
    EncodedEmpty(b, es);
    EncodedEmpty(b, fs);
    if es != [] {
      EncodesPrefix(b, es[0], fs[0]);
      EncodedUnique(b[Size(es[0])..], es[1..], fs[1..]);
      assert es == [es[0]] + es[1..] && fs == [fs[0]] + fs[1..];
    }
  }

  /** The bytes malloc'd for a chunk that must take an entry of the given size. */
  function NewChunkBytes(size: nat): nat {
    if size + HEADER_SIZE >= CHUNK_SIZE then size + HEADER_SIZE else CHUNK_SIZE
  }

  // ----- chunks -----

  /** One block of the stack; offsets are relative to bflmtc_data. */
  class Chunk {
    var last: Chunk?
    var next: Chunk?
    var caster: nat
    const max: int
    const data: array<Byte>
    ghost var entries: seq<Entry>
    ghost const place: nat          // in the stack, from the oldest

    /** What the chunk stands for, if it is in order. */
    ghost function Held(): Option<seq<Entry>>
      reads `caster, `entries, data
    {
      if Ok() then Some(entries) else None
    }

    ghost predicate Ok()
      reads `caster, `entries, data
    {
      && caster <= data.Length && max + SPARE <= data.Length && caster % 4 == 0
      && Encoded(data[..caster], entries)
    }

    /** The memory for one entry of the given size, at least a whole chunk. */
    constructor (size: nat, last: Chunk?, ghost place: nat)
      ensures Held() == Some([]) && fresh(data) && this.last == last && this.place == place && caster == 0
      ensures size <= data.Length && (size <= max <==> size <= CHUNK_SIZE - SPARE - HEADER_SIZE)
    {
      this.last, this.place, next := last, place, null;
      caster, entries := 0, [];
      max := NewChunkBytes(size) - SPARE - HEADER_SIZE;
      data := new Byte[NewChunkBytes(size) - HEADER_SIZE];
    }

    /** Write the entry at the caster and move the caster past it. */
    method Write(e: Entry)
      requires Held() == Some(entries) && Storable(e) && caster + Size(e) <= data.Length
      modifies `caster, `entries, data
      ensures Held() == Some(entries) && entries == old(entries) + [e] && caster == old(caster) + Size(e)
    {
      ghost var before := data[..caster];
      ghost var end := caster + Size(e);
      SizeOfRaw(e, caster);
      var dp := WriteRaw(data, caster, e);
      var aligned := Align(dp);
      assert aligned == end;
      assert data[..dp] == data[..end][..dp];
      EntryWritten(before, entries, data[..end], e, dp);
      caster := aligned;
      entries := entries + [e];
    }
  }

  lemma SliceOfSlice(s: Bytes, i: nat, j: nat, k: nat, m: nat)
    requires i <= j <= |s| && k <= m <= j - i
    ensures s[i..j][k..m] == s[i + k..i + m]
  {
    var l, r := s[i..j][k..m], s[i + k..i + m];
    assert |l| == |r|;
    forall x | 0 <= x < |l| ensures l[x] == r[x] {
      assert l[x] == s[i..j][k + x] == s[i + (k + x)];
      assert r[x] == s[(i + k) + x];
    }
  }

  predicate PutAt(s: Bytes, i: nat, k: Bytes, v: Bytes) {
    && i + 8 + |k| + |v| <= |s|
    && ReadU32(s[i..i + 4]) == |k| + FLAG && ReadU32(s[i + 4..i + 8]) == |v|
    && s[i + 8..i + 8 + |k|] == k && s[i + 8 + |k|..i + 8 + |k| + |v|] == v
  }

  predicate DelAt(s: Bytes, i: nat, k: Bytes) {
    i + 4 + |k| <= |s| && ReadU32(s[i..i + 4]) == |k| && s[i + 4..i + 4 + |k|] == k
  }

  /** Parsing at i finds e. */
  predicate ReadsAt(s: Bytes, i: nat, e: Entry) {
    |e.key| < TOO_LARGE && if e.Put? then PutAt(s, i, e.key, e.val) else DelAt(s, i, e.key)
  }

  lemma RawAt(s: Bytes, start: nat, e: Entry)
    requires Storable(e) && start + |Raw(e)| <= |s| && s[start..start + |Raw(e)|] == Raw(e)
    ensures ReadsAt(s, start, e)
  {
    if e.Put? { RawPutAt(s, start, e.key, e.val); } else { RawDelAt(s, start, e.key); }
  }

  lemma RawPutAt(s: Bytes, start: nat, k: Bytes, v: Bytes)
    requires Storable(Put(k, v)) && start + 8 + |k| + |v| <= |s|
    requires s[start..start + (8 + |k| + |v|)] == Raw(Put(k, v))
    ensures PutAt(s, start, k, v)
  {
    var end := start + (8 + |k| + |v|);
    PutParses(k, v);
    SliceOfSlice(s, start, end, 0, 4);
    SliceOfSlice(s, start, end, 4, 8);
    SliceOfSlice(s, start, end, 8, 8 + |k|);
    SliceOfSlice(s, start, end, 8 + |k|, 8 + |k| + |v|);
  }

  lemma RawDelAt(s: Bytes, start: nat, k: Bytes)
    requires Storable(Del(k)) && start + 4 + |k| <= |s| && s[start..start + (4 + |k|)] == Raw(Del(k))
    ensures DelAt(s, start, k)
  {
    DelParses(k);
    SliceOfSlice(s, start, start + (4 + |k|), 0, 4);
    SliceOfSlice(s, start, start + (4 + |k|), 4, 4 + |k|);
  }

  /** Read one entry at start and step over it and its padding. */
  method ParseRaw(s: Bytes, start: nat, ghost e0: Entry) returns (e: Entry, dp: nat)
    requires ReadsAt(s, start, e0)
    ensures e == e0 && dp == Align(start + RawSize(e0))
  {
    var kl := ReadU32(s[start..start + 4]);
    dp := start + 4;
    if kl >= FLAG {
      kl := kl - FLAG;
      var vl := ReadU32(s[dp..dp + 4]);
      dp := dp + 4;
      e := Put(s[dp..dp + kl], s[dp + kl..dp + kl + vl]);
      dp := dp + kl + vl;
    } else {
      e := Del(s[dp..dp + kl]);
      dp := dp + kl;
    }
    dp := Align(dp);
  }

  lemma PrefixAt(s: Bytes, start: nat, m: nat, r: Bytes)
    requires start <= |s| && m <= |s| - start && r <= s[start..][..m]
    ensures s[start..start + |r|] == r && s[start..][m..] == s[start + m..]
  {
    assert s[start..][..m][..|r|] == s[start..start + |r|];
  }

  /** Some(dp) if the bytes from dp on stand for the entries es. */
  ghost function EncodedFrom(s: Bytes, dp: nat, es: seq<Entry>): Option<nat> {
    if dp % 4 == 0 && dp <= |s| && Encoded(s[dp..], es) then Some(dp) else None
  }

  /** The raw bytes of the first entry are there ... */
  lemma EntryAt(s: Bytes, start: nat, es: seq<Entry>)
    requires EncodedFrom(s, start, es) == Some(start) && es != []
    ensures Storable(es[0]) && start + |Raw(es[0])| <= |s| && s[start..start + |Raw(es[0])|] == Raw(es[0])
  {
    SizeOfRaw(es[0], start);
    PrefixAt(s, start, Size(es[0]), Raw(es[0]));
  }

  /** ... so that ParseRaw reads it ... */
  lemma EntryReads(s: Bytes, start: nat, es: seq<Entry>)
    requires EncodedFrom(s, start, es) == Some(start) && es != []
    ensures ReadsAt(s, start, es[0])
  {
    EntryAt(s, start, es);
    RawAt(s, start, es[0]);
  }

  /** ... and leaves off at the entries after it. */
  lemma EntryEnds(s: Bytes, start: nat, es: seq<Entry>, dp: nat)
    requires EncodedFrom(s, start, es) == Some(start) && es != [] && dp == Align(start + RawSize(es[0]))
    ensures start < dp && EncodedFrom(s, dp, es[1..]) == Some(dp)
  {
    SizeOfRaw(es[0], start);
    PrefixAt(s, start, Size(es[0]), Raw(es[0]));
  }

  /** Read the first entry of what is encoded from start on. */
  method ParseEntry(s: Bytes, start: nat, ghost es: seq<Entry>) returns (e: Entry, dp: nat)
    requires EncodedFrom(s, start, es) == Some(start) && es != []
    ensures e == es[0] && start < dp && EncodedFrom(s, dp, es[1..]) == Some(dp)
  {
    EntryReads(s, start, es);
    e, dp := ParseRaw(s, start, es[0]);
    EntryEnds(s, start, es, dp);
  }

  method WriteRaw(a: array<Byte>, start: nat, e: Entry) returns (dp: nat)
    requires Storable(e) && start + |Raw(e)| <= a.Length
    modifies a
    ensures dp == start + |Raw(e)| && a[..dp] == old(a[..start]) + Raw(e)
  {
    ghost var before := a[..start];
    var kl := U32(|e.key| + if e.Put? then FLAG else 0);
    dp := MemCpy(a, start, kl);
    if e.Put? {
      var vl := U32(|e.val|);
      dp := WriteThree(a, dp, vl, e.key, e.val);
      Assoc(before, kl, vl + e.key + e.val);
      Assoc(kl, vl, e.key);
      Assoc(kl, vl + e.key, e.val);
    } else {
      dp := MemCpy(a, dp, e.key);
      Assoc(before, kl, e.key);
    }
  }

  method WriteThree(a: array<Byte>, start: nat, x: Bytes, y: Bytes, z: Bytes) returns (dp: nat)
    requires start + |x| + |y| + |z| <= a.Length
    modifies a
    ensures dp == start + |x| + |y| + |z| && a[..dp] == old(a[..start]) + (x + y + z)
  {
    ghost var before := a[..start];
    dp := MemCpy(a, start, x);
    dp := MemCpy(a, dp, y);
    dp := MemCpy(a, dp, z);
    Assoc(before, x, y);
    Assoc(before, x + y, z);
  }

  method MemCpy(a: array<Byte>, dp: nat, s: Bytes) returns (dp': nat)
    requires dp + |s| <= a.Length
    modifies a
    ensures dp' == dp + |s|
    ensures a[..dp'] == old(a[..dp]) + s && a[dp'..] == old(a[dp'..])
  {
    forall i | 0 <= i < |s| { a[dp + i] := s[i]; }
    dp' := dp + |s|;
  }

  /** Entries small enough to leave a fresh chunk with its caster at or below
      max; those of the store are far smaller. */
  predicate Fits(e: Entry) {
    Size(e) <= CHUNK_SIZE - SPARE - HEADER_SIZE
  }

  /** The limits in plain numbers. */
  lemma StorableMeaning(e: Entry)
    ensures Storable(e) <==> if e.Put? then |e.key| + |e.val| <= 2147483596 else |e.key| <= 2147483600
    ensures Fits(e) <==> RawSize(e) <= 1048528
  {
  }

  /** (size_t)(max - caster): how much room the test of the next put sees.
      A caster past max wraps around to almost the whole address space. */
  function RoomSeen(caster: nat, max: int): int {
    if caster <= max then max - caster else SIZE_T - (caster - max)
  }

  /** An accepted entry that does not fit leaves its chunk with the caster past
      max.  Any entry after it passes the test for room, and is written past
      the end of the chunk, unless it is the four bytes of the delete of the
      empty key and just these are left. */
  lemma LargeEntryOverruns(e: Entry, next: Entry)
    requires Storable(e) && !Fits(e) && Storable(next)
    ensures var length := NewChunkBytes(Size(e)) - HEADER_SIZE;
      && Size(e) > length - SPARE
      && Size(next) < RoomSeen(Size(e), length - SPARE)
      && (Size(e) + Size(next) > length <==> !(Size(next) == 4 && Size(e) + 4 <= length))
  {
  }

  /** There are such entries. */
  lemma SomeEntryIsLarge()
    ensures exists e :: Storable(e) && !Fits(e)
  {
    var e := Del(seq(CHUNK_SIZE, i => 0));
    assert Storable(e) && !Fits(e);
  }

  /** All entries of the chunks, oldest chunk first. */
  ghost function Flat(cs: seq<Chunk>): seq<Entry>
    reads cs`entries
  {
    if cs == [] then [] else Flat(cs[..|cs| - 1]) + cs[|cs| - 1].entries
  }

  /** Every chunk knows its place, lies on top of the one before it, and holds
      its entries; no other chunk writes to the bytes of the one on top. */
  ghost predicate Stacked(cs: seq<Chunk>)
    reads cs`caster, cs`entries, cs`last, set c | c in cs :: c.data
  {
    && (forall i {:trigger cs[i].place} | 0 <= i < |cs| :: cs[i].place == i)
    && (forall i {:trigger cs[i].last} | 0 <= i < |cs| :: cs[i].last == Below(cs, i))
    && (forall i {:trigger cs[i].entries} | 0 <= i < |cs| :: cs[i].Held() == Some(cs[i].entries))
    && (forall i {:trigger cs[i].data} | 0 <= i < |cs| - 1 :: cs[i].data != cs[|cs| - 1].data)
  }

  /** The entries of the chunks, if these are in order. */
  ghost function Content(cs: seq<Chunk>): Option<seq<Entry>>
    reads cs`caster, cs`entries, cs`last, set c | c in cs :: c.data
  {
    if Stacked(cs) then Some(Flat(cs)) else None
  }

  /** The entries of the first chunks are a prefix of the log. */
  lemma {:induction false} FlatSplit(cs: seq<Chunk>, n: nat) returns (after: seq<Entry>)
    requires n <= |cs|
    ensures Flat(cs) == Flat(cs[..n]) + after
    decreases |cs|
  {
    if n == |cs| {
      assert cs[..n] == cs;
      after := [];
    } else {
      var below := cs[..|cs| - 1];
      var mid := FlatSplit(below, n);
      assert below[..n] == cs[..n];
      after := mid + cs[|cs| - 1].entries;
    }
  }

  lemma FlatPush(cs: seq<Chunk>, c: Chunk)
    ensures Flat(cs + [c]) == Flat(cs) + c.entries
  {
    assert (cs + [c])[..|cs|] == cs;
  }

  lemma StackedPush(cs: seq<Chunk>, c: Chunk)
    requires Stacked(cs) && c.place == |cs| && c.last == Below(cs, |cs|) && c.Held() == Some(c.entries)
    requires forall i {:trigger cs[i].data} | 0 <= i < |cs| :: cs[i].data != c.data
    ensures Stacked(cs + [c])
  {
  }

  // ----- the stack of chunks -----

  class TxnLog {
    var top: Chunk?
    ghost var chunks: seq<Chunk>  // oldest first
    ghost var Repr: set<object>

    ghost predicate Valid()
      reads this, Repr
      ensures Valid() ==> this in Repr
    {
      && this in Repr
      && top == (if chunks == [] then null else chunks[|chunks| - 1])
      && (forall i {:trigger chunks[i]} | 0 <= i < |chunks| :: chunks[i] in Repr && chunks[i].data in Repr)
      && Stacked(chunks)
    }

    ghost function Entries(): seq<Entry>
      reads this, chunks`entries
    {
      Flat(chunks)
    }

    constructor ()
      ensures Valid() && Roomy() && Entries() == [] && fresh(Repr)
    {
      top, chunks, Repr := null, [], {this};
    }

    /** The pointers of the top chunk are in order, as the next put needs them. */
    ghost predicate Roomy()
      reads this, Repr
    {
      top != null && top in Repr ==> top.caster <= top.max
    }

    predicate HasRoom(e: Entry)
      reads this, top
    {
      top != null && Size(e) < RoomSeen(top.caster, top.max)
    }

    /** a_bflm_txn_cache_put: append one entry to the log.  The write stays in
        the chunk; it leaves caster <= max exactly when the entry went into an
        existing chunk or is small enough for a new one. */
    method Put(e: Entry) returns (ok: bool)
      requires Valid() && Roomy()
      modifies Repr
      ensures Valid() && fresh(Repr - old(Repr))
      ensures ok == Storable(e)
      ensures Entries() == old(Entries()) + if ok then [e] else []
      ensures Roomy() <==> !ok || old(HasRoom(e)) || Fits(e)
    {
      if !Storable(e) { return false; }
      assert chunks != [] ==> chunks[|chunks| - 1].Held() == Some(chunks[|chunks| - 1].entries);
      if !HasRoom(e) {
        PushChunk(Size(e));
      }
      WriteTop(e);
      return true;
    }

    /** A new chunk on top of the stack, with room for size bytes. */
    method PushChunk(size: nat)
      requires Valid()
      modifies this
      ensures Valid() && fresh(Repr - old(Repr)) && Entries() == old(Entries())
      ensures top != null && top.caster + size <= top.data.Length
      ensures top.caster + size <= top.max <==> size <= CHUNK_SIZE - SPARE - HEADER_SIZE
    {
      var c := new Chunk(size, top, |chunks|);
      Push(c);
    }

    method Push(c: Chunk)
      requires Valid() && c.place == |chunks| && c.last == top && c.Held() == Some([]) && c.data !in Repr
      modifies this
      ensures Valid() && top == c && Repr == old(Repr) + {c, c.data} && Entries() == old(Entries())
    {
      FlatPush(chunks, c);
      StackedPush(chunks, c);
      top, chunks, Repr := c, chunks + [c], Repr + {c, c.data};
    }

    method WriteTop(e: Entry)
      requires Valid() && top != null && Storable(e) && top.caster + Size(e) <= top.data.Length
      modifies top, top.data
      ensures Valid() && Entries() == old(Entries()) + [e] && top.caster == old(top.caster) + Size(e)
    {
      ghost var below, es := Flat(chunks[..|chunks| - 1]), top.entries;
      WriteLast(top, chunks, e);
      assert below + (es + [e]) == below + es + [e];
    }

    /** The first half of a_bflm_txn__replay: link the chunks oldest first. */
    method Rewind() returns (head: Chunk?)
      requires Valid()
      modifies chunks`next
      ensures Valid() && Entries() == old(Entries()) && (Roomy() <==> old(Roomy()))
      ensures head == Oldest(chunks, 0) && NextFrom(chunks, 0)
    {
      head := LinkChunks(top, chunks);
    }

    /** a_bflm_txn_cache_free */
    method Free()
      requires Valid()
      modifies this
      ensures Valid() && Roomy() && Entries() == [] && fresh(Repr - old(Repr))
    {
      top, chunks := null, [];
    }
  }

  /** Write to the chunk on top; those below stay as they are. */
  method WriteLast(top: Chunk, ghost cs: seq<Chunk>, e: Entry)
    requires Stacked(cs) && cs != [] && top == cs[|cs| - 1]
    requires Storable(e) && top.caster + Size(e) <= top.data.Length
    modifies top`caster, top`entries, top.data
    ensures Stacked(cs) && Flat(cs[..|cs| - 1]) == old(Flat(cs[..|cs| - 1]))
    ensures top.entries == old(top.entries) + [e] && top.caster == old(top.caster) + Size(e)
  {
    ghost var n := |cs| - 1;
    assert cs[n].Held() == Some(cs[n].entries);
    forall i | 0 <= i < n ensures cs[i] != top { assert cs[i].place == i && cs[n].place == n; }
    WriteAbove(top, cs[..n], e);
  }

  method WriteAbove(top: Chunk, ghost below: seq<Chunk>, e: Entry)
    requires top.Held() == Some(top.entries) && Storable(e) && top.caster + Size(e) <= top.data.Length
    requires forall i {:trigger below[i].entries} | 0 <= i < |below| :: below[i].Held() == Some(below[i].entries)
    requires top !in below && forall i {:trigger below[i].data} | 0 <= i < |below| :: below[i].data != top.data
    modifies top`caster, top`entries, top.data
    ensures top.Held() == Some(top.entries) && top.entries == old(top.entries) + [e]
    ensures forall i {:trigger below[i].entries} | 0 <= i < |below| :: below[i].Held() == Some(below[i].entries)
    ensures top.caster == old(top.caster) + Size(e) && Flat(below) == old(Flat(below))
  {
    top.Write(e);
  }

  function Oldest(cs: seq<Chunk>, n: nat): Chunk? {
    if n < |cs| then cs[n] else null
  }

  /** Following next from chunk n leads through the younger chunks to the top. */
  ghost predicate NextFrom(cs: seq<Chunk>, n: nat)
    reads cs`next
  {
    forall i {:trigger cs[i].next} | n <= i < |cs| :: cs[i].next == Oldest(cs, i + 1)
  }

  /** Chunk n lies between the entries before it and those after it. */
  lemma ChunkAt(cs: seq<Chunk>, n: nat) returns (after: seq<Entry>)
    requires Stacked(cs) && n < |cs|
    ensures cs[n].Ok() && Flat(cs[..n + 1]) == Flat(cs[..n]) + cs[n].entries
    ensures Flat(cs) == Flat(cs[..n]) + cs[n].entries + after
  {
    assert cs[n].Held() == Some(cs[n].entries);
    after := FlatSplit(cs, n + 1);
    FlatPush(cs[..n], cs[n]);
    assert cs[..n + 1] == cs[..n] + [cs[n]];
  }

  function Below(cs: seq<Chunk>, n: nat): Chunk? {
    if 0 < n <= |cs| then cs[n - 1] else null
  }

  /** Each chunk lies on the one before it, and knows its place. */
  ghost predicate DownLinked(cs: seq<Chunk>)
    reads cs`last
  {
    && (forall i {:trigger cs[i].last} | 0 <= i < |cs| :: cs[i].last == Below(cs, i))
    && (forall i {:trigger cs[i].place} | 0 <= i < |cs| :: cs[i].place == i)
  }

  method LinkChunks(top: Chunk?, ghost cs: seq<Chunk>) returns (head: Chunk?)
    requires Stacked(cs) && top == (if cs == [] then null else cs[|cs| - 1])
    modifies cs`next
    ensures head == Oldest(cs, 0) && NextFrom(cs, 0)
  {
    head := LinkNext(top, cs);
  }

  method LinkNext(top: Chunk?, ghost cs: seq<Chunk>) returns (head: Chunk?)
    requires DownLinked(cs) && top == Below(cs, |cs|)
    modifies cs`next
    ensures head == Oldest(cs, 0) && NextFrom(cs, 0)
  {
    var c := top;
    head := null;
    ghost var n: nat := |cs|;
    while c != null
      invariant n <= |cs| && c == Below(cs, n) && head == Oldest(cs, n) && NextFrom(cs, n)
      decreases n
    {
      forall i | n <= i < |cs| ensures cs[i] != c { assert cs[i].place == i && cs[n - 1].place == n - 1; }
      c.next := head;
      head := c;
      c := c.last;
      n := n - 1;
    }
  }
}
