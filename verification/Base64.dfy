// The in-place decoder of base64.c, and the encoding of section 6.8 of RFC 2045.

module Base64 {
  import opened Words

  const CR: Byte := 13
  const LF: Byte := 10
  const PAD: Byte := 61
  const INVALID := 0x7F

  /** base64_xlate as base64_init fills it: the table also takes in the NUL that
      ends the character set, as number 64. */
  function Xlate(c: Byte): nat {
    if 65 <= c <= 90 then c as nat - 65
    else if 97 <= c <= 122 then c as nat - 71
    else if 48 <= c <= 57 then c as nat + 4
    else if c == 43 then 62
    else if c == 47 then 63
    else if c == 0 then 64
    else if c == PAD then INVALID
    else 0
  }

  predicate Eol(c: Byte) { c == CR || c == LF }

  /** What base64_validate lets pass. */
  predicate Acceptable(c: Byte) {
    Xlate(c) != 0 || c == 65 || Eol(c)
  }

  lemma AcceptableMeaning(c: Byte)
    ensures Acceptable(c) <==>
      65 <= c <= 90 || 97 <= c <= 122 || 48 <= c <= 57 || c in {43, 47, PAD, 0, CR, LF}
  {
  }

  const UPPER := "ABCDEFGHIJKLMNOPQRSTUVWXYZ"
  const LOWER := "abcdefghijklmnopqrstuvwxyz"
  const CHARSET := UPPER + LOWER + "0123456789+/"

  /** The character set as C has it, with the NUL behind it. */
  function CharAt(i: nat): Byte
    requires i <= 64
  {
    if i < 64 then (CHARSET[i] as int % 256) as Byte else 0
  }

  lemma CharAtXlate(i: nat, c: Byte)
    requires i <= 64
    ensures CharAt(i) == c ==> Xlate(c) == i
    ensures Xlate(c) == i && i > 0 ==> CharAt(i) == c
  {
    if i < 26 {
      UpperAt(i);
    } else if i < 52 {
      LowerAt(i - 26);
    } else if i < 64 {
      assert CHARSET[i] == "0123456789+/"[i - 52];
    }
  }

  lemma UpperAt(i: nat)
    requires i < 26
    ensures UPPER[i] as int == 65 + i
  {
  }

  lemma LowerAt(i: nat)
    requires i < 26
    ensures LOWER[i] as int == 97 + i
  {
  }

  /** base64_init */
  method FillXlate(xlate: array<nat>)
    requires xlate.Length == 256 && forall c | 0 <= c < 256 :: xlate[c] == 0
    modifies xlate
    ensures forall c: Byte :: xlate[c] == Xlate(c)
  {
    var i := 0;
    while i <= 64
      invariant 0 <= i <= 65
      invariant forall c: Byte :: xlate[c] == if Xlate(c) < i then Xlate(c) else 0
    {
      forall c: Byte ensures (CharAt(i) == c ==> Xlate(c) == i) && (Xlate(c) == i && i > 0 ==> CharAt(i) == c) {
        CharAtXlate(i, c);
      }
      xlate[CharAt(i)] := i;
      i := i + 1;
    }
    xlate[PAD] := INVALID;
  }

  /** v << 6 | t, for t below 64 and for the 64 of NUL, which is the lowest bit of v. */
  function Shift6(v: nat, t: nat): (r: nat)
    ensures t < 64 ==> r / 64 == v && r % 64 == t
    ensures t == 64 ==> r == v / 2 * 128 + 64
  {
    if t == 64 && v % 2 == 1 then v * 64 else v * 64 + t
  }

  /** How many of four characters come before a pad. */
  function Filled(g: Word): (n: nat)
    requires |g| == 4
    ensures n <= 4 && (n < 4 ==> g[n] == PAD) && PAD !in g[..n]
  {
    if g[0] == PAD then 0
    else if g[1] == PAD then 1
    else if g[2] == PAD then 2
    else if g[3] == PAD then 3
    else 4
  }

  /** The number that characters make up, six bits each. */
  function Number(g: Word): nat {
    if g == [] then 0 else Shift6(Number(g[..|g| - 1]), Xlate(g[|g| - 1]))
  }

  /** The lowest n bytes of v, the highest first. */
  function BytesOf(v: nat, n: nat): (r: Word)
    ensures |r| == n
  {
    if n == 0 then [] else BytesOf(v / 256, n - 1) + [(v % 256) as Byte]
  }

  /** The bytes of a group whose characters before a pad are g. */
  function GroupBytes(g: Word): Word
    requires |g| <= 4
  {
    if |g| == 4 then BytesOf(Number(g), 3)
    else if |g| == 3 then BytesOf(Number(g) / 4, 2)
    else if |g| == 2 then BytesOf(Number(g) / 16, 1)
    else []
  }

  /** How far the reading moves on after a group.  A pad in the first or second
      place leaves it behind the count of characters left. */
  function Advance(n: nat): nat {
    if n >= 2 then 4 else n + 1
  }

  /** What the text from s on decodes to, with size characters left to take. */
  function DecodeFrom(t: Word, s: nat, size: nat): Word
    requires s + size <= |t|
    decreases size
  {
    if size == 0 then []
    else if Eol(t[s]) then DecodeFrom(t, s + 1, size - 1)
    else if size < 4 then []
    else
      var n := Filled(t[s..s + 4]);
      GroupBytes(t[s..s + n]) + DecodeFrom(t, s + Advance(n), size - 4)
  }

  function Decode(t: Word): Word {
    DecodeFrom(t, 0, |t|)
  }

  /** A pad in the first or second place of a group: the reading moves on by
      one or two characters, although four are counted off, and falls behind.
      Here the group at the end, which stands for ABC, is never read. */
  lemma PadFallsBehind()
    ensures Decode([PAD, PAD, PAD, PAD, 81, 85, 74, 68]) == []
    ensures Decode([81, PAD, PAD, PAD, 81, 85, 74, 68]) == []
    ensures Decode([81, 85, 74, 68]) == [65, 66, 67]
  {
    OnePadFallsBehind();
    var t: Word := [PAD, PAD, PAD, PAD, 81, 85, 74, 68];
    assert t[0..4] == [PAD, PAD, PAD, PAD] && Filled(t[0..4]) == 0;
    assert t[1..5] == [PAD, PAD, PAD, 81] && Filled(t[1..5]) == 0;
    assert DecodeFrom(t, 2, 0) == [];
    assert DecodeFrom(t, 1, 4) == [];
    var u: Word := [81, 85, 74, 68];
    assert Group([65, 66, 67]) == u;
    GroupDecodes([65, 66, 67]);
    assert u[0..4] == u && u[..4] == u;
    assert DecodeFrom(u, 4, 0) == [];
  }

  lemma OnePadFallsBehind()
    ensures Decode([81, PAD, PAD, PAD, 81, 85, 74, 68]) == []
  {
    var t: Word := [81, PAD, PAD, PAD, 81, 85, 74, 68];
    assert t[0..4] == [81, PAD, PAD, PAD] && Filled(t[0..4]) == 1;
    assert t[2..6] == [PAD, PAD, 81, 85] && Filled(t[2..6]) == 0;
    assert DecodeFrom(t, 3, 0) == [];
    assert DecodeFrom(t, 2, 4) == [];
  }

  // ----- the encoding -----

  function Char(n: nat): Byte
    requires n < 64
  {
    if n < 26 then (n + 65) as Byte
    else if n < 52 then (n + 71) as Byte
    else if n < 62 then (n - 4) as Byte
    else if n == 62 then 43
    else 47
  }

  lemma XlateChar(n: nat)
    requires n < 64
    ensures Xlate(Char(n)) == n && Char(n) != PAD && !Eol(Char(n)) && Acceptable(Char(n))
  {
  }

  /** The four characters of up to three bytes. */
  function Group(d: Word): (r: Word)
    requires 1 <= |d| <= 3
    ensures |r| == 4
  {
    var a := d[0] as nat;
    if |d| == 1 then [Char(a / 4), Char(a % 4 * 16), PAD, PAD]
    else
      var b := d[1] as nat;
      if |d| == 2 then [Char(a / 4), Char(a % 4 * 16 + b / 16), Char(b % 16 * 4), PAD]
      else
        var c := d[2] as nat;
        [Char(a / 4), Char(a % 4 * 16 + b / 16), Char(b % 16 * 4 + c / 64), Char(c % 64)]
  }

  function Min(a: nat, b: nat): nat { if a <= b then a else b }

  /** From s to n, t is an encoding of data, or several in a row, with line
      breaks wherever a group may begin or end. */
  predicate EncodesTo(data: Word, t: Word, s: nat, n: nat)
    requires s <= n <= |t|
    decreases n - s
  {
    if s == n then data == []
    else if Eol(t[s]) then EncodesTo(data, t, s + 1, n)
    else
      s + 4 <= n &&
      var k := Filled(t[s..s + 4]) - 1;   // as many bytes, in one more characters before the pads
      1 <= k <= |data| && t[s..s + 4] == Group(data[..k]) && EncodesTo(data[k..], t, s + 4, n)
  }

  predicate Encodes(data: Word, t: Word) {
    EncodesTo(data, t, 0, |t|)
  }

  lemma Number3(a: nat, b: nat, c: nat)
    requires a < 256 && b < 256 && c < 256
    ensures ((a / 4 * 64 + (a % 4 * 16 + b / 16)) * 64 + (b % 16 * 4 + c / 64)) * 64 + c % 64 == a * 65536 + b * 256 + c
  {
  }

  lemma Bytes3(v: nat, a: Byte, b: Byte, c: Byte)
    requires v == a as nat * 65536 + b as nat * 256 + c as nat
    ensures BytesOf(v, 3) == [a, b, c]
  {
    assert v / 256 == a as nat * 256 + b as nat && v % 256 == c as nat;
    assert v / 256 / 256 == a as nat && v / 256 % 256 == b as nat;
    assert BytesOf(v / 256 / 256, 1) == [a];
    assert BytesOf(v / 256, 2) == [a, b];
  }

  lemma Number2(x: nat, y: nat)
    requires x < 64 && y < 64
    ensures Number([Char(x), Char(y)]) == x * 64 + y
  {
    XlateChar(x);
    XlateChar(y);
    var g := [Char(x), Char(y)];
    assert g[..1] == [Char(x)] && g[..1][..0] == [];
    assert Number([Char(x)]) == x;
  }

  lemma NumberNext(g: Word, z: nat)
    requires z < 64
    ensures Number(g + [Char(z)]) == Number(g) * 64 + z
  {
    XlateChar(z);
    assert (g + [Char(z)])[..|g|] == g;
  }

  lemma GroupOne(d: Word)
    requires |d| == 1
    ensures Filled(Group(d)) == 2 && GroupBytes(Group(d)[..2]) == d
  {
    var a := d[0] as nat;
    XlateChar(a / 4);
    XlateChar(a % 4 * 16);
    Number2(a / 4, a % 4 * 16);
    assert Group(d)[..2] == [Char(a / 4), Char(a % 4 * 16)];
    assert (a / 4 * 64 + a % 4 * 16) / 16 == a;
    assert BytesOf(a, 1) == [d[0]];
  }

  lemma GroupTwo(d: Word)
    requires |d| == 2
    ensures Filled(Group(d)) == 3 && GroupBytes(Group(d)[..3]) == d
  {
    var a, b := d[0] as nat, d[1] as nat;
    var x, y, z := a / 4, a % 4 * 16 + b / 16, b % 16 * 4;
    XlateChar(x);
    XlateChar(y);
    XlateChar(z);
    Number2(x, y);
    NumberNext([Char(x), Char(y)], z);
    assert Group(d)[..3] == [Char(x), Char(y)] + [Char(z)];
    Bytes2(d[0], d[1]);
  }

  lemma Bytes2(c: Byte, d: Byte)
    ensures var a, b := c as nat, d as nat;
      BytesOf(((a / 4 * 64 + (a % 4 * 16 + b / 16)) * 64 + b % 16 * 4) / 4, 2) == [c, d]
  {
    var a, b := c as nat, d as nat;
    assert ((a / 4 * 64 + (a % 4 * 16 + b / 16)) * 64 + b % 16 * 4) / 4 == a * 256 + b;
    assert (a * 256 + b) / 256 == a && (a * 256 + b) % 256 == b;
    assert BytesOf(a, 1) == [c];
  }

  lemma GroupThree(d: Word)
    requires |d| == 3
    ensures Filled(Group(d)) == 4 && GroupBytes(Group(d)) == d
  {
    var a, b, c := d[0] as nat, d[1] as nat, d[2] as nat;
    var x, y, z, w := a / 4, a % 4 * 16 + b / 16, b % 16 * 4 + c / 64, c % 64;
    XlateChar(x);
    XlateChar(y);
    XlateChar(z);
    XlateChar(w);
    Number2(x, y);
    NumberNext([Char(x), Char(y)], z);
    NumberNext([Char(x), Char(y)] + [Char(z)], w);
    assert Group(d) == [Char(x), Char(y)] + [Char(z)] + [Char(w)];
    Number3(a, b, c);
    Bytes3(Number(Group(d)), d[0], d[1], d[2]);
  }

  lemma GroupDecodes(d: Word)
    requires 1 <= |d| <= 3
    ensures Filled(Group(d)) == |d| + 1 && GroupBytes(Group(d)[..|d| + 1]) == d && !Eol(Group(d)[0])
  {
    XlateChar(d[0] as nat / 4);
    if |d| == 1 {
      GroupOne(d);
    } else if |d| == 2 {
      GroupTwo(d);
    } else {
      GroupThree(d);
      assert Group(d)[..4] == Group(d);
    }
  }

  lemma GroupAcceptable(d: Word)
    requires 1 <= |d| <= 3
    ensures forall i | 0 <= i < 4 :: Acceptable(Group(d)[i])
  {
    assert forall n: nat | n < 64 :: Acceptable(Char(n));
  }

  lemma GroupDecoded(t: Word, s: nat, d: Word)
    requires s + 4 <= |t| && 1 <= |d| <= 3 && t[s..s + 4] == Group(d)
    ensures Filled(t[s..s + 4]) == |d| + 1 && GroupBytes(t[s..s + (|d| + 1)]) == d
  {
    GroupDecodes(d);
    assert t[s..s + (|d| + 1)] == t[s..s + 4][..|d| + 1];
  }

  lemma GroupFirst(t: Word, s: nat, d: Word)
    requires s + 4 <= |t| && 1 <= |d| <= 3 && t[s..s + 4] == Group(d) && !Eol(t[s])
    ensures DecodeFrom(t, s, |t| - s) == d + DecodeFrom(t, s + 4, |t| - (s + 4))
  {
    GroupDecoded(t, s, d);
  }

  /** Decoding one group before what has been decoded. */
  lemma GroupThen(t: Word, s: nat, data: Word, k: nat)
    requires s + 4 <= |t| && 1 <= k <= 3 && k <= |data| && t[s..s + 4] == Group(data[..k]) && !Eol(t[s])
    requires DecodeFrom(t, s + 4, |t| - (s + 4)) == data[k..]
    ensures DecodeFrom(t, s, |t| - s) == data
  {
    GroupFirst(t, s, data[..k]);
    Splits(data, k);
  }

  lemma Splits(data: Word, k: nat)
    requires k <= |data|
    ensures data[..k] + data[k..] == data
  {
  }

  /** What is too short for a group is left out. */
  lemma {:induction false} RestDropped(t: Word, s: nat)
    requires s <= |t| < s + 4
    ensures DecodeFrom(t, s, |t| - s) == []
    decreases |t| - s
  {
    if s < |t| && Eol(t[s]) { RestDropped(t, s + 1); }
  }

  /** Decoding inverts every encoding. */
  lemma {:induction false} DecodeInverts(data: Word, t: Word, s: nat, n: nat)
    requires s <= n <= |t| < n + 4 && EncodesTo(data, t, s, n)
    ensures DecodeFrom(t, s, |t| - s) == data
    decreases n - s
  {
    if s == n {
      RestDropped(t, s);
    } else if Eol(t[s]) {
      DecodeInverts(data, t, s + 1, n);
    } else {
      var k := Filled(t[s..s + 4]) - 1;
      DecodeInverts(data[k..], t, s + 4, n);
      GroupThen(t, s, data, k);
    }
  }

  /** An encoding passes the check. */
  lemma {:induction false} EncodingAcceptable(data: Word, t: Word, s: nat)
    requires s <= |t| && EncodesTo(data, t, s, |t|)
    ensures forall i | s <= i < |t| :: Acceptable(t[i])
    decreases |t| - s
  {
    if s == |t| {
    } else if Eol(t[s]) {
      EncodingAcceptable(data, t, s + 1);
    } else {
      var k := Filled(t[s..s + 4]) - 1;
      GroupAcceptable(data[..k]);
      EncodingAcceptable(data[k..], t, s + 4);
      forall i | s <= i < s + 4 ensures Acceptable(t[i]) { assert t[i] == t[s..s + 4][i - s]; }
    }
  }

  lemma {:induction false} EncodingSame(data: Word, t: Word, rest: Word, s: nat)
    requires s <= |t| && EncodesTo(data, t, s, |t|)
    ensures EncodesTo(data, t + rest, s, |t|)
    decreases |t| - s
  {
    if s == |t| {
    } else if Eol(t[s]) {
      EncodingSame(data, t, rest, s + 1);
    } else {
      assert (t + rest)[s..s + 4] == t[s..s + 4];
      EncodingSame(data[Filled(t[s..s + 4]) - 1..], t, rest, s + 4);
    }
  }

  /** An encoding decodes to its data, and a remainder too short for a group to nothing. */
  lemma DecodeOfEncoding(data: Word, t: Word, rest: Word)
    requires Encodes(data, t) && |rest| < 4
    ensures Decode(t + rest) == data && forall i | 0 <= i < |t| :: Acceptable(t[i])
  {
    EncodingSame(data, t, rest, 0);
    DecodeInverts(data, t + rest, 0, |t|);
    EncodingAcceptable(data, t, 0);
  }

  /** The encoding of section 6.8 of RFC 2045, on one line. */
  function Encode(data: Word): Word {
    if data == [] then [] else Group(data[..Min(3, |data|)]) + Encode(data[Min(3, |data|)..])
  }

  lemma {:induction false} EncodeEncodes(t: Word, before: Word, data: Word)
    requires t == before + Encode(data)
    ensures EncodesTo(data, t, |before|, |t|)
    decreases |data|
  {
    if data != [] {
      var k := Min(3, |data|);
      var g := Group(data[..k]);
      assert t == before + g + Encode(data[k..]) && t[|before|..|before| + 4] == g;
      EncodeEncodes(t, before + g, data[k..]);
      EncodesGroup(data, t, |before|, k);
    }
  }

  lemma EncodesGroup(data: Word, t: Word, s: nat, k: nat)
    requires s + 4 <= |t| && 1 <= k <= 3 && k <= |data| && t[s..s + 4] == Group(data[..k])
    requires EncodesTo(data[k..], t, s + 4, |t|)
    ensures EncodesTo(data, t, s, |t|)
  {
    GroupDecodes(data[..k]);
    assert t[s] == t[s..s + 4][0];
  }

  /** Every text has an encoding, and decoding gives it back. */
  lemma EncodeRoundTrip(data: Word)
    ensures Encodes(data, Encode(data)) && Decode(Encode(data)) == data
  {
    assert [] + Encode(data) == Encode(data) && Encode(data) + [] == Encode(data);
    EncodeEncodes(Encode(data), [], data);
    DecodeOfEncoding(data, Encode(data), []);
  }

  // ----- the decoder -----

  function Shifted(v: nat, shorten: nat): nat
    requires shorten <= 4
  {
    match shorten
    case 0 => v
    case 1 => v / 4
    case 2 => v / 16
    case 3 => v / 64
    case 4 => v / 256
  }

  /** The number of a group, and where the reading goes on (base64.c:35-55). */
  method ReadGroup(buf: array<Byte>, s0: nat) returns (v: nat, shorten: nat, s: nat)
    requires s0 + 4 <= buf.Length
    ensures var g := buf[s0..s0 + 4]; var n := Filled(g);
      shorten == 4 - n && s == s0 + Advance(n) && v == Shifted(Number(g[..n]), shorten)
  {
    ghost var g := buf[s0..s0 + 4];
    v, shorten, s := 0, 0, s0;
    var i := 0;
    while i < 4
      invariant 0 <= i <= 4 && s == s0 + i && v == Number(g[..i]) && shorten == 0
      invariant PAD !in g[..i]
    {
      var c := buf[s];
      s := s + 1;
      assert c == g[i];
      if Xlate(c) == INVALID {
        shorten := 4 - i;
        v := if shorten == 1 then v / 4 else if shorten == 2 then v / 16 else if shorten == 3 then v / 64 else v / 256;
        if shorten == 2 { s := s + 1; }
        FilledHere(g, i);
        return;
      }
      assert g[..i + 1][..i] == g[..i];
      v := Shift6(v, Xlate(c));
      i := i + 1;
    }
    assert g[..4] == g;
    assert g[0] in g[..4] && g[1] in g[..4] && g[2] in g[..4] && g[3] in g[..4];
  }

  lemma FilledHere(g: Word, i: nat)
    requires |g| == 4 && i < 4 && Xlate(g[i]) == INVALID && PAD !in g[..i]
    ensures Filled(g) == i
  {
    assert g[i] == PAD;
    assert forall k | 0 <= k < i :: g[k] in g[..i];
  }

  /** The lowest m bytes of v, written from the last to the first (base64.c:57-61). */
  method WriteBytes(buf: array<Byte>, d: nat, v0: nat, m: nat)
    requires d + m <= buf.Length
    modifies buf
    ensures buf[..] == old(buf[..d]) + BytesOf(v0, m) + old(buf[d + m..])
  {
    var v, i := v0, m;
    while i > 0
      invariant 0 <= i <= m && BytesOf(v0, m) == BytesOf(v, i) + buf[d + i..d + m]
      invariant buf[..d] == old(buf[..d]) && buf[d + m..] == old(buf[d + m..])
    {
      i := i - 1;
      buf[d + i] := (v % 256) as Byte;
      assert buf[d + i..d + m] == [(v % 256) as Byte] + buf[d + i + 1..d + m];
      v := v / 256;
    }
    assert buf[..] == buf[..d] + buf[d..d + m] + buf[d + m..];
  }

  lemma GroupWritten(g: Word, n: nat)
    requires |g| == 4 && n == Filled(g)
    ensures GroupBytes(g[..n]) == BytesOf(Shifted(Number(g[..n]), 4 - n), if n >= 1 then n - 1 else 0)
  {
    assert |g[..n]| == n;
  }

  /** One group, at s, decoded to d. */
  method DecodeGroup(buf: array<Byte>, s: nat, d: nat) returns (s': nat, d': nat)
    requires d <= s && s + 4 <= buf.Length
    modifies buf
    ensures var g := old(buf[s..s + 4]); var n := Filled(g);
      && s' == s + Advance(n) && d' == d + |GroupBytes(g[..n])| && d' < s'
      && buf[..] == old(buf[..d]) + GroupBytes(g[..n]) + old(buf[d'..])
  {
    var v, shorten;
    v, shorten, s' := ReadGroup(buf, s);
    GroupWritten(buf[s..s + 4], 4 - shorten);
    var m := if shorten <= 3 then 3 - shorten else 0;
    WriteBytes(buf, d, v, m);
    d' := d + m;
  }

  /** base64_validate */
  method Validate(buf: array<Byte>, leng: nat) returns (ok: bool)
    requires leng <= buf.Length
    ensures ok <==> forall i | 0 <= i < leng :: Acceptable(buf[i])
  {
    var i := 0;
    while i < leng
      invariant 0 <= i <= leng && forall k | 0 <= k < i :: Acceptable(buf[k])
    {
      var v := Xlate(buf[i]);
      if v == 0 && buf[i] != 65 && buf[i] != LF && buf[i] != CR { return false; }
      i := i + 1;
    }
    return true;
  }

  /** b written at d does not reach s, and comes behind what was written before. */
  lemma Spliced(buf: Word, d: nat, b: Word, s: nat, buf': Word)
    requires d + |b| <= s <= |buf| && buf' == buf[..d] + b + buf[d + |b|..]
    ensures |buf'| == |buf| && buf'[s..] == buf[s..] && buf'[..d + |b|] == buf[..d] + b
  {
  }

  lemma SameTail(t: Word, buf: Word, s: nat, s': nat)
    requires s <= s' <= |t| == |buf| && buf[s..] == t[s..]
    ensures buf[s'..] == t[s'..] && buf[s..s'] == t[s..s']
  {
    assert buf[s'..] == buf[s..][s' - s..] && t[s'..] == t[s..][s' - s..];
    assert buf[s..s'] == buf[s..][..s' - s] && t[s..s'] == t[s..][..s' - s];
  }

  lemma Regroup(a: Word, b: Word, c: Word)
    ensures (a + b) + c == a + (b + c)
  {
  }

  /** The state of the decoder: what is before d is done, what is from s on is untouched. */
  ghost predicate Decoding(t: Word, buf: Word, s: nat, d: nat, size: nat) {
    && d <= s && s + size <= |t| == |buf| && (t != [] ==> d < |t|)
    && buf[s..] == t[s..] && buf[..d] + DecodeFrom(t, s, size) == Decode(t)
  }

  /** The next group of the text is the one in the buffer. */
  lemma GroupRead(t: Word, buf: Word, s: nat, size: nat, g: Word, b: Word)
    requires s + size <= |t| == |buf| && size >= 4 && buf[s..] == t[s..] && !Eol(t[s])
    requires g == buf[s..s + 4] && b == GroupBytes(g[..Filled(g)])
    ensures DecodeFrom(t, s, size) == b + DecodeFrom(t, s + Advance(Filled(g)), size - 4)
  {
    SameTail(t, buf, s, s + 4);
    assert t[s..s + Filled(g)] == g[..Filled(g)];
  }

  lemma DecodingGroup(t: Word, buf: Word, s: nat, d: nat, size: nat, g: Word, b: Word, s': nat, buf': Word)
    requires Decoding(t, buf, s, d, size) && size >= 4 && !Eol(t[s])
    requires g == buf[s..s + 4] && b == GroupBytes(g[..Filled(g)]) && s' == s + Advance(Filled(g))
    requires d + |b| < s' && buf' == buf[..d] + b + buf[d + |b|..]
    ensures Decoding(t, buf', s', d + |b|, size - 4)
  {
    SameTail(t, buf, s, s');
    Spliced(buf, d, b, s', buf');
    GroupRead(t, buf, s, size, g, b);
    Regroup(buf[..d], b, DecodeFrom(t, s', size - 4));
  }

  /** The characters of the word are in buf[..leng]. */
  method SkipEols(buf: array<Byte>, s0: nat, size0: nat, ghost t: Word, ghost d: nat) returns (s: nat, size: nat)
    requires |t| <= buf.Length && Decoding(t, buf[..|t|], s0, d, size0)
    ensures Decoding(t, buf[..|t|], s, d, size) && size <= size0 && (size > 0 ==> !Eol(t[s]))
  {
    s, size := s0, size0;
    while size > 0 && (buf[s] == CR || buf[s] == LF)
      invariant Decoding(t, buf[..|t|], s, d, size) && size <= size0
    {
      assert buf[s] == buf[..|t|][s..][0] == t[s..][0];
      SameTail(t, buf[..|t|], s, s + 1);
      size, s := size - 1, s + 1;
    }
    if size > 0 { assert buf[s] == buf[..|t|][s..][0] == t[s..][0]; }
  }

  /** A change before place n, seen in the first n bytes alone. */
  lemma SplicedWithin(all: Word, n: nat, d: nat, b: Word, all': Word)
    requires d + |b| <= n <= |all| && all' == all[..d] + b + all[d + |b|..]
    ensures |all'| == |all| && all'[n..] == all[n..]
    ensures all'[..n] == all[..n][..d] + b + all[..n][d + |b|..]
  {
  }

  /** One group, within the word. */
  method NextGroup(buf: array<Byte>, ghost t: Word, s: nat, d: nat, size: nat) returns (s': nat, d': nat, size': nat)
    requires |t| <= buf.Length && Decoding(t, buf[..|t|], s, d, size) && size >= 4 && !Eol(t[s])
    modifies buf
    ensures Decoding(t, buf[..|t|], s', d', size') && size' < size
    ensures buf[|t|..] == old(buf[|t|..])
  {
    ghost var all, g := buf[..], buf[s..s + 4];
    ghost var b := GroupBytes(g[..Filled(g)]);
    s', d' := DecodeGroup(buf, s, d);
    size' := size - 4;
    SplicedWithin(all, |t|, d, b, buf[..]);
    assert buf[..][..|t|] == buf[..|t|] && all[..|t|][s..s + 4] == g;
    DecodingGroup(t, all[..|t|], s, d, size, g, b, s', buf[..|t|]);
  }

  lemma DecodingEnd(t: Word, buf: Word, s: nat, d: nat, size: nat)
    requires Decoding(t, buf, s, d, size) && (size == 0 || (size < 4 && !Eol(t[s])))
    ensures d <= |buf| && buf[..d] == Decode(t)
  {
  }

  /** The loop of base64_decode. */
  method DecodeAll(buf: array<Byte>, leng: nat) returns (d: nat)
    requires leng <= buf.Length
    modifies buf
    ensures d <= leng && buf[..d] == Decode(old(buf[..leng])) && (leng > 0 ==> d < leng)
    ensures buf[leng..] == old(buf[leng..])
  {
    ghost var t := buf[..leng];
    var size: nat, s: nat := leng, 0;
    d := 0;
    assert t[0..] == t && t[..0] == [];
    while size > 0
      invariant Decoding(t, buf[..leng], s, d, size) && buf[leng..] == old(buf[leng..])
      decreases size
    {
      s, size := SkipEols(buf, s, size, t, d);
      if size < 4 { break; }
      s, d, size := NextGroup(buf, t, s, d, size);
    }
    DecodingEnd(t, buf[..leng], s, d, size);
    assert buf[..leng][..d] == buf[..d];
  }

  /** base64_decode on the first leng bytes of buf.  Each byte is written
      before the place that is read next; a word that does not pass the check is
      left alone, and reported at its own length. */
  method Base64Decode(buf: array<Byte>, leng: nat) returns (count: nat)
    requires leng <= buf.Length
    modifies buf
    ensures var t := old(buf[..leng]);
      if forall i | 0 <= i < leng :: Acceptable(t[i])
      then
        && count == |Decode(t)| && count <= leng && buf[..count] == Decode(t)
        && (leng > 0 ==> count < leng && buf[count] == 0)
      else count == leng && buf[..leng] == t
    ensures buf[leng..] == old(buf[leng..])
  {
    var ok := Validate(buf, leng);
    if !ok { return leng; }
    count := DecodeAll(buf, leng);
    if leng > 0 { buf[count] := 0; }
  }
}
