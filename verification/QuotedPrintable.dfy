// The in-place decoder of qp.c, for quoted-printable bodies (section 6.7 of
// RFC 2045) and for the Q encoding of header words (section 4.2 of RFC 2047).

module QuotedPrintable {
  import opened Words

  datatype Mode = RFC2045 | RFC2047

  const CR: Byte := 13
  const LF: Byte := 10
  const EQUALS: Byte := 61
  const UNDERSCORE: Byte := 95
  const SPACE: Byte := 32

  /** hex_to_bin */
  function HexToBin(c: Byte): int {
    if 48 <= c <= 57 then c as int - 48
    else if 65 <= c <= 70 then c as int - 55
    else if 97 <= c <= 102 then c as int - 87
    else -1
  }

  /** qp_eol_check: the length of a line end at place s. */
  function EolAt(t: Word, s: nat): (c: nat)
    requires s <= |t|
    ensures s + c <= |t|
  {
    if s + 1 <= |t| && t[s] == LF then 1
    else if s + 2 <= |t| && t[s] == CR && t[s + 1] == LF then 2
    else 0
  }

  predicate HexAt(t: Word, s: nat) {
    s + 2 <= |t| && HexToBin(t[s]) >= 0 && HexToBin(t[s + 1]) >= 0
  }

  function ByteAt(t: Word, s: nat): Byte
    requires HexAt(t, s)
  {
    (HexToBin(t[s]) * 16 + HexToBin(t[s + 1])) as Byte
  }

  /** What the text from s on decodes to. */
  function DecodeFrom(t: Word, s: nat, mode: Mode): Word
    requires s <= |t|
    decreases |t| - s
  {
    if s == |t| then []
    else if t[s] == EQUALS then
      if mode == RFC2045 && EolAt(t, s + 1) != 0 then DecodeFrom(t, s + 1 + EolAt(t, s + 1), mode)
      else if HexAt(t, s + 1) then [ByteAt(t, s + 1)] + DecodeFrom(t, s + 3, mode)
      else [EQUALS] + DecodeFrom(t, s + 1, mode)
    else [if t[s] == UNDERSCORE && mode == RFC2047 then SPACE else t[s]] + DecodeFrom(t, s + 1, mode)
  }

  function Decode(t: Word, mode: Mode): Word {
    DecodeFrom(t, 0, mode)
  }

  // ----- the encodings -----

  /** What an encoder may write: a byte as itself, a byte in two hexadecimal
      digits of either case, a soft line break, or an underscore for a space. */
  datatype Token = Literal(b: Byte) | Hex(b: Byte, high: bool, low: bool) | SoftBreak(crlf: bool) | Underscore

  predicate Legal(tok: Token, mode: Mode) {
    match tok
    case Literal(b) => b != EQUALS && (mode == RFC2047 ==> b != UNDERSCORE)
    case Hex(_, _, _) => true
    case SoftBreak(_) => mode == RFC2045
    case Underscore => mode == RFC2047
  }

  function Digit(n: nat, upper: bool): Byte
    requires n < 16
  {
    if n < 10 then (n + 48) as Byte else if upper then (n + 55) as Byte else (n + 87) as Byte
  }

  function Written(tok: Token): Word {
    match tok
    case Literal(b) => [b]
    case Hex(b, high, low) => [EQUALS, Digit(b as nat / 16, high), Digit(b as nat % 16, low)]
    case SoftBreak(crlf) => if crlf then [EQUALS, CR, LF] else [EQUALS, LF]
    case Underscore => [UNDERSCORE]
  }

  function Meant(tok: Token): Word {
    match tok
    case Literal(b) => [b]
    case Hex(b, _, _) => [b]
    case SoftBreak(_) => []
    case Underscore => [SPACE]
  }

  function Text(toks: seq<Token>): Word {
    if toks == [] then [] else Written(toks[0]) + Text(toks[1..])
  }

  function Data(toks: seq<Token>): Word {
    if toks == [] then [] else Meant(toks[0]) + Data(toks[1..])
  }

  lemma DigitValue(n: nat, upper: bool)
    requires n < 16
    ensures HexToBin(Digit(n, upper)) == n && Digit(n, upper) !in {CR, LF}
  {
  }

  lemma TokenDecodes(t: Word, s: nat, tok: Token, mode: Mode)
    requires s + |Written(tok)| <= |t| && t[s..s + |Written(tok)|] == Written(tok) && Legal(tok, mode)
    ensures DecodeFrom(t, s, mode) == Meant(tok) + DecodeFrom(t, s + |Written(tok)|, mode)
  {
    var w := Written(tok);
    var u := t[s..s + |w|];
    assert t[s] == u[0];
    match tok
    case Literal(_) =>
    case Underscore =>
    case SoftBreak(crlf) =>
      assert t[s + 1] == u[1];
      if crlf { assert t[s + 2] == u[2]; }
    case Hex(b, high, low) =>
      assert t[s + 1] == u[1] && t[s + 2] == u[2];
      DigitValue(b as nat / 16, high);
      DigitValue(b as nat % 16, low);
      assert b as nat / 16 * 16 + b as nat % 16 == b as nat;
  }

  lemma CutAt(t: Word, s: nat, w: Word, rest: Word)
    requires s <= |t| && t[s..] == w + rest
    ensures s + |w| <= |t| && t[s..s + |w|] == w && t[s + |w|..] == rest
  {
    assert t[s..][..|w|] == w && t[s..][|w|..] == rest;
    assert t[s..s + |w|] == t[s..][..|w|] && t[s + |w|..] == t[s..][|w|..];
  }

  /** Decoding inverts every encoding, soft line breaks included. */
  lemma {:induction false} DecodeInverts(toks: seq<Token>, t: Word, s: nat, mode: Mode)
    requires s <= |t| && t[s..] == Text(toks) && forall i | 0 <= i < |toks| :: Legal(toks[i], mode)
    ensures DecodeFrom(t, s, mode) == Data(toks)
    decreases |toks|
  {
    if toks != [] {
      var w := Written(toks[0]);
      CutAt(t, s, w, Text(toks[1..]));
      TokenDecodes(t, s, toks[0], mode);
      DecodeInverts(toks[1..], t, s + |w|, mode);
    }
  }

  lemma DecodeOfText(toks: seq<Token>, mode: Mode)
    requires forall i | 0 <= i < |toks| :: Legal(toks[i], mode)
    ensures Decode(Text(toks), mode) == Data(toks)
  {
    assert Text(toks)[0..] == Text(toks);
    DecodeInverts(toks, Text(toks), 0, mode);
  }

  /** Nothing at place s stands for something else: an equals sign is followed
      neither by two hexadecimal digits nor (in a body) by a line end. */
  predicate Plain(t: Word, s: nat, mode: Mode)
    requires s < |t|
  {
    && (t[s] == EQUALS ==> !HexAt(t, s + 1) && (mode == RFC2045 ==> EolAt(t, s + 1) == 0))
    && (mode == RFC2047 ==> t[s] != UNDERSCORE)
  }

  /** Text without any of these is left as it is. */
  lemma {:induction false} PlainTextStays(t: Word, s: nat, mode: Mode)
    requires s <= |t| && forall k | s <= k < |t| :: Plain(t, k, mode)
    ensures DecodeFrom(t, s, mode) == t[s..]
    decreases |t| - s
  {
    if s < |t| {
      assert Plain(t, s, mode);
      PlainTextStays(t, s + 1, mode);
      assert t[s..] == [t[s]] + t[s + 1..];
    }
  }

  // ----- the decoder -----

  /** What is before d is done, what is from s on is untouched. */
  ghost predicate Decoding(t: Word, buf: Word, s: nat, d: nat, mode: Mode) {
    && d <= s <= |t| == |buf| && buf[s..] == t[s..] && buf[..d] + DecodeFrom(t, s, mode) == Decode(t, mode)
  }

  lemma SameTail(t: Word, buf: Word, s: nat, s': nat)
    requires s <= s' <= |t| == |buf| && buf[s..] == t[s..]
    ensures buf[s'..] == t[s'..] && forall i | s <= i < |t| :: buf[i] == t[i]
  {
    assert buf[s'..] == buf[s..][s' - s..] && t[s'..] == t[s..][s' - s..];
    forall i | s <= i < |t| ensures buf[i] == t[i] { assert buf[i] == buf[s..][i - s] && t[i] == t[s..][i - s]; }
  }

  /** One byte decoded: the reading goes on at s', the writing after d. */
  lemma DecodingByte(t: Word, buf: Word, s: nat, d: nat, mode: Mode, s': nat, c: Byte)
    requires Decoding(t, buf, s, d, mode) && s < s' <= |t|
    requires DecodeFrom(t, s, mode) == [c] + DecodeFrom(t, s', mode)
    ensures Decoding(t, buf[d := c], s', d + 1, mode)
  {
    SameTail(t, buf, s, s');
    assert buf[d := c][s'..] == buf[s'..];
    assert buf[d := c][..d + 1] == buf[..d] + [c];
    assert (buf[..d] + [c]) + DecodeFrom(t, s', mode) == buf[..d] + ([c] + DecodeFrom(t, s', mode));
  }

  lemma DecodingBreak(t: Word, buf: Word, s: nat, d: nat, mode: Mode, s': nat)
    requires Decoding(t, buf, s, d, mode) && s < s' <= |t| && DecodeFrom(t, s, mode) == DecodeFrom(t, s', mode)
    ensures Decoding(t, buf, s', d, mode)
  {
    SameTail(t, buf, s, s');
  }

  /** qp_eol_check on the bytes of buf before e. */
  method EolCheck(buf: array<Byte>, s: nat, e: nat, ghost t: Word) returns (c: nat)
    requires s <= e == |t| <= buf.Length && forall i | s <= i < e :: buf[i] == t[i]
    ensures c == EolAt(t, s)
  {
    if s + 1 <= e {
      if buf[s] == LF { return 1; }
      if buf[s] == CR && s + 2 <= e && buf[s + 1] == LF { return 2; }
    }
    return 0;
  }

  /** The body of the loop up to the end of the switch: the byte to be written,
      if any, and where the reading goes on. */
  method NextByte(buf: array<Byte>, s0: nat, e: nat, mode: Mode, ghost t: Word) returns (s: nat, ch: Byte, write: bool)
    requires s0 < e == |t| <= buf.Length && forall i | s0 <= i < e :: buf[i] == t[i]
    ensures s0 < s <= e && DecodeFrom(t, s0, mode) == (if write then [ch] else []) + DecodeFrom(t, s, mode)
  {
    ch, s, write := buf[s0], s0 + 1, true;
    if ch == EQUALS {
      if mode == RFC2045 {
        var c := EolCheck(buf, s, e, t);
        if c != 0 {
          s, write := s + c, false;
          return;
        }
      }
      if s + 2 <= e && HexToBin(buf[s]) >= 0 && HexToBin(buf[s + 1]) >= 0 {
        ch := (HexToBin(buf[s]) * 16 + HexToBin(buf[s + 1])) as Byte;
        s := s + 2;
      }
    } else if ch == UNDERSCORE {
      if mode == RFC2047 { ch := SPACE; }
    }
  }

  /** qp_decode on the first leng bytes of buf.  Each byte is written before
      the place that is read next. */
  method QpDecode(buf: array<Byte>, leng: nat, mode: Mode) returns (count: nat)
    requires leng <= buf.Length
    modifies buf
    ensures count <= leng && buf[..count] == Decode(old(buf[..leng]), mode)
    ensures buf[leng..] == old(buf[leng..])
  {
    ghost var t := buf[..leng];
    var s: nat, d: nat := 0, 0;
    assert t[0..] == t && t[..0] == [];
    while s < leng
      invariant Decoding(t, buf[..leng], s, d, mode) && buf[leng..] == old(buf[leng..])
    {
      s, d := Step(buf, leng, mode, t, s, d);
    }
    count := d;
    assert buf[..leng][..d] == buf[..d];
  }

  /** One round of the loop: what it writes lies before the place that is read next. */
  method Step(buf: array<Byte>, e: nat, mode: Mode, ghost t: Word, s0: nat, d0: nat) returns (s: nat, d: nat)
    requires s0 < e == |t| <= buf.Length && Decoding(t, buf[..e], s0, d0, mode)
    modifies buf
    ensures s0 < s && Decoding(t, buf[..e], s, d, mode) && buf[e..] == old(buf[e..])
    ensures d0 <= d <= s && buf[..d0] == old(buf[..d0]) && buf[d..] == old(buf[d..])
  {
    SameTail(t, buf[..e], s0, s0);
    forall i | s0 <= i < e ensures buf[i] == t[i] { assert buf[..e][i] == t[i]; }
    var ch, write;
    s, ch, write := NextByte(buf, s0, e, mode, t);
    d := d0;
    if write {
      DecodingByte(t, buf[..e], s0, d, mode, s, ch);
      ghost var was := buf[..e];
      buf[d] := ch;
      assert buf[..e] == was[d := ch];
      d := d + 1;
    } else {
      DecodingBreak(t, buf[..e], s0, d, mode, s);
    }
  }
}
