// Boundary lines of MIME messages (mime.c): which container of the stack a
// line belongs to, and what it leaves of the stack.

module MimeLines {
  import opened Words
  import opened Options

  const DASH: Byte := 45
  const CR: Byte := 13
  const LF: Byte := 10

  datatype Kind = Text | Multipart | Message | Other

  /** A MIME entity on the stack: its media type, and its boundary once that is set. */
  datatype Part = Part(kind: Kind, boundary: Option<Word>)

  /** The stack from the outermost entity to the current one. */
  type Parts = seq<Part>

  const FRESH := Part(Text, None)

  predicate IsContainer(p: Part) {
    p.kind == Message || p.kind == Multipart
  }

  /** The length of a line without its end-of-line characters, but at least 2. */
  function Stripped(t: Word, n: nat): (r: nat)
    requires n <= |t|
    ensures r <= n
  {
    if n > 2 && t[n - 1] in {CR, LF} then Stripped(t, n - 1) else n
  }

  predicate Dashes(t: Word) {
    |t| > 2 && t[0] == DASH && t[1] == DASH
  }

  /** The first n bytes of the line are the boundary of p after two dashes,
      with nothing or two more bytes behind it. */
  predicate Matches(p: Part, t: Word, n: nat)
    requires 2 <= n <= |t|
  {
    && IsContainer(p) && p.boundary.Some?
    && (|p.boundary.value| + 2 == n || |p.boundary.value| + 4 == n)
    && t[2..2 + |p.boundary.value|] == p.boundary.value
  }

  /** A line is followed by a byte that is no dash. */
  function At(t: Word, k: nat): Byte {
    if k < |t| then t[k] else 0
  }

  /** is_final_boundary */
  predicate IsFinal(t: Word, n: nat, blen: nat)
    requires 2 <= n <= |t|
  {
    n >= 5 && n >= blen + 2 && t[0] == DASH && t[1] == DASH && At(t, blen + 2) == DASH && At(t, blen + 3) == DASH
  }

  lemma FinalMeaning(p: Part, t: Word)
    requires Dashes(t) && Matches(p, t, StrippedLine(t))
    ensures var n := StrippedLine(t);
      IsFinal(t, n, |p.boundary.value|) <==>
        n == |p.boundary.value| + 4 && n >= 5 && t[n - 2] == DASH && t[n - 1] == DASH
  {
    StrippedEnd(t, |t|);
  }

  function StrippedLine(t: Word): (r: nat)
    requires Dashes(t)
    ensures 2 <= r <= |t|
  {
    StrippedTwo(t, |t|);
    Stripped(t, |t|)
  }

  lemma {:induction false} StrippedTwo(t: Word, n: nat)
    requires 2 <= n <= |t|
    ensures 2 <= Stripped(t, n)
  {
    if n > 2 && t[n - 1] in {CR, LF} { StrippedTwo(t, n - 1); }
  }

  lemma {:induction false} StrippedEnd(t: Word, n: nat)
    requires 2 <= n <= |t|
    ensures var r := Stripped(t, n); r == n || t[r] in {CR, LF}
  {
    if n > 2 && t[n - 1] in {CR, LF} { StrippedEnd(t, n - 1); }
  }

  /** The innermost entity of the stack that the line is a boundary of. */
  function Innermost(s: Parts, t: Word, n: nat): (r: Option<nat>)
    requires 2 <= n <= |t|
    ensures r.Some? ==> r.value < |s| && Matches(s[r.value], t, n)
  {
    if s == [] then None
    else if Matches(s[|s| - 1], t, n) then Some(|s| - 1)
    else Innermost(s[..|s| - 1], t, n)
  }

  lemma {:induction false} InnermostMeaning(s: Parts, t: Word, n: nat)
    requires 2 <= n <= |t|
    ensures var r := Innermost(s, t, n);
      if r.None? then forall i | 0 <= i < |s| :: !Matches(s[i], t, n)
      else forall i | r.value < i < |s| :: !Matches(s[i], t, n)
  {
    if s != [] && !Matches(s[|s| - 1], t, n) { InnermostMeaning(s[..|s| - 1], t, n); }
  }

  /** boundary_t: the depth of the container, and whether the line closes it. */
  function Props(s: Parts, t: Word): (r: Option<(nat, bool)>)
    ensures r.Some? ==> r.value.0 < |s|
  {
    if !Dashes(t) then None
    else
      var n := StrippedLine(t);
      match Innermost(s, t, n)
      case None => None
      case Some(k) => Some((k, IsFinal(t, n, |s[k].boundary.value|)))
  }

  /** The stack after a line: what lies inside the container is gone, and a
      line that does not close it begins a new part in it. */
  function AfterLine(s: Parts, t: Word): Parts {
    match Props(s, t)
    case None => s
    case Some((k, final)) => s[..k + 1] + if final then [] else [FRESH]
  }

  // ----- nested messages -----

  /** A message as section 5.1 of RFC 2046 nests it: a part without parts, a
      message in a message, or a container (a multipart, or a message that has
      a boundary) and its parts, whose closing line may be missing.  A part that
      is no container may have a boundary parameter all the same. */
  datatype Entity =
    | Leaf(part: Part)
    | Embedded(body: Entity)
    | Multi(message: bool, boundary: Word, parts: Entities, closed: bool)
  datatype Entities = Nil | Cons(head: Entity, tail: Entities)

  /** What the scanner meets: a header that sets type and boundary of the
      current part, the end of the header, or a line. */
  datatype Event = Header(part: Part) | EndOfHeader | Line(text: Word)

  /** The header of a message is followed by another header. */
  function After(s: Parts, e: Event): Parts
    requires s != []
    ensures After(s, e) != []
  {
    match e
    case Header(p) => s[..|s| - 1] + [p]
    case EndOfHeader => if s[|s| - 1].kind == Message then s + [FRESH] else s
    case Line(t) => AfterLine(s, t)
  }

  function Run(s: Parts, es: seq<Event>): (r: Parts)
    requires s != []
    ensures r != []
    decreases es
  {
    if es == [] then s else Run(After(s, es[0]), es[1..])
  }

  lemma {:induction false} RunTwo(s: Parts, a: seq<Event>, b: seq<Event>)
    requires s != []
    ensures Run(s, a + b) == Run(Run(s, a), b)
    decreases |a|
  {
    if a == [] {
      assert a + b == b;
    } else {
      assert (a + b)[1..] == a[1..] + b;
      RunTwo(After(s, a[0]), a[1..], b);
    }
  }

  /** The line that opens a part, and the one that closes the multipart. */
  function Open(b: Word, eol: Word): Word { [DASH, DASH] + b + eol }
  function Close(b: Word, eol: Word): Word { [DASH, DASH] + b + [DASH, DASH] + eol }

  /** The events of a message. */
  function Emit(e: Entity, eol: Word): seq<Event>
    decreases e, 1
  {
    [Header(PartOf(e)), EndOfHeader] +
    match e
    case Leaf(_) => []
    case Embedded(body) => Emit(body, eol)
    case Multi(_, b, ps, closed) => EmitParts(b, ps, eol) + if closed then [Line(Close(b, eol))] else []
  }

  function EmitParts(b: Word, ps: Entities, eol: Word): seq<Event>
    decreases ps, 0
  {
    match ps
    case Nil => []
    case Cons(p, rest) => [Line(Open(b, eol))] + Emit(p, eol) + EmitParts(b, rest, eol)
  }

  function PartOf(e: Entity): Part {
    match e
    case Leaf(p) => p
    case Embedded(_) => Part(Message, None)
    case Multi(message, b, _, _) => Container(message, b)
  }

  function Container(message: bool, b: Word): Part {
    Part(if message then Message else Multipart, Some(b))
  }

  /** No line of a multipart with boundary b is mistaken for one of a part in it with boundary c. */
  predicate Apart(b: Word, c: Word) {
    c != b && c != b + [DASH, DASH] && !(|b| == |c| + 2 && b[..|c|] == c)
  }

  /** The boundaries of the containers in a message, and in its parts. */
  function Boundaries(e: Entity): set<Word>
    decreases e, 1
  {
    match e
    case Leaf(_) => {}
    case Embedded(body) => Boundaries(body)
    case Multi(_, b, ps, _) => {b} + BoundariesOf(ps)
  }

  function BoundariesOf(ps: Entities): set<Word>
    decreases ps, 0
  {
    match ps
    case Nil => {}
    case Cons(p, rest) => Boundaries(p) + BoundariesOf(rest)
  }

  /** Boundaries are not empty, do not end like a line, and can be told from those of the parts inside. */
  predicate Proper(e: Entity)
    decreases e
  {
    match e
    case Leaf(p) => p.kind != Message && (p.boundary.Some? ==> p.kind != Multipart)
    case Embedded(body) => Proper(body)
    case Multi(_, b, ps, _) =>
      && b != [] && b[|b| - 1] !in {CR, LF} && ProperParts(ps)
      && forall c | c in BoundariesOf(ps) :: Apart(b, c)
  }

  predicate ProperParts(ps: Entities)
    decreases ps
  {
    match ps
    case Nil => true
    case Cons(p, rest) => Proper(p) && ProperParts(rest)
  }

  predicate IsEol(eol: Word) {
    forall i | 0 <= i < |eol| :: eol[i] in {CR, LF}
  }

  lemma {:induction false} StripsEol(t: Word, eol: Word)
    requires |t| > 2 && t[|t| - 1] !in {CR, LF} && IsEol(eol)
    ensures Stripped(t + eol, |t + eol|) == |t|
    decreases |eol|
  {
    StripsTo(t + eol, |t|, |t + eol|);
  }

  lemma {:induction false} StripsTo(t: Word, m: nat, n: nat)
    requires 2 < m <= n <= |t| && t[m - 1] !in {CR, LF} && forall i | m <= i < n :: t[i] in {CR, LF}
    ensures Stripped(t, n) == m
    decreases n
  {
    if n > m { StripsTo(t, m, n - 1); }
  }

  /** The two lines of a multipart, stripped. */
  lemma LinesStripped(b: Word, eol: Word)
    requires b != [] && b[|b| - 1] !in {CR, LF} && IsEol(eol)
    ensures Dashes(Open(b, eol)) && StrippedLine(Open(b, eol)) == |b| + 2
    ensures Dashes(Close(b, eol)) && StrippedLine(Close(b, eol)) == |b| + 4
  {
    StripsEol([DASH, DASH] + b, eol);
    StripsEol([DASH, DASH] + b + [DASH, DASH], eol);
  }

  lemma OwnLines(message: bool, b: Word, eol: Word)
    requires b != [] && b[|b| - 1] !in {CR, LF} && IsEol(eol)
    ensures var p, t, u := Container(message, b), Open(b, eol), Close(b, eol);
      && Matches(p, t, |b| + 2) && !IsFinal(t, |b| + 2, |b|)
      && Matches(p, u, |b| + 4) && IsFinal(u, |b| + 4, |b|)
  {
    var t, u := Open(b, eol), Close(b, eol);
    assert t[2..2 + |b|] == b && u[2..2 + |b|] == b;
    if |eol| > 0 { assert t[|b| + 2] == eol[0]; }
  }

  /** The lines of a container match one with boundary c exactly when the two are not apart. */
  lemma ApartMeaning(b: Word, message: bool, c: Word, eol: Word)
    requires IsEol(eol)
    ensures var p := Container(message, c);
      Apart(b, c) <==> !Matches(p, Open(b, eol), |b| + 2) && !Matches(p, Close(b, eol), |b| + 4)
  {
    var t, u := Open(b, eol), Close(b, eol);
    if |c| <= |b| {
      assert t[2..2 + |c|] == b[..|c|] && u[2..2 + |c|] == b[..|c|];
      assert |c| == |b| ==> b[..|c|] == b;
    } else if |c| == |b| + 2 {
      assert u[2..2 + |c|] == b + [DASH, DASH];
    }
  }

  lemma {:induction false} InnermostBelow(s: Parts, last: Parts, t: Word, n: nat)
    requires 2 <= n <= |t| && forall i | 0 <= i < |last| :: !Matches(last[i], t, n)
    ensures Innermost(s + last, t, n) == Innermost(s, t, n)
    decreases |last|
  {
    if last == [] {
      assert s + last == s;
    } else {
      assert (s + last)[..|s + last| - 1] == s + last[..|last| - 1];
      InnermostBelow(s, last[..|last| - 1], t, n);
    }
  }

  /** A line of the container at place |base|, whatever has been left open above it. */
  lemma LineAt(base: Parts, m: Part, last: Parts, t: Word, final: bool)
    requires Dashes(t) && Matches(m, t, StrippedLine(t))
    requires forall i | 0 <= i < |last| :: !Matches(last[i], t, StrippedLine(t))
    requires final == IsFinal(t, StrippedLine(t), |m.boundary.value|)
    ensures AfterLine(base + [m] + last, t) == base + [m] + if final then [] else [FRESH]
  {
    InnermostBelow(base + [m], last, t, StrippedLine(t));
    assert Innermost(base + [m], t, StrippedLine(t)) == Some(|base|);
    assert (base + [m] + last)[..|base| + 1] == base + [m];
  }

  predicate HasBoundary(p: Part) {
    p.boundary.Some? && IsContainer(p)
  }

  /** No boundary of these parts is mistaken for b. */
  ghost predicate Quiet(b: Word, last: Parts) {
    forall i | 0 <= i < |last| && HasBoundary(last[i]) :: Apart(b, last[i].boundary.value)
  }

  lemma QuietMatches(b: Word, p: Part, eol: Word)
    requires (HasBoundary(p) ==> Apart(b, p.boundary.value)) && IsEol(eol)
    ensures !Matches(p, Open(b, eol), |b| + 2) && !Matches(p, Close(b, eol), |b| + 4)
  {
    if IsContainer(p) && p.boundary.Some? {
      ApartMeaning(b, p.kind == Message, p.boundary.value, eol);
      assert p == Container(p.kind == Message, p.boundary.value);
    }
  }

  lemma OpenLine(base: Parts, message: bool, b: Word, last: Parts, eol: Word)
    requires b != [] && b[|b| - 1] !in {CR, LF} && IsEol(eol) && Quiet(b, last)
    ensures AfterLine(base + [Container(message, b)] + last, Open(b, eol)) == base + [Container(message, b)] + [FRESH]
  {
    LinesStripped(b, eol);
    OwnLines(message, b, eol);
    forall i | 0 <= i < |last| ensures !Matches(last[i], Open(b, eol), |b| + 2) { QuietMatches(b, last[i], eol); }
    LineAt(base, Container(message, b), last, Open(b, eol), false);
  }

  lemma CloseLine(base: Parts, message: bool, b: Word, last: Parts, eol: Word)
    requires b != [] && b[|b| - 1] !in {CR, LF} && IsEol(eol) && Quiet(b, last)
    ensures AfterLine(base + [Container(message, b)] + last, Close(b, eol)) == base + [Container(message, b)]
  {
    LinesStripped(b, eol);
    OwnLines(message, b, eol);
    forall i | 0 <= i < |last| ensures !Matches(last[i], Close(b, eol), |b| + 4) { QuietMatches(b, last[i], eol); }
    LineAt(base, Container(message, b), last, Close(b, eol), true);
    assert base + [Container(message, b)] + [] == base + [Container(message, b)];
  }

  /** The boundaries on the stack are among these. */
  ghost predicate From(last: Parts, bs: set<Word>) {
    forall i | 0 <= i < |last| && HasBoundary(last[i]) :: last[i].boundary.value in bs
  }

  /** What a message leaves open above itself: the message in it, or, if its
      closing line is missing, its last part. */
  function Left(e: Entity): Parts
    decreases e, 1
  {
    match e
    case Leaf(_) => []
    case Embedded(body) => [PartOf(body)] + Left(body)
    case Multi(message, _, ps, closed) => if closed then [] else LeftParts(ps, Below(message))
  }

  /** What the header of a container opens. */
  function Below(message: bool): Parts { if message then [FRESH] else [] }

  function LeftParts(ps: Entities, open: Parts): Parts
    decreases ps, 0
  {
    match ps
    case Nil => open
    case Cons(p, rest) => LeftParts(rest, [PartOf(p)] + Left(p))
  }

  lemma {:induction false} LeftFrom(e: Entity)
    requires Proper(e)
    ensures From(Left(e), Boundaries(e)) && From([PartOf(e)] + Left(e), Boundaries(e))
    decreases e, 1
  {
    match e
    case Leaf(_) =>
    case Embedded(body) => LeftFrom(body);
    case Multi(message, _, ps, _) => LeftPartsFrom(ps, Below(message));
  }

  lemma {:induction false} LeftPartsFrom(ps: Entities, open: Parts)
    requires ProperParts(ps) && From(open, {})
    ensures From(LeftParts(ps, open), BoundariesOf(ps))
    decreases ps, 0
  {
    match ps
    case Nil =>
    case Cons(p, rest) =>
      LeftFrom(p);
      LeftPartsBoth(rest, [PartOf(p)] + Left(p), Boundaries(p));
  }

  lemma {:induction false} LeftPartsBoth(ps: Entities, open: Parts, bs: set<Word>)
    requires ProperParts(ps) && From(open, bs)
    ensures From(LeftParts(ps, open), bs + BoundariesOf(ps))
    decreases ps, 0
  {
    match ps
    case Nil =>
    case Cons(p, rest) =>
      LeftFrom(p);
      LeftPartsBoth(rest, [PartOf(p)] + Left(p), Boundaries(p));
  }

  /** Reading a nested message, whatever is on the stack around it, ends with
      the message itself in place of the current entity, above it what it has
      left open, and nothing else changed. */
  lemma {:induction false} NestedMessage(base: Parts, top: Part, e: Entity, eol: Word)
    requires Proper(e) && IsEol(eol)
    ensures Run(base + [top], Emit(e, eol)) == base + [PartOf(e)] + Left(e)
    decreases e, 1
  {
    var s, h := base + [top], [Header(PartOf(e)), EndOfHeader];
    HeaderRead(base, top, PartOf(e));
    match e
    case Leaf(_) =>
      assert Emit(e, eol) == h;
      assert base + [PartOf(e)] + [] == base + [PartOf(e)];
    case Embedded(body) =>
      NestedMessage(base + [PartOf(e)], FRESH, body, eol);
      RunTwo(s, h, Emit(body, eol));
      assert base + [PartOf(e)] + [PartOf(body)] + Left(body) == base + [PartOf(e)] + Left(e);
    case Multi(message, b, ps, closed) =>
      NestedParts(base, message, b, ps, Below(message), eol);
      RunTwo(s, h, EmitParts(b, ps, eol));
      Closing(base, s, e, eol);
  }

  /** The header of the current entity, and its end. */
  lemma HeaderRead(base: Parts, top: Part, p: Part)
    ensures Run(base + [top], [Header(p), EndOfHeader]) == base + [p] + Below(p.kind == Message)
  {
    var s := base + [top];
    assert s[..|s| - 1] == base;
    RunOne(s, Header(p));
    RunOne(base + [p], EndOfHeader);
    RunTwo(s, [Header(p)], [EndOfHeader]);
    assert [Header(p)] + [EndOfHeader] == [Header(p), EndOfHeader];
    assert base + [p] + [] == base + [p];
  }

  /** The closing line of a container, or the lack of it. */
  lemma Closing(base: Parts, s: Parts, e: Entity, eol: Word)
    requires e.Multi? && Proper(e) && IsEol(eol) && s != []
    requires var open := LeftParts(e.parts, Below(e.message));
      Run(s, [Header(PartOf(e)), EndOfHeader] + EmitParts(e.boundary, e.parts, eol)) == base + [PartOf(e)] + open
    ensures Run(s, Emit(e, eol)) == base + [PartOf(e)] + Left(e)
  {
    var b, open := e.boundary, LeftParts(e.parts, Below(e.message));
    var done := [Header(PartOf(e)), EndOfHeader] + EmitParts(b, e.parts, eol);
    if e.closed {
      LeftPartsFrom(e.parts, Below(e.message));
      FromQuiet(b, open, BoundariesOf(e.parts));
      CloseLine(base, e.message, b, open, eol);
      RunOne(base + [PartOf(e)] + open, Line(Close(b, eol)));
      RunTwo(s, done, [Line(Close(b, eol))]);
      assert Emit(e, eol) == done + [Line(Close(b, eol))];
      assert base + [PartOf(e)] + [] == base + [PartOf(e)];
    } else {
      assert Emit(e, eol) == done;
    }
  }

  lemma RunOne(s: Parts, e: Event)
    requires s != []
    ensures Run(s, [e]) == After(s, e)
  {
    assert Run(After(s, e), [e][1..]) == After(s, e);
  }

  /** Reading the parts of a container leaves only what the last of them is,
      and has left open. */
  lemma {:induction false} NestedParts(base: Parts, message: bool, b: Word, ps: Entities, open: Parts, eol: Word)
    requires b != [] && b[|b| - 1] !in {CR, LF} && IsEol(eol) && ProperParts(ps) && Quiet(b, open)
    requires forall c | c in BoundariesOf(ps) :: Apart(b, c)
    ensures Run(base + [Container(message, b)] + open, EmitParts(b, ps, eol))
      == base + [Container(message, b)] + LeftParts(ps, open)
    decreases ps, 0
  {
    match ps
    case Nil =>
    case Cons(p, rest) =>
      NestedPart(base, message, b, p, open, eol);
      LeftFrom(p);
      FromQuiet(b, [PartOf(p)] + Left(p), Boundaries(p));
      NestedParts(base, message, b, rest, [PartOf(p)] + Left(p), eol);
      RunTwo(base + [Container(message, b)] + open, [Line(Open(b, eol))] + Emit(p, eol), EmitParts(b, rest, eol));
  }

  /** One of the parts, and the line that opens it. */
  lemma {:induction false} NestedPart(base: Parts, message: bool, b: Word, p: Entity, open: Parts, eol: Word)
    requires b != [] && b[|b| - 1] !in {CR, LF} && IsEol(eol) && Proper(p) && Quiet(b, open)
    ensures Run(base + [Container(message, b)] + open, [Line(Open(b, eol))] + Emit(p, eol))
      == base + [Container(message, b)] + ([PartOf(p)] + Left(p))
    decreases p, 2
  {
    var here := base + [Container(message, b)];
    OpenLine(base, message, b, open, eol);
    RunOne(here + open, Line(Open(b, eol)));
    NestedMessage(here, FRESH, p, eol);
    assert here + [PartOf(p)] + Left(p) == here + ([PartOf(p)] + Left(p));
    RunTwo(here + open, [Line(Open(b, eol))], Emit(p, eol));
  }

  lemma FromQuiet(b: Word, last: Parts, bs: set<Word>)
    requires From(last, bs) && forall c | c in bs :: Apart(b, c)
    ensures Quiet(b, last)
  {
    forall i | 0 <= i < |last| && HasBoundary(last[i]) ensures Apart(b, last[i].boundary.value) {
      assert last[i].boundary.value in bs;
    }
  }
}
