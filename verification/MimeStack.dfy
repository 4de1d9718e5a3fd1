// The stack of MIME entities of mime.c, linked through parent and child.

module MimeStack {
  import opened Words
  import opened Options
  import opened MimeLines

  class Mime {
    var kind: Kind
    var boundary: Option<Word>
    var parent: Mime?
    var child: Mime?
    var depth: nat

    /** mime_init, but for the link from the parent. */
    constructor (parent: Mime?)
      ensures kind == Text && boundary == None && this.parent == parent && child == null
      ensures depth == if parent == null then 0 else parent.depth + 1
    {
      kind, boundary, this.parent, child := Text, None, parent, null;
      depth := if parent == null then 0 else parent.depth + 1;
    }
  }

  function Nth(s: seq<Mime>, i: int): Mime? {
    if 0 <= i < |s| then s[i] else null
  }

  /** The entities of s are linked in this order, know their depth, and stand
      for these parts; the child of the last one is left open. */
  ghost predicate Chained(s: seq<Mime>, parts: Parts)
    reads s
  {
    && |parts| == |s|
    && (forall i {:trigger s[i].depth} | 0 <= i < |s| :: s[i].depth == i)
    && (forall i {:trigger s[i].parent} | 0 <= i < |s| :: s[i].parent == Nth(s, i - 1))
    && (forall i {:trigger s[i].child} | 0 <= i < |s| - 1 :: s[i].child == s[i + 1])
    && (forall i {:trigger s[i].kind} {:trigger parts[i]} | 0 <= i < |s| :: parts[i] == Part(s[i].kind, s[i].boundary))
  }

  ghost predicate Ended(s: seq<Mime>)
    reads s
  {
    s != [] ==> s[|s| - 1].child == null
  }

  lemma LastDiffers(s: seq<Mime>, parts: Parts)
    requires Chained(s, parts) && s != []
    ensures forall i {:trigger s[i]} | 0 <= i < |s| - 1 :: s[i] != s[|s| - 1]
  {
    forall i | 0 <= i < |s| - 1 ensures s[i] != s[|s| - 1] {
      assert s[i].depth == i && s[|s| - 1].depth == |s| - 1;
    }
  }

  lemma ChainedPrefix(s: seq<Mime>, parts: Parts)
    requires Chained(s, parts) && s != []
    ensures Chained(s[..|s| - 1], parts[..|s| - 1])
    ensures s[|s| - 1] !in s[..|s| - 1]
  {
    LastDiffers(s, parts);
  }

  /** These are the entities of the chain. */
  ghost predicate Holds(live: set<Mime>, s: seq<Mime>) {
    (forall i {:trigger s[i]} | 0 <= i < |s| :: s[i] in live) && forall m | m in live :: m in s
  }

  lemma HoldsPrefix(live: set<Mime>, s: seq<Mime>)
    requires Holds(live, s) && s != [] && s[|s| - 1] !in s[..|s| - 1]
    ensures Holds(live - {s[|s| - 1]}, s[..|s| - 1])
  {
  }

  lemma HoldsPush(live: set<Mime>, s: seq<Mime>, m: Mime)
    requires Holds(live, s)
    ensures Holds(live + {m}, s + [m])
  {
  }

  class Stack {
    var msgState: Mime?
    var top: Mime?
    var bot: Mime?
    ghost var chain: seq<Mime>
    ghost var parts: Parts
    ghost var live: set<Mime>   // allocated and not yet freed

    /** The current entity is the last of the chain, and nothing else is allocated. */
    ghost predicate Valid()
      reads this, chain
    {
      && Chained(chain, parts) && Ended(chain) && Holds(live, chain)
      && top == Nth(chain, 0) && bot == msgState == Nth(chain, |chain| - 1)
    }

    /** What is on the stack, if it is in order. */
    ghost function Seen(): Option<Parts>
      reads this, chain
    {
      if Valid() then Some(parts) else None
    }

    constructor ()
      ensures Seen() == Some([]) && chain == [] && live == {}
    {
      msgState, top, bot, chain, parts, live := null, null, null, [], [], {};
    }

    /** The parent's link to a new child. */
    method LinkChild(m: Mime, parent: Mime?)
      requires Chained(chain, parts) && parent == Nth(chain, |chain| - 1) && m !in chain
      requires m.depth == |chain| && m.parent == parent && m.kind == Text && m.boundary == None && m.child == null
      modifies chain`child
      ensures Chained(chain + [m], parts + [FRESH]) && Ended(chain + [m])
    {
      if parent != null {
        LastDiffers(chain, parts);
        parent.child := m;
      }
    }

    /** The globals of a new entity. */
    method Enter(m: Mime, parent: Mime?)
      requires Chained(chain + [m], parts + [FRESH]) && Ended(chain + [m]) && Holds(live, chain)
      requires top == Nth(chain, 0) && parent == Nth(chain, |chain| - 1)
      modifies this
      ensures Valid() && chain == old(chain) + [m] && parts == old(parts) + [FRESH] && live == old(live) + {m}
    {
      HoldsPush(live, chain, m);
      ghost var s, ps := chain + [m], parts + [FRESH];
      chain, parts, live := s, ps, live + {m};
      if parent == null { top := m; }
      msgState, bot := m, m;
    }

    /** mime_push, onto the current entity or onto nothing. */
    method Push(parent: Mime?)
      requires Seen() == Some(parts) && parent == msgState
      modifies this, chain`child
      ensures Seen() == Some(parts) && parts == old(parts) + [FRESH]
      ensures chain == old(chain) + [msgState] && fresh(msgState)
      ensures live == old(live) + {msgState}
    {
      var m := new Mime(parent);
      LinkChild(m, parent);
      Enter(m, parent);
    }

    /** mime_free */
    method Free(t: Mime, ghost s: seq<Mime>, ghost ps: Parts)
      requires t in live && t !in s && Chained(s, ps)
      modifies `top, `bot, `live, t
      ensures bot == (if old(bot) == t then old(t.parent) else old(bot))
      ensures top == (if old(top) == t then old(t.child) else old(top))
      ensures live == old(live) - {t} && Chained(s, ps)
    {
      if bot == t { bot := t.parent; }
      if top == t { top := t.child; }
      t.boundary := None;
      t.parent := null;
      live := live - {t};
    }

    /** The rest of mime_pop: the parent is current now, and has no child. */
    method Leave(parent: Mime?, ghost s: seq<Mime>, ghost ps: Parts)
      requires Chained(s, ps) && Holds(live, s)
      requires top == Nth(s, 0) && bot == parent == Nth(s, |s| - 1)
      modifies `msgState, `chain, `parts, s`child
      ensures Valid() && chain == s && parts == ps
    {
      msgState := parent;
      if msgState != null {
        LastDiffers(s, ps);
        msgState.child := null;
      }
      chain, parts := s, ps;
    }

    /** mime_pop */
    method Pop()
      requires Seen() == Some(parts) && chain != []
      modifies this, chain
      ensures Seen() == Some(parts) && chain == old(chain[..|chain| - 1]) && parts == old(parts[..|chain| - 1])
      ensures live == old(live) - {old(msgState)}
    {
      ghost var n := |chain| - 1;
      ghost var s, ps := chain[..n], parts[..n];
      ChainedPrefix(chain, parts);
      HoldsPrefix(live, chain);
      var parent := msgState.parent;
      Free(msgState, s, ps);
      Leave(parent, s, ps);
    }

    /** The header fields of the current entity: media type and boundary. */
    method SetHeader(kind: Kind, boundary: Option<Word>)
      requires Seen() == Some(parts) && parts != []
      modifies `parts, msgState
      ensures Seen() == Some(parts) && parts == After(old(parts), Header(Part(kind, boundary)))
    {
      LastDiffers(chain, parts);
      msgState.kind, msgState.boundary := kind, boundary;
      parts := parts[..|parts| - 1] + [Part(kind, boundary)];
    }

    /** mime_add_child, as it is called. */
    method AddChild()
      requires Seen() == Some(parts)
      modifies this, chain`child
      ensures Seen() == Some(parts) && parts == old(parts) + [FRESH] && chain == old(chain) + [msgState]
    {
      Push(msgState);
    }

    /** The end of a header in get_token: inside a message another entity begins. */
    method EndHeader()
      requires Seen() == Some(parts) && parts != []
      modifies this, chain`child
      ensures Seen() == Some(parts) && parts == After(old(parts), EndOfHeader)
    {
      KindOfCurrent();
      if msgState.kind == Message { AddChild(); }
    }

    lemma KindOfCurrent()
      requires Seen() == Some(parts) && parts != []
      ensures msgState != null && msgState.kind == parts[|parts| - 1].kind
    {
      assert parts[|parts| - 1] == Part(chain[|chain| - 1].kind, chain[|chain| - 1].boundary);
    }

    /** The search of get_boundary_props for the entity that the line belongs to. */
    method FindBoundary(t: Word, n: nat) returns (m: Mime?)
      requires Seen() == Some(parts) && 2 <= n <= |t|
      ensures match Innermost(parts, t, n)
        case None => m == null
        case Some(k) => m == chain[k] && m.depth == k && m.boundary == parts[k].boundary
    {
      m := bot;
      ghost var k: nat := |chain|;
      assert parts[..k] == parts;
      while m != null
        invariant k <= |chain| && m == Nth(chain, k - 1) && Innermost(parts, t, n) == Innermost(parts[..k], t, n)
        decreases k
      {
        assert parts[k - 1] == Part(chain[k - 1].kind, chain[k - 1].boundary);
        assert parts[..k][..k - 1] == parts[..k - 1];
        if Matches(Part(m.kind, m.boundary), t, n) {
          assert m.depth == k - 1;
          return;
        }
        m := m.parent;
        k := k - 1;
      }
    }

    /** get_boundary_props */
    method GetBoundaryProps(t: Word) returns (b: Option<(nat, bool)>)
      requires Seen() == Some(parts)
      ensures b == Props(parts, t)
    {
      if !Dashes(t) { return None; }
      var blen := |t|;
      while blen > 2 && t[blen - 1] in {CR, LF}
        invariant 2 <= blen <= |t| && Stripped(t, |t|) == Stripped(t, blen)
      {
        blen := blen - 1;
      }
      var m := FindBoundary(t, blen);
      if m == null { return None; }
      return Some((m.depth, IsFinal(t, blen, |m.boundary.value|)));
    }

    /** got_mime_boundary: a line that is no boundary changes nothing; one that
        closes a container leaves it current; one that opens a part leaves the
        part current, inside the container. */
    method GotBoundary(t: Word) returns (got: bool)
      requires Seen() == Some(parts)
      modifies this, live
      ensures Seen() == Some(parts) && parts == AfterLine(old(parts), t)
      ensures match Props(old(parts), t)
        case None => !got && chain == old(chain)
        case Some((k, final)) => got && chain[..k + 1] == old(chain)[..k + 1] && (!final ==> fresh(msgState))
    {
      var b := GetBoundaryProps(t);
      if b == None { return false; }
      var (k, final) := b.value;
      PopTo(k);
      assert parts[k] == Part(chain[k].kind, chain[k].boundary);
      if final { return true; }
      var parent := ContainerHere(msgState);
      Push(parent);
      return true;
    }

    /** mime.c:391: the entity that the next part belongs to. */
    method ContainerHere(m: Mime) returns (parent: Mime?)
      ensures parent == if IsContainer(Part(m.kind, m.boundary)) then m else m.parent
    {
      parent := if m.kind == Message || m.kind == Multipart then m else m.parent;
    }

    /** The loop of got_mime_boundary. */
    method PopTo(k: nat)
      requires Seen() == Some(parts) && k < |parts|
      modifies this, live
      ensures Seen() == Some(parts) && parts == old(parts)[..k + 1] && chain == old(chain)[..k + 1]
      ensures live <= old(live)
    {
      while msgState.depth > k
        invariant Seen() == Some(parts) && k < |chain| <= |old(chain)|
        invariant parts == old(parts)[..|chain|] && chain == old(chain)[..|chain|] && live <= old(live)
        decreases |chain|
      {
        Pop();
      }
    }

    /** mime_cleanup: every entity is freed. */
    method Cleanup()
      requires Seen() == Some(parts)
      modifies this, live
      ensures Seen() == Some([]) && chain == [] && parts == [] && live == {}
    {
      if msgState == null { return; }
      while top.child != null
        invariant Seen() == Some(parts) && chain != [] && live <= old(live)
        decreases |chain|
      {
        Pop();
      }
      Pop();
      msgState, top, bot := null, null, null;
    }

    /** mime_reset */
    method Reset()
      requires Seen() == Some(parts)
      modifies this, live
      ensures Seen() == Some(parts) && parts == [FRESH] && live == {msgState} && fresh(msgState)
    {
      Cleanup();
      Push(null);
    }
  }
}
