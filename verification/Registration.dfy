// What one registration of a message does to a word list (register.c), and
// when unregistering the message undoes it.

module Registration {
  import opened Words
  import opened Options
  import opened Datastore

  /** Which count to raise or to lower. */
  datatype Ix = Undef | Spam | Good

  datatype Change = Change(incr: Ix, decr: Ix)

  /** A token and how often the message has it; the C type is int. */
  type Freq = f: int | 0 <= f < 0x8000_0000
  type Tokens = seq<(Word, Freq)>

  /** run_t, the options of a registration. */
  datatype RunType = RunType(regSpam: bool, regGood: bool, unregSpam: bool, unregGood: bool)

  function ChangeOf(r: RunType): Change {
    Change(if r.regGood then Good else if r.regSpam then Spam else Undef,
           if r.unregGood then Good else if r.unregSpam then Spam else Undef)
  }

  function Get(v: Dsv, ix: Ix): U32 {
    match ix
    case Undef => 0
    case Spam => v.spam
    case Good => v.good
  }

  function Set(v: Dsv, ix: Ix, c: U32): Dsv {
    match ix
    case Undef => v
    case Spam => v.(spam := c)
    case Good => v.(good := c)
  }

  /** Adding wraps around, subtracting stops at zero. */
  function Incr(v: Dsv, ix: Ix, n: U32): Dsv {
    if ix == Undef then v else Set(v, ix, Add32(Get(v, ix), n))
  }

  function Decr(v: Dsv, ix: Ix, n: U32): Dsv {
    if ix == Undef then v else Set(v, ix, if Get(v, ix) < n then 0 else Get(v, ix) - n)
  }

  function Apply(v: Dsv, c: Change, n: U32): Dsv {
    Decr(Incr(v, c.incr, n), c.decr, n)
  }

  /** The date ds_write puts on a value, and what is kept of it. */
  datatype Stamping = Stamping(timestamps: bool, today: U32)

  function Stamped(st: Stamping, v: Dsv): Dsv {
    Kept(st.timestamps, if st.timestamps && st.today != 0 then v.(date := st.today) else v)
  }

  function ValueAt(t: Table, w: Word): Dsv {
    if w in t then t[w] else ZERO
  }

  function Token(t: Table, w: Word, c: Change, st: Stamping, n: U32): Table {
    t[w := Stamped(st, Apply(ValueAt(t, w), c, n))]
  }

  function Tally(t: Table, ws: Tokens, c: Change, st: Stamping): Table {
    if ws == [] then t
    else
      var n := |ws| - 1;
      Token(Tally(t, ws[..n], c, st), ws[n].0, c, st, ws[n].1)
  }

  /** The message counts come last and carry the date of the day. */
  function Messages(t: Table, c: Change, st: Stamping, m: U32): Table {
    t[MSG_COUNT := Stamped(st, Apply(ValueAt(t, MSG_COUNT), c, m).(date := st.today))]
  }

  /** One registration of a message's tokens. */
  function Registered(t: Table, ws: Tokens, c: Change, st: Stamping, m: U32): Table {
    Messages(Tally(t, ws, c, st), c, st, m)
  }

  // ----- word by word -----

  /** The words of a message are distinct, and none is the message count. */
  predicate IsMessage(ws: Tokens) {
    && (forall i, j | 0 <= i < j < |ws| :: ws[i].0 != ws[j].0)
    && (forall i | 0 <= i < |ws| :: ws[i].0 != MSG_COUNT)
  }

  function CountIn(ws: Tokens, w: Word): Option<Freq> {
    if ws == [] then None
    else if ws[|ws| - 1].0 == w then Some(ws[|ws| - 1].1)
    else CountIn(ws[..|ws| - 1], w)
  }

  lemma {:induction false} NotCounted(ws: Tokens, w: Word)
    requires forall i | 0 <= i < |ws| :: ws[i].0 != w
    ensures CountIn(ws, w) == None
  {
    if ws != [] { NotCounted(ws[..|ws| - 1], w); }
  }

  lemma {:induction false} CountedAt(ws: Tokens, i: nat)
    requires IsMessage(ws) && i < |ws|
    ensures CountIn(ws, ws[i].0) == Some(ws[i].1)
  {
    if i < |ws| - 1 { CountedAt(ws[..|ws| - 1], i); }
  }

  lemma {:induction false} TallyAt(t: Table, ws: Tokens, c: Change, st: Stamping, w: Word)
    requires IsMessage(ws)
    ensures var r := Tally(t, ws, c, st);
      match CountIn(ws, w)
      case None => (w in r <==> w in t) && ValueAt(r, w) == ValueAt(t, w)
      case Some(n) => w in r && r[w] == Stamped(st, Apply(ValueAt(t, w), c, n))
  {
    if ws != [] {
      var k := |ws| - 1;
      TallyAt(t, ws[..k], c, st, w);
      NotCounted(ws[..k], ws[k].0);
    }
  }

  /** A registration changes each word of the message once, by its count in the
      message, and nothing else but the message counts. */
  lemma RegisteredAt(t: Table, ws: Tokens, c: Change, st: Stamping, m: U32, w: Word)
    requires IsMessage(ws)
    ensures var r := Registered(t, ws, c, st, m);
      if w == MSG_COUNT then w in r && r[w] == Stamped(st, Apply(ValueAt(t, w), c, m).(date := st.today))
      else
        match CountIn(ws, w)
        case None => (w in r <==> w in t) && ValueAt(r, w) == ValueAt(t, w)
        case Some(n) => w in r && r[w] == Stamped(st, Apply(ValueAt(t, w), c, n))
  {
    TallyAt(t, ws, c, st, w);
    NotCounted(ws, MSG_COUNT);
    TallyAt(t, ws, c, st, MSG_COUNT);
  }

  // ----- unregistering -----

  /** What the flags of a run do to the two counts of a word that occurs n
      times (or to the message counts, n messages): learning spam raises the
      spam count, learning good mail the good count; unlearning lowers the
      same counts, not below zero.  If both flags are set the one for good
      mail wins. */
  lemma LearntCounts(t: Table, ws: Tokens, r: RunType, st: Stamping, m: U32, w: Word, n: U32)
    requires IsMessage(ws) && (if w == MSG_COUNT then n == m else CountIn(ws, w) == Some(n))
    ensures w in Registered(t, ws, ChangeOf(r), st, m)
    ensures var a, b := ValueAt(t, w), Registered(t, ws, ChangeOf(r), st, m)[w];
      var spam := if r.regSpam && !r.regGood then (a.spam + n) % 0x1_0000_0000 else a.spam;
      var good := if r.regGood then (a.good + n) % 0x1_0000_0000 else a.good;
      && b.spam == (if r.unregSpam && !r.unregGood then (if spam < n then 0 else spam - n) else spam)
      && b.good == (if r.unregGood then (if good < n then 0 else good - n) else good)
    ensures var a, b := ValueAt(t, w), Registered(t, ws, ChangeOf(r), st, m)[w];
      b.date == if !st.timestamps then 0 else if w == MSG_COUNT || st.today != 0 then st.today else a.date
  {
    RegisteredAt(t, ws, ChangeOf(r), st, m, w);
    AppliedCounts(ValueAt(t, w), r, n);
  }

  lemma AppliedCounts(a: Dsv, r: RunType, n: U32)
    ensures var b := Apply(a, ChangeOf(r), n);
      var spam := if r.regSpam && !r.regGood then (a.spam + n) % 0x1_0000_0000 else a.spam;
      var good := if r.regGood then (a.good + n) % 0x1_0000_0000 else a.good;
      && b.spam == (if r.unregSpam && !r.unregGood then (if spam < n then 0 else spam - n) else spam)
      && b.good == (if r.unregGood then (if good < n then 0 else good - n) else good)
      && b.date == a.date
  {
    Add32Meaning(a.spam, n);
    Add32Meaning(a.good, n);
  }

  lemma Add32Meaning(a: U32, b: U32)
    ensures Add32(a, b) == (a + b) % 0x1_0000_0000
  {
  }

  predicate SameCounts(a: Dsv, b: Dsv) {
    a.spam == b.spam && a.good == b.good
  }

  lemma DecrUndoesIncr(v: Dsv, a: Dsv, ix: Ix, n: U32)
    requires ix != Undef && SameCounts(a, Incr(v, ix, n))
    ensures SameCounts(Decr(a, ix, n), v) <==> Get(v, ix) + n < WORD_SIZE
  {
  }

  /** The two counts of a word after registering and unregistering. */
  function ThereAndBack(t: Table, ws: Tokens, ix: Ix, st: Stamping, st': Stamping, m: U32): Table {
    Registered(Registered(t, ws, Change(ix, Undef), st, m), ws, Change(Undef, ix), st', m)
  }

  /** No count of the message overflows 32 bits. */
  predicate Fits(t: Table, ws: Tokens, ix: Ix, m: U32) {
    && Get(ValueAt(t, MSG_COUNT), ix) + m < WORD_SIZE
    && forall i | 0 <= i < |ws| :: Get(ValueAt(t, ws[i].0), ix) + ws[i].1 < WORD_SIZE
  }

  lemma BackAt(t: Table, ws: Tokens, ix: Ix, st: Stamping, st': Stamping, m: U32, w: Word)
    requires ix != Undef && IsMessage(ws)
    ensures var n := if w == MSG_COUNT then Some(m) else CountIn(ws, w);
      (SameCounts(ValueAt(ThereAndBack(t, ws, ix, st, st', m), w), ValueAt(t, w))
       <==> (n.Some? ==> Get(ValueAt(t, w), ix) + n.value < WORD_SIZE))
  {
    var c, d := Change(ix, Undef), Change(Undef, ix);
    var t1 := Registered(t, ws, c, st, m);
    RegisteredAt(t, ws, c, st, m, w);
    RegisteredAt(t1, ws, d, st', m, w);
    var n := if w == MSG_COUNT then Some(m) else CountIn(ws, w);
    if n.Some? { DecrUndoesIncr(ValueAt(t, w), ValueAt(t1, w), ix, n.value); }
  }

  /** Registering a message and unregistering it later restores every count
      exactly when no count overflowed. */
  lemma UnregisterRestores(t: Table, ws: Tokens, ix: Ix, st: Stamping, st': Stamping, m: U32)
    requires ix != Undef && IsMessage(ws)
    ensures (forall w :: SameCounts(ValueAt(ThereAndBack(t, ws, ix, st, st', m), w), ValueAt(t, w)))
      <==> Fits(t, ws, ix, m)
  {
    forall w: Word ensures
      var n := if w == MSG_COUNT then Some(m) else CountIn(ws, w);
      (SameCounts(ValueAt(ThereAndBack(t, ws, ix, st, st', m), w), ValueAt(t, w))
       <==> (n.Some? ==> Get(ValueAt(t, w), ix) + n.value < WORD_SIZE))
    {
      BackAt(t, ws, ix, st, st', m, w);
    }
    forall i | 0 <= i < |ws| ensures CountIn(ws, ws[i].0) == Some(ws[i].1) { CountedAt(ws, i); }
    forall w | CountIn(ws, w).Some? ensures exists i :: 0 <= i < |ws| && ws[i] == (w, CountIn(ws, w).value) {
      CountFrom(ws, w);
    }
  }

  lemma {:induction false} CountFrom(ws: Tokens, w: Word)
    requires CountIn(ws, w).Some?
    ensures exists i :: 0 <= i < |ws| && ws[i] == (w, CountIn(ws, w).value)
  {
    var n := |ws| - 1;
    if ws[n].0 != w {
      CountFrom(ws[..n], w);
      var i :| 0 <= i < n && ws[..n][i] == (w, CountIn(ws, w).value);
      assert ws[i] == (w, CountIn(ws, w).value);
    }
  }
}
