// The scanner of getopt.c over an argv that it permutes in place.

module GetoptRun {
  import opened Options
  import opened Exchange
  import opened Getopt

  // ----- how argv lies while it is being permuted -----

  /** v is argv now and a as it was given.  Up to i everything has been looked
      at: opts are the options found so far and others the rest, which lie
      together in [first, last). */
  datatype Place = Place(first: nat, last: nat, i: nat, opts: Argv, others: Argv)

  ghost predicate Laid(a: Argv, v: Argv, p: Place) {
    && |v| == |a| && 1 <= p.first <= p.last <= p.i <= |a|
    && v[0] == a[0] && v[p.i..] == a[p.i..]
    && v[1..p.first] + v[p.last..p.i] == p.opts && v[p.first..p.last] == p.others
  }

  lemma LaidExchanged(a: Argv, v: Argv, p: Place)
    requires Laid(a, v, p)
    ensures Laid(a, Exchanged(v, p.first, p.last, p.i), p.(first := p.first + (p.i - p.last), last := p.i))
  {
    var r := Exchanged(v, p.first, p.last, p.i);
    var f := p.first + (p.i - p.last);
    assert r[1..f] == v[1..p.first] + v[p.last..p.i];
    assert r[f..p.i] == v[p.first..p.last];
    assert r[p.i..] == v[p.i..];
    assert r[p.i..p.i] == [];
  }

  lemma LaidCaughtUp(a: Argv, v: Argv, p: Place)
    requires Laid(a, v, p) && p.first == p.last
    ensures Laid(a, v, p.(first := p.i, last := p.i))
  {
    assert v[1..p.i] == v[1..p.first] + v[p.last..p.i];
    assert v[p.i..p.i] == [];
  }

  lemma LaidSkipped(a: Argv, v: Argv, p: Place, j: nat)
    requires Laid(a, v, p) && p.last == p.i <= j <= |a|
    ensures Laid(a, v, p.(last := j, i := j, others := p.others + a[p.i..j]))
  {
    assert v[p.i..j] == v[p.i..][..j - p.i] == a[p.i..][..j - p.i] == a[p.i..j];
    assert v[p.first..j] == v[p.first..p.i] + v[p.i..j];
    assert v[j..] == v[p.i..][j - p.i..] == a[p.i..][j - p.i..];
    assert v[j..j] == [] == v[p.i..p.i];
  }

  lemma LaidTaken(a: Argv, v: Argv, p: Place, j: nat)
    requires Laid(a, v, p) && p.i <= j <= |a|
    ensures Laid(a, v, p.(i := j, opts := p.opts + a[p.i..j]))
  {
    assert v[p.i..j] == v[p.i..][..j - p.i] == a[p.i..][..j - p.i] == a[p.i..j];
    assert v[p.last..j] == v[p.last..p.i] + v[p.i..j];
    assert v[j..] == v[p.i..][j - p.i..] == a[p.i..][j - p.i..];
    assert v[1..p.first] + v[p.last..j] == (v[1..p.first] + v[p.last..p.i]) + v[p.i..j];
  }

  /** What has been found and what is still to come make up the whole. */
  ghost predicate Parsed(optstring: string, a: Argv, p: Place) {
    && 1 <= p.i <= |a|
    && OptionsFrom(optstring, a, 1) == p.opts + OptionsFrom(optstring, a, p.i)
    && OthersFrom(optstring, a, 1) == p.others + OthersFrom(optstring, a, p.i)
  }

  lemma ParsedOther(optstring: string, a: Argv, p: Place)
    requires Parsed(optstring, a, p) && p.i < |a| && NonOption(a[p.i])
    ensures Parsed(optstring, a, p.(i := p.i + 1, others := p.others + [a[p.i]]))
  {
    var more := OthersFrom(optstring, a, p.i + 1);
    assert p.others + [a[p.i]] + more == p.others + ([a[p.i]] + more);
  }

  lemma ParsedOption(optstring: string, a: Argv, p: Place)
    requires Parsed(optstring, a, p) && p.i < |a| && !NonOption(a[p.i]) && a[p.i] != "--"
    ensures var j := p.i + Width(optstring, a, p.i, a[p.i][1..]);
      Parsed(optstring, a, p.(i := j, opts := p.opts + a[p.i..j]))
  {
    var j := p.i + Width(optstring, a, p.i, a[p.i][1..]);
    assert p.opts + a[p.i..j] + OptionsFrom(optstring, a, j) == p.opts + (a[p.i..j] + OptionsFrom(optstring, a, j));
  }

  lemma ParsedDashes(optstring: string, a: Argv, p: Place)
    requires Parsed(optstring, a, p) && p.i < |a| && a[p.i] == "--"
    ensures Parsed(optstring, a, p.(i := |a|, opts := p.opts + [a[p.i]], others := p.others + a[p.i + 1..]))
  {
  }

  /** The order getopt leaves: program name, options, then the other arguments. */
  ghost function Permuted(optstring: string, a: Argv): Argv
    requires a != []
  {
    [a[0]] + OptionsFrom(optstring, a, 1) + OthersFrom(optstring, a, 1)
  }

  lemma LaidAtEnd(optstring: string, a: Argv, v: Argv, p: Place)
    requires Laid(a, v, p) && Parsed(optstring, a, p) && p.i == |a| && p.last == |a|
    ensures v == Permuted(optstring, a) && p.first == 1 + |OptionsFrom(optstring, a, 1)|
  {
    assert v[1..p.first] + v[p.last..p.i] == v[1..p.first];
    assert v == [v[0]] + v[1..p.first] + v[p.first..p.last];
  }

  lemma SkippedOne(optstring: string, a: Argv, v: Argv, p: Place)
    requires Laid(a, v, p) && Parsed(optstring, a, p) && p.last == p.i < |a| && NonOption(a[p.i])
    ensures var q := p.(last := p.i + 1, i := p.i + 1, others := p.others + [a[p.i]]);
      Laid(a, v, q) && Parsed(optstring, a, q)
    ensures OutsFrom(optstring, a, p.i, "") == OutsFrom(optstring, a, p.i + 1, "")
  {
    LaidSkipped(a, v, p, p.i + 1);
    ParsedOther(optstring, a, p);
    assert a[p.i..p.i + 1] == [a[p.i]];
  }

  lemma SameFrom(a: Argv, v: Argv, p: Place, k: nat)
    requires Laid(a, v, p) && p.i <= k < |a|
    ensures v[k] == a[k]
  {
    assert v[p.i..][k - p.i] == a[p.i..][k - p.i];
  }

  /** "--" counts as an option; what follows it is put to the others. */
  lemma Dashed(optstring: string, a: Argv, v: Argv, p: Place)
    requires Laid(a, v, p) && Parsed(optstring, a, p) && p.last == p.i < |a| && a[p.i] == "--"
    ensures Laid(a, v, p.(i := p.i + 1, opts := p.opts + ["--"]))
  {
    LaidTaken(a, v, p, p.i + 1);
    assert a[p.i..p.i + 1] == ["--"];
  }

  lemma DashedRest(optstring: string, a: Argv, v: Argv, p: Place, q: Place)
    requires Parsed(optstring, a, p) && p.i < |a| && a[p.i] == "--"
    requires Laid(a, v, q) && q.last == q.i == p.i + 1 && q.opts == p.opts + ["--"] && q.others == p.others
    ensures var r := q.(last := |a|, i := |a|, others := q.others + a[p.i + 1..]);
      Laid(a, v, r) && Parsed(optstring, a, r)
  {
    LaidSkipped(a, v, q, |a|);
    ParsedDashes(optstring, a, p);
    assert a[q.i..|a|] == a[p.i + 1..];
  }

  function After(p: Place, a: Argv, j: nat): Place
    requires p.i <= j <= |a|
  {
    p.(i := j, opts := p.opts + a[p.i..j])
  }

  /** The option at place i is done with; rest is what was left of it last. */
  lemma OptionDone(optstring: string, a: Argv, v: Argv, p: Place, rest: string)
    requires Laid(a, v, p) && Parsed(optstring, a, p) && p.i < |a| && IsOption(a[p.i])
    requires TakesNext(optstring, rest) == TakesNext(optstring, a[p.i][1..])
    ensures var q := After(p, a, p.i + Width(optstring, a, p.i, rest));
      Laid(a, v, q) && Parsed(optstring, a, q)
  {
    LaidTaken(a, v, p, p.i + Width(optstring, a, p.i, rest));
    ParsedOption(optstring, a, p);
  }

  /** What one option letter leads to: what is handed out, and where the reading goes on. */
  datatype Step = Step(out: Out, i: nat, rest: string)

  function StepOf(optstring: string, a: Argv, i: nat, rest: string): Step
    requires rest != "" && i < |a|
  {
    var c, more := rest[0], rest[1..];
    match KindOf(optstring, c)
    case MayHaveArg => Step(Out(c, if more != "" then Some(more) else None), i + 1, "")
    case NeedsArg =>
      if more != "" then Step(Out(c, Some(more)), i + 1, "")
      else if i + 1 == |a| then Step(Out(Missing(optstring), None), i + 1, "")
      else Step(Out(c, Some(a[i + 1])), i + 2, "")
    case k =>
      var o := Out(if k == Unknown then '?' else c, None);
      if more == "" then Step(o, i + 1, "") else Step(o, i, more)
  }

  lemma StepOuts(optstring: string, a: Argv, i: nat, rest: string)
    requires rest != "" && i < |a|
    ensures var s := StepOf(optstring, a, i, rest);
      s.i <= |a| && (s.rest != "" ==> s.i == i)
      && OutsFrom(optstring, a, i, rest) == [s.out] + OutsFrom(optstring, a, s.i, s.rest)
  {
  }

  lemma StepWidth(optstring: string, a: Argv, i: nat, rest: string)
    requires rest != "" && i < |a|
    ensures var s := StepOf(optstring, a, i, rest);
      if s.rest == "" then s.i == i + Width(optstring, a, i, rest)
      else s.i == i && TakesNext(optstring, s.rest) == TakesNext(optstring, rest)
  {
    var more := rest[1..];
    assert more == "" ==> !TakesNext(optstring, more);
    assert |rest| == 1 <==> more == "";
  }

  // ----- the scanner -----

  class Scanner {
    const argv: array<string>
    var optind: nat
    var firstNonopt: nat
    var lastNonopt: nat
    var nextchar: string
    var optarg: Option<string>
    ghost const a: Argv
    ghost var p: Place

    ghost predicate Valid(optstring: string)
      reads `optind, `firstNonopt, `lastNonopt, `nextchar, `p, argv
    {
      && p.first == firstNonopt && p.last == lastNonopt && p.i == optind
      && Laid(a, argv[..], p) && Parsed(optstring, a, p)
      && (nextchar != "" ==>
            && optind < |a| && IsOption(a[optind])
            && TakesNext(optstring, nextchar) == TakesNext(optstring, a[optind][1..]))
    }

    /** The state of the first call: _getopt_initialize, with optind 1. */
    constructor (argv: array<string>, ghost optstring: string)
      requires argv.Length >= 1 && Permutes(optstring)
      ensures this.argv == argv && a == argv[..] && Valid(optstring) && optind == 1 && nextchar == ""
    {
      this.argv, a := argv, argv[..];
      optind, firstNonopt, lastNonopt, nextchar, optarg := 1, 1, 1, "", None;
      p := Place(1, 1, 1, [], []);
      new;
      assert argv[1..1] == [];
    }

    /** exchange: the skipped arguments change places with the options found after them. */
    method Exchange()
      requires p.first == firstNonopt && p.last == lastNonopt && p.i == optind && Laid(a, argv[..], p)
      modifies `firstNonopt, `lastNonopt, `p, argv
      ensures p.first == firstNonopt && p.last == lastNonopt && p.i == optind && Laid(a, argv[..], p)
      ensures p == old(p).(first := old(p.first) + (old(p.i) - old(p.last)), last := old(p.i))
    {
      LaidExchanged(a, argv[..], p);
      ExchangeBlocks(argv, firstNonopt, lastNonopt, optind);
      firstNonopt := firstNonopt + (optind - lastNonopt);
      lastNonopt := optind;
      p := p.(first := firstNonopt, last := lastNonopt);
    }

    /** getopt.c:563-566, and the update of lastNonopt that getopt.c:573 makes in
        any case: the arguments skipped so far come to lie next to optind. */
    method CatchUp()
      requires p.first == firstNonopt && p.last == lastNonopt && p.i == optind && Laid(a, argv[..], p)
      modifies `firstNonopt, `lastNonopt, `p, argv
      ensures p.first == firstNonopt && p.last == lastNonopt == p.i == optind && Laid(a, argv[..], p)
      ensures p == old(p).(first := p.first, last := p.last)
    {
      if firstNonopt != lastNonopt && lastNonopt != optind {
        Exchange();
      } else if lastNonopt != optind {
        LaidCaughtUp(a, argv[..], p);
        firstNonopt := optind;
        lastNonopt := optind;
        p := p.(first := optind, last := optind);
      }
    }

    /** getopt.c:553-573: move the options found so far in front of the
        arguments skipped before them, then skip more arguments. */
    method SkipNonoptions(optstring: string)
      requires Valid(optstring) && nextchar == ""
      modifies `optind, `firstNonopt, `lastNonopt, `p, argv
      ensures Valid(optstring) && p.last == p.i && (optind < |a| ==> !NonOption(a[optind]))
      ensures OutsFrom(optstring, a, optind, "") == OutsFrom(optstring, a, old(optind), "")
    {
      CatchUp();
      while optind < argv.Length && NonOption(argv[optind])
        invariant Valid(optstring) && p.last == p.i
        invariant OutsFrom(optstring, a, optind, "") == OutsFrom(optstring, a, old(optind), "")
        decreases argv.Length - optind
      {
        SameFrom(a, argv[..], p, optind);
        SkipOne(optstring);
      }
    }

    method SkipOne(optstring: string)
      requires Valid(optstring) && nextchar == "" && p.last == p.i && optind < |a| && NonOption(a[optind])
      modifies `optind, `lastNonopt, `p
      ensures Valid(optstring) && p.last == p.i && optind == old(optind) + 1
      ensures OutsFrom(optstring, a, optind, "") == OutsFrom(optstring, a, old(optind), "")
    {
      SkippedOne(optstring, a, argv[..], p);
      p := p.(last := optind + 1, i := optind + 1, others := p.others + [a[optind]]);
      optind := optind + 1;
      lastNonopt := optind;
    }

    /** getopt.c:585-589: the same after "--", which has just been passed. */
    method CatchUpDashes()
      requires p.first == firstNonopt && p.last == lastNonopt < p.i == optind && Laid(a, argv[..], p)
      modifies `firstNonopt, `lastNonopt, `p, argv
      ensures p.first == firstNonopt && p.last == p.i == optind && Laid(a, argv[..], p)
      ensures p == old(p).(first := p.first, last := p.last)
    {
      if firstNonopt != lastNonopt && lastNonopt != optind {
        Exchange();
      } else if firstNonopt == lastNonopt {
        LaidCaughtUp(a, argv[..], p);
        firstNonopt := optind;
        p := p.(first := optind, last := optind);
      }
    }

    /** getopt.c:583-591: "--" ends the options. */
    method EndOptions(optstring: string)
      requires Valid(optstring) && nextchar == "" && p.last == p.i && optind < |a| && a[optind] == "--"
      modifies `optind, `firstNonopt, `lastNonopt, `p, argv
      ensures Valid(optstring) && p.last == p.i == argv.Length
    {
      ghost var q := p;
      PassDashes(optstring);
      DashedRest(optstring, a, argv[..], q, p);
      StopAt(optstring, p.(last := |a|, i := |a|, others := p.others + a[q.i + 1..]));
    }

    /** Nothing is left to be looked at. */
    method StopAt(optstring: string, ghost r: Place)
      requires nextchar == "" && |a| == argv.Length && r.first == firstNonopt && r.last == r.i == argv.Length
      requires Laid(a, argv[..], r) && Parsed(optstring, a, r)
      modifies `optind, `lastNonopt, `p
      ensures Valid(optstring) && p == r
    {
      lastNonopt := argv.Length;
      optind := argv.Length;
      p := r;
    }

    /** "--" itself, found behind the arguments skipped so far. */
    method PassDashes(optstring: string)
      requires Valid(optstring) && p.last == p.i && optind < |a| && a[optind] == "--"
      modifies `optind, `firstNonopt, `lastNonopt, `p, argv
      ensures p.first == firstNonopt && p.last == p.i == optind == old(optind) + 1 && Laid(a, argv[..], p)
      ensures p.opts == old(p.opts) + ["--"] && p.others == old(p.others)
    {
      Dashed(optstring, a, argv[..], p);
      optind := optind + 1;
      p := p.(i := optind, opts := p.opts + ["--"]);
      CatchUpDashes();
    }

    /** getopt.c:597-603: all is looked at. */
    method AtEnd(optstring: string)
      requires Valid(optstring) && p.last == p.i == argv.Length == optind
      modifies `optind
      ensures argv[..] == Permuted(optstring, a) && optind == 1 + |OptionsFrom(optstring, a, 1)|
    {
      LaidAtEnd(optstring, a, argv[..], p);
      if firstNonopt != lastNonopt { optind := firstNonopt; }
    }

    /** getopt.c:547-592: on to the next option, or to the end. */
    method Seek(optstring: string)
      requires Valid(optstring) && nextchar == ""
      modifies `optind, `firstNonopt, `lastNonopt, `p, argv
      ensures Valid(optstring) && p.last == p.i
      ensures optind < |a| ==> IsOption(a[optind])
      ensures OutsFrom(optstring, a, old(optind), "") == OutsFrom(optstring, a, optind, "")
    {
      SkipNonoptions(optstring);
      if optind != argv.Length {
        SameFrom(a, argv[..], p, optind);
        if argv[optind] == "--" { EndOptions(optstring); }
      }
    }

    /** getopt.c:547-621: an option is at hand, or all is done. */
    method Advance(optstring: string) returns (done: bool)
      requires Valid(optstring) && nextchar == ""
      modifies `optind, `firstNonopt, `lastNonopt, `nextchar, `p, argv
      ensures done ==> OutsFrom(optstring, a, old(optind), "") == []
      ensures done ==> argv[..] == Permuted(optstring, a) && optind == 1 + |OptionsFrom(optstring, a, 1)|
      ensures !done ==> Valid(optstring) && nextchar != ""
      ensures !done ==> OutsFrom(optstring, a, old(optind), "") == OutsFrom(optstring, a, optind, nextchar)
    {
      Seek(optstring);
      if optind == argv.Length {
        AtEnd(optstring);
        return true;
      }
      SameFrom(a, argv[..], p, optind);
      nextchar := argv[optind][1..];
      return false;
    }

    /** getopt.c:775-968: the next letter of the option at hand, and its argument. */
    method Decode(optstring: string) returns (c: char)
      requires nextchar != "" && optind < |a| == argv.Length && optarg == None
      requires forall k | optind <= k < |a| :: argv[k] == a[k]
      modifies `optind, `nextchar, `optarg
      ensures Step(Out(c, optarg), optind, nextchar) == StepOf(optstring, a, old(optind), old(nextchar))
    {
      c := nextchar[0];
      nextchar := nextchar[1..];
      var temp := Index(optstring, c);
      if nextchar == "" { optind := optind + 1; }
      if temp < 0 || c == ':' { return '?'; }
      if temp + 1 < |optstring| && optstring[temp + 1] == ':' {
        if temp + 2 < |optstring| && optstring[temp + 2] == ':' {
          if nextchar != "" {
            optarg := Some(nextchar);
            optind := optind + 1;
          } else {
            optarg := None;
          }
        } else if nextchar != "" {
          optarg := Some(nextchar);
          optind := optind + 1;
        } else if optind == argv.Length {
          c := if optstring != "" && optstring[0] == ':' then ':' else '?';
        } else {
          optarg := Some(argv[optind]);
          optind := optind + 1;
        }
        nextchar := "";
      }
    }

    /** Decode, and what it means for the reading of argv. */
    method NextLetter(optstring: string) returns (o: Out)
      requires Valid(optstring) && nextchar != "" && optarg == None
      modifies `optind, `nextchar, `optarg, `p
      ensures Valid(optstring)
      ensures OutsFrom(optstring, a, old(optind), old(nextchar)) == Whole([], Some(o), optstring, a, optind, nextchar)
    {
      ghost var i, rest := optind, nextchar;
      StepOuts(optstring, a, i, rest);
      StepWidth(optstring, a, i, rest);
      OptionDone(optstring, a, argv[..], p, rest);
      forall k | i <= k < |a| ensures argv[k] == a[k] { SameFrom(a, argv[..], p, k); }
      var c := Decode(optstring);
      o := Out(c, optarg);
      if nextchar == "" { p := After(p, a, optind); }
    }

    /** _getopt_internal: None stands for -1; what it hands out includes optarg. */
    method GetoptOut(optstring: string) returns (c: Option<Out>)
      requires Valid(optstring)
      modifies this, argv
      ensures c.Some? ==> Valid(optstring)
      ensures OutsFrom(optstring, a, old(optind), old(nextchar)) == Whole([], c, optstring, a, optind, nextchar)
      ensures c.None? ==> argv[..] == Permuted(optstring, a) && optind == 1 + |OptionsFrom(optstring, a, 1)|
    {
      optarg := None;
      if nextchar == "" {
        var done := Advance(optstring);
        if done { return None; }
      }
      var o := NextLetter(optstring);
      return Some(o);
    }
  }

  /** The outs so far, and what comes. */
  ghost function Whole(outs: seq<Out>, c: Option<Out>, optstring: string, a: Argv, i: nat, rest: string): seq<Out>
    requires c.Some? ==> i <= |a| && (rest != "" ==> i < |a|)
  {
    if c.None? then outs else outs + [c.value] + OutsFrom(optstring, a, i, rest)
  }

  lemma WholeStep(outs: seq<Out>, o: Out, optstring: string, a: Argv, i: nat, rest: string,
                  c: Option<Out>, j: nat, rest': string)
    requires i <= |a| && (rest != "" ==> i < |a|) && (c.Some? ==> j <= |a| && (rest' != "" ==> j < |a|))
    requires OutsFrom(optstring, a, i, rest) == Whole([], c, optstring, a, j, rest')
    ensures Whole(outs + [o], c, optstring, a, j, rest') == Whole(outs, Some(o), optstring, a, i, rest)
  {
  }

  /** A program that calls getopt until it is done gets the options, and their
      arguments, as a reading of argv from left to right gives them; it is left
      with the options in front and optind at the first of the other arguments. */
  method GetAll(argv: array<string>, optstring: string) returns (outs: seq<Out>, optind: nat)
    requires argv.Length >= 1 && Permutes(optstring)
    modifies argv
    ensures outs == OutsFrom(optstring, old(argv[..]), 1, "")
    ensures argv[..] == Permuted(optstring, old(argv[..])) && optind == 1 + |OptionsFrom(optstring, old(argv[..]), 1)|
  {
    var s := new Scanner(argv, optstring);
    outs := [];
    var c := s.GetoptOut(optstring);
    while c.Some?
      invariant c.Some? ==> s.Valid(optstring)
      invariant Whole(outs, c, optstring, s.a, s.optind, s.nextchar) == OutsFrom(optstring, s.a, 1, "")
      invariant c.None? ==> argv[..] == Permuted(optstring, s.a) && s.optind == 1 + |OptionsFrom(optstring, s.a, 1)|
      decreases c.Some?, |OutsFrom(optstring, s.a, 1, "")| - |outs|
    {
      ghost var o, i, rest, before := c.value, s.optind, s.nextchar, outs;
      outs := outs + [c.value];
      c := s.GetoptOut(optstring);
      WholeStep(before, o, optstring, s.a, i, rest, c, s.optind, s.nextchar);
    }
    optind := s.optind;
  }

  predicate IsOption(arg: string) {
    !NonOption(arg) && arg != "--"
  }
}
