// getopt.c in its default ordering, PERMUTE, for short options: options are
// found in any place of argv and moved in front of the other arguments.

module Getopt {
  import opened Options

  type Argv = seq<string>

  // ----- what the option string says -----

  datatype Kind = Unknown | Flag | NeedsArg | MayHaveArg

  function Index(s: string, c: char): int
    ensures -1 <= Index(s, c) < |s|
  {
    if s == [] then -1 else if s[0] == c then 0 else var i := Index(s[1..], c); if i < 0 then -1 else i + 1
  }

  function KindOf(optstring: string, c: char): Kind {
    var i := Index(optstring, c);
    if i < 0 || c == ':' then Unknown
    else if i + 1 < |optstring| && optstring[i + 1] == ':' then
      if i + 2 < |optstring| && optstring[i + 2] == ':' then MayHaveArg else NeedsArg
    else Flag
  }

  /** What _getopt_initialize takes for the ordering PERMUTE, and without the
      form "W;" that stands for long options. */
  predicate Permutes(optstring: string) {
    && (optstring != "" ==> optstring[0] !in {'-', '+'})
    && var i := Index(optstring, 'W'); 0 <= i < |optstring| - 1 ==> optstring[i + 1] != ';'
  }

  /** NONOPTION_P */
  predicate NonOption(arg: string) {
    |arg| < 2 || arg[0] != '-'
  }

  // ----- reading argv from left to right -----

  /** Whether the option letters in rest end with one whose argument is the next element. */
  predicate TakesNext(optstring: string, rest: string) {
    if rest == "" then false
    else
      match KindOf(optstring, rest[0])
      case MayHaveArg => false
      case NeedsArg => |rest| == 1
      case _ => TakesNext(optstring, rest[1..])
  }

  /** The elements an option at place i takes up: itself, and its argument if that is separate. */
  function Width(optstring: string, a: Argv, i: nat, rest: string): (w: nat)
    requires i < |a|
    ensures 1 <= w && i + w <= |a|
  {
    if TakesNext(optstring, rest) && i + 1 < |a| then 2 else 1
  }

  /** The options with their arguments, and "--" if it ends them. */
  function OptionsFrom(optstring: string, a: Argv, i: nat): Argv
    requires i <= |a|
    decreases |a| - i
  {
    if i == |a| then []
    else if a[i] == "--" then ["--"]
    else if NonOption(a[i]) then OptionsFrom(optstring, a, i + 1)
    else
      var w := Width(optstring, a, i, a[i][1..]);
      a[i..i + w] + OptionsFrom(optstring, a, i + w)
  }

  /** The other arguments: all after "--", and those that are not options before it. */
  function OthersFrom(optstring: string, a: Argv, i: nat): Argv
    requires i <= |a|
    decreases |a| - i
  {
    if i == |a| then []
    else if a[i] == "--" then a[i + 1..]
    else if NonOption(a[i]) then [a[i]] + OthersFrom(optstring, a, i + 1)
    else OthersFrom(optstring, a, i + Width(optstring, a, i, a[i][1..]))
  }

  lemma Cut(a: Argv, i: nat, j: nat)
    requires i <= j <= |a|
    ensures multiset(a[i..]) == multiset(a[i..j]) + multiset(a[j..])
  {
    assert a[i..] == a[i..j] + a[j..];
  }

  lemma {:induction false} NoneIsLost(optstring: string, a: Argv, i: nat)
    requires i <= |a|
    ensures multiset(OptionsFrom(optstring, a, i)) + multiset(OthersFrom(optstring, a, i)) == multiset(a[i..])
    decreases |a| - i
  {
    if i < |a| {
      var j := if NonOption(a[i]) || a[i] == "--" then i + 1 else i + Width(optstring, a, i, a[i][1..]);
      Cut(a, i, j);
      if a[i] == "--" || NonOption(a[i]) { assert a[i..j] == [a[i]]; }
      if a[i] != "--" { NoneIsLost(optstring, a, j); }
    }
  }

  /** What a call of getopt hands out: an option letter, '?' or ':', and optarg. */
  datatype Out = Out(c: char, arg: Option<string>)

  /** All that is handed out from place i on, with the letters in rest still to be read there. */
  function OutsFrom(optstring: string, a: Argv, i: nat, rest: string): seq<Out>
    requires i <= |a| && (rest != "" ==> i < |a|)
    decreases |a| - i, if rest == "" then 1 else 0, |rest|
  {
    if rest != "" then
      var c, more := rest[0], rest[1..];
      match KindOf(optstring, c)
      case MayHaveArg => [Out(c, if more != "" then Some(more) else None)] + OutsFrom(optstring, a, i + 1, "")
      case NeedsArg =>
        if more != "" then [Out(c, Some(more))] + OutsFrom(optstring, a, i + 1, "")
        else if i + 1 == |a| then [Out(Missing(optstring), None)]
        else [Out(c, Some(a[i + 1]))] + OutsFrom(optstring, a, i + 2, "")
      case k =>
        [Out(if k == Unknown then '?' else c, None)]
        + (if more == "" then OutsFrom(optstring, a, i + 1, "") else OutsFrom(optstring, a, i, more))
    else if i == |a| || a[i] == "--" then []
    else if NonOption(a[i]) then OutsFrom(optstring, a, i + 1, "")
    else OutsFrom(optstring, a, i, a[i][1..])
  }

  function Missing(optstring: string): char {
    if optstring != "" && optstring[0] == ':' then ':' else '?'
  }
}
