// Command lines as they are written: an option string from a table of
// letters, and an argv from options with their arguments, other arguments
// and "--".  The reading of Getopt gives back what was written.

module CommandLines {
  import opened Options
  import opened Getopt
  import opened GetoptRun

  // ----- the option string -----

  datatype Arity = NoArg | Required | Optional

  datatype Letter = Letter(c: char, arity: Arity)

  type Table = seq<Letter>

  function Colons(a: Arity): string {
    match a
    case NoArg => ""
    case Required => ":"
    case Optional => "::"
  }

  function Spec(table: Table): string {
    if table == [] then "" else [table[0].c] + Colons(table[0].arity) + Spec(table[1..])
  }

  /** A colon at the front asks for ':' as the answer to a missing argument. */
  function OptString(quiet: bool, table: Table): string {
    (if quiet then ":" else "") + Spec(table)
  }

  /** The letters are distinct, and none is the colon. */
  predicate Proper(table: Table) {
    && (forall i | 0 <= i < |table| :: table[i].c != ':')
    && (forall i, j | 0 <= i < j < |table| :: table[i].c != table[j].c)
  }

  predicate Known(table: Table, c: char) {
    exists i :: 0 <= i < |table| && table[i].c == c
  }

  function KindFor(a: Arity): Kind {
    match a
    case NoArg => Flag
    case Required => NeedsArg
    case Optional => MayHaveArg
  }

  lemma {:induction false} IndexSkips(x: string, y: string, c: char)
    requires c !in x
    ensures Index(x + y, c) == if Index(y, c) < 0 then -1 else |x| + Index(y, c)
  {
    if x == "" {
      assert x + y == y;
    } else {
      assert (x + y)[1..] == x[1..] + y;
      IndexSkips(x[1..], y, c);
    }
  }

  lemma {:induction false} NotWritten(table: Table, c: char)
    requires !Known(table, c) && c != ':'
    ensures c !in Spec(table)
  {
    if table != [] {
      assert table[0].c != c;
      forall i | 0 <= i < |table| - 1 ensures table[1..][i].c != c { assert table[1..][i] == table[i + 1]; }
      NotWritten(table[1..], c);
    }
  }

  lemma KindWritten(pre: string, l: Letter, more: string)
    requires l.c !in pre && l.c != ':' && (more != "" ==> more[0] != ':')
    ensures KindOf(pre + ([l.c] + Colons(l.arity) + more), l.c) == KindFor(l.arity)
  {
    var y := [l.c] + Colons(l.arity) + more;
    IndexSkips(pre, y, l.c);
    assert Index(y, l.c) == 0;
    var s, n := pre + y, |pre|;
    assert |y| > 1 ==> s[n + 1] == y[1];
    assert |y| > 2 ==> s[n + 2] == y[2];
    match l.arity
    case NoArg => assert y == [l.c] + more;
    case Required => assert y == [l.c, ':'] + more;
    case Optional => assert y == [l.c, ':', ':'] + more;
  }

  lemma {:induction false} KindFrom(pre: string, table: Table, i: nat)
    requires Proper(table) && i < |table| && table[i].c !in pre
    ensures KindOf(pre + Spec(table), table[i].c) == KindFor(table[i].arity)
    decreases i
  {
    var head, rest := [table[0].c] + Colons(table[0].arity), table[1..];
    assert Proper(rest);
    if i == 0 {
      KindWritten(pre, table[0], Spec(rest));
    } else {
      assert pre + Spec(table) == (pre + head) + Spec(rest);
      KindFrom(pre + head, rest, i - 1);
    }
  }

  /** The option string says of each letter what the table says. */
  lemma KindOfLetter(quiet: bool, table: Table, i: nat)
    requires Proper(table) && i < |table|
    ensures KindOf(OptString(quiet, table), table[i].c) == KindFor(table[i].arity)
  {
    KindFrom(if quiet then ":" else "", table, i);
  }

  lemma KindOfUnknown(quiet: bool, table: Table, c: char)
    requires !Known(table, c)
    ensures KindOf(OptString(quiet, table), c) == Unknown
  {
    if c != ':' {
      NotWritten(table, c);
      IndexSkips(OptString(quiet, table), "", c);
      assert OptString(quiet, table) + "" == OptString(quiet, table);
    }
  }

  lemma MissingOf(quiet: bool, table: Table)
    requires Proper(table)
    ensures Missing(OptString(quiet, table)) == if quiet then ':' else '?'
  {
  }

  // ----- the command line -----

  /** How an element with options ends, after its flags. */
  datatype Ending =
    | Nothing
    | Bare(c: char)                    // an optional argument left out
    | Attached(c: char, arg: string)   // the rest of the element is the argument
    | Separate(c: char, arg: string)   // the next element is the argument
    | Lacking(c: char)                 // there is no next element

  datatype Item = Opts(flags: string, ending: Ending) | Other(arg: string)

  predicate Says(table: Table, c: char, a: Arity) {
    Letter(c, a) in table
  }

  predicate FlagOk(table: Table, c: char) {
    Says(table, c, NoArg) || !Known(table, c)
  }

  predicate EndingOk(table: Table, e: Ending) {
    match e
    case Nothing => true
    case Bare(c) => Says(table, c, Optional)
    case Attached(c, arg) => arg != "" && (Says(table, c, Required) || Says(table, c, Optional))
    case Separate(c, _) => Says(table, c, Required)
    case Lacking(c) => Says(table, c, Required)
  }

  function EndText(e: Ending): string {
    match e
    case Nothing => ""
    case Bare(c) => [c]
    case Attached(c, arg) => [c] + arg
    case Separate(c, _) => [c]
    case Lacking(c) => [c]
  }

  predicate Legal(table: Table, item: Item) {
    match item
    case Other(arg) => arg == "" || arg == "-" || arg[0] != '-'
    case Opts(flags, e) =>
      && (forall i | 0 <= i < |flags| :: FlagOk(table, flags[i])) && EndingOk(table, e)
      && flags + EndText(e) != "" && flags + EndText(e) != "-"
  }

  function Written(item: Item): Argv {
    match item
    case Other(arg) => [arg]
    case Opts(flags, e) =>
      ["-" + (flags + EndText(e))] + if e.Separate? then [e.arg] else []
  }

  function Meant(quiet: bool, table: Table, item: Item): seq<Out> {
    match item
    case Other(_) => []
    case Opts(flags, e) => FlagOuts(table, flags) + EndOuts(quiet, e)
  }

  function FlagOuts(table: Table, flags: string): seq<Out> {
    if flags == "" then []
    else [Out(if Says(table, flags[0], NoArg) then flags[0] else '?', None)] + FlagOuts(table, flags[1..])
  }

  function EndOuts(quiet: bool, e: Ending): seq<Out> {
    match e
    case Nothing => []
    case Bare(c) => [Out(c, None)]
    case Attached(c, arg) => [Out(c, Some(arg))]
    case Separate(c, arg) => [Out(c, Some(arg))]
    case Lacking(_) => [Out(if quiet then ':' else '?', None)]
  }

  /** A command line: its items, and what comes after "--" if that is there. */
  datatype Line = Line(items: seq<Item>, tail: Option<Argv>)

  predicate Lacks(item: Item) {
    item.Opts? && item.ending.Lacking?
  }

  /** Only the very last element can lack its argument. */
  predicate LegalLine(table: Table, line: Line) {
    && (forall i | 0 <= i < |line.items| :: Legal(table, line.items[i]))
    && (forall i | 0 <= i < |line.items| && Lacks(line.items[i]) :: i == |line.items| - 1 && line.tail == None)
  }

  function Rest(line: Line): Line
    requires line.items != []
  {
    line.(items := line.items[1..])
  }

  function Text(line: Line): Argv
    decreases |line.items|
  {
    if line.items != [] then Written(line.items[0]) + Text(Rest(line))
    else if line.tail.Some? then ["--"] + line.tail.value
    else []
  }

  function Outs(quiet: bool, table: Table, line: Line): seq<Out>
    decreases |line.items|
  {
    if line.items == [] then [] else Meant(quiet, table, line.items[0]) + Outs(quiet, table, Rest(line))
  }

  /** The elements with options, their arguments, and "--". */
  function OptionElements(line: Line): Argv
    decreases |line.items|
  {
    if line.items != [] then
      (if line.items[0].Opts? then Written(line.items[0]) else []) + OptionElements(Rest(line))
    else if line.tail.Some? then ["--"]
    else []
  }

  function OtherElements(line: Line): Argv
    decreases |line.items|
  {
    if line.items != [] then
      (if line.items[0].Other? then Written(line.items[0]) else []) + OtherElements(Rest(line))
    else if line.tail.Some? then line.tail.value
    else []
  }

  // ----- reading it back -----

  lemma KindSays(quiet: bool, table: Table, c: char, a: Arity)
    requires Proper(table) && Says(table, c, a)
    ensures KindOf(OptString(quiet, table), c) == KindFor(a)
  {
    var i :| 0 <= i < |table| && table[i] == Letter(c, a);
    KindOfLetter(quiet, table, i);
  }

  lemma KindOfFlag(quiet: bool, table: Table, c: char)
    requires Proper(table) && FlagOk(table, c)
    ensures KindOf(OptString(quiet, table), c) == if Says(table, c, NoArg) then Flag else Unknown
  {
    if Says(table, c, NoArg) { KindSays(quiet, table, c, NoArg); } else { KindOfUnknown(quiet, table, c); }
  }

  lemma {:induction false} FlagsTakeNone(quiet: bool, table: Table, flags: string, more: string)
    requires Proper(table) && forall k | 0 <= k < |flags| :: FlagOk(table, flags[k])
    ensures TakesNext(OptString(quiet, table), flags + more) == TakesNext(OptString(quiet, table), more)
    decreases |flags|
  {
    if flags == "" {
      assert flags + more == more;
    } else {
      assert (flags + more)[1..] == flags[1..] + more;
      KindOfFlag(quiet, table, flags[0]);
      FlagsTakeNone(quiet, table, flags[1..], more);
    }
  }

  /** What is handed out when the letters in rest are still to be read at
      place i; without any the element is done with. */
  function Coming(o: string, a: Argv, i: nat, rest: string): seq<Out>
    requires i < |a|
  {
    if rest == "" then OutsFrom(o, a, i + 1, "") else OutsFrom(o, a, i, rest)
  }

  lemma {:induction false} FlagsRead(quiet: bool, table: Table, a: Argv, i: nat, flags: string, more: string)
    requires Proper(table) && i < |a| && forall k | 0 <= k < |flags| :: FlagOk(table, flags[k])
    ensures var o := OptString(quiet, table);
      Coming(o, a, i, flags + more) == FlagOuts(table, flags) + Coming(o, a, i, more)
    decreases |flags|
  {
    if flags == "" {
      assert flags + more == more;
    } else {
      assert flags + more == [flags[0]] + (flags[1..] + more);
      FlagsRead(quiet, table, a, i, flags[1..], more);
      FlagThen(quiet, table, a, i, flags, more);
    }
  }

  lemma FlagThen(quiet: bool, table: Table, a: Argv, i: nat, flags: string, more: string)
    requires Proper(table) && i < |a| && flags != "" && FlagOk(table, flags[0])
    requires var o := OptString(quiet, table);
      Coming(o, a, i, flags[1..] + more) == FlagOuts(table, flags[1..]) + Coming(o, a, i, more)
    ensures var o := OptString(quiet, table);
      Coming(o, a, i, [flags[0]] + (flags[1..] + more)) == FlagOuts(table, flags) + Coming(o, a, i, more)
  {
    FlagRead(quiet, table, a, i, flags[0], flags[1..] + more);
  }

  lemma FlagRead(quiet: bool, table: Table, a: Argv, i: nat, c: char, more: string)
    requires Proper(table) && i < |a| && FlagOk(table, c)
    ensures var o := OptString(quiet, table);
      Coming(o, a, i, [c] + more) == [Out(if Says(table, c, NoArg) then c else '?', None)] + Coming(o, a, i, more)
  {
    assert ([c] + more)[1..] == more;
    KindOfFlag(quiet, table, c);
  }

  /** The elements that an ending needs are there. */
  predicate HasArg(a: Argv, i: nat, e: Ending) {
    (e.Separate? ==> i + 1 < |a| && a[i + 1] == e.arg) && (e.Lacking? ==> i + 1 == |a|)
  }

  lemma EndKind(quiet: bool, table: Table, e: Ending)
    requires Proper(table) && e != Nothing && EndingOk(table, e)
    ensures var k := KindOf(OptString(quiet, table), e.c);
      if e.Bare? then k == MayHaveArg else k == NeedsArg || (e.Attached? && k == MayHaveArg)
    ensures EndText(e) == [e.c] + if e.Attached? then e.arg else ""
  {
    match e
    case Bare(c) => KindSays(quiet, table, c, Optional);
    case Attached(c, _) =>
      if Says(table, c, Required) { KindSays(quiet, table, c, Required); } else { KindSays(quiet, table, c, Optional); }
    case Separate(c, _) => KindSays(quiet, table, c, Required);
    case Lacking(c) => KindSays(quiet, table, c, Required);
  }

  lemma EndTakes(quiet: bool, table: Table, e: Ending)
    requires Proper(table) && EndingOk(table, e)
    ensures TakesNext(OptString(quiet, table), EndText(e)) <==> e.Separate? || e.Lacking?
  {
    if e != Nothing { EndKind(quiet, table, e); }
  }

  lemma EndRead(quiet: bool, table: Table, a: Argv, i: nat, e: Ending)
    requires Proper(table) && i < |a| && EndingOk(table, e) && HasArg(a, i, e)
    ensures var o := OptString(quiet, table);
      Coming(o, a, i, EndText(e)) == EndOuts(quiet, e) + OutsFrom(o, a, if e.Separate? then i + 2 else i + 1, "")
  {
    if e != Nothing {
      EndKind(quiet, table, e);
      MissingOf(quiet, table);
      assert EndText(e)[1..] == if e.Attached? then e.arg else "";
    }
  }

  /** An element with options has the width it was written with ... */
  lemma OptsWidth(quiet: bool, table: Table, a: Argv, i: nat, item: Item)
    requires Proper(table) && i < |a| && item.Opts? && Legal(table, item)
    requires a[i] == Written(item)[0] && HasArg(a, i, item.ending)
    ensures a[i] != "--" && !NonOption(a[i]) && a[i][1..] == item.flags + EndText(item.ending)
    ensures Width(OptString(quiet, table), a, i, item.flags + EndText(item.ending)) == |Written(item)|
  {
    var more := EndText(item.ending);
    assert a[i] == "-" + (item.flags + more);
    assert "--"[1..] == "-";
    FlagsTakeNone(quiet, table, item.flags, more);
    EndTakes(quiet, table, item.ending);
  }

  /** ... and is read as it was meant. */
  lemma OptsRead(quiet: bool, table: Table, a: Argv, i: nat, item: Item)
    requires Proper(table) && i < |a| && item.Opts? && Legal(table, item) && HasArg(a, i, item.ending)
    requires i + |Written(item)| <= |a|
    ensures var o := OptString(quiet, table);
      Coming(o, a, i, item.flags + EndText(item.ending))
        == Meant(quiet, table, item) + OutsFrom(o, a, i + |Written(item)|, "")
  {
    FlagsRead(quiet, table, a, i, item.flags, EndText(item.ending));
    EndRead(quiet, table, a, i, item.ending);
  }

  /** What one item of the line adds to the reading. */
  lemma ItemRead(quiet: bool, table: Table, a: Argv, i: nat, item: Item)
    requires Proper(table) && Legal(table, item) && i + |Written(item)| <= |a|
    requires forall k | 0 <= k < |Written(item)| :: a[i + k] == Written(item)[k]
    requires Lacks(item) ==> i + 1 == |a|
    ensures var o, w := OptString(quiet, table), Written(item); var j := i + |w|;
      && OutsFrom(o, a, i, "") == Meant(quiet, table, item) + OutsFrom(o, a, j, "")
      && OptionsFrom(o, a, i) == (if item.Opts? then w else []) + OptionsFrom(o, a, j)
      && OthersFrom(o, a, i) == (if item.Other? then w else []) + OthersFrom(o, a, j)
  {
    assert a[i + 0] == Written(item)[0];
    if item.Opts? { OptsItem(quiet, table, a, i, item); } else { OtherItem(quiet, table, a, i, item); }
  }

  lemma OptsItem(quiet: bool, table: Table, a: Argv, i: nat, item: Item)
    requires Proper(table) && Legal(table, item) && item.Opts? && i + |Written(item)| <= |a|
    requires forall k | 0 <= k < |Written(item)| :: a[i + k] == Written(item)[k]
    requires Lacks(item) ==> i + 1 == |a|
    ensures var o, w := OptString(quiet, table), Written(item); var j := i + |w|;
      && OutsFrom(o, a, i, "") == Meant(quiet, table, item) + OutsFrom(o, a, j, "")
      && OptionsFrom(o, a, i) == w + OptionsFrom(o, a, j) && OthersFrom(o, a, i) == OthersFrom(o, a, j)
  {
    assert a[i + 0] == Written(item)[0];
    assert item.ending.Separate? ==> a[i + 1] == Written(item)[1];
    OptsOuts(quiet, table, a, i, item);
    OptsElements(quiet, table, a, i, item, Written(item));
  }

  lemma OptsOuts(quiet: bool, table: Table, a: Argv, i: nat, item: Item)
    requires Proper(table) && item.Opts? && Legal(table, item) && i + |Written(item)| <= |a|
    requires a[i] == Written(item)[0] && HasArg(a, i, item.ending)
    ensures var o := OptString(quiet, table);
      OutsFrom(o, a, i, "") == Meant(quiet, table, item) + OutsFrom(o, a, i + |Written(item)|, "")
  {
    OptsWidth(quiet, table, a, i, item);
    OptsRead(quiet, table, a, i, item);
  }

  lemma OptsElements(quiet: bool, table: Table, a: Argv, i: nat, item: Item, w: Argv)
    requires Proper(table) && item.Opts? && Legal(table, item) && w == Written(item) && i + |w| <= |a|
    requires a[i] == w[0] && HasArg(a, i, item.ending) && forall k | 0 <= k < |w| :: a[i + k] == w[k]
    ensures var o := OptString(quiet, table);
      && OptionsFrom(o, a, i) == w + OptionsFrom(o, a, i + |w|) && OthersFrom(o, a, i) == OthersFrom(o, a, i + |w|)
  {
    OptsWidth(quiet, table, a, i, item);
    assert a[i..i + |w|] == w;
  }

  lemma OtherItem(quiet: bool, table: Table, a: Argv, i: nat, item: Item)
    requires Legal(table, item) && item.Other? && i < |a| && a[i] == item.arg
    ensures var o := OptString(quiet, table);
      && OutsFrom(o, a, i, "") == OutsFrom(o, a, i + 1, "")
      && OptionsFrom(o, a, i) == OptionsFrom(o, a, i + 1)
      && OthersFrom(o, a, i) == [item.arg] + OthersFrom(o, a, i + 1)
  {
    assert NonOption(a[i]) && a[i] != "--";
  }

  lemma TextCut(a: Argv, i: nat, w: Argv, more: Argv)
    requires i <= |a| && a[i..] == w + more
    ensures i + |w| <= |a| && a[i..i + |w|] == w && a[i + |w|..] == more
    ensures forall k | 0 <= k < |w| :: a[i + k] == w[k]
  {
    assert a[i..][..|w|] == w;
    assert a[i..][|w|..] == more;
    forall k | 0 <= k < |w| ensures a[i + k] == w[k] { assert a[i..][k] == w[k]; }
  }

  lemma LegalRest(table: Table, line: Line)
    requires LegalLine(table, line) && line.items != []
    ensures LegalLine(table, Rest(line)) && Legal(table, line.items[0])
    ensures Lacks(line.items[0]) ==> Text(Rest(line)) == [] && |Written(line.items[0])| == 1
  {
    forall k | 0 <= k < |line.items| - 1 ensures Rest(line).items[k] == line.items[k + 1] {}
  }

  /** Reading a command line gives what was written: the options with their
      arguments, the elements they take up, and the other elements. */
  lemma {:induction false} LineRead(quiet: bool, table: Table, line: Line, a: Argv, i: nat)
    requires Proper(table) && LegalLine(table, line) && i <= |a| && a[i..] == Text(line)
    ensures var o := OptString(quiet, table);
      && OutsFrom(o, a, i, "") == Outs(quiet, table, line)
      && OptionsFrom(o, a, i) == OptionElements(line)
      && OthersFrom(o, a, i) == OtherElements(line)
    decreases |line.items|
  {
    if line.items == [] {
      TailRead(quiet, table, line, a, i);
    } else {
      var item, w := line.items[0], Written(line.items[0]);
      TextCut(a, i, w, Text(Rest(line)));
      LegalRest(table, line);
      LineRead(quiet, table, Rest(line), a, i + |w|);
      ItemRead(quiet, table, a, i, item);
      LineFirst(quiet, table, line);
    }
  }

  /** A line by its first item and the rest. */
  lemma LineFirst(quiet: bool, table: Table, line: Line)
    requires line.items != []
    ensures var item, w := line.items[0], Written(line.items[0]);
      && Outs(quiet, table, line) == Meant(quiet, table, item) + Outs(quiet, table, Rest(line))
      && OptionElements(line) == (if item.Opts? then w else []) + OptionElements(Rest(line))
      && OtherElements(line) == (if item.Other? then w else []) + OtherElements(Rest(line))
  {
  }

  lemma TailRead(quiet: bool, table: Table, line: Line, a: Argv, i: nat)
    requires line.items == [] && i <= |a| && a[i..] == Text(line)
    ensures var o := OptString(quiet, table);
      && OutsFrom(o, a, i, "") == [] && OptionsFrom(o, a, i) == OptionElements(line)
      && OthersFrom(o, a, i) == OtherElements(line)
  {
    if line.tail.Some? { TextCut(a, i, ["--"], line.tail.value); }
  }

  /** What a program gets from getopt for a command line, and how it is left:
      the program name, the options with their arguments and "--", and then
      the other arguments, each in the order in which they were written. */
  lemma WholeLine(quiet: bool, table: Table, program: string, line: Line)
    requires Proper(table) && LegalLine(table, line)
    ensures var o, a := OptString(quiet, table), [program] + Text(line);
      && OutsFrom(o, a, 1, "") == Outs(quiet, table, line)
      && Permuted(o, a) == [program] + OptionElements(line) + OtherElements(line)
      && |OptionsFrom(o, a, 1)| == |OptionElements(line)|
  {
    var a := [program] + Text(line);
    assert a[1..] == Text(line);
    LineRead(quiet, table, line, a, 1);
  }

  /** A table without the three letters that mean something else asks for the
      permuting order. */
  lemma TablePermutes(quiet: bool, table: Table)
    requires Proper(table) && forall i | 0 <= i < |table| :: table[i].c !in {'+', '-', ';'}
    ensures Permutes(OptString(quiet, table))
  {
    var o := OptString(quiet, table);
    assert !Known(table, ';');
    NotWritten(table, ';');
    var i := Index(o, 'W');
    if 0 <= i < |o| - 1 { assert o[i + 1] in o; }
  }

  // ----- every argv is a command line -----

  /** The first arity that the table gives a letter, if it is there. */
  lemma ArityOf(table: Table, c: char) returns (a: Option<Arity>)
    ensures if a.Some? then Says(table, c, a.value) else !Known(table, c)
  {
    if i :| 0 <= i < |table| && table[i].c == c {
      a := Some(table[i].arity);
      assert table[i] == Letter(c, table[i].arity);
    } else {
      a := None;
    }
  }

  /** The letters of an element: flags, and how they end, given the elements after it. */
  lemma {:induction false} Letters(table: Table, rest: string, next: Argv) returns (flags: string, e: Ending)
    ensures flags + EndText(e) == rest && EndingOk(table, e)
    ensures forall i | 0 <= i < |flags| :: FlagOk(table, flags[i])
    ensures (e.Separate? ==> next != [] && next[0] == e.arg) && (e.Lacking? ==> next == [])
  {
    flags, e := "", Nothing;
    if rest != "" {
      var c, more := rest[0], rest[1..];
      var a := ArityOf(table, c);
      if a == Some(Required) {
        e := if more != "" then Attached(c, more) else if next != [] then Separate(c, next[0]) else Lacking(c);
      } else if a == Some(Optional) {
        e := if more != "" then Attached(c, more) else Bare(c);
      } else {
        assert a == None || a.value == NoArg;
        assert FlagOk(table, c);
        var fs;
        fs, e := Letters(table, more, next);
        flags := [c] + fs;
        assert flags + EndText(e) == [c] + more;
        forall i | 0 < i < |flags| ensures FlagOk(table, flags[i]) { assert flags[i] == fs[i - 1]; }
      }
    }
  }

  /** Whatever the arguments are, they can be written as a command line. */
  lemma {:induction false} LineOf(table: Table, a: Argv) returns (line: Line)
    ensures LegalLine(table, line) && Text(line) == a
    decreases |a|
  {
    line := Line([], None);
    if a != [] {
      if a[0] == "--" {
        line := Line([], Some(a[1..]));
      } else if NonOption(a[0]) {
        line := LineOf(table, a[1..]);
        line := OneMore(table, Other(a[0]), line);
      } else {
        var flags, e := Letters(table, a[0][1..], a[1..]);
        assert a[0] == "-" + a[0][1..];
        line := LineOf(table, if e.Separate? then a[2..] else a[1..]);
        assert a == Written(Opts(flags, e)) + Text(line);
        if e.Lacking? { TextNone(line); }
        line := OneMore(table, Opts(flags, e), line);
      }
    }
  }

  lemma TextNone(line: Line)
    requires Text(line) == []
    ensures line == Line([], None)
  {
  }

  lemma OneMore(table: Table, item: Item, line: Line) returns (l: Line)
    requires LegalLine(table, line) && Legal(table, item) && (Lacks(item) ==> line == Line([], None))
    ensures LegalLine(table, l) && Text(l) == Written(item) + Text(line)
  {
    l := line.(items := [item] + line.items);
    assert Rest(l) == line;
    forall i | 0 < i < |l.items| ensures l.items[i] == line.items[i - 1] {}
  }
}
