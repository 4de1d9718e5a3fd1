// What the calls of a registration meet, one outcome for each call to the
// store, and how a transaction that is retried after deadlocks (begin_wordlist
// in wordlists.c, register_words in register.c) comes to its end.

module Schedules {
  import opened Options
  import opened Datastore

  /** What a call to the store meets: nothing, a deadlock, or an error the program dies of. */
  datatype Outcome = Fine | Deadlock | Broken

  /** What the coming calls meet; after these all is fine. */
  type Schedule = seq<Outcome>

  /** How often an outcome other than Fine still lies ahead. */
  function Ahead(o: Outcome, s: Schedule): nat {
    if s == [] then 0 else (if s[0] == o then 1 else 0) + Ahead(o, s[1..])
  }

  /** What the next call meets. */
  function First(s: Schedule): Outcome {
    if s == [] then Fine else s[0]
  }

  function Rest(s: Schedule): (r: Schedule)
    ensures |r| <= |s| && (First(s) != Fine ==> |r| < |s|)
  {
    if s == [] then [] else s[1..]
  }

  /** Nothing that lies ahead in r was not ahead in s. */
  predicate Within(r: Schedule, s: Schedule) {
    |r| <= |s| && Ahead(Broken, r) <= Ahead(Broken, s) && Ahead(Deadlock, r) <= Ahead(Deadlock, s)
  }

  // ----- calls in a row -----

  /** How k calls in a row end: with the first outcome that is not Fine, if
      there is one, and what then still lies ahead. */
  function Calls(k: nat, s: Schedule): (Outcome, Schedule) {
    if k == 0 then (Fine, s)
    else if First(s) != Fine then (First(s), Rest(s))
    else Calls(k - 1, Rest(s))
  }

  lemma {:induction false} CallsSplit(j: nat, k: nat, s: Schedule)
    ensures Calls(j + k, s) == if Calls(j, s).0 == Fine then Calls(k, Calls(j, s).1) else Calls(j, s)
  {
    if j > 0 && First(s) == Fine { CallsSplit(j - 1, k, Rest(s)); }
  }

  lemma CallsTwo(s: Schedule)
    ensures Calls(2, s) == if First(s) != Fine then (First(s), Rest(s)) else (First(Rest(s)), Rest(Rest(s)))
  {
    var r := Rest(s);
    assert Calls(1, r) == if First(r) != Fine then (First(r), Rest(r)) else Calls(0, Rest(r));
  }

  /** Calls use up outcomes, and at least the one that ends them. */
  lemma {:induction false} CallsUse(k: nat, s: Schedule)
    ensures Within(Calls(k, s).1, s)
    ensures Calls(k, s).0 == Deadlock ==>
      Ahead(Deadlock, Calls(k, s).1) < Ahead(Deadlock, s) && |Calls(k, s).1| < |s|
    ensures Calls(k, s).0 == Broken ==> Ahead(Broken, s) > 0
  {
    if k > 0 && First(s) == Fine { CallsUse(k - 1, Rest(s)); }
  }

  // ----- opening a transaction -----

  /** The list version that the n-th transaction finds. */
  type Versions = nat -> U32

  /** An open transaction: which one it is, the list version as far as it is
      known (else 0), and what the coming calls meet. */
  datatype Start = Start(round: nat, version: U32, rest: Schedule)

  /** How the reading of the list's own data ends: the message counts, the
      version (here v) if it is not known, and the encoding.  It gives the
      outcome, the version known then, and what still lies ahead.  An abort at
      the version leaves no transaction for the next read, and stops the program. */
  function OwnData(v: U32, version: U32, s: Schedule): (r: (Outcome, U32, Schedule))
    ensures |r.2| <= |s| && (r.0 == Deadlock ==> |r.2| < |s|)
  {
    if First(s) != Fine then (First(s), version, Rest(s))
    else if version == 0 && First(Rest(s)) != Fine then (Broken, 0, Rest(Rest(s)))
    else
      var r := if version == 0 then Rest(Rest(s)) else Rest(s);
      (First(r), if version == 0 then v else version, Rest(r))
  }

  /** The transaction that begin_wordlist opens, or None if the program stops. */
  function Opening(vs: Versions, st: Start): Option<Start>
    decreases |st.rest|
  {
    if First(st.rest) != Fine then Opening(vs, st.(rest := Rest(st.rest)))
    else
      match OwnData(vs(st.round + 1), st.version, Rest(st.rest))
      case (Fine, v, s) => Some(Start(st.round + 1, v, s))
      case (Deadlock, v, s) => Opening(vs, Start(st.round + 1, v, s))
      case (Broken, _, _) => None
  }

  /** Some pass meets a deadlock while it reads the unknown version, and every
      pass before it is ended by a deadlock at another of its calls. */
  predicate StopsAtVersion(vs: Versions, st: Start)
    decreases |st.rest|
  {
    var s0 := Rest(st.rest);
    var s1 := Rest(s0);
    var s2 := Rest(s1);
    st.version == 0 &&
    if First(st.rest) == Deadlock then StopsAtVersion(vs, st.(rest := s0))
    else if First(s0) == Deadlock then StopsAtVersion(vs, Start(st.round + 1, 0, s1))
    else
      || First(s1) == Deadlock
      || (First(s2) == Deadlock && StopsAtVersion(vs, Start(st.round + 1, vs(st.round + 1), Rest(s2))))
  }

  lemma WithinRest(s: Schedule)
    ensures Within(Rest(s), s)
    ensures Ahead(Broken, s) == 0 ==> First(s) != Broken
    ensures First(s) == Deadlock ==> Ahead(Deadlock, Rest(s)) < Ahead(Deadlock, s)
  {
  }

  lemma OwnDataStops(v: U32, version: U32, s: Schedule)
    ensures Ahead(Broken, s) == 0 ==>
      (OwnData(v, version, s).0 == Broken <==> version == 0 && First(s) == Fine && First(Rest(s)) == Deadlock)
  {
    WithinRest(s);
    WithinRest(Rest(s));
    WithinRest(Rest(Rest(s)));
  }

  /** A store that never breaks: the program stops exactly at an unknown version. */
  lemma {:induction false} OpeningStops(vs: Versions, st: Start)
    requires Ahead(Broken, st.rest) == 0
    ensures Opening(vs, st).None? <==> StopsAtVersion(vs, st)
    decreases |st.rest|
  {
    var s0 := Rest(st.rest);
    var s1 := Rest(s0);
    var s2 := Rest(s1);
    WithinRest(st.rest);
    WithinRest(s0);
    WithinRest(s1);
    WithinRest(s2);
    if First(st.rest) == Deadlock {
      OpeningStops(vs, st.(rest := s0));
    } else if First(s0) == Deadlock {
      OpeningStops(vs, Start(st.round + 1, st.version, s1));
    } else if st.version != 0 {
      if First(s1) == Deadlock { OpeningStops(vs, Start(st.round + 1, st.version, s2)); }
    } else if First(s1) == Fine && First(s2) == Deadlock {
      OpeningStops(vs, Start(st.round + 1, vs(st.round + 1), Rest(s2)));
    }
  }

  /** What the opened transaction finds; a version once known stays. */
  lemma {:induction false} OpeningUse(vs: Versions, st: Start)
    requires Opening(vs, st).Some?
    ensures var r := Opening(vs, st).value;
      r.round > st.round && Within(r.rest, st.rest) && (st.version != 0 ==> r.version == st.version)
    decreases |st.rest|
  {
    var s0 := Rest(st.rest);
    var s1 := Rest(s0);
    var s2 := Rest(s1);
    WithinRest(st.rest);
    WithinRest(s0);
    WithinRest(s1);
    WithinRest(s2);
    var v := if st.version == 0 then vs(st.round + 1) else st.version;
    var s := if st.version == 0 then s2 else s1;
    if First(st.rest) != Fine {
      OpeningUse(vs, st.(rest := s0));
    } else if First(s0) == Deadlock {
      OpeningUse(vs, Start(st.round + 1, st.version, s1));
    } else if First(s) == Deadlock {
      OpeningUse(vs, Start(st.round + 1, v, Rest(s)));
    }
  }

  // ----- trying again -----

  /** The transaction that holds the result of so many calls in a row, tried
      again after each deadlock; None if the program stops. */
  function Ending(vs: Versions, calls: nat, tries: nat, st: Start): Option<Start> {
    if tries == 0 then None
    else
      match Calls(calls, st.rest)
      case (Fine, s) => Some(st.(rest := s))
      case (Broken, _) => None
      case (Deadlock, s) =>
        match Opening(vs, st.(rest := s))
        case None => None
        case Some(next) => Ending(vs, calls, tries - 1, next)
  }

  /** After one of the deadlocks that end a try, begin_wordlist stops at the version. */
  predicate StopsBetweenTries(vs: Versions, calls: nat, st: Start)
    decreases |st.rest|
  {
    var (o, s) := Calls(calls, st.rest);
    CallsUse(calls, st.rest);
    o == Deadlock &&
    match Opening(vs, st.(rest := s))
    case None => StopsAtVersion(vs, st.(rest := s))
    case Some(next) => OpeningUse(vs, st.(rest := s)); StopsBetweenTries(vs, calls, next)
  }

  /** With a store that never breaks and fewer deadlocks than tries, only the
      reading of an unknown version can stop the program. */
  lemma {:induction false} EndingStops(vs: Versions, calls: nat, tries: nat, st: Start)
    requires Ahead(Broken, st.rest) == 0 && Ahead(Deadlock, st.rest) < tries
    ensures Ending(vs, calls, tries, st).None? <==> StopsBetweenTries(vs, calls, st)
    decreases tries
  {
    CallsUse(calls, st.rest);
    var (o, s) := Calls(calls, st.rest);
    if o == Deadlock {
      var again := st.(rest := s);
      OpeningStops(vs, again);
      if Opening(vs, again).Some? {
        OpeningUse(vs, again);
        EndingStops(vs, calls, tries - 1, Opening(vs, again).value);
      }
    }
  }

  /** A known version is never in the way. */
  lemma {:induction false} KnownNeverStops(vs: Versions, calls: nat, st: Start)
    requires st.version != 0
    ensures !StopsAtVersion(vs, st) && !StopsBetweenTries(vs, calls, st)
    decreases |st.rest|
  {
    var (o, s) := Calls(calls, st.rest);
    CallsUse(calls, st.rest);
    if o == Deadlock && Opening(vs, st.(rest := s)).Some? {
      OpeningUse(vs, st.(rest := s));
      KnownNeverStops(vs, calls, Opening(vs, st.(rest := s)).value);
    }
  }

  lemma EndingMeaning(vs: Versions, calls: nat, tries: nat, st: Start)
    ensures Ahead(Broken, st.rest) == 0 && Ahead(Deadlock, st.rest) < tries ==>
      (Ending(vs, calls, tries, st).Some? <==> !StopsBetweenTries(vs, calls, st))
    ensures st.version != 0 ==> !StopsBetweenTries(vs, calls, st)
  {
    if Ahead(Broken, st.rest) == 0 && Ahead(Deadlock, st.rest) < tries { EndingStops(vs, calls, tries, st); }
    if st.version != 0 { KnownNeverStops(vs, calls, st); }
  }

  // ----- the tries themselves -----

  /** Tries one after the other: each but the last is ended by a deadlock, and
      the next is made in the transaction that begin_wordlist opens; in the
      last all calls go through. */
  predicate Tries(vs: Versions, calls: nat, starts: seq<Start>) {
    && starts != []
    && (forall i | 0 <= i < |starts| - 1 :: Follows(vs, calls, starts[i], starts[i + 1]))
    && Calls(calls, starts[|starts| - 1].rest).0 == Fine
  }

  predicate Follows(vs: Versions, calls: nat, a: Start, b: Start) {
    Calls(calls, a.rest).0 == Deadlock && Opening(vs, a.(rest := Calls(calls, a.rest).1)) == Some(b)
  }

  /** It ends well after so many tries or fewer. */
  ghost predicate Succeeds(vs: Versions, calls: nat, tries: nat, st: Start) {
    exists starts :: Tries(vs, calls, starts) && starts[0] == st && |starts| <= tries
  }

  lemma {:induction false} EndingTries(vs: Versions, calls: nat, tries: nat, st: Start) returns (starts: seq<Start>)
    requires Ending(vs, calls, tries, st).Some?
    ensures Tries(vs, calls, starts) && starts[0] == st && |starts| <= tries
  {
    var (o, s) := Calls(calls, st.rest);
    if o == Fine {
      starts := [st];
    } else {
      var next := Opening(vs, st.(rest := s)).value;
      var more := EndingTries(vs, calls, tries - 1, next);
      starts := [st] + more;
      forall i | 0 <= i < |starts| - 1 ensures Follows(vs, calls, starts[i], starts[i + 1]) {
        if i > 0 { assert Follows(vs, calls, more[i - 1], more[i]); }
      }
    }
  }

  lemma {:induction false} TriesEnd(vs: Versions, calls: nat, tries: nat, starts: seq<Start>)
    requires Tries(vs, calls, starts) && |starts| <= tries
    ensures var last := starts[|starts| - 1];
      Ending(vs, calls, tries, starts[0]) == Some(last.(rest := Calls(calls, last.rest).1))
    decreases tries
  {
    if |starts| > 1 {
      var more := starts[1..];
      assert Follows(vs, calls, starts[0], starts[1]);
      forall i | 0 <= i < |more| - 1 ensures Follows(vs, calls, more[i], more[i + 1]) {
        assert Follows(vs, calls, starts[i + 1], starts[i + 2]);
      }
      TriesEnd(vs, calls, tries - 1, more);
    }
  }

  /** The end is there exactly if one of so many tries meets no deadlock and
      neither it nor what comes before it stops the program. */
  lemma EndingSucceeds(vs: Versions, calls: nat, tries: nat, st: Start)
    ensures Ending(vs, calls, tries, st).Some? <==> Succeeds(vs, calls, tries, st)
  {
    if Ending(vs, calls, tries, st).Some? {
      var starts := EndingTries(vs, calls, tries, st);
    }
    if Succeeds(vs, calls, tries, st) {
      var starts :| Tries(vs, calls, starts) && starts[0] == st && |starts| <= tries;
      TriesEnd(vs, calls, tries, starts);
    }
  }
}
