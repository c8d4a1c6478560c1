/** Case numbers derived from a count, with a unique constraint and retries, under concurrent creation. */
module CaseNumbers {
  import opened Basics
  import opened Decimals
  import LikeSearch

  /** The numbers of one year start with this. */
  function Prefix(year: nat): string { "NV-" + Digits(year) + "-" }

  /** `NV-2026-000042`. */
  function Number(year: nat, k: nat): string { Prefix(year) + Padded(k, 6) }

  /** `COUNT(*) ... WHERE case_number LIKE 'NV-<year>-%'`. */
  function Count(cases: seq<string>, year: nat): nat {
    if cases == [] then 0
    else Count(cases[..|cases| - 1], year) + if LikeSearch.Like(cases[|cases| - 1], Prefix(year) + "%") then 1 else 0
  }

  // ---------------------------------------------------- the numbers themselves

  lemma UptoDash(a: string, x: string, b: string, y: string)
    requires a + "-" + x == b + "-" + y && '-' !in a && '-' !in b
    ensures a == b && x == y
  {
    var s := a + "-" + x;
    assert s[|a|] == '-' && s[|b|] == '-' by {
      assert s == b + "-" + y;
    }
    assert forall i :: 0 <= i < |a| ==> s[i] == a[i];
    assert forall i :: 0 <= i < |b| ==> s[i] == b[i];
    assert |a| == |b|;
    assert a == s[..|a|] && b == s[..|b|];
    assert x == s[|a| + 1..] && y == s[|b| + 1..];
  }

  /** The table positions the LIKE condition selects. */
  ghost function OfYear(cases: seq<string>, year: nat): set<nat> {
    set i: nat | i < |cases| && Prefix(year) <= cases[i]
  }

  lemma {:induction false} CountIs(cases: seq<string>, year: nat)
    ensures Count(cases, year) == |OfYear(cases, year)|
  {
    if cases == [] {
      assert OfYear(cases, year) == {};
    } else {
      var n := |cases| - 1;
      CountIs(cases[..n], year);
      PrefixIsPlain(year);
      LikeSearch.LikePrefix(cases[n], Prefix(year));
      assert OfYear(cases, year) == OfYear(cases[..n], year) + if Prefix(year) <= cases[n] then {n} else {};
    }
  }

  /** The example the format is documented with. */
  lemma NumberLooks()
    ensures Number(2026, 42) == "NV-2026-000042"
  {
    assert Digits(2026) == "2026" by {
      assert Digits(2026) == Digits(202) + "6" && Digits(202) == Digits(20) + "2" && Digits(20) == Digits(2) + "0";
    }
    assert Padded(42, 6) == "000042" by {
      assert Digits(42) == "42";
    }
  }

  /** Year and count can be read off a number. */
  lemma NumberInjective(y1: nat, k1: nat, y2: nat, k2: nat)
    requires Number(y1, k1) == Number(y2, k2)
    ensures y1 == y2 && k1 == k2
  {
    var r1, r2 := Number(y1, k1)[3..], Number(y2, k2)[3..];
    assert r1 == Digits(y1) + "-" + Padded(k1, 6) && r2 == Digits(y2) + "-" + Padded(k2, 6);
    UptoDash(Digits(y1), Padded(k1, 6), Digits(y2), Padded(k2, 6));
    DigitsInjective(y1, y2);
    PaddedInjective(k1, k2, 6);
  }

  /** The LIKE prefix finds a number exactly under its own year. */
  lemma FoundIffOfYear(y1: nat, k: nat, y2: nat)
    ensures LikeSearch.Like(Number(y1, k), Prefix(y2) + "%") <==> y1 == y2
  {
    PrefixIsPlain(y2);
    LikeSearch.LikePrefix(Number(y1, k), Prefix(y2));
    PrefixOfYear(y1, k, y2);
  }

  lemma PrefixIsPlain(year: nat)
    ensures LikeSearch.Plain(Prefix(year))
  {
    assert LikeSearch.Plain(Digits(year));
  }

  lemma PrefixOfYear(y1: nat, k: nat, y2: nat)
    ensures Prefix(y2) <= Number(y1, k) <==> y1 == y2
  {
    var n := Number(y1, k);
    if Prefix(y2) <= n {
      var rest := n[|Prefix(y2)|..];
      assert n == Prefix(y2) + rest;
      assert n[3..] == Digits(y1) + "-" + Padded(k, 6);
      assert n[3..] == Digits(y2) + "-" + rest;
      UptoDash(Digits(y1), Padded(k, 6), Digits(y2), rest);
      DigitsInjective(y1, y2);
    }
  }

  // ------------------------------------------------------------- the protocol

  /** `_MAX_NUMBER_ATTEMPTS`. */
  const ATTEMPTS := 5

  /**
   * A creation on its way. `started` and `counted` remember how many cases were committed when it began and
   * when it last counted; the program keeps neither.
   */
  datatype Creation =
    | Ready(attempt: nat, started: nat)
    | Proposing(year: nat, k: nat, attempt: nat, started: nat, counted: nat)
    | Pending(year: nat, k: nat)
    | Refused(started: nat)

  datatype State = State(cases: seq<string>, creations: map<nat, Creation>)

  const START := State([], map[])

  datatype Step =
    | Begin(t: nat)
    | Generate(t: nat, year: nat)
    | Insert(t: nat)
    | Commit(t: nat)
    | Abort(t: nat)

  /** Another transaction holds an uncommitted row with this number. */
  ghost predicate HeldByOther(s: State, t: nat, number: string) {
    exists u :: u in s.creations && u != t && Holds(s.creations[u], number)
  }

  ghost predicate Holds(c: Creation, number: string) { c.Pending? && Number(c.year, c.k) == number }

  /**
   * One step of one request; `None` where it does not apply. An insert waits while another transaction holds
   * the number uncommitted, and fails once it is committed.
   */
  ghost function Do(s: State, step: Step): Option<State> {
    match step
    case Begin(t) =>
      if t in s.creations then None else Some(s.(creations := s.creations[t := Ready(0, |s.cases|)]))
    case Generate(t, year) =>
      if t !in s.creations || !s.creations[t].Ready? then None
      else
        var c := s.creations[t];
        Some(s.(creations := s.creations[t := Proposing(year, Count(s.cases, year) + 1, c.attempt, c.started, |s.cases|)]))
    case Insert(t) =>
      if t !in s.creations || !s.creations[t].Proposing? then None
      else
        var c := s.creations[t];
        if Number(c.year, c.k) in s.cases then
          var next := if c.attempt + 1 == ATTEMPTS then Refused(c.started) else Ready(c.attempt + 1, c.started);
          Some(s.(creations := s.creations[t := next]))
        else if HeldByOther(s, t, Number(c.year, c.k)) then None
        else Some(s.(creations := s.creations[t := Pending(c.year, c.k)]))
    case Commit(t) =>
      if t !in s.creations || !s.creations[t].Pending? then None
      else
        var c := s.creations[t];
        Some(State(s.cases + [Number(c.year, c.k)], s.creations - {t}))
    case Abort(t) =>
      if t !in s.creations then None else Some(s.(creations := s.creations - {t}))
  }

  // ------------------------------------------------------------ the invariant

  /** The committed numbers of a year are those from 1 to its count. */
  ghost predicate Consecutive(cases: seq<string>, year: nat) {
    forall k: nat :: Number(year, k) in cases <==> 1 <= k <= Count(cases, year)
  }

  ghost predicate WellFormed(cases: seq<string>) {
    && Distinct(cases)
    && (forall i :: 0 <= i < |cases| ==> IsNumber(cases[i]))
    && (forall year: nat :: Consecutive(cases, year))
  }

  ghost predicate IsNumber(s: string) { exists year: nat, k: nat :: s == Number(year, k) }

  ghost predicate CreationOk(s: State, t: nat)
    requires t in s.creations
  {
    match s.creations[t]
    case Ready(attempt, started) => attempt < ATTEMPTS && started + attempt <= |s.cases|
    case Proposing(year, k, attempt, started, counted) =>
      && attempt < ATTEMPTS && started + attempt <= counted <= |s.cases|
      && Number(year, k) !in s.cases[..counted] && 1 <= k <= Count(s.cases, year) + 1
    case Pending(year, k) => k == Count(s.cases, year) + 1
    case Refused(started) => started + ATTEMPTS <= |s.cases|
  }

  ghost predicate OneHolder(s: State, t: nat, u: nat)
    requires t in s.creations && u in s.creations
  {
    s.creations[t].Pending? && s.creations[u].Pending? && s.creations[t].year == s.creations[u].year ==> t == u
  }

  ghost predicate Inv(s: State) {
    && WellFormed(s.cases)
    && (forall t :: t in s.creations ==> CreationOk(s, t))
    && (forall t, u :: t in s.creations && u in s.creations ==> OneHolder(s, t, u))
  }

  lemma CountAppend(cases: seq<string>, year: nat, k: nat, y: nat)
    ensures Count(cases + [Number(year, k)], y) == Count(cases, y) + if y == year then 1 else 0
  {
    assert (cases + [Number(year, k)])[..|cases|] == cases;
    FoundIffOfYear(year, k, y);
  }

  /** Committing the next number of a year keeps every year consecutive. */
  lemma AppendKeepsWellFormed(cases: seq<string>, year: nat, k: nat)
    requires WellFormed(cases) && k == Count(cases, year) + 1
    ensures WellFormed(cases + [Number(year, k)])
  {
    var cases' := cases + [Number(year, k)];
    assert Consecutive(cases, year);
    assert Number(year, k) !in cases;
    assert IsNumber(Number(year, k));
    forall i | 0 <= i < |cases'| ensures IsNumber(cases'[i]) {
      assert i < |cases| ==> IsNumber(cases[i]);
    }
    forall y: nat ensures Consecutive(cases', y) {
      CountAppend(cases, year, k, y);
      AppendConsecutive(cases, year, k, y);
    }
  }

  lemma AppendConsecutive(cases: seq<string>, year: nat, k: nat, y: nat)
    requires WellFormed(cases) && k == Count(cases, year) + 1
    requires Count(cases + [Number(year, k)], y) == Count(cases, y) + if y == year then 1 else 0
    ensures Consecutive(cases + [Number(year, k)], y)
  {
    var cases' := cases + [Number(year, k)];
    assert Consecutive(cases, y);
    forall j: nat ensures Number(y, j) in cases' <==> 1 <= j <= Count(cases', y) {
      assert Number(y, j) in cases' <==> Number(y, j) in cases || Number(y, j) == Number(year, k);
      if Number(y, j) == Number(year, k) {
        NumberInjective(y, j, year, k);
      }
    }
  }

  lemma GenerateKeeps(s: State, step: Step, s': State)
    requires Inv(s) && step.Generate? && Do(s, step) == Some(s')
    ensures Inv(s')
  {
    var year := step.year;
    assert Consecutive(s.cases, year);
    assert s.cases[..|s.cases|] == s.cases;
    forall t | t in s'.creations ensures CreationOk(s', t) {
      assert CreationOk(s, t);
    }
    OthersKeepHolders(s, s', step.t);
  }

  /** Changing one creation to something not pending leaves one holder a year. */
  lemma OthersKeepHolders(s: State, s': State, t: nat)
    requires forall u, v :: u in s.creations && v in s.creations ==> OneHolder(s, u, v)
    requires forall u :: u in s'.creations && u != t ==> u in s.creations && s'.creations[u] == s.creations[u]
    requires t in s'.creations ==> !s'.creations[t].Pending?
    ensures forall u, v :: u in s'.creations && v in s'.creations ==> OneHolder(s', u, v)
  {
    forall u, v | u in s'.creations && v in s'.creations ensures OneHolder(s', u, v) {
      assert u != t && v != t ==> OneHolder(s, u, v);
    }
  }

  lemma ConflictKeeps(s: State, step: Step, s': State)
    requires Inv(s) && step.Insert? && Do(s, step) == Some(s') && !s'.creations[step.t].Pending?
    ensures Inv(s')
  {
    var c := s.creations[step.t];
    assert CreationOk(s, step.t);
    assert s.cases[..|s.cases|] == s.cases;
    forall t | t in s'.creations ensures CreationOk(s', t) {
      assert CreationOk(s, t);
    }
    OthersKeepHolders(s, s', step.t);
  }

  lemma InsertKeeps(s: State, step: Step, s': State)
    requires Inv(s) && step.Insert? && Do(s, step) == Some(s') && s'.creations[step.t].Pending?
    ensures Inv(s')
  {
    var c := s.creations[step.t];
    assert CreationOk(s, step.t) && Consecutive(s.cases, c.year);
    assert c.k == Count(s.cases, c.year) + 1;
    forall t | t in s'.creations ensures CreationOk(s', t) {
      assert CreationOk(s, t);
    }
    forall u, v | u in s'.creations && v in s'.creations ensures OneHolder(s', u, v) {
      assert OneHolder(s, u, v);
      NewHolder(s, step.t, u);
      NewHolder(s, step.t, v);
    }
  }

  /** Whoever already holds a row of the year holds the very number being inserted, which would have to wait. */
  lemma NewHolder(s: State, t: nat, u: nat)
    requires Inv(s) && t in s.creations && s.creations[t].Proposing? && u in s.creations
    requires s.creations[t].k == Count(s.cases, s.creations[t].year) + 1
    requires !HeldByOther(s, t, Number(s.creations[t].year, s.creations[t].k))
    ensures s.creations[u].Pending? ==> s.creations[u].year != s.creations[t].year
  {
    assert CreationOk(s, u);
    assert u != t ==> !Holds(s.creations[u], Number(s.creations[t].year, s.creations[t].k));
  }

  lemma CommitKeeps(s: State, step: Step, s': State)
    requires Inv(s) && step.Commit? && Do(s, step) == Some(s')
    ensures Inv(s')
  {
    var c := s.creations[step.t];
    assert CreationOk(s, step.t);
    AppendKeepsWellFormed(s.cases, c.year, c.k);
    forall t | t in s'.creations ensures CreationOk(s', t) {
      CreationAfterCommit(s, step.t, t);
    }
    OthersKeepHolders(s, s', step.t);
  }

  lemma CreationAfterCommit(s: State, t: nat, u: nat)
    requires Inv(s) && t in s.creations && s.creations[t].Pending? && u in s.creations && u != t
    ensures CreationOk(State(s.cases + [Number(s.creations[t].year, s.creations[t].k)], s.creations - {t}), u)
  {
    var c := s.creations[t];
    var cases' := s.cases + [Number(c.year, c.k)];
    assert CreationOk(s, u) && OneHolder(s, t, u);
    match s.creations[u]
    case Ready(_, _) =>
    case Refused(_) =>
    case Proposing(year, k, _, _, counted) =>
      CountAppend(s.cases, c.year, c.k, year);
      assert cases'[..counted] == s.cases[..counted];
    case Pending(year, k) =>
      CountAppend(s.cases, c.year, c.k, year);
  }

  lemma StepKeepsInv(s: State, step: Step, s': State)
    requires Inv(s) && Do(s, step) == Some(s')
    ensures Inv(s')
  {
    match step
    case Begin(t) =>
      forall u | u in s'.creations ensures CreationOk(s', u) {
        assert u != t ==> CreationOk(s, u);
      }
      OthersKeepHolders(s, s', t);
    case Generate(_, _) => GenerateKeeps(s, step, s');
    case Insert(t) =>
      if s'.creations[t].Pending? {
        InsertKeeps(s, step, s');
      } else {
        ConflictKeeps(s, step, s');
      }
    case Commit(_) => CommitKeeps(s, step, s');
    case Abort(t) =>
      forall u | u in s'.creations ensures CreationOk(s', u) {
        assert CreationOk(s, u);
      }
      OthersKeepHolders(s, s', t);
  }

  // --------------------------------------------------------------- whole runs

  ghost predicate IsRun(states: seq<State>, steps: seq<Step>) {
    |states| == |steps| + 1 && states[0] == START && forall i: nat :: i < |steps| ==> Taken(states, steps, i)
  }

  ghost predicate Taken(states: seq<State>, steps: seq<Step>, i: nat)
    requires i < |steps| && i + 1 < |states|
  {
    Do(states[i], steps[i]) == Some(states[i + 1])
  }

  lemma {:induction false} RunKeepsInv(states: seq<State>, steps: seq<Step>, i: nat)
    requires IsRun(states, steps) && i < |states|
    ensures Inv(states[i])
  {
    if i > 0 {
      RunKeepsInv(states, steps, i - 1);
      assert Taken(states, steps, i - 1);
      StepKeepsInv(states[i - 1], steps[i - 1], states[i]);
    }
  }

  /** In every interleaving each year's numbers are exactly those from 1 to the number of its cases, once each. */
  lemma NumbersAreConsecutive(states: seq<State>, steps: seq<Step>, i: nat, year: nat, k: nat)
    requires IsRun(states, steps) && i < |states|
    ensures Number(year, k) in states[i].cases <==> 1 <= k <= Count(states[i].cases, year)
    ensures Distinct(states[i].cases)
  {
    RunKeepsInv(states, steps, i);
    assert Consecutive(states[i].cases, year);
  }

  /** Cases come in by commits alone, one at a time, each under the number its creation inserted. */
  lemma OnlyCommitsAdd(s: State, step: Step, s': State)
    requires Do(s, step) == Some(s')
    ensures if step.Commit? then
              exists number :: Holds(s.creations[step.t], number) && s'.cases == s.cases + [number] && step.t !in s'.creations
            else s'.cases == s.cases
  {
    if step.Commit? {
      var c := s.creations[step.t];
      assert Holds(c, Number(c.year, c.k));
    }
  }

  /** A creation nobody interferes with commits the number after the year's last. */
  lemma UninterruptedCreation(s: State, t: nat, year: nat)
    requires Inv(s) && t !in s.creations
    requires !HeldByOther(s, t, Number(year, |OfYear(s.cases, year)| + 1))
    ensures var begun := Do(s, Begin(t));
            begun.Some? && var proposed := Do(begun.value, Generate(t, year));
            proposed.Some? && var inserted := Do(proposed.value, Insert(t));
            inserted.Some? && var done := Do(inserted.value, Commit(t));
            done == Some(State(s.cases + [Number(year, |OfYear(s.cases, year)| + 1)], s.creations))
  {
    CountIs(s.cases, year);
    assert Consecutive(s.cases, year);
    var number := Number(year, Count(s.cases, year) + 1);
    var begun := Do(s, Begin(t)).value;
    var proposed := Do(begun, Generate(t, year)).value;
    assert number !in proposed.cases;
    assert forall u :: u in proposed.creations && u != t ==> u in s.creations && proposed.creations[u] == s.creations[u];
    var inserted := Do(proposed, Insert(t)).value;
    assert inserted.creations - {t} == s.creations;
  }

  /** A creation that gives up has seen at least five others committed since it began. */
  lemma GivingUpMeansFiveWinners(states: seq<State>, steps: seq<Step>, i: nat, t: nat)
    requires IsRun(states, steps) && i < |states|
    requires t in states[i].creations && states[i].creations[t].Refused?
    ensures |states[i].cases| >= states[i].creations[t].started + 5
  {
    RunKeepsInv(states, steps, i);
    assert CreationOk(states[i], t);
  }

  // ----------------------------------------------------------------- the table

  /** What attempt `j` proposes. */
  ghost function Proposal(cases: seq<string>, years: seq<nat>, others: seq<seq<string>>, j: nat): string
    requires j < |others| && j < |years|
  {
    Number(years[j], Count(Seen(cases, others, j), years[j]) + 1)
  }

  /** By the time attempt `j` inserts, its number is taken. */
  ghost predicate Beaten(cases: seq<string>, years: seq<nat>, others: seq<seq<string>>, j: nat)
    requires j < |others| && j < |years|
  {
    Proposal(cases, years, others, j) in Seen(cases, others, j + 1)
  }

  /** The attempts before `n` were all beaten. */
  ghost predicate AllBeaten(cases: seq<string>, years: seq<nat>, others: seq<seq<string>>, n: nat)
    requires n <= |others| && n <= |years|
  {
    forall j: nat :: j < n ==> Beaten(cases, years, others, j)
  }

  /** Without a rival during the first attempt, a table of consecutive numbers gives the next one at once. */
  lemma UnrivalledAttemptWins(cases: seq<string>, years: seq<nat>, others: seq<seq<string>>)
    requires WellFormed(cases) && |years| == |others| == 5 && others[0] == []
    ensures !Beaten(cases, years, others, 0)
    ensures Proposal(cases, years, others, 0) == Number(years[0], |OfYear(cases, years[0])| + 1)
  {
    CountIs(cases, years[0]);
    SeenNext(cases, others, 0);
    assert Seen(cases, others, 0) == cases && Seen(cases, others, 1) == cases;
    assert Consecutive(cases, years[0]);
  }

  lemma OneMoreBeaten(cases: seq<string>, years: seq<nat>, others: seq<seq<string>>, n: nat)
    requires n < |others| && n < |years|
    ensures AllBeaten(cases, years, others, n + 1) <==> AllBeaten(cases, years, others, n) && Beaten(cases, years, others, n)
  {
  }

  class CaseTable {
    var cases: seq<string>

    constructor ()
      ensures cases == []
    {
      cases := [];
    }

    method GenerateCaseNumber(year: nat) returns (number: string)
      ensures number == Number(year, Count(cases, year) + 1)
    {
      var existing := 0;
      for i := 0 to |cases|
        invariant existing == Count(cases[..i], year)
      {
        assert cases[..i + 1][..i] == cases[..i];
        if LikeSearch.Like(cases[i], Prefix(year) + "%") {
          existing := existing + 1;
        }
      }
      assert cases[..|cases|] == cases;
      number := Prefix(year) + Padded(existing + 1, 6);
    }

    /** Attempt `j`: count, let the rivals commit, insert under the unique constraint. */
    method Attempt(ghost start: seq<string>, years: seq<nat>, others: seq<seq<string>>, j: nat) returns (number: string, won: bool)
      requires j < |years| && j < |others| && cases == Seen(start, others, j)
      modifies this
      ensures number == Proposal(start, years, others, j)
      ensures won <==> !Beaten(start, years, others, j)
      ensures cases == Seen(start, others, j + 1) + if won then [number] else []
    {
      SeenNext(start, others, j);
      number := GenerateCaseNumber(years[j]);
      cases := cases + others[j];
      won := number !in cases;
      if won {
        cases := cases + [number];
      }
    }

    /**
     * The first proposal that nobody else takes in the meantime, or none when all five are beaten. `years` and
     * `others` are the clock and the rival commits, attempt by attempt.
     */
    method CreateCase(years: seq<nat>, others: seq<seq<string>>) returns (r: Option<string>, ghost last: nat)
      requires |years| == |others| == 5
      modifies this
      ensures last <= 5 && AllBeaten(old(cases), years, others, last)
      ensures r.None? ==> last == 5 && cases == Seen(old(cases), others, 5)
      ensures r.Some? ==> && last < 5 && r.value == Proposal(old(cases), years, others, last)
                          && !Beaten(old(cases), years, others, last)
                          && cases == Seen(old(cases), others, last + 1) + [r.value]
    {
      ghost var start := cases;
      assert cases == Seen(start, others, 0);
      for attempt := 0 to ATTEMPTS
        invariant cases == Seen(start, others, attempt)
        invariant AllBeaten(start, years, others, attempt)
      {
        OneMoreBeaten(start, years, others, attempt);
        var number, won := Attempt(start, years, others, attempt);
        if won {
          return Some(number), attempt;
        }
      }
      return None, ATTEMPTS;
    }
  }
}
