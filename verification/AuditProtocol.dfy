/**
 * Concurrent appends to the audit chain: any number of sessions, each taking the advisory lock, reading
 * the head, inserting, and finally committing or rolling back. One step is one statement; a session sees
 * committed rows and its own.
 */
module AuditProtocol {
  import opened Basics
  import opened AuditEvents
  import opened AuditChain
  import opened AuditLog

  datatype Phase = Outside | Locked | HasHead(previous: string)

  /** What one transaction has done since it began. */
  datatype Session = Session(phase: Phase, pending: seq<Event>)

  const FRESH := Session(Outside, [])

  /** `holder` is the session holding the transaction-scoped advisory lock. */
  datatype State = State(committed: seq<Event>, holder: Option<nat>, sessions: map<nat, Session>) {
    function Of(t: nat): Session { if t in sessions then sessions[t] else FRESH }

    function View(t: nat): seq<Event> { committed + Of(t).pending }

    /** Transaction end: the lock is released with it. */
    function Ended(t: nat): State {
      this.(sessions := sessions - {t}, holder := if holder == Some(t) then None else holder)
    }
  }

  const START := State([], None, map[])

  datatype Step =
    | Lock(t: nat)
    | ReadHead(t: nat)
    | Insert(t: nat, id: string, content: Content)
    | Commit(t: nat)
    | Rollback(t: nat)

  /** The row an insert step builds from the head its session read. */
  function Row(h: Digest, previous: string, id: string, c: Content): Event {
    Event(id, c, previous, h(c, previous))
  }

  /** One step, or `None` where the session would block or has not got that far. */
  ghost function Do(h: Digest, s: State, step: Step): Option<State> {
    match step
    case Lock(t) =>
      if s.holder.Some? && s.holder != Some(t) then None
      else Some(s.(holder := Some(t), sessions := s.sessions[t := s.Of(t).(phase := Locked)]))
    case ReadHead(t) =>
      if s.Of(t).phase.Outside? then None
      else Some(s.(sessions := s.sessions[t := s.Of(t).(phase := HasHead(HeadHash(s.View(t))))]))
    case Insert(t, id, c) =>
      if !s.Of(t).phase.HasHead? then None
      else
        var e := Row(h, s.Of(t).phase.previous, id, c);
        if !Admissible(s.View(t), e) then Some(s.Ended(t))
        else Some(s.(sessions := s.sessions[t := Session(Locked, s.Of(t).pending + [e])]))
    case Commit(t) => Some(s.(committed := s.View(t)).Ended(t))
    case Rollback(t) => Some(s.Ended(t))
  }

  /** The rows any later append will build on: committed, then the lock holder's own. */
  function Live(s: State): seq<Event> {
    match s.holder
    case None => s.committed
    case Some(t) => s.View(t)
  }

  /** In every prefix the last row is the newest by `(timestamp, id)`. */
  ghost predicate LastIsNewest(rows: seq<Event>) {
    forall k :: 0 < k <= |rows| ==> NewestAt(rows, k)
  }

  ghost predicate NewestAt(rows: seq<Event>, k: nat)
    requires 0 < k <= |rows|
  {
    Newest(rows[..k]) == rows[k - 1]
  }

  /** What every interleaving keeps. */
  ghost predicate Inv(h: Digest, s: State) {
    var live := Live(s);
    && (forall t: nat :: s.holder != Some(t) ==> s.Of(t) == FRESH)
    && IsChain(h, live) && LastIsNewest(live) && UniqueHashes(live) && ProperDigests(h, live)
    && (s.holder.Some? ==>
          var phase := s.Of(s.holder.value).phase;
          !phase.Outside? && (phase.HasHead? ==> phase.previous == Tail(live)))
  }

  /** The clock read under the lock moved on (ties broken by id), and the digest is not a sentinel. */
  ghost predicate ClockAdvances(rows: seq<Event>, e: Event) {
    forall f :: f in rows ==> SortsAfter(e, f)
  }

  /** To sort after all rows it is enough, and needed, to sort after the newest. */
  lemma ClockAdvancesIff(rows: seq<Event>, e: Event)
    requires rows != []
    ensures ClockAdvances(rows, e) <==> Newer(e, Newest(rows))
  {
    NewestIs(rows);
    NewerIff(e, Newest(rows));
    if SortsAfter(e, Newest(rows)) {
      forall f | f in rows ensures SortsAfter(e, f) {
        SortsPast(e, Newest(rows), f);
      }
    }
  }

  ghost predicate Orderly(h: Digest, s: State, step: Step) {
    match step
    case Insert(t, id, c) =>
      s.Of(t).phase.HasHead? ==>
        var e := Row(h, s.Of(t).phase.previous, id, c);
        ClockAdvances(s.View(t), e) && e.hash != GENESIS && e.hash != ""
    case _ => true
  }

  /** The states a schedule passes through, if every step of it can be taken. */
  ghost predicate IsRun(h: Digest, states: seq<State>, steps: seq<Step>) {
    && |states| == |steps| + 1 && states[0] == START
    && forall i: nat :: i < |steps| ==> Taken(h, states, steps, i)
  }

  ghost predicate Taken(h: Digest, states: seq<State>, steps: seq<Step>, i: nat)
    requires i < |steps| && i + 1 < |states|
  {
    Do(h, states[i], steps[i]) == Some(states[i + 1])
  }

  ghost predicate OrderlyRun(h: Digest, states: seq<State>, steps: seq<Step>)
    requires |states| == |steps| + 1
  {
    forall i: nat :: i < |steps| ==> Orderly(h, states[i], steps[i])
  }

  // ------------------------------------------------------------------- proof

  lemma HeadIsTail(h: Digest, rows: seq<Event>)
    requires IsChain(h, rows) && LastIsNewest(rows) && ProperDigests(h, rows)
    ensures HeadHash(rows) == Tail(rows)
  {
    if rows != [] {
      assert NewestAt(rows, |rows|);
      assert rows[..|rows|] == rows;
      ChainHash(h, rows, |rows| - 1);
    }
  }

  /** A new last row is the newest exactly when the clock moved past the old newest. */
  lemma LastStaysNewestIff(rows: seq<Event>, e: Event)
    requires LastIsNewest(rows) && (forall f :: f in rows ==> f != e)
    ensures LastIsNewest(rows + [e]) <==> ClockAdvances(rows, e)
  {
    var grown := rows + [e];
    assert grown[..|grown|] == grown && grown[..|rows|] == rows;
    forall k: nat | 0 < k <= |rows| ensures NewestAt(grown, k) {
      assert NewestAt(rows, k);
      assert grown[..k] == rows[..k];
    }
    if rows != [] {
      assert NewestAt(rows, |rows|) && rows[..|rows|] == rows;
      assert Newest(rows) in rows;
      ClockAdvancesIff(rows, e);
    }
    assert NewestAt(grown, |grown|) <==> ClockAdvances(rows, e);
  }

  lemma AppendKeeps(h: Digest, rows: seq<Event>, e: Event)
    requires IsChain(h, rows) && LastIsNewest(rows) && UniqueHashes(rows) && ProperDigests(h, rows)
    requires Recomputes(h, e) && e.previousHash == Tail(rows) && e.hash != GENESIS && e.hash != ""
    requires ClockAdvances(rows, e) && forall f :: f in rows ==> f.hash != e.hash
    ensures IsChain(h, rows + [e]) && LastIsNewest(rows + [e]) && UniqueHashes(rows + [e]) && ProperDigests(h, rows + [e])
  {
    ChainStep(h, rows, e);
    LastStaysNewestIff(rows, e);
  }

  lemma PrefixKeeps(h: Digest, rows: seq<Event>, k: nat)
    requires IsChain(h, rows) && LastIsNewest(rows) && UniqueHashes(rows) && ProperDigests(h, rows) && k <= |rows|
    ensures var p := rows[..k]; IsChain(h, p) && LastIsNewest(p) && UniqueHashes(p) && ProperDigests(h, p)
  {
    ChainPrefix(h, rows, k);
    forall m: nat | 0 < m <= k ensures NewestAt(rows[..k], m) {
      assert NewestAt(rows, m);
      assert rows[..k][..m] == rows[..m];
    }
  }

  lemma InsertKeepsInv(h: Digest, s: State, t: nat, id: string, c: Content)
    requires Inv(h, s) && Orderly(h, s, Insert(t, id, c)) && Do(h, s, Insert(t, id, c)).Some?
    ensures Inv(h, Do(h, s, Insert(t, id, c)).value)
  {
    var e := Row(h, s.Of(t).phase.previous, id, c);
    var s' := Do(h, s, Insert(t, id, c)).value;
    assert s.holder == Some(t);
    if Admissible(s.View(t), e) {
      assert Live(s') == Live(s) + [e];
      AppendKeeps(h, Live(s), e);
    } else {
      RollbackKeepsInv(h, s, t);
    }
  }

  lemma RollbackKeepsInv(h: Digest, s: State, t: nat)
    requires Inv(h, s)
    ensures Inv(h, s.Ended(t))
  {
    PrefixKeeps(h, Live(s), |s.committed|);
    assert Live(s)[..|s.committed|] == s.committed;
  }

  /** Every step of every session keeps the chain linear, in whatever order the sessions move. */
  lemma StepKeepsInv(h: Digest, s: State, step: Step)
    requires Inv(h, s) && Orderly(h, s, step) && Do(h, s, step).Some?
    ensures Inv(h, Do(h, s, step).value)
    ensures s.committed <= Do(h, s, step).value.committed
  {
    match step
    case Lock(t) => assert s.holder.None? ==> s.View(t) == s.committed;
    case ReadHead(t) => HeadIsTail(h, Live(s));
    case Insert(t, id, c) => InsertKeepsInv(h, s, t, id, c);
    case Commit(t) =>
      if s.holder != Some(t) {
        assert s.View(t) == s.committed;
      }
    case Rollback(t) => RollbackKeepsInv(h, s, t);
  }

  lemma {:induction false} RunKeepsInv(h: Digest, states: seq<State>, steps: seq<Step>, i: nat)
    requires IsRun(h, states, steps) && OrderlyRun(h, states, steps) && i < |states|
    ensures Inv(h, states[i])
  {
    if i > 0 {
      RunKeepsInv(h, states, steps, i - 1);
      assert Taken(h, states, steps, i - 1);
      StepKeepsInv(h, states[i - 1], steps[i - 1]);
    }
  }

  /**
   * In every interleaving, committed rows plus the lock holder's pending rows form one chain from genesis
   * whose tail is the row the next head lookup finds, and the checker finds the committed log intact.
   */
  lemma EveryInterleavingIsLinear(h: Digest, states: seq<State>, steps: seq<Step>, i: nat)
    requires IsRun(h, states, steps) && OrderlyRun(h, states, steps) && i < |states|
    ensures IsChain(h, Live(states[i])) && HeadHash(Live(states[i])) == Tail(Live(states[i]))
    ensures IsChain(h, states[i].committed) && states[i].committed <= Live(states[i])
    ensures forall r :: Explains(h, states[i].committed, r) ==> r.intact
  {
    var s := states[i];
    RunKeepsInv(h, states, steps, i);
    HeadIsTail(h, Live(s));
    PrefixKeeps(h, Live(s), |s.committed|);
    assert Live(s)[..|s.committed|] == s.committed;
    assert Intact(h, s.committed);
    forall r | Explains(h, s.committed, r) ensures r.intact {
      IntactIffReported(h, s.committed, r);
    }
  }

  /** Nothing committed is ever changed or dropped. */
  lemma {:induction false} CommittedOnlyGrows(h: Digest, states: seq<State>, steps: seq<Step>, i: nat, j: nat)
    requires IsRun(h, states, steps) && OrderlyRun(h, states, steps) && i <= j < |states|
    ensures states[i].committed <= states[j].committed
  {
    if i < j {
      CommittedOnlyGrows(h, states, steps, i, j - 1);
      RunKeepsInv(h, states, steps, j - 1);
      assert Taken(h, states, steps, j - 1);
      StepKeepsInv(h, states[j - 1], steps[j - 1]);
    }
  }

  /** Locking, reading the head and inserting, uninterrupted, is what `record_event` does. */
  lemma RecordEventIsThreeSteps(h: Digest, s: State, t: nat, id: string, c: Content)
    requires s.holder.None? || s.holder == Some(t)
    ensures var locked := Do(h, s, Lock(t));
            locked.Some? && var read := Do(h, locked.value, ReadHead(t));
            read.Some? && var done := Do(h, read.value, Insert(t, id, c));
            var e := NewEvent(h, s.View(t), id, c);
            done.Some? && done.value.Of(t).pending == if Admissible(s.View(t), e) then s.Of(t).pending + [e] else []
  {
    var locked := Do(h, s, Lock(t)).value;
    assert locked.View(t) == s.View(t);
    var read := Do(h, locked, ReadHead(t)).value;
    assert read.View(t) == s.View(t);
  }

  // ------------------------------------------------- what ends up committed

  /** Step `k` adds `r` to what session `t` has pending. */
  ghost predicate InsertsAt(states: seq<State>, steps: seq<Step>, k: nat, t: nat, r: Event) {
    && k < |steps| && k + 1 < |states| && steps[k].Insert? && steps[k].t == t
    && r.id == steps[k].id && r.content == steps[k].content
    && states[k + 1].Of(t).pending == states[k].Of(t).pending + [r]
  }

  /** Step `k` ends the transaction of session `t`: it commits, rolls back, or inserts what a constraint forbids. */
  ghost predicate EndsAt(h: Digest, states: seq<State>, steps: seq<Step>, k: nat, t: nat) {
    && k < |steps| && k + 1 < |states| && steps[k].t == t
    && match steps[k]
       case Commit(_) => true
       case Rollback(_) => true
       case Insert(_, id, c) =>
         var phase := states[k].Of(t).phase;
         phase.HasHead? && !Admissible(states[k].View(t), Row(h, phase.previous, id, c))
       case _ => false
  }

  /** Session `t` inserted `r` at step `k`, and its transaction is still open before step `i`. */
  ghost predicate PendingSince(h: Digest, states: seq<State>, steps: seq<Step>, k: nat, i: nat, t: nat, r: Event) {
    k < i && InsertsAt(states, steps, k, t, r) && forall j: nat :: k < j < i ==> !EndsAt(h, states, steps, j, t)
  }

  /** A step ends the transaction, adds its one row, or leaves what is pending. */
  lemma PendingStep(h: Digest, states: seq<State>, steps: seq<Step>, j: nat, t: nat)
    requires IsRun(h, states, steps) && j < |steps|
    ensures var before, after := states[j].Of(t).pending, states[j + 1].Of(t).pending;
            if EndsAt(h, states, steps, j, t) then after == [] && forall r :: !InsertsAt(states, steps, j, t, r)
            else if steps[j].Insert? && steps[j].t == t then |after| == |before| + 1 && InsertsAt(states, steps, j, t, after[|before|])
            else after == before && forall r :: !InsertsAt(states, steps, j, t, r)
  {
    assert Taken(h, states, steps, j);
    var s := states[j];
    if steps[j].Insert? && steps[j].t == t {
      var e := Row(h, s.Of(t).phase.previous, steps[j].id, steps[j].content);
      assert Admissible(s.View(t), e) ==> InsertsAt(states, steps, j, t, e);
    }
  }

  lemma {:induction false} PendingIff(h: Digest, states: seq<State>, steps: seq<Step>, i: nat, t: nat, r: Event)
    requires IsRun(h, states, steps) && i < |states|
    ensures r in states[i].Of(t).pending <==> exists k: nat :: PendingSince(h, states, steps, k, i, t, r)
  {
    if i > 0 {
      var j := i - 1;
      PendingIff(h, states, steps, j, t, r);
      PendingStep(h, states, steps, j, t);
      if k: nat :| PendingSince(h, states, steps, k, j, t, r) && !EndsAt(h, states, steps, j, t) {
        assert PendingSince(h, states, steps, k, i, t, r);
      }
      if InsertsAt(states, steps, j, t, r) {
        assert PendingSince(h, states, steps, j, i, t, r);
      }
      if k: nat :| PendingSince(h, states, steps, k, i, t, r) {
        assert k < j ==> PendingSince(h, states, steps, k, j, t, r) && !EndsAt(h, states, steps, j, t);
      }
    }
  }

  /** Session `t` commits at step `m` what it inserted at step `k`. */
  ghost predicate CommitsAt(h: Digest, states: seq<State>, steps: seq<Step>, k: nat, m: nat, t: nat, r: Event) {
    m < |steps| && steps[m] == Commit(t) && PendingSince(h, states, steps, k, m, t, r)
  }

  /**
   * All or nothing: an event is in the committed log exactly when some session inserted it and then committed
   * without its transaction ending in between.
   */
  lemma {:induction false} CommittedIff(h: Digest, states: seq<State>, steps: seq<Step>, i: nat, r: Event)
    requires IsRun(h, states, steps) && i < |states|
    ensures r in states[i].committed <==> exists k: nat, m: nat, t: nat :: m < i && CommitsAt(h, states, steps, k, m, t, r)
  {
    if i > 0 {
      var j := i - 1;
      var t := steps[j].t;
      assert Taken(h, states, steps, j);
      CommittedIff(h, states, steps, j, r);
      PendingIff(h, states, steps, j, t, r);
      if steps[j].Commit? {
        if k: nat :| PendingSince(h, states, steps, k, j, t, r) {
          assert CommitsAt(h, states, steps, k, j, t, r);
        }
      }
      if k: nat, m: nat, u: nat :| m < i && CommitsAt(h, states, steps, k, m, u, r) {
        assert m == j ==> u == t && steps[j].Commit?;
      }
    }
  }

  /** An append on top of an overlooked row forks the chain. */
  lemma OverlookedForks(h: Digest, rows: seq<Event>, e: Event, f: Event)
    requires IsChain(h, rows) && LastIsNewest(rows) && !ClockAdvances(rows, e)
    requires e.previousHash == Tail(rows) && f.previousHash == HeadHash(rows + [e])
    requires UniqueHashes(rows + [e, f]) && ProperDigests(h, rows + [e, f])
    ensures !Intact(h, rows + [e, f])
  {
    var all := rows + [e, f];
    assert ProperDigests(h, rows) by {
      assert forall x :: x in rows ==> x in all;
    }
    HeadIsTail(h, rows);
    StaleHead(rows, e);
    assert all[|rows|] == e && all[|rows| + 1] == f;
    TwoClaims(h, all, |rows|, |rows| + 1);
  }

  /** An append on top of the newest row extends it. */
  lemma NewestExtends(h: Digest, rows: seq<Event>, e: Event, f: Event)
    requires IsChain(h, rows) && LastIsNewest(rows) && ClockAdvances(rows, e) && e !in rows
    requires Recomputes(h, e) && e.previousHash == Tail(rows)
    requires Recomputes(h, f) && f.previousHash == HeadHash(rows + [e])
    requires ProperDigests(h, rows + [e])
    ensures IsChain(h, rows + [e, f])
  {
    LastStaysNewestIff(rows, e);
    ChainStep(h, rows, e);
    HeadIsTail(h, rows + [e]);
    ChainStep(h, rows + [e], f);
    assert rows + [e, f] == rows + [e] + [f];
  }

  /**
   * How much the clock matters: after appending `e` to a good log, the append after that leaves the log
   * intact exactly when `e` sorts after everything before it. Otherwise it forks the chain.
   */
  lemma NextAppendIntactIff(h: Digest, rows: seq<Event>, e: Event, id: string, c: Content)
    requires IsChain(h, rows) && LastIsNewest(rows)
    requires Recomputes(h, e) && e.previousHash == Tail(rows)
    requires var f := NewEvent(h, rows + [e], id, c);
             UniqueHashes(rows + [e, f]) && ProperDigests(h, rows + [e, f])
    ensures Intact(h, rows + [e, NewEvent(h, rows + [e], id, c)]) <==> ClockAdvances(rows, e)
  {
    var f := NewEvent(h, rows + [e], id, c);
    var all := rows + [e, f];
    if ClockAdvances(rows, e) {
      assert all[|rows|] == e && forall i :: 0 <= i < |rows| ==> all[i] == rows[i];
      assert forall x :: x in rows + [e] ==> x in all;
      NewestExtends(h, rows, e, f);
    } else {
      OverlookedForks(h, rows, e, f);
    }
  }

  /** An event of a fixed moment, told apart by its entity type. */
  function Sample(kind: string): Content {
    Content(Some("actor"), None, None, kind, None, "ACTION", "SUCCESS", DateTime(2026, 1, 1, 0, 0, 0, 0, true), [])
  }

  /** A digest plain enough to compute with. */
  const LABELS: Digest := (c: Content, previousHash: string) => previousHash + c.entityType

  /** The log after one more `record_event`. */
  function Recorded(rows: seq<Event>, id: string, kind: string): seq<Event> {
    rows + [NewEvent(LABELS, rows, id, Sample(kind))]
  }

  /** Three appends at one clock reading, all of them accepted, fork the chain when the second drew the lesser id. */
  lemma EqualReadingsFork()
    ensures var one := Recorded([], "b", "1");
            var two := Recorded(one, "a", "2");
            var three := Recorded(two, "c", "3");
            && Admissible([], one[0]) && Admissible(one, two[1]) && Admissible(two, three[2])
            && UniqueHashes(three) && ProperDigests(LABELS, three) && !Intact(LABELS, three)
  {
    var one := Recorded([], "b", "1");
    var two := Recorded(one, "a", "2");
    var three := Recorded(two, "c", "3");
    var first := GENESIS + "1";
    assert two[..1] == one && three[..2] == two;
    assert HeadHash([]) == GENESIS && HeadHash(one) == first;
    assert Less("a", "b") && !Newer(two[1], one[0]);
    assert HeadHash(two) == first;
    assert one[0].hash == first && two[1].hash == first + "2" && three[2].hash == first + "3";
    assert |first| == 65 && two[1].hash[65] == '2' && three[2].hash[65] == '3';
    TwoClaims(LABELS, three, 1, 2);
  }

  /** A row that does not sort last is overlooked by the head lookup. */
  lemma StaleHead(rows: seq<Event>, e: Event)
    requires rows != [] && !ClockAdvances(rows, e)
    ensures HeadHash(rows + [e]) == HeadHash(rows)
  {
    assert (rows + [e])[..|rows|] == rows;
    ClockAdvancesIff(rows, e);
  }

  /** Two rows with one predecessor cannot both be in a linear history. */
  lemma TwoClaims(h: Digest, rows: seq<Event>, i: nat, j: nat)
    requires UniqueHashes(rows) && ProperDigests(h, rows) && i < j < |rows|
    requires rows[i].previousHash == rows[j].previousHash
    ensures !Intact(h, rows)
  {
    if Intact(h, rows) {
      var order :| multiset(order) == multiset(rows) && IsChain(h, order);
      SameMembers(order, rows);
      assert rows[i] in order && rows[j] in order;
      var m: nat :| m < |order| && order[m] == rows[i];
      var n: nat :| n < |order| && order[n] == rows[j];
      ChainHash(h, order, m);
      ChainHash(h, order, n);
      SameLink(h, order, m, n);
    }
  }
}
