/**
 * Custody calls that overlap. A request reads its rows and passes its checks at one moment and commits the columns
 * it changes at a later one, whatever has become of the rows in between: no version is checked. A transfer call
 * commits its audit event in a transaction of its own, later still.
 */
module CustodyRaces {
  import opened Basics
  import opened Custody
  import Authorization

  /** An audit event still to be committed, and the item it is about. */
  datatype Debt = Debt(item: string, entry: Entry)

  /** `inFlight` have passed their checks and not yet written; `owed` have written and not yet recorded it. */
  datatype World = World(s: State, inFlight: map<nat, Action>, owed: map<nat, Debt>)

  const EMPTY := World(START, map[], map[])

  datatype Step =
    | Read(r: nat, a: Action)
    | Land(r: nat)
    | Record(r: nat)
    | Drop(r: nat)

  /** `update_status` once its check is behind it. */
  function Stamped(s: State, e: string, target: Status, actor: string): State
    requires e in s.items
  {
    s.(items := s.items[e := s.items[e].(status := target)],
       log := s.log + if target in AUDITED then [StatusChanged(e, actor, target)] else [])
  }

  /** The rows the writes refer to are there, and the keys they insert are free. */
  predicate Landable(s: State, a: Action) {
    match a
    case CreateCase(c, _) => c !in s.cases
    case SetCaseStatus(c, _, _) => c in s.cases
    case Upload(c, _, _) => c in s.cases
    case Register(e, c, _) => c in s.cases && e !in s.items
    case Initiate(t, e, _, _, _) => t !in s.transfers && e in s.items
    case Accept(t, _) => t in s.transfers && s.transfers[t].evidence in s.items
    case Reject(t, _) => t in s.transfers && s.transfers[t].evidence in s.items
    case Seal(e, _) => e in s.items
    case StartAnalysis(e, _) => e in s.items
    case CompleteAnalysis(e, _) => e in s.items
    case Submit(e, _) => e in s.items
    case Archive(e, _) => e in s.items
  }

  /** The columns a call writes. */
  function Landed(s: State, a: Action): State
    requires Landable(s, a)
  {
    match a
    case CreateCase(c, status) => s.(cases := s.cases[c := status])
    case SetCaseStatus(c, target, _) => s.(cases := s.cases[c := target])
    case Upload(c, document, _) => s.(versions := s.versions + [Version(c, document)])
    case Register(e, c, who) =>
      s.(items := s.items[e := Item(c, Registered, who.id)], log := s.log + [EvidenceCreated(e, who.id)])
    case Seal(e, who) => Stamped(s, e, Sealed, who.id)
    case StartAnalysis(e, who) => Stamped(s, e, UnderAnalysis, who.id)
    case CompleteAnalysis(e, who) => Stamped(s, e, Analyzed, who.id)
    case Submit(e, who) => Stamped(s, e, CourtSubmitted, who.id)
    case Archive(e, who) => Stamped(s, e, Archived, who.id)
    case Initiate(t, e, toUser, _, who) =>
      Stamped(s.(transfers := s.transfers[t := Transfer(e, who.id, toUser, Pending)]), e, TransferPending, who.id)
    case Accept(t, who) =>
      var row := s.transfers[t];
      Stamped(s.(transfers := s.transfers[t := row.(status := Completed)],
                 items := s.items[row.evidence := s.items[row.evidence].(custodian := who.id)]),
              row.evidence, InCustody, who.id)
    case Reject(t, who) =>
      var row := s.transfers[t];
      Stamped(s.(transfers := s.transfers[t := row.(status := Rejected)]), row.evidence, InCustody, who.id)
  }

  /** What a transfer call has yet to record. */
  function DebtOf(s: State, a: Action): Option<Debt>
    requires Landable(s, a)
  {
    match a
    case Initiate(t, e, toUser, _, who) => Some(Debt(e, TransferCreated(t, who.id, e, toUser)))
    case Accept(t, who) => Some(Debt(s.transfers[t].evidence, TransferAccepted(t, who.id, s.transfers[t].sender)))
    case Reject(t, who) => Some(Debt(s.transfers[t].evidence, TransferRejected(t, who.id, s.transfers[t].sender)))
    case _ => None
  }

  function WithEntry(s: State, entry: Entry): State { s.(log := s.log + [entry]) }

  /** Assigning a column the value it was read with writes nothing. */
  predicate WritesNothing(s: State, a: Action) { a.SetCaseStatus? && a.caseId in s.cases && s.cases[a.caseId] == a.target }

  /** The call whose columns a step commits; a landing whose constraints fail is rolled back. */
  ghost function Landing(w: World, step: Step): (l: Option<Action>)
    ensures l.Some? ==> Landable(w.s, l.value) && step.Land? && step.r in w.inFlight && w.inFlight[step.r] == l.value
  {
    if step.Land? && step.r in w.inFlight && Landable(w.s, w.inFlight[step.r]) then Some(w.inFlight[step.r]) else None
  }

  /** One step, or `None` where it does not apply; a refused call reads and leaves no trace. */
  ghost function Do(w: World, step: Step): Option<World> {
    match step
    case Read(r, a) =>
      if r in w.inFlight || r in w.owed || Apply(w.s, a).Err? then None
      else if WritesNothing(w.s, a) then Some(w)
      else Some(w.(inFlight := w.inFlight[r := a]))
    case Land(r) =>
      var l := Landing(w, step);
      if r !in w.inFlight then None
      else if l.None? then Some(w.(inFlight := w.inFlight - {r}))
      else
        var debt := DebtOf(w.s, l.value);
        Some(World(Landed(w.s, l.value), w.inFlight - {r}, if debt.Some? then w.owed[r := debt.value] else w.owed))
    case Record(r) =>
      if r !in w.owed then None else Some(w.(s := WithEntry(w.s, w.owed[r].entry), owed := w.owed - {r}))
    case Drop(r) =>
      if r !in w.inFlight && r !in w.owed then None
      else Some(w.(inFlight := w.inFlight - {r}, owed := w.owed - {r}))
  }

  // --------------------------------------------------- calls that still pass

  /** What a call leaves behind once everything it owes is recorded. */
  function Settled(s: State, a: Action): State
    requires Landable(s, a)
  {
    var debt := DebtOf(s, a);
    if debt.Some? then WithEntry(Landed(s, a), debt.value.entry) else Landed(s, a)
  }

  /** A call whose checks pass writes exactly these columns and this event. */
  lemma ApplyIsSettled(s: State, a: Action)
    requires Apply(s, a).Ok?
    ensures Landable(s, a) && Apply(s, a).value == Settled(s, a)
  {
    if a.SetCaseStatus? || a.CreateCase? || a.Upload? || a.Register? {
    } else if a.Accept? || a.Reject? {
      ResolveIsSettled(s, a);
    } else {
      MoveIsSettled(s, a);
    }
  }

  lemma ResolveIsSettled(s: State, a: Action)
    requires Apply(s, a).Ok? && (a.Accept? || a.Reject?)
    ensures Landable(s, a) && Apply(s, a).value == Settled(s, a)
  {
  }

  lemma MoveIsSettled(s: State, a: Action)
    requires Apply(s, a).Ok?
    requires a.Seal? || a.StartAnalysis? || a.CompleteAnalysis? || a.Submit? || a.Archive? || a.Initiate?
    ensures Landable(s, a) && Apply(s, a).value == Settled(s, a)
  {
  }

  /** All tables but the audit trail. */
  ghost predicate SameRows(s: State, s': State) {
    s.cases == s'.cases && s.items == s'.items && s.transfers == s'.transfers && s.versions == s'.versions
  }

  /** Neither checks nor columns depend on the trail. */
  lemma RowsDecide(s: State, s': State, a: Action)
    requires SameRows(s, s')
    ensures Apply(s, a).Ok? <==> Apply(s', a).Ok?
    ensures Apply(s, a).Err? ==> Apply(s', a) == Apply(s, a)
    ensures Landable(s, a) <==> Landable(s', a)
    ensures Landable(s, a) ==> SameRows(Landed(s, a), Landed(s', a))
  {
  }

  // --------------------------------------------------------------- whole runs

  ghost predicate IsRun(worlds: seq<World>, steps: seq<Step>) {
    |worlds| == |steps| + 1 && worlds[0] == EMPTY && forall i: nat :: i < |steps| ==> Taken(worlds, steps, i)
  }

  ghost predicate Taken(worlds: seq<World>, steps: seq<Step>, i: nat)
    requires i < |steps| && i + 1 < |worlds|
  {
    Do(worlds[i], steps[i]) == Some(worlds[i + 1])
  }

  /** What step `k` commits, if anything. */
  ghost function LandingAt(worlds: seq<World>, steps: seq<Step>, k: nat): (l: Option<Action>)
    ensures l.Some? ==> k < |steps| && k < |worlds| && Landable(worlds[k].s, l.value)
  {
    if k < |steps| && k < |worlds| then Landing(worlds[k], steps[k]) else None
  }

  /** A step commits one call's columns, or none. */
  lemma StepWrites(worlds: seq<World>, steps: seq<Step>, k: nat)
    requires IsRun(worlds, steps) && k < |steps|
    ensures match LandingAt(worlds, steps, k)
            case Some(a) => worlds[k + 1].s == Landed(worlds[k].s, a)
            case None => SameRows(worlds[k].s, worlds[k + 1].s)
  {
    assert Taken(worlds, steps, k);
  }

  /** The calls that have landed, in the order they did. */
  ghost function Landings(worlds: seq<World>, steps: seq<Step>, i: nat): seq<Action> {
    if i == 0 then []
    else
      var last := LandingAt(worlds, steps, i - 1);
      Landings(worlds, steps, i - 1) + if last.Some? then [last.value] else []
  }

  /** The call that landed at step `k`, if one did, would have passed its checks there too. */
  ghost predicate StillPasses(worlds: seq<World>, steps: seq<Step>, k: nat) {
    var l := LandingAt(worlds, steps, k);
    l.Some? ==> Apply(worlds[k].s, l.value).Ok?
  }

  /** Overlapping calls whose checks still pass when they land leave the rows the same calls leave one after the other. */
  lemma {:induction false} SerialWhenChecksHold(worlds: seq<World>, steps: seq<Step>, i: nat)
    requires IsRun(worlds, steps) && i < |worlds| && forall k: nat :: k < i ==> StillPasses(worlds, steps, k)
    ensures SameRows(worlds[i].s, After(START, Landings(worlds, steps, i)))
  {
    if i > 0 {
      SerialWhenChecksHold(worlds, steps, i - 1);
      StepWrites(worlds, steps, i - 1);
      var landings, last := Landings(worlds, steps, i - 1), LandingAt(worlds, steps, i - 1);
      if last.Some? {
        assert StillPasses(worlds, steps, i - 1);
        var serial := After(START, landings);
        RowsDecide(worlds[i - 1].s, serial, last.value);
        ApplyIsSettled(serial, last.value);
        assert (landings + [last.value])[..|landings|] == landings;
      } else {
        assert Landings(worlds, steps, i) == landings;
      }
    }
  }

  lemma LandingKeepsReferences(s: State, a: Action)
    requires References(s) && Landable(s, a)
    ensures References(Landed(s, a))
  {
  }

  lemma {:induction false} RunKeepsReferences(worlds: seq<World>, steps: seq<Step>, i: nat)
    requires IsRun(worlds, steps) && i < |worlds|
    ensures References(worlds[i].s)
  {
    if i > 0 {
      RunKeepsReferences(worlds, steps, i - 1);
      StepWrites(worlds, steps, i - 1);
      var last := LandingAt(worlds, steps, i - 1);
      if last.Some? {
        LandingKeepsReferences(worlds[i - 1].s, last.value);
      }
    }
  }

  // ----------------------------------------------------- one pending transfer

  /** The item has one pending transfer while it is marked so, and none otherwise. */
  ghost predicate Marked(s: State, e: string)
    requires e in s.items
  {
    && (s.items[e].status == TransferPending <==> exists t :: PendingFor(s, t, e))
    && forall t, u :: PendingFor(s, t, e) && PendingFor(s, u, e) ==> t == u
  }

  ghost predicate AllMarked(s: State) { forall e :: e in s.items ==> Marked(s, e) }

  /** A call landing on an item with a pending transfer it does not resolve. */
  ghost predicate Clobbers(s: State, a: Action)
    requires Landable(s, a)
  {
    match a
    case Accept(t, _) => s.items[s.transfers[t].evidence].status == TransferPending && s.transfers[t].status != Pending
    case Reject(t, _) => s.items[s.transfers[t].evidence].status == TransferPending && s.transfers[t].status != Pending
    case Initiate(_, e, _, _, _) => s.items[e].status == TransferPending
    case Seal(e, _) => s.items[e].status == TransferPending
    case StartAnalysis(e, _) => s.items[e].status == TransferPending
    case CompleteAnalysis(e, _) => s.items[e].status == TransferPending
    case Submit(e, _) => s.items[e].status == TransferPending
    case Archive(e, _) => s.items[e].status == TransferPending
    case _ => false
  }

  /** A landing that leaves item `e` and its transfers alone leaves it as well marked as it was. */
  lemma MarkedUntouched(s: State, s': State, e: string)
    requires e in s.items && e in s'.items && s'.items[e].status == s.items[e].status
    requires forall t :: PendingFor(s', t, e) <==> PendingFor(s, t, e)
    ensures Marked(s', e) <==> Marked(s, e)
  {
  }

  lemma MoveKeepsMarkedIff(s: State, e: string, target: Status, actor: string)
    requires AllMarked(s) && e in s.items && target != TransferPending
    ensures AllMarked(Stamped(s, e, target, actor)) <==> s.items[e].status != TransferPending
  {
    var s' := Stamped(s, e, target, actor);
    forall x | x in s.items ensures x != e ==> Marked(s', x) {
      assert Marked(s, x);
      if x != e {
        MarkedUntouched(s, s', x);
      }
    }
    assert Marked(s, e);
    if s.items[e].status == TransferPending {
      var t :| PendingFor(s, t, e);
      assert PendingFor(s', t, e);
      assert !Marked(s', e);
    } else {
      assert forall t :: PendingFor(s', t, e) <==> PendingFor(s, t, e);
      assert Marked(s', e);
    }
  }

  lemma InitiateKeepsMarkedIff(s: State, a: Action)
    requires AllMarked(s) && Landable(s, a) && a.Initiate?
    ensures AllMarked(Landed(s, a)) <==> s.items[a.evidence].status != TransferPending
  {
    var s', e, t := Landed(s, a), a.evidence, a.transfer;
    forall x | x in s.items ensures x != e ==> Marked(s', x) {
      assert Marked(s, x);
      if x != e {
        assert forall u :: PendingFor(s', u, x) <==> PendingFor(s, u, x);
        MarkedUntouched(s, s', x);
      }
    }
    assert Marked(s, e);
    assert forall u :: PendingFor(s', u, e) <==> u == t || PendingFor(s, u, e);
    if s.items[e].status == TransferPending {
      var u :| PendingFor(s, u, e);
      assert PendingFor(s', u, e) && PendingFor(s', t, e) && u != t;
      assert !Marked(s', e);
    } else {
      assert PendingFor(s', t, e);
      assert Marked(s', e);
    }
  }

  lemma ResolveKeepsMarkedIff(s: State, a: Action)
    requires AllMarked(s) && Landable(s, a) && (a.Accept? || a.Reject?)
    ensures AllMarked(Landed(s, a)) <==> !Clobbers(s, a)
  {
    var s', t := Landed(s, a), a.transfer;
    var e := s.transfers[t].evidence;
    forall x | x in s.items ensures x != e ==> Marked(s', x) {
      assert Marked(s, x);
      if x != e {
        assert forall u :: PendingFor(s', u, x) <==> PendingFor(s, u, x);
        MarkedUntouched(s, s', x);
      }
    }
    assert Marked(s, e);
    assert forall u :: PendingFor(s', u, e) <==> u != t && PendingFor(s, u, e);
    if Clobbers(s, a) {
      var u :| PendingFor(s, u, e);
      assert PendingFor(s', u, e);
      assert !Marked(s', e);
    } else {
      assert PendingFor(s, t, e) <==> s.transfers[t].status == Pending;
      assert forall u :: !PendingFor(s', u, e);
      assert Marked(s', e);
    }
  }

  lemma RegisterKeepsMarked(s: State, a: Action)
    requires AllMarked(s) && References(s) && Landable(s, a) && a.Register?
    ensures AllMarked(Landed(s, a))
  {
    var s' := Landed(s, a);
    forall x | x in s'.items ensures Marked(s', x) {
      assert x in s.items ==> Marked(s, x);
      assert forall u :: PendingFor(s', u, x) <==> PendingFor(s, u, x);
    }
  }

  /** A landing keeps every item's mark true exactly unless it clobbers a pending one. */
  lemma LandingKeepsMarkedIff(s: State, a: Action)
    requires AllMarked(s) && References(s) && Landable(s, a)
    ensures AllMarked(Landed(s, a)) <==> !Clobbers(s, a)
  {
    match a
    case Register(_, _, _) => RegisterKeepsMarked(s, a);
    case Initiate(_, _, _, _, _) => InitiateKeepsMarkedIff(s, a);
    case Accept(_, _) => ResolveKeepsMarkedIff(s, a);
    case Reject(_, _) => ResolveKeepsMarkedIff(s, a);
    case Seal(e, who) => MoveKeepsMarkedIff(s, e, Sealed, who.id);
    case StartAnalysis(e, who) => MoveKeepsMarkedIff(s, e, UnderAnalysis, who.id);
    case CompleteAnalysis(e, who) => MoveKeepsMarkedIff(s, e, Analyzed, who.id);
    case Submit(e, who) => MoveKeepsMarkedIff(s, e, CourtSubmitted, who.id);
    case Archive(e, who) => MoveKeepsMarkedIff(s, e, Archived, who.id);
    case _ => OnlyItemsMatter(s, Landed(s, a));
  }

  lemma OnlyItemsMatter(s: State, s': State)
    requires s'.items == s.items && s'.transfers == s.transfers
    ensures AllMarked(s') <==> AllMarked(s)
  {
    assert forall t, e :: PendingFor(s', t, e) <==> PendingFor(s, t, e);
    forall e | e in s.items ensures Marked(s', e) <==> Marked(s, e) {
      MarkedUntouched(s, s', e);
    }
  }

  /** Step `k` lands a call on an item whose pending transfer it does not resolve. */
  ghost predicate ClobbersAt(worlds: seq<World>, steps: seq<Step>, k: nat) {
    var l := LandingAt(worlds, steps, k);
    l.Some? && Clobbers(worlds[k].s, l.value)
  }

  lemma StepKeepsMarkedIff(worlds: seq<World>, steps: seq<Step>, k: nat)
    requires IsRun(worlds, steps) && k < |steps| && AllMarked(worlds[k].s)
    ensures AllMarked(worlds[k + 1].s) <==> !ClobbersAt(worlds, steps, k)
  {
    RunKeepsReferences(worlds, steps, k);
    StepWrites(worlds, steps, k);
    var l := LandingAt(worlds, steps, k);
    if l.Some? {
      LandingKeepsMarkedIff(worlds[k].s, l.value);
    } else {
      OnlyItemsMatter(worlds[k].s, worlds[k + 1].s);
    }
  }

  /**
   * In a run of overlapping calls every item keeps one pending transfer while marked, and none otherwise, all
   * the way exactly when no call lands on a pending item other than to resolve that very transfer.
   */
  lemma {:induction false} MarkedThroughoutIff(worlds: seq<World>, steps: seq<Step>, i: nat)
    requires IsRun(worlds, steps) && i < |worlds|
    ensures (forall j: nat :: j <= i ==> AllMarked(worlds[j].s)) <==> (forall k: nat :: k < i ==> !ClobbersAt(worlds, steps, k))
  {
    if i > 0 {
      MarkedThroughoutIff(worlds, steps, i - 1);
      if AllMarked(worlds[i - 1].s) {
        StepKeepsMarkedIff(worlds, steps, i - 1);
      }
    }
  }

  /** Past the checks made up front, resolving a transfer fails exactly when the item has been moved on meanwhile. */
  lemma ResolutionFailsInsideIff(s: State, t: string, who: Caller)
    requires MayResolve(s, t, who)
    ensures var status := s.items[s.transfers[t].evidence].status;
            && (Apply(s, Accept(t, who)) == Err(Invalid) <==> status != TransferPending && status != Sealed)
            && (Apply(s, Reject(t, who)) == Err(Invalid) <==> status != TransferPending && status != Sealed)
            && (Apply(s, Accept(t, who)).Ok? <==> Apply(s, Accept(t, who)) != Err(Invalid))
            && (Apply(s, Reject(t, who)).Ok? <==> Apply(s, Reject(t, who)) != Err(Invalid))
  {
  }

  /** Where nothing was clobbered, it never fails. */
  lemma ResolutionSucceedsUnclobbered(worlds: seq<World>, steps: seq<Step>, i: nat, t: string, who: Caller)
    requires IsRun(worlds, steps) && i < |worlds| && forall k: nat :: k < i ==> !ClobbersAt(worlds, steps, k)
    requires MayResolve(worlds[i].s, t, who)
    ensures Apply(worlds[i].s, Accept(t, who)).Ok? && Apply(worlds[i].s, Reject(t, who)).Ok?
  {
    var s := worlds[i].s;
    MarkedThroughoutIff(worlds, steps, i);
    assert Marked(s, s.transfers[t].evidence) && PendingFor(s, t, s.transfers[t].evidence);
    ResolutionFailsInsideIff(s, t, who);
  }

  // ------------------------------------------------- custodians and analysts

  /** What has landed on one item: who registered it, the hand-overs, who last started its analysis. */
  datatype History = History(registrar: Option<string>, trail: seq<Handover>, analyst: Option<string>)

  ghost function Noted(h: History, s: State, a: Action, e: string): History
    requires Landable(s, a)
  {
    match a
    case Register(x, _, who) => if x == e then History(Some(who.id), [], None) else h
    case Accept(t, who) =>
      if s.transfers[t].evidence == e then h.(trail := h.trail + [Handover(t, s.transfers[t].sender, who.id)]) else h
    case StartAnalysis(x, who) => if x == e then h.(analyst := Some(who.id)) else h
    case _ => h
  }

  ghost function HistoryOf(worlds: seq<World>, steps: seq<Step>, i: nat, e: string): History {
    if i == 0 then History(None, [], None)
    else
      var before, l := HistoryOf(worlds, steps, i - 1, e), LandingAt(worlds, steps, i - 1);
      if l.Some? then Noted(before, worlds[i - 1].s, l.value, e) else before
  }

  /** The hand-overs lead from the registrar to the custodian. */
  ghost predicate ChainHolds(s: State, h: History, e: string) {
    e in s.items ==> h.registrar.Some? && LinksUp(h.trail, h.registrar.value, s.items[e].custodian)
  }

  /** An item under analysis is held by whoever started that. */
  ghost predicate AnalystHolds(s: State, h: History, e: string) {
    e in s.items && s.items[e].status == UnderAnalysis ==> h.analyst == Some(s.items[e].custodian)
  }

  /** An acceptance of a transfer whose sender is no longer the custodian. */
  ghost predicate JumpsAt(worlds: seq<World>, steps: seq<Step>, k: nat, e: string) {
    var l := LandingAt(worlds, steps, k);
    && l.Some? && l.value.Accept?
    && var row := worlds[k].s.transfers[l.value.transfer];
       row.evidence == e && row.sender != worlds[k].s.items[e].custodian
  }

  /** An analysis started by someone no longer the custodian. */
  ghost predicate StartsLateAt(worlds: seq<World>, steps: seq<Step>, k: nat, e: string) {
    var l := LandingAt(worlds, steps, k);
    l.Some? && l.value.StartAnalysis? && l.value.evidence == e && l.value.who.id != worlds[k].s.items[e].custodian
  }

  lemma OneEnd(trail: seq<Handover>, first: string, x: string, y: string)
    requires LinksUp(trail, first, x) && LinksUp(trail, first, y)
    ensures x == y
  {
  }

  lemma LinkedOn(trail: seq<Handover>, first: string, custodian: string, h: Handover)
    requires LinksUp(trail, first, custodian)
    ensures LinksUp(trail + [h], first, h.recipient) <==> h.sender == custodian
  {
    assert (trail + [h])[..|trail|] == trail;
    if LinksUp(trail, first, h.sender) {
      OneEnd(trail, first, custodian, h.sender);
    }
  }

  ghost predicate ChainAt(worlds: seq<World>, steps: seq<Step>, j: nat, e: string) {
    j < |worlds| && ChainHolds(worlds[j].s, HistoryOf(worlds, steps, j, e), e)
  }

  ghost predicate AnalystAt(worlds: seq<World>, steps: seq<Step>, j: nat, e: string) {
    j < |worlds| && AnalystHolds(worlds[j].s, HistoryOf(worlds, steps, j, e), e)
  }

  lemma StepKeepsChainIff(worlds: seq<World>, steps: seq<Step>, k: nat, e: string)
    requires IsRun(worlds, steps) && k < |steps| && ChainAt(worlds, steps, k, e)
    ensures ChainAt(worlds, steps, k + 1, e) <==> !JumpsAt(worlds, steps, k, e)
  {
    StepWrites(worlds, steps, k);
    var s, h, l := worlds[k].s, HistoryOf(worlds, steps, k, e), LandingAt(worlds, steps, k);
    if l.Some? && l.value.Accept? && s.transfers[l.value.transfer].evidence == e {
      var row := s.transfers[l.value.transfer];
      LinkedOn(h.trail, h.registrar.value, s.items[e].custodian, Handover(l.value.transfer, row.sender, l.value.who.id));
    }
  }

  /** Hand-overs link end to end all the way exactly when every acceptance lands while its sender is custodian. */
  lemma {:induction false} ChainThroughoutIff(worlds: seq<World>, steps: seq<Step>, i: nat, e: string)
    requires IsRun(worlds, steps) && i < |worlds|
    ensures (forall j: nat :: j <= i ==> ChainAt(worlds, steps, j, e))
       <==> (forall k: nat :: k < i ==> !JumpsAt(worlds, steps, k, e))
  {
    if i > 0 {
      ChainThroughoutIff(worlds, steps, i - 1, e);
      if ChainAt(worlds, steps, i - 1, e) {
        StepKeepsChainIff(worlds, steps, i - 1, e);
      }
    }
  }

  lemma StepKeepsAnalystIff(worlds: seq<World>, steps: seq<Step>, k: nat, e: string)
    requires IsRun(worlds, steps) && k < |steps| && AnalystAt(worlds, steps, k, e)
    ensures AnalystAt(worlds, steps, k + 1, e) <==> !StartsLateAt(worlds, steps, k, e)
  {
    StepWrites(worlds, steps, k);
  }

  /** An item under analysis is held by whoever started it all the way exactly when every start lands in its actor's custody. */
  lemma {:induction false} AnalystThroughoutIff(worlds: seq<World>, steps: seq<Step>, i: nat, e: string)
    requires IsRun(worlds, steps) && i < |worlds|
    ensures (forall j: nat :: j <= i ==> AnalystAt(worlds, steps, j, e))
       <==> (forall k: nat :: k < i ==> !StartsLateAt(worlds, steps, k, e))
  {
    if i > 0 {
      AnalystThroughoutIff(worlds, steps, i - 1, e);
      if AnalystAt(worlds, steps, i - 1, e) {
        StepKeepsAnalystIff(worlds, steps, i - 1, e);
      }
    }
  }

  // --------------------------------------------------------------- late calls

  /** The case whose rows a call writes. */
  ghost function CaseOf(s: State, a: Action): Option<string> {
    match a
    case CreateCase(c, _) => Some(c)
    case SetCaseStatus(c, _, _) => Some(c)
    case Upload(c, _, _) => Some(c)
    case Register(_, c, _) => Some(c)
    case Initiate(_, e, _, _, _) => CaseOfItem(s, e)
    case Accept(t, _) => if t in s.transfers then CaseOfItem(s, s.transfers[t].evidence) else None
    case Reject(t, _) => if t in s.transfers then CaseOfItem(s, s.transfers[t].evidence) else None
    case Seal(e, _) => CaseOfItem(s, e)
    case StartAnalysis(e, _) => CaseOfItem(s, e)
    case CompleteAnalysis(e, _) => CaseOfItem(s, e)
    case Submit(e, _) => CaseOfItem(s, e)
    case Archive(e, _) => CaseOfItem(s, e)
  }

  ghost function CaseOfItem(s: State, e: string): Option<string> {
    if e in s.items then Some(s.items[e].caseId) else None
  }

  /** Rows stay, and neither an item's case nor a transfer's item ever changes. */
  ghost predicate Lasting(s: State, s': State) {
    && (forall c :: c in s.cases ==> c in s'.cases)
    && (forall e :: e in s.items ==> e in s'.items && s'.items[e].caseId == s.items[e].caseId)
    && (forall t :: t in s.transfers ==> t in s'.transfers && s'.transfers[t].evidence == s.transfers[t].evidence)
  }

  lemma LandingLasts(s: State, a: Action)
    requires Landable(s, a)
    ensures Lasting(s, Landed(s, a))
  {
  }

  lemma {:induction false} RunLasts(worlds: seq<World>, steps: seq<Step>, i: nat, j: nat)
    requires IsRun(worlds, steps) && i <= j < |worlds|
    ensures Lasting(worlds[i].s, worlds[j].s)
  {
    if i < j {
      RunLasts(worlds, steps, i, j - 1);
      StepWrites(worlds, steps, j - 1);
      var l := LandingAt(worlds, steps, j - 1);
      if l.Some? {
        LandingLasts(worlds[j - 1].s, l.value);
      }
    }
  }

  /** Step `k` is where request `r`, passing its checks, read its rows for call `a`. */
  ghost predicate ReadsAt(worlds: seq<World>, steps: seq<Step>, k: nat, r: nat, a: Action) {
    k < |steps| && k < |worlds| && steps[k] == Read(r, a) && Apply(worlds[k].s, a).Ok? && !WritesNothing(worlds[k].s, a)
  }

  /** What is in flight was read, with its checks passed. */
  lemma {:induction false} InFlightWasRead(worlds: seq<World>, steps: seq<Step>, i: nat, r: nat) returns (k: nat)
    requires IsRun(worlds, steps) && i < |worlds| && r in worlds[i].inFlight
    ensures k < i && ReadsAt(worlds, steps, k, r, worlds[i].inFlight[r])
  {
    assert i > 0;
    assert Taken(worlds, steps, i - 1);
    if ReadsAt(worlds, steps, i - 1, r, worlds[i].inFlight[r]) {
      k := i - 1;
    } else {
      k := InFlightWasRead(worlds, steps, i - 1, r);
    }
  }

  /** The gates at reading time. */
  lemma GateAtRead(s: State, a: Action, c: string)
    requires Apply(s, a).Ok? && CaseOf(s, a) == Some(c) && !a.CreateCase?
    ensures c in s.cases
    ensures s.cases[c] !in Authorization.MUTABLE ==> a.Archive? || a.SetCaseStatus?
    ensures s.cases[c] == Authorization.Archived && a.SetCaseStatus? ==> WritesNothing(s, a)
  {
  }

  lemma LandingElsewhere(s: State, a: Action, c: string)
    requires References(s) && Landable(s, a) && CaseOf(s, a) != Some(c)
    ensures CaseUntouched(s, Landed(s, a), c)
  {
    var s' := Landed(s, a);
    if a.Upload? {
      UnrelatedUpload(s.versions, Version(a.caseId, a.document), c);
    }
    forall t, e | e in s.items && s.items[e].caseId == c ensures SameTransfer(s, s', t, e) {}
  }

  /** Whether a call landing on a case changes its items, transfers or versions, beyond archiving what was submitted. */
  ghost predicate Alters(s: State, a: Action)
    requires Landable(s, a)
  {
    match a
    case CreateCase(_, _) => false
    case SetCaseStatus(_, _, _) => false
    case Upload(_, _, _) => true
    case Register(_, _, _) => true
    case Initiate(_, _, _, _, _) => true
    case Accept(t, who) =>
      var e := s.transfers[t].evidence;
      s.transfers[t].status != Completed || s.items[e].status != InCustody || s.items[e].custodian != who.id
    case Reject(t, _) => s.transfers[t].status != Rejected || s.items[s.transfers[t].evidence].status != InCustody
    case Seal(e, _) => s.items[e].status != Sealed
    case StartAnalysis(e, _) => s.items[e].status != UnderAnalysis
    case CompleteAnalysis(e, _) => s.items[e].status != Analyzed
    case Submit(e, _) => s.items[e].status != CourtSubmitted
    case Archive(e, _) => s.items[e].status != Archived && s.items[e].status != CourtSubmitted
  }

  lemma MoveAltersIff(s: State, e: string, target: Status, actor: string, c: string)
    requires References(s) && e in s.items && s.items[e].caseId == c
    ensures CaseUntouched(s, Stamped(s, e, target, actor), c)
       <==> s.items[e].status == target || (s.items[e].status == CourtSubmitted && target == Archived)
  {
    var s' := Stamped(s, e, target, actor);
    assert s'.items[e].status == target;
    forall t, x | x in s.items && s.items[x].caseId == c ensures SameTransfer(s, s', t, x) {}
  }

  lemma ResolveAltersIff(s: State, a: Action, c: string)
    requires References(s) && Landable(s, a) && CaseOf(s, a) == Some(c) && (a.Accept? || a.Reject?)
    ensures CaseUntouched(s, Landed(s, a), c) <==> !Alters(s, a)
  {
    var s', t := Landed(s, a), a.transfer;
    var e := s.transfers[t].evidence;
    assert e in s.items && s.items[e].caseId == c;
    if !Alters(s, a) {
      forall u, x | x in s.items && s.items[x].caseId == c ensures SameTransfer(s, s', u, x) {}
    } else {
      assert s'.transfers[t] != s.transfers[t] ==> !SameTransfer(s, s', t, e);
    }
  }

  lemma AdditionAlters(s: State, a: Action, c: string)
    requires References(s) && Landable(s, a) && CaseOf(s, a) == Some(c) && (a.Upload? || a.Register? || a.Initiate?)
    ensures !CaseUntouched(s, Landed(s, a), c)
  {
    var s' := Landed(s, a);
    if a.Upload? {
      assert (s.versions + [Version(c, a.document)])[..|s.versions|] == s.versions;
      assert |VersionsOf(s'.versions, c)| == |VersionsOf(s.versions, c)| + 1;
    } else if a.Initiate? {
      assert !SameTransfer(s, s', a.transfer, a.evidence);
    } else {
      assert a.evidence in s'.items && s'.items[a.evidence].caseId == c;
    }
  }

  /** A landing changes a case exactly when it is on that case and alters it. */
  lemma LandingAltersIff(s: State, a: Action, c: string)
    requires References(s) && Landable(s, a)
    ensures CaseUntouched(s, Landed(s, a), c) <==> !(CaseOf(s, a) == Some(c) && Alters(s, a))
  {
    if CaseOf(s, a) != Some(c) {
      LandingElsewhere(s, a, c);
    } else {
      match a
      case Upload(_, _, _) => AdditionAlters(s, a, c);
      case Register(_, _, _) => AdditionAlters(s, a, c);
      case Initiate(_, _, _, _, _) => AdditionAlters(s, a, c);
      case Accept(_, _) => ResolveAltersIff(s, a, c);
      case Reject(_, _) => ResolveAltersIff(s, a, c);
      case Seal(e, who) => MoveAltersIff(s, e, Sealed, who.id, c);
      case StartAnalysis(e, who) => MoveAltersIff(s, e, UnderAnalysis, who.id, c);
      case CompleteAnalysis(e, who) => MoveAltersIff(s, e, Analyzed, who.id, c);
      case Submit(e, who) => MoveAltersIff(s, e, CourtSubmitted, who.id, c);
      case Archive(e, who) => MoveAltersIff(s, e, Archived, who.id, c);
      case _ => SameButCases(s, Landed(s, a), c);
    }
  }

  lemma SameButCases(s: State, s': State, c: string)
    requires s'.items == s.items && s'.transfers == s.transfers && s'.versions == s.versions
    ensures CaseUntouched(s, s', c)
  {
    forall t, e | e in s.items && s.items[e].caseId == c ensures SameTransfer(s, s', t, e) {}
  }

  /** Step `i` lands a call on case `c` that alters it. */
  ghost predicate AltersAt(worlds: seq<World>, steps: seq<Step>, i: nat, c: string) {
    var l := LandingAt(worlds, steps, i);
    l.Some? && CaseOf(worlds[i].s, l.value) == Some(c) && Alters(worlds[i].s, l.value)
  }

  /** A step changes a case exactly when it lands a call that alters it. */
  lemma StepAltersIff(worlds: seq<World>, steps: seq<Step>, i: nat, c: string)
    requires IsRun(worlds, steps) && i < |steps|
    ensures CaseUntouched(worlds[i].s, worlds[i + 1].s, c) <==> !AltersAt(worlds, steps, i, c)
  {
    RunKeepsReferences(worlds, steps, i);
    StepWrites(worlds, steps, i);
    var l := LandingAt(worlds, steps, i);
    if l.Some? {
      LandingAltersIff(worlds[i].s, l.value, c);
    } else {
      SameButCases(worlds[i].s, worlds[i + 1].s, c);
    }
  }

  /** Request `r` read its rows for call `a` on case `c` before step `i`, when the case's status was in `statuses`. */
  ghost predicate ReadBefore(worlds: seq<World>, steps: seq<Step>, i: nat, r: nat, a: Action, c: string, statuses: set<CaseStatus>) {
    exists k: nat :: k < i && ReadsAt(worlds, steps, k, r, a) && c in worlds[k].s.cases && worlds[k].s.cases[c] in statuses
  }

  /**
   * A frozen case is changed by a step exactly when the step lands a call on it that alters it; and except for
   * archiving an item, such a call passed its checks while the case was still open for changes.
   */
  lemma FrozenCaseChangesIff(worlds: seq<World>, steps: seq<Step>, i: nat, c: string)
    requires IsRun(worlds, steps) && i < |steps| && Frozen(worlds[i].s, c)
    ensures !CaseUntouched(worlds[i].s, worlds[i + 1].s, c) <==> AltersAt(worlds, steps, i, c)
    ensures AltersAt(worlds, steps, i, c) ==>
              var a := LandingAt(worlds, steps, i).value;
              a.Archive? || ReadBefore(worlds, steps, i, steps[i].r, a, c, Authorization.MUTABLE)
  {
    StepAltersIff(worlds, steps, i, c);
    if AltersAt(worlds, steps, i, c) {
      var a := LandingAt(worlds, steps, i).value;
      var k := InFlightWasRead(worlds, steps, i, steps[i].r);
      RunLasts(worlds, steps, k, i);
      GateAtRead(worlds[k].s, a, c);
    }
  }

  /** Step `i` lands a status change that takes case `c` out of the archive. */
  ghost predicate ReopensAt(worlds: seq<World>, steps: seq<Step>, i: nat, c: string) {
    var l := LandingAt(worlds, steps, i);
    l.Some? && l.value.SetCaseStatus? && l.value.caseId == c && l.value.target != Authorization.Archived
  }

  const NOT_ARCHIVED: set<CaseStatus> := Authorization.MUTABLE + {Authorization.UnderTrial, Authorization.Closed}

  /**
   * An archived case is reopened by a step exactly when the step lands a change of its status to another one;
   * and such a call read the case before it was archived.
   */
  lemma ArchivedCaseReopensIff(worlds: seq<World>, steps: seq<Step>, i: nat, c: string)
    requires IsRun(worlds, steps) && i < |steps|
    requires c in worlds[i].s.cases && worlds[i].s.cases[c] == Authorization.Archived
    ensures c in worlds[i + 1].s.cases
    ensures worlds[i + 1].s.cases[c] != Authorization.Archived <==> ReopensAt(worlds, steps, i, c)
    ensures ReopensAt(worlds, steps, i, c) ==>
              ReadBefore(worlds, steps, i, steps[i].r, LandingAt(worlds, steps, i).value, c, NOT_ARCHIVED)
  {
    StepWrites(worlds, steps, i);
    if ReopensAt(worlds, steps, i, c) {
      var a := LandingAt(worlds, steps, i).value;
      var k := InFlightWasRead(worlds, steps, i, steps[i].r);
      GateAtRead(worlds[k].s, a, c);
      assert worlds[k].s.cases[c] in NOT_ARCHIVED;
    }
  }
}
