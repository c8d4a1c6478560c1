/**
 * Chain of custody: evidence items, their transfers and the audit trail that mirrors them, as the evidence
 * endpoints change them. Case status changes and document uploads are included because custody is gated on
 * the case.
 */
module Custody {
  import opened Basics
  import Authorization

  type CaseStatus = Authorization.CaseStatus
  type Authority = Authorization.Authority

  datatype Status =
    | Collected | Registered | Sealed | InCustody | TransferPending | UnderAnalysis | Analyzed | CourtSubmitted | Archived

  /** `VALID_TRANSITIONS`. */
  function Next(s: Status): set<Status> {
    match s
    case Collected => {Registered}
    case Registered => {Sealed}
    case Sealed => {InCustody, TransferPending}
    case InCustody => {TransferPending, UnderAnalysis}
    case TransferPending => {InCustody}
    case UnderAnalysis => {Analyzed}
    case Analyzed => {CourtSubmitted}
    case CourtSubmitted => {Archived}
    case Archived => {}
  }

  /** The statuses whose arrival is audited by `update_status` itself. */
  const AUDITED: set<Status> := {Sealed, UnderAnalysis, Analyzed, CourtSubmitted, Archived}

  datatype Item = Item(caseId: string, status: Status, custodian: string)

  datatype TransferStatus = Pending | Completed | Rejected

  datatype Transfer = Transfer(evidence: string, sender: string, recipient: string, status: TransferStatus)

  /** Audit events about custody, with the fields the code records for each. */
  datatype Entry =
    | EvidenceCreated(evidence: string, actor: string)
    | StatusChanged(evidence: string, actor: string, status: Status)
    | TransferCreated(transfer: string, actor: string, about: string, toUser: string)
    | TransferAccepted(transfer: string, actor: string, fromUser: string)
    | TransferRejected(transfer: string, actor: string, fromUser: string)

  datatype Version = Version(caseId: string, document: string)

  datatype State = State(
    cases: map<string, CaseStatus>,
    items: map<string, Item>,
    transfers: map<string, Transfer>,
    versions: seq<Version>,
    log: seq<Entry>)

  const START := State(map[], map[], map[], [], [])

  /** Who calls, and what authorisation makes of them for the case concerned. */
  datatype Caller = Caller(id: string, authority: Authority)

  datatype Action =
    | CreateCase(caseId: string, status: CaseStatus)
    | SetCaseStatus(caseId: string, target: CaseStatus, who: Caller)
    | Upload(caseId: string, document: string, who: Caller)
    | Register(evidence: string, caseId: string, who: Caller)
    | Seal(evidence: string, who: Caller)
    | StartAnalysis(evidence: string, who: Caller)
    | CompleteAnalysis(evidence: string, who: Caller)
    | Submit(evidence: string, who: Caller)
    | Archive(evidence: string, who: Caller)
    | Initiate(transfer: string, evidence: string, toUser: string, toUserActive: bool, who: Caller)
    | Accept(transfer: string, who: Caller)
    | Reject(transfer: string, who: Caller)

  datatype Refusal = NotFound | Denied | Invalid | Conflict

  /** `AuthorizationService.require` for a case. */
  function Require(a: Authority, action: Authorization.Permission, status: CaseStatus): Option<Refusal> {
    if Authorization.Allows(a, action, status) then None
    else if a.access.None? then Some(NotFound)
    else Some(Denied)
  }

  function RequireForItem(s: State, evidence: string, who: Caller, action: Authorization.Permission): Option<Refusal> {
    if evidence !in s.items || s.items[evidence].caseId !in s.cases then Some(NotFound)
    else Require(who.authority, action, s.cases[s.items[evidence].caseId])
  }

  /** `update_status`. */
  function Moved(s: State, evidence: string, target: Status, actor: string): Result<State, Refusal>
    requires evidence in s.items
  {
    if target !in Next(s.items[evidence].status) then Err(Invalid)
    else Ok(s.(items := s.items[evidence := s.items[evidence].(status := target)],
               log := s.log + if target in AUDITED then [StatusChanged(evidence, actor, target)] else []))
  }

  function Logged(r: Result<State, Refusal>, e: Entry): Result<State, Refusal> {
    match r
    case Ok(s) => Ok(s.(log := s.log + [e]))
    case Err(x) => Err(x)
  }

  /** One endpoint call: the new state, or the refusal that rolled it back. */
  function Apply(s: State, a: Action): Result<State, Refusal> {
    match a
    case CreateCase(c, status) =>
      if c in s.cases then Err(Conflict) else Ok(s.(cases := s.cases[c := status]))
    case SetCaseStatus(c, target, who) =>
      if c !in s.cases then Err(NotFound)
      else
        var refusal := Require(who.authority, Authorization.CaseView, s.cases[c]);
        if refusal.Some? then Err(refusal.value)
        else if who.authority.access.value != Authorization.Manage then Err(Denied)
        else if s.cases[c] == Authorization.Archived && target != Authorization.Archived then Err(Denied)
        else Ok(s.(cases := s.cases[c := target]))
    case Upload(c, document, who) =>
      if c !in s.cases then Err(NotFound)
      else
        var update := Require(who.authority, Authorization.CaseUpdate, s.cases[c]);
        var upload := Require(who.authority, Authorization.DocumentUpload, s.cases[c]);
        if update.Some? then Err(update.value)
        else if upload.Some? then Err(upload.value)
        else Ok(s.(versions := s.versions + [Version(c, document)]))
    case Register(e, c, who) =>
      if c !in s.cases then Err(NotFound)
      else
        var refusal := Require(who.authority, Authorization.EvidenceCreate, s.cases[c]);
        if refusal.Some? then Err(refusal.value)
        else if s.cases[c] == Authorization.Archived then Err(Denied)
        else if e in s.items then Err(Conflict)
        else Ok(s.(items := s.items[e := Item(c, Registered, who.id)], log := s.log + [EvidenceCreated(e, who.id)]))
    case Seal(e, who) => GatedMove(s, e, who, Authorization.EvidenceSeal, false, Sealed)
    case StartAnalysis(e, who) => GatedMove(s, e, who, Authorization.EvidenceAnalyze, true, UnderAnalysis)
    case CompleteAnalysis(e, who) => GatedMove(s, e, who, Authorization.EvidenceAnalyze, true, Analyzed)
    case Submit(e, who) => GatedMove(s, e, who, Authorization.EvidenceSubmit, false, CourtSubmitted)
    case Archive(e, who) => GatedMove(s, e, who, Authorization.EvidenceArchive, false, Archived)
    case Initiate(t, e, toUser, active, who) => Initiated(s, t, e, toUser, active, who)
    case Accept(t, who) =>
      if t !in s.transfers then Err(NotFound)
      else
        var row := s.transfers[t];
        var refusal := RequireForItem(s, row.evidence, who, Authorization.EvidenceTransfer);
        if refusal.Some? then Err(refusal.value)
        else if row.status != Pending then Err(Conflict)
        else if row.recipient != who.id then Err(Denied)
        else
          var taken := s.(transfers := s.transfers[t := row.(status := Completed)],
                          items := s.items[row.evidence := s.items[row.evidence].(custodian := who.id)]);
          Logged(Moved(taken, row.evidence, InCustody, who.id), TransferAccepted(t, who.id, row.sender))
    case Reject(t, who) =>
      if t !in s.transfers then Err(NotFound)
      else
        var row := s.transfers[t];
        var refusal := RequireForItem(s, row.evidence, who, Authorization.EvidenceTransfer);
        if refusal.Some? then Err(refusal.value)
        else if row.status != Pending then Err(Conflict)
        else if row.recipient != who.id then Err(Denied)
        else
          var turned := s.(transfers := s.transfers[t := row.(status := Rejected)]);
          Logged(Moved(turned, row.evidence, InCustody, who.id), TransferRejected(t, who.id, row.sender))
  }

  /** The seal, analysis, submit and archive endpoints. */
  function GatedMove(s: State, e: string, who: Caller, action: Authorization.Permission, custodianOnly: bool, target: Status)
    : Result<State, Refusal>
  {
    var refusal := RequireForItem(s, e, who, action);
    if refusal.Some? then Err(refusal.value)
    else if custodianOnly && s.items[e].custodian != who.id then Err(Denied)
    else Moved(s, e, target, who.id)
  }

  function Initiated(s: State, t: string, e: string, toUser: string, active: bool, who: Caller): Result<State, Refusal> {
    var refusal := RequireForItem(s, e, who, Authorization.EvidenceTransfer);
    if refusal.Some? then Err(refusal.value)
    else if s.items[e].status == Archived then Err(Denied)
    else if s.cases[s.items[e].caseId] == Authorization.UnderTrial then Err(Denied)
    else if s.items[e].custodian != who.id then Err(Denied)
    else if who.id == toUser then Err(Invalid)
    else if s.items[e].status == TransferPending then Err(Conflict)
    else if !active then Err(Invalid)
    else if t in s.transfers then Err(Conflict)
    else
      var started := s.(transfers := s.transfers[t := Transfer(e, who.id, toUser, Pending)]);
      Logged(Moved(started, e, TransferPending, who.id), TransferCreated(t, who.id, e, toUser))
  }

  /** The state after a sequence of calls; a refused call changes nothing. */
  function After(s: State, actions: seq<Action>): State {
    if actions == [] then s
    else
      var before := After(s, actions[..|actions| - 1]);
      match Apply(before, actions[|actions| - 1])
      case Ok(next) => next
      case Err(_) => before
  }

  // --------------------------------------------------- reading the audit trail

  datatype Shown = Shown(status: Status, custodian: string)

  datatype Handover = Handover(transfer: string, sender: string, recipient: string)

  /** What the audit events alone say: current items, hand-overs so far, who analysed what. */
  datatype Picture = Picture(
    items: map<string, Shown>,
    subject: map<string, string>,          // transfer to item, from its TRANSFER_CREATED event
    registrar: map<string, string>,
    trail: map<string, seq<Handover>>,
    analyst: map<string, string>)

  function Advance(p: Picture, e: Entry): Picture {
    match e
    case EvidenceCreated(id, actor) =>
      p.(items := p.items[id := Shown(Registered, actor)], registrar := p.registrar[id := actor], trail := p.trail[id := []])
    case StatusChanged(id, actor, status) =>
      if id !in p.items then p
      else p.(items := p.items[id := p.items[id].(status := status)],
              analyst := if status == UnderAnalysis then p.analyst[id := actor] else p.analyst)
    case TransferCreated(t, _, id, _) =>
      if id !in p.items then p
      else p.(items := p.items[id := p.items[id].(status := TransferPending)], subject := p.subject[t := id])
    case TransferAccepted(t, actor, sender) =>
      if t !in p.subject || p.subject[t] !in p.trail then p
      else
        var id := p.subject[t];
        p.(items := p.items[id := Shown(InCustody, actor)],
           trail := p.trail[id := p.trail[id] + [Handover(t, sender, actor)]])
    case TransferRejected(t, _, _) =>
      if t !in p.subject || p.subject[t] !in p.items then p
      else p.(items := p.items[p.subject[t] := p.items[p.subject[t]].(status := InCustody)])
  }

  /** Replaying the audit trail from nothing. */
  function Replay(log: seq<Entry>): Picture {
    if log == [] then Picture(map[], map[], map[], map[], map[])
    else Advance(Replay(log[..|log| - 1]), log[|log| - 1])
  }

  /** The hand-overs link end to end, from `first` to `last`. */
  ghost predicate LinksUp(trail: seq<Handover>, first: string, last: string) {
    if trail == [] then first == last
    else
      var n := |trail| - 1;
      trail[n].recipient == last && LinksUp(trail[..n], first, trail[n].sender)
  }

  // --------------------------------------------------------------- invariants

  ghost predicate PendingFor(s: State, t: string, e: string) {
    t in s.transfers && s.transfers[t].status == Pending && s.transfers[t].evidence == e
  }

  ghost predicate References(s: State) {
    && (forall e :: e in s.items ==> s.items[e].caseId in s.cases)
    && (forall t :: t in s.transfers ==> s.transfers[t].evidence in s.items)
  }

  /** A pending transfer comes from the custodian, to someone else, of an item that is marked so. */
  ghost predicate PendingOk(s: State) {
    && (forall t, e :: PendingFor(s, t, e) ==>
          && e in s.items && s.items[e].status == TransferPending
          && s.transfers[t].sender == s.items[e].custodian && s.transfers[t].sender != s.transfers[t].recipient)
    && (forall e :: e in s.items && s.items[e].status == TransferPending ==> exists t :: PendingFor(s, t, e))
    && (forall t, u, e :: PendingFor(s, t, e) && PendingFor(s, u, e) ==> t == u)
  }

  function ShownItems(items: map<string, Item>): map<string, Shown> {
    map e | e in items :: Shown(items[e].status, items[e].custodian)
  }

  function Subjects(transfers: map<string, Transfer>): map<string, string> {
    map t | t in transfers :: transfers[t].evidence
  }

  /** The trail tells every item's status and custodian and every transfer's item. */
  ghost predicate Mirrored(s: State, p: Picture) {
    && p.items == ShownItems(s.items)
    && p.subject == Subjects(s.transfers)
    && p.registrar.Keys == s.items.Keys && p.trail.Keys == s.items.Keys
  }

  ghost predicate Recorded(s: State, e: string, h: Handover) {
    h.transfer in s.transfers && s.transfers[h.transfer] == Transfer(e, h.sender, h.recipient, Completed)
  }

  ghost predicate CompletedFor(s: State, t: string, e: string) {
    t in s.transfers && s.transfers[t].evidence == e && s.transfers[t].status == Completed
  }

  /** An item's completed transfers, in the order they were accepted, lead from its registrar to its custodian. */
  ghost predicate TrailOk(s: State, p: Picture, e: string)
    requires e in s.items && e in p.trail && e in p.registrar
  {
    && LinksUp(p.trail[e], p.registrar[e], s.items[e].custodian)
    && (forall h :: h in p.trail[e] ==> Recorded(s, e, h))
    && (forall t :: CompletedFor(s, t, e) ==>
          Handover(t, s.transfers[t].sender, s.transfers[t].recipient) in p.trail[e])
    && Distinct(p.trail[e])
  }

  ghost predicate AnalystOk(s: State, p: Picture, e: string)
    requires e in s.items
  {
    s.items[e].status == UnderAnalysis ==> e in p.analyst && p.analyst[e] == s.items[e].custodian
  }

  ghost predicate ItemOk(s: State, p: Picture, e: string)
    requires e in s.items && e in p.trail && e in p.registrar
  {
    TrailOk(s, p, e) && AnalystOk(s, p, e)
  }

  ghost predicate Inv(s: State) {
    var p := Replay(s.log);
    References(s) && PendingOk(s) && Mirrored(s, p) && forall e :: e in s.items ==> ItemOk(s, p, e)
  }

  // ----------------------------------------------------- what a call does

  /** The five ways a successful call can change items, transfers and trail. */
  datatype Effect =
    | Idle
    | Add(evidence: string, caseId: string, actor: string)
    | Shift(evidence: string, target: Status, actor: string)
    | Open(transfer: string, evidence: string, recipient: string)
    | Settle(transfer: string, accepted: bool)

  ghost function EffectFor(a: Action): Effect {
    match a
    case CreateCase(_, _) => Idle
    case SetCaseStatus(_, _, _) => Idle
    case Upload(_, _, _) => Idle
    case Register(e, c, who) => Add(e, c, who.id)
    case Seal(e, who) => Shift(e, Sealed, who.id)
    case StartAnalysis(e, who) => Shift(e, UnderAnalysis, who.id)
    case CompleteAnalysis(e, who) => Shift(e, Analyzed, who.id)
    case Submit(e, who) => Shift(e, CourtSubmitted, who.id)
    case Archive(e, who) => Shift(e, Archived, who.id)
    case Initiate(t, e, toUser, _, _) => Open(t, e, toUser)
    case Accept(t, _) => Settle(t, true)
    case Reject(t, _) => Settle(t, false)
  }

  ghost predicate Enabled(s: State, f: Effect) {
    match f
    case Idle => true
    case Add(e, c, _) => e !in s.items && c in s.cases
    case Shift(e, target, actor) =>
      && e in s.items && target in Next(s.items[e].status) && target in AUDITED
      && (target == UnderAnalysis || target == Analyzed ==> actor == s.items[e].custodian)
    case Open(t, e, recipient) =>
      e in s.items && t !in s.transfers && TransferPending in Next(s.items[e].status) && recipient != s.items[e].custodian
    case Settle(t, _) =>
      && t in s.transfers && s.transfers[t].status == Pending
      && s.transfers[t].evidence in s.items && InCustody in Next(s.items[s.transfers[t].evidence].status)
  }

  ghost function EntryFor(s: State, f: Effect): Entry
    requires Enabled(s, f) && !f.Idle?
  {
    match f
    case Add(e, _, actor) => EvidenceCreated(e, actor)
    case Shift(e, target, actor) => StatusChanged(e, actor, target)
    case Open(t, e, recipient) => TransferCreated(t, s.items[e].custodian, e, recipient)
    case Settle(t, accepted) =>
      var row := s.transfers[t];
      if accepted then TransferAccepted(t, row.recipient, row.sender) else TransferRejected(t, row.recipient, row.sender)
  }

  ghost function ItemsAfter(s: State, f: Effect): map<string, Item>
    requires Enabled(s, f)
  {
    match f
    case Idle => s.items
    case Add(e, c, actor) => s.items[e := Item(c, Registered, actor)]
    case Shift(e, target, _) => s.items[e := s.items[e].(status := target)]
    case Open(_, e, _) => s.items[e := s.items[e].(status := TransferPending)]
    case Settle(t, accepted) =>
      var row := s.transfers[t];
      var item := s.items[row.evidence];
      s.items[row.evidence := Item(item.caseId, InCustody, if accepted then row.recipient else item.custodian)]
  }

  ghost function TransfersAfter(s: State, f: Effect): map<string, Transfer>
    requires Enabled(s, f)
  {
    match f
    case Open(t, e, recipient) => s.transfers[t := Transfer(e, s.items[e].custodian, recipient, Pending)]
    case Settle(t, accepted) => s.transfers[t := s.transfers[t].(status := if accepted then Completed else Rejected)]
    case _ => s.transfers
  }

  /** `s'` is `s` with the effect performed; cases may have been added or changed besides. */
  ghost predicate Performs(s: State, f: Effect, s': State) {
    && Enabled(s, f)
    && s'.items == ItemsAfter(s, f)
    && s'.transfers == TransfersAfter(s, f)
    && s'.log == (if f.Idle? then s.log else s.log + [EntryFor(s, f)])
    && s.cases.Keys <= s'.cases.Keys
  }

  lemma CaseCallPerforms(s: State, a: Action)
    requires Apply(s, a).Ok? && (a.CreateCase? || a.SetCaseStatus? || a.Upload? || a.Register?)
    ensures Performs(s, EffectFor(a), Apply(s, a).value)
  {
  }

  lemma MoveCallPerforms(s: State, a: Action)
    requires Apply(s, a).Ok? && (a.Seal? || a.StartAnalysis? || a.CompleteAnalysis? || a.Submit? || a.Archive?)
    ensures Performs(s, EffectFor(a), Apply(s, a).value)
  {
  }

  lemma InitiateCallPerforms(s: State, a: Action)
    requires Apply(s, a).Ok? && a.Initiate?
    ensures Performs(s, EffectFor(a), Apply(s, a).value)
  {
  }

  lemma SettleCallPerforms(s: State, a: Action)
    requires Apply(s, a).Ok? && (a.Accept? || a.Reject?)
    ensures Performs(s, EffectFor(a), Apply(s, a).value)
  {
    var s' := Apply(s, a).value;
    var row := s.transfers[a.transfer];
    assert row.recipient == a.who.id;
    assert s'.items[row.evidence].status == InCustody;
  }

  /** Every call that is not refused has the effect its endpoint is for. */
  lemma CallPerforms(s: State, a: Action)
    requires Apply(s, a).Ok?
    ensures Performs(s, EffectFor(a), Apply(s, a).value)
  {
    if a.CreateCase? || a.SetCaseStatus? || a.Upload? || a.Register? {
      CaseCallPerforms(s, a);
    } else if a.Initiate? {
      InitiateCallPerforms(s, a);
    } else if a.Accept? || a.Reject? {
      SettleCallPerforms(s, a);
    } else {
      MoveCallPerforms(s, a);
    }
  }

  // ------------------------------------------------------------------- proof

  lemma ReplayNext(log: seq<Entry>, e: Entry)
    ensures Replay(log + [e]) == Advance(Replay(log), e)
  {
    assert (log + [e])[..|log|] == log;
  }

  ghost predicate MirrorInv(s: State) { References(s) && Mirrored(s, Replay(s.log)) }

  lemma ShownUpdate(items: map<string, Item>, e: string, item: Item)
    ensures ShownItems(items[e := item]) == ShownItems(items)[e := Shown(item.status, item.custodian)]
  {
  }

  lemma SubjectsUpdate(transfers: map<string, Transfer>, t: string, row: Transfer)
    ensures Subjects(transfers[t := row]) == Subjects(transfers)[t := row.evidence]
    ensures t in transfers && transfers[t].evidence == row.evidence ==> Subjects(transfers[t := row]) == Subjects(transfers)
  {
  }

  /** The picture after an effect, given the picture before. */
  ghost function PictureAfter(s: State, f: Effect, p: Picture): Picture
    requires Enabled(s, f)
  {
    if f.Idle? then p else Advance(p, EntryFor(s, f))
  }

  lemma MirrorAdvances(s: State, f: Effect, s': State, p: Picture)
    requires References(s) && Mirrored(s, p) && Performs(s, f, s')
    ensures Mirrored(s', PictureAfter(s, f, p))
  {
    match f
    case Idle =>
    case Add(e, c, actor) => ShownUpdate(s.items, e, s'.items[e]);
    case Shift(e, _, _) => ShownUpdate(s.items, e, s'.items[e]);
    case Open(t, e, _) => OpenMirrored(s, f, s', p);
    case Settle(t, _) => SettleMirrored(s, f, s', p);
  }

  lemma OpenMirrored(s: State, f: Effect, s': State, p: Picture)
    requires References(s) && Mirrored(s, p) && Performs(s, f, s') && f.Open?
    ensures Mirrored(s', PictureAfter(s, f, p))
  {
    ShownUpdate(s.items, f.evidence, s'.items[f.evidence]);
    SubjectsUpdate(s.transfers, f.transfer, s'.transfers[f.transfer]);
  }

  lemma SettleMirrored(s: State, f: Effect, s': State, p: Picture)
    requires References(s) && Mirrored(s, p) && Performs(s, f, s') && f.Settle?
    ensures Mirrored(s', PictureAfter(s, f, p))
  {
    var e := s.transfers[f.transfer].evidence;
    ShownUpdate(s.items, e, s'.items[e]);
    SubjectsUpdate(s.transfers, f.transfer, s'.transfers[f.transfer]);
  }

  lemma ReferencesKept(s: State, f: Effect, s': State)
    requires References(s) && Performs(s, f, s')
    ensures References(s')
  {
  }

  lemma MirrorKept(s: State, f: Effect, s': State)
    requires MirrorInv(s) && Performs(s, f, s')
    ensures MirrorInv(s') && Replay(s'.log) == PictureAfter(s, f, Replay(s.log))
  {
    if !f.Idle? {
      ReplayNext(s.log, EntryFor(s, f));
    }
    ReferencesKept(s, f, s');
    MirrorAdvances(s, f, s', Replay(s.log));
  }

  /** Effects other than opening and settling leave pending transfers and the items they concern alone. */
  lemma PendingKept(s: State, f: Effect, s': State)
    requires References(s) && PendingOk(s) && Performs(s, f, s') && !f.Settle? && !f.Open?
    ensures PendingOk(s')
  {
    forall t, x ensures PendingFor(s', t, x) <==> PendingFor(s, t, x) {}
    forall x | x in s'.items && s'.items[x].status == TransferPending ensures exists t :: PendingFor(s', t, x) {
      var t :| PendingFor(s, t, x);
      assert PendingFor(s', t, x);
    }
  }

  lemma PendingOpened(s: State, f: Effect, s': State)
    requires References(s) && PendingOk(s) && Performs(s, f, s') && f.Open?
    ensures PendingOk(s')
  {
    forall t, x ensures PendingFor(s', t, x) <==> PendingFor(s, t, x) || (t == f.transfer && x == f.evidence) {}
    assert PendingFor(s', f.transfer, f.evidence);
    forall x | x in s'.items && s'.items[x].status == TransferPending ensures exists t :: PendingFor(s', t, x) {
      if x != f.evidence {
        var t :| PendingFor(s, t, x);
        assert PendingFor(s', t, x);
      }
    }
  }

  /** Settling a pending transfer leaves its item without one. */
  lemma PendingSettled(s: State, f: Effect, s': State)
    requires PendingOk(s) && Performs(s, f, s') && f.Settle?
    ensures PendingOk(s')
  {
    var e := s.transfers[f.transfer].evidence;
    assert PendingFor(s, f.transfer, e);
    forall t, x ensures PendingFor(s', t, x) <==> PendingFor(s, t, x) && x != e {
      if PendingFor(s, t, x) && x == e {
        assert t == f.transfer;
      }
    }
    forall x | x in s'.items && s'.items[x].status == TransferPending ensures exists t :: PendingFor(s', t, x) {
      var t :| PendingFor(s, t, x);
      assert PendingFor(s', t, x);
    }
  }

  /** An item's trail stays good when neither it, nor the custodian, nor its completed transfers change. */
  lemma TrailFrame(s: State, s': State, p: Picture, p': Picture, e: string)
    requires e in s.items && e in s'.items && e in p.trail && e in p'.trail && e in p.registrar && e in p'.registrar
    requires TrailOk(s, p, e)
    requires p'.trail[e] == p.trail[e] && p'.registrar[e] == p.registrar[e]
    requires s'.items[e].custodian == s.items[e].custodian
    requires forall t :: CompletedFor(s, t, e) || CompletedFor(s', t, e) ==>
               t in s.transfers && t in s'.transfers && s'.transfers[t] == s.transfers[t]
    ensures TrailOk(s', p', e)
  {
    forall h | h in p.trail[e] ensures Recorded(s', e, h) {
      assert Recorded(s, e, h);
      assert CompletedFor(s, h.transfer, e);
    }
    forall t | CompletedFor(s', t, e)
      ensures Handover(t, s'.transfers[t].sender, s'.transfers[t].recipient) in p'.trail[e]
    {
      assert CompletedFor(s, t, e);
    }
  }

  lemma TrailExtended(s: State, f: Effect, s': State, p: Picture, p': Picture)
    requires Performs(s, f, s') && f.Settle? && f.accepted
    requires var e := s.transfers[f.transfer].evidence;
             && e in p.trail && e in p.registrar && e in p'.trail && e in p'.registrar
             && TrailOk(s, p, e) && s.transfers[f.transfer].sender == s.items[e].custodian
             && p'.registrar[e] == p.registrar[e]
             && p'.trail[e] == p.trail[e] + [Handover(f.transfer, s.transfers[f.transfer].sender, s.transfers[f.transfer].recipient)]
    ensures TrailOk(s', p', s.transfers[f.transfer].evidence)
  {
    var row := s.transfers[f.transfer];
    var e, last := row.evidence, Handover(f.transfer, row.sender, row.recipient);
    var trail := p'.trail[e];
    assert trail[..|trail| - 1] == p.trail[e];
    forall h | h in p.trail[e] ensures Recorded(s', e, h) && h.transfer != f.transfer {
      assert Recorded(s, e, h);
    }
    assert Recorded(s', e, last);
    forall t | CompletedFor(s', t, e) ensures Handover(t, s'.transfers[t].sender, s'.transfers[t].recipient) in trail {
      assert t != f.transfer ==> CompletedFor(s, t, e);
    }
  }

  lemma NoTrailYet(s: State, f: Effect, s': State, p': Picture)
    requires References(s) && Performs(s, f, s') && f.Add?
    requires f.evidence in p'.trail && f.evidence in p'.registrar
    requires p'.trail[f.evidence] == [] && p'.registrar[f.evidence] == f.actor
    ensures TrailOk(s', p', f.evidence)
  {
    forall t ensures !CompletedFor(s', t, f.evidence) {}
  }

  /** The picture's per-item entries change only for the item an effect is about. */
  lemma PictureKept(s: State, f: Effect, p: Picture, x: string)
    requires Mirrored(s, p) && References(s) && Enabled(s, f) && x in s.items
    ensures var p' := PictureAfter(s, f, p);
            && x in p.trail && x in p'.trail && x in p.registrar && x in p'.registrar
            && p'.registrar[x] == p.registrar[x]
            && p'.trail[x] == (if f.Settle? && f.accepted && s.transfers[f.transfer].evidence == x
                               then p.trail[x] + [Handover(f.transfer, s.transfers[f.transfer].sender, s.transfers[f.transfer].recipient)]
                               else p.trail[x])
            && (if f.Shift? && f.target == UnderAnalysis && f.evidence == x then x in p'.analyst && p'.analyst[x] == f.actor
                else x in p.analyst ==> x in p'.analyst && p'.analyst[x] == p.analyst[x])
  {
  }

  lemma TrailKept(s: State, f: Effect, s': State, p: Picture, x: string)
    requires Mirrored(s, p) && References(s) && PendingOk(s) && Performs(s, f, s')
    requires x in s.items && x in p.trail && x in p.registrar && TrailOk(s, p, x)
    ensures var p' := PictureAfter(s, f, p);
            x in s'.items && x in p'.trail && x in p'.registrar && TrailOk(s', p', x)
  {
    PictureKept(s, f, p, x);
    if f.Settle? && f.accepted && s.transfers[f.transfer].evidence == x {
      AcceptedTrail(s, f, s', p);
    } else {
      OtherTransfersKept(s, f, s', x);
      TrailFrame(s, s', p, PictureAfter(s, f, p), x);
    }
  }

  /** Whoever is not handed over keeps custodian and completed transfers. */
  lemma OtherTransfersKept(s: State, f: Effect, s': State, x: string)
    requires References(s) && PendingOk(s) && Performs(s, f, s') && x in s.items
    requires f.Settle? && f.accepted ==> s.transfers[f.transfer].evidence != x
    ensures x in s'.items && s'.items[x].custodian == s.items[x].custodian
    ensures forall t :: CompletedFor(s, t, x) || CompletedFor(s', t, x) ==>
              t in s.transfers && t in s'.transfers && s'.transfers[t] == s.transfers[t]
  {
    assert f.Settle? ==> PendingFor(s, f.transfer, s.transfers[f.transfer].evidence);
  }

  lemma AcceptedTrail(s: State, f: Effect, s': State, p: Picture)
    requires Mirrored(s, p) && References(s) && PendingOk(s) && Performs(s, f, s') && f.Settle? && f.accepted
    requires var x := s.transfers[f.transfer].evidence;
             x in s.items && x in p.trail && x in p.registrar && TrailOk(s, p, x)
    ensures var x, p' := s.transfers[f.transfer].evidence, PictureAfter(s, f, p);
            x in s'.items && x in p'.trail && x in p'.registrar && TrailOk(s', p', x)
  {
    PictureKept(s, f, p, s.transfers[f.transfer].evidence);
    assert PendingFor(s, f.transfer, s.transfers[f.transfer].evidence);
    TrailExtended(s, f, s', p, PictureAfter(s, f, p));
  }

  lemma AnalystKept(s: State, f: Effect, s': State, p: Picture, x: string)
    requires Mirrored(s, p) && References(s) && Performs(s, f, s') && x in s.items && AnalystOk(s, p, x)
    ensures x in s'.items && AnalystOk(s', PictureAfter(s, f, p), x)
  {
    PictureKept(s, f, p, x);
  }

  lemma EffectKeepsInv(s: State, f: Effect, s': State)
    requires Inv(s) && Performs(s, f, s')
    ensures Inv(s')
  {
    MirrorKept(s, f, s');
    if f.Open? {
      PendingOpened(s, f, s');
    } else if f.Settle? {
      PendingSettled(s, f, s');
    } else {
      PendingKept(s, f, s');
    }
    forall x | x in s'.items ensures ItemOk(s', Replay(s'.log), x) {
      if x in s.items {
        assert ItemOk(s, Replay(s.log), x);
        TrailKept(s, f, s', Replay(s.log), x);
        AnalystKept(s, f, s', Replay(s.log), x);
      } else {
        NoTrailYet(s, f, s', Replay(s'.log));
      }
    }
  }

  /** Every endpoint call, whoever makes it, keeps all the custody invariants. */
  lemma StepKeepsInv(s: State, a: Action)
    requires Inv(s) && Apply(s, a).Ok?
    ensures Inv(Apply(s, a).value)
  {
    CallPerforms(s, a);
    EffectKeepsInv(s, EffectFor(a), Apply(s, a).value);
  }

  lemma {:induction false} EveryStateIsConsistent(actions: seq<Action>)
    ensures Inv(After(START, actions))
  {
    if actions != [] {
      var before := After(START, actions[..|actions| - 1]);
      EveryStateIsConsistent(actions[..|actions| - 1]);
      if Apply(before, actions[|actions| - 1]).Ok? {
        StepKeepsInv(before, actions[|actions| - 1]);
      }
    }
  }

  /** The audit trail alone rebuilds every item's status and custodian. */
  lemma ReplayRebuildsCustody(actions: seq<Action>)
    ensures var s := After(START, actions);
            Replay(s.log).items == ShownItems(s.items)
  {
    EveryStateIsConsistent(actions);
  }

  ghost function PendingTransfers(s: State, e: string): set<string> {
    set t | t in s.transfers && PendingFor(s, t, e)
  }

  lemma OneOrNone(s: State, e: string)
    requires PendingOk(s)
    ensures |PendingTransfers(s, e)| == if e in s.items && s.items[e].status == TransferPending then 1 else 0
  {
    if e in s.items && s.items[e].status == TransferPending {
      var t :| PendingFor(s, t, e);
      assert PendingTransfers(s, e) == {t};
    } else {
      assert PendingTransfers(s, e) == {};
    }
  }

  /** An item has one pending transfer while it is marked so, and none otherwise. */
  lemma OnePendingTransfer(actions: seq<Action>, e: string)
    ensures var s := After(START, actions);
            |PendingTransfers(s, e)| == if e in s.items && s.items[e].status == TransferPending then 1 else 0
  {
    EveryStateIsConsistent(actions);
    OneOrNone(After(START, actions), e);
  }

  /** Custody passed from hand to hand: from whoever registered the item to whoever holds it now. */
  lemma CustodyIsUnbroken(actions: seq<Action>, e: string)
    requires e in After(START, actions).items
    ensures var s := After(START, actions);
            var p := Replay(s.log);
            e in p.trail && e in p.registrar && TrailOk(s, p, e)
  {
    EveryStateIsConsistent(actions);
    assert ItemOk(After(START, actions), Replay(After(START, actions).log), e);
  }

  /** The checks made before a transfer is resolved. */
  ghost predicate MayResolve(s: State, t: string, who: Caller) {
    && t in s.transfers && s.transfers[t].status == Pending && s.transfers[t].recipient == who.id
    && RequireForItem(s, s.transfers[t].evidence, who, Authorization.EvidenceTransfer).None?
  }

  lemma ResolvesIff(s: State, t: string, who: Caller)
    requires PendingOk(s)
    ensures Apply(s, Accept(t, who)).Ok? <==> MayResolve(s, t, who)
    ensures Apply(s, Reject(t, who)).Ok? <==> MayResolve(s, t, who)
  {
    assert t in s.transfers && s.transfers[t].status == Pending ==> PendingFor(s, t, s.transfers[t].evidence);
  }

  /** Resolving a transfer never fails inside `update_status`: only the checks made up front can refuse it. */
  lemma ResolutionSucceedsIff(actions: seq<Action>, t: string, who: Caller)
    ensures var s := After(START, actions);
            (Apply(s, Accept(t, who)).Ok? <==> MayResolve(s, t, who))
            && (Apply(s, Reject(t, who)).Ok? <==> MayResolve(s, t, who))
  {
    EveryStateIsConsistent(actions);
    ResolvesIff(After(START, actions), t, who);
  }

  // ------------------------------------------------- when each call succeeds

  /** `VALID_TRANSITIONS`, pair by pair. */
  const TRANSITIONS: set<(Status, Status)> :=
    {(Collected, Registered), (Registered, Sealed), (Sealed, InCustody), (Sealed, TransferPending),
     (InCustody, TransferPending), (InCustody, UnderAnalysis), (TransferPending, InCustody),
     (UnderAnalysis, Analyzed), (Analyzed, CourtSubmitted), (CourtSubmitted, Archived)}

  lemma TransitionTable(s: Status, t: Status)
    ensures t in Next(s) <==> (s, t) in TRANSITIONS
  {
  }

  /** Authorisation lets the caller do this to the item's case. */
  ghost predicate Gate(s: State, e: string, who: Caller, action: Authorization.Permission) {
    && e in s.items && s.items[e].caseId in s.cases
    && Authorization.Allows(who.authority, action, s.cases[s.items[e].caseId])
  }

  /** The item has another status, the trail one entry more, and nothing else differs. */
  ghost predicate OnlyStatus(s: State, s': State, e: string, status: Status, entry: Entry)
    requires e in s.items
  {
    s' == s.(items := s.items[e := s.items[e].(status := status)], log := s.log + [entry])
  }

  lemma SealSucceedsIff(s: State, e: string, who: Caller)
    ensures Apply(s, Seal(e, who)).Ok? <==> Gate(s, e, who, Authorization.EvidenceSeal) && s.items[e].status == Registered
    ensures Apply(s, Seal(e, who)).Ok? ==>
              OnlyStatus(s, Apply(s, Seal(e, who)).value, e, Sealed, StatusChanged(e, who.id, Sealed))
  {
  }

  lemma StartSucceedsIff(s: State, e: string, who: Caller)
    ensures Apply(s, StartAnalysis(e, who)).Ok?
       <==> && Gate(s, e, who, Authorization.EvidenceAnalyze)
            && s.items[e].status == InCustody && s.items[e].custodian == who.id
    ensures Apply(s, StartAnalysis(e, who)).Ok? ==>
              OnlyStatus(s, Apply(s, StartAnalysis(e, who)).value, e, UnderAnalysis, StatusChanged(e, who.id, UnderAnalysis))
  {
  }

  lemma CompleteSucceedsIff(s: State, e: string, who: Caller)
    ensures Apply(s, CompleteAnalysis(e, who)).Ok?
       <==> && Gate(s, e, who, Authorization.EvidenceAnalyze)
            && s.items[e].status == UnderAnalysis && s.items[e].custodian == who.id
    ensures Apply(s, CompleteAnalysis(e, who)).Ok? ==>
              OnlyStatus(s, Apply(s, CompleteAnalysis(e, who)).value, e, Analyzed, StatusChanged(e, who.id, Analyzed))
  {
  }

  lemma SubmitSucceedsIff(s: State, e: string, who: Caller)
    ensures Apply(s, Submit(e, who)).Ok? <==> Gate(s, e, who, Authorization.EvidenceSubmit) && s.items[e].status == Analyzed
    ensures Apply(s, Submit(e, who)).Ok? ==>
              OnlyStatus(s, Apply(s, Submit(e, who)).value, e, CourtSubmitted, StatusChanged(e, who.id, CourtSubmitted))
  {
  }

  lemma ArchiveSucceedsIff(s: State, e: string, who: Caller)
    ensures Apply(s, Archive(e, who)).Ok?
       <==> Gate(s, e, who, Authorization.EvidenceArchive) && s.items[e].status == CourtSubmitted
    ensures Apply(s, Archive(e, who)).Ok? ==>
              OnlyStatus(s, Apply(s, Archive(e, who)).value, e, Archived, StatusChanged(e, who.id, Archived))
  {
  }

  lemma InitiateSucceedsIff(s: State, t: string, e: string, toUser: string, active: bool, who: Caller)
    ensures Apply(s, Initiate(t, e, toUser, active, who)).Ok?
       <==> && Gate(s, e, who, Authorization.EvidenceTransfer) && s.items[e].status in {Sealed, InCustody}
            && s.items[e].custodian == who.id != toUser && active && t !in s.transfers
    ensures Apply(s, Initiate(t, e, toUser, active, who)).Ok? ==>
              Apply(s, Initiate(t, e, toUser, active, who)).value
              == s.(items := s.items[e := s.items[e].(status := TransferPending)],
                    transfers := s.transfers[t := Transfer(e, who.id, toUser, Pending)],
                    log := s.log + [TransferCreated(t, who.id, e, toUser)])
  {
    if Apply(s, Initiate(t, e, toUser, active, who)).Ok? {
      assert s.log + [] == s.log;
    }
  }

  /** What accepting and rejecting need, and what they leave. */
  lemma ResolveSucceedsIff(s: State, t: string, who: Caller)
    ensures Apply(s, Accept(t, who)).Ok?
       <==> MayResolve(s, t, who) && s.items[s.transfers[t].evidence].status in {TransferPending, Sealed}
    ensures Apply(s, Reject(t, who)).Ok? <==> Apply(s, Accept(t, who)).Ok?
    ensures Apply(s, Accept(t, who)).Ok? ==>
              var row := s.transfers[t];
              Apply(s, Accept(t, who)).value
              == s.(items := s.items[row.evidence := Item(s.items[row.evidence].caseId, InCustody, who.id)],
                    transfers := s.transfers[t := row.(status := Completed)],
                    log := s.log + [TransferAccepted(t, who.id, row.sender)])
    ensures Apply(s, Reject(t, who)).Ok? ==>
              var row := s.transfers[t];
              Apply(s, Reject(t, who)).value
              == s.(items := s.items[row.evidence := s.items[row.evidence].(status := InCustody)],
                    transfers := s.transfers[t := row.(status := Rejected)],
                    log := s.log + [TransferRejected(t, who.id, row.sender)])
  {
    if Apply(s, Accept(t, who)).Ok? {
      assert s.log + [] == s.log;
      var e := s.transfers[t].evidence;
      assert s.items[e := s.items[e].(custodian := who.id)][e := Item(s.items[e].caseId, InCustody, who.id)]
          == s.items[e := Item(s.items[e].caseId, InCustody, who.id)];
    }
  }

  lemma RegisterSucceedsIff(s: State, e: string, c: string, who: Caller)
    ensures Apply(s, Register(e, c, who)).Ok?
       <==> && c in s.cases && Authorization.Allows(who.authority, Authorization.EvidenceCreate, s.cases[c])
            && e !in s.items
    ensures Apply(s, Register(e, c, who)).Ok? ==>
              Apply(s, Register(e, c, who)).value
              == s.(items := s.items[e := Item(c, Registered, who.id)], log := s.log + [EvidenceCreated(e, who.id)])
  {
  }

  /** An upload needs two permissions on a case open for changes. */
  lemma UploadSucceedsIff(s: State, c: string, document: string, who: Caller)
    ensures Apply(s, Upload(c, document, who)).Ok?
       <==> && c in s.cases && Authorization.Allows(who.authority, Authorization.CaseUpdate, s.cases[c])
            && Authorization.Allows(who.authority, Authorization.DocumentUpload, s.cases[c])
    ensures Apply(s, Upload(c, document, who)).Ok? ==>
              Apply(s, Upload(c, document, who)).value == s.(versions := s.versions + [Version(c, document)])
  {
  }

  /** A case's status is changed by those who manage it, and not out of the archive. */
  lemma StatusChangeSucceedsIff(s: State, c: string, target: CaseStatus, who: Caller)
    ensures Apply(s, SetCaseStatus(c, target, who)).Ok?
       <==> && c in s.cases && (who.authority.admin || Authorization.CaseView in who.authority.permissions)
            && who.authority.access == Some(Authorization.Manage)
            && (s.cases[c] == Authorization.Archived ==> target == Authorization.Archived)
    ensures Apply(s, SetCaseStatus(c, target, who)).Ok? ==>
              Apply(s, SetCaseStatus(c, target, who)).value == s.(cases := s.cases[c := target])
  {
  }

  /** Nobody but a manager of the case changes its status, whatever the call. */
  lemma OnlyManagersChangeStatus(s: State, a: Action, c: string)
    requires Apply(s, a).Ok? && c in s.cases
    ensures c in Apply(s, a).value.cases
    ensures Apply(s, a).value.cases[c] != s.cases[c] ==>
              a.SetCaseStatus? && a.caseId == c && a.who.authority.access == Some(Authorization.Manage)
  {
    if a.SetCaseStatus? {
      StatusChangeSucceedsIff(s, a.caseId, a.target, a.who);
    } else {
      CallPerforms(s, a);
    }
  }

  /** Past authorisation, a wrong status is invalid and a wrong actor denied. */
  lemma Refusals(s: State, e: string, who: Caller)
    ensures Gate(s, e, who, Authorization.EvidenceSeal) && s.items[e].status != Registered ==>
              Apply(s, Seal(e, who)) == Err(Invalid)
    ensures Gate(s, e, who, Authorization.EvidenceSubmit) && s.items[e].status != Analyzed ==>
              Apply(s, Submit(e, who)) == Err(Invalid)
    ensures Gate(s, e, who, Authorization.EvidenceArchive) && s.items[e].status != CourtSubmitted ==>
              Apply(s, Archive(e, who)) == Err(Invalid)
    ensures Gate(s, e, who, Authorization.EvidenceAnalyze) && s.items[e].custodian != who.id ==>
              Apply(s, StartAnalysis(e, who)) == Err(Denied) && Apply(s, CompleteAnalysis(e, who)) == Err(Denied)
    ensures Gate(s, e, who, Authorization.EvidenceAnalyze) && s.items[e].custodian == who.id && s.items[e].status != InCustody ==>
              Apply(s, StartAnalysis(e, who)) == Err(Invalid)
    ensures Gate(s, e, who, Authorization.EvidenceAnalyze) && s.items[e].custodian == who.id && s.items[e].status != UnderAnalysis ==>
              Apply(s, CompleteAnalysis(e, who)) == Err(Invalid)
  {
  }

  /** An item out of the caller's sight is not found, one in sight but out of reach denied. */
  ghost predicate TurnedAway(s: State, e: string, who: Caller, r: Result<State, Refusal>) {
    var seen := e in s.items && s.items[e].caseId in s.cases && who.authority.access.Some?;
    r == Err(if seen then Denied else NotFound)
  }

  lemma RefusedAtTheGate(s: State, e: string, who: Caller)
    ensures !Gate(s, e, who, Authorization.EvidenceSeal) ==> TurnedAway(s, e, who, Apply(s, Seal(e, who)))
    ensures !Gate(s, e, who, Authorization.EvidenceAnalyze) ==>
              TurnedAway(s, e, who, Apply(s, StartAnalysis(e, who))) && TurnedAway(s, e, who, Apply(s, CompleteAnalysis(e, who)))
    ensures !Gate(s, e, who, Authorization.EvidenceSubmit) ==> TurnedAway(s, e, who, Apply(s, Submit(e, who)))
    ensures !Gate(s, e, who, Authorization.EvidenceArchive) ==> TurnedAway(s, e, who, Apply(s, Archive(e, who)))
  {
  }

  /**
   * Why a transfer is not started: denied unless the caller holds the item and it is not archived; invalid to
   * oneself, to nobody active or from another status; in conflict with one that is pending or has the same key.
   */
  lemma InitiationRefusals(s: State, t: string, e: string, toUser: string, active: bool, who: Caller)
    ensures !Gate(s, e, who, Authorization.EvidenceTransfer) ==>
              TurnedAway(s, e, who, Apply(s, Initiate(t, e, toUser, active, who)))
    ensures Gate(s, e, who, Authorization.EvidenceTransfer) ==>
              var r, item := Apply(s, Initiate(t, e, toUser, active, who)), s.items[e];
              var denied := item.status == Archived || item.custodian != who.id;
              var clashes := item.status == TransferPending || (active && t in s.transfers);
              && (r == Err(Denied) <==> denied)
              && (r == Err(Conflict) <==> !denied && who.id != toUser && clashes)
              && r != Err(NotFound)
  {
  }

  /** Why a transfer is not resolved: unknown, no longer pending, somebody else's, or the item moved on. */
  lemma ResolutionRefusals(s: State, t: string, who: Caller, accepts: bool)
    ensures var r := Apply(s, if accepts then Accept(t, who) else Reject(t, who));
            if t !in s.transfers then r == Err(NotFound)
            else
              var row := s.transfers[t];
              if !Gate(s, row.evidence, who, Authorization.EvidenceTransfer) then TurnedAway(s, row.evidence, who, r)
              else
                && (r == Err(Conflict) <==> row.status != Pending)
                && (r == Err(Denied) <==> row.status == Pending && row.recipient != who.id)
                && r != Err(NotFound)
  {
  }

  /** Why a registration, an upload or a status change is refused. */
  lemma CaseCallRefusals(s: State, c: string, e: string, document: string, target: CaseStatus, who: Caller)
    ensures c !in s.cases || who.authority.access.None? ==>
              && Apply(s, Register(e, c, who)) == Err(NotFound) && Apply(s, Upload(c, document, who)) == Err(NotFound)
              && Apply(s, SetCaseStatus(c, target, who)) == Err(NotFound)
    ensures c in s.cases && who.authority.access.Some? ==>
              && (Apply(s, Register(e, c, who)) == Err(Conflict)
                  <==> Authorization.Allows(who.authority, Authorization.EvidenceCreate, s.cases[c]) && e in s.items)
              && Apply(s, Register(e, c, who)) != Err(NotFound) && Apply(s, Register(e, c, who)) != Err(Invalid)
              && (Apply(s, Upload(c, document, who)).Ok? || Apply(s, Upload(c, document, who)) == Err(Denied))
              && (Apply(s, SetCaseStatus(c, target, who)).Ok? || Apply(s, SetCaseStatus(c, target, who)) == Err(Denied))
  {
  }

  // ------------------------------------------------------ one-way progress

  function Phase(s: Status): nat {
    match s
    case Collected => 0
    case Registered => 1
    case Sealed => 2
    case InCustody => 3
    case TransferPending => 3
    case UnderAnalysis => 4
    case Analyzed => 5
    case CourtSubmitted => 6
    case Archived => 7
  }

  /** The transition table goes forward except between custody and a pending transfer. */
  lemma TransitionsGoForward(s: Status, t: Status)
    requires t in Next(s)
    ensures Phase(t) > Phase(s) || {s, t} == {InCustody, TransferPending}
  {
  }

  /** No call removes an item, moves it to another case or takes its status back. */
  lemma StepGoesForward(s: State, a: Action, e: string)
    requires Apply(s, a).Ok? && e in s.items
    ensures var s' := Apply(s, a).value;
            e in s'.items && s'.items[e].caseId == s.items[e].caseId
            && Phase(s'.items[e].status) >= Phase(s.items[e].status)
  {
    CallPerforms(s, a);
    var t := Apply(s, a).value.items[e].status;
    if t in Next(s.items[e].status) {
      TransitionsGoForward(s.items[e].status, t);
    }
  }

  lemma {:induction false} StatusNeverGoesBack(first: seq<Action>, more: seq<Action>, e: string)
    requires e in After(START, first).items
    ensures var s, s' := After(START, first), After(After(START, first), more);
            e in s'.items && s'.items[e].caseId == s.items[e].caseId
            && Phase(s'.items[e].status) >= Phase(s.items[e].status)
    decreases |more|
  {
    if more != [] {
      var front, last := more[..|more| - 1], more[|more| - 1];
      StatusNeverGoesBack(first, front, e);
      AfterAfter(START, first, front);
      EveryStateIsConsistent(first + front);
      var before := After(After(START, first), front);
      if Apply(before, last).Ok? {
        StepGoesForward(before, last, e);
      }
    }
  }

  lemma {:induction false} AfterAfter(s: State, first: seq<Action>, more: seq<Action>)
    ensures After(After(s, first), more) == After(s, first + more)
    decreases |more|
  {
    if more == [] {
      assert first + more == first;
    } else {
      AfterAfter(s, first, more[..|more| - 1]);
      assert (first + more)[..|first + more| - 1] == first + more[..|more| - 1];
    }
  }

  /** Every completed analysis in the trail was completed by whoever the trail says started it. */
  ghost predicate AnalysesMatch(log: seq<Entry>) {
    forall i :: 0 <= i < |log| && log[i].StatusChanged? && log[i].status == Analyzed ==>
      var p := Replay(log[..i]);
      log[i].evidence in p.analyst && p.analyst[log[i].evidence] == log[i].actor
  }

  lemma GrownLog(log: seq<Entry>, e: Entry)
    requires AnalysesMatch(log)
    requires e.StatusChanged? && e.status == Analyzed ==>
               e.evidence in Replay(log).analyst && Replay(log).analyst[e.evidence] == e.actor
    ensures AnalysesMatch(log + [e])
  {
    forall i | 0 <= i <= |log| ensures (log + [e])[..i] == log[..i] {}
    assert log[..|log|] == log;
  }

  lemma AnalysisStep(s: State, f: Effect, s': State)
    requires Inv(s) && Performs(s, f, s') && AnalysesMatch(s.log)
    ensures AnalysesMatch(s'.log)
  {
    if !f.Idle? {
      if f.Shift? {
        assert ItemOk(s, Replay(s.log), f.evidence);
      }
      GrownLog(s.log, EntryFor(s, f));
    }
  }

  lemma {:induction false} WhoeverStartsCompletes(actions: seq<Action>)
    ensures AnalysesMatch(After(START, actions).log)
  {
    if actions != [] {
      var front, last := actions[..|actions| - 1], actions[|actions| - 1];
      WhoeverStartsCompletes(front);
      EveryStateIsConsistent(front);
      var s := After(START, front);
      if Apply(s, last).Ok? {
        CallPerforms(s, last);
        AnalysisStep(s, EffectFor(last), Apply(s, last).value);
      }
    }
  }

  // -------------------------------------------------------------- frozen cases

  ghost predicate Frozen(s: State, c: string) {
    c in s.cases && s.cases[c] !in Authorization.MUTABLE
  }

  /** Nothing of case `c` differs, except that submitted items may have been archived. */
  ghost predicate CaseUntouched(s: State, s': State, c: string) {
    && (forall e :: e in s.items && s.items[e].caseId == c ==>
          && e in s'.items && s'.items[e].caseId == c && s'.items[e].custodian == s.items[e].custodian
          && (s'.items[e].status == s.items[e].status
              || (s.items[e].status == CourtSubmitted && s'.items[e].status == Archived)))
    && (forall e :: e in s'.items && s'.items[e].caseId == c ==> e in s.items && s.items[e].caseId == c)
    && (forall t, e :: e in s.items && s.items[e].caseId == c ==> SameTransfer(s, s', t, e))
    && VersionsOf(s'.versions, c) == VersionsOf(s.versions, c)
  }

  ghost predicate SameTransfer(s: State, s': State, t: string, e: string) {
    (t in s'.transfers && s'.transfers[t].evidence == e) || (t in s.transfers && s.transfers[t].evidence == e) ==>
      t in s.transfers && t in s'.transfers && s.transfers[t] == s'.transfers[t]
  }

  function VersionsOf(versions: seq<Version>, c: string): seq<Version> {
    if versions == [] then []
    else
      var n := |versions| - 1;
      VersionsOf(versions[..n], c) + if versions[n].caseId == c then [versions[n]] else []
  }

  /** The case an effect is about. */
  ghost function CaseOf(s: State, f: Effect): Option<string>
    requires Enabled(s, f)
  {
    match f
    case Idle => None
    case Add(_, c, _) => Some(c)
    case Shift(e, _, _) => Some(s.items[e].caseId)
    case Open(_, e, _) => Some(s.items[e].caseId)
    case Settle(t, _) => Some(s.items[s.transfers[t].evidence].caseId)
  }

  /** The gates: on a frozen case only archiving gets through, and an archived case keeps its status. */
  lemma GatesHold(s: State, a: Action, c: string)
    requires Frozen(s, c) && Apply(s, a).Ok? && Enabled(s, EffectFor(a))
    ensures CaseOf(s, EffectFor(a)) == Some(c) ==> a.Archive?
    ensures a.Upload? ==> a.caseId != c
    ensures c in Apply(s, a).value.cases
    ensures s.cases[c] == Authorization.Archived ==> Apply(s, a).value.cases[c] == Authorization.Archived
  {
  }

  lemma UnrelatedUpload(versions: seq<Version>, v: Version, c: string)
    requires v.caseId != c
    ensures VersionsOf(versions + [v], c) == VersionsOf(versions, c)
  {
    assert (versions + [v])[..|versions|] == versions;
  }

  /** No call by anyone, administrators included, changes a frozen case beyond archiving its submitted items. */
  lemma FrozenStep(s: State, a: Action, c: string)
    requires References(s) && Frozen(s, c) && Apply(s, a).Ok?
    ensures CaseUntouched(s, Apply(s, a).value, c)
    ensures c in Apply(s, a).value.cases
    ensures s.cases[c] == Authorization.Archived ==> Apply(s, a).value.cases[c] == Authorization.Archived
  {
    var s', f := Apply(s, a).value, EffectFor(a);
    CallPerforms(s, a);
    GatesHold(s, a, c);
    OnlyUploadsAdd(s, a);
    if a.Upload? {
      UnrelatedUpload(s.versions, Version(a.caseId, a.document), c);
    }
    EffectElsewhere(s, f, s', c);
  }

  lemma OnlyUploadsAdd(s: State, a: Action)
    requires Apply(s, a).Ok?
    ensures Apply(s, a).value.versions == if a.Upload? then s.versions + [Version(a.caseId, a.document)] else s.versions
  {
  }

  lemma EffectElsewhere(s: State, f: Effect, s': State, c: string)
    requires References(s) && Performs(s, f, s')
    requires CaseOf(s, f) == Some(c) ==> f.Shift? && f.target == Archived
    requires VersionsOf(s'.versions, c) == VersionsOf(s.versions, c)
    ensures CaseUntouched(s, s', c)
  {
    forall t, e | e in s.items && s.items[e].caseId == c ensures SameTransfer(s, s', t, e) {
      TransferElsewhere(s, f, s', c, t, e);
    }
  }

  lemma TransferElsewhere(s: State, f: Effect, s': State, c: string, t: string, e: string)
    requires References(s) && Performs(s, f, s') && e in s.items && s.items[e].caseId == c
    requires CaseOf(s, f) == Some(c) ==> f.Shift? && f.target == Archived
    ensures SameTransfer(s, s', t, e)
  {
  }

  /** As long as a case stays frozen, no sequence of calls touches it. */
  lemma {:induction false} FrozenCaseStaysUntouched(first: seq<Action>, more: seq<Action>, c: string)
    requires forall k :: 0 <= k <= |more| ==> Frozen(After(After(START, first), more[..k]), c)
    ensures CaseUntouched(After(START, first), After(After(START, first), more), c)
    decreases |more|
  {
    var s := After(START, first);
    if more == [] {
      forall t, e | e in s.items && s.items[e].caseId == c ensures SameTransfer(s, s, t, e) {}
    } else {
      var front, last := more[..|more| - 1], more[|more| - 1];
      forall k | 0 <= k <= |front| ensures Frozen(After(s, front[..k]), c) {
        assert front[..k] == more[..k];
      }
      FrozenCaseStaysUntouched(first, front, c);
      var before := After(s, front);
      assert Frozen(After(s, more[..|front|]), c);
      AfterAfter(START, first, front);
      EveryStateIsConsistent(first + front);
      if Apply(before, last).Ok? {
        FrozenStep(before, last, c);
        forall t, e | e in s.items && s.items[e].caseId == c ensures SameTransfer(s, After(s, more), t, e) {
          assert SameTransfer(s, before, t, e) && SameTransfer(before, After(s, more), t, e);
        }
      }
    }
  }

  /** An archived case is archived, and untouched, in every continuation. */
  lemma {:induction false} ArchivedForever(first: seq<Action>, more: seq<Action>, c: string)
    requires c in After(START, first).cases && After(START, first).cases[c] == Authorization.Archived
    ensures var s' := After(After(START, first), more); c in s'.cases && s'.cases[c] == Authorization.Archived
    ensures CaseUntouched(After(START, first), After(After(START, first), more), c)
  {
    forall k | 0 <= k <= |more| ensures Frozen(After(After(START, first), more[..k]), c) {
      StaysArchived(first, more[..k], c);
    }
    StaysArchived(first, more, c);
    FrozenCaseStaysUntouched(first, more, c);
  }

  lemma {:induction false} StaysArchived(first: seq<Action>, more: seq<Action>, c: string)
    requires c in After(START, first).cases && After(START, first).cases[c] == Authorization.Archived
    ensures var s' := After(After(START, first), more); c in s'.cases && s'.cases[c] == Authorization.Archived
    decreases |more|
  {
    if more != [] {
      var front, last := more[..|more| - 1], more[|more| - 1];
      StaysArchived(first, front, c);
      AfterAfter(START, first, front);
      EveryStateIsConsistent(first + front);
      var before := After(After(START, first), front);
      if Apply(before, last).Ok? {
        FrozenStep(before, last, c);
      }
    }
  }
}
