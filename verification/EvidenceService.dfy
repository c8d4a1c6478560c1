/** The evidence endpoints over their service, updating rows in place; each call is tied to `Custody.Apply`. */
module EvidenceService {
  import opened Basics
  import opened Custody
  import Authorization

  /** What a call must leave behind: the specified state, or the refusal and the state it found. */
  ghost predicate Outcome(before: State, a: Action, refusal: Option<Refusal>, after: State) {
    match Apply(before, a)
    case Ok(s) => refusal == None && after == s
    case Err(x) => refusal == Some(x) && after == before
  }

  /** Every item but this one is as it was, and none is gone. */
  ghost predicate OthersKept(before: map<string, Item>, after: map<string, Item>, id: string) {
    before.Keys + {id} == after.Keys + {id} && forall e :: e in before && e != id ==> after[e] == before[e]
  }

  class EvidenceTables {
    var cases: map<string, CaseStatus>
    var evidence: map<string, Item>
    var transfers: map<string, Transfer>
    var versions: seq<Version>
    var log: seq<Entry>

    ghost function Snapshot(): State
      reads this
    {
      State(cases, evidence, transfers, versions, log)
    }

    constructor ()
      ensures Snapshot() == START
    {
      cases, evidence, transfers, versions, log := map[], map[], map[], [], [];
    }

    /** The authorisation step every evidence endpoint starts with. */
    method RequireForEvidence(id: string, who: Caller, action: Authorization.Permission) returns (refusal: Option<Refusal>)
      ensures refusal == RequireForItem(Snapshot(), id, who, action)
    {
      if id !in evidence || evidence[id].caseId !in cases {
        return Some(NotFound);
      }
      refusal := Require(who.authority, action, cases[evidence[id].caseId]);
    }

    method UpdateStatus(id: string, target: Status, actor: string) returns (refusal: Option<Refusal>)
      requires id in evidence
      modifies this
      ensures match Moved(old(Snapshot()), id, target, actor)
              case Ok(s) => refusal == None && Snapshot() == s
              case Err(x) => refusal == Some(x) && Snapshot() == old(Snapshot())
      ensures refusal.None? <==> (old(evidence)[id].status, target) in TRANSITIONS
    {
      TransitionTable(evidence[id].status, target);
      if target !in Next(evidence[id].status) {
        return Some(Invalid);
      }
      evidence := evidence[id := evidence[id].(status := target)];
      if target in AUDITED {
        log := log + [StatusChanged(id, actor, target)];
      } else {
        assert log == log + [];
      }
      refusal := None;
    }

    method RegisterEvidence(id: string, caseId: string, who: Caller) returns (refusal: Option<Refusal>)
      modifies this
      ensures Outcome(old(Snapshot()), Register(id, caseId, who), refusal, Snapshot())
      ensures refusal.Some? ==> Snapshot() == old(Snapshot())
      ensures refusal.None? ==> id !in old(evidence) && id in evidence && evidence[id] == Item(caseId, Registered, who.id)
                                && OthersKept(old(evidence), evidence, id)
      ensures refusal.None? <==>
                && caseId in old(cases) && id !in old(evidence)
                && Authorization.Allows(who.authority, Authorization.EvidenceCreate, old(cases)[caseId])
    {
      RegisterSucceedsIff(Snapshot(), id, caseId, who);
      if caseId !in cases {
        return Some(NotFound);
      }
      refusal := Require(who.authority, Authorization.EvidenceCreate, cases[caseId]);
      if refusal.Some? {
        return;
      }
      if cases[caseId] == Authorization.Archived {
        return Some(Denied);
      }
      if id in evidence {
        return Some(Conflict);
      }
      evidence := evidence[id := Item(caseId, Registered, who.id)];
      log := log + [EvidenceCreated(id, who.id)];
    }

    method SealEvidence(id: string, who: Caller) returns (refusal: Option<Refusal>)
      modifies this
      ensures Outcome(old(Snapshot()), Seal(id, who), refusal, Snapshot())
      ensures refusal.None? <==>
                Gate(old(Snapshot()), id, who, Authorization.EvidenceSeal) && old(evidence)[id].status == Registered
      ensures refusal.None? ==> evidence == old(evidence)[id := old(evidence)[id].(status := Sealed)]
    {
      SealSucceedsIff(Snapshot(), id, who);
      refusal := RequireForEvidence(id, who, Authorization.EvidenceSeal);
      if refusal.None? {
        refusal := UpdateStatus(id, Sealed, who.id);
      }
    }

    method Start(id: string, who: Caller) returns (refusal: Option<Refusal>)
      modifies this
      ensures Outcome(old(Snapshot()), StartAnalysis(id, who), refusal, Snapshot())
      ensures refusal.None? ==> id in old(evidence) && old(evidence)[id].custodian == who.id
                                && evidence == old(evidence)[id := old(evidence)[id].(status := UnderAnalysis)]
      ensures refusal.None? <==>
                && Gate(old(Snapshot()), id, who, Authorization.EvidenceAnalyze)
                && old(evidence)[id].status == InCustody && old(evidence)[id].custodian == who.id
    {
      StartSucceedsIff(Snapshot(), id, who);
      refusal := RequireForEvidence(id, who, Authorization.EvidenceAnalyze);
      if refusal.Some? {
        return;
      }
      if evidence[id].custodian != who.id {
        return Some(Denied);
      }
      refusal := UpdateStatus(id, UnderAnalysis, who.id);
    }

    method Complete(id: string, who: Caller) returns (refusal: Option<Refusal>)
      modifies this
      ensures Outcome(old(Snapshot()), CompleteAnalysis(id, who), refusal, Snapshot())
      ensures refusal.None? ==> id in old(evidence) && old(evidence)[id].custodian == who.id
                                && evidence == old(evidence)[id := old(evidence)[id].(status := Analyzed)]
      ensures refusal.None? <==>
                && Gate(old(Snapshot()), id, who, Authorization.EvidenceAnalyze)
                && old(evidence)[id].status == UnderAnalysis && old(evidence)[id].custodian == who.id
    {
      CompleteSucceedsIff(Snapshot(), id, who);
      refusal := RequireForEvidence(id, who, Authorization.EvidenceAnalyze);
      if refusal.Some? {
        return;
      }
      if evidence[id].custodian != who.id {
        return Some(Denied);
      }
      refusal := UpdateStatus(id, Analyzed, who.id);
    }

    method SubmitEvidence(id: string, who: Caller) returns (refusal: Option<Refusal>)
      modifies this
      ensures Outcome(old(Snapshot()), Submit(id, who), refusal, Snapshot())
      ensures refusal.None? <==>
                Gate(old(Snapshot()), id, who, Authorization.EvidenceSubmit) && old(evidence)[id].status == Analyzed
      ensures refusal.None? ==> evidence == old(evidence)[id := old(evidence)[id].(status := CourtSubmitted)]
    {
      SubmitSucceedsIff(Snapshot(), id, who);
      refusal := RequireForEvidence(id, who, Authorization.EvidenceSubmit);
      if refusal.None? {
        refusal := UpdateStatus(id, CourtSubmitted, who.id);
      }
    }

    method ArchiveEvidence(id: string, who: Caller) returns (refusal: Option<Refusal>)
      modifies this
      ensures Outcome(old(Snapshot()), Archive(id, who), refusal, Snapshot())
      ensures refusal.None? <==>
                Gate(old(Snapshot()), id, who, Authorization.EvidenceArchive) && old(evidence)[id].status == CourtSubmitted
      ensures refusal.None? ==> evidence == old(evidence)[id := old(evidence)[id].(status := Archived)]
    {
      ArchiveSucceedsIff(Snapshot(), id, who);
      refusal := RequireForEvidence(id, who, Authorization.EvidenceArchive);
      if refusal.None? {
        refusal := UpdateStatus(id, Archived, who.id);
      }
    }

    method InitiateTransfer(t: string, id: string, toUser: string, toUserActive: bool, who: Caller)
      returns (refusal: Option<Refusal>)
      modifies this
      ensures Outcome(old(Snapshot()), Initiate(t, id, toUser, toUserActive, who), refusal, Snapshot())
      ensures refusal.Some? ==> Snapshot() == old(Snapshot())
      ensures refusal.None? ==> id in old(evidence) && old(evidence)[id].custodian == who.id != toUser
                                && evidence == old(evidence)[id := old(evidence)[id].(status := TransferPending)]
      ensures refusal.None? <==>
                && Gate(old(Snapshot()), id, who, Authorization.EvidenceTransfer)
                && old(evidence)[id].status in {Sealed, InCustody} && old(evidence)[id].custodian == who.id != toUser
                && toUserActive && t !in old(transfers)
      ensures refusal.None? ==> transfers == old(transfers)[t := Transfer(id, who.id, toUser, Pending)]
    {
      InitiateSucceedsIff(Snapshot(), t, id, toUser, toUserActive, who);
      refusal := RequireForEvidence(id, who, Authorization.EvidenceTransfer);
      if refusal.Some? {
        return;
      }
      if evidence[id].status == Archived {
        return Some(Denied);
      }
      if cases[evidence[id].caseId] == Authorization.UnderTrial {
        return Some(Denied);
      }
      if evidence[id].custodian != who.id {
        return Some(Denied);
      }
      if who.id == toUser {
        return Some(Invalid);
      }
      if evidence[id].status == TransferPending {
        return Some(Conflict);
      }
      if !toUserActive {
        return Some(Invalid);
      }
      if t in transfers {
        return Some(Conflict);
      }
      var before := transfers;
      transfers := transfers[t := Transfer(id, who.id, toUser, Pending)];
      refusal := UpdateStatus(id, TransferPending, who.id);
      if refusal.Some? {
        transfers := before;
        return;
      }
      log := log + [TransferCreated(t, who.id, id, toUser)];
    }

    method AcceptTransfer(t: string, who: Caller) returns (refusal: Option<Refusal>)
      modifies this
      ensures Outcome(old(Snapshot()), Accept(t, who), refusal, Snapshot())
      ensures refusal.Some? ==> Snapshot() == old(Snapshot())
      ensures refusal.None? ==> t in old(transfers) && old(transfers)[t].status == Pending && old(transfers)[t].recipient == who.id
      ensures refusal.None? ==> var id := old(transfers)[t].evidence;
                                && id in evidence && evidence[id].custodian == who.id && evidence[id].status == InCustody
                                && OthersKept(old(evidence), evidence, id)
      ensures refusal.None? <==>
                && MayResolve(old(Snapshot()), t, who)
                && old(evidence)[old(transfers)[t].evidence].status in {TransferPending, Sealed}
      ensures refusal.None? ==> transfers == old(transfers)[t := old(transfers)[t].(status := Completed)]
    {
      ResolveSucceedsIff(Snapshot(), t, who);
      if t !in transfers {
        return Some(NotFound);
      }
      var row := transfers[t];
      refusal := RequireForEvidence(row.evidence, who, Authorization.EvidenceTransfer);
      if refusal.Some? {
        return;
      }
      if row.status != Pending {
        return Some(Conflict);
      }
      if row.recipient != who.id {
        return Some(Denied);
      }
      var transfersBefore, evidenceBefore := transfers, evidence;
      transfers := transfers[t := row.(status := Completed)];
      evidence := evidence[row.evidence := evidence[row.evidence].(custodian := who.id)];
      refusal := UpdateStatus(row.evidence, InCustody, who.id);
      if refusal.Some? {
        transfers, evidence := transfersBefore, evidenceBefore;
        return;
      }
      log := log + [TransferAccepted(t, who.id, row.sender)];
    }

    method RejectTransfer(t: string, who: Caller) returns (refusal: Option<Refusal>)
      modifies this
      ensures Outcome(old(Snapshot()), Reject(t, who), refusal, Snapshot())
      ensures refusal.Some? ==> Snapshot() == old(Snapshot())
      ensures refusal.None? ==> t in old(transfers) && old(transfers)[t].status == Pending && old(transfers)[t].recipient == who.id
      ensures forall e :: e in old(evidence) ==> e in evidence && evidence[e].custodian == old(evidence)[e].custodian
      ensures refusal.None? <==>
                && MayResolve(old(Snapshot()), t, who)
                && old(evidence)[old(transfers)[t].evidence].status in {TransferPending, Sealed}
      ensures refusal.None? ==>
                && transfers == old(transfers)[t := old(transfers)[t].(status := Rejected)]
                && var e := old(transfers)[t].evidence; evidence == old(evidence)[e := old(evidence)[e].(status := InCustody)]
    {
      ResolveSucceedsIff(Snapshot(), t, who);
      if t !in transfers {
        return Some(NotFound);
      }
      var row := transfers[t];
      refusal := RequireForEvidence(row.evidence, who, Authorization.EvidenceTransfer);
      if refusal.Some? {
        return;
      }
      if row.status != Pending {
        return Some(Conflict);
      }
      if row.recipient != who.id {
        return Some(Denied);
      }
      var before := transfers;
      transfers := transfers[t := row.(status := Rejected)];
      refusal := UpdateStatus(row.evidence, InCustody, who.id);
      if refusal.Some? {
        transfers := before;
        return;
      }
      log := log + [TransferRejected(t, who.id, row.sender)];
    }
  }
}
