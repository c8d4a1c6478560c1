/**
 * Anchoring document hashes in a write-once registry: uploads publish pending anchors, background tasks call the
 * contract through an RPC that can fail anywhere, and strangers call the contract too.
 */
module Anchoring {
  import opened Basics

  // ------------------------------------------------------------ the contract

  /** A block's timestamp; the contract reads zero as "never anchored". */
  type BlockTime = t: nat | t > 0 witness 1

  datatype Entry = Entry(caseId: string, documentId: string, version: nat, timestamp: nat, anchoredBy: string)

  /** A Solidity mapping: absent keys read as the zero entry. */
  function Stamp(anchors: map<string, Entry>, hash: string): nat {
    if hash in anchors then anchors[hash].timestamp else 0
  }

  function AfterAnchor(anchors: map<string, Entry>, hash: string, e: Entry): map<string, Entry> {
    if Stamp(anchors, hash) == 0 then anchors[hash := e] else anchors
  }

  class DocumentRegistry {
    var anchors: map<string, Entry>

    constructor ()
      ensures anchors == map[]
    {
      anchors := map[];
    }

    /** Reverts, changing nothing, when the hash already has an entry. */
    method AnchorHash(hash: string, caseId: string, documentId: string, version: nat, now: BlockTime, sender: string)
      returns (ok: bool)
      modifies this
      ensures ok <==> hash !in old(anchors) || old(anchors)[hash].timestamp == 0
      ensures anchors == if ok then old(anchors)[hash := Entry(caseId, documentId, version, now, sender)] else old(anchors)
      ensures anchors == AfterAnchor(old(anchors), hash, Entry(caseId, documentId, version, now, sender))
    {
      if hash in anchors && anchors[hash].timestamp != 0 {
        return false;
      }
      anchors := anchors[hash := Entry(caseId, documentId, version, now, sender)];
      ok := true;
    }

    method GetAnchor(hash: string) returns (r: Option<Entry>)
      ensures r == Lookup(anchors, hash)
      ensures r == if hash in anchors && anchors[hash].timestamp != 0 then Some(anchors[hash]) else None
    {
      if hash !in anchors || anchors[hash].timestamp == 0 {
        return None;
      }
      r := Some(anchors[hash]);
    }
  }

  function Lookup(anchors: map<string, Entry>, hash: string): Option<Entry> {
    if Stamp(anchors, hash) == 0 then None else Some(anchors[hash])
  }

  // ------------------------------------------------------------- the service

  datatype Version = Version(hash: string, caseId: string, documentId: string, number: nat)

  datatype Status = Pending | Anchored | Failed

  /** A background task between reading its pending anchor and writing the result. */
  datatype Task = Reading(version: string) | Answered(version: string, result: Status)

  datatype State = State(
    versions: map<string, Version>,
    anchors: map<string, Status>,
    registry: map<string, Entry>,
    tasks: map<nat, Task>)

  const START := State(map[], map[], map[], map[])

  /** What becomes of a contract call: not sent, sent but its receipt never seen, or sent and confirmed. */
  datatype Rpc = Unreachable | ReceiptLost | Delivered

  datatype Step =
    | Publish(v: string, row: Version)
    | StartTask(t: nat, v: string)
    | Call(t: nat, rpc: Rpc, now: BlockTime, account: string)
    | FinishTask(t: nat, commits: bool)
    | Outsider(hash: string, e: Entry, now: BlockTime)

  /** The entry the service asks for. */
  function EntryOf(row: Version, now: nat, account: string): Entry {
    Entry(row.caseId, row.documentId, row.number, now, account)
  }

  /** `anchor_document_hash`: the new registry and the status reported. */
  function Attempt(registry: map<string, Entry>, row: Version, rpc: Rpc, now: BlockTime, account: string)
    : (map<string, Entry>, Status)
  {
    match rpc
    case Unreachable => (registry, Failed)
    case ReceiptLost => (AfterAnchor(registry, row.hash, EntryOf(row, now, account)), Failed)
    case Delivered =>
      (AfterAnchor(registry, row.hash, EntryOf(row, now, account)), if Stamp(registry, row.hash) == 0 then Anchored else Failed)
  }

  /** One step of one actor; `None` where it does not apply. */
  ghost function Do(s: State, step: Step): Option<State> {
    match step
    case Publish(v, row) =>
      if v in s.versions || exists w :: w in s.versions && SameVersion(s.versions[w], row) then None
      else Some(s.(versions := s.versions[v := row], anchors := s.anchors[v := Pending]))
    case StartTask(t, v) =>
      if t in s.tasks || v !in s.versions || v !in s.anchors || s.anchors[v] != Pending then None
      else Some(s.(tasks := s.tasks[t := Reading(v)]))
    case Call(t, rpc, now, account) =>
      if t !in s.tasks || !s.tasks[t].Reading? || s.tasks[t].version !in s.versions then None
      else
        var v := s.tasks[t].version;
        var (registry, result) := Attempt(s.registry, s.versions[v], rpc, now, account);
        Some(s.(registry := registry, tasks := s.tasks[t := Answered(v, result)]))
    case FinishTask(t, commits) =>
      if t !in s.tasks || !s.tasks[t].Answered? then None
      else
        Some(s.(anchors := if commits then s.anchors[s.tasks[t].version := s.tasks[t].result] else s.anchors,
                tasks := s.tasks - {t}))
    case Outsider(hash, e, now) => Some(s.(registry := AfterAnchor(s.registry, hash, e.(timestamp := now))))
  }

  /** `UNIQUE(document_id, version_number)`. */
  ghost predicate SameVersion(a: Version, b: Version) { a.documentId == b.documentId && a.number == b.number }

  /** The registry's entry for this version's hash names this version. */
  ghost predicate Confirms(registry: map<string, Entry>, row: Version) {
    && row.hash in registry && registry[row.hash].timestamp != 0
    && registry[row.hash].caseId == row.caseId
    && registry[row.hash].documentId == row.documentId
    && registry[row.hash].version == row.number
  }

  ghost predicate VersionOk(s: State, v: string)
    requires v in s.versions
  {
    v in s.anchors && (s.anchors[v] == Anchored ==> Confirms(s.registry, s.versions[v]))
  }

  ghost predicate TaskOk(s: State, t: nat)
    requires t in s.tasks
  {
    var task := s.tasks[t];
    task.version in s.versions && (task.Answered? && task.result == Anchored ==> Confirms(s.registry, s.versions[task.version]))
  }

  ghost predicate Inv(s: State) {
    && (forall v :: v in s.versions ==> VersionOk(s, v))
    && (forall t :: t in s.tasks ==> TaskOk(s, t))
    && (forall v, w :: v in s.versions && w in s.versions && SameVersion(s.versions[v], s.versions[w]) ==> v == w)
  }

  /** The registry only gains entries. */
  ghost predicate Extends(registry: map<string, Entry>, registry': map<string, Entry>) {
    forall hash :: hash in registry && registry[hash].timestamp != 0 ==> hash in registry' && registry'[hash] == registry[hash]
  }

  lemma StepExtendsRegistry(s: State, step: Step, s': State)
    requires Do(s, step) == Some(s')
    ensures Extends(s.registry, s'.registry)
  {
  }

  lemma CallConfirms(s: State, step: Step, s': State)
    requires Inv(s) && step.Call? && Do(s, step) == Some(s')
    ensures TaskOk(s', step.t)
  {
    assert TaskOk(s, step.t);
  }

  lemma StepKeepsInv(s: State, step: Step, s': State)
    requires Inv(s) && Do(s, step) == Some(s')
    ensures Inv(s')
  {
    StepExtendsRegistry(s, step, s');
    forall v | v in s'.versions ensures VersionOk(s', v) {
      assert v in s.versions ==> VersionOk(s, v);
      assert step.FinishTask? ==> TaskOk(s, step.t);
    }
    if step.Call? {
      CallConfirms(s, step, s');
    }
    forall t | t in s'.tasks ensures TaskOk(s', t) {
      assert t in s.tasks ==> TaskOk(s, t);
    }
  }

  // -------------------------------------------------------------- whole runs

  ghost predicate IsRun(states: seq<State>, steps: seq<Step>) {
    |states| == |steps| + 1 && states[0] == START && forall i: nat :: i < |steps| ==> Taken(states, steps, i)
  }

  ghost predicate Taken(states: seq<State>, steps: seq<Step>, i: nat)
    requires i < |steps| && i + 1 < |states|
  {
    Do(states[i], steps[i]) == Some(states[i + 1])
  }

  lemma {:induction false} RunKeepsInv(states: seq<State>, steps: seq<Step>, i: nat)
    requires IsRun(states, steps) && i < |states|
    ensures Inv(states[i])
  {
    if i > 0 {
      RunKeepsInv(states, steps, i - 1);
      assert Taken(states, steps, i - 1);
      StepKeepsInv(states[i - 1], steps[i - 1], states[i]);
    }
  }

  lemma {:induction false} RegistryOnlyGrows(states: seq<State>, steps: seq<Step>, i: nat, j: nat)
    requires IsRun(states, steps) && i <= j < |states|
    ensures Extends(states[i].registry, states[j].registry)
    ensures states[i].versions.Keys <= states[j].versions.Keys
    ensures forall v :: v in states[i].versions ==> states[j].versions[v] == states[i].versions[v]
  {
    if i < j {
      RegistryOnlyGrows(states, steps, i, j - 1);
      assert Taken(states, steps, j - 1);
      StepExtendsRegistry(states[j - 1], steps[j - 1], states[j]);
    }
  }

  /** Once anchored, the registry names exactly this case, document and version, then and forever. */
  lemma AnchoredForever(states: seq<State>, steps: seq<Step>, i: nat, j: nat, v: string)
    requires IsRun(states, steps) && i <= j < |states|
    requires v in states[i].versions && v in states[i].anchors && states[i].anchors[v] == Anchored
    ensures v in states[j].versions && states[j].versions[v] == states[i].versions[v]
    ensures Confirms(states[i].registry, states[i].versions[v])
    ensures Confirms(states[j].registry, states[j].versions[v])
    ensures states[j].registry[states[i].versions[v].hash] == states[i].registry[states[i].versions[v].hash]
  {
    RunKeepsInv(states, steps, i);
    assert VersionOk(states[i], v);
    RegistryOnlyGrows(states, steps, i, j);
  }

  /** Two versions with one hash are never both anchored. */
  lemma OneAnchoredPerHash(states: seq<State>, steps: seq<Step>, i: nat, v: string, w: string)
    requires IsRun(states, steps) && i < |states|
    requires v in states[i].versions && w in states[i].versions && states[i].versions[v].hash == states[i].versions[w].hash
    requires v in states[i].anchors && states[i].anchors[v] == Anchored
    requires w in states[i].anchors && states[i].anchors[w] == Anchored
    ensures v == w
  {
    var s := states[i];
    RunKeepsInv(states, steps, i);
    assert VersionOk(s, v) && VersionOk(s, w);
    assert SameVersion(s.versions[v], s.versions[w]);
  }

  // ------------------------------------------------------ the three-way verdict

  datatype Verdict = ObjectTampered | StillPending | AnchorFailed | NotOnChain | Verified

  /** `verify_chain`, given the recomputed hash and the answer of the registry (`None` too when unreachable). */
  function VerdictFor(computed: string, stored: string, anchor: Option<Status>, record: Option<Entry>): Verdict {
    if computed != stored then ObjectTampered
    else if anchor.None? || anchor.value == Pending then StillPending
    else if anchor.value == Failed then AnchorFailed
    else if record.None? then NotOnChain
    else Verified
  }

  // --------------------------------------------- when a failed anchor is on chain

  ghost predicate CallsFor(s: State, step: Step, v: string) {
    step.Call? && step.t in s.tasks && s.tasks[step.t].version == v
  }

  /** A stranger's entry that names this version. */
  ghost predicate Impersonates(step: Step, row: Version) {
    && step.Outsider? && step.hash == row.hash
    && step.e.caseId == row.caseId && step.e.documentId == row.documentId && step.e.version == row.number
  }

  /** The step puts this version's record on chain: the hash was free, and a call of its own or a stranger took it. */
  ghost predicate Writes(s: State, step: Step, v: string, row: Version) {
    Stamp(s.registry, row.hash) == 0 && ((CallsFor(s, step, v) && !step.rpc.Unreachable?) || Impersonates(step, row))
  }

  /** ... and no task is told that it did. */
  ghost predicate SlipsIn(s: State, step: Step, v: string, row: Version) {
    Stamp(s.registry, row.hash) == 0 && ((CallsFor(s, step, v) && step.rpc.ReceiptLost?) || Impersonates(step, row))
  }

  ghost predicate WritesAt(states: seq<State>, steps: seq<Step>, k: nat, v: string, row: Version) {
    k < |steps| && k < |states| && Writes(states[k], steps[k], v, row)
  }

  ghost predicate SlipsInAt(states: seq<State>, steps: seq<Step>, k: nat, v: string, row: Version) {
    k < |steps| && k < |states| && SlipsIn(states[k], steps[k], v, row)
  }

  /**
   * One call: it reports a failure for a version that then is on chain exactly when the version's record was
   * there before, or the hash was free and the receipt was lost.
   */
  lemma CallFailsOnChainIff(s: State, step: Step, s': State)
    requires step.Call? && Do(s, step) == Some(s')
    ensures var row := s.versions[s.tasks[step.t].version];
            (s'.tasks[step.t].result == Failed && Confirms(s'.registry, row)
             <==> Confirms(s.registry, row) || (step.rpc.ReceiptLost? && Stamp(s.registry, row.hash) == 0))
  {
  }

  /** `v` is the only version there is, or will be, with the document and number of `row`. */
  ghost predicate Owns(s: State, v: string, row: Version) {
    forall w :: w in s.versions && SameVersion(s.versions[w], row) ==> w == v && s.versions[w] == row
  }

  lemma StepConfirmsIff(s: State, step: Step, s': State, v: string, row: Version)
    requires Do(s, step) == Some(s') && Owns(s, v, row) && (v in s.versions ==> s.versions[v] == row)
    ensures Confirms(s'.registry, row) <==> Confirms(s.registry, row) || Writes(s, step, v, row)
  {
    if step.Call? {
      var w := s.tasks[step.t].version;
      assert SameVersion(s.versions[w], row) ==> w == v;
    }
  }

  lemma OwnsThroughout(states: seq<State>, steps: seq<Step>, k: nat, n: nat, v: string)
    requires IsRun(states, steps) && k <= n < |states| && v in states[n].versions
    ensures Owns(states[k], v, states[n].versions[v])
    ensures v in states[k].versions ==> states[k].versions[v] == states[n].versions[v]
  {
    RunKeepsInv(states, steps, n);
    RegistryOnlyGrows(states, steps, k, n);
    forall w | w in states[k].versions && SameVersion(states[k].versions[w], states[n].versions[v])
      ensures w == v
    {
      assert w in states[n].versions && states[n].versions[w] == states[k].versions[w];
    }
  }

  /** A version's record is on chain exactly when some step put it there. */
  lemma {:induction false} ConfirmedIffWritten(states: seq<State>, steps: seq<Step>, i: nat, n: nat, v: string)
    requires IsRun(states, steps) && i <= n < |states| && v in states[n].versions
    ensures var row := states[n].versions[v];
            Confirms(states[i].registry, row) <==> exists k: nat :: k < i && WritesAt(states, steps, k, v, row)
  {
    if i > 0 {
      var row := states[n].versions[v];
      ConfirmedIffWritten(states, steps, i - 1, n, v);
      OwnsThroughout(states, steps, i - 1, n, v);
      assert Taken(states, steps, i - 1);
      StepConfirmsIff(states[i - 1], steps[i - 1], states[i], v, row);
      assert Writes(states[i - 1], steps[i - 1], v, row) <==> WritesAt(states, steps, i - 1, v, row);
    }
  }

  ghost predicate StartsAt(steps: seq<Step>, k: nat, v: string) {
    k < |steps| && steps[k].StartTask? && steps[k].v == v
  }

  /** An upload schedules one task for its version. */
  ghost predicate OneTask(steps: seq<Step>, v: string) {
    forall j: nat, k: nat :: StartsAt(steps, j, v) && StartsAt(steps, k, v) ==> j == k
  }

  /** A confirmed call for this version: it anchored the hash, and its task knows. */
  ghost predicate AnchorsAt(states: seq<State>, steps: seq<Step>, k: nat, v: string, row: Version) {
    WritesAt(states, steps, k, v, row) && CallsFor(states[k], steps[k], v) && steps[k].rpc.Delivered?
  }

  /** What the version's only task can have done so far: `started`, and perhaps `anchored` the hash. */
  ghost predicate OneTaskState(s: State, v: string, started: bool, anchored: bool) {
    && (started ==> v in s.versions) && (anchored ==> started)
    && (forall t :: t in s.tasks && s.tasks[t].version == v ==> started && v in s.anchors && s.anchors[v] == Pending)
    && (forall t, u :: t in s.tasks && u in s.tasks && s.tasks[t].version == v && s.tasks[u].version == v ==> t == u)
    && (anchored ==> v in s.anchors && s.anchors[v] != Failed)
    && (anchored ==> forall t :: t in s.tasks && s.tasks[t].version == v ==> s.tasks[t] == Answered(v, Anchored))
  }

  lemma StepKeepsOneTask(s: State, step: Step, s': State, v: string, row: Version, started: bool, anchored: bool)
    requires Inv(s) && Do(s, step) == Some(s') && OneTaskState(s, v, started, anchored)
    requires v in s.versions ==> s.versions[v] == row
    requires step.StartTask? && step.v == v ==> !started
    ensures OneTaskState(s', v, started || (step.StartTask? && step.v == v),
                         anchored || (Stamp(s.registry, row.hash) == 0 && CallsFor(s, step, v) && step.rpc.Delivered?))
  {
    if step.Call? || step.FinishTask? {
      TaskStepKeepsOneTask(s, step, s', v, row, started, anchored);
    } else {
      forall t | t in s.tasks ensures s.tasks[t].version in s.versions {
        assert TaskOk(s, t);
      }
    }
  }

  lemma TaskStepKeepsOneTask(s: State, step: Step, s': State, v: string, row: Version, started: bool, anchored: bool)
    requires Do(s, step) == Some(s') && OneTaskState(s, v, started, anchored) && (step.Call? || step.FinishTask?)
    requires v in s.versions ==> s.versions[v] == row
    ensures OneTaskState(s', v, started,
                         anchored || (Stamp(s.registry, row.hash) == 0 && CallsFor(s, step, v) && step.rpc.Delivered?))
  {
  }

  ghost predicate StartedBefore(steps: seq<Step>, i: nat, v: string) { exists k: nat :: k < i && StartsAt(steps, k, v) }

  ghost predicate AnchoredBefore(states: seq<State>, steps: seq<Step>, i: nat, v: string, row: Version) {
    exists k: nat :: k < i && AnchorsAt(states, steps, k, v, row)
  }

  lemma OneStepLater(states: seq<State>, steps: seq<Step>, i: nat, v: string, row: Version)
    ensures StartedBefore(steps, i + 1, v) <==> StartedBefore(steps, i, v) || StartsAt(steps, i, v)
    ensures AnchoredBefore(states, steps, i + 1, v, row) <==>
            AnchoredBefore(states, steps, i, v, row) || AnchorsAt(states, steps, i, v, row)
    ensures OneTask(steps, v) && StartsAt(steps, i, v) ==> !StartedBefore(steps, i, v)
  {
  }

  lemma {:induction false} OneTaskThroughout(states: seq<State>, steps: seq<Step>, i: nat, n: nat, v: string)
    requires IsRun(states, steps) && i <= n < |states| && v in states[n].versions && OneTask(steps, v)
    ensures OneTaskState(states[i], v, StartedBefore(steps, i, v), AnchoredBefore(states, steps, i, v, states[n].versions[v]))
  {
    if i > 0 {
      var row := states[n].versions[v];
      OneTaskThroughout(states, steps, i - 1, n, v);
      OwnsThroughout(states, steps, i - 1, n, v);
      RunKeepsInv(states, steps, i - 1);
      assert Taken(states, steps, i - 1);
      OneStepLater(states, steps, i - 1, v, row);
      assert StartsAt(steps, i - 1, v) <==> steps[i - 1].StartTask? && steps[i - 1].v == v;
      StepKeepsOneTask(states[i - 1], steps[i - 1], states[i], v, row,
                       StartedBefore(steps, i - 1, v), AnchoredBefore(states, steps, i - 1, v, row));
    }
  }

  /**
   * With one task per version, a version marked FAILED is on chain exactly when, while its hash was still free,
   * its call's receipt was lost or a stranger anchored the hash in its name. Otherwise "no chain record" is true.
   */
  lemma FailedOnChainIff(states: seq<State>, steps: seq<Step>, i: nat, v: string)
    requires IsRun(states, steps) && i < |states| && OneTask(steps, v)
    requires v in states[i].versions && v in states[i].anchors && states[i].anchors[v] == Failed
    ensures var row := states[i].versions[v];
            Confirms(states[i].registry, row) <==> exists k: nat :: k < i && SlipsInAt(states, steps, k, v, row)
  {
    var row := states[i].versions[v];
    ConfirmedIffWritten(states, steps, i, i, v);
    OneTaskThroughout(states, steps, i, i, v);
    forall k: nat | k < i ensures WritesAt(states, steps, k, v, row) <==> SlipsInAt(states, steps, k, v, row) {
      assert !AnchoredBefore(states, steps, i, v, row);
      assert !AnchorsAt(states, steps, k, v, row);
    }
  }

  ghost predicate EndsFailedYetConfirmed(states: seq<State>, v: string)
    requires states != []
  {
    var s := states[|states| - 1];
    v in s.versions && v in s.anchors && s.anchors[v] == Failed && Confirms(s.registry, s.versions[v])
  }

  /** Such runs exist: the service's own record is on chain while the anchor says it failed. */
  lemma FailedAnchorMayBeOnChain()
    ensures exists states: seq<State>, steps: seq<Step>, v: string ::
              IsRun(states, steps) && OneTask(steps, v) && EndsFailedYetConfirmed(states, v)
  {
    var steps := [Publish("v", Version("h", "case", "document", 1)), StartTask(0, "v"), Call(0, ReceiptLost, 8, "service"),
                  FinishTask(0, true)];
    var s1 := Do(START, steps[0]).value;
    var s2 := Do(s1, steps[1]).value;
    var s3 := Do(s2, steps[2]).value;
    var s4 := Do(s3, steps[3]).value;
    var states := [START, s1, s2, s3, s4];
    forall i: nat | i < |steps| ensures Taken(states, steps, i) {
      assert i == 0 || i == 1 || i == 2 || i == 3;
    }
    assert IsRun(states, steps);
    assert OneTask(steps, "v") && EndsFailedYetConfirmed(states, "v");
  }

  // ------------------------------------------------------- what a verdict means

  /** The endpoint's verdict when the registry answers at state `i` and the anchor is loaded at state `j`. */
  ghost function VerdictAt(states: seq<State>, i: nat, j: nat, v: string, computed: string): Verdict
    requires i <= j < |states| && v in states[j].versions && v in states[j].anchors
  {
    var row := states[j].versions[v];
    VerdictFor(computed, row.hash, Some(states[j].anchors[v]), Lookup(states[i].registry, row.hash))
  }

  /** An anchored version's hash was taken at a step between the two reads exactly if the first read found it free. */
  lemma FreeAtFirstReadIff(states: seq<State>, steps: seq<Step>, i: nat, j: nat, v: string)
    requires IsRun(states, steps) && i <= j < |states|
    requires v in states[j].versions && v in states[j].anchors && states[j].anchors[v] == Anchored
    ensures var row := states[j].versions[v];
            (Stamp(states[i].registry, row.hash) == 0 <==> exists k: nat :: i <= k < j && WritesAt(states, steps, k, v, row))
  {
    var row := states[j].versions[v];
    RunKeepsInv(states, steps, j);
    assert VersionOk(states[j], v);
    ConfirmedIffWritten(states, steps, j, j, v);
    ConfirmedIffWritten(states, steps, i, j, v);
    forall k: nat | i <= k < j && WritesAt(states, steps, k, v, row) ensures Stamp(states[i].registry, row.hash) == 0 {
      RegistryOnlyGrows(states, steps, i, k);
    }
  }

  /**
   * With the registry reachable, "not on chain despite success" is said exactly of an unaltered object whose
   * version was anchored between the question to the registry and the loading of its anchor; "verified" exactly
   * of one anchored before, and then the record found names this version.
   */
  lemma VerdictsAreMeaningful(states: seq<State>, steps: seq<Step>, i: nat, j: nat, v: string, computed: string)
    requires IsRun(states, steps) && i <= j < |states| && v in states[j].versions && v in states[j].anchors
    ensures var row := states[j].versions[v];
            var overtaken := exists k: nat :: i <= k < j && WritesAt(states, steps, k, v, row);
            var verdict := VerdictAt(states, i, j, v, computed);
            && (verdict == NotOnChain <==> computed == row.hash && states[j].anchors[v] == Anchored && overtaken)
            && (verdict == Verified <==> computed == row.hash && states[j].anchors[v] == Anchored && !overtaken)
            && (verdict == Verified ==> Confirms(states[i].registry, row))
            && (verdict == ObjectTampered <==> computed != row.hash)
            && (verdict == StillPending <==> computed == row.hash && states[j].anchors[v] == Pending)
            && (verdict == AnchorFailed <==> computed == row.hash && states[j].anchors[v] == Failed)
    ensures i == j ==> VerdictAt(states, i, j, v, computed) != NotOnChain
  {
    if states[j].anchors[v] == Anchored {
      FreeAtFirstReadIff(states, steps, i, j, v);
      RunKeepsInv(states, steps, j);
      assert VersionOk(states[j], v);
      RegistryOnlyGrows(states, steps, i, j);
    }
  }

  /** The whole life of one anchored version. */
  const ANCHORING_STEPS: seq<Step> :=
    [Publish("v", Version("h", "case", "document", 1)), StartTask(0, "v"), Call(0, Delivered, 8, "service"), FinishTask(0, true)]

  ghost predicate EndsOvertaken(states: seq<State>)
  {
    |states| == 5 && "v" in states[4].versions && "v" in states[4].anchors && VerdictAt(states, 1, 4, "v", "h") == NotOnChain
  }

  /** A task that is mined and commits between the two reads brings the alarm up, with nothing amiss. */
  lemma VerdictMayBeOvertaken()
    ensures exists states: seq<State> :: IsRun(states, ANCHORING_STEPS) && EndsOvertaken(states)
  {
    var steps := ANCHORING_STEPS;
    var s1 := Do(START, steps[0]).value;
    var s2 := Do(s1, steps[1]).value;
    var s3 := Do(s2, steps[2]).value;
    var s4 := Do(s3, steps[3]).value;
    var states := [START, s1, s2, s3, s4];
    forall i: nat | i < |steps| ensures Taken(states, steps, i) {
      assert i == 0 || i == 1 || i == 2 || i == 3;
    }
    assert IsRun(states, ANCHORING_STEPS) && EndsOvertaken(states);
  }

  // ------------------------------------------------------------ the tables

  ghost function Next(s: State, step: Step): State {
    Do(s, step).GetOr(s)
  }

  /** A background task that nothing interleaves with. */
  ghost function TaskAlone(s: State, t: nat, v: string, rpc: Rpc, now: BlockTime, account: string, commits: bool): State {
    Next(Next(Next(s, StartTask(t, v)), Call(t, rpc, now, account)), FinishTask(t, commits))
  }

  class AnchorTables {
    const sha: seq<bv8> -> string
    const chain: DocumentRegistry
    var versions: map<string, Version>
    var anchors: map<string, Status>

    constructor (sha: seq<bv8> -> string, chain: DocumentRegistry)
      requires chain.anchors == map[]
      ensures this.sha == sha && this.chain == chain && Snapshot() == START
    {
      this.sha, this.chain := sha, chain;
      versions, anchors := map[], map[];
    }

    /** The tables and the contract as the interleaving model sees them between tasks. */
    ghost function Snapshot(): State
      reads this, chain
    {
      State(versions, anchors, chain.anchors, map[])
    }

    method AnchorDocumentHash(row: Version, rpc: Rpc, now: BlockTime, account: string) returns (status: Status)
      modifies chain
      ensures (chain.anchors, status) == Attempt(old(chain.anchors), row, rpc, now, account)
      ensures var free := row.hash !in old(chain.anchors) || old(chain.anchors)[row.hash].timestamp == 0;
              && status == (if rpc.Delivered? && free then Anchored else Failed)
              && chain.anchors == if free && !rpc.Unreachable?
                                  then old(chain.anchors)[row.hash := Entry(row.caseId, row.documentId, row.number, now, account)]
                                  else old(chain.anchors)
    {
      if rpc.Unreachable? {
        return Failed;
      }
      var mined := chain.AnchorHash(row.hash, row.caseId, row.documentId, row.number, now, account);
      status := if mined && rpc.Delivered? then Anchored else Failed;
    }

    /** Nothing happens for a missing version or an anchor no longer pending; a failed commit leaves it pending. */
    method AnchorBackgroundTask(v: string, rpc: Rpc, now: BlockTime, account: string, commits: bool, ghost t: nat)
      modifies this, chain
      ensures Snapshot() == TaskAlone(old(Snapshot()), t, v, rpc, now, account, commits)
      ensures versions == old(versions)
      ensures var pending := v in versions && v in old(anchors) && old(anchors)[v] == Pending;
              var free := pending && (versions[v].hash !in old(chain.anchors) || old(chain.anchors)[versions[v].hash].timestamp == 0);
              && anchors == (if pending && commits
                             then old(anchors)[v := if rpc.Delivered? && free then Anchored else Failed] else old(anchors))
              && chain.anchors == if free && !rpc.Unreachable?
                                  then old(chain.anchors)[versions[v].hash := EntryOf(versions[v], now, account)]
                                  else old(chain.anchors)
    {
      ghost var s0 := Snapshot();
      if v !in versions || v !in anchors || anchors[v] != Pending {
        return;
      }
      var status := AnchorDocumentHash(versions[v], rpc, now, account);
      ghost var s2 := Next(Next(s0, StartTask(t, v)), Call(t, rpc, now, account));
      assert s2 == Snapshot().(tasks := map[t := Answered(v, status)]);
      if commits {
        anchors := anchors[v := status];
      }
      assert s2.tasks - {t} == map[];
    }

    method VerifyOnChain(hash: string, reachable: bool) returns (r: Option<Entry>)
      ensures r == if reachable then Lookup(chain.anchors, hash) else None
      ensures r.Some? <==> reachable && hash in chain.anchors && chain.anchors[hash].timestamp != 0
      ensures r.Some? ==> r.value == chain.anchors[hash]
    {
      if !reachable {
        return None;
      }
      r := chain.GetAnchor(hash);
    }

    /** Recomputes the digest from the object's chunks, then compares database, store and chain; a missing object raises. */
    method VerifyChain(v: string, payload: Option<seq<seq<bv8>>>, reachable: bool) returns (r: Option<Verdict>)
      requires v in versions
      ensures r.None? <==> payload.None?
      ensures r.Some? ==>
                r.value == VerdictFor(sha(Concat(payload.value)), versions[v].hash, if v in anchors then Some(anchors[v]) else None,
                                      if reachable then Lookup(chain.anchors, versions[v].hash) else None)
      ensures r.Some? ==>
                var stored, altered := versions[v].hash, sha(Concat(payload.value)) != versions[v].hash;
                var found := reachable && stored in chain.anchors && chain.anchors[stored].timestamp != 0;
                && (r.value == ObjectTampered <==> altered)
                && (r.value == StillPending <==> !altered && (v !in anchors || anchors[v] == Pending))
                && (r.value == AnchorFailed <==> !altered && v in anchors && anchors[v] == Failed)
                && (r.value == NotOnChain <==> !altered && v in anchors && anchors[v] == Anchored && !found)
                && (r.value == Verified <==> !altered && v in anchors && anchors[v] == Anchored && found)
    {
      if payload.None? {
        return None;
      }
      var computed := Digested(payload.value);
      var stored := versions[v].hash;
      var record := VerifyOnChain(stored, reachable);
      if computed != stored {
        return Some(ObjectTampered);
      } else if v !in anchors || anchors[v] == Pending {
        return Some(StillPending);
      } else if anchors[v] == Failed {
        return Some(AnchorFailed);
      }
      r := Some(if record.None? then NotOnChain else Verified);
    }

    /** The digest of a stream, updated chunk by chunk. */
    method Digested(chunks: seq<seq<bv8>>) returns (hash: string)
      ensures hash == sha(Concat(chunks))
    {
      var digested: seq<bv8> := [];
      for i := 0 to |chunks|
        invariant digested == Concat(chunks[..i])
      {
        assert chunks[..i + 1][..i] == chunks[..i];
        digested := digested + chunks[i];
      }
      assert chunks[..|chunks|] == chunks;
      hash := sha(digested);
    }
  }
}
