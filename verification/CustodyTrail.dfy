/**
 * The audit trail when custody calls overlap: a transfer call's event follows its columns in a transaction of its
 * own, so another call may come between. Also here are the runs that show what overlapping calls can do.
 */
module CustodyTrail {
  import opened Basics
  import opened Custody
  import opened CustodyRaces
  import Authorization

  // ---------------------------------------------------------------- the trail

  /** The item a call writes. */
  ghost function ItemOf(s: State, a: Action): Option<string>
    requires Landable(s, a)
  {
    match a
    case CreateCase(_, _) => None
    case SetCaseStatus(_, _, _) => None
    case Upload(_, _, _) => None
    case Register(e, _, _) => Some(e)
    case Initiate(_, e, _, _, _) => Some(e)
    case Accept(t, _) => Some(s.transfers[t].evidence)
    case Reject(t, _) => Some(s.transfers[t].evidence)
    case Seal(e, _) => Some(e)
    case StartAnalysis(e, _) => Some(e)
    case CompleteAnalysis(e, _) => Some(e)
    case Submit(e, _) => Some(e)
    case Archive(e, _) => Some(e)
  }

  /** A picture shows an item as its row is. */
  ghost predicate Shows(p: Picture, s: State, e: string) {
    e in s.items && e in p.items && p.items[e] == Shown(s.items[e].status, s.items[e].custodian)
  }

  ghost predicate Owing(w: World, e: string) { exists r :: r in w.owed && w.owed[r].item == e }

  /** An event owed will set the picture of its item right. */
  ghost predicate DebtOk(p: Picture, s: State, d: Debt) {
    var e := d.item;
    && e in s.items && e in p.items
    && match d.entry
       case TransferCreated(t, _, x, _) =>
         x == e && Of(s, t, e) && s.items[e].status == TransferPending && p.items[e].custodian == s.items[e].custodian
       case TransferAccepted(t, actor, _) =>
         && Of(s, t, e) && t in p.subject && p.subject[t] == e
         && s.items[e].status == InCustody && s.items[e].custodian == actor
       case TransferRejected(t, _, _) =>
         && Of(s, t, e) && t in p.subject && p.subject[t] == e
         && s.items[e].status == InCustody && p.items[e].custodian == s.items[e].custodian
       case _ => false
  }

  ghost predicate Of(s: State, t: string, e: string) { t in s.transfers && s.transfers[t].evidence == e }

  ghost predicate OwedFor(w: World, q: nat, e: string) { q in w.owed && w.owed[q].item == e }

  /** The trail tells the transfer's item, or is about to. */
  ghost predicate Known(w: World, p: Picture, t: string, e: string) {
    (t in p.subject && p.subject[t] == e)
    || exists q :: OwedFor(w, q, e) && w.owed[q].entry.TransferCreated? && w.owed[q].entry.transfer == t
  }

  /** The trail is right about an item, but for one event owed at most. */
  ghost predicate ItemTrail(w: World, p: Picture, e: string)
    requires e in w.s.items
  {
    && e in p.items && e in p.trail
    && (forall t :: Of(w.s, t, e) ==> Known(w, p, t, e))
    && (forall q :: OwedFor(w, q, e) ==> DebtOk(p, w.s, w.owed[q]))
    && (forall q, r :: OwedFor(w, q, e) && OwedFor(w, r, e) ==> q == r)
    && (!Owing(w, e) ==> Shows(p, w.s, e))
  }

  /** All of the invariant but what it says of single items. */
  ghost predicate Framed(w: World) {
    && References(w.s)
    && (forall r :: r in w.inFlight ==> r !in w.owed)
    && (forall q :: q in w.owed ==> w.owed[q].item in w.s.items)
  }

  ghost predicate TrailInv(w: World, p: Picture) {
    Framed(w) && forall e :: e in w.s.items ==> ItemTrail(w, p, e)
  }

  /** A step that is not about item `x`. */
  ghost predicate NotAbout(w: World, p: Picture, w': World, p': Picture, x: string)
    requires x in w.s.items
  {
    && x in w'.s.items && w'.s.items[x] == w.s.items[x]
    && (x in p.items ==> x in p'.items && p'.items[x] == p.items[x]) && (x in p.trail ==> x in p'.trail)
    && (forall t :: Of(w'.s, t, x) <==> Of(w.s, t, x))
    && (forall t :: Of(w.s, t, x) && t in p.subject && p.subject[t] == x ==> t in p'.subject && p'.subject[t] == x)
    && (forall q :: OwedFor(w', q, x) <==> OwedFor(w, q, x))
    && (forall q :: OwedFor(w, q, x) ==> w'.owed[q] == w.owed[q])
  }

  lemma ItemTrailFrame(w: World, p: Picture, w': World, p': Picture, x: string)
    requires x in w.s.items && ItemTrail(w, p, x) && NotAbout(w, p, w', p', x)
    ensures ItemTrail(w', p', x)
  {
    forall t | Of(w'.s, t, x) ensures Known(w', p', t, x) {
      assert Of(w.s, t, x) && Known(w, p, t, x);
    }
    forall q | OwedFor(w', q, x) ensures DebtOk(p', w'.s, w'.owed[q]) {
      assert OwedFor(w, q, x) && DebtOk(p, w.s, w.owed[q]);
    }
    OwingIff(w, x);
    OwingIff(w', x);
  }

  lemma OwingIff(w: World, e: string)
    ensures Owing(w, e) <==> exists q :: OwedFor(w, q, e)
  {
    if Owing(w, e) {
      var q :| q in w.owed && w.owed[q].item == e;
      assert OwedFor(w, q, e);
    }
  }

  /** A landing that records itself. */
  lemma MoveKeepsTrail(w: World, r: nat, p: Picture, e: string, target: Status, actor: string)
    requires TrailInv(w, p) && e in w.s.items && !Owing(w, e) && target in AUDITED
    ensures TrailInv(World(Stamped(w.s, e, target, actor), w.inFlight - {r}, w.owed), Advance(p, StatusChanged(e, actor, target)))
  {
    var w' := World(Stamped(w.s, e, target, actor), w.inFlight - {r}, w.owed);
    var p' := Advance(p, StatusChanged(e, actor, target));
    OwingIff(w, e);
    assert ItemTrail(w, p, e);
    forall x | x in w'.s.items ensures ItemTrail(w', p', x) {
      if x != e {
        ItemTrailFrame(w, p, w', p', x);
      } else {
        forall t | Of(w'.s, t, e) ensures Known(w', p', t, e) {
          assert Of(w.s, t, e) && Known(w, p, t, e);
        }
      }
    }
  }

  lemma RegisterKeepsTrail(w: World, r: nat, p: Picture, a: Action)
    requires TrailInv(w, p) && a.Register? && Landable(w.s, a)
    ensures TrailInv(World(Landed(w.s, a), w.inFlight - {r}, w.owed), Advance(p, EvidenceCreated(a.evidence, a.who.id)))
  {
    var w' := World(Landed(w.s, a), w.inFlight - {r}, w.owed);
    var p' := Advance(p, EvidenceCreated(a.evidence, a.who.id));
    forall x | x in w'.s.items ensures ItemTrail(w', p', x) {
      if x in w.s.items {
        ItemTrailFrame(w, p, w', p', x);
      }
    }
  }

  /** A landing that goes into debt. */
  lemma TransferKeepsTrail(w: World, r: nat, p: Picture, a: Action)
    requires TrailInv(w, p) && Landable(w.s, a) && DebtOf(w.s, a).Some? && r in w.inFlight
    requires !Owing(w, DebtOf(w.s, a).value.item)
    ensures TrailInv(World(Landed(w.s, a), w.inFlight - {r}, w.owed[r := DebtOf(w.s, a).value]), p)
  {
    var d := DebtOf(w.s, a).value;
    var w' := World(Landed(w.s, a), w.inFlight - {r}, w.owed[r := d]);
    LandingKeepsReferences(w.s, a);
    forall x | x in w'.s.items ensures ItemTrail(w', p, x) {
      if x != d.item {
        IndebtedElsewhere(w, r, p, a, x);
        ItemTrailFrame(w, p, w', p, x);
      } else {
        IndebtedItem(w, r, p, a);
      }
    }
  }

  lemma IndebtedElsewhere(w: World, r: nat, p: Picture, a: Action, x: string)
    requires References(w.s) && Landable(w.s, a) && DebtOf(w.s, a).Some? && r !in w.owed
    requires x in w.s.items && x != DebtOf(w.s, a).value.item
    ensures NotAbout(w, p, World(Landed(w.s, a), w.inFlight - {r}, w.owed[r := DebtOf(w.s, a).value]), p, x)
  {
  }

  lemma IndebtedItem(w: World, r: nat, p: Picture, a: Action)
    requires References(w.s) && Landable(w.s, a) && DebtOf(w.s, a).Some? && r !in w.owed
    requires var e := DebtOf(w.s, a).value.item; e in w.s.items && ItemTrail(w, p, e) && !Owing(w, e)
    ensures var e, w' := DebtOf(w.s, a).value.item, World(Landed(w.s, a), w.inFlight - {r}, w.owed[r := DebtOf(w.s, a).value]);
            e in w'.s.items && ItemTrail(w', p, e)
  {
    var d := DebtOf(w.s, a).value;
    var e, w' := d.item, World(Landed(w.s, a), w.inFlight - {r}, w.owed[r := d]);
    OwingIff(w, e);
    assert OwedFor(w', r, e);
    assert forall q :: OwedFor(w', q, e) ==> q == r || OwedFor(w, q, e);
    forall t | Of(w'.s, t, e) ensures Known(w', p, t, e) {
      assert t in w.s.transfers ==> Of(w.s, t, e) && Known(w, p, t, e);
    }
    if a.Accept? || a.Reject? {
      assert Of(w.s, a.transfer, e) && Known(w, p, a.transfer, e);
    }
  }

  /** Recording what is owed. */
  lemma RecordKeepsTrail(w: World, r: nat, p: Picture)
    requires TrailInv(w, p) && r in w.owed
    ensures TrailInv(RecordedWorld(w, r), Advance(p, w.owed[r].entry))
  {
    var w', p' := RecordedWorld(w, r), Advance(p, w.owed[r].entry);
    DebtIsOk(w, r, p);
    forall x | x in w'.s.items ensures ItemTrail(w', p', x) {
      RecordKeepsItem(w, r, p, x);
    }
    SameFrame(w, w');
  }

  lemma DebtIsOk(w: World, r: nat, p: Picture)
    requires TrailInv(w, p) && r in w.owed
    ensures DebtOk(p, w.s, w.owed[r])
  {
    assert OwedFor(w, r, w.owed[r].item) && ItemTrail(w, p, w.owed[r].item);
  }

  lemma SameFrame(w: World, w': World)
    requires Framed(w) && w'.s.items == w.s.items && w'.s.transfers == w.s.transfers && w'.s.cases == w.s.cases
    requires w'.inFlight == w.inFlight && w'.owed.Keys <= w.owed.Keys && forall q :: q in w'.owed ==> w'.owed[q] == w.owed[q]
    ensures Framed(w')
  {
  }

  lemma RecordKeepsItem(w: World, r: nat, p: Picture, x: string)
    requires r in w.owed && x in w.s.items && ItemTrail(w, p, x) && DebtOk(p, w.s, w.owed[r])
    ensures ItemTrail(RecordedWorld(w, r), Advance(p, w.owed[r].entry), x)
  {
    if x != w.owed[r].item {
      RecordedElsewhere(w, r, p, x);
      ItemTrailFrame(w, p, RecordedWorld(w, r), Advance(p, w.owed[r].entry), x);
    } else {
      RecordedItem(w, r, p);
    }
  }

  /** The world after request `r` has recorded what it owed. */
  ghost function RecordedWorld(w: World, r: nat): World
    requires r in w.owed
  {
    w.(s := WithEntry(w.s, w.owed[r].entry), owed := w.owed - {r})
  }

  lemma RecordedElsewhere(w: World, r: nat, p: Picture, x: string)
    requires r in w.owed && DebtOk(p, w.s, w.owed[r]) && x in w.s.items && x != w.owed[r].item
    requires w.owed[r].entry.TransferCreated? ==> !Of(w.s, w.owed[r].entry.transfer, x)
    ensures NotAbout(w, p, w.(s := WithEntry(w.s, w.owed[r].entry), owed := w.owed - {r}), Advance(p, w.owed[r].entry), x)
  {
  }

  lemma RecordedItem(w: World, r: nat, p: Picture)
    requires r in w.owed && w.owed[r].item in w.s.items && ItemTrail(w, p, w.owed[r].item)
    ensures ItemTrail(w.(s := WithEntry(w.s, w.owed[r].entry), owed := w.owed - {r}), Advance(p, w.owed[r].entry), w.owed[r].item)
  {
    var d, e := w.owed[r], w.owed[r].item;
    var w', p' := w.(s := WithEntry(w.s, d.entry), owed := w.owed - {r}), Advance(p, d.entry);
    assert OwedFor(w, r, e) && DebtOk(p, w.s, d);
    assert forall q :: !OwedFor(w', q, e) by {
      forall q ensures !OwedFor(w', q, e) {
        assert OwedFor(w', q, e) ==> OwedFor(w, q, e) && q != r;
      }
    }
    forall t | Of(w'.s, t, e) ensures Known(w', p', t, e) {
      assert Of(w.s, t, e) && Known(w, p, t, e);
    }
  }

  /** Nothing about items or transfers changes. */
  lemma OtherKeepsTrail(w: World, p: Picture, w': World)
    requires TrailInv(w, p) && w'.owed == w.owed && (forall r :: r in w'.inFlight ==> r !in w'.owed)
    requires w'.s.items == w.s.items && w'.s.transfers == w.s.transfers && References(w'.s)
    ensures TrailInv(w', p)
  {
    forall x | x in w'.s.items ensures ItemTrail(w', p, x) {
      ItemTrailFrame(w, p, w', p, x);
    }
  }

  lemma AuditedLanding(w: World, r: nat, e: string, target: Status, actor: string)
    requires TrailInv(w, Replay(w.s.log)) && e in w.s.items && !Owing(w, e) && target in AUDITED
    ensures var w' := World(Stamped(w.s, e, target, actor), w.inFlight - {r}, w.owed); TrailInv(w', Replay(w'.s.log))
  {
    ReplayNext(w.s.log, StatusChanged(e, actor, target));
    MoveKeepsTrail(w, r, Replay(w.s.log), e, target, actor);
  }

  lemma IndebtedLanding(w: World, r: nat, a: Action)
    requires TrailInv(w, Replay(w.s.log)) && Landable(w.s, a) && DebtOf(w.s, a).Some? && r in w.inFlight
    requires !Owing(w, DebtOf(w.s, a).value.item)
    ensures var w' := World(Landed(w.s, a), w.inFlight - {r}, w.owed[r := DebtOf(w.s, a).value]); TrailInv(w', Replay(w'.s.log))
  {
    assert Landed(w.s, a).log == w.s.log;
    TransferKeepsTrail(w, r, Replay(w.s.log), a);
  }

  lemma CaseLanding(w: World, r: nat, a: Action)
    requires TrailInv(w, Replay(w.s.log)) && Landable(w.s, a) && (a.CreateCase? || a.SetCaseStatus? || a.Upload?)
    ensures var w' := World(Landed(w.s, a), w.inFlight - {r}, w.owed); TrailInv(w', Replay(w'.s.log))
  {
    LandingKeepsReferences(w.s, a);
    OtherKeepsTrail(w, Replay(w.s.log), World(Landed(w.s, a), w.inFlight - {r}, w.owed));
  }

  /** The world after call `a` of request `r` has landed. */
  ghost function LandedWorld(w: World, r: nat, a: Action): World
    requires Landable(w.s, a)
  {
    var debt := DebtOf(w.s, a);
    World(Landed(w.s, a), w.inFlight - {r}, if debt.Some? then w.owed[r := debt.value] else w.owed)
  }

  /** A landing where nothing is owed on the item it writes. */
  lemma LandingKeepsTrail(w: World, r: nat, a: Action)
    requires TrailInv(w, Replay(w.s.log)) && r in w.inFlight && Landable(w.s, a)
    requires ItemOf(w.s, a).Some? ==> !Owing(w, ItemOf(w.s, a).value)
    ensures TrailInv(LandedWorld(w, r, a), Replay(LandedWorld(w, r, a).s.log))
  {
    match a
    case Register(e, _, who) =>
      ReplayNext(w.s.log, EvidenceCreated(e, who.id));
      RegisterKeepsTrail(w, r, Replay(w.s.log), a);
    case Seal(e, who) => AuditedLanding(w, r, e, Sealed, who.id);
    case StartAnalysis(e, who) => AuditedLanding(w, r, e, UnderAnalysis, who.id);
    case CompleteAnalysis(e, who) => AuditedLanding(w, r, e, Analyzed, who.id);
    case Submit(e, who) => AuditedLanding(w, r, e, CourtSubmitted, who.id);
    case Archive(e, who) => AuditedLanding(w, r, e, Archived, who.id);
    case Initiate(_, _, _, _, _) => IndebtedLanding(w, r, a);
    case Accept(_, _) => IndebtedLanding(w, r, a);
    case Reject(_, _) => IndebtedLanding(w, r, a);
    case _ => CaseLanding(w, r, a);
  }

  lemma RecordingKeepsTrail(w: World, r: nat)
    requires TrailInv(w, Replay(w.s.log)) && r in w.owed
    ensures TrailInv(RecordedWorld(w, r), Replay(RecordedWorld(w, r).s.log))
  {
    ReplayNext(w.s.log, w.owed[r].entry);
    RecordKeepsTrail(w, r, Replay(w.s.log));
  }

  /** No call lands at step `k` on an item with an event owed, and nothing owed is lost. */
  ghost predicate CalmAt(worlds: seq<World>, steps: seq<Step>, k: nat) {
    && (var l := LandingAt(worlds, steps, k);
        l.Some? && ItemOf(worlds[k].s, l.value).Some? ==> !Owing(worlds[k], ItemOf(worlds[k].s, l.value).value))
    && (k < |steps| && k < |worlds| && steps[k].Drop? ==> steps[k].r !in worlds[k].owed)
  }

  lemma StepKeepsTrail(worlds: seq<World>, steps: seq<Step>, k: nat)
    requires IsRun(worlds, steps) && k < |steps| && CalmAt(worlds, steps, k)
    requires TrailInv(worlds[k], Replay(worlds[k].s.log))
    ensures TrailInv(worlds[k + 1], Replay(worlds[k + 1].s.log))
  {
    assert Taken(worlds, steps, k);
    var w, w' := worlds[k], worlds[k + 1];
    if LandingAt(worlds, steps, k).Some? {
      LandingKeepsTrail(w, steps[k].r, LandingAt(worlds, steps, k).value);
    } else if steps[k].Record? {
      RecordingKeepsTrail(w, steps[k].r);
    } else {
      assert w'.s == w.s && w'.owed == w.owed;
      OtherKeepsTrail(w, Replay(w.s.log), w');
    }
  }

  lemma {:induction false} CalmRunKeepsTrail(worlds: seq<World>, steps: seq<Step>, i: nat)
    requires IsRun(worlds, steps) && i < |worlds| && forall k: nat :: k < i ==> CalmAt(worlds, steps, k)
    ensures TrailInv(worlds[i], Replay(worlds[i].s.log))
  {
    if i > 0 {
      CalmRunKeepsTrail(worlds, steps, i - 1);
      assert CalmAt(worlds, steps, i - 1);
      StepKeepsTrail(worlds, steps, i - 1);
    }
  }

  /**
   * However calls overlap: as long as none lands on an item between the two commits of a transfer call on it, and
   * no second commit is lost, replaying the trail shows every item that owes no event as its row is.
   */
  lemma CalmTrailRebuildsCustody(worlds: seq<World>, steps: seq<Step>, i: nat, e: string)
    requires IsRun(worlds, steps) && i < |worlds| && forall k: nat :: k < i ==> CalmAt(worlds, steps, k)
    requires e in worlds[i].s.items && !Owing(worlds[i], e)
    ensures Shows(Replay(worlds[i].s.log), worlds[i].s, e)
  {
    CalmRunKeepsTrail(worlds, steps, i);
    assert ItemTrail(worlds[i], Replay(worlds[i].s.log), e);
  }

  // -------------------------------------------------------- calls that overtake

  /** What one call leaves when a second one runs, to its end, between the first one's two commits. */
  ghost function Overtaken(s: State, a: Action, b: Action): State
    requires Landable(s, a) && DebtOf(s, a).Some? && Landable(Landed(s, a), b)
  {
    WithEntry(Settled(Landed(s, a), b), DebtOf(s, a).value.entry)
  }

  /** Nothing is owed, and the trail is right. */
  ghost predicate TrailRight(s: State) { TrailInv(World(s, map[], map[]), Replay(s.log)) }

  /** The world between the first call's two commits, the second call waiting. */
  ghost function Between(s: State, a: Action, b: Action): World
    requires Landable(s, a) && DebtOf(s, a).Some?
  {
    World(Landed(s, a), map[1 := b], map[0 := DebtOf(s, a).value])
  }

  lemma LandsBetween(s: State, a: Action, b: Action)
    requires Landable(s, a) && DebtOf(s, a).Some?
    ensures LandedWorld(World(s, map[0 := a, 1 := b], map[]), 0, a) == Between(s, a, b)
  {
    assert map[0 := a, 1 := b] - {0} == map[1 := b];
  }

  lemma BetweenIsSound(s: State, a: Action, b: Action)
    requires TrailRight(s) && Landable(s, a) && DebtOf(s, a).Some?
    ensures TrailInv(Between(s, a, b), Replay(Landed(s, a).log))
  {
    var w := World(s, map[0 := a, 1 := b], map[]);
    OtherKeepsTrail(World(s, map[], map[]), Replay(s.log), w);
    LandingKeepsTrail(w, 0, a);
    LandsBetween(s, a, b);
  }

  /** The world once request `r` has written and recorded call `b`. */
  ghost function SettledWorld(w: World, r: nat, b: Action): World
    requires Landable(w.s, b)
  {
    var landed := LandedWorld(w, r, b);
    if r in landed.owed then RecordedWorld(landed, r) else landed
  }

  lemma SettlesTo(w: World, r: nat, b: Action)
    requires Landable(w.s, b) && r !in w.owed
    ensures SettledWorld(w, r, b) == World(Settled(w.s, b), w.inFlight - {r}, w.owed)
  {
    if DebtOf(w.s, b).Some? {
      assert w.owed[r := DebtOf(w.s, b).value] - {r} == w.owed;
    }
  }

  lemma SettlingKeepsTrail(w: World, r: nat, b: Action)
    requires TrailInv(w, Replay(w.s.log)) && r in w.inFlight && Landable(w.s, b)
    requires ItemOf(w.s, b).Some? ==> !Owing(w, ItemOf(w.s, b).value)
    ensures TrailInv(SettledWorld(w, r, b), Replay(SettledWorld(w, r, b).s.log))
  {
    LandingKeepsTrail(w, r, b);
    if r in LandedWorld(w, r, b).owed {
      RecordingKeepsTrail(LandedWorld(w, r, b), r);
    }
  }

  lemma OvertakenWorld(s: State, a: Action, b: Action)
    requires Landable(s, a) && DebtOf(s, a).Some? && Landable(Landed(s, a), b)
    ensures 0 in SettledWorld(Between(s, a, b), 1, b).owed
    ensures RecordedWorld(SettledWorld(Between(s, a, b), 1, b), 0) == World(Overtaken(s, a, b), map[], map[])
  {
    SettlesTo(Between(s, a, b), 1, b);
    assert map[1 := b] - {1} == map[];
    assert map[0 := DebtOf(s, a).value] - {0} == map[];
  }

  lemma OnlyItemOwing(s: State, a: Action, b: Action, e: string)
    requires Landable(s, a) && DebtOf(s, a).Some?
    ensures Owing(Between(s, a, b), e) <==> e == DebtOf(s, a).value.item
  {
    assert 0 in Between(s, a, b).owed;
  }

  /** An overtaking call on another item does no harm. */
  lemma OvertakenElsewhere(s: State, a: Action, b: Action)
    requires TrailRight(s) && Landable(s, a) && DebtOf(s, a).Some? && Landable(Landed(s, a), b)
    requires ItemOf(Landed(s, a), b) != Some(DebtOf(s, a).value.item)
    ensures TrailRight(Overtaken(s, a, b))
  {
    BetweenIsSound(s, a, b);
    if ItemOf(Landed(s, a), b).Some? {
      OnlyItemOwing(s, a, b, ItemOf(Landed(s, a), b).value);
    }
    SettlingKeepsTrail(Between(s, a, b), 1, b);
    OvertakenWorld(s, a, b);
    RecordingKeepsTrail(SettledWorld(Between(s, a, b), 1, b), 0);
  }

  /** The status a call leaves its item with. */
  function TargetOf(a: Action): Status {
    match a
    case Initiate(_, _, _, _, _) => TransferPending
    case Accept(_, _) => InCustody
    case Reject(_, _) => InCustody
    case Seal(_, _) => Sealed
    case StartAnalysis(_, _) => UnderAnalysis
    case CompleteAnalysis(_, _) => Analyzed
    case Submit(_, _) => CourtSubmitted
    case Archive(_, _) => Archived
    case _ => Registered
  }

  /** A call whose checks pass moves an existing item to another status. */
  lemma PassingCallMoves(s: State, b: Action, e: string)
    requires Apply(s, b).Ok? && Landable(s, b) && ItemOf(s, b) == Some(e) && e in s.items
    ensures Landed(s, b).items[e].status == TargetOf(b) != s.items[e].status
  {
  }

  /** Whatever was recorded since, the event of a transfer call has the last word on its item's status. */
  lemma LastWord(p: Picture, s: State, a: Action)
    requires Landable(s, a) && DebtOf(s, a).Some?
    requires var e := DebtOf(s, a).value.item;
             e in p.items && e in p.trail && (a.Initiate? || (a.transfer in p.subject && p.subject[a.transfer] == e))
    ensures var d := DebtOf(s, a).value;
            d.item in Advance(p, d.entry).items && Advance(p, d.entry).items[d.item].status == TargetOf(a)
  {
  }

  /** Recording a call neither forgets items nor changes what is known of transfers. */
  lemma SettlingKeepsSubjects(s: State, b: Action)
    requires Landable(s, b)
    ensures var p, p' := Replay(s.log), Replay(Settled(s, b).log);
            && (forall e :: e in p.items ==> e in p'.items) && (forall e :: e in p.trail ==> e in p'.trail)
            && (forall t :: t in p.subject && t in s.transfers ==> t in p'.subject && p'.subject[t] == p.subject[t])
  {
    var log, log' := s.log, Settled(s, b).log;
    if log' != log {
      assert log' == log + [log'[|log|]];
      ReplayNext(log, log'[|log|]);
    }
  }

  /** The picture before the first call's event is recorded still knows its item and transfer. */
  lemma StillKnown(s: State, a: Action, b: Action)
    requires TrailRight(s) && Landable(s, a) && DebtOf(s, a).Some? && Landable(Landed(s, a), b)
    ensures var e, p := DebtOf(s, a).value.item, Replay(Settled(Landed(s, a), b).log);
            e in p.items && e in p.trail && (a.Initiate? || (a.transfer in p.subject && p.subject[a.transfer] == e))
  {
    var w, e := World(s, map[], map[]), DebtOf(s, a).value.item;
    assert ItemTrail(w, Replay(s.log), e);
    assert Landed(s, a).log == s.log;
    SettlingKeepsSubjects(Landed(s, a), b);
    if !a.Initiate? {
      assert Of(s, a.transfer, e) && Known(w, Replay(s.log), a.transfer, e);
    }
  }

  lemma OvertakenDisagrees(s: State, a: Action, b: Action)
    requires TrailRight(s) && Landable(s, a) && DebtOf(s, a).Some? && Apply(Landed(s, a), b).Ok?
    requires Landable(Landed(s, a), b) && ItemOf(Landed(s, a), b) == Some(DebtOf(s, a).value.item)
    ensures !TrailRight(Overtaken(s, a, b))
    ensures var e, s' := DebtOf(s, a).value.item, Overtaken(s, a, b);
            e in s'.items && e in Replay(s'.log).items && Replay(s'.log).items[e].status != s'.items[e].status
  {
    var d, s1, s3 := DebtOf(s, a).value, Landed(s, a), Overtaken(s, a, b);
    StillKnown(s, a, b);
    ReplayNext(Settled(s1, b).log, d.entry);
    LastWord(Replay(Settled(s1, b).log), s, a);
    LandsOnTarget(s, a);
    PassingCallMoves(s1, b, d.item);
    NotShown(s3, d.item);
  }

  lemma LandsOnTarget(s: State, a: Action)
    requires Landable(s, a) && DebtOf(s, a).Some?
    ensures DebtOf(s, a).value.item in Landed(s, a).items
    ensures Landed(s, a).items[DebtOf(s, a).value.item].status == TargetOf(a)
  {
  }

  /** Where the trail is right it shows every item as its row is. */
  lemma RightShows(s: State, e: string)
    requires TrailRight(s) && e in s.items
    ensures Shows(Replay(s.log), s, e)
  {
    assert ItemTrail(World(s, map[], map[]), Replay(s.log), e);
    OwingIff(World(s, map[], map[]), e);
  }

  lemma NotShown(s: State, e: string)
    requires e in s.items && e in Replay(s.log).items && Replay(s.log).items[e].status != s.items[e].status
    ensures !TrailRight(s)
  {
    if TrailRight(s) {
      RightShows(s, e);
    }
  }

  /**
   * A call that runs between the two commits of a transfer call leaves the trail right exactly when it is not on
   * the same item; on the same item it leaves a trail that shows another status than the row.
   */
  lemma OvertakenTrailRightIff(s: State, a: Action, b: Action)
    requires TrailRight(s) && Apply(s, a).Ok? && Landable(s, a) && DebtOf(s, a).Some?
    requires Apply(Landed(s, a), b).Ok? && Landable(Landed(s, a), b)
    ensures TrailRight(Overtaken(s, a, b)) <==> ItemOf(Landed(s, a), b) != Some(DebtOf(s, a).value.item)
    ensures var e, s' := DebtOf(s, a).value.item, Overtaken(s, a, b);
            ItemOf(Landed(s, a), b) == Some(e) ==>
              e in s'.items && e in Replay(s'.log).items && Replay(s'.log).items[e].status != s'.items[e].status
  {
    if ItemOf(Landed(s, a), b) != Some(DebtOf(s, a).value.item) {
      OvertakenElsewhere(s, a, b);
    } else {
      OvertakenDisagrees(s, a, b);
    }
  }

  // ---------------------------------------------------------------- witnesses

  /** Some run ends here. */
  ghost predicate Reachable(w: World) {
    exists worlds: seq<World>, steps: seq<Step> :: IsRun(worlds, steps) && worlds[|worlds| - 1] == w
  }

  lemma ReachableStep(w: World, step: Step, w': World)
    requires Reachable(w) && Do(w, step) == Some(w')
    ensures Reachable(w')
  {
    var worlds: seq<World>, steps: seq<Step> :| IsRun(worlds, steps) && worlds[|worlds| - 1] == w;
    var worlds', steps' := worlds + [w'], steps + [step];
    forall i: nat | i < |steps'| ensures Taken(worlds', steps', i) {
      assert i < |steps| ==> Taken(worlds, steps, i);
    }
    assert IsRun(worlds', steps') && worlds'[|worlds'| - 1] == w';
  }

  lemma EmptyReachable()
    ensures Reachable(EMPTY)
  {
    assert IsRun([EMPTY], []) && [EMPTY][0] == EMPTY;
  }

  /** A call may run from its first read to its last commit undisturbed. */
  lemma RunsThrough(w: World, r: nat, a: Action)
    requires Reachable(w) && r !in w.inFlight && r !in w.owed && Apply(w.s, a).Ok? && !WritesNothing(w.s, a) && Landable(w.s, a)
    ensures Reachable(World(Settled(w.s, a), w.inFlight, w.owed))
  {
    var w1 := w.(inFlight := w.inFlight[r := a]);
    ReachableStep(w, Read(r, a), w1);
    var w2 := LandedWorld(w1, r, a);
    ReachableStep(w1, Land(r), w2);
    assert w1.inFlight - {r} == w.inFlight;
    if r in w2.owed {
      ReachableStep(w2, Record(r), RecordedWorld(w2, r));
      assert w2.owed - {r} == w.owed;
    }
  }

  /** Two calls may both read before either writes. */
  lemma BothRead(s: State, a: Action, b: Action) returns (w: World)
    requires Reachable(World(s, map[], map[])) && Landable(s, a) && Landable(Landed(s, a), b)
    requires Apply(s, a).Ok? && Apply(s, b).Ok? && !WritesNothing(s, a) && !WritesNothing(s, b)
    ensures Reachable(w) && SameRows(w.s, Landed(Landed(s, a), b)) && w.inFlight == map[] && 2 !in w.owed
  {
    var w0 := World(s, map[], map[]);
    var w1 := World(s, map[0 := a], map[]);
    assert w0.inFlight[0 := a] == w1.inFlight;
    ReachableStep(w0, Read(0, a), w1);
    var w2 := World(s, map[0 := a, 1 := b], map[]);
    assert w1.inFlight[1 := b] == w2.inFlight;
    ReachableStep(w1, Read(1, b), w2);
    w := BothLand(w2, a, b);
  }

  lemma BothLand(w: World, a: Action, b: Action) returns (w': World)
    requires Reachable(w) && w.inFlight == map[0 := a, 1 := b] && w.owed == map[]
    requires Landable(w.s, a) && Landable(Landed(w.s, a), b)
    ensures Reachable(w') && SameRows(w'.s, Landed(Landed(w.s, a), b)) && w'.inFlight == map[] && 2 !in w'.owed
  {
    var w3 := LandedWorld(w, 0, a);
    ReachableStep(w, Land(0), w3);
    assert w3.inFlight == map[1 := b];
    w' := LandedWorld(w3, 1, b);
    ReachableStep(w3, Land(1), w');
    assert w3.inFlight - {1} == map[];
  }

  /** An administrator. */
  const ROOT := Caller("root", Authorization.Authority(true, {}, Some(Authorization.Manage)))

  /** One open case holding one sealed item in the administrator's custody. */
  const ONE_ITEM :=
    State(map["c" := Authorization.Open], map["e" := Item("c", Sealed, "root")], map[], [],
          [EvidenceCreated("e", "root"), StatusChanged("e", "root", Sealed)])

  lemma OneItemReachable()
    ensures Reachable(World(ONE_ITEM, map[], map[]))
  {
    EmptyReachable();
    var s1 := State(map["c" := Authorization.Open], map[], map[], [], []);
    RunsThrough(EMPTY, 0, CreateCase("c", Authorization.Open));
    assert Settled(START, CreateCase("c", Authorization.Open)) == s1;
    var s2 := s1.(items := map["e" := Item("c", Registered, "root")], log := [EvidenceCreated("e", "root")]);
    RunsThrough(World(s1, map[], map[]), 0, Register("e", "c", ROOT));
    assert Settled(s1, Register("e", "c", ROOT)) == s2;
    RunsThrough(World(s2, map[], map[]), 0, Seal("e", ROOT));
    assert Settled(s2, Seal("e", ROOT)) == ONE_ITEM;
  }

  /** Initiations of the same item by its custodian, to two people. */
  const FIRST := Initiate("t", "e", "u", true, ROOT)
  const SECOND := Initiate("v", "e", "w", true, ROOT)

  /** The rows after both. */
  const BOTH_OPEN :=
    State(ONE_ITEM.cases, map["e" := Item("c", TransferPending, "root")],
          map["t" := Transfer("e", "root", "u", Pending), "v" := Transfer("e", "root", "w", Pending)], [], ONE_ITEM.log)

  /** The first recipient, the second, and what the first one's acceptance makes of the rows. */
  const FIRST_USER := Caller("u", ROOT.authority)
  const SECOND_USER := Caller("w", ROOT.authority)
  const ONE_TAKEN :=
    BOTH_OPEN.(items := map["e" := Item("c", InCustody, "u")],
               transfers := BOTH_OPEN.transfers["t" := Transfer("e", "root", "u", Completed)])

  /** Two initiations that both read the item as sealed leave it with two pending transfers. */
  lemma TwoInitiationsRace() returns (w: World)
    ensures Reachable(w) && SameRows(w.s, BOTH_OPEN) && w.inFlight == map[] && 2 !in w.owed
    ensures PendingTransfers(w.s, "e") == {"t", "v"}
  {
    OneItemReachable();
    w := BothRead(ONE_ITEM, FIRST, SECOND);
    assert SameRows(Landed(Landed(ONE_ITEM, FIRST), SECOND), BOTH_OPEN);
  }

  /** After the first acceptance the second, though its transfer is pending, fails inside `update_status`. */
  lemma SecondAcceptanceFails() returns (w: World)
    ensures Reachable(w) && MayResolve(w.s, "v", SECOND_USER) && Apply(w.s, Accept("v", SECOND_USER)) == Err(Invalid)
  {
    var both := TwoInitiationsRace();
    var accept := Accept("t", FIRST_USER);
    RowsDecide(BOTH_OPEN, both.s, accept);
    assert Apply(BOTH_OPEN, accept).Ok? && Landable(BOTH_OPEN, accept);
    RunsThrough(both, 2, accept);
    w := World(Settled(both.s, accept), both.inFlight, both.owed);
    assert SameRows(w.s, ONE_TAKEN);
  }

  /** An upload and a change of status that read the case while it was open take effect after it was archived. */
  lemma ArchivalRaces() returns (changed: World, reopened: World)
    ensures Reachable(changed) && Frozen(changed.s, "c") && changed.s.versions == [Version("c", "d")]
    ensures Reachable(reopened) && "c" in reopened.s.cases && reopened.s.cases["c"] == Authorization.Closed
  {
    var archive := SetCaseStatus("c", Authorization.Archived, ROOT);
    OneItemReachable();
    changed := BothRead(ONE_ITEM, archive, Upload("c", "d", ROOT));
    reopened := BothRead(ONE_ITEM, archive, SetCaseStatus("c", Authorization.Closed, ROOT));
  }

  /** The rows between the two commits of the initiation, and once the acceptance has run. */
  const OPENED :=
    State(ONE_ITEM.cases, map["e" := Item("c", TransferPending, "root")],
          map["t" := Transfer("e", "root", "u", Pending)], [], ONE_ITEM.log)
  const ACCEPTED :=
    State(ONE_ITEM.cases, map["e" := Item("c", InCustody, "u")],
          map["t" := Transfer("e", "root", "u", Completed)], [], ONE_ITEM.log + [TransferAccepted("t", "u", "root")])
  const CREATED := Debt("e", TransferCreated("t", "root", "e", "u"))

  lemma OpenedReachable()
    ensures Reachable(World(OPENED, map[], map[0 := CREATED]))
  {
    OneItemReachable();
    var w0 := World(ONE_ITEM, map[], map[]);
    var w1 := World(ONE_ITEM, map[0 := FIRST], map[]);
    assert w0.inFlight[0 := FIRST] == w1.inFlight;
    ReachableStep(w0, Read(0, FIRST), w1);
    ReachableStep(w1, Land(0), LandedWorld(w1, 0, FIRST));
    assert Landed(ONE_ITEM, FIRST) == OPENED;
    assert LandedWorld(w1, 0, FIRST) == World(OPENED, map[], map[0 := CREATED]);
  }

  lemma AcceptedFromOpened()
    ensures var accept := Accept("t", FIRST_USER);
            Apply(OPENED, accept).Ok? && Landable(OPENED, accept) && Settled(OPENED, accept) == ACCEPTED
  {
  }

  /** An acceptance between the two commits of the initiation leaves a trail, with nothing owed, that tells of a transfer pending. */
  lemma AcceptanceOvertakes() returns (w: World)
    ensures Reachable(w) && w.inFlight == map[] && w.owed == map[] && "e" in w.s.items
    ensures w.s.items["e"] == Item("c", InCustody, "u")
    ensures "e" in Replay(w.s.log).items && Replay(w.s.log).items["e"] == Shown(TransferPending, "root")
  {
    OpenedReachable();
    AcceptedFromOpened();
    RunsThrough(World(OPENED, map[], map[0 := CREATED]), 1, Accept("t", FIRST_USER));
    var before := World(ACCEPTED, map[], map[0 := CREATED]);
    w := World(WithEntry(ACCEPTED, CREATED.entry), map[], map[]);
    assert before.owed - {0} == w.owed;
    ReachableStep(before, Record(0), w);
    OvertakenLog(w.s.log);
  }

  lemma OvertakenLog(log: seq<Entry>)
    requires log == ONE_ITEM.log + [TransferAccepted("t", "u", "root")] + [TransferCreated("t", "root", "e", "u")]
    ensures "e" in Replay(log).items && Replay(log).items["e"] == Shown(TransferPending, "root")
  {
    var created := [EvidenceCreated("e", "root")];
    ReplayNext([], created[0]);
    assert [] + [created[0]] == created;
    ReplayNext(created, StatusChanged("e", "root", Sealed));
    assert created + [StatusChanged("e", "root", Sealed)] == ONE_ITEM.log;
    ReplayNext(ONE_ITEM.log, TransferAccepted("t", "u", "root"));
    ReplayNext(ONE_ITEM.log + [TransferAccepted("t", "u", "root")], TransferCreated("t", "root", "e", "u"));
  }
}
