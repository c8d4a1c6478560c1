/** The audit table as one session sees it: `record_event` and `verify_chain`. */
module AuditLog {
  import opened Basics
  import opened AuditEvents
  import opened AuditChain

  /** `compute_event_hash` over a digest of text. */
  function EventDigest(sha: string -> string): Digest {
    (c: Content, previousHash: string) => sha(PreImage(c, previousHash))
  }

  /** No two of these texts collide. */
  ghost predicate CollisionFree(sha: string -> string, texts: set<string>) {
    forall s, t :: s in texts && t in texts && sha(s) == sha(t) ==> s == t
  }

  ghost function PreImages(rows: seq<Event>): set<string> {
    set e | e in rows :: PreImage(e.content, e.previousHash)
  }

  /** A digest without collisions among the rows' pre-images binds every hashed field of every row. */
  lemma CollisionFreeBinds(sha: string -> string, rows: seq<Event>)
    requires CollisionFree(sha, PreImages(rows))
    ensures Binding(EventDigest(sha), rows)
  {
    forall e, f | e in rows && f in rows ensures ToldApart(EventDigest(sha), e, f) {
      assert PreImage(e.content, e.previousHash) in PreImages(rows);
      assert PreImage(f.content, f.previousHash) in PreImages(rows);
      PreImageUnambiguous(e.content, e.previousHash, f.content, f.previousHash);
    }
  }

  /** What publishing a head hash buys: it pins every field of every event behind it. */
  lemma HeadPinsHistory(sha: string -> string, a: seq<Event>, b: seq<Event>)
    requires IsChain(EventDigest(sha), a) && IsChain(EventDigest(sha), b) && Tail(a) == Tail(b)
    requires ProperDigests(EventDigest(sha), a) && ProperDigests(EventDigest(sha), b)
    requires CollisionFree(sha, PreImages(a + b))
    ensures |a| == |b| && forall i :: 0 <= i < |a| ==> SameRecord(a[i], b[i])
  {
    CollisionFreeBinds(sha, a + b);
    HeadCommitsToHistory(EventDigest(sha), a, b);
  }

  // ---------------------------------------------------------------- the head

  /** `ORDER BY timestamp DESC, id DESC` puts `e` before `f`. */
  predicate Newer(e: Event, f: Event) {
    var s, t := e.content.timestamp.Code(), f.content.timestamp.Code();
    s > t || (s == t && Less(f.id, e.id))
  }

  function Newest(rows: seq<Event>): Event
    requires rows != []
  {
    var last := rows[|rows| - 1];
    if |rows| == 1 then last
    else
      var front := Newest(rows[..|rows| - 1]);
      if Newer(last, front) then last else front
  }

  /** `_head_hash`: an empty hash would read as no hash at all. */
  function HeadHash(rows: seq<Event>): string {
    if rows == [] || Newest(rows).hash == "" then GENESIS else Newest(rows).hash
  }

  // -------------------------------------------------- what the lookup finds

  /** One instant before another, field by field; whether a zone was stored does not matter. */
  ghost predicate Earlier(s: DateTime, t: DateTime) {
    || s.year < t.year
    || (s.year == t.year && s.month < t.month)
    || (s.year == t.year && s.month == t.month && s.day < t.day)
    || (s.year == t.year && s.month == t.month && s.day == t.day && s.hour < t.hour)
    || (s.year == t.year && s.month == t.month && s.day == t.day && s.hour == t.hour && s.minute < t.minute)
    || (s.year == t.year && s.month == t.month && s.day == t.day && s.hour == t.hour && s.minute == t.minute
        && s.second < t.second)
    || (s.year == t.year && s.month == t.month && s.day == t.day && s.hour == t.hour && s.minute == t.minute
        && s.second == t.second && s.micro < t.micro)
  }

  /** `e` is of a later instant than `f`, or of the same one with a greater id. */
  ghost predicate SortsAfter(e: Event, f: Event) {
    var s, t := e.content.timestamp, f.content.timestamp;
    Earlier(t, s) || (!Earlier(s, t) && Less(f.id, e.id))
  }

  lemma EarlierIffCode(s: DateTime, t: DateTime)
    ensures Earlier(s, t) <==> s.Code() < t.Code()
  {
  }

  lemma NewerIff(e: Event, f: Event)
    ensures Newer(e, f) <==> SortsAfter(e, f)
  {
    EarlierIffCode(e.content.timestamp, f.content.timestamp);
    EarlierIffCode(f.content.timestamp, e.content.timestamp);
  }

  /** Past one that nothing in between sorts after. */
  lemma SortsPast(e: Event, n: Event, f: Event)
    requires SortsAfter(e, n) && !SortsAfter(f, n)
    ensures SortsAfter(e, f)
  {
    NewerIff(e, n);
    NewerIff(f, n);
    NewerIff(e, f);
    LessTotal(n.id, f.id);
    if Less(f.id, n.id) && Less(n.id, e.id) {
      LessTransitive(f.id, n.id, e.id);
    }
  }

  lemma NotAfterItself(e: Event)
    ensures !SortsAfter(e, e)
  {
    if Less(e.id, e.id) {
      LessAsymmetric(e.id, e.id);
    }
  }

  /** The newest row is one of the rows, and none sorts after it. */
  lemma {:induction false} NewestIs(rows: seq<Event>)
    requires rows != []
    ensures Newest(rows) in rows && forall f :: f in rows ==> !SortsAfter(f, Newest(rows))
  {
    var last := rows[|rows| - 1];
    NotAfterItself(last);
    if |rows| > 1 {
      var front := rows[..|rows| - 1];
      NewestIs(front);
      assert rows == front + [last];
      NewerIff(last, Newest(front));
      forall f | f in rows ensures !SortsAfter(f, Newest(rows)) {
        if f in front && SortsAfter(last, Newest(front)) {
          SortsPast(last, Newest(front), f);
          NotBoth(last, f);
        }
      }
    }
  }

  lemma NotBoth(e: Event, f: Event)
    requires SortsAfter(e, f)
    ensures !SortsAfter(f, e)
  {
    if Less(f.id, e.id) {
      LessAsymmetric(f.id, e.id);
    }
  }

  /** `e` sorts after every other row. */
  ghost predicate Latest(rows: seq<Event>, e: Event) {
    e in rows && forall f :: f in rows && f != e ==> SortsAfter(e, f)
  }

  /** The head lookup finds the latest row, wherever in the table it is. */
  lemma HeadIsLatest(rows: seq<Event>, e: Event)
    requires Latest(rows, e)
    ensures HeadHash(rows) == if e.hash == "" then GENESIS else e.hash
  {
    NewestIs(rows);
    assert Newest(rows) == e;
  }

  // --------------------------------------------------------------- appending

  /** The constraints of `audit_events` on a new row: attribution, unique hash, unique key. */
  ghost predicate Admissible(rows: seq<Event>, e: Event) {
    && (e.content.actorId.Some? || e.content.courtGrantId.Some? || e.content.action == "LOGIN_FAILED")
    && forall f :: f in rows ==> f.hash != e.hash && f.id != e.id
  }

  /** The row `record_event` builds on top of `rows`. */
  function NewEvent(h: Digest, rows: seq<Event>, id: string, c: Content): Event {
    Event(id, c, HeadHash(rows), h(c, HeadHash(rows)))
  }

  /** The hash of the latest row, or the sentinel in an empty log. */
  ghost predicate BuildsOn(rows: seq<Event>, previous: string) {
    && (rows == [] ==> previous == GENESIS)
    && (forall e :: Latest(rows, e) && e.hash != "" ==> previous == e.hash)
  }

  lemma BuildsOnHead(rows: seq<Event>)
    ensures BuildsOn(rows, HeadHash(rows))
  {
    forall e | Latest(rows, e) && e.hash != "" ensures HeadHash(rows) == e.hash {
      HeadIsLatest(rows, e);
    }
  }

  datatype InsertError = IntegrityError

  class AuditTable {
    const h: Digest
    var rows: seq<Event>

    constructor (h: Digest)
      ensures this.h == h && rows == []
    {
      this.h := h;
      rows := [];
    }

    /** Appends one event to the table, or fails without a trace. */
    method RecordEvent(c: Content, id: string) returns (r: Result<Event, InsertError>)
      modifies this
      ensures var e := NewEvent(h, old(rows), id, c);
              if Admissible(old(rows), e) then r == Ok(e) && rows == old(rows) + [e]
              else r == Err(IntegrityError) && rows == old(rows)
      ensures r.Ok? ==> && r.value.id == id && r.value.content == c && r.value.hash == h(c, r.value.previousHash)
                        && rows == old(rows) + [r.value] && BuildsOn(old(rows), r.value.previousHash)
                        && (c.actorId.Some? || c.courtGrantId.Some? || c.action == "LOGIN_FAILED")
      ensures r.Err? <==> || (c.actorId.None? && c.courtGrantId.None? && c.action != "LOGIN_FAILED")
                          || exists f :: f in old(rows) && (f.id == id || f.hash == h(c, HeadHash(old(rows))))
    {
      BuildsOnHead(rows);
      var previous := HeadHash(rows);
      var e := Event(id, c, previous, h(c, previous));
      if c.actorId.None? && c.courtGrantId.None? && c.action != "LOGIN_FAILED" {
        return Err(IntegrityError);
      }
      for i := 0 to |rows|
        invariant forall k :: 0 <= k < i ==> rows[k].hash != e.hash && rows[k].id != e.id
      {
        if rows[i].hash == e.hash || rows[i].id == e.id {
          assert rows[i] in rows;
          return Err(IntegrityError);
        }
      }
      rows := rows + [e];
      r := Ok(e);
    }

    /** Reports what is there: see `Says`; the head reported is the last row's hash of any linear history. */
    method VerifyChain() returns (r: Report)
      requires UniqueHashes(rows) && ProperDigests(h, rows)
      ensures Explains(h, rows, r)
      ensures r.intact <==> Intact(h, rows)
      ensures exists path: seq<Event> :: Says(h, rows, path, r)
      ensures forall order: seq<Event> :: order != [] && IsLinear(h, rows, order) ==> r.headHash == Some(order[|order| - 1].hash)
    {
      r := WalkChain();
      IntactIffReported(h, rows, r);
      var path := ReportSays(h, rows, r);
      forall order: seq<Event> | order != [] && IsLinear(h, rows, order) ensures r.headHash == Some(order[|order| - 1].hash) {
        HeadIsReported(h, rows, order, r);
      }
    }

    /**
     * Walks the pointers from genesis through a dictionary of successors. Termination rests on the unique
     * index and on no digest being the sentinel.
     */
    method WalkChain() returns (r: Report)
      requires UniqueHashes(rows) && ProperDigests(h, rows)
      ensures Explains(h, rows, r)
    {
      if rows == [] {
        r := Report(true, 0, None, None, None, EmptyLog);
        EmptyIsExplained(h);
        return;
      }
      var byPrevious := GroupByPrevious(rows);
      var cursor, index := GENESIS, 0;
      ghost var path := [];
      while cursor in byPrevious
        invariant WalkPath(h, rows, path) && cursor == Tail(path) && index == |path| <= |rows|
        decreases |rows| - index
      {
        var successors := byPrevious[cursor];
        if |successors| > 1 {
          r := Broken(|rows|, index, Some(successors[0].id), Forked(|successors|));
          assert Explains(h, rows, r);
          return;
        }
        var event := successors[0];
        if h(event.content, event.previousHash) != event.hash {
          r := Broken(|rows|, index, Some(event.id), Altered);
          assert Stops(h, rows, path) && r == Conclusion(rows, path);
          return;
        }
        ExtendWalk(h, rows, path, event);
        path := path + [event];
        PathFits(h, rows, path);
        cursor := event.hash;
        index := index + 1;
      }
      if index != |rows| {
        r := Broken(|rows|, index, None, Missing(|rows| - index));
      } else {
        r := Report(true, |rows|, Some(cursor), None, None, Verified);
      }
      assert Stops(h, rows, path) && r == Conclusion(rows, path);
    }
  }

  /** The dictionary `by_previous`: every claimed predecessor with the rows that claim it, in row order. */
  method GroupByPrevious(rows: seq<Event>) returns (m: map<string, seq<Event>>)
    ensures forall cursor :: cursor in m <==> Successors(rows, cursor) != []
    ensures forall cursor :: cursor in m ==> m[cursor] == Successors(rows, cursor)
  {
    m := map[];
    for i := 0 to |rows|
      invariant forall cursor :: cursor in m <==> Successors(rows[..i], cursor) != []
      invariant forall cursor :: cursor in m ==> m[cursor] == Successors(rows[..i], cursor)
    {
      var e := rows[i];
      assert rows[..i + 1][..i] == rows[..i];
      m := m[e.previousHash := (if e.previousHash in m then m[e.previousHash] else []) + [e]];
    }
    assert rows[..|rows|] == rows;
  }

  lemma EmptyIsExplained(h: Digest)
    ensures Explains(h, [], Report(true, 0, None, None, None, EmptyLog))
  {
    assert WalkPath(h, [], []) && Stops(h, [], []);
  }

  lemma ExtendWalk(h: Digest, rows: seq<Event>, path: seq<Event>, e: Event)
    requires WalkPath(h, rows, path) && Successors(rows, Tail(path)) == [e] && Recomputes(h, e)
    ensures WalkPath(h, rows, path + [e])
  {
    SuccessorsAre(rows, Tail(path));
    assert e in [e];
    ChainStep(h, path, e);
    forall i | 0 <= i < |path| + 1 ensures NoRival(rows, (path + [e])[i]) {
      if i < |path| {
        assert NoRival(rows, path[i]);
      }
    }
  }
}
