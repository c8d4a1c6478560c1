/**
 * The hash chain over audit events and what its checker finds. `h` digests an event's content and link;
 * nothing about it is assumed except where a lemma names the finitely many events it must keep apart.
 */
module AuditChain {
  import opened Basics
  import opened AuditEvents

  type Digest = (Content, string) -> string

  /** The digest `compute_event_hash` takes of a row's own columns. */
  ghost function Hash(h: Digest, e: Event): string { h(e.content, e.previousHash) }

  ghost predicate Recomputes(h: Digest, e: Event) { Hash(h, e) == e.hash }

  /** The hash the event at position `i` must name: its predecessor's, or the sentinel. */
  function Link(order: seq<Event>, i: nat): string
    requires i <= |order|
  {
    if i == 0 then GENESIS else order[i - 1].hash
  }

  function Tail(path: seq<Event>): string { Link(path, |path|) }

  ghost predicate Linked(h: Digest, order: seq<Event>, i: nat)
    requires i < |order|
  {
    Recomputes(h, order[i]) && order[i].previousHash == Link(order, i)
  }

  /** One linear history: every row recomputes and points at the row before it, the first at genesis. */
  ghost predicate IsChain(h: Digest, order: seq<Event>) {
    forall i: nat :: i < |order| ==> Linked(h, order, i)
  }

  /** What the log promises of its rows, whatever order they are read in. */
  ghost predicate Intact(h: Digest, rows: seq<Event>) {
    exists order :: multiset(order) == multiset(rows) && IsChain(h, order)
  }

  /** `UNIQUE(event_hash)`. */
  ghost predicate UniqueHashes(rows: seq<Event>) {
    forall i, j :: 0 <= i < j < |rows| ==> rows[i].hash != rows[j].hash
  }

  /** No row's digest comes out as the sentinel (or empty, which the head lookup also reads as absent). */
  ghost predicate ProperDigests(h: Digest, rows: seq<Event>) {
    forall e :: e in rows ==> Hash(h, e) != GENESIS && Hash(h, e) != ""
  }

  // ------------------------------------------------------------- the checker

  datatype Finding = EmptyLog | Verified | Forked(claims: nat) | Altered | Missing(unreached: nat)

  datatype Report = Report(
    intact: bool,
    eventsChecked: nat,
    headHash: Option<string>,
    brokenAt: Option<nat>,
    brokenEvent: Option<string>,
    finding: Finding)

  function Broken(total: nat, index: nat, event: Option<string>, finding: Finding): Report {
    Report(false, total, None, Some(index), event, finding)
  }

  /** The rows claiming `cursor` as their predecessor, in row order. */
  function Successors(rows: seq<Event>, cursor: string): seq<Event> {
    if rows == [] then []
    else
      var last := rows[|rows| - 1];
      Successors(rows[..|rows| - 1], cursor) + if last.previousHash == cursor then [last] else []
  }

  /** The rows a walk along the pointers passes: a chain in which each row had no rival. */
  ghost predicate WalkPath(h: Digest, rows: seq<Event>, path: seq<Event>) {
    && IsChain(h, path)
    && forall i :: 0 <= i < |path| ==> NoRival(rows, path[i])
  }

  ghost predicate NoRival(rows: seq<Event>, e: Event) { Successors(rows, e.previousHash) == [e] }

  /** The walk cannot go on: nobody follows, several do, or the one that does was altered. */
  ghost predicate Stops(h: Digest, rows: seq<Event>, path: seq<Event>) {
    var next := Successors(rows, Tail(path));
    |next| == 1 ==> !Recomputes(h, next[0])
  }

  function Conclusion(rows: seq<Event>, path: seq<Event>): Report {
    var next := Successors(rows, Tail(path));
    if rows == [] then Report(true, 0, None, None, None, EmptyLog)
    else if |next| > 1 then Broken(|rows|, |path|, Some(next[0].id), Forked(|next|))
    else if |next| == 1 then Broken(|rows|, |path|, Some(next[0].id), Altered)
    else if |path| < |rows| then Broken(|rows|, |path|, None, Missing(|rows| - |path|))
    else Report(true, |rows|, Some(Tail(path)), None, None, Verified)
  }

  /** The report follows the pointers as far as they go and says what it found there. */
  ghost predicate Explains(h: Digest, rows: seq<Event>, r: Report) {
    exists path :: WalkPath(h, rows, path) && Stops(h, rows, path) && r == Conclusion(rows, path)
  }

  // -------------------------------------------------------- facts about walks

  lemma {:induction false} SuccessorsAre(rows: seq<Event>, cursor: string)
    ensures forall e :: e in Successors(rows, cursor) <==> e in rows && e.previousHash == cursor
    ensures Distinct(rows) ==> Distinct(Successors(rows, cursor))
  {
    if rows != [] {
      var front, last := rows[..|rows| - 1], rows[|rows| - 1];
      assert rows == front + [last];
      SuccessorsAre(front, cursor);
    }
  }

  lemma ChainStep(h: Digest, path: seq<Event>, e: Event)
    requires IsChain(h, path)
    ensures IsChain(h, path + [e]) <==> Recomputes(h, e) && e.previousHash == Tail(path)
  {
    forall i: nat | i < |path| ensures Linked(h, path + [e], i) {
      assert Linked(h, path, i);
    }
    assert Linked(h, path + [e], |path|) <==> Recomputes(h, e) && e.previousHash == Tail(path);
  }

  lemma ChainPrefix(h: Digest, order: seq<Event>, k: nat)
    requires IsChain(h, order) && k <= |order|
    ensures IsChain(h, order[..k])
  {
    forall i: nat | i < k ensures Linked(h, order[..k], i) {
      assert Linked(h, order, i);
    }
  }

  /** In a chain a hash is never the sentinel, so a row that names the sentinel is the first. */
  lemma ChainHash(h: Digest, order: seq<Event>, i: nat)
    requires IsChain(h, order) && ProperDigests(h, order) && i < |order|
    ensures order[i].hash != GENESIS && order[i].hash != ""
    ensures order[i].hash == Hash(h, order[i]) && order[i].previousHash == Link(order, i)
  {
    assert Linked(h, order, i);
    assert order[i] in order;
  }

  /** Two rows of a chain naming one predecessor, when that predecessor's hash is unique. */
  lemma SameLink(h: Digest, order: seq<Event>, i: nat, j: nat)
    requires IsChain(h, order) && ProperDigests(h, order) && UniqueHashes(order)
    requires i <= |order| && j <= |order| && Link(order, i) == Link(order, j)
    ensures i == j
  {
    if i > 0 { ChainHash(h, order, i - 1); }
    if j > 0 { ChainHash(h, order, j - 1); }
  }

  lemma SameRow(rows: seq<Event>, x: Event, y: Event)
    requires UniqueHashes(rows) && x in rows && y in rows && x.hash == y.hash
    ensures x == y
  {
  }

  /** The termination argument: with unique hashes a walk never meets a row twice. */
  lemma {:induction false} NoReturn(h: Digest, rows: seq<Event>, path: seq<Event>, i: nat, j: nat)
    requires UniqueHashes(rows) && ProperDigests(h, path) && IsChain(h, path)
    requires forall e :: e in path ==> e in rows
    requires i < j < |path|
    ensures path[i] != path[j]
  {
    ChainHash(h, path, i);
    ChainHash(h, path, j);
    ChainHash(h, path, j - 1);
    if path[i] == path[j] && i > 0 {
      SameRow(rows, path[i - 1], path[j - 1]);
      NoReturn(h, rows, path, i - 1, j - 1);
    }
  }

  lemma PathFits(h: Digest, rows: seq<Event>, path: seq<Event>)
    requires UniqueHashes(rows) && ProperDigests(h, rows) && WalkPath(h, rows, path)
    ensures Distinct(path) && |path| <= |rows|
    ensures forall e :: e in path ==> e in rows
  {
    forall i | 0 <= i < |path| ensures path[i] in rows {
      assert NoRival(rows, path[i]);
      SuccessorsAre(rows, path[i].previousHash);
      assert path[i] in Successors(rows, path[i].previousHash);
    }
    forall i: nat, j: nat | i < j < |path| ensures path[i] != path[j] {
      NoReturn(h, rows, path, i, j);
    }
    DistinctFits(path, rows);
  }

  lemma SameMembers(s: seq<Event>, t: seq<Event>)
    requires multiset(s) == multiset(t)
    ensures |s| == |t| && forall e :: e in s <==> e in t
    ensures UniqueHashes(t) ==> UniqueHashes(s)
  {
    assert |s| == |multiset(s)| && |t| == |multiset(t)|;
    forall e ensures e in s <==> e in t {
      assert e in s <==> e in multiset(s);
      assert e in t <==> e in multiset(t);
    }
    if UniqueHashes(t) {
      forall i, j | 0 <= i < j < |s| ensures s[i].hash != s[j].hash {
        if s[i].hash == s[j].hash {
          assert s[i] in t && s[j] in t;
          assert s[i] == s[j];
          TwoOccurrences(s, i, j);
          OneOccurrence(t, s[i]);
        }
      }
    }
  }

  lemma TwoOccurrences(s: seq<Event>, i: nat, j: nat)
    requires i < j < |s| && s[i] == s[j]
    ensures multiset(s)[s[i]] >= 2
  {
    assert s == s[..j] + s[j..];
    assert s[..j][i] in multiset(s[..j]) && s[j..][0] in multiset(s[j..]);
  }

  lemma {:induction false} OneOccurrence(t: seq<Event>, e: Event)
    requires UniqueHashes(t)
    ensures multiset(t)[e] <= 1
  {
    assert Distinct(t);
    MultisetOfDistinct(t);
  }

  lemma Singleton(s: seq<Event>, e: Event)
    requires Distinct(s) && e in s && forall x :: x in s ==> x == e
    ensures s == [e]
  {
    DistinctCardinality(s);
    Contained(Elements(s), {e});
  }

  /** In an intact log the row after the first `k` of the chain is the only one that claims their tail. */
  lemma SoleSuccessor(h: Digest, rows: seq<Event>, order: seq<Event>, k: nat)
    requires UniqueHashes(rows) && ProperDigests(h, rows)
    requires multiset(order) == multiset(rows) && IsChain(h, order) && k <= |order|
    ensures Successors(rows, Link(order, k)) == if k < |order| then [order[k]] else []
  {
    SameMembers(order, rows);
    var next := Successors(rows, Link(order, k));
    SuccessorsAre(rows, Link(order, k));
    assert next != [] ==> next[0] in next;
    forall e | e in next ensures k < |order| && e == order[k] {
      var m: nat :| m < |order| && order[m] == e;
      ChainHash(h, order, m);
      SameLink(h, order, m, k);
    }
    if k < |order| {
      ChainHash(h, order, k);
      assert order[k] in next;
      Singleton(next, order[k]);
    }
  }

  lemma FollowsOneStep(h: Digest, rows: seq<Event>, order: seq<Event>, path: seq<Event>, k: nat)
    requires UniqueHashes(rows) && ProperDigests(h, rows)
    requires multiset(order) == multiset(rows) && IsChain(h, order) && WalkPath(h, rows, path)
    requires k < |path| && k <= |order| && path[..k] == order[..k]
    ensures k < |order| && path[k] == order[k]
  {
    assert k > 0 ==> path[k - 1] == path[..k][k - 1] && order[k - 1] == order[..k][k - 1];
    assert Link(path, k) == Link(order, k);
    SoleSuccessor(h, rows, order, k);
    assert Linked(h, path, k) && NoRival(rows, path[k]);
    assert [path[k]][0] == path[k];
  }

  lemma {:induction false} FollowsOrder(h: Digest, rows: seq<Event>, order: seq<Event>, path: seq<Event>)
    requires UniqueHashes(rows) && ProperDigests(h, rows)
    requires multiset(order) == multiset(rows) && IsChain(h, order) && WalkPath(h, rows, path)
    ensures path <= order
    decreases |path|
  {
    if path != [] {
      var k := |path| - 1;
      ShorterWalk(h, rows, path, k);
      FollowsOrder(h, rows, order, path[..k]);
      FollowsOneStep(h, rows, order, path, k);
      assert path == path[..k] + [path[k]];
    }
  }

  lemma ShorterWalk(h: Digest, rows: seq<Event>, path: seq<Event>, k: nat)
    requires WalkPath(h, rows, path) && k <= |path|
    ensures WalkPath(h, rows, path[..k])
  {
    ChainPrefix(h, path, k);
  }

  lemma {:induction false} SharedWalk(h: Digest, rows: seq<Event>, p: seq<Event>, q: seq<Event>, k: nat)
    requires WalkPath(h, rows, p) && WalkPath(h, rows, q) && k <= |p| && k <= |q|
    ensures p[..k] == q[..k]
  {
    if k > 0 {
      SharedWalk(h, rows, p, q, k - 1);
      assert Linked(h, p, k - 1) && Linked(h, q, k - 1);
      assert NoRival(rows, p[k - 1]) && NoRival(rows, q[k - 1]);
      assert k > 1 ==> p[k - 2] == p[..k - 1][k - 2] && q[k - 2] == q[..k - 1][k - 2];
      assert [p[k - 1]][0] == [q[k - 1]][0];
      assert p[..k] == p[..k - 1] + [p[k - 1]] && q[..k] == q[..k - 1] + [q[k - 1]];
    }
  }

  lemma WalkGoesOn(h: Digest, rows: seq<Event>, q: seq<Event>, k: nat)
    requires WalkPath(h, rows, q) && k < |q|
    ensures !Stops(h, rows, q[..k])
  {
    assert Linked(h, q, k) && NoRival(rows, q[k]);
    assert Tail(q[..k]) == Link(q, k);
    assert [q[k]][0] == q[k];
  }

  lemma StopsAtEnd(h: Digest, rows: seq<Event>, p: seq<Event>, q: seq<Event>)
    requires WalkPath(h, rows, p) && Stops(h, rows, p) && WalkPath(h, rows, q)
    ensures |q| <= |p|
  {
    if |p| < |q| {
      SharedWalk(h, rows, p, q, |p|);
      assert p[..|p|] == p;
      WalkGoesOn(h, rows, q, |p|);
    }
  }

  /** Two walks of one log agree, so a log has one report. */
  lemma ReportUnique(h: Digest, rows: seq<Event>, r: Report, s: Report)
    requires Explains(h, rows, r) && Explains(h, rows, s)
    ensures r == s
  {
    var p :| WalkPath(h, rows, p) && Stops(h, rows, p) && r == Conclusion(rows, p);
    var q :| WalkPath(h, rows, q) && Stops(h, rows, q) && s == Conclusion(rows, q);
    StopsAtEnd(h, rows, p, q);
    StopsAtEnd(h, rows, q, p);
    SharedWalk(h, rows, p, q, |p|);
    assert p[..|p|] == p && q[..|p|] == q;
  }

  lemma ReportedIntact(h: Digest, rows: seq<Event>, path: seq<Event>)
    requires UniqueHashes(rows) && ProperDigests(h, rows) && WalkPath(h, rows, path)
    requires Conclusion(rows, path).intact
    ensures Intact(h, rows)
  {
    PathFits(h, rows, path);
    assert Distinct(rows);
    DistinctFills(path, rows);
  }

  lemma IntactReported(h: Digest, rows: seq<Event>, path: seq<Event>)
    requires UniqueHashes(rows) && ProperDigests(h, rows) && WalkPath(h, rows, path) && Stops(h, rows, path)
    requires Intact(h, rows)
    ensures Conclusion(rows, path).intact
  {
    var order :| multiset(order) == multiset(rows) && IsChain(h, order);
    SameMembers(order, rows);
    FollowsOrder(h, rows, order, path);
    assert Tail(path) == Link(order, |path|);
    SoleSuccessor(h, rows, order, |path|);
    assert |path| < |order| ==> Linked(h, order, |path|);
  }

  /** Sound and complete: the report says intact exactly when the rows are one linear history. */
  lemma IntactIffReported(h: Digest, rows: seq<Event>, r: Report)
    requires UniqueHashes(rows) && ProperDigests(h, rows) && Explains(h, rows, r)
    ensures r.intact <==> Intact(h, rows)
  {
    var path :| WalkPath(h, rows, path) && Stops(h, rows, path) && r == Conclusion(rows, path);
    if r.intact {
      ReportedIntact(h, rows, path);
    } else if Intact(h, rows) {
      IntactReported(h, rows, path);
    }
  }

  // ------------------------------------------------- what a report says of rows

  /** The places in the table whose rows claim this predecessor. */
  ghost function Claimants(rows: seq<Event>, cursor: string): set<nat> {
    set i: nat | i < |rows| && rows[i].previousHash == cursor
  }

  ghost predicate FirstClaimant(rows: seq<Event>, cursor: string, i: nat) {
    i < |rows| && rows[i].previousHash == cursor && forall j :: 0 <= j < i ==> rows[j].previousHash != cursor
  }

  lemma ClaimantsOfFront(rows: seq<Event>, cursor: string)
    requires rows != []
    ensures var n := |rows| - 1;
            Claimants(rows, cursor) == Claimants(rows[..n], cursor) + if rows[n].previousHash == cursor then {n} else {}
    ensures |rows| - 1 !in Claimants(rows[..|rows| - 1], cursor)
  {
  }

  /** There are as many successors as claimants. */
  lemma {:induction false} SuccessorsCount(rows: seq<Event>, cursor: string)
    ensures |Successors(rows, cursor)| == |Claimants(rows, cursor)|
  {
    if rows != [] {
      SuccessorsCount(rows[..|rows| - 1], cursor);
      ClaimantsOfFront(rows, cursor);
    }
  }

  /** The first successor is the first claimant in the table. */
  lemma {:induction false} FirstSuccessor(rows: seq<Event>, cursor: string) returns (i: nat)
    requires Successors(rows, cursor) != []
    ensures FirstClaimant(rows, cursor, i) && Successors(rows, cursor)[0] == rows[i]
  {
    var n := |rows| - 1;
    var front := rows[..n];
    if Successors(front, cursor) != [] {
      i := FirstSuccessor(front, cursor);
    } else {
      SuccessorsAre(front, cursor);
      assert forall j :: 0 <= j < n ==> front[j] in front;
      i := n;
    }
  }

  /** Each row of the path is in the table and the only one there to claim its predecessor. */
  ghost predicate Undisputed(rows: seq<Event>, path: seq<Event>) {
    forall i :: 0 <= i < |path| ==> path[i] in rows && |Claimants(rows, path[i].previousHash)| == 1
  }

  /** What the report finds at the end of the path. */
  ghost predicate Finds(h: Digest, rows: seq<Event>, path: seq<Event>, r: Report) {
    var claims := Claimants(rows, Tail(path));
    match r.finding
    case EmptyLog => rows == [] && r.intact && r.headHash == None
    case Verified => r.intact && |path| == |rows| > 0 && r.headHash == Some(path[|path| - 1].hash)
    case Forked(n) =>
      !r.intact && n == |claims| >= 2 && exists i: nat :: FirstClaimant(rows, Tail(path), i) && r.brokenEvent == Some(rows[i].id)
    case Altered =>
      && !r.intact && |claims| == 1
      && exists i: nat :: FirstClaimant(rows, Tail(path), i) && r.brokenEvent == Some(rows[i].id) && !Recomputes(h, rows[i])
    case Missing(n) => !r.intact && claims == {} && n == |rows| - |path| > 0 && r.brokenEvent == None
  }

  /** The report holds of the rows, `path` being the part of the log that is beyond dispute. */
  ghost predicate Says(h: Digest, rows: seq<Event>, path: seq<Event>, r: Report) {
    && IsChain(h, path) && Undisputed(rows, path) && Finds(h, rows, path, r)
    && r.eventsChecked == |rows|
    && (!r.intact ==> r.headHash == None && r.brokenAt == Some(|path|))
    && (r.intact ==> r.brokenAt == None && r.brokenEvent == None)
  }

  lemma WalkIsUndisputed(h: Digest, rows: seq<Event>, path: seq<Event>)
    requires WalkPath(h, rows, path)
    ensures Undisputed(rows, path)
  {
    forall i | 0 <= i < |path| ensures path[i] in rows && |Claimants(rows, path[i].previousHash)| == 1 {
      assert NoRival(rows, path[i]);
      SuccessorsCount(rows, path[i].previousHash);
      SuccessorsAre(rows, path[i].previousHash);
      assert path[i] in [path[i]];
    }
  }

  lemma ConclusionFinds(h: Digest, rows: seq<Event>, path: seq<Event>)
    requires WalkPath(h, rows, path) && Stops(h, rows, path) && |path| <= |rows|
    ensures Finds(h, rows, path, Conclusion(rows, path))
  {
    SuccessorsCount(rows, Tail(path));
    if Successors(rows, Tail(path)) != [] {
      var i := FirstSuccessor(rows, Tail(path));
    }
    assert |Claimants(rows, Tail(path))| == 0 ==> Claimants(rows, Tail(path)) == {};
  }

  /** Index, event, count and head of a report are what the rows themselves show. */
  lemma ReportSays(h: Digest, rows: seq<Event>, r: Report) returns (path: seq<Event>)
    requires UniqueHashes(rows) && ProperDigests(h, rows) && Explains(h, rows, r)
    ensures Says(h, rows, path, r)
  {
    path :| WalkPath(h, rows, path) && Stops(h, rows, path) && r == Conclusion(rows, path);
    WalkIsUndisputed(h, rows, path);
    PathFits(h, rows, path);
    ConclusionFinds(h, rows, path);
  }

  /** The rows in the order of a linear history. */
  ghost predicate IsLinear(h: Digest, rows: seq<Event>, order: seq<Event>) {
    multiset(order) == multiset(rows) && IsChain(h, order)
  }

  /** The head reported is the last event's hash. */
  lemma HeadIsReported(h: Digest, rows: seq<Event>, order: seq<Event>, r: Report)
    requires UniqueHashes(rows) && ProperDigests(h, rows) && Explains(h, rows, r)
    requires IsLinear(h, rows, order) && order != []
    ensures r.headHash == Some(order[|order| - 1].hash)
  {
    IntactIffReported(h, rows, r);
    assert Intact(h, rows);
    var path :| WalkPath(h, rows, path) && Stops(h, rows, path) && r == Conclusion(rows, path);
    FollowsOrder(h, rows, order, path);
    PathFits(h, rows, path);
    SameMembers(order, rows);
    assert |path| == |order|;
    assert path == order;
  }

  // ------------------------------------------------- what the chain commits to

  /** The digest keeps these events apart: all it has to provide. */
  ghost predicate Binding(h: Digest, rows: seq<Event>) {
    forall e, f {:trigger ToldApart(h, e, f)} :: e in rows && f in rows ==> ToldApart(h, e, f)
  }

  ghost predicate ToldApart(h: Digest, e: Event, f: Event) {
    Hash(h, e) == Hash(h, f) ==> SameContent(e.content, f.content) && e.previousHash == f.previousHash
  }

  lemma {:induction false} SameFromHead(h: Digest, a: seq<Event>, b: seq<Event>, d: nat)
    requires IsChain(h, a) && IsChain(h, b) && Binding(h, a + b) && Tail(a) == Tail(b)
    requires d <= |a| && d <= |b|
    ensures Link(a, |a| - d) == Link(b, |b| - d)
    ensures d > 0 ==> var x, y := a[|a| - d], b[|b| - d]; x.hash == y.hash && SameContent(x.content, y.content)
  {
    if d > 0 {
      SameFromHead(h, a, b, d - 1);
      var i, j := |a| - d, |b| - d;
      assert Linked(h, a, i) && Linked(h, b, j);
      assert a[i] in a + b && b[j] in a + b && ToldApart(h, a[i], b[j]);
    }
  }

  lemma NoLonger(h: Digest, a: seq<Event>, b: seq<Event>)
    requires IsChain(h, a) && IsChain(h, b) && ProperDigests(h, a) && Binding(h, a + b) && Tail(a) == Tail(b)
    ensures |a| <= |b|
  {
    if |a| > |b| {
      SameFromHead(h, a, b, |b|);
      ChainHash(h, a, |a| - |b| - 1);
    }
  }

  /** Two intact histories with one head hash are one history, field by field. */
  lemma HeadCommitsToHistory(h: Digest, a: seq<Event>, b: seq<Event>)
    requires IsChain(h, a) && IsChain(h, b) && ProperDigests(h, a) && ProperDigests(h, b) && Binding(h, a + b)
    requires Tail(a) == Tail(b)
    ensures |a| == |b|
    ensures forall i :: 0 <= i < |a| ==> SameRecord(a[i], b[i])
  {
    NoLonger(h, a, b);
    assert forall e :: e in b + a ==> e in a + b;
    NoLonger(h, b, a);
    forall i | 0 <= i < |a| ensures SameRecord(a[i], b[i]) {
      SameFromHead(h, a, b, |a| - i);
      SameFromHead(h, a, b, |a| - i - 1);
      assert Linked(h, a, i) && Linked(h, b, i);
      assert a[i] in a + b && b[i] in a + b && ToldApart(h, a[i], b[i]);
    }
  }

  /** Everything the hash covers, and the hash and the link themselves. */
  ghost predicate SameRecord(e: Event, f: Event) {
    e.hash == f.hash && e.previousHash == f.previousHash && SameContent(e.content, f.content)
  }

  /** In a chain the digest keeps apart all hashes differ, so the uniqueness constraint never fires on it. */
  lemma {:induction false} ChainHashesDiffer(h: Digest, order: seq<Event>, i: nat, j: nat)
    requires IsChain(h, order) && ProperDigests(h, order) && Binding(h, order)
    requires i < j < |order|
    ensures order[i].hash != order[j].hash
  {
    ChainHash(h, order, i);
    ChainHash(h, order, j);
    ChainHash(h, order, j - 1);
    if order[i].hash == order[j].hash {
      assert order[i] in order && order[j] in order && ToldApart(h, order[i], order[j]);
      if i > 0 {
        ChainHashesDiffer(h, order, i - 1, j - 1);
      }
    }
  }

  // ------------------------------------------------------ tampering, detected

  /** The rows of `order` at the indices in `keep`. */
  function Select(order: seq<Event>, keep: set<nat>): seq<Event> {
    if order == [] then []
    else
      var n := |order| - 1;
      Select(order[..n], keep) + if n in keep then [order[n]] else []
  }

  /** Exactly the first `m` rows are kept. */
  ghost predicate KeepsFirst(order: seq<Event>, keep: set<nat>, m: nat) {
    forall i: nat :: i < |order| ==> (i in keep <==> i < m)
  }

  lemma {:induction false} Selected(order: seq<Event>, keep: set<nat>)
    ensures forall e :: e in Select(order, keep) <==> exists i: nat :: i < |order| && i in keep && order[i] == e
    ensures |Select(order, keep)| <= |order|
  {
    if order != [] {
      var n := |order| - 1;
      Selected(order[..n], keep);
      forall e ensures e in Select(order, keep) <==> exists i: nat :: i < |order| && i in keep && order[i] == e {
        if e in Select(order[..n], keep) {
          var i: nat :| i < n && i in keep && order[..n][i] == e;
          assert order[i] == e;
        }
        if exists i: nat :: i < |order| && i in keep && order[i] == e {
          var i: nat :| i < |order| && i in keep && order[i] == e;
          if i < n { assert order[..n][i] == e; }
        }
      }
    }
  }

  lemma {:induction false} SelectPrefix(order: seq<Event>, keep: set<nat>, m: nat)
    requires m <= |order| && KeepsFirst(order, keep, m)
    ensures Select(order, keep) == order[..m]
  {
    if order != [] {
      var n := |order| - 1;
      SelectPrefix(order[..n], keep, if m <= n then m else n);
      if m <= n {
        assert order[..n][..m] == order[..m];
      } else {
        assert order[..n][..n] + [order[n]] == order;
      }
    }
  }

  /** A chain that reuses rows of a chain starts the way that chain starts. */
  lemma {:induction false} SubchainIsPrefix(h: Digest, order: seq<Event>, sub: seq<Event>)
    requires IsChain(h, order) && ProperDigests(h, order) && UniqueHashes(order) && IsChain(h, sub)
    requires forall e :: e in sub ==> e in order
    ensures sub <= order
    decreases |sub|
  {
    if sub != [] {
      var k := |sub| - 1;
      ChainPrefix(h, sub, k);
      SubchainIsPrefix(h, order, sub[..k]);
      assert sub[k] in order;
      var m: nat :| m < |order| && order[m] == sub[k];
      ChainHash(h, order, m);
      assert Linked(h, sub, k);
      assert k > 0 ==> sub[..k][k - 1] == order[k - 1];
      SameLink(h, order, m, k);
      assert sub == sub[..k] + [sub[k]];
    }
  }

  lemma Kept(order: seq<Event>, keep: set<nat>, i: nat)
    requires UniqueHashes(order) && i < |order|
    ensures order[i] in Select(order, keep) <==> i in keep
  {
    Selected(order, keep);
    if order[i] in Select(order, keep) {
      var j: nat :| j < |order| && j in keep && order[j] == order[i];
      assert order[j].hash == order[i].hash;
    }
  }

  lemma InPrefix(order: seq<Event>, sub: seq<Event>, i: nat)
    requires UniqueHashes(order) && sub <= order && i < |order|
    ensures order[i] in sub <==> i < |sub|
  {
    assert i < |sub| ==> sub[i] in sub;
    if order[i] in sub {
      var j :| 0 <= j < |sub| && sub[j] == order[i];
      assert order[j].hash == order[i].hash;
    }
  }

  lemma NoticedUnlessSuffix(h: Digest, order: seq<Event>, keep: set<nat>)
    requires IsChain(h, order) && ProperDigests(h, order) && UniqueHashes(order)
    requires Intact(h, Select(order, keep))
    ensures exists m: nat :: m <= |order| && KeepsFirst(order, keep, m)
  {
    var rows := Select(order, keep);
    Selected(order, keep);
    var sub :| multiset(sub) == multiset(rows) && IsChain(h, sub);
    SameMembers(sub, rows);
    SubchainIsPrefix(h, order, sub);
    var m: nat := |sub|;
    forall i: nat | i < |order| ensures i in keep <==> i < m {
      Kept(order, keep, i);
      InPrefix(order, sub, i);
    }
    assert KeepsFirst(order, keep, m);
  }

  /** Deleting rows goes unnoticed exactly when the deleted rows are the newest ones. */
  lemma DeletionUnnoticedIffSuffix(h: Digest, order: seq<Event>, keep: set<nat>)
    requires IsChain(h, order) && ProperDigests(h, order) && UniqueHashes(order)
    ensures Intact(h, Select(order, keep)) <==> exists m: nat :: m <= |order| && KeepsFirst(order, keep, m)
  {
    if Intact(h, Select(order, keep)) {
      NoticedUnlessSuffix(h, order, keep);
    } else if exists m: nat :: m <= |order| && KeepsFirst(order, keep, m) {
      var m: nat :| m <= |order| && KeepsFirst(order, keep, m);
      SelectPrefix(order, keep, m);
      ChainPrefix(h, order, m);
    }
  }

  /** `rows` is `order` with the content of some rows edited, links and stored hashes untouched. */
  ghost predicate EditedContent(order: seq<Event>, rows: seq<Event>) {
    && |rows| == |order|
    && forall i :: 0 <= i < |order| ==> rows[i].previousHash == order[i].previousHash && rows[i].hash == order[i].hash
  }

  /** `table` is the edited log as it is read: the same rows in any order. */
  lemma EditedSuccessor(h: Digest, order: seq<Event>, rows: seq<Event>, table: seq<Event>, k: nat)
    requires IsChain(h, order) && ProperDigests(h, order) && UniqueHashes(order)
    requires EditedContent(order, rows) && multiset(table) == multiset(rows) && k < |order|
    ensures rows[k].previousHash == Link(rows, k) && NoRival(table, rows[k])
  {
    ChainHash(h, order, k);
    var next := Successors(table, Link(rows, k));
    SuccessorsAre(table, Link(rows, k));
    SameMembers(table, rows);
    forall e | e in next ensures e == rows[k] {
      var m: nat :| m < |rows| && rows[m] == e;
      ChainHash(h, order, m);
      SameLink(h, order, m, k);
    }
    assert UniqueHashes(table) && Distinct(table);
    assert rows[k] in next;
    Singleton(next, rows[k]);
  }

  /**
   * In whatever order the edited table is read, the edit is reported at the first place of the chain whose
   * hashed content really changed, and the row there is named.
   */
  lemma EditReportedWhereItIs(h: Digest, order: seq<Event>, rows: seq<Event>, table: seq<Event>, k: nat, r: Report)
    requires IsChain(h, order) && ProperDigests(h, order) && UniqueHashes(order)
    requires EditedContent(order, rows) && k < |order| && Binding(h, order + rows)
    requires forall i :: 0 <= i < k ==> Hash(h, rows[i]) == Hash(h, order[i])
    requires !SameContent(rows[k].content, order[k].content)
    requires multiset(table) == multiset(rows) && Explains(h, table, r)
    ensures r == Broken(|table|, k, Some(rows[k].id), Altered)
  {
    var path := rows[..k];
    SameMembers(table, rows);
    EditedPrefix(h, order, rows, table, k);
    EditedSuccessor(h, order, rows, table, k);
    ChainHash(h, order, k);
    assert order[k] in order + rows && rows[k] in order + rows && ToldApart(h, rows[k], order[k]);
    assert Tail(path) == Link(rows, k);
    assert !Recomputes(h, rows[k]);
    ReportUnique(h, table, r, Conclusion(table, path));
  }

  lemma EditedPrefix(h: Digest, order: seq<Event>, rows: seq<Event>, table: seq<Event>, k: nat)
    requires IsChain(h, order) && ProperDigests(h, order) && UniqueHashes(order)
    requires EditedContent(order, rows) && multiset(table) == multiset(rows) && k <= |order|
    requires forall i :: 0 <= i < k ==> Hash(h, rows[i]) == Hash(h, order[i])
    ensures WalkPath(h, table, rows[..k])
  {
    forall i: nat | i < k ensures Linked(h, rows[..k], i) && NoRival(table, rows[..k][i]) {
      EditedSuccessor(h, order, rows, table, i);
      ChainHash(h, order, i);
      assert Link(rows[..k], i) == Link(rows, i);
    }
  }
}
