/**
 * Append-only document versions and their stored objects under concurrent uploads. One step is one statement
 * or one storage call of `store_version`; requests interleave freely and may fail anywhere.
 */
module DocumentStore {
  import opened Basics

  type Bytes = seq<bv8>

  /** A row of `document_versions`. */
  datatype Row = Row(document: string, number: nat, key: string, sha256: string, size: nat)

  datatype Phase =
    | Begun
    | Numbered(n: nat)
    | Checked(n: nat)
    | Stored(n: nat, key: string)
    | Inserted(n: nat, key: string)     // flushed, not yet committed
    | Committed(n: nat, key: string)    // committed, the request still running

  datatype Upload = Upload(document: string, bytes: Bytes, phase: Phase)

  /**
   * `orphans` are objects nobody cleaned up; `lost` are objects of committed versions removed by the
   * clean-up of a request that failed after its commit.
   */
  datatype State = State(
    rows: seq<Row>,
    current: map<string, nat>,
    objects: map<string, Bytes>,
    uploads: map<nat, Upload>,
    orphans: set<string>,
    lost: set<string>)

  const START := State([], map[], map[], map[], {}, {})

  /** What becomes of a write to the store: refused, done but reported as failed, or done. */
  datatype Put = Refused | Unconfirmed | Confirmed

  datatype Step =
    | Begin(u: nat, document: string, bytes: Bytes)
    | ReadNumber(u: nat)
    | CheckLatest(u: nat)
    | PutObject(u: nat, key: string, put: Put)
    | InsertRow(u: nat, deleteSucceeds: bool)
    | Commit(u: nat)
    | FailBeforeCommit(u: nat, deleteSucceeds: bool)
    | Finish(u: nat)
    | FailAfterCommit(u: nat, deleteSucceeds: bool)

  /** `SELECT max(version_number)`, zero when the document has no version. */
  function Highest(rows: seq<Row>, document: string): nat {
    if rows == [] then 0
    else
      var n := |rows| - 1;
      var front := Highest(rows[..n], document);
      if rows[n].document == document && rows[n].number > front then rows[n].number else front
  }

  ghost predicate HasVersion(rows: seq<Row>, document: string, n: nat) {
    exists i :: 0 <= i < |rows| && rows[i].document == document && rows[i].number == n
  }

  /** Some committed row of this number carries these bytes' hash. */
  ghost predicate HasHash(rows: seq<Row>, document: string, n: nat, sha256: string) {
    exists i :: 0 <= i < |rows| && rows[i].document == document && rows[i].number == n && rows[i].sha256 == sha256
  }

  function Dropped(s: State, u: nat): State { s.(uploads := s.uploads - {u}) }

  function With(s: State, u: nat, phase: Phase): State
    requires u in s.uploads
  {
    s.(uploads := s.uploads[u := s.uploads[u].(phase := phase)])
  }

  /** Rollback and best-effort `storage.delete`. */
  function CleanedUp(s: State, u: nat, key: string, deleteSucceeds: bool): State {
    if deleteSucceeds then Dropped(s.(objects := s.objects - {key}), u)
    else Dropped(s.(orphans := s.orphans + {key}), u)
  }

  /** A request that fails after its commit, and whose clean-up then removes the committed object. */
  function AfterLoss(s: State, u: nat): State
    requires u in s.uploads && s.uploads[u].phase.Committed?
  {
    var key := s.uploads[u].phase.key;
    Dropped(s.(objects := s.objects - {key}, lost := s.lost + {key}), u)
  }

  /** The store has the object, the request has an exception, and nothing stands ready to clean up. */
  function LeftBehind(s: State, u: nat, key: string): State
    requires u in s.uploads
  {
    Dropped(s.(objects := s.objects[key := s.uploads[u].bytes], orphans := s.orphans + {key}), u)
  }

  function NewRow(sha: Bytes -> string, up: Upload): Row
    requires up.phase.Inserted?
  {
    Row(up.document, up.phase.n, up.phase.key, sha(up.bytes), |up.bytes|)
  }

  /** One step, or `None` where the request has not got that far or must wait for another's transaction. */
  ghost function Do(sha: Bytes -> string, s: State, step: Step): Option<State> {
    if step.Begin? then
      if step.u in s.uploads then None
      else Some(s.(uploads := s.uploads[step.u := Upload(step.document, step.bytes, Begun)]))
    else if step.u !in s.uploads then None
    else
      var u := step.u;
      var up := s.uploads[u];
      match (step, up.phase)
      case (ReadNumber(_), Begun) => Some(With(s, u, Numbered(Highest(s.rows, up.document) + 1)))
      case (CheckLatest(_), Numbered(n)) =>
        if HasHash(s.rows, up.document, Highest(s.rows, up.document), sha(up.bytes)) then Some(Dropped(s, u))
        else Some(With(s, u, Checked(n)))
      case (PutObject(_, key, put), Checked(n)) =>
        if key in s.objects || put == Refused then Some(Dropped(s, u))
        else if put == Unconfirmed then Some(LeftBehind(s, u, key))
        else Some(With(s.(objects := s.objects[key := up.bytes]), u, Stored(n, key)))
      case (InsertRow(_, deleteSucceeds), Stored(n, key)) =>
        if HasVersion(s.rows, up.document, n) then Some(CleanedUp(s, u, key, deleteSucceeds))
        else if exists v :: v in s.uploads && Claims(s.uploads[v], up.document, n) then None
        else Some(With(s, u, Inserted(n, key)))
      case (Commit(_), Inserted(n, key)) =>
        Some(With(s.(rows := s.rows + [NewRow(sha, up)], current := s.current[up.document := n]), u, Committed(n, key)))
      case (FailBeforeCommit(_, _), Begun) => Some(Dropped(s, u))
      case (FailBeforeCommit(_, _), Numbered(_)) => Some(Dropped(s, u))
      case (FailBeforeCommit(_, _), Checked(_)) => Some(Dropped(s, u))
      case (FailBeforeCommit(_, deleteSucceeds), Stored(_, key)) => Some(CleanedUp(s, u, key, deleteSucceeds))
      case (FailBeforeCommit(_, deleteSucceeds), Inserted(_, key)) => Some(CleanedUp(s, u, key, deleteSucceeds))
      case (Finish(_), Committed(_, _)) => Some(Dropped(s, u))
      case (FailAfterCommit(_, deleteSucceeds), Committed(_, _)) =>
        if deleteSucceeds then Some(AfterLoss(s, u)) else Some(Dropped(s, u))
      case _ => None
  }

  /** An uncommitted insert of the same number: the unique index makes a second one wait. */
  ghost predicate Claims(up: Upload, document: string, n: nat) {
    up.phase.Inserted? && up.document == document && up.phase.n == n
  }

  /** Object keys end in a random UUID; freshness is the one thing assumed of them. */
  ghost predicate FreshKey(s: State, step: Step) {
    step.PutObject? ==>
      && (forall r :: r in s.rows ==> r.key != step.key)
      && (forall v :: v in s.uploads ==> KeyOf(s.uploads[v]) != Some(step.key))
      && step.key !in s.orphans
  }

  /** The key of an object a request has written and not yet committed. */
  function KeyOf(up: Upload): Option<string> {
    match up.phase
    case Stored(_, key) => Some(key)
    case Inserted(_, key) => Some(key)
    case _ => None
  }

  ghost predicate InFlight(s: State, key: string) {
    exists u :: u in s.uploads && KeyOf(s.uploads[u]) == Some(key)
  }

  ghost predicate IsCommitted(rows: seq<Row>, key: string) {
    exists r :: r in rows && r.key == key
  }

  function CurrentIn(current: map<string, nat>, document: string): nat {
    if document in current then current[document] else 0
  }

  function CurrentOf(s: State, document: string): nat { CurrentIn(s.current, document) }

  // --------------------------------------------------------------- invariants

  ghost predicate Successive(a: Row, b: Row) { a.document == b.document && b.number == a.number + 1 }

  /** Version numbers are exactly `1..current_version`, each once, and neighbours differ. */
  ghost predicate VersionsOk(rows: seq<Row>, current: map<string, nat>) {
    && (forall d, n: nat :: HasVersion(rows, d, n) <==> 1 <= n <= CurrentIn(current, d))
    && (forall i, j :: 0 <= i < j < |rows| && rows[i].document == rows[j].document ==> rows[i].number != rows[j].number)
    && (forall i, j :: 0 <= i < |rows| && 0 <= j < |rows| && Successive(rows[i], rows[j]) ==> rows[i].sha256 != rows[j].sha256)
  }

  ghost predicate RowsOk(s: State) { VersionsOk(s.rows, s.current) }

  ghost predicate UploadOk(sha: Bytes -> string, s: State, u: nat)
    requires u in s.uploads
  {
    var up := s.uploads[u];
    var top := CurrentOf(s, up.document);
    match up.phase
    case Begun => true
    case Numbered(n) => 1 <= n <= top + 1
    case Checked(n) => 1 <= n <= top + 1 && NotRepeated(sha, s, up, n)
    case Stored(n, _) => 1 <= n <= top + 1 && NotRepeated(sha, s, up, n)
    case Inserted(n, _) => n == top + 1 && NotRepeated(sha, s, up, n)
    case Committed(n, key) =>
      key !in s.lost && IsCommitted(s.rows, key)
  }

  /** If `n` is still the next number, the version before it has other bytes. */
  ghost predicate NotRepeated(sha: Bytes -> string, s: State, up: Upload, n: nat) {
    n == CurrentOf(s, up.document) + 1 ==> !HasHash(s.rows, up.document, (n - 1) as nat, sha(up.bytes))
  }

  ghost predicate UploadsOk(sha: Bytes -> string, s: State) {
    && (forall u :: u in s.uploads ==> UploadOk(sha, s, u))
    && (forall u, v :: u in s.uploads && v in s.uploads && u != v && s.uploads[u].phase.Inserted? ==>
          !Claims(s.uploads[v], s.uploads[u].document, s.uploads[u].phase.n))
  }

  /** The three kinds of keys do not mix, and no two owners share one. */
  ghost predicate KeysOk(s: State) {
    && (forall i, j :: 0 <= i < j < |s.rows| ==> s.rows[i].key != s.rows[j].key)
    && (forall u, v :: u in s.uploads && v in s.uploads && u != v && KeyOf(s.uploads[u]).Some? ==>
          KeyOf(s.uploads[u]) != KeyOf(s.uploads[v]))
    && (forall k :: InFlight(s, k) ==> !IsCommitted(s.rows, k) && k !in s.orphans)
    && (forall k :: k in s.orphans ==> !IsCommitted(s.rows, k))
    && (forall k :: k in s.lost ==> IsCommitted(s.rows, k))
    && (forall u, v :: u in s.uploads && v in s.uploads && u != v && s.uploads[u].phase.Committed? ==>
          s.uploads[v].phase.Committed? ==> s.uploads[u].phase.key != s.uploads[v].phase.key)
  }

  /** The keys storage should hold: live committed objects, in-flight ones, and abandoned ones. */
  ghost predicate Owned(s: State, key: string) {
    (IsCommitted(s.rows, key) && key !in s.lost) || InFlight(s, key) || key in s.orphans
  }

  /** Storage holds exactly the keys it should, and under each the recorded bytes. */
  ghost predicate ObjectsOk(sha: Bytes -> string, s: State) {
    && (forall k :: k in s.objects <==> Owned(s, k))
    && (forall r :: r in s.rows && r.key in s.objects ==> sha(s.objects[r.key]) == r.sha256 && |s.objects[r.key]| == r.size)
    && (forall u :: u in s.uploads && KeyOf(s.uploads[u]).Some? && KeyOf(s.uploads[u]).value in s.objects ==>
          s.objects[KeyOf(s.uploads[u]).value] == s.uploads[u].bytes)
  }

  ghost predicate Inv(sha: Bytes -> string, s: State) {
    RowsOk(s) && UploadsOk(sha, s) && KeysOk(s) && ObjectsOk(sha, s)
  }

  // ------------------------------------------------------------------- proof

  lemma {:induction false} HighestBounds(rows: seq<Row>, d: string)
    ensures forall i :: 0 <= i < |rows| && rows[i].document == d ==> rows[i].number <= Highest(rows, d)
    ensures Highest(rows, d) > 0 ==> HasVersion(rows, d, Highest(rows, d))
  {
    if rows != [] {
      var n := |rows| - 1;
      HighestBounds(rows[..n], d);
      if Highest(rows[..n], d) > 0 && Highest(rows, d) == Highest(rows[..n], d) {
        var i :| 0 <= i < n && rows[..n][i].document == d && rows[..n][i].number == Highest(rows, d);
        assert rows[i].document == d && rows[i].number == Highest(rows, d);
      }
    }
  }

  /** The document's newest row: none of its rows has a higher number. */
  ghost predicate IsLatest(rows: seq<Row>, d: string, r: Row) {
    r in rows && r.document == d && forall q :: q in rows && q.document == d ==> q.number <= r.number
  }

  /** The newest version of the document has these bytes' hash already. */
  ghost predicate Repeats(rows: seq<Row>, d: string, sha256: string) {
    exists r :: IsLatest(rows, d, r) && r.sha256 == sha256
  }

  lemma LatestIsHighest(rows: seq<Row>, d: string, r: Row)
    ensures IsLatest(rows, d, r) <==> r in rows && r.document == d && r.number == Highest(rows, d)
  {
    HighestBounds(rows, d);
  }

  lemma RepeatsIff(rows: seq<Row>, d: string, sha256: string)
    ensures Repeats(rows, d, sha256) <==> HasHash(rows, d, Highest(rows, d), sha256)
  {
    forall r ensures IsLatest(rows, d, r) <==> r in rows && r.document == d && r.number == Highest(rows, d) {
      LatestIsHighest(rows, d, r);
    }
    if HasHash(rows, d, Highest(rows, d), sha256) {
      var i :| 0 <= i < |rows| && rows[i].document == d && rows[i].number == Highest(rows, d) && rows[i].sha256 == sha256;
      assert IsLatest(rows, d, rows[i]);
    }
  }

  /** The first number above all of the document's. */
  ghost predicate IsNextNumber(rows: seq<Row>, d: string, n: nat) {
    && (forall r :: r in rows && r.document == d ==> r.number < n)
    && (n == 1 || (n > 1 && HasVersion(rows, d, n - 1)))
  }

  lemma NextNumberIs(rows: seq<Row>, d: string, n: nat)
    ensures IsNextNumber(rows, d, n) <==> n == Highest(rows, d) + 1
  {
    HighestBounds(rows, d);
    if n > 1 && HasVersion(rows, d, n - 1) {
      var i :| 0 <= i < |rows| && rows[i].document == d && rows[i].number == n - 1;
      assert rows[i] in rows;
    }
    if Highest(rows, d) > 0 {
      var i :| 0 <= i < |rows| && rows[i].document == d && rows[i].number == Highest(rows, d);
      assert rows[i] in rows;
    }
  }

  /**
   * The numbering step takes the number after the newest version's, and the check refuses bytes exactly when the
   * newest version already has them: uploading A, B and A again stores three versions.
   */
  lemma NumberingAndCheck(sha: Bytes -> string, s: State, u: nat)
    requires u in s.uploads
    ensures var up := s.uploads[u];
            up.phase.Begun? ==>
              exists n :: IsNextNumber(s.rows, up.document, n) && Do(sha, s, ReadNumber(u)) == Some(With(s, u, Numbered(n)))
    ensures var up := s.uploads[u];
            var repeats := Repeats(s.rows, up.document, sha(up.bytes));
            (up.phase.Numbered? && repeats ==> Do(sha, s, CheckLatest(u)) == Some(Dropped(s, u))) &&
            (up.phase.Numbered? && !repeats ==> Do(sha, s, CheckLatest(u)) == Some(With(s, u, Checked(up.phase.n))))
  {
    var up := s.uploads[u];
    NextNumberIs(s.rows, up.document, Highest(s.rows, up.document) + 1);
    RepeatsIff(s.rows, up.document, sha(up.bytes));
  }

  /** No step replaces the bytes under a key, whatever keys the requests draw; writing is only to an unused one. */
  lemma StepNeverOverwrites(sha: Bytes -> string, s: State, step: Step, s': State)
    requires Do(sha, s, step) == Some(s')
    ensures forall k :: k in s.objects && k in s'.objects ==> s'.objects[k] == s.objects[k]
    ensures forall k :: k in s'.objects && k !in s.objects ==>
              && step.PutObject? && step.key == k && step.put != Refused
              && s.uploads[step.u].phase.Checked? && s'.objects[k] == s.uploads[step.u].bytes
  {
    if step.u in s.uploads {
      match (step, s.uploads[step.u].phase)
      case (PutObject(u, key, put), Checked(n)) =>
      case _ =>
    }
  }

  lemma HighestIsCurrent(s: State, d: string)
    requires RowsOk(s)
    ensures Highest(s.rows, d) == CurrentOf(s, d)
  {
    HighestBounds(s.rows, d);
    assert CurrentOf(s, d) > 0 ==> HasVersion(s.rows, d, CurrentOf(s, d));
    assert HasVersion(s.rows, d, Highest(s.rows, d)) <==> 1 <= Highest(s.rows, d) <= CurrentOf(s, d);
  }

  lemma HasVersionAppended(rows: seq<Row>, r: Row, d: string, n: nat)
    ensures HasVersion(rows + [r], d, n) <==> HasVersion(rows, d, n) || (r.document == d && r.number == n)
  {
    var grown := rows + [r];
    assert grown[|rows|] == r;
    if HasVersion(rows, d, n) {
      var i :| 0 <= i < |rows| && rows[i].document == d && rows[i].number == n;
      assert grown[i] == rows[i];
    }
  }

  /** A commit appends the next number, with bytes unlike its predecessor's. */
  lemma CommitKeepsRows(sha: Bytes -> string, s: State, u: nat, s': State)
    requires RowsOk(s) && u in s.uploads && s.uploads[u].phase.Inserted? && UploadOk(sha, s, u)
    requires Do(sha, s, Commit(u)) == Some(s')
    ensures RowsOk(s')
    ensures forall d :: CurrentOf(s', d) == CurrentOf(s, d) + if d == s.uploads[u].document then 1 else 0
  {
    var up := s.uploads[u];
    var r := NewRow(sha, up);
    forall d, n: nat ensures HasVersion(s'.rows, d, n) <==> 1 <= n <= CurrentOf(s', d) {
      HasVersionAppended(s.rows, r, d, n);
      assert HasVersion(s.rows, d, n) <==> 1 <= n <= CurrentOf(s, d);
    }
    forall i | 0 <= i < |s.rows| && s.rows[i].document == up.document
      ensures 1 <= s.rows[i].number < r.number && (s.rows[i].number + 1 == r.number ==> s.rows[i].sha256 != r.sha256)
    {
      assert HasVersion(s.rows, up.document, s.rows[i].number);
    }
  }

  /** Other requests' numbers survive a commit. */
  lemma CommitKeepsUpload(sha: Bytes -> string, s: State, u: nat, s': State, v: nat)
    requires RowsOk(s) && UploadsOk(sha, s) && u in s.uploads && s.uploads[u].phase.Inserted?
    requires Do(sha, s, Commit(u)) == Some(s') && v in s.uploads && v != u
    ensures UploadOk(sha, s', v)
  {
    CommitKeepsRows(sha, s, u, s');
    var up, other := s.uploads[u], s.uploads[v];
    assert UploadOk(sha, s, v) && UploadOk(sha, s, u);
    assert !Claims(other, up.document, up.phase.n);
    if other.document != up.document {
      SameHashes(s.rows, NewRow(sha, up), other.document);
    }
    if other.phase.Committed? {
      CommittedAppended(s.rows, NewRow(sha, up), other.phase.key);
    }
  }

  lemma SameHashes(rows: seq<Row>, r: Row, d: string)
    requires r.document != d
    ensures forall n: nat, hash :: HasHash(rows + [r], d, n, hash) ==> HasHash(rows, d, n, hash)
  {
    forall n: nat, hash | HasHash(rows + [r], d, n, hash) ensures HasHash(rows, d, n, hash) {
      var i :| 0 <= i < |rows| + 1 && (rows + [r])[i].document == d && (rows + [r])[i].number == n
               && (rows + [r])[i].sha256 == hash;
      assert rows[i] == (rows + [r])[i];
    }
  }

  ghost predicate KeyAt(s: State, u: nat, key: string) { u in s.uploads && KeyOf(s.uploads[u]) == Some(key) }

  /** When only request `u` moves, only its key enters or leaves flight. */
  lemma InFlightUpdate(s: State, u: nat, s': State, key: string)
    requires s'.uploads.Keys + {u} == s.uploads.Keys + {u}
    requires forall v :: v in s'.uploads && v != u ==> s'.uploads[v] == s.uploads[v]
    requires forall v :: v in s.uploads && v != u && KeyOf(s.uploads[v]) == Some(key) ==> !KeyAt(s, u, key)
    ensures InFlight(s', key) <==> (InFlight(s, key) && !KeyAt(s, u, key)) || KeyAt(s', u, key)
  {
    if InFlight(s, key) && !KeyAt(s, u, key) {
      var v :| v in s.uploads && KeyOf(s.uploads[v]) == Some(key);
      assert v in s'.uploads && KeyOf(s'.uploads[v]) == Some(key);
    }
    if InFlight(s', key) {
      var v :| v in s'.uploads && KeyOf(s'.uploads[v]) == Some(key);
      assert v != u ==> v in s.uploads && KeyOf(s.uploads[v]) == Some(key);
    }
  }

  lemma CommittedAppended(rows: seq<Row>, r: Row, key: string)
    ensures IsCommitted(rows + [r], key) <==> IsCommitted(rows, key) || key == r.key
  {
    assert r in rows + [r];
    if IsCommitted(rows, key) {
      var x :| x in rows && x.key == key;
      assert x in rows + [r];
    }
  }

  lemma CommitMovesKey(sha: Bytes -> string, s: State, u: nat, s': State, key: string)
    requires KeysOk(s) && u in s.uploads && s.uploads[u].phase.Inserted? && Do(sha, s, Commit(u)) == Some(s')
    ensures InFlight(s', key) <==> InFlight(s, key) && key != s.uploads[u].phase.key
    ensures IsCommitted(s'.rows, key) <==> IsCommitted(s.rows, key) || key == s.uploads[u].phase.key
  {
    InFlightUpdate(s, u, s', key);
    CommittedAppended(s.rows, NewRow(sha, s.uploads[u]), key);
  }

  lemma CommitKeepsKeys(sha: Bytes -> string, s: State, u: nat, s': State)
    requires KeysOk(s) && u in s.uploads && s.uploads[u].phase.Inserted?
    requires forall v :: v in s.uploads ==> UploadOk(sha, s, v)
    requires Do(sha, s, Commit(u)) == Some(s')
    ensures KeysOk(s')
  {
    var key := s.uploads[u].phase.key;
    assert KeyOf(s.uploads[u]) == Some(key);
    assert InFlight(s, key);
    forall k ensures (InFlight(s', k) <==> InFlight(s, k) && k != key)
                     && (IsCommitted(s'.rows, k) <==> IsCommitted(s.rows, k) || k == key)
    {
      CommitMovesKey(sha, s, u, s', k);
    }
    forall r | r in s.rows ensures r.key != key { assert IsCommitted(s.rows, r.key); }
    forall v | v in s.uploads && s.uploads[v].phase.Committed? ensures s.uploads[v].phase.key != key {
      assert UploadOk(sha, s, v);
    }
  }

  lemma CommitKeepsOwned(sha: Bytes -> string, s: State, u: nat, s': State, key: string)
    requires KeysOk(s) && u in s.uploads && s.uploads[u].phase.Inserted? && Do(sha, s, Commit(u)) == Some(s')
    ensures Owned(s', key) <==> Owned(s, key)
  {
    assert KeyOf(s.uploads[u]) == Some(s.uploads[u].phase.key);
    assert InFlight(s, s.uploads[u].phase.key);
    CommitMovesKey(sha, s, u, s', key);
  }

  lemma CommitKeepsObjects(sha: Bytes -> string, s: State, u: nat, s': State)
    requires KeysOk(s) && ObjectsOk(sha, s) && u in s.uploads && s.uploads[u].phase.Inserted?
    requires Do(sha, s, Commit(u)) == Some(s')
    ensures ObjectsOk(sha, s')
  {
    assert KeyOf(s.uploads[u]) == Some(s.uploads[u].phase.key);
    forall k ensures k in s'.objects <==> Owned(s', k) {
      CommitKeepsOwned(sha, s, u, s', k);
    }
  }

  /** Steps that change one request's progress without touching its key, the rows or the objects. */
  ghost predicate Progress(s: State, u: nat, s': State) {
    && s' == s.(uploads := s'.uploads)
    && s'.uploads.Keys + {u} == s.uploads.Keys + {u}
    && (forall v :: v in s'.uploads && v != u ==> s'.uploads[v] == s.uploads[v])
    && (u in s'.uploads ==> !s'.uploads[u].phase.Committed?)
    && (if u in s.uploads then KeyOf(s.uploads[u]) else None) == (if u in s'.uploads then KeyOf(s'.uploads[u]) else None)
    && (u in s.uploads && u in s'.uploads ==> s'.uploads[u].bytes == s.uploads[u].bytes)
  }

  lemma ProgressKeepsFlight(s: State, u: nat, s': State)
    requires KeysOk(s) && Progress(s, u, s')
    ensures forall k :: InFlight(s', k) <==> InFlight(s, k)
  {
    forall k ensures InFlight(s', k) <==> InFlight(s, k) {
      InFlightUpdate(s, u, s', k);
    }
  }

  lemma ProgressKeepsKeys(s: State, u: nat, s': State)
    requires KeysOk(s) && Progress(s, u, s')
    ensures KeysOk(s')
  {
    ProgressKeepsFlight(s, u, s');
    assert forall v :: v in s'.uploads && KeyOf(s'.uploads[v]).Some? ==> v in s.uploads && KeyOf(s.uploads[v]) == KeyOf(s'.uploads[v]);
  }

  lemma ProgressKeepsObjects(sha: Bytes -> string, s: State, u: nat, s': State)
    requires KeysOk(s) && ObjectsOk(sha, s) && Progress(s, u, s')
    ensures ObjectsOk(sha, s')
  {
    ProgressKeepsFlight(s, u, s');
    assert forall k :: Owned(s', k) <==> Owned(s, k);
  }

  /** Progress of one request leaves the others' facts alone. */
  lemma ProgressKeepsUploads(sha: Bytes -> string, s: State, u: nat, s': State)
    requires UploadsOk(sha, s) && s'.rows == s.rows && s'.current == s.current && s'.lost == s.lost
    requires s'.uploads.Keys + {u} == s.uploads.Keys + {u}
    requires forall v :: v in s'.uploads && v != u ==> s'.uploads[v] == s.uploads[v]
    requires u in s'.uploads ==> UploadOk(sha, s', u)
    requires u in s'.uploads && s'.uploads[u].phase.Inserted? ==>
               forall v :: v in s.uploads ==> !Claims(s.uploads[v], s'.uploads[u].document, s'.uploads[u].phase.n)
    ensures UploadsOk(sha, s')
  {
    forall v | v in s'.uploads ensures UploadOk(sha, s', v) {
      if v != u {
        assert UploadOk(sha, s, v);
      }
    }
  }

  lemma PutAddsFlight(sha: Bytes -> string, s: State, u: nat, key: string, s': State)
    requires KeysOk(s) && u in s.uploads && s.uploads[u].phase.Checked?
    requires FreshKey(s, PutObject(u, key, Confirmed)) && key !in s.objects && Do(sha, s, PutObject(u, key, Confirmed)) == Some(s')
    ensures forall k :: InFlight(s', k) <==> InFlight(s, k) || k == key
    ensures !IsCommitted(s.rows, key) && !InFlight(s, key) && key !in s.orphans
  {
    forall k ensures InFlight(s', k) <==> InFlight(s, k) || k == key {
      InFlightUpdate(s, u, s', k);
    }
  }

  lemma PutKeepsKeys(sha: Bytes -> string, s: State, u: nat, key: string, s': State)
    requires KeysOk(s) && u in s.uploads && s.uploads[u].phase.Checked?
    requires FreshKey(s, PutObject(u, key, Confirmed)) && key !in s.objects && Do(sha, s, PutObject(u, key, Confirmed)) == Some(s')
    ensures KeysOk(s')
  {
    PutAddsFlight(sha, s, u, key, s');
  }

  lemma PutKeepsObjects(sha: Bytes -> string, s: State, u: nat, key: string, s': State)
    requires KeysOk(s) && ObjectsOk(sha, s) && u in s.uploads && s.uploads[u].phase.Checked?
    requires FreshKey(s, PutObject(u, key, Confirmed)) && key !in s.objects && Do(sha, s, PutObject(u, key, Confirmed)) == Some(s')
    ensures ObjectsOk(sha, s')
  {
    PutAddsFlight(sha, s, u, key, s');
    assert forall k :: Owned(s', k) <==> Owned(s, k) || k == key;
  }

  lemma CleanUpKeepsKeys(sha: Bytes -> string, s: State, u: nat, key: string, deleteSucceeds: bool)
    requires KeysOk(s) && ObjectsOk(sha, s) && u in s.uploads && KeyOf(s.uploads[u]) == Some(key)
    ensures KeysOk(CleanedUp(s, u, key, deleteSucceeds)) && ObjectsOk(sha, CleanedUp(s, u, key, deleteSucceeds))
  {
    var s' := CleanedUp(s, u, key, deleteSucceeds);
    assert InFlight(s, key);
    forall k ensures InFlight(s', k) <==> InFlight(s, k) && k != key {
      InFlightUpdate(s, u, s', k);
    }
  }

  lemma LossKeepsInv(sha: Bytes -> string, s: State, u: nat)
    requires Inv(sha, s) && u in s.uploads && s.uploads[u].phase.Committed?
    ensures Inv(sha, AfterLoss(s, u))
  {
    assert UploadOk(sha, s, u);
    LossKeepsKeys(sha, s, u);
    LossKeepsUploads(sha, s, u);
  }

  lemma LossKeepsUploads(sha: Bytes -> string, s: State, u: nat)
    requires UploadsOk(sha, s) && KeysOk(s) && u in s.uploads && s.uploads[u].phase.Committed?
    ensures UploadsOk(sha, AfterLoss(s, u))
  {
    forall v | v in s.uploads && v != u ensures UploadOk(sha, AfterLoss(s, u), v) {
      LossKeepsUpload(sha, s, u, v);
    }
  }

  lemma LossKeepsUpload(sha: Bytes -> string, s: State, u: nat, v: nat)
    requires u in s.uploads && s.uploads[u].phase.Committed? && v in s.uploads && v != u && UploadOk(sha, s, v)
    requires s.uploads[v].phase.Committed? ==> s.uploads[v].phase.key != s.uploads[u].phase.key
    ensures UploadOk(sha, AfterLoss(s, u), v)
  {
  }

  lemma LossKeepsKeys(sha: Bytes -> string, s: State, u: nat)
    requires KeysOk(s) && ObjectsOk(sha, s) && u in s.uploads && s.uploads[u].phase.Committed? && UploadOk(sha, s, u)
    ensures KeysOk(AfterLoss(s, u)) && ObjectsOk(sha, AfterLoss(s, u))
  {
    forall k ensures InFlight(AfterLoss(s, u), k) <==> InFlight(s, k) {
      InFlightUpdate(s, u, AfterLoss(s, u), k);
    }
  }

  lemma CommitKeepsInv(sha: Bytes -> string, s: State, u: nat, s': State)
    requires Inv(sha, s) && u in s.uploads && s.uploads[u].phase.Inserted? && Do(sha, s, Commit(u)) == Some(s')
    ensures Inv(sha, s')
  {
    assert UploadOk(sha, s, u);
    CommitKeepsRows(sha, s, u, s');
    CommitKeepsKeys(sha, s, u, s');
    CommitKeepsObjects(sha, s, u, s');
    CommitKeepsUploads(sha, s, u, s');
  }

  lemma CommitKeepsUploads(sha: Bytes -> string, s: State, u: nat, s': State)
    requires RowsOk(s) && UploadsOk(sha, s) && KeysOk(s) && u in s.uploads && s.uploads[u].phase.Inserted?
    requires Do(sha, s, Commit(u)) == Some(s')
    ensures UploadsOk(sha, s')
  {
    CommittedIsOk(sha, s, u, s');
    forall v | v in s'.uploads && v != u ensures UploadOk(sha, s', v) {
      CommitKeepsUpload(sha, s, u, s', v);
    }
  }

  lemma CommittedIsOk(sha: Bytes -> string, s: State, u: nat, s': State)
    requires KeysOk(s) && u in s.uploads && s.uploads[u].phase.Inserted? && Do(sha, s, Commit(u)) == Some(s')
    ensures UploadOk(sha, s', u)
  {
    assert KeyOf(s.uploads[u]) == Some(s.uploads[u].phase.key);
    assert InFlight(s, s.uploads[u].phase.key);
    CommittedAppended(s.rows, NewRow(sha, s.uploads[u]), s.uploads[u].phase.key);
  }

  lemma CleanUpKeepsInv(sha: Bytes -> string, s: State, u: nat, key: string, deleteSucceeds: bool)
    requires Inv(sha, s) && u in s.uploads && KeyOf(s.uploads[u]) == Some(key)
    ensures Inv(sha, CleanedUp(s, u, key, deleteSucceeds))
  {
    CleanUpKeepsKeys(sha, s, u, key, deleteSucceeds);
    ProgressKeepsUploads(sha, s, u, CleanedUp(s, u, key, deleteSucceeds));
  }

  lemma ProgressKeepsInv(sha: Bytes -> string, s: State, u: nat, s': State)
    requires Inv(sha, s) && Progress(s, u, s')
    requires u in s'.uploads ==> UploadOk(sha, s', u)
    requires u in s'.uploads && s'.uploads[u].phase.Inserted? ==>
               forall v :: v in s.uploads ==> !Claims(s.uploads[v], s'.uploads[u].document, s'.uploads[u].phase.n)
    ensures Inv(sha, s')
  {
    ProgressKeepsKeys(s, u, s');
    ProgressKeepsObjects(sha, s, u, s');
    ProgressKeepsUploads(sha, s, u, s');
  }

  lemma InsertKeepsInv(sha: Bytes -> string, s: State, u: nat, deleteSucceeds: bool, s': State)
    requires Inv(sha, s) && u in s.uploads && s.uploads[u].phase.Stored?
    requires Do(sha, s, InsertRow(u, deleteSucceeds)) == Some(s')
    ensures Inv(sha, s')
  {
    var up := s.uploads[u];
    assert UploadOk(sha, s, u);
    if HasVersion(s.rows, up.document, up.phase.n) {
      CleanUpKeepsInv(sha, s, u, up.phase.key, deleteSucceeds);
    } else {
      ProgressKeepsInv(sha, s, u, s');
    }
  }

  lemma LeftBehindKeepsKeys(s: State, u: nat, key: string)
    requires KeysOk(s) && u in s.uploads && s.uploads[u].phase.Checked? && FreshKey(s, PutObject(u, key, Unconfirmed))
    ensures KeysOk(LeftBehind(s, u, key))
    ensures forall k :: InFlight(LeftBehind(s, u, key), k) <==> InFlight(s, k)
  {
    forall k ensures InFlight(LeftBehind(s, u, key), k) <==> InFlight(s, k) {
      InFlightUpdate(s, u, LeftBehind(s, u, key), k);
    }
    assert !InFlight(s, key) && !IsCommitted(s.rows, key);
  }

  lemma LeftBehindKeepsInv(sha: Bytes -> string, s: State, u: nat, key: string)
    requires Inv(sha, s) && u in s.uploads && s.uploads[u].phase.Checked? && FreshKey(s, PutObject(u, key, Unconfirmed))
    requires key !in s.objects
    ensures Inv(sha, LeftBehind(s, u, key))
  {
    var s' := LeftBehind(s, u, key);
    LeftBehindKeepsKeys(s, u, key);
    assert forall k :: Owned(s', k) <==> Owned(s, k) || k == key;
    ProgressKeepsUploads(sha, s, u, s');
  }

  lemma PutKeepsInv(sha: Bytes -> string, s: State, u: nat, key: string, put: Put, s': State)
    requires Inv(sha, s) && u in s.uploads && s.uploads[u].phase.Checked? && FreshKey(s, PutObject(u, key, put))
    requires Do(sha, s, PutObject(u, key, put)) == Some(s')
    ensures Inv(sha, s')
  {
    assert UploadOk(sha, s, u);
    if key in s.objects || put == Refused {
      ProgressKeepsInv(sha, s, u, s');
    } else if put == Unconfirmed {
      LeftBehindKeepsInv(sha, s, u, key);
    } else {
      ConfirmedKeepsInv(sha, s, u, key, s');
    }
  }

  lemma ConfirmedKeepsInv(sha: Bytes -> string, s: State, u: nat, key: string, s': State)
    requires Inv(sha, s) && u in s.uploads && s.uploads[u].phase.Checked? && UploadOk(sha, s, u)
    requires FreshKey(s, PutObject(u, key, Confirmed)) && key !in s.objects && Do(sha, s, PutObject(u, key, Confirmed)) == Some(s')
    ensures Inv(sha, s')
  {
    PutKeepsKeys(sha, s, u, key, s');
    PutKeepsObjects(sha, s, u, key, s');
    ProgressKeepsUploads(sha, s, u, s');
  }

  lemma ReadsKeepInv(sha: Bytes -> string, s: State, step: Step, s': State)
    requires Inv(sha, s) && Do(sha, s, step) == Some(s')
    requires step.Begin? || step.ReadNumber? || step.CheckLatest? || step.Finish?
    ensures Inv(sha, s')
  {
    var u := step.u;
    if u in s.uploads {
      assert UploadOk(sha, s, u);
      HighestIsCurrent(s, s.uploads[u].document);
    }
    ProgressKeepsInv(sha, s, u, s');
  }

  lemma FailureKeepsInv(sha: Bytes -> string, s: State, u: nat, deleteSucceeds: bool, s': State)
    requires Inv(sha, s) && Do(sha, s, FailBeforeCommit(u, deleteSucceeds)) == Some(s')
    ensures Inv(sha, s') && s'.rows == s.rows
  {
    if KeyOf(s.uploads[u]).Some? {
      CleanUpKeepsInv(sha, s, u, KeyOf(s.uploads[u]).value, deleteSucceeds);
    } else {
      ProgressKeepsInv(sha, s, u, s');
    }
  }

  lemma LateFailureKeepsInv(sha: Bytes -> string, s: State, u: nat, deleteSucceeds: bool, s': State)
    requires Inv(sha, s) && Do(sha, s, FailAfterCommit(u, deleteSucceeds)) == Some(s')
    ensures Inv(sha, s') && s'.rows == s.rows
  {
    if deleteSucceeds {
      LossKeepsInv(sha, s, u);
    } else {
      ProgressKeepsInv(sha, s, u, s');
    }
  }

  /** Every step of every request, failures included, keeps rows, objects and requests in agreement. */
  lemma StepKeepsInv(sha: Bytes -> string, s: State, step: Step, s': State)
    requires Inv(sha, s) && FreshKey(s, step) && Do(sha, s, step) == Some(s')
    ensures Inv(sha, s') && s.rows <= s'.rows
  {
    match step
    case PutObject(u, key, put) => PutKeepsInv(sha, s, u, key, put, s');
    case InsertRow(u, deleteSucceeds) => InsertKeepsInv(sha, s, u, deleteSucceeds, s');
    case Commit(u) => CommitKeepsInv(sha, s, u, s');
    case FailBeforeCommit(u, deleteSucceeds) => FailureKeepsInv(sha, s, u, deleteSucceeds, s');
    case FailAfterCommit(u, deleteSucceeds) => LateFailureKeepsInv(sha, s, u, deleteSucceeds, s');
    case _ => ReadsKeepInv(sha, s, step, s');
  }

  // -------------------------------------------------------------- whole runs

  /** The states an interleaving passes through, every step of it taken with a fresh key. */
  ghost predicate IsRun(sha: Bytes -> string, states: seq<State>, steps: seq<Step>) {
    && |states| == |steps| + 1 && states[0] == START
    && forall i: nat :: i < |steps| ==> Taken(sha, states, steps, i)
  }

  ghost predicate Taken(sha: Bytes -> string, states: seq<State>, steps: seq<Step>, i: nat)
    requires i < |steps| && i + 1 < |states|
  {
    Do(sha, states[i], steps[i]) == Some(states[i + 1]) && FreshKey(states[i], steps[i])
  }

  lemma {:induction false} RunKeepsInv(sha: Bytes -> string, states: seq<State>, steps: seq<Step>, i: nat)
    requires IsRun(sha, states, steps) && i < |states|
    ensures Inv(sha, states[i])
  {
    if i > 0 {
      RunKeepsInv(sha, states, steps, i - 1);
      assert Taken(sha, states, steps, i - 1);
      StepKeepsInv(sha, states[i - 1], steps[i - 1], states[i]);
    }
  }

  /** In every interleaving a document's versions are `1..current_version`, each once, no two neighbours alike. */
  lemma VersionsAreConsecutive(sha: Bytes -> string, states: seq<State>, steps: seq<Step>, i: nat)
    requires IsRun(sha, states, steps) && i < |states|
    ensures VersionsOk(states[i].rows, states[i].current)
  {
    RunKeepsInv(sha, states, steps, i);
  }

  /** No committed version is ever changed or dropped. */
  lemma {:induction false} CommittedVersionsStay(sha: Bytes -> string, states: seq<State>, steps: seq<Step>, i: nat, j: nat)
    requires IsRun(sha, states, steps) && i <= j < |states|
    ensures states[i].rows <= states[j].rows
  {
    if i < j {
      CommittedVersionsStay(sha, states, steps, i, j - 1);
      RunKeepsInv(sha, states, steps, j - 1);
      assert Taken(sha, states, steps, j - 1);
      StepKeepsInv(sha, states[j - 1], steps[j - 1], states[j]);
    }
  }

  /** Re-reading and re-hashing the object gives the recorded digest. */
  ghost predicate Verifies(sha: Bytes -> string, objects: map<string, Bytes>, r: Row) {
    r.key in objects && sha(objects[r.key]) == r.sha256
  }

  /** Step `k` is a late failure: the request had committed the row of `key`, and its clean-up deletes that object. */
  ghost predicate LosesAt(states: seq<State>, steps: seq<Step>, k: nat, key: string) {
    && k < |steps| && k < |states| && steps[k].FailAfterCommit? && steps[k].deleteSucceeds
    && steps[k].u in states[k].uploads && states[k].uploads[steps[k].u].phase.Committed?
    && states[k].uploads[steps[k].u].phase.key == key
  }

  /**
   * Step `k` abandons the object under `key`: a rollback fails to delete what the request had written, or the
   * write itself was done but reported as failed.
   */
  ghost predicate AbandonsAt(states: seq<State>, steps: seq<Step>, k: nat, key: string) {
    && k < |steps| && k < |states|
    && match steps[k]
       case FailBeforeCommit(u, deleteSucceeds) => !deleteSucceeds && KeyAt(states[k], u, key)
       case InsertRow(u, deleteSucceeds) =>
         !deleteSucceeds && KeyAt(states[k], u, key)
         && HasVersion(states[k].rows, states[k].uploads[u].document, states[k].uploads[u].phase.n)
       case PutObject(_, written, put) => written == key && put == Unconfirmed && key !in states[k].objects
       case _ => false
  }

  lemma StepLoses(sha: Bytes -> string, states: seq<State>, steps: seq<Step>, k: nat, key: string)
    requires IsRun(sha, states, steps) && k < |steps|
    ensures key in states[k + 1].lost <==> key in states[k].lost || LosesAt(states, steps, k, key)
    ensures key in states[k + 1].orphans <==> key in states[k].orphans || AbandonsAt(states, steps, k, key)
  {
    assert Taken(sha, states, steps, k);
  }

  /** The two ledgers are no more than a record of those steps. */
  lemma {:induction false} LedgersRecordSteps(sha: Bytes -> string, states: seq<State>, steps: seq<Step>, i: nat, key: string)
    requires IsRun(sha, states, steps) && i < |states|
    ensures key in states[i].lost <==> exists k: nat :: k < i && LosesAt(states, steps, k, key)
    ensures key in states[i].orphans <==> exists k: nat :: k < i && AbandonsAt(states, steps, k, key)
  {
    if i > 0 {
      LedgersRecordSteps(sha, states, steps, i - 1, key);
      StepLoses(sha, states, steps, i - 1, key);
    }
  }

  /** A committed version verifies exactly unless the request that committed it failed afterwards and cleaned up. */
  lemma VerifiesUnlessLost(sha: Bytes -> string, states: seq<State>, steps: seq<Step>, i: nat, r: Row)
    requires IsRun(sha, states, steps) && i < |states| && r in states[i].rows
    ensures Verifies(sha, states[i].objects, r) <==> !exists k: nat :: k < i && LosesAt(states, steps, k, r.key)
  {
    var s := states[i];
    RunKeepsInv(sha, states, steps, i);
    assert IsCommitted(s.rows, r.key);
    assert InFlight(s, r.key) ==> !IsCommitted(s.rows, r.key);
    LedgersRecordSteps(sha, states, steps, i, r.key);
  }

  /**
   * Storage and database agree on a key (stored exactly when committed or in flight) exactly unless its object
   * was deleted by a late failure, or abandoned by a failed clean-up or an unconfirmed write.
   */
  lemma StorageMatchesDatabase(sha: Bytes -> string, states: seq<State>, steps: seq<Step>, i: nat, key: string)
    requires IsRun(sha, states, steps) && i < |states|
    ensures (key in states[i].objects <==> IsCommitted(states[i].rows, key) || InFlight(states[i], key))
       <==> !exists k: nat :: k < i && (LosesAt(states, steps, k, key) || AbandonsAt(states, steps, k, key))
  {
    RunKeepsInv(sha, states, steps, i);
    LedgersRecordSteps(sha, states, steps, i, key);
    assert key in states[i].objects <==> Owned(states[i], key);
  }

  ghost predicate EndsUnverifiable(sha: Bytes -> string, states: seq<State>, r: Row)
    requires states != []
  {
    r in states[|states| - 1].rows && !Verifies(sha, states[|states| - 1].objects, r)
  }

  /** The only upload, at some phase. */
  function Sole(phase: Phase): map<nat, Upload> { map[0 := Upload("d", [], phase)] }

  /** One upload from its start to its commit, and the failure after it. */
  const LOSING_STEPS: seq<Step> :=
    [Begin(0, "d", []), ReadNumber(0), CheckLatest(0), PutObject(0, "k", Confirmed), InsertRow(0, true), Commit(0),
     FailAfterCommit(0, true)]

  function LosingStates(r: Row): seq<State> {
    var objects, current := map["k" := []], map["d" := 1];
    [ START,
      State([], map[], map[], Sole(Begun), {}, {}),
      State([], map[], map[], Sole(Numbered(1)), {}, {}),
      State([], map[], map[], Sole(Checked(1)), {}, {}),
      State([], map[], objects, Sole(Stored(1, "k")), {}, {}),
      State([], map[], objects, Sole(Inserted(1, "k")), {}, {}),
      State([r], current, objects, Sole(Committed(1, "k")), {}, {}),
      State([r], current, map[], map[], {}, {"k"}) ]
  }

  lemma WithSole(s: State, phase: Phase, next: Phase)
    requires s.uploads == Sole(phase)
    ensures With(s, 0, next) == s.(uploads := Sole(next))
  {
  }

  lemma LosingReads(sha: Bytes -> string, r: Row)
    ensures forall i: nat :: i < 3 ==> Taken(sha, LosingStates(r), LOSING_STEPS, i)
  {
    var states := LosingStates(r);
    assert START.uploads[0 := Upload("d", [], Begun)] == Sole(Begun);
    assert Taken(sha, states, LOSING_STEPS, 0);
    WithSole(states[1], Begun, Numbered(1));
    assert Taken(sha, states, LOSING_STEPS, 1);
    WithSole(states[2], Numbered(1), Checked(1));
    assert Taken(sha, states, LOSING_STEPS, 2);
  }

  lemma LosingWrites(sha: Bytes -> string, r: Row)
    requires r == Row("d", 1, "k", sha([]), 0)
    ensures forall i: nat :: 3 <= i < 6 ==> Taken(sha, LosingStates(r), LOSING_STEPS, i)
  {
    var states := LosingStates(r);
    WithSole(states[3].(objects := states[4].objects), Checked(1), Stored(1, "k"));
    assert states[3].objects["k" := []] == states[4].objects;
    assert Taken(sha, states, LOSING_STEPS, 3);
    WithSole(states[4], Stored(1, "k"), Inserted(1, "k"));
    assert Taken(sha, states, LOSING_STEPS, 4);
    WithSole(State([r], states[6].current, states[5].objects, Sole(Inserted(1, "k")), {}, {}), Inserted(1, "k"), Committed(1, "k"));
    assert states[5].rows + [r] == [r] && states[5].current["d" := 1] == states[6].current;
    assert Taken(sha, states, LOSING_STEPS, 5);
  }

  lemma LosingEnd(sha: Bytes -> string, r: Row)
    ensures Taken(sha, LosingStates(r), LOSING_STEPS, 6)
  {
    var s := LosingStates(r)[6];
    assert s.objects - {"k"} == map[] && s.uploads - {0} == map[] && s.lost + {"k"} == {"k"};
  }

  /** One upload suffices: it commits, the refresh fails, the clean-up deletes the object, the row stays. */
  lemma LateFailureLosesObject(sha: Bytes -> string)
    ensures exists states: seq<State>, steps: seq<Step>, r: Row :: IsRun(sha, states, steps) && EndsUnverifiable(sha, states, r)
  {
    var r := Row("d", 1, "k", sha([]), 0);
    LosingReads(sha, r);
    LosingWrites(sha, r);
    LosingEnd(sha, r);
    assert IsRun(sha, LosingStates(r), LOSING_STEPS);
    assert EndsUnverifiable(sha, LosingStates(r), r);
  }
}
