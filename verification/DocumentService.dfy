/** `store_version` and `verify_version` as one request runs them, over the tables and the in-memory store. */
module DocumentService {
  import opened Basics
  import opened DocumentStore

  /** `InMemoryStorage`. */
  class InMemoryStorage {
    var objects: map<string, Bytes>

    constructor ()
      ensures objects == map[]
    {
      objects := map[];
    }

    /** Refuses a payload whose declared length is wrong; `fate` stands for the transport. */
    method Put(key: string, data: Bytes, length: nat, fate: Put) returns (ok: bool)
      modifies this
      ensures ok <==> |data| == length && fate == Confirmed
      ensures objects == if |data| == length && fate != Refused then old(objects)[key := data] else old(objects)
    {
      if |data| != length || fate == Refused {
        return false;
      }
      objects := objects[key := data];
      ok := fate == Confirmed;
    }

    method Delete(key: string, fails: bool)
      modifies this
      ensures objects == if fails then old(objects) else old(objects) - {key}
    {
      if !fails {
        objects := objects - {key};
      }
    }
  }

  /** Where a request goes wrong, if it does, and whether its clean-up delete then works. */
  datatype Faults = Faults(put: Put, beforeInsert: bool, beforeCommit: bool, afterCommit: bool, delete: bool)

  datatype Outcome = Created(version: nat) | AlreadyStored | KeyCollision | StorageFailed | VersionTaken | Failed

  /** The steps of one request that nothing interleaves with. */
  ghost function Alone(sha: Bytes -> string, s: State, u: nat, document: string, bytes: Bytes, key: string, f: Faults): State
    requires u !in s.uploads
  {
    var prepared := Prepared(sha, s, u, document, bytes, key, f);
    if u !in prepared.uploads then prepared else Completed(sha, prepared, u, f)
  }

  /** Up to and including the object write. */
  ghost function Prepared(sha: Bytes -> string, s: State, u: nat, document: string, bytes: Bytes, key: string, f: Faults): State
    requires u !in s.uploads
  {
    var checked := AfterCheck(sha, s, u, document, bytes);
    if u !in checked.uploads then checked else Next(sha, checked, PutObject(u, key, f.put))
  }

  /** The version number read and the latest version's hash compared. */
  ghost function AfterCheck(sha: Bytes -> string, s: State, u: nat, document: string, bytes: Bytes): State {
    Next(sha, Next(sha, Next(sha, s, Begin(u, document, bytes)), ReadNumber(u)), CheckLatest(u))
  }

  /** From the object write to the end. */
  ghost function Completed(sha: Bytes -> string, stored: State, u: nat, f: Faults): State {
    if f.beforeInsert then Next(sha, stored, FailBeforeCommit(u, !f.delete))
    else
      var inserted := Next(sha, stored, InsertRow(u, !f.delete));
      if u !in inserted.uploads then inserted
      else if f.beforeCommit then Next(sha, inserted, FailBeforeCommit(u, !f.delete))
      else Closed(sha, inserted, u, f)
  }

  /** The commit and what follows it. */
  ghost function Closed(sha: Bytes -> string, inserted: State, u: nat, f: Faults): State {
    Next(sha, Next(sha, inserted, Commit(u)), if f.afterCommit then FailAfterCommit(u, !f.delete) else Finish(u))
  }

  ghost function Next(sha: Bytes -> string, s: State, step: Step): State {
    Do(sha, s, step).GetOr(s)
  }

  lemma NextNumberIsFree(rows: seq<Row>, document: string, n: nat)
    requires IsNextNumber(rows, document, n)
    ensures !HasVersion(rows, document, n)
  {
    forall i | 0 <= i < |rows| && rows[i].document == document ensures rows[i].number < n {
      assert rows[i] in rows;
    }
  }

  lemma WriteUndone(objects: map<string, Bytes>, key: string, bytes: Bytes)
    requires key !in objects
    ensures objects[key := bytes] - {key} == objects
  {
  }

  datatype Digest = Digest(computed: string, verified: bool)

  class DocumentTables {
    const sha: Bytes -> string
    const storage: InMemoryStorage
    var rows: seq<Row>
    var current: map<string, nat>
    ghost var orphans: set<string>
    ghost var lost: set<string>

    /** The tables and the store as the interleaving model sees them between requests. */
    ghost function Snapshot(): State
      reads this, storage
    {
      State(rows, current, storage.objects, map[], orphans, lost)
    }

    constructor (sha: Bytes -> string, storage: InMemoryStorage)
      requires storage.objects == map[]
      ensures this.sha == sha && this.storage == storage && Snapshot() == START
    {
      this.sha, this.storage := sha, storage;
      rows, current, orphans, lost := [], map[], {}, {};
    }

    method NextVersionNumber(document: string) returns (n: nat)
      ensures n == Highest(rows, document) + 1
      ensures IsNextNumber(rows, document, n)
    {
      var highest := 0;
      for i := 0 to |rows|
        invariant highest == Highest(rows[..i], document)
      {
        assert rows[..i + 1][..i] == rows[..i];
        if rows[i].document == document && rows[i].number > highest {
          highest := rows[i].number;
        }
      }
      assert rows[..|rows|] == rows;
      n := highest + 1;
      NextNumberIs(rows, document, n);
    }

    /** Whether the latest version of the document already holds these bytes. */
    method LatestHasHash(document: string, latest: nat, hash: string) returns (b: bool)
      ensures b <==> HasHash(rows, document, latest, hash)
    {
      for i := 0 to |rows|
        invariant forall k :: 0 <= k < i ==> rows[k].document != document || rows[k].number != latest || rows[k].sha256 != hash
      {
        if rows[i].document == document && rows[i].number == latest && rows[i].sha256 == hash {
          return true;
        }
      }
      b := false;
    }

    method VersionExists(document: string, n: nat) returns (b: bool)
      ensures b <==> HasVersion(rows, document, n)
    {
      for i := 0 to |rows|
        invariant forall k :: 0 <= k < i ==> rows[k].document != document || rows[k].number != n
      {
        if rows[i].document == document && rows[i].number == n {
          return true;
        }
      }
      b := false;
    }

    ghost function During(u: nat, up: Upload): State
      reads this, storage
    {
      Snapshot().(uploads := map[u := up])
    }

    /** The bytes are not those of the newest version, the key is free, and the store confirms the write. */
    ghost predicate Writes(document: string, bytes: Bytes, key: string, f: Faults)
      reads this, storage
    {
      !Repeats(rows, document, sha(bytes)) && key !in storage.objects && f.put == Confirmed
    }

    /** Writes one new version; a failure once the object is written is followed by a rollback and a best-effort delete. */
    method StoreVersion(document: string, bytes: Bytes, key: string, f: Faults, ghost u: nat) returns (r: Outcome)
      modifies this, storage
      ensures Snapshot() == Alone(sha, old(Snapshot()), u, document, bytes, key, f)
      ensures r == AlreadyStored <==> Repeats(old(rows), document, sha(bytes))
      ensures r == KeyCollision <==> !Repeats(old(rows), document, sha(bytes)) && key in old(storage.objects)
      ensures r == StorageFailed <==>
              !Repeats(old(rows), document, sha(bytes)) && key !in old(storage.objects) && f.put != Confirmed
      ensures r.Created? <==> old(Writes(document, bytes, key, f)) && !f.beforeInsert && !f.beforeCommit && !f.afterCommit
      ensures r != VersionTaken
      ensures r.Created? ==> IsNextNumber(old(rows), document, r.version)
                             && rows == old(rows) + [Row(document, r.version, key, sha(bytes), |bytes|)]
                             && current == old(current)[document := r.version]
                             && storage.objects == old(storage.objects)[key := bytes]
      ensures r == AlreadyStored || r == KeyCollision ==> storage.objects == old(storage.objects)
      ensures r == StorageFailed ==>
              storage.objects == if f.put == Refused then old(storage.objects) else old(storage.objects)[key := bytes]
      ensures r == Failed ==>
              storage.objects == if f.delete then old(storage.objects)[key := bytes] else old(storage.objects)
      ensures !r.Created? && (r == Failed ==> f.beforeInsert || f.beforeCommit) ==>
              rows == old(rows) && current == old(current)
    {
      var n, refused := Prepare(document, bytes, key, f, u);
      if refused.Some? {
        return refused.value;
      }
      WriteUndone(old(storage.objects), key, bytes);
      r := Complete(document, bytes, key, n, f, u);
    }

    method ReadAndCheck(document: string, bytes: Bytes, ghost u: nat) returns (n: nat, repeated: bool)
      ensures n == Highest(rows, document) + 1 && IsNextNumber(rows, document, n) && !HasVersion(rows, document, n)
      ensures repeated <==> Repeats(rows, document, sha(bytes))
      ensures AfterCheck(sha, Snapshot(), u, document, bytes)
           == if repeated then Snapshot() else During(u, Upload(document, bytes, Checked(n)))
    {
      n := NextVersionNumber(document);
      NextNumberIsFree(rows, document, n);
      ghost var s2 := Next(sha, Next(sha, Snapshot(), Begin(u, document, bytes)), ReadNumber(u));
      assert s2 == During(u, Upload(document, bytes, Numbered(n)));
      repeated := LatestHasHash(document, n - 1, sha(bytes));
      RepeatsIff(rows, document, sha(bytes));
      assert Next(sha, s2, CheckLatest(u)) == if repeated then Snapshot() else During(u, Upload(document, bytes, Checked(n)));
    }

    method Prepare(document: string, bytes: Bytes, key: string, f: Faults, ghost u: nat)
      returns (n: nat, refused: Option<Outcome>)
      modifies this, storage
      ensures rows == old(rows) && current == old(current) && n == Highest(rows, document) + 1
      ensures IsNextNumber(rows, document, n) && !HasVersion(rows, document, n)
      ensures refused == Some(AlreadyStored) <==> Repeats(rows, document, sha(bytes))
      ensures refused == Some(KeyCollision) <==> !Repeats(rows, document, sha(bytes)) && key in old(storage.objects)
      ensures refused == Some(StorageFailed) <==>
              !Repeats(rows, document, sha(bytes)) && key !in old(storage.objects) && f.put != Confirmed
      ensures refused.None? <==> old(Writes(document, bytes, key, f))
      ensures storage.objects
           == if refused.None? || (refused == Some(StorageFailed) && f.put == Unconfirmed) then old(storage.objects)[key := bytes]
              else old(storage.objects)
      ensures Prepared(sha, old(Snapshot()), u, document, bytes, key, f)
           == if refused.Some? then Snapshot() else During(u, Upload(document, bytes, Stored(n, key)))
    {
      var repeated;
      n, repeated := ReadAndCheck(document, bytes, u);
      if repeated {
        return n, Some(AlreadyStored);
      }
      refused := WriteObject(document, bytes, key, n, f, u);
    }

    /** The one write to the store, refused where the key is taken. */
    method WriteObject(document: string, bytes: Bytes, key: string, n: nat, f: Faults, ghost u: nat) returns (refused: Option<Outcome>)
      modifies this, storage
      ensures rows == old(rows) && current == old(current)
      ensures refused == Some(KeyCollision) <==> key in old(storage.objects)
      ensures refused == Some(StorageFailed) <==> key !in old(storage.objects) && f.put != Confirmed
      ensures refused.None? <==> key !in old(storage.objects) && f.put == Confirmed
      ensures storage.objects
           == if key in old(storage.objects) || f.put == Refused then old(storage.objects) else old(storage.objects)[key := bytes]
      ensures Next(sha, old(During(u, Upload(document, bytes, Checked(n)))), PutObject(u, key, f.put))
           == if refused.Some? then Snapshot() else During(u, Upload(document, bytes, Stored(n, key)))
    {
      ghost var s4 := Next(sha, During(u, Upload(document, bytes, Checked(n))), PutObject(u, key, f.put));
      if key in storage.objects {
        assert s4 == Snapshot();
        return Some(KeyCollision);
      }
      var put := storage.Put(key, bytes, |bytes|, f.put);
      if !put {
        if f.put == Unconfirmed {
          orphans := orphans + {key};
        }
        assert s4 == Snapshot();
        return Some(StorageFailed);
      }
      assert s4 == During(u, Upload(document, bytes, Stored(n, key)));
      refused := None;
    }

    method Complete(document: string, bytes: Bytes, key: string, n: nat, f: Faults, ghost u: nat) returns (r: Outcome)
      modifies this, storage
      ensures Snapshot() == Completed(sha, old(During(u, Upload(document, bytes, Stored(n, key)))), u, f)
      ensures r == VersionTaken <==> !f.beforeInsert && HasVersion(old(rows), document, n)
      ensures r == Created(n) <==>
              !HasVersion(old(rows), document, n) && !f.beforeInsert && !f.beforeCommit && !f.afterCommit
      ensures r == Failed || r == VersionTaken || r == Created(n)
      ensures r == Created(n) ==> rows == old(rows) + [Row(document, n, key, sha(bytes), |bytes|)]
                                  && current == old(current)[document := n]
      ensures storage.objects == if r == Created(n) || f.delete then old(storage.objects) else old(storage.objects) - {key}
      ensures r != Created(n) && (r == Failed ==> f.beforeInsert || f.beforeCommit) ==>
              rows == old(rows) && current == old(current)
    {
      ghost var s4 := During(u, Upload(document, bytes, Stored(n, key)));
      if f.beforeInsert {
        CleanUp(key, f.delete);
        assert Next(sha, s4, FailBeforeCommit(u, !f.delete)) == Snapshot();
        return Failed;
      }
      var taken := VersionExists(document, n);
      ghost var s5 := Next(sha, s4, InsertRow(u, !f.delete));
      if taken {
        CleanUp(key, f.delete);
        assert s5 == Snapshot();
        return VersionTaken;
      }
      assert s5 == During(u, Upload(document, bytes, Inserted(n, key)));
      if f.beforeCommit {
        CleanUp(key, f.delete);
        assert Next(sha, s5, FailBeforeCommit(u, !f.delete)) == Snapshot();
        return Failed;
      }
      r := CommitVersion(document, bytes, key, n, f, u);
    }

    method CommitVersion(document: string, bytes: Bytes, key: string, n: nat, f: Faults, ghost u: nat) returns (r: Outcome)
      modifies this, storage
      ensures Snapshot() == Closed(sha, old(During(u, Upload(document, bytes, Inserted(n, key)))), u, f)
      ensures rows == old(rows) + [Row(document, n, key, sha(bytes), |bytes|)]
      ensures current == old(current)[document := n]
      ensures storage.objects == if f.afterCommit && !f.delete then old(storage.objects) - {key} else old(storage.objects)
      ensures r == if f.afterCommit then Failed else Created(n)
    {
      Flush(document, bytes, key, n, u);
      if f.afterCommit {
        LoseObject(document, bytes, key, n, f, u);
        return Failed;
      }
      assert Next(sha, During(u, Upload(document, bytes, Committed(n, key))), Finish(u)) == Snapshot();
      r := Created(n);
    }

    method Flush(document: string, bytes: Bytes, key: string, n: nat, ghost u: nat)
      modifies this
      ensures During(u, Upload(document, bytes, Committed(n, key)))
           == Next(sha, old(During(u, Upload(document, bytes, Inserted(n, key)))), Commit(u))
      ensures rows == old(rows) + [Row(document, n, key, sha(bytes), |bytes|)] && current == old(current)[document := n]
    {
      rows := rows + [Row(document, n, key, sha(bytes), |bytes|)];
      current := current[document := n];
    }

    method LoseObject(document: string, bytes: Bytes, key: string, n: nat, f: Faults, ghost u: nat)
      modifies this, storage
      ensures Snapshot() == Next(sha, old(During(u, Upload(document, bytes, Committed(n, key)))), FailAfterCommit(u, !f.delete))
      ensures rows == old(rows) && current == old(current)
      ensures storage.objects == if f.delete then old(storage.objects) else old(storage.objects) - {key}
    {
      storage.Delete(key, f.delete);
      if !f.delete {
        lost := lost + {key};
      }
    }

    method CleanUp(key: string, fails: bool)
      modifies this, storage
      ensures rows == old(rows) && current == old(current) && lost == old(lost)
      ensures storage.objects == if fails then old(storage.objects) else old(storage.objects) - {key}
      ensures orphans == if fails then old(orphans) + {key} else old(orphans)
    {
      storage.Delete(key, fails);
      if fails {
        orphans := orphans + {key};
      }
    }

    /** Streams the object through the hasher in chunks and compares digests. */
    method VerifyVersion(version: Row, chunkSize: nat) returns (r: Digest)
      requires chunkSize > 0
      ensures r.verified <==> version.key in storage.objects && sha(storage.objects[version.key]) == version.sha256
      ensures r.computed == if version.key in storage.objects then sha(storage.objects[version.key]) else ""
    {
      if version.key !in storage.objects {
        return Digest("", false);
      }
      var payload := storage.objects[version.key];
      var digested: Bytes := [];
      while |digested| < |payload|
        invariant digested <= payload
        decreases |payload| - |digested|
      {
        var end := if |digested| + chunkSize <= |payload| then |digested| + chunkSize else |payload|;
        var chunk := payload[|digested|..end];
        digested := digested + chunk;
      }
      assert digested == payload;
      var computed := sha(digested);
      r := Digest(computed, computed == version.sha256);
    }
  }
}
