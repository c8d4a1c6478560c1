/** The department tree and its materialised paths, kept by the insert and update listeners. */
module Departments {
  import opened Basics
  import opened Identifiers
  import LikeSearch

  const PATH_LIMIT := 255

  datatype Row = Row(name: string, parent: Option<Id>, path: string)

  type Table = map<Id, Row>

  // ------------------------------------------------------------- the listeners

  /** `receive_before_insert`. */
  function InsertPath(rows: Table, d: Id, parent: Option<Id>): string {
    if parent.Some? && parent.value in rows then rows[parent.value].path + d + "/" else "/" + d + "/"
  }

  /** `receive_before_update`: the path of this row only, from whatever its parent's row holds. */
  function UpdatePath(rows: Table, d: Id, row: Row): string {
    if row.parent.None? then "/" + d + "/"
    else if row.parent.value in rows then rows[row.parent.value].path + d + "/"
    else row.path
  }

  // ---------------------------------------------------------------- the edits

  datatype Edit =
    | Create(id: Id, name: string, parent: Option<Id>)
    | Update(id: Id, rename: Option<string>, describes: bool, parent: Option<Id>)

  datatype Refusal = NotFound | ParentNotFound | NameTaken | IdTaken | PathTooLong

  predicate NameUsed(rows: Table, name: string, butNot: Option<Id>) {
    exists e :: e in rows && Some(e) != butNot && rows[e].name == name
  }

  /** Writes a row, unless its path overflows the column. */
  function Flush(rows: Table, d: Id, row: Row): Result<Table, Refusal> {
    if |row.path| > PATH_LIMIT then Err(PathTooLong) else Ok(rows[d := row])
  }

  /** The fields an update assigns; an absent parent means "leave it". */
  function Assigned(row: Row, edit: Edit): Row
    requires edit.Update?
  {
    row.(name := edit.rename.GetOr(row.name), parent := if edit.parent.Some? then edit.parent else row.parent)
  }

  /** Whether an update assigns anything, so that the listener runs. */
  predicate Touches(row: Row, edit: Edit)
    requires edit.Update?
  {
    edit.rename.Some? || edit.describes || (edit.parent.Some? && edit.parent != row.parent)
  }

  function Apply(rows: Table, edit: Edit): Result<Table, Refusal> {
    match edit
    case Create(d, name, parent) =>
      if parent.Some? && parent.value !in rows then Err(ParentNotFound)
      else if NameUsed(rows, name, None) then Err(NameTaken)
      else if d in rows then Err(IdTaken)
      else Flush(rows, d, Row(name, parent, InsertPath(rows, d, parent)))
    case Update(d, rename, _, parent) =>
      if d !in rows then Err(NotFound)
      else if rename.Some? && NameUsed(rows, rename.value, Some(d)) then Err(NameTaken)
      else if parent.Some? && parent != rows[d].parent && parent.value !in rows then Err(ParentNotFound)
      else if !Touches(rows[d], edit) then Ok(rows)
      else
        var row := Assigned(rows[d], edit);
        Flush(rows, d, row.(path := UpdatePath(rows, d, row)))
  }

  /** A refused edit leaves the table alone. */
  function After(rows: Table, edit: Edit): Table {
    var r := Apply(rows, edit);
    if r.Ok? then r.value else rows
  }

  // ------------------------------------------------------- what an edit does

  function RefusalOf(rows: Table, edit: Edit): Option<Refusal> {
    match Apply(rows, edit)
    case Ok(_) => None
    case Err(refusal) => Some(refusal)
  }

  /** The name is another department's. */
  ghost predicate HeldByOther(rows: Table, d: Id, name: string) {
    exists e :: e in rows && e != d && rows[e].name == name
  }

  /** Under a stored parent, its path and the id; at the top, the id alone. */
  ghost predicate Places(rows: Table, d: Id, parent: Option<Id>, path: string) {
    && (parent.None? ==> path == "/" + d + "/")
    && (parent.Some? && parent.value in rows ==> path == rows[parent.value].path + d + "/")
  }

  /** Room for 37 more characters in the parent's 255. */
  ghost predicate HasRoom(rows: Table, parent: Option<Id>) {
    parent.Some? && parent.value in rows ==> |rows[parent.value].path| <= 218
  }

  /** A creation adds one row with the given name and parent; it is refused for exactly one of four reasons. */
  ghost predicate Creates(rows: Table, rows': Table, d: Id, name: string, parent: Option<Id>, refusal: Option<Refusal>) {
    var orphan := parent.Some? && parent.value !in rows;
    var named := exists e :: e in rows && rows[e].name == name;
    && (refusal == Some(ParentNotFound) <==> orphan)
    && (refusal == Some(NameTaken) <==> !orphan && named)
    && (refusal == Some(IdTaken) <==> !orphan && !named && d in rows)
    && (refusal == Some(PathTooLong) <==> !orphan && !named && d !in rows && !HasRoom(rows, parent))
    && refusal != Some(NotFound)
    && (refusal.Some? ==> rows' == rows)
    && (refusal.None? ==>
          d in rows' && rows' - {d} == rows && rows'[d].name == name && rows'[d].parent == parent
          && Places(rows, d, parent, rows'[d].path))
  }

  /**
   * An update renames the row if asked to, moves it if asked to, and re-places it under its parent of now
   * when it assigns anything; every other row stays. It is refused for exactly one of four reasons.
   */
  ghost predicate Updates(rows: Table, rows': Table, d: Id, rename: Option<string>, describes: bool, parent: Option<Id>,
      refusal: Option<Refusal>)
  {
    if d !in rows then refusal == Some(NotFound) && rows' == rows
    else
      var moves := parent.Some? && parent != rows[d].parent;
      var taken := rename.Some? && HeldByOther(rows, d, rename.value);
      var orphan := moves && parent.value !in rows;
      var above := if parent.Some? then parent else rows[d].parent;
      var dangling := above.Some? && above.value !in rows;
      var assigns := rename.Some? || describes || moves;
      var fits := HasRoom(rows, above) && (dangling ==> |rows[d].path| <= 255);
      && (refusal == Some(NameTaken) <==> taken)
      && (refusal == Some(ParentNotFound) <==> !taken && orphan)
      && (refusal == Some(PathTooLong) <==> !taken && !orphan && assigns && !fits)
      && refusal != Some(NotFound) && refusal != Some(IdTaken)
      && (refusal.Some? ==> rows' == rows)
      && (refusal.None? ==>
            && rows'.Keys == rows.Keys && rows' - {d} == rows - {d}
            && rows'[d].name == (if rename.Some? then rename.value else rows[d].name)
            && rows'[d].parent == above
            && (assigns ==> Places(rows, d, above, rows'[d].path))
            && (!assigns || dangling ==> rows'[d].path == rows[d].path))
  }

  lemma CreationIs(rows: Table, d: Id, name: string, parent: Option<Id>)
    ensures var edit := Create(d, name, parent);
            Creates(rows, After(rows, edit), d, name, parent, RefusalOf(rows, edit))
  {
  }

  lemma UpdateIs(rows: Table, d: Id, rename: Option<string>, describes: bool, parent: Option<Id>)
    ensures var edit := Update(d, rename, describes, parent);
            Updates(rows, After(rows, edit), d, rename, describes, parent, RefusalOf(rows, edit))
  {
  }

  // ------------------------------------------------------ the relation indexed

  /** A chain of parent links, eldest first. */
  ghost predicate Chain(rows: Table, line: seq<Id>)
    decreases |line|
  {
    && line != []
    && line[|line| - 1] in rows
    && (|line| == 1 || (rows[line[|line| - 1]].parent == Some(line[|line| - 2]) && Chain(rows, line[..|line| - 1])))
  }

  ghost predicate Joins(rows: Table, line: seq<Id>, a: Id, d: Id) {
    Chain(rows, line) && line[0] == a && line[|line| - 1] == d
  }

  ghost predicate AncestorOrSelf(rows: Table, a: Id, d: Id) {
    exists line: seq<Id> :: Joins(rows, line, a, d)
  }

  /** The chain from a root down to `d`. */
  ghost predicate Lineage(rows: Table, line: seq<Id>, d: Id) {
    Chain(rows, line) && line[0] in rows && rows[line[0]].parent == None && line[|line| - 1] == d
  }

  /** `/root/child/grandchild/`. */
  function PathText(line: seq<Id>): (text: string)
    ensures |text| == 1 + (ID_LENGTH + 1) * |line|
  {
    if line == [] then "/" else PathText(line[..|line| - 1]) + line[|line| - 1] + "/"
  }

  /** The row's path spells out its lineage. */
  ghost predicate Right(rows: Table, d: Id)
    requires d in rows
  {
    exists line: seq<Id> :: Lineage(rows, line, d) && rows[d].path == PathText(line)
  }

  /** Every path is what its listener would write now. */
  ghost predicate Consistent(rows: Table) {
    forall d :: d in rows ==> Fresh(rows, d)
  }

  ghost predicate Fresh(rows: Table, d: Id)
    requires d in rows
  {
    match rows[d].parent
    case None => rows[d].path == "/" + d + "/"
    case Some(p) => p in rows && rows[d].path == rows[p].path + d + "/"
  }

  // ------------------------------------------------- consistency means lineage

  lemma ChainExtends(rows: Table, line: seq<Id>, d: Id)
    requires Chain(rows, line) && d in rows && rows[d].parent == Some(line[|line| - 1])
    ensures Chain(rows, line + [d])
  {
    assert (line + [d])[..|line|] == line;
  }

  lemma PathExtends(line: seq<Id>, d: Id)
    ensures PathText(line + [d]) == PathText(line) + d + "/"
  {
    assert (line + [d])[..|line|] == line;
  }

  /** The eldest of a chain is in the table too, and dropping elders leaves a chain. */
  lemma {:induction false} ChainSuffix(rows: Table, line: seq<Id>, k: nat)
    requires Chain(rows, line) && k < |line|
    ensures Chain(rows, line[k..]) && line[k] in rows
  {
    var n := |line| - 1;
    if k < n {
      ChainSuffix(rows, line[..n], k);
      assert line[k..][..n - k] == line[..n][k..];
    } else {
      assert line[k..] == [line[k]];
    }
  }

  /** Along a chain each path extends the eldest's. */
  lemma {:induction false} ChainPath(rows: Table, line: seq<Id>)
    requires Consistent(rows) && Chain(rows, line)
    ensures line[0] in rows
    ensures rows[line[0]].path <= rows[line[|line| - 1]].path
    ensures rows[line[0]].parent == None ==> rows[line[|line| - 1]].path == PathText(line)
  {
    var n := |line| - 1;
    assert Fresh(rows, line[n]);
    if n > 0 {
      ChainPath(rows, line[..n]);
    } else {
      assert PathText(line[..0]) == "/";
    }
  }

  /** In a consistent table paths strictly grow downwards, so every row has a lineage, and its path spells it. */
  lemma {:induction false} HasLineage(rows: Table, d: Id) returns (line: seq<Id>)
    requires Consistent(rows) && d in rows
    ensures Lineage(rows, line, d) && rows[d].path == PathText(line)
    decreases |rows[d].path|
  {
    assert Fresh(rows, d);
    match rows[d].parent
    case None =>
      line := [d];
      assert PathText(line[..0]) == "/";
    case Some(p) =>
      var above := HasLineage(rows, p);
      ChainExtends(rows, above, d);
      PathExtends(above, d);
      line := above + [d];
  }

  /** The listener's local rule holds everywhere exactly when every path spells out a lineage. */
  lemma ConsistentIffRight(rows: Table)
    ensures Consistent(rows) <==> forall d :: d in rows ==> Right(rows, d)
  {
    if Consistent(rows) {
      forall d | d in rows ensures Right(rows, d) {
        var line := HasLineage(rows, d);
      }
    }
    if forall d :: d in rows ==> Right(rows, d) {
      forall d | d in rows ensures Fresh(rows, d) {
        RightIsFresh(rows, d);
      }
    }
  }

  /** A lineage without its last member is the parent's. */
  lemma LineageParent(rows: Table, line: seq<Id>, d: Id)
    requires Lineage(rows, line, d)
    ensures d in rows
    ensures if |line| == 1 then line == [d] && rows[d].parent == None
            else rows[d].parent == Some(line[|line| - 2]) && Lineage(rows, line[..|line| - 1], line[|line| - 2])
  {
  }

  lemma RightPath(rows: Table, line: seq<Id>, d: Id)
    requires Lineage(rows, line, d) && d in rows && Right(rows, d)
    ensures rows[d].path == PathText(line)
  {
    var other :| Lineage(rows, other, d) && rows[d].path == PathText(other);
    LineageUnique(rows, line, other, d);
  }

  lemma RightIsFresh(rows: Table, d: Id)
    requires d in rows && forall e :: e in rows ==> Right(rows, e)
    ensures Fresh(rows, d)
  {
    var line :| Lineage(rows, line, d) && rows[d].path == PathText(line);
    LineageParent(rows, line, d);
    if |line| == 1 {
      assert PathText(line[..0]) == "/";
    } else {
      var p := line[|line| - 2];
      LineageParent(rows, line[..|line| - 1], p);
      RightPath(rows, line[..|line| - 1], p);
    }
  }

  lemma {:induction false} LineageUnique(rows: Table, a: seq<Id>, b: seq<Id>, d: Id)
    requires Lineage(rows, a, d) && Lineage(rows, b, d)
    ensures a == b
  {
    var m, n := |a| - 1, |b| - 1;
    assert a == a[..m] + [d] && b == b[..n] + [d];
    if m > 0 && n > 0 {
      assert a[m - 1] == b[n - 1];
      LineageUnique(rows, a[..m], b[..n], a[m - 1]);
    }
  }

  lemma {:induction false} PathTextInjective(a: seq<Id>, b: seq<Id>)
    requires PathText(a) == PathText(b)
    ensures a == b
  {
    if a != [] {
      var m := |a| - 1;
      var t := PathText(a);
      assert |a| == |b|;
      var front := |t| - ID_LENGTH - 1;
      assert t[..front] == PathText(a[..m]) && t[..front] == PathText(b[..m]);
      assert t[front..front + ID_LENGTH] == a[m] && t[front..front + ID_LENGTH] == b[m];
      PathTextInjective(a[..m], b[..m]);
      assert a == a[..m] + [a[m]] && b == b[..m] + [b[m]];
    }
  }

  /** One lineage's text is a prefix of another's exactly when the lineage itself is. */
  lemma {:induction false} PathTextPrefix(a: seq<Id>, b: seq<Id>)
    requires a != []
    ensures PathText(a) <= PathText(b) <==> a <= b
    decreases |b|
  {
    if |a| == |b| {
      if PathText(a) <= PathText(b) {
        assert PathText(a) == PathText(b);
        PathTextInjective(a, b);
      }
      if a <= b {
        assert a == b;
      }
    } else if |a| < |b| {
      var n := |b| - 1;
      PathTextPrefix(a, b[..n]);
      assert PathText(b)[..|PathText(b[..n])|] == PathText(b[..n]);
      assert a <= b <==> a <= b[..n];
    }
  }

  // ----------------------------------------------------------- the main results

  /** One path is a prefix of another exactly when its department is an ancestor or the same. */
  lemma PrefixIffAncestor(rows: Table, a: Id, d: Id)
    requires Consistent(rows) && a in rows && d in rows
    ensures rows[a].path <= rows[d].path <==> AncestorOrSelf(rows, a, d)
  {
    var toA := HasLineage(rows, a);
    var toD := HasLineage(rows, d);
    PathTextPrefix(toA, toD);
    if toA <= toD {
      var line := toD[|toA| - 1..];
      ChainSuffix(rows, toD, |toA| - 1);
      assert Joins(rows, line, a, d);
    }
    if AncestorOrSelf(rows, a, d) {
      var line :| Joins(rows, line, a, d);
      ChainPath(rows, line);
    }
  }

  /** The scope condition of the list query therefore selects exactly the subtree. */
  lemma ScopeIsSubtree(rows: Table, a: Id, d: Id)
    requires Consistent(rows) && a in rows && d in rows
    ensures LikeSearch.Like(rows[d].path, rows[a].path + "%") <==> AncestorOrSelf(rows, a, d)
  {
    var line := HasLineage(rows, a);
    PathIsPlain(line);
    LikeSearch.LikePrefix(rows[d].path, rows[a].path);
    PrefixIffAncestor(rows, a, d);
  }

  lemma {:induction false} PathIsPlain(line: seq<Id>)
    ensures LikeSearch.Plain(PathText(line))
  {
    if line != [] {
      PathIsPlain(line[..|line| - 1]);
    }
  }

  /** A path fits its column exactly down to the sixth level. */
  lemma FitsIffSixDeep(rows: Table, d: Id, line: seq<Id>)
    requires Consistent(rows) && Lineage(rows, line, d)
    ensures |rows[d].path| <= PATH_LIMIT <==> |line| <= 6
  {
    ChainPath(rows, line);
  }

  ghost predicate Childless(rows: Table, d: Id) { forall e :: e in rows ==> rows[e].parent != Some(d) }

  /** Whether an edit changes a parent at all. */
  ghost predicate Moves(rows: Table, edit: Edit) {
    edit.Update? && edit.id in rows && edit.parent.Some? && edit.parent != rows[edit.id].parent
  }

  /** An edit keeps the table consistent exactly when it is refused, moves nothing, or moves a leaf elsewhere. */
  lemma EditKeepsConsistencyIff(rows: Table, edit: Edit)
    requires Consistent(rows)
    ensures Consistent(After(rows, edit))
       <==> (Apply(rows, edit).Err? || !Moves(rows, edit) || (edit.parent != Some(edit.id) && Childless(rows, edit.id)))
  {
    if Apply(rows, edit).Ok? {
      if !Moves(rows, edit) {
        StayingKeeps(rows, edit);
      } else {
        MoveKeepsIff(rows, edit);
      }
    }
  }

  lemma StayingKeeps(rows: Table, edit: Edit)
    requires Consistent(rows) && Apply(rows, edit).Ok? && !Moves(rows, edit)
    ensures Consistent(After(rows, edit))
  {
    var rows' := After(rows, edit);
    if edit.id in rows {
      assert Fresh(rows, edit.id);
      assert rows'[edit.id].path == rows[edit.id].path;
    }
    forall e | e in rows' ensures Fresh(rows', e) {
      assert e in rows ==> Fresh(rows, e);
    }
  }

  lemma MoveKeepsIff(rows: Table, edit: Edit)
    requires Consistent(rows) && Apply(rows, edit).Ok? && Moves(rows, edit)
    ensures Consistent(After(rows, edit)) <==> edit.parent != Some(edit.id) && Childless(rows, edit.id)
  {
    var rows', d, p := After(rows, edit), edit.id, edit.parent.value;
    assert rows'[d].path == rows[p].path + d + "/";
    MoveChangesPath(rows, d, p);
    if p == d {
      assert !Fresh(rows', d);
    } else if Childless(rows, d) {
      forall e | e in rows' ensures Fresh(rows', e) {
        assert Fresh(rows, e);
      }
    } else {
      var c :| c in rows && rows[c].parent == Some(d);
      assert Fresh(rows, c) && Fresh(rows, d);
      assert c != d;
      assert rows'[c] == rows[c];
      assert |rows[d].path + c + "/"| == |rows[d].path| + ID_LENGTH + 1;
      SameTail(rows[d].path, rows'[d].path, c + "/");
      assert rows[d].path + c + "/" == rows[d].path + (c + "/");
      assert rows'[d].path + c + "/" == rows'[d].path + (c + "/");
      assert !Fresh(rows', c);
    }
  }

  lemma SameTail(a: string, b: string, tail: string)
    ensures a + tail == b + tail <==> a == b
  {
    if a + tail == b + tail {
      assert a == (a + tail)[..|a|] && b == (b + tail)[..|b|];
    }
  }

  lemma MoveChangesPath(rows: Table, d: Id, p: Id)
    requires Consistent(rows) && d in rows && p in rows && rows[d].parent != Some(p)
    ensures rows[p].path + d + "/" != rows[d].path
  {
    var toD := HasLineage(rows, d);
    var toP := HasLineage(rows, p);
    var moved := toP + [d];
    PathExtends(toP, d);
    assert |toD| > 1 ==> toD[|toD| - 2] != p;
    assert moved[|moved| - 2] == p;
    if PathText(moved) == PathText(toD) {
      PathTextInjective(moved, toD);
    }
  }

  // --------------------------------------------------------------- whole runs

  ghost function Run(edits: seq<Edit>): Table {
    if edits == [] then map[] else After(Run(edits[..|edits| - 1]), edits[|edits| - 1])
  }

  /** Names are unique and parents exist. */
  ghost predicate Sound(rows: Table) {
    && (forall d, e :: d in rows && e in rows && rows[d].name == rows[e].name ==> d == e)
    && (forall d :: d in rows && rows[d].parent.Some? ==> rows[d].parent.value in rows)
  }

  lemma EditKeepsSound(rows: Table, edit: Edit)
    requires Sound(rows)
    ensures Sound(After(rows, edit)) && rows.Keys <= After(rows, edit).Keys
  {
    if Apply(rows, edit).Ok? && edit.Update? && edit.rename.Some? {
      assert !NameUsed(rows, edit.rename.value, Some(edit.id));
      assert forall e :: e in rows && e != edit.id ==> Some(e) != Some(edit.id) && rows[e].name != edit.rename.value;
    }
  }

  /** Whatever the edits, names stay unique, parents exist and no department disappears. */
  lemma {:induction false} RunStaysSound(edits: seq<Edit>, k: nat)
    requires k <= |edits|
    ensures Sound(Run(edits)) && Run(edits[..k]).Keys <= Run(edits).Keys
  {
    if edits == [] {
      assert edits[..k] == edits;
    } else {
      var front := edits[..|edits| - 1];
      if k < |edits| {
        RunStaysSound(front, k);
        assert front[..k] == edits[..k];
      } else {
        RunStaysSound(front, 0);
        assert edits[..k] == edits;
      }
      EditKeepsSound(Run(front), edits[|edits| - 1]);
    }
  }

  /** Each move in the run takes a department that is childless at that moment to another one. */
  ghost predicate MovesLeaves(edits: seq<Edit>) {
    forall i :: 0 <= i < |edits| ==> MovesLeafAt(edits, i)
  }

  ghost predicate MovesLeafAt(edits: seq<Edit>, i: nat)
    requires i < |edits|
  {
    var rows, edit := Run(edits[..i]), edits[i];
    Moves(rows, edit) ==> edit.parent != Some(edit.id) && Childless(rows, edit.id)
  }

  lemma {:induction false} RunStaysConsistent(edits: seq<Edit>)
    requires MovesLeaves(edits)
    ensures Consistent(Run(edits))
  {
    if edits != [] {
      var n := |edits| - 1;
      var front := edits[..n];
      assert MovesLeafAt(edits, n);
      forall i | 0 <= i < n ensures MovesLeafAt(front, i) {
        assert front[..i] == edits[..i];
        assert MovesLeafAt(edits, i);
      }
      RunStaysConsistent(front);
      EditKeepsConsistencyIff(Run(front), edits[n]);
    }
  }

  /** After any such run the paths index the tree. */
  lemma PathsIndexTheTree(edits: seq<Edit>, a: Id, d: Id)
    requires MovesLeaves(edits) && a in Run(edits) && d in Run(edits)
    ensures Run(edits)[a].path <= Run(edits)[d].path <==> AncestorOrSelf(Run(edits), a, d)
  {
    RunStaysConsistent(edits);
    PrefixIffAncestor(Run(edits), a, d);
  }

  // ------------------------------------------------- what an inner move breaks

  lemma {:induction false} LineagePrefix(rows: Table, line: seq<Id>, d: Id, k: nat)
    requires Lineage(rows, line, d) && k < |line|
    ensures Lineage(rows, line[..k + 1], line[k])
  {
    var n := |line| - 1;
    if k < n {
      LineageParent(rows, line, d);
      LineagePrefix(rows, line[..n], line[n - 1], k);
      assert line[..n][..k + 1] == line[..k + 1];
    } else {
      assert line[..k + 1] == line;
    }
  }

  /** Nobody is their own ancestor in a lineage. */
  lemma OnceInLineage(rows: Table, line: seq<Id>, d: Id, i: nat, j: nat)
    requires Lineage(rows, line, d) && i < j < |line|
    ensures line[i] != line[j]
  {
    LineagePrefix(rows, line, d, i);
    LineagePrefix(rows, line, d, j);
    if line[i] == line[j] {
      LineageUnique(rows, line[..i + 1], line[..j + 1], line[i]);
    }
  }

  /** `rows'` has the parents of `rows`, except perhaps for `d`. */
  ghost predicate SameParentsBut(rows: Table, rows': Table, d: Option<Id>) {
    && rows.Keys == rows'.Keys
    && forall e :: e in rows && Some(e) != d ==> rows'[e].parent == rows[e].parent
  }

  lemma {:induction false} LineageUntouched(rows: Table, rows': Table, d: Option<Id>, line: seq<Id>, e: Id)
    requires SameParentsBut(rows, rows', d) && Lineage(rows, line, e)
    requires d.Some? ==> d.value !in line
    ensures Lineage(rows', line, e)
  {
    LineageParent(rows, line, e);
    if |line| > 1 {
      LineageUntouched(rows, rows', d, line[..|line| - 1], line[|line| - 2]);
    }
  }

  /** Membership of a lineage is ancestry. */
  lemma InLineageIffAncestor(rows: Table, line: seq<Id>, a: Id, d: Id)
    requires Consistent(rows) && a in rows && Lineage(rows, line, d) && d in rows
    ensures a in line <==> AncestorOrSelf(rows, a, d)
  {
    if a in line {
      var k :| 0 <= k < |line| && line[k] == a;
      ChainSuffix(rows, line, k);
      assert Joins(rows, line[k..], a, d);
    }
    if AncestorOrSelf(rows, a, d) {
      PrefixIffAncestor(rows, a, d);
      var toA := HasLineage(rows, a);
      ChainPath(rows, line);
      PathTextPrefix(toA, line);
      assert a == line[|toA| - 1];
    }
  }

  /** A move that is neither refused nor idle. */
  ghost predicate Moved(rows: Table, edit: Edit) {
    Consistent(rows) && Moves(rows, edit) && Apply(rows, edit).Ok?
  }

  lemma MoveEffect(rows: Table, edit: Edit)
    requires Moved(rows, edit)
    ensures SameParentsBut(rows, After(rows, edit), Some(edit.id))
    ensures edit.parent.value in rows && After(rows, edit)[edit.id].parent == edit.parent
    ensures After(rows, edit)[edit.id].path == rows[edit.parent.value].path + edit.id + "/"
    ensures forall e :: e in rows && e != edit.id ==> After(rows, edit)[e] == rows[e]
  {
  }

  /** Moved outside its own subtree, a department gets a right path and keeps everyone rooted. */
  lemma MovedIsRight(rows: Table, edit: Edit) returns (line: seq<Id>)
    requires Moved(rows, edit) && edit.parent.value in rows && !AncestorOrSelf(rows, edit.id, edit.parent.value)
    ensures edit.id in After(rows, edit) && Lineage(After(rows, edit), line, edit.id)
    ensures After(rows, edit)[edit.id].path == PathText(line)
  {
    var rows', d, p := After(rows, edit), edit.id, edit.parent.value;
    MoveEffect(rows, edit);
    var above := HasLineage(rows, p);
    InLineageIffAncestor(rows, above, d, p);
    LineageUntouched(rows, rows', Some(d), above, p);
    ChainExtends(rows', above, d);
    PathExtends(above, d);
    line := above + [d];
  }

  lemma {:induction false} StillRooted(rows: Table, edit: Edit, e: Id) returns (line: seq<Id>)
    requires Moved(rows, edit) && edit.parent.value in rows && !AncestorOrSelf(rows, edit.id, edit.parent.value)
    requires e in rows
    ensures Lineage(After(rows, edit), line, e)
    decreases |rows[e].path|
  {
    MoveEffect(rows, edit);
    if e == edit.id {
      line := MovedIsRight(rows, edit);
    } else {
      assert Fresh(rows, e);
      match rows[e].parent
      case None => line := [e];
      case Some(p) =>
        var above := StillRooted(rows, edit, p);
        ChainExtends(After(rows, edit), above, e);
        line := above + [e];
    }
  }

  /** Moving a department outside its own subtree makes stale exactly its proper descendants. */
  lemma MoveStalesDescendants(rows: Table, edit: Edit, e: Id)
    requires Moved(rows, edit) && edit.parent.value in rows && !AncestorOrSelf(rows, edit.id, edit.parent.value)
    requires e in rows
    ensures e in After(rows, edit) && exists line: seq<Id> :: Lineage(After(rows, edit), line, e)
    ensures Right(After(rows, edit), e) <==> e == edit.id || !AncestorOrSelf(rows, edit.id, e)
  {
    var rows', d := After(rows, edit), edit.id;
    MoveEffect(rows, edit);
    var after := StillRooted(rows, edit, e);
    var before := HasLineage(rows, e);
    InLineageIffAncestor(rows, before, d, e);
    if e == d {
      var line := MovedIsRight(rows, edit);
    } else if d !in before {
      LineageUntouched(rows, rows', Some(d), before, e);
    } else if Right(rows', e) {
      RightPath(rows', after, e);
      PathTextInjective(before, after);
      SameLineageSameParent(rows, rows', before, d, e);
    }
  }

  lemma SameLineageSameParent(rows: Table, rows': Table, line: seq<Id>, d: Id, e: Id)
    requires Lineage(rows, line, e) && Lineage(rows', line, e) && d in line
    ensures d in rows && d in rows' && rows[d].parent == rows'[d].parent
  {
    var k :| 0 <= k < |line| && line[k] == d;
    LineagePrefix(rows, line, e, k);
    LineagePrefix(rows', line, e, k);
    LineageParent(rows, line[..k + 1], d);
    LineageParent(rows', line[..k + 1], d);
  }

  /** A move under itself or a descendant is accepted, and cuts the department off from every root. */
  lemma MoveInsideDetaches(rows: Table, edit: Edit, line: seq<Id>)
    requires Moved(rows, edit) && edit.parent.value in rows && AncestorOrSelf(rows, edit.id, edit.parent.value)
    ensures !Lineage(After(rows, edit), line, edit.id)
  {
    var rows', d, p := After(rows, edit), edit.id, edit.parent.value;
    MoveEffect(rows, edit);
    if Lineage(rows', line, d) {
      LineageParent(rows', line, d);
      var toP := HasLineage(rows, p);
      InLineageIffAncestor(rows, toP, d, p);
      var k :| 0 <= k < |toP| && toP[k] == d;
      Below(rows, rows', toP, p, d, k, line);
      LineageUnique(rows', line + toP[k + 1..], line[..|line| - 1], p);
    }
  }

  /** Under an unchanged descent from `d`, a new lineage of `d` continues downwards. */
  lemma {:induction false} Below(rows: Table, rows': Table, descent: seq<Id>, e: Id, d: Id, k: nat, line: seq<Id>)
    requires SameParentsBut(rows, rows', Some(d)) && Lineage(rows, descent, e) && Lineage(rows', line, d)
    requires k < |descent| && descent[k] == d
    ensures Lineage(rows', line + descent[k + 1..], e)
  {
    var n := |descent| - 1;
    if k == n {
      assert line + descent[k + 1..] == line;
    } else {
      OnceInLineage(rows, descent, e, k, n);
      LineageParent(rows, descent, e);
      Below(rows, rows', descent[..n], descent[n - 1], d, k, line);
      assert descent[..n][k + 1..] == descent[k + 1..n];
      ChainExtends(rows', line + descent[k + 1..n], e);
      assert line + descent[k + 1..] == line + descent[k + 1..n] + [e];
    }
  }

  /** A root, its child and its grandchild, and a second root. */
  function Sample(root: Id, child: Id, grandchild: Id, other: Id): Table {
    map[root := Row("r", None, "/" + root + "/"),
        child := Row("c", Some(root), "/" + root + "/" + child + "/"),
        grandchild := Row("g", Some(child), "/" + root + "/" + child + "/" + grandchild + "/"),
        other := Row("o", None, "/" + other + "/")]
  }

  /** Such a table is consistent, and moving the child under the second root is accepted and leaves the grandchild stale. */
  lemma InnerMoveStales(root: Id, child: Id, grandchild: Id, other: Id)
    requires Distinct([root, child, grandchild, other])
    ensures var rows, move := Sample(root, child, grandchild, other), Update(child, None, false, Some(other));
            && Consistent(rows) && Apply(rows, move).Ok? && !Consistent(After(rows, move))
            && grandchild in After(rows, move) && !Right(After(rows, move), grandchild)
  {
    var rows, move := Sample(root, child, grandchild, other), Update(child, None, false, Some(other));
    var ids := [root, child, grandchild, other];
    assert ids[0] != ids[1] && ids[0] != ids[2] && ids[0] != ids[3] && ids[1] != ids[2] && ids[1] != ids[3] && ids[2] != ids[3];
    assert Fresh(rows, root) && Fresh(rows, child) && Fresh(rows, grandchild) && Fresh(rows, other);
    EditKeepsConsistencyIff(rows, move);
    var toOther := HasLineage(rows, other);
    LineageParent(rows, toOther, other);
    InLineageIffAncestor(rows, toOther, child, other);
    assert Joins(rows, [child, grandchild], child, grandchild);
    MoveStalesDescendants(rows, move, grandchild);
  }

  /** Moving a department under itself is accepted. */
  lemma SelfMoveAccepted(root: Id)
    ensures var rows, move := map[root := Row("r", None, "/" + root + "/")], Update(root, None, false, Some(root));
            Consistent(rows) && Apply(rows, move).Ok? && forall line: seq<Id> :: !Lineage(After(rows, move), line, root)
  {
    var rows, move := map[root := Row("r", None, "/" + root + "/")], Update(root, None, false, Some(root));
    assert Fresh(rows, root);
    assert Joins(rows, [root], root, root);
    forall line: seq<Id> ensures !Lineage(After(rows, move), line, root) {
      MoveInsideDetaches(rows, move, line);
    }
  }

  // ------------------------------------------------------------- the repair

  /** Saving a row untouched runs the listener. */
  function Save(d: Id): Edit { Update(d, None, true, None) }

  ghost function Resaved(rows: Table, order: seq<Id>): Table {
    if order == [] then rows else After(Resaved(rows, order[..|order| - 1]), Save(order[|order| - 1]))
  }

  ghost predicate WithinSixLevels(rows: Table, d: Id) {
    exists line: seq<Id> :: Lineage(rows, line, d) && |line| <= 6
  }

  ghost predicate ParentFirst(rows: Table, order: seq<Id>) {
    forall i: nat :: i < |order| ==> ParentSettled(rows, order, i)
  }

  ghost predicate ParentSettled(rows: Table, order: seq<Id>, i: nat)
    requires i < |order|
  {
    order[i] in rows &&
    match rows[order[i]].parent
    case None => true
    case Some(p) => p in rows && (Right(rows, p) || p in order[..i])
  }

  lemma SaveMakesRight(rows: Table, d: Id)
    requires d in rows && WithinSixLevels(rows, d)
    requires rows[d].parent.Some? ==> rows[d].parent.value in rows && Right(rows, rows[d].parent.value)
    ensures var rows' := After(rows, Save(d));
            SameParentsBut(rows, rows', None) && Right(rows', d) && forall e :: e in rows && e != d ==> rows'[e] == rows[e]
  {
    var line: seq<Id> :| Lineage(rows, line, d) && |line| <= 6;
    LineageParent(rows, line, d);
    var path := UpdatePath(rows, d, rows[d]);
    if |line| == 1 {
      assert PathText(line[..0]) == "/";
    } else {
      RightPath(rows, line[..|line| - 1], line[|line| - 2]);
    }
    assert path == PathText(line);
    LineageUntouched(rows, After(rows, Save(d)), None, line, d);
  }

  lemma RightUntouched(rows: Table, rows': Table, e: Id)
    requires SameParentsBut(rows, rows', None) && e in rows && rows'[e] == rows[e] && Right(rows, e)
    ensures Right(rows', e)
  {
    var line: seq<Id> :| Lineage(rows, line, e) && rows[e].path == PathText(line);
    LineageUntouched(rows, rows', None, line, e);
  }

  lemma RoomUntouched(rows: Table, rows': Table, e: Id)
    requires SameParentsBut(rows, rows', None) && WithinSixLevels(rows, e)
    ensures WithinSixLevels(rows', e)
  {
    var line: seq<Id> :| Lineage(rows, line, e) && |line| <= 6;
    LineageUntouched(rows, rows', None, line, e);
  }

  lemma ParentFirstPrefix(rows: Table, order: seq<Id>)
    requires ParentFirst(rows, order) && order != []
    ensures ParentFirst(rows, order[..|order| - 1])
  {
    var front := order[..|order| - 1];
    forall i: nat | i < |front| ensures ParentSettled(rows, front, i) {
      assert ParentSettled(rows, order, i) && front[..i] == order[..i];
    }
  }

  /** The rows a sequence of saves leaves right at least. */
  ghost predicate Settled(rows: Table, order: seq<Id>, e: Id) { e in rows && (e in order || Right(rows, e)) }

  /** Re-saving rows parent first makes each of them right and spoils none. */
  lemma {:induction false} ResavingMakesRight(rows: Table, order: seq<Id>)
    requires ParentFirst(rows, order)
    requires forall d :: d in order ==> WithinSixLevels(rows, d)
    ensures SameParentsBut(rows, Resaved(rows, order), None)
    ensures forall e :: Settled(rows, order, e) ==> Right(Resaved(rows, order), e)
  {
    if order != [] {
      var n := |order| - 1;
      var front, d := order[..n], order[n];
      ParentFirstPrefix(rows, order);
      ResavingMakesRight(rows, front);
      assert ParentSettled(rows, order, n);
      OneMoreSaved(rows, Resaved(rows, front), front, d);
      forall e | Settled(rows, order, e) ensures Right(Resaved(rows, order), e) {
        assert order == front + [d];
      }
    }
  }

  lemma OneMoreSaved(rows: Table, before: Table, front: seq<Id>, d: Id)
    requires SameParentsBut(rows, before, None) && d in rows && WithinSixLevels(rows, d)
    requires rows[d].parent.Some? ==> rows[d].parent.value in rows && Right(before, rows[d].parent.value)
    requires forall e :: Settled(rows, front, e) ==> Right(before, e)
    ensures SameParentsBut(rows, After(before, Save(d)), None)
    ensures forall e :: e == d || Settled(rows, front, e) ==> Right(After(before, Save(d)), e)
  {
    RoomUntouched(rows, before, d);
    SaveMakesRight(before, d);
    forall e | e != d && Settled(rows, front, e) ensures Right(After(before, Save(d)), e) {
      RightUntouched(before, After(before, Save(d)), e);
    }
  }

  /** Re-saving everything that a move made stale, parents first, restores the index. */
  lemma ResavingRestores(rows: Table, edit: Edit, order: seq<Id>)
    requires Moved(rows, edit) && edit.parent.value in rows && !AncestorOrSelf(rows, edit.id, edit.parent.value)
    requires ParentFirst(After(rows, edit), order)
    requires forall e :: e in rows && e != edit.id && AncestorOrSelf(rows, edit.id, e) ==> e in order
    requires forall d :: d in order ==> WithinSixLevels(After(rows, edit), d)
    ensures Consistent(Resaved(After(rows, edit), order))
  {
    var rows' := After(rows, edit);
    MoveEffect(rows, edit);
    ResavingMakesRight(rows', order);
    forall e | e in Resaved(rows', order) ensures Right(Resaved(rows', order), e) {
      MoveStalesDescendants(rows, edit, e);
    }
    ConsistentIffRight(Resaved(rows', order));
  }

  // --------------------------------------------------------------- the table

  class DepartmentTable {
    var rows: Table

    constructor ()
      ensures rows == map[]
    {
      rows := map[];
    }

    method BeforeInsert(d: Id, parent: Option<Id>) returns (path: string)
      ensures path == InsertPath(rows, d, parent)
    {
      path := "/" + d + "/";
      if parent.Some? && parent.value in rows {
        path := rows[parent.value].path + d + "/";
      }
    }

    method BeforeUpdate(d: Id, row: Row) returns (path: string)
      ensures path == UpdatePath(rows, d, row)
    {
      path := row.path;
      if row.parent.None? {
        path := "/" + d + "/";
      } else if row.parent.value in rows {
        path := rows[row.parent.value].path + d + "/";
      }
    }

    method CreateDepartment(d: Id, name: string, parent: Option<Id>) returns (refusal: Option<Refusal>)
      modifies this
      ensures rows == After(old(rows), Create(d, name, parent))
      ensures refusal == RefusalOf(old(rows), Create(d, name, parent))
      ensures Creates(old(rows), rows, d, name, parent, refusal)
    {
      CreationIs(rows, d, name, parent);
      if parent.Some? && parent.value !in rows {
        return Some(ParentNotFound);
      }
      if NameUsed(rows, name, None) {
        return Some(NameTaken);
      }
      if d in rows {
        return Some(IdTaken);
      }
      var path := BeforeInsert(d, parent);
      if |path| > PATH_LIMIT {
        return Some(PathTooLong);
      }
      rows := rows[d := Row(name, parent, path)];
      refusal := None;
    }

    method UpdateDepartment(d: Id, rename: Option<string>, describes: bool, parent: Option<Id>)
      returns (refusal: Option<Refusal>)
      modifies this
      ensures rows == After(old(rows), Update(d, rename, describes, parent))
      ensures refusal == RefusalOf(old(rows), Update(d, rename, describes, parent))
      ensures Updates(old(rows), rows, d, rename, describes, parent, refusal)
    {
      UpdateIs(rows, d, rename, describes, parent);
      if d !in rows {
        return Some(NotFound);
      }
      var row := rows[d];
      if rename.Some? {
        if NameUsed(rows, rename.value, Some(d)) {
          return Some(NameTaken);
        }
        row := row.(name := rename.value);
      }
      if parent.Some? && parent != rows[d].parent {
        if parent.value !in rows {
          return Some(ParentNotFound);
        }
        row := row.(parent := parent);
      }
      if rename.Some? || describes || row.parent != rows[d].parent {
        var path := BeforeUpdate(d, row);
        if |path| > PATH_LIMIT {
          return Some(PathTooLong);
        }
        rows := rows[d := row.(path := path)];
      }
      refusal := None;
    }
  }
}
