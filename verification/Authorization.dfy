/** Case access: the per-case decision and the SQL query that lists visible cases. */
module Authorization {
  import opened Basics
  import opened LikeSearch

  datatype CaseStatus = Open | UnderInvestigation | Submitted | UnderTrial | Closed | Archived

  /** `MUTABLE_CASE_STATUSES`. */
  const MUTABLE: set<CaseStatus> := {Open, UnderInvestigation, Submitted}

  datatype Permission =
    | CaseView | CaseCreate | CaseUpdate | DocumentView | DocumentUpload
    | EvidenceView | EvidenceCreate | EvidenceTransfer | EvidenceAnalyze | EvidenceSeal | EvidenceSubmit | EvidenceArchive
    | AuditView | UserManage

  /** The actions that need contributor access to a case that is still open for changes. */
  const WRITES: set<Permission> :=
    {CaseUpdate, DocumentUpload, EvidenceCreate, EvidenceTransfer, EvidenceSeal, EvidenceAnalyze, EvidenceSubmit}

  datatype Level = Read | Contribute | Manage {
    function Rank(): nat {
      match this
      case Read => 1
      case Contribute => 2
      case Manage => 3
    }
  }

  datatype Via = ByRole | AsCreator | ByAssignment | ByScope

  datatype Access = Access(level: Level, via: Via)

  /** A user with the permissions of their role and the path of their department, if any. */
  datatype User = User(id: string, admin: bool, permissions: set<Permission>, departmentPath: Option<string>)

  datatype Case = Case(id: string, status: CaseStatus, createdBy: string, departmentId: Option<string>)

  datatype Assignment = Assignment(caseId: string, userId: string, level: Level)

  datatype Department = Department(id: string, path: string)

  datatype Database = Database(cases: seq<Case>, assignments: seq<Assignment>, departments: seq<Department>) {
    /** Primary keys, `uq_case_assignment` and the foreign key of a case's department. */
    ghost predicate Valid() {
      && (forall i, j :: 0 <= i < j < |cases| ==> cases[i].id != cases[j].id)
      && (forall i, j :: 0 <= i < j < |departments| ==> departments[i].id != departments[j].id)
      && (forall i, j :: 0 <= i < j < |assignments| ==>
            assignments[i].caseId != assignments[j].caseId || assignments[i].userId != assignments[j].userId)
      && (forall c :: c in cases && c.departmentId.Some? ==>
            exists d :: d in departments && d.id == c.departmentId.value)
    }
  }

  // ---------------------------------------------------- the per-case decision

  function FindAssignment(rows: seq<Assignment>, caseId: string, userId: string): (r: Option<Level>)
    ensures r.None? <==> forall a :: a in rows ==> a.caseId != caseId || a.userId != userId
    ensures r.Some? ==> Assignment(caseId, userId, r.value) in rows
  {
    if rows == [] then None
    else if rows[0].caseId == caseId && rows[0].userId == userId then Some(rows[0].level)
    else FindAssignment(rows[1..], caseId, userId)
  }

  /** The path of a case's department; `None` for a case without one. */
  function DepartmentPath(rows: seq<Department>, id: Option<string>): (r: Option<string>)
    ensures r.Some? ==> id.Some? && Department(id.value, r.value) in rows
    ensures r.None? && id.Some? ==> forall d :: d in rows ==> d.id != id.value
  {
    if id.None? || rows == [] then None
    else if rows[0].id == id.value then Some(rows[0].path)
    else DepartmentPath(rows[1..], id)
  }

  predicate InScope(db: Database, u: User, c: Case) {
    var path := DepartmentPath(db.departments, c.departmentId);
    CaseView in u.permissions && u.departmentPath.Some? && path.Some? && u.departmentPath.value <= path.value
  }

  /** `_resolve_case_access`: the first rule that applies. */
  function Resolve(db: Database, u: User, c: Case): Option<Access> {
    if u.admin then Some(Access(Manage, ByRole))
    else if c.createdBy == u.id then Some(Access(Manage, AsCreator))
    else
      match FindAssignment(db.assignments, c.id, u.id)
      case Some(level) => Some(Access(level, ByAssignment))
      case None => if InScope(db, u, c) then Some(Access(Read, ByScope)) else None
  }

  /** What one user may bring to bear on one case. */
  datatype Authority = Authority(admin: bool, permissions: set<Permission>, access: Option<Level>)

  function AuthorityOf(db: Database, u: User, c: Case): Authority {
    Authority(u.admin, u.permissions, match Resolve(db, u, c) case None => None case Some(a) => Some(a.level))
  }

  /** `_can` once access is resolved. */
  predicate Allows(a: Authority, action: Permission, status: CaseStatus) {
    && (action in a.permissions || a.admin)
    && a.access.Some?
    && (action in WRITES ==> a.access.value.Rank() >= Contribute.Rank() && status in MUTABLE)
  }

  predicate Can(db: Database, u: User, action: Permission, c: Case) {
    Allows(AuthorityOf(db, u, c), action, c.status)
  }

  /** Every level some rule grants. */
  ghost function Grants(db: Database, u: User, c: Case): set<Level> {
    (if u.admin then {Manage} else {})
    + (if c.createdBy == u.id then {Manage} else {})
    + (set a | a in db.assignments && a.caseId == c.id && a.userId == u.id :: a.level)
    + (if InScope(db, u, c) then {Read} else {})
  }

  /** First match is best match: the resolved level is the highest of all the grants that apply. */
  lemma FirstMatchIsHighest(db: Database, u: User, c: Case)
    requires db.Valid()
    ensures Resolve(db, u, c).None? <==> Grants(db, u, c) == {}
    ensures Resolve(db, u, c).Some? ==>
              var level := Resolve(db, u, c).value.level;
              level in Grants(db, u, c) && forall g :: g in Grants(db, u, c) ==> g.Rank() <= level.Rank()
  {
    var found := FindAssignment(db.assignments, c.id, u.id);
    forall a | a in db.assignments && a.caseId == c.id && a.userId == u.id
      ensures found == Some(a.level)
    {
      var i :| 0 <= i < |db.assignments| && db.assignments[i] == a;
      var j :| 0 <= j < |db.assignments| && db.assignments[j] == Assignment(c.id, u.id, found.value);
    }
    if found.Some? {
      var a := Assignment(c.id, u.id, found.value);
      assert a in db.assignments && a.level in Grants(db, u, c);
    }
    if InScope(db, u, c) {
      assert Read in Grants(db, u, c);
    }
  }

  // ------------------------------------------------- who may do what, in full

  lemma LiteralSets()
    ensures WRITES
         == {CaseUpdate, DocumentUpload, EvidenceCreate, EvidenceTransfer, EvidenceSeal, EvidenceAnalyze, EvidenceSubmit}
    ensures MUTABLE == {Open, UnderInvestigation, Submitted}
  {
  }

  /** The permission itself, which an administrator does not need. */
  ghost predicate Holds(u: User, action: Permission) { u.admin || action in u.permissions }

  /** In charge of the case, or assigned to it with more than read access. */
  ghost predicate Contributes(db: Database, u: User, c: Case) {
    || u.admin || c.createdBy == u.id
    || Assignment(c.id, u.id, Contribute) in db.assignments || Assignment(c.id, u.id, Manage) in db.assignments
  }

  /** The case's department lies in the subtree of the user's, and the role may view cases. */
  ghost predicate Oversees(db: Database, u: User, c: Case) {
    && CaseView in u.permissions && u.departmentPath.Some? && c.departmentId.Some?
    && exists d :: d in db.departments && d.id == c.departmentId.value && u.departmentPath.value <= d.path
  }

  lemma OverseesIff(db: Database, u: User, c: Case)
    requires db.Valid()
    ensures Oversees(db, u, c) <==> InScope(db, u, c)
  {
    if Oversees(db, u, c) {
      var d :| d in db.departments && d.id == c.departmentId.value && u.departmentPath.value <= d.path;
      OneDepartment(db, d, c.departmentId);
    }
  }

  /** No more than one assignment per case and user, so the one found is the one there is. */
  lemma AssignmentFoundIff(db: Database, caseId: string, userId: string, level: Level)
    requires db.Valid()
    ensures FindAssignment(db.assignments, caseId, userId) == Some(level) <==> Assignment(caseId, userId, level) in db.assignments
  {
    var found := FindAssignment(db.assignments, caseId, userId);
    if Assignment(caseId, userId, level) in db.assignments {
      var i :| 0 <= i < |db.assignments| && db.assignments[i] == Assignment(caseId, userId, level);
      assert found.Some?;
      var j :| 0 <= j < |db.assignments| && db.assignments[j] == Assignment(caseId, userId, found.value);
    }
  }

  /** Writing needs the permission, a case open for changes, and more than read access to it. */
  lemma CanWriteIff(db: Database, u: User, action: Permission, c: Case)
    requires db.Valid()
    requires action in
               {CaseUpdate, DocumentUpload, EvidenceCreate, EvidenceTransfer, EvidenceSeal, EvidenceAnalyze, EvidenceSubmit}
    ensures Can(db, u, action, c)
       <==> Holds(u, action) && c.status in {Open, UnderInvestigation, Submitted} && Contributes(db, u, c)
  {
    AssignmentFoundIff(db, c.id, u.id, Contribute);
    AssignmentFoundIff(db, c.id, u.id, Manage);
  }

  /** Any other action needs the permission and some access. */
  lemma CanReadIff(db: Database, u: User, action: Permission, c: Case)
    requires db.Valid()
    requires action !in
               {CaseUpdate, DocumentUpload, EvidenceCreate, EvidenceTransfer, EvidenceSeal, EvidenceAnalyze, EvidenceSubmit}
    ensures Can(db, u, action, c)
       <==> && Holds(u, action)
            && (Contributes(db, u, c) || Assignment(c.id, u.id, Read) in db.assignments || Oversees(db, u, c))
  {
    AssignmentFoundIff(db, c.id, u.id, Read);
    AssignmentFoundIff(db, c.id, u.id, Contribute);
    AssignmentFoundIff(db, c.id, u.id, Manage);
    OverseesIff(db, u, c);
    var found := FindAssignment(db.assignments, c.id, u.id);
    assert found.Some? ==> found.value == Read || found.value == Contribute || found.value == Manage;
    assert Resolve(db, u, c).Some? <==> u.admin || c.createdBy == u.id || found.Some? || InScope(db, u, c);
    assert Can(db, u, action, c) <==> Holds(u, action) && Resolve(db, u, c).Some?;
  }

  /** The same once access has been resolved. */
  lemma AllowsIff(a: Authority, action: Permission, status: CaseStatus)
    ensures Allows(a, action, status)
       <==> && (a.admin || action in a.permissions)
            && if action in
                  {CaseUpdate, DocumentUpload, EvidenceCreate, EvidenceTransfer, EvidenceSeal, EvidenceAnalyze, EvidenceSubmit}
               then a.access in {Some(Contribute), Some(Manage)} && status in {Open, UnderInvestigation, Submitted}
               else a.access != None
  {
  }

  // ---------------------------------------------------------------- the query

  /** SQL's three truth values. */
  datatype Truth = Yes | No | Unknown

  function Or(a: Truth, b: Truth): Truth {
    if a.Yes? || b.Yes? then Yes else if a.No? && b.No? then No else Unknown
  }

  function Test(b: bool): Truth { if b then Yes else No }

  /** A row of `cases LEFT JOIN case_assignments LEFT JOIN departments`; `None` stands for NULL columns. */
  datatype Joined = Joined(c: Case, assignment: Option<Assignment>, department: Option<Department>)

  function MatchingAssignments(rows: seq<Assignment>, caseId: string): seq<Option<Assignment>> {
    if rows == [] then []
    else (if rows[0].caseId == caseId then [Some(rows[0])] else []) + MatchingAssignments(rows[1..], caseId)
  }

  function MatchingDepartments(rows: seq<Department>, id: Option<string>): seq<Option<Department>> {
    if rows == [] then []
    else (if id == Some(rows[0].id) then [Some(rows[0])] else []) + MatchingDepartments(rows[1..], id)
  }

  /** An outer join keeps the left row, with NULLs, when nothing matches. */
  function OrNull<T>(matches: seq<Option<T>>): seq<Option<T>> {
    if matches == [] then [None] else matches
  }

  function Pairs(c: Case, assignments: seq<Option<Assignment>>, departments: seq<Option<Department>>): seq<Joined> {
    if assignments == [] then []
    else seq(|departments|, i requires 0 <= i < |departments| => Joined(c, assignments[0], departments[i]))
         + Pairs(c, assignments[1..], departments)
  }

  function JoinedRows(db: Database, cases: seq<Case>): seq<Joined> {
    if cases == [] then []
    else Pairs(cases[0], OrNull(MatchingAssignments(db.assignments, cases[0].id)),
               OrNull(MatchingDepartments(db.departments, cases[0].departmentId)))
         + JoinedRows(db, cases[1..])
  }

  /** The WHERE clause for a user who is not an administrator. */
  function Where(u: User, row: Joined): Truth {
    var mine := Test(row.c.createdBy == u.id);
    var member := if row.assignment.None? then Unknown else Test(row.assignment.value.userId == u.id);
    var scoped := if row.department.None? then Unknown else Test(Like(row.department.value.path, u.departmentPath.GetOr("") + "%"));
    if CaseView in u.permissions && u.departmentPath.Some? then Or(Or(mine, member), scoped) else Or(mine, member)
  }

  function Selected(u: User, rows: seq<Joined>): seq<string> {
    if rows == [] then []
    else (if Where(u, rows[0]) == Yes then [rows[0].c.id] else []) + Selected(u, rows[1..])
  }

  /** `SELECT DISTINCT`. */
  function Unique(ids: seq<string>): seq<string> {
    if ids == [] then []
    else
      var rest := Unique(ids[1..]);
      if ids[0] in rest then rest else [ids[0]] + rest
  }

  /** `get_authorized_cases_query`. */
  function VisibleCases(db: Database, u: User): seq<string> {
    if u.admin then seq(|db.cases|, i requires 0 <= i < |db.cases| => db.cases[i].id)
    else Unique(Selected(u, JoinedRows(db, db.cases)))
  }

  // -------------------------------------------------- the two forms agree

  lemma {:induction false} UniqueIs(ids: seq<string>)
    ensures forall x :: x in Unique(ids) <==> x in ids
    ensures Distinct(Unique(ids))
  {
    if ids != [] {
      UniqueIs(ids[1..]);
      assert ids == [ids[0]] + ids[1..];
    }
  }

  lemma {:induction false} SelectedIs(u: User, rows: seq<Joined>, id: string)
    ensures id in Selected(u, rows) <==> exists r :: r in rows && Where(u, r) == Yes && r.c.id == id
  {
    if rows != [] {
      SelectedIs(u, rows[1..], id);
      assert rows == [rows[0]] + rows[1..];
      assert rows[0] in rows;
    }
  }

  lemma {:induction false} AssignmentsAre(rows: seq<Assignment>, caseId: string)
    ensures forall a :: a in MatchingAssignments(rows, caseId) <==> a.Some? && a.value in rows && a.value.caseId == caseId
  {
    if rows != [] {
      AssignmentsAre(rows[1..], caseId);
      assert rows == [rows[0]] + rows[1..];
    }
  }

  lemma {:induction false} DepartmentsAre(rows: seq<Department>, id: Option<string>)
    ensures forall d :: d in MatchingDepartments(rows, id) <==> d.Some? && d.value in rows && id == Some(d.value.id)
  {
    if rows != [] {
      DepartmentsAre(rows[1..], id);
      assert rows == [rows[0]] + rows[1..];
    }
  }

  lemma {:induction false} PairsAre(c: Case, assignments: seq<Option<Assignment>>, departments: seq<Option<Department>>)
    ensures forall r :: r in Pairs(c, assignments, departments) <==>
                        r.c == c && r.assignment in assignments && r.department in departments
  {
    if assignments != [] {
      PairsAre(c, assignments[1..], departments);
      var first := seq(|departments|, i requires 0 <= i < |departments| => Joined(c, assignments[0], departments[i]));
      forall r ensures r in first <==> r.c == c && r.assignment == assignments[0] && r.department in departments {
        if r.c == c && r.assignment == assignments[0] && r.department in departments {
          var i :| 0 <= i < |departments| && departments[i] == r.department;
          assert first[i] == r;
        }
      }
      assert assignments == [assignments[0]] + assignments[1..];
    }
  }

  ghost predicate JoinsWith(db: Database, r: Joined) {
    && r.assignment in OrNull(MatchingAssignments(db.assignments, r.c.id))
    && r.department in OrNull(MatchingDepartments(db.departments, r.c.departmentId))
  }

  lemma {:induction false} JoinedAre(db: Database, cases: seq<Case>)
    ensures forall r :: r in JoinedRows(db, cases) <==> r.c in cases && JoinsWith(db, r)
  {
    if cases != [] {
      JoinedAre(db, cases[1..]);
      PairsAre(cases[0], OrNull(MatchingAssignments(db.assignments, cases[0].id)),
               OrNull(MatchingDepartments(db.departments, cases[0].departmentId)));
      assert cases == [cases[0]] + cases[1..];
    }
  }

  lemma PassingRowGivesAccess(db: Database, u: User, r: Joined)
    requires db.Valid() && r.c in db.cases && !u.admin && JoinsWith(db, r) && Where(u, r) == Yes
    requires u.departmentPath.Some? ==> Plain(u.departmentPath.value)
    ensures Resolve(db, u, r.c).Some?
  {
    AssignmentsAre(db.assignments, r.c.id);
    DepartmentsAre(db.departments, r.c.departmentId);
    if r.department.Some? {
      OneDepartment(db, r.department.value, r.c.departmentId);
      if u.departmentPath.Some? { LikePrefix(r.department.value.path, u.departmentPath.value); }
    }
  }

  lemma SomeAssignmentRow(db: Database, u: User, c: Case) returns (a: Option<Assignment>)
    ensures a in OrNull(MatchingAssignments(db.assignments, c.id))
    ensures var found := FindAssignment(db.assignments, c.id, u.id);
            found.Some? ==> a == Some(Assignment(c.id, u.id, found.value))
  {
    AssignmentsAre(db.assignments, c.id);
    var found := FindAssignment(db.assignments, c.id, u.id);
    a := if found.Some? then Some(Assignment(c.id, u.id, found.value))
         else OrNull(MatchingAssignments(db.assignments, c.id))[0];
  }

  lemma SomeDepartmentRow(db: Database, c: Case) returns (d: Option<Department>)
    ensures d in OrNull(MatchingDepartments(db.departments, c.departmentId))
    ensures var path := DepartmentPath(db.departments, c.departmentId);
            path.Some? ==> d == Some(Department(c.departmentId.value, path.value))
  {
    DepartmentsAre(db.departments, c.departmentId);
    var path := DepartmentPath(db.departments, c.departmentId);
    d := if path.Some? then Some(Department(c.departmentId.value, path.value))
         else OrNull(MatchingDepartments(db.departments, c.departmentId))[0];
  }

  lemma AccessGivesPassingRow(db: Database, u: User, c: Case) returns (r: Joined)
    requires !u.admin && Resolve(db, u, c).Some?
    requires u.departmentPath.Some? ==> Plain(u.departmentPath.value)
    ensures r.c == c && JoinsWith(db, r) && Where(u, r) == Yes
  {
    var a := SomeAssignmentRow(db, u, c);
    var d := SomeDepartmentRow(db, c);
    if d.Some? && u.departmentPath.Some? { LikePrefix(d.value.path, u.departmentPath.value); }
    r := Joined(c, a, d);
  }

  lemma OneDepartment(db: Database, d: Department, id: Option<string>)
    requires db.Valid() && d in db.departments && id == Some(d.id)
    ensures DepartmentPath(db.departments, id) == Some(d.path)
  {
    var path := DepartmentPath(db.departments, id);
    var i :| 0 <= i < |db.departments| && db.departments[i] == d;
    var j :| 0 <= j < |db.departments| && db.departments[j] == Department(d.id, path.value);
  }

  lemma ListedIffAccess(db: Database, u: User, c: Case)
    requires db.Valid() && c in db.cases
    requires u.departmentPath.Some? ==> Plain(u.departmentPath.value)
    ensures c.id in VisibleCases(db, u) <==> Resolve(db, u, c).Some?
  {
    if u.admin {
      var i :| 0 <= i < |db.cases| && db.cases[i] == c;
      assert VisibleCases(db, u)[i] == c.id;
    } else {
      var rows := JoinedRows(db, db.cases);
      UniqueIs(Selected(u, rows));
      SelectedIs(u, rows, c.id);
      JoinedAre(db, db.cases);
      forall r | r in rows && Where(u, r) == Yes && r.c.id == c.id ensures Resolve(db, u, c).Some? {
        SameCase(db, r.c, c);
        PassingRowGivesAccess(db, u, r);
      }
      if Resolve(db, u, c).Some? {
        var r := AccessGivesPassingRow(db, u, c);
        assert r in rows;
      }
    }
  }

  lemma SameCase(db: Database, c: Case, d: Case)
    requires db.Valid() && c in db.cases && d in db.cases && c.id == d.id
    ensures c == d
  {
  }

  /** The user neither created the case nor is assigned to it. */
  ghost predicate Unconnected(db: Database, u: User, c: Case) {
    c.createdBy != u.id && forall a :: a in db.assignments && a.caseId == c.id ==> a.userId != u.id
  }

  /**
   * The listing query and the per-case check agree on a case exactly for administrators, for roles that hold
   * CASE_VIEW, and for users who neither created it nor are assigned to it; every other user is listed cases
   * the check refuses.
   */
  lemma QueryAgreesWithCheck(db: Database, u: User, c: Case)
    requires db.Valid() && c in db.cases
    requires u.departmentPath.Some? ==> Plain(u.departmentPath.value)
    ensures (c.id in VisibleCases(db, u) <==> Can(db, u, CaseView, c))
       <==> (u.admin || CaseView in u.permissions || Unconnected(db, u, c))
  {
    ListedIffAccess(db, u, c);
    if Unconnected(db, u, c) {
      assert FindAssignment(db.assignments, c.id, u.id).None?;
    }
  }

  /** A creator whose role holds nothing is listed the case and then refused it. */
  lemma CreatorListedYetRefused()
    ensures var c := Case("c", Open, "u", None);
            var u := User("u", false, {}, None);
            var db := Database([c], [], []);
            db.Valid() && c.id in VisibleCases(db, u) && !Can(db, u, CaseView, c)
  {
    var c := Case("c", Open, "u", None);
    var u := User("u", false, {}, None);
    var db := Database([c], [], []);
    QueryAgreesWithCheck(db, u, c);
  }

  /** The query lists only cases, and each once. */
  lemma QueryListsCases(db: Database, u: User)
    requires db.Valid()
    ensures Distinct(VisibleCases(db, u))
    ensures forall id :: id in VisibleCases(db, u) ==> exists c :: c in db.cases && c.id == id
  {
    if !u.admin {
      var rows := JoinedRows(db, db.cases);
      UniqueIs(Selected(u, rows));
      JoinedAre(db, db.cases);
      forall id | id in VisibleCases(db, u) ensures exists c :: c in db.cases && c.id == id {
        SelectedIs(u, rows, id);
        var r :| r in rows && Where(u, r) == Yes && r.c.id == id;
        assert r.c in db.cases;
      }
    }
  }
}
