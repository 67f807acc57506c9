// The project service: climbs the user is working towards, their status,
// and the dated attempts logged against each.

module Projects {
  import opened Wrappers
  import opened Seqs
  import opened Strings
  import opened Enums
  import opened Grades
  import opened Store

  /**
   * A validated create body. Location, target date, notes, board type and
   * board climb travel in `cols`.
   */
  datatype ProjectInput = ProjectInput(
    name: string, grade: Option<string>, gradeSystem: Option<GradeSystem>, projectType: string, cols: Cols)

  /** A validated update body: `None` is a key that was not sent; the sent date travels in `cols`. */
  datatype ProjectPatch = ProjectPatch(
    name: Option<string>, grade: Option<string>, gradeSystem: Option<GradeSystem>, projectType: Option<string>,
    status: Option<string>, sentAscentId: Option<Id>, cols: Cols)

  /** A validated attempt body; notes and the progress rating travel in `cols`. */
  datatype AttemptInput = AttemptInput(sessionId: Option<Id>, ascentId: Option<Id>, date: string, cols: Cols)

  /** `getById`: the project and its attempts. */
  datatype ProjectDetail = ProjectDetail(project: ProjectRow, attempts: seq<AttemptRow>)

  /** The status column's default. */
  const ACTIVE: string := "active"

  /** The foreign-key columns a write can be refused on. */
  const SENT_ASCENT_COLUMN: string := "sent_ascent_id"
  const ATTEMPT_SESSION_COLUMN: string := "session_id"
  const ATTEMPT_ASCENT_COLUMN: string := "ascent_id"

  /** The predicate "is project `id` of user `userId`". */
  function OwnedBy(userId: UserId, id: Id): ProjectRow -> bool {
    (q: ProjectRow) => q.id == id && q.userId == userId
  }

  /** The user owns a project with that id. */
  predicate OwnsProject(db: Db, userId: UserId, id: Id) {
    exists q | q in db.projects :: q.id == id && q.userId == userId
  }

  lemma OwnsProjectFound(db: Db, userId: UserId, id: Id)
    ensures OwnsProject(db, userId, id) <==> Any(db.projects, OwnedBy(userId, id))
  {
    if OwnsProject(db, userId, id) {
      var q :| q in db.projects && q.id == id && q.userId == userId;
      var i :| 0 <= i < |db.projects| && db.projects[i] == q;
      assert OwnedBy(userId, id)(db.projects[i]);
    }
  }

  /**
   * The normalized grade a grade and a system name stand for: a number only
   * when the grade is not empty, the system is known and lists the grade.
   */
  function NormalizedOf(grade: Option<string>, system: Option<string>): Option<int> {
    if Given(grade) && system.Some? then
      match ParseGradeSystem(system.value)
      case None => None
      case Some(g) => GradeToNumeric(grade.value, g)
    else None
  }

  /** A project's normalized grade is what its grade and system give. */
  predicate GradeInStep(q: ProjectRow) {
    q.normalizedGrade == NormalizedOf(q.grade, q.gradeSystem)
  }

  predicate GradesInStep(db: Db) {
    forall q | q in db.projects :: GradeInStep(q)
  }

  function SystemName(g: Option<GradeSystem>): Option<string> {
    if g.Some? then Some(GradeSystemName(g.value)) else None
  }

  // ---------------------------------------------------------------- list

  /** The filter of `list`: the user's projects, of the given status when one is given. */
  predicate Listed(q: ProjectRow, userId: UserId, status: Option<string>) {
    q.userId == userId && (Given(status) ==> q.status == status.value)
  }

  function UpdatedAt(q: ProjectRow): int {
    q.updatedAt
  }

  /** `list`: the user's projects, optionally of one status, most recently updated first. */
  function List(db: Db, userId: UserId, status: Option<string>): (r: seq<ProjectRow>)
    ensures forall q :: q in r <==> q in db.projects && Listed(q, userId, status)
    ensures forall i, j | 0 <= i < j < |r| :: r[i].updatedAt >= r[j].updatedAt
    ensures multiset(r) == multiset(Filter(db.projects, (q: ProjectRow) => Listed(q, userId, status)))
  {
    SortDesc(Filter(db.projects, (q: ProjectRow) => Listed(q, userId, status)), UpdatedAt)
  }

  // ---------------------------------------------------------------- attempts and getById

  /** The predicate "is an attempt of project `projectId`". */
  function OfProject(projectId: Id): AttemptRow -> bool {
    (t: AttemptRow) => t.projectId == projectId
  }

  function AttemptDate(t: AttemptRow): string {
    t.date
  }

  /** The project's attempts, latest date first (the query both `getById` and `listAttempts` run). */
  function AttemptsOf(db: Db, projectId: Id): (r: seq<AttemptRow>)
    ensures forall t :: t in r <==> t in db.attempts && t.projectId == projectId
    ensures forall i, j | 0 <= i < j < |r| :: StrLe(r[j].date, r[i].date)
    ensures multiset(r) == multiset(Filter(db.attempts, OfProject(projectId)))
  {
    SortStrDesc(Filter(db.attempts, OfProject(projectId)), AttemptDate)
  }

  /** `getById`: the user's project with that id and its attempts. */
  function GetById(db: Db, userId: UserId, id: Id): (r: Result<ProjectDetail>)
    ensures r.Err? <==> !OwnsProject(db, userId, id)
    ensures r.Err? ==> r.error == NotFound("Project")
    ensures r.Ok? ==> r.value.project in db.projects && r.value.project.id == id && r.value.project.userId == userId
    ensures r.Ok? ==> forall t :: t in r.value.attempts <==> t in db.attempts && t.projectId == id
  {
    OwnsProjectFound(db, userId, id);
    match Find(db.projects, OwnedBy(userId, id))
    case None => Err(NotFound("Project"))
    case Some(q) => Ok(ProjectDetail(q, AttemptsOf(db, id)))
  }

  /** `listAttempts`: the attempts of the user's project, latest first; 404 for a project not the user's. */
  function ListAttempts(db: Db, userId: UserId, projectId: Id): (r: Result<seq<AttemptRow>>)
    ensures r.Err? <==> !OwnsProject(db, userId, projectId)
    ensures r.Err? ==> r.error == NotFound("Project")
    ensures r.Ok? ==> forall t :: t in r.value <==> t in db.attempts && t.projectId == projectId
    ensures r.Ok? ==> forall i, j | 0 <= i < j < |r.value| :: StrLe(r.value[j].date, r.value[i].date)
  {
    OwnsProjectFound(db, userId, projectId);
    if Find(db.projects, OwnedBy(userId, projectId)).None? then Err(NotFound("Project"))
    else Ok(AttemptsOf(db, projectId))
  }

  /** The two reads agree: a project's detail carries exactly the attempts `listAttempts` returns. */
  lemma GetByIdMatchesListAttempts(db: Db, userId: UserId, id: Id)
    ensures GetById(db, userId, id).Ok? <==> ListAttempts(db, userId, id).Ok?
    ensures GetById(db, userId, id).Ok? ==> GetById(db, userId, id).value.attempts == ListAttempts(db, userId, id).value
  {
  }

  // ---------------------------------------------------------------- create

  /** The row `create` inserts: status `active`, not sent, both timestamps now. */
  function NewProject(id: Id, userId: UserId, input: ProjectInput, normalized: Option<int>, now: int): ProjectRow {
    ProjectRow(id, userId, input.name, input.grade, SystemName(input.gradeSystem), normalized,
      input.projectType, ACTIVE, None, input.cols, now, now)
  }

  /**
   * `create`: a new active project of the user. A grade and a system both
   * given fix the normalized grade; a grade its system does not list is
   * stored without one rather than refused.
   */
  function Create(db: Db, userId: UserId, input: ProjectInput, now: int): (r: (Db, ProjectRow))
    ensures r.0 == db.(projects := db.projects + [r.1], nextId := db.nextId + 1)
    ensures r.1.id == db.nextId && r.1.userId == userId && r.1.name == input.name
    ensures r.1.status == ACTIVE && r.1.sentAscentId.None?
    ensures r.1.grade == input.grade && r.1.createdAt == now && r.1.updatedAt == now
    ensures r.1.normalizedGrade.Some? <==>
      Given(input.grade) && input.gradeSystem.Some? && GradeToNumeric(input.grade.value, input.gradeSystem.value).Some?
    ensures r.1.normalizedGrade.Some? ==> r.1.normalizedGrade == GradeToNumeric(input.grade.value, input.gradeSystem.value)
  {
    var normalized := if Given(input.grade) && input.gradeSystem.Some? then GradeToNumeric(input.grade.value, input.gradeSystem.value) else None;
    var q := NewProject(db.nextId, userId, input, normalized, now);
    (db.(projects := db.projects + [q], nextId := db.nextId + 1), q)
  }

  /** A create keeps the invariant and keeps every normalized grade in step. */
  lemma CreateValid(db: Db, userId: UserId, input: ProjectInput, now: int)
    requires Valid(db) && GradesInStep(db)
    ensures Valid(Create(db, userId, input, now).0)
    ensures GradesInStep(Create(db, userId, input, now).0)
  {
    var r := Create(db, userId, input, now);
    AppendProjectValid(db, r.1);
    if input.gradeSystem.Some? {
      GradeSystemNameRoundTrip(input.gradeSystem.value);
    }
  }

  /** Round trip: a created project reads back as itself, with no attempts yet. */
  lemma CreateThenGet(db: Db, userId: UserId, input: ProjectInput, now: int)
    requires Valid(db)
    ensures var r := Create(db, userId, input, now);
      GetById(r.0, userId, r.1.id) == Ok(ProjectDetail(r.1, []))
  {
    var r := Create(db, userId, input, now);
    FindAfterMisses(db.projects, r.1, OwnedBy(userId, r.1.id));
    assert forall t | t in r.0.attempts :: t.projectId != r.1.id by {
      forall t | t in r.0.attempts ensures t.projectId != r.1.id {
        var q :| q in db.projects && q.id == t.projectId;
      }
    }
    var f := Filter(r.0.attempts, OfProject(r.1.id));
    FilterNone(r.0.attempts, OfProject(r.1.id));
    assert |AttemptsOf(r.0, r.1.id)| == |multiset(f)| == 0;
  }

  // ---------------------------------------------------------------- update

  /**
   * The normalized grade an update writes, `None` when it leaves the column
   * alone: only a sent grade with a sent system recomputes it, and an empty
   * grade clears it.
   */
  function Renormalized(patch: ProjectPatch): Option<Option<int>> {
    if patch.grade.Some? && patch.gradeSystem.Some? then
      Some(if patch.grade.value != "" then GradeToNumeric(patch.grade.value, patch.gradeSystem.value) else None)
    else None
  }

  /** `{ ...input, updatedAt: now, normalizedGrade? }` applied to a row. */
  function ApplyPatch(q: ProjectRow, patch: ProjectPatch, now: int): ProjectRow {
    q.(
      name := patch.name.GetOr(q.name),
      grade := patch.grade.OrElse(q.grade),
      gradeSystem := SystemName(patch.gradeSystem).OrElse(q.gradeSystem),
      normalizedGrade := Renormalized(patch).GetOr(q.normalizedGrade),
      projectType := patch.projectType.GetOr(q.projectType),
      status := patch.status.GetOr(q.status),
      sentAscentId := patch.sentAscentId.OrElse(q.sentAscentId),
      cols := Merge(q.cols, patch.cols),
      updatedAt := now)
  }

  /** The rows after `UPDATE projects SET ... WHERE id = ... AND user_id = ...`. */
  function PatchProjects(rows: seq<ProjectRow>, userId: UserId, id: Id, patch: ProjectPatch, now: int): (r: seq<ProjectRow>)
    ensures |r| == |rows|
    ensures forall i | 0 <= i < |rows| :: r[i].id == rows[i].id && r[i].userId == rows[i].userId
    ensures forall i | 0 <= i < |rows| && !OwnedBy(userId, id)(rows[i]) :: r[i] == rows[i]
    ensures forall i | 0 <= i < |rows| && OwnedBy(userId, id)(rows[i]) :: r[i] == ApplyPatch(rows[i], patch, now)
  {
    Map(rows, (q: ProjectRow) => if q.id == id && q.userId == userId then ApplyPatch(q, patch, now) else q)
  }

  /**
   * `update`: the user's project with that id takes the sent keys and a new
   * updatedAt; otherwise 404 and nothing written. A sent ascent id that names
   * no ascent is refused by the store's foreign key, and nothing is written.
   */
  function Update(db: Db, userId: UserId, id: Id, patch: ProjectPatch, now: int): (r: Effect<ProjectRow>)
    ensures !OwnsProject(db, userId, id) ==> r == Effect(db, Err(NotFound("Project")))
    ensures OwnsProject(db, userId, id) && !AscentLinkOk(db, patch.sentAscentId) ==>
      r == Effect(db, Err(ForeignKeyViolation(SENT_ASCENT_COLUMN)))
    ensures r.result.Ok? <==> OwnsProject(db, userId, id) && AscentLinkOk(db, patch.sentAscentId)
    ensures r.result.Ok? ==>
      && r.db == db.(projects := PatchProjects(db.projects, userId, id, patch, now))
      && r.result.value in r.db.projects
      && r.result.value.id == id && r.result.value.userId == userId && r.result.value.updatedAt == now
  {
    if !OwnsProject(db, userId, id) then Effect(db, Err(NotFound("Project")))
    else if !AscentLinkOk(db, patch.sentAscentId) then Effect(db, Err(ForeignKeyViolation(SENT_ASCENT_COLUMN)))
    else
      var rows := PatchProjects(db.projects, userId, id, patch, now);
      assert Any(rows, OwnedBy(userId, id)) by {
        var q :| q in db.projects && q.id == id && q.userId == userId;
        var i :| 0 <= i < |db.projects| && db.projects[i] == q;
        assert OwnedBy(userId, id)(rows[i]);
      }
      Effect(db.(projects := rows), Ok(Find(rows, OwnedBy(userId, id)).value))
  }

  /**
   * The three outcomes for the normalized grade of an updated project: a
   * sent grade with a sent system recomputes it (an empty or unlisted grade
   * clears it); anything else leaves it as it was.
   */
  lemma UpdateNormalizedGrade(q: ProjectRow, patch: ProjectPatch, now: int)
    ensures var u := ApplyPatch(q, patch, now);
      && (patch.grade.Some? && patch.grade.value != "" && patch.gradeSystem.Some? ==>
            u.normalizedGrade == GradeToNumeric(patch.grade.value, patch.gradeSystem.value))
      && (patch.grade == Some("") && patch.gradeSystem.Some? ==> u.normalizedGrade.None?)
      && (patch.grade.None? || patch.gradeSystem.None? ==> u.normalizedGrade == q.normalizedGrade)
  {
  }

  /** A patch carrying the grade together with its system, or neither, keeps a project's normalized grade in step. */
  lemma PatchKeepsGradeInStep(q: ProjectRow, patch: ProjectPatch, now: int)
    requires GradeInStep(q)
    requires patch.grade.Some? <==> patch.gradeSystem.Some?
    ensures GradeInStep(ApplyPatch(q, patch, now))
  {
    if patch.gradeSystem.Some? {
      GradeSystemNameRoundTrip(patch.gradeSystem.value);
    }
  }

  /** An update keeps the invariant and, with grade and system sent together, keeps normalized grades in step. */
  lemma UpdateValid(db: Db, userId: UserId, id: Id, patch: ProjectPatch, now: int)
    requires Valid(db) && GradesInStep(db)
    requires patch.grade.Some? <==> patch.gradeSystem.Some?
    ensures Valid(Update(db, userId, id, patch, now).db)
    ensures GradesInStep(Update(db, userId, id, patch, now).db)
  {
    var r := Update(db, userId, id, patch, now);
    if r.result.Ok? {
      forall q | q in r.db.projects ensures AscentLinkOk(db, q.sentAscentId) {
        var i := IndexOf(r.db.projects, q);
        assert db.projects[i] in db.projects;
      }
      RewriteProjectsValid(db, r.db);
      PatchProjectsInStep(db.projects, userId, id, patch, now);
    }
  }

  /** The row-level step of the lemma above. */
  lemma PatchProjectsInStep(rows: seq<ProjectRow>, userId: UserId, id: Id, patch: ProjectPatch, now: int)
    requires forall q | q in rows :: GradeInStep(q)
    requires patch.grade.Some? <==> patch.gradeSystem.Some?
    ensures forall q | q in PatchProjects(rows, userId, id, patch, now) :: GradeInStep(q)
  {
    var out := PatchProjects(rows, userId, id, patch, now);
    forall q | q in out ensures GradeInStep(q) {
      var i :| 0 <= i < |out| && out[i] == q;
      assert rows[i] in rows;
      if OwnedBy(userId, id)(rows[i]) {
        PatchKeepsGradeInStep(rows[i], patch, now);
      }
    }
  }

  /** Round trip: after an update, reading the project gives the updated row and the same attempts. */
  lemma UpdateThenGet(db: Db, userId: UserId, id: Id, patch: ProjectPatch, now: int)
    requires Update(db, userId, id, patch, now).result.Ok?
    ensures var r := Update(db, userId, id, patch, now);
      && GetById(r.db, userId, id) == Ok(ProjectDetail(r.result.value, AttemptsOf(db, id)))
      && r.result.value == ApplyPatch(GetById(db, userId, id).value.project, patch, now)
  {
    var r := Update(db, userId, id, patch, now);
    FindRewrite(db.projects, r.db.projects, OwnedBy(userId, id), (q: ProjectRow) => ApplyPatch(q, patch, now));
  }

  // ---------------------------------------------------------------- remove

  /** `remove`: the user's project goes with its attempts; otherwise 404 and nothing deleted. */
  function Remove(db: Db, userId: UserId, id: Id): (r: Effect<()>)
    ensures !OwnsProject(db, userId, id) ==> r == Effect(db, Err(NotFound("Project")))
    ensures r.result.Ok? <==> OwnsProject(db, userId, id)
    ensures r.result.Ok? ==>
      && (forall q :: q in r.db.projects <==> q in db.projects && q.id != id)
      && (forall t :: t in r.db.attempts <==> t in db.attempts && t.projectId != id)
      && r.db.sessions == db.sessions && r.db.ascents == db.ascents
  {
    if !OwnsProject(db, userId, id) then Effect(db, Err(NotFound("Project")))
    else Effect(DeleteProject(db, id), Ok(()))
  }

  /** A remove keeps the invariant, and the project no longer reads back. */
  lemma RemoveThenGet(db: Db, userId: UserId, id: Id)
    requires Valid(db)
    ensures Valid(Remove(db, userId, id).db)
    ensures Remove(db, userId, id).result.Ok? ==> GetById(Remove(db, userId, id).db, userId, id) == Err(NotFound("Project"))
  {
    if OwnsProject(db, userId, id) {
      DeleteProjectValid(db, id);
    }
  }

  // ---------------------------------------------------------------- addAttempt

  /** Both links of an attempt body name existing rows. */
  predicate AttemptLinksOk(db: Db, input: AttemptInput) {
    SessionLinkOk(db, input.sessionId) && AscentLinkOk(db, input.ascentId)
  }

  /**
   * `addAttempt`: a new attempt of the user's project; otherwise 404 and
   * nothing inserted. A session or ascent id that names no row is refused by
   * the store's foreign key, and nothing is inserted.
   */
  function AddAttempt(db: Db, userId: UserId, projectId: Id, input: AttemptInput, now: int): (r: Effect<AttemptRow>)
    ensures !OwnsProject(db, userId, projectId) ==> r == Effect(db, Err(NotFound("Project")))
    ensures OwnsProject(db, userId, projectId) && !AttemptLinksOk(db, input) ==> r.db == db && r.result.Err?
    ensures r.result == Err(ForeignKeyViolation(ATTEMPT_SESSION_COLUMN)) ==> !SessionLinkOk(db, input.sessionId)
    ensures r.result == Err(ForeignKeyViolation(ATTEMPT_ASCENT_COLUMN)) ==> !AscentLinkOk(db, input.ascentId)
    ensures r.result.Err? ==>
      r.result.error in {NotFound("Project"), ForeignKeyViolation(ATTEMPT_SESSION_COLUMN), ForeignKeyViolation(ATTEMPT_ASCENT_COLUMN)}
    ensures r.result.Ok? <==> OwnsProject(db, userId, projectId) && AttemptLinksOk(db, input)
    ensures r.result.Ok? ==>
      && r.db == db.(attempts := db.attempts + [r.result.value], nextId := db.nextId + 1)
      && r.result.value.id == db.nextId && r.result.value.projectId == projectId
      && r.result.value.date == input.date && r.result.value.sessionId == input.sessionId
      && r.result.value.ascentId == input.ascentId
  {
    if !OwnsProject(db, userId, projectId) then Effect(db, Err(NotFound("Project")))
    else if !SessionLinkOk(db, input.sessionId) then Effect(db, Err(ForeignKeyViolation(ATTEMPT_SESSION_COLUMN)))
    else if !AscentLinkOk(db, input.ascentId) then Effect(db, Err(ForeignKeyViolation(ATTEMPT_ASCENT_COLUMN)))
    else
      var t := AttemptRow(db.nextId, projectId, input.sessionId, input.ascentId, input.date, input.cols, now);
      Effect(db.(attempts := db.attempts + [t], nextId := db.nextId + 1), Ok(t))
  }

  /** An attempt added is listed with the project's earlier attempts, and the invariant holds. */
  lemma AddAttemptThenList(db: Db, userId: UserId, projectId: Id, input: AttemptInput, now: int)
    requires Valid(db)
    ensures var r := AddAttempt(db, userId, projectId, input, now);
      && Valid(r.db)
      && (r.result.Ok? ==>
            && ListAttempts(r.db, userId, projectId).Ok?
            && multiset(ListAttempts(r.db, userId, projectId).value)
               == multiset(ListAttempts(db, userId, projectId).value) + multiset{r.result.value})
  {
    var r := AddAttempt(db, userId, projectId, input, now);
    if r.result.Ok? {
      var t := r.result.value;
      assert ProjectExists(db, projectId);
      AppendAttemptValid(db, t);
      FilterSnoc(db.attempts, t, OfProject(projectId));
      assert r.db.projects == db.projects;
    }
  }
}
