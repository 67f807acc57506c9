// The ascent service: logging a climb into one of the user's sessions,
// editing it, deleting it, and listing a session's climbs in their order.

module Ascents {
  import opened Wrappers
  import opened Seqs
  import opened Enums
  import opened Grades
  import opened Store

  /**
   * A validated create body. Columns no rule here reads (wall angle, hold
   * types, rating) travel in `cols`.
   */
  datatype AscentInput = AscentInput(
    name: Option<string>, grade: string, gradeSystem: GradeSystem, style: string, attempts: int,
    result: string, boardType: Option<string>, boardAngle: Option<int>, boardClimbUuid: Option<string>,
    boardClimbUrl: Option<string>, notes: Option<string>, cols: Cols)

  /** A validated update body: every key optional; `None` is a key that was not sent. */
  datatype AscentPatch = AscentPatch(
    name: Option<string>, grade: Option<string>, gradeSystem: Option<GradeSystem>, style: Option<string>,
    attempts: Option<int>, result: Option<string>, boardType: Option<string>, boardAngle: Option<int>,
    boardClimbUuid: Option<string>, boardClimbUrl: Option<string>, notes: Option<string>, cols: Cols)

  /** The 400 raised for a grade its system does not list. */
  function InvalidGrade(grade: string, system: GradeSystem): Failure {
    BadRequest("Invalid grade '" + grade + "' for system '" + GradeSystemName(system) + "'")
  }

  /** The predicate "belongs to session `sessionId`". */
  function InSession(sessionId: Id): AscentRow -> bool {
    (a: AscentRow) => a.sessionId == sessionId
  }

  function SortOrderOf(a: AscentRow): int {
    a.sortOrder
  }

  /** The user owns a session with that id. */
  predicate OwnsSession(db: Db, userId: UserId, sessionId: Id) {
    exists s | s in db.sessions :: s.id == sessionId && s.userId == userId
  }

  /** The ascent exists and its session is the user's (the inner join of the ownership checks). */
  predicate OwnsAscent(db: Db, userId: UserId, ascentId: Id) {
    exists a | a in db.ascents :: a.id == ascentId && OwnsSession(db, userId, a.sessionId)
  }

  /** An ascent's normalized grade is what its grade and system give. */
  predicate GradeConsistent(a: AscentRow) {
    match ParseGradeSystem(a.gradeSystem)
    case None => false
    case Some(system) => GradeToNumeric(a.grade, system) == Some(a.normalizedGrade)
  }

  predicate GradesConsistent(db: Db) {
    forall a | a in db.ascents :: GradeConsistent(a)
  }

  // ---------------------------------------------------------------- listBySession

  /** `listBySession`: the session's ascents, ordered by sortOrder. */
  function ListBySession(db: Db, sessionId: Id): (r: seq<AscentRow>)
    ensures forall a :: a in r <==> a in db.ascents && a.sessionId == sessionId
    ensures forall i, j | 0 <= i < j < |r| :: r[i].sortOrder <= r[j].sortOrder
    ensures |r| == CountWhere(db.ascents, InSession(sessionId))
  {
    SortAsc(Filter(db.ascents, InSession(sessionId)), SortOrderOf)
  }

  // ---------------------------------------------------------------- create

  /** `coalesce(max(sortOrder), -1) + 1` over the session's ascents. */
  function NextSortOrder(db: Db, sessionId: Id): (r: int)
    ensures forall a | a in db.ascents && a.sessionId == sessionId :: a.sortOrder < r
    ensures r == 0 || exists a | a in db.ascents && a.sessionId == sessionId :: a.sortOrder == r - 1
    ensures (forall a | a in db.ascents :: a.sessionId != sessionId) ==> r == 0
  {
    var orders := Map(Filter(db.ascents, InSession(sessionId)), SortOrderOf);
    assert forall a | a in db.ascents && a.sessionId == sessionId :: a.sortOrder in orders by {
      forall a | a in db.ascents && a.sessionId == sessionId ensures a.sortOrder in orders {
        var f := Filter(db.ascents, InSession(sessionId));
        var i := IndexOf(f, a);
        assert orders[i] == a.sortOrder;
      }
    }
    assert forall x | x in orders :: exists a | a in db.ascents && a.sessionId == sessionId :: a.sortOrder == x by {
      forall x | x in orders ensures exists a | a in db.ascents && a.sessionId == sessionId :: a.sortOrder == x {
        var i :| 0 <= i < |orders| && orders[i] == x;
        var f := Filter(db.ascents, InSession(sessionId));
        assert f[i] in f;
      }
    }
    MaxOf(orders).GetOr(-1) + 1
  }

  /** The row `create` inserts. */
  function NewAscent(id: Id, sessionId: Id, input: AscentInput, normalized: int, sortOrder: int): AscentRow {
    AscentRow(id, sessionId, input.name, input.grade, GradeSystemName(input.gradeSystem), normalized,
      input.style, input.attempts, input.result, input.boardType, input.boardAngle, input.boardClimbUuid,
      input.boardClimbUrl, input.notes, sortOrder, input.cols)
  }

  /**
   * `create`: the session must be the user's, the grade must be listed in
   * its system; the new ascent goes after every ascent already in the session.
   */
  function Create(db: Db, userId: UserId, sessionId: Id, input: AscentInput): (r: Effect<AscentRow>)
    ensures !OwnsSession(db, userId, sessionId) ==> r == Effect(db, Err(NotFound("Session")))
    ensures OwnsSession(db, userId, sessionId) && GradeToNumeric(input.grade, input.gradeSystem).None? ==>
      r == Effect(db, Err(InvalidGrade(input.grade, input.gradeSystem)))
    ensures r.result.Ok? <==> OwnsSession(db, userId, sessionId) && GradeToNumeric(input.grade, input.gradeSystem).Some?
    ensures r.result.Ok? ==>
      && r.db == db.(ascents := db.ascents + [r.result.value], nextId := db.nextId + 1)
      && r.result.value.id == db.nextId
      && r.result.value.sessionId == sessionId
      && Some(r.result.value.normalizedGrade) == GradeToNumeric(input.grade, input.gradeSystem)
      && ParseGradeSystem(r.result.value.gradeSystem) == Some(input.gradeSystem)
      && r.result.value.grade == input.grade
      && (forall a | a in db.ascents && a.sessionId == sessionId :: a.sortOrder < r.result.value.sortOrder)
    ensures r.result.Ok? ==>
      && r.result.value.name == input.name && r.result.value.notes == input.notes
      && r.result.value.style == input.style && r.result.value.attempts == input.attempts
      && r.result.value.result == input.result && r.result.value.boardType == input.boardType
      && r.result.value.boardAngle == input.boardAngle && r.result.value.boardClimbUuid == input.boardClimbUuid
      && r.result.value.boardClimbUrl == input.boardClimbUrl && r.result.value.cols == input.cols
  {
    if !OwnsSession(db, userId, sessionId) then Effect(db, Err(NotFound("Session")))
    else
      match GradeToNumeric(input.grade, input.gradeSystem)
      case None => Effect(db, Err(InvalidGrade(input.grade, input.gradeSystem)))
      case Some(ng) =>
        GradeSystemNameRoundTrip(input.gradeSystem);
        var row := NewAscent(db.nextId, sessionId, input, ng, NextSortOrder(db, sessionId));
        Effect(db.(ascents := db.ascents + [row], nextId := db.nextId + 1), Ok(row))
  }

  /** The first ascent of an empty session gets sortOrder 0; a later one one more than the largest so far. */
  lemma CreateSortOrder(db: Db, userId: UserId, sessionId: Id, input: AscentInput)
    requires Create(db, userId, sessionId, input).result.Ok?
    ensures var a := Create(db, userId, sessionId, input).result.value;
      && ((forall b | b in db.ascents :: b.sessionId != sessionId) ==> a.sortOrder == 0)
      && (a.sortOrder == 0 || exists b | b in db.ascents && b.sessionId == sessionId :: b.sortOrder == a.sortOrder - 1)
  {
  }

  /** After a create the session's listing is the old listing followed by the new ascent. */
  lemma CreateListsLast(db: Db, userId: UserId, sessionId: Id, input: AscentInput)
    requires Create(db, userId, sessionId, input).result.Ok?
    ensures var r := Create(db, userId, sessionId, input);
      ListBySession(r.db, sessionId) == ListBySession(db, sessionId) + [r.result.value]
  {
    var r := Create(db, userId, sessionId, input);
    var a := r.result.value;
    var before := Filter(db.ascents, InSession(sessionId));
    FilterSnoc(db.ascents, a, InSession(sessionId));
    assert Filter(r.db.ascents, InSession(sessionId)) == before + [a];
    SortAscSnoc(before, a, SortOrderOf);
  }

  /** A create keeps the store's invariant. */
  lemma CreateValid(db: Db, userId: UserId, sessionId: Id, input: AscentInput)
    requires Valid(db)
    ensures Valid(Create(db, userId, sessionId, input).db)
  {
    var r := Create(db, userId, sessionId, input);
    if r.result.Ok? {
      AppendAscentValid(db, r.result.value);
    }
  }

  /** A create keeps every ascent's normalized grade in step with its grade. */
  lemma CreateKeepsGradesConsistent(db: Db, userId: UserId, sessionId: Id, input: AscentInput)
    requires GradesConsistent(db)
    ensures GradesConsistent(Create(db, userId, sessionId, input).db)
  {
  }

  // ---------------------------------------------------------------- update

  /** The normalized grade an update writes: `None` when it leaves the column alone. */
  function Renormalized(patch: AscentPatch): (r: Result<Option<int>>)
    ensures (patch.grade.None? || patch.grade.value == "" || patch.gradeSystem.None?) ==> r == Ok(None)
    ensures patch.grade.Some? && patch.grade.value != "" && patch.gradeSystem.Some? ==>
      match GradeToNumeric(patch.grade.value, patch.gradeSystem.value)
      case None => r == Err(InvalidGrade(patch.grade.value, patch.gradeSystem.value))
      case Some(ng) => r == Ok(Some(ng))
  {
    if patch.grade.Some? && patch.grade.value != "" && patch.gradeSystem.Some? then
      match GradeToNumeric(patch.grade.value, patch.gradeSystem.value)
      case None => Err(InvalidGrade(patch.grade.value, patch.gradeSystem.value))
      case Some(ng) => Ok(Some(ng))
    else Ok(None)
  }

  /** `{ ...input, normalizedGrade? }` applied to a row: each key sent overwrites its column. */
  function ApplyPatch(a: AscentRow, patch: AscentPatch, normalized: Option<int>): AscentRow {
    a.(
      name := patch.name.OrElse(a.name),
      grade := patch.grade.GetOr(a.grade),
      gradeSystem := if patch.gradeSystem.Some? then GradeSystemName(patch.gradeSystem.value) else a.gradeSystem,
      normalizedGrade := normalized.GetOr(a.normalizedGrade),
      style := patch.style.GetOr(a.style),
      attempts := patch.attempts.GetOr(a.attempts),
      result := patch.result.GetOr(a.result),
      boardType := patch.boardType.OrElse(a.boardType),
      boardAngle := patch.boardAngle.OrElse(a.boardAngle),
      boardClimbUuid := patch.boardClimbUuid.OrElse(a.boardClimbUuid),
      boardClimbUrl := patch.boardClimbUrl.OrElse(a.boardClimbUrl),
      notes := patch.notes.OrElse(a.notes),
      cols := Merge(a.cols, patch.cols))
  }

  /** A patch that sends no key: the `SET` clause it builds would be empty. */
  predicate PatchEmpty(patch: AscentPatch) {
    && patch.name.None? && patch.grade.None? && patch.gradeSystem.None? && patch.style.None?
    && patch.attempts.None? && patch.result.None? && patch.boardType.None? && patch.boardAngle.None?
    && patch.boardClimbUuid.None? && patch.boardClimbUrl.None? && patch.notes.None? && patch.cols == map[]
  }

  /** The rows after `UPDATE ascents SET ... WHERE id = ascentId`. */
  function PatchRows(rows: seq<AscentRow>, ascentId: Id, patch: AscentPatch, normalized: Option<int>): (r: seq<AscentRow>)
    ensures |r| == |rows|
    ensures forall i | 0 <= i < |rows| :: r[i].id == rows[i].id && r[i].sessionId == rows[i].sessionId
    ensures forall i | 0 <= i < |rows| && rows[i].id != ascentId :: r[i] == rows[i]
    ensures forall i | 0 <= i < |rows| && rows[i].id == ascentId ::
      r[i] == ApplyPatch(rows[i], patch, normalized) && r[i].normalizedGrade == normalized.GetOr(rows[i].normalizedGrade)
  {
    Map(rows, (a: AscentRow) => if a.id == ascentId then ApplyPatch(a, patch, normalized) else a)
  }

  /** The predicate "has id `id`". */
  function HasId(id: Id): AscentRow -> bool {
    (a: AscentRow) => a.id == id
  }

  /**
   * `update`: ownership first, then the grade pair when both are sent,
   * then every row with that id is rewritten; the first is returned. A
   * patch that sends nothing leaves the `SET` clause empty, which the query
   * builder refuses before anything is written.
   */
  function Update(db: Db, userId: UserId, ascentId: Id, patch: AscentPatch): (r: Effect<AscentRow>)
    ensures !OwnsAscent(db, userId, ascentId) ==> r == Effect(db, Err(NotFound("Ascent")))
    ensures OwnsAscent(db, userId, ascentId) && Renormalized(patch).Err? ==> r == Effect(db, Err(Renormalized(patch).error))
    ensures OwnsAscent(db, userId, ascentId) && PatchEmpty(patch) ==> r == Effect(db, Err(NoValuesToSet))
    ensures r.result.Ok? <==> OwnsAscent(db, userId, ascentId) && Renormalized(patch).Ok? && !PatchEmpty(patch)
    ensures r.result.Ok? ==>
      && r.db == db.(ascents := PatchRows(db.ascents, ascentId, patch, Renormalized(patch).value))
      && r.result.value in r.db.ascents && r.result.value.id == ascentId
  {
    if !OwnsAscent(db, userId, ascentId) then Effect(db, Err(NotFound("Ascent")))
    else
      match Renormalized(patch)
      case Err(e) => Effect(db, Err(e))
      case Ok(ng) =>
        if PatchEmpty(patch) then Effect(db, Err(NoValuesToSet))
        else
          var rows := PatchRows(db.ascents, ascentId, patch, ng);
          assert Any(rows, HasId(ascentId)) by {
            var a :| a in db.ascents && a.id == ascentId && OwnsSession(db, userId, a.sessionId);
            var i :| 0 <= i < |db.ascents| && db.ascents[i] == a;
            assert HasId(ascentId)(rows[i]);
          }
          Effect(db.(ascents := rows), Ok(Find(rows, HasId(ascentId)).value))
  }

  /**
   * What an accepted update leaves: rows with another id untouched, the
   * edited row's session unchanged, its normalized grade recomputed only
   * when grade and system were both sent.
   */
  lemma UpdateRows(db: Db, userId: UserId, ascentId: Id, patch: AscentPatch)
    requires Update(db, userId, ascentId, patch).result.Ok?
    ensures var d := Update(db, userId, ascentId, patch).db;
      && |d.ascents| == |db.ascents|
      && (forall i | 0 <= i < |db.ascents| && db.ascents[i].id != ascentId :: d.ascents[i] == db.ascents[i])
      && (forall i | 0 <= i < |db.ascents| && db.ascents[i].id == ascentId ::
            && d.ascents[i].sessionId == db.ascents[i].sessionId
            && d.ascents[i].grade == patch.grade.GetOr(db.ascents[i].grade)
            && (patch.grade.Some? && patch.grade.value != "" && patch.gradeSystem.Some? ==>
                  Some(d.ascents[i].normalizedGrade) == GradeToNumeric(patch.grade.value, patch.gradeSystem.value))
            && (patch.grade.None? || patch.grade.value == "" || patch.gradeSystem.None? ==>
                  d.ascents[i].normalizedGrade == db.ascents[i].normalizedGrade))
  {
  }

  /** An update never moves an ascent to another session and keeps the invariant. */
  lemma UpdateValid(db: Db, userId: UserId, ascentId: Id, patch: AscentPatch)
    requires Valid(db)
    ensures Valid(Update(db, userId, ascentId, patch).db)
  {
    RewriteAscentsValid(db, Update(db, userId, ascentId, patch).db);
  }

  /** A patch carrying the grade together with its system, or neither, keeps a row's normalized grade in step. */
  lemma PatchKeepsGradeConsistent(a: AscentRow, patch: AscentPatch)
    requires GradeConsistent(a) && Renormalized(patch).Ok?
    requires (patch.grade.None? && patch.gradeSystem.None?) ||
             (patch.grade.Some? && patch.grade.value != "" && patch.gradeSystem.Some?)
    ensures GradeConsistent(ApplyPatch(a, patch, Renormalized(patch).value))
  {
    if patch.gradeSystem.Some? {
      GradeSystemNameRoundTrip(patch.gradeSystem.value);
    }
  }

  /** Sending the grade together with its system (or neither) keeps every normalized grade in step. */
  lemma UpdateKeepsGradesConsistent(db: Db, userId: UserId, ascentId: Id, patch: AscentPatch)
    requires GradesConsistent(db)
    requires (patch.grade.None? && patch.gradeSystem.None?) ||
             (patch.grade.Some? && patch.grade.value != "" && patch.gradeSystem.Some?)
    ensures GradesConsistent(Update(db, userId, ascentId, patch).db)
  {
    if Update(db, userId, ascentId, patch).result.Ok? {
      PatchRowsKeepGradesConsistent(db.ascents, ascentId, patch);
    }
  }

  /** The row-level step of the lemma above. */
  lemma PatchRowsKeepGradesConsistent(rows: seq<AscentRow>, ascentId: Id, patch: AscentPatch)
    requires forall a | a in rows :: GradeConsistent(a)
    requires Renormalized(patch).Ok?
    requires (patch.grade.None? && patch.gradeSystem.None?) ||
             (patch.grade.Some? && patch.grade.value != "" && patch.gradeSystem.Some?)
    ensures forall b | b in PatchRows(rows, ascentId, patch, Renormalized(patch).value) :: GradeConsistent(b)
  {
    var out := PatchRows(rows, ascentId, patch, Renormalized(patch).value);
    forall b | b in out ensures GradeConsistent(b) {
      var i :| 0 <= i < |out| && out[i] == b;
      assert rows[i] in rows;
      if rows[i].id == ascentId {
        PatchKeepsGradeConsistent(rows[i], patch);
      }
    }
  }

  /**
   * A new grade sent without its system is stored, but the normalized
   * grade is left as it was, so a row whose new grade means a different
   * number falls out of step.
   */
  lemma UpdateGradeAloneGoesStale(a: AscentRow, patch: AscentPatch, system: GradeSystem)
    requires GradeConsistent(a) && ParseGradeSystem(a.gradeSystem) == Some(system)
    requires patch.grade.Some? && patch.gradeSystem.None?
    requires GradeToNumeric(patch.grade.value, system) != GradeToNumeric(a.grade, system)
    ensures Renormalized(patch) == Ok(None)
    ensures ApplyPatch(a, patch, None).grade == patch.grade.value
    ensures ApplyPatch(a, patch, None).normalizedGrade == a.normalizedGrade
    ensures !GradeConsistent(ApplyPatch(a, patch, None))
  {
  }

  // ---------------------------------------------------------------- remove

  /** `remove`: ownership first, then the ascent with that id goes, with its ledger rows. */
  function Remove(db: Db, userId: UserId, ascentId: Id): (r: Effect<()>)
    ensures !OwnsAscent(db, userId, ascentId) ==> r == Effect(db, Err(NotFound("Ascent")))
    ensures r.result.Ok? <==> OwnsAscent(db, userId, ascentId)
    ensures r.result.Ok? ==>
      && (forall a :: a in r.db.ascents <==> a in db.ascents && a.id != ascentId)
      && (forall t :: t in r.db.imported <==> t in db.imported && t.ascentId != ascentId)
      && r.db.sessions == db.sessions && r.db.connections == db.connections && r.db.wellbeing == db.wellbeing
  {
    if !OwnsAscent(db, userId, ascentId) then Effect(db, Err(NotFound("Ascent")))
    else
      var p := (a: AscentRow) => a.id == ascentId;
      var d := DeleteAscentsWhere(db, p);
      assert forall x: Id :: x in AscentIdsWhere(db, p) <==> x == ascentId by {
        forall x: Id ensures x in AscentIdsWhere(db, p) <==> x == ascentId {
          if x == ascentId {
            var a :| a in db.ascents && a.id == ascentId && OwnsSession(db, userId, a.sessionId);
            assert p(a);
          }
        }
      }
      Effect(d, Ok(()))
  }

  /** A remove keeps the invariant, and the session's listing loses exactly that ascent. */
  lemma RemoveValid(db: Db, userId: UserId, ascentId: Id)
    requires Valid(db)
    ensures Valid(Remove(db, userId, ascentId).db)
    ensures forall sessionId, a :: a in ListBySession(Remove(db, userId, ascentId).db, sessionId) <==>
      a in ListBySession(db, sessionId) && (Remove(db, userId, ascentId).result.Ok? ==> a.id != ascentId)
  {
    if OwnsAscent(db, userId, ascentId) {
      DeleteAscentsValid(db, (a: AscentRow) => a.id == ascentId);
    }
  }
}
