// The relational store the services read and write, as one immutable value.
// Each table is a sequence of rows in insertion order; a fresh-id counter
// stands in for the random uuids the database assigns. Foreign keys and the
// unique indexes of the schema are the store's invariant.

module Store {
  import opened Wrappers
  import opened Seqs
  import opened Schemas

  /** A row id (a uuid in the database; any fresh value serves). */
  type Id = nat

  /** The id of the signed-in user. */
  type UserId = string

  /** Columns no rule here depends on, carried through unchanged. */
  type Cols = map<string, Json>

  datatype SessionRow = SessionRow(
    id: Id, userId: UserId, date: string, sessionType: string, locationId: Option<string>,
    notes: Option<string>, isOutdoor: bool, cols: Cols, createdAt: int, updatedAt: int)

  datatype AscentRow = AscentRow(
    id: Id, sessionId: Id, name: Option<string>, grade: string, gradeSystem: string,
    normalizedGrade: int, style: string, attempts: int, result: string,
    boardType: Option<string>, boardAngle: Option<int>, boardClimbUuid: Option<string>,
    boardClimbUrl: Option<string>, notes: Option<string>, sortOrder: int, cols: Cols)

  /** The columns of the dedup index on imported climbs. */
  datatype LedgerKey = LedgerKey(userId: UserId, boardType: string, climbUuid: string, angle: int, climbedAt: string)

  /** One row of the import ledger: this vendor ascent became that ascent. */
  datatype ImportedRow = ImportedRow(id: Id, key: LedgerKey, ascentId: Id)

  datatype ConnectionRow = ConnectionRow(
    id: Id, userId: UserId, boardType: string, username: string, encryptedPassword: string,
    boardUserId: Option<string>, lastSyncAt: Option<int>, syncEnabled: bool, createdAt: int, updatedAt: int)

  datatype ProjectRow = ProjectRow(
    id: Id, userId: UserId, name: string, grade: Option<string>, gradeSystem: Option<string>,
    normalizedGrade: Option<int>, projectType: string, status: string, sentAscentId: Option<Id>,
    cols: Cols, createdAt: int, updatedAt: int)

  datatype AttemptRow = AttemptRow(
    id: Id, projectId: Id, sessionId: Option<Id>, ascentId: Option<Id>, date: string, cols: Cols, createdAt: int)

  datatype WellbeingRow = WellbeingRow(id: Id, userId: UserId, date: string, cols: Cols, createdAt: int)

  datatype Db = Db(
    sessions: seq<SessionRow>,
    ascents: seq<AscentRow>,
    imported: seq<ImportedRow>,
    connections: seq<ConnectionRow>,
    projects: seq<ProjectRow>,
    attempts: seq<AttemptRow>,
    wellbeing: seq<WellbeingRow>,
    nextId: nat)

  /** What a service call leaves behind: the store after every write it made, and its value or error. */
  datatype Effect<T> = Effect(db: Db, result: Result<T>)

  /** `{ ...cols, ...patch }`: the patch's keys win, the rest stay. */
  function Merge(cols: Cols, patch: Cols): (r: Cols)
    ensures r.Keys == cols.Keys + patch.Keys
    ensures forall k | k in patch :: r[k] == patch[k]
    ensures forall k | k in cols && k !in patch :: r[k] == cols[k]
  {
    map k | k in cols.Keys + patch.Keys :: if k in patch then patch[k] else cols[k]
  }

  // ---------------------------------------------------------------- the invariant

  predicate SessionExists(db: Db, id: Id) {
    exists s | s in db.sessions :: s.id == id
  }

  predicate AscentExists(db: Db, id: Id) {
    exists a | a in db.ascents :: a.id == id
  }

  predicate ProjectExists(db: Db, id: Id) {
    exists p | p in db.projects :: p.id == id
  }

  /** Every id in use is below the counter, so the counter is always fresh. */
  predicate IdsBelowNext(db: Db) {
    && (forall r | r in db.sessions :: r.id < db.nextId)
    && (forall r | r in db.ascents :: r.id < db.nextId)
    && (forall r | r in db.imported :: r.id < db.nextId)
    && (forall r | r in db.connections :: r.id < db.nextId)
    && (forall r | r in db.projects :: r.id < db.nextId)
    && (forall r | r in db.attempts :: r.id < db.nextId)
    && (forall r | r in db.wellbeing :: r.id < db.nextId)
  }

  /** A nullable link to an ascent is null or names one. */
  predicate AscentLinkOk(db: Db, x: Option<Id>) {
    x.Some? ==> AscentExists(db, x.value)
  }

  /** A nullable link to a session is null or names one. */
  predicate SessionLinkOk(db: Db, x: Option<Id>) {
    x.Some? ==> SessionExists(db, x.value)
  }

  /** The nullable foreign keys: a project's sent ascent, an attempt's session and its ascent. */
  predicate NullableLinks(db: Db) {
    && (forall q | q in db.projects :: AscentLinkOk(db, q.sentAscentId))
    && (forall t | t in db.attempts :: SessionLinkOk(db, t.sessionId) && AscentLinkOk(db, t.ascentId))
  }

  /**
   * Foreign keys: an ascent's session, a ledger row's ascent and an attempt's
   * project exist, and so does every row a nullable link names.
   */
  predicate ForeignKeys(db: Db) {
    && (forall a | a in db.ascents :: SessionExists(db, a.sessionId))
    && (forall r | r in db.imported :: AscentExists(db, r.ascentId))
    && (forall t | t in db.attempts :: ProjectExists(db, t.projectId))
    && NullableLinks(db)
  }

  /** The key of the unique index on board connections: one connection per user and board type. */
  function ConnKey(c: ConnectionRow): (UserId, string) {
    (c.userId, c.boardType)
  }

  /** The key of the ledger's dedup index. */
  function LedgerKeyOf(t: ImportedRow): LedgerKey {
    t.key
  }

  /** The key of the unique constraint on wellbeing logs: one log per user and date. */
  function LogKey(w: WellbeingRow): (UserId, string) {
    (w.userId, w.date)
  }

  predicate Valid(db: Db) {
    && IdsBelowNext(db)
    && ForeignKeys(db)
    && KeysDistinct(db.connections, ConnKey)
    && KeysDistinct(db.imported, LedgerKeyOf)
    && KeysDistinct(db.wellbeing, LogKey)
  }

  /** The empty store is valid. */
  lemma EmptyValid()
    ensures Valid(Db([], [], [], [], [], [], [], 0))
  {
  }

  // ---------------------------------------------------------------- deletes

  /** A nullable link to a deleted row becomes null (ON DELETE SET NULL); any other value stays. */
  function NullIfGone(x: Option<Id>, gone: set<Id>): (r: Option<Id>)
    ensures r.Some? ==> r == x && x.value !in gone
    ensures x.Some? && x.value !in gone ==> r == x
  {
    if x.Some? && x.value in gone then None else x
  }

  /** The ids of the ascents `p` selects. */
  function AscentIdsWhere(db: Db, p: AscentRow -> bool): (r: set<Id>)
    ensures forall a | a in db.ascents && p(a) :: a.id in r
    ensures forall x | x in r :: exists a | a in db.ascents :: p(a) && a.id == x
  {
    set a | a in db.ascents && p(a) :: a.id
  }

  /**
   * `DELETE FROM ascents WHERE p`, with the schema's cascades: ledger rows of a
   * deleted ascent go too, and attempts and projects that named one lose the link.
   */
  function DeleteAscentsWhere(db: Db, p: AscentRow -> bool): (r: Db)
    ensures forall a :: a in r.ascents <==> a in db.ascents && !p(a)
    ensures forall t :: t in r.imported <==> t in db.imported && t.ascentId !in AscentIdsWhere(db, p)
    ensures r.sessions == db.sessions && r.connections == db.connections && r.wellbeing == db.wellbeing
    ensures r.nextId == db.nextId && |r.projects| == |db.projects| && |r.attempts| == |db.attempts|
    ensures forall i | 0 <= i < |r.attempts| ::
      r.attempts[i] == db.attempts[i].(ascentId := NullIfGone(db.attempts[i].ascentId, AscentIdsWhere(db, p)))
    ensures forall i | 0 <= i < |r.projects| ::
      r.projects[i] == db.projects[i].(sentAscentId := NullIfGone(db.projects[i].sentAscentId, AscentIdsWhere(db, p)))
  {
    var gone := AscentIdsWhere(db, p);
    db.(
      ascents := Filter(db.ascents, (a: AscentRow) => !p(a)),
      imported := Filter(db.imported, (t: ImportedRow) => t.ascentId !in gone),
      attempts := Map(db.attempts, (t: AttemptRow) => t.(ascentId := NullIfGone(t.ascentId, gone))),
      projects := Map(db.projects, (q: ProjectRow) => q.(sentAscentId := NullIfGone(q.sentAscentId, gone))))
  }

  /** `DELETE FROM sessions WHERE id = ...`: its ascents cascade, attempts that named it lose the link. */
  function DeleteSession(db: Db, id: Id): (r: Db)
    ensures forall s :: s in r.sessions <==> s in db.sessions && s.id != id
    ensures forall a :: a in r.ascents <==> a in db.ascents && a.sessionId != id
    ensures r.connections == db.connections && r.wellbeing == db.wellbeing && r.nextId == db.nextId
    ensures |r.attempts| == |db.attempts|
    ensures forall i | 0 <= i < |r.attempts| ::
      r.attempts[i].sessionId == NullIfGone(db.attempts[i].sessionId, {id}) && r.attempts[i].projectId == db.attempts[i].projectId
  {
    var d := DeleteAscentsWhere(db, (a: AscentRow) => a.sessionId == id);
    d.(
      sessions := Filter(db.sessions, (s: SessionRow) => s.id != id),
      attempts := Map(d.attempts, (t: AttemptRow) => t.(sessionId := NullIfGone(t.sessionId, {id}))))
  }

  /** `DELETE FROM projects WHERE id = ...`: its attempts cascade. */
  function DeleteProject(db: Db, id: Id): (r: Db)
    ensures forall q :: q in r.projects <==> q in db.projects && q.id != id
    ensures forall t :: t in r.attempts <==> t in db.attempts && t.projectId != id
    ensures r.sessions == db.sessions && r.ascents == db.ascents && r.imported == db.imported
    ensures r.connections == db.connections && r.wellbeing == db.wellbeing && r.nextId == db.nextId
  {
    db.(
      projects := Filter(db.projects, (q: ProjectRow) => q.id != id),
      attempts := Filter(db.attempts, (t: AttemptRow) => t.projectId != id))
  }

  // ---------------------------------------------------------------- the nullable links

  /**
   * The nullable links hold after a change that keeps every session and
   * ascent id and writes only projects and attempts whose links held before.
   */
  lemma NullableLinksGrow(db: Db, d: Db)
    requires forall s | s in db.sessions :: SessionExists(d, s.id)
    requires forall a | a in db.ascents :: AscentExists(d, a.id)
    requires forall q | q in d.projects :: AscentLinkOk(db, q.sentAscentId)
    requires forall t | t in d.attempts :: SessionLinkOk(db, t.sessionId) && AscentLinkOk(db, t.ascentId)
    ensures NullableLinks(d)
  {
    forall q | q in d.projects ensures AscentLinkOk(d, q.sentAscentId) {
      if q.sentAscentId.Some? {
        var a :| a in db.ascents && a.id == q.sentAscentId.value;
      }
    }
    forall t | t in d.attempts ensures SessionLinkOk(d, t.sessionId) && AscentLinkOk(d, t.ascentId) {
      if t.sessionId.Some? {
        var s :| s in db.sessions && s.id == t.sessionId.value;
      }
      if t.ascentId.Some? {
        var a :| a in db.ascents && a.id == t.ascentId.value;
      }
    }
  }

  /** A link that a delete of ascents leaves set still names a surviving ascent. */
  lemma NullIfGoneAscent(db: Db, p: AscentRow -> bool, x: Option<Id>)
    requires AscentLinkOk(db, x)
    ensures AscentLinkOk(DeleteAscentsWhere(db, p), NullIfGone(x, AscentIdsWhere(db, p)))
  {
    if NullIfGone(x, AscentIdsWhere(db, p)).Some? {
      var a :| a in db.ascents && a.id == x.value;
      assert !p(a);
      assert a in DeleteAscentsWhere(db, p).ascents;
    }
  }

  /** Deleting ascents nulls every link to them, so the nullable links hold. */
  lemma DeleteAscentsNullable(db: Db, p: AscentRow -> bool)
    requires NullableLinks(db)
    ensures NullableLinks(DeleteAscentsWhere(db, p))
  {
    var r := DeleteAscentsWhere(db, p);
    forall q | q in r.projects ensures AscentLinkOk(r, q.sentAscentId) {
      var i := IndexOf(r.projects, q);
      assert db.projects[i] in db.projects;
      NullIfGoneAscent(db, p, db.projects[i].sentAscentId);
    }
    forall t | t in r.attempts ensures SessionLinkOk(r, t.sessionId) && AscentLinkOk(r, t.ascentId) {
      var i := IndexOf(r.attempts, t);
      assert db.attempts[i] in db.attempts;
      NullIfGoneAscent(db, p, db.attempts[i].ascentId);
    }
  }

  /** Deleting a session nulls the attempts' links to it and to its ascents. */
  lemma DeleteSessionNullable(db: Db, id: Id)
    requires NullableLinks(db)
    ensures NullableLinks(DeleteSession(db, id))
  {
    var p := (a: AscentRow) => a.sessionId == id;
    var d := DeleteAscentsWhere(db, p);
    DeleteAscentsNullable(db, p);
    var r := DeleteSession(db, id);
    assert r.projects == d.projects && r.ascents == d.ascents;
    forall t | t in r.attempts ensures SessionLinkOk(r, t.sessionId) && AscentLinkOk(r, t.ascentId) {
      var i := IndexOf(r.attempts, t);
      assert d.attempts[i] in d.attempts;
      if t.sessionId.Some? {
        var s :| s in db.sessions && s.id == t.sessionId.value;
        assert s in r.sessions;
      }
    }
  }

  // ---------------------------------------------------------------- the invariant survives deletes

  /** A ledger row that survives the cascade still names a surviving ascent. */
  lemma DeleteAscentsLedgerLinks(db: Db, p: AscentRow -> bool)
    requires ForeignKeys(db)
    ensures forall t | t in DeleteAscentsWhere(db, p).imported :: AscentExists(DeleteAscentsWhere(db, p), t.ascentId)
  {
    var r := DeleteAscentsWhere(db, p);
    forall t | t in r.imported
      ensures AscentExists(r, t.ascentId)
    {
      var a :| a in db.ascents && a.id == t.ascentId;
      assert a in r.ascents;
    }
  }

  /** Rewriting a nullable column of each row keeps the row ids and the attempts' projects. */
  lemma DeleteAscentsKeepsIds(db: Db, p: AscentRow -> bool)
    requires IdsBelowNext(db) && (forall t | t in db.attempts :: ProjectExists(db, t.projectId))
    ensures IdsBelowNext(DeleteAscentsWhere(db, p))
    ensures forall t | t in DeleteAscentsWhere(db, p).attempts :: ProjectExists(DeleteAscentsWhere(db, p), t.projectId)
  {
    var r := DeleteAscentsWhere(db, p);
    forall t | t in r.attempts
      ensures ProjectExists(r, t.projectId) && t.id < r.nextId
    {
      var i :| 0 <= i < |r.attempts| && r.attempts[i] == t;
      assert db.attempts[i] in db.attempts;
      var q :| q in db.projects && q.id == db.attempts[i].projectId;
      var j :| 0 <= j < |db.projects| && db.projects[j] == q;
      assert r.projects[j] in r.projects;
    }
    forall q | q in r.projects
      ensures q.id < r.nextId
    {
      var i :| 0 <= i < |r.projects| && r.projects[i] == q;
      assert db.projects[i] in db.projects;
    }
  }

  /** Deleting ascents keeps every foreign key, unique index and the fresh counter. */
  lemma DeleteAscentsValid(db: Db, p: AscentRow -> bool)
    requires Valid(db)
    ensures Valid(DeleteAscentsWhere(db, p))
  {
    DeleteAscentsLedgerLinks(db, p);
    DeleteAscentsKeepsIds(db, p);
    DeleteAscentsNullable(db, p);
    FilterKeysDistinct(db.imported, LedgerKeyOf, (t: ImportedRow) => t.ascentId !in AscentIdsWhere(db, p));
  }

  /** Deleting a session keeps the invariant: no ascent is left without its session. */
  lemma DeleteSessionValid(db: Db, id: Id)
    requires Valid(db)
    ensures Valid(DeleteSession(db, id))
  {
    var p := (a: AscentRow) => a.sessionId == id;
    DeleteAscentsValid(db, p);
    DeleteSessionLinks(db, id);
    assert DeleteSession(db, id).imported == DeleteAscentsWhere(db, p).imported;
  }

  /** The foreign keys and the fresh counter after a session delete. */
  lemma DeleteSessionLinks(db: Db, id: Id)
    requires Valid(db)
    ensures ForeignKeys(DeleteSession(db, id)) && IdsBelowNext(DeleteSession(db, id))
  {
    var p := (a: AscentRow) => a.sessionId == id;
    var d := DeleteAscentsWhere(db, p);
    var r := DeleteSession(db, id);
    assert r == d.(sessions := r.sessions, attempts := r.attempts);
    DeleteAscentsLedgerLinks(db, p);
    DeleteSessionAscentLinks(db, id);
    DeleteSessionAttemptLinks(db, id);
    DeleteSessionNullable(db, id);
  }

  /** No surviving ascent names the deleted session. */
  lemma DeleteSessionAscentLinks(db: Db, id: Id)
    requires forall a | a in db.ascents :: SessionExists(db, a.sessionId)
    ensures forall a | a in DeleteSession(db, id).ascents :: SessionExists(DeleteSession(db, id), a.sessionId)
  {
    var r := DeleteSession(db, id);
    forall a | a in r.ascents
      ensures SessionExists(r, a.sessionId)
    {
      var s :| s in db.sessions && s.id == a.sessionId;
      assert s in r.sessions;
    }
  }

  /** Attempts keep their projects and ids through a session delete. */
  lemma DeleteSessionAttemptLinks(db: Db, id: Id)
    requires IdsBelowNext(db) && (forall t | t in db.attempts :: ProjectExists(db, t.projectId))
    ensures forall t | t in DeleteSession(db, id).attempts ::
      ProjectExists(DeleteSession(db, id), t.projectId) && t.id < DeleteSession(db, id).nextId
    ensures forall q | q in DeleteSession(db, id).projects :: q.id < DeleteSession(db, id).nextId
  {
    var p := (a: AscentRow) => a.sessionId == id;
    var d := DeleteAscentsWhere(db, p);
    DeleteAscentsKeepsIds(db, p);
    var r := DeleteSession(db, id);
    assert r.projects == d.projects && r.attempts == Map(d.attempts, (t: AttemptRow) => t.(sessionId := NullIfGone(t.sessionId, {id})));
    forall t | t in r.attempts
      ensures ProjectExists(r, t.projectId) && t.id < r.nextId
    {
      var i :| 0 <= i < |r.attempts| && r.attempts[i] == t;
      assert d.attempts[i] in d.attempts;
    }
  }

  /** Appending an ascent of an existing session under the fresh id keeps the invariant. */
  lemma AppendAscentValid(db: Db, a: AscentRow)
    requires Valid(db) && SessionExists(db, a.sessionId) && a.id == db.nextId
    ensures Valid(db.(ascents := db.ascents + [a], nextId := db.nextId + 1))
  {
    var d := db.(ascents := db.ascents + [a], nextId := db.nextId + 1);
    forall t | t in d.imported ensures AscentExists(d, t.ascentId) {
      var b :| b in db.ascents && b.id == t.ascentId;
      assert b in d.ascents;
    }
    forall b | b in d.ascents ensures SessionExists(d, b.sessionId) {
      if b != a {
        assert b in db.ascents;
      }
    }
    forall b | b in db.ascents ensures AscentExists(d, b.id) {
      assert b in d.ascents;
    }
    NullableLinksGrow(db, d);
  }

  /** Appending a session under the fresh id keeps the invariant. */
  lemma AppendSessionValid(db: Db, s: SessionRow)
    requires Valid(db) && s.id == db.nextId
    ensures Valid(db.(sessions := db.sessions + [s], nextId := db.nextId + 1))
  {
    var d := db.(sessions := db.sessions + [s], nextId := db.nextId + 1);
    forall a | a in d.ascents ensures SessionExists(d, a.sessionId) {
      var t :| t in db.sessions && t.id == a.sessionId;
      assert t in d.sessions;
    }
    forall t | t in db.sessions ensures SessionExists(d, t.id) {
      assert t in d.sessions;
    }
    NullableLinksGrow(db, d);
  }

  /** Rewriting sessions in place without touching their ids keeps the invariant. */
  lemma RewriteSessionsValid(db: Db, d: Db)
    requires Valid(db)
    requires d == db.(sessions := d.sessions) && |d.sessions| == |db.sessions|
    requires forall i | 0 <= i < |db.sessions| :: d.sessions[i].id == db.sessions[i].id
    ensures Valid(d)
  {
    forall a | a in d.ascents ensures SessionExists(d, a.sessionId) {
      var t :| t in db.sessions && t.id == a.sessionId;
      var i :| 0 <= i < |db.sessions| && db.sessions[i] == t;
      assert d.sessions[i] in d.sessions;
    }
    forall t | t in d.sessions ensures t.id < d.nextId {
      var i :| 0 <= i < |d.sessions| && d.sessions[i] == t;
      assert db.sessions[i] in db.sessions;
    }
    forall t | t in db.sessions ensures SessionExists(d, t.id) {
      var i := IndexOf(db.sessions, t);
      assert d.sessions[i] in d.sessions;
    }
    NullableLinksGrow(db, d);
  }

  /** Rewriting ascents in place without touching their ids or sessions keeps the invariant. */
  lemma RewriteAscentsValid(db: Db, d: Db)
    requires Valid(db)
    requires d == db.(ascents := d.ascents) && |d.ascents| == |db.ascents|
    requires forall i | 0 <= i < |db.ascents| :: d.ascents[i].id == db.ascents[i].id && d.ascents[i].sessionId == db.ascents[i].sessionId
    ensures Valid(d)
  {
    RewriteAscentsIds(db, d);
    RewriteAscentsKeys(db, d);
  }

  /** Rewriting ascents in place without touching their ids keeps every id below the counter. */
  lemma RewriteAscentsIds(db: Db, d: Db)
    requires IdsBelowNext(db)
    requires d == db.(ascents := d.ascents) && |d.ascents| == |db.ascents|
    requires forall i | 0 <= i < |db.ascents| :: d.ascents[i].id == db.ascents[i].id
    ensures IdsBelowNext(d)
  {
    forall b | b in d.ascents ensures b.id < d.nextId {
      var i := IndexOf(d.ascents, b);
      assert db.ascents[i] in db.ascents;
    }
  }

  /** Rewriting ascents in place without touching their ids or sessions keeps the foreign keys. */
  lemma RewriteAscentsKeys(db: Db, d: Db)
    requires ForeignKeys(db)
    requires d == db.(ascents := d.ascents) && |d.ascents| == |db.ascents|
    requires forall i | 0 <= i < |db.ascents| :: d.ascents[i].id == db.ascents[i].id && d.ascents[i].sessionId == db.ascents[i].sessionId
    ensures ForeignKeys(d)
  {
    forall b | b in d.ascents ensures SessionExists(d, b.sessionId) {
      var i := IndexOf(d.ascents, b);
      assert db.ascents[i] in db.ascents;
    }
    forall t | t in d.imported ensures AscentExists(d, t.ascentId) {
      var b :| b in db.ascents && b.id == t.ascentId;
      var i := IndexOf(db.ascents, b);
      assert d.ascents[i] in d.ascents && d.ascents[i].id == t.ascentId;
    }
    forall b | b in db.ascents ensures AscentExists(d, b.id) {
      var i := IndexOf(db.ascents, b);
      assert d.ascents[i] in d.ascents;
    }
    NullableLinksGrow(db, d);
  }

  /** Appending a project under the fresh id keeps the invariant when its sent ascent, if any, exists. */
  lemma AppendProjectValid(db: Db, q: ProjectRow)
    requires Valid(db) && q.id == db.nextId && AscentLinkOk(db, q.sentAscentId)
    ensures Valid(db.(projects := db.projects + [q], nextId := db.nextId + 1))
  {
    var d := db.(projects := db.projects + [q], nextId := db.nextId + 1);
    forall t | t in d.attempts ensures ProjectExists(d, t.projectId) {
      var p :| p in db.projects && p.id == t.projectId;
      assert p in d.projects;
    }
    NullableLinksGrow(db, d);
  }

  /** Rewriting projects in place without touching their ids, and linking only existing ascents, keeps the invariant. */
  lemma RewriteProjectsValid(db: Db, d: Db)
    requires Valid(db)
    requires d == db.(projects := d.projects) && |d.projects| == |db.projects|
    requires forall i | 0 <= i < |db.projects| :: d.projects[i].id == db.projects[i].id
    requires forall q | q in d.projects :: AscentLinkOk(db, q.sentAscentId)
    ensures Valid(d)
  {
    forall t | t in d.attempts ensures ProjectExists(d, t.projectId) {
      var p :| p in db.projects && p.id == t.projectId;
      var i :| 0 <= i < |db.projects| && db.projects[i] == p;
      assert d.projects[i] in d.projects;
    }
    forall p | p in d.projects ensures p.id < d.nextId {
      var i :| 0 <= i < |d.projects| && d.projects[i] == p;
      assert db.projects[i] in db.projects;
    }
    NullableLinksGrow(db, d);
  }

  /** Appending an attempt of an existing project under the fresh id, linking only existing rows, keeps the invariant. */
  lemma AppendAttemptValid(db: Db, t: AttemptRow)
    requires Valid(db) && ProjectExists(db, t.projectId) && t.id == db.nextId
    requires SessionLinkOk(db, t.sessionId) && AscentLinkOk(db, t.ascentId)
    ensures Valid(db.(attempts := db.attempts + [t], nextId := db.nextId + 1))
  {
    NullableLinksGrow(db, db.(attempts := db.attempts + [t], nextId := db.nextId + 1));
  }

  /** Deleting a project keeps the invariant: no attempt is left without its project. */
  lemma DeleteProjectValid(db: Db, id: Id)
    requires Valid(db)
    ensures Valid(DeleteProject(db, id))
  {
    var r := DeleteProject(db, id);
    forall t | t in r.attempts
      ensures ProjectExists(r, t.projectId)
    {
      var q :| q in db.projects && q.id == t.projectId;
      assert q in r.projects;
    }
    NullableLinksGrow(db, r);
  }
}
