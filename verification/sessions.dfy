// The session service: the user's sessions page by page under optional
// filters, one session with its climbs, and create, edit and delete.

module Sessions {
  import opened Wrappers
  import opened Seqs
  import opened Strings
  import opened Store
  import opened Ascents

  /** A validated create body; start and end times and the mood and effort scores travel in `cols`. */
  datatype SessionInput = SessionInput(
    locationId: Option<string>, date: string, sessionType: string, notes: Option<string>, isOutdoor: bool, cols: Cols)

  /** A validated update body: `None` is a key that was not sent. */
  datatype SessionPatch = SessionPatch(
    locationId: Option<string>, date: Option<string>, sessionType: Option<string>, notes: Option<string>,
    isOutdoor: Option<bool>, cols: Cols)

  /** The filter options of `list`; `None` is an option that was not given. */
  datatype ListFilter = ListFilter(from: Option<string>, to: Option<string>, sessionType: Option<string>, locationId: Option<string>)

  /** The options of `list`: paging and the filter. */
  datatype ListOptions = ListOptions(page: Option<int>, limit: Option<int>, filter: ListFilter)

  /** One listed session with the count and the hardest normalized grade of its ascents. */
  datatype SessionSummary = SessionSummary(session: SessionRow, ascentCount: nat, maxGrade: Option<int>)

  /** `{ data, meta: { page, limit, total } }`. */
  datatype SessionPage = SessionPage(data: seq<SessionSummary>, page: int, limit: int, total: nat)

  /** `getById`: the session and its ascents. */
  datatype SessionDetail = SessionDetail(session: SessionRow, ascents: seq<AscentRow>)

  const DEFAULT_PAGE: int := 1
  const DEFAULT_LIMIT: int := 20

  // ---------------------------------------------------------------- list

  /** The conjunction `list` filters by; dates compare as `YYYY-MM-DD` text, bounds inclusive. */
  predicate Matches(s: SessionRow, userId: UserId, f: ListFilter) {
    && s.userId == userId
    && (Given(f.from) ==> StrLe(f.from.value, s.date))
    && (Given(f.to) ==> StrLe(s.date, f.to.value))
    && (Given(f.sessionType) ==> s.sessionType == f.sessionType.value)
    && (Given(f.locationId) ==> s.locationId == Some(f.locationId.value))
  }

  function MatchesFilter(userId: UserId, f: ListFilter): SessionRow -> bool {
    (s: SessionRow) => Matches(s, userId, f)
  }

  function DateOf(s: SessionRow): string {
    s.date
  }

  function PageOf(opts: ListOptions): int {
    opts.page.GetOr(DEFAULT_PAGE)
  }

  function LimitOf(opts: ListOptions): int {
    opts.limit.GetOr(DEFAULT_LIMIT)
  }

  /** `(page - 1) * limit`. */
  function OffsetOf(opts: ListOptions): int {
    (PageOf(opts) - 1) * LimitOf(opts)
  }

  /** Every matching session, newest date first: the order the pages are cut from. */
  function Listed(db: Db, userId: UserId, f: ListFilter): (r: seq<SessionRow>)
    ensures |r| == CountWhere(db.sessions, MatchesFilter(userId, f))
  {
    SortStrDesc(Filter(db.sessions, MatchesFilter(userId, f)), DateOf)
  }

  /** The listing holds exactly the matching sessions, newest date first. */
  lemma ListedMeans(db: Db, userId: UserId, f: ListFilter)
    ensures var r := Listed(db, userId, f);
      && (forall s :: s in r <==> s in db.sessions && Matches(s, userId, f))
      && (forall i, j | 0 <= i < j < |r| :: StrLe(r[j].date, r[i].date))
  {
  }

  function GradeOf(a: AscentRow): int {
    a.normalizedGrade
  }

  /** The two sub-selects of `list`: how many ascents the session has, and the largest normalized grade. */
  function Summarize(db: Db, s: SessionRow): (r: SessionSummary)
    ensures r.session == s
  {
    SessionSummary(s, CountWhere(db.ascents, InSession(s.id)), MaxOf(Map(Filter(db.ascents, InSession(s.id)), GradeOf)))
  }

  /**
   * A summary counts the session's ascents, and its grade is the hardest
   * normalized grade among them, absent exactly when there are none.
   */
  lemma SummarizeMeans(db: Db, s: SessionRow)
    ensures var r := Summarize(db, s);
      && r.ascentCount == CountWhere(db.ascents, InSession(s.id))
      && (r.maxGrade.None? <==> forall a | a in db.ascents :: a.sessionId != s.id)
      && (r.maxGrade.Some? ==> exists a | a in db.ascents && a.sessionId == s.id :: a.normalizedGrade == r.maxGrade.value)
      && (r.maxGrade.Some? ==> forall a | a in db.ascents && a.sessionId == s.id :: a.normalizedGrade <= r.maxGrade.value)
  {
    MapFilterValues(db.ascents, InSession(s.id), GradeOf);
  }

  /**
   * `list`: the page `page` (default 1) of `limit` (default 20) matching
   * sessions, newest first, with the number of all matching sessions. The
   * store refuses a negative LIMIT or OFFSET.
   */
  function List(db: Db, userId: UserId, opts: ListOptions): (r: Result<SessionPage>)
    ensures r.Err? <==> OffsetOf(opts) < 0 || LimitOf(opts) < 0
    ensures r.Err? ==> r.error == NegativePaging
    ensures r.Ok? ==> r.value.page == PageOf(opts) && r.value.limit == LimitOf(opts)
    ensures r.Ok? ==> r.value.total == CountWhere(db.sessions, MatchesFilter(userId, opts.filter))
    ensures r.Ok? ==> |r.value.data| == PageSize(r.value.total, OffsetOf(opts), LimitOf(opts))
    ensures r.Ok? ==>
      var offset, listed := OffsetOf(opts), Listed(db, userId, opts.filter);
      forall i | 0 <= i < |r.value.data| :: offset + i < |listed| && r.value.data[i] == Summarize(db, listed[offset + i])
  {
    var offset := OffsetOf(opts);
    var limit := LimitOf(opts);
    if offset < 0 || limit < 0 then Err(NegativePaging)
    else
      var listed := Listed(db, userId, opts.filter);
      Ok(SessionPage(Summaries(db, Page(listed, offset, limit)), PageOf(opts), limit, |listed|))
  }

  /** The summary of each session of a page, in page order. */
  function Summaries(db: Db, rows: seq<SessionRow>): (r: seq<SessionSummary>)
    ensures |r| == |rows|
    ensures forall i | 0 <= i < |r| :: r[i] == Summarize(db, rows[i])
  {
    Map(rows, (s: SessionRow) => Summarize(db, s))
  }

  /** A page holds only matching sessions, newest first, and never more than the total. */
  lemma ListPageMatches(db: Db, userId: UserId, opts: ListOptions)
    requires List(db, userId, opts).Ok?
    ensures var p := List(db, userId, opts).value;
      && |p.data| <= p.total
      && (forall i | 0 <= i < |p.data| :: p.data[i].session in db.sessions && Matches(p.data[i].session, userId, opts.filter))
      && (forall i, j | 0 <= i < j < |p.data| :: StrLe(p.data[j].session.date, p.data[i].session.date))
  {
    var p := List(db, userId, opts).value;
    var listed := Listed(db, userId, opts.filter);
    ListedMeans(db, userId, opts.filter);
    forall i | 0 <= i < |p.data| ensures p.data[i].session in db.sessions && Matches(p.data[i].session, userId, opts.filter) {
      assert listed[OffsetOf(opts) + i] in listed;
    }
  }

  /** Without page and limit the first twenty matching sessions come back. */
  lemma ListDefaults(db: Db, userId: UserId, opts: ListOptions)
    requires opts.page.None? && opts.limit.None?
    ensures var r := List(db, userId, opts);
      && r.Ok? && r.value.page == 1 && r.value.limit == 20
      && |r.value.data| == (if r.value.total < 20 then r.value.total else 20)
      && forall i | 0 <= i < |r.value.data| :: r.value.data[i].session == Listed(db, userId, opts.filter)[i]
  {
  }

  /**
   * Paging covers every match: the k-th matching session (counting from 0,
   * newest first) is entry k mod limit of page k div limit + 1.
   */
  lemma ListPageOfEveryMatch(db: Db, userId: UserId, f: ListFilter, limit: int, k: nat)
    requires limit > 0 && k < CountWhere(db.sessions, MatchesFilter(userId, f))
    ensures var r := List(db, userId, ListOptions(Some(k / limit + 1), Some(limit), f));
      && r.Ok?
      && k % limit < |r.value.data|
      && r.value.data[k % limit].session == Listed(db, userId, f)[k]
  {
    var o := ListOptions(Some(k / limit + 1), Some(limit), f);
    PageStart(k, limit);
    assert OffsetOf(o) == (k / limit + 1 - 1) * limit;
    ListEntryAt(db, userId, o, k % limit, k);
  }

  /** Entry `j` of a page is the match `j` places after the page's offset. */
  lemma ListEntryAt(db: Db, userId: UserId, o: ListOptions, j: nat, k: nat)
    requires OffsetOf(o) >= 0 && j < LimitOf(o) && OffsetOf(o) + j == k
    requires k < CountWhere(db.sessions, MatchesFilter(userId, o.filter))
    ensures var r := List(db, userId, o);
      && r.Ok?
      && j < |r.value.data|
      && r.value.data[j].session == Listed(db, userId, o.filter)[k]
  {
    var r := List(db, userId, o);
    var offset, limit, total := OffsetOf(o), LimitOf(o), r.value.total;
    assert j < PageSize(total, offset, limit) by {
      assert offset < total;
    }
    ListEntry(db, userId, o, j);
  }

  /** Entry `j` of a page summarizes the match at the page's offset plus `j`. */
  lemma ListEntry(db: Db, userId: UserId, o: ListOptions, j: nat)
    requires List(db, userId, o).Ok? && j < |List(db, userId, o).value.data|
    ensures List(db, userId, o).value.data[j].session == Listed(db, userId, o.filter)[OffsetOf(o) + j]
  {
    var data := List(db, userId, o).value.data;
    assert data[j] == Summarize(db, Listed(db, userId, o.filter)[OffsetOf(o) + j]);
  }

  /** Page `k div limit + 1` starts `k mod limit` entries before entry `k`. */
  lemma PageStart(k: nat, limit: int)
    requires limit > 0
    ensures (k / limit + 1 - 1) * limit + k % limit == k
    ensures 0 <= k % limit < limit
  {
  }

  // ---------------------------------------------------------------- getById

  /** The predicate "is session `id` of user `userId`". */
  function OwnedBy(userId: UserId, id: Id): SessionRow -> bool {
    (s: SessionRow) => s.id == id && s.userId == userId
  }

  /** `getById`: the user's session with that id and its ascents by sortOrder. */
  function GetById(db: Db, userId: UserId, id: Id): (r: Result<SessionDetail>)
    ensures r.Err? <==> !OwnsSession(db, userId, id)
    ensures r.Err? ==> r.error == NotFound("Session")
    ensures r.Ok? ==> r.value.session in db.sessions && r.value.session.id == id && r.value.session.userId == userId
    ensures r.Ok? ==> forall a :: a in r.value.ascents <==> a in db.ascents && a.sessionId == id
    ensures r.Ok? ==> forall i, j | 0 <= i < j < |r.value.ascents| :: r.value.ascents[i].sortOrder <= r.value.ascents[j].sortOrder
  {
    assert OwnsSession(db, userId, id) ==> Any(db.sessions, OwnedBy(userId, id)) by {
      if OwnsSession(db, userId, id) {
        var s :| s in db.sessions && s.id == id && s.userId == userId;
        var i :| 0 <= i < |db.sessions| && db.sessions[i] == s;
        assert OwnedBy(userId, id)(db.sessions[i]);
      }
    }
    match Find(db.sessions, OwnedBy(userId, id))
    case None => Err(NotFound("Session"))
    case Some(s) => Ok(SessionDetail(s, ListBySession(db, id)))
  }

  // ---------------------------------------------------------------- create

  /** The row `create` inserts: both timestamps are the current time. */
  function NewSession(id: Id, userId: UserId, input: SessionInput, now: int): SessionRow {
    SessionRow(id, userId, input.date, input.sessionType, input.locationId, input.notes, input.isOutdoor, input.cols, now, now)
  }

  /** `create`: one new session of the user, under an id no row uses yet. */
  function Create(db: Db, userId: UserId, input: SessionInput, now: int): (r: (Db, SessionRow))
    ensures r.0 == db.(sessions := db.sessions + [r.1], nextId := db.nextId + 1)
    ensures r.1.id == db.nextId && r.1.userId == userId
    ensures r.1.date == input.date && r.1.sessionType == input.sessionType && r.1.isOutdoor == input.isOutdoor
    ensures r.1.locationId == input.locationId && r.1.notes == input.notes && r.1.cols == input.cols
    ensures r.1.createdAt == now && r.1.updatedAt == now
  {
    var s := NewSession(db.nextId, userId, input, now);
    (db.(sessions := db.sessions + [s], nextId := db.nextId + 1), s)
  }

  /** A create keeps the invariant. */
  lemma CreateValid(db: Db, userId: UserId, input: SessionInput, now: int)
    requires Valid(db)
    ensures Valid(Create(db, userId, input, now).0)
  {
    AppendSessionValid(db, Create(db, userId, input, now).1);
  }

  /** Round trip: a created session reads back as itself, with no ascents yet. */
  lemma CreateThenGet(db: Db, userId: UserId, input: SessionInput, now: int)
    requires Valid(db)
    ensures var r := Create(db, userId, input, now);
      GetById(r.0, userId, r.1.id) == Ok(SessionDetail(r.1, []))
  {
    var r := Create(db, userId, input, now);
    var p := OwnedBy(userId, r.1.id);
    FindAfterMisses(db.sessions, r.1, p);
    assert forall a | a in r.0.ascents :: a.sessionId != r.1.id by {
      forall a | a in r.0.ascents ensures a.sessionId != r.1.id {
        var s :| s in db.sessions && s.id == a.sessionId;
      }
    }
    FilterNone(r.0.ascents, InSession(r.1.id));
  }

  // ---------------------------------------------------------------- update

  /** `{ ...input, updatedAt: now }` applied to a row. */
  function ApplySessionPatch(s: SessionRow, patch: SessionPatch, now: int): SessionRow {
    s.(
      locationId := patch.locationId.OrElse(s.locationId),
      date := patch.date.GetOr(s.date),
      sessionType := patch.sessionType.GetOr(s.sessionType),
      notes := patch.notes.OrElse(s.notes),
      isOutdoor := patch.isOutdoor.GetOr(s.isOutdoor),
      cols := Merge(s.cols, patch.cols),
      updatedAt := now)
  }

  /** The rows after `UPDATE sessions SET ... WHERE id = ... AND user_id = ...`. */
  function PatchSessions(rows: seq<SessionRow>, userId: UserId, id: Id, patch: SessionPatch, now: int): (r: seq<SessionRow>)
    ensures |r| == |rows|
    ensures forall i | 0 <= i < |rows| :: r[i].id == rows[i].id && r[i].userId == rows[i].userId
    ensures forall i | 0 <= i < |rows| && !OwnedBy(userId, id)(rows[i]) :: r[i] == rows[i]
    ensures forall i | 0 <= i < |rows| && OwnedBy(userId, id)(rows[i]) :: r[i] == ApplySessionPatch(rows[i], patch, now)
  {
    Map(rows, (s: SessionRow) => if s.id == id && s.userId == userId then ApplySessionPatch(s, patch, now) else s)
  }

  /** `update`: the user's session with that id takes the sent keys and a new updatedAt; otherwise 404 and nothing written. */
  function Update(db: Db, userId: UserId, id: Id, patch: SessionPatch, now: int): (r: Effect<SessionRow>)
    ensures !OwnsSession(db, userId, id) ==> r == Effect(db, Err(NotFound("Session")))
    ensures r.result.Ok? <==> OwnsSession(db, userId, id)
    ensures r.result.Ok? ==>
      && r.db == db.(sessions := PatchSessions(db.sessions, userId, id, patch, now))
      && r.result.value in r.db.sessions
      && r.result.value.id == id && r.result.value.userId == userId && r.result.value.updatedAt == now
  {
    if !OwnsSession(db, userId, id) then Effect(db, Err(NotFound("Session")))
    else
      var rows := PatchSessions(db.sessions, userId, id, patch, now);
      assert Any(rows, OwnedBy(userId, id)) by {
        var s :| s in db.sessions && s.id == id && s.userId == userId;
        var i :| 0 <= i < |db.sessions| && db.sessions[i] == s;
        assert OwnedBy(userId, id)(rows[i]);
      }
      Effect(db.(sessions := rows), Ok(Find(rows, OwnedBy(userId, id)).value))
  }

  /** Round trip: after an update, reading the session gives the updated row and the same ascents. */
  lemma UpdateThenGet(db: Db, userId: UserId, id: Id, patch: SessionPatch, now: int)
    requires Update(db, userId, id, patch, now).result.Ok?
    ensures var r := Update(db, userId, id, patch, now);
      && GetById(r.db, userId, id) == Ok(SessionDetail(r.result.value, ListBySession(db, id)))
      && r.result.value == ApplySessionPatch(GetById(db, userId, id).value.session, patch, now)
  {
    var r := Update(db, userId, id, patch, now);
    var p := OwnedBy(userId, id);
    FindRewrite(db.sessions, r.db.sessions, p, (s: SessionRow) => ApplySessionPatch(s, patch, now));
  }

  /** An update keeps the invariant. */
  lemma UpdateValid(db: Db, userId: UserId, id: Id, patch: SessionPatch, now: int)
    requires Valid(db)
    ensures Valid(Update(db, userId, id, patch, now).db)
  {
    RewriteSessionsValid(db, Update(db, userId, id, patch, now).db);
  }

  // ---------------------------------------------------------------- remove

  /** `remove`: the user's session goes with its ascents; otherwise 404 and nothing deleted. */
  function Remove(db: Db, userId: UserId, id: Id): (r: Effect<()>)
    ensures !OwnsSession(db, userId, id) ==> r == Effect(db, Err(NotFound("Session")))
    ensures r.result.Ok? <==> OwnsSession(db, userId, id)
    ensures r.result.Ok? ==>
      && (forall s :: s in r.db.sessions <==> s in db.sessions && s.id != id)
      && (forall a :: a in r.db.ascents <==> a in db.ascents && a.sessionId != id)
  {
    if !OwnsSession(db, userId, id) then Effect(db, Err(NotFound("Session")))
    else Effect(DeleteSession(db, id), Ok(()))
  }

  /** A remove keeps the invariant, and the session no longer reads back. */
  lemma RemoveThenGet(db: Db, userId: UserId, id: Id)
    requires Valid(db)
    ensures Valid(Remove(db, userId, id).db)
    ensures Remove(db, userId, id).result.Ok? ==> GetById(Remove(db, userId, id).db, userId, id) == Err(NotFound("Session"))
  {
    if OwnsSession(db, userId, id) {
      DeleteSessionValid(db, id);
    }
  }
}
