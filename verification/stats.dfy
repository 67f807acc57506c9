// The stats service: the totals of the dashboard and the per-day grade
// progression, both read from ascents joined with the user's sessions.

module Stats {
  import opened Wrappers
  import opened Seqs
  import opened Strings
  import opened Store

  /** One row of `ascents INNER JOIN sessions ON ascents.session_id = sessions.id`. */
  datatype JoinedRow = JoinedRow(ascent: AscentRow, session: SessionRow)

  /** The totals `summary` returns; the maxima are `null` over no rows. */
  datatype Summary = Summary(
    totalSessions: nat, totalAscents: nat, totalSends: nat, highestGrade: Option<int>,
    sessionsThisMonth: nat, ascentsThisMonth: nat, highestGradeThisMonth: Option<int>)

  /** One row of `progression`: a session date, the hardest send and the number of sends. */
  datatype ProgressionRow = ProgressionRow(date: string, maxGrade: Option<int>, sendCount: nat)

  /** The result value that counts as a send. */
  const SEND: string := "send"

  // ---------------------------------------------------------------- the join

  /** The joined rows of one ascent: one per session of the user it belongs to. */
  function JoinOne(a: AscentRow, sessions: seq<SessionRow>, userId: UserId): (r: seq<JoinedRow>)
    ensures forall j :: j in r <==> j.ascent == a && j.session in sessions && j.session.id == a.sessionId && j.session.userId == userId
    decreases |sessions|
  {
    if |sessions| == 0 then []
    else
      var s := sessions[0];
      assert forall x | x in sessions :: x == s || x in sessions[1..];
      (if s.id == a.sessionId && s.userId == userId then [JoinedRow(a, s)] else []) + JoinOne(a, sessions[1..], userId)
  }

  /** The join restricted to the user's sessions, ascent by ascent. */
  function Join(ascents: seq<AscentRow>, sessions: seq<SessionRow>, userId: UserId): (r: seq<JoinedRow>)
    ensures forall j :: j in r <==>
      j.ascent in ascents && j.session in sessions && j.session.id == j.ascent.sessionId && j.session.userId == userId
    decreases |ascents|
  {
    if |ascents| == 0 then []
    else
      var n := |ascents| - 1;
      assert forall x | x in ascents :: x == ascents[n] || x in ascents[..n] by {
        assert ascents == ascents[..n] + [ascents[n]];
      }
      Join(ascents[..n], sessions, userId) + JoinOne(ascents[n], sessions, userId)
  }

  function JoinOf(db: Db, userId: UserId): seq<JoinedRow> {
    Join(db.ascents, db.sessions, userId)
  }

  function GradeOf(j: JoinedRow): int {
    j.ascent.normalizedGrade
  }

  /** SQL `max(normalized_grade)` over some joined rows. */
  function MaxGrade(rows: seq<JoinedRow>): (r: Option<int>)
    ensures r.None? <==> |rows| == 0
    ensures r.Some? ==> exists j | j in rows :: j.ascent.normalizedGrade == r.value
    ensures r.Some? ==> forall j | j in rows :: j.ascent.normalizedGrade <= r.value
  {
    MapFilterValues(rows, (j: JoinedRow) => true, GradeOf);
    FilterAll(rows, (j: JoinedRow) => true);
    MaxOf(Map(rows, GradeOf))
  }

  // ---------------------------------------------------------------- summary

  /** The predicate "is a send". */
  function IsSend(): JoinedRow -> bool {
    (j: JoinedRow) => j.ascent.result == SEND
  }

  /** The predicate "is a send from a session dated on or after `monthStart`". */
  function SendSince(monthStart: string): JoinedRow -> bool {
    (j: JoinedRow) => j.ascent.result == SEND && StrLe(monthStart, j.session.date)
  }

  function OfUser(userId: UserId): SessionRow -> bool {
    (s: SessionRow) => s.userId == userId
  }

  function SessionSince(userId: UserId, monthStart: string): SessionRow -> bool {
    (s: SessionRow) => s.userId == userId && StrLe(monthStart, s.date)
  }

  /**
   * `summary`: the user's sessions and ascents in total and since the first
   * day of the current month (`monthStart`, a `YYYY-MM-DD` text). The total
   * counts every ascent and its maximum takes every ascent; the month's
   * ascent count and maximum take sends only.
   */
  function Summarize(db: Db, userId: UserId, monthStart: string): (r: Summary)
    ensures r.totalSessions == CountWhere(db.sessions, OfUser(userId))
    ensures r.totalAscents == |JoinOf(db, userId)|
    ensures r.totalSends == CountWhere(JoinOf(db, userId), IsSend())
    ensures r.sessionsThisMonth == CountWhere(db.sessions, SessionSince(userId, monthStart))
    ensures r.ascentsThisMonth == CountWhere(JoinOf(db, userId), SendSince(monthStart))
    ensures r.highestGrade.None? <==> |JoinOf(db, userId)| == 0
    ensures r.highestGrade.Some? ==> forall j | j in JoinOf(db, userId) :: j.ascent.normalizedGrade <= r.highestGrade.value
    ensures r.highestGrade.Some? ==> exists j | j in JoinOf(db, userId) :: j.ascent.normalizedGrade == r.highestGrade.value
    ensures r.highestGradeThisMonth.None? <==> forall j | j in JoinOf(db, userId) :: !SendSince(monthStart)(j)
    ensures r.highestGradeThisMonth.Some? ==>
      && (exists j | j in JoinOf(db, userId) && SendSince(monthStart)(j) :: j.ascent.normalizedGrade == r.highestGradeThisMonth.value)
      && (forall j | j in JoinOf(db, userId) && SendSince(monthStart)(j) :: j.ascent.normalizedGrade <= r.highestGradeThisMonth.value)
  {
    var joined := JoinOf(db, userId);
    var month := Filter(joined, SendSince(monthStart));
    Summary(
      CountWhere(db.sessions, OfUser(userId)),
      |joined|,
      CountWhere(joined, IsSend()),
      MaxGrade(joined),
      CountWhere(db.sessions, SessionSince(userId, monthStart)),
      |month|,
      MaxGrade(month))
  }

  /**
   * The totals are consistent: sends never outnumber ascents, the month's
   * counts never exceed the totals, and the month's hardest send is no
   * harder than the hardest ascent.
   */
  lemma SummaryBounds(db: Db, userId: UserId, monthStart: string)
    ensures var r := Summarize(db, userId, monthStart);
      && r.totalSends <= r.totalAscents
      && r.ascentsThisMonth <= r.totalSends
      && r.sessionsThisMonth <= r.totalSessions
      && (r.highestGradeThisMonth.Some? ==> r.highestGrade.Some? && r.highestGradeThisMonth.value <= r.highestGrade.value)
  {
    var joined := JoinOf(db, userId);
    CountWhereWeaker(joined, SendSince(monthStart), IsSend());
    CountWhereWeaker(db.sessions, SessionSince(userId, monthStart), OfUser(userId));
  }

  // ---------------------------------------------------------------- progression

  /** The filter of `progression`: a send, from a session dated within the given bounds, inclusive. */
  predicate InWindow(j: JoinedRow, from: Option<string>, to: Option<string>) {
    && j.ascent.result == SEND
    && (Given(from) ==> StrLe(from.value, j.session.date))
    && (Given(to) ==> StrLe(j.session.date, to.value))
  }

  /** The joined rows `progression` groups. */
  function Sends(db: Db, userId: UserId, from: Option<string>, to: Option<string>): seq<JoinedRow> {
    Filter(JoinOf(db, userId), (j: JoinedRow) => InWindow(j, from, to))
  }

  function SessionDate(j: JoinedRow): string {
    j.session.date
  }

  function GroupDate(g: Group<string, JoinedRow>): string {
    g.key
  }

  /** The aggregate of one date's group. */
  function ToRow(g: Group<string, JoinedRow>): (r: ProgressionRow)
    ensures r.date == g.key && r.sendCount == |g.items|
    ensures r.maxGrade.None? <==> |g.items| == 0
    ensures r.maxGrade.Some? ==> exists j | j in g.items :: j.ascent.normalizedGrade == r.maxGrade.value
    ensures r.maxGrade.Some? ==> forall j | j in g.items :: j.ascent.normalizedGrade <= r.maxGrade.value
  {
    ProgressionRow(g.key, MaxGrade(g.items), |g.items|)
  }

  /** The groups of `progression` over the given sends, one per session date, by ascending date. */
  function DateGroups(sends: seq<JoinedRow>): (r: seq<Group<string, JoinedRow>>)
    ensures forall g | g in r :: g in GroupBy(sends, SessionDate)
    ensures forall g | g in GroupBy(sends, SessionDate) :: g in r
    ensures forall i, j | 0 <= i < j < |r| :: StrLe(r[i].key, r[j].key) && r[i].key != r[j].key
    ensures forall i | 0 <= i < |r| :: |r[i].items| > 0
  {
    var groups := GroupBy(sends, SessionDate);
    var sorted := SortStrAsc(groups, GroupDate);
    PermutedGroupKeysDistinct(groups, sorted);
    forall i | 0 <= i < |sorted| ensures |sorted[i].items| > 0 {
      assert sorted[i] in groups;
    }
    sorted
  }

  /** The rows of `progression` over the given sends. */
  function RowsOf(sends: seq<JoinedRow>): (r: seq<ProgressionRow>)
    ensures forall i, j | 0 <= i < j < |r| :: StrLe(r[i].date, r[j].date) && r[i].date != r[j].date
    ensures forall i | 0 <= i < |r| :: r[i].sendCount > 0 && r[i].maxGrade.Some?
  {
    var groups := DateGroups(sends);
    var r := Map(groups, ToRow);
    forall i, j | 0 <= i < j < |r| ensures StrLe(r[i].date, r[j].date) && r[i].date != r[j].date {
      assert r[i].date == groups[i].key && r[j].date == groups[j].key;
    }
    r
  }

  /**
   * `progression`: the user's sends grouped by session date, ascending, each
   * with the hardest normalized grade and the number of sends that day.
   */
  function Progression(db: Db, userId: UserId, from: Option<string>, to: Option<string>): (r: seq<ProgressionRow>)
    ensures forall i, j | 0 <= i < j < |r| :: StrLe(r[i].date, r[j].date) && r[i].date != r[j].date
    ensures forall i | 0 <= i < |r| :: r[i].sendCount > 0 && r[i].maxGrade.Some?
  {
    RowsOf(Sends(db, userId, from, to))
  }

  /** The date groups hold, each, exactly the sends of their date. */
  lemma DateGroupsItems(sends: seq<JoinedRow>)
    ensures var r := DateGroups(sends);
      forall i | 0 <= i < |r| :: r[i].items == Filter(sends, HasKey(SessionDate, r[i].key))
  {
    var groups := GroupBy(sends, SessionDate);
    var r := DateGroups(sends);
    GroupByItems(sends, SessionDate);
    forall i | 0 <= i < |r| ensures r[i].items == Filter(sends, HasKey(SessionDate, r[i].key)) {
      assert r[i] in groups;
      var a :| 0 <= a < |groups| && groups[a] == r[i];
    }
  }

  /** There is a date group for exactly the session dates of the sends. */
  lemma DateGroupsKeys(sends: seq<JoinedRow>, date: string)
    ensures var r := DateGroups(sends);
      (exists i | 0 <= i < |r| :: r[i].key == date) <==> date in Map(sends, SessionDate)
  {
    GroupByKeys(sends, SessionDate);
    SameGroupsSameKeys(DateGroups(sends), GroupBy(sends, SessionDate), date);
  }

  /** Over any sends, there is a row for a date exactly when some send has that session date. */
  lemma RowsOfDates(sends: seq<JoinedRow>, date: string)
    ensures (exists i | 0 <= i < |RowsOf(sends)| :: RowsOf(sends)[i].date == date)
      <==> exists j | j in sends :: j.session.date == date
  {
    RowsOfKeys(sends, date);
    DateGroupsKeys(sends, date);
    SessionDatesOf(sends, date);
  }

  /** The rows carry exactly the dates of the groups. */
  lemma RowsOfKeys(sends: seq<JoinedRow>, date: string)
    ensures (exists i | 0 <= i < |RowsOf(sends)| :: RowsOf(sends)[i].date == date)
      <==> exists i | 0 <= i < |DateGroups(sends)| :: DateGroups(sends)[i].key == date
  {
    assert RowsOf(sends) == Map(DateGroups(sends), ToRow);
    GroupRowsKeys(DateGroups(sends), date);
  }

  /** The rows of any groups carry exactly the groups' keys as dates. */
  lemma GroupRowsKeys(groups: seq<Group<string, JoinedRow>>, date: string)
    ensures (exists i | 0 <= i < |Map(groups, ToRow)| :: Map(groups, ToRow)[i].date == date)
      <==> exists i | 0 <= i < |groups| :: groups[i].key == date
  {
    var r := Map(groups, ToRow);
    if exists i | 0 <= i < |r| :: r[i].date == date {
      var i :| 0 <= i < |r| && r[i].date == date;
      assert groups[i].key == date;
    }
    if exists i | 0 <= i < |groups| :: groups[i].key == date {
      var i :| 0 <= i < |groups| && groups[i].key == date;
      assert r[i].date == date;
    }
  }

  /** A date is among the sends' session dates exactly when some send has it. */
  lemma SessionDatesOf(sends: seq<JoinedRow>, date: string)
    ensures date in Map(sends, SessionDate) <==> exists j | j in sends :: j.session.date == date
  {
    var dates := Map(sends, SessionDate);
    if date in dates {
      var k :| 0 <= k < |sends| && dates[k] == date;
      assert sends[k] in sends;
    }
    if exists j | j in sends :: j.session.date == date {
      var j :| j in sends && j.session.date == date;
      var k := IndexOf(sends, j);
      assert dates[k] == date;
    }
  }


  /** There is a row for a date exactly when some send in the window comes from a session of that date. */
  lemma ProgressionDates(db: Db, userId: UserId, from: Option<string>, to: Option<string>, date: string)
    ensures (exists i | 0 <= i < |Progression(db, userId, from, to)| :: Progression(db, userId, from, to)[i].date == date)
      <==> exists j | j in JoinOf(db, userId) :: InWindow(j, from, to) && j.session.date == date
  {
    var sends := Sends(db, userId, from, to);
    assert Progression(db, userId, from, to) == RowsOf(sends);
    RowsOfDates(sends, date);
    if exists j | j in sends :: j.session.date == date {
      var j :| j in sends && j.session.date == date;
      assert j in JoinOf(db, userId) && InWindow(j, from, to);
    }
    if exists j | j in JoinOf(db, userId) :: InWindow(j, from, to) && j.session.date == date {
      var j :| j in JoinOf(db, userId) && InWindow(j, from, to) && j.session.date == date;
      assert j in sends;
    }
  }

  /** One row over any sends stands for exactly the sends of its date. */
  lemma RowOfItems(sends: seq<JoinedRow>, i: nat)
    requires i < |RowsOf(sends)|
    ensures var groups, row := DateGroups(sends), RowsOf(sends)[i];
      && row == ToRow(groups[i])
      && groups[i].items == Filter(sends, HasKey(SessionDate, row.date))
  {
    DateGroupsItems(sends);
  }

  /** One row over any sends counts exactly the day's sends and carries the hardest of them. */
  lemma RowOfCounts(sends: seq<JoinedRow>, i: nat)
    requires i < |RowsOf(sends)|
    ensures var row := RowsOf(sends)[i];
      && row.sendCount == CountWhere(sends, HasKey(SessionDate, row.date))
      && (exists j | j in sends :: j.session.date == row.date && j.ascent.normalizedGrade == row.maxGrade.value)
      && (forall j | j in sends && j.session.date == row.date :: j.ascent.normalizedGrade <= row.maxGrade.value)
  {
    var row := RowsOf(sends)[i];
    var items := DateGroups(sends)[i].items;
    RowOfItems(sends, i);
    var p := HasKey(SessionDate, row.date);
    forall j | j in sends && j.session.date == row.date ensures j in items {
      assert p(j);
    }
    var w :| w in items && w.ascent.normalizedGrade == row.maxGrade.value;
    assert w in sends && p(w);
  }

  /** Over any sends, each row counts exactly the day's sends and carries the hardest of them. */
  lemma RowsOfCounts(sends: seq<JoinedRow>)
    ensures var r := RowsOf(sends);
      forall i | 0 <= i < |r| ::
        && r[i].sendCount == CountWhere(sends, HasKey(SessionDate, r[i].date))
        && (exists j | j in sends :: j.session.date == r[i].date && j.ascent.normalizedGrade == r[i].maxGrade.value)
        && (forall j | j in sends && j.session.date == r[i].date :: j.ascent.normalizedGrade <= r[i].maxGrade.value)
  {
    forall i | 0 <= i < |RowsOf(sends)| {
      RowOfCounts(sends, i);
    }
  }

  /** Each row counts exactly the day's sends in the window and carries the hardest of them. */
  lemma ProgressionRows(db: Db, userId: UserId, from: Option<string>, to: Option<string>)
    ensures var r := Progression(db, userId, from, to);
      forall i | 0 <= i < |r| ::
        && r[i].sendCount == CountWhere(Sends(db, userId, from, to), HasKey(SessionDate, r[i].date))
        && (exists j | j in Sends(db, userId, from, to) :: j.session.date == r[i].date && j.ascent.normalizedGrade == r[i].maxGrade.value)
        && (forall j | j in Sends(db, userId, from, to) && j.session.date == r[i].date :: j.ascent.normalizedGrade <= r[i].maxGrade.value)
  {
    RowsOfCounts(Sends(db, userId, from, to));
  }
}
