// The wellbeing service: one log per user and day, written by upsert,
// listed newest first and read back by date.

module Wellbeing {
  import opened Wrappers
  import opened Seqs
  import opened Strings
  import opened Store

  /**
   * A validated log body: the day, and the scores, measurements and notes
   * that travel in `cols`.
   */
  datatype LogInput = LogInput(date: string, cols: Cols)

  /** The predicate "is user `userId`'s log of day `date`". */
  function AtKey(userId: UserId, date: string): WellbeingRow -> bool {
    (w: WellbeingRow) => w.userId == userId && w.date == date
  }

  function LogId(w: WellbeingRow): Id {
    w.id
  }

  /** No two logs share an id (the table's primary key). */
  predicate LogIdsDistinct(db: Db) {
    KeysDistinct(db.wellbeing, LogId)
  }

  lemma FoundIffLogged(db: Db, userId: UserId, date: string)
    ensures Find(db.wellbeing, AtKey(userId, date)).Some? <==> exists w | w in db.wellbeing :: LogKey(w) == (userId, date)
  {
    if exists w | w in db.wellbeing :: LogKey(w) == (userId, date) {
      var w :| w in db.wellbeing && LogKey(w) == (userId, date);
      var i :| 0 <= i < |db.wellbeing| && db.wellbeing[i] == w;
      assert AtKey(userId, date)(db.wellbeing[i]);
    }
  }

  // ---------------------------------------------------------------- upsert

  /** `.set(input)` applied to a row: the day and every sent key overwrite, the rest stay. */
  function Overwrite(w: WellbeingRow, input: LogInput): WellbeingRow {
    w.(date := input.date, cols := Merge(w.cols, input.cols))
  }

  /** The rows after `UPDATE wellbeing_logs SET ... WHERE id = ...`. */
  function OverwriteRows(rows: seq<WellbeingRow>, id: Id, input: LogInput): (r: seq<WellbeingRow>)
    ensures |r| == |rows|
    ensures forall i | 0 <= i < |rows| :: r[i].id == rows[i].id && r[i].userId == rows[i].userId
    ensures forall i | 0 <= i < |rows| && rows[i].id != id :: r[i] == rows[i]
    ensures forall i | 0 <= i < |rows| && rows[i].id == id :: r[i] == Overwrite(rows[i], input)
  {
    Map(rows, (w: WellbeingRow) => if w.id == id then Overwrite(w, input) else w)
  }

  /** The user's log of that day, if any (the first, as `LIMIT 1` picks). */
  function Existing(db: Db, userId: UserId, date: string): (r: Option<WellbeingRow>)
    ensures r.Some? <==> exists w | w in db.wellbeing :: LogKey(w) == (userId, date)
    ensures r.Some? ==> r.value in db.wellbeing && LogKey(r.value) == (userId, date)
  {
    FoundIffLogged(db, userId, date);
    Find(db.wellbeing, AtKey(userId, date))
  }

  /**
   * `upsert`: the user's log of that day takes the sent keys, keeping its id
   * and the keys not sent; with no log of that day a new one is inserted.
   */
  function Upsert(db: Db, userId: UserId, input: LogInput, now: int): (r: (Db, WellbeingRow))
    ensures r.1 in r.0.wellbeing && r.1.userId == userId && r.1.date == input.date
    ensures forall k | k in input.cols :: k in r.1.cols && r.1.cols[k] == input.cols[k]
    ensures r.0 == db.(wellbeing := r.0.wellbeing, nextId := r.0.nextId)
    ensures Existing(db, userId, input.date).Some? ==>
      var w := Existing(db, userId, input.date).value;
      && r.0 == db.(wellbeing := OverwriteRows(db.wellbeing, w.id, input))
      && r.1.id == w.id && r.1.createdAt == w.createdAt
      && (forall k | k in w.cols && k !in input.cols :: k in r.1.cols && r.1.cols[k] == w.cols[k])
    ensures Existing(db, userId, input.date).None? ==>
      && r.0 == db.(wellbeing := db.wellbeing + [r.1], nextId := db.nextId + 1)
      && r.1 == WellbeingRow(db.nextId, userId, input.date, input.cols, now)
  {
    match Existing(db, userId, input.date)
    case Some(w) =>
      var rows := OverwriteRows(db.wellbeing, w.id, input);
      assert Overwrite(w, input) in rows by {
        var i :| 0 <= i < |db.wellbeing| && db.wellbeing[i] == w;
        assert rows[i] == Overwrite(w, input);
      }
      (db.(wellbeing := rows), Overwrite(w, input))
    case None =>
      var n := WellbeingRow(db.nextId, userId, input.date, input.cols, now);
      (db.(wellbeing := db.wellbeing + [n], nextId := db.nextId + 1), n)
  }

  /** Merging keys a map already holds with those values leaves it as it was. */
  lemma MergeAbsorbed(cols: Cols, patch: Cols)
    requires forall k | k in patch :: k in cols && cols[k] == patch[k]
    ensures Merge(cols, patch) == cols
  {
  }

  /** Overwriting a log that already holds the body, under unique ids, changes no row. */
  lemma OverwriteNoop(db: Db, w: WellbeingRow, input: LogInput)
    requires LogIdsDistinct(db) && w in db.wellbeing && Overwrite(w, input) == w
    ensures OverwriteRows(db.wellbeing, w.id, input) == db.wellbeing
  {
    OverwriteKeepsKeys(db, w, input);
  }

  /** With unique ids, only the found log changes under an upsert, and its key stays. */
  lemma OverwriteKeepsKeys(db: Db, w: WellbeingRow, input: LogInput)
    requires LogIdsDistinct(db) && w in db.wellbeing && w.date == input.date
    ensures forall i | 0 <= i < |db.wellbeing| ::
      var rows := OverwriteRows(db.wellbeing, w.id, input);
      LogKey(rows[i]) == LogKey(db.wellbeing[i]) && (rows[i] != db.wellbeing[i] ==> db.wellbeing[i] == w)
  {
    var k :| 0 <= k < |db.wellbeing| && db.wellbeing[k] == w;
    forall i | 0 <= i < |db.wellbeing| && db.wellbeing[i].id == w.id ensures i == k {
    }
  }

  /** An upsert keeps the invariant, one log per user and day among them, and unique ids. */
  lemma UpsertValid(db: Db, userId: UserId, input: LogInput, now: int)
    requires Valid(db) && LogIdsDistinct(db)
    ensures Valid(Upsert(db, userId, input, now).0)
    ensures LogIdsDistinct(Upsert(db, userId, input, now).0)
  {
    var r := Upsert(db, userId, input, now);
    match Existing(db, userId, input.date)
    case Some(w) =>
      OverwriteRowsValid(db, w, input);
    case None =>
      SnocKeysDistinct(db.wellbeing, LogKey, r.1);
      SnocKeysDistinct(db.wellbeing, LogId, r.1);
  }

  /** Overwriting the found log keeps both unique indexes and the ids below the counter. */
  lemma OverwriteRowsValid(db: Db, w: WellbeingRow, input: LogInput)
    requires Valid(db) && LogIdsDistinct(db) && w in db.wellbeing && w.date == input.date
    ensures var d := db.(wellbeing := OverwriteRows(db.wellbeing, w.id, input));
      Valid(d) && LogIdsDistinct(d)
  {
    OverwriteKeepsKeys(db, w, input);
    var rows := OverwriteRows(db.wellbeing, w.id, input);
    forall i, j | 0 <= i < j < |rows| ensures LogKey(rows[i]) != LogKey(rows[j]) && LogId(rows[i]) != LogId(rows[j]) {
      assert LogKey(db.wellbeing[i]) != LogKey(db.wellbeing[j]);
      assert LogId(db.wellbeing[i]) != LogId(db.wellbeing[j]);
    }
    forall x | x in rows ensures x.id < db.nextId {
      var i :| 0 <= i < |rows| && rows[i] == x;
      assert db.wellbeing[i] in db.wellbeing;
    }
  }

  /** Every other log survives an upsert as it was, and no other log appears. */
  lemma UpsertKeepsOtherLogs(db: Db, userId: UserId, input: LogInput, now: int)
    requires LogIdsDistinct(db)
    ensures var r := Upsert(db, userId, input, now);
      forall x | LogKey(x) != (userId, input.date) :: x in r.0.wellbeing <==> x in db.wellbeing
  {
    var r := Upsert(db, userId, input, now);
    if Existing(db, userId, input.date).Some? {
      var w := Existing(db, userId, input.date).value;
      OverwriteKeepsKeys(db, w, input);
      var rows := r.0.wellbeing;
      forall x | LogKey(x) != (userId, input.date) ensures x in rows <==> x in db.wellbeing {
        if x in rows {
          var i :| 0 <= i < |rows| && rows[i] == x;
          assert db.wellbeing[i] == x;
        }
        if x in db.wellbeing {
          var i :| 0 <= i < |db.wellbeing| && db.wellbeing[i] == x;
          assert rows[i] == x;
        }
      }
    }
  }

  // ---------------------------------------------------------------- getByDate

  /** `getByDate`: the user's log of that day; 404 when there is none. */
  function GetByDate(db: Db, userId: UserId, date: string): (r: Result<WellbeingRow>)
    ensures r.Err? <==> forall w | w in db.wellbeing :: LogKey(w) != (userId, date)
    ensures r.Err? ==> r.error == NotFound("Wellbeing log")
    ensures r.Ok? ==> r.value in db.wellbeing && r.value.userId == userId && r.value.date == date
  {
    FoundIffLogged(db, userId, date);
    match Find(db.wellbeing, AtKey(userId, date))
    case None => Err(NotFound("Wellbeing log"))
    case Some(w) => Ok(w)
  }

  /** Under the unique index on user and day, the log of that day is the only row with its key. */
  lemma OnlyLogOfDay(db: Db, x: WellbeingRow, y: WellbeingRow)
    requires KeysDistinct(db.wellbeing, LogKey)
    requires x in db.wellbeing && y in db.wellbeing && LogKey(x) == LogKey(y)
    ensures x == y
  {
    var i :| 0 <= i < |db.wellbeing| && db.wellbeing[i] == x;
    var j :| 0 <= j < |db.wellbeing| && db.wellbeing[j] == y;
  }

  /** Round trip: after an upsert the day's log reads back as the row the upsert returned. */
  lemma UpsertThenGet(db: Db, userId: UserId, input: LogInput, now: int)
    requires Valid(db) && LogIdsDistinct(db)
    ensures var r := Upsert(db, userId, input, now);
      GetByDate(r.0, userId, input.date) == Ok(r.1)
  {
    var r := Upsert(db, userId, input, now);
    UpsertValid(db, userId, input, now);
    assert LogKey(r.1) == (userId, input.date);
    var g := GetByDate(r.0, userId, input.date);
    OnlyLogOfDay(r.0, g.value, r.1);
  }

  /** After an upsert the user has exactly one log of that day: the row the upsert returned. */
  lemma UpsertOneLog(db: Db, userId: UserId, input: LogInput, now: int)
    requires Valid(db) && LogIdsDistinct(db)
    ensures var r := Upsert(db, userId, input, now);
      && CountWhere(r.0.wellbeing, AtKey(userId, input.date)) == 1
      && forall w | w in r.0.wellbeing && w.userId == userId && w.date == input.date :: w == r.1
  {
    var r := Upsert(db, userId, input, now);
    var rows := r.0.wellbeing;
    var p := AtKey(userId, input.date);
    UpsertValid(db, userId, input, now);
    forall w | w in rows && w.userId == userId && w.date == input.date ensures w == r.1 {
      OnlyLogOfDay(r.0, w, r.1);
    }
    forall i, j | 0 <= i < j < |rows| ensures !(p(rows[i]) && p(rows[j])) {
      assert LogKey(rows[i]) != LogKey(rows[j]);
    }
    CountWhereOne(rows, p, r.1);
  }

  /** Upserting the same body twice changes nothing the second time. */
  lemma UpsertTwice(db: Db, userId: UserId, input: LogInput, now: int, later: int)
    requires Valid(db) && LogIdsDistinct(db)
    ensures var r := Upsert(db, userId, input, now);
      Upsert(r.0, userId, input, later) == r
  {
    var r := Upsert(db, userId, input, now);
    UpsertValid(db, userId, input, now);
    assert LogKey(r.1) == (userId, input.date);
    var w := Existing(r.0, userId, input.date).value;
    OnlyLogOfDay(r.0, w, r.1);
    MergeAbsorbed(r.1.cols, input.cols);
    assert Overwrite(r.1, input) == r.1;
    OverwriteNoop(r.0, r.1, input);
  }

  // ---------------------------------------------------------------- list

  /** The filter of `list`: the user's logs, from and to given days inclusive when given. */
  predicate InRange(w: WellbeingRow, userId: UserId, from: Option<string>, to: Option<string>) {
    && w.userId == userId
    && (Given(from) ==> StrLe(from.value, w.date))
    && (Given(to) ==> StrLe(w.date, to.value))
  }

  function LogDate(w: WellbeingRow): string {
    w.date
  }

  /** `list`: the user's logs in the range, latest day first. */
  function List(db: Db, userId: UserId, from: Option<string>, to: Option<string>): (r: seq<WellbeingRow>)
    ensures forall w :: w in r <==> w in db.wellbeing && InRange(w, userId, from, to)
    ensures forall i, j | 0 <= i < j < |r| :: StrLe(r[j].date, r[i].date)
    ensures multiset(r) == multiset(Filter(db.wellbeing, (w: WellbeingRow) => InRange(w, userId, from, to)))
  {
    SortStrDesc(Filter(db.wellbeing, (w: WellbeingRow) => InRange(w, userId, from, to)), LogDate)
  }

  /** A one-day range lists exactly the log `getByDate` returns for that day, or nothing. */
  lemma ListOneDay(db: Db, userId: UserId, date: string)
    requires Valid(db) && date != ""
    ensures forall w :: w in List(db, userId, Some(date), Some(date)) <==> GetByDate(db, userId, date) == Ok(w)
  {
    forall w ensures w in List(db, userId, Some(date), Some(date)) <==> GetByDate(db, userId, date) == Ok(w) {
      if w in List(db, userId, Some(date), Some(date)) {
        StrLeAntisymmetric(w.date, date);
        OnlyLogOfDay(db, GetByDate(db, userId, date).value, w);
      }
      if GetByDate(db, userId, date) == Ok(w) {
        StrLeTotal(date, date);
      }
    }
  }
}
