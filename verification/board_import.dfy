// The Kilter import engine: fetch the climber's history, skip what the ledger
// already holds, group the rest by calendar date, and file each date's ascents
// under one bouldering session, recording every ascent in the ledger.

module BoardImport {
  import opened Wrappers
  import opened Seqs
  import opened Store
  import opened Vault
  import opened Connections
  import opened KilterGrades
  import opened KilterClient
  import opened Strings

  /** The board type the import writes. */
  const KILTER: string := "kilter"

  /** The notes of a session the import creates. */
  const IMPORT_NOTES: string := "Imported from Kilter Board"

  /** The unique index that guards the ledger. */
  const DEDUP_INDEX: string := "imported_climbs_dedup_idx"

  /** How a vendor difficulty becomes a grade and a numeric; the import runs with `KILTER_GRADING`. */
  datatype Grading = Grading(vGrade: real -> string, numeric: real -> int)

  /** The grading the import uses: the Kilter table onto the V scale. */
  const KILTER_GRADING: Grading := Grading(KilterDifficultyToVGrade, KilterDifficultyToNumeric)

  /** The counters an import reports. */
  datatype ImportResult = ImportResult(sessionsCreated: nat, ascentsImported: nat, duplicatesSkipped: nat)

  // ---------------------------------------------------------------- dedup

  /** The ledger key of a vendor ascent: user, board, climb, angle and the time it was climbed. */
  function KeyOf(userId: UserId, a: KilterAscent): LedgerKey {
    LedgerKey(userId, KILTER, a.climbUuid, a.angle, a.climbedAt)
  }

  /** `isImported`: the ledger holds a row with that key. */
  predicate IsImported(ledger: seq<ImportedRow>, key: LedgerKey) {
    exists t | t in ledger :: t.key == key
  }

  /** Not yet in the ledger: the test that sends a fetched ascent on to the import. */
  function IsNew(ledger: seq<ImportedRow>, userId: UserId): KilterAscent -> bool {
    (a: KilterAscent) => !IsImported(ledger, KeyOf(userId, a))
  }

  /** Already in the ledger: the test that counts a fetched ascent as a duplicate. */
  function IsDuplicate(ledger: seq<ImportedRow>, userId: UserId): KilterAscent -> bool {
    (a: KilterAscent) => IsImported(ledger, KeyOf(userId, a))
  }

  /**
   * The loop that splits the fetch into new ascents (in fetch order) and a
   * count of skipped ones; every test reads the ledger as it stood before the run.
   */
  function Partition(ledger: seq<ImportedRow>, userId: UserId, fetched: seq<KilterAscent>): (r: (seq<KilterAscent>, nat))
    ensures r.0 == Filter(fetched, IsNew(ledger, userId))
    ensures r.1 == CountWhere(fetched, IsDuplicate(ledger, userId))
    ensures r.1 + |r.0| == |fetched|
  {
    if |fetched| == 0 then ([], 0)
    else
      var n := |fetched| - 1;
      var prev := Partition(ledger, userId, fetched[..n]);
      var kept := prev.0;
      var skipped := prev.1;
      assert fetched == fetched[..n] + [fetched[n]];
      FilterSnoc(fetched[..n], fetched[n], IsNew(ledger, userId));
      FilterSnoc(fetched[..n], fetched[n], IsDuplicate(ledger, userId));
      if IsImported(ledger, KeyOf(userId, fetched[n])) then (kept, skipped + 1) else (kept + [fetched[n]], skipped)
  }

  // ---------------------------------------------------------------- grouping

  /** How many UTF-16 code units of `climbed_at` name the calendar date. */
  const DATE_UNITS: nat := 10

  /** `climbed_at.slice(0, 10)`: the calendar date of a timestamp text, cut after ten UTF-16 code units. */
  function DatePrefix(a: KilterAscent): string {
    Utf16Prefix(a.climbedAt, DATE_UNITS)
  }

  /**
   * The date is a prefix of the timestamp at most ten code units long, cut no
   * earlier than it must; on text with no character beyond U+FFFF it is the
   * first ten characters.
   */
  lemma DatePrefixSpec(a: KilterAscent)
    ensures var d := DatePrefix(a);
      && d == a.climbedAt[..|d|] && Utf16Length(d) <= DATE_UNITS
      && (|d| < |a.climbedAt| ==> Utf16Length(a.climbedAt[..|d| + 1]) > DATE_UNITS)
    ensures Bmp(a.climbedAt) ==>
      DatePrefix(a) == if |a.climbedAt| <= DATE_UNITS then a.climbedAt else a.climbedAt[..DATE_UNITS]
  {
    if Bmp(a.climbedAt) {
      Utf16PrefixBmp(a.climbedAt, DATE_UNITS);
    }
  }

  /** `groupByDate`: one group per date in first-occurrence order, each holding its ascents in fetch order. */
  function GroupByDate(ascents: seq<KilterAscent>): (r: seq<Group<string, KilterAscent>>)
    ensures NoDup(Keys(r)) && TotalItems(r) == |ascents|
    ensures forall i | 0 <= i < |r| :: |r[i].items| > 0
  {
    GroupBy(ascents, DatePrefix)
  }

  /** Every new ascent lands in exactly one group: the one of its date, which holds the date's ascents in fetch order. */
  lemma GroupByDateSpec(ascents: seq<KilterAscent>)
    ensures Keys(GroupByDate(ascents)) == Distinct(Map(ascents, DatePrefix))
    ensures forall i | 0 <= i < |GroupByDate(ascents)| ::
      GroupByDate(ascents)[i].items == Filter(ascents, HasKey(DatePrefix, GroupByDate(ascents)[i].key))
  {
    GroupByKeys(ascents, DatePrefix);
    GroupByItems(ascents, DatePrefix);
  }

  // ---------------------------------------------------------------- climb names

  /** The climb lookup: each uuid maps to the name of the last climb listed with it. */
  function ClimbNames(climbs: seq<KilterClimb>): (r: map<string, string>)
    ensures r.Keys == set c | c in climbs :: c.uuid
  {
    if |climbs| == 0 then map[]
    else
      var n := |climbs| - 1;
      var prev := ClimbNames(climbs[..n]);
      assert climbs == climbs[..n] + [climbs[n]];
      prev[climbs[n].uuid := climbs[n].name]
  }

  /** A uuid names the climb listed with it last. */
  lemma {:induction false} ClimbNamesLast(climbs: seq<KilterClimb>, i: nat)
    requires i < |climbs| && forall j | i < j < |climbs| :: climbs[j].uuid != climbs[i].uuid
    ensures climbs[i].uuid in ClimbNames(climbs) && ClimbNames(climbs)[climbs[i].uuid] == climbs[i].name
    decreases |climbs|
  {
    var n := |climbs| - 1;
    if i < n {
      var init := climbs[..n];
      assert init[i] == climbs[i];
      forall j | i < j < |init| ensures init[j].uuid != init[i].uuid {
        assert init[j] == climbs[j];
      }
      ClimbNamesLast(init, i);
    }
  }

  // ---------------------------------------------------------------- one ascent

  /** `style`: a first-try send is a flash, anything else a redpoint. */
  function StyleOf(bidCount: int): (r: string)
    ensures r == "flash" <==> bidCount <= 1
    ensures r == "flash" || r == "redpoint"
  {
    if bidCount <= 1 then "flash" else "redpoint"
  }

  /** `bid_count || 1`: a zero count reads as one attempt. */
  function AttemptsOf(bidCount: int): (r: int)
    ensures bidCount != 0 ==> r == bidCount
    ensures bidCount == 0 ==> r == 1
  {
    if bidCount != 0 then bidCount else 1
  }

  /** The ascent row the import writes for a vendor ascent at position `index` of its date. */
  function AscentFromKilter(a: KilterAscent, g: Grading, sessionId: Id, names: map<string, string>, index: nat, id: Id): AscentRow {
    AscentRow(
      id, sessionId,
      if a.climbUuid in names then Some(names[a.climbUuid]) else None,
      g.vGrade(a.difficulty), "v_scale", g.numeric(a.difficulty),
      StyleOf(a.bidCount), AttemptsOf(a.bidCount), "send",
      Some(KILTER), Some(a.angle), Some(a.climbUuid), Some(BuildClimbUrl(a.climbUuid)),
      if a.comment == "" then None else Some(a.comment),
      index, map[])
  }

  /**
   * The fields of an imported ascent: a flash exactly when the vendor counted
   * at most one try, at least one attempt when it counted none, always a send
   * on the V scale, graded from the difficulty, ordered by position in its
   * date, named after the climb when the catalogue lists it, and linked to it.
   */
  lemma AscentFields(a: KilterAscent, sessionId: Id, names: map<string, string>, index: nat, id: Id)
    ensures var r := AscentFromKilter(a, KILTER_GRADING, sessionId, names, index, id);
      && r.id == id && r.sessionId == sessionId && r.sortOrder == index
      && (r.style == "flash" <==> a.bidCount <= 1) && (r.style == "flash" || r.style == "redpoint")
      && (a.bidCount != 0 ==> r.attempts == a.bidCount) && (a.bidCount == 0 ==> r.attempts == 1)
      && r.result == "send" && r.gradeSystem == "v_scale" && r.boardType == Some(KILTER)
      && r.grade == KilterDifficultyToVGrade(a.difficulty) && r.normalizedGrade == KilterDifficultyToNumeric(a.difficulty)
      && r.boardAngle == Some(a.angle) && r.boardClimbUuid == Some(a.climbUuid)
      && ClimbUuidOfUrl(r.boardClimbUrl.value) == Some(a.climbUuid)
      && (r.name.Some? <==> a.climbUuid in names)
      && (r.notes.Some? <==> a.comment != "")
  {
    BuildClimbUrlRoundTrip(a.climbUuid);
  }

  // ---------------------------------------------------------------- one date

  /** The ledger keys of `kas` are new to the ledger and to each other. */
  predicate KeysFresh(ledger: seq<ImportedRow>, userId: UserId, kas: seq<KilterAscent>) {
    && (forall j | 0 <= j < |kas| :: !IsImported(ledger, KeyOf(userId, kas[j])))
    && (forall j, k | 0 <= j < k < |kas| :: KeyOf(userId, kas[j]) != KeyOf(userId, kas[k]))
  }

  /** No two of the ascents share a dedup key. */
  predicate KeysUnique(userId: UserId, kas: seq<KilterAscent>) {
    forall j, k | 0 <= j < k < |kas| :: KeyOf(userId, kas[j]) != KeyOf(userId, kas[k])
  }

  /** Every one of the ascents has its dedup key in the ledger. */
  predicate AllRecorded(ledger: seq<ImportedRow>, userId: UserId, kas: seq<KilterAscent>) {
    forall j | 0 <= j < |kas| :: IsImported(ledger, KeyOf(userId, kas[j]))
  }

  /** One ascent insert and its ledger insert; the ledger insert fails on a key already present. */
  function InsertOne(db: Db, g: Grading, userId: UserId, sessionId: Id, a: KilterAscent, names: map<string, string>, index: nat): (e: Effect<()>)
    ensures e.result.Ok? <==> !IsImported(db.imported, KeyOf(userId, a))
    ensures e.result.Err? ==> e.result.error == UniqueViolation(DEDUP_INDEX)
    ensures e.db.ascents == db.ascents + [AscentFromKilter(a, g, sessionId, names, index, db.nextId)]
    ensures e.result.Ok? ==> e.db.imported == db.imported + [ImportedRow(db.nextId + 1, KeyOf(userId, a), db.nextId)]
    ensures e.result.Ok? ==> e.db.nextId == db.nextId + 2
    ensures e.result.Err? ==> e.db.imported == db.imported && e.db.nextId == db.nextId + 1
    ensures e.db.sessions == db.sessions && e.db.connections == db.connections
    ensures e.db.projects == db.projects && e.db.attempts == db.attempts && e.db.wellbeing == db.wellbeing
  {
    var row := AscentFromKilter(a, g, sessionId, names, index, db.nextId);
    var db1 := db.(ascents := db.ascents + [row], nextId := db.nextId + 1);
    var key := KeyOf(userId, a);
    if IsImported(db1.imported, key) then Effect(db1, Err(UniqueViolation(DEDUP_INDEX)))
    else Effect(db1.(imported := db1.imported + [ImportedRow(db1.nextId, key, row.id)], nextId := db1.nextId + 1), Ok(()))
  }

  /**
   * The insert loop of `createSessionWithAscents` from position `index` on: each
   * ascent, then its ledger row; the first refused ledger row ends the loop and
   * leaves its ascent behind without one.
   */
  function InsertAscents(db: Db, g: Grading, userId: UserId, sessionId: Id, kas: seq<KilterAscent>, names: map<string, string>, index: nat)
    : (e: Effect<()>)
    ensures e.result.Err? ==> e.result.error == UniqueViolation(DEDUP_INDEX)
    ensures e.db.sessions == db.sessions && e.db.connections == db.connections
    ensures e.db.projects == db.projects && e.db.attempts == db.attempts && e.db.wellbeing == db.wellbeing
    ensures e.db.nextId >= db.nextId
    ensures |db.ascents| <= |e.db.ascents| && e.db.ascents[..|db.ascents|] == db.ascents
    ensures |db.imported| <= |e.db.imported| && e.db.imported[..|db.imported|] == db.imported
    ensures e.result.Ok? ==> |e.db.ascents| == |db.ascents| + |kas| && |e.db.imported| == |db.imported| + |kas|
    decreases |kas|
  {
    if |kas| == 0 then Effect(db, Ok(()))
    else
      var first := InsertOne(db, g, userId, sessionId, kas[0], names, index);
      if first.result.Err? then first
      else
        var rest := InsertAscents(first.db, g, userId, sessionId, kas[1..], names, index + 1);
        assert first.db.ascents[..|db.ascents|] == db.ascents;
        assert first.db.imported[..|db.imported|] == db.imported;
        Effect(rest.db, rest.result)
  }

  /** One turn of the loop: a first ascent that goes in leaves the rest to the loop on the updated store. */
  lemma InsertAscentsStep(db: Db, g: Grading, userId: UserId, sessionId: Id, kas: seq<KilterAscent>, names: map<string, string>, index: nat)
    requires |kas| > 0 && InsertOne(db, g, userId, sessionId, kas[0], names, index).result.Ok?
    ensures InsertAscents(db, g, userId, sessionId, kas, names, index)
         == InsertAscents(InsertOne(db, g, userId, sessionId, kas[0], names, index).db, g, userId, sessionId, kas[1..], names, index + 1)
  {
  }

  /** The ascent rows a completed loop writes: one per vendor ascent, ids two apart from `firstId`, sortOrder counting from `index`. */
  function ExpectedAscents(kas: seq<KilterAscent>, g: Grading, sessionId: Id, names: map<string, string>, index: nat, firstId: nat)
    : (r: seq<AscentRow>)
    ensures |r| == |kas|
    decreases |kas|
  {
    if |kas| == 0 then []
    else [AscentFromKilter(kas[0], g, sessionId, names, index, firstId)] + ExpectedAscents(kas[1..], g, sessionId, names, index + 1, firstId + 2)
  }

  /** The ledger rows a completed loop writes: the j-th carries the j-th vendor ascent's key and points at the j-th new ascent. */
  function ExpectedLedger(kas: seq<KilterAscent>, userId: UserId, firstId: nat): (r: seq<ImportedRow>)
    ensures |r| == |kas|
    decreases |kas|
  {
    if |kas| == 0 then []
    else [ImportedRow(firstId + 1, KeyOf(userId, kas[0]), firstId)] + ExpectedLedger(kas[1..], userId, firstId + 2)
  }

  /** The expected rows of a non-empty group start with the first ascent's rows. */
  lemma ExpectedCons(kas: seq<KilterAscent>, g: Grading, userId: UserId, sessionId: Id, names: map<string, string>, index: nat, firstId: nat)
    requires |kas| > 0
    ensures ExpectedAscents(kas, g, sessionId, names, index, firstId)
         == [AscentFromKilter(kas[0], g, sessionId, names, index, firstId)] + ExpectedAscents(kas[1..], g, sessionId, names, index + 1, firstId + 2)
    ensures ExpectedLedger(kas, userId, firstId)
         == [ImportedRow(firstId + 1, KeyOf(userId, kas[0]), firstId)] + ExpectedLedger(kas[1..], userId, firstId + 2)
  {
  }

  /** A completed loop uses two fresh ids per vendor ascent. */
  lemma {:induction false} InsertAscentsIds(db: Db, g: Grading, userId: UserId, sessionId: Id, kas: seq<KilterAscent>, names: map<string, string>, index: nat)
    requires InsertAscents(db, g, userId, sessionId, kas, names, index).result.Ok?
    ensures InsertAscents(db, g, userId, sessionId, kas, names, index).db.nextId == db.nextId + 2 * |kas|
    decreases |kas|
  {
    if |kas| > 0 {
      var first := InsertOne(db, g, userId, sessionId, kas[0], names, index);
      InsertAscentsIds(first.db, g, userId, sessionId, kas[1..], names, index + 1);
    }
  }

  /** A completed loop appends exactly the expected ascent rows. */
  lemma {:induction false} InsertAscentsRows(db: Db, g: Grading, userId: UserId, sessionId: Id, kas: seq<KilterAscent>, names: map<string, string>, index: nat)
    requires InsertAscents(db, g, userId, sessionId, kas, names, index).result.Ok?
    ensures InsertAscents(db, g, userId, sessionId, kas, names, index).db.ascents
            == db.ascents + ExpectedAscents(kas, g, sessionId, names, index, db.nextId)
    decreases |kas|
  {
    if |kas| > 0 {
      var first := InsertOne(db, g, userId, sessionId, kas[0], names, index);
      var tl := kas[1..];
      InsertAscentsStep(db, g, userId, sessionId, kas, names, index);
      InsertAscentsRows(first.db, g, userId, sessionId, tl, names, index + 1);
      var row := AscentFromKilter(kas[0], g, sessionId, names, index, db.nextId);
      var tail := ExpectedAscents(tl, g, sessionId, names, index + 1, db.nextId + 2);
      ExpectedCons(kas, g, userId, sessionId, names, index, db.nextId);
      AppendStep(db.ascents, first.db.ascents, InsertAscents(first.db, g, userId, sessionId, tl, names, index + 1).db.ascents,
                 row, tail, ExpectedAscents(kas, g, sessionId, names, index, db.nextId));
    } else {
      assert db.ascents + [] == db.ascents;
    }
  }

  /**
   * Pairing: a completed loop appends one ledger row per vendor ascent, with
   * that ascent's key, pointing at the ascent row written for it.
   */
  lemma {:induction false} InsertAscentsLedger(db: Db, g: Grading, userId: UserId, sessionId: Id, kas: seq<KilterAscent>, names: map<string, string>, index: nat)
    requires InsertAscents(db, g, userId, sessionId, kas, names, index).result.Ok?
    ensures InsertAscents(db, g, userId, sessionId, kas, names, index).db.imported
            == db.imported + ExpectedLedger(kas, userId, db.nextId)
    decreases |kas|
  {
    if |kas| > 0 {
      var first := InsertOne(db, g, userId, sessionId, kas[0], names, index);
      var tl := kas[1..];
      InsertAscentsStep(db, g, userId, sessionId, kas, names, index);
      InsertAscentsLedger(first.db, g, userId, sessionId, tl, names, index + 1);
      var t := ImportedRow(db.nextId + 1, KeyOf(userId, kas[0]), db.nextId);
      ExpectedCons(kas, g, userId, sessionId, names, index, db.nextId);
      AppendStep(db.imported, first.db.imported, InsertAscents(first.db, g, userId, sessionId, tl, names, index + 1).db.imported,
                 t, ExpectedLedger(tl, userId, db.nextId + 2), ExpectedLedger(kas, userId, db.nextId));
    } else {
      assert db.imported + [] == db.imported;
    }
  }

  /** The j-th expected ascent is the row for the j-th vendor ascent, at position `index + j` with id `firstId + 2j`. */
  lemma {:induction false} ExpectedAscentsAt(kas: seq<KilterAscent>, g: Grading, sessionId: Id, names: map<string, string>, index: nat, firstId: nat, j: nat)
    requires j < |kas|
    ensures ExpectedAscents(kas, g, sessionId, names, index, firstId)[j]
            == AscentFromKilter(kas[j], g, sessionId, names, index + j, firstId + 2 * j)
    decreases j
  {
    if j > 0 {
      ExpectedAscentsAt(kas[1..], g, sessionId, names, index + 1, firstId + 2, j - 1);
    }
  }

  /** The j-th expected ledger row carries the j-th vendor ascent's key and the id `firstId + 2j`. */
  lemma {:induction false} ExpectedLedgerAt(kas: seq<KilterAscent>, userId: UserId, firstId: nat, j: nat)
    requires j < |kas|
    ensures ExpectedLedger(kas, userId, firstId)[j] == ImportedRow(firstId + 2 * j + 1, KeyOf(userId, kas[j]), firstId + 2 * j)
    decreases j
  {
    if j > 0 {
      ExpectedLedgerAt(kas[1..], userId, firstId + 2, j - 1);
    }
  }

  /** The j-th ledger row points at the j-th ascent row. */
  lemma ExpectedPairs(kas: seq<KilterAscent>, g: Grading, userId: UserId, sessionId: Id, names: map<string, string>, index: nat, firstId: nat, j: nat)
    requires j < |kas|
    ensures ExpectedLedger(kas, userId, firstId)[j].ascentId == ExpectedAscents(kas, g, sessionId, names, index, firstId)[j].id
    ensures ExpectedLedger(kas, userId, firstId)[j].key == KeyOf(userId, kas[j])
  {
    ExpectedAscentsAt(kas, g, sessionId, names, index, firstId, j);
    ExpectedLedgerAt(kas, userId, firstId, j);
  }

  // ---------------------------------------------------------------- the ledger across a loop

  /** A ledger row appended to the ledger adds exactly its key. */
  lemma IsImportedSnoc(ledger: seq<ImportedRow>, t: ImportedRow, key: LedgerKey)
    ensures IsImported(ledger + [t], key) <==> IsImported(ledger, key) || t.key == key
  {
    if t.key == key {
      assert t in ledger + [t];
    }
    if IsImported(ledger, key) {
      var u :| u in ledger && u.key == key;
      assert u in ledger + [t];
    }
  }

  /** A ledger only grows by appending, so a key it holds stays held. */
  lemma IsImportedGrows(a: seq<ImportedRow>, b: seq<ImportedRow>, key: LedgerKey)
    requires |a| <= |b| && b[..|a|] == a
    requires IsImported(a, key)
    ensures IsImported(b, key)
  {
    var u :| u in a && u.key == key;
    var i :| 0 <= i < |a| && a[i] == u;
    assert b[i] == u;
  }

  /** Taking one ascent off the front of `kas` and its ledger row onto the ledger keeps the keys fresh, and back. */
  lemma KeysFreshStep(ledger: seq<ImportedRow>, t: ImportedRow, userId: UserId, kas: seq<KilterAscent>)
    requires |kas| > 0 && t.key == KeyOf(userId, kas[0]) && !IsImported(ledger, t.key)
    ensures KeysFresh(ledger + [t], userId, kas[1..]) <==> KeysFresh(ledger, userId, kas)
  {
    forall j | 1 <= j < |kas|
      ensures IsImported(ledger + [t], KeyOf(userId, kas[j])) <==> IsImported(ledger, KeyOf(userId, kas[j])) || t.key == KeyOf(userId, kas[j])
    {
      IsImportedSnoc(ledger, t, KeyOf(userId, kas[j]));
    }
    if KeysFresh(ledger, userId, kas) {
      forall j | 0 <= j < |kas[1..]|
        ensures !IsImported(ledger + [t], KeyOf(userId, kas[1..][j]))
      {
        assert kas[1..][j] == kas[j + 1];
      }
      forall j, k | 0 <= j < k < |kas[1..]|
        ensures KeyOf(userId, kas[1..][j]) != KeyOf(userId, kas[1..][k])
      {
        assert kas[1..][j] == kas[j + 1] && kas[1..][k] == kas[k + 1];
      }
    }
    if KeysFresh(ledger + [t], userId, kas[1..]) {
      forall j | 1 <= j < |kas|
        ensures !IsImported(ledger, KeyOf(userId, kas[j])) && KeyOf(userId, kas[j]) != t.key
      {
        assert kas[1..][j - 1] == kas[j];
      }
      forall j, k | 1 <= j < k < |kas|
        ensures KeyOf(userId, kas[j]) != KeyOf(userId, kas[k])
      {
        assert kas[1..][j - 1] == kas[j] && kas[1..][k - 1] == kas[k];
      }
    }
  }

  /**
   * The loop completes exactly when every key is new to the ledger and to the
   * other ascents of the group; otherwise the unique index stops it.
   */
  lemma {:induction false} InsertAscentsOkIff(db: Db, g: Grading, userId: UserId, sessionId: Id, kas: seq<KilterAscent>, names: map<string, string>, index: nat)
    ensures InsertAscents(db, g, userId, sessionId, kas, names, index).result.Ok? <==> KeysFresh(db.imported, userId, kas)
    decreases |kas|
  {
    if |kas| > 0 {
      var first := InsertOne(db, g, userId, sessionId, kas[0], names, index);
      if first.result.Ok? {
        InsertAscentsOkIff(first.db, g, userId, sessionId, kas[1..], names, index + 1);
        KeysFreshStep(db.imported, ImportedRow(db.nextId + 1, KeyOf(userId, kas[0]), db.nextId), userId, kas);
      }
    }
  }

  /** After a completed loop every ascent of the group has its key in the ledger. */
  lemma InsertAscentsRecords(db: Db, g: Grading, userId: UserId, sessionId: Id, kas: seq<KilterAscent>, names: map<string, string>, index: nat)
    requires InsertAscents(db, g, userId, sessionId, kas, names, index).result.Ok?
    ensures forall j | 0 <= j < |kas| :: IsImported(InsertAscents(db, g, userId, sessionId, kas, names, index).db.imported, KeyOf(userId, kas[j]))
  {
    var e := InsertAscents(db, g, userId, sessionId, kas, names, index);
    InsertAscentsLedger(db, g, userId, sessionId, kas, names, index);
    var added := ExpectedLedger(kas, userId, db.nextId);
    forall j | 0 <= j < |kas|
      ensures IsImported(e.db.imported, KeyOf(userId, kas[j]))
    {
      ExpectedLedgerAt(kas, userId, db.nextId, j);
      assert e.db.imported[|db.imported| + j] == added[j];
    }
  }

  // ---------------------------------------------------------------- one date

  const BOULDERING: string := "bouldering"

  /** The user's bouldering session on a date, if any: the first such row (`LIMIT 1`). */
  function FindSession(db: Db, userId: UserId, date: string): (r: Option<SessionRow>)
    ensures r.Some? ==> r.value in db.sessions && r.value.userId == userId && r.value.date == date && r.value.sessionType == BOULDERING
    ensures r.None? <==> forall s | s in db.sessions :: !(s.userId == userId && s.date == date && s.sessionType == BOULDERING)
  {
    Find(db.sessions, (s: SessionRow) => s.userId == userId && s.date == date && s.sessionType == BOULDERING)
  }

  /** The session the import opens for a date that has none: bouldering, indoors, with the import note. */
  function ImportSession(id: Id, userId: UserId, date: string, now: int): SessionRow {
    SessionRow(id, userId, date, BOULDERING, None, Some(IMPORT_NOTES), false, map[], now, now)
  }

  /**
   * `createSessionWithAscents`: nothing for an empty group; otherwise reuse the
   * user's bouldering session of that date or open one, then run the insert
   * loop with sortOrder counting from 0.
   */
  function CreateSessionWithAscents(db: Db, g: Grading, userId: UserId, date: string, kas: seq<KilterAscent>, names: map<string, string>, now: int)
    : (e: Effect<Option<Id>>)
    ensures |kas| == 0 ==> e == Effect(db, Ok(None))
    ensures |kas| > 0 && e.result.Ok? ==> e.result.value.Some?
    ensures e.result.Err? ==> e.result.error == UniqueViolation(DEDUP_INDEX)
    ensures |kas| > 0 && FindSession(db, userId, date).Some? ==>
      e.db.sessions == db.sessions && (e.result.Ok? ==> e.result.value == Some(FindSession(db, userId, date).value.id))
    ensures |kas| > 0 && FindSession(db, userId, date).None? ==>
      e.db.sessions == db.sessions + [ImportSession(db.nextId, userId, date, now)] && (e.result.Ok? ==> e.result.value == Some(db.nextId))
    ensures e.db.connections == db.connections && e.db.projects == db.projects
    ensures e.db.attempts == db.attempts && e.db.wellbeing == db.wellbeing
    ensures |db.imported| <= |e.db.imported| && e.db.imported[..|db.imported|] == db.imported
  {
    if |kas| == 0 then Effect(db, Ok(None))
    else
      var found := FindSession(db, userId, date);
      var sid := if found.Some? then found.value.id else db.nextId;
      var db1 := if found.Some? then db
                 else db.(sessions := db.sessions + [ImportSession(db.nextId, userId, date, now)], nextId := db.nextId + 1);
      var ins := InsertAscents(db1, g, userId, sid, kas, names, 0);
      Effect(ins.db, if ins.result.Ok? then Ok(Some(sid)) else Err(ins.result.error))
  }

  /** The session of a date before its insert loop: the one found, or the one opened. */
  function SessionFor(db: Db, userId: UserId, date: string, now: int): (r: (Id, Db))
    ensures SessionExists(r.1, r.0)
  {
    var found := FindSession(db, userId, date);
    if found.Some? then (found.value.id, db)
    else
      var db1 := db.(sessions := db.sessions + [ImportSession(db.nextId, userId, date, now)], nextId := db.nextId + 1);
      assert db1.sessions[|db.sessions|].id == db.nextId;
      (db.nextId, db1)
  }

  /** A non-empty date's step is the insert loop run on the store with its session in place. */
  lemma CreateSessionLoop(db: Db, g: Grading, userId: UserId, date: string, kas: seq<KilterAscent>, names: map<string, string>, now: int)
    requires |kas| > 0
    ensures var s := SessionFor(db, userId, date, now);
      CreateSessionWithAscents(db, g, userId, date, kas, names, now).db == InsertAscents(s.1, g, userId, s.0, kas, names, 0).db
      && (CreateSessionWithAscents(db, g, userId, date, kas, names, now).result.Ok? <==> InsertAscents(s.1, g, userId, s.0, kas, names, 0).result.Ok?)
  {
  }

  /** A completed step leaves every ascent of the date with its key in the ledger, each key new before the step. */
  lemma CreateSessionRecords(db: Db, g: Grading, userId: UserId, date: string, kas: seq<KilterAscent>, names: map<string, string>, now: int)
    requires CreateSessionWithAscents(db, g, userId, date, kas, names, now).result.Ok?
    ensures AllRecorded(CreateSessionWithAscents(db, g, userId, date, kas, names, now).db.imported, userId, kas)
    ensures KeysFresh(db.imported, userId, kas) && KeysUnique(userId, kas)
  {
    if |kas| > 0 {
      var s := SessionFor(db, userId, date, now);
      CreateSessionLoop(db, g, userId, date, kas, names, now);
      InsertAscentsRecords(s.1, g, userId, s.0, kas, names, 0);
      InsertAscentsOkIff(s.1, g, userId, s.0, kas, names, 0);
    }
  }

  // ---------------------------------------------------------------- all dates

  /** What the loop over dates counts: sessions (one per non-empty date) and ascents. */
  datatype Tally = Tally(sessions: nat, ascents: nat)

  /**
   * The loop of `importKilterHistory` over the date groups, in order: each
   * date's step, counting a session and the date's ascents when the step
   * returns an id. A failed step ends the run with the writes made so far.
   */
  function ImportGroups(db: Db, g: Grading, userId: UserId, groups: seq<Group<string, KilterAscent>>, names: map<string, string>, now: int)
    : (e: Effect<Tally>)
    ensures e.result.Ok? ==> e.result.value.ascents == TotalItems(groups)
    ensures e.result.Ok? && (forall i | 0 <= i < |groups| :: |groups[i].items| > 0) ==> e.result.value.sessions == |groups|
    ensures e.result.Err? ==> e.result.error == UniqueViolation(DEDUP_INDEX)
    ensures e.db.connections == db.connections && e.db.projects == db.projects
    ensures e.db.attempts == db.attempts && e.db.wellbeing == db.wellbeing
    ensures |db.imported| <= |e.db.imported| && e.db.imported[..|db.imported|] == db.imported
    decreases |groups|
  {
    if |groups| == 0 then Effect(db, Ok(Tally(0, 0)))
    else
      var n := |groups| - 1;
      var prev := ImportGroups(db, g, userId, groups[..n], names, now);
      if prev.result.Err? then prev
      else
        var grp := groups[n];
        var step := CreateSessionWithAscents(prev.db, g, userId, grp.key, grp.items, names, now);
        var t := prev.result.value;
        assert step.db.imported[..|db.imported|] == db.imported by {
          assert step.db.imported[..|prev.db.imported|][..|db.imported|] == db.imported;
        }
        if step.result.Err? then Effect(step.db, Err(step.result.error))
        else if step.result.value.Some? then Effect(step.db, Ok(Tally(t.sessions + 1, t.ascents + |grp.items|)))
        else Effect(step.db, Ok(t))
  }

  /** Keys recorded in a ledger stay recorded as the ledger grows. */
  lemma AllRecordedGrows(a: seq<ImportedRow>, b: seq<ImportedRow>, userId: UserId, kas: seq<KilterAscent>)
    requires |a| <= |b| && b[..|a|] == a
    requires AllRecorded(a, userId, kas)
    ensures AllRecorded(b, userId, kas)
  {
    forall j | 0 <= j < |kas| ensures IsImported(b, KeyOf(userId, kas[j])) {
      IsImportedGrows(a, b, KeyOf(userId, kas[j]));
    }
  }

  /** Extending a ledger that records all but the last group by one that records the last group records them all. */
  lemma AllRecordedSnoc(prev: seq<ImportedRow>, after: seq<ImportedRow>, userId: UserId, groups: seq<Group<string, KilterAscent>>, init: seq<Group<string, KilterAscent>>)
    requires |groups| > 0 && init == groups[..|groups| - 1]
    requires |prev| <= |after| && after[..|prev|] == prev
    requires forall i | 0 <= i < |init| :: AllRecorded(prev, userId, init[i].items)
    requires AllRecorded(after, userId, groups[|groups| - 1].items)
    ensures forall i | 0 <= i < |groups| :: AllRecorded(after, userId, groups[i].items)
  {
    forall i | 0 <= i < |init| ensures AllRecorded(after, userId, groups[i].items) {
      assert init[i] == groups[i];
      AllRecordedGrows(prev, after, userId, groups[i].items);
    }
  }

  /** After a completed loop every ascent of every group has its key in the ledger. */
  lemma {:induction false} ImportGroupsRecords(db: Db, g: Grading, userId: UserId, groups: seq<Group<string, KilterAscent>>, names: map<string, string>, now: int)
    requires ImportGroups(db, g, userId, groups, names, now).result.Ok?
    ensures forall i | 0 <= i < |groups| ::
      AllRecorded(ImportGroups(db, g, userId, groups, names, now).db.imported, userId, groups[i].items)
    decreases |groups|
  {
    if |groups| > 0 {
      var n := |groups| - 1;
      var prev := ImportGroups(db, g, userId, groups[..n], names, now);
      var step := CreateSessionWithAscents(prev.db, g, userId, groups[n].key, groups[n].items, names, now);
      assert ImportGroups(db, g, userId, groups, names, now).db == step.db;
      ImportGroupsRecords(db, g, userId, groups[..n], names, now);
      CreateSessionRecords(prev.db, g, userId, groups[n].key, groups[n].items, names, now);
      AllRecordedSnoc(prev.db.imported, step.db.imported, userId, groups, groups[..n]);
    }
  }

  /** When all but the last group and the last group hold no repeated key, no group does. */
  lemma KeysUniqueSnoc(userId: UserId, groups: seq<Group<string, KilterAscent>>, init: seq<Group<string, KilterAscent>>)
    requires |groups| > 0 && init == groups[..|groups| - 1]
    requires forall i | 0 <= i < |init| :: KeysUnique(userId, init[i].items)
    requires KeysUnique(userId, groups[|groups| - 1].items)
    ensures forall i | 0 <= i < |groups| :: KeysUnique(userId, groups[i].items)
  {
    forall i | 0 <= i < |init| ensures KeysUnique(userId, groups[i].items) {
      assert init[i] == groups[i];
    }
  }

  /** After a completed loop no group held two ascents with one key. */
  lemma {:induction false} ImportGroupsFresh(db: Db, g: Grading, userId: UserId, groups: seq<Group<string, KilterAscent>>, names: map<string, string>, now: int)
    requires ImportGroups(db, g, userId, groups, names, now).result.Ok?
    ensures forall i | 0 <= i < |groups| :: KeysUnique(userId, groups[i].items)
    decreases |groups|
  {
    if |groups| > 0 {
      var n := |groups| - 1;
      var prev := ImportGroups(db, g, userId, groups[..n], names, now);
      var step := CreateSessionWithAscents(prev.db, g, userId, groups[n].key, groups[n].items, names, now);
      assert prev.result.Ok? && step.result.Ok?;
      ImportGroupsFresh(db, g, userId, groups[..n], names, now);
      CreateSessionRecords(prev.db, g, userId, groups[n].key, groups[n].items, names, now);
      KeysUniqueSnoc(userId, groups, groups[..n]);
    }
  }

  // ---------------------------------------------------------------- the engine after the fetch

  /** The ascents of a fetch the run goes on to import. */
  function NewAscents(ledger: seq<ImportedRow>, userId: UserId, fetched: seq<KilterAscent>): (r: seq<KilterAscent>)
    ensures forall a | a in r :: a in fetched && !IsImported(ledger, KeyOf(userId, a))
    ensures forall a | a in fetched && !IsImported(ledger, KeyOf(userId, a)) :: a in r
  {
    Filter(fetched, IsNew(ledger, userId))
  }

  /**
   * `importKilterHistory` from the fetched data on: the climb lookup, the
   * dedup split, the grouping by date and the loop over dates.
   */
  function ImportFetched(db: Db, g: Grading, userId: UserId, fetched: seq<KilterAscent>, climbs: seq<KilterClimb>, now: int)
    : (e: Effect<ImportResult>)
    ensures e.result.Ok? ==> e.result.value.duplicatesSkipped + e.result.value.ascentsImported == |fetched|
    ensures e.result.Ok? ==> e.result.value.ascentsImported == |NewAscents(db.imported, userId, fetched)|
    ensures e.result.Ok? ==> e.result.value.duplicatesSkipped == CountWhere(fetched, IsDuplicate(db.imported, userId))
    ensures e.result.Ok? ==> e.result.value.sessionsCreated == |GroupByDate(NewAscents(db.imported, userId, fetched))|
    ensures e.result.Err? ==> e.result.error == UniqueViolation(DEDUP_INDEX)
    ensures e.db.connections == db.connections
    ensures |db.imported| <= |e.db.imported| && e.db.imported[..|db.imported|] == db.imported
  {
    var part := Partition(db.imported, userId, fetched);
    var run := ImportGroups(db, g, userId, GroupByDate(part.0), ClimbNames(climbs), now);
    match run.result
    case Err(f) => Effect(run.db, Err(f))
    case Ok(t) => Effect(run.db, Ok(ImportResult(t.sessions, t.ascents, part.1)))
  }

  /** One session is counted per distinct calendar date among the new ascents. */
  lemma ImportFetchedSessions(db: Db, g: Grading, userId: UserId, fetched: seq<KilterAscent>, climbs: seq<KilterClimb>, now: int)
    requires ImportFetched(db, g, userId, fetched, climbs, now).result.Ok?
    ensures ImportFetched(db, g, userId, fetched, climbs, now).result.value.sessionsCreated
            == |Distinct(Map(NewAscents(db.imported, userId, fetched), DatePrefix))|
  {
    GroupByDateSpec(NewAscents(db.imported, userId, fetched));
  }

  /** A new ascent lands in the group of its date. */
  lemma InItsGroup(news: seq<KilterAscent>, a: KilterAscent)
    requires a in news
    ensures exists i | 0 <= i < |GroupByDate(news)| :: a in GroupByDate(news)[i].items
  {
    var gs := GroupByDate(news);
    GroupByDateSpec(news);
    var m := Map(news, DatePrefix);
    var p :| 0 <= p < |news| && news[p] == a;
    assert m[p] == DatePrefix(a);
    assert DatePrefix(a) in Keys(gs);
    var i :| 0 <= i < |gs| && Keys(gs)[i] == DatePrefix(a);
    assert HasKey(DatePrefix, gs[i].key)(a);
  }

  /** After a completed run the ledger holds the key of every fetched ascent, skipped or imported. */
  lemma ImportFetchedRecords(db: Db, g: Grading, userId: UserId, fetched: seq<KilterAscent>, climbs: seq<KilterClimb>, now: int)
    requires ImportFetched(db, g, userId, fetched, climbs, now).result.Ok?
    ensures forall a | a in fetched :: IsImported(ImportFetched(db, g, userId, fetched, climbs, now).db.imported, KeyOf(userId, a))
  {
    var news := NewAscents(db.imported, userId, fetched);
    assert Partition(db.imported, userId, fetched).0 == news;
    var gs := GroupByDate(news);
    var after := ImportGroups(db, g, userId, gs, ClimbNames(climbs), now).db;
    assert after == ImportFetched(db, g, userId, fetched, climbs, now).db;
    ImportGroupsRecords(db, g, userId, gs, ClimbNames(climbs), now);
    forall a | a in fetched
      ensures IsImported(after.imported, KeyOf(userId, a))
    {
      if IsImported(db.imported, KeyOf(userId, a)) {
        IsImportedGrows(db.imported, after.imported, KeyOf(userId, a));
      } else {
        InItsGroup(news, a);
        var i :| 0 <= i < |gs| && a in gs[i].items;
        var j :| 0 <= j < |gs[i].items| && gs[i].items[j] == a;
        assert AllRecorded(after.imported, userId, gs[i].items);
      }
    }
  }

  /** A fetch the ledger already holds entirely imports nothing, writes nothing, and counts every ascent as a duplicate. */
  lemma ImportFetchedAllKnown(db: Db, g: Grading, userId: UserId, fetched: seq<KilterAscent>, climbs: seq<KilterClimb>, now: int)
    requires forall a | a in fetched :: IsImported(db.imported, KeyOf(userId, a))
    ensures ImportFetched(db, g, userId, fetched, climbs, now) == Effect(db, Ok(ImportResult(0, 0, |fetched|)))
  {
    var part := Partition(db.imported, userId, fetched);
    FilterNone(fetched, IsNew(db.imported, userId));
    assert GroupByDate(part.0) == [];
    assert ImportGroups(db, g, userId, [], ClimbNames(climbs), now) == Effect(db, Ok(Tally(0, 0)));
  }

  /**
   * Idempotence: after a completed run, importing the same fetch again skips
   * every ascent, creates nothing and writes nothing.
   */
  lemma ImportFetchedIdempotent(db: Db, g: Grading, userId: UserId, fetched: seq<KilterAscent>, climbs: seq<KilterClimb>, now: int, later: int)
    requires ImportFetched(db, g, userId, fetched, climbs, now).result.Ok?
    ensures var after := ImportFetched(db, g, userId, fetched, climbs, now).db;
      ImportFetched(after, g, userId, fetched, climbs, later) == Effect(after, Ok(ImportResult(0, 0, |fetched|)))
  {
    ImportFetchedRecords(db, g, userId, fetched, climbs, now);
    ImportFetchedAllKnown(ImportFetched(db, g, userId, fetched, climbs, now).db, g, userId, fetched, climbs, later);
  }

  /** Two copies of one ascent land in one date group, at two positions. */
  lemma CopiesShareGroup(news: seq<KilterAscent>, i: nat, j: nat) returns (k: nat, p: nat, q: nat)
    requires i < j < |news| && news[i] == news[j]
    ensures k < |GroupByDate(news)| && p < q < |GroupByDate(news)[k].items|
    ensures GroupByDate(news)[k].items[p] == news[i] && GroupByDate(news)[k].items[q] == news[i]
  {
    var gs := GroupByDate(news);
    var a := news[i];
    InItsGroup(news, a);
    k :| 0 <= k < |gs| && a in gs[k].items;
    GroupByDateSpec(news);
    assert gs[k].items == Filter(news, HasKey(DatePrefix, gs[k].key));
    p, q := FilterPair(news, HasKey(DatePrefix, gs[k].key), i, j);
  }

  /**
   * Two copies of one vendor record that the ledger lacks both pass the dedup
   * test, since it reads the ledger from before the run; the second ledger
   * insert then hits the unique index and the run fails.
   */
  lemma ImportFetchedDuplicate(db: Db, g: Grading, userId: UserId, fetched: seq<KilterAscent>, climbs: seq<KilterClimb>, now: int, i: nat, j: nat)
    requires i < j < |fetched| && fetched[i] == fetched[j]
    requires !IsImported(db.imported, KeyOf(userId, fetched[i]))
    ensures ImportFetched(db, g, userId, fetched, climbs, now).result == Err(UniqueViolation(DEDUP_INDEX))
  {
    var news := NewAscents(db.imported, userId, fetched);
    var i1, j1 := FilterPair(fetched, IsNew(db.imported, userId), i, j);
    var gs := GroupByDate(news);
    var k, p, q := CopiesShareGroup(news, i1, j1);
    var run := ImportGroups(db, g, userId, gs, ClimbNames(climbs), now);
    if run.result.Ok? {
      ImportGroupsFresh(db, g, userId, gs, ClimbNames(climbs), now);
      assert false;
    }
    assert Partition(db.imported, userId, fetched).0 == news;
  }

  // ---------------------------------------------------------------- the store stays valid

  /** One ascent and its ledger row keep the ids below the counter. */
  lemma InsertOneIds(db: Db, g: Grading, userId: UserId, sessionId: Id, a: KilterAscent, names: map<string, string>, index: nat)
    requires IdsBelowNext(db)
    ensures IdsBelowNext(InsertOne(db, g, userId, sessionId, a, names, index).db)
  {
    var e := InsertOne(db, g, userId, sessionId, a, names, index);
    var row := AscentFromKilter(a, g, sessionId, names, index, db.nextId);
    assert row.id == db.nextId;
    forall x | x in e.db.ascents ensures x.id < e.db.nextId {
      if x != row {
        assert x in db.ascents;
      }
    }
    forall t | t in e.db.imported ensures t.id < e.db.nextId {
      if t !in db.imported {
        assert t.id == db.nextId + 1;
      }
    }
  }

  /** One ascent and its ledger row keep every foreign key, given the ascent's session exists. */
  lemma InsertOneLinks(db: Db, g: Grading, userId: UserId, sessionId: Id, a: KilterAscent, names: map<string, string>, index: nat)
    requires ForeignKeys(db) && SessionExists(db, sessionId)
    ensures ForeignKeys(InsertOne(db, g, userId, sessionId, a, names, index).db)
  {
    var e := InsertOne(db, g, userId, sessionId, a, names, index);
    var row := AscentFromKilter(a, g, sessionId, names, index, db.nextId);
    assert row.id == db.nextId && row.sessionId == sessionId;
    assert row in e.db.ascents;
    forall x | x in e.db.ascents ensures SessionExists(e.db, x.sessionId) {
      if x != row {
        assert x in db.ascents;
      }
    }
    forall t | t in e.db.imported ensures AscentExists(e.db, t.ascentId) {
      if t in db.imported {
        var y :| y in db.ascents && y.id == t.ascentId;
        assert y in e.db.ascents;
      }
    }
  }

  /** One ascent and its ledger row keep the store valid when the ascent's session exists. */
  lemma InsertOneValid(db: Db, g: Grading, userId: UserId, sessionId: Id, a: KilterAscent, names: map<string, string>, index: nat)
    requires Valid(db) && SessionExists(db, sessionId)
    ensures Valid(InsertOne(db, g, userId, sessionId, a, names, index).db)
    ensures SessionExists(InsertOne(db, g, userId, sessionId, a, names, index).db, sessionId)
  {
    var e := InsertOne(db, g, userId, sessionId, a, names, index);
    InsertOneIds(db, g, userId, sessionId, a, names, index);
    InsertOneLinks(db, g, userId, sessionId, a, names, index);
    if e.result.Ok? {
      var t := ImportedRow(db.nextId + 1, KeyOf(userId, a), db.nextId);
      forall y | y in db.imported ensures LedgerKeyOf(y) != LedgerKeyOf(t) {
      }
      SnocKeysDistinct(db.imported, LedgerKeyOf, t);
    }
  }

  /** The insert loop keeps the store valid when the group's session exists, even when the unique index stops it. */
  lemma {:induction false} InsertAscentsValid(db: Db, g: Grading, userId: UserId, sessionId: Id, kas: seq<KilterAscent>, names: map<string, string>, index: nat)
    requires Valid(db) && SessionExists(db, sessionId)
    ensures Valid(InsertAscents(db, g, userId, sessionId, kas, names, index).db)
    decreases |kas|
  {
    if |kas| > 0 {
      var first := InsertOne(db, g, userId, sessionId, kas[0], names, index);
      InsertOneValid(db, g, userId, sessionId, kas[0], names, index);
      if first.result.Ok? {
        InsertAscentsStep(db, g, userId, sessionId, kas, names, index);
        InsertAscentsValid(first.db, g, userId, sessionId, kas[1..], names, index + 1);
      }
    }
  }

  /** Finding or opening the date's session keeps the store valid. */
  lemma SessionForValid(db: Db, userId: UserId, date: string, now: int)
    requires Valid(db)
    ensures Valid(SessionFor(db, userId, date, now).1)
  {
    var s := SessionFor(db, userId, date, now);
    if FindSession(db, userId, date).None? {
      var db1 := s.1;
      assert db1.sessions == db.sessions + [ImportSession(db.nextId, userId, date, now)];
      forall x | x in db1.ascents ensures SessionExists(db1, x.sessionId) {
        var y :| y in db.sessions && y.id == x.sessionId;
        assert y in db1.sessions;
      }
    }
  }

  /** A date's step keeps the store valid, whether it completes or not. */
  lemma CreateSessionValid(db: Db, g: Grading, userId: UserId, date: string, kas: seq<KilterAscent>, names: map<string, string>, now: int)
    requires Valid(db)
    ensures Valid(CreateSessionWithAscents(db, g, userId, date, kas, names, now).db)
  {
    if |kas| > 0 {
      var s := SessionFor(db, userId, date, now);
      SessionForValid(db, userId, date, now);
      CreateSessionLoop(db, g, userId, date, kas, names, now);
      InsertAscentsValid(s.1, g, userId, s.0, kas, names, 0);
    }
  }

  /** The loop over dates keeps the store valid, whether it completes or not. */
  lemma {:induction false} ImportGroupsValid(db: Db, g: Grading, userId: UserId, groups: seq<Group<string, KilterAscent>>, names: map<string, string>, now: int)
    requires Valid(db)
    ensures Valid(ImportGroups(db, g, userId, groups, names, now).db)
    decreases |groups|
  {
    if |groups| > 0 {
      var n := |groups| - 1;
      var prev := ImportGroups(db, g, userId, groups[..n], names, now);
      ImportGroupsValid(db, g, userId, groups[..n], names, now);
      if prev.result.Ok? {
        CreateSessionValid(prev.db, g, userId, groups[n].key, groups[n].items, names, now);
      }
    }
  }

  /** An import from fetched data keeps the store valid, whether it completes or not. */
  lemma ImportFetchedValid(db: Db, g: Grading, userId: UserId, fetched: seq<KilterAscent>, climbs: seq<KilterClimb>, now: int)
    requires Valid(db)
    ensures Valid(ImportFetched(db, g, userId, fetched, climbs, now).db)
  {
    var part := Partition(db.imported, userId, fetched);
    ImportGroupsValid(db, g, userId, GroupByDate(part.0), ClimbNames(climbs), now);
  }

  // ---------------------------------------------------------------- the whole import

  /** `connection.lastSyncAt`, rendered by `toISOString` when set. */
  function SinceOf(c: ConnectionRow, toIso: int -> string): (r: Option<string>)
    ensures r.Some? <==> c.lastSyncAt.Some?
    ensures r.Some? ==> r.value == toIso(c.lastSyncAt.value)
  {
    if c.lastSyncAt.Some? then Some(toIso(c.lastSyncAt.value)) else None
  }

  /** The errors an import can end with before its first write. */
  predicate BeforeWriteFailure(f: Failure) {
    f == NotFound(RESOURCE) || f == KeyMissing || f == BadKey || f == TamperedCredential
    || f == InvalidCredentials || f.LoginFailed? || f == NoToken || f.SyncFailed?
  }

  /**
   * What `importKilterHistory` does before its first write: load the user's
   * connection, decrypt its password, log in to the vendor with it, and fetch
   * the history since the last sync (all of it on a first sync).
   */
  function FetchHistory(db: Db, userId: UserId, connectionId: Id, setting: Option<string>, open: Open,
                        login: Login, server: Server, toIso: int -> string): (r: Result<KilterSyncResult>)
    ensures GetById(db, userId, connectionId).Err? ==> r == Err(NotFound(RESOURCE))
    ensures r.Err? ==> BeforeWriteFailure(r.error)
    ensures GetById(db, userId, connectionId).Ok? && GetDecryptedPassword(setting, open, GetById(db, userId, connectionId).value).Ok?
            && login(GetById(db, userId, connectionId).value.username, GetDecryptedPassword(setting, open, GetById(db, userId, connectionId).value).value).status == 422
            ==> r == Err(InvalidCredentials)
  {
    match GetById(db, userId, connectionId)
    case Err(f) => Err(f)
    case Ok(c) =>
      match GetDecryptedPassword(setting, open, c)
      case Err(f) => Err(f)
      case Ok(password) =>
        match Authenticate(login(c.username, password))
        case Err(f) => Err(f)
        case Ok(session) => FetchAscentsAndClimbs(server, session.token, SinceOf(c, toIso))
  }

  /**
   * `importKilterHistory`: fetch, import, and on success stamp the
   * connection's last sync time. A failure before the first write leaves the
   * store as it was; a failure during the import keeps the writes made so far
   * and does not stamp the sync time.
   */
  function ImportKilterHistory(db: Db, userId: UserId, connectionId: Id, setting: Option<string>, open: Open,
                               login: Login, server: Server, toIso: int -> string, now: int): (e: Effect<ImportResult>)
    ensures FetchHistory(db, userId, connectionId, setting, open, login, server, toIso).Err? ==>
      e == Effect(db, Err(FetchHistory(db, userId, connectionId, setting, open, login, server, toIso).error))
    ensures e.result.Err? ==> e.db.connections == db.connections
    ensures e.result.Ok? ==> FetchHistory(db, userId, connectionId, setting, open, login, server, toIso).Ok?
    ensures e.result.Ok? ==> e.result.value.duplicatesSkipped + e.result.value.ascentsImported
                             == |FetchHistory(db, userId, connectionId, setting, open, login, server, toIso).value.ascents|
    ensures e.result.Ok? ==>
      var fetched := FetchHistory(db, userId, connectionId, setting, open, login, server, toIso).value.ascents;
      && e.result.value.ascentsImported == |NewAscents(db.imported, userId, fetched)|
      && e.result.value.duplicatesSkipped == CountWhere(fetched, IsDuplicate(db.imported, userId))
      && e.result.value.sessionsCreated == |GroupByDate(NewAscents(db.imported, userId, fetched))|
    ensures |db.imported| <= |e.db.imported| && e.db.imported[..|db.imported|] == db.imported
  {
    match FetchHistory(db, userId, connectionId, setting, open, login, server, toIso)
    case Err(f) => Effect(db, Err(f))
    case Ok(data) =>
      var run := ImportFetched(db, KILTER_GRADING, userId, data.ascents, data.climbs, now);
      if run.result.Err? then run
      else Effect(UpdateLastSync(run.db, connectionId, now), run.result)
  }

  /**
   * A completed import stamps the sync time on the connection it used, on
   * every run, also one that imported nothing.
   */
  lemma ImportStampsSync(db: Db, userId: UserId, connectionId: Id, setting: Option<string>, open: Open,
                         login: Login, server: Server, toIso: int -> string, now: int)
    requires ImportKilterHistory(db, userId, connectionId, setting, open, login, server, toIso, now).result.Ok?
    ensures var e := ImportKilterHistory(db, userId, connectionId, setting, open, login, server, toIso, now);
      && (exists c | c in e.db.connections :: c.id == connectionId && c.userId == userId)
      && (forall c | c in e.db.connections && c.id == connectionId :: c.lastSyncAt == Some(now))
  {
    var data := FetchHistory(db, userId, connectionId, setting, open, login, server, toIso).value;
    var run := ImportFetched(db, KILTER_GRADING, userId, data.ascents, data.climbs, now);
    var c := GetById(db, userId, connectionId).value;
    assert c in run.db.connections;
    UpdateLastSyncStamps(run.db, connectionId, now, c);
  }

  /** After a completed import the ledger holds the key of every fetched ascent, skipped or imported. */
  lemma ImportKilterHistoryRecords(db: Db, userId: UserId, connectionId: Id, setting: Option<string>, open: Open,
                                   login: Login, server: Server, toIso: int -> string, now: int)
    requires ImportKilterHistory(db, userId, connectionId, setting, open, login, server, toIso, now).result.Ok?
    ensures var e := ImportKilterHistory(db, userId, connectionId, setting, open, login, server, toIso, now);
      forall a | a in FetchHistory(db, userId, connectionId, setting, open, login, server, toIso).value.ascents ::
        IsImported(e.db.imported, KeyOf(userId, a))
  {
    var data := FetchHistory(db, userId, connectionId, setting, open, login, server, toIso).value;
    ImportFetchedRecords(db, KILTER_GRADING, userId, data.ascents, data.climbs, now);
  }

  /** The whole import keeps the store valid, whatever it ends with. */
  lemma ImportKilterHistoryValid(db: Db, userId: UserId, connectionId: Id, setting: Option<string>, open: Open,
                                 login: Login, server: Server, toIso: int -> string, now: int)
    requires Valid(db)
    ensures Valid(ImportKilterHistory(db, userId, connectionId, setting, open, login, server, toIso, now).db)
  {
    var r := FetchHistory(db, userId, connectionId, setting, open, login, server, toIso);
    if r.Ok? {
      ImportFetchedValid(db, KILTER_GRADING, userId, r.value.ascents, r.value.climbs, now);
      var run := ImportFetched(db, KILTER_GRADING, userId, r.value.ascents, r.value.climbs, now);
      if run.result.Ok? {
        UpdateLastSyncValid(run.db, connectionId, now);
      }
    }
  }
}
