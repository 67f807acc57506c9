// The board-connection service: one stored vendor login per user and board
// type, with the password kept encrypted and never handed back to clients.

module Connections {
  import opened Wrappers
  import opened Seqs
  import opened Store
  import opened Vault

  const RESOURCE: string := "Board connection"

  /** A connection as clients see it: every column but the encrypted password. */
  datatype PublicConnection = PublicConnection(
    id: Id, userId: UserId, boardType: string, username: string, boardUserId: Option<string>,
    lastSyncAt: Option<int>, syncEnabled: bool, createdAt: int, updatedAt: int)

  /** `sanitize`: drop the encrypted password. */
  function Sanitize(c: ConnectionRow): (r: PublicConnection)
    ensures r.id == c.id && r.userId == c.userId && r.boardType == c.boardType
  {
    PublicConnection(c.id, c.userId, c.boardType, c.username, c.boardUserId, c.lastSyncAt,
                     c.syncEnabled, c.createdAt, c.updatedAt)
  }

  /** Puts a password column back on a public view. */
  function WithPassword(p: PublicConnection, encryptedPassword: string): ConnectionRow {
    ConnectionRow(p.id, p.userId, p.boardType, p.username, encryptedPassword, p.boardUserId,
                  p.lastSyncAt, p.syncEnabled, p.createdAt, p.updatedAt)
  }

  /** Sanitizing loses the encrypted password and nothing else. */
  lemma SanitizeLosesOnlyPassword(c: ConnectionRow)
    ensures WithPassword(Sanitize(c), c.encryptedPassword) == c
  {
  }

  /** `getByUserAndBoard`: the user's connection to that board type, if any. */
  function GetByUserAndBoard(db: Db, userId: UserId, boardType: string): (r: Option<ConnectionRow>)
    ensures r.Some? ==> r.value in db.connections && ConnKey(r.value) == (userId, boardType)
    ensures r.None? <==> forall c | c in db.connections :: ConnKey(c) != (userId, boardType)
  {
    Find(db.connections, (c: ConnectionRow) => ConnKey(c) == (userId, boardType))
  }

  /** The row with that id, when it belongs to the user. */
  predicate Owns(c: ConnectionRow, userId: UserId, id: Id) {
    c.id == id && c.userId == userId
  }

  /** `getById`: the user's connection with that id, or not found. */
  function GetById(db: Db, userId: UserId, id: Id): (r: Result<ConnectionRow>)
    ensures r.Ok? ==> r.value in db.connections && Owns(r.value, userId, id)
    ensures r.Err? <==> forall c | c in db.connections :: !Owns(c, userId, id)
    ensures r.Err? ==> r.error == NotFound(RESOURCE)
  {
    match Find(db.connections, (c: ConnectionRow) => Owns(c, userId, id))
    case None => Err(NotFound(RESOURCE))
    case Some(c) => Ok(c)
  }

  /** `list`: the user's connections, oldest first, sanitized. */
  function List(db: Db, userId: UserId): (r: seq<PublicConnection>)
    ensures forall p | p in r :: exists c | c in db.connections :: c.userId == userId && p == Sanitize(c)
    ensures forall c | c in db.connections && c.userId == userId :: Sanitize(c) in r
    ensures forall i, j | 0 <= i < j < |r| :: r[i].createdAt <= r[j].createdAt
    ensures multiset(r) == multiset(Map(Filter(db.connections, (c: ConnectionRow) => c.userId == userId), Sanitize))
  {
    var mine := Filter(db.connections, (c: ConnectionRow) => c.userId == userId);
    var sorted := SortAsc(mine, (c: ConnectionRow) => c.createdAt);
    MapPermutation(sorted, mine, Sanitize);
    MapMembers(sorted, Sanitize);
    Map(sorted, Sanitize)
  }

  /**
   * `create`: refuse a second connection to the same board, then encrypt the
   * password and insert. The IV and the clock are parameters.
   */
  function Create(db: Db, userId: UserId, boardType: string, username: string, password: string,
                  boardUserId: Option<string>, setting: Option<string>, seal: Seal, iv: seq<Byte>, now: int)
    : (e: Effect<PublicConnection>)
    requires |iv| == IV_LENGTH
    ensures GetByUserAndBoard(db, userId, boardType).Some? ==> e == Effect(db, Err(Conflict("Already connected to " + boardType)))
    ensures GetByUserAndBoard(db, userId, boardType).None? && EncryptionKey(setting).Err? ==>
      e == Effect(db, Err(EncryptionKey(setting).error))
    ensures e.result.Err? ==> e.db == db
    ensures e.result.Ok? ==>
      && GetByUserAndBoard(db, userId, boardType).None?
      && e.db == db.(connections := db.connections + [WithPassword(e.result.value, Encrypt(setting, seal, iv, password).value)],
                     nextId := db.nextId + 1)
      && e.result.value.id == db.nextId
      && ConnKey(WithPassword(e.result.value, "")) == (userId, boardType)
      && e.result.value.username == username && e.result.value.boardUserId == boardUserId
      && e.result.value.lastSyncAt.None?
  {
    if GetByUserAndBoard(db, userId, boardType).Some? then Effect(db, Err(Conflict("Already connected to " + boardType)))
    else match Encrypt(setting, seal, iv, password)
      case Err(err) => Effect(db, Err(err))
      case Ok(enc) =>
        var row := ConnectionRow(db.nextId, userId, boardType, username, enc, boardUserId, None, true, now, now);
        SanitizeLosesOnlyPassword(row);
        Effect(db.(connections := db.connections + [row], nextId := db.nextId + 1), Ok(Sanitize(row)))
  }

  /** A created connection keeps the store valid, and its password decrypts back under the same key. */
  lemma CreateValidAndRecoverable(db: Db, userId: UserId, boardType: string, username: string, password: string,
                                  boardUserId: Option<string>, setting: Option<string>, seal: Seal, open: Open,
                                  iv: seq<Byte>, now: int)
    requires Valid(db) && |iv| == IV_LENGTH && AeadCorrect(seal, open)
    ensures var e := Create(db, userId, boardType, username, password, boardUserId, setting, seal, iv, now);
      && Valid(e.db)
      && (e.result.Ok? ==>
            && GetByUserAndBoard(e.db, userId, boardType).Some?
            && GetDecryptedPassword(setting, open, e.db.connections[|e.db.connections| - 1]) == Ok(password))
  {
    var e := Create(db, userId, boardType, username, password, boardUserId, setting, seal, iv, now);
    if e.result.Ok? {
      var row := e.db.connections[|e.db.connections| - 1];
      assert row in e.db.connections && ConnKey(row) == (userId, boardType);
      SnocKeysDistinct(db.connections, ConnKey, row);
      DecryptEncrypt(setting, seal, open, iv, password);
    }
  }

  /** `remove`: delete the user's connection with that id, or not found. */
  function Remove(db: Db, userId: UserId, id: Id): (e: Effect<()>)
    ensures e.result.Err? <==> GetById(db, userId, id).Err?
    ensures e.result.Err? ==> e == Effect(db, Err(NotFound(RESOURCE)))
    ensures forall c :: c in e.db.connections <==> c in db.connections && !Owns(c, userId, id)
    ensures e.db == db.(connections := e.db.connections)
  {
    if GetById(db, userId, id).Err? then Effect(db, Err(NotFound(RESOURCE)))
    else Effect(db.(connections := Filter(db.connections, (c: ConnectionRow) => !Owns(c, userId, id))), Ok(()))
  }

  /** After a removal the connection is gone and the store stays valid. */
  lemma RemoveThenGone(db: Db, userId: UserId, id: Id)
    requires Valid(db)
    ensures GetById(Remove(db, userId, id).db, userId, id).Err?
    ensures Valid(Remove(db, userId, id).db)
  {
    FilterKeysDistinct(db.connections, ConnKey, (c: ConnectionRow) => !Owns(c, userId, id));
  }

  /** `updateLastSync`: stamp the sync time on the row with that id, whoever owns it. */
  function UpdateLastSync(db: Db, id: Id, now: int): (r: Db)
    ensures |r.connections| == |db.connections|
    ensures forall i | 0 <= i < |db.connections| ::
      r.connections[i] == if db.connections[i].id == id
                          then db.connections[i].(lastSyncAt := Some(now), updatedAt := now)
                          else db.connections[i]
    ensures r == db.(connections := r.connections)
  {
    db.(connections := Map(db.connections, (c: ConnectionRow) => if c.id == id then c.(lastSyncAt := Some(now), updatedAt := now) else c))
  }

  /** Stamping a sync keeps the store valid. */
  lemma UpdateLastSyncValid(db: Db, id: Id, now: int)
    requires Valid(db)
    ensures Valid(UpdateLastSync(db, id, now))
  {
    var f := (c: ConnectionRow) => if c.id == id then c.(lastSyncAt := Some(now), updatedAt := now) else c;
    MapKeysDistinct(db.connections, f, ConnKey);
    var r := UpdateLastSync(db, id, now);
    forall c | c in r.connections
      ensures c.id < r.nextId
    {
      var i :| 0 <= i < |r.connections| && r.connections[i] == c;
      assert db.connections[i] in db.connections;
    }
  }

  /** After the stamp, the row with that id carries the sync time, and a row that had the id still has it. */
  lemma UpdateLastSyncStamps(db: Db, id: Id, now: int, c: ConnectionRow)
    requires c in db.connections && c.id == id
    ensures exists d | d in UpdateLastSync(db, id, now).connections :: d.id == id && d.userId == c.userId
    ensures forall d | d in UpdateLastSync(db, id, now).connections && d.id == id :: d.lastSyncAt == Some(now)
  {
    var r := UpdateLastSync(db, id, now);
    var i :| 0 <= i < |db.connections| && db.connections[i] == c;
    assert r.connections[i] in r.connections;
    forall d | d in r.connections && d.id == id
      ensures d.lastSyncAt == Some(now)
    {
      var k :| 0 <= k < |r.connections| && r.connections[k] == d;
    }
  }

  /** `getDecryptedPassword`. */
  function GetDecryptedPassword(setting: Option<string>, open: Open, c: ConnectionRow): (r: Result<string>)
    ensures EncryptionKey(setting).Err? ==> r.Err?
  {
    Decrypt(setting, open, c.encryptedPassword)
  }
}
