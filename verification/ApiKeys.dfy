/** The api_keys table: its rows, what each repository call does to them, and the handlers
    that call the repository. Times are microseconds since the epoch, on one clock. */
module ApiKeys {
  import opened Wrappers

  const HOUR: int := 3_600_000_000
  const DAY: int := 24 * HOUR
  const MAX_KEYS: nat := 10

  datatype Key = Key(
    org: nat,
    name: string,
    value: string,
    expiresAt: Option<int>,
    deletedAt: Option<int>,
    lastUsedAt: Option<int>,
    updatedAt: int)
  {
    /** Visible to the queries of the model, which hide soft-deleted rows. */
    predicate Live() {
      deletedAt == None
    }

    /** Has an expiry that is not after the given time. */
    predicate IsRevoked(now: int) {
      expiresAt.Some? && expiresAt.value <= now
    }
  }

  type Table = map<nat, Key>

  datatype RevocationType = Immediate | Day | Week | Invalid

  /** CURRENT_DATE, for a session in UTC. */
  function Midnight(now: int): int {
    now - now % DAY
  }

  function LiveIds(t: Table, org: nat): set<nat> {
    set id | id in t && t[id].Live() && t[id].org == org
  }

  // ---- The effect of each call on the table ----

  datatype CreateResult = Created | InsertFailed | MaxLimit

  /** Insert unless that would leave the organization with more than ten live keys. */
  function AfterCreate(t: Table, id: nat, key: Key): (Table, CreateResult) {
    if id in t then (t, InsertFailed)
    else if |LiveIds(t, key.org)| + (if key.Live() then 1 else 0) > MAX_KEYS then (t, MaxLimit)
    else (t[id := key], Created)
  }

  function Revoked(key: Key, kind: RevocationType, now: int): Key {
    match kind
    case Immediate => key.(updatedAt := now, expiresAt := Some(Midnight(now) + DAY - HOUR), deletedAt := Some(now))
    case Day => key.(updatedAt := now, expiresAt := Some(Midnight(now) + 2 * DAY - HOUR))
    case Week => key.(updatedAt := now, expiresAt := Some(Midnight(now) + 8 * DAY - HOUR))
    case Invalid => key.(updatedAt := now)
  }

  function AfterRevoke(t: Table, id: nat, kind: RevocationType, now: int): Table {
    if id in t && t[id].Live() then t[id := Revoked(t[id], kind, now)] else t
  }

  function Swept(key: Key, now: int): Key {
    if key.Live() && key.expiresAt.Some? && key.expiresAt.value < now then key.(deletedAt := Some(now)) else key
  }

  function AfterSweep(t: Table, now: int): Table {
    map id | id in t :: Swept(t[id], now)
  }

  function AfterTouch(t: Table, id: nat, now: int): Table {
    if id in t && t[id].Live() then t[id := t[id].(lastUsedAt := Some(now))] else t
  }

  function NewKey(org: nat, name: string, value: string, now: int): Key {
    Key(org, name, value, None, None, None, now)
  }

  predicate NameTaken(t: Table, org: nat, name: string) {
    exists id :: id in t && t[id].Live() && t[id].org == org && t[id].name == name
  }

  function AfterHandleCreate(t: Table, id: nat, org: nat, name: string, value: string, now: int): Table {
    if NameTaken(t, org, name) then t else AfterCreate(t, id, NewKey(org, name, value, now)).0
  }

  function AfterHandleRevoke(t: Table, org: nat, id: nat, kind: RevocationType, now: int): Table {
    if id in t && t[id].org == org && !t[id].IsRevoked(now) && kind != Invalid then AfterRevoke(t, id, kind, now) else t
  }

  /** The keys that List returns: live, and without an expiry or with one still ahead. */
  function ListedIds(t: Table, org: nat, now: int): set<nat> {
    set id | id in LiveIds(t, org) && !t[id].IsRevoked(now)
  }

  lemma LiveIdsInsert(t: Table, id: nat, key: Key, org: nat)
    requires id !in t
    ensures LiveIds(t[id := key], org) == LiveIds(t, org) + (if key.Live() && key.org == org then {id} else {})
    ensures |LiveIds(t[id := key], org)| == |LiveIds(t, org)| + (if key.Live() && key.org == org then 1 else 0)
  {
    var u := t[id := key];
    forall i ensures i in LiveIds(u, org) <==> i in LiveIds(t, org) || (i == id && key.Live() && key.org == org) {
      assert i in u <==> i in t || i == id;
    }
    assert LiveIds(u, org) == LiveIds(t, org) + (if key.Live() && key.org == org then {id} else {});
    assert id !in LiveIds(t, org);
  }

  /** What a revocation does to a row, column by column, in microseconds. */
  predicate RevokedInFields(k: Key, l: Key, kind: RevocationType, now: int) {
    && l.org == k.org && l.name == k.name && l.value == k.value && l.lastUsedAt == k.lastUsedAt && l.updatedAt == now
    && l.deletedAt == (if kind == Immediate then Some(now) else k.deletedAt)
    && (if kind == Invalid then l.expiresAt == k.expiresAt
        else
          var midnight := now - now % 86_400_000_000;
          var days := match kind case Immediate => 1 case Day => 2 case Week => 8 case Invalid => 0;
          l.expiresAt == Some(midnight + days * 86_400_000_000 - 3_600_000_000))
  }

  lemma LiveIdsInFields(t: Table, org: nat)
    ensures LiveIds(t, org) == set i | i in t && t[i].org == org && t[i].deletedAt == None
  {
  }

  // ---- The repository and the handlers ----

  datatype Response = Ok | BadName | Failed(reason: CreateResult) | BadRequest | NotFound | Forbidden | AlreadyRevoked

  class ApiKeyRepo {
    var rows: Table

    constructor ()
      ensures rows == map[]
    {
      rows := map[];
    }

    /** Insert, count, and roll back when the count is above ten: the transaction does what
        the simple rule says, and leaves the table as it was when it fails. */
    method Create(id: nat, key: Key) returns (r: CreateResult)
      modifies this
      ensures (rows, r) == AfterCreate(old(rows), id, key)
      ensures r != Created ==> rows == old(rows)
      ensures r == InsertFailed <==> id in old(rows)
      ensures r == Created ==> id !in old(rows) && rows == old(rows)[id := key]
      ensures key.deletedAt == None && id !in old(rows) ==>
                (r == Created <==> |set i | i in old(rows) && old(rows)[i].org == key.org && old(rows)[i].deletedAt == None| < 10)
      ensures r == Created ==> |LiveIds(rows, key.org)| <= MAX_KEYS
    {
      var savepoint := rows;
      if id in rows {
        return InsertFailed;
      }
      LiveIdsInFields(savepoint, key.org);
      rows := rows[id := key];
      LiveIdsInsert(savepoint, id, key, key.org);
      var count := |LiveIds(rows, key.org)|;
      if count > 10 {
        rows := savepoint;
        return MaxLimit;
      }
      return Created;
    }

    /** Only a live row with that id changes: its time of update, and by the strategy its
        expiry, in whole days from the last midnight less an hour, and its deletion. */
    method Revoke(id: nat, kind: RevocationType, now: int)
      modifies this
      ensures rows == AfterRevoke(old(rows), id, kind, now)
      ensures rows.Keys == old(rows).Keys
      ensures forall i | i in rows && (i != id || old(rows)[i].deletedAt != None) :: rows[i] == old(rows)[i]
      ensures id in rows && old(rows)[id].deletedAt == None ==> RevokedInFields(old(rows)[id], rows[id], kind, now)
    {
      if id !in rows || !rows[id].Live() {
        return;
      }
      var row := rows[id].(updatedAt := now);
      match kind {
        case Immediate =>
          row := row.(expiresAt := Some(Midnight(now) + DAY - HOUR));
          row := row.(deletedAt := Some(now));
        case Day =>
          row := row.(expiresAt := Some(Midnight(now) + 2 * DAY - HOUR));
        case Week =>
          row := row.(expiresAt := Some(Midnight(now) + 8 * DAY - HOUR));
        case Invalid =>
      }
      rows := rows[id := row];
    }

    /** No row is removed. A row is deleted at this time if it was live and its expiry had
        passed; every other row, and every other field, stays as it was. */
    method DeleteExpired(now: int)
      modifies this
      ensures rows.Keys == old(rows).Keys
      ensures forall id | id in rows ::
                var was := old(rows)[id];
                if was.deletedAt == None && was.expiresAt.Some? && was.expiresAt.value < now
                then rows[id] == was.(deletedAt := Some(now)) else rows[id] == was
      ensures forall id | id in rows && rows[id].deletedAt == None && rows[id].expiresAt.Some? :: now <= rows[id].expiresAt.value
      ensures rows == AfterSweep(old(rows), now)
    {
      rows := map id | id in rows :: Swept(rows[id], now);
    }

    /** Only the last use of that key can change, and only while it is live. */
    method UpdateLastUsedAt(id: nat, now: int)
      modifies this
      ensures rows.Keys == old(rows).Keys
      ensures forall i | i in rows ::
                && rows[i] == old(rows)[i].(lastUsedAt := rows[i].lastUsedAt)
                && rows[i].lastUsedAt == (if i == id && rows[i].deletedAt == None then Some(now) else old(rows)[i].lastUsedAt)
      ensures rows == AfterTouch(old(rows), id, now)
    {
      if id in rows && rows[id].Live() {
        rows := rows[id := rows[id].(lastUsedAt := Some(now))];
      }
    }

    method FetchByValue(value: string) returns (r: Option<nat>)
      ensures r.Some? ==> r.value in rows && rows[r.value].deletedAt == None && rows[r.value].value == value
      ensures r == None ==> forall id | id in rows && rows[id].deletedAt == None :: rows[id].value != value
    {
      var found := set id | id in rows && rows[id].Live() && rows[id].value == value;
      if found == {} {
        assert forall id | id in rows && rows[id].Live() && rows[id].value == value :: id in found;
        return None;
      }
      var id :| id in found;
      return Some(id);
    }

    method FetchByName(name: string, org: nat) returns (r: Option<nat>)
      ensures r.Some? ==> r.value in rows && rows[r.value].deletedAt == None && rows[r.value].org == org && rows[r.value].name == name
      ensures r == None ==> forall id | id in rows && rows[id].deletedAt == None && rows[id].org == org :: rows[id].name != name
      ensures r == None <==> !NameTaken(rows, org, name)
    {
      var found := set id | id in rows && rows[id].Live() && rows[id].org == org && rows[id].name == name;
      if found == {} {
        assert forall id | id in rows && rows[id].Live() && rows[id].org == org && rows[id].name == name :: id in found;
        return None;
      }
      var id :| id in found;
      return Some(id);
    }

    method List(org: nat, now: int) returns (ids: set<nat>)
      ensures ids == ListedIds(rows, org, now)
      ensures forall id :: id in ids <==>
                && id in rows && rows[id].org == org && rows[id].deletedAt == None
                && (rows[id].expiresAt == None || now < rows[id].expiresAt.value)
    {
      ids := set id | id in rows && rows[id].Live() && rows[id].org == org
                      && (rows[id].expiresAt == None || rows[id].expiresAt.value > now);
    }

    method HandleCreate(id: nat, org: nat, name: string, value: string, now: int) returns (r: Response)
      modifies this
      ensures rows == AfterHandleCreate(old(rows), id, org, name, value, now)
      ensures r == Ok <==> rows != old(rows)
      ensures r == Ok ==>
                && id !in old(rows) && rows.Keys == old(rows).Keys + {id} && (forall i | i in old(rows) :: rows[i] == old(rows)[i])
                && rows[id].org == org && rows[id].name == name && rows[id].value == value
                && rows[id].expiresAt == None && rows[id].deletedAt == None && rows[id].lastUsedAt == None
                && rows[id].updatedAt == now
      ensures r == BadName ==>
                exists i :: i in old(rows) && old(rows)[i].deletedAt == None && old(rows)[i].org == org && old(rows)[i].name == name
      ensures r == BadName <==> NameTaken(old(rows), org, name)
      ensures r == Failed(MaxLimit) <==>
                !NameTaken(old(rows), org, name) && id !in old(rows) && MAX_KEYS <= |LiveIds(old(rows), org)|
    {
      var existing := FetchByName(name, org);
      if existing.Some? {
        return BadName;
      }
      var created := Create(id, NewKey(org, name, value, now));
      if created != Created {
        return Failed(created);
      }
      assert id in rows && id !in old(rows);
      return Ok;
    }

    method HandleRevoke(org: nat, id: nat, kind: RevocationType, now: int) returns (r: Response)
      modifies this
      ensures rows == AfterHandleRevoke(old(rows), org, id, kind, now)
      ensures r == BadRequest <==> kind == Invalid
      ensures r == NotFound <==> kind != Invalid && (id in old(rows) ==> old(rows)[id].deletedAt != None)
      ensures r == Forbidden <==>
                kind != Invalid && id in old(rows) && old(rows)[id].deletedAt == None && old(rows)[id].org != org
      ensures r == AlreadyRevoked <==>
                && kind != Invalid && id in old(rows) && old(rows)[id].deletedAt == None && old(rows)[id].org == org
                && old(rows)[id].expiresAt.Some? && old(rows)[id].expiresAt.value <= now
      ensures r == Ok || r == BadRequest || r == NotFound || r == Forbidden || r == AlreadyRevoked
      ensures r == Ok ==>
                && rows.Keys == old(rows).Keys && (forall i | i in rows && i != id :: rows[i] == old(rows)[i])
                && RevokedInFields(old(rows)[id], rows[id], kind, now)
      ensures r != Ok ==> rows == old(rows)
    {
      if kind == Invalid {
        return BadRequest;
      }
      if id !in rows || !rows[id].Live() {
        return NotFound;
      }
      if rows[id].org != org {
        return Forbidden;
      }
      if rows[id].IsRevoked(now) {
        return AlreadyRevoked;
      }
      Revoke(id, kind, now);
      return Ok;
    }
  }
}
