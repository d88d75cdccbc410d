/** The `api_keys` table (src/shared/models/ApiKey.ts) and the generic data-access
    layer the API-key repositories go through (src/services/db/databaseService.ts).
    A row is a value; the table is an object whose row list the writes replace.
    Times are integer milliseconds. */
module ApiKeyStore {
  import opened JsSemantics
  import opened Errors
  import Ordering

  /** `model.name` of the ApiKey model: the `modelName` it is initialised with. */
  const MODEL_NAME := "api_keys"
  /** The length of one day, for `moment().add(days, 'days')`. */
  const DAY_MS: int := 86400000

  /** One row of `api_keys`. `ipRestrictions` is the nullable array column. */
  datatype ApiKey = ApiKey(
    id: string,
    userId: string,
    appId: string,
    key: string,
    isActive: bool,
    lastUsed: Option<int>,
    expiresAt: int,
    ipRestrictions: Option<seq<string>>,
    createdAt: int,
    updatedAt: int)

  /** The attributes handed to `create`. `appId` may be missing, which the NOT NULL
      constraint refuses. */
  datatype Draft = Draft(
    userId: string,
    appId: Option<string>,
    key: string,
    expiresAt: int,
    isActive: bool,
    ipRestrictions: Option<seq<string>>)

  /** The `options` object spread over a draft: each present field overrides. */
  datatype KeyOptions = KeyOptions(
    appId: Option<string>,
    key: Option<string>,
    expiresAt: Option<int>,
    isActive: Option<bool>,
    ipRestrictions: Option<seq<string>>)

  const NO_OPTIONS := KeyOptions(None, None, None, None, None)

  /** `{ ...draft, ...options }`. */
  function Spread(d: Draft, o: KeyOptions): (out: Draft)
    ensures out.userId == d.userId
    ensures out.appId == (if o.appId.Some? then o.appId else d.appId)
    ensures out.key == Keep(o.key, d.key)
    ensures out.expiresAt == Keep(o.expiresAt, d.expiresAt)
    ensures out.isActive == Keep(o.isActive, d.isActive)
    ensures out.ipRestrictions == (if o.ipRestrictions.Some? then o.ipRestrictions else d.ipRestrictions)
  {
    Draft(d.userId,
          if o.appId.Some? then o.appId else d.appId,
          Keep(o.key, d.key),
          Keep(o.expiresAt, d.expiresAt),
          Keep(o.isActive, d.isActive),
          if o.ipRestrictions.Some? then o.ipRestrictions else d.ipRestrictions)
  }

  /** `moment().add(days, 'days')` as milliseconds (daylight-saving shifts ignored). */
  function ExpiryFrom(now: int, days: int): (t: int)
    ensures days >= 0 ==> t >= now
    ensures days > 0 ==> t > now
  {
    now + days * DAY_MS
  }

  // The data-access layer's errors: every failure of the database becomes one of these.
  function FindByIdError(): Thrown { Raise("Failed to find record by ID in " + MODEL_NAME, 500) }
  function FindOneError(): Thrown { Raise("Failed to find record in " + MODEL_NAME, 500) }
  function FindAllError(): Thrown { Raise("Failed to find records in " + MODEL_NAME, 500) }
  function CountError(): Thrown { Raise("Failed to count records in " + MODEL_NAME, 500) }
  function CreateError(): Thrown { Raise("Failed to create record in " + MODEL_NAME, 500) }
  function UpdateError(): Thrown { Raise("Failed to update records in " + MODEL_NAME, 500) }

  /** The `where` clauses of the read queries. */
  datatype Query =
    | ActiveKey(key: string)                 // { key, isActive: true }
    | ActiveApp(appId: string)               // { appId, isActive: true }
    | LiveOf(userId: string, now: int)       // { userId, isActive: true, expiresAt > now }
    | ExpiredBy(now: int)                    // { isActive: true, expiresAt < now }

  predicate Matches(q: Query, r: ApiKey)
  {
    match q
    case ActiveKey(key) => r.key == key && r.isActive
    case ActiveApp(appId) => r.appId == appId && r.isActive
    case LiveOf(userId, now) => r.userId == userId && r.isActive && r.expiresAt > now
    case ExpiredBy(now) => r.isActive && r.expiresAt < now
  }

  /** The `where` clauses of the updates. */
  datatype Filter =
    | IdIs(id: string)                       // { id }
    | IdAndOwner(id: string, userId: string) // { id, userId }
    | IdIn(ids: seq<string>)                 // { id: keyIds }

  predicate Selects(f: Filter, r: ApiKey)
  {
    match f
    case IdIs(id) => r.id == id
    case IdAndOwner(id, userId) => r.id == id && r.userId == userId
    case IdIn(ids) => r.id in ids
  }

  /** The values the updates write. */
  datatype Change =
    | Deactivate                             // { isActive: false }
    | Rekey(key: string, expiresAt: int)     // { key, expiresAt }
    | Touch                                  // { lastUsed: now }

  /** A row after an update at time `now`, which also stamps `updatedAt`. */
  function Changed(r: ApiKey, c: Change, now: int): (out: ApiKey)
    ensures out.id == r.id && out.userId == r.userId && out.appId == r.appId
    ensures out.ipRestrictions == r.ipRestrictions && out.createdAt == r.createdAt
    ensures out.updatedAt == now
    ensures out.isActive == (if c.Deactivate? then false else r.isActive)
    ensures out.key == (if c.Rekey? then c.key else r.key)
    ensures out.expiresAt == (if c.Rekey? then c.expiresAt else r.expiresAt)
    ensures out.lastUsed == (if c.Touch? then Some(now) else r.lastUsed)
  {
    match c
    case Deactivate => r.(isActive := false, updatedAt := now)
    case Rekey(key, expiresAt) => r.(key := key, expiresAt := expiresAt, updatedAt := now)
    case Touch => r.(lastUsed := Some(now), updatedAt := now)
  }

  /** The table after `UPDATE ... WHERE f`: selected rows changed, the others kept, in place. */
  function UpdateRows(rows: seq<ApiKey>, f: Filter, c: Change, now: int): (out: seq<ApiKey>)
    ensures |out| == |rows|
    ensures forall i :: 0 <= i < |rows| && Selects(f, rows[i]) ==> out[i] == Changed(rows[i], c, now)
    ensures forall i :: 0 <= i < |rows| && !Selects(f, rows[i]) ==> out[i] == rows[i]
  {
    if rows == [] then []
    else
      var rest := UpdateRows(rows[1..], f, c, now);
      assert forall i :: 1 <= i < |rows| ==> rows[i] == rows[1..][i - 1];
      [if Selects(f, rows[0]) then Changed(rows[0], c, now) else rows[0]] + rest
  }

  /** The number of rows an update reports as affected. */
  function Affected(rows: seq<ApiKey>, f: Filter): (n: nat)
    ensures n <= |rows|
    ensures n == 0 <==> forall i :: 0 <= i < |rows| ==> !Selects(f, rows[i])
  {
    Ordering.CountWhere(rows, (r: ApiKey) => Selects(f, r))
  }

  /** The row `findOne` returns: the first in table order that matches. */
  function FirstMatch(rows: seq<ApiKey>, q: Query): (r: Option<ApiKey>)
    ensures r.None? <==> forall i :: 0 <= i < |rows| ==> !Matches(q, rows[i])
    ensures r.Some? ==> (Matches(q, r.value) &&
      exists i :: 0 <= i < |rows| && rows[i] == r.value && (forall j :: 0 <= j < i ==> !Matches(q, rows[j])))
  {
    if rows == [] then None
    else if Matches(q, rows[0]) then Some(rows[0])
    else
      var r := FirstMatch(rows[1..], q);
      assert forall i :: 1 <= i < |rows| ==> rows[i] == rows[1..][i - 1];
      if r.Some? then
        ghost var i :| 0 <= i < |rows[1..]| && rows[1..][i] == r.value &&
          (forall j :: 0 <= j < i ==> !Matches(q, rows[1..][j]));
        assert rows[i + 1] == r.value;
        r
      else r
  }

  /** The row `findByPk` returns. */
  function RowById(rows: seq<ApiKey>, id: string): (r: Option<ApiKey>)
    ensures r.None? <==> forall i :: 0 <= i < |rows| ==> rows[i].id != id
    ensures r.Some? ==> r.value in rows && r.value.id == id
  {
    if rows == [] then None
    else if rows[0].id == id then Some(rows[0])
    else
      assert forall i :: 1 <= i < |rows| ==> rows[i] == rows[1..][i - 1];
      RowById(rows[1..], id)
  }

  /** The rows a `findAll` with `where: q` returns, in table order. */
  function MatchingRows(rows: seq<ApiKey>, q: Query): (out: seq<ApiKey>)
    ensures forall i :: 0 <= i < |out| ==> out[i] in rows && Matches(q, out[i])
    ensures forall i :: 0 <= i < |rows| && Matches(q, rows[i]) ==> rows[i] in out
  {
    Ordering.Where(rows, (r: ApiKey) => Matches(q, r))
  }

  /** The number a `count` with `where: q` returns. */
  function MatchCount(rows: seq<ApiKey>, q: Query): (n: nat)
    ensures n == |MatchingRows(rows, q)|
  {
    Ordering.CountIsLength(rows, (r: ApiKey) => Matches(q, r));
    Ordering.CountWhere(rows, (r: ApiKey) => Matches(q, r))
  }

  /** The primary key and the unique `key` and `app_id` indexes: no two rows share one. */
  predicate Consistent(rows: seq<ApiKey>)
  {
    forall i, j :: 0 <= i < j < |rows| ==>
      rows[i].id != rows[j].id && rows[i].key != rows[j].key && rows[i].appId != rows[j].appId
  }

  /** Whether a new row can be inserted beside `rows` without a constraint violation. */
  predicate Insertable(rows: seq<ApiKey>, r: ApiKey)
  {
    forall i :: 0 <= i < |rows| ==> rows[i].id != r.id && rows[i].key != r.key && rows[i].appId != r.appId
  }

  /** The row `create` stores for a draft with an app, at time `now`. */
  function NewRow(d: Draft, id: string, now: int): (r: ApiKey)
    requires d.appId.Some?
    ensures r.id == id && r.userId == d.userId && r.appId == d.appId.value && r.key == d.key
    ensures r.isActive == d.isActive && r.expiresAt == d.expiresAt
    ensures r.ipRestrictions == d.ipRestrictions && r.lastUsed.None?
    ensures r.createdAt == now && r.updatedAt == now
  {
    ApiKey(id, d.userId, d.appId.value, d.key, d.isActive, None, d.expiresAt, d.ipRestrictions, now, now)
  }

  lemma AppendKeepsConsistent(rows: seq<ApiKey>, r: ApiKey)
    requires Consistent(rows) && Insertable(rows, r)
    ensures Consistent(rows + [r])
  {
    var out := rows + [r];
    forall i, j | 0 <= i < j < |out|
      ensures out[i].id != out[j].id && out[i].key != out[j].key && out[i].appId != out[j].appId
    {
      if j == |rows| {
        assert out[j] == r && out[i] == rows[i];
      }
    }
  }

  /** A table whose rows the repositories read and write. `readable` and `writable`
      stand for the database accepting reads and writes; when it does not, the
      data-access layer reports its error and nothing changes. */
  class ApiKeyTable {
    var rows: seq<ApiKey>
    var readable: bool
    var writable: bool

    ghost predicate Valid()
      reads this
    {
      Consistent(rows)
    }

    constructor (readable: bool, writable: bool)
      ensures Valid()
      ensures this.rows == [] && this.readable == readable && this.writable == writable
    {
      this.rows := [];
      this.readable := readable;
      this.writable := writable;
    }

    /** `DatabaseService.findById`. */
    method FindById(id: string) returns (r: Result<Option<ApiKey>>)
      ensures readable ==> r == Ok(RowById(rows, id))
      ensures !readable ==> r == Fail(FindByIdError())
    {
      if readable {
        r := Ok(RowById(rows, id));
      } else {
        r := Fail(FindByIdError());
      }
    }

    /** `DatabaseService.findOne`. */
    method FindOne(q: Query) returns (r: Result<Option<ApiKey>>)
      ensures readable ==> r == Ok(FirstMatch(rows, q))
      ensures !readable ==> r == Fail(FindOneError())
    {
      if readable {
        r := Ok(FirstMatch(rows, q));
      } else {
        r := Fail(FindOneError());
      }
    }

    /** `DatabaseService.findAll`, unordered. */
    method FindAll(q: Query) returns (r: Result<seq<ApiKey>>)
      ensures readable ==> r == Ok(MatchingRows(rows, q))
      ensures !readable ==> r == Fail(FindAllError())
    {
      if readable {
        r := Ok(MatchingRows(rows, q));
      } else {
        r := Fail(FindAllError());
      }
    }

    /** `DatabaseService.count`. */
    method Count(q: Query) returns (r: Result<nat>)
      ensures readable ==> r == Ok(MatchCount(rows, q))
      ensures !readable ==> r == Fail(CountError())
    {
      if readable {
        r := Ok(MatchCount(rows, q));
      } else {
        r := Fail(CountError());
      }
    }

    /** `DatabaseService.create`: one new row at the end of the table, or the
        create error when the database refuses it (down, `app_id` missing, or a
        primary-key or unique-index clash). */
    method Create(d: Draft, id: string, now: int) returns (r: Result<ApiKey>)
      requires Valid()
      modifies this
      ensures Valid()
      ensures readable == old(readable) && writable == old(writable)
      ensures old(writable) && d.appId.Some? && Insertable(old(rows), NewRow(d, id, now)) ==>
                r == Ok(NewRow(d, id, now)) && rows == old(rows) + [NewRow(d, id, now)]
      ensures !(old(writable) && d.appId.Some? && Insertable(old(rows), NewRow(d, id, now))) ==>
                r == Fail(CreateError()) && rows == old(rows)
    {
      if writable && d.appId.Some? && Insertable(rows, NewRow(d, id, now)) {
        var row := NewRow(d, id, now);
        AppendKeepsConsistent(rows, row);
        rows := rows + [row];
        r := Ok(row);
      } else {
        r := Fail(CreateError());
      }
    }

    /** `DatabaseService.update`: the affected-row count, or the update error when
        the database is down or the new rows would break a unique index. */
    method Update(f: Filter, c: Change, now: int) returns (r: Result<nat>)
      requires Valid()
      modifies this
      ensures Valid()
      ensures readable == old(readable) && writable == old(writable)
      ensures old(writable) && Consistent(UpdateRows(old(rows), f, c, now)) ==>
                r == Ok(Affected(old(rows), f)) && rows == UpdateRows(old(rows), f, c, now)
      ensures !(old(writable) && Consistent(UpdateRows(old(rows), f, c, now))) ==>
                r == Fail(UpdateError()) && rows == old(rows)
    {
      var updated := UpdateRows(rows, f, c, now);
      if writable && Consistent(updated) {
        r := Ok(Affected(rows, f));
        rows := updated;
      } else {
        r := Fail(UpdateError());
      }
    }
  }

  /** Deactivating or touching rows rewrites no key, id or app, so it never breaks
      an index: those updates fail only when the database is down. */
  lemma KeyPreservingUpdateConsistent(rows: seq<ApiKey>, f: Filter, c: Change, now: int)
    requires Consistent(rows) && !c.Rekey?
    ensures Consistent(UpdateRows(rows, f, c, now))
  {
    var out := UpdateRows(rows, f, c, now);
    assert forall i :: 0 <= i < |rows| ==>
      out[i].id == rows[i].id && out[i].key == rows[i].key && out[i].appId == rows[i].appId;
  }

  /** `findByPk` after an update by that id finds the changed row. */
  lemma {:induction false} RowByIdAfterUpdate(rows: seq<ApiKey>, id: string, c: Change, now: int)
    ensures RowById(UpdateRows(rows, IdIs(id), c, now), id) ==
            (if RowById(rows, id).Some? then Some(Changed(RowById(rows, id).value, c, now)) else None)
  {
    if rows != [] {
      var out := UpdateRows(rows, IdIs(id), c, now);
      assert out[1..] == UpdateRows(rows[1..], IdIs(id), c, now);
      RowByIdAfterUpdate(rows[1..], id, c, now);
    }
  }

  /** Rekeying one row to a key no row holds keeps the indexes. */
  lemma RekeyOneConsistent(rows: seq<ApiKey>, id: string, key: string, expiresAt: int, now: int)
    requires Consistent(rows)
    requires forall i :: 0 <= i < |rows| ==> rows[i].key != key
    ensures Consistent(UpdateRows(rows, IdIs(id), Rekey(key, expiresAt), now))
  {
  }

  /** Once a row with key `k` is deactivated, no active row holds `k`: the key no
      longer authenticates. */
  lemma DeactivatedKeyNotFound(rows: seq<ApiKey>, f: Filter, i: nat, now: int)
    requires Consistent(rows) && i < |rows| && Selects(f, rows[i])
    ensures FirstMatch(UpdateRows(rows, f, Deactivate, now), ActiveKey(rows[i].key)).None?
  {
    var out := UpdateRows(rows, f, Deactivate, now);
    forall j | 0 <= j < |out|
      ensures !Matches(ActiveKey(rows[i].key), out[j])
    {
      if j != i {
        assert rows[j].key != rows[i].key;
      }
    }
  }

  /** While the indexes hold, a key found by `findOne` is the only active row with it. */
  lemma ActiveKeyUnique(rows: seq<ApiKey>, key: string, i: nat)
    requires Consistent(rows) && i < |rows| && Matches(ActiveKey(key), rows[i])
    ensures FirstMatch(rows, ActiveKey(key)) == Some(rows[i])
  {
    var r := FirstMatch(rows, ActiveKey(key));
    var k :| 0 <= k < |rows| && rows[k] == r.value &&
      (forall j :: 0 <= j < k ==> !Matches(ActiveKey(key), rows[j]));
  }
}
