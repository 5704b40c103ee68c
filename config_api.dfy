/** The config-store admin endpoint (`/api/config`): it checks the
    `x-admin-passcode` header against the stored `ADMIN_PASSCODE`, then lists,
    upserts or deletes rows of the `app_config` key/value table. */
module ConfigApi {
  import opened Js

  /** The key under which the admin passcode is stored. */
  const ADMIN_PASSCODE := "ADMIN_PASSCODE"

  /** A row of `app_config`. `createdAt` stands for the `created_at`
      timestamp; the table assigns increasing values in insertion order. */
  datatype Row = Row(id: nat, key: string, value: string, createdAt: nat)

  /** The request as the handler reads it: method, the passcode header and
      the body fields `config_key`, `config_value` and `id` (`None` when
      absent). */
  datatype Request = Request(
    httpMethod: string,
    passcode: Option<string>,
    key: Option<string>,
    value: Option<string>,
    id: Option<int>)

  /** `VITE_SUPABASE_URL` and `SUPABASE_SERVICE_ROLE_KEY` of `process.env`. */
  datatype Env = Env(supabaseUrl: Option<string>, serviceKey: Option<string>)

  /** Store failures: whether the passcode lookup reports an error, and the
      message of the error the operation's own query reports, if any. */
  datatype Faults = Faults(lookupFails: bool, queryFails: Option<string>)

  /** JSON bodies: `{ error }`, an array of rows, and `{ success: true }`. */
  datatype Body = Error(message: string) | Rows(rows: seq<Row>) | Done

  datatype Response = Response(status: int, body: Body)

  const MISSING_PASSCODE := Response(401, Error("Unauthorized: Missing Admin Passcode"))
  const CONFIG_ERROR := Response(500, Error("Server configuration error"))
  const INVALID_PASSCODE := Response(401, Error("Unauthorized: Invalid Passcode"))
  const MISSING_KEY_OR_VALUE := Response(400, Error("Missing key or value"))
  const MISSING_ID_OR_KEY := Response(400, Error("Missing id or config_key"))
  const METHOD_NOT_ALLOWED := Response(405, Error("Method not allowed"))

  /** Both connection settings are truthy. */
  predicate Configured(env: Env)
  {
    Truthy(env.supabaseUrl) && Truthy(env.serviceKey)
  }

  /** JavaScript truthiness of a numeric `id`: missing and `0` are falsy. */
  predicate IdTruthy(id: Option<int>)
  {
    id.Some? && id.value != 0
  }

  /** At most one row per `config_key` (the upsert's conflict target). */
  predicate UniqueKeys(rows: seq<Row>)
  {
    forall i, j :: 0 <= i < j < |rows| ==> rows[i].key != rows[j].key
  }

  predicate UniqueIds(rows: seq<Row>)
  {
    forall i, j :: 0 <= i < j < |rows| ==> rows[i].id != rows[j].id
  }

  /** Strictly increasing `created_at`. */
  predicate Ascending(rows: seq<Row>)
  {
    forall i, j :: 0 <= i < j < |rows| ==> rows[i].createdAt < rows[j].createdAt
  }

  /** Strictly decreasing `created_at`: the order of `order('created_at', { ascending: false })`. */
  predicate Descending(rows: seq<Row>)
  {
    forall i, j :: 0 <= i < j < |rows| ==> rows[i].createdAt > rows[j].createdAt
  }

  /** The position of the first row whose key is `key`, or `|rows|`. */
  function IndexOfKey(rows: seq<Row>, key: string): (i: nat)
    ensures i <= |rows|
    ensures i < |rows| ==> rows[i].key == key
    ensures forall j :: 0 <= j < i ==> rows[j].key != key
  {
    if rows == [] then 0
    else if rows[0].key == key then 0
    else 1 + IndexOfKey(rows[1..], key)
  }

  /** `.eq('config_key', key)` on a table with unique keys: the row, if any. */
  function Find(rows: seq<Row>, key: string): (r: Option<Row>)
    ensures r.Some? ==> r.value in rows && r.value.key == key
    ensures r.None? <==> forall x :: x in rows ==> x.key != key
  {
    var i := IndexOfKey(rows, key);
    if i < |rows| then Some(rows[i]) else None
  }

  /** The table seen as a key/value map (the first row of a key wins). */
  function MappingOf(rows: seq<Row>): map<string, string>
  {
    if rows == [] then map[] else MappingOf(rows[1..])[rows[0].key := rows[0].value]
  }

  /** The map view agrees with `Find`. */
  lemma {:induction false} MappingAgreesWithFind(rows: seq<Row>, key: string)
    ensures key in MappingOf(rows) <==> Find(rows, key).Some?
    ensures key in MappingOf(rows) ==> MappingOf(rows)[key] == Find(rows, key).value.value
  {
    if rows != [] && rows[0].key != key {
      MappingAgreesWithFind(rows[1..], key);
    }
  }

  /** What the `ADMIN_PASSCODE` lookup with `.single()` yields: an error when
      the store fails or no row has that key, else the stored value. */
  datatype Lookup = LookupError | Found(value: string)

  /** `.single()` also fails when two rows share the key; this takes the
      first row, so it agrees with the store only on a table with one row
      per key, which `ConfigTable.Valid` keeps. */
  function LookupPasscode(rows: seq<Row>, fails: bool): (r: Lookup)
    ensures r == if !fails && ADMIN_PASSCODE in MappingOf(rows)
      then Found(MappingOf(rows)[ADMIN_PASSCODE]) else LookupError
  {
    MappingAgreesWithFind(rows, ADMIN_PASSCODE);
    if fails then LookupError
    else match Find(rows, ADMIN_PASSCODE)
      case None => LookupError
      case Some(row) => Found(row.value)
  }

  /** Upsert with conflict target `config_key`: the row holding `key` gets the
      new value and keeps its id and timestamp; otherwise a new row is appended. */
  function Upserted(rows: seq<Row>, key: string, value: string, id: nat, at: nat): (r: seq<Row>)
    ensures |r| == if Find(rows, key).Some? then |rows| else |rows| + 1
    ensures forall j :: 0 <= j < |rows| ==>
      r[j].id == rows[j].id && r[j].key == rows[j].key && r[j].createdAt == rows[j].createdAt
    ensures forall j :: 0 <= j < |rows| && rows[j].key != key ==> r[j] == rows[j]
  {
    var i := IndexOfKey(rows, key);
    if i < |rows| then rows[i := rows[i].(value := value)]
    else rows + [Row(id, key, value, at)]
  }

  /** The row an upsert leaves for `key`. */
  function UpsertedRow(rows: seq<Row>, key: string, value: string, id: nat, at: nat): (r: Row)
    ensures r.key == key && r.value == value
    ensures Find(rows, key).Some? ==>
      r.id == Find(rows, key).value.id && r.createdAt == Find(rows, key).value.createdAt
    ensures Find(rows, key).None? ==> r == Row(id, key, value, at)
  {
    var i := IndexOfKey(rows, key);
    if i < |rows| then rows[i].(value := value) else Row(id, key, value, at)
  }

  lemma {:induction false} MappingOfAppend(rows: seq<Row>, r: Row)
    requires forall x :: x in rows ==> x.key != r.key
    ensures MappingOf(rows + [r]) == MappingOf(rows)[r.key := r.value]
    decreases |rows|
  {
    if rows != [] {
      assert (rows + [r])[1..] == rows[1..] + [r];
      MappingOfAppend(rows[1..], r);
    } else {
      assert (rows + [r])[1..] == [];
    }
  }

  lemma {:induction false} MappingOfUpdate(rows: seq<Row>, i: nat, value: string)
    requires i < |rows|
    requires forall j :: 0 <= j < i ==> rows[j].key != rows[i].key
    ensures MappingOf(rows[i := rows[i].(value := value)]) == MappingOf(rows)[rows[i].key := value]
    decreases i
  {
    var rows' := rows[i := rows[i].(value := value)];
    if i == 0 {
      assert rows'[1..] == rows[1..];
    } else {
      assert rows'[1..] == rows[1..][i - 1 := rows[i].(value := value)];
      MappingOfUpdate(rows[1..], i - 1, value);
    }
  }

  /** Upsert sets `key` to `value` and leaves every other key as it was; it
      keeps one row per key, every other row unchanged and the timestamp
      order, given a fresh id and a timestamp later than every row's. */
  lemma UpsertSetsOneKey(rows: seq<Row>, key: string, value: string, id: nat, at: nat)
    requires UniqueKeys(rows) && UniqueIds(rows) && Ascending(rows)
    requires forall x :: x in rows ==> x.id < id && x.createdAt < at
    ensures MappingOf(Upserted(rows, key, value, id, at)) == MappingOf(rows)[key := value]
    ensures UniqueKeys(Upserted(rows, key, value, id, at))
    ensures UniqueIds(Upserted(rows, key, value, id, at))
    ensures Ascending(Upserted(rows, key, value, id, at))
    ensures forall x :: x in rows && x.key != key ==> x in Upserted(rows, key, value, id, at)
    ensures forall x :: x in Upserted(rows, key, value, id, at) ==> x in rows || x == UpsertedRow(rows, key, value, id, at)
    ensures UpsertedRow(rows, key, value, id, at) in Upserted(rows, key, value, id, at)
  {
    var i := IndexOfKey(rows, key);
    if i < |rows| {
      MappingOfUpdate(rows, i, value);
    } else {
      MappingOfAppend(rows, Row(id, key, value, at));
    }
    UpsertKeepsInvariants(rows, key, value, id, at);
    UpsertKeepsOtherRows(rows, key, value, id, at);
  }

  lemma UpsertKeepsInvariants(rows: seq<Row>, key: string, value: string, id: nat, at: nat)
    requires UniqueKeys(rows) && UniqueIds(rows) && Ascending(rows)
    requires forall x :: x in rows ==> x.id < id && x.createdAt < at
    ensures UniqueKeys(Upserted(rows, key, value, id, at))
    ensures UniqueIds(Upserted(rows, key, value, id, at))
    ensures Ascending(Upserted(rows, key, value, id, at))
  {
    var i := IndexOfKey(rows, key);
    var rows' := Upserted(rows, key, value, id, at);
    if i < |rows| {
      assert |rows'| == |rows|;
      assert forall j :: 0 <= j < |rows| ==>
        rows'[j].key == rows[j].key && rows'[j].id == rows[j].id && rows'[j].createdAt == rows[j].createdAt;
    } else {
      var r := Row(id, key, value, at);
      assert rows' == rows + [r];
      assert forall j :: 0 <= j < |rows| ==> rows'[j] == rows[j] && rows[j] in rows;
      assert rows'[|rows|] == r;
    }
  }

  lemma UpsertKeepsOtherRows(rows: seq<Row>, key: string, value: string, id: nat, at: nat)
    ensures forall x :: x in rows && x.key != key ==> x in Upserted(rows, key, value, id, at)
    ensures forall x :: x in Upserted(rows, key, value, id, at) ==> x in rows || x == UpsertedRow(rows, key, value, id, at)
    ensures UpsertedRow(rows, key, value, id, at) in Upserted(rows, key, value, id, at)
  {
    var i := IndexOfKey(rows, key);
    var rows' := Upserted(rows, key, value, id, at);
    if i < |rows| {
      assert rows'[i] == UpsertedRow(rows, key, value, id, at);
      forall x | x in rows && x.key != key ensures x in rows' {
        var j :| 0 <= j < |rows| && rows[j] == x;
        assert rows'[j] == x;
      }
      forall x | x in rows' ensures x in rows || x == UpsertedRow(rows, key, value, id, at) {
        var j :| 0 <= j < |rows'| && rows'[j] == x;
        if j != i {
          assert rows[j] == x;
        }
      }
    } else {
      assert rows'[|rows|] == Row(id, key, value, at);
    }
  }

  /** The delete filters: `.eq('id', id)` or `.eq('config_key', key)`. */
  datatype Match = ById(id: int) | ByKey(key: string)

  predicate Matches(r: Row, m: Match)
  {
    match m
    case ById(id) => r.id == id
    case ByKey(key) => r.key == key
  }

  /** `delete()` with a filter: exactly the matching rows go, the others stay
      in their order. */
  function Remove(rows: seq<Row>, m: Match): (r: seq<Row>)
    ensures forall x :: x in r <==> x in rows && !Matches(x, m)
    ensures |r| <= |rows|
    ensures IsSubsequence(r, rows)
  {
    if rows == [] then []
    else if Matches(rows[0], m) then Remove(rows[1..], m)
    else [rows[0]] + Remove(rows[1..], m)
  }

  /** Dropping rows keeps each of the table's invariants. */
  lemma SubsequenceKeepsOrder(a: seq<Row>, b: seq<Row>)
    requires IsSubsequence(a, b)
    ensures UniqueKeys(b) ==> UniqueKeys(a)
    ensures UniqueIds(b) ==> UniqueIds(a)
    ensures Ascending(b) ==> Ascending(a)
    ensures forall x :: x in a ==> x in b
  {
    SubsequenceMembers(a, b);
    if UniqueKeys(b) {
      SubsequenceKeepsUniqueKeys(a, b);
    }
    if UniqueIds(b) {
      SubsequenceKeepsUniqueIds(a, b);
    }
    if Ascending(b) {
      SubsequenceKeepsAscending(a, b);
    }
  }

  lemma {:induction false} SubsequenceMembers(a: seq<Row>, b: seq<Row>)
    requires IsSubsequence(a, b)
    ensures forall x :: x in a ==> x in b
    decreases |b|
  {
    if a != [] {
      if a[0] == b[0] {
        SubsequenceMembers(a[1..], b[1..]);
        assert forall x :: x in a ==> x == a[0] || x in a[1..];
      } else {
        SubsequenceMembers(a, b[1..]);
      }
      assert forall x :: x in b[1..] ==> x in b;
    }
  }

  lemma {:induction false} SubsequenceKeepsUniqueKeys(a: seq<Row>, b: seq<Row>)
    requires IsSubsequence(a, b) && UniqueKeys(b)
    ensures UniqueKeys(a)
    decreases |b|
  {
    if a != [] {
      assert UniqueKeys(b[1..]);
      if a[0] == b[0] {
        SubsequenceKeepsUniqueKeys(a[1..], b[1..]);
        SubsequenceMembers(a[1..], b[1..]);
        forall j | 0 < j < |a| ensures a[0].key != a[j].key {
          assert a[j] == a[1..][j - 1] && a[j] in b[1..];
          var k :| 0 <= k < |b[1..]| && b[1..][k] == a[j];
          assert b[k + 1] == a[j];
        }
        assert forall i, j :: 0 < i < j < |a| ==> a[i] == a[1..][i - 1] && a[j] == a[1..][j - 1];
      } else {
        SubsequenceKeepsUniqueKeys(a, b[1..]);
      }
    }
  }

  lemma {:induction false} SubsequenceKeepsUniqueIds(a: seq<Row>, b: seq<Row>)
    requires IsSubsequence(a, b) && UniqueIds(b)
    ensures UniqueIds(a)
    decreases |b|
  {
    if a != [] {
      assert UniqueIds(b[1..]);
      if a[0] == b[0] {
        SubsequenceKeepsUniqueIds(a[1..], b[1..]);
        SubsequenceMembers(a[1..], b[1..]);
        forall j | 0 < j < |a| ensures a[0].id != a[j].id {
          assert a[j] == a[1..][j - 1] && a[j] in b[1..];
          var k :| 0 <= k < |b[1..]| && b[1..][k] == a[j];
          assert b[k + 1] == a[j];
        }
        assert forall i, j :: 0 < i < j < |a| ==> a[i] == a[1..][i - 1] && a[j] == a[1..][j - 1];
      } else {
        SubsequenceKeepsUniqueIds(a, b[1..]);
      }
    }
  }

  lemma {:induction false} SubsequenceKeepsAscending(a: seq<Row>, b: seq<Row>)
    requires IsSubsequence(a, b) && Ascending(b)
    ensures Ascending(a)
    decreases |b|
  {
    if a != [] {
      assert Ascending(b[1..]);
      if a[0] == b[0] {
        SubsequenceKeepsAscending(a[1..], b[1..]);
        SubsequenceMembers(a[1..], b[1..]);
        forall j | 0 < j < |a| ensures a[0].createdAt < a[j].createdAt {
          assert a[j] == a[1..][j - 1] && a[j] in b[1..];
          var k :| 0 <= k < |b[1..]| && b[1..][k] == a[j];
          assert b[k + 1] == a[j];
        }
        assert forall i, j :: 0 < i < j < |a| ==> a[i] == a[1..][i - 1] && a[j] == a[1..][j - 1];
      } else {
        SubsequenceKeepsAscending(a, b[1..]);
      }
    }
  }

  /** Deleting by key removes that key from the map view and nothing else. */
  lemma {:induction false} RemoveByKeyDropsKey(rows: seq<Row>, key: string)
    ensures MappingOf(Remove(rows, ByKey(key))) == MappingOf(rows) - {key}
    decreases |rows|
  {
    if rows != [] {
      RemoveByKeyDropsKey(rows[1..], key);
    }
  }

  /** Deleting by id on a table with unique ids and keys removes exactly the
      key of the row carrying that id. */
  lemma {:induction false} RemoveByIdDropsItsKey(rows: seq<Row>, x: Row)
    requires UniqueIds(rows) && UniqueKeys(rows) && x in rows
    ensures MappingOf(Remove(rows, ById(x.id))) == MappingOf(rows) - {x.key}
    decreases |rows|
  {
    var rest := rows[1..];
    if rows[0] == x {
      RemoveFirstById(rows);
    } else {
      var k :| 0 < k < |rows| && rows[k] == x;
      assert rows[0].id != x.id && rows[0].key != x.key;
      assert UniqueIds(rest) && UniqueKeys(rest) && x == rest[k - 1];
      RemoveByIdDropsItsKey(rest, x);
      RemoveKeptFirst(rows, ById(x.id), x.key);
    }
  }

  /** Deleting by the id of the first row of a table with unique ids and
      keys drops just that row's key. */
  lemma RemoveFirstById(rows: seq<Row>)
    requires rows != [] && UniqueIds(rows) && UniqueKeys(rows)
    ensures MappingOf(Remove(rows, ById(rows[0].id))) == MappingOf(rows) - {rows[0].key}
  {
    var x, rest := rows[0], rows[1..];
    forall y | y in rest ensures y.id != x.id && y.key != x.key {
      var k :| 0 <= k < |rest| && rest[k] == y;
      assert rows[0] == x && rows[k + 1] == y;
    }
    RemoveNothing(rest, ById(x.id));
    NotInMapping(rest, x.key);
    DropUpdated(MappingOf(rest), x.key, x.value);
  }

  /** A first row that the filter keeps, of a key other than `key`, commutes
      with dropping `key` from the map. */
  lemma RemoveKeptFirst(rows: seq<Row>, m: Match, key: string)
    requires rows != [] && !Matches(rows[0], m) && rows[0].key != key
    requires MappingOf(Remove(rows[1..], m)) == MappingOf(rows[1..]) - {key}
    ensures MappingOf(Remove(rows, m)) == MappingOf(rows) - {key}
  {
    var kept := Remove(rows[1..], m);
    assert Remove(rows, m) == [rows[0]] + kept;
    assert ([rows[0]] + kept)[1..] == kept;
    UpdateThenDrop(MappingOf(rows[1..]), rows[0].key, rows[0].value, key);
  }

  /** Adding a fresh key and dropping it again gives the map back. */
  lemma DropUpdated(m: map<string, string>, k: string, v: string)
    requires k !in m
    ensures m[k := v] - {k} == m
  {
    assert (m[k := v] - {k}).Keys == m.Keys;
  }

  /** Updating one key commutes with dropping another. */
  lemma UpdateThenDrop(m: map<string, string>, k: string, v: string, key: string)
    requires k != key
    ensures (m - {key})[k := v] == m[k := v] - {key}
  {
    assert ((m - {key})[k := v]).Keys == (m[k := v] - {key}).Keys;
  }

  /** A filter no row matches removes nothing. */
  lemma {:induction false} RemoveNothing(rows: seq<Row>, m: Match)
    requires forall x :: x in rows ==> !Matches(x, m)
    ensures Remove(rows, m) == rows
    decreases |rows|
  {
    if rows != [] {
      RemoveNothing(rows[1..], m);
    }
  }

  lemma {:induction false} NotInMapping(rows: seq<Row>, key: string)
    requires forall x :: x in rows ==> x.key != key
    ensures key !in MappingOf(rows)
    decreases |rows|
  {
    if rows != [] {
      NotInMapping(rows[1..], key);
    }
  }

  /** The sequence in reverse order. */
  function Reverse(rows: seq<Row>): (r: seq<Row>)
    ensures |r| == |rows|
    ensures forall i :: 0 <= i < |rows| ==> r[i] == rows[|rows| - 1 - i]
  {
    if rows == [] then [] else Reverse(rows[1..]) + [rows[0]]
  }

  /** The `app_config` table. Rows are kept in insertion order, which is
      also `created_at` order; `nextId` and `clock` are the next id and
      timestamp the table hands out. */
  class ConfigTable {
    var rows: seq<Row>
    var nextId: nat
    var clock: nat

    ghost predicate Valid()
      reads this
    {
      && UniqueKeys(rows)
      && UniqueIds(rows)
      && Ascending(rows)
      && (forall x :: x in rows ==> x.id < nextId && x.createdAt < clock)
    }

    constructor ()
      ensures Valid() && rows == []
    {
      rows := [];
      nextId := 1;
      clock := 0;
    }

    /** The table as a key/value map. */
    function Mapping(): map<string, string>
      reads this
    {
      MappingOf(rows)
    }

    /** The GET listing: every row, newest first. */
    function Listing(): (r: seq<Row>)
      reads this
      requires Valid()
      ensures Descending(r)
      ensures multiset(r) == multiset(rows)
    {
      var r := Reverse(rows);
      assert multiset(r) == multiset(rows) by {
        ReverseMultiset(rows);
      }
      r
    }

    /** The passcode check: the lookup succeeds and its value equals the
        header exactly. */
    predicate PasscodeAccepted(passcode: string, lookupFails: bool)
      reads this
    {
      LookupPasscode(rows, lookupFails) == Found(passcode)
    }

    /** The handler. Unauthorised requests and failed or rejected operations
        leave the table as it was. */
    method Handle(req: Request, env: Env, faults: Faults) returns (resp: Response)
      requires Valid()
      modifies this
      ensures Valid()
      ensures !Truthy(req.passcode) ==> resp == MISSING_PASSCODE && rows == old(rows)
      ensures Truthy(req.passcode) && !Configured(env) ==> resp == CONFIG_ERROR && rows == old(rows)
      ensures Truthy(req.passcode) && Configured(env) && !old(PasscodeAccepted(req.passcode.value, faults.lookupFails)) ==>
        resp == INVALID_PASSCODE && rows == old(rows)
      ensures Truthy(req.passcode) && Configured(env) && old(PasscodeAccepted(req.passcode.value, faults.lookupFails)) ==>
        if req.httpMethod == "GET" then
          rows == old(rows) &&
          resp == (if faults.queryFails.Some? then Response(500, Error(faults.queryFails.value))
                   else Response(200, Rows(old(Listing()))))
        else if req.httpMethod == "POST" then
          if !Truthy(req.key) || req.value.None? then resp == MISSING_KEY_OR_VALUE && rows == old(rows)
          else if faults.queryFails.Some? then resp == Response(500, Error(faults.queryFails.value)) && rows == old(rows)
          else
            && Mapping() == old(Mapping())[req.key.value := req.value.value]
            && rows == Upserted(old(rows), req.key.value, req.value.value, old(nextId), old(clock))
            && resp == Response(200, Rows([UpsertedRow(old(rows), req.key.value, req.value.value, old(nextId), old(clock))]))
        else if req.httpMethod == "DELETE" then
          if !IdTruthy(req.id) && !Truthy(req.key) then resp == MISSING_ID_OR_KEY && rows == old(rows)
          else if faults.queryFails.Some? then resp == Response(500, Error(faults.queryFails.value)) && rows == old(rows)
          else
            && resp == Response(200, Done)
            && rows == Remove(old(rows), if IdTruthy(req.id) then ById(req.id.value) else ByKey(req.key.value))
        else
          resp == METHOD_NOT_ALLOWED && rows == old(rows)
    {
      if !Truthy(req.passcode) {
        return MISSING_PASSCODE;
      }
      if !Configured(env) {
        return CONFIG_ERROR;
      }
      if !PasscodeAccepted(req.passcode.value, faults.lookupFails) {
        return INVALID_PASSCODE;
      }

      if req.httpMethod == "GET" {
        if faults.queryFails.Some? {
          return Response(500, Error(faults.queryFails.value));
        }
        return Response(200, Rows(Listing()));
      }

      if req.httpMethod == "POST" {
        if !Truthy(req.key) || req.value.None? {
          return MISSING_KEY_OR_VALUE;
        }
        if faults.queryFails.Some? {
          return Response(500, Error(faults.queryFails.value));
        }
        var row := Upsert(req.key.value, req.value.value);
        return Response(200, Rows([row]));
      }

      if req.httpMethod == "DELETE" {
        var m: Match;
        if IdTruthy(req.id) {
          m := ById(req.id.value);
        } else if Truthy(req.key) {
          m := ByKey(req.key.value);
        } else {
          return MISSING_ID_OR_KEY;
        }
        if faults.queryFails.Some? {
          return Response(500, Error(faults.queryFails.value));
        }
        Delete(m);
        return Response(200, Done);
      }

      return METHOD_NOT_ALLOWED;
    }

    /** Upsert on `config_key`; returns the row as `.select()` reads it back. */
    method Upsert(key: string, value: string) returns (row: Row)
      requires Valid()
      modifies this
      ensures Valid()
      ensures rows == Upserted(old(rows), key, value, old(nextId), old(clock))
      ensures Mapping() == old(Mapping())[key := value]
      ensures row == UpsertedRow(old(rows), key, value, old(nextId), old(clock))
      ensures forall x :: x in old(rows) && x.key != key ==> x in rows
    {
      UpsertSetsOneKey(rows, key, value, nextId, clock);
      row := UpsertedRow(rows, key, value, nextId, clock);
      rows := Upserted(rows, key, value, nextId, clock);
      nextId := nextId + 1;
      clock := clock + 1;
    }

    /** `delete()` with one filter. */
    method Delete(m: Match)
      requires Valid()
      modifies this
      ensures Valid()
      ensures rows == Remove(old(rows), m)
      ensures m.ByKey? ==> Mapping() == old(Mapping()) - {m.key}
      ensures forall x :: m.ById? && x in old(rows) && x.id == m.id ==> Mapping() == old(Mapping()) - {x.key}
      ensures forall x :: x in old(rows) && !Matches(x, m) ==> x in rows
    {
      SubsequenceKeepsOrder(Remove(rows, m), rows);
      if m.ByKey? {
        RemoveByKeyDropsKey(rows, m.key);
      } else {
        forall x | x in rows && x.id == m.id ensures MappingOf(Remove(rows, m)) == MappingOf(rows) - {x.key} {
          RemoveByIdDropsItsKey(rows, x);
        }
      }
      rows := Remove(rows, m);
    }
  }

  lemma {:induction false} ReverseMultiset(rows: seq<Row>)
    ensures multiset(Reverse(rows)) == multiset(rows)
    decreases |rows|
  {
    if rows != [] {
      ReverseMultiset(rows[1..]);
      assert rows == [rows[0]] + rows[1..];
    }
  }
}
