/** The user records and, for each of the five handlers of the `/api/users`
    resources, a function that gives its response and the new contents of the
    `users` list from the old contents. */
module UserModel {
  import Decimal

  /** The creation time; the clock is outside the model. */
  type Timestamp = nat

  /** A JSON value held under a key of a user record. `Time` is what the
      handlers themselves store under "created_at". */
  datatype Value =
    | Int(n: int)
    | Bool(b: bool)
    | Str(s: string)
    | Time(t: Timestamp)
    | Null

  /** A user record is a Python dict from field names to values. */
  type Record = map<string, Value>

  const ID_KEY := "id"
  const CREATED_AT_KEY := "created_at"

  /** The one domain error: no user with this id. */
  datatype Error = NotFound(id: nat)

  datatype Option<T> = None | Some(value: T)

  datatype Result<T> = Ok(value: T) | Err(error: Error)

  /** What a handler answers, together with the `users` list it leaves behind. */
  datatype Outcome<T> = Outcome(result: Result<T>, users: seq<Record>)

  /** The text `api.abort(404, ...)` carries: the id in decimal between
      "User " and " doesn't exist". */
  function NotFoundMessage(id: nat): (m: string)
    ensures |m| >= 20 && m[..5] == "User " && m[|m| - 14..] == " doesn't exist"
    ensures forall k :: 5 <= k < |m| - 14 ==> Decimal.IsDigit(m[k])
    ensures Decimal.Parse(m[5..|m| - 14]) == id
  {
    var digits := Decimal.Decimal(id);
    Decimal.ParseDecimal(id);
    var m := "User " + digits + " doesn't exist";
    assert m[5..|m| - 14] == digits;
    m
  }

  /** Python's `user['id'] == id` for the stored value and the integer path
      id: integers compare by value, `True == 1` and `False == 0`, other
      values never equal an integer. */
  predicate ValueIs(v: Value, id: int): (r: bool)
    ensures r <==> v == Int(id) || (v.Bool? && 0 <= id <= 1 && v == Bool(id == 1))
  {
    match v
    case Int(n) => n == id
    case Bool(b) => (if b then 1 else 0) == id
    case _ => false
  }

  /** Whether `user['id'] == id` holds (every stored record has an "id" key). */
  predicate IdMatches(user: Record, id: int): (r: bool)
    ensures r ==> ID_KEY in user
    ensures r <==> ID_KEY in user && (user[ID_KEY] == Int(id) || (0 <= id <= 1 && user[ID_KEY] == Bool(id == 1)))
  {
    ID_KEY in user && ValueIs(user[ID_KEY], id)
  }

  /** Every record of the list has the two keys the handlers rely on. */
  ghost predicate WellFormed(users: seq<Record>) {
    forall k :: 0 <= k < |users| ==> ID_KEY in users[k] && CREATED_AT_KEY in users[k]
  }

  /** The index the scan `for user in users: if user['id'] == id` stops at. */
  function FirstMatch(users: seq<Record>, id: int): (r: Option<nat>)
    ensures r.Some? ==> r.value < |users| && IdMatches(users[r.value], id)
    ensures r.Some? ==> forall j :: 0 <= j < r.value ==> !IdMatches(users[j], id)
    ensures r.None? ==> forall j :: 0 <= j < |users| ==> !IdMatches(users[j], id)
  {
    if users == [] then None
    else if IdMatches(users[0], id) then Some(0)
    else match FirstMatch(users[1..], id)
      case None => None
      case Some(i) => Some(i + 1)
  }

  /** The record `post` stores: the payload with "id" set to the old length
      plus one and "created_at" set to the time, whatever the client sent. */
  function CreateRecord(payload: Record, count: nat, now: Timestamp): (r: Record)
    ensures r.Keys == payload.Keys + {ID_KEY, CREATED_AT_KEY}
    ensures r[ID_KEY] == Int(count + 1) && r[CREATED_AT_KEY] == Time(now)
    ensures forall k :: k in payload && k != ID_KEY && k != CREATED_AT_KEY ==> r[k] == payload[k]
  {
    payload[ID_KEY := Int(count + 1)][CREATED_AT_KEY := Time(now)]
  }

  /** `user.update(payload)`: a shallow merge in which the payload wins. */
  function Merge(user: Record, payload: Record): (r: Record)
    ensures r.Keys == user.Keys + payload.Keys
    ensures forall k :: k in payload ==> r[k] == payload[k]
    ensures forall k :: k in user && k !in payload ==> r[k] == user[k]
  {
    user + payload
  }

  /** `[user for user in users if user['id'] != id]`. */
  function Remove(users: seq<Record>, id: int): (r: seq<Record>)
    ensures |r| <= |users|
    ensures forall k :: 0 <= k < |r| ==> r[k] in users && !IdMatches(r[k], id)
    ensures forall k :: 0 <= k < |users| && !IdMatches(users[k], id) ==> users[k] in r
  {
    if users == [] then []
    else (if IdMatches(users[0], id) then [] else [users[0]]) + Remove(users[1..], id)
  }

  /** `UserList.get`: the list as it is. */
  function List(users: seq<Record>): (o: Outcome<seq<Record>>)
    ensures o.result == Ok(users) && o.users == users
  {
    Outcome(Ok(users), users)
  }

  /** `UserList.post`. */
  function Create(users: seq<Record>, payload: Record, now: Timestamp): (o: Outcome<Record>)
    ensures o.result.Ok? && o.users == users + [o.result.value]
    ensures ID_KEY in o.result.value && o.result.value[ID_KEY] == Int(|users| + 1)
    ensures CREATED_AT_KEY in o.result.value && o.result.value[CREATED_AT_KEY] == Time(now)
  {
    var user := CreateRecord(payload, |users|, now);
    Outcome(Ok(user), users + [user])
  }

  /** `User.get`: the first record whose id matches. */
  function Get(users: seq<Record>, id: nat): (o: Outcome<Record>)
    ensures o.users == users
    ensures o.result.Ok? <==> exists k :: 0 <= k < |users| && IdMatches(users[k], id)
    ensures o.result.Ok? ==> o.result.value in users && IdMatches(o.result.value, id)
    ensures o.result.Err? ==> o.result.error == NotFound(id)
  {
    match FirstMatch(users, id)
    case None => Outcome(Err(NotFound(id)), users)
    case Some(i) => Outcome(Ok(users[i]), users)
  }

  /** `User.delete`: every record with that id goes; `Ok(())` is the empty 204. */
  function Delete(users: seq<Record>, id: nat): (o: Outcome<()>)
    ensures o.result.Ok? <==> exists k :: 0 <= k < |users| && IdMatches(users[k], id)
    ensures o.result.Err? ==> o.result.error == NotFound(id) && o.users == users
    ensures o.result.Ok? ==> forall k :: 0 <= k < |o.users| ==> !IdMatches(o.users[k], id)
  {
    if FirstMatch(users, id).None? then Outcome(Err(NotFound(id)), users)
    else Outcome(Ok(()), Remove(users, id))
  }

  /** `User.put`: the payload is merged into the first matching record only. */
  function Update(users: seq<Record>, id: nat, payload: Record): (o: Outcome<Record>)
    ensures |o.users| == |users|
    ensures o.result.Ok? <==> exists k :: 0 <= k < |users| && IdMatches(users[k], id)
    ensures o.result.Err? ==> o.result.error == NotFound(id) && o.users == users
    ensures o.result.Ok? ==> o.result.value in o.users
    ensures o.result.Ok? ==>
      forall key :: key in payload ==> key in o.result.value && o.result.value[key] == payload[key]
  {
    match FirstMatch(users, id)
    case None => Outcome(Err(NotFound(id)), users)
    case Some(i) =>
      var user := Merge(users[i], payload);
      var updated := users[i := user];
      assert updated[i] == user;
      Outcome(Ok(user), updated)
  }
}
