/** What the five handlers promise, and what follows from the way they assign
    ids: ids are 1..n while only `post` runs, a `delete` lets the next `post`
    reuse an id still in the list, and `put` may rewrite "id" itself. */
module UserProperties {
  import Decimal
  import opened UserModel

  /** No two records of the list answer to the same path id. */
  ghost predicate UniqueIds(users: seq<Record>) {
    forall i, j, id: int ::
      (0 <= i < |users| && 0 <= j < |users| && IdMatches(users[i], id) && IdMatches(users[j], id)) ==> i == j
  }

  /** Record k (0-based) has id k + 1. */
  ghost predicate IdsAreIndices(users: seq<Record>) {
    forall k :: 0 <= k < |users| ==> ID_KEY in users[k] && users[k][ID_KEY] == Int(k + 1)
  }

  /** The list after a run of `post` requests, each a payload and its time. */
  function Replay(users: seq<Record>, requests: seq<(Record, Timestamp)>): seq<Record>
    decreases |requests|
  {
    if requests == [] then users
    else Replay(Create(users, requests[0].0, requests[0].1).users, requests[1..])
  }

  // ----- the 404 message -----

  /** The message of NotFound names the missing id: two ids give the same
      message only if they are equal. */
  lemma NotFoundMessageNamesId(a: nat, b: nat)
    ensures NotFoundMessage(a) == NotFoundMessage(b) ==> a == b
  {
    var ma, mb := NotFoundMessage(a), NotFoundMessage(b);
    assert ma[5..|ma| - 14] == Decimal.Decimal(a);
    assert mb[5..|mb| - 14] == Decimal.Decimal(b);
    Decimal.DecimalInjective(a, b);
  }

  // ----- list -----

  /** `UserList.get` answers the whole list and changes nothing, so asking
      twice gives the same answer. */
  lemma ListIsReadOnly(users: seq<Record>)
    ensures List(users).result == Ok(users) && List(users).users == users
    ensures List(List(users).users) == List(users)
  {
  }

  // ----- create -----

  /** `post` appends one record whose id is the old length plus one and whose
      creation time is `now`; earlier records are untouched. */
  lemma CreateAppends(users: seq<Record>, payload: Record, now: Timestamp)
    ensures var o := Create(users, payload, now);
      && o.result.Ok?
      && |o.users| == |users| + 1
      && o.users[..|users|] == users
      && o.users[|users|] == o.result.value
      && o.result.value[ID_KEY] == Int(|users| + 1)
      && o.result.value[CREATED_AT_KEY] == Time(now)
      && forall k :: k in payload && k != ID_KEY && k != CREATED_AT_KEY ==> o.result.value[k] == payload[k]
  {
  }

  lemma CreateKeepsIdsAreIndices(users: seq<Record>, payload: Record, now: Timestamp)
    requires IdsAreIndices(users)
    ensures IdsAreIndices(Create(users, payload, now).users)
  {
  }

  /** From an empty list, creates alone number the records 1, 2, ..., n. */
  lemma {:induction false} ReplayNumbersIds(users: seq<Record>, requests: seq<(Record, Timestamp)>)
    requires IdsAreIndices(users)
    ensures |Replay(users, requests)| == |users| + |requests|
    ensures IdsAreIndices(Replay(users, requests))
    decreases |requests|
  {
    if requests != [] {
      var next := Create(users, requests[0].0, requests[0].1).users;
      CreateKeepsIdsAreIndices(users, requests[0].0, requests[0].1);
      ReplayNumbersIds(next, requests[1..]);
    }
  }

  lemma IdsAreIndicesUnique(users: seq<Record>)
    requires IdsAreIndices(users)
    ensures UniqueIds(users)
  {
  }

  /** The ids of a list built by creates alone are 1..n, hence distinct. */
  lemma CreatesOnlyGiveUniqueIds(requests: seq<(Record, Timestamp)>)
    ensures |Replay([], requests)| == |requests|
    ensures forall k :: 0 <= k < |requests| ==>
      ID_KEY in Replay([], requests)[k] && Replay([], requests)[k][ID_KEY] == Int(k + 1)
    ensures UniqueIds(Replay([], requests))
  {
    ReplayNumbersIds([], requests);
    IdsAreIndicesUnique(Replay([], requests));
  }

  /** A record just created is found again by `get` with its id, field for
      field, as long as no older record already answers to that id (which
      holds when ids are 1..n). */
  lemma CreateThenGet(users: seq<Record>, payload: Record, now: Timestamp)
    requires FirstMatch(users, |users| + 1).None?
    ensures var o := Create(users, payload, now);
      Get(o.users, |users| + 1).result == o.result
  {
    var o := Create(users, payload, now);
    var n := |users|;
    forall j | 0 <= j < n
      ensures !IdMatches(o.users[j], n + 1)
    {
      assert o.users[j] == users[j];
    }
    assert IdMatches(o.users[n], n + 1);
    var i := FirstMatch(o.users, n + 1).value;
    assert i == n;
  }

  lemma IdsAreIndicesLeaveNextIdFree(users: seq<Record>)
    requires IdsAreIndices(users)
    ensures FirstMatch(users, |users| + 1).None?
  {
    forall j | 0 <= j < |users|
      ensures !IdMatches(users[j], |users| + 1)
    {
      assert users[j][ID_KEY] == Int(j + 1);
    }
  }

  /** Two creates, a delete of user 1 and one more create leave two records
      that both answer to id 2: `len(users) + 1` reuses an id still present. */
  lemma DeleteThenCreateReusesId(p1: Record, p2: Record, p3: Record, t1: Timestamp, t2: Timestamp, t3: Timestamp)
    ensures var two := Create(Create([], p1, t1).users, p2, t2).users;
      var afterDelete := Delete(two, 1);
      var three := Create(afterDelete.users, p3, t3);
      && afterDelete.result == Ok(())
      && |three.users| == 2
      && IdMatches(three.users[0], 2) && IdMatches(three.users[1], 2)
      && !UniqueIds(three.users)
  {
    var one := Create([], p1, t1).users;
    var two := Create(one, p2, t2).users;
    assert IdMatches(two[0], 1) && !IdMatches(two[1], 1);
    assert FirstMatch(two, 1) == Some(0);
    assert two[1..][1..] == [];
    assert Remove(two[1..], 1) == [two[1]];
    var afterDelete := Delete(two, 1);
    assert afterDelete.users == [two[1]];
    var three := Create(afterDelete.users, p3, t3).users;
    assert IdMatches(three[0], 2) && IdMatches(three[1], 2);
  }

  // ----- get -----

  /** `get` answers the first record with that id, NotFound(id) when there is
      none, and changes nothing. */
  lemma GetFindsFirst(users: seq<Record>, id: nat)
    ensures Get(users, id).users == users
    ensures Get(users, id).result.Ok? <==> exists k :: 0 <= k < |users| && IdMatches(users[k], id)
    ensures Get(users, id).result.Err? ==> Get(users, id).result.error == NotFound(id)
    ensures forall k ::
      (0 <= k < |users| && IdMatches(users[k], id) && forall j :: 0 <= j < k ==> !IdMatches(users[j], id))
      ==> Get(users, id).result == Ok(users[k])
  {
    forall k | 0 <= k < |users| && IdMatches(users[k], id) &&
      (forall j :: 0 <= j < k ==> !IdMatches(users[j], id))
      ensures FirstMatch(users, id) == Some(k)
    {
      var i := FirstMatch(users, id).value;
      assert !(i < k) && !(k < i);
    }
  }

  // ----- delete -----

  /** The comprehension distributes over concatenation: it keeps the order of
      what it keeps. */
  lemma {:induction false} RemoveAppend(a: seq<Record>, b: seq<Record>, id: int)
    ensures Remove(a + b, id) == Remove(a, id) + Remove(b, id)
  {
    if a == [] {
      assert a + b == b;
    } else {
      var ab, first := a + b, if IdMatches(a[0], id) then [] else [a[0]];
      assert ab[0] == a[0] && ab[1..] == a[1..] + b;
      RemoveAppend(a[1..], b, id);
      calc {
        Remove(ab, id);
        first + Remove(a[1..] + b, id);
        first + (Remove(a[1..], id) + Remove(b, id));
        (first + Remove(a[1..], id)) + Remove(b, id);
      }
    }
  }

  /** A kept record stays between what is kept before it and what is kept
      after it. */
  lemma RemoveKeepsOrder(users: seq<Record>, id: int, k: nat)
    requires k < |users| && !IdMatches(users[k], id)
    ensures Remove(users, id) == Remove(users[..k], id) + [users[k]] + Remove(users[k + 1..], id)
  {
    assert users == users[..k] + ([users[k]] + users[k + 1..]);
    RemoveAppend(users[..k], [users[k]] + users[k + 1..], id);
    RemoveAppend([users[k]], users[k + 1..], id);
  }

  /** A list with no record for the id is left exactly as it was. */
  lemma {:induction false} RemoveAbsent(users: seq<Record>, id: int)
    requires forall k :: 0 <= k < |users| ==> !IdMatches(users[k], id)
    ensures Remove(users, id) == users
  {
    if users != [] {
      RemoveAbsent(users[1..], id);
    }
  }

  /** `delete` of an absent id answers NotFound(id) and changes nothing; of a
      present id it answers the empty 204, removes every record with that id
      and at least one record. */
  lemma DeleteRemovesAll(users: seq<Record>, id: nat)
    ensures Delete(users, id).result.Ok? <==> exists k :: 0 <= k < |users| && IdMatches(users[k], id)
    ensures Delete(users, id).result.Err? ==>
      Delete(users, id).result.error == NotFound(id) && Delete(users, id).users == users
    ensures Delete(users, id).result.Ok? ==>
      && |Delete(users, id).users| < |users|
      && Get(Delete(users, id).users, id).result == Err(NotFound(id))
  {
    if FirstMatch(users, id).Some? {
      RemoveShrinks(users, id, FirstMatch(users, id).value);
      var r := Remove(users, id);
      assert FirstMatch(r, id).None?;
    }
  }

  /** A record with the id is dropped, so the filtered list is shorter. */
  lemma {:induction false} RemoveShrinks(users: seq<Record>, id: int, k: nat)
    requires k < |users| && IdMatches(users[k], id)
    ensures |Remove(users, id)| < |users|
  {
    if k > 0 {
      RemoveShrinks(users[1..], id, k - 1);
    }
  }

  /** A leading record with another id does not change what `get` answers. */
  lemma GetSkipsOther(users: seq<Record>, id: nat)
    requires users != [] && !IdMatches(users[0], id)
    ensures Get(users, id).result == Get(users[1..], id).result
  {
  }

  lemma GetFindsHead(users: seq<Record>, id: nat)
    requires users != [] && IdMatches(users[0], id)
    ensures Get(users, id).result == Ok(users[0])
  {
  }

  /** Deleting one id does not change what `get` answers for another id. */
  lemma {:induction false} DeleteKeepsOtherUsers(users: seq<Record>, id: int, other: nat)
    requires other != id
    ensures Get(Remove(users, id), other).result == Get(users, other).result
  {
    if users != [] {
      var head, rest := users[0], Remove(users[1..], id);
      if IdMatches(head, other) {
        assert !IdMatches(head, id);
        assert Remove(users, id) == [head] + rest;
        GetFindsHead(users, other);
        GetFindsHead([head] + rest, other);
      } else {
        DeleteKeepsOtherUsers(users[1..], id, other);
        GetSkipsOther(users, other);
        if IdMatches(head, id) {
          assert Remove(users, id) == rest;
        } else {
          assert Remove(users, id) == [head] + rest;
          assert ([head] + rest)[1..] == rest;
          GetSkipsOther([head] + rest, other);
        }
      }
    }
  }

  // ----- update -----

  /** `put` on a present id merges the payload into the first record with that
      id only: every key of the payload, "id" and "created_at" included, takes
      the payload's value, other keys keep theirs, and every other record is
      unchanged. On an absent id it answers NotFound(id) and changes nothing. */
  lemma UpdateMergesFirstOnly(users: seq<Record>, id: nat, payload: Record)
    ensures var o := Update(users, id, payload);
      && |o.users| == |users|
      && (o.result.Err? ==> o.result.error == NotFound(id) && o.users == users)
      && (o.result.Ok? <==> exists k :: 0 <= k < |users| && IdMatches(users[k], id))
    ensures var o := Update(users, id, payload);
      forall i :: 0 <= i < |users| && IdMatches(users[i], id) && (forall j :: 0 <= j < i ==> !IdMatches(users[j], id)) ==>
        && o.result == Ok(o.users[i])
        && o.users[i].Keys == users[i].Keys + payload.Keys
        && (forall key :: key in payload ==> o.users[i][key] == payload[key])
        && (forall key :: key in users[i] && key !in payload ==> o.users[i][key] == users[i][key])
        && (forall j :: 0 <= j < |users| && j != i ==> o.users[j] == users[j])
  {
    GetFindsFirst(users, id);
  }

  /** With no "id" in the payload the updated record is still the one `get`
      finds for that id. */
  lemma UpdateThenGet(users: seq<Record>, id: nat, payload: Record)
    requires ID_KEY !in payload
    ensures var o := Update(users, id, payload);
      Get(o.users, id).result == o.result
  {
    var o := Update(users, id, payload);
    if FirstMatch(users, id).Some? {
      var i := FirstMatch(users, id).value;
      assert IdMatches(o.users[i], id);
      assert forall j :: 0 <= j < i ==> o.users[j] == users[j];
      GetFindsFirst(o.users, id);
    }
  }

  /** With a different "id" in the payload, `put` takes the user away from its
      old id: a following `get` of that id answers NotFound. */
  lemma UpdateCanRenameUser(users: seq<Record>, id: nat, payload: Record, newId: int)
    requires UniqueIds(users)
    requires exists k :: 0 <= k < |users| && IdMatches(users[k], id)
    requires ID_KEY in payload && payload[ID_KEY] == Int(newId) && newId != id
    ensures var o := Update(users, id, payload);
      o.result.Ok? && Get(o.users, id).result == Err(NotFound(id))
  {
    var i := FirstMatch(users, id).value;
    var o := Update(users, id, payload);
    assert !IdMatches(o.users[i], id);
    forall j | 0 <= j < |o.users|
      ensures !IdMatches(o.users[j], id)
    {
      if j != i {
        assert o.users[j] == users[j];
      }
    }
  }

  // ----- the shape of every record -----

  /** Every handler leaves each record with an "id" and a "created_at". */
  lemma HandlersKeepWellFormed(users: seq<Record>, id: nat, payload: Record, now: Timestamp)
    requires WellFormed(users)
    ensures WellFormed(Create(users, payload, now).users)
    ensures WellFormed(Delete(users, id).users)
    ensures WellFormed(Update(users, id, payload).users)
  {
  }
}
