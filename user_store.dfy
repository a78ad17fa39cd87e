/** The module-level `users` list and the five request handlers that read and
    change it, written as the source writes them: `append` in place, scanning
    loops with an early return, and a rebinding of the list to a filtered copy. */
module UserStore {
  import opened UserModel
  import UserProperties

  class Store {
    /** `users = []` at module load. */
    var users: seq<Record>

    /** Every record has an "id" (so `user['id']` never raises) and a "created_at". */
    ghost predicate Valid()
      reads this
    {
      WellFormed(users)
    }

    constructor ()
      ensures Valid() && users == []
    {
      users := [];
    }

    /** `UserList.get`. */
    method List() returns (r: seq<Record>)
      ensures UserModel.List(users) == Outcome(Ok(r), users)
    {
      r := users;
    }

    /** `UserList.post`: the payload gets its id and creation time and is appended. */
    method Create(payload: Record, now: Timestamp) returns (r: Record)
      requires Valid()
      modifies this
      ensures Valid()
      ensures UserModel.Create(old(users), payload, now) == Outcome(Ok(r), users)
    {
      r := payload;
      r := r[ID_KEY := Int(|users| + 1)];
      r := r[CREATED_AT_KEY := Time(now)];
      users := users + [r];
    }

    /** `User.get`: the first record whose id matches, else NotFound. */
    method Get(id: nat) returns (r: Result<Record>)
      requires Valid()
      ensures UserModel.Get(users, id) == Outcome(r, users)
    {
      var i := 0;
      while i < |users|
        invariant i <= |users|
        invariant forall j :: 0 <= j < i ==> !IdMatches(users[j], id)
      {
        if ValueIs(users[i][ID_KEY], id) {
          UserProperties.GetFindsFirst(users, id);
          return Ok(users[i]);
        }
        i := i + 1;
      }
      return Err(NotFound(id));
    }

    /** `User.delete`: NotFound unless some record has the id; otherwise the
        list is rebound to the records whose id differs. */
    method Delete(id: nat) returns (r: Result<()>)
      requires Valid()
      modifies this
      ensures Valid()
      ensures UserModel.Delete(old(users), id) == Outcome(r, users)
    {
      // any(user['id'] == id for user in users)
      var userExists := false;
      var i := 0;
      while i < |users| && !userExists
        invariant i <= |users|
        invariant users == old(users)
        invariant !userExists ==> forall j :: 0 <= j < i ==> !IdMatches(users[j], id)
        invariant userExists ==> 0 < i && IdMatches(users[i - 1], id)
      {
        userExists := ValueIs(users[i][ID_KEY], id);
        i := i + 1;
      }
      if !userExists {
        assert FirstMatch(users, id).None?;
        return Err(NotFound(id));
      }
      assert FirstMatch(users, id).Some?;
      var kept := Without(id);
      users := kept;
      return Ok(());
    }

    /** `[user for user in users if user['id'] != id]`: the records whose id
        differs, in their order. */
    method Without(id: nat) returns (kept: seq<Record>)
      requires Valid()
      ensures kept == Remove(users, id)
    {
      kept := [];
      var j := 0;
      while j < |users|
        invariant j <= |users|
        invariant kept == Remove(users[..j], id)
      {
        assert users[..j + 1] == users[..j] + [users[j]];
        UserProperties.RemoveAppend(users[..j], [users[j]], id);
        if !ValueIs(users[j][ID_KEY], id) {
          kept := kept + [users[j]];
        }
        j := j + 1;
      }
      assert users[..j] == users;
    }

    /** `User.put`: the payload is merged into the first matching record in
        place and that record returned, else NotFound. */
    method Update(id: nat, payload: Record) returns (r: Result<Record>)
      requires Valid()
      modifies this
      ensures Valid()
      ensures UserModel.Update(old(users), id, payload) == Outcome(r, users)
    {
      var i := 0;
      while i < |users|
        invariant i <= |users|
        invariant users == old(users)
        invariant forall j :: 0 <= j < i ==> !IdMatches(users[j], id)
      {
        if ValueIs(users[i][ID_KEY], id) {
          UserProperties.GetFindsFirst(users, id);
          var user := users[i] + payload;
          users := users[i := user];
          return Ok(user);
        }
        i := i + 1;
      }
      return Err(NotFound(id));
    }
  }
}
