/** The patient repository of usermanager.cpp: each operation runs one statement against
    the `users` table of a shared store. `execOk` says whether the store executed the
    statement; deleting a user cascades to that user's measurements, as the schema declares. */
module UserRepository {
  import opened Common
  import opened Patient
  import opened Tables
  import opened Sorting

  class UserManager {
    const store: Store

    constructor (store: Store)
      ensures this.store == store
    {
      this.store := store;
    }

    /** `INSERT INTO users` of the seven data fields; `created_at` takes the store's default,
        the current time `now`. When the generated key can be read back (`keyReadable`) it is
        written into the caller's record and the call succeeds; when it cannot, the row is
        stored all the same but the call reports failure and the record keeps its id. */
    method AddUser(user: User, execOk: bool, keyReadable: bool, now: DateTime) returns (ok: bool)
      requires store.Valid()
      modifies store, user
      ensures store.Valid()
      ensures ok <==> execOk && keyReadable
      ensures execOk ==> && store.lastUserId == old(store.lastUserId) + 1
                         && store.lastUserId !in old(store.users)
                         && store.users == old(store.users)[store.lastUserId :=
                              old(user.Value()).(id := store.lastUserId, createdAt := now)]
      ensures !execOk ==> store.users == old(store.users) && store.lastUserId == old(store.lastUserId)
      ensures user.Value() == if ok then old(user.Value()).(id := store.lastUserId) else old(user.Value())
      ensures store.metrics == old(store.metrics) && store.lastMetricId == old(store.lastMetricId)
    {
      if !execOk {
        return false;
      }
      var id := store.lastUserId + 1;
      store.lastUserId := id;
      store.users := store.users[id := user.Value().(id := id, createdAt := now)];
      if keyReadable {
        user.SetId(id);
        return true;
      }
      return false;
    }

    /** Every patient, ordered by first name; an empty list when the query fails. */
    method GetAllUsers(execOk: bool) returns (users: seq<UserRow>)
      requires store.Valid()
      ensures !execOk ==> users == []
      ensures SortedBy(FirstNameLe, users) && NoDuplicates(users)
      ensures forall u | u in users :: u.id in store.users && store.users[u.id] == u
      ensures execOk ==> forall id | id in store.users :: store.users[id] in users
    {
      users := [];
      if !execOk {
        return;
      }
      var rows := store.SelectAllUsers();
      var i := 0;
      while i < |rows|
        invariant 0 <= i <= |rows|
        invariant users == rows[..i]
      {
        users := users + [rows[i]];
        i := i + 1;
      }
      assert rows[..|rows|] == rows;
    }

    /** `UPDATE users ... WHERE user_id = :user_id`: the seven data fields are overwritten,
        the key and `created_at` kept. Fails for a non-positive id, a failed statement, or
        when no row has that id. */
    method UpdateUser(user: User, execOk: bool) returns (ok: bool)
      requires store.Valid()
      modifies store
      ensures store.Valid()
      ensures ok <==> user.id > 0 && execOk && user.id in old(store.users)
      ensures ok ==> store.users == old(store.users)[user.id :=
                       user.Value().(createdAt := old(store.users[user.id].createdAt))]
      ensures !ok ==> store.users == old(store.users)
      ensures store.metrics == old(store.metrics)
      ensures store.lastUserId == old(store.lastUserId) && store.lastMetricId == old(store.lastMetricId)
    {
      if user.id <= 0 {
        return false;
      }
      if !execOk {
        return false;
      }
      var rowsAffected := if user.id in store.users then 1 else 0;
      if rowsAffected == 0 {
        return false;
      }
      var kept := store.users[user.id].createdAt;
      store.users := store.users[user.id := user.Value().(createdAt := kept)];
      return true;
    }

    /** `DELETE FROM users WHERE user_id = :id`: removes exactly that patient and, by the
        cascade, every measurement of theirs. Fails for a non-positive id, a failed statement,
        or when no row has that id. */
    method DeleteUser(id: int, execOk: bool) returns (ok: bool)
      requires store.Valid()
      modifies store
      ensures store.Valid()
      ensures ok <==> id > 0 && execOk && id in old(store.users)
      ensures ok ==> store.users == old(store.users) - {id}
      ensures ok ==> store.metrics == map k | k in old(store.metrics) && old(store.metrics)[k].userId != id
                                        :: old(store.metrics)[k]
      ensures ok ==> forall k | k in store.metrics :: store.metrics[k].userId != id
      ensures !ok ==> store.users == old(store.users) && store.metrics == old(store.metrics)
      ensures store.lastUserId == old(store.lastUserId) && store.lastMetricId == old(store.lastMetricId)
    {
      if id <= 0 {
        return false;
      }
      if !execOk {
        return false;
      }
      var rowsAffected := if id in store.users then 1 else 0;
      if rowsAffected == 0 {
        return false;
      }
      store.users := store.users - {id};
      store.metrics := map k | k in store.metrics && store.metrics[k].userId != id :: store.metrics[k];
      return true;
    }

    /** One patient by key; `None` (the null pointer) when there is no such row or the query fails. */
    method GetUserById(id: int, execOk: bool) returns (user: Option<UserRow>)
      requires store.Valid()
      ensures user.Some? <==> execOk && id in store.users
      ensures user.Some? ==> user.value == store.users[id] && user.value.id == id
    {
      if !execOk {
        return None;
      }
      if id in store.users {
        return Some(store.users[id]);
      }
      return None;
    }
  }
}
