/** The first, flat diff in the root jsondiff.go: two user lists are decoded,
    turned into id-to-email maps, and compared id by id. Only the ids of users
    that are new are returned; the modified and deleted ids are collected and
    dropped. */
module UserDiff {
  import opened Wrappers
  import opened Collections

  datatype UserInfo = UserInfo(id: int, email: string)

  datatype UserList = UserList(users: seq<UserInfo>)

  /** Why `json.Unmarshal` rejected its input. Decoding itself is not part of
      this model; its outcome is an input of `DiffCheck`. */
  datatype DecodeError = DecodeError(reason: string)

  /** The ids occurring in a user list. */
  function Ids(ul: UserList): set<int> {
    set u | u in ul.users :: u.id
  }

  /** `users[i]` is the last user in the list carrying `id`. */
  predicate LastWith(users: seq<UserInfo>, id: int, i: int) {
    && 0 <= i < |users|
    && users[i].id == id
    && forall j | i < j < |users| :: users[j].id != id
  }

  /** errCheck: a non-nil error ends the program with a panic, modelled as
      the error coming back as the failure of the whole computation. */
  function ErrCheck(e: Option<DecodeError>): (r: Result<(), DecodeError>)
    ensures r.Success? <==> e.None?
    ensures e.Some? ==> r.error == e.value
  {
    match e
    case None => Success(())
    case Some(err) => Failure(err)
  }

  /** constructMap: every id of the list is a key, nothing else is, and when
      an id occurs more than once the email of its last occurrence wins. */
  method ConstructMap(ul: UserList) returns (m: map<int, string>)
    ensures m.Keys == Ids(ul)
    ensures forall id | id in m :: exists i :: LastWith(ul.users, id, i) && m[id] == ul.users[i].email
  {
    var users := ul.users;
    m := map[];
    var n := 0;
    while n < |users|
      invariant 0 <= n <= |users|
      invariant m.Keys == set u | u in users[..n] :: u.id
      invariant forall id | id in m :: exists i :: LastWith(users[..n], id, i) && m[id] == users[i].email
    {
      var u := users[n];
      var before := m;
      m := m[u.id := u.email];
      assert users[..n + 1] == users[..n] + [u];
      forall id | id in m
        ensures exists i :: LastWith(users[..n + 1], id, i) && m[id] == users[i].email
      {
        if id == u.id {
          assert LastWith(users[..n + 1], id, n);
        } else {
          var i :| LastWith(users[..n], id, i) && before[id] == users[i].email;
          assert LastWith(users[..n + 1], id, i);
        }
      }
      n := n + 1;
    }
    assert users[..n] == users;
  }

  /** The first loop of diffCheck, `range oldMap`: ids in both maps whose
      emails differ are modified, ids only in the old map are deleted. Each
      list names each such id exactly once; Go's map order decides the order
      within a list, so none is promised. */
  method CompareOld(oldMap: map<int, string>, newMap: map<int, string>)
    returns (modified: seq<int>, deleted: seq<int>)
    ensures Distinct(modified) && Distinct(deleted)
    ensures forall id :: id in modified <==> id in oldMap && id in newMap && oldMap[id] != newMap[id]
    ensures forall id :: id in deleted <==> id in oldMap && id !in newMap
  {
    modified, deleted := [], [];
    var rest := oldMap.Keys;
    while rest != {}
      invariant rest <= oldMap.Keys
      invariant Distinct(modified) && Distinct(deleted)
      invariant forall id :: id in modified <==>
                  id in oldMap && id !in rest && id in newMap && oldMap[id] != newMap[id]
      invariant forall id :: id in deleted <==> id in oldMap && id !in rest && id !in newMap
      decreases |rest|
    {
      // a witness that `rest` has a member, for the choice below
      ghost var some := Pick(rest);
      var id :| id in rest;
      if id in newMap {
        if newMap[id] != oldMap[id] {
          modified := modified + [id];
        }
      } else {
        deleted := deleted + [id];
      }
      rest := rest - {id};
    }
  }

  /** The second loop of diffCheck, `range newMap`: the ids the old map
      lacks, each exactly once, in Go's map order. */
  method NewOnly(oldMap: map<int, string>, newMap: map<int, string>) returns (added: seq<int>)
    ensures Distinct(added)
    ensures forall id :: id in added <==> id in newMap && id !in oldMap
  {
    added := [];
    var rest := newMap.Keys;
    while rest != {}
      invariant rest <= newMap.Keys
      invariant Distinct(added)
      invariant forall id :: id in added <==> id in newMap && id !in rest && id !in oldMap
      decreases |rest|
    {
      // a witness that `rest` has a member, for the choice below
      ghost var some := Pick(rest);
      var id :| id in rest;
      if id !in oldMap {
        added := added + [id];
      }
      rest := rest - {id};
    }
  }

  /** diffCheck on the outcomes of decoding the old and the new document.
      A failed decode panics, the old document's error taking precedence;
      otherwise the result names each id that only the new list has, exactly
      once, whatever the emails. */
  method DiffCheck(before: Result<UserList, DecodeError>, after: Result<UserList, DecodeError>)
    returns (r: Result<seq<int>, DecodeError>)
    ensures before.Failure? ==> r == Failure(before.error)
    ensures before.Success? && after.Failure? ==> r == Failure(after.error)
    ensures before.Success? && after.Success? ==> r.Success?
    ensures r.Success? ==> Distinct(r.value)
    ensures r.Success? ==> forall id :: id in r.value <==> id in Ids(after.value) && id !in Ids(before.value)
  {
    var okOld := ErrCheck(if before.Failure? then Some(before.error) else None);
    if okOld.Failure? {
      return Failure(okOld.error);
    }
    var okNew := ErrCheck(if after.Failure? then Some(after.error) else None);
    if okNew.Failure? {
      return Failure(okNew.error);
    }
    var oldMap := ConstructMap(before.value);
    var newMap := ConstructMap(after.value);
    var _, _ := CompareOld(oldMap, newMap);
    var added := NewOnly(oldMap, newMap);
    return Success(added);
  }
}
