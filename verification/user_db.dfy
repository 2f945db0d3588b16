/** The relational user store (storage/user/UserDbStorage.java) over abstract
    tables: `users` rows by id and the `friendships` link table, which maps a
    directed (user, friend) pair to its status id. Friendship here is one-way:
    a request writes only the requester's row. */
module UserDb {
  import opened Common
  import opened UserModel

  /** A row of the `users` table. */
  datatype UserRow = UserRow(email: string, login: string, name: string, birthday: Date)

  /** The status ids of model/Friendship.java. */
  const PENDING := 1
  const CONFIRMED := 2

  /** The tables the store reads and writes. */
  datatype Tables = Tables(users: map<int, UserRow>, friendships: map<(int, int), int>)

  /** The row a request's fields make. */
  function RowOf(user: UserData): UserRow {
    UserRow(user.email, user.login, user.name, user.birthday)
  }

  /** The `friend_id`s of the `friendships` rows whose `user_id` is `id`. */
  function FriendIds(t: Tables, id: int): (r: set<int>)
    ensures forall f :: f in r <==> (id, f) in t.friendships
  {
    set p | p in t.friendships && p.0 == id :: p.1
  }

  /** A `users` row as the row mapper reads it: the friend set is left empty. */
  function Plain(t: Tables, id: int): (r: UserData)
    requires id in t.users
    ensures r.id == id && RowOf(r) == t.users[id] && r.friends == {}
  {
    var row := t.users[id];
    UserData(id, row.email, row.login, row.name, row.birthday, {})
  }

  /** A `users` row with its friend ids loaded (`loadUserFriends`). */
  function Loaded(t: Tables, id: int): (r: UserData)
    requires id in t.users
    ensures r.id == id && RowOf(r) == t.users[id]
    ensures forall f :: f in r.friends <==> (id, f) in t.friendships
  {
    Plain(t, id).(friends := FriendIds(t, id))
  }

  /** `existsById`: whether a `users` row has this id. */
  function ExistsById(t: Tables, id: int): (r: bool)
    ensures r <==> GetById(t, id).Some?
  {
    id in t.users
  }

  /** `getById`: the row with its friends loaded, or nothing. */
  function GetById(t: Tables, id: int): (r: Option<UserData>)
    ensures r.Some? <==> id in t.users
    ensures r.Some? ==> r.value.id == id && RowOf(r.value) == t.users[id]
    ensures r.Some? ==> forall f :: f in r.value.friends <==> (id, f) in t.friendships
  {
    if id in t.users then Some(Loaded(t, id)) else None
  }

  /** The rows `ids`, in order, as the row mapper reads them. */
  function PlainAll(t: Tables, ids: seq<int>): (r: seq<UserData>)
    requires forall i :: 0 <= i < |ids| ==> ids[i] in t.users
    ensures |r| == |ids|
    ensures forall i :: 0 <= i < |ids| ==> r[i] == Plain(t, ids[i])
  {
    if ids == [] then [] else [Plain(t, ids[0])] + PlainAll(t, ids[1..])
  }

  /** The rows `ids`, in order, with their friends loaded. */
  function LoadedAll(t: Tables, ids: seq<int>): (r: seq<UserData>)
    requires forall i :: 0 <= i < |ids| ==> ids[i] in t.users
    ensures |r| == |ids|
    ensures forall i :: 0 <= i < |ids| ==> r[i] == Loaded(t, ids[i])
  {
    if ids == [] then [] else [Loaded(t, ids[0])] + LoadedAll(t, ids[1..])
  }

  /** `getAll`: every row with its friends loaded, by ascending id. */
  function GetAll(t: Tables): (r: seq<UserData>)
    ensures |r| == |t.users|
    ensures forall i :: 0 <= i < |r| ==> r[i].id in t.users && r[i] == Loaded(t, r[i].id)
    ensures forall i, j :: 0 <= i < j < |r| ==> r[i].id < r[j].id
  {
    var ids := Ascending(t.users.Keys);
    assert |t.users.Keys| == |t.users|;
    LoadedAll(t, ids)
  }

  /** `getAll` leaves no user out. */
  lemma GetAllComplete(t: Tables, id: int)
    requires id in t.users
    ensures exists i :: 0 <= i < |GetAll(t)| && GetAll(t)[i].id == id
  {
    var ids := Ascending(t.users.Keys);
    AscendingHasAll(t.users.Keys);
    var i :| 0 <= i < |ids| && ids[i] == id;
    assert GetAll(t) == LoadedAll(t, ids);
    assert LoadedAll(t, ids)[i] == Loaded(t, id);
  }

  /** The users that both the `friendships` join and the `users` join find
      among `ids`, by ascending id. */
  function JoinedRows(t: Tables, ids: set<int>): (r: seq<UserData>)
    ensures forall i :: 0 <= i < |r| ==> r[i].id in ids && r[i].id in t.users && r[i] == Plain(t, r[i].id)
    ensures forall i, j :: 0 <= i < j < |r| ==> r[i].id < r[j].id
  {
    PlainAll(t, Ascending(ids * t.users.Keys))
  }

  /** The joined rows leave out no stored user among `ids`. */
  lemma JoinedRowsComplete(t: Tables, ids: set<int>, id: int)
    requires id in ids && id in t.users
    ensures exists i :: 0 <= i < |JoinedRows(t, ids)| && JoinedRows(t, ids)[i].id == id
  {
    var s := Ascending(ids * t.users.Keys);
    AscendingHasAll(ids * t.users.Keys);
    assert id in ids * t.users.Keys;
    var i :| 0 <= i < |s| && s[i] == id;
    assert JoinedRows(t, ids)[i].id == id;
  }

  /** `getFriends`: NotFound for an unknown user; otherwise the users it has a
      row towards, by ascending id, without their own friends loaded. */
  function GetFriends(t: Tables, userId: int): (r: Result<seq<UserData>>)
    ensures r.Success? <==> userId in t.users
    ensures r.Failure? ==> r.error == NotFound
    ensures r.Success? ==> forall i :: 0 <= i < |r.value| ==>
              && (userId, r.value[i].id) in t.friendships
              && r.value[i].id in t.users && r.value[i] == Plain(t, r.value[i].id)
    ensures r.Success? ==> forall i, j :: 0 <= i < j < |r.value| ==> r.value[i].id < r.value[j].id
  {
    if userId !in t.users then Failure(NotFound) else Success(JoinedRows(t, FriendIds(t, userId)))
  }

  /** `getFriends` lists every stored user the requester has a row towards. */
  lemma GetFriendsComplete(t: Tables, userId: int, id: int)
    requires userId in t.users && id in t.users && (userId, id) in t.friendships
    ensures exists i :: 0 <= i < |GetFriends(t, userId).value| && GetFriends(t, userId).value[i].id == id
  {
    assert GetFriends(t, userId).value == JoinedRows(t, FriendIds(t, userId));
    JoinedRowsComplete(t, FriendIds(t, userId), id);
  }

  /** `getCommonFriends`: NotFound if either user is unknown (the first one is
      checked first); otherwise the users both have a row towards, by
      ascending id. */
  function GetCommonFriends(t: Tables, userId: int, otherId: int): (r: Result<seq<UserData>>)
    ensures r.Success? <==> userId in t.users && otherId in t.users
    ensures r.Failure? ==> r.error == NotFound
    ensures r.Success? ==> forall i :: 0 <= i < |r.value| ==>
              && (userId, r.value[i].id) in t.friendships
              && (otherId, r.value[i].id) in t.friendships
              && r.value[i].id in t.users && r.value[i] == Plain(t, r.value[i].id)
    ensures r.Success? ==> forall i, j :: 0 <= i < j < |r.value| ==> r.value[i].id < r.value[j].id
  {
    if userId !in t.users then
      Failure(NotFound)
    else if otherId !in t.users then
      Failure(NotFound)
    else
      Success(JoinedRows(t, FriendIds(t, userId) * FriendIds(t, otherId)))
  }

  /** `getCommonFriends` lists every stored user both have a row towards. */
  lemma GetCommonFriendsComplete(t: Tables, userId: int, otherId: int, id: int)
    requires userId in t.users && otherId in t.users && id in t.users
    requires (userId, id) in t.friendships && (otherId, id) in t.friendships
    ensures exists i :: 0 <= i < |GetCommonFriends(t, userId, otherId).value| &&
              GetCommonFriends(t, userId, otherId).value[i].id == id
  {
    assert GetCommonFriends(t, userId, otherId).value == JoinedRows(t, FriendIds(t, userId) * FriendIds(t, otherId));
    JoinedRowsComplete(t, FriendIds(t, userId) * FriendIds(t, otherId), id);
  }

  /** The two users' order does not matter: the answer, error or list, is
      the same. */
  lemma {:induction false} CommonFriendsSymmetric(t: Tables, a: int, b: int)
    ensures GetCommonFriends(t, a, b) == GetCommonFriends(t, b, a)
  {
    if a in t.users && b in t.users {
      assert FriendIds(t, a) * FriendIds(t, b) == FriendIds(t, b) * FriendIds(t, a);
    }
  }

  /** The tables after `addFriend(userId, friendId)`: the directed row, pending. */
  function WithRequest(t: Tables, userId: int, friendId: int): (r: Tables)
    ensures r.users == t.users
    ensures r.friendships.Keys == t.friendships.Keys + {(userId, friendId)}
    ensures r.friendships[(userId, friendId)] == PENDING
    ensures forall p :: p in t.friendships && p != (userId, friendId) ==> r.friendships[p] == t.friendships[p]
  {
    t.(friendships := t.friendships[(userId, friendId) := PENDING])
  }

  /** The tables after `removeFriend(userId, friendId)`: that one row gone. */
  function WithoutRequest(t: Tables, userId: int, friendId: int): (r: Tables)
    ensures r.users == t.users
    ensures r.friendships.Keys == t.friendships.Keys - {(userId, friendId)}
    ensures forall p :: p in r.friendships ==> r.friendships[p] == t.friendships[p]
  {
    t.(friendships := t.friendships - {(userId, friendId)})
  }

  /** The tables after `confirmFriendship(userId, friendId)`: the reverse row
      (friendId, userId), if there is one, becomes confirmed. */
  function WithConfirmed(t: Tables, userId: int, friendId: int): (r: Tables)
    ensures r.users == t.users
    ensures r.friendships.Keys == t.friendships.Keys
    ensures (friendId, userId) in t.friendships ==> r.friendships[(friendId, userId)] == CONFIRMED
    ensures forall p :: p in t.friendships && p != (friendId, userId) ==> r.friendships[p] == t.friendships[p]
  {
    if (friendId, userId) in t.friendships then
      t.(friendships := t.friendships[(friendId, userId) := CONFIRMED])
    else
      t
  }

  /** Friendship is one-way: after a request the requester lists the friend,
      and no other user's friend set changes; in particular the friend's own
      set stays as it was. */
  lemma {:induction false} RequestIsDirected(t: Tables, userId: int, friendId: int, id: int)
    ensures FriendIds(WithRequest(t, userId, friendId), id) ==
              if id == userId then FriendIds(t, id) + {friendId} else FriendIds(t, id)
  {
    var after := WithRequest(t, userId, friendId);
    forall f ensures f in FriendIds(after, id) <==> (id, f) in t.friendships || (id == userId && f == friendId) {
      assert (id, f) in after.friendships <==> (id, f) in t.friendships || (id, f) == (userId, friendId);
    }
  }

  /** Removing a friend takes it out of the requester's set only. */
  lemma {:induction false} WithdrawIsDirected(t: Tables, userId: int, friendId: int, id: int)
    ensures FriendIds(WithoutRequest(t, userId, friendId), id) ==
              if id == userId then FriendIds(t, id) - {friendId} else FriendIds(t, id)
  {
    var after := WithoutRequest(t, userId, friendId);
    forall f ensures f in FriendIds(after, id) <==> (id, f) in t.friendships && (id, f) != (userId, friendId) {
      assert (id, f) in after.friendships <==> (id, f) in t.friendships && (id, f) != (userId, friendId);
    }
  }

  /** Confirming changes a status only: nobody's friend set changes. */
  lemma {:induction false} ConfirmKeepsFriends(t: Tables, userId: int, friendId: int, id: int)
    ensures FriendIds(WithConfirmed(t, userId, friendId), id) == FriendIds(t, id)
  {
    var after := WithConfirmed(t, userId, friendId);
    forall f ensures f in FriendIds(after, id) <==> f in FriendIds(t, id) {
      assert (id, f) in after.friendships <==> (id, f) in t.friendships;
    }
  }

  /** A request that was not there, withdrawn, leaves the tables as they were. */
  lemma {:induction false} WithdrawUndoesRequest(t: Tables, userId: int, friendId: int)
    requires (userId, friendId) !in t.friendships
    ensures WithoutRequest(WithRequest(t, userId, friendId), userId, friendId) == t
  {
    var after := WithoutRequest(WithRequest(t, userId, friendId), userId, friendId);
    assert after.friendships.Keys == t.friendships.Keys;
    assert after.friendships == t.friendships;
  }

  /** A user just created reads back with the request's fields and no friends,
      since no `friendships` row can name a new id. */
  lemma {:induction false} CreatedReadsBack(t: Tables, id: int, user: UserData)
    requires id !in t.users
    requires forall p :: p in t.friendships ==> p.0 in t.users
    ensures GetById(t.(users := t.users[id := RowOf(user)]), id) == Some(user.(id := id, friends := {}))
  {
    var after := t.(users := t.users[id := RowOf(user)]);
    forall f ensures f !in FriendIds(after, id) {
      assert (id, f) !in t.friendships;
    }
    assert FriendIds(after, id) == {};
    assert Loaded(after, id) == user.(id := id, friends := {});
  }

  /** `update` touches only the updated user's row. */
  lemma UpdateKeepsOthers(t: Tables, user: UserData, id: int)
    requires user.id in t.users && id != user.id
    ensures GetById(t.(users := t.users[user.id := RowOf(user)]), id) == GetById(t, id)
  {
  }

  class UserDbStorage {
    var users: map<int, UserRow>
    var friendships: map<(int, int), int>
    /** The next key the database hands out. */
    var nextId: int

    /** The current tables. */
    function State(): Tables
      reads this
    {
      Tables(users, friendships)
    }

    /** Every key was handed out by the counter; every friendship row joins
        two stored users and carries one of the two status ids. */
    ghost predicate Valid()
      reads this
    {
      && (forall id :: id in users ==> id < nextId)
      && (forall p :: p in friendships ==> p.0 in users && p.1 in users)
      && (forall p :: p in friendships ==> friendships[p] == PENDING || friendships[p] == CONFIRMED)
    }

    constructor ()
      ensures Valid()
      ensures users == map[] && friendships == map[] && nextId == 1
    {
      users := map[];
      friendships := map[];
      nextId := 1;
    }

    /** `create`: the row goes under a fresh key, and the request comes back
        with that id (its friend set as sent). */
    method Create(user: UserData) returns (r: UserData)
      requires Valid()
      modifies this
      ensures Valid()
      ensures r == user.(id := old(nextId)) && r.id !in old(users)
      ensures nextId == old(nextId) + 1
      ensures users == old(users)[r.id := RowOf(user)] && friendships == old(friendships)
      ensures GetById(State(), r.id) == Some(user.(id := r.id, friends := {}))
    {
      var id := nextId;
      nextId := nextId + 1;
      CreatedReadsBack(State(), id, user);
      users := users[id := RowOf(user)];
      r := user.(id := id);
    }

    /** `update`: NotFound for an unknown id; otherwise that row's four fields
        are overwritten and the request comes back. */
    method Update(user: UserData) returns (r: Result<UserData>)
      requires Valid()
      modifies this`users
      ensures Valid()
      ensures user.id !in old(users) ==> r == Failure(NotFound) && users == old(users)
      ensures user.id in old(users) ==> r == Success(user) && users == old(users)[user.id := RowOf(user)]
    {
      if !ExistsById(State(), user.id) {
        return Failure(NotFound);
      }
      users := users[user.id := RowOf(user)];
      r := Success(user);
    }

    /** `addFriend`: NotFound if the user, then the friend, is unknown (and
        nothing is written); otherwise the pending row (userId, friendId). */
    method AddFriend(userId: int, friendId: int) returns (r: Outcome)
      requires Valid()
      modifies this`friendships
      ensures Valid()
      ensures r == if userId in users && friendId in users then Pass else Fail(NotFound)
      ensures r.Pass? ==> State() == WithRequest(old(State()), userId, friendId)
      ensures r.Fail? ==> friendships == old(friendships)
    {
      if !ExistsById(State(), userId) {
        return Fail(NotFound);
      }
      if !ExistsById(State(), friendId) {
        return Fail(NotFound);
      }
      friendships := friendships[(userId, friendId) := PENDING];
      r := Pass;
    }

    /** `removeFriend`: the same checks; then the row (userId, friendId), if
        any, is deleted. */
    method RemoveFriend(userId: int, friendId: int) returns (r: Outcome)
      requires Valid()
      modifies this`friendships
      ensures Valid()
      ensures r == if userId in users && friendId in users then Pass else Fail(NotFound)
      ensures r.Pass? ==> State() == WithoutRequest(old(State()), userId, friendId)
      ensures r.Fail? ==> friendships == old(friendships)
    {
      if !ExistsById(State(), userId) {
        return Fail(NotFound);
      }
      if !ExistsById(State(), friendId) {
        return Fail(NotFound);
      }
      friendships := friendships - {(userId, friendId)};
      r := Pass;
    }

    /** `confirmFriendship`: marks the reverse row (friendId, userId) confirmed;
        nothing is checked and a missing row changes nothing. */
    method ConfirmFriendship(userId: int, friendId: int)
      requires Valid()
      modifies this`friendships
      ensures Valid()
      ensures State() == WithConfirmed(old(State()), userId, friendId)
    {
      if (friendId, userId) in friendships {
        friendships := friendships[(friendId, userId) := CONFIRMED];
      }
    }
  }
}
