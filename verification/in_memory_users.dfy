/** The in-memory user store (storage/user/InMemoryUserStorage.java): a map from
    id to user object, a counter that hands out ids, and a friendship relation
    kept in the users' own `friends` sets. */
module InMemoryUsers {
  import opened Common
  import opened UserModel

  /** Friendship is mutual: whenever stored user `a` lists stored user `b`,
      `b` lists `a`. */
  ghost predicate Symmetric(c: map<int, UserData>) {
    forall a, b :: a in c && b in c && b in c[a].friends ==> a in c[b].friends
  }

  /** The store's contents after `x` joins the friend set of user `k`. */
  function WithFriend(c: map<int, UserData>, k: int, x: int): map<int, UserData>
    requires k in c
  {
    c[k := c[k].(friends := c[k].friends + {x})]
  }

  /** The store's contents after `x` leaves the friend set of user `k`. */
  function WithoutFriend(c: map<int, UserData>, k: int, x: int): map<int, UserData>
    requires k in c
  {
    c[k := c[k].(friends := c[k].friends - {x})]
  }

  /** The store's contents after `u` and `f` become friends of each other. */
  function Befriend(c: map<int, UserData>, u: int, f: int): (r: map<int, UserData>)
    requires u in c && f in c
    ensures r.Keys == c.Keys
    ensures f in r[u].friends && u in r[f].friends
    ensures forall k :: k in c && k != u && k != f ==> r[k] == c[k]
    ensures forall k :: k in c ==> r[k].(friends := c[k].friends) == c[k] && c[k].friends <= r[k].friends
  {
    WithFriend(WithFriend(c, u, f), f, u)
  }

  /** The store's contents after `u` and `f` stop being friends of each other. */
  function Unfriend(c: map<int, UserData>, u: int, f: int): (r: map<int, UserData>)
    requires u in c && f in c
    ensures r.Keys == c.Keys
    ensures f !in r[u].friends && u !in r[f].friends
    ensures forall k :: k in c && k != u && k != f ==> r[k] == c[k]
    ensures forall k :: k in c ==> r[k].(friends := c[k].friends) == c[k] && r[k].friends <= c[k].friends
  {
    WithoutFriend(WithoutFriend(c, u, f), f, u)
  }

  /** Making two stored users friends keeps friendship mutual. */
  lemma {:induction false} BefriendKeepsSymmetric(c: map<int, UserData>, u: int, f: int)
    requires Symmetric(c)
    requires u in c && f in c
    ensures Symmetric(Befriend(c, u, f))
  {
    var r := Befriend(c, u, f);
    forall a, b | a in r && b in r && b in r[a].friends ensures a in r[b].friends {
      if !(a == u && b == f) && !(a == f && b == u) {
        assert b in c[a].friends;
        assert a in c[b].friends;
      }
    }
  }

  /** Ending a friendship keeps friendship mutual. */
  lemma {:induction false} UnfriendKeepsSymmetric(c: map<int, UserData>, u: int, f: int)
    requires Symmetric(c)
    requires u in c && f in c
    ensures Symmetric(Unfriend(c, u, f))
  {
    var r := Unfriend(c, u, f);
    forall a, b | a in r && b in r && b in r[a].friends ensures a in r[b].friends {
      assert b in c[a].friends;
      assert a in c[b].friends;
    }
  }

  /** Ending a friendship that was just made, between two users who were not
      friends (a user and itself included), gives back the original contents. */
  lemma {:induction false} UnfriendUndoesBefriend(c: map<int, UserData>, u: int, f: int)
    requires u in c && f in c
    requires f !in c[u].friends && u !in c[f].friends
    ensures Unfriend(Befriend(c, u, f), u, f) == c
  {
    var r := Unfriend(Befriend(c, u, f), u, f);
    forall k | k in c ensures r[k] == c[k] {
      assert r[k].friends == c[k].friends;
    }
  }

  class InMemoryUserStorage {
    var users: map<int, User>
    /** The next id to hand out (`userId` in the source). */
    var nextId: int

    /** Every stored user carries its own key as id, and every key was handed
        out by the counter; so distinct keys hold distinct objects. */
    ghost predicate Valid()
      reads this, users.Values
    {
      forall id :: id in users ==> users[id].id == id && id < nextId
    }

    /** The stored users as values. */
    ghost function Contents(): map<int, UserData>
      reads this, users.Values
    {
      map id | id in users :: users[id].View()
    }

    /** `r` lists exactly the stored users whose ids are `ids`, each once. */
    ghost predicate ListsExactly(r: seq<User>, ids: set<int>)
      reads this, users.Values, r
    {
      && |r| == |ids|
      && (forall i :: 0 <= i < |r| ==> r[i].id in ids && r[i].id in users && users[r[i].id] == r[i])
      && (forall i, j :: 0 <= i < j < |r| ==> r[i] != r[j])
      && (forall id :: id in ids ==> id in users && users[id] in r)
    }

    constructor ()
      ensures Valid()
      ensures users == map[] && nextId == 1
    {
      users := map[];
      nextId := 1;
    }

    /** `getAll`: every stored user once, in the map's iteration order (which
        the model leaves open). */
    method GetAll() returns (r: seq<User>)
      requires Valid()
      ensures ListsExactly(r, users.Keys)
    {
      var found := UsersOf(users.Keys);
      r := found.value;
    }

    /** `create`: the user gets the counter's value as id and is stored under it. */
    method Create(user: User) returns (r: User)
      requires Valid()
      requires user !in users.Values
      modifies this, user`id
      ensures Valid()
      ensures r == user && user.id == old(nextId)
      ensures nextId == old(nextId) + 1
      ensures forall id :: id in old(users) ==> id < user.id
      ensures users == old(users)[user.id := user]
      ensures user.View() == old(user.View()).(id := user.id)
      ensures Contents() == old(Contents())[user.id := user.View()]
    {
      user.id := nextId;
      nextId := nextId + 1;
      users := users[user.id := user];
      r := user;
      forall id | id in old(users) ensures users[id].View() == old(users[id].View()) {
        assert old(users[id]) != user;
      }
    }

    /** `update`: replaces the stored user with the same id, friends included;
        an unknown id is NotFound and changes nothing. */
    method Update(user: User) returns (r: Result<User>)
      requires Valid()
      modifies this
      ensures Valid()
      ensures nextId == old(nextId)
      ensures user.id in old(users) ==> r == Success(user) && users == old(users)[user.id := user]
      ensures user.id in old(users) ==> Contents() == old(Contents())[user.id := user.View()]
      ensures user.id !in old(users) ==> r == Failure(NotFound) && users == old(users)
    {
      if user.id !in users {
        return Failure(NotFound);
      }
      users := users[user.id := user];
      r := Success(user);
    }

    /** `getById`: the stored user or nothing; it never fails. */
    function GetById(id: int): (r: Option<User>)
      requires Valid()
      reads this, users.Values
      ensures r.Some? <==> id in users
      ensures r.Some? ==> r.value in users.Values && r.value.id == id
    {
      if id in users then Some(users[id]) else None
    }

    /** `getUser`: the stored user, or NotFound. */
    function GetUser(id: int): (r: Result<User>)
      requires Valid()
      reads this, users.Values
      ensures r.Success? <==> id in users
      ensures r.Failure? ==> r.error == NotFound
      ensures r.Success? ==> r.value.id == id && r.value in users.Values
    {
      match GetById(id)
      case Some(u) => Success(u)
      case None => Failure(NotFound)
    }

    /** `addFriend`: both users must be stored (NotFound otherwise, and nothing
        changes); then each joins the other's friend set. */
    method AddFriend(userId: int, friendId: int) returns (r: Outcome)
      requires Valid()
      modifies if userId in users && friendId in users then {users[userId], users[friendId]} else {}
      ensures Valid()
      ensures r == if userId in users && friendId in users then Pass else Fail(NotFound)
      ensures r.Pass? ==> Contents() == Befriend(old(Contents()), userId, friendId)
      ensures r.Fail? ==> Contents() == old(Contents())
    {
      var foundUser := GetUser(userId);
      if foundUser.Failure? {
        return Fail(NotFound);
      }
      var foundFriend := GetUser(friendId);
      if foundFriend.Failure? {
        return Fail(NotFound);
      }
      AddOneFriend(userId, friendId);
      AddOneFriend(friendId, userId);
      r := Pass;
    }

    /** `removeFriend`: both users must be stored (NotFound otherwise, and
        nothing changes); then each leaves the other's friend set. */
    method RemoveFriend(userId: int, friendId: int) returns (r: Outcome)
      requires Valid()
      modifies if userId in users && friendId in users then {users[userId], users[friendId]} else {}
      ensures Valid()
      ensures r == if userId in users && friendId in users then Pass else Fail(NotFound)
      ensures r.Pass? ==> Contents() == Unfriend(old(Contents()), userId, friendId)
      ensures r.Fail? ==> Contents() == old(Contents())
    {
      var foundUser := GetUser(userId);
      if foundUser.Failure? {
        return Fail(NotFound);
      }
      var foundFriend := GetUser(friendId);
      if foundFriend.Failure? {
        return Fail(NotFound);
      }
      RemoveOneFriend(userId, friendId);
      RemoveOneFriend(friendId, userId);
      r := Pass;
    }

    /** One half of `addFriend`: stored user `id` gains `friendId`. */
    method AddOneFriend(id: int, friendId: int)
      requires Valid() && id in users
      modifies users[id]
      ensures Valid()
      ensures Contents() == WithFriend(old(Contents()), id, friendId)
    {
      var user := users[id];
      user.AddFriend(friendId);
      forall k | k in users && k != id ensures users[k].View() == old(users[k].View()) {
        assert users[k] != user;
      }
    }

    /** One half of `removeFriend`: stored user `id` loses `friendId`. */
    method RemoveOneFriend(id: int, friendId: int)
      requires Valid() && id in users
      modifies users[id]
      ensures Valid()
      ensures Contents() == WithoutFriend(old(Contents()), id, friendId)
    {
      var user := users[id];
      user.RemoveFriend(friendId);
      forall k | k in users && k != id ensures users[k].View() == old(users[k].View()) {
        assert users[k] != user;
      }
    }

    /** Looks up every id of `ids` with `getUser`, in the set's iteration
        order: NotFound as soon as one is not stored. */
    method UsersOf(ids: set<int>) returns (r: Result<seq<User>>)
      requires Valid()
      ensures r.Success? <==> ids <= users.Keys
      ensures r.Failure? ==> r.error == NotFound
      ensures r.Success? ==> ListsExactly(r.value, ids)
    {
      var found: seq<User> := [];
      var pending := ids;
      while pending != {}
        invariant pending <= ids
        invariant |found| + |pending| == |ids|
        invariant forall i :: 0 <= i < |found| ==>
                    found[i].id in ids && found[i].id !in pending && found[i].id in users && users[found[i].id] == found[i]
        invariant forall id :: id in ids && id !in pending ==> id in users && users[id] in found
        invariant forall i, j :: 0 <= i < j < |found| ==> found[i] != found[j]
        decreases |pending|
      {
        HasElement(pending);
        var id :| id in pending;
        var user := GetUser(id);
        if user.Failure? {
          assert id in ids && id !in users.Keys;
          return Failure(NotFound);
        }
        found := found + [user.value];
        pending := pending - {id};
      }
      forall id | id in ids ensures id in users {
        assert id !in pending;
      }
      r := Success(found);
    }

    /** `getFriends`: the stored users the user lists as friends; NotFound if
        the user, or any id in its friend set, is not stored. */
    method GetFriends(userId: int) returns (r: Result<seq<User>>)
      requires Valid()
      ensures r.Success? <==> userId in users && users[userId].friends <= users.Keys
      ensures r.Failure? ==> r.error == NotFound
      ensures r.Success? ==> ListsExactly(r.value, users[userId].friends)
    {
      var user := GetUser(userId);
      if user.Failure? {
        return Failure(NotFound);
      }
      r := UsersOf(user.value.friends);
    }

    /** `getCommonFriends`: the stored users both users list as friends; NotFound
        if either user, or any common friend id, is not stored. */
    method GetCommonFriends(userId: int, otherId: int) returns (r: Result<seq<User>>)
      requires Valid()
      ensures r.Success? <==> userId in users && otherId in users
                              && users[userId].friends * users[otherId].friends <= users.Keys
      ensures r.Failure? ==> r.error == NotFound
      ensures r.Success? ==> ListsExactly(r.value, users[userId].friends * users[otherId].friends)
    {
      var user1 := GetUser(userId);
      if user1.Failure? {
        return Failure(NotFound);
      }
      var user2 := GetUser(otherId);
      if user2.Failure? {
        return Failure(NotFound);
      }
      var common := user1.value.friends * user2.value.friends;
      r := UsersOf(common);
    }
  }
}
