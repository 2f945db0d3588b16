/** The user entity. User.java is not part of this model; the record below has
    the fields the stores read and write (id, email, login, name, birthday) and
    the `friends` id set that UserDbStorage.java:188 fills and that
    InMemoryUserStorage.java:51-52 and 62-63 change through `addFriend` and
    `removeFriend`. */
module UserModel {
  import opened Common

  /** The value of a user as callers see it. */
  datatype UserData = UserData(
    id: int,
    email: string,
    login: string,
    name: string,
    birthday: Date,
    friends: set<int>)

  /** A mutable user object whose friend set changes in place. */
  class User {
    var id: int
    var email: string
    var login: string
    var name: string
    var birthday: Date
    var friends: set<int>

    /** The user's current field values. */
    function View(): UserData
      reads this
    {
      UserData(id, email, login, name, birthday, friends)
    }

    /** A new user object with the fields a request sets and no friends. */
    constructor (id: int, email: string, login: string, name: string, birthday: Date)
      ensures View() == UserData(id, email, login, name, birthday, {})
    {
      this.id := id;
      this.email := email;
      this.login := login;
      this.name := name;
      this.birthday := birthday;
      this.friends := {};
    }

    /** Records `friendId` as a friend of this user. */
    method AddFriend(friendId: int)
      modifies this`friends
      ensures friends == old(friends) + {friendId}
    {
      friends := friends + {friendId};
    }

    /** Forgets `friendId` as a friend of this user; a no-op when absent. */
    method RemoveFriend(friendId: int)
      modifies this`friends
      ensures friends == old(friends) - {friendId}
    {
      friends := friends - {friendId};
    }
  }
}
