/** The film entity (model/Film.java) and the reference data a film points to
    (model/Genre.java, model/Mpa.java). */
module FilmModel {
  import opened Common

  /** A genre as a request or a query carries it; a request may leave the id null. */
  datatype Genre = Genre(id: Option<int>, name: string)

  /** A row of the MPA rating lookup table. */
  datatype MpaRating = MpaRating(id: int, name: string, description: string)

  /** The value of a film as callers see it: the fields of Film.java plus the
      `genres` list and the `mpa` reference that the relational store reads and
      writes. */
  datatype FilmData = FilmData(
    id: int,
    name: string,
    description: string,
    releaseDate: Date,
    duration: int,
    mpa: Option<MpaRating>,
    genres: seq<Genre>,
    likes: set<int>)

  /** The rating id a film refers to; a film without a rating refers to none. */
  function MpaIdOf(f: FilmData): (r: Option<int>)
    ensures r.Some? <==> f.mpa.Some?
    ensures r.Some? ==> r.value == f.mpa.value.id
  {
    match f.mpa
    case Some(m) => Some(m.id)
    case None => None
  }

  /** A mutable film object: `addLike` and `removeLike` change its `likes` set
      in place. */
  class Film {
    var id: int
    var name: string
    var description: string
    var releaseDate: Date
    var duration: int
    var mpa: Option<MpaRating>
    var genres: seq<Genre>
    var likes: set<int>

    /** The film's current field values. */
    function View(): FilmData
      reads this
    {
      FilmData(id, name, description, releaseDate, duration, mpa, genres, likes)
    }

    /** A new film object: the fields a request sets, and no likes. */
    constructor (id: int, name: string, description: string, releaseDate: Date,
                 duration: int, mpa: Option<MpaRating>, genres: seq<Genre>)
      ensures View() == FilmData(id, name, description, releaseDate, duration, mpa, genres, {})
    {
      this.id := id;
      this.name := name;
      this.description := description;
      this.releaseDate := releaseDate;
      this.duration := duration;
      this.mpa := mpa;
      this.genres := genres;
      this.likes := {};
    }

    /** The number of distinct users who like this film. */
    function LikesCount(): (n: nat)
      reads this
      ensures n == 0 <==> likes == {}
      ensures forall u :: u in likes ==> n >= 1
    {
      |likes|
    }

    /** Adds a like; a user who already likes the film leaves the set as it was. */
    method AddLike(userId: int)
      modifies this`likes
      ensures likes == old(likes) + {userId}
      ensures userId in likes
      ensures userId in old(likes) ==> likes == old(likes)
      ensures LikesCount() == old(LikesCount()) + (if userId in old(likes) then 0 else 1)
    {
      likes := likes + {userId};
    }

    /** Removes a like; removing an absent user changes nothing. */
    method RemoveLike(userId: int)
      modifies this`likes
      ensures likes == old(likes) - {userId}
      ensures userId !in likes
      ensures userId !in old(likes) ==> likes == old(likes)
      ensures LikesCount() == old(LikesCount()) - (if userId in old(likes) then 1 else 0)
    {
      likes := likes - {userId};
    }
  }

  /** A like followed by its removal, for a user who did not like the film
      before, gives back the original likes and touches no other field. */
  method LikeThenUnlike(f: Film, userId: int)
    requires userId !in f.likes
    modifies f
    ensures f.View() == old(f.View())
  {
    f.AddLike(userId);
    f.RemoveLike(userId);
  }
}
