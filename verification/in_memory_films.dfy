/** The in-memory film store (storage/film/InMemoryFilmStorage.java): a map from
    id to film object and a counter that hands out ids. */
module InMemoryFilms {
  import opened Common
  import opened FilmModel
  import opened Ranking

  /** The store's contents after user `userId` likes film `id`. */
  function WithLike(c: map<int, FilmData>, id: int, userId: int): map<int, FilmData>
    requires id in c
  {
    c[id := c[id].(likes := c[id].likes + {userId})]
  }

  /** The store's contents after user `userId` withdraws a like from film `id`. */
  function WithoutLike(c: map<int, FilmData>, id: int, userId: int): map<int, FilmData>
    requires id in c
  {
    c[id := c[id].(likes := c[id].likes - {userId})]
  }

  class InMemoryFilmStorage {
    var films: map<int, Film>
    /** The next id to hand out (`filmId` in the source). */
    var nextId: int

    /** Every stored film carries its own key as id, and every key was handed
        out by the counter; so distinct keys hold distinct objects. */
    ghost predicate Valid()
      reads this, films.Values
    {
      forall id :: id in films ==> films[id].id == id && id < nextId
    }

    /** The stored films as values. */
    ghost function Contents(): map<int, FilmData>
      reads this, films.Values
    {
      map id | id in films :: films[id].View()
    }

    /** `getPopular`'s promise about a returned list `r`. */
    ghost predicate PopularSelection(r: seq<Film>, count: int)
      reads this, films.Values, r
    {
      && |r| == Min(count, |films|)
      && (forall i :: 0 <= i < |r| ==> r[i] in films.Values)
      && (forall i, j :: 0 <= i < j < |r| ==> r[i] != r[j])
      && (forall i, j :: 0 <= i < j < |r| ==> r[i].LikesCount() >= r[j].LikesCount())
      && (forall f :: f in films.Values && f !in r ==>
            |r| == count && (count > 0 ==> f.LikesCount() <= r[count - 1].LikesCount()))
    }

    constructor ()
      ensures Valid()
      ensures films == map[] && nextId == 1
    {
      films := map[];
      nextId := 1;
    }

    /** `getAll`: every stored film once, in the map's iteration order (which
        the model leaves open). */
    method GetAll() returns (r: seq<Film>)
      requires Valid()
      ensures |r| == |films|
      ensures forall i, j :: 0 <= i < j < |r| ==> r[i] != r[j]
      ensures forall f :: f in r <==> f in films.Values
    {
      r := [];
      var pending := films.Keys;
      while pending != {}
        invariant pending <= films.Keys
        invariant |r| + |pending| == |films.Keys|
        invariant forall i :: 0 <= i < |r| ==> r[i].id in films && films[r[i].id] == r[i] && r[i].id !in pending
        invariant forall id :: id in films && id !in pending ==> films[id] in r
        invariant forall i, j :: 0 <= i < j < |r| ==> r[i] != r[j]
        decreases |pending|
      {
        HasElement(pending);
        var id :| id in pending;
        r := r + [films[id]];
        pending := pending - {id};
      }
      assert |films.Keys| == |films|;
      forall f | f in films.Values ensures f in r {
        if forall id :: id in films ==> films[id] != f {
          assert false;
        }
      }
    }

    /** Each stored film paired with its like count, in iteration order: the
        sort's input. */
    method Candidates() returns (ranked: seq<Ranked<Film>>)
      requires Valid()
      ensures |ranked| == |films|
      ensures DistinctItems(ranked)
      ensures forall i :: 0 <= i < |ranked| ==>
                ranked[i].item in films.Values && ranked[i].score == ranked[i].item.LikesCount()
      ensures forall f :: f in films.Values ==> Ranked(f, f.LikesCount()) in ranked
    {
      var all := GetAll();
      ranked := seq(|all|, i requires 0 <= i < |all| reads all => Ranked(all[i], all[i].LikesCount()));
      forall f | f in films.Values ensures Ranked(f, f.LikesCount()) in ranked {
        var p :| 0 <= p < |all| && all[p] == f;
        assert ranked[p] == Ranked(f, f.LikesCount());
      }
    }

    /** `create`: the film gets the counter's value as id and is stored under it. */
    method Create(film: Film) returns (r: Film)
      requires Valid()
      requires film !in films.Values
      modifies this, film`id
      ensures Valid()
      ensures r == film && film.id == old(nextId)
      ensures nextId == old(nextId) + 1
      ensures forall id :: id in old(films) ==> id < film.id
      ensures films == old(films)[film.id := film]
      ensures film.View() == old(film.View()).(id := film.id)
      ensures Contents() == old(Contents())[film.id := film.View()]
    {
      film.id := nextId;
      nextId := nextId + 1;
      films := films[film.id := film];
      r := film;
      forall id | id in old(films) ensures films[id].View() == old(films[id].View()) {
        assert old(films[id]) != film;
      }
    }

    /** `update`: replaces the stored film with the same id; an unknown id is
        NotFound and changes nothing. */
    method Update(film: Film) returns (r: Result<Film>)
      requires Valid()
      modifies this
      ensures Valid()
      ensures nextId == old(nextId)
      ensures film.id in old(films) ==> r == Success(film) && films == old(films)[film.id := film]
      ensures film.id in old(films) ==> Contents() == old(Contents())[film.id := film.View()]
      ensures film.id !in old(films) ==> r == Failure(NotFound) && films == old(films)
    {
      if film.id !in films {
        return Failure(NotFound);
      }
      films := films[film.id := film];
      r := Success(film);
    }

    /** `getById`: the stored film or nothing; it never fails. */
    function GetById(id: int): (r: Option<Film>)
      requires Valid()
      reads this, films.Values
      ensures r.Some? <==> id in films
      ensures r.Some? ==> r.value in films.Values && r.value.id == id
    {
      if id in films then Some(films[id]) else None
    }

    /** `getFilm`: the stored film, or NotFound. */
    function GetFilm(id: int): (r: Result<Film>)
      requires Valid()
      reads this, films.Values
      ensures r.Success? <==> id in films
      ensures r.Failure? ==> r.error == NotFound
      ensures r.Success? ==> r.value.id == id && r.value in films.Values
    {
      match GetById(id)
      case Some(f) => Success(f)
      case None => Failure(NotFound)
    }

    /** `addLike`: an unknown film is NotFound; otherwise the user joins that
        film's likes (whether or not such a user exists) and no other film
        changes. */
    method AddLike(filmId: int, userId: int) returns (r: Outcome)
      requires Valid()
      modifies if filmId in films then {films[filmId]} else {}
      ensures Valid()
      ensures r == if filmId in films then Pass else Fail(NotFound)
      ensures r.Pass? ==> Contents() == WithLike(old(Contents()), filmId, userId)
      ensures r.Fail? ==> Contents() == old(Contents())
    {
      var found := GetFilm(filmId);
      if found.Failure? {
        return Fail(NotFound);
      }
      var film := found.value;
      film.AddLike(userId);
      r := Pass;
      forall id | id in films && id != filmId ensures films[id].View() == old(films[id].View()) {
        assert films[id] != film;
      }
    }

    /** `removeLike`: an unknown film is NotFound; otherwise the user leaves that
        film's likes (a no-op if absent) and no other film changes. */
    method RemoveLike(filmId: int, userId: int) returns (r: Outcome)
      requires Valid()
      modifies if filmId in films then {films[filmId]} else {}
      ensures Valid()
      ensures r == if filmId in films then Pass else Fail(NotFound)
      ensures r.Pass? ==> Contents() == WithoutLike(old(Contents()), filmId, userId)
      ensures r.Fail? ==> Contents() == old(Contents())
    {
      var found := GetFilm(filmId);
      if found.Failure? {
        return Fail(NotFound);
      }
      var film := found.value;
      film.RemoveLike(userId);
      r := Pass;
      forall id | id in films && id != filmId ensures films[id].View() == old(films[id].View()) {
        assert films[id] != film;
      }
    }

    /** `getPopular`: the stored films sorted by like count, highest first,
        cut to `count`; a negative count is rejected by `Stream.limit`. */
    method GetPopular(count: int) returns (r: Result<seq<Film>>)
      requires Valid()
      ensures r.Failure? <==> count < 0
      ensures r.Failure? ==> r.error == IllegalArgument
      ensures r.Success? ==> PopularSelection(r.value, count)
    {
      if count < 0 {
        return Failure(IllegalArgument);
      }
      var ranked := Candidates();
      var chosen := Items(TopN(ranked, count));
      PopularFromCandidates(ranked, count);
      r := Success(chosen);
    }

    /** The kept films of a ranked candidate list meet `PopularSelection`. */
    lemma PopularFromCandidates(ranked: seq<Ranked<Film>>, count: nat)
      requires |ranked| == |films|
      requires DistinctItems(ranked)
      requires forall i :: 0 <= i < |ranked| ==>
                 ranked[i].item in films.Values && ranked[i].score == ranked[i].item.LikesCount()
      requires forall f :: f in films.Values ==> Ranked(f, f.LikesCount()) in ranked
      ensures PopularSelection(Items(TopN(ranked, count)), count)
    {
      var top := TopN(ranked, count);
      var chosen := Items(top);
      TopNItemsSelection(ranked, count);
      forall i | 0 <= i < |top|
        ensures chosen[i] in films.Values && top[i].score == chosen[i].LikesCount()
      {
        assert top[i] in ranked;
      }
      forall f | f in films.Values && f !in chosen
        ensures |chosen| == count && (count > 0 ==> f.LikesCount() <= chosen[count - 1].LikesCount())
      {
        assert Ranked(f, f.LikesCount()) in ranked;
      }
    }
  }
}
