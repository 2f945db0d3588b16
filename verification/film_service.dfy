/** The film service (service/FilmService.java) over the relational stores: it
    passes most calls through and adds one rule of its own, that only a stored
    user may like a film. */
module FilmServiceModel {
  import opened Common
  import opened FilmModel
  import opened Ranking
  import FilmDb
  import UserDb

  class FilmService {
    const filmStorage: FilmDb.FilmDbStorage
    const userStorage: UserDb.UserDbStorage

    constructor (filmStorage: FilmDb.FilmDbStorage, userStorage: UserDb.UserDbStorage)
      ensures this.filmStorage == filmStorage && this.userStorage == userStorage
    {
      this.filmStorage := filmStorage;
      this.userStorage := userStorage;
    }

    ghost predicate Valid()
      reads this, filmStorage, userStorage
    {
      filmStorage.Valid() && userStorage.Valid()
    }

    /** Every `film_likes` row names a stored user. The service keeps this;
        the film store alone does not. */
    ghost predicate LikersKnown()
      reads this, filmStorage, userStorage
    {
      forall p :: p in filmStorage.likes ==> p.1 in userStorage.users
    }

    /** `getAll`: the film store's list, every stored film once. */
    function GetAll(): (r: seq<FilmData>)
      reads this, filmStorage
      ensures |r| == |filmStorage.films|
      ensures forall i :: 0 <= i < |r| ==> r[i].id in filmStorage.films
    {
      var t := filmStorage.State();
      FilmDb.GetAllSpec(t);
      FilmDb.GetAll(t)
    }

    /** `getById`: the stored film read back; an unknown id is a plain runtime
        failure here, not NotFound. */
    function GetById(id: int): (r: Result<FilmData>)
      reads this, filmStorage
      ensures r.Success? <==> id in filmStorage.films
      ensures r.Failure? ==> r.error == Failed
      ensures r.Success? ==> r.value.id == id && r.value.likes == FilmDb.LikesOf(filmStorage.State(), id)
    {
      match FilmDb.GetById(filmStorage.State(), id)
      case Some(film) => Success(film)
      case None => Failure(Failed)
    }

    /** `getPopular`: the film store's ranking, at most `count` stored films. */
    function GetPopular(count: nat): (r: seq<FilmData>)
      reads this, filmStorage
      ensures |r| == Min(count, |filmStorage.films|)
      ensures forall i :: 0 <= i < |r| ==> r[i].id in filmStorage.films
      ensures forall i, j :: 0 <= i < j < |r| ==> |r[i].likes| >= |r[j].likes|
    {
      var t := filmStorage.State();
      FilmDb.PopularOrdered(t, count);
      FilmDb.GetPopular(t, count)
    }

    /** `create`: passed to the film store, whose checks decide the outcome. */
    method Create(film: FilmData) returns (r: Result<FilmData>)
      requires Valid()
      modifies filmStorage
      ensures Valid()
      ensures r.Failure? <==> FilmDb.CreateCheck(old(filmStorage.State()), film).Fail?
      ensures r.Failure? ==> r.error == FilmDb.CreateCheck(old(filmStorage.State()), film).error
      ensures r.Failure? ==> filmStorage.State() == old(filmStorage.State()) && filmStorage.nextId == old(filmStorage.nextId)
      ensures r.Success? ==>
                var id := old(filmStorage.nextId);
                && id !in old(filmStorage.films)
                && filmStorage.nextId == id + 1
                && filmStorage.films == old(filmStorage.films)[id := FilmDb.RowOf(film)]
                && filmStorage.likes == old(filmStorage.likes)
                && filmStorage.filmGenres == old(filmStorage.filmGenres) + FilmDb.GenreRows(id, FilmDb.DedupById(film.genres))
                && r.value == film.(id := id, genres := FilmDb.GenresOf(filmStorage.State(), id),
                                    likes := FilmDb.LikesOf(filmStorage.State(), id))
    {
      r := filmStorage.Create(film);
    }

    /** `update`: passed to the film store; an unknown id is NotFound. */
    method Update(film: FilmData) returns (r: Result<FilmData>)
      requires Valid()
      modifies filmStorage
      ensures Valid()
      ensures r.Failure? <==> film.id !in old(filmStorage.films)
      ensures r.Failure? ==> r.error == NotFound && filmStorage.State() == old(filmStorage.State())
      ensures r.Failure? ==> filmStorage.nextId == old(filmStorage.nextId)
      ensures r.Success? ==>
                && filmStorage.films == old(filmStorage.films)[film.id := FilmDb.RowOf(film)]
                && filmStorage.likes == old(filmStorage.likes) && filmStorage.nextId == old(filmStorage.nextId)
                && filmStorage.filmGenres ==
                     (set p | p in old(filmStorage.filmGenres) && p.0 != film.id) + FilmDb.GenreRows(film.id, film.genres)
                && r.value == film.(genres := FilmDb.GenresOf(filmStorage.State(), film.id),
                                    likes := FilmDb.LikesOf(filmStorage.State(), film.id))
    {
      r := filmStorage.Update(film);
    }

    /** `addLike`: an unknown user is a runtime failure and writes nothing;
        otherwise the like row is written, without any check on the film. */
    method AddLike(filmId: int, userId: int) returns (r: Outcome)
      requires Valid()
      modifies filmStorage`likes
      ensures Valid()
      ensures r == if userId in userStorage.users then Pass else Fail(Failed)
      ensures r.Pass? ==> filmStorage.likes == old(filmStorage.likes) + {(filmId, userId)}
      ensures r.Fail? ==> filmStorage.likes == old(filmStorage.likes)
      ensures old(LikersKnown()) ==> LikersKnown()
    {
      var user := UserDb.GetById(userStorage.State(), userId);
      if user.None? {
        return Fail(Failed);
      }
      filmStorage.AddLike(filmId, userId);
      r := Pass;
    }

    /** `removeLike`: passed straight to the film store; no user check. */
    method RemoveLike(filmId: int, userId: int)
      requires Valid()
      modifies filmStorage`likes
      ensures Valid()
      ensures filmStorage.likes == old(filmStorage.likes) - {(filmId, userId)}
      ensures old(LikersKnown()) ==> LikersKnown()
    {
      filmStorage.RemoveLike(filmId, userId);
    }
  }
}
