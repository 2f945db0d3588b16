/** The relational film store (storage/film/FilmDbStorage.java) over abstract
    tables: `films` rows by id, the `film_likes` and `film_genres` link tables as
    sets of pairs, and the fixed `genres` and `mpa_ratings` lookup tables
    (storage/genre/GenreDbStorage.java, storage/mpa/MpaDbStorage.java). */
module FilmDb {
  import opened Common
  import opened FilmModel
  import opened Ranking

  /** A row of the `films` table. `mpaId` is None when the column is null. */
  datatype FilmRow = FilmRow(
    name: string,
    description: string,
    releaseDate: Date,
    duration: int,
    mpaId: Option<int>)

  /** The earliest release date `create` accepts. */
  const EarliestRelease := Date(1895, 1, 1)

  /** The genre ids a list carries, a null id included as None. */
  function GenreIds(gs: seq<Genre>): set<Option<int>> {
    set g | g in gs :: g.id
  }

  /** `k` is the first position of `gs` with its id. */
  ghost predicate FirstWithItsId(gs: seq<Genre>, k: int) {
    0 <= k < |gs| && forall j :: 0 <= j < k ==> gs[j].id != gs[k].id
  }

  /** The genre dedup of `create` (a `toMap` on the id that keeps the existing
      entry on a clash): one genre per distinct id, the first one seen. */
  function DedupById(gs: seq<Genre>): (r: seq<Genre>)
    ensures |r| <= |gs|
    ensures forall i, j :: 0 <= i < j < |r| ==> r[i].id != r[j].id
    ensures GenreIds(r) == GenreIds(gs)
    ensures forall g :: g in r ==> g in gs
  {
    if gs == [] then
      []
    else
      var init := gs[..|gs| - 1];
      var last := gs[|gs| - 1];
      var rest := DedupById(init);
      assert gs == init + [last];
      assert GenreIds(gs) == GenreIds(init) + {last.id};
      if last.id in GenreIds(rest) then
        rest
      else
        assert GenreIds(rest + [last]) == GenreIds(rest) + {last.id};
        rest + [last]
  }

  /** A list's genres are all known exactly when its dedup's are: the dedup
      loses no id. */
  lemma DedupKeepsKnown(gs: seq<Genre>, genreTable: map<int, string>)
    requires forall g :: g in DedupById(gs) ==> g.id.Some? && g.id.value in genreTable
    ensures forall g :: g in gs ==> g.id.Some? && g.id.value in genreTable
  {
    var d := DedupById(gs);
    forall g | g in gs ensures g.id.Some? && g.id.value in genreTable {
      assert g.id in GenreIds(gs);
      assert g.id in GenreIds(d);
      var e :| e in d && e.id == g.id;
    }
  }

  /** Each genre the dedup keeps is the first occurrence of its id. */
  lemma {:induction false} DedupKeepsFirst(gs: seq<Genre>)
    ensures forall i :: 0 <= i < |DedupById(gs)| ==>
              exists k :: FirstWithItsId(gs, k) && gs[k] == DedupById(gs)[i]
  {
    if gs != [] {
      var init := gs[..|gs| - 1];
      var last := gs[|gs| - 1];
      var rest := DedupById(init);
      DedupKeepsFirst(init);
      var r := DedupById(gs);
      assert r == if last.id in GenreIds(rest) then rest else rest + [last];
      forall i | 0 <= i < |r| ensures exists k :: FirstWithItsId(gs, k) && gs[k] == r[i] {
        if i < |rest| {
          var k :| FirstWithItsId(init, k) && init[k] == rest[i];
          assert FirstWithItsId(gs, k) && gs[k] == r[i];
        } else {
          var k := |gs| - 1;
          forall j | 0 <= j < k ensures gs[j].id != gs[k].id {
            assert gs[j] in init;
          }
          assert FirstWithItsId(gs, k) && gs[k] == r[i];
        }
      }
      assert forall i :: 0 <= i < |r| ==> exists k :: FirstWithItsId(gs, k) && gs[k] == r[i];
    } else {
      assert DedupById(gs) == [];
    }
  }

  /** Genres with pairwise distinct ids carry as many ids as there are genres. */
  lemma {:induction false} DistinctIdsCount(gs: seq<Genre>)
    requires forall i, j :: 0 <= i < j < |gs| ==> gs[i].id != gs[j].id
    ensures |GenreIds(gs)| == |gs|
  {
    if gs != [] {
      var init := gs[..|gs| - 1];
      var last := gs[|gs| - 1];
      assert gs == init + [last];
      DistinctIdsCount(init);
      assert GenreIds(gs) == GenreIds(init) + {last.id};
      if last.id in GenreIds(init) {
        assert false;
      }
    }
  }

  /** The `film_genres` rows `saveFilmGenres` writes for film `id`: one per
      genre with a non-null id. */
  function GenreRows(id: int, gs: seq<Genre>): set<(int, int)> {
    set g | g in gs && g.id.Some? :: (id, g.id.value)
  }

  /** Genres with distinct non-null ids give one row each. */
  lemma {:induction false} GenreRowsCount(id: int, gs: seq<Genre>)
    requires forall g :: g in gs ==> g.id.Some?
    requires forall i, j :: 0 <= i < j < |gs| ==> gs[i].id != gs[j].id
    ensures |GenreRows(id, gs)| == |gs|
  {
    if gs != [] {
      var init := gs[..|gs| - 1];
      var last := gs[|gs| - 1];
      assert gs == init + [last];
      GenreRowsCount(id, init);
      assert GenreRows(id, gs) == GenreRows(id, init) + {(id, last.id.value)};
      if (id, last.id.value) in GenreRows(id, init) {
        assert false;
      }
    }
  }

  /** The `films` row a request writes. */
  function RowOf(film: FilmData): FilmRow {
    FilmRow(film.name, film.description, film.releaseDate, film.duration, MpaIdOf(film))
  }

  /** The store's tables as one value: the fixed `genres` and `mpa_ratings`
      lookup tables, the `films` rows by id, and the `film_likes` and
      `film_genres` link tables as sets of (film id, other id) pairs. The
      queries below are functions of this value. */
  datatype Tables = Tables(
    genreTable: map<int, string>,
    mpaTable: map<int, MpaRating>,
    films: map<int, FilmRow>,
    likes: set<(int, int)>,
    filmGenres: set<(int, int)>)

  /** Each `mpa_ratings` row sits under its own `mpa_id`: `findById` selects
      by that column and builds the rating's id from it. */
  predicate MpaKeyed(mpaTable: map<int, MpaRating>) {
    forall k :: k in mpaTable ==> mpaTable[k].id == k
  }

  /** The user ids of film `id`'s `film_likes` rows. */
  function LikesOf(t: Tables, id: int): (r: set<int>)
    ensures forall u :: u in r <==> (id, u) in t.likes
  {
    set p | p in t.likes && p.0 == id :: p.1
  }

  /** The genre ids film `id` is linked to that the lookup table knows. */
  function LinkedGenreIds(t: Tables, id: int): (r: set<int>)
    ensures forall g :: g in r <==> (id, g) in t.filmGenres && g in t.genreTable
  {
    set p | p in t.filmGenres && p.0 == id && p.1 in t.genreTable :: p.1
  }

  /** `findByFilmId`: the genres linked to film `id` that the lookup table
      knows (an inner join), by ascending genre id. */
  function GenresOf(t: Tables, id: int): (r: seq<Genre>)
    ensures |r| == |LinkedGenreIds(t, id)|
  {
    var ids := Ascending(LinkedGenreIds(t, id));
    seq(|ids|, i requires 0 <= i < |ids| => Genre(Some(ids[i]), t.genreTable[ids[i]]))
  }

  /** The genres `loadFilmAdditionalData` puts into a film come in strictly
      ascending id order, and each is a linked genre the lookup table knows,
      under its name there. */
  lemma LoadedGenres(t: Tables, id: int)
    ensures var gs := GenresOf(t, id);
      && (forall i, j :: 0 <= i < j < |gs| ==> gs[i].id.Some? && gs[j].id.Some? && gs[i].id.value < gs[j].id.value)
      && (forall i :: 0 <= i < |gs| ==>
            gs[i].id.Some? && gs[i].id.value in t.genreTable && (id, gs[i].id.value) in t.filmGenres
            && gs[i].name == t.genreTable[gs[i].id.value])
  {
  }

  /** No linked genre the lookup table knows is missing from a loaded film. */
  lemma LoadedGenresComplete(t: Tables, id: int, g: int)
    requires (id, g) in t.filmGenres && g in t.genreTable
    ensures Some(g) in GenreIds(GenresOf(t, id))
  {
    var ids := Ascending(LinkedGenreIds(t, id));
    AscendingHasAll(LinkedGenreIds(t, id));
    var i :| 0 <= i < |ids| && ids[i] == g;
    assert GenresOf(t, id)[i].id == Some(g);
  }

  /** The mpa of a stored row as the row mapper reads it: a null column reads
      as 0, and an id the lookup table lacks gives no rating. */
  function MpaOf(t: Tables, row: FilmRow): (r: Option<MpaRating>)
    ensures var key := if row.mpaId.Some? then row.mpaId.value else 0;
      && (r.Some? <==> key in t.mpaTable)
      && (r.Some? ==> r.value == t.mpaTable[key])
      && (r.Some? && MpaKeyed(t.mpaTable) ==> r.value.id == key)
  {
    var key := match row.mpaId case Some(m) => m case None => 0;
    if key in t.mpaTable then Some(t.mpaTable[key]) else None
  }

  /** A stored film read back: its row through the row mapper, then
      `loadFilmAdditionalData`'s genres and likes. */
  function Hydrate(t: Tables, id: int): (r: FilmData)
    requires id in t.films
    ensures r.id == id
    ensures var row := t.films[id];
      && r.name == row.name && r.description == row.description
      && r.releaseDate == row.releaseDate && r.duration == row.duration
      && r.mpa == MpaOf(t, row)
    ensures r.genres == GenresOf(t, id) && r.likes == LikesOf(t, id)
  {
    var row := t.films[id];
    FilmData(id, row.name, row.description, row.releaseDate, row.duration, MpaOf(t, row), GenresOf(t, id), LikesOf(t, id))
  }

  /** A film reads back the same from two states that agree on its row, its
      like rows, its genre rows and the lookup tables. */
  lemma HydrateFrame(t0: Tables, t1: Tables, id: int)
    requires id in t0.films && id in t1.films && t0.films[id] == t1.films[id]
    requires t0.genreTable == t1.genreTable && t0.mpaTable == t1.mpaTable
    requires forall g :: (id, g) in t0.filmGenres <==> (id, g) in t1.filmGenres
    requires forall u :: (id, u) in t0.likes <==> (id, u) in t1.likes
    ensures Hydrate(t0, id) == Hydrate(t1, id)
  {
    forall g ensures g in LinkedGenreIds(t0, id) <==> g in LinkedGenreIds(t1, id) {
      assert (id, g) in t0.filmGenres <==> (id, g) in t1.filmGenres;
    }
    forall u ensures u in LikesOf(t0, id) <==> u in LikesOf(t1, id) {
      assert (id, u) in t0.likes <==> (id, u) in t1.likes;
    }
    assert LinkedGenreIds(t0, id) == LinkedGenreIds(t1, id);
    assert LikesOf(t0, id) == LikesOf(t1, id);
  }

  /** `getById`: the hydrated film, or nothing for an unknown id. */
  function GetById(t: Tables, id: int): (r: Option<FilmData>)
    ensures r.Some? <==> id in t.films
    ensures r.Some? ==> r.value.id == id && r.value.likes == LikesOf(t, id) && r.value.genres == GenresOf(t, id)
  {
    if id in t.films then Some(Hydrate(t, id)) else None
  }

  /** `existsById`: whether a `films` row has this id. */
  function ExistsById(t: Tables, id: int): (r: bool)
    ensures r <==> GetById(t, id).Some?
  {
    id in t.films
  }

  /** The stored ids, ascending (`ORDER BY film_id`). */
  function SortedIds(t: Tables): (r: seq<int>)
    ensures |r| == |t.films|
    ensures StrictlyIncreasing(r)
    ensures forall i :: 0 <= i < |r| ==> r[i] in t.films
  {
    assert |t.films.Keys| == |t.films|;
    Ascending(t.films.Keys)
  }

  /** The stored films `ids` read back, in order. */
  function HydrateAll(t: Tables, ids: seq<int>): (r: seq<FilmData>)
    requires forall i :: 0 <= i < |ids| ==> ids[i] in t.films
    ensures |r| == |ids|
    ensures forall i :: 0 <= i < |ids| ==> r[i] == Hydrate(t, ids[i])
  {
    if ids == [] then [] else [Hydrate(t, ids[0])] + HydrateAll(t, ids[1..])
  }

  /** `getAll`: every stored film, hydrated, by ascending id. */
  function GetAll(t: Tables): (r: seq<FilmData>)
    ensures |r| == |t.films|
  {
    HydrateAll(t, SortedIds(t))
  }

  /** `getAll` lists each stored film exactly once, read back, by strictly
      ascending id. */
  lemma GetAllSpec(t: Tables)
    ensures var r := GetAll(t);
      && (forall i :: 0 <= i < |r| ==> r[i].id in t.films && r[i] == Hydrate(t, r[i].id))
      && (forall i, j :: 0 <= i < j < |r| ==> r[i].id < r[j].id)
      && (forall id :: id in t.films ==> exists i :: 0 <= i < |r| && r[i].id == id)
  {
    var ids := SortedIds(t);
    var r := GetAll(t);
    forall i | 0 <= i < |r| ensures r[i].id == ids[i] && ids[i] in t.films && r[i] == Hydrate(t, ids[i]) {
    }
    forall id | id in t.films ensures exists i :: 0 <= i < |r| && r[i].id == id {
      AscendingHasAll(t.films.Keys);
      var i :| 0 <= i < |ids| && ids[i] == id;
      assert r[i].id == id;
    }
  }

  /** What `create` checks, in its order, before it writes anything: every
      requested genre has a non-null id the lookup table knows, the release
      date is not before 1895-01-01, and the mpa id is one the lookup table
      knows. */
  function CreateCheck(t: Tables, film: FilmData): (r: Outcome)
    ensures r == Pass <==>
              (forall g :: g in film.genres ==> g.id.Some? && g.id.value in t.genreTable)
              && !IsBefore(film.releaseDate, EarliestRelease)
              && MpaIdOf(film).Some? && MpaIdOf(film).value in t.mpaTable
    ensures r.Fail? ==> r.error in {NotFound, Validation}
    ensures r == Fail(Validation) <==>
              (forall g :: g in film.genres ==> g.id.Some? && g.id.value in t.genreTable)
              && IsBefore(film.releaseDate, EarliestRelease)
  {
    if exists g :: g in film.genres && !(g.id.Some? && g.id.value in t.genreTable) then
      Fail(NotFound)
    else if IsBefore(film.releaseDate, EarliestRelease) then
      Fail(Validation)
    else if MpaIdOf(film).None? || MpaIdOf(film).value !in t.mpaTable then
      Fail(NotFound)
    else
      Pass
  }

  /** A successful `create` links the new film to each distinct requested
      genre id exactly once. */
  lemma CreateGenreRows(id: int, film: FilmData, genreTable: map<int, string>)
    requires forall g :: g in film.genres ==> g.id.Some? && g.id.value in genreTable
    ensures |GenreRows(id, DedupById(film.genres))| == |GenreIds(film.genres)|
    ensures forall g :: (id, g) in GenreRows(id, DedupById(film.genres)) <==> Some(g) in GenreIds(film.genres)
  {
    var d := DedupById(film.genres);
    GenreRowsCount(id, d);
    DistinctIdsCount(d);
    forall g | Some(g) in GenreIds(film.genres) ensures (id, g) in GenreRows(id, d) {
      var x :| x in d && x.id == Some(g);
    }
  }

  /** Each of `ids` paired with its number of likes. */
  function Scored(t: Tables, ids: seq<int>): (r: seq<Ranked<int>>)
    ensures |r| == |ids|
    ensures forall i :: 0 <= i < |ids| ==> r[i] == Ranked(ids[i], |LikesOf(t, ids[i])|)
  {
    if ids == [] then [] else [Ranked(ids[0], |LikesOf(t, ids[0])|)] + Scored(t, ids[1..])
  }

  /** The grouped rows of `getPopular`'s LEFT JOIN: every stored film with
      its number of likes, zero included. */
  function Candidates(t: Tables): (r: seq<Ranked<int>>)
    ensures |r| == |t.films|
    ensures DistinctItems(r)
    ensures forall i :: 0 <= i < |r| ==> r[i].item in t.films && r[i].score == |LikesOf(t, r[i].item)|
  {
    Scored(t, SortedIds(t))
  }

  /** Every stored film is a candidate. */
  lemma CandidatesComplete(t: Tables, id: int)
    requires id in t.films
    ensures Ranked(id, |LikesOf(t, id)|) in Candidates(t)
  {
    var ids := SortedIds(t);
    AscendingHasAll(t.films.Keys);
    var i :| 0 <= i < |ids| && ids[i] == id;
    assert Candidates(t)[i] == Ranked(id, |LikesOf(t, id)|);
  }

  /** `getPopular`: the films by like count, most liked first, at most
      `count` of them, each hydrated. */
  function GetPopular(t: Tables, count: nat): (r: seq<FilmData>)
    ensures |r| == Min(count, |t.films|)
  {
    var top := TopN(Candidates(t), count);
    TopNItemsSelection(Candidates(t), count);
    HydrateAll(t, Items(top))
  }

  /** Position `i` of `getPopular`'s result is the hydrated film of the
      `i`-th kept candidate, with that candidate's like count. */
  lemma PopularPositions(t: Tables, count: nat)
    ensures var top := TopN(Candidates(t), count); var r := GetPopular(t, count);
      |r| == |top| &&
      forall i :: 0 <= i < |r| ==>
        top[i].item in t.films && r[i] == Hydrate(t, top[i].item) && r[i].id == top[i].item
        && |r[i].likes| == top[i].score
  {
    var c := Candidates(t);
    var top := TopN(c, count);
    TopNItemsSelection(c, count);
    var r := GetPopular(t, count);
    assert r == HydrateAll(t, Items(top));
    forall i | 0 <= i < |r|
      ensures top[i].item in t.films && r[i] == Hydrate(t, top[i].item) && r[i].id == top[i].item
              && |r[i].likes| == top[i].score
    {
      assert top[i] in c;
    }
  }

  /** What `getPopular` promises about the films it returns: stored films
      only, each at most once, by non-increasing like count. */
  lemma PopularOrdered(t: Tables, count: nat)
    ensures var r := GetPopular(t, count);
      && (forall i :: 0 <= i < |r| ==> r[i].id in t.films && r[i] == Hydrate(t, r[i].id))
      && (forall i, j :: 0 <= i < j < |r| ==> r[i].id != r[j].id)
      && (forall i, j :: 0 <= i < j < |r| ==> |r[i].likes| >= |r[j].likes|)
  {
    var top := TopN(Candidates(t), count);
    TopNItemsSelection(Candidates(t), count);
    PopularPositions(t, count);
  }

  /** What `getPopular` promises about the films it leaves out: every stored
      film is eligible, so one is left out only when `count` films were
      returned, and then it has no more likes than the last of them. */
  lemma PopularCutoff(t: Tables, count: nat, id: int)
    requires id in t.films
    requires forall i :: 0 <= i < |GetPopular(t, count)| ==> GetPopular(t, count)[i].id != id
    ensures |GetPopular(t, count)| == count
    ensures count > 0 ==> |LikesOf(t, id)| <= |GetPopular(t, count)[count - 1].likes|
  {
    var c := Candidates(t);
    var top := TopN(c, count);
    TopNItemsSelection(c, count);
    PopularPositions(t, count);
    CandidatesComplete(t, id);
  }

  class FilmDbStorage {
    /** The `genres` lookup table: id to name. */
    const genreTable: map<int, string>
    /** The `mpa_ratings` lookup table. */
    const mpaTable: map<int, MpaRating>
    var films: map<int, FilmRow>
    /** `film_likes` rows as (film id, user id). */
    var likes: set<(int, int)>
    /** `film_genres` rows as (film id, genre id). */
    var filmGenres: set<(int, int)>
    /** The next key the `film_id` identity column hands out. */
    var nextId: int

    /** The tables as a value. */
    function State(): Tables
      reads this
    {
      Tables(genreTable, mpaTable, films, likes, filmGenres)
    }

    /** Keys come from the identity column, genre rows are written only for
        stored films, and each rating sits under its own id. */
    ghost predicate Valid()
      reads this
    {
      && MpaKeyed(mpaTable)
      && (forall id :: id in films ==> id < nextId)
      && (forall p :: p in filmGenres ==> p.0 in films)
    }

    constructor (genreTable: map<int, string>, mpaTable: map<int, MpaRating>)
      requires MpaKeyed(mpaTable)
      ensures Valid()
      ensures State() == Tables(genreTable, mpaTable, map[], {}, {}) && nextId == 1
    {
      this.genreTable := genreTable;
      this.mpaTable := mpaTable;
      films := map[];
      likes := {};
      filmGenres := {};
      nextId := 1;
    }

    /** The genre loop of `create`: NotFound at the first genre whose id is
        null or unknown to the lookup table. */
    method CheckGenres(genres: seq<Genre>) returns (r: Outcome)
      ensures r == Pass <==> forall g :: g in genres ==> g.id.Some? && g.id.value in genreTable
      ensures r.Fail? ==> r.error == NotFound
    {
      for i := 0 to |genres|
        invariant forall j :: 0 <= j < i ==> genres[j].id.Some? && genres[j].id.value in genreTable
      {
        var genreId := genres[i].id;
        if genreId.None? || genreId.value !in genreTable {
          return Fail(NotFound);
        }
      }
      return Pass;
    }

    /** `saveFilmGenres`: one `film_genres` row per genre with a non-null id. */
    method SaveFilmGenres(id: int, genres: seq<Genre>)
      modifies this`filmGenres
      ensures filmGenres == old(filmGenres) + GenreRows(id, genres)
    {
      for i := 0 to |genres|
        invariant filmGenres == old(filmGenres) + GenreRows(id, genres[..i])
      {
        assert genres[..i + 1] == genres[..i] + [genres[i]];
        if genres[i].id.Some? {
          filmGenres := filmGenres + {(id, genres[i].id.value)};
          assert GenreRows(id, genres[..i + 1]) == GenreRows(id, genres[..i]) + {(id, genres[i].id.value)};
        } else {
          assert GenreRows(id, genres[..i + 1]) == GenreRows(id, genres[..i]);
        }
      }
      assert genres[..|genres|] == genres;
    }

    /** `updateFilmGenres`: drops every genre row of the film, then saves the
        requested ones. */
    method UpdateFilmGenres(id: int, genres: seq<Genre>)
      modifies this`filmGenres
      ensures filmGenres == (set p | p in old(filmGenres) && p.0 != id) + GenreRows(id, genres)
    {
      filmGenres := set p | p in filmGenres && p.0 != id;
      SaveFilmGenres(id, genres);
    }

    /** `create`: dedups the genres by id, checks them, the release date and
        the mpa id (in that order, before any write), then inserts the row
        under a fresh id, one genre row per distinct genre id, and returns the
        request with its id, genres and likes loaded from the tables. */
    method Create(film: FilmData) returns (r: Result<FilmData>)
      requires Valid()
      modifies this
      ensures Valid()
      ensures r.Failure? <==> CreateCheck(old(State()), film).Fail?
      ensures r.Failure? ==> r.error == CreateCheck(old(State()), film).error && unchanged(this)
      ensures r.Success? ==>
                && old(nextId) !in old(films)
                && nextId == old(nextId) + 1
                && films == old(films)[old(nextId) := RowOf(film)]
                && likes == old(likes)
                && filmGenres == old(filmGenres) + GenreRows(old(nextId), DedupById(film.genres))
                && r.value == film.(id := old(nextId), genres := GenresOf(State(), old(nextId)),
                                    likes := LikesOf(State(), old(nextId)))
    {
      ghost var t0 := State();
      var genres := DedupById(film.genres);
      var checked := CheckGenres(genres);
      if checked.Fail? {
        assert CreateCheck(t0, film) == Fail(NotFound);
        return Failure(NotFound);
      }
      DedupKeepsKnown(film.genres, genreTable);
      if IsBefore(film.releaseDate, EarliestRelease) {
        assert CreateCheck(t0, film) == Fail(Validation);
        return Failure(Validation);
      }
      var mpaId := MpaIdOf(film);
      if mpaId.None? || mpaId.value !in mpaTable {
        assert CreateCheck(t0, film) == Fail(NotFound);
        return Failure(NotFound);
      }
      assert CreateCheck(t0, film) == Pass;
      var id := Insert(RowOf(film), genres);
      var t := State();
      r := Success(film.(id := id, genres := GenresOf(t, id), likes := LikesOf(t, id)));
    }

    /** The writes of a successful `create`: the row under a fresh id, then its
        genre rows. */
    method Insert(row: FilmRow, genres: seq<Genre>) returns (id: int)
      requires Valid()
      modifies this`films, this`nextId, this`filmGenres
      ensures Valid()
      ensures id == old(nextId) && id !in old(films)
      ensures nextId == old(nextId) + 1
      ensures films == old(films)[id := row]
      ensures filmGenres == old(filmGenres) + GenreRows(id, genres)
    {
      id := nextId;
      nextId := nextId + 1;
      films := films[id := row];
      SaveFilmGenres(id, genres);
    }

    /** `update`: NotFound for an unknown id; otherwise the row's fields are
        overwritten, the film's genre rows are replaced by the requested ones
        (no dedup, no checks), and the request comes back with genres and
        likes loaded. */
    method Update(film: FilmData) returns (r: Result<FilmData>)
      requires Valid()
      modifies this
      ensures Valid()
      ensures film.id !in old(films) ==> r == Failure(NotFound) && unchanged(this)
      ensures film.id in old(films) ==>
                && films == old(films)[film.id := RowOf(film)]
                && likes == old(likes) && nextId == old(nextId)
                && filmGenres == (set p | p in old(filmGenres) && p.0 != film.id) + GenreRows(film.id, film.genres)
                && r == Success(film.(genres := GenresOf(State(), film.id), likes := LikesOf(State(), film.id)))
    {
      if !ExistsById(State(), film.id) {
        return Failure(NotFound);
      }
      films := films[film.id := RowOf(film)];
      UpdateFilmGenres(film.id, film.genres);
      var t := State();
      r := Success(film.(genres := GenresOf(t, film.id), likes := LikesOf(t, film.id)));
    }

    /** `addLike`: inserts the (film, user) row; nothing is checked. */
    method AddLike(filmId: int, userId: int)
      requires Valid()
      modifies this`likes
      ensures Valid()
      ensures likes == old(likes) + {(filmId, userId)}
    {
      likes := likes + {(filmId, userId)};
    }

    /** `removeLike`: deletes the (film, user) row; a missing row is a no-op. */
    method RemoveLike(filmId: int, userId: int)
      requires Valid()
      modifies this`likes
      ensures Valid()
      ensures likes == old(likes) - {(filmId, userId)}
    {
      likes := likes - {(filmId, userId)};
    }
  }

  /** The tables after a successful `create` stores `film` under `id`. */
  function Created(t: Tables, film: FilmData, id: int): Tables {
    t.(films := t.films[id := RowOf(film)],
       filmGenres := t.filmGenres + GenreRows(id, DedupById(film.genres)))
  }

  /** Every genre id film `id` is linked to after `create` was requested. */
  lemma CreatedLinks(t: Tables, film: FilmData, id: int, g: int)
    requires forall g :: g in film.genres ==> g.id.Some? && g.id.value in t.genreTable
    requires id !in t.films && forall p :: p in t.filmGenres ==> p.0 in t.films
    ensures g in LinkedGenreIds(Created(t, film, id), id) <==> Some(g) in GenreIds(film.genres)
  {
    CreateGenreRows(id, film, t.genreTable);
    assert (id, g) !in t.filmGenres;
    if Some(g) in GenreIds(film.genres) {
      var x :| x in film.genres && x.id == Some(g);
    }
  }

  /** A created film reads back with no genre id it was not given. */
  lemma CreatedGenresSound(t: Tables, film: FilmData, id: int, o: Option<int>)
    requires forall g :: g in film.genres ==> g.id.Some? && g.id.value in t.genreTable
    requires id !in t.films && forall p :: p in t.filmGenres ==> p.0 in t.films
    requires o in GenreIds(GenresOf(Created(t, film, id), id))
    ensures o in GenreIds(film.genres)
  {
    var gs := GenresOf(Created(t, film, id), id);
    LoadedGenres(Created(t, film, id), id);
    var x :| x in gs && x.id == o;
    var i :| 0 <= i < |gs| && gs[i] == x;
    CreatedLinks(t, film, id, x.id.value);
  }

  /** A created film reads back with every genre id it was given. */
  lemma CreatedGenresComplete(t: Tables, film: FilmData, id: int, o: Option<int>)
    requires forall g :: g in film.genres ==> g.id.Some? && g.id.value in t.genreTable
    requires id !in t.films && forall p :: p in t.filmGenres ==> p.0 in t.films
    requires o in GenreIds(film.genres)
    ensures o in GenreIds(GenresOf(Created(t, film, id), id))
  {
    var x :| x in film.genres && x.id == o;
    CreatedLinks(t, film, id, x.id.value);
    LoadedGenresComplete(Created(t, film, id), id, x.id.value);
  }

  /** The genres a created film reads back with are exactly the requested
      genre ids. */
  lemma CreatedGenres(t: Tables, film: FilmData, id: int)
    requires forall g :: g in film.genres ==> g.id.Some? && g.id.value in t.genreTable
    requires id !in t.films && forall p :: p in t.filmGenres ==> p.0 in t.films
    ensures GenreIds(GenresOf(Created(t, film, id), id)) == GenreIds(film.genres)
  {
    forall o | o in GenreIds(GenresOf(Created(t, film, id), id)) ensures o in GenreIds(film.genres) {
      CreatedGenresSound(t, film, id, o);
    }
    forall o | o in GenreIds(film.genres) ensures o in GenreIds(GenresOf(Created(t, film, id), id)) {
      CreatedGenresComplete(t, film, id, o);
    }
  }

  /** A film that `create` stores reads back through `getById` with the
      request's fields and rating id, and with exactly the requested genre
      ids, distinct and in ascending order. */
  lemma CreatedReadsBack(t: Tables, film: FilmData, id: int)
    requires MpaKeyed(t.mpaTable) && CreateCheck(t, film) == Pass
    requires id !in t.films && forall p :: p in t.filmGenres ==> p.0 in t.films
    ensures var r := GetById(Created(t, film, id), id);
      && r.Some? && r.value.id == id
      && r.value.name == film.name && r.value.description == film.description
      && r.value.releaseDate == film.releaseDate && r.value.duration == film.duration
      && r.value.mpa.Some? && film.mpa.Some? && r.value.mpa.value.id == film.mpa.value.id
      && GenreIds(r.value.genres) == GenreIds(film.genres)
      && (forall i, j :: 0 <= i < j < |r.value.genres| ==>
            r.value.genres[i].id.Some? && r.value.genres[j].id.Some?
            && r.value.genres[i].id.value < r.value.genres[j].id.value)
  {
    var after := Created(t, film, id);
    var r := Hydrate(after, id);
    assert GetById(after, id) == Some(r);
    assert after.films[id] == RowOf(film);
    CreatedGenres(t, film, id);
    LoadedGenres(after, id);
  }

  /** Replacing one film's row and genre rows, as `update` does, leaves every
      other film reading back as before. */
  lemma UpdateKeepsOthers(t: Tables, film: FilmData, k: int)
    requires film.id in t.films && k in t.films && k != film.id
    ensures var t' := t.(films := t.films[film.id := RowOf(film)],
                         filmGenres := (set p | p in t.filmGenres && p.0 != film.id) + GenreRows(film.id, film.genres));
      Hydrate(t', k) == Hydrate(t, k)
  {
    var t' := t.(films := t.films[film.id := RowOf(film)],
                 filmGenres := (set p | p in t.filmGenres && p.0 != film.id) + GenreRows(film.id, film.genres));
    HydrateFrame(t, t', k);
  }

  /** A like and its removal act on the liked film's likes alone: its likes
      gain (lose) exactly that user, and every other film reads back as before. */
  lemma LikeRows(t: Tables, filmId: int, userId: int, k: int)
    ensures LikesOf(t.(likes := t.likes + {(filmId, userId)}), filmId) == LikesOf(t, filmId) + {userId}
    ensures LikesOf(t.(likes := t.likes - {(filmId, userId)}), filmId) == LikesOf(t, filmId) - {userId}
    ensures k in t.films && k != filmId ==>
              Hydrate(t.(likes := t.likes + {(filmId, userId)}), k) == Hydrate(t, k)
              && Hydrate(t.(likes := t.likes - {(filmId, userId)}), k) == Hydrate(t, k)
  {
    if k in t.films && k != filmId {
      HydrateFrame(t.(likes := t.likes + {(filmId, userId)}), t, k);
      HydrateFrame(t.(likes := t.likes - {(filmId, userId)}), t, k);
    }
  }
}
