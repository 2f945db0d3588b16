# Filmorate relationship layer in Dafny

This project models the storage and service layer of Filmorate, a small film
catalogue with users, friendships, likes and a popularity ranking, and proves
properties of the model.

- **`Film` (film.dfy).** A film object whose `likes` set is changed in place by
  `addLike` and `removeLike`.
- **Ranking (ranking.dfy).** The shared popularity pipeline: a stable sort by
  like count, highest first, then a cut to `count`.
- **In-memory stores (in_memory_films.dfy, in_memory_users.dfy).** Each store
  is a map from id to mutable object plus an id counter.
  - Films carry per-film like sets.
  - `addFriend` and `removeFriend` write and remove both directions of a
    friendship; `create` and `update` store whatever friend set they are given.
- **Relational stores (film_db.dfy, user_db.dfy).** These are modelled over
  abstract tables: `films` and `users` rows keyed by id, plus link tables.
  - `film_likes` and `film_genres` are sets of pairs.
  - `friendships` is a map from a directed (user, friend) pair to status
    PENDING = 1 or CONFIRMED = 2.
  - The `genres` and `mpa_ratings` lookup tables are fixed maps.
  - Each query is a function of the tables' value. Each write is a method of
    a class whose fields are the tables.
- **`FilmService` (film_service.dfy).** It delegates to the relational stores
  and checks that a user exists before a like.
- **MPA name tables (mpa.dfy).**
- **Shared definitions (common.dfy).** Option, Result, the error kinds, a
  (year, month, day) date with lexicographic order, and the ascending listing
  of an id set used for `ORDER BY id`.

Each exception the source throws is a `Failure`/`Fail` value naming its kind:
- `NotFound`: `NotFoundException`.
- `Validation`: `ValidationException`.
- `IllegalArgument`: `IllegalArgumentException`, including the one
  `Stream.limit` throws for a negative count.
- `Failed`: the plain `RuntimeException` of `FilmService`.

Each failing path states that nothing was written.

## Model

| member | source | states |
|---|---|---|
| FilmModel.Film.constructor | src/main/java/ru/yandex/practicum/filmorate/model/Film.java:28 | a new film holds the given fields and an empty likes set |
| FilmModel.Film.LikesCount | src/main/java/ru/yandex/practicum/filmorate/model/Film.java:38-40 | the count is zero exactly when nobody likes the film, and at least one when anybody does |
| FilmModel.Film.AddLike | src/main/java/ru/yandex/practicum/filmorate/model/Film.java:30-32 | the user is in likes afterwards; liking twice changes nothing; the count grows by one only for a new user; no other field changes |
| FilmModel.Film.RemoveLike | src/main/java/ru/yandex/practicum/filmorate/model/Film.java:34-36 | the user is not in likes afterwards; removing an absent user changes nothing; the count drops by one only for a present user; no other field changes |
| FilmModel.LikeThenUnlike | src/main/java/ru/yandex/practicum/filmorate/model/Film.java:30-36 | a like then its removal, for a user not liking the film before, leaves every field of the film as it was |
| MpaNames.AmericanName | src/main/java/ru/yandex/practicum/filmorate/model/Mpa.java:30-38 | a name exists exactly for ids 1..5, and it is non-empty; any other id is IllegalArgument |
| MpaNames.RussianName | src/main/java/ru/yandex/practicum/filmorate/model/Mpa.java:42-50 | a mark exists exactly for ids 1..5 (the same domain as the American names), and it ends in '+'; any other id is IllegalArgument |
| MpaNames.AmericanNameInjective | src/main/java/ru/yandex/practicum/filmorate/model/Mpa.java:31-36 | distinct rating ids have distinct American names |
| MpaNames.RussianNameInjective | src/main/java/ru/yandex/practicum/filmorate/model/Mpa.java:43-48 | distinct rating ids have distinct Russian marks |
| Ranking.Insert | src/main/java/ru/yandex/practicum/filmorate/storage/film/InMemoryFilmStorage.java:64 | inserting adds exactly the new candidate to the multiset, and the new candidate or the old first one leads |
| Ranking.InsertKeepsOrder | src/main/java/ru/yandex/practicum/filmorate/storage/film/InMemoryFilmStorage.java:64 | inserting into a list ordered by non-increasing likes keeps it ordered |
| Ranking.SortDesc | src/main/java/ru/yandex/practicum/filmorate/storage/film/InMemoryFilmStorage.java:63-64 | the sorted list is a permutation of its input, by non-increasing like count |
| Ranking.InsertKeepsDistinct | src/main/java/ru/yandex/practicum/filmorate/storage/film/InMemoryFilmStorage.java:64 | inserting a new candidate into a list without repeats gives a list without repeats |
| Ranking.SortKeepsDistinct | src/main/java/ru/yandex/practicum/filmorate/storage/film/InMemoryFilmStorage.java:63-64 | sorting keeps candidates distinct |
| Ranking.TopN | src/main/java/ru/yandex/practicum/filmorate/storage/film/InMemoryFilmStorage.java:63-65 | the result has min(count, size) entries, ordered by non-increasing likes, all drawn from the input |
| Ranking.TopNSelection | src/main/java/ru/yandex/practicum/filmorate/storage/film/InMemoryFilmStorage.java:63-65 | no repeats; only offered candidates; one left out only when `count` were kept, and then it scores no higher than the last kept |
| Ranking.TopNCutoff | src/main/java/ru/yandex/practicum/filmorate/storage/film/InMemoryFilmStorage.java:65 | a left-out candidate means the result is exactly `count` long, and it scores no higher than the last kept |
| Ranking.TopNItemsSelection | src/main/java/ru/yandex/practicum/filmorate/storage/film/InMemoryFilmStorage.java:63-66 | the same facts, stated on the kept films themselves |
| InMemoryFilms.InMemoryFilmStorage.constructor | src/main/java/ru/yandex/practicum/filmorate/storage/film/InMemoryFilmStorage.java:14-15 | the store starts empty with counter 1 |
| InMemoryFilms.InMemoryFilmStorage.GetAll | src/main/java/ru/yandex/practicum/filmorate/storage/film/InMemoryFilmStorage.java:17-21 | every stored film exactly once, in an order the map leaves open |
| InMemoryFilms.InMemoryFilmStorage.Candidates | src/main/java/ru/yandex/practicum/filmorate/storage/film/InMemoryFilmStorage.java:63-64 | every stored film once, paired with its like count |
| InMemoryFilms.InMemoryFilmStorage.Create | src/main/java/ru/yandex/practicum/filmorate/storage/film/InMemoryFilmStorage.java:23-29 | the film gets the counter's value as id, which is above every stored id, is stored under it, and the counter grows by one; nothing else changes |
| InMemoryFilms.InMemoryFilmStorage.Update | src/main/java/ru/yandex/practicum/filmorate/storage/film/InMemoryFilmStorage.java:31-40 | an unknown id is NotFound with the map unchanged; otherwise only that entry is replaced |
| InMemoryFilms.InMemoryFilmStorage.GetById | src/main/java/ru/yandex/practicum/filmorate/storage/film/InMemoryFilmStorage.java:42-45 | the stored film with that id, or nothing; it never fails |
| InMemoryFilms.InMemoryFilmStorage.GetFilm | src/main/java/ru/yandex/practicum/filmorate/storage/film/InMemoryFilmStorage.java:69-74 | the stored film, or NotFound exactly when the id is unknown |
| InMemoryFilms.InMemoryFilmStorage.AddLike | src/main/java/ru/yandex/practicum/filmorate/storage/film/InMemoryFilmStorage.java:47-52 | an unknown film is NotFound and nothing changes; otherwise only that film's likes gain the user, whether or not such a user exists |
| InMemoryFilms.InMemoryFilmStorage.RemoveLike | src/main/java/ru/yandex/practicum/filmorate/storage/film/InMemoryFilmStorage.java:54-59 | an unknown film is NotFound and nothing changes; otherwise only that film's likes lose the user |
| InMemoryFilms.InMemoryFilmStorage.GetPopular | src/main/java/ru/yandex/practicum/filmorate/storage/film/InMemoryFilmStorage.java:61-67 | a negative count is IllegalArgument. Otherwise the result holds min(count, size) stored films, none repeated, by non-increasing like count. A film is left out only when `count` films are returned, and then it has no more likes than the last one |
| InMemoryFilms.InMemoryFilmStorage.PopularFromCandidates | src/main/java/ru/yandex/practicum/filmorate/storage/film/InMemoryFilmStorage.java:62-66 | the cut of the ranked candidates meets that promise |
| InMemoryUsers.Befriend | src/main/java/ru/yandex/practicum/filmorate/storage/user/InMemoryUserStorage.java:51-52 | each user is in the other's friends afterwards; other users are unchanged; no field but friends changes, and friend sets only grow |
| InMemoryUsers.Unfriend | src/main/java/ru/yandex/practicum/filmorate/storage/user/InMemoryUserStorage.java:62-63 | neither user is in the other's friends afterwards; other users are unchanged; no field but friends changes, and friend sets only shrink |
| InMemoryUsers.BefriendKeepsSymmetric | src/main/java/ru/yandex/practicum/filmorate/storage/user/InMemoryUserStorage.java:47-55 | adding a friend keeps the friend relation symmetric |
| InMemoryUsers.UnfriendKeepsSymmetric | src/main/java/ru/yandex/practicum/filmorate/storage/user/InMemoryUserStorage.java:58-66 | removing a friend keeps the friend relation symmetric |
| InMemoryUsers.UnfriendUndoesBefriend | src/main/java/ru/yandex/practicum/filmorate/storage/user/InMemoryUserStorage.java:51-52 | for two users who were not friends (a user and itself included), adding then removing the friendship restores every user |
| InMemoryUsers.InMemoryUserStorage.constructor | src/main/java/ru/yandex/practicum/filmorate/storage/user/InMemoryUserStorage.java:13-14 | the store starts empty with counter 1 |
| InMemoryUsers.InMemoryUserStorage.GetAll | src/main/java/ru/yandex/practicum/filmorate/storage/user/InMemoryUserStorage.java:16-20 | every stored user exactly once |
| InMemoryUsers.InMemoryUserStorage.Create | src/main/java/ru/yandex/practicum/filmorate/storage/user/InMemoryUserStorage.java:22-28 | the user gets the counter's value as id, which is above every stored id, is stored under it, and the counter grows by one |
| InMemoryUsers.InMemoryUserStorage.Update | src/main/java/ru/yandex/practicum/filmorate/storage/user/InMemoryUserStorage.java:30-39 | an unknown id is NotFound with the map unchanged; otherwise only that entry is replaced |
| InMemoryUsers.InMemoryUserStorage.GetById | src/main/java/ru/yandex/practicum/filmorate/storage/user/InMemoryUserStorage.java:41-44 | the stored user or nothing |
| InMemoryUsers.InMemoryUserStorage.GetUser | src/main/java/ru/yandex/practicum/filmorate/storage/user/InMemoryUserStorage.java:89-94 | the stored user, or NotFound exactly when the id is unknown |
| InMemoryUsers.InMemoryUserStorage.AddFriend | src/main/java/ru/yandex/practicum/filmorate/storage/user/InMemoryUserStorage.java:46-55 | NotFound if either user is missing, with nothing changed; otherwise the store becomes `Befriend` of the old one |
| InMemoryUsers.InMemoryUserStorage.RemoveFriend | src/main/java/ru/yandex/practicum/filmorate/storage/user/InMemoryUserStorage.java:57-66 | NotFound if either user is missing, with nothing changed; otherwise the store becomes `Unfriend` of the old one |
| InMemoryUsers.InMemoryUserStorage.AddOneFriend | src/main/java/ru/yandex/practicum/filmorate/storage/user/InMemoryUserStorage.java:51 | one user's friend set gains the id; no other user changes |
| InMemoryUsers.InMemoryUserStorage.RemoveOneFriend | src/main/java/ru/yandex/practicum/filmorate/storage/user/InMemoryUserStorage.java:62 | one user's friend set loses the id; no other user changes |
| InMemoryUsers.InMemoryUserStorage.UsersOf | src/main/java/ru/yandex/practicum/filmorate/storage/user/InMemoryUserStorage.java:71-73 | mapping ids to users succeeds exactly when every id is stored, and then lists exactly those users once each; otherwise NotFound |
| InMemoryUsers.InMemoryUserStorage.GetFriends | src/main/java/ru/yandex/practicum/filmorate/storage/user/InMemoryUserStorage.java:68-74 | NotFound for an unknown user or a friend id with no stored user; otherwise exactly the users whose ids are in the friend set |
| InMemoryUsers.InMemoryUserStorage.GetCommonFriends | src/main/java/ru/yandex/practicum/filmorate/storage/user/InMemoryUserStorage.java:76-87 | NotFound for an unknown user or a common id with no stored user; otherwise exactly the users in the intersection of both friend sets |
| FilmDb.DedupById | src/main/java/ru/yandex/practicum/filmorate/storage/film/FilmDbStorage.java:66-80 | the dedup has pairwise distinct ids, loses no id, is no longer than its input, and keeps only requested genres |
| FilmDb.DedupKeepsFirst | src/main/java/ru/yandex/practicum/filmorate/storage/film/FilmDbStorage.java:70-78 | each kept genre is the first requested genre with its id |
| FilmDb.DedupKeepsKnown | src/main/java/ru/yandex/practicum/filmorate/storage/film/FilmDbStorage.java:82-94 | checking the deduplicated genres checks every requested genre |
| FilmDb.DistinctIdsCount | src/main/java/ru/yandex/practicum/filmorate/storage/film/FilmDbStorage.java:70-78 | genres with distinct ids carry as many ids as there are genres |
| FilmDb.GenreRowsCount | src/main/java/ru/yandex/practicum/filmorate/storage/film/FilmDbStorage.java:229-236 | genres with distinct non-null ids give one row each |
| FilmDb.LikesOf | src/main/java/ru/yandex/practicum/filmorate/storage/film/FilmDbStorage.java:224-226 | a user is in a film's likes exactly when a `film_likes` row pairs them |
| FilmDb.LinkedGenreIds | src/main/java/ru/yandex/practicum/filmorate/storage/genre/GenreDbStorage.java:49-51 | a genre id is linked exactly when a `film_genres` row pairs it with the film and the lookup table knows it |
| FilmDb.GenresOf | src/main/java/ru/yandex/practicum/filmorate/storage/genre/GenreDbStorage.java:48-54 | one genre per linked, known genre id |
| FilmDb.LoadedGenres | src/main/java/ru/yandex/practicum/filmorate/storage/film/FilmDbStorage.java:220-221 | loaded genres come in strictly ascending id order; each is linked, known and carries its lookup name |
| FilmDb.LoadedGenresComplete | src/main/java/ru/yandex/practicum/filmorate/storage/genre/GenreDbStorage.java:49-52 | no linked, known genre is missing from the loaded list |
| FilmDb.MpaOf | src/main/java/ru/yandex/practicum/filmorate/storage/film/FilmDbStorage.java:45-46 | a rating is read back exactly when the row's mpa id, with null read as 0, is in the lookup table; it is the table's rating under that key, and its id is that key whenever each rating sits under its own id |
| FilmDb.Hydrate | src/main/java/ru/yandex/practicum/filmorate/storage/film/FilmDbStorage.java:36-50 | a stored film read back: the row mapper's name, description, release date, duration and joined rating (`MpaOf`), then `loadFilmAdditionalData`'s genres (`GenresOf`) and likes (`LikesOf`) |
| FilmDb.HydrateFrame | src/main/java/ru/yandex/practicum/filmorate/storage/film/FilmDbStorage.java:36-50 | a film reads back the same from any two states that agree on its row, its like rows, its genre rows and the lookup tables |
| FilmDb.GetById | src/main/java/ru/yandex/practicum/filmorate/storage/film/FilmDbStorage.java:168-184 | a film exactly for a stored id, carrying that id, its likes and its loaded genres; otherwise nothing |
| FilmDb.ExistsById | src/main/java/ru/yandex/practicum/filmorate/storage/film/FilmDbStorage.java:247-251 | true exactly when `getById` finds the film |
| FilmDb.SortedIds | src/main/java/ru/yandex/practicum/filmorate/storage/film/FilmDbStorage.java:54 | the stored ids, strictly ascending, one per film |
| FilmDb.GetAll | src/main/java/ru/yandex/practicum/filmorate/storage/film/FilmDbStorage.java:52-62 | one entry per stored film |
| FilmDb.GetAllSpec | src/main/java/ru/yandex/practicum/filmorate/storage/film/FilmDbStorage.java:52-62 | every stored film read back exactly once, by strictly ascending id |
| FilmDb.CreateCheck | src/main/java/ru/yandex/practicum/filmorate/storage/film/FilmDbStorage.java:82-105 | passes exactly when every genre id is non-null and known, the date is not before 1895-01-01, and the mpa id is known; Validation exactly when the genres pass and the date is too early; any other failure is NotFound |
| FilmDb.CreateGenreRows | src/main/java/ru/yandex/practicum/filmorate/storage/film/FilmDbStorage.java:229-236 | a successful create writes exactly one `film_genres` row per distinct requested genre id |
| FilmDb.Candidates | src/main/java/ru/yandex/practicum/filmorate/storage/film/FilmDbStorage.java:202-205 | every stored film once with its like count, zero-like films included |
| FilmDb.CandidatesComplete | src/main/java/ru/yandex/practicum/filmorate/storage/film/FilmDbStorage.java:204 | every stored film is a candidate with its like count |
| FilmDb.GetPopular | src/main/java/ru/yandex/practicum/filmorate/storage/film/FilmDbStorage.java:200-216 | the result holds min(count, number of films) films |
| FilmDb.PopularPositions | src/main/java/ru/yandex/practicum/filmorate/storage/film/FilmDbStorage.java:206-213 | entry i is the i-th kept candidate, read back, with that candidate's like count |
| FilmDb.PopularOrdered | src/main/java/ru/yandex/practicum/filmorate/storage/film/FilmDbStorage.java:201-210 | only stored films, each read back once, by non-increasing like count |
| FilmDb.PopularCutoff | src/main/java/ru/yandex/practicum/filmorate/storage/film/FilmDbStorage.java:204-207 | a stored film is left out only when `count` films are returned, and then it has no more likes than the last of them |
| FilmDb.CreatedLinks | src/main/java/ru/yandex/practicum/filmorate/storage/film/FilmDbStorage.java:64-133 | after a create, the film is linked to a known genre id exactly when the request carried that id |
| FilmDb.CreatedGenresSound | src/main/java/ru/yandex/practicum/filmorate/storage/film/FilmDbStorage.java:64-133 | a created film reads back with no genre id the request did not carry |
| FilmDb.CreatedGenresComplete | src/main/java/ru/yandex/practicum/filmorate/storage/film/FilmDbStorage.java:64-133 | a created film reads back with every genre id the request carried |
| FilmDb.CreatedGenres | src/main/java/ru/yandex/practicum/filmorate/storage/film/FilmDbStorage.java:64-133 | a created film reads back with exactly the requested genre ids |
| FilmDb.CreatedReadsBack | src/main/java/ru/yandex/practicum/filmorate/storage/film/FilmDbStorage.java:64-133 | after a successful create, `getById` returns the request's name, description, release date, duration and rating id, and its distinct genre ids in ascending order |
| FilmDb.UpdateKeepsOthers | src/main/java/ru/yandex/practicum/filmorate/storage/film/FilmDbStorage.java:141-159 | an update leaves every other film reading back as before |
| FilmDb.LikeRows | src/main/java/ru/yandex/practicum/filmorate/storage/film/FilmDbStorage.java:186-198 | a like adds exactly that user to the film's likes; its removal takes exactly that user out; other films read back as before |
| FilmDb.FilmDbStorage.constructor | src/main/java/ru/yandex/practicum/filmorate/storage/film/FilmDbStorage.java:30-34 | empty tables over the given lookup tables, each rating under its own id, with keys starting at 1 |
| FilmDb.FilmDbStorage.CheckGenres | src/main/java/ru/yandex/practicum/filmorate/storage/film/FilmDbStorage.java:82-94 | passes exactly when every genre has a non-null, known id; otherwise NotFound |
| FilmDb.FilmDbStorage.SaveFilmGenres | src/main/java/ru/yandex/practicum/filmorate/storage/film/FilmDbStorage.java:229-236 | adds one row per genre with a non-null id, and nothing else |
| FilmDb.FilmDbStorage.UpdateFilmGenres | src/main/java/ru/yandex/practicum/filmorate/storage/film/FilmDbStorage.java:238-245 | drops all of the film's genre rows, then adds the requested ones |
| FilmDb.FilmDbStorage.Create | src/main/java/ru/yandex/practicum/filmorate/storage/film/FilmDbStorage.java:64-133 | fails exactly as `CreateCheck` says, with nothing written. On success: a fresh id; its row; the deduplicated genre rows; likes untouched; the request returned with its id and loaded genres and likes |
| FilmDb.FilmDbStorage.Insert | src/main/java/ru/yandex/practicum/filmorate/storage/film/FilmDbStorage.java:107-126 | the row goes under the counter's key, which was free; the counter grows by one; the genre rows are added |
| FilmDb.FilmDbStorage.Update | src/main/java/ru/yandex/practicum/filmorate/storage/film/FilmDbStorage.java:135-166 | an unknown id is NotFound with nothing changed; otherwise the row is overwritten and the genre rows are replaced; likes are untouched; the request returns with loaded genres and likes |
| FilmDb.FilmDbStorage.AddLike | src/main/java/ru/yandex/practicum/filmorate/storage/film/FilmDbStorage.java:186-191 | the (film, user) row is added, with no checks |
| FilmDb.FilmDbStorage.RemoveLike | src/main/java/ru/yandex/practicum/filmorate/storage/film/FilmDbStorage.java:193-198 | the (film, user) row is removed; a missing row is a no-op |
| UserDb.FriendIds | src/main/java/ru/yandex/practicum/filmorate/storage/user/UserDbStorage.java:186-188 | f is a friend of u exactly when the row (u, f) exists |
| UserDb.Plain | src/main/java/ru/yandex/practicum/filmorate/storage/user/UserDbStorage.java:27-35 | a row read back has its id and fields and no friends |
| UserDb.Loaded | src/main/java/ru/yandex/practicum/filmorate/storage/user/UserDbStorage.java:184-192 | a row read back with exactly its outgoing friend ids |
| UserDb.ExistsById | src/main/java/ru/yandex/practicum/filmorate/storage/user/UserDbStorage.java:213-217 | true exactly when `getById` finds the user |
| UserDb.GetById | src/main/java/ru/yandex/practicum/filmorate/storage/user/UserDbStorage.java:98-114 | a user exactly for a stored id, with its fields and exactly its outgoing friend ids; otherwise nothing |
| UserDb.GetAll | src/main/java/ru/yandex/practicum/filmorate/storage/user/UserDbStorage.java:37-47 | one loaded entry per stored user, by strictly ascending id |
| UserDb.GetAllComplete | src/main/java/ru/yandex/practicum/filmorate/storage/user/UserDbStorage.java:39-41 | no stored user is missing from `getAll` |
| UserDb.JoinedRows | src/main/java/ru/yandex/practicum/filmorate/storage/user/UserDbStorage.java:154-157 | the joined users are stored users among the given ids, by strictly ascending id |
| UserDb.JoinedRowsComplete | src/main/java/ru/yandex/practicum/filmorate/storage/user/UserDbStorage.java:154-157 | no stored user among the given ids is missing |
| UserDb.GetFriends | src/main/java/ru/yandex/practicum/filmorate/storage/user/UserDbStorage.java:147-161 | NotFound exactly for an unknown user; otherwise stored users the user has a row towards, by strictly ascending id |
| UserDb.GetFriendsComplete | src/main/java/ru/yandex/practicum/filmorate/storage/user/UserDbStorage.java:154-157 | every stored user the user has a row towards is listed |
| UserDb.GetCommonFriends | src/main/java/ru/yandex/practicum/filmorate/storage/user/UserDbStorage.java:163-182 | NotFound exactly when either user is unknown; otherwise stored users both have a row towards, by strictly ascending id |
| UserDb.GetCommonFriendsComplete | src/main/java/ru/yandex/practicum/filmorate/storage/user/UserDbStorage.java:174-178 | every stored user both have a row towards is listed, so the result is exactly the intersection |
| UserDb.CommonFriendsSymmetric | src/main/java/ru/yandex/practicum/filmorate/storage/user/UserDbStorage.java:163-182 | swapping the two users gives the same answer |
| UserDb.WithRequest | src/main/java/ru/yandex/practicum/filmorate/storage/user/UserDbStorage.java:126-129 | the tables gain the row (user, friend) with status PENDING; every other row keeps its status |
| UserDb.WithoutRequest | src/main/java/ru/yandex/practicum/filmorate/storage/user/UserDbStorage.java:142-144 | the tables lose the row (user, friend) alone |
| UserDb.WithConfirmed | src/main/java/ru/yandex/practicum/filmorate/storage/user/UserDbStorage.java:219-224 | the reverse row (friend, user), if present, becomes CONFIRMED; every other row and the key set are unchanged |
| UserDb.RequestIsDirected | src/main/java/ru/yandex/practicum/filmorate/storage/user/UserDbStorage.java:126-129 | after a request only the requester's friend set changes, by gaining the friend; the friend's own set stays as it was |
| UserDb.WithdrawIsDirected | src/main/java/ru/yandex/practicum/filmorate/storage/user/UserDbStorage.java:142-144 | after a removal only the requester's friend set changes, by losing the friend |
| UserDb.ConfirmKeepsFriends | src/main/java/ru/yandex/practicum/filmorate/storage/user/UserDbStorage.java:219-224 | confirming changes nobody's friend set |
| UserDb.WithdrawUndoesRequest | src/main/java/ru/yandex/practicum/filmorate/storage/user/UserDbStorage.java:126-144 | a new request, once withdrawn, leaves the tables as they were |
| UserDb.CreatedReadsBack | src/main/java/ru/yandex/practicum/filmorate/storage/user/UserDbStorage.java:50-69 | a new user reads back with the request's fields and no friends |
| UserDb.UpdateKeepsOthers | src/main/java/ru/yandex/practicum/filmorate/storage/user/UserDbStorage.java:78-87 | an update leaves every other user reading back as before |
| UserDb.UserDbStorage.constructor | src/main/java/ru/yandex/practicum/filmorate/storage/user/UserDbStorage.java:23-25 | empty tables, with keys starting at 1 |
| UserDb.UserDbStorage.Create | src/main/java/ru/yandex/practicum/filmorate/storage/user/UserDbStorage.java:49-70 | a fresh id, the four fields stored under it, friendships untouched, the request returned with that id; `getById` of it gives the fields and no friends |
| UserDb.UserDbStorage.Update | src/main/java/ru/yandex/practicum/filmorate/storage/user/UserDbStorage.java:72-96 | an unknown id is NotFound with nothing changed; otherwise only that row's four fields are overwritten and the request returned |
| UserDb.UserDbStorage.AddFriend | src/main/java/ru/yandex/practicum/filmorate/storage/user/UserDbStorage.java:116-130 | NotFound if either user is unknown, with nothing written; otherwise the tables become `WithRequest` of the old ones |
| UserDb.UserDbStorage.RemoveFriend | src/main/java/ru/yandex/practicum/filmorate/storage/user/UserDbStorage.java:132-145 | NotFound if either user is unknown, with nothing written; otherwise the tables become `WithoutRequest` of the old ones |
| UserDb.UserDbStorage.ConfirmFriendship | src/main/java/ru/yandex/practicum/filmorate/storage/user/UserDbStorage.java:219-224 | the tables become `WithConfirmed` of the old ones, with no checks |
| FilmServiceModel.FilmService.GetAll | src/main/java/ru/yandex/practicum/filmorate/service/FilmService.java:21-23 | one entry per stored film, each a stored film |
| FilmServiceModel.FilmService.GetById | src/main/java/ru/yandex/practicum/filmorate/service/FilmService.java:33-36 | the stored film with its likes; a missing film is a runtime failure |
| FilmServiceModel.FilmService.GetPopular | src/main/java/ru/yandex/practicum/filmorate/service/FilmService.java:50-52 | min(count, number of films) stored films, by non-increasing like count |
| FilmServiceModel.FilmService.Create | src/main/java/ru/yandex/practicum/filmorate/service/FilmService.java:25-27 | the film store's create, with all it promises: fails exactly as `CreateCheck` says, with nothing changed; otherwise the row under a fresh id, the counter advanced, the deduplicated genre rows added, likes untouched, and the request returned with that id and its loaded genres and likes |
| FilmServiceModel.FilmService.Update | src/main/java/ru/yandex/practicum/filmorate/service/FilmService.java:29-31 | the film store's update, with all it promises: NotFound exactly for an unknown id, with nothing changed; otherwise the row overwritten, the film's genre rows replaced by the requested ones, likes and counter untouched, and the request returned with its loaded genres and likes |
| FilmServiceModel.FilmService.AddLike | src/main/java/ru/yandex/practicum/filmorate/service/FilmService.java:38-44 | a runtime failure with likes unchanged exactly when the user is unknown; otherwise the like row is added without any film check; likes by stored users only stay that way |
| FilmServiceModel.FilmService.RemoveLike | src/main/java/ru/yandex/practicum/filmorate/service/FilmService.java:46-48 | the like row is removed, with no user check |

## Left out

- HTTP controllers, the error handler, logging (including `loadFriendshipStatuses`, which only logs), and bean-validation annotations. The framework enforces those annotations, not this code.
- JDBC itself. SQL text, row mappers, the key holder and the `rowsUpdated == 0` branches are not modelled: tables are maps and sets, and generated keys come from a counter. The unreachable branches cannot fire after `existsById`.
- Transactions and concurrency: each operation is one atomic step.
- `GenreDbStorage`, `MpaDbStorage`, `GenreService` and `UserService` appear only as the fixed lookup maps.
- User.java is not part of this model. `User` is the record its callers use: id, email, login, name, birthday and a set of friend ids. Its `addFriend`/`removeFriend` are taken to be set insert and delete.
- Null values:
  - An id cannot be null. Java's `switch` on a null `Integer` in `Mpa` is not modelled.
  - A null genres list is the empty list.
  - A null genre id is `None`, and `create` rejects it as NotFound.
  - A null element inside the genres list cannot be represented. The source's `create` dedup and check loops throw a NullPointerException on it.
  - A film without a rating has mpa id `None`. The store's `create` rejects it as NotFound, and a row written with a null `mpa_id` reads back as key 0.
- InMemoryFilms.InMemoryFilmStorage.Create, InMemoryUsers.InMemoryUserStorage.Create: both require that the object is not already stored. Re-storing an aliased object under a second key is not modelled.
- Order:
  - The in-memory stores list in `HashMap` iteration order, modelled as an arbitrary choice. Their contracts say what holds for every order.
  - Ties in the popularity ranking keep the input order, which neither source fixes. The relational store feeds films in ascending id.
  - `create`'s dedup builds a `HashMap` whose value order is not fixed. The model keeps first occurrences in request order. This cannot be observed: genre rows are a set, and genres are read back by ascending id.
- Duplicate rows:
  - Link tables are sets and `friendships` is a map, so a repeated `addLike` changes nothing.
  - A repeated `addFriend` resets the row to PENDING. What the real schema does on a duplicate key is not shown.
  - Likes and genre rows naming films or users that do not exist are allowed; foreign keys are not shown.
- FilmDb.FilmDbStorage.Update: writes no genre row for a genre with a null id, and does not model the database refusing unknown genre ids.
- FilmDb.GetPopular, FilmServiceModel.FilmService.GetPopular: take `count` as a natural number. What the database does with a negative `LIMIT` is not modelled.
- Integer widths: ids and counts are unbounded integers. The source's `Long` ids and `int` counts do not overflow at the sizes involved.
