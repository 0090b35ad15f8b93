/** `recommend_movies_for_user`: for one user, find the catalog movies the user has not rated,
    score each of them with the rating model, keep the `n` best and return their catalog rows. */
module Recommender {
  import opened Seqs
  import opened Ranking

  /** A row of the ratings table. */
  datatype Rating = Rating(userId: int, movieId: int, rating: real)

  /** A row of the movie catalog, restricted to the two columns the result carries. */
  datatype Movie = Movie(movieId: int, title: string)

  /** Number of recommendations when the caller does not say. */
  const DefaultCount := 10

  /** Some catalog row has movie id `id`. */
  ghost predicate InCatalog(movies: seq<Movie>, id: int) {
    exists m :: m in movies && m.movieId == id
  }

  /** The ratings table holds a rating by `user` for movie `id`. */
  ghost predicate Rated(ratings: seq<Rating>, user: int, id: int) {
    exists q :: q in ratings && q.userId == user && q.movieId == id
  }

  /** The catalog's `movieId` column, row by row. */
  function IdColumn(movies: seq<Movie>): (ids: seq<int>)
    ensures |ids| == |movies|
    ensures forall i :: 0 <= i < |movies| ==> ids[i] == movies[i].movieId
    ensures forall id :: id in ids <==> InCatalog(movies, id)
  {
    if movies == [] then []
    else
      assert movies == [movies[0]] + movies[1..];
      [movies[0].movieId] + IdColumn(movies[1..])
  }

  /** `movies_df['movieId'].unique()`: every catalog id once, in order of first appearance. */
  function AllMovieIds(movies: seq<Movie>): (ids: seq<int>)
    ensures NoDups(ids)
    ensures forall id :: id in ids <==> InCatalog(movies, id)
    ensures forall i, j :: 0 <= i < j < |ids| ==>
      Position(IdColumn(movies), ids[i]) < Position(IdColumn(movies), ids[j])
  {
    Unique(IdColumn(movies))
  }

  /** `ratings_df[ratings_df['userId'] == user]['movieId'].tolist()`: the ids the user rated,
      one per rating row of the user. */
  function WatchedMovieIds(user: int, ratings: seq<Rating>): (ids: seq<int>)
    ensures |ids| <= |ratings|
    ensures |ids| == |Filter(ratings, (q: Rating) => q.userId == user)|
    ensures forall i :: 0 <= i < |ids| ==> ids[i] == Filter(ratings, (q: Rating) => q.userId == user)[i].movieId
    ensures forall id :: id in ids <==> Rated(ratings, user, id)
  {
    if ratings == [] then []
    else
      assert ratings == [ratings[0]] + ratings[1..];
      var rest := WatchedMovieIds(user, ratings[1..]);
      if ratings[0].userId == user then [ratings[0].movieId] + rest else rest
  }

  /** `[m for m in all_ids if m not in watched]`: the ids not rated, in the order of `allIds`. */
  function UnseenMovieIds(allIds: seq<int>, watched: seq<int>): (ids: seq<int>)
    ensures forall id :: id in ids <==> id in allIds && id !in watched
    ensures forall id :: multiset(ids)[id] == if id in watched then 0 else multiset(allIds)[id]
    ensures IsSubseq(ids, allIds)
  {
    Filter(allIds, (id: int) => id !in watched)
  }

  /** The candidates of app.py:18-20: each catalog movie the user has not rated, once,
      in the order in which the catalog first lists it. */
  function Candidates(user: int, ratings: seq<Rating>, movies: seq<Movie>): (ids: seq<int>)
    ensures forall id :: id in ids <==> InCatalog(movies, id) && !Rated(ratings, user, id)
    ensures forall i, j :: 0 <= i < j < |ids| ==>
      Position(IdColumn(movies), ids[i]) < Position(IdColumn(movies), ids[j])
    ensures NoDups(ids)
  {
    var all := AllMovieIds(movies);
    var ids := UnseenMovieIds(all, WatchedMovieIds(user, ratings));
    SubseqKeepsOrder(ids, all, (id: int) => Position(IdColumn(movies), id));
    ids
  }

  /** Called without a count, the function keeps `min(10, #candidates)` predictions; with
      distinct catalog ids it returns at most 10 rows. */
  lemma DefaultCallKeepsTen(user: int, ratings: seq<Rating>, movies: seq<Movie>, score: (int, int) -> real)
    ensures |TopPredictions(user, ratings, movies, score, DefaultCount)| == Min(10, |Candidates(user, ratings, movies)|)
    ensures NoDups(IdColumn(movies)) ==> |RecommendMoviesForUser(user, ratings, movies, score, DefaultCount)| <= 10
  {
    if NoDups(IdColumn(movies)) {
      DistinctCatalogCapsResult(user, ratings, movies, score, DefaultCount);
    }
  }

  /** `[model.predict(user, m) for m in ids]`: one prediction per id, in the order of `ids`. */
  function Predict(user: int, ids: seq<int>, score: (int, int) -> real): (ps: seq<Prediction>)
    ensures |ps| == |ids|
    ensures forall i :: 0 <= i < |ids| ==> ps[i] == Prediction(user, ids[i], score(user, ids[i]))
  {
    if ids == [] then [] else [Prediction(user, ids[0], score(user, ids[0]))] + Predict(user, ids[1..], score)
  }

  /** `sorted(predictions, key=est, reverse=True)[:n]` over the candidates' predictions. */
  function TopPredictions(user: int, ratings: seq<Rating>, movies: seq<Movie>,
                          score: (int, int) -> real, n: int): (top: seq<Prediction>)
    ensures var c := Candidates(user, ratings, movies);
      |top| == if n >= 0 then Min(n, |c|) else Max(0, |c| + n)
    ensures NonIncreasing(top)
    ensures forall q :: q in top ==>
      q.uid == user && q.iid in Candidates(user, ratings, movies) && q.est == score(user, q.iid)
    ensures forall id :: id in Candidates(user, ratings, movies) && id !in KeptIds(top) ==>
      forall q :: q in top ==> score(user, id) <= q.est
    ensures forall v :: WithEst(top, v) <= WithEst(Predict(user, Candidates(user, ratings, movies), score), v)
    ensures NoDups(KeptIds(top))
  {
    var c := Candidates(user, ratings, movies);
    TopOfDistinctIds(user, c, score, n);
    TopOfPredictions(user, c, score, n);
    TopLeavesOutLower(user, c, score, n);
    Top(Predict(user, c, score), n)
  }

  /** Distinct ids give kept predictions for distinct movies. */
  lemma TopOfDistinctIds(user: int, ids: seq<int>, score: (int, int) -> real, n: int)
    requires NoDups(ids)
    ensures NoDups(KeptIds(Top(Predict(user, ids, score), n)))
  {
    var ps := Predict(user, ids, score);
    assert DistinctMovies(ps);
    var top := Top(ps, n);
    assert DistinctMovies(top);
  }

  /** Each kept prediction is the model's prediction for one of the ids. */
  lemma TopOfPredictions(user: int, ids: seq<int>, score: (int, int) -> real, n: int)
    ensures forall q :: q in Top(Predict(user, ids, score), n) ==>
      q.uid == user && q.iid in ids && q.est == score(user, q.iid)
  {
    var ps := Predict(user, ids, score);
    forall q | q in Top(ps, n) ensures q.uid == user && q.iid in ids && q.est == score(user, q.iid) {
      var i :| 0 <= i < |ps| && ps[i] == q;
    }
  }

  /** Top-`n` selection: an id whose prediction was not kept scores no higher than any kept one. */
  lemma TopLeavesOutLower(user: int, ids: seq<int>, score: (int, int) -> real, n: int)
    ensures var top := Top(Predict(user, ids, score), n);
      forall id :: id in ids && id !in KeptIds(top) ==> forall q :: q in top ==> score(user, id) <= q.est
  {
    var ps := Predict(user, ids, score);
    var top := Top(ps, n);
    forall id, q | id in ids && id !in KeptIds(top) && q in top ensures score(user, id) <= q.est {
      var i :| 0 <= i < |ids| && ids[i] == id;
    }
  }

  /** `[pred.iid for pred in top]`: the kept movie ids, best first. */
  function KeptIds(top: seq<Prediction>): (ids: seq<int>)
    ensures |ids| == |top|
    ensures forall i :: 0 <= i < |top| ==> ids[i] == top[i].iid
  {
    if top == [] then [] else [top[0].iid] + KeptIds(top[1..])
  }

  /** `recommend_movies_for_user`: the catalog rows whose id was kept, in catalog order
      (not ranking order), every such row included, so duplicated ids give duplicated rows. */
  function RecommendMoviesForUser(user: int, ratings: seq<Rating>, movies: seq<Movie>,
                                  score: (int, int) -> real, n: int): (r: seq<Movie>)
    ensures forall m :: m in r ==> m in movies && !Rated(ratings, user, m.movieId)
    ensures forall m :: m in r <==>
      m in movies && m.movieId in KeptIds(TopPredictions(user, ratings, movies, score, n))
    ensures forall m :: multiset(r)[m] ==
                          (if m.movieId in KeptIds(TopPredictions(user, ratings, movies, score, n)) then multiset(movies)[m] else 0)
    ensures IsSubseq(r, movies)
  {
    var top := TopPredictions(user, ratings, movies, score, n);
    var kept := KeptIds(top);
    assert forall id :: id in kept ==> !Rated(ratings, user, id) by {
      forall id | id in kept ensures !Rated(ratings, user, id) {
        var k :| 0 <= k < |kept| && kept[k] == id;
        assert top[k] in top;
      }
    }
    Filter(movies, (m: Movie) => m.movieId in kept)
  }

  /** An unknown user (no rating rows) is not rejected: every catalog movie is a candidate,
      in catalog order. */
  lemma UnknownUserSeesWholeCatalog(user: int, ratings: seq<Rating>, movies: seq<Movie>)
    requires forall q :: q in ratings ==> q.userId != user
    ensures Candidates(user, ratings, movies) == AllMovieIds(movies)
  {
    var watched := WatchedMovieIds(user, ratings);
    forall id ensures id !in watched {
      assert !Rated(ratings, user, id);
    }
    FilterKeepsAll(AllMovieIds(movies), (id: int) => id !in watched);
  }

  /** A user who has rated every catalog movie has no candidates. */
  lemma RatedEverythingNoCandidates(user: int, ratings: seq<Rating>, movies: seq<Movie>)
    requires forall m :: m in movies ==> Rated(ratings, user, m.movieId)
    ensures Candidates(user, ratings, movies) == []
  {
    var c := Candidates(user, ratings, movies);
    forall id ensures id !in c {
      if InCatalog(movies, id) {
        var m :| m in movies && m.movieId == id;
      }
    }
  }

  /** A user who has rated every catalog movie gets an empty result, for any `n`. */
  lemma RatedEverythingGivesNothing(user: int, ratings: seq<Rating>, movies: seq<Movie>,
                                    score: (int, int) -> real, n: int)
    requires forall m :: m in movies ==> Rated(ratings, user, m.movieId)
    ensures Candidates(user, ratings, movies) == []
    ensures RecommendMoviesForUser(user, ratings, movies, score, n) == []
  {
    RatedEverythingNoCandidates(user, ratings, movies);
    var r := RecommendMoviesForUser(user, ratings, movies, score, n);
    assert KeptIds(TopPredictions(user, ratings, movies, score, n)) == [];
    assert forall m :: m !in r;
  }

  /** Every kept id comes back as at least one catalog row, so the ids of the result are
      exactly the kept ids. */
  lemma EveryKeptMovieReturned(user: int, ratings: seq<Rating>, movies: seq<Movie>,
                               score: (int, int) -> real, n: int, id: int)
    requires id in KeptIds(TopPredictions(user, ratings, movies, score, n))
    ensures exists m :: m in RecommendMoviesForUser(user, ratings, movies, score, n) && m.movieId == id
  {
    var top := TopPredictions(user, ratings, movies, score, n);
    var k :| 0 <= k < |top| && KeptIds(top)[k] == id;
    assert top[k] in top;
    assert InCatalog(movies, id);
    var m :| m in movies && m.movieId == id;
    assert m in RecommendMoviesForUser(user, ratings, movies, score, n);
  }

  /** Joining kept ids against a catalog whose ids are distinct gives one row per kept id. */
  lemma {:induction false} JoinCount(movies: seq<Movie>, kept: set<int>)
    requires NoDups(IdColumn(movies))
    requires forall id :: id in kept ==> InCatalog(movies, id)
    ensures |Filter(movies, (m: Movie) => m.movieId in kept)| == |kept|
  {
    if movies == [] {
      assert forall id :: id !in kept;
    } else {
      var m0, rest := movies[0], movies[1..];
      var kept' := kept - {m0.movieId};
      assert IdColumn(rest) == IdColumn(movies)[1..];
      forall m | m in rest ensures m.movieId != m0.movieId {
        var i :| 0 <= i < |rest| && rest[i] == m;
        assert IdColumn(movies)[i + 1] == m.movieId;
      }
      FilterCongruent(rest, (m: Movie) => m.movieId in kept, (m: Movie) => m.movieId in kept');
      forall id | id in kept' ensures InCatalog(rest, id) {
        var m :| m in movies && m.movieId == id;
        assert m != m0;
      }
      JoinCount(rest, kept');
    }
  }

  /** With distinct catalog ids the result has exactly one row per kept id, hence at most `n`
      rows; only a catalog that repeats an id can make it longer. */
  lemma DistinctCatalogCapsResult(user: int, ratings: seq<Rating>, movies: seq<Movie>,
                                  score: (int, int) -> real, n: int)
    requires NoDups(IdColumn(movies))
    ensures |RecommendMoviesForUser(user, ratings, movies, score, n)| ==
            |TopPredictions(user, ratings, movies, score, n)|
    ensures n >= 0 ==> |RecommendMoviesForUser(user, ratings, movies, score, n)| <= n
  {
    var top := TopPredictions(user, ratings, movies, score, n);
    var kept := KeptIds(top);
    var keptSet := set id | id in kept;
    DistinctCard(kept);
    forall id | id in keptSet ensures InCatalog(movies, id) {
      var k :| 0 <= k < |kept| && kept[k] == id;
      assert top[k] in top;
    }
    FilterCongruent(movies, (m: Movie) => m.movieId in kept, (m: Movie) => m.movieId in keptSet);
    JoinCount(movies, keptSet);
  }
}
