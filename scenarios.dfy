/** Worked examples of `recommend_movies_for_user`: lemmas about fixed inputs, stage by stage. */
module Scenarios {
  import opened Seqs
  import opened Ranking
  import opened Recommender

  /** A scorer that prefers higher movie ids. */
  function ByIdScore(user: int, id: int): real { id as real }

  /** A scorer that prefers lower movie ids. */
  function ByNegatedIdScore(user: int, id: int): real { -id as real }

  /** De-duplicating three distinct ids changes nothing. */
  lemma UniqueOfDistinct3(a: int, b: int, c: int)
    requires a != b && a != c && b != c
    ensures Unique([a, b, c]) == [a, b, c]
  {
    UniqueOfDistinct2(a, b);
    assert [a, b, c][..2] == [a, b];
  }

  /** De-duplicating a repeated first id keeps its first occurrence. */
  lemma UniqueOfRepeat(a: int, b: int)
    requires a != b
    ensures Unique([a, a, b]) == [a, b]
  {
    UniqueOfOne(a);
    assert [a, a][..1] == [a];
    assert Unique([a, a]) == [a];
    assert [a, a, b][..2] == [a, a];
  }

  /** De-duplicating two distinct ids changes nothing. */
  lemma UniqueOfDistinct2(a: int, b: int)
    requires a != b
    ensures Unique([a, b]) == [a, b]
  {
    UniqueOfOne(a);
    assert [a, b][..1] == [a];
  }

  /** De-duplicating a single id changes nothing. */
  lemma UniqueOfOne(a: int)
    ensures Unique([a]) == [a]
  {
    assert [a][..0] == [];
  }

  /** When `n` reaches the length, the top is the whole sorted sequence. */
  lemma TopOfAll(s: seq<Prediction>, n: int)
    requires n >= |s|
    ensures Top(s, n) == SortDesc(s)
  {
  }

  /** Sorting two predictions puts the higher estimate first, the first one on a tie. */
  lemma SortTwo(p: Prediction, q: Prediction)
    ensures SortDesc([p, q]) == if p.est >= q.est then [p, q] else [q, p]
  {
    assert [p, q][1..] == [q];
    assert [q][1..] == [];
    assert SortDesc([q]) == [q];
    if p.est < q.est {
      assert [q][1..] == [];
      assert Insert(p, [q]) == [q] + Insert(p, []);
    }
  }

  /** Sorting one prediction, or taking the top of one, leaves it alone. */
  lemma TopOfOne(p: Prediction, n: int)
    requires n >= 1
    ensures Top([p], n) == [p]
  {
    assert [p][1..] == [];
  }

  /** User 1 rated movies 10 and 20. */
  function ExampleRatings(): seq<Rating> { [Rating(1, 10, 4.0), Rating(1, 20, 3.0)] }

  /** A catalog of three movies. */
  function ExampleMovies(): seq<Movie> { [Movie(10, "A"), Movie(20, "B"), Movie(30, "C")] }

  /** The id column of the three-movie catalog. */
  lemma ExampleIdColumn()
    ensures IdColumn(ExampleMovies()) == [10, 20, 30]
  {
    var movies := ExampleMovies();
    var keep := (m: Movie) => m.movieId in [30];
    assert movies[2..] == [Movie(30, "C")];
    assert movies[2..][1..] == [];
    assert Filter(movies[2..], keep) == [Movie(30, "C")];
    assert movies[1..] == [Movie(20, "B")] + movies[2..];
    assert Filter(movies[1..], keep) == [Movie(30, "C")];
  }

  /** User 1's rated ids, in rating order. */
  lemma ExampleWatched()
    ensures WatchedMovieIds(1, ExampleRatings()) == [10, 20]
  {
    assert ExampleRatings()[1..] == [Rating(1, 20, 3.0)];
  }

  /** Only movie 30 is unseen. */
  lemma ExampleUnseen()
    ensures UnseenMovieIds([10, 20, 30], [10, 20]) == [30]
  {
    var keep := (id: int) => id !in [10, 20];
    assert [10, 20, 30][1..] == [20, 30];
    assert [20, 30][1..] == [30];
  }

  /** The candidates of user 1 in the three-movie catalog. */
  lemma ExampleCandidates()
    ensures Candidates(1, ExampleRatings(), ExampleMovies()) == [30]
  {
    ExampleIdColumn();
    UniqueOfDistinct3(10, 20, 30);
    ExampleWatched();
    ExampleUnseen();
  }

  /** A single candidate is kept whatever its score. */
  lemma ExampleTop(score: (int, int) -> real)
    ensures KeptIds(TopPredictions(1, ExampleRatings(), ExampleMovies(), score, DefaultCount)) == [30]
  {
    ExampleCandidates();
    var p := Prediction(1, 30, score(1, 30));
    assert Predict(1, [30], score) == [p];
    TopOfOne(p, DefaultCount);
    assert KeptIds([p]) == [30];
  }

  /** Joining the kept id 30 against the catalog. */
  lemma ExampleJoin()
    ensures Filter(ExampleMovies(), (m: Movie) => m.movieId in [30]) == [Movie(30, "C")]
  {
    var movies := ExampleMovies();
    var keep := (m: Movie) => m.movieId in [30];
    assert movies[2..] == [Movie(30, "C")];
    assert movies[2..][1..] == [];
    assert Filter(movies[2..], keep) == [Movie(30, "C")];
    assert movies[1..] == [Movie(20, "B")] + movies[2..];
    assert Filter(movies[1..], keep) == [Movie(30, "C")];
  }

  /** User 1 rated movies 10 and 20 of a three-movie catalog: only movie 30 is left to
      recommend, whatever the scorer. */
  lemma OnlyUnratedMovieRecommended(score: (int, int) -> real)
    ensures Candidates(1, ExampleRatings(), ExampleMovies()) == [30]
    ensures RecommendMoviesForUser(1, ExampleRatings(), ExampleMovies(), score, DefaultCount) == [Movie(30, "C")]
  {
    ExampleCandidates();
    ExampleTop(score);
    ExampleJoin();
  }

  /** A catalog of two movies with distinct ids. */
  function TwoMovies(): seq<Movie> { [Movie(1, "A"), Movie(2, "B")] }

  /** The distinct ids of the two-movie catalog. */
  lemma TwoMoviesAllIds()
    ensures AllMovieIds(TwoMovies()) == [1, 2]
  {
    assert IdColumn(TwoMovies()) == [1, 2] by {
      assert TwoMovies()[1..] == [Movie(2, "B")];
    }
    UniqueOfDistinct2(1, 2);
  }

  /** A user with no ratings sees both movies as candidates. */
  lemma TwoMoviesCandidates()
    ensures Candidates(7, [], TwoMovies()) == [1, 2]
  {
    UnknownUserSeesWholeCatalog(7, [], TwoMovies());
    TwoMoviesAllIds();
  }

  /** Scoring by id ranks movie 2 above movie 1. */
  lemma TwoMoviesTop()
    ensures Top(Predict(7, [1, 2], ByIdScore), DefaultCount) == [Prediction(7, 2, 2.0), Prediction(7, 1, 1.0)]
  {
    var p1, p2 := Prediction(7, 1, 1.0), Prediction(7, 2, 2.0);
    assert Predict(7, [1, 2], ByIdScore) == [p1, p2] by {
      assert [1, 2][1..] == [2];
    }
    SortTwo(p1, p2);
    TopOfAll([p1, p2], DefaultCount);
  }

  /** The kept ids, best first. */
  lemma TwoMoviesKept()
    ensures KeptIds(TopPredictions(7, [], TwoMovies(), ByIdScore, DefaultCount)) == [2, 1]
  {
    TwoMoviesCandidates();
    TwoMoviesTop();
    KeptOfTwo(Prediction(7, 2, 2.0), Prediction(7, 1, 1.0));
  }

  /** The kept ids of two predictions. */
  lemma KeptOfTwo(p: Prediction, q: Prediction)
    ensures KeptIds([p, q]) == [p.iid, q.iid]
  {
    assert [p, q][1..] == [q];
  }

  /** The rows come back in catalog order, not ranking order: movie 2 is ranked first,
      yet the result lists movie 1 first. */
  lemma ResultInCatalogOrder()
    ensures KeptIds(TopPredictions(7, [], TwoMovies(), ByIdScore, DefaultCount)) == [2, 1]
    ensures RecommendMoviesForUser(7, [], TwoMovies(), ByIdScore, DefaultCount) == TwoMovies()
  {
    TwoMoviesKept();
    var kept := KeptIds(TopPredictions(7, [], TwoMovies(), ByIdScore, DefaultCount));
    FilterKeepsAll(TwoMovies(), (m: Movie) => m.movieId in kept);
  }

  /** A catalog that lists movie 1 twice. */
  function RepeatedMovies(): seq<Movie> { [Movie(1, "A"), Movie(1, "A (again)"), Movie(2, "B")] }

  /** The id column repeats movie 1. */
  lemma RepeatedMoviesColumn()
    ensures IdColumn(RepeatedMovies()) == [1, 1, 2]
  {
    var movies := RepeatedMovies();
    assert movies[1..] == [Movie(1, "A (again)"), Movie(2, "B")];
    assert movies[2..] == [Movie(2, "B")];
  }

  /** De-duplication lists movie 1 once. */
  lemma RepeatedMoviesAllIds()
    ensures AllMovieIds(RepeatedMovies()) == [1, 2]
  {
    RepeatedMoviesColumn();
    UniqueOfRepeat(1, 2);
  }

  /** A user with no ratings sees both distinct ids as candidates. */
  lemma RepeatedMoviesCandidates()
    ensures Candidates(7, [], RepeatedMovies()) == [1, 2]
  {
    UnknownUserSeesWholeCatalog(7, [], RepeatedMovies());
    RepeatedMoviesAllIds();
  }

  /** Scoring by negated id keeps movie 1 alone when `n = 1`. */
  lemma RepeatedMoviesTop()
    ensures Top(Predict(7, [1, 2], ByNegatedIdScore), 1) == [Prediction(7, 1, -1.0)]
  {
    var p1, p2 := Prediction(7, 1, -1.0), Prediction(7, 2, -2.0);
    assert Predict(7, [1, 2], ByNegatedIdScore) == [p1, p2] by {
      assert [1, 2][1..] == [2];
    }
    SortTwo(p1, p2);
    assert Top([p1, p2], 1) == [p1];
  }

  /** Only movie 1 is kept. */
  lemma RepeatedMoviesKept()
    ensures KeptIds(TopPredictions(7, [], RepeatedMovies(), ByNegatedIdScore, 1)) == [1]
  {
    RepeatedMoviesCandidates();
    RepeatedMoviesTop();
    assert KeptIds([Prediction(7, 1, -1.0)]) == [1];
  }

  /** Both rows with id 1 survive the join. */
  lemma RepeatedMoviesJoin()
    ensures Filter(RepeatedMovies(), (m: Movie) => m.movieId in [1]) == [Movie(1, "A"), Movie(1, "A (again)")]
  {
    var movies := RepeatedMovies();
    var keep := (m: Movie) => m.movieId in [1];
    assert movies[2..] == [Movie(2, "B")];
    assert movies[2..][1..] == [];
    assert Filter(movies[2..], keep) == [];
    assert movies[1..] == [Movie(1, "A (again)")] + movies[2..];
    assert Filter(movies[1..], keep) == [Movie(1, "A (again)")];
  }

  /** A catalog that lists a movie id twice returns both rows: with `n = 1` one id is kept
      and the result has two rows. */
  lemma DuplicateIdsExceedCount()
    ensures KeptIds(TopPredictions(7, [], RepeatedMovies(), ByNegatedIdScore, 1)) == [1]
    ensures RecommendMoviesForUser(7, [], RepeatedMovies(), ByNegatedIdScore, 1) == [Movie(1, "A"), Movie(1, "A (again)")]
  {
    RepeatedMoviesKept();
    RepeatedMoviesJoin();
  }
}
