# Movie recommendation pipeline: a Dafny model

This project models `recommend_movies_for_user` from the film-recommender web app
(`app.py:17-28`). Given a user id, the ratings table, the movie catalog, a rating model and a
count `n`, the function:

1. takes the catalog's distinct movie ids in order of first appearance (`unique()`);
2. collects the ids of the movies the user has rated;
3. keeps the catalog ids the user has not rated (the *candidates*);
4. asks the rating model for one prediction per candidate, sorts the predictions by estimated
   rating, highest first, and keeps the first `n`;
5. returns the catalog rows whose id is among the kept ids.

The tables are sequences of records: `Rating(userId, movieId, rating)` and
`Movie(movieId, title)`. The catalog keeps only the two columns the result carries. The trained
SVD model is a scoring function parameter `score: (int, int) -> real`, read as
`model.predict(user, movie).est`. A prediction is `Prediction(uid, iid, est)`.

Modules:

- `Seqs` (`seqs.dfy`): first-seen de-duplication (`Unique`), order-preserving filtering
  (`Filter`), sub-sequences, and Python's prefix slice `s[:n]` (`Prefix`), including
  negative `n`.
- `Ranking` (`ranking.dfy`): Python's `sorted(..., key=est, reverse=True)`. It is an insertion
  sort (`SortDesc`) that is proved to be a permutation, non-increasing and stable.
  `SortDescUnique` proves that it is the only stable descending sort. `Top` is the sort
  followed by the `[:n]` cut.
- `Recommender` (`recommender.dfy`): the five steps above and the properties of the whole
  function.
- `Scenarios` (`scenarios.dfy`): worked examples, lemmas about fixed inputs, including two quirks
  of the code.

The system's intended design asks for results in score order, at most `n` entries, rejection
of unknown users and of `n <= 0`, and ties broken by ascending movie id. The code does none of
these, and the model follows the code:

- The result is in **catalog order**, not score order. The final step filters the catalog with
  `isin`, so the ranking is lost (`Scenarios.ResultInCatalogOrder`).
- The result is capped at `n` rows only when the catalog ids are distinct. A catalog that
  repeats an id returns every row with that id (`Scenarios.DuplicateIdsExceedCount`,
  `Recommender.DistinctCatalogCapsResult`).
- An unknown user is not rejected. Such a user has no ratings, so every catalog movie is a
  candidate (`Recommender.UnknownUserSeesWholeCatalog`).
- `n` is not validated. A negative `n` follows Python slicing and drops `-n` predictions from
  the end of the sorted list.
- Ties in the estimate keep candidate (catalog first-appearance) order, because Python's sort is
  stable. They are not broken by movie id.

## Model

| member | source | states |
|---|---|---|
| `Recommender.IdColumn` | app.py:18 | The `movieId` column: one id per catalog row, in row order; an id occurs in it exactly when some catalog row has it. |
| `Seqs.Unique` | app.py:18 | `unique()`: no repetitions, exactly the elements of the input, ordered by position of first occurrence. |
| `Recommender.AllMovieIds` | app.py:18 | The catalog ids: each catalog id exactly once, ordered by first appearance in the catalog. |
| `Recommender.WatchedMovieIds` | app.py:19 | One id per rating row of this user, in table order (the `i`-th id is the movie of the user's `i`-th rating row); so an id is in the list exactly when the user has a rating row for it, and the list is no longer than the table. |
| `Seqs.Filter` | app.py:20 | A list comprehension with a condition or a boolean row mask: an element is kept exactly when the condition holds, with its multiplicity, in input order (a sub-sequence of the input). |
| `Recommender.UnseenMovieIds` | app.py:20 | An id is kept exactly when it is in the catalog ids and not in the rated ids, with all its copies (counts), in input order. |
| `Seqs.SubseqKeepsOrder` | app.py:20 | An order-preserving filter keeps any strictly increasing ranking of the input, so candidates stay in catalog first-appearance order. |
| `Recommender.Candidates` | app.py:18-20 | The candidates are exactly the catalog ids the user has not rated, with no duplicates, in catalog first-appearance order. |
| `Recommender.DefaultCount` | app.py:17 | The count used when the caller gives none: 10. |
| `Recommender.DefaultCallKeepsTen` | app.py:17-26 | Called without a count, the function keeps `min(10, #candidates)` predictions, and with distinct catalog ids returns at most 10 rows. |
| `Recommender.Predict` | app.py:22 | Exactly one prediction per candidate, in candidate order, each carrying the user, the movie and the model's estimate for that pair. |
| `Ranking.Insert` | app.py:23 | Inserting into a list adds exactly one entry (multiset) and keeps a non-increasing list non-increasing. |
| `Ranking.SortDesc` | app.py:23 | `sorted(..., reverse=True)` by estimate: same length, a permutation of the input, non-increasing. |
| `Ranking.InsertKeepsTies` | app.py:23 | The inserted entry goes ahead of every entry it ties with. |
| `Ranking.SortDescStable` | app.py:23 | Stability: for every estimate value, the entries with that estimate leave the sort in the order they entered it. |
| `Ranking.SortDescDistinct` | app.py:23 | Sorting predictions for distinct movies gives predictions for distinct movies. |
| `Ranking.SortedTiesDetermine` | app.py:23 | Two non-increasing lists with the same entries per estimate, in the same order, are equal. |
| `Ranking.SortDescUnique` | app.py:23 | Any non-increasing list that keeps each group of ties in input order is exactly `SortDesc` of the input: the model is the stable descending sort. |
| `Seqs.Prefix` | app.py:23 | Python's `[:n]`: a prefix of length `min(n, len)` for `n >= 0`, and `max(0, len + n)` for negative `n`. |
| `Ranking.CutOfSorted` | app.py:23 | Cutting a non-increasing list keeps it non-increasing, and nothing cut off beats anything kept. |
| `Ranking.SortedPrefixIsTop` | app.py:23 | The first `k` sorted entries are non-increasing, and no entry of the input outside them beats any entry inside them. |
| `Ranking.SortedPrefixStable` | app.py:23 | Among the first `k` sorted entries, those with a given estimate are the first ones of the input with that estimate, in input order. |
| `Ranking.CutCounts` | app.py:23 | Cutting a non-increasing list keeps a sub-multiset, and every copy cut off scores no higher than anything kept. |
| `Ranking.SortedPrefixCounts` | app.py:23 | The first `k` sorted entries are a sub-multiset of the input, and any copy of an input entry left out scores no higher than any entry kept. |
| `Ranking.Top` | app.py:23 | Sorted-then-sliced: it is the first entries of the stable descending sort, with length per Python slicing; non-increasing; a sub-multiset of the input; every copy left out (counted with multiplicity) scores no higher than anything kept; ties in input order; distinct movies stay distinct. |
| `Recommender.TopOfDistinctIds` | app.py:22-23 | Distinct ids give kept predictions that name distinct movies. |
| `Recommender.TopOfPredictions` | app.py:22-23 | Every kept prediction is the model's prediction for this user and one of the ids. |
| `Recommender.TopLeavesOutLower` | app.py:22-23 | Top-`n` selection: an id whose prediction was not kept scores no higher than any kept prediction. |
| `Recommender.TopPredictions` | app.py:22-23 | The kept list has `min(n, #candidates)` entries (for `n >= 0`), is non-increasing, holds only candidates' own predictions, leaves out nothing that beats a kept entry, keeps ties in candidate order, and names distinct movies. |
| `Recommender.KeptIds` | app.py:25 | `[pred.iid for pred in top]`: one id per kept prediction, same order. |
| `Recommender.RecommendMoviesForUser` | app.py:17-28 | Every returned row is a catalog row for a movie the user has not rated; a catalog row is returned exactly when its id was kept, with all its copies, in catalog order. |
| `Recommender.UnknownUserSeesWholeCatalog` | app.py:19-20 | A user with no rating rows is not rejected: the candidates are all catalog ids, in catalog order. |
| `Recommender.RatedEverythingNoCandidates` | app.py:19-20 | A user who rated every catalog movie has no candidates. |
| `Recommender.RatedEverythingGivesNothing` | app.py:19-26 | A user who rated every catalog movie has no candidates and gets an empty result, without error, for any `n`. |
| `Recommender.EveryKeptMovieReturned` | app.py:25-26 | Every kept id comes back as at least one catalog row, so the ids in the result are exactly the kept ids. |
| `Recommender.JoinCount` | app.py:26 | With distinct catalog ids, filtering by a set of catalog ids returns exactly one row per id in the set. |
| `Recommender.DistinctCatalogCapsResult` | app.py:23-26 | With distinct catalog ids the result has exactly one row per kept prediction, so at most `n` rows. |
| `Scenarios.OnlyUnratedMovieRecommended` | app.py:17-28 | User 1 rated movies 10 and 20 of the catalog {10, 20, 30}: the only candidate is 30 and the result is the row for movie 30, whatever the scores. |
| `Scenarios.ResultInCatalogOrder` | app.py:23-26 | Movie 2 is ranked above movie 1, yet the result lists movie 1 first: the output follows the catalog, not the ranking. |
| `Scenarios.DuplicateIdsExceedCount` | app.py:23-26 | With `n = 1` and a catalog that lists movie 1 twice, one id is kept and two rows are returned. |

## Left out

- The rating model's internals (`app.py:14`, `app.py:22`): the SVD model's `predict` is a
  score parameter. Floating-point estimates are modelled as exact reals. Only their order
  matters to the pipeline. The prediction's other fields (true rating, details) are not
  modelled.
- Loading of `data/ratings.csv`, `data/movies.csv` and `models/svd_model.joblib`
  (`app.py:10-14`): file I/O. The tables arrive as sequences.
- The Flask route, `jsonify` and the mapping of any exception to HTTP 500 (`app.py:1`, `7`,
  `31-41`): web plumbing. The model has no error path, because the function raises none on
  well-formed tables.
- `to_dict(orient="records")` (`app.py:28`): the result is a sequence of `Movie` records with
  the same two fields.
- The catalog's other columns (genres): the model reads only `movieId` and `title`. The
  column selection `[['movieId', 'title']]` is therefore the identity.
- pandas missing values (NaN ids) and numeric type conversions: ids are plain integers.
- `predict.py`, the training script: CSV loading, label encoding, the train/test split, the
  TensorFlow embedding model and file saves. predict.py is not part of this model.
- A second scoring backend, user profile summaries, rejection of unknown users or of `n <= 0`,
  rounding of estimates and tie-breaking by movie id: the code does not do any of these.
