/** Ranking of predictions: Python's `sorted(predictions, key=lambda x: x.est, reverse=True)`,
    which is a stable sort by descending estimate, and the top-`n` cut that follows it. */
module Ranking {
  import opened Seqs

  /** One prediction of the rating model: the user, the movie (`iid`) and the estimated rating. */
  datatype Prediction = Prediction(uid: int, iid: int, est: real)

  /** Estimates never increase along `s`. */
  ghost predicate NonIncreasing(s: seq<Prediction>) {
    forall i, j :: 0 <= i < j < |s| ==> s[i].est >= s[j].est
  }

  /** The entries of `s` whose estimate is exactly `v`, in the order of `s`:
      a stable sort must leave this sub-sequence unchanged for every `v`. */
  function WithEst(s: seq<Prediction>, v: real): (r: seq<Prediction>)
    ensures forall p :: p in r <==> p in s && p.est == v
  {
    if s == [] then []
    else if s[0].est == v then [s[0]] + WithEst(s[1..], v)
    else WithEst(s[1..], v)
  }

  /** Prepending an entry no lower than the current head keeps estimates non-increasing. */
  lemma SortedCons(x: Prediction, t: seq<Prediction>)
    requires NonIncreasing(t)
    requires t == [] || x.est >= t[0].est
    ensures NonIncreasing([x] + t)
  {
    forall i, j | 0 <= i < j < |[x] + t| ensures ([x] + t)[i].est >= ([x] + t)[j].est {
      if i == 0 && j > 1 {
        assert t[0].est >= t[j - 1].est;
      }
    }
  }

  /** Puts `p` in front of the first entry of `s` whose estimate is not above its own,
      so that `p` stays ahead of the entries it ties with. */
  function Insert(p: Prediction, s: seq<Prediction>): (r: seq<Prediction>)
    ensures |r| == |s| + 1
    ensures r[0] == p || (s != [] && r[0] == s[0])
    ensures multiset(r) == multiset(s) + multiset{p}
    ensures NonIncreasing(s) ==> NonIncreasing(r)
  {
    if s == [] || s[0].est <= p.est then
      assert NonIncreasing(s) ==> NonIncreasing([p] + s) by {
        if NonIncreasing(s) {
          SortedCons(p, s);
        }
      }
      [p] + s
    else
      assert s == [s[0]] + s[1..];
      var rest := Insert(p, s[1..]);
      assert NonIncreasing(s) ==> NonIncreasing([s[0]] + rest) by {
        if NonIncreasing(s) {
          SortedCons(s[0], rest);
        }
      }
      [s[0]] + rest
  }

  /** Stable sort by descending estimate (insertion sort). */
  function SortDesc(s: seq<Prediction>): (r: seq<Prediction>)
    ensures |r| == |s|
    ensures multiset(r) == multiset(s)
    ensures NonIncreasing(r)
  {
    if s == [] then []
    else
      assert s == [s[0]] + s[1..];
      Insert(s[0], SortDesc(s[1..]))
  }

  /** Inserting `p` keeps it ahead of every entry it ties with. */
  lemma {:induction false} InsertKeepsTies(p: Prediction, s: seq<Prediction>, v: real)
    ensures WithEst(Insert(p, s), v) == WithEst([p] + s, v)
  {
    if s != [] && s[0].est > p.est {
      InsertKeepsTies(p, s[1..], v);
      assert ([s[0]] + Insert(p, s[1..]))[1..] == Insert(p, s[1..]);
      assert ([p] + s)[1..] == s;
      assert ([p] + s[1..])[1..] == s[1..];
    }
  }

  /** Stability: for every estimate `v`, the entries with estimate `v` come out of the sort in
      the order they went in. */
  lemma {:induction false} SortDescStable(s: seq<Prediction>, v: real)
    ensures WithEst(SortDesc(s), v) == WithEst(s, v)
  {
    if s != [] {
      SortDescStable(s[1..], v);
      InsertKeepsTies(s[0], SortDesc(s[1..]), v);
      assert ([s[0]] + SortDesc(s[1..]))[1..] == SortDesc(s[1..]);
    }
  }

  /** Filtering a sequence that starts with `x`. */
  lemma WithEstCons(x: Prediction, t: seq<Prediction>, v: real)
    ensures WithEst([x] + t, v) == if x.est == v then [x] + WithEst(t, v) else WithEst(t, v)
  {
    assert ([x] + t)[1..] == t;
  }

  /** A non-empty sequence has at least one entry with the estimate of its head. */
  lemma HeadHasTies(s: seq<Prediction>)
    ensures s != [] ==> WithEst(s, s[0].est) != []
  {
  }

  /** If the head of `a` also occurs among the entries of `b` with its estimate, the head of
      a non-increasing `b` is at least as high. */
  lemma HeadNotLower(a: seq<Prediction>, b: seq<Prediction>)
    requires NonIncreasing(b) && a != [] && b != []
    requires WithEst(a, a[0].est) == WithEst(b, a[0].est)
    ensures b[0].est >= a[0].est
  {
    assert a[0] in WithEst(a, a[0].est);
    var i :| 0 <= i < |b| && b[i] == a[0];
  }

  /** Heads with equal estimates: dropping them keeps the entries per estimate equal, and
      the heads themselves must be the same entry. */
  lemma DropTiedHead(a: seq<Prediction>, b: seq<Prediction>, v: real)
    requires a != [] && b != [] && a[0].est == b[0].est
    requires WithEst(a, v) == WithEst(b, v)
    ensures WithEst(a[1..], v) == WithEst(b[1..], v)
    ensures v == a[0].est ==> a[0] == b[0]
  {
    assert a == [a[0]] + a[1..] && b == [b[0]] + b[1..];
    WithEstCons(a[0], a[1..], v);
    WithEstCons(b[0], b[1..], v);
    if v == a[0].est {
      assert ([a[0]] + WithEst(a[1..], v))[1..] == WithEst(a[1..], v);
      assert ([b[0]] + WithEst(b[1..], v))[1..] == WithEst(b[1..], v);
    }
  }

  /** Two non-increasing sequences with the same entries per estimate, in the same order, are equal. */
  lemma {:induction false} SortedTiesDetermine(a: seq<Prediction>, b: seq<Prediction>)
    requires NonIncreasing(a) && NonIncreasing(b)
    requires forall v :: WithEst(a, v) == WithEst(b, v)
    ensures a == b
  {
    if a != [] && b != [] {
      HeadNotLower(a, b);
      HeadNotLower(b, a);
      DropTiedHead(a, b, a[0].est);
      forall v ensures WithEst(a[1..], v) == WithEst(b[1..], v) {
        DropTiedHead(a, b, v);
      }
      assert NonIncreasing(a[1..]) && NonIncreasing(b[1..]);
      SortedTiesDetermine(a[1..], b[1..]);
      assert a == [a[0]] + a[1..] && b == [b[0]] + b[1..];
    } else {
      HeadHasTies(a);
      HeadHasTies(b);
    }
  }

  /** `SortDesc` is the only stable descending sort: any non-increasing arrangement of `s` that
      keeps each group of tied entries in their input order is `SortDesc(s)`. */
  lemma SortDescUnique(s: seq<Prediction>, r: seq<Prediction>)
    requires NonIncreasing(r)
    requires forall v :: WithEst(r, v) == WithEst(s, v)
    ensures r == SortDesc(s)
  {
    forall v ensures WithEst(r, v) == WithEst(SortDesc(s), v) {
      SortDescStable(s, v);
    }
    SortedTiesDetermine(r, SortDesc(s));
  }

  /** Filtering a prefix by estimate gives a prefix of the filtered whole. */
  lemma {:induction false} WithEstOfPrefix(s: seq<Prediction>, k: nat, v: real)
    requires k <= |s|
    ensures WithEst(s[..k], v) <= WithEst(s, v)
  {
    if k > 0 {
      WithEstOfPrefix(s[1..], k - 1, v);
      assert s[..k][1..] == s[1..][..k - 1];
    }
  }

  /** Sorting neither adds nor loses entries. */
  lemma SortDescMembers(s: seq<Prediction>)
    ensures forall q :: q in SortDesc(s) <==> q in s
  {
    forall q ensures q in SortDesc(s) <==> q in s {
      assert q in SortDesc(s) <==> q in multiset(SortDesc(s));
    }
  }

  /** No movie is predicted twice. */
  ghost predicate DistinctMovies(s: seq<Prediction>) {
    forall i, j :: 0 <= i < j < |s| ==> s[i].iid != s[j].iid
  }

  /** Inserting a prediction for a new movie keeps the movies distinct. */
  lemma {:induction false} InsertDistinct(p: Prediction, s: seq<Prediction>)
    requires DistinctMovies(s)
    requires forall q :: q in s ==> q.iid != p.iid
    ensures DistinctMovies(Insert(p, s))
  {
    if s != [] && s[0].est > p.est {
      var rest := Insert(p, s[1..]);
      InsertDistinct(p, s[1..]);
      forall q | q in rest ensures q.iid != s[0].iid {
        assert q in multiset(rest);
        if q != p {
          assert q in s[1..];
        }
      }
      assert Insert(p, s) == [s[0]] + rest;
    }
  }

  /** Sorting keeps the movies distinct. */
  lemma {:induction false} SortDescDistinct(s: seq<Prediction>)
    requires DistinctMovies(s)
    ensures DistinctMovies(SortDesc(s))
  {
    if s != [] {
      SortDescDistinct(s[1..]);
      SortDescMembers(s[1..]);
      InsertDistinct(s[0], SortDesc(s[1..]));
    }
  }

  /** Cutting a non-increasing sequence leaves nothing behind that beats anything kept. */
  lemma CutOfSorted(t: seq<Prediction>, k: nat)
    requires NonIncreasing(t) && k <= |t|
    ensures NonIncreasing(t[..k])
    ensures forall p, q :: p in t && p !in t[..k] && q in t[..k] ==> p.est <= q.est
  {
    forall p, q | p in t && p !in t[..k] && q in t[..k] ensures p.est <= q.est {
      var i :| 0 <= i < |t| && t[i] == p;
      var j :| 0 <= j < k && t[..k][j] == q;
    }
  }

  /** The first `k` sorted entries all come from `s`. */
  lemma SortedPrefixMembers(s: seq<Prediction>, k: nat)
    requires k <= |s|
    ensures forall q :: q in SortDesc(s)[..k] ==> q in s
  {
    SortDescMembers(s);
  }

  /** Nothing of `s` outside the first `k` sorted entries beats anything inside them. */
  lemma SortedPrefixIsTop(s: seq<Prediction>, k: nat)
    requires k <= |s|
    ensures NonIncreasing(SortDesc(s)[..k])
    ensures forall p, q :: p in s && p !in SortDesc(s)[..k] && q in SortDesc(s)[..k] ==> p.est <= q.est
  {
    SortDescMembers(s);
    CutOfSorted(SortDesc(s), k);
  }

  /** The first `k` sorted entries with estimate `v` are the first entries of `s` with estimate `v`. */
  lemma SortedPrefixStable(s: seq<Prediction>, k: nat)
    requires k <= |s|
    ensures forall v :: WithEst(SortDesc(s)[..k], v) <= WithEst(s, v)
  {
    forall v ensures WithEst(SortDesc(s)[..k], v) <= WithEst(s, v) {
      WithEstOfPrefix(SortDesc(s), k, v);
      SortDescStable(s, v);
    }
  }

  /** The first `k` sorted entries predict distinct movies when `s` does. */
  lemma SortedPrefixDistinct(s: seq<Prediction>, k: nat)
    requires k <= |s|
    ensures DistinctMovies(s) ==> DistinctMovies(SortDesc(s)[..k])
  {
    if DistinctMovies(s) {
      SortDescDistinct(s);
    }
  }

  /** Cutting a non-increasing sequence: any copy that is cut off scores no higher than
      anything kept. */
  lemma CutCounts(t: seq<Prediction>, k: nat)
    requires NonIncreasing(t) && k <= |t|
    ensures multiset(t[..k]) <= multiset(t)
    ensures forall p, q :: multiset(t[..k])[p] < multiset(t)[p] && q in t[..k] ==> p.est <= q.est
  {
    assert t == t[..k] + t[k..];
    forall p, q | multiset(t[..k])[p] < multiset(t)[p] && q in t[..k] ensures p.est <= q.est {
      assert p in multiset(t[k..]);
      var i :| k <= i < |t| && t[i] == p;
      var j :| 0 <= j < k && t[j] == q;
    }
  }

  /** The first `k` sorted entries are taken from `s` with their multiplicities, and any copy
      of an entry of `s` that is cut off scores no higher than anything kept. */
  lemma SortedPrefixCounts(s: seq<Prediction>, k: nat)
    requires k <= |s|
    ensures multiset(SortDesc(s)[..k]) <= multiset(s)
    ensures forall p, q :: multiset(SortDesc(s)[..k])[p] < multiset(s)[p] && q in SortDesc(s)[..k] ==>
      p.est <= q.est
  {
    CutCounts(SortDesc(s), k);
  }

  /** Everything `Top` promises, about a list `r` of the first sorted entries. */
  lemma SortedPrefixFacts(s: seq<Prediction>, r: seq<Prediction>)
    requires |r| <= |s| && r == SortDesc(s)[..|r|]
    ensures NonIncreasing(r)
    ensures forall q :: q in r ==> q in s
    ensures forall p, q :: p in s && p !in r && q in r ==> p.est <= q.est
    ensures multiset(r) <= multiset(s)
    ensures forall p, q :: multiset(r)[p] < multiset(s)[p] && q in r ==> p.est <= q.est
    ensures forall v :: WithEst(r, v) <= WithEst(s, v)
    ensures DistinctMovies(s) ==> DistinctMovies(r)
  {
    var k := |r|;
    SortedPrefixMembers(s, k);
    SortedPrefixIsTop(s, k);
    SortedPrefixStable(s, k);
    SortedPrefixDistinct(s, k);
    SortedPrefixCounts(s, k);
  }

  /** `sorted(s, key=est, reverse=True)[:n]`: the `n` best predictions, best first.
      Nothing left out beats anything kept, and tied entries keep their input order. */
  function Top(s: seq<Prediction>, n: int): (r: seq<Prediction>)
    ensures |r| == if n >= 0 then Min(n, |s|) else Max(0, |s| + n)
    ensures NonIncreasing(r)
    ensures forall q :: q in r ==> q in s
    ensures forall p, q :: p in s && p !in r && q in r ==> p.est <= q.est
    ensures multiset(r) <= multiset(s)
    ensures forall p, q :: multiset(r)[p] < multiset(s)[p] && q in r ==> p.est <= q.est
    ensures forall v :: WithEst(r, v) <= WithEst(s, v)
    ensures DistinctMovies(s) ==> DistinctMovies(r)
    ensures r <= SortDesc(s)
  {
    var r := Prefix(SortDesc(s), n);
    assert r == SortDesc(s)[..|r|];
    SortedPrefixFacts(s, r);
    r
  }
}
