/** Sequence operations that the recommendation pipeline is built from:
    first-seen de-duplication, filtering, sub-sequences and Python's prefix slice. */
module Seqs {

  /** No element occurs twice in `s`. */
  ghost predicate NoDups<T>(s: seq<T>) {
    forall i, j :: 0 <= i < j < |s| ==> s[i] != s[j]
  }

  /** `r` can be obtained from `s` by deleting elements: the order of `s` is kept. */
  ghost predicate IsSubseq<T>(r: seq<T>, s: seq<T>)
    decreases |s|
  {
    r == [] || (|s| > 0 && ((r[0] == s[0] && IsSubseq(r[1..], s[1..])) || IsSubseq(r, s[1..])))
  }

  /** Rank of `x` in `s`: the index of its first occurrence, or `|s|` when it does not occur. */
  function Position<T(==)>(s: seq<T>, x: T): (k: nat)
    ensures k <= |s|
    ensures k < |s| <==> x in s
    ensures k < |s| ==> s[k] == x
    ensures x !in s[..k]
  {
    if s == [] then 0
    else if s[0] == x then 0
    else
      var k' := Position(s[1..], x);
      assert s[..1 + k'] == [s[0]] + s[1..][..k'];
      1 + k'
  }

  /** The distinct elements of `s`, in the order of their first occurrence. */
  function Unique<T(==,!new)>(s: seq<T>): (r: seq<T>)
    ensures NoDups(r)
    ensures forall x :: x in r <==> x in s
    ensures forall i, j :: 0 <= i < j < |r| ==> Position(s, r[i]) < Position(s, r[j])
  {
    if s == [] then []
    else
      var init := s[..|s| - 1];
      var last := s[|s| - 1];
      var u := Unique(init);
      assert forall x :: x in init ==> Position(s, x) == Position(init, x) by {
        forall x | x in init ensures Position(s, x) == Position(init, x) {
          PositionInPrefix(s, |s| - 1, x);
        }
      }
      if last in u then u
      else
        assert s == init + [last];
        assert Position(s, last) == |s| - 1 by {
          PositionInPrefix(s, |s|, last);
          assert last !in s[..|s| - 1];
        }
        u + [last]
  }

  /** An element occurring in the first `p` entries has the same position there as in all of `s`. */
  lemma {:induction false} PositionInPrefix<T>(s: seq<T>, p: nat, x: T)
    requires p <= |s| && x in s
    ensures x in s[..p] ==> Position(s, x) == Position(s[..p], x)
    ensures x !in s[..p] ==> Position(s, x) >= p
  {
    var k := Position(s, x);
    if x in s[..p] {
      var k' := Position(s[..p], x);
      assert s[..p][..k'] == s[..k'];
    }
  }

  /** The entries of `s` satisfying `keep`, in the order of `s` and with their multiplicities. */
  function Filter<T(!new)>(s: seq<T>, keep: T -> bool): (r: seq<T>)
    ensures forall x :: x in r <==> x in s && keep(x)
    ensures forall x :: multiset(r)[x] == if keep(x) then multiset(s)[x] else 0
    ensures IsSubseq(r, s)
  {
    if s == [] then []
    else
      var rest := Filter(s[1..], keep);
      assert s == [s[0]] + s[1..];
      if keep(s[0]) then
        assert ([s[0]] + rest)[1..] == rest;
        [s[0]] + rest
      else rest
  }

  /** A filter that rejects nothing returns its input unchanged. */
  lemma {:induction false} FilterKeepsAll<T(!new)>(s: seq<T>, keep: T -> bool)
    requires forall x :: x in s ==> keep(x)
    ensures Filter(s, keep) == s
  {
    if s != [] {
      FilterKeepsAll(s[1..], keep);
      assert s == [s[0]] + s[1..];
    }
  }

  /** Filters that agree on the elements of `s` select the same entries. */
  lemma {:induction false} FilterCongruent<T(!new)>(s: seq<T>, f: T -> bool, g: T -> bool)
    requires forall x :: x in s ==> f(x) == g(x)
    ensures Filter(s, f) == Filter(s, g)
  {
    if s != [] {
      FilterCongruent(s[1..], f, g);
    }
  }

  /** A sequence without repetitions has as many elements as its set. */
  lemma {:induction false} DistinctCard<T(!new)>(s: seq<T>)
    requires NoDups(s)
    ensures |set x | x in s| == |s|
  {
    if s != [] {
      DistinctCard(s[1..]);
      assert (set x | x in s) == {s[0]} + (set x | x in s[1..]);
      assert s[0] !in s[1..];
    }
  }

  /** Every element of a sub-sequence occurs in the sequence. */
  lemma {:induction false} SubseqMembers<T>(r: seq<T>, s: seq<T>, x: T)
    requires IsSubseq(r, s) && x in r
    ensures x in s
    decreases |s|
  {
    if r[0] == s[0] && IsSubseq(r[1..], s[1..]) {
      if x != r[0] {
        SubseqMembers(r[1..], s[1..], x);
      }
    } else {
      SubseqMembers(r, s[1..], x);
    }
  }

  /** Entries that are strictly increasing in `rank` along `s` stay so along any sub-sequence of `s`. */
  lemma {:induction false} SubseqKeepsOrder<T>(r: seq<T>, s: seq<T>, rank: T -> int)
    requires IsSubseq(r, s)
    requires forall i, j :: 0 <= i < j < |s| ==> rank(s[i]) < rank(s[j])
    ensures forall i, j :: 0 <= i < j < |r| ==> rank(r[i]) < rank(r[j])
    decreases |s|
  {
    if r != [] {
      if r[0] == s[0] && IsSubseq(r[1..], s[1..]) {
        SubseqKeepsOrder(r[1..], s[1..], rank);
        forall j | 0 < j < |r| ensures rank(r[0]) < rank(r[j]) {
          SubseqMembers(r[1..], s[1..], r[j]);
          var k :| 0 <= k < |s[1..]| && s[1..][k] == r[j];
          assert s[k + 1] == r[j];
        }
      } else {
        SubseqKeepsOrder(r, s[1..], rank);
      }
    }
  }

  function Min(a: int, b: int): int { if a < b then a else b }

  function Max(a: int, b: int): int { if a < b then b else a }

  /** Python's slice `s[:n]`: the first `n` entries, or all of them when there are fewer;
      a negative `n` drops `-n` entries from the end instead. */
  function Prefix<T>(s: seq<T>, n: int): (r: seq<T>)
    ensures |r| == if n >= 0 then Min(n, |s|) else Max(0, |s| + n)
    ensures r <= s
  {
    if n >= |s| then s
    else if n >= 0 then s[..n]
    else if |s| + n >= 0 then s[..|s| + n]
    else []
  }
}
