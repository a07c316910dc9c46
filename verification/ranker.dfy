/**
  The ranking loop of the search handler: each document's `(path, rank)`
  pair is pushed onto `rank_array`, which is then stable-sorted by
  descending rank.  Because the array was already sorted before the push,
  the stable sort only moves the new pair: it lands after every pair
  whose rank is at least its own and before every pair ranked lower.
*/
module Ranker {

  type Scored = (string, real)

  ghost predicate SortedDesc(s: seq<Scored>) {
    forall i, j | 0 <= i < j < |s| :: s[i].1 >= s[j].1
  }

  /** The pairs of `s` whose rank is `v`, in their order in `s`.  A sort
      is stable when this subsequence is the same before and after. */
  function Ties(s: seq<Scored>, v: real): seq<Scored>
    decreases |s|
  {
    if s == [] then []
    else Ties(s[..|s| - 1], v) + (if s[|s| - 1].1 == v then [s[|s| - 1]] else [])
  }

  /** Where a stable descending sort puts a pair ranked `score` that
      follows the already sorted `sorted`. */
  function Position(sorted: seq<Scored>, score: real): (k: nat)
    requires SortedDesc(sorted)
    ensures k <= |sorted|
    ensures forall i | 0 <= i < k :: sorted[i].1 >= score
    ensures forall i | k <= i < |sorted| :: sorted[i].1 < score
    decreases |sorted|
  {
    if sorted == [] || sorted[|sorted| - 1].1 >= score then |sorted|
    else Position(sorted[..|sorted| - 1], score)
  }

  /** `rank_array.push(x); rank_array.sort_by(descending)` on a sorted
      array: the result is sorted, is the old array plus `x`, and keeps
      every tie group in arrival order with `x` last in its group. */
  function Insert(sorted: seq<Scored>, x: Scored): (r: seq<Scored>)
    requires SortedDesc(sorted)
    ensures |r| == |sorted| + 1
    ensures SortedDesc(r)
    ensures multiset(r) == multiset(sorted) + multiset{x}
    ensures multiset(Paths(r)) == multiset(Paths(sorted)) + multiset{x.0}
    ensures forall v :: Ties(r, v) == Ties(sorted, v) + (if x.1 == v then [x] else [])
  {
    var k := Position(sorted, x.1);
    InsertSorted(sorted, k, x);
    InsertTies(sorted, k, x);
    InsertKeeps(sorted, k, x);
    sorted[..k] + [x] + sorted[k..]
  }

  /** Splicing `x` in at `k` adds exactly `x`, and its path. */
  lemma InsertKeeps(sorted: seq<Scored>, k: nat, x: Scored)
    requires k <= |sorted|
    ensures multiset(sorted[..k] + [x] + sorted[k..]) == multiset(sorted) + multiset{x}
    ensures multiset(Paths(sorted[..k] + [x] + sorted[k..])) == multiset(Paths(sorted)) + multiset{x.0}
  {
    assert sorted == sorted[..k] + sorted[k..];
    SpliceKeeps(sorted[..k], x, sorted[k..]);
  }

  lemma SpliceKeeps(a: seq<Scored>, x: Scored, b: seq<Scored>)
    ensures multiset(a + [x] + b) == multiset(a + b) + multiset{x}
    ensures multiset(Paths(a + [x] + b)) == multiset(Paths(a + b)) + multiset{x.0}
  {
    PathsAppend(a + [x], b);
    PathsAppend(a, [x]);
    PathsAppend(a, b);
  }

  lemma InsertSorted(sorted: seq<Scored>, k: nat, x: Scored)
    requires SortedDesc(sorted)
    requires k <= |sorted|
    requires forall i | 0 <= i < k :: sorted[i].1 >= x.1
    requires forall i | k <= i < |sorted| :: sorted[i].1 < x.1
    ensures SortedDesc(sorted[..k] + [x] + sorted[k..])
  {
  }

  lemma InsertTies(sorted: seq<Scored>, k: nat, x: Scored)
    requires k <= |sorted|
    requires forall i | k <= i < |sorted| :: sorted[i].1 < x.1
    ensures forall v :: Ties(sorted[..k] + [x] + sorted[k..], v)
                     == Ties(sorted, v) + (if x.1 == v then [x] else [])
  {
    assert sorted == sorted[..k] + sorted[k..];
    forall v
      ensures Ties(sorted[..k] + [x] + sorted[k..], v)
           == Ties(sorted, v) + (if x.1 == v then [x] else [])
    {
      TiesAround(sorted[..k], x, sorted[k..], v);
    }
  }

  /** Ties of `a + [x] + b` when everything in `b` ranks below `x`. */
  lemma TiesAround(a: seq<Scored>, x: Scored, b: seq<Scored>, v: real)
    requires forall i | 0 <= i < |b| :: b[i].1 < x.1
    ensures Ties(a + [x] + b, v) == Ties(a + b, v) + (if x.1 == v then [x] else [])
  {
    TiesAppend(a + [x], b, v);
    TiesAppend(a, [x], v);
    TiesAppend(a, b, v);
    assert Ties([x], v) == (if x.1 == v then [x] else []) by {
      assert [x][..0] == [];
    }
    if x.1 == v {
      TiesNone(b, v);
    }
  }

  lemma {:induction false} TiesAppend(a: seq<Scored>, b: seq<Scored>, v: real)
    ensures Ties(a + b, v) == Ties(a, v) + Ties(b, v)
    decreases |b|
  {
    if b == [] {
      assert a + b == a;
    } else {
      var b' := b[..|b| - 1];
      assert (a + b)[..|a + b| - 1] == a + b';
      TiesAppend(a, b', v);
    }
  }

  lemma {:induction false} TiesNone(s: seq<Scored>, v: real)
    requires forall i | 0 <= i < |s| :: s[i].1 < v
    ensures Ties(s, v) == []
    decreases |s|
  {
    if s != [] {
      TiesNone(s[..|s| - 1], v);
    }
  }

  /** The whole loop over the index's scored entries: the result is a
      permutation of the input, sorted by non-increasing rank, and every
      group of equal ranks keeps the input's order (a stable sort). */
  method Rank(scored: seq<Scored>) returns (ranked: seq<Scored>)
    ensures |ranked| == |scored|
    ensures StableSortOf(ranked, scored)
  {
    ranked := [];
    for i := 0 to |scored|
      invariant |ranked| == i
      invariant StableSortOf(ranked, scored[..i])
    {
      assert scored[..i + 1] == scored[..i] + [scored[i]];
      RankStep(ranked, scored[..i], scored[i]);
      ranked := Insert(ranked, scored[i]);
    }
    assert scored[..|scored|] == scored;
  }

  /** `ranked` is `arrived` stable-sorted by descending rank: the same
      pairs (and so the same paths), sorted by non-increasing rank, with
      every tie group in arrival order. */
  ghost predicate StableSortOf(ranked: seq<Scored>, arrived: seq<Scored>) {
    && multiset(ranked) == multiset(arrived)
    && multiset(Paths(ranked)) == multiset(Paths(arrived))
    && SortedDesc(ranked)
    && forall v :: Ties(ranked, v) == Ties(arrived, v)
  }

  /** One iteration of the ranking loop keeps the array the stable sort
      of what has arrived. */
  lemma RankStep(ranked: seq<Scored>, arrived: seq<Scored>, x: Scored)
    requires StableSortOf(ranked, arrived)
    ensures StableSortOf(Insert(ranked, x), arrived + [x])
  {
    PathsAppend(arrived, [x]);
    var arrived' := arrived + [x];
    forall v
      ensures Ties(arrived', v) == Ties(arrived, v) + (if x.1 == v then [x] else [])
    {
      TiesSnoc(arrived, x, v);
    }
  }

  lemma TiesSnoc(s: seq<Scored>, x: Scored, v: real)
    ensures Ties(s + [x], v) == Ties(s, v) + (if x.1 == v then [x] else [])
  {
    assert (s + [x])[..|s|] == s;
  }

  lemma {:induction false} TiesMember(s: seq<Scored>, v: real, x: Scored)
    requires x in Ties(s, v)
    ensures x in s && x.1 == v
    decreases |s|
  {
    var s' := s[..|s| - 1];
    if x in Ties(s', v) {
      TiesMember(s', v, x);
    }
  }

  /** The last pair of a non-empty list is the last of its tie group. */
  lemma TiesLast(s: seq<Scored>)
    requires s != []
    ensures Ties(s, s[|s| - 1].1) != []
    ensures Ties(s, s[|s| - 1].1)[|Ties(s, s[|s| - 1].1)| - 1] == s[|s| - 1]
  {
  }

  /** Lists with the same tie groups and the same last pair still have
      the same tie groups without it. */
  lemma TiesDropLastAt(a: seq<Scored>, b: seq<Scored>, v: real)
    requires a != [] && b != [] && a[|a| - 1] == b[|b| - 1]
    requires Ties(a, v) == Ties(b, v)
    ensures Ties(a[..|a| - 1], v) == Ties(b[..|b| - 1], v)
  {
    var ta, tb := Ties(a[..|a| - 1], v), Ties(b[..|b| - 1], v);
    var x := a[|a| - 1];
    var tail := if x.1 == v then [x] else [];
    assert ta + tail == tb + tail;
    assert ta == (ta + tail)[..|ta|];
    assert tb == (tb + tail)[..|tb|];
  }

  /** A stable descending order is unique: two sorted lists with the same
      tie groups are equal.  So the ranking is fully determined by the
      scores and the index's enumeration order. */
  lemma {:induction false} StableOrderUnique(a: seq<Scored>, b: seq<Scored>)
    requires SortedDesc(a) && SortedDesc(b)
    requires forall v :: Ties(a, v) == Ties(b, v)
    ensures a == b
    decreases |a| + |b|
  {
    if a == [] && b == [] {
      return;
    }
    if a == [] {
      TiesLast(b);
      assert false;
    }
    if b == [] {
      TiesLast(a);
      assert false;
    }
    SameLast(a, b);
    var a', b' := a[..|a| - 1], b[..|b| - 1];
    forall v
      ensures Ties(a', v) == Ties(b', v)
    {
      TiesDropLastAt(a, b, v);
    }
    StableOrderUnique(a', b');
    assert a == a' + [a[|a| - 1]] && b == b' + [b[|b| - 1]];
  }

  /** `r` orders the pairs of `scored` as a stable descending sort does:
      sorted, with every tie group in the order of `scored`. */
  ghost predicate RanksStably(r: seq<Scored>, scored: seq<Scored>) {
    && SortedDesc(r)
    && forall v :: Ties(r, v) == Ties(scored, v)
  }

  /** The stable ranking of `scored` is the only one. */
  lemma StableRankingUnique(ranking: seq<Scored>, scored: seq<Scored>)
    requires RanksStably(ranking, scored)
    ensures forall r | RanksStably(r, scored) :: r == ranking
  {
    forall r | RanksStably(r, scored)
      ensures r == ranking
    {
      StableOrderUnique(r, ranking);
    }
  }

  /** Sorted lists with the same tie groups end with the same pair: both
      end with the lowest rank, and with that rank's last arrival. */
  lemma SameLast(a: seq<Scored>, b: seq<Scored>)
    requires a != [] && b != []
    requires SortedDesc(a) && SortedDesc(b)
    requires forall v :: Ties(a, v) == Ties(b, v)
    ensures a[|a| - 1] == b[|b| - 1]
  {
    var la, lb := a[|a| - 1], b[|b| - 1];
    LastRankBelow(a, b, Ties(a, la.1));
    LastRankBelow(b, a, Ties(b, lb.1));
    TiesLast(a);
    TiesLast(b);
  }

  /** If the tie group of `a`'s last rank is the same in sorted `b`, then
      `b` ends no higher than that rank. */
  lemma LastRankBelow(a: seq<Scored>, b: seq<Scored>, t: seq<Scored>)
    requires a != [] && b != [] && SortedDesc(b)
    requires t == Ties(a, a[|a| - 1].1) == Ties(b, a[|a| - 1].1)
    ensures b[|b| - 1].1 <= a[|a| - 1].1
  {
    TiesLast(a);
    TiesMember(b, a[|a| - 1].1, t[|t| - 1]);
  }

  /** The paths of a ranking, as `rank_array.iter().map(|(s, c)| s)`. */
  function Paths(s: seq<Scored>): (ps: seq<string>)
    ensures |ps| == |s|
    ensures forall i | 0 <= i < |s| :: ps[i] == s[i].0
  {
    seq(|s|, i requires 0 <= i < |s| => s[i].0)
  }

  lemma PathsAppend(a: seq<Scored>, b: seq<Scored>)
    ensures Paths(a + b) == Paths(a) + Paths(b)
  {
  }

  /** When every pair has rank `v`, the tie group of `v` is everything. */
  lemma {:induction false} TiesOfLevel(s: seq<Scored>, v: real)
    requires forall i | 0 <= i < |s| :: s[i].1 == v
    ensures Ties(s, v) == s
    decreases |s|
  {
    if s != [] {
      TiesOfLevel(s[..|s| - 1], v);
    }
  }

  /** A stable sort of pairs that all rank `v` changes nothing. */
  lemma LevelKeepsOrder(scored: seq<Scored>, ranked: seq<Scored>, v: real)
    requires forall k | 0 <= k < |scored| :: scored[k].1 == v
    requires multiset(ranked) == multiset(scored)
    requires forall w :: Ties(ranked, w) == Ties(scored, w)
    ensures ranked == scored
  {
    forall k | 0 <= k < |ranked|
      ensures ranked[k].1 == v
    {
      assert ranked[k] in multiset(scored);
    }
    TiesOfLevel(ranked, v);
    TiesOfLevel(scored, v);
  }
}
