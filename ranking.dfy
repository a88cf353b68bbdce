/**
 * `reversed(torch.argsort(scores))`: the action indices ordered from the
 * highest score to the lowest. Both move generators and the tree expansion
 * try candidates in this order. Equal scores keep the lower index first.
 */
module Ranking {

  /** Every entry of `order` indexes into `scores`. */
  predicate Indexes(order: seq<nat>, scores: seq<real>)
  {
    forall k :: 0 <= k < |order| ==> order[k] < |scores|
  }

  /** The scores along `order` never increase. */
  ghost predicate Descending(order: seq<nat>, scores: seq<real>)
    requires Indexes(order, scores)
  {
    forall a, b :: 0 <= a < b < |order| ==> scores[order[a]] >= scores[order[b]]
  }

  /** 0, 1, ..., n - 1. */
  function Range(n: nat): (r: seq<nat>)
    ensures |r| == n && forall k :: 0 <= k < n ==> r[k] == k
  {
    if n == 0 then [] else Range(n - 1) + [n - 1]
  }

  /** `order` lists each index of `scores` exactly once, from the highest score to the lowest. */
  ghost predicate IsRanking(order: seq<nat>, scores: seq<real>)
  {
    Indexes(order, scores) && multiset(order) == multiset(Range(|scores|)) && Descending(order, scores)
  }

  /** Inserts index i after every entry whose score is at least as high. */
  function Insert(order: seq<nat>, i: nat, scores: seq<real>): (r: seq<nat>)
    requires i < |scores| && Indexes(order, scores)
    ensures Indexes(r, scores) && |r| == |order| + 1
    ensures multiset(r) == multiset(order) + multiset{i}
  {
    if order == [] then [i]
    else if scores[order[0]] >= scores[i] then
      assert order == [order[0]] + order[1..];
      [order[0]] + Insert(order[1..], i, scores)
    else [i] + order
  }

  /** The ranking of the first n indices. */
  function RankPrefix(scores: seq<real>, n: nat): (r: seq<nat>)
    requires n <= |scores|
    ensures Indexes(r, scores) && |r| == n
  {
    if n == 0 then [] else Insert(RankPrefix(scores, n - 1), n - 1, scores)
  }

  /** The candidate order of the source: indices by descending score. */
  function Rank(scores: seq<real>): (r: seq<nat>)
    ensures Indexes(r, scores) && |r| == |scores|
  {
    RankPrefix(scores, |scores|)
  }

  lemma {:induction false} InsertDescending(order: seq<nat>, i: nat, scores: seq<real>)
    requires i < |scores| && Indexes(order, scores) && Descending(order, scores)
    ensures Descending(Insert(order, i, scores), scores)
    decreases |order|
  {
    var r := Insert(order, i, scores);
    if order != [] && scores[order[0]] >= scores[i] {
      var rest := order[1..];
      InsertDescending(rest, i, scores);
      var tail := Insert(rest, i, scores);
      assert r == [order[0]] + tail;
      forall b | 0 < b < |r|
        ensures scores[r[0]] >= scores[r[b]]
      {
        assert r[b] == tail[b - 1];
        assert r[b] in multiset(tail);
        assert r[b] in multiset(rest) || r[b] == i;
        if r[b] != i {
          assert r[b] in rest;
          var j :| 0 <= j < |rest| && rest[j] == r[b];
          assert order[j + 1] == r[b];
        }
      }
    }
  }

  lemma {:induction false} RankPrefixPermutes(scores: seq<real>, n: nat)
    requires n <= |scores|
    ensures multiset(RankPrefix(scores, n)) == multiset(Range(n))
  {
    if n > 0 {
      var last: nat := n - 1;
      var prev := RankPrefix(scores, last);
      RankPrefixPermutes(scores, last);
      assert RankPrefix(scores, n) == Insert(prev, last, scores);
      assert multiset(RankPrefix(scores, n)) == multiset(Range(last)) + multiset{last};
      assert Range(n) == Range(last) + [last];
    }
  }

  lemma {:induction false} RankPrefixDescending(scores: seq<real>, n: nat)
    requires n <= |scores|
    ensures Descending(RankPrefix(scores, n), scores)
  {
    if n > 0 {
      RankPrefixDescending(scores, n - 1);
      InsertDescending(RankPrefix(scores, n - 1), n - 1, scores);
    }
  }

  /** `Rank` lists every index once, best score first. */
  lemma RankIsRanking(scores: seq<real>)
    ensures IsRanking(Rank(scores), scores)
  {
    RankPrefixPermutes(scores, |scores|);
    RankPrefixDescending(scores, |scores|);
  }

  /** Every index of the score vector is tried at some point. */
  lemma RankContains(scores: seq<real>, i: nat)
    requires i < |scores|
    ensures i in Rank(scores)
  {
    RankIsRanking(scores);
    assert Range(|scores|)[i] == i;
    assert i in multiset(Range(|scores|));
  }

  /** An index scored strictly higher than the k-th candidate is tried before it. */
  lemma RankedBefore(scores: seq<real>, k: nat, j: nat)
    requires k < |scores| && j < |scores| && scores[j] > scores[Rank(scores)[k]]
    ensures exists p :: 0 <= p < k && Rank(scores)[p] == j
  {
    var order := Rank(scores);
    RankContains(scores, j);
    RankPrefixDescending(scores, |scores|);
    var p :| 0 <= p < |order| && order[p] == j;
    assert p < k;
  }
}
