/**
 * `Prediction.GetPredictions` of Program.cs: pair every score of the classifier
 * with the name of its class (slot), order the pairs by score, highest first,
 * and keep the first three.
 *
 * Scores are modelled as integers: only their order matters here.
 * `OrderByDescending` is modelled the way LINQ computes it: it builds the
 * permutation of source positions that orders the keys (ties broken by source
 * position, which makes the sort stable) and reads the elements through it.
 */
module Ranking {

  /**
   * One ranked entry, the `(string label, float score)` tuple of the source: a class
   * label (a fixer's name) and its score. `label` is a reserved word in Dafny, so the
   * field is called `name`.
   */
  datatype Ranked = Ranked(name: string, score: int)

  /** The number of entries kept by `Take(3)`; the `top` parameter plays no part. */
  const Kept: nat := 3

  function Min(a: nat, b: nat): nat
  {
    if a <= b then a else b
  }

  /** `slotNames.GetItemOrDefault(i).ToString()`: the name of slot `i`, or "" when there is none. */
  function Label(slotNames: seq<string>, i: nat): string
  {
    if i < |slotNames| then slotNames[i] else ""
  }

  /** `Score.Select((score, i) => (label(i), score))`. */
  function Pair(scores: seq<int>, slotNames: seq<string>): seq<Ranked>
  {
    seq(|scores|, i requires 0 <= i < |scores| => Ranked(Label(slotNames, i), scores[i]))
  }

  /** The scores of a sequence of entries, the key `x => x.score` of the sort. */
  function Scores(ps: seq<Ranked>): seq<int>
  {
    seq(|ps|, k requires 0 <= k < |ps| => ps[k].score)
  }

  // ---------------------------------------------------------------------------
  // The order of a stable descending sort, on source positions
  // ---------------------------------------------------------------------------

  /**
   * Source position `i` comes before source position `j` in a stable descending
   * sort by `keys`: its key is larger, or the keys are equal and `i` is earlier.
   */
  predicate Before(keys: seq<int>, i: nat, j: nat)
    requires i < |keys| && j < |keys|
  {
    keys[i] > keys[j] || (keys[i] == keys[j] && i < j)
  }

  /** Every entry of `order` is a position of `keys`. */
  predicate InRange(keys: seq<int>, order: seq<nat>)
  {
    forall k :: 0 <= k < |order| ==> order[k] < |keys|
  }

  /** `order` lists positions of `keys` in the order of the stable descending sort. */
  predicate Ordered(keys: seq<int>, order: seq<nat>)
    requires InRange(keys, order)
  {
    forall k, l :: 0 <= k < l < |order| ==> Before(keys, order[k], order[l])
  }

  /** Inserts position `i` into a list of other positions ahead of the first one it comes before. */
  function Insert(keys: seq<int>, i: nat, order: seq<nat>): (r: seq<nat>)
    requires i < |keys| && InRange(keys, order)
    ensures multiset(r) == multiset(order) + multiset{i}
    ensures InRange(keys, r)
  {
    if order == [] || Before(keys, i, order[0]) then
      [i] + order
    else
      assert order == [order[0]] + order[1..];
      [order[0]] + Insert(keys, i, order[1..])
  }

  /** Inserting a new position into an ordered list keeps it ordered. */
  lemma {:induction false} InsertOrdered(keys: seq<int>, i: nat, order: seq<nat>)
    requires i < |keys| && InRange(keys, order) && Ordered(keys, order) && i !in order
    ensures Ordered(keys, Insert(keys, i, order))
  {
    var r := Insert(keys, i, order);
    if order == [] || Before(keys, i, order[0]) {
      forall k, l | 0 <= k < l < |r|
        ensures Before(keys, r[k], r[l])
      {
        if k == 0 && l > 1 {
          assert Before(keys, order[0], order[l - 1]);
        }
      }
    } else {
      var rest := Insert(keys, i, order[1..]);
      InsertOrdered(keys, i, order[1..]);
      assert r == [order[0]] + rest;
      forall k, l | 0 <= k < l < |r|
        ensures Before(keys, r[k], r[l])
      {
        if k == 0 {
          var y := rest[l - 1];
          assert y in multiset(rest);
          if y != i {
            assert y in order[1..];
            var m :| 1 <= m < |order| && order[m] == y;
          }
        }
      }
    }
  }

  /** The positions `0 .. n-1` of `keys`, in the order of the stable descending sort. */
  function SortPrefix(keys: seq<int>, n: nat): (r: seq<nat>)
    requires n <= |keys|
    ensures |r| == n && InRange(keys, r)
    ensures forall j :: j in r <==> 0 <= j < n
  {
    if n == 0 then
      []
    else
      var last: nat := n - 1;
      var prev := SortPrefix(keys, last);
      var r := Insert(keys, last, prev);
      assert forall j :: j in r <==> j in multiset(prev) + multiset{last};
      r
  }

  /** `SortPrefix` lists its positions in stable descending order. */
  lemma {:induction false} SortPrefixOrdered(keys: seq<int>, n: nat)
    requires n <= |keys|
    ensures Ordered(keys, SortPrefix(keys, n))
  {
    if n > 0 {
      SortPrefixOrdered(keys, n - 1);
      InsertOrdered(keys, n - 1, SortPrefix(keys, n - 1));
    }
  }

  /**
   * The permutation `OrderByDescending` applies to `keys`: position `k` of the
   * sorted sequence holds the element at source position `SortMap(keys)[k]`.
   */
  function SortMap(keys: seq<int>): (order: seq<nat>)
    ensures |order| == |keys| && InRange(keys, order) && Ordered(keys, order)
    ensures forall j :: 0 <= j < |keys| ==> j in order
  {
    SortPrefixOrdered(keys, |keys|);
    SortPrefix(keys, |keys|)
  }

  /** `OrderByDescending(x => x.score)`: a stable sort of the entries, highest score first. */
  function OrderByDescending(ps: seq<Ranked>): seq<Ranked>
  {
    var order := SortMap(Scores(ps));
    seq(|ps|, k requires 0 <= k < |ps| => ps[order[k]])
  }

  /** `Take(n)`: the first `n` entries, or all of them when there are fewer. */
  function Take(ps: seq<Ranked>, n: nat): seq<Ranked>
  {
    if |ps| <= n then ps else ps[..n]
  }

  /**
   * `Prediction.GetPredictions`: the three best-scored classes, best first.
   * The result has exactly min(3, |scores|) entries whatever `top` is, and its
   * scores never increase from one entry to the next.
   */
  function GetPredictions(scores: seq<int>, slotNames: seq<string>, top: int := 3): (r: seq<Ranked>)
    ensures |r| == Min(Kept, |scores|)
    ensures forall k, l :: 0 <= k < l < |r| ==> r[k].score >= r[l].score
  {
    var ps := Pair(scores, slotNames);
    assert Scores(ps) == scores;
    Take(OrderByDescending(ps), Kept)
  }

  // ---------------------------------------------------------------------------
  // What the result is, stated without the sort
  // ---------------------------------------------------------------------------

  /** The source positions the result of `GetPredictions` is read from, best first. */
  function TopPositions(scores: seq<int>): seq<nat>
  {
    SortMap(scores)[..Min(Kept, |scores|)]
  }

  /**
   * `r` is read from the source positions `ix`: entry `k` is the label and score of
   * position `ix[k]`; the positions are in stable descending order (so they are
   * distinct, scores never increase, and equal scores keep their source order);
   * and every position left out comes after every position kept.
   */
  ghost predicate IsTopSelection(scores: seq<int>, slotNames: seq<string>, r: seq<Ranked>, ix: seq<nat>)
  {
    && |ix| == |r|
    && TopOrder(scores, ix)
    && (forall k :: 0 <= k < |ix| ==> r[k] == Ranked(Label(slotNames, ix[k]), scores[ix[k]]))
  }

  /** The result of `GetPredictions` is the top selection read from `TopPositions`. */
  lemma GetPredictionsSelects(scores: seq<int>, slotNames: seq<string>, top: int)
    ensures IsTopSelection(scores, slotNames, GetPredictions(scores, slotNames, top), TopPositions(scores))
  {
    var r := GetPredictions(scores, slotNames, top);
    var order := SortMap(scores);
    var ix := TopPositions(scores);
    var ps := Pair(scores, slotNames);
    assert Scores(ps) == scores;
    assert OrderByDescending(ps) == seq(|ps|, k requires 0 <= k < |ps| => ps[order[k]]);
    forall j, k | 0 <= j < |scores| && j !in ix && 0 <= k < |ix|
      ensures Before(scores, ix[k], j)
    {
      assert j in order;
      var p :| 0 <= p < |order| && order[p] == j;
      assert p >= |ix|;
    }
  }

  /** Two top selections of the same length read from the same positions. */
  lemma TopSelectionPositionsUnique(
    scores: seq<int>, slotNames: seq<string>, r1: seq<Ranked>, ix: seq<nat>, r2: seq<Ranked>, jx: seq<nat>)
    requires IsTopSelection(scores, slotNames, r1, ix)
    requires IsTopSelection(scores, slotNames, r2, jx)
    requires |ix| == |jx|
    ensures ix == jx
  {
    AgreeUpTo(scores, ix, jx, |ix|);
  }

  /** Two top selections of the same length agree on their first `p` positions. */
  lemma {:induction false} AgreeUpTo(scores: seq<int>, ix: seq<nat>, jx: seq<nat>, p: nat)
    requires TopOrder(scores, ix) && TopOrder(scores, jx)
    requires |ix| == |jx| && p <= |ix|
    ensures forall q :: 0 <= q < p ==> ix[q] == jx[q]
  {
    if p > 0 {
      AgreeUpTo(scores, ix, jx, p - 1);
      NoLaterAt(scores, ix, jx, p - 1);
      NoLaterAt(scores, jx, ix, p - 1);
    }
  }

  /** The order part of `IsTopSelection`: positions in stable descending order, everything left out after them. */
  ghost predicate TopOrder(scores: seq<int>, ix: seq<nat>)
  {
    && InRange(scores, ix)
    && Ordered(scores, ix)
    && (forall j, k :: 0 <= j < |scores| && j !in ix && 0 <= k < |ix| ==> Before(scores, ix[k], j))
  }

  /**
   * Where two top selections agree before position `p`, the second one's entry at `p`
   * is the first one's, or comes before it.
   */
  lemma NoLaterAt(scores: seq<int>, ix: seq<nat>, jx: seq<nat>, p: nat)
    requires TopOrder(scores, ix) && TopOrder(scores, jx)
    requires |ix| == |jx| && p < |ix|
    requires forall q :: 0 <= q < p ==> ix[q] == jx[q]
    ensures ix[p] == jx[p] || Before(scores, jx[p], ix[p])
  {
    var i := ix[p];
    if i in jx {
      var q :| 0 <= q < |jx| && jx[q] == i;
      forall q' | 0 <= q' < p
        ensures jx[q'] != i
      {
        assert Before(scores, ix[q'], ix[p]);
      }
      if q > p {
        assert Before(scores, jx[p], jx[q]);
      }
    }
  }

  /**
   * The declarative description determines the result: every sequence of
   * min(3, |scores|) entries that is a top selection is what `GetPredictions` returns.
   */
  lemma TopSelectionIsGetPredictions(scores: seq<int>, slotNames: seq<string>, top: int, r: seq<Ranked>, ix: seq<nat>)
    requires IsTopSelection(scores, slotNames, r, ix)
    requires |r| == Min(Kept, |scores|)
    ensures r == GetPredictions(scores, slotNames, top)
  {
    var g := GetPredictions(scores, slotNames, top);
    GetPredictionsSelects(scores, slotNames, top);
    TopSelectionPositionsUnique(scores, slotNames, r, ix, g, TopPositions(scores));
  }

  // ---------------------------------------------------------------------------
  // Properties of the ranking one by one
  // ---------------------------------------------------------------------------

  /** No source position, and so no class, appears twice in the result. */
  lemma GetPredictionsDistinct(scores: seq<int>, slotNames: seq<string>, top: int)
    ensures var ix := TopPositions(scores);
      && |ix| == |GetPredictions(scores, slotNames, top)|
      && (forall k :: 0 <= k < |ix| ==>
            ix[k] < |scores| && GetPredictions(scores, slotNames, top)[k] == Ranked(Label(slotNames, ix[k]), scores[ix[k]]))
      && (forall k, l :: 0 <= k < l < |ix| ==> ix[k] != ix[l])
  {
    GetPredictionsSelects(scores, slotNames, top);
  }

  /** Every score left out is no larger than the last score kept. */
  lemma GetPredictionsDropsNoLarger(scores: seq<int>, slotNames: seq<string>, top: int, j: nat)
    requires j < |scores| && j !in TopPositions(scores)
    ensures var r := GetPredictions(scores, slotNames, top);
      |r| == Kept && scores[j] <= r[Kept - 1].score
  {
    GetPredictionsSelects(scores, slotNames, top);
    assert |scores| > Kept by {
      assert j in SortMap(scores);
    }
    assert Before(scores, TopPositions(scores)[Kept - 1], j);
  }

  /**
   * Ties keep their source order: of two entries with equal scores, the earlier
   * slot comes first in the result, and an equal score left out lies after every
   * kept slot with that score.
   */
  lemma GetPredictionsStable(scores: seq<int>, slotNames: seq<string>, top: int)
    ensures var ix := TopPositions(scores);
      && InRange(scores, ix)
      && (forall k, l :: 0 <= k < l < |ix| && scores[ix[k]] == scores[ix[l]] ==> ix[k] < ix[l])
      && (forall j, k :: 0 <= j < |scores| && j !in ix && 0 <= k < |ix| && scores[ix[k]] == scores[j] ==> ix[k] < j)
  {
    GetPredictionsSelects(scores, slotNames, top);
  }

  /**
   * An example: of the scores 1, 5, 5, 2 the two fives come first in slot order, then
   * the 2, whose slot has no name and so gets the empty label; the 1 is dropped.
   */
  lemma GetPredictionsExample()
    ensures GetPredictions([1, 5, 5, 2], ["a", "b", "c"]) ==
      [Ranked("b", 5), Ranked("c", 5), Ranked("", 2)]
  {
    var scores, names := [1, 5, 5, 2], ["a", "b", "c"];
    var r := [Ranked("b", 5), Ranked("c", 5), Ranked("", 2)];
    var ix: seq<nat> := [1, 2, 3];
    assert forall j :: 0 <= j < |scores| && j !in ix ==> j == 0;
    assert IsTopSelection(scores, names, r, ix);
    TopSelectionIsGetPredictions(scores, names, 3, r, ix);
  }
}
