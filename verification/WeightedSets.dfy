/** WeightedSet: a set of ids with a weight per range, and the per-id arithmetic on it. */
module WeightedSets {
  import opened Ids
  import opened Ranges
  import opened Wrappers
  import opened WeightedRanges
  import opened IdSets
  import opened Reals

  function RangeWeight(weights: map<nat, real>, low: nat): real
  {
    if low in weights then weights[low] else 1.0
  }

  /** The ranges together with their weights, 1 where none is stored. */
  function Zip(ranges: seq<Range>, weights: map<nat, real>): (ws: seq<WRange>)
    ensures |ws| == |ranges|
    ensures forall i :: 0 <= i < |ws| ==> ws[i] == WRange(ranges[i].low, ranges[i].high, RangeWeight(weights, ranges[i].low))
  {
    seq(|ranges|, i requires 0 <= i < |ranges| => WRange(ranges[i].low, ranges[i].high, RangeWeight(weights, ranges[i].low)))
  }

  /** Touching neighbours have different weights: the runs are as long as they can be. */
  ghost predicate Maximal(ws: seq<WRange>)
  {
    forall i :: 0 < i < |ws| && ws[i - 1].high + 1 == ws[i].low ==> ws[i - 1].weight != ws[i].weight
  }

  /** One range added behind all others, merged into the last one if it continues it. */
  function PushWeighted(ws: seq<WRange>, low: nat, high: nat, weight: real): seq<WRange>
  {
    if ws != [] && ws[|ws| - 1].high + 1 == low && ws[|ws| - 1].weight == weight
    then ws[..|ws| - 1] + [WRange(ws[|ws| - 1].low, high, weight)]
    else ws + [WRange(low, high, weight)]
  }

  lemma PushMeaning(ws: seq<WRange>, low: nat, high: nat, weight: real)
    requires WSorted(ws) && low <= high < NO_IDENTIFIER && (ws != [] ==> ws[|ws| - 1].high < low)
    ensures WSorted(PushWeighted(ws, low, high, weight))
    ensures Maximal(ws) ==> Maximal(PushWeighted(ws, low, high, weight))
    ensures forall x :: WeightAt(PushWeighted(ws, low, high, weight), x) == (if low <= x <= high then Some(weight) else WeightAt(ws, x))
  {
    hide WeightAt, PushWeighted, WSorted, Maximal;
    PushSortedRuns(ws, low, high, weight);
    if Maximal(ws) {
      PushMaximal(ws, low, high, weight);
    }
    forall x
      ensures WeightAt(PushWeighted(ws, low, high, weight), x) == (if low <= x <= high then Some(weight) else WeightAt(ws, x))
    {
      PushAt(ws, low, high, weight, x);
    }
  }

  lemma PushSortedRuns(ws: seq<WRange>, low: nat, high: nat, weight: real)
    requires WSorted(ws) && low <= high < NO_IDENTIFIER && (ws != [] ==> ws[|ws| - 1].high < low)
    ensures WSorted(PushWeighted(ws, low, high, weight))
  {
  }

  lemma PushMaximal(ws: seq<WRange>, low: nat, high: nat, weight: real)
    requires Maximal(ws)
    ensures Maximal(PushWeighted(ws, low, high, weight))
  {
  }

  lemma PushAt(ws: seq<WRange>, low: nat, high: nat, weight: real, x: int)
    requires WSorted(ws) && low <= high && (ws != [] ==> ws[|ws| - 1].high < low)
    ensures WeightAt(PushWeighted(ws, low, high, weight), x) == if low <= x <= high then Some(weight) else WeightAt(ws, x)
  {
    hide WeightAt;
    if low <= x {
      WeightBehind(ws, x);
    }
    if ws != [] {
      var init, last := ws[..|ws| - 1], ws[|ws| - 1];
      assert ws == init + [last];
      WeightConcat(init, [last], x);
      WeightConcat(init, [WRange(last.low, high, weight)], x);
      WeightOne(last, x);
      WeightOne(WRange(last.low, high, weight), x);
      if x >= last.low {
        WeightBehind(init, x);
      }
    }
    WeightConcat(ws, [WRange(low, high, weight)], x);
    WeightOne(WRange(low, high, weight), x);
  }

  /** Maximal runs are determined by the weights of the single ids. */
  lemma {:induction false} MaximalUnique(a: seq<WRange>, b: seq<WRange>)
    requires WSorted(a) && WSorted(b) && Maximal(a) && Maximal(b)
    requires forall x :: WeightAt(a, x) == WeightAt(b, x)
    ensures a == b
    decreases |a| + |b|
  {
    hide WeightAt;
    if a == [] || b == [] {
      WeightNone();
      NonEmptyCovers(a);
      NonEmptyCovers(b);
    } else {
      FirstRunAgrees(a, b);
      FirstRunAgrees(b, a);
      assert a[0] == b[0];
      WSortedTail(a);
      WSortedTail(b);
      forall x
        ensures WeightAt(a[1..], x) == WeightAt(b[1..], x)
      {
        TailWeight(a, x);
        TailWeight(b, x);
      }
      MaximalTail(a);
      MaximalTail(b);
      MaximalUnique(a[1..], b[1..]);
      assert a == [a[0]] + a[1..] && b == [b[0]] + b[1..];
    }
  }

  lemma WeightNone()
    ensures forall x :: WeightAt([], x) == None
  {
  }

  lemma NonEmptyCovers(a: seq<WRange>)
    requires WSorted(a)
    ensures a != [] ==> WeightAt(a, a[0].low).Some?
  {
  }

  lemma MaximalTail(a: seq<WRange>)
    requires Maximal(a) && a != []
    ensures Maximal(a[1..])
  {
    forall i | 0 < i < |a[1..]| && a[1..][i - 1].high + 1 == a[1..][i].low
      ensures a[1..][i - 1].weight != a[1..][i].weight
    {
      assert a[1..][i] == a[i + 1] && a[1..][i - 1] == a[i + 1 - 1];
    }
  }

  lemma TailWeight(a: seq<WRange>, x: int)
    requires WSorted(a) && a != []
    ensures WeightAt(a[1..], x) == if x <= a[0].high then None else WeightAt(a, x)
  {
    if x <= a[0].high {
      WeightBefore(a[1..], x);
    }
  }

  /** Around the first run: nothing before it, its weight on it, no such weight right behind it. */
  lemma FirstRun(a: seq<WRange>, x: int)
    requires WSorted(a) && Maximal(a) && a != []
    ensures x < a[0].low ==> WeightAt(a, x) == None
    ensures a[0].low <= x <= a[0].high ==> WeightAt(a, x) == Some(a[0].weight)
    ensures x == a[0].high + 1 ==> WeightAt(a, x) != Some(a[0].weight)
  {
    if x < a[0].low {
      WeightBefore(a, x);
    }
    if x == a[0].high + 1 && |a| > 1 {
      if a[1].low == x {
        WeightIn(a, 1, x);
      } else {
        WeightBefore(a[1..], x);
      }
    }
  }

  lemma FirstRunAgrees(a: seq<WRange>, b: seq<WRange>)
    requires WSorted(a) && WSorted(b) && Maximal(a) && Maximal(b) && a != [] && b != []
    requires forall x :: WeightAt(a, x) == WeightAt(b, x)
    ensures a[0].low <= b[0].low
    ensures a[0].low == b[0].low ==> a[0].high >= b[0].high && a[0].weight == b[0].weight
  {
    hide WeightAt;
    FirstRun(a, b[0].low);
    FirstRun(b, b[0].low);
    FirstRun(a, a[0].high + 1);
    FirstRun(b, a[0].high + 1);
  }

  // ------------------------------------------------------------------------------------------

  ghost predicate IsStart(rs: seq<Range>, low: nat)
  {
    exists i :: 0 <= i < |rs| && rs[i].low == low
  }

  /** Weights are stored only at range starts, and only where they are not 1. */
  ghost predicate StoredWeights(rs: seq<Range>, weights: map<nat, real>)
  {
    forall k :: k in weights ==> weights[k] != 1.0 && IsStart(rs, k)
  }

  ghost predicate ValidParts(rs: seq<Range>, siz: int, weights: map<nat, real>)
  {
    Sorted(rs) && siz == Count(rs) && StoredWeights(rs, weights)
  }

  lemma IsStartConcat(a: seq<Range>, b: seq<Range>, low: nat)
    ensures IsStart(a + b, low) <==> IsStart(a, low) || IsStart(b, low)
  {
    if IsStart(a, low) {
      var i :| 0 <= i < |a| && a[i].low == low;
      assert (a + b)[i] == a[i];
    }
    if IsStart(b, low) {
      var i :| 0 <= i < |b| && b[i].low == low;
      assert (a + b)[|a| + i] == b[i];
    }
  }

  lemma IsStartOne(r: Range, low: nat)
    ensures IsStart([r], low) <==> r.low == low
  {
    assert [r][0] == r;
  }

  lemma StartsBelow(a: seq<Range>, low: nat)
    requires Sorted(a) && (a != [] ==> a[|a| - 1].high < low)
    ensures !IsStart(a, low)
  {
  }

  lemma SortedConcat(a: seq<Range>, b: seq<Range>)
    ensures Sorted(a + b) <==>
      (Sorted(a) && Sorted(b) && forall i, j :: 0 <= i < |a| && 0 <= j < |b| ==> a[i].high < b[j].low)
  {
    if Sorted(a + b) {
      assert forall i :: 0 <= i < |a| ==> (a + b)[i] == a[i];
      assert forall i :: 0 <= i < |b| ==> (a + b)[|a| + i] == b[i];
    }
  }

  lemma PushNewParts(rs: seq<Range>, siz: int, weights: map<nat, real>, low: nat, high: nat, weight: real)
    requires ValidParts(rs, siz, weights) && low <= high < NO_IDENTIFIER
    requires rs != [] ==> rs[|rs| - 1].high < low
    ensures low !in weights && !IsStart(rs, low)
    ensures ValidParts(rs + [Range(low, high)], siz + (high - low + 1), if weight != 1.0 then weights[low := weight] else weights)
    ensures Zip(rs + [Range(low, high)], if weight != 1.0 then weights[low := weight] else weights)
      == Zip(rs, weights) + [WRange(low, high, weight)]
  {
    hide IsStart, Count;
    StartsBelow(rs, low);
    CountConcat(rs, [Range(low, high)]);
    CountSingle(Range(low, high));
    assert Sorted([Range(low, high)]);
    SortedConcat(rs, [Range(low, high)]);
    forall k
      ensures IsStart(rs + [Range(low, high)], k) <==> IsStart(rs, k) || k == low
    {
      IsStartConcat(rs, [Range(low, high)], k);
      IsStartOne(Range(low, high), k);
    }
    forall i | 0 <= i < |rs|
      ensures rs[i].low != low
    {
    }
  }

  lemma PushMergeParts(rs: seq<Range>, siz: int, weights: map<nat, real>, high: nat)
    requires ValidParts(rs, siz, weights) && rs != [] && rs[|rs| - 1].high < high < NO_IDENTIFIER
    ensures ValidParts(rs[..|rs| - 1] + [Range(rs[|rs| - 1].low, high)], siz + (high - rs[|rs| - 1].high), weights)
    ensures Zip(rs[..|rs| - 1] + [Range(rs[|rs| - 1].low, high)], weights)
      == Zip(rs, weights)[..|rs| - 1] + [WRange(rs[|rs| - 1].low, high, RangeWeight(weights, rs[|rs| - 1].low))]
  {
    hide IsStart, Count;
    var init, last, grown := rs[..|rs| - 1], rs[|rs| - 1], Range(rs[|rs| - 1].low, high);
    assert rs == init + [last];
    CountConcat(init, [last]);
    CountConcat(init, [grown]);
    CountSingle(last);
    CountSingle(grown);
    SortedConcat(init, [last]);
    assert Sorted([grown]);
    SortedConcat(init, [grown]);
    forall k
      ensures IsStart(init + [grown], k) <==> IsStart(rs, k)
    {
      IsStartConcat(init, [last], k);
      IsStartConcat(init, [grown], k);
      IsStartOne(last, k);
      IsStartOne(grown, k);
    }
  }

  /** The weight of the id grew by the given amount, from 0 if it had none, and nothing else changed. */
  ghost predicate Added(before: seq<WRange>, after: seq<WRange>, id: nat, weight: real)
  {
    forall x :: WeightAt(after, x) == (if x == id then Some(WeightAt(before, x).GetOr(0.0) + weight) else WeightAt(before, x))
  }

  /** Same ids, every weight scaled. */
  ghost predicate ScaledBy(before: seq<WRange>, after: seq<WRange>, factor: real)
  {
    forall x :: WeightAt(after, x) == ScaledOption(WeightAt(before, x), factor)
  }

  function ScaledOption(w: Option<real>, factor: real): Option<real>
  {
    if w.Some? then Some(RTimes(w.value, factor)) else None
  }

  class WeightedSet {
    var ranges: seq<Range>
    var siz: int
    var weights: map<nat, real>

    ghost predicate Valid()
      reads this
    {
      ValidParts(ranges, siz, weights)
    }

    function Weighted(): (ws: seq<WRange>)
      reads this
    {
      Zip(ranges, weights)
    }

    constructor ()
      ensures Valid() && ranges == [] && Weighted() == []
    {
      ranges, siz, weights := [], 0, map[];
    }

    /** pushSorted: a range behind all others. */
    method PushSorted(low: nat, high: nat, weight: real)
      requires Valid() && low <= high < NO_IDENTIFIER
      requires ranges != [] ==> ranges[|ranges| - 1].high < low
      modifies this
      ensures Valid()
      ensures Weighted() == PushWeighted(old(Weighted()), low, high, weight)
      ensures ranges != [] && ranges[|ranges| - 1].high == high
    {
      hide ValidParts;
      if ranges != [] && ranges[|ranges| - 1].high + 1 == low && RangeWeight(weights, ranges[|ranges| - 1].low) == weight {
        PushMergeParts(ranges, siz, weights, high);
        ranges := ranges[..|ranges| - 1] + [Range(ranges[|ranges| - 1].low, high)];
      } else {
        PushNewParts(ranges, siz, weights, low, high, weight);
        ranges := ranges + [Range(low, high)];
        if weight != 1.0 {
          weights := weights[low := weight];
        }
      }
      siz := siz + (high - low + 1);
    }

    /** fastAdd: adds to the weight of a single id, in any order, before ids are joined to ranges. */
    method FastAdd(id: nat, weight: real)
      requires Valid() && Singles(ranges) && id < NO_IDENTIFIER
      modifies this
      ensures Valid() && Singles(ranges)
      ensures Added(old(Weighted()), Weighted(), id, weight)
    {
      hide ValidParts, WeightAt, Singles, Sorted, Count, Added;
      PartsSorted(ranges, siz, weights);
      var k := RangeLowerBound(ranges, id);
      AboveStrictly(ranges, k, id);
      if k < |ranges| && ranges[k].low == id {
        var sum := RangeWeight(weights, id) + weight;
        AddExisting(ranges, siz, weights, k, weight);
        assert weights[id := sum] - {id} == weights - {id};
        weights := weights[id := sum];
        if weights[id] == 1.0 {
          weights := weights - {id};
        }
      } else {
        AddFresh(ranges, siz, weights, k, id, weight);
        ranges := ranges[..k] + [Range(id, id)] + ranges[k..];
        if weight != 1.0 {
          weights := weights[id := weight];
        }
        siz := siz + 1;
      }
    }

    /**
     * consolidate: joins touching ids of equal weight into ranges. The weight of no id changes,
     * and no two runs are left that could be joined.
     */
    method Consolidate()
      requires Valid() && Singles(ranges)
      modifies this
      ensures Valid() && Maximal(Weighted())
      ensures forall x :: WeightAt(Weighted(), x) == old(WeightAt(Weighted(), x))
      ensures siz == old(siz)
    {
      hide ValidParts, WeightAt, Singles, Sorted, Count;
      var it := 0;
      while it < |ranges|
        invariant it <= |ranges| && Valid() && siz == old(siz)
        invariant Singles(ranges[it..])
        invariant Maximal(Weighted()[..it]) && (0 < it < |ranges| ==> Broken(Weighted(), it))
        invariant forall x :: WeightAt(Weighted(), x) == old(WeightAt(Weighted(), x))
      {
        var weight := RangeWeight(weights, ranges[it].low);
        SinglesTail(ranges, it);
        while true
          invariant it < |ranges| && Valid() && siz == old(siz)
          invariant Singles(ranges[it + 1..]) && RangeWeight(weights, ranges[it].low) == weight
          invariant Maximal(Weighted()[..it]) && (0 < it ==> Broken(Weighted(), it))
          invariant forall x :: WeightAt(Weighted(), x) == old(WeightAt(Weighted(), x))
          decreases |ranges|
        {
          if it + 1 == |ranges| || ranges[it].high + 1 != ranges[it + 1].low {
            break;
          }
          var nextWeight := RangeWeight(weights, ranges[it + 1].low);
          if nextWeight != weight {
            break;
          }
          // the next id is joined
          SinglesTail(ranges, it + 1);
          JoinNext(ranges, siz, weights, it);
          if nextWeight != 1.0 {
            weights := weights - {ranges[it + 1].low};
          }
          ranges := ranges[..it] + [Range(ranges[it].low, ranges[it].high + 1)] + ranges[it + 2..];
        }
        MaximalStep(Weighted(), it);
        it := it + 1;
      }
      assert Weighted()[..|ranges|] == Weighted();
    }

    /** multiply: scales every weight. */
    method Multiply(factor: real)
      requires Valid()
      modifies this`weights
      ensures Valid()
      ensures ScaledBy(old(Weighted()), Weighted(), factor)
      ensures forall x :: WeightAt(Weighted(), x).GetOr(0.0) == old(WeightAt(Weighted(), x)).GetOr(0.0) * factor
      ensures forall x :: WeightAt(Weighted(), x).None? <==> old(WeightAt(Weighted(), x)).None?
    {
      hide WeightAt, ValidParts, ScaledBy, RTimes;
      ghost var before := Weighted();
      if factor != 1.0 {
        for i := 0 to |ranges|
          invariant Valid()
          invariant PartlyScaled(before, Weighted(), factor, i)
        {
          ScaleOne(ranges, siz, weights, before, factor, i);
          var newWeight := RTimes(RangeWeight(weights, ranges[i].low), factor);
          ghost var stored := Stored(weights, ranges[i].low, newWeight);
          if newWeight != 1.0 {
            weights := weights[ranges[i].low := newWeight];
          } else {
            weights := weights - {ranges[i].low};
          }
          assert weights == stored;
        }
      } else {
        TimesOne(before);
        assert PartlyScaled(before, Weighted(), factor, |before|);
      }
      ScaledWeights(before, Weighted(), factor);
      ScaledNumbers(before, Weighted(), factor);
    }

    /** add: a new set with, per id, the weight here plus factor times the weight there. */
    method Add(ws2: WeightedSet, factor: real) returns (wsNew: WeightedSet)
      requires Valid() && ws2.Valid()
      ensures fresh(wsNew) && wsNew.Valid() && Maximal(wsNew.Weighted())
      ensures Combines(Weighted(), ws2.Weighted(), wsNew.Weighted(), AddComb(factor))
      ensures forall x ::
        WeightAt(wsNew.Weighted(), x).GetOr(0.0) == WeightAt(Weighted(), x).GetOr(0.0) + factor * WeightAt(ws2.Weighted(), x).GetOr(0.0)
      ensures forall x :: WeightAt(wsNew.Weighted(), x).None? <==> WeightAt(Weighted(), x).None? && WeightAt(ws2.Weighted(), x).None?
    {
      hide ValidParts, MergeState, RTimes, PushWeighted, Zip, Maximal, WSorted;
      var a, b := Weighted(), ws2.Weighted();
      ghost var comb := AddComb(factor);
      wsNew := new WeightedSet();
      var it1, it2 := BeginId(a), BeginId(b);
      WeightedSorted(ranges, siz, weights);
      WeightedSorted(ws2.ranges, ws2.siz, ws2.weights);
      MergeStart(a, b, comb);
      while it1.range < |a| || it2.range < |b|
        invariant fresh(wsNew) && wsNew.Valid()
        invariant it1.range <= |a| && it2.range <= |b|
        invariant MergeState(wsNew.Weighted(), a, b, comb, it1, it2)
        decreases NO_IDENTIFIER - MinFront(a, it1, b, it2)
      {
        MergeStep(wsNew.Weighted(), a, b, comb, it1, it2);
        EndsBelow(wsNew.ranges, wsNew.weights, a, b, comb, it1, it2);
        var w1 := if it1.range < |a| then a[it1.range].weight else 0.0;
        var w2 := if it2.range < |b| then b[it2.range].weight else 0.0;
        if it1.range < |a| && it2.range < |b| {
          if it1.id == it2.id {
            wsNew.PushSorted(it1.id, it1.id, w1 + RTimes(factor, w2));
            it1, it2 := NextId(a, it1), NextId(b, it2);
          } else if it1.id < it2.id {
            wsNew.PushSorted(it1.id, it1.id, w1);
            it1 := NextId(a, it1);
          } else {
            wsNew.PushSorted(it2.id, it2.id, RTimes(factor, w2));
            it2 := NextId(b, it2);
          }
        } else if it1.range == |a| {
          wsNew.PushSorted(it2.id, it2.id, RTimes(factor, w2));
          it2 := NextId(b, it2);
        } else {
          wsNew.PushSorted(it1.id, it1.id, w1);
          it1 := NextId(a, it1);
        }
      }
      MergeEnd(a, b, wsNew.Weighted(), comb, it1, it2);
      CombinedWeights(a, b, wsNew.Weighted(), comb);
    }

    /**
     * subtract: per id, the weight here minus factor times the weight there, where an id of both
     * sets whose weight vanishes is left out.
     */
    method Subtract(ws2: WeightedSet, factor: real) returns (wsNew: WeightedSet)
      requires Valid() && ws2.Valid()
      ensures fresh(wsNew) && wsNew.Valid() && Maximal(wsNew.Weighted())
      ensures Combines(Weighted(), ws2.Weighted(), wsNew.Weighted(), SubtractComb(factor))
      ensures forall x ::
        WeightAt(wsNew.Weighted(), x).GetOr(0.0) + factor * WeightAt(ws2.Weighted(), x).GetOr(0.0) == WeightAt(Weighted(), x).GetOr(0.0)
      ensures forall x :: WeightAt(wsNew.Weighted(), x).None? <==>
        || (WeightAt(Weighted(), x).None? && WeightAt(ws2.Weighted(), x).None?)
        || (WeightAt(Weighted(), x).Some? && WeightAt(ws2.Weighted(), x).Some? && WeightAt(wsNew.Weighted(), x).GetOr(0.0) == 0.0)
    {
      hide ValidParts, MergeState, RTimes, PushWeighted, Zip, Maximal, WSorted;
      var a, b := Weighted(), ws2.Weighted();
      ghost var comb := SubtractComb(factor);
      wsNew := new WeightedSet();
      var it1, it2 := BeginId(a), BeginId(b);
      WeightedSorted(ranges, siz, weights);
      WeightedSorted(ws2.ranges, ws2.siz, ws2.weights);
      MergeStart(a, b, comb);
      while it1.range < |a| || it2.range < |b|
        invariant fresh(wsNew) && wsNew.Valid()
        invariant it1.range <= |a| && it2.range <= |b|
        invariant MergeState(wsNew.Weighted(), a, b, comb, it1, it2)
        decreases NO_IDENTIFIER - MinFront(a, it1, b, it2)
      {
        MergeStep(wsNew.Weighted(), a, b, comb, it1, it2);
        EndsBelow(wsNew.ranges, wsNew.weights, a, b, comb, it1, it2);
        var w1 := if it1.range < |a| then a[it1.range].weight else 0.0;
        var w2 := if it2.range < |b| then b[it2.range].weight else 0.0;
        if it1.range < |a| && it2.range < |b| {
          if it1.id == it2.id {
            if w1 - RTimes(factor, w2) != 0.0 {
              wsNew.PushSorted(it1.id, it1.id, w1 - RTimes(factor, w2));
            }
            it1, it2 := NextId(a, it1), NextId(b, it2);
          } else if it1.id < it2.id {
            wsNew.PushSorted(it1.id, it1.id, w1);
            it1 := NextId(a, it1);
          } else {
            wsNew.PushSorted(it2.id, it2.id, -RTimes(factor, w2));
            it2 := NextId(b, it2);
          }
        } else if it1.range == |a| {
          wsNew.PushSorted(it2.id, it2.id, -RTimes(factor, w2));
          it2 := NextId(b, it2);
        } else {
          wsNew.PushSorted(it1.id, it1.id, w1);
          it1 := NextId(a, it1);
        }
      }
      MergeEnd(a, b, wsNew.Weighted(), comb, it1, it2);
      CombinedWeights(a, b, wsNew.Weighted(), comb);
    }
  }

  // Merging two sets id by id

  /** An element iterator: on an id of one of the ranges, or behind the last range. */
  datatype IdIterator = IdIterator(range: nat, id: nat)

  function BeginId(ws: seq<WRange>): IdIterator
  {
    IdIterator(0, if ws == [] then 0 else ws[0].low)
  }

  function NextId(ws: seq<WRange>, it: IdIterator): IdIterator
    requires it.range < |ws|
  {
    if it.id < ws[it.range].high then IdIterator(it.range, it.id + 1)
    else if it.range + 1 < |ws| then IdIterator(it.range + 1, ws[it.range + 1].low)
    else IdIterator(it.range + 1, 0)
  }

  ghost predicate AtId(ws: seq<WRange>, it: IdIterator)
  {
    it.range <= |ws| && (it.range < |ws| ==> ws[it.range].low <= it.id <= ws[it.range].high < NO_IDENTIFIER)
  }

  function Front(ws: seq<WRange>, it: IdIterator): nat
  {
    if it.range < |ws| then it.id else NO_IDENTIFIER
  }

  function MinFront(a: seq<WRange>, it1: IdIterator, b: seq<WRange>, it2: IdIterator): nat
  {
    if Front(a, it1) <= Front(b, it2) then Front(a, it1) else Front(b, it2)
  }

  /** No id of the set from x on, below y. */
  ghost predicate NoneUpTo(ws: seq<WRange>, x: int, y: int)
  {
    forall k :: x <= k < y ==> WeightAt(ws, k) == None
  }

  /** The two ways weights of one id are put together. */
  datatype Comb = AddComb(factor: real) | SubtractComb(factor: real)

  function Apply(comb: Comb, w1: Option<real>, w2: Option<real>): Option<real>
  {
    match comb
    case AddComb(factor) =>
      if w1.Some? && w2.Some? then Some(w1.value + RTimes(factor, w2.value))
      else if w1.Some? then w1
      else if w2.Some? then Some(RTimes(factor, w2.value))
      else None
    case SubtractComb(factor) =>
      if w1.Some? && w2.Some? then
        if w1.value - RTimes(factor, w2.value) != 0.0 then Some(w1.value - RTimes(factor, w2.value)) else None
      else if w1.Some? then w1
      else if w2.Some? then Some(-RTimes(factor, w2.value))
      else None
  }

  /** The result has, for every id, what comb makes of the two weights. */
  ghost predicate Combines(a: seq<WRange>, b: seq<WRange>, r: seq<WRange>, comb: Comb)
  {
    forall x :: WeightAt(r, x) == Apply(comb, WeightAt(a, x), WeightAt(b, x))
  }

  /** The result so far is right for all ids below m and has no others. */
  ghost predicate Merged(o: seq<WRange>, a: seq<WRange>, b: seq<WRange>, comb: Comb, m: int)
  {
    && WSorted(o) && Maximal(o) && (o != [] ==> o[|o| - 1].high < m)
    && forall x :: x < m ==> WeightAt(o, x) == Apply(comb, WeightAt(a, x), WeightAt(b, x))
  }

  /**
   * The two ways as equations between weights, a missing one counting as 0: adding gives the first
   * and factor times the second, and what subtracting gives is the first if that is added again.
   */
  lemma CombinedWeights(a: seq<WRange>, b: seq<WRange>, r: seq<WRange>, comb: Comb)
    requires Combines(a, b, r, comb)
    ensures comb.AddComb? ==> forall x ::
      && WeightAt(r, x).GetOr(0.0) == WeightAt(a, x).GetOr(0.0) + comb.factor * WeightAt(b, x).GetOr(0.0)
      && (WeightAt(r, x).None? <==> WeightAt(a, x).None? && WeightAt(b, x).None?)
    ensures comb.SubtractComb? ==> forall x ::
      && WeightAt(r, x).GetOr(0.0) + comb.factor * WeightAt(b, x).GetOr(0.0) == WeightAt(a, x).GetOr(0.0)
      && (WeightAt(r, x).None? <==>
           || (WeightAt(a, x).None? && WeightAt(b, x).None?)
           || (WeightAt(a, x).Some? && WeightAt(b, x).Some? && WeightAt(r, x).GetOr(0.0) == 0.0))
  {
    hide WeightAt;
  }

  lemma AdvanceMeaning(ws: seq<WRange>, it: IdIterator)
    requires WSorted(ws) && AtId(ws, it)
    ensures it.range < |ws| ==> WeightAt(ws, it.id) == Some(ws[it.range].weight)
    ensures it.range < |ws| ==> AtId(ws, NextId(ws, it)) && Front(ws, NextId(ws, it)) > it.id
    ensures it.range < |ws| ==> NoneUpTo(ws, it.id + 1, Front(ws, NextId(ws, it)))
  {
    hide WeightAt;
    if it.range < |ws| {
      WeightIn(ws, it.range, it.id);
      forall k | it.id + 1 <= k < Front(ws, NextId(ws, it))
        ensures WeightAt(ws, k) == None
      {
        WeightBetween(ws, it.range, k);
      }
    }
  }

  lemma {:induction false} WeightBetween(ws: seq<WRange>, i: nat, x: int)
    requires WSorted(ws) && i < |ws| && ws[i].high < x && (i + 1 < |ws| ==> x < ws[i + 1].low)
    ensures WeightAt(ws, x) == None
  {
    if i == 0 {
      WeightBefore(ws[1..], x);
    } else {
      assert ws[0].high < ws[i].low;
      WeightBetween(ws[1..], i - 1, x);
    }
  }

  lemma WeightedSorted(rs: seq<Range>, siz: int, weights: map<nat, real>)
    requires ValidParts(rs, siz, weights)
    ensures WSorted(Zip(rs, weights))
  {
    ZipSorted(rs, weights);
  }

  /** The state of the merge loop: two iterators, and the right result below the smaller one. */
  ghost predicate MergeState(o: seq<WRange>, a: seq<WRange>, b: seq<WRange>, comb: Comb, it1: IdIterator, it2: IdIterator)
  {
    && WSorted(a) && WSorted(b) && AtId(a, it1) && AtId(b, it2)
    && Merged(o, a, b, comb, MinFront(a, it1, b, it2))
    && NoneUpTo(a, MinFront(a, it1, b, it2), Front(a, it1)) && NoneUpTo(b, MinFront(a, it1, b, it2), Front(b, it2))
  }

  /** The weight an iterator contributes at id m, and where it goes from there. */
  function WeightHere(ws: seq<WRange>, it: IdIterator, m: nat): Option<real>
  {
    if it.range < |ws| && it.id == m then Some(ws[it.range].weight) else None
  }

  function Passing(ws: seq<WRange>, it: IdIterator, m: nat): IdIterator
  {
    if it.range < |ws| && it.id == m then NextId(ws, it) else it
  }

  function PushOption(o: seq<WRange>, m: nat, w: Option<real>): seq<WRange>
  {
    if w.Some? then PushWeighted(o, m, m, w.value) else o
  }

  /** One step: the smaller id is dealt with and the iterators on it move on. */
  lemma MergeStep(o: seq<WRange>, a: seq<WRange>, b: seq<WRange>, comb: Comb, it1: IdIterator, it2: IdIterator)
    requires MergeState(o, a, b, comb, it1, it2) && (it1.range < |a| || it2.range < |b|)
    ensures var m := MinFront(a, it1, b, it2);
      var n1, n2 := Passing(a, it1, m), Passing(b, it2, m);
      && MergeState(PushOption(o, m, Apply(comb, WeightHere(a, it1, m), WeightHere(b, it2, m))), a, b, comb, n1, n2)
      && m < NO_IDENTIFIER && m < MinFront(a, n1, b, n2) && n1.range <= |a| && n2.range <= |b|
  {
    hide WeightAt, WSorted, Maximal, RTimes, PushWeighted, Merged;
    AdvanceMeaning(a, it1);
    AdvanceMeaning(b, it2);
    var m := MinFront(a, it1, b, it2);
    var n1, n2 := Passing(a, it1, m), Passing(b, it2, m);
    assert WeightAt(a, m) == WeightHere(a, it1, m);
    assert WeightAt(b, m) == WeightHere(b, it2, m);
    var w := Apply(comb, WeightHere(a, it1, m), WeightHere(b, it2, m));
    if w.Some? {
      MergedPush(o, a, b, comb, m, MinFront(a, n1, b, n2), w.value);
    } else {
      MergedSkip(o, a, b, comb, m, MinFront(a, n1, b, n2));
    }
  }

  lemma EndsBelow(rs: seq<Range>, weights: map<nat, real>, a: seq<WRange>, b: seq<WRange>, comb: Comb, it1: IdIterator, it2: IdIterator)
    requires MergeState(Zip(rs, weights), a, b, comb, it1, it2)
    ensures rs != [] ==> rs[|rs| - 1].high < MinFront(a, it1, b, it2)
  {
    hide WeightAt, WSorted, Maximal, RTimes;
  }

  lemma MergeStart(a: seq<WRange>, b: seq<WRange>, comb: Comb)
    requires WSorted(a) && WSorted(b)
    ensures MergeState([], a, b, comb, BeginId(a), BeginId(b))
  {
    hide WeightAt, RTimes;
    WeightNone();
    NothingBeforeFirst(a);
    NothingBeforeFirst(b);
  }

  lemma NothingBeforeFirst(ws: seq<WRange>)
    requires WSorted(ws)
    ensures forall x :: x < Front(ws, BeginId(ws)) ==> WeightAt(ws, x) == None
  {
    hide WeightAt;
    forall x | x < Front(ws, BeginId(ws))
      ensures WeightAt(ws, x) == None
    {
      WeightBefore(ws, x);
    }
  }

  lemma MergedPush(o: seq<WRange>, a: seq<WRange>, b: seq<WRange>, comb: Comb, m: nat, m': int, w: real)
    requires Merged(o, a, b, comb, m) && m < m' && m < NO_IDENTIFIER
    requires Apply(comb, WeightAt(a, m), WeightAt(b, m)) == Some(w)
    requires NoneUpTo(a, m + 1, m') && NoneUpTo(b, m + 1, m')
    ensures Merged(PushWeighted(o, m, m, w), a, b, comb, m')
  {
    hide WeightAt, PushWeighted, Apply, Maximal;
    var pushed := PushWeighted(o, m, m, w);
    PushMeaning(o, m, m, w);
    PushLast(o, m, m, w);
    forall x | x < m'
      ensures WeightAt(pushed, x) == Apply(comb, WeightAt(a, x), WeightAt(b, x))
    {
      if x > m {
        WeightBehind(o, x);
        assert WeightAt(a, x) == None && WeightAt(b, x) == None;
        ApplyNone(comb);
      }
    }
  }

  lemma ApplyNone(comb: Comb)
    ensures Apply(comb, None, None) == None
  {
  }

  lemma PushLast(o: seq<WRange>, low: nat, high: nat, w: real)
    ensures PushWeighted(o, low, high, w) != [] && PushWeighted(o, low, high, w)[|PushWeighted(o, low, high, w)| - 1].high == high
  {
  }

  lemma MergedSkip(o: seq<WRange>, a: seq<WRange>, b: seq<WRange>, comb: Comb, m: nat, m': int)
    requires Merged(o, a, b, comb, m) && m < m'
    requires Apply(comb, WeightAt(a, m), WeightAt(b, m)) == None
    requires NoneUpTo(a, m + 1, m') && NoneUpTo(b, m + 1, m')
    ensures Merged(o, a, b, comb, m')
  {
    hide WeightAt, Apply, Maximal;
    forall x | x < m'
      ensures WeightAt(o, x) == Apply(comb, WeightAt(a, x), WeightAt(b, x))
    {
      if x >= m {
        WeightBehind(o, x);
        ApplyNone(comb);
      }
    }
  }

  lemma MergeEnd(a: seq<WRange>, b: seq<WRange>, o: seq<WRange>, comb: Comb, it1: IdIterator, it2: IdIterator)
    requires MergeState(o, a, b, comb, it1, it2) && it1.range == |a| && it2.range == |b|
    ensures Combines(a, b, o, comb) && Maximal(o)
  {
    hide WeightAt, RTimes;
    forall x
      ensures WeightAt(o, x) == Apply(comb, WeightAt(a, x), WeightAt(b, x))
    {
      if x >= NO_IDENTIFIER {
        WeightBehind(a, x);
        WeightBehind(b, x);
        WeightBehind(o, x);
      }
    }
  }

  /** Some id of both sets has weight 0 in the first one. */
  ghost predicate SharesZero(a: seq<WRange>, b: seq<WRange>)
  {
    exists x :: WeightAt(a, x) == Some(0.0) && WeightAt(b, x).Some?
  }

  lemma AddThenSubtract(a: seq<WRange>, b: seq<WRange>, sum: seq<WRange>, r: seq<WRange>, factor: real, x: int)
    requires Combines(a, b, sum, AddComb(factor)) && Combines(sum, b, r, SubtractComb(factor))
    ensures WeightAt(r, x) == if WeightAt(a, x) == Some(0.0) && WeightAt(b, x).Some? then None else WeightAt(a, x)
  {
    var w1, w2 := WeightAt(a, x), WeightAt(b, x);
    assert WeightAt(sum, x) == Apply(AddComb(factor), w1, w2);
    assert WeightAt(r, x) == Apply(SubtractComb(factor), WeightAt(sum, x), w2);
    ApplyTwice(factor, w1, w2);
  }

  /** Adding a multiple of a weight and taking it away again. */
  lemma ApplyTwice(factor: real, w1: Option<real>, w2: Option<real>)
    ensures Apply(SubtractComb(factor), Apply(AddComb(factor), w1, w2), w2) ==
      if w1 == Some(0.0) && w2.Some? then None else w1
  {
    hide RTimes;
  }

  /**
   * Subtracting what was added gives back the set, unless an id of both sets had weight 0:
   * then, and only then, something is lost.
   */
  lemma SubtractUndoesAdd(a: seq<WRange>, b: seq<WRange>, sum: seq<WRange>, r: seq<WRange>, factor: real)
    requires WSorted(a) && Maximal(a) && WSorted(r) && Maximal(r)
    requires Combines(a, b, sum, AddComb(factor)) && Combines(sum, b, r, SubtractComb(factor))
    ensures r == a <==> !SharesZero(a, b)
  {
    if SharesZero(a, b) {
      var x :| WeightAt(a, x) == Some(0.0) && WeightAt(b, x).Some?;
      AddThenSubtract(a, b, sum, r, factor, x);
    } else {
      forall x
        ensures WeightAt(a, x) == WeightAt(r, x)
      {
        AddThenSubtract(a, b, sum, r, factor, x);
      }
      MaximalUnique(a, r);
    }
  }

  /** An id of weight 0 that the other set has too: it is added to and subtracted from, and then it is gone. */
  lemma VanishedExample(a: seq<WRange>, b: seq<WRange>, sum: seq<WRange>, r: seq<WRange>)
    requires a == [WRange(1, 1, 0.0)] && b == [WRange(1, 1, 2.0)] && sum == [WRange(1, 1, 2.0)] && r == []
    ensures WSorted(a) && Maximal(a) && WSorted(r) && Maximal(r) && SharesZero(a, b)
    ensures Combines(a, b, sum, AddComb(1.0)) && Combines(sum, b, r, SubtractComb(1.0))
    ensures r != a
  {
    forall x
      ensures WeightAt(a, x) == (if x == 1 then Some(0.0) else None)
      ensures WeightAt(b, x) == (if x == 1 then Some(2.0) else None)
      ensures WeightAt(sum, x) == (if x == 1 then Some(2.0) else None)
      ensures WeightAt(r, x) == None
    {
      WeightOne(a[0], x);
      WeightOne(b[0], x);
    }
    assert WeightAt(a, 1) == Some(0.0) && WeightAt(b, 1).Some?;
  }

  // Facts behind the in-place operations

  /** Every range is a single id: the state between fastAdd calls. */
  ghost predicate Singles(rs: seq<Range>)
  {
    forall i :: 0 <= i < |rs| ==> rs[i].low == rs[i].high
  }

  /** The runs i - 1 and i cannot be joined. */
  ghost predicate Broken(ws: seq<WRange>, i: nat)
  {
    0 < i < |ws| && (ws[i - 1].high + 1 == ws[i].low ==> ws[i - 1].weight != ws[i].weight)
  }

  lemma SinglesTail(rs: seq<Range>, i: nat)
    requires i < |rs| && Singles(rs[i..])
    ensures rs[i].low == rs[i].high && Singles(rs[i + 1..])
  {
    assert rs[i..][0] == rs[i];
    var rest := rs[i + 1..];
    assert forall j :: 0 <= j < |rest| ==> rest[j] == rs[i..][j + 1];
  }

  lemma PartsSorted(rs: seq<Range>, siz: int, weights: map<nat, real>)
    requires ValidParts(rs, siz, weights)
    ensures Sorted(rs)
  {
  }

  lemma ZipConcat(a: seq<Range>, b: seq<Range>, weights: map<nat, real>)
    ensures Zip(a + b, weights) == Zip(a, weights) + Zip(b, weights)
  {
  }

  lemma ZipSame(a: seq<Range>, w: map<nat, real>, w': map<nat, real>)
    requires forall i :: 0 <= i < |a| ==> RangeWeight(w, a[i].low) == RangeWeight(w', a[i].low)
    ensures Zip(a, w) == Zip(a, w')
  {
  }

  lemma ZipSorted(a: seq<Range>, w: map<nat, real>)
    requires Sorted(a)
    ensures WSorted(Zip(a, w))
  {
  }

  lemma StartAt(rs: seq<Range>, i: nat)
    requires i < |rs|
    ensures IsStart(rs, rs[i].low)
  {
  }

  lemma StartsDiffer(rs: seq<Range>)
    requires Sorted(rs)
    ensures forall i, j :: 0 <= i < j < |rs| ==> rs[i].low != rs[j].low
  {
  }

  lemma AboveStrictly(rs: seq<Range>, k: nat, id: nat)
    requires Sorted(rs) && k <= |rs| && forall i :: k <= i < |rs| ==> id <= rs[i].low
    ensures (k < |rs| ==> rs[k].low != id) ==> forall i :: k <= i < |rs| ==> id < rs[i].low
  {
  }

  function Stored(weights: map<nat, real>, id: nat, weight: real): map<nat, real>
  {
    if weight != 1.0 then weights[id := weight] else weights - {id}
  }

  lemma AddExisting(rs: seq<Range>, siz: int, weights: map<nat, real>, k: nat, weight: real)
    requires ValidParts(rs, siz, weights) && Singles(rs) && k < |rs|
    ensures ValidParts(rs, siz, Stored(weights, rs[k].low, RangeWeight(weights, rs[k].low) + weight))
    ensures Added(Zip(rs, weights), Zip(rs, Stored(weights, rs[k].low, RangeWeight(weights, rs[k].low) + weight)), rs[k].low, weight)
  {
    hide WeightAt, Count, IsStart;
    StartAt(rs, k);
    StartsDiffer(rs);
    var id := rs[k].low;
    var w' := Stored(weights, id, RangeWeight(weights, id) + weight);
    assert rs == rs[..k] + [rs[k]] + rs[k + 1..];
    forall x
      ensures WeightAt(Zip(rs, w'), x) ==
        (if x == id then Some(WeightAt(Zip(rs, weights), x).GetOr(0.0) + weight) else WeightAt(Zip(rs, weights), x))
    {
      WeightThree(rs[..k], rs[k], rs[k + 1..], weights, x);
      WeightThree(rs[..k], rs[k], rs[k + 1..], w', x);
      ZipSame(rs[..k], weights, w');
      ZipSame(rs[k + 1..], weights, w');
    }
  }

  lemma AroundOne(a: seq<Range>, r: Range, b: seq<Range>)
    requires Sorted(a + [r] + b)
    ensures Proper(r)
    ensures forall i :: 0 <= i < |a| ==> a[i].high < r.low
    ensures forall i :: 0 <= i < |b| ==> r.high < b[i].low
  {
    var all := a + [r] + b;
    assert forall i :: 0 <= i < |a| ==> all[i] == a[i];
    assert all[|a|] == r;
    assert forall i :: 0 <= i < |b| ==> all[|a| + 1 + i] == b[i];
  }

  /** The weight of an id in a sequence seen as what is before, at and behind one range. */
  lemma WeightThree(a: seq<Range>, r: Range, b: seq<Range>, weights: map<nat, real>, x: int)
    requires Sorted(a + [r] + b)
    ensures WeightAt(Zip(a + [r] + b, weights), x) ==
      (if x < r.low then WeightAt(Zip(a, weights), x)
       else if x <= r.high then Some(RangeWeight(weights, r.low))
       else WeightAt(Zip(b, weights), x))
  {
    hide WeightAt, Sorted;
    AroundOne(a, r, b);
    ZipConcat(a + [r], b, weights);
    ZipConcat(a, [r], weights);
    WeightConcat(Zip(a + [r], weights), Zip(b, weights), x);
    WeightConcat(Zip(a, weights), Zip([r], weights), x);
    WeightOne(WRange(r.low, r.high, RangeWeight(weights, r.low)), x);
    assert Zip([r], weights) == [WRange(r.low, r.high, RangeWeight(weights, r.low))];
    if x <= r.high {
      WeightBefore(Zip(b, weights), x);
    }
    if x >= r.low {
      WeightBehind(Zip(a, weights), x);
    }
  }

  lemma InsertSorted(rs: seq<Range>, k: nat, id: nat)
    requires Sorted(rs) && Singles(rs) && k <= |rs| && id < NO_IDENTIFIER
    requires forall i :: 0 <= i < k ==> rs[i].low < id
    requires forall i :: k <= i < |rs| ==> id < rs[i].low
    ensures Sorted(rs[..k] + [Range(id, id)] + rs[k..]) && Singles(rs[..k] + [Range(id, id)] + rs[k..])
    ensures !IsStart(rs, id)
  {
  }

  lemma AddFresh(rs: seq<Range>, siz: int, weights: map<nat, real>, k: nat, id: nat, weight: real)
    requires ValidParts(rs, siz, weights) && Singles(rs) && k <= |rs| && id < NO_IDENTIFIER
    requires forall i :: 0 <= i < k ==> rs[i].low < id
    requires forall i :: k <= i < |rs| ==> id < rs[i].low
    ensures ValidParts(rs[..k] + [Range(id, id)] + rs[k..], siz + 1, if weight != 1.0 then weights[id := weight] else weights)
    ensures Singles(rs[..k] + [Range(id, id)] + rs[k..])
    ensures Added(Zip(rs, weights), Zip(rs[..k] + [Range(id, id)] + rs[k..], if weight != 1.0 then weights[id := weight] else weights), id, weight)
  {
    hide WeightAt, Count;
    var a, r, b := rs[..k], Range(id, id), rs[k..];
    var w' := if weight != 1.0 then weights[id := weight] else weights;
    assert rs == a + b;
    CountConcat(a, b);
    CountSplice(a, [r], b);
    CountSingle(r);
    InsertSorted(rs, k, id);
    hide Sorted;
    assert !IsStart(rs, id);
    forall low
      ensures IsStart(a + [r] + b, low) <==> IsStart(rs, low) || low == id
    {
      IsStartConcat(a + [r], b, low);
      IsStartConcat(a, [r], low);
      IsStartConcat(a, b, low);
      IsStartOne(r, low);
    }
    AddFreshWeights(rs, weights, k, id, weight);
  }

  lemma AddFreshWeights(rs: seq<Range>, weights: map<nat, real>, k: nat, id: nat, weight: real)
    requires k <= |rs| && id !in weights
    requires Sorted(rs) && Sorted(rs[..k] + [Range(id, id)] + rs[k..])
    requires forall i :: 0 <= i < |rs| ==> rs[i].low != id
    ensures Added(Zip(rs, weights), Zip(rs[..k] + [Range(id, id)] + rs[k..], if weight != 1.0 then weights[id := weight] else weights), id, weight)
  {
    hide WeightAt, Sorted;
    var a, r, b := rs[..k], Range(id, id), rs[k..];
    var w' := if weight != 1.0 then weights[id := weight] else weights;
    assert rs == a + b;
    AroundOne(a, r, b);
    ZipSame(a, weights, w');
    ZipSame(b, weights, w');
    ZipConcat(a, b, weights);
    forall x
      ensures WeightAt(Zip(a + [r] + b, w'), x) ==
        (if x == id then Some(WeightAt(Zip(rs, weights), x).GetOr(0.0) + weight) else WeightAt(Zip(rs, weights), x))
    {
      WeightThree(a, r, b, w', x);
      WeightAround(Zip(a, weights), Zip(b, weights), id, x);
    }
  }

  /** Around an id that lies between two sorted sequences, the weights are those of either. */
  lemma WeightAround(a: seq<WRange>, b: seq<WRange>, id: nat, x: int)
    requires forall i :: 0 <= i < |a| ==> a[i].high < id
    requires forall i :: 0 <= i < |b| ==> id < b[i].low
    ensures WeightAt(a + b, x) == if x < id then WeightAt(a, x) else if x == id then None else WeightAt(b, x)
  {
    hide WeightAt;
    WeightConcat(a, b, x);
    if x <= id {
      WeightBefore(b, x);
    }
    if x >= id {
      WeightBehind(a, x);
    }
  }

  /** Range it and the touching single id behind it, of equal weight, become one range. */
  function Joined(rs: seq<Range>, it: nat): seq<Range>
    requires it + 1 < |rs|
  {
    rs[..it] + [Range(rs[it].low, rs[it].high + 1)] + rs[it + 2..]
  }

  function WithoutNext(rs: seq<Range>, weights: map<nat, real>, it: nat): map<nat, real>
    requires it + 1 < |rs|
  {
    if RangeWeight(weights, rs[it + 1].low) != 1.0 then weights - {rs[it + 1].low} else weights
  }

  ghost predicate CanJoin(rs: seq<Range>, weights: map<nat, real>, it: nat)
  {
    && it + 1 < |rs| && rs[it].high + 1 == rs[it + 1].low == rs[it + 1].high
    && RangeWeight(weights, rs[it].low) == RangeWeight(weights, rs[it + 1].low)
  }

  lemma JoinNext(rs: seq<Range>, siz: int, weights: map<nat, real>, it: nat)
    requires ValidParts(rs, siz, weights) && CanJoin(rs, weights, it)
    ensures ValidParts(Joined(rs, it), siz, WithoutNext(rs, weights, it)) && Joined(rs, it)[it + 1..] == rs[it + 2..]
    ensures RangeWeight(WithoutNext(rs, weights, it), rs[it].low) == RangeWeight(weights, rs[it].low)
    ensures forall x :: WeightAt(Zip(Joined(rs, it), WithoutNext(rs, weights, it)), x) == WeightAt(Zip(rs, weights), x)
    ensures Zip(Joined(rs, it), WithoutNext(rs, weights, it))[..it] == Zip(rs, weights)[..it]
    ensures 0 < it && Broken(Zip(rs, weights), it) ==> Broken(Zip(Joined(rs, it), WithoutNext(rs, weights, it)), it)
  {
    hide WeightAt, Count, IsStart;
    StartsDiffer(rs);
    JoinSorted(rs, it);
    JoinCount(rs, it);
    var w' := WithoutNext(rs, weights, it);
    forall k | k in w'
      ensures w'[k] != 1.0 && IsStart(Joined(rs, it), k)
    {
      JoinStarts(rs, it, k);
    }
    JoinWeights(rs, weights, it);
  }

  lemma JoinSorted(rs: seq<Range>, it: nat)
    requires Sorted(rs) && it + 1 < |rs| && rs[it].high + 1 == rs[it + 1].low == rs[it + 1].high
    ensures Sorted(Joined(rs, it)) && Joined(rs, it)[it + 1..] == rs[it + 2..]
  {
  }

  lemma JoinCount(rs: seq<Range>, it: nat)
    requires it + 1 < |rs| && rs[it].high + 1 == rs[it + 1].low == rs[it + 1].high
    ensures Count(Joined(rs, it)) == Count(rs)
  {
    hide Count;
    var a, r1, r2, b := rs[..it], rs[it], rs[it + 1], rs[it + 2..];
    assert rs == a + [r1, r2] + b;
    CountSplice(a, [r1, r2], b);
    CountSplice(a, [Range(r1.low, r1.high + 1)], b);
    CountSingle(Range(r1.low, r1.high + 1));
    assert [r1, r2] == [r1] + [r2];
    CountConcat([r1], [r2]);
    CountSingle(r1);
    CountSingle(r2);
  }

  lemma JoinStarts(rs: seq<Range>, it: nat, low: nat)
    requires it + 1 < |rs| && IsStart(rs, low)
    ensures low == rs[it + 1].low || IsStart(Joined(rs, it), low)
  {
    var i :| 0 <= i < |rs| && rs[i].low == low;
    if i <= it {
      assert Joined(rs, it)[i].low == low;
    } else if i > it + 1 {
      assert Joined(rs, it)[i - 1].low == low;
    }
  }

  lemma JoinWeights(rs: seq<Range>, weights: map<nat, real>, it: nat)
    requires Sorted(rs) && CanJoin(rs, weights, it) && Sorted(Joined(rs, it))
    requires forall i, j :: 0 <= i < j < |rs| ==> rs[i].low != rs[j].low
    ensures forall x :: WeightAt(Zip(Joined(rs, it), WithoutNext(rs, weights, it)), x) == WeightAt(Zip(rs, weights), x)
  {
    hide WeightAt, Sorted;
    var a, r1, r2, b := rs[..it], rs[it], rs[it + 1], rs[it + 2..];
    var r := Range(r1.low, r1.high + 1);
    var w' := WithoutNext(rs, weights, it);
    ZipSame(a, weights, w');
    ZipSame(b, weights, w');
    assert rs == a + [r1] + ([r2] + b);
    forall x
      ensures WeightAt(Zip(Joined(rs, it), w'), x) == WeightAt(Zip(rs, weights), x)
    {
      WeightThree(a, r, b, w', x);
      WeightThree(a, r1, [r2] + b, weights, x);
      ZipConcat([r2], b, weights);
      WeightConcat(Zip([r2], weights), Zip(b, weights), x);
      assert Zip([r2], weights) == [WRange(r2.low, r2.high, RangeWeight(weights, r2.low))];
      WeightOne(WRange(r2.low, r2.high, RangeWeight(weights, r2.low)), x);
    }
  }

  lemma MaximalStep(ws: seq<WRange>, it: nat)
    requires it < |ws| && Maximal(ws[..it]) && (0 < it ==> Broken(ws, it))
    ensures Maximal(ws[..it + 1])
  {
    assert forall i :: 0 <= i < it ==> ws[..it][i] == ws[i];
    assert forall i :: 0 <= i < it + 1 ==> ws[..it + 1][i] == ws[i];
  }

  function Scaled(r: WRange, factor: real): WRange
  {
    WRange(r.low, r.high, RTimes(r.weight, factor))
  }

  /** The first i ranges have their new weights already. */
  ghost predicate PartlyScaled(a: seq<WRange>, b: seq<WRange>, factor: real, i: nat)
  {
    |a| == |b| && forall j :: 0 <= j < |a| ==> b[j] == if j < i then Scaled(a[j], factor) else a[j]
  }

  lemma TimesOne(ws: seq<WRange>)
    ensures forall j :: 0 <= j < |ws| ==> ws[j] == Scaled(ws[j], 1.0)
  {
  }

  lemma ScaleOne(rs: seq<Range>, siz: int, weights: map<nat, real>, before: seq<WRange>, factor: real, i: nat)
    requires ValidParts(rs, siz, weights) && PartlyScaled(before, Zip(rs, weights), factor, i) && i < |rs|
    ensures ValidParts(rs, siz, Stored(weights, rs[i].low, RTimes(RangeWeight(weights, rs[i].low), factor)))
    ensures PartlyScaled(before, Zip(rs, Stored(weights, rs[i].low, RTimes(RangeWeight(weights, rs[i].low), factor))), factor, i + 1)
  {
    hide IsStart, Count, RTimes;
    StartAt(rs, i);
    StartsDiffer(rs);
  }

  lemma ScaledWeights(a: seq<WRange>, b: seq<WRange>, factor: real)
    requires PartlyScaled(a, b, factor, |a|)
    ensures ScaledBy(a, b, factor)
  {
    forall x
      ensures WeightAt(b, x) == ScaledOption(WeightAt(a, x), factor)
    {
      ScaledWeight(a, b, factor, x);
    }
  }

  lemma ScaledNumbers(a: seq<WRange>, b: seq<WRange>, factor: real)
    requires ScaledBy(a, b, factor)
    ensures forall x :: WeightAt(b, x).GetOr(0.0) == WeightAt(a, x).GetOr(0.0) * factor && (WeightAt(b, x).None? <==> WeightAt(a, x).None?)
  {
    hide WeightAt;
  }

  lemma {:induction false} ScaledWeight(a: seq<WRange>, b: seq<WRange>, factor: real, x: int)
    requires PartlyScaled(a, b, factor, |a|)
    ensures WeightAt(b, x) == ScaledOption(WeightAt(a, x), factor)
  {
    hide RTimes;
    if a == [] {
      assert b == [];
    } else {
      assert b[0] == Scaled(a[0], factor);
      var ta, tb := a[1..], b[1..];
      assert forall j :: 0 <= j < |ta| ==> tb[j] == b[j + 1] && ta[j] == a[j + 1];
      ScaledWeight(ta, tb, factor, x);
    }
  }

  // ------------------------------------------------------------------------------------------
  // The base elements of a consolidated element
  // ------------------------------------------------------------------------------------------

  /** A child with its weight in the parent, and its own weighted base elements, none if it is a base itself. */
  datatype Child = Child(id: nat, weight: real, bases: seq<WRange>)

  ghost predicate ValidChildren(children: seq<Child>)
  {
    forall i :: 0 <= i < |children| ==> children[i].id < NO_IDENTIFIER && WSorted(children[i].bases)
  }

  /** What one child contributes to a base element. */
  function ChildWeight(c: Child, x: int): Option<real>
  {
    if c.bases == [] then (if x == c.id then Some(c.weight) else None)
    else ScaledOption(WeightAt(c.bases, x), c.weight)
  }

  function Plus(sum: Option<real>, w: Option<real>): Option<real>
  {
    if w.Some? then Some(sum.GetOr(0.0) + w.value) else sum
  }

  /** The sum over all children, if any contributes. */
  function TotalWeight(children: seq<Child>, x: int): Option<real>
  {
    if children == [] then None
    else Plus(TotalWeight(children[..|children| - 1], x), ChildWeight(children[|children| - 1], x))
  }

  /**
   * A child that is a base itself brings in its weight in the parent, and any other the weights of
   * its own base elements times that weight; without children there is nothing.
   */
  lemma OneChildMore(children: seq<Child>, c: Child, x: int)
    ensures TotalWeight([], x) == None
    ensures
      var before, after := TotalWeight(children, x), TotalWeight(children + [c], x);
      if c.bases == [] then after == if x == c.id then Some(before.GetOr(0.0) + c.weight) else before
      else if WeightAt(c.bases, x).Some? then after.Some? && after.value == before.GetOr(0.0) + WeightAt(c.bases, x).value * c.weight
      else after == before
  {
    hide WeightAt, TotalWeight;
    LastChild(children, c, x);
  }

  lemma LastChild(children: seq<Child>, c: Child, x: int)
    ensures TotalWeight([], x) == None
    ensures TotalWeight(children + [c], x) == Plus(TotalWeight(children, x), ChildWeight(c, x))
  {
    hide WeightAt, ChildWeight;
    assert (children + [c])[..|children|] == children && (children + [c])[|children|] == c;
  }

  /**
   * Rebuilds a consolidated element's base elements from its children: fastAdd per base element,
   * then consolidate. Per id the result is the sum of the children's contributions, in maximal runs.
   */
  method CollectBases(children: seq<Child>) returns (bases: WeightedSet)
    requires ValidChildren(children)
    ensures fresh(bases) && bases.Valid() && Maximal(bases.Weighted())
    ensures forall x :: WeightAt(bases.Weighted(), x) == TotalWeight(children, x)
  {
    hide ValidParts, WeightAt, Singles, Maximal, RTimes, WSorted;
    bases := new WeightedSet();
    NoSingles();
    WeightNone();
    assert children[..0] == [];
    for i := 0 to |children|
      invariant fresh(bases) && bases.Valid() && Singles(bases.ranges)
      invariant forall x :: WeightAt(bases.Weighted(), x) == TotalWeight(children[..i], x)
    {
      var c := children[i];
      assert children[..i + 1][..i] == children[..i];
      if c.bases == [] {
        bases.FastAdd(c.id, c.weight);
      } else {
        var it := BeginId(c.bases);
        BeginsAt(c.bases);
        NothingBeforeFirst(c.bases);
        while it.range < |c.bases|
          invariant fresh(bases) && bases.Valid() && Singles(bases.ranges)
          invariant AtId(c.bases, it)
          invariant forall x :: WeightAt(bases.Weighted(), x) == PartTotal(children[..i], c, Front(c.bases, it), x)
          decreases NO_IDENTIFIER - Front(c.bases, it)
        {
          AdvanceMeaning(c.bases, it);
          bases.FastAdd(it.id, RTimes(c.bases[it.range].weight, c.weight));
          it := NextId(c.bases, it);
        }
        AllBelowNo(c.bases);
      }
    }
    assert children[..|children|] == children;
    bases.Consolidate();
  }

  /** The total while child c is being added: its ids below m are in already. */
  function PartTotal(before: seq<Child>, c: Child, m: int, x: int): Option<real>
  {
    if x < m then Plus(TotalWeight(before, x), ChildWeight(c, x)) else TotalWeight(before, x)
  }

  lemma NoSingles()
    ensures Singles([])
  {
  }

  lemma BeginsAt(ws: seq<WRange>)
    requires WSorted(ws)
    ensures AtId(ws, BeginId(ws))
  {
  }

  lemma AllBelowNo(ws: seq<WRange>)
    requires WSorted(ws)
    ensures forall x :: x >= NO_IDENTIFIER ==> WeightAt(ws, x) == None
  {
    hide WeightAt;
    forall x | x >= NO_IDENTIFIER
      ensures WeightAt(ws, x) == None
    {
      WeightBehind(ws, x);
    }
  }

  // ------------------------------------------------------------------------------------------
  // Restriction to filters
  // ------------------------------------------------------------------------------------------

  function RunsOf(o: Option<seq<WRange>>): seq<WRange>
  {
    o.GetOr([])
  }

  /** The runs are well formed and end at or before the given id; there are no runs only if none are needed. */
  ghost predicate RunsUpTo(o: Option<seq<WRange>>, end: int)
  {
    && WSorted(RunsOf(o)) && (o.Some? ==> o.value != [])
    && (RunsOf(o) != [] ==> RunsOf(o)[|RunsOf(o)| - 1].high <= end)
  }

  /** Weights inside the filter as given, none outside. */
  ghost predicate RestrictedTo(ws: seq<WRange>, fs: seq<Range>, o: Option<seq<WRange>>)
  {
    forall x :: WeightAt(RunsOf(o), x) == Restricted(ws, fs, x)
  }

  ghost function Restricted(ws: seq<WRange>, fs: seq<Range>, x: int): Option<real>
  {
    if In(fs, x) then WeightAt(ws, x) else None
  }

  /** The weights once the part of r below c has been swept with a filter. */
  ghost function Swept(r: WRange, c: int, fs: seq<Range>, before: seq<WRange>, x: int): Option<real>
  {
    if r.low <= x < c then (if In(fs, x) then Some(r.weight) else None) else WeightAt(before, x)
  }

  ghost predicate SweptTo(r: WRange, c: int, fs: seq<Range>, before: Option<seq<WRange>>, after: Option<seq<WRange>>)
  {
    forall x :: WeightAt(RunsOf(after), x) == Swept(r, c, fs, RunsOf(before), x)
  }

  /** The weights once one more range has been passed. */
  function Extended(before: seq<WRange>, r: WRange, x: int): Option<real>
  {
    if r.low <= x <= r.high then Some(r.weight) else WeightAt(before, x)
  }

  /**
   * The sweep of one filter over one range: pushes the common parts, and leaves the filter's
   * position on the first of its ranges that reaches beyond.
   */
  method FilterRange(r: WRange, fs: seq<Range>, pos0: nat, o0: Option<seq<WRange>>, ghost end: int)
      returns (pos: nat, o: Option<seq<WRange>>)
    requires r.low <= r.high < NO_IDENTIFIER && Canonical(fs) && pos0 <= |fs| && end < r.low
    requires RunsUpTo(o0, end) && (pos0 > 0 ==> fs[pos0 - 1].high <= end)
    ensures pos <= |fs| && RunsUpTo(o, r.high) && (pos > 0 ==> fs[pos - 1].high <= r.high)
    ensures SweptTo(r, r.high + 1, fs, o0, o)
  {
    hide In, WeightAt, Canonical, SweptTo, RunsUpTo;
    pos, o := pos0, o0;
    ghost var c: int := r.low;
    SweepStart(r, fs, o0, end);
    while pos < |fs|
      invariant pos <= |fs| && r.low <= c <= r.high + 1
      invariant pos > 0 ==> fs[pos - 1].high < c && fs[pos - 1].high <= r.high
      invariant RunsUpTo(o, c - 1)
      invariant SweptTo(r, c, fs, o0, o)
      invariant pos < |fs| && c > r.low ==> c <= fs[pos].low
    {
      CanonicalAt(fs, pos);
      var filterLow, filterHigh := fs[pos].low, fs[pos].high;
      if filterHigh < r.low {
        pos := pos + 1;
      } else if filterLow > r.high {
        break;
      } else {
        var lo := if filterLow >= r.low then filterLow else r.low;
        var hi := if filterHigh <= r.high then filterHigh else r.high;
        SweepStep(r, c, fs, pos, o0, o, lo, hi);
        o := Some(PushWeighted(RunsOf(o), lo, hi, r.weight));
        c := hi + 1;
        if filterHigh > r.high {
          break;
        } else {
          pos := pos + 1;
        }
      }
    }
    SweepEnd(r, c, fs, pos, o0, o);
  }

  lemma SweepStart(r: WRange, fs: seq<Range>, o: Option<seq<WRange>>, end: int)
    requires RunsUpTo(o, end) && end < r.low
    ensures RunsUpTo(o, r.low - 1) && SweptTo(r, r.low, fs, o, o)
  {
    hide In, WeightAt;
  }

  /** The common part of a range and a filter range is pushed; before it the filter has a gap. */
  lemma SweepStep(r: WRange, c: int, fs: seq<Range>, pos: nat, o0: Option<seq<WRange>>, o: Option<seq<WRange>>,
                  lo: nat, hi: nat)
    requires SweptTo(r, c, fs, o0, o) && RunsUpTo(o, c - 1) && r.low <= c <= lo <= hi <= r.high < NO_IDENTIFIER
    requires Canonical(fs) && pos < |fs| && (pos > 0 ==> fs[pos - 1].high < c)
    requires fs[pos].low <= lo && hi <= fs[pos].high && (lo > c ==> lo == fs[pos].low)
    ensures SweptTo(r, hi + 1, fs, o0, Some(PushWeighted(RunsOf(o), lo, hi, r.weight)))
    ensures RunsUpTo(Some(PushWeighted(RunsOf(o), lo, hi, r.weight)), hi)
  {
    hide In, WeightAt, Canonical, PushWeighted, WSorted;
    FilterGap(fs, pos, c, lo);
    FilterCommon(fs, pos, lo, hi);
    PushMeaning(RunsOf(o), lo, hi, r.weight);
    PushLast(RunsOf(o), lo, hi, r.weight);
    RunsEnd(o, c - 1);
  }

  /** The filter has nothing more up to the end of the range. */
  lemma SweepEnd(r: WRange, c: int, fs: seq<Range>, pos: nat, o0: Option<seq<WRange>>, o: Option<seq<WRange>>)
    requires SweptTo(r, c, fs, o0, o) && RunsUpTo(o, c - 1) && r.low <= c <= r.high + 1
    requires Canonical(fs) && pos <= |fs| && (pos > 0 ==> fs[pos - 1].high < c)
    requires c == r.high + 1 || (pos < |fs| ==> r.high < fs[pos].low)
    ensures SweptTo(r, r.high + 1, fs, o0, o) && RunsUpTo(o, r.high)
  {
    hide In, WeightAt, Canonical;
    FilterGap(fs, pos, c, r.high + 1);
    RunsEnd(o, c - 1);
  }

  lemma RunsEnd(o: Option<seq<WRange>>, end: int)
    requires RunsUpTo(o, end)
    ensures forall x :: x > end ==> WeightAt(RunsOf(o), x) == None
  {
    hide WeightAt;
    forall x | x > end
      ensures WeightAt(RunsOf(o), x) == None
    {
      WeightBehind(RunsOf(o), x);
    }
  }

  lemma FilterGap(fs: seq<Range>, pos: nat, c: int, d: int)
    requires Canonical(fs) && pos <= |fs| && (pos > 0 ==> fs[pos - 1].high < c)
    ensures (pos < |fs| ==> d <= fs[pos].low) ==> forall x :: c <= x < d ==> !In(fs, x)
    ensures pos < |fs| && c <= fs[pos].low ==> forall x :: c <= x < fs[pos].low ==> !In(fs, x)
  {
    hide In, Canonical;
    if pos < |fs| ==> d <= fs[pos].low {
      forall x | c <= x < d
        ensures !In(fs, x)
      {
        InGap(fs, pos, x);
      }
    }
    if pos < |fs| && c <= fs[pos].low {
      forall x | c <= x < fs[pos].low
        ensures !In(fs, x)
      {
        InGap(fs, pos, x);
      }
    }
  }

  lemma FilterCommon(fs: seq<Range>, pos: nat, lo: int, hi: int)
    requires pos < |fs| && fs[pos].low <= lo && hi <= fs[pos].high
    ensures forall x :: lo <= x <= hi ==> In(fs, x)
  {
    hide In;
    forall x | lo <= x <= hi
      ensures In(fs, x)
    {
      InAt(fs, pos, x);
    }
  }

  /**
   * splitByFilter: the weighted set restricted to each of the filters; no set at all where a
   * filter has no id in common with it.
   */
  method SplitByFilter(ws: seq<WRange>, filters: seq<RangeSet>) returns (result: seq<Option<seq<WRange>>>)
    requires WSorted(ws) && forall k :: 0 <= k < |filters| ==> filters[k].Valid()
    ensures |result| == |filters|
    ensures forall k :: 0 <= k < |filters| ==> RestrictedTo(ws, filters[k].ranges, result[k])
    ensures forall k :: 0 <= k < |filters| && result[k].Some? ==> WSorted(result[k].value) && result[k].value != []
  {
    hide In, WeightAt, Canonical, Count, SweptTo, RestrictedTo;
    result := seq(|filters|, _ => None);
    var pos := seq(|filters|, _ => 0);
    ghost var end: int := -1;
    NothingFiltered(filters);
    assert ws[..0] == [];
    for i := 0 to |ws|
      invariant |result| == |pos| == |filters|
      invariant i < |ws| ==> end < ws[i].low
      invariant forall k :: 0 <= k < |filters| ==> FilterState(ws[..i], filters[k].ranges, pos[k], result[k], end)
    {
      for k := 0 to |filters|
        invariant |result| == |pos| == |filters|
        invariant forall j :: 0 <= j < k ==> FilterState(ws[..i + 1], filters[j].ranges, pos[j], result[j], ws[i].high)
        invariant forall j :: k <= j < |filters| ==> FilterState(ws[..i], filters[j].ranges, pos[j], result[j], end)
      {
        var p, o := FilterRange(ws[i], filters[k].ranges, pos[k], result[k], end);
        FilterPassed(ws, i, filters[k].ranges, result[k], o);
        pos := pos[k := p];
        result := result[k := o];
      }
      end := ws[i].high;
    }
    assert ws[..|ws|] == ws;
  }

  ghost predicate FilterState(done: seq<WRange>, fs: seq<Range>, pos: nat, o: Option<seq<WRange>>, end: int)
  {
    pos <= |fs| && RunsUpTo(o, end) && (pos > 0 ==> fs[pos - 1].high <= end) && RestrictedTo(done, fs, o)
  }

  lemma NothingFiltered(filters: seq<RangeSet>)
    ensures forall k :: 0 <= k < |filters| ==> FilterState([], filters[k].ranges, 0, None, -1)
  {
    WeightNone();
  }

  lemma FilterPassed(ws: seq<WRange>, i: nat, fs: seq<Range>, before: Option<seq<WRange>>, after: Option<seq<WRange>>)
    requires WSorted(ws) && i < |ws|
    requires RestrictedTo(ws[..i], fs, before) && SweptTo(ws[i], ws[i].high + 1, fs, before, after)
    ensures RestrictedTo(ws[..i + 1], fs, after)
  {
    hide In, WeightAt;
    WeightPrefix(ws, i);
    forall x
      ensures WeightAt(RunsOf(after), x) == Restricted(ws[..i + 1], fs, x)
    {
      assert WeightAt(RunsOf(after), x) == Swept(ws[i], ws[i].high + 1, fs, RunsOf(before), x);
      assert WeightAt(RunsOf(before), x) == Restricted(ws[..i], fs, x);
      assert WeightAt(ws[..i + 1], x) == Extended(ws[..i], ws[i], x);
    }
  }

  lemma WeightPrefix(ws: seq<WRange>, i: nat)
    requires WSorted(ws) && i < |ws|
    ensures forall x :: WeightAt(ws[..i + 1], x) == Extended(ws[..i], ws[i], x)
  {
    hide WeightAt;
    assert ws[..i + 1] == ws[..i] + [ws[i]];
    forall x
      ensures WeightAt(ws[..i + 1], x) == Extended(ws[..i], ws[i], x)
    {
      WeightConcat(ws[..i], [ws[i]], x);
      WeightOne(ws[i], x);
      if ws[i].low <= x {
        WeightBehind(ws[..i], x);
      }
    }
  }
}
