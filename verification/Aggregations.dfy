/**
 * AggregationProcessor: every source value is added, weighted, to all combinations of the targets
 * its element has in each dimension.
 */
module Aggregations {
  import opened Ids
  import opened Reals
  import opened Wrappers
  import opened Streams
  import opened TargetIndexes
  import opened CellMaps
  import opened PathIterators
  import opened HashStorages
  import opened ResultStorages
  import opened AggregationMT

  /** The targets of the source element in every dimension. */
  type Targets = seq<seq<Target>>

  ghost predicate ValidTargets(ts: Targets)
  {
    forall d :: 0 <= d < |ts| ==>
      0 < |ts[d]| <= NO_IDENTIFIER && forall i :: 0 <= i < |ts[d]| ==> ts[d][i].id <= NO_IDENTIFIER
  }

  /** The combinations of targets are the cells of a space of indices. */
  function Counting(n: nat): (ids: seq<nat>)
    ensures |ids| == n
  {
    seq(n, i => i)
  }

  function IndexSpace(ts: Targets): (space: Space)
    ensures |space| == |ts| && forall d :: 0 <= d < |ts| ==> |space[d]| == |ts[d]|
  {
    seq(|ts|, d requires 0 <= d < |ts| => Counting(|ts[d]|))
  }

  lemma IndexSpaceValid(ts: Targets)
    requires ValidTargets(ts)
    ensures ValidSpace(IndexSpace(ts))
  {
    forall d | 0 <= d < |ts|
      ensures ValidDim(IndexSpace(ts)[d])
    {
      assert 0 < |ts[d]| <= NO_IDENTIFIER;
    }
  }

  /** How many target cells a source cell has. */
  function Combinations(ts: Targets): nat
  {
    Size(IndexSpace(ts))
  }

  /** One target chosen in every dimension. */
  ghost predicate Choice(ts: Targets, path: seq<nat>)
  {
    |path| == |ts| && forall d :: 0 <= d < |path| ==> path[d] < |ts[d]|
  }

  function TargetKey(ts: Targets, path: seq<nat>): (key: Key)
    requires |path| == |ts| && forall d :: 0 <= d < |path| ==> path[d] < |ts[d]|
    ensures |key| == |ts|
  {
    seq(|ts|, d requires 0 <= d < |ts| => ts[d][path[d]].id)
  }

  /** The weight of the target chosen in a dimension. */
  function Chosen(ts: Targets, path: seq<nat>, d: nat): real
  {
    if d < |ts| && d < |path| && path[d] < |ts[d]| then ts[d][path[d]].weight else 1.0
  }

  /** The product of the chosen weights of the first n dimensions. */
  function Weight(ts: Targets, path: seq<nat>, n: nat): real
  {
    if n == 0 then 1.0 else RTimes(Weight(ts, path, n - 1), Chosen(ts, path, n - 1))
  }

  /** The addition for the n-th combination. */
  ghost function AddAt(ts: Targets, value: real, n: nat): Op
    requires ValidTargets(ts) && n < Combinations(ts)
  {
    var path := ChoiceAt(ts, n);
    Add(TargetKey(ts, path), RTimes(Weight(ts, path, |ts|), value))
  }

  ghost function ChoiceAt(ts: Targets, n: nat): (path: seq<nat>)
    requires ValidTargets(ts) && n < Combinations(ts)
    ensures Choice(ts, path) && Position(IndexSpace(ts), path) == n
  {
    IndexSpaceValid(ts);
    PositionOfPath(IndexSpace(ts), n, 0, []);
    assert [] + PathAtFrom(IndexSpace(ts), n, 0) == PathAtFrom(IndexSpace(ts), n, 0);
    PathAtFrom(IndexSpace(ts), n, 0)
  }

  lemma ChoiceOfPosition(ts: Targets, path: seq<nat>)
    requires ValidTargets(ts) && Choice(ts, path)
    ensures Position(IndexSpace(ts), path) < Combinations(ts)
    ensures ChoiceAt(ts, Position(IndexSpace(ts), path)) == path
  {
    IndexSpaceValid(ts);
    PositionBound(IndexSpace(ts), path, 0);
    PathOfPosition(IndexSpace(ts), path, 0);
    assert path[0..] == path;
  }

  /** All additions of one source cell: one per combination of targets. */
  ghost function CellAdds(ts: Targets, value: real): (ops: seq<Op>)
    requires ValidTargets(ts)
    ensures |ops| == Combinations(ts)
  {
    seq(Combinations(ts), n requires 0 <= n < Combinations(ts) => AddAt(ts, value, n))
  }

  // ------------------------------------------------------------------------------------------
  // Single and multiple targets
  // ------------------------------------------------------------------------------------------

  /** The dimensions among the first n with several targets. */
  function MultiDims(ts: Targets, n: nat): (ms: seq<nat>)
    requires n <= |ts|
  {
    if n == 0 then [] else if |ts[n - 1]| > 1 then MultiDims(ts, n - 1) + [n - 1] else MultiDims(ts, n - 1)
  }

  lemma {:induction false} MultiMeans(ts: Targets, n: nat)
    requires n <= |ts|
    ensures forall k :: 0 <= k < |MultiDims(ts, n)| ==> MultiDims(ts, n)[k] < n && |ts[MultiDims(ts, n)[k]]| > 1
    ensures forall k, l :: 0 <= k < l < |MultiDims(ts, n)| ==> MultiDims(ts, n)[k] < MultiDims(ts, n)[l]
    ensures forall d :: 0 <= d < n && |ts[d]| > 1 ==> d in MultiDims(ts, n)
  {
    if n > 0 {
      MultiMeans(ts, n - 1);
    }
  }

  /** The product of the weights of the first n dimensions that have one target. */
  function FixedWeight(ts: Targets, n: nat): real
    requires n <= |ts| && forall d :: 0 <= d < n ==> ts[d] != []
  {
    if n == 0 then 1.0
    else if |ts[n - 1]| > 1 then FixedWeight(ts, n - 1)
    else RTimes(FixedWeight(ts, n - 1), ts[n - 1][0].weight)
  }

  /** The product of the chosen weights of some dimensions. */
  function ListWeight(ts: Targets, path: seq<nat>, ms: seq<nat>): real
  {
    if ms == [] then 1.0 else RTimes(ListWeight(ts, path, ms[..|ms| - 1]), Chosen(ts, path, ms[|ms| - 1]))
  }

  lemma Reorder(x: real, y: real, z: real)
    ensures RTimes(RTimes(x, y), z) == RTimes(RTimes(x, z), y)
    ensures RTimes(RTimes(x, y), z) == RTimes(x, RTimes(y, z))
    ensures RTimes(1.0, x) == x == RTimes(x, 1.0)
  {
  }

  lemma ListSnoc(ts: Targets, path: seq<nat>, ms: seq<nat>, m: nat)
    ensures ListWeight(ts, path, ms + [m]) == RTimes(ListWeight(ts, path, ms), Chosen(ts, path, m))
  {
    hide RTimes, Chosen;
    assert (ms + [m])[..|ms|] == ms;
  }

  lemma FixedStep(ts: Targets, n: nat)
    requires 0 < n <= |ts| && forall d :: 0 <= d < n ==> ts[d] != []
    ensures FixedWeight(ts, n) ==
      if |ts[n - 1]| > 1 then FixedWeight(ts, n - 1) else RTimes(FixedWeight(ts, n - 1), ts[n - 1][0].weight)
    ensures MultiDims(ts, n) == if |ts[n - 1]| > 1 then MultiDims(ts, n - 1) + [n - 1] else MultiDims(ts, n - 1)
  {
    hide RTimes;
  }

  /** Fixed weights and those of the other dimensions make up the whole weight. */
  lemma {:induction false} WeightSplits(ts: Targets, path: seq<nat>, n: nat)
    requires Choice(ts, path) && n <= |ts|
    ensures Weight(ts, path, n) == RTimes(FixedWeight(ts, n), ListWeight(ts, path, MultiDims(ts, n)))
  {
    if n == 0 {
      Reorder(1.0, 1.0, 1.0);
    } else {
      hide RTimes, FixedWeight, ListWeight, MultiDims;
      WeightSplits(ts, path, n - 1);
      FixedStep(ts, n);
      assert path[n - 1] < |ts[n - 1]|;
      Reorder(FixedWeight(ts, n - 1), ListWeight(ts, path, MultiDims(ts, n - 1)), Chosen(ts, path, n - 1));
      ListSnoc(ts, path, MultiDims(ts, n - 1), n - 1);
    }
  }

  // ------------------------------------------------------------------------------------------
  // The processor
  // ------------------------------------------------------------------------------------------

  /** Counting down a 64-bit size: 0 wraps around. */
  const SIZE_MAX: nat := 0xFFFF_FFFF_FFFF_FFFF

  function Down(n: nat): nat
  {
    if n == 0 then SIZE_MAX else n - 1
  }

  /** The first n dimensions stand at their first targets, and those with several are listed. */
  ghost predicate AtFirst(ts: Targets, n: nat, multiDimCount: nat, fixedWeight: real,
                        currentTargets: Targets, current: seq<nat>, parentKey: Key, multiDims: seq<nat>)
  {
    && |ts| == |currentTargets| == |current| == |parentKey| == |multiDims| && n <= |ts|
    && (forall d :: 0 <= d < n ==> ts[d] != [] && currentTargets[d] == ts[d] && current[d] == 0 && parentKey[d] == ts[d][0].id)
    && multiDimCount <= n && multiDims[..multiDimCount] == MultiDims(ts, n)
    && fixedWeight == FixedWeight(ts, n)
  }

  lemma AtFirstStep(ts: Targets, n: nat, multiDimCount: nat, fixedWeight: real,
                  currentTargets: Targets, current: seq<nat>, parentKey: Key, multiDims: seq<nat>)
    requires AtFirst(ts, n, multiDimCount, fixedWeight, currentTargets, current, parentKey, multiDims)
    requires n < |ts| && ts[n] != []
    ensures |ts| == |currentTargets| == |current| == |parentKey| == |multiDims| && multiDimCount <= n
    ensures |ts[n]| > 1 ==> AtFirst(ts, n + 1, multiDimCount + 1, fixedWeight, currentTargets[n := ts[n]], current[n := 0],
      parentKey[n := ts[n][0].id], multiDims[multiDimCount := n])
    ensures |ts[n]| == 1 ==> AtFirst(ts, n + 1, multiDimCount, RTimes(fixedWeight, ts[n][0].weight), currentTargets[n := ts[n]],
      current[n := 0], parentKey[n := ts[n][0].id], multiDims)
  {
    hide RTimes, FixedWeight, MultiDims;
    FixedStep(ts, n + 1);
  }

  lemma LogPrefix(log: seq<Op>, ops: seq<Op>)
    ensures log + ops[..0] == log && log + ops[..|ops|] == log + ops
  {
  }

  lemma LogStep(log: seq<Op>, ops: seq<Op>, n: nat)
    requires n < |ops|
    ensures log + ops[..n] + [ops[n]] == log + ops[..n + 1]
  {
  }

  class Aggregator {
    const parentMaps: seq<map<nat, seq<Target>>>
    const storage: ResultStorage
    var prevSourceKey: Key
    var lastTargets: Targets
    var currentTargets: Targets
    var current: seq<nat>
    var parentKey: Key
    var multiDims: seq<nat>

    /** The remembered targets are those of the element remembered with them. */
    ghost predicate Valid()
      reads this, storage.Memory()
    {
      && storage.Valid() && storage.dims == |parentMaps| < SIZE_MAX
      && (storage.hash != null ==> TargetsWithin(parentMaps, storage.hash.space))
      && |prevSourceKey| == |lastTargets| == |currentTargets| == |current| == |parentKey| == |multiDims| == |parentMaps|
      && Remembers()
    }

    ghost predicate Remembers()
      requires |prevSourceKey| == |lastTargets| == |parentMaps|
      reads this`prevSourceKey, this`lastTargets
    {
      forall d :: 0 <= d < |parentMaps| && prevSourceKey[d] != NO_IDENTIFIER ==>
        prevSourceKey[d] in parentMaps[d] && lastTargets[d] == parentMaps[d][prevSourceKey[d]]
    }

    /** Every element of the source cell has targets. */
    ghost predicate Known(key: Key)
    {
      |key| == |parentMaps| && forall d :: 0 <= d < |key| ==> key[d] < NO_IDENTIFIER && key[d] in parentMaps[d]
    }

    ghost function TargetsOf(key: Key): (ts: Targets)
      requires Known(key)
    {
      seq(|key|, d requires 0 <= d < |key| => parentMaps[d][key[d]])
    }

    /** initIntern */
    constructor (parentMaps: seq<map<nat, seq<Target>>>, storage: ResultStorage)
      requires storage.Valid() && storage.dims == |parentMaps| < SIZE_MAX
      requires storage.hash != null ==> TargetsWithin(parentMaps, storage.hash.space)
      ensures Valid() && this.parentMaps == parentMaps && this.storage == storage
    {
      this.parentMaps, this.storage := parentMaps, storage;
      prevSourceKey := seq(|parentMaps|, _ => NO_IDENTIFIER);
      lastTargets, currentTargets := seq(|parentMaps|, _ => []), seq(|parentMaps|, _ => []);
      current, parentKey, multiDims := seq(|parentMaps|, _ => 0), seq(|parentMaps|, _ => 0), seq(|parentMaps|, _ => 0);
    }

    /** The current combination of the targets of a source cell. */
    ghost predicate At(ts: Targets, path: seq<nat>)
      reads this
    {
      currentTargets == ts && current == path && Choice(ts, path) && parentKey == TargetKey(ts, path)
    }

    /**
     * initParentKey: looks up the targets, except for elements that did not change since the last
     * cell, and starts with the first combination.
     */
    method InitParentKey(key: Key) returns (multiDimCount: nat, fixedWeight: real)
      requires Valid() && Known(key) && ValidTargets(TargetsOf(key))
      modifies this
      ensures Valid()
      ensures At(TargetsOf(key), seq(|key|, _ => 0))
      ensures multiDimCount <= |multiDims| && multiDims[..multiDimCount] == MultiDims(TargetsOf(key), |key|)
      ensures fixedWeight == FixedWeight(TargetsOf(key), |key|)
    {
      hide RTimes, ValidTargets, Started, Remembers;
      fixedWeight, multiDimCount := 1.0, 0;
      ghost var ts := TargetsOf(key);
      assert Started(ts, 0, 0, 1.0) by { StartedEmpty(ts); }
      for dim := 0 to |parentMaps|
        invariant Valid() && Started(ts, dim, multiDimCount, fixedWeight)
      {
        multiDimCount, fixedWeight := StartDimension(dim, key, multiDimCount, fixedWeight);
      }
      StartedAll(ts, multiDimCount, fixedWeight);
    }

    /** The first n dimensions stand at their first targets. */
    ghost predicate Started(ts: Targets, n: nat, multiDimCount: nat, fixedWeight: real)
      reads this
    {
      AtFirst(ts, n, multiDimCount, fixedWeight, currentTargets, current, parentKey, multiDims)
    }

    lemma StartedEmpty(ts: Targets)
      requires Valid() && |ts| == |parentMaps|
      ensures Started(ts, 0, 0, 1.0)
    {
    }

    lemma StartedAll(ts: Targets, multiDimCount: nat, fixedWeight: real)
      requires Valid() && |ts| == |parentMaps| && Started(ts, |ts|, multiDimCount, fixedWeight)
      ensures At(ts, seq(|ts|, _ => 0))
      ensures multiDimCount <= |multiDims| && multiDims[..multiDimCount] == MultiDims(ts, |ts|)
      ensures fixedWeight == FixedWeight(ts, |ts|)
    {
      assert currentTargets == ts;
      assert current == seq(|ts|, _ => 0);
      assert parentKey == TargetKey(ts, current);
    }

    /** One more dimension stands at the first target of its element. */
    method StartDimension(dim: nat, key: Key, count0: nat, fixed0: real) returns (multiDimCount: nat, fixedWeight: real)
      requires Valid() && Known(key) && ValidTargets(TargetsOf(key)) && dim < |key|
      requires Started(TargetsOf(key), dim, count0, fixed0)
      modifies this
      ensures Valid()
      ensures Started(TargetsOf(key), dim + 1, multiDimCount, fixedWeight)
    {
      hide RTimes, FixedWeight, MultiDims, TargetsWithin, AtFirst;
      ghost var ts := TargetsOf(key);
      multiDimCount, fixedWeight := count0, fixed0;
      var targets := LookUp(dim, key);
      assert targets == ts[dim] && 0 < |ts[dim]|;
      AtFirstStep(ts, dim, multiDimCount, fixedWeight, currentTargets, current, parentKey, multiDims);
      parentKey := parentKey[dim := targets[0].id];
      currentTargets := currentTargets[dim := targets];
      current := current[dim := 0];
      if |targets| > 1 {
        multiDims := multiDims[multiDimCount := dim];
        multiDimCount := multiDimCount + 1;
      } else {
        fixedWeight := RTimes(fixedWeight, targets[0].weight);
      }
    }

    /** The targets of an element, remembered from the last cell if that had the same element. */
    method LookUp(dim: nat, key: Key) returns (targets: seq<Target>)
      requires Valid() && Known(key) && dim < |key|
      modifies this`prevSourceKey, this`lastTargets
      ensures Valid() && targets == parentMaps[dim][key[dim]]
    {
      if key[dim] != prevSourceKey[dim] {
        prevSourceKey := prevSourceKey[dim := key[dim]];
        targets := parentMaps[dim][key[dim]];
        lastTargets := lastTargets[dim := targets];
      } else {
        targets := lastTargets[dim];
      }
    }

    /**
     * nextParentKey: the next combination, the last of the dimensions with several targets moving
     * fastest; behind the last combination the count wraps around.
     */
    method NextParentKey(multiDimCount: nat, ghost ts: Targets, ghost path: seq<nat>) returns (changeMultiDim: nat)
      requires Valid() && At(ts, path) && ValidTargets(ts) && |ts| == |parentMaps|
      requires multiDimCount <= |multiDims| && multiDims[..multiDimCount] == MultiDims(ts, |ts|)
      modifies this`current, this`parentKey
      ensures Valid() && At(ts, current)
      ensures changeMultiDim < multiDimCount ==>
        Position(IndexSpace(ts), current) == Position(IndexSpace(ts), path) + 1
      ensures changeMultiDim >= multiDimCount ==> Position(IndexSpace(ts), path) + 1 == Combinations(ts)
    {
      hide ValidTargets, MultiDims, Position;
      current, parentKey, changeMultiDim :=
        NextChoice(currentTargets, multiDims[..multiDimCount], current, parentKey);
    }

    /** The weight of the current combination. */
    method CurrentWeight(multiDimCount: nat, fixedWeight: real, ghost ts: Targets, ghost path: seq<nat>) returns (weight: real)
      requires Valid() && At(ts, path) && |ts| == |parentMaps| && fixedWeight == FixedWeight(ts, |ts|)
      requires multiDimCount <= |multiDims| && multiDims[..multiDimCount] == MultiDims(ts, |ts|)
      ensures weight == Weight(ts, path, |ts|)
    {
      hide RTimes, FixedWeight, MultiDims, Weight;
      ghost var ms := MultiDims(ts, |ts|);
      MultiMeans(ts, |ts|);
      weight := fixedWeight;
      Reorder(fixedWeight, 1.0, 1.0);
      for multiDim := 0 to multiDimCount
        invariant weight == RTimes(fixedWeight, ListWeight(ts, path, ms[..multiDim]))
      {
        var dim := multiDims[multiDim];
        assert dim == ms[multiDim] && ms[..multiDim + 1] == ms[..multiDim] + [dim];
        ListSnoc(ts, path, ms[..multiDim], dim);
        Reorder(fixedWeight, ListWeight(ts, path, ms[..multiDim]), Chosen(ts, path, dim));
        weight := RTimes(weight, currentTargets[dim][current[dim]].weight);
      }
      assert ms[..multiDimCount] == ms;
      WeightSplits(ts, path, |ts|);
    }

    /** The storage has room for every combination of targets. */
    lemma TargetsAccepted(key: Key, path: seq<nat>)
      requires Valid() && Known(key) && ValidTargets(TargetsOf(key)) && Choice(TargetsOf(key), path)
      ensures storage.Accepts(TargetKey(TargetsOf(key), path))
    {
      var ts := TargetsOf(key);
      var target := TargetKey(ts, path);
      forall d | 0 <= d < |target|
        ensures target[d] <= NO_IDENTIFIER && (storage.hash != null ==> target[d] in storage.hash.space[d])
      {
        assert target[d] == ts[d][path[d]].id;
        assert ts[d][path[d]] in parentMaps[d][key[d]];
      }
    }

    /** The value, weighted for the current combination, is added to its target cell. */
    method AddWeighted(key: Key, value: real, multiDimCount: nat, fixedWeight: real, ghost log: seq<Op>)
      requires Valid() && Known(key) && ValidTargets(TargetsOf(key)) && At(TargetsOf(key), current) && storage.Holds(log)
      requires multiDimCount <= |multiDims| && multiDims[..multiDimCount] == MultiDims(TargetsOf(key), |key|)
      requires fixedWeight == FixedWeight(TargetsOf(key), |key|)
      modifies storage.Memory()
      ensures Valid() && storage.Limit() == old(storage.Limit())
      ensures var ts := TargetsOf(key);
        var n := Position(IndexSpace(ts), current);
        n < |CellAdds(ts, value)| && storage.Holds(log + [CellAdds(ts, value)[n]])
    {
      hide RTimes, FixedWeight, MultiDims, Weight, ValidTargets, Remembers, CellAdds, Combinations, Position,
        TargetsWithin, ResultStorage.Holds, ResultStorage.Accepts;
      ghost var ts := TargetsOf(key);
      var weight := CurrentWeight(multiDimCount, fixedWeight, ts, current);
      AddHere(ts, value, current);
      Reorder(value, 1.0, 1.0);
      TargetsAccepted(key, current);
      if weight != 1.0 {
        storage.Add(parentKey, RTimes(weight, value), log);
      } else {
        storage.Add(parentKey, value, log);
      }
    }

    /** aggregateCell: the weighted value is added to every combination of targets, each once. */
    method AggregateCell(key: Key, value: real, ghost log: seq<Op>)
      requires Valid() && Known(key) && ValidTargets(TargetsOf(key)) && storage.Holds(log)
      modifies this, storage.Memory()
      ensures Valid() && storage.Limit() == old(storage.Limit()) && storage.Holds(log + CellAdds(TargetsOf(key), value))
    {
      hide RTimes, FixedWeight, MultiDims, Weight, ValidTargets, Remembers, CellAdds, Combinations, Position,
        TargetsWithin, ResultStorage.Holds, ResultStorage.Valid;
      ghost var ts := TargetsOf(key);
      ghost var ops := CellAdds(ts, value);
      var multiDimCount, fixedWeight := InitParentKey(key);
      ghost var n := 0;
      FirstChoice(ts, current);
      LogPrefix(log, ops);
      var changeMultiDim := 0;
      while true
        invariant Valid() && storage.Limit() == old(storage.Limit()) && At(ts, current)
        invariant multiDimCount <= |multiDims| && multiDims[..multiDimCount] == MultiDims(ts, |ts|)
        invariant n == Position(IndexSpace(ts), current)
        invariant n < |ops| && storage.Holds(log + ops[..n])
        decreases |ops| - n
      {
        AddWeighted(key, value, multiDimCount, fixedWeight, log + ops[..n]);
        LogStep(log, ops, n);
        n := n + 1;
        changeMultiDim := NextParentKey(multiDimCount, ts, current);
        if !(changeMultiDim < multiDimCount) {
          break;
        }
        ChoiceOfPosition(ts, current);
      }
    }

    /** All cells of one source, behind those done before. */
    method AggregateSource(source: seq<Cell>, ghost done: seq<Cell>)
      requires Valid() && KnownSource(parentMaps, done) && KnownSource(parentMaps, source)
      requires storage.Holds(AllAdds(parentMaps, done))
      modifies this, storage.Memory()
      ensures Valid() && storage.Limit() == old(storage.Limit()) && KnownSource(parentMaps, done + source)
      ensures storage.Holds(AllAdds(parentMaps, done + source))
    {
      hide CellAdds, Remembers, TargetsWithin, ResultStorage.Holds, KnownCell, AllAdds, ResultStorage.Valid, KnownSource;
      ghost var now := done;
      for i := 0 to |source|
        invariant Valid() && storage.Limit() == old(storage.Limit()) && now == done + source[..i] && KnownSource(parentMaps, now)
        invariant storage.Holds(AllAdds(parentMaps, now))
      {
        KnownHere(parentMaps, source, i);
        TargetsHere(parentMaps, source[i]);
        OneMore(parentMaps, now, source[i]);
        assert TargetsOf(source[i].key) == TargetsIn(parentMaps, source[i].key);
        AggregateCell(source[i].key, source[i].value.GetNumeric(), AllAdds(parentMaps, now));
        now := now + [source[i]];
      }
      assert source[..|source|] == source;
    }

    /** aggregate: the cells of all sources, one after the other. */
    method Aggregate(sources: seq<seq<Cell>>)
      requires Valid() && storage.Holds([])
      requires forall i :: 0 <= i < |sources| ==> KnownSource(parentMaps, sources[i])
      modifies this, storage.Memory()
      ensures Valid() && storage.Limit() == old(storage.Limit()) && KnownSource(parentMaps, AllCells(sources))
      ensures storage.Holds(AllAdds(parentMaps, AllCells(sources)))
    {
      hide Remembers, TargetsWithin, ResultStorage.Holds, KnownCell, ResultStorage.Valid;
      for k := 0 to |sources|
        invariant Valid() && storage.Limit() == old(storage.Limit()) && KnownSource(parentMaps, AllCells(sources[..k]))
        invariant storage.Holds(AllAdds(parentMaps, AllCells(sources[..k])))
      {
        AggregateSource(sources[k], AllCells(sources[..k]));
        assert sources[..k + 1][..k] == sources[..k];
      }
      assert sources[..|sources|] == sources;
    }
  }

  // ------------------------------------------------------------------------------------------
  // What the aggregation amounts to
  // ------------------------------------------------------------------------------------------

  /** The cells of all sources in order. */
  function AllCells(sources: seq<seq<Cell>>): seq<Cell>
  {
    if sources == [] then [] else AllCells(sources[..|sources| - 1]) + sources[|sources| - 1]
  }

  /** A single source as it is, and of several the cells of one after those of the other. */
  lemma {:induction false} CellsInTurn(a: seq<seq<Cell>>, b: seq<seq<Cell>>)
    ensures |a| == 1 ==> AllCells(a) == a[0]
    ensures AllCells(a + b) == AllCells(a) + AllCells(b)
  {
    assert |a| == 1 ==> a[..0] == [];
    if b == [] {
      assert a + b == a;
    } else {
      var init, last := b[..|b| - 1], b[|b| - 1];
      CellsInTurn(a, init);
      assert (a + b)[..|a + b| - 1] == a + init && (a + b)[|a + b| - 1] == last;
      assert AllCells(a + b) == AllCells(a + init) + last;
    }
  }

  /** All targets are elements of the area. */
  ghost predicate TargetsWithin(maps: seq<map<nat, seq<Target>>>, space: Space)
  {
    |maps| == |space| && forall d, id, t :: 0 <= d < |maps| && id in maps[d] && t in maps[d][id] ==> t.id in space[d]
  }

  ghost function TargetsIn(maps: seq<map<nat, seq<Target>>>, key: Key): (ts: Targets)
    requires |key| == |maps| && forall d :: 0 <= d < |key| ==> key[d] in maps[d]
  {
    seq(|key|, d requires 0 <= d < |key| => maps[d][key[d]])
  }

  ghost predicate KnownCell(maps: seq<map<nat, seq<Target>>>, cell: Cell)
  {
    && |cell.key| == |maps| && (forall d :: 0 <= d < |cell.key| ==> cell.key[d] < NO_IDENTIFIER && cell.key[d] in maps[d])
    && ValidTargets(TargetsIn(maps, cell.key)) && cell.value.IsNumeric()
  }

  /** Numeric cells whose elements all have targets. */
  ghost predicate KnownSource(maps: seq<map<nat, seq<Target>>>, source: seq<Cell>)
  {
    forall i :: 0 <= i < |source| ==> KnownCell(maps, source[i])
  }

  lemma TargetsHere(maps: seq<map<nat, seq<Target>>>, cell: Cell)
    requires KnownCell(maps, cell)
    ensures |cell.key| == |maps| && forall d :: 0 <= d < |cell.key| ==> cell.key[d] < NO_IDENTIFIER && cell.key[d] in maps[d]
    ensures ValidTargets(TargetsIn(maps, cell.key)) && cell.value.IsNumeric()
  {
  }

  lemma KnownHere(maps: seq<map<nat, seq<Target>>>, source: seq<Cell>, i: nat)
    requires KnownSource(maps, source) && i < |source|
    ensures KnownCell(maps, source[i]) && KnownSource(maps, source[..i])
  {
  }

  /** Everything that is added for a source. */
  ghost function AllAdds(maps: seq<map<nat, seq<Target>>>, source: seq<Cell>): (ops: seq<Op>)
    requires KnownSource(maps, source)
  {
    if source == [] then []
    else
      var last := source[|source| - 1];
      KnownHere(maps, source, |source| - 1);
      AllAdds(maps, source[..|source| - 1]) + CellAdds(TargetsIn(maps, last.key), last.value.GetNumeric())
  }

  lemma OneMore(maps: seq<map<nat, seq<Target>>>, done: seq<Cell>, cell: Cell)
    requires KnownSource(maps, done) && KnownCell(maps, cell)
    ensures KnownSource(maps, done + [cell])
    ensures AllAdds(maps, done + [cell]) == AllAdds(maps, done) + CellAdds(TargetsIn(maps, cell.key), cell.value.GetNumeric())
  {
    hide CellAdds, KnownCell;
    assert (done + [cell])[..|done|] == done;
  }

  lemma FirstChoice(ts: Targets, path: seq<nat>)
    requires ValidTargets(ts) && Choice(ts, path) && path == seq(|ts|, _ => 0)
    ensures Position(IndexSpace(ts), path) == 0 < Combinations(ts)
    ensures forall value :: |CellAdds(ts, value)| == Combinations(ts)
  {
    ZeroPosition(IndexSpace(ts), path, 0);
    ChoiceOfPosition(ts, path);
  }

  lemma AddHere(ts: Targets, value: real, path: seq<nat>)
    requires ValidTargets(ts) && Choice(ts, path)
    ensures var n := Position(IndexSpace(ts), path);
      n < |CellAdds(ts, value)| && CellAdds(ts, value)[n] == Add(TargetKey(ts, path), RTimes(Weight(ts, path, |ts|), value))
  {
    ChoiceOfPosition(ts, path);
  }

  lemma ValidCellAdds(ts: Targets, value: real, dims: nat)
    requires ValidTargets(ts) && |ts| == dims
    ensures GoodLog(CellAdds(ts, value), dims)
  {
    forall n | 0 <= n < |CellAdds(ts, value)|
      ensures ValidKey(CellAdds(ts, value)[n].key, dims)
    {
      var path := ChoiceAt(ts, n);
      forall d | 0 <= d < dims
        ensures TargetKey(ts, path)[d] <= NO_IDENTIFIER
      {
      }
    }
  }

  lemma {:induction false} CappedConcat(es: seq<Entry>, a: seq<Op>, b: seq<Op>, maxCount: nat)
    ensures CappedRun(CappedRun(es, a, maxCount), b, maxCount) == CappedRun(es, a + b, maxCount)
  {
    hide Put, Cap;
    if b == [] {
      assert a + b == a;
    } else {
      assert (a + b)[..|a + b| - 1] == a + b[..|b| - 1];
      CappedConcat(es, a, b[..|b| - 1], maxCount);
    }
  }

  /** The loop of nextParentKey over the dimensions with several targets. */
  method NextChoice(ts: Targets, multiDims: seq<nat>, path: seq<nat>, key0: Key)
      returns (now: seq<nat>, key: Key, changeMultiDim: nat)
    requires ValidTargets(ts) && Choice(ts, path) && |ts| < SIZE_MAX && key0 == TargetKey(ts, path)
    requires multiDims == MultiDims(ts, |ts|)
    ensures Choice(ts, now) && key == TargetKey(ts, now)
    ensures changeMultiDim < |multiDims| ==> Position(IndexSpace(ts), now) == Position(IndexSpace(ts), path) + 1
    ensures changeMultiDim >= |multiDims| ==> Position(IndexSpace(ts), path) + 1 == Combinations(ts)
  {
    hide ValidTargets, MultiDims, Position, Combinations, Wrapped;
    TargetsKnown(ts);
    MultiMeans(ts, |ts|);
    MultiCount(ts, |ts|);
    WrapStart(ts, path, multiDims);
    now, key, changeMultiDim := path, key0, Down(|multiDims|);
    var endOfIteration := false;
    while !endOfIteration && changeMultiDim < |multiDims|
      invariant Choice(ts, now) && key == TargetKey(ts, now)
      invariant changeMultiDim < |multiDims| || changeMultiDim == SIZE_MAX
      invariant !endOfIteration ==> Wrapped(ts, path, now, Bound(multiDims, changeMultiDim))
      invariant endOfIteration ==> changeMultiDim < |multiDims|
      invariant endOfIteration ==> Position(IndexSpace(ts), now) == Position(IndexSpace(ts), path) + 1
      decreases !endOfIteration, if changeMultiDim < |multiDims| then changeMultiDim + 1 else 0
    {
      var currentDim := multiDims[changeMultiDim];
      ghost var before := now;
      if now[currentDim] + 1 == |ts[currentDim]| {
        now := now[currentDim := 0];
        changeMultiDim := Down(changeMultiDim);
        WrapDown(ts, path, before, multiDims, currentDim, changeMultiDim);
      } else {
        now := now[currentDim := now[currentDim] + 1];
        endOfIteration := true;
        WrapUp(ts, path, before, now, currentDim);
      }
      key := key[currentDim := ts[currentDim][now[currentDim]].id];
    }
    if changeMultiDim >= |multiDims| {
      LastChoice(ts, path, now);
    }
  }

  /** The first dimension behind the one that is to be moved. */
  function Bound(ms: seq<nat>, k: nat): nat
  {
    if k < |ms| then ms[k] + 1 else 0
  }

  lemma {:induction false} MultiCount(ts: Targets, n: nat)
    requires n <= |ts|
    ensures |MultiDims(ts, n)| <= n
  {
    if n > 0 {
      MultiCount(ts, n - 1);
    }
  }

  lemma TargetsKnown(ts: Targets)
    requires ValidTargets(ts)
    ensures forall d :: 0 <= d < |ts| ==> 0 < |ts[d]| <= NO_IDENTIFIER
  {
  }

  /** From dimension n on all choices have gone from the last target back to the first. */
  ghost predicate Wrapped(ts: Targets, path: seq<nat>, now: seq<nat>, n: nat)
    requires |path| == |now| == |ts|
  {
    && n <= |ts| && (forall d :: 0 <= d < n ==> now[d] == path[d])
    && (forall d :: n <= d < |ts| ==> path[d] == |ts[d]| - 1 && now[d] == 0)
  }

  lemma WrapDown(ts: Targets, path: seq<nat>, before: seq<nat>, ms: seq<nat>, dim: nat, k: nat)
    requires ValidTargets(ts) && Choice(ts, path) && |before| == |ts| && dim < |ts|
    requires ms == MultiDims(ts, |ts|)
    requires if k < |ms| then k + 1 < |ms| && ms[k + 1] == dim else ms != [] && ms[0] == dim
    requires Wrapped(ts, path, before, dim + 1) && before[dim] == |ts[dim]| - 1
    ensures Wrapped(ts, path, before[dim := 0], Bound(ms, k))
  {
    MultiMeans(ts, |ts|);
    forall d | Bound(ms, k) <= d < dim
      ensures path[d] == |ts[d]| - 1 && before[d] == 0
    {
      assert |ts[d]| > 0;
      assert d !in ms;
    }
  }

  /** At first nothing has been wrapped but the single targets behind the last dimension with several. */
  lemma WrapStart(ts: Targets, path: seq<nat>, ms: seq<nat>)
    requires ValidTargets(ts) && Choice(ts, path) && ms == MultiDims(ts, |ts|) && |ts| < SIZE_MAX
    ensures Wrapped(ts, path, path, Bound(ms, Down(|ms|)))
  {
    hide MultiDims;
    MultiCount(ts, |ts|);
    assert Bound(ms, Down(|ms|)) <= |ts| by { MultiMeans(ts, |ts|); }
    forall d | Bound(ms, Down(|ms|)) <= d < |ts|
      ensures path[d] == |ts[d]| - 1 && path[d] == 0
    {
      SingleBehind(ts, ms, d);
    }
  }

  lemma SingleBehind(ts: Targets, ms: seq<nat>, d: nat)
    requires ValidTargets(ts) && ms == MultiDims(ts, |ts|) && d < |ts| && (ms != [] ==> ms[|ms| - 1] < d)
    ensures |ts[d]| == 1
  {
    hide MultiDims;
    MultiMeans(ts, |ts|);
    assert |ts[d]| > 0;
    assert forall k :: 0 <= k < |ms| ==> ms[k] <= ms[|ms| - 1];
    assert d !in ms;
  }

  lemma WrapUp(ts: Targets, path: seq<nat>, before: seq<nat>, now: seq<nat>, dim: nat)
    requires Choice(ts, path) && |before| == |ts| && dim < |ts| && Wrapped(ts, path, before, dim + 1)
    requires now == before[dim := before[dim] + 1] && before[dim] + 1 < |ts[dim]|
    ensures Choice(ts, now) && Position(IndexSpace(ts), now) == Position(IndexSpace(ts), path) + 1
  {
    CountedUp(IndexSpace(ts), path, now, dim, 0);
  }

  lemma LastChoice(ts: Targets, path: seq<nat>, now: seq<nat>)
    requires Choice(ts, path) && |now| == |ts| && Wrapped(ts, path, now, 0)
    ensures Position(IndexSpace(ts), path) + 1 == Combinations(ts)
  {
    LastPosition(IndexSpace(ts), path, 0);
  }

  /** Among the first n combinations: how many lead to a target cell, and the sum of their weights. */
  ghost function Reach(ts: Targets, rank: int, n: nat): Share
    requires ValidTargets(ts) && n <= Combinations(ts)
  {
    if n == 0 then Share(0, 0.0)
    else
      var path, before := ChoiceAt(ts, n - 1), Reach(ts, rank, n - 1);
      if Rank(TargetKey(ts, path)) == rank then Share(before.count + 1, before.sum + Weight(ts, path, |ts|)) else before
  }

  /**
   * What a target cell gets: how many combinations of source cells reach it, and the sum over all
   * source cells of the value times the product of the weights.
   */
  ghost function Received(maps: seq<map<nat, seq<Target>>>, source: seq<Cell>, rank: int): Share
    requires KnownSource(maps, source)
  {
    if source == [] then Share(0, 0.0)
    else
      var last := source[|source| - 1];
      KnownHere(maps, source, |source| - 1);
      var ts := TargetsIn(maps, last.key);
      var reach, before := Reach(ts, rank, Combinations(ts)), Received(maps, source[..|source| - 1], rank);
      Share(before.count + reach.count, before.sum + RTimes(last.value.GetNumeric(), reach.sum))
  }

  lemma Distribute(x: real, y: real, z: real)
    ensures RTimes(x, y + z) == RTimes(x, y) + RTimes(z, x) && RTimes(x, 0.0) == 0.0
  {
  }

  lemma ReachStep(ts: Targets, value: real, rank: int, n: nat)
    requires ValidTargets(ts) && 0 < n <= Combinations(ts)
    ensures CellAdds(ts, value)[..n] == CellAdds(ts, value)[..n - 1] + [AddAt(ts, value, n - 1)]
    ensures AddAt(ts, value, n - 1).value == RTimes(Weight(ts, ChoiceAt(ts, n - 1), |ts|), value)
    ensures Reach(ts, rank, n) ==
      if Rank(AddAt(ts, value, n - 1).key) == rank then Plus(Reach(ts, rank, n - 1), Share(1, Weight(ts, ChoiceAt(ts, n - 1), |ts|)))
      else Reach(ts, rank, n - 1)
  {
    hide RTimes, Rank, Weight, ValidTargets;
  }

  lemma NothingReached(ts: Targets, value: real, rank: int)
    requires ValidTargets(ts)
    ensures ShareOf(CellAdds(ts, value)[..0], rank) == Share(Reach(ts, rank, 0).count, RTimes(value, Reach(ts, rank, 0).sum))
  {
    hide RTimes, CellAdds;
    Distribute(value, 0.0, 0.0);
    assert CellAdds(ts, value)[..0] == [];
    NoShare(rank);
  }

  lemma {:induction false} CellShare(ts: Targets, value: real, rank: int, n: nat)
    requires ValidTargets(ts) && n <= Combinations(ts)
    ensures ShareOf(CellAdds(ts, value)[..n], rank) == Share(Reach(ts, rank, n).count, RTimes(value, Reach(ts, rank, n).sum))
  {
    hide RTimes, Rank, Weight, ShareOf, Reach, CellAdds, ValidTargets, Combinations, AddAt, ChoiceAt;
    if n == 0 {
      NothingReached(ts, value, rank);
    } else {
      CellShare(ts, value, rank, n - 1);
      ReachStep(ts, value, rank, n);
      ShareSnoc(CellAdds(ts, value)[..n - 1], AddAt(ts, value, n - 1), rank);
      Distribute(value, Reach(ts, rank, n - 1).sum, Weight(ts, ChoiceAt(ts, n - 1), |ts|));
    }
  }

  lemma {:induction false} AllShare(maps: seq<map<nat, seq<Target>>>, source: seq<Cell>, rank: int)
    requires KnownSource(maps, source)
    ensures ShareOf(AllAdds(maps, source), rank) == Received(maps, source, rank)
    ensures GoodLog(AllAdds(maps, source), |maps|)
  {
    hide Combinations, CellAdds, ShareOf, Reach, RTimes, Rank;
    if source == [] {
      NoShare(rank);
    } else {
      var init, last := source[..|source| - 1], source[|source| - 1];
      KnownHere(maps, source, |source| - 1);
      AllShare(maps, init, rank);
      var ts, value := TargetsIn(maps, last.key), last.value.GetNumeric();
      WholeCell(ts, value, rank);
      ShareConcat(AllAdds(maps, init), CellAdds(ts, value), rank);
      ValidCellAdds(ts, value, |maps|);
      ValidConcat(AllAdds(maps, init), CellAdds(ts, value), |maps|);
    }
  }

  lemma WholeCell(ts: Targets, value: real, rank: int)
    requires ValidTargets(ts)
    ensures ShareOf(CellAdds(ts, value), rank) ==
      Share(Reach(ts, rank, Combinations(ts)).count, RTimes(value, Reach(ts, rank, Combinations(ts)).sum))
  {
    hide ShareOf, RTimes, Reach;
    CellShare(ts, value, rank, Combinations(ts));
    assert CellAdds(ts, value)[..Combinations(ts)] == CellAdds(ts, value);
  }

  /**
   * The unlimited result: a target cell exists exactly if some source value reaches it, and then
   * holds the sum of the weighted values.
   */
  lemma AggregatedValue(maps: seq<map<nat, seq<Target>>>, source: seq<Cell>, rank: int)
    requires KnownSource(maps, source)
    ensures var received := Received(maps, source, rank);
      Lookup(Run([], AllAdds(maps, source)), rank) == if received.count == 0 then None else Some(received.sum)
  {
    hide ShareOf, Run, Lookup, ValueAfter, Received, AllAdds, Rank;
    AllShare(maps, source, rank);
    RunMeaning(AllAdds(maps, source), |maps|, rank);
    ValueIsShare(AllAdds(maps, source), rank);
  }
}
