/**
 * From the parents of every dimension to the aggregated values: the tables read from the compressed
 * maps, what an aggregation over them leaves in its storage, and the same for many threads.
 */
module AggregationResults {
  import opened Ids
  import opened Reals
  import opened Wrappers
  import opened Streams
  import opened WeightedRanges
  import opened TargetIndexes
  import opened CellMaps
  import opened PathIterators
  import opened HashStorages
  import opened ResultStorages
  import AM = AggregationMaps
  import opened AggregationMT
  import opened Aggregations

  type Parents = seq<AM.Parent>

  // ------------------------------------------------------------------------------------------
  // The table of one dimension
  // ------------------------------------------------------------------------------------------

  /** The weight with which a parent takes source element s, if it does. */
  function OwnWeight(p: AM.Parent, s: nat): Option<real>
  {
    match p.bases
    case None => if s == p.id then Some(1.0) else None
    case Some(ws) => WeightAt(ws, s)
  }

  /** The weight with which the parent of the given id takes source element s, if it does. */
  function TakenWeight(ps: Parents, id: nat, s: nat): Option<real>
  {
    if ps == [] then None
    else if ps[|ps| - 1].id == id then OwnWeight(ps[|ps| - 1], s)
    else TakenWeight(ps[..|ps| - 1], id, s)
  }

  lemma OwnTarget(p: AM.Parent, s: nat, t: Target)
    ensures AM.ParentTarget(p, s) == multiset{t} <==> t.id == p.id && OwnWeight(p, s) == Some(t.weight)
  {
    hide WeightAt;
    if OwnWeight(p, s).Some? {
      var own := Target(p.id, OwnWeight(p, s).value);
      assert AM.ParentTarget(p, s) == multiset{own};
      assert own in multiset{own};
      if AM.ParentTarget(p, s) == multiset{t} {
        assert own in multiset{t};
      }
    } else {
      assert AM.ParentTarget(p, s) == multiset{};
      assert t in multiset{t};
    }
  }

  lemma {:induction false} NoParent(ps: Parents, id: nat, s: nat)
    requires forall i :: 0 <= i < |ps| ==> ps[i].id != id
    ensures TakenWeight(ps, id, s) == None
  {
    if ps != [] {
      NoParent(ps[..|ps| - 1], id, s);
    }
  }

  lemma {:induction false} TakenMeans(ps: Parents, s: nat, t: Target)
    requires AM.ValidParents(ps)
    ensures AM.Taken(ps, s, t) <==> TakenWeight(ps, t.id, s) == Some(t.weight)
  {
    if ps != [] {
      hide AM.ParentTarget, AM.ValidParents, AM.TargetsAt, OwnWeight;
      var init, last := ps[..|ps| - 1], ps[|ps| - 1];
      AM.InitValid(ps);
      TakenMeans(init, s, t);
      OwnTarget(last, s, t);
      AM.TakenSplit(ps, s, t);
      if last.id == t.id {
        forall i | 0 <= i < |init|
          ensures init[i].id != t.id
        {
          AM.InitBefore(ps, i);
        }
        NoParent(init, t.id, s);
      }
    }
  }

  lemma TwiceIn(ts: seq<Target>, i: nat, j: nat)
    requires i < j < |ts| && ts[i] == ts[j]
    ensures multiset(ts)[ts[i]] >= 2
  {
    assert ts == ts[..j] + ts[j..];
    assert ts[..j][i] in multiset(ts[..j]) && ts[j..][0] in multiset(ts[j..]);
  }

  /** Targets with the wanted multiset: one per parent that takes the element, with its weight. */
  ghost predicate Tabled(ps: Parents, s: nat, ts: seq<Target>)
  {
    && (forall i, j :: 0 <= i < j < |ts| ==> ts[i].id != ts[j].id)
    && (forall i :: 0 <= i < |ts| ==> TakenWeight(ps, ts[i].id, s) == Some(ts[i].weight))
    && (forall id: nat :: TakenWeight(ps, id, s).Some? ==> exists i :: 0 <= i < |ts| && ts[i].id == id)
  }

  lemma TargetsTabled(ps: Parents, s: nat, ts: seq<Target>)
    requires AM.ValidParents(ps) && multiset(ts) == AM.TargetsAt(ps, s)
    ensures Tabled(ps, s, ts)
  {
    hide AM.ValidParents, AM.TargetsAt, AM.Taken, TakenWeight;
    forall i | 0 <= i < |ts|
      ensures TakenWeight(ps, ts[i].id, s) == Some(ts[i].weight)
    {
      assert ts[i] in multiset(ts);
      AM.TargetsAtOnce(ps, s, ts[i]);
      TakenMeans(ps, s, ts[i]);
    }
    forall i, j | 0 <= i < j < |ts|
      ensures ts[i].id != ts[j].id
    {
      if ts[i].id == ts[j].id {
        TwiceIn(ts, i, j);
        AM.TargetsAtOnce(ps, s, ts[i]);
      }
    }
    forall id: nat | TakenWeight(ps, id, s).Some?
      ensures exists i :: 0 <= i < |ts| && ts[i].id == id
    {
      var t := Target(id, TakenWeight(ps, id, s).value);
      TakenMeans(ps, s, t);
      AM.TargetsAtOnce(ps, s, t);
      assert t in multiset(ts);
    }
  }

  /** The targets of the elements of a dimension, read from its compressed map. */
  method TargetTable(am: AM.AggregationMap, ids: seq<nat>) returns (table: map<nat, seq<Target>>)
    requires am.Valid() && am.Built() && forall i :: 0 <= i < |ids| ==> AM.TargetsAt(am.parents, ids[i]) != multiset{}
    ensures forall s :: s in table <==> s in ids
    ensures forall s :: s in table ==> Tabled(am.parents, s, table[s])
  {
    hide AM.TargetsAt, AM.Answers, AM.ValidParents, AM.AllWithin, AM.HasWeights, Searchable, Tabled;
    table := map[];
    for i := 0 to |ids|
      invariant forall s :: s in table <==> s in ids[..i]
      invariant forall s :: s in table ==> Tabled(am.parents, s, table[s])
    {
      var s := ids[i];
      SomeTargets(am.parents, s);
      var r := am.GetTargets(s);
      assert AM.Answers(am.CurrentRep(), am.minBaseId, s, AM.TargetsAt(am.parents, s));
      var reader := r.value;
      var ts: seq<Target> := [];
      while !reader.End()
        invariant reader.Valid() && fresh(reader) && ts == reader.All()[..reader.current]
        invariant multiset(reader.All()) == AM.TargetsAt(am.parents, s)
        decreases |reader.targetIds| - reader.current
      {
        ts := ts + [reader.Get()];
        reader.Next();
      }
      assert ts == reader.All();
      TargetsTabled(am.parents, s, ts);
      table := table[s := ts];
      assert ids[..i + 1] == ids[..i] + [s];
    }
    assert ids[..|ids|] == ids;
  }

  lemma SomeTargets(ps: Parents, s: nat)
    requires AM.TargetsAt(ps, s) != multiset{}
    ensures ps != []
  {
  }

  // ------------------------------------------------------------------------------------------
  // The weight of a source cell in a target cell
  // ------------------------------------------------------------------------------------------

  /** The tables of all dimensions hold the targets the parents ask for. */
  ghost predicate AllTabled(parents: seq<Parents>, maps: seq<map<nat, seq<Target>>>)
  {
    |parents| == |maps| && forall d, s :: 0 <= d < |maps| && s in maps[d] ==> Tabled(parents[d], s, maps[d][s])
  }

  /** The product of the weights with which the first n elements of the target cell take those of the source cell. */
  function CellWeight(parents: seq<Parents>, target: Key, source: Key, n: nat): Option<real>
    requires n <= |parents| == |target| == |source|
  {
    if n == 0 then Some(1.0)
    else
      var before := CellWeight(parents, target, source, n - 1);
      var w := TakenWeight(parents[n - 1], target[n - 1], source[n - 1]);
      if before.Some? && w.Some? then Some(RTimes(before.value, w.value)) else None
  }

  /** The index of the target with an id. */
  function TargetIndex(ts: seq<Target>, id: nat): (i: nat)
    requires exists k :: 0 <= k < |ts| && ts[k].id == id
    ensures i < |ts| && ts[i].id == id
  {
    if ts[0].id == id then 0
    else
      assert forall k :: 1 <= k < |ts| ==> ts[1..][k - 1] == ts[k];
      1 + TargetIndex(ts[1..], id)
  }

  ghost predicate HasTarget(ts: seq<Target>, id: nat)
  {
    exists k :: 0 <= k < |ts| && ts[k].id == id
  }

  /** The choice of targets that leads to the target cell. */
  ghost function PathTo(ts: Targets, target: Key): (path: seq<nat>)
    requires |ts| == |target| && forall d :: 0 <= d < |ts| ==> HasTarget(ts[d], target[d])
    ensures Choice(ts, path) && TargetKey(ts, path) == target
  {
    var path := seq(|ts|, d requires 0 <= d < |ts| => assert HasTarget(ts[d], target[d]); TargetIndex(ts[d], target[d]));
    assert forall d :: 0 <= d < |ts| ==> path[d] < |ts[d]| && ts[d][path[d]].id == target[d];
    path
  }

  ghost predicate Distinct(ts: Targets)
  {
    forall d, i, j :: 0 <= d < |ts| && 0 <= i < j < |ts[d]| ==> ts[d][i].id != ts[d][j].id
  }

  lemma DistinctAt(ts: Targets, d: nat, i: nat, j: nat)
    requires Distinct(ts) && d < |ts| && i < |ts[d]| && j < |ts[d]| && ts[d][i].id == ts[d][j].id
    ensures i == j
  {
  }

  /** No other choice leads there. */
  lemma OnlyPath(ts: Targets, path: seq<nat>, other: seq<nat>)
    requires Distinct(ts) && Choice(ts, path) && Choice(ts, other) && TargetKey(ts, path) == TargetKey(ts, other)
    ensures path == other
  {
    hide Distinct;
    forall d | 0 <= d < |ts|
      ensures path[d] == other[d]
    {
      assert TargetKey(ts, path)[d] == TargetKey(ts, other)[d];
      DistinctAt(ts, d, path[d], other[d]);
    }
  }

  lemma ChoiceKeyValid(ts: Targets, path: seq<nat>)
    requires ValidTargets(ts) && Choice(ts, path)
    ensures ValidKey(TargetKey(ts, path), |ts|)
  {
    forall d | 0 <= d < |ts|
      ensures TargetKey(ts, path)[d] <= NO_IDENTIFIER
    {
      assert ts[d][path[d]].id <= NO_IDENTIFIER;
    }
  }

  /** Every element of the target cell is a target of the source element in its dimension. */
  ghost predicate Reachable(ts: Targets, target: Key)
    requires |ts| == |target|
  {
    forall d :: 0 <= d < |ts| ==> HasTarget(ts[d], target[d])
  }

  lemma ReachUnfolded(ts: Targets, rank: int, n: nat)
    requires ValidTargets(ts) && 0 < n <= Combinations(ts)
    ensures var path := ChoiceAt(ts, n - 1);
      Choice(ts, path) && Position(IndexSpace(ts), path) == n - 1
      && Reach(ts, rank, n) ==
        if Rank(TargetKey(ts, path)) == rank then Plus(Reach(ts, rank, n - 1), Share(1, Weight(ts, path, |ts|)))
        else Reach(ts, rank, n - 1)
  {
    hide Rank, Weight, ValidTargets, Position;
  }

  /** The choice at a position leads to the target cell exactly if it is the path there. */
  lemma LeadsThere(ts: Targets, path: seq<nat>, target: Key)
    requires ValidTargets(ts) && Distinct(ts) && ValidKey(target, |ts|) && Choice(ts, path)
    ensures Rank(TargetKey(ts, path)) == Rank(target) <==> Reachable(ts, target) && path == PathTo(ts, target)
  {
    hide Rank, ValidTargets, Distinct, HasTarget;
    ChoiceKeyValid(ts, path);
    RankOrder(TargetKey(ts, path), target, |ts|);
    if TargetKey(ts, path) == target {
      KeyHasTargets(ts, path);
      OnlyPath(ts, path, PathTo(ts, target));
    }
  }

  /** Where among all choices the one is that leads to the target cell; -1 if none does. */
  ghost function PlaceOf(ts: Targets, target: Key): int
    requires |ts| == |target|
  {
    if Reachable(ts, target) then Position(IndexSpace(ts), PathTo(ts, target)) else -1
  }

  ghost function WeightThere(ts: Targets, target: Key): real
    requires |ts| == |target|
  {
    if Reachable(ts, target) then Weight(ts, PathTo(ts, target), |ts|) else 0.0
  }

  lemma ReachedAt(ts: Targets, target: Key, n: nat)
    requires ValidTargets(ts) && Distinct(ts) && ValidKey(target, |ts|) && 0 < n <= Combinations(ts)
    ensures Reach(ts, Rank(target), n) ==
      if PlaceOf(ts, target) == n - 1 then Plus(Reach(ts, Rank(target), n - 1), Share(1, WeightThere(ts, target)))
      else Reach(ts, Rank(target), n - 1)
  {
    hide Rank, Position, Weight, ValidTargets, Distinct, Combinations, Reach, HasTarget;
    ReachUnfolded(ts, Rank(target), n);
    var path := ChoiceAt(ts, n - 1);
    LeadsThere(ts, path, target);
    if Reachable(ts, target) {
      ChoiceOfPosition(ts, PathTo(ts, target));
    }
  }

  /** Among the first n choices the target cell is reached once, or not at all. */
  lemma {:induction false} ReachedOnce(ts: Targets, target: Key, n: nat)
    requires ValidTargets(ts) && Distinct(ts) && ValidKey(target, |ts|) && n <= Combinations(ts)
    ensures Reach(ts, Rank(target), n) ==
      if 0 <= PlaceOf(ts, target) < n then Share(1, WeightThere(ts, target)) else Share(0, 0.0)
  {
    hide Rank, ValidTargets, Distinct, Combinations, PlaceOf, WeightThere;
    if n > 0 {
      ReachedOnce(ts, target, n - 1);
      hide Reach;
      ReachedAt(ts, target, n);
    }
  }

  lemma KeyHasTargets(ts: Targets, path: seq<nat>)
    requires Choice(ts, path)
    ensures forall d :: 0 <= d < |ts| ==> HasTarget(ts[d], TargetKey(ts, path)[d])
  {
    forall d | 0 <= d < |ts|
      ensures HasTarget(ts[d], TargetKey(ts, path)[d])
    {
      assert ts[d][path[d]].id == TargetKey(ts, path)[d];
    }
  }

  /** The chosen weights are those of the parents. */
  lemma {:induction false} ChosenWeights(parents: seq<Parents>, ts: Targets, source: Key, path: seq<nat>, n: nat)
    requires |parents| == |ts| == |source| && Choice(ts, path) && n <= |ts|
    requires forall d :: 0 <= d < |ts| ==> Tabled(parents[d], source[d], ts[d])
    ensures CellWeight(parents, TargetKey(ts, path), source, n) == Some(Weight(ts, path, n))
  {
    hide TakenWeight, RTimes;
    if n > 0 {
      ChosenWeights(parents, ts, source, path, n - 1);
      assert Tabled(parents[n - 1], source[n - 1], ts[n - 1]);
    }
  }

  /** An element no parent of the target cell takes leaves no weight. */
  lemma {:induction false} NotTakenSomewhere(parents: seq<Parents>, target: Key, source: Key, d: nat, n: nat)
    requires d < n <= |parents| == |target| == |source| && TakenWeight(parents[d], target[d], source[d]) == None
    ensures CellWeight(parents, target, source, n) == None
  {
    hide TakenWeight, RTimes;
    if d < n - 1 {
      NotTakenSomewhere(parents, target, source, d, n - 1);
    }
  }

  /** What a source cell contributes to a target cell: nothing, or its weight once. */
  lemma ReachIsWeight(parents: seq<Parents>, ts: Targets, source: Key, target: Key)
    requires ValidTargets(ts) && |parents| == |ts| == |source| && ValidKey(target, |ts|)
    requires forall d :: 0 <= d < |ts| ==> Tabled(parents[d], source[d], ts[d])
    ensures Reach(ts, Rank(target), Combinations(ts)) ==
      match CellWeight(parents, target, source, |ts|)
      case None => Share(0, 0.0)
      case Some(w) => Share(1, w)
  {
    hide Rank, Position, Weight, Combinations, IndexSpace, CellWeight, Reach, ValidTargets;
    assert Distinct(ts) by {
      forall d, i, j | 0 <= d < |ts| && 0 <= i < j < |ts[d]|
        ensures ts[d][i].id != ts[d][j].id
      {
        assert Tabled(parents[d], source[d], ts[d]);
      }
    }
    ReachedOnce(ts, target, Combinations(ts));
    if Reachable(ts, target) {
      ChoiceOfPosition(ts, PathTo(ts, target));
      ChosenWeights(parents, ts, source, PathTo(ts, target), |ts|);
    } else {
      var d :| 0 <= d < |ts| && !HasTarget(ts[d], target[d]);
      assert Tabled(parents[d], source[d], ts[d]);
      assert TakenWeight(parents[d], target[d], source[d]) == None;
      NotTakenSomewhere(parents, target, source, d, |ts|);
    }
  }

  // ------------------------------------------------------------------------------------------
  // The aggregated values
  // ------------------------------------------------------------------------------------------

  /** Numeric cells with the given number of dimensions. */
  ghost predicate Shaped(source: seq<Cell>, dims: nat)
  {
    forall i :: 0 <= i < |source| ==> |source[i].key| == dims && source[i].value.IsNumeric()
  }

  /** What is aggregated into a target cell: over all source cells it takes, the value times the product of the weights. */
  ghost function Aggregated(parents: seq<Parents>, source: seq<Cell>, target: Key): Share
    requires |target| == |parents| && Shaped(source, |parents|)
  {
    if source == [] then Share(0, 0.0)
    else
      var before, last := Aggregated(parents, source[..|source| - 1], target), source[|source| - 1];
      match CellWeight(parents, target, last.key, |parents|)
      case None => before
      case Some(w) => Share(before.count + 1, before.sum + RTimes(last.value.GetNumeric(), w))
  }

  lemma NothingTimes(x: real)
    ensures RTimes(x, 0.0) == 0.0
  {
  }

  lemma CellTabled(parents: seq<Parents>, maps: seq<map<nat, seq<Target>>>, cell: Cell)
    requires AllTabled(parents, maps) && KnownCell(maps, cell)
    ensures |cell.key| == |maps| && ValidTargets(TargetsIn(maps, cell.key)) && cell.value.IsNumeric()
    ensures forall d :: 0 <= d < |maps| ==> Tabled(parents[d], cell.key[d], TargetsIn(maps, cell.key)[d])
  {
    hide Tabled;
  }

  lemma SourceShaped(maps: seq<map<nat, seq<Target>>>, source: seq<Cell>)
    requires KnownSource(maps, source)
    ensures Shaped(source, |maps|)
  {
    forall i | 0 <= i < |source|
      ensures |source[i].key| == |maps| && source[i].value.IsNumeric()
    {
      assert KnownCell(maps, source[i]);
    }
  }

  /** What the last cell brings in, read off its weight. */
  lemma LastShare(parents: seq<Parents>, maps: seq<map<nat, seq<Target>>>, last: Cell, target: Key)
    requires AllTabled(parents, maps) && KnownCell(maps, last) && ValidKey(target, |maps|)
    ensures last.value.IsNumeric() && |last.key| == |parents| == |maps|
    ensures var reach := Reach(TargetsIn(maps, last.key), Rank(target), Combinations(TargetsIn(maps, last.key)));
      match CellWeight(parents, target, last.key, |parents|)
      case None => reach.count == 0 && RTimes(last.value.GetNumeric(), reach.sum) == 0.0
      case Some(w) => reach == Share(1, w)
  {
    hide Rank, Reach, CellWeight, RTimes, Combinations, Tabled, ValidKey, ValidTargets;
    CellTabled(parents, maps, last);
    ReachIsWeight(parents, TargetsIn(maps, last.key), last.key, target);
    NothingTimes(last.value.GetNumeric());
  }

  lemma {:induction false} ReceivedIsAggregated(parents: seq<Parents>, maps: seq<map<nat, seq<Target>>>, source: seq<Cell>, target: Key)
    requires AllTabled(parents, maps) && KnownSource(maps, source) && ValidKey(target, |maps|)
    ensures Shaped(source, |parents|)
    ensures Received(maps, source, Rank(target)) == Aggregated(parents, source, target)
  {
    hide Rank, Reach, CellWeight, RTimes, Combinations, Tabled, KnownSource, Shaped, KnownCell, TargetsIn, ValidTargets, ValidKey;
    SourceShaped(maps, source);
    if source != [] {
      var init, last := source[..|source| - 1], source[|source| - 1];
      KnownHere(maps, source, |source| - 1);
      ReceivedIsAggregated(parents, maps, init, target);
      LastShare(parents, maps, last, target);
    }
  }

  /** The value a storage has for a cell. */
  ghost function StoredValue(storage: ResultStorage, target: Key): Option<real>
    requires storage.Valid() && (storage.hash != null ==> KeyIn(storage.hash.space, target))
    reads storage.Memory()
  {
    if storage.hash != null then
      PositionOfKey(storage.hash.space, target);
      storage.hash.ValueOf(PositionOf(storage.hash.space, target))
    else Lookup(storage.cells.entries, Rank(target))
  }

  /**
   * An aggregation over the tables of the parents leaves in an array, and in a map without a limit,
   * exactly the cells that take some source cell, each with the weighted sum over all it takes; a
   * map with a limit holds the least of these cells.
   */
  lemma AggregatedFromParents(parents: seq<Parents>, maps: seq<map<nat, seq<Target>>>, source: seq<Cell>, storage: ResultStorage,
                              target: Key)
    requires AllTabled(parents, maps) && KnownSource(maps, source) && ValidKey(target, |maps|)
    requires storage.Valid() && storage.dims == |maps| && storage.Holds(AllAdds(maps, source))
    requires storage.hash != null ==> KeyIn(storage.hash.space, target)
    ensures Shaped(source, |parents|)
    ensures var all, want := Run([], AllAdds(maps, source)), Aggregated(parents, source, target);
      && Lookup(all, Rank(target)) == (if want.count == 0 then None else Some(want.sum))
      && (storage.hash != null || storage.cells.maxCount == 0 ==>
            StoredValue(storage, target) == if want.count == 0 then None else Some(want.sum))
      && (storage.cells != null ==> storage.cells.entries == Cap(all, storage.cells.maxCount))
  {
    hide Rank, Run, AllAdds, Received, Aggregated, Lookup, ValueAfter, KeyAt, PositionOf, KnownSource, AllTabled;
    ReceivedIsAggregated(parents, maps, source, target);
    AggregatedValue(maps, source, Rank(target));
    var ops := AllAdds(maps, source);
    AllShare(maps, source, Rank(target));
    RunMeaning(ops, |maps|, Rank(target));
    if storage.hash != null {
      PositionOfKey(storage.hash.space, target);
    } else {
      CappedIsLeast([], ops, storage.cells.maxCount);
    }
  }

  /** The least cells that take some source cell, at most as many as the limit (0 for none), each with the sum over all it takes. */
  ghost predicate LeastAggregated(es: seq<Entry>, parents: seq<Parents>, source: seq<Cell>, limit: nat)
  {
    && Shaped(source, |parents|) && SortedEntries(es, |parents|) && (limit > 0 ==> |es| <= limit)
    && (forall i :: 0 <= i < |es| ==>
      Aggregated(parents, source, es[i].key).count > 0 && es[i].value == Aggregated(parents, source, es[i].key).sum)
    && (forall target :: ValidKey(target, |parents|) && Aggregated(parents, source, target).count > 0 ==>
      || (exists i :: 0 <= i < |es| && es[i].key == target)
      || (limit > 0 && |es| == limit && forall i :: 0 <= i < |es| ==> Rank(es[i].key) < Rank(target)))
  }

  /** Limiting all that is to be aggregated leaves the least cells. */
  lemma CapDelivers(parents: seq<Parents>, maps: seq<map<nat, seq<Target>>>, source: seq<Cell>, limit: nat)
    requires AllTabled(parents, maps) && KnownSource(maps, source)
    ensures LeastAggregated(Cap(Run([], AllAdds(maps, source)), limit), parents, source, limit)
  {
    hide Rank, Run, Lookup, AllAdds, Aggregated, Cap, KnownSource, ValueAfter, Received, ShareOf, Put;
    SourceShaped(maps, source);
    var all := Run([], AllAdds(maps, source));
    var es := Cap(all, limit);
    AllShare(maps, source, 0);
    RunMeaning(AllAdds(maps, source), |maps|, 0);
    CapSorted(all, |maps|, limit);
    forall i | 0 <= i < |es|
      ensures Aggregated(parents, source, es[i].key).count > 0 && es[i].value == Aggregated(parents, source, es[i].key).sum
    {
      ReceivedIsAggregated(parents, maps, source, es[i].key);
      AggregatedValue(maps, source, Rank(es[i].key));
      LookupEntry(es, |maps|, i);
      CapKeepsLeast(all, |maps|, limit, Rank(es[i].key));
    }
    forall target | ValidKey(target, |parents|) && Aggregated(parents, source, target).count > 0
      ensures || (exists i :: 0 <= i < |es| && es[i].key == target)
        || (limit > 0 && |es| == limit && forall i :: 0 <= i < |es| ==> Rank(es[i].key) < Rank(target))
    {
      ReceivedIsAggregated(parents, maps, source, target);
      AggregatedValue(maps, source, Rank(target));
      CapKeepsLeast(all, |maps|, limit, Rank(target));
      if Lookup(es, Rank(target)).Some? {
        var i := LookupWitness(es, Rank(target));
        RankOrder(es[i].key, target, |maps|);
        assert es[i].key == target;
      }
    }
  }

  lemma MapDelivers(parents: seq<Parents>, maps: seq<map<nat, seq<Target>>>, source: seq<Cell>, storage: ResultStorage)
    requires AllTabled(parents, maps) && KnownSource(maps, source)
    requires storage.Valid() && storage.cells != null && storage.dims == |maps| && storage.Holds(AllAdds(maps, source))
    ensures LeastAggregated(storage.cells.entries, parents, source, storage.cells.maxCount)
  {
    hide Rank, Run, Lookup, AllAdds, Aggregated, Cap, KnownSource, LeastAggregated, Put;
    CappedIsLeast([], AllAdds(maps, source), storage.cells.maxCount);
    CapNothing(storage.cells.maxCount);
    CapDelivers(parents, maps, source, storage.cells.maxCount);
  }

  lemma CapSorted(es: seq<Entry>, dims: nat, n: nat)
    requires SortedEntries(es, dims)
    ensures SortedEntries(Cap(es, n), dims) && if n > 0 then |Cap(es, n)| <= n else Cap(es, n) == es
  {
    hide Rank, ValidKey;
  }

  lemma CapNothing(n: nat)
    ensures Cap([], n) == []
  {
  }

  lemma {:induction false} LookupEntry(es: seq<Entry>, dims: nat, i: nat)
    requires SortedEntries(es, dims) && i < |es|
    ensures Lookup(es, Rank(es[i].key)) == Some(es[i].value)
    decreases i
  {
    hide Rank, ValidKey;
    if i > 0 {
      LookupEntry(es[1..], dims, i - 1);
    }
  }

  /** The whole of an aggregation: storage, tables and all source cells. */
  method AggregateArea(space: Space, maxCount: nat, ghost parents: seq<Parents>, maps: seq<map<nat, seq<Target>>>,
      sources: seq<seq<Cell>>) returns (storage: ResultStorage)
    requires space != [] && ValidSpace(space) && |maps| == |space| < SIZE_MAX
    requires AllTabled(parents, maps) && TargetsWithin(maps, space)
    requires forall i :: 0 <= i < |sources| ==> KnownSource(maps, sources[i])
    ensures storage.Valid() && storage.dims == |maps| && (storage.hash != null ==> storage.hash.space == space)
    ensures KnownSource(maps, AllCells(sources)) && storage.Holds(AllAdds(maps, AllCells(sources)))
    ensures storage.hash != null || maxCount == 0 ==>
      forall target :: KeyIn(space, target) ==> Delivers(storage, parents, AllCells(sources), target)
    ensures storage.hash != null <==> Size(space) < ARRAY_CELLS
    ensures storage.hash == null ==>
      LeastAggregated(storage.cells.entries, parents, AllCells(sources), if maxCount == 0 then 0 else maxCount + 1)
  {
    hide Size, LeastAggregated, Rank, Run, Lookup, AllAdds, KnownSource, AllTabled, TargetsWithin, ValidSpace, KeyIn, Aggregated, Cap, Delivers,
      ResultStorage.Holds, Aggregator.Remembers;
    storage := CreateStorage(space, maxCount);
    var aggregator := new Aggregator(maps, storage);
    aggregator.Aggregate(sources);
    if storage.hash != null || maxCount == 0 {
      forall target | KeyIn(space, target)
        ensures Delivers(storage, parents, AllCells(sources), target)
      {
        AreaDelivers(parents, maps, AllCells(sources), storage, space, target);
      }
    }
    if storage.hash == null {
      MapDelivers(parents, maps, AllCells(sources), storage);
    }
  }

  /** The storage has exactly what is to be aggregated into the target cell. */
  ghost predicate Delivers(storage: ResultStorage, parents: seq<Parents>, source: seq<Cell>, target: Key)
    reads storage.Memory()
  {
    && storage.Valid() && (storage.hash != null ==> KeyIn(storage.hash.space, target))
    && |target| == |parents| && Shaped(source, |parents|)
    && var want := Aggregated(parents, source, target);
       StoredValue(storage, target) == if want.count == 0 then None else Some(want.sum)
  }

  lemma AreaDelivers(parents: seq<Parents>, maps: seq<map<nat, seq<Target>>>, source: seq<Cell>, storage: ResultStorage,
                     space: Space, target: Key)
    requires AllTabled(parents, maps) && KnownSource(maps, source) && ValidSpace(space) && |maps| == |space| && KeyIn(space, target)
    requires storage.Valid() && storage.dims == |maps| && storage.Holds(AllAdds(maps, source))
    requires if storage.hash != null then storage.hash.space == space else storage.cells.maxCount == 0
    ensures Delivers(storage, parents, source, target)
  {
    hide Rank, Run, Lookup, AllAdds, KnownSource, Aggregated, Cap;
    forall d | 0 <= d < |target|
      ensures target[d] <= NO_IDENTIFIER
    {
      assert ValidDim(space[d]) && target[d] in space[d];
    }
    AggregatedFromParents(parents, maps, source, storage, target);
  }

  // ------------------------------------------------------------------------------------------
  // Many threads
  // ------------------------------------------------------------------------------------------

  /** What each source cell adds, as the readers of a parallel aggregation come across it. */
  ghost function AsSource(maps: seq<map<nat, seq<Target>>>, cells: seq<Cell>): (source: Source)
    requires KnownSource(maps, cells)
    ensures |source| == |cells|
  {
    seq(|cells|, i requires 0 <= i < |cells| =>
      KnownHere(maps, cells, i);
      CellAdds(TargetsIn(maps, cells[i].key), cells[i].value.GetNumeric()))
  }

  lemma {:induction false} RangeIsAllAdds(maps: seq<map<nat, seq<Target>>>, cells: seq<Cell>, n: nat)
    requires KnownSource(maps, cells) && n <= |cells|
    ensures KnownSource(maps, cells[..n]) && Range(AsSource(maps, cells), 0, n) == AllAdds(maps, cells[..n])
  {
    hide CellAdds, KnownCell;
    if n > 0 {
      RangeIsAllAdds(maps, cells, n - 1);
      assert cells[..n][..n - 1] == cells[..n - 1] && cells[..n][n - 1] == cells[n - 1];
    }
  }

  lemma SourceValid(maps: seq<map<nat, seq<Target>>>, cells: seq<Cell>)
    requires KnownSource(maps, cells)
    ensures ValidSource(AsSource(maps, cells), |maps|)
  {
    hide CellAdds, Rank;
    forall i | 0 <= i < |cells|
      ensures ValidOps(AsSource(maps, cells)[i], |maps|) && OnlyAdds(AsSource(maps, cells)[i])
    {
      KnownHere(maps, cells, i);
      ValidCellAdds(TargetsIn(maps, cells[i].key), cells[i].value.GetNumeric(), |maps|);
    }
  }

  /**
   * A parallel aggregation of the same sources, in any run, delivers what a sequential one leaves in
   * its map; without a limit that is, for every target cell, the weighted sum over all cells it takes.
   */
  lemma ParallelAggregates(parents: seq<Parents>, maps: seq<map<nat, seq<Target>>>, cells: seq<Cell>, n: nat, run: seq<State>,
                           target: Key)
    requires AllTabled(parents, maps) && KnownSource(maps, cells) && ValidKey(target, |maps|)
    requires IsRun(AsSource(maps, cells), n, run) && Joined(AsSource(maps, cells), run[|run| - 1])
    ensures Shaped(cells, |parents|)
    ensures Delivered(run[|run| - 1], n) == CappedRun([], AllAdds(maps, cells), n) == Cap(Run([], AllAdds(maps, cells)), n)
    ensures var want := Aggregated(parents, cells, target);
      n == 0 ==> Lookup(Delivered(run[|run| - 1], n), Rank(target)) == if want.count == 0 then None else Some(want.sum)
    ensures LeastAggregated(Delivered(run[|run| - 1], n), parents, cells, n)
  {
    hide Rank, Run, Lookup, AllAdds, Aggregated, Received, AllTabled, KnownSource, ValidSource, Put, LeastAggregated;
    SourceValid(maps, cells);
    ParallelIsSequential(AsSource(maps, cells), n, run, |maps|);
    RangeIsAllAdds(maps, cells, |cells|);
    assert cells[..|cells|] == cells;
    CappedIsLeast([], AllAdds(maps, cells), n);
    ReceivedIsAggregated(parents, maps, cells, target);
    AggregatedValue(maps, cells, Rank(target));
    CapDelivers(parents, maps, cells, n);
  }
}
