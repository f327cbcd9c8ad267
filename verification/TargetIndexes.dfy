/**
 * The compressed representation of an AggregationMap: shared buffers of targets and weights, the
 * sequences in them, and the index from source ids to sequences (a sorted list or a dense vector).
 */
module TargetIndexes {
  import opened Ids
  import opened Wrappers

  /** One target of a source id and the weight it contributes with. */
  datatype Target = Target(id: nat, weight: real)

  datatype TargetSequence = TargetSequence(startOffset: nat, length: nat)

  datatype SourceItem = SourceItem(sourceRangeBegin: nat, distrMapIndex: nat)

  datatype Rep = Rep(
    targetIds: seq<nat>,
    weights: seq<real>,
    sequences: seq<TargetSequence>,
    items: seq<SourceItem>,
    vector: seq<nat>)

  /** The reserved id stands for the source id itself. */
  function Resolve(target: nat, selfId: nat): nat
  {
    if target == NO_IDENTIFIER then selfId else target
  }

  /** A sequence lies inside the target buffer, and wholly inside or wholly behind the weight buffer. */
  ghost predicate InBuffers(targets: nat, weights: nat, d: TargetSequence)
  {
    d.startOffset + d.length <= targets && (weights <= d.startOffset || d.startOffset + d.length <= weights)
  }

  ghost predicate ValidBuffers(rep: Rep)
  {
    && |rep.weights| <= |rep.targetIds|
    && forall d :: 0 <= d < |rep.sequences| ==> InBuffers(|rep.targetIds|, |rep.weights|, rep.sequences[d])
  }

  /** What a reader of sequence d delivers for a source id. */
  function ReadAs(rep: Rep, d: nat, selfId: nat): (ts: seq<Target>)
    requires ValidBuffers(rep) && d < |rep.sequences|
    ensures |ts| == rep.sequences[d].length
  {
    var start, length := rep.sequences[d].startOffset, rep.sequences[d].length;
    assert InBuffers(|rep.targetIds|, |rep.weights|, rep.sequences[d]);
    seq(length, i requires 0 <= i < length =>
      Target(Resolve(rep.targetIds[start + i], selfId), if |rep.weights| <= start then 1.0 else rep.weights[start + i]))
  }

  // ------------------------------------------------------------------------------------------
  // Appending a sequence to the buffers
  // ------------------------------------------------------------------------------------------

  function Ones(n: nat): (w: seq<real>)
    ensures |w| == n
  {
    seq(n, _ => 1.0)
  }

  /** The weight buffer after a sequence: missing weights are only written when a weight is given. */
  function WeightsAfter(rep: Rep, weights: seq<real>): seq<real>
    requires |rep.weights| <= |rep.targetIds|
  {
    if weights == [] then rep.weights else rep.weights + Ones(|rep.targetIds| - |rep.weights|) + weights
  }

  function Appended(rep: Rep, targetIds: seq<nat>, weights: seq<real>): Rep
    requires |rep.weights| <= |rep.targetIds|
  {
    rep.(targetIds := rep.targetIds + targetIds,
         weights := WeightsAfter(rep, weights),
         sequences := rep.sequences + [TargetSequence(|rep.targetIds|, |targetIds|)])
  }

  /** The targets given by ids and weights; no weights at all means every weight is 1. */
  function Zipped(targetIds: seq<nat>, weights: seq<real>, selfId: nat): (ts: seq<Target>)
    requires weights == [] || |weights| == |targetIds|
    ensures |ts| == |targetIds|
  {
    seq(|targetIds|, i requires 0 <= i < |targetIds| =>
      Target(Resolve(targetIds[i], selfId), if weights == [] then 1.0 else weights[i]))
  }

  lemma AppendedValid(rep: Rep, targetIds: seq<nat>, weights: seq<real>)
    requires ValidBuffers(rep) && (weights == [] || |weights| == |targetIds|)
    ensures ValidBuffers(Appended(rep, targetIds, weights))
  {
    var rep' := Appended(rep, targetIds, weights);
    forall d | 0 <= d < |rep'.sequences|
      ensures InBuffers(|rep'.targetIds|, |rep'.weights|, rep'.sequences[d])
    {
      if d < |rep.sequences| {
        assert InBuffers(|rep.targetIds|, |rep.weights|, rep.sequences[d]);
      }
    }
  }

  /** A new sequence reads back as it was given ... */
  lemma AppendedReads(rep: Rep, targetIds: seq<nat>, weights: seq<real>, selfId: nat)
    requires ValidBuffers(rep) && (weights == [] || |weights| == |targetIds|)
    ensures ValidBuffers(Appended(rep, targetIds, weights))
    ensures ReadAs(Appended(rep, targetIds, weights), |rep.sequences|, selfId) == Zipped(targetIds, weights, selfId)
  {
    AppendedValid(rep, targetIds, weights);
  }

  /** ... and the earlier ones read as before, although missing weights may now be present. */
  lemma AppendedKeeps(rep: Rep, targetIds: seq<nat>, weights: seq<real>, d: nat, selfId: nat)
    requires ValidBuffers(rep) && (weights == [] || |weights| == |targetIds|) && d < |rep.sequences|
    ensures ValidBuffers(Appended(rep, targetIds, weights))
    ensures ReadAs(Appended(rep, targetIds, weights), d, selfId) == ReadAs(rep, d, selfId)
  {
    AppendedValid(rep, targetIds, weights);
    var rep' := Appended(rep, targetIds, weights);
    assert InBuffers(|rep.targetIds|, |rep.weights|, rep.sequences[d]);
    var start, length := rep.sequences[d].startOffset, rep.sequences[d].length;
    forall i | 0 <= i < length
      ensures ReadAs(rep', d, selfId)[i] == ReadAs(rep, d, selfId)[i]
    {
      assert rep'.targetIds[start + i] == rep.targetIds[start + i];
    }
  }

  // ------------------------------------------------------------------------------------------
  // From source ids to sequences
  // ------------------------------------------------------------------------------------------

  /** std::upper_bound on the begin of the ranges: the number of leading items that begin at or below x. */
  function UpperBound(items: seq<SourceItem>, x: int): (k: nat)
    ensures k <= |items|
    ensures k > 0 ==> items[k - 1].sourceRangeBegin <= x
    ensures forall j :: k <= j < |items| ==> x < items[j].sourceRangeBegin
  {
    if items == [] then 0
    else if items[|items| - 1].sourceRangeBegin <= x then |items|
    else UpperBound(items[..|items| - 1], x)
  }

  ghost predicate Ascending(items: seq<SourceItem>)
  {
    forall i, j :: 0 <= i < j < |items| ==> items[i].sourceRangeBegin < items[j].sourceRangeBegin
  }

  lemma UpperBoundAt(items: seq<SourceItem>, i: nat, x: int)
    requires Ascending(items) && i < |items| && items[i].sourceRangeBegin <= x
    requires i + 1 < |items| ==> x < items[i + 1].sourceRangeBegin
    ensures UpperBound(items, x) == i + 1
  {
  }

  /** The list begins its ranges inside [minBase, end); the vector has an entry for every id up to maxBase. */
  ghost predicate IndexedItems(items: seq<SourceItem>, vector: seq<nat>, minBase: nat, maxBase: nat, end: nat, count: nat)
  {
    && Ascending(items)
    && (forall i :: 0 <= i < |items| ==> minBase <= items[i].sourceRangeBegin < end && items[i].distrMapIndex < count)
    && (vector != [] ==> items == [] && |vector| == maxBase + 1 - minBase)
    && (forall i :: 0 <= i < |vector| ==> vector[i] < count)
  }

  ghost predicate Indexed(rep: Rep, minBase: nat, maxBase: nat, end: nat)
  {
    ValidBuffers(rep) && IndexedItems(rep.items, rep.vector, minBase, maxBase, end, |rep.sequences|)
  }

  /** Whatever the index says is a sequence, and it says something. */
  ghost predicate Searchable(rep: Rep, minBase: nat, maxBase: nat)
  {
    && ValidBuffers(rep) && (rep.items != [] || rep.vector != [])
    && (forall i :: 0 <= i < |rep.items| ==> rep.items[i].distrMapIndex < |rep.sequences|)
    && (forall i :: 0 <= i < |rep.vector| ==> rep.vector[i] < |rep.sequences|)
    && (rep.vector != [] ==> |rep.vector| == maxBase + 1 - minBase)
  }

  lemma IndexedSearchable(rep: Rep, minBase: nat, maxBase: nat, end: nat)
    requires Indexed(rep, minBase, maxBase, end) && (rep.items != [] || rep.vector != [])
    ensures Searchable(rep, minBase, maxBase)
  {
  }

  /** The sequence a source id is mapped to, if the index says. */
  function Locate(items: seq<SourceItem>, vector: seq<nat>, minBase: nat, x: int): Option<nat>
  {
    if vector == [] then
      var k := UpperBound(items, x);
      if k > 0 then Some(items[k - 1].distrMapIndex) else None
    else if 0 <= x - minBase < |vector| then Some(vector[x - minBase])
    else None
  }

  /** One more range at the end of the list: ids before it are mapped as before, the others to it. */
  lemma LocateAppended(items: seq<SourceItem>, item: SourceItem, minBase: nat, x: int)
    requires forall i :: 0 <= i < |items| ==> items[i].sourceRangeBegin < item.sourceRangeBegin
    ensures x < item.sourceRangeBegin ==>
      Locate(items + [item], [], minBase, x) == Locate(items, [], minBase, x)
    ensures x >= item.sourceRangeBegin ==> Locate(items + [item], [], minBase, x) == Some(item.distrMapIndex)
  {
    assert (items + [item])[..|items|] == items;
  }

  function Fill(v: seq<nat>, from: nat, to: nat, d: nat): (w: seq<nat>)
    requires from <= to <= |v|
    ensures |w| == |v|
    ensures forall i :: 0 <= i < |v| ==> w[i] == if from <= i < to then d else v[i]
  {
    v[..from] + seq(to - from, _ => d) + v[to..]
  }

  /** The list spread out to a vector: every id the list maps is mapped to the same sequence. */
  method ConvertToVector(items: seq<SourceItem>, minBase: nat, maxBase: nat) returns (vector: seq<nat>)
    requires items != [] && Ascending(items) && minBase <= maxBase
    requires forall i :: 0 <= i < |items| ==> minBase <= items[i].sourceRangeBegin <= maxBase
    ensures |vector| == maxBase + 1 - minBase
    ensures forall i :: 0 <= i < |vector| ==> vector[i] == 0 || exists j :: 0 <= j < |items| && vector[i] == items[j].distrMapIndex
    ensures forall x :: minBase <= x <= maxBase && Locate(items, [], minBase, x).Some? ==>
      Locate([], vector, minBase, x) == Locate(items, [], minBase, x)
  {
    vector := seq(maxBase + 1 - minBase, _ => 0);
    var mapIt := 0;
    var seqBegin := items[0].sourceRangeBegin - minBase;
    while mapIt != |items|
      invariant mapIt <= |items| && |vector| == maxBase + 1 - minBase
      invariant forall i :: 0 <= i < |vector| ==> vector[i] == 0 || exists j :: 0 <= j < |items| && vector[i] == items[j].distrMapIndex
      invariant seqBegin == (if mapIt < |items| then items[mapIt].sourceRangeBegin else maxBase + 1) - minBase
      invariant forall x :: items[0].sourceRangeBegin <= x < minBase + seqBegin ==>
        Some(vector[x - minBase]) == Locate(items, [], minBase, x)
    {
      var dmIndex := items[mapIt].distrMapIndex;
      mapIt := mapIt + 1;
      var seqEnd := (if mapIt == |items| then maxBase + 1 else items[mapIt].sourceRangeBegin) - minBase;
      forall x | minBase + seqBegin <= x < minBase + seqEnd
        ensures Locate(items, [], minBase, x) == Some(dmIndex)
      {
        UpperBoundAt(items, mapIt - 1, x);
      }
      vector := Fill(vector, seqBegin, seqEnd, dmIndex);
      seqBegin := seqEnd;
    }
  }
}
