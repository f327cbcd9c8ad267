/** AggregationMap: for every base element of a dimension, the parents it is aggregated into. */
module AggregationMaps {
  import opened Ids
  import opened Wrappers
  import opened Ranges
  import opened WeightedRanges
  import opened WeightedSets
  import opened TargetIndexes
  import opened Sweeps

  /** A target element and its weighted bases; no set at all means the element is its own base. */
  datatype Parent = Parent(id: nat, bases: Option<seq<WRange>>)

  /** In ascending order of the ids, every set given is sorted. */
  ghost predicate ValidParents(ps: seq<Parent>)
  {
    && (forall i :: 0 <= i < |ps| ==> ps[i].id < NO_IDENTIFIER && WSorted(ps[i].bases.GetOr([])))
    && (forall i, j :: 0 <= i < j < |ps| ==> ps[i].id < ps[j].id)
  }

  /** No parent has an empty set of bases. */
  ghost predicate AllNonEmpty(ps: seq<Parent>)
  {
    forall i :: 0 <= i < |ps| ==> ps[i].bases != Some([])
  }

  ghost predicate BasesWithin(p: Parent, minBase: nat, maxBase: nat)
  {
    match p.bases
    case None => minBase <= p.id <= maxBase
    case Some(ws) => forall j :: 0 <= j < |ws| ==> minBase <= ws[j].low && ws[j].high <= maxBase
  }

  ghost predicate AllWithin(ps: seq<Parent>, minBase: nat, maxBase: nat)
  {
    forall i :: 0 <= i < |ps| ==> BasesWithin(ps[i], minBase, maxBase)
  }

  /** What a parent takes from source id s. */
  function ParentTarget(p: Parent, s: nat): multiset<Target>
  {
    match p.bases
    case None => if s == p.id then multiset{Target(s, 1.0)} else multiset{}
    case Some(ws) =>
      match WeightAt(ws, s)
      case None => multiset{}
      case Some(w) => multiset{Target(p.id, w)}
  }

  /** All targets of source id s: the specification of the compressed map. */
  function TargetsAt(ps: seq<Parent>, s: nat): multiset<Target>
  {
    if ps == [] then multiset{} else TargetsAt(ps[..|ps| - 1], s) + ParentTarget(ps[|ps| - 1], s)
  }

  /** Some parent takes from source id s exactly the given target. */
  ghost predicate Taken(ps: seq<Parent>, s: nat, t: Target)
  {
    exists i :: 0 <= i < |ps| && ParentTarget(ps[i], s) == multiset{t}
  }

  /** A target occurs once if some parent takes it, and not at all otherwise. */
  lemma {:induction false} TargetsAtOnce(ps: seq<Parent>, s: nat, t: Target)
    requires ValidParents(ps)
    ensures TargetsAt(ps, s)[t] == if Taken(ps, s, t) then 1 else 0
  {
    if ps != [] {
      hide ParentTarget, ValidParents, Taken, TargetsAt;
      var init, last := ps[..|ps| - 1], ps[|ps| - 1];
      InitValid(ps);
      TargetsAtOnce(init, s, t);
      OneTarget(last, s, t);
      TakenSplit(ps, s, t);
    }
  }

  lemma TakenSplit(ps: seq<Parent>, s: nat, t: Target)
    requires ValidParents(ps) && ps != []
    ensures TargetsAt(ps, s)[t] == TargetsAt(ps[..|ps| - 1], s)[t] + ParentTarget(ps[|ps| - 1], s)[t]
    ensures Taken(ps, s, t) <==> Taken(ps[..|ps| - 1], s, t) || ParentTarget(ps[|ps| - 1], s) == multiset{t}
    ensures !(Taken(ps[..|ps| - 1], s, t) && ParentTarget(ps[|ps| - 1], s) == multiset{t})
  {
    hide ParentTarget, ValidParents;
    var init, last := ps[..|ps| - 1], ps[|ps| - 1];
    if Taken(init, s, t) {
      var i :| 0 <= i < |init| && ParentTarget(init[i], s) == multiset{t};
      assert ps[i] == init[i];
      OneTarget(ps[i], s, t);
      OneTarget(last, s, t);
      InitBefore(ps, i);
    }
  }

  lemma InitValid(ps: seq<Parent>)
    requires ValidParents(ps) && ps != []
    ensures ValidParents(ps[..|ps| - 1])
  {
    hide WSorted;
  }

  lemma InitBefore(ps: seq<Parent>, i: nat)
    requires ValidParents(ps) && i < |ps| - 1
    ensures ps[i].id < ps[|ps| - 1].id
  {
    hide WSorted;
  }

  lemma OneTarget(p: Parent, s: nat, t: Target)
    ensures ParentTarget(p, s)[t] == if ParentTarget(p, s) == multiset{t} then 1 else 0
    ensures ParentTarget(p, s) == multiset{t} ==> t.id == p.id
  {
    hide WeightAt;
    assert ParentTarget(p, s) == multiset{t} ==> t in ParentTarget(p, s);
  }

  /** The representation answers with exactly the wanted targets for source id s. */
  ghost predicate Answers(rep: Rep, minBase: nat, s: nat, want: multiset<Target>)
  {
    && ValidBuffers(rep)
    && var d := Locate(rep.items, rep.vector, minBase, s);
       d.Some? && d.value < |rep.sequences| && multiset(ReadAs(rep, d.value, s)) == want
  }

  /** One more sequence is stored for the ids of a segment; all earlier ids are mapped as before. */
  ghost predicate SequenceStored(before: Rep, after: Rep, minBase: nat, maxBase: nat, startId: nat, nextStartId: nat,
                         targetIds: seq<nat>, weights: seq<real>)
  {
    && |before.weights| <= |before.targetIds|
    && after.targetIds == Appended(before, targetIds, weights).targetIds
    && after.weights == Appended(before, targetIds, weights).weights
    && after.sequences == Appended(before, targetIds, weights).sequences
    && (forall x: nat :: minBase <= x < startId && Locate(before.items, before.vector, minBase, x).Some? ==>
          Locate(after.items, after.vector, minBase, x) == Locate(before.items, before.vector, minBase, x))
    && (forall x: nat :: startId <= x < nextStartId && x <= maxBase ==>
          Locate(after.items, after.vector, minBase, x) == Some(|before.sequences|))
  }

  lemma AppendedSame(before: Rep, after: Rep, targetIds: seq<nat>, weights: seq<real>, d: nat, s: nat)
    requires ValidBuffers(before) && (weights == [] || |weights| == |targetIds|) && d <= |before.sequences|
    requires after.targetIds == Appended(before, targetIds, weights).targetIds
    requires after.weights == Appended(before, targetIds, weights).weights
    requires after.sequences == Appended(before, targetIds, weights).sequences
    ensures ValidBuffers(after)
    ensures d < |before.sequences| ==> ReadAs(after, d, s) == ReadAs(before, d, s)
    ensures d == |before.sequences| ==> ReadAs(after, d, s) == Zipped(targetIds, weights, s)
  {
    hide ValidBuffers;
    BuffersBound(before);
    var rep := Appended(before, targetIds, weights);
    AppendedValid(before, targetIds, weights);
    AppendedReads(before, targetIds, weights, s);
    if d < |before.sequences| {
      AppendedKeeps(before, targetIds, weights, d, s);
    }
    ReadsBuffersOnly(rep, after, d, s);
  }

  lemma ReadsBuffersOnly(a: Rep, b: Rep, d: nat, s: nat)
    requires ValidBuffers(a) && d < |a.sequences|
    requires a.targetIds == b.targetIds && a.weights == b.weights && a.sequences == b.sequences
    ensures ValidBuffers(b) && ReadAs(a, d, s) == ReadAs(b, d, s)
  {
  }

  /** Answers for earlier ids survive. */
  lemma StoredKeeps(before: Rep, after: Rep, minBase: nat, maxBase: nat, startId: nat, nextStartId: nat,
                    targetIds: seq<nat>, weights: seq<real>, s: nat, want: multiset<Target>)
    requires SequenceStored(before, after, minBase, maxBase, startId, nextStartId, targetIds, weights)
    requires weights == [] || |weights| == |targetIds|
    requires minBase <= s < startId && Answers(before, minBase, s, want)
    ensures Answers(after, minBase, s, want)
  {
    hide ReadAs, Appended, ValidBuffers, Locate;
    var d := Locate(before.items, before.vector, minBase, s).value;
    AppendedSame(before, after, targetIds, weights, d, s);
    assert after.sequences == Appended(before, targetIds, weights).sequences;
    SequencesGrow(before, targetIds, weights);
  }

  lemma SequencesGrow(rep: Rep, targetIds: seq<nat>, weights: seq<real>)
    requires |rep.weights| <= |rep.targetIds|
    ensures |Appended(rep, targetIds, weights).sequences| == |rep.sequences| + 1
  {
  }

  /** The ids of the new segment are answered with the new sequence. */
  lemma StoredAnswers(before: Rep, after: Rep, minBase: nat, maxBase: nat, startId: nat, nextStartId: nat,
                      targetIds: seq<nat>, weights: seq<real>, s: nat)
    requires ValidBuffers(before)
    requires SequenceStored(before, after, minBase, maxBase, startId, nextStartId, targetIds, weights)
    requires weights == [] || |weights| == |targetIds|
    requires startId <= s < nextStartId && s <= maxBase
    ensures Answers(after, minBase, s, multiset(Zipped(targetIds, weights, s)))
  {
    hide ReadAs, Appended, ValidBuffers, Locate, Zipped;
    AppendedSame(before, after, targetIds, weights, |before.sequences|, s);
    SequencesGrow(before, targetIds, weights);
  }

  /** What getTargets hands out: a cursor over one sequence of targets. */
  class TargetReader {
    const targetIds: seq<nat>
    const weights: Option<seq<real>>
    const selfId: nat
    var current: nat

    ghost predicate Valid()
      reads this
    {
      current <= |targetIds| && (weights.Some? ==> |weights.value| == |targetIds|)
    }

    /** Everything the reader delivers from its begin to its end. */
    function All(): (ts: seq<Target>)
      requires weights.Some? ==> |weights.value| == |targetIds|
      ensures |ts| == |targetIds|
    {
      Zipped(targetIds, weights.GetOr([]), selfId)
    }

    constructor (targetIds: seq<nat>, weights: Option<seq<real>>, selfId: nat)
      requires weights.Some? ==> |weights.value| == |targetIds|
      ensures Valid() && current == 0
      ensures this.targetIds == targetIds && this.weights == weights && this.selfId == selfId
    {
      this.targetIds, this.weights, this.selfId, this.current := targetIds, weights, selfId, 0;
    }

    predicate End()
      reads this
    {
      current == |targetIds|
    }

    /** The current target with its weight, as operator* and getWeight give it. */
    function Get(): Target
      requires Valid() && !End()
      reads this
    {
      Target(Resolve(targetIds[current], selfId), if weights.Some? then weights.value[current] else 1.0)
    }

    method Next()
      requires Valid() && !End()
      modifies this
      ensures Valid() && current == old(current) + 1
      ensures old(Get()) == All()[old(current)]
    {
      current := current + 1;
    }

    /** Back to the first target. */
    method Reset()
      requires Valid()
      modifies this
      ensures Valid() && current == 0
    {
      current := 0;
    }
  }

  /** A weighted set stores weights as soon as one of them is not 1. */
  predicate HasWeights(ws: seq<WRange>)
  {
    exists i :: 0 <= i < |ws| && ws[i].weight != 1.0
  }

  lemma NoWeights()
    ensures !HasWeights([])
  {
  }

  /** If no parent has weights, every target has weight 1. */
  lemma {:induction false} WithoutWeights(ps: seq<Parent>, s: nat, t: Target)
    requires (forall i :: 0 <= i < |ps| ==> !HasWeights(ps[i].bases.GetOr([]))) && t in TargetsAt(ps, s)
    ensures t.weight == 1.0
  {
    hide HasWeights, ParentTarget;
    var init, last := ps[..|ps| - 1], ps[|ps| - 1];
    if t in TargetsAt(init, s) {
      WithoutWeights(init, s, t);
    } else {
      assert t in ParentTarget(last, s);
      UnweightedTarget(last, s, t);
    }
  }

  lemma UnweightedTarget(p: Parent, s: nat, t: Target)
    requires !HasWeights(p.bases.GetOr([])) && t in ParentTarget(p, s)
    ensures t.weight == 1.0
  {
    hide HasWeights, WeightAt;
    UnweightedAt(p.bases.GetOr([]), s);
  }

  lemma {:induction false} UnweightedAt(ws: seq<WRange>, x: int)
    requires !HasWeights(ws)
    ensures WeightAt(ws, x) == None || WeightAt(ws, x) == Some(1.0)
  {
    if ws != [] {
      assert forall i :: 0 <= i < |ws[1..]| ==> ws[1..][i] == ws[i + 1];
      UnweightedAt(ws[1..], x);
    }
  }

  /** One more target of a source id, or a new weight of it. */
  function WithTarget(m: map<nat, map<nat, real>>, source: nat, target: nat, weight: real): map<nat, map<nat, real>>
  {
    m[source := (if source in m then m[source] else map[])[target := weight]]
  }

  function TargetWeight(m: map<nat, map<nat, real>>, source: nat, target: nat): Option<real>
  {
    if source in m && target in m[source] then Some(m[source][target]) else None
  }

  class AggregationMap {
    var parents: seq<Parent>
    var minBaseId: nat
    var maxBaseId: nat
    var anyWeights: bool
    var base2ParentMap: map<nat, map<nat, real>>
    var targetIdBuffer: seq<nat>
    var weightBuffer: seq<real>
    var distributionMap: seq<TargetSequence>
    var source2TargetMap: seq<SourceItem>
    var source2TargetVector: seq<nat>

    ghost predicate Valid()
      reads this
    {
      && ValidParents(parents) && AllWithin(parents, minBaseId, maxBaseId) && (parents == [] ==> minBaseId == NO_IDENTIFIER)
      && (forall p: Parent :: p in parents && HasWeights(p.bases.GetOr([])) ==> anyWeights)
    }

    ghost function CurrentRep(): Rep
      reads this
    {
      Rep(targetIdBuffer, weightBuffer, distributionMap, source2TargetMap, source2TargetVector)
    }

    /** Every base id is answered with exactly its targets. */
    ghost predicate Built()
      reads this
    {
      && (parents != [] ==> Searchable(CurrentRep(), minBaseId, maxBaseId))
      && forall s: nat :: TargetsAt(parents, s) != multiset{} ==>
           Answers(CurrentRep(), minBaseId, s, TargetsAt(parents, s))
    }

    constructor ()
      ensures Valid() && parents == [] && !anyWeights && base2ParentMap == map[]
    {
      parents, minBaseId, maxBaseId, anyWeights, base2ParentMap := [], NO_IDENTIFIER, 0, false, map[];
      targetIdBuffer, weightBuffer, distributionMap, source2TargetMap, source2TargetVector := [], [], [], [], [];
    }

    /** setBasesByParent: enters a parent, or replaces its bases, and widens the range of base ids. */
    method SetBasesByParent(parentId: nat, bases: Option<seq<WRange>>)
      requires Valid() && parentId < NO_IDENTIFIER && WSorted(bases.GetOr([]))
      modifies this`parents, this`minBaseId, this`maxBaseId, this`anyWeights, this`base2ParentMap
      ensures Valid()
      ensures Parent(parentId, bases) in parents
      ensures forall p: Parent :: p.id != parentId ==> (p in parents <==> p in old(parents))
      ensures anyWeights <==> old(anyWeights) || HasWeights(bases.GetOr([]))
      ensures base2ParentMap == if bases == None then WithTarget(old(base2ParentMap), parentId, parentId, 1.0) else old(base2ParentMap)
      ensures forall s, t ::
        TargetWeight(base2ParentMap, s, t) == if bases == None && s == parentId == t then Some(1.0) else TargetWeight(old(base2ParentMap), s, t)
    {
      hide ValidParents, AllWithin, WSorted, HasWeights;
      assert !HasWeights([]) by { NoWeights(); }
      if bases != None {
        anyWeights := anyWeights || HasWeights(bases.value);
      } else {
        base2ParentMap := WithTarget(base2ParentMap, parentId, parentId, 1.0);
      }
      ghost var before := parents;
      parents := PutParent(parents, Parent(parentId, bases));
      if bases == None {
        minBaseId := Min(minBaseId, parentId);
        maxBaseId := Max(maxBaseId, parentId);
      } else if bases.value != [] {
        minBaseId := Min(minBaseId, bases.value[0].low);
        maxBaseId := Max(maxBaseId, bases.value[|bases.value| - 1].high);
      }
      assert BasesWithin(Parent(parentId, bases), minBaseId, maxBaseId) by {
        WithinEnds(Parent(parentId, bases), minBaseId, maxBaseId);
      }
      PutWithin(before, parents, Parent(parentId, bases), old(minBaseId), old(maxBaseId), minBaseId, maxBaseId);
    }

    /** storeDistributionSequence: the targets of all base ids from startId up to the next start. */
    method StoreDistributionSequence(startId: nat, nextStartId: nat, targetIds: seq<nat>, targetWeights: seq<real>)
        returns (distrMapIndex: nat)
      requires minBaseId <= startId <= maxBaseId && startId < nextStartId
      requires Indexed(CurrentRep(), minBaseId, maxBaseId, startId)
      requires targetWeights == [] || |targetWeights| == |targetIds|
      modifies this`targetIdBuffer, this`weightBuffer, this`distributionMap,
               this`source2TargetMap, this`source2TargetVector
      ensures Indexed(CurrentRep(), minBaseId, maxBaseId, nextStartId)
      ensures SequenceStored(old(CurrentRep()), CurrentRep(), minBaseId, maxBaseId, startId, nextStartId, targetIds, targetWeights)
      ensures distrMapIndex == old(|distributionMap|)
      ensures source2TargetMap != [] || source2TargetVector != []
      ensures source2TargetVector != [] <==>
        old(source2TargetVector != [] || (|source2TargetMap| + 1) * 8 > (maxBaseId + 1 - minBaseId) * 4)
    {
      hide Locate, ValidBuffers, Ascending;
      ghost var before := CurrentRep();
      BuffersBound(before);
      AppendedValid(before, targetIds, targetWeights);
      var distMapSequenceStart := |targetIdBuffer|;
      if targetWeights != [] {
        if |weightBuffer| != |targetIdBuffer| {
          weightBuffer := weightBuffer + Ones(|targetIdBuffer| - |weightBuffer|);
        }
        weightBuffer := weightBuffer + targetWeights;
      }
      targetIdBuffer := targetIdBuffer + targetIds;
      distrMapIndex := |distributionMap|;
      distributionMap := distributionMap + [TargetSequence(distMapSequenceStart, |targetIds|)];
      assert CurrentRep().weights == Appended(before, targetIds, targetWeights).weights;
      source2TargetMap, source2TargetVector :=
        IndexSegment(source2TargetMap, source2TargetVector, minBaseId, maxBaseId, startId, nextStartId, distrMapIndex);
      BuffersOnly(Appended(before, targetIds, targetWeights), CurrentRep());
    }

    /**
     * buildBaseToParentMap: sweeps over the ranges of all parents and stores the targets of every
     * segment in which they do not change.
     */
    method BuildBaseToParentMap()
      requires Valid() && AllNonEmpty(parents)
      modifies this`targetIdBuffer, this`weightBuffer, this`distributionMap,
               this`source2TargetMap, this`source2TargetVector
      ensures Valid() && Built()
    {
      hide TargetsOf, TargetsAt, Answers, SequenceStored, Indexed, Queue, Reaching, Below, SameFrom, Uniform, ValidParents, AllWithin;
      targetIdBuffer, weightBuffer, distributionMap, source2TargetMap, source2TargetVector := [], [], [], [], [];
      var mapTuples := CollectTuples(parents, minBaseId, maxBaseId);
      var queue := EnqueueAll(mapTuples, minBaseId, maxBaseId);
      var startId := minBaseId;
      NothingIndexed(minBaseId, maxBaseId);
      FirstBase(parents, minBaseId, maxBaseId);
      while startId != NO_IDENTIFIER
        invariant startId <= NO_IDENTIFIER && (startId == NO_IDENTIFIER || minBaseId <= startId <= maxBaseId)
        invariant Queue(queue) && Reaching(queue, startId) && Below(queue, maxBaseId)
        invariant SameFrom(mapTuples, queue, startId)
        invariant Indexed(CurrentRep(), minBaseId, maxBaseId, startId)
        invariant startId > minBaseId ==> source2TargetMap != [] || source2TargetVector != []
        invariant AnswersBelow(CurrentRep(), minBaseId, mapTuples, startId)
        decreases NO_IDENTIFIER - startId
      {
        var k, firstEnd, lastEnd, firstStart, targetIds, targetWeights := FindActive(queue, startId);
        var nextStartId := FindNextStart(queue, k, startId, firstEnd, lastEnd, firstStart);
        ghost var before := CurrentRep();
        IndexedBuffers(before, minBaseId, maxBaseId, startId);
        QueueFacts(queue);
        var _ := StoreDistributionSequence(startId, nextStartId, targetIds, targetWeights);
        SegmentAnswered(before, CurrentRep(), minBaseId, maxBaseId, mapTuples, queue, k, startId, nextStartId, targetIds, targetWeights);
        NextWithin(queue, nextStartId, maxBaseId);
        ghost var queueBefore := queue;
        queue := RemoveFinished(queue, k, startId, nextStartId, maxBaseId);
        SameFromNext(mapTuples, queueBefore, queue, startId, nextStartId);
        startId := nextStartId;
      }
      if parents != [] {
        IndexedSearchable(CurrentRep(), minBaseId, maxBaseId, startId);
      }
      AllAnswered(CurrentRep(), parents, mapTuples, minBaseId, maxBaseId);
    }

    /**
     * compactSourceToTarget: the map rebuilt from an explicit list of targets per source id, one
     * segment per source.
     */
    method CompactSourceToTarget(sources: seq<Source>)
      requires Sources(sources, minBaseId, maxBaseId)
      modifies this`targetIdBuffer, this`weightBuffer, this`distributionMap,
               this`source2TargetMap, this`source2TargetVector
      ensures sources != [] ==> Searchable(CurrentRep(), minBaseId, maxBaseId)
      ensures forall k :: 0 <= k < |sources| ==> SourceAnswered(CurrentRep(), minBaseId, maxBaseId, sources, k)
      ensures forall k :: 0 <= k < |sources| && (forall i :: 0 <= i < |sources[k].targets| ==> sources[k].targets[i].id != NO_IDENTIFIER) ==>
        Answers(CurrentRep(), minBaseId, sources[k].id, multiset(sources[k].targets))
    {
      hide Answers, SequenceStored, Indexed, SourceAnswered;
      AsGiven(sources);
      targetIdBuffer, weightBuffer, distributionMap, source2TargetMap, source2TargetVector := [], [], [], [], [];
      NothingIndexed(minBaseId, maxBaseId);
      IndexedBuffers(CurrentRep(), minBaseId, maxBaseId, minBaseId);
      ghost var end: nat := minBaseId;
      for stit := 0 to |sources|
        invariant Indexed(CurrentRep(), minBaseId, maxBaseId, end) && ValidBuffers(CurrentRep())
        invariant stit > 0 ==> source2TargetMap != [] || source2TargetVector != []
        invariant minBaseId <= end && (stit < |sources| ==> end <= sources[stit].id)
        invariant forall k :: 0 <= k < stit ==> SourceAnswered(CurrentRep(), minBaseId, maxBaseId, sources, k)
      {
        var source := sources[stit];
        var targetIds := seq(|source.targets|, i requires 0 <= i < |source.targets| => source.targets[i].id);
        var targetWeights := seq(|source.targets|, i requires 0 <= i < |source.targets| => source.targets[i].weight);
        var nextStartId := if stit + 1 == |sources| then source.id + 1 else sources[stit + 1].id;
        ghost var before := CurrentRep();
        IndexedLater(before, minBaseId, maxBaseId, end, source.id);
        var _ := StoreDistributionSequence(source.id, nextStartId, targetIds, targetWeights);
        IndexedBuffers(CurrentRep(), minBaseId, maxBaseId, nextStartId);
        SourceStored(before, CurrentRep(), minBaseId, maxBaseId, sources, stit, targetIds, targetWeights);
        end := nextStartId;
      }
      if sources != [] {
        IndexedSearchable(CurrentRep(), minBaseId, maxBaseId, end);
      }
      forall k | 0 <= k < |sources|
        ensures Answers(CurrentRep(), minBaseId, sources[k].id, multiset(AsTargets(sources[k])))
      {
        SourceItself(CurrentRep(), minBaseId, maxBaseId, sources, k);
      }
    }

    /** getTargets: a reader over the targets of a source id; an id the vector has no entry for is an error. */
    method GetTargets(sourceId: nat) returns (r: Result<TargetReader>)
      requires Searchable(CurrentRep(), minBaseId, maxBaseId)
      ensures r.Failure? <==> source2TargetVector != [] && !(minBaseId <= sourceId <= maxBaseId)
      ensures r.Success? ==> fresh(r.value) && r.value.Valid() && r.value.current == 0
      ensures forall want :: Answers(CurrentRep(), minBaseId, sourceId, want) ==>
        r.Success? && multiset(r.value.All()) == want
    {
      hide ReadAs, Answers, Zipped;
      var distrMapIndex;
      if source2TargetVector == [] {
        var mit := UpperBound(source2TargetMap, sourceId);
        if mit != 0 {
          mit := mit - 1;
        }
        distrMapIndex := source2TargetMap[mit].distrMapIndex;
      } else {
        if sourceId < minBaseId || sourceId > maxBaseId {
          Unanswered(CurrentRep(), minBaseId, sourceId);
          return Failure("AggregationMap::getTargets(): sourceId out of range");
        }
        distrMapIndex := source2TargetVector[sourceId - minBaseId];
      }
      var distrMap := distributionMap[distrMapIndex];
      assert InBuffers(|targetIdBuffer|, |weightBuffer|, distrMap);
      var begin, end := distrMap.startOffset, distrMap.startOffset + distrMap.length;
      var weights := if |weightBuffer| <= begin then None else Some(weightBuffer[begin..end]);
      var reader := new TargetReader(targetIdBuffer[begin..end], weights, sourceId);
      ReaderDelivers(CurrentRep(), distrMapIndex, sourceId, reader.weights);
      ReaderAnswers(CurrentRep(), minBaseId, sourceId, distrMapIndex, reader.All());
      r := Success(reader);
    }
  }

  /** A source id with its targets, as base2ParentMap holds them. */
  datatype Source = Source(id: nat, targets: seq<Target>)

  ghost predicate Sources(sources: seq<Source>, minBase: nat, maxBase: nat)
  {
    && (forall i :: 0 <= i < |sources| ==> minBase <= sources[i].id <= maxBase)
    && (forall i, j :: 0 <= i < j < |sources| ==> sources[i].id < sources[j].id)
  }

  /** The reserved target id stands for the source itself. */
  function AsTargets(source: Source): (ts: seq<Target>)
    ensures |ts| == |source.targets|
    ensures forall i :: 0 <= i < |ts| ==>
      ts[i] == if source.targets[i].id == NO_IDENTIFIER then source.targets[i].(id := source.id) else source.targets[i]
  {
    seq(|source.targets|, i requires 0 <= i < |source.targets| =>
      Target(Resolve(source.targets[i].id, source.id), source.targets[i].weight))
  }

  /** Without the reserved id the targets are taken as they are. */
  lemma AsGiven(sources: seq<Source>)
    ensures forall k :: 0 <= k < |sources| && (forall i :: 0 <= i < |sources[k].targets| ==> sources[k].targets[i].id != NO_IDENTIFIER) ==>
      AsTargets(sources[k]) == sources[k].targets
  {
  }

  /** Where the ids answered as source k end: at the next source, or behind the last one. */
  function EndOfSource(sources: seq<Source>, k: nat): nat
    requires k < |sources|
  {
    if k + 1 == |sources| then sources[k].id + 1 else sources[k + 1].id
  }

  /** Source k is answered with its list, and so are the ids between it and the next source, the reserved id standing for each of them. */
  ghost predicate SourceAnswered(rep: Rep, minBase: nat, maxBase: nat, sources: seq<Source>, k: nat)
    requires k < |sources|
  {
    forall x: nat :: sources[k].id <= x < EndOfSource(sources, k) && x <= maxBase ==>
      Answers(rep, minBase, x, multiset(AsTargets(sources[k].(id := x))))
  }

  lemma SourceItself(rep: Rep, minBase: nat, maxBase: nat, sources: seq<Source>, k: nat)
    requires k < |sources| && Sources(sources, minBase, maxBase) && SourceAnswered(rep, minBase, maxBase, sources, k)
    ensures Answers(rep, minBase, sources[k].id, multiset(AsTargets(sources[k])))
  {
    hide Answers;
    var own := sources[k];
    assert own.(id := own.id) == own;
    assert own.id < EndOfSource(sources, k);
  }

  /** One more source stored: it is answered, and all earlier ones are as before. */
  lemma SourceStored(before: Rep, after: Rep, minBase: nat, maxBase: nat, sources: seq<Source>, n: nat,
                     targetIds: seq<nat>, weights: seq<real>)
    requires n < |sources| && Sources(sources, minBase, maxBase) && ValidBuffers(before)
    requires SequenceStored(before, after, minBase, maxBase, sources[n].id, EndOfSource(sources, n), targetIds, weights)
    requires |targetIds| == |weights| == |sources[n].targets|
    requires forall i :: 0 <= i < |targetIds| ==> sources[n].targets[i] == Target(targetIds[i], weights[i])
    requires forall k :: 0 <= k < n ==> SourceAnswered(before, minBase, maxBase, sources, k)
    ensures forall k :: 0 <= k <= n ==> SourceAnswered(after, minBase, maxBase, sources, k)
  {
    hide Answers, SequenceStored, ValidBuffers;
    forall x: nat | sources[n].id <= x < EndOfSource(sources, n) && x <= maxBase
      ensures Answers(after, minBase, x, multiset(AsTargets(sources[n].(id := x))))
    {
      StoredAnswers(before, after, minBase, maxBase, sources[n].id, EndOfSource(sources, n), targetIds, weights, x);
      assert Zipped(targetIds, weights, x) == AsTargets(sources[n].(id := x));
    }
    forall k, x: nat | 0 <= k < n && sources[k].id <= x < EndOfSource(sources, k) && x <= maxBase
      ensures Answers(after, minBase, x, multiset(AsTargets(sources[k].(id := x))))
    {
      assert SourceAnswered(before, minBase, maxBase, sources, k);
      StoredKeeps(before, after, minBase, maxBase, sources[n].id, EndOfSource(sources, n), targetIds, weights, x,
                  multiset(AsTargets(sources[k].(id := x))));
    }
  }

  lemma IndexedLater(rep: Rep, minBase: nat, maxBase: nat, end: nat, end': nat)
    requires Indexed(rep, minBase, maxBase, end) && end <= end'
    ensures Indexed(rep, minBase, maxBase, end')
  {
  }

  lemma Unanswered(rep: Rep, minBase: nat, s: nat)
    requires rep.vector != [] && !(0 <= s - minBase < |rep.vector|)
    ensures forall want :: !Answers(rep, minBase, s, want)
  {
  }

  lemma ReaderAnswers(rep: Rep, minBase: nat, s: nat, d: nat, all: seq<Target>)
    requires ValidBuffers(rep) && d < |rep.sequences| && all == ReadAs(rep, d, s)
    requires Locate(rep.items, rep.vector, minBase, s).Some? ==> Locate(rep.items, rep.vector, minBase, s) == Some(d)
    ensures forall want :: Answers(rep, minBase, s, want) ==> multiset(all) == want
  {
    hide ReadAs, ValidBuffers, Locate;
  }

  /** A sequence without weights in the buffer reads as one with weights of 1. */
  lemma ReaderDelivers(rep: Rep, d: nat, selfId: nat, weights: Option<seq<real>>)
    requires ValidBuffers(rep) && d < |rep.sequences|
    requires InBuffers(|rep.targetIds|, |rep.weights|, rep.sequences[d])
    requires var begin, end := rep.sequences[d].startOffset, rep.sequences[d].startOffset + rep.sequences[d].length;
             weights == if |rep.weights| <= begin then None else Some(rep.weights[begin..end])
    ensures var begin, end := rep.sequences[d].startOffset, rep.sequences[d].startOffset + rep.sequences[d].length;
            (weights.Some? ==> |weights.value| == end - begin) &&
            Zipped(rep.targetIds[begin..end], weights.GetOr([]), selfId) == ReadAs(rep, d, selfId)
  {
    hide Resolve;
    var begin, end := rep.sequences[d].startOffset, rep.sequences[d].startOffset + rep.sequences[d].length;
    var ids, ws := rep.targetIds[begin..end], weights.GetOr([]);
    assert weights.Some? ==> |ws| == end - begin;
    forall i | 0 <= i < end - begin
      ensures Zipped(ids, ws, selfId)[i] == ReadAs(rep, d, selfId)[i]
    {
      assert ids[i] == rep.targetIds[begin + i];
      assert weights.Some? ==> ws[i] == rep.weights[begin + i];
    }
  }

  /** All base ids below the given one are answered with their targets. */
  ghost predicate AnswersBelow(rep: Rep, minBase: nat, all: seq<Cursor>, end: nat)
  {
    forall s: nat :: minBase <= s < end && TargetsOf(all, s) != multiset{} ==> Answers(rep, minBase, s, TargetsOf(all, s))
  }

  lemma FirstBase(ps: seq<Parent>, minBase: nat, maxBase: nat)
    requires ValidParents(ps) && AllWithin(ps, minBase, maxBase) && AllNonEmpty(ps) && (ps == [] ==> minBase == NO_IDENTIFIER)
    ensures minBase == NO_IDENTIFIER || (minBase <= maxBase && minBase < NO_IDENTIFIER)
    ensures ps != [] ==> minBase < NO_IDENTIFIER
  {
    if ps != [] {
      assert BasesWithin(ps[0], minBase, maxBase);
      if ps[0].bases.Some? {
        assert ps[0].bases.value[0].low <= ps[0].bases.value[0].high;
      }
    }
  }

  lemma IndexedBuffers(rep: Rep, minBase: nat, maxBase: nat, end: nat)
    requires Indexed(rep, minBase, maxBase, end)
    ensures ValidBuffers(rep)
  {
  }

  lemma NothingIndexed(minBase: nat, maxBase: nat)
    ensures Indexed(Rep([], [], [], [], []), minBase, maxBase, minBase)
  {
  }

  lemma SameFromNext(all: seq<Cursor>, q: seq<Cursor>, r: seq<Cursor>, startId: nat, nextStartId: nat)
    requires SameFrom(all, q, startId) && SameFrom(q, r, nextStartId) && startId <= nextStartId
    ensures SameFrom(all, r, nextStartId)
  {
    hide TargetsOf;
  }

  lemma NextWithin(queue: seq<Cursor>, nextStartId: nat, maxBase: nat)
    requires Below(queue, maxBase) && (nextStartId == NO_IDENTIFIER || InCursors(queue, nextStartId))
    ensures nextStartId == NO_IDENTIFIER || nextStartId <= maxBase
  {
  }

  /** Within [minBase, maxBase]: outside no cursor covers anything. */
  ghost predicate Spanned(cs: seq<Cursor>, minBase: nat, maxBase: nat)
  {
    && Below(cs, maxBase)
    && (forall i :: 0 <= i < |cs| ==> ValidCursor(cs[i]))
    && (forall i, j :: 0 <= i < |cs| && 0 <= j < |cs[i].rest| ==> minBase <= cs[i].rest[j].low)
  }

  lemma OutsideVacant(cs: seq<Cursor>, minBase: nat, maxBase: nat, s: nat)
    requires Spanned(cs, minBase, maxBase) && (s < minBase || s > maxBase || s >= NO_IDENTIFIER)
    ensures TargetsOf(cs, s) == multiset{}
  {
    hide WeightAt, TargetsOf;
    forall i | 0 <= i < |cs|
      ensures WeightAt(cs[i].rest, s) == None
    {
      if s < minBase {
        WeightBefore(cs[i].rest, s);
      } else {
        assert ValidCursor(cs[i]);
        WeightBehind(cs[i].rest, s);
      }
    }
    TargetsVacant(cs, s);
  }

  lemma SegmentAnswered(before: Rep, after: Rep, minBase: nat, maxBase: nat, all: seq<Cursor>, queue: seq<Cursor>, k: nat,
                        startId: nat, nextStartId: nat, targetIds: seq<nat>, weights: seq<real>)
    requires ValidBuffers(before) && Spanned(all, minBase, maxBase)
    requires SequenceStored(before, after, minBase, maxBase, startId, nextStartId, targetIds, weights)
    requires weights == [] || |weights| == |targetIds|
    requires SameFrom(all, queue, startId) && Queue(queue) && k <= |queue| && Uniform(queue[..k], startId, nextStartId)
    requires forall i :: k <= i < |queue| ==> nextStartId <= queue[i].rest[0].low
    requires forall s: nat :: Zipped(targetIds, weights, s) == CurrentTargets(queue[..k], s)
    requires AnswersBelow(before, minBase, all, startId)
    ensures AnswersBelow(after, minBase, all, nextStartId)
  {
    hide TargetsOf, Answers, SequenceStored, Uniform, ValidBuffers, WeightAt, Zipped, CurrentTargets;
    forall s: nat | minBase <= s < nextStartId && TargetsOf(all, s) != multiset{}
      ensures Answers(after, minBase, s, TargetsOf(all, s))
    {
      if s < startId {
        StoredKeeps(before, after, minBase, maxBase, startId, nextStartId, targetIds, weights, s, TargetsOf(all, s));
      } else {
        if s > maxBase {
          OutsideVacant(all, minBase, maxBase, s);
        }
        SegmentTargets(queue, k, startId, nextStartId, s);
        assert TargetsOf(all, s) == TargetsOf(queue, s);
        assert Zipped(targetIds, weights, s) == CurrentTargets(queue[..k], s);
        StoredAnswers(before, after, minBase, maxBase, startId, nextStartId, targetIds, weights, s);
      }
    }
  }

  lemma AllAnswered(rep: Rep, ps: seq<Parent>, all: seq<Cursor>, minBase: nat, maxBase: nat)
    requires Spanned(all, minBase, maxBase) && AnswersBelow(rep, minBase, all, NO_IDENTIFIER)
    requires forall s: nat :: TargetsOf(all, s) == TargetsAt(ps, s)
    ensures forall s: nat :: TargetsAt(ps, s) != multiset{} ==> Answers(rep, minBase, s, TargetsAt(ps, s))
  {
    hide TargetsOf, TargetsAt, Answers, Spanned;
    forall s: nat | TargetsAt(ps, s) != multiset{}
      ensures Answers(rep, minBase, s, TargetsAt(ps, s))
    {
      assert TargetsOf(all, s) == TargetsAt(ps, s);
      if s < minBase || s >= NO_IDENTIFIER {
        OutsideVacant(all, minBase, maxBase, s);
      }
    }
  }

  /** One cursor per parent with a set of its own; all that are their own base share one. */
  method CollectTuples(ps: seq<Parent>, ghost minBase: nat, ghost maxBase: nat) returns (tuples: seq<Cursor>)
    requires ValidParents(ps) && AllNonEmpty(ps) && AllWithin(ps, minBase, maxBase)
    ensures Spanned(tuples, minBase, maxBase)
    ensures forall s: nat :: TargetsOf(tuples, s) == TargetsAt(ps, s)
  {
    hide ValidParents, AllWithin, Spanned, ValidParts, TargetsOf, TargetsAt, SelfWeights, Collected, Zip, PushWeighted, WSorted, TargetOf, ParentTarget;
    tuples := [];
    var baseTargets := new WeightedSet();
    NothingSpanned(minBase, maxBase);
    CollectNothing();
    for i := 0 to |ps|
      invariant fresh(baseTargets) && baseTargets.Valid()
      invariant SelfWeights(baseTargets.Weighted(), minBase, maxBase)
      invariant i < |ps| && baseTargets.ranges != [] ==> baseTargets.ranges[|baseTargets.ranges| - 1].high < ps[i].id
      invariant Spanned(tuples, minBase, maxBase)
      invariant Collected(ps[..i], tuples, baseTargets.Weighted())
    {
      ParentFacts(ps, i, minBase, maxBase);
      assert ps[..i + 1][..i] == ps[..i] && ps[..i + 1][i] == ps[i];
      match ps[i].bases {
        case None =>
          ghost var was := baseTargets.Weighted();
          WeightedSorted(baseTargets.ranges, baseTargets.siz, baseTargets.weights);
          baseTargets.PushSorted(ps[i].id, ps[i].id, 1.0);
          SelfPushed(was, ps[i].id, minBase, maxBase);
          CollectSelf(ps[..i + 1], tuples, was, ps[i].id);
        case Some(ws) =>
          tuples := tuples + [Cursor(ws, ps[i].id)];
          CollectSet(ps[..i + 1], tuples[..|tuples| - 1], baseTargets.Weighted(), ws, ps[i].id);
          assert tuples[..|tuples| - 1] + [Cursor(ws, ps[i].id)] == tuples;
          SpannedWith(tuples[..|tuples| - 1], Cursor(ws, ps[i].id), minBase, maxBase);
      }
    }
    assert ps[..|ps|] == ps;
    SizeZero(baseTargets.ranges, baseTargets.siz, baseTargets.weights);
    CollectEnd(ps, tuples, baseTargets.Weighted());
    if baseTargets.siz != 0 {
      WeightedSorted(baseTargets.ranges, baseTargets.siz, baseTargets.weights);
      SelfWithin(baseTargets.Weighted(), minBase, maxBase);
      SpannedWith(tuples, Cursor(baseTargets.Weighted(), NO_IDENTIFIER), minBase, maxBase);
      tuples := tuples + [Cursor(baseTargets.Weighted(), NO_IDENTIFIER)];
    }
  }

  /** Runs of weight 1 within the bounds. */
  ghost predicate SelfWeights(ws: seq<WRange>, minBase: nat, maxBase: nat)
  {
    && (forall j :: 0 <= j < |ws| ==> minBase <= ws[j].low && ws[j].high <= maxBase)
    && (forall s :: WeightAt(ws, s) == None || WeightAt(ws, s) == Some(1.0))
  }

  /** The parents so far are what the cursors and the shared set of self targets contribute. */
  ghost predicate Collected(ps: seq<Parent>, tuples: seq<Cursor>, self: seq<WRange>)
  {
    forall s: nat :: TargetsAt(ps, s) == TargetsOf(tuples, s) + TargetOf(Cursor(self, NO_IDENTIFIER), s)
  }

  lemma NothingSpanned(minBase: nat, maxBase: nat)
    ensures Spanned([], minBase, maxBase) && SelfWeights([], minBase, maxBase)
  {
  }

  lemma SelfWithin(ws: seq<WRange>, minBase: nat, maxBase: nat)
    requires SelfWeights(ws, minBase, maxBase)
    ensures forall j :: 0 <= j < |ws| ==> minBase <= ws[j].low && ws[j].high <= maxBase
  {
  }

  lemma CollectNothing()
    ensures Collected([], [], [])
  {
  }

  lemma ParentFacts(ps: seq<Parent>, i: nat, minBase: nat, maxBase: nat)
    requires ValidParents(ps) && AllWithin(ps, minBase, maxBase) && i < |ps|
    ensures BasesWithin(ps[i], minBase, maxBase) && ps[i].id < NO_IDENTIFIER && WSorted(ps[i].bases.GetOr([]))
    ensures i + 1 < |ps| ==> ps[i].id < ps[i + 1].id
  {
  }

  lemma SelfPushed(ws: seq<WRange>, id: nat, minBase: nat, maxBase: nat)
    requires WSorted(ws) && SelfWeights(ws, minBase, maxBase) && minBase <= id <= maxBase && id < NO_IDENTIFIER
    requires ws != [] ==> ws[|ws| - 1].high < id
    ensures SelfWeights(PushWeighted(ws, id, id, 1.0), minBase, maxBase)
  {
    hide WeightAt;
    PushMeaning(ws, id, id, 1.0);
  }

  lemma CollectSelf(ps: seq<Parent>, tuples: seq<Cursor>, self: seq<WRange>, id: nat)
    requires ps != [] && ps[|ps| - 1] == Parent(id, None) && id < NO_IDENTIFIER
    requires WSorted(self) && (self != [] ==> self[|self| - 1].high < id)
    requires Collected(ps[..|ps| - 1], tuples, self)
    ensures Collected(ps, tuples, PushWeighted(self, id, id, 1.0))
  {
    hide WeightAt, TargetsOf, PushWeighted;
    PushMeaning(self, id, id, 1.0);
    WeightBehind(self, id);
    forall s: nat
      ensures TargetsAt(ps, s) == TargetsOf(tuples, s) + TargetOf(Cursor(PushWeighted(self, id, id, 1.0), NO_IDENTIFIER), s)
    {
      assert TargetsAt(ps[..|ps| - 1], s) == TargetsOf(tuples, s) + TargetOf(Cursor(self, NO_IDENTIFIER), s);
    }
  }

  lemma CollectSet(ps: seq<Parent>, tuples: seq<Cursor>, self: seq<WRange>, ws: seq<WRange>, id: nat)
    requires ps != [] && ps[|ps| - 1] == Parent(id, Some(ws)) && id < NO_IDENTIFIER
    requires Collected(ps[..|ps| - 1], tuples, self)
    ensures Collected(ps, tuples + [Cursor(ws, id)], self)
  {
    hide WeightAt, TargetsOf;
    forall s: nat
      ensures TargetsAt(ps, s) == TargetsOf(tuples + [Cursor(ws, id)], s) + TargetOf(Cursor(self, NO_IDENTIFIER), s)
    {
      TargetsConcat(tuples, [Cursor(ws, id)], s);
      TargetsOne(Cursor(ws, id), s);
      assert TargetsAt(ps[..|ps| - 1], s) == TargetsOf(tuples, s) + TargetOf(Cursor(self, NO_IDENTIFIER), s);
    }
  }

  lemma CollectEnd(ps: seq<Parent>, tuples: seq<Cursor>, self: seq<WRange>)
    requires Collected(ps, tuples, self)
    ensures forall s: nat :: TargetsOf(tuples + [Cursor(self, NO_IDENTIFIER)], s) == TargetsAt(ps, s)
    ensures self == [] ==> forall s: nat :: TargetsOf(tuples, s) == TargetsAt(ps, s)
  {
    hide TargetsOf, TargetsAt;
    forall s: nat
      ensures TargetsOf(tuples + [Cursor(self, NO_IDENTIFIER)], s) == TargetsAt(ps, s)
      ensures self == [] ==> TargetsOf(tuples, s) == TargetsAt(ps, s)
    {
      TargetsConcat(tuples, [Cursor(self, NO_IDENTIFIER)], s);
      TargetsOne(Cursor(self, NO_IDENTIFIER), s);
      if self == [] {
        NothingLeft(Cursor(self, NO_IDENTIFIER), s);
      }
    }
  }

  lemma SpannedWith(cs: seq<Cursor>, c: Cursor, minBase: nat, maxBase: nat)
    requires Spanned(cs, minBase, maxBase) && ValidCursor(c)
    requires forall j :: 0 <= j < |c.rest| ==> minBase <= c.rest[j].low && c.rest[j].high <= maxBase
    ensures Spanned(cs + [c], minBase, maxBase)
  {
    hide WSorted;
  }

  lemma SizeZero(rs: seq<Range>, siz: int, weights: map<nat, real>)
    requires ValidParts(rs, siz, weights)
    ensures siz == 0 <==> rs == []
  {
    CountPositive(rs);
  }

  lemma {:induction false} CountPositive(rs: seq<Range>)
    requires Sorted(rs)
    ensures Count(rs) >= 0 && (Count(rs) == 0 <==> rs == [])
  {
    if rs != [] {
      CountPositive(rs[..|rs| - 1]);
    }
  }

  /** The queue of all cursors in the order of their first ranges. */
  method EnqueueAll(tuples: seq<Cursor>, ghost minBase: nat, ghost maxBase: nat) returns (queue: seq<Cursor>)
    requires Spanned(tuples, minBase, maxBase)
    ensures Queue(queue) && Reaching(queue, minBase) && Below(queue, maxBase)
    ensures SameFrom(tuples, queue, minBase)
  {
    queue := [];
    for i := 0 to |tuples|
      invariant Queue(queue) && Spanned(queue, minBase, maxBase)
      invariant forall s: nat :: TargetsOf(queue, s) == TargetsOf(tuples[..i], s)
    {
      hide TargetsOf, WSorted;
      ghost var was := queue;
      ghost var k;
      queue, k := Enqueue(queue, tuples[i]);
      assert tuples[..i + 1] == tuples[..i] + [tuples[i]];
      forall s: nat
        ensures TargetsOf(queue, s) == TargetsOf(tuples[..i + 1], s)
      {
        EnqueueTargets(was, tuples[i], k, s);
        TargetsConcat(tuples[..i], [tuples[i]], s);
        TargetsOne(tuples[i], s);
      }
    }
    assert tuples[..|tuples|] == tuples;
  }

  /** The parents with one entered or replaced, in ascending order of the ids. */
  method PutParent(ps: seq<Parent>, p: Parent) returns (r: seq<Parent>)
    requires ValidParents(ps) && p.id < NO_IDENTIFIER && WSorted(p.bases.GetOr([]))
    ensures ValidParents(r) && p in r
    ensures forall q: Parent :: q.id != p.id ==> (q in r <==> q in ps)
    ensures forall q: Parent :: q in r ==> q == p || q in ps
  {
    var k: nat := 0;
    while k < |ps| && ps[k].id < p.id
      invariant k <= |ps| && forall i :: 0 <= i < k ==> ps[i].id < p.id
    {
      k := k + 1;
    }
    var replaced := if k < |ps| && ps[k].id == p.id then 1 else 0;
    r := ps[..k] + [p] + ps[k + replaced..];
    PutValid(ps, k, replaced, p);
    PutMembers(ps, k, replaced, p);
  }

  lemma PutValid(ps: seq<Parent>, k: nat, replaced: nat, p: Parent)
    requires ValidParents(ps) && p.id < NO_IDENTIFIER && WSorted(p.bases.GetOr([]))
    requires k + replaced <= |ps| && replaced == if k < |ps| && ps[k].id == p.id then 1 else 0
    requires (forall i :: 0 <= i < k ==> ps[i].id < p.id) && (k < |ps| ==> p.id <= ps[k].id)
    ensures ValidParents(ps[..k] + [p] + ps[k + replaced..])
  {
    hide WSorted;
    var r := ps[..k] + [p] + ps[k + replaced..];
    assert forall i :: k < i < |r| ==> r[i] == ps[i + replaced - 1];
  }

  lemma PutMembers(ps: seq<Parent>, k: nat, replaced: nat, p: Parent)
    requires k + replaced <= |ps| && replaced <= 1 && (replaced == 1 ==> ps[k].id == p.id)
    ensures p in ps[..k] + [p] + ps[k + replaced..]
    ensures forall q: Parent :: q.id != p.id ==> (q in ps[..k] + [p] + ps[k + replaced..] <==> q in ps)
    ensures forall q: Parent :: q in ps[..k] + [p] + ps[k + replaced..] ==> q == p || q in ps
  {
    var a, m, b := ps[..k], ps[k..k + replaced], ps[k + replaced..];
    assert ps == a + m + b;
    forall q: Parent
      ensures q in a + [p] + b <==> q in a || q == p || q in b
      ensures q in ps <==> q in a || q in m || q in b
    {
    }
  }

  /** Sorted bases lie between the first and the last. */
  lemma WithinEnds(p: Parent, minBase: nat, maxBase: nat)
    requires WSorted(p.bases.GetOr([]))
    requires p.bases == None ==> minBase <= p.id <= maxBase
    requires p.bases.Some? && p.bases.value != [] ==>
      minBase <= p.bases.value[0].low && p.bases.value[|p.bases.value| - 1].high <= maxBase
    ensures BasesWithin(p, minBase, maxBase)
  {
  }

  lemma PutWithin(ps: seq<Parent>, r: seq<Parent>, p: Parent, min: nat, max: nat, min': nat, max': nat)
    requires AllWithin(ps, min, max) && min' <= min && max <= max' && BasesWithin(p, min', max')
    requires forall q: Parent :: q in r ==> q == p || q in ps
    ensures AllWithin(r, min', max')
  {
    forall i | 0 <= i < |r|
      ensures BasesWithin(r[i], min', max')
    {
      assert r[i] in r;
      if r[i] != p {
        assert BasesWithin(r[i], min, max);
      }
    }
  }

  /** Maps the ids of a segment behind all others to sequence d, and no id before it differently. */
  method IndexSegment(items0: seq<SourceItem>, vector0: seq<nat>, minBase: nat, maxBase: nat,
                      startId: nat, nextStartId: nat, d: nat)
      returns (items: seq<SourceItem>, vector: seq<nat>)
    requires minBase <= startId <= maxBase && startId < nextStartId
    requires IndexedItems(items0, vector0, minBase, maxBase, startId, d)
    ensures IndexedItems(items, vector, minBase, maxBase, nextStartId, d + 1) && (items != [] || vector != [])
    ensures forall x: nat :: minBase <= x < startId && Locate(items0, vector0, minBase, x).Some? ==>
      Locate(items, vector, minBase, x) == Locate(items0, vector0, minBase, x)
    ensures forall x: nat :: startId <= x < nextStartId && x <= maxBase ==> Locate(items, vector, minBase, x) == Some(d)
    ensures vector != [] <==> vector0 != [] || (|items0| + 1) * 8 > (maxBase + 1 - minBase) * 4
  {
    hide Locate, Ascending, Fill;
    items, vector := items0, vector0;
    if vector == [] {
      // update "map"
      if items == [] || items[|items| - 1].distrMapIndex != d {
        LocateAppendedAll(items, SourceItem(startId, d), minBase);
        items := items + [SourceItem(startId, d)];
        if |items| * 8 > (maxBase + 1 - minBase) * 4 {
          // convert "map" to vector
          vector := ConvertToVector(items, minBase, maxBase);
          items := [];
          NothingAscends();
        }
      }
    } else {
      // update vector
      var fillEnd := Min(maxBase + 1, nextStartId);
      LocateFilled(vector, minBase, startId - minBase, fillEnd - minBase, d);
      vector := Fill(vector, startId - minBase, fillEnd - minBase, d);
    }
  }

  function Min(x: nat, y: nat): nat
  {
    if x <= y then x else y
  }

  function Max(x: nat, y: nat): nat
  {
    if x >= y then x else y
  }

  lemma BuffersBound(rep: Rep)
    requires ValidBuffers(rep)
    ensures |rep.weights| <= |rep.targetIds|
  {
  }

  lemma BuffersOnly(a: Rep, b: Rep)
    requires ValidBuffers(a) && a.targetIds == b.targetIds && a.weights == b.weights && a.sequences == b.sequences
    ensures ValidBuffers(b)
  {
  }

  lemma NothingAscends()
    ensures Ascending([])
  {
  }

  lemma LocateAppendedAll(items: seq<SourceItem>, item: SourceItem, minBase: nat)
    requires Ascending(items) && forall i :: 0 <= i < |items| ==> items[i].sourceRangeBegin < item.sourceRangeBegin
    ensures Ascending(items + [item])
    ensures forall x: nat :: x < item.sourceRangeBegin ==>
      Locate(items + [item], [], minBase, x) == Locate(items, [], minBase, x)
    ensures forall x: nat :: x >= item.sourceRangeBegin ==> Locate(items + [item], [], minBase, x) == Some(item.distrMapIndex)
  {
    forall x: nat
      ensures x < item.sourceRangeBegin ==> Locate(items + [item], [], minBase, x) == Locate(items, [], minBase, x)
      ensures x >= item.sourceRangeBegin ==> Locate(items + [item], [], minBase, x) == Some(item.distrMapIndex)
    {
      LocateAppended(items, item, minBase, x);
    }
  }

  lemma LocateFilled(v: seq<nat>, minBase: nat, from: nat, to: nat, d: nat)
    requires from <= to <= |v|
    ensures forall x: nat :: minBase <= x < minBase + from ==>
      Locate([], Fill(v, from, to, d), minBase, x) == Locate([], v, minBase, x)
    ensures forall x: nat :: minBase + from <= x < minBase + to ==> Locate([], Fill(v, from, to, d), minBase, x) == Some(d)
  {
  }
}
