/**
 * The sweep line of AggregationMap::buildBaseToParentMap: cursors over the weighted ranges of all
 * parents, ordered by the begin of their current range.
 */
module Sweeps {
  import opened Ids
  import opened Wrappers
  import opened WeightedRanges
  import opened TargetIndexes

  /** A parent's ranges that are not swept yet, the current one first. */
  datatype Cursor = Cursor(rest: seq<WRange>, target: nat)

  /** The targets a cursor contributes to a source id: one, if some range covers the id. */
  function TargetOf(c: Cursor, s: nat): multiset<Target>
  {
    match WeightAt(c.rest, s)
    case None => multiset{}
    case Some(w) => multiset{Target(Resolve(c.target, s), w)}
  }

  function TargetsOf(cs: seq<Cursor>, s: nat): multiset<Target>
  {
    if cs == [] then multiset{} else TargetOf(cs[0], s) + TargetsOf(cs[1..], s)
  }

  ghost predicate ValidCursor(c: Cursor)
  {
    c.rest != [] && WSorted(c.rest) && c.target <= NO_IDENTIFIER
  }

  /** Valid cursors in the order of their current ranges. */
  ghost predicate Queue(cs: seq<Cursor>)
  {
    && (forall i :: 0 <= i < |cs| ==> ValidCursor(cs[i]))
    && (forall i, j :: 0 <= i <= j < |cs| ==> cs[i].rest[0].low <= cs[j].rest[0].low)
  }

  /** No current range ends before the given id. */
  ghost predicate Reaching(cs: seq<Cursor>, id: nat)
  {
    forall i :: 0 <= i < |cs| ==> cs[i].rest != [] && cs[i].rest[0].high >= id
  }

  /** All ids of the cursors are at most maxBase. */
  ghost predicate Below(cs: seq<Cursor>, maxBase: nat)
  {
    forall i, j :: 0 <= i < |cs| && 0 <= j < |cs[i].rest| ==> cs[i].rest[j].high <= maxBase
  }

  /** The cursors contribute the same to every source id from the given one on. */
  ghost predicate SameFrom(a: seq<Cursor>, b: seq<Cursor>, id: nat)
  {
    forall s: nat :: s >= id ==> TargetsOf(a, s) == TargetsOf(b, s)
  }

  lemma {:induction false} TargetsConcat(a: seq<Cursor>, b: seq<Cursor>, s: nat)
    ensures TargetsOf(a + b, s) == TargetsOf(a, s) + TargetsOf(b, s)
  {
    if a == [] {
      assert a + b == b;
    } else {
      assert (a + b)[1..] == a[1..] + b;
      TargetsConcat(a[1..], b, s);
    }
  }

  lemma TargetsOne(c: Cursor, s: nat)
    ensures TargetsOf([c], s) == TargetOf(c, s)
  {
    assert [c][1..] == [];
  }

  lemma {:induction false} TargetsVacant(cs: seq<Cursor>, s: nat)
    requires Vacant(cs, s)
    ensures TargetsOf(cs, s) == multiset{}
  {
    if cs != [] {
      assert Vacant(cs[1..], s);
      TargetsVacant(cs[1..], s);
    }
  }

  // ------------------------------------------------------------------------------------------
  // The queue
  // ------------------------------------------------------------------------------------------

  /** multimap::insert: behind all entries with the same or a smaller key. */
  method Enqueue(cs: seq<Cursor>, c: Cursor) returns (r: seq<Cursor>, ghost k: nat)
    requires Queue(cs) && ValidCursor(c)
    ensures Queue(r) && k <= |cs| && r == cs[..k] + [c] + cs[k..]
    ensures forall i :: 0 <= i < |cs| ==> (i < k <==> cs[i].rest[0].low <= c.rest[0].low)
  {
    hide WSorted;
    var pos: nat := |cs|;
    while pos > 0 && c.rest[0].low < cs[pos - 1].rest[0].low
      invariant 0 <= pos <= |cs| && (pos < |cs| ==> c.rest[0].low < cs[pos].rest[0].low)
    {
      pos := pos - 1;
    }
    k := pos;
    r := cs[..pos] + [c] + cs[pos..];
    EnqueuedQueue(cs, c, k);
  }

  lemma EnqueuedQueue(cs: seq<Cursor>, c: Cursor, k: nat)
    requires Queue(cs) && ValidCursor(c) && k <= |cs|
    requires k > 0 ==> cs[k - 1].rest[0].low <= c.rest[0].low
    requires k < |cs| ==> c.rest[0].low < cs[k].rest[0].low
    ensures Queue(cs[..k] + [c] + cs[k..])
    ensures forall i :: 0 <= i < |cs| ==> (i < k <==> cs[i].rest[0].low <= c.rest[0].low)
  {
    hide WSorted;
  }

  lemma EnqueueTargets(cs: seq<Cursor>, c: Cursor, k: nat, s: nat)
    requires k <= |cs|
    ensures TargetsOf(cs[..k] + [c] + cs[k..], s) == TargetsOf(cs, s) + TargetOf(c, s)
  {
    hide TargetsOf, TargetOf;
    var a, b := cs[..k], cs[k..];
    assert a + b == cs;
    TargetsConcat(a + [c], b, s);
    TargetsConcat(a, [c], s);
    TargetsOne(c, s);
    TargetsConcat(a, b, s);
  }

  lemma DequeueTargets(cs: seq<Cursor>, k: nat, s: nat)
    requires k < |cs|
    ensures TargetsOf(cs, s) == TargetsOf(cs[..k] + cs[k + 1..], s) + TargetOf(cs[k], s)
  {
    hide TargetsOf, TargetOf;
    var others := cs[..k] + cs[k + 1..];
    assert others[..k] == cs[..k] && others[k..] == cs[k + 1..];
    assert cs == others[..k] + [cs[k]] + others[k..];
    EnqueueTargets(others, cs[k], k, s);
  }

  // ------------------------------------------------------------------------------------------
  // One segment: ids from startId up to the next start have the same targets or none
  // ------------------------------------------------------------------------------------------

  /** The current range of every cursor decides the weight at s ... */
  ghost predicate Full(cs: seq<Cursor>, s: nat)
  {
    forall i :: 0 <= i < |cs| ==> cs[i].rest != [] && WeightAt(cs[i].rest, s) == Some(cs[i].rest[0].weight)
  }

  /** ... or no cursor covers s. */
  ghost predicate Vacant(cs: seq<Cursor>, s: nat)
  {
    forall i :: 0 <= i < |cs| ==> WeightAt(cs[i].rest, s) == None
  }

  ghost predicate Uniform(cs: seq<Cursor>, from: nat, to: nat)
  {
    forall s: nat :: from <= s < to ==> Full(cs, s) || Vacant(cs, s)
  }

  /** The targets and weights of the current ranges. */
  function CurrentTargets(cs: seq<Cursor>, s: nat): (ts: seq<Target>)
    requires forall i :: 0 <= i < |cs| ==> cs[i].rest != []
    ensures |ts| == |cs|
  {
    seq(|cs|, i requires 0 <= i < |cs| => Target(Resolve(cs[i].target, s), cs[i].rest[0].weight))
  }

  lemma {:induction false} TargetsFull(cs: seq<Cursor>, s: nat)
    requires Full(cs, s)
    ensures TargetsOf(cs, s) == multiset(CurrentTargets(cs, s))
  {
    if cs == [] {
      assert CurrentTargets(cs, s) == [];
    } else {
      assert Full(cs[1..], s);
      TargetsFull(cs[1..], s);
      assert CurrentTargets(cs, s) == [CurrentTargets(cs, s)[0]] + CurrentTargets(cs[1..], s);
    }
  }

  /** The cursors whose current range has begun decide all ids of the segment. */
  lemma SegmentTargets(cs: seq<Cursor>, k: nat, from: nat, to: nat, s: nat)
    requires Queue(cs) && k <= |cs| && from <= s < to && Uniform(cs[..k], from, to)
    requires forall i :: k <= i < |cs| ==> to <= cs[i].rest[0].low
    ensures TargetsOf(cs, s) == multiset{} || TargetsOf(cs, s) == multiset(CurrentTargets(cs[..k], s))
  {
    hide WeightAt;
    assert cs == cs[..k] + cs[k..];
    TargetsConcat(cs[..k], cs[k..], s);
    forall i | 0 <= i < |cs| - k
      ensures WeightAt(cs[k..][i].rest, s) == None
    {
      NotBegun(cs[k + i], s);
    }
    TargetsVacant(cs[k..], s);
    if Full(cs[..k], s) {
      TargetsFull(cs[..k], s);
    } else {
      TargetsVacant(cs[..k], s);
    }
  }

  lemma NotBegun(c: Cursor, s: nat)
    requires ValidCursor(c) && s < c.rest[0].low
    ensures WeightAt(c.rest, s) == None
  {
    forall i | 0 <= i < |c.rest|
      ensures s < c.rest[i].low
    {
      assert i > 0 ==> c.rest[0].high < c.rest[i].low;
    }
    WeightBefore(c.rest, s);
  }

  lemma Begun(c: Cursor, s: nat)
    requires ValidCursor(c) && c.rest[0].low <= s <= c.rest[0].high
    ensures WeightAt(c.rest, s) == Some(c.rest[0].weight)
  {
  }

  /** Between the end of the current range and the begin of the next one nothing is covered. */
  lemma InPause(c: Cursor, s: nat)
    requires ValidCursor(c) && c.rest[0].high < s && (|c.rest| > 1 ==> s < c.rest[1].low)
    ensures WeightAt(c.rest, s) == None
  {
    if |c.rest| > 1 {
      WSortedTail(c.rest);
      NotBegun(Cursor(c.rest[1..], 0), s);
    } else {
      assert c.rest[1..] == [];
    }
  }

  /** All runs that begin before the end of the segment have the same weight. */
  lemma OneWeight(c: Cursor, to: nat, s: nat)
    requires ValidCursor(c) && s < to
    requires forall j :: 0 <= j < |c.rest| && c.rest[j].low < to ==> c.rest[j].weight == c.rest[0].weight
    ensures WeightAt(c.rest, s) == None || WeightAt(c.rest, s) == Some(c.rest[0].weight)
  {
    if WeightAt(c.rest, s).Some? {
      var j := WeightWitness(c.rest, s);
    }
  }

  /** Several targets, not all ending together: up to the first end nothing changes. */
  lemma UniformToEnd(cs: seq<Cursor>, from: nat, to: nat)
    requires forall i :: 0 <= i < |cs| ==> ValidCursor(cs[i]) && cs[i].rest[0].low <= from && to <= cs[i].rest[0].high + 1
    ensures Uniform(cs, from, to)
  {
    hide WeightAt;
    forall s: nat | from <= s < to
      ensures Full(cs, s)
    {
      forall i | 0 <= i < |cs|
        ensures WeightAt(cs[i].rest, s) == Some(cs[i].rest[0].weight)
      {
        Begun(cs[i], s);
      }
    }
  }

  /** All targets end together: nothing is covered from there to the next begin. */
  lemma UniformToPause(cs: seq<Cursor>, from: nat, end: nat, to: nat)
    requires forall i :: 0 <= i < |cs| ==> ValidCursor(cs[i]) && cs[i].rest[0].low <= from && cs[i].rest[0].high + 1 == end
    requires forall i :: 0 <= i < |cs| && |cs[i].rest| > 1 ==> to <= cs[i].rest[1].low
    ensures Uniform(cs, from, to)
  {
    hide WeightAt;
    forall s: nat | from <= s < to
      ensures Full(cs, s) || Vacant(cs, s)
    {
      if s < end {
        forall i | 0 <= i < |cs|
          ensures WeightAt(cs[i].rest, s) == Some(cs[i].rest[0].weight)
        {
          Begun(cs[i], s);
        }
      } else {
        forall i | 0 <= i < |cs|
          ensures WeightAt(cs[i].rest, s) == None
        {
          InPause(cs[i], s);
        }
      }
    }
  }

  /** One target: it may pause and go on with the same weight. */
  lemma UniformAlone(cs: seq<Cursor>, from: nat, to: nat)
    requires |cs| <= 1
    requires forall i :: 0 <= i < |cs| ==> ValidCursor(cs[i])
    requires |cs| == 1 ==> forall j :: 0 <= j < |cs[0].rest| && cs[0].rest[j].low < to ==>
      cs[0].rest[j].weight == cs[0].rest[0].weight
    ensures Uniform(cs, from, to)
  {
    hide WeightAt;
    forall s: nat | from <= s < to
      ensures Full(cs, s) || Vacant(cs, s)
    {
      if |cs| == 1 {
        OneWeight(cs[0], to, s);
      }
    }
  }

  /**
   * The cursors active at startId, with the first and last end of their ranges and the begin of
   * the first range behind; weights are only listed when one differs from 1.
   */
  method FindActive(cs: seq<Cursor>, startId: nat)
      returns (k: nat, firstEnd: nat, lastEnd: nat, firstStart: nat, targetIds: seq<nat>, targetWeights: seq<real>)
    requires Queue(cs) && Reaching(cs, startId) && startId < NO_IDENTIFIER
    ensures k <= |cs| && (forall i :: 0 <= i < |cs| ==> (i < k <==> cs[i].rest[0].low <= startId))
    ensures forall i :: 0 <= i < k ==> firstEnd <= cs[i].rest[0].high + 1 <= lastEnd
    ensures startId < firstEnd <= NO_IDENTIFIER
    ensures k > 0 ==> EndsAt(cs[..k], lastEnd)
    ensures firstStart == if k < |cs| then cs[k].rest[0].low else NO_IDENTIFIER
    ensures targetWeights == [] || |targetWeights| == |targetIds|
    ensures forall s: nat :: Zipped(targetIds, targetWeights, s) == CurrentTargets(cs[..k], s)
  {
    hide WSorted, Zipped, CurrentTargets, Listed;
    forall i | 0 <= i < |cs|
      ensures cs[i].rest[0].high < NO_IDENTIFIER
    {
      FirstProper(cs[i]);
    }
    NoneListed(cs);
    k, firstEnd, lastEnd, firstStart, targetIds, targetWeights := 0, NO_IDENTIFIER, 0, NO_IDENTIFIER, [], [];
    ghost var last := 0;
    while k < |cs| && cs[k].rest[0].low <= startId
      invariant k <= |cs| && (forall i :: 0 <= i < k ==> cs[i].rest[0].low <= startId)
      invariant forall i :: 0 <= i < k ==> firstEnd <= cs[i].rest[0].high + 1 <= lastEnd
      invariant startId < firstEnd <= NO_IDENTIFIER
      invariant k == 0 ==> lastEnd == 0
      invariant k > 0 ==> last < k && lastEnd == cs[last].rest[0].high + 1
      invariant Listed(cs, k, targetIds, targetWeights)
    {
      var current := cs[k].rest[0];
      if firstEnd > current.high + 1 {
        firstEnd := current.high + 1;
      }
      if lastEnd < current.high + 1 {
        lastEnd := current.high + 1;
        last := k;
      }
      targetIds, targetWeights := AddTarget(cs, k, targetIds, targetWeights);
      k := k + 1;
    }
    if k < |cs| {
      firstStart := cs[k].rest[0].low;
    }
    assert k > 0 ==> cs[..k][last] == cs[last];
    ZippedCurrent(cs, k, targetIds, targetWeights);
  }

  lemma FirstProper(c: Cursor)
    requires ValidCursor(c)
    ensures c.rest[0].low <= c.rest[0].high < NO_IDENTIFIER
  {
  }

  /** Targets and weights of the first k cursors; weights are left out as long as all are 1. */
  ghost predicate Listed(cs: seq<Cursor>, k: nat, targetIds: seq<nat>, targetWeights: seq<real>)
  {
    && k <= |cs| && |targetIds| == k && (targetWeights == [] || |targetWeights| == k)
    && (forall i :: 0 <= i < k ==> cs[i].rest != [] && targetIds[i] == cs[i].target)
    && (forall i :: 0 <= i < k ==> cs[i].rest[0].weight == if targetWeights == [] then 1.0 else targetWeights[i])
  }

  lemma NoneListed(cs: seq<Cursor>)
    ensures Listed(cs, 0, [], [])
  {
  }

  method AddTarget(cs: seq<Cursor>, k: nat, ids: seq<nat>, weights: seq<real>) returns (targetIds: seq<nat>, targetWeights: seq<real>)
    requires Listed(cs, k, ids, weights) && k < |cs| && cs[k].rest != []
    ensures Listed(cs, k + 1, targetIds, targetWeights)
  {
    targetIds, targetWeights := ids, weights;
    var weight := cs[k].rest[0].weight;
    if targetWeights != [] || weight != 1.0 {
      if |targetWeights| != |targetIds| {
        targetWeights := Ones(|targetIds|);
      }
      targetWeights := targetWeights + [weight];
    }
    targetIds := targetIds + [cs[k].target];
  }

  lemma ZippedCurrent(cs: seq<Cursor>, k: nat, targetIds: seq<nat>, targetWeights: seq<real>)
    requires Listed(cs, k, targetIds, targetWeights)
    ensures targetWeights == [] || |targetWeights| == |targetIds|
    ensures forall s: nat :: Zipped(targetIds, targetWeights, s) == CurrentTargets(cs[..k], s)
  {
  }

  ghost predicate EndsAt(cs: seq<Cursor>, end: nat)
  {
    exists i :: 0 <= i < |cs| && cs[i].rest != [] && end == cs[i].rest[0].high + 1
  }

  lemma EndingCursor(cs: seq<Cursor>, end: nat) returns (i: nat)
    requires EndsAt(cs, end)
    ensures i < |cs| && cs[i].rest != [] && end == cs[i].rest[0].high + 1
  {
    i :| 0 <= i < |cs| && cs[i].rest != [] && end == cs[i].rest[0].high + 1;
  }

  /** The first begin of a range behind the current ones, if it comes before the given one. */
  method FindSecondStart(cs: seq<Cursor>, k: nat, startId: nat, firstStart0: nat) returns (firstStart: nat)
    requires Queue(cs) && Reaching(cs, startId) && k <= |cs| && startId < firstStart0
    requires firstStart0 == NO_IDENTIFIER || InCursors(cs, firstStart0)
    ensures startId < firstStart <= firstStart0
    ensures firstStart == NO_IDENTIFIER || InCursors(cs, firstStart)
    ensures forall j :: 0 <= j < k && |cs[j].rest| > 1 ==> firstStart <= cs[j].rest[1].low
  {
    firstStart := firstStart0;
    for i := 0 to k
      invariant startId < firstStart <= firstStart0
      invariant firstStart == NO_IDENTIFIER || InCursors(cs, firstStart)
      invariant forall j :: 0 <= j < i && |cs[j].rest| > 1 ==> firstStart <= cs[j].rest[1].low
    {
      if 1 < |cs[i].rest| && firstStart > cs[i].rest[1].low {
        assert ValidCursor(cs[i]);
        assert cs[i].rest[0].high < cs[i].rest[1].low <= cs[i].rest[1].high;
        firstStart := cs[i].rest[1].low;
      }
    }
  }

  /** Where the segment of startId ends: the begin of the next one, or NO_IDENTIFIER behind the last. */
  method FindNextStart(cs: seq<Cursor>, k: nat, startId: nat, firstEnd: nat, lastEnd: nat, firstStart0: nat)
      returns (nextStartId: nat)
    requires Queue(cs) && Reaching(cs, startId) && startId < NO_IDENTIFIER
    requires k <= |cs| && (forall i :: 0 <= i < |cs| ==> (i < k <==> cs[i].rest[0].low <= startId))
    requires forall i :: 0 <= i < k ==> firstEnd <= cs[i].rest[0].high + 1 <= lastEnd
    requires startId < firstEnd <= NO_IDENTIFIER
    requires k > 0 ==> EndsAt(cs[..k], lastEnd)
    requires firstStart0 == if k < |cs| then cs[k].rest[0].low else NO_IDENTIFIER
    ensures startId < nextStartId <= firstStart0 <= NO_IDENTIFIER
    ensures Uniform(cs[..k], startId, nextStartId)
    ensures nextStartId == NO_IDENTIFIER || InCursors(cs, nextStartId)
  {
    hide Uniform;
    var firstStart := firstStart0;
    forall i | 0 <= i < |cs|
      ensures ValidCursor(cs[i])
    {
    }
    assert firstStart == NO_IDENTIFIER || InCursors(cs, firstStart);
    if k > 1 {
      if firstEnd != lastEnd {
        nextStartId := if firstEnd <= firstStart then firstEnd else firstStart;
        UniformToEnd(cs[..k], startId, nextStartId);
        if firstEnd <= firstStart {
          var i := EndingCursor(cs[..k], lastEnd);
          assert cs[i].rest[0].low <= firstEnd <= cs[i].rest[0].high;
        }
      } else {
        firstStart := FindSecondStart(cs, k, startId, firstStart);
        nextStartId := firstStart;
        UniformToPause(cs[..k], startId, firstEnd, nextStartId);
      }
    } else {
      if k == 1 {
        firstStart := FindOtherWeight(cs[0], firstStart);
      }
      nextStartId := firstStart;
      UniformAlone(cs[..k], startId, nextStartId);
    }
  }

  /** Some range of some cursor covers the id. */
  ghost predicate InCursors(cs: seq<Cursor>, id: nat)
  {
    exists i, j :: 0 <= i < |cs| && 0 <= j < |cs[i].rest| && cs[i].rest[j].low <= id <= cs[i].rest[j].high
  }

  /** The first range of a lone target that begins before firstStart with another weight. */
  method FindOtherWeight(c: Cursor, firstStart: nat) returns (r: nat)
    requires ValidCursor(c)
    ensures r <= firstStart && (r < firstStart ==> r > c.rest[0].high)
    ensures r < firstStart ==> exists j :: 0 <= j < |c.rest| && c.rest[j].low <= r <= c.rest[j].high
    ensures forall j :: 0 <= j < |c.rest| && c.rest[j].low < r ==> c.rest[j].weight == c.rest[0].weight
  {
    r := firstStart;
    var currentWeight := c.rest[0].weight;
    var wsit := 1;
    while wsit < |c.rest|
      invariant 1 <= wsit <= |c.rest| && r == firstStart
      invariant forall j :: 0 <= j < wsit ==> c.rest[j].weight == currentWeight
    {
      if r > c.rest[wsit].low {
        if c.rest[wsit].weight != currentWeight {
          r := c.rest[wsit].low;
          assert c.rest[0].high < c.rest[wsit].low;
          break;
        }
      } else {
        break;
      }
      wsit := wsit + 1;
    }
    forall j | 0 <= j < |c.rest| && c.rest[j].low < r
      ensures j < wsit
    {
    }
  }

  // ------------------------------------------------------------------------------------------
  // Removing what is finished
  // ------------------------------------------------------------------------------------------

  /** Skips the ranges that end before the next start. */
  method Advance(c: Cursor, nextStartId: nat) returns (rest: seq<WRange>, erase: bool, ghost n: nat)
    requires ValidCursor(c)
    ensures erase <==> n > 0
    ensures n <= |c.rest| && rest == c.rest[n..] && WSorted(rest)
    ensures rest != [] ==> rest[0].high >= nextStartId
    ensures n == 0 <==> c.rest[0].high >= nextStartId
    ensures n > 0 && rest != [] ==> c.rest[0].high < rest[0].low
    ensures forall s :: s >= nextStartId ==> WeightAt(rest, s) == WeightAt(c.rest, s)
  {
    rest, erase, n := c.rest, false, 0;
    while rest != [] && rest[0].high < nextStartId
      invariant n <= |c.rest| && rest == c.rest[n..] && WSorted(rest) && (erase <==> n > 0)
      invariant n > 0 ==> c.rest[0].high < nextStartId
      invariant forall s :: s >= nextStartId ==> WeightAt(rest, s) == WeightAt(c.rest, s)
      decreases |rest|
    {
      rest, erase, n := rest[1..], true, n + 1;
    }
  }

  lemma SameFromReplaced(cs: seq<Cursor>, r: seq<Cursor>, p: nat, c: Cursor, m: nat, id: nat)
    requires SameFrom(cs, r, id) && p < |r| && m < |r| && c.target == r[p].target
    requires forall s :: s >= id ==> WeightAt(c.rest, s) == WeightAt(r[p].rest, s)
    ensures c.rest != [] ==> SameFrom(cs, (r[..p] + r[p + 1..])[..m] + [c] + (r[..p] + r[p + 1..])[m..], id)
    ensures c.rest == [] ==> SameFrom(cs, r[..p] + r[p + 1..], id)
  {
    hide TargetsOf, WeightAt;
    var others := r[..p] + r[p + 1..];
    forall s: nat | s >= id
      ensures TargetsOf(others[..m] + [c] + others[m..], s) == TargetsOf(cs, s)
      ensures c.rest == [] ==> TargetsOf(others, s) == TargetsOf(cs, s)
    {
      DequeueTargets(r, p, s);
      EnqueueTargets(others, c, m, s);
      assert TargetOf(c, s) == TargetOf(r[p], s);
      if c.rest == [] {
        NothingLeft(c, s);
      }
    }
  }

  lemma NothingLeft(c: Cursor, s: nat)
    requires c.rest == []
    ensures TargetOf(c, s) == multiset{}
  {
  }

  lemma BelowAfter(r: seq<Cursor>, p: nat, c: Cursor, n: nat, m: nat, maxBase: nat)
    requires Below(r, maxBase) && p < |r| && n <= |r[p].rest| && c.rest == r[p].rest[n..] && m < |r|
    ensures Below(r[..p] + r[p + 1..], maxBase)
    ensures Below((r[..p] + r[p + 1..])[..m] + [c] + (r[..p] + r[p + 1..])[m..], maxBase)
  {
  }

  /**
   * The cursors active in the segment go on to the range that reaches behind it and are queued
   * anew, or leave the queue. Nothing is lost for the ids behind the segment.
   */
  method RemoveFinished(cs: seq<Cursor>, k: nat, startId: nat, nextStartId: nat, ghost maxBase: nat)
      returns (r: seq<Cursor>)
    requires Queue(cs) && Reaching(cs, startId) && startId < nextStartId && k <= |cs| && Below(cs, maxBase)
    requires forall i :: 0 <= i < k ==> cs[i].rest[0].low <= startId
    requires forall i :: k <= i < |cs| ==> nextStartId <= cs[i].rest[0].low
    ensures Queue(r) && Reaching(r, nextStartId) && Below(r, maxBase)
    ensures SameFrom(cs, r, nextStartId)
  {
    hide WSorted, SameFrom, Below, Queue, WeightAt;
    r := cs;
    var p := 0;
    assert SameFrom(cs, r, nextStartId) by { SameFromItself(cs, nextStartId); }
    QueueFacts(cs);
    assert Pending(r, p, k, startId, nextStartId);
    for i := 0 to k
      invariant p + (k - i) <= |r| && Queue(r) && Below(r, maxBase) && SameFrom(cs, r, nextStartId)
      invariant Pending(r, p, k - i, startId, nextStartId)
    {
      QueueFacts(r);
      var rest, erase, n := Advance(r[p], nextStartId);
      if erase {
        var others := r[..p] + r[p + 1..];
        OthersQueue(r, p);
        PendingWithout(r, p, k - i, startId, nextStartId);
        SameFromReplaced(cs, r, p, Cursor(rest, r[p].target), 0, nextStartId);
        BelowAfter(r, p, Cursor(rest, r[p].target), n, 0, maxBase);
        if rest != [] {
          var queued, m := Enqueue(others, Cursor(rest, r[p].target));
          SameFromReplaced(cs, r, p, Cursor(rest, r[p].target), m, nextStartId);
          BelowAfter(r, p, Cursor(rest, r[p].target), n, m, maxBase);
          QueueFacts(others);
          PendingQueued(others, Cursor(rest, r[p].target), p, k - i - 1, m, startId, nextStartId);
          r := queued;
        } else {
          r := others;
        }
      } else {
        p := p + 1;
      }
    }
  }

  /** The n cursors at p are yet to be looked at; all others reach the next start. */
  ghost predicate Pending(r: seq<Cursor>, p: nat, n: nat, startId: nat, nextStartId: nat)
  {
    && p + n <= |r|
    && (forall j :: 0 <= j < |r| ==> r[j].rest != [])
    && (forall j :: p <= j < p + n ==> r[j].rest[0].low <= startId <= r[j].rest[0].high)
    && (forall j :: 0 <= j < p || p + n <= j < |r| ==> r[j].rest[0].high >= nextStartId)
  }

  lemma PendingWithout(r: seq<Cursor>, p: nat, n: nat, startId: nat, nextStartId: nat)
    requires Pending(r, p, n, startId, nextStartId) && n > 0
    ensures Pending(r[..p] + r[p + 1..], p, n - 1, startId, nextStartId)
  {
  }

  lemma PendingQueued(r: seq<Cursor>, c: Cursor, p: nat, n: nat, m: nat, startId: nat, nextStartId: nat)
    requires Pending(r, p, n, startId, nextStartId) && m <= |r|
    requires c.rest != [] && startId < c.rest[0].low && c.rest[0].high >= nextStartId
    requires forall i :: 0 <= i < |r| ==> (i < m <==> r[i].rest[0].low <= c.rest[0].low)
    requires forall i, j :: 0 <= i <= j < |r| ==> r[i].rest[0].low <= r[j].rest[0].low
    ensures Pending(r[..m] + [c] + r[m..], p, n, startId, nextStartId)
  {
    assert n > 0 ==> r[p + n - 1].rest[0].low <= startId;
  }

  lemma SameFromItself(cs: seq<Cursor>, id: nat)
    ensures SameFrom(cs, cs, id)
  {
  }

  lemma QueueFacts(cs: seq<Cursor>)
    requires Queue(cs)
    ensures forall i :: 0 <= i < |cs| ==> ValidCursor(cs[i]) && cs[i].rest[0].low <= cs[i].rest[0].high
    ensures forall i, j :: 0 <= i <= j < |cs| ==> cs[i].rest[0].low <= cs[j].rest[0].low
  {
  }

  lemma OthersQueue(cs: seq<Cursor>, p: nat)
    requires Queue(cs) && p < |cs|
    ensures Queue(cs[..p] + cs[p + 1..])
  {
  }
}
