/**
 * Arithmetic on streams: the leapfrog join of multiplication and division, the merge of addition
 * and subtraction, and the folds over the operands of a cell.
 */
module Arithmetics {
  import opened Ids
  import opened Wrappers
  import opened Streams
  import opened CellLists
  import opened Operands

  /** The stream stands at a cell of at most rank k, and everything before ranks below k. */
  ghost predicate Near(s: Stream, k: int)
    reads s
  {
    && 0 <= s.pos < |s.cells|
    && (forall j :: 0 <= j < s.pos ==> Rank(s.cells[j].key) < k)
    && Rank(s.cells[s.pos].key) <= k
  }

  ghost predicate At(s: Stream, k: int)
    reads s
  {
    Near(s, k) && Rank(s.cells[s.pos].key) == k
  }

  /** Everything before the stream's position ranks below k, everything from it on at or above k. */
  ghost predicate CutAt(s: Stream, k: int)
    reads s
  {
    && 0 <= s.pos <= |s.cells|
    && (forall j :: 0 <= j < s.pos ==> Rank(s.cells[j].key) < k)
    && (forall j :: s.pos <= j < |s.cells| ==> k <= Rank(s.cells[j].key))
  }

  class Arithmetic {
    const dims: nat
    const streams: seq<Stream?>
    const constValue: CellValue
    var key: Key
    var hasNext: seq<bool>
    var activeOperands: seq<bool>

    ghost predicate Valid()
      reads this, streams
    {
      && dims > 0 && |hasNext| == |activeOperands| == |streams|
      && (forall i :: 0 <= i < |streams| && streams[i] != null ==> streams[i].Valid() && streams[i].dims == dims)
      && (forall i, j :: 0 <= i < j < |streams| && streams[i] != null ==> streams[i] != streams[j])
    }

    ghost function Lists(): (lists: seq<seq<Cell>>)
    {
      seq(|streams|, i requires 0 <= i < |streams| => if streams[i] == null then [] else streams[i].cells)
    }

    /** A rank all operands have that are streams. */
    ghost predicate Common(r: int)
    {
      forall i :: 0 <= i < |streams| && streams[i] != null ==> Has(streams[i].cells, r)
    }

    ghost predicate Unstarted()
      requires Valid()
      reads this, streams
    {
      key == EMPTY_KEY && forall i :: 0 <= i < |streams| && streams[i] != null ==> streams[i].pos == -1 && hasNext[i]
    }

    /** All streams stand at the current key. */
    ghost predicate AtCommon()
      requires Valid()
      reads this, streams
    {
      ValidKey(key, dims) && forall i :: 0 <= i < |streams| && streams[i] != null ==> hasNext[i] && At(streams[i], Rank(key))
    }

    /** The rank of the current key; -1 before the first. */
    ghost function Current(): int
      reads this
    {
      if key == EMPTY_KEY then -1 else Rank(key)
    }

    /** All streams stand near the key, which one of them has; nothing common lies between b and it. */
    ghost predicate Aligning(b: int)
      requires Valid()
      reads this, streams
    {
      && ValidKey(key, dims) && InUnion(Lists(), Rank(key))
      && (forall i :: 0 <= i < |streams| && streams[i] != null ==> hasNext[i] && Near(streams[i], Rank(key)))
      && (forall r :: b < r && Common(r) ==> Rank(key) <= r)
    }

    /** Some stream is known to have ended. */
    predicate Exhausted()
      requires |hasNext| == |streams|
      reads this
    {
      exists i :: 0 <= i < |streams| && streams[i] != null && !hasNext[i]
    }

    /**
     * Moves one stream to the key. It stands at it (found), at a greater one, which becomes the new
     * key, or nothing is left that all streams could have in common.
     */
    method AlignOne(i: nat, ghost b: int) returns (result: bool, found: bool)
      requires Valid() && Aligning(b) && i < |streams| && streams[i] != null
      modifies this`key, this`hasNext, streams[i]
      ensures Valid()
      ensures result ==> Aligning(b) && (found ==> key == old(key) && At(streams[i], Rank(key)))
      ensures result && !found ==> Rank(key) > old(Rank(key))
      ensures !result ==> forall r :: b < r ==> !Common(r)
      ensures hasNext[i] == result
    {
      hide Rank, SortedCells, InUnion;
      var s: Stream := streams[i];
      ghost var before := s.pos;
      assert Near(s, Rank(key));
      result, found := s.Move(key);
      hasNext := hasNext[i := result];
      if result {
        if !found {
          KeyAt(s);
          CellsAscend(s);
          BehindAll(s.cells, s.pos, Rank(key));
          HeadInUnion(Lists(), i, s.pos);
          MovedBeyond(s.dims, s.cells, s.pos, key);
          key := s.GetKey();
        }
      } else {
        forall r | b < r
          ensures !Common(r)
        {
          assert Common(r) ==> Has(s.cells, r);
        }
      }
    }

    /** The second half of nextAll and moveAll: aligns all streams to the greatest key they stand at. */
    method AlignAll(ghost b: int) returns (ok: bool)
      requires Valid() && Aligning(b)
      modifies this`key, this`hasNext, streams
      ensures Valid()
      ensures ok ==> AtCommon() && Rank(key) >= old(Rank(key)) && forall r :: b < r && Common(r) ==> Rank(key) <= r
      ensures !ok ==> Exhausted() && forall r :: b < r ==> !Common(r)
    {
      hide Rank, SortedCells, InUnion, HighestRank;
      while true
        invariant Valid() && Aligning(b) && Rank(key) >= old(Rank(key))
        decreases HighestRank(Lists()) - Rank(key)
      {
        var ordinal := 0;
        ghost var start := key;
        while ordinal < |streams|
          invariant ordinal <= |streams| && Valid() && Aligning(b) && key == start
          invariant forall i :: 0 <= i < ordinal && streams[i] != null ==> At(streams[i], Rank(key))
        {
          if streams[ordinal] != null {
            var result, found := AlignOne(ordinal, b);
            if result {
              if !found {
                break; // a new maximum: restart from the first stream
              }
            } else {
              return false;
            }
          }
          ordinal := ordinal + 1;
        }
        if ordinal == |streams| {
          return true;
        }
      }
    }

    /** Some operand is not a constant. */
    predicate AnyStream()
    {
      exists i :: 0 <= i < |streams| && streams[i] != null
    }

    /** The first n streams stand behind rank b, and the key is the greatest they stand at. */
    ghost predicate Gathered(n: int, b: int, max: Key)
      requires Valid() && 0 <= n <= |streams|
      reads this, streams
    {
      && (forall i :: 0 <= i < n && streams[i] != null ==> hasNext[i] && Passed(streams[i], b))
      && (forall i :: 0 <= i < n && streams[i] != null ==> max != EMPTY_KEY && HeadRank(streams[i]) <= Rank(max))
      && (max == EMPTY_KEY || ValidKey(max, dims))
      && (max == EMPTY_KEY || exists i :: 0 <= i < n && streams[i] != null && StandsAt(streams[i], max))
    }

    lemma GatheredAligns(b: int)
      requires Valid() && Gathered(|streams|, b, key) && AnyStream()
      ensures Aligning(b)
    {
      hide Rank, SortedCells, InUnion;
      var i :| 0 <= i < |streams| && streams[i] != null;
      var w :| 0 <= w < |streams| && streams[w] != null && StandsAt(streams[w], key);
      KeyAt(streams[w]);
      HeadInUnion(Lists(), w, streams[w].pos);
      CellsAscend(streams[w]);
      BehindAll(streams[w].cells, streams[w].pos, b + 1);
      forall r | b < r && Common(r)
        ensures Rank(key) <= r
      {
        assert Has(streams[w].cells, r);
      }
    }

    lemma OnlyConstants(b: int, max: Key)
      requires Valid() && Gathered(|streams|, b, max) && max == EMPTY_KEY
      ensures !AnyStream()
    {
    }

    lemma SomeStream(b: int, max: Key)
      requires Valid() && Gathered(|streams|, b, max) && max != EMPTY_KEY
      ensures AnyStream()
    {
    }

    method SetKey(max: Key, ghost b: int)
      requires Valid() && Gathered(|streams|, b, max) && AnyStream()
      modifies this`key
      ensures Valid() && Aligning(b) && b < Rank(key)
    {
      hide Rank, SortedCells, Passed, HeadRank, At, StandsAt, Aligning;
      key := max;
      AligningBehind(b);
      GatheredAligns(b);
    }

    /** Calls next on a stream that waits at rank b. */
    method Pull(i: nat, ghost b: int)
      requires Valid() && i < |streams| && streams[i] != null && hasNext[i] && b >= -1 && Waiting(streams[i], b)
      modifies this`hasNext, streams[i]
      ensures Valid() && hasNext == old(hasNext)[i := hasNext[i]]
      ensures hasNext[i] ==> Passed(streams[i], b)
      ensures !hasNext[i] ==> forall r :: b < r ==> !Common(r)
    {
      hide Rank, SortedCells;
      var s: Stream := streams[i];
      WaitingCut(s, b);
      var more := s.Next();
      hasNext := hasNext[i := more];
      if !more {
        forall r | b < r
          ensures !Common(r)
        {
          assert !Has(s.cells, r);
        }
      }
    }

    /** One more stream goes on; the key is raised to the one it stands at. */
    method GatherNext(i: nat, max: Key, ghost b: int) returns (more: bool, r: Key)
      requires Valid() && i < |streams| && streams[i] != null && b >= -1 && Gathered(i, b, max)
      requires hasNext[i] && Waiting(streams[i], b)
      modifies this`hasNext, this`activeOperands, streams[i]
      ensures Valid() && more == hasNext[i] && hasNext == old(hasNext)[i := more]
      ensures activeOperands == if more then old(activeOperands)[i := true] else old(activeOperands)
      ensures more ==> Gathered(i + 1, b, r)
      ensures !more ==> forall r :: b < r ==> !Common(r)
    {
      hide Rank, SortedCells, Passed, HeadRank, At, Common, StandsAt;
      r := max;
      Pull(i, b);
      more := hasNext[i];
      if more {
        activeOperands := activeOperands[i := true];
        r := Greater(max, streams[i], b);
        KeyStands(streams[i], r);
      }
    }

    /**
     * nextAll: the next key all streams have. Constants take part without a stream; without any
     * stream the operands are there every time, at no key.
     */
    method NextAll() returns (ok: bool)
      requires Valid() && (AnyStream() ==> Unstarted() || AtCommon())
      modifies this`key, this`hasNext, this`activeOperands, streams
      ensures Valid()
      ensures ok ==> forall j :: 0 <= j < |streams| ==> (activeOperands[j] <==> streams[j] != null)
      ensures !AnyStream() ==> ok && key == EMPTY_KEY
      ensures ok && AnyStream() ==> AtCommon() && old(Current()) < Rank(key) && Common(Rank(key))
      ensures ok && AnyStream() ==> forall r :: old(Current()) < r && Common(r) ==> Rank(key) <= r
      ensures !ok ==> AnyStream() && Exhausted() && forall r :: old(Current()) < r ==> !Common(r)
    {
      hide Rank, SortedCells, Passed, HeadRank, At, Aligning, Has, Common, Gathered, Waiting;
      ghost var b := Current();
      AllWaiting();
      activeOperands := seq(|streams|, _ => false);
      var max := EMPTY_KEY;
      NothingGathered(b);
      for i := 0 to |streams|
        invariant Valid() && Gathered(i, b, max)
        invariant forall j :: 0 <= j < |streams| ==> (activeOperands[j] <==> j < i && streams[j] != null)
        invariant forall j :: i <= j < |streams| && streams[j] != null ==> hasNext[j] && Waiting(streams[j], b)
      {
        if streams[i] == null {
          NoStream(i, b, max);
        } else {
          var more;
          more, max := GatherNext(i, max, b);
          if !more {
            return false;
          }
        }
      }
      if max == EMPTY_KEY {
        // constants only: there is nothing to align
        OnlyConstants(b, max);
        key := max;
        return true;
      }
      SomeStream(b, max);
      SetKey(max, b);
      ok := AlignAll(b);
      if ok {
        AtCommonMeans(b);
      }
    }

    /** Moves a stream that waits at rank b to a key. */
    method PullTo(i: nat, moveKey: Key, ghost b: int)
      requires Valid() && i < |streams| && streams[i] != null && hasNext[i] && b >= -1 && Waiting(streams[i], b)
      requires ValidKey(moveKey, dims)
      modifies this`hasNext, streams[i]
      ensures Valid() && hasNext == old(hasNext)[i := hasNext[i]]
      ensures hasNext[i] ==> Passed(streams[i], From(moveKey, b) - 1)
      ensures !hasNext[i] ==> forall r :: From(moveKey, b) <= r ==> !Common(r)
    {
      hide Rank, SortedCells;
      var s: Stream := streams[i];
      WaitingCut(s, b);
      CellsAscend(s);
      var more, _ := s.Move(moveKey);
      hasNext := hasNext[i := more];
      if !more {
        forall r | From(moveKey, b) <= r
          ensures !Common(r)
        {
          assert !Has(s.cells, r);
        }
      }
    }

    method GatherMove(i: nat, max: Key, moveKey: Key, ghost b: int) returns (more: bool, r: Key)
      requires Valid() && i < |streams| && streams[i] != null && b >= -1 && Gathered(i, From(moveKey, b) - 1, max)
      requires hasNext[i] && Waiting(streams[i], b) && ValidKey(moveKey, dims)
      modifies this`hasNext, this`activeOperands, streams[i]
      ensures Valid() && more == hasNext[i] && hasNext == old(hasNext)[i := more]
      ensures activeOperands == if more then old(activeOperands)[i := true] else old(activeOperands)
      ensures more ==> Gathered(i + 1, From(moveKey, b) - 1, r)
      ensures !more ==> forall r :: From(moveKey, b) <= r ==> !Common(r)
    {
      hide Rank, SortedCells, Passed, HeadRank, At, Common, StandsAt;
      r := max;
      PullTo(i, moveKey, b);
      more := hasNext[i];
      if more {
        activeOperands := activeOperands[i := true];
        r := Greater(max, streams[i], From(moveKey, b) - 1);
        KeyStands(streams[i], r);
      }
    }

    /**
     * moveAll: the first key all streams have at or behind the given one; the current one if that
     * is already there.
     */
    method MoveAll(moveKey: Key) returns (ok: bool, moveFound: bool)
      requires Valid() && (AnyStream() ==> Unstarted() || AtCommon()) && ValidKey(moveKey, dims)
      modifies this`key, this`hasNext, this`activeOperands, streams
      ensures Valid()
      ensures ok ==> forall j :: 0 <= j < |streams| ==> (activeOperands[j] <==> streams[j] != null)
      ensures !AnyStream() ==> ok && key == EMPTY_KEY
      ensures ok && AnyStream() ==> AtCommon() && From(moveKey, old(Current())) <= Rank(key) && Common(Rank(key))
      ensures ok && AnyStream() ==> forall r :: From(moveKey, old(Current())) <= r && Common(r) ==> Rank(key) <= r
      ensures !ok ==> AnyStream() && Exhausted() && forall r :: From(moveKey, old(Current())) <= r ==> !Common(r)
      ensures moveFound <==> ok && key == moveKey
    {
      hide Rank, SortedCells, Passed, HeadRank, At, Aligning, Has, Common, Gathered, Waiting, From;
      ghost var b := Current();
      ghost var from := From(moveKey, b);
      moveFound := false;
      AllWaiting();
      activeOperands := seq(|streams|, _ => false);
      var max := EMPTY_KEY;
      NothingGathered(from - 1);
      for i := 0 to |streams|
        invariant Valid() && Gathered(i, from - 1, max)
        invariant forall j :: 0 <= j < |streams| ==> (activeOperands[j] <==> j < i && streams[j] != null)
        invariant forall j :: i <= j < |streams| && streams[j] != null ==> hasNext[j] && Waiting(streams[j], b)
      {
        if streams[i] == null {
          NoStream(i, from - 1, max);
        } else {
          var more;
          more, max := GatherMove(i, max, moveKey, b);
          if !more {
            return false, false;
          }
        }
      }
      if max == EMPTY_KEY {
        OnlyConstants(from - 1, max);
        key := max;
        return true, false;
      }
      SomeStream(from - 1, max);
      SetKey(max, from - 1);
      ok := AlignAll(from - 1);
      if ok {
        AtCommonMeans(from - 1);
        var diff := CompareStreamKeys(moveKey, key, dims);
        moveFound := diff == 0;
      }
    }

    // ----------------------------------------------------------------------------------------
    // The merge
    // ----------------------------------------------------------------------------------------

    /** No operand is a constant: addition and subtraction are planned for streams only. */
    predicate AllStreams()
    {
      forall i :: 0 <= i < |streams| ==> streams[i] != null
    }

    /** Stream i is cut at rank k, and is an active operand exactly if it stands at it. */
    ghost predicate CutWithFlag(i: int, k: int)
      requires Valid() && AllStreams() && 0 <= i < |streams|
      reads this, streams
    {
      && CutAt(streams[i], k) && (hasNext[i] <==> streams[i].pos < |streams[i].cells|)
      && (activeOperands[i] <==> hasNext[i] && HeadRank(streams[i]) == k)
    }

    /** At a key of the union: every stream is cut there, the active operands are those that have it. */
    ghost predicate AtAny()
      requires Valid() && AllStreams()
      reads this, streams
    {
      && ValidKey(key, dims) && key != EMPTY_KEY && InUnion(Lists(), Rank(key))
      && (forall i :: 0 <= i < |streams| ==> CutWithFlag(i, Rank(key)))
    }

    /** What is known of stream i before it is looked at. */
    ghost predicate Resting(i: int, b: int)
      requires Valid() && AllStreams() && 0 <= i < |streams|
      reads this, streams
    {
      if b == -1 then streams[i].pos == -1 else CutWithFlag(i, b)
    }

    ghost predicate Cut(i: int, b: int)
      requires Valid() && AllStreams() && 0 <= i < |streams|
      reads this, streams
    {
      CutAt(streams[i], b + 1) && (hasNext[i] <==> streams[i].pos < |streams[i].cells|)
    }

    /** The first n streams are cut behind rank b, and the key is the smallest they stand at. */
    ghost predicate Lowest(n: int, b: int, min: Key)
      requires Valid() && AllStreams() && 0 <= n <= |streams|
      reads this, streams
    {
      && (forall i :: 0 <= i < n ==> Cut(i, b))
      && (forall i :: 0 <= i < n && hasNext[i] ==> min != EMPTY_KEY && Rank(min) <= HeadRank(streams[i]))
      && (min == EMPTY_KEY || ValidKey(min, dims))
      && (min == EMPTY_KEY || exists i :: 0 <= i < n && hasNext[i] && StandsAt(streams[i], min))
    }

    ghost function WitnessOf(n: int, b: int, min: Key): (w: int)
      requires Valid() && AllStreams() && 0 <= n <= |streams| && Lowest(n, b, min) && min != EMPTY_KEY
      reads this, streams
      ensures 0 <= w < n && hasNext[w] && StandsAt(streams[w], min)
    {
      var w :| 0 <= w < n && hasNext[w] && StandsAt(streams[w], min);
      w
    }

    /** Takes one more stream, cut behind rank b, into account. */
    method Lower(i: nat, min: Key, ghost b: int) returns (r: Key)
      requires Valid() && AllStreams() && i < |streams| && Lowest(i, b, min) && Cut(i, b)
      ensures Lowest(i + 1, b, r)
    {
      hide Rank, SortedCells, CutAt;
      r := min;
      if hasNext[i] {
        var s: Stream := streams[i];
        CutHas(s, b + 1);
        KeyAt(s);
        if min == EMPTY_KEY {
          r := s.GetKey();
        } else {
          var diff := CompareStreamKeys(s.GetKey(), min, dims);
          if diff < 0 {
            r := s.GetKey();
          }
        }
        assert StandsAt(s, s.GetKey());
      }
    }

    /** next on a stream that has not started or stands at the current key; the others stay. */
    method PullActive(i: nat, firstCall: bool, ghost b: int)
      requires Valid() && AllStreams() && i < |streams| && b >= -1 && (firstCall <==> b == -1) && Resting(i, b)
      modifies this`hasNext, streams[i]
      ensures Valid() && hasNext == old(hasNext)[i := hasNext[i]]
      ensures Cut(i, b)
    {
      hide Rank, SortedCells;
      CellsAscend(streams[i]);
      if firstCall || (hasNext[i] && activeOperands[i]) {
        var more := streams[i].Next();
        hasNext := hasNext[i := more];
      }
    }

    method LowerNext(i: nat, firstCall: bool, min: Key, ghost b: int) returns (r: Key)
      requires Valid() && AllStreams() && i < |streams| && b >= -1 && (firstCall <==> b == -1)
      requires Resting(i, b) && Lowest(i, b, min)
      modifies this`hasNext, streams[i]
      ensures Valid() && hasNext == old(hasNext)[i := hasNext[i]]
      ensures Lowest(i + 1, b, r)
    {
      hide Rank, SortedCells, CutAt, HeadRank, StandsAt;
      ghost var w := if min == EMPTY_KEY then 0 else WitnessOf(i, b, min);
      PullActive(i, firstCall, b);
      assert min != EMPTY_KEY ==> hasNext[w] && StandsAt(streams[w], min);
      forall k | 0 <= k < i
        ensures Cut(k, b)
      {
        assert old(Cut(k, b));
      }
      r := Lower(i, min, b);
    }

    /** The streams that stand at the smallest key. */
    method FindActive(min: Key, ghost b: int) returns (active: seq<bool>, ok: bool)
      requires Valid() && AllStreams() && Lowest(|streams|, b, min)
      ensures |active| == |streams| && (ok <==> min != EMPTY_KEY)
      ensures forall i :: 0 <= i < |streams| ==> (active[i] <==> hasNext[i] && HeadRank(streams[i]) == Rank(min))
    {
      hide Rank, SortedCells;
      active, ok := seq(|streams|, _ => false), false;
      for i := 0 to |streams|
        invariant |active| == |streams| && (ok ==> min != EMPTY_KEY)
        invariant !ok ==> forall j :: 0 <= j < i ==> !active[j]
        invariant forall j :: 0 <= j < i ==> (active[j] <==> hasNext[j] && HeadRank(streams[j]) == Rank(min))
      {
        if hasNext[i] {
          assert Cut(i, b);
          KeyAt(streams[i]);
          var diff := CompareStreamKeys(streams[i].GetKey(), min, dims);
          if diff == 0 {
            ok := true;
            active := active[i := true];
          } else {
            active := active[i := false];
          }
        } else {
          active := active[i := false];
        }
      }
      if min != EMPTY_KEY {
        ghost var w := WitnessOf(|streams|, b, min);
        assert Cut(w, b) && active[w];
      }
    }

    /** The second half of nextAny and moveAny: the key, and the operands that stand at it. */
    method Activate(min: Key, ghost b: int) returns (ok: bool)
      requires Valid() && AllStreams() && Lowest(|streams|, b, min)
      modifies this`key, this`activeOperands
      ensures Valid() && key == min && (ok <==> min != EMPTY_KEY)
      ensures ok ==> AtAny() && b < Rank(key) && forall r :: b < r < Rank(key) ==> !InUnion(Lists(), r)
      ensures !ok ==> forall r :: b < r ==> !InUnion(Lists(), r)
    {
      hide Rank, SortedCells, InUnion, CutAt, HeadRank, Lowest;
      var active;
      active, ok := FindActive(min, b);
      LowestMeans(b, min);
      if ok {
        forall i | 0 <= i < |streams|
          ensures CutAt(streams[i], Rank(min)) && (hasNext[i] <==> streams[i].pos < |streams[i].cells|)
        {
          LowestCut(i, b, min);
        }
      }
      key, activeOperands := min, active;
    }

    /** Nothing of the union lies between rank b and the smallest key. */
    lemma LowestMeans(b: int, min: Key)
      requires Valid() && AllStreams() && Lowest(|streams|, b, min)
      ensures min != EMPTY_KEY ==> b < Rank(min) && InUnion(Lists(), Rank(min)) && ValidKey(min, dims)
      ensures min != EMPTY_KEY ==> forall r :: b < r < Rank(min) ==> !InUnion(Lists(), r)
      ensures min == EMPTY_KEY ==> forall r :: b < r ==> !InUnion(Lists(), r)
    {
      hide Rank, SortedCells;
      forall i, r | 0 <= i < |streams| && b < r && (min != EMPTY_KEY ==> r < Rank(min))
        ensures !Has(streams[i].cells, r)
      {
        assert Cut(i, b);
        CellsAscend(streams[i]);
      }
      if min != EMPTY_KEY {
        var w :| 0 <= w < |streams| && hasNext[w] && StandsAt(streams[w], min);
        assert Cut(w, b);
        HeadInUnion(Lists(), w, streams[w].pos);
      }
    }

    lemma LowestCut(i: int, b: int, min: Key)
      requires Valid() && AllStreams() && 0 <= i < |streams| && Lowest(|streams|, b, min) && min != EMPTY_KEY
      ensures CutAt(streams[i], Rank(min)) && (hasNext[i] <==> streams[i].pos < |streams[i].cells|)
    {
      hide Rank, SortedCells;
      LowestMeans(b, min);
      assert Cut(i, b);
      CellsAscend(streams[i]);
    }

    /**
     * nextAny: the next key of the union of all streams; the active operands are exactly the
     * streams that have it.
     */
    method NextAny() returns (ok: bool)
      requires Valid() && AllStreams() && (Unstarted() || AtAny())
      modifies this`key, this`hasNext, this`activeOperands, streams
      ensures Valid()
      ensures ok ==> AtAny() && old(Current()) < Rank(key)
      ensures ok ==> forall r :: old(Current()) < r < Rank(key) ==> !InUnion(Lists(), r)
      ensures !ok ==> forall r :: old(Current()) < r ==> !InUnion(Lists(), r)
    {
      hide Rank, SortedCells, InUnion, Lowest, CutAt, HeadRank, AtAny;
      ghost var b := Current();
      AllResting();
      var firstCall := key == EMPTY_KEY;
      var min := EMPTY_KEY;
      NothingLowest(b);
      for i := 0 to |streams|
        invariant Valid() && Lowest(i, b, min) && key == old(key)
        invariant forall j :: i <= j < |streams| ==> Resting(j, b)
      {
        label Before:
        min := LowerNext(i, firstCall, min, b);
        forall j | i < j < |streams|
          ensures Resting(j, b)
        {
          assert old@Before(Resting(j, b));
        }
      }
      ok := Activate(min, b);
    }

    /** Whether a stream has to move to reach the key, or stands at it already. */
    method BeforeKey(i: nat, firstCall: bool, moveKey: Key, ghost b: int) returns (callMove: bool, exactMatch: bool)
      requires Valid() && AllStreams() && i < |streams| && (firstCall <==> b == -1) && Resting(i, b) && ValidKey(moveKey, dims)
      ensures callMove <==> firstCall || (hasNext[i] && HeadRank(streams[i]) < Rank(moveKey))
      ensures exactMatch <==> !firstCall && hasNext[i] && HeadRank(streams[i]) == Rank(moveKey)
    {
      hide Rank, SortedCells;
      callMove, exactMatch := firstCall, false;
      if !callMove && hasNext[i] {
        KeyAt(streams[i]);
        var relPos := CompareStreamKeys(streams[i].GetKey(), moveKey, dims);
        if relPos < 0 {
          callMove := true;
        } else if relPos == 0 {
          exactMatch := true;
        }
      }
    }

    /** A stream in front of the key moves to it. */
    method MoveOne(i: nat, moveKey: Key, ghost b: int) returns (found: bool)
      requires Valid() && AllStreams() && i < |streams| && b >= -1 && Resting(i, b) && ValidKey(moveKey, dims)
      requires b == -1 || (hasNext[i] && HeadRank(streams[i]) < Rank(moveKey))
      modifies this`hasNext, streams[i]
      ensures Valid() && hasNext == old(hasNext)[i := hasNext[i]]
      ensures Cut(i, Rank(moveKey) - 1)
      ensures found <==> hasNext[i] && HeadRank(streams[i]) == Rank(moveKey)
    {
      hide Rank, SortedCells;
      CellsAscend(streams[i]);
      var more;
      more, found := streams[i].Move(moveKey);
      hasNext := hasNext[i := more];
      if more {
        KeyAt(streams[i]);
        RankOrder(streams[i].GetKey(), moveKey, dims);
      }
    }

    /** A stream in front of the key moves to it; one that is already there stays. */
    method PullToKey(i: nat, firstCall: bool, moveKey: Key, ghost b: int) returns (exactMatch: bool)
      requires Valid() && AllStreams() && i < |streams| && b >= -1 && (firstCall <==> b == -1) && Resting(i, b)
      requires ValidKey(moveKey, dims)
      modifies this`hasNext, streams[i]
      ensures Valid() && hasNext == old(hasNext)[i := hasNext[i]]
      ensures Cut(i, From(moveKey, b) - 1)
      ensures exactMatch <==> hasNext[i] && HeadRank(streams[i]) == Rank(moveKey)
    {
      hide Rank, SortedCells;
      var callMove;
      callMove, exactMatch := BeforeKey(i, firstCall, moveKey, b);
      CellsAscend(streams[i]);
      if callMove {
        RestingBelow(i, moveKey, b);
        exactMatch := MoveOne(i, moveKey, b);
      }
    }

    /** In front of the key asked for, the current rank is smaller still. */
    lemma RestingBelow(i: nat, moveKey: Key, b: int)
      requires Valid() && AllStreams() && i < |streams| && b >= -1 && Resting(i, b)
      requires b == -1 || (hasNext[i] && HeadRank(streams[i]) < Rank(moveKey))
      ensures From(moveKey, b) == Rank(moveKey)
    {
      hide Rank;
    }

    method LowerMove(i: nat, firstCall: bool, min: Key, moveKey: Key, ghost b: int) returns (r: Key, exactMatch: bool)
      requires Valid() && AllStreams() && i < |streams| && b >= -1 && (firstCall <==> b == -1)
      requires Resting(i, b) && Lowest(i, From(moveKey, b) - 1, min) && ValidKey(moveKey, dims)
      modifies this`hasNext, streams[i]
      ensures Valid() && hasNext == old(hasNext)[i := hasNext[i]]
      ensures Lowest(i + 1, From(moveKey, b) - 1, r)
      ensures exactMatch <==> hasNext[i] && HeadRank(streams[i]) == Rank(moveKey)
    {
      hide Rank, SortedCells, CutAt, HeadRank, StandsAt, From;
      ghost var b' := From(moveKey, b) - 1;
      ghost var w := if min == EMPTY_KEY then 0 else WitnessOf(i, b', min);
      exactMatch := PullToKey(i, firstCall, moveKey, b);
      assert min != EMPTY_KEY ==> hasNext[w] && StandsAt(streams[w], min);
      forall k | 0 <= k < i
        ensures Cut(k, b')
      {
        assert old(Cut(k, b'));
      }
      r := Lower(i, min, b');
    }

    /**
     * moveAny: the first key of the union at or behind the given one; the current one if that is
     * already there.
     */
    method MoveAny(moveKey: Key) returns (ok: bool, moveFound: bool)
      requires Valid() && AllStreams() && (Unstarted() || AtAny()) && ValidKey(moveKey, dims)
      modifies this`key, this`hasNext, this`activeOperands, streams
      ensures Valid()
      ensures ok ==> AtAny() && From(moveKey, old(Current())) <= Rank(key)
      ensures ok ==> forall r :: From(moveKey, old(Current())) <= r < Rank(key) ==> !InUnion(Lists(), r)
      ensures !ok ==> forall r :: From(moveKey, old(Current())) <= r ==> !InUnion(Lists(), r)
      ensures moveFound <==> ok && key == moveKey
    {
      hide Rank, SortedCells, InUnion, Lowest, CutAt, HeadRank, AtAny;
      ghost var b := Current();
      ghost var from := From(moveKey, b);
      AllResting();
      var firstCall := key == EMPTY_KEY;
      var min := EMPTY_KEY;
      moveFound := false;
      NothingLowest(from - 1);
      for i := 0 to |streams|
        invariant Valid() && Lowest(i, from - 1, min) && key == old(key)
        invariant forall j :: i <= j < |streams| ==> Resting(j, b)
        invariant moveFound <==> exists j :: 0 <= j < i && hasNext[j] && HeadRank(streams[j]) == Rank(moveKey)
      {
        label Before:
        var exactMatch;
        min, exactMatch := LowerMove(i, firstCall, min, moveKey, b);
        forall j | i < j < |streams|
          ensures Resting(j, b)
        {
          assert old@Before(Resting(j, b));
        }
        forall j | 0 <= j < i
          ensures hasNext[j] == old@Before(hasNext[j]) && HeadRank(streams[j]) == old@Before(HeadRank(streams[j]))
        {
        }
        moveFound := moveFound || exactMatch;
      }
      ExactMatch(moveKey, from - 1, min, moveFound);
      ok := Activate(min, from - 1);
    }

    /** The key asked for was met exactly if it is the smallest one now. */
    lemma ExactMatch(moveKey: Key, b: int, min: Key, moveFound: bool)
      requires Valid() && AllStreams() && Lowest(|streams|, b, min) && ValidKey(moveKey, dims) && moveKey != EMPTY_KEY
      requires Rank(moveKey) <= b + 1
      requires moveFound <==> exists j :: 0 <= j < |streams| && hasNext[j] && HeadRank(streams[j]) == Rank(moveKey)
      ensures moveFound <==> min == moveKey
    {
      hide Rank, SortedCells, InUnion;
      LowestMeans(b, min);
      if min != EMPTY_KEY {
        RankOrder(min, moveKey, dims);
        var w := WitnessOf(|streams|, b, min);
        assert hasNext[w] && HeadRank(streams[w]) == Rank(min);
      }
    }

    lemma AllResting()
      requires Valid() && AllStreams() && (Unstarted() || AtAny())
      ensures Current() >= -1 && (Current() == -1 <==> key == EMPTY_KEY)
      ensures forall j :: 0 <= j < |streams| ==> Resting(j, Current())
    {
    }

    lemma NothingLowest(b: int)
      requires Valid() && AllStreams()
      ensures Lowest(0, b, EMPTY_KEY)
    {
    }

    // ----------------------------------------------------------------------------------------
    // The processors
    // ----------------------------------------------------------------------------------------

    /** The values the operands have at a rank; a constant has its value everywhere. */
    ghost function ValuesAt(rank: int): (vs: Values)
    {
      seq(|streams|, i requires 0 <= i < |streams| =>
        if streams[i] == null then Some(constValue) else ValueAt(streams[i].cells, rank))
    }

    /** The operand values as the processors read them: of active operands, or of all with the constant. */
    method ReadActive() returns (vs: Values)
      requires Valid() && AllStreams() && AtAny()
      ensures vs == ValuesAt(Rank(key))
    {
      hide Rank, SortedCells, InUnion;
      vs := [];
      for i := 0 to |streams|
        invariant |vs| == i && forall j :: 0 <= j < i ==> vs[j] == ValuesAt(Rank(key))[j]
      {
        var s: Stream := streams[i];
        assert CutWithFlag(i, Rank(key));
        CellsAscend(s);
        if activeOperands[i] {
          ValueHere(s.cells, s.pos);
          vs := vs + [Some(s.GetValue())];
        } else {
          NoValue(s.cells, Rank(key));
          vs := vs + [None];
        }
      }
    }

    method ReadAll() returns (vs: Values)
      requires Valid() && (AnyStream() ==> AtCommon())
      ensures vs == ValuesAt(Rank(key)) && forall i :: 0 <= i < |vs| ==> vs[i].Some?
    {
      hide Rank, SortedCells;
      vs := [];
      for i := 0 to |streams|
        invariant |vs| == i && forall j :: 0 <= j < i ==> vs[j] == ValuesAt(Rank(key))[j] && vs[j].Some?
      {
        if streams[i] == null {
          vs := vs + [Some(constValue)];
        } else {
          var s: Stream := streams[i];
          assert At(s, Rank(key));
          CellsAscend(s);
          ValueHere(s.cells, s.pos);
          vs := vs + [Some(s.GetValue())];
        }
      }
    }

    /** AdditionProcessor::next: the next key of the union with the sum of the values there. */
    method NextSum() returns (ok: bool, value: Result<CellValue>)
      requires Valid() && AllStreams() && (Unstarted() || AtAny())
      modifies this`key, this`hasNext, this`activeOperands, streams
      ensures Valid()
      ensures ok ==> AtAny() && old(Current()) < Rank(key) && Combined(ValuesAt(Rank(key)), Total(ValuesAt(Rank(key))), value)
      ensures ok ==> forall r :: old(Current()) < r < Rank(key) ==> !InUnion(Lists(), r)
      ensures !ok ==> forall r :: old(Current()) < r ==> !InUnion(Lists(), r)
    {
      hide Rank, SortedCells, InUnion, AtAny, Combined;
      value := Success(Null);
      ok := NextAny();
      if ok {
        var operands := ReadActive();
        value := AddValues(operands);
      }
    }

    /** SubtractionProcessor::next: as a sum, but all operands behind the first are taken away. */
    method NextDifference() returns (ok: bool, value: Result<CellValue>)
      requires Valid() && AllStreams() && (Unstarted() || AtAny())
      modifies this`key, this`hasNext, this`activeOperands, streams
      ensures Valid()
      ensures ok ==> AtAny() && old(Current()) < Rank(key) && Combined(ValuesAt(Rank(key)), Difference(ValuesAt(Rank(key))), value)
      ensures ok ==> forall r :: old(Current()) < r < Rank(key) ==> !InUnion(Lists(), r)
      ensures !ok ==> forall r :: old(Current()) < r ==> !InUnion(Lists(), r)
    {
      hide Rank, SortedCells, InUnion, AtAny, Combined;
      value := Success(Null);
      ok := NextAny();
      if ok {
        var operands := ReadActive();
        value := SubtractValues(operands);
      }
    }

    /** MultiplicationProcessor::next: the next common key with the product of all operands. */
    method NextProduct() returns (ok: bool, value: Result<CellValue>)
      requires Valid() && (AnyStream() ==> Unstarted() || AtCommon())
      modifies this`key, this`hasNext, this`activeOperands, streams
      ensures Valid()
      ensures !AnyStream() ==> ok && key == EMPTY_KEY
      ensures ok && AnyStream() ==> AtCommon() && old(Current()) < Rank(key) && Common(Rank(key))
      ensures ok ==> Combined(ValuesAt(Rank(key)), Product(ValuesAt(Rank(key))), value)
      ensures ok && AnyStream() ==> forall r :: old(Current()) < r && Common(r) ==> Rank(key) <= r
      ensures !ok ==> AnyStream() && forall r :: old(Current()) < r ==> !Common(r)
    {
      hide Rank, SortedCells, Common, AtCommon, Combined;
      value := Success(Null);
      ok := NextAll();
      if ok {
        var operands := ReadAll();
        value := MultiplyValues(operands);
      }
    }

    /** DivisionProcessor::next: the next common key with the quotient of the operands. */
    method NextQuotient() returns (ok: bool, value: Result<CellValue>)
      requires Valid() && (AnyStream() ==> Unstarted() || AtCommon())
      modifies this`key, this`hasNext, this`activeOperands, streams
      ensures Valid()
      ensures !AnyStream() ==> ok && key == EMPTY_KEY
      ensures ok && AnyStream() ==> AtCommon() && old(Current()) < Rank(key) && Common(Rank(key))
      ensures ok ==> Divided(ValuesAt(Rank(key)), value)
      ensures ok && AnyStream() ==> forall r :: old(Current()) < r && Common(r) ==> Rank(key) <= r
      ensures !ok ==> AnyStream() && forall r :: old(Current()) < r ==> !Common(r)
    {
      hide Rank, SortedCells, Common, AtCommon, Divided;
      value := Success(Null);
      ok := NextAll();
      if ok {
        var operands := ReadAll();
        value := DivideValues(operands);
      }
    }

    lemma NothingGathered(b: int)
      requires Valid()
      ensures Gathered(0, b, EMPTY_KEY)
    {
    }

    lemma NoStream(i: nat, b: int, max: Key)
      requires Valid() && i < |streams| && streams[i] == null && Gathered(i, b, max)
      ensures Gathered(i + 1, b, max)
    {
    }

    lemma AllWaiting()
      requires Valid() && (AnyStream() ==> Unstarted() || AtCommon())
      ensures Current() >= -1
      ensures forall j :: 0 <= j < |streams| && streams[j] != null ==> hasNext[j] && Waiting(streams[j], Current())
    {
    }

    lemma AligningBehind(b: int)
      requires Valid() && Gathered(|streams|, b, key) && AnyStream()
      ensures b < Rank(key)
    {
    }

    lemma AtCommonMeans(b: int)
      requires Valid() && AtCommon()
      ensures Common(Rank(key))
    {
      hide Rank;
      forall i | 0 <= i < |streams| && streams[i] != null
        ensures Has(streams[i].cells, Rank(key))
      {
        assert At(streams[i], Rank(key));
      }
    }
  }

  /** Where a move starts to look: at the key, or at the current rank if that is greater. */
  ghost function From(moveKey: Key, b: int): int
  {
    if b <= Rank(moveKey) then Rank(moveKey) else b
  }

  lemma CutHas(s: Stream, k: int)
    requires CutAt(s, k)
    ensures 0 <= s.pos
  {
  }

  ghost function HeadRank(s: Stream): int
    reads s
  {
    if 0 <= s.pos < |s.cells| then Rank(s.cells[s.pos].key) else -1
  }

  predicate StandsAt(s: Stream, key: Key)
    reads s
  {
    0 <= s.pos < |s.cells| && key == s.cells[s.pos].key
  }

  lemma KeyStands(s: Stream, key: Key)
    requires s.Valid()
    ensures StandsAt(s, key) ==> ValidKey(key, s.dims)
  {
  }

  /** The greater of a key and the one a stream stands at; anything is greater than the empty key. */
  method Greater(max: Key, s: Stream, ghost b: int) returns (r: Key)
    requires s.Valid() && Passed(s, b) && (max != EMPTY_KEY ==> ValidKey(max, s.dims))
    ensures r != EMPTY_KEY && HeadRank(s) <= Rank(r) && (max != EMPTY_KEY ==> Rank(max) <= Rank(r))
    ensures StandsAt(s, r) || (max != EMPTY_KEY && r == max)
  {
    hide Rank, SortedCells;
    KeyAt(s);
    r := max;
    if max == EMPTY_KEY {
      r := s.GetKey();
    } else {
      var diff := CompareStreamKeys(s.GetKey(), max, s.dims);
      if diff > 0 {
        r := s.GetKey();
      }
    }
  }

  /** At the first cell behind rank b. */
  ghost predicate Passed(s: Stream, b: int)
    reads s
  {
    && 0 <= s.pos < |s.cells|
    && (forall j :: 0 <= j < s.pos ==> Rank(s.cells[j].key) <= b)
    && b < Rank(s.cells[s.pos].key)
  }

  lemma KeyAt(s: Stream)
    requires s.Valid() && 0 <= s.pos < |s.cells|
    ensures ValidKey(s.GetKey(), s.dims)
  {
  }

  lemma CellsAscend(s: Stream)
    requires s.Valid()
    ensures Ascends(s.cells)
  {
  }

  /** Before the first cell, or at the one of rank b. */
  ghost predicate Waiting(s: Stream, b: int)
    reads s
  {
    if b == -1 then s.pos == -1 else At(s, b)
  }

  lemma WaitingCut(s: Stream, b: int)
    requires s.Valid() && Waiting(s, b) && b >= -1
    ensures s.pos < |s.cells|
    ensures forall j :: 0 <= j <= s.pos ==> Rank(s.cells[j].key) <= b
    ensures forall j :: 0 <= j && s.pos < j < |s.cells| ==> b < Rank(s.cells[j].key)
  {
    hide Rank;
  }

  lemma HeadInUnion(lists: seq<seq<Cell>>, i: nat, j: nat)
    requires i < |lists| && j < |lists[i]|
    ensures InUnion(lists, Rank(lists[i][j].key))
  {
    hide Rank;
    assert Has(lists[i], Rank(lists[i][j].key));
  }

  /** A rank the list has at or above k is found from the position on. */
  lemma BehindAll(cells: seq<Cell>, pos: int, k: int)
    requires 0 <= pos < |cells| && forall j :: 0 <= j < pos ==> Rank(cells[j].key) < k
    requires Ascends(cells)
    ensures forall r :: k <= r && Has(cells, r) ==> Rank(cells[pos].key) <= r
  {
    hide Rank;
  }

  lemma MovedBeyond(dims: nat, cells: seq<Cell>, pos: int, key: Key)
    requires 0 <= pos < |cells| && ValidKey(cells[pos].key, dims) && ValidKey(key, dims) && cells[pos].key != key
    ensures Rank(cells[pos].key) != Rank(key)
  {
    RankOrder(cells[pos].key, key, dims);
  }
}
