/** HashValueStorage: the results of a small area in one array, addressed by the position of a cell. */
module HashStorages {
  import opened Ids
  import opened Wrappers
  import opened Streams
  import opened CellMaps
  import opened PathIterators

  /** Offsets are 16 bit wide. */
  const MAX_OFFSET: nat := 0xFFFF

  /** The offsets of one dimension, by id from its first element on: the index times the step, 0 for gaps. */
  ghost predicate DimOffsets(ids: seq<nat>, step: nat, offsets: seq<nat>)
    requires ValidDim(ids)
  {
    && |offsets| == ids[|ids| - 1] + 1 - ids[0]
    && forall i :: 0 <= i < |ids| ==> ids[0] <= ids[i] <= ids[|ids| - 1] && offsets[ids[i] - ids[0]] == Times(i, step)
  }

  /** The offsets of a dimension's elements, filled in element by element. */
  method FillDimension(ids: seq<nat>, step: nat) returns (offsets: seq<nat>)
    requires ValidDim(ids)
    ensures DimOffsets(ids, step, offsets)
  {
    hide Times;
    var firstId, lastId := ids[0], ids[|ids| - 1];
    offsets := seq(lastId + 1 - firstId, _ => 0);
    var elemOffset := 0;
    TimesZero(step);
    for i := 0 to |ids|
      invariant |offsets| == lastId + 1 - firstId && elemOffset == Times(i, step)
      invariant forall k :: 0 <= k < i ==> offsets[ids[k] - firstId] == Times(k, step)
    {
      offsets := offsets[ids[i] - firstId := elemOffset];
      TimesMore(i, step);
      elemOffset := elemOffset + step;
    }
  }

  lemma TimesZero(step: nat)
    ensures Times(0, step) == 0
  {
  }

  lemma TimesQuot(x: nat, y: nat)
    requires x > 0
    ensures Quot(Times(x, y), x) == y
  {
    hide Quot, Rem;
    DigitDivides(y, 0, x);
  }

  class HashValueStorage {
    const space: Space
    const offsets: seq<seq<nat>>
    const results: array<real>
    const resultSet: array<bool>

    ghost predicate Valid()
    {
      && space != [] && ValidSpace(space) && |offsets| == |space|
      && (forall d :: 0 <= d < |space| ==> ValidDim(space[d]) && DimOffsets(space[d], SizeFrom(space, d + 1), offsets[d]))
      && results.Length == resultSet.Length == Size(space)
    }

    constructor (space: Space, offsets: seq<seq<nat>>)
      requires space != [] && ValidSpace(space) && |offsets| == |space|
      requires forall d :: 0 <= d < |space| ==> ValidDim(space[d]) && DimOffsets(space[d], SizeFrom(space, d + 1), offsets[d])
      ensures Valid() && fresh(results) && fresh(resultSet) && this.space == space
      ensures Consistent() && forall n :: 0 <= n < results.Length ==> ValueOf(n) == None
    {
      this.space, this.offsets := space, offsets;
      results := new real[Size(space)](_ => 0.0);
      resultSet := new bool[Size(space)](_ => false);
    }

    /** An unset position still holds the 0 it was initialized with, which the first addition relies on. */
    ghost predicate Consistent()
      requires Valid()
      reads results, resultSet
    {
      forall n :: 0 <= n < results.Length && !resultSet[n] ==> results[n] == 0.0
    }

    /** What is stored at a position. */
    ghost function ValueOf(n: nat): Option<real>
      requires n < results.Length == resultSet.Length
      reads results, resultSet
    {
      if resultSet[n] then Some(results[n]) else None
    }

    /** offsetFromPath: the position of a cell of the area. */
    method OffsetFromPath(key: Key) returns (offset: nat)
      requires Valid() && KeyIn(space, key)
      ensures offset == PositionOf(space, key) && offset < results.Length
    {
      hide Times, SizeFrom, DimOffsets, Position, Size;
      ghost var path := PathOf(space, key);
      offset := 0;
      for dim := 0 to |space|
        invariant offset + PositionFrom(space, path, dim) == PositionFrom(space, path, 0)
      {
        PositionStep(space, path, dim);
        OffsetOfElement(space[dim], SizeFrom(space, dim + 1), offsets[dim], path[dim]);
        offset := offset + offsets[dim][key[dim] - space[dim][0]];
      }
      WholePosition(space, path);
    }

    /** set and add: true if the cell had no value before; every other cell keeps its value. */
    method Apply(op: Op) returns (res: bool)
      requires Valid() && Consistent() && KeyIn(space, op.key)
      modifies results, resultSet
      ensures Valid() && Consistent()
      ensures PositionOf(space, op.key) < results.Length
      ensures res == old(ValueOf(PositionOf(space, op.key))).None?
      ensures ValueOf(PositionOf(space, op.key)) == Some(Applied(op, old(ValueOf(PositionOf(space, op.key)))))
      ensures forall n :: 0 <= n < results.Length && n != PositionOf(space, op.key) ==> ValueOf(n) == old(ValueOf(n))
    {
      hide PositionOf, Size, DimOffsets, KeyIn, ValidDim, ValidSpace;
      var offset := OffsetFromPath(op.key);
      res := !resultSet[offset];
      if op.Set? {
        results[offset] := op.value;
      } else {
        results[offset] := results[offset] + op.value;
      }
      resultSet[offset] := true;
    }

    /** Every cell of the area holds what its own operations of the log amount to. */
    ghost predicate Holds(log: seq<Op>)
      requires Valid()
      reads results, resultSet
    {
      forall n :: 0 <= n < results.Length ==> ValueOf(n) == ValueAfter(log, Rank(KeyAt(space, n)))
    }

    /** One more operation of a run. */
    method ApplyNext(op: Op, ghost log: seq<Op>)
      requires Valid() && Consistent() && KeyIn(space, op.key) && Holds(log)
      modifies results, resultSet
      ensures Valid() && Consistent() && Holds(log + [op])
    {
      hide PositionOf, Size, DimOffsets, KeyIn, ValidDim, ValidSpace, Rank, KeyAt, ValueAfter;
      var _ := Apply(op);
      ghost var after := log + [op];
      assert after[..|log|] == log;
      forall n | 0 <= n < results.Length
        ensures ValueAfter(after, Rank(KeyAt(space, n))) ==
          if n == PositionOf(space, op.key) then Some(Applied(op, ValueAfter(log, Rank(KeyAt(space, n)))))
          else ValueAfter(log, Rank(KeyAt(space, n)))
      {
        RankAtPosition(space, op.key, n);
        ValueStep(after, Rank(KeyAt(space, n)));
      }
    }

    /** A whole run of operations: every cell of the area holds what its own operations amount to. */
    method ApplyAll(ops: seq<Op>)
      requires Valid() && Consistent() && forall n :: 0 <= n < results.Length ==> ValueOf(n) == None
      requires forall i :: 0 <= i < |ops| ==> KeyIn(space, ops[i].key)
      modifies results, resultSet
      ensures Valid() && Consistent() && results.Length == Size(space)
      ensures forall n :: 0 <= n < Size(space) ==> ValueOf(n) == ValueAfter(ops, Rank(KeyAt(space, n)))
    {
      hide PositionOf, Size, DimOffsets, KeyIn, ValidDim, ValidSpace, Rank, KeyAt, ValueAfter;
      NothingAfter(space);
      for i := 0 to |ops|
        invariant Valid() && Consistent() && Holds(ops[..i])
      {
        assert ops[..i + 1] == ops[..i] + [ops[i]];
        ApplyNext(ops[i], ops[..i]);
      }
      assert ops[..|ops|] == ops;
    }
  }

  /** HashValueStorage::Reader: the stored values in the order of their cells. */
  class Reader {
    const storage: HashValueStorage
    var started: bool
    var offset: nat
    var pathIt: PathIterator

    /** The offset is the position of the iterator, as long as that is not at its end. */
    ghost predicate Valid()
      reads this, pathIt
    {
      && storage.Valid() && pathIt.Valid() && pathIt.space == storage.space
      && (!pathIt.end ==> offset == pathIt.GetPosition())
      && (!started ==> !pathIt.end && offset == 0)
    }

    constructor (storage: HashValueStorage)
      requires storage.Valid()
      ensures Valid() && !started && this.storage == storage && fresh(pathIt)
    {
      this.storage, started, offset := storage, false, 0;
      pathIt := new PathIterator.Begin(storage.space);
    }

    /** The first position that has not been delivered or passed. */
    ghost function Ahead(): nat
      requires Valid()
      reads this, pathIt
    {
      if !started then 0 else if pathIt.end then storage.results.Length else offset + 1
    }

    /** next: the next cell that has a value, in the order of the cells. */
    method Next() returns (result: bool)
      requires Valid()
      modifies this`started, this`offset, pathIt
      ensures Valid() && started
      ensures result ==> !pathIt.end && offset < storage.results.Length && storage.ValueOf(offset).Some?
      ensures result ==> pathIt.ids == KeyAt(storage.space, offset)
      ensures result ==> old(Ahead()) <= offset && forall n :: old(Ahead()) <= n < offset ==> storage.ValueOf(n).None?
      ensures !result ==> forall n :: old(Ahead()) <= n < storage.results.Length ==> storage.ValueOf(n).None?
    {
      hide Position, Size, DimOffsets, KeyAt, ValidDim, ValidSpace;
      ghost var ahead := Ahead();
      if !pathIt.end {
        pathIt.IdsAtPosition();
      }
      if !started {
        started := true;
        if !pathIt.end && storage.resultSet[offset] {
          return true;
        }
      }
      while !pathIt.end
        invariant Valid() && started
        invariant ahead <= Ahead() <= storage.results.Length && forall n :: ahead <= n < Ahead() ==> storage.ValueOf(n).None?
        decreases storage.results.Length - offset, !pathIt.end
      {
        StepOn();
        if !pathIt.end && storage.resultSet[offset] {
          return true;
        }
      }
      result := false;
    }

    /** One cell further, keeping offset and iterator together. */
    method StepOn()
      requires Valid() && started && !pathIt.end
      modifies this`offset, pathIt
      ensures Valid() && old(offset) < storage.results.Length
      ensures if pathIt.end then offset == old(offset) == storage.results.Length - 1
        else offset == old(offset) + 1 < storage.results.Length && pathIt.ids == KeyAt(storage.space, offset)
    {
      hide Position, DimOffsets, KeyAt, ValidDim, ValidSpace;
      pathIt.IdsAtPosition();
      pathIt.Increment();
      if !pathIt.end {
        pathIt.IdsAtPosition();
        offset := offset + 1;
      }
    }
  }

  lemma NothingAfter(space: Space)
    ensures forall rank :: ValueAfter([], rank) == None
  {
  }

  lemma ValueStep(ops: seq<Op>, rank: int)
    requires ops != []
    ensures ValueAfter(ops, rank) ==
      if Rank(ops[|ops| - 1].key) == rank then Some(Applied(ops[|ops| - 1], ValueAfter(ops[..|ops| - 1], rank)))
      else ValueAfter(ops[..|ops| - 1], rank)
  {
  }

  lemma RankAtPosition(space: Space, key: Key, n: nat)
    requires ValidSpace(space) && KeyIn(space, key) && n < Size(space)
    ensures Rank(key) == Rank(KeyAt(space, n)) <==> n == PositionOf(space, key)
  {
    hide Rank, Size, KeyAt, PositionOf;
    PositionOfKey(space, key);
    KeyAtOrder(space, n, PositionOf(space, key));
    KeyAtOrder(space, PositionOf(space, key), n);
  }

  /** The offsets of all dimensions, the step shrinking from the size of the area by each dimension's size. */
  method CreateHashValueStorage(space: Space) returns (r: Result<HashValueStorage>)
    requires space != [] && ValidSpace(space)
    ensures r.Failure? <==> Size(space) > MAX_OFFSET
    ensures r.Success? ==> fresh(r.value) && fresh(r.value.results) && fresh(r.value.resultSet)
    ensures r.Success? ==> r.value.Valid() && r.value.space == space && r.value.Consistent()
    ensures r.Success? ==> forall n :: 0 <= n < r.value.results.Length ==> r.value.ValueOf(n) == None
  {
    if Size(space) > MAX_OFFSET {
      return Failure("HashValueStorage area too big!");
    }
    hide Times, Quot, DimOffsets, ValidDim, Size;
    var areaSize := SizeFrom(space, 0);
    var offsets: seq<seq<nat>> := [];
    for dim := 0 to |space|
      invariant |offsets| == dim && areaSize == SizeFrom(space, dim)
      invariant forall d :: 0 <= d < dim ==> ValidDim(space[d]) && DimOffsets(space[d], SizeFrom(space, d + 1), offsets[d])
    {
      NonEmpty(space[dim]);
      TimesQuot(|space[dim]|, SizeFrom(space, dim + 1));
      areaSize := Quot(areaSize, |space[dim]|);
      var dimOffsets := FillDimension(space[dim], areaSize);
      offsets := offsets + [dimOffsets];
    }
    var storage := new HashValueStorage(space, offsets);
    r := Success(storage);
  }

  lemma NonEmpty(ids: seq<nat>)
    requires ValidDim(ids)
    ensures ids != []
  {
  }

  lemma PositionStep(space: Space, path: seq<nat>, d: nat)
    requires |path| == |space| && d < |space|
    ensures PositionFrom(space, path, d) == Times(path[d], SizeFrom(space, d + 1)) + PositionFrom(space, path, d + 1)
  {
  }

  lemma WholePosition(space: Space, path: seq<nat>)
    requires ValidPath(space, path)
    ensures PositionFrom(space, path, 0) == Position(space, path) < Size(space)
    ensures PositionFrom(space, path, |space|) == 0
  {
    PositionBound(space, path, 0);
  }

  lemma OffsetOfElement(ids: seq<nat>, step: nat, offsets: seq<nat>, i: nat)
    requires ValidDim(ids) && DimOffsets(ids, step, offsets) && i < |ids|
    ensures ids[0] <= ids[i] && ids[i] - ids[0] < |offsets| && offsets[ids[i] - ids[0]] == Times(i, step)
  {
  }
}
