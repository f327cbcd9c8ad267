/** CompleteProcessor: a source stream completed with a default value in all other cells of an area. */
module Completes {
  import opened Ids
  import opened Wrappers
  import opened Streams
  import opened CellLists
  import opened PathIterators

  /** Sorted cells inside the area. */
  ghost predicate CellsIn(space: Space, cells: seq<Cell>)
  {
    SortedCells(cells, |space|) && forall i :: 0 <= i < |cells| ==> KeyIn(space, cells[i].key)
  }

  /** The position of the i-th cell; the size of the area behind the last one. */
  ghost function PositionAt(space: Space, cells: seq<Cell>, i: int): nat
    requires CellsIn(space, cells) && 0 <= i
  {
    if i < |cells| then PositionOf(space, cells[i].key) else Size(space)
  }

  /** The positions of the cells ascend. */
  lemma PositionsAscend(space: Space, cells: seq<Cell>, i: int, j: int)
    requires ValidSpace(space) && CellsIn(space, cells) && 0 <= i < j <= |cells|
    ensures PositionAt(space, cells, i) < PositionAt(space, cells, j)
  {
    hide Rank;
    PositionOfKey(space, cells[i].key);
    if j < |cells| {
      PositionOfKey(space, cells[j].key);
      KeyAtOrder(space, PositionOf(space, cells[i].key), PositionOf(space, cells[j].key));
    }
  }

  /** The value every cell of the area has in the completed stream. */
  ghost function Completed(space: Space, cells: seq<Cell>, default: CellValue, n: nat): CellValue
    requires ValidSpace(space) && n < Size(space)
  {
    ValueAt(cells, Rank(KeyAt(space, n))).GetOr(default)
  }

  lemma CompletedHere(space: Space, cells: seq<Cell>, default: CellValue, i: nat)
    requires ValidSpace(space) && CellsIn(space, cells) && i < |cells|
    ensures PositionAt(space, cells, i) < Size(space) && KeyAt(space, PositionAt(space, cells, i)) == cells[i].key
    ensures Completed(space, cells, default, PositionAt(space, cells, i)) == cells[i].value
  {
    hide Rank;
    PositionOfKey(space, cells[i].key);
    ValueHere(cells, i);
  }

  /** Between two cells of the source the default is used. */
  lemma CompletedBetween(space: Space, cells: seq<Cell>, default: CellValue, i: nat, n: nat)
    requires ValidSpace(space) && CellsIn(space, cells) && i <= |cells| && n < PositionAt(space, cells, i) <= Size(space)
    requires i > 0 ==> PositionAt(space, cells, i - 1) < n
    ensures Completed(space, cells, default, n) == default
  {
    hide Rank;
    forall j | 0 <= j < |cells|
      ensures Rank(cells[j].key) != Rank(KeyAt(space, n))
    {
      PositionOfKey(space, cells[j].key);
      KeyAtOrder(space, PositionOf(space, cells[j].key), n);
      KeyAtOrder(space, n, PositionOf(space, cells[j].key));
      if j < i - 1 {
        PositionsAscend(space, cells, j, i - 1);
      } else if j > i {
        PositionsAscend(space, cells, i, j);
      }
    }
    NoValue(cells, Rank(KeyAt(space, n)));
  }

  /** Greatest value of the 64-bit repetition counter. */
  const MAX_COUNT: nat := 0xFFFF_FFFF_FFFF_FFFF

  class Complete {
    const space: Space
    const defaultValue: CellValue
    const source: Stream
    var areaIt: PathIterator
    var repeatCount: nat
    var sourceEnded: bool
    var bFirst: bool

    ghost predicate Valid()
      reads this, source, areaIt
    {
      && space != [] && ValidSpace(space)
      && source.Valid() && source.dims == |space| && CellsIn(space, source.cells)
      && areaIt.Valid() && areaIt.space == space
    }

    predicate IsDefaultValue()
      reads this
    {
      repeatCount != 0
    }

    /** The number of cells delivered so far, as the four kinds of states tell it. */
    ghost function Delivered(): nat
      requires Valid()
      reads this, source, areaIt
    {
      if bFirst then 0
      else if IsDefaultValue() then areaIt.GetPosition() + 1
      else if sourceEnded || source.pos < 0 then Size(space)
      else PositionAt(space, source.cells, source.pos) + 1
    }

    ghost predicate AtStart()
      reads this, source, areaIt
    {
      bFirst && repeatCount == 0 && !sourceEnded && source.pos == -1 && !areaIt.end
    }

    /** Repeating the default up to the next cell of the source, or to the end of the area. */
    ghost predicate AtDefault()
      requires Valid()
      reads this, source, areaIt
    {
      && !bFirst && repeatCount > 0 && !areaIt.end && 0 <= source.pos && (sourceEnded <==> source.pos == |source.cells|)
      && areaIt.GetPosition() + repeatCount == PositionAt(space, source.cells, source.pos)
      && (source.pos > 0 ==> PositionAt(space, source.cells, source.pos - 1) < areaIt.GetPosition())
    }

    ghost predicate AtValue()
      reads this, source, areaIt
    {
      !bFirst && repeatCount == 0 && !sourceEnded && 0 <= source.pos < |source.cells| && !areaIt.end
    }

    ghost predicate AtEnd()
      reads this, source, areaIt
    {
      !bFirst && repeatCount == 0 && sourceEnded && source.pos == |source.cells| && areaIt.end
    }

    ghost predicate InState()
      requires Valid()
      reads this, source, areaIt
    {
      AtStart() || AtDefault() || AtValue() || AtEnd()
    }

    function GetKey(): Key
      requires IsDefaultValue() || 0 <= source.pos < |source.cells|
      reads this, source, areaIt
    {
      if IsDefaultValue() then areaIt.ids else source.cells[source.pos].key
    }

    function GetValue(): CellValue
      requires IsDefaultValue() || 0 <= source.pos < |source.cells|
      reads this, source
    {
      if IsDefaultValue() then defaultValue else source.cells[source.pos].value
    }

    constructor (space: Space, defaultValue: CellValue, source: Stream)
      requires space != [] && ValidSpace(space)
      requires source.Valid() && source.dims == |space| && CellsIn(space, source.cells) && source.pos == -1
      ensures Valid() && AtStart() && Delivered() == 0 && fresh(areaIt)
      ensures this.space == space && this.defaultValue == defaultValue && this.source == source
    {
      this.space, this.defaultValue, this.source := space, defaultValue, source;
      areaIt := new PathIterator.Begin(space);
      repeatCount, sourceEnded, bFirst := 0, false, true;
    }

    /** nextRepetition: one more cell with the default; false when there is none, or the last one has been passed. */
    method NextRepetition() returns (more: bool)
      requires Valid()
      modifies this`repeatCount, areaIt
      ensures Valid() && (more <==> repeatCount > 0)
      ensures repeatCount == if old(repeatCount) > 0 then old(repeatCount) - 1 else 0
      ensures areaIt.GetPosition() == old(areaIt.GetPosition()) + if old(repeatCount > 0 && !areaIt.end) then 1 else 0
    {
      if repeatCount > 0 {
        areaIt.Increment();
        repeatCount := repeatCount - 1;
        more := repeatCount > 0;
      } else {
        more := false;
      }
    }

    /**
     * setRepetition: the default is to be repeated behind one cell of the source up to the next; an
     * error if the counter cannot hold the distance.
     */
    method SetRepetition(afterKey: Option<Key>, toKey: Option<Key>) returns (r: Result<nat>)
      requires Valid() && repeatCount == 0
      requires afterKey.Some? ==> KeyIn(space, afterKey.value)
      requires toKey.Some? ==> KeyIn(space, toKey.value)
      requires !areaIt.end ==> StartOf(space, afterKey) <= EndOf(space, toKey)
      modifies this`repeatCount, this`areaIt
      ensures Valid() && (fresh(areaIt) || areaIt == old(areaIt))
      ensures old(areaIt.end) ==> areaIt == old(areaIt) && r == Success(0) && repeatCount == 0
      ensures !old(areaIt.end) ==> fresh(areaIt) && areaIt.GetPosition() == StartOf(space, afterKey)
      ensures r.Failure? <==> !old(areaIt.end) && EndOf(space, toKey) - StartOf(space, afterKey) > MAX_COUNT
      ensures r.Failure? ==> repeatCount == 0
      ensures r.Success? ==> r.value == repeatCount
      ensures r.Success? && !old(areaIt.end) ==> areaIt.GetPosition() + repeatCount == EndOf(space, toKey)
    {
      hide Rank, Position, Size, KeyAt, PassedBetween, SortedCells, CellsIn, ValidSpace, PathIterator.HasPassed;
      if areaIt.end {
        return Success(0);
      }
      if afterKey.None? {
        areaIt := new PathIterator.Begin(space);
      } else {
        areaIt := FindPath(space, afterKey.value);
        areaIt.Increment();
      }
      var endIt;
      if toKey.Some? {
        endIt := FindPath(space, toKey.value);
      } else {
        endIt := new PathIterator.End(space);
      }
      var distance := endIt.Minus(areaIt);
      if distance > MAX_COUNT {
        repeatCount := 0;
        return Failure("too many generated constant values!");
      }
      repeatCount := distance;
      r := Success(repeatCount);
    }

    /** The delivered cell: the next position, with the value of the source or the default. */
    ghost predicate DeliversAt(n: nat)
      requires Valid()
      reads this, source, areaIt
    {
      && n < Size(space) && (IsDefaultValue() || 0 <= source.pos < |source.cells|)
      && GetKey() == KeyAt(space, n) && GetValue() == Completed(space, source.cells, defaultValue, n)
    }

    lemma DefaultDelivers()
      requires Valid() && AtDefault()
      ensures DeliversAt(areaIt.GetPosition())
    {
      hide Rank, Position, Size, KeyAt, KeyIn, PositionAt, ValidSpace, CellsIn, Completed;
      areaIt.IdsAtPosition();
      if source.pos < |source.cells| {
        CompletedHere(space, source.cells, defaultValue, source.pos);
      } else {
        EndPosition(space, source.cells);
      }
      CompletedBetween(space, source.cells, defaultValue, source.pos, areaIt.GetPosition());
    }

    lemma ValueDelivers()
      requires Valid() && AtValue()
      ensures DeliversAt(PositionAt(space, source.cells, source.pos))
    {
      hide Rank, Position, Size, KeyAt, KeyIn, PositionAt, ValidSpace, CellsIn, Completed;
      CompletedHere(space, source.cells, defaultValue, source.pos);
    }

    /** The end of the iterator is exactly the position behind all cells. */
    lemma EndIsSize()
      requires Valid()
      ensures areaIt.end <==> areaIt.GetPosition() == Size(space)
    {
      if !areaIt.end {
        areaIt.IdsAtPosition();
      }
    }

    /** The number of defaults to be delivered before the next cell of the source, or before the end. */
    ghost function Gap(): int
      requires Valid() && InState() && !IsDefaultValue()
      reads this, source, areaIt
    {
      PositionAt(space, source.cells, if sourceEnded then source.pos else source.pos + 1) - Delivered()
    }

    /** next, inside a repetition. */
    method NextDefault() returns (result: bool)
      requires Valid() && AtDefault()
      modifies this`repeatCount, this`bFirst, areaIt
      ensures Valid() && InState() && Delivered() == old(Delivered()) + (if result then 1 else 0)
      ensures result <==> old(Delivered()) < Size(space)
      ensures result ==> DeliversAt(old(Delivered()))
    {
      hide SortedCells, Rank, PositionAt, DeliversAt, Position, Size;
      SourceAt();
      bFirst := false;
      var more := NextRepetition();
      EndIsSize();
      if more {
        assert AtDefault();
        DefaultDelivers();
        return true;
      }
      if !sourceEnded {
        assert AtValue();
        ValueDelivers();
      }
      result := !sourceEnded;
    }

    /**
     * next, not inside a repetition: on to the next cell of the source, or to the end of the area;
     * an error exactly if there are more defaults before it than can be counted.
     */
    method NextValue() returns (r: Result<bool>)
      requires Valid() && (AtStart() || AtValue() || AtEnd())
      modifies this`repeatCount, this`areaIt, this`sourceEnded, this`bFirst, source
      ensures Valid() && (areaIt == old(areaIt) || fresh(areaIt))
      ensures r.Failure? <==> old(Gap()) > MAX_COUNT
      ensures r.Success? ==> InState() && Delivered() == old(Delivered()) + (if r.value then 1 else 0)
      ensures r.Success? ==> (r.value <==> old(Delivered()) < Size(space))
      ensures r.Success? && r.value ==> DeliversAt(old(Delivered()))
    {
      hide SortedCells, Rank, DeliversAt, Position, Size, KeyAt, KeyIn;
      var prevKey: Option<Key> := None;
      if bFirst {
        bFirst := false;
      } else if source.pos < |source.cells| {
        // the key of a source that has ended is read as well, but not used
        prevKey := Some(source.cells[source.pos].key);
      }
      ghost var last := source.pos;
      ghost var done := Delivered();
      NextPosition(space, source.cells, last);
      while !sourceEnded
        invariant Valid() && repeatCount == 0 && !bFirst && areaIt == old(areaIt)
        invariant !sourceEnded ==> !old(sourceEnded) && source.pos == last
        invariant sourceEnded ==> source.pos == |source.cells| == (if old(sourceEnded) then last else last + 1)
        decreases !sourceEnded
      {
        var more := source.Next();
        if more {
          var repetition := SetRepetition(prevKey, Some(source.cells[source.pos].key));
          if repetition.Failure? {
            return Failure(repetition.error);
          }
          SourceAt();
          EndIsSize();
          if repeatCount > 0 {
            DefaultDelivers();
          } else {
            ValueDelivers();
          }
          return Success(true);
        } else {
          sourceEnded := true;
        }
      }
      var repetition := SetRepetition(prevKey, None);
      EndPosition(space, source.cells);
      if repetition.Failure? {
        return Failure(repetition.error);
      }
      r := Success(repetition.value != 0);
      SourceAt();
      EndIsSize();
      if r.value {
        DefaultDelivers();
      }
    }

    /**
     * next: the cells of the area in lexicographic order, each once, with the value of the source
     * where it has one and the default everywhere else.
     */
    method Next() returns (r: Result<bool>)
      requires Valid() && InState()
      modifies this`repeatCount, this`areaIt, this`sourceEnded, this`bFirst, source, areaIt
      ensures Valid() && (areaIt == old(areaIt) || fresh(areaIt))
      ensures r.Failure? <==> old(!IsDefaultValue() && Gap() > MAX_COUNT)
      ensures r.Success? ==> InState() && Delivered() == old(Delivered()) + (if r.value then 1 else 0)
      ensures r.Success? ==> (r.value <==> old(Delivered()) < Size(space))
      ensures r.Success? && r.value ==> DeliversAt(old(Delivered()))
    {
      hide SortedCells, Rank, DeliversAt, Position, Size, KeyAt, KeyIn, CellsIn, PositionAt;
      if IsDefaultValue() {
        var result := NextDefault();
        r := Success(result);
      } else {
        r := NextValue();
      }
    }

    /** Only an area with more cells than can be counted has so many defaults in a row. */
    lemma GapBound()
      requires Valid() && InState() && !IsDefaultValue()
      ensures Gap() <= Size(space)
    {
      hide SortedCells, Rank, Position, Size, KeyAt, KeyIn;
      NextPosition(space, source.cells, source.pos);
      EndPosition(space, source.cells);
    }

    /** The whole stream: one cell per position of the area; there is an error only if they cannot be counted. */
    method ReadAll() returns (r: Result<seq<Cell>>)
      requires Valid() && AtStart()
      modifies this`repeatCount, this`areaIt, this`sourceEnded, this`bFirst, source, areaIt
      ensures Size(space) <= MAX_COUNT ==> r.Success?
      ensures r.Success? ==> |r.value| == Size(space)
      ensures r.Success? ==> forall n :: 0 <= n < |r.value| ==>
        r.value[n] == Cell(KeyAt(space, n), Completed(space, source.cells, defaultValue, n))
    {
      hide SortedCells, Rank, Position, Size, KeyAt, KeyIn, CellsIn, Completed, ValidSpace, PositionAt;
      var cells := [];
      GapBound();
      var more := Next();
      while more.Success? && more.value
        invariant Valid() && (more.Success? ==> InState()) && (areaIt == old(areaIt) || fresh(areaIt))
        invariant more.Failure? ==> Size(space) > MAX_COUNT
        invariant |cells| <= Size(space)
        invariant more.Success? ==> Delivered() == |cells| + (if more.value then 1 else 0)
        invariant more.Success? && more.value ==> DeliversAt(|cells|)
        invariant more.Success? && !more.value ==> |cells| == Size(space)
        invariant forall n :: 0 <= n < |cells| ==>
          cells[n] == Cell(KeyAt(space, n), Completed(space, source.cells, defaultValue, n))
        decreases Size(space) - |cells|
      {
        cells := cells + [Cell(GetKey(), GetValue())];
        if !IsDefaultValue() {
          GapBound();
        }
        more := Next();
      }
      if more.Failure? {
        return Failure(more.error);
      }
      r := Success(cells);
    }

    lemma SourceAt()
      requires Valid() && 0 <= source.pos <= |source.cells|
      ensures source.pos < |source.cells| ==> PositionAt(space, source.cells, source.pos) < Size(space)
      ensures source.pos == |source.cells| ==> PositionAt(space, source.cells, source.pos) == Size(space)
    {
      if source.pos < |source.cells| {
        CompletedHere(space, source.cells, defaultValue, source.pos);
      }
    }
  }

  lemma EndPosition(space: Space, cells: seq<Cell>)
    requires CellsIn(space, cells)
    ensures PositionAt(space, cells, |cells|) == Size(space)
  {
  }

  /** The positions around the i-th cell. */
  lemma NextPosition(space: Space, cells: seq<Cell>, i: int)
    requires ValidSpace(space) && CellsIn(space, cells) && -1 <= i <= |cells|
    ensures i == -1 ==> 0 <= PositionAt(space, cells, 0) <= Size(space)
    ensures 0 <= i < |cells| ==> PositionAt(space, cells, i) + 1 <= PositionAt(space, cells, i + 1) <= Size(space)
  {
    hide Size, Position, Rank;
    if 0 <= i < |cells| {
      PositionsAscend(space, cells, i, i + 1);
      if i + 1 < |cells| {
        PositionOfKey(space, cells[i + 1].key);
      }
    } else if i == -1 && 0 < |cells| {
      PositionOfKey(space, cells[0].key);
    }
  }

  ghost function StartOf(space: Space, afterKey: Option<Key>): nat
    requires afterKey.Some? ==> KeyIn(space, afterKey.value)
  {
    if afterKey.Some? then PositionOf(space, afterKey.value) + 1 else 0
  }

  ghost function EndOf(space: Space, toKey: Option<Key>): nat
    requires toKey.Some? ==> KeyIn(space, toKey.value)
  {
    if toKey.Some? then PositionOf(space, toKey.value) else Size(space)
  }
}
