/** FilteredReader: the cells of an area whose value meets a condition, missing cells counting as null. */
module FilteredReaders {
  import opened Ids
  import opened Streams
  import opened CellLists
  import opened PathIterators
  import opened Completes

  type Condition = CellValue -> bool

  /** Cell n of the area meets the condition. */
  ghost predicate Meets(space: Space, cells: seq<Cell>, condition: Condition, n: nat)
    requires ValidSpace(space) && n < Size(space)
  {
    condition(Completed(space, cells, Null, n))
  }

  ghost function OneCell(space: Space, cells: seq<Cell>, condition: Condition, n: nat): seq<Cell>
    requires ValidSpace(space) && n < Size(space)
  {
    if Meets(space, cells, condition, n) then [Cell(KeyAt(space, n), Completed(space, cells, Null, n))] else []
  }

  /** The wanted result: of the first n cells of the area, in order, those that meet the condition. */
  ghost function Filtered(space: Space, cells: seq<Cell>, condition: Condition, n: nat): seq<Cell>
    requires ValidSpace(space) && n <= Size(space)
  {
    if n == 0 then [] else Filtered(space, cells, condition, n - 1) + OneCell(space, cells, condition, n - 1)
  }

  /** The first n cells filtered: in ascending order, those whose value, empty where the stream has none, meets the condition. */
  lemma {:induction false} FilteredCells(space: Space, cells: seq<Cell>, condition: Condition, n: nat)
    requires ValidSpace(space) && n <= Size(space)
    ensures Ascends(Filtered(space, cells, condition, n))
    ensures forall c :: c in Filtered(space, cells, condition, n) <==>
      exists k :: 0 <= k < n && KeyAt(space, k) == c.key && c.value == ValueAt(cells, Rank(c.key)).GetOr(Null) && condition(c.value)
  {
    hide Rank, KeyAt, ValueAt, Size, ValidSpace;
    if n > 0 {
      FilteredCells(space, cells, condition, n - 1);
      var before := Filtered(space, cells, condition, n - 1);
      forall c | c in before
        ensures Rank(c.key) < Rank(KeyAt(space, n - 1))
      {
        var k :| 0 <= k < n - 1 && KeyAt(space, k) == c.key;
        KeyAtOrder(space, k, n - 1);
      }
      assert forall i :: 0 <= i < |before| ==> before[i] in before;
    }
  }

  lemma {:induction false} FilteredSame(space: Space, cells: seq<Cell>, condition: Condition, m: nat, n: nat)
    requires ValidSpace(space) && m <= n <= Size(space)
    requires forall k :: m <= k < n ==> !Meets(space, cells, condition, k)
    ensures Filtered(space, cells, condition, n) == Filtered(space, cells, condition, m)
    decreases n
  {
    if m < n {
      FilteredSame(space, cells, condition, m, n - 1);
    }
  }

  class FilteredReader {
    const condition: Condition
    const stream: Stream
    const area: Space
    const generateEmpty: bool
    const pathIt: PathIterator
    var init: bool
    var fromStream: bool
    var streamEnd: bool

    ghost predicate Valid()
      reads this, stream, pathIt
    {
      && area != [] && ValidSpace(area) && (generateEmpty <==> condition(Null))
      && stream.Valid() && stream.dims == |area| && CellsIn(area, stream.cells)
      && pathIt.Valid() && pathIt.space == area
    }

    /** The place of the source against the path, once the source has been started. */
    ghost predicate InState()
      requires Valid()
      reads this, stream, pathIt
    {
      if !generateEmpty then fromStream
      else if init then stream.pos == -1 && !pathIt.end && pathIt.GetPosition() == 0
      else
        && 0 <= stream.pos && (streamEnd <==> stream.pos == |stream.cells|)
        && pathIt.GetPosition() <= PositionAt(area, stream.cells, stream.pos)
        && (stream.pos > 0 ==> PositionAt(area, stream.cells, stream.pos - 1) < pathIt.GetPosition())
    }

    /** The number of cells of the area dealt with so far. */
    ghost function Passed(): nat
      requires Valid()
      reads this, stream, pathIt
    {
      if generateEmpty then
        if init then 0 else if pathIt.end then Size(area) else pathIt.GetPosition() + 1
      else if stream.pos == -1 then 0
      else if stream.pos == |stream.cells| then Size(area) else PositionAt(area, stream.cells, stream.pos) + 1
    }

    function GetKey(): Key
      requires fromStream ==> -1 <= stream.pos < |stream.cells|
      reads this, stream, pathIt
    {
      if fromStream then stream.GetKey() else pathIt.ids
    }

    function GetValue(): CellValue
      requires fromStream ==> 0 <= stream.pos < |stream.cells|
      reads this, stream
    {
      if fromStream then stream.GetValue() else Null
    }

    /** The reader stands at cell n, which meets the condition. */
    ghost predicate DeliversAt(n: nat)
      requires Valid()
      reads this, stream, pathIt
    {
      && n < Size(area) && Meets(area, stream.cells, condition, n)
      && (fromStream ==> 0 <= stream.pos < |stream.cells|)
      && GetKey() == KeyAt(area, n) && GetValue() == Completed(area, stream.cells, Null, n)
    }

    /** No cell from m on, and before n, meets the condition. */
    ghost predicate NoneBetween(m: nat, n: nat)
      requires Valid()
      reads this, stream, pathIt
    {
      n <= Size(area) && forall k :: m <= k < n ==> !Meets(area, stream.cells, condition, k)
    }

    constructor (stream: Stream, condition: Condition, area: Space)
      requires area != [] && ValidSpace(area)
      requires stream.Valid() && stream.dims == |area| && CellsIn(area, stream.cells) && stream.pos == -1
      ensures Valid() && InState() && Passed() == 0 && fresh(pathIt)
      ensures this.stream == stream && this.condition == condition && this.area == area
    {
      this.stream, this.condition, this.area := stream, condition, area;
      generateEmpty := condition(Null);
      pathIt := new PathIterator.Begin(area);
      init, fromStream, streamEnd := true, true, false;
    }

    /** The cell under the path is missing in the source. */
    lemma MissingHere()
      requires Valid() && InState() && generateEmpty && !init && !pathIt.end
      requires pathIt.GetPosition() < PositionAt(area, stream.cells, stream.pos) <= Size(area)
      ensures pathIt.GetPosition() < Size(area) && pathIt.ids == KeyAt(area, pathIt.GetPosition())
      ensures Completed(area, stream.cells, Null, pathIt.GetPosition()) == Null
    {
      pathIt.IdsAtPosition();
      CompletedBetween(area, stream.cells, Null, stream.pos, pathIt.GetPosition());
    }

    /** How the key under the path compares to the one of the source, and what is under the path then. */
    lemma Standing()
      requires Valid() && InState() && generateEmpty && !init && !pathIt.end
      ensures pathIt.GetPosition() < Size(area) && ValidKey(pathIt.ids, |area|) && pathIt.ids == KeyAt(area, pathIt.GetPosition())
      ensures var n := pathIt.GetPosition();
              if streamEnd || n < PositionAt(area, stream.cells, stream.pos)
              then Completed(area, stream.cells, Null, n) == Null
              else Completed(area, stream.cells, Null, n) == stream.GetValue() && pathIt.ids == stream.GetKey()
      ensures !streamEnd && pathIt.GetPosition() < PositionAt(area, stream.cells, stream.pos) ==>
        Rank(pathIt.ids) < Rank(stream.GetKey())
    {
      hide Rank, Position, Size, KeyAt, KeyIn, PositionAt, ValidSpace, CellsIn, Completed;
      var n := pathIt.GetPosition();
      pathIt.IdsAtPosition();
      AreaKeyValid(area, n);
      if streamEnd {
        EndPosition(area, stream.cells);
        MissingHere();
      } else {
        CompletedHere(area, stream.cells, Null, stream.pos);
        if n < PositionAt(area, stream.cells, stream.pos) {
          MissingHere();
          KeyAtOrder(area, n, PositionAt(area, stream.cells, stream.pos));
        }
      }
    }

    /** From the cell under the path to the next one of the area; the source follows. */
    method StepPath()
      requires Valid() && InState() && generateEmpty && !init && !pathIt.end
      modifies this`streamEnd, stream, pathIt
      ensures Valid() && InState() && pathIt.GetPosition() == old(pathIt.GetPosition()) + 1
    {
      hide Rank, Position, Size, KeyAt, KeyIn, PositionAt, ValidSpace, CellsIn, Completed, SortedCells;
      Standing();
      NextPosition(area, stream.cells, stream.pos);
      if !streamEnd && pathIt.ids == stream.GetKey() {
        var more := stream.Next();
        streamEnd := !more;
      }
      EndPosition(area, stream.cells);
      pathIt.Increment();
    }

    /** To the first cell of the area, or from one to the next. */
    method Advance()
      requires Valid() && InState() && generateEmpty && !pathIt.end
      modifies this`init, this`streamEnd, stream, pathIt
      ensures Valid() && InState() && !init
      ensures Passed() == old(Passed()) + (if pathIt.end then 0 else 1)
      ensures pathIt.end ==> Passed() == Size(area)
    {
      hide Rank, Position, Size, KeyAt, KeyIn, PositionAt, ValidSpace, CellsIn, Completed;
      if init {
        var more := stream.Next();
        streamEnd := !more;
        init := false;
        FirstPosition(area, stream.cells);
      } else {
        StepPath();
        AtEnd();
      }
    }

    /** Whether the cell the path stands at is delivered, as a cell of the stream or as a missing one. */
    method TestHere() returns (delivers: bool)
      requires Valid() && InState() && generateEmpty && !init && !pathIt.end
      modifies this`fromStream
      ensures Valid() && InState() && Passed() == old(Passed()) == pathIt.GetPosition() + 1 <= Size(area)
      ensures delivers ==> DeliversAt(Passed() - 1)
      ensures !delivers ==> !Meets(area, stream.cells, condition, pathIt.GetPosition())
    {
      hide Rank, Position, Size, KeyAt, KeyIn, PositionAt, ValidSpace, CellsIn, Completed, Meets;
      hide FilteredReader.DeliversAt;
      Standing();
      var diff := -1;
      if !streamEnd {
        diff := CompareStreamKeys(pathIt.ids, stream.GetKey(), |area|);
      }
      if streamEnd || diff < 0 {
        fromStream := false;
        DeliversHere();
        return true;
      } else if !streamEnd && condition(stream.GetValue()) {
        fromStream := true;
        DeliversHere();
        return true;
      }
      NotHere();
      delivers := false;
    }

    /** next, when missing cells meet the condition: along all cells of the area. */
    method NextOfArea() returns (result: bool)
      requires Valid() && InState() && generateEmpty
      modifies this`init, this`fromStream, this`streamEnd, stream, pathIt
      ensures Valid() && InState() && old(Passed()) <= Passed()
      ensures result ==> Passed() > 0 && DeliversAt(Passed() - 1) && old(Passed()) < Passed()
      ensures NoneBetween(old(Passed()), if result then Passed() - 1 else Passed())
      ensures !result ==> Passed() == Size(area)
    {
      hide Rank, Position, Size, KeyAt, KeyIn, PositionAt, ValidSpace, CellsIn, Completed, Meets;
      hide FilteredReader.DeliversAt;
      result := false;
      if !pathIt.end {
        PassedBound();
        while true
          invariant Valid() && InState() && !pathIt.end && !result
          invariant old(Passed()) <= Passed() <= Size(area) && NoneBetween(old(Passed()), Passed())
          decreases Size(area) - Passed()
        {
          Advance();
          if pathIt.end {
            break;
          }
          result := TestHere();
          if result {
            break;
          }
        }
      }
    }

    lemma DeliversHere()
      requires Valid() && InState() && generateEmpty && !init && !pathIt.end
      requires fromStream <==> !(streamEnd || pathIt.GetPosition() < PositionAt(area, stream.cells, stream.pos))
      requires fromStream ==> condition(stream.GetValue())
      ensures Passed() == pathIt.GetPosition() + 1 && DeliversAt(Passed() - 1)
    {
      hide Rank, Position, Size, KeyAt, KeyIn, PositionAt, ValidSpace, CellsIn, Completed;
      Standing();
    }

    lemma NotHere()
      requires Valid() && InState() && generateEmpty && !init && !pathIt.end
      requires !streamEnd && pathIt.GetPosition() == PositionAt(area, stream.cells, stream.pos)
      requires !condition(stream.GetValue())
      ensures Passed() == pathIt.GetPosition() + 1 <= Size(area)
      ensures !Meets(area, stream.cells, condition, pathIt.GetPosition())
    {
      hide Rank, Position, Size, KeyAt, KeyIn, PositionAt, ValidSpace, CellsIn, Completed;
      Standing();
    }

    lemma PassedBound()
      requires Valid() && InState() && generateEmpty
      ensures Passed() <= Size(area)
    {
      if !init && !pathIt.end {
        Standing();
      }
    }

    lemma AtEnd()
      requires Valid()
      ensures pathIt.end ==> pathIt.GetPosition() == Size(area)
    {
    }

    /** next, when missing cells do not meet the condition: along the cells of the source. */
    method NextOfStream() returns (result: bool)
      requires Valid() && InState() && !generateEmpty
      modifies stream
      ensures Valid() && InState() && old(Passed()) <= Passed()
      ensures result ==> Passed() > 0 && DeliversAt(Passed() - 1) && old(Passed()) < Passed()
      ensures NoneBetween(old(Passed()), if result then Passed() - 1 else Passed())
      ensures !result ==> Passed() == Size(area)
    {
      hide Rank, Position, Size, KeyAt, KeyIn, PositionAt, ValidSpace, CellsIn, Completed;
      ghost var last := stream.pos;
      var more := stream.Next();
      NoneUpTo(last);
      while more
        invariant Valid() && InState() && last <= |stream.cells|
        invariant stream.pos == if last < |stream.cells| then last + 1 else last
        invariant more <==> stream.pos < |stream.cells|
        invariant old(Passed()) <= PassedAt(last) && NoneBetween(old(Passed()), PassedAt(last))
        invariant NoneBetween(PassedAt(last), NextAt(last)) && PassedAt(last) <= NextAt(last)
        decreases |stream.cells| - stream.pos
      {
        CompletedHere(area, stream.cells, Null, stream.pos);
        if condition(stream.GetValue()) {
          return true;
        }
        last := stream.pos;
        more := stream.Next();
        NoneUpTo(last);
      }
      EndPosition(area, stream.cells);
      result := false;
    }

    ghost function PassedAt(pos: int): nat
      requires Valid() && -1 <= pos <= |stream.cells|
      reads this, stream, pathIt
    {
      if pos == -1 then 0 else if pos == |stream.cells| then Size(area) else PositionAt(area, stream.cells, pos) + 1
    }

    ghost function NextAt(pos: int): nat
      requires Valid() && -1 <= pos <= |stream.cells|
      reads this, stream, pathIt
    {
      if pos == |stream.cells| then Size(area) else PositionAt(area, stream.cells, pos + 1)
    }

    /** Between two cells of the source all cells are missing. */
    lemma NoneUpTo(pos: int)
      requires Valid() && !generateEmpty && -1 <= pos <= |stream.cells|
      ensures PassedAt(pos) <= NextAt(pos) && NoneBetween(PassedAt(pos), NextAt(pos))
    {
      hide Rank, Position, KeyAt, KeyIn, ValidSpace, CellsIn, Completed;
      NextPosition(area, stream.cells, pos);
      if pos < |stream.cells| {
        forall k | PassedAt(pos) <= k < NextAt(pos)
          ensures !Meets(area, stream.cells, condition, k)
        {
          CompletedBetween(area, stream.cells, Null, pos + 1, k);
        }
      }
    }

    /** next: the next cell of the area, in order, that meets the condition. */
    method Next() returns (result: bool)
      requires Valid() && InState()
      modifies this`init, this`fromStream, this`streamEnd, stream, pathIt
      ensures Valid() && InState() && old(Passed()) <= Passed()
      ensures result ==> Passed() > 0 && DeliversAt(Passed() - 1) && old(Passed()) < Passed()
      ensures NoneBetween(old(Passed()), if result then Passed() - 1 else Passed())
      ensures !result ==> Passed() == Size(area)
    {
      hide Rank, Position, Size, KeyAt, KeyIn, PositionAt, ValidSpace, CellsIn, Completed, Meets;
      hide FilteredReader.Passed, FilteredReader.InState, FilteredReader.DeliversAt, FilteredReader.NoneBetween;
      hide FilteredReader.Valid;
      if generateEmpty {
        result := NextOfArea();
      } else {
        result := NextOfStream();
      }
    }

    /** The whole stream: exactly the cells of the area that meet the condition, in order. */
    method ReadAll() returns (cells: seq<Cell>)
      requires Valid() && InState() && Passed() == 0
      modifies this`init, this`fromStream, this`streamEnd, stream, pathIt
      ensures cells == Filtered(area, stream.cells, condition, Size(area)) && Ascends(cells)
      ensures forall c :: c in cells <==> exists k ::
        0 <= k < Size(area) && KeyAt(area, k) == c.key && c.value == ValueAt(stream.cells, Rank(c.key)).GetOr(Null) && condition(c.value)
    {
      hide Rank, Position, Size, KeyAt, KeyIn, PositionAt, ValidSpace, CellsIn, Completed, Meets, ValueAt, Ascends;
      cells := [];
      ghost var done := 0;
      var more := Next();
      while more
        invariant Valid() && InState() && done <= Passed() <= Size(area)
        invariant cells == Filtered(area, stream.cells, condition, done)
        invariant more ==> done < Passed() && DeliversAt(Passed() - 1)
        invariant NoneBetween(done, if more then Passed() - 1 else Passed())
        invariant !more ==> Passed() == Size(area)
        decreases Size(area) - done, more
      {
        FilteredSame(area, stream.cells, condition, done, Passed() - 1);
        cells := cells + [Cell(GetKey(), GetValue())];
        done := Passed();
        more := Next();
      }
      FilteredSame(area, stream.cells, condition, done, Passed());
      FilteredCells(area, stream.cells, condition, Size(area));
    }
  }

  lemma AreaKeyValid(space: Space, n: nat)
    requires ValidSpace(space) && n < Size(space)
    ensures ValidKey(KeyAt(space, n), |space|)
  {
    hide PositionFrom, SizeFrom, PathAtFrom;
    PositionOfPath(space, n, 0, []);
    assert [] + PathAtFrom(space, n, 0) == PathAtFrom(space, n, 0);
    KeyValid(space, PathAtFrom(space, n, 0));
  }

  lemma FirstPosition(space: Space, cells: seq<Cell>)
    requires ValidSpace(space) && CellsIn(space, cells)
    ensures 0 <= PositionAt(space, cells, 0) <= Size(space)
  {
    NextPosition(space, cells, -1);
  }
}
