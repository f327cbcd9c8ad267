/** CubeArea::split by cell count: a block of consecutive cells of an area, cut into boxes. */
module AreaBlocks {
  import opened Ids
  import opened Ranges
  import opened Areas
  import opened CubeAreas
  import opened PathIterators
  import Streams

  // ------------------------------------------------------------------------------------------
  // Areas as spaces
  // ------------------------------------------------------------------------------------------

  /** The ids of a range, in ascending order. */
  function RangeIds(low: nat, high: int): (ids: seq<nat>)
    decreases high - low
  {
    if low > high then [] else [low] + RangeIds(low + 1, high)
  }

  /** The ids of ranges, as an iterator over the set delivers them. */
  function IdsOf(rs: seq<Range>): seq<nat>
  {
    if rs == [] then [] else RangeIds(rs[0].low, rs[0].high) + IdsOf(rs[1..])
  }

  ghost predicate Ascending(ids: seq<nat>)
  {
    forall i, j :: 0 <= i < j < |ids| ==> ids[i] < ids[j]
  }

  lemma AscendConcat(a: seq<nat>, b: seq<nat>)
    requires Ascending(a) && Ascending(b) && forall x, y :: x in a && y in b ==> x < y
    ensures Ascending(a + b)
  {
    forall i, j | 0 <= i < j < |a + b|
      ensures (a + b)[i] < (a + b)[j]
    {
      if i < |a| <= j {
        assert a[i] in a && b[j - |a|] in b;
      }
    }
  }

  lemma {:induction false} RangeIdsAscend(low: nat, high: int)
    ensures Ascending(RangeIds(low, high))
    ensures forall x: int :: x in RangeIds(low, high) <==> low <= x <= high
    decreases high - low
  {
    if low <= high {
      RangeIdsAscend(low + 1, high);
      AscendConcat([low], RangeIds(low + 1, high));
    }
  }

  lemma {:induction false} IdsAscend(rs: seq<Range>)
    requires Canonical(rs)
    ensures Ascending(IdsOf(rs))
    ensures forall x: int :: x in IdsOf(rs) <==> In(rs, x)
  {
    if rs != [] {
      RangeIdsAscend(rs[0].low, rs[0].high);
      IdsAscend(rs[1..]);
      FirstBelow(rs);
      AscendConcat(RangeIds(rs[0].low, rs[0].high), IdsOf(rs[1..]));
      assert rs == [rs[0]] + rs[1..];
      forall x: int
        ensures x in IdsOf(rs) <==> In(rs, x)
      {
        InHead(rs, x);
      }
    }
  }

  lemma InHead(rs: seq<Range>, x: int)
    requires rs != []
    ensures In(rs, x) <==> rs[0].low <= x <= rs[0].high || In(rs[1..], x)
  {
    if In(rs, x) {
      var i :| 0 <= i < |rs| && rs[i].low <= x <= rs[i].high;
      assert i > 0 ==> rs[1..][i - 1] == rs[i];
    }
    if In(rs[1..], x) {
      var i :| 0 <= i < |rs[1..]| && rs[1..][i].low <= x <= rs[1..][i].high;
      assert rs[i + 1] == rs[1..][i];
    }
    if rs[0].low <= x <= rs[0].high {
      assert rs[0] == rs[0];
    }
  }

  lemma FirstBelow(rs: seq<Range>)
    requires Canonical(rs) && rs != []
    ensures forall x: int :: In(rs[1..], x) ==> rs[0].high < x
  {
    forall x: int | In(rs[1..], x)
      ensures rs[0].high < x
    {
      var i :| 0 <= i < |rs[1..]| && rs[1..][i].low <= x <= rs[1..][i].high;
      assert rs[i + 1] == rs[1..][i];
    }
  }

  /** The elements of the area, dimension by dimension. */
  function SpaceOf(a: Area): (space: Space)
    ensures |space| == |a| && forall i :: 0 <= i < |a| ==> space[i] == IdsOf(a[i].ranges)
  {
    seq(|a|, i requires 0 <= i < |a| => IdsOf(a[i].ranges))
  }

  /** The space has the area's cells, in the same order. */
  lemma SpaceCells(a: Area)
    requires ValidArea(a)
    ensures ValidSpace(SpaceOf(a))
    ensures forall p :: KeyIn(SpaceOf(a), p) <==> InBox(a, p)
  {
    hide In;
    forall d | 0 <= d < |a|
      ensures ValidDim(SpaceOf(a)[d])
      ensures forall x: int :: x in SpaceOf(a)[d] <==> In(a[d].ranges, x)
    {
      IdsAscend(a[d].ranges);
      DimOfSet(a[d]);
    }
  }

  lemma DimOfSet(s: RangeSet)
    requires s.Valid() && s.ranges != []
    requires Ascending(IdsOf(s.ranges)) && forall x: int :: x in IdsOf(s.ranges) <==> In(s.ranges, x)
    ensures ValidDim(IdsOf(s.ranges))
  {
    var ids := IdsOf(s.ranges);
    CanonicalAt(s.ranges, 0);
    InFirst(s.ranges, s.ranges[0].low);
    assert s.ranges[0].low in ids;
    forall i | 0 <= i < |ids|
      ensures ids[i] <= NO_IDENTIFIER
    {
      assert ids[i] in ids;
      var j :| 0 <= j < |s.ranges| && s.ranges[j].low <= ids[i] <= s.ranges[j].high;
      assert Proper(s.ranges[j]);
    }
  }

  // ------------------------------------------------------------------------------------------
  // Blocks
  // ------------------------------------------------------------------------------------------

  /** The boxes hold exactly the cells at the positions from the first up to, not including, the limit. */
  ghost predicate Block(a: Area, l: seq<Area>, first: nat, limit: nat)
  {
    && ValidSpace(SpaceOf(a)) && PairwiseDisjoint(l) && first <= limit <= Size(SpaceOf(a))
    && (forall n: nat :: n < Size(SpaceOf(a)) ==> (InList(l, KeyAt(SpaceOf(a), n)) <==> first <= n < limit))
    && (forall p :: InList(l, p) ==> InBox(a, p))
  }

  /**
   * split(begin, cellCount, toTheEnd): the cell at begin and cellCount further ones, so cellCount + 1
   * in all; everything to the end if there are not that many, which the flag tells, or if the count
   * is 0; and nothing if begin is the end.
   */
  method SplitCells(a: Area, begin: PathIterator, cellCount: nat) returns (areaList: seq<Area>, toTheEnd: bool)
    requires ValidArea(a) && begin.Valid() && begin.space == SpaceOf(a)
    ensures toTheEnd <==> begin.end || cellCount == 0 || begin.GetPosition() + cellCount >= Size(begin.space)
    ensures Block(a, areaList, begin.GetPosition(),
      if toTheEnd then Size(begin.space) else begin.GetPosition() + cellCount + 1)
    ensures begin.end ==> areaList == []
  {
    hide Position, Size, SpaceOf, ValidSpace, KeyAt, InBox, InList, ValidArea, SplitBounds, SplitsInto, PairwiseDisjoint, PositionOf,
      KeyIn, Block;
    SpaceCells(a);
    areaList, toTheEnd := [], false;
    if !begin.end {
      begin.IdsAtPosition();
      var stop: Key := seq(|a|, _ => NO_IDENTIFIER);
      if cellCount == 0 {
        toTheEnd := true;
      } else {
        var end := begin.Plus(cellCount);
        if end.end {
          toTheEnd := true;
        } else {
          end.IdsAtPosition();
          stop := end.ids;
        }
      }
      BlockBounds(a, begin.GetPosition(), cellCount, toTheEnd, begin.ids, stop);
      areaList := Split(a, begin.ids, stop, 0);
      SplitIsBlock(a, begin.GetPosition(), cellCount, toTheEnd, begin.ids, stop, areaList);
    } else {
      toTheEnd := true;
      NoBlock(a);
    }
  }

  /** Begin and stop of a block, as the keys of its first and last cell or with nothing to stop at. */
  ghost predicate BlockKeys(a: Area, first: nat, cellCount: nat, toTheEnd: bool, start: Key, stop: Key)
  {
    && ValidSpace(SpaceOf(a)) && first < Size(SpaceOf(a)) && start == KeyAt(SpaceOf(a), first)
    && if toTheEnd then |stop| == |a| && forall i :: 0 <= i < |a| ==> stop[i] == NO_IDENTIFIER
       else first + cellCount < Size(SpaceOf(a)) && stop == KeyAt(SpaceOf(a), first + cellCount)
  }

  lemma KeyInBox(a: Area, n: nat)
    requires ValidArea(a) && ValidSpace(SpaceOf(a)) && n < Size(SpaceOf(a))
    ensures InBox(a, KeyAt(SpaceOf(a), n)) && Streams.ValidKey(KeyAt(SpaceOf(a), n), |a|)
  {
    var space := SpaceOf(a);
    SpaceCells(a);
    PositionOfPath(space, n, 0, []);
    var path := PathAtFrom(space, n, 0);
    assert [] + path == path;
    KeyValid(space, path);
    assert KeyIn(space, KeyOf(space, path));
  }

  lemma BlockBounds(a: Area, first: nat, cellCount: nat, toTheEnd: bool, start: Key, stop: Key)
    requires ValidArea(a) && BlockKeys(a, first, cellCount, toTheEnd, start, stop)
    ensures SplitBounds(a, start, stop, 0)
  {
    hide SpaceOf, KeyAt, Size, ValidSpace, ValidArea, InBox, LexLe, Streams.Rank, SplitBounds;
    KeyInBox(a, first);
    if !toTheEnd {
      KeyInBox(a, first + cellCount);
      KeyAtOrder(SpaceOf(a), first, first + cellCount);
      Streams.RankOrder(start, stop, |a|);
    }
    CellBounds(a, start, stop);
  }

  lemma SplitIsBlock(a: Area, first: nat, cellCount: nat, toTheEnd: bool, start: Key, stop: Key, l: seq<Area>)
    requires ValidArea(a) && BlockKeys(a, first, cellCount, toTheEnd, start, stop)
    requires |start| == |stop| == |a| && SplitsInto(a, start, stop, 0, l)
    ensures Block(a, l, first, if toTheEnd then Size(SpaceOf(a)) else first + cellCount + 1)
  {
    hide SpaceOf, KeyAt, Size, ValidSpace, ValidArea, InBox, LexLe, InList, Streams.Rank, PairwiseDisjoint, CubeAreas.Between;
    forall n: nat | n < Size(SpaceOf(a))
      ensures InList(l, KeyAt(SpaceOf(a), n)) <==> first <= n && (toTheEnd || n <= first + cellCount)
    {
      var p := KeyAt(SpaceOf(a), n);
      KeyInBox(a, n);
      KeyInBox(a, first);
      KeyAtOrder(SpaceOf(a), first, n);
      Streams.RankOrder(start, p, |a|);
      SplitIsLexInterval(a, start, stop, l, p);
      if toTheEnd {
        AllBoxBounds(a, p);
        PointwiseLexLe(p, stop, 0);
        LexLeAll(p, stop);
      } else {
        KeyInBox(a, first + cellCount);
        KeyAtOrder(SpaceOf(a), n, first + cellCount);
        Streams.RankOrder(p, stop, |a|);
      }
    }
  }

  lemma LexLeAll(x: Key, y: Key)
    requires |x| == |y| && LexLeFrom(x, y, 0)
    ensures LexLe(x, y)
  {
  }

  lemma NoBlock(a: Area)
    requires ValidArea(a)
    ensures Block(a, [], Size(SpaceOf(a)), Size(SpaceOf(a)))
  {
    SpaceCells(a);
  }
}
