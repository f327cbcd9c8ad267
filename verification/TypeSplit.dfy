/** Splitting an area by cell type: string, numeric and consolidated boxes. */
module TypeSplit {
  import opened Ids
  import opened Ranges
  import opened Wrappers
  import opened Areas
  import opened IdSets

  /** The types of live elements; a deleted element has left the id map, so that no lookup finds it. */
  datatype ElementType = Numeric | String | Consolidated

  datatype Element = Element(kind: ElementType, stringConsolidation: bool)

  /** A dimension: virtual ones have no stored elements, and all their ids are numeric. */
  datatype Dimension = VirtualDimension | StoredDimension(elements: map<int, Element>)

  datatype CellType = BaseNumeric | BaseString | ConsolidatedCell

  predicate Known(d: Dimension, x: int)
  {
    d.VirtualDimension? || x in d.elements
  }

  predicate IsString(d: Dimension, x: int)
    requires Known(d, x)
  {
    d.StoredDimension? && (d.elements[x].kind == String || d.elements[x].stringConsolidation)
  }

  /** What the splitting treats as a numeric id: anything but strings if the cube does not aggregate. */
  predicate IsNumeric(d: Dimension, aggregates: bool, x: int)
    requires Known(d, x)
  {
    d.VirtualDimension? || (!IsString(d, x) && (d.elements[x].kind == Numeric || !aggregates))
  }

  predicate StringId(d: Dimension, x: int)
  {
    Known(d, x) && IsString(d, x)
  }

  predicate NonStringId(d: Dimension, x: int)
  {
    Known(d, x) && !IsString(d, x)
  }

  predicate NumericId(d: Dimension, aggregates: bool, x: int)
  {
    Known(d, x) && IsNumeric(d, aggregates, x)
  }

  predicate ConsolidatedId(d: Dimension, aggregates: bool, x: int)
  {
    Known(d, x) && !IsString(d, x) && !IsNumeric(d, aggregates, x)
  }

  /** A cell with an element in every dimension. */
  ghost predicate KnownCell(dims: seq<Dimension>, p: Key)
  {
    |p| == |dims| && forall i :: 0 <= i < |p| ==> Known(dims[i], p[i])
  }

  /** One component of the cell is a string element, and all components before it are elements. */
  ghost predicate StringFirst(dims: seq<Dimension>, p: Key)
  {
    |p| == |dims| && exists i :: 0 <= i < |p| && StringId(dims[i], p[i]) && forall j :: 0 <= j < i ==> Known(dims[j], p[j])
  }

  /** One component of the cell is a string element. */
  ghost predicate HasString(dims: seq<Dimension>, p: Key)
  {
    |p| == |dims| && exists i :: 0 <= i < |p| && StringId(dims[i], p[i])
  }

  /** One component of the cell is a consolidated element of an aggregating cube, and no string. */
  ghost predicate HasConsolidated(dims: seq<Dimension>, aggregates: bool, p: Key)
  {
    |p| == |dims| && exists i :: 0 <= i < |p| && ConsolidatedId(dims[i], aggregates, p[i])
  }

  /**
   * The cell's type: a string element makes it a string, and one that is reached before any unknown
   * id decides; an unknown id is an error; else one consolidated element aggregates the cell.
   */
  ghost function TypeOf(dims: seq<Dimension>, aggregates: bool, p: Key): Result<CellType>
  {
    if StringFirst(dims, p) then Success(BaseString)
    else if !KnownCell(dims, p) then Failure("element not found")
    else if HasConsolidated(dims, aggregates, p) then Success(ConsolidatedCell)
    else Success(BaseNumeric)
  }

  /** The type, said by the elements' own fields. */
  lemma TypeByFields(dims: seq<Dimension>, aggregates: bool, p: Key)
    requires |p| == |dims|
    ensures TypeOf(dims, aggregates, p) == Success(BaseString) <==>
      exists i :: 0 <= i < |p| && dims[i].StoredDimension? && p[i] in dims[i].elements
        && (dims[i].elements[p[i]].kind == String || dims[i].elements[p[i]].stringConsolidation)
        && forall j :: 0 <= j < i && dims[j].StoredDimension? ==> p[j] in dims[j].elements
    ensures TypeOf(dims, aggregates, p) == Success(BaseNumeric) || TypeOf(dims, aggregates, p) == Success(ConsolidatedCell) <==>
      forall i :: 0 <= i < |p| && dims[i].StoredDimension? ==>
        p[i] in dims[i].elements && dims[i].elements[p[i]].kind != String && !dims[i].elements[p[i]].stringConsolidation
    ensures TypeOf(dims, aggregates, p) == Success(BaseNumeric) ==>
      !aggregates || forall i :: 0 <= i < |p| && dims[i].StoredDimension? ==> dims[i].elements[p[i]].kind == Numeric
    ensures TypeOf(dims, aggregates, p) == Success(ConsolidatedCell) ==>
      aggregates && exists i :: 0 <= i < |p| && dims[i].StoredDimension? && dims[i].elements[p[i]].kind == Consolidated
  {
    var t := TypeOf(dims, aggregates, p);
    forall i | 0 <= i < |p| && dims[i].StoredDimension? && p[i] in dims[i].elements
      ensures StringId(dims[i], p[i]) <==> dims[i].elements[p[i]].kind == String || dims[i].elements[p[i]].stringConsolidation
    {
    }
    if t.Success? && t != Success(BaseString) {
      forall i | 0 <= i < |p| && dims[i].StoredDimension?
        ensures p[i] in dims[i].elements && dims[i].elements[p[i]].kind != String && !dims[i].elements[p[i]].stringConsolidation
      {
        assert Known(dims[i], p[i]);
        assert !StringId(dims[i], p[i]);
      }
    }
    if t == Success(BaseNumeric) && aggregates {
      forall i | 0 <= i < |p| && dims[i].StoredDimension?
        ensures dims[i].elements[p[i]].kind == Numeric
      {
        assert !ConsolidatedId(dims[i], aggregates, p[i]);
      }
    }
  }

  method GetType(dims: seq<Dimension>, aggregates: bool, p: Key) returns (t: Result<CellType>)
    requires |p| == |dims|
    ensures t == TypeOf(dims, aggregates, p)
  {
    var pt := BaseNumeric;
    for i := 0 to |p|
      invariant pt == BaseNumeric || pt == ConsolidatedCell
      invariant forall j :: 0 <= j < i ==> Known(dims[j], p[j]) && !StringId(dims[j], p[j])
      invariant pt == ConsolidatedCell <==> exists j :: 0 <= j < i && ConsolidatedId(dims[j], aggregates, p[j])
    {
      var kind, stringConsolidation := Numeric, false;
      if dims[i].StoredDimension? {
        if p[i] !in dims[i].elements {
          return Failure("element not found");
        }
        kind := dims[i].elements[p[i]].kind;
        stringConsolidation := dims[i].elements[p[i]].stringConsolidation;
      }
      if kind == String || stringConsolidation {
        assert StringId(dims[i], p[i]);
        return Success(BaseString);
      } else if aggregates && kind == Consolidated {
        pt := ConsolidatedCell;
      }
    }
    t := Success(pt);
  }

  // ------------------------------------------------------------------------------------------
  // One dimension
  // ------------------------------------------------------------------------------------------

  /** Either no set at all and no such id, or the valid nonempty set of exactly the ids chosen. */
  ghost predicate Chosen(o: Option<RangeSet>, s: RangeSet, chosen: int -> bool)
  {
    match o
    case None => forall x :: In(s.ranges, x) ==> !chosen(x)
    case Some(v) => v.Valid() && v.ranges != [] && forall x :: In(v.ranges, x) <==> In(s.ranges, x) && chosen(x)
  }

  function StringIds(d: Dimension): int -> bool
  {
    x => StringId(d, x)
  }

  function NonStringIds(d: Dimension): int -> bool
  {
    x => NonStringId(d, x)
  }

  function NumericIds(d: Dimension, aggregates: bool): int -> bool
  {
    x => NumericId(d, aggregates, x)
  }

  function ConsolidatedIds(d: Dimension, aggregates: bool): int -> bool
  {
    x => ConsolidatedId(d, aggregates, x)
  }

  /** Either no set and nothing chosen among the ids seen, or the valid set of exactly those chosen. */
  ghost predicate Holds(o: Option<RangeSet>, seen: iset<int>, chosen: int -> bool)
  {
    match o
    case None => forall x :: x in seen ==> !chosen(x)
    case Some(v) => v.Valid() && v.ranges != [] && forall x :: In(v.ranges, x) <==> x in seen && chosen(x)
  }

  /** An id that is not chosen changes nothing. */
  lemma HoldsSkip(o: Option<RangeSet>, seen: iset<int>, chosen: int -> bool, id: int)
    requires Holds(o, seen, chosen) && !chosen(id)
    ensures Holds(o, seen + iset{id}, chosen)
  {
    hide In;
  }

  lemma HoldsAll(o: Option<RangeSet>, seen: iset<int>, all: RangeSet, chosen: int -> bool)
    requires Holds(o, seen, chosen) && forall x :: x in seen <==> In(all.ranges, x)
    ensures Chosen(o, all, chosen)
  {
    hide In;
  }

  /** Inserts a chosen id into its set, which is created on first use. */
  method AddChosen(o: Option<RangeSet>, id: nat, ghost seen: iset<int>, ghost chosen: int -> bool) returns (r: Option<RangeSet>)
    requires Holds(o, seen, chosen) && chosen(id) && id < NO_IDENTIFIER
    ensures Holds(r, seen + iset{id}, chosen)
  {
    hide In, Canonical, Count;
    InNone();
    var s: IdSet;
    if o.None? {
      s := new IdSet();
    } else {
      s := new IdSet.Copy(o.value);
    }
    var isNew := s.Insert(id);
    assert In(s.ranges, id);
    r := Some(s.Freeze());
  }

  /** The sets one dimension is split into. */
  datatype Parts = Parts(strings: Option<RangeSet>, others: Option<RangeSet>,
                         numerics: Option<RangeSet>, consolidated: Option<RangeSet>)

  ghost predicate PartsOf(d: Dimension, aggregates: bool, s: RangeSet, q: Parts)
  {
    && Chosen(q.strings, s, StringIds(d)) && Chosen(q.others, s, NonStringIds(d))
    && Chosen(q.numerics, s, NumericIds(d, aggregates)) && Chosen(q.consolidated, s, ConsolidatedIds(d, aggregates))
  }

  /** Sorts the elements of one dimension's set by type; ids without an element go nowhere. */
  method SplitDimension(d: Dimension, aggregates: bool, s: RangeSet) returns (q: Parts)
    requires s.Valid() && s.ranges != []
    ensures PartsOf(d, aggregates, s, q)
  {
    hide In, Canonical, Count, PartsOf, Sorts;
    if d.VirtualDimension? {
      VirtualParts(d, aggregates, s);
      return Parts(None, Some(s), Some(s), None);
    }
    q := Parts(None, None, None, None);
    var rs := s.ranges;
    ghost var seen: iset<int> := iset{};
    SortsNothing(d, aggregates);
    InNone();
    assert rs[..0] == [];
    for i := 0 to |rs|
      invariant forall x :: x in seen <==> In(rs[..i], x)
      invariant Sorts(d, aggregates, seen, q)
    {
      CanonicalAt(rs, i);
      q, seen := SortRange(d, aggregates, rs[i], q, seen);
      assert rs[..i + 1] == rs[..i] + [rs[i]];
      InAppendAll(rs[..i], rs[i]);
    }
    assert rs[..|rs|] == rs;
    SortsAll(d, aggregates, seen, s, q);
  }

  lemma VirtualParts(d: Dimension, aggregates: bool, s: RangeSet)
    requires d.VirtualDimension? && s.Valid() && s.ranges != []
    ensures PartsOf(d, aggregates, s, Parts(None, Some(s), Some(s), None))
  {
    hide In;
  }

  lemma SortsNothing(d: Dimension, aggregates: bool)
    ensures Sorts(d, aggregates, iset{}, Parts(None, None, None, None))
  {
  }

  lemma SortsAll(d: Dimension, aggregates: bool, seen: iset<int>, s: RangeSet, q: Parts)
    requires Sorts(d, aggregates, seen, q) && forall x :: x in seen <==> In(s.ranges, x)
    ensures PartsOf(d, aggregates, s, q)
  {
    hide In, Holds, Chosen;
    HoldsAll(q.strings, seen, s, StringIds(d));
    HoldsAll(q.others, seen, s, NonStringIds(d));
    HoldsAll(q.numerics, seen, s, NumericIds(d, aggregates));
    HoldsAll(q.consolidated, seen, s, ConsolidatedIds(d, aggregates));
  }

  /** The element loop over one range of the set. */
  method SortRange(d: Dimension, aggregates: bool, r: Range, q0: Parts, ghost seen: iset<int>)
      returns (q: Parts, ghost now: iset<int>)
    requires d.StoredDimension? && Proper(r)
    requires Sorts(d, aggregates, seen, q0)
    ensures Sorts(d, aggregates, now, q)
    ensures forall x :: x in now <==> x in seen || r.low <= x <= r.high
  {
    hide Sorts;
    q := q0;
    var id := r.low;
    now := seen;
    while id <= r.high
      invariant r.low <= id <= r.high + 1
      invariant forall x :: x in now <==> x in seen || r.low <= x < id
      invariant Sorts(d, aggregates, now, q)
    {
      q := SortElement(d, aggregates, id, q, now);
      now := now + iset{id};
      id := id + 1;
    }
  }

  ghost predicate Sorts(d: Dimension, aggregates: bool, seen: iset<int>, q: Parts)
  {
    && Holds(q.strings, seen, StringIds(d)) && Holds(q.others, seen, NonStringIds(d))
    && Holds(q.numerics, seen, NumericIds(d, aggregates)) && Holds(q.consolidated, seen, ConsolidatedIds(d, aggregates))
  }

  /** The loop body of SplitDimension: one element goes to the sets of its type, an unknown id is passed over. */
  method SortElement(d: Dimension, aggregates: bool, id: nat, q: Parts, ghost seen: iset<int>) returns (r: Parts)
    requires d.StoredDimension? && id < NO_IDENTIFIER && Sorts(d, aggregates, seen, q)
    ensures Sorts(d, aggregates, seen + iset{id}, r)
  {
    hide Holds;
    r := q;
    if id !in d.elements {
      HoldsSkip(q.strings, seen, StringIds(d), id);
      HoldsSkip(q.others, seen, NonStringIds(d), id);
      HoldsSkip(q.numerics, seen, NumericIds(d, aggregates), id);
      HoldsSkip(q.consolidated, seen, ConsolidatedIds(d, aggregates), id);
    } else if d.elements[id].kind == String || d.elements[id].stringConsolidation {
      var s := AddChosen(q.strings, id, seen, StringIds(d));
      r := r.(strings := s);
      HoldsSkip(q.others, seen, NonStringIds(d), id);
      HoldsSkip(q.numerics, seen, NumericIds(d, aggregates), id);
      HoldsSkip(q.consolidated, seen, ConsolidatedIds(d, aggregates), id);
    } else {
      HoldsSkip(q.strings, seen, StringIds(d), id);
      var s := AddChosen(q.others, id, seen, NonStringIds(d));
      r := r.(others := s);
      if d.elements[id].kind == Numeric || !aggregates {
        var s := AddChosen(q.numerics, id, seen, NumericIds(d, aggregates));
        r := r.(numerics := s);
        HoldsSkip(q.consolidated, seen, ConsolidatedIds(d, aggregates), id);
      } else {
        HoldsSkip(q.numerics, seen, NumericIds(d, aggregates), id);
        var s := AddChosen(q.consolidated, id, seen, ConsolidatedIds(d, aggregates));
        r := r.(consolidated := s);
      }
    }
  }

  // ------------------------------------------------------------------------------------------
  // All dimensions together
  // ------------------------------------------------------------------------------------------

  predicate OptIn(o: Option<RangeSet>, x: int)
  {
    o.Some? && In(o.value.ranges, x)
  }

  type Column = seq<Option<RangeSet>>

  ghost predicate ValidColumn(c: Column, n: nat)
  {
    |c| == n && forall i :: 0 <= i < n && c[i].Some? ==> c[i].value.Valid() && c[i].value.ranges != []
  }

  /** Cells whose component i is picked, with earlier ones from `before` and later ones from `after`. */
  ghost predicate StairAt(before: Column, pick: Column, after: Column, i: nat, p: Key)
    requires |before| == |pick| == |after|
  {
    && |p| == |pick| && i < |pick| && OptIn(pick[i], p[i])
    && (forall j :: 0 <= j < i ==> OptIn(before[j], p[j]))
    && (forall j :: i < j < |p| ==> OptIn(after[j], p[j]))
  }

  /** Cells on one of the first n stairs. */
  ghost predicate OnStairs(before: Column, pick: Column, after: Column, n: nat, p: Key)
    requires |before| == |pick| == |after|
  {
    exists i :: 0 <= i < n && StairAt(before, pick, after, i, p)
  }

  /**
   * The box of one stair, or none if some set it needs does not exist.
   */
  method StairBox(before: Column, pick: Column, after: Column, i: nat) returns (validArea: bool, newArea: Area)
    requires i < |pick| && pick[i].Some?
    requires ValidColumn(before, |pick|) && ValidColumn(pick, |pick|) && ValidColumn(after, |pick|)
    ensures validArea ==> |newArea| == |pick| && ValidArea(newArea)
    ensures forall p :: StairAt(before, pick, after, i, p) <==> validArea && InBox(newArea, p)
  {
    validArea, newArea := true, [];
    for j := 0 to |pick|
      invariant validArea && |newArea| == j
      invariant ValidArea(newArea)
      invariant forall k :: 0 <= k < j ==> Some(newArea[k]) == (if k < i then before[k] else if k == i then pick[k] else after[k])
    {
      hide In, Canonical, Count, InBox, StairAt;
      if j < i {
        if before[j].Some? {
          newArea := newArea + [before[j].value];
        } else {
          NoStair(before, pick, after, i, j);
          return false, newArea;
        }
      } else if j == i {
        newArea := newArea + [pick[j].value];
      } else {
        if after[j].Some? {
          newArea := newArea + [after[j].value];
        } else {
          NoStair(before, pick, after, i, j);
          return false, newArea;
        }
      }
    }
    StairCells(before, pick, after, i, newArea);
  }

  lemma NoStair(before: Column, pick: Column, after: Column, i: nat, j: nat)
    requires |before| == |pick| == |after| && i < |pick| && j < |pick|
    requires (j < i && before[j].None?) || (i < j && after[j].None?)
    ensures forall p :: !StairAt(before, pick, after, i, p)
  {
  }

  lemma StairCells(before: Column, pick: Column, after: Column, i: nat, newArea: Area)
    requires |before| == |pick| == |after| == |newArea| && i < |pick|
    requires forall k :: 0 <= k < |pick| ==> Some(newArea[k]) == (if k < i then before[k] else if k == i then pick[k] else after[k])
    ensures forall p :: StairAt(before, pick, after, i, p) <==> InBox(newArea, p)
  {
    hide In;
    forall p
      ensures StairAt(before, pick, after, i, p) <==> InBox(newArea, p)
    {
      assert |p| == |pick| ==> forall k :: 0 <= k < |pick| ==>
        (In(newArea[k].ranges, p[k]) <==> OptIn(if k < i then before[k] else if k == i then pick[k] else after[k], p[k]));
    }
  }

  /** The boxes of all stairs, in dimension order. */
  method CombineSets(before: Column, pick: Column, after: Column) returns (l: seq<Area>)
    requires ValidColumn(before, |pick|) && ValidColumn(pick, |pick|) && ValidColumn(after, |pick|)
    requires forall i, x :: 0 <= i < |pick| ==> !(OptIn(before[i], x) && OptIn(pick[i], x))
    ensures ValidList(l, |pick|) && PairwiseDisjoint(l)
    ensures forall p :: InList(l, p) <==> OnStairs(before, pick, after, |pick|, p)
  {
    hide In, Canonical, Count, InBox, InList, PairwiseDisjoint, StairAt, ListsDisjoint;
    l := [];
    NoCells();
    for i := 0 to |pick|
      invariant ValidList(l, |pick|) && PairwiseDisjoint(l)
      invariant forall p :: InList(l, p) <==> OnStairs(before, pick, after, i, p)
    {
      StairStep(before, pick, after, i);
      if pick[i].Some? {
        var validArea, newArea := StairBox(before, pick, after, i);
        if validArea {
          AppendArea(l, newArea);
          l := l + [newArea];
        }
      }
    }
  }

  lemma NoCells()
    ensures PairwiseDisjoint([]) && forall p :: !InList([], p)
  {
  }

  lemma StairStep(before: Column, pick: Column, after: Column, i: nat)
    requires |before| == |pick| == |after| && i < |pick|
    requires forall i, x :: 0 <= i < |pick| ==> !(OptIn(before[i], x) && OptIn(pick[i], x))
    ensures forall p :: OnStairs(before, pick, after, i + 1, p) <==> OnStairs(before, pick, after, i, p) || StairAt(before, pick, after, i, p)
    ensures forall p :: !(OnStairs(before, pick, after, i, p) && StairAt(before, pick, after, i, p))
    ensures pick[i].None? ==> forall p :: !StairAt(before, pick, after, i, p)
  {
    hide In, OptIn;
    forall p
      ensures OnStairs(before, pick, after, i + 1, p) <==> OnStairs(before, pick, after, i, p) || StairAt(before, pick, after, i, p)
      ensures !(OnStairs(before, pick, after, i, p) && StairAt(before, pick, after, i, p))
    {
      StairsApart(before, pick, after, i, p);
    }
    NoPick(before, pick, after, i);
  }

  lemma NoPick(before: Column, pick: Column, after: Column, i: nat)
    requires |before| == |pick| == |after| && i < |pick|
    ensures pick[i].None? ==> forall p :: !StairAt(before, pick, after, i, p)
  {
  }

  lemma StairsApart(before: Column, pick: Column, after: Column, i: nat, p: Key)
    requires |before| == |pick| == |after| && i < |pick|
    requires forall i, x :: 0 <= i < |pick| ==> !(OptIn(before[i], x) && OptIn(pick[i], x))
    ensures !(OnStairs(before, pick, after, i, p) && StairAt(before, pick, after, i, p))
  {
    hide In, OptIn;
  }

  lemma AppendArea(l: seq<Area>, a: Area)
    requires PairwiseDisjoint(l) && forall p :: !(InList(l, p) && InBox(a, p))
    ensures PairwiseDisjoint(l + [a])
    ensures forall p :: InList(l + [a], p) <==> InList(l, p) || InBox(a, p)
  {
    hide InBox, InList, PairwiseDisjoint;
    forall p
      ensures InList([a], p) <==> InBox(a, p)
    {
      InListOne(a, p);
    }
    InListConcatAll(l, [a]);
    OneListDisjoint(a);
    DisjointConcat(l, [a]);
  }

  /** Up to a picked dimension with `before` or `pick` everywhere ahead of it, there is a first picked one. */
  lemma {:induction false} FirstPick(before: Column, pick: Column, k: nat, p: Key) returns (i: nat)
    requires |before| == |pick| == |p| && k < |p|
    requires forall j :: 0 <= j < k ==> OptIn(before[j], p[j]) || OptIn(pick[j], p[j])
    requires OptIn(pick[k], p[k])
    ensures i <= k && OptIn(pick[i], p[i])
    ensures forall j :: 0 <= j < i ==> OptIn(before[j], p[j])
    decreases k
  {
    hide OptIn;
    i := k;
    if j :| 0 <= j < k && OptIn(pick[j], p[j]) {
      i := FirstPick(before, pick, j, p);
    }
  }

  /** Some component is picked, and every one ahead of it is in `before` or picked too. */
  ghost predicate PickedAhead(before: Column, pick: Column, p: Key)
    requires |before| == |pick| == |p|
  {
    exists k :: 0 <= k < |p| && OptIn(pick[k], p[k]) && forall j :: 0 <= j < k ==> OptIn(before[j], p[j]) || OptIn(pick[j], p[j])
  }

  /** The stairs are the cells with every component in `after` and one picked that nothing foreign is ahead of. */
  lemma StairsMeaning(before: Column, pick: Column, after: Column, p: Key)
    requires |before| == |pick| == |after| == |p|
    requires forall i, x :: 0 <= i < |pick| && (OptIn(before[i], x) || OptIn(pick[i], x)) ==> OptIn(after[i], x)
    ensures OnStairs(before, pick, after, |pick|, p) <==>
      (forall i :: 0 <= i < |p| ==> OptIn(after[i], p[i])) && PickedAhead(before, pick, p)
  {
    hide OptIn;
    if (forall i :: 0 <= i < |p| ==> OptIn(after[i], p[i])) && PickedAhead(before, pick, p) {
      var k :| 0 <= k < |p| && OptIn(pick[k], p[k]) && forall j :: 0 <= j < k ==> OptIn(before[j], p[j]) || OptIn(pick[j], p[j]);
      var i := FirstPick(before, pick, k, p);
      assert StairAt(before, pick, after, i, p);
    }
    if OnStairs(before, pick, after, |pick|, p) {
      var i :| 0 <= i < |pick| && StairAt(before, pick, after, i, p);
      assert forall j :: 0 <= j < |p| ==> OptIn(after[j], p[j]);
    }
  }

  /** The columns split every dimension of the area by element type. */
  ghost predicate Columns(dims: seq<Dimension>, aggregates: bool, a: Area, S: Column, O: Column, N: Column, C: Column)
  {
    && |dims| == |a| == |S| == |O| == |N| == |C|
    && forall i :: 0 <= i < |a| ==> PartsOf(dims[i], aggregates, a[i], Parts(S[i], O[i], N[i], C[i]))
  }

  /** What the columns say of a single id, free of the way sets are represented. */
  lemma ColumnIds(dims: seq<Dimension>, aggregates: bool, a: Area, S: Column, O: Column, N: Column, C: Column, i: nat, x: int)
    requires Columns(dims, aggregates, a, S, O, N, C) && i < |a|
    ensures OptIn(S[i], x) <==> In(a[i].ranges, x) && StringId(dims[i], x)
    ensures OptIn(O[i], x) <==> In(a[i].ranges, x) && NonStringId(dims[i], x)
    ensures OptIn(C[i], x) <==> In(a[i].ranges, x) && ConsolidatedId(dims[i], aggregates, x)
    ensures OptIn(N[i], x) <==> In(a[i].ranges, x) && NumericId(dims[i], aggregates, x)
  {
    hide In;
    assert PartsOf(dims[i], aggregates, a[i], Parts(S[i], O[i], N[i], C[i]));
  }

  /** Some id of the set is chosen. */
  ghost predicate HasAny(s: RangeSet, chosen: int -> bool)
  {
    exists x :: In(s.ranges, x) && chosen(x)
  }

  lemma ChosenSome(o: Option<RangeSet>, s: RangeSet, chosen: int -> bool)
    requires Chosen(o, s, chosen)
    ensures o.Some? <==> HasAny(s, chosen)
  {
    hide In;
    if o.Some? {
      var v := o.value;
      CanonicalAt(v.ranges, 0);
      InFirst(v.ranges, v.ranges[0].low);
      assert In(s.ranges, v.ranges[0].low) && chosen(v.ranges[0].low);
    }
  }

  /** A set exists exactly if the dimension holds an id of its kind. */
  lemma ColumnSome(dims: seq<Dimension>, aggregates: bool, a: Area, S: Column, O: Column, N: Column, C: Column, i: nat)
    requires Columns(dims, aggregates, a, S, O, N, C) && i < |a|
    ensures S[i].Some? <==> HasAny(a[i], StringIds(dims[i]))
    ensures O[i].Some? <==> HasAny(a[i], NonStringIds(dims[i]))
    ensures N[i].Some? <==> HasAny(a[i], NumericIds(dims[i], aggregates))
    ensures C[i].Some? <==> HasAny(a[i], ConsolidatedIds(dims[i], aggregates))
  {
    hide Chosen, HasAny;
    assert PartsOf(dims[i], aggregates, a[i], Parts(S[i], O[i], N[i], C[i]));
    ChosenSome(S[i], a[i], StringIds(dims[i]));
    ChosenSome(O[i], a[i], NonStringIds(dims[i]));
    ChosenSome(N[i], a[i], NumericIds(dims[i], aggregates));
    ChosenSome(C[i], a[i], ConsolidatedIds(dims[i], aggregates));
  }

  ghost predicate AllIn(c: Column, p: Key)
  {
    |p| == |c| && forall i :: 0 <= i < |p| ==> OptIn(c[i], p[i])
  }

  lemma AsPatternAll(a: Area, p: Key)
    ensures AllIn(AsPattern(a), p) <==> InBox(a, p)
  {
    hide In;
    assert |p| == |a| ==> forall i :: 0 <= i < |a| ==> (OptIn(AsPattern(a)[i], p[i]) <==> In(a[i].ranges, p[i]));
  }

  // What the area holds, dimension by dimension

  ghost predicate AnyStrings(dims: seq<Dimension>, a: Area)
    requires |dims| == |a|
  {
    exists i :: 0 <= i < |a| && HasAny(a[i], StringIds(dims[i]))
  }

  ghost predicate AnyConsolidated(dims: seq<Dimension>, aggregates: bool, a: Area)
    requires |dims| == |a|
  {
    exists i :: 0 <= i < |a| && HasAny(a[i], ConsolidatedIds(dims[i], aggregates))
  }

  ghost predicate EveryOther(dims: seq<Dimension>, a: Area)
    requires |dims| == |a|
  {
    forall i :: 0 <= i < |a| ==> HasAny(a[i], NonStringIds(dims[i]))
  }

  ghost predicate EveryNumeric(dims: seq<Dimension>, aggregates: bool, a: Area)
    requires |dims| == |a|
  {
    forall i :: 0 <= i < |a| ==> HasAny(a[i], NumericIds(dims[i], aggregates))
  }

  /** In every dimension in which the area holds strings, the cell has an element that is none. */
  ghost predicate StringFree(dims: seq<Dimension>, a: Area, p: Key)
    requires |dims| == |a|
  {
    |p| == |a| && forall i :: 0 <= i < |a| && HasAny(a[i], StringIds(dims[i])) ==> NonStringId(dims[i], p[i])
  }

  /** In a dimension without strings the whole set, elsewhere only what is no string. */
  function Mixed(a: Area, S: Column, O: Column): (c: Column)
    requires |a| == |S| == |O|
    ensures |c| == |a| && forall i :: 0 <= i < |a| ==> c[i] == if S[i].Some? then O[i] else Some(a[i])
  {
    seq(|a|, i requires 0 <= i < |a| => if S[i].Some? then O[i] else Some(a[i]))
  }

  /** The cells of the stairs of strings: those of the area that a string decides. */
  lemma StringStairs(dims: seq<Dimension>, aggregates: bool, a: Area, S: Column, O: Column, N: Column, C: Column, p: Key)
    requires Columns(dims, aggregates, a, S, O, N, C)
    ensures OnStairs(O, S, AsPattern(a), |a|, p) <==> InBox(a, p) && StringFirst(dims, p)
  {
    hide In, OptIn, Columns, OnStairs, StringId, NonStringId;
    ColumnWidths(dims, aggregates, a, S, O, N, C);
    AsPatternAll(a, p);
    StairWidth(O, S, AsPattern(a), p);
    forall i, x | 0 <= i < |a|
      ensures OptIn(S[i], x) <==> In(a[i].ranges, x) && StringId(dims[i], x)
      ensures OptIn(O[i], x) <==> In(a[i].ranges, x) && NonStringId(dims[i], x)
      ensures OptIn(AsPattern(a)[i], x) <==> In(a[i].ranges, x)
      ensures Known(dims[i], x) <==> StringId(dims[i], x) || NonStringId(dims[i], x)
    {
      ColumnIds(dims, aggregates, a, S, O, N, C, i, x);
      SomeInSet(a, i, x);
      StringOrNot(dims[i], x);
    }
    if |p| == |a| {
      StairsMeaning(O, S, AsPattern(a), p);
      if InBox(a, p) && StringFirst(dims, p) {
        var i :| 0 <= i < |p| && StringId(dims[i], p[i]) && forall j :: 0 <= j < i ==> Known(dims[j], p[j]);
        assert OptIn(S[i], p[i]);
        assert PickedAhead(O, S, p);
      }
      if OnStairs(O, S, AsPattern(a), |a|, p) {
        var i :| 0 <= i < |p| && OptIn(S[i], p[i]) && forall j :: 0 <= j < i ==> OptIn(O[j], p[j]) || OptIn(S[j], p[j]);
        assert StringId(dims[i], p[i]);
      }
    }
  }

  lemma StringOrNot(d: Dimension, x: int)
    ensures Known(d, x) <==> StringId(d, x) || NonStringId(d, x)
    ensures !(StringId(d, x) && NonStringId(d, x))
  {
  }

  /** What is no string is numeric or consolidated. */
  lemma NumericOrNot(d: Dimension, aggregates: bool, x: int)
    ensures NonStringId(d, x) <==> NumericId(d, aggregates, x) || ConsolidatedId(d, aggregates, x)
    ensures !(NumericId(d, aggregates, x) && ConsolidatedId(d, aggregates, x))
  {
  }

  /** A cell without strings and without unknown ids. */
  ghost predicate PlainCell(dims: seq<Dimension>, p: Key)
  {
    KnownCell(dims, p) && !HasString(dims, p)
  }

  lemma PlainIds(dims: seq<Dimension>, p: Key)
    requires |p| == |dims|
    ensures PlainCell(dims, p) <==> forall i :: 0 <= i < |p| ==> NonStringId(dims[i], p[i])
  {
    hide StringId, NonStringId;
    forall i | 0 <= i < |p|
      ensures Known(dims[i], p[i]) <==> StringId(dims[i], p[i]) || NonStringId(dims[i], p[i])
      ensures !(StringId(dims[i], p[i]) && NonStringId(dims[i], p[i]))
    {
      StringOrNot(dims[i], p[i]);
    }
  }

  /** The cells of the stairs of consolidated elements, and of the box of numeric ones. */
  lemma NumericStairs(dims: seq<Dimension>, aggregates: bool, a: Area, S: Column, O: Column, N: Column, C: Column, p: Key)
    requires Columns(dims, aggregates, a, S, O, N, C)
    ensures OnStairs(N, C, O, |a|, p) <==> InBox(a, p) && PlainCell(dims, p) && HasConsolidated(dims, aggregates, p)
    ensures AllIn(N, p) <==> InBox(a, p) && PlainCell(dims, p) && !HasConsolidated(dims, aggregates, p)
  {
    hide In, OptIn, Columns, OnStairs, StringId, NonStringId, NumericId, ConsolidatedId, PlainCell;
    ColumnWidths(dims, aggregates, a, S, O, N, C);
    StairWidth(N, C, O, p);
    forall i, x | 0 <= i < |a|
      ensures OptIn(O[i], x) <==> In(a[i].ranges, x) && NonStringId(dims[i], x)
      ensures OptIn(C[i], x) <==> In(a[i].ranges, x) && ConsolidatedId(dims[i], aggregates, x)
      ensures OptIn(N[i], x) <==> In(a[i].ranges, x) && NumericId(dims[i], aggregates, x)
      ensures OptIn(O[i], x) <==> OptIn(N[i], x) || OptIn(C[i], x)
      ensures !(OptIn(N[i], x) && OptIn(C[i], x))
    {
      ColumnIds(dims, aggregates, a, S, O, N, C, i, x);
      NumericOrNot(dims[i], aggregates, x);
    }
    if |p| == |a| {
      PlainIds(dims, p);
      StairsMeaning(N, C, O, p);
      assert InBox(a, p) && PlainCell(dims, p) <==> forall i :: 0 <= i < |p| ==> OptIn(O[i], p[i]);
      if InBox(a, p) && PlainCell(dims, p) {
        assert forall i :: 0 <= i < |p| ==> (OptIn(C[i], p[i]) <==> ConsolidatedId(dims[i], aggregates, p[i]));
        assert HasConsolidated(dims, aggregates, p) <==> PickedAhead(N, C, p);
      }
      if AllIn(N, p) {
        assert forall i :: 0 <= i < |p| ==> OptIn(O[i], p[i]);
      }
    }
  }

  lemma MixedCells(dims: seq<Dimension>, aggregates: bool, a: Area, S: Column, O: Column, N: Column, C: Column, p: Key)
    requires Columns(dims, aggregates, a, S, O, N, C)
    ensures AllIn(Mixed(a, S, O), p) <==> InBox(a, p) && StringFree(dims, a, p)
  {
    hide In, HasAny, Columns, NonStringId;
    ColumnWidths(dims, aggregates, a, S, O, N, C);
    if |p| == |a| {
      forall i | 0 <= i < |a|
        ensures OptIn(Mixed(a, S, O)[i], p[i]) <==>
          In(a[i].ranges, p[i]) && (HasAny(a[i], StringIds(dims[i])) ==> NonStringId(dims[i], p[i]))
      {
        ColumnIds(dims, aggregates, a, S, O, N, C, i, p[i]);
        ColumnSome(dims, aggregates, a, S, O, N, C, i);
      }
    }
  }

  lemma SomeInSet(a: Area, i: nat, x: int)
    requires i < |a|
    ensures OptIn(AsPattern(a)[i], x) <==> In(a[i].ranges, x)
  {
  }

  lemma StairWidth(before: Column, pick: Column, after: Column, p: Key)
    requires |before| == |pick| == |after|
    ensures OnStairs(before, pick, after, |pick|, p) ==> |p| == |pick|
  {
  }

  lemma ColumnWidths(dims: seq<Dimension>, aggregates: bool, a: Area, S: Column, O: Column, N: Column, C: Column)
    requires Columns(dims, aggregates, a, S, O, N, C)
    ensures |dims| == |a| == |S| == |O| == |N| == |C|
    ensures ValidColumn(S, |a|) && ValidColumn(O, |a|) && ValidColumn(N, |a|) && ValidColumn(C, |a|)
  {
    forall i | 0 <= i < |a|
      ensures S[i].Some? ==> S[i].value.Valid() && S[i].value.ranges != []
      ensures O[i].Some? ==> O[i].value.Valid() && O[i].value.ranges != []
      ensures N[i].Some? ==> N[i].value.Valid() && N[i].value.ranges != []
      ensures C[i].Some? ==> C[i].value.Valid() && C[i].value.ranges != []
    {
      assert PartsOf(dims[i], aggregates, a[i], Parts(S[i], O[i], N[i], C[i]));
    }
  }

  /** Splits every dimension and counts the sets of each kind. */
  method SplitSets(dims: seq<Dimension>, aggregates: bool, a: Area)
      returns (S: Column, O: Column, N: Column, C: Column, strings: nat, others: nat, numerics: nat, consolidated: nat)
    requires ValidArea(a) && |dims| == |a|
    ensures Columns(dims, aggregates, a, S, O, N, C)
    ensures strings <= |a| && others <= |a| && numerics <= |a| && consolidated <= |a|
    ensures strings == 0 <==> forall i :: 0 <= i < |a| ==> S[i].None?
    ensures consolidated == 0 <==> forall i :: 0 <= i < |a| ==> C[i].None?
    ensures others == |a| <==> forall i :: 0 <= i < |a| ==> O[i].Some?
    ensures numerics == |a| <==> forall i :: 0 <= i < |a| ==> N[i].Some?
  {
    hide In, Canonical, Count, PartsOf;
    S, O, N, C := [], [], [], [];
    strings, others, numerics, consolidated := 0, 0, 0, 0;
    for i := 0 to |a|
      invariant |S| == |O| == |N| == |C| == i
      invariant forall j :: 0 <= j < i ==> PartsOf(dims[j], aggregates, a[j], Parts(S[j], O[j], N[j], C[j]))
      invariant strings <= i && others <= i && numerics <= i && consolidated <= i
      invariant strings == 0 <==> forall j :: 0 <= j < i ==> S[j].None?
      invariant consolidated == 0 <==> forall j :: 0 <= j < i ==> C[j].None?
      invariant others == i <==> forall j :: 0 <= j < i ==> O[j].Some?
      invariant numerics == i <==> forall j :: 0 <= j < i ==> N[j].Some?
    {
      var q := SplitDimension(dims[i], aggregates, a[i]);
      S, O, N, C := S + [q.strings], O + [q.others], N + [q.numerics], C + [q.consolidated];
      strings := strings + (if q.strings.Some? then 1 else 0);
      others := others + (if q.others.Some? then 1 else 0);
      numerics := numerics + (if q.numerics.Some? then 1 else 0);
      consolidated := consolidated + (if q.consolidated.Some? then 1 else 0);
    }
  }

  /** The product of sets that all exist. */
  method AllSets(c: Column) returns (box: Area)
    requires forall i :: 0 <= i < |c| ==> c[i].Some?
    requires ValidColumn(c, |c|)
    ensures |box| == |c| && ValidArea(box)
    ensures forall p :: InBox(box, p) <==> AllIn(c, p)
  {
    box := [];
    for i := 0 to |c|
      invariant |box| == i && ValidArea(box)
      invariant forall j :: 0 <= j < i ==> c[j] == Some(box[j])
    {
      box := box + [c[i].value];
    }
    AllSetsCells(box, c);
  }

  lemma AllSetsCells(box: Area, c: Column)
    requires |box| == |c| && forall j :: 0 <= j < |c| ==> c[j] == Some(box[j])
    ensures forall p :: InBox(box, p) <==> AllIn(c, p)
  {
    assert AsPattern(box) == c;
    forall p
      ensures InBox(box, p) <==> AllIn(c, p)
    {
      AsPatternAll(box, p);
    }
  }

  // Which cells go where

  /** Whole if some dimension holds nothing but strings; otherwise what a string decides. */
  ghost predicate ToStrings(dims: seq<Dimension>, a: Area, p: Key)
  {
    |dims| == |a| && InBox(a, p) && if EveryOther(dims, a) then StringFirst(dims, p) else AnyStrings(dims, a)
  }

  ghost predicate ToConsolidated(dims: seq<Dimension>, aggregates: bool, a: Area, p: Key)
  {
    |dims| == |a| && InBox(a, p) &&
    if EveryNumeric(dims, aggregates, a) then PlainCell(dims, p) && HasConsolidated(dims, aggregates, p)
    else AnyConsolidated(dims, aggregates, a) && EveryOther(dims, a) && StringFree(dims, a, p)
  }

  ghost predicate ToNumerics(dims: seq<Dimension>, aggregates: bool, a: Area, p: Key)
  {
    |dims| == |a| && InBox(a, p) &&
    (AnyStrings(dims, a) || AnyConsolidated(dims, aggregates, a) ==> PlainCell(dims, p) && !HasConsolidated(dims, aggregates, p))
  }

  /** The three lists hold exactly their cells, and no cell twice. */
  ghost predicate TypePartition(dims: seq<Dimension>, aggregates: bool, a: Area,
                                strings: seq<Area>, numerics: seq<Area>, consolidated: seq<Area>)
  {
    && ValidList(strings, |a|) && ValidList(numerics, |a|) && ValidList(consolidated, |a|)
    && PairwiseDisjoint(strings) && PairwiseDisjoint(numerics) && PairwiseDisjoint(consolidated)
    && (forall p :: InList(strings, p) <==> ToStrings(dims, a, p))
    && (forall p :: InList(consolidated, p) <==> ToConsolidated(dims, aggregates, a, p))
    && (forall p :: InList(numerics, p) <==> ToNumerics(dims, aggregates, a, p))
  }

  /** splitbyTypes. */
  method SplitByTypes(dims: seq<Dimension>, aggregates: bool, a: Area)
      returns (strings: seq<Area>, numerics: seq<Area>, consolidated: seq<Area>)
    requires ValidArea(a) && |dims| == |a|
    ensures TypePartition(dims, aggregates, a, strings, numerics, consolidated)
  {
    hide In, Canonical, Count, InBox, InList, PairwiseDisjoint, OnStairs, Columns, AllIn, StringFirst, PlainCell,
      HasConsolidated, StringFree, AnyStrings, AnyConsolidated, EveryOther, EveryNumeric;
    var S, O, N, C, stringSets, otherSets, numericSets, consolidatedSets := SplitSets(dims, aggregates, a);
    ColumnWidths(dims, aggregates, a, S, O, N, C);
    ColumnsDisjoint(dims, aggregates, a, S, O, N, C);
    ColumnCounts(dims, aggregates, a, S, O, N, C);
    AsPatternColumn(a);
    NoCells();
    strings, numerics, consolidated := [], [], [];
    forall p
      ensures OnStairs(O, S, AsPattern(a), |a|, p) <==> InBox(a, p) && StringFirst(dims, p)
      ensures OnStairs(N, C, O, |a|, p) <==> InBox(a, p) && PlainCell(dims, p) && HasConsolidated(dims, aggregates, p)
      ensures AllIn(N, p) <==> InBox(a, p) && PlainCell(dims, p) && !HasConsolidated(dims, aggregates, p)
      ensures AllIn(Mixed(a, S, O), p) <==> InBox(a, p) && StringFree(dims, a, p)
      ensures InBox(a, p) && StringFirst(dims, p) ==> AnyStrings(dims, a)
      ensures InBox(a, p) && HasConsolidated(dims, aggregates, p) ==> AnyConsolidated(dims, aggregates, a)
    {
      StringStairs(dims, aggregates, a, S, O, N, C, p);
      NumericStairs(dims, aggregates, a, S, O, N, C, p);
      MixedCells(dims, aggregates, a, S, O, N, C, p);
      CellShowsKinds(dims, aggregates, a, p);
    }
    SomeMissing(N);
    AreaAlone(a);
    if stringSets != 0 {
      if otherSets < |a| {
        // pure string
        strings := [a];
      } else {
        strings := CombineSets(O, S, AsPattern(a));
      }
    }
    if consolidatedSets != 0 {
      if numericSets < |a| {
        if otherSets == |a| {
          // pure consolidated except strings
          MixedColumn(a, S, O);
          var newArea := AllSets(Mixed(a, S, O));
          AreaAlone(newArea);
          consolidated := [newArea];
        }
      } else {
        consolidated := CombineSets(N, C, O);
      }
    }
    if stringSets != 0 || consolidatedSets != 0 {
      if numericSets == |a| {
        var newArea := AllSets(N);
        AreaAlone(newArea);
        numerics := [newArea];
      }
    } else {
      numerics := [a];
    }
  }

  lemma MixedColumn(a: Area, S: Column, O: Column)
    requires ValidArea(a) && |a| == |S| == |O| && ValidColumn(O, |a|) && forall i :: 0 <= i < |a| ==> O[i].Some?
    ensures ValidColumn(Mixed(a, S, O), |a|) && forall i :: 0 <= i < |a| ==> Mixed(a, S, O)[i].Some?
  {
  }

  lemma CellShowsKinds(dims: seq<Dimension>, aggregates: bool, a: Area, p: Key)
    requires |dims| == |a|
    ensures InBox(a, p) && HasString(dims, p) ==> AnyStrings(dims, a)
    ensures InBox(a, p) && StringFirst(dims, p) ==> AnyStrings(dims, a)
    ensures InBox(a, p) && HasConsolidated(dims, aggregates, p) ==> AnyConsolidated(dims, aggregates, a)
    ensures InBox(a, p) && PlainCell(dims, p) ==> EveryOther(dims, a)
    ensures InBox(a, p) && PlainCell(dims, p) && !HasConsolidated(dims, aggregates, p) ==> EveryNumeric(dims, aggregates, a)
  {
    hide In, StringId, NonStringId, NumericId, ConsolidatedId, PlainCell;
    if InBox(a, p) {
      PlainIds(dims, p);
      forall i | 0 <= i < |a|
        ensures StringId(dims[i], p[i]) ==> HasAny(a[i], StringIds(dims[i]))
        ensures NonStringId(dims[i], p[i]) ==> HasAny(a[i], NonStringIds(dims[i]))
        ensures NumericId(dims[i], aggregates, p[i]) ==> HasAny(a[i], NumericIds(dims[i], aggregates))
        ensures ConsolidatedId(dims[i], aggregates, p[i]) ==> HasAny(a[i], ConsolidatedIds(dims[i], aggregates))
        ensures NonStringId(dims[i], p[i]) <==> NumericId(dims[i], aggregates, p[i]) || ConsolidatedId(dims[i], aggregates, p[i])
      {
        NumericOrNot(dims[i], aggregates, p[i]);
        assert In(a[i].ranges, p[i]);
        assert StringIds(dims[i])(p[i]) <==> StringId(dims[i], p[i]);
        assert NonStringIds(dims[i])(p[i]) <==> NonStringId(dims[i], p[i]);
        assert NumericIds(dims[i], aggregates)(p[i]) <==> NumericId(dims[i], aggregates, p[i]);
        assert ConsolidatedIds(dims[i], aggregates)(p[i]) <==> ConsolidatedId(dims[i], aggregates, p[i]);
      }
    }
  }

  /** The numbers of sets there are, in terms of the area. */
  lemma ColumnCounts(dims: seq<Dimension>, aggregates: bool, a: Area, S: Column, O: Column, N: Column, C: Column)
    requires Columns(dims, aggregates, a, S, O, N, C)
    ensures (exists i :: 0 <= i < |a| && S[i].Some?) <==> AnyStrings(dims, a)
    ensures (exists i :: 0 <= i < |a| && C[i].Some?) <==> AnyConsolidated(dims, aggregates, a)
    ensures (forall i :: 0 <= i < |a| ==> O[i].Some?) <==> EveryOther(dims, a)
    ensures (forall i :: 0 <= i < |a| ==> N[i].Some?) <==> EveryNumeric(dims, aggregates, a)
  {
    hide HasAny, PartsOf;
    forall i | 0 <= i < |a|
      ensures S[i].Some? <==> HasAny(a[i], StringIds(dims[i]))
      ensures O[i].Some? <==> HasAny(a[i], NonStringIds(dims[i]))
      ensures N[i].Some? <==> HasAny(a[i], NumericIds(dims[i], aggregates))
      ensures C[i].Some? <==> HasAny(a[i], ConsolidatedIds(dims[i], aggregates))
    {
      ColumnSome(dims, aggregates, a, S, O, N, C, i);
    }
  }

  lemma AreaAlone(a: Area)
    ensures PairwiseDisjoint([a])
    ensures forall p :: InList([a], p) <==> InBox(a, p)
  {
    hide InBox;
    OneListDisjoint(a);
    forall p
      ensures InList([a], p) <==> InBox(a, p)
    {
      InListOne(a, p);
    }
  }

  lemma SomeMissing(c: Column)
    ensures !(forall i :: 0 <= i < |c| ==> c[i].Some?) ==> forall p :: !AllIn(c, p)
  {
    forall p
      ensures !(forall i :: 0 <= i < |c| ==> c[i].Some?) ==> !AllIn(c, p)
    {
      if i :| 0 <= i < |c| && c[i].None? {
        assert |p| == |c| ==> !OptIn(c[i], p[i]);
      }
    }
  }

  lemma AsPatternColumn(a: Area)
    requires ValidArea(a)
    ensures ValidColumn(AsPattern(a), |a|)
  {
  }

  lemma ColumnsDisjoint(dims: seq<Dimension>, aggregates: bool, a: Area, S: Column, O: Column, N: Column, C: Column)
    requires Columns(dims, aggregates, a, S, O, N, C)
    ensures |S| == |O| == |N| == |C| == |a|
    ensures forall i, x :: 0 <= i < |a| ==> !(OptIn(O[i], x) && OptIn(S[i], x))
    ensures forall i, x :: 0 <= i < |a| ==> !(OptIn(N[i], x) && OptIn(C[i], x))
  {
    hide OptIn, In;
    forall i, x | 0 <= i < |a|
      ensures !(OptIn(O[i], x) && OptIn(S[i], x))
      ensures !(OptIn(N[i], x) && OptIn(C[i], x))
    {
      ColumnIds(dims, aggregates, a, S, O, N, C, i, x);
    }
  }

  // ------------------------------------------------------------------------------------------
  // Splitting and looking up a single cell
  // ------------------------------------------------------------------------------------------

  /** No cell goes to two of the lists. */
  lemma KindsExclusive(dims: seq<Dimension>, aggregates: bool, a: Area, p: Key)
    ensures !(ToStrings(dims, a, p) && ToConsolidated(dims, aggregates, a, p))
    ensures !(ToStrings(dims, a, p) && ToNumerics(dims, aggregates, a, p))
    ensures !(ToConsolidated(dims, aggregates, a, p) && ToNumerics(dims, aggregates, a, p))
  {
    hide HasAny, In;
    if |dims| == |a| && InBox(a, p) {
      CellShowsKinds(dims, aggregates, a, p);
      StringNotFree(dims, a, p);
      NumericIsOther(dims, aggregates, a);
    }
  }

  lemma StringNotFree(dims: seq<Dimension>, a: Area, p: Key)
    requires |dims| == |a| && InBox(a, p)
    ensures !(StringFirst(dims, p) && StringFree(dims, a, p))
    ensures StringFirst(dims, p) ==> HasString(dims, p)
  {
    hide In;
    if StringFirst(dims, p) {
      var i :| 0 <= i < |p| && StringId(dims[i], p[i]);
      assert In(a[i].ranges, p[i]) && StringIds(dims[i])(p[i]);
      assert HasAny(a[i], StringIds(dims[i]));
    }
  }

  lemma NumericIsOther(dims: seq<Dimension>, aggregates: bool, a: Area)
    requires |dims| == |a|
    ensures EveryNumeric(dims, aggregates, a) ==> EveryOther(dims, a)
  {
    hide In;
    if EveryNumeric(dims, aggregates, a) {
      forall i | 0 <= i < |a|
        ensures HasAny(a[i], NonStringIds(dims[i]))
      {
        var x :| In(a[i].ranges, x) && NumericIds(dims[i], aggregates)(x);
        assert NonStringIds(dims[i])(x);
      }
    }
  }

  /**
   * A cell with an unknown id is kept nevertheless: because some dimension has only strings to
   * offer, because some dimension has only consolidated elements to offer and the id's dimension
   * holds no strings, or because the area holds neither strings nor consolidated elements.
   */
  ghost predicate TakenWhole(dims: seq<Dimension>, aggregates: bool, a: Area, p: Key)
    requires |dims| == |a|
  {
    || (AnyStrings(dims, a) && !EveryOther(dims, a))
    || (AnyConsolidated(dims, aggregates, a) && EveryOther(dims, a) && !EveryNumeric(dims, aggregates, a) && StringFree(dims, a, p))
    || (!AnyStrings(dims, a) && !AnyConsolidated(dims, aggregates, a))
  }

  /** Splitting keeps the cell: it has a type, or is taken along with the whole of the area. */
  ghost predicate Kept(dims: seq<Dimension>, aggregates: bool, a: Area, p: Key)
    requires |dims| == |a|
  {
    TypeOf(dims, aggregates, p).Success? || TakenWhole(dims, aggregates, a, p)
  }

  /**
   * Wherever getType gives a type, the split puts the cell into a box of that type and no other;
   * a cell for which getType raises an error is in a box exactly if it is taken whole.
   */
  lemma SplitAgreesWithType(dims: seq<Dimension>, aggregates: bool, a: Area,
                            strings: seq<Area>, numerics: seq<Area>, consolidated: seq<Area>, p: Key)
    requires TypePartition(dims, aggregates, a, strings, numerics, consolidated)
    requires |dims| == |a| && InBox(a, p)
    ensures TypeOf(dims, aggregates, p).Success? ==>
      && (InList(strings, p) <==> TypeOf(dims, aggregates, p).value == BaseString)
      && (InList(numerics, p) <==> TypeOf(dims, aggregates, p).value == BaseNumeric)
      && (InList(consolidated, p) <==> TypeOf(dims, aggregates, p).value == ConsolidatedCell)
    ensures InList(strings, p) || InList(numerics, p) || InList(consolidated, p) <==> Kept(dims, aggregates, a, p)
  {
    hide InList, InBox, PairwiseDisjoint, ValidList;
    KindOfCell(dims, aggregates, a, p);
    KindsExclusive(dims, aggregates, a, p);
  }

  lemma KindOfCell(dims: seq<Dimension>, aggregates: bool, a: Area, p: Key)
    requires |dims| == |a| && InBox(a, p)
    ensures TypeOf(dims, aggregates, p) == Success(BaseString) ==> ToStrings(dims, a, p)
    ensures TypeOf(dims, aggregates, p) == Success(BaseNumeric) ==> ToNumerics(dims, aggregates, a, p)
    ensures TypeOf(dims, aggregates, p) == Success(ConsolidatedCell) ==> ToConsolidated(dims, aggregates, a, p)
    ensures ToStrings(dims, a, p) || ToNumerics(dims, aggregates, a, p) || ToConsolidated(dims, aggregates, a, p)
      <==> Kept(dims, aggregates, a, p)
  {
    hide In, InBox, EveryOther, EveryNumeric, AnyStrings, AnyConsolidated, HasConsolidated;
    CellShowsKinds(dims, aggregates, a, p);
    StringNotFree(dims, a, p);
    NumericIsOther(dims, aggregates, a);
    if PlainCell(dims, p) {
      PlainFree(dims, a, p);
    }
    KnownStrings(dims, p);
  }

  lemma PlainFree(dims: seq<Dimension>, a: Area, p: Key)
    requires |dims| == |a| == |p| && PlainCell(dims, p)
    ensures StringFree(dims, a, p)
  {
    hide HasAny, PlainCell;
    PlainIds(dims, p);
  }

  lemma KnownStrings(dims: seq<Dimension>, p: Key)
    ensures KnownCell(dims, p) ==> (StringFirst(dims, p) <==> HasString(dims, p))
  {
    hide StringId;
  }

  /** An unknown id that the split loses: numeric and consolidated elements are picked, and it is neither. */
  lemma LostExample(dims: seq<Dimension>, a: Area, p: Key)
    requires dims == [StoredDimension(map[1 := Element(Numeric, false), 2 := Element(Consolidated, false)])]
    requires a == [RangeSet([Range(1, 3)], 3)] && p == [3]
    ensures ValidArea(a) && InBox(a, p) && TypeOf(dims, true, p).Failure?
    ensures !Kept(dims, true, a, p)
  {
    hide In, Canonical, Count;
    ExampleSet(a[0]);
    assert !Known(dims[0], p[0]);
    assert !StringId(dims[0], p[0]);
    assert NumericIds(dims[0], true)(1) && NonStringIds(dims[0])(1) && ConsolidatedIds(dims[0], true)(2);
    assert HasAny(a[0], ConsolidatedIds(dims[0], true));
    assert HasAny(a[0], NumericIds(dims[0], true)) && HasAny(a[0], NonStringIds(dims[0]));
  }

  lemma ExampleSet(s: RangeSet)
    requires s == RangeSet([Range(1, 3)], 3)
    ensures s.Valid() && In(s.ranges, 1) && In(s.ranges, 2) && In(s.ranges, 3)
  {
    assert s.ranges[0] == Range(1, 3);
    assert s.ranges[..0] == [];
  }

  /** The same unknown id beside numeric elements only: the area is taken whole, and the cell with it. */
  lemma KeptExample(dims: seq<Dimension>, a: Area, p: Key)
    requires dims == [StoredDimension(map[1 := Element(Numeric, false)])]
    requires a == [RangeSet([Range(1, 3)], 3)] && p == [3]
    ensures ValidArea(a) && InBox(a, p) && TypeOf(dims, true, p).Failure?
    ensures Kept(dims, true, a, p)
  {
    hide In, Canonical, Count;
    ExampleSet(a[0]);
    assert !Known(dims[0], p[0]);
    assert !StringId(dims[0], p[0]);
    forall x
      ensures !StringIds(dims[0])(x) && !ConsolidatedIds(dims[0], true)(x)
    {
    }
  }
}
