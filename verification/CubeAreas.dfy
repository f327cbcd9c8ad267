/** CubeArea: overlap test, intersection with complement boxes, and lexicographic splitting. */
module CubeAreas {
  import opened Ids
  import opened Ranges
  import opened Wrappers
  import opened Areas
  import opened IdSets
  import opened SubCubes

  /** Some id of the set is admitted. */
  ghost predicate Meets(s: RangeSet, t: Option<RangeSet>)
  {
    exists x :: In(s.ranges, x) && Admits(t, x)
  }

  /**
   * The overlap test. A missing set, and an empty one too, counts as a wildcard.
   */
  method IsOverlapping(a: Area, other: Pattern) returns (overlap: bool)
    requires ValidArea(a) && ValidPattern(other) && |a| == |other|
    ensures overlap <==>
      forall i :: 0 <= i < |a| ==> Meets(a[i], other[i]) || (other[i].Some? && other[i].value.ranges == [])
  {
    hide In, Canonical, Count, Meets;
    overlap := true;
    for i := 0 to |a|
      invariant overlap
      invariant forall j :: 0 <= j < i ==> Meets(a[j], other[j]) || (other[j].Some? && other[j].value.ranges == [])
    {
      SizeZeroIffEmpty(a[i]);
      NonemptyMeets(a[i]);
      if other[i].Some? {
        SizeZeroIffEmpty(other[i].value);
        if a[i].siz != 0 && other[i].value.siz != 0 {
          var has, inter, compl := Intersect(a[i], other[i], false, false);
          MeetsFilter(a[i], other[i].value);
          if !has {
            return false;
          }
        }
      }
    }
  }

  lemma MeetsFilter(s: RangeSet, t: RangeSet)
    ensures Meets(s, Some(t)) <==> exists x :: In(s.ranges, x) && In(t.ranges, x)
  {
    hide In;
    if exists x :: In(s.ranges, x) && In(t.ranges, x) {
      var x :| In(s.ranges, x) && In(t.ranges, x);
      assert Admits(Some(t), x);
    }
  }

  lemma NonemptyMeets(s: RangeSet)
    requires s.Valid() && s.ranges != []
    ensures Meets(s, None)
  {
    CanonicalAt(s.ranges, 0);
    InFirst(s.ranges, s.ranges[0].low);
    assert Admits(None, s.ranges[0].low);
  }

  /** The first d dimensions of the cell match. */
  ghost predicate MatchesTo(t: Pattern, p: Key, d: nat)
  {
    |p| == |t| && d <= |t| && forall i :: 0 <= i < d ==> Admits(t[i], p[i])
  }

  /** The cells of the area that fail to match within the first d dimensions. */
  ghost predicate MissedBy(a: Area, t: Pattern, d: nat, p: Key)
  {
    InBox(a, p) && !MatchesTo(t, p, d)
  }

  /** The complement box of dimension d: matching before d, failing in d, unrestricted behind it. */
  function ComplementBox(a: Area, inter: seq<RangeSet>, compl: RangeSet, d: nat): Area
    requires d < |a| && d < |inter|
  {
    inter[..d] + [compl] + a[d + 1..]
  }

  lemma ComplementCells(a: Area, t: Pattern, inter: seq<RangeSet>, compl: RangeSet, d: nat, p: Key)
    requires |a| == |t| == |inter| && d < |a|
    requires forall i :: 0 <= i < d ==> forall x :: In(inter[i].ranges, x) <==> In(a[i].ranges, x) && Admits(t[i], x)
    requires forall x :: In(compl.ranges, x) <==> In(a[d].ranges, x) && !Admits(t[d], x)
    ensures InBox(ComplementBox(a, inter, compl, d), p) <==> InBox(a, p) && MatchesTo(t, p, d) && !Admits(t[d], p[d])
  {
    hide In, Admits;
    var c := ComplementBox(a, inter, compl, d);
    if InBox(c, p) {
      assert c[d] == compl && In(c[d].ranges, p[d]);
      forall i | 0 <= i < |a|
        ensures In(a[i].ranges, p[i])
      {
        assert In(c[i].ranges, p[i]);
        assert i > d ==> c[i] == a[i];
      }
      forall i | 0 <= i < d
        ensures Admits(t[i], p[i])
      {
        assert In(c[i].ranges, p[i]);
      }
    }
    if InBox(a, p) && MatchesTo(t, p, d) && !Admits(t[d], p[d]) {
      forall i | 0 <= i < |c|
        ensures In(c[i].ranges, p[i])
      {
        assert In(a[i].ranges, p[i]);
        assert i > d ==> c[i] == a[i];
        assert i < d ==> c[i] == inter[i];
      }
    }
  }

  lemma InterCells(a: Area, t: Pattern, inter: Area, p: Key)
    requires |a| == |t| == |inter|
    requires forall i :: 0 <= i < |a| ==> forall x :: In(inter[i].ranges, x) <==> In(a[i].ranges, x) && Admits(t[i], x)
    ensures InBox(inter, p) <==> InBox(a, p) && Matches(t, p)
  {
    hide In, Admits;
    if InBox(inter, p) {
      forall i | 0 <= i < |a|
        ensures In(a[i].ranges, p[i]) && Admits(t[i], p[i])
      {
        assert In(inter[i].ranges, p[i]);
      }
    }
  }

  /** All dimensions meet exactly when some cell of the area matches. */
  lemma MeetsEverywhere(a: Area, t: Pattern)
    requires |a| == |t| && ValidArea(a)
    ensures (forall i :: 0 <= i < |a| ==> Meets(a[i], t[i])) <==> exists p :: InBox(a, p) && Matches(t, p)
  {
    hide In, Admits;
    if forall i :: 0 <= i < |a| ==> Meets(a[i], t[i]) {
      forall i | 0 <= i < |a|
        ensures exists x: nat :: In(a[i].ranges, x) && Admits(t[i], x)
      {
        var x :| In(a[i].ranges, x) && Admits(t[i], x);
        InNonNegative(a[i].ranges, x);
        var y: nat := x;
        assert In(a[i].ranges, y) && Admits(t[i], y);
      }
      ghost var p := seq(|a|, i requires 0 <= i < |a| => var x: nat :| In(a[i].ranges, x) && Admits(t[i], x); x);
      assert InBox(a, p) && Matches(t, p);
    }
    if exists p :: InBox(a, p) && Matches(t, p) {
      var p :| InBox(a, p) && Matches(t, p);
      forall i | 0 <= i < |a|
        ensures Meets(a[i], t[i])
      {
        assert In(a[i].ranges, p[i]) && Admits(t[i], p[i]);
      }
    }
  }

  lemma InNonNegative(rs: seq<Range>, x: int)
    requires In(rs, x)
    ensures x >= 0
  {
  }

  /**
   * Intersects an area with a restriction. When they meet, the intersection is one box, and the
   * boxes appended to the complement list are the rest of the area, cut dimension by dimension.
   * When they do not meet, neither result is touched.
   */
  method Intersection(a: Area, other: Pattern, wantInter: bool, complementList: SubCubeList?)
      returns (has: bool, inter: Option<Area>)
    requires ValidArea(a) && ValidPattern(other) && |a| == |other|
    requires complementList != null ==> complementList.Valid(|a|) && wantInter
    modifies if complementList == null then {} else {complementList}
    ensures has <==> exists p :: InBox(a, p) && Matches(other, p)
    ensures inter.Some? <==> has && wantInter
    ensures inter.Some? ==> ValidArea(inter.value) && |inter.value| == |a|
    ensures inter.Some? ==> forall p :: InBox(inter.value, p) <==> InBox(a, p) && Matches(other, p)
    ensures complementList != null ==> complementList.Valid(|a|)
    ensures complementList != null && !has ==> complementList.list == old(complementList.list)
    ensures complementList != null && has ==> forall p :: InList(AreasOf(complementList.list), p) <==>
      old(InList(AreasOf(complementList.list), p)) || (InBox(a, p) && !Matches(other, p))
    ensures complementList != null
      && old(PairwiseDisjoint(AreasOf(complementList.list)))
      && old(forall p :: InBox(a, p) ==> !InList(AreasOf(complementList.list), p))
      ==> PairwiseDisjoint(AreasOf(complementList.list))
  {
    hide In, Canonical, Count, InBox, InList, PairwiseDisjoint, Matches, Meets, AreasOf, ValidList;
    var interSets: seq<RangeSet>, complSets: seq<RangeSet> := [], [];
    MeetsEverywhere(a, other);
    InNone();
    EmptyValid();
    for dim := 0 to |a|
      invariant |interSets| == |complSets| == dim
      invariant forall i :: 0 <= i < dim ==> Meets(a[i], other[i])
      invariant wantInter ==> forall i :: 0 <= i < dim ==>
        interSets[i].Valid() && forall x :: In(interSets[i].ranges, x) <==> In(a[i].ranges, x) && Admits(other[i], x)
      invariant complementList != null ==> forall i :: 0 <= i < dim ==>
        complSets[i].Valid() && forall x :: In(complSets[i].ranges, x) <==> In(a[i].ranges, x) && !Admits(other[i], x)
      invariant complementList != null ==> complementList.list == old(complementList.list)
    {
      NonemptyMeets(a[dim]);
      var h, s, c := Intersect(a[dim], other[dim], wantInter, complementList != null);
      if other[dim].Some? {
        MeetsFilter(a[dim], other[dim].value);
      }
      if !h {
        return false, None;
      }
      interSets := interSets + [s];
      complSets := complSets + [c];
    }
    has := true;
    inter := None;
    if wantInter {
      inter := Some(interSets);
      InterArea(a, other, interSets);
    }
    if complementList != null {
      assert Parted(a, other, interSets, complSets);
      CollectComplement(a, other, interSets, complSets, complementList);
    }
  }

  lemma InterArea(a: Area, t: Pattern, inter: Area)
    requires |a| == |t| == |inter|
    requires forall i :: 0 <= i < |a| ==> Meets(a[i], t[i]) && inter[i].Valid()
    requires forall i :: 0 <= i < |a| ==> forall x :: In(inter[i].ranges, x) <==> In(a[i].ranges, x) && Admits(t[i], x)
    ensures ValidArea(inter)
    ensures forall p :: InBox(inter, p) <==> InBox(a, p) && Matches(t, p)
  {
    hide InBox, Matches;
    forall p
      ensures InBox(inter, p) <==> InBox(a, p) && Matches(t, p)
    {
      InterCells(a, t, inter, p);
    }
  }

  /** Every dimension's set is divided into what the restriction admits and what it does not. */
  ghost predicate Parted(a: Area, t: Pattern, inter: seq<RangeSet>, compl: seq<RangeSet>)
  {
    && |a| == |t| == |inter| == |compl|
    && (forall i :: 0 <= i < |a| ==> forall x :: In(inter[i].ranges, x) <==> In(a[i].ranges, x) && Admits(t[i], x))
    && (forall i :: 0 <= i < |a| ==>
          compl[i].Valid() && forall x :: In(compl[i].ranges, x) <==> In(a[i].ranges, x) && !Admits(t[i], x))
  }

  /** The box of one dimension: the cells that fail to match there first, none if nothing is left over. */
  lemma LeftOver(a: Area, t: Pattern, inter: seq<RangeSet>, compl: seq<RangeSet>, d: nat)
    requires Parted(a, t, inter, compl) && d < |a| && ValidArea(a) && ValidArea(inter)
    ensures var box := ComplementBox(a, inter, compl[d], d);
      && (forall p :: MissedBy(a, t, d + 1, p) <==> MissedBy(a, t, d, p) || InBox(box, p))
      && (forall p :: InBox(box, p) ==> InBox(a, p) && !MissedBy(a, t, d, p))
      && (compl[d].siz != 0 ==> ValidArea(box) && |box| == |a|)
      && (compl[d].siz == 0 ==> forall p :: !InBox(box, p))
  {
    hide In, Admits, InBox, ComplementBox, MissedBy, ValidArea;
    SizeZeroIffEmpty(compl[d]);
    MissedStep(a, t, inter, compl[d], d);
    if compl[d].siz != 0 {
      BoxValid(a, inter, compl[d], d);
    } else {
      NothingMissed(a, inter, compl[d], d);
    }
  }

  /** The second half of Intersection: one box per dimension that has something left over. */
  method CollectComplement(a: Area, other: Pattern, interSets: seq<RangeSet>, complSets: seq<RangeSet>, complementList: SubCubeList)
    requires ValidArea(a) && |a| == |other| == |interSets| == |complSets|
    requires complementList.Valid(|a|) && ValidArea(interSets) && Parted(a, other, interSets, complSets)
    modifies complementList
    ensures complementList.Valid(|a|)
    ensures forall p :: InList(AreasOf(complementList.list), p) <==>
      old(InList(AreasOf(complementList.list), p)) || (InBox(a, p) && !Matches(other, p))
    ensures old(PairwiseDisjoint(AreasOf(complementList.list)))
      && old(forall p :: InBox(a, p) ==> !InList(AreasOf(complementList.list), p))
      ==> PairwiseDisjoint(AreasOf(complementList.list))
  {
    ghost var before := AreasOf(complementList.list);
    hide InBox, InList, PairwiseDisjoint, Matches, AreasOf, ValidRanked, ValidArea, Parted, Grown;
    GrownFirst(a, other, before);
    for dim := 0 to |a|
      invariant complementList.Valid(|a|)
      invariant Grown(before, a, other, dim, AreasOf(complementList.list))
    {
      AddLeftOver(a, other, interSets, complSets, dim, complementList, before);
    }
    GrownLast(a, other, before, AreasOf(complementList.list));
  }

  /** The list has gained the cells that fail to match within the first d dimensions. */
  ghost predicate Grown(before: seq<Area>, a: Area, t: Pattern, d: nat, now: seq<Area>)
  {
    && (forall p :: InList(now, p) <==> InList(before, p) || MissedBy(a, t, d, p))
    && (PairwiseDisjoint(before) && (forall p :: InBox(a, p) ==> !InList(before, p)) ==> PairwiseDisjoint(now))
  }

  lemma GrownFirst(a: Area, t: Pattern, before: seq<Area>)
    requires |a| == |t|
    ensures Grown(before, a, t, 0, before)
  {
    hide InBox, InList, PairwiseDisjoint, MissedBy;
    MissedFirst(a, t);
  }

  lemma GrownLast(a: Area, t: Pattern, before: seq<Area>, now: seq<Area>)
    requires |a| == |t| && Grown(before, a, t, |a|, now)
    ensures forall p :: InList(now, p) <==> InList(before, p) || (InBox(a, p) && !Matches(t, p))
    ensures PairwiseDisjoint(before) && (forall p :: InBox(a, p) ==> !InList(before, p)) ==> PairwiseDisjoint(now)
  {
    hide InBox, InList, PairwiseDisjoint, MissedBy, Matches;
    MissedLast(a, t);
  }

  method AddLeftOver(a: Area, other: Pattern, interSets: seq<RangeSet>, complSets: seq<RangeSet>, dim: nat,
                     complementList: SubCubeList, ghost before: seq<Area>)
    requires ValidArea(a) && Parted(a, other, interSets, complSets) && ValidArea(interSets) && dim < |a|
    requires complementList.Valid(|a|) && Grown(before, a, other, dim, AreasOf(complementList.list))
    modifies complementList
    ensures complementList.Valid(|a|) && Grown(before, a, other, dim + 1, AreasOf(complementList.list))
  {
    PartedWidths(a, other, interSets, complSets);
    hide InBox, InList, PairwiseDisjoint, MissedBy, ComplementBox, AreasOf, ValidRanked, ValidArea, Parted, Grown;
    LeftOver(a, other, interSets, complSets, dim);
    var box := ComplementBox(a, interSets, complSets[dim], dim);
    ghost var now := AreasOf(complementList.list);
    if complSets[dim].siz != 0 {
      complementList.InsertAndMerge(box);
    }
    GrownStep(before, a, other, dim, now, box, AreasOf(complementList.list));
  }

  lemma GrownStep(before: seq<Area>, a: Area, t: Pattern, d: nat, now: seq<Area>, box: Area, after: seq<Area>)
    requires d < |a| == |t| && Grown(before, a, t, d, now)
    requires forall p :: MissedBy(a, t, d + 1, p) <==> MissedBy(a, t, d, p) || InBox(box, p)
    requires forall p :: InBox(box, p) ==> InBox(a, p) && !MissedBy(a, t, d, p)
    requires forall p :: InList(after, p) <==> InList(now, p) || InBox(box, p)
    requires PairwiseDisjoint(now) && (forall p :: InBox(box, p) ==> !InList(now, p)) ==> PairwiseDisjoint(after)
    ensures Grown(before, a, t, d + 1, after)
  {
    hide InBox, InList, PairwiseDisjoint, MissedBy;
  }

  lemma PartedWidths(a: Area, t: Pattern, inter: seq<RangeSet>, compl: seq<RangeSet>)
    requires Parted(a, t, inter, compl)
    ensures |a| == |t| == |inter| == |compl|
  {
  }

  lemma MissedFirst(a: Area, other: Pattern)
    requires |a| == |other|
    ensures forall p :: !MissedBy(a, other, 0, p)
  {
  }

  lemma MissedLast(a: Area, other: Pattern)
    requires |a| == |other|
    ensures forall p :: MissedBy(a, other, |a|, p) <==> InBox(a, p) && !Matches(other, p)
  {
  }

  lemma BoxValid(a: Area, inter: seq<RangeSet>, compl: RangeSet, d: nat)
    requires ValidArea(a) && ValidArea(inter) && compl.Valid() && compl.ranges != []
    requires d < |a| == |inter|
    ensures ValidArea(ComplementBox(a, inter, compl, d)) && |ComplementBox(a, inter, compl, d)| == |a|
  {
  }

  lemma NothingMissed(a: Area, inter: seq<RangeSet>, compl: RangeSet, d: nat)
    requires d < |a| == |inter| && compl.ranges == []
    ensures forall p :: !InBox(ComplementBox(a, inter, compl, d), p)
  {
    forall p
      ensures !InBox(ComplementBox(a, inter, compl, d), p)
    {
      assert ComplementBox(a, inter, compl, d)[d] == compl;
    }
  }

  lemma MissedStep(a: Area, t: Pattern, inter: seq<RangeSet>, compl: RangeSet, d: nat)
    requires |a| == |t| == |inter| && d < |a|
    requires forall i :: 0 <= i < |a| ==> forall x :: In(inter[i].ranges, x) <==> In(a[i].ranges, x) && Admits(t[i], x)
    requires forall x :: In(compl.ranges, x) <==> In(a[d].ranges, x) && !Admits(t[d], x)
    ensures forall p :: MissedBy(a, t, d + 1, p) <==> MissedBy(a, t, d, p) || InBox(ComplementBox(a, inter, compl, d), p)
    ensures forall p :: InBox(ComplementBox(a, inter, compl, d), p) ==> InBox(a, p) && !MissedBy(a, t, d, p)
  {
    hide In, Admits, InBox, ComplementBox;
    forall p
      ensures MissedBy(a, t, d + 1, p) <==> MissedBy(a, t, d, p) || InBox(ComplementBox(a, inter, compl, d), p)
      ensures InBox(ComplementBox(a, inter, compl, d), p) ==> InBox(a, p) && !MissedBy(a, t, d, p)
    {
      ComplementCells(a, t, inter, compl, d, p);
      BoxWidth(a, p);
      assert MatchesTo(t, p, d + 1) <==> MatchesTo(t, p, d) && Admits(t[d], p[d]);
    }
  }

  lemma BoxWidth(a: Area, p: Key)
    ensures InBox(a, p) ==> |p| == |a|
  {
  }

  // ------------------------------------------------------------------------------------------
  // Lexicographic splitting
  // ------------------------------------------------------------------------------------------

  ghost predicate ValidSets(a: Area)
  {
    forall i :: 0 <= i < |a| ==> a[i].Valid()
  }

  /** First id of a nonempty set: where its begin() iterator stands. */
  function First(s: RangeSet): nat
    requires s.ranges != []
  {
    s.ranges[0].low
  }

  /** Bounded in each of the first d dimensions, and lexicographically bounded from d on. */
  ghost predicate Between(start: Key, stop: Key, d: nat, p: Key)
  {
    && |p| == |start| == |stop| && d <= |p|
    && (forall i :: 0 <= i < d ==> start[i] <= p[i] <= stop[i])
    && LexLeFrom(start, p, d) && LexLeFrom(p, stop, d)
  }

  /**
   * What a split call may rely on: bounds in order, no stop below an area's first id, and
   * either all earlier dimensions fixed or all remaining ones unrestricted.
   */
  ghost predicate SplitBounds(a: Area, start: Key, stop: Key, d: nat)
  {
    && |start| == |stop| == |a| && d <= |a| && ValidArea(a)
    && (forall i :: 0 <= i < d ==> start[i] <= stop[i])
    && LexLeFrom(start, stop, d)
    && (forall i :: 0 <= i < |a| ==> start[i] <= NO_IDENTIFIER && stop[i] <= NO_IDENTIFIER)
    && (forall i :: d < i < |a| ==> First(a[i]) <= stop[i])
    && ((forall i :: 0 <= i < d ==> start[i] == stop[i])
        || (forall i :: d <= i < |a| ==> start[i] == First(a[i]) && stop[i] == NO_IDENTIFIER))
  }

  lemma {:induction false} PointwiseLexLe(x: Key, y: Key, d: nat)
    requires |x| == |y| && d <= |x|
    requires forall i :: d <= i < |x| ==> x[i] <= y[i]
    ensures LexLeFrom(x, y, d)
    decreases |x| - d
  {
    if d < |x| {
      PointwiseLexLe(x, y, d + 1);
    }
  }

  lemma {:induction false} LexLeCongruent(x: Key, x': Key, y: Key, y': Key, d: nat)
    requires |x| == |y| == |x'| == |y'| && d <= |x|
    requires forall i :: d <= i < |x| ==> x[i] == x'[i] && y[i] == y'[i]
    ensures LexLeFrom(x, y, d) <==> LexLeFrom(x', y', d)
    decreases |x| - d
  {
    if d < |x| {
      LexLeCongruent(x, x', y, y', d + 1);
    }
  }

  lemma BoxBounds(a: Area, p: Key, i: nat)
    requires ValidArea(a) && InBox(a, p) && i < |a|
    ensures First(a[i]) <= p[i] < NO_IDENTIFIER
  {
    assert In(a[i].ranges, p[i]);
  }

  lemma AllBoxBounds(a: Area, p: Key)
    requires ValidArea(a) && InBox(a, p)
    ensures forall i :: 0 <= i < |a| ==> First(a[i]) <= p[i] < NO_IDENTIFIER
  {
    forall i | 0 <= i < |a|
      ensures First(a[i]) <= p[i] < NO_IDENTIFIER
    {
      BoxBounds(a, p, i);
    }
  }

  /** The cut behind the first slice of an interval, if the slice is not a whole one. */
  ghost predicate HeadCut(a: Area, start: Key, d: nat, cut: bool, headStop: Key, mStart: Key)
    requires |start| == |a| && d < |a| && ValidArea(a)
  {
    && |headStop| == |mStart| == |a|
    && (forall i :: 0 <= i < d ==> mStart[i] == start[i])
    && (if cut then
          && mStart[d] == start[d] + 1
          && (forall i :: 0 <= i <= d ==> headStop[i] == start[i])
          && (forall i :: d < i < |a| ==> headStop[i] == NO_IDENTIFIER && mStart[i] == First(a[i]))
          && (exists i :: d < i < |a| && start[i] != First(a[i]))
        else
          && mStart == start
          && (forall i :: d < i < |a| ==> start[i] == First(a[i])))
  }

  /** The cut before the last slice of an interval, if the slice is not a whole one. */
  ghost predicate TailCut(a: Area, stop: Key, d: nat, cut: bool, tailStart: Key, mStop: Key)
    requires |stop| == |a| && d < |a| && ValidArea(a)
  {
    && |tailStart| == |mStop| == |a|
    && (forall i :: 0 <= i < d ==> mStop[i] == stop[i])
    && (if cut then
          && mStop[d] + 1 == stop[d]
          && (forall i :: 0 <= i <= d ==> tailStart[i] == stop[i])
          && (forall i :: d < i < |a| ==> tailStart[i] == First(a[i]) && mStop[i] == NO_IDENTIFIER)
          && (exists i :: d < i < |a| && stop[i] != NO_IDENTIFIER)
        else
          && mStop == stop
          && (forall i :: d < i < |a| ==> stop[i] == NO_IDENTIFIER))
  }

  /** The cut of an interval at dimension d into its first slice, its middle and its last slice. */
  ghost predicate CutAt(a: Area, start: Key, stop: Key, d: nat, mStart: Key, mStop: Key, headStop: Key, tailStart: Key,
                        cutHead: bool, cutTail: bool)
  {
    && |start| == |stop| == |a| && d < |a| && ValidArea(a) && start[d] < stop[d]
    && HeadCut(a, start, d, cutHead, headStop, mStart)
    && TailCut(a, stop, d, cutTail, tailStart, mStop)
  }

  method CutBeginning(a: Area, start: Key, d: nat) returns (cut: bool, path: Key, middleStart: Key)
    requires ValidArea(a) && |start| == |a| && d < |a|
    ensures HeadCut(a, start, d, cut, path, middleStart)
  {
    middleStart, path := start, start;
    var firstCut := d + 1;
    while firstCut < |a| && start[firstCut] == First(a[firstCut])
      invariant d < firstCut <= |a|
      invariant forall i :: d < i < firstCut ==> start[i] == First(a[i])
    {
      firstCut := firstCut + 1;
    }
    cut := firstCut != |a|;
    if cut {
      middleStart := middleStart[d := middleStart[d] + 1];
      for i := d + 1 to |a|
        invariant |path| == |middleStart| == |a|
        invariant forall j :: 0 <= j <= d ==> path[j] == start[j]
        invariant forall j :: 0 <= j < d ==> middleStart[j] == start[j]
        invariant middleStart[d] == start[d] + 1
        invariant forall j :: d < j < i ==> path[j] == NO_IDENTIFIER && middleStart[j] == First(a[j])
      {
        path := path[i := NO_IDENTIFIER];
        middleStart := middleStart[i := First(a[i])];
      }
    }
  }

  method CutEnd(a: Area, stop: Key, d: nat) returns (cut: bool, path: Key, middleStop: Key)
    requires ValidArea(a) && |stop| == |a| && d < |a| && stop[d] > 0
    ensures TailCut(a, stop, d, cut, path, middleStop)
  {
    middleStop, path := stop, stop;
    var lastCut := d + 1;
    while lastCut < |a| && stop[lastCut] == NO_IDENTIFIER
      invariant d < lastCut <= |a|
      invariant forall i :: d < i < lastCut ==> stop[i] == NO_IDENTIFIER
    {
      lastCut := lastCut + 1;
    }
    cut := lastCut != |a|;
    if cut {
      middleStop := middleStop[d := middleStop[d] - 1];
      for i := d + 1 to |a|
        invariant |path| == |middleStop| == |a|
        invariant forall j :: 0 <= j <= d ==> path[j] == stop[j]
        invariant forall j :: 0 <= j < d ==> middleStop[j] == stop[j]
        invariant middleStop[d] == stop[d] - 1
        invariant forall j :: d < j < i ==> path[j] == First(a[j]) && middleStop[j] == NO_IDENTIFIER
      {
        path := path[i := First(a[i])];
        middleStop := middleStop[i := NO_IDENTIFIER];
      }
    }
  }

  /** The three slices of a cut cover the interval, and no cell lies in two of them. */
  lemma CutCells(a: Area, start: Key, stop: Key, d: nat, mStart: Key, mStop: Key, headStop: Key, tailStart: Key,
                 cutHead: bool, cutTail: bool, p: Key)
    requires CutAt(a, start, stop, d, mStart, mStop, headStop, tailStart, cutHead, cutTail)
    requires cutHead || cutTail ==> forall i :: 0 <= i < d ==> start[i] == stop[i]
    requires InBox(a, p)
    ensures Between(start, stop, d, p) <==>
      || (cutHead && Between(start, headStop, d + 1, p))
      || Between(mStart, mStop, d + 1, p)
      || (cutTail && Between(tailStart, stop, d + 1, p))
    ensures !(cutHead && Between(start, headStop, d + 1, p) && Between(mStart, mStop, d + 1, p))
    ensures !(cutHead && Between(start, headStop, d + 1, p) && cutTail && Between(tailStart, stop, d + 1, p))
    ensures !(cutTail && Between(tailStart, stop, d + 1, p) && Between(mStart, mStop, d + 1, p))
  {
    hide InBox, In, ValidArea, LexLeFrom;
    AllBoxBounds(a, p);
    BoxWidth(a, p);
    PointwiseLexLe(mStart, p, d + 1);
    PointwiseLexLe(p, mStop, d + 1);
    LexLeStep(start, p, d);
    LexLeStep(p, stop, d);
    if cutHead {
      PointwiseLexLe(p, headStop, d + 1);
    }
    if cutTail {
      PointwiseLexLe(tailStart, p, d + 1);
    }
  }

  lemma LexLeStep(x: Key, y: Key, d: nat)
    requires |x| == |y| && d < |x|
    ensures LexLeFrom(x, y, d) <==> x[d] < y[d] || (x[d] == y[d] && LexLeFrom(x, y, d + 1))
  {
  }

  /** Every produced box has one valid set per dimension; a box may be empty. */
  ghost predicate Boxes(l: seq<Area>, n: nat)
  {
    forall i :: 0 <= i < |l| ==> |l[i]| == n && ValidSets(l[i])
  }

  /** The boxes hold exactly the area's cells between the bounds, and no cell twice. */
  ghost predicate SplitsInto(a: Area, start: Key, stop: Key, d: nat, l: seq<Area>)
  {
    && Boxes(l, |a|) && PairwiseDisjoint(l)
    && forall p :: InList(l, p) <==> InBox(a, p) && Between(start, stop, d, p)
  }

  /**
   * Split calls that come from the area's first cell: later dimensions start at their first id and
   * stop at ids of the area or not at all, and earlier ones have an id within their bounds.
   */
  ghost predicate FromFirst(a: Area, start: Key, stop: Key, d: nat)
    requires |start| == |stop| == |a| && d <= |a| && ValidArea(a)
  {
    && (forall i :: 0 <= i < d ==> Hits(a[i], start[i], stop[i]))
    && (forall i :: d <= i < |a| ==> start[i] == First(a[i]))
    && (|| (forall i :: d <= i < |a| ==> In(a[i].ranges, stop[i]))
        || (forall i :: d <= i < |a| ==> stop[i] == NO_IDENTIFIER))
  }

  /** The set has an id within the bounds. */
  ghost predicate Hits(s: RangeSet, low: nat, high: nat)
  {
    exists x :: In(s.ranges, x) && low <= x <= high
  }

  lemma HitsFirst(s: RangeSet, low: nat, high: nat)
    requires s.Valid() && s.ranges != [] && low == First(s) <= high
    ensures Hits(s, low, high)
  {
    CanonicalAt(s.ranges, 0);
    InFirst(s.ranges, low);
  }

  /**
   * Cuts the cells from start to stop, both included, in key order, into boxes. None of the boxes
   * is empty if start is the first cell.
   */
  method Split(a: Area, start: Key, stop: Key, d: nat) returns (areaList: seq<Area>)
    requires SplitBounds(a, start, stop, d)
    ensures SplitsInto(a, start, stop, d, areaList)
    ensures FromFirst(a, start, stop, d) ==> ValidList(areaList, |a|)
    decreases |a| - d
  {
    hide In, InBox, InList, PairwiseDisjoint, Between, LexLeFrom, SplitsInto, Canonical, Count, HeadCut, TailCut, FromFirst, ValidList;
    if d == |a| {
      // last dimension: one box
      var box: Area := [];
      for i := 0 to |a|
        invariant |box| == i
        invariant forall j :: 0 <= j < i ==> box[j].Valid()
        invariant forall j :: 0 <= j < i ==>
          forall x :: In(box[j].ranges, x) <==> In(a[j].ranges, x) && start[j] <= x <= stop[j]
      {
        var s := Limit(a[i], start[i], stop[i]);
        box := box + [s];
      }
      LimitedBox(a, start, stop, box);
      areaList := [box];
    } else if start[d] == stop[d] {
      FixedDimension(a, start, stop, d);
      areaList := Split(a, start, stop, d + 1);
      SameInterval(a, start, stop, d, areaList);
    } else {
      LexLeStep(start, stop, d);
      CutBounds(a, start, stop, d);
      var cutHead, headStop, middleStart := CutBeginning(a, start, d);
      var cutTail, tailStart, middleStop := CutEnd(a, stop, d);
      CutSlices(a, start, stop, d, middleStart, middleStop, headStop, tailStart, cutHead, cutTail);
      CutFromFirst(a, start, stop, d, middleStart, middleStop, headStop, tailStart, cutHead, cutTail);
      var head: seq<Area>, middle: seq<Area>, tail: seq<Area> := [], [], [];
      if cutHead {
        head := Split(a, start, headStop, d + 1);
      }
      if middleStart[d] <= middleStop[d] {
        middle := Split(a, middleStart, middleStop, d + 1);
      }
      if cutTail {
        tail := Split(a, tailStart, stop, d + 1);
      }
      JoinSlices(a, start, stop, d, middleStart, middleStop, headStop, tailStart, cutHead, cutTail, head, middle, tail);
      JoinValid(head, middle, tail, |a|);
      areaList := head + middle + tail;
    }
  }

  lemma JoinValid(head: seq<Area>, middle: seq<Area>, tail: seq<Area>, n: nat)
    ensures ValidList([], n)
    ensures ValidList(head + middle + tail, n) <==> ValidList(head, n) && ValidList(middle, n) && ValidList(tail, n)
  {
    hide ValidArea;
    ValidListConcat(head + middle, tail, n);
    ValidListConcat(head, middle, n);
  }

  /** From the first cell on there is nothing to cut at the begin, and both other slices are again from the first cell. */
  lemma CutFromFirst(a: Area, start: Key, stop: Key, d: nat, mStart: Key, mStop: Key, headStop: Key, tailStart: Key,
                     cutHead: bool, cutTail: bool)
    requires SplitBounds(a, start, stop, d)
    requires CutAt(a, start, stop, d, mStart, mStop, headStop, tailStart, cutHead, cutTail)
    requires cutHead || cutTail ==> forall i :: 0 <= i < d ==> start[i] == stop[i]
    ensures FromFirst(a, start, stop, d) ==> !cutHead
    ensures FromFirst(a, start, stop, d) && mStart[d] <= mStop[d] ==> FromFirst(a, mStart, mStop, d + 1)
    ensures FromFirst(a, start, stop, d) && cutTail ==> FromFirst(a, tailStart, stop, d + 1)
  {
    hide In, LexLeFrom, SplitBounds, Hits;
    assert ValidArea(a);
    if FromFirst(a, start, stop, d) {
      assert !cutHead;
      if mStart[d] <= mStop[d] {
        HitsFirst(a[d], mStart[d], mStop[d]);
      }
      if cutTail {
        HitsItself(a[d], stop[d]);
      }
    }
  }

  lemma HitsItself(s: RangeSet, x: nat)
    ensures In(s.ranges, x) ==> Hits(s, x, x)
  {
  }

  lemma CutBounds(a: Area, start: Key, stop: Key, d: nat)
    requires SplitBounds(a, start, stop, d) && d < |a| && start[d] != stop[d]
    ensures start[d] < stop[d] && ValidArea(a) && |start| == |stop| == |a|
  {
  }

  /** Each slice of a cut is again within what a split call may rely on. */
  lemma CutSlices(a: Area, start: Key, stop: Key, d: nat, mStart: Key, mStop: Key, headStop: Key, tailStart: Key,
                  cutHead: bool, cutTail: bool)
    requires SplitBounds(a, start, stop, d)
    requires CutAt(a, start, stop, d, mStart, mStop, headStop, tailStart, cutHead, cutTail)
    ensures cutHead || cutTail ==> forall i :: 0 <= i < d ==> start[i] == stop[i]
    ensures cutHead ==> SplitBounds(a, start, headStop, d + 1)
    ensures cutTail ==> SplitBounds(a, tailStart, stop, d + 1)
    ensures mStart[d] <= mStop[d] ==> SplitBounds(a, mStart, mStop, d + 1)
  {
    hide LexLeFrom, SplitBounds;
    if cutHead {
      HeadSlice(a, start, stop, d, headStop, mStart);
    }
    if cutTail {
      TailSlice(a, start, stop, d, tailStart, mStop);
    }
    if mStart[d] <= mStop[d] {
      MiddleSlice(a, start, stop, d, mStart, mStop, headStop, tailStart, cutHead, cutTail);
    }
  }

  lemma HeadSlice(a: Area, start: Key, stop: Key, d: nat, headStop: Key, mStart: Key)
    requires SplitBounds(a, start, stop, d) && d < |a| && HeadCut(a, start, d, true, headStop, mStart)
    ensures forall i :: 0 <= i < d ==> start[i] == stop[i]
    ensures SplitBounds(a, start, headStop, d + 1)
  {
    hide LexLeFrom;
    FirstBelowNo(a);
    PointwiseLexLe(start, headStop, d + 1);
  }

  lemma TailSlice(a: Area, start: Key, stop: Key, d: nat, tailStart: Key, mStop: Key)
    requires SplitBounds(a, start, stop, d) && d < |a| && TailCut(a, stop, d, true, tailStart, mStop)
    ensures forall i :: 0 <= i < d ==> start[i] == stop[i]
    ensures SplitBounds(a, tailStart, stop, d + 1)
  {
    hide LexLeFrom;
    FirstBelowNo(a);
    PointwiseLexLe(tailStart, stop, d + 1);
  }

  lemma MiddleSlice(a: Area, start: Key, stop: Key, d: nat, mStart: Key, mStop: Key, headStop: Key, tailStart: Key,
                    cutHead: bool, cutTail: bool)
    requires SplitBounds(a, start, stop, d)
    requires CutAt(a, start, stop, d, mStart, mStop, headStop, tailStart, cutHead, cutTail) && mStart[d] <= mStop[d]
    ensures SplitBounds(a, mStart, mStop, d + 1)
  {
    hide LexLeFrom, ValidArea;
    FirstBelowNo(a);
    MiddleOrder(a, start, stop, d, mStart, mStop, headStop, tailStart, cutHead, cutTail);
    PointwiseLexLe(mStart, mStop, d + 1);
  }

  /** Behind dimension d the middle slice is unrestricted, and bounded below by the area's first ids. */
  lemma MiddleOrder(a: Area, start: Key, stop: Key, d: nat, mStart: Key, mStop: Key, headStop: Key, tailStart: Key,
                    cutHead: bool, cutTail: bool)
    requires CutAt(a, start, stop, d, mStart, mStop, headStop, tailStart, cutHead, cutTail)
    ensures forall i :: d < i < |a| ==> mStart[i] == First(a[i]) && mStop[i] == NO_IDENTIFIER
    ensures forall i :: 0 <= i < d ==> mStart[i] == start[i] && mStop[i] == stop[i]
    ensures start[d] <= mStart[d] <= start[d] + 1 && mStop[d] <= stop[d]
  {
  }

  lemma FirstBelowNo(a: Area)
    requires ValidArea(a)
    ensures forall i :: 0 <= i < |a| ==> First(a[i]) < NO_IDENTIFIER
  {
    forall i | 0 <= i < |a|
      ensures First(a[i]) < NO_IDENTIFIER
    {
      CanonicalAt(a[i].ranges, 0);
    }
  }

  lemma LimitedBox(a: Area, start: Key, stop: Key, box: Area)
    requires |a| == |start| == |stop| == |box|
    requires ValidSets(box)
    requires forall j :: 0 <= j < |a| ==> forall x :: In(box[j].ranges, x) <==> In(a[j].ranges, x) && start[j] <= x <= stop[j]
    ensures SplitsInto(a, start, stop, |a|, [box])
    ensures ValidArea(a) && FromFirst(a, start, stop, |a|) ==> ValidList([box], |a|)
  {
    hide In;
    forall i | 0 <= i < |a| && Hits(a[i], start[i], stop[i])
      ensures box[i].ranges != []
    {
      var x :| In(a[i].ranges, x) && start[i] <= x <= stop[i];
      assert In(box[i].ranges, x);
      NotInNone(x);
    }
    OneListDisjoint(box);
    forall p
      ensures InList([box], p) <==> InBox(a, p) && Between(start, stop, |a|, p)
    {
      InListOne(box, p);
      if InBox(box, p) {
        forall i | 0 <= i < |a|
          ensures In(a[i].ranges, p[i]) && start[i] <= p[i] <= stop[i]
        {
          assert In(box[i].ranges, p[i]);
        }
      }
    }
  }

  lemma NotInNone(x: int)
    ensures !In([], x)
  {
  }

  lemma FixedDimension(a: Area, start: Key, stop: Key, d: nat)
    requires SplitBounds(a, start, stop, d) && d < |a| && start[d] == stop[d]
    ensures SplitBounds(a, start, stop, d + 1)
    ensures FromFirst(a, start, stop, d) ==> FromFirst(a, start, stop, d + 1)
  {
    hide In, Hits, LexLeFrom;
    LexLeStep(start, stop, d);
    HitsFirst(a[d], First(a[d]), First(a[d]));
  }

  lemma SameInterval(a: Area, start: Key, stop: Key, d: nat, l: seq<Area>)
    requires |start| == |stop| == |a| && d < |a| && start[d] == stop[d]
    requires SplitsInto(a, start, stop, d + 1, l)
    ensures SplitsInto(a, start, stop, d, l)
  {
    hide InBox, InList, PairwiseDisjoint;
    forall p
      ensures Between(start, stop, d, p) <==> Between(start, stop, d + 1, p)
    {
    }
  }

  lemma JoinSlices(a: Area, start: Key, stop: Key, d: nat, mStart: Key, mStop: Key, headStop: Key, tailStart: Key,
                   cutHead: bool, cutTail: bool, head: seq<Area>, middle: seq<Area>, tail: seq<Area>)
    requires CutAt(a, start, stop, d, mStart, mStop, headStop, tailStart, cutHead, cutTail)
    requires cutHead || cutTail ==> forall i :: 0 <= i < d ==> start[i] == stop[i]
    requires if cutHead then SplitsInto(a, start, headStop, d + 1, head) else head == []
    requires if mStart[d] <= mStop[d] then SplitsInto(a, mStart, mStop, d + 1, middle) else middle == []
    requires if cutTail then SplitsInto(a, tailStart, stop, d + 1, tail) else tail == []
    ensures SplitsInto(a, start, stop, d, head + middle + tail)
  {
    hide In, InBox, LexLeFrom, Between, PairwiseDisjoint, ValidArea;
    assert Boxes(head + middle + tail, |a|);
    forall p
      ensures InList(head + middle + tail, p) <==> InBox(a, p) && Between(start, stop, d, p)
      ensures !(InList(head, p) && InList(middle, p))
      ensures !(InList(head + middle, p) && InList(tail, p))
    {
      InListConcat(head + middle, tail, p);
      InListConcat(head, middle, p);
      EmptySlice(mStart, mStop, d, p);
      if InBox(a, p) {
        CutCells(a, start, stop, d, mStart, mStop, headStop, tailStart, cutHead, cutTail, p);
      }
    }
    NoneDisjoint();
    DisjointConcat(head, middle);
    DisjointConcat(head + middle, tail);
  }

  lemma NoneDisjoint()
    ensures PairwiseDisjoint([])
  {
  }

  lemma EmptySlice(mStart: Key, mStop: Key, d: nat, p: Key)
    requires |mStart| == |mStop| && d < |mStart|
    ensures mStart[d] > mStop[d] ==> !Between(mStart, mStop, d + 1, p)
  {
  }

  /** Two cells of the area in key order, or a cell and plus infinity, are bounds Split accepts. */
  lemma CellBounds(a: Area, start: Key, stop: Key)
    requires ValidArea(a) && InBox(a, start) && |stop| == |a|
    requires (InBox(a, stop) && LexLe(start, stop)) || forall i :: 0 <= i < |a| ==> stop[i] == NO_IDENTIFIER
    ensures SplitBounds(a, start, stop, 0)
  {
    hide InBox, ValidArea;
    AllBoxBounds(a, start);
    BoxWidth(a, start);
    FirstBelowNo(a);
    if InBox(a, stop) {
      AllBoxBounds(a, stop);
    } else {
      PointwiseLexLe(start, stop, 0);
    }
  }

  /** Split from the first dimension on is exact with respect to the key order. */
  lemma SplitIsLexInterval(a: Area, start: Key, stop: Key, l: seq<Area>, p: Key)
    requires SplitsInto(a, start, stop, 0, l) && |start| == |stop| == |a|
    ensures InList(l, p) <==> InBox(a, p) && LexLe(start, p) && LexLe(p, stop)
  {
    BoxWidth(a, p);
  }
}
