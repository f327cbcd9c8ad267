/** SubCubeList: a list of areas that merges boxes differing in at most one dimension. */
module SubCubes {
  import opened Ids
  import opened Ranges
  import opened Areas
  import opened IdSets

  datatype Ranked = Ranked(rank: nat, area: Area)

  /** The areas of the list, in list order. */
  function AreasOf(l: seq<Ranked>): (r: seq<Area>)
    ensures |r| == |l| && forall i :: 0 <= i < |l| ==> r[i] == l[i].area
  {
    seq(|l|, i requires 0 <= i < |l| => l[i].area)
  }

  lemma AreasOfConcat(a: seq<Ranked>, b: seq<Ranked>)
    ensures AreasOf(a + b) == AreasOf(a) + AreasOf(b)
  {
  }

  /** Number of dimensions holding more than one element. */
  function AreaRank(a: Area): nat
  {
    if a == [] then 0
    else AreaRank(a[..|a| - 1]) + (if a[|a| - 1].siz > 1 then 1 else 0)
  }

  method GetRank(a: Area) returns (rank: nat)
    ensures rank == AreaRank(a)
  {
    rank := 0;
    assert a[..0] == [];
    for i := 0 to |a|
      invariant rank == AreaRank(a[..i])
    {
      assert a[..i + 1][..i] == a[..i];
      if a[i].siz > 1 {
        rank := rank + 1;
      }
    }
    assert a[..|a|] == a;
  }

  /** Both sets together: the ids of the shorter one are inserted into a copy of the longer one. */
  method UnionSets(longSet: RangeSet, shortSet: RangeSet) returns (u: RangeSet)
    requires longSet.Valid() && shortSet.Valid()
    ensures u.Valid()
    ensures forall x :: In(u.ranges, x) <==> In(longSet.ranges, x) || In(shortSet.ranges, x)
  {
    hide In, Canonical, Count;
    var s := new IdSet.Copy(longSet);
    var rs := shortSet.ranges;
    InNone();
    assert rs[..0] == [];
    for i := 0 to |rs|
      invariant s.Valid()
      invariant forall x :: In(s.ranges, x) <==> In(longSet.ranges, x) || In(rs[..i], x)
    {
      CanonicalAt(rs, i);
      assert rs[..i + 1] == rs[..i] + [rs[i]];
      InAppendAll(rs[..i], rs[i]);
      var id := rs[i].low;
      while id <= rs[i].high
        invariant rs[i].low <= id <= rs[i].high + 1
        invariant s.Valid()
        invariant forall x :: In(s.ranges, x) <==> In(longSet.ranges, x) || In(rs[..i], x) || rs[i].low <= x < id
      {
        var isNew := s.Insert(id);
        id := id + 1;
      }
    }
    assert rs[..|rs|] == rs;
    u := s.Freeze();
  }

  /** The areas agree in every dimension but possibly d. */
  ghost predicate AgreeExcept(a: Area, b: Area, d: int)
  {
    |a| == |b| && forall i :: 0 <= i < |a| && i != d ==> a[i] == b[i]
  }

  /**
   * Joins two boxes that differ in at most one dimension into the box of exactly their cells.
   */
  method JoinSubCubes(a: Area, b: Area) returns (joined: bool, cube: Ranked)
    requires ValidArea(a) && ValidArea(b) && |a| == |b|
    ensures joined <==> exists d :: AgreeExcept(a, b, d)
    ensures joined ==> |cube.area| == |a| && ValidArea(cube.area) && cube.rank == AreaRank(cube.area)
    ensures joined ==> forall p :: InBox(cube.area, p) <==> InBox(a, p) || InBox(b, p)
  {
    var diffCount, diffDim := 0, -1;
    for i := 0 to |a|
      invariant diffCount == 0 || diffCount == 1
      invariant diffCount == 0 ==> diffDim == -1
      invariant diffCount == 1 ==> 0 <= diffDim < i && a[diffDim] != b[diffDim]
      invariant forall j :: 0 <= j < i && j != diffDim ==> a[j] == b[j]
    {
      if a[i] != b[i] {
        diffCount := diffCount + 1;
        if diffCount > 1 {
          cube := Ranked(0, []);
          TwoDifferences(a, b, diffDim, i);
          return false, cube;
        }
        diffDim := i;
      }
    }
    assert AgreeExcept(a, b, diffDim);
    cube := JoinAlong(a, b, diffDim);
    joined := true;
  }

  /** Builds the joined box: the union along dimension diffDim, the common set elsewhere. */
  method JoinAlong(a: Area, b: Area, diffDim: int) returns (cube: Ranked)
    requires ValidArea(a) && ValidArea(b) && AgreeExcept(a, b, diffDim)
    ensures |cube.area| == |a| && ValidArea(cube.area) && cube.rank == AreaRank(cube.area)
    ensures forall p :: InBox(cube.area, p) <==> InBox(a, p) || InBox(b, p)
  {
    hide In, Canonical, Count, InBox, AreaRank;
    var newCube: Area, rank: nat := [], 0;
    RankGrows([], EMPTY_SET);
    for i := 0 to |a|
      invariant |newCube| == i && ValidArea(newCube) && rank == AreaRank(newCube)
      invariant forall j :: 0 <= j < i && j != diffDim ==> newCube[j] == a[j]
      invariant 0 <= diffDim < i ==>
        forall x :: In(newCube[diffDim].ranges, x) <==> In(a[diffDim].ranges, x) || In(b[diffDim].ranges, x)
    {
      var s := a[i];
      if i == diffDim {
        var smaller := a[i].siz < b[i].siz;
        s := UnionSets(if smaller then b[i] else a[i], if smaller then a[i] else b[i]);
        UnionNonempty(a[i], b[i], s);
      }
      if s.siz > 1 {
        rank := rank + 1;
      }
      RankGrows(newCube, s);
      newCube := newCube + [s];
    }
    JoinedCells(a, b, newCube, diffDim);
    cube := Ranked(rank, newCube);
  }

  lemma RankGrows(a: Area, s: RangeSet)
    ensures AreaRank([]) == 0
    ensures AreaRank(a + [s]) == AreaRank(a) + (if s.siz > 1 then 1 else 0)
  {
    assert (a + [s])[..|a|] == a;
  }

  lemma UnionNonempty(a: RangeSet, b: RangeSet, u: RangeSet)
    requires a.ranges != [] && a.Valid()
    requires forall x :: In(u.ranges, x) <==> In(a.ranges, x) || In(b.ranges, x)
    ensures u.ranges != []
  {
    CanonicalAt(a.ranges, 0);
    InFirst(a.ranges, a.ranges[0].low);
    assert In(u.ranges, a.ranges[0].low);
  }

  lemma TwoDifferences(a: Area, b: Area, i: nat, j: nat)
    requires |a| == |b| && i < j < |a| && a[i] != b[i] && a[j] != b[j]
    ensures !exists d :: AgreeExcept(a, b, d)
  {
  }

  lemma JoinedCells(a: Area, b: Area, c: Area, d: int)
    requires AgreeExcept(a, b, d) && |c| == |a|
    requires forall j :: 0 <= j < |a| && j != d ==> c[j] == a[j]
    requires 0 <= d < |a| ==> forall x :: In(c[d].ranges, x) <==> In(a[d].ranges, x) || In(b[d].ranges, x)
    ensures forall p :: InBox(c, p) <==> InBox(a, p) || InBox(b, p)
  {
    hide In;
    forall p
      ensures InBox(c, p) <==> InBox(a, p) || InBox(b, p)
    {
      if InBox(c, p) && 0 <= d < |a| {
        assert In(c[d].ranges, p[d]);
        if In(a[d].ranges, p[d]) {
          assert forall i :: 0 <= i < |a| ==> In(a[i].ranges, p[i]);
        } else {
          assert forall i :: 0 <= i < |a| ==> In(b[i].ranges, p[i]);
        }
      }
    }
  }

  /** Boxes that differ in at most one dimension differ by at most 1 in rank, so that comparing ranks first loses no join. */
  lemma {:induction false} RanksClose(a: Area, b: Area, d: int)
    requires AgreeExcept(a, b, d)
    ensures -1 <= AreaRank(a) - AreaRank(b) <= 1
    ensures d >= |a| || d < 0 ==> AreaRank(a) == AreaRank(b)
  {
    if a != [] {
      var n := |a| - 1;
      RanksClose(a[..n], b[..n], d);
      assert a == a[..n] + [a[n]] && b == b[..n] + [b[n]];
      RankGrows(a[..n], a[n]);
      RankGrows(b[..n], b[n]);
    }
  }

  /** No two boxes of the list can be joined. */
  ghost predicate Unmergeable(l: seq<Ranked>)
  {
    forall i, j, d :: 0 <= i < j < |l| ==> !AgreeExcept(l[i].area, l[j].area, d)
  }

  /** The first entry cannot be joined with any of those before index i; nor can two others, if two before could not. */
  ghost predicate FrontTried(before: seq<Ranked>, l: seq<Ranked>, i: nat)
  {
    && (forall j, d :: 0 < j < i && j < |l| ==> !AgreeExcept(l[0].area, l[j].area, d))
    && (Unmergeable(before) ==> forall j, k, d :: 0 < j < k < |l| ==> !AgreeExcept(l[j].area, l[k].area, d))
  }

  lemma FrontNew(before: seq<Ranked>, x: Ranked)
    ensures FrontTried(before, [x] + before, 1)
  {
    hide AgreeExcept;
    assert forall j :: 0 < j <= |before| ==> ([x] + before)[j] == before[j - 1];
  }

  lemma AgreeBack(a: Area, b: Area, d: int)
    ensures AgreeExcept(a, b, d) <==> AgreeExcept(b, a, d)
  {
  }

  lemma FrontFails(before: seq<Ranked>, l: seq<Ranked>, i: nat)
    requires FrontTried(before, l, i) && 0 < i < |l|
    requires (-1 <= l[i].rank - l[0].rank <= 1) ==> !exists d :: AgreeExcept(l[i].area, l[0].area, d)
    requires l[i].rank == AreaRank(l[i].area) && l[0].rank == AreaRank(l[0].area)
    ensures FrontTried(before, l, i + 1)
  {
    hide AreaRank, Unmergeable;
    forall d
      ensures !AgreeExcept(l[0].area, l[i].area, d)
    {
      AgreeBack(l[0].area, l[i].area, d);
      if AgreeExcept(l[0].area, l[i].area, d) {
        RanksClose(l[0].area, l[i].area, d);
      }
    }
  }

  lemma FrontMerged(before: seq<Ranked>, l: seq<Ranked>, i: nat, cube: Ranked)
    requires FrontTried(before, l, i) && 0 < i < |l|
    ensures FrontTried(before, [cube] + l[1..i] + l[i + 1..], 1)
  {
    hide AgreeExcept, Unmergeable;
    var now := [cube] + l[1..i] + l[i + 1..];
    assert forall j :: 0 < j < |now| ==> now[j] == l[if j < i then j else j + 1];
  }

  lemma FrontDone(before: seq<Ranked>, l: seq<Ranked>, i: nat)
    requires FrontTried(before, l, i) && i >= |l|
    ensures forall j, d :: 0 < j < |l| ==> !AgreeExcept(l[0].area, l[j].area, d)
    ensures Unmergeable(before) ==> Unmergeable(l)
  {
    hide AgreeExcept;
  }

  /** Entries of valid n-dimensional areas with their right ranks. */
  ghost predicate ValidRanked(l: seq<Ranked>, n: nat)
  {
    ValidList(AreasOf(l), n) && forall i :: 0 <= i < |l| ==> l[i].rank == AreaRank(l[i].area)
  }

  class SubCubeList {
    var list: seq<Ranked>

    /** Every entry is a valid n-dimensional area with its right rank. */
    ghost predicate Valid(n: nat)
      reads this
    {
      ValidRanked(list, n)
    }

    constructor ()
      ensures list == []
    {
      list := [];
    }

    constructor Copy(l: seq<Ranked>)
      ensures list == l
    {
      list := l;
    }

    method PushBack(area: Area)
      requires Valid(|area|) && ValidArea(area)
      modifies this
      ensures Valid(|area|)
      ensures AreasOf(list) == old(AreasOf(list)) + [area]
    {
      var rank := GetRank(area);
      list := list + [Ranked(rank, area)];
    }

    /**
     * Adds an area in front and merges while the first entry can be joined with a later one.
     * The cells of the list grow by exactly those of the area, and disjoint entries stay disjoint.
     */
    method InsertAndMerge(area: Area)
      requires Valid(|area|) && ValidArea(area)
      modifies this
      ensures Valid(|area|) && list != []
      ensures forall p :: InList(AreasOf(list), p) <==> old(InList(AreasOf(list), p)) || InBox(area, p)
      ensures old(PairwiseDisjoint(AreasOf(list)) && forall p :: InBox(area, p) ==> !InList(AreasOf(list), p))
        ==> PairwiseDisjoint(AreasOf(list))
      ensures forall j, d :: 0 < j < |list| ==> !AgreeExcept(list[0].area, list[j].area, d)
      ensures old(Unmergeable(list)) ==> Unmergeable(list)
    {
      hide AgreeExcept, Unmergeable, FrontTried, InBox, InList, Disjoint, PairwiseDisjoint, ListsDisjoint, ValidArea, AreaRank, ValidList, ValidRanked, AreasOf;
      var rank := GetRank(area);
      ghost var before := list;
      list := [Ranked(rank, area)] + list;
      EntryInFront(area, rank, before);
      FrontNew(before, Ranked(rank, area));
      ghost var all := list;
      ghost var tried: nat := 1;
      if |list| > 1 {
        var i := 1;
        while i < |list|
          invariant 1 <= i
          invariant Valid(|area|) && list != []
          invariant SameCells(all, list) && FrontTried(before, list, tried) && (tried == i || |list| == 1 == tried)
          decreases |list|, |list| - i
        {
          EntryAt(list, |area|, 0);
          EntryAt(list, |area|, i);
          var diff := list[i].rank as int - list[0].rank as int;
          if -1 <= diff <= 1 {
            var joined, cube := JoinSubCubes(list[i].area, list[0].area);
            if joined {
              EntriesMerged(all, list, i, cube, |area|);
              FrontMerged(before, list, i, cube);
              tried := 1;
              list := [cube] + list[1..i] + list[i + 1..];
              if |list| == 1 {
                break;
              }
              i := 0;
            }
          }
          if i > 0 {
            FrontFails(before, list, i);
            tried := i + 1;
          }
          i := i + 1;
        }
      }
      FrontDone(before, list, tried);
    }
  }

  /** The same cells, and disjoint if the first ones were. */
  ghost predicate SameCells(before: seq<Ranked>, after: seq<Ranked>)
  {
    && (forall p :: InList(AreasOf(after), p) <==> InList(AreasOf(before), p))
    && (PairwiseDisjoint(AreasOf(before)) ==> PairwiseDisjoint(AreasOf(after)))
  }

  lemma EntryAt(l: seq<Ranked>, n: nat, i: nat)
    requires ValidRanked(l, n) && i < |l|
    ensures |l[i].area| == n && ValidArea(l[i].area) && l[i].rank == AreaRank(l[i].area)
  {
    ValidListAt(AreasOf(l), n, i);
  }

  lemma EntryInFront(area: Area, rank: nat, l: seq<Ranked>)
    requires ValidRanked(l, |area|) && ValidArea(area) && rank == AreaRank(area)
    ensures ValidRanked([Ranked(rank, area)] + l, |area|)
    ensures forall p :: InList(AreasOf([Ranked(rank, area)] + l), p) <==> InList(AreasOf(l), p) || InBox(area, p)
    ensures PairwiseDisjoint(AreasOf(l)) && (forall p :: InBox(area, p) ==> !InList(AreasOf(l), p))
      ==> PairwiseDisjoint(AreasOf([Ranked(rank, area)] + l))
  {
    hide InBox, InList, PairwiseDisjoint, ValidArea, AreaRank, AreasOf, ValidList;
    AreasInFront(Ranked(rank, area), l);
    InsertFront(area, AreasOf(l));
    ValidListFront(area, AreasOf(l));
  }

  lemma AreasInFront(r: Ranked, l: seq<Ranked>)
    ensures AreasOf([r] + l) == [r.area] + AreasOf(l)
  {
  }

  lemma EntriesMerged(all: seq<Ranked>, l: seq<Ranked>, i: nat, cube: Ranked, n: nat)
    requires ValidRanked(l, n) && 0 < i < |l| && SameCells(all, l)
    requires ValidArea(cube.area) && |cube.area| == n && cube.rank == AreaRank(cube.area)
    requires forall p :: InBox(cube.area, p) <==> InBox(l[i].area, p) || InBox(l[0].area, p)
    ensures ValidRanked([cube] + l[1..i] + l[i + 1..], n)
    ensures SameCells(all, [cube] + l[1..i] + l[i + 1..])
  {
    hide InBox, InList, PairwiseDisjoint, ValidArea, AreaRank, ValidList;
    var now := AreasOf(l);
    MergeFront(now, i, cube.area, n);
    assert AreasOf([cube] + l[1..i] + l[i + 1..]) == [cube.area] + now[1..i] + now[i + 1..];
  }

  lemma ValidListAt(l: seq<Area>, n: nat, i: nat)
    requires ValidList(l, n) && i < |l|
    ensures |l[i]| == n && ValidArea(l[i])
  {
  }

  lemma ValidListFront(a: Area, l: seq<Area>)
    requires ValidArea(a) && ValidList(l, |a|)
    ensures ValidList([a] + l, |a|)
  {
  }

  lemma InsertFront(a: Area, l: seq<Area>)
    ensures forall p :: InList([a] + l, p) <==> InList(l, p) || InBox(a, p)
    ensures PairwiseDisjoint(l) && (forall p :: InBox(a, p) ==> !InList(l, p)) ==> PairwiseDisjoint([a] + l)
  {
    hide InBox, InList, PairwiseDisjoint;
    InListConcatAll([a], l);
    forall p
      ensures InList([a], p) <==> InBox(a, p)
    {
      InListOne(a, p);
    }
    OneListDisjoint(a);
    DisjointConcat([a], l);
  }

  /** Replacing entries 0 and i by their join changes neither the cells nor disjointness. */
  lemma MergeFront(l: seq<Area>, i: nat, c: Area, n: nat)
    requires 0 < i < |l| && ValidList(l, n) && ValidArea(c) && |c| == n
    requires forall p :: InBox(c, p) <==> InBox(l[i], p) || InBox(l[0], p)
    ensures ValidList([c] + l[1..i] + l[i + 1..], n)
    ensures forall p :: InList([c] + l[1..i] + l[i + 1..], p) <==> InList(l, p)
    ensures PairwiseDisjoint(l) ==> PairwiseDisjoint([c] + l[1..i] + l[i + 1..])
  {
    hide InBox, InList, PairwiseDisjoint, ListsDisjoint, ValidList;
    var b, d := l[1..i], l[i + 1..];
    assert l == [l[0]] + b + [l[i]] + d;
    assert l == [l[0]] + (b + [l[i]] + d);
    ValidListConcat([l[0]], b + [l[i]] + d, n);
    ValidListConcat(b + [l[i]], d, n);
    ValidListConcat(b, [l[i]], n);
    ValidListConcat(b, d, n);
    ValidListFront(c, b + d);
    assert [c] + b + d == [c] + (b + d);
    MergeCells(l[0], l[i], c, b, d);
    if PairwiseDisjoint(l) {
      MergeDisjoint(l[0], l[i], c, b, d);
    }
  }

  lemma MergeCells(x: Area, y: Area, c: Area, b: seq<Area>, d: seq<Area>)
    requires forall p :: InBox(c, p) <==> InBox(y, p) || InBox(x, p)
    ensures forall p :: InList([c] + b + d, p) <==> InList([x] + b + [y] + d, p)
  {
    hide InBox, InList;
    forall p
      ensures InList([c] + b + d, p) <==> InList([x] + b + [y] + d, p)
    {
      InListConcat([c] + b, d, p);
      InListConcat([c], b, p);
      InListConcat([x] + b + [y], d, p);
      InListConcat([x] + b, [y], p);
      InListConcat([x], b, p);
      InListOne(x, p);
      InListOne(y, p);
      InListOne(c, p);
    }
  }

  lemma MergeDisjoint(x: Area, y: Area, c: Area, b: seq<Area>, d: seq<Area>)
    requires forall p :: InBox(c, p) <==> InBox(y, p) || InBox(x, p)
    requires PairwiseDisjoint([x] + b + [y] + d)
    ensures PairwiseDisjoint([c] + b + d)
  {
    hide InBox, InList, PairwiseDisjoint;
    DisjointConcat([x] + b + [y], d);
    DisjointConcat([x] + b, [y]);
    DisjointConcat([x], b);
    OneListDisjoint(c);
    forall p
      ensures !(InList([c], p) && InList(b, p))
      ensures !(InList([c] + b, p) && InList(d, p))
    {
      InListConcat([x] + b + [y], d, p);
      InListConcat([x] + b, [y], p);
      InListConcat([x], b, p);
      InListConcat([c], b, p);
      InListOne(x, p);
      InListOne(y, p);
      InListOne(c, p);
    }
    DisjointConcat([c], b);
    DisjointConcat([c] + b, d);
  }

  // ------------------------------------------------------------------------------------------
  // Areas kept per rule
  // ------------------------------------------------------------------------------------------

  ghost predicate InRanked(l: seq<Ranked>, p: Key)
  {
    InList(AreasOf(l), p)
  }

  type RuleMap = map<nat, seq<Ranked>>

  ghost predicate InAt(m: RuleMap, id: nat, p: Key)
  {
    id in m && InRanked(m[id], p)
  }

  /** Valid areas under every id. */
  ghost predicate ValidMap(m: RuleMap, n: nat)
  {
    forall id :: id in m ==> ValidRanked(m[id], n)
  }

  lemma NoCellsRanked(n: nat)
    ensures ValidRanked([], n) && PairwiseDisjoint(AreasOf([]))
    ensures forall p :: !InRanked([], p)
  {
  }
}
