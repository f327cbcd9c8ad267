/** Cell regions: an area is a product of id sets, a list of areas denotes the union of its boxes. */
module Areas {
  import opened Ids
  import opened Ranges
  import opened Wrappers

  /** One set of ids per dimension. */
  type Area = seq<RangeSet>

  /** One optional set per dimension, as a rule's destination: no set leaves the dimension unrestricted. */
  type Pattern = seq<Option<RangeSet>>

  ghost predicate ValidArea(a: Area)
  {
    forall i :: 0 <= i < |a| ==> a[i].Valid() && a[i].ranges != []
  }

  ghost predicate ValidPattern(t: Pattern)
  {
    forall i :: 0 <= i < |t| && t[i].Some? ==> t[i].value.Valid()
  }

  /** The cell lies in the area. */
  predicate InBox(a: Area, p: Key)
  {
    |p| == |a| && forall i :: 0 <= i < |a| ==> In(a[i].ranges, p[i])
  }

  predicate Admits(s: Option<RangeSet>, x: int)
  {
    s.None? || In(s.value.ranges, x)
  }

  /** The cell matches the pattern. */
  predicate Matches(t: Pattern, p: Key)
  {
    |p| == |t| && forall i :: 0 <= i < |t| ==> Admits(t[i], p[i])
  }

  /** The pattern that restricts every dimension to the area's set. */
  function AsPattern(a: Area): (t: Pattern)
    ensures |t| == |a| && forall i :: 0 <= i < |a| ==> t[i] == Some(a[i])
  {
    seq(|a|, i requires 0 <= i < |a| => Some(a[i]))
  }

  lemma AsPatternMatches(a: Area, p: Key)
    ensures Matches(AsPattern(a), p) <==> InBox(a, p)
  {
    if InBox(a, p) {
      assert forall i :: 0 <= i < |a| ==> Admits(AsPattern(a)[i], p[i]);
    }
    if Matches(AsPattern(a), p) {
      forall i | 0 <= i < |a|
        ensures In(a[i].ranges, p[i])
      {
        assert Admits(AsPattern(a)[i], p[i]);
      }
    }
  }

  /** The cell lies in some area of the list. */
  ghost predicate InList(l: seq<Area>, p: Key)
  {
    exists i :: 0 <= i < |l| && InBox(l[i], p)
  }

  ghost predicate Disjoint(a: Area, b: Area)
  {
    forall p :: !(InBox(a, p) && InBox(b, p))
  }

  ghost predicate PairwiseDisjoint(l: seq<Area>)
  {
    forall i, j :: 0 <= i < j < |l| ==> Disjoint(l[i], l[j])
  }

  /** Valid areas with n dimensions each. */
  ghost predicate ValidList(l: seq<Area>, n: nat)
  {
    forall i :: 0 <= i < |l| ==> |l[i]| == n && ValidArea(l[i])
  }

  lemma InListConcat(a: seq<Area>, b: seq<Area>, p: Key)
    ensures InList(a + b, p) <==> InList(a, p) || InList(b, p)
  {
    if InList(a, p) {
      var i :| 0 <= i < |a| && InBox(a[i], p);
      assert (a + b)[i] == a[i];
    }
    if InList(b, p) {
      var i :| 0 <= i < |b| && InBox(b[i], p);
      assert (a + b)[|a| + i] == b[i];
    }
  }

  lemma InListOne(a: Area, p: Key)
    ensures InList([a], p) <==> InBox(a, p)
  {
    assert [a][0] == a;
  }

  lemma InListConcatAll(a: seq<Area>, b: seq<Area>)
    ensures forall p :: InList(a + b, p) <==> InList(a, p) || InList(b, p)
  {
    forall p
      ensures InList(a + b, p) <==> InList(a, p) || InList(b, p)
    {
      InListConcat(a, b, p);
    }
  }

  /** No cell lies in both lists. */
  ghost predicate ListsDisjoint(a: seq<Area>, b: seq<Area>)
  {
    forall p :: !(InList(a, p) && InList(b, p))
  }

  lemma DisjointConcat(a: seq<Area>, b: seq<Area>)
    ensures PairwiseDisjoint(a + b) <==> PairwiseDisjoint(a) && PairwiseDisjoint(b) && ListsDisjoint(a, b)
  {
    hide InBox;
    if PairwiseDisjoint(a + b) {
      assert forall i :: 0 <= i < |a| ==> (a + b)[i] == a[i];
      assert forall i :: 0 <= i < |b| ==> (a + b)[|a| + i] == b[i];
      forall i, j | 0 <= i < |a| && 0 <= j < |b|
        ensures Disjoint(a[i], b[j])
      {
        assert Disjoint((a + b)[i], (a + b)[|a| + j]);
      }
    }
    if PairwiseDisjoint(a) && PairwiseDisjoint(b) && ListsDisjoint(a, b) {
      forall i, j | 0 <= i < j < |a + b|
        ensures Disjoint((a + b)[i], (a + b)[j])
      {
        if i < |a| <= j {
          assert (a + b)[i] == a[i] && (a + b)[j] == b[j - |a|];
          forall p
            ensures !(InBox(a[i], p) && InBox(b[j - |a|], p))
          {
            assert InBox(a[i], p) ==> InList(a, p);
            assert InBox(b[j - |a|], p) ==> InList(b, p);
          }
        }
      }
    }
  }

  lemma ValidListConcat(a: seq<Area>, b: seq<Area>, n: nat)
    ensures ValidList(a + b, n) <==> ValidList(a, n) && ValidList(b, n)
  {
    assert forall i :: 0 <= i < |a| ==> (a + b)[i] == a[i];
    assert forall i :: 0 <= i < |b| ==> (a + b)[|a| + i] == b[i];
  }

  lemma OneListDisjoint(a: Area)
    ensures PairwiseDisjoint([a])
  {
  }

  /** Every valid area holds a cell: the first id of each dimension. */
  function FirstCell(a: Area): (p: Key)
    requires forall i :: 0 <= i < |a| ==> a[i].ranges != []
    ensures |p| == |a| && forall i :: 0 <= i < |a| ==> p[i] == a[i].ranges[0].low
  {
    seq(|a|, i requires 0 <= i < |a| => a[i].ranges[0].low)
  }

  lemma FirstCellIn(a: Area)
    requires ValidArea(a)
    ensures InBox(a, FirstCell(a))
  {
    forall i | 0 <= i < |a|
      ensures In(a[i].ranges, FirstCell(a)[i])
    {
      InFirst(a[i].ranges, a[i].ranges[0].low);
    }
  }

  /** Valid areas are determined by their cells. */
  lemma AreaUnique(a: Area, b: Area)
    requires ValidArea(a) && ValidArea(b) && |a| == |b|
    requires forall p :: InBox(a, p) <==> InBox(b, p)
    ensures a == b
  {
    forall i | 0 <= i < |a|
      ensures a[i] == b[i]
    {
      FirstCellIn(a);
      FirstCellIn(b);
      forall x
        ensures In(a[i].ranges, x) <==> In(b[i].ranges, x)
      {
        if x >= 0 {
          ReplaceIn(a, FirstCell(a), i, x);
          ReplaceIn(b, FirstCell(a), i, x);
          assert InBox(b, FirstCell(a));
        }
      }
      ValidSetUnique(a[i], b[i]);
    }
  }

  lemma ReplaceIn(a: Area, p: Key, i: nat, x: nat)
    requires i < |a| && InBox(a, p)
    ensures InBox(a, p[i := x]) <==> In(a[i].ranges, x)
  {
    if In(a[i].ranges, x) {
      assert forall j :: 0 <= j < |a| ==> In(a[j].ranges, p[i := x][j]);
    }
    if InBox(a, p[i := x]) {
      assert In(a[i].ranges, p[i := x][i]);
    }
  }
}
