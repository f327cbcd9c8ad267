/** Sorted sequences of id ranges: the representation shared by Set and WeightedSet. */
module Ranges {
  import opened Ids

  datatype Range = Range(low: nat, high: nat)

  /** x lies in some range. */
  predicate In(rs: seq<Range>, x: int)
  {
    exists i :: 0 <= i < |rs| && rs[i].low <= x <= rs[i].high
  }

  predicate Proper(r: Range)
  {
    r.low <= r.high < NO_IDENTIFIER
  }

  /** Proper ranges in ascending order, pairwise disjoint; neighbours may touch. */
  ghost predicate Sorted(rs: seq<Range>)
  {
    && (forall i :: 0 <= i < |rs| ==> Proper(rs[i]))
    && (forall i, j :: 0 <= i < j < |rs| ==> rs[i].high < rs[j].low)
  }

  /** Sorted and with a gap between any two neighbours: the canonical form of a set of ids. */
  ghost predicate Canonical(rs: seq<Range>)
  {
    && (forall i :: 0 <= i < |rs| ==> Proper(rs[i]))
    && (forall i, j :: 0 <= i < j < |rs| ==> rs[i].high + 1 < rs[j].low)
  }

  /** Number of ids covered, range by range. */
  function Count(rs: seq<Range>): int
  {
    if rs == [] then 0
    else Count(rs[..|rs| - 1]) + (rs[|rs| - 1].high - rs[|rs| - 1].low + 1)
  }

  lemma InConcat(a: seq<Range>, b: seq<Range>, x: int)
    ensures In(a + b, x) <==> In(a, x) || In(b, x)
  {
    if In(a, x) {
      var i :| 0 <= i < |a| && a[i].low <= x <= a[i].high;
      assert (a + b)[i] == a[i];
    }
    if In(b, x) {
      var i :| 0 <= i < |b| && b[i].low <= x <= b[i].high;
      assert (a + b)[|a| + i] == b[i];
    }
  }

  lemma InAppend(a: seq<Range>, r: Range, x: int)
    ensures In(a + [r], x) <==> In(a, x) || r.low <= x <= r.high
  {
    InConcat(a, [r], x);
    assert In([r], x) <==> r.low <= x <= r.high by {
      assert [r][0] == r;
    }
  }

  /** Replacing the middle of a range sequence replaces exactly that part of the denotation. */
  lemma InSplice(a: seq<Range>, m: seq<Range>, b: seq<Range>, x: int)
    ensures In(a + m + b, x) <==> In(a, x) || In(m, x) || In(b, x)
  {
    InConcat(a + m, b, x);
    InConcat(a, m, x);
  }

  lemma {:induction false} CountConcat(a: seq<Range>, b: seq<Range>)
    ensures Count(a + b) == Count(a) + Count(b)
  {
    if b == [] {
      assert a + b == a;
    } else {
      assert (a + b)[..|a + b| - 1] == a + b[..|b| - 1];
      CountConcat(a, b[..|b| - 1]);
    }
  }

  lemma CountSplice(a: seq<Range>, m: seq<Range>, b: seq<Range>)
    ensures Count(a + m + b) == Count(a) + Count(m) + Count(b)
  {
    CountConcat(a + m, b);
    CountConcat(a, m);
  }

  lemma CountSingle(r: Range)
    ensures Count([r]) == r.high - r.low + 1
  {
    assert [r][..0] == [];
  }

  /** The ids of one range as a set. */
  function Interval(low: nat, high: int): (s: set<int>)
    requires low <= high + 1
    ensures forall x :: x in s <==> low <= x <= high
    ensures |s| == high - low + 1
    decreases high + 1 - low
  {
    if low == high + 1 then {} else Interval(low, high - 1) + {high}
  }

  /** The ids denoted by a range sequence, as a set. */
  function Members(rs: seq<Range>): (s: set<int>)
    ensures forall x :: x in s <==> In(rs, x)
  {
    if rs == [] then {}
    else
      var init, last := rs[..|rs| - 1], rs[|rs| - 1];
      InAppendAll(init, last);
      assert rs == init + [last];
      if last.low <= last.high then Members(init) + Interval(last.low, last.high) else Members(init)
  }

  lemma InAppendAll(a: seq<Range>, r: Range)
    ensures forall x :: In(a + [r], x) <==> In(a, x) || r.low <= x <= r.high
  {
    forall x
      ensures In(a + [r], x) <==> In(a, x) || r.low <= x <= r.high
    {
      InAppend(a, r, x);
    }
  }

  /** The cached count of a sorted range sequence is the cardinality of the set it denotes. */
  lemma {:induction false} CountIsCardinality(rs: seq<Range>)
    requires Sorted(rs)
    ensures |Members(rs)| == Count(rs)
  {
    if rs != [] {
      var init, last := rs[..|rs| - 1], rs[|rs| - 1];
      CountIsCardinality(init);
      LastApart(rs, init);
      hide In, Sorted;
      assert Members(init) !! Interval(last.low, last.high);
    }
  }

  lemma LastApart(rs: seq<Range>, init: seq<Range>)
    requires Sorted(rs) && rs != [] && init == rs[..|rs| - 1]
    ensures forall x :: In(init, x) ==> x < rs[|rs| - 1].low
    ensures rs[|rs| - 1].low <= rs[|rs| - 1].high
  {
  }

  /** Two canonical range sequences with the same ids are the same sequence. */
  lemma {:induction false} CanonicalUnique(a: seq<Range>, b: seq<Range>)
    requires Canonical(a) && Canonical(b)
    requires forall x :: In(a, x) <==> In(b, x)
    ensures a == b
    decreases |a| + |b|
  {
    assert a != [] ==> In(a, a[0].low);
    assert b != [] ==> In(b, b[0].low);
    if a != [] && b != [] {
      FirstRangeAgrees(a, b);
      FirstRangeAgrees(b, a);
      assert a[0] == b[0];
      forall x: int
        ensures In(a[1..], x) <==> In(b[1..], x)
      {
        InConcat([a[0]], a[1..], x);
        InConcat([b[0]], b[1..], x);
        assert a == [a[0]] + a[1..] && b == [b[0]] + b[1..];
        if In(a[1..], x) {
          assert x > a[0].high;
        }
        if In(b[1..], x) {
          assert x > b[0].high;
        }
      }
      CanonicalUnique(a[1..], b[1..]);
      assert a == [a[0]] + a[1..] && b == [b[0]] + b[1..];
    }
  }

  lemma GapAfterFirst(a: seq<Range>)
    requires Canonical(a) && a != []
    ensures !In(a, a[0].high + 1)
  {
    assert forall i :: 0 < i < |a| ==> a[0].high + 1 < a[i].low;
  }

  lemma InFirst(a: seq<Range>, x: int)
    requires a != []
    ensures a[0].low <= x <= a[0].high ==> In(a, x)
  {
  }

  lemma FirstRangeAgrees(a: seq<Range>, b: seq<Range>)
    requires Canonical(a) && Canonical(b) && a != [] && b != []
    requires forall x :: In(a, x) <==> In(b, x)
    ensures a[0].low <= b[0].low
    ensures a[0].low == b[0].low ==> a[0].high >= b[0].high
  {
    GapAfterFirst(a);
    assert In(b, b[0].low);
    InFirst(b, a[0].high + 1);
  }

  /** Every range of a ends before, and does not touch, every range of b. */
  ghost predicate Apart(a: seq<Range>, b: seq<Range>)
  {
    forall i, j :: 0 <= i < |a| && 0 <= j < |b| ==> a[i].high + 1 < b[j].low
  }

  lemma CanonicalConcat(a: seq<Range>, b: seq<Range>)
    ensures Canonical(a + b) <==> Canonical(a) && Canonical(b) && Apart(a, b)
  {
    if Canonical(a + b) {
      assert forall i :: 0 <= i < |a| ==> (a + b)[i] == a[i];
      assert forall i :: 0 <= i < |b| ==> (a + b)[|a| + i] == b[i];
    }
  }

  lemma CanonicalAt(a: seq<Range>, i: nat)
    requires Canonical(a) && i < |a|
    ensures Proper(a[i])
    ensures i > 0 ==> a[i - 1].high + 1 < a[i].low
    ensures i + 1 < |a| ==> a[i].high + 1 < a[i + 1].low
    ensures i + 2 < |a| ==> a[i + 1].high + 1 < a[i + 2].low
  {
  }

  lemma CanonicalSorted(a: seq<Range>)
    requires Canonical(a)
    ensures Sorted(a)
  {
  }

  lemma ApartLast(a: seq<Range>, b: seq<Range>)
    requires Canonical(a) && Canonical(b)
    requires a != [] && b != [] ==> a[|a| - 1].high + 1 < b[0].low
    ensures Apart(a, b)
  {
  }

  /** A Set as its holders see it once it is shared: its ranges and its cached size. */
  datatype RangeSet = RangeSet(ranges: seq<Range>, siz: int) {

    ghost predicate Valid()
    {
      Canonical(ranges) && siz == Count(ranges)
    }
  }

  const EMPTY_SET := RangeSet([], 0)

  /** insertRange behind the last range of the set. */
  function Append(s: RangeSet, low: nat, high: nat): RangeSet
    requires low <= high
  {
    RangeSet(s.ranges + [Range(low, high)], s.siz + (high - low + 1))
  }

  lemma AppendValid(s: RangeSet, low: nat, high: nat)
    requires s.Valid() && low <= high < NO_IDENTIFIER
    requires s.ranges != [] ==> s.ranges[|s.ranges| - 1].high + 1 < low
    ensures Append(s, low, high).Valid()
    ensures forall x :: In(Append(s, low, high).ranges, x) <==> In(s.ranges, x) || low <= x <= high
  {
    InAppendAll(s.ranges, Range(low, high));
    CountConcat(s.ranges, [Range(low, high)]);
    CountSingle(Range(low, high));
    ApartLast(s.ranges, [Range(low, high)]);
    CanonicalConcat(s.ranges, [Range(low, high)]);
  }

  /** No range of rs covers an id between the end of range f - 1 and the start of range f. */
  lemma InGap(rs: seq<Range>, f: nat, x: int)
    requires Canonical(rs) && f <= |rs|
    requires f > 0 ==> rs[f - 1].high < x
    requires f < |rs| ==> x < rs[f].low
    ensures !In(rs, x)
  {
  }

  /** Valid sets are determined by their ids, cached size included. */
  lemma ValidSetUnique(a: RangeSet, b: RangeSet)
    requires a.Valid() && b.Valid()
    requires forall x :: In(a.ranges, x) <==> In(b.ranges, x)
    ensures a == b
  {
    CanonicalUnique(a.ranges, b.ranges);
  }

  lemma SizeZeroIffEmpty(a: RangeSet)
    requires a.Valid()
    ensures a.siz >= 0
    ensures a.siz == 0 <==> a.ranges == []
    ensures a.siz == 0 <==> Members(a.ranges) == {}
  {
    CountIsCardinality(a.ranges);
    if a.ranges != [] {
      assert In(a.ranges, a.ranges[0].low);
      assert a.ranges[0].low in Members(a.ranges);
    }
  }
}
