/** Set: the mutable set of element ids, kept as canonical ranges with a cached size. */
module IdSets {
  import opened Ids
  import opened Ranges
  import opened Wrappers

  /** Index of the first range whose low end is at least id; where lower_bound((id, 0)) points. */
  method RangeLowerBound(rs: seq<Range>, id: nat) returns (k: nat)
    requires Sorted(rs)
    ensures k <= |rs|
    ensures forall i :: 0 <= i < k ==> rs[i].low < id
    ensures forall i :: k <= i < |rs| ==> id <= rs[i].low
  {
    k := 0;
    while k < |rs| && rs[k].low < id
      invariant k <= |rs|
      invariant forall i :: 0 <= i < k ==> rs[i].low < id
    {
      k := k + 1;
    }
  }

  /** Where a Set iterator stands: on an id of one of the ranges, or past the end. */
  datatype Position = At(range: nat, id: nat) | End

  class IdSet {
    var ranges: seq<Range>
    var siz: int

    ghost predicate Valid()
      reads this
    {
      Canonical(ranges) && siz == Count(ranges)
    }

    constructor ()
      ensures Valid() && ranges == []
    {
      ranges, siz := [], 0;
    }

    /** A private copy of a shared set. */
    constructor Copy(s: RangeSet)
      requires s.Valid()
      ensures Valid() && ranges == s.ranges
    {
      ranges, siz := s.ranges, s.siz;
    }

    /** The set as later holders share it, once it is no longer changed. */
    function Freeze(): (s: RangeSet)
      requires Valid()
      reads this
      ensures s.Valid() && s.ranges == ranges
    {
      RangeSet(ranges, siz)
    }

    /** Inserts one id: extends, bridges or adds a range; reports whether the id was new. */
    method Insert(id: nat) returns (result: bool)
      requires Valid() && id < NO_IDENTIFIER
      modifies this
      ensures Valid()
      ensures result <==> !old(In(ranges, id))
      ensures forall x :: In(ranges, x) <==> old(In(ranges, x)) || x == id
      ensures siz == old(siz) + (if result then 1 else 0)
    {
      hide In, Canonical, Sorted, Count, Apart;
      result := false;
      CanonicalSorted(ranges);
      var k := RangeLowerBound(ranges, id);
      var itp := k;
      if (itp == |ranges| || ranges[itp].low != id) && itp != 0 {
        itp := itp - 1;
      }
      if itp == |ranges| {
        InsertIntoEmpty(id);
        return true;
      }
      InsertionPoint(ranges, k, itp, id);
      if ranges[itp].high < id {
        result := InsertAfter(itp, id);
      } else if ranges[itp].low > id {
        assert itp == 0;
        InsertInFront(id);
        result := true;
      }
    }

    /** Insertion of an id behind range itp and, if there is one, not behind the next range's start. */
    method InsertAfter(itp: nat, id: nat) returns (result: bool)
      requires Valid() && id < NO_IDENTIFIER && itp < |ranges| && ranges[itp].high < id
      requires itp + 1 < |ranges| ==> id < ranges[itp + 1].low
      modifies this
      ensures Valid() && result
      ensures !old(In(ranges, id))
      ensures forall x :: In(ranges, x) <==> old(In(ranges, x)) || x == id
      ensures siz == old(siz) + 1
    {
      hide In, Canonical, Count, Apart, Inserted;
      var cur, end := ranges[itp], |ranges|;
      ghost var was := ranges;
      if cur.high == id - 1 {
        if itp + 1 < end && ranges[itp + 1].low == id + 1 {
          // the id closes the gap to the next range
          ClosesGap(was, itp, id);
          ranges := ranges[..itp] + [Range(cur.low, ranges[itp + 1].high)] + ranges[itp + 2..];
        } else {
          ExtendsRange(was, itp, id);
          ranges := ranges[..itp] + [Range(cur.low, id)] + ranges[itp + 1..];
        }
      } else if itp + 1 < end && ranges[itp + 1].low == id + 1 {
        ExtendsNext(was, itp, id);
        ranges := ranges[..itp + 1] + [Range(id, ranges[itp + 1].high)] + ranges[itp + 2..];
      } else {
        StandsAlone(was, itp, id);
        ranges := ranges[..itp + 1] + [Range(id, id)] + ranges[itp + 1..];
      }
      InsertedFacts(was, id, ranges);
      siz := siz + 1;
      result := true;
    }

    /** Removes the id at a valid position, shrinking or splitting its range. */
    method Erase(p: Position)
      requires Valid() && p.At? && p.range < |ranges| && ranges[p.range].low <= p.id <= ranges[p.range].high
      modifies this
      ensures Valid() && siz == old(siz) - 1
      ensures forall x :: In(ranges, x) <==> old(In(ranges, x)) && x != p.id
    {
      hide In, Canonical, Count, Apart;
      var pre, r, post := ranges[..p.range], ranges[p.range], ranges[p.range + 1..];
      assert ranges == pre + [r] + post;
      siz := siz - 1;
      var below := if r.low < p.id then [Range(r.low, p.id - 1)] else [];
      var above := if p.id < r.high then [Range(p.id + 1, r.high)] else [];
      EraseOne(pre, r, below + above, post, p.id);
      if r.low == p.id {
        ranges := if r.high != p.id then pre + [Range(p.id + 1, r.high)] + post else pre + post;
        assert ranges == pre + (below + above) + post;
      } else if r.high == p.id {
        ranges := pre + [Range(r.low, p.id - 1)] + post;
        assert ranges == pre + (below + above) + post;
      } else {
        ranges := pre + [Range(r.low, p.id - 1), Range(p.id + 1, r.high)] + post;
        assert ranges == pre + (below + above) + post;
      }
    }

    method InsertIntoEmpty(id: nat)
      requires Valid() && id < NO_IDENTIFIER && ranges == []
      modifies this
      ensures Valid()
      ensures !old(In(ranges, id))
      ensures forall x :: In(ranges, x) <==> old(In(ranges, x)) || x == id
      ensures siz == old(siz) + 1
    {
      hide In, Canonical, Count, Apart;
      assert [] + [] + [] == ranges;
      Splice([], [], Range(id, id), [], id);
      ranges := [Range(id, id)];
      siz := siz + 1;
      assert [] + [Range(id, id)] + [] == ranges;
    }

    /** Insertion of an id below every range. */
    method InsertInFront(id: nat)
      requires Valid() && id < NO_IDENTIFIER && ranges != [] && id < ranges[0].low
      modifies this
      ensures Valid()
      ensures !old(In(ranges, id))
      ensures forall x :: In(ranges, x) <==> old(In(ranges, x)) || x == id
      ensures siz == old(siz) + 1
    {
      hide In, Canonical, Count, Apart;
      var was := ranges;
      CanonicalAt(was, 0);
      var cur, post := ranges[0], ranges[1..];
      assert post != [] ==> post[0] == was[1];
      if id == cur.low - 1 {
        assert was == [] + [cur] + post;
        Splice([], [cur], Range(id, cur.high), post, id);
        ranges := [] + [Range(id, cur.high)] + post;
      } else {
        assert was == [] + [] + was;
        Splice([], [], Range(id, id), was, id);
        ranges := [] + [Range(id, id)] + was;
      }
      siz := siz + 1;
    }
  }

  /** Membership test; the position returned is on the id itself. */
  method Find(rs: seq<Range>, id: nat) returns (p: Position)
    requires Canonical(rs)
    ensures p.At? <==> In(rs, id)
    ensures p.At? ==> p.id == id && p.range < |rs| && rs[p.range].low <= id <= rs[p.range].high
  {
    var k := RangeLowerBound(rs, id);
    if k < |rs| && rs[k].low == id {
      return At(k, id);
    }
    if k != 0 && rs[k - 1].low <= id <= rs[k - 1].high {
      return At(k - 1, id);
    }
    return End;
  }

  /** The position of the least id of the set that is not below the given one. */
  method LowerBound(rs: seq<Range>, id: nat) returns (p: Position)
    requires Canonical(rs)
    ensures p.End? <==> forall x :: In(rs, x) ==> x < id
    ensures p.At? ==> p.range < |rs| && rs[p.range].low <= p.id <= rs[p.range].high && In(rs, p.id)
    ensures p.At? ==> id <= p.id && forall x :: In(rs, x) ==> x < id || p.id <= x
  {
    var k := RangeLowerBound(rs, id);
    if k < |rs| && rs[k].low == id {
      InAt(rs, k, id);
      return At(k, id);
    }
    if k != 0 && rs[k - 1].low <= id <= rs[k - 1].high {
      InAt(rs, k - 1, id);
      return At(k - 1, id);
    }
    if k < |rs| {
      InAt(rs, k, rs[k].low);
      return At(k, rs[k].low);
    }
    return End;
  }

  /** Removal of one id keeps the set canonical; the erased id's neighbours stay. */
  lemma EraseOne(pre: seq<Range>, r: Range, m: seq<Range>, post: seq<Range>, id: nat)
    requires Canonical(pre + [r] + post) && r.low <= id <= r.high
    requires m == (if r.low < id then [Range(r.low, id - 1)] else []) + (if id < r.high then [Range(id + 1, r.high)] else [])
    ensures Canonical(pre + m + post) && Count(pre + m + post) == Count(pre + [r] + post) - 1
    ensures forall x :: In(pre + m + post, x) <==> In(pre + [r] + post, x) && x != id
  {
    hide In, Canonical, Apart, Count;
    CanonicalConcat(pre + [r], post);
    CanonicalConcat(pre, [r]);
    CanonicalAt(pre + [r] + post, |pre|);
    assert (pre + [r] + post)[|pre|] == r;
    assert pre != [] ==> (pre + [r] + post)[|pre| - 1] == pre[|pre| - 1];
    assert post != [] ==> (pre + [r] + post)[|pre| + 1] == post[0];
    ErasedMiddle(r, m, id);
    ShrinkCanonical(pre, m, post, r);
    CountSplice(pre, m, post);
    CountSplice(pre, [r], post);
    EraseOutside(pre, post, r, id);
    forall x
      ensures In(pre + m + post, x) <==> In(pre + [r] + post, x) && x != id
    {
      InSplice(pre, m, post, x);
      InSplice(pre, [r], post, x);
    }
  }

  lemma ErasedMiddle(r: Range, m: seq<Range>, id: nat)
    requires Proper(r) && r.low <= id <= r.high
    requires m == (if r.low < id then [Range(r.low, id - 1)] else []) + (if id < r.high then [Range(id + 1, r.high)] else [])
    ensures Canonical(m) && Count(m) == Count([r]) - 1
    ensures forall x :: In(m, x) <==> In([r], x) && x != id
    ensures m != [] ==> r.low <= m[0].low && m[|m| - 1].high <= r.high
  {
    CountSingle(r);
    if r.low < id {
      CountSingle(Range(r.low, id - 1));
    }
    CountSingle(Range(id + 1, r.high));
    CountConcat(if r.low < id then [Range(r.low, id - 1)] else [], if id < r.high then [Range(id + 1, r.high)] else []);
    forall x
      ensures In(m, x) <==> In([r], x) && x != id
    {
      TwoIn(m, x);
      TwoIn([r], x);
    }
  }

  lemma ShrinkCanonical(pre: seq<Range>, m: seq<Range>, post: seq<Range>, r: Range)
    requires Canonical(pre) && Canonical(m) && Canonical(post)
    requires Apart(pre, [r]) && Apart(pre + [r], post)
    requires m != [] ==> r.low <= m[0].low && m[|m| - 1].high <= r.high
    ensures Canonical(pre + m + post)
  {
    assert pre != [] ==> pre[|pre| - 1].high + 1 < [r][0].low;
    assert post != [] ==> (pre + [r])[|pre|].high + 1 < post[0].low;
    assert pre != [] && post != [] ==> (pre + [r])[|pre| - 1].high + 1 < post[0].low;
    ApartLast(pre, m);
    CanonicalConcat(pre, m);
    ApartLast(pre + m, post);
    CanonicalConcat(pre + m, post);
  }

  lemma EraseOutside(pre: seq<Range>, post: seq<Range>, r: Range, id: nat)
    requires Canonical(pre + [r] + post) && r.low <= id <= r.high
    ensures !In(pre, id) && !In(post, id)
  {
    var all := pre + [r] + post;
    assert forall i :: 0 <= i < |pre| ==> all[i] == pre[i];
    assert forall i :: 0 <= i < |post| ==> all[|pre| + 1 + i] == post[i];
    assert all[|pre|] == r;
  }

  /**
   * The range that insertion of the fresh id puts in place of the ranges m next to it:
   * none, the one before or after the id, or both.
   */
  ghost predicate Grows(m: seq<Range>, r: Range, id: nat)
  {
    || (m == [] && r == Range(id, id))
    || (|m| == 1 && r == Range(m[0].low, id) && m[0].high == id - 1)
    || (|m| == 1 && r == Range(id, m[0].high) && m[0].low == id + 1)
    || (|m| == 2 && r == Range(m[0].low, m[1].high) && m[0].high == id - 1 && m[1].low == id + 1)
  }

  lemma GrowsOne(m: seq<Range>, r: Range, id: nat)
    requires Grows(m, r, id) && Canonical(m) && id < NO_IDENTIFIER
    ensures Proper(r)
    ensures Count([r]) == Count(m) + 1
    ensures r.low <= id <= r.high
    ensures !In(m, id)
    ensures forall x :: In([r], x) <==> In(m, x) || x == id
  {
    CountSingle(r);
    assert [r][0] == r;
    if |m| == 1 {
      assert m == [m[0]];
      CountSingle(m[0]);
    } else if |m| == 2 {
      assert m == [m[0]] + [m[1]];
      CountConcat([m[0]], [m[1]]);
      CountSingle(m[0]);
      CountSingle(m[1]);
    }
    forall x
      ensures In([r], x) <==> In(m, x) || x == id
    {
      assert In([r], x) <==> r.low <= x <= r.high;
      TwoIn(m, x);
    }
    TwoIn(m, id);
  }

  /** What the search for the insertion point leaves to the three cases of Insert. */
  lemma InsertionPoint(rs: seq<Range>, k: nat, itp: nat, id: nat)
    requires Canonical(rs) && k <= |rs| && itp < |rs|
    requires forall i :: 0 <= i < k ==> rs[i].low < id
    requires forall i :: k <= i < |rs| ==> id <= rs[i].low
    requires itp == if (k == |rs| || rs[k].low != id) && k != 0 then k - 1 else k
    ensures rs[itp].high < id && itp + 1 < |rs| ==> id < rs[itp + 1].low
    ensures rs[itp].low > id ==> itp == 0
    ensures rs[itp].low <= id <= rs[itp].high ==> In(rs, id)
  {
  }

  lemma TwoIn(m: seq<Range>, x: int)
    requires |m| <= 2
    ensures In(m, x) <==> (|m| >= 1 && m[0].low <= x <= m[0].high) || (|m| == 2 && m[1].low <= x <= m[1].high)
  {
  }

  lemma SpliceCanonical(pre: seq<Range>, r: Range, post: seq<Range>)
    requires Canonical(pre) && Proper(r) && Canonical(post)
    requires pre != [] ==> pre[|pre| - 1].high + 1 < r.low
    requires post != [] ==> r.high + 1 < post[0].low
    ensures Canonical(pre + [r] + post)
  {
    var one := [r];
    assert Canonical(one);
    ApartLast(pre, one);
    CanonicalConcat(pre, one);
    ApartLast(pre + one, post);
    CanonicalConcat(pre + one, post);
  }

  lemma OutsideNeighbours(pre: seq<Range>, post: seq<Range>, r: Range, id: nat)
    requires Canonical(pre) && Canonical(post) && r.low <= id <= r.high
    requires pre != [] ==> pre[|pre| - 1].high + 1 < r.low
    requires post != [] ==> r.high + 1 < post[0].low
    ensures !In(pre, id) && !In(post, id)
  {
  }

  /** Adding one fresh id by replacing the ranges m next to it with the grown range r. */
  lemma Splice(pre: seq<Range>, m: seq<Range>, r: Range, post: seq<Range>, id: nat)
    requires Canonical(pre + m + post) && Grows(m, r, id) && id < NO_IDENTIFIER
    requires pre != [] ==> pre[|pre| - 1].high + 1 < r.low
    requires post != [] ==> r.high + 1 < post[0].low
    ensures Canonical(pre + [r] + post)
    ensures Count(pre + [r] + post) == Count(pre + m + post) + 1
    ensures !In(pre + m + post, id)
    ensures forall x :: In(pre + [r] + post, x) <==> In(pre + m + post, x) || x == id
  {
    hide In, Canonical, Apart, Count;
    CanonicalConcat(pre + m, post);
    CanonicalConcat(pre, m);
    CanonicalConcat(pre, m + post);
    assert pre + (m + post) == pre + m + post;
    CanonicalConcat(m, post);
    GrowsOne(m, r, id);
    SpliceCanonical(pre, r, post);
    OutsideNeighbours(pre, post, r, id);
    CountSplice(pre, m, post);
    CountSplice(pre, [r], post);
    InSplice(pre, m, post, id);
    forall x
      ensures In(pre + [r] + post, x) <==> In(pre + m + post, x) || x == id
    {
      InSplice(pre, m, post, x);
      InSplice(pre, [r], post, x);
    }
  }

  /** The ids of the second range sequence are those of the first and one more. */
  ghost predicate Inserted(was: seq<Range>, id: nat, now: seq<Range>)
  {
    && Canonical(now) && Count(now) == Count(was) + 1 && !In(was, id)
    && forall x :: In(now, x) <==> In(was, x) || x == id
  }

  lemma InsertedFacts(was: seq<Range>, id: nat, now: seq<Range>)
    requires Inserted(was, id, now)
    ensures Canonical(now) && Count(now) == Count(was) + 1 && !In(was, id)
    ensures forall x :: In(now, x) <==> In(was, x) || x == id
  {
  }

  /** The id lies behind range i and in front of the next one. */
  ghost predicate Behind(rs: seq<Range>, i: nat, id: nat)
  {
    Canonical(rs) && i < |rs| && rs[i].high < id < NO_IDENTIFIER && (i + 1 < |rs| ==> id < rs[i + 1].low)
  }

  /** An id that fills the gap between two ranges joins them. */
  lemma ClosesGap(rs: seq<Range>, i: nat, id: nat)
    requires Behind(rs, i, id) && rs[i].high == id - 1 && i + 1 < |rs| && rs[i + 1].low == id + 1
    ensures Inserted(rs, id, rs[..i] + [Range(rs[i].low, rs[i + 1].high)] + rs[i + 2..])
  {
    hide In, Canonical, Count, Apart;
    CanonicalAt(rs, i);
    CanonicalAt(rs, i + 1);
    assert rs == rs[..i] + [rs[i], rs[i + 1]] + rs[i + 2..];
    Splice(rs[..i], [rs[i], rs[i + 1]], Range(rs[i].low, rs[i + 1].high), rs[i + 2..], id);
  }

  lemma ExtendsRange(rs: seq<Range>, i: nat, id: nat)
    requires Behind(rs, i, id) && rs[i].high == id - 1 && !(i + 1 < |rs| && rs[i + 1].low == id + 1)
    ensures Inserted(rs, id, rs[..i] + [Range(rs[i].low, id)] + rs[i + 1..])
  {
    hide In, Canonical, Count, Apart;
    CanonicalAt(rs, i);
    assert rs == rs[..i] + [rs[i]] + rs[i + 1..];
    Splice(rs[..i], [rs[i]], Range(rs[i].low, id), rs[i + 1..], id);
  }

  lemma ExtendsNext(rs: seq<Range>, i: nat, id: nat)
    requires Behind(rs, i, id) && rs[i].high != id - 1 && i + 1 < |rs| && rs[i + 1].low == id + 1
    ensures Inserted(rs, id, rs[..i + 1] + [Range(id, rs[i + 1].high)] + rs[i + 2..])
  {
    hide In, Canonical, Count, Apart;
    CanonicalAt(rs, i + 1);
    assert rs == rs[..i + 1] + [rs[i + 1]] + rs[i + 2..];
    Splice(rs[..i + 1], [rs[i + 1]], Range(id, rs[i + 1].high), rs[i + 2..], id);
  }

  lemma StandsAlone(rs: seq<Range>, i: nat, id: nat)
    requires Behind(rs, i, id) && rs[i].high != id - 1 && !(i + 1 < |rs| && rs[i + 1].low == id + 1)
    ensures Inserted(rs, id, rs[..i + 1] + [Range(id, id)] + rs[i + 1..])
  {
    hide In, Canonical, Count, Apart;
    assert rs == rs[..i + 1] + [] + rs[i + 1..];
    Splice(rs[..i + 1], [], Range(id, id), rs[i + 1..], id);
  }

  /** insertRange with the bounds as they are: a 32-bit count that wraps where the range is reversed. */
  function InsertRange(s: RangeSet, low: nat, high: nat): (r: RangeSet)
    ensures low <= high < NO_IDENTIFIER ==> r == Append(s, low, high)
  {
    RangeSet(s.ranges + [Range(low, high)], s.siz + (high - low + 1) % 0x1_0000_0000)
  }

  /** Some range holds both ids, the greater one given first. */
  ghost predicate HoldsBoth(rs: seq<Range>, high: nat, low: nat)
  {
    exists i :: 0 <= i < |rs| && Reaches(rs[i], high, low)
  }

  /**
   * The ids of the set between start and end, both included. A set that lies within the bounds
   * (strictly below end) is returned as it is. Where start is behind end, the result holds no id;
   * but a range reaching over both bounds is entered with its ends swapped and its size wrapped, so
   * that the result is a valid set exactly if there is no such range.
   */
  method Limit(set_: RangeSet, start: nat, end: nat) returns (r: RangeSet)
    requires set_.Valid()
    ensures forall x :: In(r.ranges, x) <==> In(set_.ranges, x) && start <= x <= end
    ensures start <= end ==> r.Valid()
    ensures start > end ==> (r.Valid() <==> !HoldsBoth(set_.ranges, start, end))
    ensures start > end && HoldsBoth(set_.ranges, start, end) ==> r == InsertRange(EMPTY_SET, start, end)
  {
    hide In, Canonical, Sorted, Count, Apart, Append, InsertRange, HoldsBoth;
    SizeZeroIffEmpty(set_);
    var S := set_.ranges;
    if set_.siz == 0 {
      InNone();
      NoneHolds(S, 0, start, end);
      return set_;
    }
    if S[0].low >= start && S[|S| - 1].high < end {
      LimitAll(S, start, end);
      return set_;
    }
    r := EMPTY_SET;
    LimitStart(S, start, end);
    var i := 0;
    while i < |S|
      invariant 0 <= i <= |S| && LimitSoFar(S, i, start, end, r)
    {
      LimitStep(S, i, start, end, r);
      if S[i].high >= start && S[i].low <= end {
        r := InsertRange(r, if S[i].low >= start then S[i].low else start, if S[i].high <= end then S[i].high else end);
      } else if S[i].low >= end {
        break;
      }
      i := i + 1;
    }
    LimitDone(S, i, start, end, r);
  }

  /** Bounds in the wrong order within one range: the result is the range from 4 to 2, with a size of 2^32 - 1. */
  lemma ReversedExample(rs: seq<Range>, r: RangeSet)
    requires rs == [Range(1, 5)] && r == InsertRange(EMPTY_SET, 4, 2)
    ensures RangeSet(rs, 5).Valid() && HoldsBoth(rs, 4, 2)
    ensures r == RangeSet([Range(4, 2)], 0xFFFF_FFFF) && !r.Valid()
  {
    assert Reaches(rs[0], 4, 2);
    assert rs[..0] == [];
    assert Count(rs) == 5;
    assert !Proper(r.ranges[0]);
  }

  ghost predicate Reaches(r: Range, start: nat, end: nat)
  {
    r.low <= end && start <= r.high
  }

  /** The first i ranges have been cut to the bounds. */
  ghost predicate LimitSoFar(rs: seq<Range>, i: nat, start: nat, end: nat, r: RangeSet)
    requires i <= |rs|
  {
    if start <= end then
      && r.Valid() && EndsBefore(r, if i == 0 then 0 else rs[i - 1].high + 2)
      && forall x :: In(r.ranges, x) <==> In(rs[..i], x) && start <= x <= end
    else
      r == if exists k :: 0 <= k < i && Reaches(rs[k], start, end) then InsertRange(EMPTY_SET, start, end) else EMPTY_SET
  }

  lemma LimitStart(rs: seq<Range>, start: nat, end: nat)
    ensures LimitSoFar(rs, 0, start, end, EMPTY_SET)
  {
    assert rs[..0] == [];
  }

  function CutRange(r: RangeSet, s: Range, start: nat, end: nat): RangeSet
  {
    if s.high >= start && s.low <= end then
      InsertRange(r, if s.low >= start then s.low else start, if s.high <= end then s.high else end)
    else r
  }

  lemma LimitStep(rs: seq<Range>, i: nat, start: nat, end: nat, r: RangeSet)
    requires Canonical(rs) && i < |rs| && LimitSoFar(rs, i, start, end, r)
    ensures LimitSoFar(rs, i + 1, start, end, CutRange(r, rs[i], start, end))
  {
    hide In, Canonical, Count, InsertRange, Append;
    CanonicalAt(rs, i);
    if start > end {
      if Reaches(rs[i], start, end) {
        OneHolds(rs, i, start, end);
      }
    } else {
      assert rs[..i + 1] == rs[..i] + [rs[i]];
      InAppendAll(rs[..i], rs[i]);
      if Reaches(rs[i], start, end) {
        var lo := if rs[i].low >= start then rs[i].low else start;
        var hi := if rs[i].high <= end then rs[i].high else end;
        AppendValid(r, lo, hi);
        AppendEnds(r, lo, hi);
      }
    }
  }

  /** The ranges not looked at add nothing. */
  lemma LimitDone(rs: seq<Range>, i: nat, start: nat, end: nat, r: RangeSet)
    requires Canonical(rs) && i <= |rs| && LimitSoFar(rs, i, start, end, r)
    requires i < |rs| ==> rs[i].low >= end && !Reaches(rs[i], start, end)
    ensures forall x :: In(r.ranges, x) <==> In(rs, x) && start <= x <= end
    ensures start <= end ==> r.Valid()
    ensures start > end ==> (r.Valid() <==> !HoldsBoth(rs, start, end))
    ensures start > end && HoldsBoth(rs, start, end) ==> r == InsertRange(EMPTY_SET, start, end)
  {
    hide In, Canonical, Count, InsertRange;
    if start > end {
      Reversed(start, end);
      InNone();
      RestHolds(rs, i, start, end);
    } else if i < |rs| {
      CanonicalAt(rs, i);
      LimitRest(rs, i, end);
    } else {
      assert rs[..i] == rs;
    }
  }

  lemma NoneHolds(rs: seq<Range>, i: nat, start: nat, end: nat)
    requires rs == []
    ensures !HoldsBoth(rs, start, end) && EMPTY_SET.Valid()
  {
  }

  /** A reversed range holds no id and is no valid set. */
  lemma Reversed(start: nat, end: nat)
    requires start > end
    ensures var r := InsertRange(EMPTY_SET, start, end); r != EMPTY_SET && !r.Valid() && forall x :: !In(r.ranges, x)
    ensures EMPTY_SET.Valid()
  {
    var r := InsertRange(EMPTY_SET, start, end);
    assert r.ranges[0] == Range(start, end);
    assert !Proper(r.ranges[0]);
  }

  /** No other range reaches over both bounds. */
  lemma OneHolds(rs: seq<Range>, i: nat, start: nat, end: nat)
    requires Canonical(rs) && i < |rs| && Reaches(rs[i], start, end) && end < start
    ensures forall k :: 0 <= k < i ==> !Reaches(rs[k], start, end)
  {
  }

  /** What the ranges looked at say about all ranges. */
  lemma RestHolds(rs: seq<Range>, i: nat, start: nat, end: nat)
    requires Canonical(rs) && i <= |rs| && end < start && (i < |rs| ==> rs[i].low >= end && !Reaches(rs[i], start, end))
    ensures HoldsBoth(rs, start, end) <==> exists k :: 0 <= k < i && Reaches(rs[k], start, end)
  {
    forall k | i < k < |rs|
      ensures !Reaches(rs[k], start, end)
    {
      assert rs[i].high + 1 < rs[k].low;
    }
  }

  lemma InNone()
    ensures forall x :: !In([], x)
  {
  }

  lemma EmptyValid()
    ensures EMPTY_SET.Valid() && EndsBefore(EMPTY_SET, 0)
  {
  }

  lemma AppendEnds(s: RangeSet, low: nat, high: nat)
    requires low <= high
    ensures EndsBefore(Append(s, low, high), high + 2)
  {
  }

  lemma LimitAll(rs: seq<Range>, start: nat, end: nat)
    requires Canonical(rs) && rs != [] && rs[0].low >= start && rs[|rs| - 1].high < end
    ensures forall x :: In(rs, x) ==> start <= x <= end
    ensures start <= end
  {
    assert rs[0].low <= rs[0].high <= rs[|rs| - 1].high;
  }

  lemma LimitRest(rs: seq<Range>, i: nat, end: nat)
    requires Canonical(rs) && i < |rs| && rs[i].low > end
    ensures forall x :: In(rs, x) && x <= end <==> In(rs[..i], x) && x <= end
  {
    assert rs == rs[..i] + rs[i..];
    forall x
      ensures In(rs, x) && x <= end <==> In(rs[..i], x) && x <= end
    {
      InConcat(rs[..i], rs[i..], x);
    }
  }

  /** Ids of the set below the sweep position: the first s ranges, and range s up to, not including, c. */
  ghost predicate Swept(rs: seq<Range>, s: nat, c: int, x: int)
    requires s <= |rs|
  {
    In(rs[..s], x) || (s < |rs| && rs[s].low <= x < c)
  }

  /** inter and compl split the swept ids of rs by membership in fs. */
  ghost predicate SplitSoFar(rs: seq<Range>, fs: seq<Range>, s: nat, c: int, inter: RangeSet, compl: RangeSet)
    requires s <= |rs|
  {
    && inter.Valid() && compl.Valid()
    && (forall x :: In(inter.ranges, x) <==> Swept(rs, s, c, x) && In(fs, x))
    && (forall x :: In(compl.ranges, x) <==> Swept(rs, s, c, x) && !In(fs, x))
  }

  /** The last range of a set ends below the id b - 1. */
  ghost predicate EndsBefore(s: RangeSet, b: int)
  {
    s.ranges != [] ==> s.ranges[|s.ranges| - 1].high + 1 < b
  }

  lemma SplitStart(rs: seq<Range>, fs: seq<Range>)
    ensures SplitSoFar(rs, fs, 0, 0, EMPTY_SET, EMPTY_SET)
  {
  }

  lemma SplitEnter(rs: seq<Range>, fs: seq<Range>, s: nat, inter: RangeSet, compl: RangeSet)
    requires s < |rs| && SplitSoFar(rs, fs, s, 0, inter, compl)
    ensures SplitSoFar(rs, fs, s, rs[s].low, inter, compl)
  {
    hide In;
    assert forall x :: Swept(rs, s, 0, x) <==> Swept(rs, s, rs[s].low, x);
  }

  lemma SplitLeave(rs: seq<Range>, fs: seq<Range>, s: nat, inter: RangeSet, compl: RangeSet)
    requires s < |rs| && SplitSoFar(rs, fs, s, rs[s].high + 1, inter, compl)
    ensures SplitSoFar(rs, fs, s + 1, 0, inter, compl)
  {
    hide In;
    assert rs[..s + 1] == rs[..s] + [rs[s]];
    InAppendAll(rs[..s], rs[s]);
    var t, c := s + 1, rs[s].high + 1;
    assert forall x :: Swept(rs, t, 0, x) <==> Swept(rs, s, c, x);
  }

  /** The uncovered part of range s from c up to, not including, d goes to the complement. */
  lemma SplitGap(rs: seq<Range>, fs: seq<Range>, s: nat, f: nat, c: nat, d: nat, inter: RangeSet, compl: RangeSet)
    requires s < |rs| && Canonical(fs) && f <= |fs| && Proper(rs[s])
    requires rs[s].low <= c < d <= rs[s].high + 1 && SplitSoFar(rs, fs, s, c, inter, compl)
    requires EndsBefore(compl, c)
    requires f > 0 ==> fs[f - 1].high < c
    requires f < |fs| ==> d <= fs[f].low
    ensures SplitSoFar(rs, fs, s, d, inter, Append(compl, c, d - 1))
    ensures EndsBefore(Append(compl, c, d - 1), d + 1)
  {
    hide In, Canonical, Count;
    AppendValid(compl, c, d - 1);
    forall x | c <= x < d
      ensures !In(fs, x)
    {
      InGap(fs, f, x);
    }
    assert forall x :: Swept(rs, s, d, x) <==> Swept(rs, s, c, x) || c <= x < d;
  }

  /** The part of range s from c up to d that filter range f covers goes to the intersection. */
  lemma SplitCommon(rs: seq<Range>, fs: seq<Range>, s: nat, f: nat, c: nat, d: nat, inter: RangeSet, compl: RangeSet)
    requires s < |rs| && f < |fs| && Proper(rs[s])
    requires rs[s].low <= c <= d <= rs[s].high && SplitSoFar(rs, fs, s, c, inter, compl)
    requires fs[f].low <= c && d <= fs[f].high
    requires EndsBefore(inter, c)
    ensures SplitSoFar(rs, fs, s, d + 1, Append(inter, c, d), compl)
    ensures EndsBefore(Append(inter, c, d), d + 2) && Append(inter, c, d).ranges != []
  {
    hide In, Canonical, Count;
    AppendValid(inter, c, d);
    forall x | c <= x <= d
      ensures In(fs, x)
    {
      InAt(fs, f, x);
    }
    var e := d + 1;
    assert forall x :: Swept(rs, s, e, x) <==> Swept(rs, s, c, x) || c <= x <= d;
  }

  /** Where range f of the filter overlaps range s: what lies in front of it, and what both have. */
  lemma SplitOverlap(rs: seq<Range>, fs: seq<Range>, s: nat, f: nat, c: nat, inter: RangeSet, compl: RangeSet)
      returns (inter': RangeSet, compl': RangeSet)
    requires s < |rs| && Canonical(fs) && f < |fs| && Proper(rs[s]) && Proper(fs[f])
    requires rs[s].low <= c <= rs[s].high + 1 && SplitSoFar(rs, fs, s, c, inter, compl)
    requires rs[s].low <= fs[f].high && fs[f].low <= rs[s].high
    requires EndsBefore(inter, if c == rs[s].low then c else c + 1) && EndsBefore(compl, c)
    requires f > 0 ==> fs[f - 1].high < c
    requires c > rs[s].low ==> f > 0 && c == fs[f - 1].high + 1
    ensures var low := if fs[f].low >= rs[s].low then fs[f].low else rs[s].low;
      var high := if rs[s].high <= fs[f].high then rs[s].high else fs[f].high;
      && low <= high && inter' == Append(inter, low, high) && inter'.ranges != []
      && compl' == (if c < fs[f].low then Append(compl, c, fs[f].low - 1) else compl)
      && SplitSoFar(rs, fs, s, high + 1, inter', compl') && EndsBefore(inter', high + 2) && EndsBefore(compl', high + 1)
  {
    hide SplitSoFar, Canonical, Append;
    compl' := compl;
    if f > 0 {
      CanonicalGap(fs, f);
    }
    if c < fs[f].low {
      SplitGap(rs, fs, s, f, c, fs[f].low, inter, compl);
      compl' := Append(compl, c, fs[f].low - 1);
    }
    var low := if fs[f].low >= rs[s].low then fs[f].low else rs[s].low;
    var high := if rs[s].high <= fs[f].high then rs[s].high else fs[f].high;
    SplitCommon(rs, fs, s, f, low, high, inter, compl');
    inter' := Append(inter, low, high);
  }

  lemma CanonicalGap(fs: seq<Range>, f: nat)
    requires Canonical(fs) && 0 < f < |fs|
    ensures fs[f - 1].high + 1 < fs[f].low
  {
  }

  lemma InAt(rs: seq<Range>, i: nat, x: int)
    requires i < |rs| && rs[i].low <= x <= rs[i].high
    ensures In(rs, x)
  {
  }

  /** Once the sweep is over, or the filter is used up, the intersection is complete. */
  lemma SplitFinish(rs: seq<Range>, fs: seq<Range>, s: nat, f: nat, inter: RangeSet, compl: RangeSet)
    requires Canonical(rs) && Canonical(fs) && s <= |rs| && SplitSoFar(rs, fs, s, 0, inter, compl)
    requires s < |rs| ==> f == |fs| && (s == 0 ==> f == 0) && (s > 0 && f > 0 ==> fs[f - 1].high <= rs[s - 1].high)
    ensures inter.Valid() && compl.Valid()
    ensures forall x :: In(inter.ranges, x) <==> In(rs, x) && In(fs, x)
    ensures s == |rs| ==> forall x :: In(compl.ranges, x) <==> In(rs, x) && !In(fs, x)
    ensures inter.ranges != [] <==> exists x :: In(rs, x) && In(fs, x)
  {
    hide In, Canonical, Count;
    if s == |rs| {
      assert rs[..s] == rs;
    } else {
      FilterUsedUp(rs, fs, s, f);
    }
    if inter.ranges != [] {
      CanonicalAt(inter.ranges, 0);
      InFirst(inter.ranges, inter.ranges[0].low);
      var x := inter.ranges[0].low;
      assert In(rs, x) && In(fs, x);
    } else {
      InNone();
    }
  }

  /** With the filter used up, all common ids are in the ranges swept. */
  lemma FilterUsedUp(rs: seq<Range>, fs: seq<Range>, s: nat, f: nat)
    requires Canonical(rs) && Canonical(fs) && s < |rs|
    requires f == |fs| && (s == 0 ==> f == 0) && (s > 0 && f > 0 ==> fs[f - 1].high <= rs[s - 1].high)
    ensures forall x :: In(rs, x) && In(fs, x) ==> In(rs[..s], x)
    ensures forall x :: In(rs[..s], x) ==> In(rs, x)
  {
    forall x | In(rs, x) && In(fs, x)
      ensures In(rs[..s], x)
    {
      var i :| 0 <= i < |rs| && rs[i].low <= x <= rs[i].high;
      var j :| 0 <= j < |fs| && fs[j].low <= x <= fs[j].high;
      assert fs[j].high <= fs[f - 1].high;
      assert rs[..s][i] == rs[i];
    }
    forall x | In(rs[..s], x)
      ensures In(rs, x)
    {
      var i :| 0 <= i < s && rs[..s][i].low <= x <= rs[..s][i].high;
      assert rs[i] == rs[..s][i];
    }
  }

  /** The results are the split so far, as far as they are wanted; has tells whether something is common. */
  ghost predicate Wanted(has: bool, wantInter: bool, wantCompl: bool, inter: RangeSet, compl: RangeSet, gi: RangeSet, gc: RangeSet)
  {
    && has == (gi.ranges != []) && (has ==> wantInter || wantCompl)
    && (wantInter ==> inter == gi) && (wantCompl ==> compl == gc)
  }

  lemma RangesApart(rs: seq<Range>, fs: seq<Range>, s: nat, f: nat)
    requires Canonical(rs) && s < |rs| && f <= |fs| && (s > 0 && f > 0 ==> fs[f - 1].high <= rs[s - 1].high) && (s == 0 ==> f == 0)
    ensures f > 0 ==> fs[f - 1].high < rs[s].low
    ensures s > 0 ==> rs[s - 1].high + 2 <= rs[s].low
  {
  }

  /** The sweep over one range of the set; without any wanted result it stops at a common id. */
  method SweepRange(S: seq<Range>, F: seq<Range>, s: nat, f0: nat, wantInter: bool, wantCompl: bool,
      has0: bool, inter0: RangeSet, compl0: RangeSet, ghost gi0: RangeSet, ghost gc0: RangeSet)
      returns (has: bool, f: nat, inter: RangeSet, compl: RangeSet, ghost gi: RangeSet, ghost gc: RangeSet)
    requires Canonical(F) && s < |S| && f0 <= |F| && Proper(S[s])
    requires SplitSoFar(S, F, s, S[s].low, gi0, gc0) && EndsBefore(gi0, S[s].low) && EndsBefore(gc0, S[s].low)
    requires f0 > 0 ==> F[f0 - 1].high < S[s].low
    requires Wanted(has0, wantInter, wantCompl, inter0, compl0, gi0, gc0)
    ensures f <= |F| && (f > 0 ==> F[f - 1].high <= S[s].high)
    ensures has && !wantInter && !wantCompl ==> exists x :: In(S, x) && In(F, x)
    ensures !has || wantInter || wantCompl ==>
      && SplitSoFar(S, F, s, S[s].high + 1, gi, gc) && EndsBefore(gi, S[s].high + 2) && EndsBefore(gc, S[s].high + 2)
      && Wanted(has, wantInter, wantCompl, inter, compl, gi, gc)
  {
    hide In, Canonical, Sorted, Count, Apart, Append, SplitSoFar, Swept;
    has, f, inter, compl, gi, gc := has0, f0, inter0, compl0, gi0, gc0;
    var setLow, setHigh := S[s].low, S[s].high;
    var setCurr := setLow;
    while f < |F|
      invariant f <= |F| && setLow <= setCurr <= setHigh + 1
      invariant SplitSoFar(S, F, s, setCurr, gi, gc)
      invariant EndsBefore(gi, if setCurr == setLow then setCurr else setCurr + 1)
      invariant EndsBefore(gc, setCurr)
      invariant f > 0 ==> F[f - 1].high < setCurr && F[f - 1].high <= setHigh
      invariant setCurr > setLow ==> f > 0 && setCurr == F[f - 1].high + 1
      invariant Wanted(has, wantInter, wantCompl, inter, compl, gi, gc)
    {
      CanonicalAt(F, f);
      var filterLow, filterHigh := F[f].low, F[f].high;
      if filterHigh < setLow {
        f := f + 1;
      } else if filterLow > setHigh {
        break;
      } else {
        has := true;
        var low := if filterLow >= setLow then filterLow else setLow;
        if !wantInter && !wantCompl {
          InAt(S, s, low);
          InAt(F, f, low);
          return;
        }
        gi, gc := SplitOverlap(S, F, s, f, setCurr, gi, gc);
        if setCurr < filterLow && wantCompl {
          compl := Append(compl, setCurr, filterLow - 1);
        }
        setCurr := if setHigh <= filterHigh then setHigh else filterHigh;
        if wantInter {
          inter := Append(inter, low, setCurr);
        }
        setCurr := setCurr + 1;
        if filterHigh > setHigh {
          break;
        } else {
          f := f + 1;
        }
      }
    }
    if setCurr <= setHigh {
      SplitGap(S, F, s, f, setCurr, setHigh + 1, gi, gc);
      gc := Append(gc, setCurr, setHigh);
      if wantCompl {
        compl := Append(compl, setCurr, setHigh);
      }
    }
  }

  /**
   * The sweep over two sets: which ids of set are in the filter and which are not.
   * Without a filter everything is in; without any wanted result it stops at the first common id.
   */
  method Intersect(set_: RangeSet, filter: Option<RangeSet>, wantInter: bool, wantCompl: bool)
      returns (has: bool, inter: RangeSet, compl: RangeSet)
    requires set_.Valid() && (filter.Some? ==> filter.value.Valid())
    ensures filter.None? ==> has && (wantInter ==> inter == set_) && compl == EMPTY_SET
    ensures filter.Some? ==>
      (has <==> exists x :: In(set_.ranges, x) && In(filter.value.ranges, x))
    ensures filter.Some? && wantInter ==>
      inter.Valid() && forall x :: In(inter.ranges, x) <==> In(set_.ranges, x) && In(filter.value.ranges, x)
    ensures filter.Some? && wantCompl ==>
      compl.Valid() && forall x :: In(compl.ranges, x) <==> In(set_.ranges, x) && !In(filter.value.ranges, x)
  {
    hide In, Canonical, Sorted, Count, Apart, Append, SplitSoFar, Swept;
    inter, compl, has := EMPTY_SET, EMPTY_SET, false;
    if filter.None? {
      return true, set_, compl;
    }
    var S, F := set_.ranges, filter.value.ranges;
    ghost var gi, gc := EMPTY_SET, EMPTY_SET;
    SplitStart(S, F);
    var s, f := 0, 0;
    while s < |S|
      invariant 0 <= s <= |S| && 0 <= f <= |F|
      invariant SplitSoFar(S, F, s, 0, gi, gc)
      invariant s == 0 ==> f == 0 && gi == EMPTY_SET && gc == EMPTY_SET
      invariant s > 0 ==> EndsBefore(gi, S[s - 1].high + 2) && EndsBefore(gc, S[s - 1].high + 2)
      invariant s > 0 && f > 0 ==> F[f - 1].high <= S[s - 1].high
      invariant Wanted(has, wantInter, wantCompl, inter, compl, gi, gc)
    {
      CanonicalAt(S, s);
      SplitEnter(S, F, s, gi, gc);
      if f == |F| {
        if !wantInter && !wantCompl {
          SplitFinish(S, F, s, f, gi, gc);
          return;
        }
        if wantCompl {
          compl := Append(compl, S[s].low, S[s].high);
        } else {
          break;
        }
        SplitGap(S, F, s, f, S[s].low, S[s].high + 1, gi, gc);
        gc := Append(gc, S[s].low, S[s].high);
      } else {
        RangesApart(S, F, s, f);
        has, f, inter, compl, gi, gc := SweepRange(S, F, s, f, wantInter, wantCompl, has, inter, compl, gi, gc);
        if has && !wantInter && !wantCompl {
          return;
        }
      }
      SplitLeave(S, F, s, gi, gc);
      s := s + 1;
    }
    SplitFinish(S, F, s, f, gi, gc);
  }
}
