/** Area::PathIterator: all cells of an area in lexicographic order, numbered in a mixed radix. */
module PathIterators {
  import opened Ids
  import opened Streams

  /** The elements of every dimension of an area, in ascending order. */
  type Space = seq<seq<nat>>

  ghost predicate ValidDim(ids: seq<nat>)
  {
    && ids != []
    && (forall i :: 0 <= i < |ids| ==> ids[i] <= NO_IDENTIFIER)
    && (forall i, j :: 0 <= i < j < |ids| ==> ids[i] < ids[j])
  }

  ghost predicate ValidSpace(space: Space)
  {
    forall d :: 0 <= d < |space| ==> ValidDim(space[d])
  }

  function Times(x: nat, y: nat): nat
  {
    x * y
  }

  function Quot(n: nat, step: nat): nat
    requires step > 0
  {
    n / step
  }

  function Rem(n: nat, step: nat): nat
    requires step > 0
  {
    n % step
  }

  /** The number of cells spanned by the dimensions from d on; the step size of dimension d - 1. */
  function SizeFrom(space: Space, d: nat): (n: nat)
    requires d <= |space|
    decreases |space| - d
  {
    if d == |space| then 1 else Times(|space[d]|, SizeFrom(space, d + 1))
  }

  function Size(space: Space): nat
  {
    SizeFrom(space, 0)
  }

  /** One element index per dimension. */
  ghost predicate ValidPath(space: Space, path: seq<nat>)
  {
    |path| == |space| && forall d :: 0 <= d < |path| ==> path[d] < |space[d]|
  }

  /** The position of a path among all paths, counting the dimensions from d on. */
  function PositionFrom(space: Space, path: seq<nat>, d: nat): nat
    requires |path| == |space| && d <= |space|
    decreases |space| - d
  {
    if d == |space| then 0 else Times(path[d], SizeFrom(space, d + 1)) + PositionFrom(space, path, d + 1)
  }

  function Position(space: Space, path: seq<nat>): nat
    requires |path| == |space|
  {
    PositionFrom(space, path, 0)
  }

  /** The path at a position. */
  function PathAtFrom(space: Space, n: nat, d: nat): (path: seq<nat>)
    requires d <= |space| && forall i :: d <= i < |space| ==> space[i] != []
    ensures |path| == |space| - d
    decreases |space| - d
  {
    if d == |space| then []
    else
      SizePositive(space, d + 1);
      [Quot(n, SizeFrom(space, d + 1))] + PathAtFrom(space, Rem(n, SizeFrom(space, d + 1)), d + 1)
  }

  lemma {:induction false} SizePositive(space: Space, d: nat)
    requires d <= |space| && forall i :: d <= i < |space| ==> space[i] != []
    ensures SizeFrom(space, d) > 0
    decreases |space| - d
  {
    if d < |space| {
      SizePositive(space, d + 1);
      ProductPositive(|space[d]|, SizeFrom(space, d + 1));
    }
  }

  lemma ProductPositive(x: nat, y: nat)
    requires x > 0 && y > 0
    ensures Times(x, y) > 0
  {
  }

  lemma TimesLe(x: nat, y: nat, z: nat)
    requires x <= y
    ensures Times(x, z) <= Times(y, z)
  {
  }

  lemma TimesMore(x: nat, z: nat)
    ensures Times(x + 1, z) == Times(x, z) + z
  {
  }

  /** A digit and a remainder below the radix: the number is below the next radix. */
  lemma DigitBound(digit: nat, rest: nat, base: nat, step: nat)
    requires digit < base && rest < step
    ensures Times(digit, step) + rest < Times(base, step)
  {
    hide Times;
    TimesMore(digit, step);
    TimesLe(digit + 1, base, step);
  }

  /** A smaller digit makes a smaller number. */
  lemma DigitOrder(digit: nat, rest: nat, digit': nat, rest': nat, step: nat)
    requires rest < step && rest' < step
    ensures digit < digit' ==> Times(digit, step) + rest < Times(digit', step) + rest'
  {
    if digit < digit' {
      DigitBound(digit, rest, digit', step);
    }
  }

  lemma Divides(n: nat, step: nat)
    requires step > 0
    ensures n == Times(Quot(n, step), step) + Rem(n, step) && Rem(n, step) < step
  {
  }

  /** Digit and remainder are recovered by division. */
  lemma DigitDivides(digit: nat, rest: nat, step: nat)
    requires rest < step
    ensures Quot(Times(digit, step) + rest, step) == digit && Rem(Times(digit, step) + rest, step) == rest
  {
    hide Times, Quot, Rem;
    var n := Times(digit, step) + rest;
    Divides(n, step);
    DigitOrder(digit, rest, Quot(n, step), Rem(n, step), step);
    DigitOrder(Quot(n, step), Rem(n, step), digit, rest, step);
  }

  /** A number below the next radix has a digit below the base. */
  lemma DigitInRange(n: nat, step: nat, base: nat)
    requires step > 0 && n < Times(base, step)
    ensures Quot(n, step) < base && Rem(n, step) < step && n == Times(Quot(n, step), step) + Rem(n, step)
  {
    hide Times, Quot, Rem;
    Divides(n, step);
    if Quot(n, step) >= base {
      TimesLe(base, Quot(n, step), step);
    }
  }

  lemma {:induction false} PositionBound(space: Space, path: seq<nat>, d: nat)
    requires ValidPath(space, path) && d <= |space|
    ensures PositionFrom(space, path, d) < SizeFrom(space, d)
    decreases |space| - d
  {
    if d < |space| {
      PositionBound(space, path, d + 1);
      DigitBound(path[d], PositionFrom(space, path, d + 1), |space[d]|, SizeFrom(space, d + 1));
    }
  }

  /** Positions and paths are in bijection. */
  lemma {:induction false} PathOfPosition(space: Space, path: seq<nat>, d: nat)
    requires ValidSpace(space) && ValidPath(space, path) && d <= |space|
    ensures PathAtFrom(space, PositionFrom(space, path, d), d) == path[d..]
    decreases |space| - d
  {
    if d < |space| {
      hide Times, Quot, Rem;
      PathOfPosition(space, path, d + 1);
      PositionBound(space, path, d + 1);
      DigitDivides(path[d], PositionFrom(space, path, d + 1), SizeFrom(space, d + 1));
    }
  }

  lemma PositionOfPath(space: Space, n: nat, d: nat, prefix: seq<nat>)
    requires ValidSpace(space) && d <= |space| && n < SizeFrom(space, d) && |prefix| == d
    ensures PositionFrom(space, prefix + PathAtFrom(space, n, d), d) == n
    ensures forall i :: d <= i < |space| ==> PathAtFrom(space, n, d)[i - d] < |space[i]|
  {
    hide Times, Quot, Rem, SizeFrom, PositionFrom, PathAtFrom;
    PositionBack(space, n, d, prefix + PathAtFrom(space, n, d));
    forall i | d <= i < |space|
      ensures PathAtFrom(space, n, d)[i - d] < |space[i]|
    {
      PathInRange(space, n, d, i);
    }
  }

  lemma {:induction false} PathInRange(space: Space, n: nat, d: nat, i: nat)
    requires ValidSpace(space) && d <= i < |space| && n < SizeFrom(space, d)
    ensures PathAtFrom(space, n, d)[i - d] < |space[i]|
    decreases |space| - d
  {
    hide Times, Quot, Rem;
    var step := SizeFrom(space, d + 1);
    SizePositive(space, d + 1);
    DigitInRange(n, step, |space[d]|);
    if i > d {
      PathInRange(space, Rem(n, step), d + 1, i);
      assert PathAtFrom(space, n, d)[i - d] == PathAtFrom(space, Rem(n, step), d + 1)[i - (d + 1)];
    }
  }

  lemma {:induction false} PositionBack(space: Space, n: nat, d: nat, path: seq<nat>)
    requires ValidSpace(space) && d <= |space| == |path| && n < SizeFrom(space, d) && path[d..] == PathAtFrom(space, n, d)
    ensures PositionFrom(space, path, d) == n
    decreases |space| - d
  {
    if d < |space| {
      hide Times, Quot, Rem;
      var step := SizeFrom(space, d + 1);
      SizePositive(space, d + 1);
      DigitInRange(n, step, |space[d]|);
      assert path[d] == path[d..][0] && path[d + 1..] == path[d..][1..];
      PositionBack(space, Rem(n, step), d + 1, path);
    }
  }

  // ------------------------------------------------------------------------------------------
  // Keys
  // ------------------------------------------------------------------------------------------

  /** The cell of a path. */
  function KeyOf(space: Space, path: seq<nat>): (key: Key)
    requires |path| == |space| && forall d :: 0 <= d < |path| ==> path[d] < |space[d]|
    ensures |key| == |space|
  {
    seq(|space|, d requires 0 <= d < |space| => space[d][path[d]])
  }

  lemma KeyValid(space: Space, path: seq<nat>)
    requires ValidSpace(space) && ValidPath(space, path)
    ensures ValidKey(KeyOf(space, path), |space|)
  {
  }

  /** Cells in key order are in order of position. */
  lemma {:induction false} KeyOrderFrom(space: Space, a: seq<nat>, b: seq<nat>, d: nat)
    requires ValidSpace(space) && ValidPath(space, a) && ValidPath(space, b) && d <= |space|
    ensures LexLeFrom(KeyOf(space, a), KeyOf(space, b), d) <==> PositionFrom(space, a, d) <= PositionFrom(space, b, d)
    decreases |space| - d
  {
    if d < |space| {
      KeyOrderFrom(space, a, b, d + 1);
      PositionBound(space, a, d + 1);
      PositionBound(space, b, d + 1);
      hide Times;
      var restA, restB := PositionFrom(space, a, d + 1), PositionFrom(space, b, d + 1);
      DigitOrder(a[d], restA, b[d], restB, SizeFrom(space, d + 1));
      DigitOrder(b[d], restB, a[d], restA, SizeFrom(space, d + 1));
      DimOrder(space[d], a[d], b[d]);
      DimOrder(space[d], b[d], a[d]);
    }
  }

  lemma DimOrder(ids: seq<nat>, i: nat, j: nat)
    requires ValidDim(ids) && i < |ids| && j < |ids|
    ensures i < j ==> ids[i] < ids[j]
  {
  }

  lemma KeyOrder(space: Space, a: seq<nat>, b: seq<nat>)
    requires ValidSpace(space) && ValidPath(space, a) && ValidPath(space, b)
    ensures Rank(KeyOf(space, a)) <= Rank(KeyOf(space, b)) <==> Position(space, a) <= Position(space, b)
  {
    hide Rank;
    KeyOrderFrom(space, a, b, 0);
    KeyValid(space, a);
    KeyValid(space, b);
    RankOrder(KeyOf(space, a), KeyOf(space, b), |space|);
  }

  /** The cell at a position. */
  ghost function KeyAt(space: Space, n: nat): Key
    requires ValidSpace(space) && n < Size(space)
  {
    PositionOfPath(space, n, 0, []);
    assert [] + PathAtFrom(space, n, 0) == PathAtFrom(space, n, 0);
    KeyOf(space, PathAtFrom(space, n, 0))
  }

  /** Greater positions are greater cells. */
  lemma KeyAtOrder(space: Space, m: nat, n: nat)
    requires ValidSpace(space) && m < Size(space) && n < Size(space)
    ensures Rank(KeyAt(space, m)) <= Rank(KeyAt(space, n)) <==> m <= n
    ensures Rank(KeyAt(space, m)) < Rank(KeyAt(space, n)) <==> m < n
  {
    hide Rank;
    PositionOfPath(space, m, 0, []);
    PositionOfPath(space, n, 0, []);
    var a, b := PathAtFrom(space, m, 0), PathAtFrom(space, n, 0);
    assert [] + a == a && [] + b == b;
    KeyOrder(space, a, b);
    KeyOrder(space, b, a);
  }

  /** One more digit of the path at a position. */
  lemma PathAtStep(space: Space, n: nat, d: nat, steps: seq<nat>)
    requires d < |space| && SizeFrom(space, d + 1) > 0 && ValidSpace(space)
    ensures var step := SizeFrom(space, d + 1);
            steps + PathAtFrom(space, n, d) == steps + [Quot(n, step)] + PathAtFrom(space, Rem(n, step), d + 1)
  {
    hide Times, Quot, Rem, SizeFrom;
  }

  // ------------------------------------------------------------------------------------------
  // The iterator
  // ------------------------------------------------------------------------------------------

  class PathIterator {
    const space: Space
    var path: seq<nat>
    var ids: Key
    var end: bool

    ghost predicate Valid()
      reads this
    {
      ValidSpace(space) && (!end ==> ValidPath(space, path) && ids == KeyOf(space, path))
    }

    /** getPosition: the end counts as the size of the area. */
    function GetPosition(): nat
      requires !end ==> |path| == |space|
      reads this
    {
      if end then Size(space) else Position(space, path)
    }

    /** pathBegin */
    constructor Begin(space: Space)
      requires ValidSpace(space)
      ensures Valid() && this.space == space && !end && GetPosition() == 0
    {
      this.space := space;
      path := seq(|space|, _ => 0);
      ids := seq(|space|, d requires 0 <= d < |space| => assert ValidDim(space[d]); space[d][0]);
      end := false;
      new;
      forall d | 0 <= d < |space|
        ensures path[d] < |space[d]|
      {
        assert ValidDim(space[d]);
      }
      ZeroPosition(space, path, 0);
    }

    /** pathEnd */
    constructor End(space: Space)
      requires ValidSpace(space)
      ensures Valid() && this.space == space && end && GetPosition() == Size(space)
    {
      this.space, path, ids, end := space, [], [], true;
    }

    /** A path given by its indices. */
    constructor At(space: Space, path: seq<nat>)
      requires ValidSpace(space) && ValidPath(space, path)
      ensures Valid() && this.space == space && !end && GetPosition() == Position(space, path) && ids == KeyOf(space, path)
    {
      this.space, this.path, ids, end := space, path, KeyOf(space, path), false;
    }

    lemma IdsAtPosition()
      requires Valid() && !end
      ensures GetPosition() < Size(space) && ids == KeyAt(space, GetPosition())
    {
      PositionBound(space, path, 0);
      PathOfPosition(space, path, 0);
      assert path[0..] == path;
    }

    /** operator++: the next path, by counting up from the last dimension; the end stays the end. */
    method Increment()
      requires Valid() && space != []
      modifies this
      ensures Valid()
      ensures GetPosition() == if old(end) then old(GetPosition()) else old(GetPosition()) + 1
      ensures old(end) ==> end
    {
      if !end {
        ghost var path0 := path;
        var j := |path|;
        while j > 0
          invariant 0 < j <= |path| && !end && Valid()
          invariant forall d :: 0 <= d < j ==> path[d] == path0[d]
          invariant forall d :: j <= d < |path| ==> path[d] == 0 && path0[d] == |space[d]| - 1
          decreases j
        {
          var i := j - 1;
          assert ValidDim(space[i]);
          if path[i] + 1 < |space[i]| {
            path := path[i := path[i] + 1];
            ids := ids[i := space[i][path[i]]];
            CountedUp(space, path0, path, i, 0);
            break;
          } else if i == 0 {
            LastPosition(space, path0, 0);
            end := true;
            break;
          } else {
            path := path[i := 0];
            ids := ids[i := space[i][0]];
          }
          j := i;
        }
      }
    }

    /** The iterator has passed a cell once it stands behind it in key order, or at the end. */
    ghost predicate HasPassed(key: Key)
      reads this
    {
      end || Rank(key) < Rank(ids)
    }

    /** Where the iterator stands, read off the cells it has passed. */
    lemma PassedCells()
      requires Valid()
      ensures GetPosition() <= Size(space)
      ensures forall n: nat :: n < Size(space) ==> (HasPassed(KeyAt(space, n)) <==> n < GetPosition())
    {
      hide Rank, KeyAt, Position;
      if !end {
        IdsAtPosition();
        forall n: nat | n < Size(space)
          ensures HasPassed(KeyAt(space, n)) <==> n < GetPosition()
        {
          KeyAtOrder(space, n, GetPosition());
        }
      }
    }

    /**
     * operator-: how many cells this iterator has passed that the other one has not; counted
     * downwards if the other one is ahead.
     */
    method Minus(other: PathIterator) returns (distance: int)
      requires Valid() && other.Valid() && other.space == space
      ensures distance == if distance >= 0 then |PassedBetween(other, this)| else -|PassedBetween(this, other)|
      ensures distance > 0 <==> exists n: nat :: n < Size(space) && HasPassed(KeyAt(space, n)) && !other.HasPassed(KeyAt(space, n))
      ensures distance == 0 <==> end == other.end && (!end ==> ids == other.ids)
      ensures distance == GetPosition() - other.GetPosition()
    {
      distance := GetPosition() - other.GetPosition();
      PassedCells();
      other.PassedCells();
      if distance >= 0 {
        PassedCount(other, this);
      } else {
        PassedCount(this, other);
      }
      if distance > 0 {
        assert HasPassed(KeyAt(space, other.GetPosition()));
      }
      SamePlace(this, other);
    }

    /** operator+: as many steps further, or the end. */
    method Plus(count0: nat) returns (res: PathIterator)
      requires Valid()
      ensures fresh(res) && res.Valid() && res.space == space
      ensures res.GetPosition() == if GetPosition() + count0 <= Size(space) then GetPosition() + count0 else Size(space)
    {
      hide Times, Quot, Rem, PositionFrom, SizeFrom, PathAtFrom;
      var count: nat := count0 + GetPosition();
      if count < Size(space) {
        ghost var n := count;
        var steps: seq<nat> := [];
        for i := 0 to |space|
          invariant |steps| == i && steps + PathAtFrom(space, count, i) == PathAtFrom(space, n, 0)
        {
          SizePositive(space, i + 1);
          var step := SizeFrom(space, i + 1);
          PathAtStep(space, count, i, steps);
          steps := steps + [Quot(count, step)];
          count := Rem(count, step);
        }
        PositionOfPath(space, n, 0, []);
        assert steps == PathAtFrom(space, n, 0) == [] + PathAtFrom(space, n, 0);
        res := new PathIterator.At(space, steps);
      } else {
        res := new PathIterator.End(space);
      }
    }
  }

  /** The positions of the cells the second iterator has passed and the first has not. */
  ghost function PassedBetween(a: PathIterator, b: PathIterator): (s: set<int>)
    requires a.Valid() && b.Valid() && a.space == b.space
    reads a, b
  {
    set n: int | 0 <= n < Size(a.space) && !a.HasPassed(KeyAt(a.space, n)) && b.HasPassed(KeyAt(a.space, n))
  }

  lemma PassedCount(a: PathIterator, b: PathIterator)
    requires a.Valid() && b.Valid() && a.space == b.space && a.GetPosition() <= b.GetPosition()
    ensures |PassedBetween(a, b)| == b.GetPosition() - a.GetPosition()
  {
    hide Rank, KeyAt, Position, Size;
    a.PassedCells();
    b.PassedCells();
    assert PassedBetween(a, b) == Between(a.GetPosition(), b.GetPosition());
  }

  /** The numbers from low up to, not including, high. */
  function Between(low: nat, high: nat): (s: set<int>)
    requires low <= high
    ensures |s| == high - low && forall x :: x in s <==> low <= x < high
    decreases high
  {
    if low == high then {} else Between(low, high - 1) + {high - 1}
  }

  lemma SamePlace(a: PathIterator, b: PathIterator)
    requires a.Valid() && b.Valid() && a.space == b.space
    ensures a.GetPosition() == b.GetPosition() <==> a.end == b.end && (!a.end ==> a.ids == b.ids)
  {
    hide Rank, KeyAt, Position;
    if !a.end {
      a.IdsAtPosition();
    }
    if !b.end {
      b.IdsAtPosition();
    }
    if !a.end && !b.end && a.ids == b.ids {
      KeyAtOrder(a.space, a.GetPosition(), b.GetPosition());
      KeyAtOrder(a.space, b.GetPosition(), a.GetPosition());
    }
  }

  lemma {:induction false} ZeroPosition(space: Space, path: seq<nat>, d: nat)
    requires |path| == |space| && d <= |space| && forall i :: d <= i < |path| ==> path[i] == 0
    ensures PositionFrom(space, path, d) == 0
    decreases |space| - d
  {
    if d < |space| {
      ZeroPosition(space, path, d + 1);
    }
  }

  /** All digits at their greatest: the last position. */
  lemma {:induction false} LastPosition(space: Space, path: seq<nat>, d: nat)
    requires ValidPath(space, path) && d <= |space| && forall i :: d <= i < |path| ==> path[i] == |space[i]| - 1
    ensures PositionFrom(space, path, d) + 1 == SizeFrom(space, d)
    decreases |space| - d
  {
    if d < |space| {
      LastPosition(space, path, d + 1);
      TimesMore(|space[d]| - 1, SizeFrom(space, d + 1));
    }
  }

  /** One digit more, all behind it from their greatest to 0: the next position. */
  lemma {:induction false} CountedUp(space: Space, a: seq<nat>, b: seq<nat>, i: nat, d: nat)
    requires ValidPath(space, a) && |b| == |space| && d <= i < |space| && b[i] == a[i] + 1
    requires forall k :: 0 <= k < i ==> a[k] == b[k]
    requires forall k :: i < k < |space| ==> a[k] == |space[k]| - 1 && b[k] == 0
    ensures PositionFrom(space, b, d) == PositionFrom(space, a, d) + 1
    decreases |space| - d
  {
    if d < i {
      CountedUp(space, a, b, i, d + 1);
    } else {
      LastPosition(space, a, d + 1);
      ZeroPosition(space, b, d + 1);
      TimesMore(a[d], SizeFrom(space, d + 1));
    }
  }

  // ------------------------------------------------------------------------------------------
  // Finding a cell
  // ------------------------------------------------------------------------------------------

  ghost predicate KeyIn(space: Space, key: Key)
  {
    |key| == |space| && forall d :: 0 <= d < |key| ==> key[d] in space[d]
  }

  /** The index of an element. */
  function IndexOf(ids: seq<nat>, x: nat): (i: nat)
    requires x in ids
    ensures i < |ids| && ids[i] == x
  {
    if ids[0] == x then 0 else 1 + IndexOf(ids[1..], x)
  }

  ghost function PathOf(space: Space, key: Key): (path: seq<nat>)
    requires KeyIn(space, key)
    ensures ValidPath(space, path) && KeyOf(space, path) == key
  {
    seq(|space|, d requires 0 <= d < |space| => IndexOf(space[d], key[d]))
  }

  /** The position of a cell. */
  ghost function PositionOf(space: Space, key: Key): nat
    requires KeyIn(space, key)
  {
    Position(space, PathOf(space, key))
  }

  lemma PositionOfKey(space: Space, key: Key)
    requires ValidSpace(space) && KeyIn(space, key)
    ensures PositionOf(space, key) < Size(space) && KeyAt(space, PositionOf(space, key)) == key
  {
    var path := PathOf(space, key);
    PositionBound(space, path, 0);
    PathOfPosition(space, path, 0);
    assert path[0..] == path;
  }

  /** Area::find: the iterator at a cell, or the end if the area does not contain it. */
  method FindPath(space: Space, key: Key) returns (it: PathIterator)
    requires ValidSpace(space)
    ensures fresh(it) && it.Valid() && it.space == space
    ensures it.end <==> !KeyIn(space, key)
    ensures !it.end ==> it.ids == key && it.GetPosition() == PositionOf(space, key)
  {
    hide Position;
    if |key| != |space| {
      it := new PathIterator.End(space);
      return;
    }
    var path := [];
    for d := 0 to |space|
      invariant |path| == d && forall i :: 0 <= i < d ==> key[i] in space[i] && path[i] == IndexOf(space[i], key[i])
    {
      if key[d] !in space[d] {
        it := new PathIterator.End(space);
        return;
      }
      path := path + [IndexOf(space[d], key[d])];
    }
    assert path == PathOf(space, key);
    it := new PathIterator.At(space, path);
  }
}
