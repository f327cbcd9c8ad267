/** Element identifiers and cell keys: constants, the lexicographic key order and its laws. */
module Ids {
  import opened Wrappers


  /** Greatest 32-bit value, reserved as "no element" and used as plus infinity by Area splitting. */
  const NO_IDENTIFIER: nat := 0xFFFF_FFFF

  type Key = seq<nat>

  /** Lexicographic "less or equal" of the key suffixes starting at dimension d. */
  predicate LexLeFrom(a: Key, b: Key, d: nat)
    requires |a| == |b| && d <= |a|
    decreases |a| - d
  {
    d == |a| || a[d] < b[d] || (a[d] == b[d] && LexLeFrom(a, b, d + 1))
  }

  predicate LexLe(a: Key, b: Key)
    requires |a| == |b|
  {
    LexLeFrom(a, b, 0)
  }

  predicate LexLess(a: Key, b: Key)
    requires |a| == |b|
  {
    LexLe(a, b) && a != b
  }

  lemma {:induction false} LexTotalFrom(a: Key, b: Key, d: nat)
    requires |a| == |b| && d <= |a|
    ensures LexLeFrom(a, b, d) || LexLeFrom(b, a, d)
    ensures LexLeFrom(a, b, d) && LexLeFrom(b, a, d) <==> a[d..] == b[d..]
    decreases |a| - d
  {
    if d < |a| {
      LexTotalFrom(a, b, d + 1);
      assert a[d..] == [a[d]] + a[d + 1..];
      assert b[d..] == [b[d]] + b[d + 1..];
      assert a[d..] == b[d..] ==> a[d..][0] == b[d..][0] && a[d..][1..] == b[d..][1..];
    }
  }

  lemma LexTotal(a: Key, b: Key)
    requires |a| == |b|
    ensures LexLess(a, b) || a == b || LexLess(b, a)
    ensures !(LexLe(a, b) && LexLess(b, a))
    ensures a == b ==> LexLe(a, b)
  {
    LexTotalFrom(a, b, 0);
    assert a[0..] == a && b[0..] == b;
  }

  /** -1, 0 or 1 as the first key is below, equal to or above the second. */
  function Compare(a: Key, b: Key): int
    requires |a| == |b|
  {
    if a == b then 0 else if LexLe(a, b) then -1 else 1
  }

  /** compare of two stream keys; keys of different lengths are an error. */
  method CompareKeys(a: Key, b: Key) returns (r: Result<int>)
    ensures r.Failure? <==> |a| != |b|
    ensures |a| == |b| ==> r.value == Compare(a, b)
  {
    if |a| != |b| {
      return Failure("different key dimensionality");
    }
    assert a[0..] == a && b[0..] == b;
    for i := 0 to |a|
      invariant LexLe(a, b) <==> LexLeFrom(a, b, i)
      invariant forall j :: 0 <= j < i ==> a[j] == b[j]
    {
      if a[i] < b[i] {
        return Success(-1);
      } else if a[i] > b[i] {
        return Success(1);
      }
    }
    assert a == b;
    return Success(0);
  }

  /** The dimension deciding between two keys, counted from 1; negative where the first key is smaller. */
  ghost predicate DecidedAt(a: Key, b: Key, place: int)
    requires |a| == |b|
  {
    if place == 0 then a == b
    else
      var d := (if place < 0 then -place else place) - 1;
      d < |a| && a[..d] == b[..d] && if place < 0 then a[d] < b[d] else a[d] > b[d]
  }

  lemma {:induction false} DecidedOrder(a: Key, b: Key, d: nat, i: nat)
    requires i <= d < |a| == |b| && a[..d] == b[..d] && a[d] < b[d]
    ensures LexLeFrom(a, b, i)
    decreases d - i
  {
    if i < d {
      assert a[i] == a[..d][i] == b[..d][i] == b[i];
      DecidedOrder(a, b, d, i + 1);
    }
  }

  /** The sign of the deciding place is the order of the keys. */
  lemma DecidedSign(a: Key, b: Key, place: int)
    requires |a| == |b| && DecidedAt(a, b, place)
    ensures place < 0 <==> LexLess(a, b)
    ensures place > 0 <==> LexLess(b, a)
  {
    if place < 0 {
      DecidedOrder(a, b, -place - 1, 0);
    } else if place > 0 {
      DecidedOrder(b, a, place - 1, 0);
    }
    LexTotal(a, b);
    LexTotal(b, a);
  }

  /** compare of two keys, either of which may be the empty one in front of all others. */
  method CompareIds(a: Key, b: Key) returns (r: Result<int>)
    ensures r.Failure? <==> |a| != |b| && a != [] && b != []
    ensures a == [] && b != [] ==> r == Success(-1)
    ensures a != [] && b == [] ==> r == Success(1)
    ensures |a| == |b| ==> DecidedAt(a, b, r.value)
  {
    if a == [] && b != [] {
      return Success(-1);
    } else if a != [] && b == [] {
      return Success(1);
    } else if |a| != |b| {
      return Failure("different size of IdentifiersType");
    }
    for i := 0 to |a|
      invariant a[..i] == b[..i]
    {
      if a[i] < b[i] {
        return Success(-(i + 1));
      } else if a[i] > b[i] {
        return Success(i + 1);
      }
      assert a[..i + 1] == a[..i] + [a[i]] && b[..i + 1] == b[..i] + [b[i]];
    }
    assert a[..|a|] == a && b[..|b|] == b;
    return Success(0);
  }
}
