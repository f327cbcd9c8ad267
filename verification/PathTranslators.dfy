/** PathTranslator: the element ids of a cell packed into 64-bit bins, as the GPU storage keeps them. */
module PathTranslators {
  import opened Ids

  const MAX_BIN_CHARGE: nat := 64
  const ID_BITS: nat := 32

  // ------------------------------------------------------------------------------------------
  // Bit operations on natural numbers, one bit at a time
  // ------------------------------------------------------------------------------------------

  function Shl(x: nat, n: nat): nat
  {
    if n == 0 then x else 2 * Shl(x, n - 1)
  }

  function Shr(x: nat, n: nat): nat
    decreases n
  {
    if n == 0 then x else Shr(x / 2, n - 1)
  }

  /** The lowest n bits: what a value keeps when it is stored in n bits. */
  function Low(x: nat, n: nat): nat
    decreases n
  {
    if n == 0 then 0 else x % 2 + 2 * Low(x / 2, n - 1)
  }

  function Or(a: nat, b: nat): nat
    decreases a + b
  {
    if a + b == 0 then 0 else (if a % 2 == 1 || b % 2 == 1 then 1 else 0) + 2 * Or(a / 2, b / 2)
  }

  function And(a: nat, b: nat): nat
    decreases a + b
  {
    if a + b == 0 then 0 else (if a % 2 == 1 && b % 2 == 1 then 1 else 0) + 2 * And(a / 2, b / 2)
  }

  function BitLength(x: nat): nat
  {
    if x == 0 then 0 else 1 + BitLength(x / 2)
  }

  lemma {:induction false} ShlAdd(x: nat, y: nat, n: nat)
    ensures Shl(x + y, n) == Shl(x, n) + Shl(y, n)
    decreases n
  {
    if n > 0 {
      ShlAdd(x, y, n - 1);
    }
  }

  lemma {:induction false} ShlShl(x: nat, m: nat, n: nat)
    ensures Shl(Shl(x, m), n) == Shl(x, m + n)
    decreases n
  {
    if n > 0 {
      ShlShl(x, m, n - 1);
    }
  }

  lemma {:induction false} ShlPositive(n: nat)
    ensures Shl(1, n) > 0
  {
    if n > 0 {
      ShlPositive(n - 1);
    }
  }

  lemma {:induction false} ShlZero(n: nat)
    ensures Shl(0, n) == 0
  {
    if n > 0 {
      ShlZero(n - 1);
    }
  }

  /** A smaller number shifted leaves room for the shifted unit. */
  lemma ShlOrder(x: nat, y: nat, n: nat)
    requires x < y
    ensures Shl(x, n) + Shl(1, n) <= Shl(y, n)
  {
    ShlAdd(x, 1, n);
    ShlAdd(x + 1, y - x - 1, n);
  }

  /** Shifting back cuts off whatever was put below. */
  lemma {:induction false} ShrOf(v: nat, x: nat, n: nat)
    requires Shl(x, n) <= v < Shl(x, n) + Shl(1, n)
    ensures Shr(v, n) == x
    decreases n
  {
    if n > 0 {
      ShrOf(v / 2, x, n - 1);
    }
  }

  lemma {:induction false} LowOf(x: nat, y: nat, n: nat)
    requires y < Shl(1, n)
    ensures Low(Shl(x, n) + y, n) == y
    decreases n
  {
    if n > 0 {
      LowOf(x, y / 2, n - 1);
      assert (Shl(x, n) + y) / 2 == Shl(x, n - 1) + y / 2;
    }
  }

  /** A value that fits keeps all its bits. */
  lemma LowFits(y: nat, n: nat)
    requires y < Shl(1, n)
    ensures Low(y, n) == y
  {
    ShlZero(n);
    LowOf(0, y, n);
  }

  lemma {:induction false} LowBound(x: nat, n: nat)
    ensures Low(x, n) < Shl(1, n)
    decreases n
  {
    if n > 0 {
      LowBound(x / 2, n - 1);
    }
  }

  lemma {:induction false} OrZero(x: nat)
    ensures Or(x, 0) == x
  {
    if x > 0 {
      OrZero(x / 2);
    }
  }

  /** Or with bits below all set bits is addition. */
  lemma {:induction false} OrBelow(x: nat, y: nat, n: nat)
    requires y < Shl(1, n)
    ensures Or(Shl(x, n), y) == Shl(x, n) + y
    decreases n
  {
    if n == 0 {
      OrZero(x);
    } else {
      OrBelow(x, y / 2, n - 1);
    }
  }

  lemma {:induction false} AndEven(v: nat, m: nat)
    ensures And(v, 2 * m) == 2 * And(v / 2, m)
  {
    if v + 2 * m == 0 {
      assert And(v / 2, m) == 0;
    }
  }

  lemma {:induction false} AndShifted(v: nat, m: nat, n: nat)
    ensures Shr(And(v, Shl(m, n)), n) == And(Shr(v, n), m)
    decreases n
  {
    hide And;
    if n > 0 {
      AndShifted(v / 2, m, n - 1);
      AndEven(v, Shl(m, n - 1));
    }
  }

  lemma {:induction false} AndOdd(v: nat, m: nat)
    ensures And(v, 2 * m + 1) == v % 2 + 2 * And(v / 2, m)
  {
  }

  /** n ones. */
  function Ones(n: nat): nat
  {
    if n == 0 then 0 else 2 * Ones(n - 1) + 1
  }

  lemma {:induction false} OnesBelow(n: nat)
    ensures Ones(n) + 1 == Shl(1, n)
  {
    if n > 0 {
      OnesBelow(n - 1);
    }
  }

  /** And with n ones keeps the lowest n bits. */
  lemma {:induction false} AndOnes(v: nat, n: nat)
    ensures And(v, Ones(n)) == Low(v, n)
    decreases n
  {
    hide And;
    if n == 0 {
      AndZero(v);
    } else {
      AndOnes(v / 2, n - 1);
      AndOdd(v, Ones(n - 1));
    }
  }

  lemma {:induction false} AndZero(v: nat)
    ensures And(v, 0) == 0
  {
    if v > 0 {
      AndZero(v / 2);
    }
  }

  /** A number needs at most n bits exactly when it is below the n-th power of two. */
  lemma {:induction false} BitLengthFits(x: nat, n: nat)
    ensures BitLength(x) <= n <==> x < Shl(1, n)
    decreases n
  {
    ShlPositive(n);
    if x > 0 && n > 0 {
      BitLengthFits(x / 2, n - 1);
    }
  }

  // ------------------------------------------------------------------------------------------
  // The layout: every dimension in order, a new bin as soon as one does not fit
  // ------------------------------------------------------------------------------------------

  ghost predicate Packable(widths: seq<nat>)
  {
    forall d :: 0 <= d < |widths| ==> widths[d] < MAX_BIN_CHARGE
  }

  /** The lowest bit of a dimension in its bin; bins are filled from the top. */
  function Pos(widths: seq<nat>, k: nat): (pos: nat)
    requires k < |widths| && Packable(widths)
    ensures pos + widths[k] <= MAX_BIN_CHARGE
  {
    if k > 0 && widths[k] <= Pos(widths, k - 1) then Pos(widths, k - 1) - widths[k] else MAX_BIN_CHARGE - widths[k]
  }

  /** Dimension k is the first one of its bin. */
  predicate Starts(widths: seq<nat>, k: nat)
    requires k < |widths| && Packable(widths)
  {
    k == 0 || widths[k] > Pos(widths, k - 1)
  }

  function BinOf(widths: seq<nat>, k: nat): nat
    requires k < |widths| && Packable(widths)
  {
    if k == 0 then 0 else BinOf(widths, k - 1) + if Starts(widths, k) then 1 else 0
  }

  /** The number of bins after k dimensions; there is always at least one. */
  function BinCount(widths: seq<nat>, k: nat): nat
    requires k <= |widths| && Packable(widths)
  {
    if k == 0 then 1 else BinOf(widths, k - 1) + 1
  }

  /** The bits above and including dimension k in its bin. */
  function Top(widths: seq<nat>, path: Key, k: nat): nat
    requires k < |widths| == |path| && Packable(widths)
  {
    Shl(if Starts(widths, k) then 0 else Top(widths, path, k - 1), widths[k]) + path[k]
  }

  /** What bin b holds after the first k dimensions. */
  function BinValue(widths: seq<nat>, path: Key, b: nat, k: nat): nat
    requires k <= |widths| == |path| && Packable(widths)
  {
    if k == 0 then 0
    else if BinOf(widths, k - 1) == b then Shl(Top(widths, path, k - 1), Pos(widths, k - 1))
    else BinValue(widths, path, b, k - 1)
  }

  /** The packed form of a path. */
  function Packed(widths: seq<nat>, path: Key): (bins: seq<nat>)
    requires |widths| == |path| && Packable(widths)
    ensures |bins| == BinCount(widths, |widths|)
  {
    seq(BinCount(widths, |widths|), b requires 0 <= b => BinValue(widths, path, b, |widths|))
  }

  /** The path read from packed bins: the bits of each dimension, stored in a 32-bit id. */
  function Unpacked(widths: seq<nat>, bins: seq<nat>): (path: Key)
    requires Packable(widths) && |bins| == BinCount(widths, |widths|)
    ensures |path| == |widths|
  {
    seq(|widths|, k requires 0 <= k < |widths| =>
      BinOfUpTo(widths, k, |widths|);
      Low(Low(Shr(bins[BinOf(widths, k)], Pos(widths, k)), widths[k]), ID_BITS))
  }

  /** Every id fits into the bits of its dimension, and into 32 bits. */
  ghost predicate Fits(widths: seq<nat>, path: Key)
  {
    && |path| == |widths|
    && forall k :: 0 <= k < |path| ==> path[k] < Shl(1, widths[k]) && path[k] < Shl(1, ID_BITS)
  }

  lemma {:induction false} BinOfUpTo(widths: seq<nat>, j: nat, k: nat)
    requires j < k <= |widths| && Packable(widths)
    ensures BinOf(widths, j) <= BinOf(widths, k - 1) < BinCount(widths, k)
    ensures forall i :: j <= i < k && BinOf(widths, i) == BinOf(widths, j) && i > j ==> !Starts(widths, i)
  {
    if j < k - 1 {
      BinOfUpTo(widths, j, k - 1);
      assert BinOf(widths, j) <= BinOf(widths, k - 2) <= BinOf(widths, k - 1);
    }
  }

  /** The bin up to dimension k, and the bits below it that are still free. */
  ghost function Filled(widths: seq<nat>, path: Key, k: nat): nat
    requires k < |widths| == |path| && Packable(widths)
  {
    Shl(Top(widths, path, k), Pos(widths, k))
  }

  lemma FilledStep(widths: seq<nat>, path: Key, k: nat)
    requires 0 < k < |widths| && Packable(widths) && Fits(widths, path) && !Starts(widths, k)
    ensures Filled(widths, path, k) == Filled(widths, path, k - 1) + Shl(path[k], Pos(widths, k))
    ensures Shl(path[k], Pos(widths, k)) + Shl(1, Pos(widths, k)) <= Shl(1, Pos(widths, k - 1))
  {
    hide Shl;
    var w, p := widths[k], Pos(widths, k);
    var above := Top(widths, path, k - 1);
    ShlAdd(Shl(above, w), path[k], p);
    ShlShl(above, w, p);
    ShlOrder(path[k], Shl(1, w), p);
    ShlShl(1, w, p);
  }

  lemma FilledStart(widths: seq<nat>, path: Key, k: nat)
    requires k < |widths| && Packable(widths) && Fits(widths, path) && Starts(widths, k)
    ensures Filled(widths, path, k) == Shl(path[k], Pos(widths, k))
  {
    ShlZero(widths[k]);
  }

  /** Later dimensions of the bin only use the bits below. */
  lemma {:induction false} FilledBelow(widths: seq<nat>, path: Key, j: nat, k: nat)
    requires j <= k < |widths| && Packable(widths) && Fits(widths, path) && BinOf(widths, j) == BinOf(widths, k)
    ensures Filled(widths, path, j) <= Filled(widths, path, k)
    ensures Filled(widths, path, k) + Shl(1, Pos(widths, k)) <= Filled(widths, path, j) + Shl(1, Pos(widths, j))
    decreases k
  {
    hide Filled, Shl;
    if j < k {
      BinOfUpTo(widths, j, k);
      assert BinOf(widths, k - 1) == BinOf(widths, j);
      FilledBelow(widths, path, j, k - 1);
      FilledStep(widths, path, k);
    }
  }

  /** The last dimension of the bin of dimension j among the first n. */
  lemma {:induction false} BinValueAt(widths: seq<nat>, path: Key, j: nat, n: nat) returns (last: nat)
    requires j < n <= |widths| && Packable(widths) && Fits(widths, path)
    ensures j <= last < n && BinOf(widths, last) == BinOf(widths, j)
    ensures BinValue(widths, path, BinOf(widths, j), n) == Filled(widths, path, last)
    decreases n
  {
    BinOfUpTo(widths, j, n);
    if BinOf(widths, n - 1) == BinOf(widths, j) {
      last := n - 1;
    } else {
      last := BinValueAt(widths, path, j, n - 1);
    }
  }

  /** The bin of dimension j starts with the bits up to dimension j; what follows is below them. */
  lemma BinAround(widths: seq<nat>, path: Key, j: nat)
    requires j < |widths| && Packable(widths) && Fits(widths, path)
    ensures BinOf(widths, j) < BinCount(widths, |widths|)
    ensures var bin := Packed(widths, path)[BinOf(widths, j)];
            Filled(widths, path, j) <= bin < Filled(widths, path, j) + Shl(1, Pos(widths, j))
  {
    hide Filled, Shl;
    BinOfUpTo(widths, j, |widths|);
    var last := BinValueAt(widths, path, j, |widths|);
    FilledBelow(widths, path, j, last);
    ShlPositive(Pos(widths, last));
  }

  /** Unpacking a packed path gives the path back, whenever its ids fit. */
  lemma RoundTrip(widths: seq<nat>, path: Key)
    requires Packable(widths) && Fits(widths, path)
    ensures Unpacked(widths, Packed(widths, path)) == path
  {
    hide Shl, Shr, Low, Top, Packed;
    forall k | 0 <= k < |path|
      ensures Unpacked(widths, Packed(widths, path))[k] == path[k]
    {
      BinAround(widths, path, k);
      ShrOf(Packed(widths, path)[BinOf(widths, k)], Top(widths, path, k), Pos(widths, k));
      TopIs(widths, path, k);
      LowOf(if Starts(widths, k) then 0 else Top(widths, path, k - 1), path[k], widths[k]);
      LowFits(path[k], ID_BITS);
    }
  }

  lemma TopIs(widths: seq<nat>, path: Key, k: nat)
    requires k < |widths| == |path| && Packable(widths)
    ensures Top(widths, path, k) == Shl(if Starts(widths, k) then 0 else Top(widths, path, k - 1), widths[k]) + path[k]
  {
  }

  // ------------------------------------------------------------------------------------------
  // Order
  // ------------------------------------------------------------------------------------------

  lemma {:induction false} SameStart(widths: seq<nat>, a: Key, b: Key, d: nat, k: nat)
    requires Packable(widths) && |a| == |b| == |widths| && k < d <= |widths| && a[..d] == b[..d]
    ensures Top(widths, a, k) == Top(widths, b, k)
  {
    assert a[k] == a[..d][k] == b[..d][k] == b[k];
    if !Starts(widths, k) {
      SameStart(widths, a, b, d, k - 1);
    }
  }

  /** Bins before the one of dimension d depend on the ids before d only. */
  lemma {:induction false} SameBins(widths: seq<nat>, a: Key, b: Key, d: nat, bin: nat, n: nat)
    requires Packable(widths) && |a| == |b| == |widths| && d < |widths| && n <= |widths| && a[..d] == b[..d]
    requires bin < BinOf(widths, d)
    ensures BinValue(widths, a, bin, n) == BinValue(widths, b, bin, n)
    decreases n
  {
    if n > 0 {
      SameBins(widths, a, b, d, bin, n - 1);
      if n - 1 < d {
        SameStart(widths, a, b, d, n - 1);
      } else {
        BinOfUpTo(widths, d, n);
      }
    }
  }

  lemma {:induction false} FirstDifference(a: Key, b: Key) returns (d: nat)
    requires |a| == |b| && a != b
    ensures d < |a| && a[..d] == b[..d] && a[d] != b[d]
  {
    d := 0;
    assert a[..|a|] == a && b[..|b|] == b;
    while d < |a| && a[d] == b[d]
      invariant d <= |a| && a[..d] == b[..d]
      decreases |a| - d
    {
      d := d + 1;
      assert a[..d] == a[..d - 1] + [a[d - 1]] && b[..d] == b[..d - 1] + [b[d - 1]];
    }
  }

  lemma PackedSmaller(widths: seq<nat>, a: Key, b: Key, d: nat)
    requires Packable(widths) && Fits(widths, a) && Fits(widths, b)
    requires d < |widths| && a[..d] == b[..d] && a[d] < b[d]
    ensures LexLess(Packed(widths, a), Packed(widths, b))
  {
    var bin := BinOf(widths, d);
    BinAround(widths, a, d);
    BinAround(widths, b, d);
    TopSmaller(widths, a, b, d);
    var p, q := Packed(widths, a), Packed(widths, b);
    FilledSmaller(widths, a, b, d);
    forall i | 0 <= i < bin
      ensures p[i] == q[i]
    {
      SameBins(widths, a, b, d, i, |widths|);
    }
    DecidedOrder(p, q, bin, 0);
  }

  lemma TopSmaller(widths: seq<nat>, a: Key, b: Key, d: nat)
    requires Packable(widths) && |a| == |b| == |widths| && d < |widths| && a[..d] == b[..d] && a[d] < b[d]
    ensures Top(widths, a, d) < Top(widths, b, d)
  {
    if !Starts(widths, d) {
      SameStart(widths, a, b, d, d - 1);
    }
  }

  lemma FilledSmaller(widths: seq<nat>, a: Key, b: Key, d: nat)
    requires Packable(widths) && |a| == |b| == |widths| && d < |widths| && Top(widths, a, d) < Top(widths, b, d)
    ensures Filled(widths, a, d) + Shl(1, Pos(widths, d)) <= Filled(widths, b, d)
  {
    ShlOrder(Top(widths, a, d), Top(widths, b, d), Pos(widths, d));
  }

  /** Packed paths compare as the paths do: the first differing bin decides as the first differing id. */
  lemma OrderKept(widths: seq<nat>, a: Key, b: Key)
    requires Packable(widths) && Fits(widths, a) && Fits(widths, b)
    ensures LexLess(Packed(widths, a), Packed(widths, b)) <==> LexLess(a, b)
    ensures Packed(widths, a) == Packed(widths, b) <==> a == b
  {
    hide Packed, Packable;
    if a != b {
      var d := FirstDifference(a, b);
      if a[d] < b[d] {
        PackedSmaller(widths, a, b, d);
        DecidedOrder(a, b, d, 0);
      } else {
        PackedSmaller(widths, b, a, d);
        DecidedOrder(b, a, d, 0);
      }
      LexTotal(a, b);
      LexTotal(Packed(widths, a), Packed(widths, b));
      LexTotal(Packed(widths, b), Packed(widths, a));
    }
  }

  // ------------------------------------------------------------------------------------------
  // Widths from greatest ids
  // ------------------------------------------------------------------------------------------

  /** The bits of a dimension with the given greatest id; the sum of 32-bit values wraps. */
  function WidthOf(maxId: nat): (w: nat)
    ensures w <= ID_BITS
  {
    LowBound(maxId + 2, ID_BITS);
    BitLengthFits(Low(maxId + 2, ID_BITS), ID_BITS);
    BitLength(Low(maxId + 2, ID_BITS))
  }

  function WidthsOf(maxIds: seq<nat>): (widths: seq<nat>)
    ensures |widths| == |maxIds| && Packable(widths)
  {
    seq(|maxIds|, d requires 0 <= d < |maxIds| => WidthOf(maxIds[d]))
  }

  ghost predicate Within(maxIds: seq<nat>, path: Key)
  {
    |path| == |maxIds| && forall d :: 0 <= d < |path| ==> path[d] <= maxIds[d] <= NO_IDENTIFIER
  }

  lemma TwoTo32()
    ensures Shl(1, ID_BITS) == NO_IDENTIFIER + 1
  {
    ShlShl(1, 16, 16);
    assert Shl(1, 16) == 65536 by {
      ShlShl(1, 8, 8);
      assert Shl(1, 8) == 256 by { ShlShl(1, 4, 4); assert Shl(1, 4) == 16; assert Shl(16, 4) == 256; }
      assert Shl(256, 8) == 65536 by { ShlShl(256, 4, 4); assert Shl(256, 4) == 4096; assert Shl(4096, 4) == 65536; }
    }
    assert Shl(65536, 16) == 0x1_0000_0000 by {
      ShlShl(65536, 8, 8);
      assert Shl(65536, 8) == 0x100_0000 by {
        ShlShl(65536, 4, 4); assert Shl(65536, 4) == 0x10_0000; assert Shl(0x10_0000, 4) == 0x100_0000;
      }
      assert Shl(0x100_0000, 8) == 0x1_0000_0000 by {
        ShlShl(0x100_0000, 4, 4); assert Shl(0x100_0000, 4) == 0x1000_0000; assert Shl(0x1000_0000, 4) == 0x1_0000_0000;
      }
    }
  }

  /** The sum does not wrap exactly for these; then every id up to the greatest stays below the all-ones value. */
  lemma WidthFits(maxId: nat)
    requires maxId <= NO_IDENTIFIER
    ensures maxId + 2 <= NO_IDENTIFIER ==> maxId + 2 < Shl(1, WidthOf(maxId))
    ensures maxId + 2 > NO_IDENTIFIER ==> Shl(1, WidthOf(maxId)) <= maxId
  {
    hide Shl, Low, BitLength;
    TwoTo32();
    var n := Low(maxId + 2, ID_BITS);
    if maxId + 2 <= NO_IDENTIFIER {
      LowFits(maxId + 2, ID_BITS);
      BitLengthFits(n, BitLength(n));
    } else {
      LowOf(1, maxId + 2 - Shl(1, ID_BITS), ID_BITS);
      BitLengthFits(n, 1);
      assert Shl(1, 0) == 1 && Shl(1, 1) == 2 by { ShlSmall(); }
      assert BitLength(n) <= 1;
    }
  }

  lemma ShlSmall()
    ensures Shl(1, 0) == 1 && Shl(1, 1) == 2
  {
  }

  lemma WithinFits(maxIds: seq<nat>, path: Key)
    requires Within(maxIds, path) && forall d :: 0 <= d < |maxIds| ==> maxIds[d] + 2 <= NO_IDENTIFIER
    ensures Fits(WidthsOf(maxIds), path)
  {
    hide Shl, WidthOf;
    TwoTo32();
    forall d | 0 <= d < |path|
      ensures path[d] < Shl(1, WidthsOf(maxIds)[d]) && path[d] < Shl(1, ID_BITS)
    {
      WidthFits(maxIds[d]);
    }
  }

  /** No bin of a path within the greatest ids is all ones, the value marking an unused entry. */
  lemma NeverInvalid(maxIds: seq<nat>, path: Key, k: nat)
    requires Within(maxIds, path) && k < |maxIds| && Starts(WidthsOf(maxIds), k)
    requires forall d :: 0 <= d < |maxIds| ==> maxIds[d] + 2 <= NO_IDENTIFIER
    ensures BinOf(WidthsOf(maxIds), k) < BinCount(WidthsOf(maxIds), |maxIds|)
    ensures Packed(WidthsOf(maxIds), path)[BinOf(WidthsOf(maxIds), k)] < Shl(1, MAX_BIN_CHARGE) - 1
  {
    hide Shl, WidthOf, Packed, Filled;
    var widths := WidthsOf(maxIds);
    WithinFits(maxIds, path);
    BinAround(widths, path, k);
    FilledStart(widths, path, k);
    WidthFits(maxIds[k]);
    var p := Pos(widths, k);
    ShlOrder(path[k] + 1, Shl(1, widths[k]), p);
    ShlAdd(path[k], 1, p);
    ShlShl(1, widths[k], p);
    ShlPositive(p);
    BinStarts(widths, k);
  }

  lemma BinStarts(widths: seq<nat>, k: nat)
    requires k < |widths| && Packable(widths) && Starts(widths, k)
    ensures Pos(widths, k) + widths[k] == MAX_BIN_CHARGE
  {
  }

  lemma UnpackedBound(widths: seq<nat>, bins: seq<nat>, k: nat)
    requires Packable(widths) && |bins| == BinCount(widths, |widths|) && k < |widths| && widths[k] <= ID_BITS
    ensures Unpacked(widths, bins)[k] < Shl(1, widths[k])
  {
    hide Shl, Shr, Low;
    BinOfUpTo(widths, k, |widths|);
    var v := Shr(bins[BinOf(widths, k)], Pos(widths, k));
    LowBound(v, widths[k]);
    ShlShl(1, widths[k], ID_BITS - widths[k]);
    ShlGrows(Shl(1, widths[k]), ID_BITS - widths[k]);
    LowFits(Low(v, widths[k]), ID_BITS);
  }

  lemma {:induction false} ShlGrows(x: nat, n: nat)
    ensures x <= Shl(x, n)
  {
    if n > 0 {
      ShlGrows(x, n - 1);
    }
  }

  ghost predicate CanBePacked(maxIds: seq<nat>, path: Key)
  {
    var widths := WidthsOf(maxIds);
    exists bins: seq<nat> :: |bins| == BinCount(widths, |widths|) && Unpacked(widths, bins) == path
  }

  /**
   * Every path within the greatest ids has a packed form that gives it back exactly when no greatest
   * id is one of the two greatest 32-bit values; for those the width wraps to 0 or 1 bit.
   */
  lemma PackableExactly(maxIds: seq<nat>)
    requires forall d :: 0 <= d < |maxIds| ==> maxIds[d] <= NO_IDENTIFIER
    ensures (forall path :: Within(maxIds, path) ==> CanBePacked(maxIds, path)) <==>
      (forall d :: 0 <= d < |maxIds| ==> maxIds[d] + 2 <= NO_IDENTIFIER)
  {
    hide Shl, WidthOf, Packed, Unpacked, Pos;
    var widths := WidthsOf(maxIds);
    if forall d :: 0 <= d < |maxIds| ==> maxIds[d] + 2 <= NO_IDENTIFIER {
      forall path | Within(maxIds, path)
        ensures CanBePacked(maxIds, path)
      {
        WithinFits(maxIds, path);
        RoundTrip(widths, path);
      }
    } else {
      var d :| 0 <= d < |maxIds| && maxIds[d] + 2 > NO_IDENTIFIER;
      WidthFits(maxIds[d]);
      assert Within(maxIds, maxIds);
      forall bins: seq<nat> | |bins| == BinCount(widths, |widths|)
        ensures Unpacked(widths, bins) != maxIds
      {
        UnpackedBound(widths, bins, d);
      }
      assert !CanBePacked(maxIds, maxIds);
    }
  }

  // ------------------------------------------------------------------------------------------
  // The translator
  // ------------------------------------------------------------------------------------------

  datatype Bin = Bin(widths: seq<nat>, dims: seq<nat>, usedBits: nat)
  {
    function AddDimension(width: nat, dim: nat): Bin
    {
      Bin(widths + [width], dims + [dim], usedBits + width)
    }
  }

  const EMPTY_BIN := Bin([], [], 0)

  /** The number of dimensions in the bins before b. */
  ghost function Offset(counts: seq<nat>, b: nat): nat
    requires b <= |counts|
  {
    if b == 0 then 0 else Offset(counts, b - 1) + counts[b - 1]
  }

  /** The bins hold the dimensions from first on, in order, each in its bin. */
  ghost predicate Arranged(widths: seq<nat>, bins: seq<Bin>, n: nat)
    requires n <= |widths| && Packable(widths)
  {
    && |bins| == BinCount(widths, n)
    && (forall b :: 0 <= b < |bins| ==> |bins[b].dims| == |bins[b].widths|)
    && Offset(Counts(bins), |bins|) == n
    && (forall b, i :: 0 <= b < |bins| && 0 <= i < |bins[b].dims| ==> InPlace(widths, bins, n, b, i))
  }

  ghost predicate InPlace(widths: seq<nat>, bins: seq<Bin>, n: nat, b: nat, i: nat)
    requires n <= |widths| && Packable(widths) && b < |bins| && i < |bins[b].dims| == |bins[b].widths|
  {
    var k := Offset(Counts(bins), b) + i;
    && k < n && bins[b].dims[i] == k && bins[b].widths[i] == widths[k]
    && BinOf(widths, k) == b
  }

  ghost function Counts(bins: seq<Bin>): (counts: seq<nat>)
    ensures |counts| == |bins|
  {
    seq(|bins|, b requires 0 <= b < |bins| => |bins[b].dims|)
  }

  lemma {:induction false} OffsetPrefix(a: seq<nat>, c: seq<nat>, b: nat)
    requires b <= |a| && b <= |c| && a[..b] == c[..b]
    ensures Offset(a, b) == Offset(c, b)
  {
    if b > 0 {
      assert a[..b - 1] == a[..b][..b - 1] == c[..b][..b - 1] == c[..b - 1];
      assert a[b - 1] == a[..b][b - 1] == c[..b][b - 1] == c[b - 1];
      OffsetPrefix(a, c, b - 1);
    }
  }

  /** The dimension joins the last bin. */
  lemma ArrangedAdd(widths: seq<nat>, bins: seq<Bin>, k: nat)
    requires k < |widths| && Packable(widths) && Arranged(widths, bins, k) && (k == 0 || !Starts(widths, k))
    ensures Arranged(widths, bins[|bins| - 1 := bins[|bins| - 1].AddDimension(widths[k], k)], k + 1)
  {
    hide Pos, Starts;
    var last := |bins| - 1;
    var bins' := bins[last := bins[last].AddDimension(widths[k], k)];
    var counts, counts' := Counts(bins), Counts(bins');
    forall b | 0 <= b <= last
      ensures Offset(counts', b) == Offset(counts, b)
    {
      assert counts[..b] == counts'[..b];
      OffsetPrefix(counts, counts', b);
    }
    var n := k + 1;
    forall b, i | 0 <= b < |bins'| && 0 <= i < |bins'[b].dims|
      ensures InPlace(widths, bins', n, b, i)
    {
      if b < last || i < |bins[b].dims| {
        assert InPlace(widths, bins, k, b, i);
      }
    }
    assert Offset(counts', last + 1) == Offset(counts', last) + counts'[last];
    assert Offset(counts, last + 1) == Offset(counts, last) + counts[last];
  }

  /** The dimension starts a new bin. */
  lemma ArrangedNew(widths: seq<nat>, bins: seq<Bin>, k: nat)
    requires 0 < k < |widths| && Packable(widths) && Arranged(widths, bins, k) && Starts(widths, k)
    ensures Arranged(widths, bins + [EMPTY_BIN.AddDimension(widths[k], k)], k + 1)
  {
    hide Pos, Starts;
    var bins' := bins + [EMPTY_BIN.AddDimension(widths[k], k)];
    var counts, counts' := Counts(bins), Counts(bins');
    forall b | 0 <= b <= |bins|
      ensures Offset(counts', b) == Offset(counts, b)
    {
      assert counts[..b] == counts'[..b];
      OffsetPrefix(counts, counts', b);
    }
    var n := k + 1;
    forall b, i | 0 <= b < |bins'| && 0 <= i < |bins'[b].dims|
      ensures InPlace(widths, bins', n, b, i)
    {
      if b < |bins| {
        assert InPlace(widths, bins, k, b, i);
      }
    }
  }

  /** The bits of every dimension; greatest ids are counted with the two values kept free above them. */
  method BitSizes(dimSizes: seq<nat>, dimensionSizesInBit: bool) returns (bits: seq<nat>)
    ensures bits == if dimensionSizesInBit then dimSizes else WidthsOf(dimSizes)
  {
    bits := dimSizes;
    for d := 0 to |dimSizes|
      invariant |bits| == |dimSizes| && bits[d..] == dimSizes[d..]
      invariant forall i :: 0 <= i < d ==> bits[i] == if dimensionSizesInBit then dimSizes[i] else WidthOf(dimSizes[i])
    {
      assert bits[d] == bits[d..][0] == dimSizes[d..][0] == dimSizes[d];
      assert bits[d + 1..] == bits[d..][1..] == dimSizes[d..][1..] == dimSizes[d + 1..];
      if !dimensionSizesInBit {
        var rest := Low(bits[d] + 2, ID_BITS);
        var n := 0;
        while rest != 0
          invariant n + BitLength(rest) == WidthOf(dimSizes[d])
          decreases rest
        {
          n := n + 1;
          rest := rest / 2;
        }
        bits := bits[d := n];
      }
    }
  }

  /** All dimensions in order, each into the last bin as long as that has room for it. */
  method PackBins(widths: seq<nat>) returns (bins: seq<Bin>)
    requires Packable(widths)
    ensures Arranged(widths, bins, |widths|)
  {
    bins := [EMPTY_BIN];
    assert Offset(Counts(bins), 1) == Offset(Counts(bins), 0) + Counts(bins)[0] == 0;
    for k := 0 to |widths|
      invariant Arranged(widths, bins, k)
      invariant bins[|bins| - 1].usedBits == if k == 0 then 0 else MAX_BIN_CHARGE - Pos(widths, k - 1)
    {
      hide Arranged;
      var last := |bins| - 1;
      if bins[last].usedBits + widths[k] <= MAX_BIN_CHARGE {
        ArrangedAdd(widths, bins, k);
        bins := bins[last := bins[last].AddDimension(widths[k], k)];
      } else {
        ArrangedNew(widths, bins, k);
        bins := bins + [EMPTY_BIN.AddDimension(widths[k], k)];
      }
    }
  }

  /** Dimension k is next to be encoded into its bin. */
  lemma EncodeStep(widths: seq<nat>, path: Key, k: nat)
    requires k < |widths| && Packable(widths) && Fits(widths, path)
    ensures Low(Shl(path[k], Pos(widths, k)), MAX_BIN_CHARGE) == Shl(path[k], Pos(widths, k))
    ensures var b := BinOf(widths, k);
            Or(BinValue(widths, path, b, k), Shl(path[k], Pos(widths, k))) == BinValue(widths, path, b, k + 1)
  {
    hide Shl, Or, Low, Pos;
    var w, p := widths[k], Pos(widths, k);
    ShlOrder(path[k], Shl(1, w), p);
    ShlShl(1, w, p);
    ShlShl(1, w + p, MAX_BIN_CHARGE - w - p);
    ShlGrows(Shl(1, w + p), MAX_BIN_CHARGE - w - p);
    ShlPositive(p);
    LowFits(Shl(path[k], p), MAX_BIN_CHARGE);
    if Starts(widths, k) {
      FilledStart(widths, path, k);
      BinEmpty(widths, path, BinOf(widths, k), k);
      ShlZero(MAX_BIN_CHARGE);
      OrBelow(0, Shl(path[k], p), MAX_BIN_CHARGE);
    } else {
      FilledStep(widths, path, k);
      OrBelow(Top(widths, path, k - 1), Shl(path[k], p), Pos(widths, k - 1));
    }
  }

  lemma {:induction false} BinEmpty(widths: seq<nat>, path: Key, b: nat, n: nat)
    requires n <= |widths| == |path| && Packable(widths) && (n == 0 || BinOf(widths, n - 1) < b)
    ensures BinValue(widths, path, b, n) == 0
    decreases n
  {
    if n > 1 {
      BinOfUpTo(widths, n - 2, n);
    }
    if n > 0 {
      BinEmpty(widths, path, b, n - 1);
    }
  }

  /** Mask and shift read the bits of one dimension. */
  lemma DecodeStep(bin: nat, width: nat, pos: nat)
    ensures Shr(And(bin, Shl(Ones(width), pos)), pos) == Low(Shr(bin, pos), width)
  {
    AndShifted(bin, Ones(width), pos);
    AndOnes(Shr(bin, pos), width);
  }

  /** Positions, dimensions and masks of the first n dimensions. */
  ghost predicate Described(widths: seq<nat>, positions: seq<nat>, dims: seq<nat>, masks: seq<nat>, n: nat)
    requires n <= |widths| && Packable(widths)
  {
    && |positions| == |dims| == |masks| == n
    && forall k :: 0 <= k < n ==> EntryOf(widths, positions[k], dims[k], masks[k], k)
  }

  ghost predicate EntryOf(widths: seq<nat>, pos: nat, dim: nat, mask: nat, k: nat)
    requires k < |widths| && Packable(widths)
  {
    dim == k && pos == Pos(widths, k) && mask == Shl(Ones(widths[k]), pos)
  }

  /** One entry per dimension, bin by bin, from the top of each bin. */
  method DescribeBins(ghost widths: seq<nat>, bins: seq<Bin>)
    returns (positions: seq<nat>, dims: seq<nat>, masks: seq<nat>)
    requires Packable(widths) && Arranged(widths, bins, |widths|)
    ensures Described(widths, positions, dims, masks, |widths|)
  {
    hide Shl, Ones, BinOf, Starts, BinCount;
    positions, dims, masks := [], [], [];
    for b := 0 to |bins|
      invariant |dims| == Offset(Counts(bins), b) <= |widths| && Described(widths, positions, dims, masks, |dims|)
      invariant dims == [] || BinOf(widths, |dims| - 1) < b
    {
      var pos := MAX_BIN_CHARGE;
      for i := 0 to |bins[b].dims|
        invariant |dims| == Offset(Counts(bins), b) + i <= |widths| && Described(widths, positions, dims, masks, |dims|)
        invariant dims == [] || (if i == 0 then BinOf(widths, |dims| - 1) < b else BinOf(widths, |dims| - 1) == b)
        invariant pos == if i == 0 then MAX_BIN_CHARGE else Pos(widths, |dims| - 1)
      {
        assert InPlace(widths, bins, |widths|, b, i);
        var width := bins[b].widths[i];
        PosAt(widths, |dims|);
        pos := pos - width;
        OnesBelow(width);
        positions := positions + [pos];
        masks := masks + [Shl(Shl(1, width) - 1, pos)];
        dims := dims + [bins[b].dims[i]];
      }
    }
  }

  /** Where a dimension goes, by the bin of the one before. */
  lemma PosAt(widths: seq<nat>, k: nat)
    requires k < |widths| && Packable(widths)
    ensures k == 0 || BinOf(widths, k - 1) < BinOf(widths, k) ==> Pos(widths, k) == MAX_BIN_CHARGE - widths[k]
    ensures k > 0 && BinOf(widths, k - 1) == BinOf(widths, k) ==> Pos(widths, k) == Pos(widths, k - 1) - widths[k]
  {
  }

  lemma UnpackedAt(widths: seq<nat>, bins: seq<nat>, k: nat)
    requires Packable(widths) && |bins| == BinCount(widths, |widths|) && k < |widths|
    ensures BinOf(widths, k) < |bins|
    ensures Unpacked(widths, bins)[k] == Low(Low(Shr(bins[BinOf(widths, k)], Pos(widths, k)), widths[k]), ID_BITS)
  {
    BinOfUpTo(widths, k, |widths|);
  }

  /** Encoding the dimensions of a bin leaves the bins before it alone. */
  lemma {:induction false} OtherBins(widths: seq<nat>, path: Key, first: nat, n: nat)
    requires first < n <= |widths| == |path| && Packable(widths)
    requires first == 0 || BinOf(widths, first - 1) < BinOf(widths, n - 1)
    requires forall k :: first <= k < n ==> BinOf(widths, k) == BinOf(widths, n - 1)
    ensures forall b: nat :: b < BinOf(widths, n - 1) ==> BinValue(widths, path, b, n) == BinValue(widths, path, b, first)
  {
    if first + 1 < n {
      OtherBins(widths, path, first, n - 1);
    }
  }

  lemma PackedIs(widths: seq<nat>, path: Key, bins: seq<nat>)
    requires |widths| == |path| && Packable(widths) && |bins| == BinCount(widths, |widths|)
    requires forall b :: 0 <= b < |bins| ==> bins[b] == BinValue(widths, path, b, |widths|)
    ensures bins == Packed(widths, path)
  {
  }

  class PathTranslator {
    ghost const widths: seq<nat>
    var binDimensionsCount: seq<nat>
    var dimensionsPos: seq<nat>
    var dimensionsMap: seq<nat>
    var dimensionsBitmask: seq<nat>

    ghost predicate Valid()
      reads this
    {
      && Packable(widths)
      && |binDimensionsCount| == BinCount(widths, |widths|)
      && Offset(binDimensionsCount, |binDimensionsCount|) == |widths|
      && (forall b, i :: 0 <= b < |binDimensionsCount| && 0 <= i < binDimensionsCount[b] ==> Placed(b, i))
      && Described(widths, dimensionsPos, dimensionsMap, dimensionsBitmask, |widths|)
    }

    /** The i-th dimension of bin b. */
    ghost predicate Placed(b: nat, i: nat)
      requires Packable(widths) && b < |binDimensionsCount|
      reads this
    {
      var k := Offset(binDimensionsCount, b) + i;
      k < |widths| && BinOf(widths, k) == b
    }

    constructor (dimSizes: seq<nat>, dimensionSizesInBit: bool)
      requires forall d :: 0 <= d < |dimSizes| ==> dimSizes[d] <= NO_IDENTIFIER
      requires dimensionSizesInBit ==> Packable(dimSizes)
      ensures Valid()
      ensures widths == if dimensionSizesInBit then dimSizes else WidthsOf(dimSizes)
    {
      widths := if dimensionSizesInBit then dimSizes else WidthsOf(dimSizes);
      binDimensionsCount, dimensionsPos, dimensionsMap, dimensionsBitmask := [], [], [], [];
      new;
      hide Shl, Low, Pos, BinOf, WidthOf, EntryOf, BitLength;
      var bitDimSizes := BitSizes(dimSizes, dimensionSizesInBit);
      var bins := PackBins(bitDimSizes);
      dimensionsPos, dimensionsMap, dimensionsBitmask := DescribeBins(widths, bins);
      binDimensionsCount := seq(|bins|, b requires 0 <= b < |bins| => |bins[b].dims|);
      assert binDimensionsCount == Counts(bins);
      forall b, i | 0 <= b < |binDimensionsCount| && 0 <= i < binDimensionsCount[b]
        ensures Placed(b, i)
      {
        assert InPlace(widths, bins, |widths|, b, i);
      }
    }

    method DimIdToBinDim(dimId: nat, dimIdx: nat) returns (binDim: nat)
      requires Valid() && dimIdx < |widths|
      ensures binDim == Low(Shl(dimId, Pos(widths, dimIdx)), MAX_BIN_CHARGE)
    {
      binDim := Low(Shl(dimId, dimensionsPos[dimIdx]), MAX_BIN_CHARGE);
    }

    method BinDimToDimId(binDim: nat, dimIdx: nat) returns (dimId: nat)
      requires Valid() && dimIdx < |widths|
      ensures dimId == Low(Low(Shr(binDim, Pos(widths, dimIdx)), widths[dimIdx]), ID_BITS)
    {
      DecodeStep(binDim, widths[dimIdx], Pos(widths, dimIdx));
      dimId := Low(Shr(And(binDim, dimensionsBitmask[dimIdx]), dimensionsPos[dimIdx]), ID_BITS);
    }

    /** The i-th dimension of a bin is described where it is looked up. */
    lemma NextEntry(binIdx: nat, i: nat)
      requires Valid() && binIdx < |binDimensionsCount| && i < binDimensionsCount[binIdx]
      ensures var k := Offset(binDimensionsCount, binIdx) + i;
              k < |widths| == |dimensionsMap| && dimensionsMap[k] == k && BinOf(widths, k) == binIdx
    {
      assert Placed(binIdx, i);
    }

    /** One bin of a path: its ids or'ed together. */
    method EncodeBin(path: Key, binIdx: nat, first: nat) returns (bin: nat)
      requires Valid() && Fits(widths, path) && binIdx < |binDimensionsCount| && first == Offset(binDimensionsCount, binIdx)
      requires first <= |widths| && (first == 0 || BinOf(widths, first - 1) < binIdx)
      ensures first + binDimensionsCount[binIdx] <= |widths|
      ensures bin == BinValue(widths, path, binIdx, first + binDimensionsCount[binIdx])
    {
      hide Shl, Shr, Low, Or, And, Pos, BinOf, BinCount, BinValue, Offset, Described, EntryOf;
      bin := 0;
      var dimIdx := first;
      BinEmpty(widths, path, binIdx, dimIdx);
      for i := 0 to binDimensionsCount[binIdx]
        invariant dimIdx == first + i <= |widths|
        invariant bin == BinValue(widths, path, binIdx, dimIdx)
      {
        NextEntry(binIdx, i);
        EncodeStep(widths, path, dimIdx);
        var binDim := DimIdToBinDim(path[dimensionsMap[dimIdx]], dimIdx);
        bin := Or(bin, binDim);
        dimIdx := dimIdx + 1;
      }
    }

    lemma BinKept(path: Key, binIdx: nat, first: nat)
      requires Valid() && |path| == |widths| && binIdx < |binDimensionsCount| && first == Offset(binDimensionsCount, binIdx)
      requires first <= |widths| && (first == 0 || BinOf(widths, first - 1) < binIdx)
      ensures var n := first + binDimensionsCount[binIdx];
              && n <= |widths| && (n == 0 || BinOf(widths, n - 1) <= binIdx)
              && forall b: nat :: b < binIdx ==> BinValue(widths, path, b, n) == BinValue(widths, path, b, first)
    {
      var count := binDimensionsCount[binIdx];
      if count > 0 {
        assert Placed(binIdx, count - 1);
        forall k | first <= k < first + count
          ensures k < |widths| && BinOf(widths, k) == binIdx
        {
          assert Placed(binIdx, k - first);
        }
        OtherBins(widths, path, first, first + count);
      }
    }

    /** pathToBinPath: the ids of every bin or'ed together. */
    method PathToBinPath(path: Key) returns (binPath: seq<nat>)
      requires Valid() && Fits(widths, path)
      ensures binPath == Packed(widths, path)
    {
      assert |path| == |widths|;
      hide BinValue, Packed, BinOf, BinCount, Fits;
      var dimIdx := 0;
      binPath := [];
      for binIdx := 0 to |binDimensionsCount|
        invariant |binPath| == binIdx && dimIdx == Offset(binDimensionsCount, binIdx) <= |widths|
        invariant dimIdx == 0 || BinOf(widths, dimIdx - 1) < binIdx
        invariant forall b :: 0 <= b < binIdx ==> binPath[b] == BinValue(widths, path, b, dimIdx)
      {
        var bin := EncodeBin(path, binIdx, dimIdx);
        BinKept(path, binIdx, dimIdx);
        dimIdx := dimIdx + binDimensionsCount[binIdx];
        binPath := binPath + [bin];
      }
      PackedIs(widths, path, binPath);
    }

    /** binPathToPath: every id read from its bits in its bin. */
    method BinPathToPath(binPath: seq<nat>) returns (path: Key)
      requires Valid() && |binPath| == |binDimensionsCount|
      ensures path == Unpacked(widths, binPath)
    {
      hide Shl, Shr, Low, Pos, BinOf, BinCount, Unpacked;
      var dimIdx := 0;
      path := seq(|dimensionsMap|, _ => 0);
      for binIdx := 0 to |binDimensionsCount|
        invariant |path| == |widths| && dimIdx == Offset(binDimensionsCount, binIdx) <= |widths|
        invariant forall k :: 0 <= k < dimIdx ==> path[k] == Unpacked(widths, binPath)[k]
      {
        for i := 0 to binDimensionsCount[binIdx]
          invariant |path| == |widths| && dimIdx == Offset(binDimensionsCount, binIdx) + i <= |widths|
          invariant forall k :: 0 <= k < dimIdx ==> path[k] == Unpacked(widths, binPath)[k]
        {
          assert Placed(binIdx, i);
          UnpackedAt(widths, binPath, dimIdx);
          var dimId := BinDimToDimId(binPath[binIdx], dimIdx);
          path := path[dimensionsMap[dimIdx] := dimId];
          dimIdx := dimIdx + 1;
        }
      }
    }
  }
}
