/**
 * Cell streams: sorted sequences of cells with a cursor, and the next/move contract every stream
 * operator rests on.
 */
module Streams {
  import opened Ids
  import opened Wrappers

  /** A cell value: numeric (the null value is numeric, empty, and counts as 0), a text, or an error of a rule. */
  datatype CellValue = Null | Numeric(value: real) | Text(text: string) | Error(code: int)
  {
    predicate IsNumeric()
    {
      Null? || Numeric?
    }

    function GetNumeric(): real
      requires IsNumeric()
    {
      if Null? then 0.0 else value
    }
  }

  datatype Cell = Cell(key: Key, value: CellValue)

  const EMPTY_KEY: Key := []

  predicate ValidKey(key: Key, dims: nat)
  {
    |key| == dims && forall i :: 0 <= i < dims ==> key[i] <= NO_IDENTIFIER
  }

  /** The place of a key in the lexicographic order of all keys of its length. */
  function Rank(key: Key): nat
  {
    if key == [] then 0 else Rank(key[..|key| - 1]) * (NO_IDENTIFIER + 1) + key[|key| - 1]
  }

  lemma {:induction false} LexPrefix(a: Key, b: Key, d: nat)
    requires |a| == |b| > 0 && d <= |a| - 1
    ensures LexLeFrom(a, b, d) <==>
      if a[d..|a| - 1] == b[d..|a| - 1] then a[|a| - 1] <= b[|a| - 1] else LexLeFrom(a[..|a| - 1], b[..|a| - 1], d)
    decreases |a| - d
  {
    var n := |a| - 1;
    var a', b' := a[..n], b[..n];
    if d < n {
      LexPrefix(a, b, d + 1);
      assert a[d..n] == [a[d]] + a[d + 1..n] && b[d..n] == [b[d]] + b[d + 1..n];
      assert a'[d] == a[d] && b'[d] == b[d];
      assert a[d..n] == b[d..n] <==> a[d] == b[d] && a[d + 1..n] == b[d + 1..n] by {
        if a[d..n] == b[d..n] {
          assert a[d..n][0] == b[d..n][0];
          assert a[d..n][1..] == b[d..n][1..];
        }
      }
    } else {
      assert a[d..n] == [] == b[d..n];
    }
  }

  /** Comparing keys is comparing ranks. */
  lemma {:induction false} RankOrder(a: Key, b: Key, dims: nat)
    requires ValidKey(a, dims) && ValidKey(b, dims)
    ensures LexLe(a, b) <==> Rank(a) <= Rank(b)
    ensures a == b <==> Rank(a) == Rank(b)
    decreases dims
  {
    if dims == 0 {
      assert a == b == [];
    } else {
      var n := dims - 1;
      RankOrder(a[..n], b[..n], n);
      LexPrefix(a, b, 0);
      LexTotal(a[..n], b[..n]);
      assert a == a[..n] + [a[n]] && b == b[..n] + [b[n]];
      assert a[0..n] == a[..n] && b[0..n] == b[..n];
    }
  }

  /** The comparison of two stream keys. */
  method CompareStreamKeys(a: Key, b: Key, ghost dims: nat) returns (diff: int)
    requires ValidKey(a, dims) && ValidKey(b, dims)
    ensures diff < 0 <==> Rank(a) < Rank(b)
    ensures diff == 0 <==> Rank(a) == Rank(b)
    ensures diff == 0 <==> a == b
  {
    var r := CompareKeys(a, b);
    diff := r.value;
    RankOrder(a, b, dims);
    LexTotal(a, b);
  }

  /** Valid keys in strictly ascending order. */
  ghost predicate SortedCells(cells: seq<Cell>, dims: nat)
  {
    && (forall i :: 0 <= i < |cells| ==> ValidKey(cells[i].key, dims))
    && (forall i, j :: 0 <= i < j < |cells| ==> Rank(cells[i].key) < Rank(cells[j].key))
  }

  /** A stream over given cells: before the first one, at one, or behind the last one. */
  class Stream {
    const dims: nat
    const cells: seq<Cell>
    var pos: int

    ghost predicate Valid()
      reads this
    {
      dims > 0 && SortedCells(cells, dims) && -1 <= pos <= |cells|
    }

    constructor (dims: nat, cells: seq<Cell>)
      requires dims > 0 && SortedCells(cells, dims)
      ensures Valid() && this.dims == dims && this.cells == cells && pos == -1
    {
      this.dims, this.cells, this.pos := dims, cells, -1;
    }

    /** Some key that is smaller than all others before the first call of next. */
    function GetKey(): Key
      requires -1 <= pos < |cells|
      reads this
    {
      if pos == -1 then EMPTY_KEY else cells[pos].key
    }

    function GetValue(): CellValue
      requires 0 <= pos < |cells|
      reads this
    {
      cells[pos].value
    }

    method Next() returns (result: bool)
      requires Valid()
      modifies this`pos
      ensures Valid() && pos == (if old(pos) < |cells| then old(pos) + 1 else old(pos))
      ensures result <==> pos < |cells|
    {
      if pos < |cells| {
        pos := pos + 1;
      }
      result := pos < |cells|;
    }

    method Reset()
      requires Valid()
      modifies this`pos
      ensures Valid() && pos == -1
    {
      pos := -1;
    }

    /**
     * move: forward to the first cell at or behind the key; a stream that is already there stays.
     */
    method Move(key: Key) returns (result: bool, found: bool)
      requires Valid() && pos < |cells| && ValidKey(key, dims)
      modifies this`pos
      ensures Valid() && old(pos) <= pos
      ensures forall j :: 0 <= j && old(pos) <= j < pos ==> Rank(cells[j].key) < Rank(key)
      ensures result <==> pos < |cells|
      ensures result ==> pos >= 0 && Rank(key) <= Rank(cells[pos].key)
      ensures found <==> result && cells[pos].key == key
    {
      hide Rank;
      result, found := true, false;
      while true
        invariant Valid() && old(pos) <= pos < |cells| && result && !found
        invariant forall j :: 0 <= j && old(pos) <= j < pos ==> Rank(cells[j].key) < Rank(key)
        decreases |cells| - pos
      {
        var r := CompareIds(key, GetKey());
        var compare := r.value;
        if pos >= 0 {
          DecidedSign(key, GetKey(), compare);
          RankOrder(key, GetKey(), dims);
          LexTotal(key, GetKey());
        }
        if compare == 0 {
          found := true;
          break;
        } else if compare < 0 {
          break;
        }
        result := Next();
        if !result {
          break;
        }
      }
    }
  }
}
