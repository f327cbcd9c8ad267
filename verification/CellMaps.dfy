/** CellArrayMap: the ordered map from cells to numbers that can be limited to its least keys. */
module CellMaps {
  import opened Ids
  import opened Wrappers
  import opened Streams

  datatype Entry = Entry(key: Key, value: real)

  /** What is offered to a map: a value to set or to add at a key. */
  datatype Op = Set(key: Key, value: real) | Add(key: Key, value: real)

  ghost predicate SortedEntries(es: seq<Entry>, dims: nat)
  {
    && (forall i :: 0 <= i < |es| ==> ValidKey(es[i].key, dims))
    && (forall i, j :: 0 <= i < j < |es| ==> Rank(es[i].key) < Rank(es[j].key))
  }

  /** The value at a key after an operation that finds the given one there. */
  function Applied(op: Op, before: Option<real>): real
  {
    if op.Add? && before.Some? then before.value + op.value else op.value
  }

  /** The unlimited map after one operation. */
  function Put(es: seq<Entry>, op: Op): seq<Entry>
  {
    if es == [] then [Entry(op.key, Applied(op, None))]
    else if Rank(op.key) < Rank(es[0].key) then [Entry(op.key, Applied(op, None))] + es
    else if Rank(op.key) == Rank(es[0].key) then [Entry(es[0].key, Applied(op, Some(es[0].value)))] + es[1..]
    else [es[0]] + Put(es[1..], op)
  }

  /** The unlimited map after a run of operations. */
  function Run(es: seq<Entry>, ops: seq<Op>): seq<Entry>
  {
    if ops == [] then es else Put(Run(es, ops[..|ops| - 1]), ops[|ops| - 1])
  }

  /** The least entries a map limited to maxCount may keep; no limit is 0. */
  function Cap(es: seq<Entry>, maxCount: nat): seq<Entry>
  {
    if maxCount == 0 || |es| <= maxCount then es else es[..maxCount]
  }

  /** Limiting before an operation makes no difference if the result is limited as well. */
  lemma {:induction false} CapPut(es: seq<Entry>, op: Op, maxCount: nat)
    ensures Cap(Put(Cap(es, maxCount), op), maxCount) == Cap(Put(es, op), maxCount)
  {
    hide Rank, Put;
    if maxCount > 0 {
      TakePut(es, op, maxCount);
    }
  }

  function Take(es: seq<Entry>, n: nat): (r: seq<Entry>)
    ensures |r| == if |es| <= n then |es| else n
  {
    if |es| <= n then es else es[..n]
  }

  lemma TakeCons(x: Entry, es: seq<Entry>, n: nat)
    requires n > 0
    ensures Take([x] + es, n) == [x] + Take(es, n - 1)
  {
  }

  lemma TakeTake(es: seq<Entry>, n: nat, m: nat)
    requires m <= n
    ensures Take(Take(es, n), m) == Take(es, m)
  {
  }

  /** An operation on a map with a first entry x. */
  lemma PutCons(x: Entry, rest: seq<Entry>, op: Op)
    ensures Rank(op.key) < Rank(x.key) ==> Put([x] + rest, op) == [Entry(op.key, Applied(op, None))] + ([x] + rest)
    ensures Rank(op.key) == Rank(x.key) ==> Put([x] + rest, op) == [Entry(x.key, Applied(op, Some(x.value)))] + rest
    ensures Rank(op.key) > Rank(x.key) ==> Put([x] + rest, op) == [x] + Put(rest, op)
  {
    hide Rank;
    assert ([x] + rest)[0] == x && ([x] + rest)[1..] == rest;
  }

  lemma {:induction false} TakePut(es: seq<Entry>, op: Op, n: nat)
    requires n > 0
    ensures Take(Put(Take(es, n), op), n) == Take(Put(es, op), n)
    decreases n
  {
    if es != [] {
      hide Rank, Put, Take;
      var x, rest := es[0], es[1..];
      var t := Take(rest, n - 1);
      assert es == [x] + rest;
      TakeCons(x, rest, n);
      PutCons(x, t, op);
      PutCons(x, rest, op);
      TakeTake(rest, n - 1, n - 1);
      if Rank(op.key) < Rank(x.key) {
        var e := Entry(op.key, Applied(op, None));
        TakeCons(e, [x] + t, n);
        TakeCons(e, [x] + rest, n);
        if n > 1 {
          TakeCons(x, t, n - 1);
          TakeCons(x, rest, n - 1);
          TakeTake(rest, n - 1, n - 2);
        } else {
          TakeNone([x] + t, [x] + rest);
        }
      } else if Rank(op.key) == Rank(x.key) {
        var e := Entry(x.key, Applied(op, Some(x.value)));
        TakeCons(e, t, n);
        TakeCons(e, rest, n);
      } else {
        TakeCons(x, Put(t, op), n);
        TakeCons(x, Put(rest, op), n);
        if n > 1 {
          TakePut(rest, op, n - 1);
        } else {
          TakeNone(Put(t, op), Put(rest, op));
        }
      }
    } else {
      assert Take(es, n) == es;
    }
  }

  lemma TakeNone(a: seq<Entry>, b: seq<Entry>)
    ensures Take(a, 0) == Take(b, 0)
  {
  }

  // ------------------------------------------------------------------------------------------
  // What a run leaves behind
  // ------------------------------------------------------------------------------------------

  /** The value at a rank. */
  function Lookup(es: seq<Entry>, rank: int): Option<real>
  {
    if es == [] then None
    else if Rank(es[0].key) == rank then Some(es[0].value)
    else Lookup(es[1..], rank)
  }

  lemma {:induction false} LookupBelow(es: seq<Entry>, rank: int)
    requires forall i :: 0 <= i < |es| ==> rank < Rank(es[i].key)
    ensures Lookup(es, rank) == None
  {
    hide Rank;
    if es != [] {
      LookupBelow(es[1..], rank);
    }
  }

  /** The keys of a map after an operation are those before and the one operated on. */
  lemma {:induction false} PutKeys(es: seq<Entry>, op: Op, i: nat)
    requires i < |Put(es, op)|
    ensures Put(es, op)[i].key == op.key || exists j :: 0 <= j < |es| && es[j].key == Put(es, op)[i].key
  {
    hide Rank;
    if es != [] && Rank(op.key) > Rank(es[0].key) && i > 0 {
      PutKeys(es[1..], op, i - 1);
      if Put(es[1..], op)[i - 1].key != op.key {
        var j :| 0 <= j < |es[1..]| && es[1..][j].key == Put(es[1..], op)[i - 1].key;
        assert es[j + 1].key == Put(es, op)[i].key;
      }
    }
  }

  lemma {:induction false} PutSorted(es: seq<Entry>, op: Op, dims: nat)
    requires SortedEntries(es, dims) && ValidKey(op.key, dims)
    ensures SortedEntries(Put(es, op), dims)
  {
    hide Rank, ValidKey;
    if es != [] && Rank(op.key) > Rank(es[0].key) {
      PutSorted(es[1..], op, dims);
      var rest := Put(es[1..], op);
      forall i | 0 <= i < |rest|
        ensures Rank(es[0].key) < Rank(rest[i].key)
      {
        PutKeys(es[1..], op, i);
        if rest[i].key != op.key {
          var j :| 0 <= j < |es[1..]| && es[1..][j].key == rest[i].key;
          assert es[j + 1].key == rest[i].key;
        }
      }
    }
  }

  lemma {:induction false} PutLookup(es: seq<Entry>, op: Op, dims: nat, rank: int)
    requires SortedEntries(es, dims) && ValidKey(op.key, dims)
    ensures Lookup(Put(es, op), rank) ==
      if Rank(op.key) == rank then Some(Applied(op, Lookup(es, rank))) else Lookup(es, rank)
  {
    hide Rank, ValidKey;
    if es == [] {
      assert [Entry(op.key, Applied(op, None))][1..] == [];
    } else if Rank(op.key) < Rank(es[0].key) {
      LookupBelow(es, Rank(op.key));
      assert ([Entry(op.key, Applied(op, None))] + es)[1..] == es;
    } else if Rank(op.key) == Rank(es[0].key) {
      var e := Entry(es[0].key, Applied(op, Some(es[0].value)));
      assert ([e] + es[1..])[1..] == es[1..];
    } else {
      PutLookup(es[1..], op, dims, rank);
      var rest := Put(es[1..], op);
      assert ([es[0]] + rest)[1..] == rest;
    }
  }

  /** What the operations on one key amount to. */
  function ValueAfter(ops: seq<Op>, rank: int): Option<real>
  {
    if ops == [] then None
    else
      var op, before := ops[|ops| - 1], ValueAfter(ops[..|ops| - 1], rank);
      if Rank(op.key) == rank then Some(Applied(op, before)) else before
  }

  ghost predicate ValidOps(ops: seq<Op>, dims: nat)
  {
    forall i :: 0 <= i < |ops| ==> ValidKey(ops[i].key, dims)
  }

  /** The unlimited map holds exactly the keys offered, each with what its own operations amount to. */
  lemma {:induction false} RunMeaning(ops: seq<Op>, dims: nat, rank: int)
    requires ValidOps(ops, dims)
    ensures SortedEntries(Run([], ops), dims)
    ensures Lookup(Run([], ops), rank) == ValueAfter(ops, rank)
  {
    hide Rank, ValidKey;
    if ops != [] {
      RunMeaning(ops[..|ops| - 1], dims, rank);
      PutSorted(Run([], ops[..|ops| - 1]), ops[|ops| - 1], dims);
      PutLookup(Run([], ops[..|ops| - 1]), ops[|ops| - 1], dims, rank);
    }
  }

  ghost predicate Offered(ops: seq<Op>, rank: int)
  {
    exists i :: 0 <= i < |ops| && Rank(ops[i].key) == rank
  }

  lemma {:induction false} OfferedHasValue(ops: seq<Op>, rank: int)
    ensures ValueAfter(ops, rank).Some? <==> Offered(ops, rank)
  {
    hide Rank;
    if ops != [] {
      var init := ops[..|ops| - 1];
      OfferedHasValue(init, rank);
      if Offered(init, rank) {
        var i :| 0 <= i < |init| && Rank(init[i].key) == rank;
        assert Rank(ops[i].key) == rank;
      }
      if Offered(ops, rank) && Rank(ops[|ops| - 1].key) != rank {
        var i :| 0 <= i < |ops| && Rank(ops[i].key) == rank;
        assert init[i] == ops[i];
      }
    }
  }

  /** The limited map after a run of operations, limited after each. */
  function CappedRun(es: seq<Entry>, ops: seq<Op>, maxCount: nat): seq<Entry>
  {
    if ops == [] then es
    else Cap(Put(CappedRun(es, ops[..|ops| - 1], maxCount), ops[|ops| - 1]), maxCount)
  }

  /** A limited map is at all times the least part of the unlimited one. */
  lemma {:induction false} CappedIsLeast(es: seq<Entry>, ops: seq<Op>, maxCount: nat)
    ensures CappedRun(Cap(es, maxCount), ops, maxCount) == Cap(Run(es, ops), maxCount)
  {
    hide Put;
    if ops != [] {
      CappedIsLeast(es, ops[..|ops| - 1], maxCount);
      CapPut(Run(es, ops[..|ops| - 1]), ops[|ops| - 1], maxCount);
    }
  }

  /** What is kept has its unlimited value; what is not kept is greater than everything that is. */
  lemma CapKeepsLeast(es: seq<Entry>, dims: nat, maxCount: nat, rank: int)
    requires SortedEntries(es, dims)
    ensures Lookup(Cap(es, maxCount), rank).Some? ==> Lookup(Cap(es, maxCount), rank) == Lookup(es, rank)
    ensures Lookup(es, rank).Some? && Lookup(Cap(es, maxCount), rank).None? ==>
      |Cap(es, maxCount)| == maxCount && forall i :: 0 <= i < maxCount ==> Rank(Cap(es, maxCount)[i].key) < rank
  {
    hide Rank, ValidKey;
    var kept := Cap(es, maxCount);
    assert es == kept + es[|kept|..];
    LookupConcat(kept, es[|kept|..], rank);
    if Lookup(es, rank).Some? && Lookup(kept, rank).None? {
      var j := LookupWitness(es[|kept|..], rank);
      assert Rank(es[|kept| + j].key) == rank;
    }
  }

  lemma {:induction false} LookupConcat(a: seq<Entry>, b: seq<Entry>, rank: int)
    ensures Lookup(a + b, rank) == if Lookup(a, rank).Some? then Lookup(a, rank) else Lookup(b, rank)
  {
    hide Rank;
    if a == [] {
      assert a + b == b;
    } else {
      assert (a + b)[1..] == a[1..] + b;
      LookupConcat(a[1..], b, rank);
    }
  }

  lemma {:induction false} LookupWitness(es: seq<Entry>, rank: int) returns (i: nat)
    requires Lookup(es, rank).Some?
    ensures i < |es| && Rank(es[i].key) == rank && Lookup(es, rank) == Some(es[i].value)
  {
    hide Rank;
    if Rank(es[0].key) == rank {
      i := 0;
    } else {
      i := LookupWitness(es[1..], rank);
      i := i + 1;
    }
  }

  /** One operation; a new entry too many drops the greatest one, however many there were before. */
  function DropPut(es: seq<Entry>, op: Op, maxCount: nat): seq<Entry>
  {
    var after := Put(es, op);
    if |after| > |es| && 0 < maxCount < |after| then after[..|after| - 1] else after
  }

  /** Keys behind the last one that was left when something was dropped are not taken at all. */
  function OfferPut(es: seq<Entry>, lastPath: Option<Key>, op: Op, maxCount: nat): seq<Entry>
  {
    if lastPath.Some? && Rank(lastPath.value) < Rank(op.key) then es else DropPut(es, op, maxCount)
  }

  /**
   * A map that has dropped something behind key 1 under a limit of 1 refuses key 2 under a limit of 2,
   * although there is room for it.
   */
  lemma RaisedLimitExample(es: seq<Entry>, lastPath: Option<Key>, op: Op)
    requires es == [Entry([1], 1.0)] && lastPath == Some([1]) && op == Op.Set([2], 2.0)
    ensures OfferPut(es, lastPath, op, 2) == es
    ensures Cap(Put(es, op), 2) == es + [Entry([2], 2.0)]
  {
    var low: Key, high: Key := [1], [2];
    assert ValidKey(low, 1) && ValidKey(high, 1);
    RankOrder(low, high, 1);
    assert LexLess(low, high);
    hide Rank;
    PutNew(es, op, 1);
  }

  // ------------------------------------------------------------------------------------------
  // The map itself
  // ------------------------------------------------------------------------------------------

  class CellArrayMap {
    const dims: nat
    var entries: seq<Entry>
    var maxCount: nat
    var lastPath: Option<Key>

    ghost predicate Valid()
      reads this
    {
      SortedEntries(entries, dims) && (lastPath.Some? ==> ValidKey(lastPath.value, dims))
    }

    /** The limit is kept, and the last key is remembered since something has been dropped under it. */
    ghost predicate Limited()
      reads this
    {
      && (maxCount > 0 ==> |entries| <= maxCount)
      && (lastPath.Some? ==> maxCount > 0 && |entries| == maxCount && lastPath.value == entries[maxCount - 1].key)
    }

    constructor (dims: nat)
      ensures Valid() && Limited() && entries == [] && maxCount == 0 && lastPath == None && this.dims == dims
    {
      this.dims, entries, maxCount, lastPath := dims, [], 0, None;
    }

    /** setLimit: for later insertions; what is stored stays, and so does the last key of an earlier limit. */
    method SetLimit(maxCount: nat)
      requires Valid()
      modifies this`maxCount
      ensures Valid() && this.maxCount == maxCount
      ensures lastPath == None ==> (Limited() <==> maxCount == 0 || |entries| <= maxCount)
      ensures lastPath != None && old(Limited()) ==> (Limited() <==> maxCount == old(this.maxCount))
    {
      this.maxCount := maxCount;
    }

    /** set and add: false if nothing was inserted, or something was dropped for it. */
    method Apply(op: Op) returns (result: bool)
      requires Valid() && ValidKey(op.key, dims)
      modifies this`entries, this`lastPath
      ensures Valid()
      ensures entries == OfferPut(old(entries), old(lastPath), op, maxCount)
      ensures old(Limited()) ==> Limited() && entries == Cap(Put(old(entries), op), maxCount)
      ensures result <==> |entries| > |old(entries)|
    {
      hide Rank, SortedEntries, Put;
      if lastPath.Some? {
        var diff := CompareStreamKeys(lastPath.value, op.key, dims);
        if diff < 0 {
          if Limited() {
            AllSmaller(entries, op, dims);
            PutNew(entries, op, |entries|);
          }
          return false;
        }
      }
      result := Insert(op);
    }

    /** Inserts or changes the entry at a key, and drops the last one if there is one too many. */
    method Insert(op: Op) returns (result: bool)
      requires Valid() && ValidKey(op.key, dims)
      modifies this`entries, this`lastPath
      ensures Valid()
      ensures entries == DropPut(old(entries), op, maxCount)
      ensures old(Limited()) ==> Limited() && entries == Cap(Put(old(entries), op), maxCount)
      ensures result <==> |entries| > |old(entries)|
    {
      hide Rank, SortedEntries, Put, ValidKey;
      var i := Find(op.key);
      PutSorted(entries, op, dims);
      if i < |entries| && entries[i].key == op.key {
        PutExisting(entries, op, i);
        LastReplaced(entries, i, Entry(op.key, Applied(op, Some(entries[i].value))));
        entries := entries[i := Entry(op.key, Applied(op, Some(entries[i].value)))];
        return false;
      }
      PutNew(entries, op, i);
      entries := entries[..i] + [Entry(op.key, Applied(op, None))] + entries[i..];
      if maxCount > 0 && |entries| > maxCount {
        CapSorted(entries, dims, |entries| - 1);
        entries := entries[..|entries| - 1];
        LastValid(entries, |entries| - 1, dims);
        lastPath := Some(entries[|entries| - 1].key);
        return false;
      }
      result := true;
    }

    /** A whole run of operations on an empty map: the least keys offered, with their unlimited values. */
    method ApplyAll(ops: seq<Op>)
      requires Valid() && Limited() && entries == [] && ValidOps(ops, dims)
      modifies this`entries, this`lastPath
      ensures Valid() && Limited()
      ensures entries == Cap(Run([], ops), maxCount)
    {
      hide Put, SortedEntries;
      for i := 0 to |ops|
        invariant Valid() && Limited() && entries == CappedRun([], ops[..i], maxCount)
      {
        assert ops[..i + 1][..i] == ops[..i];
        var _ := Apply(ops[i]);
      }
      assert ops[..|ops|] == ops;
      CappedIsLeast([], ops, maxCount);
    }

    /** The first entry at or behind a key, as the underlying map finds it. */
    method Find(key: Key) returns (i: nat)
      requires Valid() && ValidKey(key, dims)
      ensures i <= |entries|
      ensures forall j :: 0 <= j < i ==> Rank(entries[j].key) < Rank(key)
      ensures i < |entries| ==> Rank(key) <= Rank(entries[i].key) && (Rank(key) == Rank(entries[i].key) <==> entries[i].key == key)
    {
      hide Rank;
      i := 0;
      while i < |entries|
        invariant i <= |entries| && forall j :: 0 <= j < i ==> Rank(entries[j].key) < Rank(key)
      {
        var diff := CompareStreamKeys(entries[i].key, key, dims);
        if diff >= 0 {
          return;
        }
        i := i + 1;
      }
    }
  }

  lemma LastReplaced(es: seq<Entry>, i: nat, e: Entry)
    requires i < |es| && e.key == es[i].key
    ensures es[i := e][|es| - 1].key == es[|es| - 1].key
  {
  }

  lemma LastValid(es: seq<Entry>, i: nat, dims: nat)
    requires SortedEntries(es, dims) && i < |es|
    ensures ValidKey(es[i].key, dims)
  {
  }

  lemma AllSmaller(es: seq<Entry>, op: Op, dims: nat)
    requires SortedEntries(es, dims) && es != [] && Rank(es[|es| - 1].key) < Rank(op.key)
    ensures forall j :: 0 <= j < |es| ==> Rank(es[j].key) < Rank(op.key)
  {
    hide Rank, ValidKey;
  }

  lemma CapSorted(es: seq<Entry>, dims: nat, n: nat)
    requires SortedEntries(es, dims) && n <= |es|
    ensures SortedEntries(es[..n], dims)
  {
    hide Rank, ValidKey;
  }

  /** An operation at an existing key, i entries being smaller. */
  lemma {:induction false} PutExisting(es: seq<Entry>, op: Op, i: nat)
    requires i < |es| && (forall j :: 0 <= j < i ==> Rank(es[j].key) < Rank(op.key)) && Rank(op.key) == Rank(es[i].key)
    ensures Put(es, op) == es[i := Entry(es[i].key, Applied(op, Some(es[i].value)))]
    decreases i
  {
    hide Rank, Put;
    var x, rest := es[0], es[1..];
    assert es == [x] + rest;
    PutCons(x, rest, op);
    if i > 0 {
      PutExisting(rest, op, i - 1);
      assert [x] + rest[i - 1 := Entry(es[i].key, Applied(op, Some(es[i].value)))]
        == es[i := Entry(es[i].key, Applied(op, Some(es[i].value)))];
    }
  }

  /** An operation at a new key, i entries being smaller and the others greater. */
  lemma PutFront(es: seq<Entry>, op: Op)
    requires es != [] ==> Rank(op.key) < Rank(es[0].key)
    ensures Put(es, op) == [Entry(op.key, Applied(op, None))] + es
  {
    hide Rank;
  }

  lemma {:induction false} PutNew(es: seq<Entry>, op: Op, i: nat)
    requires i <= |es| && (forall j :: 0 <= j < i ==> Rank(es[j].key) < Rank(op.key))
    requires i < |es| ==> Rank(op.key) < Rank(es[i].key)
    ensures Put(es, op) == es[..i] + [Entry(op.key, Applied(op, None))] + es[i..]
    decreases i
  {
    hide Rank, Put;
    if i == 0 {
      PutFront(es, op);
    } else {
      var x, rest := es[0], es[1..];
      assert es == [x] + rest;
      PutCons(x, rest, op);
      PutNew(rest, op, i - 1);
      assert rest[i - 1..] == es[i..] && [x] + rest[..i - 1] == es[..i];
    }
  }
}
