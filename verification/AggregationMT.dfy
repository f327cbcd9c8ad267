/**
 * Multi-threaded aggregation as a state machine: the readers' ranges are handed off, every worker
 * fills a map of its own, and the maps are merged one at a time. The result is that of one reader
 * going over everything.
 */
module AggregationMT {
  import opened Wrappers
  import opened Streams
  import opened CellMaps

  /** What each source cell adds to the target cells it is aggregated into, all sources one after the other. */
  type Source = seq<seq<Op>>

  /** A reader between pos and endp with the map its values are aggregated into. */
  datatype Worker = Worker(pos: nat, endp: nat, storage: seq<Entry>, hasVals: bool)

  /** The main reader, where the sources not yet begun start, the running workers, and the map of finished workers. */
  datatype State = State(main: Worker, next: nat, workers: seq<Worker>, threadStorage: Option<seq<Entry>>)

  /** Only additions, at valid keys. */
  ghost predicate ValidSource(source: Source, dims: nat)
  {
    forall i :: 0 <= i < |source| ==> ValidOps(source[i], dims) && OnlyAdds(source[i])
  }

  ghost predicate OnlyAdds(ops: seq<Op>)
  {
    forall i :: 0 <= i < |ops| ==> ops[i].Add?
  }

  /** Everything a range of the source adds, in reading order. */
  function Range(source: Source, from: nat, to: nat): seq<Op>
    requires from <= to <= |source|
  {
    if from == to then [] else Range(source, from, to - 1) + source[to - 1]
  }

  // ------------------------------------------------------------------------------------------
  // The steps
  // ------------------------------------------------------------------------------------------

  /** One reader reads one value and aggregates it. */
  ghost predicate Reads(source: Source, maxCount: nat, w: Worker, w': Worker)
  {
    && w.pos < w.endp <= |source|
    && w' == Worker(w.pos + 1, w.endp, CappedRun(w.storage, source[w.pos], maxCount), true)
  }

  /**
   * readCallback: the reader gives up the tail of its range to a new worker with an empty map. An
   * array in place of the map counts as having values from the start.
   */
  ghost predicate HandsOff(w: Worker, w': Worker, n: Worker, s: nat)
  {
    && w.pos < s < w.endp
    && w' == w.(endp := s)
    && n == Worker(s, w.endp, [], n.hasVals)
  }

  /** The entries of a map added to another one. */
  function AsAdds(es: seq<Entry>): seq<Op>
  {
    seq(|es|, i requires 0 <= i < |es| => Add(es[i].key, es[i].value))
  }

  function Merge(into: seq<Entry>, es: seq<Entry>, maxCount: nat): seq<Entry>
  {
    CappedRun(into, AsAdds(es), maxCount)
  }

  /** What a finished worker does under the lock: its map becomes the common one, or is added to it. */
  function Publish(thread: Option<seq<Entry>>, w: Worker, maxCount: nat): Option<seq<Entry>>
  {
    if !w.hasVals then thread
    else if thread.Some? then Some(Merge(thread.value, w.storage, maxCount))
    else Some(w.storage)
  }

  datatype Step =
    | MainBegins(e: nat)
    | MainReads
    | WorkerReads(i: nat)
    | MainHandsOff(s: nat)
    | WorkerHandsOff(i: nat, s: nat)
    | WorkerFinishes(i: nat)

  ghost predicate Takes(source: Source, maxCount: nat, st: State, step: Step, st': State)
  {
    match step
    case MainBegins(e) =>
      && st.main.pos == st.main.endp && st.next <= e <= |source|
      && st' == st.(main := st.main.(pos := st.next, endp := e), next := e)
    case MainReads =>
      Reads(source, maxCount, st.main, st'.main) && st' == st.(main := st'.main)
    case WorkerReads(i) =>
      && i < |st.workers| && |st'.workers| == |st.workers| && Reads(source, maxCount, st.workers[i], st'.workers[i])
      && st' == st.(workers := st.workers[i := st'.workers[i]])
    case MainHandsOff(s) =>
      && |st'.workers| == |st.workers| + 1 && HandsOff(st.main, st'.main, st'.workers[|st.workers|], s)
      && st' == st.(main := st'.main, workers := st.workers + [st'.workers[|st.workers|]])
    case WorkerHandsOff(i, s) =>
      && i < |st.workers| && |st'.workers| == |st.workers| + 1
      && HandsOff(st.workers[i], st'.workers[i], st'.workers[|st.workers|], s)
      && st' == st.(workers := st.workers[i := st'.workers[i]] + [st'.workers[|st.workers|]])
    case WorkerFinishes(i) =>
      && i < |st.workers| && st.workers[i].pos == st.workers[i].endp
      && st' == State(st.main, st.next, st.workers[..i] + st.workers[i + 1..],
                      Publish(st.threadStorage, st.workers[i], maxCount))
  }

  /** No source has been begun. */
  function Initial(): State
  {
    State(Worker(0, 0, [], false), 0, [], None)
  }

  ghost predicate Follows(source: Source, maxCount: nat, st: State, st': State)
  {
    exists step :: Takes(source, maxCount, st, step, st')
  }

  /** A run of the machine: a sequence of states, each reached from the one before by some step. */
  ghost predicate IsRun(source: Source, maxCount: nat, run: seq<State>)
  {
    && run != [] && run[0] == Initial()
    && forall k :: 0 < k < |run| ==> Follows(source, maxCount, run[k - 1], run[k])
  }

  /** The main reader has read all sources and has joined all workers. */
  ghost predicate Joined(source: Source, st: State)
  {
    st.main.pos == st.main.endp && st.next == |source| && st.workers == []
  }

  /** What the aggregation then delivers, where the main reader has a map of its own. */
  function Delivered(st: State, maxCount: nat): seq<Entry>
  {
    if st.threadStorage.Some? then Merge(st.main.storage, st.threadStorage.value, maxCount) else st.main.storage
  }

  /** What a single reader delivers. */
  function Sequential(source: Source, maxCount: nat): seq<Entry>
  {
    CappedRun([], Range(source, 0, |source|), maxCount)
  }

  // ------------------------------------------------------------------------------------------
  // Sums
  // ------------------------------------------------------------------------------------------

  /** How often a rank is added to, and the sum of what is added. */
  datatype Share = Share(count: nat, sum: real)

  function Plus(a: Share, b: Share): Share
  {
    Share(a.count + b.count, a.sum + b.sum)
  }

  function ShareOf(ops: seq<Op>, rank: int): Share
  {
    if ops == [] then Share(0, 0.0)
    else
      var op, before := ops[|ops| - 1], ShareOf(ops[..|ops| - 1], rank);
      if Rank(op.key) == rank then Share(before.count + 1, before.sum + op.value) else before
  }

  lemma ShareSnoc(ops: seq<Op>, op: Op, rank: int)
    ensures ShareOf(ops + [op], rank) ==
      if Rank(op.key) == rank then Plus(ShareOf(ops, rank), Share(1, op.value)) else ShareOf(ops, rank)
  {
    assert (ops + [op])[..|ops|] == ops;
  }

  lemma {:induction false} ShareConcat(a: seq<Op>, b: seq<Op>, rank: int)
    ensures ShareOf(a + b, rank) == Plus(ShareOf(a, rank), ShareOf(b, rank))
  {
    if b == [] {
      assert a + b == a;
    } else {
      hide Rank, ShareOf;
      var init, op := b[..|b| - 1], b[|b| - 1];
      assert a + b == (a + init) + [op] && b == init + [op];
      ShareConcat(a, init, rank);
      ShareSnoc(a + init, op, rank);
      ShareSnoc(init, op, rank);
    }
  }

  /** For additions only the share of a rank matters. */
  lemma {:induction false} ValueIsShare(ops: seq<Op>, rank: int)
    requires OnlyAdds(ops)
    ensures ValueAfter(ops, rank) == if ShareOf(ops, rank).count == 0 then None else Some(ShareOf(ops, rank).sum)
    ensures ShareOf(ops, rank).count == 0 ==> ShareOf(ops, rank).sum == 0.0
  {
    hide Rank;
    if ops != [] {
      ValueIsShare(ops[..|ops| - 1], rank);
    }
  }

  // ------------------------------------------------------------------------------------------
  // Merging limited maps
  // ------------------------------------------------------------------------------------------

  lemma {:induction false} RunConcat(es: seq<Entry>, a: seq<Op>, b: seq<Op>)
    ensures Run(Run(es, a), b) == Run(es, a + b)
  {
    hide Put;
    if b == [] {
      assert a + b == a;
    } else {
      assert (a + b)[..|a + b| - 1] == a + b[..|b| - 1];
      RunConcat(es, a, b[..|b| - 1]);
    }
  }

  /** Sorted entries are determined by their values. */
  lemma {:induction false} EntriesUnique(a: seq<Entry>, b: seq<Entry>, dims: nat)
    requires SortedEntries(a, dims) && SortedEntries(b, dims)
    requires forall rank :: Lookup(a, rank) == Lookup(b, rank)
    ensures a == b
    decreases |a|
  {
    hide Rank, ValidKey;
    if a == [] || b == [] {
      NonEmptyHas(a);
      NonEmptyHas(b);
    } else {
      FirstAgrees(a, b, dims);
      FirstAgrees(b, a, dims);
      RankOrder(a[0].key, b[0].key, dims);
      assert a[0] == b[0] by {
        assert Lookup(a, Rank(a[0].key)) == Lookup(b, Rank(a[0].key));
      }
      forall rank
        ensures Lookup(a[1..], rank) == Lookup(b[1..], rank)
      {
        assert Lookup(a, rank) == Lookup(b, rank);
        if rank == Rank(a[0].key) {
          LookupBelow(a[1..], rank);
          LookupBelow(b[1..], rank);
        }
      }
      EntriesUnique(a[1..], b[1..], dims);
      assert a == [a[0]] + a[1..] && b == [b[0]] + b[1..];
    }
  }

  lemma NonEmptyHas(es: seq<Entry>)
    ensures es != [] ==> exists rank :: Lookup(es, rank).Some?
    ensures es == [] ==> forall rank :: Lookup(es, rank) == None
  {
    assert es != [] ==> Lookup(es, Rank(es[0].key)).Some?;
  }

  lemma FirstAgrees(a: seq<Entry>, b: seq<Entry>, dims: nat)
    requires SortedEntries(a, dims) && SortedEntries(b, dims) && a != [] && b != []
    requires forall rank :: Lookup(a, rank) == Lookup(b, rank)
    ensures Rank(a[0].key) <= Rank(b[0].key)
  {
    hide Rank, ValidKey;
    assert Lookup(a, Rank(b[0].key)) == Lookup(b, Rank(b[0].key));
    if Rank(b[0].key) < Rank(a[0].key) {
      LookupBelow(a, Rank(b[0].key));
    }
  }

  /** The i-th of some keys that all occur in sorted entries is not before their i-th entry. */
  lemma {:induction false} IndexAtLeast(es: seq<Entry>, some: seq<Entry>, i: nat, dims: nat) returns (f: nat)
    requires SortedEntries(es, dims) && SortedEntries(some, dims) && i < |some|
    requires forall j :: 0 <= j <= i ==> Lookup(es, Rank(some[j].key)).Some?
    ensures i <= f < |es| && Rank(es[f].key) == Rank(some[i].key)
    decreases i
  {
    hide Rank, ValidKey, Lookup;
    f := LookupWitness(es, Rank(some[i].key));
    if i > 0 {
      var g := IndexAtLeast(es, some, i - 1, dims);
      assert Rank(some[i - 1].key) < Rank(some[i].key);
    }
  }

  /** An operation behind the n-th entry does not change the least n. */
  lemma PutGreater(es: seq<Entry>, op: Op, n: nat, dims: nat)
    requires SortedEntries(es, dims) && 0 < n <= |es| && Rank(es[n - 1].key) < Rank(op.key)
    ensures Cap(Put(es, op), n) == Cap(es, n)
  {
    hide Rank, ValidKey, Put;
    CapPut(es, op, n);
    var kept := Cap(es, n);
    assert kept[n - 1] == es[n - 1] && |kept| == n;
    CapSorted(es, dims, n);
    AllSmaller(kept, op, dims);
    PutNew(kept, op, n);
  }

  lemma AsAddsShare(es: seq<Entry>, dims: nat, rank: int)
    requires SortedEntries(es, dims)
    ensures ValidOps(AsAdds(es), dims) && OnlyAdds(AsAdds(es))
    ensures Lookup(es, rank) == ValueAfter(AsAdds(es), rank)
  {
    hide Rank, ValidKey;
    AsAddsValue(es, dims, rank);
  }

  lemma {:induction false} AsAddsValue(es: seq<Entry>, dims: nat, rank: int)
    requires SortedEntries(es, dims)
    ensures Lookup(es, rank) == ValueAfter(AsAdds(es), rank)
  {
    hide Rank, ValidKey;
    if es != [] {
      var init, last := es[..|es| - 1], es[|es| - 1];
      AsAddsValue(init, dims, rank);
      assert AsAdds(es)[..|es| - 1] == AsAdds(init);
      assert es == init + [last];
      LookupConcat(init, [last], rank);
      assert [last][1..] == [];
      if Lookup(init, rank).Some? {
        var i := LookupWitness(init, rank);
        assert Rank(es[i].key) < Rank(es[|es| - 1].key);
      }
    }
  }

  /** Where entries are added, there are at least as many keys, and the first of them are as small. */
  lemma Lead(ops: seq<Op>, es: seq<Entry>, n: nat, dims: nat)
    requires ValidOps(ops, dims) && SortedEntries(es, dims) && 0 < n <= |es|
    ensures var all := ops + AsAdds(es);
      SortedEntries(Run([], all), dims) && n <= |Run([], all)| && Rank(Run([], all)[n - 1].key) <= Rank(es[n - 1].key)
  {
    hide Rank, ValidKey, Put, Lookup;
    var all := ops + AsAdds(es);
    AsAddsShare(es, dims, 0);
    RunMeaning(all, dims, 0);
    forall j | 0 <= j <= n - 1
      ensures Lookup(Run([], all), Rank(es[j].key)).Some?
    {
      RunMeaning(all, dims, Rank(es[j].key));
      assert all[|ops| + j].key == es[j].key;
      OfferedHasValue(all, Rank(es[j].key));
    }
    var f := IndexAtLeast(Run([], all), es, n - 1, dims);
    SortedRanks(Run([], all), dims, n - 1, f);
  }

  lemma SortedRanks(es: seq<Entry>, dims: nat, i: nat, j: nat)
    requires SortedEntries(es, dims) && i <= j < |es|
    ensures Rank(es[i].key) <= Rank(es[j].key)
  {
    hide Rank, ValidKey;
  }

  /** The entries a limited map had no room for would have been dropped from the merged one. */
  lemma OneAddMore(ops: seq<Op>, es: seq<Entry>)
    requires es != []
    ensures var last := es[|es| - 1];
      Run(Run([], ops), AsAdds(es)) == Put(Run([], ops + AsAdds(es[..|es| - 1])), Add(last.key, last.value))
  {
    hide Put;
    assert AsAdds(es)[..|es| - 1] == AsAdds(es[..|es| - 1]);
    RunConcat([], ops, AsAdds(es[..|es| - 1]));
  }

  lemma MergePrefix(es: seq<Entry>, dims: nat)
    requires SortedEntries(es, dims)
    ensures es != [] ==> SortedEntries(es[..|es| - 1], dims)
    ensures forall i, j :: 0 <= i < j < |es| ==> Rank(es[i].key) < Rank(es[j].key)
  {
    hide Rank, ValidKey;
  }

  lemma {:induction false} MergeTail(ops: seq<Op>, es: seq<Entry>, m: nat, n: nat, dims: nat)
    requires ValidOps(ops, dims) && SortedEntries(es, dims) && 0 < n <= m <= |es|
    ensures Cap(Run(Run([], ops), AsAdds(es)), n) == Cap(Run(Run([], ops), AsAdds(es[..m])), n)
    decreases |es|
  {
    hide Rank, ValidKey, Put, Lookup, Cap, ValidOps, SortedEntries, Run, AsAdds;
    MergePrefix(es, dims);
    if m < |es| {
      var init, last := es[..|es| - 1], es[|es| - 1];
      assert init[..m] == es[..m];
      MergeTail(ops, init, m, n, dims);
      var all := ops + AsAdds(init);
      OneAddMore(ops, es);
      RunConcat([], ops, AsAdds(init));
      Lead(ops, init, n, dims);
      assert Rank(es[n - 1].key) < Rank(last.key);
      PutGreater(Run([], all), Add(last.key, last.value), n, dims);
    } else {
      assert es[..m] == es;
    }
  }

  lemma ValidConcat(a: seq<Op>, b: seq<Op>, dims: nat)
    requires ValidOps(a, dims) && ValidOps(b, dims) && OnlyAdds(a) && OnlyAdds(b)
    ensures ValidOps(a + b, dims) && OnlyAdds(a + b)
  {
  }

  /** The unlimited maps of two lists of additions agree if every rank has the same share in both. */
  lemma SameShares(a: seq<Op>, b: seq<Op>, dims: nat)
    requires ValidOps(a, dims) && ValidOps(b, dims) && OnlyAdds(a) && OnlyAdds(b)
    requires forall rank :: ShareOf(a, rank) == ShareOf(b, rank)
    ensures Run([], a) == Run([], b)
  {
    hide Rank, ValidKey, Lookup, ShareOf, Run, ValueAfter;
    RunMeaning(a, dims, 0);
    RunMeaning(b, dims, 0);
    forall rank
      ensures Lookup(Run([], a), rank) == Lookup(Run([], b), rank)
    {
      RunMeaning(a, dims, rank);
      RunMeaning(b, dims, rank);
      ValueIsShare(a, rank);
      ValueIsShare(b, rank);
      assert ShareOf(a, rank) == ShareOf(b, rank);
    }
    EntriesUnique(Run([], a), Run([], b), dims);
  }

  /** Adding the entries of a map is adding what was added to it. */
  lemma AddEntries(a: seq<Op>, b: seq<Op>, dims: nat)
    requires ValidOps(a, dims) && ValidOps(b, dims) && OnlyAdds(a) && OnlyAdds(b)
    ensures Run(Run([], a), AsAdds(Run([], b))) == Run([], a + b)
  {
    hide Rank, ValidKey, Lookup, ShareOf, Run, ValueAfter;
    RunMeaning(b, dims, 0);
    var adds := AsAdds(Run([], b));
    AsAddsShare(Run([], b), dims, 0);
    RunConcat([], a, adds);
    ValidConcat(a, adds, dims);
    ValidConcat(a, b, dims);
    RunMeaning(a + adds, dims, 0);
    RunMeaning(a + b, dims, 0);
    forall rank
      ensures Lookup(Run([], a + adds), rank) == Lookup(Run([], a + b), rank)
    {
      AddEntriesAt(a, b, dims, rank);
    }
    EntriesUnique(Run([], a + adds), Run([], a + b), dims);
  }

  lemma AddEntriesAt(a: seq<Op>, b: seq<Op>, dims: nat, rank: int)
    requires ValidOps(a, dims) && ValidOps(b, dims) && OnlyAdds(a) && OnlyAdds(b)
    requires SortedEntries(Run([], b), dims)
    ensures Lookup(Run([], a + AsAdds(Run([], b))), rank) == Lookup(Run([], a + b), rank)
  {
    hide Rank, ValidKey, Lookup, ShareOf, Run, ValueAfter;
    var adds := AsAdds(Run([], b));
    AsAddsShare(Run([], b), dims, rank);
    RunMeaning(b, dims, rank);
    ValidConcat(a, adds, dims);
    ValidConcat(a, b, dims);
    RunMeaning(a + adds, dims, rank);
    RunMeaning(a + b, dims, rank);
    ValueIsShare(adds, rank);
    ValueIsShare(b, rank);
    ValueIsShare(a + adds, rank);
    ValueIsShare(a + b, rank);
    ShareConcat(a, adds, rank);
    ShareConcat(a, b, rank);
  }

  /** Merging two limited maps gives the limited map of everything added to either. */
  lemma MergeCapped(a: seq<Op>, b: seq<Op>, n: nat, dims: nat)
    requires ValidOps(a, dims) && ValidOps(b, dims) && OnlyAdds(a) && OnlyAdds(b)
    ensures Merge(Cap(Run([], a), n), Cap(Run([], b), n), n) == Cap(Run([], a + b), n)
  {
    hide Rank, ValidKey, Run;
    var ta, tb := Run([], a), Run([], b);
    CappedIsLeast(ta, AsAdds(Cap(tb, n)), n);
    RunMeaning(b, dims, 0);
    if 0 < n < |tb| {
      MergeTail(a, tb, n, n, dims);
    }
    AddEntries(a, b, dims);
  }

  // ------------------------------------------------------------------------------------------
  // The invariant of all runs
  // ------------------------------------------------------------------------------------------

  /** What has been added so far to the maps: of the main reader, of each worker, of finished workers. */
  datatype Logs = Logs(main: seq<Op>, workers: seq<seq<Op>>, thread: seq<Op>)

  ghost predicate GoodLog(log: seq<Op>, dims: nat)
  {
    ValidOps(log, dims) && OnlyAdds(log)
  }

  /** A worker's map is the limited map of its log, and it has a log only if it has values. */
  ghost predicate Matches(source: Source, w: Worker, log: seq<Op>, n: nat, dims: nat)
  {
    && w.pos <= w.endp <= |source| && GoodLog(log, dims)
    && w.storage == Cap(Run([], log), n) && (!w.hasVals ==> log == [])
  }

  /** The share a worker has in the result: what it has added and what it has still to read. */
  function WorkerShare(source: Source, w: Worker, log: seq<Op>, rank: int): Share
    requires w.pos <= w.endp <= |source|
  {
    Plus(ShareOf(log, rank), ShareOf(Range(source, w.pos, w.endp), rank))
  }

  function SumShares(ss: seq<Share>): Share
  {
    if ss == [] then Share(0, 0.0) else Plus(SumShares(ss[..|ss| - 1]), ss[|ss| - 1])
  }

  ghost predicate Accounted(source: Source, st: State, g: Logs, n: nat, dims: nat)
  {
    && Matches(source, st.main, g.main, n, dims) && st.next <= |source|
    && |g.workers| == |st.workers|
    && (forall i :: 0 <= i < |st.workers| ==> Matches(source, st.workers[i], g.workers[i], n, dims))
    && GoodLog(g.thread, dims)
    && (if st.threadStorage.Some? then st.threadStorage.value == Cap(Run([], g.thread), n) else g.thread == [])
  }

  function WorkerShares(source: Source, st: State, g: Logs, rank: int): (ss: seq<Share>)
    requires |g.workers| == |st.workers|
    requires forall i :: 0 <= i < |st.workers| ==> st.workers[i].pos <= st.workers[i].endp <= |source|
    ensures |ss| == |st.workers|
  {
    seq(|st.workers|, i requires 0 <= i < |st.workers| => WorkerShare(source, st.workers[i], g.workers[i], rank))
  }

  /** All shares together. */
  function Everything(source: Source, st: State, g: Logs, rank: int): Share
    requires st.main.pos <= st.main.endp <= |source| && st.next <= |source| && |g.workers| == |st.workers|
    requires forall i :: 0 <= i < |st.workers| ==> st.workers[i].pos <= st.workers[i].endp <= |source|
  {
    Plus(Plus(Plus(WorkerShare(source, st.main, g.main, rank), SumShares(WorkerShares(source, st, g, rank))),
              ShareOf(g.thread, rank)), ShareOf(Range(source, st.next, |source|), rank))
  }

  /** Every value of the sources is in exactly one log, to be read by exactly one reader, or in a source not yet begun. */
  ghost predicate Inv(source: Source, st: State, g: Logs, n: nat, dims: nat)
  {
    && Accounted(source, st, g, n, dims)
    && forall rank :: Everything(source, st, g, rank) == ShareOf(Range(source, 0, |source|), rank)
  }

  lemma {:induction false} SumSnoc(ss: seq<Share>, s: Share)
    ensures SumShares(ss + [s]) == Plus(SumShares(ss), s)
  {
    assert (ss + [s])[..|ss|] == ss;
  }

  lemma {:induction false} SumAround(a: seq<Share>, s: Share, b: seq<Share>)
    ensures SumShares(a + [s] + b) == Plus(SumShares(a + b), s)
  {
    if b == [] {
      assert a + [s] + b == a + [s] && a + b == a;
      SumSnoc(a, s);
    } else {
      hide SumShares;
      var init, last := b[..|b| - 1], b[|b| - 1];
      SumAround(a, s, init);
      assert a + [s] + b == (a + [s] + init) + [last] && a + b == (a + init) + [last];
      SumSnoc(a + [s] + init, last);
      SumSnoc(a + init, last);
    }
  }

  lemma {:induction false} RangeCons(source: Source, from: nat, end: nat)
    requires from < end <= |source|
    ensures Range(source, from, end) == source[from] + Range(source, from + 1, end)
    decreases end
  {
    if end > from + 1 {
      RangeCons(source, from, end - 1);
    } else {
      assert Range(source, from, from) == [] && Range(source, from + 1, end) == [];
    }
  }

  lemma {:induction false} RangeSplit(source: Source, from: nat, s: nat, end: nat)
    requires from <= s <= end <= |source|
    ensures Range(source, from, end) == Range(source, from, s) + Range(source, s, end)
    decreases end
  {
    if end > s {
      RangeSplit(source, from, s, end - 1);
    }
  }

  lemma ReadsKeeps(source: Source, w: Worker, w': Worker, log: seq<Op>, n: nat, dims: nat)
    requires ValidSource(source, dims) && Matches(source, w, log, n, dims) && Reads(source, n, w, w')
    ensures Matches(source, w', log + source[w.pos], n, dims)
    ensures forall rank :: WorkerShare(source, w', log + source[w.pos], rank) == WorkerShare(source, w, log, rank)
  {
    hide Run, ShareOf, Put;
    var ops := source[w.pos];
    assert ValidOps(ops, dims) && OnlyAdds(ops);
    ValidConcat(log, ops, dims);
    CappedIsLeast(Run([], log), ops, n);
    RunConcat([], log, ops);
    RangeCons(source, w.pos, w.endp);
    forall rank
      ensures WorkerShare(source, w', log + ops, rank) == WorkerShare(source, w, log, rank)
    {
      ShareConcat(log, ops, rank);
      ShareConcat(ops, Range(source, w.pos + 1, w.endp), rank);
    }
  }

  lemma HandsOffKeeps(source: Source, w: Worker, w': Worker, new_: Worker, s: nat, log: seq<Op>, n: nat, dims: nat)
    requires Matches(source, w, log, n, dims) && HandsOff(w, w', new_, s)
    ensures Matches(source, w', log, n, dims) && Matches(source, new_, [], n, dims)
    ensures forall rank ::
      WorkerShare(source, w, log, rank) == Plus(WorkerShare(source, w', log, rank), WorkerShare(source, new_, [], rank))
  {
    RangeSplit(source, w.pos, s, w.endp);
    forall rank
      ensures WorkerShare(source, w, log, rank) == Plus(WorkerShare(source, w', log, rank), WorkerShare(source, new_, [], rank))
    {
      ShareConcat(Range(source, w.pos, s), Range(source, s, w.endp), rank);
    }
  }

  lemma PublishKeeps(source: Source, thread: Option<seq<Entry>>, threadLog: seq<Op>, w: Worker, log: seq<Op>, n: nat, dims: nat)
    requires Matches(source, w, log, n, dims) && GoodLog(threadLog, dims)
    requires if thread.Some? then thread.value == Cap(Run([], threadLog), n) else threadLog == []
    ensures GoodLog(threadLog + log, dims)
    ensures var after := Publish(thread, w, n);
      if after.Some? then after.value == Cap(Run([], threadLog + log), n) else threadLog + log == []
  {
    hide Run, Merge;
    ValidConcat(threadLog, log, dims);
    if w.hasVals {
      if thread.Some? {
        MergeCapped(threadLog, log, n, dims);
      } else {
        assert threadLog + log == log;
      }
    } else {
      assert threadLog + log == threadLog;
    }
  }

  /** Replacing the share of one worker. */
  lemma SumReplaced(ss: seq<Share>, i: nat, s: Share)
    requires i < |ss|
    ensures SumShares(ss) == Plus(SumShares(ss[..i] + ss[i + 1..]), ss[i])
    ensures SumShares(ss[i := s]) == Plus(SumShares(ss[..i] + ss[i + 1..]), s)
  {
    hide SumShares;
    SumAround(ss[..i], ss[i], ss[i + 1..]);
    SumAround(ss[..i], s, ss[i + 1..]);
    assert ss == ss[..i] + [ss[i]] + ss[i + 1..];
    assert ss[i := s] == ss[..i] + [s] + ss[i + 1..];
  }

  lemma MainReadsKeeps(source: Source, st: State, st': State, g: Logs, n: nat, dims: nat) returns (g': Logs)
    requires ValidSource(source, dims) && Inv(source, st, g, n, dims) && Takes(source, n, st, MainReads, st')
    ensures Inv(source, st', g', n, dims)
  {
    hide ShareOf, SumShares, Run, WorkerShare, Matches, Reads;
    ReadsRange(source, n, st.main, st'.main);
    g' := g.(main := g.main + source[st.main.pos]);
    ReadsKeeps(source, st.main, st'.main, g.main, n, dims);
    assert Accounted(source, st', g', n, dims);
    SameWorkers(source, st, g, st', g', n, dims);
    forall rank
      ensures Everything(source, st', g', rank) == ShareOf(Range(source, 0, |source|), rank)
    {
      assert Everything(source, st, g, rank) == ShareOf(Range(source, 0, |source|), rank);
    }
  }

  lemma MainBeginsKeeps(source: Source, st: State, st': State, e: nat, g: Logs, n: nat, dims: nat)
    requires Inv(source, st, g, n, dims) && Takes(source, n, st, MainBegins(e), st')
    ensures Inv(source, st', g, n, dims)
  {
    hide ShareOf, SumShares, Run, Range, WorkerShare;
    assert Accounted(source, st', g, n, dims);
    SameWorkers(source, st, g, st', g, n, dims);
    RangeSplit(source, st.next, e, |source|);
    forall rank
      ensures Everything(source, st', g, rank) == ShareOf(Range(source, 0, |source|), rank)
    {
      assert Everything(source, st, g, rank) == ShareOf(Range(source, 0, |source|), rank);
      NothingPending(source, st.main, g.main, rank);
      ShareConcat(Range(source, st.next, e), Range(source, e, |source|), rank);
      Begun(source, st'.main, g.main, rank);
    }
  }

  lemma Begun(source: Source, w: Worker, log: seq<Op>, rank: int)
    requires w.pos <= w.endp <= |source|
    ensures WorkerShare(source, w, log, rank) == Plus(ShareOf(log, rank), ShareOf(Range(source, w.pos, w.endp), rank))
  {
  }

  lemma ReadsRange(source: Source, n: nat, w: Worker, w': Worker)
    requires Reads(source, n, w, w')
    ensures w.pos < |source|
  {
  }

  lemma SameWorkers(source: Source, st: State, g: Logs, st': State, g': Logs, n: nat, dims: nat)
    requires Accounted(source, st, g, n, dims) && Accounted(source, st', g', n, dims)
    requires st'.workers == st.workers && g'.workers == g.workers
    ensures st.main.pos <= st.main.endp <= |source| && st'.main.pos <= st'.main.endp <= |source|
    ensures forall i :: 0 <= i < |st.workers| ==> st.workers[i].pos <= st.workers[i].endp <= |source|
    ensures forall rank :: WorkerShares(source, st', g', rank) == WorkerShares(source, st, g, rank)
  {
  }

  lemma WorkerReadsKeeps(source: Source, st: State, st': State, i: nat, g: Logs, n: nat, dims: nat) returns (g': Logs)
    requires ValidSource(source, dims) && Inv(source, st, g, n, dims) && Takes(source, n, st, WorkerReads(i), st')
    ensures Inv(source, st', g', n, dims)
  {
    hide ShareOf, SumShares, Run, WorkerShare, Matches, Reads;
    var w, w', log := st.workers[i], st'.workers[i], g.workers[i];
    ReadsRange(source, n, w, w');
    g' := g.(workers := g.workers[i := log + source[w.pos]]);
    ReadsKeeps(source, w, w', log, n, dims);
    assert Accounted(source, st', g', n, dims);
    MatchesAll(source, st, g, n, dims);
    MatchesAll(source, st', g', n, dims);
    forall rank
      ensures Everything(source, st', g', rank) == ShareOf(Range(source, 0, |source|), rank)
    {
      assert Everything(source, st, g, rank) == ShareOf(Range(source, 0, |source|), rank);
      assert WorkerShares(source, st', g', rank) == WorkerShares(source, st, g, rank);
    }
  }

  lemma MatchesAll(source: Source, st: State, g: Logs, n: nat, dims: nat)
    requires Accounted(source, st, g, n, dims)
    ensures st.main.pos <= st.main.endp <= |source|
    ensures forall i :: 0 <= i < |st.workers| ==> st.workers[i].pos <= st.workers[i].endp <= |source|
  {
  }

  lemma MainHandsOffKeeps(source: Source, st: State, st': State, s: nat, g: Logs, n: nat, dims: nat) returns (g': Logs)
    requires Inv(source, st, g, n, dims) && Takes(source, n, st, MainHandsOff(s), st')
    ensures Inv(source, st', g', n, dims)
  {
    hide ShareOf, SumShares, Run, WorkerShare, Matches, HandsOff;
    var new_ := st'.workers[|st.workers|];
    g' := g.(workers := g.workers + [[]]);
    HandsOffKeeps(source, st.main, st'.main, new_, s, g.main, n, dims);
    assert Accounted(source, st', g', n, dims);
    MatchesAll(source, st, g, n, dims);
    MatchesAll(source, st', g', n, dims);
    forall rank
      ensures Everything(source, st', g', rank) == ShareOf(Range(source, 0, |source|), rank)
    {
      assert Everything(source, st, g, rank) == ShareOf(Range(source, 0, |source|), rank);
      var before, share := WorkerShares(source, st, g, rank), WorkerShare(source, new_, [], rank);
      assert WorkerShares(source, st', g', rank) == before + [share];
      SumSnoc(before, share);
    }
  }

  lemma WorkerHandsOffKeeps(source: Source, st: State, st': State, i: nat, s: nat, g: Logs, n: nat, dims: nat)
      returns (g': Logs)
    requires Inv(source, st, g, n, dims) && Takes(source, n, st, WorkerHandsOff(i, s), st')
    ensures Inv(source, st', g', n, dims)
  {
    hide ShareOf, SumShares, Run, WorkerShare, Matches, HandsOff;
    var new_ := st'.workers[|st.workers|];
    g' := g.(workers := g.workers + [[]]);
    HandsOffKeeps(source, st.workers[i], st'.workers[i], new_, s, g.workers[i], n, dims);
    assert Accounted(source, st', g', n, dims);
    MatchesAll(source, st, g, n, dims);
    MatchesAll(source, st', g', n, dims);
    forall rank
      ensures Everything(source, st', g', rank) == ShareOf(Range(source, 0, |source|), rank)
    {
      assert Everything(source, st, g, rank) == ShareOf(Range(source, 0, |source|), rank);
      var before, share := WorkerShares(source, st, g, rank), WorkerShare(source, new_, [], rank);
      var kept := WorkerShare(source, st'.workers[i], g.workers[i], rank);
      assert WorkerShares(source, st', g', rank) == before[i := kept] + [share];
      SumSnoc(before[i := kept], share);
      SumReplaced(before, i, kept);
    }
  }

  lemma OneWorkerLess(source: Source, st: State, st': State, g: Logs, g': Logs, i: nat, rank: int)
    requires |st.workers| == |g.workers| && i < |st.workers|
    requires st'.workers == st.workers[..i] + st.workers[i + 1..] && g'.workers == g.workers[..i] + g.workers[i + 1..]
    requires forall j :: 0 <= j < |st.workers| ==> st.workers[j].pos <= st.workers[j].endp <= |source|
    requires forall j :: 0 <= j < |st'.workers| ==> st'.workers[j].pos <= st'.workers[j].endp <= |source|
    ensures WorkerShares(source, st', g', rank) == WorkerShares(source, st, g, rank)[..i] + WorkerShares(source, st, g, rank)[i + 1..]
  {
    hide WorkerShare;
  }

  lemma WorkerFinishesKeeps(source: Source, st: State, st': State, i: nat, g: Logs, n: nat, dims: nat) returns (g': Logs)
    requires Inv(source, st, g, n, dims) && Takes(source, n, st, WorkerFinishes(i), st')
    ensures Inv(source, st', g', n, dims)
  {
    hide ShareOf, SumShares, Run, WorkerShare, Matches, Publish;
    var w, log := st.workers[i], g.workers[i];
    g' := Logs(g.main, g.workers[..i] + g.workers[i + 1..], g.thread + log);
    PublishKeeps(source, st.threadStorage, g.thread, w, log, n, dims);
    assert Accounted(source, st', g', n, dims);
    MatchesAll(source, st, g, n, dims);
    MatchesAll(source, st', g', n, dims);
    forall rank
      ensures Everything(source, st', g', rank) == ShareOf(Range(source, 0, |source|), rank)
    {
      assert Everything(source, st, g, rank) == ShareOf(Range(source, 0, |source|), rank);
      var before := WorkerShares(source, st, g, rank);
      OneWorkerLess(source, st, st', g, g', i, rank);
      SumReplaced(before, i, before[i]);
      NothingPending(source, w, log, rank);
      ShareConcat(g.thread, log, rank);
    }
  }

  lemma NothingPending(source: Source, w: Worker, log: seq<Op>, rank: int)
    requires w.pos == w.endp <= |source|
    ensures WorkerShare(source, w, log, rank) == ShareOf(log, rank)
  {
  }

  /** Every step keeps the invariant. */
  lemma StepKeeps(source: Source, st: State, step: Step, st': State, g: Logs, n: nat, dims: nat) returns (g': Logs)
    requires ValidSource(source, dims) && Inv(source, st, g, n, dims) && Takes(source, n, st, step, st')
    ensures Inv(source, st', g', n, dims)
  {
    hide Inv, Takes;
    match step
    case MainBegins(e) =>
      MainBeginsKeeps(source, st, st', e, g, n, dims);
      g' := g;
    case MainReads => g' := MainReadsKeeps(source, st, st', g, n, dims);
    case WorkerReads(i) => g' := WorkerReadsKeeps(source, st, st', i, g, n, dims);
    case MainHandsOff(s) => g' := MainHandsOffKeeps(source, st, st', s, g, n, dims);
    case WorkerHandsOff(i, s) => g' := WorkerHandsOffKeeps(source, st, st', i, s, g, n, dims);
    case WorkerFinishes(i) => g' := WorkerFinishesKeeps(source, st, st', i, g, n, dims);
  }

  lemma InitialInv(source: Source, n: nat, dims: nat)
    ensures Inv(source, Initial(), Logs([], [], []), n, dims)
  {
    hide Range, Rank, ShareOf, SumShares, Run, Put;
    var st, g := Initial(), Logs([], [], []);
    NothingRun();
    assert Range(source, 0, 0) == [] by { NoRange(source); }
    assert Accounted(source, st, g, n, dims);
    forall rank
      ensures Everything(source, st, g, rank) == ShareOf(Range(source, 0, |source|), rank)
    {
      NoShare(rank);
      assert WorkerShares(source, st, g, rank) == [];
    }
  }

  lemma NoRange(source: Source)
    ensures Range(source, 0, 0) == []
    ensures Range(source, |source|, |source|) == []
  {
  }

  lemma NothingRun()
    ensures Run([], []) == []
  {
  }

  lemma NoShare(rank: int)
    ensures ShareOf([], rank) == Share(0, 0.0) && SumShares([]) == Share(0, 0.0)
  {
  }

  /** Every state of every run satisfies the invariant. */
  lemma {:induction false} RunInv(source: Source, n: nat, run: seq<State>, dims: nat) returns (g: Logs)
    requires ValidSource(source, dims) && IsRun(source, n, run)
    ensures Inv(source, run[|run| - 1], g, n, dims)
    decreases |run|
  {
    hide Inv, Takes;
    if |run| == 1 {
      g := Logs([], [], []);
      InitialInv(source, n, dims);
    } else {
      var before := run[..|run| - 1];
      forall k | 0 < k < |before|
        ensures Follows(source, n, before[k - 1], before[k])
      {
        assert Follows(source, n, run[k - 1], run[k]);
      }
      var g0 := RunInv(source, n, before, dims);
      assert Follows(source, n, run[|run| - 2], run[|run| - 1]);
      var step :| Takes(source, n, run[|run| - 2], step, run[|run| - 1]);
      g := StepKeeps(source, run[|run| - 2], step, run[|run| - 1], g0, n, dims);
    }
  }

  /** When all is read and joined, all shares are in the logs of the main reader and of the finished workers. */
  lemma JoinedShare(source: Source, st: State, g: Logs, n: nat, dims: nat, rank: int)
    requires Inv(source, st, g, n, dims) && Joined(source, st)
    ensures ShareOf(g.main + g.thread, rank) == ShareOf(Range(source, 0, |source|), rank)
  {
    hide ShareOf, Run, Range, WorkerShare, Matches;
    MatchesAll(source, st, g, n, dims);
    assert Everything(source, st, g, rank) == ShareOf(Range(source, 0, |source|), rank);
    assert WorkerShares(source, st, g, rank) == [];
    NothingPending(source, st.main, g.main, rank);
    ShareConcat(g.main, g.thread, rank);
    NoRange(source);
    NoShare(rank);
  }

  /**
   * However the sources are split, in whatever order the readers proceed and finish, and with or
   * without a limit: the result is that of a single reader, and so is the map of the finished
   * workers if the main reader has no map of its own because it has read nothing.
   */
  lemma ParallelIsSequential(source: Source, n: nat, run: seq<State>, dims: nat)
    requires ValidSource(source, dims) && IsRun(source, n, run) && Joined(source, run[|run| - 1])
    ensures Delivered(run[|run| - 1], n) == Sequential(source, n)
    ensures var st := run[|run| - 1];
      !st.main.hasVals && st.threadStorage.Some? ==> st.threadStorage.value == Sequential(source, n)
  {
    hide ShareOf, Run, Range, ValidSource, Everything, SumShares, WorkerShare, Put, Rank;
    var st := run[|run| - 1];
    var g := RunInv(source, n, run, dims);
    var all := Range(source, 0, |source|);
    forall rank
      ensures ShareOf(g.main + g.thread, rank) == ShareOf(all, rank)
    {
      JoinedShare(source, st, g, n, dims, rank);
    }
    RangeGood(source, 0, |source|, dims);
    ValidConcat(g.main, g.thread, dims);
    SameShares(g.main + g.thread, all, dims);
    CappedIsLeast([], all, n);
    if st.threadStorage.Some? {
      MergeCapped(g.main, g.thread, n, dims);
      if !st.main.hasVals {
        assert g.main + g.thread == g.thread;
      }
    } else {
      assert g.main + g.thread == g.main;
    }
  }

  lemma {:induction false} RangeGood(source: Source, from: nat, end: nat, dims: nat)
    requires ValidSource(source, dims) && from <= end <= |source|
    ensures GoodLog(Range(source, from, end), dims)
    decreases end
  {
    if from < end {
      RangeGood(source, from, end - 1, dims);
      assert ValidOps(source[end - 1], dims) && OnlyAdds(source[end - 1]);
      ValidConcat(Range(source, from, end - 1), source[end - 1], dims);
    }
  }

  /** And the sequential result is the least part of the sums over all source values. */
  lemma SequentialSums(source: Source, n: nat, dims: nat, rank: int)
    requires ValidSource(source, dims)
    ensures Sequential(source, n) == Cap(Run([], Range(source, 0, |source|)), n)
    ensures var share := ShareOf(Range(source, 0, |source|), rank);
      Lookup(Run([], Range(source, 0, |source|)), rank) == if share.count == 0 then None else Some(share.sum)
  {
    hide Run, Range, Lookup, ShareOf, ValueAfter, ValidSource;
    var all := Range(source, 0, |source|);
    RangeGood(source, 0, |source|, dims);
    CappedIsLeast([], all, n);
    RunMeaning(all, dims, rank);
    ValueIsShare(all, rank);
  }
}
