/** Where an aggregation collects its results: an array for a small area, a map with a limit for all others. */
module ResultStorages {
  import opened Ids
  import opened Wrappers
  import opened Streams
  import opened CellMaps
  import opened PathIterators
  import opened HashStorages

  /** Areas with fewer cells get an array. */
  const ARRAY_CELLS: nat := 1000

  class ResultStorage {
    const dims: nat
    const cells: CellArrayMap?
    const hash: HashValueStorage?

    ghost function Memory(): set<object>
    {
      var map_: set<object> := if cells == null then {} else {cells};
      var arrays: set<object> := if hash == null then {} else {hash.results, hash.resultSet};
      map_ + arrays
    }

    ghost predicate Valid()
      reads Memory()
    {
      && (cells == null <==> hash != null)
      && (cells != null ==> cells.Valid() && cells.Limited() && cells.dims == dims)
      && (hash != null ==> hash.Valid() && hash.Consistent() && |hash.space| == dims)
    }

    /** The greatest number of results; 0 for no limit. */
    ghost function Limit(): nat
      reads Memory()
    {
      if cells == null then 0 else cells.maxCount
    }

    /** An array has room for the cells of its area only. */
    ghost predicate Accepts(key: Key)
    {
      ValidKey(key, dims) && (hash != null ==> KeyIn(hash.space, key))
    }

    /** What is stored is what the operations of the log amount to: all of it, or the least part up to the limit. */
    ghost predicate Holds(log: seq<Op>)
      requires Valid()
      reads Memory()
    {
      if hash != null then hash.Holds(log) else cells.entries == CappedRun([], log, cells.maxCount)
    }

    constructor InMap(dims: nat, limit: nat)
      ensures Valid() && Holds([]) && fresh(Memory()) && this.dims == dims && hash == null
      ensures cells != null && cells.maxCount == limit
    {
      var m := new CellArrayMap(dims);
      m.SetLimit(limit);
      this.dims, cells, hash := dims, m, null;
    }

    constructor InArray(storage: HashValueStorage)
      requires storage.Valid() && storage.Consistent() && storage.Holds([])
      ensures Valid() && Holds([]) && Memory() == {storage.results, storage.resultSet}
      ensures dims == |storage.space| && hash == storage
    {
      dims, cells, hash := |storage.space|, null, storage;
    }

    method Add(key: Key, value: real, ghost log: seq<Op>)
      requires Valid() && Holds(log) && Accepts(key)
      modifies Memory()
      ensures Valid() && Limit() == old(Limit()) && Holds(log + [Op.Add(key, value)])
    {
      hide Put, Cap, ValueAfter, Rank, KeyAt;
      if hash != null {
        hash.ApplyNext(Op.Add(key, value), log);
      } else {
        var _ := cells.Apply(Op.Add(key, value));
        assert (log + [Op.Add(key, value)])[..|log|] == log;
      }
    }
  }

  /** The storage for the results in an area; the limit leaves room for one cell more than is asked for. */
  method CreateStorage(space: Space, maxCount: nat) returns (storage: ResultStorage)
    requires space != [] && ValidSpace(space)
    ensures fresh(storage) && fresh(storage.Memory()) && storage.Valid() && storage.Holds([]) && storage.dims == |space|
    ensures storage.hash != null <==> Size(space) < ARRAY_CELLS
    ensures storage.hash != null ==> storage.hash.space == space
    ensures storage.cells != null ==> storage.cells.maxCount == if maxCount == 0 then 0 else maxCount + 1
  {
    hide Size, Rank, KeyAt;
    if Size(space) < ARRAY_CELLS {
      var r := CreateHashValueStorage(space);
      NothingAfter(space);
      storage := new ResultStorage.InArray(r.value);
    } else {
      storage := new ResultStorage.InMap(|space|, if maxCount == 0 then 0 else maxCount + 1);
    }
  }
}
