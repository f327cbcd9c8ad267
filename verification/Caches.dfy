/**
 * The value cache: a writer records what a query has read of an area under a rule, and queries
 * publish what they have recorded. Areas are kept per rule, but values for all rules together, so
 * that a cache tells the truth exactly as long as rules agree wherever they are recorded both.
 */
module Caches {
  import opened Ids
  import opened Wrappers
  import opened Ranges
  import opened Areas
  import opened SubCubes
  import opened CubeAreas
  import IdSets
  import opened Streams
  import opened CellMaps
  import opened Operands

  // ------------------------------------------------------------------------------------------
  // What is true
  // ------------------------------------------------------------------------------------------

  /** The non-empty cells a rule's source stream delivers; a number that is 0 is empty. */
  type Truth = map<Key, CellValue>

  /** What every rule delivers; NO_IDENTIFIER stands for plain aggregation. */
  type Truths = nat -> Truth

  ghost predicate ValidTruth(truth: Truth, dims: nat)
  {
    forall p :: p in truth ==> ValidKey(p, dims) && truth[p] != Null && (truth[p].IsNumeric() ==> IsNumber(truth[p]))
  }

  ghost predicate Occurs(cells: seq<Cell>, cell: Cell)
  {
    exists i :: 0 <= i < |cells| && cells[i] == cell
  }

  /** A sorted stream over an area delivers all its non-empty cells, and perhaps some empty ones. */
  ghost predicate Tells(truth: Truth, dims: nat, area: Area, cells: seq<Cell>)
  {
    && SortedCells(cells, dims)
    && (forall i :: 0 <= i < |cells| ==> InBox(area, cells[i].key))
    && (forall i :: 0 <= i < |cells| && cells[i].value != Null ==> cells[i].key in truth && truth[cells[i].key] == cells[i].value)
    && (forall p :: p in truth && InBox(area, p) ==> Occurs(cells, Cell(p, truth[p])))
  }

  /** Recorded areas per rule with the values recorded for all of them. */
  datatype Cache = Cache(storage: seq<Entry>, areas: RuleMap)

  /** The value kept for a cell, if any. */
  function ValueOf(es: seq<Entry>, p: Key): Option<real>
  {
    Lookup(es, Rank(p))
  }

  /** The cell reads as the source gives it: a number that is kept, or empty and missing. */
  ghost predicate ReadsAs(truth: Truth, es: seq<Entry>, p: Key)
  {
    if p in truth then truth[p].Numeric? && ValueOf(es, p) == Some(truth[p].value) else ValueOf(es, p) == None
  }

  /** Every recorded cell reads as the rule it is recorded under gives it. */
  ghost predicate TrueFor(truths: Truths, cache: Cache)
  {
    forall rule, p :: InAt(cache.areas, rule, p) ==> ReadsAs(truths(rule), cache.storage, p)
  }

  ghost predicate HasArea(areas: RuleMap, p: Key)
  {
    exists rule :: InAt(areas, rule, p)
  }

  /** Sorted values, nonempty areas, and no value of a cell that is recorded under no rule. */
  ghost predicate ValidCache(dims: nat, cache: Cache)
  {
    && SortedEntries(cache.storage, dims) && ValidMap(cache.areas, dims)
    && forall p :: ValidKey(p, dims) && ValueOf(cache.storage, p).Some? ==> HasArea(cache.areas, p)
  }

  /** Both rules give the cell the same value, or both none. */
  ghost predicate Agree(a: Truth, b: Truth, p: Key)
  {
    if p in a then p in b && a[p] == b[p] else p !in b
  }

  /** Wherever a rule of one cache and a rule of the other are both recorded, they agree. */
  ghost predicate RulesAgree(truths: Truths, a: RuleMap, b: RuleMap)
  {
    forall i, j, p :: InAt(a, i, p) && InAt(b, j, p) ==> Agree(truths(i), truths(j), p)
  }

  /** A true cache has no two rules that differ on a cell recorded under both. */
  lemma TrueAgrees(truths: Truths, cache: Cache)
    requires TrueFor(truths, cache)
    ensures RulesAgree(truths, cache.areas, cache.areas)
  {
    hide InAt, ValueOf;
    forall i, j, p | InAt(cache.areas, i, p) && InAt(cache.areas, j, p)
      ensures Agree(truths(i), truths(j), p)
    {
      assert ReadsAs(truths(i), cache.storage, p) && ReadsAs(truths(j), cache.storage, p);
    }
  }

  /** A cell of a valid area is a valid key. */
  lemma RecordedKey(areas: RuleMap, dims: nat, rule: nat, p: Key)
    requires ValidMap(areas, dims) && InAt(areas, rule, p)
    ensures ValidKey(p, dims)
  {
    hide InBox, ValidArea;
    var l := AreasOf(areas[rule]);
    var i :| 0 <= i < |l| && InBox(l[i], p);
    BoundedCell(l[i], dims, p);
  }

  // ------------------------------------------------------------------------------------------
  // Storing values and areas
  // ------------------------------------------------------------------------------------------

  function SetAll(es: seq<Entry>, vals: seq<Entry>): seq<Entry>
  {
    if vals == [] then es
    else
      var last := vals[|vals| - 1];
      Put(SetAll(es, vals[..|vals| - 1]), Op.Set(last.key, last.value))
  }

  /** After setting, a cell has its new value if there is one, and otherwise the old one. */
  lemma {:induction false} SetAllLookup(es: seq<Entry>, vals: seq<Entry>, dims: nat, rank: int)
    requires SortedEntries(es, dims) && SortedEntries(vals, dims)
    ensures SortedEntries(SetAll(es, vals), dims)
    ensures Lookup(SetAll(es, vals), rank) == if Lookup(vals, rank).Some? then Lookup(vals, rank) else Lookup(es, rank)
  {
    hide Rank, ValidKey, Put, Lookup;
    if vals == [] {
      LookupBelow([], rank);
    } else {
      var init, last := vals[..|vals| - 1], vals[|vals| - 1];
      assert vals == init + [last];
      SetAllLookup(es, init, dims, rank);
      PutSorted(SetAll(es, init), Op.Set(last.key, last.value), dims);
      PutLookup(SetAll(es, init), Op.Set(last.key, last.value), dims, rank);
      LookupConcat(init, [last], rank);
      LookupSingle(last, rank);
      assert forall i :: 0 <= i < |init| ==> init[i] == vals[i] && Rank(init[i].key) < Rank(last.key);
      if Rank(last.key) == rank && Lookup(init, rank).Some? {
        var i := LookupWitness(init, rank);
      }
    }
  }

  lemma LookupSingle(e: Entry, rank: int)
    ensures Lookup([e], rank) == if Rank(e.key) == rank then Some(e.value) else None
  {
    assert [e][1..] == [];
  }

  lemma {:induction false} LookupHere(es: seq<Entry>, i: nat, dims: nat)
    requires SortedEntries(es, dims) && i < |es|
    ensures Lookup(es, Rank(es[i].key)) == Some(es[i].value)
  {
    hide Rank, ValidKey;
    if i > 0 {
      assert Rank(es[0].key) < Rank(es[i].key);
      LookupHere(es[1..], i - 1, dims);
    }
  }

  /** The recorded areas of a rule, none if there are none yet. */
  function AreasOfRule(areas: RuleMap, rule: nat): seq<Ranked>
  {
    if rule in areas then areas[rule] else []
  }

  /** The cells of some areas more for one rule, nothing else changed. */
  ghost predicate GrownBy(before: RuleMap, rule: nat, ars: seq<Area>, after: RuleMap)
  {
    && after.Keys == before.Keys + {rule}
    && (forall k :: k in before && k != rule ==> after[k] == before[k])
    && (forall p :: InAt(after, rule, p) <==> InAt(before, rule, p) || InList(ars, p))
  }

  /** Puts areas into the list of a rule, which is created if there is none. */
  method InsertAreas(areas: RuleMap, rule: nat, ars: seq<Area>, ghost n: nat) returns (after: RuleMap)
    requires ValidMap(areas, n) && ValidList(ars, n)
    ensures ValidMap(after, n) && GrownBy(areas, rule, ars, after)
  {
    hide InBox, InList, ValidList, ValidArea, AreasOf, ValidRanked;
    NoCellsRanked(n);
    var currArea := new SubCubeList.Copy(AreasOfRule(areas, rule));
    NoArea();
    assert ars[..0] == [];
    for i := 0 to |ars|
      invariant currArea.Valid(n)
      invariant forall p :: InRanked(currArea.list, p) <==> InRanked(AreasOfRule(areas, rule), p) || InList(ars[..i], p)
    {
      ValidListAt(ars, n, i);
      currArea.InsertAndMerge(ars[i]);
      OneAreaMore(ars, i);
    }
    assert ars[..|ars|] == ars;
    after := areas[rule := currArea.list];
  }

  lemma OneAreaMore(ars: seq<Area>, i: nat)
    requires i < |ars|
    ensures forall p :: InList(ars[..i + 1], p) <==> InList(ars[..i], p) || InBox(ars[i], p)
  {
    hide InBox, InList;
    assert ars[..i + 1] == ars[..i] + [ars[i]];
    InListConcatAll(ars[..i], [ars[i]]);
    InListOneAll(ars[i]);
  }

  lemma NoArea()
    ensures forall p :: !InList([], p)
  {
  }

  /** What insert makes of a cache: more areas for a rule, and the values of all their non-empty cells. */
  ghost predicate Inserts(before: Cache, rule: nat, ars: seq<Area>, vals: seq<Entry>, after: Cache)
  {
    && after.storage == (if before.storage != [] then SetAll(before.storage, vals) else vals)
    && GrownBy(before.areas, rule, ars, after.areas)
  }

  function AsRanked(ars: seq<Area>): (l: seq<Ranked>)
    ensures AreasOf(l) == ars
  {
    seq(|ars|, i requires 0 <= i < |ars| => Ranked(AreaRank(ars[i]), ars[i]))
  }

  /** A recording is a cache with a single rule. */
  function OneRuleCache(rule: nat, ars: seq<Area>, vals: seq<Entry>): Cache
  {
    Cache(vals, map[rule := AsRanked(ars)])
  }

  lemma OneRuleAreas(rule: nat, ars: seq<Area>, vals: seq<Entry>)
    ensures forall k, p :: InAt(OneRuleCache(rule, ars, vals).areas, k, p) <==> k == rule && InList(ars, p)
  {
    hide InList;
  }

  // ------------------------------------------------------------------------------------------
  // Two caches together
  // ------------------------------------------------------------------------------------------

  /** The recorded areas of both, and the values of the second set over those of the first. */
  ghost predicate Overlaid(dims: nat, a: Cache, b: Cache, after: Cache)
  {
    && SortedEntries(after.storage, dims)
    && (forall p :: ValueOf(after.storage, p) == if ValueOf(b.storage, p).Some? then ValueOf(b.storage, p) else ValueOf(a.storage, p))
    && (forall rule, p :: InAt(after.areas, rule, p) <==> InAt(a.areas, rule, p) || InAt(b.areas, rule, p))
  }

  lemma OverlaidValid(dims: nat, a: Cache, b: Cache, after: Cache)
    requires ValidCache(dims, a) && ValidCache(dims, b) && Overlaid(dims, a, b, after) && ValidMap(after.areas, dims)
    ensures ValidCache(dims, after)
  {
    hide InAt, ValueOf, ValidKey, ValidMap, SortedEntries;
    forall p | ValidKey(p, dims) && ValueOf(after.storage, p).Some?
      ensures HasArea(after.areas, p)
    {
      var rule :| InAt(a.areas, rule, p) || InAt(b.areas, rule, p);
      assert InAt(after.areas, rule, p);
    }
  }

  /**
   * Two true caches make a true one if and only if their rules agree on all cells recorded in both:
   * otherwise the values of one hide those of the other.
   */
  lemma OverlaidTrue(truths: Truths, dims: nat, a: Cache, b: Cache, after: Cache)
    requires ValidCache(dims, a) && ValidCache(dims, b) && TrueFor(truths, a) && TrueFor(truths, b)
    requires Overlaid(dims, a, b, after)
    ensures TrueFor(truths, after) <==> RulesAgree(truths, a.areas, b.areas)
  {
    hide InAt, ValueOf, ValidKey, ReadsAs, Agree, ValidCache;
    if TrueFor(truths, after) {
      TrueAgrees(truths, after);
    }
    if RulesAgree(truths, a.areas, b.areas) {
      forall rule, p | InAt(after.areas, rule, p)
        ensures ReadsAs(truths(rule), after.storage, p)
      {
        OverlaidCell(truths, dims, a, b, after, rule, p);
      }
    }
  }

  lemma OverlaidCell(truths: Truths, dims: nat, a: Cache, b: Cache, after: Cache, rule: nat, p: Key)
    requires ValidCache(dims, a) && ValidCache(dims, b) && TrueFor(truths, a) && TrueFor(truths, b)
    requires Overlaid(dims, a, b, after) && RulesAgree(truths, a.areas, b.areas) && InAt(after.areas, rule, p)
    ensures ReadsAs(truths(rule), after.storage, p)
  {
    hide InAt, ValueOf, ValidKey, ValidMap;
    if InAt(b.areas, rule, p) {
      assert ReadsAs(truths(rule), b.storage, p);
      RecordedKey(b.areas, dims, rule, p);
      if ValueOf(b.storage, p).None? && ValueOf(a.storage, p).Some? {
        var i :| InAt(a.areas, i, p);
        assert ReadsAs(truths(i), a.storage, p) && Agree(truths(i), truths(rule), p);
      }
    } else {
      assert ReadsAs(truths(rule), a.storage, p);
      RecordedKey(a.areas, dims, rule, p);
      if ValueOf(b.storage, p).Some? {
        var j :| InAt(b.areas, j, p);
        assert ReadsAs(truths(j), b.storage, p) && Agree(truths(rule), truths(j), p);
      }
    }
  }

  lemma InsertsOverlays(dims: nat, before: Cache, rule: nat, ars: seq<Area>, vals: seq<Entry>, after: Cache)
    requires SortedEntries(before.storage, dims) && SortedEntries(vals, dims) && Inserts(before, rule, ars, vals, after)
    ensures Overlaid(dims, before, OneRuleCache(rule, ars, vals), after)
  {
    hide InList, InRanked, Rank, Lookup, SetAll, SortedEntries, OneRuleCache;
    OneRuleAreas(rule, ars, vals);
    OneRuleStorage(rule, ars, vals);
    SetAllLookup(before.storage, vals, dims, 0);
    forall p
      ensures ValueOf(after.storage, p) == if ValueOf(vals, p).Some? then ValueOf(vals, p) else ValueOf(before.storage, p)
    {
      SetAllLookup(before.storage, vals, dims, Rank(p));
      LookupBelow([], Rank(p));
    }
    forall k, p
      ensures InAt(after.areas, k, p) <==> InAt(before.areas, k, p) || (k == rule && InList(ars, p))
    {
    }
  }

  lemma OneRuleStorage(rule: nat, ars: seq<Area>, vals: seq<Entry>)
    ensures OneRuleCache(rule, ars, vals).storage == vals
  {
  }

  /** Areas with the values read of them: all their cells read as the source gives them, and there are no other values. */
  ghost predicate ReadingOf(truth: Truth, dims: nat, ars: seq<Area>, vals: seq<Entry>)
  {
    && ValidList(ars, dims) && SortedEntries(vals, dims)
    && (forall p :: InList(ars, p) ==> ReadsAs(truth, vals, p))
    && (forall p :: ValidKey(p, dims) && ValueOf(vals, p).Some? ==> InList(ars, p))
  }

  lemma ReadingTrue(truths: Truths, dims: nat, rule: nat, ars: seq<Area>, vals: seq<Entry>)
    requires ReadingOf(truths(rule), dims, ars, vals)
    ensures ValidCache(dims, OneRuleCache(rule, ars, vals)) && TrueFor(truths, OneRuleCache(rule, ars, vals))
  {
    hide InList, InRanked, ValueOf, ValidKey, ReadsAs, ValidArea, AreaRank;
    OneRuleAreas(rule, ars, vals);
    var rec := OneRuleCache(rule, ars, vals);
    assert forall p :: InList(ars, p) ==> InAt(rec.areas, rule, p);
    assert AreasOf(AsRanked(ars)) == ars;
  }

  /** Inserting what has been read under a rule keeps a cache true exactly if earlier rules agree on all common cells. */
  lemma InsertsTrue(truths: Truths, dims: nat, before: Cache, rule: nat, ars: seq<Area>, vals: seq<Entry>, after: Cache)
    requires ValidCache(dims, before) && TrueFor(truths, before) && Inserts(before, rule, ars, vals, after)
    requires ValidCache(dims, OneRuleCache(rule, ars, vals)) && TrueFor(truths, OneRuleCache(rule, ars, vals))
    ensures TrueFor(truths, after) <==> RulesAgree(truths, before.areas, OneRuleCache(rule, ars, vals).areas)
  {
    hide Inserts, Overlaid, TrueFor, RulesAgree, OneRuleCache;
    OneRuleStorage(rule, ars, vals);
    InsertsOverlays(dims, before, rule, ars, vals, after);
    OverlaidTrue(truths, dims, before, OneRuleCache(rule, ars, vals), after);
  }

  /**
   * A cell recorded for plain aggregation with 1, and then under a rule with 2: for aggregation the
   * cache now gives 2.
   */
  lemma ClashExample(truths: Truths, before: Cache, area: Area, p: Key, after: Cache)
    requires area == [RangeSet([Range(5, 5)], 1)] && p == [5]
    requires truths(NO_IDENTIFIER) == map[p := Numeric(1.0)] && truths(7) == map[p := Numeric(2.0)]
    requires before == OneRuleCache(NO_IDENTIFIER, [area], [Entry(p, 1.0)])
    requires Inserts(before, 7, [area], [Entry(p, 2.0)], after)
    ensures ValidCache(1, before) && TrueFor(truths, before)
    ensures ValidCache(1, OneRuleCache(7, [area], [Entry(p, 2.0)])) && TrueFor(truths, OneRuleCache(7, [area], [Entry(p, 2.0)]))
    ensures InAt(after.areas, NO_IDENTIFIER, p) && ValueOf(after.storage, p) == Some(2.0)
    ensures !TrueFor(truths, after)
  {
    OneCellRecorded(truths, NO_IDENTIFIER, area, p, 1.0);
    OneCellRecorded(truths, 7, area, p, 2.0);
    hide InList, InRanked, SortedEntries, Rank, Lookup, OneRuleCache, SetAll, ValidMap;
    OneRuleAreas(NO_IDENTIFIER, [area], [Entry(p, 1.0)]);
    OneRuleStorage(NO_IDENTIFIER, [area], [Entry(p, 1.0)]);
    OneRuleStorage(7, [area], [Entry(p, 2.0)]);
    InsertsOverlays(1, before, 7, [area], [Entry(p, 2.0)], after);
    assert InAt(before.areas, NO_IDENTIFIER, p);
    assert InAt(after.areas, NO_IDENTIFIER, p);
    assert !ReadsAs(truths(NO_IDENTIFIER), after.storage, p);
  }

  lemma OneCellRecorded(truths: Truths, rule: nat, area: Area, p: Key, x: real)
    requires area == [RangeSet([Range(5, 5)], 1)] && p == [5] && truths(rule) == map[p := Numeric(x)]
    ensures ValidCache(1, OneRuleCache(rule, [area], [Entry(p, x)])) && TrueFor(truths, OneRuleCache(rule, [area], [Entry(p, x)]))
    ensures InList([area], p) && ValueOf([Entry(p, x)], p) == Some(x) && SortedEntries([Entry(p, x)], 1)
  {
    hide Rank;
    var rec := OneRuleCache(rule, [area], [Entry(p, x)]);
    OneRuleAreas(rule, [area], [Entry(p, x)]);
    OneCellArea(area);
    InListOneAll(area);
    ValidOneArea(area);
    forall q
      ensures InBox(area, q) <==> q == p
    {
      OneCellOnly(area, q);
    }
    forall q | ValidKey(q, 1)
      ensures ValueOf([Entry(p, x)], q) == if q == p then Some(x) else None
    {
      LookupSingle(Entry(p, x), Rank(q));
      RankOrder(p, q, 1);
    }
    assert ValidKey(p, 1);
    assert InAt(rec.areas, rule, p);
    assert AreasOf(AsRanked([area])) == [area];
  }

  lemma OneCellArea(area: Area)
    requires area == [RangeSet([Range(5, 5)], 1)]
    ensures ValidArea(area)
  {
    assert [Range(5, 5)][..0] == [];
    assert Count([Range(5, 5)]) == 1;
  }

  lemma OneCellOnly(area: Area, q: Key)
    requires area == [RangeSet([Range(5, 5)], 1)]
    ensures InBox(area, q) <==> q == [5]
  {
    assert [Range(5, 5)][0] == Range(5, 5);
    assert In([Range(5, 5)], 5);
    assert forall x :: In([Range(5, 5)], x) ==> x == 5;
  }

  // ------------------------------------------------------------------------------------------
  // The cache of one query and its writers
  // ------------------------------------------------------------------------------------------

  class QueryCache {
    const keySize: nat
    const barrier: nat
    var inserted: seq<Entry>
    var areas: RuleMap

    /** Areas and values as they are published. */
    function State(): Cache
      reads this
    {
      Cache(inserted, areas)
    }

    ghost predicate Valid()
      reads this
    {
      keySize > 0 && ValidCache(keySize, State())
    }

    constructor (keySize: nat, barrier: nat)
      requires keySize > 0
      ensures Valid() && this.keySize == keySize && this.barrier == barrier && State() == Cache([], map[])
    {
      this.keySize, this.barrier, inserted, areas := keySize, barrier, [], map[];
    }

    /** insert: the areas of a rule and the values of all their non-empty cells. */
    method Insert(ruleId: nat, ars: seq<Area>, vals: seq<Entry>)
      requires Valid() && ValidList(ars, keySize) && SortedEntries(vals, keySize)
      requires forall p :: ValidKey(p, keySize) && ValueOf(vals, p).Some? ==> InList(ars, p)
      modifies this
      ensures Valid() && Inserts(old(State()), ruleId, ars, vals, State())
    {
      hide InList, InRanked, ValueOf, ValidKey, GrownBy, ValidList, SetAll, SortedEntries, HasArea, ValidRanked, OneRuleCache;
      ghost var before := State();
      areas := InsertAreas(areas, ruleId, ars, keySize);
      if inserted != [] {
        inserted := SetAll(inserted, vals);
      } else {
        inserted := vals;
      }
      OneRuleValid(keySize, ruleId, ars, vals);
      InsertsOverlays(keySize, before, ruleId, ars, vals, State());
      OverlaidValid(keySize, before, OneRuleCache(ruleId, ars, vals), State());
    }

    /**
     * getFilteredValues, read to its end: the kept values of the area's cells in key order. Of a
     * single cell without one the default value is delivered, if there is one; other areas never
     * get default values here.
     */
    method GetFilteredValues(area: Area, defaultValue: Option<CellValue>) returns (cells: seq<Cell>)
      requires Valid() && ValidArea(area) && |area| == keySize
      ensures SingleCell(area) && defaultValue.Some? && ValueOf(inserted, FirstCell(area)).None? ==>
        cells == [Cell(FirstCell(area), defaultValue.value)]
      ensures !(SingleCell(area) && defaultValue.Some? && ValueOf(inserted, FirstCell(area)).None?) ==>
        cells == Inside(area, CellsOf(inserted))
    {
      hide InBox, Rank, Lookup, ValidArea, ValidMap, HasArea, SortedEntries, SortedCells, Inside, FirstCell;
      AreaSets(area);
      if SingleCell(area) {
        var key := FirstCell(area);
        var val := ValueOf(inserted, key);
        SingleInside(keySize, area, inserted);
        cells := if val.Some? then [Cell(key, Number(val.value))] else if defaultValue.Some? then [Cell(key, defaultValue.value)] else [];
      } else {
        StoredCells(keySize, State());
        var input := new Stream(keySize, CellsOf(inserted));
        var s := new FilteredCellMapStream(input, area);
        cells := s.ReadAll();
      }
    }
  }

  lemma OneRuleValid(dims: nat, rule: nat, ars: seq<Area>, vals: seq<Entry>)
    requires ValidList(ars, dims) && SortedEntries(vals, dims)
    requires forall p :: ValidKey(p, dims) && ValueOf(vals, p).Some? ==> InList(ars, p)
    ensures ValidCache(dims, OneRuleCache(rule, ars, vals))
  {
    hide InList, InRanked, ValueOf, ValidKey, ValidArea, AreaRank;
    OneRuleAreas(rule, ars, vals);
    var rec := OneRuleCache(rule, ars, vals);
    assert forall p :: InList(ars, p) ==> InAt(rec.areas, rule, p);
    assert AreasOf(AsRanked(ars)) == ars;
  }

  /** What the first k cells of a stream hold has been kept, and nothing else. */
  ghost predicate Recorded(dims: nat, cells: seq<Cell>, k: int, es: seq<Entry>)
  {
    && SortedEntries(es, dims)
    && (forall i :: 0 <= i < k && i < |cells| && cells[i].value != Null ==>
          cells[i].value.Numeric? && ValueOf(es, cells[i].key) == Some(cells[i].value.value))
    && (forall p :: ValidKey(p, dims) && ValueOf(es, p).Some? ==> HeldBefore(cells, k, p))
  }

  /** One of the first k cells is this one, and is not empty. */
  ghost predicate HeldBefore(cells: seq<Cell>, k: int, p: Key)
  {
    exists i :: 0 <= i < k && i < |cells| && cells[i].key == p && cells[i].value != Null
  }

  class CacheWriteProcessor {
    const cache: QueryCache
    const area: Area
    const input: Stream
    const ruleId: nat
    const initSize: nat
    const beginKey: Key
    var inserted: Option<seq<Entry>>
    var finished: bool
    var nextCalled: bool
    var shared: bool

    /** What has been read so far has been recorded, as long as recording goes on. */
    ghost predicate Valid(truth: Truth)
      reads this, input, cache
    {
      && cache.Valid() && input.Valid() && input.dims == cache.keySize == |area| && ValidTruth(truth, cache.keySize)
      && ValidArea(area) && beginKey == FirstCell(area) && Tells(truth, cache.keySize, area, input.cells)
      && (finished && inserted.Some? ==> input.pos == |input.cells|)
      && (inserted.Some? && !shared ==>
            && (!nextCalled ==> input.pos == -1) && (!finished ==> input.pos < |input.cells|)
            && Recorded(cache.keySize, input.cells, input.pos + 1, inserted.value))
    }

    constructor (cache: QueryCache, area: Area, input: Stream, ruleId: nat, initSize: nat, ghost truth: Truth)
      requires cache.Valid() && input.Valid() && input.dims == cache.keySize == |area| && input.pos == -1
      requires ValidTruth(truth, cache.keySize) && ValidArea(area) && Tells(truth, cache.keySize, area, input.cells)
      ensures Valid(truth) && this.cache == cache && this.input == input && this.area == area
    {
      this.cache, this.area, this.input, this.ruleId, this.initSize := cache, area, input, ruleId, initSize;
      beginKey := FirstCell(area);
      inserted := if cache.barrier > 0 then Some([]) else None;
      finished, nextCalled, shared := false, false, false;
      NothingRecorded(cache.keySize, input.cells);
    }

    /**
     * onComplete: records the whole area if the stream has ended, and otherwise the part of it up
     * to the last key read; nothing if the values were not kept or the stream was not read.
     */
    method OnComplete(ghost truth: Truth) returns (ghost ars: seq<Area>)
      requires Valid(truth)
      modifies this`shared, cache
      ensures Valid(truth)
      ensures old(Recording()) ==>
        && Inserts(old(cache.State()), ruleId, ars, inserted.value, cache.State())
        && ReadingOf(truth, cache.keySize, ars, inserted.value) && forall p :: InList(ars, p) <==> ReadPart(p)
      ensures !old(Recording()) ==> cache.State() == old(cache.State())
      ensures shared <==> old(shared) || (inserted.Some? && nextCalled)
    {
      hide InList, InAt, InBox, ReadsAs, ValueOf, Tells, SortedCells, Rank, FirstCell, ValidKey, ValidArea, ValidMap,
        SetAll, ValidList, SplitsInto, SortedEntries, ValidCache, Inserts, Recorded, ValidTruth;
      ars := [];
      if inserted.Some? && !shared {
        if nextCalled {
          shared := true;
          if finished {
            WholeArea(truth, cache.keySize, area, input.cells, input.pos + 1, inserted.value);
            ars := [area];
            InListOneAll(area);
            ReadingFacts(truth, cache.keySize, ars, inserted.value);
            cache.Insert(ruleId, [area], inserted.value);
          } else {
            if input.pos == -1 {
              return;
            }
            var endKey := LastKey();
            KeyFacts(truth, cache.keySize, area, input.cells, input.pos);
            BoundsOfPart(area, cache.keySize, endKey);
            var result := Split(area, beginKey, endKey, 0);
            PartOfArea(truth, cache.keySize, area, input.cells, input.pos, endKey, inserted.value, result);
            ars := result;
            ReadingFacts(truth, cache.keySize, ars, inserted.value);
            cache.Insert(ruleId, result, inserted.value);
          }
        }
      }
    }

    /**
     * next: hands on the next cell and keeps its value; too many values, or one that is no number,
     * end the recording. At the end of the stream the area is recorded.
     */
    method Next(ghost truth: Truth) returns (ret: bool)
      requires Valid(truth)
      modifies this`inserted, this`nextCalled, this`finished, this`shared, input, cache
      ensures Valid(truth)
      ensures input.pos == (if old(input.pos) < |input.cells| then old(input.pos) + 1 else old(input.pos))
      ensures ret <==> input.pos < |input.cells|
      ensures ret || inserted.None? || old(shared) ==> cache.State() == old(cache.State())
      ensures !ret && inserted.Some? && !old(shared) ==>
        && ReadingOf(truth, cache.keySize, [area], inserted.value)
        && exists ars :: Inserts(old(cache.State()), ruleId, ars, inserted.value, cache.State()) && forall p :: InList(ars, p) <==> InBox(area, p)
      ensures inserted.Some? <==> old(inserted).Some? && (ret && input.GetValue() != Null ==>
        input.GetValue().Numeric? && initSize + |old(inserted).value| + 1 <= cache.barrier)
      ensures nextCalled && (finished <==> !ret) && (shared <==> old(shared) || (!ret && inserted.Some?))
    {
      hide InList, InBox, ReadsAs, ValueOf, Tells, SortedCells, Rank, FirstCell, ValidKey, ValidArea, Put, Lookup, ValidCache, Recorded,
        ValidTruth, Inserts;
      ret := input.Next();
      nextCalled := true;
      if ret && inserted.Some? {
        var v := input.GetValue();
        if v != Null {
          if initSize + |inserted.value| + 1 > cache.barrier {
            inserted := None;
          } else if v.Numeric? {
            if !shared {
              RecordedNext(truth, cache.keySize, area, input.cells, input.pos, inserted.value);
            }
            inserted := Some(Put(inserted.value, Op.Set(input.GetKey(), v.value)));
          } else {
            inserted := None;
          }
        } else if !shared {
          RecordedEmpty(cache.keySize, input.cells, input.pos, inserted.value);
        }
      }
      finished := !ret;
      if inserted.Some? && !ret && !shared {
        RecordedEnd(cache.keySize, input.cells, input.pos, inserted.value);
        WholeArea(truth, cache.keySize, area, input.cells, input.pos + 1, inserted.value);
      }
      if finished {
        ghost var ars := OnComplete(truth);
      }
    }

    /**
     * reset: reads from the begin again into an empty map; what has been recorded once keeps a
     * processor from ever recording again.
     */
    method Reset(ghost truth: Truth)
      requires Valid(truth)
      modifies this`inserted, this`nextCalled, this`finished, input
      ensures Valid(truth) && input.pos == -1 && !nextCalled && !finished && shared == old(shared)
      ensures inserted == if cache.barrier > 0 then Some([]) else None
    {
      hide Tells;
      if cache.barrier > 0 {
        inserted := Some([]);
      } else {
        inserted := None;
      }
      finished := false;
      nextCalled := false;
      input.Reset();
      NothingRecorded(cache.keySize, input.cells);
    }

    /** No cell of the input comes before the begin. */
    lemma BeginsFirst(truth: Truth)
      requires Valid(truth)
      ensures forall i :: 0 <= i < |input.cells| ==> Rank(beginKey) <= Rank(input.cells[i].key)
    {
      hide Rank, InBox, FirstCell, ValidArea, ValidKey, SortedCells, Recorded, SplitBounds, FromFirst;
      forall i | 0 <= i < |input.cells|
        ensures Rank(beginKey) <= Rank(input.cells[i].key)
      {
        KeyFacts(truth, cache.keySize, area, input.cells, i);
        FirstCellLeast(area, cache.keySize, input.cells[i].key);
      }
    }

    /**
     * move: to the begin of the area it counts as next; anywhere else the recording ends, and nothing
     * is recorded. A move to the begin that comes after one to another cell passes the cell the input
     * stands at; all other moves pass smaller keys only.
     */
    method Move(key: Key, ghost truth: Truth) returns (result: bool, found: bool)
      requires Valid(truth) && ValidKey(key, cache.keySize) && input.pos < |input.cells|
      modifies this`inserted, this`nextCalled, this`finished, this`shared, input, cache
      ensures Valid(truth) && old(input.pos) <= input.pos
      ensures result <==> input.pos < |input.cells|
      ensures result ==> input.pos >= 0 && Rank(key) <= Rank(input.cells[input.pos].key)
      ensures found <==> result && input.cells[input.pos].key == key
      ensures (forall j :: 0 <= j && old(input.pos) <= j < input.pos ==> Rank(input.cells[j].key) < Rank(key)) <==>
        old(nextCalled || key != beginKey || input.pos == -1)
      ensures old(!nextCalled && key == beginKey) ==> input.pos == old(input.pos) + 1
      ensures result || inserted.None? || old(shared) ==> cache.State() == old(cache.State())
      ensures !result && inserted.Some? && !old(shared) ==>
        && ReadingOf(truth, cache.keySize, [area], inserted.value)
        && exists ars :: Inserts(old(cache.State()), ruleId, ars, inserted.value, cache.State()) && forall p :: InList(ars, p) <==> InBox(area, p)
      ensures old(nextCalled || key != beginKey) ==>
        inserted.None? && nextCalled == old(nextCalled) && finished == old(finished) && shared == old(shared)
    {
      hide Tells, SortedCells, Rank, ReadingOf, InBox, InList, Inserts, ValidKey, FirstCell, ValidArea;
      BeginsFirst(truth);
      if !nextCalled && key == beginKey {
        ghost var was := input.pos;
        result := Next(truth);
        assert was >= 0 ==> Rank(input.cells[was].key) >= Rank(key) && was < input.pos;
        found := result && input.cells[input.pos].key == key;
      } else {
        inserted := None;
        result, found := input.Move(key);
      }
    }

    /** Moved away and back to the first cell of its area, a stream of two cells is said to have ended. */
    method MoveBackExample(ghost truth: Truth) returns (result: bool, found: bool)
      requires Valid(truth) && !nextCalled && input.pos == -1
      requires |input.cells| == 2 && input.cells[0].key == beginKey
      modifies this`inserted, this`nextCalled, this`finished, this`shared, input, cache
      ensures !result && !found
    {
      hide Rank, Recorded, ReadingOf, InBox, InList, FirstCell, ValidArea, ValidTruth, ValidCache;
      result, found := Move(input.cells[1].key, truth);
      result, found := Move(beginKey, truth);
    }

    /** Values are kept, nothing has been recorded of them yet, and something has been read. */
    ghost predicate Recording()
      reads this, input
    {
      inserted.Some? && !shared && nextCalled && (finished || 0 <= input.pos)
    }

    /** The part of the area that has been read: all of it at the end, else the cells up to the current key. */
    ghost predicate ReadPart(p: Key)
      reads this, input
    {
      InBox(area, p) && (finished || (0 <= input.pos < |input.cells| && Rank(p) <= Rank(input.cells[input.pos].key)))
    }

    /** The key of the input: the last one read, which has no more if it has ended. */
    method LastKey() returns (key: Key)
      requires input.Valid() && 0 <= input.pos < |input.cells|
      ensures key == input.cells[input.pos].key
    {
      key := input.GetKey();
    }
  }

  lemma NothingRecorded(dims: nat, cells: seq<Cell>)
    ensures Recorded(dims, cells, 0, [])
  {
  }

  lemma ReadingFacts(truth: Truth, dims: nat, ars: seq<Area>, vals: seq<Entry>)
    requires ReadingOf(truth, dims, ars, vals)
    ensures ValidList(ars, dims) && SortedEntries(vals, dims)
    ensures forall p :: ValidKey(p, dims) && ValueOf(vals, p).Some? ==> InList(ars, p)
  {
  }

  /** Whether a cell has been told empty or not, it reads so. */
  lemma CellTold(truth: Truth, dims: nat, area: Area, cells: seq<Cell>, k: int, es: seq<Entry>, p: Key)
    requires ValidTruth(truth, dims) && Tells(truth, dims, area, cells) && Recorded(dims, cells, k, es)
    requires InBox(area, p) && ValidKey(p, dims)
    requires forall i :: 0 <= i < |cells| && cells[i].key == p ==> i < k
    ensures ReadsAs(truth, es, p)
  {
    hide InBox, ValueOf, ValidKey, Rank;
    if p in truth {
      assert Occurs(cells, Cell(p, truth[p]));
      var i :| 0 <= i < |cells| && cells[i] == Cell(p, truth[p]);
      assert i < k;
    }
  }

  /** A stream read to its end has told everything about the area. */
  lemma WholeArea(truth: Truth, dims: nat, area: Area, cells: seq<Cell>, k: int, es: seq<Entry>)
    requires ValidTruth(truth, dims) && Tells(truth, dims, area, cells) && Recorded(dims, cells, k, es) && k >= |cells|
    requires ValidArea(area) && |area| == dims
    ensures ReadingOf(truth, dims, [area], es)
  {
    hide InBox, InList, ValueOf, ValidKey, ReadsAs, Rank;
    InListOneAll(area);
    ValidOneArea(area);
    forall p | InBox(area, p)
      ensures ReadsAs(truth, es, p)
    {
      BoundedCell(area, dims, p);
      CellTold(truth, dims, area, cells, k, es, p);
    }
  }

  lemma InListOneAll(area: Area)
    ensures forall p :: InList([area], p) <==> InBox(area, p)
  {
    hide InBox;
    assert [area][0] == area;
  }

  lemma ValidOneArea(area: Area)
    requires ValidArea(area)
    ensures ValidList([area], |area|)
  {
  }

  lemma KeyFacts(truth: Truth, dims: nat, area: Area, cells: seq<Cell>, i: int)
    requires Tells(truth, dims, area, cells) && 0 <= i < |cells|
    ensures InBox(area, cells[i].key) && ValidKey(cells[i].key, dims)
  {
  }

  /** From the first cell of an area to one of its cells: bounds a split accepts. */
  lemma BoundsOfPart(area: Area, dims: nat, endKey: Key)
    requires ValidArea(area) && |area| == dims && InBox(area, endKey) && ValidKey(endKey, dims)
    ensures SplitBounds(area, FirstCell(area), endKey, 0) && FromFirst(area, FirstCell(area), endKey, 0)
  {
    var start := FirstCell(area);
    forall i | 0 <= i < |area|
      ensures start[i] <= endKey[i] && start[i] <= NO_IDENTIFIER && First(area[i]) == start[i]
    {
      FirstLeast(area[i], endKey[i]);
    }
    PointwiseLexLe(start, endKey, 0);
  }

  lemma FirstCellLeast(area: Area, dims: nat, p: Key)
    requires ValidArea(area) && |area| == dims && InBox(area, p) && ValidKey(p, dims)
    ensures Rank(FirstCell(area)) <= Rank(p)
  {
    hide Rank;
    var start := FirstCell(area);
    forall i | 0 <= i < |area|
      ensures start[i] <= p[i] && start[i] <= NO_IDENTIFIER
    {
      FirstLeast(area[i], p[i]);
    }
    PointwiseLexLe(start, p, 0);
    RankOrder(start, p, dims);
  }

  lemma FirstLeast(s: RangeSet, x: int)
    requires s.Valid() && s.ranges != [] && In(s.ranges, x)
    ensures s.ranges[0].low <= x && s.ranges[0].low <= NO_IDENTIFIER
  {
    var i :| 0 <= i < |s.ranges| && s.ranges[i].low <= x <= s.ranges[i].high;
    assert i > 0 ==> s.ranges[0].high + 1 < s.ranges[i].low;
    assert Proper(s.ranges[0]);
  }

  /** A stream read up to a key has told everything about the cells up to it, which the split cuts out. */
  lemma PartOfArea(truth: Truth, dims: nat, area: Area, cells: seq<Cell>, pos: int, endKey: Key, es: seq<Entry>, part: seq<Area>)
    requires ValidTruth(truth, dims) && |area| == dims && ValidArea(area) && Tells(truth, dims, area, cells)
    requires 0 <= pos < |cells| && endKey == cells[pos].key && Recorded(dims, cells, pos + 1, es)
    requires SplitsInto(area, FirstCell(area), endKey, 0, part) && |endKey| == |area| && ValidList(part, dims)
    ensures ReadingOf(truth, dims, part, es)
    ensures forall p :: InList(part, p) <==> InBox(area, p) && Rank(p) <= Rank(endKey)
  {
    hide InBox, InList, SplitsInto, Lookup, Rank, ReadsAs, ValidList, ValidArea, Recorded;
    RecordedFacts(dims, cells, pos + 1, es);
    forall p
      ensures InList(part, p) <==> InBox(area, p) && Rank(p) <= Rank(endKey)
    {
      PartCells(truth, dims, area, cells, pos, part, p);
    }
    forall p | InList(part, p)
      ensures ReadsAs(truth, es, p)
    {
      BoundedCell(area, dims, p);
      PartTold(truth, dims, area, cells, pos, es, p);
    }
    forall p | ValidKey(p, dims) && ValueOf(es, p).Some?
      ensures InList(part, p)
    {
      var i :| 0 <= i <= pos && cells[i].key == p;
      KeyFacts(truth, dims, area, cells, i);
      OrderForth(cells, dims, i, pos);
    }
  }

  lemma RecordedFacts(dims: nat, cells: seq<Cell>, k: int, es: seq<Entry>)
    requires Recorded(dims, cells, k, es)
    ensures SortedEntries(es, dims)
    ensures forall p :: ValidKey(p, dims) && ValueOf(es, p).Some? ==> exists i :: 0 <= i < k && i < |cells| && cells[i].key == p
  {
    hide ValueOf, ValidKey;
  }

  lemma PartCells(truth: Truth, dims: nat, area: Area, cells: seq<Cell>, pos: int, part: seq<Area>, p: Key)
    requires ValidArea(area) && |area| == dims && Tells(truth, dims, area, cells) && 0 <= pos < |cells|
    requires SplitsInto(area, FirstCell(area), cells[pos].key, 0, part) && |cells[pos].key| == |area|
    ensures InList(part, p) <==> InBox(area, p) && Rank(p) <= Rank(cells[pos].key)
  {
    hide InBox, InList, SplitsInto, Rank, ValidArea;
    var endKey := cells[pos].key;
    AreaSets(area);
    SplitIsLexInterval(area, FirstCell(area), endKey, part, p);
    if InBox(area, p) {
      BoundedCell(area, dims, p);
      KeyFacts(truth, dims, area, cells, pos);
      RankOrder(p, endKey, dims);
      BoundsOfPart(area, dims, p);
    }
  }

  lemma PartTold(truth: Truth, dims: nat, area: Area, cells: seq<Cell>, pos: int, es: seq<Entry>, p: Key)
    requires ValidTruth(truth, dims) && Tells(truth, dims, area, cells) && 0 <= pos < |cells|
    requires Recorded(dims, cells, pos + 1, es) && InBox(area, p) && ValidKey(p, dims) && Rank(p) <= Rank(cells[pos].key)
    ensures ReadsAs(truth, es, p)
  {
    hide InBox, Rank, ValidKey, ReadsAs, Recorded;
    forall i | 0 <= i < |cells| && cells[i].key == p
      ensures i <= pos
    {
      OrderBack(cells, dims, i, pos);
    }
    CellTold(truth, dims, area, cells, pos + 1, es, p);
  }

  lemma OrderForth(cells: seq<Cell>, dims: nat, i: int, j: int)
    requires SortedCells(cells, dims) && 0 <= i <= j < |cells|
    ensures Rank(cells[i].key) <= Rank(cells[j].key)
  {
    hide Rank, ValidKey;
  }

  lemma OrderBack(cells: seq<Cell>, dims: nat, i: int, j: int)
    requires SortedCells(cells, dims) && 0 <= i < |cells| && 0 <= j < |cells| && Rank(cells[i].key) <= Rank(cells[j].key)
    ensures i <= j
  {
    hide Rank, ValidKey;
  }

  lemma BoundedCell(area: Area, dims: nat, p: Key)
    requires ValidArea(area) && |area| == dims && InBox(area, p)
    ensures ValidKey(p, dims)
  {
    forall i | 0 <= i < dims
      ensures p[i] <= NO_IDENTIFIER
    {
      var s := area[i];
      assert In(s.ranges, p[i]);
      var j :| 0 <= j < |s.ranges| && s.ranges[j].low <= p[i] <= s.ranges[j].high;
      assert Proper(s.ranges[j]);
    }
  }

  lemma RecordedNext(truth: Truth, dims: nat, area: Area, cells: seq<Cell>, pos: int, es: seq<Entry>)
    requires Tells(truth, dims, area, cells) && Recorded(dims, cells, pos, es)
    requires 0 <= pos < |cells| && cells[pos].value.Numeric?
    ensures Recorded(dims, cells, pos + 1, Put(es, Op.Set(cells[pos].key, cells[pos].value.value)))
  {
    hide InBox, Lookup, Put, Rank, ValidKey;
    var op := Op.Set(cells[pos].key, cells[pos].value.value);
    KeyFacts(truth, dims, area, cells, pos);
    PutSorted(es, op, dims);
    forall i | 0 <= i <= pos && cells[i].value != Null
      ensures cells[i].value.Numeric? && ValueOf(Put(es, op), cells[i].key) == Some(cells[i].value.value)
    {
      PutLookup(es, op, dims, Rank(cells[i].key));
      KeyFacts(truth, dims, area, cells, i);
      OrderForth(cells, dims, i, pos);
      assert i < pos ==> Rank(cells[i].key) < Rank(cells[pos].key);
    }
    forall p | ValidKey(p, dims) && ValueOf(Put(es, op), p).Some?
      ensures HeldBefore(cells, pos + 1, p)
    {
      PutLookup(es, op, dims, Rank(p));
      RankOrder(p, op.key, dims);
      if Rank(p) != Rank(op.key) {
        assert HeldBefore(cells, pos, p);
      }
    }
  }

  lemma RecordedEmpty(dims: nat, cells: seq<Cell>, pos: int, es: seq<Entry>)
    requires Recorded(dims, cells, pos, es) && 0 <= pos < |cells| && cells[pos].value == Null
    ensures Recorded(dims, cells, pos + 1, es)
  {
    hide ValueOf, ValidKey;
    assert forall p :: HeldBefore(cells, pos, p) ==> HeldBefore(cells, pos + 1, p);
  }

  lemma RecordedEnd(dims: nat, cells: seq<Cell>, pos: int, es: seq<Entry>)
    requires exists k :: k >= |cells| && Recorded(dims, cells, k, es)
    requires pos + 1 >= |cells|
    ensures Recorded(dims, cells, pos + 1, es)
  {
    hide ValueOf, ValidKey;
    var k :| k >= |cells| && Recorded(dims, cells, k, es);
    assert forall p :: HeldBefore(cells, k, p) ==> HeldBefore(cells, pos + 1, p);
  }

  // ------------------------------------------------------------------------------------------
  // Publishing
  // ------------------------------------------------------------------------------------------

  /** The recorded areas of two caches together, rule by rule. */
  ghost predicate MergedAreas(snapshot: RuleMap, areas: RuleMap, after: RuleMap)
  {
    after.Keys == snapshot.Keys + areas.Keys && forall rule, p :: InAt(after, rule, p) <==> InAt(snapshot, rule, p) || InAt(areas, rule, p)
  }

  /** What a query's cache makes of a snapshot of the value cache; nothing if it has recorded nothing. */
  ghost predicate Published(dims: nat, snapshot: Cache, query: Cache, after: Cache)
  {
    if query.areas == map[] then after == snapshot
    else
      && after.storage == (if query.storage != [] then SetAll(snapshot.storage, query.storage) else snapshot.storage)
      && MergedAreas(snapshot.areas, query.areas, after.areas) && ValidMap(after.areas, dims)
  }

  /** The destructor of a query's cache, between the two sections: the lists of common rules are merged. */
  method Publish(dims: nat, snapshot: Cache, query: Cache) returns (after: Cache)
    requires ValidMap(snapshot.areas, dims) && ValidMap(query.areas, dims)
    ensures Published(dims, snapshot, query, after)
  {
    hide InRanked, ValidRanked, AreasOf;
    if query.areas == map[] {
      return snapshot;
    }
    var storage := snapshot.storage;
    if query.storage != [] {
      storage := SetAll(storage, query.storage);
    }
    var curr, rules := snapshot.areas, query.areas.Keys;
    while rules != {}
      invariant rules <= query.areas.Keys && ValidMap(curr, dims)
      invariant curr.Keys == snapshot.areas.Keys + (query.areas.Keys - rules)
      invariant forall rule :: rule in rules && rule in snapshot.areas ==> curr[rule] == snapshot.areas[rule]
      invariant forall rule, p :: InAt(curr, rule, p) <==>
        InAt(snapshot.areas, rule, p) || (rule !in rules && InAt(query.areas, rule, p))
      decreases rules
    {
      var rule :| rule in rules;
      rules := rules - {rule};
      ghost var was := curr;
      if rule in curr {
        ValidAreasOf(query.areas, dims, rule);
        curr := InsertAreas(curr, rule, AreasOf(query.areas[rule]), dims);
        GrownByList(was, rule, query.areas[rule], curr);
      } else {
        curr := curr[rule := query.areas[rule]];
      }
    }
    after := Cache(storage, curr);
  }

  lemma ValidAreasOf(areas: RuleMap, dims: nat, rule: nat)
    requires ValidMap(areas, dims) && rule in areas
    ensures ValidList(AreasOf(areas[rule]), dims)
  {
  }

  lemma GrownByList(before: RuleMap, rule: nat, l: seq<Ranked>, after: RuleMap)
    requires GrownBy(before, rule, AreasOf(l), after)
    ensures after.Keys == before.Keys + {rule}
    ensures forall k :: k in before && k != rule ==> after[k] == before[k]
    ensures forall k, p :: InAt(after, k, p) <==> InAt(before, k, p) || (k == rule && InRanked(l, p))
  {
    hide InList, AreasOf;
  }

  lemma PublishedOverlays(dims: nat, snapshot: Cache, query: Cache, after: Cache)
    requires SortedEntries(snapshot.storage, dims) && SortedEntries(query.storage, dims)
    requires query.areas != map[] && Published(dims, snapshot, query, after)
    ensures Overlaid(dims, snapshot, query, after) && ValidMap(after.areas, dims)
  {
    hide InAt, Rank, Lookup, SetAll, SortedEntries, ValidMap;
    SetAllLookup(snapshot.storage, query.storage, dims, 0);
    forall p
      ensures ValueOf(after.storage, p) == if ValueOf(query.storage, p).Some? then ValueOf(query.storage, p) else ValueOf(snapshot.storage, p)
    {
      SetAllLookup(snapshot.storage, query.storage, dims, Rank(p));
      LookupBelow([], Rank(p));
    }
  }

  /**
   * Publishing keeps the value cache true exactly if the rules of the query agree with those of the
   * snapshot on all common cells.
   */
  lemma PublishedTrue(truths: Truths, dims: nat, snapshot: Cache, query: Cache, after: Cache)
    requires ValidCache(dims, snapshot) && ValidCache(dims, query) && TrueFor(truths, snapshot) && TrueFor(truths, query)
    requires query.areas != map[] && Published(dims, snapshot, query, after)
    ensures TrueFor(truths, after) <==> RulesAgree(truths, snapshot.areas, query.areas)
  {
    hide Overlaid, TrueFor, RulesAgree, Published;
    PublishedOverlays(dims, snapshot, query, after);
    OverlaidTrue(truths, dims, snapshot, query, after);
  }

  /** The value cache with the caches of all queries, and the snapshots those have taken to publish. */
  datatype Sharing = Sharing(cache: Cache, queries: seq<Cache>, snapshots: seq<Option<Cache>>)

  /**
   * A query records what it has read of an area. Publishing is two critical sections: one to read
   * the value cache, a later one to replace it.
   */
  datatype Step = Record(i: nat, rule: nat, ars: seq<Area>, vals: seq<Entry>) | TakeSnapshot(i: nat) | Replace(i: nat)

  ghost predicate Takes(truths: Truths, dims: nat, s: Sharing, step: Step, s': Sharing)
  {
    && |s.queries| == |s.snapshots| && step.i < |s.queries|
    && match step
       case Record(i, rule, ars, vals) =>
         && ReadingOf(truths(rule), dims, ars, vals)
         && |s'.queries| == |s.queries| && s' == s.(queries := s.queries[i := s'.queries[i]])
         && Inserts(s.queries[i], rule, ars, vals, s'.queries[i]) && ValidMap(s'.queries[i].areas, dims)
       case TakeSnapshot(i) => s' == s.(snapshots := s.snapshots[i := Some(s.cache)])
       case Replace(i) =>
         && s.snapshots[i].Some?
         && Published(dims, s.snapshots[i].value, s.queries[i], s'.cache)
         && s' == s.(cache := s'.cache, snapshots := s.snapshots[i := None])
  }

  /** One of the caches of the state. */
  ghost predicate OneOf(s: Sharing, c: Cache)
  {
    c == s.cache || c in s.queries || Some(c) in s.snapshots
  }

  ghost predicate AllValid(dims: nat, s: Sharing)
  {
    forall c :: OneOf(s, c) ==> ValidCache(dims, c)
  }

  ghost predicate AllTrue(truths: Truths, s: Sharing)
  {
    forall c :: OneOf(s, c) ==> TrueFor(truths, c)
  }

  /** No cache has two rules recorded for a cell on which they differ. */
  ghost predicate AllAgree(truths: Truths, s: Sharing)
  {
    forall c :: OneOf(s, c) ==> RulesAgree(truths, c.areas, c.areas)
  }

  ghost predicate Run(truths: Truths, dims: nat, run: seq<Sharing>, steps: seq<Step>)
  {
    |run| == |steps| + 1 && forall k :: 0 <= k < |steps| ==> Takes(truths, dims, run[k], steps[k], run[k + 1])
  }

  /** A step leaves at most one cache that was not there before, made of two that were valid. */
  lemma StepValid(truths: Truths, dims: nat, s: Sharing, step: Step, s': Sharing)
    requires AllValid(dims, s) && Takes(truths, dims, s, step, s')
    ensures AllValid(dims, s')
  {
    hide ValidCache, Published, Inserts, ReadingOf, ValidMap;
    match step
    case Record(i, rule, ars, vals) =>
      assert OneOf(s, s.queries[i]);
      ReadingTrue(truths, dims, rule, ars, vals);
      InsertedValid(dims, s.queries[i], rule, ars, vals, s'.queries[i]);
      forall c | OneOf(s', c)
        ensures ValidCache(dims, c)
      {
        assert OneOf(s, c) || c == s'.queries[i];
      }
    case TakeSnapshot(i) =>
      assert OneOf(s, s.cache);
      forall c | OneOf(s', c)
        ensures ValidCache(dims, c)
      {
        assert OneOf(s, c);
      }
    case Replace(i) =>
      assert OneOf(s, s.queries[i]);
      assert Some(s.snapshots[i].value) in s.snapshots && OneOf(s, s.snapshots[i].value);
      PublishedValid(dims, s.snapshots[i].value, s.queries[i], s'.cache);
      forall c | OneOf(s', c)
        ensures ValidCache(dims, c)
      {
        assert OneOf(s, c) || c == s'.cache;
      }
  }

  lemma InsertedValid(dims: nat, before: Cache, rule: nat, ars: seq<Area>, vals: seq<Entry>, after: Cache)
    requires ValidCache(dims, before) && ValidCache(dims, OneRuleCache(rule, ars, vals))
    requires Inserts(before, rule, ars, vals, after) && ValidMap(after.areas, dims)
    ensures ValidCache(dims, after)
  {
    hide Inserts, Overlaid, OneRuleCache, ValidMap, HasArea;
    OneRuleStorage(rule, ars, vals);
    InsertsOverlays(dims, before, rule, ars, vals, after);
    OverlaidValid(dims, before, OneRuleCache(rule, ars, vals), after);
  }

  lemma PublishedValid(dims: nat, snapshot: Cache, query: Cache, after: Cache)
    requires ValidCache(dims, snapshot) && ValidCache(dims, query) && Published(dims, snapshot, query, after)
    ensures ValidCache(dims, after)
  {
    hide Overlaid, ValidMap, HasArea, SetAll;
    if query.areas != map[] {
      PublishedOverlays(dims, snapshot, query, after);
      OverlaidValid(dims, snapshot, query, after);
    }
  }

  /** One step from true caches leads to true caches exactly if the rules of all caches agree afterwards. */
  lemma StepTrue(truths: Truths, dims: nat, s: Sharing, step: Step, s': Sharing)
    requires AllValid(dims, s) && AllTrue(truths, s) && Takes(truths, dims, s, step, s')
    ensures AllTrue(truths, s') <==> AllAgree(truths, s')
  {
    hide ValidCache, Published, Inserts, ReadingOf, ValidMap, TrueFor, RulesAgree;
    if AllTrue(truths, s') {
      forall c | OneOf(s', c)
        ensures RulesAgree(truths, c.areas, c.areas)
      {
        TrueAgrees(truths, c);
      }
    }
    if AllAgree(truths, s') {
      forall c | OneOf(s', c)
        ensures TrueFor(truths, c)
      {
        match step
        case Record(i, rule, ars, vals) =>
          assert OneOf(s, s.queries[i]);
          assert OneOf(s, c) || c == s'.queries[i];
          ReadingTrue(truths, dims, rule, ars, vals);
          if c == s'.queries[i] {
            InsertedAgree(truths, s.queries[i], rule, ars, vals, c);
            InsertsTrue(truths, dims, s.queries[i], rule, ars, vals, c);
          }
        case TakeSnapshot(i) =>
          assert OneOf(s, s.cache);
          assert OneOf(s, c);
        case Replace(i) =>
          assert OneOf(s, s.queries[i]);
          assert Some(s.snapshots[i].value) in s.snapshots && OneOf(s, s.snapshots[i].value);
          assert OneOf(s, c) || c == s'.cache;
          if c == s'.cache {
            PublishedStaysTrue(truths, dims, s.snapshots[i].value, s.queries[i], c);
          }
      }
    }
  }

  lemma InsertedAgree(truths: Truths, before: Cache, rule: nat, ars: seq<Area>, vals: seq<Entry>, after: Cache)
    requires Inserts(before, rule, ars, vals, after) && RulesAgree(truths, after.areas, after.areas)
    ensures RulesAgree(truths, before.areas, OneRuleCache(rule, ars, vals).areas)
  {
    hide InList, InRanked, Agree, OneRuleCache, SetAll;
    OneRuleAreas(rule, ars, vals);
    forall i, j, p | InAt(before.areas, i, p) && InAt(OneRuleCache(rule, ars, vals).areas, j, p)
      ensures Agree(truths(i), truths(j), p)
    {
      assert InAt(after.areas, i, p) && InAt(after.areas, j, p);
    }
  }

  lemma PublishedStaysTrue(truths: Truths, dims: nat, snapshot: Cache, query: Cache, after: Cache)
    requires ValidCache(dims, snapshot) && ValidCache(dims, query) && TrueFor(truths, snapshot) && TrueFor(truths, query)
    requires Published(dims, snapshot, query, after) && RulesAgree(truths, after.areas, after.areas)
    ensures TrueFor(truths, after)
  {
    hide InAt, Agree, SetAll, ValidMap, ValidCache, TrueFor;
    if query.areas != map[] {
      forall i, j, p | InAt(snapshot.areas, i, p) && InAt(query.areas, j, p)
        ensures Agree(truths(i), truths(j), p)
      {
        assert InAt(after.areas, i, p) && InAt(after.areas, j, p);
      }
      PublishedTrue(truths, dims, snapshot, query, after);
    }
  }

  /**
   * Over any run, in every interleaving and with updates lost between the two sections: all caches
   * are true all the time if and only if no cache ever has two rules recorded for a cell on which
   * they differ.
   */
  lemma {:induction false} RunTrueExactly(truths: Truths, dims: nat, run: seq<Sharing>, steps: seq<Step>)
    requires Run(truths, dims, run, steps) && AllValid(dims, run[0]) && AllTrue(truths, run[0])
    ensures forall k :: 0 <= k < |run| ==> AllValid(dims, run[k])
    ensures (forall k :: 0 <= k < |run| ==> AllTrue(truths, run[k])) <==> (forall k :: 0 <= k < |run| ==> AllAgree(truths, run[k]))
    decreases |steps|
  {
    hide AllTrue, AllAgree, AllValid, Takes;
    TrueStateAgrees(truths, run[0]);
    if steps != [] {
      var n := |steps| - 1;
      var init := run[..n + 1];
      RunTrueExactly(truths, dims, init, steps[..n]);
      assert forall k :: 0 <= k <= n ==> init[k] == run[k];
      assert AllValid(dims, init[n]) && Takes(truths, dims, run[n], steps[n], run[n + 1]);
      StepValid(truths, dims, run[n], steps[n], run[n + 1]);
      if AllTrue(truths, run[n]) {
        StepTrue(truths, dims, run[n], steps[n], run[n + 1]);
      }
    }
  }

  lemma TrueStateAgrees(truths: Truths, s: Sharing)
    requires AllTrue(truths, s)
    ensures AllAgree(truths, s)
  {
    hide TrueFor, RulesAgree;
    forall c | OneOf(s, c)
      ensures RulesAgree(truths, c.areas, c.areas)
    {
      TrueAgrees(truths, c);
    }
  }

  // A condition on what is recorded

  /** The cells a rule may be recorded for. */
  type Scope = (nat, Key) -> bool

  ghost predicate WithinScope(may: Scope, areas: RuleMap)
  {
    forall rule, p :: InAt(areas, rule, p) ==> may(rule, p)
  }

  ghost predicate AllWithin(may: Scope, s: Sharing)
  {
    forall c :: OneOf(s, c) ==> WithinScope(may, c.areas)
  }

  /** Whatever is recorded in the course of the run is in scope. */
  ghost predicate RecordsWithin(may: Scope, steps: seq<Step>)
  {
    forall k, p :: 0 <= k < |steps| && steps[k].Record? && InList(steps[k].ars, p) ==> may(steps[k].rule, p)
  }

  /** Rules that may be recorded for the same cell agree on it. */
  ghost predicate Consistent(truths: Truths, may: Scope)
  {
    forall i, j, p :: may(i, p) && may(j, p) ==> Agree(truths(i), truths(j), p)
  }

  lemma StepWithin(truths: Truths, may: Scope, dims: nat, s: Sharing, step: Step, s': Sharing)
    requires AllWithin(may, s) && Takes(truths, dims, s, step, s')
    requires step.Record? ==> forall p :: InList(step.ars, p) ==> may(step.rule, p)
    ensures AllWithin(may, s')
  {
    hide InList, InRanked, ReadingOf, ValidMap, SetAll;
    forall c | OneOf(s', c)
      ensures WithinScope(may, c.areas)
    {
      match step
      case Record(i, rule, ars, vals) =>
        assert OneOf(s, s.queries[i]);
        assert OneOf(s, c) || c == s'.queries[i];
        if c == s'.queries[i] {
          InsertedWithin(may, s.queries[i].areas, rule, ars, c.areas);
        }
      case TakeSnapshot(i) =>
        assert OneOf(s, s.cache);
        assert OneOf(s, c);
      case Replace(i) =>
        assert OneOf(s, s.queries[i]);
        assert Some(s.snapshots[i].value) in s.snapshots && OneOf(s, s.snapshots[i].value);
        assert OneOf(s, c) || c == s'.cache;
        if c == s'.cache {
          PublishedWithin(may, dims, s.snapshots[i].value, s.queries[i], c);
        }
    }
  }

  lemma InsertedWithin(may: Scope, before: RuleMap, rule: nat, ars: seq<Area>, after: RuleMap)
    requires WithinScope(may, before) && GrownBy(before, rule, ars, after) && forall p :: InList(ars, p) ==> may(rule, p)
    ensures WithinScope(may, after)
  {
    hide InList, InRanked;
    forall k, p | InAt(after, k, p)
      ensures may(k, p)
    {
      assert k != rule ==> InAt(before, k, p);
    }
  }

  lemma PublishedWithin(may: Scope, dims: nat, snapshot: Cache, query: Cache, after: Cache)
    requires WithinScope(may, snapshot.areas) && WithinScope(may, query.areas) && Published(dims, snapshot, query, after)
    ensures WithinScope(may, after.areas)
  {
    hide InAt, SetAll, ValidMap;
  }

  lemma {:induction false} RunWithin(truths: Truths, may: Scope, dims: nat, run: seq<Sharing>, steps: seq<Step>)
    requires Run(truths, dims, run, steps) && AllWithin(may, run[0]) && RecordsWithin(may, steps)
    ensures forall k :: 0 <= k < |run| ==> AllWithin(may, run[k])
    decreases |steps|
  {
    hide AllWithin, Takes, InList;
    if steps != [] {
      var n := |steps| - 1;
      var init := run[..n + 1];
      RunWithin(truths, may, dims, init, steps[..n]);
      assert forall k :: 0 <= k <= n ==> init[k] == run[k];
      assert AllWithin(may, init[n]) && Takes(truths, dims, run[n], steps[n], run[n + 1]);
      StepWithin(truths, may, dims, run[n], steps[n], run[n + 1]);
    }
  }

  /**
   * If rules that may be recorded for the same cell agree on it, all caches stay true in every
   * interleaving.
   */
  lemma SharingStaysTrue(truths: Truths, may: Scope, dims: nat, run: seq<Sharing>, steps: seq<Step>)
    requires Run(truths, dims, run, steps) && AllValid(dims, run[0]) && AllTrue(truths, run[0])
    requires AllWithin(may, run[0]) && RecordsWithin(may, steps) && Consistent(truths, may)
    ensures forall k :: 0 <= k < |run| ==> AllValid(dims, run[k]) && AllTrue(truths, run[k]) && AllWithin(may, run[k])
  {
    hide AllTrue, AllValid, Run, InList;
    RunWithin(truths, may, dims, run, steps);
    forall k | 0 <= k < |run|
      ensures AllAgree(truths, run[k])
    {
      WithinAgrees(truths, may, run[k]);
    }
    RunTrueExactly(truths, dims, run, steps);
  }

  lemma WithinAgrees(truths: Truths, may: Scope, s: Sharing)
    requires AllWithin(may, s) && Consistent(truths, may)
    ensures AllAgree(truths, s)
  {
    hide InAt, Agree;
  }

  // ------------------------------------------------------------------------------------------
  // Reading the values of a query
  // ------------------------------------------------------------------------------------------

  lemma AreaSets(area: Area)
    requires ValidArea(area)
    ensures forall d :: 0 <= d < |area| ==> area[d].Valid() && area[d].ranges != []
  {
  }

  predicate SingleCell(area: Area)
  {
    forall d :: 0 <= d < |area| ==> area[d].siz == 1
  }

  /** The stored values as a stream of cells. */
  function CellsOf(es: seq<Entry>): (cells: seq<Cell>)
    ensures |cells| == |es| && forall i :: 0 <= i < |es| ==> cells[i] == Cell(es[i].key, Numeric(es[i].value))
  {
    seq(|es|, i requires 0 <= i < |es| => Cell(es[i].key, Numeric(es[i].value)))
  }

  /** The cells that lie in the area, read as numbers. */
  function Inside(area: Area, cells: seq<Cell>): seq<Cell>
    requires forall i :: 0 <= i < |cells| ==> cells[i].value.IsNumeric()
  {
    if cells == [] then []
    else
      var before, last := Inside(area, cells[..|cells| - 1]), cells[|cells| - 1];
      if InBox(area, last.key) then before + [Cell(last.key, Number(last.value.GetNumeric()))] else before
  }

  lemma {:induction false} InsideSame(area: Area, cells: seq<Cell>, m: nat, n: nat)
    requires m <= n <= |cells| && forall i :: 0 <= i < |cells| ==> cells[i].value.IsNumeric()
    requires forall i :: m <= i < n ==> !InBox(area, cells[i].key)
    ensures Inside(area, cells[..n]) == Inside(area, cells[..m])
  {
    hide InBox;
    if m < n {
      InsideSame(area, cells, m, n - 1);
      assert cells[..n][..n - 1] == cells[..n - 1];
    }
  }

  lemma InsideNone(area: Area, cells: seq<Cell>)
    requires forall i :: 0 <= i < |cells| ==> cells[i].value.IsNumeric()
    ensures Inside(area, cells[..0]) == []
  {
  }

  lemma InsideNext(area: Area, cells: seq<Cell>, m: nat, n: nat)
    requires m <= n < |cells| && forall i :: 0 <= i < |cells| ==> cells[i].value.IsNumeric()
    requires InBox(area, cells[n].key) && forall i :: m <= i < n ==> !InBox(area, cells[i].key)
    ensures Inside(area, cells[..n + 1]) == Inside(area, cells[..m]) + [Cell(cells[n].key, Number(cells[n].value.GetNumeric()))]
  {
    hide InBox, Number;
    InsideSame(area, cells, m, n);
    assert cells[..n + 1][..n] == cells[..n];
  }

  /** The cells inside are in order, and a cell is among them exactly if it lies in the area and is in the list. */
  lemma {:induction false} InsideCells(area: Area, es: seq<Entry>, dims: nat)
    requires SortedEntries(es, dims)
    ensures SortedCells(Inside(area, CellsOf(es)), dims)
    ensures forall i :: 0 <= i < |Inside(area, CellsOf(es))| ==> InsideCell(area, es, Inside(area, CellsOf(es))[i])
    ensures forall j :: 0 <= j < |es| && InBox(area, es[j].key) ==>
      Occurs(Inside(area, CellsOf(es)), Cell(es[j].key, Number(es[j].value)))
  {
    hide InBox, Rank, ValidKey, Number, Inside, InsideCell, SortedCells, Occurs;
    if es == [] {
      NothingInside(area, dims);
    } else {
      var init, last := es[..|es| - 1], es[|es| - 1];
      InsideCells(area, init, dims);
      InsideStep(area, es);
      var before, after := Inside(area, CellsOf(init)), Inside(area, CellsOf(es));
      forall i | 0 <= i < |before|
        ensures InsideCell(area, es, before[i]) && Rank(before[i].key) < Rank(last.key)
      {
        InsideInit(area, es, dims, before[i]);
      }
      if InBox(area, last.key) {
        LastInside(area, es, dims, before);
      } else {
        assert after == before;
      }
      forall j | 0 <= j < |es| && InBox(area, es[j].key)
        ensures Occurs(after, Cell(es[j].key, Number(es[j].value)))
      {
        if j < |init| {
          assert es[j] == init[j];
          OccursLonger(before, after, Cell(es[j].key, Number(es[j].value)));
        } else {
          OccursHere(after, |after| - 1);
        }
      }
    }
  }

  lemma NothingInside(area: Area, dims: nat)
    ensures Inside(area, CellsOf([])) == [] && SortedCells([], dims)
  {
  }

  lemma InsideStep(area: Area, es: seq<Entry>)
    requires es != []
    ensures var last := es[|es| - 1];
      Inside(area, CellsOf(es)) == Inside(area, CellsOf(es[..|es| - 1]))
        + if InBox(area, last.key) then [Cell(last.key, Number(last.value))] else []
  {
    hide InBox, Number;
    assert CellsOf(es)[..|es| - 1] == CellsOf(es[..|es| - 1]);
  }

  lemma InsideInit(area: Area, es: seq<Entry>, dims: nat, cell: Cell)
    requires SortedEntries(es, dims) && es != [] && InsideCell(area, es[..|es| - 1], cell)
    ensures InsideCell(area, es, cell) && Rank(cell.key) < Rank(es[|es| - 1].key)
  {
    hide InBox, Rank, ValidKey, Number;
    var init := es[..|es| - 1];
    var j :| 0 <= j < |init| && cell == Cell(init[j].key, Number(init[j].value)) && InBox(area, init[j].key);
    assert es[j] == init[j];
  }

  lemma LastInside(area: Area, es: seq<Entry>, dims: nat, before: seq<Cell>)
    requires SortedEntries(es, dims) && es != [] && InBox(area, es[|es| - 1].key) && SortedCells(before, dims)
    requires forall i :: 0 <= i < |before| ==> Rank(before[i].key) < Rank(es[|es| - 1].key)
    ensures var cell := Cell(es[|es| - 1].key, Number(es[|es| - 1].value));
      SortedCells(before + [cell], dims) && InsideCell(area, es, cell)
  {
    hide InBox, Rank, ValidKey, Number;
  }

  lemma OccursLonger(a: seq<Cell>, b: seq<Cell>, cell: Cell)
    requires Occurs(a, cell) && |a| <= |b| && a == b[..|a|]
    ensures Occurs(b, cell)
  {
    var i :| 0 <= i < |a| && a[i] == cell;
    assert b[i] == cell;
  }

  lemma OccursHere(a: seq<Cell>, i: int)
    requires 0 <= i < |a|
    ensures Occurs(a, a[i])
  {
  }

  ghost predicate InsideCell(area: Area, es: seq<Entry>, cell: Cell)
  {
    exists j :: 0 <= j < |es| && cell == Cell(es[j].key, Number(es[j].value)) && InBox(area, es[j].key)
  }

  /**
   * What is read of a recorded area is what the rule's source tells of it: the recording undoes the
   * evaluation, and nothing but its empty cells is missing.
   */
  lemma CachedStream(truths: Truths, dims: nat, cache: Cache, rule: nat, area: Area)
    requires ValidCache(dims, cache) && TrueFor(truths, cache) && ValidTruth(truths(rule), dims)
    requires ValidArea(area) && |area| == dims && forall p :: InBox(area, p) ==> InAt(cache.areas, rule, p)
    ensures Tells(truths(rule), dims, area, Inside(area, CellsOf(cache.storage)))
    ensures forall i :: 0 <= i < |Inside(area, CellsOf(cache.storage))| ==> Inside(area, CellsOf(cache.storage))[i].value.Numeric?
  {
    hide InBox, InAt, Rank, Lookup, ValidKey, ValidArea, ValidMap, Number, HasArea, Inside;
    var truth, es := truths(rule), cache.storage;
    var cells := Inside(area, CellsOf(es));
    InsideCells(area, es, dims);
    forall p | InBox(area, p)
      ensures ReadsAs(truth, es, p)
    {
      assert InAt(cache.areas, rule, p);
    }
    forall i | 0 <= i < |cells|
      ensures InBox(area, cells[i].key) && cells[i].value.Numeric?
      ensures cells[i].key in truth && truth[cells[i].key] == cells[i].value
    {
      assert InsideCell(area, es, cells[i]);
      var j :| 0 <= j < |es| && cells[i] == Cell(es[j].key, Number(es[j].value)) && InBox(area, es[j].key);
      LookupHere(es, j, dims);
      assert ReadsAs(truth, es, es[j].key);
    }
    forall p | p in truth && InBox(area, p)
      ensures Occurs(cells, Cell(p, truth[p]))
    {
      assert ReadsAs(truth, es, p);
      var j := LookupWitness(es, Rank(p));
      BoundedCell(area, dims, p);
      EntryKey(es, dims, j, p);
    }
  }

  lemma EntryKey(es: seq<Entry>, dims: nat, j: nat, p: Key)
    requires SortedEntries(es, dims) && j < |es| && ValidKey(p, dims) && Rank(es[j].key) == Rank(p)
    ensures es[j].key == p
  {
    RankOrder(es[j].key, p, dims);
  }

  /** Stored values are of recorded cells, whose ids are elements. */
  lemma StoredCells(dims: nat, cache: Cache)
    requires ValidCache(dims, cache)
    ensures SortedCells(CellsOf(cache.storage), dims)
    ensures forall i :: 0 <= i < |CellsOf(cache.storage)| ==>
      forall d :: 0 <= d < dims ==> CellsOf(cache.storage)[i].key[d] != NO_IDENTIFIER
  {
    hide Rank, Lookup, InAt, ValidMap;
    var es := cache.storage;
    forall i | 0 <= i < |es|
      ensures forall d :: 0 <= d < dims ==> es[i].key[d] != NO_IDENTIFIER
    {
      LookupHere(es, i, dims);
      assert ValueOf(es, es[i].key).Some?;
      var rule :| InAt(cache.areas, rule, es[i].key);
      RecordedIds(cache.areas, dims, rule, es[i].key);
    }
  }

  lemma RecordedIds(areas: RuleMap, dims: nat, rule: nat, p: Key)
    requires ValidMap(areas, dims) && InAt(areas, rule, p)
    ensures |p| == dims && forall d :: 0 <= d < dims ==> p[d] != NO_IDENTIFIER
  {
    hide InBox, ValidArea;
    var l := AreasOf(areas[rule]);
    var i :| 0 <= i < |l| && InBox(l[i], p);
    BoxWidth(l[i], p);
    AllBoxBounds(l[i], p);
  }

  /** Of an area of one cell, at most that cell is inside. */
  lemma SingleInside(dims: nat, area: Area, es: seq<Entry>)
    requires SortedEntries(es, dims) && ValidArea(area) && |area| == dims && SingleCell(area)
    ensures var key := FirstCell(area);
      Inside(area, CellsOf(es)) == if ValueOf(es, key).Some? then [Cell(key, Number(ValueOf(es, key).value))] else []
  {
    hide InBox, Rank, Lookup, ValidKey, ValidArea, Number, Inside, FirstCell;
    AreaSets(area);
    var key, cells := FirstCell(area), Inside(area, CellsOf(es));
    InsideCells(area, es, dims);
    FirstCellIn(area);
    BoundedCell(area, dims, key);
    forall i | 0 <= i < |cells|
      ensures cells[i].key == key && ValueOf(es, key).Some? && cells[i].value == Number(ValueOf(es, key).value)
    {
      assert InsideCell(area, es, cells[i]);
      var j :| 0 <= j < |es| && cells[i] == Cell(es[j].key, Number(es[j].value)) && InBox(area, es[j].key);
      OnlyCell(area, es[j].key);
      LookupHere(es, j, dims);
    }
    if ValueOf(es, key).Some? {
      var j := LookupWitness(es, Rank(key));
      EntryKey(es, dims, j, key);
      assert Occurs(cells, Cell(key, Number(es[j].value)));
      assert cells != [];
    }
    OneKeyOnce(cells, dims, key);
    assert |cells| == 1 ==> cells == [cells[0]];
  }

  lemma OneKeyOnce(cells: seq<Cell>, dims: nat, key: Key)
    requires SortedCells(cells, dims) && forall i :: 0 <= i < |cells| ==> cells[i].key == key
    ensures |cells| <= 1
  {
    var n := |cells| - 1;
    assert n < 0 || cells[n].key == cells[0].key;
  }

  lemma OnlyCell(area: Area, p: Key)
    requires ValidArea(area) && SingleCell(area) && InBox(area, p)
    ensures p == FirstCell(area)
  {
    forall d | 0 <= d < |area|
      ensures p[d] == area[d].ranges[0].low
    {
      assert area[d].Valid() && In(area[d].ranges, p[d]);
      OnlyId(area[d], p[d]);
    }
  }

  lemma OnlyId(s: RangeSet, x: int)
    requires s.Valid() && s.siz == 1 && s.ranges != [] && In(s.ranges, x)
    ensures x == s.ranges[0].low
  {
    CountIsCardinality(s.ranges);
    CanonicalAt(s.ranges, 0);
    InFirst(s.ranges, s.ranges[0].low);
    SameMember(Members(s.ranges), x, s.ranges[0].low);
  }

  lemma SameMember(ids: set<int>, x: int, y: int)
    requires |ids| == 1 && x in ids && y in ids
    ensures x == y
  {
    var rest := ids - {x};
    assert |rest| == 0;
    assert y !in rest;
  }

  /** FilteredCellMapStream: the cells of a stream that lie in an area. */
  class FilteredCellMapStream {
    const input: Stream
    const filter: Area
    var lastId: seq<nat>
    var lastTest: seq<bool>

    /** Remembered tests are those of the ids remembered with them. */
    ghost predicate Valid()
      reads this, input
    {
      && input.Valid() && input.dims == |filter| == |lastId| == |lastTest|
      && (forall d :: 0 <= d < |filter| ==> filter[d].Valid())
      && (forall i :: 0 <= i < |input.cells| ==> forall d :: 0 <= d < input.dims ==> input.cells[i].key[d] != NO_IDENTIFIER)
      && (forall d :: 0 <= d < |filter| && lastId[d] != NO_IDENTIFIER ==> (lastTest[d] <==> In(filter[d].ranges, lastId[d])))
    }

    constructor (input: Stream, filter: Area)
      requires input.Valid() && input.dims == |filter| && forall d :: 0 <= d < |filter| ==> filter[d].Valid()
      requires forall i :: 0 <= i < |input.cells| ==> forall d :: 0 <= d < input.dims ==> input.cells[i].key[d] != NO_IDENTIFIER
      ensures Valid() && this.input == input && this.filter == filter
    {
      this.input, this.filter := input, filter;
      lastId, lastTest := seq(|filter|, _ => NO_IDENTIFIER), seq(|filter|, _ => false);
    }

    /** Whether the current key lies in the area; an id that has not changed is not looked up again. */
    method Test(key: Key) returns (inside: bool)
      requires Valid() && |key| == |filter| && forall d :: 0 <= d < |key| ==> key[d] != NO_IDENTIFIER
      modifies this
      ensures Valid()
      ensures inside <==> InBox(filter, key)
    {
      hide In, SortedCells;
      for dimOrdinal := 0 to |key|
        invariant Valid() && forall d :: 0 <= d < dimOrdinal ==> In(filter[d].ranges, key[d])
      {
        if key[dimOrdinal] != lastId[dimOrdinal] {
          var test := FindElement(filter[dimOrdinal], key[dimOrdinal]);
          lastId := lastId[dimOrdinal := key[dimOrdinal]];
          lastTest := lastTest[dimOrdinal := test];
        }
        if !lastTest[dimOrdinal] {
          return false;
        }
      }
      inside := true;
    }

    /** next: on to the next cell of the input that lies in the area. */
    method Next() returns (result: bool)
      requires Valid() && input.pos < |input.cells|
      modifies this, input
      ensures Valid() && input.pos >= old(input.pos) && (result <==> input.pos < |input.cells|)
      ensures result ==> input.pos > old(input.pos) && InBox(filter, input.cells[input.pos].key)
      ensures forall i :: old(input.pos) < i < input.pos ==> 0 <= i < |input.cells| && !InBox(filter, input.cells[i].key)
    {
      hide InBox, In, SortedCells;
      var more := input.Next();
      while more
        invariant Valid() && (more <==> input.pos < |input.cells|) && input.pos > old(input.pos)
        invariant forall i :: old(input.pos) < i < input.pos ==> 0 <= i < |input.cells| && !InBox(filter, input.cells[i].key)
        decreases |input.cells| - input.pos
      {
        KeyLength(input);
        var inside := Test(input.GetKey());
        if inside {
          return true;
        }
        more := input.Next();
      }
      result := false;
    }

    /** getValue: the double of the current cell, which is empty if it is 0. */
    function GetValue(): CellValue
      requires 0 <= input.pos < |input.cells| && input.GetValue().IsNumeric()
      reads this, input
    {
      Number(input.GetValue().GetNumeric())
    }

    /** The whole stream: exactly the cells of the input that lie in the area, in order. */
    method ReadAll() returns (cells: seq<Cell>)
      requires Valid() && input.pos == -1 && forall i :: 0 <= i < |input.cells| ==> input.cells[i].value.IsNumeric()
      modifies this, input
      ensures cells == Inside(filter, input.cells)
    {
      hide InBox, In, SortedCells, Number, Inside;
      cells := [];
      ghost var done := 0;
      InsideNone(filter, input.cells);
      var more := Next();
      while more
        invariant Valid() && (more <==> input.pos < |input.cells|) && 0 <= done <= |input.cells| && done <= input.pos
        invariant cells == Inside(filter, input.cells[..done])
        invariant more ==> InBox(filter, input.cells[input.pos].key)
        invariant forall i :: done <= i < input.pos ==> 0 <= i < |input.cells| && !InBox(filter, input.cells[i].key)
        decreases |input.cells| - done
      {
        InsideNext(filter, input.cells, done, input.pos);
        cells := cells + [Cell(input.GetKey(), GetValue())];
        done := input.pos + 1;
        more := Next();
      }
      InsideSame(filter, input.cells, done, |input.cells|);
      assert input.cells[..|input.cells|] == input.cells;
    }
  }

  lemma KeyLength(s: Stream)
    requires s.Valid() && 0 <= s.pos < |s.cells|
    ensures |s.cells[s.pos].key| == s.dims
  {
  }

  /** Whether a set contains an id. */
  method FindElement(s: RangeSet, id: nat) returns (found: bool)
    requires s.Valid()
    ensures found <==> In(s.ranges, id)
  {
    hide In;
    var p := IdSets.Find(s.ranges, id);
    found := p.At?;
  }
}
