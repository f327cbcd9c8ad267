/** createPlan: the shortcut for base cells, and what the base area of an aggregation is read from. */
module Plans {
  import opened Ids
  import opened Wrappers
  import opened Areas
  import opened SubCubes
  import opened TypeSplit
  import opened Planner

  // ------------------------------------------------------------------------------------------
  // The shortcut
  // ------------------------------------------------------------------------------------------

  /** Only base cells, no rules and no empty cells are asked for: the sources filter the whole area. */
  predicate Shortcut(q: Query, f: NodeFilter, indirect: bool, skipEmpty: bool)
  {
    f.baseOnly && !q.direct && !indirect && skipEmpty
  }

  predicate WantedSource(f: NodeFilter, kind: NodeKind)
  {
    (kind == StringSource && f.baseStrings) || (kind == NumericSource && f.baseNumeric)
  }

  /** createPlan: sources over the whole area if the shortcut applies, and otherwise the plan that splits it. */
  method CreatePlan(q: Query, f: NodeFilter, indirect: bool, skipEmpty: bool) returns (nodes: seq<PlanNode>)
    requires ValidQuery(q)
    ensures Shortcut(q, f, indirect, skipEmpty) ==>
      forall kind, p :: InNode(nodes, kind, p) <==> WantedSource(f, kind) && InBox(q.area, p)
    ensures !Shortcut(q, f, indirect, skipEmpty) ==>
      NodesOk(q, nodes) && forall kind, p :: InNode(nodes, kind, p) <==> Due(q, f, kind, p)
    ensures forall kind, p :: Due(q, f, kind, p) ==> InNode(nodes, kind, p)
    ensures forall kind, p :: kind != StringSource && kind != NumericSource ==> (InNode(nodes, kind, p) <==> Due(q, f, kind, p))
    ensures indirect || !skipEmpty ==> forall kind, p :: InNode(nodes, kind, p) <==> Due(q, f, kind, p)
  {
    hide InBox, InNode, NodesOk, Due, ValidQuery;
    if f.baseOnly && !q.direct && !indirect && skipEmpty {
      nodes := [];
      NothingIn();
      if f.baseStrings {
        InNodeAppend(nodes, PlanNode(StringSource, q.area));
        nodes := nodes + [PlanNode(StringSource, q.area)];
      }
      if f.baseNumeric {
        InNodeAppend(nodes, PlanNode(NumericSource, q.area));
        nodes := nodes + [PlanNode(NumericSource, q.area)];
      }
      forall kind, p | Due(q, f, kind, p)
        ensures WantedSource(f, kind) && InBox(q.area, p)
      {
        DueUnderShortcut(q, f, indirect, skipEmpty, kind, p);
      }
    } else {
      nodes := PlanBySplitting(q, f);
    }
  }

  /** Where the shortcut applies, no cell is due in anything but a source that is wanted. */
  lemma DueUnderShortcut(q: Query, f: NodeFilter, indirect: bool, skipEmpty: bool, kind: NodeKind, p: Key)
    requires Shortcut(q, f, indirect, skipEmpty) && Due(q, f, kind, p)
    ensures WantedSource(f, kind) && InBox(q.area, p)
  {
    hide InBox, ToStrings, ToNumerics, ToConsolidated, HitWithin, Taken, Recorded;
    KindInBox(q, p);
    KindsExclusive(q.dims, q.aggregates, q.area, p);
  }

  lemma NothingIn()
    ensures forall kind, p :: !InNode([], kind, p)
  {
  }

  /** What a cube has stored: strings and numbers, each for cells of the type. */
  datatype Stored = Stored(strings: iset<Key>, numbers: iset<Key>)

  ghost predicate StoredByType(q: Query, stored: Stored)
  {
    && (forall p :: p in stored.strings ==> TypeOf(q.dims, q.aggregates, p) == Success(BaseString))
    && (forall p :: p in stored.numbers ==> TypeOf(q.dims, q.aggregates, p) == Success(BaseNumeric))
  }

  /** Some source of the plan delivers the stored cell. */
  ghost predicate Delivered(nodes: seq<PlanNode>, stored: Stored, p: Key)
  {
    (InNode(nodes, StringSource, p) && p in stored.strings) || (InNode(nodes, NumericSource, p) && p in stored.numbers)
  }

  /**
   * The plan with the shortcut delivers the same stored cells as the one that splits the area, and
   * there is nothing but sources in the latter either.
   */
  lemma ShortcutDeliversSame(q: Query, f: NodeFilter, indirect: bool, skipEmpty: bool, stored: Stored,
                             short: seq<PlanNode>, full: seq<PlanNode>, p: Key)
    requires |q.dims| == |q.area| && StoredByType(q, stored) && Shortcut(q, f, indirect, skipEmpty)
    requires forall kind, p :: InNode(short, kind, p) <==> WantedSource(f, kind) && InBox(q.area, p)
    requires forall kind, p :: InNode(full, kind, p) <==> Due(q, f, kind, p)
    ensures Delivered(short, stored, p) <==> Delivered(full, stored, p)
    ensures forall kind :: InNode(full, kind, p) ==> WantedSource(f, kind)
  {
    hide InBox, InNode, ToStrings, ToNumerics, ToConsolidated, HitWithin, Taken, Recorded, StringFirst, KnownCell, HasConsolidated;
    if InBox(q.area, p) {
      KindOfCell(q.dims, q.aggregates, q.area, p);
    }
    KindInBox(q, p);
    KindsExclusive(q.dims, q.aggregates, q.area, p);
  }

  lemma KindInBox(q: Query, p: Key)
    ensures ToStrings(q.dims, q.area, p) || ToNumerics(q.dims, q.aggregates, q.area, p) ==> InBox(q.area, p)
  {
  }

  // ------------------------------------------------------------------------------------------
  // What evaluates a cell
  // ------------------------------------------------------------------------------------------

  /** The first active rule for cells of the type that writes to the cell evaluates it; of the caches, those of the rule come first. */
  lemma RuledKind(q: Query, t: CellType, k: nat, p: Key)
    requires |q.dims| == |q.area| && InBox(q.area, p) && TypeOf(q.dims, q.aggregates, p) == Success(t)
    requires q.direct && q.start <= k < |q.rules|
    requires q.rules[k].active && q.rules[k].destination.Some? && Matches(q.rules[k].destination.value, p)
    requires q.rules[k].option == NoOption || q.rules[k].option == (if t == ConsolidatedCell then ConsolidationOption else BaseOption)
    requires forall i :: q.start <= i < k && q.rules[i].active && q.rules[i].destination.Some? && Matches(q.rules[i].destination.value, p) ==>
      q.rules[i].option == if t == ConsolidatedCell then BaseOption else ConsolidationOption
    ensures
      var id := q.rules[k].id;
      Rightful(q,
        if t != BaseString && q.useCache && InAt(q.cache, id, p) then CacheNode(id)
        else if t != BaseString && q.useCache && InAt(q.queryCache, id, p) then QueryCacheNode(id)
        else RuleNode(
          match t
          case BaseString => StringRules
          case ConsolidatedCell => ConsolidatedRules
          case BaseNumeric => if q.rules[k].hasMarkers then MarkedRules else NumericRules, id),
        p)
  {
    hide InBox, InAt, ToStrings, ToNumerics, ToConsolidated, HitWithin, FirstHit, Taken, RuleHits, Matches, TypeOf, Kept;
    KindOfType(q, t, p);
    TakenByFields(q.rules, BaseOption, q.start, true);
    TakenByFields(q.rules, BaseOption, q.start, false);
    TakenByFields(q.rules, ConsolidationOption, q.start, true);
  }

  /** A cell no such rule writes to is read from the source of its type, or aggregated unless a cache has it. */
  lemma UnruledKind(q: Query, t: CellType, p: Key)
    requires |q.dims| == |q.area| && InBox(q.area, p) && TypeOf(q.dims, q.aggregates, p) == Success(t)
    requires q.direct ==> forall i ::
      q.start <= i < |q.rules| && q.rules[i].active && q.rules[i].destination.Some? && Matches(q.rules[i].destination.value, p) ==>
        q.rules[i].option == if t == ConsolidatedCell then BaseOption else ConsolidationOption
    ensures Rightful(q,
      match t
      case BaseString => StringSource
      case BaseNumeric => NumericSource
      case ConsolidatedCell =>
        if q.useCache && InAt(q.cache, NO_IDENTIFIER, p) then CacheNode(NO_IDENTIFIER)
        else if q.useCache && InAt(q.queryCache, NO_IDENTIFIER, p) then QueryCacheNode(NO_IDENTIFIER)
        else Aggregation,
      p)
  {
    hide InBox, InAt, ToStrings, ToNumerics, ToConsolidated, FirstHit, Taken, Matches, TypeOf, Kept;
    KindOfType(q, t, p);
  }

  lemma KindOfType(q: Query, t: CellType, p: Key)
    requires |q.dims| == |q.area| && InBox(q.area, p) && TypeOf(q.dims, q.aggregates, p) == Success(t)
    ensures if t == BaseString then StringCell(q, p) else if t == BaseNumeric then NumericCell(q, p) else ConsCell(q, p)
  {
    hide InBox, ToStrings, ToNumerics, ToConsolidated, TypeOf;
    KindOfCell(q.dims, q.aggregates, q.area, p);
    TypeInAreas(q, p);
  }

  // ------------------------------------------------------------------------------------------
  // The inner plan of an aggregation
  // ------------------------------------------------------------------------------------------

  /** The base area of an aggregation: rules compute what they hit, and the rest is read from the source. */
  method ExpandAggregation(base: Area, rules: seq<Rule>, start: nat, indirect: bool)
      returns (baseAreas: seq<Ranked>, baseRulesAreas: RuleMap)
    requires ValidArea(base) && ValidRules(rules, |base|) && start <= |rules|
    ensures ValidRanked(baseAreas, |base|) && PairwiseDisjoint(AreasOf(baseAreas)) && MapPartition(baseRulesAreas, |base|)
    ensures forall p :: InRanked(baseAreas, p) <==>
      InBox(base, p) && !(indirect && HitWithin(rules, BaseOption, start, |rules|, p))
    ensures forall id, p :: InAt(baseRulesAreas, id, p) <==>
      InBox(base, p) && indirect && Taken(rules, BaseOption, start, |rules|, id, false, true, p)
  {
    hide InBox, InList, PairwiseDisjoint, ValidList, ValidArea, AreasOf, InRanked, ValidRanked, MapPartition, InAt, HitWithin, Taken,
      ValidRules;
    var rank := GetRank(base);
    baseAreas := [Ranked(rank, base)];
    OneRanked(base, rank);
    EmptyMap(|base|);
    var rulesAreas := new RulesAreas();
    if indirect {
      var result;
      baseAreas, result := ExtractRules(baseAreas, |base|, rules, BaseOption, start, rulesAreas, rulesAreas);
    }
    baseRulesAreas := rulesAreas.m;
  }

  lemma OneRanked(a: Area, rank: nat)
    requires ValidArea(a) && rank == AreaRank(a)
    ensures ValidRanked([Ranked(rank, a)], |a|) && PairwiseDisjoint(AreasOf([Ranked(rank, a)]))
    ensures forall p :: InRanked([Ranked(rank, a)], p) <==> InBox(a, p)
  {
    hide InBox, AreaRank;
    assert AreasOf([Ranked(rank, a)]) == [a];
    AreaAlone(a);
  }

  /** No base cell goes into an aggregate twice, and none is left out: the source or exactly one rule gives it. */
  lemma EveryBaseCellOnce(base: Area, rules: seq<Rule>, start: nat, indirect: bool, baseAreas: seq<Ranked>, baseRulesAreas: RuleMap,
                          p: Key)
    requires start <= |rules| && InBox(base, p) && MapPartition(baseRulesAreas, |base|)
    requires InRanked(baseAreas, p) <==> !(indirect && HitWithin(rules, BaseOption, start, |rules|, p))
    requires forall id :: InAt(baseRulesAreas, id, p) <==> indirect && Taken(rules, BaseOption, start, |rules|, id, false, true, p)
    ensures InRanked(baseAreas, p) <==> !InMap(baseRulesAreas, p)
    ensures forall i, j :: InAt(baseRulesAreas, i, p) && InAt(baseRulesAreas, j, p) ==> i == j
  {
    hide InRanked, InAt, FirstHit, HitWithin;
    if indirect && HitWithin(rules, BaseOption, start, |rules|, p) {
      var k := HitHasFirst(rules, BaseOption, start, |rules|, p);
      FirstIsTaken(rules, start, k, p);
      assert InAt(baseRulesAreas, rules[k].id, p);
    }
    forall id | InAt(baseRulesAreas, id, p)
      ensures HitWithin(rules, BaseOption, start, |rules|, p)
    {
      TakenIsHit(rules, BaseOption, start, id, false, true, p);
    }
  }

  lemma FirstIsTaken(rules: seq<Rule>, start: nat, k: nat, p: Key)
    requires k < |rules| && FirstHit(rules, BaseOption, start, k, p)
    ensures Taken(rules, BaseOption, start, |rules|, rules[k].id, false, true, p)
  {
    hide HitWithin, RuleHits;
  }
}
