/**
 * The query planner's partitioning: an area is carved by cell type, by the first matching rule
 * and by cached regions, so that every cell ends up in exactly one plan node.
 */
module Planner {
  import opened Ids
  import opened Ranges
  import opened Wrappers
  import opened Areas
  import opened SubCubes
  import opened CubeAreas
  import opened TypeSplit
  import Caches
  import IdSets

  datatype RuleOption = NoOption | ConsolidationOption | BaseOption

  datatype Rule = Rule(id: nat, active: bool, option: RuleOption, destination: Option<Pattern>, hasMarkers: bool)

  /** Rules of every option apply to a search without one, and rules without one to every search. */
  predicate Applies(r: Rule, ruleType: RuleOption)
  {
    r.active && (ruleType == NoOption || r.option == NoOption || r.option == ruleType) && r.destination.Some?
  }

  ghost predicate NonEmptyPattern(t: Pattern)
  {
    ValidPattern(t) && forall i :: 0 <= i < |t| && t[i].Some? ==> t[i].value.ranges != []
  }

  ghost predicate ValidRules(rules: seq<Rule>, n: nat)
  {
    forall i :: 0 <= i < |rules| && rules[i].destination.Some? ==>
      |rules[i].destination.value| == n && NonEmptyPattern(rules[i].destination.value)
  }

  ghost predicate RuleHits(r: Rule, ruleType: RuleOption, p: Key)
  {
    Applies(r, ruleType) && Matches(r.destination.value, p)
  }

  /** The cell is hit by one of the rules from index s up to, not including, k. */
  ghost predicate HitWithin(rules: seq<Rule>, ruleType: RuleOption, s: nat, k: nat, p: Key)
  {
    exists i :: s <= i < k && i < |rules| && RuleHits(rules[i], ruleType, p)
  }

  /** Rule k is the first from index s on to hit the cell. */
  ghost predicate FirstHit(rules: seq<Rule>, ruleType: RuleOption, s: nat, k: nat, p: Key)
  {
    s <= k < |rules| && RuleHits(rules[k], ruleType, p) && !HitWithin(rules, ruleType, s, k, p)
  }

  // ------------------------------------------------------------------------------------------
  // Areas kept per rule
  // ------------------------------------------------------------------------------------------

  ghost predicate InMap(m: RuleMap, p: Key)
  {
    exists id :: InAt(m, id, p)
  }

  /** Valid areas under every id, and no cell in two of them. */
  ghost predicate MapPartition(m: RuleMap, n: nat)
  {
    && (forall id :: id in m ==> ValidRanked(m[id], n) && PairwiseDisjoint(AreasOf(m[id])))
    && (forall id1, id2, p :: InAt(m, id1, p) && InAt(m, id2, p) ==> id1 == id2)
  }

  class RulesAreas {
    var m: RuleMap

    constructor ()
      ensures m == map[]
    {
      m := map[];
    }

    /** operator[] creates the list of a new id; the area joins the id's list. */
    method InsertAndMerge(id: nat, area: Area)
      requires MapPartition(m, |area|) && ValidArea(area)
      requires forall p :: InBox(area, p) ==> !InMap(m, p)
      modifies this
      ensures MapPartition(m, |area|)
      ensures forall k, p :: InAt(m, k, p) <==> old(InAt(m, k, p)) || (k == id && InBox(area, p))
    {
      hide InBox, InList, PairwiseDisjoint, ValidList, AreasOf, ValidArea;
      NoCellsRanked(|area|);
      var current := if id in m then m[id] else [];
      var l := new SubCubeList.Copy(current);
      ghost var was := m;
      forall p | InBox(area, p)
        ensures !InRanked(current, p)
      {
        assert id in m ==> (InRanked(m[id], p) <==> InAt(m, id, p));
        assert !InMap(m, p);
      }
      l.InsertAndMerge(area);
      m := m[id := l.list];
      forall k, p
        ensures InAt(m, k, p) <==> InAt(was, k, p) || (k == id && InBox(area, p))
      {
        assert InRanked(l.list, p) <==> InRanked(current, p) || InBox(area, p);
      }
      forall id1, id2, p | InAt(m, id1, p) && InAt(m, id2, p)
        ensures id1 == id2
      {
        assert InAt(was, id1, p) ==> InMap(was, p);
        assert InAt(was, id2, p) ==> InMap(was, p);
      }
    }
  }

  // ------------------------------------------------------------------------------------------
  // Carving one region out of a list of areas
  // ------------------------------------------------------------------------------------------

  /**
   * The overlap test accepts the area although the region has no cell at all: the region has an
   * empty set in some dimension, and meets the area in all others.
   */
  ghost predicate Swallowed(a: Area, other: Pattern)
    requires |a| == |other|
  {
    && (exists i :: 0 <= i < |a| && other[i].Some? && other[i].value.ranges == [])
    && (forall i :: 0 <= i < |a| ==> Meets(a[i], other[i]) || (other[i].Some? && other[i].value.ranges == []))
  }

  /**
   * One area of the inner carving loop: its part in the region is returned, the rest goes on.
   * Every cell is kept exactly when the area is not swallowed.
   */
  method CarveArea(a: Area, other: Pattern, next: SubCubeList) returns (overlaps: bool, inter: Option<Area>)
    requires ValidArea(a) && ValidPattern(other) && |a| == |other| && next.Valid(|a|)
    requires PairwiseDisjoint(AreasOf(next.list)) && forall p :: InBox(a, p) ==> !InList(AreasOf(next.list), p)
    modifies next
    ensures next.Valid(|a|) && PairwiseDisjoint(AreasOf(next.list))
    ensures inter.Some? ==> overlaps && ValidArea(inter.value) && |inter.value| == |a|
    ensures forall p :: inter.Some? && InBox(inter.value, p) <==> InBox(a, p) && Matches(other, p)
    ensures !Swallowed(a, other) <==> forall p :: InList(AreasOf(next.list), p) <==>
      old(InList(AreasOf(next.list), p)) || (InBox(a, p) && !Matches(other, p))
    ensures !Swallowed(a, other) ==> (overlaps <==> inter.Some?)
  {
    hide InBox, InList, PairwiseDisjoint, Matches, Meets, ValidList, AreasOf, ValidArea;
    overlaps := IsOverlapping(a, other);
    OverlapCases(a, other);
    ghost var before := next.list;
    inter := None;
    if overlaps {
      var has;
      has, inter := Intersection(a, other, true, next);
    } else {
      next.PushBack(a);
      AppendArea(AreasOf(before), a);
    }
  }

  /** What the overlap test says, in terms of cells. */
  lemma OverlapCases(a: Area, other: Pattern)
    requires ValidArea(a) && |a| == |other|
    ensures InBox(a, FirstCell(a))
    ensures Swallowed(a, other) ==> !exists p :: InBox(a, p) && Matches(other, p)
    ensures (forall i :: 0 <= i < |a| ==> Meets(a[i], other[i]) || (other[i].Some? && other[i].value.ranges == []))
      <==> Swallowed(a, other) || exists p :: InBox(a, p) && Matches(other, p)
  {
    hide In, InBox, Matches, Meets;
    FirstCellIn(a);
    MeetsEverywhere(a, other);
    forall i | 0 <= i < |a| && other[i].Some? && other[i].value.ranges == []
      ensures !Meets(a[i], other[i])
    {
      EmptyMeetsNothing(a[i], other[i]);
    }
  }

  lemma EmptyMeetsNothing(s: RangeSet, t: Option<RangeSet>)
    requires t.Some? && t.value.ranges == []
    ensures !Meets(s, t)
  {
  }

  lemma NonEmptyNotSwallowed(a: Area, other: Pattern)
    requires |a| == |other| && NonEmptyPattern(other)
    ensures !Swallowed(a, other)
  {
  }

  /** Carves a region without empty dimensions out of all areas of a list. */
  method Carve(input: seq<Ranked>, n: nat, other: Pattern, target: RulesAreas, id: nat) returns (next: seq<Ranked>, found: bool)
    requires ValidRanked(input, n) && PairwiseDisjoint(AreasOf(input)) && |other| == n && NonEmptyPattern(other)
    requires MapPartition(target.m, n) && forall p :: InRanked(input, p) ==> !InMap(target.m, p)
    modifies target
    ensures ValidRanked(next, n) && PairwiseDisjoint(AreasOf(next)) && MapPartition(target.m, n)
    ensures forall p :: InRanked(next, p) <==> InRanked(input, p) && !Matches(other, p)
    ensures forall k, p :: InAt(target.m, k, p) <==>
      old(InAt(target.m, k, p)) || (k == id && InRanked(input, p) && Matches(other, p))
    ensures found <==> exists p :: InRanked(input, p) && Matches(other, p)
  {
    hide InBox, InList, PairwiseDisjoint, Matches, Meets, ValidList, AreasOf, ValidArea, ValidPattern;
    var nextAreas := new SubCubeList();
    NoCellsRanked(n);
    ghost var was := target.m;
    found := false;
    assert input[..0] == [];
    for i := 0 to |input|
      invariant ValidRanked(nextAreas.list, n) && PairwiseDisjoint(AreasOf(nextAreas.list)) && MapPartition(target.m, n)
      invariant forall p :: InRanked(nextAreas.list, p) <==> InRanked(input[..i], p) && !Matches(other, p)
      invariant forall k, p :: InAt(target.m, k, p) <==>
        InAt(was, k, p) || (k == id && InRanked(input[..i], p) && Matches(other, p))
      invariant found <==> exists p :: InRanked(input[..i], p) && Matches(other, p)
    {
      RankedStep(input, n, i);
      NonEmptyNotSwallowed(input[i].area, other);
      var overlaps, inter := CarveArea(input[i].area, other, nextAreas);
      if overlaps {
        found := true;
      }
      if inter.Some? {
        forall p | InBox(inter.value, p)
          ensures !InMap(target.m, p)
        {
          CarvedFresh(input, was, target.m, other, id, i, p);
        }
        target.InsertAndMerge(id, inter.value);
        FirstCellIn(inter.value);
      }
    }
    assert input[..|input|] == input;
    next := nextAreas.list;
  }

  lemma RankedStep(l: seq<Ranked>, n: nat, i: nat)
    requires ValidRanked(l, n) && PairwiseDisjoint(AreasOf(l)) && i < |l|
    ensures |l[i].area| == n && ValidArea(l[i].area)
    ensures forall p :: InRanked(l[..i + 1], p) <==> InRanked(l[..i], p) || InBox(l[i].area, p)
    ensures forall p :: !(InRanked(l[..i], p) && InBox(l[i].area, p))
    ensures forall p :: InRanked(l[..i + 1], p) ==> InRanked(l, p)
  {
    hide InBox, InList, PairwiseDisjoint;
    assert l[..i + 1] == l[..i] + [l[i]];
    AreasOfConcat(l[..i], [l[i]]);
    AreasOfConcat(l[..i + 1], l[i + 1..]);
    assert l == l[..i + 1] + l[i + 1..];
    assert AreasOf([l[i]]) == [l[i].area];
    assert AreasOf(l)[i] == l[i].area;
    InListConcatAll(AreasOf(l[..i]), [l[i].area]);
    InListConcatAll(AreasOf(l[..i + 1]), AreasOf(l[i + 1..]));
    AreaAlone(l[i].area);
    DisjointConcat(AreasOf(l[..i + 1]), AreasOf(l[i + 1..]));
    DisjointConcat(AreasOf(l[..i]), [l[i].area]);
  }

  lemma CarvedFresh(input: seq<Ranked>, was: RuleMap, m: RuleMap, other: Pattern, id: nat, i: nat, p: Key)
    requires i < |input| && InBox(input[i].area, p) && InRanked(input, p)
    requires forall p :: InRanked(input, p) ==> !InMap(was, p)
    requires !InRanked(input[..i], p)
    requires forall k, p :: InAt(m, k, p) <==> InAt(was, k, p) || (k == id && InRanked(input[..i], p) && Matches(other, p))
    ensures !InMap(m, p)
  {
    hide InBox, InRanked, Matches, InAt;
    forall k
      ensures !InAt(m, k, p)
    {
      assert InAt(was, k, p) ==> InMap(was, p);
    }
  }

  // ------------------------------------------------------------------------------------------
  // Rules
  // ------------------------------------------------------------------------------------------

  /** The area a rule writes to: one element in each dimension that the rule names one for. */
  method DestinationArea(elementIds: Key, restricted: seq<bool>) returns (destination: Pattern)
    requires |elementIds| == |restricted|
    requires forall i :: 0 <= i < |elementIds| && restricted[i] ==> elementIds[i] < NO_IDENTIFIER
    ensures |destination| == |elementIds| && NonEmptyPattern(destination)
    ensures forall p :: Matches(destination, p) <==>
      |p| == |elementIds| && forall i :: 0 <= i < |p| && restricted[i] ==> p[i] == elementIds[i]
  {
    hide In, Canonical, Count;
    IdSets.InNone();
    destination := [];
    for i := 0 to |elementIds|
      invariant |destination| == i && NonEmptyPattern(destination)
      invariant forall j, x :: 0 <= j < i ==> (Admits(destination[j], x) <==> restricted[j] ==> x == elementIds[j])
    {
      if restricted[i] {
        var s := new IdSets.IdSet();
        var isNew := s.Insert(elementIds[i]);
        assert In(s.ranges, elementIds[i]);
        destination := destination + [Some(s.Freeze())];
      } else {
        destination := destination + [None];
      }
    }
  }

  /** Index of the first rule to look at: behind the rule being continued, which must be there. */
  method StartRule(rules: seq<Rule>, continueRule: Option<nat>) returns (start: Option<nat>)
    ensures continueRule.None? ==> start == Some(0)
    ensures continueRule.Some? && start.None? ==> forall i :: 0 <= i < |rules| ==> rules[i].id != continueRule.value
    ensures continueRule.Some? && start.Some? ==>
      1 <= start.value <= |rules| && rules[start.value - 1].id == continueRule.value
      && forall i :: 0 <= i < start.value - 1 ==> rules[i].id != continueRule.value
  {
    if continueRule.None? {
      return Some(0);
    }
    for i := 0 to |rules|
      invariant forall j :: 0 <= j < i ==> rules[j].id != continueRule.value
    {
      if rules[i].id == continueRule.value {
        return Some(i + 1);
      }
    }
    return None;
  }

  /**
   * The first rule from s on to hit the cell comes before e, has the given id, and is kept in
   * the map asked for: rules with markers in the second one unless both are the same map.
   */
  ghost predicate Taken(rules: seq<Rule>, ruleType: RuleOption, s: nat, e: nat, id: nat, inMarked: bool, shared: bool, p: Key)
  {
    exists k :: s <= k < e && FirstHit(rules, ruleType, s, k, p) && rules[k].id == id && (shared || rules[k].hasMarkers == inMarked)
  }

  /** extractRules: each cell goes to the first matching rule, and leaves the list of areas. */
  method ExtractRules(input: seq<Ranked>, n: nat, rules: seq<Rule>, ruleType: RuleOption, s: nat,
                      rulesAreas: RulesAreas, marked: RulesAreas) returns (areas: seq<Ranked>, result: bool)
    requires ValidRanked(input, n) && PairwiseDisjoint(AreasOf(input)) && ValidRules(rules, n) && s <= |rules|
    requires rulesAreas.m == map[] && marked.m == map[]
    modifies rulesAreas, marked
    ensures ValidRanked(areas, n) && PairwiseDisjoint(AreasOf(areas))
    ensures MapPartition(rulesAreas.m, n) && MapPartition(marked.m, n)
    ensures forall p :: InRanked(areas, p) <==> InRanked(input, p) && !HitWithin(rules, ruleType, s, |rules|, p)
    ensures forall id, p :: InAt(rulesAreas.m, id, p) <==>
      InRanked(input, p) && Taken(rules, ruleType, s, |rules|, id, false, rulesAreas == marked, p)
    ensures forall id, p :: InAt(marked.m, id, p) <==>
      InRanked(input, p) && Taken(rules, ruleType, s, |rules|, id, true, rulesAreas == marked, p)
    ensures result <==> exists p :: InRanked(input, p) && HitWithin(rules, ruleType, s, |rules|, p)
    ensures forall id, p :: InAt(rulesAreas.m, id, p) || InAt(marked.m, id, p) <==>
      InRanked(input, p) && exists k ::
        && s <= k < |rules| && rules[k].id == id && rules[k].active
        && (ruleType == NoOption || rules[k].option == NoOption || rules[k].option == ruleType)
        && rules[k].destination.Some? && Matches(rules[k].destination.value, p)
        && forall i :: s <= i < k && rules[i].active && rules[i].destination.Some? && Matches(rules[i].destination.value, p) ==>
          ruleType != NoOption && rules[i].option != NoOption && rules[i].option != ruleType
  {
    hide InBox, InList, PairwiseDisjoint, Matches, Meets, ValidList, AreasOf, ValidArea, ValidPattern, InRanked, HitWithin, Taken, InAt, InMap, MapPartition, RuleHits;
    TakenByFields(rules, ruleType, s, rulesAreas == marked);
    var inputAreas := input;
    result := false;
    ghost var shared := rulesAreas == marked;
    EmptyMap(n);
    NoRuleYet(rules, ruleType, s);
    for k := s to |rules|
      invariant ValidRanked(inputAreas, n) && PairwiseDisjoint(AreasOf(inputAreas))
      invariant MapPartition(rulesAreas.m, n) && MapPartition(marked.m, n)
      invariant forall p :: InRanked(inputAreas, p) <==> InRanked(input, p) && !HitWithin(rules, ruleType, s, k, p)
      invariant forall id, p :: InAt(rulesAreas.m, id, p) <==> InRanked(input, p) && Taken(rules, ruleType, s, k, id, false, shared, p)
      invariant forall id, p :: InAt(marked.m, id, p) <==> InRanked(input, p) && Taken(rules, ruleType, s, k, id, true, shared, p)
      invariant result <==> exists p :: InRanked(input, p) && HitWithin(rules, ruleType, s, k, p)
    {
      var rule := rules[k];
      HitsMeaning(rule, ruleType);
      RuleStep(rules, ruleType, s, k, shared);
      if Applies(rule, ruleType) {
        var target := if rule.hasMarkers then marked else rulesAreas;
        forall p | InRanked(inputAreas, p)
          ensures !InMap(target.m, p)
        {
          NotTaken(rules, ruleType, s, k, p);
          NowhereIn(target.m, p);
        }
        ghost var areasWas, m1, m2 := inputAreas, rulesAreas.m, marked.m;
        var found;
        inputAreas, found := Carve(inputAreas, n, rule.destination.value, target, rule.id);
        if found {
          result := true;
        }
        forall id, p
          ensures InAt(rulesAreas.m, id, p) <==> InRanked(input, p) && Taken(rules, ruleType, s, k + 1, id, false, shared, p)
          ensures InAt(marked.m, id, p) <==> InRanked(input, p) && Taken(rules, ruleType, s, k + 1, id, true, shared, p)
        {
          assert InAt(m1, id, p) <==> InRanked(input, p) && Taken(rules, ruleType, s, k, id, false, shared, p);
          assert InAt(m2, id, p) <==> InRanked(input, p) && Taken(rules, ruleType, s, k, id, true, shared, p);
        }
      }
    }
    areas := if result then inputAreas else input;
  }

  lemma HitsMeaning(r: Rule, ruleType: RuleOption)
    ensures forall p :: RuleHits(r, ruleType, p) <==> Applies(r, ruleType) && Matches(r.destination.value, p)
  {
  }

  /** Who takes a cell, said by the rules' own fields: the first active rule that fits the search and writes to the cell. */
  lemma TakenByFields(rules: seq<Rule>, ruleType: RuleOption, s: nat, shared: bool)
    ensures forall id, b, p :: Taken(rules, ruleType, s, |rules|, id, b, shared, p) <==>
      exists k ::
        && s <= k < |rules| && rules[k].id == id && (shared || rules[k].hasMarkers == b) && rules[k].active
        && (ruleType == NoOption || rules[k].option == NoOption || rules[k].option == ruleType)
        && rules[k].destination.Some? && Matches(rules[k].destination.value, p)
        && forall i :: s <= i < k && rules[i].active && rules[i].destination.Some? && Matches(rules[i].destination.value, p) ==>
          ruleType != NoOption && rules[i].option != NoOption && rules[i].option != ruleType
  {
    hide Matches;
  }

  /** The list without the rule at index j. */
  function Without(rules: seq<Rule>, j: nat): (r: seq<Rule>)
    requires j < |rules|
    ensures |r| == |rules| - 1 && forall i :: 0 <= i < |r| ==> r[i] == rules[if i < j then i else i + 1]
  {
    rules[..j] + rules[j + 1..]
  }

  /** Switching a rule off has the same effect as deleting it. */
  lemma InactiveIsDeleted(rules: seq<Rule>, ruleType: RuleOption, s: nat, j: nat, id: nat, inMarked: bool, shared: bool, p: Key)
    requires s <= j < |rules| && !rules[j].active
    ensures Taken(rules, ruleType, s, |rules|, id, inMarked, shared, p)
      <==> Taken(Without(rules, j), ruleType, s, |rules| - 1, id, inMarked, shared, p)
    ensures HitWithin(rules, ruleType, s, |rules|, p) <==> HitWithin(Without(rules, j), ruleType, s, |rules| - 1, p)
  {
    hide HitWithin, RuleHits, Without;
    var gone := Without(rules, j);
    forall k | s <= k <= |gone|
      ensures HitWithin(rules, ruleType, s, if k < j then k else k + 1, p) <==> HitWithin(gone, ruleType, s, k, p)
    {
      HitDespite(rules, ruleType, s, j, k, p);
    }
    forall k | s <= k < |gone|
      ensures FirstHit(rules, ruleType, s, if k < j then k else k + 1, p) <==> FirstHit(gone, ruleType, s, k, p)
    {
    }
    HitDespite(rules, ruleType, s, j, j, p);
    NeverHits(rules[j], ruleType, p);
    hide FirstHit;
    if Taken(rules, ruleType, s, |rules|, id, inMarked, shared, p) {
      var k :| s <= k < |rules| && FirstHit(rules, ruleType, s, k, p) && rules[k].id == id && (shared || rules[k].hasMarkers == inMarked);
      var k' := if k < j then k else k - 1;
      assert FirstHit(gone, ruleType, s, k', p);
    }
  }

  lemma NeverHits(r: Rule, ruleType: RuleOption, p: Key)
    requires !r.active
    ensures !RuleHits(r, ruleType, p)
  {
  }

  lemma HitDespite(rules: seq<Rule>, ruleType: RuleOption, s: nat, j: nat, k: nat, p: Key)
    requires s <= j < |rules| && !rules[j].active && s <= k < |rules|
    ensures HitWithin(rules, ruleType, s, if k < j then k else k + 1, p) <==> HitWithin(Without(rules, j), ruleType, s, k, p)
  {
    assert !RuleHits(rules[j], ruleType, p);
    hide RuleHits, Without;
    var gone := Without(rules, j);
    var e := if k < j then k else k + 1;
    if HitWithin(rules, ruleType, s, e, p) {
      var i :| s <= i < e && i < |rules| && RuleHits(rules[i], ruleType, p);
      assert RuleHits(gone[if i < j then i else i - 1], ruleType, p);
    }
    if HitWithin(gone, ruleType, s, k, p) {
      var i :| s <= i < k && i < |gone| && RuleHits(gone[i], ruleType, p);
      assert RuleHits(rules[if i < j then i else i + 1], ruleType, p);
    }
  }

  lemma NowhereIn(m: RuleMap, p: Key)
    ensures (forall id :: !InAt(m, id, p)) ==> !InMap(m, p)
  {
  }

  lemma EmptyMap(n: nat)
    ensures MapPartition(map[], n) && forall id, p :: !InAt(map[], id, p)
  {
  }

  lemma NoRuleYet(rules: seq<Rule>, ruleType: RuleOption, s: nat)
    ensures forall p :: !HitWithin(rules, ruleType, s, s, p)
    ensures forall id, b, c, p :: !Taken(rules, ruleType, s, s, id, b, c, p)
  {
  }

  lemma NotTaken(rules: seq<Rule>, ruleType: RuleOption, s: nat, k: nat, p: Key)
    requires !HitWithin(rules, ruleType, s, k, p)
    ensures forall id, b, c :: !Taken(rules, ruleType, s, k, id, b, c, p)
  {
  }

  /** One more rule: it takes the cells it hits that no earlier rule does. */
  lemma RuleStep(rules: seq<Rule>, ruleType: RuleOption, s: nat, k: nat, shared: bool)
    requires s <= k < |rules|
    ensures forall p :: HitWithin(rules, ruleType, s, k + 1, p) <==> HitWithin(rules, ruleType, s, k, p) || RuleHits(rules[k], ruleType, p)
    ensures forall id, b, p :: Taken(rules, ruleType, s, k + 1, id, b, shared, p) <==>
      || Taken(rules, ruleType, s, k, id, b, shared, p)
      || (RuleHits(rules[k], ruleType, p) && !HitWithin(rules, ruleType, s, k, p) && rules[k].id == id
          && (shared || rules[k].hasMarkers == b))
  {
    hide RuleHits;
    forall p
      ensures HitWithin(rules, ruleType, s, k + 1, p) <==> HitWithin(rules, ruleType, s, k, p) || RuleHits(rules[k], ruleType, p)
    {
    }
    hide HitWithin;
    forall id, b, p
      ensures Taken(rules, ruleType, s, k + 1, id, b, shared, p) <==>
        || Taken(rules, ruleType, s, k, id, b, shared, p)
        || (RuleHits(rules[k], ruleType, p) && !HitWithin(rules, ruleType, s, k, p) && rules[k].id == id
            && (shared || rules[k].hasMarkers == b))
    {
    }
  }

  // ------------------------------------------------------------------------------------------
  // Cached regions
  // ------------------------------------------------------------------------------------------

  /** The cache has the cell in an area of the rule; NO_IDENTIFIER stands for plain aggregation. */
  ghost predicate Recorded(cache: RuleMap, id: nat, p: Key)
  {
    InAt(cache, id, p)
  }

  lemma RecordedAt(cache: RuleMap, id: nat)
    ensures id in cache ==> forall p :: Recorded(cache, id, p) <==> InList(AreasOf(cache[id]), p)
    ensures id !in cache ==> forall p :: !Recorded(cache, id, p)
  {
  }

  lemma RecordedValid(cache: RuleMap, n: nat, id: nat)
    requires ValidMap(cache, n) && id in cache
    ensures ValidList(AreasOf(cache[id]), n)
  {
  }

  /** extractCached: cells recorded under the rule's id move from the list to the cached areas. */
  method ExtractCached(input: seq<Ranked>, n: nat, cached: RulesAreas, cache: RuleMap, ruleId: nat)
      returns (areas: seq<Ranked>, result: bool)
    requires ValidRanked(input, n) && PairwiseDisjoint(AreasOf(input)) && ValidMap(cache, n)
    requires MapPartition(cached.m, n) && forall p :: InRanked(input, p) ==> !InMap(cached.m, p)
    modifies cached
    ensures ValidRanked(areas, n) && PairwiseDisjoint(AreasOf(areas)) && MapPartition(cached.m, n)
    ensures forall p :: InRanked(areas, p) <==> InRanked(input, p) && !Recorded(cache, ruleId, p)
    ensures forall k, p :: InAt(cached.m, k, p) <==>
      old(InAt(cached.m, k, p)) || (k == ruleId && InRanked(input, p) && Recorded(cache, ruleId, p))
    ensures result <==> exists p :: InRanked(input, p) && Recorded(cache, ruleId, p)
  {
    hide InBox, InList, PairwiseDisjoint, Matches, Meets, ValidList, AreasOf, ValidArea, ValidPattern, InRanked, InAt, InMap, Recorded, ValidMap;
    areas, result := input, false;
    RecordedAt(cache, ruleId);
    if ruleId in cache {
      var regions := AreasOf(cache[ruleId]);
      RecordedValid(cache, n, ruleId);
      ghost var was := cached.m;
      NoCells();
      assert regions[..0] == [];
      for i := 0 to |regions|
        invariant ValidRanked(areas, n) && PairwiseDisjoint(AreasOf(areas)) && MapPartition(cached.m, n)
        invariant forall p :: InRanked(areas, p) <==> InRanked(input, p) && !InList(regions[..i], p)
        invariant forall k, p :: InAt(cached.m, k, p) <==> InAt(was, k, p) || (k == ruleId && InRanked(input, p) && InList(regions[..i], p))
        invariant result <==> exists p :: InRanked(input, p) && InList(regions[..i], p)
      {
        RegionStep(regions, n, i);
        StillFresh(input, areas, was, cached.m, ruleId, regions[..i]);
        var found;
        areas, found := Carve(areas, n, AsPattern(regions[i]), cached, ruleId);
        if found {
          result := true;
        }
      }
      assert regions[..|regions|] == regions;
    }
  }

  lemma RegionStep(l: seq<Area>, n: nat, i: nat)
    requires ValidList(l, n) && i < |l|
    ensures |AsPattern(l[i])| == n && NonEmptyPattern(AsPattern(l[i]))
    ensures forall p :: InList(l[..i + 1], p) <==> InList(l[..i], p) || Matches(AsPattern(l[i]), p)
  {
    assert NonEmptyPattern(AsPattern(l[i]));
    hide InBox, InList, Matches;
    assert l[..i + 1] == l[..i] + [l[i]];
    forall p
      ensures InList(l[..i + 1], p) <==> InList(l[..i], p) || Matches(AsPattern(l[i]), p)
    {
      InListConcat(l[..i], [l[i]], p);
      InListOne(l[i], p);
      AsPatternMatches(l[i], p);
    }
  }

  lemma StillFresh(input: seq<Ranked>, areas: seq<Ranked>, was: RuleMap, m: RuleMap, id: nat, done: seq<Area>)
    requires forall p :: InRanked(input, p) ==> !InMap(was, p)
    requires forall p :: InRanked(areas, p) <==> InRanked(input, p) && !InList(done, p)
    requires forall k, p :: InAt(m, k, p) <==> InAt(was, k, p) || (k == id && InRanked(input, p) && InList(done, p))
    ensures forall p :: InRanked(areas, p) ==> !InMap(m, p)
  {
    hide InRanked, InList, InAt;
    forall p | InRanked(areas, p)
      ensures !InMap(m, p)
    {
      assert forall k :: InAt(was, k, p) ==> InMap(was, p);
    }
  }

  /** The cells of one rule's list that a cache records move to the cached areas: the value cache comes first. */
  method ExtractCachedList(list: seq<Ranked>, n: nat, id: nat, cached: RulesAreas, queryCached: RulesAreas,
                           cache: RuleMap, queryCache: RuleMap) returns (rest: seq<Ranked>, found: bool, queryFound: bool)
    requires cached != queryCached && ValidRanked(list, n) && PairwiseDisjoint(AreasOf(list))
    requires MapPartition(cached.m, n) && MapPartition(queryCached.m, n) && ValidMap(cache, n) && ValidMap(queryCache, n)
    requires forall p :: InRanked(list, p) ==> !InMap(cached.m, p) && !InMap(queryCached.m, p)
    modifies cached, queryCached
    ensures ValidRanked(rest, n) && PairwiseDisjoint(AreasOf(rest))
    ensures MapPartition(cached.m, n) && MapPartition(queryCached.m, n)
    ensures forall p :: InRanked(rest, p) <==> InRanked(list, p) && !Recorded(cache, id, p) && !Recorded(queryCache, id, p)
    ensures forall k, p :: InAt(cached.m, k, p) <==> old(InAt(cached.m, k, p)) || (k == id && InRanked(list, p) && Recorded(cache, id, p))
    ensures forall k, p :: InAt(queryCached.m, k, p) <==>
      old(InAt(queryCached.m, k, p)) || (k == id && InRanked(list, p) && !Recorded(cache, id, p) && Recorded(queryCache, id, p))
    ensures found <==> exists p :: InRanked(list, p) && Recorded(cache, id, p)
    ensures queryFound <==> exists p :: InRanked(list, p) && !Recorded(cache, id, p) && Recorded(queryCache, id, p)
  {
    hide InBox, InList, PairwiseDisjoint, ValidList, AreasOf, Recorded, InAt, InMap, MapPartition, InRanked, ValidRanked, ValidMap;
    rest, found := ExtractCached(list, n, cached, cache, id);
    rest, queryFound := ExtractCached(rest, n, queryCached, queryCache, id);
  }

  /** The cells of every rule of the map that a cache records under the rule move to the cached areas. */
  method ExtractCachedRules(R: RulesAreas, n: nat, cached: RulesAreas, queryCached: RulesAreas, cache: RuleMap, queryCache: RuleMap)
      returns (anyCached: bool, anyQueryCached: bool)
    requires R != cached && R != queryCached && cached != queryCached
    requires MapPartition(R.m, n) && MapPartition(cached.m, n) && MapPartition(queryCached.m, n)
    requires ValidMap(cache, n) && ValidMap(queryCache, n)
    requires forall id, p :: InAt(R.m, id, p) ==> !InMap(cached.m, p) && !InMap(queryCached.m, p)
    modifies R, cached, queryCached
    ensures MapPartition(R.m, n) && MapPartition(cached.m, n) && MapPartition(queryCached.m, n)
    ensures forall id, p :: InAt(R.m, id, p) <==>
      old(InAt(R.m, id, p)) && !Recorded(cache, id, p) && !Recorded(queryCache, id, p)
    ensures forall id, p :: InAt(cached.m, id, p) <==>
      old(InAt(cached.m, id, p)) || (old(InAt(R.m, id, p)) && Recorded(cache, id, p))
    ensures forall id, p :: InAt(queryCached.m, id, p) <==>
      old(InAt(queryCached.m, id, p)) || (old(InAt(R.m, id, p)) && !Recorded(cache, id, p) && Recorded(queryCache, id, p))
    ensures anyCached <==> exists id, p :: old(InAt(R.m, id, p)) && Recorded(cache, id, p)
    ensures anyQueryCached <==> exists id, p :: old(InAt(R.m, id, p)) && !Recorded(cache, id, p) && Recorded(queryCache, id, p)
  {
    hide InBox, InList, PairwiseDisjoint, ValidList, AreasOf, Recorded, InAt, InMap, MapPartition, InRanked, ValidRanked, ValidMap;
    anyCached, anyQueryCached := false, false;
    var ids := R.m.Keys;
    ghost var m0, c0, q0 := R.m, cached.m, queryCached.m;
    NotAKey(m0);
    while ids != {}
      invariant MapPartition(R.m, n) && MapPartition(cached.m, n) && MapPartition(queryCached.m, n)
      invariant ids <= R.m.Keys == m0.Keys
      invariant forall id :: id in ids ==> R.m[id] == m0[id]
      invariant forall id, p :: InAt(R.m, id, p) <==>
        InAt(m0, id, p) && (id in ids || (!Recorded(cache, id, p) && !Recorded(queryCache, id, p)))
      invariant forall id, p :: InAt(cached.m, id, p) <==> InAt(c0, id, p) || (id !in ids && InAt(m0, id, p) && Recorded(cache, id, p))
      invariant forall id, p :: InAt(queryCached.m, id, p) <==>
        InAt(q0, id, p) || (id !in ids && InAt(m0, id, p) && !Recorded(cache, id, p) && Recorded(queryCache, id, p))
      invariant anyCached <==> exists id, p :: id !in ids && InAt(m0, id, p) && Recorded(cache, id, p)
      invariant anyQueryCached <==>
        exists id, p :: id !in ids && InAt(m0, id, p) && !Recorded(cache, id, p) && Recorded(queryCache, id, p)
      decreases ids
    {
      var id :| id in ids;
      ids := ids - {id};
      AtKey(R.m, n, id);
      ListFresh(R.m, m0, c0, cached.m, id, n);
      ListFresh(R.m, m0, q0, queryCached.m, id, n);
      var rest, found, found2 := ExtractCachedList(R.m[id], n, id, cached, queryCached, cache, queryCache);
      anyCached := anyCached || found;
      anyQueryCached := anyQueryCached || found2;
      ShrinkKey(R.m, n, id, rest);
      R.m := R.m[id := rest];
    }
  }

  lemma NotAKey(m: RuleMap)
    ensures forall id, p :: InAt(m, id, p) ==> id in m
  {
  }

  lemma AtKey(m: RuleMap, n: nat, id: nat)
    requires MapPartition(m, n) && id in m
    ensures ValidRanked(m[id], n) && PairwiseDisjoint(AreasOf(m[id]))
    ensures forall p :: InAt(m, id, p) <==> InRanked(m[id], p)
  {
  }

  /** Cells still listed under a rule are not yet among the moved ones. */
  lemma ListFresh(m: RuleMap, m0: RuleMap, c0: RuleMap, c: RuleMap, id: nat, n: nat)
    requires id in m && id in m0 && m[id] == m0[id] && MapPartition(m0, n)
    requires forall k, p :: InAt(m0, k, p) ==> !InMap(c0, p)
    requires forall k, p :: InAt(c, k, p) ==> InAt(c0, k, p) || (k != id && InAt(m0, k, p))
    ensures forall p :: InRanked(m[id], p) ==> !InMap(c, p)
  {
    hide InRanked, ValidRanked;
    forall p | InRanked(m[id], p)
      ensures !InMap(c, p)
    {
      assert InAt(m0, id, p);
      forall k
        ensures !InAt(c, k, p)
      {
        assert InAt(c0, k, p) ==> InMap(c0, p);
      }
    }
  }

  lemma ShrinkKey(m: RuleMap, n: nat, id: nat, rest: seq<Ranked>)
    requires MapPartition(m, n) && id in m && ValidRanked(rest, n) && PairwiseDisjoint(AreasOf(rest))
    requires forall p :: InRanked(rest, p) ==> InRanked(m[id], p)
    ensures MapPartition(m[id := rest], n)
    ensures forall k, p :: InAt(m[id := rest], k, p) <==> if k == id then InRanked(rest, p) else InAt(m, k, p)
  {
    hide InRanked, ValidRanked, PairwiseDisjoint;
    var m' := m[id := rest];
    forall k, p
      ensures InAt(m', k, p) <==> if k == id then InRanked(rest, p) else InAt(m, k, p)
      ensures InAt(m', k, p) ==> InAt(m, k, p)
    {
    }
    forall id1, id2, p | InAt(m', id1, p) && InAt(m', id2, p)
      ensures id1 == id2
    {
      assert InAt(m, id1, p) && InAt(m, id2, p);
    }
  }

  // ------------------------------------------------------------------------------------------
  // The plan
  // ------------------------------------------------------------------------------------------

  /** Everything a plan depends on besides its node filter. */
  datatype Query = Query(area: Area, dims: seq<Dimension>, aggregates: bool,
                         rules: seq<Rule>, start: nat, direct: bool,
                         useCache: bool, cache: RuleMap, queryCache: RuleMap)

  datatype RuleGroup = StringRules | NumericRules | MarkedRules | ConsolidatedRules

  datatype NodeKind =
    | StringSource
    | NumericSource
    | Aggregation
    | RuleNode(group: RuleGroup, rule: nat)
    | CacheNode(cachedRule: nat)
    | QueryCacheNode(cachedRule: nat)

  datatype PlanNode = PlanNode(kind: NodeKind, area: Area)

  ghost predicate ValidQuery(q: Query)
  {
    && ValidArea(q.area) && |q.dims| == |q.area| && ValidRules(q.rules, |q.area|) && q.start <= |q.rules|
    && ValidMap(q.cache, |q.area|) && ValidMap(q.queryCache, |q.area|)
  }

  ghost predicate StringCell(q: Query, p: Key)
  {
    ToStrings(q.dims, q.area, p)
  }

  ghost predicate NumericCell(q: Query, p: Key)
  {
    ToNumerics(q.dims, q.aggregates, q.area, p)
  }

  ghost predicate ConsCell(q: Query, p: Key)
  {
    ToConsolidated(q.dims, q.aggregates, q.area, p)
  }

  /** No cell is of two types. */
  lemma TypesExclusive(q: Query)
    ensures forall p :: !(StringCell(q, p) && NumericCell(q, p))
    ensures forall p :: !(StringCell(q, p) && ConsCell(q, p))
    ensures forall p :: !(NumericCell(q, p) && ConsCell(q, p))
  {
    hide ToStrings, ToNumerics, ToConsolidated;
    forall p
      ensures !(StringCell(q, p) && NumericCell(q, p)) && !(StringCell(q, p) && ConsCell(q, p)) && !(NumericCell(q, p) && ConsCell(q, p))
    {
      KindsExclusive(q.dims, q.aggregates, q.area, p);
    }
  }

  /** Some rule computes the cell directly. */
  ghost predicate Ruled(q: Query, ruleType: RuleOption, p: Key)
  {
    q.direct && HitWithin(q.rules, ruleType, q.start, |q.rules|, p)
  }

  /** The first rule that computes the cell directly has the given id (and markers as asked). */
  ghost predicate RuledBy(q: Query, ruleType: RuleOption, id: nat, inMarked: bool, shared: bool, p: Key)
  {
    q.direct && Taken(q.rules, ruleType, q.start, |q.rules|, id, inMarked, shared, p)
  }

  ghost predicate InCache(q: Query, id: nat, p: Key)
  {
    q.useCache && Recorded(q.cache, id, p)
  }

  ghost predicate InQueryCache(q: Query, id: nat, p: Key)
  {
    q.useCache && !Recorded(q.cache, id, p) && Recorded(q.queryCache, id, p)
  }

  ghost predicate Uncached(q: Query, id: nat, p: Key)
  {
    !InCache(q, id, p) && !InQueryCache(q, id, p)
  }

  /** The cell is computed by that rule, whichever of the cacheable groups the rule is in. */
  ghost predicate CacheableRule(q: Query, id: nat, p: Key)
  {
    || (ConsCell(q, p) && RuledBy(q, ConsolidationOption, id, false, true, p))
    || (NumericCell(q, p) && RuledBy(q, BaseOption, id, false, true, p))
  }

  /** Plain aggregation, recorded in caches under no rule. */
  ghost predicate PlainCons(q: Query, id: nat, p: Key)
  {
    id == NO_IDENTIFIER && ConsCell(q, p) && !Ruled(q, ConsolidationOption, p)
  }

  /** The kind of node that is to evaluate the cell: type first, then rule, then cache. */
  ghost predicate Rightful(q: Query, kind: NodeKind, p: Key)
  {
    match kind
    case StringSource => StringCell(q, p) && !Ruled(q, BaseOption, p)
    case NumericSource => NumericCell(q, p) && !Ruled(q, BaseOption, p)
    case Aggregation => PlainCons(q, NO_IDENTIFIER, p) && Uncached(q, NO_IDENTIFIER, p)
    case RuleNode(StringRules, id) => StringCell(q, p) && RuledBy(q, BaseOption, id, false, true, p)
    case RuleNode(NumericRules, id) => NumericCell(q, p) && RuledBy(q, BaseOption, id, false, false, p) && Uncached(q, id, p)
    case RuleNode(MarkedRules, id) => NumericCell(q, p) && RuledBy(q, BaseOption, id, true, false, p) && Uncached(q, id, p)
    case RuleNode(ConsolidatedRules, id) => ConsCell(q, p) && RuledBy(q, ConsolidationOption, id, false, true, p) && Uncached(q, id, p)
    case CacheNode(id) => (PlainCons(q, id, p) || CacheableRule(q, id, p)) && InCache(q, id, p)
    case QueryCacheNode(id) => (PlainCons(q, id, p) || CacheableRule(q, id, p)) && InQueryCache(q, id, p)
  }

  lemma TakenOnce(rules: seq<Rule>, ruleType: RuleOption, s: nat, e: nat, id: nat, b: bool, id': nat, b': bool, shared: bool, p: Key)
    requires Taken(rules, ruleType, s, e, id, b, shared, p) && Taken(rules, ruleType, s, e, id', b', shared, p)
    ensures id == id' && (shared || b == b')
  {
    hide RuleHits;
  }

  lemma TakenIsHit(rules: seq<Rule>, ruleType: RuleOption, s: nat, id: nat, b: bool, shared: bool, p: Key)
    ensures Taken(rules, ruleType, s, |rules|, id, b, shared, p) ==> HitWithin(rules, ruleType, s, |rules|, p)
    ensures Taken(rules, ruleType, s, |rules|, id, b, false, p) ==> Taken(rules, ruleType, s, |rules|, id, b, true, p)
    ensures Taken(rules, ruleType, s, |rules|, id, b, true, p) <==>
      Taken(rules, ruleType, s, |rules|, id, true, false, p) || Taken(rules, ruleType, s, |rules|, id, false, false, p)
  {
    hide RuleHits;
  }

  /** Two kinds never have a claim on the same cell. */
  lemma RightfulUnique(q: Query, k1: NodeKind, k2: NodeKind, p: Key)
    requires Rightful(q, k1, p) && Rightful(q, k2, p)
    ensures k1 == k2
  {
    hide Taken, HitWithin, Recorded, InBox, ToStrings, ToNumerics, ToConsolidated;
    TypesExclusive(q);
    forall t: RuleOption, id: nat, b: bool, c: bool
      ensures RuledBy(q, t, id, b, c, p) ==> Ruled(q, t, p)
      ensures RuledBy(q, t, id, b, false, p) ==> RuledBy(q, t, id, b, true, p)
    {
      TakenIsHit(q.rules, t, q.start, id, b, c, p);
    }
    forall t: RuleOption, id: nat, b: bool, id': nat, b': bool, c: bool | RuledBy(q, t, id, b, c, p) && RuledBy(q, t, id', b', c, p)
      ensures id == id' && (c || b == b')
    {
      TakenOnce(q.rules, t, q.start, |q.rules|, id, b, id', b', c, p);
    }
    forall t: RuleOption, id: nat, b: bool
      ensures RuledBy(q, t, id, b, true, p) ==> RuledBy(q, t, id, false, true, p)
    {
      TakenShared(q.rules, t, q.start, id, b, p);
    }
  }

  lemma TakenShared(rules: seq<Rule>, ruleType: RuleOption, s: nat, id: nat, b: bool, p: Key)
    ensures Taken(rules, ruleType, s, |rules|, id, b, true, p) ==> Taken(rules, ruleType, s, |rules|, id, false, true, p)
  {
    hide RuleHits;
  }

  /** A cell some rule hits has a first one. */
  lemma {:induction false} HitHasFirst(rules: seq<Rule>, ruleType: RuleOption, s: nat, e: nat, p: Key) returns (k: nat)
    requires e <= |rules| && HitWithin(rules, ruleType, s, e, p)
    ensures k < e && FirstHit(rules, ruleType, s, k, p)
    decreases e
  {
    hide RuleHits;
    if HitWithin(rules, ruleType, s, e - 1, p) {
      k := HitHasFirst(rules, ruleType, s, e - 1, p);
    } else {
      k := e - 1;
    }
  }

  /** Every cell of the area that the split by type keeps has a kind of node that is to evaluate it. */
  lemma RightfulExists(q: Query, p: Key) returns (kind: NodeKind)
    requires |q.dims| == |q.area| && InBox(q.area, p) && Kept(q.dims, q.aggregates, q.area, p)
    ensures Rightful(q, kind, p)
  {
    hide HitWithin, FirstHit, InBox, ToStrings, ToNumerics, ToConsolidated, Recorded, Kept;
    KindOfCell(q.dims, q.aggregates, q.area, p);
    if StringCell(q, p) {
      if Ruled(q, BaseOption, p) {
        var k := HitHasFirst(q.rules, BaseOption, q.start, |q.rules|, p);
        FirstHitTaken(q, BaseOption, k, p);
        return RuleNode(StringRules, q.rules[k].id);
      }
      return StringSource;
    } else if NumericCell(q, p) {
      if Ruled(q, BaseOption, p) {
        var k := HitHasFirst(q.rules, BaseOption, q.start, |q.rules|, p);
        FirstHitTaken(q, BaseOption, k, p);
        var id := q.rules[k].id;
        return if InCache(q, id, p) then CacheNode(id) else if InQueryCache(q, id, p) then QueryCacheNode(id)
          else RuleNode(if q.rules[k].hasMarkers then MarkedRules else NumericRules, id);
      }
      return NumericSource;
    } else if Ruled(q, ConsolidationOption, p) {
      var k := HitHasFirst(q.rules, ConsolidationOption, q.start, |q.rules|, p);
      FirstHitTaken(q, ConsolidationOption, k, p);
      var id := q.rules[k].id;
      return if InCache(q, id, p) then CacheNode(id) else if InQueryCache(q, id, p) then QueryCacheNode(id)
        else RuleNode(ConsolidatedRules, id);
    } else {
      return if InCache(q, NO_IDENTIFIER, p) then CacheNode(NO_IDENTIFIER)
        else if InQueryCache(q, NO_IDENTIFIER, p) then QueryCacheNode(NO_IDENTIFIER) else Aggregation;
    }
  }

  lemma FirstHitTaken(q: Query, ruleType: RuleOption, k: nat, p: Key)
    requires k < |q.rules| && FirstHit(q.rules, ruleType, q.start, k, p) && q.direct
    ensures RuledBy(q, ruleType, q.rules[k].id, false, true, p)
    ensures RuledBy(q, ruleType, q.rules[k].id, q.rules[k].hasMarkers, false, p)
  {
    hide HitWithin, RuleHits;
  }

  // Collecting nodes

  function NodeAreas(nodes: seq<PlanNode>): (l: seq<Area>)
    ensures |l| == |nodes| && forall i :: 0 <= i < |l| ==> l[i] == nodes[i].area
  {
    seq(|nodes|, i requires 0 <= i < |nodes| => nodes[i].area)
  }

  ghost predicate InNode(nodes: seq<PlanNode>, kind: NodeKind, p: Key)
  {
    exists i :: 0 <= i < |nodes| && nodes[i].kind == kind && InBox(nodes[i].area, p)
  }

  /** Valid node areas, pairwise disjoint, each cell in a node of its rightful kind. */
  ghost predicate NodesOk(q: Query, nodes: seq<PlanNode>)
  {
    && ValidList(NodeAreas(nodes), |q.area|) && PairwiseDisjoint(NodeAreas(nodes))
    && forall kind, p :: InNode(nodes, kind, p) ==> Rightful(q, kind, p)
  }

  lemma InNodeList(nodes: seq<PlanNode>, p: Key)
    ensures InList(NodeAreas(nodes), p) <==> exists kind :: InNode(nodes, kind, p)
  {
    hide InBox;
    if InList(NodeAreas(nodes), p) {
      var i :| 0 <= i < |nodes| && InBox(NodeAreas(nodes)[i], p);
      assert InNode(nodes, nodes[i].kind, p);
    }
  }

  lemma InNodeAppend(nodes: seq<PlanNode>, n: PlanNode)
    ensures forall kind, p :: InNode(nodes + [n], kind, p) <==> InNode(nodes, kind, p) || (kind == n.kind && InBox(n.area, p))
    ensures NodeAreas(nodes + [n]) == NodeAreas(nodes) + [n.area]
  {
    hide InBox;
    var all := nodes + [n];
    forall kind, p
      ensures InNode(all, kind, p) <==> InNode(nodes, kind, p) || (kind == n.kind && InBox(n.area, p))
    {
      if InNode(nodes, kind, p) {
        var i :| 0 <= i < |nodes| && nodes[i].kind == kind && InBox(nodes[i].area, p);
        assert all[i] == nodes[i];
      }
      assert all[|nodes|] == n;
    }
  }

  /** One node more, for cells whose rightful kind it is and that no node of the kind has yet. */
  lemma NodesGrow(q: Query, nodes: seq<PlanNode>, n: PlanNode)
    requires NodesOk(q, nodes) && ValidArea(n.area) && |n.area| == |q.area|
    requires forall p :: InBox(n.area, p) ==> Rightful(q, n.kind, p) && !InNode(nodes, n.kind, p)
    ensures NodesOk(q, nodes + [n])
  {
    hide InBox, InNode, Rightful, PairwiseDisjoint, ValidArea, InList, ValidList;
    InNodeAppend(nodes, n);
    forall p
      ensures !(InList(NodeAreas(nodes), p) && InBox(n.area, p))
    {
      InNodeList(nodes, p);
      if InBox(n.area, p) {
        forall kind
          ensures !InNode(nodes, kind, p)
        {
          if InNode(nodes, kind, p) {
            RightfulUnique(q, kind, n.kind, p);
          }
        }
      }
    }
    AppendArea(NodeAreas(nodes), n.area);
    ValidOne(n.area, |q.area|);
    ValidListConcat(NodeAreas(nodes), [n.area], |q.area|);
  }

  lemma ValidOne(a: Area, n: nat)
    requires ValidArea(a) && |a| == n
    ensures ValidList([a], n)
  {
  }

  /** One node per area of a list. */
  method AddNodes(ghost q: Query, nodes: seq<PlanNode>, l: seq<Ranked>, kind: NodeKind) returns (r: seq<PlanNode>)
    requires NodesOk(q, nodes) && ValidRanked(l, |q.area|) && PairwiseDisjoint(AreasOf(l))
    requires forall p :: InRanked(l, p) ==> Rightful(q, kind, p) && !InNode(nodes, kind, p)
    ensures NodesOk(q, r)
    ensures forall k, p :: InNode(r, k, p) <==> InNode(nodes, k, p) || (k == kind && InRanked(l, p))
  {
    hide InBox, InNode, Rightful, PairwiseDisjoint, ValidArea, InList, ValidList, InRanked, NodesOk, ValidRanked, AreasOf;
    r := nodes;
    NoCellsRanked(|q.area|);
    assert l[..0] == [];
    for i := 0 to |l|
      invariant NodesOk(q, r)
      invariant forall k, p :: InNode(r, k, p) <==> InNode(nodes, k, p) || (k == kind && InRanked(l[..i], p))
    {
      RankedStep(l, |q.area|, i);
      var node := PlanNode(kind, l[i].area);
      NodesGrow(q, r, node);
      InNodeAppend(r, node);
      r := r + [node];
    }
    assert l[..|l|] == l;
  }

  /** One node per area of every rule's list. */
  method AddMapNodes(ghost q: Query, nodes: seq<PlanNode>, m: RuleMap, kindOf: nat -> NodeKind) returns (r: seq<PlanNode>)
    requires NodesOk(q, nodes) && MapPartition(m, |q.area|)
    requires forall i, j :: kindOf(i) == kindOf(j) ==> i == j
    requires forall id, p :: InAt(m, id, p) ==> Rightful(q, kindOf(id), p) && !InNode(nodes, kindOf(id), p)
    ensures NodesOk(q, r)
    ensures forall k, p :: InNode(r, k, p) <==> InNode(nodes, k, p) || exists id :: k == kindOf(id) && InAt(m, id, p)
  {
    hide InBox, InNode, Rightful, PairwiseDisjoint, ValidArea, InList, ValidList, InRanked, NodesOk, ValidRanked, AreasOf, InAt, MapPartition;
    r := nodes;
    var ids := m.Keys;
    NotAKey(m);
    while ids != {}
      invariant ids <= m.Keys
      invariant NodesOk(q, r)
      invariant forall k, p :: InNode(r, k, p) <==> InNode(nodes, k, p) || exists id :: id !in ids && k == kindOf(id) && InAt(m, id, p)
      decreases ids
    {
      var id :| id in ids;
      AtKey(m, |q.area|, id);
      r := AddNodes(q, r, m[id], kindOf(id));
      ids := ids - {id};
    }
  }

  // Building the plan

  method RankAll(l: seq<Area>) returns (r: seq<Ranked>)
    ensures AreasOf(r) == l && forall i :: 0 <= i < |r| ==> r[i].rank == AreaRank(r[i].area)
  {
    r := [];
    for i := 0 to |l|
      invariant |r| == i
      invariant forall j :: 0 <= j < i ==> r[j].area == l[j] && r[j].rank == AreaRank(l[j])
    {
      var rank := GetRank(l[i]);
      r := r + [Ranked(rank, l[i])];
    }
  }

  /** The rule maps and area lists a plan is built from, before caches are looked at. */
  ghost predicate Sorted3(q: Query, baseOnly: bool, strings: seq<Ranked>, numerics: seq<Ranked>, consolidated: seq<Ranked>)
  {
    && ValidRanked(strings, |q.area|) && PairwiseDisjoint(AreasOf(strings))
    && ValidRanked(numerics, |q.area|) && PairwiseDisjoint(AreasOf(numerics))
    && ValidRanked(consolidated, |q.area|) && PairwiseDisjoint(AreasOf(consolidated))
    && (forall p :: InRanked(strings, p) <==> StringCell(q, p))
    && (forall p :: InRanked(numerics, p) <==> NumericCell(q, p))
    && (forall p :: InRanked(consolidated, p) <==> ConsCell(q, p) && !baseOnly)
  }

  /** Splitting by type, as the plan does it when it cannot take the base-only shortcut. */
  method SplitForPlan(q: Query, baseOnly: bool) returns (strings: seq<Ranked>, numerics: seq<Ranked>, consolidated: seq<Ranked>)
    requires ValidQuery(q)
    ensures Sorted3(q, baseOnly, strings, numerics, consolidated)
  {
    hide InBox, InList, PairwiseDisjoint, ValidList, ValidArea, ToStrings, ToNumerics, ToConsolidated, AreasOf;
    var s, n, c := SplitByTypes(q.dims, q.aggregates, q.area);
    strings := RankAll(s);
    numerics := RankAll(n);
    if baseOnly {
      consolidated := [];
      NoCellsRanked(|q.area|);
    } else {
      consolidated := RankAll(c);
    }
  }

  /** After the direct rules: what is left of each list, and which cells each rule took. */
  ghost predicate Ruled3(q: Query, baseOnly: bool, strings: seq<Ranked>, numerics: seq<Ranked>, consolidated: seq<Ranked>,
                         S: RuleMap, N: RuleMap, M: RuleMap, C: RuleMap)
  {
    && ValidRanked(strings, |q.area|) && PairwiseDisjoint(AreasOf(strings))
    && ValidRanked(numerics, |q.area|) && PairwiseDisjoint(AreasOf(numerics))
    && ValidRanked(consolidated, |q.area|) && PairwiseDisjoint(AreasOf(consolidated))
    && MapPartition(S, |q.area|) && MapPartition(N, |q.area|) && MapPartition(M, |q.area|) && MapPartition(C, |q.area|)
    && (forall p :: InRanked(strings, p) <==> StringCell(q, p) && !Ruled(q, BaseOption, p))
    && (forall p :: InRanked(numerics, p) <==> NumericCell(q, p) && !Ruled(q, BaseOption, p))
    && (forall p :: InRanked(consolidated, p) <==> ConsCell(q, p) && !baseOnly && !Ruled(q, ConsolidationOption, p))
    && (forall id, p :: InAt(S, id, p) <==> StringCell(q, p) && RuledBy(q, BaseOption, id, false, true, p))
    && (forall id, p :: InAt(N, id, p) <==> NumericCell(q, p) && RuledBy(q, BaseOption, id, false, false, p))
    && (forall id, p :: InAt(M, id, p) <==> NumericCell(q, p) && RuledBy(q, BaseOption, id, true, false, p))
    && (forall id, p :: InAt(C, id, p) <==> ConsCell(q, p) && !baseOnly && RuledBy(q, ConsolidationOption, id, false, true, p))
  }

  method ExtractDirectRules(q: Query, baseOnly: bool, strings: seq<Ranked>, numerics: seq<Ranked>, consolidated: seq<Ranked>,
                            S: RulesAreas, N: RulesAreas, M: RulesAreas, C: RulesAreas)
      returns (s: seq<Ranked>, n: seq<Ranked>, c: seq<Ranked>, any: bool)
    requires ValidQuery(q) && q.direct && Sorted3(q, baseOnly, strings, numerics, consolidated)
    requires S.m == N.m == M.m == C.m == map[]
    requires S != N && S != M && S != C && N != M && N != C && M != C
    modifies S, N, M, C
    ensures Ruled3(q, baseOnly, s, n, c, S.m, N.m, M.m, C.m)
    ensures !any ==> forall id, p :: !InAt(S.m, id, p) && !InAt(N.m, id, p) && !InAt(M.m, id, p) && !InAt(C.m, id, p)
  {
    hide InBox, InList, PairwiseDisjoint, ValidList, ValidArea, AreasOf, InRanked, ValidRanked, MapPartition, InAt,
      HitWithin, Taken, StringCell, NumericCell, ConsCell, ValidRules, ValidMap;
    var b1, b2, b3;
    s, b1 := ExtractRules(strings, |q.area|, q.rules, BaseOption, q.start, S, S);
    n, b2 := ExtractRules(numerics, |q.area|, q.rules, BaseOption, q.start, N, M);
    c, b3 := ExtractRules(consolidated, |q.area|, q.rules, ConsolidationOption, q.start, C, C);
    any := b1 || b2 || b3;
    if !any {
      forall id, p
        ensures !InAt(S.m, id, p) && !InAt(N.m, id, p) && !InAt(M.m, id, p) && !InAt(C.m, id, p)
      {
        forall t: RuleOption, b: bool, shared: bool
          ensures Taken(q.rules, t, q.start, |q.rules|, id, b, shared, p) ==> HitWithin(q.rules, t, q.start, |q.rules|, p)
        {
          TakenIsHit(q.rules, t, q.start, id, b, shared, p);
        }
      }
    }
  }

  /** The cell's type is part of the plan. */
  ghost predicate TypeSelected(q: Query, baseOnly: bool, p: Key)
  {
    ConsCell(q, p) ==> !baseOnly
  }

  /** After the caches: rules and aggregation keep what no cache records, the caches hold the rest. */
  ghost predicate Cached3(q: Query, baseOnly: bool, consolidated: seq<Ranked>, N: RuleMap, M: RuleMap, C: RuleMap, K: RuleMap, Q: RuleMap)
  {
    && ValidRanked(consolidated, |q.area|) && PairwiseDisjoint(AreasOf(consolidated))
    && MapPartition(N, |q.area|) && MapPartition(M, |q.area|) && MapPartition(C, |q.area|)
    && MapPartition(K, |q.area|) && MapPartition(Q, |q.area|)
    && (forall p :: InRanked(consolidated, p) <==> Rightful(q, Aggregation, p) && TypeSelected(q, baseOnly, p))
    && (forall id, p :: InAt(N, id, p) <==> Rightful(q, RuleNode(NumericRules, id), p) && TypeSelected(q, baseOnly, p))
    && (forall id, p :: InAt(M, id, p) <==> Rightful(q, RuleNode(MarkedRules, id), p) && TypeSelected(q, baseOnly, p))
    && (forall id, p :: InAt(C, id, p) <==> Rightful(q, RuleNode(ConsolidatedRules, id), p) && TypeSelected(q, baseOnly, p))
    && (forall id, p :: InAt(K, id, p) <==> Rightful(q, CacheNode(id), p) && TypeSelected(q, baseOnly, p))
    && (forall id, p :: InAt(Q, id, p) <==> Rightful(q, QueryCacheNode(id), p) && TypeSelected(q, baseOnly, p))
  }

  /** No cell lies in both maps. */
  ghost predicate Foreign(A: RuleMap, B: RuleMap)
  {
    forall i, j, p :: !(InAt(A, i, p) && InAt(B, j, p))
  }

  lemma ForeignFresh(R: RuleMap, X: RuleMap)
    requires Foreign(R, X)
    ensures forall id, p :: InAt(R, id, p) ==> !InMap(X, p)
  {
    hide InAt;
  }

  /** Both caches are consulted for the rule groups in turn. */
  method CacheRules(q: Query, N: RulesAreas, M: RulesAreas, C: RulesAreas, K: RulesAreas, Q: RulesAreas)
      returns (anyCached: bool, anyQueryCached: bool)
    requires q.useCache && ValidMap(q.cache, |q.area|) && ValidMap(q.queryCache, |q.area|)
    requires MapPartition(N.m, |q.area|) && MapPartition(M.m, |q.area|) && MapPartition(C.m, |q.area|)
    requires Foreign(N.m, M.m) && Foreign(M.m, N.m) && Foreign(N.m, C.m) && Foreign(M.m, C.m)
    requires K.m == Q.m == map[]
    requires N != M && N != C && N != K && N != Q && M != C && M != K && M != Q && C != K && C != Q && K != Q
    modifies N, M, C, K, Q
    ensures MapPartition(N.m, |q.area|) && MapPartition(M.m, |q.area|) && MapPartition(C.m, |q.area|)
    ensures MapPartition(K.m, |q.area|) && MapPartition(Q.m, |q.area|)
    ensures RulesCached(q, old(N.m), old(M.m), old(C.m), N.m, M.m, C.m, K.m, Q.m, anyCached, anyQueryCached)
  {
    hide InBox, InList, PairwiseDisjoint, ValidList, AreasOf, InRanked, ValidRanked, MapPartition, InAt, InMap, ValidMap, Recorded,
      RulesCached;
    ghost var n0, m0, c0 := N.m, M.m, C.m;
    EmptyMap(|q.area|);
    ForeignFresh(C.m, K.m);
    ForeignFresh(C.m, Q.m);
    var k1, l1 := ExtractCachedRules(C, |q.area|, K, Q, q.cache, q.queryCache);
    ghost var kc, lc := K.m, Q.m;
    ForeignFresh(N.m, K.m);
    ForeignFresh(N.m, Q.m);
    var k2, l2 := ExtractCachedRules(N, |q.area|, K, Q, q.cache, q.queryCache);
    ghost var kn, ln := K.m, Q.m;
    ForeignFresh(M.m, K.m);
    ForeignFresh(M.m, Q.m);
    var k3, l3 := ExtractCachedRules(M, |q.area|, K, Q, q.cache, q.queryCache);
    anyCached := k1 || k2 || k3;
    anyQueryCached := l1 || l2 || l3;
    CacheRulesSum(q, n0, m0, c0, N.m, M.m, C.m, kc, lc, kn, ln, K.m, Q.m, k1, l1, k2, l2, k3, l3);
  }

  lemma CacheRulesSum(q: Query, n0: RuleMap, m0: RuleMap, c0: RuleMap, N: RuleMap, M: RuleMap, C: RuleMap,
                      kc: RuleMap, lc: RuleMap, kn: RuleMap, ln: RuleMap, K: RuleMap, Q: RuleMap,
                      k1: bool, l1: bool, k2: bool, l2: bool, k3: bool, l3: bool)
    requires q.useCache
    requires forall id, p :: InAt(C, id, p) <==> InAt(c0, id, p) && !Recorded(q.cache, id, p) && !Recorded(q.queryCache, id, p)
    requires forall id, p :: InAt(N, id, p) <==> InAt(n0, id, p) && !Recorded(q.cache, id, p) && !Recorded(q.queryCache, id, p)
    requires forall id, p :: InAt(M, id, p) <==> InAt(m0, id, p) && !Recorded(q.cache, id, p) && !Recorded(q.queryCache, id, p)
    requires forall id, p :: InAt(kc, id, p) <==> InAt(c0, id, p) && Recorded(q.cache, id, p)
    requires forall id, p :: InAt(lc, id, p) <==> InAt(c0, id, p) && !Recorded(q.cache, id, p) && Recorded(q.queryCache, id, p)
    requires forall id, p :: InAt(kn, id, p) <==> InAt(kc, id, p) || (InAt(n0, id, p) && Recorded(q.cache, id, p))
    requires forall id, p :: InAt(ln, id, p) <==>
      InAt(lc, id, p) || (InAt(n0, id, p) && !Recorded(q.cache, id, p) && Recorded(q.queryCache, id, p))
    requires forall id, p :: InAt(K, id, p) <==> InAt(kn, id, p) || (InAt(m0, id, p) && Recorded(q.cache, id, p))
    requires forall id, p :: InAt(Q, id, p) <==>
      InAt(ln, id, p) || (InAt(m0, id, p) && !Recorded(q.cache, id, p) && Recorded(q.queryCache, id, p))
    requires k1 <==> exists id, p :: InAt(c0, id, p) && Recorded(q.cache, id, p)
    requires k2 <==> exists id, p :: InAt(n0, id, p) && Recorded(q.cache, id, p)
    requires k3 <==> exists id, p :: InAt(m0, id, p) && Recorded(q.cache, id, p)
    requires l1 <==> exists id, p :: InAt(c0, id, p) && !Recorded(q.cache, id, p) && Recorded(q.queryCache, id, p)
    requires l2 <==> exists id, p :: InAt(n0, id, p) && !Recorded(q.cache, id, p) && Recorded(q.queryCache, id, p)
    requires l3 <==> exists id, p :: InAt(m0, id, p) && !Recorded(q.cache, id, p) && Recorded(q.queryCache, id, p)
    ensures RulesCached(q, n0, m0, c0, N, M, C, K, Q, k1 || k2 || k3, l1 || l2 || l3)
  {
    hide InAt, Recorded;
  }

  method ExtractFromCaches(q: Query, baseOnly: bool, consolidated: seq<Ranked>, N: RulesAreas, M: RulesAreas, C: RulesAreas,
                           K: RulesAreas, Q: RulesAreas, ghost strings: seq<Ranked>, ghost numerics: seq<Ranked>, ghost S: RuleMap,
                           anyDirect: bool)
      returns (c: seq<Ranked>, anyCached: bool, anyQueryCached: bool)
    requires ValidQuery(q) && Ruled3(q, baseOnly, strings, numerics, consolidated, S, N.m, M.m, C.m)
    requires !anyDirect ==> forall id, p :: !InAt(N.m, id, p) && !InAt(M.m, id, p) && !InAt(C.m, id, p)
    requires K.m == Q.m == map[]
    requires N != M && N != C && N != K && N != Q && M != C && M != K && M != Q && C != K && C != Q && K != Q
    modifies N, M, C, K, Q
    ensures Cached3(q, baseOnly, c, N.m, M.m, C.m, K.m, Q.m)
    ensures anyCached <==> exists id, p :: InAt(K.m, id, p)
    ensures anyQueryCached <==> exists id, p :: InAt(Q.m, id, p)
    ensures !anyDirect ==> N.m == old(N.m) && M.m == old(M.m) && C.m == old(C.m)
  {
    hide InBox, InList, PairwiseDisjoint, ValidList, ValidArea, AreasOf, InRanked, ValidRanked, MapPartition, InAt, InMap,
      HitWithin, Taken, StringCell, NumericCell, ConsCell, ValidRules, ValidMap, Recorded, Ruled3, Cached3;
    c, anyCached, anyQueryCached := consolidated, false, false;
    ghost var n0, m0, c0 := N.m, M.m, C.m;
    EmptyMap(|q.area|);
    RuledParts(q, baseOnly, strings, numerics, consolidated, S, n0, m0, c0);
    GroupsForeign(q, baseOnly, strings, numerics, consolidated, S, n0, m0, c0);
    if anyDirect && q.useCache {
      anyCached, anyQueryCached := CacheRules(q, N, M, C, K, Q);
    } else {
      RulesUncached(q, n0, m0, c0, anyDirect);
    }
    ghost var k0, l0 := K.m, Q.m;
    PlainForeign(q, baseOnly, strings, numerics, consolidated, S, n0, m0, c0, k0, l0);
    if q.useCache {
      var a1, a2;
      c, a1 := ExtractCached(c, |q.area|, K, q.cache, NO_IDENTIFIER);
      c, a2 := ExtractCached(c, |q.area|, Q, q.queryCache, NO_IDENTIFIER);
      anyCached := anyCached || a1;
      anyQueryCached := anyQueryCached || a2;
    }
    FinishCached(q, baseOnly, strings, numerics, consolidated, S, n0, m0, c0, N.m, M.m, C.m, c, K.m, Q.m);
  }

  ghost predicate RulesCached(q: Query, n0: RuleMap, m0: RuleMap, c0: RuleMap, N: RuleMap, M: RuleMap, C: RuleMap,
                              K: RuleMap, Q: RuleMap, anyCached: bool, anyQueryCached: bool)
  {
    && (forall id, p :: InAt(N, id, p) <==> InAt(n0, id, p) && Uncached(q, id, p))
    && (forall id, p :: InAt(M, id, p) <==> InAt(m0, id, p) && Uncached(q, id, p))
    && (forall id, p :: InAt(C, id, p) <==> InAt(c0, id, p) && Uncached(q, id, p))
    && (forall id, p :: InAt(K, id, p) <==> (InAt(n0, id, p) || InAt(m0, id, p) || InAt(c0, id, p)) && InCache(q, id, p))
    && (forall id, p :: InAt(Q, id, p) <==> (InAt(n0, id, p) || InAt(m0, id, p) || InAt(c0, id, p)) && InQueryCache(q, id, p))
    && (anyCached <==> exists id, p :: InAt(K, id, p))
    && (anyQueryCached <==> exists id, p :: InAt(Q, id, p))
  }

  lemma RuledParts(q: Query, baseOnly: bool, strings: seq<Ranked>, numerics: seq<Ranked>, consolidated: seq<Ranked>,
                   S: RuleMap, N: RuleMap, M: RuleMap, C: RuleMap)
    requires Ruled3(q, baseOnly, strings, numerics, consolidated, S, N, M, C)
    ensures MapPartition(N, |q.area|) && MapPartition(M, |q.area|) && MapPartition(C, |q.area|)
    ensures ValidRanked(consolidated, |q.area|) && PairwiseDisjoint(AreasOf(consolidated))
  {
    hide MapPartition, ValidRanked, PairwiseDisjoint, InAt, InRanked, Taken, AreasOf;
  }

  /** Without rules, or without caches, the rules keep their cells. */
  lemma RulesUncached(q: Query, n0: RuleMap, m0: RuleMap, c0: RuleMap, anyDirect: bool)
    requires !(anyDirect && q.useCache)
    requires !anyDirect ==> forall id, p :: !InAt(n0, id, p) && !InAt(m0, id, p) && !InAt(c0, id, p)
    ensures RulesCached(q, n0, m0, c0, n0, m0, c0, map[], map[], false, false)
  {
    hide Recorded;
  }

  /** No cell is taken by rules of two groups. */
  lemma GroupsForeign(q: Query, baseOnly: bool, strings: seq<Ranked>, numerics: seq<Ranked>, consolidated: seq<Ranked>,
                      S: RuleMap, N: RuleMap, M: RuleMap, C: RuleMap)
    requires Ruled3(q, baseOnly, strings, numerics, consolidated, S, N, M, C)
    ensures Foreign(N, M) && Foreign(M, N) && Foreign(N, C) && Foreign(M, C) && Foreign(C, N) && Foreign(C, M)
  {
    hide InAt, Taken, InBox, ToStrings, ToNumerics, ToConsolidated, InRanked, ValidRanked, PairwiseDisjoint, MapPartition, AreasOf;
    TypesExclusive(q);
    forall i, j, p
      ensures !(InAt(N, i, p) && InAt(M, j, p))
    {
      if RuledBy(q, BaseOption, i, false, false, p) && RuledBy(q, BaseOption, j, true, false, p) {
        TakenOnce(q.rules, BaseOption, q.start, |q.rules|, i, false, j, true, false, p);
      }
    }
  }

  lemma PlainForeign(q: Query, baseOnly: bool, strings: seq<Ranked>, numerics: seq<Ranked>, consolidated: seq<Ranked>,
                     S: RuleMap, N: RuleMap, M: RuleMap, C: RuleMap, K: RuleMap, Q: RuleMap)
    requires Ruled3(q, baseOnly, strings, numerics, consolidated, S, N, M, C)
    requires forall id, p :: InAt(K, id, p) || InAt(Q, id, p) ==> InAt(N, id, p) || InAt(M, id, p) || InAt(C, id, p)
    ensures forall p :: InRanked(consolidated, p) ==> !InMap(K, p) && !InMap(Q, p)
  {
    hide InAt, Taken, InBox, ToStrings, ToNumerics, ToConsolidated, InRanked, ValidRanked, PairwiseDisjoint, MapPartition, AreasOf, HitWithin;
    TypesExclusive(q);
    forall p | InRanked(consolidated, p)
      ensures !InMap(K, p) && !InMap(Q, p)
    {
      forall id
        ensures !InAt(C, id, p)
      {
        TakenIsHit(q.rules, ConsolidationOption, q.start, id, false, true, p);
      }
    }
  }

  /** The cell is listed under the rule, or for aggregation, in one of the groups whose values are cached. */
  ghost predicate Cacheable(N: RuleMap, M: RuleMap, C: RuleMap, consolidated: seq<Ranked>, id: nat, p: Key)
  {
    InAt(N, id, p) || InAt(M, id, p) || InAt(C, id, p) || (id == NO_IDENTIFIER && InRanked(consolidated, p))
  }

  lemma FinishCached(q: Query, baseOnly: bool, strings: seq<Ranked>, numerics: seq<Ranked>, consolidated: seq<Ranked>,
                     S: RuleMap, n0: RuleMap, m0: RuleMap, c0: RuleMap, N: RuleMap, M: RuleMap, C: RuleMap,
                     c: seq<Ranked>, K: RuleMap, Q: RuleMap)
    requires Ruled3(q, baseOnly, strings, numerics, consolidated, S, n0, m0, c0)
    requires ValidRanked(c, |q.area|) && PairwiseDisjoint(AreasOf(c))
    requires MapPartition(N, |q.area|) && MapPartition(M, |q.area|) && MapPartition(C, |q.area|)
    requires MapPartition(K, |q.area|) && MapPartition(Q, |q.area|)
    requires forall id, p :: InAt(N, id, p) <==> InAt(n0, id, p) && Uncached(q, id, p)
    requires forall id, p :: InAt(M, id, p) <==> InAt(m0, id, p) && Uncached(q, id, p)
    requires forall id, p :: InAt(C, id, p) <==> InAt(c0, id, p) && Uncached(q, id, p)
    requires forall p :: InRanked(c, p) <==> InRanked(consolidated, p) && Uncached(q, NO_IDENTIFIER, p)
    requires forall id, p :: InAt(K, id, p) <==> InCache(q, id, p) && Cacheable(n0, m0, c0, consolidated, id, p)
    requires forall id, p :: InAt(Q, id, p) <==> InQueryCache(q, id, p) && Cacheable(n0, m0, c0, consolidated, id, p)
    ensures Cached3(q, baseOnly, c, N, M, C, K, Q)
  {
    hide InAt, RuledBy, Ruled, StringCell, NumericCell, ConsCell, InRanked, ValidRanked, PairwiseDisjoint, MapPartition, AreasOf,
      Rightful, TypeSelected, Uncached, InCache, InQueryCache, Ruled3, Cacheable;
    UncachedDue(q, baseOnly, strings, numerics, consolidated, S, n0, m0, c0);
    RecordedDue(q, baseOnly, strings, numerics, consolidated, S, n0, m0, c0);
  }

  /** What no cache records of the rules' cells and of the aggregated ones is due to rule and aggregation nodes. */
  lemma UncachedDue(q: Query, baseOnly: bool, strings: seq<Ranked>, numerics: seq<Ranked>, consolidated: seq<Ranked>,
                    S: RuleMap, N: RuleMap, M: RuleMap, C: RuleMap)
    requires Ruled3(q, baseOnly, strings, numerics, consolidated, S, N, M, C)
    ensures forall p :: InRanked(consolidated, p) && Uncached(q, NO_IDENTIFIER, p) <==>
      Rightful(q, Aggregation, p) && TypeSelected(q, baseOnly, p)
    ensures forall id, p :: InAt(N, id, p) && Uncached(q, id, p) <==>
      Rightful(q, RuleNode(NumericRules, id), p) && TypeSelected(q, baseOnly, p)
    ensures forall id, p :: InAt(M, id, p) && Uncached(q, id, p) <==>
      Rightful(q, RuleNode(MarkedRules, id), p) && TypeSelected(q, baseOnly, p)
    ensures forall id, p :: InAt(C, id, p) && Uncached(q, id, p) <==>
      Rightful(q, RuleNode(ConsolidatedRules, id), p) && TypeSelected(q, baseOnly, p)
  {
    hide InAt, RuledBy, Ruled, StringCell, NumericCell, ConsCell, InRanked, ValidRanked, PairwiseDisjoint, MapPartition, AreasOf, Uncached;
    TypesExclusive(q);
  }

  /** What a cache records of them is due to its nodes. */
  lemma RecordedDue(q: Query, baseOnly: bool, strings: seq<Ranked>, numerics: seq<Ranked>, consolidated: seq<Ranked>,
                    S: RuleMap, N: RuleMap, M: RuleMap, C: RuleMap)
    requires Ruled3(q, baseOnly, strings, numerics, consolidated, S, N, M, C)
    ensures forall id, p :: InCache(q, id, p) && Cacheable(N, M, C, consolidated, id, p) <==>
      Rightful(q, CacheNode(id), p) && TypeSelected(q, baseOnly, p)
    ensures forall id, p :: InQueryCache(q, id, p) && Cacheable(N, M, C, consolidated, id, p) <==>
      Rightful(q, QueryCacheNode(id), p) && TypeSelected(q, baseOnly, p)
  {
    hide InAt, StringCell, NumericCell, ConsCell, InRanked, ValidRanked, PairwiseDisjoint, MapPartition, AreasOf,
      InCache, InQueryCache, Taken, HitWithin;
    TypesExclusive(q);
    forall id, p
      ensures RuledBy(q, BaseOption, id, false, true, p) <==>
        RuledBy(q, BaseOption, id, false, false, p) || RuledBy(q, BaseOption, id, true, false, p)
    {
      TakenIsHit(q.rules, BaseOption, q.start, id, false, false, p);
      TakenIsHit(q.rules, BaseOption, q.start, id, true, false, p);
      TakenIsHit(q.rules, BaseOption, q.start, id, false, true, p);
    }
  }

  /** The node filter: which source nodes are wanted, and whether consolidated cells are left out. */
  ghost predicate Selected(q: Query, baseStrings: bool, baseNumeric: bool, baseOnly: bool, kind: NodeKind, p: Key)
  {
    && (kind == StringSource ==> baseStrings)
    && (kind == NumericSource ==> baseNumeric)
    && TypeSelected(q, baseOnly, p)
  }

  /** The order in which the kinds of nodes are added. */
  function Stage(kind: NodeKind): nat
  {
    match kind
    case StringSource => 0
    case NumericSource => 1
    case Aggregation => 2
    case RuleNode(ConsolidatedRules, _) => 3
    case RuleNode(NumericRules, _) => 4
    case RuleNode(MarkedRules, _) => 5
    case RuleNode(StringRules, _) => 6
    case CacheNode(_) => 7
    case QueryCacheNode(_) => 8
  }

  /** The rule a node of a per-rule kind belongs to. */
  function RuleIdOf(kind: NodeKind): nat
  {
    match kind
    case RuleNode(_, id) => id
    case CacheNode(id) => id
    case QueryCacheNode(id) => id
    case _ => NO_IDENTIFIER
  }

  datatype NodeFilter = NodeFilter(baseStrings: bool, baseNumeric: bool, baseOnly: bool)

  /** The cell is selected and the kind is its rightful one. */
  ghost predicate Due(q: Query, f: NodeFilter, kind: NodeKind, p: Key)
  {
    Rightful(q, kind, p) && Selected(q, f.baseStrings, f.baseNumeric, f.baseOnly, kind, p)
  }

  /** The nodes of the first n stages are there, and no others. */
  ghost predicate Built(q: Query, f: NodeFilter, nodes: seq<PlanNode>, n: nat)
  {
    NodesOk(q, nodes) && forall kind, p :: InNode(nodes, kind, p) <==> Stage(kind) < n && Due(q, f, kind, p)
  }

  method AddStage(ghost q: Query, f: NodeFilter, nodes: seq<PlanNode>, l: seq<Ranked>, kind: NodeKind, wanted: bool)
      returns (r: seq<PlanNode>)
    requires Stage(kind) < 3 && Built(q, f, nodes, Stage(kind)) && ValidRanked(l, |q.area|) && PairwiseDisjoint(AreasOf(l))
    requires forall p :: wanted && InRanked(l, p) <==> Due(q, f, kind, p)
    ensures Built(q, f, r, Stage(kind) + 1)
  {
    hide InNode, Rightful, PairwiseDisjoint, InRanked, NodesOk, ValidRanked, AreasOf, Selected;
    r := nodes;
    if wanted {
      r := AddNodes(q, nodes, l, kind);
    }
  }

  method AddMapStage(ghost q: Query, f: NodeFilter, nodes: seq<PlanNode>, m: RuleMap, kindOf: nat -> NodeKind, ghost n: nat, wanted: bool)
      returns (r: seq<PlanNode>)
    requires Built(q, f, nodes, n) && MapPartition(m, |q.area|)
    requires forall id :: Stage(kindOf(id)) == n && RuleIdOf(kindOf(id)) == id
    requires forall kind :: Stage(kind) == n ==> kind == kindOf(RuleIdOf(kind))
    requires forall id, p :: wanted && InAt(m, id, p) <==> Due(q, f, kindOf(id), p)
    ensures Built(q, f, r, n + 1)
  {
    hide InNode, Rightful, NodesOk, InAt, MapPartition, Selected, Stage;
    r := nodes;
    assert forall i, j :: kindOf(i) == kindOf(j) ==> RuleIdOf(kindOf(i)) == RuleIdOf(kindOf(j));
    if wanted {
      r := AddMapNodes(q, nodes, m, kindOf);
    }
  }

  lemma NoNodes(q: Query, f: NodeFilter)
    ensures Built(q, f, [], 0)
  {
  }

  lemma NothingToPlan(q: Query, f: NodeFilter, strings: seq<Ranked>, numerics: seq<Ranked>, consolidated: seq<Ranked>, nodes: seq<PlanNode>)
    requires Sorted3(q, f.baseOnly, strings, numerics, consolidated) && |strings| + |numerics| + |consolidated| == 0
    requires Built(q, f, nodes, 0)
    ensures Built(q, f, nodes, 9)
  {
    hide InNode, NodesOk, RuledBy, Ruled, InCache, InQueryCache, InBox, ToStrings, ToNumerics, ToConsolidated;
    NoCellsRanked(|q.area|);
    forall kind, p
      ensures !Due(q, f, kind, p)
    {
      assert !InRanked(strings, p) && !InRanked(numerics, p) && !InRanked(consolidated, p);
    }
  }

  lemma NoDirectRules(q: Query, baseOnly: bool, strings: seq<Ranked>, numerics: seq<Ranked>, consolidated: seq<Ranked>)
    requires !q.direct && Sorted3(q, baseOnly, strings, numerics, consolidated)
    ensures Ruled3(q, baseOnly, strings, numerics, consolidated, map[], map[], map[], map[])
  {
    hide InRanked, ValidRanked, StringCell, NumericCell, ConsCell, PairwiseDisjoint, AreasOf, HitWithin, Taken;
    EmptyMap(|q.area|);
  }

  /** Every list and map holds what is due to its kind of node. */
  ghost predicate ListsDue(q: Query, f: NodeFilter, strings: seq<Ranked>, numerics: seq<Ranked>, aggregated: seq<Ranked>,
                           S: RuleMap, N: RuleMap, M: RuleMap, C: RuleMap, K: RuleMap, Q: RuleMap)
  {
    && (ValidRanked(strings, |q.area|) && PairwiseDisjoint(AreasOf(strings)))
    && (ValidRanked(numerics, |q.area|) && PairwiseDisjoint(AreasOf(numerics)))
    && (ValidRanked(aggregated, |q.area|) && PairwiseDisjoint(AreasOf(aggregated)))
    && (MapPartition(S, |q.area|) && MapPartition(N, |q.area|) && MapPartition(M, |q.area|))
    && (MapPartition(C, |q.area|) && MapPartition(K, |q.area|) && MapPartition(Q, |q.area|))
    && (forall p :: f.baseStrings && InRanked(strings, p) <==> Due(q, f, StringSource, p))
    && (forall p :: f.baseNumeric && InRanked(numerics, p) <==> Due(q, f, NumericSource, p))
    && (forall p :: InRanked(aggregated, p) <==> Due(q, f, Aggregation, p))
    && (forall id, p :: InAt(S, id, p) <==> Due(q, f, RuleNode(StringRules, id), p))
    && (forall id, p :: InAt(N, id, p) <==> Due(q, f, RuleNode(NumericRules, id), p))
    && (forall id, p :: InAt(M, id, p) <==> Due(q, f, RuleNode(MarkedRules, id), p))
    && (forall id, p :: InAt(C, id, p) <==> Due(q, f, RuleNode(ConsolidatedRules, id), p))
    && (forall id, p :: InAt(K, id, p) <==> Due(q, f, CacheNode(id), p))
    && (forall id, p :: InAt(Q, id, p) <==> Due(q, f, QueryCacheNode(id), p))
  }

  lemma ListsOk(q: Query, f: NodeFilter, strings: seq<Ranked>, numerics: seq<Ranked>, consolidated: seq<Ranked>, aggregated: seq<Ranked>,
                S: RuleMap, n0: RuleMap, m0: RuleMap, c0: RuleMap, N: RuleMap, M: RuleMap, C: RuleMap, K: RuleMap, Q: RuleMap)
    requires Ruled3(q, f.baseOnly, strings, numerics, consolidated, S, n0, m0, c0)
    requires Cached3(q, f.baseOnly, aggregated, N, M, C, K, Q)
    ensures ListsDue(q, f, strings, numerics, aggregated, S, N, M, C, K, Q)
  {
    hide InRanked, ValidRanked, PairwiseDisjoint, AreasOf, InAt, MapPartition, Ruled, RuledBy, StringCell, NumericCell, ConsCell,
      Rightful, Due;
    BaseListsDue(q, f, strings, numerics, consolidated, S, n0, m0, c0);
    CachedListsDue(q, f, aggregated, N, M, C, K, Q);
  }

  lemma BaseListsDue(q: Query, f: NodeFilter, strings: seq<Ranked>, numerics: seq<Ranked>, consolidated: seq<Ranked>,
                     S: RuleMap, n0: RuleMap, m0: RuleMap, c0: RuleMap)
    requires Ruled3(q, f.baseOnly, strings, numerics, consolidated, S, n0, m0, c0)
    ensures forall p :: f.baseStrings && InRanked(strings, p) <==> Due(q, f, StringSource, p)
    ensures forall p :: f.baseNumeric && InRanked(numerics, p) <==> Due(q, f, NumericSource, p)
    ensures forall id, p :: InAt(S, id, p) <==> Due(q, f, RuleNode(StringRules, id), p)
  {
    hide InRanked, ValidRanked, PairwiseDisjoint, AreasOf, InAt, MapPartition, StringCell, NumericCell, ConsCell, RuledBy, Ruled;
    TypesExclusive(q);
  }

  lemma CachedListsDue(q: Query, f: NodeFilter, aggregated: seq<Ranked>, N: RuleMap, M: RuleMap, C: RuleMap, K: RuleMap, Q: RuleMap)
    requires Cached3(q, f.baseOnly, aggregated, N, M, C, K, Q)
    ensures forall p :: InRanked(aggregated, p) <==> Due(q, f, Aggregation, p)
    ensures forall id, p :: InAt(N, id, p) <==> Due(q, f, RuleNode(NumericRules, id), p)
    ensures forall id, p :: InAt(M, id, p) <==> Due(q, f, RuleNode(MarkedRules, id), p)
    ensures forall id, p :: InAt(C, id, p) <==> Due(q, f, RuleNode(ConsolidatedRules, id), p)
    ensures forall id, p :: InAt(K, id, p) <==> Due(q, f, CacheNode(id), p)
    ensures forall id, p :: InAt(Q, id, p) <==> Due(q, f, QueryCacheNode(id), p)
  {
    hide InRanked, ValidRanked, PairwiseDisjoint, AreasOf, InAt, MapPartition, Rightful, TypeSelected;
  }

  /** The nodes of all lists and maps. */
  method BuildNodes(ghost q: Query, f: NodeFilter, none: seq<PlanNode>, strings: seq<Ranked>, numerics: seq<Ranked>, aggregated: seq<Ranked>,
                    S: RuleMap, N: RuleMap, M: RuleMap, C: RuleMap, K: RuleMap, Q: RuleMap,
                    anyDirect: bool, anyCached: bool, anyQueryCached: bool) returns (nodes: seq<PlanNode>)
    requires Built(q, f, none, 0) && ListsDue(q, f, strings, numerics, aggregated, S, N, M, C, K, Q)
    requires !anyDirect ==> forall id, p :: !InAt(S, id, p) && !InAt(N, id, p) && !InAt(M, id, p) && !InAt(C, id, p)
    requires !anyCached ==> forall id, p :: !InAt(K, id, p)
    requires !anyQueryCached ==> forall id, p :: !InAt(Q, id, p)
    ensures Built(q, f, nodes, 9)
  {
    hide PairwiseDisjoint, AreasOf, InRanked, ValidRanked, MapPartition, InAt, Built, Due;
    nodes := none;
    nodes := AddStage(q, f, nodes, strings, StringSource, f.baseStrings);
    nodes := AddStage(q, f, nodes, numerics, NumericSource, f.baseNumeric);
    nodes := AddStage(q, f, nodes, aggregated, Aggregation, true);
    nodes := AddRuleNodes(q, f, nodes, S, N, M, C, anyDirect);
    nodes := AddCacheNodes(q, f, nodes, K, Q, anyCached, anyQueryCached);
  }

  method AddRuleNodes(ghost q: Query, f: NodeFilter, nodes: seq<PlanNode>, S: RuleMap, N: RuleMap, M: RuleMap, C: RuleMap,
                      anyDirect: bool) returns (r: seq<PlanNode>)
    requires Built(q, f, nodes, 3)
    requires MapPartition(S, |q.area|) && MapPartition(N, |q.area|) && MapPartition(M, |q.area|) && MapPartition(C, |q.area|)
    requires forall id, p :: anyDirect && InAt(S, id, p) <==> Due(q, f, RuleNode(StringRules, id), p)
    requires forall id, p :: anyDirect && InAt(N, id, p) <==> Due(q, f, RuleNode(NumericRules, id), p)
    requires forall id, p :: anyDirect && InAt(M, id, p) <==> Due(q, f, RuleNode(MarkedRules, id), p)
    requires forall id, p :: anyDirect && InAt(C, id, p) <==> Due(q, f, RuleNode(ConsolidatedRules, id), p)
    ensures Built(q, f, r, 7)
  {
    hide PairwiseDisjoint, AreasOf, InRanked, ValidRanked, MapPartition, InAt, Built, Due;
    r := AddMapStage(q, f, nodes, C, (id: nat) => RuleNode(ConsolidatedRules, id), 3, anyDirect);
    r := AddMapStage(q, f, r, N, (id: nat) => RuleNode(NumericRules, id), 4, anyDirect);
    r := AddMapStage(q, f, r, M, (id: nat) => RuleNode(MarkedRules, id), 5, anyDirect);
    r := AddMapStage(q, f, r, S, (id: nat) => RuleNode(StringRules, id), 6, anyDirect);
  }

  method AddCacheNodes(ghost q: Query, f: NodeFilter, nodes: seq<PlanNode>, K: RuleMap, Q: RuleMap,
                       anyCached: bool, anyQueryCached: bool) returns (r: seq<PlanNode>)
    requires Built(q, f, nodes, 7) && MapPartition(K, |q.area|) && MapPartition(Q, |q.area|)
    requires forall id, p :: anyCached && InAt(K, id, p) <==> Due(q, f, CacheNode(id), p)
    requires forall id, p :: anyQueryCached && InAt(Q, id, p) <==> Due(q, f, QueryCacheNode(id), p)
    ensures Built(q, f, r, 9)
  {
    hide PairwiseDisjoint, AreasOf, InRanked, ValidRanked, MapPartition, InAt, Built, Due;
    r := AddMapStage(q, f, nodes, K, (id: nat) => CacheNode(id), 7, anyCached);
    r := AddMapStage(q, f, r, Q, (id: nat) => QueryCacheNode(id), 8, anyQueryCached);
  }

  /**
   * The plan that splits the area by type: the nodes hold exactly the selected cells, each in a node
   * of its rightful kind, and no cell in two nodes.
   */
  method PlanBySplitting(q: Query, f: NodeFilter) returns (nodes: seq<PlanNode>)
    requires ValidQuery(q)
    ensures NodesOk(q, nodes)
    ensures forall kind, p :: InNode(nodes, kind, p) <==> Due(q, f, kind, p)
  {
    hide InBox, InList, PairwiseDisjoint, ValidList, ValidArea, AreasOf, InRanked, ValidRanked, MapPartition, InAt, InMap,
      HitWithin, Taken, StringCell, NumericCell, ConsCell, ValidRules, ValidMap, Recorded, Rightful, NodesOk, InNode, ValidQuery,
      Ruled3, Sorted3, Cached3, TypeSelected, Due, ListsDue, Stage;
    nodes := [];
    NoNodes(q, f);
    var strings, numerics, consolidated := SplitForPlan(q, f.baseOnly);
    var subareas := |strings| + |numerics| + |consolidated|;
    if subareas == 0 {
      NothingToPlan(q, f, strings, numerics, consolidated, nodes);
      BuiltAll(q, f, nodes);
      return;
    }
    var S := new RulesAreas();
    var N := new RulesAreas();
    var M := new RulesAreas();
    var C := new RulesAreas();
    var K := new RulesAreas();
    var Q := new RulesAreas();
    var anyDirect := false;
    if q.direct {
      strings, numerics, consolidated, anyDirect := ExtractDirectRules(q, f.baseOnly, strings, numerics, consolidated, S, N, M, C);
    } else {
      NoDirectRules(q, f.baseOnly, strings, numerics, consolidated);
      EmptyMap(0);
    }
    ghost var n0, m0, c0 := N.m, M.m, C.m;
    var aggregated, anyCached, anyQueryCached :=
      ExtractFromCaches(q, f.baseOnly, consolidated, N, M, C, K, Q, strings, numerics, S.m, anyDirect);
    assert !anyDirect ==> forall id, p :: !InAt(S.m, id, p) && !InAt(N.m, id, p) && !InAt(M.m, id, p) && !InAt(C.m, id, p);
    ListsOk(q, f, strings, numerics, consolidated, aggregated, S.m, n0, m0, c0, N.m, M.m, C.m, K.m, Q.m);
    nodes := BuildNodes(q, f, nodes, strings, numerics, aggregated, S.m, N.m, M.m, C.m, K.m, Q.m, anyDirect, anyCached, anyQueryCached);
    BuiltAll(q, f, nodes);
  }

  lemma BuiltAll(q: Query, f: NodeFilter, nodes: seq<PlanNode>)
    requires Built(q, f, nodes, 9)
    ensures NodesOk(q, nodes)
    ensures forall kind, p :: InNode(nodes, kind, p) <==> Due(q, f, kind, p)
  {
    hide InNode, Due, NodesOk;
    assert forall kind :: Stage(kind) < 9;
  }

  /**
   * The main claim: a plan for all cell types evaluates every cell of the area in exactly one node,
   * save for cells with an unknown id that the split by type does not keep, which are in none.
   */
  lemma EveryCellOnce(q: Query, nodes: seq<PlanNode>, p: Key)
    requires |q.dims| == |q.area| && NodesOk(q, nodes)
    requires forall kind, p :: InNode(nodes, kind, p) <==> Due(q, NodeFilter(true, true, false), kind, p)
    ensures PairwiseDisjoint(NodeAreas(nodes))
    ensures InList(NodeAreas(nodes), p) <==> InBox(q.area, p) && Kept(q.dims, q.aggregates, q.area, p)
    ensures InBox(q.area, p) && Kept(q.dims, q.aggregates, q.area, p) ==>
      exists i :: 0 <= i < |nodes| && InBox(nodes[i].area, p) && Rightful(q, nodes[i].kind, p)
        && forall j :: 0 <= j < |nodes| && InBox(nodes[j].area, p) ==> j == i
  {
    hide InBox, InNode, Rightful, ValidList, InList, Kept;
    InNodeList(nodes, p);
    if InBox(q.area, p) && Kept(q.dims, q.aggregates, q.area, p) {
      var kind := RightfulExists(q, p);
      assert InNode(nodes, kind, p);
      NodeOfKind(nodes, kind, p);
      var i :| 0 <= i < |nodes| && nodes[i].kind == kind && InBox(nodes[i].area, p);
      forall j | 0 <= j < |nodes| && InBox(nodes[j].area, p)
        ensures j == i
      {
        assert i < j ==> Disjoint(NodeAreas(nodes)[i], NodeAreas(nodes)[j]);
        assert j < i ==> Disjoint(NodeAreas(nodes)[j], NodeAreas(nodes)[i]);
      }
    }
    forall kind | InNode(nodes, kind, p)
      ensures InBox(q.area, p) && Kept(q.dims, q.aggregates, q.area, p)
    {
      RightfulInArea(q, kind, p);
    }
  }

  lemma NodeOfKind(nodes: seq<PlanNode>, kind: NodeKind, p: Key)
    requires InNode(nodes, kind, p)
    ensures exists i :: 0 <= i < |nodes| && nodes[i].kind == kind && InBox(nodes[i].area, p)
  {
  }

  lemma RightfulInArea(q: Query, kind: NodeKind, p: Key)
    requires |q.dims| == |q.area| && Rightful(q, kind, p)
    ensures InBox(q.area, p) && Kept(q.dims, q.aggregates, q.area, p)
  {
    hide InBox, RuledBy, Ruled, Kept, EveryOther, EveryNumeric, AnyStrings, AnyConsolidated, StringFirst, PlainCell, HasConsolidated,
      StringFree;
    assert StringCell(q, p) || NumericCell(q, p) || ConsCell(q, p);
    KindOfCell(q.dims, q.aggregates, q.area, p);
  }

  // ------------------------------------------------------------------------------------------
  // Plans over caches that queries share
  // ------------------------------------------------------------------------------------------

  /** The cell is computed under the id: by aggregation under NO_IDENTIFIER, or by the first rule that hits it. */
  ghost predicate Owns(q: Query, id: nat, p: Key)
  {
    PlainCons(q, id, p) || CacheableRule(q, id, p) || (StringCell(q, p) && RuledBy(q, BaseOption, id, false, true, p))
  }

  /** What a node is read for, and so may be recorded of it, is computed under the node's id. */
  lemma NodeOwns(q: Query, kind: NodeKind, p: Key)
    requires Rightful(q, kind, p) && (kind.Aggregation? || kind.RuleNode?)
    ensures Owns(q, RuleIdOf(kind), p)
  {
    hide StringCell, NumericCell, ConsCell, Taken, HitWithin, InCache, InQueryCache;
    TakenIsHit(q.rules, BaseOption, q.start, RuleIdOf(kind), false, false, p);
    TakenIsHit(q.rules, BaseOption, q.start, RuleIdOf(kind), true, false, p);
    TakenIsHit(q.rules, BaseOption, q.start, RuleIdOf(kind), false, true, p);
  }

  /** Queries that differ in area, caches and node filters only: the same rules, from the same start, used directly or not. */
  ghost predicate SameSettings(a: Query, b: Query)
  {
    && a.dims == b.dims && a.aggregates == b.aggregates && a.rules == b.rules && a.start == b.start && a.direct == b.direct
    && |a.dims| == |a.area| && |b.dims| == |b.area|
  }

  lemma TypeInAreas(q: Query, p: Key)
    requires |q.dims| == |q.area| && TypeOf(q.dims, q.aggregates, p).Success?
    ensures StringCell(q, p) ==> TypeOf(q.dims, q.aggregates, p).value == BaseString
    ensures NumericCell(q, p) ==> TypeOf(q.dims, q.aggregates, p).value == BaseNumeric
    ensures ConsCell(q, p) ==> TypeOf(q.dims, q.aggregates, p).value == ConsolidatedCell
  {
    hide EveryOther, EveryNumeric, AnyStrings, AnyConsolidated, StringFirst, PlainCell, HasConsolidated, StringFree, InBox, TypeOf;
    TypesExclusive(q);
    if StringCell(q, p) || NumericCell(q, p) || ConsCell(q, p) {
      KindOfCell(q.dims, q.aggregates, q.area, p);
    }
  }

  /** Under the same settings a cell of existing elements is computed under one id only, whatever the areas. */
  lemma OwnedOnce(a: Query, b: Query, i: nat, j: nat, p: Key)
    requires SameSettings(a, b) && TypeOf(a.dims, a.aggregates, p).Success?
    requires Owns(a, i, p) && Owns(b, j, p)
    ensures i == j
  {
    hide StringCell, NumericCell, ConsCell, Taken, HitWithin, TypeOf;
    TypeInAreas(a, p);
    TypeInAreas(b, p);
    forall t: RuleOption, k: nat
      ensures RuledBy(a, t, k, false, true, p) ==> Ruled(a, t, p)
    {
      TakenIsHit(a.rules, t, a.start, k, false, true, p);
    }
    forall t: RuleOption | RuledBy(a, t, i, false, true, p) && RuledBy(b, t, j, false, true, p)
      ensures i == j
    {
      TakenOnce(a.rules, t, a.start, |a.rules|, i, false, j, false, true, p);
    }
    forall t: RuleOption
      ensures RuledBy(b, t, j, false, true, p) ==> Ruled(a, t, p)
    {
      TakenIsHit(b.rules, t, b.start, j, false, true, p);
    }
  }

  /** A cell that some query with these settings may record under the id. */
  ghost predicate MayRecord(q: Query, id: nat, p: Key)
  {
    TypeOf(q.dims, q.aggregates, p).Success? && exists other :: SameSettings(q, other) && Owns(other, id, p)
  }

  ghost function ScopeOf(q: Query): Caches.Scope
  {
    (id: nat, p: Key) => MayRecord(q, id, p)
  }

  lemma SettingsConsistent(q: Query, truths: Caches.Truths)
    ensures Caches.Consistent(truths, ScopeOf(q))
  {
    hide Owns, TypeOf;
    forall i, j, p | ScopeOf(q)(i, p) && ScopeOf(q)(j, p)
      ensures i == j
    {
      var a :| SameSettings(q, a) && Owns(a, i, p);
      var b :| SameSettings(q, b) && Owns(b, j, p);
      OwnedOnce(a, b, i, j, p);
    }
  }

  /**
   * A consolidated cell that a rule computes is plainly aggregated by a query that leaves direct rules
   * out, as a rule's CONTINUE does: the two record it under two ids.
   */
  lemma ContinueOwnsTwice(q: Query, id: nat, p: Key)
    requires ConsCell(q, p) && RuledBy(q, ConsolidationOption, id, false, true, p)
    ensures Owns(q, id, p) && Owns(q.(direct := false), NO_IDENTIFIER, p)
  {
    hide ToStrings, ToNumerics, ToConsolidated, Taken, HitWithin;
  }

  /**
   * Where all queries that record share rules, start and the use of direct rules, and record cells of
   * existing elements only: whatever they have recorded and published before, in any interleaving, the
   * value cache and the planning query's own cache have no empty region, so that planning over them is
   * within what PlanBySplitting relies on, and a cell planned into a cache node reads from the cache
   * behind the node what the rule of the node gives.
   */
  lemma SharedCachesPlan(truths: Caches.Truths, run: seq<Caches.Sharing>, steps: seq<Caches.Step>, i: nat, q: Query)
    requires Caches.Run(truths, |q.area|, run, steps)
    requires Caches.AllValid(|q.area|, run[0]) && Caches.AllTrue(truths, run[0])
    requires Caches.AllWithin(ScopeOf(q), run[0]) && Caches.RecordsWithin(ScopeOf(q), steps)
    requires i < |run[|run| - 1].queries|
    requires q.cache == run[|run| - 1].cache.areas && q.queryCache == run[|run| - 1].queries[i].areas
    requires ValidArea(q.area) && |q.dims| == |q.area| && ValidRules(q.rules, |q.area|) && q.start <= |q.rules|
    ensures ValidQuery(q)
    ensures forall id, p :: Rightful(q, CacheNode(id), p) ==> Caches.ReadsAs(truths(id), run[|run| - 1].cache.storage, p)
    ensures forall id, p :: Rightful(q, QueryCacheNode(id), p) ==> Caches.ReadsAs(truths(id), run[|run| - 1].queries[i].storage, p)
  {
    hide InAt, PlainCons, CacheableRule, Caches.ReadsAs, Caches.ValueOf, Caches.HasArea, ValidArea, ValidRules, ValidMap,
      Caches.Takes, Caches.RecordsWithin, Caches.WithinScope, Caches.Consistent, ScopeOf;
    SettingsConsistent(q, truths);
    Caches.SharingStaysTrue(truths, ScopeOf(q), |q.area|, run, steps);
    var last := run[|run| - 1];
    assert Caches.OneOf(last, last.cache) && Caches.OneOf(last, last.queries[i]);
  }
}
