/** Sorted lists of cells: which ranks they have, alone and together. */
module CellLists {
  import opened Streams
  import opened Wrappers

  ghost predicate Ascends(cells: seq<Cell>)
  {
    forall i, j :: 0 <= i < j < |cells| ==> Rank(cells[i].key) < Rank(cells[j].key)
  }

  ghost predicate Has(cells: seq<Cell>, rank: int)
  {
    exists j :: 0 <= j < |cells| && Rank(cells[j].key) == rank
  }

  /** The union of the inputs: a rank some input has. */
  ghost predicate InUnion(lists: seq<seq<Cell>>, rank: int)
  {
    exists i :: 0 <= i < |lists| && Has(lists[i], rank)
  }

  ghost function HighestOf(cells: seq<Cell>): (h: int)
    ensures h >= -1 && forall r :: Has(cells, r) ==> r <= h
  {
    if cells == [] then -1 else
      var h, last := HighestOf(cells[..|cells| - 1]), Rank(cells[|cells| - 1].key);
      assert forall r :: Has(cells, r) ==> Has(cells[..|cells| - 1], r) || r == last by {
        HasInit(cells);
      }
      if last > h then last else h
  }

  lemma HasInit(cells: seq<Cell>)
    requires cells != []
    ensures forall r :: Has(cells, r) <==> Has(cells[..|cells| - 1], r) || r == Rank(cells[|cells| - 1].key)
  {
    hide Rank;
    var init := cells[..|cells| - 1];
    forall r
      ensures Has(cells, r) <==> Has(init, r) || r == Rank(cells[|cells| - 1].key)
    {
      if Has(init, r) {
        var j :| 0 <= j < |init| && Rank(init[j].key) == r;
        assert cells[j] == init[j];
      }
      if Has(cells, r) && r != Rank(cells[|cells| - 1].key) {
        var j :| 0 <= j < |cells| && Rank(cells[j].key) == r;
        assert init[j] == cells[j];
      }
    }
  }

  ghost function HighestRank(lists: seq<seq<Cell>>): (h: int)
    ensures h >= -1 && forall r :: InUnion(lists, r) ==> r <= h
  {
    if lists == [] then -1 else
      var h, last := HighestRank(lists[..|lists| - 1]), HighestOf(lists[|lists| - 1]);
      assert forall r :: InUnion(lists, r) ==> InUnion(lists[..|lists| - 1], r) || Has(lists[|lists| - 1], r) by {
        UnionInit(lists);
      }
      if last > h then last else h
  }

  lemma UnionInit(lists: seq<seq<Cell>>)
    requires lists != []
    ensures forall r :: InUnion(lists, r) ==> InUnion(lists[..|lists| - 1], r) || Has(lists[|lists| - 1], r)
  {
    hide Has;
    var init := lists[..|lists| - 1];
    forall r | InUnion(lists, r)
      ensures InUnion(init, r) || Has(lists[|lists| - 1], r)
    {
      var i :| 0 <= i < |lists| && Has(lists[i], r);
      if i < |init| {
        assert init[i] == lists[i];
      }
    }
  }

  /** The value a list has at a rank, if any. */
  ghost function ValueAt(cells: seq<Cell>, rank: int): Option<CellValue>
  {
    if cells == [] then None
    else if Rank(cells[0].key) == rank then Some(cells[0].value)
    else ValueAt(cells[1..], rank)
  }

  lemma {:induction false} ValueHere(cells: seq<Cell>, i: nat)
    requires Ascends(cells) && i < |cells|
    ensures ValueAt(cells, Rank(cells[i].key)) == Some(cells[i].value)
  {
    hide Rank;
    if i > 0 {
      assert Rank(cells[0].key) < Rank(cells[i].key);
      ValueHere(cells[1..], i - 1);
    }
  }

  lemma {:induction false} NoValue(cells: seq<Cell>, rank: int)
    ensures ValueAt(cells, rank) == None <==> !Has(cells, rank)
  {
    hide Rank;
    if cells != [] {
      NoValue(cells[1..], rank);
      if Has(cells[1..], rank) {
        var j :| 0 <= j < |cells[1..]| && Rank(cells[1..][j].key) == rank;
        assert Rank(cells[j + 1].key) == rank;
      }
      if Has(cells, rank) && Rank(cells[0].key) != rank {
        var j :| 0 <= j < |cells| && Rank(cells[j].key) == rank;
        assert cells[1..][j - 1] == cells[j];
      }
    }
  }
}
