/** CombinationProcessor: several sorted streams merged into one, the first input winning ties. */
module Combinations {
  import opened Streams
  import opened CellLists

  // ------------------------------------------------------------------------------------------
  // The state of the merge on values: the cells of the inputs, their positions and flags
  // ------------------------------------------------------------------------------------------

  datatype State = State(lists: seq<seq<Cell>>, pos: seq<int>, hasNext: seq<bool>, isSame: seq<bool>)

  ghost predicate Shaped(s: State)
  {
    |s.lists| == |s.pos| == |s.hasNext| == |s.isSame|
  }

  /** The rank of the cell an input stands at; -1 if it stands at none. */
  ghost function Head(s: State, i: int): int
    requires Shaped(s) && 0 <= i < |s.lists|
  {
    if 0 <= s.pos[i] < |s.lists[i]| then Rank(s.lists[i][s.pos[i]].key) else -1
  }

  /** Everything before the position ranks below k, everything from it on at or above k. */
  ghost predicate CutAt(cells: seq<Cell>, pos: int, k: int)
  {
    && 0 <= pos <= |cells|
    && (forall j :: 0 <= j < pos ==> Rank(cells[j].key) < k)
    && (forall j :: pos <= j < |cells| ==> k <= Rank(cells[j].key))
  }

  /**
   * A flag says that an earlier input stands at the same key, and that no earlier input stands at
   * a smaller one. Flags that were not cleared keep this meaning.
   */
  ghost predicate Flagged(s: State, j: int)
    requires Shaped(s) && 0 <= j < |s.lists|
  {
    && s.hasNext[j]
    && (exists p :: 0 <= p < j && s.hasNext[p] && Head(s, p) == Head(s, j))
    && (forall q :: 0 <= q <= j && s.hasNext[q] ==> Head(s, j) <= Head(s, q))
  }

  ghost predicate Flags(s: State)
    requires Shaped(s)
  {
    forall j :: 0 <= j < |s.lists| && s.isSame[j] ==> Flagged(s, j)
  }

  /** All inputs stand at the first of their cells behind rank b. */
  ghost predicate Behind(s: State, b: int)
    requires Shaped(s)
  {
    && (forall i :: 0 <= i < |s.lists| ==> CutAt(s.lists[i], s.pos[i], b + 1))
    && (forall i :: 0 <= i < |s.lists| ==> (s.hasNext[i] <==> s.pos[i] < |s.lists[i]|))
    && Flags(s)
  }

  /** The first of the inputs below n that stands at the smallest key; the others there are flagged. */
  ghost predicate Least(s: State, index: int, hasSameKey: bool, n: int)
    requires Shaped(s) && n <= |s.lists|
  {
    && 0 <= index < n && s.hasNext[index]
    && (forall j :: 0 <= j < n && s.hasNext[j] ==> Head(s, index) <= Head(s, j))
    && (forall j :: 0 <= j < index && s.hasNext[j] ==> Head(s, index) < Head(s, j))
    && (forall j :: index < j < n && s.hasNext[j] && Head(s, j) == Head(s, index) ==> s.isSame[j] && hasSameKey)
  }

  /** At the cell of an input: everything smaller has been passed by all inputs. */
  ghost predicate Positioned(s: State, index: int, hasSameKey: bool)
    requires Shaped(s)
  {
    Least(s, index, hasSameKey, |s.lists|) && Behind(s, Head(s, index) - 1)
  }

  /** At the cell delivered last exactly the inputs standing at its key are flagged behind the index. */
  lemma FlaggedIsEqual(s: State, index: int, hasSameKey: bool, j: int)
    requires Shaped(s) && Positioned(s, index, hasSameKey) && index < j < |s.lists|
    ensures hasSameKey && s.isSame[j] <==> s.hasNext[j] && Head(s, j) == Head(s, index)
  {
    hide CutAt, Head;
    if s.isSame[j] {
      assert Flagged(s, j);
    }
  }

  /** The step from a delivered cell: the inputs standing at it advance and lose their flags. */
  ghost predicate Advances(s: State, s': State, k: int)
    requires Shaped(s) && Shaped(s')
  {
    && s'.lists == s.lists
    && (forall i :: 0 <= i < |s.lists| && s.hasNext[i] && Head(s, i) == k ==>
          s'.pos[i] == s.pos[i] + 1 && (s'.hasNext[i] <==> s'.pos[i] < |s.lists[i]|) && !s'.isSame[i])
    && (forall i :: 0 <= i < |s.lists| && !(s.hasNext[i] && Head(s, i) == k) ==>
          s'.pos[i] == s.pos[i] && s'.hasNext[i] == s.hasNext[i] && s'.isSame[i] == s.isSame[i])
  }

  lemma AdvancePassed(s: State, s': State, k: int)
    requires Shaped(s) && Shaped(s') && Advances(s, s', k) && Behind(s, k - 1)
    requires forall i :: 0 <= i < |s.lists| ==> Ascends(s.lists[i])
    ensures Behind(s', k)
  {
    forall i | 0 <= i < |s.lists|
      ensures CutAt(s'.lists[i], s'.pos[i], k + 1)
      ensures s'.hasNext[i] <==> s'.pos[i] < |s'.lists[i]|
    {
      AdvanceCut(s, s', k, i);
    }
    AdvanceFlags(s, s', k);
  }

  lemma AdvanceCut(s: State, s': State, k: int, i: int)
    requires Shaped(s) && Shaped(s') && Advances(s, s', k) && Behind(s, k - 1)
    requires 0 <= i < |s.lists| && Ascends(s.lists[i])
    ensures CutAt(s'.lists[i], s'.pos[i], k + 1)
    ensures s'.hasNext[i] <==> s'.pos[i] < |s'.lists[i]|
  {
    hide Flags, Rank;
    assert CutAt(s.lists[i], s.pos[i], k);
  }

  /** Only inputs at the delivered key advance: the flags that are left keep their meaning. */
  lemma AdvanceFlags(s: State, s': State, k: int)
    requires Shaped(s) && Shaped(s') && Advances(s, s', k) && Behind(s, k - 1)
    requires forall i :: 0 <= i < |s.lists| ==> Ascends(s.lists[i])
    ensures Flags(s')
  {
    forall j | 0 <= j < |s.lists| && s'.isSame[j]
      ensures Flagged(s', j)
    {
      assert Flagged(s, j);
      forall q | 0 <= q < |s.lists| && s'.hasNext[q]
        ensures s.hasNext[q] && Head(s, q) <= Head(s', q)
      {
        HeadsGrow(s, s', k, q);
      }
      var p :| 0 <= p < j && s.hasNext[p] && Head(s, p) == Head(s, j);
      assert s'.hasNext[p] && Head(s', p) == Head(s', j);
    }
  }

  lemma HeadsGrow(s: State, s': State, k: int, q: int)
    requires Shaped(s) && Shaped(s') && Advances(s, s', k) && Behind(s, k - 1)
    requires 0 <= q < |s.lists| && Ascends(s.lists[q]) && s'.hasNext[q]
    ensures s.hasNext[q] && Head(s, q) <= Head(s', q)
  {
    hide Flags, Rank;
    assert CutAt(s.lists[q], s.pos[q], k);
  }

  // ------------------------------------------------------------------------------------------
  // What is delivered
  // ------------------------------------------------------------------------------------------

  /** The cell of the first input that has the rank. */
  ghost predicate FromFirst(lists: seq<seq<Cell>>, cell: Cell)
  {
    exists i :: 0 <= i < |lists| && cell in lists[i] && forall p :: 0 <= p < i ==> !Has(lists[p], Rank(cell.key))
  }

  /** The next cell of the union behind rank b: nothing in between is left out. */
  ghost predicate NextOfUnion(lists: seq<seq<Cell>>, b: int, cell: Cell)
  {
    && b < Rank(cell.key)
    && FromFirst(lists, cell)
    && (forall r :: b < r < Rank(cell.key) ==> !InUnion(lists, r))
  }

  lemma LeastIsNext(s: State, b: int, index: int, hasSameKey: bool)
    requires Shaped(s) && Behind(s, b) && Least(s, index, hasSameKey, |s.lists|)
    requires forall i :: 0 <= i < |s.lists| ==> Ascends(s.lists[i])
    ensures NextOfUnion(s.lists, b, s.lists[index][s.pos[index]])
    ensures Positioned(s, index, hasSameKey)
  {
    hide Rank;
    var cell := s.lists[index][s.pos[index]];
    var k := Rank(cell.key);
    assert cell in s.lists[index];
    forall i, j | 0 <= i < |s.lists| && 0 <= j < |s.lists[i]|
      ensures j < s.pos[i] ==> Rank(s.lists[i][j].key) <= b
      ensures j >= s.pos[i] ==> Rank(s.lists[i][j].key) >= k && (i < index ==> Rank(s.lists[i][j].key) > k)
    {
      CellsAround(s, b, index, hasSameKey, i, j);
    }
    forall p | 0 <= p < index
      ensures !Has(s.lists[p], k)
    {
    }
    forall i | 0 <= i < |s.lists|
      ensures CutAt(s.lists[i], s.pos[i], k)
    {
    }
  }

  lemma CellsAround(s: State, b: int, index: int, hasSameKey: bool, i: int, j: int)
    requires Shaped(s) && Behind(s, b) && Least(s, index, hasSameKey, |s.lists|)
    requires 0 <= i < |s.lists| && Ascends(s.lists[i]) && 0 <= j < |s.lists[i]|
    ensures b < Head(s, index)
    ensures j < s.pos[i] ==> Rank(s.lists[i][j].key) <= b
    ensures j >= s.pos[i] ==> Head(s, index) <= Rank(s.lists[i][j].key)
    ensures j >= s.pos[i] && i < index ==> Head(s, index) < Rank(s.lists[i][j].key)
  {
    hide Flags, Rank;
    assert CutAt(s.lists[i], s.pos[i], b + 1) && CutAt(s.lists[index], s.pos[index], b + 1);
  }

  lemma NothingLeft(s: State, b: int)
    requires Shaped(s) && Behind(s, b) && forall i :: 0 <= i < |s.lists| ==> !s.hasNext[i]
    ensures forall r :: b < r ==> !InUnion(s.lists, r)
  {
    hide Flags, Rank;
    forall i, r | 0 <= i < |s.lists| && b < r
      ensures !Has(s.lists[i], r)
    {
      assert CutAt(s.lists[i], s.pos[i], b + 1);
    }
  }

  // ------------------------------------------------------------------------------------------
  // The processor
  // ------------------------------------------------------------------------------------------

  class Combination {
    const dims: nat
    const inputs: seq<Stream>
    var index: int
    var isSame: seq<bool>
    var hasNext: seq<bool>
    var hasSameKey: bool

    ghost predicate Valid()
      reads this, inputs
    {
      && |isSame| == |hasNext| == |inputs| && -1 <= index < |inputs|
      && (forall i :: 0 <= i < |inputs| ==> inputs[i].Valid() && inputs[i].dims == dims)
      && (forall i, j :: 0 <= i < j < |inputs| ==> inputs[i] != inputs[j])
    }

    ghost function Lists(): (lists: seq<seq<Cell>>)
    {
      seq(|inputs|, i requires 0 <= i < |inputs| => inputs[i].cells)
    }

    ghost function Snapshot(): (s: State)
      reads this, inputs
    {
      State(Lists(), seq(|inputs|, i requires 0 <= i < |inputs| reads inputs => inputs[i].pos), hasNext, isSame)
    }

    /** Before the first call of next. */
    ghost predicate Unstarted()
      reads this, inputs
    {
      index == -1 && forall i :: 0 <= i < |inputs| ==> inputs[i].pos == -1
    }

    ghost predicate AtCell()
      requires Valid()
      reads this, inputs
    {
      Positioned(Snapshot(), index, hasSameKey)
    }

    /** The cell delivered last. */
    function Current(): Cell
      requires Valid() && 0 <= index && 0 <= inputs[index].pos < |inputs[index].cells|
      reads this, inputs
    {
      inputs[index].cells[inputs[index].pos]
    }

    /** The rank of the cell delivered last; -1 before the first. */
    ghost function Delivered(): int
      requires Valid()
      reads this, inputs
    {
      if index == -1 then -1 else Head(Snapshot(), index)
    }

    constructor (dims: nat, inputs: seq<Stream>)
      requires forall i :: 0 <= i < |inputs| ==> inputs[i].Valid() && inputs[i].dims == dims && inputs[i].pos == -1
      requires forall i, j :: 0 <= i < j < |inputs| ==> inputs[i] != inputs[j]
      ensures Valid() && Unstarted() && this.inputs == inputs && this.dims == dims
    {
      this.dims, this.inputs, index, hasSameKey := dims, inputs, -1, false;
      isSame, hasNext := seq(|inputs|, _ => false), seq(|inputs|, _ => false);
    }

    lemma InputsAscend()
      requires Valid()
      ensures forall i :: 0 <= i < |Lists()| ==> Ascends(Lists()[i])
    {
      hide Rank;
    }

    /** Moves an input on and notes whether it has another cell. */
    method Pull(i: nat)
      requires Valid() && i < |inputs|
      modifies this`hasNext, inputs[i]
      ensures Valid() && hasNext == old(hasNext)[i := inputs[i].pos < |inputs[i].cells|]
      ensures inputs[i].pos == if old(inputs[i].pos) < |inputs[i].cells| then old(inputs[i].pos) + 1 else old(inputs[i].pos)
    {
      hide SortedCells;
      var more := inputs[i].Next();
      hasNext := hasNext[i := more];
    }

    /** The first call: all inputs go to their first cells, nothing is flagged. */
    method Start()
      requires Valid() && Unstarted()
      modifies this`isSame, this`hasNext, this`hasSameKey, inputs
      ensures Valid() && index == old(index) && !hasSameKey && forall j :: 0 <= j < |isSame| ==> !isSame[j]
      ensures Behind(Snapshot(), -1)
    {
      hide SortedCells, Behind;
      hasSameKey := false;
      for i := 0 to |inputs|
        invariant Valid() && index == old(index) && !hasSameKey
        invariant forall j :: 0 <= j < i ==> inputs[j].pos == 0 && !isSame[j] && (hasNext[j] <==> 0 < |inputs[j].cells|)
        invariant forall j :: i <= j < |inputs| ==> inputs[j].pos == -1
      {
        isSame := isSame[i := false];
        Pull(i);
      }
      StartBehind(Snapshot());
    }

    /** The current input and those flagged behind it advance and lose their flags. */
    method LeaveFlagged(ghost leaving: set<int>)
      requires Valid() && index >= 0
      requires forall j :: 0 <= j < |inputs| ==> (j in leaving <==> Leaving(j))
      requires forall j :: 0 <= j < |inputs| && j in leaving ==> inputs[j].pos < |inputs[j].cells|
      modifies this`isSame, this`hasNext, inputs
      ensures Valid()
      ensures forall j :: 0 <= j < |inputs| && j in leaving ==>
        inputs[j].pos == old(inputs[j].pos) + 1 && (hasNext[j] <==> inputs[j].pos < |inputs[j].cells|)
      ensures forall j :: 0 <= j < |inputs| && j !in leaving ==>
        inputs[j].pos == old(inputs[j].pos) && hasNext[j] == old(hasNext[j])
      ensures forall j :: 0 <= j < |inputs| ==> isSame[j] == (old(isSame[j]) && (j == index || j !in leaving))
    {
      hide SortedCells;
      Pull(index);
      if hasSameKey {
        for i := index + 1 to |inputs|
          invariant Valid()
          invariant forall j :: 0 <= j < i && j in leaving ==>
            inputs[j].pos == old(inputs[j].pos) + 1 && (hasNext[j] <==> inputs[j].pos < |inputs[j].cells|)
          invariant forall j :: 0 <= j < |inputs| && !(j in leaving && j < i) ==>
            inputs[j].pos == old(inputs[j].pos) && hasNext[j] == old(hasNext[j])
          invariant forall j :: 0 <= j < i ==> isSame[j] == (old(isSame[j]) && (j == index || j !in leaving))
          invariant forall j :: i <= j < |inputs| ==> isSame[j] == old(isSame[j])
        {
          assert i in leaving <==> old(Leaving(i));
          if isSame[i] {
            isSame := isSame[i := false];
            Pull(i);
          }
        }
      } else {
        assert forall j :: 0 <= j < |inputs| && j in leaving ==> old(Leaving(j));
      }
    }

    /** next moves this input: the current one, and any flagged behind it. */
    ghost predicate Leaving(j: int)
      requires |isSame| == |inputs|
      reads this
    {
      j == index || (index < j && 0 <= j < |inputs| && hasSameKey && isSame[j])
    }

    /** The first half of next: exactly the inputs standing at the delivered cell leave it. */
    method Leave()
      requires Valid() && (Unstarted() || (index >= 0 && AtCell()))
      modifies this`isSame, this`hasNext, this`hasSameKey, inputs
      ensures Valid() && index == old(index)
      ensures Behind(Snapshot(), old(Delivered()))
    {
      hide SortedCells, Positioned, Behind, Head;
      if index < 0 {
        Start();
      } else {
        ghost var s := Snapshot();
        InputsAscend();
        ghost var leaving := LeavingSet(s, index, hasSameKey);
        LeaveFlagged(leaving);
        AdvanceLeaving(s, Snapshot(), leaving, index, hasSameKey);
      }
    }

    /** The second half of next: goes to the smallest cell the inputs stand at. */
    method Select(ghost b: int) returns (result: bool)
      requires Valid() && Behind(Snapshot(), b)
      modifies this`index, this`isSame, this`hasSameKey
      ensures Valid() && (result <==> index >= 0)
      ensures result ==> AtCell() && 0 <= inputs[index].pos < |inputs[index].cells|
      ensures result ==> NextOfUnion(Lists(), b, Current()) && Delivered() == Rank(Current().key)
      ensures !result ==> forall r :: b < r ==> !InUnion(Lists(), r)
    {
      hide Behind, Least, NextOfUnion, InUnion, Rank, SortedCells, Ascends, Positioned, Head;
      ghost var s := Snapshot();
      InputsAscend();
      index, isSame, hasSameKey := SelectLeast(inputs, hasNext, isSame, s, b, dims);
      result := index >= 0;
      if result {
        s := s.(isSame := isSame);
        LeastHas(s, index, hasSameKey, |inputs|);
        StandsAt(s, b, index);
        LeastIsNext(s, b, index, hasSameKey);
        assert Snapshot() == s;
      } else {
        NothingLeft(s, b);
      }
    }

    /**
     * next: the next cell of the union of all inputs in key order, with the value of the first
     * input that has it; false when there is none.
     */
    method Next() returns (result: bool)
      requires Valid() && (Unstarted() || (index >= 0 && AtCell()))
      modifies this`index, this`isSame, this`hasNext, this`hasSameKey, inputs
      ensures Valid() && (result <==> index >= 0)
      ensures result ==> AtCell() && 0 <= inputs[index].pos < |inputs[index].cells|
      ensures result ==> NextOfUnion(Lists(), old(Delivered()), Current()) && Delivered() == Rank(Current().key)
      ensures !result ==> forall r :: old(Delivered()) < r ==> !InUnion(Lists(), r)
    {
      hide Behind, NextOfUnion, InUnion, Rank, SortedCells, Positioned;
      ghost var b := Delivered();
      Leave();
      result := Select(b);
    }

    /** Reads the stream to its end: the union of the inputs, sorted, each key once. */
    method ReadAll() returns (cells: seq<Cell>)
      requires Valid() && Unstarted()
      modifies this`index, this`isSame, this`hasNext, this`hasSameKey, inputs
      ensures Ascends(cells)
      ensures forall i :: 0 <= i < |cells| ==> FromFirst(Lists(), cells[i])
      ensures forall r :: Has(cells, r) <==> InUnion(Lists(), r)
    {
      hide Rank, SortedCells, FromFirst, Positioned, Head;
      cells := [];
      var more := Next();
      while more
        invariant Valid() && (more <==> index >= 0)
        invariant more ==> AtCell() && 0 <= inputs[index].pos < |inputs[index].cells|
        invariant more ==> NextOfUnion(Lists(), Last(cells), Current()) && Delivered() == Rank(Current().key)
        invariant !more ==> forall r :: Last(cells) < r ==> !InUnion(Lists(), r)
        invariant Ascends(cells) && forall i :: 0 <= i < |cells| ==> FromFirst(Lists(), cells[i])
        invariant forall r :: r <= Last(cells) ==> (Has(cells, r) <==> InUnion(Lists(), r))
        decreases HighestRank(Lists()) - Last(cells)
      {
        Collect(Lists(), cells, Current());
        cells := cells + [Current()];
        more := Next();
      }
      LastIsHighest(cells);
    }

    /** What ReadAll says of each cell: it is in one of the inputs, and its key is in none before. */
    lemma FirstToHave(cell: Cell) returns (i: nat)
      requires FromFirst(Lists(), cell)
      ensures i < |inputs| && cell in inputs[i].cells
      ensures forall p, j :: 0 <= p < i && 0 <= j < |inputs[p].cells| ==> inputs[p].cells[j].key != cell.key
    {
      hide Rank, Has;
      i :| 0 <= i < |Lists()| && cell in Lists()[i] && forall p :: 0 <= p < i ==> !Has(Lists()[p], Rank(cell.key));
      forall p, j | 0 <= p < i && 0 <= j < |inputs[p].cells|
        ensures inputs[p].cells[j].key != cell.key
      {
        NotAmong(Lists()[p], cell, j);
      }
    }
  }

  lemma NotAmong(cells: seq<Cell>, cell: Cell, j: nat)
    requires !Has(cells, Rank(cell.key)) && j < |cells|
    ensures cells[j].key != cell.key
  {
    hide Rank;
  }

  /** The inputs standing at the delivered cell: the current one and those flagged behind it. */
  lemma LeavingSet(s: State, index: int, hasSameKey: bool) returns (leaving: set<int>)
    requires Shaped(s) && Positioned(s, index, hasSameKey)
    ensures forall j :: 0 <= j < |s.lists| ==> (j in leaving <==> s.hasNext[j] && Head(s, j) == Head(s, index))
    ensures forall j :: 0 <= j < |s.lists| ==> (j in leaving <==> j == index || (index < j && hasSameKey && s.isSame[j]))
    ensures forall j :: 0 <= j < |s.lists| && j in leaving ==> s.pos[j] < |s.lists[j]|
  {
    hide Positioned, Head, Behind;
    AtLeast(s, index, hasSameKey);
    HasNextMeans(s, Head(s, index) - 1);
    leaving := set j | 0 <= j < |s.lists| && s.hasNext[j] && Head(s, j) == Head(s, index);
    forall j | index < j < |s.lists|
      ensures j in leaving <==> hasSameKey && s.isSame[j]
    {
      FlaggedIsEqual(s, index, hasSameKey, j);
    }
  }

  lemma AdvanceLeaving(s: State, s': State, leaving: set<int>, index: int, hasSameKey: bool)
    requires Shaped(s) && Shaped(s') && Positioned(s, index, hasSameKey) && s'.lists == s.lists
    requires forall i :: 0 <= i < |s.lists| ==> Ascends(s.lists[i])
    requires forall j :: 0 <= j < |s.lists| ==> (j in leaving <==> s.hasNext[j] && Head(s, j) == Head(s, index))
    requires forall j :: 0 <= j < |s.lists| && j in leaving ==>
      s'.pos[j] == s.pos[j] + 1 && (s'.hasNext[j] <==> s'.pos[j] < |s.lists[j]|)
    requires forall j :: 0 <= j < |s.lists| && j !in leaving ==> s'.pos[j] == s.pos[j] && s'.hasNext[j] == s.hasNext[j]
    requires forall j :: 0 <= j < |s.lists| ==> s'.isSame[j] == (s.isSame[j] && (j == index || j !in leaving))
    ensures Behind(s', Head(s, index))
  {
    hide Positioned, Head, Behind, Ascends;
    AtLeast(s, index, hasSameKey);
    AdvancePassed(s, s', Head(s, index));
  }

  lemma HasNextMeans(s: State, b: int)
    requires Shaped(s) && Behind(s, b)
    ensures forall i :: 0 <= i < |s.lists| ==> (s.hasNext[i] <==> s.pos[i] < |s.lists[i]|)
  {
  }

  lemma AtLeast(s: State, index: int, hasSameKey: bool)
    requires Shaped(s) && Positioned(s, index, hasSameKey)
    ensures Least(s, index, hasSameKey, |s.lists|) && Behind(s, Head(s, index) - 1) && !s.isSame[index] && s.hasNext[index]
    ensures forall i :: 0 <= i < index ==> !(s.hasNext[i] && Head(s, i) == Head(s, index))
  {
    assert s.isSame[index] ==> Flagged(s, index);
  }

  /** Before the first cell nothing is flagged. */
  lemma StartBehind(s: State)
    requires Shaped(s)
    requires forall i :: 0 <= i < |s.lists| ==> s.pos[i] == 0 && !s.isSame[i] && (s.hasNext[i] <==> 0 < |s.lists[i]|)
    ensures Behind(s, -1)
  {
  }

  /** The second half of next: the first input at the smallest key, and the flags of its equals. */
  method SelectLeast(inputs: seq<Stream>, hasNext: seq<bool>, isSame0: seq<bool>, ghost s0: State, ghost b: int, ghost dims: nat)
      returns (index: int, isSame: seq<bool>, hasSameKey: bool)
    requires Shaped(s0) && |s0.lists| == |inputs| && s0.hasNext == hasNext && s0.isSame == isSame0 && Behind(s0, b)
    requires forall i :: 0 <= i < |inputs| ==> inputs[i].Valid() && inputs[i].dims == dims
    requires forall i :: 0 <= i < |inputs| ==> s0.lists[i] == inputs[i].cells && s0.pos[i] == inputs[i].pos
    ensures -1 <= index < |inputs| && |isSame| == |inputs|
    ensures index >= 0 ==> Behind(s0.(isSame := isSame), b) && Least(s0.(isSame := isSame), index, hasSameKey, |inputs|)
    ensures index == -1 ==> isSame == isSame0 && forall i :: 0 <= i < |inputs| ==> !hasNext[i]
  {
    hide SortedCells, Head, Flagged, CutAt, Rank, Behind, Least, Flags;
    index, isSame, hasSameKey := -1, isSame0, false;
    for i := 0 to |inputs|
      invariant index == -1 && forall j :: 0 <= j < i ==> !hasNext[j]
    {
      if hasNext[i] {
        index := i;
        break;
      }
    }
    if index < 0 {
      return;
    }
    ghost var s := s0;
    HeadAlone(s, index);
    for i := index + 1 to |inputs|
      invariant 0 <= index < i && |isSame| == |inputs|
      invariant s == s0.(isSame := isSame) && Behind(s, b) && Least(s, index, hasSameKey, i)
    {
      if hasNext[i] {
        StandsAt(s, b, i);
        LeastHas(s, index, hasSameKey, i);
        StandsAt(s, b, index);
        KeyValid(inputs[i]);
        KeyValid(inputs[index]);
        var diff := CompareStreamKeys(inputs[index].GetKey(), inputs[i].GetKey(), dims);
        if diff == 0 {
          LeastEqual(s, b, index, hasSameKey, i);
          isSame := isSame[i := true];
          s := s.(isSame := isSame);
          hasSameKey := true;
        } else if diff > 0 {
          LeastSmaller(s, index, hasSameKey, i);
          index := i;
          // flags are to be cleared from index + 1 up to i, but index is i already: the range is empty and stale flags stay
          hasSameKey := false;
        } else {
          LeastBefore(s, index, hasSameKey, i);
        }
      } else {
        LeastBefore(s, index, hasSameKey, i);
      }
    }
  }

  lemma KeyValid(s: Stream)
    requires s.Valid() && 0 <= s.pos < |s.cells|
    ensures ValidKey(s.GetKey(), s.dims)
  {
  }

  lemma LeastHas(s: State, index: int, hasSameKey: bool, n: int)
    requires Shaped(s) && n <= |s.lists| && Least(s, index, hasSameKey, n)
    ensures s.hasNext[index]
  {
  }

  lemma HeadAlone(s: State, index: int)
    requires Shaped(s) && 0 <= index < |s.lists| && s.hasNext[index] && forall j :: 0 <= j < index ==> !s.hasNext[j]
    ensures Least(s, index, false, index + 1)
  {
  }

  /** An input that has a next cell stands at one. */
  lemma StandsAt(s: State, b: int, i: int)
    requires Shaped(s) && Behind(s, b) && 0 <= i < |s.lists| && s.hasNext[i]
    ensures 0 <= s.pos[i] < |s.lists[i]| && Head(s, i) == Rank(s.lists[i][s.pos[i]].key)
  {
    assert CutAt(s.lists[i], s.pos[i], b + 1);
  }

  lemma LeastEqual(s: State, b: int, index: int, hasSameKey: bool, i: int)
    requires Shaped(s) && Behind(s, b) && 0 <= i < |s.lists| && Least(s, index, hasSameKey, i)
    requires s.hasNext[i] && Head(s, i) == Head(s, index)
    ensures var s' := s.(isSame := s.isSame[i := true]); Behind(s', b) && Least(s', index, true, i + 1)
  {
    hide CutAt;
    var s' := s.(isSame := s.isSame[i := true]);
    SameHeads(s, s');
    forall j | 0 <= j < |s.lists| && s'.isSame[j]
      ensures Flagged(s', j)
    {
      if j != i {
        assert Flagged(s, j);
      }
    }
  }

  lemma SameHeads(s: State, s': State)
    requires Shaped(s) && Shaped(s') && s.lists == s'.lists && s.pos == s'.pos
    ensures forall i :: 0 <= i < |s.lists| ==> Head(s, i) == Head(s', i)
  {
  }

  lemma LeastSmaller(s: State, index: int, hasSameKey: bool, i: int)
    requires Shaped(s) && 0 <= i < |s.lists| && Least(s, index, hasSameKey, i)
    requires s.hasNext[i] && Head(s, i) < Head(s, index)
    ensures Least(s, i, false, i + 1)
  {
  }

  lemma LeastBefore(s: State, index: int, hasSameKey: bool, i: int)
    requires Shaped(s) && 0 <= i < |s.lists| && Least(s, index, hasSameKey, i)
    requires s.hasNext[i] ==> Head(s, index) < Head(s, i)
    ensures Least(s, index, hasSameKey, i + 1)
  {
  }

  // ------------------------------------------------------------------------------------------
  // Reading to the end
  // ------------------------------------------------------------------------------------------

  ghost function Last(cells: seq<Cell>): int
  {
    if cells == [] then -1 else Rank(cells[|cells| - 1].key)
  }

  /** One more cell of the union: everything up to it has now been delivered. */
  lemma Collect(lists: seq<seq<Cell>>, cells: seq<Cell>, cell: Cell)
    requires NextOfUnion(lists, Last(cells), cell) && Ascends(cells)
    requires forall r :: r <= Last(cells) ==> (Has(cells, r) <==> InUnion(lists, r))
    ensures Ascends(cells + [cell]) && Last(cells + [cell]) == Rank(cell.key)
    ensures forall r :: r <= Rank(cell.key) ==> (Has(cells + [cell], r) <==> InUnion(lists, r))
    ensures Rank(cell.key) <= HighestRank(lists)
  {
    hide Rank, InUnion, Has, HighestRank;
    HasInit(cells + [cell]);
    assert (cells + [cell])[..|cells|] == cells;
    FirstIsInUnion(lists, cell);
    LastIsHighest(cells);
  }

  lemma FirstIsInUnion(lists: seq<seq<Cell>>, cell: Cell)
    requires FromFirst(lists, cell)
    ensures InUnion(lists, Rank(cell.key))
  {
    hide Rank;
    var i :| 0 <= i < |lists| && cell in lists[i];
    var j :| 0 <= j < |lists[i]| && lists[i][j] == cell;
    assert Has(lists[i], Rank(cell.key));
  }

  lemma LastIsHighest(cells: seq<Cell>)
    requires Ascends(cells)
    ensures forall r :: Has(cells, r) ==> r <= Last(cells)
  {
    hide Rank;
  }
}
