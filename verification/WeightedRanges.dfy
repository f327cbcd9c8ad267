/** Weighted range sequences: what the range iterators of a WeightedSet run over. */
module WeightedRanges {
  import opened Ids
  import opened Wrappers

  datatype WRange = WRange(low: nat, high: nat, weight: real)

  /** Proper ranges in ascending order; neighbours may touch. */
  ghost predicate WSorted(ws: seq<WRange>)
  {
    && (forall i :: 0 <= i < |ws| ==> ws[i].low <= ws[i].high < NO_IDENTIFIER)
    && (forall i, j :: 0 <= i < j < |ws| ==> ws[i].high < ws[j].low)
  }

  /** The weight of an id, if some range covers it. */
  function WeightAt(ws: seq<WRange>, x: int): Option<real>
  {
    if ws == [] then None
    else if ws[0].low <= x <= ws[0].high then Some(ws[0].weight)
    else WeightAt(ws[1..], x)
  }

  /** No range starts at or below x: nothing covers it. */
  lemma {:induction false} WeightBefore(ws: seq<WRange>, x: int)
    requires forall i :: 0 <= i < |ws| ==> x < ws[i].low
    ensures WeightAt(ws, x) == None
  {
    if ws != [] {
      WeightBefore(ws[1..], x);
    }
  }

  /** Every range ends below x: nothing covers it. */
  lemma {:induction false} WeightBehind(ws: seq<WRange>, x: int)
    requires forall i :: 0 <= i < |ws| ==> ws[i].high < x
    ensures WeightAt(ws, x) == None
  {
    if ws != [] {
      WeightBehind(ws[1..], x);
    }
  }

  lemma {:induction false} WeightConcat(a: seq<WRange>, b: seq<WRange>, x: int)
    ensures WeightAt(a + b, x) == if WeightAt(a, x).Some? then WeightAt(a, x) else WeightAt(b, x)
  {
    if a == [] {
      assert a + b == b;
    } else {
      assert (a + b)[1..] == a[1..] + b;
      WeightConcat(a[1..], b, x);
    }
  }

  lemma WeightOne(r: WRange, x: int)
    ensures WeightAt([r], x) == if r.low <= x <= r.high then Some(r.weight) else None
  {
    assert [r][1..] == [];
  }

  /** A covering range decides the weight, since sorted ranges do not overlap. */
  lemma {:induction false} WeightIn(ws: seq<WRange>, i: nat, x: int)
    requires WSorted(ws) && i < |ws| && ws[i].low <= x <= ws[i].high
    ensures WeightAt(ws, x) == Some(ws[i].weight)
  {
    if i > 0 {
      assert ws[0].high < ws[i].low;
      WeightIn(ws[1..], i - 1, x);
    }
  }

  /** A covered id has a covering range. */
  lemma {:induction false} WeightWitness(ws: seq<WRange>, x: int) returns (i: nat)
    requires WeightAt(ws, x).Some?
    ensures i < |ws| && ws[i].low <= x <= ws[i].high && WeightAt(ws, x) == Some(ws[i].weight)
  {
    if ws[0].low <= x <= ws[0].high {
      i := 0;
    } else {
      i := WeightWitness(ws[1..], x);
      i := i + 1;
    }
  }

  lemma WSortedTail(ws: seq<WRange>)
    requires WSorted(ws) && ws != []
    ensures WSorted(ws[1..])
  {
  }
}
