/** What the operations of a paged vector do to the contents of its pages. */
module SlimLayouts {

  function Inserted<T>(s: seq<T>, offset: nat, value: T): (r: seq<T>)
    requires offset <= |s|
    ensures |r| == |s| + 1
  {
    s[..offset] + [value] + s[offset..]
  }

  function Removed<T>(s: seq<T>, offset: nat): (r: seq<T>)
    requires offset < |s|
    ensures |r| == |s| - 1
  {
    s[..offset] + s[offset + 1..]
  }

  /** insertBefore: a full page is divided in the middle first. */
  function InsertedAt<T>(ps: seq<seq<T>>, cap: nat, page: nat, offset: nat, value: T): seq<seq<T>>
    requires page < |ps| && offset <= |ps[page]|
  {
    var p := ps[page];
    if |p| == cap then
      var cutOff := |p| / 2;
      if offset < cutOff
      then ps[..page] + [Inserted(p[..cutOff], offset, value), p[cutOff..]] + ps[page + 1..]
      else ps[..page] + [p[..cutOff], Inserted(p[cutOff..], offset - cutOff, value)] + ps[page + 1..]
    else ps[page := Inserted(p, offset, value)]
  }

  /** erase: a page that is almost empty is removed with its last element, or joined with a neighbour. */
  function ErasedAt<T>(ps: seq<seq<T>>, cap: nat, page: nat, offset: nat): seq<seq<T>>
    requires page < |ps| && offset < |ps[page]|
  {
    var p, rest := ps[page], Removed(ps[page], offset);
    if |p| * 10 > cap * 3 then ps[page := rest]
    else if |p| == 1 then ps[..page] + ps[page + 1..]
    else if page > 0 && |ps[page - 1]| + |rest| < cap then ps[..page - 1] + [ps[page - 1] + rest] + ps[page + 1..]
    else if page < |ps| - 1 && |ps[page + 1]| + |rest| < cap then ps[..page] + [rest + ps[page + 1]] + ps[page + 2..]
    else ps[page := rest]
  }

  /** push_back: into the last page, or into a new one if that is full. */
  function PushedBack<T>(ps: seq<seq<T>>, cap: nat, value: T): seq<seq<T>>
  {
    if ps != [] && |ps[|ps| - 1]| < cap then ps[|ps| - 1 := ps[|ps| - 1] + [value]] else ps + [[value]]
  }

  /** Dividing a page: a new page behind it takes over the elements from the cut on. */
  function Divided<T>(ps: seq<seq<T>>, page: nat, cutOff: nat): seq<seq<T>>
    requires page < |ps| && cutOff <= |ps[page]|
  {
    var added := ps[..page + 1] + [[]] + ps[page + 1..];
    added[page + 1 := added[page + 1] + added[page][cutOff..]][page := added[page][..cutOff]]
  }

  lemma DividedPages<T>(ps: seq<seq<T>>, page: nat, cutOff: nat)
    requires page < |ps| && cutOff <= |ps[page]|
    ensures Divided(ps, page, cutOff) == ps[..page] + [ps[page][..cutOff], ps[page][cutOff..]] + ps[page + 1..]
  {
    assert [] + ps[page][cutOff..] == ps[page][cutOff..];
  }

  lemma DividedInsert<T>(ps: seq<seq<T>>, cap: nat, page: nat, offset: nat, value: T)
    requires page < |ps| && offset <= |ps[page]| == cap
    ensures var d, cutOff := Divided(ps, page, cap / 2), cap / 2;
      |d| == |ps| + 1 && |d[page]| == cutOff && |d[page + 1]| == cap - cutOff &&
      InsertedAt(ps, cap, page, offset, value) ==
        (if offset < cutOff then d[page := Inserted(d[page], offset, value)]
         else d[page + 1 := Inserted(d[page + 1], offset - cutOff, value)])
  {
    hide Divided, Inserted;
    DividedPages(ps, page, cap / 2);
  }

  /** A page joined with a neighbour, if the two together do not fill a page. */
  function Joined<T>(qs: seq<seq<T>>, cap: nat, page: nat): seq<seq<T>>
    requires page < |qs|
  {
    if page > 0 && |qs[page - 1]| + |qs[page]| < cap then qs[..page - 1] + [qs[page - 1] + qs[page]] + qs[page + 1..]
    else if page + 1 < |qs| && |qs[page + 1]| + |qs[page]| < cap then qs[..page] + [qs[page] + qs[page + 1]] + qs[page + 2..]
    else qs
  }

  lemma ErasedCases<T>(ps: seq<seq<T>>, cap: nat, page: nat, offset: nat)
    requires page < |ps| && offset < |ps[page]|
    ensures var rest := Removed(ps[page], offset); var qs := ps[page := rest];
      && (|ps[page]| * 10 > cap * 3 ==> ErasedAt(ps, cap, page, offset) == qs)
      && (|ps[page]| * 10 <= cap * 3 && |ps[page]| == 1 ==> ErasedAt(ps, cap, page, offset) == ps[..page] + ps[page + 1..])
      && (|ps[page]| * 10 <= cap * 3 && |ps[page]| > 1 ==> ErasedAt(ps, cap, page, offset) == Joined(qs, cap, page))
  {
    hide Removed;
  }

  /** The elements in the order of the pages. */
  function Flat<T>(ps: seq<seq<T>>): seq<T>
  {
    if ps == [] then [] else ps[0] + Flat(ps[1..])
  }

  /** The index of an element given by page and offset. */
  function IndexOf<T>(ps: seq<seq<T>>, page: nat, offset: nat): nat
    requires page <= |ps|
  {
    |Flat(ps[..page])| + offset
  }

  lemma {:induction false} FlatConcat<T>(a: seq<seq<T>>, b: seq<seq<T>>)
    ensures Flat(a + b) == Flat(a) + Flat(b)
  {
    if a == [] {
      assert a + b == b;
    } else {
      assert (a + b)[1..] == a[1..] + b;
      FlatConcat(a[1..], b);
    }
  }

  lemma FlatOne<T>(p: seq<T>)
    ensures Flat([p]) == p
  {
    assert [p][1..] == [];
  }

  /** One page between others. */
  lemma FlatAround<T>(a: seq<seq<T>>, p: seq<T>, b: seq<seq<T>>)
    ensures Flat(a + [p] + b) == Flat(a) + p + Flat(b)
  {
    hide Flat;
    FlatConcat(a + [p], b);
    FlatConcat(a, [p]);
    FlatOne(p);
  }

  lemma FlatTwo<T>(a: seq<seq<T>>, p: seq<T>, q: seq<T>, b: seq<seq<T>>)
    ensures Flat(a + [p, q] + b) == Flat(a) + (p + q) + Flat(b)
  {
    hide Flat;
    assert a + [p, q] + b == a + [p] + ([q] + b);
    FlatAround(a, p, [q] + b);
    FlatConcat([q], b);
    FlatOne(q);
  }

  lemma SplitAt<T>(ps: seq<seq<T>>, page: nat, p: seq<T>)
    requires page < |ps|
    ensures ps == ps[..page] + [ps[page]] + ps[page + 1..]
    ensures ps[page := p] == ps[..page] + [p] + ps[page + 1..]
  {
  }

  lemma FlatAt<T>(ps: seq<seq<T>>, page: nat)
    requires page < |ps|
    ensures Flat(ps) == Flat(ps[..page]) + ps[page] + Flat(ps[page + 1..])
  {
    hide Flat;
    var a, p, b := ps[..page], ps[page], ps[page + 1..];
    SplitAt(ps, page, p);
    FlatAround(a, p, b);
  }

  lemma FlatReplaced<T>(ps: seq<seq<T>>, page: nat, p: seq<T>)
    requires page < |ps|
    ensures Flat(ps[page := p]) == Flat(ps[..page]) + p + Flat(ps[page + 1..])
  {
    hide Flat;
    var a, b := ps[..page], ps[page + 1..];
    SplitAt(ps, page, p);
    FlatAround(a, p, b);
  }

  lemma InsertedBetween<T>(a: seq<T>, p: seq<T>, b: seq<T>, offset: nat, value: T)
    requires offset <= |p|
    ensures a + Inserted(p, offset, value) + b == Inserted(a + p + b, |a| + offset, value)
  {
  }

  lemma InsertedFirst<T>(p: seq<T>, cutOff: nat, offset: nat, value: T)
    requires offset <= cutOff <= |p|
    ensures Inserted(p[..cutOff], offset, value) + p[cutOff..] == Inserted(p, offset, value)
  {
    assert p[offset..] == p[..cutOff][offset..] + p[cutOff..];
  }

  lemma InsertedSecond<T>(p: seq<T>, cutOff: nat, offset: nat, value: T)
    requires cutOff <= offset <= |p|
    ensures p[..cutOff] + Inserted(p[cutOff..], offset - cutOff, value) == Inserted(p, offset, value)
  {
    assert p[..offset] == p[..cutOff] + p[cutOff..][..offset - cutOff];
    assert p[cutOff..][offset - cutOff..] == p[offset..];
  }

  lemma RemovedBetween<T>(a: seq<T>, p: seq<T>, b: seq<T>, offset: nat)
    requires offset < |p|
    ensures a + Removed(p, offset) + b == Removed(a + p + b, |a| + offset)
  {
  }

  /** Inserting into a page inserts at the corresponding index of the whole, dividing pages or not. */
  lemma FlatInserted<T>(ps: seq<seq<T>>, cap: nat, page: nat, offset: nat, value: T)
    requires page < |ps| && offset <= |ps[page]|
    ensures IndexOf(ps, page, offset) <= |Flat(ps)|
    ensures Flat(InsertedAt(ps, cap, page, offset, value)) == Inserted(Flat(ps), IndexOf(ps, page, offset), value)
  {
    hide Flat;
    var p, a, b := ps[page], ps[..page], ps[page + 1..];
    FlatAt(ps, page);
    InsertedBetween(Flat(a), p, Flat(b), offset, value);
    if |p| == cap {
      var cutOff := |p| / 2;
      if offset < cutOff {
        FlatTwo(a, Inserted(p[..cutOff], offset, value), p[cutOff..], b);
        InsertedFirst(p, cutOff, offset, value);
      } else {
        FlatTwo(a, p[..cutOff], Inserted(p[cutOff..], offset - cutOff, value), b);
        InsertedSecond(p, cutOff, offset, value);
      }
    } else {
      FlatReplaced(ps, page, Inserted(p, offset, value));
    }
  }

  /** Erasing removes exactly the element, whatever happens to the pages. */
  lemma FlatErased<T>(ps: seq<seq<T>>, cap: nat, page: nat, offset: nat)
    requires page < |ps| && offset < |ps[page]|
    ensures IndexOf(ps, page, offset) < |Flat(ps)|
    ensures Flat(ErasedAt(ps, cap, page, offset)) == Removed(Flat(ps), IndexOf(ps, page, offset))
  {
    hide Flat, Removed, ErasedAt;
    FlatAt(ps, page);
    RemovedBetween(Flat(ps[..page]), ps[page], Flat(ps[page + 1..]), offset);
    FlatErasedPages(ps, cap, page, offset);
  }

  lemma FlatErasedPages<T>(ps: seq<seq<T>>, cap: nat, page: nat, offset: nat)
    requires page < |ps| && offset < |ps[page]|
    ensures Flat(ErasedAt(ps, cap, page, offset)) == Flat(ps[..page]) + Removed(ps[page], offset) + Flat(ps[page + 1..])
  {
    hide Flat, Removed;
    var p, rest, a, b := ps[page], Removed(ps[page], offset), ps[..page], ps[page + 1..];
    if |p| * 10 > cap * 3 {
      FlatReplaced(ps, page, rest);
    } else if |p| == 1 {
      FlatConcat(a, b);
      assert Flat(a) + rest + Flat(b) == Flat(a) + Flat(b);
    } else if page > 0 && |ps[page - 1]| + |rest| < cap {
      FlatJoinedPrevious(ps, page, rest);
    } else if page < |ps| - 1 && |ps[page + 1]| + |rest| < cap {
      FlatJoinedNext(ps, page, rest);
    } else {
      FlatReplaced(ps, page, rest);
    }
  }

  lemma FlatJoinedPrevious<T>(ps: seq<seq<T>>, page: nat, rest: seq<T>)
    requires 0 < page < |ps|
    ensures Flat(ps[..page - 1] + [ps[page - 1] + rest] + ps[page + 1..]) == Flat(ps[..page]) + rest + Flat(ps[page + 1..])
  {
    hide Flat;
    var a, q, b := ps[..page - 1], ps[page - 1], ps[page + 1..];
    FlatAround(a, q + rest, b);
    assert ps[..page] == a + [q];
    FlatConcat(a, [q]);
    FlatOne(q);
    assert Flat(a) + (q + rest) + Flat(b) == (Flat(a) + q) + rest + Flat(b);
  }

  lemma FlatJoinedNext<T>(ps: seq<seq<T>>, page: nat, rest: seq<T>)
    requires page + 1 < |ps|
    ensures Flat(ps[..page] + [rest + ps[page + 1]] + ps[page + 2..]) == Flat(ps[..page]) + rest + Flat(ps[page + 1..])
  {
    hide Flat;
    var a, q, b := ps[..page], ps[page + 1], ps[page + 2..];
    FlatAround(a, rest + q, b);
    assert ps[page + 1..] == [q] + b;
    FlatConcat([q], b);
    FlatOne(q);
    assert Flat(a) + (rest + q) + Flat(b) == Flat(a) + rest + (q + Flat(b));
  }

  lemma FlatNone<T>()
    ensures Flat<T>([]) == []
  {
  }

  lemma FlatPushed<T>(ps: seq<seq<T>>, cap: nat, value: T)
    ensures Flat(PushedBack(ps, cap, value)) == Flat(ps) + [value]
  {
    hide Flat;
    if ps != [] && |ps[|ps| - 1]| < cap {
      FlatAt(ps, |ps| - 1);
      FlatReplaced(ps, |ps| - 1, ps[|ps| - 1] + [value]);
      assert ps[|ps|..] == [];
      FlatNone<T>();
    } else {
      FlatConcat(ps, [[value]]);
      FlatOne([value]);
    }
  }

  // ------------------------------------------------------------------------------------------
  // Lockstep
  // ------------------------------------------------------------------------------------------

  /** Two paged vectors with pages of the same sizes. */
  ghost predicate SameShape<K, V>(ks: seq<seq<K>>, vs: seq<seq<V>>)
  {
    |ks| == |vs| && forall i :: 0 <= i < |ks| ==> |ks[i]| == |vs[i]|
  }

  lemma SameSplice<K, V>(a: seq<seq<K>>, m: seq<seq<K>>, b: seq<seq<K>>, a': seq<seq<V>>, m': seq<seq<V>>, b': seq<seq<V>>)
    requires SameShape(a, a') && SameShape(m, m') && SameShape(b, b')
    ensures SameShape(a + m + b, a' + m' + b')
  {
  }

  lemma SameSlice<K, V>(ks: seq<seq<K>>, vs: seq<seq<V>>, i: nat, j: nat)
    requires SameShape(ks, vs) && i <= j <= |ks|
    ensures SameShape(ks[i..j], vs[i..j])
  {
  }

  lemma SameReplaced<K, V>(ks: seq<seq<K>>, vs: seq<seq<V>>, page: nat, k: seq<K>, v: seq<V>)
    requires SameShape(ks, vs) && page < |ks| && |k| == |v|
    ensures SameShape(ks[page := k], vs[page := v])
  {
  }

  /** The same operation at the same place keeps the shapes the same. */
  lemma SameInserted<K, V>(ks: seq<seq<K>>, vs: seq<seq<V>>, cap: nat, page: nat, offset: nat, k: K, v: V)
    requires SameShape(ks, vs) && page < |ks| && offset <= |ks[page]|
    ensures SameShape(InsertedAt(ks, cap, page, offset, k), InsertedAt(vs, cap, page, offset, v))
  {
    hide SameShape, Inserted;
    SamePages(ks, vs);
    if |ks[page]| == cap {
      var p, q, cutOff := ks[page], vs[page], cap / 2;
      SameSlice(ks, vs, 0, page);
      SameSlice(ks, vs, page + 1, |ks|);
      assert ks[0..page] == ks[..page] && vs[0..page] == vs[..page];
      assert ks[page + 1..|ks|] == ks[page + 1..] && vs[page + 1..|ks|] == vs[page + 1..];
      if offset < cutOff {
        SameTwo(Inserted(p[..cutOff], offset, k), p[cutOff..], Inserted(q[..cutOff], offset, v), q[cutOff..]);
        SameSplice(ks[..page], [Inserted(p[..cutOff], offset, k), p[cutOff..]], ks[page + 1..],
          vs[..page], [Inserted(q[..cutOff], offset, v), q[cutOff..]], vs[page + 1..]);
      } else {
        var o := offset - cutOff;
        SameTwo(p[..cutOff], Inserted(p[cutOff..], o, k), q[..cutOff], Inserted(q[cutOff..], o, v));
        SameSplice(ks[..page], [p[..cutOff], Inserted(p[cutOff..], o, k)], ks[page + 1..],
          vs[..page], [q[..cutOff], Inserted(q[cutOff..], o, v)], vs[page + 1..]);
      }
    } else {
      SameReplaced(ks, vs, page, Inserted(ks[page], offset, k), Inserted(vs[page], offset, v));
    }
  }

  lemma SameTwo<K, V>(k: seq<K>, k': seq<K>, v: seq<V>, v': seq<V>)
    requires |k| == |v| && |k'| == |v'|
    ensures SameShape([k, k'], [v, v'])
  {
  }

  lemma SameErased<K, V>(ks: seq<seq<K>>, vs: seq<seq<V>>, cap: nat, page: nat, offset: nat)
    requires SameShape(ks, vs) && page < |ks| && offset < |ks[page]|
    ensures SameShape(ErasedAt(ks, cap, page, offset), ErasedAt(vs, cap, page, offset))
  {
    var k, v := Removed(ks[page], offset), Removed(vs[page], offset);
    hide SameShape, Removed;
    SamePages(ks, vs);
    SameReplaced(ks, vs, page, k, v);
    SameSlice(ks, vs, 0, page);
    SameSlice(ks, vs, page + 1, |ks|);
    assert ks[0..page] == ks[..page] && vs[0..page] == vs[..page];
    assert ks[page + 1..|ks|] == ks[page + 1..] && vs[page + 1..|ks|] == vs[page + 1..];
    if |ks[page]| * 10 <= cap * 3 {
      if |ks[page]| == 1 {
        SameConcat(ks[..page], ks[page + 1..], vs[..page], vs[page + 1..]);
      } else if page > 0 && |ks[page - 1]| + |k| < cap {
        SameSlice(ks, vs, 0, page - 1);
        SameOne(ks[page - 1] + k, vs[page - 1] + v);
        SameSplice(ks[..page - 1], [ks[page - 1] + k], ks[page + 1..], vs[..page - 1], [vs[page - 1] + v], vs[page + 1..]);
      } else if page < |ks| - 1 && |ks[page + 1]| + |k| < cap {
        SameSlice(ks, vs, page + 2, |ks|);
        SameOne(k + ks[page + 1], v + vs[page + 1]);
        SameSplice(ks[..page], [k + ks[page + 1]], ks[page + 2..], vs[..page], [v + vs[page + 1]], vs[page + 2..]);
      }
    }
  }

  lemma SamePages<K, V>(ks: seq<seq<K>>, vs: seq<seq<V>>)
    requires SameShape(ks, vs)
    ensures |ks| == |vs| && forall i :: 0 <= i < |ks| ==> |ks[i]| == |vs[i]|
  {
  }

  lemma SameOne<K, V>(k: seq<K>, v: seq<V>)
    requires |k| == |v|
    ensures SameShape([k], [v])
  {
  }

  lemma SameConcat<K, V>(a: seq<seq<K>>, b: seq<seq<K>>, a': seq<seq<V>>, b': seq<seq<V>>)
    requires SameShape(a, a') && SameShape(b, b')
    ensures SameShape(a + b, a' + b')
  {
  }

  lemma SamePushed<K, V>(ks: seq<seq<K>>, vs: seq<seq<V>>, cap: nat, k: K, v: V)
    requires SameShape(ks, vs)
    ensures SameShape(PushedBack(ks, cap, k), PushedBack(vs, cap, v))
  {
  }

  lemma {:induction false} SameFlat<K, V>(ks: seq<seq<K>>, vs: seq<seq<V>>)
    requires SameShape(ks, vs)
    ensures |Flat(ks)| == |Flat(vs)|
  {
    if ks != [] {
      assert SameShape(ks[1..], vs[1..]);
      SameFlat(ks[1..], vs[1..]);
    }
  }

  // ------------------------------------------------------------------------------------------
  // Page sizes
  // ------------------------------------------------------------------------------------------

  /** No page is empty or over-full. */
  ghost predicate Packed<T>(ps: seq<seq<T>>, cap: nat)
  {
    forall i :: 0 <= i < |ps| ==> 0 < |ps[i]| <= cap
  }

  lemma PackedInserted<T>(ps: seq<seq<T>>, cap: nat, page: nat, offset: nat, value: T)
    requires Packed(ps, cap) && cap >= 2 && page < |ps| && offset <= |ps[page]|
    ensures Packed(InsertedAt(ps, cap, page, offset, value), cap)
  {
  }

  lemma PackedPushed<T>(ps: seq<seq<T>>, cap: nat, value: T)
    requires Packed(ps, cap) && cap > 0
    ensures Packed(PushedBack(ps, cap, value), cap)
  {
  }

  lemma PackedErased<T>(ps: seq<seq<T>>, cap: nat, page: nat, offset: nat)
    requires Packed(ps, cap) && cap >= 4 && page < |ps| && offset < |ps[page]|
    ensures Packed(ErasedAt(ps, cap, page, offset), cap)
  {
  }

  /** Erasing always keeps pages from being empty, for every vector of non-empty pages. */
  ghost predicate EraseLeavesNoEmptyPage(cap: nat)
  {
    forall ps: seq<seq<int>>, page: nat, offset: nat ::
      Packed(ps, cap) && page < |ps| && offset < |ps[page]| ==> Packed(ErasedAt(ps, cap, page, offset), cap)
  }

  /** It does so exactly for pages of at least four elements: on smaller ones a single element is not "almost empty". */
  lemma EmptyPagesExactly(cap: nat)
    requires cap > 0
    ensures EraseLeavesNoEmptyPage(cap) <==> cap >= 4
  {
    if cap >= 4 {
      forall ps: seq<seq<int>>, page: nat, offset: nat | Packed(ps, cap) && page < |ps| && offset < |ps[page]|
        ensures Packed(ErasedAt(ps, cap, page, offset), cap)
      {
        PackedErased(ps, cap, page, offset);
      }
    } else {
      var ps := [[7]];
      assert Packed(ps, cap);
      assert ErasedAt(ps, cap, 0, 0)[0] == [];
      assert !Packed(ErasedAt(ps, cap, 0, 0), cap);
    }
  }
}
