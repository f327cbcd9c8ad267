/** SlimMap: a sorted map kept as a paged vector of keys and one of values, page by page in lockstep. */
module SlimMaps {
  import opened Wrappers
  import opened SlimLayouts
  import opened SlimPages
  import opened SlimVectors

  // ------------------------------------------------------------------------------------------
  // Places
  // ------------------------------------------------------------------------------------------

  /** An iterator: a page and an offset in it, or the page behind the last with offset 0. */
  datatype Place = Place(page: nat, offset: nat)

  ghost predicate AtElement<T>(ps: seq<seq<T>>, p: Place)
  {
    p.page < |ps| && p.offset < |ps[p.page]|
  }

  ghost predicate ValidPlace<T>(ps: seq<seq<T>>, p: Place)
  {
    AtElement(ps, p) || p == Place(|ps|, 0)
  }

  ghost predicate NoEmptyPage<T>(ps: seq<seq<T>>)
  {
    forall i :: 0 <= i < |ps| ==> ps[i] != []
  }

  function Index<T>(ps: seq<seq<T>>, p: Place): nat
    requires p.page <= |ps|
  {
    IndexOf(ps, p.page, p.offset)
  }

  lemma PlaceElement<T>(ps: seq<seq<T>>, p: Place)
    requires AtElement(ps, p)
    ensures Index(ps, p) < |Flat(ps)| && Flat(ps)[Index(ps, p)] == ps[p.page][p.offset]
  {
    hide Flat;
    FlatAt(ps, p.page);
  }

  lemma PlaceEnd<T>(ps: seq<seq<T>>)
    ensures Index(ps, Place(|ps|, 0)) == |Flat(ps)|
  {
    assert ps[..|ps|] == ps;
  }

  /** The first place of the next page follows the last place of a page. */
  lemma PageIndex<T>(ps: seq<seq<T>>, page: nat)
    requires page < |ps|
    ensures |Flat(ps[..page + 1])| == |Flat(ps[..page])| + |ps[page]|
  {
    hide Flat;
    assert ps[..page + 1] == ps[..page] + [ps[page]];
    FlatConcat(ps[..page], [ps[page]]);
    FlatOne(ps[page]);
  }

  lemma {:induction false} PagesAscend<T>(ps: seq<seq<T>>, p: nat, q: nat)
    requires p <= q <= |ps| && NoEmptyPage(ps)
    ensures |Flat(ps[..p])| + (q - p) <= |Flat(ps[..q])|
    decreases q
  {
    if p < q {
      PagesAscend(ps, p, q - 1);
      PageIndex(ps, q - 1);
      assert ps[q - 1] != [];
    }
  }

  /** operator++ */
  function NextPlace<T>(ps: seq<seq<T>>, p: Place): (r: Place)
    requires p.page < |ps| && p.offset < |ps[p.page]|
  {
    if p.offset + 1 >= |ps[p.page]| then Place(p.page + 1, 0) else Place(p.page, p.offset + 1)
  }

  lemma NextIndex<T>(ps: seq<seq<T>>, p: Place)
    requires AtElement(ps, p) && NoEmptyPage(ps)
    ensures ValidPlace(ps, NextPlace(ps, p)) && Index(ps, NextPlace(ps, p)) == Index(ps, p) + 1
  {
    hide Flat;
    PageIndex(ps, p.page);
  }

  /** Places are equal exactly if their indices are. */
  lemma PlaceUnique<T>(ps: seq<seq<T>>, p: Place, q: Place)
    requires ValidPlace(ps, p) && ValidPlace(ps, q) && NoEmptyPage(ps)
    ensures Index(ps, p) == Index(ps, q) <==> p == q
    ensures p.page < q.page ==> Index(ps, p) < Index(ps, q)
  {
    hide Flat;
    if p.page < q.page {
      PageIndex(ps, p.page);
      PagesAscend(ps, p.page + 1, q.page);
    } else if q.page < p.page {
      PageIndex(ps, q.page);
      PagesAscend(ps, q.page + 1, p.page);
    }
  }

  // ------------------------------------------------------------------------------------------
  // Finding
  // ------------------------------------------------------------------------------------------

  ghost predicate Ascending(s: seq<nat>)
  {
    forall i, j :: 0 <= i < j < |s| ==> s[i] < s[j]
  }

  /** The middle of a search: inside the page if both ends are on it, else the last place of the middle page. */
  function Middle(ks: seq<seq<nat>>, begin: Place, end: Place): (m: Place)
    requires begin.page < |ks| && begin.page <= end.page <= |ks| && NoEmptyPage(ks)
    requires begin.page == end.page ==> begin.offset < end.offset
  {
    if begin.page == end.page then Place(begin.page, begin.offset + (end.offset - begin.offset) / 2)
    else
      var page := begin.page + (end.page - begin.page) / 2;
      assert ks[page] != [];
      Place(page, |ks[page]| - 1)
  }

  /** The middle lies at or behind the begin and in front of the end. */
  lemma MiddleBetween(ks: seq<seq<nat>>, begin: Place, end: Place)
    requires NoEmptyPage(ks) && ValidPlace(ks, begin) && ValidPlace(ks, end) && Index(ks, begin) < Index(ks, end)
    ensures begin.page < |ks| && begin.page <= end.page && (begin.page == end.page ==> begin.offset < end.offset)
    ensures var m := Middle(ks, begin, end);
      AtElement(ks, m) && Index(ks, begin) <= Index(ks, m) < Index(ks, end)
  {
    hide Flat;
    PlaceEnd(ks);
    PlaceUnique(ks, begin, end);
    PlaceUnique(ks, end, begin);
    if begin.page < end.page {
      var m := Middle(ks, begin, end);
      PlaceUnique(ks, m, end);
      if begin.page < m.page {
        PlaceUnique(ks, begin, m);
      }
    }
  }

  /** find: binary search over pages first, then inside one; the end if the key is absent and no closest place is wanted. */
  function Find(ks: seq<seq<nat>>, begin: Place, end: Place, key: nat, returnClosest: bool): (r: Place)
    requires NoEmptyPage(ks) && ValidPlace(ks, begin) && ValidPlace(ks, end) && Index(ks, begin) <= Index(ks, end)
    ensures ValidPlace(ks, r)
    decreases Index(ks, end) - Index(ks, begin)
  {
    if begin == end then
      if end.page != |ks| then
        if ks[end.page][end.offset] == key then end else if returnClosest then begin else Place(|ks|, 0)
      else if returnClosest then begin else Place(|ks|, 0)
    else
      PlaceUnique(ks, begin, end);
      MiddleBetween(ks, begin, end);
      var m := Middle(ks, begin, end);
      if ks[m.page][m.offset] < key then
        NextIndex(ks, m);
        Find(ks, NextPlace(ks, m), end, key, returnClosest)
      else
        Find(ks, begin, m, key, returnClosest)
  }

  ghost predicate SmallerBefore(s: seq<nat>, i: nat, key: nat)
  {
    i <= |s| && forall j :: 0 <= j < i ==> s[j] < key
  }

  ghost predicate NotSmallerFrom(s: seq<nat>, i: nat, key: nat)
  {
    i <= |s| && forall j :: i <= j < |s| ==> key <= s[j]
  }

  /** Everything before the index is smaller than the key, everything from it on is not. */
  ghost predicate LowerBound(s: seq<nat>, i: nat, key: nat)
  {
    SmallerBefore(s, i, key) && NotSmallerFrom(s, i, key)
  }

  lemma SmallerNext(s: seq<nat>, i: nat, key: nat)
    requires Ascending(s) && i < |s| && s[i] < key
    ensures SmallerBefore(s, i + 1, key)
  {
  }

  lemma NotSmallerHere(s: seq<nat>, i: nat, key: nat)
    requires Ascending(s) && i < |s| && key <= s[i]
    ensures NotSmallerFrom(s, i, key)
  {
  }

  lemma AbsentOrThere(s: seq<nat>, i: nat, key: nat)
    requires LowerBound(s, i, key)
    ensures i < |s| && s[i] != key ==> Ascending(s) ==> key !in s
    ensures i == |s| ==> key !in s
  {
  }

  /** The closest place is the lower bound of the key; otherwise the place of the key, or the end. */
  lemma {:induction false} FindMeaning(ks: seq<seq<nat>>, begin: Place, end: Place, key: nat, returnClosest: bool)
    requires NoEmptyPage(ks) && ValidPlace(ks, begin) && ValidPlace(ks, end) && Index(ks, begin) <= Index(ks, end)
    requires Ascending(Flat(ks)) && SmallerBefore(Flat(ks), Index(ks, begin), key) && NotSmallerFrom(Flat(ks), Index(ks, end), key)
    ensures returnClosest ==> LowerBound(Flat(ks), Index(ks, Find(ks, begin, end, key, returnClosest)), key)
    ensures !returnClosest ==> IsFound(ks, Find(ks, begin, end, key, returnClosest), key)
    decreases Index(ks, end) - Index(ks, begin)
  {
    hide Flat, SmallerBefore, NotSmallerFrom;
    PlaceEnd(ks);
    if begin == end {
      AbsentOrThere(Flat(ks), Index(ks, end), key);
      if end.page != |ks| {
        PlaceElement(ks, end);
      }
    } else {
      PlaceUnique(ks, begin, end);
      MiddleBetween(ks, begin, end);
      var m := Middle(ks, begin, end);
      PlaceElement(ks, m);
      if ks[m.page][m.offset] < key {
        NextIndex(ks, m);
        SmallerNext(Flat(ks), Index(ks, m), key);
        FindMeaning(ks, NextPlace(ks, m), end, key, returnClosest);
      } else {
        NotSmallerHere(Flat(ks), Index(ks, m), key);
        FindMeaning(ks, begin, m, key, returnClosest);
      }
    }
  }

  /** The place of the key, or the end if it does not occur. */
  ghost predicate IsFound(ks: seq<seq<nat>>, r: Place, key: nat)
  {
    if r == Place(|ks|, 0) then key !in Flat(ks) else AtElement(ks, r) && ks[r.page][r.offset] == key
  }

  // ------------------------------------------------------------------------------------------
  // The map
  // ------------------------------------------------------------------------------------------

  /** Keys and values side by side. */
  ghost function MapOf<V>(ks: seq<nat>, vs: seq<V>): (m: map<nat, V>)
    requires |ks| == |vs|
    ensures forall k :: k in m <==> k in ks
  {
    if ks == [] then map[] else MapOf(ks[..|ks| - 1], vs[..|vs| - 1])[ks[|ks| - 1] := vs[|vs| - 1]]
  }

  lemma {:induction false} MapAt<V>(ks: seq<nat>, vs: seq<V>, i: nat)
    requires |ks| == |vs| && Ascending(ks) && i < |ks|
    ensures MapOf(ks, vs)[ks[i]] == vs[i]
  {
    if i < |ks| - 1 {
      MapAt(ks[..|ks| - 1], vs[..|vs| - 1], i);
      assert ks[i] < ks[|ks| - 1];
    }
  }

  lemma InsertedAscending(ks: seq<nat>, i: nat, key: nat)
    requires Ascending(ks) && LowerBound(ks, i, key) && key !in ks
    ensures Ascending(Inserted(ks, i, key))
  {
  }

  lemma MapInserted<V>(ks: seq<nat>, vs: seq<V>, i: nat, key: nat, value: V)
    requires |ks| == |vs| && Ascending(ks) && LowerBound(ks, i, key) && key !in ks
    ensures MapOf(Inserted(ks, i, key), Inserted(vs, i, value)) == MapOf(ks, vs)[key := value]
  {
    hide Inserted, MapOf;
    InsertedAscending(ks, i, key);
    var ks', vs' := Inserted(ks, i, key), Inserted(vs, i, value);
    InsertedMeans(ks, i, key);
    InsertedMeans(vs, i, value);
    MapAt(ks', vs', i);
    forall k | k in ks
      ensures MapOf(ks', vs')[k] == MapOf(ks, vs)[k]
    {
      var j :| 0 <= j < |ks| && ks[j] == k;
      MapAt(ks, vs, j);
      MapAt(ks', vs', if j < i then j else j + 1);
    }
  }

  lemma InsertedMeans<T>(s: seq<T>, i: nat, x: T)
    requires i <= |s|
    ensures |Inserted(s, i, x)| == |s| + 1 && Inserted(s, i, x)[i] == x
    ensures forall j :: 0 <= j < i ==> Inserted(s, i, x)[j] == s[j]
    ensures forall j :: i <= j < |s| ==> Inserted(s, i, x)[j + 1] == s[j]
    ensures forall y :: y in Inserted(s, i, x) <==> y == x || y in s
  {
    assert s == s[..i] + s[i..];
  }

  lemma RemovedAscending(ks: seq<nat>, i: nat)
    requires Ascending(ks) && i < |ks|
    ensures Ascending(Removed(ks, i))
  {
  }

  lemma MapRemoved<V>(ks: seq<nat>, vs: seq<V>, i: nat)
    requires |ks| == |vs| && Ascending(ks) && i < |ks|
    ensures MapOf(Removed(ks, i), Removed(vs, i)) == MapOf(ks, vs) - {ks[i]}
  {
    hide Removed, MapOf;
    var ks', vs' := Removed(ks, i), Removed(vs, i);
    RemovedMeans(ks, i);
    RemovedMeans(vs, i);
    forall k | k in ks
      ensures k in ks' <==> k != ks[i]
      ensures k in ks' ==> MapOf(ks', vs')[k] == MapOf(ks, vs)[k]
    {
      KeptByRemoval(ks, vs, i, k);
    }
    forall k | k in ks'
      ensures k in ks
    {
      var j :| 0 <= j < |ks'| && ks'[j] == k;
      assert k == if j < i then ks[j] else ks[j + 1];
    }
  }

  lemma KeptByRemoval<V>(ks: seq<nat>, vs: seq<V>, i: nat, k: nat)
    requires |ks| == |vs| && Ascending(ks) && i < |ks| && k in ks
    ensures k in Removed(ks, i) <==> k != ks[i]
    ensures k in Removed(ks, i) ==> MapOf(Removed(ks, i), Removed(vs, i))[k] == MapOf(ks, vs)[k]
  {
    hide Removed, MapOf, Ascending;
    var j :| 0 <= j < |ks| && ks[j] == k;
    if j == i {
      GoneByRemoval(ks, i);
    } else {
      StaysAt(ks, vs, i, j);
      Distinct(ks, i, j);
    }
  }

  lemma Distinct(ks: seq<nat>, i: nat, j: nat)
    requires Ascending(ks) && i < |ks| && j < |ks| && i != j
    ensures ks[i] != ks[j]
  {
  }

  lemma GoneByRemoval(ks: seq<nat>, i: nat)
    requires Ascending(ks) && i < |ks|
    ensures ks[i] !in Removed(ks, i)
  {
    hide Removed;
    RemovedMeans(ks, i);
    forall j | 0 <= j < |Removed(ks, i)|
      ensures Removed(ks, i)[j] != ks[i]
    {
      assert Removed(ks, i)[j] == if j < i then ks[j] else ks[j + 1];
    }
  }

  lemma StaysAt<V>(ks: seq<nat>, vs: seq<V>, i: nat, j: nat)
    requires |ks| == |vs| && Ascending(ks) && i < |ks| && j < |ks| && i != j
    ensures ks[j] in Removed(ks, i) && MapOf(Removed(ks, i), Removed(vs, i))[ks[j]] == MapOf(ks, vs)[ks[j]]
  {
    hide Removed, MapOf;
    RemovedAscending(ks, i);
    RemovedMeans(ks, i);
    RemovedMeans(vs, i);
    var j' := if j < i then j else j - 1;
    assert Removed(ks, i)[j'] == ks[j] && Removed(vs, i)[j'] == vs[j];
    MapAt(ks, vs, j);
    MapAt(Removed(ks, i), Removed(vs, i), j');
  }

  lemma RemovedMeans<T>(s: seq<T>, i: nat)
    requires i < |s|
    ensures |Removed(s, i)| == |s| - 1
    ensures forall j :: 0 <= j < i ==> Removed(s, i)[j] == s[j]
    ensures forall j :: i < j < |s| ==> Removed(s, i)[j - 1] == s[j]
    ensures forall j :: i <= j < |s| - 1 ==> Removed(s, i)[j] == s[j + 1]
  {
  }

  /** A search over the whole map. */
  lemma Prepared(ks: seq<seq<nat>>, cap: nat, key: nat)
    requires Packed(ks, cap) && Ascending(Flat(ks))
    ensures NoEmptyPage(ks) && ValidPlace(ks, Place(0, 0)) && ValidPlace(ks, Place(|ks|, 0))
    ensures Index(ks, Place(0, 0)) <= Index(ks, Place(|ks|, 0))
    ensures LowerBound(Flat(ks), Index(ks, Find(ks, Place(0, 0), Place(|ks|, 0), key, true)), key)
    ensures IsFound(ks, Find(ks, Place(0, 0), Place(|ks|, 0), key, false), key)
  {
    hide Flat, Find;
    PlaceEnd(ks);
    assert ks[..0] == [];
    FlatNone<nat>();
    FindMeaning(ks, Place(0, 0), Place(|ks|, 0), key, true);
    FindMeaning(ks, Place(0, 0), Place(|ks|, 0), key, false);
  }

  /** Pages of the same sizes, none empty, and the keys strictly ascending over all of them. */
  ghost predicate Lockstep<V>(ks: seq<seq<nat>>, vs: seq<seq<V>>, cap: nat)
  {
    SameShape(ks, vs) && Packed(ks, cap) && Ascending(Flat(ks))
  }

  ghost function PagedMap<V>(ks: seq<seq<nat>>, vs: seq<seq<V>>, cap: nat): map<nat, V>
    requires Lockstep(ks, vs, cap)
  {
    SameFlat(ks, vs);
    MapOf(Flat(ks), Flat(vs))
  }

  /** Erasing at a place keeps the lockstep and removes the key there. */
  lemma ErasedLockstep<V>(ks: seq<seq<nat>>, vs: seq<seq<V>>, cap: nat, it: Place)
    requires Lockstep(ks, vs, cap) && cap >= 4 && AtElement(ks, it)
    ensures it.page < |vs| && it.offset < |vs[it.page]|
    ensures Lockstep(ErasedAt(ks, cap, it.page, it.offset), ErasedAt(vs, cap, it.page, it.offset), cap)
    ensures |Flat(ErasedAt(ks, cap, it.page, it.offset))| == |Flat(ks)| - 1
    ensures PagedMap(ErasedAt(ks, cap, it.page, it.offset), ErasedAt(vs, cap, it.page, it.offset), cap) ==
      PagedMap(ks, vs, cap) - {ks[it.page][it.offset]}
  {
    hide Flat, ErasedAt, Removed, MapOf, Ascending, Packed, SameShape;
    SamePages(ks, vs);
    SameFlat(ks, vs);
    SameErased(ks, vs, cap, it.page, it.offset);
    PackedErased(ks, cap, it.page, it.offset);
    FlatErased(ks, cap, it.page, it.offset);
    FlatErased(vs, cap, it.page, it.offset);
    SameIndex(ks, vs, it);
    PlaceElement(ks, it);
    RemovedAscending(Flat(ks), Index(ks, it));
    MapRemoved(Flat(ks), Flat(vs), Index(ks, it));
  }

  lemma SameIndex<K, V>(ks: seq<seq<K>>, vs: seq<seq<V>>, it: Place)
    requires SameShape(ks, vs) && it.page <= |ks|
    ensures Index(ks, it) == Index(vs, it)
  {
    assert SameShape(ks[..it.page], vs[..it.page]);
    SameFlat(ks[..it.page], vs[..it.page]);
  }

  /** Inserting a new key at its lower bound keeps the lockstep and adds the key. */
  lemma InsertedLockstep<V>(ks: seq<seq<nat>>, vs: seq<seq<V>>, cap: nat, it: Place, key: nat, value: V)
    requires Lockstep(ks, vs, cap) && cap >= 4 && AtElement(ks, it)
    requires LowerBound(Flat(ks), Index(ks, it), key) && key !in Flat(ks)
    ensures it.page < |vs| && it.offset < |vs[it.page]|
    ensures Lockstep(InsertedAt(ks, cap, it.page, it.offset, key), InsertedAt(vs, cap, it.page, it.offset, value), cap)
    ensures |Flat(InsertedAt(ks, cap, it.page, it.offset, key))| == |Flat(ks)| + 1
    ensures PagedMap(InsertedAt(ks, cap, it.page, it.offset, key), InsertedAt(vs, cap, it.page, it.offset, value), cap) ==
      PagedMap(ks, vs, cap)[key := value]
  {
    hide Flat, InsertedAt, Inserted, MapOf, Ascending, Packed, SameShape, LowerBound;
    SamePages(ks, vs);
    SameFlat(ks, vs);
    SameInserted(ks, vs, cap, it.page, it.offset, key, value);
    PackedInserted(ks, cap, it.page, it.offset, key);
    FlatInserted(ks, cap, it.page, it.offset, key);
    FlatInserted(vs, cap, it.page, it.offset, value);
    SameIndex(ks, vs, it);
    InsertedAscending(Flat(ks), Index(ks, it), key);
    MapInserted(Flat(ks), Flat(vs), Index(ks, it), key, value);
  }

  /** A key greater than all others goes to the end. */
  lemma PushedLockstep<V>(ks: seq<seq<nat>>, vs: seq<seq<V>>, cap: nat, key: nat, value: V)
    requires Lockstep(ks, vs, cap) && cap >= 4 && LowerBound(Flat(ks), |Flat(ks)|, key)
    ensures Lockstep(PushedBack(ks, cap, key), PushedBack(vs, cap, value), cap)
    ensures |Flat(PushedBack(ks, cap, key))| == |Flat(ks)| + 1
    ensures key !in Flat(ks)
    ensures PagedMap(PushedBack(ks, cap, key), PushedBack(vs, cap, value), cap) == PagedMap(ks, vs, cap)[key := value]
  {
    hide Flat, PushedBack, MapOf, Ascending, Packed, SameShape;
    SameFlat(ks, vs);
    SamePushed(ks, vs, cap, key, value);
    PackedPushed(ks, cap, key);
    FlatPushed(ks, cap, key);
    FlatPushed(vs, cap, value);
    var n := |Flat(ks)|;
    assert Inserted(Flat(ks), n, key) == Flat(ks) + [key] && Inserted(Flat(vs), n, value) == Flat(vs) + [value];
    InsertedAscending(Flat(ks), n, key);
    MapInserted(Flat(ks), Flat(vs), n, key, value);
  }

  /** A vector with its pages and their memory. */
  ghost function Objects<T(0)>(v: SlimVector<T>): set<object>
    reads v
  {
    var o: object := v;
    {o} + (set p: SlimPage<T> | p in v.pages :: p as object) + BlocksOf(v.pages)
  }

  // Operations on one vector leave another one alone that has no page in common with it.

  method EraseBeside<T(0), U(0)>(v: SlimVector<T>, other: SlimVector<U>, page: nat, offset: nat)
    requires v.Valid() && other.Valid() && Objects(v) !! Objects(other)
    requires page < |v.pages| && offset < |v.Pages()[page]|
    modifies v, v.Writable()
    ensures v.Valid() && v.Pages() == ErasedAt(old(v.Pages()), v.blocksInPage, page, offset)
    ensures other.Valid() && other.Pages() == old(other.Pages()) && Objects(v) !! Objects(other)
    ensures other.Writable() == old(other.Writable()) && Objects(other) == old(Objects(other))
    ensures fresh(Objects(v) - old(Objects(v))) && fresh(v.Writable() - old(v.Writable()))
  {
    hide ErasedAt, SlimVector.Valid, SlimVector.Pages;
    WritableInside(v);
    ghost var mine, others := Objects(v), Objects(other);
    v.Erase(page, offset);
    assert Objects(other) == others;
    assert fresh(Objects(v) - mine);
  }

  twostate lemma NewPagesFresh<T(0)>(v: SlimVector<T>)
    requires v.OnlyNewPages()
    requires forall p :: p in v.pages && p in old(v.pages) && !old(p.checkedOut) ==> !p.checkedOut
    ensures fresh(Objects(v) - old(Objects(v))) && fresh(v.Writable() - old(v.Writable()))
  {
  }

  method InsertBeside<T(0), U(0)>(v: SlimVector<T>, other: SlimVector<U>, page: nat, offset: nat, value: T)
    requires v.Valid() && other.Valid() && Objects(v) !! Objects(other)
    requires page < |v.pages| && offset <= |v.Pages()[page]| && v.blocksInPage >= 2
    modifies v, v.Writable()
    ensures v.Valid() && v.Pages() == InsertedAt(old(v.Pages()), v.blocksInPage, page, offset, value)
    ensures other.Valid() && other.Pages() == old(other.Pages()) && Objects(v) !! Objects(other)
    ensures other.Writable() == old(other.Writable()) && Objects(other) == old(Objects(other))
    ensures fresh(Objects(v) - old(Objects(v))) && fresh(v.Writable() - old(v.Writable()))
  {
    hide InsertedAt, SlimVector.Valid, SlimVector.Pages, SlimVector.Writable, SlimVector.OnlyNewPages;
    WritableInside(v);
    ghost var others := Objects(other);
    v.InsertBefore(page, offset, value);
    assert Objects(other) == others;
    NewPagesFresh(v);
  }

  method PushBeside<T(0), U(0)>(v: SlimVector<T>, other: SlimVector<U>, value: T)
    requires v.Valid() && other.Valid() && Objects(v) !! Objects(other) && v.blocksInPage > 0
    modifies v, v.Writable()
    ensures v.Valid() && v.Pages() == PushedBack(old(v.Pages()), v.blocksInPage, value)
    ensures other.Valid() && other.Pages() == old(other.Pages()) && Objects(v) !! Objects(other)
    ensures other.Writable() == old(other.Writable()) && Objects(other) == old(Objects(other))
    ensures fresh(Objects(v) - old(Objects(v))) && fresh(v.Writable() - old(v.Writable()))
  {
    hide PushedBack, SlimVector.Valid, SlimVector.Pages, SlimVector.Writable, SlimVector.OnlyNewPages;
    WritableInside(v);
    ghost var others := Objects(other);
    v.PushBack(value);
    assert Objects(other) == others;
    NewPagesFresh(v);
  }

  /** The same erasure in both vectors. */
  method EraseBoth<T(0), U(0)>(v: SlimVector<T>, w: SlimVector<U>, page: nat, offset: nat)
    requires v.Valid() && w.Valid() && Objects(v) !! Objects(w)
    requires page < |v.pages| && offset < |v.Pages()[page]| && page < |w.pages| && offset < |w.Pages()[page]|
    modifies v, w, v.Writable(), w.Writable()
    ensures v.Valid() && w.Valid() && Objects(v) !! Objects(w)
    ensures v.Pages() == ErasedAt(old(v.Pages()), v.blocksInPage, page, offset)
    ensures w.Pages() == ErasedAt(old(w.Pages()), w.blocksInPage, page, offset)
  {
    hide ErasedAt, SlimVector.Valid, SlimVector.Pages;
    EraseBeside(v, w, page, offset);
    EraseBeside(w, v, page, offset);
  }

  method InsertBoth<T(0), U(0)>(v: SlimVector<T>, w: SlimVector<U>, page: nat, offset: nat, x: T, y: U)
    requires v.Valid() && w.Valid() && Objects(v) !! Objects(w) && v.blocksInPage >= 2 && w.blocksInPage >= 2
    requires page < |v.pages| && offset <= |v.Pages()[page]| && page < |w.pages| && offset <= |w.Pages()[page]|
    modifies v, w, v.Writable(), w.Writable()
    ensures v.Valid() && w.Valid() && Objects(v) !! Objects(w)
    ensures v.Pages() == InsertedAt(old(v.Pages()), v.blocksInPage, page, offset, x)
    ensures w.Pages() == InsertedAt(old(w.Pages()), w.blocksInPage, page, offset, y)
  {
    hide InsertedAt, SlimVector.Valid, SlimVector.Pages;
    InsertBeside(v, w, page, offset, x);
    InsertBeside(w, v, page, offset, y);
  }

  method PushBoth<T(0), U(0)>(v: SlimVector<T>, w: SlimVector<U>, x: T, y: U)
    requires v.Valid() && w.Valid() && Objects(v) !! Objects(w) && v.blocksInPage > 0 && w.blocksInPage > 0
    modifies v, w, v.Writable(), w.Writable()
    ensures v.Valid() && w.Valid() && Objects(v) !! Objects(w)
    ensures v.Pages() == PushedBack(old(v.Pages()), v.blocksInPage, x)
    ensures w.Pages() == PushedBack(old(w.Pages()), w.blocksInPage, y)
  {
    hide PushedBack, SlimVector.Valid, SlimVector.Pages;
    PushBeside(v, w, x);
    PushBeside(w, v, y);
  }

  lemma WritableInside<T(0)>(v: SlimVector<T>)
    ensures v.Writable() <= Objects(v)
    ensures forall p :: p in v.pages && !p.checkedOut ==> p !in v.Writable()
  {
  }

  /** Appends a greatest key with its value. */
  method PushPair<V(0)>(keys: SlimVector<nat>, values: SlimVector<V>, key: nat, value: V)
    requires keys.Valid() && values.Valid() && Objects(keys) !! Objects(values)
    requires keys.blocksInPage == values.blocksInPage >= 4 && Lockstep(keys.Pages(), values.Pages(), keys.blocksInPage)
    requires LowerBound(Flat(keys.Pages()), |Flat(keys.Pages())|, key)
    modifies keys, values, keys.Writable(), values.Writable()
    ensures keys.Valid() && values.Valid() && Objects(keys) !! Objects(values)
    ensures Lockstep(keys.Pages(), values.Pages(), keys.blocksInPage) && |Flat(keys.Pages())| == old(|Flat(keys.Pages())|) + 1
    ensures key !in old(PagedMap(keys.Pages(), values.Pages(), keys.blocksInPage))
    ensures PagedMap(keys.Pages(), values.Pages(), keys.blocksInPage)
      == old(PagedMap(keys.Pages(), values.Pages(), keys.blocksInPage))[key := value]
  {
    hide Flat, PushedBack, PagedMap, Lockstep, LowerBound, SlimVector.Valid, SlimVector.Pages, Objects;
    PushedLockstep(keys.Pages(), values.Pages(), keys.blocksInPage, key, value);
    KeysOfMap(keys.Pages(), values.Pages(), keys.blocksInPage, key);
    PushBoth(keys, values, key, value);
  }

  class SlimMap<V(0)> {
    const keys: SlimVector<nat>
    const values: SlimVector<V>
    var mapSize: nat
    var sorted: bool
    var lastKey: nat

    /** Keys and values have no page and no memory in common. */
    ghost predicate Separate()
      reads keys, values
    {
      Objects(keys) !! Objects(values)
    }

    ghost predicate Valid()
      reads this, keys, values, keys.pages, values.pages, BlocksOf(keys.pages), BlocksOf(values.pages)
    {
      && Separate() && keys.Valid() && values.Valid() && keys.blocksInPage == values.blocksInPage >= 4
      && Lockstep(keys.Pages(), values.Pages(), keys.blocksInPage)
      && mapSize == |Flat(keys.Pages())|
    }

    /** The contents. */
    ghost function Contents(): map<nat, V>
      requires Valid()
      reads this, keys, values, keys.pages, values.pages, BlocksOf(keys.pages), BlocksOf(values.pages)
    {
      PagedMap(keys.Pages(), values.Pages(), keys.blocksInPage)
    }

    constructor (maxInBlock: nat)
      requires maxInBlock >= 4
      ensures Valid() && Contents() == map[] && fresh(keys) && fresh(values)
    {
      keys := new SlimVector<nat>(maxInBlock);
      values := new SlimVector<V>(maxInBlock);
      mapSize, sorted, lastKey := 0, true, 0;
    }

    /** The place of a key, or the first place with a greater one. */
    method FindPlace(key: nat, returnClosest: bool) returns (it: Place)
      requires Valid()
      ensures ValidPlace(keys.Pages(), it)
      ensures returnClosest ==> LowerBound(Flat(keys.Pages()), Index(keys.Pages(), it), key)
      ensures !returnClosest ==> IsFound(keys.Pages(), it, key)
    {
      hide Flat, Find;
      var ks := keys.Pages();
      Prepared(ks, keys.blocksInPage, key);
      it := Find(ks, Place(0, 0), Place(|ks|, 0), key, returnClosest);
    }
  
    /** erase: removes a key, if it is there. */
    method Erase(key: nat)
      requires Valid()
      modifies this, keys, values, keys.Writable(), values.Writable()
      ensures Valid()
      ensures Contents() == old(Contents()) - {key}
    {
      hide Flat, Find, ErasedAt, PagedMap, Lockstep;
      var it := FindPlace(key, false);
      if it != Place(|keys.pages|, 0) {
        ErasePlace(it);
      } else {
        AbsentKey(keys.Pages(), values.Pages(), keys.blocksInPage, key);
      }
    }

    /** Removes the key and the value at a place, from pages that stay in lockstep. */
    method ErasePlace(it: Place)
      requires Valid() && AtElement(keys.Pages(), it)
      modifies this, keys, values, keys.Writable(), values.Writable()
      ensures Valid()
      ensures Contents() == old(Contents()) - {old(keys.Pages())[it.page][it.offset]}
    {
      hide Flat, ErasedAt, PagedMap, Lockstep, SlimVector.Valid, SlimVector.Pages;
      ErasedLockstep(keys.Pages(), values.Pages(), keys.blocksInPage, it);
      EraseBoth(keys, values, it.page, it.offset);
      mapSize := mapSize - 1;
    }

    /** operator[]: the value of a key, which is inserted with a default one if it is not there. */
    method At(key: nat, default: V) returns (value: V)
      requires Valid()
      modifies this, keys, values, keys.Writable(), values.Writable()
      ensures Valid()
      ensures Contents() == if key in old(Contents()) then old(Contents()) else old(Contents())[key := default]
      ensures value == Contents()[key]
    {
      hide Flat, Find, PagedMap, Lockstep, LowerBound;
      var it := FindPlace(key, true);
      var ks := keys.Pages();
      FoundOrAbsent(ks, values.Pages(), keys.blocksInPage, it, key);
      if it != Place(|ks|, 0) && ks[it.page][it.offset] == key {
        value := values.Pages()[it.page][it.offset];
      } else {
        var inserted := Insert(key, default, it);
        value := default;
      }
    }

    /**
     * insert at the place a search has ended at: neither the error for a place behind which the key
     * would belong nor the one for a key that is there already can be raised.
     */
    method Insert(key: nat, value: V, currSearchResult: Place) returns (r: Result<V>)
      requires Valid() && ValidPlace(keys.Pages(), currSearchResult) && key !in Contents()
      requires LowerBound(Flat(keys.Pages()), Index(keys.Pages(), currSearchResult), key)
      modifies this, keys, values, keys.Writable(), values.Writable()
      ensures Valid() && r == Success(value)
      ensures Contents() == old(Contents())[key := value]
    {
      hide Flat, InsertedAt, PushedBack, PagedMap, Lockstep, LowerBound, SlimVector.Valid, SlimVector.Pages;
      ghost var ks, vs, cap := keys.Pages(), values.Pages(), keys.blocksInPage;
      KeysOfMap(ks, vs, cap, key);
      if currSearchResult.page == |keys.pages| {
        PlaceEnd(ks);
        InsertLast(key, value);
      } else {
        var first := keys.Pages()[currSearchResult.page][currSearchResult.offset];
        PlaceElement(ks, currSearchResult);
        BoundElement(Flat(ks), Index(ks, currSearchResult), key);
        if first < key {
          return Failure("inserting after currSearchResult was not supposed to happen");
        }
        if key == first {
          return Failure("key already present in map");
        }
        InsertedLockstep(ks, vs, cap, currSearchResult, key, value);
        InsertBoth(keys, values, currSearchResult.page, currSearchResult.offset, key, value);
        mapSize := mapSize + 1;
      }
      r := Success(value);
    }

    /** insert without sorting, of a key greater than all others. */
    method InsertLast(key: nat, value: V)
      requires Valid() && LowerBound(Flat(keys.Pages()), |Flat(keys.Pages())|, key)
      modifies this, keys, values, keys.Writable(), values.Writable()
      ensures Valid()
      ensures key !in old(Contents()) && Contents() == old(Contents())[key := value]
      ensures sorted <==> old(mapSize) == 0 || (old(sorted) && old(lastKey) < key)
      ensures lastKey == if sorted then key else old(lastKey)
    {
      hide Flat, PushedBack, PagedMap, Lockstep, LowerBound, SlimVector.Valid, SlimVector.Pages;
      if mapSize > 0 && sorted {
        if lastKey < key {
          lastKey := key;
        } else {
          sorted := false;
        }
      } else if mapSize == 0 {
        lastKey := key;
        sorted := true;
      }
      mapSize := mapSize + 1;
      PushPair(keys, values, key, value);
    }
  }

  lemma AbsentKey<V>(ks: seq<seq<nat>>, vs: seq<seq<V>>, cap: nat, key: nat)
    requires Lockstep(ks, vs, cap) && key !in Flat(ks)
    ensures PagedMap(ks, vs, cap) - {key} == PagedMap(ks, vs, cap)
  {
    hide Flat;
    SameFlat(ks, vs);
  }

  lemma KeysOfMap<V>(ks: seq<seq<nat>>, vs: seq<seq<V>>, cap: nat, key: nat)
    requires Lockstep(ks, vs, cap)
    ensures key in PagedMap(ks, vs, cap) <==> key in Flat(ks)
  {
    hide Flat;
    SameFlat(ks, vs);
  }

  lemma BoundElement(s: seq<nat>, i: nat, key: nat)
    requires LowerBound(s, i, key) && i < |s| && key !in s
    ensures key < s[i]
  {
  }

  /** The lower bound either is the place of the key, or the key is absent. */
  lemma FoundOrAbsent<V>(ks: seq<seq<nat>>, vs: seq<seq<V>>, cap: nat, it: Place, key: nat)
    requires Lockstep(ks, vs, cap) && ValidPlace(ks, it) && LowerBound(Flat(ks), Index(ks, it), key)
    ensures it.page == |ks| || (it.page < |vs| && it.offset < |vs[it.page]|)
    ensures if it != Place(|ks|, 0) && ks[it.page][it.offset] == key
      then key in PagedMap(ks, vs, cap) && PagedMap(ks, vs, cap)[key] == vs[it.page][it.offset]
      else key !in PagedMap(ks, vs, cap)
  {
    hide Flat, MapOf, Packed;
    SameFlat(ks, vs);
    PlaceEnd(ks);
    KeysOfMap(ks, vs, cap, key);
    if it != Place(|ks|, 0) {
      PlaceElement(ks, it);
      PlaceElement(vs, it);
      SameIndex(ks, vs, it);
      if ks[it.page][it.offset] == key {
        MapAt(Flat(ks), Flat(vs), Index(ks, it));
      }
    }
  }
}
