/** SlimVector: a paged vector whose pages may be shared by several versions until they are checked out. */
module SlimVectors {
  import opened SlimPages
  import opened SlimLayouts

  ghost function BlocksOf<T(0)>(ps: seq<SlimPage<T>>): set<object>
  {
    set p | p in ps :: p.blocks
  }

  /** No page twice, and no memory in two pages. */
  ghost predicate Unshared<T(0)>(ps: seq<SlimPage<T>>)
  {
    forall i, j :: 0 <= i < j < |ps| ==> ps[i] != ps[j] && ps[i].blocks != ps[j].blocks
  }

  lemma PageApart<T(0)>(ps: seq<SlimPage<T>>, page: SlimPage<T>, k: nat)
    requires Unshared(ps) && k <= |ps| && forall i :: 0 <= i < |ps| ==> ps[i] != page && ps[i].blocks != page.blocks
    ensures Unshared(ps[..k] + [page] + ps[k..])
  {
  }

  class SlimVector<T(0)> {
    const blocksInPage: nat
    var pages: seq<SlimPage<T>>

    ghost predicate Valid()
      reads this, pages
    {
      && (forall i :: 0 <= i < |pages| ==> pages[i].Valid() && pages[i].blocks.Length == blocksInPage)
      && Unshared(pages)
    }

    /** The contents page by page. */
    function Pages(): (ps: seq<seq<T>>)
      requires Valid()
      reads this, pages, BlocksOf(pages)
      ensures |ps| == |pages|
    {
      var ps := pages;
      seq(|ps|, i requires 0 <= i < |ps| && ps[i].Valid() reads ps, BlocksOf(ps) => ps[i].Contents())
    }

    /** The pages that may be written, with their memory. */
    ghost function Writable(): set<object>
      reads this, pages
    {
      (set p | p in pages && p.checkedOut) + (set p | p in pages && p.checkedOut :: p.blocks)
    }

    constructor (blocksInPage: nat)
      ensures Valid() && pages == [] && this.blocksInPage == blocksInPage
    {
      this.blocksInPage := blocksInPage;
      pages := [];
    }

    /** The copy shares all pages with the original. */
    constructor Copy(other: SlimVector<T>)
      requires other.Valid()
      ensures Valid() && pages == other.pages && blocksInPage == other.blocksInPage
      ensures Pages() == other.Pages()
    {
      blocksInPage := other.blocksInPage;
      pages := other.pages;
    }

    /** Nothing but new, checked-out pages is added, and what was checked out stays so. */
    twostate predicate OnlyNewPages()
      reads this, pages
    {
      forall p :: p in pages ==>
        if p in old(pages) then old(p.checkedOut) ==> p.checkedOut else fresh(p) && fresh(p.blocks) && p.checkedOut
    }

    /** Replaces a page that is not checked out by a copy. */
    method CheckOutPage(i: nat, always: bool)
      requires Valid() && i < |pages|
      modifies this`pages
      ensures Valid() && Pages() == old(Pages()) && pages[i].checkedOut
      ensures pages == old(pages)[i := pages[i]] && OnlyNewPages()
      ensures if always || !old(pages[i].checkedOut) then fresh(pages[i]) else pages == old(pages)
    {
      if always || !pages[i].checkedOut {
        var page := pages[i].GetCopy();
        pages := pages[i := page];
      }
    }

    // ----------------------------------------------------------------------------------------
    // Operations on single pages
    // ----------------------------------------------------------------------------------------

    method AddPage(k: nat)
      requires Valid() && k <= |pages|
      modifies this`pages
      ensures Valid() && OnlyNewPages() && |pages| == |old(pages)| + 1 && pages[k].checkedOut
      ensures pages == old(pages)[..k] + [pages[k]] + old(pages)[k..]
      ensures Pages() == old(Pages())[..k] + [[]] + old(Pages())[k..]
    {
      ghost var was := Pages();
      var page := new SlimPage(blocksInPage);
      pages := pages[..k] + [page] + pages[k..];
      PageApart(old(pages), page, k);
      ShiftedUp(was, Pages(), k, []);
    }

    method RemovePage(k: nat)
      requires Valid() && k < |pages|
      modifies this`pages
      ensures Valid() && pages == old(pages)[..k] + old(pages)[k + 1..]
      ensures Pages() == old(Pages())[..k] + old(Pages())[k + 1..]
    {
      pages := pages[..k] + pages[k + 1..];
    }

    method PushBackIn(k: nat, value: T)
      requires Valid() && k < |pages| && pages[k].checkedOut && |Pages()[k]| < blocksInPage
      modifies pages[k], pages[k].blocks
      ensures Valid() && pages[k].checkedOut
      ensures Pages() == old(Pages())[k := old(Pages())[k] + [value]]
    {
      pages[k].PushBack(value);
    }

    method InsertIn(k: nat, offset: nat, value: T)
      requires Valid() && k < |pages| && pages[k].checkedOut && offset <= |Pages()[k]| < blocksInPage
      modifies pages[k], pages[k].blocks
      ensures Valid() && pages[k].checkedOut
      ensures Pages() == old(Pages())[k := Inserted(old(Pages())[k], offset, value)]
    {
      pages[k].InsertBefore(offset, value);
    }

    method EraseIn(k: nat, offset: nat)
      requires Valid() && k < |pages| && pages[k].checkedOut && offset < |Pages()[k]|
      modifies pages[k], pages[k].blocks
      ensures Valid() && pages[k].checkedOut
      ensures Pages() == old(Pages())[k := Removed(old(Pages())[k], offset)]
    {
      pages[k].Erase(offset);
    }

    /** Moves the elements of a page from an offset on behind those of another page. */
    method MoveBetween(k: nat, from: nat, fromOffset: nat)
      requires Valid() && k < |pages| && from < |pages| && k != from && pages[k].checkedOut && pages[from].checkedOut
      requires fromOffset <= |Pages()[from]| && |Pages()[k]| + |Pages()[from]| - fromOffset <= blocksInPage
      modifies pages[k], pages[k].blocks, pages[from]
      ensures Valid() && pages[k].checkedOut && pages[from].checkedOut
      ensures Pages() ==
        old(Pages())[k := old(Pages())[k] + old(Pages())[from][fromOffset..]][from := old(Pages())[from][..fromOffset]]
    {
      Apart(k, from);
      pages[k].MoveValues(pages[from], fromOffset);
    }

    lemma Apart(i: nat, j: nat)
      requires Valid() && i < |pages| && j < |pages| && i != j
      ensures pages[i] != pages[j] && pages[i].blocks != pages[j].blocks
    {
      if i < j {
      }
    }

    // ----------------------------------------------------------------------------------------
    // Operations on the vector
    // ----------------------------------------------------------------------------------------

    /** push_back */
    method PushBack(value: T)
      requires Valid() && blocksInPage > 0
      modifies this`pages, Writable()
      ensures Valid() && OnlyNewPages()
      ensures Pages() == PushedBack(old(Pages()), blocksInPage, value)
    {
      hide Pages, Valid;
      if pages != [] {
        PageFacts(|pages| - 1);
      }
      if pages != [] && !pages[|pages| - 1].Full() {
        CheckOutPage(|pages| - 1, false);
        PushBackIn(|pages| - 1, value);
      } else {
        AddPage(|pages|);
        PushBackIn(|pages| - 1, value);
        assert [] + [value] == [value];
      }
    }

    /** insertBefore: into a page of its own, divided in two first if it is full. */
    method InsertBefore(page: nat, offset: nat, value: T)
      requires Valid() && page < |pages| && offset <= |Pages()[page]| && blocksInPage >= 2
      modifies this`pages, Writable()
      ensures Valid() && OnlyNewPages()
      ensures Pages() == InsertedAt(old(Pages()), blocksInPage, page, offset, value)
    {
      hide InsertedAt, Inserted, Pages, Valid;
      ghost var ps := Pages();
      CheckOutPage(page, false);
      PageFacts(page);
      if pages[page].Full() {
        InsertDividing(page, offset, value);
      } else {
        InsertIn(page, offset, value);
        NotDivided(ps, blocksInPage, page, offset, value);
      }
    }

    /** Divides a full page in the middle and inserts into one of the halves. */
    method InsertDividing(page: nat, offset: nat, value: T)
      requires Valid() && page < |pages| && offset <= |Pages()[page]| == blocksInPage && blocksInPage >= 2
      requires pages[page].checkedOut
      modifies this`pages, Writable()
      ensures Valid() && OnlyNewPages()
      ensures Pages() == InsertedAt(old(Pages()), blocksInPage, page, offset, value)
    {
      hide InsertedAt, Inserted, Divided, Pages, Valid;
      ghost var ps := Pages();
      PageFacts(page);
      DividedInsert(ps, blocksInPage, page, offset, value);
      AddPage(page + 1);
      var cutOff := pages[page].blocksFilled / 2;
      MoveBetween(page + 1, page, cutOff);
      DividedMeans(ps, page, cutOff);
      if offset < cutOff {
        InsertIn(page, offset, value);
      } else {
        InsertIn(page + 1, offset - cutOff, value);
      }
    }

    lemma PageFacts(k: nat)
      requires Valid() && k < |pages|
      ensures |Pages()[k]| == pages[k].blocksFilled <= pages[k].blocks.Length == blocksInPage
    {
    }

    /** joinPages: the second page's elements are moved to the first, which has room for them. */
    method JoinPages(page1: nat)
      requires Valid() && page1 + 1 < |pages| && pages[page1].checkedOut && pages[page1 + 1].checkedOut
      requires |Pages()[page1]| + |Pages()[page1 + 1]| <= blocksInPage
      modifies this`pages, Writable()
      ensures Valid() && OnlyNewPages()
      ensures Pages() == old(Pages())[..page1] + [old(Pages())[page1] + old(Pages())[page1 + 1]] + old(Pages())[page1 + 2..]
    {
      MoveBetween(page1, page1 + 1, 0);
      RemovePage(page1 + 1);
    }

    /** erase: always on a copy of the page; a page left almost empty may be joined with a neighbour. */
    method Erase(page: nat, offset: nat)
      requires Valid() && page < |pages| && offset < |Pages()[page]|
      modifies this`pages, Writable()
      ensures Valid() && OnlyNewPages()
      ensures Pages() == ErasedAt(old(Pages()), blocksInPage, page, offset)
    {
      hide ErasedAt, Removed, Joined, Pages, Valid;
      ghost var ps := Pages();
      ErasedCases(ps, blocksInPage, page, offset);
      CheckOutPage(page, true);
      PageFacts(page);
      if !pages[page].AlmostEmpty() {
        EraseIn(page, offset);
      } else if pages[page].blocksFilled == 1 {
        RemovePage(page);
      } else {
        EraseIn(page, offset);
        JoinNeighbour(page);
      }
    }

    /**
     * merge: the changes become a new version if nobody else has made one from the same version;
     * from then on no page of it may be written any more.
     */
    method Merge(base: SlimVector?<T>, latest: SlimVector?<T>) returns (merged: bool)
      requires Valid()
      modifies pages
      ensures merged <==> base == null || latest == null || base == latest
      ensures Valid() && Pages() == old(Pages())
      ensures forall p :: p in pages ==>
        p.blocksFilled == old(p.blocksFilled) && p.checkedOut == (old(p.checkedOut) && !merged)
    {
      merged := true;
      if base != null && latest != null && base != latest {
        merged := false;
      }
      if merged {
        for i := 0 to |pages|
          invariant forall p :: p in pages ==> p.blocksFilled == old(p.blocksFilled)
          invariant forall k :: 0 <= k < i ==> !pages[k].checkedOut
        {
          pages[i].CheckIn();
        }
      }
    }

    /** Joins a page with its neighbour, if the two do not fill a page. */
    method JoinNeighbour(page: nat)
      requires Valid() && page < |pages| && pages[page].checkedOut
      modifies this`pages, Writable()
      ensures Valid() && OnlyNewPages()
      ensures Pages() == Joined(old(Pages()), blocksInPage, page)
    {
      hide Pages, Valid;
      PageFacts(page);
      if page > 0 {
        PageFacts(page - 1);
      }
      if page + 1 < |pages| {
        PageFacts(page + 1);
      }
      if page > 0 && pages[page - 1].blocksFilled + pages[page].blocksFilled < blocksInPage {
        CheckOutPage(page - 1, true);
        JoinPages(page - 1);
      } else if page + 1 < |pages| && pages[page + 1].blocksFilled + pages[page].blocksFilled < blocksInPage {
        CheckOutPage(page + 1, true);
        JoinPages(page);
      }
    }
  }

  // ------------------------------------------------------------------------------------------
  // Versions
  // ------------------------------------------------------------------------------------------

  ghost predicate CheckedIn<T(0)>(v: SlimVector<T>)
    reads v, v.pages
  {
    forall p :: p in v.pages ==> !p.checkedOut
  }

  datatype Change<T> = InsertAt(page: nat, offset: nat, value: T) | EraseAt(page: nat, offset: nat) | Append(value: T)

  predicate Allowed<T>(ps: seq<seq<T>>, c: Change<T>)
  {
    match c
    case InsertAt(page, offset, _) => page < |ps| && offset <= |ps[page]|
    case EraseAt(page, offset) => page < |ps| && offset < |ps[page]|
    case Append(_) => true
  }

  function Changed<T>(ps: seq<seq<T>>, cap: nat, c: Change<T>): seq<seq<T>>
    requires Allowed(ps, c)
  {
    match c
    case InsertAt(page, offset, value) => InsertedAt(ps, cap, page, offset, value)
    case EraseAt(page, offset) => ErasedAt(ps, cap, page, offset)
    case Append(value) => PushedBack(ps, cap, value)
  }

  /** Every change of the sequence is at an existing place of the vector it is applied to. */
  ghost predicate AllAllowed<T>(ps: seq<seq<T>>, cap: nat, cs: seq<Change<T>>)
    decreases |cs|
  {
    cs != [] ==> Allowed(ps, cs[0]) && AllAllowed(Changed(ps, cap, cs[0]), cap, cs[1..])
  }

  ghost function AllChanged<T>(ps: seq<seq<T>>, cap: nat, cs: seq<Change<T>>): seq<seq<T>>
    requires AllAllowed(ps, cap, cs)
    decreases |cs|
  {
    if cs == [] then ps else AllChanged(Changed(ps, cap, cs[0]), cap, cs[1..])
  }

  method ChangeVector<T(0)>(v: SlimVector<T>, c: Change<T>)
    requires v.Valid() && v.blocksInPage >= 2 && Allowed(v.Pages(), c)
    modifies v`pages, v.Writable()
    ensures v.Valid() && v.OnlyNewPages()
    ensures v.Pages() == Changed(old(v.Pages()), v.blocksInPage, c)
  {
    hide InsertedAt, ErasedAt, PushedBack, SlimVector.Valid, SlimVector.Pages;
    match c
    case InsertAt(page, offset, value) => v.InsertBefore(page, offset, value);
    case EraseAt(page, offset) => v.Erase(page, offset);
    case Append(value) => v.PushBack(value);
  }

  /**
   * A copy of a vector that is checked in, changed in any way: the method modifies nothing that
   * existed before, so the contents of the original and of every other version stay as they were.
   */
  method ChangeCopy<T(0)>(original: SlimVector<T>, changes: seq<Change<T>>) returns (copy: SlimVector<T>)
    requires original.Valid() && original.blocksInPage >= 2
    requires forall p :: p in original.pages ==> !p.checkedOut
    requires AllAllowed(original.Pages(), original.blocksInPage, changes)
    ensures fresh(copy) && copy.Valid()
    ensures copy.Pages() == AllChanged(old(original.Pages()), original.blocksInPage, changes)
    ensures original.Valid() && original.Pages() == old(original.Pages())
    ensures forall p :: p in copy.pages ==> p in original.pages || (fresh(p) && fresh(p.blocks))
    ensures forall p :: p in copy.pages && p.checkedOut ==> fresh(p) && fresh(p.blocks)
  {
    hide InsertedAt, ErasedAt, PushedBack, Changed, Allowed, SlimVector.Valid;
    ghost var before := original.Pages();
    copy := new SlimVector<T>.Copy(original);
    assert copy.Pages() == before;
    ghost var rest := changes;
    for i := 0 to |changes|
      invariant rest == changes[i..] && fresh(copy) && copy.Valid() && copy.blocksInPage == original.blocksInPage
      invariant forall p :: p in copy.pages ==> p in original.pages || (fresh(p) && fresh(p.blocks))
      invariant forall p :: p in copy.pages && p.checkedOut ==> fresh(p) && fresh(p.blocks)
      invariant AllAllowed(copy.Pages(), copy.blocksInPage, rest)
      invariant AllChanged(copy.Pages(), copy.blocksInPage, rest) ==
        AllChanged(before, original.blocksInPage, changes)
    {
      ChangeVector(copy, changes[i]);
      rest := rest[1..];
    }
  }

  /**
   * One writer: copies a version, changes the copy and merges it. Whether that succeeds or not, every
   * version there is keeps its contents and stays closed for writing; a merged copy is closed as well.
   */
  method ChangeAndMerge<T(0)>(ghost versions: set<SlimVector<T>>, base: SlimVector<T>, latest: SlimVector<T>,
      changes: seq<Change<T>>) returns (copy: SlimVector<T>, merged: bool)
    requires base in versions && base.blocksInPage >= 2
    requires forall v :: v in versions ==> v.Valid() && CheckedIn(v)
    requires AllAllowed(base.Pages(), base.blocksInPage, changes)
    modifies base.pages
    ensures fresh(copy) && copy.Valid() && (merged <==> base == latest)
    ensures copy.Pages() == AllChanged(old(base.Pages()), base.blocksInPage, changes)
    ensures forall v :: v in versions ==> v.Valid() && CheckedIn(v) && v.Pages() == old(v.Pages())
    ensures merged ==> CheckedIn(copy)
  {
    hide InsertedAt, ErasedAt, PushedBack;
    copy := ChangeCopy(base, changes);
    label Changed:
    merged := copy.Merge(base, latest);
    forall v | v in versions
      ensures v.Valid() && CheckedIn(v) && v.Pages() == old(v.Pages())
    {
      assert old@Changed(v.Valid()) && old@Changed(CheckedIn(v));
      assert old@Changed(v.Pages()) == old(v.Pages());
    }
  }

  lemma DividedMeans<T>(ps: seq<seq<T>>, page: nat, cutOff: nat)
    requires page < |ps| && cutOff <= |ps[page]|
    ensures var added := ps[..page + 1] + [[]] + ps[page + 1..];
      Divided(ps, page, cutOff) == added[page + 1 := added[page + 1] + added[page][cutOff..]][page := added[page][..cutOff]]
  {
  }

  lemma NotDivided<T>(ps: seq<seq<T>>, cap: nat, page: nat, offset: nat, value: T)
    requires page < |ps| && offset <= |ps[page]| != cap
    ensures InsertedAt(ps, cap, page, offset, value) == ps[page := Inserted(ps[page], offset, value)]
  {
  }
}
