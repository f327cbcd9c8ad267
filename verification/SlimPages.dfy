/** SlimPage: a fixed block of elements; only a checked-out page may be written. */
module SlimPages {
  lemma ShiftedUp<T>(was: seq<T>, now: seq<T>, offset: nat, value: T)
    requires |now| == |was| + 1 && offset <= |was| && now[offset] == value
    requires forall k :: 0 <= k < offset ==> now[k] == was[k]
    requires forall k :: offset < k < |now| ==> now[k] == was[k - 1]
    ensures now == was[..offset] + [value] + was[offset..]
  {
  }

  lemma Appended<T>(a: seq<T>, b: seq<T>, now: seq<T>)
    requires |now| == |a| + |b|
    requires forall k :: 0 <= k < |a| ==> now[k] == a[k]
    requires forall k :: |a| <= k < |now| ==> now[k] == b[k - |a|]
    ensures now == a + b
  {
  }

  class SlimPage<T(0)> {
    const blocks: array<T>
    var blocksFilled: nat
    var checkedOut: bool

    ghost predicate Valid()
      reads this
    {
      blocksFilled <= blocks.Length
    }

    /** The elements of the page. */
    function Contents(): (s: seq<T>)
      requires Valid()
      reads this, blocks
      ensures |s| == blocksFilled
    {
      blocks[..blocksFilled]
    }

    /** A new page is empty and checked out. */
    constructor (maxBlockCount: nat)
      ensures Valid() && fresh(blocks) && blocks.Length == maxBlockCount
      ensures Contents() == [] && checkedOut
    {
      blocks := new T[maxBlockCount];
      blocksFilled, checkedOut := 0, true;
    }

    predicate Full()
      reads this
    {
      blocksFilled == blocks.Length
    }

    /** At most three tenths filled. */
    predicate AlmostEmpty()
      reads this
    {
      blocksFilled * 10 <= blocks.Length * 3
    }

    method CheckIn()
      modifies this`checkedOut
      ensures !checkedOut
    {
      checkedOut := false;
    }

    /** getCopy: a new, checked-out page with the same elements. */
    method GetCopy() returns (page: SlimPage<T>)
      requires Valid()
      ensures fresh(page) && fresh(page.blocks) && page.Valid() && page.checkedOut
      ensures page.blocks.Length == blocks.Length && page.Contents() == Contents()
    {
      page := new SlimPage(blocks.Length);
      for i := 0 to blocksFilled
        invariant forall k :: 0 <= k < i ==> page.blocks[k] == blocks[k]
        invariant fresh(page.blocks) && page.blocks.Length == blocks.Length && page.checkedOut
      {
        page.blocks[i] := blocks[i];
      }
      page.blocksFilled := blocksFilled;
    }

    method PushBack(value: T)
      requires Valid() && checkedOut && !Full()
      modifies this, blocks
      ensures Valid() && checkedOut
      ensures Contents() == old(Contents()) + [value]
    {
      blocks[blocksFilled] := value;
      blocksFilled := blocksFilled + 1;
    }

    /** Shifts the elements from the offset on by one and puts the value there. */
    method InsertBefore(offset: nat, value: T)
      requires Valid() && checkedOut && !Full() && offset <= blocksFilled
      modifies this, blocks
      ensures Valid() && checkedOut
      ensures Contents() == old(Contents())[..offset] + [value] + old(Contents())[offset..]
    {
      ghost var was := Contents();
      var i := blocksFilled;
      while i > offset
        invariant offset <= i <= blocksFilled == |was| && checkedOut
        invariant forall k :: 0 <= k < i ==> blocks[k] == was[k]
        invariant forall k :: i < k <= blocksFilled ==> blocks[k] == was[k - 1]
      {
        blocks[i] := blocks[i - 1];
        i := i - 1;
      }
      blocksFilled := blocksFilled + 1;
      blocks[offset] := value;
      ShiftedUp(was, Contents(), offset, value);
    }

    /** Appends the elements of the other page from the offset on, and cuts them off there. */
    method MoveValues(page: SlimPage<T>, fromOffset: nat)
      requires Valid() && checkedOut && page.Valid() && page.checkedOut && page != this && page.blocks != blocks
      requires fromOffset <= page.blocksFilled && blocksFilled + (page.blocksFilled - fromOffset) <= blocks.Length
      modifies this, blocks, page
      ensures Valid() && page.Valid() && checkedOut && page.checkedOut
      ensures Contents() == old(Contents()) + old(page.Contents())[fromOffset..]
      ensures page.Contents() == old(page.Contents())[..fromOffset]
    {
      ghost var mine, theirs := Contents(), page.Contents();
      var blocksToCopy := page.blocksFilled - fromOffset;
      for i := 0 to blocksToCopy
        invariant blocksFilled == |mine| && page.blocksFilled == |theirs|
        invariant checkedOut && page.checkedOut && page.Contents() == theirs
        invariant forall k :: 0 <= k < |mine| ==> blocks[k] == mine[k]
        invariant forall k :: |mine| <= k < |mine| + i ==> blocks[k] == theirs[fromOffset..][k - |mine|]
      {
        assert page.blocks[fromOffset + i] == page.Contents()[fromOffset + i];
        blocks[blocksFilled + i] := page.blocks[fromOffset + i];
      }
      blocksFilled := blocksFilled + blocksToCopy;
      page.blocksFilled := page.blocksFilled - blocksToCopy;
      Appended(mine, theirs[fromOffset..], Contents());
      assert page.Contents() == theirs[..fromOffset];
    }

    /** Closes the gap of the element at the offset. */
    method Erase(offset: nat)
      requires Valid() && checkedOut && offset < blocksFilled
      modifies this, blocks
      ensures Valid() && checkedOut
      ensures Contents() == old(Contents())[..offset] + old(Contents())[offset + 1..]
    {
      var i := offset;
      while i < blocksFilled - 1
        invariant offset <= i <= blocksFilled - 1 && blocksFilled == old(blocksFilled) && checkedOut
        invariant forall k :: 0 <= k < offset ==> blocks[k] == old(blocks[k])
        invariant forall k :: offset <= k < i ==> blocks[k] == old(blocks[k + 1])
        invariant forall k :: i <= k < blocksFilled ==> blocks[k] == old(blocks[k])
      {
        blocks[i] := blocks[i + 1];
        i := i + 1;
      }
      blocksFilled := blocksFilled - 1;
    }
  }
}
