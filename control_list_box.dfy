/**
  The selection state of `ControlListBox` (common/src/View/ControlListBox.cpp).

  The box holds one container window per item and a selection index in
  `[0, n]`, where `n`, the number of items, means "nothing selected". Every
  change of the index queues a selection event carrying the new
  `GetSelection()` value; the queued events are kept as an appended log.
  Widgets, sizers, colours and event binding are not modelled: an item
  container is represented by the index it was created for.
*/
module ControlListBox {

  /** `wxNOT_FOUND`. */
  const NotFound: int := -1

  /** The container window created by `refresh` for item `index`. */
  datatype ItemContainer = ItemContainer(index: nat)

  /** The command events the list box queues. */
  datatype ListBoxEvent =
    | SelectionChanged(selection: int)   // wxEVT_LISTBOX
    | DoubleClicked(selection: int)      // wxEVT_LISTBOX_DCLICK

  /** The containers `refresh(itemCount)` creates, in order. */
  function Containers(itemCount: nat): (r: seq<ItemContainer>)
    ensures |r| == itemCount
    ensures forall i :: 0 <= i < itemCount ==> r[i].index == i
  {
    seq(itemCount, i requires 0 <= i < itemCount => ItemContainer(i))
  }

  /** What `GetSelection` reports for index `index` over `count` items. */
  function SelectionValue(index: nat, count: nat): (r: int)
    requires index <= count
    ensures r == NotFound <==> index == count
    ensures r != NotFound ==> 0 <= r < count && r == index
  {
    if index == count then NotFound else index
  }

  /** The index `SetItemCount(newCount)` assigns before refreshing the items. */
  function ResizedIndex(index: nat, oldCount: nat, newCount: nat): (r: nat)
    requires index <= oldCount
    ensures r <= newCount
    ensures r < newCount <==> index < oldCount && index < newCount
    ensures r < newCount ==> r == index
  {
    if index == oldCount then newCount
    else if newCount < index then newCount else index
  }

  /** The index `SetSelection(index)` selects: out-of-range values clear the selection. */
  function ClampedIndex(index: int, count: nat): (r: nat)
    ensures r <= count
    ensures 0 <= index <= count ==> r == index
    ensures index < 0 || index > count ==> r == count
  {
    if index < 0 || index > count then count else index
  }

  class ListBox {
    var emptyText: string
    var items: seq<ItemContainer>
    var selectionIndex: nat
    /** Whether the empty-list text is on display. */
    var showsEmptyText: bool
    var events: seq<ListBoxEvent>

    ghost predicate Valid()
      reads this
    {
      selectionIndex <= |items|
    }

    /** The constructor: no item, nothing selected, no event queued. */
    constructor (emptyText: string)
      ensures Valid()
      ensures this.emptyText == emptyText
      ensures items == [] && selectionIndex == 0 && events == []
      ensures showsEmptyText == (emptyText != [])
    {
      this.emptyText := emptyText;
      items := [];
      selectionIndex := 0;
      showsEmptyText := false;
      events := [];
      new;
      SetItemCount(0);
    }

    /** `GetSelection`: `NotFound` when nothing is selected, otherwise the index. */
    function GetSelection(): (r: int)
      reads this
      requires Valid()
      ensures r == NotFound <==> selectionIndex == |items|
      ensures r != NotFound ==> r == selectionIndex
    {
      SelectionValue(selectionIndex, |items|)
    }

    /**
      `SetItemCount`: a selection survives only when its index is still in
      range; no selection event is queued, because the index is assigned
      before `setSelection` is called with it.
    */
    method SetItemCount(itemCount: nat)
      requires Valid()
      modifies this
      ensures Valid()
      ensures items == Containers(itemCount)
      ensures selectionIndex == ResizedIndex(old(selectionIndex), old(|items|), itemCount)
      ensures old(selectionIndex) == old(|items|) ==> GetSelection() == NotFound
      ensures old(selectionIndex) < old(|items|) ==>
                GetSelection() == (if old(selectionIndex) < itemCount then old(selectionIndex) else NotFound)
      ensures events == old(events)
      ensures emptyText == old(emptyText)
      ensures showsEmptyText == (itemCount == 0 && emptyText != [])
    {
      if selectionIndex == |items| {
        ResizeKeepsNoSelection(|items|, itemCount);
        selectionIndex := itemCount;
      } else {
        ResizeKeepsSelection(selectionIndex, |items|, itemCount);
        selectionIndex := if itemCount < selectionIndex then itemCount else selectionIndex;
      }
      Refresh(itemCount);
      SetSelectionIndex(selectionIndex);
    }

    /** `SetSelection(int)`: an index below 0 or beyond the item count clears the selection. */
    method SetSelection(index: int)
      requires Valid()
      modifies this`selectionIndex, this`events
      ensures Valid()
      ensures selectionIndex == ClampedIndex(index, |items|)
      ensures 0 <= index < |items| ==> GetSelection() == index
      ensures index < 0 || index >= |items| ==> GetSelection() == NotFound
      ensures events == old(events) + (if old(selectionIndex) != selectionIndex then [SelectionChanged(GetSelection())] else [])
    {
      if index < 0 || index > |items| {
        SetSelectionIndex(|items|);
      } else {
        SetSelectionIndex(index);
      }
      if 0 <= index < |items| {
        InRangeSelects(index, |items|);
      } else {
        OutOfRangeClears(index, |items|);
      }
    }

    /** `refresh(itemCount)`: the containers are destroyed and recreated, one per item. */
    method Refresh(itemCount: nat)
      modifies this`items, this`showsEmptyText
      ensures items == Containers(itemCount)
      ensures showsEmptyText == (itemCount == 0 && emptyText != [])
    {
      items := [];
      showsEmptyText := false;
      if itemCount > 0 {
        for i := 0 to itemCount
          invariant items == Containers(i) && !showsEmptyText
        {
          items := items + [ItemContainer(i)];
        }
      } else if emptyText != [] {
        showsEmptyText := true;
      }
    }

    /** `setSelection(size_t)`: queues a selection event exactly when the index changes. */
    method SetSelectionIndex(index: nat)
      requires index <= |items|
      modifies this`selectionIndex, this`events
      ensures Valid()
      ensures selectionIndex == index
      ensures events == old(events) + (if old(selectionIndex) != index then [SelectionChanged(GetSelection())] else [])
    {
      var changed := selectionIndex != index;
      selectionIndex := index;
      if changed {
        events := events + [SelectionChanged(GetSelection())];
      }
    }

    /** `OnClickChild` / `OnFocusChild`: the item whose container was hit becomes selected. */
    method OnClickChild(itemIndex: nat)
      requires Valid() && itemIndex < |items|
      modifies this`selectionIndex, this`events
      ensures Valid()
      ensures selectionIndex == itemIndex && GetSelection() == itemIndex
      ensures events == old(events) + (if old(selectionIndex) != itemIndex then [SelectionChanged(itemIndex)] else [])
    {
      SetSelectionIndex(itemIndex);
    }

    /** `OnClickList`: a click on the list background clears the selection. */
    method OnClickList()
      requires Valid()
      modifies this`selectionIndex, this`events
      ensures Valid()
      ensures selectionIndex == |items| && GetSelection() == NotFound
      ensures events == old(events) + (if old(selectionIndex) != |items| then [SelectionChanged(NotFound)] else [])
    {
      SetSelectionIndex(|items|);
    }

    /** `OnDoubleClickChild`: queues a double-click event carrying the current selection. */
    method OnDoubleClickChild()
      requires Valid()
      modifies this`events
      ensures events == old(events) + [DoubleClicked(GetSelection())]
    {
      events := events + [DoubleClicked(GetSelection())];
    }
  }

  // ---------------------------------------------------------------------
  // Properties of the selection rules
  // ---------------------------------------------------------------------

  /** Resizing never selects anything when nothing was selected. */
  lemma ResizeKeepsNoSelection(oldCount: nat, newCount: nat)
    ensures SelectionValue(ResizedIndex(oldCount, oldCount, newCount), newCount) == NotFound
  {
  }

  /** A selection survives a resize exactly when its index is below the new count, unchanged. */
  lemma ResizeKeepsSelection(index: nat, oldCount: nat, newCount: nat)
    requires index < oldCount
    ensures var r := ResizedIndex(index, oldCount, newCount);
      SelectionValue(r, newCount) == (if index < newCount then index else NotFound)
  {
  }

  /** Selecting an out-of-range value reads back as "nothing selected". */
  lemma OutOfRangeClears(index: int, count: nat)
    requires index < 0 || index >= count
    ensures SelectionValue(ClampedIndex(index, count), count) == NotFound
  {
  }

  /** Selecting an in-range value reads back as that value. */
  lemma InRangeSelects(index: int, count: nat)
    requires 0 <= index < count
    ensures SelectionValue(ClampedIndex(index, count), count) == index
  {
  }
}
