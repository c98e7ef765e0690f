// Scroll geometry of the variable-height check list control (ssrui/chklist.cxx).

/** Prefix sums of item slots.  Slot i is the vertical gap above label i plus the label itself. */
module ScrollGeometry {

  function Slot(heights: seq<nat>, spacing: nat, i: nat): nat
    requires i < |heights|
  {
    spacing + heights[i]
  }

  /** The sum of the first n slots: the scroll position that puts item n at the top. */
  function Offset(heights: seq<nat>, spacing: nat, n: nat): nat
    requires n <= |heights|
  {
    if n == 0 then 0 else Offset(heights, spacing, n - 1) + Slot(heights, spacing, n - 1)
  }

  ghost predicate AllPositive(heights: seq<nat>) {
    forall i :: 0 <= i < |heights| ==> 0 < heights[i]
  }

  /** Item i is the first one showing at scroll position pos, with `obscured` of its slot scrolled off. */
  ghost predicate IsTop(heights: seq<nat>, spacing: nat, pos: int, i: int, obscured: int) {
    && 0 <= i < |heights|
    && Offset(heights, spacing, i) + obscured == pos
    && 0 <= obscured < Slot(heights, spacing, i)
  }

  lemma {:induction false} OffsetMonotone(heights: seq<nat>, spacing: nat, i: nat, j: nat)
    requires i <= j <= |heights|
    ensures Offset(heights, spacing, i) <= Offset(heights, spacing, j)
    ensures i < j ==> Offset(heights, spacing, i) + Slot(heights, spacing, i) <= Offset(heights, spacing, j)
  {
    if i < j {
      OffsetMonotone(heights, spacing, i, j - 1);
    }
  }

  lemma {:induction false} OffsetOfPrefix(heights: seq<nat>, more: seq<nat>, spacing: nat, n: nat)
    requires n <= |heights|
    ensures Offset(heights + more, spacing, n) == Offset(heights, spacing, n)
  {
    if n != 0 {
      OffsetOfPrefix(heights, more, spacing, n - 1);
    }
  }

  /** Every position inside the items has a top item ... */
  lemma {:induction false} TopExists(heights: seq<nat>, spacing: nat, pos: nat, n: nat)
    requires n <= |heights| && pos < Offset(heights, spacing, n)
    ensures exists i: nat, obscured: nat :: IsTop(heights, spacing, pos, i, obscured)
  {
    if pos < Offset(heights, spacing, n - 1) {
      TopExists(heights, spacing, pos, n - 1);
    } else {
      var i: nat, obscured: nat := n - 1, pos - Offset(heights, spacing, n - 1);
      assert IsTop(heights, spacing, pos, i, obscured);
    }
  }

  /** ... and only one. */
  lemma TopUnique(heights: seq<nat>, spacing: nat, pos: int, i: int, x: int, j: int, y: int)
    requires IsTop(heights, spacing, pos, i, x) && IsTop(heights, spacing, pos, j, y)
    ensures i == j && x == y
  {
    if i < j {
      OffsetMonotone(heights, spacing, i, j);
    } else if j < i {
      OffsetMonotone(heights, spacing, j, i);
    }
  }

  function Max(x: int, y: int): int {
    if x < y then y else x
  }

  function Min(x: int, y: int): int {
    if x < y then x else y
  }

  function Clamp(x: int, lo: int, hi: int): int {
    if x < lo then lo else if x > hi then hi else x
  }

  /** The whole slot of item i, the gap above its label included, shows in a window of height client. */
  ghost predicate SlotInView(heights: seq<nat>, spacing: nat, client: nat, pos: int, i: nat)
    requires i < |heights|
  {
    pos <= Offset(heights, spacing, i) && BottomFits(heights, spacing, client, pos, i)
  }

  ghost predicate BottomFits(heights: seq<nat>, spacing: nat, client: nat, pos: int, i: nat)
    requires i < |heights|
  {
    Offset(heights, spacing, i + 1) - pos <= client
  }

  /** t is the earliest item that can be at the top with all of item i still showing; i + 1 if none can. */
  ghost predicate IsLeastTop(heights: seq<nat>, spacing: nat, client: nat, i: nat, t: nat)
    requires i < |heights|
  {
    && t <= i + 1
    && Offset(heights, spacing, i + 1) - Offset(heights, spacing, t) <= client
    && (0 < t ==> client < Offset(heights, spacing, i + 1) - Offset(heights, spacing, t - 1))
  }

  /** Where a window at position pos goes to bring item i into view. */
  ghost predicate ScrollsTo(heights: seq<nat>, spacing: nat, client: nat, maxPos: int, pos: int, i: nat, newPos: int)
    requires i < |heights|
  {
    if Offset(heights, spacing, i) < pos then
      newPos == Offset(heights, spacing, i)
    else if Offset(heights, spacing, i) == pos || BottomFits(heights, spacing, client, pos, i) then
      newPos == pos
    else
      exists t :: IsLeastTop(heights, spacing, client, i, t)
        && newPos == Clamp(Offset(heights, spacing, t), 0, maxPos)
  }

  /** The scroll bar's largest position for these items. */
  function MaxPosition(heights: seq<nat>, spacing: nat, client: nat): int {
    var content := spacing + Offset(heights, spacing, |heights|);
    if client <= content then content - client else 0
  }

  /** Adding items or lowering the window never takes a scroll position out of the range. */
  lemma PositionStaysInRange(heights: seq<nat>, more: seq<nat>, spacing: nat, client: nat, lower: nat, pos: int)
    requires lower <= client
    requires 0 <= pos <= MaxPosition(heights, spacing, client)
    ensures pos <= MaxPosition(heights + more, spacing, lower)
  {
    OffsetOfPrefix(heights, more, spacing, |heights|);
    OffsetMonotone(heights + more, spacing, |heights|, |heights + more|);
  }

  /** The range ends where scrolling on would show nothing new: a position is before its end exactly when some item,
      with the gap below it, still reaches under the window. */
  lemma RangeEndsWithLastItem(heights: seq<nat>, spacing: nat, client: nat, pos: nat)
    requires heights != []
    ensures pos < MaxPosition(heights, spacing, client) <==>
      exists n :: 0 < n <= |heights| && client < Offset(heights, spacing, n) + spacing - pos
  {
    if n :| 0 < n <= |heights| && client < Offset(heights, spacing, n) + spacing - pos {
      OffsetMonotone(heights, spacing, n, |heights|);
    }
  }

  ghost predicate HasTop(heights: seq<nat>, spacing: nat, pos: int) {
    exists i, obscured :: IsTop(heights, spacing, pos, i, obscured)
  }

  /** Looking for the top item never runs off the list exactly when the window is taller than one gap. */
  lemma EveryPositionHasTop(heights: seq<nat>, spacing: nat, client: nat)
    requires AllPositive(heights) && heights != []
    ensures (forall pos :: 0 <= pos <= MaxPosition(heights, spacing, client) ==> HasTop(heights, spacing, pos))
       <==> spacing < client
  {
    var n := |heights|;
    var maxPos := MaxPosition(heights, spacing, client);
    assert 0 < Offset(heights, spacing, n);
    if spacing < client {
      forall pos | 0 <= pos <= maxPos
        ensures HasTop(heights, spacing, pos)
      {
        TopExists(heights, spacing, pos, n);
      }
    } else {
      if i, x :| IsTop(heights, spacing, maxPos, i, x) {
        OffsetMonotone(heights, spacing, i + 1, n);
      }
      assert !HasTop(heights, spacing, maxPos);
    }
  }

  /** A window that can hold item i shows all of it afterwards. */
  lemma ScrollsToInView(heights: seq<nat>, spacing: nat, client: nat, pos: int, i: nat, newPos: int)
    requires i < |heights|
    requires ScrollsTo(heights, spacing, client, MaxPosition(heights, spacing, client), pos, i, newPos)
    requires Slot(heights, spacing, i) <= client
    ensures SlotInView(heights, spacing, client, newPos, i)
  {
    var p := Offset(heights, spacing, i);
    assert Offset(heights, spacing, i + 1) == p + Slot(heights, spacing, i);
    if pos < p && !BottomFits(heights, spacing, client, pos, i) {
      var top: nat :| IsLeastTop(heights, spacing, client, i, top)
        && newPos == Clamp(Offset(heights, spacing, top), 0, MaxPosition(heights, spacing, client));
      LeastTopInView(heights, spacing, client, i, top);
    } else {
      assert newPos == p || (newPos == pos && pos < p);
    }
  }

  lemma LeastTopInView(heights: seq<nat>, spacing: nat, client: nat, i: nat, top: nat)
    requires i < |heights| && IsLeastTop(heights, spacing, client, i, top)
    requires Slot(heights, spacing, i) <= client
    ensures SlotInView(heights, spacing, client,
                       Clamp(Offset(heights, spacing, top), 0, MaxPosition(heights, spacing, client)), i)
  {
    LeastTopAbove(heights, spacing, client, i, top);
    OffsetMonotone(heights, spacing, i + 1, |heights|);
    var maxPos := MaxPosition(heights, spacing, client);
    assert Offset(heights, spacing, i + 1) - maxPos <= client;
  }

  /** A window that shows all of item i already does not move; one that starts below it goes to its top edge. */
  lemma ScrollsToNoFurther(heights: seq<nat>, spacing: nat, client: nat, maxPos: int, pos: int, i: nat, newPos: int)
    requires i < |heights| && ScrollsTo(heights, spacing, client, maxPos, pos, i, newPos)
    ensures SlotInView(heights, spacing, client, pos, i) ==> newPos == pos
    ensures Offset(heights, spacing, i) < pos ==> newPos == Offset(heights, spacing, i)
  {
  }

  lemma LeastTopAbove(heights: seq<nat>, spacing: nat, client: nat, i: nat, top: nat)
    requires i < |heights| && IsLeastTop(heights, spacing, client, i, top)
    requires Slot(heights, spacing, i) <= client
    ensures top <= i && Offset(heights, spacing, top) <= Offset(heights, spacing, i)
  {
    if top <= i {
      OffsetMonotone(heights, spacing, top, i);
    }
  }

  /** Item boundaries before the least top leave the bottom of item i out. */
  lemma BeforeLeastTop(heights: seq<nat>, spacing: nat, client: nat, i: nat, top: nat, t: nat)
    requires i < |heights| && t <= i && IsLeastTop(heights, spacing, client, i, top)
    requires Offset(heights, spacing, t) < Offset(heights, spacing, top)
    ensures !BottomFits(heights, spacing, client, Offset(heights, spacing, t), i)
  {
    if top <= t {
      OffsetMonotone(heights, spacing, top, t);
    } else {
      OffsetMonotone(heights, spacing, t, top - 1);
    }
  }

  /** Scrolling down stops as soon as it can: no item boundary before the new position shows all of item i. */
  lemma ScrollsToEarliest(heights: seq<nat>, spacing: nat, client: nat, pos: int, i: nat, newPos: int, t: nat)
    requires i < |heights| && AllPositive(heights) && 0 <= pos
    requires ScrollsTo(heights, spacing, client, MaxPosition(heights, spacing, client), pos, i, newPos)
    requires pos < Offset(heights, spacing, i) && !BottomFits(heights, spacing, client, pos, i)
    requires t <= i && Offset(heights, spacing, t) < newPos
    ensures !BottomFits(heights, spacing, client, Offset(heights, spacing, t), i)
  {
    var maxPos := MaxPosition(heights, spacing, client);
    assert maxPos >= 0;
    var top: nat :| IsLeastTop(heights, spacing, client, i, top)
      && newPos == Clamp(Offset(heights, spacing, top), 0, maxPos);
    BeforeLeastTop(heights, spacing, client, i, top, t);
  }

  /** An item too tall for the window is never shown whole. */
  lemma ScrollsToTooTall(heights: seq<nat>, spacing: nat, client: nat, pos: int, i: nat, newPos: int)
    requires i < |heights| && AllPositive(heights)
    requires ScrollsTo(heights, spacing, client, MaxPosition(heights, spacing, client), pos, i, newPos)
    requires client < Slot(heights, spacing, i)
    ensures spacing + Offset(heights, spacing, i) < newPos || !BottomFits(heights, spacing, client, newPos, i)
  {
    var p := Offset(heights, spacing, i);
    assert Offset(heights, spacing, i + 1) == p + Slot(heights, spacing, i);
    if pos < p && !BottomFits(heights, spacing, client, pos, i) {
      var top: nat :| IsLeastTop(heights, spacing, client, i, top)
        && newPos == Clamp(Offset(heights, spacing, top), 0, MaxPosition(heights, spacing, client));
      TooTallOutOfView(heights, spacing, client, i, top);
    }
  }

  lemma TooTallOutOfView(heights: seq<nat>, spacing: nat, client: nat, i: nat, top: nat)
    requires i < |heights| && AllPositive(heights) && IsLeastTop(heights, spacing, client, i, top)
    requires client < Slot(heights, spacing, i)
    ensures var newPos := Clamp(Offset(heights, spacing, top), 0, MaxPosition(heights, spacing, client));
      spacing + Offset(heights, spacing, i) < newPos || !BottomFits(heights, spacing, client, newPos, i)
  {
    TooTallTop(heights, spacing, client, i, top);
    OffsetMonotone(heights, spacing, i + 1, |heights|);
  }

  lemma TooTallTop(heights: seq<nat>, spacing: nat, client: nat, i: nat, top: nat)
    requires i < |heights| && IsLeastTop(heights, spacing, client, i, top)
    requires client < Slot(heights, spacing, i)
    ensures top == i + 1
  {
    if top <= i {
      OffsetMonotone(heights, spacing, top, i);
    }
  }
}

module CheckListControl {
  import opened ScrollGeometry
  import opened Wrappers

  datatype ScrollCode = LineUp | LineDown | PageUp | PageDown | Top | Bottom | EndScroll | ThumbTrack | ThumbPosition

  /** How far adding an item gets.  The label window fails with its user data, its creation or attaching the two. */
  datatype ItemOutcome = Created | BadArgument | LabelFailed | CheckboxFailed

  class CheckList {
    const spacing: nat     // gap above every label, in pixels
    const itemHeight: nat  // height of one line of text

    var clientHeight: nat       // bottom of the client rectangle
    var labelHeights: seq<nat>  // one entry per item
    var labelTops: seq<int>     // current y of each label window, in client coordinates
    var newItemYPos: int
    var wheelDelta: int

    // The window's vertical scroll bar; its minimum is always 0.
    var nMax: int
    var nPage: int
    var nPos: int

    ghost function P(i: nat): nat
      requires i <= |labelHeights|
      reads this
    {
      Offset(labelHeights, spacing, i)
    }

    /** The largest position that still shows a full page. */
    function MaxPos(): int
      reads this
    {
      nMax - (nPage - 1)
    }

    ghost predicate ItemsFit()
      reads this
    {
      && 0 < itemHeight && spacing < clientHeight
      && AllPositive(labelHeights) && |labelTops| == |labelHeights|
      && newItemYPos == spacing + P(|labelHeights|)
    }

    /** The scroll bar covers the items, and its page and position are inside its range. */
    ghost predicate RangeFits()
      reads this
    {
      && nMax == (if newItemYPos == 0 then 0 else newItemYPos - 1)
      && nPage == (if clientHeight <= nMax + 1 then clientHeight else nMax + 1)
      && 0 <= nPos <= MaxPos()
    }

    ghost predicate Valid()
      reads this
    {
      && ItemsFit() && RangeFits()
      && forall i :: 0 <= i < |labelTops| ==> labelTops[i] == spacing + P(i) - nPos
    }

    /** The label window of item i lies wholly inside the client area. */
    ghost predicate LabelInView(i: nat)
      requires i < |labelTops| == |labelHeights|
      reads this
    {
      0 <= labelTops[i] && labelTops[i] + labelHeights[i] <= clientHeight
    }

    /** The scroll bar is left as it is until the first sizing message. */
    constructor (spacing: nat, itemHeight: nat, clientHeight: nat)
      requires 0 < itemHeight && spacing < clientHeight
      ensures ItemsFit() && labelHeights == [] && nPos == 0 && wheelDelta == 0
      ensures this.spacing == spacing && this.itemHeight == itemHeight && this.clientHeight == clientHeight
    {
      this.spacing, this.itemHeight, this.clientHeight := spacing, itemHeight, clientHeight;
      labelHeights, labelTops := [], [];
      newItemYPos := spacing;
      wheelDelta := 0;
      nPos := 0;
    }

    /** Lays the control out for a new height.  The labels are put where they are in a control that is not scrolled,
        while the scroll bar keeps its position as far as the new range allows. */
    method MsgSize(height: nat)
      requires ItemsFit() && spacing < height
      modifies this`clientHeight, this`nMax, this`nPage, this`nPos, this`labelTops
      ensures ItemsFit() && RangeFits() && clientHeight == height
      ensures nPos == Clamp(old(nPos), 0, MaxPosition(labelHeights, spacing, height))
      ensures forall i :: 0 <= i < |labelTops| ==> labelTops[i] == spacing + P(i)
      ensures Valid() <==> nPos == 0 || labelHeights == []
    {
      clientHeight := height;
      SetScrollRange();
      SetColumnWidth();
      assert labelHeights != [] ==> labelTops[0] == spacing;
    }

    /** Moves every label to its place behind the one before it. */
    method SetColumnWidth()
      requires ItemsFit()
      modifies this`labelTops
      ensures |labelTops| == |labelHeights|
      ensures forall i :: 0 <= i < |labelTops| ==> labelTops[i] == spacing + P(i)
    {
      var top := spacing;
      for i := 0 to |labelHeights|
        invariant |labelTops| == |labelHeights| && top == spacing + P(i)
        invariant forall k :: 0 <= k < i ==> labelTops[k] == spacing + P(k)
      {
        labelTops := labelTops[i := top];
        top := top + labelHeights[i] + spacing;
      }
    }

    /** The result is the index of a new item exactly when there is one; but a caller who does not count the items
        cannot tell, since a label that fails gives the index of the item before. */
    method AddItem(lineCount: nat, outcome: ItemOutcome) returns (index: int)
      requires Valid() && 1 <= lineCount
      modifies this
      ensures Valid()
      ensures labelHeights == old(labelHeights) + (if outcome.Created? then [lineCount * itemHeight] else [])
      ensures labelTops[..|old(labelTops)|] == old(labelTops)
      ensures nPos == old(nPos) && wheelDelta == old(wheelDelta) && clientHeight == old(clientHeight)
      ensures index == |old(labelHeights)| <==> outcome.Created?
      ensures outcome.LabelFailed? ==> index == |old(labelHeights)| - 1
      ensures outcome.BadArgument? || outcome.CheckboxFailed? ==> index == -1
    {
      match outcome {
        case BadArgument => return -1;
        case LabelFailed => return |labelHeights| - 1;
        case CheckboxFailed => return -1;
        case Created =>
      }
      var labelHeight: nat := lineCount * itemHeight;
      assert 0 < labelHeight;
      ghost var before := labelHeights;
      forall n: nat | n <= |before|
        ensures Offset(before + [labelHeight], spacing, n) == Offset(before, spacing, n)
      {
        OffsetOfPrefix(before, [labelHeight], spacing, n);
      }
      PositionStaysInRange(before, [labelHeight], spacing, clientHeight, clientHeight, nPos);
      labelTops := labelTops + [newItemYPos - nPos];
      labelHeights := labelHeights + [labelHeight];
      newItemYPos := newItemYPos + labelHeight + spacing;
      SetScrollRange();
      index := |labelHeights| - 1;
    }

    /** The scroll bar keeps its page no larger than its range and its position inside the range. */
    method SetScrollRange()
      requires ItemsFit()
      modifies this`nMax, this`nPage, this`nPos
      ensures RangeFits() && MaxPos() == MaxPosition(labelHeights, spacing, clientHeight)
      ensures 0 <= old(nPos) <= MaxPos() ==> nPos == old(nPos)
      ensures old(nPos) < 0 ==> nPos == 0
      ensures MaxPos() < old(nPos) ==> nPos == MaxPos()
    {
      nMax := if newItemYPos == 0 then 0 else newItemYPos - 1;
      nPage := if clientHeight <= nMax + 1 then clientHeight else nMax + 1;
      nPos := Clamp(nPos, 0, MaxPos());
    }

    /** Moves the position as the code says, by one line or one page, or to a place, and never out of the range. */
    method MsgVScroll(code: ScrollCode, thumb: int)
      requires Valid()
      modifies this`nPos, this`labelTops
      ensures Valid()
      ensures code.LineUp? ==> nPos == Max(old(nPos) - (spacing + itemHeight), 0)
      ensures code.LineDown? ==> nPos == Min(old(nPos) + (spacing + itemHeight), MaxPos())
      ensures code.PageUp? ==> nPos == Max(old(nPos) - nPage, 0)
      ensures code.PageDown? ==> nPos == Min(old(nPos) + nPage, MaxPos())
      ensures code.Top? ==> nPos == 0
      ensures code.Bottom? ==> nPos == MaxPos()
      ensures code.EndScroll? ==> nPos == old(nPos)
      ensures code.ThumbTrack? || code.ThumbPosition? ==> nPos == Clamp(thumb, 0, MaxPos())
    {
      var pos := nPos;
      match code {
        case LineUp => pos := nPos - (spacing + itemHeight);
        case LineDown => pos := nPos + (spacing + itemHeight);
        case PageUp => pos := nPos - nPage;
        case PageDown => pos := nPos + nPage;
        case Top => pos := 0;
        case Bottom => pos := MaxPos();
        case EndScroll =>
        case ThumbTrack => pos := thumb;
        case ThumbPosition => pos := thumb;
      }
      ScrollTo(Clamp(pos, 0, MaxPos()));
    }

    /** Sets the position, and scrolls the label windows the other way. */
    method ScrollTo(pos: int)
      requires Valid() && 0 <= pos <= MaxPos()
      modifies this`nPos, this`labelTops
      ensures Valid() && nPos == pos
    {
      if pos != nPos {
        var dy := nPos - pos;
        nPos := pos;
        labelTops := seq(|labelTops|, i requires 0 <= i < |labelTops| reads this => labelTops[i] + dy);
      }
    }

    /** The labels stand in their order with one gap above each, wherever the control is scrolled to. */
    lemma LabelsStack(i: nat)
      requires Valid() && i < |labelTops|
      ensures 0 < i ==> labelTops[i] == labelTops[i - 1] + labelHeights[i - 1] + spacing
      ensures i == 0 ==> labelTops[i] == spacing - nPos
    {
    }

    /** The height stored with label window i, if there is such a window. */
    function LabelHeight(i: int): Option<nat>
      reads this
    {
      if 0 <= i < |labelHeights| then Some(labelHeights[i]) else None
    }

    /** The first visible item and how much of its slot is scrolled off; -1 when there are no items. */
    method GetTopIndex() returns (index: int, obscured: int)
      requires Valid()
      ensures labelHeights == [] ==> index == -1 && obscured == 0
      ensures labelHeights != [] ==> IsTop(labelHeights, spacing, nPos, index, obscured)
    {
      index, obscured := 0, 0;
      if LabelHeight(0).None? {
        return -1, 0;
      }
      var pos := nPos;
      while pos >= spacing + labelHeights[index]
        invariant 0 <= index < |labelHeights|
        invariant 0 <= pos && P(index) + pos == nPos < P(|labelHeights|)
        decreases pos
      {
        pos := pos - (spacing + labelHeights[index]);
        index := index + 1;
      }
      obscured := pos;
    }

    /** Counts the items from the top one down whose bottom edge fits, but never fewer than one. */
    method GetVisibleCount() returns (count: int)
      requires Valid()
      ensures labelHeights == [] ==> count == 1
      ensures forall top, x :: IsTop(labelHeights, spacing, nPos, top, x) ==>
        && 1 <= count <= |labelHeights| - top
        && forall j :: top <= j < |labelHeights| ==>
          (j < top + count <==> BottomFits(labelHeights, spacing, clientHeight, nPos, j) || j == top)
    {
      count := 0;
      var index, amountObscured := GetTopIndex();
      if index == -1 {
        return 1;
      }
      ghost var first, x := index, amountObscured;
      var amountShown := 0;
      while index < |labelHeights| && amountShown < clientHeight
        invariant first <= index <= |labelHeights| && count == index - first
        invariant index == first ==> amountShown == 0 && amountObscured == x
        invariant first < index ==> amountObscured == 0 && amountShown == P(index) - nPos
        invariant forall j :: first <= j < index - 1 ==> BottomFits(labelHeights, spacing, clientHeight, nPos, j)
      {
        amountShown := amountShown + (spacing + labelHeights[index] - amountObscured);
        amountObscured := 0;
        count := count + 1;
        index := index + 1;
      }
      forall j | index <= j < |labelHeights|
        ensures !BottomFits(labelHeights, spacing, clientHeight, nPos, j)
      {
        OffsetMonotone(labelHeights, spacing, index, j);
      }
      if amountShown > clientHeight {
        count := count - 1;
      }
      count := if count < 1 then 1 else count;
      forall t, y | IsTop(labelHeights, spacing, nPos, t, y)
        ensures t == first
      {
        TopUnique(labelHeights, spacing, nPos, t, y, first, x);
      }
    }

    /** Puts item i at the top, as far as the scroll range allows. */
    method SetTopIndex(i: int)
      requires Valid()
      modifies this`nPos, this`labelTops, this`wheelDelta
      ensures Valid() && wheelDelta == 0
      ensures nPos == Clamp(P(Clamp(i, 0, |labelHeights|)), 0, MaxPos())
      ensures 0 <= i < |labelHeights| ==> (IsTop(labelHeights, spacing, nPos, i, 0) <==> P(i) <= MaxPos())
    {
      var pos, k := 0, 0;
      while k < i
        invariant 0 <= k && (k <= i || i < 0 == k)
        invariant pos == P(Clamp(k, 0, |labelHeights|))
      {
        if k < |labelHeights| {
          pos := pos + (spacing + labelHeights[k]);
        }
        k := k + 1;
      }
      wheelDelta := 0;
      MsgVScroll(ThumbPosition, pos);
    }

    /** Scrolls as little as needed to bring the whole of item i into the window. */
    method EnsureVisible(i: int)
      requires Valid()
      modifies this`nPos, this`labelTops, this`wheelDelta
      ensures Valid()
      ensures 0 <= i < |labelHeights| ==>
        ScrollsTo(labelHeights, spacing, clientHeight, MaxPos(), old(nPos), i, nPos)
      // The label ends up wholly inside the window exactly when its slot can fit at all.
      ensures 0 <= i < |labelHeights| ==> (LabelInView(i) <==> Slot(labelHeights, spacing, i) <= clientHeight)
      // An index outside the list scrolls back to the start.
      ensures !(0 <= i < |labelHeights|) && labelHeights != [] ==> nPos == 0
    {
      ghost var was := nPos;
      var top, obscured := GetTopIndex();
      if top == -1 {
        return;
      }
      if 0 <= i < |labelHeights| {
        TopOrder(top, obscured, i);
      }
      if i < top {
        SetTopIndex(i);
      } else if i == top {
        if obscured != 0 {
          SetTopIndex(i);
        }
      } else {
        ScrollDownTo(i, top, obscured);
      }
      if 0 <= i < |labelHeights| {
        assert ScrollsTo(labelHeights, spacing, clientHeight, MaxPos(), was, i, nPos);
        LabelShows(i, was);
      }
    }

    /** The part of EnsureVisible for an index after the top item. */
    method ScrollDownTo(i: int, top: int, obscured: int)
      requires Valid() && IsTop(labelHeights, spacing, nPos, top, obscured) && top < i
      modifies this`nPos, this`labelTops, this`wheelDelta
      ensures Valid()
      ensures i < |labelHeights| ==>
        ScrollsTo(labelHeights, spacing, clientHeight, MaxPos(), old(nPos), i, nPos)
      ensures |labelHeights| <= i ==> nPos == 0
    {
      var visible := GetVisibleCount();
      if i < |labelHeights| {
        TopOrder(top, obscured, i);
      }
      if i >= top + visible {
        var newTop := TopIndexFor(i);
        SetTopIndex(newTop);
      }
    }

    /** How the offset of item i compares with the scroll position, given the top item. */
    lemma TopOrder(top: int, obscured: int, i: nat)
      requires Valid() && i < |labelHeights|
      requires IsTop(labelHeights, spacing, nPos, top, obscured)
      ensures i < top ==> P(i) < nPos
      ensures i == top ==> P(i) == nPos - obscured
      ensures top < i ==> nPos < P(i)
    {
      if i < top {
        OffsetMonotone(labelHeights, spacing, i, top);
      } else {
        OffsetMonotone(labelHeights, spacing, top, i);
      }
    }

    lemma LabelShows(i: nat, was: int)
      requires Valid() && i < |labelHeights|
      requires ScrollsTo(labelHeights, spacing, clientHeight, MaxPos(), was, i, nPos)
      ensures LabelInView(i) <==> Slot(labelHeights, spacing, i) <= clientHeight
    {
      if Slot(labelHeights, spacing, i) <= clientHeight {
        ScrollsToInView(labelHeights, spacing, clientHeight, was, i, nPos);
      } else {
        ScrollsToTooTall(labelHeights, spacing, clientHeight, was, i, nPos);
      }
    }

    /** Walks back from item i to the first item that can be at the top with all of item i showing. */
    method TopIndexFor(i: int) returns (top: nat)
      requires Valid() && 0 <= i
      ensures i < |labelHeights| ==> IsLeastTop(labelHeights, spacing, clientHeight, i, top)
      ensures |labelHeights| <= i ==> top == 0
    {
      var bottom: int := clientHeight;
      top := i + 1;
      while true
        invariant 0 <= top <= i + 1 && 0 < bottom
        invariant i < |labelHeights| ==> bottom == clientHeight - (P(i + 1) - P(top))
        invariant |labelHeights| <= i ==> top == i + 1
        decreases top
      {
        var next := top - 1;
        if LabelHeight(next).Some? {
          bottom := bottom - (labelHeights[next] + spacing);
          if bottom < 0 {
            next := next + 1;
          }
        } else {
          bottom := 0;
          next := 0;
        }
        top := next;
        if bottom <= 0 {
          break;
        }
      }
    }
  }
}
