/**
 The most-recently-used order of the editor's tabs (MainFrame): the vector of page indices, the cursor that moves
 through it while Ctrl is held, and the notebook's pages and selection.
 */
module TabOrder {
  import opened Lists

  /** What -1 means as a page or as the cursor: no page, not paging. */
  const NONE: int := -1

  /** The order lists each of n pages once. */
  predicate IsPermutation(order: seq<nat>, n: nat)
  {
    |order| == n && NoDuplicates(order) && forall p :: p in order ==> p < n
  }

  // ----- The two passes, as lists -----

  /** p in front, the others in their order. */
  function Promoted(order: seq<nat>, p: nat): seq<nat>
  {
    [p] + Without(order, p)
  }

  /** A page index after page p has been closed. */
  function Lowered(q: nat, p: nat): nat
  {
    if q > p then q - 1 else q
  }

  /** The index that page q had before page p was closed. */
  function Raised(q: nat, p: nat): (r: nat)
    ensures r != p && Lowered(r, p) == q
  {
    if q >= p then q + 1 else q
  }

  /** The order without p, with the pages behind it renumbered. */
  function Closed(order: seq<nat>, p: nat): seq<nat>
  {
    LoweredAll(Without(order, p), p)
  }

  function LoweredAll(order: seq<nat>, p: nat): (r: seq<nat>)
    ensures |r| == |order|
    ensures forall i {:trigger r[i]} :: 0 <= i < |order| ==> r[i] == Lowered(order[i], p)
  {
    seq(|order|, i requires 0 <= i < |order| => Lowered(order[i], p))
  }

  /** An unsigned 32-bit 0 - 1. */
  const ALL_ONES: nat := 0xFFFF_FFFF

  /** The cursor after a press of Previous: the step back from index 0 goes through an unsigned modulus. */
  function PreviousIndex(i: nat, n: nat): nat
    requires n > 0
  {
    if i == 0 then ALL_ONES % n else (i - 1) % n
  }

  // ----- The state and its steps -----

  datatype Tabs = Tabs(order: seq<nat>, cursor: int, pages: nat, selection: int, mru: bool)

  ghost predicate Inv(t: Tabs)
  {
    && IsPermutation(t.order, t.pages)
    && NONE <= t.cursor && NONE <= t.selection < t.pages
  }

  /** SetMostRecentlyUsedPage. */
  function Used(t: Tabs, page: int): Tabs
    requires NONE <= page
  {
    if t.cursor == NONE && page != NONE then t.(order := Promoted(t.order, page)) else t
  }

  /** The notebook selects a page and, if that is a change, sends OnNotebookPageChanged. */
  function Selected(t: Tabs, page: int): Tabs
    requires NONE <= page
  {
    if page == t.selection then t else Used(t.(selection := page), page)
  }

  /** OnWindowNextDocument and OnWindowPreviousDocument. */
  function Paged(t: Tabs, forward: bool): Tabs
    requires Inv(t)
  {
    if t.selection == NONE || t.pages == 0 then t
    else if t.mru && |t.order| > 0 then
      var i := if t.cursor == NONE then 0 else t.cursor;
      var c := if forward then (i + 1) % |t.order| else PreviousIndex(i, |t.order|);
      Selected(t.(cursor := c), t.order[c])
    else Selected(t, (t.selection + if forward then 1 else t.pages - 1) % t.pages)
  }

  /** OnIdle: with Ctrl released, paging ends and the page it stopped at becomes the most recent. */
  function Idled(t: Tabs, ctrlDown: bool): Tabs
    requires NONE <= t.selection
  {
    if t.cursor != NONE && !ctrlDown then Used(t.(cursor := NONE), t.selection) else t
  }

  /** OpenProjectFile for a file that is not open: paging is cancelled and a new last page added and selected. */
  function Opened(t: Tabs): Tabs
  {
    Used(t.(cursor := NONE, selection := t.pages, pages := t.pages + 1), t.pages)
  }

  /** OpenProjectFile for a file that is not open and cannot be: paging is cancelled all the same. */
  function NotOpened(t: Tabs): Tabs
  {
    t.(cursor := NONE)
  }

  /** OpenProjectFile for a file that is open on page p. */
  function Reopened(t: Tabs, p: nat): Tabs
  {
    Selected(t.(cursor := NONE), p)
  }

  /** Page p is closed; the notebook then selects some other page, or none, with or without telling. */
  function PageClosed(t: Tabs, p: nat, next: int, tells: bool): Tabs
    requires t.pages > 0 && NONE <= next
  {
    var t' := t.(order := Closed(t.order, p), pages := t.pages - 1, selection := next);
    if tells then Used(t', next) else t'
  }

  /**
   DeleteProjectFile: the notebook's page goes first. The handler of the event looks the new selection up among the open
   files, which still hold the deleted one, so it finds the page's old number. The order hears of the deletion last.
   */
  function PageDeleted(t: Tabs, p: nat, next: int, tells: bool): Tabs
    requires t.pages > 0 && NONE <= next
  {
    var t' := t.(pages := t.pages - 1, selection := next);
    var told := if tells && next != NONE then Used(t', Raised(next, p)) else t';
    told.(order := Closed(told.order, p))
  }

  datatype Step =
    | Open
    | OpenMissing
    | Reopen(page: nat)
    | Select(target: int)
    | Page(forward: bool)
    | Idle(ctrlDown: bool)
    | Close(page: nat, next: int, tells: bool)
    | Delete(page: nat, next: int, tells: bool)

  predicate Enabled(t: Tabs, step: Step)
  {
    match step
    case Reopen(p) => p < t.pages
    case Select(p) => NONE <= p < t.pages
    case Close(p, next, _) => p < t.pages && NONE <= next < t.pages - 1
    case Delete(p, next, _) => p < t.pages && NONE <= next < t.pages - 1
    case _ => true
  }

  function Next(t: Tabs, step: Step): Tabs
    requires Inv(t) && Enabled(t, step)
  {
    match step
    case Open => Opened(t)
    case OpenMissing => NotOpened(t)
    case Reopen(p) => Reopened(t, p)
    case Select(p) => Selected(t, p)
    case Page(forward) => Paged(t, forward)
    case Idle(ctrlDown) => Idled(t, ctrlDown)
    case Close(p, next, tells) => PageClosed(t, p, next, tells)
    case Delete(p, next, tells) => PageDeleted(t, p, next, tells)
  }

  // ----- The code, changing the vector in place -----

  class TabSwitcher {
    var tabOrder: seq<nat>
    var tabOrderIndex: int
    var pageCount: nat
    var selection: int
    var mruSwitching: bool

    constructor (mruSwitching: bool)
      ensures View() == Tabs([], NONE, 0, NONE, mruSwitching) && Inv(View())
    {
      tabOrder, tabOrderIndex, pageCount, selection := [], NONE, 0, NONE;
      this.mruSwitching := mruSwitching;
    }

    function View(): Tabs
      reads this
    {
      Tabs(tabOrder, tabOrderIndex, pageCount, selection, mruSwitching)
    }

    /** One pass that pushes every page one place back, up to where the page was. */
    method SetMostRecentlyUsedPage(pageIndex: int)
      requires NONE <= pageIndex
      modifies this
      ensures View() == Used(old(View()), pageIndex)
    {
      if tabOrderIndex == NONE && pageIndex != NONE {
        ghost var pushed := [pageIndex] + tabOrder;
        var nextPageIndex: int := pageIndex;
        var i := 0;
        while i < |tabOrder|
          invariant i <= |tabOrder| == |old(tabOrder)|
          invariant View() == old(View()).(order := tabOrder)
          invariant nextPageIndex == pushed[i]
          invariant forall j {:trigger old(tabOrder)[j]} :: 0 <= j < i ==> old(tabOrder)[j] != pageIndex
          invariant forall j {:trigger tabOrder[j]} :: 0 <= j < |tabOrder| ==>
                      tabOrder[j] == if j < i then pushed[j] else old(tabOrder)[j]
        {
          var tempPageIndex := tabOrder[i];
          tabOrder := tabOrder[i := nextPageIndex];
          if tempPageIndex == pageIndex {
            nextPageIndex := NONE;
            PromotedPresent(old(tabOrder), pageIndex, i, tabOrder);
            break;
          } else {
            nextPageIndex := tempPageIndex;
          }
          i := i + 1;
        }
        if nextPageIndex != NONE {
          tabOrder := tabOrder + [nextPageIndex];
          PromotedAbsent(old(tabOrder), pageIndex, tabOrder);
        }
      }
    }

    /** One pass that copies down over the closed page; at most one entry is removed. */
    method RemovePageFromTabOrder(pageIndex: nat)
      requires NoDuplicates(tabOrder)
      modifies `tabOrder
      ensures tabOrder == Closed(old(tabOrder), pageIndex)
    {
      ghost var before, k := tabOrder, PlaceOf(tabOrder, pageIndex);
      var copyFrom, copyTo := 0, 0;
      while copyTo != |tabOrder|
        invariant copyFrom <= |before| == |tabOrder|
        invariant copyTo == if copyFrom <= k then copyFrom else copyFrom - 1
        invariant forall j {:trigger tabOrder[j]} :: copyFrom <= j < |before| ==> tabOrder[j] == before[j]
        invariant forall j {:trigger tabOrder[j]} :: 0 <= j < copyTo ==>
                    tabOrder[j] == Lowered(before[if j < k then j else j + 1], pageIndex)
        decreases |before| - copyFrom, |tabOrder| - copyTo
      {
        if copyFrom == |tabOrder| {
          assert copyTo + 1 == |tabOrder|;
          tabOrder := tabOrder[..|tabOrder| - 1];
          break;
        } else if tabOrder[copyFrom] != pageIndex {
          if tabOrder[copyFrom] > pageIndex {
            tabOrder := tabOrder[copyTo := tabOrder[copyFrom] - 1];
          } else {
            tabOrder := tabOrder[copyTo := tabOrder[copyFrom]];
          }
          copyTo := copyTo + 1;
        }
        copyFrom := copyFrom + 1;
      }
      WithoutAtPlace(before, pageIndex, k);
    }

    /** The notebook's SetSelection, with the handler of the event it sends. */
    method SetSelection(page: int)
      requires NONE <= page
      modifies this
      ensures View() == Selected(old(View()), page)
    {
      if page != selection {
        selection := page;
        SetMostRecentlyUsedPage(page);
      }
    }

    method OnWindowNextDocument()
      requires Inv(View())
      modifies this
      ensures View() == Paged(old(View()), true)
    {
      if selection != NONE && pageCount > 0 {
        var pageIndex := selection;
        if mruSwitching && |tabOrder| > 0 {
          if tabOrderIndex == NONE {
            tabOrderIndex := 0;
          }
          tabOrderIndex := (tabOrderIndex + 1) % |tabOrder|;
          pageIndex := tabOrder[tabOrderIndex];
        } else {
          pageIndex := (pageIndex + 1) % pageCount;
        }
        SetSelection(pageIndex);
      }
    }

    method OnWindowPreviousDocument()
      requires Inv(View())
      modifies this
      ensures View() == Paged(old(View()), false)
    {
      if selection != NONE && pageCount > 0 {
        var pageIndex := selection;
        if mruSwitching && |tabOrder| > 0 {
          if tabOrderIndex == NONE {
            tabOrderIndex := 0;
          }
          tabOrderIndex := PreviousIndex(tabOrderIndex, |tabOrder|);
          pageIndex := tabOrder[tabOrderIndex];
        } else {
          pageIndex := (pageIndex + pageCount - 1) % pageCount;
        }
        SetSelection(pageIndex);
      }
    }

    method OnIdle(ctrlDown: bool)
      requires NONE <= selection
      modifies this
      ensures View() == Idled(old(View()), ctrlDown)
    {
      if tabOrderIndex != NONE && !ctrlDown {
        tabOrderIndex := NONE;
        SetMostRecentlyUsedPage(selection);
      }
    }

    /** OpenProjectFile; page is the one the file is open on, if it is, and available tells whether it can be opened. */
    method OpenProjectFile(page: int, available: bool) returns (shown: bool)
      requires NONE <= page
      modifies this
      ensures shown <==> page != NONE || available
      ensures View() == if page != NONE then Reopened(old(View()), page)
                        else if available then Opened(old(View())) else NotOpened(old(View()))
    {
      tabOrderIndex := NONE;
      shown := page != NONE || available;
      if page != NONE {
        SetSelection(page);
      } else if available {
        pageCount := pageCount + 1;
        selection := pageCount - 1;
        SetMostRecentlyUsedPage(selection);
      }
    }

    method ClosePage(page: nat, next: int, tells: bool)
      requires Inv(View()) && page < pageCount && NONE <= next
      modifies this
      ensures View() == PageClosed(old(View()), page, next, tells)
    {
      RemovePageFromTabOrder(page);
      pageCount := pageCount - 1;
      selection := next;
      if tells && next != NONE {
        SetMostRecentlyUsedPage(next);
      }
    }

    /** The page of a file that is deleted from the project. */
    method DeletePage(page: nat, next: int, tells: bool)
      requires Inv(View()) && page < pageCount && NONE <= next < pageCount - 1
      modifies this
      ensures View() == PageDeleted(old(View()), page, next, tells)
    {
      pageCount := pageCount - 1;
      selection := next;
      if tells && next != NONE {
        var found := if next >= page then next + 1 else next;
        PromotedKeepsPermutation(tabOrder, pageCount + 1, found);
        SetMostRecentlyUsedPage(found);
      }
      RemovePageFromTabOrder(page);
    }
  }

  // ----- The order is always a permutation -----

  lemma {:induction false} WithoutAbsent(s: seq<nat>, x: nat)
    requires x !in s
    ensures Without(s, x) == s
  {
    if s != [] {
      WithoutAbsent(s[1..], x);
    }
  }

  /** Everything before k was pushed one place back, over the page that was there. */
  lemma PromotedPresent(before: seq<nat>, p: nat, k: nat, after: seq<nat>)
    requires k < |before| == |after| && before[k] == p
    requires forall j {:trigger before[j]} :: 0 <= j < k ==> before[j] != p
    requires forall j {:trigger after[j]} :: 0 <= j < |after| ==>
               after[j] == if j <= k then ([p] + before)[j] else before[j]
    ensures after == Promoted(before, p)
  {
    assert p !in before[..k];
    EraseFirst(before, p, k);
  }

  lemma PromotedAbsent(before: seq<nat>, p: nat, after: seq<nat>)
    requires forall j {:trigger before[j]} :: 0 <= j < |before| ==> before[j] != p
    requires |after| == |before| + 1
    requires forall j {:trigger after[j]} :: 0 <= j < |after| ==> after[j] == ([p] + before)[j]
    ensures after == Promoted(before, p)
  {
    WithoutAbsent(before, p);
  }

  /** Where x is in s, or |s|. */
  ghost function PlaceOf(s: seq<nat>, x: nat): (k: nat)
    requires NoDuplicates(s)
    ensures k <= |s|
    ensures forall i {:trigger s[i]} :: 0 <= i < |s| ==> (s[i] == x <==> i == k)
  {
    NoDuplicatesMeans(s);
    if x in s then
      var k: nat :| k < |s| && s[k] == x;
      k
    else |s|
  }

  lemma WithoutAtPlace(s: seq<nat>, x: nat, k: nat)
    requires k <= |s|
    requires forall i {:trigger s[i]} :: 0 <= i < |s| ==> (s[i] == x <==> i == k)
    ensures |Without(s, x)| == if k < |s| then |s| - 1 else |s|
    ensures forall j {:trigger Without(s, x)[j]} :: 0 <= j < |Without(s, x)| ==>
              Without(s, x)[j] == s[if j < k then j else j + 1]
  {
    if k < |s| {
      assert x !in s[..k];
      EraseFirst(s, x, k);
    } else {
      WithoutAbsent(s, x);
    }
  }

  lemma {:induction false} LoweredKeepsDistinct(s: seq<nat>, p: nat)
    requires NoDuplicates(s) && p !in s
    ensures NoDuplicates(LoweredAll(s, p))
  {
    NoDuplicatesMeans(s);
    NoDuplicatesMeans(LoweredAll(s, p));
    assert forall i :: 0 <= i < |s| ==> s[i] != p;
  }

  /** n distinct numbers below n are all of them. */
  lemma {:induction false} PermutationHasAll(order: seq<nat>, n: nat, p: nat)
    requires IsPermutation(order, n) && p < n
    ensures p in order
  {
    if p !in order {
      var lowered := LoweredAll(order, p);
      LoweredKeepsDistinct(order, p);
      forall q | q in lowered
        ensures q < n - 1
      {
        var i :| 0 <= i < |order| && lowered[i] == q;
        assert order[i] in order;
      }
      AtMost(lowered, n - 1);
    }
  }

  /** There are at most n distinct numbers below n. */
  lemma {:induction false} AtMost(s: seq<nat>, n: nat)
    requires NoDuplicates(s)
    requires forall q :: q in s ==> q < n
    ensures |s| <= n
    decreases n
  {
    assert s == [] || s[0] in s;
    if n > 0 {
      WithoutMembers(s, n - 1);
      WithoutLength(s, n - 1);
      AtMost(Without(s, n - 1), n - 1);
    }
  }

  lemma {:induction false} PromotedKeepsPermutation(order: seq<nat>, n: nat, p: nat)
    requires IsPermutation(order, n) && p < n
    ensures IsPermutation(Promoted(order, p), n)
  {
    PermutationHasAll(order, n, p);
    WithoutMembers(order, p);
    WithoutLength(order, p);
    assert Promoted(order, p)[1..] == Without(order, p);
  }

  lemma {:induction false} NewPageExtends(order: seq<nat>, n: nat)
    requires IsPermutation(order, n)
    ensures IsPermutation(Promoted(order, n), n + 1)
  {
    WithoutAbsent(order, n);
    assert Promoted(order, n)[1..] == order;
  }

  lemma {:induction false} ClosedKeepsPermutation(order: seq<nat>, n: nat, p: nat)
    requires IsPermutation(order, n) && p < n
    ensures IsPermutation(Closed(order, p), n - 1)
  {
    PermutationHasAll(order, n, p);
    WithoutMembers(order, p);
    WithoutLength(order, p);
    LoweredKeepsDistinct(Without(order, p), p);
    forall q | q in Closed(order, p)
      ensures q < n - 1
    {
      var i :| 0 <= i < |Closed(order, p)| && Closed(order, p)[i] == q;
      assert Without(order, p)[i] in Without(order, p);
    }
  }

  lemma {:induction false} UsedKeepsInv(t: Tabs, page: int)
    requires Inv(t) && NONE <= page < t.pages
    ensures Inv(Used(t, page))
  {
    if page != NONE {
      PromotedKeepsPermutation(t.order, t.pages, page);
    }
  }

  /** Every open, selection, press, release, close and deletion keeps the order a permutation of the pages. */
  lemma {:induction false} StepKeepsInv(t: Tabs, step: Step)
    requires Inv(t) && Enabled(t, step)
    ensures Inv(Next(t, step))
  {
    match step
    case Open =>
      NewPageExtends(t.order, t.pages);
    case OpenMissing =>
    case Reopen(p) =>
      UsedKeepsInv(t.(cursor := NONE, selection := p), p);
    case Select(p) =>
      UsedKeepsInv(t.(selection := p), p);
    case Page(forward) =>
      PagedKeepsInv(t, forward);
    case Idle(_) =>
      UsedKeepsInv(t.(cursor := NONE), t.selection);
    case Close(p, next, _) =>
      ClosedKeepsPermutation(t.order, t.pages, p);
      UsedKeepsInv(t.(order := Closed(t.order, p), pages := t.pages - 1, selection := next), next);
    case Delete(p, next, _) =>
      if next != NONE {
        PromotedKeepsPermutation(t.order, t.pages, Raised(next, p));
        ClosedKeepsPermutation(Promoted(t.order, Raised(next, p)), t.pages, p);
      }
      ClosedKeepsPermutation(t.order, t.pages, p);
  }

  lemma {:induction false} PagedKeepsInv(t: Tabs, forward: bool)
    requires Inv(t)
    ensures Inv(Paged(t, forward))
  {
    if t.selection != NONE && t.pages > 0 {
      if t.mru && |t.order| > 0 {
        var i := if t.cursor == NONE then 0 else t.cursor;
        var c := if forward then (i + 1) % |t.order| else PreviousIndex(i, |t.order|);
        assert t.order[c] in t.order;
        UsedKeepsInv(t.(cursor := c, selection := t.order[c]), t.order[c]);
      } else {
        var p := (t.selection + if forward then 1 else t.pages - 1) % t.pages;
        UsedKeepsInv(t.(selection := p), p);
      }
    }
  }

  ghost predicate AllEnabled(t: Tabs, steps: seq<Step>)
    requires Inv(t)
    decreases |steps|
  {
    steps != [] ==>
      Enabled(t, steps[0]) && (StepKeepsInv(t, steps[0]); AllEnabled(Next(t, steps[0]), steps[1..]))
  }

  ghost function After(t: Tabs, steps: seq<Step>): Tabs
    requires Inv(t) && AllEnabled(t, steps)
    decreases |steps|
  {
    if steps == [] then t
    else
      StepKeepsInv(t, steps[0]);
      After(Next(t, steps[0]), steps[1..])
  }

  /** From an empty editor, over every run: the order lists each open page exactly once. */
  lemma {:induction false} RunsKeepPermutation(t: Tabs, steps: seq<Step>, page: nat)
    requires Inv(t) && AllEnabled(t, steps)
    ensures IsPermutation(After(t, steps).order, After(t, steps).pages)
    ensures page < After(t, steps).pages <==> page in After(t, steps).order
    decreases |steps|
  {
    if steps == [] {
      if page < t.pages {
        PermutationHasAll(t.order, t.pages, page);
      }
    } else {
      StepKeepsInv(t, steps[0]);
      RunsKeepPermutation(Next(t, steps[0]), steps[1..], page);
    }
  }

  // ----- The selected page is the most recent one -----

  predicate IsFirst(order: seq<nat>, p: int)
  {
    order != [] && order[0] == p
  }

  /** While nobody pages, the selected page is in front. */
  predicate FrontIsSelected(t: Tabs)
  {
    t.cursor == NONE && t.selection != NONE ==> IsFirst(t.order, t.selection)
  }

  /** When a page goes and another one is left, the notebook selects some page anew and tells of it in any case. */
  predicate IsFaithful(t: Tabs, next: int, tells: bool)
  {
    t.pages > 1 ==> next != NONE && tells
  }

  predicate Faithful(t: Tabs, step: Step)
  {
    match step
    case Close(_, next, tells) => IsFaithful(t, next, tells)
    case Delete(_, next, tells) => IsFaithful(t, next, tells)
    case _ => true
  }

  /**
   The steps that keep the selected page in front. Opening the file one has just paged to, or one that cannot be
   opened, ends the paging, but the selection does not change, so nothing makes the page the most recent.
   */
  predicate KeepsFront(t: Tabs, step: Step)
  {
    match step
    case Reopen(p) => t.cursor != NONE && p == t.selection ==> IsFirst(t.order, p)
    case OpenMissing => t.cursor != NONE && t.selection != NONE ==> IsFirst(t.order, t.selection)
    case _ => true
  }

  /** Whatever page the notebook selects when one is closed is in front of the order that is left. */
  lemma {:induction false} CloseKeepsFront(t: Tabs, p: nat, next: int, tells: bool)
    requires Inv(t) && Enabled(t, Close(p, next, tells)) && IsFaithful(t, next, tells)
    ensures FrontIsSelected(PageClosed(t, p, next, tells))
  {
  }

  lemma {:induction false} WithoutCommutes(s: seq<nat>, x: nat, y: nat)
    ensures Without(Without(s, x), y) == Without(Without(s, y), x)
  {
    if s != [] && s[0] != x && s[0] != y {
      WithoutCommutes(s[1..], x, y);
      assert ([s[0]] + Without(s[1..], x))[1..] == Without(s[1..], x);
      assert ([s[0]] + Without(s[1..], y))[1..] == Without(s[1..], y);
    } else if s != [] && s[0] != x {
      assert ([s[0]] + Without(s[1..], x))[1..] == Without(s[1..], x);
    } else if s != [] && s[0] != y {
      assert ([s[0]] + Without(s[1..], y))[1..] == Without(s[1..], y);
    }
  }

  /** Taking a page out of the renumbered order, or the page that gets its number out of the order before. */
  lemma {:induction false} LoweredWithout(s: seq<nat>, p: nat, q: nat)
    requires p !in s
    ensures Without(LoweredAll(s, p), q) == LoweredAll(Without(s, Raised(q, p)), p)
  {
    if s != [] {
      assert LoweredAll(s, p)[1..] == LoweredAll(s[1..], p);
      assert s[0] in s;
      LoweredWithout(s[1..], p, q);
    }
  }

  lemma {:induction false} PromotedClosed(order: seq<nat>, p: nat, q: nat)
    requires NoDuplicates(order)
    ensures Closed(Promoted(order, Raised(q, p)), p) == Promoted(Closed(order, p), q)
  {
    var o := Raised(q, p);
    WithoutMembers(order, p);
    WithoutCommutes(order, o, p);
    LoweredWithout(Without(order, p), p, q);
    assert Promoted(order, o)[1..] == Without(order, o);
    assert Without(Promoted(order, o), p) == [o] + Without(Without(order, o), p);
  }

  /** Deleting a file leaves the tabs as closing its page does, though the order is told of it the other way round. */
  lemma {:induction false} DeletingIsClosing(t: Tabs, p: nat, next: int, tells: bool)
    requires Inv(t) && t.pages > 0 && NONE <= next
    ensures PageDeleted(t, p, next, tells) == PageClosed(t, p, next, tells)
  {
    if next != NONE {
      PromotedClosed(t.order, p, next);
    }
  }

  /** So the page selected then is in front as well. */
  lemma {:induction false} DeleteKeepsFront(t: Tabs, p: nat, next: int, tells: bool)
    requires Inv(t) && Enabled(t, Delete(p, next, tells)) && IsFaithful(t, next, tells)
    ensures FrontIsSelected(PageDeleted(t, p, next, tells))
  {
    DeletingIsClosing(t, p, next, tells);
    CloseKeepsFront(t, p, next, tells);
  }

  /** Exactly when a step leaves the selected page the most recent one. */
  lemma {:induction false} StepKeepsFrontIff(t: Tabs, step: Step)
    requires Inv(t) && FrontIsSelected(t) && Enabled(t, step) && Faithful(t, step)
    ensures FrontIsSelected(Next(t, step)) <==> KeepsFront(t, step)
  {
    match step
    case Delete(p, next, tells) => DeleteKeepsFront(t, p, next, tells);
    case _ =>
  }

  /** Of two pages, paging to the second and opening its file leaves the first in front. */
  lemma {:induction false} ReopenCanLeaveFront()
    ensures var t := Tabs([0, 1], 1, 2, 1, true);
            Inv(t) && FrontIsSelected(t) && Enabled(t, Reopen(1)) && !FrontIsSelected(Next(t, Reopen(1)))
  {
    NoDuplicatesMeans([0, 1]);
  }

  ghost predicate AllKeepFront(t: Tabs, steps: seq<Step>)
    requires Inv(t) && AllEnabled(t, steps)
    decreases |steps|
  {
    steps != [] ==>
      && Faithful(t, steps[0]) && KeepsFront(t, steps[0])
      && (StepKeepsInv(t, steps[0]); AllKeepFront(Next(t, steps[0]), steps[1..]))
  }

  /** Over every run of such steps, whenever nobody pages the selected page is the most recent one. */
  lemma {:induction false} RunsKeepFront(t: Tabs, steps: seq<Step>)
    requires Inv(t) && FrontIsSelected(t) && AllEnabled(t, steps) && AllKeepFront(t, steps)
    ensures FrontIsSelected(After(t, steps))
    decreases |steps|
  {
    if steps != [] {
      StepKeepsInv(t, steps[0]);
      StepKeepsFrontIff(t, steps[0]);
      RunsKeepFront(Next(t, steps[0]), steps[1..]);
    }
  }

  // ----- Cycling through the order -----

  /** Paging has not begun, and there is something to page through. */
  predicate AtRest(t: Tabs)
  {
    t.cursor == NONE && t.mru && t.pages > 0 && t.selection != NONE
  }

  /** k presses of Next. */
  function Pressed(t: Tabs, k: nat): (r: Tabs)
    requires Inv(t)
    ensures Inv(r)
  {
    if k == 0 then t
    else
      PagedKeepsInv(Pressed(t, k - 1), true);
      Paged(Pressed(t, k - 1), true)
  }

  /** One press moves the cursor one place around the order and selects the page there. */
  lemma PressOnce(t: Tabs)
    requires Inv(t) && t.mru && t.pages > 0 && t.selection != NONE && t.cursor < |t.order|
    ensures var i := if t.cursor == NONE then 0 else t.cursor;
            var c := if i + 1 == |t.order| then 0 else i + 1;
            Paged(t, true) == t.(cursor := c, selection := t.order[c])
  {
    OneAround(if t.cursor == NONE then 0 else t.cursor, |t.order|);
  }

  /** k presses leave the order alone and select its (k mod n)-th page. */
  lemma {:induction false} PressesSelect(t: Tabs, k: nat)
    requires Inv(t) && AtRest(t) && k > 0
    ensures Pressed(t, k) == t.(cursor := k % |t.order|, selection := t.order[k % |t.order|])
  {
    if k > 1 {
      PressesSelect(t, k - 1);
    }
    PressOnce(Pressed(t, k - 1));
    NextModulus(k - 1, |t.order|);
  }

  lemma OneAround(r: nat, n: nat)
    requires r < n
    ensures (r + 1) % n == if r == n - 1 then 0 else r + 1
  {
  }

  lemma ProductBound(d: int, n: nat)
    ensures d >= 1 ==> d * n >= n
    ensures d <= -1 ==> d * n + n <= 0
  {
  }

  lemma RemainderIsUnique(n: nat, q: int, r: nat, q': int, r': nat)
    requires r < n && r' < n && q * n + r == q' * n + r'
    ensures r == r'
  {
    assert (q - q') * n == r' - r;
    ProductBound(q - q', n);
  }

  /** One step further around a cycle of n. */
  lemma NextModulus(k: nat, n: nat)
    requires n > 0
    ensures (k + 1) % n == if k % n == n - 1 then 0 else k % n + 1
  {
    var q, r := k / n, k % n;
    assert k == q * n + r && k + 1 == ((k + 1) / n) * n + (k + 1) % n;
    if r == n - 1 {
      assert k + 1 == (q + 1) * n + 0;
      RemainderIsUnique(n, q + 1, 0, (k + 1) / n, (k + 1) % n);
    } else {
      RemainderIsUnique(n, q, r + 1, (k + 1) / n, (k + 1) % n);
    }
  }

  /** While Ctrl is held paging goes on. Letting go of it moves exactly the page the presses stopped at to the front. */
  lemma {:induction false} CycleAndRelease(t: Tabs, k: nat)
    requires Inv(t) && AtRest(t) && k > 0
    ensures var p := t.order[k % |t.order|];
            Idled(Pressed(t, k), false) == t.(order := Promoted(t.order, p), selection := p)
    ensures Idled(Pressed(t, k), true) == Pressed(t, k)
  {
    PressesSelect(t, k);
  }

  /** One switch with a release exchanges the two most recent pages. */
  lemma {:induction false} SwitchExchanges(t: Tabs)
    requires Inv(t) && AtRest(t) && |t.order| >= 2
    ensures Idled(Pressed(t, 1), false) ==
            t.(order := [t.order[1], t.order[0]] + t.order[2..], selection := t.order[1])
  {
    CycleAndRelease(t, 1);
    OneAround(0, |t.order|);
    SecondPromoted(t.order);
  }

  /** So a second one returns to the order and the page one started with. */
  lemma {:induction false} TwoSwitchesReturn(t: Tabs, u: Tabs)
    requires Inv(t) && AtRest(t) && |t.order| >= 2 && t.selection == t.order[0]
    requires Inv(u) && u == Idled(Pressed(t, 1), false)
    ensures Idled(Pressed(u, 1), false) == t
  {
    SwitchExchanges(t);
    SwitchExchanges(u);
    assert [t.order[0], t.order[1]] + t.order[2..] == t.order;
  }

  lemma {:induction false} SecondPromoted(order: seq<nat>)
    requires NoDuplicates(order) && |order| >= 2
    ensures Promoted(order, order[1]) == [order[1], order[0]] + order[2..]
  {
    NoDuplicatesMeans(order);
    EraseFirst(order, order[1], 1);
    assert order[..1] == [order[0]];
  }

  /** Previous from the front of the order reaches its last page exactly when the page count divides 2^32. */
  lemma {:induction false} PreviousWrapsIff(n: nat)
    requires n > 0
    ensures PreviousIndex(0, n) == n - 1 <==> (ALL_ONES + 1) % n == 0
  {
    NextModulus(ALL_ONES, n);
  }

  /** The place after i on a cycle of n. */
  function NextIndex(i: nat, n: nat): nat
    requires i < n
  {
    if i + 1 < n then i + 1 else 0
  }

  /** Previous undoes Next at every place but the last, and there when the page count divides 2^32. */
  lemma {:induction false} PreviousUndoesNext(i: nat, n: nat)
    requires i < n
    ensures PreviousIndex(NextIndex(i, n), n) == i <==> i + 1 < n || (ALL_ONES + 1) % n == 0
  {
    if i + 1 == n {
      PreviousWrapsIff(n);
    }
  }

  /** With three pages, Previous after Next at the last place stays at the first. */
  lemma {:induction false} PreviousCanStay()
    ensures PreviousIndex(NextIndex(2, 3), 3) == 0
  {
  }

  // ----- What each step does to the order and the selection -----

  /** p, which was at place k, is in front now, and all others are in their order. */
  predicate IsPromoted(order: seq<nat>, order': seq<nat>, p: nat, k: nat)
  {
    k < |order| && order[k] == p && order' == [p] + order[..k] + order[k + 1..]
  }

  /** p, which was at place k, is gone, and all others are in their order, with the numbers above p lowered by one. */
  predicate IsClosed(order: seq<nat>, order': seq<nat>, p: nat, k: nat)
  {
    && k < |order| == |order'| + 1 && order[k] == p
    && forall j {:trigger order'[j]} :: 0 <= j < |order'| ==>
         var q := order[if j < k then j else j + 1]; order'[j] == if q > p then q - 1 else q
  }

  lemma {:induction false} PromotedIs(order: seq<nat>, n: nat, p: nat) returns (k: nat)
    requires IsPermutation(order, n) && p < n
    ensures IsPromoted(order, Promoted(order, p), p, k)
  {
    PermutationHasAll(order, n, p);
    k := PlaceOf(order, p);
    EraseFirst(order, p, k);
    assert [p] + (order[..k] + order[k + 1..]) == [p] + order[..k] + order[k + 1..];
  }

  lemma {:induction false} ClosedIs(order: seq<nat>, n: nat, p: nat) returns (k: nat)
    requires IsPermutation(order, n) && p < n
    ensures IsClosed(order, Closed(order, p), p, k)
  {
    PermutationHasAll(order, n, p);
    k := PlaceOf(order, p);
    WithoutAtPlace(order, p, k);
  }

  /** A new file gets the last number, is selected and comes first, before the others in their order. */
  lemma {:induction false} OpeningAddsInFront(t: Tabs)
    requires Inv(t)
    ensures Next(t, Open) ==
            t.(order := [t.pages] + t.order, cursor := NONE, pages := t.pages + 1, selection := t.pages)
  {
    assert t.pages !in t.order;
    WithoutAbsent(t.order, t.pages);
  }

  /** Selecting another page, or opening its file, shows it and, while nobody pages, puts it in front of the others. */
  lemma {:induction false} SelectingPromotes(t: Tabs, p: nat) returns (k: nat)
    requires Inv(t) && p < t.pages && p != t.selection
    ensures Next(t, Select(p)) == t.(selection := p, order := Next(t, Select(p)).order)
    ensures if t.cursor == NONE then IsPromoted(t.order, Next(t, Select(p)).order, p, k)
            else Next(t, Select(p)).order == t.order
    ensures Next(t, Reopen(p)) == t.(selection := p, cursor := NONE, order := Next(t, Reopen(p)).order)
    ensures IsPromoted(t.order, Next(t, Reopen(p)).order, p, k)
  {
    k := PromotedIs(t.order, t.pages, p);
  }

  /** The closed page is taken out, and the one selected then comes first if nobody pages. */
  lemma {:induction false} ClosingTakesOut(t: Tabs, p: nat, next: int, tells: bool)
    returns (rest: seq<nat>, k: nat, i: nat)
    requires Inv(t) && Enabled(t, Close(p, next, tells))
    ensures IsClosed(t.order, rest, p, k)
    ensures var t' := Next(t, Close(p, next, tells));
            && t' == t.(order := t'.order, pages := t.pages - 1, selection := next)
            && if tells && next != NONE && t.cursor == NONE then IsPromoted(rest, t'.order, next, i)
               else t'.order == rest
  {
    k := ClosedIs(t.order, t.pages, p);
    i := 0;
    rest := Closed(t.order, p);
    ClosedKeepsPermutation(t.order, t.pages, p);
    if next != NONE {
      i := PromotedIs(rest, t.pages - 1, next);
    }
  }

  // ----- Which page a press selects -----

  /** Where paging stands, or the front of the order if it is about to begin. */
  function CursorOf(t: Tabs): nat
    requires NONE <= t.cursor
  {
    if t.cursor == NONE then 0 else t.cursor
  }

  /** A press moves the cursor by one place, back from the front through the largest unsigned number, and no more. */
  lemma {:induction false} PressMovesCursor(t: Tabs, forward: bool, c: nat)
    requires Inv(t) && t.mru && t.pages > 0 && t.selection != NONE && CursorOf(t) < t.pages
    requires c == if forward then (if CursorOf(t) + 1 < t.pages then CursorOf(t) + 1 else 0)
                  else if CursorOf(t) > 0 then CursorOf(t) - 1 else 0xFFFF_FFFF % t.pages
    ensures c < |t.order| && Paged(t, forward) == t.(cursor := c, selection := t.order[c])
  {
    OneAround(CursorOf(t), |t.order|);
    PreviousIs(CursorOf(t), |t.order|);
    PagedTo(t, forward, c);
  }

  lemma PreviousIs(i: nat, n: nat)
    requires i < n
    ensures PreviousIndex(i, n) == (if i > 0 then i - 1 else 0xFFFF_FFFF % n) < n
  {
  }

  lemma {:induction false} PagedTo(t: Tabs, forward: bool, c: nat)
    requires Inv(t) && t.mru && t.pages > 0 && t.selection != NONE && c < |t.order|
    requires c == if forward then (CursorOf(t) + 1) % |t.order| else PreviousIndex(CursorOf(t), |t.order|)
    ensures Paged(t, forward) == t.(cursor := c, selection := t.order[c])
  {
  }

  /** So Previous after Next goes back to where one was, but for the wrap, and there if the page count divides 2^32. */
  lemma {:induction false} PreviousTakesBackNext(t: Tabs)
    requires Inv(t) && t.mru && t.pages > 0 && t.selection != NONE && CursorOf(t) < t.pages
    ensures Inv(Paged(t, true))
    ensures var i := CursorOf(t);
            Paged(Paged(t, true), false) == t.(cursor := i, selection := t.order[i]) <==>
            i + 1 < t.pages || (ALL_ONES + 1) % t.pages == 0
  {
    var i, n := CursorOf(t), t.pages;
    var c := if i + 1 < n then i + 1 else 0;
    PagedKeepsInv(t, true);
    PressMovesCursor(t, true, c);
    PressMovesCursor(Paged(t, true), false, if c > 0 then c - 1 else 0xFFFF_FFFF % n);
    PreviousWrapsIff(n);
  }

  /** Without that order a press selects the next page or the one before, around the notebook, and puts it in front. */
  lemma {:induction false} PressSelectsNeighbour(t: Tabs, forward: bool, p: nat)
    requires Inv(t) && !t.mru && t.cursor == NONE && t.pages > 0 && t.selection != NONE
    requires p == if forward then (if t.selection + 1 < t.pages then t.selection + 1 else 0)
                  else if t.selection > 0 then t.selection - 1 else t.pages - 1
    ensures Paged(t, forward) ==
            if t.pages == 1 then t else t.(selection := p, order := [p] + Without(t.order, p))
  {
    OneAround(t.selection, t.pages);
    OneBack(t.selection, t.pages);
  }

  lemma OneBack(r: nat, n: nat)
    requires r < n
    ensures (r + (n - 1)) % n == if r > 0 then r - 1 else n - 1
  {
    var x := r + (n - 1);
    if r > 0 {
      assert x == (x / n) * n + x % n && x == 1 * n + (r - 1);
      RemainderIsUnique(n, 1, r - 1, x / n, x % n);
    }
  }

  /** And Previous goes back to the page that Next was pressed on. */
  lemma {:induction false} NeighboursReturn(t: Tabs)
    requires Inv(t) && !t.mru && t.cursor == NONE && t.pages > 0 && t.selection != NONE
    ensures Inv(Paged(t, true)) && Paged(Paged(t, true), false).selection == t.selection
  {
    var p := if t.selection + 1 < t.pages then t.selection + 1 else 0;
    PagedKeepsInv(t, true);
    PressSelectsNeighbour(t, true, p);
    PressSelectsNeighbour(Paged(t, true), false, if p > 0 then p - 1 else t.pages - 1);
  }
}
