/**
 A file's breakpoint list: the operations of Project on it, and how an edit in the editor shifts it
 (MainFrame::OnCodeEditModified). An edit is the event Scintilla sends: the line of its position, whether that position
 is the start of the line, and how many lines were added (negative for lines deleted).
 */
module Breakpoints {
  import opened Lists

  // ----- The operations of Project -----

  /** Project::ToggleBreakpoint and the backend's Script::ToggleBreakpoint. */
  function Toggled(s: seq<nat>, line: nat): seq<nat>
  {
    if line in s then Without(s, line) else s + [line]
  }

  /** Project::SetBreakpoint on one file. */
  function WithBreakpoint(s: seq<nat>, line: nat, set_: bool): seq<nat>
  {
    if set_ == (line in s) then s else Toggled(s, line)
  }

  /** A toggle flips one line and touches no other; two toggles of a line cancel as sets. */
  lemma {:induction false} ToggledMembers(s: seq<nat>, line: nat)
    requires NoDuplicates(s)
    ensures NoDuplicates(Toggled(s, line))
    ensures forall y :: y in Toggled(s, line) <==> (y in s) != (y == line)
  {
    WithoutMembers(s, line);
    NoDuplicatesAppend(s, line);
  }

  // ----- Edits -----

  datatype Edit = Edit(line: nat, atStart: bool, linesAdded: int) {
    /** The event that undoing this edit sends: the same position, the opposite number of lines. */
    function Inverse(): Edit
    {
      this.(linesAdded := -linesAdded)
    }
  }

  /** Where an insertion of k lines moves a breakpoint. */
  function InsertedAt(b: nat, line: nat, k: nat, atStart: bool): nat
  {
    if b > line || (atStart && b >= line) then b + k else b
  }

  function Inserted(s: seq<nat>, line: nat, k: nat, atStart: bool): (r: seq<nat>)
    ensures |r| == |s|
    ensures forall i {:trigger r[i]} :: 0 <= i < |s| ==> r[i] == InsertedAt(s[i], line, k, atStart)
  {
    seq(|s|, i requires 0 <= i < |s| => InsertedAt(s[i], line, k, atStart))
  }

  /** b lies on one of the k lines deleted at line. */
  predicate IsDeleted(b: nat, line: nat, k: nat)
  {
    line <= b < line + k
  }

  /** Where a deletion of k lines moves a breakpoint: the monotone map that sends the deleted range to line. */
  function DeletedAt(b: nat, line: nat, k: nat): nat
  {
    if b < line then b else if b < line + k then line else b - k
  }

  /** The list after a deletion; of the breakpoints on deleted lines only the first stays, unless one already has. */
  function Deleted(s: seq<nat>, line: nat, k: nat, collapsed: bool): seq<nat>
  {
    if s == [] then []
    else if !IsDeleted(s[0], line, k) then [DeletedAt(s[0], line, k)] + Deleted(s[1..], line, k, collapsed)
    else if collapsed then Deleted(s[1..], line, k, true)
    else [line] + Deleted(s[1..], line, k, true)
  }

  /** What OnCodeEditModified makes of the list. */
  function Edited(s: seq<nat>, e: Edit): seq<nat>
  {
    if e.linesAdded == 0 then s
    else if e.linesAdded > 0 then Inserted(s, e.line, e.linesAdded, e.atStart)
    else Deleted(s, e.line, -e.linesAdded, false)
  }

  // ----- What a deletion does to the list -----

  /** As a set, the result is exactly the image of the breakpoints under the monotone map. */
  lemma {:induction false} DeletedIsImage(s: seq<nat>, line: nat, k: nat, collapsed: bool, x: nat)
    ensures x in Deleted(s, line, k, collapsed) ==> exists b :: b in s && DeletedAt(b, line, k) == x
    ensures forall b :: b in s && DeletedAt(b, line, k) == x && (collapsed ==> !IsDeleted(b, line, k)) ==>
              x in Deleted(s, line, k, collapsed)
  {
    if s != [] {
      var rest := s[1..];
      DeletedIsImage(rest, line, k, collapsed || IsDeleted(s[0], line, k), x);
      assert s == [s[0]] + rest;
      if x in Deleted(rest, line, k, collapsed || IsDeleted(s[0], line, k)) {
        var b :| b in rest && DeletedAt(b, line, k) == x;
        assert b in s;
      } else if x in Deleted(s, line, k, collapsed) {
        assert s[0] in s && DeletedAt(s[0], line, k) == x;
      }
    }
  }

  /** How many breakpoints lie on deleted lines. */
  function DeletedCount(s: seq<nat>, line: nat, k: nat): nat
  {
    if s == [] then 0 else (if IsDeleted(s[0], line, k) then 1 else 0) + DeletedCount(s[1..], line, k)
  }

  /** The list shrinks by all but one of the breakpoints on deleted lines. */
  lemma {:induction false} DeletedLength(s: seq<nat>, line: nat, k: nat, collapsed: bool)
    ensures var c := DeletedCount(s, line, k);
            |Deleted(s, line, k, collapsed)| == |s| - if collapsed then c else if c > 0 then c - 1 else 0
  {
    if s != [] {
      DeletedLength(s[1..], line, k, collapsed || IsDeleted(s[0], line, k));
    }
  }

  lemma {:induction false} DeletedOccurrences(s: seq<nat>, line: nat, k: nat, collapsed: bool, x: nat)
    requires k > 0
    ensures Occurrences(Deleted(s, line, k, collapsed), x) ==
            if x < line then Occurrences(s, x)
            else Occurrences(s, x + k) + if x == line && !collapsed && DeletedCount(s, line, k) > 0 then 1 else 0
  {
    if s != [] {
      DeletedOccurrences(s[1..], line, k, collapsed || IsDeleted(s[0], line, k), x);
      var rest := Deleted(s[1..], line, k, collapsed || IsDeleted(s[0], line, k));
      if !IsDeleted(s[0], line, k) {
        OccurrencesConcat([DeletedAt(s[0], line, k)], rest, x);
      } else if !collapsed {
        OccurrencesConcat([line], rest, x);
      }
    }
  }

  /**
   A deletion keeps the list free of duplicates except in one case: a breakpoint on a deleted line collapses to line
   while the one just past the range is shifted to the same line.
   */
  lemma {:induction false} DeletionKeepsDistinctIff(s: seq<nat>, line: nat, k: nat)
    requires k > 0 && NoDuplicates(s)
    ensures NoDuplicates(Deleted(s, line, k, false)) <==> !(DeletedCount(s, line, k) > 0 && line + k in s)
  {
    var d := Deleted(s, line, k, false);
    NoDuplicatesByOccurrences(s);
    NoDuplicatesByOccurrences(d);
    forall x: nat
      ensures Occurrences(d, x) ==
              if x < line then Occurrences(s, x)
              else Occurrences(s, x + k) + if x == line && DeletedCount(s, line, k) > 0 then 1 else 0
    {
      DeletedOccurrences(s, line, k, false, x);
    }
    if DeletedCount(s, line, k) > 0 && line + k in s {
      assert Occurrences(s, line + k) > 0;
      assert Occurrences(d, line) == Occurrences(s, line + k) + 1;
    } else {
      forall x: nat
        ensures Occurrences(d, x) <= 1
      {
        assert Occurrences(s, x) <= 1 && Occurrences(s, x + k) <= 1;
      }
    }
  }

  /** Deleting one line under two adjacent breakpoints leaves the same line twice. */
  lemma DeletionCanDuplicate()
    ensures Deleted([5, 6], 5, 1, false) == [5, 5]
  {
    assert [5, 6][1..] == [6];
    assert [6][1..] == [];
  }

  // ----- Undo -----

  /**
   When the inverse event restores the list. An insertion is lossless unless it is inside a line that carries the same
   breakpoint twice. A deletion is lossless only if no information went into the collapse: undone at the start of the
   line, nothing may lie on the deleted lines; undone inside it, at most one breakpoint, on line itself, and none just
   past the range, since that one would not be moved back.
   */
  predicate Lossless(s: seq<nat>, e: Edit)
  {
    if e.linesAdded >= 0 then e.linesAdded == 0 || e.atStart || Occurrences(s, e.line) <= 1
    else if e.atStart then DeletedCount(s, e.line, -e.linesAdded) == 0
    else
      var k := -e.linesAdded;
      && DeletedCount(s, e.line, k) == Occurrences(s, e.line) <= 1
      && e.line + k !in s
  }

  lemma {:induction false} UndoInsertion(s: seq<nat>, line: nat, k: nat, atStart: bool, collapsed: bool)
    requires k > 0
    ensures var d := Deleted(Inserted(s, line, k, atStart), line, k, collapsed);
            d == s <==> atStart || Occurrences(s, line) <= (if collapsed then 0 else 1)
    ensures |Deleted(Inserted(s, line, k, atStart), line, k, collapsed)| <= |s|
  {
    if s != [] {
      var rest, moved := s[1..], Inserted(s, line, k, atStart);
      assert moved[1..] == Inserted(rest, line, k, atStart);
      var hit := IsDeleted(moved[0], line, k);
      assert hit <==> !atStart && s[0] == line;
      UndoInsertion(rest, line, k, atStart, collapsed || hit);
      assert s == [s[0]] + rest;
      if !(collapsed && hit) {
        var d := Deleted(moved[1..], line, k, collapsed || hit);
        assert Deleted(moved, line, k, collapsed) == [s[0]] + d;
        assert [s[0]] + d == s <==> d == rest by {
          assert ([s[0]] + d)[1..] == d;
        }
      }
    }
  }

  lemma {:induction false} UndoDeletion(s: seq<nat>, line: nat, k: nat, atStart: bool, collapsed: bool)
    requires k > 0
    ensures var r := Inserted(Deleted(s, line, k, collapsed), line, k, atStart);
            r == s <==>
            && (atStart || line + k !in s)
            && DeletedCount(s, line, k) == (if atStart then 0 else Occurrences(s, line)) <= (if collapsed then 0 else 1)
    ensures |Deleted(s, line, k, collapsed)| <= |s|
  {
    if s != [] {
      var rest, d := s[1..], Deleted(s, line, k, collapsed);
      var hit := IsDeleted(s[0], line, k);
      var d' := Deleted(rest, line, k, collapsed || hit);
      UndoDeletion(rest, line, k, atStart, collapsed || hit);
      OccurrencesAtMostDeleted(rest, line, k);
      assert s == [s[0]] + rest;
      if !(collapsed && hit) {
        var x := if hit then line else DeletedAt(s[0], line, k);
        assert d == [x] + d';
        assert Inserted(d, line, k, atStart) == [InsertedAt(x, line, k, atStart)] + Inserted(d', line, k, atStart);
        ConsEquals(InsertedAt(x, line, k, atStart), Inserted(d', line, k, atStart), s[0], rest);
      }
    }
  }

  lemma ConsEquals(x: nat, xs: seq<nat>, y: nat, ys: seq<nat>)
    ensures [x] + xs == [y] + ys <==> x == y && xs == ys
  {
    if [x] + xs == [y] + ys {
      assert ([x] + xs)[0] == x && ([y] + ys)[0] == y;
      assert ([x] + xs)[1..] == xs && ([y] + ys)[1..] == ys;
    }
  }

  lemma {:induction false} OccurrencesAtMostDeleted(s: seq<nat>, line: nat, k: nat)
    requires k > 0
    ensures Occurrences(s, line) <= DeletedCount(s, line, k)
  {
    if s != [] {
      OccurrencesAtMostDeleted(s[1..], line, k);
    }
  }

  /** Undoing one edit restores the list exactly when the edit was lossless for that list. */
  lemma {:induction false} UndoRestoresIff(s: seq<nat>, e: Edit)
    ensures Edited(Edited(s, e), e.Inverse()) == s <==> Lossless(s, e)
  {
    if e.linesAdded > 0 {
      UndoInsertion(s, e.line, e.linesAdded, e.atStart, false);
      EditedInsertion(s, e);
      EditedDeletion(Edited(s, e), e.Inverse(), e.linesAdded);
    } else if e.linesAdded < 0 {
      UndoDeletion(s, e.line, -e.linesAdded, e.atStart, false);
      EditedDeletion(s, e, -e.linesAdded);
      EditedInsertion(Edited(s, e), e.Inverse());
    }
  }

  lemma EditedInsertion(s: seq<nat>, e: Edit)
    requires e.linesAdded > 0
    ensures Edited(s, e) == Inserted(s, e.line, e.linesAdded, e.atStart)
  {
  }

  lemma EditedDeletion(s: seq<nat>, e: Edit, k: nat)
    requires e.linesAdded < 0 && k == -e.linesAdded
    ensures Edited(s, e) == Deleted(s, e.line, k, false)
  {
  }

  /** Deleting a line that has a breakpoint, at its start, is not undone: the breakpoint moves to the line below. */
  lemma {:induction false} UndoCanMove()
    ensures var e := Edit(5, true, -1); !Lossless([5], e) && Edited(Edited([5], e), e.Inverse()) == [6]
  {
    assert [5][1..] == [] && Deleted([5], 5, 1, false) == [5];
    assert Inserted([5], 5, 1, true) == [6];
  }

  function EditedAll(s: seq<nat>, es: seq<Edit>): seq<nat>
    decreases |es|
  {
    if es == [] then s else EditedAll(Edited(s, es[0]), es[1..])
  }

  /** The close path: undo everything, last edit first. */
  function UndoneAll(s: seq<nat>, es: seq<Edit>): seq<nat>
  {
    if es == [] then s else Edited(UndoneAll(s, es[1..]), es[0].Inverse())
  }

  /** Every edit of the run is lossless for the list it meets. */
  predicate AllLossless(s: seq<nat>, es: seq<Edit>)
    decreases |es|
  {
    es == [] || (Lossless(s, es[0]) && AllLossless(Edited(s, es[0]), es[1..]))
  }

  /**
   Over any run of lossless edits, undoing them all gives back the identical list. That every edit is lossless for the
   list it meets is also necessary when the edits are of one kind (UndoAllRestoresIff), but not in mixed runs
   (UndoCanRestoreByLuck), for which UndoAllRestoresLinesIff gives the condition.
   */
  lemma {:induction false} UndoAllRestores(s: seq<nat>, es: seq<Edit>)
    requires AllLossless(s, es)
    ensures UndoneAll(EditedAll(s, es), es) == s
    decreases |es|
  {
    if es != [] {
      UndoAllRestores(Edited(s, es[0]), es[1..]);
      UndoRestoresIff(s, es[0]);
    }
  }

  lemma {:induction false} InsertionKeepsDistinct(s: seq<nat>, line: nat, k: nat, atStart: bool)
    requires NoDuplicates(s)
    ensures NoDuplicates(Inserted(s, line, k, atStart))
  {
    if s != [] {
      var r := Inserted(s, line, k, atStart);
      assert r[1..] == Inserted(s[1..], line, k, atStart);
      InsertionKeepsDistinct(s[1..], line, k, atStart);
    }
  }

  /** On a list without duplicates every run of insertions is lossless, so undoing all of them restores it. */
  lemma {:induction false} UndoOfInsertionsRestores(s: seq<nat>, es: seq<Edit>)
    requires NoDuplicates(s)
    requires forall e :: e in es ==> e.linesAdded > 0
    ensures AllLossless(s, es)
    ensures UndoneAll(EditedAll(s, es), es) == s
    decreases |es|
  {
    if es != [] {
      assert es[0] in es;
      NoDuplicatesByOccurrences(s);
      assert Occurrences(s, es[0].line) <= 1;
      assert forall e :: e in es[1..] ==> e in es;
      InsertionKeepsDistinct(s, es[0].line, es[0].linesAdded, es[0].atStart);
      UndoOfInsertionsRestores(Edited(s, es[0]), es[1..]);
    }
    UndoAllRestores(s, es);
  }

  /** Two lines inserted inside line 5 and then one deleted at its start: a lossy edit, and yet the run is undone. */
  lemma {:induction false} UndoCanRestoreByLuck()
    ensures var es := [Edit(5, false, 2), Edit(5, true, -1)];
            !AllLossless([5], es) && UndoneAll(EditedAll([5], es), es) == [5]
  {
    var e, f := Edit(5, false, 2), Edit(5, true, -1);
    var es := [e, f];
    assert es[1..] == [f] && [f][1..] == [];
    assert [5][1..] == [] && [6][1..] == [];
    assert Edited([5], e) == [5];
    assert Deleted([5], 5, 1, false) == [5] && Edited([5], f) == [5];
    assert !Lossless([5], f);
    assert EditedAll([5], [f]) == [5] && EditedAll([5], es) == [5];
    assert Edited([5], f.Inverse()) == [6];
    assert UndoneAll([5], [f]) == [6];
    assert Deleted([6], 5, 2, false) == [5] && Edited([6], e.Inverse()) == [5];
  }

  // ----- Runs of edits of one kind: all at line starts, or all inside lines -----

  /** Where one breakpoint is after an edit, if it is not merged with another. */
  function EditedAt(b: nat, e: Edit): nat
  {
    if e.linesAdded >= 0 then InsertedAt(b, e.line, e.linesAdded, e.atStart) else DeletedAt(b, e.line, -e.linesAdded)
  }

  /** The first line below the edit, in the text before it. */
  function FirstBelow(e: Edit): nat
  {
    e.line + (if e.linesAdded < 0 then -e.linesAdded else 0) + if e.atStart then 0 else 1
  }

  /**
   The edit takes text to text': the lines above it and below it are the same. At the start of a line whole lines are
   put in or deleted; inside one, the line itself changes.
   */
  predicate IsEditOf<T(==)>(text: seq<T>, text': seq<T>, e: Edit)
  {
    && FirstBelow(e) <= |text| && |text'| == |text| + e.linesAdded
    && (forall b {:trigger text[b]} :: 0 <= b < e.line ==> b < |text'| && text'[b] == text[b])
    && forall b {:trigger text[b]} :: FirstBelow(e) <= b < |text| ==> text'[b + e.linesAdded] == text[b]
  }

  lemma {:induction false} EditedIsImage(s: seq<nat>, e: Edit, x: nat)
    ensures x in Edited(s, e) <==> exists b :: b in s && EditedAt(b, e) == x
  {
    if e.linesAdded < 0 {
      DeletedIsImage(s, e.line, -e.linesAdded, false, x);
      assert forall b :: b in s ==> EditedAt(b, e) == DeletedAt(b, e.line, -e.linesAdded);
    } else {
      var r := Inserted(s, e.line, e.linesAdded, e.atStart);
      assert r == Edited(s, e) || e.linesAdded == 0;
      forall b | b in s && EditedAt(b, e) == x
        ensures x in Edited(s, e)
      {
        var i :| 0 <= i < |s| && s[i] == b;
        assert r[i] == x;
      }
      if x in Edited(s, e) {
        var i :| 0 <= i < |s| && Edited(s, e)[i] == x;
        assert s[i] in s && EditedAt(s[i], e) == x;
      }
    }
  }

  /**
   Breakpoints go with their text: after an edit the breakpoints are on the lines with the same text as before, but for
   those on deleted lines, and on a line that was changed itself, which are on the line of the edit.
   */
  lemma {:induction false} EditedFollowsText<T>(s: seq<nat>, e: Edit, text: seq<T>, text': seq<T>, x: nat)
    requires IsEditOf(text, text', e) && forall b :: b in s ==> b < |text|
    ensures x in Edited(s, e) <==>
            exists b :: b in s && if e.line <= b < FirstBelow(e) then x == e.line
                                  else if b < e.line then x == b else x == b + e.linesAdded
    ensures forall b: nat {:trigger text[b]} :: b < e.line ==> b < |text'| && text[b] == text'[b]
    ensures forall b: nat {:trigger text[b]} :: FirstBelow(e) <= b < |text| ==>
              0 <= b + e.linesAdded < |text'| && text[b] == text'[b + e.linesAdded]
  {
    EditedIsImage(s, e, x);
    assert forall b: nat :: EditedAt(b, e) == if e.line <= b < FirstBelow(e) then e.line
                                              else if b < e.line then b else b + e.linesAdded;
  }

  /** No edit makes the list longer, and one that does not make it shorter moves each breakpoint on its own. */
  lemma {:induction false} EditedLength(s: seq<nat>, e: Edit)
    ensures |Edited(s, e)| <= |s|
    ensures |Edited(s, e)| == |s| ==> forall i {:trigger s[i]} :: 0 <= i < |s| ==> Edited(s, e)[i] == EditedAt(s[i], e)
  {
    if e.linesAdded < 0 {
      DeletedPointwise(s, e.line, -e.linesAdded, false);
    }
  }

  lemma {:induction false} DeletedPointwise(s: seq<nat>, line: nat, k: nat, collapsed: bool)
    ensures |Deleted(s, line, k, collapsed)| <= |s|
    ensures |Deleted(s, line, k, collapsed)| == |s| ==>
              forall i {:trigger s[i]} :: 0 <= i < |s| ==> Deleted(s, line, k, collapsed)[i] == DeletedAt(s[i], line, k)
  {
    if s != [] {
      var rest, collapsed' := s[1..], collapsed || IsDeleted(s[0], line, k);
      DeletedPointwise(rest, line, k, collapsed');
      assert forall i {:trigger s[i]} :: 0 < i < |s| ==> s[i] == rest[i - 1];
    }
  }

  /** x is y or lies beyond it: below, or above if up. */
  predicate Reaches(x: nat, y: nat, up: bool)
  {
    if up then x >= y else x <= y
  }

  /**
   Undoing an edit at a line start leaves a breakpoint where it was or further down; undoing one inside a line, where it
   was or further up. If the breakpoint has gone that way in between it cannot come back.
   */
  lemma {:induction false} UndoneReaches(b: nat, x: nat, e: Edit)
    requires Reaches(x, EditedAt(b, e), e.atStart)
    ensures Reaches(EditedAt(x, e.Inverse()), b, e.atStart)
    ensures x != EditedAt(b, e) ==> EditedAt(x, e.Inverse()) != b
  {
  }

  predicate AllOfKind(es: seq<Edit>, atStart: bool)
  {
    forall e :: e in es ==> e.atStart == atStart
  }

  /** What the undo loop leaves of a list: fewer breakpoints, or each where it was or beyond. */
  lemma {:induction false} UndoneAllReaches(s: seq<nat>, es: seq<Edit>, atStart: bool)
    requires AllOfKind(es, atStart)
    ensures var u := UndoneAll(EditedAll(s, es), es);
            && |u| <= |s|
            && (|u| == |s| ==> forall i {:trigger s[i]} :: 0 <= i < |s| ==> Reaches(u[i], s[i], atStart))
            && (u == s <==> AllLossless(s, es))
    decreases |es|
  {
    if es != [] {
      var e, rest, s' := es[0], es[1..], Edited(s, es[0]);
      assert e in es && forall f :: f in rest ==> f in es;
      UndoneAllReaches(s', rest, atStart);
      UndoneFirst(s, s', UndoneAll(EditedAll(s', rest), rest), e);
      UndoRestoresIff(s, e);
    }
  }

  /** The last step of the loop: u is what it has made so far of the list s' after the first edit. */
  lemma {:induction false} UndoneFirst(s: seq<nat>, s': seq<nat>, u: seq<nat>, e: Edit)
    requires s' == Edited(s, e) && |u| <= |s'|
    requires |u| == |s'| ==> forall i {:trigger s'[i]} :: 0 <= i < |s'| ==> Reaches(u[i], s'[i], e.atStart)
    ensures var v := Edited(u, e.Inverse());
            && |v| <= |s|
            && (|v| == |s| ==> forall i {:trigger s[i]} :: 0 <= i < |s| ==> Reaches(v[i], s[i], e.atStart))
            && (v == s ==> u == s')
  {
    var v := Edited(u, e.Inverse());
    EditedLength(s, e);
    EditedLength(u, e.Inverse());
    if |v| == |s| {
      forall i {:trigger s[i]} | 0 <= i < |s|
        ensures Reaches(v[i], s[i], e.atStart) && (v[i] == s[i] ==> u[i] == s'[i])
      {
        assert s'[i] == EditedAt(s[i], e) && v[i] == EditedAt(u[i], e.Inverse());
        UndoneReaches(s[i], u[i], e);
      }
    }
  }

  /**
   Over a run of edits that are all at line starts, or all inside lines: undoing it restores the list exactly then.
   */
  lemma {:induction false} UndoAllRestoresIff(s: seq<nat>, es: seq<Edit>, atStart: bool)
    requires AllOfKind(es, atStart)
    ensures UndoneAll(EditedAll(s, es), es) == s <==> AllLossless(s, es)
  {
    UndoneAllReaches(s, es, atStart);
  }

  // ----- Any run: each breakpoint by itself -----

  /** Whether an edit deletes the line b. */
  predicate Deletes(e: Edit, b: nat)
  {
    e.linesAdded < 0 && IsDeleted(b, e.line, -e.linesAdded)
  }

  /** Where the edits move the line b. */
  function LineAfter(b: nat, es: seq<Edit>): nat
    decreases |es|
  {
    if es == [] then b else LineAfter(EditedAt(b, es[0]), es[1..])
  }

  /** No edit deletes the line that b has been moved to. */
  predicate Spared(b: nat, es: seq<Edit>)
    decreases |es|
  {
    es != [] ==> !Deletes(es[0], b) && Spared(EditedAt(b, es[0]), es[1..])
  }

  /** The events of the undo loop. */
  function Undoing(es: seq<Edit>): seq<Edit>
  {
    if es == [] then [] else Undoing(es[1..]) + [es[0].Inverse()]
  }

  lemma {:induction false} EditedAllConcat(s: seq<nat>, es: seq<Edit>, fs: seq<Edit>)
    ensures EditedAll(s, es + fs) == EditedAll(EditedAll(s, es), fs)
    decreases |es|
  {
    if es == [] {
      assert es + fs == fs;
    } else {
      assert (es + fs)[1..] == es[1..] + fs;
      EditedAllConcat(Edited(s, es[0]), es[1..], fs);
    }
  }

  lemma {:induction false} UndoneAllIsRun(s: seq<nat>, es: seq<Edit>)
    ensures UndoneAll(s, es) == EditedAll(s, Undoing(es))
  {
    if es != [] {
      var last := [es[0].Inverse()];
      UndoneAllIsRun(s, es[1..]);
      EditedAllConcat(s, Undoing(es[1..]), last);
      assert last[1..] == [];
    }
  }

  /** An edit keeps the length of the list unless it deletes two of its breakpoints. */
  lemma {:induction false} EditedKeepsLengthIff(s: seq<nat>, e: Edit)
    ensures |Edited(s, e)| == |s| <==> !exists i, j :: 0 <= i < j < |s| && Deletes(e, s[i]) && Deletes(e, s[j])
  {
    if e.linesAdded < 0 {
      DeletedLength(s, e.line, -e.linesAdded, false);
      DeletesTwoIff(s, e);
    }
  }

  lemma {:induction false} DeletesOneIff(s: seq<nat>, e: Edit)
    requires e.linesAdded < 0
    ensures DeletedCount(s, e.line, -e.linesAdded) >= 1 <==> exists i :: 0 <= i < |s| && Deletes(e, s[i])
  {
    if s != [] {
      var rest := s[1..];
      DeletesOneIff(rest, e);
      assert forall i {:trigger rest[i]} :: 0 <= i < |rest| ==> rest[i] == s[i + 1];
      assert forall i {:trigger s[i]} :: 0 < i < |s| ==> s[i] == rest[i - 1];
    }
  }

  lemma {:induction false} DeletesTwoIff(s: seq<nat>, e: Edit)
    requires e.linesAdded < 0
    ensures DeletedCount(s, e.line, -e.linesAdded) >= 2 <==>
            exists i, j :: 0 <= i < j < |s| && Deletes(e, s[i]) && Deletes(e, s[j])
  {
    if s != [] {
      var rest := s[1..];
      DeletesOneIff(rest, e);
      DeletesTwoIff(rest, e);
      assert forall i {:trigger rest[i]} :: 0 <= i < |rest| ==> rest[i] == s[i + 1];
      assert forall i {:trigger s[i]} :: 0 < i < |s| ==> s[i] == rest[i - 1];
    }
  }

  /** A run that loses no breakpoint has moved each by itself. */
  lemma {:induction false} EditedAllPointwise(s: seq<nat>, es: seq<Edit>)
    ensures |EditedAll(s, es)| <= |s|
    ensures |EditedAll(s, es)| == |s| ==>
              forall i {:trigger s[i]} :: 0 <= i < |s| ==> EditedAll(s, es)[i] == LineAfter(s[i], es)
    decreases |es|
  {
    if es != [] {
      var s' := Edited(s, es[0]);
      EditedLength(s, es[0]);
      EditedAllPointwise(s', es[1..]);
      if |EditedAll(s, es)| == |s| {
        assert forall i {:trigger s[i]} :: 0 <= i < |s| ==> s'[i] == EditedAt(s[i], es[0]);
      }
    }
  }

  /** Breakpoints that end on one line were on one line all along, and that was never deleted. */
  predicate StayApart(s: seq<nat>, es: seq<Edit>)
  {
    forall i, j :: 0 <= i < j < |s| ==>
      LineAfter(s[i], es) != LineAfter(s[j], es) || (s[i] == s[j] && Spared(s[i], es))
  }

  lemma {:induction false} ApartKeepsLength(s: seq<nat>, es: seq<Edit>)
    requires StayApart(s, es)
    ensures |EditedAll(s, es)| == |s|
    decreases |es|
  {
    if es != [] {
      var e, s' := es[0], Edited(s, es[0]);
      forall i, j | 0 <= i < j < |s|
        ensures !(Deletes(e, s[i]) && Deletes(e, s[j]))
      {
        assert Deletes(e, s[i]) && Deletes(e, s[j]) ==> EditedAt(s[i], e) == EditedAt(s[j], e);
      }
      EditedKeepsLengthIff(s, e);
      EditedLength(s, e);
      assert StayApart(s', es[1..]) by {
        forall i, j | 0 <= i < j < |s'|
          ensures LineAfter(s'[i], es[1..]) != LineAfter(s'[j], es[1..]) || (s'[i] == s'[j] && Spared(s'[i], es[1..]))
        {
          assert s'[i] == EditedAt(s[i], e) && s'[j] == EditedAt(s[j], e);
        }
      }
      ApartKeepsLength(s', es[1..]);
    }
  }

  lemma {:induction false} RepeatedIsSpared(s: seq<nat>, es: seq<Edit>, i: nat, j: nat)
    requires i < j < |s| && s[i] == s[j] && |EditedAll(s, es)| == |s|
    ensures Spared(s[i], es)
    decreases |es|
  {
    if es != [] {
      var s' := Edited(s, es[0]);
      EditedLength(s, es[0]);
      EditedKeepsLengthIff(s, es[0]);
      EditedAllPointwise(s', es[1..]);
      RepeatedIsSpared(s', es[1..], i, j);
    }
  }

  /** A run of edits leads back to the list exactly when each breakpoint's line comes back, and none is lost. */
  lemma {:induction false} RunReturnsIff(s: seq<nat>, es: seq<Edit>)
    ensures EditedAll(s, es) == s <==>
            && (forall b :: b in s ==> LineAfter(b, es) == b)
            && forall i, j :: 0 <= i < j < |s| && s[i] == s[j] ==> Spared(s[i], es)
  {
    EditedAllPointwise(s, es);
    var r := EditedAll(s, es);
    if |r| == |s| {
      assert r == s <==> forall i {:trigger s[i]} :: 0 <= i < |s| ==> LineAfter(s[i], es) == s[i];
      assert forall i {:trigger s[i]} :: 0 <= i < |s| ==> s[i] in s;
      forall i, j | 0 <= i < j < |s| && s[i] == s[j]
        ensures Spared(s[i], es)
      {
        RepeatedIsSpared(s, es, i, j);
      }
    } else if forall b :: b in s ==> LineAfter(b, es) == b {
      if StayApart(s, es) {
        ApartKeepsLength(s, es);
      }
    }
  }

  /**
   For any run of edits: undoing it restores the list exactly when each breakpoint's line comes back by itself, and a
   line that is listed twice is never deleted on the way.
   */
  lemma {:induction false} UndoAllRestoresLinesIff(s: seq<nat>, es: seq<Edit>)
    ensures UndoneAll(EditedAll(s, es), es) == s <==>
            && (forall b :: b in s ==> LineAfter(b, es + Undoing(es)) == b)
            && forall i, j :: 0 <= i < j < |s| && s[i] == s[j] ==> Spared(s[i], es + Undoing(es))
  {
    UndoneAllIsRun(EditedAll(s, es), es);
    EditedAllConcat(s, es, Undoing(es));
    RunReturnsIff(s, es + Undoing(es));
  }
}
