/**
 The class LineMapper: two vectors of 16-bit line numbers between the lines of an old text (the backend's) and a new
 one (the editor's). Diff trims the common ends, fills the table of prefix lengths, backtracks through it into the
 vectors and patches the ends back.
 */
module LineMapping {
  import opened Options
  import opened Lcs
  import LineText

  type uint16 = x: int | 0 <= x < 0x1_0000

  type uint32 = x: int | 0 <= x < 0x1_0000_0000

  /** s_invalidLine: what a 16-bit -1 reads as. */
  const INVALID_LINE: uint16 := 0xFFFF

  /** The vectors and the table hold 16-bit numbers; up to here every one of them is exact and none is the sentinel. */
  const MAX_LINES: nat := 0xFFFE

  function Code(entry: Option<nat>): nat
  {
    if entry.Some? then entry.value else INVALID_LINE
  }

  function Encoded(f: seq<Option<nat>>): (v: seq<nat>)
    ensures |v| == |f|
    ensures forall i {:trigger v[i]} :: 0 <= i < |f| ==> v[i] == Code(f[i])
  {
    seq(|f|, i requires 0 <= i < |f| => Code(f[i]))
  }

  /** A vector of n zeros, which is what the code stores when the other side has no lines. */
  function Zeros(n: nat): (v: seq<nat>)
    ensures |v| == n
    ensures forall i {:trigger v[i]} :: 0 <= i < n ==> v[i] == 0
  {
    seq(n, i => 0)
  }

  /** What m_oldToNew holds after a diff of X (old) and Y (new). */
  function OldToNewOf(X: seq<string>, Y: seq<string>): (v: seq<nat>)
    ensures |v| == |X|
  {
    if |Y| == 0 then Zeros(|X|) else Encoded(DiffForward(X, Y))
  }

  /** What m_newToOld holds after a diff of X (old) and Y (new). */
  function NewToOldOf(X: seq<string>, Y: seq<string>): (v: seq<nat>)
    ensures |v| == |Y|
  {
    if |X| == 0 then Zeros(|Y|) else Encoded(DiffBackward(X, Y))
  }

  /** The lookup of GetOldLine and GetNewLine: past the end the last entry answers, and an empty map is the identity. */
  function Lookup(v: seq<nat>, line: nat): nat
  {
    if line < |v| then v[line] else if |v| == 0 then line else v[|v| - 1]
  }

  // ----- The flattened table -----

  /** The index of cell (i, j) in a table of r rows, laid out column by column. */
  function Cell(r: nat, i: nat, j: nat): nat
  {
    i + j * r
  }

  lemma CellInRange(r: nat, c: nat, i: nat, j: nat)
    requires i < r && j < c
    ensures Cell(r, i, j) < r * c
  {
    assert j * r + r <= c * r by {
      assert (j + 1) * r <= c * r;
    }
  }

  lemma CellsDiffer(r: nat, i: nat, j: nat, i': nat, j': nat)
    requires i < r && i' < r && (i != i' || j != j')
    ensures Cell(r, i, j) != Cell(r, i', j')
  {
    if j < j' {
      assert (j + 1) * r <= j' * r;
    } else if j' < j {
      assert (j' + 1) * r <= j * r;
    }
  }

  /** Within the line limit the flattened index and the table's size are exact in 32 bits. */
  lemma TableFitsIn32Bits(r: nat, c: nat, i: nat, j: nat)
    requires r <= MAX_LINES + 1 && c <= MAX_LINES + 1 && i < r && j < c
    ensures r * c < 0x1_0000_0000 && Cell(r, i, j) < 0x1_0000_0000
  {
    CellInRange(r, c, i, j);
    assert r * c <= (MAX_LINES + 1) * (MAX_LINES + 1);
  }

  /** Cell (i, j) of the table holds the length of a longest common subsequence of the two prefixes. */
  ghost predicate Holds(t: seq<uint16>, X: seq<string>, Y: seq<string>, h: nat, r: nat, i: nat, j: nat)
  {
    && InRange(X, Y, h, i, j)
    && Cell(r, i, j) < |t|
    && t[Cell(r, i, j)] == Length(X, Y, h, i, j)
  }

  /** Every cell of an r by c table holds what it should. */
  ghost predicate IsTable(t: seq<uint16>, X: seq<string>, Y: seq<string>, h: nat, r: nat, c: nat)
  {
    forall i: nat, j: nat :: i < r && j < c ==> Holds(t, X, Y, h, r, i, j)
  }

  /** One store into the table: the cell gets its value and no other cell that was right goes wrong. */
  method WriteCell(C: array<uint16>, v: uint16, X: seq<string>, Y: seq<string>, h: nat, r: nat, c: nat, i: nat, j: nat)
    requires i < r <= MAX_LINES + 1 && j < c <= MAX_LINES + 1 && C.Length == r * c
    requires InRange(X, Y, h, i, j) && v == Length(X, Y, h, i, j)
    modifies C
    ensures Holds(C[..], X, Y, h, r, i, j)
    ensures forall i': nat, j': nat :: i' < r && old(Holds(C[..], X, Y, h, r, i', j')) ==>
              Holds(C[..], X, Y, h, r, i', j')
  {
    CellInRange(r, c, i, j);
    TableFitsIn32Bits(r, c, i, j);
    var index: uint32 := i + j * r;
    C[index] := v;
    forall i': nat, j': nat | i' < r && old(Holds(C[..], X, Y, h, r, i', j'))
      ensures Holds(C[..], X, Y, h, r, i', j')
    {
      if i' != i || j' != j {
        CellsDiffer(r, i, j, i', j');
      }
    }
  }

  /** The value the fill loop computes for an inner cell from its three neighbours. */
  method InnerCell(C: array<uint16>, X: seq<string>, Y: seq<string>, h: nat, r: nat, i: nat, j: nat)
    returns (v: uint16)
    requires 0 < i <= MAX_LINES && 0 < j && InRange(X, Y, h, i, j)
    requires Holds(C[..], X, Y, h, r, i - 1, j - 1)
    requires Holds(C[..], X, Y, h, r, i, j - 1)
    requires Holds(C[..], X, Y, h, r, i - 1, j)
    ensures v == Length(X, Y, h, i, j)
  {
    if X[h + i - 1] == Y[h + j - 1] {
      v := C[(i - 1) + (j - 1) * r] + 1;
    } else {
      v := Max(C[i + (j - 1) * r], C[(i - 1) + j * r]);
    }
  }

  /** The fill loops of Diff: the two borders, then row by row. */
  method FillTable(X: seq<string>, Y: seq<string>, h: nat, r: nat, c: nat) returns (C: array<uint16>)
    requires 0 < r <= MAX_LINES + 1 && 0 < c <= MAX_LINES + 1
    requires InRange(X, Y, h, r - 1, c - 1)
    ensures fresh(C) && C.Length == r * c && IsTable(C[..], X, Y, h, r, c)
  {
    TableFitsIn32Bits(r, c, 0, 0);
    var size: uint32 := r * c;
    C := new uint16[size];
    var i := 0;
    while i < r
      invariant i <= r
      invariant forall i': nat :: i' < i ==> Holds(C[..], X, Y, h, r, i', 0)
    {
      WriteCell(C, 0, X, Y, h, r, c, i, 0);
      i := i + 1;
    }
    var j := 1;
    while j < c
      invariant 1 <= j <= c
      invariant forall i': nat :: i' < r ==> Holds(C[..], X, Y, h, r, i', 0)
      invariant forall j': nat :: j' < j ==> Holds(C[..], X, Y, h, r, 0, j')
    {
      WriteCell(C, 0, X, Y, h, r, c, 0, j);
      j := j + 1;
    }
    i := 1;
    while i < r
      invariant 1 <= i <= r
      invariant RowsHold(C[..], X, Y, h, r, c, i, 1)
    {
      j := 1;
      while j < c
        invariant 1 <= j <= c
        invariant RowsHold(C[..], X, Y, h, r, c, i, j)
      {
        assert Holds(C[..], X, Y, h, r, i - 1, j - 1);
        assert Holds(C[..], X, Y, h, r, i, j - 1);
        assert Holds(C[..], X, Y, h, r, i - 1, j);
        var v := InnerCell(C, X, Y, h, r, i, j);
        WriteCell(C, v, X, Y, h, r, c, i, j);
        j := j + 1;
      }
      i := i + 1;
    }
  }

  /** The borders, the rows before i and, in row i, the cells before j. */
  ghost predicate RowsHold(t: seq<uint16>, X: seq<string>, Y: seq<string>, h: nat, r: nat, c: nat, i: nat, j: nat)
  {
    forall i': nat, j': nat :: i' < r && j' < c && (i' < i || j' == 0 || (i' == i && j' < j)) ==>
      Holds(t, X, Y, h, r, i', j')
  }

  /** The guard of the backtrack's second branch: drop the new side's line, also on a tie. */
  predicate NewGuard(C: seq<uint16>, r: nat, i: nat, j: nat)
    requires Cell(r, i, j) < |C|
  {
    j > 0 && (i == 0 || C[i + (j - 1) * r] >= C[(i - 1) + j * r])
  }

  /** The guard of the backtrack's third branch: drop the old side's line. */
  predicate OldGuard(C: seq<uint16>, r: nat, i: nat, j: nat)
    requires Cell(r, i, j) < |C|
  {
    i > 0 && (j == 0 || C[i + (j - 1) * r] < C[(i - 1) + j * r])
  }

  /**
   On a right table the guards choose as the recursive definition does, and one holds everywhere but in the corner.
   */
  lemma GuardsFollowTable(C: seq<uint16>, r: nat, c: nat, X: seq<string>, Y: seq<string>, h: nat, i: nat, j: nat)
    requires i < r && j < c && IsTable(C, X, Y, h, r, c)
    ensures InRange(X, Y, h, i, j) && Cell(r, i, j) < |C|
    ensures NewGuard(C, r, i, j) <==> DropsNew(X, Y, h, i, j)
    ensures OldGuard(C, r, i, j) <==> !NewGuard(C, r, i, j) && i > 0
    ensures !NewGuard(C, r, i, j) && !OldGuard(C, r, i, j) <==> i == 0 && j == 0
  {
    assert Holds(C, X, Y, h, r, i, j);
    if i > 0 && j > 0 {
      assert Holds(C, X, Y, h, r, i, j - 1);
      assert Holds(C, X, Y, h, r, i - 1, j);
    }
  }

  // ----- The class -----

  /** std::vector::resize: what is there stays, and what is new is zero. */
  function Resized(v: seq<uint16>, n: nat): (w: seq<uint16>)
    ensures |w| == n
  {
    if n <= |v| then v[..n] else v + seq(n - |v|, i => 0)
  }

  /** The first |f| entries of v are those of f, encoded. */
  ghost predicate Shows(v: seq<uint16>, f: seq<Option<nat>>)
  {
    |f| <= |v| && forall k {:trigger v[k]} :: 0 <= k < |f| ==> v[k] == Code(f[k])
  }

  lemma ShowsAppend(v: seq<uint16>, f: seq<Option<nat>>, x: Option<nat>)
    requires Shows(v, f) && |f| < |v| && v[|f|] == Code(x)
    ensures Shows(v, f + [x])
  {
  }

  /** The entries of v and w agree from index n on. */
  ghost predicate SameFrom(v: seq<uint16>, w: seq<uint16>, n: nat)
  {
    |v| == |w| && forall k {:trigger v[k]} {:trigger w[k]} :: n <= k < |v| ==> v[k] == w[k]
  }

  /** What the three branches of the backtrack leave of the maps that show the shorter prefixes. */
  lemma MatchShows(v: seq<uint16>, w: seq<uint16>, X: seq<string>, Y: seq<string>, h: nat, i: nat, j: nat)
    requires InRange(X, Y, h, i, j) && LastEqual(X, Y, h, i, j)
    requires Shows(v, Forward(X, Y, h, i - 1, j - 1)) && h + i <= |v| && v[h + i - 1] == h + j - 1
    requires Shows(w, Backward(X, Y, h, i - 1, j - 1)) && h + j <= |w| && w[h + j - 1] == h + i - 1
    ensures Shows(v, Forward(X, Y, h, i, j)) && Shows(w, Backward(X, Y, h, i, j))
  {
    ShowsAppend(v, Forward(X, Y, h, i - 1, j - 1), Some(h + j - 1));
    ShowsAppend(w, Backward(X, Y, h, i - 1, j - 1), Some(h + i - 1));
  }

  lemma NewShows(v: seq<uint16>, w: seq<uint16>, X: seq<string>, Y: seq<string>, h: nat, i: nat, j: nat)
    requires InRange(X, Y, h, i, j) && !LastEqual(X, Y, h, i, j) && DropsNew(X, Y, h, i, j)
    requires Shows(v, Forward(X, Y, h, i, j - 1))
    requires Shows(w, Backward(X, Y, h, i, j - 1)) && h + j <= |w| && w[h + j - 1] == INVALID_LINE
    ensures Shows(v, Forward(X, Y, h, i, j)) && Shows(w, Backward(X, Y, h, i, j))
  {
    ShowsAppend(w, Backward(X, Y, h, i, j - 1), None);
  }

  lemma OldShows(v: seq<uint16>, w: seq<uint16>, X: seq<string>, Y: seq<string>, h: nat, i: nat, j: nat)
    requires InRange(X, Y, h, i, j) && !LastEqual(X, Y, h, i, j) && !DropsNew(X, Y, h, i, j) && i > 0
    requires Shows(v, Forward(X, Y, h, i - 1, j)) && h + i <= |v| && v[h + i - 1] == INVALID_LINE
    requires Shows(w, Backward(X, Y, h, i - 1, j))
    ensures Shows(v, Forward(X, Y, h, i, j)) && Shows(w, Backward(X, Y, h, i, j))
  {
    ShowsAppend(v, Forward(X, Y, h, i - 1, j), None);
  }

  class LineMapper {
    var oldToNew: seq<uint16>
    var newToOld: seq<uint16>

    constructor ()
      ensures oldToNew == [] && newToOld == []
    {
      oldToNew, newToOld := [], [];
    }

    function GetOldLine(line: nat): (old_: nat)
      reads this
      ensures line < |newToOld| ==> old_ == newToOld[line]
      ensures line >= |newToOld| ==> old_ == if newToOld == [] then line else newToOld[|newToOld| - 1]
    {
      Lookup(newToOld, line)
    }

    function GetNewLine(line: nat): (new_: nat)
      reads this
      ensures line < |oldToNew| ==> new_ == oldToNew[line]
      ensures line >= |oldToNew| ==> new_ == if oldToNew == [] then line else oldToNew[|oldToNew| - 1]
    {
      Lookup(oldToNew, line)
    }

    /** Whatever the maps held before, after an Update they depend on the two texts alone. */
    method Update(oldCode: string, newCode: string)
      requires |LineText.LinesOf(oldCode)| <= MAX_LINES && |LineText.LinesOf(newCode)| <= MAX_LINES
      modifies this
      ensures oldToNew == OldToNewOf(LineText.LinesOf(oldCode), LineText.LinesOf(newCode))
      ensures newToOld == NewToOldOf(LineText.LinesOf(oldCode), LineText.LinesOf(newCode))
    {
      var X := LineText.DivideIntoLines(oldCode);
      var Y := LineText.DivideIntoLines(newCode);
      Diff(X, Y);
    }

    method Diff(X: seq<string>, Y: seq<string>)
      requires |X| <= MAX_LINES && |Y| <= MAX_LINES
      modifies this
      ensures oldToNew == OldToNewOf(X, Y)
      ensures newToOld == NewToOldOf(X, Y)
    {
      var m, n := |X|, |Y|;
      oldToNew, newToOld := Resized(oldToNew, m), Resized(newToOld, n);
      if m == 0 {
        FillNewWithZeros(n);
        return;
      }
      if n == 0 {
        FillOldWithZeros(m);
        return;
      }

      DiffNonEmpty(X, Y);
    }

    /** The rest of Diff, once neither side is empty. */
    method DiffNonEmpty(X: seq<string>, Y: seq<string>)
      requires |X| <= MAX_LINES && |Y| <= MAX_LINES
      requires |oldToNew| == |X| && |newToOld| == |Y|
      modifies this
      ensures oldToNew == Encoded(DiffForward(X, Y))
      ensures newToOld == Encoded(DiffBackward(X, Y))
    {
      var sm := TrimHead(X, Y);
      var em, en := TrimTail(X, Y, sm);
      var i, j := em - sm, en - sm;
      AlignPrefixes(X, Y, sm, i, j);
      MatchTail(em, en, |X|, |Y|, Forward(X, Y, sm, i, j), Backward(X, Y, sm, i, j));
    }

    /** Fill the table for the middles, match the head, and backtrack from the table's last cell. */
    method AlignPrefixes(X: seq<string>, Y: seq<string>, sm: nat, i: nat, j: nat)
      requires |X| <= MAX_LINES && |Y| <= MAX_LINES && InRange(X, Y, sm, i, j)
      requires |oldToNew| == |X| && |newToOld| == |Y|
      modifies this
      ensures |oldToNew| == |X| && Shows(oldToNew, Forward(X, Y, sm, i, j))
      ensures |newToOld| == |Y| && Shows(newToOld, Backward(X, Y, sm, i, j))
    {
      var r, c := i + 1, j + 1;
      var C := FillTable(X, Y, sm, r, c);
      MatchHead(sm, |X|, |Y|);
      Backtrack(C[..], r, c, X, Y, sm, r - 1, c - 1);
    }

    /** The first trim loop. */
    method TrimHead(X: seq<string>, Y: seq<string>) returns (sm: nat)
      ensures sm == CommonHead(X, Y)
    {
      var sn := 0;
      sm := 0;
      while sm < |X| && sn < |Y| && X[sm] == Y[sn]
        invariant sm == sn <= |X| && sn <= |Y|
        invariant HeadFrom(X, Y, 0) == HeadFrom(X, Y, sm)
        decreases |X| - sm
      {
        sm, sn := sm + 1, sn + 1;
      }
    }

    /** The second trim loop. The ends em and en are exclusive, so that an exhausted side is an empty range. */
    method TrimTail(X: seq<string>, Y: seq<string>, sm: nat) returns (em: nat, en: nat)
      requires sm == CommonHead(X, Y)
      ensures sm <= em <= |X| && sm <= en <= |Y|
      ensures |X| - em == |Y| - en == CommonTail(X, Y)
    {
      em, en := |X|, |Y|;
      while sm < em && sm < en && X[em - 1] == Y[en - 1]
        invariant sm <= em <= |X| && sm <= en <= |Y| && |X| - em == |Y| - en
        invariant TailFrom(X, Y, sm, 0) == TailFrom(X, Y, sm, |X| - em)
        decreases em
      {
        em, en := em - 1, en - 1;
      }
    }

    method FillNewWithZeros(n: nat)
      requires |newToOld| == n
      modifies `newToOld
      ensures newToOld == Zeros(n)
    {
      var i := 0;
      while i < n
        invariant i <= n == |newToOld|
        invariant forall k :: 0 <= k < i ==> newToOld[k] == 0
      {
        newToOld := newToOld[i := 0];
        i := i + 1;
      }
    }

    method FillOldWithZeros(m: nat)
      requires |oldToNew| == m
      modifies `oldToNew
      ensures oldToNew == Zeros(m)
    {
      var i := 0;
      while i < m
        invariant i <= m == |oldToNew|
        invariant forall k :: 0 <= k < i ==> oldToNew[k] == 0
      {
        oldToNew := oldToNew[i := 0];
        i := i + 1;
      }
    }

    /** The head loop runs one index past the head. That write is skipped here where newToOld has no such entry. */
    method MatchHead(sm: nat, m: nat, n: nat)
      requires sm <= m <= MAX_LINES && sm <= n <= MAX_LINES
      requires |oldToNew| == m && |newToOld| == n
      modifies this
      ensures |oldToNew| == m && |newToOld| == n
      ensures Shows(oldToNew, Identity(sm)) && Shows(newToOld, Identity(sm))
    {
      var i := 0;
      while i <= sm && i < m
        invariant i <= m && i <= sm + 1
        invariant |oldToNew| == m && |newToOld| == n
        invariant forall k :: 0 <= k < i && k < sm ==> oldToNew[k] == k && newToOld[k] == k
      {
        oldToNew := oldToNew[i := i];
        if i < n {
          newToOld := newToOld[i := i];
        }
        i := i + 1;
      }
    }

    /** The tail loops of Diff, after the prefixes show f and g. */
    method MatchTail(em: nat, en: nat, m: nat, n: nat, ghost f: seq<Option<nat>>, ghost g: seq<Option<nat>>)
      requires em <= m <= MAX_LINES && en <= n <= MAX_LINES && m - em == n - en
      requires |oldToNew| == m && |f| == em && Shows(oldToNew, f)
      requires |newToOld| == n && |g| == en && Shows(newToOld, g)
      modifies this
      ensures oldToNew == Encoded(WithTail(f, en, m - em))
      ensures newToOld == Encoded(WithTail(g, em, n - en))
    {
      var i := em;
      while i < m
        invariant em <= i <= m == |oldToNew| && newToOld == old(newToOld)
        invariant Shows(oldToNew, WithTail(f, en, i - em))
      {
        oldToNew := oldToNew[i := i - em + en];
        i := i + 1;
      }
      i := en;
      while i < n
        invariant en <= i <= n == |newToOld| && |oldToNew| == m
        invariant Shows(oldToNew, WithTail(f, en, m - em))
        invariant Shows(newToOld, WithTail(g, em, i - en))
      {
        newToOld := newToOld[i := i - en + em];
        i := i + 1;
      }
    }

    /** The recursive Diff: from cell (i, j) of the table C back to the corner. */
    method Backtrack(C: seq<uint16>, r: nat, c: nat, X: seq<string>, Y: seq<string>, sm: nat, i: nat, j: nat)
      requires |X| <= MAX_LINES && |Y| <= MAX_LINES
      requires i < r && j < c && IsTable(C, X, Y, sm, r, c)
      requires |oldToNew| == |X| && |newToOld| == |Y| && InRange(X, Y, sm, i, j)
      requires Shows(oldToNew, Identity(sm)) && Shows(newToOld, Identity(sm))
      modifies this
      ensures |oldToNew| == |X| && |newToOld| == |Y|
      ensures Shows(oldToNew, Forward(X, Y, sm, i, j)) && Shows(newToOld, Backward(X, Y, sm, i, j))
      ensures SameFrom(oldToNew, old(oldToNew), sm + i) && SameFrom(newToOld, old(newToOld), sm + j)
      decreases i + j
    {
      GuardsFollowTable(C, r, c, X, Y, sm, i, j);
      if i > 0 && j > 0 && X[sm + i - 1] == Y[sm + j - 1] {
        oldToNew := oldToNew[sm + i - 1 := sm + j - 1];
        newToOld := newToOld[sm + j - 1 := sm + i - 1];
        Backtrack(C, r, c, X, Y, sm, i - 1, j - 1);
        assert oldToNew[sm + i - 1] == sm + j - 1 && newToOld[sm + j - 1] == sm + i - 1;
        MatchShows(oldToNew, newToOld, X, Y, sm, i, j);
      } else if NewGuard(C, r, i, j) {
        Backtrack(C, r, c, X, Y, sm, i, j - 1);
        newToOld := newToOld[sm + j - 1 := INVALID_LINE];
        NewShows(oldToNew, newToOld, X, Y, sm, i, j);
      } else if OldGuard(C, r, i, j) {
        Backtrack(C, r, c, X, Y, sm, i - 1, j);
        oldToNew := oldToNew[sm + i - 1 := INVALID_LINE];
        OldShows(oldToNew, newToOld, X, Y, sm, i, j);
      } else {
        // The three branches are exhaustive everywhere but in the corner.
        assert i == 0 && j == 0;
      }
    }
  }
}
