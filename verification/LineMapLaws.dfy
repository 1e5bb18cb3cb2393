/**
 What the rest of the debugger relies on: the two maps a diff leaves are an optimal, order-preserving pairing of equal
 lines, each the inverse of the other; and the inputs on which two of the diff's loops index outside their vectors.
 */
module LineMapLaws {
  import opened Options
  import opened Lcs
  import opened LcsChoice
  import opened LineMapping
  import LineText

  predicate WithinLimits(X: seq<string>, Y: seq<string>)
  {
    0 < |X| <= MAX_LINES && 0 < |Y| <= MAX_LINES
  }

  /** How many of the first n entries are not the invalid line. */
  function ValidCount(v: seq<nat>, n: nat): (c: nat)
    requires n <= |v|
    ensures c <= n
  {
    if n == 0 then 0 else ValidCount(v, n - 1) + if v[n - 1] != INVALID_LINE then 1 else 0
  }

  lemma {:induction false} EncodedCount(f: seq<Option<nat>>, n: nat)
    requires n <= |f|
    requires forall i {:trigger f[i]} :: 0 <= i < |f| && f[i].Some? ==> f[i].value < INVALID_LINE
    ensures ValidCount(Encoded(f), n) == Count(f, n)
  {
    if n > 0 {
      EncodedCount(f, n - 1);
    }
  }

  /** Line i of the old side is matched with line j of the new side. */
  predicate Pairs(X: seq<string>, Y: seq<string>, i: nat, j: nat)
  {
    i < |X| && j < |Y| && OldToNewOf(X, Y)[i] == j
  }

  lemma {:induction false} PairsFollowDiff(X: seq<string>, Y: seq<string>)
    requires WithinLimits(X, Y)
    ensures forall i: nat, j: nat {:trigger Pairs(X, Y, i, j)} :: Pairs(X, Y, i, j) <==> Maps(DiffForward(X, Y), i, j)
    ensures forall i: nat, j: nat {:trigger Pairs(X, Y, i, j)} ::
              Pairs(X, Y, i, j) <==> i < |X| && j < |Y| && NewToOldOf(X, Y)[j] == i
    ensures forall i: nat :: i < |X| && OldToNewOf(X, Y)[i] != INVALID_LINE ==> Pairs(X, Y, i, OldToNewOf(X, Y)[i])
    ensures forall j: nat :: j < |Y| && NewToOldOf(X, Y)[j] != INVALID_LINE ==> Pairs(X, Y, NewToOldOf(X, Y)[j], j)
  {
    var f, g := DiffForward(X, Y), DiffBackward(X, Y);
    DiffAligns(X, Y);
    forall i: nat | i < |X| && f[i].Some?
      ensures f[i].value < |Y|
    {
      assert Maps(f, i, f[i].value);
    }
    forall j: nat | j < |Y| && g[j].Some?
      ensures g[j].value < |X| && Maps(f, g[j].value, j)
    {
      assert Maps(g, j, g[j].value);
    }
  }

  /** The two maps are mutually inverse partial functions on matched lines. */
  lemma {:induction false} MapsAreInverse(X: seq<string>, Y: seq<string>, i: nat, j: nat)
    requires WithinLimits(X, Y) && i < |X| && j < |Y|
    ensures OldToNewOf(X, Y)[i] == j <==> NewToOldOf(X, Y)[j] == i
  {
    PairsFollowDiff(X, Y);
    assert Pairs(X, Y, i, j) <==> OldToNewOf(X, Y)[i] == j;
  }

  /** Every entry is either the invalid line or a line of the other side with the same text. */
  lemma {:induction false} MatchedLinesAreEqual(X: seq<string>, Y: seq<string>, i: nat)
    requires WithinLimits(X, Y) && i < |X| && OldToNewOf(X, Y)[i] != INVALID_LINE
    ensures OldToNewOf(X, Y)[i] < |Y| && X[i] == Y[OldToNewOf(X, Y)[i]]
  {
    PairsFollowDiff(X, Y);
    DiffAligns(X, Y);
    assert Maps(DiffForward(X, Y), i, OldToNewOf(X, Y)[i]);
  }

  /** Matched lines keep their order. */
  lemma {:induction false} MatchedLinesKeepOrder(X: seq<string>, Y: seq<string>, i: nat, i': nat)
    requires WithinLimits(X, Y) && i < i' < |X|
    requires OldToNewOf(X, Y)[i] != INVALID_LINE && OldToNewOf(X, Y)[i'] != INVALID_LINE
    ensures OldToNewOf(X, Y)[i] < OldToNewOf(X, Y)[i']
  {
    PairsFollowDiff(X, Y);
    DiffAligns(X, Y);
    assert Maps(DiffForward(X, Y), i, OldToNewOf(X, Y)[i]);
    assert Maps(DiffForward(X, Y), i', OldToNewOf(X, Y)[i']);
  }

  /**
   The diff is optimal end to end: the old lines it maps are as many as a longest common subsequence of the whole of X
   and Y has, and no order-preserving matching of equal lines is larger.
   */
  lemma {:induction false} MapsAreOptimal(X: seq<string>, Y: seq<string>, ps: seq<(nat, nat)>)
    requires WithinLimits(X, Y)
    ensures ValidCount(OldToNewOf(X, Y), |X|) == WholeLength(X, Y)
    ensures IsMatching(X, Y, |X|, |Y|, ps) ==> |ps| <= ValidCount(OldToNewOf(X, Y), |X|)
  {
    var f := DiffForward(X, Y);
    DiffAligns(X, Y);
    forall i: nat | i < |X| && f[i].Some?
      ensures f[i].value < INVALID_LINE
    {
      assert Maps(f, i, f[i].value);
    }
    EncodedCount(f, |X|);
    DiffMatchesLcs(X, Y);
    if IsMatching(X, Y, |X|, |Y|, ps) {
      DiffIsOptimal(X, Y, ps);
    }
  }

  /** A matched new line survives the trip to the old side and back. */
  lemma {:induction false} LookupRoundTrip(X: seq<string>, Y: seq<string>, line: nat)
    requires WithinLimits(X, Y) && line < |Y|
    requires Lookup(NewToOldOf(X, Y), line) != INVALID_LINE
    ensures Lookup(NewToOldOf(X, Y), line) < |X|
    ensures Lookup(OldToNewOf(X, Y), Lookup(NewToOldOf(X, Y), line)) == line
  {
    PairsFollowDiff(X, Y);
    assert Pairs(X, Y, NewToOldOf(X, Y)[line], line);
  }

  /**
   What GetOldLine means after a diff: a line of the new text is either changed or comes from an equal line of the old
   one, which GetNewLine takes back to it; a line past the end is treated as the last one.
   */
  lemma {:induction false} GetOldLineFinds(mapper: LineMapper, X: seq<string>, Y: seq<string>, line: nat)
    requires WithinLimits(X, Y) && mapper.oldToNew == OldToNewOf(X, Y) && mapper.newToOld == NewToOldOf(X, Y)
    ensures var l := mapper.GetOldLine(line);
            if line >= |Y| then l == mapper.GetOldLine(|Y| - 1)
            else l != INVALID_LINE ==> l < |X| && X[l] == Y[line] && mapper.GetNewLine(l) == line
    ensures line < |Y| && mapper.GetOldLine(line) == INVALID_LINE ==>
              forall l: nat :: l < |X| ==> mapper.GetNewLine(l) != line
  {
    if line < |Y| {
      if mapper.GetOldLine(line) != INVALID_LINE {
        LookupRoundTrip(X, Y, line);
        MatchedLinesAreEqual(X, Y, mapper.GetOldLine(line));
      }
      forall l: nat | l < |X|
        ensures mapper.GetNewLine(l) == line <==> mapper.GetOldLine(line) == l
      {
        MapsAreInverse(X, Y, l, line);
      }
    }
  }

  /** The same for GetNewLine. */
  lemma {:induction false} GetNewLineFinds(mapper: LineMapper, X: seq<string>, Y: seq<string>, line: nat)
    requires WithinLimits(X, Y) && mapper.oldToNew == OldToNewOf(X, Y) && mapper.newToOld == NewToOldOf(X, Y)
    ensures var l := mapper.GetNewLine(line);
            if line >= |X| then l == mapper.GetNewLine(|X| - 1)
            else l != INVALID_LINE ==> l < |Y| && Y[l] == X[line] && mapper.GetOldLine(l) == line
    ensures line < |X| && mapper.GetNewLine(line) == INVALID_LINE ==>
              forall l: nat :: l < |Y| ==> mapper.GetOldLine(l) != line
  {
    if line < |X| {
      if mapper.GetNewLine(line) != INVALID_LINE {
        MatchedLinesAreEqual(X, Y, line);
      }
      forall l: nat | l < |Y|
        ensures mapper.GetOldLine(l) == line <==> mapper.GetNewLine(line) == l
      {
        MapsAreInverse(X, Y, line, l);
      }
    }
  }

  /** Two texts that fall into as many lines, equal but for white space at either end, get identity maps. */
  lemma {:induction false} ReindentationIsInvisible(oldCode: string, newCode: string, line: nat)
    requires var a, b := LineText.SplitFrom(oldCode, 0), LineText.SplitFrom(newCode, 0);
             && 0 < |a| == |b|
             && forall i :: 0 <= i < |a| ==> LineText.Trimmed(a[i]) == LineText.Trimmed(b[i])
    requires line < |LineText.SplitFrom(oldCode, 0)|
    ensures var X, Y := LineText.LinesOf(oldCode), LineText.LinesOf(newCode);
            |X| == |Y| == |LineText.SplitFrom(oldCode, 0)| &&
            OldToNewOf(X, Y)[line] == line && NewToOldOf(X, Y)[line] == line
  {
    var X, Y := LineText.LinesOf(oldCode), LineText.LinesOf(newCode);
    assert X == Y;
    DiffOfEqual(X);
  }

  /** And only lines that are the same once cleaned are matched. */
  lemma {:induction false} MatchedRawLinesAgree(oldCode: string, newCode: string, line: nat)
    requires var X, Y := LineText.LinesOf(oldCode), LineText.LinesOf(newCode);
             WithinLimits(X, Y) && line < |X| && OldToNewOf(X, Y)[line] != INVALID_LINE
    ensures var X, Y := LineText.LinesOf(oldCode), LineText.LinesOf(newCode);
            var a, b, j := LineText.SplitFrom(oldCode, 0), LineText.SplitFrom(newCode, 0), OldToNewOf(X, Y)[line];
            line < |a| && j < |b| && LineText.Cleaned(a[line]) == LineText.Cleaned(b[j])
  {
    MatchedLinesAreEqual(LineText.LinesOf(oldCode), LineText.LinesOf(newCode), line);
  }

  // ----- What stays where it was -----

  /** A line up to which the texts agree keeps its number. */
  lemma {:induction false} HeadKeepsNumbers(X: seq<string>, Y: seq<string>, line: nat)
    requires WithinLimits(X, Y) && line < |X| && line < |Y|
    requires forall k {:trigger X[k]} :: 0 <= k <= line ==> X[k] == Y[k]
    ensures OldToNewOf(X, Y)[line] == line && NewToOldOf(X, Y)[line] == line
  {
    HeadIsIdentity(X, Y, line);
  }

  /** A line from which on they agree, behind their longest common head, keeps its distance to the end. */
  lemma {:induction false} TailKeepsDistances(X: seq<string>, Y: seq<string>, h: nat, line: nat)
    requires WithinLimits(X, Y) && IsLongestHead(X, Y, h) && h + line < |X| && h + line < |Y|
    requires forall k {:trigger X[k]} :: |X| - 1 - line <= k < |X| ==> X[k] == Y[k - |X| + |Y|]
    ensures OldToNewOf(X, Y)[|X| - 1 - line] == |Y| - 1 - line
    ensures NewToOldOf(X, Y)[|Y| - 1 - line] == |X| - 1 - line
  {
    TailKeepsDistance(X, Y, h, line);
  }

  /**
   Of lines inserted in one place, no line above them moves; and if the first of them is not the line it pushes down,
   each line below moves by as many as were inserted.
   */
  lemma {:induction false} InsertionShifts(above: seq<string>, inserted: seq<string>, below: seq<string>, line: nat)
    requires var X, Y := above + below, above + inserted + below; WithinLimits(X, Y) && line < |X|
    ensures var X, Y := above + below, above + inserted + below;
            && (line < |above| ==> OldToNewOf(X, Y)[line] == line && NewToOldOf(X, Y)[line] == line)
            && (line >= |above| && inserted != [] && inserted[0] != below[0] ==>
                  OldToNewOf(X, Y)[line] == line + |inserted| && NewToOldOf(X, Y)[line + |inserted|] == line)
  {
    var X, Y := above + below, above + inserted + below;
    if line < |above| {
      HeadKeepsNumbers(X, Y, line);
    } else if inserted != [] && inserted[0] != below[0] {
      var h, n := |above|, |X| - 1 - line;
      assert IsLongestHead(X, Y, h);
      TailKeepsDistances(X, Y, h, n);
    }
  }

  // ----- Where the loops of the C++ leave their vectors -----

  predicate IsSuffix(s: seq<string>, t: seq<string>)
  {
    |s| <= |t| && s == t[|t| - |s|..]
  }

  /**
   The head loop's last index, sm or m - 1, lies inside newToOld except when the new lines are a proper prefix of the
   old ones.
   */
  lemma {:induction false} HeadCopyStaysInRangeIff(X: seq<string>, Y: seq<string>)
    requires |X| > 0 && |Y| > 0
    ensures var last := if CommonHead(X, Y) < |X| then CommonHead(X, Y) else |X| - 1;
            last < |Y| <==> !(|Y| < |X| && Y == X[..|Y|])
  {
    var h := CommonHead(X, Y);
    if |Y| < |X| && Y == X[..|Y|] {
      assert forall k {:trigger X[k]} :: 0 <= k < |Y| ==> X[k] == Y[k];
    }
  }

  /** Two lines of which the second was deleted: the loop writes entry 1 of a map with one entry. */
  lemma {:induction false} HeadCopyCanOverrun()
    ensures var X, Y := ["a", "b"], ["a"];
            var last := if CommonHead(X, Y) < |X| then CommonHead(X, Y) else |X| - 1;
            last == 1 == |Y|
  {
    assert ["a", "b"][0] == ["a"][0];
    assert HeadFrom(["a", "b"], ["a"], 1) == 1;
  }

  /** A 32-bit unsigned decrement. */
  function Decremented(x: nat): nat
  {
    if x == 0 then 0xFFFF_FFFF else x - 1
  }

  /** The C++ tail loop, with inclusive unsigned ends, reads inside X and Y from the state (em, en) on. */
  predicate TailLoopReadsInRange(X: seq<string>, Y: seq<string>, sm: nat, em: nat, en: nat)
    requires |X| <= 0xFFFF_FFFF
    decreases if em < |X| then em + 1 else 0
  {
    sm <= em && sm <= en ==>
      && em < |X| && en < |Y|
      && (X[em] == Y[en] ==> TailLoopReadsInRange(X, Y, sm, Decremented(em), Decremented(en)))
  }

  lemma {:induction false} TailLoopReads(X: seq<string>, Y: seq<string>, h: nat, t: nat, em: nat, en: nat)
    requires WithinLimits(X, Y) && h + t <= |X| && h + t <= |Y|
    requires em == (if t == |X| then 0xFFFF_FFFF else |X| - 1 - t)
    requires en == (if t == |Y| then 0xFFFF_FFFF else |Y| - 1 - t)
    ensures TailLoopReadsInRange(X, Y, h, em, en) <==>
            !(h == 0 && (TailFrom(X, Y, h, t) == |X| || TailFrom(X, Y, h, t) == |Y|))
    decreases |X| - t
  {
    if h + t < |X| && h + t < |Y| && X[|X| - 1 - t] == Y[|Y| - 1 - t] {
      TailLoopReads(X, Y, h, t + 1, Decremented(em), Decremented(en));
    }
  }

  /**
   The C++ tail loop steps below index 0 and reads there exactly when the first lines differ and one side is a suffix
   of the other. On all other inputs it stops where the model's exclusive ends do.
   */
  lemma {:induction false} TailTrimStaysInRangeIff(X: seq<string>, Y: seq<string>)
    requires WithinLimits(X, Y)
    ensures TailLoopReadsInRange(X, Y, CommonHead(X, Y), |X| - 1, |Y| - 1) <==>
            !(X[0] != Y[0] && (IsSuffix(X, Y) || IsSuffix(Y, X)))
  {
    TailLoopReads(X, Y, CommonHead(X, Y), 0, |X| - 1, |Y| - 1);
    assert CommonHead(X, Y) > 0 ==> X[0] == Y[0];
    if CommonHead(X, Y) == 0 {
      TailReaches(X, Y, CommonTail(X, Y));
    }
  }

  lemma {:induction false} TailReaches(X: seq<string>, Y: seq<string>, t: nat)
    requires CommonHead(X, Y) == 0 && t == CommonTail(X, Y)
    ensures t == |X| <==> IsSuffix(X, Y)
    ensures t == |Y| <==> IsSuffix(Y, X)
  {
    if t == |Y| {
      forall k | 0 <= k < |Y|
        ensures Y[k] == X[|X| - |Y|..][k]
      {
        assert X[|X| - |Y| + k] == Y[k];
      }
    }
  }

  /** A line put in front of the only one: the loop goes on below the first index. */
  lemma {:induction false} TailTrimCanUnderrun()
    ensures !TailLoopReadsInRange(["a"], ["b", "a"], CommonHead(["a"], ["b", "a"]), 0, 1)
  {
    assert ["a"][0] != ["b", "a"][0] && ["b", "a"][1..] == ["a"];
    TailTrimStaysInRangeIff(["a"], ["b", "a"]);
  }
}
