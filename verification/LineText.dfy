/**
 How LineMapper turns a text into the lines it compares: DivideIntoLines, CleanWhiteSpace, TrimWhiteSpaces.
 IsSpace is the C locale's six white space characters; the trim set lacks two of them (vertical tab, form feed).
 */
module LineText {
  import Lists

  predicate IsTrimmable(c: char)
  {
    c == ' ' || c == '\t' || c == '\n' || c == '\r'
  }

  predicate IsSpace(c: char)
  {
    IsTrimmable(c) || c == '\U{000B}' || c == '\U{000C}'
  }

  // ----- TrimWhiteSpaces -----

  /** The first index from i on that is not trimmable, or |s|. */
  function FirstInk(s: string, i: nat): (k: nat)
    requires i <= |s|
    ensures i <= k <= |s|
    ensures forall j :: i <= j < k ==> IsTrimmable(s[j])
    ensures k < |s| ==> !IsTrimmable(s[k])
    decreases |s| - i
  {
    if i < |s| && IsTrimmable(s[i]) then FirstInk(s, i + 1) else i
  }

  /** One past the last index below n that is not trimmable, or 0. */
  function InkEnd(s: string, n: nat): (k: nat)
    requires n <= |s|
    ensures k <= n
    ensures forall j :: k <= j < n ==> IsTrimmable(s[j])
    ensures k > 0 ==> !IsTrimmable(s[k - 1])
  {
    if n > 0 && IsTrimmable(s[n - 1]) then InkEnd(s, n - 1) else n
  }

  lemma InkIsOrdered(s: string)
    ensures FirstInk(s, 0) < |s| ==> FirstInk(s, 0) < InkEnd(s, |s|)
  {
  }

  function Trimmed(s: string): (t: string)
    ensures |t| <= |s|
  {
    InkIsOrdered(s);
    if FirstInk(s, 0) == |s| then "" else s[FirstInk(s, 0)..InkEnd(s, |s|)]
  }

  /** The outer characters of s, if there are any, survive a trim. */
  predicate HasInkEnds(s: string)
  {
    s != "" ==> !IsTrimmable(s[0]) && !IsTrimmable(s[|s| - 1])
  }

  lemma TrimmedHasInkEnds(s: string)
    ensures HasInkEnds(Trimmed(s))
  {
  }

  /** A trim leaves a text alone exactly when both ends are ink, and shortens it otherwise. */
  lemma {:induction false} TrimKeeps(s: string)
    ensures HasInkEnds(s) <==> Trimmed(s) == s
    ensures !HasInkEnds(s) ==> |Trimmed(s)| < |s|
  {
    InkIsOrdered(s);
    TrimmedHasInkEnds(s);
    if s != "" && HasInkEnds(s) {
      assert FirstInk(s, 0) == 0 && InkEnd(s, |s|) == |s|;
    }
  }

  predicate AllTrimmable(w: string)
  {
    forall i :: 0 <= i < |w| ==> IsTrimmable(w[i])
  }

  lemma TrimmedIs(s: string, x: nat, y: nat)
    requires x < y <= |s| && !IsTrimmable(s[x]) && !IsTrimmable(s[y - 1])
    requires forall i {:trigger s[i]} :: 0 <= i < x || y <= i < |s| ==> IsTrimmable(s[i])
    ensures Trimmed(s) == s[x..y]
  {
    InkIsOrdered(s);
    assert FirstInk(s, 0) == x && InkEnd(s, |s|) == y;
  }

  lemma TrimmedIsEmpty(s: string)
    requires AllTrimmable(s)
    ensures Trimmed(s) == ""
  {
    assert FirstInk(s, 0) == |s|;
  }

  lemma TrimIgnoresLead(lead: string, s: string)
    requires AllTrimmable(lead)
    ensures Trimmed(lead + s) == Trimmed(s)
  {
    var whole, n, k, e := lead + s, |lead|, FirstInk(s, 0), InkEnd(s, |s|);
    InkIsOrdered(s);
    if k == |s| {
      TrimmedIsEmpty(whole);
    } else {
      TrimmedIs(whole, n + k, n + e);
      assert whole[n + k..n + e] == s[k..e];
    }
  }

  lemma TrimIgnoresTrail(s: string, trail: string)
    requires AllTrimmable(trail)
    ensures Trimmed(s + trail) == Trimmed(s)
  {
    var whole, k, e := s + trail, FirstInk(s, 0), InkEnd(s, |s|);
    InkIsOrdered(s);
    if k == |s| {
      TrimmedIsEmpty(whole);
    } else {
      TrimmedIs(whole, k, e);
      assert whole[k..e] == s[k..e];
    }
  }

  /** Re-indenting a line, or adding white space at its end, does not change what is left after a trim. */
  lemma TrimIgnoresMargins(lead: string, s: string, trail: string)
    requires AllTrimmable(lead) && AllTrimmable(trail)
    ensures Trimmed(lead + s + trail) == Trimmed(s)
  {
    TrimIgnoresTrail(lead + s, trail);
    TrimIgnoresLead(lead, s);
  }

  const MARGIN: set<char> := {' ', '\t', '\r', '\n'}

  /** What a trim leaves is the text less the blanks, tabs, returns and newlines at either end, and nothing else. */
  lemma {:induction false} TrimTakesMargins(s: string) returns (x: nat, y: nat)
    ensures x <= y <= |s| && Trimmed(s) == s[x..y]
    ensures forall i {:trigger s[i]} :: 0 <= i < x || y <= i < |s| ==> s[i] in MARGIN
    ensures x < y ==> s[x] !in MARGIN && s[y - 1] !in MARGIN
  {
    InkIsOrdered(s);
    x := FirstInk(s, 0);
    y := if x == |s| then x else InkEnd(s, |s|);
  }

  // ----- CleanWhiteSpace -----

  predicate PairAt(t: string, i: nat)
  {
    i + 1 < |t| && IsSpace(t[i]) && IsSpace(t[i + 1])
  }

  /** Two white space characters next to each other. */
  predicate HasPair(t: string)
  {
    exists i | 0 <= i < |t| :: PairAt(t, i)
  }

  /** The index of the first pair from i on, or |t|. */
  function FirstPair(t: string, i: nat): (k: nat)
    requires i <= |t|
    ensures i <= k <= |t|
    ensures forall j :: i <= j < k ==> !PairAt(t, j)
    ensures k < |t| ==> PairAt(t, k)
    decreases |t| - i
  {
    if i < |t| && !PairAt(t, i) then FirstPair(t, i + 1) else i
  }

  /** t with every white space character replaced by a blank. */
  function Blanked(t: string): (b: string)
    ensures |b| == |t|
    ensures forall i {:trigger b[i]} :: 0 <= i < |t| ==> b[i] == if IsSpace(t[i]) then ' ' else t[i]
  {
    seq(|t|, i requires 0 <= i < |t| => if IsSpace(t[i]) then ' ' else t[i])
  }

  /** What CleanWhiteSpace leaves: the trimmed line up to its first pair of white space characters, blanked. */
  function Cleaned(s: string): (r: string)
    ensures |r| <= |s|
  {
    var t := Trimmed(s);
    Blanked(t[..FirstPair(t, 0)])
  }

  /** CleanWhiteSpace. Its one-argument erase cuts the line at i; the step back to i - 1 undoes the loop's increment. */
  method CleanWhiteSpace(s: string) returns (line: string)
    ensures line == Cleaned(s)
  {
    line := Trimmed(s);
    ghost var t := line;
    var i: int := 0;
    while i < |line|
      invariant 0 <= i <= |line| <= |t|
      invariant FirstPair(t, 0) == FirstPair(t, i)
      invariant |line| < |t| ==> i == |line| == FirstPair(t, 0)
      invariant forall k {:trigger line[k]} :: 0 <= k < |line| ==>
                  line[k] == if k < i && IsSpace(t[k]) then ' ' else t[k]
      decreases |line| - i
    {
      if IsSpace(line[i]) {
        if i + 1 < |line| && IsSpace(line[i + 1]) {
          assert PairAt(t, i);
          line := line[..i];
          i := i - 1;
        } else {
          line := line[i := ' '];
        }
      }
      i := i + 1;
    }
    assert line == Blanked(t[..|line|]);
  }

  /** No two adjacent white space characters are left, and every one that is left is a blank. */
  lemma {:induction false} CleanedShape(s: string)
    ensures !HasPair(Cleaned(s))
    ensures forall i :: 0 <= i < |Cleaned(s)| && IsSpace(Cleaned(s)[i]) ==> Cleaned(s)[i] == ' '
  {
    var t, r := Trimmed(s), Cleaned(s);
    forall i: nat
      ensures !PairAt(r, i)
    {
      assert !PairAt(t, i) || i + 1 >= |r|;
    }
  }

  lemma {:induction false} CleanedOfCanonical(r: string)
    requires HasInkEnds(r) && !HasPair(r)
    requires forall i :: 0 <= i < |r| && IsSpace(r[i]) ==> r[i] == ' '
    ensures Cleaned(r) == r
  {
    TrimKeeps(r);
    assert FirstPair(r, 0) == |r|;
  }

  /**
   When cleaning twice is cleaning once. It is not for a line that, once trimmed, starts or ends with a single
   vertical tab or form feed: that character becomes a blank, which the next trim removes. A pair in front empties
   the line, and any pair cuts the end off, so those lines are safe.
   */
  predicate CleansOnce(s: string)
  {
    var t := Trimmed(s);
    t != "" ==> (!IsSpace(t[0]) || PairAt(t, 0)) && (!IsSpace(t[|t| - 1]) || HasPair(t))
  }

  lemma {:induction false} CleanIsIdempotentIff(s: string)
    ensures Cleaned(Cleaned(s)) == Cleaned(s) <==> CleansOnce(s)
  {
    var t, r := Trimmed(s), Cleaned(s);
    var p := FirstPair(t, 0);
    CleanedShape(s);
    CleanedEnds(s);
    if CleansOnce(s) {
      CleanedOfCanonical(r);
    } else {
      TrimKeeps(r);
    }
  }

  lemma {:induction false} CleanedEnds(s: string)
    ensures HasInkEnds(Cleaned(s)) <==> CleansOnce(s)
  {
    var t, r := Trimmed(s), Cleaned(s);
    var p := FirstPair(t, 0);
    if 0 < p < |t| {
      assert !PairAt(t, p - 1);
      assert !IsSpace(t[p - 1]);
    }
    if p == |t| {
      assert !HasPair(t);
    }
    if t != "" {
      assert p == 0 <==> PairAt(t, 0);
    }
  }

  /** The failing family is not empty: a line that ends in a vertical tab. */
  lemma CleanIsNotIdempotent()
    ensures !CleansOnce("a\U{000B}")
    ensures Cleaned(Cleaned("a\U{000B}")) != Cleaned("a\U{000B}")
  {
    var s := "a\U{000B}";
    assert HasInkEnds(s);
    TrimKeeps(s);
    CleanIsIdempotentIff(s);
  }

  /** Without those two characters cleaning is a canonical form: idempotent, with ink at both ends. */
  lemma {:induction false} CleanedIsCanonical(s: string)
    requires forall i :: 0 <= i < |s| ==> IsSpace(s[i]) ==> IsTrimmable(s[i])
    ensures Cleaned(Cleaned(s)) == Cleaned(s)
    ensures HasInkEnds(Cleaned(s))
  {
    TrimmedHasInkEnds(s);
    CleanIsIdempotentIff(s);
    CleanedEnds(s);
  }

  /** What a reader may expect of the loop: that every run of white space becomes one blank. */
  function Collapsed(t: string): (c: string)
    ensures |c| <= |t|
  {
    if t == "" then ""
    else if PairAt(t, 0) then Collapsed(t[1..])
    else [if IsSpace(t[0]) then ' ' else t[0]] + Collapsed(t[1..])
  }

  lemma {:induction false} CollapsedUpTo(t: string)
    ensures var p := FirstPair(t, 0);
            if p == |t| then Collapsed(t) == Blanked(t)
            else |Collapsed(t)| > p && Collapsed(t)[..p] == Blanked(t[..p])
  {
    var p := FirstPair(t, 0);
    if t == "" {
    } else if PairAt(t, 0) {
      CollapsedIsNotEmpty(t[1..]);
    } else {
      var u, q := t[1..], FirstPair(t[1..], 0);
      CollapsedUpTo(u);
      FirstPairOfRest(t);
      assert Blanked(t[..p]) == [if IsSpace(t[0]) then ' ' else t[0]] + Blanked(u[..q]);
      assert p == |t| ==> t[..p] == t && u[..q] == u;
    }
  }

  lemma {:induction false} CollapsedIsNotEmpty(t: string)
    requires t != ""
    ensures Collapsed(t) != ""
  {
    if PairAt(t, 0) {
      CollapsedIsNotEmpty(t[1..]);
    }
  }

  lemma {:induction false} FirstPairOfRest(t: string)
    requires t != "" && !PairAt(t, 0)
    ensures FirstPair(t, 0) == FirstPair(t[1..], 0) + 1
  {
    var u := t[1..];
    assert forall i: nat {:trigger PairAt(u, i)} :: PairAt(u, i) == PairAt(t, i + 1);
    var q := FirstPair(u, 0);
    assert forall j :: 0 < j < q + 1 ==> (PairAt(u, j - 1) == PairAt(t, j));
  }

  /** The loop does collapse runs exactly on lines that have none of two or more inside; the others it cuts. */
  lemma {:induction false} CleanCollapsesIff(s: string)
    ensures Cleaned(s) == Collapsed(Trimmed(s)) <==> !HasPair(Trimmed(s))
  {
    var t := Trimmed(s);
    CollapsedUpTo(t);
    assert FirstPair(t, 0) == |t| ==> t[..FirstPair(t, 0)] == t;
    assert FirstPair(t, 0) < |t| <==> HasPair(t);
  }

  /** Up to the first pair of white space characters the trimmed line stays, blanked; from there on it is gone. */
  lemma {:induction false} CleanedStopsAtPair(s: string)
    ensures var t, r := Trimmed(s), Cleaned(s);
            && |r| <= |t| && (|r| < |t| ==> PairAt(t, |r|)) && (forall i :: 0 <= i < |r| ==> !PairAt(t, i))
            && forall i {:trigger r[i]} :: 0 <= i < |r| ==> r[i] == if IsSpace(t[i]) then ' ' else t[i]
  {
    var t := Trimmed(s);
    assert forall i {:trigger t[..FirstPair(t, 0)][i]} :: 0 <= i < FirstPair(t, 0) ==> t[..FirstPair(t, 0)][i] == t[i];
  }

  /** A single one of the six white space characters becomes a blank, and any other character stays. */
  lemma {:induction false} CleanKnowsSix(c: char)
    ensures Cleaned("a" + [c] + "b") == "a" + [if c in " \t\r\n\U{000B}\U{000C}" then ' ' else c] + "b"
  {
    var s := "a" + [c] + "b";
    assert s[0] == 'a' && s[1] == c && s[2] == 'b' && |s| == 3;
    TrimKeeps(s);
    assert !PairAt(s, 0) && !PairAt(s, 1) && !PairAt(s, 2);
    assert FirstPair(s, 0) == 3 && s[..3] == s;
  }

  /** Two blanks inside a line cost the rest of it. */
  lemma {:induction false} CleanCanCut()
    ensures Cleaned("a  b") == "a" && Collapsed(Trimmed("a  b")) == "a b"
  {
    var s := "a  b";
    assert HasInkEnds(s);
    TrimKeeps(s);
    assert !PairAt(s, 0) && PairAt(s, 1) && !PairAt(s, 2);
    assert FirstPair(s, 1) == 1 && FirstPair(s, 0) == 1;
    assert s[..1] == "a" && Blanked("a") == "a";
    var t := s[1..];
    assert t == "  b" && t[1..] == " b" && t[1..][1..] == "b" && t[1..][1..][1..] == "";
    assert PairAt(t, 0) && !PairAt(" b", 0) && !PairAt("b", 0);
    assert Collapsed("b") == "b" && Collapsed(" b") == " b" && Collapsed(t) == " b";
  }

  // ----- DivideIntoLines -----

  function FindNewline(code: string, s: nat): (e: nat)
    requires s <= |code|
    ensures s <= e <= |code|
    ensures forall i :: s <= i < e ==> code[i] != '\n'
    ensures e < |code| ==> code[e] == '\n'
    decreases |code| - s
  {
    if s < |code| && code[s] != '\n' then FindNewline(code, s + 1) else s
  }

  /** The lines of code from index s on; a final newline does not start another line. */
  function SplitFrom(code: string, s: nat): seq<string>
    requires s <= |code|
    decreases |code| - s
  {
    if s == |code| then []
    else
      var e := FindNewline(code, s);
      [code[s..e]] + SplitFrom(code, if e < |code| then e + 1 else e)
  }

  function CleanedAll(raw: seq<string>): (lines: seq<string>)
    ensures |lines| == |raw|
    ensures forall i {:trigger lines[i]} :: 0 <= i < |raw| ==> lines[i] == Cleaned(raw[i])
  {
    seq(|raw|, i requires 0 <= i < |raw| => Cleaned(raw[i]))
  }

  lemma CleanedAllAppend(raw: seq<string>, line: string)
    ensures CleanedAll(raw + [line]) == CleanedAll(raw) + [Cleaned(line)]
  {
  }

  function LinesOf(code: string): seq<string>
  {
    CleanedAll(SplitFrom(code, 0))
  }

  lemma SplitFurther(code: string, s: nat, e: nat, next: nat, raw: seq<string>)
    requires s < |code| && e == FindNewline(code, s) && next == if e < |code| then e + 1 else |code|
    requires SplitFrom(code, 0) == raw + SplitFrom(code, s)
    ensures SplitFrom(code, 0) == raw + [code[s..e]] + SplitFrom(code, next)
  {
    Lists.Regrouped(raw, [code[s..e]], SplitFrom(code, next));
  }

  method DivideIntoLines(code: string) returns (lines: seq<string>)
    ensures lines == LinesOf(code)
    ensures |lines| == |SplitFrom(code, 0)|
    ensures forall i {:trigger lines[i]} :: 0 <= i < |lines| ==> lines[i] == Cleaned(SplitFrom(code, 0)[i])
  {
    lines := [];
    ghost var raw := [];
    var s := 0;
    while s < |code|
      invariant lines == CleanedAll(raw)
      invariant SplitFrom(code, 0) == raw + SplitFrom(code, if s <= |code| then s else |code|)
    {
      var e := FindNewline(code, s);
      var line := CleanWhiteSpace(code[s..e]);
      SplitFurther(code, s, e, if e < |code| then e + 1 else |code|, raw);
      CleanedAllAppend(raw, code[s..e]);
      lines := lines + [line];
      raw := raw + [code[s..e]];
      s := e + 1;
    }
    assert raw + [] == raw;
  }

  /** Every raw line ended by a newline. */
  function Joined(raw: seq<string>): string
  {
    if raw == [] then "" else raw[0] + "\n" + Joined(raw[1..])
  }

  /** Splitting loses nothing: joined again, the lines give the text back, with its last newline if it lacked one. */
  lemma {:induction false} SplitIsLossless(code: string, s: nat)
    requires s <= |code|
    ensures Joined(SplitFrom(code, s)) == code[s..] + MissingNewline(code, s)
    decreases |code| - s
  {
    if s < |code| {
      var e := FindNewline(code, s);
      if e < |code| {
        SplitIsLossless(code, e + 1);
        JoinedCons(code[s..e], SplitFrom(code, e + 1));
        CutAtNewline(code, s, e);
      } else {
        LastLineIsLossless(code, s);
      }
    }
  }

  lemma {:induction false} LastLineIsLossless(code: string, s: nat)
    requires s < |code| == FindNewline(code, s)
    ensures Joined(SplitFrom(code, s)) == code[s..] + MissingNewline(code, s)
  {
    JoinedCons(code[s..], []);
    assert code[s..|code|] == code[s..];
  }

  lemma JoinedCons(line: string, rest: seq<string>)
    ensures Joined([line] + rest) == line + "\n" + Joined(rest)
  {
    assert ([line] + rest)[1..] == rest;
  }

  lemma CutAtNewline(code: string, s: nat, e: nat)
    requires s <= e < |code| && code[e] == '\n'
    ensures code[s..e] + "\n" + (code[e + 1..] + MissingNewline(code, e + 1)) == code[s..] + MissingNewline(code, s)
  {
    assert code[s..] == code[s..e] + ([code[e]] + code[e + 1..]);
  }

  function MissingNewline(code: string, s: nat): string
    requires s <= |code|
  {
    if s < |code| && code[|code| - 1] != '\n' then "\n" else ""
  }

  lemma {:induction false} LinesHoldNoNewline(code: string, s: nat, i: nat)
    requires s <= |code| && i < |SplitFrom(code, s)|
    ensures '\n' !in SplitFrom(code, s)[i]
    decreases |code| - s
  {
    if i > 0 {
      var e := FindNewline(code, s);
      LinesHoldNoNewline(code, if e < |code| then e + 1 else e, i - 1);
    }
  }

  // ----- The lines of a text that is put together from lines -----

  predicate IsOneLine(line: string)
  {
    '\n' !in line
  }

  /** The line stands in code from s on, with its newline. */
  predicate LineIsAt(code: string, s: nat, line: string)
  {
    && s + |line| < |code| && code[s + |line|] == '\n'
    && forall i {:trigger code[i]} :: s <= i < s + |line| ==> code[i] == line[i - s] && code[i] != '\n'
  }

  /** The lines stand in code from s on to its end. */
  predicate LinesAreAt(code: string, s: nat, raw: seq<string>)
    decreases |raw|
  {
    if raw == [] then s == |code| else LineIsAt(code, s, raw[0]) && LinesAreAt(code, s + |raw[0]| + 1, raw[1..])
  }

  lemma {:induction false} SplitFinds(code: string, s: nat, raw: seq<string>)
    requires LinesAreAt(code, s, raw)
    ensures s <= |code| && SplitFrom(code, s) == raw
    decreases |raw|
  {
    if raw != [] {
      var e := s + |raw[0]|;
      assert FindNewline(code, s) == e;
      assert code[s..e] == raw[0];
      SplitFinds(code, e + 1, raw[1..]);
    }
  }

  lemma {:induction false} LineIsFound(before: string, line: string, rest: string)
    requires IsOneLine(line)
    ensures LineIsAt(before + (line + "\n" + rest), |before|, line)
  {
    var code := before + (line + "\n" + rest);
    forall i {:trigger code[i]} | |before| <= i < |before| + |line|
      ensures code[i] == line[i - |before|] && code[i] != '\n'
    {
      assert line[i - |before|] in line;
    }
  }

  lemma {:induction false} LinesAreFound(before: string, raw: seq<string>)
    requires forall line :: line in raw ==> IsOneLine(line)
    ensures LinesAreAt(before + Joined(raw), |before|, raw)
    decreases |raw|
  {
    if raw != [] {
      var line, rest := raw[0], Joined(raw[1..]);
      assert raw[0] in raw;
      LineIsFound(before, line, rest);
      Lists.Regrouped(before, line + "\n", rest);
      LinesAreFound(before + (line + "\n"), raw[1..]);
    }
  }

  /** Splitting gives back the lines that a text was put together from. */
  lemma {:induction false} SplitOfJoined(raw: seq<string>)
    requires forall line :: line in raw ==> IsOneLine(line)
    ensures SplitFrom(Joined(raw), 0) == raw
  {
    LinesAreFound("", raw);
    assert "" + Joined(raw) == Joined(raw);
    SplitFinds(Joined(raw), 0, raw);
  }

  /** Every raw line ended by a return and a newline. */
  function JoinedWithReturns(raw: seq<string>): string
  {
    if raw == [] then "" else raw[0] + "\r\n" + JoinedWithReturns(raw[1..])
  }

  function WithReturns(raw: seq<string>): (r: seq<string>)
    ensures |r| == |raw| && forall i {:trigger r[i]} :: 0 <= i < |raw| ==> r[i] == raw[i] + "\r"
  {
    seq(|raw|, i requires 0 <= i < |raw| => raw[i] + "\r")
  }

  lemma {:induction false} ReturnsAreOnLines(raw: seq<string>)
    ensures JoinedWithReturns(raw) == Joined(WithReturns(raw))
  {
    if raw != [] {
      var rest := Joined(WithReturns(raw[1..]));
      ReturnsAreOnLines(raw[1..]);
      assert WithReturns(raw)[1..] == WithReturns(raw[1..]);
      assert raw[0] + "\r\n" + rest == (raw[0] + "\r") + "\n" + rest;
    }
  }

  lemma {:induction false} ReturnsKeepLines(raw: seq<string>)
    requires forall line :: line in raw ==> IsOneLine(line)
    ensures forall line :: line in WithReturns(raw) ==> IsOneLine(line)
  {
    var returned := WithReturns(raw);
    forall line | line in returned
      ensures IsOneLine(line)
    {
      var i :| 0 <= i < |raw| && returned[i] == line;
      assert raw[i] in raw;
    }
  }

  lemma {:induction false} ReturnIsCleaned(line: string)
    ensures Cleaned(line + "\r") == Cleaned(line)
  {
    TrimIgnoresTrail(line, "\r");
  }

  /** So it does not matter which of the two line ends a text has. */
  lemma {:induction false} LineEndsAreInvisible(raw: seq<string>)
    requires forall line :: line in raw ==> IsOneLine(line)
    ensures LinesOf(JoinedWithReturns(raw)) == LinesOf(Joined(raw))
  {
    ReturnsKeepLines(raw);
    ReturnsAreOnLines(raw);
    SplitOfJoined(raw);
    SplitOfJoined(WithReturns(raw));
    forall i | 0 <= i < |raw|
      ensures CleanedAll(WithReturns(raw))[i] == CleanedAll(raw)[i]
    {
      ReturnIsCleaned(raw[i]);
    }
  }
}
