/** Commenting and uncommenting the selected lines of a script (CodeEdit). */
module CommentBlock {
  import opened LineText
  import Lists

  const INT_MAX: int := 0x7fff_ffff
  const LUA_COMMENT := "--"

  // ----- One line -----

  function FirstNonWhitespaceFrom(text: string, i: nat): (c: int)
    requires i <= |text|
    ensures c == -1 || i <= c < |text|
    decreases |text| - i
  {
    if i == |text| then -1
    else if !IsSpace(text[i]) then i
    else FirstNonWhitespaceFrom(text, i + 1)
  }

  /** The index of the first character that is not white space, -1 on a blank line. */
  function FirstNonWhitespace(text: string): (c: int)
    ensures -1 <= c < |text|
  {
    FirstNonWhitespaceFrom(text, 0)
  }

  /** What comes before the found character, or all if there is none, is white space. */
  lemma {:induction false} FirstNonWhitespaceMeans(text: string, i: nat)
    requires i <= |text|
    ensures var c := FirstNonWhitespaceFrom(text, i);
            && (c != -1 ==> !IsSpace(text[c]))
            && forall k {:trigger text[k]} :: i <= k < (if c == -1 then |text| else c) ==> IsSpace(text[k])
    decreases |text| - i
  {
    if i < |text| && IsSpace(text[i]) {
      FirstNonWhitespaceMeans(text, i + 1);
    }
  }

  lemma {:induction false} FirstNonWhitespaceIs(text: string, c: nat)
    requires c < |text| && !IsSpace(text[c])
    requires forall k :: 0 <= k < c ==> IsSpace(text[k])
    ensures FirstNonWhitespace(text) == c
  {
    FirstNonWhitespaceMeans(text, 0);
  }

  predicate IsBlank(line: string)
  {
    FirstNonWhitespace(line) == -1
  }

  function CommentedLine(line: string, column: nat, marker: string): string
    requires IsBlank(line) || column <= FirstNonWhitespace(line)
  {
    if IsBlank(line) then line else line[..column] + marker + line[column..]
  }

  function UncommentedLine(line: string, marker: string): string
  {
    var c := FirstNonWhitespace(line);
    if c != -1 && c + |marker| <= |line| && line[c..c + |marker|] == marker then line[..c] + line[c + |marker|..]
    else line
  }

  /** A marker that does not begin with white space becomes the first thing on the line. */
  lemma {:induction false} MarkerComesFirst(line: string, column: nat, marker: string)
    requires !IsBlank(line) && column <= FirstNonWhitespace(line)
    requires marker != "" && !IsSpace(marker[0])
    ensures FirstNonWhitespace(CommentedLine(line, column, marker)) == column
  {
    var r := CommentedLine(line, column, marker);
    FirstNonWhitespaceMeans(line, 0);
    assert r[column] == marker[0];
    assert forall k :: 0 <= k < column ==> r[k] == line[k];
    FirstNonWhitespaceIs(r, column);
  }

  lemma {:induction false} ErasesMarker(head: string, marker: string, tail: string)
    requires FirstNonWhitespace(head + marker + tail) == |head|
    ensures UncommentedLine(head + marker + tail, marker) == head + tail
  {
    var r := head + marker + tail;
    assert r[|head|..|head| + |marker|] == marker;
    assert r[..|head|] == head;
    assert r[|head| + |marker|..] == tail;
  }

  lemma {:induction false} UncommentsLine(line: string, column: nat, marker: string)
    requires IsBlank(line) || column <= FirstNonWhitespace(line)
    requires marker == "" || !IsSpace(marker[0])
    ensures UncommentedLine(CommentedLine(line, column, marker), marker) == line
  {
    if !IsBlank(line) && marker != "" {
      MarkerComesFirst(line, column, marker);
      var head, tail := line[..column], line[column..];
      assert line == head + tail;
      assert CommentedLine(line, column, marker) == head + marker + tail;
      ErasesMarker(head, marker, tail);
    } else {
      assert IsBlank(line) || line[..column] + marker + line[column..] == line;
    }
  }

  /** The first character of the line that is not white space is at c. */
  predicate InkIsAt(line: string, c: nat)
  {
    c < |line| && !IsSpace(line[c]) && forall k {:trigger line[k]} :: 0 <= k < c ==> IsSpace(line[k])
  }

  /** The marker is the first thing on the line but for white space, at c. */
  predicate MarkerIsAt(line: string, c: nat, marker: string)
  {
    InkIsAt(line, c) && c + |marker| <= |line| && line[c..c + |marker|] == marker
  }

  /**
   Uncommenting takes exactly the characters of the marker out where it comes first on the line, and leaves any other
   line as it is.
   */
  lemma {:induction false} UncommentTakesMarker(line: string, marker: string, c: nat)
    ensures MarkerIsAt(line, c, marker) ==> UncommentedLine(line, marker) == line[..c] + line[c + |marker|..]
    ensures InkIsAt(line, c) && !MarkerIsAt(line, c, marker) ==> UncommentedLine(line, marker) == line
    ensures (forall k {:trigger line[k]} :: 0 <= k < |line| ==> IsSpace(line[k])) ==>
              UncommentedLine(line, marker) == line
  {
    FirstNonWhitespaceMeans(line, 0);
    if InkIsAt(line, c) {
      FirstNonWhitespaceIs(line, c);
    }
  }

  /** A marker that begins with white space is never found again. */
  lemma {:induction false} MarkerIsLost(line: string, marker: string)
    requires marker != "" && IsSpace(marker[0])
    ensures UncommentedLine(line, marker) == line
  {
    var c := FirstNonWhitespace(line);
    FirstNonWhitespaceMeans(line, 0);
    if c != -1 && c + |marker| <= |line| {
      assert line[c..c + |marker|][0] == line[c];
    }
  }

  // ----- The lines from s up to but not including n -----

  predicate IsRange(lines: seq<string>, s: nat, n: nat)
  {
    s <= n <= |lines|
  }

  predicate AllBlank(lines: seq<string>, s: nat, n: nat)
    requires IsRange(lines, s, n)
  {
    forall i :: s <= i < n ==> IsBlank(lines[i])
  }

  /** The smallest indentation in the range, blank lines aside. */
  function MinIndentation(lines: seq<string>, s: nat, n: nat): (m: nat)
    requires IsRange(lines, s, n)
    ensures forall i :: s <= i < n && !IsBlank(lines[i]) ==> m <= FirstNonWhitespace(lines[i])
  {
    if s == n then INT_MAX
    else
      var m := MinIndentation(lines, s, n - 1);
      var c := FirstNonWhitespace(lines[n - 1]);
      if c != -1 && c < m then c else m
  }

  function Commented(lines: seq<string>, s: nat, n: nat, marker: string): (r: seq<string>)
    requires IsRange(lines, s, n)
    ensures |r| == |lines|
  {
    var column := MinIndentation(lines, s, n);
    seq(|lines|, i requires 0 <= i < |lines| =>
      if s <= i < n then CommentedLine(lines[i], column, marker) else lines[i])
  }

  function Uncommented(lines: seq<string>, s: nat, n: nat, marker: string): (r: seq<string>)
    requires IsRange(lines, s, n)
    ensures |r| == |lines|
  {
    seq(|lines|, i requires 0 <= i < |lines| => if s <= i < n then UncommentedLine(lines[i], marker) else lines[i])
  }

  /** Some line attains the smallest indentation, unless it is cut off at INT_MAX. */
  lemma {:induction false} MinIndentationIsAttained(lines: seq<string>, s: nat, n: nat)
    requires IsRange(lines, s, n)
    ensures MinIndentation(lines, s, n) == INT_MAX ||
            exists i :: s <= i < n && !IsBlank(lines[i]) && MinIndentation(lines, s, n) == FirstNonWhitespace(lines[i])
    ensures MinIndentation(lines, s, n) <= INT_MAX
  {
    if s < n {
      MinIndentationIsAttained(lines, s, n - 1);
      if !IsBlank(lines[n - 1]) && FirstNonWhitespace(lines[n - 1]) == MinIndentation(lines, s, n) {
        assert !IsBlank(lines[n - 1]);
      }
    }
  }

  /** The markers stand in one column, which every further comment uses again. */
  lemma {:induction false} MarkersAlign(lines: seq<string>, s: nat, n: nat, marker: string)
    requires IsRange(lines, s, n) && marker != "" && !IsSpace(marker[0])
    ensures forall i {:trigger lines[i]} :: s <= i < n && !IsBlank(lines[i]) ==>
              FirstNonWhitespace(Commented(lines, s, n, marker)[i]) == MinIndentation(lines, s, n)
    ensures MinIndentation(Commented(lines, s, n, marker), s, n) == MinIndentation(lines, s, n)
  {
    var column := MinIndentation(lines, s, n);
    var r := Commented(lines, s, n, marker);
    forall i {:trigger lines[i]} | s <= i < n && !IsBlank(lines[i])
      ensures FirstNonWhitespace(r[i]) == column
    {
      MarkerComesFirst(lines[i], column, marker);
    }
    MinIndentationIsAttained(lines, s, n);
    MinIndentationIsAttained(r, s, n);
    if column != INT_MAX {
      var i :| s <= i < n && !IsBlank(lines[i]) && column == FirstNonWhitespace(lines[i]);
      assert !IsBlank(r[i]);
    }
  }

  /**
   Uncommenting takes back exactly what commenting did, unless the marker begins with white space and was inserted.
   */
  lemma {:induction false} UncommentUndoesCommentIff(lines: seq<string>, s: nat, n: nat, marker: string)
    requires IsRange(lines, s, n)
    ensures Uncommented(Commented(lines, s, n, marker), s, n, marker) == lines <==>
            marker == "" || !IsSpace(marker[0]) || AllBlank(lines, s, n)
  {
    var column := MinIndentation(lines, s, n);
    var r := Commented(lines, s, n, marker);
    if marker == "" || !IsSpace(marker[0]) {
      forall i | s <= i < n
        ensures UncommentedLine(r[i], marker) == lines[i]
      {
        UncommentsLine(lines[i], column, marker);
      }
    } else {
      forall i | s <= i < n
        ensures UncommentedLine(r[i], marker) == lines[i] <==> IsBlank(lines[i])
      {
        MarkerIsLost(r[i], marker);
        assert !IsBlank(lines[i]) ==> |r[i]| == |lines[i]| + |marker|;
      }
      assert forall i :: s <= i < n ==> Uncommented(r, s, n, marker)[i] == UncommentedLine(r[i], marker);
    }
  }

  // ----- A text as lines, each with its newline -----

  /** The lines of the first n characters. */
  function SplitTo(text: string, n: nat): (lines: seq<string>)
    requires n <= |text|
    ensures lines != []
  {
    if n == 0 then [""]
    else
      var lines := SplitTo(text, n - 1);
      var longer := lines[|lines| - 1 := lines[|lines| - 1] + [text[n - 1]]];
      if text[n - 1] == '\n' then longer + [""] else longer
  }

  function Split(text: string): (lines: seq<string>)
    ensures lines != []
  {
    SplitTo(text, |text|)
  }

  /** The lines of the range put together. */
  function JoinedRange(lines: seq<string>, s: nat, n: nat): string
    requires IsRange(lines, s, n)
  {
    if s == n then "" else JoinedRange(lines, s, n - 1) + lines[n - 1]
  }

  function Joined(lines: seq<string>): string
  {
    JoinedRange(lines, 0, |lines|)
  }

  predicate EndsInNewline(line: string)
  {
    line != "" && line[|line| - 1] == '\n' && forall k :: 0 <= k < |line| - 1 ==> line[k] != '\n'
  }

  /** The lines of a document: only the last is without its newline, and may be empty. */
  predicate IsDocument(lines: seq<string>)
  {
    && lines != []
    && (forall i :: 0 <= i < |lines| - 1 ==> EndsInNewline(lines[i]))
    && '\n' !in lines[|lines| - 1]
  }

  lemma {:induction false} JoinedInTwo(lines: seq<string>, s: nat, m: nat, n: nat)
    requires s <= m <= n <= |lines|
    ensures JoinedRange(lines, s, n) == JoinedRange(lines, s, m) + JoinedRange(lines, m, n)
  {
    if m < n {
      JoinedInTwo(lines, s, m, n - 1);
    }
  }

  lemma {:induction false} JoinedAlike(a: seq<string>, b: seq<string>, s: nat, n: nat)
    requires IsRange(a, s, n) && n <= |b| && forall i {:trigger a[i]} :: s <= i < n ==> a[i] == b[i]
    ensures JoinedRange(a, s, n) == JoinedRange(b, s, n)
  {
    if s < n {
      JoinedAlike(a, b, s, n - 1);
    }
  }

  // ----- Positions -----

  /** The position at which line i begins. */
  function LineStart(lines: seq<string>, i: nat): nat
    requires i <= |lines|
  {
    if i == 0 then 0 else LineStart(lines, i - 1) + |lines[i - 1]|
  }

  lemma {:induction false} LineStartIs(lines: seq<string>, i: nat)
    requires i <= |lines|
    ensures LineStart(lines, i) == |JoinedRange(lines, 0, i)|
  {
    if i > 0 {
      LineStartIs(lines, i - 1);
    }
  }

  lemma {:induction false} LineStartsAscend(lines: seq<string>, i: nat, j: nat)
    requires i <= j <= |lines|
    ensures LineStart(lines, i) <= LineStart(lines, j)
  {
    if i < j {
      LineStartsAscend(lines, i, j - 1);
    }
  }

  /** The last line up to i that begins at or before the position. */
  function LineAt(lines: seq<string>, position: nat, i: nat): (r: nat)
    requires i < |lines|
    ensures r <= i && LineStart(lines, r) <= position
    ensures r < i ==> position < LineStart(lines, r + 1)
  {
    if i == 0 || LineStart(lines, i) <= position then i else LineAt(lines, position, i - 1)
  }

  function LineFromPosition(lines: seq<string>, position: nat): (r: nat)
    requires lines != []
    ensures r < |lines|
  {
    LineAt(lines, position, |lines| - 1)
  }

  lemma {:induction false} LineFromPositionIs(lines: seq<string>, position: nat, i: nat)
    requires i < |lines| && LineStart(lines, i) <= position < LineStart(lines, i + 1)
    ensures LineFromPosition(lines, position) == i
  {
    var r := LineFromPosition(lines, position);
    if r < i {
      LineStartsAscend(lines, r + 1, i);
    } else if r > i {
      LineStartsAscend(lines, i + 1, r);
    }
  }

  lemma {:induction false} LinesInOrder(lines: seq<string>, start: nat, end: nat)
    requires lines != [] && start <= end
    ensures LineFromPosition(lines, start) <= LineFromPosition(lines, end)
  {
    var s, e := LineFromPosition(lines, start), LineFromPosition(lines, end);
    if e < s {
      LineStartsAscend(lines, e + 1, s);
    }
  }

  // ----- Splitting and joining are inverses -----

  lemma {:induction false} SplitToKeepsText(text: string, n: nat)
    requires n <= |text|
    ensures Joined(SplitTo(text, n)) == text[..n]
    ensures IsDocument(SplitTo(text, n))
  {
    if n > 0 {
      SplitToKeepsText(text, n - 1);
      var lines, longer := SplitTo(text, n - 1), SplitTo(text, n);
      var last := |lines| - 1;
      JoinedAlike(lines, longer, 0, last);
      assert Joined(lines) == JoinedRange(lines, 0, last) + lines[last];
      assert JoinedRange(longer, 0, last + 1) == JoinedRange(longer, 0, last) + longer[last];
      assert text[..n] == text[..n - 1] + [text[n - 1]];
    } else {
      assert JoinedRange([""], 0, 1) == JoinedRange([""], 0, 0) + "";
    }
  }

  lemma {:induction false} SplitKeepsText(text: string)
    ensures Joined(Split(text)) == text
    ensures IsDocument(Split(text))
  {
    SplitToKeepsText(text, |text|);
  }

  lemma {:induction false} JoinedIndex(lines: seq<string>, n: nat, i: nat, k: nat)
    requires i < n <= |lines| && k < |lines[i]|
    ensures LineStart(lines, i) + k < |JoinedRange(lines, 0, n)|
    ensures JoinedRange(lines, 0, n)[LineStart(lines, i) + k] == lines[i][k]
  {
    LineStartIs(lines, i);
    if i < n - 1 {
      JoinedIndex(lines, n - 1, i, k);
    }
  }

  /** One character further. */
  lemma {:induction false} SplitToNext(text: string, n: nat, before: seq<string>, line: string, longer: string)
    requires n < |text| && SplitTo(text, n) == before + [line] && longer == line + [text[n]]
    ensures SplitTo(text, n + 1) == if text[n] == '\n' then before + [longer] + [""] else before + [longer]
  {
    assert (before + [line])[|before| := longer] == before + [longer];
  }

  lemma {:induction false} NextInLine(lines: seq<string>, text: string, i: nat, k: nat, n: nat)
    requires IsDocument(lines) && text == Joined(lines) && i < |lines| && n == LineStart(lines, i) + k
    requires k < |lines[i]| && (k + 1 == |lines[i]| ==> i == |lines| - 1)
    requires n <= |text| && SplitTo(text, n) == lines[..i] + [lines[i][..k]]
    ensures n + 1 <= |text| && SplitTo(text, n + 1) == lines[..i] + [lines[i][..k + 1]]
  {
    JoinedIndex(lines, |lines|, i, k);
    Lists.TakeOneMore(lines[i], k);
    SplitToNext(text, n, lines[..i], lines[i][..k], lines[i][..k + 1]);
  }

  lemma {:induction false} NextLine(lines: seq<string>, text: string, i: nat, k: nat, n: nat)
    requires IsDocument(lines) && text == Joined(lines) && i + 1 < |lines| && n == LineStart(lines, i) + k
    requires k + 1 == |lines[i]|
    requires n <= |text| && SplitTo(text, n) == lines[..i] + [lines[i][..k]]
    ensures n + 1 <= |text| && SplitTo(text, n + 1) == lines[..i + 1] + [""]
  {
    assert EndsInNewline(lines[i]);
    JoinedIndex(lines, |lines|, i, k);
    Lists.TakeOneMore(lines[i], k);
    assert lines[i][..k + 1] == lines[i];
    SplitToNext(text, n, lines[..i], lines[i][..k], lines[i]);
    Lists.TakeOneMore(lines, i);
  }

  /** After k characters of line i the lines before it are complete. */
  lemma {:induction false} SplitToInside(lines: seq<string>, text: string, i: nat, k: nat)
    requires IsDocument(lines) && text == Joined(lines)
    requires i < |lines| && k <= |lines[i]| && (k == |lines[i]| ==> i == |lines| - 1)
    ensures LineStart(lines, i) + k <= |text|
    ensures SplitTo(text, LineStart(lines, i) + k) == lines[..i] + [lines[i][..k]]
    decreases i, k
  {
    if k > 0 {
      SplitToInside(lines, text, i, k - 1);
      NextInLine(lines, text, i, k - 1, LineStart(lines, i) + k - 1);
    } else if i > 0 {
      assert EndsInNewline(lines[i - 1]);
      SplitToInside(lines, text, i - 1, |lines[i - 1]| - 1);
      NextLine(lines, text, i - 1, |lines[i - 1]| - 1, LineStart(lines, i) - 1);
    }
  }

  lemma {:induction false} SplitJoined(lines: seq<string>)
    requires IsDocument(lines)
    ensures Split(Joined(lines)) == lines
  {
    var last := |lines| - 1;
    SplitToInside(lines, Joined(lines), last, |lines[last]|);
    LineStartIs(lines, |lines|);
    assert lines[last][..|lines[last]|] == lines[last];
    assert lines == lines[..last] + [lines[last]];
  }

  // ----- The commands -----

  /** The text and the selection, from its start up to but not including its end. */
  datatype Document = Document(text: string, selectionStart: int, selectionEnd: int)

  predicate HasSelection(d: Document)
  {
    0 <= d.selectionStart < d.selectionEnd <= |d.text|
  }

  datatype Command = Comment | Uncomment

  function Changed(lines: seq<string>, s: nat, n: nat, command: Command, marker: string): (r: seq<string>)
    requires IsRange(lines, s, n)
    ensures |r| == |lines|
  {
    if command.Comment? then Commented(lines, s, n, marker) else Uncommented(lines, s, n, marker)
  }

  /** The text of the range is replaced, and what replaces it is selected up to its last character. */
  function Replaced(lines: seq<string>, s: nat, n: nat, result: string): Document
    requires IsRange(lines, s, n)
  {
    Document(JoinedRange(lines, 0, s) + result + JoinedRange(lines, n, |lines|),
             LineStart(lines, s), LineStart(lines, s) + |result| - 1)
  }

  /** The command applied to the lines from s to e. */
  function PressedOn(lines: seq<string>, s: nat, e: nat, command: Command, marker: string): Document
    requires s <= e < |lines|
  {
    Replaced(lines, s, e + 1, JoinedRange(Changed(lines, s, e + 1, command, marker), s, e + 1))
  }

  /** The command applied to the lines that the selection touches. */
  function Pressed(d: Document, command: Command, marker: string): Document
  {
    if !HasSelection(d) then d
    else
      var lines := Split(d.text);
      LinesInOrder(lines, d.selectionStart, d.selectionEnd);
      PressedOn(lines, LineFromPosition(lines, d.selectionStart), LineFromPosition(lines, d.selectionEnd),
                command, marker)
  }

  function Presser(command: Command, marker: string): Document -> Document
  {
    d => Pressed(d, command, marker)
  }

  function Iterated<T>(f: T -> T, x: T, n: nat): T
  {
    if n == 0 then x else f(Iterated(f, x, n - 1))
  }

  /** f takes x to y in n steps. */
  predicate LeadsTo<T(==)>(f: T -> T, x: T, n: nat, y: T)
  {
    Iterated(f, x, n) == y
  }

  lemma {:induction false} RunLeadsTo<T>(f: T -> T, run: seq<T>, n: nat)
    requires n < |run| && forall j, k :: 0 <= j && j + 1 == k <= n ==> LeadsTo(f, run[j], 1, run[k])
    ensures LeadsTo(f, run[0], n, run[n])
  {
    if n > 0 {
      RunLeadsTo(f, run, n - 1);
      assert Iterated(f, run[n - 1], 1) == f(Iterated(f, run[n - 1], 0));
    }
  }

  lemma {:induction false} ThenLeadsTo<T>(f: T -> T, x: T, y: T, n: nat, z: T)
    requires n > 0 && LeadsTo(f, x, 1, y) && LeadsTo(f, y, n - 1, z)
    ensures LeadsTo(f, x, n, z)
  {
    if n > 1 {
      ThenLeadsTo(f, x, y, n - 1, Iterated(f, y, n - 2));
    }
  }

  lemma {:induction false} DescentLeadsTo<T>(f: T -> T, run: seq<T>, n: nat)
    requires n < |run| && forall j, k :: 0 <= j && j + 1 == k <= n ==> LeadsTo(f, run[k], 1, run[j])
    ensures LeadsTo(f, run[n], n, run[0])
  {
    if n > 0 {
      DescentLeadsTo(f, run, n - 1);
      ThenLeadsTo(f, run[n], run[n - 1], n, run[0]);
    }
  }

  // ----- What a command does to the lines -----

  /** Only lines of the range differ. */
  predicate DifferWithin(a: seq<string>, b: seq<string>, s: nat, n: nat)
    requires IsRange(a, s, n)
  {
    |a| == |b| && forall i {:trigger b[i]} :: 0 <= i < |a| && !(s <= i < n) ==> a[i] == b[i]
  }

  /** Replacing text from line start to line start is replacing lines. */
  lemma {:induction false} ReplacedLines(lines: seq<string>, s: nat, n: nat, lines': seq<string>)
    requires IsRange(lines, s, n) && DifferWithin(lines, lines', s, n)
    ensures Replaced(lines, s, n, JoinedRange(lines', s, n)) ==
            Document(Joined(lines'), LineStart(lines', s), LineStart(lines', n) - 1)
  {
    JoinedInTwo(lines', 0, s, n);
    JoinedInTwo(lines', 0, n, |lines|);
    JoinedAlike(lines', lines, 0, s);
    JoinedAlike(lines', lines, n, |lines|);
    LineStartIs(lines, s);
    LineStartIs(lines', s);
    LineStartIs(lines', n);
  }

  /** The document as a command leaves it: the lines from s to e are selected, less their last character. */
  function Shown(lines: seq<string>, s: nat, e: nat): Document
    requires s <= e < |lines|
  {
    Document(Joined(lines), LineStart(lines, s), LineStart(lines, e + 1) - 1)
  }

  lemma {:induction false} SelectedLines(lines: seq<string>, s: nat, e: nat)
    requires IsDocument(lines) && s <= e < |lines| && lines[e] != ""
    ensures 0 < LineStart(lines, e + 1) <= |Joined(lines)|
    ensures LineFromPosition(lines, LineStart(lines, s)) == s
    ensures LineFromPosition(lines, LineStart(lines, e + 1) - 1) == e
  {
    assert s < e ==> EndsInNewline(lines[s]);
    LineFromPositionIs(lines, LineStart(lines, s), s);
    LineFromPositionIs(lines, LineStart(lines, e + 1) - 1, e);
    LineStartsAscend(lines, e + 1, |lines|);
    LineStartIs(lines, |lines|);
  }

  lemma {:induction false} ChangedWithin(lines: seq<string>, s: nat, n: nat, command: Command, marker: string)
    requires IsRange(lines, s, n)
    ensures DifferWithin(lines, Changed(lines, s, n, command, marker), s, n)
  {
  }

  lemma {:induction false} PressedOnShows(lines: seq<string>, s: nat, e: nat, command: Command, marker: string)
    requires s <= e < |lines|
    ensures PressedOn(lines, s, e, command, marker) == Shown(Changed(lines, s, e + 1, command, marker), s, e)
  {
    ChangedWithin(lines, s, e + 1, command, marker);
    ReplacedLines(lines, s, e + 1, Changed(lines, s, e + 1, command, marker));
  }

  lemma {:induction false} PressedIs(d: Document, lines: seq<string>, s: nat, e: nat, command: Command, marker: string)
    requires HasSelection(d) && Split(d.text) == lines && s <= e < |lines|
    requires LineFromPosition(lines, d.selectionStart) == s && LineFromPosition(lines, d.selectionEnd) == e
    ensures Pressed(d, command, marker) == PressedOn(lines, s, e, command, marker)
  {
  }

  /** A command changes the selected lines, and they remain selected. */
  lemma {:induction false} PressedShows(lines: seq<string>, s: nat, e: nat, command: Command, marker: string)
    requires IsDocument(lines) && s <= e < |lines| && lines[e] != "" && HasSelection(Shown(lines, s, e))
    ensures Pressed(Shown(lines, s, e), command, marker) == Shown(Changed(lines, s, e + 1, command, marker), s, e)
  {
    SelectedLines(lines, s, e);
    SplitJoined(lines);
    PressedIs(Shown(lines, s, e), lines, s, e, command, marker);
    PressedOnShows(lines, s, e, command, marker);
  }

  // ----- Comments on comments -----

  /** A marker that survives as it is: on one line, and not taken for indentation. */
  predicate IsMarker(marker: string)
  {
    marker != "" && !IsSpace(marker[0]) && '\n' !in marker
  }

  /** The lines from s to e commented k times. */
  function Stacked(lines: seq<string>, s: nat, e: nat, marker: string, k: nat): (r: seq<string>)
    requires s <= e < |lines|
    ensures |r| == |lines|
  {
    if k == 0 then lines else Commented(Stacked(lines, s, e, marker, k - 1), s, e + 1, marker)
  }

  /** Commenting leaves the end of the line as it is. */
  lemma {:induction false} CommentKeepsLine(line: string, column: nat, marker: string)
    requires IsMarker(marker) && (IsBlank(line) || column <= FirstNonWhitespace(line))
    ensures EndsInNewline(line) ==> EndsInNewline(CommentedLine(line, column, marker))
    ensures '\n' !in line ==> '\n' !in CommentedLine(line, column, marker)
    ensures |CommentedLine(line, column, marker)| >= |line| + if IsBlank(line) then 0 else 1
    ensures IsBlank(CommentedLine(line, column, marker)) == IsBlank(line)
  {
    FirstNonWhitespaceMeans(line, 0);
    if !IsBlank(line) {
      MarkerComesFirst(line, column, marker);
    }
  }

  /** How a line may change: its end and its being blank remain, and it does not get shorter. */
  predicate IsExtension(line: string, line': string)
  {
    && (EndsInNewline(line) ==> EndsInNewline(line'))
    && ('\n' !in line ==> '\n' !in line')
    && |line| <= |line'| && IsBlank(line) == IsBlank(line')
  }

  ghost predicate AllExtended(lines: seq<string>, lines': seq<string>)
  {
    |lines| == |lines'| && forall i {:trigger lines'[i]} :: 0 <= i < |lines| ==> IsExtension(lines[i], lines'[i])
  }

  /** The lines from s to e that are not blank have become longer. */
  ghost predicate AllLonger(lines: seq<string>, lines': seq<string>, s: nat, e: nat)
    requires s <= e < |lines| == |lines'|
  {
    forall i {:trigger lines'[i]} :: s <= i <= e && !IsBlank(lines[i]) ==> |lines[i]| < |lines'[i]|
  }

  lemma {:induction false} CommentedExtends(lines: seq<string>, s: nat, e: nat, marker: string)
    requires IsMarker(marker) && s <= e < |lines|
    ensures AllExtended(lines, Commented(lines, s, e + 1, marker))
    ensures AllLonger(lines, Commented(lines, s, e + 1, marker), s, e)
  {
    forall i | s <= i <= e
      ensures IsExtension(lines[i], Commented(lines, s, e + 1, marker)[i])
      ensures !IsBlank(lines[i]) ==> |lines[i]| < |Commented(lines, s, e + 1, marker)[i]|
    {
      CommentKeepsLine(lines[i], MinIndentation(lines, s, e + 1), marker);
    }
  }

  lemma {:induction false} ExtensionsCompose(a: seq<string>, b: seq<string>, c: seq<string>, s: nat, e: nat)
    requires AllExtended(a, b) && AllExtended(b, c) && s <= e < |a| && AllLonger(b, c, s, e)
    ensures AllExtended(a, c) && AllLonger(a, c, s, e)
  {
    forall i | 0 <= i < |a|
      ensures IsExtension(a[i], c[i]) && (s <= i <= e && !IsBlank(a[i]) ==> |a[i]| < |c[i]|)
    {
      assert IsExtension(a[i], b[i]) && IsExtension(b[i], c[i]);
    }
  }

  lemma {:induction false} StackedNext(lines: seq<string>, s: nat, e: nat, marker: string, j: nat)
    requires s <= e < |lines|
    ensures Stacked(lines, s, e, marker, j + 1) == Commented(Stacked(lines, s, e, marker, j), s, e + 1, marker)
  {
  }

  lemma {:induction false} StackedExtends(lines: seq<string>, s: nat, e: nat, marker: string, k: nat)
    requires IsMarker(marker) && s <= e < |lines|
    ensures AllExtended(lines, Stacked(lines, s, e, marker, k))
    ensures k > 0 ==> AllLonger(lines, Stacked(lines, s, e, marker, k), s, e)
  {
    if k > 0 {
      var below := Stacked(lines, s, e, marker, k - 1);
      StackedExtends(lines, s, e, marker, k - 1);
      CommentedExtends(below, s, e, marker);
      ExtensionsCompose(lines, below, Commented(below, s, e + 1, marker), s, e);
    }
  }

  lemma {:induction false} StackedIsDocument(lines: seq<string>, s: nat, e: nat, marker: string, k: nat)
    requires IsMarker(marker) && IsDocument(lines) && s <= e < |lines| && lines[e] != ""
    ensures IsDocument(Stacked(lines, s, e, marker, k)) && Stacked(lines, s, e, marker, k)[e] != ""
  {
    StackedExtends(lines, s, e, marker, k);
    ExtensionIsDocument(lines, Stacked(lines, s, e, marker, k), e);
  }

  lemma {:induction false} ExtensionIsDocument(lines: seq<string>, lines': seq<string>, e: nat)
    requires IsDocument(lines) && AllExtended(lines, lines') && e < |lines| && lines[e] != ""
    ensures IsDocument(lines') && lines'[e] != ""
  {
    assert forall i :: 0 <= i < |lines| ==> IsExtension(lines[i], lines'[i]);
  }

  lemma {:induction false} LineWithin(lines: seq<string>, s: nat, i: nat, n: nat)
    requires s <= i < n <= |lines|
    ensures LineStart(lines, s) + |lines[i]| <= LineStart(lines, n)
  {
    LineStartsAscend(lines, s, i);
    LineStartsAscend(lines, i + 1, n);
  }

  /** A commented line is long enough to keep the selection from being empty. */
  lemma {:induction false} StackedIsSelected(lines: seq<string>, s: nat, e: nat, marker: string, k: nat, i: nat)
    requires IsMarker(marker) && s <= i <= e < |lines| && k > 0 && !IsBlank(lines[i])
    ensures LineStart(Stacked(lines, s, e, marker, k), s) < LineStart(Stacked(lines, s, e, marker, k), e + 1) - 1
  {
    StackedExtends(lines, s, e, marker, k);
    LineWithin(Stacked(lines, s, e, marker, k), s, i, e + 1);
    assert |lines[i]| > 0;
  }

  lemma {:induction false} BlankIsUntouched(lines: seq<string>, s: nat, e: nat, marker: string, k: nat,
                                            command: Command)
    requires s <= e < |lines| && AllBlank(lines, s, e + 1)
    ensures Stacked(lines, s, e, marker, k) == lines
    ensures Changed(lines, s, e + 1, command, marker) == lines
  {
    if k > 0 {
      BlankIsUntouched(lines, s, e, marker, k - 1, command);
    }
  }

  lemma {:induction false} StackedShows(lines: seq<string>, s: nat, e: nat, marker: string, k: nat, command: Command)
    requires IsMarker(marker) && IsDocument(lines) && s <= e < |lines| && lines[e] != "" && k > 0
    ensures LeadsTo(Presser(command, marker), Shown(Stacked(lines, s, e, marker, k), s, e), 1,
                    Shown(Changed(Stacked(lines, s, e, marker, k), s, e + 1, command, marker), s, e))
  {
    var stacked := Stacked(lines, s, e, marker, k);
    assert Iterated(Presser(command, marker), Shown(stacked, s, e), 0) == Shown(stacked, s, e);
    if HasSelection(Shown(stacked, s, e)) {
      StackedIsDocument(lines, s, e, marker, k);
      PressedShows(stacked, s, e, command, marker);
    } else {
      if !AllBlank(lines, s, e + 1) {
        var i :| s <= i <= e && !IsBlank(lines[i]);
        StackedIsSelected(lines, s, e, marker, k, i);
        StackedIsDocument(lines, s, e, marker, k);
        SelectedLines(stacked, s, e);
      }
      BlankIsUntouched(lines, s, e, marker, k, command);
    }
  }

  // ----- The first comment and the round trip -----

  lemma {:induction false} BlankLineIsIgnored(lines: seq<string>, s: nat, n: nat, marker: string)
    requires s <= n < |lines| && lines[n] == ""
    ensures Commented(lines, s, n + 1, marker) == Commented(lines, s, n, marker)
  {
    assert IsBlank(lines[n]);
  }

  /** The first selected line. */
  function FirstSelected(d: Document): (s: nat)
    requires HasSelection(d)
    ensures s < |Split(d.text)|
  {
    LineFromPosition(Split(d.text), d.selectionStart)
  }

  /** The last selected line, the empty last line of the document aside. */
  function LastSelected(d: Document): (e: int)
    requires HasSelection(d)
    ensures -1 <= e < |Split(d.text)|
  {
    var lines := Split(d.text);
    var e := LineFromPosition(lines, d.selectionEnd);
    if lines[e] == "" then e - 1 else e
  }

  lemma {:induction false} SelectedRange(d: Document)
    requires HasSelection(d)
    ensures FirstSelected(d) <= LastSelected(d) && Split(d.text)[LastSelected(d)] != ""
    ensures IsDocument(Split(d.text)) && d.text == Joined(Split(d.text))
  {
    var lines := Split(d.text);
    SplitKeepsText(d.text);
    LinesInOrder(lines, d.selectionStart, d.selectionEnd);
    LineStartIs(lines, |lines|);
  }

  lemma {:induction false} EmptyLineIsNotShown(lines: seq<string>, s: nat, e: nat)
    requires s <= e && e + 1 < |lines| && lines[e + 1] == ""
    ensures Shown(lines, s, e + 1) == Shown(lines, s, e)
  {
  }

  lemma {:induction false} PressedLeadsTo(d: Document, lines: seq<string>, s: nat, e: nat, command: Command,
                                          marker: string)
    requires HasSelection(d) && Split(d.text) == lines && s <= e < |lines|
    requires LineFromPosition(lines, d.selectionStart) == s && LineFromPosition(lines, d.selectionEnd) == e
    ensures LeadsTo(Presser(command, marker), d, 1, Shown(Changed(lines, s, e + 1, command, marker), s, e))
  {
    PressedIs(d, lines, s, e, command, marker);
    PressedOnShows(lines, s, e, command, marker);
    assert Iterated(Presser(command, marker), d, 0) == d;
  }

  lemma {:induction false} ShortComment(d: Document, lines: seq<string>, s: nat, e: nat, marker: string)
    requires HasSelection(d) && Split(d.text) == lines && s <= e && e + 1 < |lines| && lines[e + 1] == ""
    requires LineFromPosition(lines, d.selectionStart) == s && LineFromPosition(lines, d.selectionEnd) == e + 1
    ensures LeadsTo(Presser(Comment, marker), d, 1, Shown(Commented(lines, s, e + 1, marker), s, e))
  {
    PressedLeadsTo(d, lines, s, e + 1, Comment, marker);
    BlankLineIsIgnored(lines, s, e + 1, marker);
    EmptyLineIsNotShown(Commented(lines, s, e + 1, marker), s, e);
  }

  /** Commenting selects whole lines, from the first to the last that the selection touched. */
  lemma {:induction false} FirstComment(d: Document, lines: seq<string>, s: nat, e: nat, marker: string)
    requires HasSelection(d)
    requires lines == Split(d.text) && s == FirstSelected(d) && e == LastSelected(d) && s <= e
    ensures LeadsTo(Presser(Comment, marker), d, 1, Shown(Commented(lines, s, e + 1, marker), s, e))
  {
    if lines[LineFromPosition(lines, d.selectionEnd)] == "" {
      ShortComment(d, lines, s, e, marker);
    } else {
      PressedLeadsTo(d, lines, s, e, Comment, marker);
    }
  }

  lemma {:induction false} CommentStep(lines: seq<string>, s: nat, e: nat, marker: string, j: nat)
    requires IsMarker(marker) && IsDocument(lines) && s <= e < |lines| && lines[e] != "" && j > 0
    ensures LeadsTo(Presser(Comment, marker), Shown(Stacked(lines, s, e, marker, j), s, e), 1,
                    Shown(Stacked(lines, s, e, marker, j + 1), s, e))
  {
    StackedShows(lines, s, e, marker, j, Comment);
  }

  lemma {:induction false} UncommentTakesBack(lines: seq<string>, commented: seq<string>, s: nat, e: nat,
                                              marker: string)
    requires IsMarker(marker) && s <= e < |lines| && commented == Commented(lines, s, e + 1, marker)
    ensures Changed(commented, s, e + 1, Uncomment, marker) == lines
  {
    UncommentUndoesCommentIff(lines, s, e + 1, marker);
  }

  lemma {:induction false} UncommentStep(lines: seq<string>, s: nat, e: nat, marker: string, j: nat)
    requires IsMarker(marker) && IsDocument(lines) && s <= e < |lines| && lines[e] != ""
    ensures LeadsTo(Presser(Uncomment, marker), Shown(Stacked(lines, s, e, marker, j + 1), s, e), 1,
                    Shown(Stacked(lines, s, e, marker, j), s, e))
  {
    StackedShows(lines, s, e, marker, j + 1, Uncomment);
    StackedNext(lines, s, e, marker, j);
    UncommentTakesBack(Stacked(lines, s, e, marker, j), Stacked(lines, s, e, marker, j + 1), s, e, marker);
  }

  lemma {:induction false} UncommentFrom(lines: seq<string>, s: nat, e: nat, marker: string, j: nat, k: nat)
    requires IsMarker(marker) && IsDocument(lines) && s <= e < |lines| && lines[e] != "" && k == j + 1
    ensures LeadsTo(Presser(Uncomment, marker), Shown(Stacked(lines, s, e, marker, k), s, e), 1,
                    Shown(Stacked(lines, s, e, marker, j), s, e))
  {
    UncommentStep(lines, s, e, marker, j);
  }

  /** The document after k comments. */
  function CommentedTimes(d: Document, lines: seq<string>, s: nat, e: nat, marker: string, k: nat): Document
    requires IsMarker(marker) && IsDocument(lines) && s <= e < |lines| && lines[e] != ""
  {
    if k == 0 then d else Shown(Stacked(lines, s, e, marker, k), s, e)
  }

  lemma {:induction false} CommentFrom(d: Document, lines: seq<string>, s: nat, e: nat, marker: string, j: nat, k: nat)
    requires HasSelection(d) && IsMarker(marker) && IsDocument(lines) && s <= e < |lines| && lines[e] != ""
    requires k == j + 1
    requires LeadsTo(Presser(Comment, marker), d, 1, Shown(Stacked(lines, s, e, marker, 1), s, e))
    ensures LeadsTo(Presser(Comment, marker), CommentedTimes(d, lines, s, e, marker, j), 1,
                    CommentedTimes(d, lines, s, e, marker, k))
  {
    if j > 0 {
      CommentStep(lines, s, e, marker, j);
    }
  }

  lemma {:induction false} CommentsStack(d: Document, lines: seq<string>, s: nat, e: nat, marker: string, n: nat)
    requires HasSelection(d) && IsMarker(marker) && IsDocument(lines) && s <= e < |lines| && lines[e] != "" && n > 0
    requires LeadsTo(Presser(Comment, marker), d, 1, Shown(Stacked(lines, s, e, marker, 1), s, e))
    ensures LeadsTo(Presser(Comment, marker), d, n, Shown(Stacked(lines, s, e, marker, n), s, e))
  {
    var run := seq(n + 1, k requires 0 <= k <= n => CommentedTimes(d, lines, s, e, marker, k));
    forall j, k | 0 <= j && j + 1 == k <= n
      ensures LeadsTo(Presser(Comment, marker), run[j], 1, run[k])
    {
      CommentFrom(d, lines, s, e, marker, j, k);
    }
    RunLeadsTo(Presser(Comment, marker), run, n);
  }

  lemma {:induction false} UncommentsUnstack(lines: seq<string>, s: nat, e: nat, marker: string, n: nat)
    requires IsMarker(marker) && IsDocument(lines) && s <= e < |lines| && lines[e] != ""
    ensures LeadsTo(Presser(Uncomment, marker), Shown(Stacked(lines, s, e, marker, n), s, e), n,
                    Shown(Stacked(lines, s, e, marker, 0), s, e))
  {
    var run := seq(n + 1, k requires 0 <= k <= n => Shown(Stacked(lines, s, e, marker, k), s, e));
    forall j, k | 0 <= j && j + 1 == k <= n
      ensures LeadsTo(Presser(Uncomment, marker), run[k], 1, run[j])
    {
      UncommentFrom(lines, s, e, marker, j, k);
    }
    DescentLeadsTo(Presser(Uncomment, marker), run, n);
  }

  lemma {:induction false} NothingSelected(d: Document, command: Command, marker: string, n: nat)
    requires !HasSelection(d)
    ensures Iterated(Presser(command, marker), d, n) == d
  {
    if n > 0 {
      NothingSelected(d, command, marker, n - 1);
    }
  }

  /** n comments followed by n uncomments give back the text, whatever is selected and whatever it holds. */
  lemma {:induction false} UncommentsUndoComments(d: Document, marker: string, n: nat)
    requires IsMarker(marker)
    ensures Iterated(Presser(Uncomment, marker), Iterated(Presser(Comment, marker), d, n), n).text == d.text
  {
    if HasSelection(d) && n > 0 {
      var lines, s, e := Split(d.text), FirstSelected(d), LastSelected(d);
      SelectedRange(d);
      FirstComment(d, lines, s, e, marker);
      assert Stacked(lines, s, e, marker, 1) == Commented(Stacked(lines, s, e, marker, 0), s, e + 1, marker);
      CommentsStack(d, lines, s, e, marker, n);
      UncommentsUnstack(lines, s, e, marker, n);
    } else if n > 0 {
      NothingSelected(d, Comment, marker, n);
      NothingSelected(d, Uncomment, marker, n);
    }
  }

  /** The marker of Lua comments is one. */
  lemma {:induction false} LuaUncommentsUndoComments(d: Document, n: nat)
    ensures Iterated(Presser(Uncomment, LUA_COMMENT), Iterated(Presser(Comment, LUA_COMMENT), d, n), n).text == d.text
  {
    UncommentsUndoComments(d, LUA_COMMENT, n);
  }

  // ----- What a command does to a document, line by line -----

  /** The selection goes from line s to line e. */
  predicate Touches(d: Document, lines: seq<string>, s: nat, e: nat)
  {
    && HasSelection(d) && s <= e < |lines|
    && LineStart(lines, s) <= d.selectionStart && (s + 1 < |lines| ==> d.selectionStart < LineStart(lines, s + 1))
    && LineStart(lines, e) <= d.selectionEnd && (e + 1 < |lines| ==> d.selectionEnd < LineStart(lines, e + 1))
  }

  lemma {:induction false} TouchedLines(d: Document) returns (s: nat, e: nat)
    requires HasSelection(d)
    ensures Touches(d, Split(d.text), s, e)
    ensures LineFromPosition(Split(d.text), d.selectionStart) == s
    ensures LineFromPosition(Split(d.text), d.selectionEnd) == e
  {
    var lines := Split(d.text);
    s, e := LineFromPosition(lines, d.selectionStart), LineFromPosition(lines, d.selectionEnd);
    LinesInOrder(lines, d.selectionStart, d.selectionEnd);
  }

  lemma {:induction false} PressedChanges(d: Document, command: Command, marker: string, s: nat, e: nat)
    requires HasSelection(d) && s <= e < |Split(d.text)|
    requires LineFromPosition(Split(d.text), d.selectionStart) == s
    requires LineFromPosition(Split(d.text), d.selectionEnd) == e
    ensures Pressed(d, command, marker) == Shown(Changed(Split(d.text), s, e + 1, command, marker), s, e)
  {
    PressedIs(d, Split(d.text), s, e, command, marker);
    PressedOnShows(Split(d.text), s, e, command, marker);
  }

  /** What uncommenting a line is to do. */
  ghost predicate IsUncommented(before: string, after: string, marker: string)
  {
    && (forall c: nat {:trigger MarkerIsAt(before, c, marker)} :: MarkerIsAt(before, c, marker) ==>
          after == before[..c] + before[c + |marker|..])
    && ((forall c: nat :: !MarkerIsAt(before, c, marker)) ==> after == before)
  }

  lemma {:induction false} UncommentedLineIs(line: string, marker: string)
    ensures IsUncommented(line, UncommentedLine(line, marker), marker)
  {
    FirstNonWhitespaceMeans(line, 0);
    forall c: nat | MarkerIsAt(line, c, marker)
      ensures UncommentedLine(line, marker) == line[..c] + line[c + |marker|..]
    {
      UncommentTakesMarker(line, marker, c);
    }
    if forall c: nat :: !MarkerIsAt(line, c, marker) {
      var c := FirstNonWhitespace(line);
      if c != -1 {
        assert InkIsAt(line, c) && !MarkerIsAt(line, c, marker);
      }
      UncommentTakesMarker(line, marker, if c == -1 then 0 else c);
    }
  }

  /**
   After uncommenting, the lines that the selection touched have lost their marker if they had one, and the others are
   as they were. What is selected then goes from the start of the first to the last character of the last of them.
   */
  lemma {:induction false} UncommentMeans(d: Document, marker: string) returns (s: nat, e: nat, lines': seq<string>)
    requires HasSelection(d)
    ensures var lines, d' := Split(d.text), Pressed(d, Uncomment, marker);
            && Touches(d, lines, s, e) && |lines'| == |lines| && d'.text == Joined(lines')
            && (forall i {:trigger lines'[i]} :: 0 <= i < |lines| ==>
                  if s <= i <= e then IsUncommented(lines[i], lines'[i], marker) else lines'[i] == lines[i])
            && d'.selectionStart == LineStart(lines', s) && d'.selectionEnd == LineStart(lines', e + 1) - 1
  {
    s, e := TouchedLines(d);
    var lines := Split(d.text);
    lines' := Uncommented(lines, s, e + 1, marker);
    PressedChanges(d, Uncomment, marker, s, e);
    forall i {:trigger lines'[i]} | s <= i <= e
      ensures IsUncommented(lines[i], lines'[i], marker)
    {
      UncommentedLineIs(lines[i], marker);
    }
  }

  /** The smallest indentation of the lines from s to e that are not blank, or INT_MAX if there is none below that. */
  predicate IsSmallestIndentation(lines: seq<string>, s: nat, e: nat, column: nat)
    requires s <= e < |lines|
  {
    && column <= INT_MAX
    && (forall i {:trigger lines[i]} :: s <= i <= e ==> forall k {:trigger lines[i][k]} ::
          0 <= k < column && k < |lines[i]| ==> IsSpace(lines[i][k]))
    && (column < INT_MAX ==> exists i :: s <= i <= e && InkIsAt(lines[i], column))
  }

  predicate IsInserted(before: string, after: string, column: nat, marker: string)
  {
    if forall k {:trigger before[k]} :: 0 <= k < |before| ==> IsSpace(before[k]) then after == before
    else column <= |before| && after == before[..column] + marker + before[column..]
  }

  lemma {:induction false} SmallestIndentation(lines: seq<string>, s: nat, e: nat)
    requires s <= e < |lines|
    ensures IsSmallestIndentation(lines, s, e, MinIndentation(lines, s, e + 1))
  {
    var column := MinIndentation(lines, s, e + 1);
    MinIndentationIsAttained(lines, s, e + 1);
    forall i {:trigger lines[i]} | s <= i <= e
      ensures forall k {:trigger lines[i][k]} :: 0 <= k < column && k < |lines[i]| ==> IsSpace(lines[i][k])
    {
      FirstNonWhitespaceMeans(lines[i], 0);
    }
    if column < INT_MAX {
      var i :| s <= i <= e && !IsBlank(lines[i]) && column == FirstNonWhitespace(lines[i]);
      FirstNonWhitespaceMeans(lines[i], 0);
      assert InkIsAt(lines[i], column);
    }
  }

  lemma {:induction false} CommentedLineIs(line: string, column: nat, marker: string)
    requires IsBlank(line) || column <= FirstNonWhitespace(line)
    ensures IsInserted(line, CommentedLine(line, column, marker), column, marker)
  {
    FirstNonWhitespaceMeans(line, 0);
  }

  /** Commenting puts the marker into the touched lines that are not blank, at the smallest indentation of them all. */
  lemma {:induction false} CommentMeans(d: Document, marker: string)
    returns (s: nat, e: nat, column: nat, lines': seq<string>)
    requires HasSelection(d)
    ensures var lines, d' := Split(d.text), Pressed(d, Comment, marker);
            && Touches(d, lines, s, e) && |lines'| == |lines| && d'.text == Joined(lines')
            && IsSmallestIndentation(lines, s, e, column)
            && (forall i {:trigger lines'[i]} :: 0 <= i < |lines| ==>
                  if s <= i <= e then IsInserted(lines[i], lines'[i], column, marker) else lines'[i] == lines[i])
            && d'.selectionStart == LineStart(lines', s) && d'.selectionEnd == LineStart(lines', e + 1) - 1
  {
    s, e := TouchedLines(d);
    var lines := Split(d.text);
    column, lines' := MinIndentation(lines, s, e + 1), Commented(lines, s, e + 1, marker);
    PressedChanges(d, Comment, marker, s, e);
    SmallestIndentation(lines, s, e);
    forall i {:trigger lines'[i]} | s <= i <= e
      ensures IsInserted(lines[i], lines'[i], column, marker)
    {
      CommentedLineIs(lines[i], column, marker);
    }
  }

  // ----- The code -----

  lemma {:induction false} ReplacedText(text: string, lines: seq<string>, s: nat, n: nat, result: string)
    requires lines == Split(text) && IsRange(lines, s, n)
    ensures LineStart(lines, s) <= LineStart(lines, n) <= |text|
    ensures text[..LineStart(lines, s)] + result + text[LineStart(lines, n)..] == Replaced(lines, s, n, result).text
    ensures LineStart(lines, s) + |result| <= |Replaced(lines, s, n, result).text|
  {
    SplitKeepsText(text);
    JoinedInTwo(lines, 0, s, |lines|);
    JoinedInTwo(lines, 0, n, |lines|);
    LineStartIs(lines, s);
    LineStartIs(lines, n);
    LineStartsAscend(lines, s, n);
  }

  /** The document that replacing the text of the lines and selecting the result gives is the one the command gives. */
  lemma {:induction false} ReplacedDocument(text: string, lines: seq<string>, s: nat, e: nat, result: string,
                                            command: Command, marker: string) returns (d: Document)
    requires lines == Split(text) && s <= e < |lines|
    requires result == JoinedRange(Changed(lines, s, e + 1, command, marker), s, e + 1)
    ensures LineStart(lines, s) <= LineStart(lines, e + 1) <= |text|
    ensures d.text == text[..LineStart(lines, s)] + result + text[LineStart(lines, e + 1)..]
    ensures d.selectionStart == LineStart(lines, s) && d.selectionEnd == LineStart(lines, s) + |result| - 1
    ensures d == PressedOn(lines, s, e, command, marker) && d.selectionEnd <= |d.text|
  {
    d := Replaced(lines, s, e + 1, result);
    ReplacedText(text, lines, s, e + 1, result);
    ReplacedIsPressed(lines, s, e, result, command, marker);
  }

  lemma {:induction false} ReplacedIsPressed(lines: seq<string>, s: nat, e: nat, result: string, command: Command,
                                             marker: string)
    requires s <= e < |lines|
    requires result == JoinedRange(Changed(lines, s, e + 1, command, marker), s, e + 1)
    ensures Replaced(lines, s, e + 1, result) == PressedOn(lines, s, e, command, marker)
  {
  }

  lemma {:induction false} CommentedAt(lines: seq<string>, s: nat, n: nat, marker: string)
    requires IsRange(lines, s, n)
    ensures forall i {:trigger Commented(lines, s, n, marker)[i]} :: s <= i < n ==>
              Commented(lines, s, n, marker)[i] == CommentedLine(lines[i], MinIndentation(lines, s, n), marker)
  {
  }

  class CodeEdit {
    var text: string
    var selectionStart: int
    var selectionEnd: int

    constructor (text: string)
      ensures Valid() && View() == Document(text, 0, 0)
    {
      this.text, selectionStart, selectionEnd := text, 0, 0;
    }

    function View(): Document
      reads this
    {
      Document(text, selectionStart, selectionEnd)
    }

    predicate Valid()
      reads this
    {
      selectionStart < selectionEnd ==> HasSelection(View())
    }

    method GetFirstNonWhitespace(text: string) returns (c: int)
      ensures c == FirstNonWhitespace(text)
    {
      c := 0;
      while c < |text|
        invariant 0 <= c <= |text| && FirstNonWhitespace(text) == FirstNonWhitespaceFrom(text, c)
      {
        if !IsSpace(text[c]) {
          return;
        }
        c := c + 1;
      }
      c := -1;
    }

    /** The smallest indentation of the lines that are not blank. */
    method GetMinIndentation(lines: seq<string>, startLine: nat, endLine: nat) returns (minIndentation: nat)
      requires startLine <= endLine < |lines|
      ensures minIndentation == MinIndentation(lines, startLine, endLine + 1)
    {
      minIndentation := INT_MAX;
      var i := startLine;
      while i <= endLine
        invariant startLine <= i <= endLine + 1
        invariant minIndentation == MinIndentation(lines, startLine, i)
      {
        var firstNonWhitespace := GetFirstNonWhitespace(lines[i]);
        if firstNonWhitespace != -1 && firstNonWhitespace < minIndentation {
          minIndentation := firstNonWhitespace;
        }
        i := i + 1;
      }
    }

    method InsertComment(lineText: string, minIndentation: nat, comment: string) returns (r: string)
      requires IsBlank(lineText) || minIndentation <= FirstNonWhitespace(lineText)
      ensures r == CommentedLine(lineText, minIndentation, comment)
    {
      r := lineText;
      var firstNonWhitespace := GetFirstNonWhitespace(lineText);
      if firstNonWhitespace != -1 {
        r := lineText[..minIndentation] + comment + lineText[minIndentation..];
      }
    }

    /** The second loop of CommentSelection; commented are the lines as they are going to be. */
    method InsertComments(lines: seq<string>, startLine: nat, endLine: nat, comment: string,
                          ghost commented: seq<string>) returns (result: string)
      requires startLine <= endLine < |lines| == |commented|
      requires forall i {:trigger commented[i]} :: startLine <= i <= endLine ==>
                 commented[i] == CommentedLine(lines[i], MinIndentation(lines, startLine, endLine + 1), comment)
      ensures result == JoinedRange(commented, startLine, endLine + 1)
    {
      var minIndentation := GetMinIndentation(lines, startLine, endLine);
      result := "";
      for i := startLine to endLine + 1
        invariant result == JoinedRange(commented, startLine, i)
      {
        var lineText := InsertComment(lines[i], minIndentation, comment);
        result := result + lineText;
      }
    }

    method EraseComment(lineText: string, commentString: string) returns (r: string)
      ensures r == UncommentedLine(lineText, commentString)
    {
      r := lineText;
      var c := GetFirstNonWhitespace(lineText);
      if c != -1 && c + |commentString| <= |lineText| && lineText[c..c + |commentString|] == commentString {
        r := lineText[..c] + lineText[c + |commentString|..];
      }
    }

    /** The loop of UncommentSelection; uncommented are the lines as they are going to be. */
    method EraseComments(lines: seq<string>, startLine: nat, endLine: nat, commentString: string,
                         ghost uncommented: seq<string>) returns (result: string)
      requires startLine <= endLine < |lines| == |uncommented|
      requires forall i {:trigger uncommented[i]} :: startLine <= i <= endLine ==>
                 uncommented[i] == UncommentedLine(lines[i], commentString)
      ensures result == JoinedRange(uncommented, startLine, endLine + 1)
    {
      result := "";
      for i := startLine to endLine + 1
        invariant result == JoinedRange(uncommented, startLine, i)
      {
        var lineText := EraseComment(lines[i], commentString);
        result := result + lineText;
      }
    }

    /** Replaces the lines from startLine to endLine by result, and selects it up to its last character. */
    method ReplaceLines(lines: seq<string>, startLine: nat, endLine: nat, result: string,
                        ghost command: Command, ghost marker: string)
      requires lines == Split(text) && startLine <= endLine < |lines|
      requires result == JoinedRange(Changed(lines, startLine, endLine + 1, command, marker), startLine, endLine + 1)
      modifies this
      ensures Valid() && View() == PressedOn(lines, startLine, endLine, command, marker)
    {
      var targetStart, targetEnd := LineStart(lines, startLine), LineStart(lines, endLine + 1);
      ghost var d := ReplacedDocument(text, lines, startLine, endLine, result, command, marker);
      text := text[..targetStart] + result + text[targetEnd..];
      selectionStart, selectionEnd := targetStart, targetStart + |result| - 1;
      assert View() == d;
    }

    method CommentSelection(comment: string)
      requires Valid()
      modifies this
      ensures Valid() && View() == Pressed(old(View()), Comment, comment)
    {
      if selectionStart < selectionEnd {
        var lines := Split(text);
        LinesInOrder(lines, selectionStart, selectionEnd);
        var startLine, endLine := LineFromPosition(lines, selectionStart), LineFromPosition(lines, selectionEnd);
        PressedIs(View(), lines, startLine, endLine, Comment, comment);
        ghost var commented := Commented(lines, startLine, endLine + 1, comment);
        CommentedAt(lines, startLine, endLine + 1, comment);
        var result := InsertComments(lines, startLine, endLine, comment, commented);
        ReplaceLines(lines, startLine, endLine, result, Comment, comment);
      }
    }

    method UncommentSelection(commentString: string)
      requires Valid()
      modifies this
      ensures Valid() && View() == Pressed(old(View()), Uncomment, commentString)
    {
      if selectionStart < selectionEnd {
        var lines := Split(text);
        LinesInOrder(lines, selectionStart, selectionEnd);
        var startLine, endLine := LineFromPosition(lines, selectionStart), LineFromPosition(lines, selectionEnd);
        PressedIs(View(), lines, startLine, endLine, Uncomment, commentString);
        ghost var uncommented := Uncommented(lines, startLine, endLine + 1, commentString);
        var result := EraseComments(lines, startLine, endLine, commentString, uncommented);
        ReplaceLines(lines, startLine, endLine, result, Uncomment, commentString);
      }
    }
  }
}
