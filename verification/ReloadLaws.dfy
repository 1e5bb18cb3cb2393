/**
 What a reload does to breakpoints when the maps are those of diffs: of the script's text X with the text Y of the file
 on disk, which the toggles go through, and with the text Z in the editor, which the echoes may go through.
 */
module ReloadLaws {
  import opened Options
  import opened Breakpoints
  import opened Lists
  import opened LineMapping
  import opened LineMapLaws
  import opened Reload
  import Lcs

  // ----- The maps of three texts: the script's, the file's on disk and the editor's -----

  lemma {:induction false} SentIsMatched(X: seq<string>, Y: seq<string>, bps: seq<nat>, l: nat)
    requires WithinLimits(X, Y) && l in Sent(bps, NewToOldOf(X, Y))
    ensures IsMatchedOld(X, Y, l)
  {
    var b := bps[0];
    if Lookup(NewToOldOf(X, Y), b) == l && l != INVALID_LINE {
      LookupRoundTrip(X, Y, if b < |Y| then b else |Y| - 1);
    } else {
      SentIsMatched(X, Y, bps[1..], l);
    }
  }

  /** l is a matched old line. */
  predicate IsMatchedOld(X: seq<string>, Y: seq<string>, l: nat)
  {
    l < |X| && OldToNewOf(X, Y)[l] != INVALID_LINE
  }

  /** Distinct breakpoints inside the text ask for different old lines. */
  lemma {:induction false} SentIsDistinct(X: seq<string>, Y: seq<string>, bps: seq<nat>)
    requires WithinLimits(X, Y) && NoDuplicates(bps) && forall b :: b in bps ==> b < |Y|
    ensures NoDuplicates(Sent(bps, NewToOldOf(X, Y)))
  {
    var n, sent, mapped := NewToOldOf(X, Y), Sent(bps, NewToOldOf(X, Y)), Mapped(bps, NewToOldOf(X, Y));
    SentFollowsMapped(bps, n);
    MappedMembers(bps, n);
    NoDuplicatesMeans(mapped);
    NoDuplicatesMeans(sent);
    forall j, k | 0 <= j < k < |sent|
      ensures sent[j] != sent[k]
    {
      assert mapped[j] in mapped && mapped[k] in mapped;
      LookupRoundTrip(X, Y, mapped[j]);
      LookupRoundTrip(X, Y, mapped[k]);
    }
  }

  /** Line b has the same old line in the editor's text Z as it has in the file's text Y. */
  predicate HasSameOldLine(X: seq<string>, Y: seq<string>, Z: seq<string>, b: nat)
  {
    b < |Z| && NewToOldOf(X, Z)[b] == Lookup(NewToOldOf(X, Y), b)
  }

  /** A breakpoint that is sent through the file's map comes back as itself through the editor's exactly then. */
  lemma {:induction false} ComesBackIff(X: seq<string>, Y: seq<string>, Z: seq<string>, b: nat)
    requires WithinLimits(X, Y) && WithinLimits(X, Z)
    requires b < |Y| && Lookup(NewToOldOf(X, Y), b) != INVALID_LINE
    ensures Lookup(OldToNewOf(X, Z), Lookup(NewToOldOf(X, Y), b)) == b <==> HasSameOldLine(X, Y, Z, b)
  {
    var l := Lookup(NewToOldOf(X, Y), b);
    LookupRoundTrip(X, Y, b);
    if b < |Z| {
      MapsAreInverse(X, Z, l, b);
    } else if OldToNewOf(X, Z)[l] != INVALID_LINE {
      MatchedLinesAreEqual(X, Z, l);
    }
  }

  /**
   Breakpoints survive a reload. The file on disk is Y and the text in the editor Z; the first echoes, as many as are
   handled before a diff with the editor's text is made, go back through the file's map, the others through the
   editor's. Of distinct breakpoints inside the file those on matched lines come back, in their order, and nothing else
   does, if and only if each whose echo goes through the editor's map has the same old line in both texts.
   */
  lemma {:induction false} ReloadIsExactIff(X: seq<string>, Y: seq<string>, Z: seq<string>, bps: seq<nat>, first: nat)
    requires WithinLimits(X, Y) && WithinLimits(X, Z)
    requires NoDuplicates(bps) && forall b :: b in bps ==> b < |Y|
    requires first <= |Sent(bps, NewToOldOf(X, Y))|
    ensures |Sent(bps, NewToOldOf(X, Y))| == |Mapped(bps, NewToOldOf(X, Y))|
    ensures Reloaded(bps, NewToOldOf(X, Y),
                     SwitchedMaps(OldToNewOf(X, Y), OldToNewOf(X, Z), first, |Sent(bps, NewToOldOf(X, Y))|)) ==
            Mapped(bps, NewToOldOf(X, Y)) <==>
            forall k :: first <= k < |Mapped(bps, NewToOldOf(X, Y))| ==>
              HasSameOldLine(X, Y, Z, Mapped(bps, NewToOldOf(X, Y))[k])
  {
    var n, sent, mapped := NewToOldOf(X, Y), Sent(bps, NewToOldOf(X, Y)), Mapped(bps, NewToOldOf(X, Y));
    var maps := SwitchedMaps(OldToNewOf(X, Y), OldToNewOf(X, Z), first, |sent|);
    SentIsDistinct(X, Y, bps);
    SentFollowsMapped(bps, n);
    MappedMembers(bps, n);
    ReloadKeepsMappedIff(bps, n, maps);
    forall k | 0 <= k < |sent|
      ensures Lookup(maps[k], sent[k]) == mapped[k] <==> k < first || HasSameOldLine(X, Y, Z, mapped[k])
    {
      assert mapped[k] in mapped && sent[k] == Lookup(n, mapped[k]);
      ComesBackIff(X, Y, Z, mapped[k]);
      LookupRoundTrip(X, Y, mapped[k]);
    }
  }

  /** So they survive whatever is diffed when, if the file is not changed in the editor: the lines are the same. */
  lemma {:induction false} ReloadIsExact(X: seq<string>, Y: seq<string>, bps: seq<nat>, first: nat)
    requires WithinLimits(X, Y) && NoDuplicates(bps) && forall b :: b in bps ==> b < |Y|
    requires first <= |Sent(bps, NewToOldOf(X, Y))|
    ensures Reloaded(bps, NewToOldOf(X, Y),
                     SwitchedMaps(OldToNewOf(X, Y), OldToNewOf(X, Y), first, |Sent(bps, NewToOldOf(X, Y))|)) ==
            Mapped(bps, NewToOldOf(X, Y))
  {
    var n, mapped := NewToOldOf(X, Y), Mapped(bps, NewToOldOf(X, Y));
    MappedMembers(bps, n);
    ReloadIsExactIff(X, Y, Y, bps, first);
    forall k | 0 <= k < |mapped|
      ensures HasSameOldLine(X, Y, Y, mapped[k])
    {
      assert mapped[k] in mapped;
    }
  }

  /** Otherwise a breakpoint can move to another line: here a line was added above it in the editor. */
  lemma {:induction false} BreakpointCanMove()
    ensures var X, Y, Z := ["a", "b"], ["a", "b"], ["a", "n", "b"];
            && Sent([1], NewToOldOf(X, Y)) == [1]
            && ReloadedThrough([1], NewToOldOf(X, Y), OldToNewOf(X, Z)) == [2]
            && !HasSameOldLine(X, Y, Z, 1)
            && TailLoopReadsInRange(X, Z, Lcs.CommonHead(X, Z), |X| - 1, |Z| - 1)
            && !(|Z| < |X| && Z == X[..|Z|])
  {
    var X, Z := ["a", "b"], ["a", "n", "b"];
    var o := OldToNewOf(X, Z);
    Lcs.DiffOfEqual(X);
    assert Lookup(NewToOldOf(X, X), 1) == 1;
    assert [1][1..] == [];
    AddedBetween(X, Z);
    DistinctTogglesSet([], {}, [1], Throughout(o, 1));
    assert Images([1], Throughout(o, 1)) == [2];
  }

  lemma {:induction false} AddedBetween(X: seq<string>, Z: seq<string>)
    requires X == ["a", "b"] && Z == ["a", "n", "b"]
    ensures OldToNewOf(X, Z) == [0, 2]
    ensures NewToOldOf(X, Z)[1] == INVALID_LINE
    ensures TailLoopReadsInRange(X, Z, Lcs.CommonHead(X, Z), 1, 2)
  {
    assert X[0] == Z[0] && X[1] != Z[1] && X[1] == Z[2];
    assert Lcs.HeadFrom(X, Z, 1) == 1 && Lcs.CommonHead(X, Z) == 1;
    assert Lcs.TailFrom(X, Z, 1, 1) == 1 && Lcs.CommonTail(X, Z) == 1;
    assert Lcs.Forward(X, Z, 1, 0, 0) == Lcs.Identity(1) && Lcs.Forward(X, Z, 1, 0, 1) == Lcs.Identity(1);
    assert Lcs.Backward(X, Z, 1, 0, 1) == Lcs.Identity(1) + [None];
    TailTrimStaysInRangeIff(X, Z);
  }

  // ----- The lines that carry a breakpoint, as a set -----

  /** Two lists of the same numbers in the same order of size are equal: their k-th entries are. */
  lemma {:induction false} SameOrderIsSame(a: seq<nat>, c: seq<nat>, k: nat)
    requires |a| == |c| && k < |a| && NoDuplicates(a)
    requires forall x :: x in a <==> x in c
    requires forall i, j {:trigger a[i], a[j]} {:trigger c[i], c[j]} ::
               0 <= i < |a| && 0 <= j < |a| && a[i] < a[j] ==> c[i] < c[j]
    ensures c[k] == a[k]
    decreases a[k]
  {
    NoDuplicatesMeans(a);
    assert a[k] in a && c[k] in c;
    if c[k] < a[k] {
      var j :| 0 <= j < |a| && a[j] == c[k];
      SameOrderIsSame(a, c, j);
    } else if c[k] > a[k] {
      var j :| 0 <= j < |a| && c[j] == a[k];
      if a[j] < a[k] {
        SameOrderIsSame(a, c, j);
      }
    }
  }

  /** The same members on both sides, and the same entries up to first, leave the same members for the rest. */
  lemma {:induction false} RestHasSameMembers(a: seq<nat>, c: seq<nat>, first: nat)
    requires |a| == |c| && first <= |a| && a[..first] == c[..first]
    requires NoDuplicates(a) && NoDuplicates(c) && forall x :: x in a <==> x in c
    ensures NoDuplicates(a[first..]) && forall x :: x in a[first..] <==> x in c[first..]
    decreases first
  {
    if first > 0 {
      assert a[0] == a[..first][0] == c[..first][0] == c[0];
      assert a[1..][..first - 1] == a[..first][1..] == c[..first][1..] == c[1..][..first - 1];
      assert forall x :: x in a <==> x == a[0] || x in a[1..];
      assert forall x :: x in c <==> x == c[0] || x in c[1..];
      RestHasSameMembers(a[1..], c[1..], first - 1);
      assert a[1..][first - 1..] == a[first..] && c[1..][first - 1..] == c[first..];
    }
  }

  /** From first on images keep the order of size of the lines they are images of, if they are among those lines. */
  ghost predicate KeepOrder(images: seq<nat>, mapped: seq<nat>, first: nat)
    requires |images| == |mapped|
  {
    forall i, j {:trigger mapped[i], mapped[j]} {:trigger images[i], images[j]} ::
      first <= i < |mapped| && first <= j < |mapped| ==>
        mapped[i] < mapped[j] && images[i] in mapped && images[j] in mapped ==> images[i] < images[j]
  }

  /**
   Echoes whose lines come back in the same order of size come back as the same set only if each comes back as itself.
   */
  lemma {:induction false} SameSetIff(images: seq<nat>, mapped: seq<nat>, first: nat)
    requires |images| == |mapped| && first <= |mapped| && NoDuplicates(mapped)
    requires images[..first] == mapped[..first] && KeepOrder(images, mapped, first)
    ensures (forall y :: y in AllSet([], images) <==> y in mapped) <==> images == mapped
  {
    AllSetLength([], images);
    assert [] + images == images;
    if forall y :: y in AllSet([], images) <==> y in mapped {
      SameMembersSameLength(AllSet([], images), mapped);
      SameRest(images, mapped, first);
    }
  }

  lemma {:induction false} SameRest(images: seq<nat>, mapped: seq<nat>, first: nat)
    requires |images| == |mapped| && first <= |mapped| && NoDuplicates(mapped) && NoDuplicates(images)
    requires images[..first] == mapped[..first] && KeepOrder(images, mapped, first)
    requires forall y :: y in images <==> y in mapped
    ensures images == mapped
  {
    RestHasSameMembers(mapped, images, first);
    var a, c := mapped[first..], images[first..];
    assert forall k :: 0 <= k < |images| ==> images[k] in images;
    forall k | 0 <= k < |a|
      ensures c[k] == a[k]
    {
      SameOrderIsSame(a, c, k);
    }
    assert mapped == mapped[..first] + a && images == images[..first] + c;
  }

  lemma {:induction false} OldLinesKeepOrder(X: seq<string>, Y: seq<string>, b: nat, c: nat)
    requires WithinLimits(X, Y) && b < c < |Y|
    requires NewToOldOf(X, Y)[b] != INVALID_LINE && NewToOldOf(X, Y)[c] != INVALID_LINE
    ensures NewToOldOf(X, Y)[b] < NewToOldOf(X, Y)[c] < |X|
  {
    OldLineComesBack(X, Y, b);
    OldLineComesBack(X, Y, c);
    if NewToOldOf(X, Y)[b] > NewToOldOf(X, Y)[c] {
      MatchedLinesKeepOrder(X, Y, NewToOldOf(X, Y)[c], NewToOldOf(X, Y)[b]);
    }
  }

  lemma {:induction false} OldLineComesBack(X: seq<string>, Y: seq<string>, b: nat)
    requires WithinLimits(X, Y) && b < |Y| && NewToOldOf(X, Y)[b] != INVALID_LINE
    ensures NewToOldOf(X, Y)[b] < |X| && OldToNewOf(X, Y)[NewToOldOf(X, Y)[b]] == b
  {
    LookupRoundTrip(X, Y, b);
  }

  /**
   Diffs keep the order of lines, so a set of breakpoints that comes back as the same set comes back line by line. With
   the editor's map found from some echo on, exactly the breakpoints on matched lines carry one afterwards if and only
   if from that echo on each has the same old line in Y and Z.
   */
  lemma {:induction false} ReloadKeepsSetIff(X: seq<string>, Y: seq<string>, Z: seq<string>, bps: seq<nat>, first: nat)
    requires WithinLimits(X, Y) && WithinLimits(X, Z)
    requires NoDuplicates(bps) && forall b :: b in bps ==> b < |Y|
    requires first <= |Sent(bps, NewToOldOf(X, Y))|
    ensures |Sent(bps, NewToOldOf(X, Y))| == |Mapped(bps, NewToOldOf(X, Y))|
    ensures var maps := SwitchedMaps(OldToNewOf(X, Y), OldToNewOf(X, Z), first, |Sent(bps, NewToOldOf(X, Y))|);
            (forall y :: y in Reloaded(bps, NewToOldOf(X, Y), maps) <==> y in Mapped(bps, NewToOldOf(X, Y)))
            <==> forall k :: first <= k < |Mapped(bps, NewToOldOf(X, Y))| ==>
                   HasSameOldLine(X, Y, Z, Mapped(bps, NewToOldOf(X, Y))[k])
  {
    var n, sent, mapped := NewToOldOf(X, Y), Sent(bps, NewToOldOf(X, Y)), Mapped(bps, NewToOldOf(X, Y));
    var maps := SwitchedMaps(OldToNewOf(X, Y), OldToNewOf(X, Z), first, |sent|);
    var images := Images(sent, maps);
    SentIsDistinct(X, Y, bps);
    MappedMembers(bps, n);
    ReloadIsExactIff(X, Y, Z, bps, first);
    DistinctTogglesSet([], {}, sent, maps);
    AllSetIsIff(images, mapped);
    FirstImages(X, Y, bps, images, first);
    ImagesKeepOrder(X, Y, Z, bps, images, first);
    SameSetIff(images, mapped, first);
  }

  /** The echoes that go through the file's map come back as they were sent. */
  lemma {:induction false} FirstImages(X: seq<string>, Y: seq<string>, bps: seq<nat>, images: seq<nat>, first: nat)
    requires WithinLimits(X, Y) && forall b :: b in bps ==> b < |Y|
    requires first <= |images| == |Mapped(bps, NewToOldOf(X, Y))|
    requires forall k {:trigger images[k]} :: 0 <= k < first ==>
               k < |Sent(bps, NewToOldOf(X, Y))| &&
               images[k] == Lookup(OldToNewOf(X, Y), Sent(bps, NewToOldOf(X, Y))[k])
    ensures images[..first] == Mapped(bps, NewToOldOf(X, Y))[..first]
  {
    var n, sent, mapped := NewToOldOf(X, Y), Sent(bps, NewToOldOf(X, Y)), Mapped(bps, NewToOldOf(X, Y));
    SentFollowsMapped(bps, n);
    MappedMembers(bps, n);
    forall k | 0 <= k < first
      ensures images[k] == mapped[k]
    {
      assert mapped[k] in mapped && sent[k] == Lookup(n, mapped[k]);
      LookupRoundTrip(X, Y, mapped[k]);
    }
  }

  lemma {:induction false} EchoesKeepOrder(X: seq<string>, Y: seq<string>, Z: seq<string>, b: nat, c: nat)
    requires WithinLimits(X, Y) && WithinLimits(X, Z) && b < c < |Y|
    requires NewToOldOf(X, Y)[b] != INVALID_LINE && NewToOldOf(X, Y)[c] != INVALID_LINE
    ensures var l, k := NewToOldOf(X, Y)[b], NewToOldOf(X, Y)[c];
            && l < |X| && k < |X|
            && (OldToNewOf(X, Z)[l] != INVALID_LINE && OldToNewOf(X, Z)[k] != INVALID_LINE ==>
                  OldToNewOf(X, Z)[l] < OldToNewOf(X, Z)[k])
  {
    var l, k := NewToOldOf(X, Y)[b], NewToOldOf(X, Y)[c];
    OldLinesKeepOrder(X, Y, b, c);
    if OldToNewOf(X, Z)[l] != INVALID_LINE && OldToNewOf(X, Z)[k] != INVALID_LINE {
      MatchedLinesKeepOrder(X, Z, l, k);
    }
  }

  lemma {:induction false} ImagesKeepOrder(X: seq<string>, Y: seq<string>, Z: seq<string>, bps: seq<nat>,
                                           images: seq<nat>, first: nat)
    requires WithinLimits(X, Y) && WithinLimits(X, Z) && forall b :: b in bps ==> b < |Y|
    requires |images| == |Mapped(bps, NewToOldOf(X, Y))|
    requires forall k {:trigger images[k]} :: first <= k < |images| ==>
               k < |Sent(bps, NewToOldOf(X, Y))| &&
               images[k] == Lookup(OldToNewOf(X, Z), Sent(bps, NewToOldOf(X, Y))[k])
    ensures KeepOrder(images, Mapped(bps, NewToOldOf(X, Y)), first)
  {
    var n, sent, mapped := NewToOldOf(X, Y), Sent(bps, NewToOldOf(X, Y)), Mapped(bps, NewToOldOf(X, Y));
    SentFollowsMapped(bps, n);
    MappedMembers(bps, n);
    forall i, j {:trigger mapped[i], mapped[j]} {:trigger images[i], images[j]} |
      first <= i < |mapped| && first <= j < |mapped|
      ensures mapped[i] < mapped[j] && images[i] in mapped && images[j] in mapped ==> images[i] < images[j]
    {
      var b, c := mapped[i], mapped[j];
      assert b in mapped && c in mapped && sent[i] == n[b] && sent[j] == n[c];
      if b < c && images[i] in mapped && images[j] in mapped {
        EchoesKeepOrder(X, Y, Z, b, c);
      }
    }
  }

  // ----- Any list at all: also past the end of the text, also with duplicates -----

  /**
   Inside the editor's text the file's list shows exactly the back end's, seen through the map; outside it there may
   only be line 65535, and not even that if exact.
   */
  ghost predicate Mirrors(X: seq<string>, Z: seq<string>, bps: seq<nat>, backend: set<nat>, exact: bool)
  {
    && NoDuplicates(bps)
    && (forall l :: l in backend ==> l < |X|)
    && (forall y :: y in bps ==> y < |Z| || (y == INVALID_LINE && !exact))
    && (forall y: nat :: y < |Z| ==> (y in bps <==> NewToOldOf(X, Z)[y] in backend))
  }

  /** An old line of the script, and a matched one if exact. */
  predicate CanToggle(X: seq<string>, Z: seq<string>, l: nat, exact: bool)
  {
    l < |X| && (exact ==> IsMatchedOld(X, Z, l))
  }

  /** One toggle, its echo and the answer to it keep the two sides in step. */
  lemma {:induction false} EchoKeepsMirror(X: seq<string>, Z: seq<string>, bps: seq<nat>, backend: set<nat>, l: nat,
                                           exact: bool) returns (bps': seq<nat>)
    requires WithinLimits(X, Z) && Mirrors(X, Z, bps, backend, exact) && CanToggle(X, Z, l, exact)
    ensures bps' == WithBreakpoint(bps, Lookup(OldToNewOf(X, Z), l), l !in backend)
    ensures Mirrors(X, Z, bps', Flipped(backend, l), exact)
  {
    var o, n := OldToNewOf(X, Z), NewToOldOf(X, Z);
    var y := o[l];
    if y != INVALID_LINE {
      MatchedLinesAreEqual(X, Z, l);
    }
    forall y': nat | y' < |Z|
      ensures n[y'] == l <==> y == y'
    {
      MapsAreInverse(X, Z, l, y');
    }
    bps' := WithBreakpoint(bps, y, l !in backend);
    ToggledMembers(bps, y);
  }

  lemma {:induction false} ReceivedFirst(bps: seq<nat>, backend: set<nat>, toggles: seq<nat>, o: seq<nat>)
    requires toggles != []
    ensures Received(bps, Echoes(backend, toggles), Throughout(o, |toggles|)) ==
            Received(WithBreakpoint(bps, Lookup(o, toggles[0]), toggles[0] !in backend),
                     Echoes(Flipped(backend, toggles[0]), toggles[1..]), Throughout(o, |toggles[1..]|))
  {
    assert Echoes(backend, toggles)[1..] == Echoes(Flipped(backend, toggles[0]), toggles[1..]);
    assert Throughout(o, |toggles|)[1..] == Throughout(o, |toggles[1..]|);
  }

  lemma {:induction false} EchoesKeepMirror(X: seq<string>, Z: seq<string>, bps: seq<nat>, backend: set<nat>,
                                            toggles: seq<nat>, exact: bool)
    requires WithinLimits(X, Z) && Mirrors(X, Z, bps, backend, exact)
    requires forall l :: l in toggles ==> CanToggle(X, Z, l, exact)
    ensures Mirrors(X, Z, Received(bps, Echoes(backend, toggles), Throughout(OldToNewOf(X, Z), |toggles|)),
                    BackendAfter(backend, toggles), exact)
    decreases |toggles|
  {
    if toggles != [] {
      var l, o, rest := toggles[0], OldToNewOf(X, Z), toggles[1..];
      assert l in toggles && forall k :: k in rest ==> k in toggles;
      var bps' := EchoKeepsMirror(X, Z, bps, backend, l, exact);
      EchoesKeepMirror(X, Z, bps', Flipped(backend, l), rest, exact);
      ReceivedFirst(bps, backend, toggles, o);
    }
  }

  /** A line is set in the back end when it was toggled an odd number of times (or an even number, if it was set). */
  lemma {:induction false} BackendParity(backend: set<nat>, toggles: seq<nat>, l: nat)
    ensures l in BackendAfter(backend, toggles) <==> (l in backend) != (Occurrences(toggles, l) % 2 == 1)
    decreases |toggles|
  {
    if toggles != [] {
      BackendParity(Flipped(backend, toggles[0]), toggles[1..], l);
    }
  }

  /** Where y comes last in s, or -1. */
  function LastPlace(s: seq<nat>, y: nat): (k: int)
    ensures -1 <= k < |s| && (k >= 0 ==> s[k] == y)
    ensures forall j {:trigger s[j]} :: 0 <= j < |s| && k < j ==> s[j] != y
  {
    if s == [] then -1
    else if s[|s| - 1] == y then |s| - 1
    else LastPlace(s[..|s| - 1], y)
  }

  lemma {:induction false} LastPlaceAfterFirst(s: seq<nat>, y: nat)
    requires s != []
    ensures var k := LastPlace(s[1..], y);
            LastPlace(s, y) == if k >= 0 then k + 1 else if s[0] == y then 0 else -1
  {
    var rest := s[1..];
    assert forall j {:trigger s[j]} :: 0 < j < |s| ==> s[j] == rest[j - 1];
    assert forall j {:trigger rest[j]} :: 0 <= j < |rest| ==> rest[j] == s[j + 1];
  }

  /** What the k-th toggle does to its line: it is the line's first, third or so on, if it was not set before. */
  predicate ToggleSets(backend: set<nat>, toggles: seq<nat>, k: nat)
    requires k < |toggles|
  {
    (toggles[k] in backend) != (Occurrences(toggles[..k + 1], toggles[k]) % 2 == 1)
  }

  lemma {:induction false} ToggleSetsAfterFirst(backend: set<nat>, toggles: seq<nat>, k: nat)
    requires k + 1 < |toggles|
    ensures ToggleSets(backend, toggles, k + 1) <==> ToggleSets(Flipped(backend, toggles[0]), toggles[1..], k)
  {
    var l, first := toggles[k + 1], toggles[..k + 2];
    assert first[1..] == toggles[1..][..k + 1] && first[0] == toggles[0];
    assert Occurrences(first, l) == (if first[0] == l then 1 else 0) + Occurrences(first[1..], l);
  }

  /** Of the echoes that were mapped to line y the last one decides. */
  predicate LastEchoSets(backend: set<nat>, toggles: seq<nat>, maps: seq<seq<nat>>, y: nat)
    requires |maps| == |toggles|
  {
    var k := LastPlace(Images(toggles, maps), y);
    k >= 0 && ToggleSets(backend, toggles, k)
  }

  lemma {:induction false} ReceivedIsDistinct(bps: seq<nat>, echoes: seq<Echo>, maps: seq<seq<nat>>)
    requires |maps| == |echoes| && NoDuplicates(bps)
    ensures NoDuplicates(Received(bps, echoes, maps))
    decreases |echoes|
  {
    if echoes != [] {
      var line := Lookup(maps[0], echoes[0].line);
      ToggledMembers(bps, line);
      ReceivedIsDistinct(WithBreakpoint(bps, line, echoes[0].isSet), echoes[1..], maps[1..]);
    }
  }

  lemma {:induction false} LastEchoDecides(bps: seq<nat>, backend: set<nat>, toggles: seq<nat>, maps: seq<seq<nat>>,
                                           y: nat)
    requires |maps| == |toggles| && NoDuplicates(bps)
    ensures y in Received(bps, Echoes(backend, toggles), maps) <==>
            LastEchoSets(backend, toggles, maps, y) || (y in bps && y !in Images(toggles, maps))
    decreases |toggles|
  {
    if toggles != [] {
      var l, rest, images := toggles[0], toggles[1..], Images(toggles, maps);
      var bps', backend' := WithBreakpoint(bps, images[0], l !in backend), Flipped(backend, l);
      ToggledMembers(bps, images[0]);
      LastEchoDecides(bps', backend', rest, maps[1..], y);
      FirstEcho(bps, backend, toggles, maps);
      LastPlaceAfterFirst(images, y);
      if y in images[1..] {
        ToggleSetsAfterFirst(backend, toggles, LastPlace(images[1..], y));
        assert LastEchoSets(backend, toggles, maps, y) <==> LastEchoSets(backend', rest, maps[1..], y);
      } else if images[0] == y {
        FirstToggleSets(backend, toggles);
      }
    }
  }

  lemma {:induction false} FirstEcho(bps: seq<nat>, backend: set<nat>, toggles: seq<nat>, maps: seq<seq<nat>>)
    requires |maps| == |toggles| > 0
    ensures Images(toggles, maps)[1..] == Images(toggles[1..], maps[1..])
    ensures Received(bps, Echoes(backend, toggles), maps) ==
            Received(WithBreakpoint(bps, Images(toggles, maps)[0], toggles[0] !in backend),
                     Echoes(Flipped(backend, toggles[0]), toggles[1..]), maps[1..])
  {
    assert Echoes(backend, toggles)[1..] == Echoes(Flipped(backend, toggles[0]), toggles[1..]);
  }

  lemma {:induction false} FirstToggleSets(backend: set<nat>, toggles: seq<nat>)
    requires toggles != []
    ensures ToggleSets(backend, toggles, 0) <==> toggles[0] !in backend
  {
    assert toggles[..1] == [toggles[0]] && [toggles[0]][1..] == [];
  }

  /**
   Exactly what a reload leaves of any list, for any maps, one for the toggles and one for each echo: a line carries a
   breakpoint afterwards if and only if the last echo that was mapped to it set its own old line.
   */
  lemma {:induction false} ReloadFollowsLastEcho(bps: seq<nat>, newToOld: seq<nat>, maps: seq<seq<nat>>, y: nat)
    requires |maps| == |Sent(bps, newToOld)|
    ensures NoDuplicates(Reloaded(bps, newToOld, maps))
    ensures y in Reloaded(bps, newToOld, maps) <==> LastEchoSets({}, Sent(bps, newToOld), maps, y)
  {
    var sent := Sent(bps, newToOld);
    ReceivedIsDistinct([], Echoes({}, sent), maps);
    LastEchoDecides([], {}, sent, maps, y);
  }

  /** How many breakpoints ask for old line l. */
  function Askers(bps: seq<nat>, newToOld: seq<nat>, l: nat): nat
  {
    if bps == [] then 0
    else (if Lookup(newToOld, bps[0]) == l then 1 else 0) + Askers(bps[1..], newToOld, l)
  }

  lemma {:induction false} SentOccurrences(bps: seq<nat>, n: seq<nat>, l: nat)
    ensures Occurrences(Sent(bps, n), l) == if l == INVALID_LINE then 0 else Askers(bps, n, l)
  {
    if bps != [] {
      SentOccurrences(bps[1..], n, l);
      if Lookup(n, bps[0]) != INVALID_LINE {
        OccurrencesConcat([Lookup(n, bps[0])], Sent(bps[1..], n), l);
      } else {
        assert Sent(bps, n) == Sent(bps[1..], n);
      }
    }
  }

  /**
   Exactly what a reload leaves of any list: a line of the editor's text carries a breakpoint afterwards if and only if
   it is matched and an odd number of the old breakpoints asked for its old line. Beyond the text there is none, except
   on line 65535, and that when the last echo of an old line that the editor's text does not match set it.
   */
  lemma {:induction false} ReloadParity(X: seq<string>, Y: seq<string>, Z: seq<string>, bps: seq<nat>, y: nat,
                                        exact: bool)
    requires WithinLimits(X, Y) && WithinLimits(X, Z)
    requires exact ==> forall l :: l in Sent(bps, NewToOldOf(X, Y)) ==> IsMatchedOld(X, Z, l)
    ensures y < |Z| ==>
              (y in ReloadedThrough(bps, NewToOldOf(X, Y), OldToNewOf(X, Z)) <==>
               NewToOldOf(X, Z)[y] != INVALID_LINE && Askers(bps, NewToOldOf(X, Y), NewToOldOf(X, Z)[y]) % 2 == 1)
    ensures y >= |Z| && y in ReloadedThrough(bps, NewToOldOf(X, Y), OldToNewOf(X, Z)) ==> y == INVALID_LINE && !exact
    ensures var sent := Sent(bps, NewToOldOf(X, Y));
            INVALID_LINE in ReloadedThrough(bps, NewToOldOf(X, Y), OldToNewOf(X, Z)) <==>
            LastEchoSets({}, sent, Throughout(OldToNewOf(X, Z), |sent|), INVALID_LINE)
  {
    var n := NewToOldOf(X, Y);
    var toggles := Sent(bps, n);
    forall l | l in toggles
      ensures CanToggle(X, Z, l, exact)
    {
      SentIsMatched(X, Y, bps, l);
    }
    EchoesKeepMirror(X, Z, [], {}, toggles, exact);
    ReloadFollowsLastEcho(bps, n, Throughout(OldToNewOf(X, Z), |toggles|), INVALID_LINE);
    if y < |Z| {
      BackendParity({}, toggles, NewToOldOf(X, Z)[y]);
      SentOccurrences(bps, n, NewToOldOf(X, Z)[y]);
    }
  }

  /** How many breakpoints lie past the last line of the new text. */
  function PastEnd(bps: seq<nat>, lines: nat): nat
  {
    if bps == [] then 0 else (if bps[0] >= lines then 1 else 0) + PastEnd(bps[1..], lines)
  }

  lemma {:induction false} AskersOfLine(X: seq<string>, Y: seq<string>, bps: seq<nat>, y: nat)
    requires WithinLimits(X, Y) && y < |Y| && NewToOldOf(X, Y)[y] != INVALID_LINE
    ensures Askers(bps, NewToOldOf(X, Y), NewToOldOf(X, Y)[y]) ==
            Occurrences(bps, y) + if y == |Y| - 1 then PastEnd(bps, |Y|) else 0
  {
    if bps != [] {
      var n, b := NewToOldOf(X, Y), if bps[0] < |Y| then bps[0] else |Y| - 1;
      AskersOfLine(X, Y, bps[1..], y);
      if n[b] == n[y] {
        LookupRoundTrip(X, Y, b);
        LookupRoundTrip(X, Y, y);
      }
    }
  }

  lemma {:induction false} OccursOnce(s: seq<nat>, x: nat)
    requires NoDuplicates(s)
    ensures Occurrences(s, x) == if x in s then 1 else 0
  {
    NoDuplicatesByOccurrences(s);
  }

  /**
   Of a list without duplicates: a matched line counts once if it is in the list, and the last one also for the rest.
   */
  lemma {:induction false} ReloadOfDistinct(X: seq<string>, Y: seq<string>, bps: seq<nat>, y: nat)
    requires WithinLimits(X, Y) && NoDuplicates(bps)
    ensures y in ReloadedThrough(bps, NewToOldOf(X, Y), OldToNewOf(X, Y)) <==>
            && y < |Y| && NewToOldOf(X, Y)[y] != INVALID_LINE
            && ((y in bps) != (y == |Y| - 1 && PastEnd(bps, |Y|) % 2 == 1))
  {
    ReloadThroughOneMap(X, Y, bps, y);
    OccursOnce(bps, y);
    if y < |Y| && NewToOldOf(X, Y)[y] != INVALID_LINE {
      AskersOfLine(X, Y, bps, y);
    }
  }

  /** With one map everything that is sent is matched, so nothing comes back outside the text. */
  lemma {:induction false} ReloadThroughOneMap(X: seq<string>, Y: seq<string>, bps: seq<nat>, y: nat)
    requires WithinLimits(X, Y)
    ensures y in ReloadedThrough(bps, NewToOldOf(X, Y), OldToNewOf(X, Y)) <==>
            && y < |Y| && NewToOldOf(X, Y)[y] != INVALID_LINE
            && Askers(bps, NewToOldOf(X, Y), NewToOldOf(X, Y)[y]) % 2 == 1
  {
    var sent := Sent(bps, NewToOldOf(X, Y));
    forall l | l in sent
      ensures IsMatchedOld(X, Y, l)
    {
      SentIsMatched(X, Y, bps, l);
    }
    ReloadParity(X, Y, Y, bps, y, true);
  }

  /**
   Breakpoints past the end are all sent as the last line and flip each other. So on a list without duplicates the
   reload keeps exactly the matched breakpoints inside the text if and only if the last line is unmatched or an even
   number of breakpoints lies past it.
   */
  lemma {:induction false} PastEndIsHarmlessIff(X: seq<string>, Y: seq<string>, bps: seq<nat>)
    requires WithinLimits(X, Y) && NoDuplicates(bps)
    ensures (forall y: nat :: y in ReloadedThrough(bps, NewToOldOf(X, Y), OldToNewOf(X, Y)) <==>
                              y in Mapped(bps, NewToOldOf(X, Y)) && y < |Y|)
            <==> NewToOldOf(X, Y)[|Y| - 1] == INVALID_LINE || PastEnd(bps, |Y|) % 2 == 0
  {
    var r, last := ReloadedThrough(bps, NewToOldOf(X, Y), OldToNewOf(X, Y)), |Y| - 1;
    SurvivesIff(X, Y, bps, last);
    forall y: nat | y != last
      ensures y in r <==> y in Mapped(bps, NewToOldOf(X, Y)) && y < |Y|
    {
      SurvivesIff(X, Y, bps, y);
    }
  }

  /** Whether line y comes out as it should. */
  lemma {:induction false} SurvivesIff(X: seq<string>, Y: seq<string>, bps: seq<nat>, y: nat)
    requires WithinLimits(X, Y) && NoDuplicates(bps)
    ensures (y in ReloadedThrough(bps, NewToOldOf(X, Y), OldToNewOf(X, Y)) <==>
             y in Mapped(bps, NewToOldOf(X, Y)) && y < |Y|)
            <==> y != |Y| - 1 || NewToOldOf(X, Y)[y] == INVALID_LINE || PastEnd(bps, |Y|) % 2 == 0
  {
    MappedMembers(bps, NewToOldOf(X, Y));
    ReloadOfDistinct(X, Y, bps, y);
  }

  /** A breakpoint past the end of an unchanged text takes the one on the last line with it. */
  lemma {:induction false} PastEndCanFlipLast()
    ensures var X := ["a"];
            0 in Mapped([0, 1], NewToOldOf(X, X)) && 0 !in ReloadedThrough([0, 1], NewToOldOf(X, X), OldToNewOf(X, X))
  {
    var X := ["a"];
    Lcs.DiffOfEqual(X);
    assert [0, 1][1..] == [1] && [1][1..] == [];
    assert PastEnd([0, 1], 1) == 1;
    ReloadOfDistinct(X, X, [0, 1], 0);
  }

  // ----- Empty texts: the code fills the other side's map with zeros -----

  /** The last of the lines occurs an odd number of times. */
  predicate LastIsOdd(s: seq<nat>)
  {
    s != [] && Occurrences(s, s[|s| - 1]) % 2 == 1
  }

  /** All that is sent is old line 0, or goes back to line 0. */
  lemma {:induction false} AllOnLineZero(toggles: seq<nat>, maps: seq<seq<nat>>)
    requires |maps| == |toggles|
    requires forall k {:trigger maps[k]} :: 0 <= k < |toggles| ==> Lookup(maps[k], toggles[k]) == 0
    ensures Received([], Echoes({}, toggles), maps) == if LastIsOdd(toggles) then [0] else []
  {
    var r := Received([], Echoes({}, toggles), maps);
    ReceivedIsDistinct([], Echoes({}, toggles), maps);
    forall y
      ensures y in r <==> y == 0 && LastIsOdd(toggles)
    {
      LastEchoDecides([], {}, toggles, maps, y);
      assert toggles[..|toggles|] == toggles;
    }
    OnlyZero(r);
  }

  lemma {:induction false} OnlyZero(s: seq<nat>)
    requires NoDuplicates(s) && forall x :: x in s ==> x == 0
    ensures s == if 0 in s then [0] else []
  {
    NoDuplicatesMeans(s);
    assert |s| > 1 ==> s[0] != s[1];
    assert forall i {:trigger s[i]} :: 0 <= i < |s| ==> s[i] in s;
  }

  lemma {:induction false} SentToZero(bps: seq<nat>, n: nat)
    requires n > 0
    ensures Sent(bps, Zeros(n)) == Zeros(|bps|)
  {
    if bps != [] {
      SentToZero(bps[1..], n);
    }
  }

  lemma {:induction false} ZeroOccurrences(n: nat)
    ensures Occurrences(Zeros(n), 0) == n
  {
    if n > 0 {
      ZeroOccurrences(n - 1);
      assert Zeros(n)[1..] == Zeros(n - 1);
    }
  }

  /**
   A script without source, as the back end sends when it attaches after the script was loaded from a file: every
   breakpoint is sent as old line 0, and they cancel in pairs.
   */
  lemma {:induction false} ReloadOfEmptySource(Y: seq<string>, Z: seq<string>, bps: seq<nat>)
    requires |Y| > 0
    ensures ReloadedThrough(bps, NewToOldOf([], Y), OldToNewOf([], Z)) == if |bps| % 2 == 1 then [0] else []
  {
    var maps := Throughout(OldToNewOf([], Z), |bps|);
    SentToZero(bps, |Y|);
    ZeroOccurrences(|bps|);
    AllOnLineZero(Zeros(|bps|), maps);
  }

  /** So it keeps a list of distinct breakpoints exactly if it is empty or holds just line 0. */
  lemma {:induction false} ReloadOfEmptySourceIsExactIff(Y: seq<string>, Z: seq<string>, bps: seq<nat>)
    requires |Y| > 0
    ensures ReloadedThrough(bps, NewToOldOf([], Y), OldToNewOf([], Z)) == bps <==> bps == [] || bps == [0]
  {
    ReloadOfEmptySource(Y, Z, bps);
  }

  /** Two breakpoints on three lines are gone. */
  lemma {:induction false} EmptySourceCanLoseAll()
    ensures var Y := ["a", "b", "c"]; ReloadedThrough([1, 2], NewToOldOf([], Y), OldToNewOf([], Y)) == []
  {
    ReloadOfEmptySource(["a", "b", "c"], ["a", "b", "c"], [1, 2]);
  }

  /**
   An empty text in the editor, or on disk when nothing is open: whatever was sent comes back on line 0, and what was
   done last to the old line sent last decides.
   */
  lemma {:induction false} ReloadToEmptyText(X: seq<string>, n: seq<nat>, bps: seq<nat>)
    requires |X| > 0
    ensures ReloadedThrough(bps, n, OldToNewOf(X, [])) ==
            if LastIsOdd(Sent(bps, n)) then [0] else []
  {
    AllOnLineZero(Sent(bps, n), Throughout(OldToNewOf(X, []), |Sent(bps, n)|));
  }

  /** For distinct breakpoints the empty text gets one on line 0 if any was sent at all. */
  lemma {:induction false} ReloadOfDistinctToEmptyText(X: seq<string>, n: seq<nat>, bps: seq<nat>)
    requires |X| > 0 && NoDuplicates(Sent(bps, n))
    ensures ReloadedThrough(bps, n, OldToNewOf(X, [])) == if Sent(bps, n) == [] then [] else [0]
  {
    ReloadToEmptyText(X, n, bps);
    if Sent(bps, n) != [] {
      OccursOnce(Sent(bps, n), Sent(bps, n)[|Sent(bps, n)| - 1]);
    }
  }
}
