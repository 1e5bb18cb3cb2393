/**
 What happens to a file's breakpoints when the script it belongs to is loaded: the front end forgets them, sends a
 toggle for each one that has an old line, and sets again what the back end echoes, mapped back to new lines. The
 toggles go through the map of the script and the file on disk. The echoes go through whatever map there is by then: for
 a file that is open in the editor a diff with the text there is made before the first of them.
 */
module Reload {
  import opened Breakpoints
  import opened Lists
  import opened LineMapping

  datatype Echo = Echo(line: nat, isSet: bool)

  /** The old lines the LoadScript handler sends, in the order of the breakpoints. */
  function Sent(bps: seq<nat>, newToOld: seq<nat>): seq<nat>
  {
    if bps == [] then []
    else
      var oldLine := Lookup(newToOld, bps[0]);
      (if oldLine != INVALID_LINE then [oldLine] else []) + Sent(bps[1..], newToOld)
  }

  /** The breakpoints whose line has an old line, in order: those that are sent. */
  function Mapped(bps: seq<nat>, newToOld: seq<nat>): seq<nat>
  {
    if bps == [] then []
    else (if Lookup(newToOld, bps[0]) != INVALID_LINE then [bps[0]] else []) + Mapped(bps[1..], newToOld)
  }

  /** Breakpoint by breakpoint: an old line is sent for each that has one, in order, and for no other. */
  lemma {:induction false} SentOfParts(a: seq<nat>, b: seq<nat>, newToOld: seq<nat>, x: nat)
    ensures Sent(a + b, newToOld) == Sent(a, newToOld) + Sent(b, newToOld)
    ensures Mapped(a + b, newToOld) == Mapped(a, newToOld) + Mapped(b, newToOld)
    ensures Sent([x], newToOld) == if Lookup(newToOld, x) != INVALID_LINE then [Lookup(newToOld, x)] else []
    ensures Mapped([x], newToOld) == if Lookup(newToOld, x) != INVALID_LINE then [x] else []
  {
    assert [x][1..] == [];
    if a == [] {
      assert a + b == b;
    } else {
      SentOfParts(a[1..], b, newToOld, x);
      assert (a + b)[1..] == a[1..] + b;
    }
  }

  /** A toggle in the back end, whose list is seen as the set of its lines: only membership is ever asked of it. */
  function Flipped(backend: set<nat>, line: nat): set<nat>
  {
    if line in backend then backend - {line} else backend + {line}
  }

  /** The back end's list, toggled, is that set, flipped. */
  lemma FlippedIsToggled(list: seq<nat>, line: nat)
    requires NoDuplicates(list)
    ensures (set l | l in Toggled(list, line)) == Flipped((set l | l in list), line)
  {
    ToggledMembers(list, line);
  }

  /** The back end's answers: each toggle flips its line and is echoed with what it did. */
  function Echoes(backend: set<nat>, toggles: seq<nat>): (echoes: seq<Echo>)
    ensures |echoes| == |toggles|
    decreases |toggles|
  {
    if toggles == [] then []
    else [Echo(toggles[0], toggles[0] !in backend)] + Echoes(Flipped(backend, toggles[0]), toggles[1..])
  }

  /** The back end's lines after the toggles. */
  function BackendAfter(backend: set<nat>, toggles: seq<nat>): set<nat>
    decreases |toggles|
  {
    if toggles == [] then backend else BackendAfter(Flipped(backend, toggles[0]), toggles[1..])
  }

  /** The file's list after the SetBreakpoint events for the echoes, of which the k-th finds the map maps[k]. */
  function Received(bps: seq<nat>, echoes: seq<Echo>, maps: seq<seq<nat>>): seq<nat>
    requires |maps| == |echoes|
    decreases |echoes|
  {
    if echoes == [] then bps
    else Received(WithBreakpoint(bps, Lookup(maps[0], echoes[0].line), echoes[0].isSet), echoes[1..], maps[1..])
  }

  /** The whole round: a fresh script, the file's list cleared, a map for the toggles and one for each echo. */
  function Reloaded(bps: seq<nat>, newToOld: seq<nat>, maps: seq<seq<nat>>): seq<nat>
    requires |maps| == |Sent(bps, newToOld)|
  {
    Received([], Echoes({}, Sent(bps, newToOld)), maps)
  }

  /** The same map for each of n echoes. */
  function Throughout(oldToNew: seq<nat>, n: nat): (maps: seq<seq<nat>>)
    ensures |maps| == n
    ensures forall k {:trigger maps[k]} :: 0 <= k < n ==> maps[k] == oldToNew
  {
    seq(n, k => oldToNew)
  }

  /** One map for the first echoes and another for the rest of n. */
  function SwitchedMaps(before: seq<nat>, after: seq<nat>, first: nat, n: nat): (maps: seq<seq<nat>>)
    ensures |maps| == n
    ensures forall k {:trigger maps[k]} :: 0 <= k < n ==> maps[k] == if k < first then before else after
  {
    seq(n, k => if k < first then before else after)
  }

  /** The round with one map for the toggles and one for all echoes. */
  function ReloadedThrough(bps: seq<nat>, newToOld: seq<nat>, oldToNew: seq<nat>): seq<nat>
  {
    Reloaded(bps, newToOld, Throughout(oldToNew, |Sent(bps, newToOld)|))
  }

  // ----- Any maps: breakpoints that ask for different old lines -----

  /** Where the echoes of the toggles set breakpoints. */
  function Images(toggles: seq<nat>, maps: seq<seq<nat>>): (r: seq<nat>)
    requires |maps| == |toggles|
    ensures |r| == |toggles|
    ensures forall k {:trigger r[k]} :: 0 <= k < |r| ==> r[k] == Lookup(maps[k], toggles[k])
  {
    seq(|toggles|, k requires 0 <= k < |toggles| => Lookup(maps[k], toggles[k]))
  }

  /** The lines set one after the other. */
  function AllSet(bps: seq<nat>, lines: seq<nat>): seq<nat>
    decreases |lines|
  {
    if lines == [] then bps else AllSet(WithBreakpoint(bps, lines[0], true), lines[1..])
  }

  lemma {:induction false} AllSetMembers(bps: seq<nat>, lines: seq<nat>, y: nat)
    ensures y in AllSet(bps, lines) <==> y in bps || y in lines
    decreases |lines|
  {
    if lines != [] {
      AllSetMembers(WithBreakpoint(bps, lines[0], true), lines[1..], y);
      assert y in lines <==> y == lines[0] || y in lines[1..];
    }
  }

  /** Every line is new, or the list comes out shorter. */
  lemma {:induction false} AllSetLength(bps: seq<nat>, lines: seq<nat>)
    requires NoDuplicates(bps)
    ensures |AllSet(bps, lines)| <= |bps| + |lines|
    ensures |AllSet(bps, lines)| == |bps| + |lines| ==> AllSet(bps, lines) == bps + lines
    ensures NoDuplicates(AllSet(bps, lines))
    ensures NoDuplicates(bps + lines) ==> AllSet(bps, lines) == bps + lines
    decreases |lines|
  {
    if lines == [] {
      assert bps + lines == bps;
    } else {
      var x, rest := lines[0], lines[1..];
      NoDuplicatesAppend(bps, x);
      AllSetLength(WithBreakpoint(bps, x, true), rest);
      assert (bps + [x]) + rest == bps + lines;
      if x in bps {
        DuplicateInBoth(bps, lines, x);
      }
    }
  }

  lemma {:induction false} DuplicateInBoth(s: seq<nat>, t: seq<nat>, x: nat)
    requires x in s && x in t
    ensures !NoDuplicates(s + t)
  {
    NoDuplicatesByOccurrences(s + t);
    OccurrencesConcat(s, t, x);
    assert Occurrences(s + t, x) > 1;
  }

  /** Toggles of different lines all set. */
  lemma {:induction false} DistinctTogglesSet(bps: seq<nat>, backend: set<nat>, toggles: seq<nat>, maps: seq<seq<nat>>)
    requires |maps| == |toggles| && NoDuplicates(toggles) && forall l :: l in toggles ==> l !in backend
    ensures Received(bps, Echoes(backend, toggles), maps) == AllSet(bps, Images(toggles, maps))
    decreases |toggles|
  {
    if toggles != [] {
      var l, rest := toggles[0], toggles[1..];
      assert Echoes(backend, toggles)[1..] == Echoes(backend + {l}, rest);
      assert Images(toggles, maps)[1..] == Images(rest, maps[1..]);
      DistinctTogglesSet(WithBreakpoint(bps, Lookup(maps[0], l), true), backend + {l}, rest, maps[1..]);
    }
  }

  lemma {:induction false} MappedMembers(bps: seq<nat>, n: seq<nat>)
    ensures forall b :: b in Mapped(bps, n) <==> b in bps && Lookup(n, b) != INVALID_LINE
    ensures NoDuplicates(bps) ==> NoDuplicates(Mapped(bps, n))
    ensures |Mapped(bps, n)| <= |bps|
  {
    if bps != [] {
      MappedMembers(bps[1..], n);
      if Lookup(n, bps[0]) != INVALID_LINE {
        assert Mapped(bps, n)[1..] == Mapped(bps[1..], n);
      } else {
        assert Mapped(bps, n) == Mapped(bps[1..], n);
      }
    }
  }

  /** The k-th toggle is the old line of the k-th breakpoint that has one. */
  lemma {:induction false} SentFollowsMapped(bps: seq<nat>, n: seq<nat>)
    ensures |Sent(bps, n)| == |Mapped(bps, n)|
    ensures forall k {:trigger Sent(bps, n)[k]} :: 0 <= k < |Sent(bps, n)| ==>
              Sent(bps, n)[k] == Lookup(n, Mapped(bps, n)[k]) != INVALID_LINE
  {
    if bps != [] {
      SentFollowsMapped(bps[1..], n);
      if Lookup(n, bps[0]) == INVALID_LINE {
        assert Sent(bps, n) == Sent(bps[1..], n) && Mapped(bps, n) == Mapped(bps[1..], n);
      }
    }
  }

  /** Each toggle's echo finds a map that takes it back to the line it was sent for. */
  ghost predicate EachComesBack(toggles: seq<nat>, maps: seq<seq<nat>>, lines: seq<nat>)
    requires |maps| == |toggles| == |lines|
  {
    forall k {:trigger maps[k]} :: 0 <= k < |maps| ==> Lookup(maps[k], toggles[k]) == lines[k]
  }

  lemma {:induction false} ImagesAreIff(toggles: seq<nat>, maps: seq<seq<nat>>, lines: seq<nat>)
    requires |maps| == |toggles| == |lines|
    ensures Images(toggles, maps) == lines <==> EachComesBack(toggles, maps, lines)
  {
    var images := Images(toggles, maps);
    if images == lines {
      assert forall k {:trigger maps[k]} :: 0 <= k < |maps| ==> images[k] == lines[k];
    }
  }

  /** As many lines set as there are in a list without duplicates give that list only if they are its lines in order. */
  lemma {:induction false} AllSetIsIff(images: seq<nat>, lines: seq<nat>)
    requires NoDuplicates(lines) && |images| == |lines|
    ensures AllSet([], images) == lines <==> images == lines
  {
    AllSetLength([], images);
    assert [] + images == images;
  }

  /**
   For any maps whatever, one for the toggles and one for each echo: a reload of distinct breakpoints that ask for
   different old lines leaves exactly those that have one, in order, if and only if each echo's map takes its line back.
   */
  lemma {:induction false} ReloadKeepsMappedIff(bps: seq<nat>, newToOld: seq<nat>, maps: seq<seq<nat>>)
    requires NoDuplicates(bps) && NoDuplicates(Sent(bps, newToOld)) && |maps| == |Sent(bps, newToOld)|
    ensures |maps| == |Mapped(bps, newToOld)|
    ensures Reloaded(bps, newToOld, maps) == Mapped(bps, newToOld) <==>
            EachComesBack(Sent(bps, newToOld), maps, Mapped(bps, newToOld))
  {
    var sent, mapped := Sent(bps, newToOld), Mapped(bps, newToOld);
    SentFollowsMapped(bps, newToOld);
    MappedMembers(bps, newToOld);
    DistinctTogglesSet([], {}, sent, maps);
    AllSetIsIff(Images(sent, maps), mapped);
    ImagesAreIff(sent, maps, mapped);
  }

  /**
   And whichever they take back: the lines that carry a breakpoint afterwards are the images of the old lines sent.
   */
  lemma {:induction false} ReloadIsImage(bps: seq<nat>, newToOld: seq<nat>, oldToNew: seq<nat>, y: nat)
    requires NoDuplicates(Sent(bps, newToOld))
    ensures y in ReloadedThrough(bps, newToOld, oldToNew) <==>
            exists b :: b in Mapped(bps, newToOld) && Lookup(oldToNew, Lookup(newToOld, b)) == y
  {
    var sent, mapped := Sent(bps, newToOld), Mapped(bps, newToOld);
    var maps := Throughout(oldToNew, |sent|);
    DistinctTogglesSet([], {}, sent, maps);
    AllSetMembers([], Images(sent, maps), y);
    SentFollowsMapped(bps, newToOld);
    if y in Images(sent, maps) {
      var k :| 0 <= k < |sent| && Images(sent, maps)[k] == y;
      assert mapped[k] in mapped && sent[k] == Lookup(newToOld, mapped[k]);
    }
    forall b | b in mapped && Lookup(oldToNew, Lookup(newToOld, b)) == y
      ensures y in Images(sent, maps)
    {
      var k :| 0 <= k < |mapped| && mapped[k] == b;
      assert sent[k] == Lookup(newToOld, b) && Images(sent, maps)[k] == y;
    }
  }

  /**
   A script that was not diffed at its load sends every breakpoint under its own number, but for one on line 65535.
   */
  lemma {:induction false} UndiffedSent(bps: seq<nat>)
    ensures Sent(bps, []) == Mapped(bps, [])
    ensures INVALID_LINE !in bps ==> Mapped(bps, []) == bps
    ensures INVALID_LINE in bps ==> |Mapped(bps, [])| < |bps|
  {
    if bps != [] {
      UndiffedSent(bps[1..]);
      MappedMembers(bps[1..], []);
    }
  }

  /**
   So it keeps the whole list if and only if that line is not in it and the map that is found from some echo on, that
   of a diff with the text in the editor, takes every later breakpoint to itself.
   */
  lemma {:induction false} ReloadWithoutDiffIff(bps: seq<nat>, oldToNew: seq<nat>, first: nat)
    requires NoDuplicates(bps) && first <= |Sent(bps, [])|
    ensures Reloaded(bps, [], SwitchedMaps([], oldToNew, first, |Sent(bps, [])|)) == bps <==>
            INVALID_LINE !in bps && forall k :: first <= k < |bps| ==> Lookup(oldToNew, bps[k]) == bps[k]
  {
    var maps := SwitchedMaps([], oldToNew, first, |Sent(bps, [])|);
    UndiffedSent(bps);
    MappedMembers(bps, []);
    if INVALID_LINE in bps {
      ReloadIsShort(bps, maps);
    } else {
      ReloadKeepsMappedIff(bps, [], maps);
      assert forall k {:trigger bps[k]} :: 0 <= k < |bps| ==> maps[k] == if k < first then [] else oldToNew;
    }
  }

  lemma {:induction false} ReloadIsShort(bps: seq<nat>, maps: seq<seq<nat>>)
    requires NoDuplicates(Sent(bps, [])) && |maps| == |Sent(bps, [])|
    ensures |Reloaded(bps, [], maps)| <= |Sent(bps, [])|
  {
    DistinctTogglesSet([], {}, Sent(bps, []), maps);
    AllSetLength([], Images(Sent(bps, []), maps));
  }
}
