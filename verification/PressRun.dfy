/**
 What becomes of a toggle that the user makes while the script runs: once it has gone to the back end and its answer has
 come back, the line has changed on both sides.
 */
module PressRun {
  import opened Lists
  import opened ProjectFiles
  import opened LineMapping
  import opened LineMapLaws
  import opened DebugSession
  import opened DebugSessionLaws
  import opened Reload
  import opened ReloadLaws
  import opened ReloadRun
  import opened MirrorRun
  import opened HandlerLaws

  lemma {:induction false} BackendAfterConcat(backend: set<nat>, a: seq<nat>, b: seq<nat>)
    ensures BackendAfter(backend, a + b) == BackendAfter(BackendAfter(backend, a), b)
    decreases |a|
  {
    if a == [] {
      assert a + b == b;
    } else {
      assert (a + b)[1..] == a[1..] + b;
      BackendAfterConcat(Flipped(backend, a[0]), a[1..], b);
    }
  }

  /** The commands of w' go on those of w, and the back end has taken more of them, which account for its lines. */
  predicate Continues(w: World, w': World, i: nat)
  {
    && w.served <= w'.served <= |w'.s.commands| && |w.s.commands| <= |w'.s.commands|
    && w.s.commands == w'.s.commands[..|w.s.commands|]
    && w'.backend == BackendAfter(w.backend, TogglesOf(w'.s.commands[w.served..w'.served], i))
  }

  lemma {:induction false} StepContinues(w: World, step: WorldStep, i: nat)
    requires Inv(w.s) && i < w.s.handled && w.served <= |w.s.commands| && CanStep(w, step, i)
    ensures Continues(w, StepWorld(w, step, i), i)
  {
    var w' := StepWorld(w, step, i);
    match step
    case Serve =>
      var c := w.s.commands[w.served];
      assert w.s.commands[w.served..w'.served] == [c] && [c][..0] == [];
      if c.Toggle? {
        assert [c.line][1..] == [];
      }
    case Take(t) =>
      assert !t.Start?;
      CommandsGrow(w.s, t, i);
      assert w'.s.commands[w.served..w.served] == [];
  }

  lemma {:induction false} ContinuesFurther(w: World, w1: World, w': World, i: nat)
    requires Continues(w, w1, i) && Continues(w1, w', i)
    ensures Continues(w, w', i)
  {
    var cs := w'.s.commands;
    var a, b := cs[w.served..w1.served], cs[w1.served..w'.served];
    assert cs[w.served..w'.served] == a + b;
    TogglesOfConcat(a, b, i);
    BackendAfterConcat(w.backend, TogglesOf(a, i), TogglesOf(b, i));
    SliceWithin(cs, w1.s.commands, w.served, w1.served);
    assert w.s.commands == w1.s.commands[..|w.s.commands|] == cs[..|w.s.commands|];
  }

  lemma {:induction false} SliceWithin<T>(a: seq<T>, b: seq<T>, s: nat, n: nat)
    requires s <= n <= |b| <= |a| && b == a[..|b|]
    ensures a[s..n] == b[s..n]
  {
  }

  lemma {:induction false} RunContinues(w: World, steps: seq<WorldStep>, i: nat, k: nat, X: seq<string>, Y: seq<string>,
                                        Z: seq<string>)
    requires WithinLimits(X, Y) && WithinLimits(X, Z) && KeepsPlaces(X, Y, Z)
    requires WorldInv(w, i, k, X, Y, Z) && CanRun(w, steps, i) && AllLeaveText(w, steps, i, X, Z)
    ensures Continues(w, RunWorld(w, steps, i), i)
    decreases |steps|
  {
    if steps == [] {
      assert w.s.commands[w.served..w.served] == [];
      assert w.s.commands[..|w.s.commands|] == w.s.commands;
    } else {
      var w1 := StepWorld(w, steps[0], i);
      StepContinues(w, steps[0], i);
      var k1 := WorldStepKeepsInv(w, steps[0], i, k, X, Y, Z);
      RunContinues(w1, steps[1..], i, k1, X, Y, Z);
      ContinuesFurther(w, w1, RunWorld(w1, steps[1..], i), i);
    }
  }

  /** How many of the commands from s up to m toggle line l of the script. */
  function TogglesCounted(cs: seq<Command>, s: nat, m: nat, i: nat, l: nat): nat
    requires s <= m <= |cs|
  {
    Occurrences(TogglesOf(cs[s..m], i), l)
  }

  lemma {:induction false} CountedInTwo(cs: seq<Command>, s: nat, m: nat, n: nat, i: nat, l: nat)
    requires s <= m <= n <= |cs|
    ensures TogglesCounted(cs, s, n, i, l) == TogglesCounted(cs, s, m, i, l) + TogglesCounted(cs, m, n, i, l)
  {
    assert cs[s..n] == cs[s..m] + cs[m..n];
    TogglesOfConcat(cs[s..m], cs[m..n], i);
    OccurrencesConcat(TogglesOf(cs[s..m], i), TogglesOf(cs[m..n], i), l);
  }

  lemma {:induction false} CountedToEnd(cs: seq<Command>, s: nat, i: nat, l: nat)
    requires s <= |cs|
    ensures TogglesCounted(cs, s, |cs|, i, l) == Occurrences(TogglesOf(cs[s..], i), l)
  {
    assert cs[s..|cs|] == cs[s..];
  }

  lemma {:induction false} CountedInPrefix(cs: seq<Command>, before: seq<Command>, s: nat, n: nat, i: nat, l: nat)
    requires s <= n <= |before| <= |cs| && before == cs[..|before|]
    ensures TogglesCounted(cs, s, n, i, l) == TogglesCounted(before, s, n, i, l)
  {
    SliceWithin(cs, before, s, n);
  }

  lemma {:induction false} OneToggle(cs: seq<Command>, n: nat, i: nat, vm: nat, l: nat)
    requires n < |cs| && cs[n] == Toggle(vm, i, l)
    ensures TogglesCounted(cs, n, n + 1, i, l) == 1
  {
    assert cs[n..n + 1] == [cs[n]] && [cs[n]][..0] == [] && [l][1..] == [];
    assert TogglesOf([cs[n]], i) == [l];
  }

  /** No toggle of old line l is on its way to the back end, and no answer for it on its way back. */
  predicate IsAtRest(w: World, i: nat, l: nat)
    requires w.served <= |w.s.commands|
  {
    l !in TogglesOf(w.s.commands[w.served..], i) && l !in LinesOf(UnderWay(w, i))
  }

  lemma {:induction false} ShownIs(w: World, i: nat, k: nat, X: seq<string>, Y: seq<string>, Z: seq<string>, y: nat)
    requires WithinLimits(X, Y) && WithinLimits(X, Z) && KeepsPlaces(X, Y, Z) && WorldInv(w, i, k, X, Y, Z)
    requires y < |Z| && NewToOldOf(X, Z)[y] != INVALID_LINE
    ensures y in BreakpointsOf(w.s.files, i) <==> NewToOldOf(X, Z)[y] in w.shown
    ensures w.backend == BackendAfter(w.shown, LinesOf(UnderWay(w, i)))
  {
    SwitchKeepsMirrorIff(X, Y, Z);
    assert MirrorRun.Shows(X, Z, w.s.files[k].breakpoints, w.shown);
    FoundAt(w.s.files, w.s.handled, w.s.lost, k, i);
  }

  /** Both sides agree about a line that is at rest, whatever else is under way. */
  lemma {:induction false} AgreesAtRest(w: World, i: nat, k: nat, X: seq<string>, Y: seq<string>, Z: seq<string>,
                                        y: nat, l: nat)
    requires WithinLimits(X, Y) && WithinLimits(X, Z) && KeepsPlaces(X, Y, Z) && WorldInv(w, i, k, X, Y, Z)
    requires y < |Z| && l == NewToOldOf(X, Z)[y] != INVALID_LINE && l !in LinesOf(UnderWay(w, i))
    ensures y in BreakpointsOf(w.s.files, i) <==> l in w.backend
  {
    ShownIs(w, i, k, X, Y, Z, y);
    NoneUnderWay(w.shown, LinesOf(UnderWay(w, i)), w.backend, l);
  }

  lemma {:induction false} NoneUnderWay(shown: set<nat>, lines: seq<nat>, backend: set<nat>, l: nat)
    requires l !in lines && backend == BackendAfter(shown, lines)
    ensures l in backend <==> l in shown
  {
    BackendParity(shown, lines, l);
  }

  /**
   Over every run without edits, when a line is at rest at its end: it is set on both sides if it was set before and an
   even number of toggles of it have been made since or were still to be taken, or was not and the number is odd.
   */
  lemma {:induction false} LineFollowsToggles(w: World, steps: seq<WorldStep>, i: nat, k: nat, X: seq<string>,
                                              Y: seq<string>, Z: seq<string>, y: nat)
    requires WithinLimits(X, Y) && WithinLimits(X, Z) && KeepsPlaces(X, Y, Z)
    requires WorldInv(w, i, k, X, Y, Z) && CanRun(w, steps, i) && AllLeaveText(w, steps, i, X, Z)
    requires y < |Z| && NewToOldOf(X, Z)[y] != INVALID_LINE
    requires var w' := RunWorld(w, steps, i); w'.served <= |w'.s.commands| && IsAtRest(w', i, NewToOldOf(X, Z)[y])
    ensures w.served <= |RunWorld(w, steps, i).s.commands|
    ensures var w', l := RunWorld(w, steps, i), NewToOldOf(X, Z)[y];
            && (y in BreakpointsOf(w'.s.files, i) <==> l in w'.backend)
            && (l in w'.backend <==>
                (l in w.backend) != (Occurrences(TogglesOf(w'.s.commands[w.served..], i), l) % 2 == 1))
  {
    var w', l := RunWorld(w, steps, i), NewToOldOf(X, Z)[y];
    RunAgrees(w, steps, w', i, k, X, Y, Z, y, l);
    TakenDecide(w, w', i, l);
  }

  lemma {:induction false} TakenDecide(w: World, w': World, i: nat, l: nat)
    requires Continues(w, w', i) && l !in TogglesOf(w'.s.commands[w'.served..], i)
    ensures l in w'.backend <==> (l in w.backend) != (Occurrences(TogglesOf(w'.s.commands[w.served..], i), l) % 2 == 1)
  {
    var cs := w'.s.commands;
    CountedInTwo(cs, w.served, w'.served, |cs|, i, l);
    CountedToEnd(cs, w.served, i, l);
    CountedToEnd(cs, w'.served, i, l);
    BackendParity(w.backend, TogglesOf(cs[w.served..w'.served], i), l);
  }

  /**
   The user toggles a matched line that is at rest. Once it is at rest again, with no other toggle of it made since, its
   breakpoint has come or gone in the editor and in the back end.
   */
  lemma {:induction false} PressFlipsBoth(
    w: World, t: Step, y: nat, pressed: World, steps: seq<WorldStep>, w': World, i: nat, k: nat, X: seq<string>,
    Y: seq<string>, Z: seq<string>)
    requires WithinLimits(X, Y) && WithinLimits(X, Z) && KeepsPlaces(X, Y, Z) && WorldInv(w, i, k, X, Y, Z)
    requires y < |Z| && NewToOldOf(X, Z)[y] != INVALID_LINE && IsAtRest(w, i, NewToOldOf(X, Z)[y])
    requires t.Press? && t.line == y && t.k < |w.s.files| && w.s.files[t.k].scriptIndex == i
    requires CanStep(w, Take(t), i) && LeavesText(w.s, t, i, X, Z) && pressed == StepWorld(w, Take(t), i)
    requires CanRun(pressed, steps, i) && AllLeaveText(pressed, steps, i, X, Z) && w' == RunWorld(pressed, steps, i)
    requires |pressed.s.commands| <= |w'.s.commands| && w'.served <= |w'.s.commands|
    requires NewToOldOf(X, Z)[y] !in TogglesOf(w'.s.commands[|pressed.s.commands|..], i)
    requires IsAtRest(w', i, NewToOldOf(X, Z)[y])
    ensures y in BreakpointsOf(w'.s.files, i) <==> y !in BreakpointsOf(w.s.files, i)
    ensures NewToOldOf(X, Z)[y] in w'.backend <==> NewToOldOf(X, Z)[y] !in w.backend
  {
    var l := NewToOldOf(X, Z)[y];
    PressedCommands(w, t, y, pressed, i, k, X, Y, Z);
    AgreesAtRest(w, i, k, X, Y, Z, y, l);
    StepThenRun(w, t, pressed, steps, w', i, k, X, Y, Z, y, l);
    PressDecides(w, pressed, w', i, t.vm, l);
  }

  lemma {:induction false} PressDecides(w: World, pressed: World, w': World, i: nat, vm: nat, l: nat)
    requires w.served <= |w.s.commands| && pressed.s.commands == w.s.commands + [Toggle(vm, i, l)]
    requires pressed.served == w.served && pressed.backend == w.backend && Continues(pressed, w', i)
    requires l !in TogglesOf(w.s.commands[w.served..], i) && l !in TogglesOf(w'.s.commands[w'.served..], i)
    requires l !in TogglesOf(w'.s.commands[|pressed.s.commands|..], i)
    ensures l in w'.backend <==> l !in w.backend
  {
    PressIsCounted(w, pressed, w', i, vm, l);
    TakenDecide(pressed, w', i, l);
  }

  lemma {:induction false} StepThenRun(
    w: World, t: Step, w1: World, steps: seq<WorldStep>, w': World, i: nat, k: nat, X: seq<string>, Y: seq<string>,
    Z: seq<string>, y: nat, l: nat)
    requires WithinLimits(X, Y) && WithinLimits(X, Z) && KeepsPlaces(X, Y, Z) && WorldInv(w, i, k, X, Y, Z)
    requires CanStep(w, Take(t), i) && LeavesText(w.s, t, i, X, Z) && w1 == StepWorld(w, Take(t), i)
    requires CanRun(w1, steps, i) && AllLeaveText(w1, steps, i, X, Z) && w' == RunWorld(w1, steps, i)
    requires y < |Z| && l == NewToOldOf(X, Z)[y] != INVALID_LINE && l !in LinesOf(UnderWay(w', i))
    ensures Continues(w1, w', i) && (y in BreakpointsOf(w'.s.files, i) <==> l in w'.backend)
  {
    var k1 := WorldStepKeepsInv(w, Take(t), i, k, X, Y, Z);
    RunAgrees(w1, steps, w', i, k1, X, Y, Z, y, l);
  }

  lemma {:induction false} RunAgrees(w: World, steps: seq<WorldStep>, w': World, i: nat, k: nat, X: seq<string>,
                                     Y: seq<string>, Z: seq<string>, y: nat, l: nat)
    requires WithinLimits(X, Y) && WithinLimits(X, Z) && KeepsPlaces(X, Y, Z) && WorldInv(w, i, k, X, Y, Z)
    requires CanRun(w, steps, i) && AllLeaveText(w, steps, i, X, Z) && w' == RunWorld(w, steps, i)
    requires y < |Z| && l == NewToOldOf(X, Z)[y] != INVALID_LINE && l !in LinesOf(UnderWay(w', i))
    ensures Continues(w, w', i) && (y in BreakpointsOf(w'.s.files, i) <==> l in w'.backend)
  {
    RunContinues(w, steps, i, k, X, Y, Z);
    var k' := WorldRunKeepsInv(w, steps, i, k, X, Y, Z);
    AgreesAtRest(w', i, k', X, Y, Z, y, l);
  }

  /** The line has the same old line through either map that the script may have after the step. */
  lemma {:induction false} OldLineIs(s: State, kf: nat, y: nat, diffs: map<int, Script>, i: nat, X: seq<string>,
                                     Y: seq<string>, Z: seq<string>)
    requires WithinLimits(X, Z) && KeepsPlaces(X, Y, Z) && (Maps(s, i, X, Y) || Maps(s, i, X, Z))
    requires y < |Z| && NewToOldOf(X, Z)[y] != INVALID_LINE && kf < |s.files| && s.files[kf].scriptIndex == i
    requires i in diffs ==> HasMaps(diffs[i], X, Z)
    ensures OldLineOf(s, kf, y, diffs) == NewToOldOf(X, Z)[y]
  {
    assert HasSameOldLine(X, Y, Z, y);
  }

  lemma {:induction false} PressedCommands(w: World, t: Step, y: nat, pressed: World, i: nat, k: nat, X: seq<string>,
                                           Y: seq<string>, Z: seq<string>)
    requires WithinLimits(X, Y) && WithinLimits(X, Z) && KeepsPlaces(X, Y, Z) && WorldInv(w, i, k, X, Y, Z)
    requires y < |Z| && NewToOldOf(X, Z)[y] != INVALID_LINE
    requires t.Press? && t.line == y && t.k < |w.s.files| && w.s.files[t.k].scriptIndex == i
    requires CanStep(w, Take(t), i) && LeavesText(w.s, t, i, X, Z) && pressed == StepWorld(w, Take(t), i)
    ensures pressed.s.commands == w.s.commands + [Toggle(t.vm, i, NewToOldOf(X, Z)[y])]
    ensures pressed.served == w.served && pressed.backend == w.backend
  {
    OldLineIs(w.s, t.k, y, t.diffs, i, X, Y, Z);
    PressedWorld(w, t, pressed, i);
  }

  lemma {:induction false} PressedWorld(w: World, t: Step, pressed: World, i: nat)
    requires t.Press? && CanStep(w, Take(t), i) && pressed == StepWorld(w, Take(t), i)
    requires OldLineOf(w.s, t.k, t.line, t.diffs) != INVALID_LINE
    ensures pressed.s.commands ==
            w.s.commands + [Toggle(t.vm, w.s.files[t.k].scriptIndex, OldLineOf(w.s, t.k, t.line, t.diffs))]
    ensures pressed.served == w.served && pressed.backend == w.backend
  {
    assert t == Press(t.k, t.line, t.vm, t.diffs);
    PressSends(w.s, t.k, t.line, t.vm, t.diffs);
  }

  /** Of what was unserved before the toggle, the toggle, and what was sent since, only the toggle is of l. */
  lemma {:induction false} PressIsCounted(w: World, pressed: World, w': World, i: nat, vm: nat, l: nat)
    requires w.served <= |w.s.commands| && pressed.s.commands == w.s.commands + [Toggle(vm, i, l)]
    requires Continues(pressed, w', i)
    requires l !in TogglesOf(w.s.commands[w.served..], i)
    requires l !in TogglesOf(w'.s.commands[|pressed.s.commands|..], i)
    ensures Occurrences(TogglesOf(w'.s.commands[w.served..], i), l) == 1
  {
    var before, cs, n := w.s.commands, w'.s.commands, |w.s.commands|;
    assert before == pressed.s.commands[..n] == cs[..n];
    assert cs[n] == pressed.s.commands[n];
    CountedInPrefix(cs, before, w.served, n, i, l);
    CountedToEnd(before, w.served, i, l);
    OneToggle(cs, n, i, vm, l);
    CountedToEnd(cs, n + 1, i, l);
    CountedInTwo(cs, w.served, n, n + 1, i, l);
    CountedInTwo(cs, w.served, n + 1, |cs|, i, l);
    CountedToEnd(cs, w.served, i, l);
  }
}
