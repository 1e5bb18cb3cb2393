/**
 The reload, carried out by the steps of DebugSession: from the LoadScript event to the last echo, with any other step
 of either thread and of the user in between that leaves the file and its breakpoints alone.
 */
module ReloadRun {
  import opened ProjectFiles
  import opened Breakpoints
  import opened Lists
  import opened LineMapping
  import opened LineMapLaws
  import opened DebugSession
  import opened DebugSessionLaws
  import opened Reload
  import opened ReloadLaws

  /** The breakpoints of the file bound to script i. */
  function BreakpointsOf(fs: seq<FileState>, i: nat): seq<nat>
  {
    var k := FindScript(fs, i, 0);
    if k < |fs| then fs[k].breakpoints else []
  }

  /** The UI handles an echo of the back end for script i. */
  predicate IsEcho(s: State, step: Step, i: nat)
  {
    step.Handle? && s.queue != [] && s.queue[0].SetBreakpoint? && s.queue[0].scriptIndex == i < |s.scripts|
  }

  /**
   The step neither ends the session nor takes the file of script i away nor changes its breakpoints but by an echo.
   */
  predicate Spares(s: State, step: Step, i: nat)
    requires Enabled(s, step)
  {
    match step
    case Handle(_) => !s.queue[0].SessionEnd?
    case Change(k, _) => s.files[k].scriptIndex != i
    case Press(k, _, _, _) => s.files[k].scriptIndex != i
    case Remove(k) => s.files[k].scriptIndex != i
    case Replace(_) => false
    case _ => true
  }

  // ----- One step -----

  /** Script indices are distinct, so the file that has one is the file that is found. */
  lemma {:induction false} FoundAt(fs: seq<FileState>, handled: nat, lost: set<int>, k: nat, i: nat)
    requires Binds(fs, handled, lost) && k < |fs| && fs[k].scriptIndex == i
    ensures HasFile(fs, i) && FindScript(fs, i, 0) == k && BreakpointsOf(fs, i) == fs[k].breakpoints
  {
    assert FindScript(fs, i, 0) <= k;
  }

  /** Where the file at place k is after the step. */
  function PlaceAfter(s: State, step: Step, k: nat): int
    requires Enabled(s, step)
  {
    if step.Remove? && step.k < k then k - 1
    else if step.Close? && step.k < k && s.files[step.k].temporary && s.files[step.k].scriptIndex == NO_SCRIPT
    then k - 1
    else k
  }

  lemma {:induction false} HandleKeepsFile(s: State, diffs: map<int, Script>, i: nat, k: nat)
    requires Inv(s) && CanHandle(s) && Spares(s, Handle(diffs), i) && i < s.handled
    requires k < |s.files| && s.files[k].scriptIndex == i
    ensures var s' := HandleNext(s, diffs);
            && i < |s'.scripts| && k < |s'.files| && s'.files[k].scriptIndex == i
            && s'.files[k].breakpoints ==
               if IsEcho(s, Handle(diffs), i)
               then WithBreakpoint(s.files[k].breakpoints, Lookup(s'.scripts[i].oldToNew, s.queue[0].line),
                                   s.queue[0].isSet)
               else s.files[k].breakpoints
  {
    ScriptsCover(s);
    HeadIsKnown(s);
    if s.queue[0].Break? {
      BreakKeepsIndices(s.(queue := s.queue[1..]), s.queue[0].frames, diffs);
    }
  }

  lemma {:induction false} StepKeepsFile(s: State, step: Step, i: nat, k: nat)
    requires Inv(s) && Enabled(s, step) && Spares(s, step, i) && i < s.handled
    requires k < |s.files| && s.files[k].scriptIndex == i
    ensures var s', k' := Next(s, step), PlaceAfter(s, step, k);
            && i < s'.handled && i < |s'.scripts| && 0 <= k' < |s'.files| && s'.files[k'].scriptIndex == i
            && s'.files[k'].breakpoints ==
               if IsEcho(s, step, i)
               then WithBreakpoint(s.files[k].breakpoints, Lookup(s'.scripts[i].oldToNew, s.queue[0].line),
                                   s.queue[0].isSet)
               else s.files[k].breakpoints
  {
    ScriptsCover(s);
    HandledGrows(s, step, i);
    if step.Handle? {
      HandleKeepsFile(s, step.diffs, i, k);
    } else if step.Remove? || step.Close? {
      TakingAwayKeepsFile(s, step, i, k);
    }
  }

  lemma {:induction false} TakingAwayKeepsFile(s: State, step: Step, i: nat, k: nat)
    requires Enabled(s, step) && Spares(s, step, i) && (step.Remove? || step.Close?)
    requires k < |s.files| && s.files[k].scriptIndex == i
    ensures var s', k' := Next(s, step), PlaceAfter(s, step, k);
            && s'.scripts == s.scripts && s'.handled == s.handled && 0 <= k' < |s'.files|
            && s'.files[k'].scriptIndex == i && s'.files[k'].breakpoints == s.files[k].breakpoints
  {
    RemovedAt(s.files, step.k);
  }

  lemma {:induction false} ScriptsCover(s: State)
    requires Inv(s)
    ensures s.handled <= |s.scripts|
  {
    if s.phase != Inactive {
      OrderlyCounts(Pending(s), s.handled, |s.scripts|, Ended(s));
    }
  }

  /** The diffs that the step makes for script i, if any, end in the map o. */
  predicate DiffsTo(step: Step, i: nat, o: seq<nat>)
  {
    && (step.Handle? && i in step.diffs ==> step.diffs[i].oldToNew == o)
    && (step.Look? && step.i == i ==> step.script.oldToNew == o)
  }

  lemma {:induction false} LookedAt(scripts: seq<Script>, frames: seq<int>, diffs: map<int, Script>, n: nat, i: nat)
    requires n <= |frames| && i < |scripts|
    ensures Looked(scripts, frames, diffs, n)[i].oldToNew ==
            if i in diffs && i in frames[..n] then diffs[i].oldToNew else scripts[i].oldToNew
  {
    if n > 0 {
      LookedAt(scripts, frames, diffs, n - 1, i);
      assert frames[..n] == frames[..n - 1] + [frames[n - 1]];
    }
  }

  /** Before and after a step script i has either the same map or the one its diffs end in. */
  lemma {:induction false} StepKeepsMap(s: State, step: Step, i: nat, o: seq<nat>)
    requires Inv(s) && Enabled(s, step) && Spares(s, step, i) && i < s.handled && DiffsTo(step, i, o)
    ensures i < |s.scripts| && i < |Next(s, step).scripts|
    ensures Next(s, step).scripts[i].oldToNew == s.scripts[i].oldToNew || Next(s, step).scripts[i].oldToNew == o
  {
    ScriptsCover(s);
    if step.Handle? {
      HeadIsKnown(s);
      if s.queue[0].Break? {
        LookedAt(s.scripts, s.queue[0].frames, step.diffs, |s.queue[0].frames|, i);
      }
    }
  }

  // ----- Runs -----

  predicate AllSpare(s: State, steps: seq<Step>, i: nat)
    requires CanTake(s, steps)
    decreases |steps|
  {
    steps != [] ==> Spares(s, steps[0], i) && AllSpare(Next(s, steps[0]), steps[1..], i)
  }

  /** The echoes for script i that the UI handles, in order. */
  function EchoesIn(s: State, steps: seq<Step>, i: nat): (echoes: seq<Echo>)
    requires CanTake(s, steps)
    decreases |steps|
  {
    if steps == [] then []
    else
      (if IsEcho(s, steps[0], i) then [Echo(s.queue[0].line, s.queue[0].isSet)] else [])
      + EchoesIn(Next(s, steps[0]), steps[1..], i)
  }

  /** The map that each of them finds. */
  function MapsIn(s: State, steps: seq<Step>, i: nat): (maps: seq<seq<nat>>)
    requires CanTake(s, steps)
    ensures |maps| == |EchoesIn(s, steps, i)|
    decreases |steps|
  {
    if steps == [] then []
    else
      (if IsEcho(s, steps[0], i) then [Next(s, steps[0]).scripts[i].oldToNew] else [])
      + MapsIn(Next(s, steps[0]), steps[1..], i)
  }

  /** Over any run that spares the file, its breakpoints change by the echoes, each through the map it finds. */
  lemma {:induction false} EchoesReachFile(s: State, steps: seq<Step>, i: nat, k: nat)
    requires Inv(s) && CanTake(s, steps) && AllSpare(s, steps, i) && i < s.handled
    requires k < |s.files| && s.files[k].scriptIndex == i
    ensures HasFile(After(s, steps).files, i)
    ensures BreakpointsOf(After(s, steps).files, i) ==
            Received(s.files[k].breakpoints, EchoesIn(s, steps, i), MapsIn(s, steps, i))
    decreases |steps|
  {
    if steps == [] {
      FoundAt(s.files, s.handled, s.lost, k, i);
    } else {
      var step, s' := steps[0], Next(s, steps[0]);
      StepKeepsFile(s, step, i, k);
      StepKeepsInv(s, step);
      EchoesReachFile(s', steps[1..], i, PlaceAfter(s, step, k));
      var echoes, maps := EchoesIn(s', steps[1..], i), MapsIn(s', steps[1..], i);
      if IsEcho(s, step, i) {
        var echo, o := Echo(s.queue[0].line, s.queue[0].isSet), s'.scripts[i].oldToNew;
        assert ([echo] + echoes)[1..] == echoes && ([o] + maps)[1..] == maps;
      } else {
        assert [] + echoes == echoes && [] + maps == maps;
      }
    }
  }

  lemma {:induction false} SwitchedCons(before: seq<nat>, after: seq<nat>, first: nat, n: nat)
    ensures [before] + SwitchedMaps(before, after, first, n) == SwitchedMaps(before, after, first + 1, n + 1)
    ensures [after] + SwitchedMaps(after, after, first, n) == SwitchedMaps(before, after, 0, n + 1)
    ensures SwitchedMaps(after, after, first, n) == SwitchedMaps(before, after, 0, n)
  {
  }

  /**
   If all diffs for the script end in one map, the echoes find its old map up to some point and that one from then on.
   */
  lemma {:induction false} MapsSwitchOnce(s: State, steps: seq<Step>, i: nat, o: seq<nat>) returns (first: nat)
    requires Inv(s) && CanTake(s, steps) && AllSpare(s, steps, i) && i < s.handled
    requires forall step :: step in steps ==> DiffsTo(step, i, o)
    ensures i < |s.scripts| && first <= |MapsIn(s, steps, i)|
    ensures MapsIn(s, steps, i) == SwitchedMaps(s.scripts[i].oldToNew, o, first, |MapsIn(s, steps, i)|)
    decreases |steps|
  {
    ScriptsCover(s);
    if steps == [] {
      first := 0;
    } else {
      var step, s' := steps[0], Next(s, steps[0]);
      assert step in steps && forall t :: t in steps[1..] ==> t in steps;
      StepKeepsMap(s, step, i, o);
      StepKeepsInv(s, step);
      HandledGrows(s, step, i);
      var rest := MapsSwitchOnce(s', steps[1..], i, o);
      var maps, before, now := MapsIn(s', steps[1..], i), s.scripts[i].oldToNew, s'.scripts[i].oldToNew;
      first := SwitchStep(before, now, o, maps, rest, IsEcho(s, step, i));
      assert MapsIn(s, steps, i) == (if IsEcho(s, step, i) then [now] else []) + maps;
    }
  }

  /** One step before a run whose echoes switch to another map at some point. */
  lemma {:induction false} SwitchStep(before: seq<nat>, now: seq<nat>, o: seq<nat>, maps: seq<seq<nat>>, rest: nat,
                                      isEcho: bool) returns (first: nat)
    requires (now == before || now == o) && rest <= |maps| && maps == SwitchedMaps(now, o, rest, |maps|)
    ensures var all := (if isEcho then [now] else []) + maps;
            first <= |all| && all == SwitchedMaps(before, o, first, |all|)
  {
    SwitchedCons(before, o, rest, |maps|);
    assert [] + maps == maps;
    if now != before {
      first := 0;
    } else {
      first := rest + if isEcho then 1 else 0;
    }
  }

  lemma {:induction false} HandledGrows(s: State, step: Step, i: nat)
    requires Inv(s) && Enabled(s, step) && Spares(s, step, i)
    ensures Next(s, step).handled >= s.handled
  {
  }

  // ----- From the LoadScript event to the last echo -----

  /** The UI handles the LoadScript event of script i, and the steps that follow spare the file and bring the echoes. */
  ghost predicate IsReload(s: State, vm: nat, i: nat, diffs: map<int, Script>, steps: seq<Step>)
  {
    && Inv(s) && CanHandle(s) && s.queue[0] == LoadScript(vm, i) && i < |s.scripts|
    && CanTake(HandleNext(s, diffs), steps) && AllSpare(HandleNext(s, diffs), steps, i)
    && EchoesIn(HandleNext(s, diffs), steps, i) == Echoes({}, Sent(BreakpointsBefore(s, i), MapOfLoad(s, i, diffs)))
  }

  /** The breakpoints of the file that script i is going to be bound to. */
  function BreakpointsBefore(s: State, i: nat): seq<nat>
    requires i < |s.scripts|
  {
    var k := FileToBind(s, i);
    if k < |s.files| then s.files[k].breakpoints else []
  }

  /** The map that the toggles go through. */
  function MapOfLoad(s: State, i: nat, diffs: map<int, Script>): seq<nat>
    requires i < |s.scripts|
  {
    var byName := FindScript(s.files, i, 0) == |s.files| && FileToBind(s, i) < |s.files|;
    if byName then Rediffed(s.scripts[i], diffs, i).newToOld else s.scripts[i].newToOld
  }

  /**
   For any maps: a toggle for each breakpoint that has an old line and then LoadDone are sent, and once the echoes have
   been handled, between whatever other steps, the file holds what the reload makes of its breakpoints.
   */
  lemma {:induction false} LoadScriptReloads(s: State, vm: nat, i: nat, diffs: map<int, Script>, steps: seq<Step>)
    requires IsReload(s, vm, i, diffs, steps)
    ensures var bps, n := BreakpointsBefore(s, i), MapOfLoad(s, i, diffs);
            && HandleNext(s, diffs).commands == s.commands + Toggles(vm, i, Sent(bps, n)) + [LoadDone(vm)]
            && |MapsIn(HandleNext(s, diffs), steps, i)| == |Sent(bps, n)|
            && HasFile(After(HandleNext(s, diffs), steps).files, i)
            && BreakpointsOf(After(HandleNext(s, diffs), steps).files, i) ==
               Reloaded(bps, n, MapsIn(HandleNext(s, diffs), steps, i))
  {
    HeadIsKnown(s);
    LoadScriptEffect(s, diffs);
    HandleKeepsInv(s, diffs);
    EchoesReachFile(HandleNext(s, diffs), steps, i, FileToBind(s, i));
  }

  /**
   End to end: X is the script's text, Y that of its file, found by name, and Z the one that every later diff is made
   with. From some echo on the map of X and Z is found. The file's breakpoints, distinct and inside Y, are restored,
   those on matched lines in their order and nothing else, if and only if from that echo on each has the same old line
   in Y and Z.
   */
  lemma {:induction false} LoadScriptRestoresBreakpointsIff(
    s: State, vm: nat, i: nat, diffs: map<int, Script>, steps: seq<Step>, X: seq<string>, Y: seq<string>,
    Z: seq<string>) returns (first: nat)
    requires IsReload(s, vm, i, diffs, steps) && WithinLimits(X, Y) && WithinLimits(X, Z)
    requires FileToBind(s, i) < |s.files| && i in diffs
    requires diffs[i].newToOld == NewToOldOf(X, Y) && diffs[i].oldToNew == OldToNewOf(X, Y)
    requires forall step :: step in steps ==> DiffsTo(step, i, OldToNewOf(X, Z))
    requires NoDuplicates(BreakpointsBefore(s, i)) && forall b :: b in BreakpointsBefore(s, i) ==> b < |Y|
    ensures var maps := MapsIn(HandleNext(s, diffs), steps, i);
            first <= |maps| && maps == SwitchedMaps(OldToNewOf(X, Y), OldToNewOf(X, Z), first, |maps|)
    ensures var mapped := Mapped(BreakpointsBefore(s, i), NewToOldOf(X, Y));
            BreakpointsOf(After(HandleNext(s, diffs), steps).files, i) == mapped <==>
            forall k :: first <= k < |mapped| ==> HasSameOldLine(X, Y, Z, mapped[k])
  {
    HeadIsKnown(s);
    LoadScriptEffect(s, diffs);
    HandleKeepsInv(s, diffs);
    LoadScriptReloads(s, vm, i, diffs, steps);
    first := MapsSwitchOnce(HandleNext(s, diffs), steps, i, OldToNewOf(X, Z));
    ReloadIsExactIff(X, Y, Z, BreakpointsBefore(s, i), first);
  }

  /** In particular they are restored when the file is not open or its lines in the editor are those on disk. */
  lemma {:induction false} LoadScriptRestoresBreakpoints(
    s: State, vm: nat, i: nat, diffs: map<int, Script>, steps: seq<Step>, X: seq<string>, Y: seq<string>)
    requires IsReload(s, vm, i, diffs, steps) && WithinLimits(X, Y)
    requires FileToBind(s, i) < |s.files| && i in diffs
    requires diffs[i].newToOld == NewToOldOf(X, Y) && diffs[i].oldToNew == OldToNewOf(X, Y)
    requires forall step :: step in steps ==> DiffsTo(step, i, OldToNewOf(X, Y))
    requires NoDuplicates(BreakpointsBefore(s, i)) && forall b :: b in BreakpointsBefore(s, i) ==> b < |Y|
    ensures BreakpointsOf(After(HandleNext(s, diffs), steps).files, i) ==
            Mapped(BreakpointsBefore(s, i), NewToOldOf(X, Y))
  {
    var first := LoadScriptRestoresBreakpointsIff(s, vm, i, diffs, steps, X, Y, Y);
    MappedMembers(BreakpointsBefore(s, i), NewToOldOf(X, Y));
    var mapped := Mapped(BreakpointsBefore(s, i), NewToOldOf(X, Y));
    forall k | first <= k < |mapped|
      ensures HasSameOldLine(X, Y, Y, mapped[k])
    {
      assert mapped[k] in mapped;
    }
  }
}
