/**
 What each message, event and toggle of a session does to the files, the scripts and the commands, told without the
 functions that compute it.
 */
module HandlerLaws {
  import opened Options
  import opened Lists
  import opened Breakpoints
  import opened ProjectFiles
  import opened LineMapping
  import opened Reload
  import opened DebugSession
  import opened DebugSessionLaws

  /** The map that a look up of script i ends up with. */
  function MapAfter(script: Script, diffs: map<int, Script>, i: int): Script
  {
    if i in diffs then Script(script.name, diffs[i].newToOld, diffs[i].oldToNew) else script
  }

  /** The files are the same but for the one at k. */
  predicate SameBut(fs: seq<FileState>, gs: seq<FileState>, k: nat)
  {
    |fs| == |gs| && forall j {:trigger gs[j]} :: 0 <= j < |fs| && j != k ==> gs[j] == fs[j]
  }

  /** f and g differ in their breakpoints at most. */
  predicate SameFile(f: FileState, g: FileState)
  {
    f.name == g.name && f.scriptIndex == g.scriptIndex && f.temporary == g.temporary && f.isOpen == g.isOpen
  }

  // ----- A script is loaded -----

  predicate IsOnlyFileOf(fs: seq<FileState>, i: int, k: nat)
  {
    k < |fs| && forall j {:trigger fs[j]} :: 0 <= j < |fs| ==> (fs[j].scriptIndex == i <==> j == k)
  }

  predicate IsFree(f: FileState, name: string)
  {
    f.scriptIndex == NO_SCRIPT && f.name == name
  }

  /**
   Of the files before, the first unbound one of the script's name is the one at k, or there is none; the file at k is
   now the one file of script i, it has no breakpoints, and the other files are as they were.
   */
  ghost predicate BindsByName(fs: seq<FileState>, gs: seq<FileState>, name: string, i: nat, k: nat)
  {
    && IsOnlyFileOf(gs, i, k) && gs[k].name == name && gs[k].breakpoints == []
    && (forall j {:trigger fs[j]} :: 0 <= j < |fs| && j < k ==> !IsFree(fs[j], name))
    && (forall j {:trigger fs[j]} {:trigger gs[j]} :: 0 <= j < |fs| && j != k ==> j < |gs| && gs[j] == fs[j])
    && if k < |fs| then
         |gs| == |fs| && IsFree(fs[k], name) && gs[k] == fs[k].(scriptIndex := i, breakpoints := [])
       else k == |fs| && |gs| == |fs| + 1 && gs[k].temporary && !gs[k].isOpen
  }

  /**
   A loaded script is bound to the first unbound file of its name, or to one new temporary file if there is none.
   */
  lemma {:induction false} LoadBindsByName(s: State, diffs: map<int, Script>) returns (k: nat)
    requires Inv(s) && CanHandle(s) && s.queue[0].LoadScript?
    ensures 0 <= s.queue[0].scriptIndex < |s.scripts|
    ensures var i := s.queue[0].scriptIndex;
            BindsByName(s.files, HandleNext(s, diffs).files, s.scripts[i].name, i, k)
  {
    HeadIsKnown(s);
    LoadScriptEffect(s, diffs);
    k := FileToBind(s, s.handled);
    assert s.scripts[s.handled].name == s.scripts[s.queue[0].scriptIndex].name;
    BoundByName(s.files, k, s.scripts[s.handled].name, s.handled, s.lost);
  }

  lemma {:induction false} BoundByName(fs: seq<FileState>, k: nat, name: string, i: nat, lost: set<int>)
    requires Binds(fs, i, lost) && k == FindUnbound(fs, name, 0)
    ensures BindsByName(fs, Bound(fs, k, name, i), name, i, k)
  {
  }

  /** And gets the maps of the diff with that file, if one is made; no other script changes, and none its name. */
  lemma {:induction false} LoadDiffsByName(s: State, diffs: map<int, Script>, k: nat)
    requires Inv(s) && CanHandle(s) && s.queue[0].LoadScript? && 0 <= s.queue[0].scriptIndex < |s.scripts|
    requires var i := s.queue[0].scriptIndex;
             BindsByName(s.files, HandleNext(s, diffs).files, s.scripts[i].name, i, k)
    ensures var i, scripts := s.queue[0].scriptIndex, HandleNext(s, diffs).scripts;
            scripts == s.scripts[i := if k < |s.files| then MapAfter(s.scripts[i], diffs, i) else s.scripts[i]]
  {
    HeadIsKnown(s);
    LoadScriptEffect(s, diffs);
  }

  /** The back end is sent a toggle for each breakpoint of that file that has an old line, and then a LoadDone. */
  lemma {:induction false} LoadSendsBreakpoints(s: State, diffs: map<int, Script>, k: nat)
    requires Inv(s) && CanHandle(s) && s.queue[0].LoadScript? && 0 <= s.queue[0].scriptIndex < |s.scripts|
    requires var i := s.queue[0].scriptIndex;
             BindsByName(s.files, HandleNext(s, diffs).files, s.scripts[i].name, i, k)
    ensures var i, s' := s.queue[0].scriptIndex, HandleNext(s, diffs);
            var bps := if k < |s.files| then s.files[k].breakpoints else [];
            && i < |s'.scripts|
            && s'.commands ==
               s.commands + Toggles(s.queue[0].vm, i, Sent(bps, s'.scripts[i].newToOld)) + [LoadDone(s.queue[0].vm)]
  {
    HeadIsKnown(s);
    LoadScriptEffect(s, diffs);
  }

  /** So it is in every run: no script is ever bound to a file of another name. */
  lemma {:induction false} RunsBindByName(run: seq<State>, steps: seq<Step>, t: nat) returns (k: nat)
    requires IsRun(run, steps) && t < |steps| && steps[t].Handle? && run[t].queue != [] && run[t].queue[0].LoadScript?
    ensures 0 <= run[t].queue[0].scriptIndex < |run[t].scripts| && t + 1 < |run|
    ensures var i := run[t].queue[0].scriptIndex;
            BindsByName(run[t].files, run[t + 1].files, run[t].scripts[i].name, i, k)
  {
    RunKeepsInv(run, steps, t);
    assert Enabled(run[t], steps[t]);
    k := LoadBindsByName(run[t], steps[t].diffs);
  }

  // ----- The user toggles a line -----

  /** The old line under which the file at k sends a toggle of line, or the invalid line. */
  function OldLineOf(s: State, k: nat, line: nat, diffs: map<int, Script>): nat
    requires k < |s.files|
  {
    var i := s.files[k].scriptIndex;
    if 0 <= i < |s.scripts| then Lookup(MapAfter(s.scripts[i], diffs, i).newToOld, line) else INVALID_LINE
  }

  lemma {:induction false} WithoutOccurrences(s: seq<nat>, x: nat, y: nat)
    ensures Occurrences(Without(s, x), y) == Occurrences(s, y) - if y == x && x in s then 1 else 0
  {
    if s != [] && s[0] != x {
      WithoutOccurrences(s[1..], x, y);
      assert ([s[0]] + Without(s[1..], x))[1..] == Without(s[1..], x);
    }
  }

  /** A toggle adds the line, or takes one occurrence of it away, and leaves the other lines alone. */
  lemma {:induction false} ToggledOccurrences(s: seq<nat>, line: nat, y: nat)
    ensures Occurrences(Toggled(s, line), y) ==
            Occurrences(s, y) + if y != line then 0 else if line in s then -1 else 1
  {
    WithoutOccurrences(s, line, y);
    OccurrencesConcat(s, [line], y);
    assert [line][1..] == [];
  }

  /**
   A line without an old line is toggled in the list of the file and nowhere else, and nothing is sent. Its membership
   flips, unless the list holds it twice.
   */
  lemma {:induction false} PressFlipsList(s: State, k: nat, line: nat, vm: nat, diffs: map<int, Script>, y: nat)
    requires k < |s.files| && OldLineOf(s, k, line, diffs) == INVALID_LINE
    ensures var s', bps := Next(s, Press(k, line, vm, diffs)), s.files[k].breakpoints;
            && SameBut(s.files, s'.files, k) && SameFile(s.files[k], s'.files[k]) && s'.commands == s.commands
            && Occurrences(s'.files[k].breakpoints, y) ==
               Occurrences(bps, y) + (if y != line then 0 else if line in bps then -1 else 1)
            && (Occurrences(bps, line) <= 1 ==> (y in s'.files[k].breakpoints <==> (y in bps) != (y == line)))
  {
    ToggledOccurrences(s.files[k].breakpoints, line, y);
  }

  /** Any other line is toggled by a command to the back end, under its old number, and in no list. */
  lemma {:induction false} PressSends(s: State, k: nat, line: nat, vm: nat, diffs: map<int, Script>)
    requires k < |s.files| && OldLineOf(s, k, line, diffs) != INVALID_LINE
    ensures var s', i := Next(s, Press(k, line, vm, diffs)), s.files[k].scriptIndex;
            s'.files == s.files && s'.commands == s.commands + [Toggle(vm, i, OldLineOf(s, k, line, diffs))]
  {
  }

  /** Either way the diff that is made for the script stays, and the rest of the session is as it was. */
  lemma {:induction false} PressKeepsRest(s: State, k: nat, line: nat, vm: nat, diffs: map<int, Script>)
    requires k < |s.files|
    ensures var s', i := Next(s, Press(k, line, vm, diffs)), s.files[k].scriptIndex;
            && s' == s.(scripts := s'.scripts, files := s'.files, commands := s'.commands)
            && s'.scripts ==
               if 0 <= i < |s.scripts| then s.scripts[i := MapAfter(s.scripts[i], diffs, i)] else s.scripts
  {
  }

  // ----- The back end tells of a breakpoint -----

  /** How often y is in a list once line has been set or cleared in it. */
  predicate IsPut(before: seq<nat>, after: seq<nat>, line: nat, isSet: bool, y: nat)
  {
    var n := Occurrences(before, y);
    Occurrences(after, y) ==
    if y != line || isSet == (n > 0) then n else if isSet then 1 else n - 1
  }

  /** The line that the script's map gives is set or cleared in the file of the script, and nothing else changes. */
  lemma {:induction false} EchoPutsLine(s: State, diffs: map<int, Script>, j: nat, y: nat)
    requires Inv(s) && CanHandle(s) && s.queue[0].SetBreakpoint? && j < |s.files|
    ensures 0 <= s.queue[0].scriptIndex < |s.scripts|
    ensures var e, s' := s.queue[0], HandleNext(s, diffs);
            var script := MapAfter(s.scripts[e.scriptIndex], diffs, e.scriptIndex);
            && s'.scripts == s.scripts[e.scriptIndex := script] && |s'.files| == |s.files| && s'.commands == s.commands
            && SameFile(s.files[j], s'.files[j])
            && if s.files[j].scriptIndex != e.scriptIndex then s'.files[j] == s.files[j]
               else IsPut(s.files[j].breakpoints, s'.files[j].breakpoints, Lookup(script.oldToNew, e.line), e.isSet, y)
  {
    HeadIsKnown(s);
    var e := s.queue[0];
    var line := Lookup(MapAfter(s.scripts[e.scriptIndex], diffs, e.scriptIndex).oldToNew, e.line);
    PutOccurrences(s.files[j].breakpoints, line, e.isSet, y);
  }

  lemma {:induction false} PutOccurrences(s: seq<nat>, line: nat, isSet: bool, y: nat)
    ensures IsPut(s, WithBreakpoint(s, line, isSet), line, isSet, y)
  {
    ToggledOccurrences(s, line, y);
  }

  // ----- A break -----

  /** Frame t is the first that is in a script. */
  predicate IsTopFrame(frames: seq<int>, t: nat)
  {
    t < |frames| && frames[t] != NO_SCRIPT && forall u {:trigger frames[u]} :: 0 <= u < t ==> frames[u] == NO_SCRIPT
  }

  lemma {:induction false} TopScriptIs(frames: seq<int>) returns (t: nat)
    ensures if t < |frames| then IsTopFrame(frames, t) && TopScript(frames) == frames[t]
            else
              && TopScript(frames) == NO_SCRIPT
              && forall u {:trigger frames[u]} :: 0 <= u < |frames| ==> frames[u] == NO_SCRIPT
  {
    if frames == [] || frames[0] != NO_SCRIPT {
      t := 0;
    } else {
      var u := TopScriptIs(frames[1..]);
      t := u + 1;
      assert forall u {:trigger frames[u]} :: 0 < u < |frames| ==> frames[u] == frames[1..][u - 1];
    }
  }

  /** The file of the topmost frame that is in a script is opened, and no other; without such a frame none is. */
  lemma {:induction false} BreakOpensTop(s: State, diffs: map<int, Script>) returns (t: nat, k: nat)
    requires Inv(s) && CanHandle(s) && s.queue[0].Break?
    ensures var frames, fs := s.queue[0].frames, HandleNext(s, diffs).files;
            if t < |frames| then
              && IsTopFrame(frames, t) && IsOnlyFileOf(s.files, frames[t], k)
              && fs == s.files[k := s.files[k].(isOpen := true)]
            else fs == s.files && forall u {:trigger frames[u]} :: 0 <= u < |frames| ==> frames[u] == NO_SCRIPT
  {
    HeadIsKnown(s);
    var frames := s.queue[0].frames;
    t := TopScriptIs(frames);
    k := FindScript(s.files, TopScript(frames), 0);
    if t < |frames| {
      assert frames[t] in frames && frames[t] in ScriptsNamed(s.queue[0]);
    }
  }

  /** Every script on the stack gets the maps of the diff made for it, if one is, and nothing is sent. */
  lemma {:induction false} BreakDiffsFrames(s: State, diffs: map<int, Script>, i: nat)
    requires Inv(s) && CanHandle(s) && s.queue[0].Break? && i < |s.scripts|
    ensures var frames, s' := s.queue[0].frames, HandleNext(s, diffs);
            && |s'.scripts| == |s.scripts| && s'.commands == s.commands
            && s'.scripts[i] == if i in frames then MapAfter(s.scripts[i], diffs, i) else s.scripts[i]
  {
    var frames := s.queue[0].frames;
    LookedIs(s.scripts, frames, diffs, |frames|, i);
    assert frames[..|frames|] == frames;
  }

  lemma {:induction false} LookedIs(scripts: seq<Script>, frames: seq<int>, diffs: map<int, Script>, n: nat, i: nat)
    requires n <= |frames| && i < |scripts|
    ensures Looked(scripts, frames, diffs, n)[i] ==
            if i in frames[..n] then MapAfter(scripts[i], diffs, i) else scripts[i]
  {
    if n > 0 {
      LookedIs(scripts, frames, diffs, n - 1, i);
      TakeOneMore(frames, n - 1);
    }
  }

  // ----- The session ends -----

  /** gs are the files of fs at the given places, unbound, in their order. */
  predicate AreUnboundAt(fs: seq<FileState>, gs: seq<FileState>, places: seq<nat>)
  {
    && |places| == |gs|
    && (forall j, k :: 0 <= j < k < |places| ==> places[j] < places[k])
    && forall j {:trigger gs[j]} {:trigger places[j]} :: 0 <= j < |gs| ==>
         places[j] < |fs| && gs[j] == fs[places[j]].(scriptIndex := NO_SCRIPT)
  }

  /** The places are those of the files that are open or not temporary. */
  predicate AreKept(fs: seq<FileState>, places: seq<nat>)
  {
    && (forall k :: k in places ==> k < |fs|)
    && forall k: nat {:trigger fs[k]} :: k < |fs| ==> (k in places <==> !fs[k].temporary || fs[k].isOpen)
  }

  lemma {:induction false} StaleAreDropped(fs: seq<FileState>) returns (places: seq<nat>)
    ensures AreUnboundAt(fs, WithoutStale(Unbound(fs)), places) && AreKept(fs, places)
  {
    places := [];
    if fs != [] {
      var first := fs[..|fs| - 1];
      places := StaleAreDropped(first);
      assert Unbound(fs)[..|first|] == Unbound(first);
      MoreAreUnbound(fs, first, WithoutStale(Unbound(first)), places);
      if !fs[|first|].temporary || fs[|first|].isOpen {
        places := places + [|first|];
      }
    }
  }

  lemma {:induction false} MoreAreUnbound(fs: seq<FileState>, first: seq<FileState>, gs: seq<FileState>,
                                          places: seq<nat>)
    requires fs != [] && first == fs[..|fs| - 1] && AreUnboundAt(first, gs, places) && AreKept(first, places)
    ensures var n, f := |first|, fs[|first|].(scriptIndex := NO_SCRIPT);
            if !f.temporary || f.isOpen then AreUnboundAt(fs, gs + [f], places + [n]) && AreKept(fs, places + [n])
            else AreUnboundAt(fs, gs, places) && AreKept(fs, places)
  {
    var n := |first|;
    assert forall k: nat {:trigger fs[k]} :: k < n ==> fs[k] == first[k];
    assert forall j {:trigger places[j]} :: 0 <= j < |places| ==> places[j] in places;
    assert forall k :: k in places + [n] <==> k in places || k == n;
  }

  /**
   The files that stay are those that are open or not temporary, all of them and in their order, with their breakpoints;
   none is bound any more.
   */
  lemma {:induction false} SessionEndKeepsFiles(s: State, diffs: map<int, Script>) returns (places: seq<nat>)
    requires CanHandle(s) && s.queue[0].SessionEnd?
    ensures AreUnboundAt(s.files, HandleNext(s, diffs).files, places) && AreKept(s.files, places)
    ensures HandleNext(s, diffs).phase == Inactive && HandleNext(s, diffs).scripts == []
  {
    places := StaleAreDropped(s.files);
  }

  // ----- Messages become events -----

  /** What reading a message does: which event is posted, and what else changes. */
  lemma {:induction false} ReadTells(s: State, m: Message)
    requires s.thread == Reading && NamesAnnounced(m, |s.scripts|)
    ensures var s' := Next(s, Read(m));
            && s' == s.(scripts := s'.scripts, phase := s'.phase, thread := s'.thread)
            && (m.BreakMessage? ==>
                  s'.phase == Broken && s'.scripts == s.scripts && s'.thread == Posting(Break(m.vm, m.frames, m.line)))
            && (m.LoadScriptMessage? ==>
                  && s'.phase == s.phase && s'.scripts == s.scripts + [Script(m.name, [], [])]
                  && s'.thread == Posting(LoadScript(m.vm, |s.scripts|)))
            && (m.SetBreakpointMessage? ==>
                  && s'.phase == s.phase && s'.scripts == s.scripts
                  && s'.thread == Posting(SetBreakpoint(m.vm, m.scriptIndex, m.line, m.isSet)))
            && (m.SessionEndMessage? ==> s' == s)
            && (m.OtherMessage? ==> s'.phase == s.phase && s'.scripts == s.scripts && s'.thread == Posting(Other(m.vm)))
  {
  }

  /** The event that the step takes in hand, if it does. */
  function MadeBy(step: Step, s': State): seq<Event>
  {
    if (step.Read? || step.CloseChannel?) && s'.thread.Posting? then [s'.thread.event] else []
  }

  /** The event that the UI takes off the queue in the step, if it does. */
  function HandledBy(step: Step, s: State): seq<Event>
  {
    if step.Handle? && s.queue != [] then [s.queue[0]] else []
  }

  lemma {:induction false} HandleMovesEvents(s: State, diffs: map<int, Script>)
    requires Inv(s) && CanHandle(s)
    ensures Pending(s) == [s.queue[0]] + Pending(HandleNext(s, diffs))
  {
    PendingTail(s);
    FirstAndRest(Pending(s));
    HandlePending(s, diffs);
  }

  lemma {:induction false} HandlePending(s: State, diffs: map<int, Script>)
    requires CanHandle(s)
    ensures Pending(HandleNext(s, diffs)) == Pending(s.(queue := s.queue[1..]))
  {
  }

  lemma {:induction false} OthersMoveEvents(s: State, step: Step)
    requires Inv(s) && Enabled(s, step) && !step.Handle?
    ensures Pending(s) + MadeBy(step, Next(s, step)) == Pending(Next(s, step))
  {
  }

  lemma {:induction false} StepMovesEvents(s: State, step: Step)
    requires Inv(s) && Enabled(s, step)
    ensures Pending(s) + MadeBy(step, Next(s, step)) == HandledBy(step, s) + Pending(Next(s, step))
  {
    if step.Handle? {
      HandleMovesEvents(s, step.diffs);
    } else {
      OthersMoveEvents(s, step);
    }
  }

  /** The events that the first n steps of a run take in hand. */
  function EventsMade(run: seq<State>, steps: seq<Step>, n: nat): seq<Event>
    requires n <= |steps| < |run|
  {
    if n == 0 then [] else EventsMade(run, steps, n - 1) + MadeBy(steps[n - 1], run[n])
  }

  /** The events that the UI takes off the queue in them. */
  function EventsHandled(run: seq<State>, steps: seq<Step>, n: nat): seq<Event>
    requires n <= |steps| < |run|
  {
    if n == 0 then [] else EventsHandled(run, steps, n - 1) + HandledBy(steps[n - 1], run[n - 1])
  }

  lemma {:induction false} StepInRunMovesEvents(run: seq<State>, steps: seq<Step>, m: nat, n: nat)
    requires IsRun(run, steps) && n == m + 1 && n <= |steps|
    ensures Pending(run[m]) + MadeBy(steps[m], run[n]) == HandledBy(steps[m], run[m]) + Pending(run[n])
  {
    RunKeepsInv(run, steps, m);
    assert Enabled(run[m], steps[m]);
    StepMovesEvents(run[m], steps[m]);
  }

  lemma {:induction false} Exchanged<T>(a: seq<T>, b: seq<T>, c: seq<T>, d: seq<T>, e: seq<T>)
    requires b + c == d + e
    ensures a + b + c == a + d + e
  {
    Regrouped(a, b, c);
    Regrouped(a, d, e);
  }

  /** What the first n steps have made has been handled, in order, but for what is pending. */
  predicate AreHandledInOrder(run: seq<State>, steps: seq<Step>, n: nat)
    requires n <= |steps| < |run|
  {
    EventsMade(run, steps, n) == EventsHandled(run, steps, n) + Pending(run[n])
  }

  lemma {:induction false} NextIsHandledInOrder(run: seq<State>, steps: seq<Step>, m: nat, n: nat)
    requires n == m + 1 && n <= |steps| < |run| && AreHandledInOrder(run, steps, m)
    requires Pending(run[m]) + MadeBy(steps[m], run[n]) == HandledBy(steps[m], run[m]) + Pending(run[n])
    ensures AreHandledInOrder(run, steps, n)
  {
    Exchanged(EventsHandled(run, steps, m), Pending(run[m]), MadeBy(steps[m], run[n]), HandledBy(steps[m], run[m]),
              Pending(run[n]));
  }

  lemma {:induction false} NoneIsHandledFirst(run: seq<State>, steps: seq<Step>)
    requires IsRun(run, steps)
    ensures AreHandledInOrder(run, steps, 0)
  {
  }

  /** No event is lost, made up, doubled or overtaken, over every run. */
  lemma {:induction false} EventsAreHandledInOrder(run: seq<State>, steps: seq<Step>, n: nat)
    requires IsRun(run, steps) && n <= |steps|
    ensures AreHandledInOrder(run, steps, n)
  {
    if n == 0 {
      NoneIsHandledFirst(run, steps);
    } else {
      EventsAreHandledInOrder(run, steps, n - 1);
      StepInRunMovesEvents(run, steps, n - 1, n);
      NextIsHandledInOrder(run, steps, n - 1, n);
    }
  }
}
