/** The session invariant, kept by every step of either thread, and what it means for the events the UI handles. */
module DebugSessionLaws {
  import opened ProjectFiles
  import opened DebugSession
  import opened Reload

  // ----- The queue -----

  /** One more event at the end keeps the order, if it is the next script, names a known one, or ends the session. */
  lemma {:induction false} OrderlyAppend(events: seq<Event>, next: nat, total: nat, e: Event)
    requires Orderly(events, next, total, false)
    requires match e
             case LoadScript(_, i) => i == total
             case Break(_, frames, _) => FramesBelow(frames, total)
             case SetBreakpoint(_, i, _, _) => 0 <= i < total
             case Other(_) => true
             case SessionEnd => true
    ensures Orderly(events + [e], next, if e.LoadScript? then total + 1 else total, e.SessionEnd?)
    decreases |events|
  {
    if events == [] {
      assert [] + [e] == [e];
    } else {
      assert (events + [e])[1..] == events[1..] + [e];
      OrderlyAppend(events[1..], if events[0].LoadScript? then next + 1 else next, total, e);
    }
  }

  /** How many LoadScript events are pending. */
  function PendingLoads(events: seq<Event>): nat
  {
    if events == [] then 0 else (if events[0].LoadScript? then 1 else 0) + PendingLoads(events[1..])
  }

  lemma {:induction false} OrderlyCounts(events: seq<Event>, next: nat, total: nat, ended: bool)
    requires Orderly(events, next, total, ended)
    ensures next + PendingLoads(events) == total
    decreases |events|
  {
    if events != [] {
      if events[0].SessionEnd? {
        assert events[1..] == [];
      } else {
        OrderlyCounts(events[1..], if events[0].LoadScript? then next + 1 else next, total, ended);
      }
    }
  }

  // ----- The file table -----

  lemma HasFileIff(fs: seq<FileState>, n: int)
    ensures HasFile(fs, n) <==> exists i :: 0 <= i < |fs| && fs[i].scriptIndex == n
  {
    if HasFile(fs, n) {
      assert fs[FindScript(fs, n, 0)].scriptIndex == n;
    }
  }

  /** Steps that leave the script indices where they are. */
  lemma {:induction false} SameIndicesBind(fs: seq<FileState>, gs: seq<FileState>, handled: nat, lost: set<int>)
    requires Binds(fs, handled, lost) && |fs| == |gs|
    requires forall i {:trigger gs[i]} :: 0 <= i < |fs| ==> gs[i].scriptIndex == fs[i].scriptIndex
    ensures Binds(gs, handled, lost)
  {
    forall n | 0 <= n < handled
      ensures HasFile(gs, n) <==> HasFile(fs, n)
    {
      SameIndicesFind(fs, gs, n, 0);
    }
  }

  lemma {:induction false} SameIndicesFind(fs: seq<FileState>, gs: seq<FileState>, n: int, k: nat)
    requires k <= |fs| == |gs|
    requires forall i {:trigger gs[i]} :: 0 <= i < |fs| ==> gs[i].scriptIndex == fs[i].scriptIndex
    ensures FindScript(gs, n, k) == FindScript(fs, n, k)
    decreases |fs| - k
  {
    if k < |fs| && fs[k].scriptIndex != n {
      SameIndicesFind(fs, gs, n, k + 1);
    }
  }

  lemma {:induction false} AddKeepsBinds(fs: seq<FileState>, f: FileState, handled: nat, lost: set<int>)
    requires Binds(fs, handled, lost) && f.scriptIndex == NO_SCRIPT
    ensures Binds(fs + [f], handled, lost)
  {
    forall n | 0 <= n < handled
      ensures HasFile(fs + [f], n) <==> HasFile(fs, n)
    {
      HasFileAppend(fs, f, n);
    }
  }

  lemma {:induction false} HasFileAppend(fs: seq<FileState>, f: FileState, n: int)
    ensures HasFile(fs + [f], n) <==> HasFile(fs, n) || f.scriptIndex == n
  {
    var gs := fs + [f];
    HasFileIff(fs, n);
    HasFileIff(gs, n);
    assert gs[|fs|] == f && forall i :: 0 <= i < |fs| ==> gs[i] == fs[i];
  }

  /** Binding an unbound file, or a new one, to the next script. */
  lemma {:induction false} BindNext(fs: seq<FileState>, k: nat, name: string, handled: nat, lost: set<int>)
    requires Binds(fs, handled, lost) && k <= |fs| && (k < |fs| ==> fs[k].scriptIndex == NO_SCRIPT)
    ensures Binds(Bound(fs, k, name, handled), handled + 1, lost)
  {
    forall n | 0 <= n < handled + 1
      ensures HasFile(Bound(fs, k, name, handled), n) <==> HasFile(fs, n) || n == handled
    {
      BoundHasFile(fs, k, name, handled, n);
    }
    LoadedIsUnbound(fs, handled, lost);
  }

  lemma {:induction false} BoundHasFile(fs: seq<FileState>, k: nat, name: string, i: nat, n: nat)
    requires k <= |fs| && (k < |fs| ==> fs[k].scriptIndex == NO_SCRIPT)
    ensures HasFile(Bound(fs, k, name, i), n) <==> HasFile(fs, n) || n == i
  {
    var gs := Bound(fs, k, name, i);
    HasFileIff(fs, n);
    HasFileIff(gs, n);
    assert gs[k].scriptIndex == i && forall j :: 0 <= j < |fs| && j != k ==> gs[j] == fs[j];
  }

  lemma {:induction false} RemoveKeepsBinds(fs: seq<FileState>, k: nat, handled: nat, lost: set<int>)
    requires Binds(fs, handled, lost) && k < |fs|
    ensures Binds(Removed(fs, k), handled, Losing(lost, fs[k].scriptIndex))
  {
    forall n | 0 <= n < handled
      ensures HasFile(Removed(fs, k), n) <==> HasFile(fs, n) && n != fs[k].scriptIndex
    {
      RemovedHasFile(fs, k, handled, lost, n);
    }
    RemovedAt(fs, k);
  }

  lemma {:induction false} RemovedAt(fs: seq<FileState>, k: nat)
    requires k < |fs|
    ensures |Removed(fs, k)| == |fs| - 1
    ensures forall i {:trigger Removed(fs, k)[i]} :: 0 <= i < |fs| - 1 ==>
              Removed(fs, k)[i] == fs[if i < k then i else i + 1]
  {
  }

  lemma {:induction false} RemovedHasFile(fs: seq<FileState>, k: nat, handled: nat, lost: set<int>, n: nat)
    requires Binds(fs, handled, lost) && k < |fs|
    ensures HasFile(Removed(fs, k), n) <==> HasFile(fs, n) && n != fs[k].scriptIndex
  {
    var gs := Removed(fs, k);
    RemovedAt(fs, k);
    HasFileIff(fs, n);
    HasFileIff(gs, n);
    if i :| 0 <= i < |fs| && fs[i].scriptIndex == n && n != fs[k].scriptIndex {
      assert gs[if i < k then i else i - 1] == fs[i];
    }
  }

  lemma {:induction false} UnboundBinds(fs: seq<FileState>, lost: set<int>, handled: nat)
    requires AllUnbound(fs) && forall n :: n in lost <==> 0 <= n < handled
    ensures Binds(fs, handled, lost)
  {
  }

  lemma {:induction false} WithoutStaleUnbound(fs: seq<FileState>)
    requires AllUnbound(fs)
    ensures AllUnbound(WithoutStale(fs))
    ensures forall f :: f in WithoutStale(fs) <==> f in fs && !IsStale(f)
  {
    if fs != [] {
      WithoutStaleUnbound(fs[..|fs| - 1]);
      assert fs == fs[..|fs| - 1] + [fs[|fs| - 1]];
    }
  }

  // ----- The commands -----

  lemma {:induction false} LoadDonesConcat(cs: seq<Command>, ds: seq<Command>)
    ensures LoadDones(cs + ds) == LoadDones(cs) + LoadDones(ds)
    decreases |ds|
  {
    if ds == [] {
      assert cs + ds == cs;
    } else {
      assert (cs + ds)[..|cs + ds| - 1] == cs + ds[..|ds| - 1];
      LoadDonesConcat(cs, ds[..|ds| - 1]);
    }
  }

  lemma {:induction false} TogglesHoldNoLoadDone(vm: nat, i: int, lines: seq<nat>)
    ensures LoadDones(Toggles(vm, i, lines)) == 0
  {
    if lines != [] {
      assert Toggles(vm, i, lines)[..|lines| - 1] == Toggles(vm, i, lines[..|lines| - 1]);
      TogglesHoldNoLoadDone(vm, i, lines[..|lines| - 1]);
    }
  }

  lemma AnswerHoldsOneLoadDone(cs: seq<Command>, vm: nat, i: int, lines: seq<nat>)
    ensures LoadDones(cs + Toggles(vm, i, lines) + [LoadDone(vm)]) == LoadDones(cs) + 1
  {
    LoadDonesConcat(cs, Toggles(vm, i, lines));
    LoadDonesConcat(cs + Toggles(vm, i, lines), [LoadDone(vm)]);
    TogglesHoldNoLoadDone(vm, i, lines);
    assert [LoadDone(vm)][..0] == [];
  }

  // ----- The steps -----

  lemma {:induction false} PostKeepsInv(s: State)
    requires Inv(s) && s.thread.Posting?
    ensures Inv(PostEvent(s))
  {
    assert Pending(PostEvent(s)) == Pending(s);
  }

  lemma {:induction false} ReadKeepsInv(s: State, m: Message)
    requires Inv(s) && Enabled(s, Read(m))
    ensures Inv(ReadMessage(s, m))
  {
    var s' := ReadMessage(s, m);
    assert Pending(s) == s.queue;
    if s'.thread.Posting? {
      assert Pending(s') == s.queue + [s'.thread.event];
      OrderlyAppend(s.queue, s.handled, |s.scripts|, s'.thread.event);
    } else {
      assert Pending(s') == s.queue;
    }
  }

  lemma {:induction false} CloseKeepsInv(s: State)
    requires Inv(s) && s.thread == Reading
    ensures Inv(s.(thread := Posting(SessionEnd)))
  {
    assert Pending(s) == s.queue;
    OrderlyAppend(s.queue, s.handled, |s.scripts|, SessionEnd);
  }

  /** The pending events once the first queued one is taken off. */
  lemma PendingTail(s: State)
    requires s.queue != []
    ensures Pending(s.(queue := s.queue[1..])) == Pending(s)[1..] && Pending(s)[0] == s.queue[0] && Pending(s) != []
  {
  }

  /** What handling a LoadScript event does to each part of the state. */
  lemma {:induction false} LoadScriptEffect(s: State, diffs: map<int, Script>)
    requires Inv(s) && s.queue != [] && s.queue[0].LoadScript?
    ensures s.handled < |s.scripts|
    ensures var s', k := HandleNext(s, diffs), FileToBind(s, s.handled);
            && (k < |s.files| ==> s.files[k].scriptIndex == NO_SCRIPT)
            && s'.files == Bound(s.files, k, s.scripts[s.handled].name, s.handled)
            && Pending(s') == Pending(s)[1..] && |s'.scripts| == |s.scripts|
            && s'.handled == s.handled + 1 && LoadDones(s'.commands) == LoadDones(s.commands) + 1
            && s'.phase == s.phase && s'.thread == s.thread && s'.lost == s.lost
  {
    PendingTail(s);
    OrderlyCounts(Pending(s), s.handled, |s.scripts|, Ended(s));
    LoadedIsUnbound(s.files, s.handled, s.lost);
    var vm, i, k, s' := s.queue[0].vm, s.handled, FileToBind(s, s.handled), HandleNext(s, diffs);
    var bps := if k < |s.files| then s.files[k].breakpoints else [];
    AnswerHoldsOneLoadDone(s.commands, vm, i, Sent(bps, s'.scripts[i].newToOld));
  }

  lemma {:induction false} LoadScriptKeepsInv(s: State, diffs: map<int, Script>)
    requires Inv(s) && s.queue != [] && s.queue[0].LoadScript?
    ensures Inv(HandleNext(s, diffs))
  {
    PendingTail(s);
    LoadScriptEffect(s, diffs);
    LoadedKeepsInv(s, HandleNext(s, diffs), FileToBind(s, s.handled), s.scripts[s.handled].name);
  }

  lemma {:induction false} LoadedKeepsInv(s: State, s': State, k: nat, name: string)
    requires Inv(s) && s.queue != [] && Pending(s) != [] && Pending(s)[0].LoadScript?
    requires k <= |s.files| && (k < |s.files| ==> s.files[k].scriptIndex == NO_SCRIPT)
    requires s'.files == Bound(s.files, k, name, s.handled) && Pending(s') == Pending(s)[1..]
    requires |s'.scripts| == |s.scripts| && s'.handled == s.handled + 1
    requires LoadDones(s'.commands) == LoadDones(s.commands) + 1
    requires s'.phase == s.phase && s'.thread == s.thread && s'.lost == s.lost
    ensures Inv(s')
  {
    BindNext(s.files, k, name, s.handled, s.lost);
  }

  /** No file is bound to a script that is not handled yet. */
  lemma LoadedIsUnbound(fs: seq<FileState>, handled: nat, lost: set<int>)
    requires Binds(fs, handled, lost)
    ensures FindScript(fs, handled, 0) == |fs|
  {
  }

  lemma {:induction false} SetBreakpointKeepsInv(s: State, diffs: map<int, Script>)
    requires Inv(s) && CanHandle(s) && s.queue[0].SetBreakpoint?
    ensures Inv(HandleNext(s, diffs))
  {
    PendingTail(s);
    OrderlyCounts(Pending(s), s.handled, |s.scripts|, Ended(s));
    var s' := HandleNext(s, diffs);
    assert Pending(s') == Pending(s.(queue := s.queue[1..]));
    SameIndicesBind(s.files, s'.files, s.handled, s.lost);
  }

  lemma {:induction false} BreakKeepsIndices(s: State, frames: seq<int>, diffs: map<int, Script>)
    requires forall i :: i in frames && i != NO_SCRIPT ==> HasFile(s.files, i)
    ensures |HandleBreak(s, frames, diffs).files| == |s.files|
    ensures forall k {:trigger HandleBreak(s, frames, diffs).files[k]} :: 0 <= k < |s.files| ==>
              HandleBreak(s, frames, diffs).files[k] ==
              s.files[k].(isOpen := HandleBreak(s, frames, diffs).files[k].isOpen)
  {
    assert TopScript(frames) != NO_SCRIPT ==> HasFile(s.files, TopScript(frames));
  }

  lemma {:induction false} OtherEventsKeepInv(s: State, diffs: map<int, Script>)
    requires Inv(s) && CanHandle(s) && (s.queue[0].Break? || s.queue[0].Other?)
    ensures Inv(HandleNext(s, diffs))
  {
    PendingTail(s);
    var s' := HandleNext(s, diffs);
    assert Pending(s') == Pending(s.(queue := s.queue[1..]));
    if s.queue[0].Break? {
      BreakKeepsIndices(s.(queue := s.queue[1..]), s.queue[0].frames, diffs);
    }
    SameIndicesBind(s.files, s'.files, s.handled, s.lost);
  }

  lemma {:induction false} SessionEndKeepsInv(s: State, diffs: map<int, Script>)
    requires Inv(s) && s.queue != [] && s.queue[0].SessionEnd?
    ensures Inv(HandleNext(s, diffs)) && AllUnbound(HandleNext(s, diffs).files)
    ensures |s.queue| == 1 && s.thread == Idle && s.handled == |s.scripts|
  {
    PendingTail(s);
    assert Pending(s)[1..] == [];
    assert |Pending(s)| == 1;
    var s' := HandleNext(s, diffs);
    WithoutStaleUnbound(Unbound(s.files));
    UnboundBinds(s'.files, {}, 0);
  }

  lemma {:induction false} HandleKeepsInv(s: State, diffs: map<int, Script>)
    requires Inv(s) && CanHandle(s)
    ensures Inv(HandleNext(s, diffs))
  {
    match s.queue[0]
    case LoadScript(_, _) => LoadScriptKeepsInv(s, diffs);
    case SetBreakpoint(_, _, _, _) => SetBreakpointKeepsInv(s, diffs);
    case Break(_, _, _) => OtherEventsKeepInv(s, diffs);
    case Other(_) => OtherEventsKeepInv(s, diffs);
    case SessionEnd => SessionEndKeepsInv(s, diffs);
  }

  /** The event at the head of the queue names a script that is there, and one that is loaded has no file yet. */
  lemma {:induction false} HeadIsKnown(s: State)
    requires Inv(s) && s.queue != []
    ensures s.queue[0].LoadScript? ==> s.queue[0].scriptIndex == s.handled < |s.scripts| && !HasFile(s.files, s.handled)
    ensures s.queue[0].SetBreakpoint? ==> 0 <= s.queue[0].scriptIndex < s.handled <= |s.scripts|
    ensures s.queue[0].Break? ==> FramesBelow(s.queue[0].frames, s.handled) && s.handled <= |s.scripts|
  {
    PendingTail(s);
    OrderlyCounts(Pending(s), s.handled, |s.scripts|, Ended(s));
    LoadedIsUnbound(s.files, s.handled, s.lost);
  }

  /** Steps that change the file table only keep the invariant if they keep the bindings. */
  lemma {:induction false} TableKeepsInv(s: State, fs: seq<FileState>, lost: set<int>)
    requires Inv(s) && Binds(fs, s.handled, lost) && (s.phase == Inactive ==> lost == {})
    ensures Inv(s.(files := fs, lost := lost))
  {
    assert Pending(s.(files := fs, lost := lost)) == Pending(s);
  }

  lemma {:induction false} TableStepBinds(s: State, step: Step)
    requires Inv(s) && Enabled(s, step)
    requires step.Add? || step.Change? || step.Open? || step.Close? || step.Remove? || step.Replace?
    ensures Next(s, step) == s.(files := Next(s, step).files, lost := Next(s, step).lost)
    ensures Binds(Next(s, step).files, s.handled, Next(s, step).lost)
    ensures s.phase == Inactive ==> Next(s, step).lost == {}
  {
    var fs := Next(s, step).files;
    match step
    case Add(f) => AddKeepsBinds(s.files, f, s.handled, s.lost);
    case Change(_, _) => SameIndicesBind(s.files, fs, s.handled, s.lost);
    case Open(_) => SameIndicesBind(s.files, fs, s.handled, s.lost);
    case Close(k) =>
      if s.files[k].temporary && s.files[k].scriptIndex == NO_SCRIPT {
        RemoveKeepsBinds(s.files, k, s.handled, s.lost);
      } else {
        SameIndicesBind(s.files, fs, s.handled, s.lost);
      }
    case Remove(k) => RemoveKeepsBinds(s.files, k, s.handled, s.lost);
    case Replace(_) => UnboundBinds(fs, Next(s, step).lost, s.handled);
  }

  lemma {:induction false} PressKeepsInv(s: State, k: nat, line: nat, vm: nat, diffs: map<int, Script>)
    requires Inv(s) && k < |s.files|
    ensures Inv(TogglePressed(s, k, line, vm, diffs))
  {
    var s' := TogglePressed(s, k, line, vm, diffs);
    assert Pending(s') == Pending(s);
    SameIndicesBind(s.files, s'.files, s.handled, s.lost);
    if s'.commands != s.commands {
      LoadDonesConcat(s.commands, [s'.commands[|s.commands|]]);
      assert [s'.commands[|s.commands|]][..0] == [];
    }
  }

  /** Every step of either thread and of the user keeps the invariant. */
  lemma {:induction false} StepKeepsInv(s: State, step: Step)
    requires Inv(s) && Enabled(s, step)
    ensures Inv(Next(s, step))
  {
    match step
    case Start => assert Pending(Next(s, step)) == [];
    case Read(m) => ReadKeepsInv(s, m);
    case CloseChannel => CloseKeepsInv(s);
    case Post => PostKeepsInv(s);
    case Handle(diffs) => HandleKeepsInv(s, diffs);
    case Continue => assert Pending(Next(s, step)) == Pending(s);
    case Press(k, line, vm, diffs) => PressKeepsInv(s, k, line, vm, diffs);
    case Look(_, _) => assert Pending(Next(s, step)) == Pending(s);
    case _ =>
      TableStepBinds(s, step);
      TableKeepsInv(s, Next(s, step).files, Next(s, step).lost);
  }

  // ----- Runs -----

  /** Any interleaving of the steps, over any number of sessions. */
  ghost predicate IsRun(run: seq<State>, steps: seq<Step>)
  {
    && |run| == |steps| + 1 && Init(run[0])
    && forall k {:trigger steps[k]} :: 0 <= k < |steps| ==>
         Enabled(run[k], steps[k]) && run[k + 1] == Next(run[k], steps[k])
  }

  lemma {:induction false} RunKeepsInv(run: seq<State>, steps: seq<Step>, k: nat)
    requires IsRun(run, steps) && k < |run|
    ensures Inv(run[k])
  {
    if k == 0 {
      UnboundBinds(run[0].files, {}, 0);
    } else {
      RunKeepsInv(run, steps, k - 1);
      assert Enabled(run[k - 1], steps[k - 1]);
      StepKeepsInv(run[k - 1], steps[k - 1]);
    }
  }

  /** In every state of every run a file's script index is that of a script that was announced and handled. */
  lemma {:induction false} IndicesAreHandled(run: seq<State>, steps: seq<Step>, k: nat, i: nat)
    requires IsRun(run, steps) && k < |run| && i < |run[k].files| && run[k].files[i].scriptIndex != NO_SCRIPT
    ensures 0 <= run[k].files[i].scriptIndex < run[k].handled <= |run[k].scripts|
  {
    RunKeepsInv(run, steps, k);
    if run[k].phase != Inactive {
      OrderlyCounts(Pending(run[k]), run[k].handled, |run[k].scripts|, Ended(run[k]));
    }
  }

  /** And no two files have the same. */
  lemma {:induction false} IndicesAreDistinct(run: seq<State>, steps: seq<Step>, k: nat, i: nat, j: nat)
    requires IsRun(run, steps) && k < |run| && i < |run[k].files| && j < |run[k].files| && i != j
    requires run[k].files[i].scriptIndex != NO_SCRIPT
    ensures run[k].files[i].scriptIndex != run[k].files[j].scriptIndex
  {
    RunKeepsInv(run, steps, k);
  }

  /**
   The scripts announced are those handled and those whose LoadScript is pending; each handled one was answered once.
   */
  lemma {:induction false} EveryLoadIsAnsweredOnce(run: seq<State>, steps: seq<Step>, k: nat)
    requires IsRun(run, steps) && k < |run| && run[k].phase != Inactive
    ensures LoadDones(run[k].commands) + PendingLoads(Pending(run[k])) == |run[k].scripts|
  {
    RunKeepsInv(run, steps, k);
    OrderlyCounts(Pending(run[k]), run[k].handled, |run[k].scripts|, Ended(run[k]));
  }

  /**
   A LoadScript event carries the next index, its script is there, no file is bound to it, and so the file it is going
   to be bound to has no index: the assertion in the handler never fails.
   */
  lemma {:induction false} AssertionNeverFails(run: seq<State>, steps: seq<Step>, k: nat)
    requires IsRun(run, steps) && k < |run| && run[k].queue != [] && run[k].queue[0].LoadScript?
    ensures run[k].queue[0].scriptIndex == run[k].handled < |run[k].scripts|
    ensures !HasFile(run[k].files, run[k].handled)
    ensures var f := FileToBind(run[k], run[k].handled);
            f < |run[k].files| ==> run[k].files[f].scriptIndex == NO_SCRIPT
  {
    var s := run[k];
    RunKeepsInv(run, steps, k);
    PendingTail(s);
    OrderlyCounts(Pending(s), s.handled, |s.scripts|, Ended(s));
    LoadedIsUnbound(s.files, s.handled, s.lost);
  }

  /** A script that an event names has a file exactly as long as its file was not removed nor the project replaced. */
  lemma {:induction false} EventsFindTheirFileIff(run: seq<State>, steps: seq<Step>, k: nat, i: int)
    requires IsRun(run, steps) && k < |run| && run[k].queue != []
    requires i in ScriptsNamed(run[k].queue[0])
    ensures 0 <= i < run[k].handled <= |run[k].scripts|
    ensures HasFile(run[k].files, i) <==> i !in run[k].lost
  {
    RunKeepsInv(run, steps, k);
    HeadIsKnown(run[k]);
  }

  lemma {:induction false} CanHandleIff(s: State)
    requires Inv(s) && s.queue != []
    ensures CanHandle(s) <==> forall i :: i in ScriptsNamed(s.queue[0]) ==> i !in s.lost
  {
    HeadIsKnown(s);
    forall i | i in ScriptsNamed(s.queue[0])
      ensures HasFile(s.files, i) <==> i !in s.lost
    {
      assert 0 <= i < s.handled;
    }
  }

  /** So the UI gets past an event if and only if none of the scripts that it names has lost its file. */
  lemma {:induction false} HandlerFailsIff(run: seq<State>, steps: seq<Step>, k: nat)
    requires IsRun(run, steps) && k < |run| && run[k].queue != []
    ensures !CanHandle(run[k]) <==> exists i :: i in ScriptsNamed(run[k].queue[0]) && i in run[k].lost
  {
    RunKeepsInv(run, steps, k);
    CanHandleIff(run[k]);
  }

  /**
   A session of seven steps from a project with one file, that is removed before an echo for its script is handled.
   */
  function RemovalSteps(vm: nat, name: string, line: nat): seq<Step>
  {
    [Start, Read(LoadScriptMessage(vm, name)), Post, Handle(map[]),
     Read(SetBreakpointMessage(vm, 0, line, true)), Post, Remove(0)]
  }

  lemma {:induction false} RemovalLoads(vm: nat, name: string, s: State)
    requires Init(s) && s.files == [FileState(name, NO_SCRIPT, false, true, [])]
    ensures var steps := [Start, Read(LoadScriptMessage(vm, name)), Post, Handle(map[])];
            CanTake(s, steps) && After(s, steps) == LoadedState(vm, name)
  {
    var s1 := Next(s, Start);
    var s2 := Next(s1, Read(LoadScriptMessage(vm, name)));
    var s3 := Next(s2, Post);
    assert s3.queue == [LoadScript(vm, 0)] && s3.files == s.files && CanHandle(s3);
    assert FindScript(s3.files, 0, 1) == 1 && FindScript(s3.files, 0, 0) == 1 && FileToBind(s3, 0) == 0;
    var s4 := Next(s3, Handle(map[]));
    assert s4.queue == [] && s4.commands == [] + Toggles(vm, 0, []) + [LoadDone(vm)];
    TakesOne(s3, [Handle(map[])]);
    TakesOne(s2, [Post, Handle(map[])]);
    TakesOne(s1, [Read(LoadScriptMessage(vm, name)), Post, Handle(map[])]);
    TakesOne(s, [Start, Read(LoadScriptMessage(vm, name)), Post, Handle(map[])]);
  }

  /** The state after the first four steps. */
  function LoadedState(vm: nat, name: string): State
  {
    State(Running, Reading, [Script(name, [], [])], [], [FileState(name, 0, false, true, [])], [LoadDone(vm)], 1, {})
  }

  lemma {:induction false} RemovalEnds(vm: nat, name: string, line: nat, s: State)
    requires s == LoadedState(vm, name)
    ensures var steps := [Read(SetBreakpointMessage(vm, 0, line, true)), Post, Remove(0)];
            && CanTake(s, steps) && After(s, steps).files == []
            && After(s, steps).queue == [SetBreakpoint(vm, 0, line, true)]
  {
    var s5 := Next(s, Read(SetBreakpointMessage(vm, 0, line, true)));
    var s6 := Next(s5, Post);
    TakesOne(s6, [Remove(0)]);
    TakesOne(s5, [Post, Remove(0)]);
    TakesOne(s, [Read(SetBreakpointMessage(vm, 0, line, true)), Post, Remove(0)]);
  }

  /** It can be taken, and ends before an event that the UI does not get past. */
  lemma {:induction false} RemovalCanFail(vm: nat, name: string, line: nat, s: State)
    requires Init(s) && s.files == [FileState(name, NO_SCRIPT, false, true, [])]
    ensures CanTake(s, RemovalSteps(vm, name, line))
    ensures var s' := After(s, RemovalSteps(vm, name, line));
            s'.queue == [SetBreakpoint(vm, 0, line, true)] && !CanHandle(s')
  {
    var first := [Start, Read(LoadScriptMessage(vm, name)), Post, Handle(map[])];
    var last := [Read(SetBreakpointMessage(vm, 0, line, true)), Post, Remove(0)];
    RemovalLoads(vm, name, s);
    RemovalEnds(vm, name, line, LoadedState(vm, name));
    TakesBoth(s, first, last);
    assert first + last == RemovalSteps(vm, name, line);
    assert 0 in ScriptsNamed(SetBreakpoint(vm, 0, line, true)) && !HasFile([], 0);
  }

  lemma {:induction false} TakesOne(s: State, steps: seq<Step>)
    requires steps != [] && Enabled(s, steps[0]) && CanTake(Next(s, steps[0]), steps[1..])
    ensures CanTake(s, steps) && After(s, steps) == After(Next(s, steps[0]), steps[1..])
  {
  }

  lemma {:induction false} StepsKeepInv(s: State, steps: seq<Step>)
    requires Inv(s) && CanTake(s, steps)
    ensures Inv(After(s, steps))
    decreases |steps|
  {
    if steps != [] {
      StepKeepsInv(s, steps[0]);
      StepsKeepInv(Next(s, steps[0]), steps[1..]);
    }
  }

  lemma {:induction false} TakesBoth(s: State, first: seq<Step>, last: seq<Step>)
    requires CanTake(s, first) && CanTake(After(s, first), last)
    ensures CanTake(s, first + last) && After(s, first + last) == After(After(s, first), last)
    decreases |first|
  {
    if first == [] {
      assert [] + last == last;
    } else {
      assert (first + last)[1..] == first[1..] + last;
      TakesBoth(Next(s, first[0]), first[1..], last);
    }
  }

  predicate KeepsFiles(step: Step)
  {
    !step.Remove? && !step.Replace?
  }

  lemma {:induction false} NothingIsLost(run: seq<State>, steps: seq<Step>, k: nat)
    requires IsRun(run, steps) && k < |run|
    requires forall step :: step in steps ==> KeepsFiles(step)
    ensures run[k].lost == {}
  {
    if k > 0 {
      NothingIsLost(run, steps, k - 1);
      assert Enabled(run[k - 1], steps[k - 1]) && steps[k - 1] in steps;
    }
  }

  /** While no file is removed and the project is not replaced, every script that an event names has a file. */
  lemma {:induction false} FifoSafety(run: seq<State>, steps: seq<Step>, k: nat, i: int)
    requires IsRun(run, steps) && k < |run| && run[k].queue != []
    requires forall step :: step in steps ==> KeepsFiles(step)
    requires i in ScriptsNamed(run[k].queue[0])
    ensures HasFile(run[k].files, i)
  {
    EventsFindTheirFileIff(run, steps, k, i);
    NothingIsLost(run, steps, k);
  }

  /** SessionEnd is handled after every other event of its session, and every script has been handled by then. */
  lemma {:induction false} SessionEndIsLast(run: seq<State>, steps: seq<Step>, k: nat)
    requires IsRun(run, steps) && k < |run| && run[k].queue != [] && run[k].queue[0].SessionEnd?
    ensures Pending(run[k]) == [SessionEnd] && run[k].thread == Idle
    ensures run[k].handled == |run[k].scripts|
    ensures AllUnbound(HandleNext(run[k], map[]).files)
  {
    RunKeepsInv(run, steps, k);
    SessionEndKeepsInv(run[k], map[]);
  }

  /** A new session starts with nothing left of the one before. */
  lemma {:induction false} StartIsClean(run: seq<State>, steps: seq<Step>, k: nat)
    requires IsRun(run, steps) && k < |steps| && steps[k].Start?
    ensures Pending(run[k]) == [] && run[k].thread == Idle && run[k].scripts == [] && AllUnbound(run[k].files)
  {
    RunKeepsInv(run, steps, k);
    assert Enabled(run[k], steps[k]);
  }
}
