/**
 The same protocol as the code that runs it: the event thread's read loop and the UI's handlers, changing the project's
 files and the front end's fields in place. Each method is proved to take the step of DebugSession it stands for.
 */
module Debugger {
  import opened Options
  import opened ProjectFiles
  import opened Reload
  import LineMapping
  import opened DebugSession
  import opened DebugSessionLaws

  /** The whole of EventThreadProc, undisturbed: every message in turn, then SessionEnd. */
  function ThreadRun(s: State, messages: seq<Message>): State
    decreases |messages|
  {
    if messages == [] then PostEvent(s.(thread := Posting(SessionEnd)))
    else
      var s' := ReadMessage(s, messages[0]);
      ThreadRun(if s'.thread.Posting? then PostEvent(s') else s', messages[1..])
  }

  /** The steps that the loop stands for. */
  function ThreadSteps(messages: seq<Message>): seq<Step>
  {
    if messages == [] then [CloseChannel, Post]
    else
      [Read(messages[0])] + (if messages[0].SessionEndMessage? then [] else [Post]) + ThreadSteps(messages[1..])
  }

  /** The back end names only scripts it has announced, in messages read when there are n scripts. */
  predicate AllAnnounced(messages: seq<Message>, n: nat)
  {
    messages != [] ==>
      NamesAnnounced(messages[0], n) && AllAnnounced(messages[1..], if messages[0].LoadScriptMessage? then n + 1 else n)
  }

  /** Each of them can be taken in its turn, and together they are the loop. */
  lemma {:induction false} ThreadTakesSteps(s: State, messages: seq<Message>)
    requires s.thread == Reading && AllAnnounced(messages, |s.scripts|)
    ensures CanTake(s, ThreadSteps(messages)) && After(s, ThreadSteps(messages)) == ThreadRun(s, messages)
    decreases |messages|
  {
    if messages == [] {
      TakesFirst(Next(s, CloseChannel), Post, []);
      TakesFirst(s, CloseChannel, [Post]);
      assert [Post] + [] == [Post] && [CloseChannel] + [Post] == [CloseChannel, Post];
    } else {
      var m, rest := messages[0], ThreadSteps(messages[1..]);
      var read := ReadMessage(s, m);
      if m.SessionEndMessage? {
        ThreadTakesSteps(read, messages[1..]);
        TakesFirst(s, Read(m), rest);
        assert [Read(m)] + [] + rest == [Read(m)] + rest;
      } else {
        ThreadTakesSteps(PostEvent(read), messages[1..]);
        TakesTwo(s, Read(m), Post, rest);
      }
    }
  }

  lemma {:induction false} TakesTwo(s: State, step1: Step, step2: Step, rest: seq<Step>)
    requires Enabled(s, step1) && Enabled(Next(s, step1), step2) && CanTake(Next(Next(s, step1), step2), rest)
    ensures CanTake(s, [step1] + [step2] + rest)
    ensures After(s, [step1] + [step2] + rest) == After(Next(Next(s, step1), step2), rest)
  {
    TakesFirst(Next(s, step1), step2, rest);
    TakesFirst(s, step1, [step2] + rest);
    assert [step1] + [step2] + rest == [step1] + ([step2] + rest);
  }

  lemma {:induction false} TakesFirst(s: State, step: Step, rest: seq<Step>)
    requires Enabled(s, step) && CanTake(Next(s, step), rest)
    ensures CanTake(s, [step] + rest) && After(s, [step] + rest) == After(Next(s, step), rest)
  {
    assert ([step] + rest)[1..] == rest;
  }

  /** So the loop keeps the invariant. */
  lemma {:induction false} ThreadKeepsInv(s: State, messages: seq<Message>)
    requires s.thread == Reading && AllAnnounced(messages, |s.scripts|) && DebugSession.Inv(s)
    ensures DebugSession.Inv(ThreadRun(s, messages))
  {
    ThreadTakesSteps(s, messages);
    StepsKeepInv(s, ThreadSteps(messages));
  }

  class MainFrame {
    const project: Project
    var phase: Phase
    var thread: Thread
    var scripts: seq<Script>
    var queue: seq<Event>
    var commands: seq<Command>
    ghost var handled: nat
    ghost var lost: set<int>

    constructor (project: Project)
      requires project.Valid() && AllUnbound(project.View())
      ensures this.project == project && View().files == project.View() && Init(View())
    {
      this.project := project;
      phase, thread, scripts, queue, commands := Inactive, Idle, [], [], [];
      handled, lost := 0, {};
    }

    ghost function View(): State
      reads this, project, project.files
    {
      State(phase, thread, scripts, queue, project.View(), commands, handled, lost)
    }

    // ----- The event thread -----

    /** One turn of the read loop: read a message, and post what it makes. */
    method OnMessage(m: Message)
      requires thread == Reading
      modifies this
      ensures var s' := ReadMessage(old(View()), m);
              View() == if s'.thread.Posting? then PostEvent(s') else s'
      ensures thread == Reading
    {
      var event := None;
      match m {
        case LoadScriptMessage(vm, name) =>
          var scriptIndex := |scripts|;
          scripts := scripts + [Script(name, [], [])];
          event := Some(LoadScript(vm, scriptIndex));
        case BreakMessage(vm, frames, line) =>
          phase := Broken;
          event := Some(Break(vm, frames, line));
        case SetBreakpointMessage(vm, scriptIndex, line, isSet) =>
          event := Some(SetBreakpoint(vm, scriptIndex, line, isSet));
        case SessionEndMessage(_) =>
        case OtherMessage(vm) =>
          event := Some(Other(vm));
      }
      if event.Some? {
        queue := queue + [event.value];
      }
    }

    method EventThreadProc(messages: seq<Message>)
      requires thread == Reading
      modifies this
      ensures View() == ThreadRun(old(View()), messages)
      ensures old(DebugSession.Inv(View())) && AllAnnounced(messages, |old(scripts)|) ==> DebugSession.Inv(View())
    {
      ghost var before := View();
      if AllAnnounced(messages, |scripts|) && DebugSession.Inv(before) {
        ThreadKeepsInv(before, messages);
      }
      var i := 0;
      while i < |messages|
        invariant i <= |messages| && thread == Reading
        invariant ThreadRun(View(), messages[i..]) == ThreadRun(old(View()), messages)
      {
        assert messages[i..][1..] == messages[i + 1..];
        OnMessage(messages[i]);
        i := i + 1;
      }
      queue := queue + [SessionEnd];
      thread := Idle;
    }

    // ----- The UI thread -----

    method OnLoadScript(vm: nat, i: nat, diffs: map<int, Script>)
      requires project.Valid() && i < |scripts| && !HasFile(project.View(), i)
      modifies this, project, project.files
      ensures project.Valid() && View() == HandleLoadScript(old(View()), vm, i, diffs)
      ensures fresh(Elements(project.files) - Elements(old(project.files)))
    {
      ghost var k := FileToBind(View(), i);
      var file := FindFile(i, diffs);
      var breakpoints := BindFile(file, i, k);
      Answer(vm, i, breakpoints);
    }

    /** Send the breakpoints, and tell the back end that the script has been dealt with. */
    method Answer(vm: nat, i: nat, breakpoints: seq<nat>)
      requires i < |scripts|
      modifies `commands, `handled
      ensures commands == old(commands) + Toggles(vm, i, Sent(breakpoints, scripts[i].newToOld)) + [LoadDone(vm)]
      ensures handled == old(handled) + 1
    {
      SendBreakpoints(vm, i, breakpoints);
      commands := commands + [LoadDone(vm)];
      handled := handled + 1;
    }

    /** Bind the file that was found, or a new temporary one, and take its breakpoints from it. */
    method BindFile(found: File?, i: nat, ghost k: nat) returns (breakpoints: seq<nat>)
      requires project.Valid() && i < |scripts| && k <= |project.files|
      requires found == if k < |project.files| then project.files[k] else null
      requires found != null ==> found.scriptIndex == NO_SCRIPT
      modifies project, project.files
      ensures project.Valid() && project.View() == Bound(old(project.View()), k, scripts[i].name, i)
      ensures breakpoints == if k < |old(project.files)| then old(project.View())[k].breakpoints else []
      ensures fresh(Elements(project.files) - Elements(old(project.files)))
    {
      var file := found;
      if file == null {
        file := project.AddTemporaryFile(scripts[i].name, i);
      } else {
        assert file.scriptIndex == NO_SCRIPT;
      }
      breakpoints := TakeBreakpoints(file, i, k);
    }

    /** Look for a file to bind to script i; one that is found by name is diffed with the script, if it can be. */
    method FindFile(i: nat, diffs: map<int, Script>) returns (file: File?)
      requires project.Valid() && i < |scripts| && !HasFile(project.View(), i)
      modifies `scripts
      ensures project.View() == old(project.View())
      ensures var k := FileToBind(old(View()), i);
              && file == (if k < |project.files| then project.files[k] else null)
              && (file != null ==> file.scriptIndex == NO_SCRIPT)
              && scripts == old(scripts)[i :=
                   if file != null then Rediffed(old(scripts)[i], diffs, i) else old(scripts)[i]]
    {
      file := project.GetFileForScript(i);
      if file == null {
        file := project.GetFileMatchingSource(scripts[i].name);
        if file != null {
          assert file.State() == project.View()[FileToBind(View(), i)];
          scripts := scripts[i := Rediffed(scripts[i], diffs, i)];
        }
      }
    }

    /** Copy the breakpoints of the file at k, clear them, and bind the file to script i. */
    method TakeBreakpoints(file: File, i: nat, ghost k: nat) returns (breakpoints: seq<nat>)
      requires project.Valid() && k < |project.files| && project.files[k] == file
      modifies file
      ensures breakpoints == old(file.breakpoints)
      ensures project.View() == old(project.View())[k := old(file.State()).(scriptIndex := i, breakpoints := [])]
    {
      breakpoints := file.breakpoints;
      file.breakpoints := [];
      file.scriptIndex := i;
    }

    /** The loop that sends a toggle for every breakpoint whose line exists in the script. */
    method SendBreakpoints(vm: nat, i: nat, breakpoints: seq<nat>)
      requires i < |scripts|
      modifies `commands
      ensures commands == old(commands) + Toggles(vm, i, Sent(breakpoints, scripts[i].newToOld))
    {
      var j := 0;
      ghost var sent: seq<nat> := [];
      while j < |breakpoints|
        invariant j <= |breakpoints|
        invariant commands == old(commands) + Toggles(vm, i, sent)
        invariant sent + Sent(breakpoints[j..], scripts[i].newToOld) == Sent(breakpoints, scripts[i].newToOld)
      {
        var oldLine := LineMapping.Lookup(scripts[i].newToOld, breakpoints[j]);
        assert breakpoints[j..][1..] == breakpoints[j + 1..];
        if oldLine != LineMapping.INVALID_LINE {
          assert Toggles(vm, i, sent + [oldLine]) == Toggles(vm, i, sent) + [Toggle(vm, i, oldLine)];
          Extend(sent, oldLine, Sent(breakpoints[j + 1..], scripts[i].newToOld));
          commands := commands + [Toggle(vm, i, oldLine)];
          sent := sent + [oldLine];
        } else {
          ghost var rest := Sent(breakpoints[j + 1..], scripts[i].newToOld);
          assert [] + rest == rest;
        }
        j := j + 1;
      }
      assert sent + [] == sent;
    }

    /** UpdateLineMappingIfNecessary: script i gets the map that is made for it, if one is. */
    method UpdateLineMapping(i: nat, diffs: map<int, Script>)
      requires i < |scripts|
      modifies `scripts
      ensures scripts == old(scripts)[i := Rediffed(old(scripts)[i], diffs, i)]
    {
      if i in diffs {
        scripts := scripts[i := diffs[i].(name := scripts[i].name)];
      }
    }

    method OnSetBreakpoint(i: nat, line: nat, isSet: bool, diffs: map<int, Script>)
      requires project.Valid() && i < |scripts| && HasFile(project.View(), i)
      modifies this, project, project.files
      ensures project.Valid() && View() == HandleSetBreakpoint(old(View()), i, line, isSet, diffs)
      ensures project.files == old(project.files)
    {
      var file := project.GetFileForScript(i);
      assert file != null;
      UpdateLineMapping(i, diffs);
      var newLine := LineMapping.Lookup(scripts[i].oldToNew, line);
      project.SetBreakpoint(i, newLine, isSet);
    }

    /** The search down the stack for a frame that is in a script. */
    method FindTopScript(frames: seq<int>) returns (top: int)
      ensures top == TopScript(frames)
    {
      var i := 0;
      while i < |frames|
        invariant i <= |frames| && TopScript(frames[i..]) == TopScript(frames)
      {
        assert frames[i..][1..] == frames[i + 1..];
        if frames[i] != NO_SCRIPT {
          return frames[i];
        }
        i := i + 1;
      }
      return NO_SCRIPT;
    }

    /** The loop over the stack that looks up every frame's line. */
    method LookUpFrames(frames: seq<int>, diffs: map<int, Script>)
      requires forall i :: i in frames && i != NO_SCRIPT ==> HasFile(project.View(), i)
      modifies `scripts
      ensures scripts == Looked(old(scripts), frames, diffs, |frames|)
    {
      var i := 0;
      while i < |frames|
        invariant i <= |frames| && scripts == Looked(old(scripts), frames, diffs, i)
      {
        if frames[i] != NO_SCRIPT {
          assert frames[i] in frames;
          var file := project.GetFileForScript(frames[i]);
          assert file != null;
          if 0 <= frames[i] < |scripts| {
            UpdateLineMapping(frames[i], diffs);
          }
        }
        i := i + 1;
      }
    }

    /** OpenScript: the file bound to the script is shown. */
    method OpenScript(scriptIndex: int)
      requires project.Valid() && HasFile(project.View(), scriptIndex)
      modifies project.files
      ensures var files, k := old(project.View()), FindScript(old(project.View()), scriptIndex, 0);
              project.View() == files[k := files[k].(isOpen := true)]
      ensures forall n :: HasFile(project.View(), n) <==> HasFile(old(project.View()), n)
    {
      ghost var files := project.View();
      var file := project.GetFileForScript(scriptIndex);
      assert file != null;
      file.isOpen := true;
      assert project.View() == files[FindScript(files, scriptIndex, 0) := file.State()];
      forall n
        ensures HasFile(project.View(), n) <==> HasFile(files, n)
      {
        SameIndicesFind(files, project.View(), n, 0);
      }
    }

    method OnBreak(frames: seq<int>, diffs: map<int, Script>)
      requires project.Valid() && forall i :: i in frames && i != NO_SCRIPT ==> HasFile(project.View(), i)
      modifies this, project.files
      ensures project.Valid() && View() == HandleBreak(old(View()), frames, diffs)
      ensures project.files == old(project.files)
    {
      var scriptIndex := FindTopScript(frames);
      if scriptIndex != NO_SCRIPT {
        OpenScript(scriptIndex);
      }
      LookUpFrames(frames, diffs);
    }

    /** The user's toggle; the line past the end of an open document is refused. */
    method ToggleBreakpoint(file: File, ghost k: nat, line: nat, pastEnd: bool, vm: nat, diffs: map<int, Script>)
      requires project.Valid() && k < |project.files| && project.files[k] == file
      modifies `scripts, `commands, project`needsUserSave, file
      ensures View() == if pastEnd then old(View()) else TogglePressed(old(View()), k, line, vm, diffs)
    {
      if pastEnd {
        return;
      }
      ghost var files := project.View();
      var scriptIndex := file.scriptIndex;
      if 0 <= scriptIndex < |scripts| {
        UpdateLineMapping(scriptIndex, diffs);
        var oldLine := LineMapping.Lookup(scripts[scriptIndex].newToOld, line);
        if oldLine != LineMapping.INVALID_LINE {
          commands := commands + [Toggle(vm, scriptIndex, oldLine)];
          return;
        }
      }
      var isSet := project.ToggleBreakpoint(file, line);
      assert project.View() == files[k := file.State()];
    }

    method OnSessionEnd()
      requires project.Valid()
      modifies this, project, project.files
      ensures project.Valid() && View() == HandleSessionEnd(old(View()))
      ensures forall f :: f in project.files ==> f in old(project.files)
    {
      ghost var files := project.View();
      project.EndSession();
      assert project.View() == WithoutStale(Unbound(files));
      phase, scripts := Inactive, [];
      handled, lost := 0, {};
    }

    /** The event's script is there, and one that is loaded has no file yet. */
    ghost predicate Knows(e: Event)
      reads this, project, project.files
    {
      match e
      case LoadScript(_, i) => 0 <= i < |scripts| && !HasFile(project.View(), i)
      case SetBreakpoint(_, i, _, _) => 0 <= i < |scripts|
      case _ => true
    }

    method Dispatch(e: Event, diffs: map<int, Script>)
      requires project.Valid() && Knows(e) && CanHandleEvent(project.View(), e)
      modifies this, project, project.files
      ensures project.Valid() && old(CanHandleEvent(project.View(), e))
      ensures View() == HandleEvent(old(View()), e, diffs)
      ensures fresh(Elements(project.files) - Elements(old(project.files)))
    {
      match e {
        case LoadScript(vm, i) => OnLoadScript(vm, i, diffs);
        case SetBreakpoint(_, i, line, isSet) =>
          assert i in ScriptsNamed(e);
          OnSetBreakpoint(i, line, isSet, diffs);
        case Break(_, frames, _) =>
          assert forall i :: i in frames && i != NO_SCRIPT ==> i in ScriptsNamed(e);
          OnBreak(frames, diffs);
        case SessionEnd => OnSessionEnd();
        case Other(_) =>
      }
    }

    /**
     The UI takes the next event off the queue. If no script that it names has lost its file nothing on the way fails.
     */
    method OnDebugEvent(diffs: map<int, Script>)
      requires project.Valid() && queue != [] && DebugSession.Inv(View())
      requires forall i :: i in ScriptsNamed(queue[0]) ==> i !in lost
      modifies this, project, project.files
      ensures project.Valid() && old(CanHandle(View())) && View() == HandleNext(old(View()), diffs)
      ensures DebugSession.Inv(View())
      ensures fresh(Elements(project.files) - Elements(old(project.files)))
    {
      ghost var before := View();
      CanHandleIff(before);
      HandleKeepsInv(before, diffs);
      HeadIsKnown(before);
      var event := queue[0];
      queue := queue[1..];
      assert View() == before.(queue := before.queue[1..]);
      Dispatch(event, diffs);
    }
  }

  ghost function Elements(files: seq<File>): set<File>
  {
    set f | f in files
  }
}
