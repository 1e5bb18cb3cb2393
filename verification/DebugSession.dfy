/**
 The debug session protocol, as interleaved steps of two threads. The event thread (DebugFrontend::EventThreadProc)
 reads messages of the back end, appends scripts and posts events to a queue; the UI thread (MainFrame) takes them off
 it, binds each script to a project file and answers. Reading a message and posting its event are separate steps.
 */
module DebugSession {
  import opened Options
  import opened Breakpoints
  import opened ProjectFiles
  import opened Reload
  import LineMapping

  datatype Phase = Inactive | Running | Broken

  /** A line map between a script's source and the file bound to it; both parts are empty until a diff is made. */
  datatype Script = Script(name: string, newToOld: seq<nat>, oldToNew: seq<nat>)

  /** What the back end writes to the event channel. A break carries the script index of each stack frame. */
  datatype Message =
    | LoadScriptMessage(vm: nat, name: string)
    | BreakMessage(vm: nat, frames: seq<int>, line: nat)
    | SetBreakpointMessage(vm: nat, scriptIndex: int, line: nat, isSet: bool)
    | SessionEndMessage(vm: nat)
    | OtherMessage(vm: nat)

  datatype Event =
    | LoadScript(vm: nat, scriptIndex: int)
    | Break(vm: nat, frames: seq<int>, line: nat)
    | SetBreakpoint(vm: nat, scriptIndex: int, line: nat, isSet: bool)
    | Other(vm: nat)
    | SessionEnd

  /** What the front end writes to the command channel. */
  datatype Command = Toggle(vm: nat, scriptIndex: int, line: nat) | LoadDone(vm: nat)

  /** The event thread: not running, about to read, or with an event in hand that is not posted yet. */
  datatype Thread = Idle | Reading | Posting(event: Event)

  /**
   The state both threads share. The last three fields record history: the commands sent in this session, how many of
   its LoadScript events have been handled, and the scripts whose file was removed or replaced during the session.
   */
  datatype State = State(
    phase: Phase, thread: Thread, scripts: seq<Script>, queue: seq<Event>, files: seq<FileState>,
    commands: seq<Command>, handled: nat, lost: set<int>)

  predicate Init(s: State)
  {
    && s.phase == Inactive && s.thread == Idle && s.scripts == [] && s.queue == []
    && AllUnbound(s.files) && s.commands == [] && s.handled == 0 && s.lost == {}
  }

  predicate AllUnbound(fs: seq<FileState>)
  {
    forall i :: 0 <= i < |fs| ==> fs[i].scriptIndex == NO_SCRIPT
  }

  // ----- The event thread -----

  /**
   The event the thread makes of a message when it has read n scripts before; SessionEnd from the back end has none.
   */
  function EventOf(m: Message, n: nat): Option<Event>
  {
    match m
    case LoadScriptMessage(vm, _) => Some(LoadScript(vm, n))
    case BreakMessage(vm, frames, line) => Some(Break(vm, frames, line))
    case SetBreakpointMessage(vm, scriptIndex, line, isSet) => Some(SetBreakpoint(vm, scriptIndex, line, isSet))
    case SessionEndMessage(_) => None
    case OtherMessage(vm) => Some(Other(vm))
  }

  /** Every stack frame is outside of all scripts or in one of the first n. */
  predicate FramesBelow(frames: seq<int>, n: nat)
  {
    forall k :: 0 <= k < |frames| ==> NO_SCRIPT <= frames[k] < n
  }

  /** The back end names only scripts it has announced. */
  predicate NamesAnnounced(m: Message, n: nat)
  {
    match m
    case BreakMessage(_, frames, _) => FramesBelow(frames, n)
    case SetBreakpointMessage(_, scriptIndex, _, _) => 0 <= scriptIndex < n
    case _ => true
  }

  /** One turn of the read loop, up to but not including the post. */
  function ReadMessage(s: State, m: Message): State
  {
    var event := EventOf(m, |s.scripts|);
    s.(scripts := if m.LoadScriptMessage? then s.scripts + [Script(m.name, [], [])] else s.scripts,
       phase := if m.BreakMessage? then Broken else s.phase,
       thread := if event.Some? then Posting(event.value) else Reading)
  }

  /** AddPendingEvent; after SessionEnd the thread ends. */
  function PostEvent(s: State): State
    requires s.thread.Posting?
  {
    s.(queue := s.queue + [s.thread.event], thread := if s.thread.event.SessionEnd? then Idle else Reading)
  }

  // ----- The UI thread -----

  function Toggles(vm: nat, scriptIndex: int, lines: seq<nat>): (cs: seq<Command>)
    ensures |cs| == |lines|
    ensures forall k {:trigger cs[k]} :: 0 <= k < |lines| ==> cs[k] == Toggle(vm, scriptIndex, lines[k])
  {
    seq(|lines|, k requires 0 <= k < |lines| => Toggle(vm, scriptIndex, lines[k]))
  }

  /** The position of the file a loaded script is bound to: already bound, else unbound by that name, else a new one. */
  function FileToBind(s: State, i: nat): (k: nat)
    requires i < |s.scripts|
    ensures k <= |s.files|
  {
    var bound := FindScript(s.files, i, 0);
    if bound < |s.files| then bound else FindUnbound(s.files, s.scripts[i].name, 0)
  }

  /** The table with file k, or a new temporary file if there is none, bound to script i and without breakpoints. */
  function Bound(fs: seq<FileState>, k: nat, name: string, i: nat): seq<FileState>
    requires k <= |fs|
  {
    if k < |fs| then fs[k := fs[k].(scriptIndex := i, breakpoints := [])]
    else fs + [FileState(name, i, true, false, [])]
  }

  /** Script i after the diff made for it, if one is made: the maps are replaced, the name stays. */
  function Rediffed(script: Script, diffs: map<int, Script>, i: int): Script
  {
    if i in diffs then diffs[i].(name := script.name) else script
  }

  /** EventId_LoadScript. The diff, if one can be made, is that of the script's source and the file on disk. */
  function HandleLoadScript(s: State, vm: nat, i: nat, diffs: map<int, Script>): State
    requires i < |s.scripts|
  {
    var k := FileToBind(s, i);
    var byName := FindScript(s.files, i, 0) == |s.files| && k < |s.files|;
    var script := if byName then Rediffed(s.scripts[i], diffs, i) else s.scripts[i];
    var bps := if k < |s.files| then s.files[k].breakpoints else [];
    s.(scripts := s.scripts[i := script],
       files := Bound(s.files, k, script.name, i),
       commands := s.commands + Toggles(vm, i, Sent(bps, script.newToOld)) + [LoadDone(vm)],
       handled := s.handled + 1)
  }

  /** EventId_SetBreakpoint. A file that is open and whose map is not that of the text in the editor is diffed first. */
  function HandleSetBreakpoint(s: State, i: nat, line: nat, isSet: bool, diffs: map<int, Script>): State
    requires i < |s.scripts| && HasFile(s.files, i)
  {
    var script := Rediffed(s.scripts[i], diffs, i);
    s.(scripts := s.scripts[i := script],
       files := WithBreakpointSet(s.files, i, LineMapping.Lookup(script.oldToNew, line), isSet))
  }

  /** The script of the first stack frame that is in one, or none. */
  function TopScript(frames: seq<int>): (top: int)
    ensures top == NO_SCRIPT || top in frames
  {
    if frames == [] then NO_SCRIPT else if frames[0] != NO_SCRIPT then frames[0] else TopScript(frames[1..])
  }

  /** The scripts after the lines of the first n stack frames have been looked up. */
  function Looked(scripts: seq<Script>, frames: seq<int>, diffs: map<int, Script>, n: nat): (r: seq<Script>)
    requires n <= |frames|
    ensures |r| == |scripts|
  {
    if n == 0 then scripts
    else
      var r, i := Looked(scripts, frames, diffs, n - 1), frames[n - 1];
      if 0 <= i < |r| then r[i := Rediffed(r[i], diffs, i)] else r
  }

  /** EventId_Break: the file of the topmost script on the stack is opened, and the line of every frame is looked up. */
  function HandleBreak(s: State, frames: seq<int>, diffs: map<int, Script>): State
    requires forall i :: i in frames && i != NO_SCRIPT ==> HasFile(s.files, i)
  {
    var k := FindScript(s.files, TopScript(frames), 0);
    var inScript := TopScript(frames) != NO_SCRIPT;
    assert inScript ==> HasFile(s.files, TopScript(frames));
    s.(files := if inScript then s.files[k := s.files[k].(isOpen := true)] else s.files,
       scripts := Looked(s.scripts, frames, diffs, |frames|))
  }

  /** EventId_SessionEnd: OnSessionEnd and DebugFrontend::Shutdown. */
  function HandleSessionEnd(s: State): State
  {
    s.(phase := Inactive, scripts := [], files := WithoutStale(Unbound(s.files)), handled := 0, lost := {})
  }

  /** The scripts whose files a handler looks up without asking whether they exist: for a break one for each frame. */
  function ScriptsNamed(e: Event): set<int>
  {
    match e
    case Break(_, frames, _) => set i | i in frames && i != NO_SCRIPT
    case SetBreakpoint(_, i, _, _) => {i}
    case _ => {}
  }

  predicate HasFile(fs: seq<FileState>, i: int)
  {
    FindScript(fs, i, 0) < |fs|
  }

  /** Every script that the event names has a file; without one its handler uses a null file. */
  predicate CanHandleEvent(fs: seq<FileState>, e: Event)
  {
    forall i :: i in ScriptsNamed(e) ==> HasFile(fs, i)
  }

  predicate CanHandle(s: State)
  {
    s.queue != [] && CanHandleEvent(s.files, s.queue[0])
  }

  /**
   OnDebugEvent; diffs holds the maps that are made on the way, by script. An index with no script would be an error of
   the protocol.
   */
  function HandleEvent(s: State, e: Event, diffs: map<int, Script>): State
    requires CanHandleEvent(s.files, e)
  {
    match e
    case LoadScript(vm, i) => if 0 <= i < |s.scripts| then HandleLoadScript(s, vm, i, diffs) else s
    case SetBreakpoint(_, i, line, isSet) =>
      assert i in ScriptsNamed(e);
      if 0 <= i < |s.scripts| then HandleSetBreakpoint(s, i, line, isSet, diffs) else s
    case Break(_, frames, _) =>
      assert forall i :: i in frames && i != NO_SCRIPT ==> i in ScriptsNamed(e);
      HandleBreak(s, frames, diffs)
    case SessionEnd => HandleSessionEnd(s)
    case Other(_) => s
  }

  /** The UI takes the event at the head of the queue. */
  function HandleNext(s: State, diffs: map<int, Script>): State
    requires CanHandle(s)
  {
    HandleEvent(s.(queue := s.queue[1..]), s.queue[0], diffs)
  }

  /**
   The user toggles line of the file at k (MainFrame::ToggleBreakpoint): through the back end if the file is bound and
   the line exists there, else in the file's list.
   */
  function TogglePressed(s: State, k: nat, line: nat, vm: nat, diffs: map<int, Script>): State
    requires k < |s.files|
  {
    var i := s.files[k].scriptIndex;
    var bound := 0 <= i < |s.scripts|;
    var s' := if bound then s.(scripts := s.scripts[i := Rediffed(s.scripts[i], diffs, i)]) else s;
    var oldLine := if bound then LineMapping.Lookup(s'.scripts[i].newToOld, line) else LineMapping.INVALID_LINE;
    if oldLine != LineMapping.INVALID_LINE then s'.(commands := s.commands + [Toggle(vm, i, oldLine)])
    else s'.(files := s.files[k := s.files[k].(breakpoints := Toggled(s.files[k].breakpoints, line))])
  }

  // ----- The steps -----

  datatype Step =
    | Start                             // a process is started or attached to
    | Read(message: Message)            // the event thread reads a message
    | CloseChannel                      // its read fails
    | Post                              // it posts the event in hand
    | Handle(diffs: map<int, Script>)   // the UI handles the next event
    | Look(i: nat, script: Script)      // some other look up of a line makes a diff
    | Continue                          // the user continues, or steps
    | Add(file: FileState)              // a file is added to the project
    | Change(k: nat, lines: seq<nat>)   // a file's breakpoints change by an edit
    | Press(k: nat, line: nat, vm: nat, diffs: map<int, Script>) // the user toggles a breakpoint
    | Open(k: nat)                      // a file is opened in the editor
    | Close(k: nat)                     // its page is closed
    | Remove(k: nat)                    // a file is deleted from the project
    | Replace(files: seq<FileState>)    // another project is opened

  predicate Enabled(s: State, step: Step)
  {
    match step
    case Start => s.phase == Inactive
    case Read(m) => s.thread == Reading && NamesAnnounced(m, |s.scripts|)
    case CloseChannel => s.thread == Reading
    case Post => s.thread.Posting?
    case Handle(_) => CanHandle(s)
    case Look(i, _) => i < |s.scripts|
    case Continue => s.phase != Inactive
    case Add(f) => f.scriptIndex == NO_SCRIPT
    case Change(k, _) => k < |s.files|
    case Press(k, _, _, _) => k < |s.files|
    case Open(k) => k < |s.files|
    case Close(k) => k < |s.files|
    case Remove(k) => k < |s.files|
    case Replace(fs) => AllUnbound(fs)
  }

  function Removed(fs: seq<FileState>, k: nat): seq<FileState>
    requires k < |fs|
  {
    fs[..k] + fs[k + 1..]
  }

  function Losing(lost: set<int>, scriptIndex: int): set<int>
  {
    if scriptIndex == NO_SCRIPT then lost else lost + {scriptIndex}
  }

  /** The script indices below n. */
  function Below(n: nat): (r: set<int>)
    ensures forall i :: i in r <==> 0 <= i < n
  {
    if n == 0 then {} else Below(n - 1) + {n - 1}
  }

  function Next(s: State, step: Step): State
    requires Enabled(s, step)
  {
    match step
    case Start => s.(phase := Running, thread := Reading, commands := [])
    case Read(m) => ReadMessage(s, m)
    case CloseChannel => s.(thread := Posting(SessionEnd))
    case Post => PostEvent(s)
    case Handle(diffs) => HandleNext(s, diffs)
    case Look(i, script) => s.(scripts := s.scripts[i := Rediffed(s.scripts[i], map[i := script], i)])
    case Continue => s.(phase := Running)
    case Add(f) => s.(files := s.files + [f])
    case Change(k, lines) => s.(files := s.files[k := s.files[k].(breakpoints := lines)])
    case Press(k, line, vm, diffs) => TogglePressed(s, k, line, vm, diffs)
    case Open(k) => s.(files := s.files[k := s.files[k].(isOpen := true)])
    case Close(k) =>
      if s.files[k].temporary && s.files[k].scriptIndex == NO_SCRIPT then s.(files := Removed(s.files, k))
      else s.(files := s.files[k := s.files[k].(isOpen := false)])
    case Remove(k) => s.(files := Removed(s.files, k), lost := Losing(s.lost, s.files[k].scriptIndex))
    case Replace(fs) => s.(files := fs, lost := s.lost + Below(s.handled))
  }

  /** Every step can be taken in turn. */
  predicate CanTake(s: State, steps: seq<Step>)
    decreases |steps|
  {
    steps != [] ==> Enabled(s, steps[0]) && CanTake(Next(s, steps[0]), steps[1..])
  }

  function After(s: State, steps: seq<Step>): State
    requires CanTake(s, steps)
    decreases |steps|
  {
    if steps == [] then s else After(Next(s, steps[0]), steps[1..])
  }

  // ----- The invariant -----

  /** What is posted or about to be. */
  function Pending(s: State): seq<Event>
  {
    s.queue + if s.thread.Posting? then [s.thread.event] else []
  }

  /** The channel of the session is closed: its SessionEnd is posted or about to be. */
  predicate Ended(s: State)
  {
    s.thread == Idle || s.thread == Posting(SessionEnd)
  }

  /**
   The pending events, from the one after next handled loads on: the LoadScript events carry exactly the indices from
   next to total, every other event names only scripts whose LoadScript comes before it, and SessionEnd, which is there
   just when the session has ended, is the last.
   */
  predicate Orderly(events: seq<Event>, next: nat, total: nat, ended: bool)
  {
    if events == [] then next == total && !ended
    else
      match events[0]
      case LoadScript(_, i) => i == next && Orderly(events[1..], next + 1, total, ended)
      case Break(_, frames, _) => FramesBelow(frames, next) && Orderly(events[1..], next, total, ended)
      case SetBreakpoint(_, i, _, _) => 0 <= i < next && Orderly(events[1..], next, total, ended)
      case Other(_) => Orderly(events[1..], next, total, ended)
      case SessionEnd => events[1..] == [] && next == total && ended
  }

  /**
   Script indices on files are distinct and handled, and of the handled scripts exactly the lost ones have no file.
   */
  ghost predicate Binds(fs: seq<FileState>, handled: nat, lost: set<int>)
  {
    && (forall i :: 0 <= i < |fs| ==> NO_SCRIPT <= fs[i].scriptIndex < handled)
    && (forall i, j :: 0 <= i < j < |fs| && fs[i].scriptIndex != NO_SCRIPT ==> fs[i].scriptIndex != fs[j].scriptIndex)
    && (forall n :: 0 <= n < handled ==> (HasFile(fs, n) <==> n !in lost))
    && (forall n :: n in lost ==> 0 <= n < handled)
  }

  function LoadDones(cs: seq<Command>): nat
  {
    if cs == [] then 0 else LoadDones(cs[..|cs| - 1]) + if cs[|cs| - 1].LoadDone? then 1 else 0
  }

  ghost predicate Inv(s: State)
  {
    && Binds(s.files, s.handled, s.lost)
    && if s.phase == Inactive then
         s.thread == Idle && s.queue == [] && s.scripts == [] && s.handled == 0 && s.lost == {}
       else
         Orderly(Pending(s), s.handled, |s.scripts|, Ended(s)) && LoadDones(s.commands) == s.handled
  }
}
