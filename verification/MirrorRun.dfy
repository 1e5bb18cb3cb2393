/**
 The back end beside the protocol: it takes the commands one by one, flips the line of each toggle and answers on the
 event channel. From the start of the session, and while nothing is edited, the breakpoints that the editor shows keep
 up with it through every interleaving.
 */
module MirrorRun {
  import opened Options
  import opened ProjectFiles
  import opened Breakpoints
  import opened Lists
  import opened LineMapping
  import opened LineMapLaws
  import opened DebugSession
  import opened DebugSessionLaws
  import opened Reload
  import opened ReloadLaws
  import opened ReloadRun

  /**
   The front end, and for one script: how many commands the back end has taken, the lines it has set and its answers
   that are not read yet. The lines it had set at the last answer that was handled are history.
   */
  datatype World = World(s: State, served: nat, backend: set<nat>, channel: seq<Echo>, shown: set<nat>)

  /** The script's toggles among the commands. */
  function TogglesOf(cs: seq<Command>, i: nat): seq<nat>
  {
    if cs == [] then []
    else
      var c := cs[|cs| - 1];
      TogglesOf(cs[..|cs| - 1], i) + if c.Toggle? && c.scriptIndex == i then [c.line] else []
  }

  /** The script's answers among the events. */
  function EchoesOf(events: seq<Event>, i: nat): seq<Echo>
  {
    if events == [] then []
    else
      var e := events[0];
      (if e.SetBreakpoint? && e.scriptIndex == i then [Echo(e.line, e.isSet)] else []) + EchoesOf(events[1..], i)
  }

  /** The answers under way, first those that were read. */
  function UnderWay(w: World, i: nat): seq<Echo>
  {
    EchoesOf(Pending(w.s), i) + w.channel
  }

  function LinesOf(echoes: seq<Echo>): (lines: seq<nat>)
    ensures |lines| == |echoes|
    ensures forall k {:trigger lines[k]} :: 0 <= k < |echoes| ==> lines[k] == echoes[k].line
  {
    seq(|echoes|, k requires 0 <= k < |echoes| => echoes[k].line)
  }

  // ----- The steps -----

  datatype WorldStep =
    | Serve              // the back end takes a command
    | Take(step: Step)   // a step of the protocol

  /** The message is an answer for the script. */
  predicate IsAnswer(step: Step, i: nat)
  {
    step.Read? && step.message.SetBreakpointMessage? && step.message.scriptIndex == i
  }

  predicate CanStep(w: World, step: WorldStep, i: nat)
  {
    match step
    case Serve => w.served < |w.s.commands|
    case Take(t) =>
      && Enabled(w.s, t)
      && (IsAnswer(t, i) ==> w.channel != [] && w.channel[0] == Echo(t.message.line, t.message.isSet))
  }

  function Served(w: World, i: nat): World
    requires w.served < |w.s.commands|
  {
    var c := w.s.commands[w.served];
    if c.Toggle? && c.scriptIndex == i then
      w.(served := w.served + 1, backend := Flipped(w.backend, c.line),
         channel := w.channel + [Echo(c.line, c.line !in w.backend)])
    else w.(served := w.served + 1)
  }

  /** A new session has a new back end. */
  function StepWorld(w: World, step: WorldStep, i: nat): World
    requires CanStep(w, step, i)
  {
    match step
    case Serve => Served(w, i)
    case Take(t) =>
      if t.Start? then World(Next(w.s, t), 0, {}, [], {})
      else
        w.(s := Next(w.s, t),
           channel := if IsAnswer(t, i) then w.channel[1..] else w.channel,
           shown := if IsEcho(w.s, t, i) then Flipped(w.shown, w.s.queue[0].line) else w.shown)
  }

  // ----- The invariant -----

  predicate Maps(s: State, i: nat, X: seq<string>, Z: seq<string>)
  {
    i < |s.scripts| && s.scripts[i].oldToNew == OldToNewOf(X, Z) && s.scripts[i].newToOld == NewToOldOf(X, Z)
  }

  /**
   A matched line of the text carries a breakpoint just if its old line is in the set; other lines are the editor's
   own.
   */
  ghost predicate Shows(X: seq<string>, Z: seq<string>, bps: seq<nat>, backend: set<nat>)
  {
    && NoDuplicates(bps)
    && forall y: nat :: y < |Z| && NewToOldOf(X, Z)[y] != INVALID_LINE ==>
         (y in bps <==> NewToOldOf(X, Z)[y] in backend)
  }

  /** Lines of the script. */
  predicate AllOld(X: seq<string>, lines: seq<nat>)
  {
    forall l :: l in lines ==> l < |X|
  }

  /**
   The file at k shows what the back end had set, and the answers under way lead from there to what it has set now.
   */
  ghost predicate Mirrored(w: World, i: nat, k: nat, X: seq<string>, Z: seq<string>)
  {
    && Inv(w.s) && i < w.s.handled && k < |w.s.files| && w.s.files[k].scriptIndex == i
    && w.served <= |w.s.commands| && AllOld(X, TogglesOf(w.s.commands[w.served..], i))
    && AllOld(X, LinesOf(UnderWay(w, i)))
    && UnderWay(w, i) == Echoes(w.shown, LinesOf(UnderWay(w, i)))
    && w.backend == BackendAfter(w.shown, LinesOf(UnderWay(w, i)))
    && Shows(X, Z, w.s.files[k].breakpoints, w.shown)
  }

  /** And the script's maps are still those of its diff with Y, or already those of its diff with Z. */
  ghost predicate WorldInv(w: World, i: nat, k: nat, X: seq<string>, Y: seq<string>, Z: seq<string>)
  {
    (Maps(w.s, i, X, Y) && Mirrored(w, i, k, X, Y)) || (Maps(w.s, i, X, Z) && Mirrored(w, i, k, X, Z))
  }

  /** Nothing is edited: the step spares the file, or toggles a line of it. */
  predicate EditsNothing(s: State, step: Step, i: nat)
    requires Enabled(s, step)
  {
    Spares(s, step, i) || (step.Press? && s.files[step.k].scriptIndex == i)
  }

  /** Nothing is edited, and what the step diffs for the script gives the maps of the text. */
  predicate LeavesText(s: State, step: Step, i: nat, X: seq<string>, Z: seq<string>)
    requires Enabled(s, step)
  {
    EditsNothing(s, step, i) && (i in DiffsOf(step) ==> HasMaps(DiffsOf(step)[i], X, Z))
  }

  /** The diffs that the step makes. */
  function DiffsOf(step: Step): map<int, Script>
  {
    match step
    case Handle(diffs) => diffs
    case Press(_, _, _, diffs) => diffs
    case Look(i, script) => map[i := script]
    case _ => map[]
  }

  predicate HasMaps(script: Script, X: seq<string>, Z: seq<string>)
  {
    script.oldToNew == OldToNewOf(X, Z) && script.newToOld == NewToOldOf(X, Z)
  }

  // ----- Lists of answers -----

  lemma {:induction false} EchoesOfConcat(a: seq<Event>, b: seq<Event>, i: nat)
    ensures EchoesOf(a + b, i) == EchoesOf(a, i) + EchoesOf(b, i)
  {
    if a == [] {
      assert a + b == b;
    } else {
      assert (a + b)[1..] == a[1..] + b;
      EchoesOfConcat(a[1..], b, i);
    }
  }

  lemma {:induction false} TogglesOfConcat(a: seq<Command>, b: seq<Command>, i: nat)
    ensures TogglesOf(a + b, i) == TogglesOf(a, i) + TogglesOf(b, i)
  {
    if b == [] {
      assert a + b == a;
    } else {
      assert (a + b)[..|a + b| - 1] == a + b[..|b| - 1];
      TogglesOfConcat(a, b[..|b| - 1], i);
    }
  }

  lemma {:induction false} EchoesAppend(backend: set<nat>, lines: seq<nat>, l: nat)
    ensures Echoes(backend, lines + [l]) == Echoes(backend, lines) + [Echo(l, l !in BackendAfter(backend, lines))]
    ensures BackendAfter(backend, lines + [l]) == Flipped(BackendAfter(backend, lines), l)
    decreases |lines|
  {
    if lines == [] {
      assert [] + [l] == [l] && [l][1..] == [];
    } else {
      assert (lines + [l])[1..] == lines[1..] + [l];
      EchoesAppend(Flipped(backend, lines[0]), lines[1..], l);
    }
  }

  // ----- The back end takes a command -----

  lemma {:induction false} AllOldConcat(X: seq<string>, a: seq<nat>, b: seq<nat>)
    ensures AllOld(X, a + b) <==> AllOld(X, a) && AllOld(X, b)
  {
    var all := a + b;
    assert forall l :: l in all <==> l in a || l in b;
  }

  /** What is unserved before the next command is taken. */
  lemma {:induction false} UnservedFirst(cs: seq<Command>, served: nat, i: nat)
    requires served < |cs|
    ensures TogglesOf(cs[served..], i) ==
            (if cs[served].Toggle? && cs[served].scriptIndex == i then [cs[served].line] else []) +
            TogglesOf(cs[served + 1..], i)
  {
    var c, rest := cs[served], cs[served + 1..];
    assert cs[served..] == [c] + rest;
    TogglesOfConcat([c], rest, i);
    assert [c][..0] == [];
  }

  lemma {:induction false} ServeKeepsMirror(w: World, i: nat, k: nat, X: seq<string>, Z: seq<string>)
    requires Mirrored(w, i, k, X, Z) && w.served < |w.s.commands|
    ensures Mirrored(Served(w, i), i, k, X, Z)
  {
    var c, rest := w.s.commands[w.served], TogglesOf(w.s.commands[w.served + 1..], i);
    UnservedFirst(w.s.commands, w.served, i);
    AllOldConcat(X, if c.Toggle? && c.scriptIndex == i then [c.line] else [], rest);
    if c.Toggle? && c.scriptIndex == i {
      ServedAnswer(w, i, X, c.line);
    }
  }

  lemma {:induction false} ServedAnswer(w: World, i: nat, X: seq<string>, l: nat)
    requires w.served < |w.s.commands| && w.s.commands[w.served].Toggle?
    requires w.s.commands[w.served].scriptIndex == i && w.s.commands[w.served].line == l
    requires AllOld(X, [l]) && AllOld(X, LinesOf(UnderWay(w, i)))
    requires UnderWay(w, i) == Echoes(w.shown, LinesOf(UnderWay(w, i)))
    requires w.backend == BackendAfter(w.shown, LinesOf(UnderWay(w, i)))
    ensures var w' := Served(w, i);
            && AllOld(X, LinesOf(UnderWay(w', i)))
            && UnderWay(w', i) == Echoes(w'.shown, LinesOf(UnderWay(w', i)))
            && w'.backend == BackendAfter(w'.shown, LinesOf(UnderWay(w', i)))
  {
    assert UnderWay(Served(w, i), i) == UnderWay(w, i) + [Echo(l, l !in w.backend)];
    LastAnswer(w.shown, UnderWay(w, i), l);
    AllOldConcat(X, LinesOf(UnderWay(w, i)), [l]);
  }

  lemma {:induction false} LastAnswer(shown: set<nat>, answers: seq<Echo>, l: nat)
    requires answers == Echoes(shown, LinesOf(answers))
    ensures var e := Echo(l, l !in BackendAfter(shown, LinesOf(answers)));
            && LinesOf(answers + [e]) == LinesOf(answers) + [l]
            && answers + [e] == Echoes(shown, LinesOf(answers + [e]))
            && BackendAfter(shown, LinesOf(answers + [e])) == Flipped(BackendAfter(shown, LinesOf(answers)), l)
  {
    var e := Echo(l, l !in BackendAfter(shown, LinesOf(answers)));
    assert LinesOf(answers + [e]) == LinesOf(answers) + [l];
    EchoesAppend(shown, LinesOf(answers), l);
  }

  // ----- A step of the protocol, part by part -----

  /** Handling an answer takes the first one off, reading one puts it behind those that were read. */
  lemma {:induction false} EchoesAfter(s: State, t: Step, i: nat)
    requires Inv(s) && Enabled(s, t)
    ensures var before, after := EchoesOf(Pending(s), i), EchoesOf(Pending(Next(s, t)), i);
            if IsEcho(s, t, i) then before == [Echo(s.queue[0].line, s.queue[0].isSet)] + after
            else after == before + if IsAnswer(t, i) then [Echo(t.message.line, t.message.isSet)] else []
  {
    if t.Handle? {
      EchoesAfterHandle(s, t.diffs, i);
    } else if t.Read? {
      PendingAfterRead(s, t.message, i);
    } else if t.CloseChannel? {
      assert Pending(Next(s, t)) == Pending(s) + [SessionEnd];
      EchoesOfConcat(Pending(s), [SessionEnd], i);
    } else {
      PendingKept(s, t);
    }
  }

  lemma {:induction false} EchoesAfterHandle(s: State, diffs: map<int, Script>, i: nat)
    requires Inv(s) && CanHandle(s)
    ensures var before, after := EchoesOf(Pending(s), i), EchoesOf(Pending(HandleNext(s, diffs)), i);
            before == (if IsEcho(s, Handle(diffs), i) then [Echo(s.queue[0].line, s.queue[0].isSet)] else []) + after
  {
    HeadIsKnown(s);
    PendingAfterHandle(s, diffs);
  }

  lemma {:induction false} PendingKept(s: State, t: Step)
    requires Inv(s) && Enabled(s, t) && !t.Handle? && !t.Read? && !t.CloseChannel?
    ensures Pending(Next(s, t)) == Pending(s)
  {
  }

  /** So no step but the handling of an answer changes the answers under way. */
  lemma {:induction false} UnderWayAfter(w: World, t: Step, i: nat)
    requires Inv(w.s) && CanStep(w, Take(t), i) && i < w.s.handled
    ensures var w' := StepWorld(w, Take(t), i);
            if IsEcho(w.s, t, i)
            then UnderWay(w, i) == [Echo(w.s.queue[0].line, w.s.queue[0].isSet)] + UnderWay(w', i)
            else UnderWay(w', i) == UnderWay(w, i)
  {
    EchoesAfter(w.s, t, i);
    var before, after := EchoesOf(Pending(w.s), i), EchoesOf(Pending(Next(w.s, t)), i);
    if IsEcho(w.s, t, i) {
      var e := Echo(w.s.queue[0].line, w.s.queue[0].isSet);
      Regrouped([e], after, w.channel);
    } else if IsAnswer(t, i) {
      FirstAndRest(w.channel);
      Regrouped(before, [w.channel[0]], w.channel[1..]);
    }
  }

  lemma {:induction false} PendingAfterHandle(s: State, diffs: map<int, Script>)
    requires Inv(s) && CanHandle(s)
    ensures Pending(HandleNext(s, diffs)) == Pending(s)[1..] && Pending(s) == [s.queue[0]] + Pending(s)[1..]
  {
    PendingTail(s);
  }

  lemma {:induction false} PendingAfterRead(s: State, m: Message, i: nat)
    requires s.thread == Reading
    ensures var answers := if m.SetBreakpointMessage? && m.scriptIndex == i then [Echo(m.line, m.isSet)] else [];
            EchoesOf(Pending(ReadMessage(s, m)), i) == EchoesOf(Pending(s), i) + answers
  {
    var event := EventOf(m, |s.scripts|);
    if event.Some? {
      assert Pending(ReadMessage(s, m)) == Pending(s) + [event.value];
      EchoesOfConcat(Pending(s), [event.value], i);
      assert [event.value][1..] == [];
    } else {
      assert Pending(ReadMessage(s, m)) == Pending(s);
    }
  }

  /** After such a step the script has the maps it had, or those that the step's diff gives. */
  lemma {:induction false} MapsAfter(s: State, t: Step, i: nat, X: seq<string>, Y: seq<string>, Z: seq<string>)
    requires Inv(s) && Enabled(s, t) && i < s.handled && Maps(s, i, X, Y) && LeavesText(s, t, i, X, Z)
    ensures Maps(Next(s, t), i, X, Y) || Maps(Next(s, t), i, X, Z)
  {
    ScriptsCover(s);
    StepRediffs(s, t, i);
  }

  lemma {:induction false} StepRediffs(s: State, t: Step, i: nat)
    requires Inv(s) && Enabled(s, t) && i < s.handled && i < |s.scripts| && EditsNothing(s, t, i)
    ensures i < |Next(s, t).scripts|
    ensures Next(s, t).scripts[i] in [s.scripts[i], Rediffed(s.scripts[i], DiffsOf(t), i)]
  {
    if t.Handle? {
      HandleRediffs(s, t.diffs, i);
    }
  }

  lemma {:induction false} HandleRediffs(s: State, diffs: map<int, Script>, i: nat)
    requires Inv(s) && CanHandle(s) && !s.queue[0].SessionEnd? && i < s.handled && i < |s.scripts|
    ensures i < |HandleNext(s, diffs).scripts|
    ensures HandleNext(s, diffs).scripts[i] in [s.scripts[i], Rediffed(s.scripts[i], diffs, i)]
  {
    HeadIsKnown(s);
    if s.queue[0].Break? {
      LookedAtMaps(s.scripts, s.queue[0].frames, diffs, |s.queue[0].frames|, i);
    }
  }

  lemma {:induction false} LookedAtMaps(scripts: seq<Script>, frames: seq<int>, diffs: map<int, Script>, n: nat,
                                        i: nat)
    requires n <= |frames| && i < |scripts|
    ensures Looked(scripts, frames, diffs, n)[i] in [scripts[i], Rediffed(scripts[i], diffs, i)]
  {
    if n > 0 {
      LookedAtMaps(scripts, frames, diffs, n - 1, i);
    }
  }

  /** The step loads the script, or toggles a line of its file. */
  predicate IsAbout(s: State, t: Step, i: nat)
    requires Enabled(s, t)
  {
    || (t.Handle? && s.queue[0].LoadScript? && s.queue[0].scriptIndex == i)
    || (t.Press? && s.files[t.k].scriptIndex == i)
  }

  /** Within a session commands are added only, and toggles for the script only by such a step. */
  lemma {:induction false} CommandsGrow(s: State, t: Step, i: nat)
    requires Inv(s) && Enabled(s, t) && !t.Start?
    ensures var cs := Next(s, t).commands;
            && |s.commands| <= |cs| && s.commands == cs[..|s.commands|]
            && (!IsAbout(s, t, i) ==> TogglesOf(cs[|s.commands|..], i) == [])
  {
    if t.Handle? {
      HeadIsKnown(s);
      if s.queue[0].LoadScript? {
        LoadGrows(s, t.diffs, i);
      }
    } else if t.Press? {
      PressGrows(s, t, i);
    }
  }

  lemma {:induction false} PressGrows(s: State, t: Step, i: nat)
    requires Enabled(s, t) && t.Press?
    ensures var cs := Next(s, t).commands;
            && |s.commands| <= |cs| && s.commands == cs[..|s.commands|]
            && (s.files[t.k].scriptIndex != i ==> TogglesOf(cs[|s.commands|..], i) == [])
  {
    var cs, n := Next(s, t).commands, |s.commands|;
    if |cs| > n {
      assert cs[n..] == [cs[n]] && [cs[n]][..0] == [];
    } else {
      assert cs[n..] == [];
    }
  }

  lemma {:induction false} LoadGrows(s: State, diffs: map<int, Script>, i: nat)
    requires Inv(s) && CanHandle(s) && s.queue[0].LoadScript?
    ensures var cs := HandleNext(s, diffs).commands;
            && |s.commands| <= |cs| && s.commands == cs[..|s.commands|]
            && (s.queue[0].scriptIndex != i ==> TogglesOf(cs[|s.commands|..], i) == [])
  {
    HeadIsKnown(s);
    var lines := LoadCommands(s, diffs);
    var vm, j := s.queue[0].vm, s.queue[0].scriptIndex;
    var added := Toggles(vm, j, lines) + [LoadDone(vm)];
    assert (s.commands + added)[|s.commands|..] == added;
    if j != i {
      NoToggles(added, i);
    }
  }

  /** The commands that a step adds toggle lines of the script, as far as it is concerned. */
  lemma {:induction false} StepAddsCommands(s: State, t: Step, i: nat, X: seq<string>, Z: seq<string>)
    requires Inv(s) && Enabled(s, t) && i < s.handled && EditsNothing(s, t, i)
    requires Maps(Next(s, t), i, X, Z) && WithinLimits(X, Z)
    ensures var cs := Next(s, t).commands;
            && |s.commands| <= |cs| && s.commands == cs[..|s.commands|]
            && AllOld(X, TogglesOf(cs[|s.commands|..], i))
  {
    CommandsGrow(s, t, i);
    if t.Handle? {
      HeadIsKnown(s);
    } else if t.Press? && s.files[t.k].scriptIndex == i {
      PressTogglesOld(s, t, i, X, Z);
    }
  }

  lemma {:induction false} LoadCommands(s: State, diffs: map<int, Script>) returns (lines: seq<nat>)
    requires CanHandle(s) && s.queue[0].LoadScript? && 0 <= s.queue[0].scriptIndex < |s.scripts|
    ensures var vm, j := s.queue[0].vm, s.queue[0].scriptIndex;
            HandleNext(s, diffs).commands == s.commands + (Toggles(vm, j, lines) + [LoadDone(vm)])
  {
    var s', i := s.(queue := s.queue[1..]), s.queue[0].scriptIndex;
    var k := FileToBind(s', i);
    var bps := if k < |s.files| then s.files[k].breakpoints else [];
    lines := Sent(bps, HandleNext(s, diffs).scripts[i].newToOld);
  }

  lemma {:induction false} NoToggles(cs: seq<Command>, i: nat)
    requires forall k :: 0 <= k < |cs| ==> !(cs[k].Toggle? && cs[k].scriptIndex == i)
    ensures TogglesOf(cs, i) == []
  {
    if cs != [] {
      NoToggles(cs[..|cs| - 1], i);
    }
  }

  lemma {:induction false} PressTogglesOld(s: State, t: Step, i: nat, X: seq<string>, Z: seq<string>)
    requires Enabled(s, t) && t.Press? && s.files[t.k].scriptIndex == i
    requires Maps(Next(s, t), i, X, Z) && WithinLimits(X, Z)
    ensures |s.commands| <= |Next(s, t).commands| && AllOld(X, TogglesOf(Next(s, t).commands[|s.commands|..], i))
  {
    var cs, n := Next(s, t).commands, |s.commands|;
    if |cs| > n {
      assert cs[n..] == [cs[n]] && [cs[n]][..0] == [];
      LookupIsOld(X, Z, t.line);
    } else {
      assert cs[n..] == [];
    }
  }

  lemma {:induction false} LookupIsOld(X: seq<string>, Z: seq<string>, line: nat)
    requires WithinLimits(X, Z) && Lookup(NewToOldOf(X, Z), line) != INVALID_LINE
    ensures Lookup(NewToOldOf(X, Z), line) < |X|
  {
    LookupRoundTrip(X, Z, if line < |Z| then line else |Z| - 1);
  }

  // ----- The file's list -----

  /** The echo of an old line that the text does not match sets or clears line 65535, which is no line of the text. */
  lemma {:induction false} EchoShows(X: seq<string>, Z: seq<string>, bps: seq<nat>, shown: set<nat>, l: nat,
                                     isSet: bool)
    requires WithinLimits(X, Z) && Shows(X, Z, bps, shown) && l < |X| && isSet == (l !in shown)
    ensures Shows(X, Z, WithBreakpoint(bps, Lookup(OldToNewOf(X, Z), l), isSet), Flipped(shown, l))
  {
    var o, n := OldToNewOf(X, Z), NewToOldOf(X, Z);
    forall y: nat | y < |Z|
      ensures n[y] == l <==> o[l] == y
    {
      MapsAreInverse(X, Z, l, y);
    }
    ToggledMembers(bps, o[l]);
  }

  /** A line with no old line is toggled in the editor alone, which no matched line notices. */
  lemma {:induction false} PressShows(s: State, t: Step, i: nat, X: seq<string>, Z: seq<string>, shown: set<nat>)
    requires Enabled(s, t) && t.Press? && s.files[t.k].scriptIndex == i
    requires Maps(Next(s, t), i, X, Z) && Shows(X, Z, s.files[t.k].breakpoints, shown)
    ensures |Next(s, t).files| == |s.files| && Next(s, t).files[t.k].scriptIndex == i
    ensures Shows(X, Z, Next(s, t).files[t.k].breakpoints, shown)
  {
    ToggledMembers(s.files[t.k].breakpoints, t.line);
  }

  lemma {:induction false} FirstAnswer(shown: set<nat>, e: Echo, rest: seq<Echo>)
    requires [e] + rest == Echoes(shown, LinesOf([e] + rest))
    ensures e.isSet == (e.line !in shown) && rest == Echoes(Flipped(shown, e.line), LinesOf(rest))
    ensures BackendAfter(shown, LinesOf([e] + rest)) == BackendAfter(Flipped(shown, e.line), LinesOf(rest))
    ensures LinesOf([e] + rest) == [e.line] + LinesOf(rest)
  {
    var lines := LinesOf([e] + rest);
    assert lines[1..] == LinesOf(rest) && lines[0] == e.line;
    assert ([e] + rest)[1..] == rest && ([e] + rest)[0] == e;
  }

  /** Where the file is after a step, and that it still shows what the back end had set. */
  lemma {:induction false} StepShows(w: World, t: Step, i: nat, k: nat, X: seq<string>, Z: seq<string>)
    returns (k': nat)
    requires WithinLimits(X, Z) && Mirrored(w, i, k, X, Z) && CanStep(w, Take(t), i)
    requires EditsNothing(w.s, t, i) && Maps(Next(w.s, t), i, X, Z)
    ensures var w' := StepWorld(w, Take(t), i);
            && i < w'.s.handled && k' < |w'.s.files| && w'.s.files[k'].scriptIndex == i
            && Shows(X, Z, w'.s.files[k'].breakpoints, w'.shown)
  {
    if Spares(w.s, t, i) {
      StepKeepsFile(w.s, t, i, k);
      k' := PlaceAfter(w.s, t, k);
      if IsEcho(w.s, t, i) {
        EchoIsOld(w, t, i, k, X, Z);
        EchoShows(X, Z, w.s.files[k].breakpoints, w.shown, w.s.queue[0].line, w.s.queue[0].isSet);
      }
    } else {
      k' := t.k;
      FoundAt(w.s.files, w.s.handled, w.s.lost, k, i);
      FoundAt(w.s.files, w.s.handled, w.s.lost, t.k, i);
      PressShows(w.s, t, i, X, Z, w.shown);
    }
  }

  lemma {:induction false} EchoIsOld(w: World, t: Step, i: nat, k: nat, X: seq<string>, Z: seq<string>)
    requires Mirrored(w, i, k, X, Z) && CanStep(w, Take(t), i) && IsEcho(w.s, t, i)
    ensures w.s.queue[0].line < |X| && w.s.queue[0].isSet == (w.s.queue[0].line !in w.shown)
  {
    var e, w' := Echo(w.s.queue[0].line, w.s.queue[0].isSet), StepWorld(w, Take(t), i);
    UnderWayAfter(w, t, i);
    FirstAnswer(w.shown, e, UnderWay(w', i));
    assert e.line in LinesOf(UnderWay(w, i));
  }

  lemma {:induction false} TakeKeepsAnswers(w: World, t: Step, i: nat, k: nat, X: seq<string>, Z: seq<string>)
    requires Mirrored(w, i, k, X, Z) && CanStep(w, Take(t), i)
    ensures var w' := StepWorld(w, Take(t), i);
            && AllOld(X, LinesOf(UnderWay(w', i)))
            && UnderWay(w', i) == Echoes(w'.shown, LinesOf(UnderWay(w', i)))
            && w'.backend == BackendAfter(w'.shown, LinesOf(UnderWay(w', i)))
  {
    UnderWayAfter(w, t, i);
    if IsEcho(w.s, t, i) {
      var e, rest := Echo(w.s.queue[0].line, w.s.queue[0].isSet), UnderWay(StepWorld(w, Take(t), i), i);
      FirstAnswer(w.shown, e, rest);
      var lines, all := LinesOf(rest), [e.line] + LinesOf(rest);
      assert forall l :: l in lines ==> l in all;
    }
  }

  lemma {:induction false} TakeKeepsToggles(w: World, t: Step, i: nat, k: nat, X: seq<string>, Z: seq<string>)
    requires WithinLimits(X, Z) && Mirrored(w, i, k, X, Z) && CanStep(w, Take(t), i)
    requires EditsNothing(w.s, t, i) && Maps(Next(w.s, t), i, X, Z)
    ensures w.served <= |Next(w.s, t).commands|
    ensures AllOld(X, TogglesOf(Next(w.s, t).commands[w.served..], i))
  {
    var cs := Next(w.s, t).commands;
    StepAddsCommands(w.s, t, i, X, Z);
    UnservedGrow(w.s.commands, cs, w.served, i);
  }

  lemma {:induction false} UnservedGrow(before: seq<Command>, cs: seq<Command>, served: nat, i: nat)
    requires served <= |before| <= |cs| && before == cs[..|before|]
    ensures TogglesOf(cs[served..], i) == TogglesOf(before[served..], i) + TogglesOf(cs[|before|..], i)
  {
    assert cs[served..] == before[served..] + cs[|before|..];
    TogglesOfConcat(before[served..], cs[|before|..], i);
  }

  /** A step of either thread or of the user that edits nothing, after which the script has the maps of Z. */
  lemma {:induction false} TakeKeepsMirror(w: World, t: Step, i: nat, k: nat, X: seq<string>, Z: seq<string>)
    returns (k': nat)
    requires WithinLimits(X, Z) && Mirrored(w, i, k, X, Z) && CanStep(w, Take(t), i)
    requires EditsNothing(w.s, t, i) && Maps(Next(w.s, t), i, X, Z)
    ensures Mirrored(StepWorld(w, Take(t), i), i, k', X, Z)
  {
    k' := StepShows(w, t, i, k, X, Z);
    StepKeepsInv(w.s, t);
    TakeKeepsToggles(w, t, i, k, X, Z);
    TakeKeepsAnswers(w, t, i, k, X, Z);
  }

  // ----- From the map of the file on disk to that of the text in the editor -----

  /** Every matched line of Z has the same old line as in Y. */
  predicate KeepsPlaces(X: seq<string>, Y: seq<string>, Z: seq<string>)
    requires WithinLimits(X, Z)
  {
    forall y: nat :: y < |Z| && NewToOldOf(X, Z)[y] != INVALID_LINE ==> y < |Y| && HasSameOldLine(X, Y, Z, y)
  }

  /** A list that shows the back end through the one map shows it through the other exactly then. */
  lemma {:induction false} SwitchKeepsMirrorIff(X: seq<string>, Y: seq<string>, Z: seq<string>)
    requires WithinLimits(X, Y) && WithinLimits(X, Z)
    ensures KeepsPlaces(X, Y, Z) <==> forall bps, shown :: Shows(X, Y, bps, shown) ==> Shows(X, Z, bps, shown)
  {
    if !KeepsPlaces(X, Y, Z) {
      var y: nat :| y < |Z| && NewToOldOf(X, Z)[y] != INVALID_LINE && !(y < |Y| && HasSameOldLine(X, Y, Z, y));
      SwitchCanLose(X, Y, Z, y);
    }
  }

  /** If not, the breakpoint on one line is enough to see it. */
  lemma {:induction false} SwitchCanLose(X: seq<string>, Y: seq<string>, Z: seq<string>, y: nat)
    requires WithinLimits(X, Y) && WithinLimits(X, Z)
    requires y < |Z| && NewToOldOf(X, Z)[y] != INVALID_LINE && !(y < |Y| && HasSameOldLine(X, Y, Z, y))
    ensures exists bps, shown :: Shows(X, Y, bps, shown) && !Shows(X, Z, bps, shown)
  {
    var l := NewToOldOf(X, Z)[y];
    LookupIsOld(X, Z, y);
    var bps := ShowingOne(X, Y, l);
    assert y !in bps && l in {l};
  }

  /** The list that shows just old line l. */
  lemma {:induction false} ShowingOne(X: seq<string>, Y: seq<string>, l: nat) returns (bps: seq<nat>)
    requires WithinLimits(X, Y) && l < |X|
    ensures Shows(X, Y, bps, {l})
    ensures forall y :: y in bps ==> y < |Y| && NewToOldOf(X, Y)[y] == l
  {
    var place := OldToNewOf(X, Y)[l];
    bps := if place == INVALID_LINE then [] else [place];
    forall y: nat | y < |Y|
      ensures NewToOldOf(X, Y)[y] == l <==> place == y
    {
      MapsAreInverse(X, Y, l, y);
    }
    if place != INVALID_LINE {
      MatchedLinesAreEqual(X, Y, l);
    }
  }

  // ----- Runs -----

  predicate CanRun(w: World, steps: seq<WorldStep>, i: nat)
    decreases |steps|
  {
    steps != [] ==> CanStep(w, steps[0], i) && CanRun(StepWorld(w, steps[0], i), steps[1..], i)
  }

  function RunWorld(w: World, steps: seq<WorldStep>, i: nat): World
    requires CanRun(w, steps, i)
    decreases |steps|
  {
    if steps == [] then w else RunWorld(StepWorld(w, steps[0], i), steps[1..], i)
  }

  /** Nothing is edited on the way, and every diff of the script is one with the text Z. */
  predicate AllLeaveText(w: World, steps: seq<WorldStep>, i: nat, X: seq<string>, Z: seq<string>)
    requires CanRun(w, steps, i)
    decreases |steps|
  {
    steps != [] ==>
      && (steps[0].Take? ==> LeavesText(w.s, steps[0].step, i, X, Z))
      && AllLeaveText(StepWorld(w, steps[0], i), steps[1..], i, X, Z)
  }

  /**
   Every step of the back end, of either thread and of the user that edits nothing keeps the invariant, also the one
   that makes the diff with the editor's text.
   */
  lemma {:induction false} WorldStepKeepsInv(w: World, step: WorldStep, i: nat, k: nat, X: seq<string>, Y: seq<string>,
                                             Z: seq<string>) returns (k': nat)
    requires WithinLimits(X, Y) && WithinLimits(X, Z) && KeepsPlaces(X, Y, Z)
    requires WorldInv(w, i, k, X, Y, Z) && CanStep(w, step, i)
    requires step.Take? ==> LeavesText(w.s, step.step, i, X, Z)
    ensures WorldInv(StepWorld(w, step, i), i, k', X, Y, Z)
  {
    var now := if Maps(w.s, i, X, Y) && Mirrored(w, i, k, X, Y) then Y else Z;
    if step.Serve? {
      ServeKeepsMirror(w, i, k, X, now);
      k' := k;
    } else {
      MapsAfter(w.s, step.step, i, X, now, Z);
      SwitchKeepsMirrorIff(X, Y, Z);
      var after := if Maps(Next(w.s, step.step), i, X, now) then now else Z;
      k' := TakeKeepsMirror(w, step.step, i, k, X, after);
    }
  }

  lemma {:induction false} WorldRunKeepsInv(w: World, steps: seq<WorldStep>, i: nat, k: nat, X: seq<string>,
                                            Y: seq<string>, Z: seq<string>) returns (k': nat)
    requires WithinLimits(X, Y) && WithinLimits(X, Z) && KeepsPlaces(X, Y, Z)
    requires WorldInv(w, i, k, X, Y, Z) && CanRun(w, steps, i) && AllLeaveText(w, steps, i, X, Z)
    ensures WorldInv(RunWorld(w, steps, i), i, k', X, Y, Z)
    decreases |steps|
  {
    k' := k;
    if steps != [] {
      var k1 := WorldStepKeepsInv(w, steps[0], i, k, X, Y, Z);
      k' := WorldRunKeepsInv(StepWorld(w, steps[0], i), steps[1..], i, k1, X, Y, Z);
    }
  }

  /**
   Over every run without edits, whatever the user toggles on the way and wherever the diff with the editor's text is
   made: once no answer is under way, each matched line carries a breakpoint in the editor if and only if its old line
   is set in the back end.
   */
  lemma {:induction false} EditorMirrorsBackend(w: World, steps: seq<WorldStep>, i: nat, k: nat, X: seq<string>,
                                                Y: seq<string>, Z: seq<string>, y: nat)
    requires WithinLimits(X, Y) && WithinLimits(X, Z) && KeepsPlaces(X, Y, Z)
    requires WorldInv(w, i, k, X, Y, Z) && CanRun(w, steps, i) && AllLeaveText(w, steps, i, X, Z)
    requires UnderWay(RunWorld(w, steps, i), i) == [] && y < |Z| && NewToOldOf(X, Z)[y] != INVALID_LINE
    ensures var w' := RunWorld(w, steps, i);
            y in BreakpointsOf(w'.s.files, i) <==> NewToOldOf(X, Z)[y] in w'.backend
  {
    var k' := WorldRunKeepsInv(w, steps, i, k, X, Y, Z);
    var w' := RunWorld(w, steps, i);
    SwitchKeepsMirrorIff(X, Y, Z);
    FoundAt(w'.s.files, w'.s.handled, w'.s.lost, k', i);
  }

  // ----- From the start of the session to the loading of the script -----

  /** In a session that has not loaded the script yet, nothing of it is set or on its way. */
  ghost predicate Quiet(w: World, i: nat)
  {
    && Inv(w.s) && w.served <= |w.s.commands|
    && (w.s.phase != Inactive && w.s.handled <= i ==> Untouched(w, i))
  }

  predicate Untouched(w: World, i: nat)
    requires w.served <= |w.s.commands|
  {
    && TogglesOf(w.s.commands[w.served..], i) == [] && EchoesOf(Pending(w.s), i) == []
    && w.channel == [] && w.backend == {} && w.shown == {}
  }

  lemma {:induction false} ServeKeepsQuiet(w: World, i: nat)
    requires Quiet(w, i) && w.served < |w.s.commands|
    ensures Quiet(Served(w, i), i)
  {
    UnservedFirst(w.s.commands, w.served, i);
  }

  lemma {:induction false} TakeKeepsQuiet(w: World, t: Step, i: nat)
    requires Quiet(w, i) && CanStep(w, Take(t), i)
    ensures Quiet(StepWorld(w, Take(t), i), i)
  {
    StepKeepsInv(w.s, t);
    if !t.Start? {
      CommandsGrow(w.s, t, i);
      UnservedGrow(w.s.commands, Next(w.s, t).commands, w.served, i);
      if Next(w.s, t).phase != Inactive && Next(w.s, t).handled <= i {
        StillUnloaded(w.s, t, i);
        EchoesAfter(w.s, t, i);
      }
    }
  }

  lemma {:induction false} StillUnloaded(s: State, t: Step, i: nat)
    requires Inv(s) && Enabled(s, t) && !t.Start? && Next(s, t).phase != Inactive && Next(s, t).handled <= i
    ensures s.phase != Inactive && s.handled <= i && !IsAbout(s, t, i)
  {
    if t.Handle? {
      HeadIsKnown(s);
    }
  }

  /** Over every run, from an idle front end and through any number of sessions. */
  lemma {:induction false} RunKeepsQuiet(w: World, steps: seq<WorldStep>, i: nat)
    requires Quiet(w, i) && CanRun(w, steps, i)
    ensures Quiet(RunWorld(w, steps, i), i)
    decreases |steps|
  {
    if steps != [] {
      if steps[0].Serve? {
        ServeKeepsQuiet(w, i);
      } else {
        TakeKeepsQuiet(w, steps[0].step, i);
      }
      RunKeepsQuiet(StepWorld(w, steps[0], i), steps[1..], i);
    }
  }

  /** Where a script is loaded whose file is found by name, whatever breakpoints that holds, the two sides agree. */
  lemma {:induction false} LoadScriptStartsMirror(w: World, vm: nat, i: nat, diffs: map<int, Script>, X: seq<string>,
                                                  Y: seq<string>, Z: seq<string>)
    requires Quiet(w, i) && CanStep(w, Take(Handle(diffs)), i) && w.s.queue[0] == LoadScript(vm, i)
    requires i < |w.s.scripts|
    requires WithinLimits(X, Y) && FileToBind(w.s, i) < |w.s.files| && i in diffs && HasMaps(diffs[i], X, Y)
    ensures WorldInv(StepWorld(w, Take(Handle(diffs)), i), i, FileToBind(w.s, i), X, Y, Z)
  {
    HeadIsKnown(w.s);
    LoadedWorld(w, vm, i, diffs);
    LoadedMirrors(w.s, vm, i, diffs, w.served, X, Y);
  }

  lemma {:induction false} LoadedWorld(w: World, vm: nat, i: nat, diffs: map<int, Script>)
    requires w.served <= |w.s.commands| && Untouched(w, i)
    requires CanHandle(w.s) && w.s.queue[0] == LoadScript(vm, i)
    ensures StepWorld(w, Take(Handle(diffs)), i) == World(HandleNext(w.s, diffs), w.served, {}, [], {})
  {
  }

  lemma {:induction false} LoadedMirrors(
    s: State, vm: nat, i: nat, diffs: map<int, Script>, served: nat, X: seq<string>, Y: seq<string>)
    requires Inv(s) && CanHandle(s) && s.queue[0] == LoadScript(vm, i) && i < |s.scripts| && WithinLimits(X, Y)
    requires FileToBind(s, i) < |s.files| && i in diffs && HasMaps(diffs[i], X, Y)
    requires served <= |s.commands| && TogglesOf(s.commands[served..], i) == [] && EchoesOf(Pending(s), i) == []
    ensures Maps(HandleNext(s, diffs), i, X, Y)
    ensures Mirrored(World(HandleNext(s, diffs), served, {}, [], {}), i, FileToBind(s, i), X, Y)
  {
    var s' := HandleNext(s, diffs);
    HandleKeepsInv(s, diffs);
    LoadedFile(s, vm, i, diffs, X, Y);
    LoadedToggles(s, vm, i, diffs, served, X, Y);
    EchoesAfter(s, Handle(diffs), i);
    NothingUnderWay(World(s', served, {}, [], {}), i);
  }

  lemma {:induction false} NothingUnderWay(w: World, i: nat)
    requires EchoesOf(Pending(w.s), i) == [] && w.channel == [] && w.backend == w.shown
    ensures UnderWay(w, i) == [] && LinesOf(UnderWay(w, i)) == []
    ensures UnderWay(w, i) == Echoes(w.shown, LinesOf(UnderWay(w, i)))
    ensures w.backend == BackendAfter(w.shown, LinesOf(UnderWay(w, i)))
  {
    assert UnderWay(w, i) == [] && LinesOf(UnderWay(w, i)) == [];
  }

  /**
   The whole of it: any run from an idle front end, the loading of a script with the diff of its file on disk, and any
   run without edits after it, in which the diff with the editor's text is made sooner, later or never.
   */
  lemma {:induction false} EditorMirrorsFromStart(
    start: World, before: seq<WorldStep>, w: World, vm: nat, i: nat, diffs: map<int, Script>, steps: seq<WorldStep>,
    X: seq<string>, Y: seq<string>, Z: seq<string>, y: nat)
    requires Init(start.s) && start.served == 0 && CanRun(start, before, i) && w == RunWorld(start, before, i)
    requires CanStep(w, Take(Handle(diffs)), i) && w.s.queue[0] == LoadScript(vm, i) && i < |w.s.scripts|
    requires FileToBind(w.s, i) < |w.s.files| && i in diffs && HasMaps(diffs[i], X, Y)
    requires WithinLimits(X, Y) && WithinLimits(X, Z) && KeepsPlaces(X, Y, Z)
    requires var loaded := StepWorld(w, Take(Handle(diffs)), i);
             && CanRun(loaded, steps, i) && AllLeaveText(loaded, steps, i, X, Z)
             && UnderWay(RunWorld(loaded, steps, i), i) == []
    requires y < |Z| && NewToOldOf(X, Z)[y] != INVALID_LINE
    ensures var w' := RunWorld(StepWorld(w, Take(Handle(diffs)), i), steps, i);
            y in BreakpointsOf(w'.s.files, i) <==> NewToOldOf(X, Z)[y] in w'.backend
  {
    StartIsQuiet(start, i);
    RunKeepsQuiet(start, before, i);
    LoadScriptStartsMirror(w, vm, i, diffs, X, Y, Z);
    EditorMirrorsBackend(StepWorld(w, Take(Handle(diffs)), i), steps, i, FileToBind(w.s, i), X, Y, Z, y);
  }

  lemma {:induction false} StartIsQuiet(w: World, i: nat)
    requires Init(w.s) && w.served == 0
    ensures Quiet(w, i)
  {
  }

  lemma {:induction false} LoadedFile(s: State, vm: nat, i: nat, diffs: map<int, Script>, X: seq<string>,
                                      Z: seq<string>)
    requires Inv(s) && CanHandle(s) && s.queue[0] == LoadScript(vm, i) && i < |s.scripts|
    requires FileToBind(s, i) < |s.files| && i in diffs && HasMaps(diffs[i], X, Z)
    ensures var s', k := HandleNext(s, diffs), FileToBind(s, i);
            && i < s'.handled && k < |s'.files| && s'.files[k].scriptIndex == i && s'.files[k].breakpoints == []
            && Maps(s', i, X, Z)
            && s'.commands ==
               s.commands + Toggles(vm, i, Sent(s.files[k].breakpoints, NewToOldOf(X, Z))) + [LoadDone(vm)]
  {
    HeadIsKnown(s);
    LoadScriptEffect(s, diffs);
  }

  lemma {:induction false} LoadedToggles(
    s: State, vm: nat, i: nat, diffs: map<int, Script>, served: nat, X: seq<string>, Z: seq<string>)
    requires Inv(s) && CanHandle(s) && s.queue[0] == LoadScript(vm, i) && i < |s.scripts| && WithinLimits(X, Z)
    requires FileToBind(s, i) < |s.files| && i in diffs && HasMaps(diffs[i], X, Z)
    requires served <= |s.commands| && TogglesOf(s.commands[served..], i) == []
    ensures served <= |HandleNext(s, diffs).commands|
    ensures AllOld(X, TogglesOf(HandleNext(s, diffs).commands[served..], i))
  {
    var bps := s.files[FileToBind(s, i)].breakpoints;
    var sent := Sent(bps, NewToOldOf(X, Z));
    LoadedFile(s, vm, i, diffs, X, Z);
    UnservedToggles(s.commands, vm, i, sent, served);
    SentAreOld(X, Z, bps);
  }

  lemma {:induction false} UnservedToggles(before: seq<Command>, vm: nat, i: nat, sent: seq<nat>, served: nat)
    requires served <= |before| && TogglesOf(before[served..], i) == []
    ensures TogglesOf((before + Toggles(vm, i, sent) + [LoadDone(vm)])[served..], i) == sent
  {
    var added := Toggles(vm, i, sent) + [LoadDone(vm)];
    assert (before + Toggles(vm, i, sent) + [LoadDone(vm)])[served..] == before[served..] + added;
    TogglesOfConcat(before[served..], added, i);
    TogglesSent(vm, i, sent);
  }

  lemma {:induction false} SentAreOld(X: seq<string>, Z: seq<string>, bps: seq<nat>)
    requires WithinLimits(X, Z)
    ensures AllOld(X, Sent(bps, NewToOldOf(X, Z)))
  {
    var sent := Sent(bps, NewToOldOf(X, Z));
    forall l | l in sent
      ensures l < |X|
    {
      SentIsMatched(X, Z, bps, l);
    }
  }

  lemma {:induction false} TogglesSent(vm: nat, i: nat, lines: seq<nat>)
    ensures TogglesOf(Toggles(vm, i, lines) + [LoadDone(vm)], i) == lines
  {
    var cs := Toggles(vm, i, lines);
    assert (cs + [LoadDone(vm)])[..|cs|] == cs;
    TogglesAre(vm, i, lines);
  }

  lemma {:induction false} TogglesAre(vm: nat, i: nat, lines: seq<nat>)
    ensures TogglesOf(Toggles(vm, i, lines), i) == lines
  {
    if lines != [] {
      var rest := lines[..|lines| - 1];
      assert Toggles(vm, i, lines)[..|lines| - 1] == Toggles(vm, i, rest);
      TogglesAre(vm, i, rest);
    }
  }
}
