/**
 The background refresh of source control status: two slots for worker threads, of which the first runs and the second
 collects the names asked for in the meantime (MainFrame::UpdateProjectFileStatus, OnThreadExit, FileStatusThread).
 */
module StatusRefresh {
  import opened Options

  /**
   A worker as a value: the names it is to look up, whether its thread has been started and has posted its exit event,
   and, as history, how many requests had been made when it was started and which requests it carries.
   */
  datatype Worker = Worker(names: seq<string>, started: bool, done: bool, startTime: nat, requests: set<nat>)

  /** What a finished worker leaves: the requests it carried, and the names it looked up for them. */
  datatype Answer = Answer(requests: set<nat>, startTime: nat, names: set<string>)

  /** The exit events not yet handled are counted; asked and answers are history: request q asked for asked[q]. */
  datatype State = State(slot0: Option<Worker>, slot1: Option<Worker>, exits: nat,
                         asked: seq<seq<string>>, answers: seq<Answer>)

  const EMPTY := State(None, None, 0, [], [])

  // ----- The names, sorted and without repetitions -----

  /** The order of std::string: a is a proper prefix of b or is smaller where they first differ. */
  predicate Before(a: string, b: string)
  {
    b != "" && (a == "" || a[0] < b[0] || (a[0] == b[0] && Before(a[1..], b[1..])))
  }

  lemma {:induction false} BeforeIsStrictOrder(a: string, b: string, c: string)
    ensures !Before(a, a)
    ensures Before(a, b) && Before(b, c) ==> Before(a, c)
    ensures Before(a, b) || a == b || Before(b, a)
  {
    if a != "" {
      BeforeIsStrictOrder(a[1..], if b == "" then b else b[1..], if c == "" then c else c[1..]);
      assert a == [a[0]] + a[1..];
      assert b != "" ==> b == [b[0]] + b[1..];
    }
  }

  predicate Ascending(names: seq<string>)
  {
    forall i, j :: 0 <= i < j < |names| ==> Before(names[i], names[j])
  }

  function Placed(name: string, names: seq<string>): (r: seq<string>)
    ensures forall x :: x in r <==> x in names || x == name
  {
    if names == [] || Before(name, names[0]) then [name] + names
    else if name == names[0] then names
    else [names[0]] + Placed(name, names[1..])
  }

  /** What std::sort, std::unique and erase leave. */
  function Deduplicated(names: seq<string>): (r: seq<string>)
    ensures forall x :: x in r <==> x in names
  {
    if names == [] then [] else Placed(names[0], Deduplicated(names[1..]))
  }

  lemma {:induction false} PlacedAscends(name: string, names: seq<string>)
    requires Ascending(names)
    ensures Ascending(Placed(name, names))
  {
    var r := Placed(name, names);
    if names != [] {
      var rest := names[1..];
      BeforeIsStrictOrder(name, names[0], name);
      if Before(name, names[0]) {
        forall i | 0 <= i < |names|
          ensures Before(name, names[i])
        {
          BeforeIsStrictOrder(name, names[0], names[i]);
        }
      } else if name != names[0] {
        PlacedAscends(name, rest);
        var tail := Placed(name, rest);
        forall i | 0 <= i < |tail|
          ensures Before(names[0], tail[i])
        {
          assert tail[i] in tail;
        }
        assert r == [names[0]] + tail;
      }
    }
  }

  /** The worker asks once for each name, in ascending order. */
  lemma {:induction false} DeduplicatedAscends(names: seq<string>)
    ensures Ascending(Deduplicated(names))
  {
    if names != [] {
      DeduplicatedAscends(names[1..]);
      PlacedAscends(names[0], Deduplicated(names[1..]));
    }
  }

  lemma {:induction false} AscendingIsUnique(a: seq<string>, b: seq<string>)
    requires Ascending(a) && Ascending(b)
    requires forall x :: x in a <==> x in b
    ensures a == b
  {
    assert b == [] || b[0] in b;
    if a != [] {
      assert a[0] in b;
      var i :| 0 <= i < |b| && b[i] == a[0];
      var j :| 0 <= j < |a| && a[j] == b[0];
      BeforeIsStrictOrder(a[0], b[0], a[0]);
      assert i == 0 && j == 0;
      forall x
        ensures x in a[1..] <==> x in b[1..]
      {
        BeforeIsStrictOrder(a[0], x, a[0]);
        assert x in a[1..] <==> x in a && x != a[0];
        assert x in b[1..] <==> x in b && x != b[0];
      }
      AscendingIsUnique(a[1..], b[1..]);
    }
  }

  /** Two lists of the same names come out alike, in whatever order and however often each was added. */
  lemma {:induction false} DeduplicatedDependsOnSet(a: seq<string>, b: seq<string>)
    ensures Elements(a) == Elements(b) <==> Deduplicated(a) == Deduplicated(b)
  {
    DeduplicatedAscends(a);
    DeduplicatedAscends(b);
    if Elements(a) == Elements(b) {
      forall x
        ensures x in Deduplicated(a) <==> x in Deduplicated(b)
      {
        assert x in Elements(a) <==> x in Elements(b);
      }
      AscendingIsUnique(Deduplicated(a), Deduplicated(b));
    } else {
      var x :| x in Elements(a) <==> x !in Elements(b);
      assert x in Deduplicated(a) <==> x !in Deduplicated(b);
    }
  }

  function Elements(names: seq<string>): set<string>
  {
    set x | x in names
  }

  // ----- The steps, as values -----

  function Started(w: Worker, time: nat): Worker
  {
    w.(started := true, startTime := time)
  }

  /** UpdateProjectFileStatus: the names go to a new worker in the first free slot, or to the one that waits. */
  function Requested(s: State, names: seq<string>): State
  {
    var q := |s.asked|;
    var s' := s.(asked := s.asked + [names]);
    if s.slot0.None? then
      s'.(slot0 := Some(Started(Worker(names, false, false, 0, {q}), q + 1)))
    else if s.slot1.None? then
      s'.(slot1 := Some(Worker(names, false, false, 0, {q})))
    else
      var w := s.slot1.value;
      s'.(slot1 := Some(w.(names := w.names + names, requests := w.requests + {q})))
  }

  /** FileStatusThread::Entry, on the worker's own thread; without a status the names are cleared. */
  function Finished(s: State, ok: bool): State
    requires s.slot0.Some?
  {
    var w := s.slot0.value;
    s.(slot0 := Some(w.(names := if ok then Deduplicated(w.names) else [], done := true)),
       exits := s.exits + 1,
       answers := s.answers + [Answer(w.requests, w.startTime, Elements(w.names))])
  }

  /** OnThreadExit: the waiting worker moves up and is started. */
  function Exited(s: State): State
    requires s.slot0.Some? && s.exits > 0
  {
    s.(slot0 := if s.slot1.Some? then Some(Started(s.slot1.value, |s.asked|)) else None,
       slot1 := None, exits := s.exits - 1)
  }

  datatype Step = Request(names: seq<string>) | Finish(ok: bool) | Exit

  /** A worker's thread runs once it is started; the UI handles an exit event when there is one. */
  predicate Enabled(s: State, step: Step)
  {
    match step
    case Request(_) => true
    case Finish(_) => s.slot0.Some? && s.slot0.value.started && !s.slot0.value.done
    case Exit => s.slot0.Some? && s.exits > 0
  }

  function Next(s: State, step: Step): State
    requires Enabled(s, step)
  {
    match step
    case Request(names) => Requested(s, names)
    case Finish(ok) => Finished(s, ok)
    case Exit => Exited(s)
  }

  // ----- The invariant -----

  /** Every name asked for by a request is among the names. */
  predicate Covers(names: set<string>, requests: set<nat>, asked: seq<seq<string>>)
  {
    forall q :: q in requests ==> q < |asked| && Elements(asked[q]) <= names
  }

  function RequestsOf(slot: Option<Worker>): set<nat>
  {
    if slot.Some? then slot.value.requests else {}
  }

  /**
   The first slot is used first; only its worker is started; at most one exit event is out, and it is that worker's.
   */
  predicate SlotsInOrder(s: State)
  {
    && (s.slot1.Some? ==> s.slot0.Some?)
    && (s.slot0.Some? ==> s.slot0.value.started)
    && (s.slot1.Some? ==> !s.slot1.value.started && !s.slot1.value.done)
    && s.exits == if s.slot0.Some? && s.slot0.value.done then 1 else 0
  }

  /** A started or waiting worker will look up all that its requests asked for; a started one started after them all. */
  ghost predicate SlotsCover(s: State)
  {
    && (s.slot0.Some? ==>
          && (s.slot0.value.done || Covers(Elements(s.slot0.value.names), s.slot0.value.requests, s.asked))
          && forall q :: q in s.slot0.value.requests ==> q < s.slot0.value.startTime <= |s.asked|)
    && (s.slot1.Some? ==> Covers(Elements(s.slot1.value.names), s.slot1.value.requests, s.asked))
  }

  /** a answers request q: its worker was started after q was made and looked up all the names q asked for. */
  predicate Answers(a: Answer, q: nat, asked: seq<seq<string>>)
    requires q < |asked|
  {
    q in a.requests && q < a.startTime && Elements(asked[q]) <= a.names
  }

  predicate IsAnswered(s: State, q: nat)
    requires q < |s.asked|
  {
    exists k :: 0 <= k < |s.answers| && Answers(s.answers[k], q, s.asked)
  }

  /** Every request is answered or carried by the running or the waiting worker. */
  ghost predicate NoneForgotten(s: State)
  {
    forall q: nat :: q < |s.asked| ==>
      IsAnswered(s, q) || q in RequestsOf(s.slot1) || (q in RequestsOf(s.slot0) && !s.slot0.value.done)
  }

  ghost predicate Inv(s: State)
  {
    SlotsInOrder(s) && SlotsCover(s) && NoneForgotten(s)
  }

  lemma {:induction false} RequestKeepsCover(s: State, names: seq<string>)
    requires Inv(s)
    ensures SlotsCover(Requested(s, names))
  {
    var s' := Requested(s, names);
    forall q: nat | q < |s.asked|
      ensures s'.asked[q] == s.asked[q]
    {
    }
  }

  lemma {:induction false} RequestKeepsInv(s: State, names: seq<string>)
    requires Inv(s)
    ensures Inv(Requested(s, names))
  {
    var s' := Requested(s, names);
    RequestKeepsCover(s, names);
    forall q: nat | q < |s'.asked|
      ensures IsAnswered(s', q) || q in RequestsOf(s'.slot1) || (q in RequestsOf(s'.slot0) && !s'.slot0.value.done)
    {
      if q < |s.asked| && IsAnswered(s, q) {
        var k :| 0 <= k < |s.answers| && Answers(s.answers[k], q, s.asked);
        assert Answers(s'.answers[k], q, s'.asked);
      }
    }
  }

  lemma {:induction false} FinishKeepsInv(s: State, ok: bool)
    requires Inv(s) && Enabled(s, Finish(ok))
    ensures Inv(Finished(s, ok))
  {
    var s' := Finished(s, ok);
    forall q: nat | q < |s.asked|
      ensures IsAnswered(s', q) || q in RequestsOf(s'.slot1)
    {
      if IsAnswered(s, q) {
        var k :| 0 <= k < |s.answers| && Answers(s.answers[k], q, s.asked);
        assert Answers(s'.answers[k], q, s'.asked);
      } else if q in RequestsOf(s.slot0) {
        assert Answers(s'.answers[|s.answers|], q, s'.asked);
      }
    }
  }

  lemma {:induction false} ExitKeepsInv(s: State)
    requires Inv(s) && Enabled(s, Exit)
    ensures Inv(Exited(s))
  {
    var s' := Exited(s);
    forall q: nat | q < |s.asked|
      ensures IsAnswered(s', q) || q in RequestsOf(s'.slot0)
    {
      if IsAnswered(s, q) {
        var k :| 0 <= k < |s.answers| && Answers(s.answers[k], q, s.asked);
        assert Answers(s'.answers[k], q, s'.asked);
      }
    }
  }

  lemma {:induction false} StepKeepsInv(s: State, step: Step)
    requires Inv(s) && Enabled(s, step)
    ensures Inv(Next(s, step))
  {
    match step
    case Request(names) => RequestKeepsInv(s, names);
    case Finish(ok) => FinishKeepsInv(s, ok);
    case Exit => ExitKeepsInv(s);
  }

  // ----- Runs -----

  /** Any interleaving of requests, the running worker and the UI's handling of exit events. */
  ghost predicate IsRun(run: seq<State>, steps: seq<Step>)
  {
    && |run| == |steps| + 1
    && forall k {:trigger steps[k]} :: 0 <= k < |steps| ==>
         Enabled(run[k], steps[k]) && run[k + 1] == Next(run[k], steps[k])
  }

  lemma {:induction false} RunKeepsInv(run: seq<State>, steps: seq<Step>, k: nat)
    requires IsRun(run, steps) && Inv(run[0]) && k < |run|
    ensures Inv(run[k])
  {
    if k > 0 {
      RunKeepsInv(run, steps, k - 1);
      assert Enabled(run[k - 1], steps[k - 1]);
      StepKeepsInv(run[k - 1], steps[k - 1]);
    }
  }

  /** In every reachable state: the slots' discipline, and no request is ever lost. */
  lemma {:induction false} RefreshIsSafe(run: seq<State>, steps: seq<Step>, k: nat)
    requires IsRun(run, steps) && run[0] == EMPTY && k < |run|
    ensures SlotsInOrder(run[k]) && run[k].exits <= 1 && NoneForgotten(run[k])
  {
    assert Inv(EMPTY);
    RunKeepsInv(run, steps, k);
  }

  /** An exit event always finds its worker in the first slot. */
  lemma {:induction false} ExitFindsItsWorker(run: seq<State>, steps: seq<Step>, k: nat)
    requires IsRun(run, steps) && run[0] == EMPTY && k < |run| && run[k].exits > 0
    ensures run[k].slot0.Some? && run[k].slot0.value.done
  {
    RefreshIsSafe(run, steps, k);
  }

  /** No name is added to a worker that has been started. */
  lemma {:induction false} StartedWorkersAreClosed(run: seq<State>, steps: seq<Step>, k: nat)
    requires IsRun(run, steps) && run[0] == EMPTY && k < |steps| && steps[k].Request?
    ensures run[k].slot0.Some? ==> run[k + 1].slot0 == run[k].slot0
    ensures run[k].slot0.None? ==> run[k + 1].slot0.value.names == steps[k].names && run[k + 1].slot1.None?
    ensures run[k].slot0.Some? ==>
              && run[k + 1].slot1.Some? && !run[k + 1].slot1.value.started
              && Elements(run[k + 1].slot1.value.names) ==
                 Elements(steps[k].names) + if run[k].slot1.Some? then Elements(run[k].slot1.value.names) else {}
  {
    RefreshIsSafe(run, steps, k);
  }

  // ----- What a worker is asked to look up, and what it hands on -----

  /** A finished worker holds each of its names once, in ascending order, if the status was obtained, and else none. */
  lemma {:induction false} FinishHandsOn(s: State, ok: bool, name: string)
    requires Inv(s) && Enabled(s, Finish(ok))
    ensures var before, after := s.slot0.value.names, Next(s, Finish(ok)).slot0.value.names;
            && (ok ==> (name in after <==> name in before))
            && (ok ==> forall i, j :: 0 <= i < j < |after| ==> Before(after[i], after[j]) && after[i] != after[j])
            && (!ok ==> after == [])
    ensures var s' := Next(s, Finish(ok));
            s'.slot0.value.done && s'.exits == s.exits + 1 && s'.slot1 == s.slot1 && s'.asked == s.asked
  {
    var after := Deduplicated(s.slot0.value.names);
    DeduplicatedAscends(s.slot0.value.names);
    forall i, j | 0 <= i < j < |after|
      ensures after[i] != after[j]
    {
      BeforeIsStrictOrder(after[i], after[i], after[i]);
    }
  }

  // ----- Quiet runs: no new requests -----

  function Occupied(s: State): nat
  {
    (if s.slot0.Some? then 1 else 0) + if s.slot1.Some? then 1 else 0
  }

  /** Two steps are left for each occupied slot, its thread's end and its exit, less one if that end has happened. */
  function StepsLeft(s: State): int
  {
    2 * Occupied(s) - if s.slot0.Some? && s.slot0.value.done then 1 else 0
  }

  function Exits(steps: seq<Step>): nat
  {
    if steps == [] then 0 else (if steps[|steps| - 1].Exit? then 1 else 0) + Exits(steps[..|steps| - 1])
  }

  lemma {:induction false} QuietStep(s: State, step: Step)
    requires Inv(s) && Enabled(s, step) && !step.Request?
    ensures StepsLeft(Next(s, step)) == StepsLeft(s) - 1
    ensures Occupied(Next(s, step)) == Occupied(s) - if step.Exit? then 1 else 0
  {
  }

  /** While a slot is occupied some step other than a request can be taken: the protocol cannot get stuck. */
  lemma {:induction false} NeverStuck(s: State)
    requires Inv(s) && Occupied(s) > 0
    ensures Enabled(s, Finish(true)) || Enabled(s, Exit)
  {
  }

  /**
   Without new requests every exit frees a slot, so at most two exits, and at most four steps, empty both; and a quiet
   run that can go no further has emptied them and answered every request.
   */
  lemma {:induction false} QuietRunDrains(run: seq<State>, steps: seq<Step>)
    requires IsRun(run, steps) && Inv(run[0])
    requires forall k :: 0 <= k < |steps| ==> !steps[k].Request?
    ensures Exits(steps) == Occupied(run[0]) - Occupied(run[|steps|]) <= 2
    ensures |steps| == StepsLeft(run[0]) - StepsLeft(run[|steps|]) <= 4
    ensures run[|steps|].asked == run[0].asked
    ensures !Enabled(run[|steps|], Finish(true)) && !Enabled(run[|steps|], Exit) ==>
              && run[|steps|].slot0.None? && run[|steps|].slot1.None?
              && forall q: nat :: q < |run[0].asked| ==> IsAnswered(run[|steps|], q)
    decreases |steps|
  {
    var n := |steps|;
    RunKeepsInv(run, steps, n);
    if n > 0 {
      var run', steps' := run[..n], steps[..n - 1];
      forall k {:trigger steps'[k]} | 0 <= k < |steps'|
        ensures Enabled(run'[k], steps'[k]) && run'[k + 1] == Next(run'[k], steps'[k])
      {
        assert steps'[k] == steps[k];
      }
      QuietRunDrains(run', steps');
      RunKeepsInv(run, steps, n - 1);
      assert Enabled(run[n - 1], steps[n - 1]);
      QuietStep(run[n - 1], steps[n - 1]);
    }
    if Occupied(run[n]) > 0 {
      NeverStuck(run[n]);
    }
  }

  // ----- The code -----

  class FileStatusThread {
    var fileNames: seq<string>
    var started: bool
    var done: bool
    ghost var startTime: nat
    ghost var requests: set<nat>

    constructor (ghost request: nat)
      ensures Value() == Worker([], false, false, 0, {request})
    {
      fileNames, started, done, startTime, requests := [], false, false, 0, {request};
    }

    ghost function Value(): Worker
      reads this
    {
      Worker(fileNames, started, done, startTime, requests)
    }

    method AddFileName(fileName: string)
      modifies `fileNames
      ensures fileNames == old(fileNames) + [fileName]
    {
      fileNames := fileNames + [fileName];
    }

    /** Create and Run. */
    method Run(ghost time: nat)
      modifies this
      ensures Value() == Started(old(Value()), time)
    {
      started := true;
      startTime := time;
    }
  }

  class StatusRefresher {
    const threads: array<FileStatusThread?>
    const initialized: bool
    var exits: nat
    ghost var asked: seq<seq<string>>
    ghost var answers: seq<Answer>

    constructor (initialized: bool)
      ensures Valid() && View() == EMPTY && fresh(threads) && this.initialized == initialized
    {
      this.initialized := initialized;
      threads := new FileStatusThread?[2](_ => null);
      exits, asked, answers := 0, [], [];
    }

    ghost predicate Valid()
      reads this, threads
    {
      threads.Length == 2 && (threads[0] != null ==> threads[0] != threads[1])
    }

    ghost function Slot(k: nat): Option<Worker>
      requires Valid() && k < 2
      reads this, threads, threads[k]
    {
      if threads[k] == null then None else Some(threads[k].Value())
    }

    ghost function View(): State
      requires Valid()
      reads this, threads, threads[0], threads[1]
    {
      State(Slot(0), Slot(1), exits, asked, answers)
    }

    method UpdateProjectFileStatus(projectFiles: seq<string>)
      requires Valid()
      modifies this, threads, threads[0], threads[1]
      ensures Valid() && View() == if initialized then Requested(old(View()), projectFiles) else old(View())
      ensures fresh({threads[0], threads[1]} - {old(threads[0]), old(threads[1])})
    {
      if !initialized {
        return;
      }
      ghost var q := |asked|;
      asked := asked + [projectFiles];
      var thread: FileStatusThread;
      if threads[0] == null {
        thread := new FileStatusThread(q);
        threads[0] := thread;
      } else if threads[1] == null {
        thread := new FileStatusThread(q);
        threads[1] := thread;
      } else {
        thread := threads[1];
        thread.requests := thread.requests + {q};
      }
      AddFileNames(thread, projectFiles);
      assert [] + projectFiles == projectFiles;
      if thread == threads[0] {
        thread.Run(|asked|);
      }
    }

    method AddFileNames(thread: FileStatusThread, projectFiles: seq<string>)
      modifies thread`fileNames
      ensures thread.fileNames == old(thread.fileNames) + projectFiles
    {
      var i := 0;
      while i < |projectFiles|
        invariant i <= |projectFiles|
        invariant thread.fileNames == old(thread.fileNames) + projectFiles[..i]
      {
        assert projectFiles[..i + 1] == projectFiles[..i] + [projectFiles[i]];
        thread.AddFileName(projectFiles[i]);
        i := i + 1;
      }
      assert projectFiles[..i] == projectFiles;
    }

    /** FileStatusThread::Entry, run by the worker in the first slot; ok is the answer of the source control. */
    method Entry(ok: bool)
      requires Valid() && Enabled(View(), Finish(ok))
      modifies this, threads[0]
      ensures Valid() && View() == Finished(old(View()), ok)
    {
      var thread := threads[0];
      answers := answers + [Answer(thread.requests, thread.startTime, Elements(thread.fileNames))];
      thread.fileNames := Deduplicated(thread.fileNames);
      if !ok {
        thread.fileNames := [];
      }
      thread.done := true;
      exits := exits + 1;
    }

    method OnThreadExit()
      requires Valid() && threads[0] != null && exits > 0
      modifies this, threads, threads[1]
      ensures Valid() && View() == Exited(old(View()))
    {
      threads[0] := threads[1];
      threads[1] := null;
      exits := exits - 1;
      if threads[0] != null {
        threads[0].Run(|asked|);
      }
    }
  }
}
