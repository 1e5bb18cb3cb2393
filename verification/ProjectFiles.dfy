/**
 The project's file table (Project.cpp): files with the index of the script they are bound to, and their breakpoints.
 The table is a vector of references to files that the methods change in place; State and View give it as a value.
 */
module ProjectFiles {
  import opened Breakpoints
  import opened Lists

  /** What an unsigned -1 means in a file's or an event's script index. */
  const NO_SCRIPT: int := -1

  /** A file as a value. The name is the full name, folded to one case, which is what names are compared by. */
  datatype FileState = FileState(name: string, scriptIndex: int, temporary: bool, isOpen: bool, breakpoints: seq<nat>)

  // ----- The searches, on values -----

  /** The first file from k on bound to a script, or |fs|. */
  function FindScript(fs: seq<FileState>, scriptIndex: int, k: nat): (r: nat)
    requires k <= |fs|
    ensures k <= r <= |fs|
    ensures r < |fs| ==> fs[r].scriptIndex == scriptIndex
    ensures forall i {:trigger fs[i]} :: k <= i < r ==> fs[i].scriptIndex != scriptIndex
    decreases |fs| - k
  {
    if k < |fs| && fs[k].scriptIndex != scriptIndex then FindScript(fs, scriptIndex, k + 1) else k
  }

  /** The first file from k on that has the name and is not bound to a script, or |fs|. */
  function FindUnbound(fs: seq<FileState>, name: string, k: nat): (r: nat)
    requires k <= |fs|
    ensures k <= r <= |fs|
    ensures r < |fs| ==> fs[r].scriptIndex == NO_SCRIPT && fs[r].name == name
    ensures forall i {:trigger fs[i]} :: k <= i < r ==> fs[i].scriptIndex != NO_SCRIPT || fs[i].name != name
    decreases |fs| - k
  {
    if k < |fs| && !(fs[k].scriptIndex == NO_SCRIPT && fs[k].name == name) then FindUnbound(fs, name, k + 1) else k
  }

  // ----- The passes over the table, on values -----

  function SetOn(f: FileState, scriptIndex: int, line: nat, set_: bool): FileState
  {
    if f.scriptIndex == scriptIndex then f.(breakpoints := WithBreakpoint(f.breakpoints, line, set_)) else f
  }

  /** Project::SetBreakpoint: every file bound to the script. */
  function WithBreakpointSet(fs: seq<FileState>, scriptIndex: int, line: nat, set_: bool): (r: seq<FileState>)
    ensures |r| == |fs|
    ensures forall i {:trigger r[i]} :: 0 <= i < |fs| ==> r[i] == SetOn(fs[i], scriptIndex, line, set_)
  {
    seq(|fs|, i requires 0 <= i < |fs| => SetOn(fs[i], scriptIndex, line, set_))
  }

  /** Project::CleanUpAfterSession. */
  function Unbound(fs: seq<FileState>): (r: seq<FileState>)
    ensures |r| == |fs|
    ensures forall i {:trigger r[i]} :: 0 <= i < |fs| ==> r[i] == fs[i].(scriptIndex := NO_SCRIPT)
  {
    seq(|fs|, i requires 0 <= i < |fs| => fs[i].(scriptIndex := NO_SCRIPT))
  }

  predicate IsStale(f: FileState)
  {
    f.temporary && !f.isOpen
  }

  /** MainFrame::CleanUpTemporaryFiles: temporary files that are not open in the editor go. */
  function WithoutStale(fs: seq<FileState>): seq<FileState>
  {
    if fs == [] then []
    else WithoutStale(fs[..|fs| - 1]) + if IsStale(fs[|fs| - 1]) then [] else [fs[|fs| - 1]]
  }

  // ----- The table itself -----

  class File {
    var name: string
    var scriptIndex: int
    var temporary: bool
    var isOpen: bool
    var breakpoints: seq<nat>

    constructor (state: FileState)
      ensures State() == state
    {
      name, scriptIndex, temporary := state.name, state.scriptIndex, state.temporary;
      isOpen, breakpoints := state.isOpen, state.breakpoints;
    }

    function State(): FileState
      reads this
    {
      FileState(name, scriptIndex, temporary, isOpen, breakpoints)
    }

    /** std::find on the breakpoints. */
    method FindBreakpoint(line: nat) returns (k: nat)
      ensures k <= |breakpoints|
      ensures k < |breakpoints| <==> line in breakpoints
      ensures k < |breakpoints| ==> breakpoints[k] == line && line !in breakpoints[..k]
    {
      k := 0;
      while k < |breakpoints| && breakpoints[k] != line
        invariant k <= |breakpoints| && line !in breakpoints[..k]
      {
        k := k + 1;
      }
    }

    /** The change that SetBreakpoint makes to one file; changed tells whether the list did change. */
    method PutBreakpoint(line: nat, set_: bool) returns (changed: bool)
      modifies this
      ensures State() == old(State()).(breakpoints := WithBreakpoint(old(breakpoints), line, set_))
      ensures changed <==> set_ != (line in old(breakpoints))
    {
      var k := FindBreakpoint(line);
      changed := false;
      if set_ {
        if k == |breakpoints| {
          breakpoints := breakpoints + [line];
          changed := true;
        }
      } else {
        if k != |breakpoints| {
          EraseFirst(breakpoints, line, k);
          breakpoints := breakpoints[..k] + breakpoints[k + 1..];
          changed := true;
        }
      }
    }

    /** MainFrame::OnCodeEditModified, on the file the event came from. */
    method OnCodeEditModified(e: Edit)
      modifies this
      ensures State() == old(State()).(breakpoints := Edited(old(breakpoints), e))
    {
      if e.linesAdded == 0 {
        return;
      }
      if e.linesAdded > 0 {
        ShiftDown(e.line, e.linesAdded, e.atStart);
      } else {
        ShiftUp(e.line, -e.linesAdded);
      }
    }

    method ShiftDown(line: nat, k: nat, atStart: bool)
      modifies `breakpoints
      ensures breakpoints == Inserted(old(breakpoints), line, k, atStart)
    {
      var i := 0;
      while i < |breakpoints|
        invariant i <= |breakpoints| == |old(breakpoints)|
        invariant forall j {:trigger breakpoints[j]} :: 0 <= j < |breakpoints| ==>
                    breakpoints[j] ==
                    if j < i then InsertedAt(old(breakpoints)[j], line, k, atStart) else old(breakpoints)[j]
      {
        if breakpoints[i] > line || (atStart && breakpoints[i] >= line) {
          breakpoints := breakpoints[i := breakpoints[i] + k];
        }
        i := i + 1;
      }
    }

    method ShiftUp(line: nat, k: nat)
      modifies `breakpoints
      ensures breakpoints == Deleted(old(breakpoints), line, k, false)
    {
      var i := 0;
      var collapsed := false;
      ghost var done: seq<nat> := [];
      while i < |breakpoints|
        invariant i <= |breakpoints| && breakpoints[..i] == done
        invariant done + Deleted(breakpoints[i..], line, k, collapsed) == Deleted(old(breakpoints), line, k, false)
        decreases |breakpoints| - i
      {
        ghost var rest, b := breakpoints[i + 1..], breakpoints[i];
        assert breakpoints[i..] == [b] + rest;
        if breakpoints[i] >= line {
          if breakpoints[i] >= line + k {
            Extend(done, b - k, Deleted(rest, line, k, collapsed));
            breakpoints := breakpoints[i := breakpoints[i] - k];
            i := i + 1;
            done := done + [b - k];
          } else if collapsed {
            breakpoints := breakpoints[..i] + breakpoints[i + 1..];
          } else {
            Extend(done, line, Deleted(rest, line, k, true));
            breakpoints := breakpoints[i := line];
            collapsed := true;
            i := i + 1;
            done := done + [line];
          }
        } else {
          Extend(done, b, Deleted(rest, line, k, collapsed));
          i := i + 1;
          done := done + [b];
        }
        assert breakpoints[i..] == rest;
      }
      assert done + [] == done;
    }
  }

  lemma Extend(done: seq<nat>, x: nat, rest: seq<nat>)
    ensures done + ([x] + rest) == (done + [x]) + rest
  {
  }

  ghost predicate Distinct(files: seq<File>)
  {
    forall i, j :: 0 <= i < j < |files| ==> files[i] != files[j]
  }

  class Project {
    var files: seq<File>
    var needsSave: bool
    var needsUserSave: bool

    constructor ()
      ensures files == [] && !needsSave && !needsUserSave
    {
      files, needsSave, needsUserSave := [], false, false;
    }

    /** The vector holds each file once. */
    ghost predicate Valid()
      reads this
    {
      Distinct(files)
    }

    ghost function View(): (v: seq<FileState>)
      reads this, files
      ensures |v| == |files|
      ensures forall i {:trigger v[i]} :: 0 <= i < |files| ==> v[i] == files[i].State()
    {
      seq(|files|, i requires 0 <= i < |files| reads this, files => files[i].State())
    }

    method GetFileForScript(scriptIndex: int) returns (file: File?)
      ensures var k := FindScript(View(), scriptIndex, 0);
              file == if k < |files| then files[k] else null
    {
      var i := 0;
      while i < |files|
        invariant i <= |files|
        invariant FindScript(View(), scriptIndex, 0) == FindScript(View(), scriptIndex, i)
      {
        assert View()[i] == files[i].State();
        if files[i].scriptIndex == scriptIndex {
          return files[i];
        }
        i := i + 1;
      }
      return null;
    }

    /** MainFrame::GetFileMatchingSource. */
    method GetFileMatchingSource(name: string) returns (file: File?)
      ensures var k := FindUnbound(View(), name, 0);
              file == if k < |files| then files[k] else null
    {
      var i := 0;
      while i < |files|
        invariant i <= |files|
        invariant FindUnbound(View(), name, 0) == FindUnbound(View(), name, i)
      {
        assert View()[i] == files[i].State();
        if files[i].scriptIndex == NO_SCRIPT && files[i].name == name {
          return files[i];
        }
        i := i + 1;
      }
      return null;
    }

    method AddTemporaryFile(name: string, scriptIndex: int) returns (file: File)
      requires Valid()
      modifies this
      ensures Valid() && fresh(file) && files == old(files) + [file]
      ensures file.State() == FileState(name, scriptIndex, true, false, [])
      ensures View() == old(View()) + [FileState(name, scriptIndex, true, false, [])]
    {
      file := new File(FileState(name, scriptIndex, true, false, []));
      files := files + [file];
    }

    method CleanUpAfterSession()
      requires Valid()
      modifies files
      ensures View() == Unbound(old(View()))
    {
      var i := 0;
      while i < |files|
        invariant i <= |files|
        invariant forall j {:trigger files[j]} :: 0 <= j < |files| ==>
                    files[j].State() ==
                    if j < i then old(files[j].State()).(scriptIndex := NO_SCRIPT) else old(files[j].State())
      {
        files[i].scriptIndex := NO_SCRIPT;
        i := i + 1;
      }
    }

    method SetBreakpoint(scriptIndex: int, line: nat, set_: bool)
      requires Valid()
      modifies this`needsUserSave, files
      ensures View() == WithBreakpointSet(old(View()), scriptIndex, line, set_)
      ensures needsUserSave <==>
              old(needsUserSave) || exists f :: f in old(View()) && Counts(f, scriptIndex, line, set_)
    {
      var i := 0;
      while i < |files|
        invariant i <= |files|
        invariant forall j {:trigger files[j]} :: 0 <= j < |files| ==>
                    files[j].State() ==
                    if j < i then SetOn(old(files[j].State()), scriptIndex, line, set_) else old(files[j].State())
        invariant needsUserSave <==>
                  old(needsUserSave) || exists j :: 0 <= j < i && Counts(old(View())[j], scriptIndex, line, set_)
      {
        assert files[i].State() == old(View())[i];
        if files[i].scriptIndex == scriptIndex {
          var changed := files[i].PutBreakpoint(line, set_);
          if changed && !files[i].temporary {
            needsUserSave := true;
          }
        }
        i := i + 1;
      }
    }

    /** Project::ToggleBreakpoint on a file of the table. */
    method ToggleBreakpoint(file: File, line: nat) returns (set_: bool)
      requires Valid() && file in files
      modifies this`needsUserSave, file
      ensures set_ <==> line !in old(file.breakpoints)
      ensures file.State() == old(file.State()).(breakpoints := Toggled(old(file.breakpoints), line))
      ensures needsUserSave <==> old(needsUserSave) || !file.temporary
    {
      var k := file.FindBreakpoint(line);
      set_ := k == |file.breakpoints|;
      if set_ {
        file.breakpoints := file.breakpoints + [line];
      } else {
        EraseFirst(file.breakpoints, line, k);
        file.breakpoints := file.breakpoints[..k] + file.breakpoints[k + 1..];
      }
      if !file.temporary {
        needsUserSave := true;
      }
    }

    /** Project::RemoveFile: the first and only occurrence is erased. */
    method RemoveFile(file: File) returns (ghost k: nat)
      requires Valid() && file in files
      modifies this
      ensures Valid() && k < |old(files)| && old(files)[k] == file
      ensures files == old(files)[..k] + old(files)[k + 1..]
      ensures View() == old(View())[..k] + old(View())[k + 1..]
      ensures needsSave <==> old(needsSave) || !file.temporary
      ensures needsUserSave <==> old(needsUserSave) || !file.temporary
    {
      var i := 0;
      while i < |files| && files[i] != file
        invariant i <= |files| && file !in files[..i]
      {
        i := i + 1;
      }
      k := i;
      files := files[..i] + files[i + 1..];
      if !file.temporary {
        needsSave, needsUserSave := true, true;
      }
    }

    /** The first half of MainFrame::CleanUpTemporaryFiles: the files to remove, each once. */
    method CollectStale() returns (stale: seq<File>)
      requires Valid()
      ensures forall f :: f in stale <==> f in files && IsStale(f.State())
      ensures Distinct(stale)
    {
      stale := [];
      var i := 0;
      while i < |files|
        invariant i <= |files|
        invariant forall f :: f in stale <==> f in files[..i] && IsStale(f.State())
        invariant Distinct(stale)
      {
        assert files[..i + 1] == files[..i] + [files[i]];
        assert files[i] !in files[..i];
        if files[i].temporary && !files[i].isOpen {
          stale := stale + [files[i]];
        }
        i := i + 1;
      }
      assert files[..i] == files;
    }

    /** One removal of the second half: of the files there were, one more is gone. */
    method RemoveOne(ghost all: seq<File>, ghost gone: set<File>, file: File)
      requires Valid() && Distinct(all) && files == Kept(all, gone)
      requires file in all && file !in gone && file.temporary
      modifies this
      ensures Valid() && files == Kept(all, gone + {file})
      ensures needsSave == old(needsSave) && needsUserSave == old(needsUserSave)
    {
      KeptMembers(all, gone);
      ghost var k := RemoveFile(file);
      KeptRemove(all, gone, file, k);
    }

    /** MainFrame::CleanUpTemporaryFiles: temporary files that are not open in the editor go. */
    method CleanUpTemporaryFiles()
      requires Valid()
      modifies this
      ensures Valid() && View() == WithoutStale(old(View()))
      ensures forall f :: f in files ==> f in old(files)
      ensures needsSave == old(needsSave) && needsUserSave == old(needsUserSave)
    {
      StatesOfIsView(this);
      ghost var all, gone := files, {};
      var stale := CollectStale();
      KeptWithoutGone(all, gone);
      var i := 0;
      while i < |stale|
        invariant i <= |stale| && Valid() && needsSave == old(needsSave) && needsUserSave == old(needsUserSave)
        invariant files == Kept(all, gone)
        invariant forall f :: f in gone <==> f in stale[..i]
      {
        assert stale[..i + 1] == stale[..i] + [stale[i]];
        assert stale[i] in stale && stale[i] !in stale[..i];
        RemoveOne(all, gone, stale[i]);
        gone := gone + {stale[i]};
        i := i + 1;
      }
      assert stale[..i] == stale;
      KeptMembers(all, gone);
      KeptIsWithoutStale(all, gone);
      StatesOfIsView(this);
    }

    /** What OnSessionEnd does to the project: first CleanUpAfterSession, then CleanUpTemporaryFiles. */
    method EndSession()
      requires Valid()
      modifies this, files
      ensures Valid() && View() == WithoutStale(Unbound(old(View())))
      ensures forall f :: f in files ==> f in old(files)
    {
      CleanUpAfterSession();
      CleanUpTemporaryFiles();
    }
  }

  /** The files that are not gone, in order. */
  ghost function Kept(files: seq<File>, gone: set<File>): seq<File>
  {
    if files == [] then []
    else Kept(files[..|files| - 1], gone) + if files[|files| - 1] in gone then [] else [files[|files| - 1]]
  }

  lemma {:induction false} KeptWithoutGone(files: seq<File>, gone: set<File>)
    requires forall f :: f in files ==> f !in gone
    ensures Kept(files, gone) == files
  {
    if files != [] {
      KeptWithoutGone(files[..|files| - 1], gone);
    }
  }

  lemma {:induction false} KeptMembers(files: seq<File>, gone: set<File>)
    ensures forall f :: f in Kept(files, gone) <==> f in files && f !in gone
  {
    if files != [] {
      assert files == files[..|files| - 1] + [files[|files| - 1]];
      KeptMembers(files[..|files| - 1], gone);
    }
  }

  lemma {:induction false} KeptRemove(files: seq<File>, gone: set<File>, f: File, k: nat)
    requires Distinct(files)
    requires k < |Kept(files, gone)| && Kept(files, gone)[k] == f && f !in gone
    ensures Kept(files, gone + {f}) == Kept(files, gone)[..k] + Kept(files, gone)[k + 1..]
  {
    var rest, last := files[..|files| - 1], files[|files| - 1];
    var kept := Kept(rest, gone);
    if last == f {
      assert f !in rest;
      KeptMembers(rest, gone);
      KeptUnchanged(rest, gone, f);
      assert k == |kept|;
    } else {
      var end := if last in gone then [] else [last];
      assert k < |kept| && kept[k] == f;
      KeptRemove(rest, gone, f, k);
      CutThenAppend(kept, end, k);
    }
  }

  lemma CutThenAppend(s: seq<File>, t: seq<File>, k: nat)
    requires k < |s|
    ensures (s + t)[..k] + (s + t)[k + 1..] == (s[..k] + s[k + 1..]) + t
  {
  }

  lemma {:induction false} KeptUnchanged(files: seq<File>, gone: set<File>, f: File)
    requires f !in files
    ensures Kept(files, gone + {f}) == Kept(files, gone)
  {
    if files != [] {
      assert files[|files| - 1] in files;
      KeptUnchanged(files[..|files| - 1], gone, f);
    }
  }

  lemma {:induction false} KeptIsWithoutStale(files: seq<File>, gone: set<File>)
    requires forall f :: f in files ==> (f in gone <==> IsStale(f.State()))
    ensures StatesOf(Kept(files, gone)) == WithoutStale(StatesOf(files))
  {
    if files != [] {
      var rest, last := files[..|files| - 1], files[|files| - 1];
      assert last in files;
      KeptIsWithoutStale(rest, gone);
      assert StatesOf(files)[..|files| - 1] == StatesOf(rest);
      assert StatesOf(Kept(rest, gone) + [last]) == StatesOf(Kept(rest, gone)) + [last.State()];
      assert Kept(rest, gone) + [] == Kept(rest, gone);
    }
  }

  lemma StatesOfIsView(p: Project)
    ensures p.View() == StatesOf(p.files)
  {
  }

  ghost function StatesOf(files: seq<File>): (v: seq<FileState>)
    reads files
    ensures |v| == |files|
    ensures forall i {:trigger v[i]} :: 0 <= i < |files| ==> v[i] == files[i].State()
  {
    seq(|files|, i requires 0 <= i < |files| reads files => files[i].State())
  }

  /** SetBreakpoint changes a file that is saved with the project. */
  predicate Counts(f: FileState, scriptIndex: int, line: nat, set_: bool)
  {
    f.scriptIndex == scriptIndex && set_ != (line in f.breakpoints) && !f.temporary
  }
}
