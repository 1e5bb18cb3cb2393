# A verified model of the Decoda debugger front end

Decoda is a debugger for Lua scripts. Its front end is an editor that keeps breakpoints while the program under test,
the back end, loads scripts whose text may differ from the files in the project. This project models, in Dafny, the
parts of the front end that have to stay right over every input and every run, and proves that they do, or says exactly
when they do not.

| module | part of the front end |
|---|---|
| `Lcs`, `LcsChoice` | longest common subsequences: matchings as the reference notion, the recursion, the backtrack, the trimming; and which of the longest matchings the diff takes |
| `LineText`, `LineMapping`, `LineMapLaws` | the line mapper: splitting and cleaning lines, the diff over mutable maps, and what its maps guarantee |
| `Breakpoints` | how edits shift a file's breakpoints, and when undoing them restores the list |
| `Reload`, `ReloadLaws`, `ReloadRun` | what a reload does to breakpoints: for any maps, for those of diffs, and through any interleaving of the protocol's steps |
| `ProjectFiles` | the file table, its files and their breakpoints, changed in place |
| `MirrorRun`, `PressRun` | the back end beside the protocol: what the editor shows keeps up with what the back end has set, and what becomes of a toggle |
| `DebugSession`, `DebugSessionLaws`, `Debugger` | the session protocol of event thread and user interface: as steps, its laws over all interleavings, and the code that takes the steps |
| `HandlerLaws` | what each message, event and toggle does to the files, the scripts and the commands |
| `TabOrder` | the most-recently-used order of the tabs |
| `StatusRefresh` | the two-slot background refresh of source control status |
| `CommentBlock` | commenting and uncommenting the selected lines of a document |
| `Lists`, `Options` | lists of numbers, optional values |

Code that changes objects step by step is a class here, with methods over its fields. Each method is proved equal to a
step on values, and the laws are proved about those steps. `dafny verify dfyconfig.toml` checks everything.

## What the code turns out not to do

Each of these is a property that one would expect, which fails on some inputs. The model keeps the code as it is; one
lemma gives the exact condition and another a concrete input that fails it.

- A deletion can leave a breakpoint twice in the list: `Breakpoints.DeletionKeepsDistinctIff`, `DeletionCanDuplicate`.
- Undo does not restore breakpoints after every deletion, on which discarding changes at the closing of a page relies:
  `Breakpoints.UndoRestoresIff`, `UndoCanMove`. Insertions into a duplicate-free list are always restored. For runs of
  edits of one kind the condition on each edit is exact (`UndoAllRestoresIff`). In mixed runs what one edit loses can be
  restored by another (`UndoCanRestoreByLuck`), and the exact condition is one on each breakpoint's line
  (`UndoAllRestoresLinesIff`).
- A file can be removed, or the project replaced, in the middle of a session (src/Frontend/MainFrame.cpp:5034-5045,
  3282-3300, 1727-1734). A break or an echo for its script then meets a null file: `DebugSessionLaws.HandlerFailsIff`,
  `RemovalCanFail`.
- A reload can move a breakpoint to another line when the text in the editor is not the one on disk, because the toggles
  go through the map of one and the echoes through that of the other: `ReloadLaws.ReloadIsExactIff`,
  `ReloadRun.LoadScriptRestoresBreakpointsIff`, `ReloadLaws.BreakpointCanMove`.
- For the same reason the breakpoints shown while the script runs can be others than those that the back end has set:
  `MirrorRun.SwitchKeepsMirrorIff`. Where the two texts agree about the matched lines they never are, once every answer
  has been handled: `MirrorRun.EditorMirrorsFromStart`.
- Breakpoints past the end of the new text are all sent as its last line and flip each other:
  `ReloadLaws.PastEndIsHarmlessIff`, `PastEndCanFlipLast`.
- A script that arrives without source, as one that was loaded from a file before the back end attached
  (src/LuaInject/DebugBackend.cpp:654-666), has every breakpoint sent as old line 0, so they cancel in pairs:
  `ReloadLaws.ReloadOfEmptySource`, `ReloadOfEmptySourceIsExactIff`, `EmptySourceCanLoseAll`. With an empty text in the
  editor, or on disk, whatever comes back comes back on line 0: `ReloadLaws.ReloadToEmptyText`.
- `CleanWhiteSpace` erases the rest of the line at the first pair of white space characters, where a reader may expect
  the run to become one blank: `LineText.CleanCollapsesIff`, `CleanCanCut`.
- It is not idempotent, since `IsSpace` (src/Frontend/Tokenizer.cpp:34-39) knows six characters and the trim knows four
  of them: `LineText.CleanIsIdempotentIff`, `CleanIsNotIdempotent`.
- The head loop of `Diff` writes one index further than the head; that index is outside `m_newToOld` when the new lines
  are a proper prefix of the old ones: `LineMapLaws.HeadCopyStaysInRangeIff`, `HeadCopyCanOverrun`.
- The tail trim of `Diff` reads below index 0 when the first lines differ and one side is a suffix of the other:
  `LineMapLaws.TailTrimStaysInRangeIff`, `TailTrimCanUnderrun`.
- The selected page is not always the most recent one. Opening the file that one has just paged to, or one that cannot
  be opened, ends the paging without making the selected page the most recent: `TabOrder.StepKeepsFrontIff`,
  `ReopenCanLeaveFront`. Every other step keeps it in front, also the deletion of a file, in which the order hears of
  the new selection before it hears of the deletion (`DeletingIsClosing`).
- Previous is the inverse of Next at the ends of the tab order only if the number of pages divides 2^32:
  `TabOrder.PreviousUndoesNext`, `PreviousCanStay`.

## Conventions

- **Line mapper.** The ends `em` and `en` of the middle are exclusive, so an exhausted side is an empty range. The write
  of the head loop outside `m_newToOld` is skipped; every other write of it is made, and is overwritten later where the
  head does not reach. The vectors hold 16-bit numbers, so the methods ask for at most 65534 lines a side; the header
  (src/Frontend/LineMapper.h:82-83) allows for 60k. Matching and optimality speak of two non-empty texts, since with one
  side empty the code fills the other map with zeros; what a reload does then is stated separately.
- **Edits.** An edit is what Scintilla reports: the line of its position, whether that position starts the line, and how
  many lines were added or deleted. Undoing it reports the same position and the opposite number.
- **Session.** Pending events are handled first in, first out. The back end names only scripts that it has announced;
  for the frames of a break the front end asserts this as well (src/Frontend/DebugFrontend.cpp:550-553), for a
  SetBreakpoint it is an assumption about the back end (`DebugSession.NamesAnnounced`). The back end answers a toggle
  of a line by telling whether the line is set now (src/LuaInject/DebugBackend.cpp:1258-1315). The end of one session
  has been handled before the next starts. Which diffs are made while an event is handled, and their results, are
  parameters of the step; a diff that another look up of a line makes is a step of its own. A break event carries the
  frames of the stack at the time it was read. `handled` and `lost` in a state are history, not part of the program.
  An event that names a script without a file cannot be handled: the program fails there, and a run ends.
- **Files.** Names are compared in one case, so a file's name is its full name folded to that case. A file is open when
  a page of the editor shows it.
- **Reload.** The toggles go through the map of the script and the file on disk. Every echo goes through the map there
  is when it is handled: for a file that is open and whose map is out of date, which it is when it was just opened or
  has been edited since the last diff with the editor's text, that diff is made first
  (src/Frontend/MainFrame.cpp:2437-2459). So the laws take any sequence of maps, and the diff with the editor's text
  may come before any of the echoes, by a step that handles one or by any other look up. In the laws about whole runs
  other events, messages and user actions may come between the echoes; excluded are the end of the session and actions
  on the file itself or its breakpoints. The back end's list is seen as a set; `Reload.FlippedIsToggled` says why that
  is enough.
- **Tabs.** The notebook sends a page-changed event when its selection changes. After a page has gone it selects some
  page anew and sends the event whenever one is left, whether or not the page that went was the selected one
  (libs/wxWidgets/src/aui/auibook.cpp:3307-3395); which page that is, is left open. Only the laws about the most recent
  page assume the event (`TabOrder.IsFaithful`). When a file is deleted the event arrives before the file has left the
  list of open files, in which its handler looks the selected page up (src/Frontend/MainFrame.cpp:5547-5562).
- **Status refresh.** The steps of a worker and of the user interface interleave freely; a worker's body, whose last
  act is to post the exit event, is one step. `asked`, `answers` and the requests and start time of a worker are
  history. The set of names a request asks for is that of the project's files at that time.
- **Comments.** Positions and lines are as in Scintilla: a line ends with its newline, and a position belongs to the
  last line that starts at or before it. The first column at which a comment is inserted is capped at INT_MAX as in
  the code.
- Function values that stand for C++ loops are proved equal to methods with the same loops. Where a loop is long, its
  parts are methods of their own.

## Model

Paths are relative to the root of the repository.

| member | source | states |
|---|---|---|
| Lcs.NoMatchingIsLonger | src/Frontend/LineMapper.cpp:155-187 | The recursion that the table tabulates is an upper bound for every order-preserving matching of equal elements of the two prefixes. |
| Lcs.AlignmentIsMatching | src/Frontend/LineMapper.cpp:78-101 | A pair of partial maps that invert each other, join equal elements and keep order is such a matching, so it matches no more than the table's count. |
| Lcs.BacktrackAligns | src/Frontend/LineMapper.cpp:78-101 | From any cell the backtrack yields two partial maps that are inverse to each other, join only equal elements and increase strictly on both sides. |
| Lcs.BacktrackMatchesCell | src/Frontend/LineMapper.cpp:78-101 | From cell (i, j) the backtrack matches exactly as many pairs as the cell says, besides the trimmed head. |
| Lcs.TrimIsLossless | src/Frontend/LineMapper.cpp:139-153 | LCS of the whole of X and Y = head + LCS of the middles + tail, where the tail is as long on both sides. |
| Lcs.DiffAligns | src/Frontend/LineMapper.cpp:103-210 | Head, backtracked middle and tail together are an alignment of the whole of X and Y. |
| Lcs.DiffMatchesLcs | src/Frontend/LineMapper.cpp:103-210 | It matches as many elements as a longest common subsequence of the whole of X and Y has. |
| Lcs.DiffIsOptimal | src/Frontend/LineMapper.cpp:103-210 | No order-preserving matching of equal elements of the whole of X and Y is larger. |
| Lcs.DiffOfEqual | src/Frontend/LineMapper.cpp:103-210 | Equal sequences get identity maps. |
| LcsChoice.HeadIsIdentity | src/Frontend/LineMapper.cpp:139-145 | An element up to which both sequences agree is matched with itself. |
| LcsChoice.TailKeepsDistance | src/Frontend/LineMapper.cpp:147-153 | An element from which on they agree, behind their longest common head, is matched with the one at its distance from the other end. |
| LcsChoice.TailTrimIsFree | src/Frontend/LineMapper.cpp:147-153 | Trimming the tail changes nothing: the diff is what backtracking from the whole of both behind their common head gives. |
| LcsChoice.RunsExtendBack | src/Frontend/LineMapper.cpp:78-101 | Behind the common head, what stands before two matched elements is matched as well if it is equal. |
| LcsChoice.BacktrackIsLatest | src/Frontend/LineMapper.cpp:78-101 | Of all longest matchings of two prefixes that take the common head by identity, the backtrack takes in every place the latest old element. |
| LcsChoice.DiffIsLatest | src/Frontend/LineMapper.cpp:103-210 | So does the whole diff. |
| LcsChoice.DiffPairsFollowNext | src/Frontend/LineMapper.cpp:78-101 | Going back from the ends, each next pair takes the old element just before with the last equal new one, or no longest matching makes do with fewer new elements. With the two rows before this fixes every pair. |
| LineText.CleanWhiteSpace | src/Frontend/LineMapper.cpp:237-267 | The in-place loop leaves the trimmed line up to its first pair of white space characters, every single one turned into a blank. |
| LineText.CleanedShape | src/Frontend/LineMapper.cpp:237-267 | What is left has no two adjacent white space characters and no white space but blanks. |
| LineText.CleanIsIdempotentIff | src/Frontend/LineMapper.cpp:237-293 | Cleaning twice is cleaning once if and only if the trimmed line does not start or end with a single vertical tab or form feed (a pair in front, or a pair anywhere for the end, excuses it). |
| LineText.CleanIsNotIdempotent | src/Frontend/LineMapper.cpp:250-262 | A concrete line on which cleaning twice differs from cleaning once. |
| LineText.CleanedIsCanonical | src/Frontend/LineMapper.cpp:237-293 | Where the two white space notions agree, cleaning is idempotent and leaves no outer white space. |
| LineText.CleanCollapsesIff | src/Frontend/LineMapper.cpp:250-262 | The loop turns every run of white space into one blank exactly on lines without a run of two or more inside; on the others the one-argument erase cuts off the rest of the line. |
| LineText.CleanCanCut | src/Frontend/LineMapper.cpp:254-257 | A concrete line that loses its second word. |
| LineText.TrimIgnoresMargins | src/Frontend/LineMapper.cpp:269-293 | White space added at either end of a line does not change what a trim leaves. |
| LineText.TrimTakesMargins | src/Frontend/LineMapper.cpp:269-293 | A trim takes away exactly the blanks, tabs, returns and newlines at either end. |
| LineText.CleanedStopsAtPair | src/Frontend/LineMapper.cpp:237-267 | A cleaned line is the trimmed one, blanked, up to its first pair of white space characters, or all of it if there is none. |
| LineText.CleanKnowsSix | src/Frontend/Tokenizer.cpp:34-39 | Between two letters exactly six characters become a blank, and every other one stays. |
| LineText.DivideIntoLines | src/Frontend/LineMapper.cpp:212-235 | The loop returns one line for each raw line of the text, and each is that raw line cleaned. |
| LineText.SplitIsLossless | src/Frontend/LineMapper.cpp:215-233 | Before cleaning, the lines joined by newlines are the text again, with its last newline if that was missing. |
| LineText.LinesHoldNoNewline | src/Frontend/LineMapper.cpp:220-227 | No line contains a newline. |
| LineText.SplitOfJoined | src/Frontend/LineMapper.cpp:212-235 | Lines without a newline, put together and split, are the same lines. |
| LineText.LineEndsAreInvisible | src/Frontend/LineMapper.cpp:212-293 | A text with a return before each newline has the same lines as the one without. |
| LineMapping.LineMapper.constructor | src/Frontend/LineMapper.h:85-86 | A mapper starts with two empty maps. |
| LineMapping.LineMapper.Update | src/Frontend/LineMapper.cpp:28-39 | History independence: whatever stale entries there were, afterwards both maps are a function of the two texts alone, each entry exact in 16 bits. |
| LineMapping.LineMapper.Diff | src/Frontend/LineMapper.cpp:103-210 | The two maps become the encoded alignment of the two line lists, or zeros where the other side is empty. |
| LineMapping.LineMapper.TrimHead | src/Frontend/LineMapper.cpp:133-145 | The first trim loop stops at the length of the common head. |
| LineMapping.LineMapper.TrimTail | src/Frontend/LineMapper.cpp:147-153 | The second trim loop stops with equally long common tails removed from both sides, not reaching into the head. |
| LineMapping.FillTable | src/Frontend/LineMapper.cpp:159-187 | After the fill loops cell i + j*r of the flattened 16-bit table is the LCS length of the first i and j middle lines, for every i < r and j < c. |
| LineMapping.InnerCell | src/Frontend/LineMapper.cpp:178-185 | The value for an inner cell, computed from its three neighbours without overflow. |
| LineMapping.WriteCell | src/Frontend/LineMapper.cpp:164-187 | A store into the flattened table, at an index that fits in 32 bits, makes its own cell right and no right cell wrong. |
| LineMapping.TableFitsIn32Bits | src/Frontend/LineMapper.cpp:159-172 | Up to 65534 lines a side the table's size and every flattened index stay below 2^32. |
| LineMapping.LineMapper.MatchHead | src/Frontend/LineMapper.cpp:189-194 | The head loop makes the common head the identity in both maps. |
| LineMapping.GuardsFollowTable | src/Frontend/LineMapper.cpp:81-99 | On a right table the guards of the backtrack choose as the recursive definition does, and one of them holds everywhere but in the corner (0, 0). |
| LineMapping.LineMapper.Backtrack | src/Frontend/LineMapper.cpp:78-101 | The recursive Diff, writing both maps in place, writes the backtracked alignment and touches no entry past the two prefixes. |
| LineMapping.LineMapper.MatchTail | src/Frontend/LineMapper.cpp:198-208 | The tail loops complete both maps; every index they store is in range on the other side. |
| LineMapLaws.PairsFollowDiff | src/Frontend/LineMapper.cpp:103-210 | The entries other than the invalid line are exactly the pairs of the alignment, seen from either side. |
| LineMapLaws.MapsAreInverse | src/Frontend/LineMapper.cpp:78-101 | oldToNew[i] = j if and only if newToOld[j] = i. |
| LineMapLaws.MatchedLinesAreEqual | src/Frontend/LineMapper.cpp:78-101 | A valid entry is a line of the other side with the same text. |
| LineMapLaws.MatchedLinesKeepOrder | src/Frontend/LineMapper.cpp:78-101 | Valid entries increase strictly. |
| LineMapLaws.MapsAreOptimal | src/Frontend/LineMapper.cpp:103-210 | The number of mapped old lines is the LCS length of the whole of X and Y, and no matching is larger. |
| LineMapLaws.GetOldLineFinds | src/Frontend/LineMapper.cpp:41-55 | After a diff GetOldLine gives, for a line of the new text, an equal line of the old one that GetNewLine takes back to it, or the invalid line if no old line is taken to it; past the end it gives what it gives for the last line. |
| LineMapLaws.GetNewLineFinds | src/Frontend/LineMapper.cpp:57-71 | The same from the old side. |
| LineMapLaws.LookupRoundTrip | src/Frontend/LineMapper.cpp:41-71 | GetNewLine(GetOldLine(l)) = l for every matched l of the new text. |
| LineMapLaws.ReindentationIsInvisible | src/Frontend/LineMapper.cpp:212-293 | Texts whose corresponding lines differ only in outer white space get identity maps. |
| LineMapLaws.MatchedRawLinesAgree | src/Frontend/LineMapper.cpp:23-39 | And only lines of the two texts that are the same once cleaned are matched. |
| LineMapLaws.HeadKeepsNumbers | src/Frontend/LineMapper.cpp:139-145 | A line up to which the texts agree keeps its number, in both maps. |
| LineMapLaws.TailKeepsDistances | src/Frontend/LineMapper.cpp:147-153 | A line from which on they agree, behind their longest common head, keeps its distance to the end, in both maps. |
| LineMapLaws.InsertionShifts | src/Frontend/LineMapper.cpp:103-210 | Of lines inserted in one place, no line above them moves; and if the first of them is not the line that it pushes down, each line below moves by as many. |
| LineMapLaws.HeadCopyStaysInRangeIff | src/Frontend/LineMapper.cpp:190-194 | The head loop writes inside newToOld except when the new lines are a proper prefix of the old ones. |
| LineMapLaws.HeadCopyCanOverrun | src/Frontend/LineMapper.cpp:190-194 | Two concrete texts on which it writes entry 1 of a vector of one. |
| LineMapLaws.TailTrimStaysInRangeIff | src/Frontend/LineMapper.cpp:149-153 | With its unsigned inclusive ends the tail trim reads inside both lists except when the first lines differ and one list is a suffix of the other. |
| LineMapLaws.TailTrimCanUnderrun | src/Frontend/LineMapper.cpp:149-153 | Two concrete texts on which it does not. |
| Breakpoints.ToggledMembers | src/Frontend/Project.cpp:486-512 | A toggle flips the membership of one line and keeps the list free of duplicates. |
| Breakpoints.EditedFollowsText | src/Frontend/MainFrame.cpp:2571-2631 | Breakpoints go with their text: after an edit they are on the lines with the text they were on, but for those on lines that were deleted or changed themselves, which are on the line of the edit. |
| Breakpoints.DeletedIsImage | src/Frontend/MainFrame.cpp:2587-2631 | As a set, deleting lines leaves the image of the breakpoints under the monotone map that sends the deleted range to its first line. |
| Breakpoints.DeletedLength | src/Frontend/MainFrame.cpp:2587-2631 | The list shrinks by all but one of the breakpoints in the deleted range. |
| Breakpoints.DeletionKeepsDistinctIff | src/Frontend/MainFrame.cpp:2590-2629 | A deletion keeps a duplicate-free list duplicate-free unless a breakpoint lies in the range and another just past it. |
| Breakpoints.DeletionCanDuplicate | src/Frontend/MainFrame.cpp:2603-2622 | A concrete list on which a deletion leaves a line twice. |
| Breakpoints.UndoInsertion | src/Frontend/MainFrame.cpp:2571-2631 | Deleting again the lines that were inserted restores the list exactly when they were inserted at a line start or the line inside which they were carries at most one breakpoint. |
| Breakpoints.UndoDeletion | src/Frontend/MainFrame.cpp:2571-2631 | Inserting again the lines that were deleted restores the list exactly when no breakpoint was merged or moved to a place the insertion does not move. |
| Breakpoints.UndoRestoresIff | src/Frontend/MainFrame.cpp:2527-2635 | Undoing one edit restores the list if and only if the edit was lossless for it, a condition on the edit and the list before. |
| Breakpoints.UndoCanMove | src/Frontend/MainFrame.cpp:2571-2631 | A concrete deletion after whose undoing the breakpoint is on another line. |
| Breakpoints.UndoAllRestores | src/Frontend/MainFrame.cpp:5913-5928 | Over any run of lossless edits the undo loop of the close path gives back the identical list; when it does for other runs is said by the next two. |
| Breakpoints.UndoAllRestoresIff | src/Frontend/MainFrame.cpp:5913-5928 | When the edits of a run are all at line starts, or all inside lines, undoing it gives back the identical list if and only if every edit was lossless for the list it met. |
| Breakpoints.UndoAllRestoresLinesIff | src/Frontend/MainFrame.cpp:5913-5928 | For any run of edits and any list: undoing gives back the identical list if and only if the line of each breakpoint, moved by itself, comes back, and a line that is listed twice is never deleted on the way. |
| Breakpoints.RunReturnsIff | src/Frontend/MainFrame.cpp:2545-2631 | The same for any sequence of edits, whether the later ones undo the earlier or not. |
| Breakpoints.EditedKeepsLengthIff | src/Frontend/MainFrame.cpp:2587-2631 | An edit loses a breakpoint from the list if and only if it deletes two of them. |
| Breakpoints.UndoCanRestoreByLuck | src/Frontend/MainFrame.cpp:5913-5928 | A concrete mixed run with a lossy edit that is undone all the same. |
| Breakpoints.UndoOfInsertionsRestores | src/Frontend/MainFrame.cpp:5913-5928 | For a duplicate-free list every run of insertions is lossless, so undoing it gives back the identical list. |
| ProjectFiles.FindScript | src/Frontend/Project.cpp:417-430 | The first file bound to the script, and none before it. |
| ProjectFiles.FindUnbound | src/Frontend/MainFrame.cpp:6031-6048 | The first file with the name that is not bound to a script, and none before it. |
| ProjectFiles.File.OnCodeEditModified | src/Frontend/MainFrame.cpp:2527-2635 | The handler changes the file's list as the edit does and nothing else of the file. |
| ProjectFiles.File.ShiftDown | src/Frontend/MainFrame.cpp:2571-2586 | The in-place loop for inserted lines. |
| ProjectFiles.File.ShiftUp | src/Frontend/MainFrame.cpp:2587-2631 | The erasing iterator loop for deleted lines yields the list without all but the first collapsed breakpoint. |
| ProjectFiles.File.FindBreakpoint | src/Frontend/Project.cpp:457-459 | std::find: the first index of the line, or the end. |
| ProjectFiles.File.PutBreakpoint | src/Frontend/Project.cpp:447-484 | Sets or clears one breakpoint and tells whether the list changed. |
| ProjectFiles.Project.GetFileForScript | src/Frontend/Project.cpp:417-430 | Returns the first file bound to the script, or none. |
| ProjectFiles.Project.GetFileMatchingSource | src/Frontend/MainFrame.cpp:6031-6048 | Returns the first unbound file of that name, or none. |
| ProjectFiles.Project.AddTemporaryFile | src/Frontend/Project.cpp:338-357 | Appends one fresh temporary file bound to the script, without breakpoints. |
| ProjectFiles.Project.CleanUpAfterSession | src/Frontend/Project.cpp:407-415 | Unbinds every file and changes nothing else. |
| ProjectFiles.Project.SetBreakpoint | src/Frontend/Project.cpp:447-484 | Sets or clears the line in every file bound to the script; the user settings are marked unsaved exactly if a file that is saved did change. |
| ProjectFiles.Project.ToggleBreakpoint | src/Frontend/Project.cpp:486-512 | Toggles the line in one file and tells whether it is set now. |
| ProjectFiles.Project.RemoveFile | src/Frontend/Project.cpp:382-405 | Erases exactly that file from the table; project and user settings are marked unsaved unless it was temporary. |
| ProjectFiles.Project.CleanUpTemporaryFiles | src/Frontend/MainFrame.cpp:5389-5415 | Collecting and then removing leaves exactly the files that are not temporary or are open, in order. |
| ProjectFiles.Project.EndSession | src/Frontend/MainFrame.cpp:2820-2821 | What a session's end does to the file table. |
| Reload.FlippedIsToggled | src/LuaInject/DebugBackend.cpp:98-113 | The back end's list, seen as a set, is flipped by its toggle. |
| Reload.SentOfParts | src/Frontend/MainFrame.cpp:1888-1904 | Breakpoint by breakpoint, an old line is sent for each that has one, in order, and for no other. |
| Reload.DistinctTogglesSet | src/LuaInject/DebugBackend.cpp:1258-1315 | Toggles of different lines all set, so the front end sets the lines their echoes are mapped to, one after the other. |
| Reload.ReloadKeepsMappedIff | src/Frontend/MainFrame.cpp:1874-1934 | For any maps, one for the toggles and one for each echo: distinct breakpoints that ask for different old lines are restored, those with an old line in order and nothing else, if and only if each echo's map takes its line back. |
| Reload.ReloadIsImage | src/Frontend/MainFrame.cpp:1874-1934 | And in any case: the lines with a breakpoint afterwards are the images of the old lines that were sent. |
| Reload.ReloadWithoutDiffIff | src/Frontend/MainFrame.cpp:1847-1853 | A script that was not diffed at its load keeps the whole list if and only if line 65535 is not in it and the map that is found from some echo on takes each later breakpoint to itself. |
| ReloadLaws.SentIsDistinct | src/Frontend/MainFrame.cpp:1885-1896 | Distinct breakpoints inside the file ask for different old lines. |
| ReloadLaws.ComesBackIff | src/Frontend/MainFrame.cpp:2418-2459 | A breakpoint sent through the file's map comes back as itself through the editor's if and only if its line has the same old line in both texts. |
| ReloadLaws.ReloadIsExactIff | src/Frontend/MainFrame.cpp:1874-1934 | Three texts, of the script, on disk and in the editor, and a diff with the last made before any one of the echoes: distinct breakpoints inside the file are restored if and only if each whose echo comes later has the same old line on disk and in the editor. |
| ReloadLaws.ReloadIsExact | src/Frontend/MainFrame.cpp:1874-1934 | So they are always restored when the lines in the editor are those on disk, or the file is not open. |
| ReloadLaws.BreakpointCanMove | src/Frontend/MainFrame.cpp:2437-2459 | A concrete script, file and editor text, on which the diff stays inside its vectors, with which a breakpoint comes back on another line. |
| ReloadLaws.ReloadKeepsSetIff | src/Frontend/MainFrame.cpp:1874-1934 | As sets, too: with the diff made before any one of the echoes, the same lines carry breakpoints if and only if each whose echo comes later has the same old line in both texts, since diffs keep the order of lines. |
| ReloadLaws.EchoKeepsMirror | src/LuaInject/DebugBackend.cpp:1258-1315 | A toggle, its echo and the front end's answer keep the file's list and the back end's in step. |
| ReloadLaws.BackendParity | src/LuaInject/DebugBackend.cpp:98-113 | A line is set in the back end afterwards if and only if an odd number of toggles hit it (even, if it was set). |
| ReloadLaws.ReloadFollowsLastEcho | src/Frontend/MainFrame.cpp:1874-1934 | For any list, any maps and a change of maps before any echo: a line carries a breakpoint afterwards if and only if the last echo that was mapped to it is of a toggle that is its old line's first, third or so on. |
| ReloadLaws.ReloadParity | src/Frontend/MainFrame.cpp:1874-1934 | For any list at all, also with duplicates and past the end: a line of the editor's text carries a breakpoint afterwards if and only if it is matched and an odd number of the old ones asked for its old line; outside that text only line 65535 can, and it does if and only if the last echo of an old line that the text does not match set it. |
| ReloadLaws.ReloadOfDistinct | src/Frontend/MainFrame.cpp:1874-1934 | For a duplicate-free list and one map: the survivors, and how the breakpoints past the end flip the last line. |
| ReloadLaws.PastEndIsHarmlessIff | src/Frontend/LineMapper.cpp:51-54 | The reload then keeps exactly the matched breakpoints inside the text if and only if the last line is unmatched or an even number of breakpoints lies past it. |
| ReloadLaws.PastEndCanFlipLast | src/Frontend/LineMapper.cpp:51-54 | A concrete list on an unchanged text that loses the breakpoint on its last line. |
| ReloadLaws.ReloadOfEmptySource | src/Frontend/LineMapper.cpp:115-122 | A script without source sends every breakpoint as old line 0: one breakpoint on line 0 is left if their number is odd, none if it is even. |
| ReloadLaws.ReloadOfEmptySourceIsExactIff | src/LuaInject/DebugBackend.cpp:584-587 | So the list is kept if and only if it is empty or just line 0. |
| ReloadLaws.EmptySourceCanLoseAll | src/LuaInject/DebugBackend.cpp:654-666 | Two concrete breakpoints that are gone. |
| ReloadLaws.ReloadToEmptyText | src/Frontend/LineMapper.cpp:124-131 | With an empty text at the echoes everything comes back on line 0, which is set if the old line sent last was sent an odd number of times. |
| ReloadLaws.ReloadOfDistinctToEmptyText | src/Frontend/LineMapper.cpp:124-131 | For distinct old lines it is set if anything was sent. |
| ReloadRun.StepKeepsFile | src/Frontend/MainFrame.cpp:1825-1935 | A step that neither ends the session nor takes the file away nor edits its breakpoints leaves them alone, or, if it handles an echo for the script, changes them by that echo through the script's map after the step. |
| ReloadRun.EchoesReachFile | src/Frontend/MainFrame.cpp:1916-1934 | Over any interleaved run of such steps the file's breakpoints change by the echoes alone, each through the map it finds. |
| ReloadRun.MapsSwitchOnce | src/Frontend/MainFrame.cpp:2437-2459 | If every diff made for the script on the way ends in one map, the echoes find the earlier map up to some point and that one from then on. |
| ReloadRun.LoadScriptReloads | src/Frontend/MainFrame.cpp:1833-1934 | For any maps, from the LoadScript event to the last echo, with other events and steps in between: the toggles and one LoadDone are sent, and the file ends up with what the reload makes of its breakpoints. |
| ReloadRun.LoadScriptRestoresBreakpointsIff | src/Frontend/MainFrame.cpp:1833-1934 | End to end over every such run: the breakpoints are restored if and only if, from the first echo that finds the editor's map on, each has the same old line on disk and in the editor. |
| ReloadRun.LoadScriptRestoresBreakpoints | src/Frontend/MainFrame.cpp:1833-1934 | In particular when the lines in the editor are those on disk, or the file is not open. |
| MirrorRun.ServeKeepsMirror | src/LuaInject/DebugBackend.cpp:1258-1315 | When the back end takes a command, the answers under way still lead from what the editor shows to what the back end has set. |
| MirrorRun.UnderWayAfter | src/Frontend/DebugFrontend.cpp:567-637 | Reading, posting and every other step but the handling of an answer leave the answers under way as they are, in order. |
| MirrorRun.EchoShows | src/Frontend/MainFrame.cpp:1916-1934 | Handling an answer brings the editor one toggle on. |
| MirrorRun.PressShows | src/Frontend/MainFrame.cpp:4815-4820 | A toggle of a line without an old line changes no matched line. |
| MirrorRun.SwitchKeepsMirrorIff | src/Frontend/MainFrame.cpp:2437-2459 | A list that shows the back end through the map of the file on disk shows it through that of the text in the editor, whatever is set, if and only if every line that is matched in the editor has the same old line on disk. |
| MirrorRun.WorldStepKeepsInv | src/Frontend/MainFrame.cpp:1825-1935 | Every step of the back end, of either thread and of the user, toggles included, that edits nothing keeps this, also the one that makes the diff with the editor's text. |
| MirrorRun.EditorMirrorsBackend | src/Frontend/MainFrame.cpp:1874-1934 | Over every run of such steps, wherever on it that diff is made, if its matched lines have the same old lines as on disk: once no answer is under way, each matched line carries a breakpoint in the editor if and only if its old line is set in the back end. |
| MirrorRun.RunKeepsQuiet | src/Frontend/DebugFrontend.cpp:567-637 | Over every run from an idle front end, through any number of sessions: of a script that the session has not loaded yet, no toggle and no answer is on its way and nothing is set. |
| MirrorRun.LoadScriptStartsMirror | src/Frontend/MainFrame.cpp:1833-1904 | So when the script is loaded and its file found by name, the two sides agree, whatever breakpoints the file holds. |
| MirrorRun.EditorMirrorsFromStart | src/Frontend/MainFrame.cpp:1825-1935 | The whole: after any run from an idle front end, the loading of a script, and any run without edits, the editor shows on those lines what the back end has set as soon as no answer is under way. |
| PressRun.RunContinues | src/LuaInject/DebugBackend.cpp:1258-1315 | Over every run without edits the commands only grow, and the lines the back end has set follow from those it has taken. |
| PressRun.AgreesAtRest | src/Frontend/MainFrame.cpp:1916-1934 | Both sides agree about a matched line for which no answer is under way, whatever else is. |
| PressRun.LineFollowsToggles | src/Frontend/MainFrame.cpp:4783-4828 | A line that is at rest at the end of such a run has changed, in the editor and in the back end, if and only if an odd number of toggles of it was made or was still to be taken. |
| PressRun.PressFlipsBoth | src/Frontend/MainFrame.cpp:4783-4828 | So once the user has toggled a matched line, and its answer has been handled with no other toggle of it made since, its breakpoint has come or gone on both sides. |
| DebugSessionLaws.ReadKeepsInv | src/Frontend/DebugFrontend.cpp:502-629 | Reading a message keeps the session invariant. |
| DebugSessionLaws.LoadScriptKeepsInv | src/Frontend/MainFrame.cpp:1833-1904 | Handling a LoadScript event keeps the session invariant. |
| DebugSessionLaws.SetBreakpointKeepsInv | src/Frontend/MainFrame.cpp:1916-1934 | Handling a SetBreakpoint event keeps the session invariant. |
| DebugSessionLaws.PressKeepsInv | src/Frontend/MainFrame.cpp:4799-4828 | The user's toggle of a breakpoint does, through the back end or in the editor alone. |
| DebugSessionLaws.SessionEndKeepsInv | src/Frontend/MainFrame.cpp:2808-2835 | At SessionEnd nothing else is pending and every script is handled; afterwards no file is bound. |
| DebugSessionLaws.StepKeepsInv | src/Frontend/DebugFrontend.cpp:497-662 | Every step of the event thread, the UI and the user keeps the invariant. |
| DebugSessionLaws.RunKeepsInv | src/Frontend/DebugFrontend.cpp:497-662 | So does every interleaving of them, over any number of sessions. |
| DebugSessionLaws.IndicesAreHandled | src/Frontend/Project.cpp:338-357 | In every state of every run a file's script index is that of a script that was announced and handled. |
| DebugSessionLaws.IndicesAreDistinct | src/Frontend/Project.cpp:338-357 | And no two files have the same. |
| DebugSessionLaws.EveryLoadIsAnsweredOnce | src/Frontend/MainFrame.cpp:1900-1901 | In every state of every run: LoadDones sent + LoadScript events pending = scripts announced. |
| DebugSessionLaws.AssertionNeverFails | src/Frontend/MainFrame.cpp:1865-1868 | A handled LoadScript carries the next unhandled index, no file is bound to it, and the file found by name is unbound. |
| DebugSessionLaws.EventsFindTheirFileIff | src/Frontend/MainFrame.cpp:2637-2645 | In every state of every run, for every script that the next event names, each stack frame included: it has a file if and only if that file was not removed and the project not replaced during the session. |
| DebugSessionLaws.HandlerFailsIff | src/Frontend/MainFrame.cpp:2418-2421 | So the handler of the next event meets a null file if and only if the event names a script that has lost its file. |
| DebugSessionLaws.RemovalCanFail | src/Frontend/MainFrame.cpp:5034-5045 | A concrete run of seven steps that ends before such an event: a file is removed before an echo for its script is handled. |
| DebugSessionLaws.FifoSafety | src/Frontend/MainFrame.cpp:2637-2770 | While neither happens, every script that a handled event names has a file. |
| DebugSessionLaws.SessionEndIsLast | src/Frontend/DebugFrontend.cpp:639-644 | SessionEnd is handled after every other event of its session, when the thread has ended. |
| DebugSessionLaws.StartIsClean | src/Frontend/MainFrame.cpp:2820-2824 | A session starts with no event, script or binding left of the one before. |
| HandlerLaws.LoadBindsByName | src/Frontend/MainFrame.cpp:1840-1872 | A loaded script is bound to the first unbound file of its name, which gives up its breakpoints; if there is none, to one new temporary file. No other file changes. |
| HandlerLaws.LoadDiffsByName | src/Frontend/MainFrame.cpp:1840-1851 | A file found by name is diffed with its script, if it can be; no other script changes. |
| HandlerLaws.LoadSendsBreakpoints | src/Frontend/MainFrame.cpp:1874-1904 | The back end is sent a toggle for each breakpoint of that file that has an old line, in order, and then a LoadDone. |
| HandlerLaws.RunsBindByName | src/Frontend/MainFrame.cpp:1833-1872 | So it is in every run: no script is ever bound to a file of another name. |
| HandlerLaws.PressFlipsList | src/Frontend/MainFrame.cpp:4815-4820 | A line without an old line, or of an unbound file, is toggled in that file's list and nowhere else, and nothing is sent. |
| HandlerLaws.PressSends | src/Frontend/MainFrame.cpp:4795-4813 | Any other line is sent to the back end under its old number, and no list changes. |
| HandlerLaws.PressKeepsRest | src/Frontend/MainFrame.cpp:4783-4828 | Either way the rest of the session stays, but for the diff that the look up makes. |
| HandlerLaws.EchoPutsLine | src/Frontend/MainFrame.cpp:1916-1934 | An answer of the back end sets or clears the line that the script's map gives in the file of the script, and changes nothing else. |
| HandlerLaws.BreakOpensTop | src/Frontend/MainFrame.cpp:2686-2776 | A break opens the file of the topmost frame that is in a script, and no other. |
| HandlerLaws.BreakDiffsFrames | src/Frontend/MainFrame.cpp:2686-2776 | The scripts on the stack get the maps of the diffs made for them, and no other script changes. |
| HandlerLaws.SessionEndKeepsFiles | src/Frontend/MainFrame.cpp:2820-2821 | The end of a session keeps exactly the files that are open or not temporary, in order and with their breakpoints, and unbinds them. |
| HandlerLaws.ReadTells | src/Frontend/DebugFrontend.cpp:502-629 | Which event each message becomes, and what else reading it changes: a break carries its frames and stops the program, a loaded script is appended. |
| HandlerLaws.EventsAreHandledInOrder | src/Frontend/DebugFrontend.cpp:497-646 | Over every run the events handled and those pending are, in order, those that the messages became: none is lost, made up, doubled or overtaken. |
| Debugger.MainFrame.constructor | src/Frontend/DebugFrontend.cpp:48-55 | The initial state: no session, nothing queued, no file bound. |
| Debugger.MainFrame.OnMessage | src/Frontend/DebugFrontend.cpp:502-637 | One turn of the read loop is the read step and the post step of the protocol. |
| Debugger.ThreadTakesSteps | src/Frontend/DebugFrontend.cpp:497-646 | The loop's turns are steps of the protocol that can be taken in their order, provided the back end names only announced scripts. |
| Debugger.ThreadKeepsInv | src/Frontend/DebugFrontend.cpp:497-646 | So the loop keeps the invariant. |
| Debugger.MainFrame.EventThreadProc | src/Frontend/DebugFrontend.cpp:497-646 | The whole loop takes these steps for every message in turn and ends by posting SessionEnd, with the invariant kept. |
| Debugger.MainFrame.OnLoadScript | src/Frontend/MainFrame.cpp:1833-1904 | The handler, over the mutable file table, takes exactly the LoadScript step, breakpoints and commands included. |
| Debugger.MainFrame.BindFile | src/Frontend/MainFrame.cpp:1855-1884 | The found file, or a new temporary one, is bound and gives up its breakpoints; no other file changes. |
| Debugger.MainFrame.FindFile | src/Frontend/MainFrame.cpp:1838-1853 | The file bound to the script, else the unbound one of its name, which alone is diffed. |
| Debugger.MainFrame.TakeBreakpoints | src/Frontend/MainFrame.cpp:1879-1884 | Copies and clears the breakpoints of one file and binds it. |
| Debugger.MainFrame.SendBreakpoints | src/Frontend/MainFrame.cpp:1885-1896 | One toggle per breakpoint that has an old line, in order. |
| Debugger.MainFrame.Answer | src/Frontend/MainFrame.cpp:1885-1901 | The toggles, then one LoadDone. |
| Debugger.MainFrame.OnSetBreakpoint | src/Frontend/MainFrame.cpp:1916-1934 | Given that the script has a file, the handler finds it and takes exactly the SetBreakpoint step. |
| Debugger.MainFrame.UpdateLineMapping | src/Frontend/MainFrame.cpp:2437-2459 | A diff made on the way replaces the maps of that script alone. |
| Debugger.MainFrame.FindTopScript | src/Frontend/MainFrame.cpp:2704-2739 | The search down the stack finds the topmost frame that is in a script. |
| Debugger.MainFrame.LookUpFrames | src/Frontend/MainFrame.cpp:2746-2770 | The loop over the stack makes the diffs of the frames' scripts. |
| Debugger.MainFrame.OpenScript | src/Frontend/MainFrame.cpp:2637-2645 | Its assertion holds, given that the script has a file; that file is shown and nothing else changes. |
| Debugger.MainFrame.OnBreak | src/Frontend/MainFrame.cpp:2686-2776 | Given that the scripts of all frames have files, the handler opens the topmost one, makes the diffs that its look ups make, and changes nothing else. |
| Debugger.MainFrame.OnSessionEnd | src/Frontend/MainFrame.cpp:2808-2835 | The handler takes exactly the SessionEnd step. |
| Debugger.MainFrame.ToggleBreakpoint | src/Frontend/MainFrame.cpp:4783-4828 | The user's toggle sends a command if the line exists in the back end and changes the file's list if not. |
| Debugger.MainFrame.Dispatch | src/Frontend/MainFrame.cpp:1831-1935 | Each event goes to its handler, which takes the protocol's step for it. |
| Debugger.MainFrame.OnDebugEvent | src/Frontend/MainFrame.cpp:1825-1935 | For any queued event that names no script which has lost its file, the handler takes the protocol's step, meets no null file and keeps the invariant. |
| TabOrder.TabSwitcher.SetMostRecentlyUsedPage | src/Frontend/MainFrame.cpp:1767-1794 | The pushing pass leaves [p] followed by the old order without p, and does nothing while paging. |
| TabOrder.TabSwitcher.RemovePageFromTabOrder | src/Frontend/MainFrame.cpp:1796-1823 | The compaction pass leaves the old order without p, larger indices lowered, whether p is there or not; its assertion holds. |
| TabOrder.TabSwitcher.SetSelection | src/Frontend/MainFrame.cpp:2113-2137 | A change of selection makes the page the most recent. |
| TabOrder.TabSwitcher.OnWindowNextDocument | src/Frontend/MainFrame.cpp:1606-1630 | The handler moves the cursor one place on around the order, or to the next page. |
| TabOrder.TabSwitcher.OnWindowPreviousDocument | src/Frontend/MainFrame.cpp:1632-1656 | The handler steps back, at index 0 through the unsigned modulus. |
| TabOrder.TabSwitcher.OnIdle | src/Frontend/MainFrame.cpp:3186-3191 | With Ctrl released paging ends and the page it stopped at becomes the most recent. |
| TabOrder.TabSwitcher.OpenProjectFile | src/Frontend/MainFrame.cpp:4291-4404 | Opening cancels paging and selects the page of the file, a new last page if it had none; if there is nothing to open it only cancels paging. |
| TabOrder.TabSwitcher.ClosePage | src/Frontend/MainFrame.cpp:5932-5955 | Closing removes the page and renumbers the rest. |
| TabOrder.TabSwitcher.DeletePage | src/Frontend/MainFrame.cpp:4408-4420 | Deleting a file lets the notebook select first, looks the selected page up under the number it has while the deleted file is still listed, and removes the deleted page from the order after that. |
| TabOrder.PromotedKeepsPermutation | src/Frontend/MainFrame.cpp:1767-1794 | Making a page most recent keeps the order a permutation of the pages. |
| TabOrder.ClosedKeepsPermutation | src/Frontend/MainFrame.cpp:1796-1823 | Closing one page of n leaves a permutation of 0 to n - 2. |
| TabOrder.StepKeepsInv | src/Frontend/MainFrame.cpp:1767-1823 | Every open, selection, press, release, close and deletion keeps the order a permutation of the open pages. |
| TabOrder.RunsKeepPermutation | src/Frontend/MainFrame.cpp:1767-1823 | So does every run of them: a page index is in the order if and only if the page is open, and once. |
| TabOrder.OpeningAddsInFront | src/Frontend/MainFrame.cpp:4291-4404 | A new file gets the last page, is selected and comes first, before the others in their order. |
| TabOrder.SelectingPromotes | src/Frontend/MainFrame.cpp:1767-1794 | Selecting another page, or opening its file, shows it and puts it in front of the others in their order, unless somebody pages. |
| TabOrder.ClosingTakesOut | src/Frontend/MainFrame.cpp:1796-1823 | Closing takes the page out of the order, lowers the numbers above it, keeps the rest in order and puts the page selected then in front. |
| TabOrder.CloseKeepsFront | src/Frontend/MainFrame.cpp:4639-4650 | Whatever page the notebook selects when one is closed, it is the most recent one of the order that is left. |
| TabOrder.PromotedClosed | src/Frontend/MainFrame.cpp:4408-4420 | Promoting a page under its old number and then taking another page out gives the order that one gets the other way round, with the new number. |
| TabOrder.DeletingIsClosing | src/Frontend/MainFrame.cpp:4408-4420 | So deleting a file from the project leaves the same tabs as closing its page, whichever page is selected then. |
| TabOrder.DeleteKeepsFront | src/Frontend/MainFrame.cpp:4408-4420 | Deleting a file always leaves the selected page the most recent. |
| TabOrder.StepKeepsFrontIff | src/Frontend/MainFrame.cpp:1767-1823 | For every step: whether it leaves the selected page the most recent while nobody pages, by a condition on the step and the state before it. |
| TabOrder.RunsKeepFront | src/Frontend/MainFrame.cpp:1767-1823 | Over every run of steps that meet the condition the selected page is the most recent whenever nobody pages. |
| TabOrder.ReopenCanLeaveFront | src/Frontend/MainFrame.cpp:4294-4304 | Concrete tabs on which opening the file one has paged to leaves another page in front. |
| TabOrder.PressesSelect | src/Frontend/MainFrame.cpp:1606-1630 | From rest, k presses of Next leave the order untouched and select its (k mod n)-th page. |
| TabOrder.PressMovesCursor | src/Frontend/MainFrame.cpp:1606-1656 | Next and Previous move the cursor by one place, Previous from the front through the largest unsigned number, select the page there and leave the order alone. |
| TabOrder.PreviousTakesBackNext | src/Frontend/MainFrame.cpp:1606-1656 | Previous after Next goes back to where one was, but for the wrap, and there if and only if the page count divides 2^32. |
| TabOrder.PressSelectsNeighbour | src/Frontend/MainFrame.cpp:1606-1656 | Without the most-recently-used order they select the next page and the one before, around the notebook. |
| TabOrder.NeighboursReturn | src/Frontend/MainFrame.cpp:1606-1656 | And Previous always takes back Next. |
| TabOrder.CycleAndRelease | src/Frontend/MainFrame.cpp:3186-3191 | Releasing Ctrl then moves exactly that page to the front and keeps the relative order of the others. |
| TabOrder.SwitchExchanges | src/Frontend/MainFrame.cpp:1606-1630 | One press and release exchanges the two most recent pages. |
| TabOrder.TwoSwitchesReturn | src/Frontend/MainFrame.cpp:1606-1630 | Doing it twice restores the order and the selection. |
| TabOrder.PreviousWrapsIff | src/Frontend/MainFrame.cpp:1646 | Previous from the front of the order reaches its last page exactly when the number of pages divides 2^32. |
| TabOrder.PreviousUndoesNext | src/Frontend/MainFrame.cpp:1620-1646 | Previous undoes Next everywhere but at the wrap, and there exactly in that case. |
| TabOrder.PreviousCanStay | src/Frontend/MainFrame.cpp:1646 | With three pages it does not. |
| StatusRefresh.Deduplicated | src/Frontend/FileStatusThread.cpp:41-43 | Sorting and deduplicating neither loses nor invents a name. |
| StatusRefresh.DeduplicatedAscends | src/Frontend/FileStatusThread.cpp:41-43 | The names come out strictly ascending, so each once. |
| StatusRefresh.DeduplicatedDependsOnSet | src/Frontend/FileStatusThread.cpp:41-43 | Two requests are alike to the worker if and only if they name the same set of files. |
| StatusRefresh.RequestKeepsInv | src/Frontend/MainFrame.cpp:5610-5644 | A request keeps the slots' discipline and forgets no request. |
| StatusRefresh.FinishKeepsInv | src/Frontend/FileStatusThread.cpp:38-61 | So does the end of a worker, which answers all the requests it carries. |
| StatusRefresh.FinishHandsOn | src/Frontend/FileStatusThread.cpp:38-61 | A finished worker holds each of its names once and in ascending order if the status was obtained, and none if not. |
| StatusRefresh.ExitKeepsInv | src/Frontend/MainFrame.cpp:5113-5159 | So does the handling of an exit event, which starts the waiting worker. |
| StatusRefresh.StepKeepsInv | src/Frontend/MainFrame.cpp:5113-5159 | Every step keeps the invariant. |
| StatusRefresh.RefreshIsSafe | src/Frontend/MainFrame.cpp:5610-5644 | In every reachable state: slot 1 only if slot 0, only slot 0 started, at most one exit event and it is slot 0's, and every request is answered by a worker started after it or still carried. |
| StatusRefresh.ExitFindsItsWorker | src/Frontend/MainFrame.cpp:5120-5148 | An exit event always finds its finished worker in slot 0. |
| StatusRefresh.StartedWorkersAreClosed | src/Frontend/MainFrame.cpp:5616-5634 | No name is added to a worker that has been started; a new request goes whole to the one that waits. |
| StatusRefresh.NeverStuck | src/Frontend/MainFrame.cpp:5146-5157 | While a slot is occupied some step other than a request is possible. |
| StatusRefresh.QuietRunDrains | src/Frontend/MainFrame.cpp:5146-5157 | Without new requests at most two exits and four steps happen, each exit frees a slot, and when nothing more can happen both are empty and every request is answered. |
| StatusRefresh.FileStatusThread.constructor | src/Frontend/FileStatusThread.cpp:28-31 | A new worker has no names and is not started. |
| StatusRefresh.FileStatusThread.AddFileName | src/Frontend/FileStatusThread.cpp:33-36 | Appends one name. |
| StatusRefresh.FileStatusThread.Run | src/Frontend/MainFrame.cpp:5155-5156 | The worker is started, at the current time. |
| StatusRefresh.StatusRefresher.constructor | src/Frontend/MainFrame.cpp:471 | Both slots start out empty. |
| StatusRefresh.StatusRefresher.UpdateProjectFileStatus | src/Frontend/MainFrame.cpp:5610-5644 | The method over the two slots takes exactly the request step, or none if source control is not initialized. |
| StatusRefresh.StatusRefresher.AddFileNames | src/Frontend/MainFrame.cpp:5630-5634 | The loop adds every name, in order. |
| StatusRefresh.StatusRefresher.Entry | src/Frontend/FileStatusThread.cpp:38-61 | The thread's body takes exactly the finishing step. |
| StatusRefresh.StatusRefresher.OnThreadExit | src/Frontend/MainFrame.cpp:5143-5157 | The method over the two slots takes exactly the exit step. |
| CommentBlock.FirstNonWhitespaceMeans | src/Frontend/CodeEdit.cpp:418-431 | The character found is not white space and all before it are; if none is found, all are. |
| CommentBlock.MinIndentationIsAttained | src/Frontend/CodeEdit.cpp:320-333 | The common column is the indentation of some line that is not blank, unless it is cut off at INT_MAX; that no line is indented less is the contract of MinIndentation. |
| CommentBlock.MinIndentation | src/Frontend/CodeEdit.cpp:320-333 | No line that is not blank is indented less. |
| CommentBlock.MarkersAlign | src/Frontend/CodeEdit.cpp:335-350 | The markers of a commented block stand in one column, and a further comment uses it again. |
| CommentBlock.UncommentUndoesCommentIff | src/Frontend/CodeEdit.cpp:310-416 | Uncommenting a commented block gives it back, blank and already commented lines included, if and only if the marker does not begin with white space, is empty, or all lines are blank. |
| CommentBlock.SplitKeepsText | src/Frontend/CodeEdit.cpp:338-352 | The lines of a text, put together, are the text. |
| CommentBlock.SplitJoined | src/Frontend/CodeEdit.cpp:338-352 | Well-formed lines, put together and split, are the same lines. |
| CommentBlock.ReplacedLines | src/Frontend/CodeEdit.cpp:354-361 | Replacing text from line start to line start replaces those lines, and selects what replaces them. |
| CommentBlock.PressedShows | src/Frontend/CodeEdit.cpp:310-416 | A command changes the selected lines, and the selection it leaves touches exactly those lines again. |
| CommentBlock.FirstComment | src/Frontend/CodeEdit.cpp:314-361 | The first comment does so for any selection, leaving out an empty last line of the document. |
| CommentBlock.UncommentsUndoComments | src/Frontend/CodeEdit.cpp:310-416 | On any text with any selection, n comments followed by n uncomments give back the text, for every n. |
| CommentBlock.LuaUncommentsUndoComments | src/Frontend/CodeEdit.cpp:300-376 | In particular with the marker of Lua comments, the only one the editor uses. |
| CommentBlock.UncommentTakesMarker | src/Frontend/CodeEdit.cpp:391-398 | Exactly the characters of the marker are taken out where it comes first on the line, and any other line is left as it is. |
| CommentBlock.UncommentMeans | src/Frontend/CodeEdit.cpp:378-416 | Line by line, what uncommenting makes of any document: the lines touched by the selection lose a marker that comes first on them, the others stay, and the lines touched are selected. |
| CommentBlock.CommentMeans | src/Frontend/CodeEdit.cpp:310-364 | The same for commenting: the marker goes into each touched line that is not blank, all in the column of the smallest indentation of them. |
| CommentBlock.CodeEdit.GetFirstNonWhitespace | src/Frontend/CodeEdit.cpp:418-431 | The scan loop returns the first index that is not white space, or -1. |
| CommentBlock.CodeEdit.GetMinIndentation | src/Frontend/CodeEdit.cpp:320-333 | The first loop computes the smallest indentation of the selected lines that are not blank. |
| CommentBlock.CodeEdit.InsertComment | src/Frontend/CodeEdit.cpp:341-348 | The marker is inserted at the common column of a line that is not blank. |
| CommentBlock.CodeEdit.InsertComments | src/Frontend/CodeEdit.cpp:335-352 | The second loop puts together the commented lines. |
| CommentBlock.CodeEdit.EraseComment | src/Frontend/CodeEdit.cpp:391-398 | The marker is erased where it is the first thing on the line. |
| CommentBlock.CodeEdit.EraseComments | src/Frontend/CodeEdit.cpp:386-402 | The loop puts together the uncommented lines. |
| CommentBlock.CodeEdit.ReplaceLines | src/Frontend/CodeEdit.cpp:354-361 | The text of the lines is replaced and selected. |
| CommentBlock.CodeEdit.CommentSelection | src/Frontend/CodeEdit.cpp:310-364 | The method takes the whole document, text and selection, to the one the commands' model says. |
| CommentBlock.CodeEdit.UncommentSelection | src/Frontend/CodeEdit.cpp:378-416 | The same for uncommenting. |

## Left out

- The race on `m_stackFrames`: the vector is shared without the lock, and a second break can overwrite it before the
  first is handled. The event carries the frames it was read with.
- The call stack list and the lines shown in it.
- Markers in the editor, their colours and the breakpoints window: only `file->breakpoints` is modelled.
- The end of a session clears the list of virtual machines, closes handles and changes the mode; none of this touches
  the file table.
- Threads as such: the critical section around `m_scripts`, and the memory that a script object occupies after
  `Shutdown`. The protocol's steps are taken to be atomic.
- `fileId`, symbols and types of files: bookkeeping without a law of its own.
- A break in a script whose file cannot be shown: the protocol's break always opens the file.
- Of the user's steps of the session protocol only the toggle has a method in `Debugger`; what continuing, adding,
  editing, closing and removing files do to the file table is in `ProjectFiles`.
- Deleting all breakpoints at once.
- Replacing the project during a session is modelled as replacing the file table; the dialogs around it are not.
- What `OnThreadExit` does with the statuses it gets, and the refresh of a single file: a lookup per file.
- The overloads of the comment commands that only check that the document is Lua.
- Line ends other than a single newline, a comment marker that contains a newline, and the conversion between bytes and
  characters.
- `XML` save and load, settings and key bindings, process control, injection, dialogs and painting.
- `GetFileMatchingSource` never looks at the source it is given, so the source is not part of the model.
- `StringHistory`, `Untabify`, `AutoCompleteManager` and `MakeValidFileName`: easy and of no consequence for the above.
- LineMapping.LineMapper.Update: asks for at most 65534 lines a side, the limit of the 16-bit vectors; beyond it indices
  wrap around in the code, which is not modelled.
- LineMapping.LineMapper.Diff: asks for the same.
- LineMapping.LineMapper.TrimTail: its ends are exclusive; where the code's unsigned inclusive ends read below index 0
  is the subject of `LineMapLaws.TailTrimStaysInRangeIff`, and what the program does after such a read is not
  modelled.
- LineMapping.LineMapper.MatchHead: skips the write outside `m_newToOld`; when there is one is the subject of
  `LineMapLaws.HeadCopyStaysInRangeIff`, and what the program does after such a write is not modelled.
- MirrorRun.LoadScriptStartsMirror: the script's file is found by name and diffed at the load; a script whose file had to
  be made from its own source has empty maps until a diff is made, which `Reload.ReloadWithoutDiffIff` is about.
- ProjectFiles.Project.RemoveFile: the file is erased from the table; that it and its symbols are freed is not modelled.
- TabOrder.TabSwitcher.RemovePageFromTabOrder: asks for an order without duplicates, which
  `TabOrder.RunsKeepPermutation` shows it always is; with a page in it twice the code's own assertion can fail.
