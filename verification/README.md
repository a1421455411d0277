# Verified models of the load generator's parts

The repository drives load against a database: a web application whose query editor is CodeMirror, a
configuration read and written with a YAML library, and Python workers that draw queries at random and
count them. This project models the parts where most can go wrong and proves what they are there for.

- **The document engine of the editor** (`Rope`, `Lines`, `Document`, `Undo`, `Texts`, `Edits`, `Editing`,
  `Display`). Lines live in a tree of chunks with cached sizes, heights and parent pointers, modelled as
  objects that are changed in place. The tree is proved to be the plain list of lines, through all splits
  up to the root and all collapses. Edits are one splice of the joined text and keep the line objects they
  should, the undo history leads back through the texts that were there, and the display ends up with one node for each line of its window.
- **The YAML emitter** (`Utf8`, `Output`, `Quoted`, `SingleQuoted`, `Scalars`, `Machine`, `Queue`,
  `Emitting`). Characters go through a buffer of 128 bytes to a writer that may fail at any time. Quoted
  scalars read back as the text that was written, where reading is stated after sections 5.6, 9.1.1 and
  9.1.2 of YAML 1.1, and stay on one line where they must. The state machine accepts exactly the event grammar, and its queue never holds back
  the end of a stream.
- **The YAML reader and decoder** (`Reader`, `Aliases`, `Meaning`, `Documents`, `Transparency`). Input that comes in
  pieces of any size is checked against section 3 of RFC 3629 and delivered whole. Documents with aliases,
  which may lead back to themselves, are decoded to what their unfolding means, said without the order of
  reading, and it is said exactly when aliases may be replaced by what they stand for.
- **Choosing and counting queries** (`QueryTable`, `Polling`), in exact numbers and as steps in any order.

## How to read it

Heap structures are proved by way of values. A `Picture` maps each chunk to a `Cell`, a copy of its fields;
`Shows(m)` says that the heap looks like the picture. Each method that changes the tree says which picture
it leads to, and the laws of the tree are lemmas about pictures. `Chunk.content` and `Chunk.tall` are ghost
fields that say what a chunk stands for. `Document.Doc` hides all this: its `Valid()` is the shape of the
tree (caches, parent pointers, leaves of at most 50 lines, branches of 1 to 10 children), and its
`Content()` is the plain list.

`Undo.Session` is a text with its history and, for each set on either stack, the text that it leads back
to. `Editing.Editor` ties a session to a document and to the source's history object, so that the laws of
sessions hold of the editor. The clock is a parameter of every edit.

Bytes are numbers from 0 to 255, and masks on them are written as comparisons and remainders. The read and
write handlers are objects that decide for themselves how much they read and when they fail; a read handler
may come back with nothing only a finite number of times. JavaScript's two chunk prototypes are one class
with a flag, which is the source's own test for the `lines` field.

## What was found

- `lineAtHeight` and `heightAtLine` go back and forth only up to lines of height zero; the exact rule is
  `Lines.LineToHeightAndBack`.
- k undos and k redos do not restore the state when there are fewer than k sets to undo and some to redo:
  then the redos go further than the undos came from (`Undo.UndosThenRedos`, `Undo.UndoThenRedoGoesFurther`).
- A single-quoted scalar at the left margin may not read back; `SingleQuoted.WriteSingleQuoted` says exactly
  when. The emitter always indents a scalar before it writes it, so this does not come up
  (`Machine.ScalarsOffMargin`, `Emitting.Emitter.EmitScalar`).
- The reader looks at the later bytes of a character only when all of them are there. Until then it may hold
  on to bytes that no continuation makes UTF-8 (`Reader.WaitsInVain`); it never takes them for a character,
  and it refuses them in time (`Reader.NoticedInTime`).
- `is_bom` looks at the beginning of the text, not at the place it is given. A text that begins with a byte
  order mark has every character escaped; it reads back all the same.
- Aliases may not be replaced by what they stand for in two places: as a merge key, and as a sequence of
  mappings to merge, unless that could not be read anyway. Everywhere else they may (`Transparency.TransparentIff`;
  the inputs are in `Transparency.MergeKeyByAlias` and `Transparency.MergeByAlias`).
- The table of query rates ends at 1 only for whole rates, because the total is taken over truncated ones
  (`QueryTable.TableEnds`). With other rates, every draw still finds a query, but some queries may never be
  drawn (`QueryTable.DrawableIff`, `QueryTable.NeverDrawn`). The server truncates every rate before it makes
  a table (stress/server.py:241-243), so this concerns other callers.

## Model

| member | source | states |
|---|---|---|
| `Rope.Chunk.Leaf` | app/public/js/codemirror.js:2566-2574 | a new leaf holds the lines, they point to it, and its height is theirs together |
| `Rope.Chunk.Branch` | app/public/js/codemirror.js:2604-2615 | a new branch counts the lines and heights below it, and all its children point to it |
| `Rope.Chunk.InsertHeight` | app/public/js/codemirror.js:2646-2667 | lines inserted below any branch of a sound tree: the tree is sound again, within capacity, its root stands for the list with the lines put in, and all other lines keep their place |
| `Rope.Chunk.CountAndFind` | app/public/js/codemirror.js:2647-2651 | the branch has counted the new lines, and the child chosen is the first that reaches to the place; only that child is still owed them |
| `Rope.Chunk.LeafInsertHeight` | app/public/js/codemirror.js:2590-2598 | a leaf takes the new lines at their place, points them to itself and accounts for their height |
| `Rope.Chunk.Settle` | app/public/js/codemirror.js:2652-2663 | an overfull leaf is cut up until no chunk of the whole tree is over capacity, and what the root stands for is unchanged |
| `Rope.Chunk.SpillLeaf` | app/public/js/codemirror.js:2654-2660 | one cut: the last 25 lines move to a new right neighbour, all caches and pointers agree |
| `Rope.Chunk.MaybeSpill` | app/public/js/codemirror.js:2668-2688 | from one chunk that may have too many children, the climb ends, also when the root splits and splits again; the tree is sound and within capacity and has the same leaves |
| `Rope.Chunk.SpillRoot` | app/public/js/codemirror.js:2672-2685 | one round at the root: a new level comes in between, with all but the last five children under one new chunk and those five under another |
| `Rope.Chunk.SpillBelow` | app/public/js/codemirror.js:2672-2685 | one round below a parent: the last five children go to a new right neighbour, sizes and heights are split exactly |
| `Rope.RootSplitKeeps` | app/public/js/codemirror.js:2672-2685 | a round at the root keeps the tree sound and what it stands for |
| `Rope.SplitKeeps` | app/public/js/codemirror.js:2672-2685 | a round below a parent keeps the tree sound and what it stands for |
| `Rope.SpillingClimbs` | app/public/js/codemirror.js:2686-2687 | when the loop is over, the climb goes on strictly nearer to the root, or at the root with fewer children |
| `Rope.LeafSplitKeeps` | app/public/js/codemirror.js:2654-2660 | cutting a leaf keeps the tree sound and what it stands for |
| `Rope.Chunk.Remove` | app/public/js/codemirror.js:2618-2637 | lines removed below any branch: exactly those are gone from what it stands for and have no parent, the rest of the tree is untouched, sound and within capacity |
| `Rope.Chunk.RemoveLoop` | app/public/js/codemirror.js:2620-2630 | the loop over the children has removed all n lines when it ends, whatever children they were in, and dropped the children left empty |
| `Rope.Chunk.Finish` | app/public/js/codemirror.js:2631-2636 | a branch left with fewer than 25 lines has them in one new leaf; any other branch still has 1 to 10 children |
| `Rope.Chunk.LeafRemove` | app/public/js/codemirror.js:2577-2586 | the removed lines of a leaf have no parent, the others still point to it, its height is theirs |
| `Rope.Chunk.Collapse` | app/public/js/codemirror.js:2587-2589 | appends exactly the lines that the chunk stands for, in order |
| `Rope.RemovedFromChild` | app/public/js/codemirror.js:2622-2629 | taking lines from one child and correcting the caches is one cut of the list that the branch stands for |
| `Rope.DropEmpty` | app/public/js/codemirror.js:2626-2626 | dropping a child without lines changes neither the list nor any cache |
| `Rope.CollapseDone` | app/public/js/codemirror.js:2631-2636 | putting all lines of a branch into one leaf keeps the tree sound and the list |
| `Rope.TallsAreHeights` | app/public/js/codemirror.js:2604-2615 | the cached heights of any chunks are the sums of the heights of all lines below them |
| `Rope.LineHome` | app/public/js/codemirror.js:2566-2574 | every line that a chunk stands for is in a leaf below it, to which it points |
| `Lines.GetLineAt` | app/public/js/codemirror.js:2703-2712 | finds the line with number n of the plain list |
| `Lines.LineNo` | app/public/js/codemirror.js:2713-2723 | the number at which the plain list has the line, so that getLineAt gives it back; null exactly for lines that are not in the document |
| `Lines.IterN` | app/public/js/codemirror.js:2690-2702 | visits exactly the lines of the range, as many as there are, in order; the same for leaves, 2599-2602 |
| `Lines.HeightAtLine` | app/public/js/codemirror.js:2742-2755 | the sum of the heights of all lines before line n, of all lines if n is past the end, and 0 below |
| `Lines.LineAtHeight` | app/public/js/codemirror.js:2724-2741 | the line that the height falls into, the number of lines past the end, 0 for negative heights |
| `Lines.OneLineAtHeight` | app/public/js/codemirror.js:2724-2741 | there is only one such line |
| `Lines.HigherIsLater` | app/public/js/codemirror.js:2724-2741 | greater heights never lead to earlier lines |
| `Lines.LineToHeightAndBack` | app/public/js/codemirror.js:2724-2755 | from a line to its height and back leads to the first line from there on with a height of its own, and to no other |
| `Lines.UpdateLineHeight` | app/public/js/codemirror.js:334-338 | changing one line's height corrects every cache above it; the document stays sound and its lines the same |
| `Lines.BumpStep` | app/public/js/codemirror.js:334-338 | one step of the climb: the chunk agrees with what is below it, only its parent is still short |
| `Document.Doc.constructor` | app/public/js/codemirror.js:70-70 | the first document is sound and has one empty line |
| `Document.Doc.Insert` | app/public/js/codemirror.js:2641-2645 | inserting is inserting into the plain list; everything that makes a document sound holds again |
| `Document.Doc.Remove` | app/public/js/codemirror.js:2618-2637 | removing is cutting from the plain list; exactly the removed lines join those that are gone |
| `Document.Doc.SetLineHeight` | app/public/js/codemirror.js:334-338 | the line has the height, every cache above it agrees, and the document stays sound with the same lines |
| `Document.Doc.LineNumber` | app/public/js/codemirror.js:2713-2723 | null exactly for lines that were removed; otherwise the number of the line |
| `Document.LinesAreContent` | app/public/js/codemirror.js:2566-2574 | no leaf of a sound document has a line that the document does not |
| `Undo.MergeIsSound` | app/public/js/codemirror.js:2777-2783 | undoing the merged change is undoing the later edit and then the earlier one, for any two that touch |
| `Undo.History.AddChange` | app/public/js/codemirror.js:2766-2786 | records an edit as the specification says, in all three cases |
| `Undo.History.MergeInto` | app/public/js/codemirror.js:2778-2783 | the loops put exactly the uncovered lines of the new edit around those of the last change; no index is out of range |
| `Undo.History.Forget` | app/public/js/codemirror.js:641-641 | only the newest sets are kept |
| `Undo.NewestKeeps` | app/public/js/codemirror.js:641-641 | what is kept is the end of the stack: the k-th set from the top stays where it was |
| `Undo.EditKeeps` | app/public/js/codemirror.js:635-644 | after any recorded edit, undoing leads back through the same texts as before, with the text before a new set on top |
| `Undo.NextKeeps` | app/public/js/codemirror.js:635-661 | each step, an edit, undo, redo or bracket, keeps both stacks true to the texts they lead to |
| `Undo.UndoAfterAnyRun` | app/public/js/codemirror.js:635-661 | in every run from an untouched editor, with any edits, undos, redos and brackets at any times: undoing the top set restores the text from before the edit of the run that began that set |
| `Undo.EditUndone` | app/public/js/codemirror.js:2766-2786 | after an edit, one undo takes back the set before it as well exactly if that set is open, or if no bracket has closed it, no more than 400 milliseconds have passed and the edit touches its last change; else that edit alone |
| `Undo.SecondEdit` | app/public/js/codemirror.js:2773-2783 | two edits after a pause, at the times t and u: one undo takes back both exactly if u is at most t + 400 and the second touches the lines of the first; else it gives the text between the two |
| `Undo.RunRecalls` | app/public/js/codemirror.js:635-661 | the same for all sets on both stacks at once, at every point of a run |
| `Undo.BracketIsOneSet` | app/public/js/codemirror.js:2787-2792 | whatever is edited from an outermost opening bracket to the one that closes it is one set, at whatever times, with brackets inside; the next edit begins another |
| `Undo.GroupIsUndoneAtOnce` | app/public/js/codemirror.js:635-661 | once an edit has begun a set, whatever is done, undone and redone after it: when that set is on top again, one undo takes back all of it |
| `Undo.UndoKeeps` | app/public/js/codemirror.js:645-660 | an undo restores the text from before the set and can be redone exactly |
| `Undo.RedoKeeps` | app/public/js/codemirror.js:645-661 | a redo restores the text from before the undo and can be undone exactly |
| `Undo.UndosThenRedos` | app/public/js/codemirror.js:645-661 | k undos and then k redos restore text and history exactly if there were k sets to undo or none to redo |
| `Undo.UndoThenRedoGoesFurther` | app/public/js/codemirror.js:645-661 | where it fails: one edit, one undo, then one undo and one redo |
| `Undo.InverseAllReverts` | app/public/js/codemirror.js:645-657 | the set collected while undoing takes the undo back, and undoing that gives the first set again |
| `Texts.EditIsSplice` | app/public/js/codemirror.js:663-713 | replacing text between two positions is one splice of the joined text |
| `Texts.RangeIsSlice` | app/public/js/codemirror.js:803-810 | the text between two positions is the matching slice of the joined text |
| `Texts.OnePosAtIndex` | app/public/js/codemirror.js:306-313 | two positions with the same index are the same |
| `Edits.UpdateLinesNoUndo` | app/public/js/codemirror.js:663-713 | all five branches give the lines of one replacement, in a document that is sound again. The line objects too: of whole lines that become whole lines exactly the objects around them are kept, else also the first, and the last if several lines become several; kept lines keep their heights, new ones have height 1, and the others are gone |
| `Edits.ReplaceLines` | app/public/js/codemirror.js:674-685 | the branch for whole lines: the text, and all objects outside the range are still there |
| `Edits.ReplaceInLine` | app/public/js/codemirror.js:686-688 | the branch within one line |
| `Edits.SplitLine` | app/public/js/codemirror.js:689-698 | the branch that makes several lines of one: the first object is kept, the others come after it |
| `Edits.JoinLines` | app/public/js/codemirror.js:699-703 | the branch that makes one line of several: the first object is kept, the others are gone |
| `Edits.ReplaceSome` | app/public/js/codemirror.js:704-713 | the branch that makes several lines of several: the first and the last object are kept |
| `Edits.Replace` | app/public/js/codemirror.js:2294-2300 | the piece between the bounds is replaced; a missing bound is that end of the line |
| `Edits.Split` | app/public/js/codemirror.js:2312-2315 | the new line has the text before and what comes after the position |
| `Edits.Append` | app/public/js/codemirror.js:2329-2331 | the other line's text is appended |
| `Edits.GetRange` | app/public/js/codemirror.js:803-810 | returns the text between two positions |
| `Edits.PosFromIndex` | app/public/js/codemirror.js:296-305 | the position with that index; the first or the last one for indexes out of range |
| `Edits.IndexFromPos` | app/public/js/codemirror.js:306-313 | the number of characters before a valid position, and 0 for negative ones |
| `Edits.PosIndexInverse` | app/public/js/codemirror.js:296-313 | positions and indexes undo each other on valid positions |
| `Edits.ClipPos` | app/public/js/codemirror.js:1229-1236 | a valid position, itself if it was valid, the end of the line if there is no column, and no position lies between |
| `Editing.RevertSet` | app/public/js/codemirror.js:645-658 | the loop reverts the changes of a set from the last to the first and collects the set that takes this back |
| `Editing.RevertOne` | app/public/js/codemirror.js:649-655 | a change of whole lines is reverted by one replacement, which starts and ends where the lines do |
| `Editing.Editor.UpdateLines` | app/public/js/codemirror.js:635-644 | an edit is one splice of the joined text, the history records it, and the document keeps the line objects it should, with their heights |
| `Editing.Editor.Undo` | app/public/js/codemirror.js:645-660 | the document has the text from before the top set's first edit, and the history has the set that takes this back |
| `Editing.Editor.Redo` | app/public/js/codemirror.js:645-661 | the mirror image of an undo |
| `Editing.EditIsChange` | app/public/js/codemirror.js:742-754 | the change record left for the display says which lines became which |
| `Editing.EditsAreChanges` | app/public/js/codemirror.js:754-754 | the records of any number of edits, one after the other, lead from the lines before to the lines after, as the display takes them to |
| `Display.ComputeIntact` | app/public/js/codemirror.js:1012-1033 | whatever the changes, the kept ranges stay apart and in order in lines and nodes, and show unchanged lines: exactly those that were shown and that no change touches, under their new numbers |
| `Display.AllLeftCovers` | app/public/js/codemirror.js:1016-1029 | one change leaves exactly the lines that it does not touch, shown by the same nodes |
| `Display.AllLeftIntact` | app/public/js/codemirror.js:1016-1029 | one change keeps that of all ranges |
| `Display.ClipAll` | app/public/js/codemirror.js:936-943 | clipped ranges are in the window, none is empty, their lines are counted, and no line of the window is lost |
| `Display.SortIsIdentity` | app/public/js/codemirror.js:945-945 | sorting the ranges, however it is done, does not move them |
| `Display.NoGap` | app/public/js/codemirror.js:944-944 | ranges that make up the whole window leave no gap: nothing needs to be done |
| `Display.RemoveNodes` | app/public/js/codemirror.js:1037-1051 | the first pass leaves exactly the nodes of the kept ranges |
| `Display.FillIn` | app/public/js/codemirror.js:1052-1073 | the second pass leaves one node for each line of the window, in order, and renders exactly those that no range has |
| `Display.Screen.UpdateDisplay` | app/public/js/codemirror.js:918-968 | after an update there is one node for each line of a window that covers the visible lines, so the assertion does not fire. A line is rendered exactly if it was not on the screen before or a change has touched it. The window reaches 100 lines beyond what is visible, or up to 119 where that is there already; without a width nothing is taken to be shown |
| `Utf8.AtOffset` | Godeps/_workspace/src/gopkg.in/yaml.v2/yamlprivateh.go:156-173 | code points lie one after another where their widths say |
| `Utf8.PrintableAgrees` | Godeps/_workspace/src/gopkg.in/yaml.v2/yamlprivateh.go:63-73 | the test on bytes is the test on the code point |
| `Utf8.BreakAgrees` | Godeps/_workspace/src/gopkg.in/yaml.v2/yamlprivateh.go:102-108 | the test on bytes is the test on the code point |
| `Utf8.WidthIsLength` | Godeps/_workspace/src/gopkg.in/yaml.v2/yamlprivateh.go:156-173 | the first byte of a character tells its width |
| `Utf8.DecodeAt` | Godeps/_workspace/src/gopkg.in/yaml.v2/emitterc.go:1440-1457 | the loop over the later bytes gives the code point |
| `Quoted.BomAgrees` | Godeps/_workspace/src/gopkg.in/yaml.v2/yamlprivateh.go:81-83 | wherever it is asked, the test looks at the first character of the text only |
| `Output.Transparent` | Godeps/_workspace/src/gopkg.in/yaml.v2/emitterc.go:8-103 | flushed bytes and buffer together are the bytes of all characters written, wherever flushes and failures fell |
| `Output.FlushBuffer` | Godeps/_workspace/src/gopkg.in/yaml.v2/writerc.go:11-29 | a flush passes on whole characters only, and a failed one loses nothing |
| `Output.Put` | Godeps/_workspace/src/gopkg.in/yaml.v2/emitterc.go:16-24 | one character more, in the buffer's bounds, or an error and nothing |
| `Output.PutBreak` | Godeps/_workspace/src/gopkg.in/yaml.v2/emitterc.go:27-48 | the line break asked for |
| `Output.Write` | Godeps/_workspace/src/gopkg.in/yaml.v2/emitterc.go:51-76 | the character at the place is copied whole, and the place moves on by its width |
| `Output.WriteBreak` | Godeps/_workspace/src/gopkg.in/yaml.v2/emitterc.go:89-103 | a line feed becomes the emitter's line break, other breaks are copied |
| `Output.WriteIndent` | Godeps/_workspace/src/gopkg.in/yaml.v2/emitterc.go:1201-1219 | a new line where one is needed, then spaces up to the indentation |
| `Output.WriteIndicator` | Godeps/_workspace/src/gopkg.in/yaml.v2/emitterc.go:1221-1234 | a space where one is needed, then all characters of the indicator |
| `Quoted.EscapeReads` | Godeps/_workspace/src/gopkg.in/yaml.v2/emitterc.go:1465-1515 | every code point's escape reads as that code point (YAML 1.1, section 5.6) |
| `Quoted.LettersAreUsed` | Godeps/_workspace/src/gopkg.in/yaml.v2/emitterc.go:1465-1494 | a code point that has a letter of its own is written with it |
| `Quoted.EscapeLength` | Godeps/_workspace/src/gopkg.in/yaml.v2/emitterc.go:1495-1503 | an escape takes 2, 4, 6 or 10 characters |
| `Quoted.WriteEscape` | Godeps/_workspace/src/gopkg.in/yaml.v2/emitterc.go:1436-1519 | writes the escape of the character at the place |
| `Quoted.FoldReads` | Godeps/_workspace/src/gopkg.in/yaml.v2/emitterc.go:1520-1534 | a line break and indentation in the place of a space read as that space, also before another space |
| `Quoted.WriteDoubleQuoted` | Godeps/_workspace/src/gopkg.in/yaml.v2/emitterc.go:1429-1548 | for every text, width, indentation and unicode flag, what is between the quotes reads as the text (YAML 1.1, section 9.1.1). Without permission to break lines it has no line break; with it, each break comes beyond the width |
| `Quoted.DoubleIsWide` | Godeps/_workspace/src/gopkg.in/yaml.v2/emitterc.go:1520-1534 | wherever a line is broken, that is allowed and the line has got beyond the width |
| `Quoted.LongLineFolds` | Godeps/_workspace/src/gopkg.in/yaml.v2/emitterc.go:1520-1534 | a single space beyond the width does become a line break, where that is allowed |
| `Quoted.DoubleOfPlain` | Godeps/_workspace/src/gopkg.in/yaml.v2/emitterc.go:1429-1548 | a text of plain characters, given by their numbers, is written as it is, if it fits or no line may be broken |
| `Quoted.DoublePrints` | Godeps/_workspace/src/gopkg.in/yaml.v2/emitterc.go:1436-1439 | all that is written prints or breaks the line, and is ASCII where nothing else is allowed |
| `SingleQuoted.AnalyzeScalar` | Godeps/_workspace/src/gopkg.in/yaml.v2/emitterc.go:984-1130 | the single-quoted style is allowed exactly if all characters print and no space is next to a line break |
| `SingleQuoted.AllowedOnOneLine` | Godeps/_workspace/src/gopkg.in/yaml.v2/emitterc.go:984-1130 | for texts without line breaks: the single-quoted style is allowed exactly if no character, given by its number, needs an escape, quotes and backslashes aside |
| `SingleQuoted.WriteSingleQuoted` | Godeps/_workspace/src/gopkg.in/yaml.v2/emitterc.go:1370-1427 | wherever the analysis allows it and the indentation is 1 or more, what is between the quotes reads as the text (YAML 1.1, section 9.1.2); at the left margin it does exactly if no line follows a line break or a line was folded before, and otherwise reads with one more line feed. A text without line breaks gets none unless that is allowed, and then only beyond the width |
| `SingleQuoted.SingleIsWide` | Godeps/_workspace/src/gopkg.in/yaml.v2/emitterc.go:1370-1427 | in what is written for a text without line breaks, a line is broken only where that is allowed and beyond the width |
| `SingleQuoted.SingleOfPlain` | Godeps/_workspace/src/gopkg.in/yaml.v2/emitterc.go:1370-1427 | a text without line breaks and quotes is written as it is, if it fits or no line may be broken |
| `SingleQuoted.BreakStep` | Godeps/_workspace/src/gopkg.in/yaml.v2/emitterc.go:1391-1401 | the line breaks written for a run of line breaks read as that run |
| `SingleQuoted.MarginAddsBreak` | Godeps/_workspace/src/gopkg.in/yaml.v2/emitterc.go:1201-1219 | indenting after line breaks starts one more line exactly at the left margin and if nothing was indented before, and that is read as a line feed |
| `Scalars.EmitQuotedScalar` | Godeps/_workspace/src/gopkg.in/yaml.v2/emitterc.go:683-704 | a scalar for which a quoted style is asked is written in the style the analysis allows, and reads as its text; a simple key is always on one line |
| `Machine.StepKeepsSound` | Godeps/_workspace/src/gopkg.in/yaml.v2/emitterc.go:211-269 | the stacks of states and indentations never run empty |
| `Machine.NodeRestores` | Godeps/_workspace/src/gopkg.in/yaml.v2/emitterc.go:648-738 | the events of any complete node lead to the continuation, with the states below it, the indentations and the flow level as before |
| `Machine.ItemsRestore` | Godeps/_workspace/src/gopkg.in/yaml.v2/emitterc.go:456-501 | the same for the items of a sequence and its end, in flow and in block style (578-599) |
| `Machine.PairsRestore` | Godeps/_workspace/src/gopkg.in/yaml.v2/emitterc.go:504-575 | the same for the pairs of a mapping and its end, in flow and in block style (602-645) |
| `Machine.EnterAndLeave` | Godeps/_workspace/src/gopkg.in/yaml.v2/emitterc.go:196-208 | the indentation of a collection is no less than what is around it, and its end restores the indentation, the level and the state below |
| `Machine.ScalarsOffMargin` | Godeps/_workspace/src/gopkg.in/yaml.v2/emitterc.go:196-208 | in no run can a scalar be written with an indentation below 2 |
| `Machine.FlowWithinFlow` | Godeps/_workspace/src/gopkg.in/yaml.v2/emitterc.go:648-738 | in every run the flow level counts the flow collections around, and within one of them, however deep, all is in flow style |
| `Machine.RunStepped` | Godeps/_workspace/src/gopkg.in/yaml.v2/emitterc.go:196-208 | in every run in which no sequence goes without indentation of its own, each collection is indented by exactly one width more than the one around it, and the root by none or one |
| `Machine.TakeNode` | Godeps/_workspace/src/gopkg.in/yaml.v2/emitterc.go:648-738 | a run that ends well, from where a node is due, begins with the events of a node |
| `Machine.AcceptsStreams` | Godeps/_workspace/src/gopkg.in/yaml.v2/emitterc.go:211-269 | however the choices of style fall, exactly the event sequences of the YAML grammar are accepted |
| `Queue.StreamReady` | Godeps/_workspace/src/gopkg.in/yaml.v2/emitterc.go:136-170 | no event of a complete stream has to wait once the stream has ended |
| `Queue.StreamDrains` | Godeps/_workspace/src/gopkg.in/yaml.v2/emitterc.go:113-127 | when the last event of a stream has come in, the queue is empty |
| `Queue.StartHasNext` | Godeps/_workspace/src/gopkg.in/yaml.v2/emitterc.go:136-170 | a collection start is emitted only when the event after it is there |
| `Queue.ScalarsAwaited` | Godeps/_workspace/src/gopkg.in/yaml.v2/emitterc.go:136-170 | before scalars, a document start waits for one event, a sequence start for two and a mapping start for three; nothing else waits |
| `Emitting.Emitter.NeedMoreEvents` | Godeps/_workspace/src/gopkg.in/yaml.v2/emitterc.go:136-170 | the loop over levels decides whether what starts with the first event may still be open |
| `Emitting.Emitter.Emit` | Godeps/_workspace/src/gopkg.in/yaml.v2/emitterc.go:113-127 | events are emitted in order; one is refused only if no stream begins so; a complete stream is emitted whole; and every choice of style made on the way follows from the events |
| `Emitting.Emitter.StateMachine` | Godeps/_workspace/src/gopkg.in/yaml.v2/emitterc.go:211-269 | the dispatcher follows the machine, also in what it refuses, and its choices follow from the events and the state |
| `Emitting.Emitter.EmitNode` | Godeps/_workspace/src/gopkg.in/yaml.v2/emitterc.go:648-738 | an empty collection is recognised exactly, and a collection is in flow style if that is asked for or it is empty or inside another |
| `Emitting.Emitter.EmitScalar` | Godeps/_workspace/src/gopkg.in/yaml.v2/emitterc.go:683-704 | the indentation that a scalar is written with is 2 or more, and all is as before afterwards but for the state |
| `Emitting.ChecksSeeNode` | Godeps/_workspace/src/gopkg.in/yaml.v2/emitterc.go:746-795 | the events that wait when a node comes up are enough: the checks see an empty collection exactly if it is one, and a simple key exactly if the whole node is short and on one line |
| `Emitting.KeyDecides` | Godeps/_workspace/src/gopkg.in/yaml.v2/emitterc.go:504-627 | wherever in a run a complete key has been emitted: the emitter goes on as after a simple key exactly if the whole key is short and on one line, and in flow style the output is not canonical |
| `Emitting.Emitter.EmitStreamStart` | Godeps/_workspace/src/gopkg.in/yaml.v2/emitterc.go:272-308 | only a stream start is accepted; an indentation width out of the range from 2 to 9 becomes 2 |
| `Emitting.Emitter.EmitDocumentStart` | Godeps/_workspace/src/gopkg.in/yaml.v2/emitterc.go:311-422 | a document or the end of the stream |
| `Emitting.Emitter.EmitDocumentContent` | Godeps/_workspace/src/gopkg.in/yaml.v2/emitterc.go:425-428 | the root node, with the document's end as its continuation |
| `Emitting.Emitter.EmitDocumentEnd` | Godeps/_workspace/src/gopkg.in/yaml.v2/emitterc.go:431-453 | only a document end is accepted |
| `Emitting.Emitter.EmitFlowSequenceItem` | Godeps/_workspace/src/gopkg.in/yaml.v2/emitterc.go:456-501 | follows the machine: level and indentation come and go together |
| `Emitting.Emitter.EmitFlowMappingKey` | Godeps/_workspace/src/gopkg.in/yaml.v2/emitterc.go:504-555 | follows the machine; the key is a simple one exactly if the output is not canonical and the check allows it |
| `Emitting.Emitter.EmitFlowMappingValue` | Godeps/_workspace/src/gopkg.in/yaml.v2/emitterc.go:558-575 | a value, then the next key |
| `Emitting.Emitter.EmitBlockSequenceItem` | Godeps/_workspace/src/gopkg.in/yaml.v2/emitterc.go:578-599 | follows the machine; the sequence goes without indentation of its own exactly within a mapping and where more than indentation is on the line |
| `Emitting.Emitter.EmitBlockMappingKey` | Godeps/_workspace/src/gopkg.in/yaml.v2/emitterc.go:602-627 | follows the machine; the key is a simple one exactly if the check allows it |
| `Emitting.Emitter.EmitBlockMappingValue` | Godeps/_workspace/src/gopkg.in/yaml.v2/emitterc.go:630-645 | a value, then the next key |
| `Emitting.PrefixRuns` | Godeps/_workspace/src/gopkg.in/yaml.v2/emitterc.go:113-127 | no part of a stream is refused |
| `Reader.Decodes` | Godeps/_workspace/src/gopkg.in/yaml.v2/readerc.go:152-240 | bytes with the right marks are the UTF-8 of a character exactly if their number is in range for their count and no surrogate |
| `Reader.BadHead` | Godeps/_workspace/src/gopkg.in/yaml.v2/readerc.go:152-240 | input that begins with no allowed character, nor part of one, is not good |
| `Reader.GoodIsUtf8Iff` | Godeps/_workspace/src/gopkg.in/yaml.v2/readerc.go:140-200 | what is refused is not UTF-8 of allowed characters; what is accepted is, at the end of the input exactly, and before it exactly if an allowed character can begin with the bytes that are waited for |
| `Reader.NoticedInTime` | Godeps/_workspace/src/gopkg.in/yaml.v2/readerc.go:152-200 | three bytes after the first that no continuation can save, or at the end of the input, the reader refuses it |
| `Reader.WaitsInVain` | Godeps/_workspace/src/gopkg.in/yaml.v2/readerc.go:163-200 | before that it may not: E2 41 is accepted, and waited with |
| `Reader.DecodeHead` | Godeps/_workspace/src/gopkg.in/yaml.v2/readerc.go:149-350 | a character is decoded, or not all bytes that its first one announces are there, or the input is bad, each exactly when it is so |
| `Reader.Parser.UpdateRawBuffer` | Godeps/_workspace/src/gopkg.in/yaml.v2/readerc.go:56-85 | what was not decoded is kept and more is read behind it, within the raw buffer; unless the handler fails, something happens |
| `Reader.Parser.DetermineEncoding` | Godeps/_workspace/src/gopkg.in/yaml.v2/readerc.go:25-53 | exactly the mark at the beginning is skipped, however the input comes in |
| `Reader.Parser.DecodeRaw` | Godeps/_workspace/src/gopkg.in/yaml.v2/readerc.go:140-379 | all that is in the raw buffer is decoded, but for an incomplete character; if not, the input read is bad |
| `Reader.Parser.UpdateBuffer` | Godeps/_workspace/src/gopkg.in/yaml.v2/readerc.go:91-391 | up to 256 characters can be asked for: the call ends, stays within both buffers, and fails only if the handler does or the input read is bad; if it does not fail, that is good |
| `Reader.Parser.PutChar` | Godeps/_workspace/src/gopkg.in/yaml.v2/readerc.go:356-378 | the UTF-8 of a character goes behind what is in the buffer |
| `Reader.Parser.Compact` | Godeps/_workspace/src/gopkg.in/yaml.v2/readerc.go:113-122 | what the scanner has not taken is moved to the beginning |
| `Reader.DeliversInput` | Godeps/_workspace/src/gopkg.in/yaml.v2/readerc.go:352-391 | in the end, the bytes delivered are the input without its mark and exactly one NUL, and the input was good |
| `Reader.DeliversPrefix` | Godeps/_workspace/src/gopkg.in/yaml.v2/readerc.go:352-391 | before the end, they are a beginning of it |
| `Aliases.Decoder.Unmarshal` | Godeps/_workspace/src/gopkg.in/yaml.v2/decode.go:277-299 | ends well only for nodes that unfold, with the value of the unfolded tree, and leaves the set of open aliases as it was |
| `Aliases.Decoder.ReadAlias` | Godeps/_workspace/src/gopkg.in/yaml.v2/decode.go:310-322 | an alias has the value of its node; self-containment is reported only of an alias within itself; what is open is restored |
| `Aliases.Decoder.ReadSequence` | Godeps/_workspace/src/gopkg.in/yaml.v2/decode.go:478-508 | the items' values in order, or the first error |
| `Aliases.Decoder.ReadMapping` | Godeps/_workspace/src/gopkg.in/yaml.v2/decode.go:510-570 | the entries in order over those that were there, or the first error |
| `Aliases.Decoder.Merge` | Godeps/_workspace/src/gopkg.in/yaml.v2/decode.go:652-679 | a merge key adds the entries of what it stands for, earlier mappings of a sequence last |
| `Meaning.ReadsAsMeant` | Godeps/_workspace/src/gopkg.in/yaml.v2/decode.go:478-570 | whatever can be read is read as what it means: each key of a mapping has the value that the last pair with that key gives it; a merge key gives what the first of its mappings with the key gives; and no other keys are there |
| `Meaning.EntryOfPairs` | Godeps/_workspace/src/gopkg.in/yaml.v2/decode.go:510-570 | for every key and value: the entry is there exactly if the pairs give it, or if they do not have the key and it was there before |
| `Meaning.EntryOfMerges` | Godeps/_workspace/src/gopkg.in/yaml.v2/decode.go:662-675 | the same for a sequence of mappings that are merged, of which earlier ones take precedence |
| `Meaning.SmallMappings` | Godeps/_workspace/src/gopkg.in/yaml.v2/decode.go:510-570 | a mapping of one key to one text, two pairs with the same key, two merged mappings with the same key, and a merge after a pair, for all texts |
| `Aliases.UnfoldedHasNoLoop` | Godeps/_workspace/src/gopkg.in/yaml.v2/decode.go:310-322 | a document that unfolds to a finite tree has no alias within itself |
| `Aliases.UnfoldsOnce` | Godeps/_workspace/src/gopkg.in/yaml.v2/decode.go:310-322 | a node unfolds to one tree at most |
| `Documents.Decode` | Godeps/_workspace/src/gopkg.in/yaml.v2/decode.go:301-308 | reading a document always ends; its value is what its unfolding means, and an error about aliases is a true one |
| `Documents.UnfoldsIff` | Godeps/_workspace/src/gopkg.in/yaml.v2/decode.go:310-322 | a document unfolds exactly if every alias that can be come to has an anchor and none is within itself |
| `Documents.RegisteredTrue` | Godeps/_workspace/src/gopkg.in/yaml.v2/decode.go:99-103 | an anchor stands for a node that bears it, never for an alias |
| `Documents.LastIsRegistered` | Godeps/_workspace/src/gopkg.in/yaml.v2/decode.go:99-103 | an anchor stands for the last node of the whole document, in the order of their beginnings, that bears it |
| `Transparency.ReadableIff` | Godeps/_workspace/src/gopkg.in/yaml.v2/decode.go:510-570 | which trees have a value does not depend on the entries they are read into |
| `Transparency.MeaningIff` | Godeps/_workspace/src/gopkg.in/yaml.v2/decode.go:478-570 | a tree is read as a value exactly if it can be read and means that value |
| `Transparency.AliasesAreTransparent` | Godeps/_workspace/src/gopkg.in/yaml.v2/decode.go:310-322 | if merge keys and merged sequences are written out, or could not be read anyway, replacing every alias by its node changes no value |
| `Transparency.PairTransparentIff` | Godeps/_workspace/src/gopkg.in/yaml.v2/decode.go:652-683 | for one pair of key and value: exactly then |
| `Transparency.PairDiffers` | Godeps/_workspace/src/gopkg.in/yaml.v2/decode.go:652-683 | otherwise reading the pair into an empty mapping shows the difference |
| `Transparency.TransparentIff` | Godeps/_workspace/src/gopkg.in/yaml.v2/decode.go:652-683 | aliases may be replaced in every pair of a tree exactly if that holds of every pair |
| `Transparency.ExpandedReadsSame` | Godeps/_workspace/src/gopkg.in/yaml.v2/decode.go:310-322 | such a document is read as one without aliases, in which the anchored nodes stand in their place |
| `Transparency.MergeKeyByAlias` | Godeps/_workspace/src/gopkg.in/yaml.v2/decode.go:681-683 | a document that changes its value: a merge key that is an alias is an ordinary key |
| `Transparency.MergeByAlias` | Godeps/_workspace/src/gopkg.in/yaml.v2/decode.go:656-663 | a document that cannot be read until the alias is replaced: a merged sequence that is an alias |
| `QueryTable.Accumulate` | stress/query_table.py:148-158 | entry k of the table is the share of the first k + 1 queries, although a rate of zero resets the sum; it divides by zero exactly if there are rates, but all below 1 |
| `QueryTable.MakeTable` | stress/query_table.py:138-160 | a table is made of every workload with a query and either no rate or one of at least 1, from its queries in order of their rates; of no other |
| `QueryTable.Table.GetRandomQuery` | stress/query_table.py:165-167 | every number from 0 up to 1 chooses a query, with a rate, whose interval it lies in; the index is out of range exactly for an empty table |
| `QueryTable.DrawnIff` | stress/query_table.py:74-77 | the numbers that choose a query are one interval as long as its share; a query without a rate is never chosen |
| `QueryTable.TableAscends` | stress/query_table.py:148-158 | the table ascends |
| `QueryTable.TableEnds` | stress/query_table.py:142-158 | it ends at 1 exactly if all rates are whole numbers, and above otherwise |
| `QueryTable.DrawableIff` | stress/query_table.py:74-77 | a query can be drawn exactly if it has a rate and those before it do not take up everything |
| `QueryTable.WholeRatesDraw` | stress/query_table.py:142-158 | with whole rates every query with a rate can be drawn |
| `QueryTable.NeverDrawn` | stress/query_table.py:142-158 | with others the only query that counts may never be drawn |
| `QueryTable.SortedFacts` | stress/query_table.py:145-146 | sorting changes neither the queries nor their sums |
| `Polling.NextKeeps` | stress/worker.py:81-120 | whatever a worker or the poller does next, no difference is negative and they add up to what was seen |
| `Polling.DifferencesAddUp` | stress/worker.py:104-124 | in every run from the start: no difference is negative, and after the last poll of a query its differences add up to what the workers had run of it between the beginning and the end of that poll; later runs are still counted |
| `Polling.PollAddsUp` | stress/worker.py:117-119 | one poll among whatever the workers do |
| `Polling.RunCounts` | stress/worker.py:81-81 | the counts of a query are what the workers have run of it |
| `Polling.PollCatchesUp` | stress/worker.py:117-119 | a poll that is not disturbed tells exactly what has been counted since the last one |
| `Polling.ChangeGivesWorkload` | stress/worker.py:104-124 | after an interrupt exactly the queries of the new workload can be polled |
| `Polling.WorkloadIsPolled` | stress/worker.py:107-119 | with a workload, each of its queries can be polled from any place between two polls; the poll ends after as many reads as there are workers and tells the rest |

## Left out

- Editor: marks and bookmarks, styles, handlers and callbacks of lines, the highlighter and its work list,
  the selection, the longest line, and the guesses of line heights under line wrapping.
- Editor: edits while edits are suppressed, and a history that is switched off.
- `Lines.IterN`: the visit cannot be stopped from within; `posFromIndex` stops it early, and is modelled as a
  loop over the lines visited.
- `Undo.History.AddChange`: changes are values in sequences, not objects shared between sets.
- `Display.Screen.UpdateDisplay`: a node is what it shows; how lines are rendered, measured and scrolled to is
  left out. The changes are those of edits, with `from <= to` and `diff >= from - to`, and the visible lines
  are given with the first not after the last.
- `Output.FlushBuffer`: output in UTF-16.
- `Quoted.WriteDoubleQuoted`: the reader knows no escaped line breaks, which the writer never makes.
- `SingleQuoted.AnalyzeScalar`: the flags for plain and block scalars; these styles are not part of this model.
- `Emitting.Emitter.StateMachine`: what is printed, anchors and tags that are not valid, version and tag
  directives, and scalars with neither a tag nor an implicit flag. Writing always succeeds here.
- `Reader.Parser.UpdateBuffer`: input in UTF-16; input does not begin with such a mark.
- `Reader.Parser.Skip`: of the scanner, only that it takes characters from the buffer.
- `Aliases.Decoder.Unmarshal`: values of given types, custom unmarshalers, ordered maps and number parsing; what a
  scalar resolves to is represented by a string.
- `Documents.Decode`: the tree is given; that parsing registers each anchor at the beginning of its node is a
  definition, and the parser's events are left out.
- `QueryTable.MakeTable`: negative rates; the queries' texts, and the largest identifier.
- `Emitting.Emitter.EmitStreamStart`: encoding, line width and line breaks, which the printers are given instead.
- `Emitting.Emitter.EmitDocumentStart`: version and tag directives, and their errors.
- `Scalars.EmitQuotedScalar`: plain, canonical and block styles, and tags. That the indentation is -1 or more
  and the width 2 or more is proved of the emitter in `Machine.ScalarsOffMargin` and `Emitting.Emitter.EmitScalar`.
- `Reader.DecodeHead`: as in the source, a later byte is looked at only when all bytes of its character are there.
- Polling: time, and interrupts within the update of one query.
- Key ordering, block scalars, plain scalars, and everything that is input and output.
