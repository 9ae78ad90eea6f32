# Verified model of the headless terminal engine

A Dafny 4.11 model of the terminal engine in `crates/terminal-core`, with the pieces around it
that decide whether what it shows can be trusted. `dafny verify dfyconfig.toml` checks everything.

- **Reflow** (`Reflow`, `Text`, `ReflowText`, `ReflowRuns`, `Ink`, `ReflowCursor`, `ReflowPairs`,
  `OneColumn`, `ReflowHandles`). Rows are joined into logical lines, spaced so that wide pairs stay on one row, and cut again at
  a new width. The four loops are methods proved against specification functions. About these:
  the text is kept, the cursor keeps its place in it, wide pairs stay whole, handles are renewed.
- **The terminal state** (`TerminalState`, `Screen`, `Scrollback`, `DamageTracker`). Classes
  updated in place. Every method is proved to produce exactly the state that the value model
  (`TerminalModel`, `TerminalResize`, `History`, `Sgr`) says.
- **What one action does** (`Printing`, `Erasure`, `CursorMoves`, `SgrEncoding`, `ScreenLaws`,
  `SnapshotLaws`). Laws that fix printing, erasure, cursor moves, SGR, screen switching and resizing
  on the alternate screen, cell by cell or through an inverse, without the functions that compute them.
- **Runs** (`TerminalRuns`, `ScreenSwitching`, `ResizeRuns`, `RunTheorems`, `Outline`, `WidePairs`,
  `PairRuns`, `PairInputs`, `TypedPages`, `AutoWrap`, `EitherScreen`, `Isolation`, `ResizeTheorems`,
  `Snapshot`, `EndToEnd`). What holds over every sequence of actions, resizes and snapshots.
- **Escape stream** (`ByteMachine`, `VteAdapter`, `Chunking`, `Framing`, `Recording`, `Protocol`).
  The chunked adapter against a byte-at-a-time machine, for every parser behind it.
- **Kernels** (`QueryResponder`, `Calendar`, `ReleasePlan`). The split-tolerant query matcher,
  the Gregorian date conversion, the publish-order check.

A state of the value model also carries two fields of history that the engine does not have:
`archived`, the rows pushed to scrollback since the last resize, and `rendered`, the viewport of
the last snapshot. In the class they are ghost fields.

## Where the code differs from what one would expect

The model follows the code in each case, gives an input, and says exactly when it happens.

- A cut between two adjacent ESC bytes can be parsed differently from the uncut stream: a held ESC
  and a following ESC both go to the parser at once. That matters if the stream ends there, or goes
  on with the introducer of a string while no DCS is open: a parser that reports its bytes then
  gives other actions (`Chunking.OutcomeIffNoCutMatters`). Otherwise nothing changes, whatever the
  parser (`Chunking.OtherCutsDoNotMatter`). Input: `Chunking.SplitEscapesDiffer`.
- A primary resize does not touch the alternate screen, and modes 47 and 1047 show it as it is,
  possibly with another size than the terminal's. `Outline.RunGoesOnIff` and
  `Outline.EnterKeepsGridIff` say exactly when, from the operations alone and mode by mode: a
  sequence that shows a stale screen and clears it again at once counts as showing it. Mode 1049 is
  never affected. Input: `Outline.StaleScreenIsReachable`.
- Erasure, cutting rows while the alternate screen is active, and a resize to one column can tear a
  wide pair. Exactly when: `PairRuns.StepKeepsPairsIff`, for every operation. Inputs:
  `PairInputs.ErasureTearsReachably`, `PairInputs.CutTearsReachably`,
  `PairInputs.OneColumnTearsReachably`.
- Blanks put in front of a wide lead at a row end stay when the screen is widened again. Reflows
  keep the text exactly when every width fits all its wide leads: `ReflowRuns.ReflowsKeepTextIff`.
  Input: `ReflowRuns.WideLineGainsBlank`. Printing gives such a blank the style of the lead, a reflow
  the default one: `TypedPages.LaidLikeSpaced`.
- Applying a colour group in two SGR sequences differs from applying it in one. Exactly when:
  `Sgr.SplitIffComplete`. Input: `Sgr.IncompleteSplitDiffers`.
- A hidden cursor becomes visible on a primary resize and, on the alternate screen, when that is
  cleared: `Outline.VisibilityFollowsOperations`. Input: `Outline.HiddenCursorComesBack`.
- The publish-order check accepts a crate that depends on itself: exactly then an accepted plan is
  cyclic (`ReleasePlan.AcceptedIsCyclicIffSelfDependent`). Input:
  `ReleasePlan.SelfDependencyIsAccepted`.
- It also judges repeated names by their last place in the order. Exactly when some listing then
  comes too early: `ReleasePlan.ListingsInOrderIff`. Input: `ReleasePlan.RepeatedNameHidesOrder`.

## Model

| member | source | states |
|---|---|---|
| AutoWrap.AutoWrapLaysOut | crates/terminal-core/src/state.rs:349-398 | Fresh primary screen of any valid size, any lines of any characters separated by CR LF, the pen changed by any SGR codes anywhere: the text of archived rows plus viewport is exactly those lines, every cell in the style of the pen at that point, leads with their spacers and a blank in the style of the lead before each lead that would start in the last column, without trailing blanks, then only empty lines |
| EitherScreen.AlternateLaysOut | crates/terminal-core/src/state.rs:349-398 | The same typed on a fresh alternate screen: it shows what a fresh primary screen shows, so behind the rows that the primary archives it reads as the same laid-out lines |
| EitherScreen.RunAlike | crates/terminal-core/src/state.rs:248-257 | Along any run of actions without DEC modes, two terminals that show the same cells, wrap marks and cursor with the same pen go on doing so, whichever screen each of them shows |
| EitherScreen.ActionAlike | crates/terminal-core/src/state.rs:248-257 | The same for one action: printing, controls, cursor moves, erasure (ED 2 included, which archives on one screen only), SGR |
| AutoWrap.AutoWrapRoundTrip | crates/terminal-core/src/state.rs:349-398 | For width-1 characters that text is the lines themselves, whatever the width |
| AutoWrap.AutoWrapThenReflow | crates/terminal-core/src/state.rs:1493-1541 | The same text is read after any number of reflows of those rows, at any widths |
| AutoWrap.TypingIsTyped | crates/terminal-core/src/state.rs:823-885 | After typing any lines in any styles, the finished lines, the unfinished one up to the cursor, and the pen are exactly what was typed |
| TypedPages.GlyphIsTyped | crates/terminal-core/src/state.rs:373-397 | A glyph of width 1 or 2 appends exactly its cells to the unfinished line, whichever column it lands in |
| TypedPages.EarlyWrapIsTyped | crates/terminal-core/src/state.rs:363-371 | A wide character without room leaves one blank in the line, in the style of the pen, and starts the next row |
| TypedPages.LaidLikeSpaced | crates/terminal-core/src/state.rs:1543-1565 | Printing and reflow put blanks before the same leads; only their style differs, the lead's for printing and the default for a reflow |
| TypedPages.CharIsTyped | crates/terminal-core/src/state.rs:349-398 | Any character, of any width and in any style, typed behind laid-out cells leaves the longer line laid out |
| TypedPages.WrapPendingPage | crates/terminal-core/src/state.rs:840-854 | A pending wrap marks the full row as wrapped, keeps all rows in order and starts the next row |
| TypedPages.LineBreakMoves | crates/terminal-core/src/state.rs:823-838 | CR LF moves to the row below and loses no row, with or without a scroll |
| TypedPages.MoveDownPage | crates/terminal-core/src/state.rs:856-885 | Moving down only ever appends a blank row to history plus viewport; the cursor is one row further |
| ReflowText.ReflowSpacesText | crates/terminal-core/src/state.rs:1493-1541 | Text after a reflow: same number of lines, each the old line (trailing blanks stripped) with a blank put in front of every wide lead that would start in the last column |
| ReflowRuns.ReflowKeepsTextIff | crates/terminal-core/src/state.rs:1493-1541 | A reflow keeps the text if and only if no wide lead of any line would start in the last column of the new width |
| ReflowRuns.ReflowsKeepTextIff | crates/terminal-core/src/state.rs:1493-1541 | Any sequence of reflows keeps the text if and only if each of its widths fits all wide leads of the text; an inserted blank is never taken back |
| ReflowRuns.WideLineGainsBlank | crates/terminal-core/src/state.rs:1543-1565 | A concrete wide line whose text gains a blank at two columns, still there back at four |
| ReflowRuns.ReflowsKeepText | crates/terminal-core/src/state.rs:1493-1541 | Without wide cells any sequence of reflows reads as if none had happened |
| ReflowText.SpacedIsSameIff | crates/terminal-core/src/state.rs:1543-1565 | Spacing leaves a line alone if and only if no wide lead of it stands in a last column |
| ReflowText.SpacedInsertsBlanks | crates/terminal-core/src/state.rs:1543-1565 | Boundary spacing only adds blank cells, each directly in front of a wide lead; without wide cells it changes nothing |
| ReflowText.SpacedSplit | crates/terminal-core/src/state.rs:1543-1565 | Spacing a front part of a line gives a front part of the spaced line, strictly shorter if cells are left |
| ReflowText.SpacedKeepsTail | crates/terminal-core/src/state.rs:1543-1565 | Cells without wide leads pass through the spacing unchanged |
| ReflowText.StripSpaced | crates/terminal-core/src/state.rs:1543-1565 | Stripping trailing empty cells and spacing commute |
| ReflowText.GatherIsJoin | crates/terminal-core/src/state.rs:1567-1643 | Grouping rows for a reflow agrees with joining them on the wrap flag, up to empty cells at line ends |
| ReflowText.GroupedLinesAreLines | crates/terminal-core/src/state.rs:1567-1643 | The lines to reflow are the logical lines of the rows, each missing at most empty cells at its end |
| ReflowText.CutJoinsLine | crates/terminal-core/src/state.rs:1645-1674 | Joining the rows cut from a line gives the line back, padded with blanks to whole rows |
| ReflowText.CutJoinsPrefix | crates/terminal-core/src/state.rs:1645-1674 | The first k rows cut from a line hold its first k * columns cells, and all of them are wrapped |
| ReflowText.AddLinesJoins | crates/terminal-core/src/state.rs:1513-1533 | The rows put out for a list of lines join to exactly these lines, spaced and padded |
| Text.EmptyCellsShowNothing | crates/terminal-core/src/state.rs:1321-1330 | A cell is empty if and only if it is a blank or a tab that looks like an untouched cell; bold and italic do not count |
| Text.EmptyRowsHaveNoText | crates/terminal-core/src/state.rs:1295-1297 | A row is empty if and only if it is not marked as wrapped and has no text |
| Text.OccupiedCellCount | crates/terminal-core/src/state.rs:1714-1719 | One past the last non-empty cell: every later cell is empty |
| Text.StripIgnoresEmptyTail | crates/terminal-core/src/state.rs:1714-1719 | Empty cells at the end do not change the stripped text |
| Text.JoinAllAppend | crates/terminal-core/src/state.rs:1567-1643 | Joining rows can be done in two parts |
| Reflow.LogicalLines | crates/terminal-core/src/state.rs:1567-1643 | The loop over the rows computes the grouped lines, with cursor offset and handles |
| Reflow.WithWideBoundarySpacers | crates/terminal-core/src/state.rs:1543-1565 | The loop computes the spaced line and moves the cursor offset by the blanks inserted before it |
| Reflow.VisualRows | crates/terminal-core/src/state.rs:1645-1674 | The loop cuts rows of the given width; handles are the line's own, one generation later, then fresh ids |
| Reflow.VisualCount | crates/terminal-core/src/state.rs:1646 | Number of rows of a line: the least positive number of rows that holds it |
| Reflow.ReflowRows | crates/terminal-core/src/state.rs:1493-1541 | Grouping, spacing, cutting and cursor placement together; an empty result becomes one blank row |
| ReflowCursor.ReflowKeepsCursor | crates/terminal-core/src/state.rs:1493-1541 | The placed row and column are the old offset in the same logical line plus the blanks inserted before it; one less exactly when the cursor stood at the end of an exactly full line, which becomes the last column with a wrap pending. The row is among the output rows, and a pending wrap implies the last column |
| ReflowCursor.PlacementEncodesOffset | crates/terminal-core/src/state.rs:1684-1712 | row * columns + column is the offset (or one less as above), the row lies among the rows of the line, and the exact condition for a pending wrap |
| ReflowCursor.GatherCursor | crates/terminal-core/src/state.rs:1583-1620 | Exactly one logical line carries the cursor, at the offset of the cell it stands on |
| ReflowCursor.AddLinesCursor | crates/terminal-core/src/state.rs:1513-1529 | The cursor is placed in the rows of its own line, after all rows of earlier lines |
| ReflowCursor.RowsOfLine | crates/terminal-core/src/state.rs:1513-1529 | Row k cut from a line starts at offset k * columns of that line in the output |
| ReflowCursor.LinesKeepCursor | crates/terminal-core/src/state.rs:1513-1529 | Position of the placed cursor read back from the output rows |
| ReflowPairs.ReflowKeepsPairs | crates/terminal-core/src/state.rs:1543-1674 | Reflow to at least two columns keeps every wide lead and its spacer side by side in one row |
| OneColumn.ReflowToOneColumnIff | crates/terminal-core/src/state.rs:1543-1674 | Reflow to one column keeps pairs if and only if the rows hold no wide cell and no spacer |
| OneColumn.TextIsNarrowIff | crates/terminal-core/src/state.rs:1714-1719 | The text of rows has a wide cell or a spacer if and only if the rows have one |
| ReflowPairs.SpacedKeepsPairs | crates/terminal-core/src/state.rs:1543-1565 | After spacing no lead starts in the last column and no pair is torn |
| ReflowPairs.GatherKeepsPairs | crates/terminal-core/src/state.rs:1592-1625 | Segments taken from rows never end between a lead and its spacer |
| ReflowPairs.CutRowKeepsPairs | crates/terminal-core/src/state.rs:1645-1674 | Cutting a spaced line at multiples of the width tears no pair |
| ReflowPairs.CutKeepsPairsIff | crates/terminal-core/src/state.rs:1299-1303 | A cut keeps pairs if and only if it does not fall directly in front of a spacer |
| PairRuns.RunKeepsPairsIff | crates/terminal-core/src/state.rs:349-428 | Along any run all pairs are whole in every state if and only if no operation splits one: an erasure at an end of its range on the cursor row, a resize on the alternate screen at the new width of a row that stays, or a primary resize to one column with a half in a row that stays |
| PairRuns.StepKeepsPairsIff | crates/terminal-core/src/state.rs:248-281 | The same for one operation, whatever it is |
| PairRuns.OneColumnKeepsPairsIff | crates/terminal-core/src/state.rs:1055-1107 | A primary resize to one column keeps pairs if and only if the reflowed rows that stay in history and viewport hold no wide cell and no spacer |
| PairRuns.ErasureKeepsPairsIff | crates/terminal-core/src/state.rs:630-675 | ED, EL and ECH keep all pairs if and only if no end of the erased range on the cursor row splits one; ED 2 always does |
| PairRuns.AlternateResizeKeepsPairsIff | crates/terminal-core/src/state.rs:1159-1165 | A resize on the alternate screen keeps all pairs if and only if the cut splits none in the rows of both screens and of the history that stay |
| PairInputs.ErasureTearsReachably | crates/terminal-core/src/state.rs:664-675 | A concrete run: print a wide character, step back onto its spacer, ECH 1 tears the pair |
| PairInputs.CutTearsReachably | crates/terminal-core/src/state.rs:1159-1165 | A concrete run: mode 1049, print a wide character, resize to one column tears the pair |
| PairInputs.OneColumnTearsReachably | crates/terminal-core/src/state.rs:1055-1107 | A concrete run on 2 x 1: print a wide character, resize the primary screen to one column tears the pair |
| PairRuns.DisplayAllKeepsPairs | crates/terminal-core/src/state.rs:960-981 | ED 2 keeps all pairs |
| WidePairs.PrintKeepsPairs | crates/terminal-core/src/state.rs:349-398 | Printing over either half of a pair blanks the other half; all pairs stay whole |
| WidePairs.GlyphKeepsPairs | crates/terminal-core/src/state.rs:375-387 | On one row: writing a glyph of width 1 or 2 after clearing the partners keeps pairs |
| WidePairs.UnpairedFrees | crates/terminal-core/src/state.rs:400-428 | Clearing the partner leaves a row whose only possibly torn cell is the one about to be overwritten |
| WidePairs.WriteGlyphWrites | crates/terminal-core/src/state.rs:375-387 | The four in-place updates of a glyph change one row, to the row with both partners cleared and the glyph written |
| WidePairs.PlaceGlyphWrites | crates/terminal-core/src/state.rs:373-397 | Printing a glyph changes one row and the cursor, nothing else of the screen; wrap pending exactly when the glyph ends in the last column |
| WidePairs.EraseKeepsPairsIff | crates/terminal-core/src/state.rs:1025-1053 | Erasing a range keeps pairs if and only if neither of its ends splits one |
| WidePairs.ResizeWidthKeepsPairsIff | crates/terminal-core/src/state.rs:1299-1303 | Cutting or padding a row keeps pairs if and only if the cut does not split one |
| WidePairs.PrimaryResizeKeepsPairs | crates/terminal-core/src/state.rs:1055-1107 | A primary resize to two or more columns keeps pairs in history and viewport |
| ResizeTheorems.ViewportAfterResize | crates/terminal-core/src/state.rs:1077-1106 | Where the viewport lies on the n reflowed rows, said without the split: the cursor is on viewport row max(cursorRow - max(n - rows, 0), 0); everything above goes to history (as far as the budgets allow) and the viewport goes on from there, row by row, then blank rows. Blank rows only if nothing went to history; rows are lost below only if the cursor's row is on top; if all rows fit the height, history is empty and the viewport begins with them |
| TerminalResize.HeightKeepsRows | crates/terminal-core/src/state.rs:1109-1157 | A height change keeps the order of all rows and says exactly which go: the oldest that no longer fit the budgets once the rows above the viewport are archived, and the lowest without a place in the new height; blank rows are added exactly when there are fewer rows than the height |
| TerminalResize.HeightMovesMark | crates/terminal-core/src/state.rs:1109-1157 | Counted from the oldest row the cursor moves up by exactly the rows that fell to the budgets |
| TerminalResize.HeightKeepsCursorRow | crates/terminal-core/src/state.rs:1109-1157 | A height change leaves the cursor on the same row (contents and handle), column and pending wrap |
| TerminalResize.HeightMarkInside | crates/terminal-core/src/state.rs:1055-1068 | After the height change the cursor handed to the reflow lies inside the rows to reflow |
| TerminalResize.ReflowedCursorInside | crates/terminal-core/src/state.rs:1055-1080 | The reflowed cursor is a cell of the reflowed rows |
| TerminalResize.SplitKeepsCursorRow | crates/terminal-core/src/state.rs:1077-1093 | The split puts the cursor's row into the viewport, and the clamp to the last row never changes it |
| ResizeTheorems.ResizeKeepsCursorPlace | crates/terminal-core/src/state.rs:1055-1107 | Whole primary resize: the cursor is in the same logical line of scrollback ++ viewport as in the rows before the resize (without the oldest, which fell to the budgets), at its old offset plus inserted blanks, one less at the end of an exactly full line |
| ResizeTheorems.HeightKeepsPlace | crates/terminal-core/src/state.rs:1109-1157 | The rows handed to the reflow agree with the rows before the resize up to and including the cursor row |
| ResizeTheorems.ResizeKeepsTextIff | crates/terminal-core/src/state.rs:1055-1107 | For every new size: the text of the rows that the budgets leave is kept, up to empty lines at its end and blanks before wide leads, if and only if the rows dropped by the height change and those below the new viewport hold only empty cells |
| Ink.DropKeepsTextIff | crates/terminal-core/src/state.rs:1714-1719 | Leaving out rows at the end keeps the text, up to empty lines at its end, if and only if all their cells are empty |
| Ink.TextKeepsInk | crates/terminal-core/src/state.rs:1567-1643 | The text of rows holds exactly as many non-empty cells as the rows |
| ResizeTheorems.UntrimmedRows | crates/terminal-core/src/state.rs:1077-1106 | History and viewport are the reflowed rows without those below the viewport, then blank rows; the cursor row is never lost, and nothing is when all rows fit below it |
| ResizeTheorems.LostBelowSize | crates/terminal-core/src/state.rs:1077-1093 | Exactly as many rows are lost below the viewport as the spaced lines need beyond the cursor row and the height |
| ResizeRuns.ResizeKeeps | crates/terminal-core/src/state.rs:264-281 | Every resize keeps the invariant (grid, handles, history, damage), including refused and unchanged sizes |
| ResizeRuns.RebuiltKeeps | crates/terminal-core/src/state.rs:1055-1165 | Rows of rebuilt buffers are next generations of old rows or have fresh ids, and ids stay distinct over all buffers; every rebuilt buffer gets the new size |
| ResizeRuns.PrimaryResizeRenews | crates/terminal-core/src/state.rs:1055-1107 | Handles of history and viewport after a primary resize: next generations of surviving rows or fresh ids, all distinct |
| ResizeRuns.AlternateResizeRenews | crates/terminal-core/src/state.rs:1159-1165 | The same for both screens when the alternate screen is active |
| ResizeRuns.PrimaryResizeFits | crates/terminal-core/src/state.rs:1055-1107 | After a primary resize the viewport is exactly the new size, history has the new width and fits its budgets |
| ReflowHandles.ReflowRenewsHandles | crates/terminal-core/src/state.rs:1645-1674 | Reflowed rows have the new width, pairwise distinct ids, and each surviving id exactly one generation later |
| ReflowHandles.CutRenews | crates/terminal-core/src/state.rs:1655-1664 | The rows cut from one line take its handles one generation later, then fresh ids |
| ReflowHandles.GroupedHandles | crates/terminal-core/src/state.rs:1567-1643 | Grouping keeps every handle, in order |
| RunTheorems.RunKeeps | crates/terminal-core/src/state.rs:217-281 | The invariant holds after every run from a state that satisfies it: grid, distinct handles, scrollback rule, complete damage; rows evolve only forwards |
| RunTheorems.StepKeeps | crates/terminal-core/src/state.rs:248-281 | The same for one action, resize or snapshot |
| RunTheorems.InitialInv | crates/terminal-core/src/state.rs:218-234 | A new terminal satisfies the invariant |
| RunTheorems.ReachableGrid | crates/terminal-core/src/state.rs:324-398 | In every reachable state the primary and an active alternate screen are exactly rows x columns, scrollback rows are as wide, the cursor is on the screen, a pending wrap means the last column, damaged rows exist |
| RunTheorems.ReachableScrollback | crates/terminal-core/src/state.rs:1339-1419 | In every reachable state the scrollback is the longest suffix of the rows archived since the last resize that fits both budgets |
| RunTheorems.RunStopsOnlyOnStaleScreen | crates/terminal-core/src/state.rs:887-895 | A run goes on if and only if the next action does not show an alternate screen of another size |
| RunTheorems.HandleNamesOneRow | crates/terminal-core/src/state.rs:1401-1406 | Two successful lookups of the same handle at any two times of a run return equal rows |
| RunTheorems.ResizeRaisesGenerations | crates/terminal-core/src/state.rs:264-281 | A resize to other dimensions puts every surviving row of primary and scrollback exactly one generation later |
| RunTheorems.AlternateResizeRaisesGenerations | crates/terminal-core/src/state.rs:1159-1165 | The same for the rows of an active alternate screen |
| RunTheorems.RendererShowsViewport | crates/terminal-core/src/state.rs:259-262 | A renderer that redraws only the damaged rows of what it showed before holds exactly the viewport after every snapshot of every run, resizes and screen switches included |
| RunTheorems.CanvasIsRendered | crates/terminal-core/src/state.rs:1442-1451 | What such a renderer shows is always the viewport of the last snapshot |
| TerminalRuns.PrintKeeps | crates/terminal-core/src/state.rs:349-398 | Printing keeps the invariant |
| TerminalRuns.WrapPendingKeeps | crates/terminal-core/src/state.rs:840-854 | Wrapping keeps the invariant, and the row marked as wrapped is damaged |
| TerminalRuns.ScrollKeeps | crates/terminal-core/src/state.rs:873-885 | Scrolling keeps handles distinct, moves the top row to history unchanged and damages the viewport |
| TerminalRuns.ScrollPrimary | crates/terminal-core/src/state.rs:873-885 | History plus viewport after a scroll: the same rows without the oldest ones that fell to the budget, plus one blank row |
| TerminalRuns.EraseDisplayAllKeeps | crates/terminal-core/src/state.rs:960-981 | ED 2 keeps the invariant although it archives rows one by one |
| TerminalRuns.PlainCsiKeeps | crates/terminal-core/src/state.rs:461-480 | Every CSI sequence without intermediates keeps the invariant |
| TerminalRuns.LocalKeeps | crates/terminal-core/src/state.rs:614-628 | Whatever changes rows in place and damages them keeps the invariant |
| TerminalRuns.EvolvesTransitive | crates/terminal-core/src/state.rs:1401-1406 | Handle soundness composes along a run |
| ScreenSwitching.DecModesKeep | crates/terminal-core/src/state.rs:482-530 | A whole DEC mode sequence keeps the invariant unless it shows a stale alternate screen |
| ScreenSwitching.DecModeKeeps | crates/terminal-core/src/state.rs:491-526 | The same for one mode: cursor visibility, 47, 1047, 1048, 1049, set and reset |
| Outline.EnterKeepsGridIff | crates/terminal-core/src/state.rs:887-895 | After any run, showing the alternate screen without clearing keeps the grid if and only if the size it got at the start, at its last clear, or at the last resize while it was shown equals the current size |
| Outline.RunGoesOnIff | crates/terminal-core/src/state.rs:887-895 | A run from a new terminal goes on to its end if and only if its operations, read without any terminal state, never set mode 47 or 1047 while the two sizes differ; sizes, shown screen and cursor visibility are what the operations alone say |
| Outline.StaleScreenIsReachable | crates/terminal-core/src/state.rs:1055-1107 | A concrete run: 80 x 24, resize to 100 x 30, mode 47 shows a screen that is still 80 x 24 |
| Outline.VisibilityFollowsOperations | crates/terminal-core/src/state.rs:623-628 | After any run each cursor is visible exactly as the operations say: mode 25, a primary resize, a clear of the alternate screen |
| Outline.HiddenCursorComesBack | crates/terminal-core/src/state.rs:1102-1106 | A concrete run: a cursor hidden by mode 25 is visible again after a resize |
| ScreenSwitching.ResetKeepsHandles | crates/terminal-core/src/state.rs:1215-1217 | Clearing the alternate screen reissues ids that clash with no row anywhere |
| Isolation.AlternateScreenIsIsolated | crates/terminal-core/src/state.rs:482-530 | 1049 set, any run that stays on the alternate screen without a resize, 1049 reset: primary rows, scrollback and cursor position are exactly as before, nested cursor saves included; says exactly when a pending wrap survives |
| Isolation.RunStaysBehind | crates/terminal-core/src/state.rs:887-933 | During such a run the primary screen and the history never change, and a saved primary cursor is the one the primary screen has |
| Isolation.LeaveRestores | crates/terminal-core/src/state.rs:897-933 | Leaving restores rows, history and cursor position of the primary screen |
| EndToEnd.ScreenIgnoresChunks | crates/terminal-core/src/lib.rs:58-66 | Two ways of cutting the same bytes in which no cut matters leave the same terminal state, in particular if both keep adjacent ESC bytes together |
| EndToEnd.ReachableSnapshotHasShape | crates/terminal-core/src/state.rs:324-347 | Every snapshot of every reachable state passes the shape part of the snapshot check |
| Snapshot.SnapshotHasShape | crates/terminal-fixtures/src/lib.rs:2261-2338 | Snapshots of invariant states pass the shape checks; the remaining limits hold if and only if history is short enough |
| Snapshot.AlternateSnapshotPasses | crates/terminal-fixtures/src/lib.rs:2261-2338 | A snapshot taken on the alternate screen always passes shape and size checks |
| Snapshot.ValidateSnapshot | crates/terminal-fixtures/src/lib.rs:2261-2338 | Accepts exactly the snapshots with the right shape and bounded size; a rejection names the first check that fails, and what it says is true of the snapshot |
| Snapshot.ValidateWidths | crates/terminal-fixtures/src/lib.rs:2291-2313 | Finds the first row of the wrong width if there is one, and otherwise counts the cells |
| Snapshot.CellCountOfGrid | crates/terminal-fixtures/src/lib.rs:2291-2313 | Cells of a grid are rows times columns |
| Printing.PrintingPrints | crates/terminal-core/src/state.rs:349-428 | No wrap pending and room for it: the glyph stands at the cursor in the pen's style with its spacer; the half of a pair left standing beside it becomes a blank of its own style; every other cell, handle and wrap mark stays; the cursor is behind the glyph, or in the last column with a wrap pending exactly when the row is full; exactly the cursor row is damaged. Without a width nothing happens |
| Printing.WideLeavesBlank | crates/terminal-core/src/state.rs:363-371 | A wide character in the last column: as if a blank in the pen's style had been printed there first |
| Printing.PendingWrapIsNewLine | crates/terminal-core/src/state.rs:840-854 | A pending wrap, before any character, even one without a width: the row is marked as wrapped, then a carriage return and a line feed |
| Printing.PlaceGlyphPrints | crates/terminal-core/src/state.rs:373-397 | The same for a glyph of width 1 or 2, however torn the pairs of the row are |
| Erasure.ErasingErases | crates/terminal-core/src/state.rs:630-675 | ED, EL and ECH in every mode: a cell of the shown screen is blank with the stated background exactly when it lies in the range, in reading order for ED and in columns of the cursor row for EL and ECH; every other cell is as before; a row loses its wrap mark exactly when its last column is in range; the cursor stays, no wrap is pending, exactly the rows with an erased cell are damaged. EL 0 while a wrap is pending and modes above 2 change nothing |
| Erasure.EraseAllErases | crates/terminal-core/src/state.rs:960-981 | ED 2 on both screens: everything blank; on the primary screen the top rows up to the last one that is not empty, at least one, go to history in order; on the alternate screen none |
| Erasure.FillErases | crates/terminal-core/src/state.rs:1025-1053 | One range of one row: blank with the background in the range, as before outside |
| Erasure.ScrollMovesUp | crates/terminal-core/src/state.rs:873-885 | A scroll moves every row up by one; only the primary screen archives the row that leaves |
| Erasure.ScrollTimesArchives | crates/terminal-core/src/state.rs:971-976 | Scrolling n times archives the top n rows in order |
| CursorMoves.CupPlaces | crates/terminal-core/src/state.rs:532-539 | CUP and HVP put the cursor at (min(p, rows) - 1, min(q, columns) - 1); a missing or zero parameter counts as 1; a pending wrap is gone, no cell changes, the old and the new row are damaged |
| CursorMoves.MovesAreShortForCup | crates/terminal-core/src/state.rs:541-612 | CUU, CUD, CUF, HPR, CUB, CNL, CPL, CHA, HPA and VPA leave the state that CUP to the explicit one-based target leaves |
| CursorMoves.MovesWithRoomAreExact | crates/terminal-core/src/state.rs:541-581 | Where the screen leaves room, up, down, forward and back by n go exactly n rows or columns |
| CursorMoves.LineFeedGoesDown | crates/terminal-core/src/state.rs:835-885 | A line feed goes down in the same column, or scrolls at the bottom: every row up by one, a blank row with a fresh id, the top row archived on the primary screen only |
| CursorMoves.TabGoesToNextStop | crates/terminal-core/src/state.rs:807-821 | A tab goes to the next multiple of eight, or to the last column if there is none before it; no stop is skipped |
| CursorMoves.BackspaceAndReturn | crates/terminal-core/src/state.rs:677-689 | BS steps back and CR goes to the first column; both drop a pending wrap |
| CursorMoves.FirstSubparameterCounts | crates/terminal-core/src/state.rs:461-480 | Outside SGR a sequence without intermediates does what it does with only the first subparameter of each parameter; none counts like zero |
| CursorMoves.SgrCountsAllSubparameters | crates/terminal-core/src/state.rs:691-697 | In SGR all subparameters count, in order, as if they were parameters |
| CursorMoves.SgrSetsThePen | crates/terminal-core/src/state.rs:691-705 | SGR changes the pen and nothing else |
| ScreenLaws.ModesOneByOne | crates/terminal-core/src/state.rs:482-530 | Several modes in one sequence are one sequence for each, in order; the first subparameter of each counts, an empty one does nothing |
| ScreenLaws.Set1049ShowsBlank | crates/terminal-core/src/state.rs:887-912 | 1049 set on either screen: a blank alternate screen with the cursor home and visible, the shown cursor saved, primary screen and history as they were, everything damaged |
| ScreenLaws.Mode47ShowsAsItIs | crates/terminal-core/src/state.rs:887-905 | 47 and 1047 show the alternate screen as it is; resetting 47 leaves it as it is |
| ScreenLaws.Reset1047ClearsWhatItLeaves | crates/terminal-core/src/state.rs:897-905 | Resetting 1047 clears the alternate screen exactly if it is shown |
| ScreenLaws.Mode1048SavesAndRestores | crates/terminal-core/src/state.rs:907-933 | 1048 set saves the shown cursor and changes nothing else; reset restores a cursor saved on the shown screen, clamped, and otherwise does nothing |
| ScreenLaws.SaveThenRestore | crates/terminal-core/src/state.rs:907-933 | 1048 set, any run without modes and resizes, 1048 reset: the cursor is where it was |
| ScreenLaws.ResizeCutsBothScreens | crates/terminal-core/src/state.rs:1159-1165 | A resize while the alternate screen is shown: both screens keep their top rows, cut or padded one generation on, blank rows make up the height, each cursor stays or moves to the nearest cell, no wrap is pending; the history rows are cut or padded and then trimmed to the budgets |
| ScreenLaws.ResizeVisibleCuts | crates/terminal-core/src/state.rs:1227-1247 | The same for one screen |
| ScreenLaws.PrimaryResizeLeavesTheRest | crates/terminal-core/src/state.rs:1055-1107 | A primary resize leaves the alternate screen, the pen and the saved cursor alone |
| ScreenLaws.ReportedChangesNothing | crates/terminal-core/src/state.rs:442-459 | What is reported as unsupported has changed nothing: a sequence that the parser gave up on, or ED and EL in a mode above 2; nothing else is reported |
| ScreenLaws.SizesInLimitsAreTaken | crates/terminal-core/src/state.rs:34-53 | Sizes up to 4096 by 4096 with at most 1048576 cells are taken |
| ScreenLaws.OtherSizesChangeNothing | crates/terminal-core/src/state.rs:264-281 | Other sizes, and the current one, change nothing |
| SnapshotLaws.SnapshotTellsState | crates/terminal-core/src/state.rs:324-347 | A snapshot loses nothing that can be shown: terminals with equal snapshots have the same size, shown screen, rows, damage and, on the primary screen, history; only the column of a cursor on a spacer and a pending wrap cannot be told |
| SnapshotLaws.NextSnapshotIsClean | crates/terminal-core/src/state.rs:259-262 | Taking a snapshot only drains the damage: the next one is the same without any |
| SnapshotLaws.ShownCursorAvoidsSpacers | crates/terminal-core/src/state.rs:324-347 | While pairs are whole, the shown cursor never stands on a spacer: it is the real one, except on a spacer, where it is one column to the left on the lead of that pair |
| History.RetainedIsLongestFittingSuffix | crates/terminal-core/src/state.rs:1383-1391 | What trimming leaves is a suffix that fits both budgets, and no longer suffix does |
| History.RetainedStreams | crates/terminal-core/src/state.rs:1349-1357 | Trimming after every push keeps the same rows as trimming once at the end |
| History.BytesConcat | crates/terminal-core/src/state.rs:1393-1395 | Byte counts add up |
| History.NoBudgetNothingRetained | crates/terminal-core/src/state.rs:1350-1352 | With a zero budget nothing is kept |
| History.Find | crates/terminal-core/src/state.rs:1401-1406 | Lookup by handle returns a row of the history with that handle, or none exists |
| Scrollback.Scrollback.Push | crates/terminal-core/src/state.rs:1349-1357 | Contents become the longest fitting suffix of the old contents plus the row; byte count stays the exact sum |
| Scrollback.Scrollback.ReplaceRows | crates/terminal-core/src/state.rs:1359-1363 | Contents become the longest fitting suffix of the new rows |
| Scrollback.Scrollback.ResizeWidth | crates/terminal-core/src/state.rs:1365-1371 | Every row is cut or padded and moves one generation on, then the budgets apply |
| Scrollback.Scrollback.PopBack | crates/terminal-core/src/state.rs:1377-1381 | Takes exactly the newest row and its bytes |
| Scrollback.Scrollback.Trim | crates/terminal-core/src/state.rs:1383-1391 | Drops oldest rows until both budgets hold, and no more; the branch for an empty queue is never taken |
| Scrollback.Scrollback.RecalculateByteLen | crates/terminal-core/src/state.rs:1393-1395 | The byte count becomes the exact sum of the row sizes |
| Scrollback.Scrollback.RowFor | crates/terminal-core/src/state.rs:1401-1406 | Scan for a handle |
| TerminalState.TerminalState.constructor | crates/terminal-core/src/state.rs:218-234 | Two blank screens, all rows damaged, ids issued in order |
| TerminalState.TerminalState.ApplyAction | crates/terminal-core/src/state.rs:248-257 | Dispatch on the action; the generated reports are exactly those of the sequence |
| TerminalState.TerminalState.RenderSnapshot | crates/terminal-core/src/state.rs:259-262 | Hands out the viewport, the history of an active primary screen, the shown cursor and the damaged rows in order; drains the damage and nothing else |
| TerminalState.TerminalState.Resize | crates/terminal-core/src/state.rs:264-281 | Refuses exactly the invalid dimensions and then changes nothing; otherwise the whole new state |
| TerminalState.TerminalState.Print | crates/terminal-core/src/state.rs:349-398 | Pending wrap first, width 0 ignored, early wrap before a wide character in the last column |
| TerminalState.TerminalState.WriteGlyph | crates/terminal-core/src/state.rs:375-387 | Partners of every overwritten cell are cleared, then lead and spacer written |
| TerminalState.TerminalState.PlaceGlyph | crates/terminal-core/src/state.rs:373-397 | Cursor behind the glyph, or last column with a wrap pending |
| TerminalState.TerminalState.WrapBeforeWide | crates/terminal-core/src/state.rs:363-371 | Blanks the last column and wraps |
| TerminalState.TerminalState.ClearWidePartnerAt | crates/terminal-core/src/state.rs:400-428 | Blanks the other half of a pair, keeping its style, and damages the row |
| TerminalState.TerminalState.ApplyCsi | crates/terminal-core/src/state.rs:442-459 | Ignored sequences change nothing and are reported; dispatch on intermediates |
| TerminalState.TerminalState.ApplyDecPrivateMode | crates/terminal-core/src/state.rs:482-530 | Modes in order, first subparameter only |
| TerminalState.TerminalState.MoveCursor | crates/terminal-core/src/state.rs:532-612 | The cursor-moving sequences with their defaults, zero handling and clamps; what they do is fixed by `CursorMoves.MovesAreShortForCup` and `CursorMoves.CupPlaces` |
| TerminalState.TerminalState.SetCursorPosition | crates/terminal-core/src/state.rs:614-621 | Clears a pending wrap; damages the old and the new cursor row |
| TerminalState.TerminalState.EraseInLine | crates/terminal-core/src/state.rs:647-662 | EL dispatch; EL 0 does nothing while a wrap is pending |
| TerminalState.TerminalState.EraseCharacters | crates/terminal-core/src/state.rs:664-675 | ECH clamped to the row |
| TerminalState.TerminalState.WrapPending | crates/terminal-core/src/state.rs:840-854 | Marks the row as wrapped, moves down, column 0 |
| TerminalState.TerminalState.MoveDownOrScroll | crates/terminal-core/src/state.rs:856-871 | One row down, or a scroll at the bottom |
| TerminalState.TerminalState.ScrollActiveScreenUp | crates/terminal-core/src/state.rs:873-885 | Top row to scrollback on the primary screen only; new blank row with a fresh id; all rows damaged |
| TerminalState.TerminalState.RestoreCursor | crates/terminal-core/src/state.rs:914-933 | Only a cursor saved on the active screen, clamped |
| TerminalState.TerminalState.EraseDisplayFromCursor | crates/terminal-core/src/state.rs:935-946 | ED 0: the cursor row from the cursor on, with the pen's background, and every row below; fixed cell by cell by `Erasure.ErasingErases` |
| TerminalState.TerminalState.EraseDisplayToCursor | crates/terminal-core/src/state.rs:948-958 | ED 1: every row above, and the cursor row up to the cursor; fixed cell by cell by `Erasure.ErasingErases` |
| TerminalState.TerminalState.EraseDisplayAll | crates/terminal-core/src/state.rs:960-981 | ED 2: on the primary screen occupied rows are archived one by one first |
| TerminalState.TerminalState.FillErasedCells | crates/terminal-core/src/state.rs:1025-1053 | The loop erases exactly the range, with the background; the wrap flag goes only when the last column is erased |
| TerminalState.TerminalState.ShrinkPrimaryHeight | crates/terminal-core/src/state.rs:1111-1129 | Rows above the cursor go to scrollback one by one, rows below are dropped |
| TerminalState.TerminalState.GrowPrimaryHeight | crates/terminal-core/src/state.rs:1130-1156 | Rows come back from scrollback, then blank rows are added |
| TerminalState.TerminalState.ArchiveTopRows | crates/terminal-core/src/state.rs:1115-1120 | Pushing the top rows one by one leaves the longest fitting suffix of history plus these rows |
| TerminalState.TerminalState.DropBottomRows | crates/terminal-core/src/state.rs:1121-1123 | Rows below the new height go, from the bottom up |
| TerminalState.TerminalState.PullFromHistory | crates/terminal-core/src/state.rs:1134-1139 | Taking rows back one by one gives the newest rows in order, on top of the viewport |
| TerminalState.TerminalState.ResizeActivePrimary | crates/terminal-core/src/state.rs:1055-1107 | Height, reflow and split in order; where the viewport ends up is fixed by `ResizeTheorems.ViewportAfterResize` |
| TerminalState.TerminalState.InstallReflowed | crates/terminal-core/src/state.rs:1077-1106 | Split at the bottom, or higher so that the cursor row stays visible; fixed by `ResizeTheorems.ViewportAfterResize` |
| TerminalState.TerminalState.ResizeWhileAlternateActive | crates/terminal-core/src/state.rs:1159-1165 | Cuts or pads both screens and the history, without reflow |
| Screen.Screen.ResizeVisible | crates/terminal-core/src/state.rs:1227-1247 | Rows cut or padded, rows dropped or added, cursor clamped, pending wrap cleared |
| Screen.Screen.ScrollUp | crates/terminal-core/src/state.rs:1257-1264 | Top row out, new row in at the bottom; an empty screen gives the new row back |
| Screen.Screen.New | crates/terminal-core/src/state.rs:1199-1213 | A blank screen with consecutive fresh ids |
| Screen.PadRows | crates/terminal-core/src/state.rs:1721-1725 | Blank rows with consecutive fresh ids up to the height |
| DamageTracker.DamageTracker.DirtyAll | crates/terminal-core/src/state.rs:1426-1432 | Exactly all rows |
| DamageTracker.DamageTracker.Take | crates/terminal-core/src/state.rs:1442-1451 | One full-width region per damaged row, in ascending order, and no other; the set is drained |
| TerminalModel.OccupiedRows | crates/terminal-core/src/state.rs:965-970 | One past the last row that is not empty, and at least 1; every later row is empty |
| SgrEncoding.EncodedSelects | crates/terminal-core/src/state.rs:691-805 | Round trip through an encoder: for every style with colours up to 255, the list 0, then 1, 3, 4, 7 as set, then 30 + i, 90 + i - 8, 38;5;i or 38;2;r;g;b, and the same for the background, turns any style into exactly that one; also with the long form of the colours 0 to 15 |
| SgrEncoding.OffCodesUndo | crates/terminal-core/src/state.rs:709-766 | 22, 23, 24, 27, 39 and 49 put exactly their attribute back to its default; 0 and the empty list put back all |
| SgrEncoding.LargeComponentsAreCut | crates/terminal-core/src/state.rs:768-805 | Colour components above 255 count as 255 |
| Sgr.SplitIffComplete | crates/terminal-core/src/state.rs:691-805 | A nonempty list can be applied in two pieces, whatever style and continuation, if and only if its scan leaves no 38/48 colour group incomplete (ECMA-48 section 8.3.117) |
| Sgr.ScanSplits | crates/terminal-core/src/state.rs:691-805 | Complete lists followed by any list: same as one after the other |
| Sgr.IncompleteSplitDiffers | crates/terminal-core/src/state.rs:768-800 | For each incomplete list, a continuation for which the two readings differ |
| Sgr.LaterGroupWins | crates/terminal-core/src/state.rs:707-801 | Of two groups for the same attribute the later wins; groups for different attributes commute |
| Sgr.GroupSetsItsAttribute | crates/terminal-core/src/state.rs:709-800 | A group sets its one attribute to a value that does not depend on the style and leaves the others; other codes change nothing, except the reset |
| Sgr.ResetForgets | crates/terminal-core/src/state.rs:709-717 | After a complete list and a reset, nothing of the earlier style is left |
| Sgr.ApplySgr | crates/terminal-core/src/state.rs:691-805 | The loop terminates and applies the groups in order; which value each code gives is fixed by `SgrEncoding.EncodedSelects` and `SgrEncoding.OffCodesUndo` |
| Chunking.ChunkingDoesNotMatter | crates/terminal-core/src/vte_adapter.rs:29-106 | For any byte-at-a-time parser and any cutting that separates no two adjacent ESC bytes, repeated calls emit the actions of one call and end in its state |
| Chunking.TogetherCutsDoNotMatter | crates/terminal-core/src/vte_adapter.rs:29-106 | If no cut separates two adjacent ESC bytes, no cut matters, whatever the parser |
| Chunking.OtherCutsDoNotMatter | crates/terminal-core/src/vte_adapter.rs:29-106 | For any byte-at-a-time parser: chunked calls emit the actions of the unsplit stream and end in its state, unless some chunk starts with ESC while an ESC is held and the stream then ends, or goes on with the introducer of a string while no DCS is open |
| Chunking.OutcomeIffNoCutMatters | crates/terminal-core/src/vte_adapter.rs:29-106 | The condition is exact: with any parser that reports its bytes, the actions (and the state) agree if and only if there is no such cut |
| Chunking.MatteringCutShows | crates/terminal-core/src/vte_adapter.rs:37-48 | The first such cut makes the second ESC reach the parser, where the unsplit stream reports a string next, or nothing |
| Chunking.ChunksTrackIffClean | crates/terminal-core/src/vte_adapter.rs:29-106 | Agreement after every single byte, held ESC included, is stronger: it holds if and only if no chunk starts with ESC while an ESC is held |
| Chunking.SplitEscapesDiffer | crates/terminal-core/src/vte_adapter.rs:40-53 | A concrete stream, ESC ESC and a bracket, where a cut between the two ESC bytes changes what the parser sees |
| Framing.FramedStringIsOneAction | crates/terminal-core/src/vte_adapter.rs:206-283 | ESC introducer, any payload that does not end the string, ESC backslash (or BEL for OSC): exactly one action of the right kind with the payload bounded to 4096 bytes; the inner parser sees nothing (ECMA-48 sections 8.3.89, 8.3.2, 8.3.94, 8.3.143). Inside, ESC and the next byte are both payload unless that is a backslash, even a second ESC |
| Framing.FramedStringInChunks | crates/terminal-core/src/vte_adapter.rs:29-106 | The same for every cutting into chunks, also through the opening, an escaped byte or the terminator |
| Framing.PayloadFills | crates/terminal-core/src/vte_adapter.rs:223-259 | A payload of any length is counted in full and kept up to the limit |
| Framing.CloseString | crates/terminal-core/src/vte_adapter.rs:223-252 | Both terminators end the string with the same payload |
| Framing.StaysOpen | crates/terminal-core/src/vte_adapter.rs:223-252 | Until its terminator is complete, the string stays open |
| Framing.OthersPassThrough | crates/terminal-core/src/vte_adapter.rs:79-104 | Bytes in which no ESC is followed by an introducer all reach the parser, in order |
| Framing.DcsIsNotIntercepted | crates/terminal-core/src/vte_adapter.rs:40-43 | While a device control string is open, ESC and an introducer reach the parser too |
| Recording.DcsIsOneAction | crates/terminal-core/src/vte_adapter.rs:142-204 | Hook, payload bytes, unhook and ESC backslash become one action with the payload bounded, whatever was recorded before; the terminator is not reported, one more is |
| Recording.OscIsOneAction | crates/terminal-core/src/vte_adapter.rs:164-204 | An OSC that the parser reports is one action; ended by ST its terminator is not reported, ended by BEL the next one is |
| Recording.JoinedPartsComeApart | crates/terminal-protocol/src/lib.rs:330-352 | Cutting the joined payload at the separator gives the parts back, if none of them holds one |
| Recording.TerminatorStaysPrivate | crates/terminal-core/src/vte_adapter.rs:190-203 | A private terminator stays private across any other callbacks; any other escape sequence ends the wait and is reported |
| Recording.ReportedInOrder | crates/terminal-core/src/vte_adapter.rs:133-188 | Characters, controls and CSI sequences are reported at once and in order |
| Recording.StrayCallsChangeNothing | crates/terminal-core/src/vte_adapter.rs:151-162 | Payload bytes and the end of a device control string that is not open change nothing |
| ByteMachine.HeldEscapeJoins | crates/terminal-core/src/vte_adapter.rs:37-48 | What a call does with a held ESC and its first byte |
| ByteMachine.ByteRunConcat | crates/terminal-core/src/vte_adapter.rs:57-106 | Running the adapter byte by byte composes |
| ByteMachine.ByteRunConsistent | crates/terminal-core/src/vte_adapter.rs:57-106 | An ESC is never held while a string control is open |
| ByteMachine.PlainByte | crates/terminal-core/src/vte_adapter.rs:79-104 | Bytes put off for the parser can be fed later without changing the outcome |
| VteAdapter.VteAdapter.Advance | crates/terminal-core/src/vte_adapter.rs:29-55 | One call does what the byte machine does byte by byte, except for ESC after a held ESC |
| VteAdapter.VteAdapter.AdvanceWithoutPendingEscape | crates/terminal-core/src/vte_adapter.rs:57-106 | Slicing the input and feeding whole slices to the parser equals the byte machine |
| VteAdapter.VteAdapter.ConsumeString | crates/terminal-core/src/vte_adapter.rs:66-77 | An open string takes its bytes, and no more |
| VteAdapter.VteAdapter.AdvanceParser | crates/terminal-core/src/vte_adapter.rs:85-105 | A slice fed to the parser equals its bytes fed one by one, callbacks in order |
| VteAdapter.StringControlBuilder.Consume | crates/terminal-core/src/vte_adapter.rs:223-252 | Stops at the first terminator of the string, or takes all |
| VteAdapter.StringControlBuilder.PushPayloadByte | crates/terminal-core/src/vte_adapter.rs:254-259 | Counts every byte, keeps up to the limit |
| VteAdapter.ActionRecorder.Perform | crates/terminal-core/src/vte_adapter.rs:133-204 | Each parser callback as an action, the terminator of a reported string swallowed once; fixed by the theorems of `Recording` |
| Protocol.Bounded | crates/terminal-protocol/src/lib.rs:324-327 | A prefix of the bytes and their full count; complete if and only if nothing was lost, which is so if and only if they fit; otherwise exactly the first bytes up to the limit, with both lengths and the limit in the status |
| Protocol.BoundedJoin | crates/terminal-protocol/src/lib.rs:330-352 | Joining part by part under the limit equals bounding the full separator-joined bytes |
| QueryResponder.StreamingIsOffline | crates/terminal-cli/src/main.rs:2245-2259 | For every cutting, a call answers if and only if some occurrence of ESC [ 6 n in the whole stream ends inside its chunk |
| QueryResponder.QueryFoundIffAnswered | crates/terminal-cli/src/main.rs:2245-2259 | The query occurs in the stream if and only if some call answered |
| QueryResponder.OccurrenceAnsweredOnce | crates/terminal-cli/src/main.rs:2245-2259 | No occurrence ends in two chunks |
| QueryResponder.TailSuffices | crates/terminal-cli/src/main.rs:2252-2256 | Three kept bytes are enough: matches in tail and chunk are the matches that end in the chunk |
| QueryResponder.TerminalQueryResponder.ResponseForOutput | crates/terminal-cli/src/main.rs:2245-2259 | Answers exactly when an occurrence in everything received so far ends in this chunk |
| Calendar.CivilRoundTrip | crates/terminal-cli/src/main.rs:3636-3648 | Every day count gives a valid Gregorian date, and the usual inverse gives the day count back |
| Calendar.DateRoundTrip | crates/terminal-cli/src/main.rs:3636-3648 | Every valid date comes from its day count |
| Calendar.CivilFollowsCalendar | crates/terminal-cli/src/main.rs:3636-3648 | Day 0 is 1970-01-01, and consecutive day counts are consecutive calendar dates |
| Calendar.CivilIsInjective | crates/terminal-cli/src/main.rs:3636-3648 | Different day counts never share a date |
| Calendar.YearIsRecovered | crates/terminal-cli/src/main.rs:3640 | The corrected division finds the year of the era for each of its days |
| Calendar.UtcRoundTrip | crates/terminal-cli/src/main.rs:3626-3634 | Date, hour, minute and second are in range and add up to the seconds |
| ReleasePlan.AcceptedIsCyclicIffSelfDependent | crates/terminal-fixtures/src/m5_release.rs:160-254 | An accepted plan has a dependency cycle if and only if some ordered crate depends on itself; repeated names do not matter |
| ReleasePlan.ListingsInOrderIff | crates/terminal-fixtures/src/m5_release.rs:160-254 | In an accepted plan every listing of a crate follows every listing of its transitive dependencies if and only if no crate depends on itself and no listing whose name is listed again later depends on a crate listed at its place or after it |
| ReleasePlan.DependenciesComeEarlier | crates/terminal-fixtures/src/m5_release.rs:160-254 | Without self-dependencies every transitive dependency comes strictly earlier by last occurrence, and everywhere if no name is repeated |
| ReleasePlan.SelfDependencyIsAccepted | crates/terminal-fixtures/src/m5_release.rs:233-251 | A concrete accepted plan whose only crate depends on itself |
| ReleasePlan.RepeatedNameHidesOrder | crates/terminal-fixtures/src/m5_release.rs:198-203 | A plan with a repeated name that is accepted although a crate is first listed before its dependency |
| ReleasePlan.PathNotLater | crates/terminal-fixtures/src/m5_release.rs:217-252 | Along any chain of dependencies last occurrences never move up |
| ReleasePlan.Validate | crates/terminal-fixtures/src/m5_release.rs:160-254 | Accepts exactly the plans with a good header, unique valid crates, and an order of public crates that lists every public crate and every dependency not later; a rejection names the first stage that fails, and what it says is true of the plan |
| ReleasePlan.CollectCrates | crates/terminal-fixtures/src/m5_release.rs:186-196 | Fails exactly on an invalid crate or a repeated crate name; else the map finds every crate |
| ReleasePlan.IndexOrder | crates/terminal-fixtures/src/m5_release.rs:198-203 | The index map holds the last position of every name in the order, and no other name |
| ReleasePlan.CheckOrder | crates/terminal-fixtures/src/m5_release.rs:217-252 | Fails exactly when an ordered name is unknown, not public, or has a dependency outside the order or later in it |
| ReleasePlan.CheckDependencies | crates/terminal-fixtures/src/m5_release.rs:233-251 | Fails exactly when a dependency is outside the order or later in it |

## Left out

- The `vte` parser and UTF-8 decoding: a parameter, any deterministic step from one byte to callbacks.
- `unicode-width`: a parameter, any function from characters to an optional width.
- Row sizes in bytes: a parameter, any positive weight of a row; a row in scrollback does not change, so neither does its weight.
- Machine integers: row ids, generations and counters are unbounded, so saturation after 2^64 steps is not modelled.
- Day counts near the limits of `i64`: overflow in `civil_from_days` is not modelled.
- Image placeholders in cells: only whether a cell has one is kept, since that is all erasure and stripping look at.
- Texts of diagnostics and error messages, and the formatting of timestamps as strings.
- The action log of `Terminal` and its limit: it never reaches the state.
- `ScrollbackConfig::new`, which caps the budgets at construction: the model takes any budgets.
- Events, semantic events and cell strings in `validate_snapshot`: only the checks on dimensions, rows, cells, cursor and damage are modelled.
- Schema, header and non-blank text checks of the release plan: three booleans, in the order the code makes them.
- The bytes of the cursor-position answer: a parameter of the call.
- The eight cursor-moving methods are one method, `MoveCursor`, with one branch per final character.
- ReflowPairs.ReflowKeepsPairs: from two columns on; the exact condition at one column is `OneColumn.ReflowToOneColumnIff`.
- RunTheorems.RunKeeps: a run stops at an operation that would show an alternate screen of another size, even if the same mode sequence clears it again; `Outline.RunGoesOnIff` reads this off the operations. What the engine does with such a screen is not modelled.
- RunTheorems.ReachableScrollback: the rule restarts at each resize, where the reflowed history becomes the archive.
- RunTheorems.RendererShowsViewport: damage is per row, as in the code, whose regions always span the row.
- ResizeTheorems.ResizeKeepsTextIff: empty lines at the end of the text are not counted; which rows lie below the new viewport is read off the reflowed rows, their number off the old lines (`ResizeTheorems.LostBelowSize`).
- AutoWrap.AutoWrapLaysOut: a line is characters and changes of the pen; cursor moves and erasure inside lines are separate actions.
- Rows are sequences inside a row value: the model does not capture aliasing between rows, which the engine never creates.
- PTY processes, shells, fixtures, benchmarks, reports and the other evidence schemas: I/O and field-by-field validation.
