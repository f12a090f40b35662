# Arrangement grid store, in Dafny

A model of the grid store of the ArRanger song-arrangement editor (`script.js`). A song is
a grid. Its columns are **sections** (Intro, Verse, Chorus, ...). Each section has a name, a
color, a duration in bars and a pixel width of 30 per bar. Its rows are **tracks** (Drums,
Guitar, ...). Each track has a name, a row height and one free-text **cell** per section.
The page keeps both as module-level arrays. It changes them in place when a section is
added, deleted, dragged onto another section or edited, when a track is added or deleted,
when a cell is typed into, and when a row is resized. The store must keep one invariant
through all of this: every track has exactly one cell per section, and cell *i* belongs to
section *i*.

Files and modules:

- `entities.dfy` (`Entities`): sections, tracks, and `IndexOf`, the id lookup (`findIndex`).
- `splice.dfy` (`Splice`): the two `splice` calls the store makes, and `Move`, the
  drag-and-drop reorder. `Move` removes the dragged item, then inserts it at the target's
  index as computed *before* the removal.
- `metrics.dfy` (`Metrics`): the values derived after each edit. These are the bar total and
  bar labels, the timeline ticks from tempo and time signature, the duration-spinner clamp,
  and the row-height rule.
- `arrangement.dfy` (`Arrangement`): the grid as a value (`Grid`). It has one function per
  store operation, the invariant `Valid` and the id-based cell lookup `CellOf`.
- `grid_properties.dfy` (`GridProperties`): what each operation promises. Each keeps `Valid`
  and leaves every cell under its own section (stated with `CellOf`, by ids, so it survives
  reordering). Each also changes the bar total as it should.
- `store.dfy` (`Store`): the class `GridStore`. Its fields are the page's arrays. Its methods
  make the edits step by step, with a loop over the tracks where the page has one. Each is
  proved to yield the grid its `Arrangement` function describes.

Ids are natural numbers from a counter that sections and tracks share. The page draws them
from the clock and a random number. Values the page reads from form fields or measures in
the browser are parameters. These are the dialog's name, color and duration, the tempo, the
time signature, and the scroll heights.

Three facts about the code that the model keeps:

- With no sections (0 bars), `totalSeconds` is 0 and the loop at script.js:552 still runs
  once, for second 0, placing that tick at `0/0` pixels. The model gives exactly one tick
  there (`Metrics.EmptySongHasOneMarker`).
- `addSection` and `applySectionChanges` (script.js:339-352, 441-457) store any duration as
  given. Only the spinner buttons (script.js:306-318) clamp to 1..64, so the store operations
  have no 1..64 precondition.
- A section holds an id, name, color, duration and width (script.js:340-346); a track holds
  an id, name, height and cells (script.js:576-581). The model's records have exactly these
  fields.

## Model

| member | source | states |
|---|---|---|
| `Entities.IndexOf` | script.js:461-462 | the lookup returns the FIRST position holding the id, and returns none exactly when no position holds it |
| `Entities.IndexOfDistinct` | script.js:497-498 | with distinct ids, the lookup of the id at position k gives k |
| `Splice.MoveAt` | script.js:502-503 | remove-then-insert at the pre-removal target index puts at each position k the old element at MoveSource(k); moving right lands on the target's old index |
| `Splice.MoveSourceTarget` | script.js:502-503 | the positions reached by a move are a bijection: MoveSource and MoveTarget undo each other |
| `Splice.MoveIsPermutation` | script.js:502-503 | the reorder keeps the length and the multiset of elements |
| `Splice.MoveExamples` | script.js:502-503 | ABC with A dragged onto C gives BCA; ABCD gives BCAD; ABC with C onto A gives CAB; ABCD with D onto B gives ADBC |
| `Metrics.TotalBarsConcat` | script.js:520 | the left-fold sum of durations is additive over concatenation |
| `Metrics.TotalBarsRemoveAt` | script.js:520 | removing a section takes its duration off the total |
| `Metrics.TotalBarsInsert` | script.js:520 | inserting or appending a section adds its duration to the total |
| `Metrics.TotalBarsReplace` | script.js:520 | changing one section changes the total by the difference of durations |
| `Metrics.BarLabels` | script.js:522-527 | the bar labels are exactly 1, 2, ..., totalBars in order, and none when totalBars <= 0 |
| `Metrics.MarkerCountMeaning` | script.js:550-552 | a whole second s >= 0 gets a tick iff s * bpm <= 60 * signatureTop * totalBars, i.e. s <= totalSeconds |
| `Metrics.MarkerCountUnique` | script.js:552 | the loop's exit state (the last second fits, the next does not) determines the tick count |
| `Metrics.EmptySongHasOneMarker` | script.js:550-552 | with 0 bars, exactly one tick (second 0) is emitted |
| `Metrics.TimelineMarkers` | script.js:548-559 | tick k is at second k, it is major iff k % 5 == 0, and there is one tick per whole second from 0 to floor(totalSeconds) |
| `Metrics.ClampDuration` | script.js:308-309 | one spinner click gives a value in [1, 64]: value + change when that is in range, else the nearer bound |
| `Metrics.SpinUp` | script.js:306-311 | n clicks of "+" from a valid duration give min(64, value + n) |
| `Metrics.SpinDown` | script.js:313-318 | n clicks of "-" from a valid duration give max(1, value - n) |
| `Metrics.MaxCellHeightIsLeastUpperBound` | script.js:660-672 | the running maximum over `scrollHeight + 8`, from 50, is >= 50 and >= every padded cell, and equals 50 or one of them |
| `Metrics.RowHeightIsLeastUpperBound` | script.js:658-674 | the row height is >= 50, >= the header height and >= every padded cell height, and equals one of them |
| `Metrics.RowHeight` | script.js:658-674 | the loop over the cells computes the row height `max(headerHeight, maxCellHeight, 50)` |
| `GridProperties.CellOfAt` | script.js:733 | in a valid grid, the cell of track t under section k is found by their ids |
| `GridProperties.CellOfSameLayout` | script.js:441-451 | an edit that keeps ids and cells in place changes no cell found by ids |
| `GridProperties.AddSectionValid` | script.js:339-352 | adding a section keeps every track aligned, widths derived, and ids distinct and fresh |
| `GridProperties.AddSectionCells` | script.js:348-352 | after adding a section every existing cell is unchanged, and every track has an empty cell under the new section |
| `GridProperties.AddSectionTotalBars` | script.js:339-352 | adding a section adds its duration to the bar total |
| `GridProperties.RemoveAtDistinct` | script.js:479 | removing one id keeps a list of distinct ids distinct |
| `GridProperties.RemoveAtLookupMissing` | script.js:461-479 | after the removal, `findIndex` misses the removed id and any id that was absent |
| `GridProperties.RemoveAtLookupFound` | script.js:461-479 | after the removal at i, `findIndex` finds every other id at its old position, or one earlier when it stood after i |
| `GridProperties.WithoutSectionAt` | script.js:479 | with distinct ids, filtering the section's id out removes exactly its position |
| `GridProperties.DeleteSectionAt` | script.js:460-485 | deleting the section at index i removes it and the cell at index i of every track; the length guard never fails, and the rest keep their order |
| `GridProperties.DeleteSectionUnknown` | script.js:461-462 | deleting an unknown id changes nothing |
| `GridProperties.DeleteSectionValid` | script.js:460-485 | deleting a section keeps the store valid |
| `GridProperties.RemoveSectionKeepsCell` | script.js:479-485 | a cell of another section is still found by ids after section i and the cell at i are removed |
| `GridProperties.RemoveSectionCells` | script.js:479-485 | removing section i and the cell at i of every track leaves the removed section's cells unfound and every other cell found as before |
| `GridProperties.DeleteSectionCellsAt` | script.js:479-485 | after deleting section i, its cells are gone and every other cell is still under its section |
| `GridProperties.DeleteSectionCells` | script.js:460-485 | for any id: the deleted section's cells are gone and every other cell is unchanged |
| `GridProperties.DeleteSectionTotalBars` | script.js:460-485 | deleting a section takes its duration off the bar total |
| `GridProperties.MoveDistinct` | script.js:502-503 | moving one id keeps a list of distinct ids distinct |
| `GridProperties.MoveLookup` | script.js:497-503 | after the move, `findIndex` finds every id at MoveTarget of its old position, and still misses an absent id |
| `GridProperties.MoveSectionValid` | script.js:496-510 | moving a section keeps the store valid |
| `GridProperties.MoveSectionCells` | script.js:496-510 | moving a section leaves every cell under its own section: the cell found by track and section ids is the same before and after |
| `GridProperties.MoveSectionUnknown` | script.js:497-500 | dragging from or onto an id that is not in the grid changes nothing |
| `GridProperties.MoveSectionPermutes` | script.js:502-509 | the move is a permutation of the sections and of every track's cells |
| `GridProperties.MoveTotalBars` | script.js:502-503 | the bar total does not depend on the order of the sections |
| `GridProperties.MoveSectionTotalBars` | script.js:496-503 | moving a section leaves the bar total unchanged |
| `GridProperties.MoveSectionExample` | script.js:496-510 | sections A, B, C with cells a, b, c: dragging A onto C gives B, C, A with cells b, c, a |
| `GridProperties.AddTrackValid` | script.js:575-583 | adding a track keeps the store valid |
| `GridProperties.AddTrackCells` | script.js:575-583 | a new track has an empty cell under every section, and no other cell changes |
| `GridProperties.AddTracksAppends` | script.js:270-283 | adding tracks by name appends them in order with fresh ids, height 50 and one empty cell per section; nothing else changes |
| `GridProperties.AddDefaultTracksAppends` | script.js:262-283 | the default tracks are Drums, Guitar, Bass and Voice in that order, each with an empty cell per section |
| `GridProperties.DeleteTrackValid` | script.js:696-708 | deleting a track keeps the store valid |
| `GridProperties.DeleteTrackCells` | script.js:696-708 | an unknown id changes nothing; otherwise exactly the deleted track's cells are gone |
| `GridProperties.ApplySectionChangesValid` | script.js:441-451 | applying the edit dialog keeps the store valid (the width follows the duration) |
| `GridProperties.ApplySectionChangesCells` | script.js:441-457 | applying the edit dialog changes no cell and closes the editor; with nothing open it changes nothing |
| `GridProperties.ApplySectionChangesEdits` | script.js:441-457 | the open section gets the new name, color and duration, width = duration * 30, and the bar total moves by the change in duration; every other section, the tracks and the id counter stay as they were, and the editor closes |
| `GridProperties.OpenEditorValid` | script.js:426-439 | opening or closing the editor keeps the store valid |
| `GridProperties.SetCellValid` | script.js:737-739 | typing into a cell keeps the store valid |
| `GridProperties.SetCellCells` | script.js:737-739 | typing into a cell changes exactly that track's cell under that section |
| `GridProperties.UpdateTrackRowHeightEffect` | script.js:650-678 | a row-height update changes no cell and keeps the store valid; an unknown track changes nothing; the new height fits the header and every cell, and is at least 50 |
| `GridProperties.InitialSections` | script.js:39-41 | the three start-up sections make a valid grid with no tracks and 20 bars |
| `GridProperties.InitialGrid` | script.js:39-43 | the start-up grid is valid: Intro, Verse, Chorus (20 bars) and four tracks with three empty cells each |
| `Store.GridStore.constructor` | script.js:11-13 | the store starts empty, with nothing being edited |
| `Store.GridStore.Initialize` | script.js:39-43 | start-up adds three sections, then the default tracks |
| `Store.GridStore.AddSection` | script.js:339-352 | the in-place push of the section and of one empty cell per track yields `Arrangement.AddSection` of the old grid, and keeps the store valid |
| `Store.GridStore.PushTrackCells` | script.js:350-352 | the loop pushes one empty cell onto every track and changes nothing else |
| `Store.GridStore.DeleteSection` | script.js:460-485 | the in-place filter and the per-track guarded splice yield `Arrangement.DeleteSection` of the old grid |
| `Store.GridStore.DropTrackCells` | script.js:481-485 | the loop removes the cell at the section's index from every track long enough, and changes nothing else |
| `Store.GridStore.MoveSection` | script.js:496-510 | the two splices on the sections and on every track's cells yield `Arrangement.MoveSection` of the old grid |
| `Store.GridStore.MoveTrackCells` | script.js:505-510 | the loop gives every track long enough the same two splices as the sections, and changes nothing else |
| `Store.GridStore.AddNewTrack` | script.js:575-583 | the pushed track is `Arrangement.AddNewTrack`: "New line", height 50, one empty cell per section |
| `Store.GridStore.AddDefaultTracks` | script.js:262-283 | the nested loops yield `Arrangement.AddDefaultTracks` of the old grid |
| `Store.GridStore.DeleteTrack` | script.js:696-708 | the splice yields `Arrangement.DeleteTrack` of the old grid |
| `Store.GridStore.OpenEditor` | script.js:426-427 | the section becomes the one being edited |
| `Store.GridStore.CloseEditor` | script.js:436-439 | nothing is being edited any more |
| `Store.GridStore.ApplySectionChanges` | script.js:441-457 | the field updates yield `Arrangement.ApplySectionChanges` of the old grid |
| `Store.GridStore.SetCell` | script.js:737-739 | the cell assignment yields `Arrangement.SetCell` of the old grid |
| `Store.GridStore.UpdateTrackRowHeight` | script.js:650-678 | the track's height becomes the computed row height; `Arrangement.UpdateTrackRowHeight` of the old grid |
| `Store.GridStore.UpdateBars` | script.js:516-527 | the bar labels of the current grid are 1..TotalBars(sections) |
| `Store.GridStore.UpdateTimeline` | script.js:539-559 | a second s gets a tick iff s * bpm <= 60 * signatureTop * TotalBars(sections); tick k is major iff k % 5 == 0 |

The contracts above rest on these definitions, each modelling the source span given:

- `Splice.RemoveAt`: `splice(i, 1)`, script.js:483 and 502.
- `Splice.InsertAt`: `splice(i, 0, x)`, appending past the end, script.js:503 and 508.
- `Splice.Move`: the remove-then-insert pair, script.js:502-503 and 507-508.
- `Metrics.TotalBars`: the `reduce` over the durations, script.js:520.
- `Metrics.Span` and `Metrics.MarkerCount`: `totalSeconds` and the number of passes of the
  tick loop, script.js:550-552.
- `Metrics.Spin`: repeated clicks of a spinner button, script.js:306-318.
- `Metrics.HeaderHeight`, `Metrics.MaxCellHeight` and `Metrics.RowHeightOf`: the header
  height, the running maximum over the cells and the final `Math.max`, script.js:657-674.
- `Arrangement.CellOf`: the cell rendered for a track under a section, script.js:733.
- `Arrangement.Valid`: the invariant every store operation keeps. It has no single source
  line: every track has one cell per section (script.js:350-352, 481-485, 505-510, 580),
  widths follow durations (script.js:346, 450) and ids are unique.
- `Arrangement.WithoutSection`: the `filter` of `deleteSection`, script.js:479.
- `Arrangement.PushCell`, `Arrangement.DropCell`, `Arrangement.MoveCell`: the per-track step
  of the loops at script.js:350-352, 481-485 and 505-510.
- `Arrangement.AddSection` (script.js:339-352), `Arrangement.DeleteSection`
  (script.js:460-485), `Arrangement.MoveSection` (script.js:496-510), `Arrangement.AddTrack`
  and `Arrangement.AddNewTrack` (script.js:575-583), `Arrangement.AddTracks` and
  `Arrangement.AddDefaultTracks` (script.js:262-283), `Arrangement.DeleteTrack`
  (script.js:696-708), `Arrangement.OpenEditor` (script.js:426-427),
  `Arrangement.CloseEditor` (script.js:436-439), `Arrangement.ApplySectionChanges`
  (script.js:441-457), `Arrangement.SetCell` (script.js:737-739),
  `Arrangement.UpdateTrackRowHeight` (script.js:650-678) and `Arrangement.Initial`
  (script.js:39-43): the store operations as functions from the old grid to the new one.

## Left out

- Rendering: building the section, bar, timeline, track-header and track-row elements
  (`renderSections`, `renderTracks`, `renderTrackHeaders`, `initializeStandardSections`),
  placeholders, showing and hiding the dialogs, and the track title. This is presentation;
  the store only feeds it.
- Scroll synchronisation and scroll shadows: browser cosmetics driven by scroll metrics.
- The 300 ms removal animation of `deleteSection` and `deleteTrack`, and their dependence on
  the section's or track's element being on the page. Each delete is one atomic step once the
  id is found.
- The pixel position of a timeline tick, `(seconds / totalSeconds) * totalWidth`: floating
  point, and `NaN` when there are no bars. Only the list of whole seconds and the major flag
  are modelled.
- Metrics.TimelineMarkers: compares `s * bpm <= 60 * signatureTop * totalBars` in exact
  integers, where the page compares `s` with a floating-point quotient. The two agree unless
  the rounded quotient crosses a whole number, which needs magnitudes far beyond a song's.
  Tempos of 0 or less are excluded by `bpm > 0`. With a tempo of 0 the quotient is infinite
  when there are bars (the loop never ends) and not a number when there are none (no tick).
  With a negative tempo it is negative when there are bars (no tick) and -0 when there are
  none (one tick, at second 0).
- The "show timeline" checkbox that makes `updateTimeline` return early and keep the old ruler.
- `parseInt` of form fields: the values arrive as integers, so a `NaN` duration, tempo or
  signature is not modelled.
- Id generation (`Date.now() + Math.random()`) and the `toString()` comparison of ids in
  `moveSection`: ids are counter values compared as numbers.
- Object identity: sections and tracks are values held in sequences. `currentEditingSection`
  is the id of the section it refers to. So editing a section that was deleted while its
  dialog was open only closes the editor, as mutating the detached object is invisible to
  the page.
- Renaming a track through its name box (`track.name = this.value`) and `addCustomSection`
  (reading the custom-section dialog, defaulting the name to "Custom"): dialog and header
  glue around the modelled operations.
- Copying sections or tracks, reset, and JSON import, export and validation: that code is not
  part of this model.
- `server/app.py`: an HTTP and SQLite back end, not part of this model.
