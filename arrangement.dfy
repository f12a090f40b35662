/** The grid store as a value: the ordered sections (columns), the ordered tracks (rows, each
    with one cell per section), the section open in the edit dialog and the id counter.
    Each store operation is a function from the old grid to the new one; the class in
    store.dfy performs them in place and is proved to agree with these functions. */
module Arrangement {
  import opened Entities
  import opened Splice
  import Metrics

  datatype Grid = Grid(sections: seq<Section>, tracks: seq<Track>, editing: Option<nat>, nextId: nat)

  /** The cross-cutting invariant: every track holds one cell per section. */
  ghost predicate Aligned(g: Grid) {
    forall j :: 0 <= j < |g.tracks| ==> |g.tracks[j].cells| == |g.sections|
  }

  /** Every section's stored width is its duration times the bar width. */
  ghost predicate WidthsDerived(ss: seq<Section>) {
    forall i :: 0 <= i < |ss| ==> ss[i].width == ss[i].duration * BarWidth
  }

  ghost predicate Valid(g: Grid) {
    && Aligned(g)
    && WidthsDerived(g.sections)
    && Distinct(SectionIds(g.sections)) && AllBelow(SectionIds(g.sections), g.nextId)
    && Distinct(TrackIds(g.tracks)) && AllBelow(TrackIds(g.tracks), g.nextId)
  }

  /** The text of the cell that track `tid` holds for section `sid`, found by ids rather
      than by positions; None when either is missing. */
  function CellOf(g: Grid, tid: nat, sid: nat): Option<string> {
    match IndexOf(TrackIds(g.tracks), tid)
    case None => None
    case Some(t) =>
      match IndexOf(SectionIds(g.sections), sid)
      case None => None
      case Some(k) => if k < |g.tracks[t].cells| then Some(g.tracks[t].cells[k]) else None
  }

  function HasTrack(g: Grid, tid: nat): bool { IndexOf(TrackIds(g.tracks), tid).Some? }
  function HasSection(g: Grid, sid: nat): bool { IndexOf(SectionIds(g.sections), sid).Some? }

  /** The module-level arrays as the page starts: empty, nothing being edited. */
  function Empty(): Grid { Grid([], [], None, 0) }

  // ---------------------------------------------------------------------------------------
  // Per-track cell edits that the section operations apply to every track

  function PushCell(t: Track): Track { t.(cells := t.cells + [""]) }

  /** `if (track.cells.length > sectionIndex) track.cells.splice(sectionIndex, 1)` */
  function DropCell(t: Track, i: nat): Track {
    if |t.cells| > i then t.(cells := RemoveAt(t.cells, i)) else t
  }

  /** `if (track.cells.length > draggedIndex)` remove the dragged cell and reinsert it at the target. */
  function MoveCell(t: Track, from: nat, to: nat): Track {
    if |t.cells| > from then t.(cells := Move(t.cells, from, to)) else t
  }

  function PushCells(ts: seq<Track>): (r: seq<Track>)
    ensures |r| == |ts| && forall j :: 0 <= j < |ts| ==> r[j] == PushCell(ts[j])
  {
    seq(|ts|, j requires 0 <= j < |ts| => PushCell(ts[j]))
  }

  function DropCells(ts: seq<Track>, i: nat): (r: seq<Track>)
    ensures |r| == |ts| && forall j :: 0 <= j < |ts| ==> r[j] == DropCell(ts[j], i)
  {
    seq(|ts|, j requires 0 <= j < |ts| => DropCell(ts[j], i))
  }

  function MoveCells(ts: seq<Track>, from: nat, to: nat): (r: seq<Track>)
    ensures |r| == |ts| && forall j :: 0 <= j < |ts| ==> r[j] == MoveCell(ts[j], from, to)
  {
    seq(|ts|, j requires 0 <= j < |ts| => MoveCell(ts[j], from, to))
  }

  function EmptyCells(n: nat): (r: seq<string>)
    ensures |r| == n && forall k :: 0 <= k < n ==> r[k] == ""
  {
    seq(n, _ => "")
  }

  // ---------------------------------------------------------------------------------------
  // Store operations

  /** `addSection`: a new section with a fresh id at the end, one empty cell more per track. */
  function AddSection(g: Grid, name: string, color: string, duration: int): Grid {
    g.(sections := g.sections + [Section(g.nextId, name, color, duration, duration * BarWidth)],
       tracks := PushCells(g.tracks),
       nextId := g.nextId + 1)
  }

  /** `sections.filter(s => s.id !== sectionId)` */
  function WithoutSection(ss: seq<Section>, id: nat): seq<Section> {
    if ss == [] then []
    else (if ss[0].id == id then [] else [ss[0]]) + WithoutSection(ss[1..], id)
  }

  /** `deleteSection`: no change for an unknown id; otherwise the section is filtered out and
      every track long enough loses the cell at the section's former index. */
  function DeleteSection(g: Grid, id: nat): Grid {
    match IndexOf(SectionIds(g.sections), id)
    case None => g
    case Some(i) => g.(sections := WithoutSection(g.sections, id), tracks := DropCells(g.tracks, i))
  }

  /** `moveSection`: no change unless both ids are found; otherwise the sections and every
      track's cells undergo the same splice-remove at the dragged index and splice-insert at
      the target's pre-removal index. */
  function MoveSection(g: Grid, draggedId: nat, targetId: nat): Grid {
    match (IndexOf(SectionIds(g.sections), draggedId), IndexOf(SectionIds(g.sections), targetId))
    case (Some(d), Some(t)) => g.(sections := Move(g.sections, d, t), tracks := MoveCells(g.tracks, d, t))
    case _ => g
  }

  /** A new track with a fresh id, the default height and one empty cell per section. */
  function AddTrack(g: Grid, name: string): Grid {
    g.(tracks := g.tracks + [Track(g.nextId, name, DefaultTrackHeight, EmptyCells(|g.sections|))],
       nextId := g.nextId + 1)
  }

  /** `addNewTrack` */
  function AddNewTrack(g: Grid): Grid { AddTrack(g, "New line") }

  const DefaultTrackNames: seq<string> := ["Drums", "Guitar", "Bass", "Voice"]

  /** Adding the tracks named by `names`, in order. */
  function AddTracks(g: Grid, names: seq<string>): Grid {
    if names == [] then g else AddTrack(AddTracks(g, names[..|names| - 1]), names[|names| - 1])
  }

  /** `addDefaultTracks` */
  function AddDefaultTracks(g: Grid): Grid { AddTracks(g, DefaultTrackNames) }

  /** `deleteTrack`: no change for an unknown id; otherwise that track is spliced out. */
  function DeleteTrack(g: Grid, id: nat): Grid {
    match IndexOf(TrackIds(g.tracks), id)
    case None => g
    case Some(i) => g.(tracks := RemoveAt(g.tracks, i))
  }

  /** `showEditSectionModal`, its store part: the section becomes the one being edited. */
  function OpenEditor(g: Grid, sectionId: nat): Grid { g.(editing := Some(sectionId)) }

  /** `closeEditSectionModal`, its store part. */
  function CloseEditor(g: Grid): Grid { g.(editing := None) }

  /** `applySectionChanges`: a no-op when nothing is being edited; otherwise the edited section
      takes the new name, color and duration, its width follows the duration, and the editor
      closes. A section deleted while being edited is no longer in the grid, so only the
      editor closes. */
  function ApplySectionChanges(g: Grid, name: string, color: string, duration: int): Grid {
    match g.editing
    case None => g
    case Some(id) =>
      match IndexOf(SectionIds(g.sections), id)
      case None => CloseEditor(g)
      case Some(i) =>
        var s := g.sections[i].(name := name, color := color, duration := duration, width := duration * BarWidth);
        CloseEditor(g.(sections := g.sections[i := s]))
  }

  /** The input handler of a cell: `track.cells[index] = this.value`. The handler exists only
      for a rendered cell, so `index` is a section index. */
  function SetCell(g: Grid, trackId: nat, index: nat, text: string): Grid
    requires Valid(g) && index < |g.sections|
  {
    match IndexOf(TrackIds(g.tracks), trackId)
    case None => g
    case Some(t) => g.(tracks := g.tracks[t := g.tracks[t].(cells := g.tracks[t].cells[index := text])])
  }

  /** `updateTrackRowHeight`: no change for an unknown track; otherwise its height becomes the
      row height computed from the measured scroll heights. */
  function UpdateTrackRowHeight(g: Grid, trackId: nat, nameScrollHeight: Option<int>, cellScrollHeights: seq<int>): Grid {
    match IndexOf(TrackIds(g.tracks), trackId)
    case None => g
    case Some(t) =>
      g.(tracks := g.tracks[t := g.tracks[t].(height := Metrics.RowHeightOf(nameScrollHeight, cellScrollHeights))])
  }

  /** `initializeApp`: Intro, Verse and Chorus, then the four default tracks. */
  function Initial(): Grid {
    AddDefaultTracks(
      AddSection(AddSection(AddSection(Empty(), "Intro", "#DAE8FC", 4), "Verse", "#D5E8D4", 8), "Chorus", "#FFE6CC", 8))
  }
}
