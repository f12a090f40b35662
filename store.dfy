/** The grid store as the page keeps it: the module-level `sections` and `tracks` arrays and
    `currentEditingSection`, changed in place by the store operations. Each method performs
    the operation step by step, as the page does (a loop over the tracks editing each track's
    cells), and is proved to produce the grid that the matching function of Arrangement
    describes; the properties of those functions are proved in GridProperties. */
module Store {
  import opened Entities
  import opened Splice
  import Metrics
  import A = Arrangement
  import P = GridProperties

  class GridStore {
    var sections: seq<Section>
    var tracks: seq<Track>
    /** The id of the section whose edit dialog is open (`currentEditingSection`). */
    var editing: Option<nat>
    /** Source of fresh ids for new sections and tracks. */
    var nextId: nat

    function Model(): A.Grid
      reads this
    {
      A.Grid(sections, tracks, editing, nextId)
    }

    ghost predicate Valid()
      reads this
    {
      A.Valid(Model())
    }

    /** The arrays as the script declares them: empty, no section being edited. */
    constructor ()
      ensures Valid() && Model() == A.Empty()
    {
      sections, tracks, editing, nextId := [], [], None, 0;
    }

    /** `initializeApp`, its store part: three sections, then the default tracks. */
    constructor Initialize()
      ensures Valid() && Model() == A.Initial()
    {
      sections, tracks, editing, nextId := [], [], None, 0;
      new;
      AddSection("Intro", "#DAE8FC", 4);
      AddSection("Verse", "#D5E8D4", 8);
      AddSection("Chorus", "#FFE6CC", 8);
      AddDefaultTracks();
    }

    /** `addSection` */
    method AddSection(name: string, color: string, duration: int)
      requires Valid()
      modifies this
      ensures Valid() && Model() == A.AddSection(old(Model()), name, color, duration)
    {
      var section := Section(nextId, name, color, duration, duration * BarWidth);
      nextId := nextId + 1;
      sections := sections + [section];
      PushTrackCells();
      P.AddSectionValid(old(Model()), name, color, duration);
    }

    /** The loop of `addSection`: every track gets an empty cell at the end. */
    method PushTrackCells()
      modifies this
      ensures tracks == A.PushCells(old(tracks))
      ensures sections == old(sections) && editing == old(editing) && nextId == old(nextId)
    {
      var j := 0;
      while j < |tracks|
        invariant 0 <= j <= |tracks| == |old(tracks)|
        invariant forall k :: 0 <= k < j ==> tracks[k] == A.PushCell(old(tracks)[k])
        invariant forall k :: j <= k < |tracks| ==> tracks[k] == old(tracks)[k]
        invariant sections == old(sections) && editing == old(editing) && nextId == old(nextId)
      {
        tracks := tracks[j := tracks[j].(cells := tracks[j].cells + [""])];
        j := j + 1;
      }
    }

    /** `deleteSection`, as one step once the id is found. */
    method DeleteSection(id: nat)
      requires Valid()
      modifies this
      ensures Valid() && Model() == A.DeleteSection(old(Model()), id)
    {
      var sectionIndex := IndexOf(SectionIds(sections), id);
      if sectionIndex.None? {
        return;
      }
      var i := sectionIndex.value;
      sections := A.WithoutSection(sections, id);
      DropTrackCells(i);
      P.DeleteSectionValid(old(Model()), id);
    }

    /** The loop of `deleteSection`: every track long enough loses its cell at `i`. */
    method DropTrackCells(i: nat)
      modifies this
      ensures tracks == A.DropCells(old(tracks), i)
      ensures sections == old(sections) && editing == old(editing) && nextId == old(nextId)
    {
      var j := 0;
      while j < |tracks|
        invariant 0 <= j <= |tracks| == |old(tracks)|
        invariant forall k :: 0 <= k < j ==> tracks[k] == A.DropCell(old(tracks)[k], i)
        invariant forall k :: j <= k < |tracks| ==> tracks[k] == old(tracks)[k]
        invariant sections == old(sections) && editing == old(editing) && nextId == old(nextId)
      {
        if |tracks[j].cells| > i {
          tracks := tracks[j := tracks[j].(cells := RemoveAt(tracks[j].cells, i))];
        }
        j := j + 1;
      }
    }

    /** `moveSection`: the dragged section is spliced out and reinserted at the target's index
        as found before the removal; every track's cells get the same two splices. */
    method MoveSection(draggedId: nat, targetId: nat)
      requires Valid()
      modifies this
      ensures Valid() && Model() == A.MoveSection(old(Model()), draggedId, targetId)
    {
      var draggedIndex := IndexOf(SectionIds(sections), draggedId);
      var targetIndex := IndexOf(SectionIds(sections), targetId);
      if draggedIndex.None? || targetIndex.None? {
        return;
      }
      var d, t := draggedIndex.value, targetIndex.value;
      var draggedSection := sections[d];
      sections := RemoveAt(sections, d);
      sections := InsertAt(sections, t, draggedSection);
      MoveTrackCells(d, t);
      P.MoveSectionValid(old(Model()), draggedId, targetId);
    }

    /** The loop of `moveSection`: in every track long enough the dragged cell is spliced out
        and reinserted at the target index. */
    method MoveTrackCells(d: nat, t: nat)
      modifies this
      ensures tracks == A.MoveCells(old(tracks), d, t)
      ensures sections == old(sections) && editing == old(editing) && nextId == old(nextId)
    {
      var j := 0;
      while j < |tracks|
        invariant 0 <= j <= |tracks| == |old(tracks)|
        invariant forall k :: 0 <= k < j ==> tracks[k] == A.MoveCell(old(tracks)[k], d, t)
        invariant forall k :: j <= k < |tracks| ==> tracks[k] == old(tracks)[k]
        invariant sections == old(sections) && editing == old(editing) && nextId == old(nextId)
      {
        if |tracks[j].cells| > d {
          var draggedCell := tracks[j].cells[d];
          var cells := RemoveAt(tracks[j].cells, d);
          cells := InsertAt(cells, t, draggedCell);
          tracks := tracks[j := tracks[j].(cells := cells)];
        }
        j := j + 1;
      }
    }

    /** `addNewTrack`: `cells: Array(sections.length).fill('')`. */
    method AddNewTrack()
      requires Valid()
      modifies this
      ensures Valid() && Model() == A.AddNewTrack(old(Model()))
    {
      tracks := tracks + [Track(nextId, "New line", DefaultTrackHeight, A.EmptyCells(|sections|))];
      nextId := nextId + 1;
      P.AddTrackValid(old(Model()), "New line");
    }

    /** `addDefaultTracks`: for each default name, a track whose cells are pushed one per section. */
    method AddDefaultTracks()
      requires Valid()
      modifies this
      ensures Valid() && Model() == A.AddDefaultTracks(old(Model()))
    {
      var names := A.DefaultTrackNames;
      var i := 0;
      while i < |names|
        invariant 0 <= i <= |names|
        invariant Valid() && Model() == A.AddTracks(old(Model()), names[..i])
      {
        var cells: seq<string> := [];
        var k := 0;
        while k < |sections|
          invariant 0 <= k <= |sections| && |cells| == k
          invariant forall m :: 0 <= m < k ==> cells[m] == ""
        {
          cells := cells + [""];
          k := k + 1;
        }
        assert cells == A.EmptyCells(|sections|);
        P.AddTrackValid(Model(), names[i]);
        tracks := tracks + [Track(nextId, names[i], DefaultTrackHeight, cells)];
        nextId := nextId + 1;
        assert names[..i + 1][..i] == names[..i];
        i := i + 1;
      }
      assert names[..i] == names;
    }

    /** `deleteTrack`, as one step once the id is found. */
    method DeleteTrack(id: nat)
      requires Valid()
      modifies this
      ensures Valid() && Model() == A.DeleteTrack(old(Model()), id)
    {
      var trackIndex := IndexOf(TrackIds(tracks), id);
      if trackIndex.None? {
        return;
      }
      tracks := RemoveAt(tracks, trackIndex.value);
      P.DeleteTrackValid(old(Model()), id);
    }

    /** `showEditSectionModal`, its store part. */
    method OpenEditor(sectionId: nat)
      requires Valid()
      modifies this
      ensures Valid() && Model() == A.OpenEditor(old(Model()), sectionId)
    {
      editing := Some(sectionId);
    }

    /** `closeEditSectionModal`, its store part. */
    method CloseEditor()
      requires Valid()
      modifies this
      ensures Valid() && Model() == A.CloseEditor(old(Model()))
    {
      editing := None;
    }

    /** `applySectionChanges`, with the values read from the dialog's fields as parameters. */
    method ApplySectionChanges(name: string, color: string, duration: int)
      requires Valid()
      modifies this
      ensures Valid() && Model() == A.ApplySectionChanges(old(Model()), name, color, duration)
    {
      if editing.None? {
        return;
      }
      var index := IndexOf(SectionIds(sections), editing.value);
      if index.Some? {
        var i := index.value;
        sections := sections[i := sections[i].(name := name, color := color, duration := duration, width := duration * BarWidth)];
      }
      P.ApplySectionChangesValid(old(Model()), name, color, duration);
      editing := None;
    }

    /** The input handler of the cell under section `index` of a track. */
    method SetCell(trackId: nat, index: nat, text: string)
      requires Valid() && index < |sections|
      modifies this
      ensures Valid() && Model() == A.SetCell(old(Model()), trackId, index, text)
    {
      var t := IndexOf(TrackIds(tracks), trackId);
      if t.Some? {
        tracks := tracks[t.value := tracks[t.value].(cells := tracks[t.value].cells[index := text])];
      }
      P.SetCellValid(old(Model()), trackId, index, text);
    }

    /** `updateTrackRowHeight`, with the measured scroll heights as parameters. */
    method UpdateTrackRowHeight(trackId: nat, nameScrollHeight: Option<int>, cellScrollHeights: seq<int>)
      requires Valid()
      modifies this
      ensures Valid() && Model() == A.UpdateTrackRowHeight(old(Model()), trackId, nameScrollHeight, cellScrollHeights)
    {
      var t := IndexOf(TrackIds(tracks), trackId);
      if t.None? {
        return;
      }
      var finalHeight := Metrics.RowHeight(nameScrollHeight, cellScrollHeights);
      tracks := tracks[t.value := tracks[t.value].(height := finalHeight)];
      P.UpdateTrackRowHeightEffect(old(Model()), trackId, nameScrollHeight, cellScrollHeights, 0, 0);
    }

    /** `updateBars`: the labels of the bar ruler for the current sections. */
    method UpdateBars() returns (labels: seq<int>)
      ensures |labels| == Metrics.Max(0, Metrics.TotalBars(sections))
      ensures forall k :: 0 <= k < |labels| ==> labels[k] == k + 1
    {
      var totalBars := Metrics.TotalBars(sections);
      labels := Metrics.BarLabels(totalBars);
    }

    /** `updateTimeline`: the ticks of the timeline ruler for the current sections. */
    method UpdateTimeline(bpm: int, signatureTop: int) returns (markers: seq<Metrics.Marker>)
      requires bpm > 0
      ensures forall s: nat :: s < |markers| <==> s * bpm <= Metrics.Span(Metrics.TotalBars(sections), signatureTop)
      ensures forall k :: 0 <= k < |markers| ==> markers[k] == Metrics.Marker(k, k % Metrics.MajorEvery == 0)
    {
      var totalBars := Metrics.TotalBars(sections);
      markers := Metrics.TimelineMarkers(totalBars, bpm, signatureTop);
      forall s: nat ensures s < |markers| <==> s * bpm <= Metrics.Span(totalBars, signatureTop) {
        Metrics.MarkerCountMeaning(Metrics.Span(totalBars, signatureTop), bpm, s);
      }
    }
  }

  /** A session: the page starts, a note is typed under Intro, Intro is dragged onto Chorus and
      Chorus is deleted; every track still has one cell per section, and the note is still
      found under Intro. */
  method Session() {
    var store := new GridStore.Initialize();
    P.InitialGrid();
    var intro, chorus := store.sections[0].id, store.sections[2].id;
    var drums := store.tracks[0].id;
    ghost var g0 := store.Model();
    store.SetCell(drums, 0, "count-in");
    P.CellOfAt(g0, 0, 0);
    P.SetCellCells(g0, drums, 0, "count-in", drums, intro);
    ghost var g1 := store.Model();
    store.MoveSection(intro, chorus);
    P.MoveSectionCells(g1, intro, chorus, drums, intro);
    ghost var g2 := store.Model();
    store.DeleteSection(chorus);
    P.DeleteSectionCells(g2, chorus, drums, intro);
    assert A.CellOf(store.Model(), drums, intro) == Some("count-in");
    assert forall j :: 0 <= j < |store.tracks| ==> |store.tracks[j].cells| == |store.sections|;
  }
}
