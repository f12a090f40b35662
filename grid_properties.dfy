/** What the grid store operations promise: each keeps the store valid (every track aligned
    with the sections, widths derived from durations, ids distinct and below the counter),
    each leaves every cell with the section it belongs to, and the bar total follows. */
module GridProperties {
  import opened Entities
  import opened Splice
  import opened Arrangement
  import Metrics

  // ---------------------------------------------------------------------------------------
  // Looking cells up by ids

  /** In a valid grid a cell is found by the ids of its track and its section. */
  lemma CellOfAt(g: Grid, t: nat, k: nat)
    requires Valid(g) && t < |g.tracks| && k < |g.sections|
    ensures CellOf(g, g.tracks[t].id, g.sections[k].id) == Some(g.tracks[t].cells[k])
  {
    IndexOfDistinct(TrackIds(g.tracks), t);
    IndexOfDistinct(SectionIds(g.sections), k);
  }

  /** Two grids with the same ids in the same places and the same cells agree on every cell. */
  lemma CellOfSameLayout(g: Grid, h: Grid, tid: nat, sid: nat)
    requires SectionIds(g.sections) == SectionIds(h.sections) && TrackIds(g.tracks) == TrackIds(h.tracks)
    requires forall j :: 0 <= j < |g.tracks| ==> g.tracks[j].cells == h.tracks[j].cells
    ensures CellOf(h, tid, sid) == CellOf(g, tid, sid)
  {
  }

  lemma CellOfFound(g: Grid, tid: nat, sid: nat, t: nat, k: nat)
    requires IndexOf(TrackIds(g.tracks), tid) == Some(t) && IndexOf(SectionIds(g.sections), sid) == Some(k)
    ensures CellOf(g, tid, sid) == if k < |g.tracks[t].cells| then Some(g.tracks[t].cells[k]) else None
  {
  }

  lemma CellOfNoSection(g: Grid, tid: nat, sid: nat)
    requires IndexOf(SectionIds(g.sections), sid).None?
    ensures CellOf(g, tid, sid).None?
  {
  }

  lemma CellOfNoTrack(g: Grid, tid: nat, sid: nat)
    requires IndexOf(TrackIds(g.tracks), tid).None?
    ensures CellOf(g, tid, sid).None?
  {
  }

  // ---------------------------------------------------------------------------------------
  // Id lookups after a splice: the facts about ids that the delete and move lemmas share

  lemma SectionIdsRemoveAt(ss: seq<Section>, i: nat)
    requires i < |ss|
    ensures SectionIds(RemoveAt(ss, i)) == RemoveAt(SectionIds(ss), i)
  {
    var r, ids := RemoveAt(ss, i), SectionIds(ss);
    assert forall k :: 0 <= k < |r| ==> SectionIds(r)[k] == RemoveAt(ids, i)[k];
  }

  lemma TrackIdsRemoveAt(ts: seq<Track>, i: nat)
    requires i < |ts|
    ensures TrackIds(RemoveAt(ts, i)) == RemoveAt(TrackIds(ts), i)
  {
    var r, ids := RemoveAt(ts, i), TrackIds(ts);
    assert forall k :: 0 <= k < |r| ==> TrackIds(r)[k] == RemoveAt(ids, i)[k];
  }

  lemma SectionIdsMove(ss: seq<Section>, d: nat, t: nat)
    requires d < |ss| && t < |ss|
    ensures SectionIds(Move(ss, d, t)) == Move(SectionIds(ss), d, t)
  {
    var ids := SectionIds(ss);
    MoveIsPermutation(ss, d, t);
    MoveIsPermutation(ids, d, t);
    forall k | 0 <= k < |ss| ensures SectionIds(Move(ss, d, t))[k] == Move(ids, d, t)[k] {
      MoveAt(ss, d, t, k);
      MoveAt(ids, d, t, k);
    }
  }

  /** Removing one id keeps the others distinct. */
  lemma RemoveAtDistinct(ids: seq<nat>, i: nat)
    requires i < |ids| && Distinct(ids)
    ensures Distinct(RemoveAt(ids, i))
  {
    var r := RemoveAt(ids, i);
    forall a, b | 0 <= a < b < |r| ensures r[a] != r[b] {
      var a', b' := if a < i then a else a + 1, if b < i then b else b + 1;
      assert r[a] == ids[a'] && r[b] == ids[b'];
    }
  }

  /** Moving one id keeps the ids distinct. */
  lemma MoveDistinct(ids: seq<nat>, d: nat, t: nat)
    requires d < |ids| && t < |ids| && Distinct(ids)
    ensures |Move(ids, d, t)| == |ids| && Distinct(Move(ids, d, t))
  {
    var m := Move(ids, d, t);
    MoveIsPermutation(ids, d, t);
    forall a, b | 0 <= a < b < |m| ensures m[a] != m[b] {
      MoveAt(ids, d, t, a);
      MoveAt(ids, d, t, b);
      MoveSourceTarget(d, t, |ids|, a);
      MoveSourceTarget(d, t, |ids|, b);
    }
  }

  /** After a move every id is found at the position `MoveTarget` gives its old one. */
  lemma MoveLookup(ids: seq<nat>, d: nat, t: nat, x: nat)
    requires d < |ids| && t < |ids| && Distinct(ids)
    ensures IndexOf(Move(ids, d, t), x)
         == if IndexOf(ids, x).None? then None else Some(MoveTarget(d, t, IndexOf(ids, x).value))
  {
    var m := Move(ids, d, t);
    MoveDistinct(ids, d, t);
    if IndexOf(ids, x).None? {
      forall j | 0 <= j < |m| ensures m[j] != x {
        MoveAt(ids, d, t, j);
      }
    } else {
      var k := IndexOf(ids, x).value;
      MoveSourceTarget(d, t, |ids|, k);
      MoveAt(ids, d, t, MoveTarget(d, t, k));
      IndexOfDistinct(m, MoveTarget(d, t, k));
    }
  }

  /** After the id at `i` is removed it is no longer found, and neither is an id that was
      never there. */
  lemma RemoveAtLookupMissing(ids: seq<nat>, i: nat, x: nat)
    requires i < |ids| && Distinct(ids) && (x == ids[i] || IndexOf(ids, x).None?)
    ensures IndexOf(RemoveAt(ids, i), x).None?
  {
    var r := RemoveAt(ids, i);
    forall j | 0 <= j < |r| ensures r[j] != x {
      var j' := if j < i then j else j + 1;
      assert r[j] == ids[j'];
    }
  }

  /** Every other id is still found, one place earlier if it stood after `i`. */
  lemma RemoveAtLookupFound(ids: seq<nat>, i: nat, k: nat)
    requires i < |ids| && k < |ids| && k != i && Distinct(ids)
    ensures IndexOf(RemoveAt(ids, i), ids[k]) == Some(if k < i then k else k - 1)
  {
    var k' := if k < i then k else k - 1;
    RemoveAtDistinct(ids, i);
    IndexOfDistinct(RemoveAt(ids, i), k');
  }

  // ---------------------------------------------------------------------------------------
  // addSection

  lemma AddSectionValid(g: Grid, name: string, color: string, duration: int)
    requires Valid(g)
    ensures Valid(AddSection(g, name, color, duration))
  {
    var h := AddSection(g, name, color, duration);
    assert forall i :: 0 <= i < |g.sections| ==> h.sections[i] == g.sections[i];
  }

  /** Adding a section leaves every existing cell where it was and gives every track an empty
      cell for the new section. */
  lemma AddSectionCells(g: Grid, name: string, color: string, duration: int, tid: nat, sid: nat)
    requires Valid(g)
    ensures CellOf(AddSection(g, name, color, duration), tid, sid)
         == if sid == g.nextId && HasTrack(g, tid) then Some("") else CellOf(g, tid, sid)
  {
    var h := AddSection(g, name, color, duration);
    AddSectionValid(g, name, color, duration);
    assert TrackIds(h.tracks) == TrackIds(g.tracks);
    if HasTrack(g, tid) {
      var t := IndexOf(TrackIds(g.tracks), tid).value;
      if sid == g.nextId {
        CellOfAt(h, t, |g.sections|);
      } else if HasSection(g, sid) {
        var k := IndexOf(SectionIds(g.sections), sid).value;
        CellOfAt(g, t, k);
        CellOfAt(h, t, k);
      } else {
        assert !HasSection(h, sid) by {
          assert forall i :: 0 <= i < |h.sections| ==> SectionIds(h.sections)[i] != sid;
        }
      }
    }
  }

  /** Adding a section adds its duration to the bar total. */
  lemma AddSectionTotalBars(g: Grid, name: string, color: string, duration: int)
    ensures Metrics.TotalBars(AddSection(g, name, color, duration).sections) == Metrics.TotalBars(g.sections) + duration
  {
    var h := AddSection(g, name, color, duration);
    var s := h.sections[|g.sections|];
    Metrics.TotalBarsInsert(g.sections, |g.sections|, s);
    assert g.sections[..|g.sections|] + [s] + g.sections[|g.sections|..] == h.sections;
  }

  // ---------------------------------------------------------------------------------------
  // deleteSection

  lemma {:induction false} WithoutAbsentSection(ss: seq<Section>, id: nat)
    requires forall i :: 0 <= i < |ss| ==> ss[i].id != id
    ensures WithoutSection(ss, id) == ss
  {
    if ss != [] {
      WithoutAbsentSection(ss[1..], id);
    }
  }

  /** With distinct ids, filtering a section out is removing it at its index. */
  lemma SectionIdsTail(ss: seq<Section>)
    requires ss != []
    ensures SectionIds(ss[1..]) == SectionIds(ss)[1..]
  {
    assert forall k :: 0 <= k < |ss| - 1 ==> SectionIds(ss[1..])[k] == SectionIds(ss)[k + 1];
  }

  lemma DistinctTail(ids: seq<nat>)
    requires ids != [] && Distinct(ids)
    ensures Distinct(ids[1..])
    ensures forall k :: 0 <= k < |ids| - 1 ==> ids[1..][k] != ids[0]
  {
    assert forall k :: 0 <= k < |ids| - 1 ==> ids[1..][k] == ids[k + 1];
  }

  lemma {:induction false} WithoutSectionAt(ss: seq<Section>, i: nat)
    requires i < |ss| && Distinct(SectionIds(ss))
    ensures WithoutSection(ss, ss[i].id) == RemoveAt(ss, i)
  {
    var id, ids := ss[i].id, SectionIds(ss);
    SectionIdsTail(ss);
    DistinctTail(ids);
    if i == 0 {
      forall k | 0 <= k < |ss[1..]| ensures ss[1..][k].id != id {
        assert ss[1..][k].id == ids[1..][k];
      }
      WithoutAbsentSection(ss[1..], id);
    } else {
      assert ids[0] != ids[i];
      WithoutSectionAt(ss[1..], i - 1);
      RemoveAtCons(ss, i);
    }
  }

  /** What `deleteSection` does to a valid grid, by positions: the section at index `i` and
      the cell at index `i` of every track are removed (the length guard never fails), and all
      other sections and cells keep their relative order. */
  lemma DeleteSectionAt(g: Grid, i: nat)
    requires Aligned(g) && Distinct(SectionIds(g.sections)) && i < |g.sections|
    ensures DeleteSection(g, g.sections[i].id) == g.(sections := RemoveAt(g.sections, i), tracks := DropCells(g.tracks, i))
    ensures forall j :: 0 <= j < |g.tracks| ==> DropCells(g.tracks, i)[j].cells == RemoveAt(g.tracks[j].cells, i)
  {
    IndexOfDistinct(SectionIds(g.sections), i);
    WithoutSectionAt(g.sections, i);
  }

  /** An unknown id leaves the grid as it was. */
  lemma DeleteSectionUnknown(g: Grid, id: nat)
    requires !HasSection(g, id)
    ensures DeleteSection(g, id) == g
  {
  }

  lemma DeleteSectionValid(g: Grid, id: nat)
    requires Valid(g)
    ensures Valid(DeleteSection(g, id))
  {
    if HasSection(g, id) {
      var i := IndexOf(SectionIds(g.sections), id).value;
      DeleteSectionAt(g, i);
      SectionIdsRemoveAt(g.sections, i);
      RemoveAtDistinct(SectionIds(g.sections), i);
      var h := DeleteSection(g, id);
      assert TrackIds(h.tracks) == TrackIds(g.tracks);
    }
  }

  /** A cell of another section survives the removal of section i, one place to the left
      when its section stood after i. */
  lemma RemoveSectionKeepsCell(g: Grid, i: nat, h: Grid, tid: nat, sid: nat, t: nat, k: nat)
    requires Aligned(g) && Distinct(SectionIds(g.sections)) && i < |g.sections|
    requires h == g.(sections := RemoveAt(g.sections, i), tracks := DropCells(g.tracks, i))
    requires IndexOf(TrackIds(g.tracks), tid) == Some(t) && IndexOf(SectionIds(g.sections), sid) == Some(k)
    requires k != i
    ensures CellOf(h, tid, sid) == CellOf(g, tid, sid)
  {
    var k' := if k < i then k else k - 1;
    SectionIdsRemoveAt(g.sections, i);
    RemoveAtLookupFound(SectionIds(g.sections), i, k);
    assert TrackIds(h.tracks) == TrackIds(g.tracks);
    var cells := g.tracks[t].cells;
    assert |cells| == |g.sections|;
    assert h.tracks[t] == DropCell(g.tracks[t], i);
    assert h.tracks[t].cells[k'] == cells[k];
    CellOfFound(g, tid, sid, t, k);
    CellOfFound(h, tid, sid, t, k');
  }

  /** Removing section i and the cell at i of every track, by positions: the removed
      section's cells are no longer found, and every other cell is found as before. */
  lemma RemoveSectionCells(g: Grid, i: nat, h: Grid, tid: nat, sid: nat)
    requires Aligned(g) && Distinct(SectionIds(g.sections)) && i < |g.sections|
    requires h == g.(sections := RemoveAt(g.sections, i), tracks := DropCells(g.tracks, i))
    ensures CellOf(h, tid, sid) == if sid == g.sections[i].id then None else CellOf(g, tid, sid)
  {
    var id, ids := g.sections[i].id, SectionIds(g.sections);
    SectionIdsRemoveAt(g.sections, i);
    if sid == id {
      RemoveAtLookupMissing(ids, i, sid);
      CellOfNoSection(h, tid, sid);
    } else if !HasSection(g, sid) {
      RemoveAtLookupMissing(ids, i, sid);
      CellOfNoSection(h, tid, sid);
      CellOfNoSection(g, tid, sid);
    } else if !HasTrack(g, tid) {
      assert TrackIds(h.tracks) == TrackIds(g.tracks);
      CellOfNoTrack(h, tid, sid);
      CellOfNoTrack(g, tid, sid);
    } else {
      RemoveSectionKeepsCell(g, i, h, tid, sid, IndexOf(TrackIds(g.tracks), tid).value, IndexOf(ids, sid).value);
    }
  }

  lemma DeleteSectionCellsAt(g: Grid, i: nat, tid: nat, sid: nat)
    requires Aligned(g) && Distinct(SectionIds(g.sections)) && i < |g.sections|
    ensures CellOf(DeleteSection(g, g.sections[i].id), tid, sid)
         == if sid == g.sections[i].id then None else CellOf(g, tid, sid)
  {
    DeleteSectionAt(g, i);
    RemoveSectionCells(g, i, g.(sections := RemoveAt(g.sections, i), tracks := DropCells(g.tracks, i)), tid, sid);
  }

  /** Deleting a section removes its cells and leaves every other cell with its section. */
  lemma DeleteSectionCells(g: Grid, id: nat, tid: nat, sid: nat)
    requires Valid(g)
    ensures CellOf(DeleteSection(g, id), tid, sid) == if sid == id then None else CellOf(g, tid, sid)
  {
    if HasSection(g, id) {
      DeleteSectionCellsAt(g, IndexOf(SectionIds(g.sections), id).value, tid, sid);
    }
  }

  /** Deleting a section takes its duration off the bar total. */
  lemma DeleteSectionTotalBars(g: Grid, id: nat)
    requires Valid(g) && HasSection(g, id)
    ensures Metrics.TotalBars(DeleteSection(g, id).sections)
         == Metrics.TotalBars(g.sections) - g.sections[IndexOf(SectionIds(g.sections), id).value].duration
  {
    var i := IndexOf(SectionIds(g.sections), id).value;
    DeleteSectionAt(g, i);
    Metrics.TotalBarsRemoveAt(g.sections, i);
  }

  // ---------------------------------------------------------------------------------------
  // moveSection

  lemma MoveSectionValid(g: Grid, draggedId: nat, targetId: nat)
    requires Valid(g)
    ensures Valid(MoveSection(g, draggedId, targetId))
  {
    var ids := SectionIds(g.sections);
    if HasSection(g, draggedId) && HasSection(g, targetId) {
      var d, t := IndexOf(ids, draggedId).value, IndexOf(ids, targetId).value;
      var h := MoveSection(g, draggedId, targetId);
      assert h == g.(sections := Move(g.sections, d, t), tracks := MoveCells(g.tracks, d, t));
      MoveIsPermutation(g.sections, d, t);
      SectionIdsMove(g.sections, d, t);
      MoveDistinct(ids, d, t);
      forall k | 0 <= k < |h.sections| ensures h.sections[k] == g.sections[MoveSource(d, t, k)] {
        MoveAt(g.sections, d, t, k);
      }
      forall j | 0 <= j < |h.tracks| ensures |h.tracks[j].cells| == |h.sections| {
        MoveIsPermutation(g.tracks[j].cells, d, t);
      }
      assert TrackIds(h.tracks) == TrackIds(g.tracks);
    }
  }

  /** Moving a section keeps every cell with its section: whatever track and section ids are
      asked for, the moved grid holds the same cell text as before. */
  lemma MoveSectionCells(g: Grid, draggedId: nat, targetId: nat, tid: nat, sid: nat)
    requires Aligned(g) && Distinct(SectionIds(g.sections))
    ensures CellOf(MoveSection(g, draggedId, targetId), tid, sid) == CellOf(g, tid, sid)
  {
    var ids := SectionIds(g.sections);
    if HasSection(g, draggedId) && HasSection(g, targetId) {
      var d, t := IndexOf(ids, draggedId).value, IndexOf(ids, targetId).value;
      var h := MoveSection(g, draggedId, targetId);
      assert h == g.(sections := Move(g.sections, d, t), tracks := MoveCells(g.tracks, d, t));
      SectionIdsMove(g.sections, d, t);
      MoveLookup(ids, d, t, sid);
      assert TrackIds(h.tracks) == TrackIds(g.tracks);
      if !HasTrack(g, tid) {
        CellOfNoTrack(h, tid, sid);
        CellOfNoTrack(g, tid, sid);
      } else if !HasSection(g, sid) {
        CellOfNoSection(h, tid, sid);
        CellOfNoSection(g, tid, sid);
      } else {
        var ti, k := IndexOf(TrackIds(g.tracks), tid).value, IndexOf(ids, sid).value;
        var cells := g.tracks[ti].cells;
        MoveSourceTarget(d, t, |ids|, k);
        MoveAt(cells, d, t, MoveTarget(d, t, k));
        assert h.tracks[ti].cells == Move(cells, d, t);
        CellOfFound(g, tid, sid, ti, k);
        CellOfFound(h, tid, sid, ti, MoveTarget(d, t, k));
      }
    }
  }

  /** Dragging onto or from an id that is not in the grid changes nothing. */
  lemma MoveSectionUnknown(g: Grid, draggedId: nat, targetId: nat)
    requires !HasSection(g, draggedId) || !HasSection(g, targetId)
    ensures MoveSection(g, draggedId, targetId) == g
  {
  }

  /** Moving a section only reorders: the sections and every track's cells are permutations of
      what they were. */
  lemma MoveSectionPermutes(g: Grid, draggedId: nat, targetId: nat)
    requires Valid(g)
    ensures var h := MoveSection(g, draggedId, targetId);
      && multiset(h.sections) == multiset(g.sections)
      && |h.tracks| == |g.tracks|
      && forall j :: 0 <= j < |g.tracks| ==> multiset(h.tracks[j].cells) == multiset(g.tracks[j].cells)
  {
    var ids := SectionIds(g.sections);
    if HasSection(g, draggedId) && HasSection(g, targetId) {
      var d, t := IndexOf(ids, draggedId).value, IndexOf(ids, targetId).value;
      var h := MoveSection(g, draggedId, targetId);
      MoveIsPermutation(g.sections, d, t);
      forall j | 0 <= j < |g.tracks| ensures multiset(h.tracks[j].cells) == multiset(g.tracks[j].cells) {
        MoveIsPermutation(g.tracks[j].cells, d, t);
      }
    }
  }

  /** The bar total does not depend on the order of the sections. */
  lemma MoveTotalBars(ss: seq<Section>, d: nat, t: nat)
    requires d < |ss| && t < |ss|
    ensures Metrics.TotalBars(Move(ss, d, t)) == Metrics.TotalBars(ss)
  {
    var r := RemoveAt(ss, d);
    Metrics.TotalBarsRemoveAt(ss, d);
    Metrics.TotalBarsInsert(r, t, ss[d]);
    assert Move(ss, d, t) == r[..t] + [ss[d]] + r[t..];
  }

  /** Moving a section leaves the bar total unchanged. */
  lemma MoveSectionTotalBars(g: Grid, draggedId: nat, targetId: nat)
    ensures Metrics.TotalBars(MoveSection(g, draggedId, targetId).sections) == Metrics.TotalBars(g.sections)
  {
    var ids := SectionIds(g.sections);
    if HasSection(g, draggedId) && HasSection(g, targetId) {
      MoveTotalBars(g.sections, IndexOf(ids, draggedId).value, IndexOf(ids, targetId).value);
    }
  }

  function ExampleSection(id: nat, name: string): Section { Section(id, name, "#FFFFFF", 4, 4 * BarWidth) }

  function ExampleSections(): seq<Section> {
    [ExampleSection(0, "A"), ExampleSection(1, "B"), ExampleSection(2, "C")]
  }

  lemma ExampleLookups()
    ensures IndexOf(SectionIds(ExampleSections()), 0) == Some(0)
    ensures IndexOf(SectionIds(ExampleSections()), 2) == Some(2)
  {
    assert SectionIds(ExampleSections()) == [0, 1, 2];
    assert [0, 1, 2][1..] == [1, 2] && [1, 2][1..] == [2];
    assert IndexOf([2], 2) == Some(0);
    assert IndexOf([1, 2], 2) == Some(1);
  }

  /** Three sections A, B, C (ids 0, 1, 2) and one track with cells a, b, c: dragging A onto C
      gives B, C, A and the cells follow. */
  lemma MoveSectionExample()
    ensures
      var g := Grid(ExampleSections(), [Track(3, "Drums", 50, ["a", "b", "c"])], None, 4);
      var h := MoveSection(g, 0, 2);
      && h.sections == [ExampleSection(1, "B"), ExampleSection(2, "C"), ExampleSection(0, "A")]
      && h.tracks == [Track(3, "Drums", 50, ["b", "c", "a"])]
  {
    var ss := ExampleSections();
    var t := Track(3, "Drums", 50, ["a", "b", "c"]);
    var g := Grid(ss, [t], None, 4);
    ExampleLookups();
    assert MoveSection(g, 0, 2) == g.(sections := Move(ss, 0, 2), tracks := MoveCells([t], 0, 2));
    assert Move(ss, 0, 2) == [ExampleSection(1, "B"), ExampleSection(2, "C"), ExampleSection(0, "A")] by {
      assert RemoveAt(ss, 0) == [ExampleSection(1, "B"), ExampleSection(2, "C")];
    }
    assert Move(["a", "b", "c"], 0, 2) == ["b", "c", "a"] by {
      assert RemoveAt(["a", "b", "c"], 0) == ["b", "c"];
    }
    assert MoveCells([t], 0, 2) == [t.(cells := ["b", "c", "a"])];
  }

  // ---------------------------------------------------------------------------------------
  // addNewTrack, addDefaultTracks, deleteTrack

  lemma AddTrackValid(g: Grid, name: string)
    requires Valid(g)
    ensures Valid(AddTrack(g, name))
  {
    var h := AddTrack(g, name);
    assert forall j :: 0 <= j < |g.tracks| ==> h.tracks[j] == g.tracks[j];
  }

  /** A new track starts with an empty cell for every section and changes no other cell. */
  lemma AddTrackCells(g: Grid, name: string, tid: nat, sid: nat)
    requires Valid(g)
    ensures CellOf(AddTrack(g, name), tid, sid)
         == if tid == g.nextId && HasSection(g, sid) then Some("") else CellOf(g, tid, sid)
  {
    var h := AddTrack(g, name);
    AddTrackValid(g, name);
    assert SectionIds(h.sections) == SectionIds(g.sections);
    if HasSection(g, sid) {
      var k := IndexOf(SectionIds(g.sections), sid).value;
      if tid == g.nextId {
        CellOfAt(h, |g.tracks|, k);
      } else if HasTrack(g, tid) {
        var t := IndexOf(TrackIds(g.tracks), tid).value;
        CellOfAt(g, t, k);
        CellOfAt(h, t, k);
      } else {
        assert !HasTrack(h, tid) by {
          assert forall j :: 0 <= j < |h.tracks| ==> TrackIds(h.tracks)[j] != tid;
        }
      }
    }
  }

  /** Adding tracks by name appends them in order, with consecutive fresh ids, the default
      height and one empty cell per section; the sections and the tracks already there stay. */
  lemma {:induction false} AddTracksAppends(g: Grid, names: seq<string>)
    requires Valid(g)
    ensures var h := AddTracks(g, names);
      && Valid(h)
      && h.sections == g.sections && h.editing == g.editing
      && h.nextId == g.nextId + |names|
      && |h.tracks| == |g.tracks| + |names|
      && h.tracks[..|g.tracks|] == g.tracks
      && forall k :: 0 <= k < |names| ==>
           h.tracks[|g.tracks| + k] == Track(g.nextId + k, names[k], DefaultTrackHeight, EmptyCells(|g.sections|))
  {
    if names != [] {
      var init := names[..|names| - 1];
      AddTracksAppends(g, init);
      var m := AddTracks(g, init);
      AddTrackValid(m, names[|names| - 1]);
      var h := AddTracks(g, names);
      assert h == AddTrack(m, names[|names| - 1]);
      assert forall k :: 0 <= k < |init| ==> init[k] == names[k];
      assert h.tracks[..|g.tracks|] == m.tracks[..|g.tracks|];
    }
  }

  /** `addDefaultTracks` appends Drums, Guitar, Bass and Voice, in that order, each with an
      empty cell per section. */
  lemma AddDefaultTracksAppends(g: Grid)
    requires Valid(g)
    ensures var h := AddDefaultTracks(g);
      && Valid(h)
      && h.sections == g.sections
      && |h.tracks| == |g.tracks| + 4
      && h.tracks[..|g.tracks|] == g.tracks
      && h.tracks[|g.tracks|].name == "Drums" && h.tracks[|g.tracks| + 1].name == "Guitar"
      && h.tracks[|g.tracks| + 2].name == "Bass" && h.tracks[|g.tracks| + 3].name == "Voice"
      && forall j :: |g.tracks| <= j < |h.tracks| ==> h.tracks[j].cells == EmptyCells(|g.sections|)
  {
    var names := DefaultTrackNames;
    AddTracksAppends(g, names);
    var h := AddDefaultTracks(g);
    var n := |g.tracks|;
    assert |names| == 4;
    assert names[0] == "Drums" && names[1] == "Guitar" && names[2] == "Bass" && names[3] == "Voice";
    assert h.tracks[n + 0].name == names[0] && h.tracks[n + 1].name == names[1];
    assert h.tracks[n + 2].name == names[2] && h.tracks[n + 3].name == names[3];
    forall j | n <= j < |h.tracks| ensures h.tracks[j].cells == EmptyCells(|g.sections|) {
      var k := j - n;
      assert h.tracks[n + k] == Track(g.nextId + k, names[k], DefaultTrackHeight, EmptyCells(|g.sections|));
    }
  }

  lemma DeleteTrackValid(g: Grid, id: nat)
    requires Valid(g)
    ensures Valid(DeleteTrack(g, id))
  {
    if HasTrack(g, id) {
      var i := IndexOf(TrackIds(g.tracks), id).value;
      var h := DeleteTrack(g, id);
      TrackIdsRemoveAt(g.tracks, i);
      RemoveAtDistinct(TrackIds(g.tracks), i);
    }
  }

  /** Deleting a track removes exactly its cells; an unknown id changes nothing. */
  lemma DeleteTrackCells(g: Grid, id: nat, tid: nat, sid: nat)
    requires Distinct(TrackIds(g.tracks))
    ensures !HasTrack(g, id) ==> DeleteTrack(g, id) == g
    ensures CellOf(DeleteTrack(g, id), tid, sid) == if tid == id then None else CellOf(g, tid, sid)
  {
    if HasTrack(g, id) {
      var ids := TrackIds(g.tracks);
      var i := IndexOf(ids, id).value;
      var h := DeleteTrack(g, id);
      assert h == g.(tracks := RemoveAt(g.tracks, i));
      TrackIdsRemoveAt(g.tracks, i);
      if tid == id {
        RemoveAtLookupMissing(ids, i, tid);
        CellOfNoTrack(h, tid, sid);
      } else if !HasTrack(g, tid) {
        RemoveAtLookupMissing(ids, i, tid);
        CellOfNoTrack(h, tid, sid);
        CellOfNoTrack(g, tid, sid);
      } else if !HasSection(g, sid) {
        CellOfNoSection(h, tid, sid);
        CellOfNoSection(g, tid, sid);
      } else {
        var t, k := IndexOf(ids, tid).value, IndexOf(SectionIds(g.sections), sid).value;
        var t' := if t < i then t else t - 1;
        RemoveAtLookupFound(ids, i, t);
        assert h.tracks[t'] == g.tracks[t];
        CellOfFound(g, tid, sid, t, k);
        CellOfFound(h, tid, sid, t', k);
      }
    }
  }

  // ---------------------------------------------------------------------------------------
  // Editing a section, editing a cell, row heights

  lemma ApplySectionChangesValid(g: Grid, name: string, color: string, duration: int)
    requires Valid(g)
    ensures Valid(ApplySectionChanges(g, name, color, duration))
  {
    var h := ApplySectionChanges(g, name, color, duration);
    assert SectionIds(h.sections) == SectionIds(g.sections);
  }

  /** Applying the edit dialog changes no cell and closes the editor; with nothing open it
      changes nothing at all. */
  lemma ApplySectionChangesCells(g: Grid, name: string, color: string, duration: int, tid: nat, sid: nat)
    ensures var h := ApplySectionChanges(g, name, color, duration);
      && CellOf(h, tid, sid) == CellOf(g, tid, sid)
      && h.editing == None
      && (g.editing.None? ==> h == g)
  {
    var h := ApplySectionChanges(g, name, color, duration);
    assert SectionIds(h.sections) == SectionIds(g.sections);
    CellOfSameLayout(g, h, tid, sid);
  }

  /** With a section open, applying the dialog sets that section's fields, keeps its width at 30
      pixels per bar, and moves the bar total by the change in duration. */
  lemma ApplySectionChangesEdits(g: Grid, name: string, color: string, duration: int)
    requires g.editing.Some? && HasSection(g, g.editing.value)
    ensures var h := ApplySectionChanges(g, name, color, duration);
      var i := IndexOf(SectionIds(g.sections), g.editing.value).value;
      && |h.sections| == |g.sections|
      && h.sections[i] == Section(g.editing.value, name, color, duration, duration * BarWidth)
      && (forall j :: 0 <= j < |g.sections| && j != i ==> h.sections[j] == g.sections[j])
      && h.tracks == g.tracks && h.nextId == g.nextId && h.editing == None
      && Metrics.TotalBars(h.sections) == Metrics.TotalBars(g.sections) - g.sections[i].duration + duration
  {
    var h := ApplySectionChanges(g, name, color, duration);
    var i := IndexOf(SectionIds(g.sections), g.editing.value).value;
    var s := g.sections[i].(name := name, color := color, duration := duration, width := duration * BarWidth);
    assert h.sections == g.sections[i := s];
    assert s == Section(g.editing.value, name, color, duration, duration * BarWidth);
    Metrics.TotalBarsReplace(g.sections, i, s);
  }

  lemma OpenEditorValid(g: Grid, sectionId: nat)
    requires Valid(g)
    ensures Valid(OpenEditor(g, sectionId)) && Valid(CloseEditor(g))
  {
  }

  lemma SetCellValid(g: Grid, trackId: nat, index: nat, text: string)
    requires Valid(g) && index < |g.sections|
    ensures Valid(SetCell(g, trackId, index, text))
  {
    var h := SetCell(g, trackId, index, text);
    assert TrackIds(h.tracks) == TrackIds(g.tracks);
  }

  /** Typing into a cell changes exactly that cell: the one of that track under the section at
      that index. */
  lemma SetCellCells(g: Grid, trackId: nat, index: nat, text: string, tid: nat, sid: nat)
    requires Valid(g) && index < |g.sections|
    ensures CellOf(SetCell(g, trackId, index, text), tid, sid)
         == if tid == trackId && HasTrack(g, trackId) && sid == g.sections[index].id then Some(text)
            else CellOf(g, tid, sid)
  {
    var h := SetCell(g, trackId, index, text);
    SetCellValid(g, trackId, index, text);
    assert TrackIds(h.tracks) == TrackIds(g.tracks);
    if HasTrack(g, tid) && HasSection(g, sid) {
      var t := IndexOf(TrackIds(g.tracks), tid).value;
      var k := IndexOf(SectionIds(g.sections), sid).value;
      CellOfAt(g, t, k);
      CellOfAt(h, t, k);
      IndexOfDistinct(SectionIds(g.sections), index);
    }
  }

  /** A row height update changes no cell and keeps the store valid; the track's new height is
      at least 50 and fits its header and every cell. */
  lemma UpdateTrackRowHeightEffect(g: Grid, trackId: nat, nameScrollHeight: Option<int>, cellScrollHeights: seq<int>, tid: nat, sid: nat)
    requires Valid(g)
    ensures var h := UpdateTrackRowHeight(g, trackId, nameScrollHeight, cellScrollHeights);
      && Valid(h)
      && CellOf(h, tid, sid) == CellOf(g, tid, sid)
      && (!HasTrack(g, trackId) ==> h == g)
      && (HasTrack(g, trackId) ==>
            var t := IndexOf(TrackIds(g.tracks), trackId).value;
            && h.tracks[t].height >= Metrics.MinRowHeight
            && h.tracks[t].height >= Metrics.HeaderHeight(nameScrollHeight)
            && forall k :: 0 <= k < |cellScrollHeights| ==> h.tracks[t].height >= cellScrollHeights[k] + Metrics.CellPadding)
  {
    var h := UpdateTrackRowHeight(g, trackId, nameScrollHeight, cellScrollHeights);
    assert TrackIds(h.tracks) == TrackIds(g.tracks);
    CellOfSameLayout(g, h, tid, sid);
    Metrics.RowHeightIsLeastUpperBound(nameScrollHeight, cellScrollHeights);
  }

  // ---------------------------------------------------------------------------------------
  // The grid the page starts with

  /** `initializeApp` leaves a valid grid: Intro, Verse and Chorus (20 bars), and the four
      default tracks, each with three empty cells. */
  /** The three sections `initializeApp` adds before the tracks. */
  lemma InitialSections()
    ensures var g := AddSection(AddSection(AddSection(Empty(), "Intro", "#DAE8FC", 4), "Verse", "#D5E8D4", 8), "Chorus", "#FFE6CC", 8);
      && Valid(g) && g.tracks == [] && |g.sections| == 3 && Metrics.TotalBars(g.sections) == 20
  {
    var g0 := Empty();
    var g1 := AddSection(g0, "Intro", "#DAE8FC", 4);
    var g2 := AddSection(g1, "Verse", "#D5E8D4", 8);
    AddSectionValid(g0, "Intro", "#DAE8FC", 4);
    AddSectionValid(g1, "Verse", "#D5E8D4", 8);
    AddSectionValid(g2, "Chorus", "#FFE6CC", 8);
    AddSectionTotalBars(g0, "Intro", "#DAE8FC", 4);
    AddSectionTotalBars(g1, "Verse", "#D5E8D4", 8);
    AddSectionTotalBars(g2, "Chorus", "#FFE6CC", 8);
  }

  lemma InitialGrid()
    ensures Valid(Initial())
    ensures |Initial().sections| == 3 && Metrics.TotalBars(Initial().sections) == 20
    ensures |Initial().tracks| == 4
    ensures forall j :: 0 <= j < 4 ==> Initial().tracks[j].cells == ["", "", ""]
  {
    var g := AddSection(AddSection(AddSection(Empty(), "Intro", "#DAE8FC", 4), "Verse", "#D5E8D4", 8), "Chorus", "#FFE6CC", 8);
    InitialSections();
    AddDefaultTracksAppends(g);
    assert EmptyCells(3) == ["", "", ""];
  }
}
