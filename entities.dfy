/** The two entities of the arrangement grid and the id lookup the store uses on them.

    A section is one column of the grid (a song part); a track is one row (an instrument line)
    holding one free-text cell per section. Ids are abstract natural numbers handed out by the
    store; the browser build draws them from the clock and a random number. */
module Entities {

  datatype Option<T> = None | Some(value: T)

  /** Pixels per bar: a section is `duration * BarWidth` pixels wide. */
  const BarWidth: int := 30

  /** Height every new track starts with. */
  const DefaultTrackHeight: int := 50

  datatype Section = Section(id: nat, name: string, color: string, duration: int, width: int)

  datatype Track = Track(id: nat, name: string, height: int, cells: seq<string>)

  function SectionIds(ss: seq<Section>): (ids: seq<nat>)
    ensures |ids| == |ss|
    ensures forall i :: 0 <= i < |ss| ==> ids[i] == ss[i].id
  {
    seq(|ss|, i requires 0 <= i < |ss| => ss[i].id)
  }

  function TrackIds(ts: seq<Track>): (ids: seq<nat>)
    ensures |ids| == |ts|
    ensures forall i :: 0 <= i < |ts| ==> ids[i] == ts[i].id
  {
    seq(|ts|, i requires 0 <= i < |ts| => ts[i].id)
  }

  /** `Array.prototype.findIndex` on ids: the first position holding `id`, or None for -1. */
  function IndexOf(ids: seq<nat>, id: nat): (r: Option<nat>)
    ensures r.Some? ==> r.value < |ids| && ids[r.value] == id
    ensures r.Some? ==> forall j :: 0 <= j < r.value ==> ids[j] != id
    ensures r.None? <==> forall j :: 0 <= j < |ids| ==> ids[j] != id
  {
    if ids == [] then None
    else if ids[0] == id then Some(0)
    else match IndexOf(ids[1..], id)
      case None => None
      case Some(k) => Some(k + 1)
  }

  ghost predicate Distinct(ids: seq<nat>) {
    forall i, j :: 0 <= i < j < |ids| ==> ids[i] != ids[j]
  }

  ghost predicate AllBelow(ids: seq<nat>, bound: nat) {
    forall i :: 0 <= i < |ids| ==> ids[i] < bound
  }

  /** With distinct ids, the lookup finds exactly the position that holds the id. */
  lemma IndexOfDistinct(ids: seq<nat>, k: nat)
    requires Distinct(ids) && k < |ids|
    ensures IndexOf(ids, ids[k]) == Some(k)
  {
  }
}
