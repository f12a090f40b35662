/** Values derived from the grid after every structural edit: the bar ruler, the timeline
    ruler, the clamp of the duration spinners and the height of a track row. */
module Metrics {
  import opened Entities
  import Splice

  function Max(a: int, b: int): int { if a < b then b else a }
  function Min(a: int, b: int): int { if a < b then a else b }

  // ---------------------------------------------------------------------------------------
  // Bars

  /** `sections.reduce((sum, section) => sum + section.duration, 0)`: a left fold. */
  function TotalBars(ss: seq<Section>): int {
    if ss == [] then 0 else TotalBars(ss[..|ss| - 1]) + ss[|ss| - 1].duration
  }

  /** The total is additive over concatenation, so it does not depend on how it is folded. */
  lemma {:induction false} TotalBarsConcat(a: seq<Section>, b: seq<Section>)
    ensures TotalBars(a + b) == TotalBars(a) + TotalBars(b)
  {
    if b != [] {
      assert (a + b)[..|a + b| - 1] == a + b[..|b| - 1];
      TotalBarsConcat(a, b[..|b| - 1]);
    } else {
      assert a + b == a;
    }
  }

  lemma TotalBarsSingleton(x: Section)
    ensures TotalBars([x]) == x.duration
  {
    assert [x][..0] == [];
  }

  /** Removing one section takes its duration off the total. */
  lemma TotalBarsRemoveAt(ss: seq<Section>, i: nat)
    requires i < |ss|
    ensures TotalBars(ss[..i] + ss[i + 1..]) == TotalBars(ss) - ss[i].duration
  {
    var before, after := ss[..i], ss[i + 1..];
    Splice.SplitAt(ss, i);
    TotalBarsConcat(before, [ss[i]] + after);
    TotalBarsConcat([ss[i]], after);
    TotalBarsConcat(before, after);
    TotalBarsSingleton(ss[i]);
  }

  /** Inserting one section anywhere (or appending it) adds its duration to the total. */
  lemma TotalBarsInsert(ss: seq<Section>, i: nat, x: Section)
    requires i <= |ss|
    ensures TotalBars(ss[..i] + [x] + ss[i..]) == TotalBars(ss) + x.duration
  {
    TotalBarsConcat(ss[..i] + [x], ss[i..]);
    TotalBarsConcat(ss[..i], [x]);
    TotalBarsConcat(ss[..i], ss[i..]);
    assert ss[..i] + ss[i..] == ss;
    TotalBarsSingleton(x);
  }

  /** Changing one section's duration moves the total by the difference. */
  lemma TotalBarsReplace(ss: seq<Section>, i: nat, x: Section)
    requires i < |ss|
    ensures TotalBars(ss[i := x]) == TotalBars(ss) - ss[i].duration + x.duration
  {
    var r := ss[..i] + ss[i + 1..];
    TotalBarsRemoveAt(ss, i);
    TotalBarsInsert(r, i, x);
    assert r[..i] == ss[..i] && r[i..] == ss[i + 1..];
    assert ss[i := x] == r[..i] + [x] + r[i..];
  }

  /** The labels of the bar ruler: `for (i = 1; i <= totalBars; i++)` emits `i`. */
  method BarLabels(totalBars: int) returns (labels: seq<int>)
    ensures |labels| == Max(0, totalBars)
    ensures forall k :: 0 <= k < |labels| ==> labels[k] == k + 1
  {
    labels := [];
    var i := 1;
    while i <= totalBars
      invariant 1 <= i <= Max(1, totalBars + 1)
      invariant |labels| == i - 1
      invariant forall k :: 0 <= k < |labels| ==> labels[k] == k + 1
    {
      labels := labels + [i];
      i := i + 1;
    }
  }

  // ---------------------------------------------------------------------------------------
  // Timeline

  /** One timeline tick at a whole second; major ticks carry a time label. */
  datatype Marker = Marker(seconds: nat, major: bool)

  const SecondsPerMinute: int := 60

  /** A tick every fifth second is major. */
  const MajorEvery: nat := 5

  /** The song length in seconds times the tempo: `60 * signatureTop * totalBars`. The
      browser computes `totalSeconds = span / bpm` as a real number; a whole second `s` is
      on the ruler iff `s <= totalSeconds`, i.e. iff `s * bpm <= span`. */
  function Span(totalBars: int, signatureTop: int): int {
    SecondsPerMinute * signatureTop * totalBars
  }

  /** How many whole seconds `s >= 0` satisfy `s * bpm <= span`. */
  function MarkerCount(span: int, bpm: int): nat
    requires bpm > 0
  {
    if span < 0 then 0 else span / bpm + 1
  }

  lemma MulMonotone(a: int, b: int, c: int)
    requires a <= b && c >= 0
    ensures a * c <= b * c
  {
  }

  /** The seconds on the ruler are exactly those up to the song length. */
  lemma MarkerCountMeaning(span: int, bpm: int, s: nat)
    requires bpm > 0
    ensures s < MarkerCount(span, bpm) <==> s * bpm <= span
  {
    if span >= 0 {
      var q := span / bpm;
      assert q * bpm <= span < q * bpm + bpm;
      if s <= q {
        MulMonotone(s, q, bpm);
      } else {
        MulMonotone(q + 1, s, bpm);
      }
    } else {
      assert s * bpm >= 0;
    }
  }

  /** With no sections the loop still runs once: second 0 is a (major) tick. The page then
      places it at `0 / 0` pixels. */
  lemma EmptySongHasOneMarker(bpm: int, signatureTop: int)
    requires bpm > 0
    ensures MarkerCount(Span(0, signatureTop), bpm) == 1
  {
  }

  /** The loop's exit state pins the count down: the last emitted second fits, the next does not. */
  lemma MarkerCountUnique(span: int, bpm: int, n: nat)
    requires bpm > 0
    requires n * bpm > span && (n == 0 || (n - 1) * bpm <= span)
    ensures n == MarkerCount(span, bpm)
  {
    if n > 0 {
      MarkerCountMeaning(span, bpm, n - 1);
    }
    MarkerCountMeaning(span, bpm, n);
  }

  /** The ticks of the timeline ruler: `for (seconds = 0; seconds <= totalSeconds; seconds++)`,
      major iff `seconds % 5 === 0`. The pixel position of each tick is left out. */
  method TimelineMarkers(totalBars: int, bpm: int, signatureTop: int) returns (markers: seq<Marker>)
    requires bpm > 0
    ensures |markers| == MarkerCount(Span(totalBars, signatureTop), bpm)
    ensures forall k :: 0 <= k < |markers| ==> markers[k] == Marker(k, k % MajorEvery == 0)
  {
    var span := Span(totalBars, signatureTop);
    markers := [];
    var seconds: nat := 0;
    var scaled := 0;
    while scaled <= span
      invariant scaled == seconds * bpm
      invariant |markers| == seconds
      invariant seconds == 0 || (seconds - 1) * bpm <= span
      invariant forall k :: 0 <= k < |markers| ==> markers[k] == Marker(k, k % MajorEvery == 0)
      decreases span - scaled
    {
      markers := markers + [Marker(seconds, seconds % MajorEvery == 0)];
      seconds := seconds + 1;
      scaled := scaled + bpm;
    }
    MarkerCountUnique(span, bpm, seconds);
  }

  // ---------------------------------------------------------------------------------------
  // Duration spinner

  const MinDuration: int := 1
  const MaxDuration: int := 64

  /** One click of a duration spinner: `Math.max(1, Math.min(64, value + change))`. */
  function ClampDuration(value: int, change: int): (r: int)
    ensures MinDuration <= r <= MaxDuration
    ensures MinDuration <= value + change <= MaxDuration ==> r == value + change
    ensures value + change < MinDuration ==> r == MinDuration
    ensures value + change > MaxDuration ==> r == MaxDuration
  {
    Max(MinDuration, Min(MaxDuration, value + change))
  }

  /** The value shown after `clicks` clicks on the same spinner button. */
  function Spin(value: int, change: int, clicks: nat): int {
    if clicks == 0 then value else ClampDuration(Spin(value, change, clicks - 1), change)
  }

  /** Clicking "+" n times from a valid value counts up and stops at 64. */
  lemma {:induction false} SpinUp(value: int, clicks: nat)
    requires MinDuration <= value <= MaxDuration
    ensures Spin(value, 1, clicks) == Min(MaxDuration, value + clicks)
  {
    if clicks > 0 {
      SpinUp(value, clicks - 1);
    }
  }

  /** Clicking "-" n times from a valid value counts down and stops at 1. */
  lemma {:induction false} SpinDown(value: int, clicks: nat)
    requires MinDuration <= value <= MaxDuration
    ensures Spin(value, -1, clicks) == Max(MinDuration, value - clicks)
  {
    if clicks > 0 {
      SpinDown(value, clicks - 1);
    }
  }

  // ---------------------------------------------------------------------------------------
  // Row height

  const MinRowHeight: int := 50
  const HeaderPadding: int := 10
  const CellPadding: int := 8

  /** The header's wanted height: its name box's scroll height plus 10, or 50 without one. */
  function HeaderHeight(nameScrollHeight: Option<int>): int {
    match nameScrollHeight
    case Some(h) => h + HeaderPadding
    case None => MinRowHeight
  }

  /** The running maximum `maxCellHeight`, starting at 50, over `scrollHeight + 8` per cell. */
  function MaxCellHeight(cellScrollHeights: seq<int>): int {
    if cellScrollHeights == [] then MinRowHeight
    else
      var last := cellScrollHeights[|cellScrollHeights| - 1] + CellPadding;
      var m := MaxCellHeight(cellScrollHeights[..|cellScrollHeights| - 1]);
      if last > m then last else m
  }

  /** `Math.max(headerHeight, maxCellHeight, 50)`. */
  function RowHeightOf(nameScrollHeight: Option<int>, cellScrollHeights: seq<int>): int {
    Max(Max(HeaderHeight(nameScrollHeight), MaxCellHeight(cellScrollHeights)), MinRowHeight)
  }

  /** The running maximum is the least upper bound of 50 and every padded cell height. */
  lemma {:induction false} MaxCellHeightIsLeastUpperBound(cs: seq<int>)
    ensures MaxCellHeight(cs) >= MinRowHeight
    ensures forall k :: 0 <= k < |cs| ==> MaxCellHeight(cs) >= cs[k] + CellPadding
    ensures MaxCellHeight(cs) == MinRowHeight
         || exists k :: 0 <= k < |cs| && MaxCellHeight(cs) == cs[k] + CellPadding
  {
    if cs != [] {
      var init := cs[..|cs| - 1];
      MaxCellHeightIsLeastUpperBound(init);
      assert forall k :: 0 <= k < |init| ==> init[k] == cs[k];
    }
  }

  /** The row is never lower than 50, than its header or than any of its padded cells, and it
      is exactly as high as the tallest of them. */
  lemma RowHeightIsLeastUpperBound(nameScrollHeight: Option<int>, cs: seq<int>)
    ensures RowHeightOf(nameScrollHeight, cs) >= MinRowHeight
    ensures RowHeightOf(nameScrollHeight, cs) >= HeaderHeight(nameScrollHeight)
    ensures forall k :: 0 <= k < |cs| ==> RowHeightOf(nameScrollHeight, cs) >= cs[k] + CellPadding
    ensures RowHeightOf(nameScrollHeight, cs) == MinRowHeight
         || RowHeightOf(nameScrollHeight, cs) == HeaderHeight(nameScrollHeight)
         || exists k :: 0 <= k < |cs| && RowHeightOf(nameScrollHeight, cs) == cs[k] + CellPadding
  {
    MaxCellHeightIsLeastUpperBound(cs);
  }

  /** The loop of `updateTrackRowHeight`, over the measured scroll heights of the row's cells. */
  method RowHeight(nameScrollHeight: Option<int>, cellScrollHeights: seq<int>) returns (height: int)
    ensures height == RowHeightOf(nameScrollHeight, cellScrollHeights)
  {
    var headerHeight := HeaderHeight(nameScrollHeight);
    var maxCellHeight := MinRowHeight;
    var i := 0;
    while i < |cellScrollHeights|
      invariant 0 <= i <= |cellScrollHeights|
      invariant maxCellHeight == MaxCellHeight(cellScrollHeights[..i])
    {
      var calculatedHeight := cellScrollHeights[i] + CellPadding;
      if calculatedHeight > maxCellHeight {
        maxCellHeight := calculatedHeight;
      }
      assert cellScrollHeights[..i + 1][..i] == cellScrollHeights[..i];
      i := i + 1;
    }
    assert cellScrollHeights[..i] == cellScrollHeights;
    height := Max(Max(headerHeight, maxCellHeight), MinRowHeight);
  }

  /** The example of a 4-bar song at 120 bpm in 4/4: eight seconds, nine ticks, major at 0 and 5. */
  method TimelineExample() {
    var markers := TimelineMarkers(4, 120, 4);
    assert |markers| == 9;
    assert markers[0].major && markers[5].major;
    assert !markers[4].major && !markers[8].major;
  }
}
