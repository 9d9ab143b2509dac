/** The setup half of the plugin (`initPlugin`, src/AuroraPlugin.cpp): load
    the colours, find the slice with at least three panels nearest the middle
    slice, sort its panels top to bottom, and bind them to the red, yellow and
    green slots. The host calls that fetch the layout, palette, slices and
    transition time are replaced by parameters. */
module Selector {
  import opened Slices
  import opened PluginTypes
  import opened Sorting

  // ---------------------------------------------------------------- colours

  /** The loop of the source over the palette, from index `k` on: palette
      entry c replaces colour c for every c below min(3, palette size). */
  function OverrideColors(colors: seq<Rgb>, palette: seq<Rgb>, k: nat): (r: seq<Rgb>)
    requires |colors| == MaximumColorsCount
    requires k <= Min(MinimumPanelsCount, |palette|)
    ensures |r| == |colors|
    ensures forall c :: k <= c < Min(MinimumPanelsCount, |palette|) ==> r[c] == palette[c]
    ensures forall c :: 0 <= c < |colors| && !(k <= c < Min(MinimumPanelsCount, |palette|)) ==> r[c] == colors[c]
    decreases Min(MinimumPanelsCount, |palette|) - k
  {
    if k >= Min(MinimumPanelsCount, |palette|) then colors
    else OverrideColors(colors[k := palette[k]], palette, k + 1)
  }

  /** The colours the plugin cycles: the first three palette entries where
      the palette has them, the traffic-light defaults elsewhere. */
  function LoadColors(palette: seq<Rgb>): (colors: seq<Rgb>)
    ensures |colors| == MaximumColorsCount
    ensures forall c :: 0 <= c < MaximumColorsCount ==>
      colors[c] == (if c < |palette| then palette[c] else DefaultColors[c])
  {
    OverrideColors(DefaultColors, palette, 0)
  }

  // ------------------------------------------------------- middle slice

  /** Index of the slice at the horizontal middle. The source writes
      `ceil((count - 1) / 2)` but divides integers before rounding, so the
      result is the truncated half. */
  function MiddleIndex(n: int): (m: int)
    requires n >= 1
    ensures 0 <= m < n
    ensures 2 * m <= n - 1 <= 2 * m + 1
  {
    (n - 1) / 2
  }

  function Distance(a: int, b: int): nat
  {
    if a >= b then a - b else b - a
  }

  /** Slice j can win the search: it has enough panels and its distance to
      the middle is below the sentinel. */
  predicate Candidate(slices: seq<seq<int>>, mid: int, j: int)
    requires 0 <= j < |slices|
  {
    |slices[j]| >= MinimumPanelsCount && Distance(mid, j) < DistanceSentinel
  }

  /** No slice below index i can win. */
  predicate NoCandidate(slices: seq<seq<int>>, mid: int, i: int)
    requires 0 <= i <= |slices|
  {
    forall j :: 0 <= j < i ==> !Candidate(slices, mid, j)
  }

  /** Slice b is the winner among the slices below index i: a candidate,
      and no candidate is nearer the middle or as near with a lower index. */
  predicate IsNearest(slices: seq<seq<int>>, mid: int, b: int, i: int)
    requires 0 <= i <= |slices|
  {
    && 0 <= b < i
    && Candidate(slices, mid, b)
    && forall j :: 0 <= j < i && Candidate(slices, mid, j) ==>
         Distance(mid, b) < Distance(mid, j) || (Distance(mid, b) == Distance(mid, j) && b <= j)
  }

  /** The search loop from slice i on, with `best` the slice chosen so far
      (-1 for none) and `bestDist` the distance to beat. A slice replaces
      the choice only when it is strictly nearer, so the first one wins ties. */
  function Scan(slices: seq<seq<int>>, mid: int, i: int, best: int, bestDist: int): (r: int)
    requires 0 <= i <= |slices|
    requires || (best == -1 && bestDist == DistanceSentinel && NoCandidate(slices, mid, i))
             || (IsNearest(slices, mid, best, i) && bestDist == Distance(mid, best))
    ensures || (r == -1 && NoCandidate(slices, mid, |slices|))
            || IsNearest(slices, mid, r, |slices|)
    decreases |slices| - i
  {
    if i == |slices| then best
    else if |slices[i]| >= MinimumPanelsCount && Distance(mid, i) < bestDist then
      Scan(slices, mid, i + 1, i, Distance(mid, i))
    else
      Scan(slices, mid, i + 1, best, bestDist)
  }

  /** The slice the plugin takes its panels from: the candidate nearest the
      middle (lowest index on a tie), or the middle slice when there is none. */
  function MiddlestSliceIndex(slices: seq<seq<int>>): (r: nat)
    requires |slices| >= 1
    ensures r < |slices|
    ensures NoCandidate(slices, MiddleIndex(|slices|), |slices|) ==> r == MiddleIndex(|slices|)
    ensures !NoCandidate(slices, MiddleIndex(|slices|), |slices|) ==>
      IsNearest(slices, MiddleIndex(|slices|), r, |slices|)
  {
    var mid := MiddleIndex(|slices|);
    var found := Scan(slices, mid, 0, -1, DistanceSentinel);
    if found == -1 then mid else found
  }

  /** With at most 61 slices every slice is within the sentinel distance of
      the middle, so the search picks the nearest slice with three or more
      panels whenever there is one. */
  lemma SentinelHarmlessUpTo61(slices: seq<seq<int>>, j: nat)
    requires 1 <= |slices| <= 61
    requires j < |slices| && |slices[j]| >= MinimumPanelsCount
    ensures |slices[MiddlestSliceIndex(slices)]| >= MinimumPanelsCount
    ensures Distance(MiddleIndex(|slices|), MiddlestSliceIndex(slices)) <= Distance(MiddleIndex(|slices|), j)
  {
    assert Candidate(slices, MiddleIndex(|slices|), j);
  }

  /** With 62 slices the last one is 31 slices from the middle: even when it
      is the only slice with three panels, the search ignores it and falls
      back to the middle slice. */
  lemma SentinelSkipsFarSlice()
    ensures var slices := seq(62, i => if i == 61 then [1, 2, 3] else [100 + i]);
      MiddlestSliceIndex(slices) == 30 && |slices[30]| == 1
  {
  }

  // -------------------------------------------------------- slot binding

  /** Binds the slots to the sorted panel ids: three panels get one colour
      each, two panels cycle red and green only, one panel shows all three. */
  function BindSlots(sorted: seq<int>): (ids: seq<int>)
    requires |sorted| >= 1
    ensures |ids| == MaximumColorsCount
    ensures ids[Red] == sorted[0]
    ensures ids[Green] == sorted[Min(|sorted|, MaximumColorsCount) - 1]
    ensures ids[Yellow] == (if |sorted| == 2 then IgnoredPanelId
                            else if |sorted| == 1 then sorted[0] else sorted[1])
  {
    if |sorted| >= 3 then [sorted[0], sorted[1], sorted[2]]
    else if |sorted| == 2 then [sorted[0], IgnoredPanelId, sorted[1]]
    else [sorted[0], sorted[0], sorted[0]]
  }

  // ---------------------------------------------------------------- setup

  /** The state `initPlugin` leaves behind, from the slices, the centroid
      key, the palette and the `transTime` option when the host has one. */
  function Setup(slices: seq<seq<int>>, key: int -> int, palette: seq<Rgb>, transTime: Option<int>): (s: State)
    requires WellFormed(slices)
    ensures Valid(s)
    ensures s.currentColorIndex == Red
    ensures s.transitionTime == (if transTime.Some? then transTime.value else DefaultTransitionTime)
    ensures s.slices == slices
    ensures s.colors == LoadColors(palette)
  {
    var transitionTime := if transTime.Some? then transTime.value else DefaultTransitionTime;
    var chosen := slices[MiddlestSliceIndex(slices)];
    var sorted := SortByKey(chosen, key);
    assert sorted[0] in multiset(chosen);
    NonEmptySlicesHavePanels(slices);
    State(LoadColors(palette), BindSlots(sorted), Red, transitionTime, slices)
  }

  /** The ids bound to the slots come from the chosen slice, sorted top to
      bottom; the red and green slots always hold a real panel; three or
      more panels bind three panels, distinct when the slice repeats no id;
      two panels leave yellow ignored; one panel takes every slot. */
  lemma SetupSelection(slices: seq<seq<int>>, key: int -> int, palette: seq<Rgb>, transTime: Option<int>)
    requires WellFormed(slices)
    ensures var s := Setup(slices, key, palette, transTime);
      var chosen := slices[MiddlestSliceIndex(slices)];
      var ids := s.colorPanelIds;
      && ids[Red] != IgnoredPanelId && ids[Green] != IgnoredPanelId
      && ids[Red] in chosen && ids[Green] in chosen
      && key(ids[Red]) >= key(ids[Green])
      && (|chosen| >= 3 ==>
            && ids[Yellow] in chosen
            && key(ids[Red]) >= key(ids[Yellow]) >= key(ids[Green])
            && (forall x :: x in chosen ==> key(ids[Red]) >= key(x))
            && (Distinct(chosen) ==>
                  && ids[Red] != ids[Yellow] && ids[Yellow] != ids[Green] && ids[Red] != ids[Green]
                  && forall x :: x in chosen && x !in ids ==> key(ids[Green]) >= key(x)))
      && (|chosen| == 2 ==>
            && ids[Yellow] == IgnoredPanelId
            && multiset{ids[Red], ids[Green]} == multiset(chosen))
      && (|chosen| == 1 ==> ids == [chosen[0], chosen[0], chosen[0]])
  {
    var s := Setup(slices, key, palette, transTime);
    var chosen := slices[MiddlestSliceIndex(slices)];
    var sorted := SortByKey(chosen, key);
    var ids := s.colorPanelIds;
    assert ids == BindSlots(sorted);
    var g := Min(|sorted|, MaximumColorsCount) - 1;
    assert sorted[0] in multiset(chosen) && sorted[g] in multiset(chosen);
    if |chosen| >= 3 {
      assert sorted[1] in multiset(chosen);
      forall x | x in chosen
        ensures key(ids[Red]) >= key(x)
      {
        assert x in multiset(sorted);
        var k :| 0 <= k < |sorted| && sorted[k] == x;
        if k > 0 {
          assert key(sorted[0]) >= key(sorted[k]);
        }
      }
      if Distinct(chosen) {
        PermutationKeepsDistinct(chosen, sorted);
        forall x | x in chosen && x !in ids
          ensures key(ids[Green]) >= key(x)
        {
          assert x in multiset(sorted);
          var k :| 0 <= k < |sorted| && sorted[k] == x;
          assert k >= 3 by {
            assert ids == [sorted[0], sorted[1], sorted[2]];
          }
          assert key(sorted[2]) >= key(sorted[k]);
        }
      }
    } else if |chosen| == 2 {
      assert sorted == [sorted[0], sorted[1]];
    } else {
      assert sorted == [sorted[0]];
      assert chosen == [chosen[0]];
    }
  }
}
