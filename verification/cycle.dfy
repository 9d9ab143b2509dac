/** Repeated ticks from the state setup leaves behind: the order in which
    the slots light up in the three-, two- and one-panel cases, and the
    worked example of five single-panel slices. */
module Cycle {
  import opened Slices
  import opened PluginTypes
  import opened Selector
  import opened Driver

  /** The state after n ticks. */
  function Iterate(s: State, n: nat): (r: State)
    requires Valid(s)
    ensures Valid(r)
    ensures r == s.(currentColorIndex := r.currentColorIndex)
    decreases n
  {
    if n == 0 then s else Iterate(Advance(s), n - 1)
  }

  /** With every slot bound to a panel, the active slot moves one on per tick. */
  lemma NextSlotNoneIgnored(colorPanelIds: seq<int>, c: int)
    requires |colorPanelIds| == MaximumColorsCount && IsSlot(c)
    requires forall k :: 0 <= k < MaximumColorsCount ==> colorPanelIds[k] != IgnoredPanelId
    ensures NextSlot(colorPanelIds, c) == (c + 1) % MaximumColorsCount
  {
  }

  /** With yellow ignored, red and green hand over to each other. */
  lemma NextSlotYellowIgnored(colorPanelIds: seq<int>, c: int)
    requires |colorPanelIds| == MaximumColorsCount && (c == Red || c == Green)
    requires colorPanelIds[Yellow] == IgnoredPanelId
    requires colorPanelIds[Red] != IgnoredPanelId && colorPanelIds[Green] != IgnoredPanelId
    ensures NextSlot(colorPanelIds, c) == Green - c
  {
    var r := NextSlot(colorPanelIds, c);
    assert Ahead(c, 1) == (if c == Red then Yellow else Red);
    assert Ahead(c, 2) == (if c == Red then Green else Yellow);
  }

  /** Three live slots: red, yellow, green, red, ... from wherever it starts. */
  lemma {:induction false} ThreeSlotCycle(s: State, n: nat)
    requires Valid(s)
    requires forall k :: 0 <= k < MaximumColorsCount ==> s.colorPanelIds[k] != IgnoredPanelId
    ensures Iterate(s, n).currentColorIndex == (s.currentColorIndex + n) % MaximumColorsCount
    decreases n
  {
    if n > 0 {
      var c := s.currentColorIndex;
      var next := Advance(s);
      NextSlotNoneIgnored(s.colorPanelIds, c);
      ThreeSlotCycle(next, n - 1);
    }
  }

  /** Yellow ignored: red and green alternate and yellow is never active. */
  lemma {:induction false} TwoSlotCycle(s: State, n: nat)
    requires Valid(s)
    requires s.colorPanelIds[Yellow] == IgnoredPanelId
    requires s.colorPanelIds[Red] != IgnoredPanelId && s.colorPanelIds[Green] != IgnoredPanelId
    ensures Iterate(s, n).currentColorIndex ==
      if n % 2 == 0 then s.currentColorIndex else Green - s.currentColorIndex
    decreases n
  {
    if n > 0 {
      NextSlotYellowIgnored(s.colorPanelIds, s.currentColorIndex);
      TwoSlotCycle(Advance(s), n - 1);
    }
  }

  /** From setup, the n-th tick lights red, yellow, green in turn when the
      chosen slice has one panel or at least three, and red, green in turn
      when it has two. */
  lemma SetupCycle(slices: seq<seq<int>>, key: int -> int, palette: seq<Rgb>, transTime: Option<int>, n: nat)
    requires WellFormed(slices)
    ensures var s := Setup(slices, key, palette, transTime);
      var size := |slices[MiddlestSliceIndex(slices)]|;
      && (size != 2 ==> Iterate(s, n).currentColorIndex == n % 3)
      && (size == 2 ==> Iterate(s, n).currentColorIndex == 2 * (n % 2))
  {
    var s := Setup(slices, key, palette, transTime);
    var chosen := slices[MiddlestSliceIndex(slices)];
    SetupSelection(slices, key, palette, transTime);
    if |chosen| == 2 {
      TwoSlotCycle(s, n);
    } else {
      assert s.colorPanelIds[Yellow] in chosen;
      ThreeSlotCycle(s, n);
    }
  }

  /** Five single-panel slices with ids 10 to 50 at heights 0 to 4. */
  const ExampleSlices: seq<seq<int>> := [[10], [20], [30], [40], [50]]

  function ExampleHeight(id: int): int
  {
    id / 10 - 1
  }

  /** With an empty palette and no `transTime` option, setup keeps the
      default colours and the 50 ms transition, finds no slice of three and
      falls back to the middle slice: panel 30 takes all three slots. */
  lemma ExampleSetup()
    ensures Setup(ExampleSlices, ExampleHeight, [], None) == State(DefaultColors, [30, 30, 30], Red, 50, ExampleSlices)
  {
  }

  /** The walk over the example visits the panels left to right. */
  lemma ExampleWalk()
    ensures Flatten(ExampleSlices) == [10, 20, 30, 40, 50]
    ensures LastPosition(Flatten(ExampleSlices), 30) == 2
  {
    var slices := ExampleSlices;
    assert slices[..1] == [[10]] && slices[..2] == [[10], [20]];
    assert slices[..3] == [[10], [20], [30]] && slices[..4] == [[10], [20], [30], [40]];
    assert slices[..3][..2] == slices[..2] && slices[..4][..3] == slices[..3];
    assert Flatten(slices[..1]) == [10];
    assert Flatten(slices[..2]) == [10, 20];
    assert Flatten(slices[..3]) == [10, 20, 30];
    assert Flatten(slices[..4]) == [10, 20, 30, 40];
    assert [10, 20, 30, 40, 50][..4] == [10, 20, 30, 40];
    assert [10, 20, 30, 40][..3] == [10, 20, 30];
  }

  /** The example state with slot c active. */
  function ExampleState(c: int): State
  {
    State(DefaultColors, [30, 30, 30], c, 50, ExampleSlices)
  }

  /** From that state panel 30 shows red for 50 ms, yellow for 20 ms, green
      for 50 ms, while every other panel stays black, and then the cycle
      starts over. */
  lemma ExampleTicks(c: int)
    requires IsSlot(c)
    ensures Valid(ExampleState(c))
    ensures var out := Tick(ExampleState(c));
      && out.nFrames == 5
      && out.frames == [Frame(10, Black, 1), Frame(20, Black, 1), Frame(30, DefaultColors[c], 1),
                        Frame(40, Black, 1), Frame(50, Black, 1)]
      && out.sleepTime == (if c == Yellow then 20 else 50)
      && out.next == ExampleState((c + 1) % 3)
  {
    var s := ExampleState(c);
    ExampleWalk();
    NextSlotNoneIgnored(s.colorPanelIds, c);
    var out := Tick(s);
    assert ActivePosition(s) == 2;
    assert out.frames[2] == Frame(30, DefaultColors[c], 1);
  }
}
