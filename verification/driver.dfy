/** The tick half of the plugin (`getPluginFrame`, src/AuroraPlugin.cpp): draw
    every panel black, light the panel of the active slot in its colour,
    report how long to sleep, and move on to the next slot that is bound to a
    panel. `Tick` is the pure step; `GetPluginFrame` is the loop-by-loop
    version of the source and is proved to compute the same. */
module Driver {
  import opened Slices
  import opened PluginTypes

  // ------------------------------------------------------- frame positions

  /** The last position of `target` in `ids`, or 0 when it does not occur:
      the value a buffer index ends with when the walk overwrites it at every
      match and it starts at 0. */
  function LastPosition(ids: seq<int>, target: int): (k: nat)
    ensures target in ids ==> k < |ids| && ids[k] == target
    ensures target in ids ==> forall j :: k < j < |ids| ==> ids[j] != target
    ensures target !in ids ==> k == 0
  {
    if |ids| == 0 then 0
    else if ids[|ids| - 1] == target then |ids| - 1
    else LastPosition(ids[..|ids| - 1], target)
  }

  /** Where the walk records the panel of `slot`. Red and green are matched
      against every id; yellow only when it is bound to a panel, and keeps
      position 0 otherwise. */
  function SlotPosition(ids: seq<int>, colorPanelIds: seq<int>, slot: int): (k: nat)
    requires |colorPanelIds| == MaximumColorsCount && IsSlot(slot)
    ensures |ids| > 0 ==> k < |ids|
    ensures slot == Yellow && colorPanelIds[Yellow] == IgnoredPanelId ==> k == 0
    ensures colorPanelIds[slot] != IgnoredPanelId ==> k == LastPosition(ids, colorPanelIds[slot])
  {
    if slot == Yellow && colorPanelIds[Yellow] == IgnoredPanelId then 0
    else LastPosition(ids, colorPanelIds[slot])
  }

  /** Entry k is panel `ids[k]`, black, with a one-tick transition. */
  function BlackFrames(ids: seq<int>): seq<Frame>
  {
    seq(|ids|, k requires 0 <= k < |ids| => Frame(ids[k], Black, 1))
  }

  lemma BlackFramesAppend(ids: seq<int>, x: int)
    ensures BlackFrames(ids + [x]) == BlackFrames(ids) + [Frame(x, Black, 1)]
  {
  }

  /** Visiting one more id moves a slot's recorded position there exactly
      when the walk would match it. */
  lemma SlotPositionAppend(ids: seq<int>, x: int, colorPanelIds: seq<int>, slot: int)
    requires |colorPanelIds| == MaximumColorsCount && IsSlot(slot)
    ensures SlotPosition(ids + [x], colorPanelIds, slot) ==
      if x == colorPanelIds[slot] && (slot != Yellow || colorPanelIds[Yellow] != IgnoredPanelId)
      then |ids| else SlotPosition(ids, colorPanelIds, slot)
  {
  }

  // ------------------------------------------------------------ sleep time

  /** Integer division rounding toward zero, as a C++ cast of a quotient does. */
  function TruncDiv(a: int, d: int): int
    requires d > 0
  {
    if a >= 0 then a / d else -((-a) / d)
  }

  /** The requested delay: the full transition time for red and green, and
      `transitionTime * 0.4` cut to an integer for yellow. */
  function SleepTime(slot: int, transitionTime: int): (t: int)
    requires IsSlot(slot)
    ensures slot != Yellow ==> t == transitionTime
    ensures slot == Yellow && transitionTime >= 0 ==>
      0 <= t && 5 * t <= 2 * transitionTime < 5 * t + 5
    ensures slot == Yellow && transitionTime < 0 ==>
      t <= 0 && 5 * -t <= -2 * transitionTime < 5 * -t + 5
  {
    if slot == Yellow then TruncDiv(2 * transitionTime, 5) else transitionTime
  }

  // ---------------------------------------------------------- next slot

  /** One increment of the slot index with wrap-around to red. */
  function Step(c: int): (n: int)
    requires IsSlot(c)
    ensures IsSlot(n) && n == (c + 1) % MaximumColorsCount
  {
    if c + 1 >= MaximumColorsCount then Red else c + 1
  }

  /** How many increments from c reach a slot bound to a panel. */
  ghost function Gap(colorPanelIds: seq<int>, c: int): nat
    requires |colorPanelIds| == MaximumColorsCount && IsSlot(c)
  {
    if colorPanelIds[c] != IgnoredPanelId then 0
    else if colorPanelIds[Step(c)] != IgnoredPanelId then 1
    else 2
  }

  /** The slot d increments after slot c. */
  function Ahead(c: int, d: int): int
  {
    (c + d) % MaximumColorsCount
  }

  /** The test-and-repeat part of the advance loop, from slot c on: the
      first slot bound to a panel among c, c + 1, c + 2 (cyclically). */
  function Spin(colorPanelIds: seq<int>, c: int): (r: int)
    requires |colorPanelIds| == MaximumColorsCount && IsSlot(c)
    requires HasLiveSlot(colorPanelIds)
    ensures IsSlot(r) && colorPanelIds[r] != IgnoredPanelId
    ensures forall d :: 0 <= d < (if r >= c then r - c else r - c + MaximumColorsCount) ==>
      colorPanelIds[Ahead(c, d)] == IgnoredPanelId
    decreases Gap(colorPanelIds, c)
  {
    if colorPanelIds[c] != IgnoredPanelId then c
    else
      var r := Spin(colorPanelIds, Step(c));
      assert forall d :: 1 <= d < MaximumColorsCount ==> Ahead(c, d) == Ahead(Step(c), d - 1);
      r
  }

  /** The slot after c: the first slot bound to a panel when counting on
      cyclically from c + 1, which is c itself when every other slot is
      ignored. */
  function NextSlot(colorPanelIds: seq<int>, c: int): (r: int)
    requires |colorPanelIds| == MaximumColorsCount && IsSlot(c)
    requires HasLiveSlot(colorPanelIds)
    ensures IsSlot(r) && colorPanelIds[r] != IgnoredPanelId
    ensures forall d :: 1 <= d < (if r > c then r - c else r - c + MaximumColorsCount) ==>
      colorPanelIds[Ahead(c, d)] == IgnoredPanelId
  {
    var r := Spin(colorPanelIds, Step(c));
    assert forall d :: 1 <= d < MaximumColorsCount ==> Ahead(c, d) == Ahead(Step(c), d - 1);
    r
  }

  /** The state change of one tick: only the active slot moves. */
  function Advance(s: State): (r: State)
    requires Valid(s)
    ensures Valid(r)
  {
    s.(currentColorIndex := NextSlot(s.colorPanelIds, s.currentColorIndex))
  }

  // ------------------------------------------------------------------ tick

  /** What one tick hands back: the frame buffer, the entry count, the
      requested delay, and the state for the next tick. */
  datatype TickOutput = TickOutput(frames: seq<Frame>, nFrames: int, sleepTime: int, next: State)

  /** The panel whose frame entry the tick paints. */
  function ActivePosition(s: State): nat
    requires Valid(s)
  {
    SlotPosition(Flatten(s.slices), s.colorPanelIds, s.currentColorIndex)
  }

  /** One tick: one entry per panel in walk order, all black with a one-tick
      transition except the recorded position of the active slot, which
      holds that slot's colour; the count equals the number of panels; the
      next state differs only in the active slot. */
  function Tick(s: State): (out: TickOutput)
    requires Valid(s)
    ensures out.nFrames == |out.frames| == TotalPanels(s.slices)
    ensures forall k :: 0 <= k < |out.frames| ==>
      out.frames[k].panelId == Flatten(s.slices)[k] && out.frames[k].transTime == 1
    ensures ActivePosition(s) == LastPosition(Flatten(s.slices), s.colorPanelIds[s.currentColorIndex])
    ensures ActivePosition(s) < |out.frames|
    ensures out.frames[ActivePosition(s)].color == s.colors[s.currentColorIndex]
    ensures forall k :: 0 <= k < |out.frames| && k != ActivePosition(s) ==> out.frames[k].color == Black
    ensures out.sleepTime == SleepTime(s.currentColorIndex, s.transitionTime)
    ensures out.next == s.(currentColorIndex := NextSlot(s.colorPanelIds, s.currentColorIndex))
    ensures Valid(out.next)
  {
    var ids := Flatten(s.slices);
    var p := ActivePosition(s);
    var frames := BlackFrames(ids)[p := Frame(ids[p], s.colors[s.currentColorIndex], 1)];
    TickOutput(
      frames,
      |ids|,
      SleepTime(s.currentColorIndex, s.transitionTime),
      Advance(s))
  }

  /** The id on the lit entry is the panel bound to the active slot whenever
      that panel appears in the slices. */
  lemma ActivePanelIsBound(s: State)
    requires Valid(s)
    requires s.colorPanelIds[s.currentColorIndex] in Flatten(s.slices)
    ensures Tick(s).frames[ActivePosition(s)].panelId == s.colorPanelIds[s.currentColorIndex]
    ensures Tick(s).frames[ActivePosition(s)].color == s.colors[s.currentColorIndex]
  {
  }

  // ------------------------------------------------ loop-by-loop version

  /** The walk over all slices: writes a black entry per panel and records
      the last position of the red, yellow and green panels, each starting
      at 0 and yellow only when it is bound to a panel. */
  method WalkFrames(slices: seq<seq<int>>, colorPanelIds: seq<int>)
    returns (frames: seq<Frame>, index: int, red: int, yellow: int, green: int)
    requires |colorPanelIds| == MaximumColorsCount
    ensures index == |frames| == TotalPanels(slices)
    ensures forall k :: 0 <= k < |frames| ==> frames[k] == Frame(Flatten(slices)[k], Black, 1)
    ensures red == SlotPosition(Flatten(slices), colorPanelIds, Red)
    ensures yellow == SlotPosition(Flatten(slices), colorPanelIds, Yellow)
    ensures green == SlotPosition(Flatten(slices), colorPanelIds, Green)
  {
    frames, index, red, yellow, green := [], 0, 0, 0, 0;
    ghost var walked: seq<int> := [];
    var sliceIndex := 0;
    while sliceIndex < |slices|
      invariant 0 <= sliceIndex <= |slices|
      invariant walked == Flatten(slices[..sliceIndex])
      invariant index == |walked|
      invariant frames == BlackFrames(walked)
      invariant red == SlotPosition(walked, colorPanelIds, Red)
      invariant yellow == SlotPosition(walked, colorPanelIds, Yellow)
      invariant green == SlotPosition(walked, colorPanelIds, Green)
    {
      var panelIds := slices[sliceIndex];
      var panelIdIndex := 0;
      while panelIdIndex < |panelIds|
        invariant 0 <= panelIdIndex <= |panelIds|
        invariant walked == Flatten(slices[..sliceIndex]) + panelIds[..panelIdIndex]
        invariant index == |walked|
        invariant frames == BlackFrames(walked)
        invariant red == SlotPosition(walked, colorPanelIds, Red)
        invariant yellow == SlotPosition(walked, colorPanelIds, Yellow)
        invariant green == SlotPosition(walked, colorPanelIds, Green)
      {
        var panelId := panelIds[panelIdIndex];
        BlackFramesAppend(walked, panelId);
        SlotPositionAppend(walked, panelId, colorPanelIds, Red);
        SlotPositionAppend(walked, panelId, colorPanelIds, Yellow);
        SlotPositionAppend(walked, panelId, colorPanelIds, Green);
        frames := frames + [Frame(panelId, Black, 1)];
        if panelId == colorPanelIds[Red] {
          red := index;
        }
        if panelId == colorPanelIds[Yellow] && colorPanelIds[Yellow] != IgnoredPanelId {
          yellow := index;
        }
        if panelId == colorPanelIds[Green] {
          green := index;
        }
        assert panelIds[..panelIdIndex + 1] == panelIds[..panelIdIndex] + [panelId];
        walked := walked + [panelId];
        index := index + 1;
        panelIdIndex := panelIdIndex + 1;
      }
      assert panelIds[..|panelIds|] == panelIds;
      assert slices[..sliceIndex + 1][..sliceIndex] == slices[..sliceIndex];
      sliceIndex := sliceIndex + 1;
    }
    assert slices[..|slices|] == slices;
  }

  /** `getPluginFrame` statement by statement: the walk, the switch on the
      active slot, and the do-while loop that advances it. */
  method GetPluginFrame(s: State) returns (frames: seq<Frame>, nFrames: int, sleepTime: int, next: State)
    requires Valid(s)
    ensures frames == Tick(s).frames
    ensures nFrames == Tick(s).nFrames
    ensures sleepTime == Tick(s).sleepTime
    ensures next == Tick(s).next
  {
    var index, red, yellow, green;
    frames, index, red, yellow, green := WalkFrames(s.slices, s.colorPanelIds);
    var current := s.currentColorIndex;
    var at := if current == Red then red else if current == Yellow then yellow else green;
    frames := frames[at := Frame(frames[at].panelId, s.colors[current], 1)];
    if current == Red {
      sleepTime := s.transitionTime;
    } else if current == Yellow {
      sleepTime := TruncDiv(2 * s.transitionTime, 5);
    } else {
      sleepTime := s.transitionTime;
    }
    var c := Step(current);
    while s.colorPanelIds[c] == IgnoredPanelId
      invariant IsSlot(c)
      invariant Spin(s.colorPanelIds, c) == NextSlot(s.colorPanelIds, current)
      decreases Gap(s.colorPanelIds, c)
    {
      c := Step(c);
    }
    next := s.(currentColorIndex := c);
    nFrames := index;
  }
}
