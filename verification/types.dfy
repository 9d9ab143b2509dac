/** Constants, colours, frame entries and the plugin state shared by the
    panel selector and the cycle driver. The process-wide globals of the
    plugin become the fields of one `State` value. */
module PluginTypes {
  import opened Slices

  /** Number of panels needed to give each colour its own panel. */
  const MinimumPanelsCount: int := 3

  /** The colour slots, used as indices into the colour and panel-id triples. */
  const Red: int := 0
  const Yellow: int := 1
  const Green: int := 2

  const MaximumColorsCount: int := Green + 1

  /** The panel id stored in a slot that has no panel of its own. */
  const IgnoredPanelId: int := -1

  /** Initial "nearest distance so far" of the search for the middle slice. */
  const DistanceSentinel: int := 31

  /** Transition time in milliseconds kept when the host has no value for
      the `transTime` option. */
  const DefaultTransitionTime: int := 50

  /** A value the host may or may not supply. */
  datatype Option<T> = None | Some(value: T)

  predicate IsSlot(c: int)
  {
    0 <= c < MaximumColorsCount
  }

  function Min(a: int, b: int): int
  {
    if a <= b then a else b
  }

  datatype Rgb = Rgb(r: int, g: int, b: int)

  const Black: Rgb := Rgb(0, 0, 0)

  /** The traffic-light colours used when the palette supplies none. */
  const DefaultColors: seq<Rgb> := [Rgb(255, 0, 0), Rgb(255, 255, 0), Rgb(0, 255, 0)]

  /** One entry of the frame buffer handed back to the host. */
  datatype Frame = Frame(panelId: int, color: Rgb, transTime: int)

  /** What setup leaves behind for the ticks: the colour of each slot, the
      panel id bound to each slot, the active slot, the base transition time
      in milliseconds and the frame slices. */
  datatype State = State(
    colors: seq<Rgb>,
    colorPanelIds: seq<int>,
    currentColorIndex: int,
    transitionTime: int,
    slices: seq<seq<int>>)

  /** Some slot is bound to a real panel, so the advance loop terminates. */
  predicate HasLiveSlot(colorPanelIds: seq<int>)
    requires |colorPanelIds| == MaximumColorsCount
  {
    colorPanelIds[Red] != IgnoredPanelId
    || colorPanelIds[Yellow] != IgnoredPanelId
    || colorPanelIds[Green] != IgnoredPanelId
  }

  /** The state a tick may start from: three colours, three bindings, an
      active slot that is bound to a panel, and at least one panel to draw. */
  predicate Valid(s: State)
  {
    && |s.colors| == MaximumColorsCount
    && |s.colorPanelIds| == MaximumColorsCount
    && IsSlot(s.currentColorIndex)
    && s.colorPanelIds[s.currentColorIndex] != IgnoredPanelId
    && TotalPanels(s.slices) >= 1
  }

  /** What the layout utilities promise about the slices: at least one
      slice, no empty slice, and no panel whose id is the ignored marker. */
  predicate WellFormed(slices: seq<seq<int>>)
  {
    && |slices| >= 1
    && (forall i :: 0 <= i < |slices| ==> |slices[i]| >= 1)
    && (forall i :: 0 <= i < |slices| ==> IgnoredPanelId !in slices[i])
  }
}
