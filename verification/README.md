# Traffic-light effect for modular LED panels — Dafny model

This project models the core of a lighting-effect plugin for a display made of
triangular LED panels. At setup the plugin picks up to three panels near the
horizontal middle of the display, sorts them top to bottom and binds them to
the red, yellow and green slots of a traffic light. On every tick it draws all
panels black, lights the panel of the active slot in that slot's colour, asks
the host to sleep for the transition time (40 % of it on yellow), and moves on
to the next slot that has a panel.

The model replaces the plugin's process-wide globals with an explicit `State`
value (colours, slot bindings, active slot, transition time, slices).

| file | module | what it holds |
|---|---|---|
| `slices.dfy` | `Slices` | the walk order over the frame slices and the panel count |
| `types.dfy` | `PluginTypes` | constants, colours, frame entries, the state and its validity |
| `sorting.dfy` | `Sorting` | top-to-bottom ordering of panel ids by an abstract height key |
| `selector.dfy` | `Selector` | `initPlugin`: colours, middle-slice search, slot binding |
| `driver.dfy` | `Driver` | `getPluginFrame`: pure `Tick` and a loop-by-loop `GetPluginFrame` |
| `cycle.dfy` | `Cycle` | repeated ticks: slot order in the 3-, 2- and 1-panel cases, worked example |

Modelling choices:

- Panel ids stay integers and the ignored slot keeps the marker `-1`. The walk
  compares red and green against every id without checking for the marker, and
  checks yellow only after excluding it. The model does the same.
- The centroid height is a total function `key: int -> int` from panel id to
  an integer. The host's floating-point centroids are not modelled.
- The source sorts with an unstable sort. Callers may rely only on a
  permutation whose key never increases. The model sorts by insertion, which
  is one order with that property, and the lemmas about setup use only that
  property.
- `transitionTime * 0.4` assigned to an `int` is modelled as `2 * t / 5`
  rounded toward zero. This rests on an argument about IEEE doubles, for
  `|t| < 2^31`. The double nearest 0.4 is slightly above 0.4. When 5 divides
  `t`, `2 * t / 5` is an integer that a double represents exactly. The exact
  product of `t` and that double lies on its far side from zero, and rounding
  is monotone, so the rounded product is not nearer zero than `2 * t / 5`. The
  error is far below 1, so truncation gives `2 * t / 5`. When 5 does not
  divide `t`, `2 * t / 5` is at least 0.2 from every integer, while the total
  error of the rounded product is below 10^-6. So truncation toward zero
  yields `2 * t / 5` rounded toward zero in both cases. The rounded product
  itself may fall on either side of `2 * t / 5`; for `t = 43` it is just
  below 17.2.
- The host calls of setup become parameters. These are the layout, the palette,
  the frame slices and the `transTime` option. A missing option keeps the
  built-in 50 ms.

Two details of the code that the model keeps:

- `ceil` at src/AuroraPlugin.cpp:106 is applied after integer division, so the
  middle index is `(N-1)/2` rounded down (`MiddleIndex`).
- Only the yellow match at src/AuroraPlugin.cpp:221 excludes the ignored
  marker; the red and green matches at lines 217 and 225 are unguarded
  (`SlotPosition`).

## Model

| member | source | states |
|---|---|---|
| `Slices.Flatten` | src/AuroraPlugin.cpp:201-231 | the walk over the slices visits exactly as many ids as the slices hold |
| `Slices.FlattenIndex` | src/AuroraPlugin.cpp:201-231 | id j of slice i is visited at position (ids in slices 0..i-1) + j, so entries follow slice-major, then within-slice, order |
| `Slices.FlattenMembers` | src/AuroraPlugin.cpp:201-207 | every visited id belongs to some slice |
| `Slices.NonEmptySlicesHavePanels` | src/AuroraPlugin.cpp:201-231 | at least one slice and no empty slice make the walk's entry count (`index`, returned at line 285) at least the number of slices, so a tick always has an entry to paint |
| `Sorting.Insert` | src/AuroraPlugin.cpp:136-153 | helper of the model's insertion sort standing in for `std::sort` with the height comparator: inserting an id into a top-to-bottom list keeps it a top-to-bottom permutation of the ids plus the new one |
| `Sorting.SortByKey` | src/AuroraPlugin.cpp:132-153 | the sorted panel ids are a permutation of the slice's ids whose height never increases |
| `Sorting.DistinctCount` | src/AuroraPlugin.cpp:132-134 | helper for the distinctness of the sorted copy of the chosen slice, not code at these lines: an id occurs at most once in a slice without repeated ids |
| `Sorting.PermutationKeepsDistinct` | src/AuroraPlugin.cpp:132-153 | sorting a slice without repeated ids produces no repeated ids |
| `Selector.OverrideColors` | src/AuroraPlugin.cpp:100-102 | the palette loop from index k replaces exactly the colours k .. min(3, palette size)-1 and keeps the others |
| `Selector.LoadColors` | src/AuroraPlugin.cpp:92-102 | colour c is palette entry c when c < min(3, palette size), else the default red (255,0,0), yellow (255,255,0), green (0,255,0) |
| `Selector.MiddleIndex` | src/AuroraPlugin.cpp:106 | the middle index m is a slice index with 2m <= N-1 <= 2m+1, which is (N-1)/2 rounded down |
| `Selector.Scan` | src/AuroraPlugin.cpp:108-125 | the search loop ends with -1 when no slice has 3+ panels at distance < 31 from the middle, else with the nearest such slice, the lowest index on a tie |
| `Selector.MiddlestSliceIndex` | src/AuroraPlugin.cpp:104-130 | the chosen slice is the nearest slice to the middle with 3+ panels at distance < 31 (earliest on ties), or the middle slice when there is none |
| `Selector.SentinelHarmlessUpTo61` | src/AuroraPlugin.cpp:108-125 | with at most 61 slices the distance limit 31 excludes nothing: any slice with 3+ panels makes the choice one with 3+ panels at least as near |
| `Selector.SentinelSkipsFarSlice` | src/AuroraPlugin.cpp:108-130 | with 62 slices a 3-panel slice at distance 31 is ignored and the single-panel middle slice is chosen |
| `Selector.BindSlots` | src/AuroraPlugin.cpp:155-175 | red gets the top id, green the third id (or the last of fewer), yellow the second id, the ignored marker with two ids, or the only id with one |
| `Selector.Setup` | src/AuroraPlugin.cpp:92-175 | setup yields a valid state: red active, colours from the palette, transition time from the option or 50 ms, and a real panel in the active slot |
| `Selector.SetupSelection` | src/AuroraPlugin.cpp:132-175 | the bound ids come from the chosen slice, top to bottom; red and green are never ignored; 3+ panels give three ids ordered top to bottom, red the topmost; when the slice repeats no id they are distinct and no other panel of the slice is above green; 2 panels give red/green the two ids and ignore yellow; 1 panel fills every slot |
| `Driver.LastPosition` | src/AuroraPlugin.cpp:196-227 | a recorded index ends as the last position whose id matches, or 0 when none does |
| `Driver.SlotPosition` | src/AuroraPlugin.cpp:217-227 | an ignored yellow slot keeps position 0; any slot bound to a panel records the last matching position, inside the buffer |
| `Driver.SlotPositionAppend` | src/AuroraPlugin.cpp:217-227 | visiting one more id moves a slot's index there exactly when the source's match condition holds for that slot |
| `Driver.SleepTime` | src/AuroraPlugin.cpp:233-274 | the delay is the transition time on red and green; on yellow it is 0.4 times it truncated toward zero (5r <= 2t < 5r+5 for t >= 0) |
| `Driver.Step` | src/AuroraPlugin.cpp:278-282 | one increment of the slot index wraps around: (c+1) mod 3 |
| `Driver.Spin` | src/AuroraPlugin.cpp:277-283 | the repeat-test of the do-while stops at the first slot bound to a panel counting cyclically from c, skipping only ignored slots |
| `Driver.NextSlot` | src/AuroraPlugin.cpp:277-283 | the advance terminates on a slot bound to a panel, the first one cyclically after c; every slot passed over is ignored |
| `Driver.Advance` | src/AuroraPlugin.cpp:277-283 | advancing keeps the state valid: the active slot stays in {0,1,2} and never rests on an ignored slot |
| `Driver.Tick` | src/AuroraPlugin.cpp:193-286 | one entry per panel in walk order, count = total panels, transTime 1 everywhere, all black except the last position of the active slot's panel (or 0), which holds the active colour; delay per slot; only the active slot changes |
| `Driver.ActivePanelIsBound` | src/AuroraPlugin.cpp:209-274 | when the active slot's panel is among the slices, the lit entry is that panel in the active colour |
| `Driver.WalkFrames` | src/AuroraPlugin.cpp:194-231 | the nested walk writes black one-tick entries in walk order, counts all panels, and records red, yellow and green as `SlotPosition` does |
| `Driver.GetPluginFrame` | src/AuroraPlugin.cpp:193-286 | the statement-by-statement frame routine, including its do-while advance loop, returns exactly what `Tick` does |
| `Cycle.Iterate` | src/AuroraPlugin.cpp:277-285 | repeated ticks keep the state valid and change nothing but the active slot |
| `Cycle.NextSlotNoneIgnored` | src/AuroraPlugin.cpp:277-283 | with no slot ignored the next slot is (c+1) mod 3 |
| `Cycle.NextSlotYellowIgnored` | src/AuroraPlugin.cpp:277-283 | with only yellow ignored, red is followed by green and green by red |
| `Cycle.ThreeSlotCycle` | src/AuroraPlugin.cpp:277-283 | with no slot ignored the active slot after n ticks is (start + n) mod 3 |
| `Cycle.TwoSlotCycle` | src/AuroraPlugin.cpp:277-283 | with yellow ignored the active slot alternates between red and green |
| `Cycle.SetupCycle` | src/AuroraPlugin.cpp:155-175 | from setup, tick n lights slot n mod 3 when the chosen slice has 1 or 3+ panels, and red/green alternately when it has 2 |
| `Cycle.ExampleWalk` | src/AuroraPlugin.cpp:201-231 | for five single-panel slices 10..50 the walk is 10, 20, 30, 40, 50 and panel 30 is at position 2 |
| `Cycle.ExampleSetup` | src/AuroraPlugin.cpp:92-175 | five single-panel slices and no palette or option: the middle slice's panel 30 takes every slot with default colours and 50 ms |
| `Cycle.ExampleTicks` | src/AuroraPlugin.cpp:193-286 | in that example each tick lights panel 30 red/yellow/green with delays 50/20/50 ms, leaves the others black, and returns to red |

## Left out

- Host calls of setup (`getLayoutData`, `getColorPalette`, `rotateAuroraPanels`, `getFrameSlicesFromLayoutForTriangle`, `getOptionValue`, src/AuroraPlugin.cpp:84-90): foreign I/O. Their results are parameters. A failed option lookup is assumed to leave the 50 ms default in place.
- `pluginCleanup` (src/AuroraPlugin.cpp:292-294): it only releases the slices.
- inc/PluginOptionsManager.h declares the option lookup and holds no logic. inc/PluginOptions.h is a constant description of the `transTime` option. Its range 1..600 and default of 15 ms are applied by the host, if at all, and arrive as a supplied option. The model places no bounds on the transition time and handles negative values as the C++ cast would.
- Floating-point centroids: replaced by an integer height key. The comparator reads an uninitialised height when an id is missing from the layout or both ids are equal. The model does not cover this; the key is total.
- Order of panels of equal height: the insertion sort fixes one, where the source's unstable sort may choose another. Only permutation and non-increasing height are proved and used.
- Buffer capacity and raw buffer indexing: the model produces a sequence whose length is the panel count. Writing past a caller buffer smaller than that is not modelled.
- Inputs outside `WellFormed` are not modelled. `WellFormed` asks for at least one slice, no empty slice, and no panel id equal to the ignored marker -1. "No empty slice" is an invariant of the slicing utility, not something the code needs everywhere. The code reads out of bounds only with no slice at all (line 133) or an empty chosen slice (line 172). An empty slice that is not chosen is read safely by the loops at lines 113-125 and 201-231. Excluding -1 from every slice asks more than the code needs: in a slice that is not chosen, a -1 matches nothing, since red and green hold real ids and yellow is guarded at line 221. A -1 in the chosen slice causes no out-of-bounds read but breaks the cycle. If the chosen slice is `[-1]`, lines 172-174 bind `[-1, -1, -1]` and the do-while at lines 277-283 never exits. `HasLiveSlot` and the `Gap` termination measure exist to exclude that case. If -1 is the lower of two panels, green is bound to the marker and only red is ever lit.
