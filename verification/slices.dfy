/** The frame slices handed over by the host's layout utilities: an ordered
    sequence of slices, each an ordered sequence of panel ids. The driver walks
    them slice by slice, and within a slice in order; this module names that
    walk order and the panel count it produces. */
module Slices {

  /** Number of panel ids across all slices. */
  function TotalPanels(slices: seq<seq<int>>): nat
  {
    if |slices| == 0 then 0
    else TotalPanels(slices[..|slices| - 1]) + |slices[|slices| - 1]|
  }

  /** The panel ids in slice-major, then within-slice, order. */
  function Flatten(slices: seq<seq<int>>): (ids: seq<int>)
    ensures |ids| == TotalPanels(slices)
  {
    if |slices| == 0 then []
    else Flatten(slices[..|slices| - 1]) + slices[|slices| - 1]
  }

  /** Id j of slice i sits at the position that follows every id of the
      slices before it. */
  lemma {:induction false} FlattenIndex(slices: seq<seq<int>>, i: nat, j: nat)
    requires i < |slices| && j < |slices[i]|
    ensures TotalPanels(slices[..i]) + j < |Flatten(slices)|
    ensures Flatten(slices)[TotalPanels(slices[..i]) + j] == slices[i][j]
  {
    var last := |slices| - 1;
    var init := slices[..last];
    if i == last {
      assert slices[..i] == init;
    } else {
      assert init[..i] == slices[..i];
      FlattenIndex(init, i, j);
    }
  }

  /** Every position of the walk holds an id of some slice. */
  lemma {:induction false} FlattenMembers(slices: seq<seq<int>>, k: nat)
    requires k < |Flatten(slices)|
    ensures exists i :: 0 <= i < |slices| && Flatten(slices)[k] in slices[i]
  {
    var last := |slices| - 1;
    var init := slices[..last];
    if k < |Flatten(init)| {
      FlattenMembers(init, k);
      var i :| 0 <= i < |init| && Flatten(init)[k] in init[i];
      assert Flatten(slices)[k] in slices[i];
    } else {
      assert Flatten(slices)[k] == slices[last][k - |Flatten(init)|];
    }
  }

  /** At least one slice, none of them empty, gives a non-empty walk. */
  lemma {:induction false} NonEmptySlicesHavePanels(slices: seq<seq<int>>)
    requires |slices| >= 1
    requires forall i :: 0 <= i < |slices| ==> |slices[i]| >= 1
    ensures TotalPanels(slices) >= |slices|
  {
    if |slices| > 1 {
      NonEmptySlicesHavePanels(slices[..|slices| - 1]);
    }
  }
}
