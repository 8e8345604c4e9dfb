/** The watcher: the module-level state the polling tick, the key handlers
    and the resize handler share, and the change-detection cache that
    decides when the overlay is repositioned. */
module Watcher {
  import opened Wrappers
  import opened Stones
  import opened Locator
  import opened Render

  /** The four numbers of the host canvas's bounding rectangle that the
      cache compares. */
  datatype Rect = Rect(left: real, top: real, width: real, height: real)

  /** The length of `step_history` read through a cached reference, when it
      can be read and is an array. */
  function HistoryLength(host: Graph, m: nat): (n: Option<nat>)
    ensures n.Some? <==> IsStoneModel(host, m)
    ensures n.Some? ==> n.value == |host[m].probe.fields.stepHistory.value|
  {
    if m < |host| && host[m].probe.Readable? && host[m].probe.fields.stepHistory.Some?
    then Some(|host[m].probe.fields.stepHistory.value|)
    else None
  }

  class OverlayState {
    /** The cached game model, as a reference into the host graph. */
    var stoneModel: Option<nat>
    /** The history length seen at the last growth. */
    var lastStepCount: nat
    /** Whether renders are requested on growth. */
    var overlayVisible: bool
    /** The host canvas rectangle the overlay was last placed over. */
    var lastCanvasRect: Option<Rect>
    /** Whether the overlay canvas element exists. */
    var hasOverlay: bool

    /** The cache is only filled while a model is cached, and a cached
        rectangle means the overlay exists, so a render never lacks its
        canvas. */
    ghost predicate Valid()
      reads this
    {
      && (lastCanvasRect.Some? ==> hasOverlay && stoneModel.Some?)
      && (lastStepCount > 0 ==> stoneModel.Some?)
    }

    /** The state at page load. */
    constructor ()
      ensures Valid()
      ensures stoneModel == None && lastStepCount == 0 && overlayVisible
      ensures lastCanvasRect == None && !hasOverlay
    {
      stoneModel := None;
      lastStepCount := 0;
      overlayVisible := true;
      lastCanvasRect := None;
      hasOverlay := false;
    }

    /** Places the overlay over the host canvas when the rectangle differs
        from the cached one (creating the overlay on first use), then
        renders. Nothing happens without a host canvas or a cached model. */
    method CreateOrUpdateOverlay(model: GameModel, board: Option<Rect>)
      returns (plan: Option<RenderPlan>, repositioned: bool)
      requires Valid()
      modifies this
      ensures Valid()
      ensures stoneModel == old(stoneModel) && lastStepCount == old(lastStepCount)
      ensures overlayVisible == old(overlayVisible)
      ensures plan.Some? <==> board.Some? && stoneModel.Some?
      ensures plan.Some? ==> plan.value == PlanFor(Some(model))
      ensures repositioned <==> plan.Some? && old(lastCanvasRect) != board
      ensures lastCanvasRect == if plan.Some? then board else old(lastCanvasRect)
      ensures hasOverlay == (old(hasOverlay) || plan.Some?)
    {
      if board.None? || stoneModel.None? {
        return None, false;
      }
      repositioned := lastCanvasRect != board;
      if repositioned {
        hasOverlay := true;
        lastCanvasRect := board;
      }
      var drawn := DrawAllDots(Some(model));
      plan := Some(drawn);
    }

    /** One poll: discovery while no model is cached, then growth detection
        and, while the overlay is visible, a render. */
    method Tick(host: Graph, root: nat, board: Option<Rect>) returns (plan: Option<RenderPlan>)
      requires Valid() && WellFormed(host) && root < |host|
      modifies this
      ensures Valid()
      ensures overlayVisible == old(overlayVisible)
      ensures old(stoneModel).Some? ==> stoneModel == old(stoneModel)
      ensures old(stoneModel).None? ==> stoneModel == Dfs(host, root, {}).found
      ensures old(stoneModel).None? && stoneModel.Some? ==>
                IsStoneModel(host, stoneModel.value) && Reachable(host, root, stoneModel.value)
      ensures old(stoneModel).None? && stoneModel.None? ==>
                forall p :: IsPath(host, p) && p[0] == root ==> !IsStoneModel(host, p[|p| - 1])
      ensures var n := if stoneModel.Some? then HistoryLength(host, stoneModel.value) else None;
              var grew := n.Some? && n.value > old(lastStepCount);
              && lastStepCount == (if grew then n.value else old(lastStepCount))
              && (plan.Some? <==> grew && overlayVisible && board.Some?)
      ensures lastStepCount >= old(lastStepCount)
      ensures plan.Some? ==> plan.value == PlanFor(Some(host[stoneModel.value].probe.fields))
      ensures lastCanvasRect == if plan.Some? then board else old(lastCanvasRect)
      ensures hasOverlay == (old(hasOverlay) || plan.Some?)
    {
      if stoneModel.None? {
        var found := FindStoneModel(host, root);
        stoneModel := found;
        if stoneModel.None? {
          return None;
        }
      }
      var length := HistoryLength(host, stoneModel.value);
      if length.None? {
        // Reading the length throws: the callback ends here.
        return None;
      }
      plan := None;
      if length.value > lastStepCount {
        lastStepCount := length.value;
        if overlayVisible {
          var repositioned;
          plan, repositioned := CreateOrUpdateOverlay(host[stoneModel.value].probe.fields, board);
        }
      }
    }

    /** The 't' key: shows or hides the overlay; nothing else changes. */
    method Toggle()
      requires Valid()
      modifies this
      ensures Valid()
      ensures overlayVisible == !old(overlayVisible)
      ensures stoneModel == old(stoneModel) && lastStepCount == old(lastStepCount)
      ensures lastCanvasRect == old(lastCanvasRect) && hasOverlay == old(hasOverlay)
    {
      overlayVisible := !overlayVisible;
    }

    /** The 'r' key: forgets the model, the count and the cached rectangle
        and removes the overlay, so the next poll discovers afresh. */
    method Reset()
      requires Valid()
      modifies this
      ensures Valid()
      ensures stoneModel == None && lastStepCount == 0 && lastCanvasRect == None && !hasOverlay
      ensures overlayVisible == old(overlayVisible)
    {
      stoneModel := None;
      lastStepCount := 0;
      lastCanvasRect := None;
      hasOverlay := false;
    }

    /** A window resize: forgets only the cached rectangle, so the next
        render repositions the overlay. */
    method Resize()
      requires Valid()
      modifies this
      ensures Valid()
      ensures lastCanvasRect == None
      ensures stoneModel == old(stoneModel) && lastStepCount == old(lastStepCount)
      ensures overlayVisible == old(overlayVisible) && hasOverlay == old(hasOverlay)
    {
      lastCanvasRect := None;
    }
  }

  /** A page whose root refers to a game model with two steps: the first
      poll discovers it and renders, a second poll without growth does
      not, and after a reset the next poll discovers and renders again. */
  method ResetScenario() returns (first: Option<RenderPlan>, second: Option<RenderPlan>, third: Option<RenderPlan>)
    ensures first.Some? && second.None? && third.Some?
  {
    var step := Step(Some(0), Some(0), Some(100.0), Some(100.0));
    var game := GameModel(Some([step, step]), None, true);
    var host := [Node(Readable(GameModel(None, None, false)), [ObjectRef(0), ObjectRef(1)]),
                 Node(Readable(game), [])];
    assert IsPath(host, [0, 1]) by {
      assert ObjectRef(1) in host[0].children;
    }
    var board := Some(Rect(0.0, 0.0, 400.0, 400.0));
    var w := new OverlayState();
    first := w.Tick(host, 0, board);
    assert w.stoneModel == Some(1) && w.lastStepCount == 2;
    second := w.Tick(host, 0, board);
    w.Reset();
    assert w.stoneModel.None? && w.lastStepCount == 0 && w.overlayVisible;
    third := w.Tick(host, 0, board);
  }
}
