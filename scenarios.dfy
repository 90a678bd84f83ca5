/**
 * Two pool clients, proved from the pool's contracts alone: eviction in a
 * full pool of two, and cache matching with a mesh condition.
 */
module Scenarios {
  import opened Wrappers
  import opened Dimensions
  import opened Canvases
  import opened Pool
  import opened CanvasStates
  import opened MeshConditions

  /** With room for two canvases, two idle canvases of other sizes: asking for a third size disposes exactly one of them. */
  method EvictionScenario() {
    var pool := new ScreenshotCanvasPool<CanvasState>(2, EmptyState(), false);
    var small: ValidDimension := IntDimension(100, 100);
    var medium: ValidDimension := IntDimension(200, 200);
    var large: ValidDimension := IntDimension(300, 300);

    var c1, _ := pool.GetCanvas(small);
    var o := pool.ReturnCanvas(c1);
    assert pool.unused.Keys == {c1};

    var c2, _ := pool.GetCanvas(medium);
    assert fresh(c2) && c1.size == small && !c1.disposed;
    o := pool.ReturnCanvas(c2);
    assert pool.unused.Keys == {c1, c2} && c1 != c2;

    var c3, _ := pool.GetCanvas(large);
    assert fresh(c3);
    assert c1.disposed != c2.disposed;
    assert |pool.unused| + |pool.inUse| == 2;
  }

  /** An idle canvas tagged with meshA is handed back, scene untouched, for a meshA condition and not for a meshB one. */
  method MatchScenario() {
    var pool := new ScreenshotCanvasPool<CanvasState>(3, EmptyState(), false);
    var size: ValidDimension := IntDimension(500, 600);
    var tagged := CanvasState(map["meshA" := Node(1)]);

    var c, _ := pool.GetCanvas(size);
    var o := pool.ReturnCanvasWithState(c, tagged);
    var queued := c.sceneUpdates;

    var r := pool.GetCanvasIfMatch(size, (s: CanvasState) => s.IsMeshLoaded("meshB"));
    assert r.None?;

    r := pool.GetCanvasIfMatch(size, (s: CanvasState) => MeshLoaded("meshA").Apply(s));
    assert r == Some(Borrowed(c, tagged));
    assert c.sceneUpdates == queued;
  }
}
