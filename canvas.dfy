/**
 * The canvas as the pool sees it, through the ScreenshotCanvas,
 * UpdateableCanvas and ResizableCanvas interfaces: a size, an optional resize
 * capability, a queue of pending scene-graph updates and a disposed flag.
 * Rendering, shots and the render thread are not part of this model.
 */
module Canvases {
  import opened Dimensions

  /** A unit of work queued against the scene graph; the pool only ever queues DetachAllChildren. */
  datatype SceneUpdate = DetachAllChildren | CallerUpdate(id: nat)

  class Canvas {
    var size: ValidDimension
    /** Whether the implementation class also implements ResizableCanvas. */
    const resizable: bool
    var sceneUpdates: seq<SceneUpdate>
    var disposed: bool

    /** What the pool's factory returns: a fresh canvas of the requested size. */
    constructor (size: ValidDimension, resizable: bool)
      ensures this.size == size && this.resizable == resizable
      ensures sceneUpdates == [] && !disposed
    {
      this.size := size;
      this.resizable := resizable;
      sceneUpdates := [];
      disposed := false;
    }

    /** `queueSceneUpdate`: appends to the queue the render thread drains. */
    method QueueSceneUpdate(update: SceneUpdate)
      modifies this`sceneUpdates
      ensures sceneUpdates == old(sceneUpdates) + [update]
    {
      sceneUpdates := sceneUpdates + [update];
    }

    /** `ResizableCanvas.setSize`. */
    method SetSize(newSize: ValidDimension)
      requires resizable
      modifies this`size
      ensures size == newSize
    {
      size := newSize;
    }

    /** `dispose`: safe to call again on a disposed canvas. */
    method Dispose()
      modifies this`disposed
      ensures disposed
    {
      disposed := true;
    }
  }
}
