# ardor3d-screenshot: canvas pool, framebuffer exporter and cache state, in Dafny

This project models the bookkeeping core of ardor3d-screenshot, a library that renders 3D scenes off screen into in-memory images through a pool of reusable GPU canvases.

- **Pool** (`pool.dfy`) is `ScreenshotCanvasPool<T>` as a class.
  - It holds a map `unused` from each idle canvas to the cache state of type `T` that its last borrower left, and a set `inUse`.
  - `GetCanvas`, `GetCanvasIfMatch`, both `returnCanvas` overloads, `DisposeAll` and the fault handler (`Evict`) are methods.
  - Their contracts state the new contents of both collections and what happens to every canvas involved.
  - The invariant `Valid` says: the collections are disjoint, the pool never holds more than `maxCanvases` canvases, at most one canvas is in use, and no pooled canvas is disposed.
  - Each selection loop over `unused.keySet()` is a read-only search method with a `while` loop over the keys not yet visited; the disposing loop of `disposeAll` is a `while` loop inside `DisposeAll`.
- **Canvases** (`canvas.dfy`) is the canvas as the pool sees it through the `ScreenshotCanvas`, `UpdateableCanvas` and `ResizableCanvas` interfaces. It has a size, a resize capability, a queue of scene-graph updates and a disposed flag.
- **Exporter** (`exporter.dfy`) is `ScreenShotBufferExporter`.
  - `Export` fills a fresh pixel array with a nested loop and stores it as the last image.
  - Its result is tied to the specification `Exported`: output row `y` comes from source row `height - y - 1`, and each pixel is packed as `(A&0xFF)<<24 | (R&0xFF)<<16 | (G&0xFF)<<8 | (B&0xFF)` on the sign-extended bytes.
- **Dimensions** (`dimension.dfy`) is `IntDimension`: validation, `equals`, and `hashCode` in wrapping 32-bit arithmetic.
- **CanvasStates** and **MeshConditions** (`canvas_state.dfy`, `mesh_conditions.dfy`) are the cache state the tests store in the pool. They are a map from mesh file to loaded node, plus the two predicates that are handed to `getCanvasIfMatch`.
- **Scenarios** (`scenarios.dfy`) contains two pool clients. They replay two situations from the contracts alone:
  - eviction in a full pool of two;
  - cache matching with a mesh condition.
- **Wrappers** (`wrappers.dfy`) holds `Option`, `Result` and `Outcome`. They stand in for Java's `null` returns and thrown exceptions.

How the Java is represented:
- Java `int` is `Int32`, and an overflowing step goes through `Wrap32`.
- A ByteBuffer byte is `bv8`. Java widens it to `int` with sign extension (`SignExtend`) before masking.
- A packed pixel is the 32 bits of the Java `int` (`bv32`).
- The exceptions are `Failure`/`Fail` results: `IllegalArgumentException` from the `IntDimension` constructor, and the `RuntimeException`s of `returnCanvas` and `disposeAll`.
- `getCanvasIfMatch`'s `null` is `None`.

`getCanvasIfMatch` does not stop at idle canvases of the requested size. When none of those has a matching state, it also takes a resizable idle canvas whose state matches, and resizes it without clearing its scene (lines 194-205).

## Model

| member | source | states |
|---|---|---|
| Dimensions.Create | src/main/java/com/github/neothemachine/ardor3d/screenshot/IntDimension.java:8-22 | construction fails with IllegalArgument exactly when width < 1 or height < 1; otherwise the width and height getters return the arguments |
| Dimensions.Equals | src/main/java/com/github/neothemachine/ardor3d/screenshot/IntDimension.java:33-47 | `equals` holds exactly when both height and width agree, i.e. it is value equality |
| Dimensions.Wrap32 | src/main/java/com/github/neothemachine/ardor3d/screenshot/IntDimension.java:28-29 | the Java `int` result of an arithmetic step agrees with the exact result modulo 2^32, and equals it when the exact result fits in 32 bits |
| Dimensions.HashCode | src/main/java/com/github/neothemachine/ardor3d/screenshot/IntDimension.java:24-31 | the two wrapping steps of `hashCode` give the same `int` as 961 + 31*height + width reduced once to 32 bits |
| Dimensions.EqualsIsEquivalence | src/main/java/com/github/neothemachine/ardor3d/screenshot/IntDimension.java:33-47 | `equals` is reflexive, symmetric and transitive |
| Dimensions.HashConsistentWithEquals | src/main/java/com/github/neothemachine/ardor3d/screenshot/IntDimension.java:24-47 | equal dimensions have equal hash codes |
| CanvasStates.CanvasState.IsMeshLoaded | src/test/java/com/github/neothemachine/ardor3d/screenshot/CanvasState.java:23-25 | a loaded mesh file is counted by `getMeshCount` |
| CanvasStates.CanvasState.GetMeshCount | src/test/java/com/github/neothemachine/ardor3d/screenshot/CanvasState.java:27-29 | the count is 0 exactly when no mesh is loaded |
| CanvasStates.CanvasState.GetMesh | src/test/java/com/github/neothemachine/ardor3d/screenshot/CanvasState.java:31-33 | `getMesh` returns a node exactly for a loaded mesh file (null otherwise) |
| CanvasStates.CanvasState.GetMeshFiles | src/test/java/com/github/neothemachine/ardor3d/screenshot/CanvasState.java:35-37 | the mesh-file set contains exactly the files `isMeshLoaded` accepts, and its size is `getMeshCount` |
| CanvasStates.CanvasState.GetMeshes | src/test/java/com/github/neothemachine/ardor3d/screenshot/CanvasState.java:39-41 | the copied map has the mesh-file set as keys and agrees with `getMesh` on each |
| CanvasStates.EmptyState | src/test/java/com/github/neothemachine/ardor3d/screenshot/CanvasState.java:19-21 | the no-argument state has count 0 and no mesh loaded |
| MeshConditions.MeshesLoadedCondition.Apply | src/test/java/com/github/neothemachine/ardor3d/screenshot/MeshesLoadedCondition.java:22-25 | `apply` holds exactly when every wanted file is loaded in the state |
| MeshConditions.MeshesLoaded | src/test/java/com/github/neothemachine/ardor3d/screenshot/MeshesLoadedCondition.java:13-15 | the set constructor keeps exactly the given set of wanted files |
| MeshConditions.MeshLoaded | src/test/java/com/github/neothemachine/ardor3d/screenshot/MeshesLoadedCondition.java:17-25 | the single-file condition holds exactly when that file is loaded |
| MeshConditions.MeshesLoadedMonotone | src/test/java/com/github/neothemachine/ardor3d/screenshot/MeshesLoadedCondition.java:22-25 | if the condition holds for a state, it holds for any state with a superset of mesh files |
| MeshConditions.SingleMeshLoadedCondition.Apply | src/test/java/com/github/neothemachine/ardor3d/screenshot/SingleMeshLoadedCondition.java:16-18 | `apply` (count 1 and the model loaded) holds exactly when the loaded file set is {model} |
| MeshConditions.SingletonByCount | src/test/java/com/github/neothemachine/ardor3d/screenshot/SingleMeshLoadedCondition.java:17 | a one-element file set that contains the model is {model}, and conversely |
| MeshConditions.SingleMeshLoadedFailsOnEmpty | src/test/java/com/github/neothemachine/ardor3d/screenshot/SingleMeshLoadedCondition.java:16-18 | the single-mesh condition is false on a default-constructed state |
| MeshConditions.SingleImpliesMeshLoaded | src/test/java/com/github/neothemachine/ardor3d/screenshot/SingleMeshLoadedCondition.java:16-18 | the single-mesh condition implies the single-file MeshesLoadedCondition for the same model |
| Exporter.Unsigned | src/main/java/com/github/neothemachine/ardor3d/screenshot/ScreenShotBufferExporter.java:33-38 | masking the sign-extended byte with 0xFF gives back the byte's 8 bits, zero-extended |
| Exporter.NegativeByteChannel | src/main/java/com/github/neothemachine/ardor3d/screenshot/ScreenShotBufferExporter.java:33-38 | a byte read as negative v yields channel value v + 256 |
| Exporter.Pack | src/main/java/com/github/neothemachine/ardor3d/screenshot/ScreenShotBufferExporter.java:38 | bits 24-31, 16-23, 8-15 and 0-7 of the packed pixel are A, R, G and B |
| Exporter.SourceIndexInBounds | src/main/java/com/github/neothemachine/ardor3d/screenshot/ScreenShotBufferExporter.java:32-36 | for every pixel (x, y) the four bytes read lie within 4*width*height |
| Exporter.TopRowsAt | src/main/java/com/github/neothemachine/ardor3d/screenshot/ScreenShotBufferExporter.java:29-42 | the first n output rows hold n*width pixels, and pixel (x, y) is at index y*width + x |
| Exporter.ExportedAt | src/main/java/com/github/neothemachine/ardor3d/screenshot/ScreenShotBufferExporter.java:25-42 | the exported image has width*height pixels, and pixel (x, y) packs the four bytes at 4*((height-y-1)*width + x), so row 0 is source row height-1 |
| Exporter.ScreenShotBufferExporter.GetFormat | src/main/java/com/github/neothemachine/ardor3d/screenshot/ScreenShotBufferExporter.java:50-52 | the reported format has four components in the order R, G, B, A, at the offsets `export` reads |
| Exporter.ScreenShotBufferExporter.Export | src/main/java/com/github/neothemachine/ardor3d/screenshot/ScreenShotBufferExporter.java:23-48 | after the nested loop, the last image is width x height with exactly the pixels of `Exported` |
| Exporter.ScreenShotBufferExporter.GetLastImage | src/main/java/com/github/neothemachine/ardor3d/screenshot/ScreenShotBufferExporter.java:54-56 | returns the stored image: none before the first export, afterwards one with positive sides and width*height pixels |
| Canvases.Canvas.constructor | src/main/java/com/github/neothemachine/ardor3d/screenshot/ScreenshotCanvasPool.java:40-42 | the factory's canvas has the requested size, an empty update queue, and is not disposed |
| Canvases.Canvas.QueueSceneUpdate | src/main/java/com/github/neothemachine/ardor3d/screenshot/UpdateableCanvas.java:16 | the update is appended to the canvas's scene-update queue |
| Canvases.Canvas.SetSize | src/main/java/com/github/neothemachine/ardor3d/screenshot/ResizableCanvas.java:5-9 | only a resizable canvas can be resized, and afterwards it has the new size |
| Canvases.Canvas.Dispose | src/main/java/com/github/neothemachine/ardor3d/screenshot/ScreenshotCanvas.java:11 | afterwards the canvas is disposed, also when it already was |
| Pool.ClearSceneGraph | src/main/java/com/github/neothemachine/ardor3d/screenshot/ScreenshotCanvasPool.java:233-240 | exactly one detach-all-children update is appended to the canvas's scene queue |
| Pool.ScreenshotCanvasPool.constructor | src/main/java/com/github/neothemachine/ardor3d/screenshot/ScreenshotCanvasPool.java:60-64 | a new pool is empty and satisfies the invariant, for any positive maxCanvases |
| Pool.ScreenshotCanvasPool.FindSizeMatch | src/main/java/com/github/neothemachine/ardor3d/screenshot/ScreenshotCanvasPool.java:97-98 | returns an idle canvas whose size equals the request, and null exactly when there is none |
| Pool.ScreenshotCanvasPool.FindResizable | src/main/java/com/github/neothemachine/ardor3d/screenshot/ScreenshotCanvasPool.java:108-109 | returns an idle resizable canvas, and null exactly when there is none |
| Pool.ScreenshotCanvasPool.SizeMatches | src/main/java/com/github/neothemachine/ardor3d/screenshot/ScreenshotCanvasPool.java:177-182 | the list holds exactly the idle canvases whose size equals the request |
| Pool.ScreenshotCanvasPool.FindStateMatch | src/main/java/com/github/neothemachine/ardor3d/screenshot/ScreenshotCanvasPool.java:184-192 | returns an idle canvas of the requested size whose stored state satisfies the condition, and null exactly when there is none |
| Pool.ScreenshotCanvasPool.FindResizableStateMatch | src/main/java/com/github/neothemachine/ardor3d/screenshot/ScreenshotCanvasPool.java:194-205 | returns an idle resizable canvas whose stored state satisfies the condition, and null exactly when there is none |
| Pool.ScreenshotCanvasPool.Borrow | src/main/java/com/github/neothemachine/ardor3d/screenshot/ScreenshotCanvasPool.java:100-101 | the idle canvas moves to in use, and the invariant is kept |
| Pool.ScreenshotCanvasPool.GetCanvas | src/main/java/com/github/neothemachine/ardor3d/screenshot/ScreenshotCanvasPool.java:72-143 | with nothing in use, it returns the only in-use canvas, of the requested size, with the initial state. The path is: a size match, cleared; else a resizable idle canvas, cleared and resized; else a fresh canvas, after disposing exactly one idle canvas when the pool is full. Nothing else changes, and the invariant is kept |
| Pool.ScreenshotCanvasPool.EvictIfFull | src/main/java/com/github/neothemachine/ardor3d/screenshot/ScreenshotCanvasPool.java:118-124 | when idle + in use == maxCanvases, exactly one idle canvas is disposed and removed; otherwise nothing changes |
| Pool.ScreenshotCanvasPool.CreateInUse | src/main/java/com/github/neothemachine/ardor3d/screenshot/ScreenshotCanvasPool.java:126-128 | a fresh, undisposed canvas of the requested size becomes the only canvas in use, and the idle map is unchanged |
| Pool.ScreenshotCanvasPool.GetCanvasIfMatch | src/main/java/com/github/neothemachine/ardor3d/screenshot/ScreenshotCanvasPool.java:153-208 | it returns an idle canvas only when the condition holds for its stored state, together with that state. A canvas of the requested size is preferred over a resizable one. The returned canvas is moved to in use, and no clear-scene update is queued. With no qualifying canvas it returns None, and nothing changes |
| Pool.ScreenshotCanvasPool.ReturnCanvasWithState | src/main/java/com/github/neothemachine/ardor3d/screenshot/ScreenshotCanvasPool.java:221-231 | fails exactly when the canvas is not in use, and then nothing changes; otherwise the canvas leaves `inUse` and is idle with the new state |
| Pool.ScreenshotCanvasPool.ReturnCanvas | src/main/java/com/github/neothemachine/ardor3d/screenshot/ScreenshotCanvasPool.java:210-219 | as above, with the initial state |
| Pool.ScreenshotCanvasPool.DisposeAll | src/main/java/com/github/neothemachine/ardor3d/screenshot/ScreenshotCanvasPool.java:242-252 | fails exactly when a canvas is in use, and then nothing is disposed; otherwise every idle canvas is disposed and the idle map is empty |
| Pool.ScreenshotCanvasPool.Evict | src/main/java/com/github/neothemachine/ardor3d/screenshot/ScreenshotCanvasPool.java:130-140 | the uncaught-exception handler disposes the canvas and removes it from both collections; the invariant is kept |

## Left out

- The `wait()`/`notifyAll()` monitor of the pool is not modelled. The blocking loop at lines 80-87 and 162-169 becomes the precondition that no canvas is in use, and the wake-up is dropped.
- The fault handler runs on the render thread and changes `inUse`/`unused` outside the pool's lock. That race is not modelled: `Evict` is one sequential operation.
- `ContextGarbageCollector.doFinalCleanup` in `disposeAll` is a call into the engine and is left out.
- The render-canvas classes (JOGL/LWJGL canvases, headless wrapper) are left out: render threads, monitors, GPU contexts, Swing. A canvas is reduced to its size, resize capability, scene-update queue and disposed flag. `takeShot` and canvas updates are not part of this model.
- The factory is a constructor parameter: it builds canvases of one implementation class, resizable or not (`factoryResizable`). The anti-aliasing sample count passed to the canvases is not modelled.
- `Pool.ScreenshotCanvasPool.constructor` requires maxCanvases >= 1. The Java constructor accepts any `int`, but with 0 or less the pool can exceed its bound, because `getCanvas` still creates a canvas.
- `Dimensions.Equals` compares two IntDimension values only. Comparison against `null` or an object of another class, where Java returns false, is not modelled.
- `Exporter.ScreenShotBufferExporter.Export` requires `width` and `height` at least 1 and a buffer of at least 4*width*height bytes.
  - With less data, `ByteBuffer.get` throws.
  - With a side below 1, Java throws: `NegativeArraySizeException` at line 25 when width*height is negative, otherwise `BufferedImage`'s `IllegalArgumentException` at line 44.
  - The buffer size is below 2^31 (a ByteBuffer's capacity is an `int`), so none of the Java `int` index computations overflow.
- The BufferedImage and its raster are AWT library code. The image is modelled as its width, height and pixel sequence; `setDataElements` copies the array, so the image does not share storage with `rgb`.
- `Exporter.ScreenShotBufferExporter.GetLastImage`: Java's `getLastImage` returns the same mutable `BufferedImage` on every call, so a caller who draws on it changes what the next call returns. That sharing is not modelled: the stored image is a value that only `Export` replaces.
- The copies that `getMeshFiles`, `getMeshes` and the `MeshesLoadedCondition` set constructor make need no modelling: Dafny sets and maps are values, so a caller can never change the state through them.
- `CanvasStates.CanvasState.GetMesh`: files and nodes are never null in the model. Java's `getMesh` (CanvasState.java:31-33) returns null for a loaded file that a caller's map sends to null, while `isMeshLoaded` holds for it; the model's `Some` exactly for loaded files relies on that.
- The `CanvasState(Map)` constructor (CanvasState.java:15-17) stores the caller's map without copying it, so its creator can still change a state that sits in the pool's idle map, and a later condition sees the change. That aliasing is not modelled: a `CanvasState` is an immutable value.
- `Pool.ScreenshotCanvasPool.Valid` assumes that borrowers never dispose a borrowed canvas. Java's `returnCanvas` would re-pool such a canvas, and a later `getCanvas` would hand it out again; the model cannot return a disposed canvas to the pool.
- `MeshLoadedCondition` is left out. It implements pool interfaces that no longer exist in the source.
