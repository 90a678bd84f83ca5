/**
 * ScreenshotCanvasPool: the bookkeeping of idle canvases (each with the cache
 * state of type T that its last borrower left) and canvases in use.
 *
 * The Java methods are `synchronized` and wait while any canvas is in use;
 * here each operation runs atomically and the wait becomes the precondition
 * that nothing is in use. HashMap iteration order becomes a nondeterministic
 * pick from the keys not yet visited.
 */
module Pool {
  import opened Wrappers
  import opened Dimensions
  import opened Canvases

  datatype PoolError =
    | CanvasNotInUse     // "Canvas wasn't in use"
    | CanvasStillInUse   // "At least one canvas still in use"

  /** The Pair<ScreenshotCanvas, T> the getters return. */
  datatype Borrowed<T> = Borrowed(canvas: Canvas, state: T)

  /** `clearSceneGraph`: queues the update that detaches every child of the scene root. */
  method ClearSceneGraph(canvas: Canvas)
    modifies canvas`sceneUpdates
    ensures canvas.sceneUpdates == old(canvas.sceneUpdates) + [DetachAllChildren]
  {
    canvas.QueueSceneUpdate(DetachAllChildren);
  }

  class ScreenshotCanvasPool<T> {
    const maxCanvases: int
    const initialState: T
    /** Whether the canvases the injected factory builds are ResizableCanvas instances. */
    const factoryResizable: bool
    var unused: map<Canvas, T>
    var inUse: set<Canvas>

    /** The pool invariant: a canvas is idle or in use, never both; the pool never grows past its bound; at most one canvas is in use; no pooled canvas is disposed. */
    ghost predicate Valid()
      reads this, unused.Keys, inUse
    {
      && maxCanvases >= 1
      && unused.Keys !! inUse
      && |unused| + |inUse| <= maxCanvases
      && |inUse| <= 1
      && (forall c :: c in unused ==> !c.disposed)
      && (forall c :: c in inUse ==> !c.disposed)
    }

    ghost predicate HasSizeMatch(size: IntDimension)
      reads this, unused.Keys
    {
      exists c :: c in unused && c.size == size
    }

    ghost predicate HasResizable()
      reads this, unused.Keys
    {
      exists c :: c in unused && c.resizable
    }

    ghost predicate HasStateMatch(size: IntDimension, condition: T -> bool)
      reads this, unused.Keys
    {
      exists c :: c in unused && c.size == size && condition(unused[c])
    }

    ghost predicate HasResizableStateMatch(condition: T -> bool)
      reads this, unused.Keys
    {
      exists c :: c in unused && c.resizable && condition(unused[c])
    }

    constructor (maxCanvases: int, initialState: T, factoryResizable: bool)
      requires maxCanvases >= 1
      ensures Valid()
      ensures this.maxCanvases == maxCanvases && this.initialState == initialState
      ensures this.factoryResizable == factoryResizable
      ensures unused == map[] && inUse == {}
    {
      this.maxCanvases := maxCanvases;
      this.initialState := initialState;
      this.factoryResizable := factoryResizable;
      unused := map[];
      inUse := {};
    }

    /** The first loop of `getCanvas`: an idle canvas whose size equals the request. */
    method FindSizeMatch(size: IntDimension) returns (found: Canvas?)
      ensures found != null ==> found in unused && found.size == size
      ensures found == null <==> !HasSizeMatch(size)
    {
      var todo := unused.Keys;
      while todo != {}
        invariant todo <= unused.Keys
        invariant forall c :: c in unused && c !in todo ==> c.size != size
        decreases todo
      {
        var c :| c in todo;
        if Equals(c.size, size) {
          return c;
        }
        todo := todo - {c};
      }
      return null;
    }

    /** The second loop of `getCanvas`: an idle canvas that is a ResizableCanvas. */
    method FindResizable() returns (found: Canvas?)
      ensures found != null ==> found in unused && found.resizable
      ensures found == null <==> !HasResizable()
    {
      var todo := unused.Keys;
      while todo != {}
        invariant todo <= unused.Keys
        invariant forall c :: c in unused && c !in todo ==> !c.resizable
        decreases todo
      {
        var c :| c in todo;
        if c.resizable {
          return c;
        }
        todo := todo - {c};
      }
      return null;
    }

    /** The list `sizeMatchCanvases` of `getCanvasIfMatch`, in iteration order. */
    method SizeMatches(size: IntDimension) returns (matches: seq<Canvas>)
      ensures forall c :: c in matches <==> c in unused && c.size == size
    {
      matches := [];
      var todo := unused.Keys;
      while todo != {}
        invariant todo <= unused.Keys
        invariant forall c :: c in matches <==> c in unused && c !in todo && c.size == size
        decreases todo
      {
        var c :| c in todo;
        if Equals(c.size, size) {
          matches := matches + [c];
        }
        todo := todo - {c};
      }
    }

    /** Step 1 of `getCanvasIfMatch`: a canvas of the requested size whose stored state satisfies the condition. */
    method FindStateMatch(size: IntDimension, condition: T -> bool) returns (found: Canvas?)
      ensures found != null ==> found in unused && found.size == size && condition(unused[found])
      ensures found == null <==> !HasStateMatch(size, condition)
    {
      var matches := SizeMatches(size);
      for i := 0 to |matches|
        invariant forall j :: 0 <= j < i ==> !condition(unused[matches[j]])
      {
        var state := unused[matches[i]];
        if condition(state) {
          return matches[i];
        }
      }
      return null;
    }

    /** Step 2 of `getCanvasIfMatch`: a resizable canvas whose stored state satisfies the condition. */
    method FindResizableStateMatch(condition: T -> bool) returns (found: Canvas?)
      ensures found != null ==> found in unused && found.resizable && condition(unused[found])
      ensures found == null <==> !HasResizableStateMatch(condition)
    {
      var todo := unused.Keys;
      while todo != {}
        invariant todo <= unused.Keys
        invariant forall c :: c in unused && c !in todo ==> !(c.resizable && condition(unused[c]))
        decreases todo
      {
        var c :| c in todo;
        if c.resizable {
          var state := unused[c];
          if condition(state) {
            return c;
          }
        }
        todo := todo - {c};
      }
      return null;
    }

    /** Moves an idle canvas to in use. */
    method Borrow(canvas: Canvas)
      requires Valid() && |inUse| == 0 && canvas in unused
      modifies this`unused, this`inUse
      ensures Valid()
      ensures inUse == {canvas} && unused == old(unused) - {canvas}
    {
      inUse := inUse + {canvas};
      unused := unused - {canvas};
      assert unused.Keys == old(unused).Keys - {canvas};
    }

    /**
     * `getCanvas`: a canvas of the requested size with its scene cleared,
     * paired with the initial state. Tried in order: an idle canvas of that
     * size; an idle resizable canvas, resized; a new canvas from the factory,
     * after disposing one idle canvas when the pool is full.
     */
    method GetCanvas(size: ValidDimension) returns (canvas: Canvas, state: T)
      requires Valid() && |inUse| == 0
      modifies this, unused.Keys
      ensures Valid()
      ensures inUse == {canvas} && state == initialState
      ensures canvas.size == size
      ensures old(HasSizeMatch(size)) ==>
        && canvas in old(unused) && old(canvas.size) == size
        && canvas.sceneUpdates == old(canvas.sceneUpdates) + [DetachAllChildren]
        && unused == old(unused) - {canvas}
      ensures !old(HasSizeMatch(size)) && old(HasResizable()) ==>
        && canvas in old(unused) && canvas.resizable
        && canvas.sceneUpdates == old(canvas.sceneUpdates) + [DetachAllChildren]
        && unused == old(unused) - {canvas}
      ensures !old(HasSizeMatch(size)) && !old(HasResizable()) ==>
        && fresh(canvas) && canvas.resizable == factoryResizable && canvas.sceneUpdates == []
        && (old(|unused|) == maxCanvases ==> exists e :: e in old(unused) && e.disposed && unused == old(unused) - {e})
        && (old(|unused|) < maxCanvases ==> unused == old(unused))
      ensures forall c :: c in old(unused) && c != canvas ==> c.size == old(c.size) && c.sceneUpdates == old(c.sceneUpdates)
      ensures forall c :: c in unused ==> !c.disposed
      ensures forall c :: c in old(unused) && c !in unused && c != canvas ==> c.disposed
    {
      var unusedCount := |unused|;
      var usedCount := |inUse|;

      // Step 1: an idle canvas of the requested size
      var found := FindSizeMatch(size);
      if found != null {
        ClearSceneGraph(found);
        Borrow(found);
        return found, initialState;
      }

      if |unused| > 0 {
        // Step 2: an idle resizable canvas, resized
        found := FindResizable();
        if found != null {
          ClearSceneGraph(found);
          found.SetSize(size);
          Borrow(found);
          return found, initialState;
        }

        // Step 3: make room by disposing an idle canvas when the pool is full,
        EvictIfFull(usedCount + unusedCount);
      }

      // then build a fresh canvas of the requested size
      canvas := CreateInUse(size);
      state := initialState;
    }

    /** Step 3 of `getCanvas`, first half: when the pool is full, one idle canvas is disposed and removed. */
    method EvictIfFull(total: int)
      requires Valid() && |inUse| == 0 && |unused| > 0 && total == |unused|
      modifies this`unused, unused.Keys
      ensures Valid() && inUse == old(inUse)
      ensures |unused| < maxCanvases
      ensures old(|unused|) == maxCanvases ==> exists e :: e in old(unused) && e.disposed && unused == old(unused) - {e}
      ensures old(|unused|) < maxCanvases ==> unused == old(unused)
      ensures forall c :: c in old(unused) ==> c.size == old(c.size) && c.sceneUpdates == old(c.sceneUpdates)
      ensures forall c :: c in unused ==> !c.disposed
    {
      if total == maxCanvases {
        var victim :| victim in unused;
        victim.Dispose();
        unused := unused - {victim};
        assert unused.Keys == old(unused).Keys - {victim};
      }
    }

    /** Step 3 of `getCanvas`, second half: the factory builds a canvas of the requested size, which goes straight into use. */
    method CreateInUse(size: ValidDimension) returns (canvas: Canvas)
      requires Valid() && |inUse| == 0 && |unused| < maxCanvases
      modifies this`inUse
      ensures Valid() && unused == old(unused)
      ensures fresh(canvas) && inUse == {canvas}
      ensures canvas.size == size && canvas.resizable == factoryResizable
      ensures canvas.sceneUpdates == [] && !canvas.disposed
    {
      canvas := new Canvas(size, factoryResizable);
      inUse := inUse + {canvas};
    }

    /**
     * `getCanvasIfMatch`: an idle canvas whose stored state satisfies the
     * condition, preferring one of the requested size over a resizable one,
     * together with that state; the scene is not cleared. None when no idle
     * canvas qualifies, and then nothing changes.
     */
    method GetCanvasIfMatch(size: ValidDimension, condition: T -> bool) returns (r: Option<Borrowed<T>>)
      requires Valid() && |inUse| == 0
      modifies this, unused.Keys
      ensures Valid()
      ensures r.Some? ==>
        && r.value.canvas in old(unused)
        && r.value.state == old(unused)[r.value.canvas]
        && condition(r.value.state)
        && inUse == {r.value.canvas}
        && unused == old(unused) - {r.value.canvas}
        && r.value.canvas.size == size
      ensures old(HasStateMatch(size, condition)) ==> r.Some? && old(r.value.canvas.size) == size
      ensures !old(HasStateMatch(size, condition)) ==>
        && (r.Some? <==> old(HasResizableStateMatch(condition)))
        && (r.Some? ==> r.value.canvas.resizable)
      ensures r.None? ==> unused == old(unused) && inUse == old(inUse)
      ensures forall c :: c in old(unused) && (r.None? || c != r.value.canvas) ==> c.size == old(c.size)
      ensures forall c :: c in old(unused) ==> c.sceneUpdates == old(c.sceneUpdates) && c.disposed == old(c.disposed)
    {
      // Step 1: an idle canvas of the requested size whose state passes the condition
      var found := FindStateMatch(size, condition);
      if found != null {
        var state := unused[found];
        Borrow(found);
        return Some(Borrowed(found, state));
      }

      // Step 2: an idle resizable canvas whose state passes the condition, resized
      found := FindResizableStateMatch(condition);
      if found != null {
        var state := unused[found];
        found.SetSize(size);
        Borrow(found);
        return Some(Borrowed(found, state));
      }

      return None;
    }

    /** `returnCanvas(canvas, newState)`: fails unless the canvas is in use; otherwise it becomes idle with the new state. */
    method ReturnCanvasWithState(canvas: Canvas, newState: T) returns (outcome: Outcome<PoolError>)
      requires Valid()
      modifies this`unused, this`inUse
      ensures Valid()
      ensures outcome.Fail? <==> canvas !in old(inUse)
      ensures outcome.Fail? ==> outcome.error == CanvasNotInUse && unused == old(unused) && inUse == old(inUse)
      ensures outcome.Pass? ==> inUse == old(inUse) - {canvas} && unused == old(unused)[canvas := newState]
    {
      if canvas !in inUse {
        return Fail(CanvasNotInUse);
      }
      inUse := inUse - {canvas};
      unused := unused[canvas := newState];
      return Pass;
    }

    /** `returnCanvas(canvas)`: as above, with the initial state. */
    method ReturnCanvas(canvas: Canvas) returns (outcome: Outcome<PoolError>)
      requires Valid()
      modifies this`unused, this`inUse
      ensures Valid()
      ensures outcome.Fail? <==> canvas !in old(inUse)
      ensures outcome.Fail? ==> outcome.error == CanvasNotInUse && unused == old(unused) && inUse == old(inUse)
      ensures outcome.Pass? ==> inUse == old(inUse) - {canvas} && unused == old(unused)[canvas := initialState]
    {
      outcome := ReturnCanvasWithState(canvas, initialState);
    }

    /** `disposeAll`: fails while a canvas is in use; otherwise disposes every idle canvas and empties the pool. */
    method DisposeAll() returns (outcome: Outcome<PoolError>)
      requires Valid()
      modifies this`unused, unused.Keys
      ensures Valid()
      ensures outcome.Fail? <==> |old(inUse)| > 0
      ensures outcome.Fail? ==> outcome.error == CanvasStillInUse && unused == old(unused)
      ensures outcome.Pass? ==> unused == map[]
      ensures forall c :: c in old(unused) ==> c.disposed == outcome.Pass?
      ensures forall c :: c in old(unused) ==> c.size == old(c.size) && c.sceneUpdates == old(c.sceneUpdates)
    {
      if |inUse| > 0 {
        return Fail(CanvasStillInUse);
      }
      var todo := unused.Keys;
      while todo != {}
        invariant unused == old(unused) && inUse == old(inUse)
        invariant todo <= unused.Keys
        invariant forall c :: c in unused ==> c.disposed == (c !in todo)
        invariant forall c :: c in unused ==> c.size == old(c.size) && c.sceneUpdates == old(c.sceneUpdates)
        decreases todo
      {
        var c :| c in todo;
        c.Dispose();
        todo := todo - {c};
      }
      unused := map[];
      return Pass;
    }

    /**
     * The uncaught-exception handler `getCanvas` registers on every canvas
     * it creates: the canvas is disposed and dropped from both collections.
     */
    method Evict(canvas: Canvas)
      requires Valid()
      modifies this`unused, this`inUse, canvas`disposed
      ensures Valid()
      ensures canvas.disposed
      ensures inUse == old(inUse) - {canvas} && unused == old(unused) - {canvas}
    {
      canvas.Dispose();
      inUse := inUse - {canvas};
      unused := unused - {canvas};
      assert unused.Keys == old(unused).Keys - {canvas};
    }
  }
}
