/**
 * The two predicates over CanvasState that the tests hand to the pool's
 * getCanvasIfMatch: MeshesLoadedCondition and SingleMeshLoadedCondition.
 */
module MeshConditions {
  import opened CanvasStates

  /** MeshesLoadedCondition: every wanted mesh file is loaded. */
  datatype MeshesLoadedCondition = MeshesLoadedCondition(models: set<File>) {
    /** `apply`: `containsAll` of the state's mesh files. */
    predicate Apply(state: CanvasState)
      ensures Apply(state) <==> forall m :: m in models ==> state.IsMeshLoaded(m)
    {
      models <= state.GetMeshFiles()
    }
  }

  /** The set constructor; the set is copied, and a Dafny set value cannot change afterwards. */
  function MeshesLoaded(models: set<File>): (c: MeshesLoadedCondition)
    ensures c.models == models
  {
    MeshesLoadedCondition(models)
  }

  /** The single-file constructor. */
  function MeshLoaded(model: File): (c: MeshesLoadedCondition)
    ensures forall state: CanvasState :: c.Apply(state) <==> state.IsMeshLoaded(model)
  {
    MeshesLoadedCondition({model})
  }

  /** Loading more meshes never falsifies the condition. */
  lemma MeshesLoadedMonotone(c: MeshesLoadedCondition, s: CanvasState, t: CanvasState)
    requires c.Apply(s)
    requires s.GetMeshFiles() <= t.GetMeshFiles()
    ensures c.Apply(t)
  {
  }

  /** SingleMeshLoadedCondition: exactly one mesh is loaded, and it is the wanted one. */
  datatype SingleMeshLoadedCondition = SingleMeshLoadedCondition(model: File) {
    /** `apply`: holds exactly when the loaded files are {model}. */
    predicate Apply(state: CanvasState)
      ensures Apply(state) <==> state.GetMeshFiles() == {model}
    {
      SingletonByCount(state.GetMeshFiles(), model);
      state.GetMeshCount() == 1 && state.IsMeshLoaded(model)
    }
  }

  /** A set of one element that contains x is {x}. */
  lemma SingletonByCount(files: set<File>, x: File)
    ensures |files| == 1 && x in files <==> files == {x}
  {
    if |files| == 1 && x in files {
      assert |files - {x}| == |files| - 1 == 0;
      assert files - {x} == {};
    }
  }

  /** Nothing is loaded on a default-constructed state. */
  lemma SingleMeshLoadedFailsOnEmpty(c: SingleMeshLoadedCondition)
    ensures !c.Apply(EmptyState())
  {
  }

  /** A single loaded mesh is in particular a loaded mesh. */
  lemma SingleImpliesMeshLoaded(c: SingleMeshLoadedCondition, state: CanvasState)
    requires c.Apply(state)
    ensures MeshLoaded(c.model).Apply(state)
  {
  }
}
