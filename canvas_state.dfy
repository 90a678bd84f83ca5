/** CanvasState: the cache state the tests attach to an idle canvas, a map from mesh file to loaded node that CanvasState itself never changes. */
module CanvasStates {
  import opened Wrappers

  /** A java.io.File is compared by its path. */
  type File = string

  /** An opaque handle on a scene-graph node of the engine. */
  datatype Node = Node(handle: nat)

  datatype CanvasState = CanvasState(meshesLoaded: map<File, Node>) {

    /** `isMeshLoaded`: a loaded mesh is counted by `getMeshCount`. */
    predicate IsMeshLoaded(mesh: File)
      ensures IsMeshLoaded(mesh) ==> GetMeshCount() >= 1
    {
      mesh in meshesLoaded
    }

    /** `getMeshCount`: zero exactly when nothing is loaded. */
    function GetMeshCount(): (n: nat)
      ensures n == 0 <==> meshesLoaded == map[]
    {
      |meshesLoaded|
    }

    /** `getMesh`: Java's Map.get, which gives null for a file that is not loaded. */
    function GetMesh(mesh: File): (r: Option<Node>)
      ensures r.Some? <==> IsMeshLoaded(mesh)
    {
      if mesh in meshesLoaded then Some(meshesLoaded[mesh]) else None
    }

    /** `getMeshFiles`: a copy of the key set; a set value cannot alias the state. */
    function GetMeshFiles(): (files: set<File>)
      ensures forall f :: f in files <==> IsMeshLoaded(f)
      ensures |files| == GetMeshCount()
    {
      meshesLoaded.Keys
    }

    /** `getMeshes`: a copy of the whole map. */
    function GetMeshes(): (m: map<File, Node>)
      ensures m.Keys == GetMeshFiles()
      ensures forall f :: f in m ==> GetMesh(f) == Some(m[f])
    {
      meshesLoaded
    }
  }

  /** The no-argument constructor: nothing loaded. */
  function EmptyState(): (s: CanvasState)
    ensures s.GetMeshCount() == 0
    ensures forall f :: !s.IsMeshLoaded(f)
  {
    CanvasState(map[])
  }
}
