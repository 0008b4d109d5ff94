/**
 * The library object: the voxel size set once by InitLibrary and reset by
 * DestroyLibrary, and one handle list per object kind. A handle list of the
 * source maps each handle to itself, so it is modelled as the set of live
 * handles. Handles are heap addresses there; here they are identifiers drawn
 * from a counter, never 0 (the null handle) and never one already live.
 */
module Registry {

  /** The eight kinds of object the library hands out handles for. */
  datatype Kind = MeshKind | LatticeKind | PolyLineKind | VoxelsKind | VdbFileKind
                | ScalarFieldKind | VectorFieldKind | VdbMetaKind

  type Handle = nat

  /** nullptr */
  const NULL: Handle := 0

  /** Every list empty. */
  function NoHandles(): (r: map<Kind, set<Handle>>)
    ensures forall k: Kind :: k in r && r[k] == {}
  {
    var r := map[MeshKind := {}, LatticeKind := {}, PolyLineKind := {}, VoxelsKind := {}, VdbFileKind := {},
                 ScalarFieldKind := {}, VectorFieldKind := {}, VdbMetaKind := {}];
    EveryKindListed(r);
    r
  }

  lemma EveryKindListed(r: map<Kind, set<Handle>>)
    requires r == map[MeshKind := {}, LatticeKind := {}, PolyLineKind := {}, VoxelsKind := {}, VdbFileKind := {},
                      ScalarFieldKind := {}, VectorFieldKind := {}, VdbMetaKind := {}]
    ensures forall k: Kind :: k in r && r[k] == {}
  {
    forall k: Kind ensures k in r && r[k] == {} {
      match k
      case MeshKind =>
      case LatticeKind =>
      case PolyLineKind =>
      case VoxelsKind =>
      case VdbFileKind =>
      case ScalarFieldKind =>
      case VectorFieldKind =>
      case VdbMetaKind =>
    }
  }

  /** What a grid read from a .vdb file is: its value type and its grid class. */
  datatype GridInfo = GridInfo(isFloatGrid: bool, isVec3SGrid: bool, isLevelSet: bool)

  class Library {
    /** m_fVoxelSizeMM: 0 while the library is not initialised. */
    var voxelSize: real
    /** The handle lists, m_oMeshList .. m_oVdbMetaList. */
    var lists: map<Kind, set<Handle>>
    /** The next identifier the allocator hands out. */
    var next: Handle

    ghost predicate Valid()
      reads this
    {
      (forall k: Kind :: k in lists) && next > NULL &&
      forall k: Kind, h: Handle :: k in lists && h in lists[k] ==> NULL < h < next
    }

    /** The library singleton before InitLibrary: no voxel size, no handles. */
    constructor ()
      ensures Valid() && voxelSize == 0.0 && lists == NoHandles()
    {
      voxelSize := 0.0;
      lists := NoHandles();
      next := 1;
    }

    /** bFind: the handle is in the list of its kind. */
    predicate Find(kind: Kind, h: Handle)
      reads this
      requires Valid()
    {
      h in lists[kind]
    }

    /** bIsValid: false for the null handle, otherwise whether the handle is registered. */
    function IsValid(kind: Kind, h: Handle): (r: bool)
      reads this
      requires Valid()
      ensures r ==> Find(kind, h) && h != NULL
      ensures h != NULL && Find(kind, h) ==> r
      ensures h == NULL ==> !r
    {
      if h == NULL then false else Find(kind, h)
    }

    /**
     * fVoxelSizeMM: the size set by InitLibrary; with no library initialised
     * it asserts in a debug build and hands out 1.0.
     */
    function VoxelSizeMM(): (r: real)
      reads this
      ensures r != 0.0
      ensures voxelSize != 0.0 ==> r == voxelSize
      ensures voxelSize == 0.0 ==> r == 1.0
    {
      if voxelSize == 0.0 then 1.0 else voxelSize
    }

    /**
     * InitLibrary: sets the voxel size when none is set; a second call
     * throws, modelled as the result false with nothing changed. A size of 0
     * leaves the library uninitialised.
     */
    method InitLibrary(size: real) returns (ok: bool)
      requires Valid()
      modifies this
      ensures Valid() && lists == old(lists) && next == old(next)
      ensures ok <==> old(voxelSize) == 0.0
      ensures ok ==> voxelSize == size
      ensures !ok ==> voxelSize == old(voxelSize)
    {
      if voxelSize != 0.0 {
        return false;
      }
      voxelSize := size;
      ok := true;
    }

    /**
     * DestroyLibrary: with a voxel size set, resets it to 0 and clears all
     * eight handle lists; without one it throws, modelled as the result
     * false with nothing changed.
     */
    method DestroyLibrary() returns (ok: bool)
      requires Valid()
      modifies this
      ensures Valid() && next == old(next)
      ensures ok <==> old(voxelSize) != 0.0
      ensures ok ==> voxelSize == 0.0 && lists == NoHandles()
      ensures !ok ==> voxelSize == old(voxelSize) && lists == old(lists)
    {
      if voxelSize == 0.0 {
        return false;
      }
      voxelSize := 0.0;
      lists := NoHandles();
      ok := true;
    }

    /**
     * proCreate / proCreateCopy and every other constructor of a handle:
     * registers a new handle in the list of its kind and changes no other
     * list. The object behind the handle is not part of the registry.
     */
    method Create(kind: Kind) returns (h: Handle)
      requires Valid()
      modifies this
      ensures Valid() && voxelSize == old(voxelSize)
      ensures h != NULL && h !in old(lists[kind])
      ensures lists == old(lists)[kind := old(lists[kind]) + {h}]
      ensures IsValid(kind, h)
    {
      h := next;
      next := next + 1;
      lists := lists[kind := lists[kind] + {h}];
    }

    /**
     * Destroy: a registered handle is erased from its list; an unknown one
     * reaches the source's assert(false), and in a release build nothing
     * changes. `found` says which of the two happened.
     */
    method Destroy(kind: Kind, h: Handle) returns (found: bool)
      requires Valid()
      modifies this
      ensures Valid() && voxelSize == old(voxelSize) && next == old(next)
      ensures found <==> h in old(lists[kind])
      ensures lists == old(lists)[kind := old(lists[kind]) - {h}]
      ensures !IsValid(kind, h)
    {
      found := h in lists[kind];
      if found {
        lists := lists[kind := lists[kind] - {h}];
      } else {
        assert lists[kind] - {h} == lists[kind];
        assert lists[kind := lists[kind]] == lists;
      }
    }

    /** proVdbFileCreateFromFile: a file that fails to load registers nothing and gives the null handle. */
    method VdbFileCreateFromFile(loaded: bool) returns (h: Handle)
      requires Valid()
      modifies this
      ensures Valid() && voxelSize == old(voxelSize)
      ensures !loaded ==> h == NULL && lists == old(lists)
      ensures loaded ==>
        h != NULL && h !in old(lists[VdbFileKind]) && lists == old(lists)[VdbFileKind := old(lists[VdbFileKind]) + {h}]
    {
      if !loaded {
        return NULL;
      }
      h := Create(VdbFileKind);
    }

    /** proVdbFileGetVoxels: only a float grid of the level-set class becomes a Voxels handle. */
    method VdbFileGetVoxels(grid: GridInfo) returns (h: Handle)
      requires Valid()
      modifies this
      ensures Valid() && voxelSize == old(voxelSize)
      ensures !(grid.isFloatGrid && grid.isLevelSet) ==> h == NULL && lists == old(lists)
      ensures grid.isFloatGrid && grid.isLevelSet ==>
        h != NULL && h !in old(lists[VoxelsKind]) && lists == old(lists)[VoxelsKind := old(lists[VoxelsKind]) + {h}]
    {
      if !grid.isFloatGrid {
        return NULL;
      }
      if !grid.isLevelSet {
        return NULL;
      }
      h := Create(VoxelsKind);
    }

    /** proVdbFileGetScalarField: every float grid becomes a scalar field, whatever its class. */
    method VdbFileGetScalarField(grid: GridInfo) returns (h: Handle)
      requires Valid()
      modifies this
      ensures Valid() && voxelSize == old(voxelSize)
      ensures !grid.isFloatGrid ==> h == NULL && lists == old(lists)
      ensures grid.isFloatGrid ==>
        h != NULL && h !in old(lists[ScalarFieldKind]) && lists == old(lists)[ScalarFieldKind := old(lists[ScalarFieldKind]) + {h}]
    {
      if !grid.isFloatGrid {
        return NULL;
      }
      h := Create(ScalarFieldKind);
    }

    /** proVdbFileGetVectorField: only a Vec3s grid becomes a vector field. */
    method VdbFileGetVectorField(grid: GridInfo) returns (h: Handle)
      requires Valid()
      modifies this
      ensures Valid() && voxelSize == old(voxelSize)
      ensures !grid.isVec3SGrid ==> h == NULL && lists == old(lists)
      ensures grid.isVec3SGrid ==>
        h != NULL && h !in old(lists[VectorFieldKind]) && lists == old(lists)[VectorFieldKind := old(lists[VectorFieldKind]) + {h}]
    {
      if !grid.isVec3SGrid {
        return NULL;
      }
      h := Create(VectorFieldKind);
    }
  }

  /** A registration leaves every other handle's validity as it was, of every kind. */
  lemma CreateKeepsOthers(before: map<Kind, set<Handle>>, after: map<Kind, set<Handle>>, kind: Kind, h: Handle, k: Kind, g: Handle)
    requires forall j: Kind :: j in before
    requires after == before[kind := before[kind] + {h}]
    requires g != h || k != kind
    ensures k in after && (g in after[k] <==> g in before[k])
  {
  }

  /** An erasure leaves every other handle's validity as it was, of every kind. */
  lemma DestroyKeepsOthers(before: map<Kind, set<Handle>>, after: map<Kind, set<Handle>>, kind: Kind, h: Handle, k: Kind, g: Handle)
    requires forall j: Kind :: j in before
    requires after == before[kind := before[kind] - {h}]
    requires g != h || k != kind
    ensures k in after && (g in after[k] <==> g in before[k])
  {
  }

  /** Destroying a handle just created restores the lists. */
  lemma CreateThenDestroy(before: map<Kind, set<Handle>>, kind: Kind, h: Handle)
    requires forall j: Kind :: j in before
    requires h !in before[kind]
    ensures before[kind := before[kind] + {h}][kind := (before[kind] + {h}) - {h}] == before
  {
    assert (before[kind] + {h}) - {h} == before[kind];
  }
}
