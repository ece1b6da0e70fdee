/**
  The handle bookkeeping of `VertexHandleManager`
  (src/View/VertexHandleManager.cpp): for every brush of the vertex tool
  there is a vertex handle at each of its vertices, an edge handle at the
  centre of each of its edges and a face handle at the centre of each of
  its faces. Handles are kept in six maps, selected and unselected for each
  handle class, with a selected and a total counter per class, and the
  manager moves handles between them as brushes are added and removed and
  as handles are selected and deselected. `pick` decides which handles are
  candidates for the ray test. The two maps and the two counters of one handle class are
  held here by one `HandleGroup` object, and the manager has one such
  object per class.

  The geometry is given: a brush comes with its vertex positions and its
  edge and face centres. The ray test of `pickHandle` is a parameter.
  The ghost fields of a group hold the registered (position, owner) pairs
  of each of its maps, which its counters count.
*/
module VertexHandleManager {
  import opened HandleMaps

  /** A brush edge, reduced to its identity and its centre. */
  datatype Edge = Edge(id: nat, center: Vec3)

  /** A brush face, reduced to its identity and its centre. */
  datatype Face = Face(id: nat, center: Vec3)

  /** A brush, reduced to its identity, its vertex positions, its edges and its faces. */
  datatype Brush = Brush(id: nat, vertices: seq<Vec3>, edges: seq<Edge>, faces: seq<Face>)

  /** The vertex handles of a brush: one per vertex, owned by the brush. */
  function VertexHandles(b: Brush): seq<(Vec3, Brush)>
  {
    seq(|b.vertices|, i requires 0 <= i < |b.vertices| => (b.vertices[i], b))
  }

  /** The edge handles of a brush: one at the centre of each edge, owned by the edge. */
  function EdgeHandles(b: Brush): seq<(Vec3, Edge)>
  {
    seq(|b.edges|, i requires 0 <= i < |b.edges| => (b.edges[i].center, b.edges[i]))
  }

  /** The face handles of a brush: one at the centre of each face, owned by the face. */
  function FaceHandles(b: Brush): seq<(Vec3, Face)>
  {
    seq(|b.faces|, i requires 0 <= i < |b.faces| => (b.faces[i].center, b.faces[i]))
  }

  /** The handles of one class of all the brushes, brush by brush. */
  function AllHandles<O>(bs: seq<Brush>, handles: Brush -> seq<(Vec3, O)>): seq<(Vec3, O)>
  {
    if bs == [] then [] else AllHandles(bs[..|bs| - 1], handles) + handles(bs[|bs| - 1])
  }

  /** The three handle classes, which are also the hit types of `pick`. */
  datatype HandleClass = VertexHandle | EdgeHandle | FaceHandle

  /** A hit of `pick`: the handle class and the handle position. */
  datatype Hit = Hit(kind: HandleClass, position: Vec3)

  /**
    The state `VertexHandleManager` keeps for one handle class: the
    selected and the unselected map and the selected and the total counter.
  */
  class HandleGroup<O(==,!new)> {
    var selected: HandleMap<O>
    var unselected: HandleMap<O>
    var selectedCount: nat
    var totalCount: nat
    ghost var selectedEntries: multiset<(Vec3, O)>
    ghost var unselectedEntries: multiset<(Vec3, O)>

    /** The maps, the registered pairs and the counters are in step. */
    ghost predicate Valid()
      reads this
    {
      Consistent(selected, unselected, selectedEntries, unselectedEntries, selectedCount, totalCount)
    }

    /** Every registered handle, selected or not. */
    ghost function Entries(): multiset<(Vec3, O)>
      reads this
    {
      selectedEntries + unselectedEntries
    }

    /** No handle, both counters zero. */
    constructor ()
      ensures Valid()
      ensures selected == unselected == map[] && selectedCount == totalCount == 0
      ensures Entries() == multiset{}
    {
      selected, unselected, selectedCount, totalCount := map[], map[], 0, 0;
      selectedEntries, unselectedEntries := multiset{}, multiset{};
    }

    /**
      `isVertexHandleSelected`, `isEdgeHandleSelected` and
      `isFaceHandleSelected`: a selected position has no unselected handle,
      and its owners are the selected ones.
    */
    function IsSelected(p: Vec3): (r: bool)
      reads this
      ensures Valid() && r ==> p !in unselected && Owners(p) == Get(selected, p)
      ensures Valid() && !r ==> Owners(p) == Get(unselected, p)
    {
      p in selected
    }

    /**
      `brushes`, `edges` and `faces`: the owners of the handles at `p`,
      each listed as often as it is registered there.
    */
    function Owners(p: Vec3): (r: seq<O>)
      reads this
      ensures Valid() ==> r == Get(selected, p) + Get(unselected, p)
      ensures Valid() ==> forall o :: multiset(r)[o] == Entries()[(p, o)]
    {
      LookupCounts(selected, unselected, selectedEntries, unselectedEntries, p);
      Lookup(selected, unselected, p)
    }

    /** The handles `hs` of a brush are registered (one class of `addBrush`). */
    method Add(hs: seq<(Vec3, O)>)
      requires Valid()
      modifies this
      ensures Valid()
      ensures HandlesAdded(old(selected), old(unselected), hs, selected, unselected)
      ensures selected.Keys == old(selected.Keys)
      ensures selectedEntries == old(selectedEntries) + multiset(AtPositions(hs, old(selected).Keys))
      ensures selectedCount == old(selectedCount) + |AtPositions(hs, old(selected).Keys)|
      ensures totalCount == old(totalCount) + |hs|
      ensures Entries() == old(Entries()) + multiset(hs)
    {
      selected, unselected, selectedCount, totalCount, selectedEntries, unselectedEntries :=
        AddHandles(hs, selected, unselected, selectedCount, totalCount, selectedEntries, unselectedEntries);
    }

    /** The registered handles `hs` of a brush are removed (one class of `removeBrush`). */
    method Remove(hs: seq<(Vec3, O)>)
      requires Valid()
      requires multiset(hs) <= Entries()
      modifies this
      ensures Valid()
      ensures selectedEntries == old(selectedEntries) - multiset(hs)
      ensures Entries() + multiset(hs) == old(Entries())
      ensures totalCount == old(totalCount) - |hs|
      ensures selected.Keys <= old(selected.Keys) && unselected.Keys <= old(unselected.Keys)
    {
      selected, unselected, selectedCount, totalCount, selectedEntries, unselectedEntries :=
        RemoveHandles(hs, selected, unselected, selectedCount, totalCount, selectedEntries, unselectedEntries);
    }

    /** The handles at `p` are selected; `count` is how many moved. */
    method Select(p: Vec3) returns (count: nat)
      requires Valid()
      modifies this
      ensures Valid()
      ensures count == old(|Get(unselected, p)|) && selectedCount == old(selectedCount) + count
      ensures MovedAt(old(unselected), old(selected), unselected, selected, p)
      ensures forall q :: q != p ==> UnchangedAt(old(unselected), old(selected), unselected, selected, q)
      ensures totalCount == old(totalCount) && Entries() == old(Entries())
    {
      selected, unselected, selectedCount, selectedEntries, unselectedEntries, count :=
        SelectHandle(p, selected, unselected, selectedCount, totalCount, selectedEntries, unselectedEntries);
    }

    /** The handles at `p` are deselected; `count` is how many moved. */
    method Deselect(p: Vec3) returns (count: nat)
      requires Valid()
      modifies this
      ensures Valid()
      ensures count == old(|Get(selected, p)|) && selectedCount + count == old(selectedCount)
      ensures MovedAt(old(selected), old(unselected), selected, unselected, p)
      ensures forall q :: q != p ==> UnchangedAt(old(selected), old(unselected), selected, unselected, q)
      ensures totalCount == old(totalCount) && Entries() == old(Entries())
    {
      selected, unselected, selectedCount, selectedEntries, unselectedEntries, count :=
        DeselectHandle(p, selected, unselected, selectedCount, totalCount, selectedEntries, unselectedEntries);
    }

    /** The handles at every position of the set `ps` are selected; `moved` is how many. */
    method SelectIn(ps: set<Vec3>) returns (moved: nat)
      requires Valid()
      modifies this
      ensures Valid()
      ensures forall q :: q in ps ==> MovedAt(old(unselected), old(selected), unselected, selected, q)
      ensures forall q :: q !in ps ==> UnchangedAt(old(unselected), old(selected), unselected, selected, q)
      ensures selectedCount == old(selectedCount) + moved && totalCount == old(totalCount)
    {
      selected, unselected, selectedCount, selectedEntries, unselectedEntries, moved :=
        SelectHandlesIn(ps, selected, unselected, selectedCount, totalCount, selectedEntries, unselectedEntries);
    }

    /** The handles at every position of the list `ps` are selected; `moved` is how many. */
    method SelectAt(ps: seq<Vec3>) returns (moved: nat)
      requires Valid()
      modifies this
      ensures Valid()
      ensures forall q :: q in ps ==> MovedAt(old(unselected), old(selected), unselected, selected, q)
      ensures forall q :: q !in ps ==> UnchangedAt(old(unselected), old(selected), unselected, selected, q)
      ensures selectedCount == old(selectedCount) + moved && totalCount == old(totalCount)
    {
      selected, unselected, selectedCount, selectedEntries, unselectedEntries, moved :=
        SelectHandlesAt(ps, selected, unselected, selectedCount, totalCount, selectedEntries, unselectedEntries);
    }

    /** Every selected handle is deselected, and none is lost. */
    method DeselectAll()
      requires Valid()
      modifies this
      ensures Valid()
      ensures selected == map[] && selectedCount == 0 && totalCount == old(totalCount)
      ensures forall q :: Get(unselected, q) == Get(old(unselected), q) + Get(old(selected), q)
      ensures unselected.Keys == old(unselected.Keys + selected.Keys)
      ensures unselectedEntries == old(unselectedEntries + selectedEntries)
    {
      selected, unselected, selectedCount, selectedEntries, unselectedEntries :=
        HandleMaps.DeselectAll(selected, unselected, selectedCount, totalCount, selectedEntries, unselectedEntries);
    }

    /** Both maps are emptied and both counters zeroed (one class of `clear`). */
    method Clear()
      modifies this
      ensures Valid()
      ensures selected == unselected == map[] && selectedCount == totalCount == 0
      ensures Entries() == multiset{}
    {
      selected, unselected, selectedCount, totalCount := map[], map[], 0, 0;
      selectedEntries, unselectedEntries := multiset{}, multiset{};
    }
  }

  class VertexHandleManager {
    const vertexHandles: HandleGroup<Brush>
    const edgeHandles: HandleGroup<Edge>
    const faceHandles: HandleGroup<Face>
    var renderStateValid: bool

    /** Every handle class keeps its maps, its registered pairs and its counters in step. */
    ghost predicate Valid()
      reads this, vertexHandles, edgeHandles, faceHandles
    {
      vertexHandles.Valid() && edgeHandles.Valid() && faceHandles.Valid()
    }

    /** The constructor: no handle and all counters zero. */
    constructor ()
      ensures Valid()
      ensures fresh(vertexHandles) && fresh(edgeHandles) && fresh(faceHandles)
      ensures vertexHandles.selected == vertexHandles.unselected == map[]
      ensures edgeHandles.selected == edgeHandles.unselected == map[]
      ensures faceHandles.selected == faceHandles.unselected == map[]
      ensures vertexHandles.totalCount == edgeHandles.totalCount == faceHandles.totalCount == 0
    {
      vertexHandles := new HandleGroup<Brush>();
      edgeHandles := new HandleGroup<Edge>();
      faceHandles := new HandleGroup<Face>();
    }

    // -------------------------------------------------------------------
    // Adding and removing brushes
    // -------------------------------------------------------------------

    /**
      `addBrush`: every handle of the brush is registered, at a selected
      position when there is one, and each total grows by the brush's
      number of vertices, edges or faces.
    */
    method AddBrush(b: Brush)
      requires Valid()
      modifies vertexHandles, edgeHandles, faceHandles, this`renderStateValid
      ensures Valid()
      ensures HandlesAdded(old(vertexHandles.selected), old(vertexHandles.unselected), VertexHandles(b),
                           vertexHandles.selected, vertexHandles.unselected)
      ensures HandlesAdded(old(edgeHandles.selected), old(edgeHandles.unselected), EdgeHandles(b),
                           edgeHandles.selected, edgeHandles.unselected)
      ensures HandlesAdded(old(faceHandles.selected), old(faceHandles.unselected), FaceHandles(b),
                           faceHandles.selected, faceHandles.unselected)
      ensures vertexHandles.selected.Keys == old(vertexHandles.selected.Keys)
      ensures edgeHandles.selected.Keys == old(edgeHandles.selected.Keys)
      ensures faceHandles.selected.Keys == old(faceHandles.selected.Keys)
      ensures vertexHandles.selectedEntries == old(vertexHandles.selectedEntries) + multiset(AtPositions(VertexHandles(b), old(vertexHandles.selected).Keys))
      ensures edgeHandles.selectedEntries == old(edgeHandles.selectedEntries) + multiset(AtPositions(EdgeHandles(b), old(edgeHandles.selected).Keys))
      ensures faceHandles.selectedEntries == old(faceHandles.selectedEntries) + multiset(AtPositions(FaceHandles(b), old(faceHandles.selected).Keys))
      ensures vertexHandles.selectedCount == old(vertexHandles.selectedCount) + |AtPositions(VertexHandles(b), old(vertexHandles.selected).Keys)|
      ensures edgeHandles.selectedCount == old(edgeHandles.selectedCount) + |AtPositions(EdgeHandles(b), old(edgeHandles.selected).Keys)|
      ensures faceHandles.selectedCount == old(faceHandles.selectedCount) + |AtPositions(FaceHandles(b), old(faceHandles.selected).Keys)|
      ensures vertexHandles.totalCount == old(vertexHandles.totalCount) + |b.vertices|
      ensures edgeHandles.totalCount == old(edgeHandles.totalCount) + |b.edges|
      ensures faceHandles.totalCount == old(faceHandles.totalCount) + |b.faces|
      ensures vertexHandles.Entries() == old(vertexHandles.Entries()) + multiset(VertexHandles(b))
      ensures edgeHandles.Entries() == old(edgeHandles.Entries()) + multiset(EdgeHandles(b))
      ensures faceHandles.Entries() == old(faceHandles.Entries()) + multiset(FaceHandles(b))
      ensures !renderStateValid
    {
      vertexHandles.Add(VertexHandles(b));
      edgeHandles.Add(EdgeHandles(b));
      faceHandles.Add(FaceHandles(b));
      renderStateValid := false;
    }

    /** `addBrushes`: the brushes are added one after the other. */
    method AddBrushes(bs: seq<Brush>)
      requires Valid()
      modifies vertexHandles, edgeHandles, faceHandles, this`renderStateValid
      ensures Valid()
      ensures vertexHandles.Entries() == old(vertexHandles.Entries()) + multiset(AllHandles(bs, VertexHandles))
      ensures edgeHandles.Entries() == old(edgeHandles.Entries()) + multiset(AllHandles(bs, EdgeHandles))
      ensures faceHandles.Entries() == old(faceHandles.Entries()) + multiset(AllHandles(bs, FaceHandles))
      ensures vertexHandles.totalCount == old(vertexHandles.totalCount) + |AllHandles(bs, VertexHandles)|
      ensures edgeHandles.totalCount == old(edgeHandles.totalCount) + |AllHandles(bs, EdgeHandles)|
      ensures faceHandles.totalCount == old(faceHandles.totalCount) + |AllHandles(bs, FaceHandles)|
      ensures vertexHandles.selected.Keys == old(vertexHandles.selected.Keys)
      ensures edgeHandles.selected.Keys == old(edgeHandles.selected.Keys)
      ensures faceHandles.selected.Keys == old(faceHandles.selected.Keys)
      ensures vertexHandles.selectedEntries == old(vertexHandles.selectedEntries) + multiset(AtPositions(AllHandles(bs, VertexHandles), old(vertexHandles.selected).Keys))
      ensures edgeHandles.selectedEntries == old(edgeHandles.selectedEntries) + multiset(AtPositions(AllHandles(bs, EdgeHandles), old(edgeHandles.selected).Keys))
      ensures faceHandles.selectedEntries == old(faceHandles.selectedEntries) + multiset(AtPositions(AllHandles(bs, FaceHandles), old(faceHandles.selected).Keys))
      ensures vertexHandles.selectedCount == old(vertexHandles.selectedCount) + |AtPositions(AllHandles(bs, VertexHandles), old(vertexHandles.selected).Keys)|
      ensures edgeHandles.selectedCount == old(edgeHandles.selectedCount) + |AtPositions(AllHandles(bs, EdgeHandles), old(edgeHandles.selected).Keys)|
      ensures faceHandles.selectedCount == old(faceHandles.selectedCount) + |AtPositions(AllHandles(bs, FaceHandles), old(faceHandles.selected).Keys)|
      ensures bs != [] ==> !renderStateValid
      ensures bs == [] ==> renderStateValid == old(renderStateValid)
    {
      for i := 0 to |bs|
        invariant Valid()
        invariant vertexHandles.Entries() == old(vertexHandles.Entries()) + multiset(AllHandles(bs[..i], VertexHandles))
        invariant edgeHandles.Entries() == old(edgeHandles.Entries()) + multiset(AllHandles(bs[..i], EdgeHandles))
        invariant faceHandles.Entries() == old(faceHandles.Entries()) + multiset(AllHandles(bs[..i], FaceHandles))
        invariant vertexHandles.totalCount == old(vertexHandles.totalCount) + |AllHandles(bs[..i], VertexHandles)|
        invariant edgeHandles.totalCount == old(edgeHandles.totalCount) + |AllHandles(bs[..i], EdgeHandles)|
        invariant faceHandles.totalCount == old(faceHandles.totalCount) + |AllHandles(bs[..i], FaceHandles)|
        invariant vertexHandles.selected.Keys == old(vertexHandles.selected.Keys)
        invariant edgeHandles.selected.Keys == old(edgeHandles.selected.Keys)
        invariant faceHandles.selected.Keys == old(faceHandles.selected.Keys)
        invariant vertexHandles.selectedEntries == old(vertexHandles.selectedEntries) + multiset(AtPositions(AllHandles(bs[..i], VertexHandles), old(vertexHandles.selected).Keys))
        invariant edgeHandles.selectedEntries == old(edgeHandles.selectedEntries) + multiset(AtPositions(AllHandles(bs[..i], EdgeHandles), old(edgeHandles.selected).Keys))
        invariant faceHandles.selectedEntries == old(faceHandles.selectedEntries) + multiset(AtPositions(AllHandles(bs[..i], FaceHandles), old(faceHandles.selected).Keys))
        invariant vertexHandles.selectedCount == old(vertexHandles.selectedCount) + |AtPositions(AllHandles(bs[..i], VertexHandles), old(vertexHandles.selected).Keys)|
        invariant edgeHandles.selectedCount == old(edgeHandles.selectedCount) + |AtPositions(AllHandles(bs[..i], EdgeHandles), old(edgeHandles.selected).Keys)|
        invariant faceHandles.selectedCount == old(faceHandles.selectedCount) + |AtPositions(AllHandles(bs[..i], FaceHandles), old(faceHandles.selected).Keys)|
        invariant i > 0 ==> !renderStateValid
        invariant i == 0 ==> renderStateValid == old(renderStateValid)
      {
        AddBrush(bs[i]);
        AllHandlesStep(bs, i, VertexHandles);
        AllHandlesStep(bs, i, EdgeHandles);
        AllHandlesStep(bs, i, FaceHandles);
        Regroup(old(vertexHandles.Entries()), multiset(AllHandles(bs[..i], VertexHandles)), multiset(VertexHandles(bs[i])));
        Regroup(old(edgeHandles.Entries()), multiset(AllHandles(bs[..i], EdgeHandles)), multiset(EdgeHandles(bs[i])));
        Regroup(old(faceHandles.Entries()), multiset(AllHandles(bs[..i], FaceHandles)), multiset(FaceHandles(bs[i])));
        SelectedGrow(old(vertexHandles.selected).Keys, old(vertexHandles.selectedEntries), AllHandles(bs[..i], VertexHandles), VertexHandles(bs[i]));
        SelectedGrow(old(edgeHandles.selected).Keys, old(edgeHandles.selectedEntries), AllHandles(bs[..i], EdgeHandles), EdgeHandles(bs[i]));
        SelectedGrow(old(faceHandles.selected).Keys, old(faceHandles.selectedEntries), AllHandles(bs[..i], FaceHandles), FaceHandles(bs[i]));
      }
      assert bs[..|bs|] == bs;
    }

    /**
      `removeBrush`: every handle of the brush is removed, from the selected
      map where it is selected; each selected counter drops by the number of
      selected handles removed and each total by the brush's number of
      vertices, edges or faces. The brush's handles must be registered.
    */
    method RemoveBrush(b: Brush)
      requires Valid()
      requires multiset(VertexHandles(b)) <= vertexHandles.Entries()
      requires multiset(EdgeHandles(b)) <= edgeHandles.Entries()
      requires multiset(FaceHandles(b)) <= faceHandles.Entries()
      modifies vertexHandles, edgeHandles, faceHandles, this`renderStateValid
      ensures Valid()
      ensures vertexHandles.selectedEntries == old(vertexHandles.selectedEntries) - multiset(VertexHandles(b))
      ensures edgeHandles.selectedEntries == old(edgeHandles.selectedEntries) - multiset(EdgeHandles(b))
      ensures faceHandles.selectedEntries == old(faceHandles.selectedEntries) - multiset(FaceHandles(b))
      ensures vertexHandles.Entries() + multiset(VertexHandles(b)) == old(vertexHandles.Entries())
      ensures edgeHandles.Entries() + multiset(EdgeHandles(b)) == old(edgeHandles.Entries())
      ensures faceHandles.Entries() + multiset(FaceHandles(b)) == old(faceHandles.Entries())
      ensures vertexHandles.totalCount == old(vertexHandles.totalCount) - |b.vertices|
      ensures edgeHandles.totalCount == old(edgeHandles.totalCount) - |b.edges|
      ensures faceHandles.totalCount == old(faceHandles.totalCount) - |b.faces|
      ensures !renderStateValid
    {
      vertexHandles.Remove(VertexHandles(b));
      edgeHandles.Remove(EdgeHandles(b));
      faceHandles.Remove(FaceHandles(b));
      renderStateValid := false;
    }

    /** `removeBrushes`: the brushes are removed one after the other. */
    method RemoveBrushes(bs: seq<Brush>)
      requires Valid()
      requires multiset(AllHandles(bs, VertexHandles)) <= vertexHandles.Entries()
      requires multiset(AllHandles(bs, EdgeHandles)) <= edgeHandles.Entries()
      requires multiset(AllHandles(bs, FaceHandles)) <= faceHandles.Entries()
      modifies vertexHandles, edgeHandles, faceHandles, this`renderStateValid
      ensures Valid()
      ensures vertexHandles.Entries() + multiset(AllHandles(bs, VertexHandles)) == old(vertexHandles.Entries())
      ensures edgeHandles.Entries() + multiset(AllHandles(bs, EdgeHandles)) == old(edgeHandles.Entries())
      ensures faceHandles.Entries() + multiset(AllHandles(bs, FaceHandles)) == old(faceHandles.Entries())
      ensures vertexHandles.selectedEntries == old(vertexHandles.selectedEntries) - multiset(AllHandles(bs, VertexHandles))
      ensures edgeHandles.selectedEntries == old(edgeHandles.selectedEntries) - multiset(AllHandles(bs, EdgeHandles))
      ensures faceHandles.selectedEntries == old(faceHandles.selectedEntries) - multiset(AllHandles(bs, FaceHandles))
      ensures vertexHandles.totalCount == old(vertexHandles.totalCount) - |AllHandles(bs, VertexHandles)|
      ensures edgeHandles.totalCount == old(edgeHandles.totalCount) - |AllHandles(bs, EdgeHandles)|
      ensures faceHandles.totalCount == old(faceHandles.totalCount) - |AllHandles(bs, FaceHandles)|
      ensures bs != [] ==> !renderStateValid
      ensures bs == [] ==> renderStateValid == old(renderStateValid)
    {
      for i := 0 to |bs|
        invariant Valid()
        invariant vertexHandles.Entries() + multiset(AllHandles(bs[..i], VertexHandles)) == old(vertexHandles.Entries())
        invariant edgeHandles.Entries() + multiset(AllHandles(bs[..i], EdgeHandles)) == old(edgeHandles.Entries())
        invariant faceHandles.Entries() + multiset(AllHandles(bs[..i], FaceHandles)) == old(faceHandles.Entries())
        invariant vertexHandles.selectedEntries == old(vertexHandles.selectedEntries) - multiset(AllHandles(bs[..i], VertexHandles))
        invariant edgeHandles.selectedEntries == old(edgeHandles.selectedEntries) - multiset(AllHandles(bs[..i], EdgeHandles))
        invariant faceHandles.selectedEntries == old(faceHandles.selectedEntries) - multiset(AllHandles(bs[..i], FaceHandles))
        invariant vertexHandles.totalCount == old(vertexHandles.totalCount) - |AllHandles(bs[..i], VertexHandles)|
        invariant edgeHandles.totalCount == old(edgeHandles.totalCount) - |AllHandles(bs[..i], EdgeHandles)|
        invariant faceHandles.totalCount == old(faceHandles.totalCount) - |AllHandles(bs[..i], FaceHandles)|
        invariant i > 0 ==> !renderStateValid
        invariant i == 0 ==> renderStateValid == old(renderStateValid)
      {
        AllHandlesStep(bs, i, VertexHandles);
        AllHandlesStep(bs, i, EdgeHandles);
        AllHandlesStep(bs, i, FaceHandles);
        AllHandlesPrefix(bs, i + 1, VertexHandles);
        AllHandlesPrefix(bs, i + 1, EdgeHandles);
        AllHandlesPrefix(bs, i + 1, FaceHandles);
        StillIncluded(old(vertexHandles.Entries()), vertexHandles.Entries(),
                      multiset(AllHandles(bs[..i], VertexHandles)), multiset(VertexHandles(bs[i])),
                      multiset(AllHandles(bs, VertexHandles)));
        StillIncluded(old(edgeHandles.Entries()), edgeHandles.Entries(),
                      multiset(AllHandles(bs[..i], EdgeHandles)), multiset(EdgeHandles(bs[i])),
                      multiset(AllHandles(bs, EdgeHandles)));
        StillIncluded(old(faceHandles.Entries()), faceHandles.Entries(),
                      multiset(AllHandles(bs[..i], FaceHandles)), multiset(FaceHandles(bs[i])),
                      multiset(AllHandles(bs, FaceHandles)));
        ghost var v, e, f := vertexHandles.Entries(), edgeHandles.Entries(), faceHandles.Entries();
        RemoveBrush(bs[i]);
        RemovedStep(vertexHandles.Entries(), multiset(VertexHandles(bs[i])), v,
                    multiset(AllHandles(bs[..i], VertexHandles)), old(vertexHandles.Entries()));
        RemovedStep(edgeHandles.Entries(), multiset(EdgeHandles(bs[i])), e,
                    multiset(AllHandles(bs[..i], EdgeHandles)), old(edgeHandles.Entries()));
        RemovedStep(faceHandles.Entries(), multiset(FaceHandles(bs[i])), f,
                    multiset(AllHandles(bs[..i], FaceHandles)), old(faceHandles.Entries()));
        SubtractTwice(old(vertexHandles.selectedEntries), multiset(AllHandles(bs[..i], VertexHandles)), multiset(VertexHandles(bs[i])));
        SubtractTwice(old(edgeHandles.selectedEntries), multiset(AllHandles(bs[..i], EdgeHandles)), multiset(EdgeHandles(bs[i])));
        SubtractTwice(old(faceHandles.selectedEntries), multiset(AllHandles(bs[..i], FaceHandles)), multiset(FaceHandles(bs[i])));
      }
      assert bs[..|bs|] == bs;
    }

    /** `clear`: all six maps are emptied and all six counters zeroed. */
    method Clear()
      modifies vertexHandles, edgeHandles, faceHandles, this`renderStateValid
      ensures Valid()
      ensures vertexHandles.selected == vertexHandles.unselected == map[]
      ensures edgeHandles.selected == edgeHandles.unselected == map[]
      ensures faceHandles.selected == faceHandles.unselected == map[]
      ensures vertexHandles.totalCount == vertexHandles.selectedCount == 0
      ensures edgeHandles.totalCount == edgeHandles.selectedCount == 0
      ensures faceHandles.totalCount == faceHandles.selectedCount == 0
      ensures !renderStateValid
    {
      vertexHandles.Clear();
      edgeHandles.Clear();
      faceHandles.Clear();
      renderStateValid := false;
    }

    // -------------------------------------------------------------------
    // Selecting and deselecting vertex handles
    // -------------------------------------------------------------------

    /** `selectVertexHandle`: the unselected vertex handles at `p` become selected; the selected count grows by their number, and the render state is invalidated only when there was one. */
    method SelectVertexHandle(p: Vec3)
      requires Valid()
      modifies vertexHandles, this`renderStateValid
      ensures Valid()
      ensures MovedAt(old(vertexHandles.unselected), old(vertexHandles.selected), vertexHandles.unselected, vertexHandles.selected, p)
      ensures forall q :: q != p ==>
        UnchangedAt(old(vertexHandles.unselected), old(vertexHandles.selected), vertexHandles.unselected, vertexHandles.selected, q)
      ensures vertexHandles.selectedCount == old(vertexHandles.selectedCount) + old(|Get(vertexHandles.unselected, p)|)
      ensures renderStateValid == (old(renderStateValid) && old(Get(vertexHandles.unselected, p)) == [])
    {
      var count := vertexHandles.Select(p);
      if count > 0 {
        renderStateValid := false;
      }
    }

    /** `deselectVertexHandle`: the selected vertex handles at `p` become unselected; the selected count drops by their number, and the render state is invalidated only when there was one. */
    method DeselectVertexHandle(p: Vec3)
      requires Valid()
      modifies vertexHandles, this`renderStateValid
      ensures Valid()
      ensures MovedAt(old(vertexHandles.selected), old(vertexHandles.unselected), vertexHandles.selected, vertexHandles.unselected, p)
      ensures forall q :: q != p ==>
        UnchangedAt(old(vertexHandles.selected), old(vertexHandles.unselected), vertexHandles.selected, vertexHandles.unselected, q)
      ensures vertexHandles.selectedCount == old(vertexHandles.selectedCount) - old(|Get(vertexHandles.selected, p)|)
      ensures renderStateValid == (old(renderStateValid) && old(Get(vertexHandles.selected, p)) == [])
    {
      var count := vertexHandles.Deselect(p);
      if count > 0 {
        renderStateValid := false;
      }
    }

    /** `selectVertexHandles`: the vertex handles at every position of `ps` are selected. */
    method SelectVertexHandles(ps: set<Vec3>)
      requires Valid()
      modifies vertexHandles, this`renderStateValid
      ensures Valid()
      ensures forall q :: q in ps ==>
        MovedAt(old(vertexHandles.unselected), old(vertexHandles.selected), vertexHandles.unselected, vertexHandles.selected, q)
      ensures forall q :: q !in ps ==>
        UnchangedAt(old(vertexHandles.unselected), old(vertexHandles.selected), vertexHandles.unselected, vertexHandles.selected, q)
      ensures vertexHandles.selectedCount != old(vertexHandles.selectedCount) ==> !renderStateValid
      ensures vertexHandles.selectedCount == old(vertexHandles.selectedCount) ==> renderStateValid == old(renderStateValid)
    {
      var moved := vertexHandles.SelectIn(ps);
      if moved > 0 {
        renderStateValid := false;
      }
    }

    /** `deselectAllVertexHandles`: no vertex handle stays selected, and none is lost. */
    method DeselectAllVertexHandles()
      requires Valid()
      modifies vertexHandles, this`renderStateValid
      ensures Valid()
      ensures vertexHandles.selected == map[] && vertexHandles.selectedCount == 0
      ensures forall q :: Get(vertexHandles.unselected, q) == Get(old(vertexHandles.unselected), q) + Get(old(vertexHandles.selected), q)
      ensures vertexHandles.unselected.Keys == old(vertexHandles.unselected.Keys + vertexHandles.selected.Keys)
      ensures vertexHandles.unselectedEntries == old(vertexHandles.unselectedEntries + vertexHandles.selectedEntries)
      ensures !renderStateValid
    {
      vertexHandles.DeselectAll();
      renderStateValid := false;
    }

    // -------------------------------------------------------------------
    // Selecting and deselecting edge handles
    // -------------------------------------------------------------------

    /** `selectEdgeHandle`: the unselected edge handles at `p` become selected; the selected count grows by their number, and the render state is invalidated only when there was one. */
    method SelectEdgeHandle(p: Vec3)
      requires Valid()
      modifies edgeHandles, this`renderStateValid
      ensures Valid()
      ensures MovedAt(old(edgeHandles.unselected), old(edgeHandles.selected), edgeHandles.unselected, edgeHandles.selected, p)
      ensures forall q :: q != p ==>
        UnchangedAt(old(edgeHandles.unselected), old(edgeHandles.selected), edgeHandles.unselected, edgeHandles.selected, q)
      ensures edgeHandles.selectedCount == old(edgeHandles.selectedCount) + old(|Get(edgeHandles.unselected, p)|)
      ensures renderStateValid == (old(renderStateValid) && old(Get(edgeHandles.unselected, p)) == [])
    {
      var count := edgeHandles.Select(p);
      if count > 0 {
        renderStateValid := false;
      }
    }

    /** `deselectEdgeHandle`: the selected edge handles at `p` become unselected; the selected count drops by their number, and the render state is invalidated only when there was one. */
    method DeselectEdgeHandle(p: Vec3)
      requires Valid()
      modifies edgeHandles, this`renderStateValid
      ensures Valid()
      ensures MovedAt(old(edgeHandles.selected), old(edgeHandles.unselected), edgeHandles.selected, edgeHandles.unselected, p)
      ensures forall q :: q != p ==>
        UnchangedAt(old(edgeHandles.selected), old(edgeHandles.unselected), edgeHandles.selected, edgeHandles.unselected, q)
      ensures edgeHandles.selectedCount == old(edgeHandles.selectedCount) - old(|Get(edgeHandles.selected, p)|)
      ensures renderStateValid == (old(renderStateValid) && old(Get(edgeHandles.selected, p)) == [])
    {
      var count := edgeHandles.Deselect(p);
      if count > 0 {
        renderStateValid := false;
      }
    }

    /** `selectEdgeHandles`: the edge handles at the centre of every listed edge are selected. */
    method SelectEdgeHandles(centers: seq<Vec3>)
      requires Valid()
      modifies edgeHandles, this`renderStateValid
      ensures Valid()
      ensures forall q :: q in centers ==>
        MovedAt(old(edgeHandles.unselected), old(edgeHandles.selected), edgeHandles.unselected, edgeHandles.selected, q)
      ensures forall q :: q !in centers ==>
        UnchangedAt(old(edgeHandles.unselected), old(edgeHandles.selected), edgeHandles.unselected, edgeHandles.selected, q)
      ensures edgeHandles.selectedCount != old(edgeHandles.selectedCount) ==> !renderStateValid
      ensures edgeHandles.selectedCount == old(edgeHandles.selectedCount) ==> renderStateValid == old(renderStateValid)
    {
      var moved := edgeHandles.SelectAt(centers);
      if moved > 0 {
        renderStateValid := false;
      }
    }

    /** `deselectAllEdgeHandles`: no edge handle stays selected, and none is lost. */
    method DeselectAllEdgeHandles()
      requires Valid()
      modifies edgeHandles, this`renderStateValid
      ensures Valid()
      ensures edgeHandles.selected == map[] && edgeHandles.selectedCount == 0
      ensures forall q :: Get(edgeHandles.unselected, q) == Get(old(edgeHandles.unselected), q) + Get(old(edgeHandles.selected), q)
      ensures edgeHandles.unselected.Keys == old(edgeHandles.unselected.Keys + edgeHandles.selected.Keys)
      ensures edgeHandles.unselectedEntries == old(edgeHandles.unselectedEntries + edgeHandles.selectedEntries)
      ensures !renderStateValid
    {
      edgeHandles.DeselectAll();
      renderStateValid := false;
    }

    // -------------------------------------------------------------------
    // Selecting and deselecting face handles
    // -------------------------------------------------------------------

    /** `selectFaceHandle`: the unselected face handles at `p` become selected; the selected count grows by their number, and the render state is invalidated only when there was one. */
    method SelectFaceHandle(p: Vec3)
      requires Valid()
      modifies faceHandles, this`renderStateValid
      ensures Valid()
      ensures MovedAt(old(faceHandles.unselected), old(faceHandles.selected), faceHandles.unselected, faceHandles.selected, p)
      ensures forall q :: q != p ==>
        UnchangedAt(old(faceHandles.unselected), old(faceHandles.selected), faceHandles.unselected, faceHandles.selected, q)
      ensures faceHandles.selectedCount == old(faceHandles.selectedCount) + old(|Get(faceHandles.unselected, p)|)
      ensures renderStateValid == (old(renderStateValid) && old(Get(faceHandles.unselected, p)) == [])
    {
      var count := faceHandles.Select(p);
      if count > 0 {
        renderStateValid := false;
      }
    }

    /** `deselectFaceHandle`: the selected face handles at `p` become unselected; the selected count drops by their number, and the render state is invalidated only when there was one. */
    method DeselectFaceHandle(p: Vec3)
      requires Valid()
      modifies faceHandles, this`renderStateValid
      ensures Valid()
      ensures MovedAt(old(faceHandles.selected), old(faceHandles.unselected), faceHandles.selected, faceHandles.unselected, p)
      ensures forall q :: q != p ==>
        UnchangedAt(old(faceHandles.selected), old(faceHandles.unselected), faceHandles.selected, faceHandles.unselected, q)
      ensures faceHandles.selectedCount == old(faceHandles.selectedCount) - old(|Get(faceHandles.selected, p)|)
      ensures renderStateValid == (old(renderStateValid) && old(Get(faceHandles.selected, p)) == [])
    {
      var count := faceHandles.Deselect(p);
      if count > 0 {
        renderStateValid := false;
      }
    }

    /** `selectFaceHandles`: the face handles at the centre of every listed face are selected. */
    method SelectFaceHandles(centers: seq<Vec3>)
      requires Valid()
      modifies faceHandles, this`renderStateValid
      ensures Valid()
      ensures forall q :: q in centers ==>
        MovedAt(old(faceHandles.unselected), old(faceHandles.selected), faceHandles.unselected, faceHandles.selected, q)
      ensures forall q :: q !in centers ==>
        UnchangedAt(old(faceHandles.unselected), old(faceHandles.selected), faceHandles.unselected, faceHandles.selected, q)
      ensures faceHandles.selectedCount != old(faceHandles.selectedCount) ==> !renderStateValid
      ensures faceHandles.selectedCount == old(faceHandles.selectedCount) ==> renderStateValid == old(renderStateValid)
    {
      var moved := faceHandles.SelectAt(centers);
      if moved > 0 {
        renderStateValid := false;
      }
    }

    /** `deselectAllFaceHandles`: no face handle stays selected, and none is lost. */
    method DeselectAllFaceHandles()
      requires Valid()
      modifies faceHandles, this`renderStateValid
      ensures Valid()
      ensures faceHandles.selected == map[] && faceHandles.selectedCount == 0
      ensures forall q :: Get(faceHandles.unselected, q) == Get(old(faceHandles.unselected), q) + Get(old(faceHandles.selected), q)
      ensures faceHandles.unselected.Keys == old(faceHandles.unselected.Keys + faceHandles.selected.Keys)
      ensures faceHandles.unselectedEntries == old(faceHandles.unselectedEntries + faceHandles.selectedEntries)
      ensures !renderStateValid
    {
      faceHandles.DeselectAll();
      renderStateValid := false;
    }

    /** `deselectAllHandles`: no handle of any class stays selected, and none is lost. */
    method DeselectAllHandles()
      requires Valid()
      modifies vertexHandles, edgeHandles, faceHandles, this`renderStateValid
      ensures Valid()
      ensures vertexHandles.selected == map[] && edgeHandles.selected == map[] && faceHandles.selected == map[]
      ensures vertexHandles.selectedCount == edgeHandles.selectedCount == faceHandles.selectedCount == 0
      ensures vertexHandles.totalCount == old(vertexHandles.totalCount)
      ensures edgeHandles.totalCount == old(edgeHandles.totalCount)
      ensures faceHandles.totalCount == old(faceHandles.totalCount)
      ensures vertexHandles.unselectedEntries == old(vertexHandles.Entries())
      ensures edgeHandles.unselectedEntries == old(edgeHandles.Entries())
      ensures faceHandles.unselectedEntries == old(faceHandles.Entries())
      ensures !renderStateValid
    {
      DeselectAllVertexHandles();
      DeselectAllEdgeHandles();
      DeselectAllFaceHandles();
    }

    // -------------------------------------------------------------------
    // Picking
    // -------------------------------------------------------------------

    /**
      `pick`: the hits among the handles that are candidates. Selected
      handles of every class are always candidates. Unselected vertex
      handles are candidates when no edge or face handle is selected, or in
      split mode; unselected edge handles when no vertex or face handle is
      selected and not in split mode; unselected face handles when no vertex
      or edge handle is selected and not in split mode. `isMatch` is the ray
      test of `pickHandle`.
    */
    method Pick(isMatch: (HandleClass, Vec3) -> bool, splitMode: bool) returns (hits: seq<Hit>)
      ensures forall h :: h in hits ==> isMatch(h.kind, h.position)
      ensures forall p :: Hit(VertexHandle, p) in hits <==>
        isMatch(VertexHandle, p) &&
        (p in vertexHandles.selected ||
         (p in vertexHandles.unselected && ((edgeHandles.selected == map[] && faceHandles.selected == map[]) || splitMode)))
      ensures forall p :: Hit(EdgeHandle, p) in hits <==>
        isMatch(EdgeHandle, p) &&
        (p in edgeHandles.selected ||
         (p in edgeHandles.unselected && vertexHandles.selected == map[] && faceHandles.selected == map[] && !splitMode))
      ensures forall p :: Hit(FaceHandle, p) in hits <==>
        isMatch(FaceHandle, p) &&
        (p in faceHandles.selected ||
         (p in faceHandles.unselected && vertexHandles.selected == map[] && edgeHandles.selected == map[] && !splitMode))
    {
      var unselectedVertexHits: seq<Hit> := [];
      if (edgeHandles.selected == map[] && faceHandles.selected == map[]) || splitMode {
        unselectedVertexHits := CollectHits(vertexHandles.unselected.Keys, VertexHandle, isMatch);
      }
      var selectedVertexHits := CollectHits(vertexHandles.selected.Keys, VertexHandle, isMatch);
      var unselectedEdgeHits: seq<Hit> := [];
      if vertexHandles.selected == map[] && faceHandles.selected == map[] && !splitMode {
        unselectedEdgeHits := CollectHits(edgeHandles.unselected.Keys, EdgeHandle, isMatch);
      }
      var selectedEdgeHits := CollectHits(edgeHandles.selected.Keys, EdgeHandle, isMatch);
      var unselectedFaceHits: seq<Hit> := [];
      if vertexHandles.selected == map[] && edgeHandles.selected == map[] && !splitMode {
        unselectedFaceHits := CollectHits(faceHandles.unselected.Keys, FaceHandle, isMatch);
      }
      var selectedFaceHits := CollectHits(faceHandles.selected.Keys, FaceHandle, isMatch);
      hits := unselectedVertexHits + selectedVertexHits + unselectedEdgeHits + selectedEdgeHits
              + unselectedFaceHits + selectedFaceHits;
    }
  }

  /** One loop of `pick`: the hits among the handles of class `kind` at `positions`. */
  method CollectHits(positions: set<Vec3>, kind: HandleClass, isMatch: (HandleClass, Vec3) -> bool)
    returns (hits: seq<Hit>)
    ensures forall h :: h in hits <==> h.kind == kind && h.position in positions && isMatch(kind, h.position)
  {
    hits := [];
    var rest := positions;
    while rest != {}
      invariant rest <= positions
      invariant forall h :: h in hits <==> h.kind == kind && h.position in positions - rest && isMatch(kind, h.position)
      decreases rest
    {
      var p :| p in rest;
      if isMatch(kind, p) {
        hits := hits + [Hit(kind, p)];
      }
      rest := rest - {p};
    }
  }

  // ---------------------------------------------------------------------
  // Lemmas about the handles of several brushes
  // ---------------------------------------------------------------------

  /** The handles of one brush more. */
  lemma AllHandlesStep<O>(bs: seq<Brush>, i: nat, handles: Brush -> seq<(Vec3, O)>)
    requires i < |bs|
    ensures AllHandles(bs[..i + 1], handles) == AllHandles(bs[..i], handles) + handles(bs[i])
  {
    assert bs[..i + 1][..i] == bs[..i];
  }

  /** The handles of the first brushes are among the handles of all of them. */
  lemma {:induction false} AllHandlesPrefix<O>(bs: seq<Brush>, j: nat, handles: Brush -> seq<(Vec3, O)>)
    requires j <= |bs|
    ensures multiset(AllHandles(bs[..j], handles)) <= multiset(AllHandles(bs, handles))
    decreases |bs|
  {
    if j < |bs| {
      var init := bs[..|bs| - 1];
      assert init[..j] == bs[..j];
      AllHandlesPrefix(init, j, handles);
    } else {
      assert bs[..j] == bs;
    }
  }

  /** `(x + a) + b == x + (a + b)`, spelled out for the loop of `AddBrushes`. */
  /**
    The selected registrations grow by the handles of `done` and then of
    `next` that sit at one of the selected positions `keys`.
  */
  lemma SelectedGrow<O(!new)>(keys: set<Vec3>, e0: multiset<(Vec3, O)>, done: seq<(Vec3, O)>, next: seq<(Vec3, O)>)
    ensures e0 + multiset(AtPositions(done, keys)) + multiset(AtPositions(next, keys))
            == e0 + multiset(AtPositions(done + next, keys))
    ensures |AtPositions(done, keys)| + |AtPositions(next, keys)| == |AtPositions(done + next, keys)|
  {
    AtPositionsAppend(done, next, keys);
  }

  /** Taking away `a` and then `b` takes away `a + b`. */
  lemma SubtractTwice<T>(x: multiset<T>, a: multiset<T>, b: multiset<T>)
    ensures x - a - b == x - (a + b)
  {
    assert forall t :: (x - a - b)[t] == (x - (a + b))[t];
  }

  lemma Regroup<T>(x: multiset<T>, a: multiset<T>, b: multiset<T>)
    ensures (x + a) + b == x + (a + b)
  {
  }

  /** After the first brushes are removed, the handles of the next one are still registered. */
  lemma StillIncluded<T>(e0: multiset<T>, e: multiset<T>, done: multiset<T>, next: multiset<T>, all: multiset<T>)
    requires e + done == e0 && done + next <= all && all <= e0
    ensures next <= e
  {
    forall x ensures next[x] <= e[x] {
      assert (done + next)[x] == done[x] + next[x];
    }
  }

  /** One brush more removed: `e' + h == e` and `e + done == e0` give `e' + (done + h) == e0`. */
  lemma RemovedStep<T>(e': multiset<T>, h: multiset<T>, e: multiset<T>, done: multiset<T>, e0: multiset<T>)
    requires e' + h == e && e + done == e0
    ensures e' + (done + h) == e0
  {
    assert e' + (done + h) == (e' + h) + done;
  }
}
