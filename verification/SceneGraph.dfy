// The scene graph: adding and removing nodes, transforms, world bounds and culling over a tree
// (libs/calynda_gfx3d/gfx3d_scene.c:16-126, gfx3d_mesh.c:41-62).

module SceneGraph {
  import opened Wrappers
  import opened NodeTrees
  import opened Vectors
  import opened Bodies
  import opened Matrices
  import opened Culling

  // The positions, indices and bounds of a mesh. Texture coordinates, normals and colours are
  // copied with the positions.
  datatype Mesh = Mesh(vertices: seq<Vec>, indices: seq<nat>, bounds: Aabb)

  ghost predicate Bounded(mesh: Mesh) {
    forall i :: 0 <= i < |mesh.vertices| ==> Inside(mesh.bounds, mesh.vertices[i])
  }

  method MeshCreate(verts: seq<Vec>, indices: seq<nat>) returns (mesh: Mesh)
    ensures mesh.vertices == verts && mesh.indices == indices && Bounded(mesh)
    ensures verts == [] ==> mesh.bounds == Aabb(ZERO, ZERO)
    ensures verts != [] ==> IsHull(mesh.bounds, verts)
  {
    var bounds := ComputeBounds(verts);
    mesh := Mesh(verts, indices, bounds);
  }

  // The nodes of the trees that these nodes head.
  ghost function NodesOf(heads: seq<SceneNode>): (b: seq<set<SceneNode>>)
    reads heads`nodes
    ensures |b| == |heads| && forall i :: 0 <= i < |heads| ==> b[i] == heads[i].nodes
  {
    if heads == [] then []
    else
      var front := heads[..|heads| - 1];
      assert forall i :: 0 <= i < |front| ==> front[i] == heads[i];
      NodesOf(front) + [heads[|heads| - 1].nodes]
  }

  class SceneNode {
    var position: Vec
    var rotation: Quat
    var scale: Vec
    var mesh: Option<Mesh>
    var worldMatrix: Mat
    var worldBounds: Aabb
    var visible: bool
    var parent: SceneNode?
    var children: seq<SceneNode>
    // All nodes of the tree below, this one included.
    ghost var nodes: set<SceneNode>

    // gfx3d_node_create
    constructor ()
      ensures Tree() && children == [] && nodes == {this} && visible && mesh == None && parent == null
    {
      position, rotation, scale := ZERO, Quat(0.0, 0.0, 0.0, 1.0), Vec(1.0, 1.0, 1.0);
      mesh, worldMatrix, worldBounds, visible := None, IDENTITY, Aabb(ZERO, ZERO), true;
      parent, children, nodes := null, [], {this};
    }

    // The nodes form a tree.
    ghost predicate Tree()
      reads this`children, this`nodes, nodes`children, nodes`nodes, nodes`parent
      decreases nodes
    {
      && (forall i :: 0 <= i < |children| ==> children[i] in nodes && children[i].parent == this)
      && Joins(this, children, NodesOf(children), nodes)
      && forall i :: 0 <= i < |children| ==> NodesOf(children)[i] < nodes && children[i].Tree()
    }

    // What the loops over the children need of the tree.
    ghost predicate Branches()
      reads this`children, this`nodes, nodes`children, nodes`nodes, nodes`parent
    {
      && (forall i :: 0 <= i < |children| ==> children[i] in nodes)
      && (forall i :: 0 <= i < |children| ==> children[i].nodes < nodes && this !in children[i].nodes && children[i].Tree())
      && (forall i :: 0 <= i < |children| ==> children[i] in children[i].nodes)
      && (forall i, j :: 0 <= i < j < |children| ==> children[i].nodes !! children[j].nodes)
    }

    lemma TreeBranches()
      requires Tree()
      ensures Branches() && this in nodes
    {
    }

    function LocalMatrix(): Mat
      reads this`position, this`rotation, this`scale
    {
      Trs(position, rotation, scale)
    }

    ghost predicate PlacedHere(above: Mat)
      reads this`position, this`rotation, this`scale, this`mesh, this`worldMatrix, this`worldBounds
    {
      && worldMatrix == Mul(above, LocalMatrix())
      && (mesh.Some? ==> IsHull(worldBounds, Images(worldMatrix, Corners(mesh.value.bounds))))
    }

    // Every node's world matrix is its parent's times its own, and its world bounds are the
    // least box around the corners of its mesh's bounds.
    ghost predicate Placed(above: Mat)
      requires Tree()
      reads this`position, this`rotation, this`scale, this`mesh, this`worldMatrix, this`worldBounds
      reads this`children, this`nodes, nodes`children, nodes`nodes, nodes`parent
      reads nodes`position, nodes`rotation, nodes`scale, nodes`mesh, nodes`worldMatrix, nodes`worldBounds
      decreases nodes
    {
      PlacedHere(above) && forall i :: 0 <= i < |children| ==> children[i].Placed(worldMatrix)
    }

    ghost predicate PlacedBelow(world: Mat)
      requires Tree()
      reads this`children, this`nodes, nodes`children, nodes`nodes, nodes`parent
      reads nodes`position, nodes`rotation, nodes`scale, nodes`mesh, nodes`worldMatrix, nodes`worldBounds
    {
      forall i :: 0 <= i < |children| ==> children[i].Placed(world)
    }

    // gfx3d_node_update_transforms
    method UpdateTransforms(above: Mat)
      requires Tree()
      modifies nodes`worldMatrix, nodes`worldBounds
      ensures Tree() && Placed(above)
      decreases nodes, 2
    {
      assert this in nodes;
      hide Tree, Placed, PlacedHere;
      UpdateHere(above);
      UpdateBelow(above);
    }

    method UpdateBelow(ghost above: Mat)
      requires Tree() && PlacedHere(above)
      modifies (nodes - {this})`worldMatrix, (nodes - {this})`worldBounds
      ensures Tree() && Placed(above)
      decreases nodes, 1
    {
      TreeBranches();
      hide Tree, Branches, Placed, PlacedHere, PlacedBelow;
      UpdateChildren(worldMatrix);
      PlacedWith(above);
    }

    // The node itself.
    method UpdateHere(above: Mat)
      modifies this`worldMatrix, this`worldBounds
      ensures PlacedHere(above)
    {
      hide IsHull, Images, Corners, Mul, Trs;
      var local := LocalMatrix();
      worldMatrix := Mat4Mul(above, local);
      if mesh.Some? {
        worldBounds := TransformBounds(worldMatrix, mesh.value.bounds);
      }
    }

    lemma PlacedWith(above: Mat)
      requires Tree() && PlacedHere(above)
      requires PlacedBelow(worldMatrix)
      ensures Placed(above)
    {
    }

    // The loop over the children.
    method UpdateChildren(world: Mat)
      requires Tree() && Branches()
      modifies (nodes - {this})`worldMatrix, (nodes - {this})`worldBounds
      ensures Tree() && PlacedBelow(world)
      decreases nodes, 0
    {
      hide Tree, Placed;
      for i := 0 to |children|
        invariant forall k :: 0 <= k < i ==> children[k].Placed(world)
      {
        children[i].UpdateTransforms(world);
      }
    }

    // The visible flags of the tree are what the frustum says of the world bounds.
    ghost predicate Culled(planes: seq<Plane>)
      requires Tree() && |planes| == 6
      reads this`mesh, this`worldBounds, this`visible, nodes`mesh, nodes`worldBounds, nodes`visible
      reads this`children, this`nodes, nodes`children, nodes`nodes, nodes`parent
      decreases nodes
    {
      && (visible <==> mesh.None? || InFront(planes, worldBounds))
      && forall i :: 0 <= i < |children| ==> children[i].Culled(planes)
    }

    ghost predicate CulledBelow(planes: seq<Plane>)
      requires Tree() && |planes| == 6
      reads this`children, this`nodes, nodes`children, nodes`nodes, nodes`parent
      reads nodes`mesh, nodes`worldBounds, nodes`visible
    {
      forall i :: 0 <= i < |children| ==> children[i].Culled(planes)
    }

    // gfx3d_node_cull
    method Cull(planes: seq<Plane>)
      requires Tree() && |planes| == 6
      modifies nodes`visible
      ensures Tree() && Culled(planes)
      decreases nodes, 2
    {
      assert this in nodes;
      hide Tree, Culled, InFront;
      CullHere(planes);
      CullBelow(planes);
    }

    method CullBelow(planes: seq<Plane>)
      requires Tree() && |planes| == 6 && (visible <==> mesh.None? || InFront(planes, worldBounds))
      modifies (nodes - {this})`visible
      ensures Tree() && Culled(planes)
      decreases nodes, 1
    {
      TreeBranches();
      hide Tree, Branches, Culled, CulledBelow, InFront;
      CullChildren(planes);
      CulledWith(planes);
    }

    // The node itself.
    method CullHere(planes: seq<Plane>)
      requires |planes| == 6
      modifies this`visible
      ensures visible <==> mesh.None? || InFront(planes, worldBounds)
    {
      if mesh.Some? {
        visible := FrustumContainsAabb(planes, worldBounds);
      } else {
        visible := true;
      }
    }

    lemma CulledWith(planes: seq<Plane>)
      requires Tree() && |planes| == 6 && (visible <==> mesh.None? || InFront(planes, worldBounds))
      requires CulledBelow(planes)
      ensures Culled(planes)
    {
    }

    method CullChildren(planes: seq<Plane>)
      requires Tree() && Branches() && |planes| == 6
      modifies (nodes - {this})`visible
      ensures Tree() && CulledBelow(planes)
      decreases nodes, 0
    {
      hide Tree, Culled;
      for i := 0 to |children|
        invariant forall k :: 0 <= k < i ==> children[k].Culled(planes)
      {
        children[i].Cull(planes);
      }
    }

    // Whether some vertex of the node's mesh, placed in the world as the code places points,
    // projects into the clip volume.
    ghost predicate InView(vp: Mat)
      reads this`mesh, this`worldMatrix
    {
      mesh.Some? && exists i :: 0 <= i < |mesh.value.vertices| && InClip(MulVec4(vp, Point(MulPoint(worldMatrix, mesh.value.vertices[i]))))
    }

    // Whether one does so under the product of the two matrices, as a renderer computes it.
    ghost predicate Projected(vp: Mat)
      reads this`mesh, this`worldMatrix
    {
      mesh.Some? && exists i :: 0 <= i < |mesh.value.vertices| && InClip(MulVec4(Mul(vp, worldMatrix), Point(mesh.value.vertices[i])))
    }

    ghost predicate MeshesBounded()
      reads this`nodes, nodes`mesh
    {
      forall n :: n in nodes && n.mesh.Some? ==> Bounded(n.mesh.value)
    }

    // A node in view is visible: from the mesh's bounds to the corners' box to the planes.
    lemma NodeInViewIsVisible(root: real -> real, vp: Mat, planes: seq<Plane>)
      requires mesh.Some? && Bounded(mesh.value)
      requires IsHull(worldBounds, Images(worldMatrix, Corners(mesh.value.bounds)))
      requires |planes| == 6 && forall i :: 0 <= i < 6 ==> planes[i] == Normalised(root, ExtractedPlanes(vp)[i])
      requires InView(vp)
      ensures InFront(planes, worldBounds)
    {
      var k :| 0 <= k < |mesh.value.vertices| && InClip(MulVec4(vp, Point(MulPoint(worldMatrix, mesh.value.vertices[k]))));
      var v := mesh.value.vertices[k];
      var p := MulPoint(worldMatrix, v);
      HullHoldsImages(worldMatrix, mesh.value.bounds, worldBounds, v);
      PlanesBoundClip(root, vp, planes, p);
      hide MulPoint, MulVec4, IsHull, Inside, Normalised, InClip, PositiveVertex, Dot;
      forall i | 0 <= i < 6
        ensures Side(planes[i], PositiveVertex(planes[i].normal, worldBounds)) >= 0.0
      {
        PositiveVertexIsFurthest(planes[i].normal, worldBounds, p);
      }
    }

    // The main result: culling a placed tree with the frustum of a view-projection matrix keeps
    // every node in view visible.
    lemma CullingIsSound(root: real -> real, above: Mat, vp: Mat, planes: seq<Plane>, n: SceneNode)
      requires Tree() && Placed(above) && MeshesBounded() && n in nodes
      requires |planes| == 6 && forall i :: 0 <= i < 6 ==> planes[i] == Normalised(root, ExtractedPlanes(vp)[i])
      requires Culled(planes) && n.InView(vp)
      ensures n.visible
      decreases nodes
    {
      hide Bounded, IsHull, Mul, InFront, Trs, Images, Corners, Normalised;
      if n == this {
        NodeInViewIsVisible(root, vp, planes);
      } else {
        var i := InOne(this, children, NodesOf(children), nodes, n);
        children[i].CullingIsSound(root, worldMatrix, vp, planes, n);
      }
    }

    // It is visible exactly if no face of the clip volume has its whole box outside.
    ghost predicate Shown(vp: Mat)
      reads this`mesh, this`worldBounds
    {
      mesh.Some? ==> forall face :: 0 <= face < 6 ==> Reaches(vp, worldBounds, face)
    }

    lemma ShownExactly(root: real -> real, above: Mat, vp: Mat, planes: seq<Plane>, n: SceneNode)
      requires Tree() && Placed(above) && n in nodes
      requires |planes| == 6 && forall i :: 0 <= i < 6 ==> planes[i] == Normalised(root, ExtractedPlanes(vp)[i])
      requires Culled(planes)
      ensures n.visible <==> n.Shown(vp)
      decreases nodes
    {
      hide Bounded, IsHull, Mul, Trs, Images, Corners, Normalised, ExtractedPlanes, Reaches, Side, PositiveVertex;
      if n == this {
        if mesh.Some? {
          HullHasMin(worldMatrix, mesh.value.bounds, worldBounds);
          forall face | 0 <= face < 6
            ensures Side(planes[face], PositiveVertex(planes[face].normal, worldBounds)) >= 0.0 <==> Reaches(vp, worldBounds, face)
          {
            BoxReaches(root, vp, worldBounds, face);
          }
        }
      } else {
        var i := InOne(this, children, NodesOf(children), nodes, n);
        children[i].ShownExactly(root, worldMatrix, vp, planes, n);
      }
    }

    // ---- Where points go ----

    // Of the node's own position, rotation and scale: what becomes of a point of its mesh.
    function Carried(p: Vec): Vec
      reads this`position, this`rotation, this`scale
    {
      Add(position, Rotated(rotation, Scaled(scale, p)))
    }

    // The world matrix takes each point to where `above` takes the scaled, rotated and moved point.
    ghost predicate Sits(above: Mat)
      reads this`position, this`rotation, this`scale, this`worldMatrix
    {
      forall p :: MulVec4(worldMatrix, Point(p)) == MulVec4(above, Point(Carried(p)))
    }

    lemma SitsHere(above: Mat)
      requires PlacedHere(above)
      ensures Sits(above)
    {
      hide Trs, Mul, Rotated, Scaled, Affine, Add, MulVec4, MulPoint, IsHull, Images, Corners;
      forall p: Vec
        ensures MulVec4(worldMatrix, Point(p)) == MulVec4(above, Point(Carried(p)))
      {
        TrsPlacesPoints(position, rotation, scale, p);
        TrsIsAffine(position, rotation, scale);
        AffinePoint(LocalMatrix(), p);
        MulComposes(above, LocalMatrix(), Point(p));
      }
    }

    // So it is at every node: its world matrix takes points to where its parent's takes them.
    lemma EachSits(above: Mat, n: SceneNode)
      requires Tree() && Placed(above) && n in nodes
      ensures n == this ==> n.Sits(above)
      ensures n != this ==> n.parent != null && n.parent in nodes && n.Sits(n.parent.worldMatrix)
      decreases nodes
    {
      hide IsHull, Mul, Trs, Images, Corners, Sits;
      if n == this {
        SitsHere(above);
      } else {
        var i := InOne(this, children, NodesOf(children), nodes, n);
        children[i].EachSits(worldMatrix, n);
      }
    }

    // A path down the tree, from a node to one below it.
    ghost predicate Leads(path: seq<SceneNode>)
      reads path
    {
      path != [] && path[0] == this && forall k :: 0 <= k < |path| - 1 ==> path[k + 1] in path[k].children
    }

    lemma PathTo(n: SceneNode) returns (path: seq<SceneNode>)
      requires Tree() && n in nodes
      ensures Leads(path) && path[|path| - 1] == n
      decreases nodes
    {
      if n == this {
        path := [this];
      } else {
        var i := InOne(this, children, NodesOf(children), nodes, n);
        var rest := children[i].PathTo(n);
        path := [this] + rest;
      }
    }

    // And along the path: the last node's matrix takes a point to where `above` takes it once each
    // node from the last up to the first has carried it.
    lemma {:induction false} PathPlaces(above: Mat, path: seq<SceneNode>, p: Vec)
      requires Tree() && Placed(above) && Leads(path)
      ensures MulVec4(path[|path| - 1].worldMatrix, Point(p)) == MulVec4(above, Point(CarriedAlong(path, p)))
      decreases |path|
    {
      hide IsHull, Mul, Trs, Images, Corners, MulVec4, Rotated, PlacedHere;
      SitsHere(above);
      var rest := path[1..];
      if rest == [] {
        assert CarriedAlong(path, p) == Carried(p);
      } else {
        assert rest[0] in children;
        rest[0].PathPlaces(worldMatrix, rest, p);
        assert CarriedAlong(path, p) == Carried(CarriedAlong(rest, p));
      }
    }

    // Below an affine matrix, placing a vertex in the world first and projecting it by the product
    // of the matrices come to the same, for every node.
    lemma AffineInView(above: Mat, vp: Mat, n: SceneNode)
      requires Tree() && Placed(above) && Affine(above) && n in nodes
      ensures n.InView(vp) <==> n.Projected(vp)
      decreases nodes
    {
      hide IsHull, Mul, Affine, Trs, Images, Corners, MulVec4, MulPoint, InClip;
      TrsIsAffine(position, rotation, scale);
      MulIsAffine(above, LocalMatrix());
      if n == this {
        forall v: Vec
          ensures MulVec4(Mul(vp, worldMatrix), Point(v)) == MulVec4(vp, Point(MulPoint(worldMatrix, v)))
        {
          AffinePoint(worldMatrix, v);
          MulComposes(vp, worldMatrix, Point(v));
        }
      } else {
        var i := InOne(this, children, NodesOf(children), nodes, n);
        children[i].AffineInView(worldMatrix, vp, n);
      }
    }
  }

  // A point of the last node's mesh, carried by each node from the last to the first.
  ghost function CarriedAlong(path: seq<SceneNode>, p: Vec): Vec
    reads path
  {
    if path == [] then p else path[0].Carried(CarriedAlong(path[1..], p))
  }

  // ---- Adding and removing nodes ----

  const MAX_CHILDREN: nat := 32

  // ---- Between the nodes and their shape ----

  function Maybe(n: SceneNode?): Option<SceneNode> {
    if n == null then None
    else
      var m: SceneNode := n;
      Some(m)
  }

  ghost function ShapeOf(all: set<SceneNode>): Shape<SceneNode>
    reads all
  {
    Shape(map n | n in all :: n.children, map n | n in all :: n.nodes, map n | n in all :: Maybe(n.parent))
  }

  lemma {:induction false} TreeHasShape(m: SceneNode, all: set<SceneNode>)
    requires m.Tree() && m.nodes <= all
    ensures IsTree(ShapeOf(all), m)
    decreases m.nodes
  {
    var s := ShapeOf(all);
    forall i | 0 <= i < |m.children|
      ensures IsTree(s, m.children[i])
    {
      TreeHasShape(m.children[i], all);
    }
    TreeFrom(s, m, m.children, NodesOf(m.children));
  }

  lemma {:induction false} ShapeIsTree(m: SceneNode, all: set<SceneNode>)
    requires m in all && IsTree(ShapeOf(all), m)
    ensures m.Tree()
    decreases m.nodes
  {
    var s := ShapeOf(all);
    forall i | 0 <= i < |m.children|
      ensures m.children[i].Tree()
    {
      ShapeIsTree(m.children[i], all);
    }
    assert NodesOf(m.children) == Holdings(s, m);
  }

  function Given(n: SceneNode?): set<SceneNode> {
    if n == null then {} else {n}
  }

  // gfx3d_node_add_child: the tree `root` that `parent` is in takes in the tree `child`.
  method AddChild(parent: SceneNode?, child: SceneNode?, ghost root: SceneNode) returns (ok: bool)
    requires parent != null && child != null ==> root.Tree() && parent in root.nodes && child.Tree() && root.nodes !! child.nodes
    modifies Given(parent)`children, Given(child)`parent, root.nodes`nodes
    ensures ok <==> parent != null && child != null && old(|parent.children|) < MAX_CHILDREN
    ensures !ok && parent != null ==> parent.children == old(parent.children)
    ensures !ok && parent != null && child != null ==> root.Tree() && child.Tree() && child.parent == old(child.parent)
    ensures ok ==> root.Tree() && child.Tree() && root.nodes == old(root.nodes) + old(child.nodes)
    ensures ok ==> parent.children == old(parent.children) + [child] && child.parent == parent && child.nodes == old(child.nodes)
  {
    if parent == null || child == null {
      return false;
    }
    if |parent.children| >= MAX_CHILDREN {
      return false;
    }
    ghost var all := root.nodes + child.nodes;
    ghost var s := ShapeOf(all);
    hide SceneNode.Tree, IsTree, ShapeOf, Below, GrownAt;
    Snapshot(root, all);
    Snapshot(child, all);
    Hang(s, parent, child, root.nodes);
    Hung(s, all, parent, child, root);
    return true;
  }

  // A node as the shape has it, ...
  ghost predicate At(s: Shape<SceneNode>, n: SceneNode)
    reads n
  {
    Known(s, n) && n.children == s.kids[n] && n.nodes == s.nodes[n] && Maybe(n.parent) == s.parents[n]
  }

  // ... the same but for its parent ...
  ghost predicate Below(s: Shape<SceneNode>, n: SceneNode)
    reads n
  {
    Known(s, n) && n.children == s.kids[n] && n.nodes == s.nodes[n]
  }

  // ... and with `child` hung below `parent`.
  ghost predicate GrownAt(s: Shape<SceneNode>, parent: SceneNode, child: SceneNode, n: SceneNode)
    requires child in s.nodes
    reads n
  {
    && Known(s, n)
    && n.children == (if n == parent then s.kids[n] + [child] else s.kids[n])
    && n.nodes == (if parent in s.nodes[n] then s.nodes[n] + s.nodes[child] else s.nodes[n])
    && Maybe(n.parent) == s.parents[n]
  }

  lemma Snapshot(m: SceneNode, all: set<SceneNode>)
    requires m.Tree() && m.nodes <= all
    ensures m in m.nodes && IsTree(ShapeOf(all), m) && forall n :: n in all ==> At(ShapeOf(all), n)
  {
    TreeHasShape(m, all);
  }

  method Hang(ghost s: Shape<SceneNode>, parent: SceneNode, child: SceneNode, ghost nodes: set<SceneNode>)
    requires parent in nodes && child in child.nodes && nodes !! child.nodes
    requires At(s, parent) && At(s, child) && (forall n :: n in nodes ==> At(s, n)) && (forall n :: n in child.nodes ==> At(s, n))
    modifies parent`children, child`parent, nodes`nodes
    ensures parent.children == old(parent.children) + [child] && child.parent == parent
    ensures forall n :: n in nodes ==> GrownAt(s, parent, child, n)
    ensures forall n :: n in s.nodes[child] ==> Below(s, n) && (n != child ==> At(s, n))
  {
    child.parent := parent;
    parent.children := parent.children + [child];
    forall n | n in nodes && parent in n.nodes {
      n.nodes := n.nodes + child.nodes;
    }
  }

  lemma Hung(s: Shape<SceneNode>, all: set<SceneNode>, parent: SceneNode, child: SceneNode, root: SceneNode)
    requires IsTree(s, root) && IsTree(s, child) && s.nodes[root] !! s.nodes[child] && all == s.nodes[root] + s.nodes[child]
    requires child.parent == parent && child in s.nodes[child] && root in s.nodes[root]
    requires forall n :: n in s.nodes[root] ==> GrownAt(s, parent, child, n)
    requires forall n :: n in s.nodes[child] ==> Below(s, n) && (n != child ==> At(s, n))
    ensures root.Tree() && child.Tree()
  {
    var t := ShapeOf(all);
    HungShapes(s, all, parent, child, s.nodes[root]);
    assert t.nodes[child] == s.nodes[child] && t.parents[child] == Some(parent);
    hide SceneNode.Tree, IsTree, ShapeOf, TakesIn, Stays, At, Below, GrownAt;
    StillTree(s, t, child);
    assert Hangs(t, parent, child, s.nodes[child]);
    TakenIn(s, t, parent, child, root);
    ShapeIsTree(root, all);
    ShapeIsTree(child, all);
  }

  lemma HungShapes(s: Shape<SceneNode>, all: set<SceneNode>, parent: SceneNode, child: SceneNode, nodes: set<SceneNode>)
    requires child in s.nodes && all == nodes + s.nodes[child]
    requires forall n :: n in nodes ==> GrownAt(s, parent, child, n)
    requires forall n :: n in s.nodes[child] ==> Below(s, n) && (n != child ==> At(s, n))
    ensures var t := ShapeOf(all);
      && (forall n :: n in nodes ==> TakesIn(s, t, parent, child, n))
      && (forall n :: n in s.nodes[child] ==> Stays(s, t, n) && (n != child ==> t.parents[n] == s.parents[n]))
  {
  }

  // gfx3d_node_remove_child: the tree `child` comes off the tree `root`, and the last child of
  // `parent` takes its place.
  method RemoveChild(parent: SceneNode?, child: SceneNode?, ghost root: SceneNode) returns (ok: bool)
    requires parent != null && child != null ==> root.Tree() && parent in root.nodes
    modifies Given(parent)`children, Given(child)`parent, root.nodes`nodes
    ensures ok <==> parent != null && child != null && child in old(parent.children)
    ensures !ok && parent != null ==> parent.children == old(parent.children)
    ensures !ok && parent != null && child != null ==> root.Tree() && root.nodes == old(root.nodes) && child.parent == old(child.parent)
    ensures ok ==> root.Tree() && child.Tree() && root.nodes == old(root.nodes) - old(child.nodes)
    ensures ok ==> child.parent == null && child.nodes == old(child.nodes)
    ensures ok ==> exists i :: 0 <= i < old(|parent.children|) && RemovedAt(old(parent.children), parent.children, child, i)
  {
    if parent == null || child == null {
      return false;
    }
    for i := 0 to |parent.children|
      invariant child !in parent.children[..i]
    {
      if parent.children[i] == child {
        TakeOff(parent, child, i, root);
        return true;
      }
    }
    return false;
  }

  predicate RemovedAt(before: seq<SceneNode>, after: seq<SceneNode>, child: SceneNode, i: nat)
    requires i < |before|
  {
    before[i] == child && after == WithoutAt(before, i)
  }

  method TakeOff(parent: SceneNode, child: SceneNode, i: nat, ghost root: SceneNode)
    requires root.Tree() && parent in root.nodes && i < |parent.children| && parent.children[i] == child
    modifies parent`children, child`parent, root.nodes`nodes
    ensures root.Tree() && child.Tree() && root.nodes == old(root.nodes) - old(child.nodes)
    ensures child.parent == null && child.nodes == old(child.nodes)
    ensures RemovedAt(old(parent.children), parent.children, child, i)
  {
    ghost var all := root.nodes;
    ghost var s := ShapeOf(all);
    hide SceneNode.Tree, ShapeOf, Below, ShrunkAt;
    Snapshot(root, all);
    Within(s, root, parent);
    InTree(s, root, parent, i);
    Level(s, parent);
    hide IsTree, Joins;
    assert child in child.nodes && parent !in child.nodes;
    forall n | n in child.nodes
      ensures parent !in n.nodes
    {
      Within(s, child, n);
    }
    Unhang(s, parent, child, i, all);
    Off(s, all, parent, child, i, root);
  }

  // A node with the i-th child of `parent` taken off.
  ghost predicate ShrunkAt(s: Shape<SceneNode>, parent: SceneNode, i: nat, gone: set<SceneNode>, n: SceneNode)
    reads n
  {
    && Known(s, n)
    && (if n == parent then i < |s.kids[n]| && n.children == WithoutAt(s.kids[n], i) else n.children == s.kids[n])
    && n.nodes == (if parent in s.nodes[n] then s.nodes[n] - gone else s.nodes[n])
    && Maybe(n.parent) == s.parents[n]
  }

  method Unhang(ghost s: Shape<SceneNode>, parent: SceneNode, child: SceneNode, i: nat, ghost all: set<SceneNode>)
    requires parent in all && i < |parent.children| && parent.children[i] == child && child.nodes <= all
    requires child in child.nodes && parent !in child.nodes && forall n :: n in child.nodes ==> parent !in n.nodes
    requires At(s, parent) && At(s, child) && forall n :: n in all ==> At(s, n)
    modifies parent`children, child`parent, all`nodes
    ensures RemovedAt(old(parent.children), parent.children, child, i) && child.parent == null
    ensures forall n :: n in all && n !in s.nodes[child] ==> ShrunkAt(s, parent, i, s.nodes[child], n)
    ensures forall n :: n in s.nodes[child] ==> Below(s, n) && (n != child ==> At(s, n))
  {
    child.parent := null;
    parent.children := WithoutAt(parent.children, i);
    forall n | n in all && parent in n.nodes {
      n.nodes := n.nodes - child.nodes;
    }
  }

  lemma Off(s: Shape<SceneNode>, all: set<SceneNode>, parent: SceneNode, child: SceneNode, i: nat, root: SceneNode)
    requires IsTree(s, root) && IsTree(s, parent) && all == s.nodes[root] && parent in all && root in all
    requires i < |s.kids[parent]| && child == s.kids[parent][i] && child in s.nodes && s.nodes[child] <= all && child in s.nodes[child]
    requires forall n :: n in all && n !in s.nodes[child] ==> ShrunkAt(s, parent, i, s.nodes[child], n)
    requires forall n :: n in s.nodes[child] ==> Below(s, n) && (n != child ==> At(s, n))
    ensures root.Tree() && root.nodes == s.nodes[root] - s.nodes[child] && child.Tree()
  {
    var t := ShapeOf(all);
    hide SceneNode.Tree, IsTree;
    OffShapes(s, all, parent, child, i);
    assert root.nodes == t.nodes[root];
    Child(s, parent, i);
    hide ShapeOf, GivesUp, Stays, At, Below, ShrunkAt;
    StillTree(s, t, child);
    Pruned(s, t, parent, i, s.nodes[child], root);
    ShapeIsTree(root, all);
    ShapeIsTree(child, all);
  }

  lemma Child(s: Shape<SceneNode>, parent: SceneNode, i: nat)
    requires IsTree(s, parent) && i < |s.kids[parent]|
    ensures IsTree(s, s.kids[parent][i]) && s.nodes[s.kids[parent][i]] == Holdings(s, parent)[i]
  {
  }

  lemma OffShapes(s: Shape<SceneNode>, all: set<SceneNode>, parent: SceneNode, child: SceneNode, i: nat)
    requires child in s.nodes && s.nodes[child] <= all
    requires forall n :: n in all && n !in s.nodes[child] ==> ShrunkAt(s, parent, i, s.nodes[child], n)
    requires forall n :: n in s.nodes[child] ==> Below(s, n) && (n != child ==> At(s, n))
    ensures var t := ShapeOf(all);
      && (forall n :: n in all && n !in s.nodes[child] ==> GivesUp(s, t, parent, i, s.nodes[child], n))
      && (forall n :: n in s.nodes[child] ==> Stays(s, t, n) && (n != child ==> t.parents[n] == s.parents[n]))
  {
  }

  predicate InFront(planes: seq<Plane>, b: Aabb)
    requires |planes| == 6
  {
    forall i :: 0 <= i < 6 ==> Side(planes[i], PositiveVertex(planes[i].normal, b)) >= 0.0
  }

  // A frame: transforms first, then culling. Points go where each node's own place and its parent's
  // take them, and a node is visible exactly if no face of the clip volume has its box outside.
  method UpdateAndCull(root: real -> real, scene: SceneNode, above: Mat, vp: Mat)
    requires scene.Tree() && scene.MeshesBounded()
    modifies scene.nodes`worldMatrix, scene.nodes`worldBounds, scene.nodes`visible
    ensures scene.Tree() && scene.Sits(above)
    ensures forall n :: n in scene.nodes && n != scene ==> n.parent != null && n.parent in scene.nodes && n.Sits(n.parent.worldMatrix)
    ensures forall path: seq<SceneNode>, p :: scene.Leads(path) ==>
      MulVec4(path[|path| - 1].worldMatrix, Point(p)) == MulVec4(above, Point(CarriedAlong(path, p)))
    ensures forall n :: n in scene.nodes ==> (n.visible <==> n.Shown(vp))
    ensures forall n :: n in scene.nodes && n.InView(vp) ==> n.visible
    ensures Affine(above) ==> forall n :: n in scene.nodes && n.Projected(vp) ==> n.visible
  {
    hide IsHull, Mul, Trs, Images, Corners, Normalised, Bounded, Affine, MulVec4, MulPoint, InClip;
    hide SceneNode.Tree, SceneNode.Placed, SceneNode.Culled, SceneNode.MeshesBounded, SceneNode.InView, SceneNode.Projected;
    hide SceneNode.Sits, SceneNode.Shown;
    scene.UpdateTransforms(above);
    var planes := FrustumFromVp(root, vp);
    scene.Cull(planes);
    scene.TreeBranches();
    scene.EachSits(above, scene);
    forall n | n in scene.nodes
      ensures n.visible <==> n.Shown(vp)
    {
      scene.ShownExactly(root, above, vp, planes, n);
    }
    forall n | n in scene.nodes && n != scene
      ensures n.parent != null && n.parent in scene.nodes && n.Sits(n.parent.worldMatrix)
    {
      scene.EachSits(above, n);
    }
    forall path: seq<SceneNode>, p | scene.Leads(path)
      ensures MulVec4(path[|path| - 1].worldMatrix, Point(p)) == MulVec4(above, Point(CarriedAlong(path, p)))
    {
      scene.PathPlaces(above, path, p);
    }
    forall n | n in scene.nodes && n.InView(vp)
      ensures n.visible
    {
      scene.CullingIsSound(root, above, vp, planes, n);
    }
    if Affine(above) {
      forall n | n in scene.nodes && n.Projected(vp)
        ensures n.visible
      {
        scene.AffineInView(above, vp, n);
      }
    }
  }
}
