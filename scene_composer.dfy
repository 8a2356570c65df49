/**
 * The program's composition of the scene: collect the boundaries, add them
 * to the scene group when they are to be visible, append the depth cameras
 * when depth capture is requested, build the surface, apply the shader
 * options to its render state, and add the surface last.
 */
module SceneComposer {
  import opened Wrappers
  import opened Options
  import opened Boundaries
  import opened GridMesh
  import opened Shaders
  import opened SceneGraph
  import opened DepthCapture

  /** The fixed extent of every depth texture. */
  const DepthTextureWidth: nat := 1280
  const DepthTextureHeight: nat := 1024

  /** Cells along each axis of the surface when no count is given. */
  const DefaultCells: nat := 10

  /** The composed scene: the group handed to the viewer, with the parts it was built from. */
  datatype Scene = Scene(
    group: seq<Node>,
    boundaries: seq<Boundary>,
    frontDepthTextures: seq<Texture>,
    backDepthTextures: seq<Texture>,
    surface: Surface,
    output: Option<string>)

  function ColumnCount(args: seq<Arg>): nat { Last(args, ColumnsOf).GetOr(DefaultCells) }
  function RowCount(args: seq<Arg>): nat { Last(args, RowsOf).GetOr(DefaultCells) }

  /** The boundary nodes shown in the scene: every boundary in registry order, or none. */
  method ShowBoundaries(boundaries: seq<Boundary>, visible: bool) returns (group: seq<Node>)
    ensures |group| == if visible then |boundaries| else 0
    ensures forall i :: 0 <= i < |group| ==> group[i] == BoundaryNode(boundaries[i])
  {
    group := [];
    if visible {
      for i := 0 to |boundaries|
        invariant |group| == i
        invariant forall j :: 0 <= j < i ==> group[j] == BoundaryNode(boundaries[j])
      {
        group := group + [BoundaryNode(boundaries[i])];
      }
    }
  }

  /** The surface: a grid of the requested size with the requested shader state. */
  method BuildSurface(args: seq<Arg>) returns (surface: Surface)
    ensures surface.mesh.vertices == GridVertices(ColumnCount(args), RowCount(args) + 1)
    ensures surface.mesh.indexWidth == IndexWidthFor(NumVertices(ColumnCount(args), RowCount(args)))
    ensures surface.mesh.indices == Triangulation(ColumnCount(args), RowCount(args))
    ensures surface.state == Assemble(args, EmptyStateSet)
  {
    var uCells := ReadLast(args, ColumnsOf, DefaultCells);
    var vCells := ReadLast(args, RowsOf, DefaultCells);
    var mesh := CreateMesh(uCells, vCells);
    var state := AddShaders(args, EmptyStateSet);
    surface := Surface(mesh, state);
  }

  /** The group before the surface is added: the boundaries when they are shown, then, when
      depth capture is requested, a back-culling and a front-culling depth camera per boundary,
      each over a depth texture of its own. */
  ghost predicate BoundaryAndCameraLayout(group: seq<Node>, boundaries: seq<Boundary>,
                                          front: seq<Texture>, back: seq<Texture>, visible: bool, depth: bool)
  {
    var n := |boundaries|;
    var v := if visible then n else 0;
    var d := if depth then 2 * n else 0;
    && |group| == v + d
    && (forall i :: 0 <= i < v ==> group[i] == BoundaryNode(boundaries[i]))
    && (forall i :: v <= i < v + d ==> group[i].CameraNode?)
    && (depth ==>
          |front| == n && |back| == n &&
          forall i :: 0 <= i < n ==>
            group[v + 2 * i] == CameraNode(CreateDepthCamera(front[i], Back, boundaries[i])) &&
            group[v + 2 * i + 1] == CameraNode(CreateDepthCamera(back[i], Front, boundaries[i])))
    && (!depth ==> front == [] && back == [])
    && (forall t :: t in front || t in back ==> t.width == DepthTextureWidth && t.height == DepthTextureHeight)
    && (forall i, j :: 0 <= i < |front| && 0 <= j < |back| ==> front[i] != back[j])
    && (forall i, j :: 0 <= i < j < |front| ==> front[i] != front[j])
    && (forall i, j :: 0 <= i < j < |back| ==> back[i] != back[j])
  }

  /** The boundary nodes and depth cameras, in the order the program adds them. */
  method ArrangeBoundaries(boundaries: seq<Boundary>, visible: bool, depth: bool)
    returns (group: seq<Node>, front: seq<Texture>, back: seq<Texture>)
    ensures BoundaryAndCameraLayout(group, boundaries, front, back, visible, depth)
  {
    group := ShowBoundaries(boundaries, visible);
    ghost var shown := group;
    group, front, back := CaptureDepth(group, boundaries, depth, DepthTextureWidth, DepthTextureHeight);
    forall i | 0 <= i < |shown| ensures group[i] == BoundaryNode(boundaries[i]) {
      assert group[..|shown|] == shown;
      assert group[i] == shown[i];
    }
  }

  method ComposeScene(args: seq<Arg>) returns (scene: Scene)
    ensures scene.boundaries == Collected(args)
    ensures |scene.group| >= 1 && scene.group[|scene.group| - 1] == GeometryNode(scene.surface)
    ensures BoundaryAndCameraLayout(scene.group[..|scene.group| - 1], scene.boundaries,
                                    scene.frontDepthTextures, scene.backDepthTextures,
                                    Present(args, VisibleBoundaries), Present(args, DepthBoundaries))
    ensures scene.surface.mesh.vertices == GridVertices(ColumnCount(args), RowCount(args) + 1)
    ensures scene.surface.mesh.indexWidth == IndexWidthFor(NumVertices(ColumnCount(args), RowCount(args)))
    ensures scene.surface.mesh.indices == Triangulation(ColumnCount(args), RowCount(args))
    ensures scene.surface.state == Assemble(args, EmptyStateSet)
    ensures scene.output == First(args, OutputOf)
  {
    var visibleBoundaries := ReadFlag(args, VisibleBoundaries);
    var depthBoundaries := ReadFlag(args, DepthBoundaries);
    var boundaries := CollectBoundaries(args);
    var group, front, back := ArrangeBoundaries(boundaries, visibleBoundaries, depthBoundaries);
    var surface := BuildSurface(args);
    ghost var arranged := group;
    group := group + [GeometryNode(surface)];
    assert group[..|group| - 1] == arranged;
    scene := Scene(group, boundaries, front, back, surface, First(args, OutputOf));
  }
}
