/**
 * The nodes of the composed scene: the boundary volumes, the off-screen
 * depth cameras and the surface geometry with its render state. Each depth
 * camera renders exactly one boundary, its only child, into one depth
 * texture whose extent is also the camera's viewport.
 */
module SceneGraph {
  import opened Boundaries
  import opened GridMesh
  import opened Shaders

  /** The faces a camera's face-culling state discards. */
  datatype CullFace = Back | Front

  /** A depth-only texture; `serial` tells apart textures created one after another. */
  datatype Texture = DepthTexture(serial: nat, width: nat, height: nat)

  /** A pre-render camera writing the depth of its one child into its depth target. */
  datatype Camera = DepthCamera(depthTarget: Texture, viewportWidth: nat, viewportHeight: nat, cull: CullFace, child: Boundary)

  /** The surface geometry with its render state. */
  datatype Surface = Surface(mesh: Mesh, state: StateSet)

  datatype Node =
    | BoundaryNode(boundary: Boundary)
    | CameraNode(camera: Camera)
    | GeometryNode(surface: Surface)

  /** A new depth texture of the given extent. */
  function CreateDepthTexture(serial: nat, width: nat, height: nat): (t: Texture)
    ensures t.width == width && t.height == height
    ensures t.serial == serial
  {
    DepthTexture(serial, width, height)
  }

  /** A depth camera over the whole of its texture, culling `cull` faces of its only child. */
  function CreateDepthCamera(target: Texture, cull: CullFace, child: Boundary): (c: Camera)
    ensures c.depthTarget == target
    ensures c.viewportWidth == target.width && c.viewportHeight == target.height
    ensures c.cull == cull && c.child == child
  {
    DepthCamera(target, target.width, target.height, cull, child)
  }
}
