/**
 * The depth-capture stage: for every boundary, in registry order, a front
 * depth texture rendered by a camera that culls back faces and a back depth
 * texture rendered by a camera that culls front faces, both cameras having
 * that boundary as their only child and being appended to the scene group.
 */
module DepthCapture {
  import opened Boundaries
  import opened SceneGraph

  /** Appends the depth cameras to `group`; `front[i]` and `back[i]` belong to `boundaries[i]`. */
  method CaptureDepth(group: seq<Node>, boundaries: seq<Boundary>, enabled: bool, width: nat, height: nat)
    returns (result: seq<Node>, front: seq<Texture>, back: seq<Texture>)
    ensures |group| <= |result| && result[..|group|] == group
    ensures !enabled ==> result == group && front == [] && back == []
    ensures enabled ==> |front| == |boundaries| && |back| == |boundaries| &&
                        |result| == |group| + 2 * |boundaries|
    ensures enabled ==> forall i :: 0 <= i < |boundaries| ==>
              result[|group| + 2 * i] == CameraNode(CreateDepthCamera(front[i], Back, boundaries[i])) &&
              result[|group| + 2 * i + 1] == CameraNode(CreateDepthCamera(back[i], Front, boundaries[i]))
    ensures forall k :: |group| <= k < |result| ==> result[k].CameraNode?
    ensures forall i :: 0 <= i < |front| ==> front[i].width == width && front[i].height == height
    ensures forall i :: 0 <= i < |back| ==> back[i].width == width && back[i].height == height
    ensures forall i, j :: 0 <= i < |front| && 0 <= j < |back| ==> front[i] != back[j]
    ensures forall i, j :: 0 <= i < j < |front| ==> front[i] != front[j]
    ensures forall i, j :: 0 <= i < j < |back| ==> back[i] != back[j]
  {
    result, front, back := group, [], [];
    if enabled {
      var serial := 0;
      for i := 0 to |boundaries|
        invariant |front| == i && |back| == i && |result| == |group| + 2 * i && serial == 2 * i
        invariant result[..|group|] == group
        invariant forall k :: |group| <= k < |result| ==> result[k].CameraNode?
        invariant forall j :: 0 <= j < i ==>
                    result[|group| + 2 * j] == CameraNode(CreateDepthCamera(front[j], Back, boundaries[j])) &&
                    result[|group| + 2 * j + 1] == CameraNode(CreateDepthCamera(back[j], Front, boundaries[j]))
        invariant forall j :: 0 <= j < i ==>
                    front[j] == CreateDepthTexture(2 * j, width, height) &&
                    back[j] == CreateDepthTexture(2 * j + 1, width, height)
      {
        var boundary := boundaries[i];

        var frontTexture := CreateDepthTexture(serial, width, height);
        serial := serial + 1;
        var frontCamera := CreateDepthCamera(frontTexture, Back, boundary);
        result := result + [CameraNode(frontCamera)];
        front := front + [frontTexture];

        var backTexture := CreateDepthTexture(serial, width, height);
        serial := serial + 1;
        var backCamera := CreateDepthCamera(backTexture, Front, boundary);
        result := result + [CameraNode(backCamera)];
        back := back + [backTexture];
      }
    }
  }
}
