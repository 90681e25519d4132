/** The pinhole camera that maps viewport coordinates to rays (src/camera.rs). */
module Cameras {
  import opened Vectors
  import opened Rays
  import opened Utils

  datatype Viewport = Viewport(focalLength: real, width: real, height: real)

  /** `Viewport::new`: the width is derived from the aspect ratio and the height. */
  function NewViewport(aspectRatio: AspectRatio, height: real, focalLength: real): (vp: Viewport)
    requires aspectRatio.height != 0.0
    ensures vp.height == height && vp.focalLength == focalLength
    ensures vp.width * aspectRatio.height == aspectRatio.width * height
  {
    Viewport(focalLength, aspectRatio.AsReal() * height, height)
  }

  datatype Camera = Camera(viewport: Viewport, origin: Vec3, horizontal: Vec3,
                           vertical: Vec3, lowerLeftCorner: Vec3)

  /** `Camera::new`: the eye at the origin, looking down the negative z axis; the
      lower-left corner of the viewport sits half a width left, half a height down
      and one focal length in front of the eye. */
  function NewCamera(viewport: Viewport): (c: Camera)
    ensures c.viewport == viewport
    ensures c.origin == Vec3(0.0, 0.0, 0.0)
    ensures c.horizontal == Vec3(viewport.width, 0.0, 0.0)
    ensures c.vertical == Vec3(0.0, viewport.height, 0.0)
    ensures c.lowerLeftCorner
         == Vec3(-viewport.width / 2.0, -viewport.height / 2.0, -viewport.focalLength)
  {
    var origin := Vectors.New(0.0, 0.0, 0.0);
    var horizontal := Vectors.New(viewport.width, 0.0, 0.0);
    var vertical := Vectors.New(0.0, viewport.height, 0.0);
    var lowerLeftCorner :=
      Sub(Sub(Sub(origin, DivScalar(horizontal, 2.0)), DivScalar(vertical, 2.0)),
          Vectors.New(0.0, 0.0, viewport.focalLength));
    Camera(viewport, origin, horizontal, vertical, lowerLeftCorner)
  }

  /** `get_ray(u, v)`: from the camera origin towards viewport point (u, v). */
  function GetRay(camera: Camera, u: real, v: real): (r: Ray)
    ensures r.origin == camera.origin
    ensures Sub(r.direction, camera.lowerLeftCorner)
         == Add(ScalarMul(u, camera.horizontal), ScalarMul(v, camera.vertical))
  {
    Rays.New(camera.origin,
             Add(Add(camera.lowerLeftCorner, ScalarMul(u, camera.horizontal)),
                 ScalarMul(v, camera.vertical)))
  }

  /** For a camera built by `Camera::new`, viewport coordinates (u, v) map to the point
      at fractions u and v across the viewport's width and height, one focal length
      ahead of the eye. */
  lemma GetRayThroughViewport(viewport: Viewport, u: real, v: real)
    ensures GetRay(NewCamera(viewport), u, v).origin == Vec3(0.0, 0.0, 0.0)
    ensures GetRay(NewCamera(viewport), u, v).direction
         == Vec3((u - 0.5) * viewport.width, (v - 0.5) * viewport.height, -viewport.focalLength)
  {
    var c := NewCamera(viewport);
    var d := GetRay(c, u, v).direction;
    var w, h := viewport.width, viewport.height;
    assert d.x == -w / 2.0 + u * w;
    assert d.y == -h / 2.0 + v * h;
    assert (u - 0.5) * w == u * w - w / 2.0;
    assert (v - 0.5) * h == v * h - h / 2.0;
  }

  /** (0, 0) is the lower-left corner, (1/2, 1/2) the centre of the viewport and
      (1, 1) its upper-right corner. */
  lemma GetRayCorners(viewport: Viewport)
    ensures GetRay(NewCamera(viewport), 0.0, 0.0).direction == NewCamera(viewport).lowerLeftCorner
    ensures GetRay(NewCamera(viewport), 0.5, 0.5).direction == Vec3(0.0, 0.0, -viewport.focalLength)
    ensures GetRay(NewCamera(viewport), 1.0, 1.0).direction
         == Vec3(viewport.width / 2.0, viewport.height / 2.0, -viewport.focalLength)
  {
    GetRayThroughViewport(viewport, 0.0, 0.0);
    GetRayThroughViewport(viewport, 0.5, 0.5);
    GetRayThroughViewport(viewport, 1.0, 1.0);
  }
}
