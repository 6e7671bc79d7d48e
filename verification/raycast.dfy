/**
 * The end of each ray of main.normless.c's main loop: of the two wall hits
 * found along the ray (one stepping across horizontal grid lines, labelled
 * "vertical" in the source, one across vertical grid lines), the ray keeps
 * the nearer. Finding the hits is float trigonometry and is not modelled;
 * the hits are inputs.
 */
module RayCast {
  import opened Geometry

  /** One candidate hit: where it is, how far from the player, and the level cell it hit. */
  datatype Hit = Hit(position: Vec2, distance: real, texture: char)

  /** t_ray: the chosen hit, the ray's angle and the side (0 vertical candidate, 1 horizontal). */
  datatype Ray = Ray(position: Vec2, angle: real, distance: real, side: int, texture: char)

  /** The ray built from one candidate. */
  function FromHit(h: Hit, angle: real, side: int): Ray
  {
    Ray(h.position, angle, h.distance, side, h.texture)
  }

  /**
   * The four assignments of the ray. Each tests vertical < horizontal, so
   * the vertical candidate wins only when strictly nearer and a tie goes to
   * the horizontal one. The ray is one candidate whole, never a mix: its
   * position, distance and texture all come from the hit its side names, and
   * that hit is the nearer.
   */
  function SelectRay(vertical: Hit, horizontal: Hit, angle: real): (ray: Ray)
    ensures ray.side == 0 <==> vertical.distance < horizontal.distance
    ensures ray == FromHit(if ray.side == 0 then vertical else horizontal, angle, ray.side)
    ensures ray.side == 0 || ray.side == 1
    ensures ray.distance <= vertical.distance && ray.distance <= horizontal.distance
  {
    Ray(if vertical.distance < horizontal.distance then vertical.position else horizontal.position,
        angle,
        if vertical.distance < horizontal.distance then vertical.distance else horizontal.distance,
        if vertical.distance < horizontal.distance then 0 else 1,
        if vertical.distance < horizontal.distance then vertical.texture else horizontal.texture)
  }
}
