/**
 * t_vec2 of main.normless.c, with its float coordinates taken as reals:
 * rounding of the float additions is not modelled.
 */
module Geometry {
  datatype Vec2 = Vec2(x: real, y: real)

  function Add(a: Vec2, b: Vec2): Vec2
  {
    Vec2(a.x + b.x, a.y + b.y)
  }
}
