/**
 * Player movement of main.normless.c: move_player and handle_collisions.
 *
 * handle_collisions probes a small grid of offsets around a position and
 * reacts to the first probe that lands on a solid texture. What it then does
 * depends only on whether some probe was solid, not on which, so the whole
 * probe test is the predicate `blocked`, a parameter: it stands for "some
 * probe around this position reads a solid cell of the level".
 */
module Movement {
  import opened Geometry

  /** The fallback moves of a blocked step, in order: its x part alone, then its y part alone. */
  function Slides(back: Vec2, d: Vec2): seq<Vec2>
  {
    [Vec2(back.x + d.x, back.y), Vec2(back.x, back.y + d.y)]
  }

  /** The three moves tried, in order: the full step, then the slides. */
  function Candidates(back: Vec2, d: Vec2): seq<Vec2>
  {
    [Add(back, d)] + Slides(back, d)
  }

  /** The first position of `cs` that is not blocked, or `fallback` if all are. */
  function FirstClear(blocked: Vec2 -> bool, cs: seq<Vec2>, fallback: Vec2): (r: Vec2)
    ensures if exists i :: 0 <= i < |cs| && !blocked(cs[i]) then r in cs && !blocked(r) else r == fallback
  {
    if cs == [] then fallback
    else if !blocked(cs[0]) then cs[0]
    else FirstClear(blocked, cs[1..], fallback)
  }

  /**
   * Where a move by d from back ends: the first clear candidate, or back
   * itself. It ends on a clear position unless every candidate is blocked,
   * and then exactly where it started.
   */
  function Resolve(blocked: Vec2 -> bool, back: Vec2, d: Vec2): (r: Vec2)
    ensures !blocked(r) || (r == back && forall c :: c in Candidates(back, d) ==> blocked(c))
  {
    FirstClear(blocked, Candidates(back, d), back)
  }

  /**
   * The order of preference: the full step when it is clear, else the x step
   * when it is clear, else the y step when it is clear, else no move at all.
   */
  lemma ResolveOrder(blocked: Vec2 -> bool, back: Vec2, d: Vec2)
    ensures var full, xs, ys := Add(back, d), Vec2(back.x + d.x, back.y), Vec2(back.x, back.y + d.y);
      Resolve(blocked, back, d)
      == if !blocked(full) then full else if !blocked(xs) then xs else if !blocked(ys) then ys else back
  {
    var full, xs, ys := Add(back, d), Vec2(back.x + d.x, back.y), Vec2(back.x, back.y + d.y);
    var cs := Candidates(back, d);
    assert cs == [full, xs, ys];
    assert cs[1..] == [xs, ys] && cs[1..][1..] == [ys] && cs[1..][1..][1..] == [];
    assert FirstClear(blocked, [ys], back) == if !blocked(ys) then ys else back;
    assert FirstClear(blocked, [xs, ys], back) == if !blocked(xs) then xs else FirstClear(blocked, [ys], back);
  }

  /** Each coordinate either keeps its value or takes the whole step along it: no partial steps. */
  lemma ResolveAxes(blocked: Vec2 -> bool, back: Vec2, d: Vec2)
    ensures var r := Resolve(blocked, back, d);
      (r.x == back.x || r.x == back.x + d.x) && (r.y == back.y || r.y == back.y + d.y)
  {
    ResolveOrder(blocked, back, d);
  }

  /** A zero step leaves the player in place, blocked or not. */
  lemma ResolveStill(blocked: Vec2 -> bool, back: Vec2)
    ensures Resolve(blocked, back, Vec2(0.0, 0.0)) == back
  {
    ResolveOrder(blocked, back, Vec2(0.0, 0.0));
  }

  /** The player of t_sdl_master; only its position is written here. */
  class Player {
    var position: Vec2

    constructor (position: Vec2)
      ensures this.position == position
    {
      this.position := position;
    }

    /**
     * handle_collisions: 0 when the move is accepted, 1 when it is refused.
     * At depth 0 a blocked position makes it try the x step and then the y
     * step through one nested call each (depth 1, which only tests), and
     * store the first that is clear. It never recurses deeper than depth 1.
     */
    method HandleCollisions(blocked: Vec2 -> bool, depth: int, probe: Vec2, back: Vec2, direction: Vec2)
      returns (r: int)
      modifies this
      ensures r == 0 || r == 1
      ensures depth != 0 ==> r == (if blocked(probe) then 1 else 0) && position == old(position)
      ensures depth == 0 && !blocked(probe) ==> r == 0 && position == old(position)
      ensures depth == 0 && blocked(probe) ==>
        var slides := Slides(back, direction);
        (r == 0 <==> exists i :: 0 <= i < |slides| && !blocked(slides[i]))
        && position == if r == 0 then FirstClear(blocked, slides, back) else old(position)
      decreases if depth == 0 then 1 else 0
    {
      if !blocked(probe) {
        return 0;
      }
      if depth != 0 {
        return 1;
      }
      var xs := Vec2(back.x + direction.x, back.y);
      var nested := HandleCollisions(blocked, depth + 1, xs, back, direction);
      var ys := Vec2(back.x, back.y + direction.y);
      assert Slides(back, direction) == [xs, ys] && [xs, ys][1..] == [ys] && [ys][1..] == [];
      if nested == 0 {
        assert !blocked(Slides(back, direction)[0]);
        position := xs;
        return 0;
      }
      nested := HandleCollisions(blocked, depth + 1, ys, back, direction);
      if nested == 0 {
        assert !blocked(Slides(back, direction)[1]);
        position := ys;
        return 0;
      }
      return 1;
    }

    /**
     * move_player: take the full step, let handle_collisions resolve it, and
     * go back to the old position if it refuses. The player ends at
     * Resolve of the old position and the step; a player on a clear position
     * never moves onto a blocked one.
     */
    method MovePlayer(blocked: Vec2 -> bool, x: real, y: real)
      modifies this
      ensures position == Resolve(blocked, old(position), Vec2(x, y))
      ensures !blocked(old(position)) ==> !blocked(position)
    {
      var back := position;
      position := Vec2(position.x + x, position.y + y);
      var refused := HandleCollisions(blocked, 0, position, back, Vec2(x, y));
      if refused != 0 {
        position := back;
      }
      ResolveOrder(blocked, back, Vec2(x, y));
    }
  }
}
