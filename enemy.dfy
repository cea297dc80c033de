/** An enemy square and its per-tick bounce integration
    (`Enemy.updatePosition`). */
module Enemies {
  import opened Geometry

  /** Position and velocity along one axis. */
  datatype AxisState = AxisState(pos: real, vel: real)

  /** Position and velocity of an enemy, as a value. */
  datatype Motion = Motion(position: Vec, velocity: Vec)

  /** A square of edge `size` at `pos` leaves the interior [border, extent - border]. */
  predicate LeavesInterior(pos: real, extent: real, size: real, border: real)
  {
    pos < border || pos + size > extent - border
  }

  /** One axis of `updatePosition`: move by the velocity; if the candidate
      leaves the interior, stop at the border it crossed and reverse. */
  function BounceAxis(pos: real, vel: real, extent: real, size: real, border: real): (r: AxisState)
    // With room for the square, the new position is inside the interior and
    // is the candidate clamped to it.
    ensures extent - 2.0 * border >= size ==>
              border <= r.pos <= extent - border - size
              && r.pos == Clamp(pos + vel, border, extent - border - size)
    // The velocity is reversed exactly when the candidate leaves the interior ...
    ensures LeavesInterior(pos + vel, extent, size, border) ==> r.vel == -vel
    // ... and otherwise the square moves freely with its velocity kept.
    ensures !LeavesInterior(pos + vel, extent, size, border) ==> r == AxisState(pos + vel, vel)
    // Only the sign of the velocity ever changes.
    ensures Abs(r.vel) == Abs(vel)
  {
    var candidate := pos + vel;
    if candidate < border then AxisState(border, -vel)
    else if candidate + size > extent - border then AxisState(extent - border - size, -vel)
    else AxisState(candidate, vel)
  }

  /** The square at `p` lies inside the bordered arena. */
  predicate InsideArena(p: Vec, width: real, height: real, size: real, border: real)
  {
    border <= p.x <= width - border - size && border <= p.y <= height - border - size
  }

  /** `updatePosition` on values: the two axes are bounced independently. */
  function Advance(m: Motion, width: real, height: real, size: real, border: real): (r: Motion)
    ensures width - 2.0 * border >= size && height - 2.0 * border >= size ==>
              InsideArena(r.position, width, height, size, border)
    ensures Abs(r.velocity.x) == Abs(m.velocity.x) && Abs(r.velocity.y) == Abs(m.velocity.y)
    ensures AxisState(r.position.x, r.velocity.x) == BounceAxis(m.position.x, m.velocity.x, width, size, border)
    ensures AxisState(r.position.y, r.velocity.y) == BounceAxis(m.position.y, m.velocity.y, height, size, border)
  {
    var ax := BounceAxis(m.position.x, m.velocity.x, width, size, border);
    var ay := BounceAxis(m.position.y, m.velocity.y, height, size, border);
    Motion(Vec(ax.pos, ay.pos), Vec(ax.vel, ay.vel))
  }

  /** The motion after `n` ticks; after at least one tick the square is
      inside the arena whenever it fits. */
  function AdvanceN(m: Motion, n: nat, width: real, height: real, size: real, border: real): (r: Motion)
    ensures n > 0 && width - 2.0 * border >= size && height - 2.0 * border >= size ==>
              InsideArena(r.position, width, height, size, border)
  {
    if n == 0 then m else Advance(AdvanceN(m, n - 1, width, height, size, border), width, height, size, border)
  }

  /** However many ticks pass, an enemy keeps its speed on each axis: bounces
      only reverse its direction. */
  lemma {:induction false} AdvanceNKeepsSpeed(m: Motion, n: nat, width: real, height: real, size: real, border: real)
    ensures Abs(AdvanceN(m, n, width, height, size, border).velocity.x) == Abs(m.velocity.x)
    ensures Abs(AdvanceN(m, n, width, height, size, border).velocity.y) == Abs(m.velocity.y)
  {
    if n > 0 {
      AdvanceNKeepsSpeed(m, n - 1, width, height, size, border);
    }
  }

  /** A corner hit flips both components: the axes are decided separately. */
  lemma CornerBounce()
    ensures Advance(Motion(Vec(45.0, 45.0), Vec(-10.0, -10.0)), 400.0, 400.0, 60.0, 40.0)
            == Motion(Vec(40.0, 40.0), Vec(10.0, 10.0))
  {
  }

  /** Moving away from the border does not bounce, even from a start outside
      the interior: (35, 35) with velocity (10, 10) only moves to (45, 45). */
  lemma NoBounceWhenCandidateInside()
    ensures Advance(Motion(Vec(35.0, 35.0), Vec(10.0, 10.0)), 400.0, 400.0, 60.0, 40.0)
            == Motion(Vec(45.0, 45.0), Vec(10.0, 10.0))
  {
  }

  /** `data class Enemy(var position, var velocity)`. */
  class Enemy {
    var position: Vec
    var velocity: Vec

    constructor (position: Vec, velocity: Vec)
      ensures this.position == position && this.velocity == velocity
    {
      this.position := position;
      this.velocity := velocity;
    }

    function State(): Motion
      reads this
    {
      Motion(position, velocity)
    }

    /** Moves the enemy one tick, bouncing off the arena border. */
    method UpdatePosition(screenWidth: real, screenHeight: real, size: real, borderWidth: real)
      modifies this
      ensures State() == Advance(old(State()), screenWidth, screenHeight, size, borderWidth)
      ensures screenWidth - 2.0 * borderWidth >= size && screenHeight - 2.0 * borderWidth >= size ==>
                InsideArena(position, screenWidth, screenHeight, size, borderWidth)
    {
      var newX := position.x + velocity.x;
      var newY := position.y + velocity.y;
      var x, y;
      if newX < borderWidth {
        x := borderWidth;
        velocity := velocity.(x := -velocity.x);
      } else if newX + size > screenWidth - borderWidth {
        x := screenWidth - borderWidth - size;
        velocity := velocity.(x := -velocity.x);
      } else {
        x := newX;
      }
      if newY < borderWidth {
        y := borderWidth;
        velocity := velocity.(y := -velocity.y);
      } else if newY + size > screenHeight - borderWidth {
        y := screenHeight - borderWidth - size;
        velocity := velocity.(y := -velocity.y);
      } else {
        y := newY;
      }
      position := Vec(x, y);
    }
  }
}
