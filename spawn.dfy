/**
 * The body addLetter of src/index.js creates for an accepted key: a circle
 * of radius 30 with the key's sprite, placed at the key's position, and
 * the force applied to it. In normal mode the force is a small horizontal
 * jitter taken from the clock plus an upward kick scaled by the viewport
 * height; in rain mode the body is moved above the viewport and gets no
 * force, so it falls under gravity alone.
 *
 * The clock (`Date.now()`, milliseconds) is a parameter, and the
 * arithmetic is exact over the reals.
 */
module Spawn {
  import Images

  datatype Vec = Vec(x: real, y: real)

  /** What Bodies.circle, Body.setPosition and Body.applyForce leave for one key. */
  datatype Ball = Ball(texture: string, position: Vec, force: Vec, radius: real, restitution: real, friction: real)

  const RADIUS := 30.0
  const RESTITUTION := 0.9
  const FRICTION := 0.001
  /** The y coordinate a body is moved to in rain mode. */
  const RAIN_TOP := -30.0

  /** `(Date.now() % 10) * 0.004 - 0.02`. */
  function Jitter(clock: nat): real {
    (clock % 10) as real * 0.004 - 0.02
  }

  /** `-1 * HEIGHT / 3600`. */
  function Kick(height: int): real {
    -1.0 * height as real / 3600.0
  }

  /** The body addLetter(key, x, y) adds to the world. */
  function NewBall(key: string, x: real, y: real, height: int, rainMode: bool, clock: nat): Ball {
    var position := if rainMode then Vec(x, RAIN_TOP) else Vec(x, y);
    var force := if rainMode then Vec(0.0, 0.0) else Vec(Jitter(clock), Kick(height));
    Ball(Images.ImagePath(key), position, force, RADIUS, RESTITUTION, FRICTION)
  }

  /** The jitter lies between -0.02 and 0.016 and depends only on the clock's last decimal digit. */
  lemma JitterRange(clock: nat)
    ensures -0.02 <= Jitter(clock) <= 0.016
    ensures Jitter(clock) == Jitter(clock % 10)
    ensures Jitter(clock + 10) == Jitter(clock)
  {
    assert (clock + 10) % 10 == clock % 10;
  }

  /**
   * In normal mode the body starts where it was created and is pushed up by
   * exactly -HEIGHT/3600, whatever the clock; only the horizontal part
   * depends on the clock.
   */
  lemma NormalLaunch(key: string, x: real, y: real, height: int, clock: nat, clock': nat)
    ensures var b := NewBall(key, x, y, height, false, clock);
            var b' := NewBall(key, x, y, height, false, clock');
            b.position == Vec(x, y) && b.force.y == -(height as real) / 3600.0 &&
            b.force.y == b'.force.y && -0.02 <= b.force.x <= 0.016
  {
    JitterRange(clock);
  }

  /** A positive height gives an upward kick, stronger for a taller viewport. */
  lemma KickUpward(height: int, height': int)
    requires 0 < height < height'
    ensures Kick(height') < Kick(height) < 0.0
  {
  }

  /** In rain mode the body is moved to y = -30 above its key and gets no force, whatever the clock and height. */
  lemma RainLaunch(key: string, x: real, y: real, height: int, clock: nat)
    ensures var b := NewBall(key, x, y, height, true, clock);
            b.position == Vec(x, RAIN_TOP) && b.force == Vec(0.0, 0.0)
  {
  }

  /** Every body is a circle of radius 30 with restitution 0.9, friction 0.001 and the key's sprite. */
  lemma BallShape(key: string, x: real, y: real, height: int, rainMode: bool, clock: nat)
    ensures var b := NewBall(key, x, y, height, rainMode, clock);
            b.texture == Images.ImagePath(key) && b.radius == 30.0 && b.restitution == 0.9 && b.friction == 0.001
  {
  }

  /** Key "A" at x = 120 with a viewport 800 high, in normal mode: a body at (120, 750) kicked by -800/3600. */
  lemma SpawnExample(clock: nat)
    ensures var b := NewBall("A", 120.0, (800 - 50) as real, 800, false, clock);
            b.position == Vec(120.0, 750.0) && b.force.y == -800.0 / 3600.0
  {
  }
}
