/** The discrete decisions of one tick of `update` (game.js:152-209), as
    functions of the particle they act on. The motion itself enters as
    inputs: a ball's sub-step displacement is its velocity times the scale
    `deltaTime / ballSpeed`, and debris moves by its velocity times
    `deltaTime` under constant gravity. */
module Physics {
  import opened Particles
  import opened Geometry
  import opened Sweep

  /** Gravity added to a falling block's `vy` per unit of `deltaTime`. */
  const GRAVITY: real := 0.1
  /** The `vy` a struck block starts falling with. */
  const DEBRIS_VY: real := 1.0

  /** `parseInt` of a coordinate: truncation toward zero. */
  function ParseInt(r: real): (n: int)
    ensures r >= 0.0 ==> n >= 0 && n as real <= r < n as real + 1.0
    ensures r < 0.0 ==> n <= 0 && n as real - 1.0 < r <= n as real
  {
    if r >= 0.0 then r.Floor else -((-r).Floor)
  }

  /** One sub-step of a ball's motion: `x += vx * deltaTime / ballSpeed`,
      likewise for `y`, with `scale` standing for `deltaTime / ballSpeed`. */
  function Advance(p: Particle, scale: real): (r: Particle)
    ensures r == p.(x := r.x, y := r.y)
    ensures r.x - p.x == p.vx * scale && r.y - p.y == p.vy * scale
  {
    p.(x := p.x + p.vx * scale, y := p.y + p.vy * scale)
  }

  /** Wall reflection (game.js:167-172): `vx` turns back when the ball is
      past the left or right edge and moving outward, `vy` when it is above
      the top edge and moving up. Past the left edge the ball thus always
      ends moving right, past the right edge moving left, above the top
      moving down; inside the field nothing changes. */
  function Reflect(p: Particle): (r: Particle)
    ensures r == p.(vx := r.vx, vy := r.vy)
    ensures p.x < 0.0 ==> r.vx == Abs(p.vx)
    ensures p.x > WIDTH as real ==> r.vx == -Abs(p.vx)
    ensures 0.0 <= p.x <= WIDTH as real ==> r.vx == p.vx
    ensures p.y < 0.0 ==> r.vy == Abs(p.vy)
    ensures p.y >= 0.0 ==> r.vy == p.vy
  {
    var vx := if (p.x < 0.0 && p.vx < 0.0) || (p.x > WIDTH as real && p.vx > 0.0) then -p.vx else p.vx;
    var vy := if p.y < 0.0 && p.vy < 0.0 then -p.vy else p.vy;
    p.(vx := vx, vy := vy)
  }

  /** A wall check never leaves a ball outside an edge and still moving
      away from the field. */
  lemma ReflectNeverOutward(p: Particle)
    ensures var r := Reflect(p);
      && !(r.x < 0.0 && r.vx < 0.0)
      && !(r.x > WIDTH as real && r.vx > 0.0)
      && !(r.y < 0.0 && r.vy < 0.0)
  {
  }

  /** Whether a ball meets the paddle: only once it is below the paddle's
      top edge (game.js:176-177). */
  predicate OnPaddle(p: Particle, bar: Rect)
  {
    p.y > bar.y && HitTestPoint(bar, p.x, p.y)
  }

  /** Paddle bounce (game.js:176-179): on the paddle, `vy := -|vy|`, so the
      ball always leaves upward; elsewhere nothing changes. */
  function Bounce(p: Particle, bar: Rect): (r: Particle)
    ensures r == p.(vy := r.vy)
    ensures OnPaddle(p, bar) ==> r.vy <= 0.0 && Abs(r.vy) == Abs(p.vy)
    ensures !OnPaddle(p, bar) ==> r == p
  {
    if OnPaddle(p, bar) then p.(vy := -Abs(p.vy)) else p
  }

  /** The ball after one sub-step's decisions, given where it moved and
      whether it struck a live block there: a strike reverses `vy`
      (game.js:165), then the walls and the paddle act. */
  function Decide(moved: Particle, struck: bool, bar: Rect): (r: Particle)
    ensures r == moved.(vx := r.vx, vy := r.vy)
  {
    Bounce(Reflect(if struck then moved.(vy := -moved.vy) else moved), bar)
  }

  /** Away from the walls and the paddle, a sub-step's only decision is the
      strike's: `vy` turns exactly when the ball struck a block, and `vx`
      is kept. */
  lemma DecideStrike(moved: Particle, struck: bool, bar: Rect)
    requires 0.0 <= moved.x <= WIDTH as real && moved.y >= 0.0 && !OnPaddle(moved, bar)
    ensures Decide(moved, struck, bar).vx == moved.vx
    ensures Decide(moved, struck, bar).vy == if struck then -moved.vy else moved.vy
  {
  }

  /** The decisions only turn velocity components around: position,
      identity, colour and both speeds are kept, so the sub-step count the
      source computed from the speed at the start of the tick stays right. */
  lemma DecideKeepsSpeed(moved: Particle, struck: bool, bar: Rect)
    ensures var r := Decide(moved, struck, bar);
      && r == moved.(vx := r.vx, vy := r.vy)
      && Abs(r.vx) == Abs(moved.vx) && Abs(r.vy) == Abs(moved.vy)
      && r.vx * r.vx + r.vy * r.vy == moved.vx * moved.vx + moved.vy * moved.vy
  {
    var s := if struck then moved.(vy := -moved.vy) else moved;
    var r := Decide(moved, struck, bar);
    assert Abs(s.vy) == Abs(moved.vy);
    assert Abs(r.vx) == Abs(moved.vx) && Abs(r.vy) == Abs(moved.vy);
    assert r.vx * r.vx == Abs(r.vx) * Abs(r.vx) == moved.vx * moved.vx;
    assert r.vy * r.vy == Abs(r.vy) * Abs(r.vy) == moved.vy * moved.vy;
  }

  /** `speed` is `Math.sqrt(vx * vx + vy * vy)` of ball `p`. */
  ghost predicate IsSpeedOf(speed: real, p: Particle)
  {
    speed >= 0.0 && speed * speed == p.vx * p.vx + p.vy * p.vy
  }

  /** A ball's speed is the same after every sub-step. */
  lemma SubStepKeepsSpeed(speed: real, p: Particle, scale: real, struck: bool, bar: Rect)
    requires IsSpeedOf(speed, p)
    ensures IsSpeedOf(speed, Decide(Advance(p, scale), struck, bar))
  {
    DecideKeepsSpeed(Advance(p, scale), struck, bar);
  }

  /** A ball on the paddle after a sub-step leaves it moving up or level,
      whether or not it also struck a block. */
  lemma DecideOnPaddle(moved: Particle, struck: bool, bar: Rect)
    requires OnPaddle(moved, bar)
    ensures Decide(moved, struck, bar).vy <= 0.0
  {
    var s := if struck then moved.(vy := -moved.vy) else moved;
    assert Reflect(s).x == moved.x && Reflect(s).y == moved.y;
  }

  /** The falling block a strike releases (game.js:161-164): the block
      itself, given the scattered `vx` and `vy = 1`; its colour is kept. */
  function Debris(block: Particle, scatter: real): (d: Particle)
    ensures d == block.(vx := d.vx, vy := d.vy)
    ensures d.vx == scatter && d.vy == DEBRIS_VY
  {
    block.(vx := scatter, vy := DEBRIS_VY)
  }

  /** One tick of a falling block's motion (game.js:194-196). */
  function Fall(p: Particle, deltaTime: real): Particle
  {
    var vy := p.vy + GRAVITY * deltaTime;
    p.(vy := vy, x := p.x + p.vx * deltaTime, y := p.y + vy * deltaTime)
  }

  /** Gravity first: `vy` grows by `0.1 * deltaTime`, and the block then
      moves by its velocity with the new `vy`, its `vx` unchanged. */
  lemma FallMotion(p: Particle, deltaTime: real)
    ensures var r := Fall(p, deltaTime);
      && r == p.(vy := r.vy, x := r.x, y := r.y) && r.vx == p.vx
      && r.vy - p.vy == GRAVITY * deltaTime
      && r.x - p.x == p.vx * deltaTime && r.y - p.y == r.vy * deltaTime
  {
  }

  /** Every falling block after one tick of its motion, in order. */
  function FallAll(fs: seq<Particle>, deltaTime: real): (r: seq<Particle>)
    ensures |r| == |fs|
    ensures forall i :: 0 <= i < |r| ==> r[i].id == fs[i].id && r[i].color == fs[i].color
  {
    seq(|fs|, i requires 0 <= i < |fs| => Fall(fs[i], deltaTime))
  }

  /** A list holding, position by position, the fallen blocks of `fs` is
      `FallAll(fs)`. */
  lemma FallAllIs(fs: seq<Particle>, moved: seq<Particle>, deltaTime: real)
    requires |moved| == |fs| && forall k :: 0 <= k < |moved| ==> moved[k] == Fall(fs[k], deltaTime)
    ensures moved == FallAll(fs, deltaTime)
  {
  }

  /** The paddle catches a falling block anywhere in its closed rectangle. */
  predicate Caught(p: Particle, bar: Rect)
  {
    HitTestPoint(bar, p.x, p.y)
  }

  /** A falling block is marked when caught or once below the field. */
  predicate Expires(p: Particle, bar: Rect)
  {
    Caught(p, bar) || p.y > HEIGHT as real
  }

  /** The ball a caught block turns into (game.js:200-203): at the block's
      position, in its colour, with `vx = 10u` and `vy = 9v + 1` for the two
      uniform draws `u`, `v`. */
  function NewBall(p: Particle, id: nat, u: real, v: real): (b: Particle)
    ensures 0.0 <= u < 1.0 && 0.0 <= v < 1.0 ==> 0.0 <= b.vx < 10.0 && 1.0 <= b.vy < 10.0
  {
    Particle(id, p.x, p.y, u * 10.0, v * 9.0 + 1.0, p.color)
  }

  /** The falling blocks of `fs` the paddle catches, in order. */
  function CaughtOf(fs: seq<Particle>, bar: Rect): (r: seq<Particle>)
    ensures |r| <= |fs|
    ensures forall p :: p in r <==> p in fs && Caught(p, bar)
  {
    if fs == [] then []
    else CaughtOf(fs[..|fs| - 1], bar) + (if Caught(fs[|fs| - 1], bar) then [fs[|fs| - 1]] else [])
  }

  /** The balls the debris pass appends, for falling blocks `fs` already
      moved: one per caught block, the one at position `k` drawing
      `ux(k)`, `uy(k)`, identities counting up from `base`. */
  function Spawned(fs: seq<Particle>, bar: Rect, ux: nat -> real, uy: nat -> real, base: nat): seq<Particle>
  {
    if fs == [] then []
    else
      var prev := Spawned(fs[..|fs| - 1], bar, ux, uy, base);
      var p := fs[|fs| - 1];
      if Caught(p, bar) then prev + [NewBall(p, base + |prev|, ux(|fs| - 1), uy(|fs| - 1))] else prev
  }

  /** The marks the debris pass pushes, in order. */
  function Expired(fs: seq<Particle>, bar: Rect): seq<nat>
  {
    if fs == [] then []
    else Expired(fs[..|fs| - 1], bar) + (if Expires(fs[|fs| - 1], bar) then [fs[|fs| - 1].id] else [])
  }

  /** Moving one more block through the debris pass appends at most one
      ball, whose identity follows the ones already spawned. */
  lemma SpawnedStep(fs: seq<Particle>, p: Particle, bar: Rect, ux: nat -> real, uy: nat -> real, base: nat)
    ensures var prev := Spawned(fs, bar, ux, uy, base);
            Spawned(fs + [p], bar, ux, uy, base)
              == prev + (if Caught(p, bar) then [NewBall(p, base + |prev|, ux(|fs|), uy(|fs|))] else [])
  {
    assert (fs + [p])[..|fs|] == fs;
  }

  /** Moving one more block through the debris pass pushes at most its own
      mark. */
  lemma ExpiredStep(fs: seq<Particle>, p: Particle, bar: Rect)
    ensures Expired(fs + [p], bar) == Expired(fs, bar) + (if Expires(p, bar) then [p.id] else [])
  {
    assert (fs + [p])[..|fs|] == fs;
  }

  /** Moving block `k` of the list to `p` extends the prefix before it by
      `p`, so the balls after `ps` and the marks after `ms` grow by `p`'s
      share. */
  lemma DebrisStepPrefix(fs: seq<Particle>, k: nat, p: Particle, bar: Rect, ux: nat -> real, uy: nat -> real,
                         base: nat, ps: seq<Particle>, ms: seq<nat>)
    requires k < |fs|
    ensures fs[k := p][..k] == fs[..k]
    ensures var prev := Spawned(fs[..k], bar, ux, uy, base);
            ps + Spawned(fs[k := p][..k + 1], bar, ux, uy, base)
              == ps + prev + (if Caught(p, bar) then [NewBall(p, base + |prev|, ux(k), uy(k))] else [])
    ensures ms + Expired(fs[k := p][..k + 1], bar)
              == ms + Expired(fs[..k], bar) + (if Expires(p, bar) then [p.id] else [])
  {
    assert fs[k := p][..k + 1] == fs[..k] + [p];
    SpawnedStep(fs[..k], p, bar, ux, uy, base);
    ExpiredStep(fs[..k], p, bar);
  }

  /** Each caught block adds exactly one ball, in the order of the blocks,
      at the block's position and in its colour, with fresh consecutive
      identities and velocities in `[0, 10)` and `[1, 10)`. */
  lemma {:induction false} SpawnedMatchesCaught(fs: seq<Particle>, bar: Rect, ux: nat -> real, uy: nat -> real, base: nat)
    requires forall n :: 0.0 <= ux(n) < 1.0 && 0.0 <= uy(n) < 1.0
    ensures |Spawned(fs, bar, ux, uy, base)| == |CaughtOf(fs, bar)|
    ensures forall i :: 0 <= i < |CaughtOf(fs, bar)| ==>
              var b, c := Spawned(fs, bar, ux, uy, base)[i], CaughtOf(fs, bar)[i];
              && b.x == c.x && b.y == c.y && b.color == c.color && b.id == base + i
              && 0.0 <= b.vx < 10.0 && 1.0 <= b.vy < 10.0
  {
    if fs != [] {
      SpawnedMatchesCaught(fs[..|fs| - 1], bar, ux, uy, base);
    }
  }

  /** A block is marked by the debris pass exactly when it expires. */
  lemma {:induction false} ExpiredMembers(fs: seq<Particle>, bar: Rect, id: nat)
    ensures id in Expired(fs, bar) <==> exists k :: 0 <= k < |fs| && fs[k].id == id && Expires(fs[k], bar)
  {
    if fs != [] {
      var init := fs[..|fs| - 1];
      ExpiredMembers(init, bar, id);
      assert forall k :: 0 <= k < |init| ==> init[k] == fs[k];
      if id in Expired(fs, bar) && id !in Expired(init, bar) {
        assert fs[|fs| - 1].id == id && Expires(fs[|fs| - 1], bar);
      }
    }
  }

  /** After the debris pass and its sweep exactly the falling blocks that
      were neither caught nor below the field remain. */
  lemma SurvivorsOfDebrisPass(fs: seq<Particle>, bar: Rect, marks: seq<nat>, p: Particle)
    requires DistinctIds(fs)
    requires forall id :: id in marks <==> id in Expired(fs, bar)
    ensures p in Without(fs, marks) <==> p in fs && !Expires(p, bar)
  {
    WithoutMembers(fs, marks, p);
    ExpiredMembers(fs, bar, p.id);
    if p in fs && p.id in marks {
      var k :| 0 <= k < |fs| && fs[k].id == p.id && Expires(fs[k], bar);
      var j :| 0 <= j < |fs| && fs[j] == p;
      assert j == k;
    }
  }
}
