/** The game object (class `RainbowBrickBreaker`, game.js:81-263) without
    its canvas: the block grid, the paddle position, the balls, the falling
    blocks and the two mark lists, with the mouse handler and one tick of
    `update`. */
module Game {
  import opened Wrappers
  import opened Particles
  import opened Grid
  import opened Geometry
  import opened Sweep
  import opened Physics
  import opened Tick

  /** Every identity in `ps` was issued before `next`. */
  ghost predicate IdsBelow(ps: seq<Particle>, next: nat)
  {
    forall i :: 0 <= i < |ps| ==> ps[i].id < next
  }

  /** Every falling block names a grid slot that is already empty. */
  ghost predicate SlotsCleared(fs: seq<Particle>, slots: seq<Option<Particle>>)
  {
    forall i :: 0 <= i < |fs| ==> fs[i].id < |slots| && slots[fs[i].id].None?
  }

  /** A strike keeps the falling blocks distinct and their slots empty: the
      struck block's slot was live, so no falling block names it. */
  lemma StrikeKeepsDebris(fs: seq<Particle>, slots: seq<Option<Particle>>, k: nat, d: Particle)
    requires DistinctIds(fs) && SlotsCleared(fs, slots)
    requires k < |slots| && slots[k].Some? && d.id == k
    ensures DistinctIds(fs + [d]) && SlotsCleared(fs + [d], slots[k := None])
  {
  }

  /** A falling block that moves keeps its identity. */
  lemma FallKeepsDebris(fs: seq<Particle>, slots: seq<Option<Particle>>, k: nat, p: Particle)
    requires DistinctIds(fs) && SlotsCleared(fs, slots)
    requires k < |fs| && p.id == fs[k].id
    ensures DistinctIds(fs[k := p]) && SlotsCleared(fs[k := p], slots)
  {
  }

  /** Replacing a particle by a new state of the same object keeps the
      identities distinct and issued. */
  lemma SameIdKeepsIds(ps: seq<Particle>, k: nat, p: Particle, next: nat)
    requires DistinctIds(ps) && IdsBelow(ps, next)
    requires k < |ps| && p.id == ps[k].id
    ensures DistinctIds(ps[k := p]) && IdsBelow(ps[k := p], next)
  {
  }

  /** A ball with the next identity keeps the balls distinct. */
  lemma NewBallKeepsIds(balls: seq<Particle>, next: nat, nb: Particle)
    requires DistinctIds(balls) && IdsBelow(balls, next) && nb.id == next
    ensures DistinctIds(balls + [nb]) && IdsBelow(balls + [nb], next + 1)
  {
  }

  class RainbowBrickBreaker {
    const blocks: Blocks
    /** The paddle's left edge, written only by the mouse handler. */
    var barX: real
    var balls: seq<Particle>
    var fallBlocks: seq<Particle>
    var removedBalls: seq<nat>
    var removedFallBlocks: seq<nat>
    /** The identity the next new ball gets. */
    var nextBallId: nat

    /** The game invariant: a valid 465 x 100 grid, the paddle inside the
        field, balls and falling blocks each distinct objects, every ball
        identity issued, and every falling block's slot already cleared. */
    ghost predicate Valid()
      reads this, blocks, blocks.values
    {
      && blocks.Valid() && blocks.width == WIDTH && blocks.height == ROWS
      && 0.0 <= barX <= MAX_BAR_X
      && DistinctIds(balls) && IdsBelow(balls, nextBallId)
      && DistinctIds(fallBlocks) && SlotsCleared(fallBlocks, blocks.values[..])
    }

    /** The game's start (game.js:84-104): a full grid, the paddle centred,
        one white ball in the middle of the field with `vx = 10u` and
        `vy = 9v - 1`, no falling blocks and no marks. */
    constructor (u: real, v: real)
      requires 0.0 <= u < 1.0 && 0.0 <= v < 1.0
      ensures Valid() && fresh(blocks) && fresh(blocks.values)
      ensures blocks.count == WIDTH * ROWS
      ensures barX == (WIDTH as real - BAR_WIDTH) / 2.0
      ensures balls == [Particle(0, WIDTH as real / 2.0, HEIGHT as real / 2.0, u * 10.0, v * 9.0 - 1.0, White)]
      ensures fallBlocks == [] && removedBalls == [] && removedFallBlocks == []
    {
      blocks := new Blocks(WIDTH, ROWS);
      barX := (WIDTH as real - BAR_WIDTH) / 2.0;
      balls := [Particle(0, WIDTH as real / 2.0, HEIGHT as real / 2.0, u * 10.0, v * 9.0 - 1.0, White)];
      fallBlocks := [];
      removedBalls := [];
      removedFallBlocks := [];
      nextBallId := 1;
    }

    /** The mousemove handler (game.js:115-127): centres the paddle under
        the mouse, clamped to the field. */
    method MoveBar(mouseX: real, canvasLeft: real)
      requires Valid()
      modifies this`barX
      ensures Valid()
      ensures barX == ClampBarX(mouseX - canvasLeft - BAR_WIDTH / 2.0)
    {
      var newBarX := mouseX - canvasLeft - BAR_WIDTH / 2.0;
      barX := ClampBarX(newBarX);
    }

    /** The strike of a sub-step (game.js:158-164): when the slot at
        (`cx`, `cy`) holds a live block, the block is removed from the grid
        and falls, keeping its colour, with the scattered `vx`; otherwise
        nothing changes. The result tells the ball whether it struck. */
    method Strike(cx: int, cy: int, scatter: real) returns (struck: bool)
      requires Valid()
      modifies this`fallBlocks, blocks`count, blocks.values
      ensures Valid()
      ensures var cell := old(blocks.GetParticle(cx, cy));
              && struck == cell.IsHit()
              && (struck ==>
                    && fallBlocks == old(fallBlocks) + [Debris(cell.slot.value, scatter)]
                    && blocks.values[..] == old(blocks.values[..])[Index(cx, cy, WIDTH) := None]
                    && blocks.count == old(blocks.count) - 1)
              && (!struck ==>
                    && fallBlocks == old(fallBlocks)
                    && blocks.values[..] == old(blocks.values[..])
                    && blocks.count == old(blocks.count))
    {
      var hitParticle := blocks.GetParticle(cx, cy);
      struck := hitParticle.IsHit();
      if struck {
        var index := Index(cx, cy, WIDTH);
        IndexDecompose(index, WIDTH, ROWS);
        ghost var slots := blocks.values[..];
        var removed := blocks.RemoveParticle(cx, cy);
        StrikeKeepsDebris(fallBlocks, slots, index, Debris(removed.value, scatter));
        fallBlocks := fallBlocks + [Debris(removed.value, scatter)];
      }
    }

    /** One sub-step of ball `b` (game.js:156-179): move it, strike the
        block under it if that slot is live (the block is removed, falls,
        and the ball's `vy` turns), reflect it off the walls, mark it if it
        has left the bottom, bounce it off the paddle. */
    method SubStep(b: nat, scale: real, scatter: real)
      requires Valid() && b < |balls|
      requires -3.0 <= scatter <= 3.0
      modifies this`balls, this`fallBlocks, this`removedBalls, blocks`count, blocks.values
      ensures Valid()
      ensures var moved := Advance(old(balls[b]), scale);
              var cx, cy := ParseInt(moved.x), ParseInt(moved.y);
              var cell := old(blocks.GetParticle(cx, cy));
              && balls == old(balls)[b := Decide(moved, cell.IsHit(), Bar(barX))]
              && removedBalls == old(removedBalls) + (if moved.y > HEIGHT as real then [moved.id] else [])
              && (cell.IsHit() ==>
                    && fallBlocks == old(fallBlocks) + [Debris(cell.slot.value, scatter)]
                    && blocks.values[..] == old(blocks.values[..])[Index(cx, cy, WIDTH) := None]
                    && blocks.count == old(blocks.count) - 1)
              && (!cell.IsHit() ==>
                    && fallBlocks == old(fallBlocks)
                    && blocks.values[..] == old(blocks.values[..])
                    && blocks.count == old(blocks.count))
      ensures Turn(balls[b], World(blocks.values[..], fallBlocks, removedBalls))
                == SubStepTurn(Turn(old(balls[b]), World(old(blocks.values[..]), old(fallBlocks), old(removedBalls))),
                               scale, scatter, Bar(barX))
    {
      var ball := Advance(balls[b], scale);
      var struck := Strike(ParseInt(ball.x), ParseInt(ball.y), scatter);
      if struck {
        ball := ball.(vy := -ball.vy);
      }
      ball := Reflect(ball);
      if ball.y > HEIGHT as real {
        removedBalls := removedBalls + [ball.id];
      }
      ball := Bounce(ball, Bar(barX));
      SameIdKeepsIds(balls, b, ball, nextBallId);
      balls := balls[b := ball];
    }

    /** All sub-steps of ball `b` in one tick (game.js:153-183): one per
        unit of its speed, `ceil(speed)` in all, none for a ball at rest. */
    method StepBall(b: nat, deltaTime: real, speed: real, scatters: seq<real>)
      requires Valid() && b < |balls|
      requires IsSpeedOf(speed, balls[b])
      requires |scatters| as real >= speed && ScatterRange(scatters)
      modifies this`balls, this`fallBlocks, this`removedBalls, blocks`count, blocks.values
      ensures Valid()
      ensures |balls| == |old(balls)|
      ensures forall k :: 0 <= k < |balls| && k != b ==> balls[k] == old(balls[k])
      ensures balls[b].id == old(balls[b].id) && balls[b].color == old(balls[b].color)
      ensures IsSpeedOf(speed, balls[b])
      ensures old(fallBlocks) <= fallBlocks
      ensures |fallBlocks| - |old(fallBlocks)| == old(blocks.count) - blocks.count
      ensures old(removedBalls) <= removedBalls
      ensures forall k :: |old(removedBalls)| <= k < |removedBalls| ==> removedBalls[k] == balls[b].id
      ensures speed > 0.0 && balls[b].y > HEIGHT as real ==> balls[b].id in removedBalls
      ensures speed == 0.0 ==> balls == old(balls) && fallBlocks == old(fallBlocks)
                               && blocks.count == old(blocks.count) && removedBalls == old(removedBalls)
      ensures TakenFrom(old(blocks.values[..]), fallBlocks[|old(fallBlocks)|..])
      ensures ClearedBy(old(blocks.values[..]), blocks.values[..], fallBlocks[|old(fallBlocks)|..])
      ensures balls == old(balls)[b := balls[b]]
      ensures SubSteps(speed) <= |scatters|
      ensures Turn(balls[b], World(blocks.values[..], fallBlocks, removedBalls))
                == BallSteps(Turn(old(balls[b]), World(old(blocks.values[..]), old(fallBlocks), old(removedBalls))),
                             SubSteps(speed), Scale(deltaTime, speed), scatters, Bar(barX))
    {
      ghost var t0 := Turn(balls[b], World(blocks.values[..], fallBlocks, removedBalls));
      ghost var scale := Scale(deltaTime, speed);
      blocks.SlotIdsHold();
      var i := 0;
      while (i as real) < speed
        invariant Valid() && b < |balls| && balls == old(balls)[b := balls[b]]
        invariant i <= |scatters| && (i > 0 ==> (i - 1) as real < speed)
        invariant Turn(balls[b], World(blocks.values[..], fallBlocks, removedBalls))
                    == BallSteps(t0, i, scale, scatters, Bar(barX))
        decreases speed.Floor + 1 - i
      {
        SubStep(b, deltaTime / speed, scatters[i]);
        i := i + 1;
      }
      SubStepsUnique(speed, i);
      BallStepsFrame(t0, i, scale, scatters, Bar(barX));
      BallStepsKeepSpeed(t0, i, scale, scatters, Bar(barX), speed);
      BallStepsMarkNames(t0, i, scale, scatters, Bar(barX));
      BallStepsDebris(t0, i, scale, scatters, Bar(barX));
      if i > 0 && balls[b].y > HEIGHT as real {
        LeftFieldFrom(t0, i, i, scale, scatters, Bar(barX));
        BallStepsMarkWhen(t0, i, scale, scatters, Bar(barX));
        assert removedBalls[|old(removedBalls)|] == balls[b].id;
      }
    }

    /** The ball pass (game.js:152-184): every ball in turn takes its
        sub-steps, and the new state is `BallPass` of the old one. Balls
        are only marked here, never removed; every block added to the
        falling blocks was live in the grid, and exactly those blocks' slots
        are emptied. */
    method StepBalls(deltaTime: real, speeds: seq<real>, scatters: seq<seq<real>>)
      requires Valid()
      requires |speeds| == |balls| && |scatters| == |balls|
      requires forall k :: 0 <= k < |balls| ==>
                 IsSpeedOf(speeds[k], balls[k]) && |scatters[k]| as real >= speeds[k] && ScatterRange(scatters[k])
      modifies this`balls, this`fallBlocks, this`removedBalls, blocks`count, blocks.values
      ensures Valid()
      ensures PassInputs(old(balls), speeds, scatters)
      ensures Pass(balls, World(blocks.values[..], fallBlocks, removedBalls))
                == BallPass(old(balls), World(old(blocks.values[..]), old(fallBlocks), old(removedBalls)),
                            |old(balls)|, deltaTime, speeds, scatters, Bar(barX))
      ensures |balls| == |old(balls)|
      ensures forall k :: 0 <= k < |balls| ==>
                balls[k].id == old(balls[k].id) && balls[k].color == old(balls[k].color) && IsSpeedOf(speeds[k], balls[k])
      ensures old(fallBlocks) <= fallBlocks
      ensures |fallBlocks| - |old(fallBlocks)| == old(blocks.count) - blocks.count
      ensures TakenFrom(old(blocks.values[..]), fallBlocks[|old(fallBlocks)|..])
      ensures ClearedBy(old(blocks.values[..]), blocks.values[..], fallBlocks[|old(fallBlocks)|..])
      ensures old(removedBalls) <= removedBalls
      ensures forall k :: |old(removedBalls)| <= k < |removedBalls| ==> HasId(balls, removedBalls[k])
      ensures forall k :: 0 <= k < |balls| && speeds[k] > 0.0 && balls[k].y > HEIGHT as real ==>
                balls[k].id in removedBalls
    {
      ghost var bs := balls;
      ghost var w := World(blocks.values[..], fallBlocks, removedBalls);
      blocks.SlotIdsHold();
      forall k | 0 <= k < |balls| ensures SubSteps(speeds[k]) <= |scatters[k]| {
        SubStepsFit(speeds[k], |scatters[k]|);
      }
      for b := 0 to |balls|
        invariant Valid() && |balls| == |old(balls)|
        invariant Pass(balls, World(blocks.values[..], fallBlocks, removedBalls))
                    == BallPass(bs, w, b, deltaTime, speeds, scatters, Bar(barX))
        invariant forall k :: 0 <= k < b ==> balls[k].id == old(balls[k].id) && balls[k].color == old(balls[k].color) && IsSpeedOf(speeds[k], balls[k])
        invariant old(fallBlocks) <= fallBlocks
        invariant |fallBlocks| - |old(fallBlocks)| == old(blocks.count) - blocks.count
        invariant old(removedBalls) <= removedBalls
        invariant forall k :: |old(removedBalls)| <= k < |removedBalls| ==> HasId(balls, removedBalls[k])
        invariant forall k :: 0 <= k < b && speeds[k] > 0.0 && balls[k].y > HEIGHT as real ==>
                    balls[k].id in removedBalls
      {
        StepBall(b, deltaTime, speeds[b], scatters[b]);
      }
      BallPassDebris(bs, w, |bs|, deltaTime, speeds, scatters, Bar(barX));
    }

    /** The ball sweep (game.js:185-192). */
    method SweepBalls()
      requires Valid()
      modifies this`balls, this`removedBalls
      ensures Valid()
      ensures balls == Without(old(balls), old(removedBalls))
      ensures removedBalls == []
    {
      balls := SweepMarked(balls, removedBalls);
      removedBalls := [];
      forall i | 0 <= i < |balls| ensures balls[i].id < nextBallId {
        WithoutMembers(old(balls), old(removedBalls), balls[i]);
      }
    }

    /** One falling block's turn in the debris pass (game.js:194-208): it
        moves under gravity; caught by the paddle it becomes a new ball at
        its position, in its colour, and is marked; otherwise, once below the
        field, it is marked and lost. */
    method StepFallingBlock(k: nat, deltaTime: real, u: real, v: real)
      requires Valid() && k < |fallBlocks|
      modifies this`fallBlocks, this`balls, this`nextBallId, this`removedFallBlocks
      ensures Valid()
      ensures var p := Fall(old(fallBlocks[k]), deltaTime);
              && fallBlocks == old(fallBlocks)[k := p]
              && balls == old(balls) + (if Caught(p, Bar(barX)) then [NewBall(p, old(nextBallId), u, v)] else [])
              && nextBallId == old(nextBallId) + |balls| - |old(balls)|
              && removedFallBlocks == old(removedFallBlocks) + (if Expires(p, Bar(barX)) then [p.id] else [])
    {
      var fallParticle := Fall(fallBlocks[k], deltaTime);
      FallKeepsDebris(fallBlocks, blocks.values[..], k, fallParticle);
      fallBlocks := fallBlocks[k := fallParticle];
      if HitTestPoint(Bar(barX), fallParticle.x, fallParticle.y) {
        NewBallKeepsIds(balls, nextBallId, NewBall(fallParticle, nextBallId, u, v));
        balls := balls + [NewBall(fallParticle, nextBallId, u, v)];
        nextBallId := nextBallId + 1;
        removedFallBlocks := removedFallBlocks + [fallParticle.id];
      } else if fallParticle.y > HEIGHT as real {
        removedFallBlocks := removedFallBlocks + [fallParticle.id];
      }
    }

    /** The debris pass (game.js:193-209): every falling block takes its
        turn. The balls added are `Spawned` and the marks pushed `Expired`
        of the moved blocks. */
    method StepDebris(deltaTime: real, ux: nat -> real, uy: nat -> real)
      requires Valid()
      modifies this`fallBlocks, this`balls, this`nextBallId, this`removedFallBlocks
      ensures Valid()
      ensures |fallBlocks| == |old(fallBlocks)|
      ensures forall k :: 0 <= k < |fallBlocks| ==> fallBlocks[k] == Fall(old(fallBlocks[k]), deltaTime)
      ensures balls == old(balls) + Spawned(fallBlocks, Bar(barX), ux, uy, old(nextBallId))
      ensures removedFallBlocks == old(removedFallBlocks) + Expired(fallBlocks, Bar(barX))
    {
      for k := 0 to |fallBlocks|
        invariant Valid() && |fallBlocks| == |old(fallBlocks)|
        invariant forall i :: 0 <= i < k ==> fallBlocks[i] == Fall(old(fallBlocks[i]), deltaTime)
        invariant forall i :: k <= i < |fallBlocks| ==> fallBlocks[i] == old(fallBlocks[i])
        invariant balls == old(balls) + Spawned(fallBlocks[..k], Bar(barX), ux, uy, old(nextBallId))
        invariant nextBallId == old(nextBallId) + |balls| - |old(balls)|
        invariant removedFallBlocks == old(removedFallBlocks) + Expired(fallBlocks[..k], Bar(barX))
      {
        ghost var before := fallBlocks;
        StepFallingBlock(k, deltaTime, ux(k), uy(k));
        DebrisStepPrefix(before, k, fallBlocks[k], Bar(barX), ux, uy, old(nextBallId), old(balls), old(removedFallBlocks));
      }
      assert fallBlocks[..|fallBlocks|] == fallBlocks;
    }

    /** The falling-block sweep (game.js:211-218). */
    method SweepFallBlocks()
      requires Valid()
      modifies this`fallBlocks, this`removedFallBlocks
      ensures Valid()
      ensures fallBlocks == Without(old(fallBlocks), old(removedFallBlocks))
      ensures removedFallBlocks == []
    {
      fallBlocks := SweepMarked(fallBlocks, removedFallBlocks);
      removedFallBlocks := [];
      forall i | 0 <= i < |fallBlocks|
        ensures fallBlocks[i].id < blocks.values.Length && blocks.values[fallBlocks[i].id].None?
      {
        WithoutMembers(old(fallBlocks), old(removedFallBlocks), fallBlocks[i]);
      }
    }

    /** The ball half of a tick (game.js:152-192): the ball pass, then the
        ball sweep. The grid and the falling blocks become those of
        `BallPass`, and the balls its balls without the marked ones. */
    method BallPhase(deltaTime: real, speeds: seq<real>, scatters: seq<seq<real>>)
      requires Valid() && removedBalls == []
      requires |speeds| == |balls| && |scatters| == |balls|
      requires forall k :: 0 <= k < |balls| ==>
                 IsSpeedOf(speeds[k], balls[k]) && |scatters[k]| as real >= speeds[k] && ScatterRange(scatters[k])
      modifies this`balls, this`fallBlocks, this`removedBalls, blocks`count, blocks.values
      ensures Valid() && removedBalls == []
      ensures blocks.count <= old(blocks.count)
      ensures var pass := BallPass(old(balls), World(old(blocks.values[..]), old(fallBlocks), []), |old(balls)|,
                                   deltaTime, speeds, scatters, Bar(barX));
              && blocks.values[..] == pass.world.slots
              && fallBlocks == pass.world.debris
              && balls == Without(pass.balls, pass.world.marks)
    {
      StepBalls(deltaTime, speeds, scatters);
      SweepBalls();
    }

    /** The falling-block half of a tick (game.js:193-218): the debris
        pass, then the falling-block sweep. The balls caught are appended
        as `Spawned` of the moved blocks, and the falling blocks become the
        moved ones that neither were caught nor left the field. */
    method DebrisPhase(deltaTime: real, ux: nat -> real, uy: nat -> real)
      requires Valid() && removedFallBlocks == []
      modifies this`fallBlocks, this`balls, this`nextBallId, this`removedFallBlocks
      ensures Valid() && removedFallBlocks == []
      ensures var moved := FallAll(old(fallBlocks), deltaTime);
              && balls == old(balls) + Spawned(moved, Bar(barX), ux, uy, old(nextBallId))
              && fallBlocks == Without(moved, Expired(moved, Bar(barX)))
      ensures forall i :: 0 <= i < |fallBlocks| ==> !Expires(fallBlocks[i], Bar(barX))
    {
      ghost var struck := fallBlocks;
      StepDebris(deltaTime, ux, uy);
      FallAllIs(struck, fallBlocks, deltaTime);
      ghost var moved := fallBlocks;
      ghost var marks := removedFallBlocks;
      assert marks == Expired(moved, Bar(barX));
      SweepFallBlocks();
      forall i | 0 <= i < |fallBlocks| ensures !Expires(fallBlocks[i], Bar(barX)) {
        SurvivorsOfDebrisPass(moved, Bar(barX), marks, fallBlocks[i]);
      }
    }

    /** One tick of `update` without its drawing: the ball half, the
        falling-block half, and the decision to request another frame,
        taken exactly while some block is left (game.js:152-247). */
    method Update(deltaTime: real, speeds: seq<real>, scatters: seq<seq<real>>, ux: nat -> real, uy: nat -> real)
      returns (requestNextFrame: bool)
      requires Valid() && removedBalls == [] && removedFallBlocks == []
      requires |speeds| == |balls| && |scatters| == |balls|
      requires forall k :: 0 <= k < |balls| ==>
                 IsSpeedOf(speeds[k], balls[k]) && |scatters[k]| as real >= speeds[k] && ScatterRange(scatters[k])
      modifies this`balls, this`fallBlocks, this`removedBalls, this`removedFallBlocks, this`nextBallId
      modifies blocks`count, blocks.values
      ensures Valid() && removedBalls == [] && removedFallBlocks == []
      ensures barX == old(barX)
      ensures blocks.count <= old(blocks.count)
      ensures requestNextFrame <==> blocks.count != 0
      ensures requestNextFrame <==> exists k :: 0 <= k < blocks.values.Length && blocks.values[k].Some?
      ensures forall i :: 0 <= i < |fallBlocks| ==> !Expires(fallBlocks[i], Bar(barX))
      ensures var pass := BallPass(old(balls), World(old(blocks.values[..]), old(fallBlocks), []), |old(balls)|,
                                   deltaTime, speeds, scatters, Bar(barX));
              var moved := FallAll(pass.world.debris, deltaTime);
              && blocks.values[..] == pass.world.slots
              && balls == Without(pass.balls, pass.world.marks) + Spawned(moved, Bar(barX), ux, uy, old(nextBallId))
              && fallBlocks == Without(moved, Expired(moved, Bar(barX)))
    {
      BallPhase(deltaTime, speeds, scatters);
      DebrisPhase(deltaTime, ux, uy);
      blocks.ClearedIffEmpty();
      requestNextFrame := blocks.count != 0;
    }
  }
}
