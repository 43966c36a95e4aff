/** The ball pass of one tick (game.js:152-184) as functions of values: what
    each sub-step, each ball's sub-steps and the whole pass make of the
    grid slots, the falling blocks and the ball marks. The methods of
    `Game` are proved equal to these functions. */
module Tick {
  import opened Wrappers
  import opened Particles
  import opened Grid
  import opened Geometry
  import opened Physics

  /** The values `Math.cos(...) * 3` can take for a struck block's `vx`. */
  predicate ScatterRange(scatters: seq<real>)
  {
    forall k :: 0 <= k < |scatters| ==> -3.0 <= scatters[k] <= 3.0
  }

  /** What the ball pass changes besides the balls: the grid slots, the
      falling blocks and the marks of balls that left the field. */
  datatype World = World(slots: seq<Option<Particle>>, debris: seq<Particle>, marks: seq<nat>)

  /** One ball together with the world it acts on. */
  datatype Turn = Turn(ball: Particle, world: World)

  /** All balls together with the world they act on. */
  datatype Pass = Pass(balls: seq<Particle>, world: World)

  /** The number of passes of `for (i = 0; i < ballSpeed; i++)`: the least
      natural number not below `speed`. */
  function SubSteps(speed: real): (n: nat)
    ensures n as real >= speed
    ensures n > 0 ==> (n - 1) as real < speed
  {
    if speed <= 0.0 then 0
    else if speed.Floor as real == speed then speed.Floor
    else speed.Floor + 1
  }

  /** A loop counter that has just reached `speed` ran `SubSteps(speed)`
      times. */
  lemma SubStepsUnique(speed: real, i: nat)
    requires i as real >= speed && (i > 0 ==> (i - 1) as real < speed)
    ensures i == SubSteps(speed)
  {
  }

  /** Enough scatter values for the sub-steps of a speed. */
  lemma SubStepsFit(speed: real, m: nat)
    requires m as real >= speed
    ensures SubSteps(speed) <= m
  {
  }

  /** The motion scale of each sub-step, `deltaTime / ballSpeed`; a ball at
      rest takes no sub-step, so its scale is never used. */
  function Scale(deltaTime: real, speed: real): real
  {
    if speed == 0.0 then 0.0 else deltaTime / speed
  }

  /** One sub-step (game.js:156-179): the ball moves; a live block under it
      is cleared from its slot and falls with the scattered `vx`, and the
      ball's `vy` turns; the ball is marked when it is below the field; the
      walls and the paddle act. */
  function SubStepTurn(t: Turn, scale: real, scatter: real, bar: Rect): (r: Turn)
    ensures r.ball.id == t.ball.id && r.ball.color == t.ball.color
    ensures |r.world.slots| == |t.world.slots|
  {
    var moved := Advance(t.ball, scale);
    var cx, cy := ParseInt(moved.x), ParseInt(moved.y);
    var cell := LookupAt(t.world.slots, cx, cy, WIDTH);
    var w := t.world;
    var slots := if cell.IsHit() then w.slots[Index(cx, cy, WIDTH) := None] else w.slots;
    var debris := if cell.IsHit() then w.debris + [Debris(cell.slot.value, scatter)] else w.debris;
    var marks := w.marks + (if moved.y > HEIGHT as real then [moved.id] else []);
    Turn(Decide(moved, cell.IsHit(), bar), World(slots, debris, marks))
  }

  /** The first `n` sub-steps of a ball, sub-step `i` using `scatters[i]`. */
  function BallSteps(t: Turn, n: nat, scale: real, scatters: seq<real>, bar: Rect): (r: Turn)
    requires n <= |scatters|
    ensures r.ball.id == t.ball.id && r.ball.color == t.ball.color
    ensures |r.world.slots| == |t.world.slots|
  {
    if n == 0 then t
    else SubStepTurn(BallSteps(t, n - 1, scale, scatters, bar), scale, scatters[n - 1], bar)
  }

  /** One sub-step keeps the ball's identity and colour, adds at most one
      falling block for the one live slot it empties, and marks the ball
      exactly when it ends below the field. */
  lemma SubStepFacts(p: Turn, scale: real, scatter: real, bar: Rect)
    ensures var r := SubStepTurn(p, scale, scatter, bar);
      && r.ball.id == p.ball.id && r.ball.color == p.ball.color
      && |r.world.slots| == |p.world.slots|
      && p.world.debris <= r.world.debris && |r.world.debris| <= |p.world.debris| + 1
      && r.world.marks == p.world.marks + (if r.ball.y > HEIGHT as real then [p.ball.id] else [])
      && LiveCount(p.world.slots) - LiveCount(r.world.slots) == |r.world.debris| - |p.world.debris|
  {
    var moved := Advance(p.ball, scale);
    var cx, cy := ParseInt(moved.x), ParseInt(moved.y);
    DecideKeepsSpeed(moved, LookupAt(p.world.slots, cx, cy, WIDTH).IsHit(), bar);
    if LookupAt(p.world.slots, cx, cy, WIDTH).IsHit() {
      LiveCountUpdate(p.world.slots, Index(cx, cy, WIDTH), None);
    }
  }

  /** One sub-step keeps the ball's identity and marks it exactly when it
      ends below the field. */
  lemma SubStepMarks(p: Turn, scale: real, scatter: real, bar: Rect)
    ensures var r := SubStepTurn(p, scale, scatter, bar);
      && r.ball.id == p.ball.id
      && r.world.marks == p.world.marks + (if r.ball.y > HEIGHT as real then [p.ball.id] else [])
  {
    var moved := Advance(p.ball, scale);
    DecideKeepsSpeed(moved, LookupAt(p.world.slots, ParseInt(moved.x), ParseInt(moved.y), WIDTH).IsHit(), bar);
  }

  /** Sub-steps keep the ball's identity and colour, only add falling
      blocks and marks, and remove as many live slots as they add falling
      blocks. */
  lemma {:induction false} BallStepsFrame(t: Turn, n: nat, scale: real, scatters: seq<real>, bar: Rect)
    requires n <= |scatters|
    ensures var r := BallSteps(t, n, scale, scatters, bar);
      && r.ball.id == t.ball.id && r.ball.color == t.ball.color
      && |r.world.slots| == |t.world.slots|
      && t.world.debris <= r.world.debris && t.world.marks <= r.world.marks
      && LiveCount(t.world.slots) - LiveCount(r.world.slots) == |r.world.debris| - |t.world.debris|
  {
    if n > 0 {
      BallStepsFrame(t, n - 1, scale, scatters, bar);
      SubStepFacts(BallSteps(t, n - 1, scale, scatters, bar), scale, scatters[n - 1], bar);
    }
  }

  /** Sub-steps keep the ball's speed. */
  lemma {:induction false} BallStepsKeepSpeed(t: Turn, n: nat, scale: real, scatters: seq<real>, bar: Rect, speed: real)
    requires n <= |scatters| && IsSpeedOf(speed, t.ball)
    ensures IsSpeedOf(speed, BallSteps(t, n, scale, scatters, bar).ball)
  {
    if n > 0 {
      BallStepsKeepSpeed(t, n - 1, scale, scatters, bar, speed);
      var p := BallSteps(t, n - 1, scale, scatters, bar);
      var moved := Advance(p.ball, scale);
      SubStepKeepsSpeed(speed, p.ball, scale, LookupAt(p.world.slots, ParseInt(moved.x), ParseInt(moved.y), WIDTH).IsHit(), bar);
    }
  }

  /** Whether the ball was below the field after one of its first `n`
      sub-steps, sub-step by sub-step. */
  ghost predicate LeftField(t: Turn, n: nat, scale: real, scatters: seq<real>, bar: Rect)
    requires n <= |scatters|
  {
    n > 0 && (LeftField(t, n - 1, scale, scatters, bar) || BallSteps(t, n, scale, scatters, bar).ball.y > HEIGHT as real)
  }

  /** A sub-step that ends below the field names the one `LeftField`
      needs. */
  lemma {:induction false} LeftFieldWitness(t: Turn, n: nat, scale: real, scatters: seq<real>, bar: Rect)
    returns (i: nat)
    requires n <= |scatters| && LeftField(t, n, scale, scatters, bar)
    ensures 0 < i <= n && BallSteps(t, i, scale, scatters, bar).ball.y > HEIGHT as real
  {
    if LeftField(t, n - 1, scale, scatters, bar) {
      i := LeftFieldWitness(t, n - 1, scale, scatters, bar);
    } else {
      i := n;
    }
  }

  /** A sub-step among the first `n` that ends below the field makes
      `LeftField` hold. */
  lemma {:induction false} LeftFieldFrom(t: Turn, n: nat, i: nat, scale: real, scatters: seq<real>, bar: Rect)
    requires n <= |scatters| && 0 < i <= n && BallSteps(t, i, scale, scatters, bar).ball.y > HEIGHT as real
    ensures LeftField(t, n, scale, scatters, bar)
  {
    if i < n {
      LeftFieldFrom(t, n - 1, i, scale, scatters, bar);
    }
  }

  /** `LeftField` holds exactly when some sub-step among the first `n` ends
      below the field. */
  lemma LeftFieldMeans(t: Turn, n: nat, scale: real, scatters: seq<real>, bar: Rect)
    requires n <= |scatters|
    ensures LeftField(t, n, scale, scatters, bar) <==>
              exists i :: 0 < i <= n && BallSteps(t, i, scale, scatters, bar).ball.y > HEIGHT as real
  {
    if LeftField(t, n, scale, scatters, bar) {
      var i := LeftFieldWitness(t, n, scale, scatters, bar);
    }
    forall i | 0 < i <= n && BallSteps(t, i, scale, scatters, bar).ball.y > HEIGHT as real
      ensures LeftField(t, n, scale, scatters, bar)
    {
      LeftFieldFrom(t, n, i, scale, scatters, bar);
    }
  }

  /** Every mark the sub-steps push names the ball. */
  lemma {:induction false} BallStepsMarkNames(t: Turn, n: nat, scale: real, scatters: seq<real>, bar: Rect)
    requires n <= |scatters|
    ensures var r := BallSteps(t, n, scale, scatters, bar);
      forall j :: |t.world.marks| <= j < |r.world.marks| ==> r.world.marks[j] == t.ball.id
  {
    if n > 0 {
      BallStepsMarkNames(t, n - 1, scale, scatters, bar);
      SubStepMarks(BallSteps(t, n - 1, scale, scatters, bar), scale, scatters[n - 1], bar);
      BallStepsFrame(t, n - 1, scale, scatters, bar);
    }
  }

  /** The sub-steps push a mark exactly when the ball was below the field
      after one of them. */
  lemma {:induction false} BallStepsMarkWhen(t: Turn, n: nat, scale: real, scatters: seq<real>, bar: Rect)
    requires n <= |scatters|
    ensures |BallSteps(t, n, scale, scatters, bar).world.marks| > |t.world.marks| <==> LeftField(t, n, scale, scatters, bar)
  {
    if n > 0 {
      BallStepsMarkWhen(t, n - 1, scale, scatters, bar);
      SubStepMarks(BallSteps(t, n - 1, scale, scatters, bar), scale, scatters[n - 1], bar);
      BallStepsFrame(t, n - 1, scale, scatters, bar);
    }
  }

  /** An appended particle adds its own identity and no other. */
  lemma HasIdAppend(ps: seq<Particle>, p: Particle, id: nat)
    ensures HasId(ps + [p], id) <==> HasId(ps, id) || p.id == id
  {
    if HasId(ps + [p], id) && !HasId(ps, id) {
      var i :| 0 <= i < |ps + [p]| && (ps + [p])[i].id == id;
      assert i == |ps|;
    }
    if HasId(ps, id) {
      var i :| 0 <= i < |ps| && ps[i].id == id;
      assert (ps + [p])[i].id == id;
    }
    if p.id == id {
      assert (ps + [p])[|ps|].id == id;
    }
  }

  /** Two runs of particles hold an identity exactly when one of them does. */
  lemma HasIdConcat(ps: seq<Particle>, qs: seq<Particle>, id: nat)
    ensures HasId(ps + qs, id) <==> HasId(ps, id) || HasId(qs, id)
  {
    if HasId(ps + qs, id) {
      var i :| 0 <= i < |ps + qs| && (ps + qs)[i].id == id;
      if i >= |ps| { assert qs[i - |ps|].id == id; }
    }
    if HasId(ps, id) {
      var i :| 0 <= i < |ps| && ps[i].id == id;
      assert (ps + qs)[i].id == id;
    }
    if HasId(qs, id) {
      var i :| 0 <= i < |qs| && qs[i].id == id;
      assert (ps + qs)[|ps| + i].id == id;
    }
  }

  /** `after` is `before` with exactly the slots of the blocks `added`
      emptied. */
  ghost predicate ClearedBy(before: seq<Option<Particle>>, after: seq<Option<Particle>>, added: seq<Particle>)
  {
    && |after| == |before|
    && forall k :: 0 <= k < |before| ==> after[k] == if HasId(added, k) then None else before[k]
  }

  /** Each of the falling blocks `added` is a block that was live in
      `before`, at the slot its identity names, with a scattered `vx` in
      `[-3, 3]` and `vy = 1`. */
  ghost predicate TakenFrom(before: seq<Option<Particle>>, added: seq<Particle>)
  {
    forall j :: 0 <= j < |added| ==>
      && added[j].id < |before| && before[added[j].id].Some?
      && added[j] == Debris(before[added[j].id].value, added[j].vx)
      && -3.0 <= added[j].vx <= 3.0
  }

  /** One sub-step takes its falling block, if any, from the grid it
      found. */
  lemma SubStepDebris(p: Turn, scale: real, scatter: real, bar: Rect)
    requires SlotIds(p.world.slots) && -3.0 <= scatter <= 3.0
    ensures var r := SubStepTurn(p, scale, scatter, bar);
            var moved := Advance(p.ball, scale);
            var cell := LookupAt(p.world.slots, ParseInt(moved.x), ParseInt(moved.y), WIDTH);
      && r.world.debris[|p.world.debris|..] == (if cell.IsHit() then [Debris(cell.slot.value, scatter)] else [])
    ensures var r := SubStepTurn(p, scale, scatter, bar);
      && p.world.debris <= r.world.debris
      && SlotIds(r.world.slots)
      && TakenFrom(p.world.slots, r.world.debris[|p.world.debris|..])
      && ClearedBy(p.world.slots, r.world.slots, r.world.debris[|p.world.debris|..])
  {
    var r := SubStepTurn(p, scale, scatter, bar);
    var moved := Advance(p.ball, scale);
    var cx, cy := ParseInt(moved.x), ParseInt(moved.y);
    var added := r.world.debris[|p.world.debris|..];
    if LookupAt(p.world.slots, cx, cy, WIDTH).IsHit() {
      var idx := Index(cx, cy, WIDTH);
      var d := Debris(p.world.slots[idx].value, scatter);
      assert added == [d];
      forall k | 0 <= k < |p.world.slots|
        ensures r.world.slots[k] == if HasId(added, k) then None else p.world.slots[k]
      {
        HasIdAppend([], d, k);
      }
    } else {
      assert added == [];
    }
  }

  /** Taking blocks twice is taking both runs from the first grid. */
  lemma ComposeTaken(s0: seq<Option<Particle>>, s1: seq<Option<Particle>>, s2: seq<Option<Particle>>,
                     a1: seq<Particle>, a2: seq<Particle>)
    requires ClearedBy(s0, s1, a1) && TakenFrom(s0, a1)
    requires ClearedBy(s1, s2, a2) && TakenFrom(s1, a2)
    ensures ClearedBy(s0, s2, a1 + a2) && TakenFrom(s0, a1 + a2)
  {
    forall k | 0 <= k < |s0|
      ensures s2[k] == if HasId(a1 + a2, k) then None else s0[k]
    {
      HasIdConcat(a1, a2, k);
    }
    forall j | 0 <= j < |a1 + a2|
      ensures && (a1 + a2)[j].id < |s0| && s0[(a1 + a2)[j].id].Some?
              && (a1 + a2)[j] == Debris(s0[(a1 + a2)[j].id].value, (a1 + a2)[j].vx)
              && -3.0 <= (a1 + a2)[j].vx <= 3.0
    {
      if j >= |a1| {
        var d := a2[j - |a1|];
        assert s1[d.id].Some?;
        assert s1[d.id] == s0[d.id];
      }
    }
  }

  /** A world reached in two stages of strikes is reached from the first
      world in one: the blocks added by both stages were live in the first
      grid, and exactly their slots are emptied. */
  lemma ComposeWorlds(w0: World, w1: World, w2: World)
    requires w0.debris <= w1.debris <= w2.debris
    requires TakenFrom(w0.slots, w1.debris[|w0.debris|..]) && ClearedBy(w0.slots, w1.slots, w1.debris[|w0.debris|..])
    requires TakenFrom(w1.slots, w2.debris[|w1.debris|..]) && ClearedBy(w1.slots, w2.slots, w2.debris[|w1.debris|..])
    ensures w0.debris <= w2.debris
    ensures TakenFrom(w0.slots, w2.debris[|w0.debris|..]) && ClearedBy(w0.slots, w2.slots, w2.debris[|w0.debris|..])
  {
    var a1, a2 := w1.debris[|w0.debris|..], w2.debris[|w1.debris|..];
    assert w2.debris[|w0.debris|..] == a1 + a2;
    ComposeTaken(w0.slots, w1.slots, w2.slots, a1, a2);
  }

  /** The falling blocks the sub-steps add are blocks that were live in
      the grid before, and the grid afterwards is the grid before with
      exactly those blocks' slots emptied. */
  lemma {:induction false} BallStepsDebris(t: Turn, n: nat, scale: real, scatters: seq<real>, bar: Rect)
    requires n <= |scatters| && ScatterRange(scatters) && SlotIds(t.world.slots)
    ensures var r := BallSteps(t, n, scale, scatters, bar);
      && t.world.debris <= r.world.debris
      && SlotIds(r.world.slots)
      && TakenFrom(t.world.slots, r.world.debris[|t.world.debris|..])
      && ClearedBy(t.world.slots, r.world.slots, r.world.debris[|t.world.debris|..])
  {
    if n == 0 {
      assert t.world.debris[|t.world.debris|..] == [];
    } else {
      BallStepsDebris(t, n - 1, scale, scatters, bar);
      var p := BallSteps(t, n - 1, scale, scatters, bar);
      var r := BallSteps(t, n, scale, scatters, bar);
      SubStepDebris(p, scale, scatters[n - 1], bar);
      ComposeWorlds(t.world, p.world, r.world);
    }
  }

  /** The inputs of a pass fit its balls: one speed and one run of
      scatter values per ball, enough for its sub-steps. */
  ghost predicate PassInputs(bs: seq<Particle>, speeds: seq<real>, scatters: seq<seq<real>>)
  {
    && |speeds| == |bs| && |scatters| == |bs|
    && forall i :: 0 <= i < |bs| ==> SubSteps(speeds[i]) <= |scatters[i]|
  }

  /** The ball pass over the first `k` balls (game.js:152-184): each ball in
      turn takes its sub-steps on the world the balls before it left. */
  function BallPass(bs: seq<Particle>, w: World, k: nat, deltaTime: real, speeds: seq<real>,
                    scatters: seq<seq<real>>, bar: Rect): (r: Pass)
    requires k <= |bs| && PassInputs(bs, speeds, scatters)
    ensures |r.balls| == |bs|
    ensures forall i :: k <= i < |bs| ==> r.balls[i] == bs[i]
    decreases k
  {
    if k == 0 then Pass(bs, w)
    else
      var p := BallPass(bs, w, k - 1, deltaTime, speeds, scatters, bar);
      var t := BallSteps(Turn(bs[k - 1], p.world), SubSteps(speeds[k - 1]), Scale(deltaTime, speeds[k - 1]),
                         scatters[k - 1], bar);
      Pass(p.balls[k - 1 := t.ball], t.world)
  }

  /** Ball `i` of the pass was below the field after one of its sub-steps. */
  ghost predicate BallLeftField(bs: seq<Particle>, w: World, i: nat, deltaTime: real, speeds: seq<real>,
                                scatters: seq<seq<real>>, bar: Rect)
    requires i < |bs| && PassInputs(bs, speeds, scatters)
  {
    var p := BallPass(bs, w, i, deltaTime, speeds, scatters, bar);
    LeftField(Turn(bs[i], p.world), SubSteps(speeds[i]), Scale(deltaTime, speeds[i]), scatters[i], bar)
  }

  /** The falling blocks the whole pass adds are blocks that were live in
      the grid before it, and the grid afterwards is the grid before with
      exactly those blocks' slots emptied. */
  lemma {:induction false} BallPassDebris(bs: seq<Particle>, w: World, k: nat, deltaTime: real, speeds: seq<real>,
                                          scatters: seq<seq<real>>, bar: Rect)
    requires k <= |bs| && PassInputs(bs, speeds, scatters) && SlotIds(w.slots)
    requires forall i :: 0 <= i < |bs| ==> ScatterRange(scatters[i])
    ensures var r := BallPass(bs, w, k, deltaTime, speeds, scatters, bar);
      && w.debris <= r.world.debris
      && SlotIds(r.world.slots)
      && TakenFrom(w.slots, r.world.debris[|w.debris|..])
      && ClearedBy(w.slots, r.world.slots, r.world.debris[|w.debris|..])
  {
    if k == 0 {
      assert w.debris[|w.debris|..] == [];
    } else {
      BallPassDebris(bs, w, k - 1, deltaTime, speeds, scatters, bar);
      var p := BallPass(bs, w, k - 1, deltaTime, speeds, scatters, bar);
      var r := BallPass(bs, w, k, deltaTime, speeds, scatters, bar);
      BallStepsDebris(Turn(bs[k - 1], p.world), SubSteps(speeds[k - 1]), Scale(deltaTime, speeds[k - 1]),
                      scatters[k - 1], bar);
      ComposeWorlds(w, p.world, r.world);
    }
  }

  /** The marks of ball `k`'s turn all name it, and there are some exactly
      when it was below the field after one of its sub-steps. */
  lemma PassMarksStep(bs: seq<Particle>, w: World, k: nat, deltaTime: real, speeds: seq<real>,
                      scatters: seq<seq<real>>, bar: Rect)
    requires k < |bs| && PassInputs(bs, speeds, scatters)
    ensures var p := BallPass(bs, w, k, deltaTime, speeds, scatters, bar);
            var r := BallPass(bs, w, k + 1, deltaTime, speeds, scatters, bar);
      && p.world.marks <= r.world.marks
      && (forall j :: |p.world.marks| <= j < |r.world.marks| ==> r.world.marks[j] == bs[k].id)
      && (|r.world.marks| > |p.world.marks| <==> BallLeftField(bs, w, k, deltaTime, speeds, scatters, bar))
  {
    var p := BallPass(bs, w, k, deltaTime, speeds, scatters, bar);
    var t := Turn(bs[k], p.world);
    var n, scale := SubSteps(speeds[k]), Scale(deltaTime, speeds[k]);
    BallStepsMarkNames(t, n, scale, scatters[k], bar);
    BallStepsMarkWhen(t, n, scale, scatters[k], bar);
    BallStepsFrame(t, n, scale, scatters[k], bar);
  }

  /** Ball `k - 1`'s turn leaves the marks before it in place. */
  lemma PassMarkOld(bs: seq<Particle>, w: World, k: nat, j: nat, deltaTime: real, speeds: seq<real>,
                    scatters: seq<seq<real>>, bar: Rect)
    requires 0 < k <= |bs| && PassInputs(bs, speeds, scatters)
    requires j < |BallPass(bs, w, k - 1, deltaTime, speeds, scatters, bar).world.marks|
    ensures j < |BallPass(bs, w, k, deltaTime, speeds, scatters, bar).world.marks|
    ensures BallPass(bs, w, k, deltaTime, speeds, scatters, bar).world.marks[j]
              == BallPass(bs, w, k - 1, deltaTime, speeds, scatters, bar).world.marks[j]
  {
    PassMarksStep(bs, w, k - 1, deltaTime, speeds, scatters, bar);
  }

  /** A mark ball `k - 1`'s turn pushes names that ball, which was below the
      field after one of its sub-steps. */
  lemma PassMarkNew(bs: seq<Particle>, w: World, k: nat, j: nat, deltaTime: real, speeds: seq<real>,
                    scatters: seq<seq<real>>, bar: Rect)
    requires 0 < k <= |bs| && PassInputs(bs, speeds, scatters)
    requires |BallPass(bs, w, k - 1, deltaTime, speeds, scatters, bar).world.marks| <= j
               < |BallPass(bs, w, k, deltaTime, speeds, scatters, bar).world.marks|
    ensures BallPass(bs, w, k, deltaTime, speeds, scatters, bar).world.marks[j] == bs[k - 1].id
    ensures BallLeftField(bs, w, k - 1, deltaTime, speeds, scatters, bar)
  {
    PassMarksStep(bs, w, k - 1, deltaTime, speeds, scatters, bar);
  }

  /** Each mark the pass pushes names a ball that was below the field after
      one of its sub-steps; `i` is that ball. */
  lemma {:induction false} BallPassMarksNamed(bs: seq<Particle>, w: World, k: nat, j: nat, deltaTime: real,
                                              speeds: seq<real>, scatters: seq<seq<real>>, bar: Rect)
    returns (i: nat)
    requires k <= |bs| && PassInputs(bs, speeds, scatters)
    requires |w.marks| <= j < |BallPass(bs, w, k, deltaTime, speeds, scatters, bar).world.marks|
    ensures i < k && BallPass(bs, w, k, deltaTime, speeds, scatters, bar).world.marks[j] == bs[i].id
    ensures BallLeftField(bs, w, i, deltaTime, speeds, scatters, bar)
    decreases k
  {
    if k > 0 {
      if j >= |BallPass(bs, w, k - 1, deltaTime, speeds, scatters, bar).world.marks| {
        PassMarkNew(bs, w, k, j, deltaTime, speeds, scatters, bar);
        i := k - 1;
      } else {
        i := BallPassMarksNamed(bs, w, k - 1, j, deltaTime, speeds, scatters, bar);
        PassMarkOld(bs, w, k, j, deltaTime, speeds, scatters, bar);
      }
    }
  }

  /** Ball `k - 1`'s turn keeps every earlier mark. */
  lemma PassMarksKeep(bs: seq<Particle>, w: World, k: nat, y: nat, deltaTime: real, speeds: seq<real>,
                      scatters: seq<seq<real>>, bar: Rect)
    requires 0 < k <= |bs| && PassInputs(bs, speeds, scatters)
    requires y in BallPass(bs, w, k - 1, deltaTime, speeds, scatters, bar).world.marks
    ensures y in BallPass(bs, w, k, deltaTime, speeds, scatters, bar).world.marks
  {
    var j :| 0 <= j < |BallPass(bs, w, k - 1, deltaTime, speeds, scatters, bar).world.marks|
             && BallPass(bs, w, k - 1, deltaTime, speeds, scatters, bar).world.marks[j] == y;
    PassMarkOld(bs, w, k, j, deltaTime, speeds, scatters, bar);
  }

  /** Ball `k`'s turn marks it if it was below the field after one of its
      sub-steps. */
  lemma PassMarksLeft(bs: seq<Particle>, w: World, k: nat, deltaTime: real, speeds: seq<real>,
                      scatters: seq<seq<real>>, bar: Rect)
    requires k < |bs| && PassInputs(bs, speeds, scatters)
    requires BallLeftField(bs, w, k, deltaTime, speeds, scatters, bar)
    ensures bs[k].id in BallPass(bs, w, k + 1, deltaTime, speeds, scatters, bar).world.marks
  {
    PassMarksStep(bs, w, k, deltaTime, speeds, scatters, bar);
    var p := BallPass(bs, w, k, deltaTime, speeds, scatters, bar).world.marks;
    assert BallPass(bs, w, k + 1, deltaTime, speeds, scatters, bar).world.marks[|p|] == bs[k].id;
  }

  /** Every ball that was below the field after one of its sub-steps is
      marked by the pass. */
  lemma {:induction false} BallPassMarksAll(bs: seq<Particle>, w: World, k: nat, i: nat, deltaTime: real,
                                            speeds: seq<real>, scatters: seq<seq<real>>, bar: Rect)
    requires i < k <= |bs| && PassInputs(bs, speeds, scatters)
    requires BallLeftField(bs, w, i, deltaTime, speeds, scatters, bar)
    ensures bs[i].id in BallPass(bs, w, k, deltaTime, speeds, scatters, bar).world.marks
    decreases k
  {
    if i == k - 1 {
      PassMarksLeft(bs, w, i, deltaTime, speeds, scatters, bar);
    } else {
      BallPassMarksAll(bs, w, k - 1, i, deltaTime, speeds, scatters, bar);
      PassMarksKeep(bs, w, k, bs[i].id, deltaTime, speeds, scatters, bar);
    }
  }
}
