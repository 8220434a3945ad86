/** The runner game's simulation core: a dinosaur that falls under gravity and
    jumps, obstacles that scroll in from the right, a rectangle-overlap test
    that ends the run, a score accumulator and a capped scroll speed.

    All quantities are exact reals; the TypeScript code uses IEEE doubles, whose
    rounding is not modelled. The specification of the core is the value
    `World` and the transition functions `Initial`, `AfterStart`, `AfterJump`, `AfterReset`,
    `Next` and `AfterPress`; the class `Engine` holds the same state in fields and
    updates it step by step, each method proved to agree with its function. */
module GameEngine {
  import opened Wrappers

  const GROUND_Y: real := 240.0
  const GRAVITY: real := 0.8
  const JUMP_FORCE: real := -15.0

  const DINO_X: real := 100.0
  const DINO_START_Y: real := 200.0
  const DINO_WIDTH: real := 44.0
  const DINO_HEIGHT: real := 47.0

  const START_SPEED: real := 4.0
  const MAX_SPEED: real := 12.0
  const SPEED_PER_POINT: real := 0.005
  const SCORE_PER_STEP: real := 0.1
  const ANIMATION_STEP: real := 0.2

  const SPAWN_X: real := 800.0
  const OBSTACLE_Y: real := GROUND_Y - 30.0
  const OBSTACLE_WIDTH: real := 17.0
  const OBSTACLE_HEIGHT: real := 35.0

  datatype GameState = Waiting | Playing | GameOver

  /** An axis-aligned box; y grows downwards. */
  datatype Rect = Rect(x: real, y: real, width: real, height: real)

  datatype Dinosaur = Dinosaur(x: real, y: real, width: real, height: real,
                               velocityY: real, isJumping: bool, animationFrame: real)
  {
    function Box(): Rect { Rect(x, y, width, height) }
  }

  datatype Obstacle = Obstacle(x: real, y: real, width: real, height: real, speed: real)
  {
    function Box(): Rect { Rect(x, y, width, height) }
  }

  /** Everything the engine holds: the React state (`state`, the displayed
      `score`, `highScore`) and the per-frame references (the dinosaur, the
      obstacle list, `gameSpeed` and the score accumulator `scoreAcc`). */
  datatype World = World(state: GameState, score: real, highScore: real,
                         dino: Dinosaur, obstacles: seq<Obstacle>,
                         gameSpeed: real, scoreAcc: real)

  function Min(a: real, b: real): real { if a <= b then a else b }
  function Max(a: real, b: real): real { if a >= b then a else b }

  // ---------------------------------------------------------------------------
  // Collision

  /** The open intervals (lo1, hi1) and (lo2, hi2) share a point. */
  predicate IntervalsOverlap(lo1: real, hi1: real, lo2: real, hi2: real)
  {
    Max(lo1, lo2) < Min(hi1, hi2)
  }

  /** The point (px, py) lies strictly inside the box. */
  predicate StrictlyInside(r: Rect, px: real, py: real)
  {
    r.x < px < r.x + r.width && r.y < py < r.y + r.height
  }

  /** A box with positive extent on both axes, as every box of the game is. */
  predicate Proper(r: Rect)
  {
    r.width > 0.0 && r.height > 0.0
  }

  /** The four strict comparisons of the game code. Two boxes collide exactly
      when their open extents overlap on both axes, so the test is symmetric
      and boxes that only touch along an edge do not collide. */
  function CheckCollision(a: Rect, b: Rect): (r: bool)
    ensures Proper(a) && Proper(b) ==>
              (r <==> IntervalsOverlap(a.x, a.x + a.width, b.x, b.x + b.width)
                      && IntervalsOverlap(a.y, a.y + a.height, b.y, b.y + b.height))
    ensures (a.x + a.width == b.x || b.x + b.width == a.x ||
             a.y + a.height == b.y || b.y + b.height == a.y) ==> !r
  {
    a.x < b.x + b.width &&
    a.x + a.width > b.x &&
    a.y < b.y + b.height &&
    a.y + a.height > b.y
  }

  lemma CollisionSymmetric(a: Rect, b: Rect)
    ensures CheckCollision(a, b) == CheckCollision(b, a)
  {
  }

  /** For proper boxes, collision means exactly that some point lies strictly
      inside both. */
  lemma CollisionIsSharedPoint(a: Rect, b: Rect)
    requires Proper(a) && Proper(b)
    ensures CheckCollision(a, b) <==>
            exists px, py :: StrictlyInside(a, px, py) && StrictlyInside(b, px, py)
  {
    if CheckCollision(a, b) {
      var px := (Max(a.x, b.x) + Min(a.x + a.width, b.x + b.width)) / 2.0;
      var py := (Max(a.y, b.y) + Min(a.y + a.height, b.y + b.height)) / 2.0;
      assert StrictlyInside(a, px, py) && StrictlyInside(b, px, py);
    }
  }

  /** Some live obstacle overlaps the box. */
  predicate HitsAny(box: Rect, obstacles: seq<Obstacle>)
  {
    exists k :: 0 <= k < |obstacles| && CheckCollision(box, obstacles[k].Box())
  }

  /** A dinosaur standing on the ground is hit by every freshly spawned
      obstacle that overlaps it horizontally: the obstacle reaches 5 units
      below the ground line, so only a jump avoids it. */
  lemma GroundedDinoIsHit(d: Dinosaur, o: Obstacle)
    requires d.y == GROUND_Y && d.height == DINO_HEIGHT
    requires o.y == OBSTACLE_Y && o.height == OBSTACLE_HEIGHT
    requires IntervalsOverlap(d.x, d.x + d.width, o.x, o.x + o.width)
    ensures CheckCollision(d.Box(), o.Box())
  {
  }

  // ---------------------------------------------------------------------------
  // Dinosaur physics

  /** JavaScript's `a % 2` on numbers: the remainder of truncating division,
      which takes the sign of `a`. */
  function Mod2(a: real): (r: real)
    ensures 0.0 <= a ==> 0.0 <= r < 2.0
    ensures a < 0.0 ==> -2.0 < r <= 0.0
    ensures 0.0 <= a < 2.0 ==> r == a
    ensures 2.0 <= a < 4.0 ==> r == a - 2.0
  {
    var q := a / 2.0;
    var t := if q >= 0.0 then q.Floor else -((-q).Floor);
    a - 2.0 * (t as real)
  }

  /** The physics part of one frame: gravity, the ground clamp and the
      animation phase. */
  function FramePhysics(d: Dinosaur): (r: Dinosaur)
    ensures r.y <= GROUND_Y
    ensures r.x == d.x && r.width == d.width && r.height == d.height
    ensures d.y + d.velocityY + GRAVITY >= GROUND_Y ==>
              r.y == GROUND_Y && r.velocityY == 0.0 && !r.isJumping
    ensures d.y + d.velocityY + GRAVITY < GROUND_Y ==>
              r.velocityY == d.velocityY + GRAVITY && r.y == d.y + r.velocityY &&
              r.isJumping == d.isJumping
    ensures 0.0 <= d.animationFrame < 2.0 ==> 0.0 <= r.animationFrame < 2.0
  {
    var v := d.velocityY + GRAVITY;
    var y := d.y + v;
    var landed := y >= GROUND_Y;
    d.(y := if landed then GROUND_Y else y,
       velocityY := if landed then 0.0 else v,
       isJumping := if landed then false else d.isJumping,
       animationFrame := Mod2(d.animationFrame + ANIMATION_STEP))
  }

  /** The dinosaur after `n` frames of physics. */
  function AfterFrames(d: Dinosaur, n: nat): Dinosaur
  {
    if n == 0 then d else FramePhysics(AfterFrames(d, n - 1))
  }

  /** While a jump from the ground is in the air, after k frames the velocity
      is JUMP_FORCE + 0.8 k and the height is GROUND_Y - 15 k + 0.4 k (k + 1). */
  lemma {:induction false} JumpArc(d: Dinosaur, k: nat)
    requires d.y == GROUND_Y && d.velocityY == JUMP_FORCE && d.isJumping
    requires k <= 36
    ensures AfterFrames(d, k).isJumping
    ensures AfterFrames(d, k).velocityY == JUMP_FORCE + GRAVITY * (k as real)
    ensures AfterFrames(d, k).y == GROUND_Y - 15.0 * (k as real) + 0.4 * (k as real) * (k as real + 1.0)
    ensures 0 < k ==> AfterFrames(d, k).y < GROUND_Y
  {
    if k > 0 {
      JumpArc(d, k - 1);
      var j := (k - 1) as real;
      var p := AfterFrames(d, k - 1);
      assert p.y + p.velocityY + GRAVITY
          == GROUND_Y - 15.0 * (j + 1.0) + 0.4 * (j + 1.0) * (j + 2.0);
      ArcStillRising(j);
    }
  }

  /** The height after j + 1 frames of a jump is still above the ground
      while j + 1 <= 36. */
  lemma ArcStillRising(j: real)
    requires 0.0 <= j <= 35.0
    ensures GROUND_Y - 15.0 * (j + 1.0) + 0.4 * (j + 1.0) * (j + 2.0) < GROUND_Y
  {
    var a, b := j + 1.0, 0.4 * (j + 2.0) - 15.0;
    assert 15.0 * (j + 1.0) - 0.4 * (j + 1.0) * (j + 2.0) == a * -b;
    assert 0.0 < a && 0.0 < -b;
    assert 0.0 < a * -b;
  }

  /** A jump from the ground stays in the air for 36 frames and lands, at
      rest and no longer jumping, on the 37th. */
  lemma JumpLands(d: Dinosaur)
    requires d.y == GROUND_Y && d.velocityY == JUMP_FORCE && d.isJumping
    ensures forall k: nat :: 0 < k <= 36 ==> AfterFrames(d, k).y < GROUND_Y
    ensures AfterFrames(d, 37).y == GROUND_Y
    ensures AfterFrames(d, 37).velocityY == 0.0 && !AfterFrames(d, 37).isJumping
  {
    forall k: nat | 0 < k <= 36 ensures AfterFrames(d, k).y < GROUND_Y {
      JumpArc(d, k);
    }
    JumpArc(d, 36);
  }

  // ---------------------------------------------------------------------------
  // Obstacles

  /** An obstacle after moving left by `speed`. */
  function Shifted(o: Obstacle, speed: real): Obstacle
  {
    o.(x := o.x - speed)
  }

  /** The right edge is still right of the canvas's left border. */
  predicate OnScreen(o: Obstacle)
  {
    o.x + o.width > 0.0
  }

  /** The `filter` of one frame: move every obstacle left and keep those still
      on screen. */
  function Advance(obstacles: seq<Obstacle>, speed: real): (r: seq<Obstacle>)
    ensures |r| <= |obstacles|
    ensures forall o :: o in r ==> OnScreen(o)
  {
    if obstacles == [] then []
    else
      var o := Shifted(obstacles[0], speed);
      (if OnScreen(o) then [o] else []) + Advance(obstacles[1..], speed)
  }

  /** Advancing works element by element, so it keeps relative order. */
  lemma {:induction false} AdvanceConcat(a: seq<Obstacle>, b: seq<Obstacle>, speed: real)
    ensures Advance(a + b, speed) == Advance(a, speed) + Advance(b, speed)
  {
    if a != [] {
      var o := Shifted(a[0], speed);
      var head := if OnScreen(o) then [o] else [];
      assert (a + b)[0] == a[0];
      assert (a + b)[1..] == a[1..] + b;
      assert Advance(a + b, speed) == head + Advance(a[1..] + b, speed);
      AdvanceConcat(a[1..], b, speed);
      assert Advance(a, speed) == head + Advance(a[1..], speed);
      assert head + (Advance(a[1..], speed) + Advance(b, speed))
          == (head + Advance(a[1..], speed)) + Advance(b, speed);
    } else {
      assert a + b == b;
    }
  }

  /** The survivors are exactly the moved obstacles that are still on screen. */
  lemma {:induction false} AdvanceMembers(obstacles: seq<Obstacle>, speed: real, o: Obstacle)
    ensures o in Advance(obstacles, speed) <==>
            OnScreen(o) && exists k :: 0 <= k < |obstacles| && o == Shifted(obstacles[k], speed)
  {
    if obstacles != [] {
      AdvanceMembers(obstacles[1..], speed, o);
      if exists k :: 0 <= k < |obstacles| && o == Shifted(obstacles[k], speed) {
        var k :| 0 <= k < |obstacles| && o == Shifted(obstacles[k], speed);
        if k > 0 {
          assert o == Shifted(obstacles[1..][k - 1], speed);
        }
      }
      if exists k :: 0 <= k < |obstacles[1..]| && o == Shifted(obstacles[1..][k], speed) {
        var k :| 0 <= k < |obstacles[1..]| && o == Shifted(obstacles[1..][k], speed);
        assert o == Shifted(obstacles[k + 1], speed);
      }
    }
  }

  /** The obstacle list after `n` frames of scrolling at a constant speed,
      with nothing spawned. */
  function Scrolled(obstacles: seq<Obstacle>, speed: real, n: nat): seq<Obstacle>
  {
    if n == 0 then obstacles else Advance(Scrolled(obstacles, speed, n - 1), speed)
  }

  /** One frame moves a lone obstacle left by the speed and keeps it while
      its right edge is right of the border. */
  lemma AdvanceOne(p: Obstacle, speed: real)
    ensures Advance([p], speed)
              == if p.x - speed + p.width > 0.0 then [p.(x := p.x - speed)] else []
  {
    assert [p][1..] == [];
  }

  /** The distance covered in `n` frames at speed `s`, frame by frame. */
  function Travel(s: real, n: nat): real
  {
    if n == 0 then 0.0 else Travel(s, n - 1) + s
  }

  lemma {:induction false} TravelIsProduct(s: real, n: nat)
    ensures Travel(s, n) == (n as real) * s
  {
    if n > 0 {
      TravelIsProduct(s, n - 1);
      assert (n as real) * s == ((n - 1) as real) * s + s;
    }
  }

  /** Once the right edge has reached the border it stays there. */
  lemma TravelGone(s: real, n: nat)
    requires n > 0
    requires SPAWN_X + OBSTACLE_WIDTH - Travel(s, n - 1) <= 0.0
    ensures SPAWN_X + OBSTACLE_WIDTH - Travel(s, n) <= 0.0
  {
    TravelIsProduct(s, n - 1);
  }

  lemma {:induction false} LifetimeTravel(s: real, n: nat)
    ensures var o := NewObstacle(s);
            Scrolled([o], s, n)
              == if SPAWN_X + OBSTACLE_WIDTH - Travel(s, n) > 0.0
                 then [o.(x := SPAWN_X - Travel(s, n))] else []
  {
    if n > 0 {
      LifetimeTravel(s, n - 1);
      var o := NewObstacle(s);
      var m := Travel(s, n - 1);
      if SPAWN_X + OBSTACLE_WIDTH - m > 0.0 {
        AdvanceOne(o.(x := SPAWN_X - m), s);
      } else {
        TravelGone(s, n);
      }
    }
  }

  /** A spawned obstacle scrolled at a constant speed `s` for `n` frames sits
      at 800 - n s while its right edge, 817 - n s, is right of the border,
      and is gone from the first frame on which that edge reaches it. */
  lemma Lifetime(s: real, n: nat)
    ensures var o := NewObstacle(s);
            Scrolled([o], s, n)
              == if SPAWN_X + OBSTACLE_WIDTH - (n as real) * s > 0.0
                 then [o.(x := SPAWN_X - (n as real) * s)] else []
  {
    LifetimeTravel(s, n);
    TravelIsProduct(s, n);
  }

  /** At the start speed of 4 a spawned obstacle is still live after 204
      frames and gone after 205. */
  lemma LifetimeAtStartSpeed()
    ensures Scrolled([NewObstacle(START_SPEED)], START_SPEED, 204)
              == [NewObstacle(START_SPEED).(x := -16.0)]
    ensures Scrolled([NewObstacle(START_SPEED)], START_SPEED, 205) == []
  {
    Lifetime(START_SPEED, 204);
    Lifetime(START_SPEED, 205);
  }

  /** The obstacle the spawner appends. */
  function NewObstacle(speed: real): Obstacle
  {
    Obstacle(SPAWN_X, OBSTACLE_Y, OBSTACLE_WIDTH, OBSTACLE_HEIGHT, speed)
  }

  function Spawned(spawn: bool, speed: real): seq<Obstacle>
  {
    if spawn then [NewObstacle(speed)] else []
  }

  // ---------------------------------------------------------------------------
  // Speed

  /** The speed follows the accumulator, capped at MAX_SPEED. */
  function SpeedFor(scoreAcc: real): (s: real)
    ensures s <= MAX_SPEED
    ensures 0.0 <= scoreAcc ==> START_SPEED <= s
    ensures scoreAcc >= 1600.0 ==> s == MAX_SPEED
  {
    Min(START_SPEED + scoreAcc * SPEED_PER_POINT, MAX_SPEED)
  }

  lemma SpeedMonotone(a: real, b: real)
    requires a <= b
    ensures SpeedFor(a) <= SpeedFor(b)
  {
  }

  // ---------------------------------------------------------------------------
  // The state machine

  predicate IsSpawnedObstacle(o: Obstacle, gameSpeed: real)
  {
    o.y == OBSTACLE_Y && o.width == OBSTACLE_WIDTH && o.height == OBSTACLE_HEIGHT &&
    START_SPEED <= o.speed <= gameSpeed
  }

  /** What holds of every reachable state. */
  predicate Inv(w: World)
  {
    && 0.0 <= w.scoreAcc
    && w.gameSpeed == SpeedFor(w.scoreAcc)
    && w.dino.x == DINO_X && w.dino.width == DINO_WIDTH && w.dino.height == DINO_HEIGHT
    && w.dino.y <= GROUND_Y
    && 0.0 <= w.dino.animationFrame < 2.0
    && (forall o :: o in w.obstacles ==> OnScreen(o) && IsSpawnedObstacle(o, w.gameSpeed))
    && (w.state == Playing ==>
          && w.score == w.scoreAcc.Floor as real
          && (w.dino.isJumping || (w.dino.y == GROUND_Y && w.dino.velocityY == 0.0)))
  }

  /** The pose `startGame` puts the dinosaur in. */
  function StartPose(): Dinosaur
  {
    Dinosaur(DINO_X, GROUND_Y, DINO_WIDTH, DINO_HEIGHT, 0.0, false, 0.0)
  }

  /** The state when the hook mounts; `saved` is the stored high score. */
  function Initial(saved: Option<int>): (w: World)
    ensures Inv(w) && w.state == Waiting && w.obstacles == []
    ensures w.highScore == if saved.Some? then saved.value as real else 0.0
  {
    World(Waiting, 0.0, if saved.Some? then saved.value as real else 0.0,
          Dinosaur(DINO_X, DINO_START_Y, DINO_WIDTH, DINO_HEIGHT, 0.0, false, 0.0),
          [], START_SPEED, 0.0)
  }

  /** `startGame`, from any state. */
  function AfterStart(w: World): (r: World)
    ensures Inv(r)
    ensures r.state == Playing && r.highScore == w.highScore
  {
    w.(state := Playing, score := 0.0, scoreAcc := 0.0, gameSpeed := START_SPEED,
       dino := StartPose(), obstacles := [])
  }

  /** `jump`: an upward impulse, only while playing and not already jumping. */
  function AfterJump(w: World): (r: World)
    ensures r.state == w.state && r.score == w.score && r.highScore == w.highScore
    ensures r.obstacles == w.obstacles && r.gameSpeed == w.gameSpeed && r.scoreAcc == w.scoreAcc
  {
    if w.state == Playing && !w.dino.isJumping
    then w.(dino := w.dino.(velocityY := JUMP_FORCE, isJumping := true))
    else w
  }

  /** `resetGame`: back to the waiting screen; nothing else is cleared. */
  function AfterReset(w: World): (r: World)
    ensures r.state == Waiting
    ensures Inv(w) ==> Inv(r)
  {
    w.(state := Waiting)
  }

  /** One call of `gameLoop`; `spawn` is the outcome of the random spawn test. */
  function Next(w: World, spawn: bool): (r: World)
    ensures r.state == Waiting <==> w.state == Waiting
    ensures r.state == Playing ==> w.state == Playing
    ensures r.highScore >= w.highScore && r.scoreAcc >= w.scoreAcc
  {
    if w.state != Playing then w
    else
      var dino := FramePhysics(w.dino);
      var obstacles := Advance(w.obstacles, w.gameSpeed) + Spawned(spawn, w.gameSpeed);
      if HitsAny(dino.Box(), obstacles) then
        w.(state := GameOver, dino := dino, obstacles := obstacles, score := w.scoreAcc,
           highScore := if w.scoreAcc > w.highScore then w.scoreAcc else w.highScore)
      else
        var scoreAcc := w.scoreAcc + SCORE_PER_STEP;
        w.(dino := dino, obstacles := obstacles, scoreAcc := scoreAcc,
           score := scoreAcc.Floor as real, gameSpeed := SpeedFor(scoreAcc))
  }

  /** A click or the space bar: start when waiting or over, jump when playing. */
  function AfterPress(w: World): (r: World)
    ensures r.state == Playing && r.highScore == w.highScore
  {
    if w.state == Waiting || w.state == GameOver then AfterStart(w) else AfterJump(w)
  }

  /** The states reached by a run of frames with the given spawn decisions. */
  function Run(w: World, spawns: seq<bool>): World
    decreases |spawns|
  {
    if spawns == [] then w else Run(Next(w, spawns[0]), spawns[1..])
  }

  // ---------------------------------------------------------------------------
  // Properties of the transitions

  lemma StepWhenNotPlaying(w: World, spawn: bool)
    requires w.state != Playing
    ensures Next(w, spawn) == w
  {
  }

  /** The moved obstacles keep the invariant's shape and speed bound. */
  lemma AdvanceKeepsSpawned(obstacles: seq<Obstacle>, speed: real, gameSpeed: real)
    requires forall o :: o in obstacles ==> IsSpawnedObstacle(o, gameSpeed)
    ensures forall o :: o in Advance(obstacles, speed) ==> IsSpawnedObstacle(o, gameSpeed)
  {
    forall o | o in Advance(obstacles, speed) ensures IsSpawnedObstacle(o, gameSpeed) {
      AdvanceMembers(obstacles, speed, o);
      var k :| 0 <= k < |obstacles| && o == Shifted(obstacles[k], speed);
      assert obstacles[k] in obstacles;
    }
  }

  lemma NextPreservesInv(w: World, spawn: bool)
    requires Inv(w)
    ensures Inv(Next(w, spawn))
  {
    if w.state == Playing {
      var r := Next(w, spawn);
      AdvanceKeepsSpawned(w.obstacles, w.gameSpeed, w.gameSpeed);
      SpeedMonotone(w.scoreAcc, r.scoreAcc);
      assert forall o :: o in r.obstacles ==> OnScreen(o) && IsSpawnedObstacle(o, w.gameSpeed);
    }
  }

  /** The obstacle part of a playing frame: the moved survivors in their old
      order, then at most one new obstacle at the right edge moving at the
      current speed. */
  lemma StepObstacles(w: World, spawn: bool)
    requires w.state == Playing
    ensures var r := Next(w, spawn); var moved := Advance(w.obstacles, w.gameSpeed);
            && |moved| <= |r.obstacles| <= |moved| + 1
            && r.obstacles[..|moved|] == moved
            && (spawn <==> |r.obstacles| == |moved| + 1)
            && (spawn ==> r.obstacles[|moved|] == Obstacle(SPAWN_X, GROUND_Y - 30.0, 17.0, 35.0, w.gameSpeed))
            && (forall o :: o in r.obstacles ==> OnScreen(o))
  {
  }

  /** A playing frame ends the run exactly when the moved dinosaur overlaps a
      live obstacle. On a hit the accumulator and the speed are frozen, the
      displayed score becomes the unfloored accumulator and the high score
      becomes the larger of the two. */
  lemma StepCollision(w: World, spawn: bool)
    requires w.state == Playing
    ensures var r := Next(w, spawn);
            && (r.state == GameOver <==> HitsAny(r.dino.Box(), r.obstacles))
            && (r.state == GameOver ==>
                  && r.scoreAcc == w.scoreAcc && r.gameSpeed == w.gameSpeed
                  && r.score == w.scoreAcc
                  && r.highScore == Max(w.highScore, w.scoreAcc))
            && (r.state != GameOver ==> r.state == Playing)
  {
  }

  /** A frame without a hit adds exactly 0.1 to the accumulator, shows its
      floor and moves the speed up towards the cap, never down. */
  lemma StepScoreAndSpeed(w: World, spawn: bool)
    requires Inv(w) && w.state == Playing
    requires Next(w, spawn).state == Playing
    ensures var r := Next(w, spawn);
            && r.scoreAcc == w.scoreAcc + 0.1
            && r.score == r.score.Floor as real
            && r.score <= r.scoreAcc < r.score + 1.0
            && r.gameSpeed == Min(4.0 + r.scoreAcc * 0.005, 12.0)
            && START_SPEED <= w.gameSpeed <= r.gameSpeed <= MAX_SPEED
            && r.highScore == w.highScore
  {
    SpeedMonotone(w.scoreAcc, w.scoreAcc + SCORE_PER_STEP);
  }

  /** The physics part of a playing frame, from any reachable state. */
  lemma StepPhysics(w: World, spawn: bool)
    requires Inv(w) && w.state == Playing
    ensures var d := Next(w, spawn).dino;
            && d.y <= GROUND_Y
            && 0.0 <= d.animationFrame < 2.0
            && d.x == w.dino.x && d.width == w.dino.width && d.height == w.dino.height
            && (d.y == GROUND_Y ==> d.velocityY == 0.0 && !d.isJumping)
  {
    var d := w.dino;
    if d.y + d.velocityY + GRAVITY < GROUND_Y {
      assert FramePhysics(d).y < GROUND_Y;
    }
  }

  /** Standing still on the ground is stable: one frame from the start pose
      leaves the dinosaur at the ground line, at rest, whatever else happens. */
  lemma StepFromStartPose(w: World, spawn: bool)
    ensures var d := Next(AfterStart(w), spawn).dino;
            d.y == GROUND_Y && d.velocityY == 0.0 && !d.isJumping
  {
  }

  /** Over any run of frames the invariant holds, the accumulator, the speed
      and the high score never decrease, and once the run has left `Playing`
      nothing changes any more. */
  lemma {:induction false} RunMonotone(w: World, spawns: seq<bool>)
    requires Inv(w)
    ensures var r := Run(w, spawns);
            && Inv(r)
            && w.scoreAcc <= r.scoreAcc
            && w.gameSpeed <= r.gameSpeed
            && w.highScore <= r.highScore
            && (w.state != Playing ==> r == w)
    decreases |spawns|
  {
    if spawns != [] {
      var n := Next(w, spawns[0]);
      NextPreservesInv(w, spawns[0]);
      if w.state == Playing {
        SpeedMonotone(w.scoreAcc, n.scoreAcc);
      }
      RunMonotone(n, spawns[1..]);
    }
  }

  /** A jump fires only while playing with the dinosaur at rest on the
      ground; a second jump before landing changes nothing. */
  lemma JumpOnlyFromGround(w: World)
    requires Inv(w)
    ensures AfterJump(w) != w ==>
              w.state == Playing && w.dino.y == GROUND_Y && w.dino.velocityY == 0.0 &&
              AfterJump(w).dino == w.dino.(velocityY := JUMP_FORCE, isJumping := true)
    ensures w.state == Playing ==> AfterJump(w).dino.isJumping
    ensures AfterJump(AfterJump(w)) == AfterJump(w)
    ensures Inv(AfterJump(w))
  {
  }

  /** A press starts the game from `waiting` or `gameOver` and jumps while
      playing; either way the game is playing afterwards and the invariant
      and the high score are kept. */
  lemma PressStartsOrJumps(w: World)
    ensures w.state != Playing ==> AfterPress(w) == AfterStart(w)
    ensures w.state == Playing ==> AfterPress(w) == AfterJump(w)
    ensures AfterPress(w).state == Playing
    ensures AfterPress(w).highScore == w.highScore
    ensures Inv(w) ==> Inv(AfterPress(w))
  {
  }

  // ---------------------------------------------------------------------------
  // The two loops of a frame

  /** The `filter` callback of `gameLoop` run over the list: each obstacle
      is moved left by `speed`, and kept if it is still on screen. */
  method MoveObstacles(obstacles: seq<Obstacle>, speed: real) returns (kept: seq<Obstacle>)
    ensures kept == Advance(obstacles, speed)
  {
    kept := [];
    var i := 0;
    while i < |obstacles|
      invariant 0 <= i <= |obstacles|
      invariant kept == Advance(obstacles[..i], speed)
    {
      var o := obstacles[i];
      o := o.(x := o.x - speed);
      if o.x + o.width > 0.0 {
        kept := kept + [o];
      }
      AdvanceConcat(obstacles[..i], [obstacles[i]], speed);
      assert obstacles[..i + 1] == obstacles[..i] + [obstacles[i]];
      i := i + 1;
    }
    assert obstacles[..i] == obstacles;
  }

  /** The collision loop of `gameLoop`, which stops at the first hit. */
  method FindCollision(dino: Dinosaur, obstacles: seq<Obstacle>) returns (hit: bool)
    ensures hit <==> HitsAny(dino.Box(), obstacles)
  {
    var j := 0;
    while j < |obstacles|
      invariant 0 <= j <= |obstacles|
      invariant forall k :: 0 <= k < j ==> !CheckCollision(dino.Box(), obstacles[k].Box())
    {
      if CheckCollision(dino.Box(), obstacles[j].Box()) {
        return true;
      }
      j := j + 1;
    }
    return false;
  }

  // ---------------------------------------------------------------------------
  // The engine object

  class Engine {
    var state: GameState
    var score: real
    var highScore: real
    var dino: Dinosaur
    var obstacles: seq<Obstacle>
    var gameSpeed: real
    var scoreAcc: real

    ghost function Snapshot(): World
      reads this
    {
      World(state, score, highScore, dino, obstacles, gameSpeed, scoreAcc)
    }

    ghost predicate Valid()
      reads this
    {
      Inv(Snapshot())
    }

    /** Mounting the hook; `saved` is the parsed stored high score, if any. */
    constructor(saved: Option<int>)
      ensures Valid() && Snapshot() == Initial(saved)
    {
      state := Waiting;
      score := 0.0;
      highScore := if saved.Some? then saved.value as real else 0.0;
      dino := Dinosaur(DINO_X, DINO_START_Y, DINO_WIDTH, DINO_HEIGHT, 0.0, false, 0.0);
      obstacles := [];
      gameSpeed := START_SPEED;
      scoreAcc := 0.0;
    }

    method StartGame()
      requires Valid()
      modifies this
      ensures Valid() && Snapshot() == AfterStart(old(Snapshot()))
      ensures state == Playing && score == 0.0 && scoreAcc == 0.0 && gameSpeed == 4.0
      ensures dino == Dinosaur(100.0, 240.0, 44.0, 47.0, 0.0, false, 0.0) && obstacles == []
      ensures highScore == old(highScore)
    {
      state := Playing;
      score := 0.0;
      scoreAcc := 0.0;
      gameSpeed := START_SPEED;
      dino := Dinosaur(DINO_X, GROUND_Y, DINO_WIDTH, DINO_HEIGHT, 0.0, false, 0.0);
      obstacles := [];
    }

    method Jump()
      requires Valid()
      modifies this
      ensures Valid() && Snapshot() == AfterJump(old(Snapshot()))
      ensures old(state) == Playing && !old(dino.isJumping) ==>
                dino.velocityY == JUMP_FORCE && dino.isJumping
      ensures old(state) != Playing || old(dino.isJumping) ==> unchanged(this)
    {
      if state == Playing && !dino.isJumping {
        dino := dino.(velocityY := JUMP_FORCE);
        dino := dino.(isJumping := true);
      }
    }

    method ResetGame()
      requires Valid()
      modifies this
      ensures Valid() && Snapshot() == AfterReset(old(Snapshot()))
      ensures state == Waiting
    {
      state := Waiting;
    }

    /** One frame of `gameLoop`. */
    method Step(spawn: bool)
      requires Valid()
      modifies this
      ensures Valid() && Snapshot() == Next(old(Snapshot()), spawn)
      ensures old(state) != Playing ==> unchanged(this)
    {
      ghost var w := Snapshot();
      NextPreservesInv(w, spawn);
      if state != Playing {
        return;
      }

      // dinosaur physics
      dino := dino.(velocityY := dino.velocityY + GRAVITY);
      dino := dino.(y := dino.y + dino.velocityY);
      if dino.y >= GROUND_Y {
        dino := dino.(y := GROUND_Y, velocityY := 0.0, isJumping := false);
      }
      dino := dino.(animationFrame := Mod2(dino.animationFrame + ANIMATION_STEP));
      assert dino == FramePhysics(w.dino);

      // move obstacles and drop those that left the screen
      obstacles := MoveObstacles(obstacles, gameSpeed);

      // spawn
      if spawn {
        obstacles := obstacles + [Obstacle(SPAWN_X, GROUND_Y - 30.0, OBSTACLE_WIDTH, OBSTACLE_HEIGHT, gameSpeed)];
      }
      assert obstacles == Advance(w.obstacles, w.gameSpeed) + Spawned(spawn, w.gameSpeed);

      // collisions
      var hit := FindCollision(dino, obstacles);
      if hit {
        state := GameOver;
        var newScore := scoreAcc;
        score := newScore;
        if newScore > highScore {
          highScore := newScore;
        }
        return;
      }

      // score and speed
      scoreAcc := scoreAcc + SCORE_PER_STEP;
      score := scoreAcc.Floor as real;
      gameSpeed := Min(START_SPEED + scoreAcc * SPEED_PER_POINT, MAX_SPEED);
    }

    /** The click and space-bar handler. */
    method Press()
      requires Valid()
      modifies this
      ensures Valid() && Snapshot() == AfterPress(old(Snapshot()))
    {
      if state == Waiting || state == GameOver {
        StartGame();
      } else if state == Playing {
        Jump();
      }
    }
  }
}
