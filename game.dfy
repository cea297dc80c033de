/** One round of the reflex game (`GameScreen`): the player square, the
    enemies, the clock, the collision check and the best-time record. */
module Game {
  import opened Geometry
  import opened Enemies
  import opened Scoring

  const BoxSize: real := 40.0
  const EnemySize: real := 60.0
  const BorderWidth: real := 40.0
  /** How far around the player's start box no enemy may spawn. */
  const SpawnMargin: real := 50.0
  const EnemyCount: nat := 4
  /** `Random.nextInt(10, 15)`: from 10 inclusive to 15 exclusive. */
  const MinSpeed: int := 10
  const MaxSpeed: int := 15
  /** The offset the tick adds to the player position and takes away again. */
  const BoxOffset: Vec := Vec(1.0, 1.0)

  /** Two results of `Random.nextFloat()`, which lie in [0, 1). */
  datatype Sample = Sample(fx: real, fy: real)

  predicate IsUnitSample(s: Sample)
  {
    0.0 <= s.fx < 1.0 && 0.0 <= s.fy < 1.0
  }

  /** Two results of `Random.nextInt(10, 15)`. */
  datatype SpeedDraw = SpeedDraw(vx: int, vy: int)

  predicate IsSpeedDraw(d: SpeedDraw)
  {
    MinSpeed <= d.vx < MaxSpeed && MinSpeed <= d.vy < MaxSpeed
  }

  function SpawnVelocity(d: SpeedDraw): Vec
  {
    Vec(d.vx as real, d.vy as real)
  }

  function PlayerBox(p: Vec): Box
  {
    Box(p, BoxSize, BoxSize)
  }

  function EnemyBox(p: Vec): Box
  {
    Box(p, EnemySize, EnemySize)
  }

  /** The arena admits an enemy with room to spare on both axes. */
  predicate ArenaFits(width: real, height: real)
  {
    width > 2.0 * BorderWidth + EnemySize && height > 2.0 * BorderWidth + EnemySize
  }

  /** The player square lies inside the range the drag handler clamps to. */
  predicate PlayerInside(p: Vec, width: real, height: real)
  {
    BorderWidth <= p.x <= width - BoxSize - BorderWidth
    && BorderWidth <= p.y <= height - BoxSize - BorderWidth
  }

  /** Where the player starts: the centre of the field. */
  function Centre(width: real, height: real): (p: Vec)
    ensures ArenaFits(width, height) ==> PlayerInside(p, width, height)
  {
    Vec((width - BoxSize) / 2.0, (height - BoxSize) / 2.0)
  }

  /** What every enemy of a round satisfies: it is inside the arena and its
      speed on each axis is one a spawn can draw. */
  predicate EnemyValid(m: Motion, width: real, height: real)
  {
    && InsideArena(m.position, width, height, EnemySize, BorderWidth)
    && MinSpeed as real <= Abs(m.velocity.x) < MaxSpeed as real
    && MinSpeed as real <= Abs(m.velocity.y) < MaxSpeed as real
  }

  /** The player box widened by the spawn margin on every side. */
  function ExclusionZone(player: Vec): Box
  {
    Box(Vec(player.x - SpawnMargin, player.y - SpawnMargin), BoxSize + 2.0 * SpawnMargin, BoxSize + 2.0 * SpawnMargin)
  }

  /** The condition of the spawn loop's `do … while`: the candidate is redrawn
      while it holds. */
  predicate InExclusionZone(p: Vec, player: Vec)
  {
    && (p.x < player.x + BoxSize + SpawnMargin && p.x + EnemySize > player.x - SpawnMargin)
    && (p.y < player.y + BoxSize + SpawnMargin && p.y + EnemySize > player.y - SpawnMargin)
  }

  /** The redraw condition is the strict overlap of the candidate's box with
      the player box widened by the margin on every side. */
  lemma InExclusionZoneIsZoneOverlap(p: Vec, player: Vec)
    ensures InExclusionZone(p, player) <==> Overlaps(EnemyBox(p), ExclusionZone(player))
  {
  }

  /** The half-open range a spawn draw maps into. */
  predicate InSpawnRange(p: Vec, width: real, height: real)
  {
    BorderWidth <= p.x < width - BorderWidth - EnemySize
    && BorderWidth <= p.y < height - BorderWidth - EnemySize
  }

  /** One coordinate of a spawn candidate:
      `nextFloat() * (extent - 2 * borderWidth - enemySize) + borderWidth`. */
  function SpawnCoordinate(f: real, extent: real): (c: real)
    requires 0.0 <= f < 1.0
    ensures extent > 2.0 * BorderWidth + EnemySize ==> BorderWidth <= c < extent - BorderWidth - EnemySize
  {
    var span := extent - BorderWidth * 2.0 - EnemySize;
    UnitScaleBelow(f, span);
    f * span + BorderWidth
  }

  /** A draw from [0, 1) scales a positive span into [0, span). */
  lemma UnitScaleBelow(f: real, span: real)
    requires 0.0 <= f < 1.0
    ensures span > 0.0 ==> 0.0 <= f * span < span
  {
    assert span - f * span == (1.0 - f) * span;
  }

  /** A candidate spawn position from one sample. */
  function SpawnPosition(s: Sample, width: real, height: real): (p: Vec)
    requires IsUnitSample(s)
    ensures ArenaFits(width, height) ==> InSpawnRange(p, width, height)
  {
    Vec(SpawnCoordinate(s.fx, width), SpawnCoordinate(s.fy, height))
  }

  /** The candidates a stream of samples yields that the spawn loop accepts,
      in the order they are drawn. */
  function AcceptedSpawns(draws: seq<Sample>, width: real, height: real, player: Vec): (r: seq<Vec>)
    requires forall i | 0 <= i < |draws| :: IsUnitSample(draws[i])
    ensures |r| <= |draws|
    ensures forall i | 0 <= i < |r| :: !InExclusionZone(r[i], player)
    ensures ArenaFits(width, height) ==> forall i | 0 <= i < |r| :: InSpawnRange(r[i], width, height)
  {
    if draws == [] then []
    else
      var front := AcceptedSpawns(draws[..|draws| - 1], width, height, player);
      var p := SpawnPosition(draws[|draws| - 1], width, height);
      if InExclusionZone(p, player) then front else front + [p]
  }

  /** Drawing more samples only adds accepted spawns at the end. */
  lemma {:induction false} AcceptedSpawnsPrefix(draws: seq<Sample>, k: nat, width: real, height: real, player: Vec)
    requires forall i | 0 <= i < |draws| :: IsUnitSample(draws[i])
    requires k <= |draws|
    ensures AcceptedSpawns(draws[..k], width, height, player) <= AcceptedSpawns(draws, width, height, player)
    decreases |draws|
  {
    if k < |draws| {
      var front := draws[..|draws| - 1];
      AcceptedSpawnsPrefix(front, k, width, height, player);
      assert front[..k] == draws[..k];
    } else {
      assert draws[..k] == draws;
    }
  }

  /** The spawn loop's `do … while` over a finite stream of draws: from
      position `k`, draw until a candidate outside the exclusion zone turns
      up (`accepted`, at `pos`) or the stream runs out. `next` is where the
      following draw would start. */
  method DrawSpawn(draws: seq<Sample>, k: nat, width: real, height: real, player: Vec)
    returns (accepted: bool, pos: Vec, next: nat)
    requires forall i | 0 <= i < |draws| :: IsUnitSample(draws[i])
    requires k <= |draws|
    ensures k <= next <= |draws|
    ensures accepted ==> next > k && pos == SpawnPosition(draws[next - 1], width, height) && !InExclusionZone(pos, player)
    ensures !accepted ==> next == |draws|
    ensures AcceptedSpawns(draws[..next], width, height, player)
            == AcceptedSpawns(draws[..k], width, height, player) + (if accepted then [pos] else [])
  {
    accepted, pos, next := false, Vec(0.0, 0.0), k;
    while !accepted && next < |draws|
      invariant k <= next <= |draws|
      invariant accepted ==> next > k && pos == SpawnPosition(draws[next - 1], width, height) && !InExclusionZone(pos, player)
      invariant AcceptedSpawns(draws[..next], width, height, player)
                == AcceptedSpawns(draws[..k], width, height, player) + (if accepted then [pos] else [])
    {
      pos := SpawnPosition(draws[next], width, height);
      accepted := !InExclusionZone(pos, player);
      assert draws[..next + 1][..next] == draws[..next];
      next := next + 1;
    }
  }

  /** A bounce step keeps an enemy inside the arena at the speed it spawned with. */
  lemma AdvanceKeepsEnemyValid(m: Motion, width: real, height: real)
    requires ArenaFits(width, height) && EnemyValid(m, width, height)
    ensures EnemyValid(Advance(m, width, height, EnemySize, BorderWidth), width, height)
  {
  }

  /** A freshly spawned enemy satisfies the round's enemy invariant. */
  lemma SpawnedEnemyValid(pos: Vec, d: SpeedDraw, width: real, height: real)
    requires ArenaFits(width, height) && InSpawnRange(pos, width, height) && IsSpeedDraw(d)
    ensures EnemyValid(Motion(pos, SpawnVelocity(d)), width, height)
  {
  }

  /** An enemy outside the exclusion zone does not touch the player box. */
  lemma OutsideZoneMissesPlayer(p: Vec, player: Vec)
    requires !InExclusionZone(p, player)
    ensures !Overlaps(PlayerBox(player), EnemyBox(p))
  {
  }

  /** On a square field narrower than 340 (and wide enough for an enemy)
      every candidate falls in the exclusion zone around the centred player,
      so the spawn loop draws forever. */
  lemma NarrowFieldRejectsEveryDraw(s: Sample, w: real)
    requires IsUnitSample(s) && 2.0 * BorderWidth + EnemySize < w < 340.0
    ensures InExclusionZone(SpawnPosition(s, w, w), Centre(w, w))
  {
  }

  /** From width 340 on, the draw (0, 0) is accepted. */
  lemma WideFieldAcceptsCornerDraw(w: real)
    requires w >= 340.0
    ensures !InExclusionZone(SpawnPosition(Sample(0.0, 0.0), w, w), Centre(w, w))
  {
  }

  /** On such a narrow field no stream of draws yields a spawn. */
  lemma {:induction false} NarrowFieldAcceptsNothing(draws: seq<Sample>, w: real)
    requires forall i | 0 <= i < |draws| :: IsUnitSample(draws[i])
    requires 2.0 * BorderWidth + EnemySize < w < 340.0
    ensures AcceptedSpawns(draws, w, w, Centre(w, w)) == []
  {
    if draws != [] {
      NarrowFieldAcceptsNothing(draws[..|draws| - 1], w);
      NarrowFieldRejectsEveryDraw(draws[|draws| - 1], w);
    }
  }

  /** Whether a tick ends the game does not depend on the order in which
      the enemies are scanned. */
  lemma CollidesIgnoresOrder(player: Vec, s: seq<Vec>, t: seq<Vec>)
    requires multiset(s) == multiset(t)
    ensures Collides(player, s) == Collides(player, t)
  {
    if Collides(player, s) {
      CollidesWithElement(player, s, t);
    }
    if Collides(player, t) {
      CollidesWithElement(player, t, s);
    }
  }

  lemma CollidesWithElement(player: Vec, s: seq<Vec>, t: seq<Vec>)
    requires multiset(s) == multiset(t) && Collides(player, s)
    ensures Collides(player, t)
  {
    var i :| 0 <= i < |s| && Overlaps(PlayerBox(player), EnemyBox(s[i]));
    assert s[i] in multiset(s);
    assert s[i] in t;
    var j :| 0 <= j < |t| && t[j] == s[i];
  }

  /** The enemy positions after `n` ticks, from their motions `ms`. */
  function PositionsAfter(ms: seq<Motion>, n: nat, width: real, height: real): (ps: seq<Vec>)
    ensures |ps| == |ms|
    ensures forall i | 0 <= i < |ms| :: ps[i] == AdvanceN(ms[i], n, width, height, EnemySize, BorderWidth).position
  {
    seq(|ms|, i requires 0 <= i < |ms| => AdvanceN(ms[i], n, width, height, EnemySize, BorderWidth).position)
  }

  /** Some enemy box overlaps the player box. */
  predicate Collides(player: Vec, enemies: seq<Vec>)
  {
    exists i | 0 <= i < |enemies| :: Overlaps(PlayerBox(player), EnemyBox(enemies[i]))
  }

  /** The state of `GameScreen`: flags, timestamps, positions and the enemies. */
  class Round {
    const screenWidth: real
    const screenHeight: real
    var boxPosition: Vec
    var gameOver: bool
    var gameStarted: bool
    var startTime: int
    var endTime: int
    var currentGameTime: int
    var bestTime: real
    /** The value stored under the best-time key of the key-value store. */
    var storedBest: real
    var enemies: seq<Enemy>

    ghost predicate Valid()
      reads this, enemies
    {
      && ArenaFits(screenWidth, screenHeight)
      && PlayerInside(boxPosition, screenWidth, screenHeight)
      && |enemies| <= EnemyCount
      && (forall i, j | 0 <= i < j < |enemies| :: enemies[i] != enemies[j])
      && (forall i | 0 <= i < |enemies| :: EnemyValid(enemies[i].State(), screenWidth, screenHeight))
    }

    /** The first composition of the screen: the field is square, the best
        time is read from the store (0 when absent) and there are no enemies
        until the first reset. */
    constructor (screenWidth: real, storedBest: real)
      requires ArenaFits(screenWidth, screenWidth)
      ensures Valid()
      ensures this.screenWidth == screenWidth && screenHeight == screenWidth
      ensures boxPosition == Centre(screenWidth, screenWidth)
      ensures !gameOver && !gameStarted
      ensures startTime == 0 && endTime == 0 && currentGameTime == 0
      ensures bestTime == storedBest && this.storedBest == storedBest
      ensures enemies == []
    {
      this.screenWidth := screenWidth;
      screenHeight := screenWidth;
      boxPosition := Centre(screenWidth, screenWidth);
      gameOver, gameStarted := false, false;
      startTime, endTime, currentGameTime := 0, 0, 0;
      bestTime := storedBest;
      this.storedBest := storedBest;
      enemies := [];
    }

    function EnemyPositions(): (ps: seq<Vec>)
      reads this, enemies
      ensures |ps| == |enemies|
      ensures forall i | 0 <= i < |enemies| :: ps[i] == enemies[i].position
    {
      seq(|enemies|, i reads this, enemies requires 0 <= i < |enemies| => enemies[i].position)
    }

    function States(): (ms: seq<Motion>)
      reads this, enemies
      ensures |ms| == |enemies|
      ensures forall i | 0 <= i < |enemies| :: ms[i] == enemies[i].State()
    {
      seq(|enemies|, i reads this, enemies requires 0 <= i < |enemies| => enemies[i].State())
    }

    /** `startClock`: drag start records the time and starts the round. */
    method StartClock(now: int)
      requires Valid()
      modifies this`startTime, this`gameStarted
      ensures Valid()
      ensures startTime == now && gameStarted
    {
      startTime := now;
      gameStarted := true;
    }

    /** `endClock`: drag end records the time and ends the round, whatever
        state it is in. */
    method EndClock(now: int)
      requires Valid()
      modifies this`endTime, this`gameOver
      ensures Valid()
      ensures endTime == now && gameOver
    {
      endTime := now;
      gameOver := true;
    }

    /** `calcTime`: the survived time in seconds, from the last tick's
        elapsed milliseconds. */
    function CalcTime(): (seconds: real)
      reads this
      ensures seconds * 1000.0 == currentGameTime as real
    {
      currentGameTime as real / 1000.0
    }

    /** The drag handler: moves the player by the drag delta, clamped to the
        interior, unless the game is over. */
    method Drag(dx: real, dy: real)
      requires Valid()
      modifies this`boxPosition
      ensures Valid()
      ensures old(gameOver) ==> boxPosition == old(boxPosition)
      ensures !old(gameOver) ==>
                boxPosition == Vec(Clamp(old(boxPosition.x) + dx, BorderWidth, screenWidth - BoxSize - BorderWidth),
                                   Clamp(old(boxPosition.y) + dy, BorderWidth, screenHeight - BoxSize - BorderWidth))
    {
      if !gameOver {
        var newX := Clamp(boxPosition.x + dx, BorderWidth, screenWidth - BoxSize - BorderWidth);
        var newY := Clamp(boxPosition.y + dy, BorderWidth, screenHeight - BoxSize - BorderWidth);
        boxPosition := Vec(newX, newY);
      }
    }

    /** The collision scan of a tick: does any enemy overlap the player? */
    method PlayerHit() returns (hit: bool)
      ensures hit == Collides(boxPosition, EnemyPositions())
    {
      hit := false;
      var i := 0;
      while i < |enemies|
        invariant 0 <= i <= |enemies|
        invariant hit <==> exists k | 0 <= k < i :: Overlaps(PlayerBox(boxPosition), EnemyBox(enemies[k].position))
      {
        if Overlaps(PlayerBox(boxPosition), EnemyBox(enemies[i].position)) {
          hit := true;
        }
        i := i + 1;
      }
    }

    /** The first `forEach` of a tick: every enemy takes one bounce step. */
    method MoveEnemies()
      requires Valid()
      modifies enemies
      ensures Valid()
      ensures forall i | 0 <= i < |enemies| ::
                enemies[i].State() == Advance(old(enemies[i].State()), screenWidth, screenHeight, EnemySize, BorderWidth)
    {
      var i := 0;
      while i < |enemies|
        invariant 0 <= i <= |enemies|
        invariant forall k | 0 <= k < i ::
                    enemies[k].State() == Advance(old(enemies[k].State()), screenWidth, screenHeight, EnemySize, BorderWidth)
        invariant forall k | i <= k < |enemies| :: enemies[k].State() == old(enemies[k].State())
      {
        enemies[i].UpdatePosition(screenWidth, screenHeight, EnemySize, BorderWidth);
        i := i + 1;
      }
      forall k | 0 <= k < |enemies|
        ensures EnemyValid(enemies[k].State(), screenWidth, screenHeight)
      {
        AdvanceKeepsEnemyValid(old(enemies[k].State()), screenWidth, screenHeight);
      }
    }

    /** One pass of the tick loop, run while the round is started and not
        over: update the elapsed time, advance every enemy, then end the game
        if an enemy touches the player. */
    method Tick(now: int)
      requires Valid()
      modifies this, enemies
      ensures Valid()
      ensures enemies == old(enemies) && boxPosition == old(boxPosition)
      ensures gameStarted == old(gameStarted) && startTime == old(startTime) && endTime == old(endTime)
      ensures bestTime == old(bestTime) && storedBest == old(storedBest)
      ensures old(gameOver) ==> gameOver
      ensures old(gameStarted && !gameOver) ==>
                && currentGameTime == now - startTime
                && (forall i | 0 <= i < |enemies| ::
                      enemies[i].State() == Advance(old(enemies[i].State()), screenWidth, screenHeight, EnemySize, BorderWidth))
                && gameOver == Collides(boxPosition, EnemyPositions())
      ensures !old(gameStarted && !gameOver) ==>
                && currentGameTime == old(currentGameTime) && gameOver == old(gameOver)
                && (forall i | 0 <= i < |enemies| :: enemies[i].State() == old(enemies[i].State()))
    {
      if gameStarted && !gameOver {
        currentGameTime := now - startTime;
        MoveEnemies();
        boxPosition := Vec(boxPosition.x + BoxOffset.x, boxPosition.y + BoxOffset.y);
        boxPosition := Vec(boxPosition.x - BoxOffset.x, boxPosition.y - BoxOffset.y);
        var hit := PlayerHit();
        if hit {
          gameOver := true;
        }
      }
    }

    /** The tick loop: ticks at the given clock readings while the round is
        started and not over; returns how many ticks ran. */
    method RunClock(clock: seq<int>) returns (ticks: nat)
      requires Valid()
      modifies this, enemies
      ensures Valid()
      ensures enemies == old(enemies) && boxPosition == old(boxPosition)
      ensures gameStarted == old(gameStarted) && startTime == old(startTime) && endTime == old(endTime)
      ensures bestTime == old(bestTime) && storedBest == old(storedBest)
      ensures ticks <= |clock|
      ensures ticks > 0 ==> old(gameStarted && !gameOver)
      // Ticking stops only when the clock runs out or the round has ended.
      ensures ticks < |clock| ==> !gameStarted || gameOver
      ensures ticks > 0 ==> currentGameTime == clock[ticks - 1] - startTime
                            && gameOver == Collides(boxPosition, EnemyPositions())
      ensures ticks == 0 ==> currentGameTime == old(currentGameTime) && gameOver == old(gameOver)
      ensures forall i | 0 <= i < |enemies| ::
                enemies[i].State() == AdvanceN(old(enemies[i].State()), ticks, screenWidth, screenHeight, EnemySize, BorderWidth)
      // No tick before the last found a collision: the loop stops at the
      // first one, and its reading fixes the elapsed time.
      ensures forall j | 1 <= j < ticks :: !Collides(boxPosition, PositionsAfter(old(States()), j, screenWidth, screenHeight))
    {
      ticks := 0;
      ghost var ms0 := States();
      while ticks < |clock| && gameStarted && !gameOver
        invariant Valid()
        invariant enemies == old(enemies) && boxPosition == old(boxPosition)
        invariant gameStarted == old(gameStarted) && startTime == old(startTime) && endTime == old(endTime)
        invariant bestTime == old(bestTime) && storedBest == old(storedBest)
        invariant ticks <= |clock|
        invariant ticks > 0 ==> old(gameStarted && !gameOver)
        invariant ticks > 0 ==> currentGameTime == clock[ticks - 1] - startTime
                                && gameOver == Collides(boxPosition, EnemyPositions())
        invariant ticks == 0 ==> currentGameTime == old(currentGameTime) && gameOver == old(gameOver)
        invariant forall i | 0 <= i < |enemies| ::
                    enemies[i].State() == AdvanceN(old(enemies[i].State()), ticks, screenWidth, screenHeight, EnemySize, BorderWidth)
        invariant ms0 == old(States())
        invariant forall j | 1 <= j < ticks :: !Collides(boxPosition, PositionsAfter(ms0, j, screenWidth, screenHeight))
      {
        assert ticks > 0 ==> EnemyPositions() == PositionsAfter(ms0, ticks, screenWidth, screenHeight);
        Tick(clock[ticks]);
        ticks := ticks + 1;
      }
    }

    /** The game-over effect: keep the survived time as the best time when it
        is strictly greater, and save it. */
    method RecordSurvival()
      requires Valid() && gameOver
      modifies this`bestTime, this`storedBest
      ensures Valid()
      ensures bestTime == NewBest(old(bestTime), CalcTime())
      ensures storedBest == if CalcTime() > old(bestTime) then CalcTime() else old(storedBest)
    {
      var timeSurvived := CalcTime();
      if timeSurvived > bestTime {
        bestTime := timeSurvived;
        storedBest := bestTime;
      }
    }

    /** `resetGame`: back to the start of a round, with the player centred
        and four enemies spawned away from it. `draws` stands for the stream
        of `nextFloat` pairs the spawn loop consumes; when it runs out before
        four are accepted the result is `false` (the real loop would still be
        drawing) and the enemies accepted so far are in place. */
    method ResetGame(draws: seq<Sample>, speeds: seq<SpeedDraw>) returns (complete: bool)
      requires Valid()
      requires forall i | 0 <= i < |draws| :: IsUnitSample(draws[i])
      requires |speeds| == EnemyCount && forall i | 0 <= i < |speeds| :: IsSpeedDraw(speeds[i])
      modifies this
      ensures Valid()
      ensures !gameStarted && !gameOver && currentGameTime == 0
      ensures startTime == old(startTime) && endTime == old(endTime)
      ensures bestTime == old(bestTime) && storedBest == old(storedBest)
      ensures boxPosition == Centre(screenWidth, screenHeight)
      ensures var spawns := AcceptedSpawns(draws, screenWidth, screenHeight, boxPosition);
              && (complete <==> |spawns| >= EnemyCount)
              && |enemies| == (if complete then EnemyCount else |spawns|)
              && EnemyPositions() == spawns[..|enemies|]
      ensures forall i | 0 <= i < |enemies| :: fresh(enemies[i]) && enemies[i].velocity == SpawnVelocity(speeds[i])
      ensures !Collides(boxPosition, EnemyPositions())
    {
      gameStarted := false;
      gameOver := false;
      currentGameTime := 0;
      boxPosition := Centre(screenWidth, screenHeight);
      enemies := [];
      complete := SpawnEnemies(draws, speeds);
    }

    /** The `repeat(4)` of `resetGame`: adds enemies at the accepted spawn
        positions, each with its drawn speeds, until there are four or the
        draws run out. */
    method SpawnEnemies(draws: seq<Sample>, speeds: seq<SpeedDraw>) returns (complete: bool)
      requires Valid() && enemies == []
      requires forall i | 0 <= i < |draws| :: IsUnitSample(draws[i])
      requires |speeds| == EnemyCount && forall i | 0 <= i < |speeds| :: IsSpeedDraw(speeds[i])
      modifies this`enemies
      ensures Valid()
      ensures var spawns := AcceptedSpawns(draws, screenWidth, screenHeight, boxPosition);
              && (complete <==> |spawns| >= EnemyCount)
              && |enemies| == (if complete then EnemyCount else |spawns|)
              && EnemyPositions() == spawns[..|enemies|]
      ensures forall i | 0 <= i < |enemies| :: fresh(enemies[i]) && enemies[i].velocity == SpawnVelocity(speeds[i])
      ensures !Collides(boxPosition, EnemyPositions())
    {
      complete := true;
      var k := 0;
      while |enemies| < EnemyCount
        invariant k <= |draws| && |enemies| <= EnemyCount
        invariant var found := AcceptedSpawns(draws[..k], screenWidth, screenHeight, boxPosition);
                  |enemies| == |found| && forall i | 0 <= i < |enemies| :: enemies[i].position == found[i]
        invariant forall i | 0 <= i < |enemies| :: fresh(enemies[i]) && enemies[i].velocity == SpawnVelocity(speeds[i])
        invariant forall i, j | 0 <= i < j < |enemies| :: enemies[i] != enemies[j]
      {
        var accepted, enemyPosition, next := DrawSpawn(draws, k, screenWidth, screenHeight, boxPosition);
        k := next;
        if !accepted {
          complete := false;
          break;
        }
        var e := new Enemy(enemyPosition, SpawnVelocity(speeds[|enemies|]));
        enemies := enemies + [e];
      }
      AcceptedSpawnsPrefix(draws, k, screenWidth, screenHeight, boxPosition);
      if !complete {
        assert draws[..k] == draws;
      }
      var found := AcceptedSpawns(draws[..k], screenWidth, screenHeight, boxPosition);
      forall i | 0 <= i < |enemies|
        ensures EnemyValid(enemies[i].State(), screenWidth, screenHeight)
        ensures !Overlaps(PlayerBox(boxPosition), EnemyBox(enemies[i].position))
      {
        SpawnedEnemyValid(found[i], speeds[i], screenWidth, screenHeight);
        OutsideZoneMissesPlayer(found[i], boxPosition);
      }
    }
  }
}
