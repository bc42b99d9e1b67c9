/**
 * The session rules of the carrom game as functions on values: the shoot
 * guard and launch (the mouseup handler), the gating of a frame by the
 * running and paused flags, the striker following the mouse while idle,
 * the game-over transition with the best score and the leaderboard, the
 * coin formation, restart and the pause toggle.
 *
 * The Session class performs these in place and is proved equal to them;
 * the lemmas here state what the game promises about them.
 */
module Rules {
  import opened Board
  import opened Collision
  import opened Physics
  import opened Leaderboard

  /** The launch power never exceeds this. */
  const MaxPower: real := 20.0
  /** One unit of power per this much pull-back distance. */
  const PowerDivisor: real := 10.0
  /** The queen and two rings of six. */
  const CoinCount: nat := 13
  /** Distance between consecutive rings of the formation: 15 * 2.2 = 33. */
  const RingSpacing: real := CoinRadius * 2.2

  /**
   * Everything a session owns: the table (discs and the striker's flags),
   * the shot counter, the pause, running and game-over flags, the best
   * score and the stored leaderboard.
   */
  datatype GameState = GameState(
    table: Table,
    shots: nat,
    paused: bool,
    running: bool,
    gameOver: bool,
    highScore: int,
    leaderboard: seq<Entry>)

  function Min(a: real, b: real): real { if a <= b then a else b }
  function Max(a: real, b: real): real { if a <= b then b else a }
  function MinInt(a: int, b: int): int { if a <= b then a else b }

  // ---------------------------------------------------------------------------
  // Shooting

  /** The launch power for a pull-back of length dist: dist / 10, capped at 20. */
  function Power(dist: real): (p: real)
    requires 0.0 <= dist
    ensures 0.0 <= p <= MaxPower
    ensures p <= dist / PowerDivisor
    ensures dist <= MaxPower * PowerDivisor ==> p == dist / PowerDivisor
    ensures MaxPower * PowerDivisor <= dist ==> p == MaxPower
  {
    Min(dist / PowerDivisor, MaxPower)
  }

  /**
   * The striker's velocity after a release with the mouse at offset
   * (dx, dy) from it: the power along the reverse of that offset.
   */
  function Launch(dx: real, dy: real, dist: real): Vec
    requires 0.0 < dist
  {
    Vec(-dx / dist * Power(dist), -dy / dist * Power(dist))
  }

  /**
   * The launch points straight away from the mouse: it is the offset
   * (dx, dy) reversed and scaled by power / dist, a factor that is never
   * negative and is at most 1 / 10.
   */
  lemma LaunchOpposesAim(dx: real, dy: real, dist: real)
    requires 0.0 < dist
    ensures var v := Launch(dx, dy, dist); var k := Power(dist) / dist;
      && v == Vec(-(dx * k), -(dy * k))
      && 0.0 <= k <= 1.0 / PowerDivisor
      && v.x * dy == v.y * dx
  {
    var p := Power(dist);
    var k := p / dist;
    var v := Launch(dx, dy, dist);
    assert -dx / dist * p == -(dx * k);
    assert -dy / dist * p == -(dy * k);
    assert k * dist == p;
  }

  /**
   * When dist is the length of the offset (dx, dy), the launch speed is
   * exactly the power: the squared speed is the squared power.
   */
  lemma LaunchSpeed(dx: real, dy: real, dist: real)
    requires 0.0 < dist && dist * dist == dx * dx + dy * dy
    ensures var v := Launch(dx, dy, dist); v.x * v.x + v.y * v.y == Power(dist) * Power(dist)
  {
    LaunchOpposesAim(dx, dy, dist);
    var p := Power(dist);
    var k := p / dist;
    var v := Launch(dx, dy, dist);
    assert k * dist == p;
    calc {
      v.x * v.x + v.y * v.y;
      (dx * k) * (dx * k) + (dy * k) * (dy * k);
      (dx * dx + dy * dy) * (k * k);
      (dist * dist) * (k * k);
      (k * dist) * (k * dist);
      p * p;
    }
  }

  /** The striker is neither in flight nor still moving: a release may shoot. */
  predicate Idle(t: Table) {
    !t.isMoving && !t.isShooting
  }

  /** The pull-back length dist is the distance from the striker to the mouse at (aimX, aimY). */
  predicate AimLength(g: GameState, aimX: real, aimY: real, dist: real) {
    var dx, dy := aimX - g.table.striker.x, aimY - g.table.striker.y;
    && 0.0 <= dist && dist * dist == dx * dx + dy * dy
    && (Idle(g.table) ==> 0.0 < dist)
  }

  /**
   * A mouse release at (aimX, aimY). With the striker idle it is launched,
   * both flags are set and one shot is counted; otherwise nothing happens.
   * The release is not gated by the pause or game-over flags.
   */
  function Release(g: GameState, aimX: real, aimY: real, dist: real): GameState
    requires AimLength(g, aimX, aimY, dist)
  {
    if !Idle(g.table) then g
    else
      var s := g.table.striker;
      var v := Launch(aimX - s.x, aimY - s.y, dist);
      g.(table := g.table.(striker := s.(vx := v.x, vy := v.y), isShooting := true, isMoving := true),
         shots := g.shots + 1)
  }

  /**
   * A release while the striker is busy changes nothing; one while it is
   * idle counts exactly one shot, sets both flags, launches the striker
   * from where it stands at a speed equal to the power, and changes nothing else.
   */
  lemma ReleaseFacts(g: GameState, aimX: real, aimY: real, dist: real)
    requires AimLength(g, aimX, aimY, dist)
    ensures var r := Release(g, aimX, aimY, dist);
      && (!Idle(g.table) ==> r == g)
      && (Idle(g.table) ==>
            && r.shots == g.shots + 1
            && r.table.isShooting && r.table.isMoving
            && Velocity(r.table.striker) == Launch(aimX - g.table.striker.x, aimY - g.table.striker.y, dist)
            && r.table.striker.vx * r.table.striker.vx + r.table.striker.vy * r.table.striker.vy == Power(dist) * Power(dist)
            && Place(r.table.striker) == Place(g.table.striker)
            && r.table.coins == g.table.coins
            && r.(table := g.table, shots := g.shots) == g)
      && r.shots <= g.shots + 1
  {
    if Idle(g.table) {
      LaunchSpeed(aimX - g.table.striker.x, aimY - g.table.striker.y, dist);
    }
  }

  // ---------------------------------------------------------------------------
  // A frame

  /** Math.max(lo, Math.min(hi, x)) with the bounds of the board for radius r. */
  function ClampX(x: real, r: real): (c: real)
    ensures 2.0 * r <= BoardSize ==> BoardX + r <= c <= BoardX + BoardSize - r
    ensures BoardX + r <= x <= BoardX + BoardSize - r ==> c == x
    ensures 2.0 * r <= BoardSize && x < BoardX + r ==> c == BoardX + r
    ensures 2.0 * r <= BoardSize && BoardX + BoardSize - r < x ==> c == BoardX + BoardSize - r
  {
    Max(BoardX + r, Min(BoardX + BoardSize - r, x))
  }

  /** Clamping twice is clamping once. */
  lemma ClampXIdempotent(x: real, r: real)
    requires 2.0 * r <= BoardSize
    ensures ClampX(ClampX(x, r), r) == ClampX(x, r)
  {
  }

  /** While the striker is idle it follows the mouse along its baseline, clamped to the board. */
  function Aim(t: Table, mouseX: real): Table
  {
    if Idle(t) then t.(striker := t.striker.(x := ClampX(mouseX, t.striker.radius))) else t
  }

  predicate AllSunk(coins: seq<Disc>) {
    forall i :: 0 <= i < |coins| ==> !coins[i].active
  }

  /**
   * The game-over transition: the game stops, the best score becomes the
   * smaller of the old best and this game's shots, and the game is
   * recorded in the leaderboard with the timestamp at.
   */
  function EndGame(g: GameState, at: string): GameState
  {
    g.(gameOver := true, running := false,
       highScore := MinInt(g.highScore, g.shots),
       leaderboard := Record(g.leaderboard, Entry(g.shots, at)))
  }

  /**
   * The body of the game loop, drawing aside: nothing while stopped or
   * paused; otherwise the idle striker follows the mouse, the physics
   * advances one step, and the game ends once every coin is sunk.
   */
  function Frame(h: Heading, g: GameState, mouseX: real, at: string): GameState
  {
    if !g.running || g.paused then g
    else
      var g1 := g.(table := PhysicsStep(h, Aim(g.table, mouseX)));
      if AllSunk(g1.table.coins) && !g1.gameOver then EndGame(g1, at) else g1
  }

  /** A frame while stopped or paused leaves every part of the state as it was. */
  lemma FrameWhenHalted(h: Heading, g: GameState, mouseX: real, at: string)
    requires !g.running || g.paused
    ensures Frame(h, g, mouseX, at) == g
  {
  }

  /**
   * A running frame advances the table by one step from the aimed
   * striker; it ends the game exactly when all coins are sunk afterwards
   * and the game was not over, and then records the score.
   */
  lemma FrameFacts(h: Heading, g: GameState, mouseX: real, at: string)
    requires g.running && !g.paused
    ensures var r := Frame(h, g, mouseX, at);
      var t := PhysicsStep(h, Aim(g.table, mouseX));
      && r.table == t
      && r.shots == g.shots && r.paused == g.paused
      && (AllSunk(t.coins) && !g.gameOver ==>
            && r.gameOver && !r.running
            && r.highScore == MinInt(g.highScore, g.shots)
            && r.highScore <= g.highScore && r.highScore <= g.shots
            && r.leaderboard == Record(g.leaderboard, Entry(g.shots, at)))
      && (!(AllSunk(t.coins) && !g.gameOver) ==>
            && r.gameOver == g.gameOver && r.running
            && r.highScore == g.highScore && r.leaderboard == g.leaderboard)
  {
  }

  /** The leaderboard written at game over is sorted and holds at most 50 entries. */
  lemma GameOverLeaderboard(h: Heading, g: GameState, mouseX: real, at: string)
    requires g.running && !g.paused && !g.gameOver
    requires AllSunk(PhysicsStep(h, Aim(g.table, mouseX)).coins)
    ensures var lb := Frame(h, g, mouseX, at).leaderboard;
      && Sorted(lb) && |lb| <= Capacity
      && (|g.leaderboard| < Capacity ==> Entry(g.shots, at) in lb)
  {
    RecordShape(g.leaderboard, Entry(g.shots, at));
    if |g.leaderboard| < Capacity {
      RecordKeepsNewEntry(g.leaderboard, Entry(g.shots, at));
    }
  }

  /** Aiming touches only the idle striker's x coordinate. */
  lemma AimFacts(t: Table, mouseX: real)
    ensures var a := Aim(t, mouseX);
      && a.coins == t.coins && a.isShooting == t.isShooting && a.isMoving == t.isMoving
      && a.striker.(x := t.striker.x) == t.striker
      && (!Idle(t) ==> a == t)
  {
  }

  /**
   * No frame makes a coin active again, and a coin that is already sunk
   * keeps its position and velocity.
   */
  lemma FrameNeverReactivates(h: Heading, g: GameState, mouseX: real, at: string, i: nat)
    requires i < |g.table.coins|
    ensures var r := Frame(h, g, mouseX, at);
      && |r.table.coins| == |g.table.coins|
      && (r.table.coins[i].active ==> g.table.coins[i].active)
      && (!g.table.coins[i].active ==> r.table.coins[i] == g.table.coins[i])
  {
    if g.running && !g.paused {
      var a := Aim(g.table, mouseX);
      AimFacts(g.table, mouseX);
      StepSinksCaptured(h, a, i);
      if !g.table.coins[i].active {
        StepKeepsSunkCoins(h, a, i);
      }
    }
  }

  // ---------------------------------------------------------------------------
  // Formation and restart

  /**
   * The cosines and sines of the six formation angles 0, 60, ..., 300
   * degrees. Math.cos and Math.sin are not modelled; all that is used of
   * them is that they lie in [-1, 1].
   */
  predicate ValidRing(ring: seq<Vec>) {
    && |ring| == 6
    && forall j :: 0 <= j < |ring| ==> -1.0 <= ring[j].x <= 1.0 && -1.0 <= ring[j].y <= 1.0
  }

  /** A coin at rest, centred at (x, y). */
  function NewCoin(x: real, y: real): Disc
  {
    Disc(x, y, 0.0, 0.0, CoinRadius, true)
  }

  /** The queen, on the centre of the board. */
  function Queen(): Disc
  {
    NewCoin(CenterX, CenterY)
  }

  /** Coin j of ring i: 33 * (i + 1) from the centre along formation angle j. */
  function RingCoin(ring: seq<Vec>, i: nat, j: nat): Disc
    requires j < |ring|
  {
    var dist := RingSpacing * (i + 1) as real;
    NewCoin(CenterX + dist * ring[j].x, CenterY + dist * ring[j].y)
  }

  /** The six coins of ring i, in order of angle. */
  function RingCoins(ring: seq<Vec>, i: nat): seq<Disc>
    requires |ring| == 6
  {
    seq(6, j requires 0 <= j < 6 => RingCoin(ring, i, j))
  }

  /** The first n rings, innermost first. */
  function Rings(ring: seq<Vec>, n: nat): seq<Disc>
    requires |ring| == 6
  {
    if n == 0 then [] else Rings(ring, n - 1) + RingCoins(ring, n - 1)
  }

  /** setupCoins: the queen, then the inner ring, then the outer ring. */
  function Formation(ring: seq<Vec>): (cs: seq<Disc>)
    requires |ring| == 6
    ensures |cs| == CoinCount
    ensures forall i :: 0 <= i < |cs| ==> cs[i].active && cs[i].radius == CoinRadius && !Moving(cs[i])
    ensures cs == [Queen()] + RingCoins(ring, 0) + RingCoins(ring, 1)
  {
    assert Rings(ring, 1) == RingCoins(ring, 0);
    [Queen()] + Rings(ring, 2)
  }

  /** Every coin of the formation lies on the board. */
  lemma FormationOnBoard(ring: seq<Vec>)
    requires ValidRing(ring)
    ensures var cs := Formation(ring);
      forall i :: 0 <= i < |cs| ==> InsideBoard(cs[i].x, cs[i].y, cs[i].radius)
  {
    var cs := Formation(ring);
    forall i | 0 <= i < |cs|
      ensures InsideBoard(cs[i].x, cs[i].y, cs[i].radius)
    {
      if i > 0 {
        var j := (i - 1) % 6;
        var c := ring[j];
        assert -1.0 <= c.x <= 1.0 && -1.0 <= c.y <= 1.0;
        if i <= 6 {
          assert cs[i] == RingCoin(ring, 0, j);
          assert CenterX - 33.0 <= CenterX + 33.0 * c.x <= CenterX + 33.0;
          assert CenterY - 33.0 <= CenterY + 33.0 * c.y <= CenterY + 33.0;
        } else {
          assert cs[i] == RingCoin(ring, 1, j);
          assert CenterX - 66.0 <= CenterX + 66.0 * c.x <= CenterX + 66.0;
          assert CenterY - 66.0 <= CenterY + 66.0 * c.y <= CenterY + 66.0;
        }
      }
    }
  }

  /** The striker as the script creates it: on its home spot, at rest. */
  function NewStriker(): Disc
  {
    Disc(HomeX, HomeY, 0.0, 0.0, StrikerRadius, true)
  }

  /** The session when the script starts, given the stored best score and leaderboard. */
  function Initial(ring: seq<Vec>, best: int, stored: seq<Entry>): GameState
    requires |ring| == 6
  {
    GameState(Table(NewStriker(), Formation(ring), false, false), 0, false, true, false, best, stored)
  }

  /**
   * restart: running, not paused, not over, no shots, a fresh formation
   * and the striker reset. The striker's isShooting flag is left as it was.
   */
  function Restart(g: GameState, ring: seq<Vec>): GameState
    requires |ring| == 6
  {
    g.(running := true, paused := false, gameOver := false, shots := 0,
       table := g.table.(striker := Reset(g.table.striker), coins := Formation(ring), isMoving := false))
  }

  /**
   * After a restart no shot is counted, exactly 13 coins exist and all are
   * active and at rest, the game runs unpaused, and the striker is home at
   * rest; the best score and the leaderboard are kept.
   */
  lemma RestartFacts(g: GameState, ring: seq<Vec>)
    requires |ring| == 6
    ensures var r := Restart(g, ring);
      && r.shots == 0
      && |r.table.coins| == CoinCount
      && (forall i :: 0 <= i < |r.table.coins| ==> r.table.coins[i].active && !Moving(r.table.coins[i]))
      && !r.gameOver && !r.paused && r.running
      && r.table.striker.x == HomeX && r.table.striker.y == HomeY && !Moving(r.table.striker)
      && !r.table.isMoving
      && r.highScore == g.highScore && r.leaderboard == g.leaderboard
  {
  }

  /** The pause key and the pause button. */
  function TogglePause(g: GameState): (r: GameState)
    ensures r.paused != g.paused
    ensures r.(paused := g.paused) == g
  {
    g.(paused := !g.paused)
  }

  /** Pausing twice is no change at all. */
  lemma TogglePauseTwice(g: GameState)
    ensures TogglePause(TogglePause(g)) == g
  {
  }

  // ---------------------------------------------------------------------------
  // The session invariant

  /**
   * What holds of every state the game reaches: the striker and the 13
   * coins have their radii, every disc lies on the board, the game runs
   * exactly while it is not over, and a game that is over has every coin
   * sunk, a best score no worse than its shots and a sorted leaderboard of
   * at most 50 entries.
   */
  predicate Valid(g: GameState) {
    var t := g.table;
    && t.striker.active && t.striker.radius == StrikerRadius
    && InsideBoard(t.striker.x, t.striker.y, t.striker.radius)
    && |t.coins| == CoinCount
    && (forall i :: 0 <= i < |t.coins| ==> t.coins[i].radius == CoinRadius)
    && (forall i :: 0 <= i < |t.coins| ==> InsideBoard(t.coins[i].x, t.coins[i].y, t.coins[i].radius))
    && g.running == !g.gameOver
    && (g.gameOver ==>
          && AllSunk(t.coins) && g.highScore <= g.shots
          && Sorted(g.leaderboard) && |g.leaderboard| <= Capacity)
  }

  lemma InitialValid(ring: seq<Vec>, best: int, stored: seq<Entry>)
    requires ValidRing(ring)
    ensures Valid(Initial(ring, best, stored))
  {
    FormationOnBoard(ring);
    HomeIsSafe();
  }

  lemma ReleaseKeepsValid(g: GameState, aimX: real, aimY: real, dist: real)
    requires Valid(g) && AimLength(g, aimX, aimY, dist)
    ensures Valid(Release(g, aimX, aimY, dist))
  {
  }

  lemma TogglePauseKeepsValid(g: GameState)
    requires Valid(g)
    ensures Valid(TogglePause(g))
  {
  }

  lemma RestartKeepsValid(g: GameState, ring: seq<Vec>)
    requires Valid(g) && ValidRing(ring)
    ensures Valid(Restart(g, ring))
  {
    FormationOnBoard(ring);
    HomeIsSafe();
  }

  /** The table after the step of a running frame satisfies the table part of the invariant. */
  lemma StepKeepsTable(h: Heading, g: GameState, mouseX: real)
    requires Valid(g)
    ensures var t := PhysicsStep(h, Aim(g.table, mouseX));
      && t.striker.active && t.striker.radius == StrikerRadius
      && InsideBoard(t.striker.x, t.striker.y, t.striker.radius)
      && |t.coins| == CoinCount
      && (forall i :: 0 <= i < |t.coins| ==> t.coins[i].radius == CoinRadius)
      && (forall i :: 0 <= i < |t.coins| ==> InsideBoard(t.coins[i].x, t.coins[i].y, t.coins[i].radius))
  {
    var a := Aim(g.table, mouseX);
    AimFacts(g.table, mouseX);
    assert SmallDiscs(a);
    StepInsideBoard(h, a);
    StepStriker(h, a);
    var t := PhysicsStep(h, a);
    StepCoinPlaces(h, a);
    assert t.coins == StepCoins(h, a);
    forall i | 0 <= i < |t.coins|
      ensures t.coins[i].radius == CoinRadius
      ensures InsideBoard(t.coins[i].x, t.coins[i].y, t.coins[i].radius)
    {
      if a.coins[i].active {
        UpdateDiscFacts(a.coins[i], false);
        assert Place(t.coins[i]) == Place(UpdateDisc(a.coins[i], false));
        assert Place(t.coins[i]).radius == t.coins[i].radius;
      }
    }
  }

  lemma FrameKeepsValid(h: Heading, g: GameState, mouseX: real, at: string)
    requires Valid(g)
    ensures Valid(Frame(h, g, mouseX, at))
  {
    if g.running && !g.paused {
      StepKeepsTable(h, g, mouseX);
      RecordShape(g.leaderboard, Entry(g.shots, at));
    }
  }

  /** Once the game is over, frames change nothing until a restart. */
  lemma GameOverIsFinal(h: Heading, g: GameState, mouseX: real, at: string)
    requires Valid(g) && g.gameOver
    ensures Frame(h, g, mouseX, at) == g
  {
  }
}
