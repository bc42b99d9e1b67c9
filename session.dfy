/**
 * The game session as the script keeps it: module-level variables and the
 * striker object, updated in place by the event handlers and the game
 * loop. Each method performs its handler's statements and is proved to
 * produce the state its function in Rules describes.
 */
module Game {
  import opened Board
  import opened Collision
  import opened Physics
  import opened Leaderboard
  import opened Rules

  /** Friction and the velocity floor on one disc; also reports whether it still moves. */
  method FrictionDisc(d0: Disc) returns (d: Disc, moving: bool)
    ensures d == ApplyFriction(d0)
    ensures moving == Moving(d)
  {
    d := d0;
    d := d.(vx := d.vx * FrictionFactor);
    d := d.(vy := d.vy * FrictionFactor);
    if Abs(d.vx) < StopSpeed { d := d.(vx := 0.0); }
    if Abs(d.vy) < StopSpeed { d := d.(vy := 0.0); }
    moving := d.vx != 0.0 || d.vy != 0.0;
  }

  /** The four wall checks on one disc, x low, x high, y low, y high. */
  method WallDisc(a: Disc) returns (d: Disc)
    ensures d == Walls(a)
  {
    d := a;
    if d.x - d.radius < BoardX { d := d.(x := BoardX + d.radius, vx := d.vx * -Restitution); }
    if d.x + d.radius > BoardX + BoardSize { d := d.(x := BoardX + BoardSize - d.radius, vx := d.vx * -Restitution); }
    assert (d.x, d.vx) == Bounce(a.x, a.vx, a.radius, BoardX, BoardX + BoardSize);
    assert d == a.(x := d.x, vx := d.vx);
    if d.y - d.radius < BoardY { d := d.(y := BoardY + d.radius, vy := d.vy * -Restitution); }
    if d.y + d.radius > BoardY + BoardSize { d := d.(y := BoardY + BoardSize - d.radius, vy := d.vy * -Restitution); }
    assert (d.y, d.vy) == Bounce(a.y, a.vy, a.radius, BoardY, BoardY + BoardSize);
  }

  /**
   * Friction with the velocity floor, integration and the four wall checks
   * on one disc; also reports whether the disc moves after friction.
   */
  method TravelDisc(d0: Disc) returns (d: Disc, moving: bool)
    ensures d == Travel(d0)
    ensures moving == Moving(ApplyFriction(d0))
  {
    d, moving := FrictionDisc(d0);
    d := d.(x := d.x + d.vx, y := d.y + d.vy);
    d := WallDisc(d);
  }

  /** Some one of the first p pockets captures the centre (x, y). */
  predicate CapturedBefore(x: real, y: real, p: nat) {
    exists q :: 0 <= q < p && q < |Pockets| && InPocket(x, y, Pockets[q])
  }

  /**
   * The four pocket checks on a disc that has travelled: a captured
   * striker is reset (and reported), a captured coin is deactivated.
   */
  method PocketDisc(moved: Disc, isStriker: bool) returns (d: Disc, reset: bool)
    ensures d == Pocket(moved, isStriker)
    ensures reset == (isStriker && Captured(moved.x, moved.y))
  {
    HomeIsSafe();
    d := moved;
    reset := false;
    var p := 0;
    while p < |Pockets|
      invariant 0 <= p <= |Pockets|
      invariant reset == (isStriker && CapturedBefore(moved.x, moved.y, p))
      invariant d == (if CapturedBefore(moved.x, moved.y, p)
                      then (if isStriker then Reset(moved) else moved.(active := false))
                      else moved)
    {
      var dx := d.x - Pockets[p].x;
      var dy := d.y - Pockets[p].y;
      if dx * dx + dy * dy < PocketRadius * PocketRadius {
        if isStriker {
          d := Reset(d);
          reset := true;
        } else {
          d := d.(active := false);
        }
      }
      assert CapturedBefore(moved.x, moved.y, p + 1)
         == (CapturedBefore(moved.x, moved.y, p) || InPocket(moved.x, moved.y, Pockets[p]));
      p := p + 1;
    }
    assert CapturedBefore(moved.x, moved.y, |Pockets|) == Captured(moved.x, moved.y);
  }

  /** Everything the first pass of the step does to one disc. */
  method MoveDisc(d0: Disc, isStriker: bool) returns (d: Disc, moving: bool, reset: bool)
    ensures d == UpdateDisc(d0, isStriker)
    ensures moving == Moving(ApplyFriction(d0))
    ensures reset == (isStriker && Captured(Travel(d0).x, Travel(d0).y))
  {
    var moved;
    moved, moving := TravelDisc(d0);
    d, reset := PocketDisc(moved, isStriker);
  }

  /**
   * The second pass of the step: every unordered pair (i, j), i < j, in
   * order, with the source's rotation into the frame of the line of
   * centres, the one-dimensional exchange, and the rotation back.
   */
  method CollideAll(h: Heading, s0: seq<Disc>) returns (s: seq<Disc>)
    ensures s == Pairs(h, s0, 0)
  {
    s := s0;
    var i := 0;
    while i < |s|
      invariant 0 <= i <= |s| == |s0|
      invariant Pairs(h, s, i) == Pairs(h, s0, 0)
      decreases |s| - i
    {
      ghost var start := s;
      var j := i + 1;
      while j < |s|
        invariant i < j <= |s| == |start|
        invariant Row(h, s, i, j) == Row(h, start, i, i + 1)
        decreases |s| - j
      {
        s := CollideStep(h, s, i, j);
        j := j + 1;
      }
      i := i + 1;
    }
  }

  /** One pair of the second pass: resolve (i, j) if the two discs overlap. */
  method CollideStep(h: Heading, s0: seq<Disc>, i: nat, j: nat) returns (s: seq<Disc>)
    requires i < j < |s0|
    ensures s == CollideAt(h, s0, i, j)
  {
    s := s0;
    var d1 := s[i];
    var d2 := s[j];
    var dx := d2.x - d1.x;
    var dy := d2.y - d1.y;
    if dx * dx + dy * dy < (d1.radius + d2.radius) * (d1.radius + d2.radius) {
      var u := h(dx, dy);
      var e1 := Rotate(Velocity(d1), u);
      var e2 := Rotate(Velocity(d2), u);
      var w := Exchange(d1.radius, d2.radius, e1.x, e2.x);
      var f1 := Unrotate(Vec(w.0, e1.y), u);
      var f2 := Unrotate(Vec(w.1, e2.y), u);
      s := s[i := d1.(vx := f1.x, vy := f1.y)];
      s := s[j := d2.(vx := f2.x, vy := f2.y)];
    }
  }

  /** Write the discs back to the coins they came from, one index at a time. */
  method WriteBack(cs0: seq<Disc>, idx: seq<nat>, vals: seq<Disc>) returns (cs: seq<Disc>)
    requires |idx| == |vals|
    requires forall k :: 0 <= k < |idx| ==> idx[k] < |cs0|
    ensures cs == Scatter(cs0, idx, vals)
  {
    cs := cs0;
    var k := 0;
    while k < |idx|
      invariant 0 <= k <= |idx| && |cs| == |cs0|
      invariant Scatter(cs, idx[k..], vals[k..]) == Scatter(cs0, idx, vals)
    {
      assert idx[k..][1..] == idx[k + 1..] && vals[k..][1..] == vals[k + 1..];
      cs := cs[idx[k] := vals[k]];
      k := k + 1;
    }
  }

  /**
   * The first pass of the step over the discs that take part, the striker
   * first: each is moved, and the pass reports whether any disc moves after
   * friction and whether the striker fell into a pocket.
   */
  method FirstPass(all0: seq<Disc>) returns (all: seq<Disc>, anyMoving: bool, fouled: bool)
    requires 0 < |all0|
    ensures all == PerDisc(all0)
    ensures anyMoving == AnyMoving(all0)
    ensures fouled == Captured(Travel(all0[0]).x, Travel(all0[0]).y)
  {
    all := all0;
    anyMoving := false;
    fouled := false;
    var k := 0;
    while k < |all|
      invariant 0 <= k <= |all| == |all0|
      invariant forall m :: 0 <= m < k ==> all[m] == UpdateDisc(all0[m], m == 0)
      invariant forall m :: k <= m < |all| ==> all[m] == all0[m]
      invariant anyMoving == exists m :: 0 <= m < k && Moving(ApplyFriction(all0[m]))
      invariant fouled == (0 < k && Captured(Travel(all0[0]).x, Travel(all0[0]).y))
    {
      var d, moving, reset := MoveDisc(all[k], k == 0);
      anyMoving := anyMoving || moving;
      fouled := fouled || reset;
      all := all[k := d];
      k := k + 1;
    }
  }

  class Session {
    var striker: Disc
    var coins: seq<Disc>
    /** The striker object's own flags. */
    var isShooting: bool
    var isMoving: bool
    var shots: nat
    var paused: bool
    var running: bool
    var gameOver: bool
    var highScore: int
    /** The leaderboard as stored between games. */
    var leaderboard: seq<Entry>
    /** The values of Math.cos and Math.sin at the six formation angles. */
    const ring: seq<Vec>
    /** The values of Math.cos and Math.sin of Math.atan2 for the collision pass. */
    const heading: Heading

    /** The whole session as a value. */
    function State(): GameState
      reads this
    {
      GameState(Table(striker, coins, isShooting, isMoving), shots, paused, running, gameOver, highScore, leaderboard)
    }

    ghost predicate Valid()
      reads this
    {
      Rules.Valid(State()) && ValidRing(ring)
    }

    /**
     * The script's start: the striker at home, the stored best score and
     * leaderboard, and the formation set up.
     */
    constructor (ring: seq<Vec>, heading: Heading, storedBest: int, stored: seq<Entry>)
      requires ValidRing(ring)
      ensures State() == Initial(ring, storedBest, stored)
      ensures this.ring == ring && this.heading == heading
      ensures Valid()
    {
      this.ring := ring;
      this.heading := heading;
      striker := NewStriker();
      coins := [];
      isShooting := false;
      isMoving := false;
      shots := 0;
      paused := false;
      running := true;
      gameOver := false;
      highScore := storedBest;
      leaderboard := stored;
      new;
      SetupCoins();
      InitialValid(ring, storedBest, stored);
    }

    /** setupCoins: rebuild the coins, the queen first, then each ring by angle. */
    method SetupCoins()
      requires |ring| == 6
      modifies this
      ensures coins == Formation(ring)
      ensures State() == old(State()).(table := old(State()).table.(coins := Formation(ring)))
    {
      coins := [];
      coins := coins + [Queen()];
      var i := 0;
      while i < 2
        invariant 0 <= i <= 2
        invariant coins == [Queen()] + Rings(ring, i)
        invariant State() == old(State()).(table := old(State()).table.(coins := coins))
      {
        var j := 0;
        while j < 6
          invariant 0 <= j <= 6
          invariant coins == [Queen()] + Rings(ring, i) + RingCoins(ring, i)[..j]
          invariant State() == old(State()).(table := old(State()).table.(coins := coins))
        {
          var dist := RingSpacing * (i + 1) as real;
          var coin := NewCoin(CenterX + dist * ring[j].x, CenterY + dist * ring[j].y);
          assert coin == RingCoin(ring, i, j);
          coins := coins + [coin];
          assert RingCoins(ring, i)[..j + 1] == RingCoins(ring, i)[..j] + [RingCoin(ring, i, j)];
          j := j + 1;
        }
        assert RingCoins(ring, i)[..6] == RingCoins(ring, i);
        i := i + 1;
      }
      assert Rings(ring, 2) == RingCoins(ring, 0) + RingCoins(ring, 1);
    }

    /** resetStriker: home, at rest, not moving. */
    method ResetStriker()
      modifies this
      ensures State() == old(State()).(table := old(State()).table.(striker := Reset(old(striker)), isMoving := false))
    {
      striker := striker.(x := HomeX);
      striker := striker.(y := HomeY);
      striker := striker.(vx := 0.0);
      striker := striker.(vy := 0.0);
      isMoving := false;
    }

    /** The mouseup handler with the mouse at (aimX, aimY), dist away from the striker. */
    method Shoot(aimX: real, aimY: real, dist: real)
      requires AimLength(State(), aimX, aimY, dist)
      requires Valid()
      modifies this
      ensures State() == Release(old(State()), aimX, aimY, dist)
      ensures Valid()
    {
      ReleaseKeepsValid(State(), aimX, aimY, dist);
      if !isMoving && !isShooting {
        isShooting := true;
        var dx := aimX - striker.x;
        var dy := aimY - striker.y;
        var power := Min(dist / PowerDivisor, MaxPower);
        striker := striker.(vx := -dx / dist * power, vy := -dy / dist * power);
        isMoving := true;
        shots := shots + 1;
      }
    }

    /** The pause key or button. */
    method TogglePause()
      requires Valid()
      modifies this
      ensures State() == Rules.TogglePause(old(State()))
      ensures Valid()
    {
      TogglePauseKeepsValid(State());
      paused := !paused;
    }

    /** updatePhysics. */
    method Step()
      modifies this
      ensures State() == old(State()).(table := PhysicsStep(heading, old(State()).table))
    {
      ghost var t := State().table;
      var idx := ActiveIndices(coins);
      var all := [striker] + Gather(coins, idx);
      assert all == AllDiscs(t);
      var anyMoving, fouled;
      all, anyMoving, fouled := FirstPass(all);
      all := CollideAll(heading, all);
      assert all == Collided(heading, t);
      striker := all[0];
      coins := WriteBack(coins, idx, all[1..]);
      if fouled {
        isMoving := false;
      }
      if !anyMoving && isShooting {
        isShooting := false;
        isMoving := false;
        ResetStriker();
      }
    }

    /** One pass of the game loop, drawing aside, with the mouse at x = mouseX and the clock reading at. */
    method Frame(mouseX: real, at: string)
      requires Valid()
      modifies this
      ensures State() == Rules.Frame(heading, old(State()), mouseX, at)
      ensures Valid()
    {
      ghost var g := State();
      FrameKeepsValid(heading, g, mouseX, at);
      if !running || paused {
        return;
      }
      if !isMoving && !isShooting {
        striker := striker.(x := mouseX);
        striker := striker.(x := Max(BoardX + striker.radius, Min(BoardX + BoardSize - striker.radius, striker.x)));
      }
      assert State() == g.(table := Aim(g.table, mouseX));
      Step();
      assert State() == g.(table := PhysicsStep(heading, Aim(g.table, mouseX)));
      if AllSunk(coins) && !gameOver {
        EndGame(at);
      }
    }

    /** The game-over branch of the loop, with the clock reading at. */
    method EndGame(at: string)
      modifies this
      ensures State() == Rules.EndGame(old(State()), at)
    {
      gameOver := true;
      running := false;
      highScore := MinInt(highScore, shots);
      var lb := leaderboard;
      lb := lb + [Entry(shots, at)];
      lb := SortByScore(lb);
      leaderboard := Take(lb, Capacity);
    }

    /** restart. */
    method Restart()
      requires Valid()
      modifies this
      ensures State() == Rules.Restart(old(State()), ring)
      ensures Valid()
    {
      RestartKeepsValid(State(), ring);
      running := true;
      paused := false;
      gameOver := false;
      shots := 0;
      SetupCoins();
      ResetStriker();
    }
  }
}
