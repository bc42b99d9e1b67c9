/**
 * The per-frame physics step of the carrom game (updatePhysics), over exact
 * real numbers: friction with a velocity floor, explicit Euler integration,
 * wall clamping with restitution, pocket capture, and the pairwise elastic
 * exchange along the line of centres.
 *
 * The step is specified here as functions on values; the Session class
 * performs it in place with loops and is proved equal to PhysicsStep.
 */
module Physics {
  import opened Board
  import opened Collision

  /**
   * A disc: the striker or a coin. The striker object of the source has no
   * active flag; here it carries one that is true and is proved to stay so.
   */
  datatype Disc = Disc(x: real, y: real, vx: real, vy: real, radius: Radius, active: bool)

  const FrictionFactor: real := 0.98
  const StopSpeed: real := 0.1
  const Restitution: real := 0.8

  function Abs(v: real): (a: real)
    ensures 0.0 <= a && (a == v || a == -v)
  {
    if v < 0.0 then -v else v
  }

  // ---------------------------------------------------------------------------
  // Friction

  /**
   * One velocity component after friction: multiplied by 0.98, then snapped
   * to exactly 0 when its magnitude falls below 0.1.
   */
  function Damp(v: real): (r: real)
    ensures r == 0.0 || StopSpeed <= Abs(r)
    ensures Abs(r) <= Abs(v)
    ensures 0.0 <= r * v
  {
    var w := v * FrictionFactor;
    if Abs(w) < StopSpeed then 0.0 else w
  }

  /** Friction applied n times in a row. */
  function DampTimes(v: real, n: nat): real
  {
    if n == 0 then v else Damp(DampTimes(v, n - 1))
  }

  /** Every damping that leaves a component nonzero takes at least 1/500 off its magnitude. */
  lemma {:induction false} DampDecays(v: real, n: nat)
    ensures DampTimes(v, n) == 0.0 || Abs(DampTimes(v, n)) <= Abs(v) - (n as real) / 500.0
  {
    if n > 0 {
      DampDecays(v, n - 1);
      var w := DampTimes(v, n - 1);
      if Damp(w) != 0.0 {
        assert w != 0.0;
        assert StopSpeed <= Abs(w * FrictionFactor);
        assert Abs(w * FrictionFactor) == Abs(w) * FrictionFactor;
        assert Abs(Damp(w)) <= Abs(w) - 1.0 / 500.0;
      }
    }
  }

  /** Friction alone brings a component to exactly 0 after finitely many frames. */
  lemma FrictionStops(v: real, n: nat)
    requires 500.0 * Abs(v) < n as real
    ensures DampTimes(v, n) == 0.0
  {
    DampDecays(v, n);
  }

  function ApplyFriction(d: Disc): Disc
  {
    d.(vx := Damp(d.vx), vy := Damp(d.vy))
  }

  predicate Moving(d: Disc) {
    d.vx != 0.0 || d.vy != 0.0
  }

  /** One explicit Euler step of unit length. */
  function Advance(d: Disc): Disc
  {
    d.(x := d.x + d.vx, y := d.y + d.vy)
  }

  // ---------------------------------------------------------------------------
  // Walls

  /**
   * One axis of the wall checks: a disc whose edge is past the low wall is
   * put against it and its velocity on that axis is multiplied by -0.8;
   * then the same against the high wall.
   */
  function Bounce(p: real, v: real, r: real, lo: real, hi: real): (b: (real, real))
    ensures 2.0 * r <= hi - lo ==> lo + r <= b.0 <= hi - r
    ensures 2.0 * r <= hi - lo && p - r < lo ==> b == (lo + r, -Restitution * v)
    ensures 2.0 * r <= hi - lo && hi < p + r ==> b == (hi - r, -Restitution * v)
    ensures lo <= p - r && p + r <= hi ==> b == (p, v)
  {
    var (p1, v1) := if p - r < lo then (lo + r, v * -Restitution) else (p, v);
    if p1 + r > hi then (hi - r, v1 * -Restitution) else (p1, v1)
  }

  /** The four wall checks; the two axes are independent. */
  function Walls(d: Disc): (r: Disc)
    ensures 2.0 * d.radius <= BoardSize ==> InsideBoard(r.x, r.y, r.radius)
    ensures r.radius == d.radius && r.active == d.active
  {
    var (x, vx) := Bounce(d.x, d.vx, d.radius, BoardX, BoardX + BoardSize);
    var (y, vy) := Bounce(d.y, d.vy, d.radius, BoardY, BoardY + BoardSize);
    d.(x := x, vx := vx, y := y, vy := vy)
  }

  /** Friction, integration and the walls: one disc's motion in a frame. */
  function Travel(d: Disc): Disc
  {
    Walls(Advance(ApplyFriction(d)))
  }

  // ---------------------------------------------------------------------------
  // Pockets

  /** resetStriker: back to the home spot, at rest. */
  function Reset(d: Disc): Disc
  {
    d.(x := HomeX, y := HomeY, vx := 0.0, vy := 0.0)
  }

  /** A captured striker is reset; a captured coin is deactivated. */
  function Pocket(d: Disc, isStriker: bool): Disc
  {
    if Captured(d.x, d.y) then (if isStriker then Reset(d) else d.(active := false)) else d
  }

  /** Everything the first pass of the step does to one disc. */
  function UpdateDisc(d: Disc, isStriker: bool): Disc
  {
    Pocket(Travel(d), isStriker)
  }

  /** What one disc looks like after the first pass: on the board, captured coins off, a captured striker home. */
  lemma UpdateDiscFacts(d: Disc, isStriker: bool)
    requires d.radius <= StrikerRadius
    ensures var r := UpdateDisc(d, isStriker);
      && InsideBoard(r.x, r.y, r.radius)
      && r.radius == d.radius
      && r.active == (d.active && (isStriker || !Captured(Travel(d).x, Travel(d).y)))
      && (isStriker && Captured(Travel(d).x, Travel(d).y) ==>
            r.x == HomeX && r.y == HomeY && r.vx == 0.0 && r.vy == 0.0)
      && (!Moving(ApplyFriction(d)) ==> !Moving(r))
  {
    HomeIsSafe();
  }

  /** The first pass deactivates exactly the coins that end their travel in a pocket. */
  lemma UpdateDiscActive(d: Disc, isStriker: bool)
    ensures UpdateDisc(d, isStriker).active
        == (d.active && (isStriker || !Captured(Travel(d).x, Travel(d).y)))
  {
  }

  /** The first pass over all discs; index 0 is the striker. */
  function PerDisc(all: seq<Disc>): seq<Disc>
  {
    seq(|all|, k requires 0 <= k < |all| => UpdateDisc(all[k], k == 0))
  }

  /** Some disc still has a nonzero velocity component after friction. */
  predicate AnyMoving(all: seq<Disc>) {
    exists k :: 0 <= k < |all| && Moving(ApplyFriction(all[k]))
  }

  // ---------------------------------------------------------------------------
  // Disc-disc collision

  /**
   * The cosine and sine of Math.atan2(dy, dx), for the centre offset
   * (dx, dy) of two touching discs. The trigonometric functions are not
   * modelled; the step takes them as this parameter.
   */
  type Heading = (real, real) -> Vec

  /** Every direction the heading gives lies on the unit circle. */
  ghost predicate UnitHeading(h: Heading) {
    forall dx, dy :: Unit(h(dx, dy).x, h(dx, dy).y)
  }

  /** The centres are closer than the sum of the radii (distances compared squared). */
  predicate Touching(d1: Disc, d2: Disc) {
    var dx, dy := d2.x - d1.x, d2.y - d1.y;
    dx * dx + dy * dy < (d1.radius + d2.radius) * (d1.radius + d2.radius)
  }

  function Velocity(d: Disc): Vec {
    Vec(d.vx, d.vy)
  }

  /** The direction of the line of centres, from d1 towards d2. */
  function Direction(h: Heading, d1: Disc, d2: Disc): Vec {
    h(d2.x - d1.x, d2.y - d1.y)
  }

  /** Two touching discs after their collision: only the velocities change. */
  function CollidePair(h: Heading, d1: Disc, d2: Disc): (c: (Disc, Disc))
    ensures c.0.(vx := d1.vx, vy := d1.vy) == d1
    ensures c.1.(vx := d2.vx, vy := d2.vy) == d2
  {
    var w := Collide(d1.radius, d2.radius, Velocity(d1), Velocity(d2), Direction(h, d1, d2));
    (d1.(vx := w.0.x, vy := w.0.y), d2.(vx := w.1.x, vy := w.1.y))
  }

  /** Two discs at rest stay at rest when they collide. */
  lemma CollidePairAtRest(h: Heading, d1: Disc, d2: Disc)
    requires !Moving(d1) && !Moving(d2)
    ensures CollidePair(h, d1, d2) == (d1, d2)
  {
    CollideAtRest(d1.radius, d2.radius, Direction(h, d1, d2));
    assert Velocity(d1) == Vec(0.0, 0.0) && Velocity(d2) == Vec(0.0, 0.0);
  }

  // ---------------------------------------------------------------------------
  // The nested loop over unordered pairs

  /** Resolve the pair (i, j) if the two discs overlap. */
  function CollideAt(h: Heading, s: seq<Disc>, i: nat, j: nat): (t: seq<Disc>)
    requires i < j < |s|
    ensures |t| == |s|
  {
    if Touching(s[i], s[j]) then
      var c := CollidePair(h, s[i], s[j]);
      s[i := c.0][j := c.1]
    else s
  }

  /** The inner loop: pairs (i, j), (i, j + 1), ... in order. */
  function Row(h: Heading, s: seq<Disc>, i: nat, j: nat): (t: seq<Disc>)
    requires i < j <= |s|
    ensures |t| == |s|
    decreases |s| - j
  {
    if j == |s| then s else Row(h, CollideAt(h, s, i, j), i, j + 1)
  }

  /** The outer loop: rows i, i + 1, ... in order. */
  function Pairs(h: Heading, s: seq<Disc>, i: nat): (t: seq<Disc>)
    requires i <= |s|
    ensures |t| == |s|
    decreases |s| - i
  {
    if i == |s| then s else Pairs(h, Row(h, s, i, i + 1), i + 1)
  }

  /** A disc with its velocity forgotten: what collisions never change. */
  function Place(d: Disc): Disc
  {
    d.(vx := 0.0, vy := 0.0)
  }

  predicate SamePlaces(a: seq<Disc>, b: seq<Disc>) {
    |a| == |b| && forall k :: 0 <= k < |a| ==> Place(a[k]) == Place(b[k])
  }

  predicate AllAtRest(s: seq<Disc>) {
    forall k :: 0 <= k < |s| ==> !Moving(s[k])
  }

  lemma {:induction false} RowKeepsPlaces(h: Heading, s: seq<Disc>, i: nat, j: nat)
    requires i < j <= |s|
    ensures SamePlaces(Row(h, s, i, j), s)
    decreases |s| - j
  {
    if j < |s| {
      RowKeepsPlaces(h, CollideAt(h, s, i, j), i, j + 1);
    }
  }

  /** The collision pass only changes velocities: positions, radii and flags stay. */
  lemma {:induction false} PairsKeepPlaces(h: Heading, s: seq<Disc>, i: nat)
    requires i <= |s|
    ensures SamePlaces(Pairs(h, s, i), s)
    decreases |s| - i
  {
    if i < |s| {
      RowKeepsPlaces(h, s, i, i + 1);
      PairsKeepPlaces(h, Row(h, s, i, i + 1), i + 1);
    }
  }

  lemma {:induction false} RowAtRest(h: Heading, s: seq<Disc>, i: nat, j: nat)
    requires i < j <= |s| && AllAtRest(s)
    ensures Row(h, s, i, j) == s
    decreases |s| - j
  {
    if j < |s| {
      CollidePairAtRest(h, s[i], s[j]);
      assert CollideAt(h, s, i, j) == s;
      RowAtRest(h, s, i, j + 1);
    }
  }

  /** When every disc is at rest the collision pass changes nothing. */
  lemma {:induction false} PairsAtRest(h: Heading, s: seq<Disc>, i: nat)
    requires i <= |s| && AllAtRest(s)
    ensures Pairs(h, s, i) == s
    decreases |s| - i
  {
    if i < |s| {
      RowAtRest(h, s, i, i + 1);
      PairsAtRest(h, s, i + 1);
    }
  }

  function Add(a: Vec, b: Vec): Vec {
    Vec(a.x + b.x, a.y + b.y)
  }

  function Sub(a: Vec, b: Vec): Vec {
    Vec(a.x - b.x, a.y - b.y)
  }

  /** A disc's momentum, with its radius standing in for its mass. */
  function Weighted(d: Disc): Vec
  {
    Vec(d.radius * d.vx, d.radius * d.vy)
  }

  /** Total radius-weighted momentum of a list of discs. */
  function Momentum(s: seq<Disc>): Vec
    decreases |s|
  {
    if |s| == 0 then Vec(0.0, 0.0) else Add(Weighted(s[0]), Momentum(s[1..]))
  }

  /** Replacing one disc changes the total by the difference of the two momenta. */
  lemma {:induction false} MomentumUpdate(s: seq<Disc>, i: nat, d: Disc)
    requires i < |s|
    ensures Momentum(s[i := d]) == Add(Momentum(s), Sub(Weighted(d), Weighted(s[i])))
    decreases |s|
  {
    if i == 0 {
      assert s[i := d][1..] == s[1..];
    } else {
      assert s[i := d][1..] == s[1..][i - 1 := d];
      MomentumUpdate(s[1..], i - 1, d);
    }
  }

  /** A collision of two discs conserves their total radius-weighted momentum. */
  lemma CollidePairConservesMomentum(h: Heading, d1: Disc, d2: Disc)
    requires UnitHeading(h)
    ensures var c := CollidePair(h, d1, d2);
      Add(Weighted(c.0), Weighted(c.1)) == Add(Weighted(d1), Weighted(d2))
  {
    var u := Direction(h, d1, d2);
    var w := Collide(d1.radius, d2.radius, Velocity(d1), Velocity(d2), u);
    CollideConservesMomentum(d1.radius, d2.radius, Velocity(d1), Velocity(d2), u);
  }

  lemma CollideAtConservesMomentum(h: Heading, s: seq<Disc>, i: nat, j: nat)
    requires UnitHeading(h) && i < j < |s|
    ensures Momentum(CollideAt(h, s, i, j)) == Momentum(s)
  {
    if Touching(s[i], s[j]) {
      var c := CollidePair(h, s[i], s[j]);
      CollidePairConservesMomentum(h, s[i], s[j]);
      MomentumUpdate(s, i, c.0);
      MomentumUpdate(s[i := c.0], j, c.1);
      assert s[i := c.0][j] == s[j];
    }
  }

  lemma {:induction false} RowConservesMomentum(h: Heading, s: seq<Disc>, i: nat, j: nat)
    requires UnitHeading(h) && i < j <= |s|
    ensures Momentum(Row(h, s, i, j)) == Momentum(s)
    decreases |s| - j
  {
    if j < |s| {
      CollideAtConservesMomentum(h, s, i, j);
      RowConservesMomentum(h, CollideAt(h, s, i, j), i, j + 1);
    }
  }

  /** The whole collision pass conserves the total radius-weighted momentum. */
  lemma {:induction false} PairsConserveMomentum(h: Heading, s: seq<Disc>, i: nat)
    requires UnitHeading(h) && i <= |s|
    ensures Momentum(Pairs(h, s, i)) == Momentum(s)
    decreases |s| - i
  {
    if i < |s| {
      RowConservesMomentum(h, s, i, i + 1);
      PairsConserveMomentum(h, Row(h, s, i, i + 1), i + 1);
    }
  }

  // ---------------------------------------------------------------------------
  // Which discs take part: the striker and the active coins

  predicate Increasing(idx: seq<nat>) {
    forall a, b :: 0 <= a < b < |idx| ==> idx[a] < idx[b]
  }

  /** The positions of the active coins, in order: the filter of the step's first line. */
  function ActiveIndices(cs: seq<Disc>): (idx: seq<nat>)
    ensures forall k :: 0 <= k < |idx| ==> idx[k] < |cs| && cs[idx[k]].active
    ensures forall i :: 0 <= i < |cs| && cs[i].active ==> i in idx
    ensures Increasing(idx)
  {
    if |cs| == 0 then []
    else
      var n := |cs| - 1;
      assert forall k :: 0 <= k < n ==> cs[..n][k] == cs[k];
      ActiveIndices(cs[..n]) + (if cs[n].active then [n] else [])
  }

  function Gather(cs: seq<Disc>, idx: seq<nat>): seq<Disc>
    requires forall k :: 0 <= k < |idx| ==> idx[k] < |cs|
  {
    seq(|idx|, k requires 0 <= k < |idx| => cs[idx[k]])
  }

  /**
   * Put the updated discs back where they came from. In the source the list
   * of discs holds references to the coin objects themselves, so this
   * happens implicitly.
   */
  function Scatter(cs: seq<Disc>, idx: seq<nat>, vals: seq<Disc>): (r: seq<Disc>)
    requires |idx| == |vals|
    requires forall k :: 0 <= k < |idx| ==> idx[k] < |cs|
    ensures |r| == |cs|
    ensures forall i :: 0 <= i < |cs| && i !in idx ==> r[i] == cs[i]
    ensures Increasing(idx) ==> forall k :: 0 <= k < |idx| ==> r[idx[k]] == vals[k]
    decreases |idx|
  {
    if |idx| == 0 then cs
    else
      var r := Scatter(cs[idx[0] := vals[0]], idx[1..], vals[1..]);
      assert forall k :: 0 < k < |idx| ==> idx[k] == idx[1..][k - 1];
      assert Increasing(idx) ==> idx[0] !in idx[1..];
      r
  }

  // ---------------------------------------------------------------------------
  // One step

  /**
   * The part of the session the step reads and writes: the striker, the
   * coins, and the striker's shooting and moving flags.
   */
  datatype Table = Table(striker: Disc, coins: seq<Disc>, isShooting: bool, isMoving: bool)

  /** The discs the step works on: the striker first, then the active coins. */
  function AllDiscs(t: Table): seq<Disc>
  {
    [t.striker] + Gather(t.coins, ActiveIndices(t.coins))
  }

  /** The striker ends its travel in a pocket this frame. */
  predicate StrikerFouls(t: Table) {
    Captured(Travel(t.striker).x, Travel(t.striker).y)
  }

  /** A shot is in flight and no disc moves after friction: the shot has settled. */
  predicate Settles(t: Table) {
    !AnyMoving(AllDiscs(t)) && t.isShooting
  }

  /** The discs after the first pass. */
  function Moved(t: Table): seq<Disc>
  {
    PerDisc(AllDiscs(t))
  }

  /** The discs after both passes. */
  function Collided(h: Heading, t: Table): seq<Disc>
  {
    Pairs(h, Moved(t), 0)
  }

  /**
   * updatePhysics: the first pass moves every disc that takes part, the
   * second resolves collisions, the results go back to the striker and to
   * the coins they came from, and a shot that has settled ends with the
   * striker at home and both flags cleared.
   */
  function PhysicsStep(h: Heading, t: Table): Table
  {
    var after := Collided(h, t);
    if Settles(t) then Table(Reset(after[0]), StepCoins(h, t), false, false)
    else Table(after[0], StepCoins(h, t), t.isShooting, if StrikerFouls(t) then false else t.isMoving)
  }

  /** The coins after the step: each active coin receives its disc back from both passes. */
  function StepCoins(h: Heading, t: Table): seq<Disc>
  {
    Scatter(t.coins, ActiveIndices(t.coins), Collided(h, t)[1..])
  }

  /** Every disc is small enough for the board and for the home spot. */
  predicate SmallDiscs(t: Table) {
    && t.striker.radius <= StrikerRadius
    && forall i :: 0 <= i < |t.coins| ==> t.coins[i].radius <= StrikerRadius
  }

  /** The first pass: the striker first, then the active coins in order. */
  lemma MovedFacts(t: Table)
    ensures var idx := ActiveIndices(t.coins);
      && |Moved(t)| == |idx| + 1
      && Moved(t)[0] == UpdateDisc(t.striker, true)
      && forall k :: 0 <= k < |idx| ==> Moved(t)[k + 1] == UpdateDisc(t.coins[idx[k]], false)
  {
    var idx := ActiveIndices(t.coins);
    var g := Gather(t.coins, idx);
    var all := AllDiscs(t);
    assert |g| == |idx| && all == [t.striker] + g;
    forall k | 0 <= k < |idx|
      ensures all[k + 1] == t.coins[idx[k]]
    {
      assert all[k + 1] == g[k];
    }
    var m := Moved(t);
    assert m == PerDisc(all) && |m| == |all|;
    forall k | 0 <= k < |idx|
      ensures m[k + 1] == UpdateDisc(t.coins[idx[k]], false)
    {
      assert m[k + 1] == UpdateDisc(all[k + 1], false);
    }
  }

  /** The discs after both passes sit where the first pass put them. */
  lemma CollidedPlaces(h: Heading, t: Table)
    ensures var idx := ActiveIndices(t.coins);
      && |Collided(h, t)| == |idx| + 1
      && Place(Collided(h, t)[0]) == Place(UpdateDisc(t.striker, true))
      && forall k :: 0 <= k < |idx| ==>
           Place(Collided(h, t)[k + 1]) == Place(UpdateDisc(t.coins[idx[k]], false))
  {
    MovedFacts(t);
    PairsKeepPlaces(h, Moved(t), 0);
  }

  /** Where the striker ends up, relative to the first pass. */
  lemma StepStrikerPlace(h: Heading, t: Table)
    ensures Place(PhysicsStep(h, t).striker)
         == Place(if Settles(t) then Reset(t.striker) else UpdateDisc(t.striker, true))
  {
    CollidedPlaces(h, t);
  }

  /** Writing the discs of the second pass back into the coins: who gets what. */
  lemma ScatterPlaces(cs: seq<Disc>, after: seq<Disc>)
    requires |after| == |ActiveIndices(cs)| + 1
    requires forall k :: 0 <= k < |ActiveIndices(cs)| ==>
      Place(after[k + 1]) == Place(UpdateDisc(cs[ActiveIndices(cs)[k]], false))
    ensures var coins := Scatter(cs, ActiveIndices(cs), after[1..]);
      && |coins| == |cs|
      && (forall i :: 0 <= i < |cs| && !cs[i].active ==> coins[i] == cs[i])
      && (forall i :: 0 <= i < |cs| && cs[i].active ==> Place(coins[i]) == Place(UpdateDisc(cs[i], false)))
  {
    var idx := ActiveIndices(cs);
    var coins := Scatter(cs, idx, after[1..]);
    forall i | 0 <= i < |cs| && cs[i].active
      ensures Place(coins[i]) == Place(UpdateDisc(cs[i], false))
    {
      var k :| 0 <= k < |idx| && idx[k] == i;
      assert coins[idx[k]] == after[1..][k] == after[k + 1];
    }
  }

  /** Where each coin ends up, relative to the first pass. */
  lemma StepCoinPlaces(h: Heading, t: Table)
    ensures var coins := StepCoins(h, t);
      && |coins| == |t.coins|
      && (forall i :: 0 <= i < |t.coins| && !t.coins[i].active ==> coins[i] == t.coins[i])
      && (forall i :: 0 <= i < |t.coins| && t.coins[i].active ==>
            Place(coins[i]) == Place(UpdateDisc(t.coins[i], false)))
  {
    CollidedPlaces(h, t);
    ScatterPlaces(t.coins, Collided(h, t));
  }

  /** A coin that is inactive before the step is untouched by it. */
  lemma StepKeepsSunkCoins(h: Heading, t: Table, i: nat)
    requires i < |t.coins| && !t.coins[i].active
    ensures i < |PhysicsStep(h, t).coins| && PhysicsStep(h, t).coins[i] == t.coins[i]
  {
    assert PhysicsStep(h, t).coins == StepCoins(h, t);
    StepCoinPlaces(h, t);
  }

  /**
   * An active coin stays active exactly when its travel this frame does
   * not end in a pocket; no coin is ever made active again.
   */
  lemma StepSinksCaptured(h: Heading, t: Table, i: nat)
    requires i < |t.coins|
    ensures i < |PhysicsStep(h, t).coins|
    ensures PhysicsStep(h, t).coins[i].active
        <==> t.coins[i].active && !Captured(Travel(t.coins[i]).x, Travel(t.coins[i]).y)
  {
    assert PhysicsStep(h, t).coins == StepCoins(h, t);
    CoinSinks(h, t, i);
  }

  lemma CoinSinks(h: Heading, t: Table, i: nat)
    requires i < |t.coins|
    ensures i < |StepCoins(h, t)|
    ensures StepCoins(h, t)[i].active
        <==> t.coins[i].active && !Captured(Travel(t.coins[i]).x, Travel(t.coins[i]).y)
  {
    StepCoinPlaces(h, t);
    var c := StepCoins(h, t)[i];
    if t.coins[i].active {
      var u := UpdateDisc(t.coins[i], false);
      assert Place(c) == Place(u);
      assert c.active == Place(c).active == Place(u).active == u.active;
      UpdateDiscActive(t.coins[i], false);
    }
  }

  /** Every disc that took part in the step lies on the board after it. */
  lemma StepInsideBoard(h: Heading, t: Table)
    requires SmallDiscs(t)
    ensures var t' := PhysicsStep(h, t);
      && InsideBoard(t'.striker.x, t'.striker.y, t'.striker.radius)
      && |t'.coins| == |t.coins|
      && forall i :: 0 <= i < |t.coins| && t.coins[i].active ==>
           InsideBoard(t'.coins[i].x, t'.coins[i].y, t'.coins[i].radius)
  {
    StrikerInsideBoard(h, t);
    CoinsInsideBoard(h, t);
    assert PhysicsStep(h, t).coins == StepCoins(h, t);
  }

  lemma StrikerInsideBoard(h: Heading, t: Table)
    requires t.striker.radius <= StrikerRadius
    ensures var s := PhysicsStep(h, t).striker; InsideBoard(s.x, s.y, s.radius)
  {
    StepStrikerPlace(h, t);
    HomeIsSafe();
    UpdateDiscFacts(t.striker, true);
    var s := PhysicsStep(h, t).striker;
    assert Place(s).x == s.x && Place(s).y == s.y && Place(s).radius == s.radius;
  }

  lemma CoinsInsideBoard(h: Heading, t: Table)
    requires SmallDiscs(t)
    ensures var coins := StepCoins(h, t);
      && |coins| == |t.coins|
      && forall i :: 0 <= i < |t.coins| && t.coins[i].active ==>
           InsideBoard(coins[i].x, coins[i].y, coins[i].radius)
  {
    StepCoinPlaces(h, t);
    var coins := StepCoins(h, t);
    forall i | 0 <= i < |t.coins| && t.coins[i].active
      ensures InsideBoard(coins[i].x, coins[i].y, coins[i].radius)
    {
      UpdateDiscFacts(t.coins[i], false);
      assert Place(coins[i]) == Place(UpdateDisc(t.coins[i], false));
      assert Place(coins[i]).x == coins[i].x && Place(coins[i]).y == coins[i].y;
    }
  }

  /**
   * The striker is never deactivated and keeps its radius; when it ends its
   * travel in a pocket it finishes the step on its home spot with the
   * moving flag cleared.
   */
  lemma StepStriker(h: Heading, t: Table)
    ensures var t' := PhysicsStep(h, t);
      && t'.striker.active == t.striker.active
      && t'.striker.radius == t.striker.radius
      && (StrikerFouls(t) ==> t'.striker.x == HomeX && t'.striker.y == HomeY && !t'.isMoving)
      && (t'.isShooting ==> t.isShooting)
  {
    StepStrikerPlace(h, t);
    var t' := PhysicsStep(h, t);
    assert Place(t'.striker).active == t'.striker.active;
    assert Place(t'.striker).radius == t'.striker.radius;
    assert Place(t'.striker).x == t'.striker.x && Place(t'.striker).y == t'.striker.y;
  }

  /**
   * Settlement: once no disc moves after friction while a shot is in
   * flight, both flags are cleared, the striker is home at rest, and every
   * coin that took part is at rest.
   */
  lemma StepSettles(h: Heading, t: Table)
    requires Settles(t)
    ensures var t' := PhysicsStep(h, t);
      && !t'.isShooting && !t'.isMoving
      && t'.striker.x == HomeX && t'.striker.y == HomeY
      && t'.striker.vx == 0.0 && t'.striker.vy == 0.0
      && |t'.coins| == |t.coins|
      && forall i :: 0 <= i < |t.coins| && t.coins[i].active ==> !Moving(t'.coins[i])
  {
    var idx := ActiveIndices(t.coins);
    var all := AllDiscs(t);
    var moved := Moved(t);
    forall k | 0 <= k < |moved| ensures !Moving(moved[k]) {
      assert !Moving(ApplyFriction(all[k]));
      assert !Moving(Travel(all[k]));
    }
    PairsAtRest(h, moved, 0);
    var t' := PhysicsStep(h, t);
    forall i | 0 <= i < |t.coins| && t.coins[i].active
      ensures !Moving(t'.coins[i])
    {
      var k :| 0 <= k < |idx| && idx[k] == i;
      assert t'.coins[i] == moved[1..][k] == moved[k + 1];
    }
  }

  /** The collision pass of a step conserves the total radius-weighted momentum. */
  lemma StepCollisionsConserveMomentum(h: Heading, t: Table)
    requires UnitHeading(h)
    ensures Momentum(Collided(h, t)) == Momentum(Moved(t))
  {
    PairsConserveMomentum(h, Moved(t), 0);
  }
}
