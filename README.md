# Carrom game session and physics, in Dafny

This project models the core of a carrom mini-game played on a 960 x 540
canvas, `assets/js/game.js`. One striker and thirteen coins sit on a
440 x 440 board that has four corner pockets. The model covers:

- the mouse release that shoots the striker;
- the per-frame physics step (`updatePhysics`): friction with a velocity
  floor, Euler integration, wall clamping with restitution 0.8, pocket
  capture, and the pairwise elastic collision;
- `resetStriker`;
- `setupCoins`;
- the body of the game loop without its drawing: the pause and running gate,
  the idle striker following the mouse, settlement, and the game-over
  transition that updates the best score and the leaderboard (50 entries at
  most, sorted);
- `restart` and the pause toggle.

Modules:

- `Board` (board.dfy): the geometry constants, the pockets and the striker's
  home spot.
- `Collision` (collision.dfy): the rotation into and out of the frame of the
  line of centres, and the one-dimensional exchange.
- `Physics` (physics.dfy): discs, the two passes of the step as functions on
  values, and what the step keeps and changes.
- `Leaderboard` (leaderboard.dfy): the stable sort by score, and the cut to
  50 entries.
- `Rules` (rules.dfy): the whole session as a value (`GameState`). It holds
  one function per handler and the session invariant `Valid`.
- `Game` (session.dfy): the class `Session`. Its fields mirror the script's
  variables and the striker object. Its methods perform the handlers'
  statements, with the source's loops: the forEach over the discs, the four
  pocket checks, the nested pair loop, and the formation loops. Each method
  is proved to produce the state that its `Rules` function describes.

All numbers are exact reals. Math.sqrt comparisons are replaced by
comparisons of squares, which gives the same answer because both sides are
non-negative. The trigonometric values are parameters:

- the cosines and sines of the six formation angles, `ring`, are assumed to
  lie in [-1, 1];
- the (cos, sin) of `Math.atan2(dy, dx)` for a pair of touching discs comes
  from `heading`. The momentum and energy lemmas assume that every value it
  gives lies on the unit circle.

Where the code does something other than its design says, the model follows
the code:

- A release is not gated by the pause or game-over flags. A release while
  paused or after the game is over counts a shot when the striker is idle.
- `restart` does not clear the striker's `isShooting` flag.
- A pull-back of length zero divides by zero in the source when the striker
  is idle. The model requires `dist > 0` only then (`Rules.AimLength`) rather
  than inventing a guard. A release while the striker is busy never reads
  `dist`, and the model accepts one of any length.

In the source the list of discs in a step holds references to the coin
objects, so the step updates the coins in place. The model copies the
striker and the active coins into a sequence, works on it, and writes each
disc back to the coin it came from (`Physics.Scatter`, `Game.WriteBack`).

## Model

| member | source | states |
|---|---|---|
| Board.HomeIsSafe | assets/js/game.js:178-184 | The spot resetStriker moves the striker to lies on the board and in no pocket. |
| Collision.Rotate | assets/js/game.js:155-158 | Definition, no contract: turning a velocity into the frame of the line of centres. Its laws are UnrotateRotate and RotateKeepsEnergy. |
| Collision.Unrotate | assets/js/game.js:163-166 | Definition, no contract: turning a velocity back out of that frame. |
| Collision.Exchange | assets/js/game.js:160-161 | The exchange formulas equal "each velocity minus twice the other's radius times the relative velocity over the radius sum" (and plus for the second disc). That is the form in which the conservation laws are proved. |
| Collision.ExchangeLaws | assets/js/game.js:160-161 | The exchange conserves radius-weighted momentum and radius-weighted energy. It reverses the relative velocity. With equal radii it swaps the two normal components. |
| Collision.UnrotateRotate | assets/js/game.js:155-166 | For a unit (cos, sin), turning back out of the collision frame undoes turning into it. |
| Collision.Collide | assets/js/game.js:150-167 | Definition, no contract: rotate both velocities, exchange the normal components, rotate back. Its laws are the three lemmas below. |
| Collision.CollideInFrame | assets/js/game.js:150-167 | Read in the frame of the line of centres, the collision exchanges the normal components and keeps the tangential ones. |
| Collision.CollideConservesMomentum | assets/js/game.js:150-167 | The full collision conserves radius-weighted momentum on both board axes. |
| Collision.EnergyExchange | assets/js/game.js:160-166 | Replacing the normal components by ones of equal weighted square sum and keeping the tangential ones keeps the total energy. |
| Collision.CollideConservesEnergy | assets/js/game.js:150-167 | The full collision conserves radius-weighted kinetic energy. |
| Collision.CollideAtRest | assets/js/game.js:150-167 | Two discs at rest stay at rest, whatever the direction between them. |
| Physics.ApplyFriction | assets/js/game.js:110-114 | Definition, no contract: friction and the velocity floor on both components. Its law is Damp's contract. |
| Physics.Advance | assets/js/game.js:118-119 | Definition, no contract: one Euler step of the position. |
| Physics.Travel | assets/js/game.js:110-125 | Definition, no contract: friction, integration and the wall checks in that order. |
| Physics.Reset | assets/js/game.js:178-184 | Definition, no contract: back to the home spot at rest. Its law is Board.HomeIsSafe. |
| Physics.Pocket | assets/js/game.js:128-138 | Definition, no contract: a captured striker is reset and a captured coin is deactivated. |
| Physics.UpdateDisc | assets/js/game.js:109-139 | Definition, no contract: the whole forEach body on one disc. Its laws are UpdateDiscFacts and UpdateDiscActive. |
| Physics.PerDisc | assets/js/game.js:107-139 | Definition, no contract: the forEach over the list of discs, index 0 being the striker. |
| Physics.Damp | assets/js/game.js:110-114 | After friction and the floor, a component is exactly 0 or has magnitude at least 0.1. Its magnitude never grows and its sign never flips. |
| Physics.DampDecays | assets/js/game.js:110-114 | Each frame of friction that leaves a component nonzero takes at least 1/500 off its magnitude. |
| Physics.FrictionStops | assets/js/game.js:110-114 | Friction alone brings a component to exactly 0 within 500 times its initial magnitude frames. |
| Physics.Bounce | assets/js/game.js:122-125 | One axis of the wall checks. When 2r fits the board, the disc ends within it. An axis that hit a wall has its velocity multiplied by exactly -0.8. An axis that did not hit one is unchanged. |
| Physics.Walls | assets/js/game.js:122-125 | After the four wall checks, a disc whose diameter fits the board lies entirely on it. Radius and flag are unchanged. |
| Physics.UpdateDiscFacts | assets/js/game.js:109-139 | After the first pass a disc is on the board. A coin whose travel ends within the pocket radius is deactivated. A striker whose travel ends there is home with zero velocity. A disc at rest after friction stays at rest. |
| Physics.UpdateDiscActive | assets/js/game.js:128-138 | The first pass leaves a disc active exactly when it was active and is the striker or was not captured: the striker is never deactivated. |
| Physics.CollideAt | assets/js/game.js:144-168 | The body of the inner loop keeps the number of discs. |
| Physics.Row | assets/js/game.js:143-168 | The inner loop keeps the number of discs. |
| Physics.Pairs | assets/js/game.js:142-169 | The outer loop keeps the number of discs. Its laws are PairsKeepPlaces, PairsAtRest and PairsConserveMomentum. |
| Physics.CollidePair | assets/js/game.js:149-167 | A collision changes only the two velocities. |
| Physics.CollidePairAtRest | assets/js/game.js:149-167 | Two discs at rest are unchanged by their collision. |
| Physics.PairsKeepPlaces | assets/js/game.js:142-169 | The whole pair loop changes only velocities: positions, radii and active flags stay. |
| Physics.PairsAtRest | assets/js/game.js:142-169 | The pair loop over discs that are all at rest changes nothing. |
| Physics.MomentumUpdate | assets/js/game.js:142-169 | Replacing one disc changes the total radius-weighted momentum by exactly the difference of that disc's momenta. |
| Physics.PairsConserveMomentum | assets/js/game.js:142-169 | The whole pair loop conserves the total radius-weighted momentum of the discs. |
| Physics.ActiveIndices | assets/js/game.js:106 | The filter yields exactly the positions of the active coins, in increasing order. |
| Physics.Gather | assets/js/game.js:106 | Definition, no contract: the coins at the given positions, in order. |
| Physics.AllDiscs | assets/js/game.js:106 | Definition, no contract: the striker followed by the active coins. |
| Physics.Scatter | assets/js/game.js:106 | Writing back puts each updated disc at the coin it came from and leaves every other coin as it was. |
| Physics.PhysicsStep | assets/js/game.js:105-176 | Definition, no contract: both passes, the write-back, and the settlement test. Its laws are the Step lemmas below. |
| Physics.StepKeepsSunkCoins | assets/js/game.js:106 | A coin that is inactive before a step is left exactly as it was: inactive coins are not in the list of discs. |
| Physics.StepSinksCaptured | assets/js/game.js:128-138 | After a step a coin is active exactly when it was active and its travel did not end in a pocket. No step makes a coin active again. |
| Physics.StepInsideBoard | assets/js/game.js:105-176 | After a step the striker and every coin that took part lie on the board. |
| Physics.StepStriker | assets/js/game.js:128-138 | In a step the striker stays active and keeps its radius. A striker that falls into a pocket ends the step at home with the moving flag cleared. The step never sets isShooting. |
| Physics.StepSettles | assets/js/game.js:171-175 | When no disc moves after friction while a shot is in flight, both flags are cleared and the striker is home with zero velocity. Every coin that took part is at rest. |
| Physics.StepCollisionsConserveMomentum | assets/js/game.js:142-169 | The collision pass of a step conserves the total radius-weighted momentum. |
| Leaderboard.Insert | assets/js/game.js:284-285 | Insertion keeps every entry and adds the new one. |
| Leaderboard.InsertSorted | assets/js/game.js:285 | Inserting into a sorted list keeps it sorted. |
| Leaderboard.SortByScore | assets/js/game.js:285 | The sort is a permutation of its input. |
| Leaderboard.SortIsSorted | assets/js/game.js:285 | The sort's result is in ascending order of score. |
| Leaderboard.SortSorted | assets/js/game.js:285 | A stable sort leaves an already sorted list as it is. |
| Leaderboard.Take | assets/js/game.js:286 | Definition, no contract: slice(0, n). |
| Leaderboard.Record | assets/js/game.js:284-286 | Definition, no contract: append, sort, keep 50. Its laws are the Record lemmas below. |
| Leaderboard.PrefixKeepsBest | assets/js/game.js:285-286 | In a sorted list, every entry of a prefix scores at most every entry left after it. |
| Leaderboard.RecordShape | assets/js/game.js:284-286 | The stored list after a game is sorted and holds min(old length + 1, 50) entries. Each entry is an old one or the new one. |
| Leaderboard.RecordKeepsBest | assets/js/game.js:285-286 | The stored list is a prefix of the sorted list of the old entries and the new one. Every kept entry scores at most every entry that was dropped. |
| Leaderboard.RecordKeepsNewEntry | assets/js/game.js:284-286 | While fewer than 50 games are stored, the new game is kept. |
| Leaderboard.RecordSorted | assets/js/game.js:284-286 | For a sorted stored list, recording a game is inserting it and keeping the first 50. |
| Rules.Launch | assets/js/game.js:92-93 | Definition, no contract: the offset reversed, divided by dist and scaled by the power. Its laws are LaunchOpposesAim and LaunchSpeed. |
| Rules.Power | assets/js/game.js:91 | The launch power is between 0 and 20 and never above dist/10. It equals dist/10 up to a pull-back of 200 and is 20 from there on. |
| Rules.LaunchOpposesAim | assets/js/game.js:92-93 | The launch velocity is the mouse offset reversed and scaled by power/dist, a factor between 0 and 1/10. It is parallel to the offset. |
| Rules.LaunchSpeed | assets/js/game.js:88-93 | When dist is the length of the offset, the launch speed equals the power. |
| Rules.Release | assets/js/game.js:85-96 | Definition, no contract: the mouseup handler on the session value. Its laws are ReleaseFacts and ReleaseKeepsValid. |
| Rules.ReleaseFacts | assets/js/game.js:85-96 | A release while the striker is moving or shooting changes nothing, whatever the pull-back length. Otherwise it counts exactly one shot, sets both flags and launches the striker from where it stands at a speed equal to the power. Nothing else changes. |
| Rules.ClampX | assets/js/game.js:267 | The clamped x keeps the striker on the board. An x already within range is kept. Out-of-range values go to the nearer bound. |
| Rules.ClampXIdempotent | assets/js/game.js:267 | Clamping twice is clamping once. |
| Rules.Aim | assets/js/game.js:265-268 | Definition, no contract: the idle striker follows the clamped mouse x. |
| Rules.AimFacts | assets/js/game.js:265-268 | Aiming changes only the idle striker's x coordinate. |
| Rules.EndGame | assets/js/game.js:278-287 | Definition, no contract: the game-over branch on the session value. |
| Rules.Frame | assets/js/game.js:259-290 | Definition, no contract: one loop body on the session value. Its laws are FrameWhenHalted, FrameFacts and FrameKeepsValid. |
| Rules.FrameWhenHalted | assets/js/game.js:260-263 | A frame while stopped or paused leaves every piece of session and disc state unchanged. |
| Rules.FrameFacts | assets/js/game.js:259-290 | A running frame advances the table by one step from the aimed striker and keeps the shot count. It ends the game exactly when all coins are sunk and the game was not over. Then the game stops, the best score becomes min(old, shots) and the leaderboard records the game. Otherwise those are unchanged. |
| Rules.GameOverLeaderboard | assets/js/game.js:278-287 | The leaderboard written at game over is sorted and holds at most 50 entries. While fewer than 50 were stored, it contains the finished game. |
| Rules.FrameNeverReactivates | assets/js/game.js:128-138 | No frame makes a coin active again. A sunk coin keeps its position and velocity. |
| Rules.Formation | assets/js/game.js:55-76 | setupCoins creates exactly 13 coins: the queen, then two rings of six. All are active, at rest and of radius 15. |
| Rules.FormationOnBoard | assets/js/game.js:55-76 | Every coin of the formation lies on the board. |
| Rules.Restart | assets/js/game.js:296-303 | Definition, no contract: restart on the session value. Its laws are RestartFacts and RestartKeepsValid. |
| Rules.RestartFacts | assets/js/game.js:296-303 | After a restart: shots is 0; exactly 13 coins exist, all active and at rest; the game runs unpaused and not over; the striker is home at rest and not moving. Best score and leaderboard are kept. |
| Rules.TogglePause | assets/js/game.js:100-103 | The toggle flips the paused flag and changes nothing else. |
| Rules.TogglePauseTwice | assets/js/game.js:100-103 | Toggling twice is no change. |
| Rules.Initial | assets/js/game.js:19-48 | Definition, no contract: the state the script starts in. |
| Rules.InitialValid | assets/js/game.js:19-48 | The state the script starts in satisfies the session invariant. |
| Rules.ReleaseKeepsValid | assets/js/game.js:85-98 | A release preserves the session invariant. |
| Rules.FrameKeepsValid | assets/js/game.js:259-290 | A frame preserves the session invariant. Every disc stays on the board, and the game runs exactly while it is not over. A finished game has every coin sunk, a best score no worse than its shots, and a sorted leaderboard of at most 50 entries. |
| Rules.RestartKeepsValid | assets/js/game.js:296-303 | A restart preserves the session invariant. |
| Rules.TogglePauseKeepsValid | assets/js/game.js:100-103 | The pause toggle preserves the session invariant. |
| Rules.GameOverIsFinal | assets/js/game.js:259-263 | Once the game is over, frames change nothing until a restart. |
| Game.MoveDisc | assets/js/game.js:109-139 | The forEach body on one disc computes the first-pass update. It also reports whether the disc moves after friction and whether the striker was captured. |
| Game.FrictionDisc | assets/js/game.js:110-116 | The friction statements compute the damped velocity. The moving test reads it. |
| Game.WallDisc | assets/js/game.js:122-125 | The four wall statements compute the wall checks. |
| Game.TravelDisc | assets/js/game.js:110-125 | Friction, integration and the wall statements compute the travel function. The moving test reads the velocity after friction. |
| Game.PocketDisc | assets/js/game.js:128-138 | The loop over the four pockets resets a captured striker or deactivates a captured coin, and reports a captured striker. |
| Game.FirstPass | assets/js/game.js:107-139 | The forEach over the discs computes the first pass. It reports whether any disc moves after friction and whether the striker fell into a pocket. |
| Game.CollideAll | assets/js/game.js:142-169 | The nested loop over pairs computes the collision pass. |
| Game.CollideStep | assets/js/game.js:144-167 | One iteration of the inner loop resolves the pair when the discs overlap. |
| Game.WriteBack | assets/js/game.js:106 | Writing back one index at a time computes the write-back function. |
| Game.Session.Step | assets/js/game.js:105-176 | updatePhysics leaves the session exactly as the step function gives, and changes nothing else. |
| Game.Session.Shoot | assets/js/game.js:85-98 | The mouseup handler produces the release function's state and keeps the invariant. |
| Game.Session.Frame | assets/js/game.js:259-290 | One loop body produces the frame function's state and keeps the invariant. |
| Game.Session.EndGame | assets/js/game.js:278-287 | The game-over branch produces the game-over transition's state. |
| Game.Session.Restart | assets/js/game.js:296-303 | restart produces the restart function's state and keeps the invariant. |
| Game.Session.SetupCoins | assets/js/game.js:55-76 | The formation loops rebuild the coins as the formation and change nothing else. |
| Game.Session.ResetStriker | assets/js/game.js:178-184 | resetStriker moves the striker home at rest and clears its moving flag. |
| Game.Session.TogglePause | assets/js/game.js:100-103 | The pause key flips the paused flag and keeps the invariant. |
| Game.Session.constructor | assets/js/game.js:19-48 | The script's start: the striker at home, the stored best score and leaderboard, the formation set up. It satisfies the invariant. |

## Left out

- Canvas, resizing, every draw function, the HUD and the coin colours. These are rendering only.
- The DOM event listeners and the scaling of mouse coordinates. Their effects are the methods `Shoot`, `Frame`, `TogglePause` and `Restart`.
- The mouse position reaches the model as method parameters. The `isDown` flag only affects drawing.
- Persistence:
  - `localStorage`, `parseInt` and the JSON parsing and writing are left out.
  - The stored best score and leaderboard are constructor parameters. The leaderboard is then kept as a field.
  - The model does not capture the behaviour of a malformed stored value.
- The timestamp of a leaderboard entry is an opaque string parameter (`at`).
- `requestAnimationFrame` scheduling: each call of `Frame` is one scheduled frame.
- `playerScore`, `aiScore` and `gameTime` are dead state.
- Math.atan2, Math.sin and Math.cos in the collision are left out; their values are the `heading` parameter.
- Math.cos and Math.sin in the formation are left out; their values are the `ring` parameter.
- IEEE floating-point rounding: all arithmetic is on exact reals.
- `Game.CollideStep` computes the rotation and the exchange through the `Collision` functions. It does not spell the source's four rotation statements out in place.
- Game.Session.Shoot: requires a pull-back length greater than zero when the striker is idle. There the source divides by zero and gives the striker a NaN velocity; the model does not go there.
