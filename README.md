# Pac-Man: Vengeance, modelled in Dafny

Pac-Man: Vengeance turns the arcade game around. The player steers the four
ghosts through a randomly generated maze and hunts Pacman, whom a simple AI
drives toward dots and fruit. This project models the game's core and proves
properties of it:

- the maze (`vMaze`):
  - its grid of squares with independently stored vertical and horizontal
    walls, and the wall setters and resets;
  - the recursive-division generator with its ghost town;
  - the accessibility flood, `breakIsolation` and `fillSpaces`;
  - the item layout of `resize`, and the level's points total;
  - the eight sound flags, and the screen-to-maze coordinate transforms;
  - the A* planner, Pacman's AI and `turnActor`;
  - the per-frame `update`, `newLevel`, the ghost selection and the four
    ghost abilities (sprint, jump, invulnerability, scatter);
- the actor, sprite and item state machines (`vActor`, `vSprite`, `vItem`),
  and the ranges of `Dice`;
- the event list of `events.cpp`, each trigger with its action;
- `main.cpp`'s `changeState`, the state-entry switch of `extUpdate`, the
  start-up sequence and the interface's test that an ability is ready;
- the `cLine` and `dataPoint` linked lists of `libArtemisExt.h`.

The source is imperative C++, and the model keeps its form:
- Objects whose methods update their fields are classes: the maze with its
  grid in an `array`, the actors, their sprites, the die, the game session
  and the two lists. An item is a datatype value held in the maze's
  `array<Item>`; consuming or disabling it yields a new value that is
  written back into that array.
- Loops are `while` loops with invariants.
- Each method is proved against a pure function that defines its result (for example
  `Levels.NewBoard` for the generator, `Scenes.UpdateStep` for a frame, and
  `Abilities.Ability` for `executeAbility`), and the lemmas prove the
  source's promises about those functions.

Three things outside the program become parameters:
- `rand()` is the stream of outputs it will return, each in 0..32767 (the
  die's `draws`). Every call takes one output, and so does building a
  `Dice`, whose constructor rolls once. Every `vSprite` builds a `Dice` and
  rolls its time seed, so each sprite takes two outputs: the five actors
  and the wall sprite of the maze, the tip sprite of `main`, and every item
  that `resize` allocates. When the stream runs out the die is marked
  exhausted, so a loop that the source would retry forever stops instead.
- The clock is a parameter: `now` for `time()`, which counts seconds.
  The separate parameter `stamp` is only the starting value of
  `lastVulnerability`, which the source leaves uninitialised.
- The screen size is a parameter.

Floats are modelled as `real`. The C casts that truncate toward zero are
written out (`Coords.Trunc`). Squares are stored x-major, at index
`x * numH + y`.

Some of the source's quirks are modelled as written:
- Sound 8 shares flag 0, because `setSoundFlag` and `getSoundFlag` map every
  index past the last of the eight to 0.
- `divisionStep` opens the gap in a horizontal wall with the vertical-wall
  setter.
- `breakIsolation` goes on breaking walls after the square became
  accessible.
- `fillSpaces` adds walls without recomputing accessibility.
- The `&` in `applyAi`'s scan bound is a bitwise and (`Steering.BitAnd`).
- Only Pacman runs `applyAi` in `update`; the ghosts only move.

## Model

| member | source | states |
|---|---|---|
| Coords.Trunc | vMaze.cpp:1409 | C's `(int)` of a float lies within one of the value, toward zero on either side |
| Coords.TruncDiv | vMaze.cpp:1409 | integer division that truncates toward zero, as C's does for negative dividends |
| Coords.MazeToScreen | vMaze.cpp:1397-1405 | the pixel lies half a square (20 px) past the square's left/top edge at 40x + offset |
| Coords.ScreenToMaze | vMaze.cpp:1407-1419 | the result is clamped to -1 .. n, and is -1 exactly when the pixel is a whole square or more left of/above the maze |
| Coords.ScreenToMazeCell | vMaze.cpp:1407-1419 | for 0 < x < n the pixels mapped to square x are exactly the 40 pixels of that square; square 0 also receives the 39 pixels before the maze |
| Coords.RoundTrip | vMaze.cpp:1395-1419 | converting square x (0 <= x <= n) to its centre pixel and back gives x |
| Coords.RoundTripFailsBelowZero | vMaze.cpp:1407-1412 | the square -1 does not survive the trip: its centre pixel maps back to square 0 |
| Coords.CentredCell | vMaze.cpp:1001-1005 | a sprite moved to the centre pixel of square x stands on square x |
| Dice.RollOf | Dice.cpp:25-28 | roll() lies in [0, 1], and reaches 1 exactly for the draw RAND_MAX |
| Dice.RollIntOf | Dice.cpp:30-33 | rollInt(sides) lies in [0, abs(sides)), and is the draw itself when the draw is below sides |
| Dice.RollIntRangeOf | Dice.cpp:35-41 | rollIntRange lies in [low, high] when low < high, and in [low, low + 1] otherwise |
| Dice.ZeroDrawIsLow | Dice.cpp:35-41 | the draw 0 yields the low end of the range |
| Dice.RollFloatOf | Dice.cpp:43-46 | rollFloat(limit) lies in [0, limit] for a non-negative limit, and reaches the limit for the draw RAND_MAX |
| Dice.RollFloatRangeOf | Dice.cpp:48-54 | rollFloatRange lies in [low, high] when low < high, and in [low, low + 1] otherwise |
| Dice.ScaleWithin | Dice.cpp:43-54 | a fraction in [0, 1] of a non-negative span stays inside that span |
| Dice.RollIntRangeCovers | Dice.cpp:35-41 | every value of a non-empty range no wider than RAND_MAX + 1 is produced by some draw |
| Dice.RollIntRangeOvershoots | Dice.cpp:37 | when low >= high the result can exceed high: the draw 1 gives low + 1 |
| Dice.RollFloatReachesLimit | Dice.h:27 | despite the "Exclusive" comment, rollFloat can return the limit itself |
| Dice.Drop | Dice.cpp:25-54 | the stream after n draws is its suffix, or empty once it has run out |
| Dice.Head | Dice.cpp:25-54 | the next draw is the stream's first element, or 0 once it has run out |
| Dice.DropDrop | Dice.cpp:25-54 | dropping m draws and then n is dropping m + n |
| Dice.DrewMore | Dice.cpp:25-54 | n more draws after u is u + n draws, and the stream has run out afterwards exactly when fewer than u + n were there |
| Dice.Die.constructor | Dice.cpp:13-17 | a die starts on the given stream of valid draws, not run out |
| Dice.Die.Next | Dice.cpp:27 | one call of rand() yields the head of the stream and removes it, or yields 0 and marks the stream run out |
| Dice.Die.Restart | Dice.cpp:13-17 | constructing a Dice object consumes one draw, whose roll() is dropped |
| Dice.Die.RollInt | Dice.cpp:30-33 | consumes one draw and returns RollIntOf of it |
| Dice.Die.RollIntRange | Dice.cpp:35-41 | consumes one draw and returns RollIntRangeOf of it |
| Dice.Die.RollFloat | Dice.cpp:43-46 | consumes one draw and returns RollFloatOf of it |
| Frames.StatusOf | vActor.cpp:15-39 | the snapshot of an actor carries its sprite's pose and its life |
| Frames.MovedKeepsCourse | vActor.cpp:268-272 | vActor::update moves a living actor by velocity times dt on both axes, keeps its velocity, type, speed, waypoint and mode, and keeps its clock within one animation period; a dead actor is untouched |
| Frames.Advance | vActor.cpp:268-272 | updating an actor changes its snapshot exactly as Moved says |
| Frames.TouchingSymmetric | vMaze.cpp:1302 | the "less than 8 pixels on both axes" collision test is symmetric and holds for an actor on Pacman's own pixel |
| Frames.GhostStepCases | vMaze.cpp:1298-1368 | a ghost's frame leaves a dead ghost untouched; an eaten (scared, touching) ghost ends dead at level 0 where the wall stop and the alignment put it, without moving; any other living ghost keeps its life and level and moves on from the stopped and aligned pose; type, speed, waypoint, mode, scare and selection never change |
| Frames.EatenOrKills | vMaze.cpp:1302-1314 | a living ghost that meets Pacman is either eaten or kills him, never both |
| Frames.ChimesExclusive | vMaze.cpp:1344-1346 | at most one eating chime sounds; a chime flag that was up goes down; only a small dot can sound flag 1 and only a large dot flag 2, and each does so whenever its flag was down |
| Frames.EatSoundsFrame | vMaze.cpp:1342-1363 | Pacman's consumption test changes only flags 1, 2, 3 and 5; flag 5 is raised exactly when a large dot is eaten; without eating all three chimes are silenced, with eating they take the chime values |
| Frames.FruitChime | vMaze.cpp:1344-1346 | a fruit sounds neither dot chime and alternates the third flag |
| Frames.AlarmedScares | vMaze.cpp:1348-1356 | eating a large dot scares every ghost and makes Pacman homicidal and changes nothing else; otherwise the actors are unchanged |
| Frames.AlarmedSteps | vMaze.cpp:1350-1354 | the vulnerable-period start is the five single updates of the source, in order |
| Frames.CalmedCalms | vMaze.cpp:1372-1382 | once the vulnerable period is over no ghost is scared and Pacman is greedy; nothing else changes |
| Frames.ExpiredMonotone | vMaze.cpp:1376 | the vulnerable period lasts longer the higher the level: expired at a higher level means expired at a lower one |
| Frames.NotExpiredAtOnce | vMaze.cpp:1376 | the period is never over in the second it began, at any level of 0 or more |
| Lists.CLine.constructor | libArtemisExt.h:745-748 | cLine() is one node with empty contents and nothing after it |
| Lists.CLine.Of | libArtemisExt.h:749-752 | cLine(stuff) is one node holding stuff and nothing after it |
| Lists.CLine.NumLines | libArtemisExt.h:759-762 | numLines is the number of nodes from this one to the end, never 0 |
| Lists.CLine.Get | libArtemisExt.h:763-777 | get(n) is the n-th node; a negative n gives this node and an n past the end gives the last node |
| Lists.Inserted | libArtemisExt.h:1006-1027 | the samples after set(nx, ny), as a value; never empty |
| Lists.InsertedReplaces | libArtemisExt.h:1008-1011 | on an ascending list an existing x keeps its place and only its y changes |
| Lists.TailKeys | libArtemisExt.h:1006-1027 | the tail of a list has no x the whole list lacks |
| Lists.InsertedAdds | libArtemisExt.h:1012-1026 | on an ascending list a new x adds exactly one sample, after every smaller x and before every larger one |
| Lists.InsertedFirst | libArtemisExt.h:1020-1026 | a new x below the first goes in front |
| Lists.InsertedLater | libArtemisExt.h:1012-1019 | a new x above the first goes where it goes in the tail, one place later |
| Lists.SplicedAscending | libArtemisExt.h:1006-1027 | a sample placed between the smaller and the larger x values keeps the list ascending |
| Lists.InsertedAscending | libArtemisExt.h:1006-1027 | set(nx, ny) keeps an ascending list ascending |
| Lists.DataPoint.constructor | libArtemisExt.h:933-937 | dataPoint() is the single sample (0, 0) |
| Lists.DataPoint.Of | libArtemisExt.h:939-943 | dataPoint(nx, ny) is the single sample (nx, ny) |
| Lists.DataPoint.Copy | libArtemisExt.h:945-954 | the deep copy equals the original sample by sample and is made of new nodes only |
| Lists.DataPoint.Ramp | libArtemisExt.h:956-971 | dataPoint(n), n >= 1, holds the n samples (n, 0), (n - 1, 0), ..., (1, 0) in that order |
| Lists.DataPoint.Length | libArtemisExt.h:1043-1049 | length is the number of samples from this node on, never 0 |
| Lists.DataPoint.Get | libArtemisExt.h:980-993 | get(int n) is the n-th sample, or (0, 0) for any index outside the list, negative ones included |
| Lists.DataPoint.Set | libArtemisExt.h:1006-1027 | set(nx, ny) relinks the nodes in place so that the samples become Inserted of the old ones, adds only new nodes, and keeps an ascending list ascending |
| Lists.DataPoint.SetHere | libArtemisExt.h:1008-1011 | an equal x keeps its place and takes the new y |
| Lists.DataPoint.Append | libArtemisExt.h:1013-1015 | past the last x a new sample is added at the end |
| Lists.DataPoint.Prepend | libArtemisExt.h:1020-1026 | before this node's x the new sample goes first and the old ones follow unchanged |
| Lists.DataPoint.SetAt | libArtemisExt.h:1029-1041 | set(int n, ny) changes only the n-th y; any index outside the list, negative ones included, appends one sample whose x is one more than the last x |
| Sprites.Wrap | vSprite.cpp:169-173 | the wrapped clock is below one animation period, stays non-negative for a non-negative time, and is the time itself when that is already below one period |
| Sprites.Phase | vSprite.cpp:177-191 | the clock selects animation phase 0, 1 or 2 |
| Sprites.Animated | vSprite.cpp:176-193 | SS_NA stays SS_NA and no other state becomes it; any other state keeps its direction group and takes the clock's phase |
| Sprites.Sprite.constructor | vSprite.cpp:15-28 | a new sprite is SS_NA, at rest, of type V_PACMAN, at the default coordinates, with its clock at rollFloat(1.0) of a draw |
| Sprites.Sprite.SetState | vSprite.cpp:63-81 | the state is set and its direction group fixes the velocity (at rest, up, down, left or right at baseVelocity); the SPEC states keep the velocity; nothing else changes |
| Sprites.Sprite.SetTimeSeed | vSprite.cpp:83-85 | only the clock changes |
| Sprites.Sprite.SetVelX | vSprite.cpp:87-89 | only the horizontal velocity changes |
| Sprites.Sprite.SetVelY | vSprite.cpp:91-93 | only the vertical velocity changes |
| Sprites.Sprite.SetX | vMaze.cpp:1321-1339 | only the value of the x coordinate changes |
| Sprites.Sprite.SetY | vMaze.cpp:1321-1339 | only the value of the y coordinate changes |
| Sprites.Sprite.SetKind | vSprite.cpp:160-162 | only the sprite type changes |
| Sprites.Sprite.Update | vSprite.cpp:164-194 | the position moves by velocity times dt, the velocity and type stay, the clock advances and wraps below one period, and the state takes the clock's phase within its direction group |
| Sprites.Sprite.WrapClock | vSprite.cpp:170-173 | the subtraction loop ends with the wrapped clock |
| Sprites.Sprite.MoveToPix | vSprite.cpp:198-201 | both coordinates become the given pixels aligned by the middle; nothing else changes |
| Items.Points | vItem.cpp:51-54 | an uneaten item is worth ten points per item level, 10 to 90, strictly more for a later kind |
| Items.Item.PointValue | vItem.cpp:51-54 | an eaten item is worth nothing, an uneaten one its kind's points |
| Items.Item.WithType | vItem.cpp:66-69 | setItemType changes the kind and nothing else |
| Items.Item.Disabled | vItem.cpp:80-85 | a disabled item is eaten, of the same kind, and parked at the unseen square (-1, -1) |
| Items.Item.Consume | vItem.cpp:73-78 | consuming returns what the item was worth and leaves it disabled and worth nothing |
| Items.NewItem | vItem.cpp:14-25 | vItem() is an uneaten small dot at (-1, -1) |
| Items.ItemAt | vItem.cpp:27-38 | vItem(x, y) is an uneaten small dot at (x, y) |
| Items.ConsumeTwice | vItem.cpp:73-85 | consuming an item a second time scores nothing and changes nothing more |
| Items.EatenStaysEaten | vItem.cpp:66-85 | no operation of an item brings back one that was eaten |
| Actors.SpeedOf | vActor.cpp:147-170 | setType's speed: the base velocity for Pacman, 80% of it for each of the four ghosts, 0 for any other type |
| Actors.Actor.constructor | vActor.cpp:15-39 | a new actor is alive, unselected, unscared, at level 0, with no AI mode and the waypoint (-1, -1), at the base velocity, its ability clock at the current time and its sprite new, at rest, SS_NA and of type V_PACMAN |
| Actors.Actor.SetVelocity | vActor.cpp:92-94 | only the speed changes |
| Actors.Actor.SetLife | vActor.cpp:96-99 | only the life changes; a killed actor is not deselected |
| Actors.Actor.Select | vActor.cpp:101-104 | the actor becomes selected exactly when it is alive (or already was), so selection never lands on a dead actor; nothing else changes |
| Actors.Actor.Deselect | vActor.cpp:106-109 | only the selection is cleared |
| Actors.Actor.SetScared | vActor.cpp:111-114 | only the scare changes |
| Actors.Actor.LevelUp | vActor.cpp:116-119 | the level goes up by one and nothing else changes |
| Actors.Actor.Reset | vActor.cpp:121-123 | the level goes back to 0 and nothing else changes |
| Actors.Actor.SetWaypoint | vActor.cpp:125-129 | only the waypoint changes |
| Actors.Actor.SetMode | vActor.cpp:131-134 | only the AI mode changes |
| Actors.Actor.SetAbilityTriggered | vActor.cpp:136-138 | only the ability time stamp changes |
| Actors.Actor.SetType | vActor.cpp:147-170 | the sprite type changes and the speed becomes SpeedOf it; nothing else changes |
| Actors.Actor.Update | vActor.cpp:268-272 | a living actor's sprite advances by dt; a dead actor's sprite is untouched |
| Motion.Wall | vMaze.cpp:1231-1250 | the wall of a square on a side; "no direction" has none, and raising that wall changes the square exactly when it is already up or the side is none |
| Motion.Heading | vMaze.cpp:1202-1214 | the direction read from a velocity is "none" exactly when the actor is at rest |
| Motion.HeadingOnRail | vMaze.cpp:1202-1214 | moving along one axis, the heading is the sign of the moving component |
| Motion.EnteredUnlessShort | vMaze.cpp:1286-1296 | for an actor moving along one axis, update's "fully entered" test holds exactly when applyAi's "still moving into the square" test fails and the actor is moving; the applyAi test is the early return at lines 161-170 of the same file |
| Motion.DiagonalDisagrees | vMaze.cpp:1286-1296 | on a diagonal velocity the two tests disagree, for a named pose; against the early return of applyAi at lines 161-170 |
| Motion.FacingState | vMaze.cpp:1228-1255 | turnActor faces an actor with the second animation frame of its direction, and with SS_NA for no direction, never otherwise |
| Motion.OffAxisIsDistance | vMaze.cpp:1219-1224 | the `direction != MD_RIGHT` and `direction != MD_DOWN` exemptions never apply: a turn is invalid exactly when the actor is more than a quarter square off the new axis |
| Motion.TurnVelocityOnRail | vMaze.cpp:1228-1255 | a turned actor moves along one axis at most; a blocked turn or a turn to nowhere stops it; any other turn sends it the way asked at its speed |
| Motion.TurnedOnCentreLine | vMaze.cpp:1193-1263 | a turn that does something faces the actor toward d; it stops exactly when the turn is to nowhere or blocked (off axis, or toward a wall it has reached); moving, it heads toward d on the centre line of its axis; stopped, it has not moved |
| Motion.TurnedIdempotent | vMaze.cpp:1193-1263 | turning the same way twice in the same square does no more than turning once |
| Motion.NoPassingWalls | vMaze.cpp:1317-1340 | for an actor moving along one axis, update's wall stop and alignment never let it through a wall: fully entered toward a wall of its square it comes to rest on the centre of that axis, otherwise it keeps its velocity; a moving actor ends on the centre line of its axis, and the state never changes |
| Steering.BitAnd | vMaze.cpp:295 | C's `&` on non-negative ints never exceeds either operand |
| Steering.Cost | vMaze.cpp:300-309 | the "enforce bounds" step: a cost lies in [0, numW * numH]; an unplotted square, a value outside that range and a walled side all cost numW * numH; anything else costs its plotted distance |
| Steering.ChooseTurnIsBest | vMaze.cpp:311-323 | on such costs, applyAi's chain of comparisons turns nowhere exactly when all four sides are walled, and otherwise picks an open side that no open side undercuts and that every preferred open side (up, left, down, right) costs strictly more than |
| Steering.AtWaypointNoTurn | vMaze.cpp:312-313 | at the waypoint the actor keeps going as it is |
| Steering.Clamp | vMaze.cpp:188-191 | the destination clamp leaves a value inside [0, n) alone and otherwise lands inside it; the same clamp recurs at lines 210-213 and 245-248 |
| Steering.ClampIsNearest | vMaze.cpp:188-191 | the clamped destination is the point of [0, n) nearest to the unclamped one; likewise for its copies at lines 210-213 and 245-248 |
| Steering.MulLe | vMaze.cpp:188-191 | squaring is monotone on non-negative ints (used for ClampIsNearest) |
| Steering.SqDist | vMaze.cpp:195-198 | the squared distance between squares is non-negative and 0 exactly for the same square; the same squared distance recurs at lines 226-229 and 257 |
| Steering.Nearest | vMaze.cpp:199-208 | the chain of `<=` picks a ghost no other undercuts, and the first such in the order Blinky, Pinky, Inky, Clyde; the hunting chain at lines 234-243 has the same shape |
| Steering.SideCost | vMaze.cpp:294-309 | the cost of leaving through a side lies in [0, numW * numH] |
| Steering.SteerIsBest | vMaze.cpp:284-323 | inside a complete outer wall: at the waypoint the actor stays on course; elsewhere it turns nowhere exactly when all four sides are walled, never turns through a wall, and otherwise takes the open side of least plotted distance, with ties going up, left, down, right |
| Steering.EdgesWalled | vMaze.cpp:160-164 | inside a complete outer wall a square on the edge is walled on its outer side |
| Steering.SteerByCosts | vMaze.cpp:294-309 | inside a complete outer wall the four values applyAi compares, `numW & numH` above the top row included, are the side costs |
| Waypoints.Quarry | vMaze.cpp:195-208 | the ghost Pacman flees or hunts is one no other ghost is nearer than, and the first such in the order Blinky, Pinky, Inky, Clyde; hunting, a dead ghost counts as numW * numH away; the hunting case is lines 226-243 |
| Waypoints.HuntPrefersLive | vMaze.cpp:230-243 | hunting never picks a dead ghost while a live one is nearer than numW * numH |
| Waypoints.FleeBy | vMaze.cpp:183-217 | fleeing aims at the actor's square reflected in its opponent's (Pacman for a ghost, the nearest ghost for Pacman), clamped into the grid |
| Waypoints.FleeIsAway | vMaze.cpp:183-217 | for actor and pursuer both in the grid, the flee waypoint lies in the grid and, on each axis, at least as far from the pursuer as the actor, on the same side |
| Waypoints.FirstNearest | vMaze.cpp:256-264 | the greedy scan ends on an item index among those scanned, or -1 |
| Waypoints.FirstNearestIsNearest | vMaze.cpp:253-271 | the scan settles on the uneaten item nearest the actor and nearer than numW + numH, the first of equals in x-major order, or on none when no uneaten item is that near |
| Waypoints.NearestItemUnique | vMaze.cpp:256-264 | there is only one such nearest item |
| Waypoints.AimDraws | vMaze.cpp:272-281 | choosing a waypoint takes three draws (a new Dice and two rolls) in random mode once the old waypoint is reached or unset, and none otherwise |
| Waypoints.AimInGrid | vMaze.cpp:172-282 | from a waypoint that is in the grid (or, outside avoid mode, unset), every mode aims at a square of the grid, which the path plot needs |
| Waypoints.ChaseReachesPacman | vMaze.cpp:220-250 | a homicidal ghost aims at Pacman's square |
| Waypoints.GreedySeeksNearest | vMaze.cpp:253-271 | a greedy actor that has reached its waypoint, or has none, aims at the nearest uneaten item nearer than numW + numH, or at (0, 0) when there is none |
| Waypoints.DivModIdx | vMaze.cpp:258-260 | an item's x-major index divided by numH gives back its square |
| Grid.ResetSquare | vMaze.cpp:28-35 | reset(empty) puts up all four walls when not empty and takes them all down when empty, and clears both flags |
| Grid.WithSide | vMaze.cpp:666-753 | a square with one side's wall set changes on that side only |
| Grid.Idx | vMaze.cpp:799-808 | the x-major index x * numH + y of a square of the grid lies in [0, numW * numH) |
| Grid.IdxInjective | vMaze.cpp:799-808 | distinct squares have distinct indices |
| Grid.AtUpdate | vMaze.cpp:799-808 | writing one square of the array changes what is seen at that square only |
| Grid.OpenInGrid | vMaze.cpp:543-567 | a passage the flood fills follow leads to a square of the grid |
| Grid.PathGrows | vMaze.cpp:352-402 | knocking walls down never disconnects a path |
| Grid.PathPred | vMaze.cpp:543-567 | a path that ends away from its start arrives from a neighbour reached one passage earlier |
| Grid.PathStep | vMaze.cpp:543-567 | one open passage more extends a path, unless it steps onto a blocked square |
| Grid.PathLonger | vMaze.cpp:543-567 | a path of at most k passages is one of at most k + 1 |
| Grid.RaisedCarves | vMaze.cpp:452-461 | raising walls while keeping the grid mirrored is a change divisionStep may make |
| Grid.VertCarves | vMaze.cpp:464-474 | so is moving vertical walls other than the left outer wall, keeping the grid mirrored |
| Grid.CarvesTrans | vMaze.cpp:477-480 | divisionStep's changes compose |
| Grid.OpenBack | vMaze.cpp:666-753 | on a grid whose shared walls agree from both sides, a passage can be used back the other way |
| Grid.Breakable | vMaze.cpp:346-349 | from a square outside the ghost town, breakIsolation's tried0..tried3 exclusions leave exactly inner sides that do not lead into the pen |
| Grid.ReachableGrows | vMaze.cpp:352-402 | knocking walls down keeps every square reachable from the entrance reachable |
| Grid.ExactFrame | vMaze.cpp:606-615 | a change of neither walls nor accessible flags (such as resetting visited) keeps the accessible flags exact |
| Grid.ExactGrows | vMaze.cpp:352-402 | with the flags exact before and after, knocking walls down keeps every accessible square accessible |
| Grid.AccessibleNext | vMaze.cpp:332-342 | the scan of breakIsolation adds the square it has just handled to the accessible prefix |
| Grid.AccessibleColumn | vMaze.cpp:332-342 | a finished column carries the accessible prefix to the next column |
| Grid.PenClosedKept | vMaze.cpp:352-402 | a change that keeps the pen's walls keeps the pen closed |
| Grid.CellOfIndex | vMaze.cpp:799-808 | every index of the flat array is the index of a square |
| Grid.WallsFromCells | vMaze.cpp:799-808 | walls equal square by square are equal index by index |
| Grid.SameWallsBreaks | vMaze.cpp:532-568 | a change that leaves every wall as it was is one breakIsolation may make |
| Grid.FlagsOnlyBreaks | vMaze.cpp:532-568 | so is a change of flags only, stated square by square |
| Grid.ClearedCell | vMaze.cpp:691-706 | taking down one shared wall keeps or lowers every wall, and leaves squares other than the two it separates untouched; the horizontal setter at lines 733-753 does the same |
| Grid.ClearedRemovesOnly | vMaze.cpp:691-706 | taking down one shared wall only removes walls; the horizontal setter at lines 733-753 does the same |
| Grid.ClearedKeepsPen | vMaze.cpp:352-402 | taking down a wall between two squares outside the pen keeps the pen's walls |
| Grid.ClearedKeepsBorders | vMaze.cpp:352-402 | taking down a shared wall keeps the outer wall |
| Grid.ClearedKeepsMirrored | vMaze.cpp:691-706 | taking down a shared wall from both sides keeps the two views of each wall in agreement; the horizontal setter at lines 733-753 does the same |
| Grid.VertCleared | vMaze.cpp:691-706 | setVertWall(x, y, false) between two squares of the grid clears the side between them, seen from either square |
| Grid.HorizCleared | vMaze.cpp:733-753 | setHorizWall(x, y, false) between two squares of the grid clears the side between them, seen from either square |
| Grid.ClearedBreaks | vMaze.cpp:352-402 | taking down the wall between two squares outside the pen only removes walls, never an outer one or one of the pen, and keeps the grid mirrored |
| Grid.BreaksTrans | vMaze.cpp:327-405 | breakIsolation's changes compose |
| Grid.RaisedKeepsPenClosed | vMaze.cpp:483-515 | raising walls never opens a passage, so a closed pen stays closed |
| Grid.RaisedKeepsFilled | vMaze.cpp:483-515 | raising walls keeps every filled corner filled |
| Grid.FilledNext | vMaze.cpp:487-489 | a filled corner extends the prefix fillSpaces has filled |
| Grid.FilledColumn | vMaze.cpp:487-489 | a finished column carries the filled prefix to the next column |
| Grid.FilledAll | vMaze.cpp:483-515 | once every corner has been visited, no point of the maze is a fully open intersection |
| Grid.BorderedFacts | vMaze.cpp:1268-1272 | raising the outer wall completes it, only raises walls, touches no flag and keeps the grid mirrored; the same four setters close the border of an emptied grid at lines 596-598 |
| Grid.BorderedTwice | vMaze.cpp:1268-1272 | raising the outer wall a second time changes nothing, so update and applyAi redoing it is harmless |
| Floods.GrowShrinks | vMaze.cpp:543-567 | marks that only grow never add unmarked squares, and marking a new square removes one, which bounds the fill's recursion |
| Floods.MarkShrinks | vMaze.cpp:543-567 | marking an unmarked square leaves one fewer unmarked |
| Floods.SealedGrows | vMaze.cpp:543-567 | more marks keep a square sealed |
| Floods.FreshSealedTrans | vMaze.cpp:543-567 | two stretches of the fill that each seal what they mark make one |
| Floods.SealedAfterBranches | vMaze.cpp:543-567 | after the four branches of one step, every open side of the square leads to an accessible square |
| Floods.GrowTrans | vMaze.cpp:543-567 | marks that grow in two stretches grow overall |
| Floods.FillSealsAll | vMaze.cpp:532-568 | started from exactly the ghost town, a fill that seals the entrance and every square it marks leaves every marked square outside the pen sealed |
| Floods.TownJustified | vMaze.cpp:570-585 | with exactly the ghost town marked, every mark is justified |
| Floods.MarkNeighbour | vMaze.cpp:543-567 | marking the square behind a passage out of a reachable square keeps every mark justified and reachable from the entrance, marks only grow, and one fewer square is unmarked |
| Floods.StepMarked | vMaze.cpp:543-567 | a passage out of a marked square outside the pen leads to a marked square |
| Floods.ReachedIsMarked | vMaze.cpp:532-568 | every square reached from the entrance without crossing the pen is marked |
| Floods.EntranceOutsidePen | vMaze.cpp:537-540 | the entrance square is not part of the pen |
| Floods.FloodComplete | vMaze.cpp:532-568 | when the fill is over, the accessible squares are exactly the ghost town and the squares reachable from its entrance |
| Floods.Without | vMaze.cpp:959-989 | taking a square out of the recursion stack removes it and nothing else |
| Floods.WithoutDistinct | vMaze.cpp:959-989 | taking one square out of a stack without repeats removes at most one entry |
| Floods.DistinctBounded | vMaze.cpp:959-989 | a recursion stack without repeats holds at most numW * numH squares (pigeonhole) |
| Floods.SettledBounds | vMaze.cpp:959-989 | with every square settled, a path of k passages from the source bounds the plotted value by k |
| Floods.PlotIsShortest | vMaze.cpp:959-989 | settled everywhere and supported by paths, the values are -1 exactly where no path reaches and otherwise the length of a shortest path |
| Floods.ImprovedTrans | vMaze.cpp:959-989 | values that improve in two stretches improve overall |
| Floods.ImprovedKeepsSettled | vMaze.cpp:959-989 | a settled square whose own value stays stays settled while the values around it improve |
| Floods.Lowered | vMaze.cpp:959-989 | a plotted value at most b stays plotted and at most b as values improve |
| Floods.SettledKeptTrans | vMaze.cpp:959-989 | keeping settled squares settled composes |
| Floods.WriteThenSettle | vMaze.cpp:967-970 | one improving write followed by a recursive call that settles the written square keeps settled squares settled |
| Floods.WriteThenSettleAt | vMaze.cpp:967-970 | the same, square by square |
| Floods.WriteImproves | vMaze.cpp:967-987 | writing curr + 1 over -1 or over a larger value improves the values |
| Floods.StackBelowImproved | vMaze.cpp:959-989 | improving values keep the recursion stack below any larger bound |
| Floods.StackPush | vMaze.cpp:967-987 | a square aStarPlot recurses into is neither on the stack nor its top, and pushing keeps the stack without repeats |
| Floods.TopNotInStack | vMaze.cpp:959-989 | the square being plotted is not already on the recursion stack |
| Floods.FrameSettled | vMaze.cpp:966-988 | after the four relaxations of one frame the square is settled |
| Floods.InitialSupported | vMaze.cpp:287-292 | the initial array (-1 everywhere, 0 at the waypoint) is supported, and every square but the source is settled in it |
| Floods.PlotComplete | vMaze.cpp:959-989 | when the plot from the waypoint is over, the array holds shortest path lengths, -1 for squares no path reaches; applyAi seeds the plot at lines 286-292 |
| Floods.SupportedWrite | vMaze.cpp:967-987 | writing the length of a real path to a square keeps the values supported |
| Floods.InitialOf | vMaze.cpp:287-292 | the array built by applyAi's loop is the initial state of the plot |
| Levels.DropDraws | Dice.cpp:25-54 | what is left of a stream of valid draws is valid, and so is its next draw |
| Levels.Spread | vMaze.cpp:1019-1021 | the denominator of the size curve is 1 or more |
| Levels.Shrunk | vMaze.cpp:1019-1021 | minW - maxW divided by a denominator of at least 1 lies in [minW - maxW, 0) |
| Levels.SizeCurveBounds | vMaze.cpp:1019-1021 | the size curve stays between its start and its limit, never reaches the limit, and starts exactly at the minimum on level 1 |
| Levels.SizeCurveGrows | vMaze.cpp:1019-1021 | the maze never shrinks from one level to a later one |
| Levels.TruncGrows | vMaze.cpp:1020-1021 | the `(int)` conversion is monotone on non-negative values |
| Levels.LevelSize | vMaze.cpp:1019-1022 | every level's maze is between 5 x 7 and 12 x 16 squares, and level 1's is exactly 5 x 7 |
| Levels.FruitKind | vMaze.cpp:655-659 | a fruit is between the banana and the cherries, and never a banana after level 0 |
| Levels.TierDenominator | vMaze.cpp:655 | the denominator `levelScaleSpeed * level + 0.25` is at least 0.25, and at least 0.3 from level 1 on |
| Levels.FruitTier | vMaze.cpp:655 | `(int)(1 / (levelScaleSpeed * level + 0.25))` lies in [0, 4], and below 4 from level 1 on |
| Levels.FruitTierIsQuotient | vMaze.cpp:655 | the comparison chain FruitTier is exactly the truncated quotient `(int)(1 / (levelScaleSpeed * level + 0.25))` |
| Levels.PenRowSquares | vMaze.cpp:643 | resize's test `(centerX - i)^2 <= 1 && j == centerY` holds exactly on the three middle squares of the ghost town's row |
| Levels.LaidOut | vMaze.cpp:637-662 | the layout of the first n squares holds n items and takes at most two draws each |
| Levels.ColumnRowSplit | vMaze.cpp:643 | counting off whole columns splits item k into a column and a row below numH that rebuild k |
| Levels.ColumnRow | vMaze.cpp:643 | item k of the x-major layout lies on square (k / numH, k % numH) |
| Levels.TraceLaidOut | vMaze.cpp:640-662 | a trace in which each of the first n squares, taken column by column, holds the item LayItem gives it from the draws the squares before it left is exactly the first n items of LaidOut, with the draws they take |
| Levels.LayItemPlaced | vMaze.cpp:642-661 | whatever the draws, the item of a square is as its place demands: the pen row disabled, the eight symmetric squares large dots, every other square an uneaten small dot or fruit, and all of them still at (-1, -1) |
| Levels.LaidOutPlaced | vMaze.cpp:637-662 | every item of the layout is placed as its square demands |
| Levels.PointsTotalBounds | vMaze.cpp:766-777 | the points total lies between 0 and 90 per item, and is 0 once every item is eaten |
| Levels.PointsConsume | vMaze.cpp:766-777 | eating one item takes exactly its points off the total; an item's points are its pointValue (vItem.cpp, lines 73-78) |
| Levels.EdgeSlotOnBorder | vMaze.cpp:1025-1040 | every one of the 2 numW + 2 numH slots is a border square |
| Levels.EdgeSlotCovers | vMaze.cpp:1025-1040 | every border square is some slot, so Pacman can start anywhere on the border |
| Levels.StartSquare | vMaze.cpp:1024-1042 | Pacman's start, picked by a new Dice's first roll, is on the border of the maze |
| Levels.NewBoard | vMaze.cpp:1007-1054 | the board of a new level has the level's size, one item per square and Pacman's start on the border |
| Levels.NewBoardPlaced | vMaze.cpp:637-662 | every square of a new board holds what the layout rules allow there |
| Levels.StartIndex | vMaze.cpp:1042 | Pacman's start square has an index among the items |
| Levels.StartIndexCell | vMaze.cpp:1042 | that index is the x-major index of the start square |
| Levels.Eaten | vMaze.cpp:1042 | eating the start square's item keeps the number of items |
| Levels.EatenPoints | vMaze.cpp:1042 | once Pacman's square is eaten the board holds its layout's points less those of his square; the total is getCurrentPointsTotal, lines 766-777 |
| Levels.OffsetFits | vMaze.cpp:628-630 | a maze that fits the screen is drawn wholly on it |
| Levels.LevelsFitWindow | vMaze.cpp:628-630 | every level's maze is drawn wholly inside main's 870 x 675 window; the window size is set in main.cpp, line 320 |
| Scenes.CellOf | vMaze.cpp:1281-1282 | the square an actor stands on is between -1 and numW (numH) on each axis |
| Scenes.CentreOf | vMaze.cpp:1283-1284 | the centre used by update is the centre pixel of the actor's square |
| Scenes.SettledPose | vMaze.cpp:1317-1340 | the wall stop and the alignment keep the actor on its square |
| Scenes.ItemIndex | vMaze.cpp:1343 | the item Pacman's consumption test looks at is the item of his square |
| Scenes.SceneView | vMaze.cpp:161-282 | what applyAi reads for an actor is its own square and waypoint, Pacman's square, the ghosts' squares and lives, and the items' eaten flags |
| Scenes.MeetingSounds | vMaze.cpp:1302-1314 | a ghost's collision test raises flag 6 exactly when the ghost is eaten and flag 7 exactly when it kills Pacman, and touches no other flag |
| Scenes.CollidedCases | vMaze.cpp:1298-1315 | a living ghost that does not meet Pacman changes nothing; one that meets him scared dies at level 0 and raises flag 6; one that meets him unscared kills him and raises flag 7 |
| Scenes.GhostFrames | vMaze.cpp:1277-1371 | the ghosts' turns change only the actors and the sound flags, and leave the ghosts not yet reached untouched |
| Scenes.Countdowns | vMaze.cpp:1372-1390 | the countdowns keep the five actors |
| Scenes.AbilitiesEnded | vMaze.cpp:1384-1390 | the ability countdowns keep the five actors |
| Scenes.FedReady | vMaze.cpp:1335-1366 | being placed and fed keeps Pacman on his square and his waypoint ready for applyAi |
| Scenes.SteeredMoved | vMaze.cpp:1366-1368 | steering and then moving Pacman is moving his steered status |
| Scenes.AfterPacmanGhosts | vMaze.cpp:1342-1368 | Pacman's turn leaves every ghost where it stood and alive or dead as it was; only its scare can change, and only to scared |
| Scenes.LivingStep | vMaze.cpp:1265-1391 | a frame while Pacman lives is his turn followed by the ghosts' turns against the position he had before moving, then the countdowns |
| Abilities.ShownReadyFires | main.cpp:97-126 | an ability the interface shows as ready always fires; the two disagree only in the very second the cooldown ends |
| Abilities.HalfPow | vMaze.cpp:900 | pow(0.5, n) lies in (0, 1], and is at most one half from n = 1 on |
| Abilities.SprintBounds | vMaze.cpp:900 | from ability level 1 on, Blinky's sprint is at least 1.5 times and less than twice a ghost's velocity |
| Abilities.SprintGrows | vMaze.cpp:900 | each ability level makes the sprint strictly faster |
| Abilities.Resigned | vMaze.cpp:901-906 | the sprint gives a moving velocity component the new speed with its own sign, and leaves a component at rest at rest |
| Abilities.JumpLands | vMaze.cpp:908-925 | Pinky's jump from a square of the grid lands on the grid, level squares on in the direction he faces or at the border if that is nearer |
| Abilities.LandingNear | vMaze.cpp:942-947 | one roll of Clyde's scatter lands on the grid within twice the level of his square in each coordinate |
| Abilities.LandingReaches | vMaze.cpp:942-947 | every square of the grid within twice the level of his square is a possible landing |
| Abilities.ScatterRolls | vMaze.cpp:941-948 | the scatter rolls at least once and never more pairs of draws than the stream holds (plus the one roll at exhaustion) |
| Abilities.Scattered | vMaze.cpp:941-949 | Clyde's scatter from a square of the grid, at level 1 or more, lands on the grid within twice his level of where he stood in each coordinate |
| Abilities.ScatteredLast | vMaze.cpp:941-949 | the scatter lands where its last pair of draws puts it |
| Abilities.ScatterStops | vMaze.cpp:948 | a roll off his own square ends the do-while loop at once and is where he lands |
| Abilities.ScatterAgain | vMaze.cpp:948 | a roll back onto his own square is followed by a fresh roll on the rest of the stream |
| Abilities.ScatterMoves | vMaze.cpp:941-949 | while draws last, Clyde's scatter never lands on the square he left |
| Abilities.FirstSelected | vMaze.cpp:836-840 | getSelection's loop stops at a selected actor, with no selected actor before it, or runs off the end |
| Abilities.FirstSelectedAt | vMaze.cpp:836-840 | the loop stops at exactly the first selected actor |
| Abilities.NextAlive | vMaze.cpp:1183-1190 | rotateSelection's loop ends on a ghost or on nothing |
| Abilities.Cycle | vMaze.cpp:1184 | the cycle visits ghosts only |
| Abilities.CycleCovers | vMaze.cpp:1182-1190 | the four tries visit every ghost once, and from a ghost they come back to that ghost last |
| Abilities.PickFirst | vMaze.cpp:1183-1190 | choosing from a list of ghosts finds nothing exactly when all are dead, and otherwise the first living one |
| Abilities.NextAliveIsPick | vMaze.cpp:1183-1190 | the loop chooses the first living ghost of the cycle after the current selection |
| Abilities.SuccIsGhost | vMaze.cpp:1184 | currentSelection % 4 + 1 is always a ghost, from Pacman too |
| Abilities.Selections | vMaze.cpp:837 | the selected flags in sprite-type order |
| Abilities.GhostLives | vMaze.cpp:1185 | the alive flags of the four ghosts in sprite-type order |
| Abilities.SelectionFirst | vMaze.cpp:834-843 | getSelection returns the first selected actor and changes nothing; with none selected it returns Pacman and selects him, which takes only when he lives |
| Abilities.Reselected | vMaze.cpp:1178-1186 | only ghost g is left selected and Pacman is untouched |
| Abilities.ReselectedOne | vMaze.cpp:1178-1186 | with the four ghosts deselected, selecting g is setting its one flag |
| Abilities.RotatedSteps | vMaze.cpp:1175-1191 | the rotation is getSelection, then the deselection, then the search on the deselected roster |
| Abilities.NextAliveFinds | vMaze.cpp:1183-1190 | the four tries find a ghost exactly when one lives, and it lives |
| Abilities.RotatedSelects | vMaze.cpp:1175-1191 | after rotateSelection exactly one ghost is selected if any lives, that ghost lives and is the first living one after the old selection, none is selected if all are dead, and nothing but the selected flags changes |
| Abilities.RotatedLoneGhost | vMaze.cpp:1175-1191 | a lone living ghost that is selected stays the only one selected |
| Abilities.Centred | vMaze.cpp:1001-1005 | moveToMazeXY puts the actor at the centre pixel of the square and keeps its velocity and state |
| Abilities.Ability | vMaze.cpp:877-890 | executeAbility keeps the five actors |
| Abilities.Effect | vMaze.cpp:892-956 | each ability keeps the five actors |
| Abilities.AbilityFires | vMaze.cpp:877-957 | the ability fires exactly when the level is at least 1, the cooldown (twice the level for Blinky and Inky) has passed and the subject is a ghost; when it fires only the subject changes and its clock reads now, when it fails nothing changes |
| Mazes.TownWallMirrored | vMaze.cpp:412-431 | every group of buildGhostTown's setter calls writes both sides of each wall alike |
| Mazes.TownSteps | vMaze.cpp:407-442 | the four groups of wall setters followed by the four accessible marks are what buildGhostTown makes of the grid |
| Mazes.TownKeepsMirrored | vMaze.cpp:407-442 | a grid whose neighbouring walls agree still agrees after buildGhostTown |
| Mazes.TownKeepsBorders | vMaze.cpp:407-442 | buildGhostTown takes down no wall of the grid's edge |
| Mazes.TownEnclosed | vMaze.cpp:407-442 | whatever the walls were before, the pen can then be left only through its entrance, and the entrance is open on all four sides |
| Mazes.Unscared | vMaze.cpp:1074-1085 | newLevel's last step calms every ghost and, on a reset, sets its ability level to 0, and leaves Pacman alone |
| Mazes.CastRoster | vMaze.cpp:1024-1068 | newLevel's placement keeps the five actors |
| Mazes.Overwritten | vMaze.cpp:1024-1068 | overwriting each of the five actors in turn yields the new roster |
| Mazes.LevelCast | vMaze.cpp:1024-1085 | newLevel's roster keeps the five actors |
| Mazes.Revived | vMaze.cpp:1024-1048 | Pacman's revival keeps the five actors |
| Mazes.LevelCastStaged | vMaze.cpp:1024-1085 | newLevel's roster is Pacman revived on his start square, the ghosts cast in the ghost town, and then the ghosts calmed |
| Mazes.LevelCastLevels | vMaze.cpp:1080-1085 | a new level keeps each ghost's ability level, or with a reset sets it to 0 |
| Mazes.LevelCastInside | vMaze.cpp:1024-1068 | on a maze of at least 3 x 2 squares every actor of the new level stands on the grid, Pacman and Blinky are alive and exactly Blinky is selected |
| Mazes.CastInside | vMaze.cpp:1001-1005 | an actor placed on a square of the grid stands on that square |
| Mazes.Maze.Separated | vMaze.cpp:68-92 | the five actors and their sprites are ten different objects |
| Mazes.Maze.constructor | vMaze.cpp:41-112 | an empty 0 x 0 maze at level 0 with no squares and no items, not paused, all eight sound flags down; Pacman is greedy; the ghosts face up, left, down and right and stand where a 0 x 0 maze's ghost town would be; thirteen draws are taken |
| Mazes.Maze.NewCast | vMaze.cpp:67-98 | the five actors of the constructor, with their types, states, mode and places, for ten draws |
| Mazes.Maze.NewActor | vActor.cpp:15-39 | a new actor of type t: alive, unselected, unscared, at level 0, without a waypoint, at the velocity of its type, for two draws |
| Mazes.Maze.NewGhost | vMaze.cpp:74-98 | a ghost of the constructor: its type and state, centred on its square of a maze with zero offsets |
| Mazes.Maze.GetSoundFlag | vMaze.cpp:761-764 | reads flag n, or flag 0 for an index outside 0..7 |
| Mazes.Maze.SetSoundFlag | vMaze.cpp:851-854 | writes flag n, or flag 0 for an index outside 0..7, and no other flag; getSoundFlag then reads the value written |
| Mazes.Maze.Pause | vMaze.cpp:856-858 | the maze is paused and nothing else changes |
| Mazes.Maze.Unpause | vMaze.cpp:860-862 | the maze is not paused and nothing else changes |
| Mazes.Maze.ActorByType | vMaze.cpp:810-832 | the ghost of that colour, and Pacman for every other type |
| Mazes.Maze.ActorByTypeHasType | vMaze.cpp:810-832 | the actor returned for a type is the one of that type |
| Mazes.Maze.MazeX2ScreenX | vMaze.cpp:1395-1399 | the maze's column-to-pixel transform is the one of its offset |
| Mazes.Maze.CellX | vMaze.cpp:1281 | an actor's column lies between -1 and numW |
| Mazes.Maze.CellY | vMaze.cpp:1282 | an actor's row lies between -1 and numH |
| Mazes.Maze.MoveToMazeXY | vMaze.cpp:1001-1005 | the sprite is put at the centre pixel of square (x, y); velocity, state and type are kept |
| Mazes.Maze.MovedOnGrid | vMaze.cpp:1001-1005 | an actor centred on a square of the grid stands on that square |
| Mazes.Maze.SetVertWall | vMaze.cpp:666-689 | grid line v is walled on both sides over the whole height; line 0 and line numW are the outer walls; any other line outside the grid changes nothing |
| Mazes.Maze.SetHorizWall | vMaze.cpp:708-731 | grid line h is walled on both sides over the whole width, with the same edge cases as the vertical setter |
| Mazes.Maze.SetVertWallAt | vMaze.cpp:691-706 | the wall between (x - 1, y) and (x, y) is set to s on each side inside the grid and nothing else changes; agreeing neighbours keep agreeing; s false only removes walls and s true only raises them |
| Mazes.Maze.SetHorizWallAt | vMaze.cpp:733-753 | the wall between (x, y - 1) and (x, y) is set to s on each side inside the grid and nothing else changes, with the same consequences |
| Mazes.Maze.BuildGhostTown | vMaze.cpp:407-442 | the pen is closed but for its entrance, the entrance is open all round, the four squares are accessible, and agreeing neighbours and the outer walls are kept |
| Mazes.Maze.MarkTown | vMaze.cpp:433-441 | the four ghost-town squares become accessible and nothing else changes |
| Mazes.Maze.MarkAccessible | vMaze.cpp:434-441 | one square becomes accessible and nothing else changes |
| Mazes.Maze.TownCentre | vMaze.cpp:412-416 | the walls of the centre square as the first group of setters leaves them |
| Mazes.Maze.TownLeft | vMaze.cpp:418-421 | the walls of the left square as the second group leaves them |
| Mazes.Maze.TownRight | vMaze.cpp:423-426 | the walls of the right square as the third group leaves them |
| Mazes.Maze.TownBottom | vMaze.cpp:428-431 | the walls of the entrance as the fourth group leaves them |
| Mazes.Maze.DivisionStep | vMaze.cpp:444-481 | recursive division changes only walls and stays inside the grid, and never draws more than the stream holds |
| Mazes.Maze.Divide | vMaze.cpp:451-474 | the dividing lines lie strictly inside the region (a region two squares across may draw its far edge), draws are consumed while they last, and an empty stream yields the first lines |
| Mazes.Maze.DrawLines | vMaze.cpp:451-461 | the two dividing lines are drawn within the region and walled |
| Mazes.Maze.CutGaps | vMaze.cpp:463-474 | cutting the gaps changes only walls and consumes draws |
| Mazes.Maze.AtMostOneApart | vMaze.cpp:446 | divisionStep's stop test (l - r)^2 <= 1 holds exactly when l and r are at most one apart |
| Mazes.Maze.RaiseVertical | vMaze.cpp:453-455 | vertical line v is walled on both sides in rows b..t |
| Mazes.Maze.RaiseHorizontal | vMaze.cpp:459-461 | horizontal line hl is walled on both sides in columns l..r |
| Mazes.Maze.CutVertical | vMaze.cpp:464-469 | the vertical gaps change only walls and consume draws |
| Mazes.Maze.CutHorizontalAsWritten | vMaze.cpp:470-474 | the second set of gaps, cut with setVertWall as written, changes only walls and consumes draws |
| Mazes.Maze.PutSquare | vMaze.cpp:802 | storing a square changes that square and no other |
| Mazes.Maze.ResetAt | vMaze.cpp:587-602 | a reset square is neither visited nor accessible; closed, it has all four walls; open, it has walls only on the grid's edge |
| Mazes.Maze.ResetSquares | vMaze.cpp:587-604 | every square is reset as ResetAt says, and the grid is then walled all round with agreeing neighbours |
| Mazes.Maze.ResetVisited | vMaze.cpp:606-615 | every square loses its visited mark and nothing else changes |
| Mazes.Maze.ResetAccessibility | vMaze.cpp:570-585 | exactly the four ghost-town squares are accessible and nothing else changes |
| Mazes.Maze.RefreshAccessibility | vMaze.cpp:532-568 | only the two marks change, nothing is left visited, and the accessible squares are exactly the ghost town and the squares the entrance reaches through open walls without entering the pen |
| Mazes.Maze.ResetMarks | vMaze.cpp:533-541 | the fill starts at the entrance with nothing visited and only the ghost town marked |
| Mazes.Maze.RefreshFrom | vMaze.cpp:542-567 | from a marked, reachable square the fill marks only reachable squares, and leaves this square and every square it marks with all open sides leading to marked squares |
| Mazes.Maze.Spread | vMaze.cpp:544-566 | after each branch the square behind an open side is marked |
| Mazes.Maze.BreakIsolation | vMaze.cpp:327-342 | walls only come down, never on the grid's edge or round the pen; accessibility stays exact; while draws last every square ends up accessible |
| Mazes.Maze.ConnectColumn | vMaze.cpp:335-341 | one column of the scan keeps accessibility exact and, while draws last, extends the accessible prefix by a column |
| Mazes.Maze.ConnectSquare | vMaze.cpp:336-340 | one square of the scan keeps what was accessible and, while draws last, makes the square accessible |
| Mazes.Maze.MarkVisited | vMaze.cpp:338 | only the visited mark of that square changes, which keeps accessibility exact |
| Mazes.Maze.BreakFrom | vMaze.cpp:343-403 | walls only come down, never on the grid's edge or round the pen; accessibility stays exact; while draws last the square ends up accessible |
| Mazes.Maze.BreakIsolated | vMaze.cpp:345-402 | breaking out of an inaccessible square keeps the same promises and, while draws last, makes it accessible |
| Mazes.Maze.SideDone | vMaze.cpp:348-351 | a side not yet counted as tried lies inside the grid, does not lead into the pen, and may be broken |
| Mazes.Maze.RollBreaks | vMaze.cpp:352-402 | the rolling loop keeps accessibility exact and only takes down breakable walls; while draws last it ends with the square accessible |
| Mazes.Maze.TryRolled | vMaze.cpp:354-401 | roll 0 tries up, 1 left, 2 down, anything else right; exactly that side becomes tried and only breakable walls come down |
| Mazes.Maze.TrySide | vMaze.cpp:358-365 | after a case of the switch its side counts as tried, and only breakable walls came down |
| Mazes.Maze.BreakOut | vMaze.cpp:359-363 | breaking one breakable wall, refreshing and recursing into the neighbour keeps accessibility exact and only removes breakable walls |
| Mazes.Maze.Refreshed | vMaze.cpp:360 | a refresh leaves every wall standing |
| Mazes.Maze.BreakWall | vMaze.cpp:359-393 | the setter of each case takes down only a breakable wall |
| Mazes.Maze.ClearVert | vMaze.cpp:691-706 | setVertWall(x, y, false) between two squares of the grid opens both sides of that wall and nothing else |
| Mazes.Maze.ClearHoriz | vMaze.cpp:733-753 | setHorizWall(x, y, false) between two squares of the grid opens both sides of that wall and nothing else |
| Mazes.Maze.Generate | vMaze.cpp:517-530 | the walls agree from both sides and the left, bottom and top outer walls stand; after division the pen is left only through its entrance, no corner is fully open, and while draws last every square is accessible; other algorithms leave the reset open grid |
| Mazes.Maze.GenerateDivision | vMaze.cpp:520-526 | the division case, from a reset grid, keeps those promises |
| Mazes.Maze.FillSpaces | vMaze.cpp:483-515 | walls are only raised, the marks are untouched, and afterwards no inner corner is a fully open intersection |
| Mazes.Maze.FillColumn | vMaze.cpp:488-513 | one column of corners is filled, extending the filled prefix |
| Mazes.Maze.FillCorner | vMaze.cpp:489-512 | after one corner a wall touches it; walls only go up; a draw is taken exactly when the corner was open |
| Mazes.Maze.CheckAccessibility | vMaze.cpp:866-875 | true exactly when every square is accessible |
| Mazes.Maze.SetSide | vMaze.cpp:671-685 | one wall flag of one square changes and nothing else |
| Mazes.Maze.ReassertBorders | vMaze.cpp:147-150 | every square on the edge gets its outer side walled, nothing else changes, and no wall comes down |
| Mazes.Maze.PlotFrom | vMaze.cpp:286-292 | every entry of the plot is the length of a shortest open path from the waypoint to that square, and -1 exactly where no path leads |
| Mazes.Maze.AStarPlot | vMaze.cpp:959-989 | values only improve, stay lengths of real paths from the source, and squares settled before or changed are settled afterwards, (x, y) included |
| Mazes.Maze.Relax | vMaze.cpp:966-988 | after each branch the square behind an open side holds at most one more than the current square |
| Mazes.Maze.CentreX | vMaze.cpp:1197 | the centre pixel of an actor's column |
| Mazes.Maze.CentreY | vMaze.cpp:1198 | the centre pixel of an actor's row |
| Mazes.Maze.SquareOf | vMaze.cpp:1199 | the square an actor stands on |
| Mazes.Maze.TurnActor | vMaze.cpp:1193-1263 | the sprite ends in the pose the turn rules give: ignored when already heading that way, stopped when blocked, and realigned on the square's centre line |
| Mazes.Maze.ViewOf | vMaze.cpp:153-282 | what applyAi reads is well formed whenever the actor stands on the grid |
| Mazes.Maze.SeekItem | vMaze.cpp:255-269 | the greedy search finds the first uneaten item strictly nearest the actor and nearer than numW + numH, or none |
| Mazes.Maze.ScanColumn | vMaze.cpp:257-263 | one column of the scan keeps the first nearest item of the squares so far |
| Mazes.Maze.ScanSquare | vMaze.cpp:258-262 | one square of the scan keeps the first nearest item of the squares so far |
| Mazes.Maze.ScanStep | vMaze.cpp:259-262 | a square replaces the one kept exactly when its item is uneaten and strictly nearer |
| Mazes.Maze.ChooseWaypoint | vMaze.cpp:173-282 | the waypoint is the one the mode's rule picks from the actor's view, exactly the draws that rule needs are taken, and the actor's other fields are kept |
| Mazes.Maze.RandomTarget | vMaze.cpp:276-279 | a new Dice takes one draw, then one roll in 0..numW - 1 and one in 0..numH - 1 |
| Mazes.Maze.FleeTarget | vMaze.cpp:183-217 | an avoiding actor aims at the reflection of its square in its pursuer's, clamped into the grid |
| Mazes.Maze.ChaseTarget | vMaze.cpp:220-251 | a homicidal actor aims at Pacman, or Pacman at the nearest live ghost, clamped into the grid |
| Mazes.Maze.Opponent | vMaze.cpp:184-245 | the square an actor steers by: Pacman's for a ghost, the nearest ghost's for Pacman, with dead ghosts at distance numW * numH when hunting |
| Mazes.Maze.GreedyTarget | vMaze.cpp:253-270 | on reaching its waypoint or without one, a greedy actor aims at the nearest uneaten item, or at (0, 0) |
| Mazes.Maze.ApplyAi | vMaze.cpp:144-325 | the outer wall is raised; an actor short of the centre of its square is left alone; otherwise it gets its mode's waypoint, a shortest-path plot and the turn toward the closest open side |
| Mazes.Maze.SteerUnlessInTransit | vMaze.cpp:161-323 | an actor still entering its square is left unchanged; otherwise it is steered, and its other fields are kept |
| Mazes.Maze.Steer | vMaze.cpp:172-323 | the waypoint, the plot, the turn and the pose after it are as the steering rules say, and the other fields are kept |
| Mazes.Maze.TurnToWaypoint | vMaze.cpp:284-323 | the plot holds shortest path lengths to the waypoint, the turn is the cheapest open side (none on the waypoint itself), and the pose is what turnActor makes of it |
| Mazes.Maze.MoveInSquare | vMaze.cpp:1286-1340 | an actor fully entered toward a wall stops on the centre of that axis, and one moving along an axis is put on its centre line; it stays on its square |
| Mazes.Maze.Roster | vMaze.cpp:810-832 | five actors in sprite-type order |
| Mazes.Maze.RosterAt | vMaze.cpp:1278 | the actor getActorByType gives for type t is the t-th of the roster |
| Mazes.Maze.World | vMaze.cpp:1265-1391 | the scene holds the five actors, one flag per sound, one item and one square per square of the grid |
| Mazes.Maze.Geometry | vMaze.cpp:1281-1284 | the layout is the maze's dimensions and offsets |
| Mazes.Maze.RosterOnGrid | vMaze.cpp:1281-1284 | the scene's square of actor t is the one the maze computes, and it is inside the grid exactly when the actor stands on it |
| Mazes.Maze.PlaceActor | vMaze.cpp:1317-1340 | the wall stop and the alignment of actor i are the scene's settling of it |
| Mazes.Maze.MoveActor | vMaze.cpp:1368 | vActor::update(dt) of actor i moves it by its velocity and changes no other actor |
| Mazes.Maze.Collide | vMaze.cpp:1298-1315 | a ghost's collision test changes the roster and the sound flags as the meeting rules say |
| Mazes.Maze.GhostEaten | vMaze.cpp:1304-1308 | the ghost dies and is reset to ability level 0, flag 6 is raised, and nothing else changes |
| Mazes.Maze.PacmanKilled | vMaze.cpp:1309-1313 | Pacman dies, flag 7 is raised, and nothing else changes |
| Mazes.Maze.GhostTurn | vMaze.cpp:1279-1369 | one living ghost's turn of the loop is the scene's ghost step |
| Mazes.Maze.SettleAndMove | vMaze.cpp:1317-1368 | the wall stop, the alignment and the move of actor i, on the scene |
| Mazes.Maze.ActorSettles | vMaze.cpp:1317-1340 | the wall stop and the alignment of actor i, on the scene |
| Mazes.Maze.ActorMoves | vMaze.cpp:1368 | the move of actor i, on the scene |
| Mazes.Maze.Chime | vMaze.cpp:1345-1347 | the eating chimes: flag 1 for a small dot and flag 2 for a large one, each only if it was not already sounding, and flag 3 for anything else |
| Mazes.Maze.Silence | vMaze.cpp:1359-1363 | a frame in which Pacman eats nothing lowers flags 1 to 3 and no other |
| Mazes.Maze.Vulnerable | vMaze.cpp:1349-1357 | a large dot scares every ghost, makes Pacman homicidal and raises flag 5, and nothing else changes |
| Mazes.Maze.EatItem | vMaze.cpp:1344-1363 | an uneaten item under a fully entered Pacman is eaten with its chime, and a large dot starts the vulnerable period; otherwise the chimes are silenced |
| Mazes.Maze.Feed | vMaze.cpp:1286-1363 | Pacman's turn up to applyAi is the scene's feeding step, with the entry test and the item taken before the wall stop moves him |
| Mazes.Maze.FeedAt | vMaze.cpp:1317-1363 | the wall stop and the alignment, then the consumption test on item k |
| Mazes.Maze.PacmanView | vMaze.cpp:153-159 | what applyAi reads of Pacman is the scene's view of him |
| Mazes.Maze.PacmanTurn | vMaze.cpp:1279-1368 | Pacman's turn of the loop: fed, steered by applyAi, moved, and the vulnerable period stamped when it began |
| Mazes.Maze.PacmanFeeds | vMaze.cpp:1286-1363 | after feeding Pacman still stands on the grid and his waypoint is ready for applyAi |
| Mazes.Maze.PacmanRest | vMaze.cpp:1357-1368 | applyAi, the move and the time stamp, on the scene |
| Mazes.Maze.MoveAndStamp | vMaze.cpp:1357-1368 | Pacman moves, and the time stamp is now exactly when a vulnerable period began |
| Mazes.Maze.Stamp | vMaze.cpp:1357 | the time stamp is now exactly when a vulnerable period began, and nothing else changes |
| Mazes.Maze.PacmanSteers | vMaze.cpp:1366 | applyAi for Pacman changes only him and the draws, as the steering rules say |
| Mazes.Maze.PacmanApplyAi | vMaze.cpp:1366 | with the outer wall already standing, applyAi leaves the grid as it was and changes only Pacman |
| Mazes.Maze.Calm | vMaze.cpp:1376-1382 | no ghost is scared, Pacman is greedy again, and nothing else changes |
| Mazes.Maze.Countdown | vMaze.cpp:1372-1390 | the countdowns at time now, as the countdown rules say |
| Mazes.Maze.EndVulnerability | vMaze.cpp:1375-1382 | the vulnerable period ends exactly when more than 3 + level / 2 seconds have passed |
| Mazes.Maze.EndAbilities | vMaze.cpp:1384-1390 | Blinky's sprint and Inky's immunity end once their level in seconds has passed |
| Mazes.Maze.GhostTurns | vMaze.cpp:1277-1370 | the ghosts' turns of the loop, Blinky first, against Pacman's position |
| Mazes.Maze.CountdownStep | vMaze.cpp:1372-1390 | the countdowns on the scene |
| Mazes.Maze.LivingTurns | vMaze.cpp:1277-1390 | while Pacman lives the loop and the countdowns compose as the frame rules say |
| Mazes.Maze.GhostsAfterPacman | vMaze.cpp:1277-1390 | the ghosts' turns and the countdowns after Pacman's turn complete the frame |
| Mazes.Maze.GhostsAndCountdown | vMaze.cpp:1277-1390 | the ghosts' turns followed by the countdowns |
| Mazes.Maze.Frame | vMaze.cpp:1274-1390 | one frame after the outer wall is raised is the frame the rules describe, with Pacman dead or alive |
| Mazes.Maze.Update | vMaze.cpp:1265-1391 | a paused maze changes nothing; otherwise the outer wall is raised and the frame runs |
| Mazes.Maze.GetCurrentPointsTotal | vMaze.cpp:766-777 | the total of the points of the items not yet eaten, between 0 and 90 per item |
| Mazes.Maze.SumColumn | vMaze.cpp:770-774 | one column adds the points of its uneaten items |
| Mazes.Maze.Resize | vMaze.cpp:617-664 | a grid of at least 1 x 1 closed squares centred on the screen; fresh items, whose construction takes two draws each, then laid out by LaidOut from the draws that follow, with exactly the layout's draws taken after them; levelPoints their total; the level, the points and the pause are kept |
| Mazes.Maze.NewGrid | vMaze.cpp:617-637 | the dimensions, closed squares, the centring offsets and fresh small dots, whose construction takes two draws per item |
| Mazes.Maze.Reshape | vMaze.cpp:624-637 | the maze takes the new dimensions, offsets and arrays and nothing else changes |
| Mazes.Maze.ClosedSquares | vMaze.cpp:626 | every new square has all four walls |
| Mazes.Maze.SmallDots | vItem.cpp:14-25 | every new item is an uneaten small dot at (-1, -1), and building each takes two draws: the Dice of vSprite's constructor and its time seed (vSprite.cpp, lines 26-27) |
| Mazes.Maze.LayItems | vMaze.cpp:640-662 | every item is the one LaidOut gives from the draws, and exactly the draws the layout needs are taken, proved by a ghost trace of each square's item and draws |
| Mazes.Maze.LayColumn | vMaze.cpp:641-661 | one column of the layout: the trace grows by the column's numH squares, each laid by LayItem |
| Mazes.Maze.LaySquare | vMaze.cpp:642-660 | one square of the layout: its item goes in place x-major and the trace grows by it and its draws |
| Mazes.Maze.ChooseItem | vMaze.cpp:644-660 | the pen row is disabled, the eight symmetric squares hold large dots, and any other square is rolled for |
| Mazes.Maze.RollItem | vMaze.cpp:651-659 | a roll at most fruitDensity gives a fruit whose kind a second roll picks, for two draws; any other roll leaves a small dot, for one |
| Mazes.Maze.CountLevelPoints | vMaze.cpp:663 | levelPoints becomes the points of the items, and nothing else of the maze changes |
| Mazes.Maze.NewLevel | vMaze.cpp:1007-1086 | the level is 1 after a reset and one more otherwise; uneaten points are saved, or forgotten on level 1; the maze takes the level's size and board less the item Pacman starts on; Pacman is revived on his border square; the ghosts of the level stand in the ghost town, Blinky alone selected, none scared; a reset sends them to ability level 0; the grid is divided; and every actor stands on the grid |
| Mazes.Maze.StartLevel | vMaze.cpp:1007-1086 | after newLevel and pause the maze is paused at the new level with the points saved, the ghosts' ability levels as newLevel leaves them, and the board, grid and cast newLevel makes (`Made`: the board NewBoard builds from the die's stream, laid out on the screen, the grid divided, the cast of the level, every actor on the grid) |
| Mazes.Maze.NextLevel | vMaze.cpp:1007-1086 | newLevel keeps the pause, sets the level, saves the points, resets the ghosts' ability levels on a reset, and leaves the board, grid and cast of `Made` |
| Mazes.Maze.PauseMade | vMaze.cpp:856-858 | pause sets the pause and keeps the level newLevel made and everything else of the maze but its pause |
| Mazes.Maze.FinishLevel | vMaze.cpp:1044-1085 | the cast, the division and the calmed ghosts, with only the grid, the dice and the actors changed |
| Mazes.Maze.BuildBoard | vMaze.cpp:1009-1042 | the level, the points, the resized board and Pacman on his start square |
| Mazes.Maze.CastAndGenerate | vMaze.cpp:1044-1085 | the cast, the generated grid and the calmed ghosts |
| Mazes.Maze.BeginLevel | vMaze.cpp:1009-1017 | the level number and the saved points, with Pacman made alive |
| Mazes.Maze.PlacePacman | vMaze.cpp:1024-1042 | Pacman is centred on the board's start square and the item there is eaten |
| Mazes.Maze.SetCast | vMaze.cpp:1044-1068 | the actors as newLevel places them: at rest, alive as the level says, in the ghost town, Blinky alone selected |
| Mazes.Maze.CastFront | vMaze.cpp:1044-1068 | Pacman's and Blinky's part of the cast |
| Mazes.Maze.CastBack | vMaze.cpp:1044-1068 | Inky's and Clyde's part of the cast |
| Mazes.Maze.RestPacman | vMaze.cpp:1057-1064 | Pacman at rest and deselected |
| Mazes.Maze.CastAt | vMaze.cpp:1045-1068 | ghost i's part of the cast |
| Mazes.Maze.CastGhost | vMaze.cpp:1045-1068 | one ghost's life set, centred, at rest, and selected only if it lives |
| Mazes.Maze.SettleGhosts | vMaze.cpp:1073-1085 | no ghost is scared, and a reset sends each back to ability level 0 |
| Mazes.Maze.SettleAt | vMaze.cpp:1073-1085 | ghost i calmed, and reset on a reset |
| Mazes.Maze.SettleGhost | vMaze.cpp:1073-1085 | one ghost calmed, and reset on a reset |
| Mazes.Maze.GetSelection | vMaze.cpp:834-843 | the first selected actor, or Pacman selected if he lives when none is |
| Mazes.Maze.RotateSelection | vMaze.cpp:1175-1191 | the roster after rotateSelection is the rotated roster |
| Mazes.Maze.SelectNextAlive | vMaze.cpp:1182-1190 | with every ghost deselected, the first living ghost of the cycle is selected |
| Mazes.Maze.DeselectGhosts | vMaze.cpp:1178-1181 | the four ghosts are deselected and nothing else changes |
| Mazes.Maze.SelectGhost | vMaze.cpp:1186 | a living ghost is selected and nothing else changes |
| Mazes.Maze.SelectAt | vActor.cpp:101-109 | select() takes only on a living actor; deselect() always does |
| Mazes.Maze.ExecuteAbility | vMaze.cpp:877-957 | executeAbility succeeds, changes the roster and takes draws exactly as the ability rules say |
| Mazes.Maze.AbilityOf | vMaze.cpp:877-957 | the same for the actor of type t |
| Mazes.Maze.Charge | vMaze.cpp:884-957 | past the level test the Dice is built and the ability fires once the cooldown has passed |
| Mazes.Maze.Charged | vMaze.cpp:892-956 | after the cooldown test the ability fires as the rules say |
| Mazes.Maze.SelectedAbility | events.cpp:193-202 | the ability key fires the ability of getSelection's actor |
| Mazes.Maze.LevelUpGhost | events.cpp:250-284 | a ghost gains one ability level and nothing else changes |
| Mazes.Maze.Fire | vMaze.cpp:892-956 | the switch on the subject's type, as the effect rules say |
| Mazes.Maze.FireRed | vMaze.cpp:893-907 | Blinky sprints once twice his level has passed |
| Mazes.Maze.FirePink | vMaze.cpp:908-926 | Pinky jumps whenever her cooldown has passed |
| Mazes.Maze.FireBlue | vMaze.cpp:927-935 | Inky becomes unscared once twice his level has passed |
| Mazes.Maze.FireOrange | vMaze.cpp:936-950 | Clyde scatters whenever his cooldown has passed |
| Mazes.Maze.Sprint | vMaze.cpp:900-906 | Blinky's velocity is set to the sprint speed of his level, and each moving component to it with its sign |
| Mazes.Maze.Jump | vMaze.cpp:910-925 | Pinky is centred on the square her level's jump reaches |
| Mazes.Maze.Scatter | vMaze.cpp:938-949 | Clyde is centred on the scatter's landing, having taken two draws per roll |
| Mazes.Maze.RollScatter | vMaze.cpp:941-948 | the do-while loop lands where the scatter rules say, for two draws a roll |
| Mazes.Maze.RollAgain | vMaze.cpp:941-948 | a roll after one that landed on the start continues the same scatter |
| Mazes.Maze.RollLanding | vMaze.cpp:942-947 | one roll: two draws, each coordinate clamped to the grid |
| Game.TipFor | main.cpp:53-85 | levels 1 to 8 each have their own tip, and every other level a blank line, in both directions |
| Game.Toggled | events.cpp:16-27 | the console is always set moving, and it moves up exactly when it was down or coming down |
| Game.ToggledTwice | events.cpp:16-27 | two presses of the console key leave it coming down if it was down or coming down, and going up otherwise |
| Game.LevelKey | events.cpp:250-284 | each ghost is levelled by one of the keys b, p, i and c |
| Game.ArrowOf | events.cpp:29-43 | each of the four directions has its own arrow key |
| Game.TriggersInPhase | events.cpp:204-284 | each phase-change trigger can hold only in its own phase, and its action moves to a phase that lawfully follows it; the ability key counts only in play |
| Game.FollowsCycle | events.cpp:204-284 | no phase follows itself, and from every phase a level's start is at most three changes away, along a path the lemma names |
| Game.BothEndsAtOnce | events.cpp:214-228 | Pacman and the last ghost dying in the same frame trigger both the victory and the defeat |
| Game.Session.constructor | main.cpp:388-392 | the game's globals take the maze and tip sprite built before them; the previous state is a defeat and the state a level's start stamped with the current time; the loop is on and both message lines are hidden and blank |
| Game.Session.FirstMaze | main.cpp:380-385 | the maze is built and given level 1, unpaused, holding the board, grid and cast newLevel makes from the stream left after vMaze's 13 draws (`Made`, no reset); the tip sprite faces right; all of it is new |
| Game.Session.FirstLevel | main.cpp:381-385 | the first newLevel and the tip sprite: one more level, the pause kept, and the level newLevel made from the die's stream still held after the tip's two draws |
| Game.Session.TipOn | main.cpp:384-385 | the tip sprite's two draws leave the level newLevel made as it was |
| Game.Session.NewTip | main.cpp:384-385 | the tip sprite is new, faces right, and takes two draws: its own Dice and its time seed |
| Game.Session.Launch | main.cpp:182-199 | the first frame after start-up leaves a reset level 1 with every ghost at ability level 0, paused, with its tip showing, and holding a board, grid and cast newLevel made with a reset (`Made`) |
| Game.Session.ChangeState | main.cpp:16-19 | the state becomes the new one and is stamped with the current time; nothing else changes |
| Game.Session.ExtUpdate | main.cpp:182-240 | the entry of the new state runs exactly on the frame the state changed; entering a level's start leaves the board, grid and cast newLevel makes (`Made`, reset after a defeat); entering any other state changes nothing of the maze but its pause (its `Setting`, actors, sprites and die stay); with no change nothing of the maze or the message lines changes; the previous state catches up, and the help line scrolls by dt times 0.3 while it shows |
| Game.Session.CatchUp | main.cpp:233-239 | the previous state catches up with the current one and the help line scrolls by dt times 0.3 while it shows; no other global changes |
| Game.Session.EnterState | main.cpp:186-230 | each state's entry leaves its pause, help and status lines; a level's start leaves the board, grid and cast newLevel makes (`Made`) and a reset sets every ghost's level to 0; every other entry keeps the maze's `Setting`, actors, sprites and die |
| Game.Session.EnterLevelStart | main.cpp:187-199 | a level's start makes the next level (level 1 after a defeat) with the board, grid and cast of `Made`, pauses it and shows its tip |
| Game.Session.ShowTip | main.cpp:195-198 | the help line shows the level's tip from its start and the status line is hidden; no other global changes |
| Game.Session.EnterPause | main.cpp:200-229 | victory, defeat and levelling pause the maze, play unpauses it, and the actors and the maze's `Setting` (size, offsets, level, points, grid, items, time stamp) stay as they were |
| Game.Session.ShowPaused | main.cpp:200-222 | victory shows only its status line, defeat both lines, levelling only its help line; defeat and levelling restart the help line |
| Game.Session.Quit | events.cpp:7-14 | the game loop stops exactly when escape is held, and nothing else changes |
| Game.Session.ToggleConsole | events.cpp:16-27 | the console toggles exactly when the console key went down, and nothing else changes |
| Game.Session.Steer | events.cpp:29-63 | while an arrow is held, the current selection (Pacman when there was none) is turned toward its direction; otherwise the actors stay as they were |
| Game.Session.Rotate | events.cpp:65-72 | the space bar moves the selection on to the next living ghost; otherwise the actors stay as they were |
| Game.Session.NewMaze | events.cpp:74-81 | n builds the next level without a reset, with the board, grid and cast of `Made`, and keeps the pause as it was; without n the maze's `Setting` and cast stay |
| Game.Session.PlaySound | events.cpp:107-177 | a raised flag is lowered once its sound plays, and no other flag changes; sound 8 shares flag 0 |
| Game.Session.SlotOf | vMaze.cpp:851-854 | every sound number maps to one of the eight flags, and numbers 0 to 7 map to their own flag |
| Game.Session.TogglePaused | events.cpp:179-191 | p flips the pause in any state and leaves the maze's `Setting` (level, points, grid, items) as it was |
| Game.Session.UseAbility | events.cpp:193-202 | in play only, e fires the selected ghost's ability, taking from the die exactly the draws the ability takes, and raises flag 0 when it fires; otherwise the actors, the dice and the flags stay as they were |
| Game.Session.EndLevelStartup | events.cpp:204-212 | play begins exactly when a level's start has lasted three seconds |
| Game.Session.EndLevelPlayWin | events.cpp:214-220 | the ghosts win exactly when Pacman is dead in play |
| Game.Session.EndLevelPlayLose | events.cpp:222-228 | the ghosts lose exactly when all four are dead in play |
| Game.Session.GhostsAlive | events.cpp:223 | one entry for each of the four ghosts |
| Game.Session.EndVictory | events.cpp:230-238 | the levelling begins exactly when a victory has lasted three seconds |
| Game.Session.EndDefeat | events.cpp:240-248 | a new game begins exactly when a defeat has lasted three seconds and the space bar went down |
| Game.Session.LevelGhost | events.cpp:250-284 | in the levelling, the living ghost whose key went down gains one ability level and the next level's start begins; otherwise nothing changes |

## Left out

- Rendering, textures, sprite frames on screen, the wall sprite's drawing, fonts, the cursor, music and the sound playback itself: they are output only. The model keeps the flags that ask for sounds.
- The one side effect of rendering: `renderInterface` calls `getSelection` (main.cpp:92), which selects Pacman when no actor is selected. The model does not run the interface, so it leaves that selection out; `Abilities.SelectionFirst` states what `getSelection` does.
- Keyboard and mouse input: each event is given the set of keys held and pressed in that frame.
- `outputDebug` (events.cpp:83-105): it only prints state to the console.
- `dataPoint::get(float)` (libArtemisExt.h:995-1004): the game never calls it, and it works on floating-point interpolation.
- The destructors of `cLine` and `dataPoint`: Dafny has no explicit deallocation.
- Floating-point rounding: positions, velocities and times are `real`.
- Concurrency and the engine's main loop: one frame is one sequence of calls into the model.
- The order in which the event list runs its triggers within a frame: `Game.BothEndsAtOnce` only shows that the victory and the defeat can both be triggered in the same frame.
- The console's initial state, `helpMsgX`'s value before the first entry, and the units and alignment of the scrolling help line: they belong to the engine.
- The screen size main sets (870 by 675) is a constant, and the maze methods take the screen size as a parameter.
- Game.Session.ExtUpdate: of `Mazes.Maze.NewLevel`'s promise it states the level, the pause, the ghosts' ability levels and `Made`, but not the points saved, which `Mazes.Maze.StartLevel` states.
- Game.Session.EnterState: like `Game.Session.ExtUpdate`, it does not state the points saved by a level's start.
- Game.Session.EnterLevelStart: like `Game.Session.ExtUpdate`, it does not state the points saved.
- Game.Session.Launch: it does not state that the points saved are 0 on the reset level 1.
- Game.Session.NewMaze: it states the level number, the pause left alone and `Made`, and not the points saved.
- Mazes.Maze.StartLevel: it does not state that the grid and the item arrays are new objects, which nothing after newLevel relies on.
- Mazes.Maze.NextLevel: it does not state that the grid and the item arrays are new objects, for the same reason.
- Mazes.Maze.Update: one parameter `now` stands for both of the frame's `time()` reads, the stamp when a large dot is eaten and the later test of the vulnerable period and the cooldowns, so a second that ends between the two reads is not modelled.
- Mazes.Maze.NewLevel: it does not state that Pacman's waypoint is usable by the next update (`Waypoints.Ready`, which `Mazes.Maze.Update` requires). Like the source, newLevel keeps the waypoint of the previous level, which after a reset can lie outside the smaller grid.
- Mazes.Maze.SetCast: newLevel takes each of its steps for all five actors in turn; the model takes each actor's steps together. The actors are distinct objects, so the end state is the same, but the states in between are not modelled.
- The rounding of an odd `numW` or `numH` up to an even one at the top of `resize` is dead code, because the next two lines overwrite both, so the model leaves it out.
- Mazes.Maze.RollScatter: it stops when the stream of `rand()` outputs runs out, where Clyde's retry loop in the source could go on forever.
- Abilities.Scattered: it stops when the stream runs out, for the same reason.
- Mazes.Maze.BreakFrom: it stops when the stream runs out, where the source's search for a wall to break could spin forever.
- Mazes.Maze.BreakIsolation: it is bounded by the stream of `rand()` outputs, which that stream's length makes finite.
- Mazes.Maze.DivisionStep: it is bounded by the stream of `rand()` outputs, which that stream's length makes finite.
- Seeding `rand()` is not modelled. Building a die takes one output, as `srand`'s first roll would.
- The `Dice` that the `vSprite` constructor builds is not kept, because no sprite behaviour reads it; its draw and the time seed's are taken all the same. An item's time seed is not kept either, as nothing of an item reads it.
- The actors' width and height of 16 and their call to `setAlignment` are not modelled: they matter only for drawing.
- Game.Session.Steer: it requires that the selected actor stands on the grid while the arrow is held, which `turnActor` takes for granted.
- The 'p' key both toggles the pause and levels up Pinky in the levelling phase, as in the source. `Game.Session.TogglePaused` and `Game.Session.LevelGhost` model both.
- `levelPoints` is kept as a field but nothing reads it, just as in the source.
- Lists.DataPoint.Ramp: it requires n >= 1, because for a smaller n the source leaves the node's fields uninitialised.
- `lastVulnerability` is uninitialised in the source until a large dot is eaten. The model takes its starting value as the `stamp` parameter.
- Mazes.Maze.constructor: `totalPoints` starts at 0, while the source leaves it uninitialised until the first newLevel sets it.
- Items are values, not objects: `vItem` objects updated in place become `Item` values that the maze's `items` array replaces, so no aliasing of an item is modelled. seekItem's pointer `toSeek` is only read for the item's square, which `Mazes.Maze.SeekItem` returns instead; `getItem` (vMaze.cpp:845-850), which hands out such a pointer, has no caller in the program and is not modelled.
- Pacman's sighting (`px`, `py`) is uninitialised in the source while Pacman is dead. The model reports it as `Frames.Sighting.Unseen`.
- Pacman's greedy target is the square of the item's index in the item array. The source converts the item's screen position back to a square. That position is set only by `renderMaze`, which moves each uneaten item to the pixel (i * 40 + dx + 10, j * 40 + dy + 10) inside its own square (vMaze.cpp:1161), so once the maze has been drawn the two agree. Before an item is first drawn its position is the sprite's default, and the model does not follow that case.
- Mazes.Maze.BuildGhostTown: it requires a grid of at least 4 by 4 squares, which every level has.
- Mazes.Maze.SetVertWallAt: it requires non-negative coordinates, because `getSquare` checks only the upper bounds.
- Mazes.Maze.SetHorizWallAt: it requires non-negative coordinates, because `getSquare` checks only the upper bounds.
