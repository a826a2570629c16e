# Rock, paper, scissors: a verified model of the simulation engine

This project models the engine of a rock-paper-scissors agent simulation
(`game.py`). Units of three types move about a window. Each unit chases the
nearest unit of the type it beats and evades the nearest unit of the type that
beats it. A unit converts the units it touches and beats: rock beats scissors,
scissors beats paper, paper beats rock. An `Environment` owns the list of units
and advances it one frame at a time.

The model has two layers:

- a value layer: modules `Kinds`, `Geometry`, `Movement` and `Population`
  (datatypes, functions and lemmas);
- an object layer: module `Game`, whose classes `Unit` and `Environment`
  update fields in place the way the source does. Every method that moves or
  converts units is proved against the value layer; `AddUnit` and the
  constructors are specified on the list of units and on their own fields.

Modelling decisions:

- Unit types are the closed datatype `Kind` instead of strings.
- Coordinates are integers, as in the source (`random.randint`, speed 2,
  size 40). The source's `math.hypot` comparisons are decided exactly on
  squared integer distances. `Geometry.HypotOrder` and `Geometry.HypotBelow`
  prove this against the real Euclidean distance.
- The window is 800 by 600 (`SCREEN_WIDTH`, `SCREEN_HEIGHT`). Every unit has
  speed 2 and size 40 (class constants `speed` and `size`).
- `find_closest` answers an index into `env.units` instead of a unit object;
  "no unit" (the source's `None`) is `Option.None`.
- `Environment.update` is ONE pass over the list. For each unit in turn, the
  unit moves, then it is tested against every other unit, and it converts the
  ones it touches and beats. Every later turn sees the moves and conversions
  of the earlier ones. This follows the code at `game.py:158-164`: it is not
  two passes (first all moves, then all ordered pairs).
- The loop body of `update` (one unit's turn) is the helper method
  `Environment.TakeTurn`, so that each proof stays small.
- `Population.SweepIsPointwise` shows that within one unit's turn there is no
  chaining: the sweeping unit never changes during its own sweep. Chaining
  happens across turns: a unit converted early in the frame moves and
  converts as its new type when its own turn comes.

## Model

| member | source | states |
|---|---|---|
| `Kinds.Prey` | game.py:56-64 | the type `move` chases is exactly the one type the unit's type beats in `interact`'s table |
| `Kinds.Predator` | game.py:56-64 | the type `move` evades is exactly the one type that beats the unit's type |
| `Kinds.Beats` | game.py:136-144 | the conversion table of `interact` (rock over scissors, scissors over paper, paper over rock); no type beats itself; its 3-cycle is `Kinds.CyclicDominance` |
| `Kinds.Convert` | game.py:134-144 | after an interaction, the other unit's type is its old type or the winner's type, and it differs from its old type iff the winner's type beats it |
| `Kinds.CyclicDominance` | game.py:134-144 | no type beats itself; between two different types exactly one beats the other; prey, predator and their compositions form a 3-cycle |
| `Kinds.ConversionOnlyByWinner` | game.py:134-144 | an interaction changes the other unit iff the acting unit's type beats it; of the two ordered interactions between two units at most one changes anything |
| `Geometry.DistanceSq` | game.py:20-22 | the squared distance is non-negative and zero exactly when the two positions coincide |
| `Geometry.HypotOrder` | game.py:81-87 | comparing two Euclidean distances gives the same answer as comparing their squares |
| `Geometry.HypotBelow` | game.py:146-148 | a Euclidean distance is below the size exactly when its square is below the size squared |
| `Geometry.Collides` | game.py:146-148 | `check_collision` for units of size 40: squared distance below 40 squared; units at the same place touch; its meaning as a Euclidean test is `Game.Unit.CheckCollision`, its symmetry `Geometry.CollisionSymmetric` |
| `Geometry.CollisionSymmetric` | game.py:146-148 | with every unit of size 40 the touch test does not depend on the order of the two units, and units at the same place touch |
| `Movement.AxisToward` | game.py:93-110 | one axis of `move_towards`: the coordinate changes by 0 or `speed` and not at all when level with the target; specified by `Movement.AxisStepSizes` and `Movement.SoftClamp` |
| `Movement.AxisAway` | game.py:115-132 | one axis of `move_away_from`: the coordinate changes by 0 or `speed` and not at all when level with the threat; specified by `Movement.AxisStepSizes`, `Movement.SoftClamp` and `Movement.AwayMirrorsToward` |
| `Movement.Towards` | game.py:90-110 | `move_towards` on a unit: both axes step independently, the type is kept, a target at the same place leaves the unit put; bounds by `Movement.StepsKeepBounds` |
| `Movement.AwayFrom` | game.py:112-132 | `move_away_from` on a unit: both axes step independently, the type is kept, a threat at the same place leaves the unit put; bounds by `Movement.StepsKeepBounds` |
| `Movement.AxisStepSizes` | game.py:90-132 | each axis changes by exactly 0 or `speed`, towards the target for `move_towards` and away from it for `move_away_from`, and not at all when the target is level on that axis |
| `Movement.AwayMirrorsToward` | game.py:112-132 | moving away from a target equals moving towards the target mirrored through the unit's own coordinate |
| `Movement.AxisStaysInBounds` | game.py:93-132 | a coordinate inside `[0, bound - size]` stays inside; a coordinate at or above 0 stays so, and one at or below `bound - size` stays so, each on its own |
| `Movement.SoftClamp` | game.py:93-132 | when the target differs on an axis, the full step is taken iff the new coordinate stays strictly inside the window on that side (`new > 0` going down, `new + size < bound` going up); otherwise the axis keeps its value; for both `move_towards` and `move_away_from` |
| `Movement.BoundaryHalt` | game.py:115-132 | a unit at the low wall evading a threat above it stays put, and likewise at the high wall |
| `Movement.AxisGap` | game.py:90-132 | evading never shrinks the gap to the threat on an axis; chasing a target at least `speed` away never widens it and never overshoots |
| `Movement.StepsKeepBounds` | game.py:90-132 | both steps keep the unit's type and keep it inside the window |
| `Movement.FirstNearestUnique` | game.py:78-88 | at most one index is the first nearest unit of a type |
| `Movement.Closest` | game.py:78-88 | the scan answers None exactly when no unit has the type, else the first unit of the type whose distance is at most every other such unit's and strictly less than every earlier one's |
| `Movement.MoveAgent` | game.py:52-72 | `move`: both searches run on the population as it is; chase, then evade from the position reached; the type is kept; specified by `Movement.MoveChasesThenEvades`, `Movement.MoveWhenTypesAreExtinct` and `Movement.MoveKeepsKindAndBounds` |
| `Movement.MoveKeepsKindAndBounds` | game.py:52-72 | a move keeps the unit's type and the bounds invariant and changes each axis by at most two steps |
| `Movement.MoveWhenTypesAreExtinct` | game.py:52-72 | with no prey and no predator left a unit stays put; with only prey left it only chases the first nearest prey; with only predators left it only evades the first nearest predator |
| `Movement.MoveChasesThenEvades` | game.py:52-72 | with prey and predators both present, a move is a step towards the first nearest prey followed, from the position reached, by a step away from the first nearest predator, both chosen before the move |
| `Population.Contact` | game.py:163-164 | unit `j` after unit `i` tested it: its position is kept, and its type changes only when `j` is not `i`, `i` touches it and `i`'s type beats it, and then to `i`'s type |
| `Population.Sweep` | game.py:162-164 | the inner loop of `update` over the first `m` units keeps the number of units; its effect is `Population.SweepIsPointwise` |
| `Population.Turn` | game.py:160-164 | one unit's turn (move, then sweep) keeps the number of units; its effect is `Population.TurnEffect` |
| `Population.UpdateUpTo` | game.py:160-164 | the first `n` turns of a frame keep the number of units; bounds and extinction by `Population.UpdateUpToKeepsBounds` and `Population.UpdateUpToKeepsExtinct` |
| `Population.SweepIsPointwise` | game.py:162-164 | the sweep of unit `i` changes each other unit exactly as a single contact with unit `i` would, and leaves unit `i` alone |
| `Population.TurnEffect` | game.py:160-164 | in one turn the unit gets its moved position and keeps its type; every other unit keeps its position, and its type changes only when the moved unit touches and beats it, and then to the mover's type |
| `Population.Update` | game.py:158-164 | a frame keeps the number of units |
| `Population.UpdateUpToKeepsBounds` | game.py:158-164 | every prefix of a frame's turns keeps all units inside the window |
| `Population.UpdateKeepsBounds` | game.py:158-164 | if every unit starts a frame inside the window, every unit ends it inside |
| `Population.UpdateUpToKeepsExtinct` | game.py:158-164 | a type absent from the population stays absent through every prefix of a frame |
| `Population.ExtinctStaysExtinct` | game.py:158-164 | a type extinct at the start of a frame is extinct at its end |
| `Game.Unit.constructor` | game.py:37-42 | a new unit has the given type and position |
| `Game.Unit.CheckCollision` | game.py:146-148 | true iff the Euclidean distance between the units is strictly less than this unit's own size |
| `Game.Unit.FindClosest` | game.py:78-88 | the loop over `env.units` answers the index `Movement.Closest` specifies |
| `Game.Unit.MoveTowards` | game.py:90-110 | the unit's new type and position are `Movement.Towards` of its old ones and the target's |
| `Game.Unit.MoveAwayFrom` | game.py:112-132 | the unit's new type and position are `Movement.AwayFrom` of its old ones and the threat's |
| `Game.Unit.Move` | game.py:52-72 | the unit's new type and position are `Movement.MoveAgent` of its old ones and the population as it was |
| `Game.Unit.Interact` | game.py:134-144 | the other unit takes this unit's type iff this unit's type beats it; positions and this unit are unchanged |
| `Game.Environment.constructor` | game.py:152-153 | a new environment has no units |
| `Game.Environment.AddUnit` | game.py:155-156 | the unit is appended; the list stays free of repeats iff the unit was not already in it |
| `Game.Environment.TakeTurn` | game.py:160-164 | the list is unchanged and the units' types and positions are one `Population.Turn` of the old ones |
| `Game.Environment.Update` | game.py:158-164 | the list (length, order, identity) is unchanged, the units' types and positions are one `Population.Update` of the old ones, and the bounds invariant is kept |

## Left out

- Rendering and the event loop: `pygame` set-up, the window, image loading and
  scaling, the `image` field, both `draw` methods, event polling and frame
  pacing (`game.py:5-17`, `game.py:25-33`, `game.py:44-50`, `game.py:74-76`,
  `game.py:166-168`, `game.py:190-220`). The image always follows the unit's
  type.
- Random seeding of the population (`game.py:171-188`): initial positions are
  arbitrary integers. `randint(0, SCREEN_WIDTH)` can place a unit outside
  `[0, SCREEN_WIDTH - 40]`, so the bounds results carry that as an explicit
  hypothesis.
- Floating point: `math.hypot` is taken as the exact Euclidean distance and the
  `float("inf")` start value as "no unit yet". Rounding of `hypot` is not
  modelled; at these coordinate sizes it cannot change a comparison except,
  in theory, between two exactly equal distances.
- Unit types outside rock, paper and scissors: the source would accept any
  string and such a unit would neither chase nor evade; the datatype rules
  them out.
- Units of different sizes or speeds: every unit in the source has speed 2 and
  size 40, and so does every unit here.
- Game.Environment.Update: requires that the list never holds the same unit
  object twice (`Valid`). The source compares units by identity, and its
  set-up only ever adds fresh units; a list holding one object twice is not
  modelled.
