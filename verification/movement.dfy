/**
 * How one unit moves: the nearest-neighbour search by type (`find_closest`),
 * the per-axis steps towards and away from another unit with the soft
 * boundary clamp (`move_towards`, `move_away_from`), and the chase-then-evade
 * decision of `move`. These are the value-level definitions that the
 * `Unit` methods are proved against.
 */
module Movement {
  import opened Kinds
  import opened Geometry

  datatype Option<T> = None | Some(value: T)

  // ---------------------------------------------------------------- one axis

  /**
   * One axis of `move_towards`: step `speed` towards `t`, but only when the
   * new coordinate stays strictly inside the window on that side
   * (`new + size < bound` going up, `new > 0` going down); otherwise stay.
   */
  function AxisToward(p: int, t: int, speed: int, size: int, bound: int): (r: int)
    ensures r == p || r == p + speed || r == p - speed
    ensures t == p ==> r == p
  {
    if t > p then
      (if p + speed + size < bound then p + speed else p)
    else if t < p then
      (if p - speed > 0 then p - speed else p)
    else p
  }

  /** One axis of `move_away_from`: the same clamp, the opposite direction. */
  function AxisAway(p: int, t: int, speed: int, size: int, bound: int): (r: int)
    ensures r == p || r == p + speed || r == p - speed
    ensures t == p ==> r == p
  {
    if t > p then
      (if p - speed > 0 then p - speed else p)
    else if t < p then
      (if p + speed + size < bound then p + speed else p)
    else p
  }

  /**
   * Each step changes the axis by exactly 0 or `speed` in the target's
   * direction (towards) or against it (away), and not at all when the target
   * is level with the unit on that axis.
   */
  lemma AxisStepSizes(p: int, t: int, speed: int, size: int, bound: int)
    ensures var r := AxisToward(p, t, speed, size, bound);
      (t > p ==> r == p || r == p + speed) &&
      (t < p ==> r == p || r == p - speed) &&
      (t == p ==> r == p)
    ensures var r := AxisAway(p, t, speed, size, bound);
      (t > p ==> r == p || r == p - speed) &&
      (t < p ==> r == p || r == p + speed) &&
      (t == p ==> r == p)
  {
  }

  /**
   * Moving away from `t` is moving towards `t` mirrored through the unit's
   * own coordinate: the two operations differ only in direction.
   */
  lemma AwayMirrorsToward(p: int, t: int, speed: int, size: int, bound: int)
    ensures AxisAway(p, t, speed, size, bound) == AxisToward(p, 2 * p - t, speed, size, bound)
  {
  }

  /**
   * The soft clamp keeps a coordinate that starts inside `[0, bound - size]`
   * inside it; each half holds on its own, so a unit placed past the far
   * edge never moves further out either.
   */
  lemma AxisStaysInBounds(p: int, t: int, speed: int, size: int, bound: int)
    requires speed >= 0
    ensures 0 <= p ==> 0 <= AxisToward(p, t, speed, size, bound) && 0 <= AxisAway(p, t, speed, size, bound)
    ensures p <= bound - size ==>
      AxisToward(p, t, speed, size, bound) <= bound - size && AxisAway(p, t, speed, size, bound) <= bound - size
  {
  }

  /**
   * A unit against the low wall does not move further down when evading a
   * threat above it, and a unit against the high wall does not move up.
   */
  lemma BoundaryHalt(p: int, t: int, speed: int, size: int, bound: int)
    ensures t > p && p - speed <= 0 ==> AxisAway(p, t, speed, size, bound) == p
    ensures t < p && p + speed + size >= bound ==> AxisAway(p, t, speed, size, bound) == p
  {
  }

  /**
   * Evading never brings the unit closer to the threat on an axis, and
   * chasing a target at least `speed` away on an axis never takes it further.
   */
  lemma AxisGap(p: int, t: int, speed: int, size: int, bound: int)
    requires speed >= 0
    ensures var r := AxisAway(p, t, speed, size, bound);
      (t >= p ==> t - r >= t - p) && (t <= p ==> r - t >= p - t)
    ensures var r := AxisToward(p, t, speed, size, bound);
      (t - p >= speed ==> 0 <= t - r <= t - p) && (p - t >= speed ==> 0 <= r - t <= p - t)
  {
  }

  /**
   * The soft clamp, both halves: when the target differs on an axis, the
   * full step is taken exactly when the new coordinate stays strictly inside
   * the window on that side (`new + size < bound` going up, `new > 0` going
   * down), and otherwise the axis keeps its value.
   */
  lemma SoftClamp(p: int, t: int, speed: int, size: int, bound: int)
    requires speed > 0
    ensures t > p ==> (AxisToward(p, t, speed, size, bound) == p + speed <==> p + speed + size < bound)
    ensures t < p ==> (AxisToward(p, t, speed, size, bound) == p - speed <==> p - speed > 0)
    ensures t > p ==> (AxisAway(p, t, speed, size, bound) == p - speed <==> p - speed > 0)
    ensures t < p ==> (AxisAway(p, t, speed, size, bound) == p + speed <==> p + speed + size < bound)
  {
  }

  // --------------------------------------------------------------- one unit

  /** `move_towards` on a unit: both axes step independently. */
  function Towards(me: Agent, target: Agent): (r: Agent)
    ensures r.kind == me.kind
    ensures target.x == me.x && target.y == me.y ==> r == me
  {
    me.(x := AxisToward(me.x, target.x, SPEED, SIZE, SCREEN_WIDTH),
        y := AxisToward(me.y, target.y, SPEED, SIZE, SCREEN_HEIGHT))
  }

  /** `move_away_from` on a unit: both axes step independently. */
  function AwayFrom(me: Agent, threat: Agent): (r: Agent)
    ensures r.kind == me.kind
    ensures threat.x == me.x && threat.y == me.y ==> r == me
  {
    me.(x := AxisAway(me.x, threat.x, SPEED, SIZE, SCREEN_WIDTH),
        y := AxisAway(me.y, threat.y, SPEED, SIZE, SCREEN_HEIGHT))
  }

  /** Both steps keep the type and the bounds invariant. */
  lemma StepsKeepBounds(me: Agent, other: Agent)
    ensures Towards(me, other).kind == me.kind && AwayFrom(me, other).kind == me.kind
    ensures InBounds(me) ==> InBounds(Towards(me, other)) && InBounds(AwayFrom(me, other))
  {
  }

  // ------------------------------------------------------ nearest by type

  /**
   * Index `i` is what `find_closest` answers for a unit at `me` looking for
   * type `k` in `pop`: a unit of type `k`, no further than any other unit of
   * type `k`, and strictly nearer than every unit of type `k` before it (the
   * strict `<` keeps the first of equally near units).
   */
  ghost predicate IsFirstNearest(pop: seq<Agent>, me: Agent, k: Kind, i: int)
  {
    0 <= i < |pop| && pop[i].kind == k &&
    (forall j :: 0 <= j < |pop| && pop[j].kind == k ==> DistanceSq(me, pop[i]) <= DistanceSq(me, pop[j])) &&
    (forall j :: 0 <= j < i && pop[j].kind == k ==> DistanceSq(me, pop[i]) < DistanceSq(me, pop[j]))
  }

  /** At most one index is the first nearest. */
  lemma FirstNearestUnique(pop: seq<Agent>, me: Agent, k: Kind, i: int, i': int)
    requires IsFirstNearest(pop, me, k, i) && IsFirstNearest(pop, me, k, i')
    ensures i == i'
  {
  }

  /**
   * The scan of `find_closest` over `pop` in list order, as a fold over the
   * list's prefixes: `None` when no unit has type `k`, otherwise the index of
   * the first nearest unit of type `k`.
   */
  function Closest(pop: seq<Agent>, me: Agent, k: Kind): (r: Option<nat>)
    ensures r.None? <==> forall j :: 0 <= j < |pop| ==> pop[j].kind != k
    ensures r.Some? ==> IsFirstNearest(pop, me, k, r.value)
    decreases |pop|
  {
    if |pop| == 0 then None
    else
      var last := |pop| - 1;
      var prefix := pop[..last];
      assert forall j :: 0 <= j < last ==> prefix[j] == pop[j];
      var c := Closest(prefix, me, k);
      if pop[last].kind == k && (c.None? || DistanceSq(me, pop[last]) < DistanceSq(me, pop[c.value])) then
        Some(last)
      else
        c
  }

  // ---------------------------------------------------------------- move

  /**
   * `Unit.move` for a unit at `me` among `pop`: both searches run on the
   * population as it is, then the unit steps towards the nearest unit of the
   * type it beats (if any) and, from the position that step reached, away
   * from the nearest unit of the type that beats it (if any).
   */
  function MoveAgent(me: Agent, pop: seq<Agent>): (r: Agent)
    ensures r.kind == me.kind
  {
    var target := Closest(pop, me, Prey(me.kind));
    var avoid := Closest(pop, me, Predator(me.kind));
    var chased := if target.Some? then Towards(me, pop[target.value]) else me;
    if avoid.Some? then AwayFrom(chased, pop[avoid.value]) else chased
  }

  /**
   * A move keeps the unit's type, keeps the bounds invariant, and changes
   * each axis by at most two steps.
   */
  lemma MoveKeepsKindAndBounds(me: Agent, pop: seq<Agent>)
    ensures MoveAgent(me, pop).kind == me.kind
    ensures InBounds(me) ==> InBounds(MoveAgent(me, pop))
    ensures -2 * SPEED <= MoveAgent(me, pop).x - me.x <= 2 * SPEED
    ensures -2 * SPEED <= MoveAgent(me, pop).y - me.y <= 2 * SPEED
  {
  }

  /**
   * With neither prey nor predator left in the population the unit stays
   * put; with only prey left it just chases the first nearest prey, and with
   * only predators left it just evades the first nearest predator.
   */
  lemma MoveWhenTypesAreExtinct(me: Agent, pop: seq<Agent>)
    ensures (forall j :: 0 <= j < |pop| ==> pop[j].kind != Prey(me.kind) && pop[j].kind != Predator(me.kind))
      ==> MoveAgent(me, pop) == me
    ensures (forall j :: 0 <= j < |pop| ==> pop[j].kind != Predator(me.kind)) ==>
      forall i :: IsFirstNearest(pop, me, Prey(me.kind), i) ==> MoveAgent(me, pop) == Towards(me, pop[i])
    ensures (forall j :: 0 <= j < |pop| ==> pop[j].kind != Prey(me.kind)) ==>
      forall i :: IsFirstNearest(pop, me, Predator(me.kind), i) ==> MoveAgent(me, pop) == AwayFrom(me, pop[i])
  {
    var target := Closest(pop, me, Prey(me.kind));
    var avoid := Closest(pop, me, Predator(me.kind));
    if target.Some? {
      forall i | IsFirstNearest(pop, me, Prey(me.kind), i)
        ensures i == target.value
      {
        FirstNearestUnique(pop, me, Prey(me.kind), i, target.value);
      }
    }
    if avoid.Some? {
      forall i | IsFirstNearest(pop, me, Predator(me.kind), i)
        ensures i == avoid.value
      {
        FirstNearestUnique(pop, me, Predator(me.kind), i, avoid.value);
      }
    }
  }

  /**
   * The main case of `move`, with both prey and predators present: the unit
   * steps towards the first nearest prey, then, from the position that step
   * reached, away from the first nearest predator. Both were chosen from the
   * positions before the move.
   */
  lemma MoveChasesThenEvades(me: Agent, pop: seq<Agent>, i: int, i': int)
    requires IsFirstNearest(pop, me, Prey(me.kind), i)
    requires IsFirstNearest(pop, me, Predator(me.kind), i')
    ensures MoveAgent(me, pop) == AwayFrom(Towards(me, pop[i]), pop[i'])
  {
    var target := Closest(pop, me, Prey(me.kind));
    var avoid := Closest(pop, me, Predator(me.kind));
    assert target.Some? && avoid.Some?;
    FirstNearestUnique(pop, me, Prey(me.kind), i, target.value);
    FirstNearestUnique(pop, me, Predator(me.kind), i', avoid.value);
  }
}
