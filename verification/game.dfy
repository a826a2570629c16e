/**
 * The objects of the simulation: a `Unit` whose type and position change in
 * place, and the `Environment` that owns the list of units and steps it one
 * frame at a time. Every method that moves or converts units is proved
 * against the value-level definitions of modules Movement and Population.
 */
module Game {
  import opened Kinds
  import opened Geometry
  import opened Movement
  import opened Population

  class Unit {
    var unitType: Kind
    var x: int
    var y: int
    const speed: int := SPEED
    const size: int := SIZE

    constructor (unitType: Kind, x: int, y: int)
      ensures this.unitType == unitType && this.x == x && this.y == y
    {
      this.unitType := unitType;
      this.x := x;
      this.y := y;
    }

    /** The unit's type and position as a value. */
    function View(): Agent
      reads this
    {
      Agent(unitType, x, y)
    }

    /**
     * `check_collision`: the Euclidean distance between the two units is
     * strictly less than this unit's size (the other unit's size plays no
     * part). Computed exactly on squared integer distances.
     */
    function CheckCollision(other: Unit): (hit: bool)
      reads this, other
      ensures forall h :: IsEuclidean(h, DistanceSq(View(), other.View())) ==> (hit <==> h < size as real)
      ensures hit == Collides(View(), other.View())
    {
      HypotBelow(DistanceSq(View(), other.View()), size);
      DistanceSq(View(), other.View()) < size * size
    }

    /**
     * `find_closest`: scans `env.units` in list order, keeping the first unit
     * of type `k` strictly nearer than every one before it, and answers its
     * index (None when there is no unit of type `k`).
     */
    method FindClosest(env: Environment, k: Kind) returns (closest: Option<nat>)
      ensures closest == Closest(Views(env.units), View(), k)
    {
      ghost var pop := Views(env.units);
      closest := None;
      var minDist := 0;
      var i := 0;
      while i < |env.units|
        invariant 0 <= i <= |env.units|
        invariant closest == Closest(pop[..i], View(), k)
        invariant closest.Some? ==> closest.value < i && minDist == DistanceSq(View(), pop[closest.value])
      {
        var unit := env.units[i];
        assert unit.View() == pop[i];
        assert pop[..i + 1][..i] == pop[..i];
        if unit.unitType == k {
          var dist := DistanceSq(View(), unit.View());
          if closest.None? || dist < minDist {
            minDist := dist;
            closest := Some(i);
          }
        }
        i := i + 1;
      }
      assert pop[..i] == pop;
    }

    /** `move_towards`: each axis steps `speed` towards `target`, within the window. */
    method MoveTowards(target: Unit)
      modifies this
      ensures View() == Towards(old(View()), old(target.View()))
    {
      if target.x > x {
        var newX := x + speed;
        if newX + size < SCREEN_WIDTH {
          x := newX;
        }
      } else if target.x < x {
        var newX := x - speed;
        if newX > 0 {
          x := newX;
        }
      }
      if target.y > y {
        var newY := y + speed;
        if newY + size < SCREEN_HEIGHT {
          y := newY;
        }
      } else if target.y < y {
        var newY := y - speed;
        if newY > 0 {
          y := newY;
        }
      }
    }

    /** `move_away_from`: each axis steps `speed` away from `threat`, within the window. */
    method MoveAwayFrom(threat: Unit)
      modifies this
      ensures View() == AwayFrom(old(View()), old(threat.View()))
    {
      if threat.x > x {
        var newX := x - speed;
        if newX > 0 {
          x := newX;
        }
      } else if threat.x < x {
        var newX := x + speed;
        if newX + size < SCREEN_WIDTH {
          x := newX;
        }
      }
      if threat.y > y {
        var newY := y - speed;
        if newY > 0 {
          y := newY;
        }
      } else if threat.y < y {
        var newY := y + speed;
        if newY + size < SCREEN_HEIGHT {
          y := newY;
        }
      }
    }

    /**
     * `move`: look up the nearest prey and the nearest predator in the
     * environment as it is, chase the first, then evade the second from the
     * position the chase reached.
     */
    method Move(env: Environment)
      modifies this
      ensures View() == MoveAgent(old(View()), old(Views(env.units)))
    {
      ghost var pop := Views(env.units);
      ghost var me := View();
      var target := FindClosest(env, Prey(unitType));
      var avoid := FindClosest(env, Predator(unitType));
      if target.Some? {
        MoveTowards(env.units[target.value]);
      }
      if avoid.Some? {
        var threat := env.units[avoid.value];
        assert threat.View() == pop[avoid.value];
        MoveAwayFrom(threat);
      }
    }

    /**
     * `interact`: converts `other` to this unit's type exactly when this
     * unit's type beats it; this unit never changes.
     */
    method Interact(other: Unit)
      modifies other
      ensures other.unitType == Convert(old(unitType), old(other.unitType))
      ensures other.x == old(other.x) && other.y == old(other.y)
      ensures View() == old(View())
    {
      if unitType == Rock && other.unitType == Scissors {
        other.unitType := Rock;
      } else if unitType == Scissors && other.unitType == Paper {
        other.unitType := Scissors;
      } else if unitType == Paper && other.unitType == Rock {
        other.unitType := Paper;
      }
    }
  }

  /** The types and positions of a list of units, in list order. */
  function Views(units: seq<Unit>): seq<Agent>
    reads units
  {
    seq(|units|, j requires 0 <= j < |units| reads units => units[j].View())
  }

  class Environment {
    var units: seq<Unit>

    /** The list never holds the same unit twice. */
    predicate Valid()
      reads this
    {
      forall i, j :: 0 <= i < |units| && 0 <= j < |units| && i != j ==> units[i] != units[j]
    }

    constructor ()
      ensures units == [] && Valid()
    {
      units := [];
    }

    /** `add_unit`: appends `unit` to the list. */
    method AddUnit(unit: Unit)
      modifies this
      ensures units == old(units) + [unit]
      ensures Valid() <==> old(Valid()) && unit !in old(units)
    {
      ghost var before := units;
      units := units + [unit];
      if Valid() {
        forall k | 0 <= k < |before|
          ensures before[k] != unit
        {
          assert units[k] == before[k] && units[|before|] == unit;
        }
        forall a, b | 0 <= a < |before| && 0 <= b < |before| && a != b
          ensures before[a] != before[b]
        {
          assert units[a] == before[a] && units[b] == before[b];
        }
      }
    }

    /**
     * `update`: every unit, in list order, moves and then converts every
     * other unit it touches and beats. The list itself (its length, order and
     * the identity of its units) is unchanged, and the units' new types and
     * positions are one frame of `Population.Update`.
     */
    method Update()
      requires Valid()
      modifies units
      ensures units == old(units) && Valid()
      ensures Views(units) == Population.Update(old(Views(units)))
      ensures AllInBounds(old(Views(units))) ==> AllInBounds(Views(units))
    {
      ghost var s0 := Views(units);
      var i := 0;
      while i < |units|
        invariant 0 <= i <= |units|
        invariant units == old(units)
        invariant Views(units) == UpdateUpTo(s0, i)
      {
        TakeTurn(i);
        i := i + 1;
      }
      if AllInBounds(s0) {
        UpdateKeepsBounds(s0);
      }
    }

    /**
     * The body of `update`'s loop for the unit at index `i`: it moves, then
     * every other unit it touches is passed to its `interact`.
     */
    method TakeTurn(i: nat)
      requires Valid() && i < |units|
      modifies units
      ensures units == old(units)
      ensures Views(units) == Turn(old(Views(units)), i)
    {
      var unit := units[i];
      ghost var s := Views(units);
      unit.Move(this);
      ghost var moved := s[i := MoveAgent(s[i], s)];
      assert Views(units) == moved by {
        forall k | 0 <= k < |units|
          ensures units[k].View() == moved[k]
        {
          if k != i {
            assert units[k] != unit;
          }
        }
      }
      var j := 0;
      while j < |units|
        invariant 0 <= j <= |units|
        invariant units == old(units)
        invariant Views(units) == Sweep(moved, i, j)
      {
        var other := units[j];
        ghost var t := Views(units);
        assert unit != other <==> i != j;
        if unit != other && unit.CheckCollision(other) {
          unit.Interact(other);
          assert Views(units) == t[j := t[j].(kind := Convert(t[i].kind, t[j].kind))] by {
            forall k | 0 <= k < |units| && k != j
              ensures units[k].View() == t[k]
            {
              assert units[k] != other;
            }
          }
        }
        assert Views(units) == Sweep(moved, i, j + 1);
        j := j + 1;
      }
    }
  }
}
