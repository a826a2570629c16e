/**
 * One frame of `Environment.update` on values: for each unit in list order,
 * the unit moves, then it is tested against every other unit in list order
 * and converts those it touches and beats. Each unit's turn sees every move
 * and conversion made by the turns before it.
 */
module Population {
  import opened Kinds
  import opened Geometry
  import opened Movement

  /**
   * Unit `j` after unit `i` has tested it: `check_collision` uses unit `i`'s
   * size only, `interact` converts only in the winning direction, and a unit
   * is never tested against itself.
   */
  function Contact(s: seq<Agent>, i: nat, j: nat): (r: Agent)
    requires i < |s| && j < |s|
    ensures r.x == s[j].x && r.y == s[j].y
    ensures r.kind != s[j].kind ==> j != i && Collides(s[i], s[j]) && Beats(s[i].kind, s[j].kind) && r.kind == s[i].kind
  {
    if j != i && Collides(s[i], s[j]) then s[j].(kind := Convert(s[i].kind, s[j].kind)) else s[j]
  }

  /** The inner loop of `update` for unit `i`, over the first `m` units. */
  function Sweep(s: seq<Agent>, i: nat, m: nat): (r: seq<Agent>)
    requires i < |s| && m <= |s|
    ensures |r| == |s|
    decreases m
  {
    if m == 0 then s
    else
      var t := Sweep(s, i, m - 1);
      t[m - 1 := Contact(t, i, m - 1)]
  }

  /**
   * A sweep tests each other unit once against the sweeping unit, whose type
   * and position it never changes, so it is the same as applying `Contact`
   * to every unit independently: within one sweep there is no chaining.
   */
  lemma {:induction false} SweepIsPointwise(s: seq<Agent>, i: nat, m: nat)
    requires i < |s| && m <= |s|
    ensures forall j :: 0 <= j < |s| ==> Sweep(s, i, m)[j] == (if j < m then Contact(s, i, j) else s[j])
    decreases m
  {
    if m > 0 {
      SweepIsPointwise(s, i, m - 1);
    }
  }

  /** The turn of unit `i`: `unit.move(env)`, then the sweep. */
  function Turn(s: seq<Agent>, i: nat): (r: seq<Agent>)
    requires i < |s|
    ensures |r| == |s|
  {
    Sweep(s[i := MoveAgent(s[i], s)], i, |s|)
  }

  /** The first `n` turns of a frame. */
  function UpdateUpTo(s: seq<Agent>, n: nat): (r: seq<Agent>)
    requires n <= |s|
    ensures |r| == |s|
    decreases n
  {
    if n == 0 then s else Turn(UpdateUpTo(s, n - 1), n - 1)
  }

  /** `Environment.update`: one frame, every unit taking its turn in list order. */
  function Update(s: seq<Agent>): (r: seq<Agent>)
    ensures |r| == |s|
  {
    UpdateUpTo(s, |s|)
  }

  /**
   * What one turn does to each unit: the moving unit gets its new position
   * and keeps its type; every other unit keeps its position, and its type
   * changes only when the moved unit touches it and beats it, and then to the
   * moved unit's type. The test uses the moved unit's new position.
   */
  lemma {:induction false} TurnEffect(s: seq<Agent>, i: nat)
    requires i < |s|
    ensures Turn(s, i)[i] == MoveAgent(s[i], s)
    ensures forall j :: 0 <= j < |s| && j != i ==>
      Turn(s, i)[j].x == s[j].x && Turn(s, i)[j].y == s[j].y &&
      Turn(s, i)[j].kind == (if Collides(MoveAgent(s[i], s), s[j]) then Convert(s[i].kind, s[j].kind) else s[j].kind) &&
      (Turn(s, i)[j].kind == s[j].kind ||
       (Collides(MoveAgent(s[i], s), s[j]) && Beats(s[i].kind, s[j].kind) && Turn(s, i)[j].kind == s[i].kind))
  {
    var moved := s[i := MoveAgent(s[i], s)];
    SweepIsPointwise(moved, i, |s|);
    MoveKeepsKindAndBounds(s[i], s);
  }

  predicate AllInBounds(s: seq<Agent>)
  {
    forall j :: 0 <= j < |s| ==> InBounds(s[j])
  }

  /** Turns keep every unit inside the window. */
  lemma {:induction false} UpdateUpToKeepsBounds(s: seq<Agent>, n: nat)
    requires n <= |s| && AllInBounds(s)
    ensures AllInBounds(UpdateUpTo(s, n))
    decreases n
  {
    if n > 0 {
      var t := UpdateUpTo(s, n - 1);
      UpdateUpToKeepsBounds(s, n - 1);
      TurnEffect(t, n - 1);
      MoveKeepsKindAndBounds(t[n - 1], t);
    }
  }

  /**
   * The bounds invariant: if every unit starts a frame with its sprite
   * inside the window, every unit ends the frame inside it.
   */
  lemma UpdateKeepsBounds(s: seq<Agent>)
    requires AllInBounds(s)
    ensures AllInBounds(Update(s))
  {
    UpdateUpToKeepsBounds(s, |s|);
  }

  /** A type that no unit has stays absent. */
  lemma {:induction false} UpdateUpToKeepsExtinct(s: seq<Agent>, n: nat, k: Kind)
    requires n <= |s|
    requires forall j :: 0 <= j < |s| ==> s[j].kind != k
    ensures forall j :: 0 <= j < |s| ==> UpdateUpTo(s, n)[j].kind != k
    decreases n
  {
    if n > 0 {
      var t := UpdateUpTo(s, n - 1);
      UpdateUpToKeepsExtinct(s, n - 1, k);
      TurnEffect(t, n - 1);
    }
  }

  /**
   * Conversion only spreads types that are present: a type that is extinct
   * at the start of a frame is still extinct at its end.
   */
  lemma ExtinctStaysExtinct(s: seq<Agent>, k: Kind)
    requires forall j :: 0 <= j < |s| ==> s[j].kind != k
    ensures forall j :: 0 <= j < |Update(s)| ==> Update(s)[j].kind != k
  {
    UpdateUpToKeepsExtinct(s, |s|, k);
  }
}
