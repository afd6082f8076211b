/**
 * `generateNodePositions(nodes, edges)` of the visualizer service: node
 * positions on an 800 x 600 canvas with a padding of 50.
 *
 * Up to eight nodes are put on a circle of radius 190 around the centre.
 * More nodes start at random positions and are moved by a simplified force
 * simulation for 50 iterations; every iteration computes a velocity for each
 * node, limits each of its components to [-10, 10], adds it to the
 * position and clamps the position into the padded canvas.
 *
 * Positions are reals. The trigonometry, `Math.random` and the force
 * arithmetic are parameters:
 *  - `unit(t)` is `(cos 2πt, sin 2πt)`, the point at a fraction `t` of a full
 *    turn on the unit circle;
 *  - `rand(k)` is the value of the `k`-th call of `Math.random()`;
 *  - `forces(nodes, edges, positions, i)` is the velocity the repulsion and
 *    attraction loops give node `i` when the nodes are at `positions`.
 */
module Layout {
  import opened Options
  import opened Graph

  const Width: real := 800.0
  const Height: real := 600.0
  const Padding: real := 50.0
  /** `Math.min(width, height) / 2.5 - padding` */
  const Radius: real := 190.0
  const Iterations: nat := 50
  /** The circular branch is taken up to this many nodes. */
  const CircleLimit: nat := 8
  /** The largest move of one coordinate in one iteration. */
  const MaxStep: real := 10.0

  datatype Point = Point(x: real, y: real)

  /** An input node with the fields the layout adds: its `position`, and in
      the force branch its last `velocity`. */
  datatype Placed = Placed(node: Node, position: Point, velocity: Option<Point>)

  type Unit = real -> Point
  type Random = nat -> real
  type Forces = (seq<Node>, seq<Edge>, seq<Point>, nat) -> Point

  function Min(a: real, b: real): real { if a <= b then a else b }
  function Max(a: real, b: real): real { if a >= b then a else b }

  /** Both coordinates inside the padded canvas, [50, 750] x [50, 550]. */
  predicate InBounds(p: Point) {
    Padding <= p.x <= Width - Padding && Padding <= p.y <= Height - Padding
  }

  // ---------------------------------------------------------------------
  // The circular branch

  /** Node `i` of `n`: `angle = (i / n) * 2π`, at `width / 2 + radius * cos
      angle`, `height / 2 + radius * sin angle`. */
  function CirclePoint(unit: Unit, i: nat, n: nat): Point
    requires i < n
  {
    var u := unit(i as real / n as real);
    Point(Width / 2.0 + Radius * u.x, Height / 2.0 + Radius * u.y)
  }

  /** `nodes.map((node, i) => ({ ...node, position }))` */
  function Circular(nodes: seq<Node>, unit: Unit): seq<Placed> {
    seq(|nodes|, i requires 0 <= i < |nodes| => Placed(nodes[i], CirclePoint(unit, i, |nodes|), None))
  }

  /** Where a node goes depends on its index and the node count only: two
      node lists of the same length get the same positions. */
  lemma CircularByIndex(nodes: seq<Node>, others: seq<Node>, unit: Unit)
    requires |nodes| == |others|
    ensures forall i :: 0 <= i < |nodes| ==> Circular(nodes, unit)[i].position == Circular(others, unit)[i].position
  {
  }

  /** A point of the unit circle. */
  predicate OnUnitCircle(u: Point) {
    u.x * u.x + u.y * u.y == 1.0
  }

  /** `unit` is `(cos 2πt, sin 2πt)` as far as the layout needs it. */
  ghost predicate IsUnitCircle(unit: Unit) {
    forall t :: OnUnitCircle(unit(t))
  }

  /** When `unit` gives points of the unit circle, every node lies on the
      circle of radius 190 around the centre (400, 300). */
  lemma CircularOnCircle(nodes: seq<Node>, unit: Unit)
    requires IsUnitCircle(unit)
    ensures forall i :: 0 <= i < |nodes| ==>
      var p := Circular(nodes, unit)[i].position;
      (p.x - 400.0) * (p.x - 400.0) + (p.y - 300.0) * (p.y - 300.0) == Radius * Radius
  {
    forall i | 0 <= i < |nodes|
      ensures var p := Circular(nodes, unit)[i].position;
        (p.x - 400.0) * (p.x - 400.0) + (p.y - 300.0) * (p.y - 300.0) == Radius * Radius
    {
      var u := unit(i as real / |nodes| as real);
      assert OnUnitCircle(u);
      var p := Circular(nodes, unit)[i].position;
      assert p.x - 400.0 == Radius * u.x && p.y - 300.0 == Radius * u.y;
      calc {
        (p.x - 400.0) * (p.x - 400.0) + (p.y - 300.0) * (p.y - 300.0);
        (Radius * u.x) * (Radius * u.x) + (Radius * u.y) * (Radius * u.y);
        Radius * Radius * (u.x * u.x + u.y * u.y);
      }
    }
  }

  /** A coordinate of a unit-circle point is in [-1, 1]. */
  lemma UnitCoordinates(u: Point)
    requires OnUnitCircle(u)
    ensures -1.0 <= u.x <= 1.0 && -1.0 <= u.y <= 1.0
  {
    assert u.x * u.x <= 1.0 && u.y * u.y <= 1.0;
  }

  /** The circle lies inside the padded canvas: every node of the circular
      branch is in [210, 590] x [110, 490]. */
  lemma CircularInBounds(nodes: seq<Node>, unit: Unit)
    requires IsUnitCircle(unit)
    ensures forall i :: 0 <= i < |nodes| ==> InBounds(Circular(nodes, unit)[i].position)
  {
    forall i | 0 <= i < |nodes|
      ensures InBounds(Circular(nodes, unit)[i].position)
    {
      var u := unit(i as real / |nodes| as real);
      assert OnUnitCircle(u);
      UnitCoordinates(u);
    }
  }

  // ---------------------------------------------------------------------
  // The force branch as functions

  /** `padding + Math.random() * (width - 2 * padding)` and the same for
      `y`; node `i` draws the `2i`-th and `2i+1`-th random numbers. */
  function Initial(rand: Random, i: nat): Point {
    Point(Padding + rand(2 * i) * (Width - 2.0 * Padding), Padding + rand(2 * i + 1) * (Height - 2.0 * Padding))
  }

  function InitialPositions(n: nat, rand: Random): seq<Point> {
    seq(n, i requires 0 <= i < n => Initial(rand, i))
  }

  /** With `Math.random()` values in [0, 1), every starting position is
      inside the padded canvas. */
  lemma InitialInBounds(n: nat, rand: Random)
    requires forall k :: 0.0 <= rand(k) < 1.0
    ensures forall i :: 0 <= i < n ==> InBounds(InitialPositions(n, rand)[i])
  {
    forall i | 0 <= i < n
      ensures InBounds(InitialPositions(n, rand)[i])
    {
      var rx, ry := rand(2 * i), rand(2 * i + 1);
      assert 0.0 <= rx * (Width - 2.0 * Padding) <= Width - 2.0 * Padding;
      assert 0.0 <= ry * (Height - 2.0 * Padding) <= Height - 2.0 * Padding;
    }
  }

  /** `Math.min(Math.max(v, -10), 10)` */
  function Limit(v: real): real {
    Min(Max(v, -MaxStep), MaxStep)
  }

  /** One node's update: the limited velocity is added to the position,
      which is then clamped with `Math.max(padding, Math.min(width -
      padding, x))` and the same for `y`. */
  function Move(p: Point, v: Point): Point {
    Point(Max(Padding, Min(Width - Padding, p.x + Limit(v.x))),
          Max(Padding, Min(Height - Padding, p.y + Limit(v.y))))
  }

  /** The velocities of one iteration, all computed from the positions the
      iteration starts with. */
  function Velocities(nodes: seq<Node>, edges: seq<Edge>, forces: Forces, ps: seq<Point>): seq<Point> {
    seq(|ps|, i requires 0 <= i < |ps| => forces(nodes, edges, ps, i))
  }

  /** One iteration of the outer loop. */
  function Advance(nodes: seq<Node>, edges: seq<Edge>, forces: Forces, ps: seq<Point>): seq<Point> {
    seq(|ps|, i requires 0 <= i < |ps| => Move(ps[i], forces(nodes, edges, ps, i)))
  }

  /** The positions after `k` iterations. */
  function Simulate(nodes: seq<Node>, edges: seq<Edge>, forces: Forces, ps: seq<Point>, k: nat): (qs: seq<Point>)
    ensures |qs| == |ps|
  {
    if k == 0 then ps else Advance(nodes, edges, forces, Simulate(nodes, edges, forces, ps, k - 1))
  }

  /** The nodes the force branch returns: every node with its position after
      50 iterations and the velocity of the last iteration. */
  function ForcePlacement(nodes: seq<Node>, edges: seq<Edge>, rand: Random, forces: Forces): (r: seq<Placed>)
    ensures |r| == |nodes| && forall i :: 0 <= i < |r| ==> r[i].node == nodes[i]
  {
    var start := InitialPositions(|nodes|, rand);
    var last := Simulate(nodes, edges, forces, start, Iterations - 1);
    var ps := Advance(nodes, edges, forces, last);
    var vs := Velocities(nodes, edges, forces, last);
    seq(|nodes|, i requires 0 <= i < |nodes| => Placed(nodes[i], ps[i], Some(vs[i])))
  }

  /** `generateNodePositions`: the circular branch for at most eight nodes,
      the force branch otherwise. */
  function Positions(nodes: seq<Node>, edges: seq<Edge>, unit: Unit, rand: Random, forces: Forces): seq<Placed> {
    if |nodes| <= CircleLimit then Circular(nodes, unit) else ForcePlacement(nodes, edges, rand, forces)
  }

  // ---------------------------------------------------------------------
  // What the update step promises

  /** Whatever the velocity, an updated node is inside the padded canvas. */
  lemma MoveInBounds(p: Point, v: Point)
    ensures InBounds(Move(p, v))
  {
  }

  /** A node that starts inside the canvas moves by at most 10 in each
      coordinate, and a node at rest stays where it is. */
  lemma MoveBounded(p: Point, v: Point)
    requires InBounds(p)
    ensures -MaxStep <= Move(p, v).x - p.x <= MaxStep
    ensures -MaxStep <= Move(p, v).y - p.y <= MaxStep
    ensures v == Point(0.0, 0.0) ==> Move(p, v) == p
  {
  }

  /** After one or more iterations every node is inside the canvas. */
  lemma SimulateInBounds(nodes: seq<Node>, edges: seq<Edge>, forces: Forces, ps: seq<Point>, k: nat)
    requires k > 0
    ensures forall i :: 0 <= i < |ps| ==> InBounds(Simulate(nodes, edges, forces, ps, k)[i])
  {
    var before := Simulate(nodes, edges, forces, ps, k - 1);
    forall i | 0 <= i < |ps|
      ensures InBounds(Simulate(nodes, edges, forces, ps, k)[i])
    {
      MoveInBounds(before[i], forces(nodes, edges, before, i));
    }
  }

  /** From positions inside the canvas, `k` iterations move a coordinate by
      at most `10 k`. */
  lemma {:induction false} SimulateDrift(nodes: seq<Node>, edges: seq<Edge>, forces: Forces, ps: seq<Point>, k: nat, i: nat)
    requires i < |ps| && InBounds(ps[i])
    ensures var q := Simulate(nodes, edges, forces, ps, k)[i];
      && InBounds(q)
      && -MaxStep * k as real <= q.x - ps[i].x <= MaxStep * k as real
      && -MaxStep * k as real <= q.y - ps[i].y <= MaxStep * k as real
  {
    if k > 0 {
      SimulateDrift(nodes, edges, forces, ps, k - 1, i);
      var before := Simulate(nodes, edges, forces, ps, k - 1);
      MoveBounded(before[i], forces(nodes, edges, before, i));
      MoveInBounds(before[i], forces(nodes, edges, before, i));
    }
  }

  /** The result has one element per input node, in input order, each one
      the input node with a position; the circular branch uses neither the
      edges nor randomness, and the force branch leaves every node inside the
      canvas, as does the circular one when `unit` is the unit circle. */
  lemma PositionsShape(nodes: seq<Node>, edges: seq<Edge>, unit: Unit, rand: Random, forces: Forces)
    ensures var r := Positions(nodes, edges, unit, rand, forces);
      && |r| == |nodes|
      && (forall i :: 0 <= i < |r| ==> r[i].node == nodes[i])
      && (|nodes| <= CircleLimit ==> r == Circular(nodes, unit))
      && (|nodes| > CircleLimit ==> forall i :: 0 <= i < |r| ==> InBounds(r[i].position) && r[i].velocity.Some?)
      && (|nodes| > CircleLimit || IsUnitCircle(unit) ==> forall i :: 0 <= i < |r| ==> InBounds(r[i].position))
  {
    if |nodes| <= CircleLimit && IsUnitCircle(unit) {
      CircularInBounds(nodes, unit);
    }
    if |nodes| > CircleLimit {
      var start := InitialPositions(|nodes|, rand);
      assert |start| == |nodes|;
      SimulateInBounds(nodes, edges, forces, start, Iterations);
      assert Simulate(nodes, edges, forces, start, Iterations)
          == Advance(nodes, edges, forces, Simulate(nodes, edges, forces, start, Iterations - 1));
    }
  }

  /** With `Math.random()` values in [0, 1), a node of the force branch ends
      at most `10 * 50` from its starting position in each coordinate. */
  lemma ForceDrift(nodes: seq<Node>, edges: seq<Edge>, rand: Random, forces: Forces)
    requires forall k :: 0.0 <= rand(k) < 1.0
    ensures var r := ForcePlacement(nodes, edges, rand, forces);
      forall i :: 0 <= i < |r| ==>
        && -MaxStep * Iterations as real <= r[i].position.x - Initial(rand, i).x <= MaxStep * Iterations as real
        && -MaxStep * Iterations as real <= r[i].position.y - Initial(rand, i).y <= MaxStep * Iterations as real
  {
    var start := InitialPositions(|nodes|, rand);
    InitialInBounds(|nodes|, rand);
    assert Simulate(nodes, edges, forces, start, Iterations)
        == Advance(nodes, edges, forces, Simulate(nodes, edges, forces, start, Iterations - 1));
    forall i | 0 <= i < |nodes|
      ensures var q := Simulate(nodes, edges, forces, start, Iterations)[i];
        && -MaxStep * Iterations as real <= q.x - start[i].x <= MaxStep * Iterations as real
        && -MaxStep * Iterations as real <= q.y - start[i].y <= MaxStep * Iterations as real
    {
      SimulateDrift(nodes, edges, forces, start, Iterations, i);
    }
  }

  // ---------------------------------------------------------------------
  // The program

  /** The force branch, with `positionedNodes` kept as two arrays, its
      positions and its velocities, updated in place. */
  method ForceLayout(nodes: seq<Node>, edges: seq<Edge>, rand: Random, forces: Forces) returns (placed: seq<Placed>)
    ensures placed == ForcePlacement(nodes, edges, rand, forces)
  {
    var n := |nodes|;
    var start := InitialPositions(n, rand);
    var position := new Point[n](i requires 0 <= i < n => start[i]);
    var velocity := new Point[n](i => Point(0.0, 0.0));
    ghost var last := start;
    for iter := 0 to Iterations
      invariant position[..] == Simulate(nodes, edges, forces, start, iter)
      invariant iter > 0 ==> last == Simulate(nodes, edges, forces, start, iter - 1)
      invariant iter > 0 ==> velocity[..] == Velocities(nodes, edges, forces, last)
    {
      last := position[..];
      ComputeVelocities(nodes, edges, forces, position, velocity);
      UpdatePositions(position, velocity);
      assert position[..] == Advance(nodes, edges, forces, last);
    }
    placed := seq(n, i requires 0 <= i < n reads position, velocity => Placed(nodes[i], position[i], Some(velocity[i])));
  }

  /** The repulsion and attraction loops: every node's velocity from the
      current positions. */
  method ComputeVelocities(nodes: seq<Node>, edges: seq<Edge>, forces: Forces, position: array<Point>, velocity: array<Point>)
    requires position != velocity && position.Length == velocity.Length
    modifies velocity
    ensures velocity[..] == Velocities(nodes, edges, forces, position[..])
  {
    for i := 0 to velocity.Length
      invariant forall j :: 0 <= j < i ==> velocity[j] == forces(nodes, edges, position[..], j)
    {
      velocity[i] := forces(nodes, edges, position[..], i);
    }
  }

  /** `for (let node of positionedNodes)`: each position moved by its
      velocity and clamped. */
  method UpdatePositions(position: array<Point>, velocity: array<Point>)
    requires position != velocity && position.Length == velocity.Length
    modifies position
    ensures forall i :: 0 <= i < position.Length ==> position[i] == Move(old(position[i]), velocity[i])
  {
    for i := 0 to position.Length
      invariant forall j :: 0 <= j < i ==> position[j] == Move(old(position[j]), velocity[j])
      invariant forall j :: i <= j < position.Length ==> position[j] == old(position[j])
    {
      position[i] := Move(position[i], velocity[i]);
    }
  }

  /** `generateNodePositions(nodes, edges)` */
  method GenerateNodePositions(nodes: seq<Node>, edges: seq<Edge>, unit: Unit, rand: Random, forces: Forces)
      returns (placed: seq<Placed>)
    ensures placed == Positions(nodes, edges, unit, rand, forces)
  {
    if |nodes| <= CircleLimit {
      return Circular(nodes, unit);
    }
    placed := ForceLayout(nodes, edges, rand, forces);
  }
}
