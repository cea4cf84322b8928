/**
 A point mass of the simulation and its pure state transitions.

 A body carries a position, a velocity, a per-step force accumulator and a
 mass. The transitions modelled here are the ones that need no square root:
 zeroing the force, the semi-implicit integration step, aggregation of two
 bodies into a pseudo-body at their centre of mass, the delegations to the
 bounding box, and the equality the source defines.
 */
module CelestialBodies {
  import opened Vectors
  import opened BoundingBoxes

  datatype CelestialBody = CelestialBody(position: Vector2D, velocity: Vector2D, force: Vector2D, mass: real) {

    /** True if the body's position lies in the box, boundary included. */
    function Inside(box: BoundingBox2D): (b: bool)
      ensures b <==> box.MinX() <= position.x <= box.MaxX() && box.MinY() <= position.y <= box.MaxY()
    {
      box.Contains(position)
    }

    /** The quadrant code of the body's position in the box; when the body is
        inside the box, the child of that quadrant holds it. */
    function QuadPosition(box: BoundingBox2D): (r: int)
      ensures 0 <= r < 4
      ensures r / 2 == 1 <==> position.x >= box.center.x
      ensures r % 2 == 1 <==> position.y >= box.center.y
      ensures Inside(box) ==> box.Child(FromCode(r)).Contains(position)
    {
      box.QuadPosition(position)
    }

    /** Starts a new step's accumulation: the force becomes zero and nothing
        else changes. */
    function ResetForces(): (r: CelestialBody)
      ensures r.force == Zero
      ensures r.position == position && r.velocity == velocity && r.mass == mass
    {
      this.(force := Zero)
    }

    /** One semi-implicit step of length `dt`: the velocity is advanced by the
        acceleration first, and the position is then advanced by the NEW
        velocity. Force and mass do not change. */
    function Update(dt: real): (r: CelestialBody)
      requires mass != 0.0
      ensures r.velocity.x == velocity.x + force.x * dt / mass
      ensures r.velocity.y == velocity.y + force.y * dt / mass
      ensures r.position.x == position.x + r.velocity.x * dt
      ensures r.position.y == position.y + r.velocity.y * dt
      ensures r.force == force && r.mass == mass
    {
      var v := force.Times(dt / mass).Plus(velocity);
      var p := v.Times(dt).Plus(position);
      this.(velocity := v, position := p)
    }

    /** The aggregate of this body and `other`: the total mass placed at the
        mass-weighted centroid, at rest and with no force. */
    function CreatePseudobody(other: CelestialBody): (r: CelestialBody)
      requires mass + other.mass != 0.0
      ensures r.mass == mass + other.mass
      ensures r.mass * r.position.x == mass * position.x + other.mass * other.position.x
      ensures r.mass * r.position.y == mass * position.y + other.mass * other.position.y
      ensures r.velocity == Zero && r.force == Zero
    {
      var combinedMass := mass + other.mass;
      var combinedPosition := position.Times(mass).Plus(other.position.Times(other.mass)).Divided(combinedMass);
      NewBody(combinedPosition, Zero, combinedMass)
    }

    /** The source's equality: position and mass only. */
    function Equals(other: CelestialBody): (b: bool)
      ensures b <==> position.x == other.position.x && position.y == other.position.y && mass == other.mass
    {
      position == other.position && mass == other.mass
    }
  }

  /** A freshly constructed body: the force accumulator starts at zero. */
  function NewBody(position: Vector2D, velocity: Vector2D, mass: real): (b: CelestialBody)
    ensures b.force == Zero
    ensures b.position == position && b.velocity == velocity && b.mass == mass
  {
    CelestialBody(position, velocity, Zero, mass)
  }

  /** Resetting twice is resetting once. */
  lemma ResetForcesIdempotent(b: CelestialBody)
    ensures b.ResetForces().ResetForces() == b.ResetForces()
  {
  }

  /** Integration over a step is the closed form of constant acceleration
      with the semi-implicit weighting: p + v dt + (f / m) dt^2. */
  lemma UpdateClosedForm(b: CelestialBody, dt: real)
    requires b.mass != 0.0
    ensures b.Update(dt).position.x == b.position.x + b.velocity.x * dt + b.force.x / b.mass * (dt * dt)
    ensures b.Update(dt).position.y == b.position.y + b.velocity.y * dt + b.force.y / b.mass * (dt * dt)
  {
  }

  /** A step of length zero changes nothing. */
  lemma UpdateZeroStep(b: CelestialBody)
    requires b.mass != 0.0
    ensures b.Update(0.0) == b
  {
  }

  /** Without force a body moves uniformly: its velocity is kept and its
      position advances by velocity times the step. */
  lemma UpdateWithoutForce(b: CelestialBody, dt: real)
    requires b.mass != 0.0 && b.force == Zero
    ensures b.Update(dt).velocity == b.velocity
    ensures b.Update(dt).position == b.position.Plus(b.velocity.Times(dt))
  {
  }

  /** Aggregation does not depend on the order of the two bodies. */
  lemma PseudobodySymmetric(a: CelestialBody, b: CelestialBody)
    requires a.mass + b.mass != 0.0
    ensures a.CreatePseudobody(b) == b.CreatePseudobody(a)
  {
  }

  /** Aggregating with a massless body leaves the position where it was. */
  lemma PseudobodyMasslessPartner(a: CelestialBody, b: CelestialBody)
    requires a.mass != 0.0 && b.mass == 0.0
    ensures a.CreatePseudobody(b).position == a.position
    ensures a.CreatePseudobody(b).Equals(a)
  {
  }

  /** With positive masses the centroid is a convex combination: each of its
      coordinates lies between the two bodies' coordinates. */
  lemma PseudobodyBetween(a: CelestialBody, b: CelestialBody)
    requires a.mass > 0.0 && b.mass > 0.0
    ensures Between(a.CreatePseudobody(b).position.x, a.position.x, b.position.x)
    ensures Between(a.CreatePseudobody(b).position.y, a.position.y, b.position.y)
  {
    var r := a.CreatePseudobody(b);
    CentroidBetween(a.mass, b.mass, a.position.x, b.position.x, r.position.x);
    CentroidBetween(a.mass, b.mass, a.position.y, b.position.y, r.position.y);
  }

  /** A pseudo-body of two bodies inside a box is inside that box too, so a
      quadtree node's aggregate never leaves the node's square. */
  lemma PseudobodyInsideBox(a: CelestialBody, b: CelestialBody, box: BoundingBox2D)
    requires a.mass > 0.0 && b.mass > 0.0
    requires a.Inside(box) && b.Inside(box)
    ensures a.CreatePseudobody(b).Inside(box)
  {
    PseudobodyBetween(a, b);
  }

  /** The source's equality is an equivalence relation. */
  lemma EqualsIsEquivalence(a: CelestialBody, b: CelestialBody, c: CelestialBody)
    ensures a.Equals(a)
    ensures a.Equals(b) <==> b.Equals(a)
    ensures a.Equals(b) && b.Equals(c) ==> a.Equals(c)
  {
  }

  /** Equality ignores velocity and force: a body equals any copy of itself
      with other motion, for instance itself after a force reset. */
  lemma EqualsIgnoresMotion(b: CelestialBody, v: Vector2D, f: Vector2D)
    ensures b.Equals(b.(velocity := v, force := f))
    ensures b.ResetForces().Equals(b)
  {
  }

  /** `x` lies between `lo` and `hi`, in either order. */
  predicate Between(x: real, lo: real, hi: real) {
    (lo <= x <= hi) || (hi <= x <= lo)
  }

  /** The weighted mean `c` of `u` and `v` with positive weights lies between
      them; `c` is given through its defining equation. */
  lemma CentroidBetween(m1: real, m2: real, u: real, v: real, c: real)
    requires m1 > 0.0 && m2 > 0.0
    requires (m1 + m2) * c == m1 * u + m2 * v
    ensures Between(c, u, v)
  {
    // c moves from u towards v by the fraction m2 / (m1 + m2).
    assert (m1 + m2) * (c - u) == m2 * (v - u);
  }
}
