# Barnes-Hut geometry and body transitions, in Dafny

This project models the two small pieces of exact logic underneath the
N-body Barnes-Hut simulation:

- **`BoundingBox2D`**, the square region the quadtree subdivides. It covers
  quadrant selection (`quadPosition`), inclusive containment (`contains`) and
  the four child squares (`SW`, `NW`, `SE`, `NE`).
- **`CelestialBody`**, the point mass. It covers the pure state transitions:
  `resetForces`, the semi-implicit `update(dt:)`, aggregation into a
  pseudo-body (`createPseudobody`), the delegations `inside` and
  `quadPosition(in:)`, and the source's `==`.

Swift `Double` is modelled as Dafny `real`. This is an idealisation: IEEE-754
rounding, NaN and infinities are not modelled. A division that Swift would
carry out with a zero divisor becomes a precondition: `update` requires a
non-zero mass and `createPseudobody` requires a non-zero total mass.

The vector type is not part of this model's sources. `vector2d.dfy` defines
the minimal `Vector2D(x, y)` that the two files use: componentwise `plus`,
`minus`, `times` and `divided`, and a zero vector. The vector operations the
source calls but does not show are given assumed meanings, listed under
"## Left out".

Files:

- `vector2d.dfy`: module `Vectors`.
- `bounding_box.dfy`: module `BoundingBoxes`. It holds the `Quadrant` codes,
  the box, its children, and the covering and consistency lemmas.
- `celestial_body.dfy`: module `CelestialBodies`. It holds the body record,
  its transitions, and lemmas on integration, aggregation and equality.

Design choices:

- Quadrant codes follow the source's table: 0 = SW, 1 = NW, 2 = SE, 3 = NE.
  Bit 1 means "not west of the centre" and bit 0 means "not south of it".
- `quadPosition` is written with `|=` on a bit-vector, as in the source. Its
  contract is stated arithmetically.
- The mutating Swift methods (`resetForces`, `update`) are modelled as
  functions that return the updated body.
- The body's colour is rendering-only and is not part of the model.

## Model

| member | source | states |
|---|---|---|
| BoundingBoxes.Quadrant.Code | N-Body-Simulation-Base/BoundingBox2D.swift:24-29 | each quadrant's code is in 0..3; bit 1 is set exactly for the eastern quadrants and bit 0 exactly for the northern ones, as in the comment table |
| BoundingBoxes.FromCode | N-Body-Simulation-Base/BoundingBox2D.swift:24-29 | every code 0..3 names the quadrant whose code it is |
| BoundingBoxes.BoundingBox2D.QuadPosition | N-Body-Simulation-Base/BoundingBox2D.swift:32-38 | the code is always in 0..3; bit 1 is set iff `p.x >= center.x` and bit 0 is set iff `p.y >= center.y` |
| BoundingBoxes.BoundingBox2D.Contains | N-Body-Simulation-Base/BoundingBox2D.swift:41-45 | a point is contained iff `cx-h <= x <= cx+h` and `cy-h <= y <= cy+h`, both ends inclusive; only a box with `h >= 0` contains anything |
| BoundingBoxes.BoundingBox2D.SW | N-Body-Simulation-Base/BoundingBox2D.swift:48-51 | the child has half-length `h/2` and spans `[cx-h, cx] x [cy-h, cy]`, the lower-left quarter |
| BoundingBoxes.BoundingBox2D.NW | N-Body-Simulation-Base/BoundingBox2D.swift:54-58 | the child has half-length `h/2` and spans `[cx-h, cx] x [cy, cy+h]`, the upper-left quarter |
| BoundingBoxes.BoundingBox2D.SE | N-Body-Simulation-Base/BoundingBox2D.swift:61-65 | the child has half-length `h/2` and spans `[cx, cx+h] x [cy-h, cy]`, the lower-right quarter |
| BoundingBoxes.BoundingBox2D.NE | N-Body-Simulation-Base/BoundingBox2D.swift:68-71 | the child has half-length `h/2` and spans `[cx, cx+h] x [cy, cy+h]`, the upper-right quarter |
| BoundingBoxes.BoundingBox2D.Child | N-Body-Simulation-Base/BoundingBox2D.swift:48-71 | the child of quadrant q has half-length `h/2` and centre `center + (sx*h/2, sy*h/2)`; the signs are (-,-) for SW, (-,+) for NW, (+,-) for SE and (+,+) for NE |
| BoundingBoxes.CentreIsNorthEast | N-Body-Simulation-Base/BoundingBox2D.swift:34-35 | the box's own centre gets code 3 (NE), because ties go to the `>=` side |
| BoundingBoxes.ChildInParent | N-Body-Simulation-Base/BoundingBox2D.swift:41-71 | every point contained in any child is contained in the parent |
| BoundingBoxes.SelectedChildContains | N-Body-Simulation-Base/BoundingBox2D.swift:32-71 | a point contained in the parent is contained in the child that `quadPosition` selects |
| BoundingBoxes.ChildrenCoverParent | N-Body-Simulation-Base/BoundingBox2D.swift:41-71 | a point is in the parent iff it is in at least one of the four children |
| BoundingBoxes.UniqueChildOffDividingLines | N-Body-Simulation-Base/BoundingBox2D.swift:32-71 | off the two dividing lines, a point of the parent is in child q iff q's code is the point's `quadPosition`, so exactly one child holds it |
| BoundingBoxes.VerticalLineTie | N-Body-Simulation-Base/BoundingBox2D.swift:32-71 | a point of the parent on the vertical dividing line lies in both a western and an eastern child; `quadPosition` picks the eastern one |
| BoundingBoxes.HorizontalLineTie | N-Body-Simulation-Base/BoundingBox2D.swift:32-71 | a point of the parent on the horizontal dividing line lies in both a southern and a northern child; `quadPosition` picks the northern one |
| CelestialBodies.CelestialBody.Inside | N-Body-Simulation-Base/CelestialBody.swift:38-40 | a body is inside the box iff its position satisfies the box's inclusive interval test on both axes |
| CelestialBodies.CelestialBody.QuadPosition | N-Body-Simulation-Base/CelestialBody.swift:69-71 | the body's code has the box's bit meaning for its position; for a body inside the box, the child of that code contains it |
| CelestialBodies.CelestialBody.ResetForces | N-Body-Simulation-Base/CelestialBody.swift:52-54 | the force becomes the zero vector; position, velocity and mass are unchanged |
| CelestialBodies.CelestialBody.Update | N-Body-Simulation-Base/CelestialBody.swift:58-61 | for a non-zero mass, velocity becomes `v + f*dt/m`; position then advances by the NEW velocity times `dt`; force and mass are unchanged |
| CelestialBodies.CelestialBody.CreatePseudobody | N-Body-Simulation-Base/CelestialBody.swift:73-78 | for a non-zero total mass, the aggregate's mass is `m1+m2`, its first moment `(m1+m2)*p` equals `m1*p1 + m2*p2`, and its velocity and force are zero |
| CelestialBodies.CelestialBody.Equals | N-Body-Simulation-Base/CelestialBody.swift:82-86 | two bodies are equal iff their positions agree in both coordinates and their masses are equal; velocity and force play no part |
| CelestialBodies.NewBody | N-Body-Simulation-Base/CelestialBody.swift:18-24 | a new body has the given position, velocity and mass, and a zero force |
| CelestialBodies.ResetForcesIdempotent | N-Body-Simulation-Base/CelestialBody.swift:52-54 | resetting the force twice is the same as resetting it once |
| CelestialBodies.UpdateClosedForm | N-Body-Simulation-Base/CelestialBody.swift:58-61 | the position after a step is `p + v*dt + (f/m)*dt^2`, the closed form of the semi-implicit step |
| CelestialBodies.UpdateZeroStep | N-Body-Simulation-Base/CelestialBody.swift:58-61 | a step with `dt = 0` leaves the body unchanged |
| CelestialBodies.UpdateWithoutForce | N-Body-Simulation-Base/CelestialBody.swift:58-61 | with zero force, the velocity is kept and the position moves by `v*dt` |
| CelestialBodies.PseudobodySymmetric | N-Body-Simulation-Base/CelestialBody.swift:73-78 | swapping the two bodies gives the same aggregate: the same mass, position, velocity and force |
| CelestialBodies.PseudobodyMasslessPartner | N-Body-Simulation-Base/CelestialBody.swift:73-78 | aggregating with a massless body keeps the position, and the aggregate equals the original under `==` |
| CelestialBodies.PseudobodyBetween | N-Body-Simulation-Base/CelestialBody.swift:74-75 | with positive masses, each coordinate of the centroid lies between the two bodies' coordinates (a convex combination) |
| CelestialBodies.PseudobodyInsideBox | N-Body-Simulation-Base/CelestialBody.swift:73-78 | with positive masses, if both bodies are inside a box then so is their aggregate |
| CelestialBodies.EqualsIsEquivalence | N-Body-Simulation-Base/CelestialBody.swift:82-86 | `==` is reflexive, symmetric and transitive |
| CelestialBodies.EqualsIgnoresMotion | N-Body-Simulation-Base/CelestialBody.swift:82-86 | `==` ignores velocity and force; in particular a body equals itself after a force reset |

## Left out

- `calculateForce` and `distance` (CelestialBody.swift:43-49, 64-66) are not modelled. They need a Euclidean length and a normalisation, i.e. a square root, which exact `real` arithmetic cannot express. The force law also divides by `r*r` with no guard for coincident bodies.
- `draw`, `drawBorder` and the body's colour are rendering only.
- The quadtree is not part of this model. Its source holds only stored fields, a leaf test and an initialiser, with no insertion or force query to model.
- The simulation loop, file loading, console input, timer scheduling and view wiring are I/O and UI glue.
- IEEE-754 rounding, NaN and infinities are not modelled. Divisions by zero are preconditions instead: a zero mass in `update`, a zero total mass in `createPseudobody`, and a zero divisor in `divided`.
- The vector type's own file is not part of this model. Only the vector operations the two files use are defined, and the following meanings are assumed rather than taken from the source:
  - `greaterOrEqual` and `lessOrEqual` compare componentwise. `Contains`, `Inside` and every containment lemma rest on this.
  - `reset()` and the default initialiser `Vector2D()` give the zero vector. `ResetForces`, `NewBody` and the zero velocity and force of `CreatePseudobody` rest on this.
  - Vector `==` compares both coordinates. `Equals` rests on this.
