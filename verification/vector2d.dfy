/**
 Two-dimensional vectors over exact reals.

 The simulation's vector type is a plain value with an `x` and a `y`
 coordinate and componentwise arithmetic. Only the operations the bounding
 box and the celestial body use are modelled: `plus`, `minus`, `times`,
 `divided`, `reset` (the zero vector) and the componentwise comparisons
 `greaterOrEqual` / `lessOrEqual`.
 */
module Vectors {

  datatype Vector2D = Vector2D(x: real, y: real) {

    /** Componentwise sum. */
    function Plus(v: Vector2D): Vector2D {
      Vector2D(x + v.x, y + v.y)
    }

    /** Componentwise difference. */
    function Minus(v: Vector2D): Vector2D {
      Vector2D(x - v.x, y - v.y)
    }

    /** Scaling by a scalar. */
    function Times(s: real): Vector2D {
      Vector2D(x * s, y * s)
    }

    /** Division by a scalar; a zero divisor has no exact value. */
    function Divided(s: real): Vector2D
      requires s != 0.0
    {
      Vector2D(x / s, y / s)
    }

    /** True when both coordinates are at least those of `v`. */
    predicate GreaterOrEqual(v: Vector2D) {
      x >= v.x && y >= v.y
    }

    /** True when both coordinates are at most those of `v`. */
    predicate LessOrEqual(v: Vector2D) {
      x <= v.x && y <= v.y
    }
  }

  /** The vector `reset` produces and a default-constructed vector holds. */
  const Zero: Vector2D := Vector2D(0.0, 0.0)
}
