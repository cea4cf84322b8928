/**
 The square region the quadtree subdivides.

 A box is a centre and a half-length; it covers the closed square
 [cx - h, cx + h] x [cy - h, cy + h]. A point is assigned to one of four
 quadrants by two `>=` comparisons against the centre, and the box is
 subdivided into four child squares of half the half-length.
 */
module BoundingBoxes {
  import opened Vectors

  /** The four quadrants, in the order of their codes 0..3. */
  datatype Quadrant = SW | NW | SE | NE {

    /** The 2-bit code of the quadrant: bit 1 means east, bit 0 means north. */
    function Code(): (c: int)
      ensures 0 <= c < 4
      ensures c / 2 == 1 <==> IsEast()
      ensures c % 2 == 1 <==> IsNorth()
    {
      match this
      case SW => 0
      case NW => 1
      case SE => 2
      case NE => 3
    }

    predicate IsEast() { SE? || NE? }

    predicate IsNorth() { NW? || NE? }

    /** The sign of the child's centre offset along x. */
    function SignX(): real { if IsEast() then 1.0 else -1.0 }

    /** The sign of the child's centre offset along y. */
    function SignY(): real { if IsNorth() then 1.0 else -1.0 }
  }

  /** The quadrant whose code is `c`. */
  function FromCode(c: int): (q: Quadrant)
    requires 0 <= c < 4
    ensures q.Code() == c
  {
    if c == 0 then SW else if c == 1 then NW else if c == 2 then SE else NE
  }

  datatype BoundingBox2D = BoundingBox2D(center: Vector2D, halfLength: real) {

    function MinX(): real { center.x - halfLength }
    function MaxX(): real { center.x + halfLength }
    function MinY(): real { center.y - halfLength }
    function MaxY(): real { center.y + halfLength }

    /** The quadrant code of a point: 2 is added when the point is not west
        of the centre and 1 when it is not south of it; ties go east/north. */
    function QuadPosition(p: Vector2D): (r: int)
      ensures 0 <= r < 4
      ensures r / 2 == 1 <==> p.x >= center.x
      ensures r % 2 == 1 <==> p.y >= center.y
    {
      var zero: bv8 := 0;
      var east := if p.x >= center.x then zero | 2 else zero;
      var quad := if p.y >= center.y then east | 1 else east;
      quad as int
    }

    /** Inclusive containment: the point lies between the lower-left and the
        upper-right corner, componentwise. */
    function Contains(p: Vector2D): (b: bool)
      ensures b <==> MinX() <= p.x <= MaxX() && MinY() <= p.y <= MaxY()
      ensures b ==> halfLength >= 0.0
    {
      var lower := center.Plus(Vector2D(-halfLength, -halfLength));
      var upper := center.Plus(Vector2D(halfLength, halfLength));
      p.GreaterOrEqual(lower) && p.LessOrEqual(upper)
    }

    /** The south-west child: the lower-left quarter of this square. */
    function SW(): (r: BoundingBox2D)
      ensures r.halfLength == halfLength / 2.0
      ensures r.MinX() == MinX() && r.MaxX() == center.x
      ensures r.MinY() == MinY() && r.MaxY() == center.y
    {
      var newCenter := center.Minus(Vector2D(halfLength / 2.0, halfLength / 2.0));
      BoundingBox2D(newCenter, halfLength / 2.0)
    }

    /** The north-west child: the upper-left quarter of this square. */
    function NW(): (r: BoundingBox2D)
      ensures r.halfLength == halfLength / 2.0
      ensures r.MinX() == MinX() && r.MaxX() == center.x
      ensures r.MinY() == center.y && r.MaxY() == MaxY()
    {
      var addVector := Vector2D(-halfLength / 2.0, halfLength / 2.0);
      BoundingBox2D(center.Plus(addVector), halfLength / 2.0)
    }

    /** The south-east child: the lower-right quarter of this square. */
    function SE(): (r: BoundingBox2D)
      ensures r.halfLength == halfLength / 2.0
      ensures r.MinX() == center.x && r.MaxX() == MaxX()
      ensures r.MinY() == MinY() && r.MaxY() == center.y
    {
      var addVector := Vector2D(halfLength / 2.0, -halfLength / 2.0);
      BoundingBox2D(center.Plus(addVector), halfLength / 2.0)
    }

    /** The north-east child: the upper-right quarter of this square. */
    function NE(): (r: BoundingBox2D)
      ensures r.halfLength == halfLength / 2.0
      ensures r.MinX() == center.x && r.MaxX() == MaxX()
      ensures r.MinY() == center.y && r.MaxY() == MaxY()
    {
      var newCenter := center.Plus(Vector2D(halfLength / 2.0, halfLength / 2.0));
      BoundingBox2D(newCenter, halfLength / 2.0)
    }

    /** The child square of quadrant `q`: half the half-length, centred a
        quarter of the side away from this centre in the quadrant's direction. */
    function Child(q: Quadrant): (r: BoundingBox2D)
      ensures r.halfLength == halfLength / 2.0
      ensures r.center.x == center.x + q.SignX() * (halfLength / 2.0)
      ensures r.center.y == center.y + q.SignY() * (halfLength / 2.0)
    {
      match q
      case SW => SW()
      case NW => NW()
      case SE => SE()
      case NE => NE()
    }
  }

  /** A box's own centre lies in the north-east quadrant, since ties go to
      the `>=` side on both axes. */
  lemma CentreIsNorthEast(box: BoundingBox2D)
    ensures box.QuadPosition(box.center) == NE.Code()
  {
  }

  /** Every point of a child square is a point of its parent. */
  lemma ChildInParent(box: BoundingBox2D, q: Quadrant, p: Vector2D)
    requires box.Child(q).Contains(p)
    ensures box.Contains(p)
  {
  }

  /** The child that `QuadPosition` selects contains every point of the parent
      that selects it. */
  lemma SelectedChildContains(box: BoundingBox2D, p: Vector2D)
    requires box.Contains(p)
    ensures box.Child(FromCode(box.QuadPosition(p))).Contains(p)
  {
  }

  /** The four children cover the parent exactly: a point is in the parent
      if and only if it is in some child. */
  lemma ChildrenCoverParent(box: BoundingBox2D, p: Vector2D)
    ensures box.Contains(p) <==> exists q: Quadrant :: box.Child(q).Contains(p)
  {
    if box.Contains(p) {
      SelectedChildContains(box, p);
    }
    if exists q: Quadrant :: box.Child(q).Contains(p) {
      var q: Quadrant :| box.Child(q).Contains(p);
      ChildInParent(box, q, p);
    }
  }

  /** Off the two dividing lines, a point of the parent lies in exactly one
      child, and that is the one `QuadPosition` selects. */
  lemma UniqueChildOffDividingLines(box: BoundingBox2D, p: Vector2D, q: Quadrant)
    requires box.Contains(p)
    requires p.x != box.center.x && p.y != box.center.y
    ensures box.Child(q).Contains(p) <==> q.Code() == box.QuadPosition(p)
  {
  }

  /** A point on the vertical dividing line is contained in a western and an
      eastern child alike; `QuadPosition` resolves the tie to the east. */
  lemma VerticalLineTie(box: BoundingBox2D, p: Vector2D)
    requires box.Contains(p)
    requires p.x == box.center.x
    ensures box.Child(if p.y >= box.center.y then NW else SW).Contains(p)
    ensures box.Child(if p.y >= box.center.y then NE else SE).Contains(p)
    ensures FromCode(box.QuadPosition(p)).IsEast()
  {
  }

  /** A point on the horizontal dividing line is contained in a southern and
      a northern child alike; `QuadPosition` resolves the tie to the north. */
  lemma HorizontalLineTie(box: BoundingBox2D, p: Vector2D)
    requires box.Contains(p)
    requires p.y == box.center.y
    ensures box.Child(if p.x >= box.center.x then SE else SW).Contains(p)
    ensures box.Child(if p.x >= box.center.x then NE else NW).Contains(p)
    ensures FromCode(box.QuadPosition(p)).IsNorth()
  {
  }
}
