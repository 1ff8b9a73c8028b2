/**
 * `Shape`: the list of relative locations a stamp covers, built from a
 * `ShapeType` descriptor. `apply_shape` bounds-checks only the list's last
 * location, so every shape kind must end on its maximal corner.
 */
module Shapes {
  import opened Coordinates
  import opened Enumeration

  /** The one shape kind: a solid rectangle of the given width (x) and height (y). */
  datatype ShapeType = Rectangle(size: Coordinate)

  datatype Shape = Shape(locations: seq<Coordinate>)

  /** `size.x * size.y` is computed in `u16` and panics on overflow. */
  predicate SizeFits(shapeType: ShapeType)
  {
    shapeType.size.x * shapeType.size.y <= MaxU16
  }

  /**
   * `Shape::new`: for `Rectangle(size)`, every `(x, y)` with `x < size.x` and
   * `y < size.y`, x in the outer loop and y in the inner one, so location `i`
   * is the one with `i == x * size.y + y`.
   */
  function NewShape(shapeType: ShapeType): (s: Shape)
    requires SizeFits(shapeType)
    ensures |s.locations| == shapeType.size.x * shapeType.size.y
    ensures forall i :: 0 <= i < |s.locations| ==>
      s.locations[i].x < shapeType.size.x && s.locations[i].y < shapeType.size.y &&
      i == s.locations[i].x * shapeType.size.y + s.locations[i].y
  {
    match shapeType
    case Rectangle(size) =>
      var pairs := CartesianProduct(size.x, size.y);
      Shape(seq(|pairs|, i requires 0 <= i < |pairs| => Coordinate(pairs[i].0, pairs[i].1)))
  }

  /** No location of a rectangle is listed twice. */
  lemma RectangleDistinct(shapeType: ShapeType, i: nat, j: nat)
    requires SizeFits(shapeType)
    requires i < j < |NewShape(shapeType).locations|
    ensures NewShape(shapeType).locations[i] != NewShape(shapeType).locations[j]
  {
  }

  /** Every cell of the rectangle is covered. */
  lemma RectangleCovers(shapeType: ShapeType, c: Coordinate)
    requires SizeFits(shapeType)
    requires c.x < shapeType.size.x && c.y < shapeType.size.y
    ensures c in NewShape(shapeType).locations
  {
    var size := shapeType.size;
    CartesianProductCovers(size.x, size.y, c.x, c.y);
    assert NewShape(shapeType).locations[c.x * size.y + c.y] == c;
  }

  /** The shape is not empty, and its last location is its maximal corner. */
  ghost predicate LastIsMaximalCorner(shape: Shape)
  {
    |shape.locations| > 0 &&
    var last := shape.locations[|shape.locations| - 1];
    forall l :: l in shape.locations ==> l.x <= last.x && l.y <= last.y
  }

  /**
   * A rectangle with both sides positive ends on `(size.x - 1, size.y - 1)`,
   * which bounds every location: the ordering `apply_shape` relies on.
   */
  lemma RectangleEndsOnCorner(shapeType: ShapeType)
    requires SizeFits(shapeType)
    requires shapeType.size.x > 0 && shapeType.size.y > 0
    ensures var s := NewShape(shapeType);
      |s.locations| > 0 &&
      s.locations[|s.locations| - 1] == Coordinate(shapeType.size.x - 1, shapeType.size.y - 1)
    ensures LastIsMaximalCorner(NewShape(shapeType))
  {
    CartesianProductLast(shapeType.size.x, shapeType.size.y);
  }
}
