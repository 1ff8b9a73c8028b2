/**
 * `Cordinate`: a pair of `u16` grid positions, its overflow-checked
 * neighbour computation and its plain (panicking) addition and subtraction.
 */
module Coordinates {
  import opened Wrappers

  const MaxU16: int := 0xFFFF

  type U16 = n: int | 0 <= n <= 0xFFFF

  type I16 = n: int | -0x8000 <= n <= 0x7FFF

  /** `Cordinate::new` is the constructor: total, with no check against any board. */
  datatype Coordinate = Coordinate(x: U16, y: U16)

  /** `u16::checked_add_signed`: `None` exactly when the sum leaves 0..=0xFFFF. */
  function CheckedAddU16(a: U16, delta: I16): Option<U16>
  {
    if 0 <= a + delta <= MaxU16 then Some(a + delta) else None
  }

  /** `Cordinate::checked_add_signed`: the x component is tried first, then y; either overflow gives `None`. */
  function CheckedAddSigned(c: Coordinate, dx: I16, dy: I16): (r: Option<Coordinate>)
    ensures r.Some? <==> 0 <= c.x + dx <= MaxU16 && 0 <= c.y + dy <= MaxU16
    ensures r.Some? ==> r.value.x - c.x == dx && r.value.y - c.y == dy
  {
    match CheckedAddU16(c.x, dx)
    case None => None
    case Some(x) =>
      match CheckedAddU16(c.y, dy)
      case None => None
      case Some(y) => Some(Coordinate(x, y))
  }

  /** Stepping back by the negated offset undoes a successful checked step. */
  lemma CheckedAddSignedInverse(c: Coordinate, dx: I16, dy: I16, d: Coordinate)
    requires -0x8000 < dx && -0x8000 < dy
    requires CheckedAddSigned(c, dx, dy) == Some(d)
    ensures CheckedAddSigned(d, -dx, -dy) == Some(c)
  {
  }

  /** The `(rhs_1, rhs_2)` pairs of `once(0).cartesian_product([1, -1])`. */
  const OffsetPairs: seq<(I16, I16)> := [(0, 1), (0, -1)]

  /** Each pair pushes the step `(rhs_1, rhs_2)` and then the transposed step `(rhs_2, rhs_1)`. */
  function AdjacentFrom(c: Coordinate, pairs: seq<(I16, I16)>): seq<Option<Coordinate>>
  {
    if pairs == [] then []
    else [CheckedAddSigned(c, pairs[0].0, pairs[0].1), CheckedAddSigned(c, pairs[0].1, pairs[0].0)]
         + AdjacentFrom(c, pairs[1..])
  }

  /** The x step of direction `d`, numbered 0 up, 1 right, 2 down, 3 left. */
  function DeltaX(d: nat): I16
    requires d < 4
  {
    if d == 1 then 1 else if d == 3 then -1 else 0
  }

  /** The y step of direction `d` (row 0 is the bottom row, so up is y + 1). */
  function DeltaY(d: nat): I16
    requires d < 4
  {
    if d == 0 then 1 else if d == 2 then -1 else 0
  }

  /** The direction that points back: up and down, right and left. */
  function Opposite(d: nat): (e: nat)
    requires d < 4
    ensures e < 4 && DeltaX(e) == -DeltaX(d) && DeltaY(e) == -DeltaY(d)
  {
    (d + 2) % 4
  }

  /**
   * `Cordinate::adjacent`: exactly four optional neighbours, in the order
   * up (x, y+1), right (x+1, y), down (x, y-1), left (x-1, y).
   */
  function Adjacent(c: Coordinate): (r: seq<Option<Coordinate>>)
    ensures |r| == 4
    ensures r[0] == CheckedAddSigned(c, 0, 1) && r[1] == CheckedAddSigned(c, 1, 0)
    ensures r[2] == CheckedAddSigned(c, 0, -1) && r[3] == CheckedAddSigned(c, -1, 0)
    ensures forall d :: 0 <= d < 4 ==> r[d] == CheckedAddSigned(c, DeltaX(d), DeltaY(d))
  {
    assert OffsetPairs[1..] == [(0, -1)] && OffsetPairs[1..][1..] == [];
    assert AdjacentFrom(c, OffsetPairs[1..])
        == [CheckedAddSigned(c, 0, -1), CheckedAddSigned(c, -1, 0)] + AdjacentFrom(c, []);
    AdjacentFrom(c, OffsetPairs)
  }

  /**
   * A neighbour is missing only when the `u16` arithmetic leaves its range,
   * never because of any board; a present neighbour is at Manhattan distance one.
   */
  lemma AdjacentMissingOnlyOnOverflow(c: Coordinate)
    ensures Adjacent(c)[0].None? <==> c.y == MaxU16
    ensures Adjacent(c)[1].None? <==> c.x == MaxU16
    ensures Adjacent(c)[2].None? <==> c.y == 0
    ensures Adjacent(c)[3].None? <==> c.x == 0
    ensures forall d :: 0 <= d < 4 && Adjacent(c)[d].Some? ==>
      var n := Adjacent(c)[d].value;
      (if n.x < c.x then c.x - n.x else n.x - c.x) + (if n.y < c.y then c.y - n.y else n.y - c.y) == 1
  {
  }

  /** Being neighbours is symmetric: the neighbour's opposite neighbour is the cell itself. */
  lemma AdjacentSymmetric(c: Coordinate, d: nat, n: Coordinate)
    requires d < 4 && Adjacent(c)[d] == Some(n)
    ensures Adjacent(n)[Opposite(d)] == Some(c)
  {
  }

  /** `Add for Cordinate` panics on overflow in a debug build, so callers must stay in range. */
  predicate CanAdd(a: Coordinate, b: Coordinate)
  {
    a.x + b.x <= MaxU16 && a.y + b.y <= MaxU16
  }

  /** `Add for Cordinate`: component-wise `u16` sum. */
  function Add(a: Coordinate, b: Coordinate): (r: Coordinate)
    requires CanAdd(a, b)
    ensures a.x <= r.x && a.y <= r.y && Sub(r, a) == b
    ensures b.x <= r.x && b.y <= r.y && Sub(r, b) == a
  {
    Coordinate(a.x + b.x, a.y + b.y)
  }

  /** `Sub for Cordinate`: component-wise `u16` difference; it panics below zero. */
  function Sub(a: Coordinate, b: Coordinate): (r: Coordinate)
    requires b.x <= a.x && b.y <= a.y
    ensures r.x <= a.x && r.y <= a.y
    ensures r.x + b.x == a.x && r.y + b.y == a.y
  {
    Coordinate(a.x - b.x, a.y - b.y)
  }

  /** Subtracting what was added gives back the original; addition is order-independent. */
  lemma AddSubInverse(a: Coordinate, b: Coordinate)
    requires CanAdd(a, b)
    ensures CanAdd(b, a) && Add(a, b) == Add(b, a)
    ensures Sub(Add(a, b), b) == a
    ensures Sub(Add(a, b), a) == b
  {
  }
}
