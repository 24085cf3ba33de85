/** A cell of the square grid. */
module Locations {

  /** A cell coordinate; a value type that is compared field by field and copied on every store. */
  datatype Location = Location(x: int, y: int)

  function Abs(n: int): nat {
    if n < 0 then -n else n
  }

  /** `a` and `b` are distinct cells one king's move apart. */
  predicate Adjacent(a: Location, b: Location) {
    a != b && -1 <= b.x - a.x <= 1 && -1 <= b.y - a.y <= 1
  }

  /** The cell `d` away from `a`. */
  function Shift(a: Location, d: Location): Location {
    Location(a.x + d.x, a.y + d.y)
  }

  lemma AdjacentSymmetric(a: Location, b: Location)
    ensures Adjacent(a, b) <==> Adjacent(b, a)
  {
  }
}
