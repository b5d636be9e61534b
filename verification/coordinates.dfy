/** The point record of the benchmark: an immutable pair of coordinates.
    IEEE doubles are modelled as reals, so NaN and signed zeros do not exist here. */
module Coordinates {

  datatype Coordinate = Coordinate(X: real, Y: real)
  {
    /** IEquatable<Coordinate>.Equals: both fields compare equal. This is the
        relation under which the debug driver checks the reducers against each other. */
    function Equals(other: Coordinate): (eq: bool)
      ensures eq <==> this == other
    {
      X == other.X && Y == other.Y
    }
  }
}
