/** A symbolic stand-in for the differentiation engine's expression objects.
    Only the structure the scope builds is kept: which raw input slots an
    expression reads, in which order, and what kind of value it yields. */
module Expression {
  import opened Outcomes

  /** The value an expression yields; also the key of the four name registries. */
  datatype Sort = DoubleSort | VectorSort | RotationSort | FrameSort

  datatype Term =
    | Input(slot: nat)                          // the raw input at one flat index
    | Vec(x: Term, y: Term, z: Term)            // a vector from three scalars
    | RotVec(axis: Term, angle: Term)           // a rotation from an axis vector and an angle
    | FrameOf(rotation: Term, position: Term)   // a frame from a rotation and a position
    | Stored(id: nat, sort: Sort)               // an expression built elsewhere, known by identity only

  /** The sort of a well-typed term, or None when a constructor gets the wrong kind of argument. */
  function SortOf(e: Term): Option<Sort> {
    match e
    case Input(_) => Some(DoubleSort)
    case Vec(x, y, z) =>
      if SortOf(x) == Some(DoubleSort) && SortOf(y) == Some(DoubleSort) && SortOf(z) == Some(DoubleSort)
      then Some(VectorSort) else None
    case RotVec(axis, angle) =>
      if SortOf(axis) == Some(VectorSort) && SortOf(angle) == Some(DoubleSort)
      then Some(RotationSort) else None
    case FrameOf(rotation, position) =>
      if SortOf(rotation) == Some(RotationSort) && SortOf(position) == Some(VectorSort)
      then Some(FrameSort) else None
    case Stored(_, s) => Some(s)
  }

  /** The raw input slots a term reads directly, left to right. */
  function Slots(e: Term): seq<nat> {
    match e
    case Input(i) => [i]
    case Vec(x, y, z) => Slots(x) + Slots(y) + Slots(z)
    case RotVec(axis, angle) => Slots(axis) + Slots(angle)
    case FrameOf(rotation, position) => Slots(rotation) + Slots(position)
    case Stored(_, _) => []
  }

  /** The contiguous slots start, start + 1, ..., start + width - 1. */
  function Block(start: nat, width: nat): seq<nat> {
    seq(width, k requires 0 <= k < width => start + k)
  }

  /** Two adjacent blocks make one block. */
  lemma BlockSplit(start: nat, m: nat, n: nat)
    ensures Block(start, m) + Block(start + m, n) == Block(start, m + n)
  {
  }
}
