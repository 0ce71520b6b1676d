/** Values shared by every layer: C integers and doubles, status codes and the
    problem data model of types.h. */
module Types {
  const INT_MAX := 0x7fff_ffff
  const INT_MIN := -0x8000_0000

  /** "No placement matched": the identity of every minimum below. */
  const NO_PLACEMENT := INT_MAX

  /** The largest side whose square is a 32-bit int. */
  const MAX_SIDE := 46340

  /** The conversion `(int)x` of a 32-bit two's-complement machine. */
  function ToInt32(x: int): (r: int)
    ensures INT_MIN <= r <= INT_MAX
    ensures INT_MIN <= x <= INT_MAX <==> r == x
    ensures INT_MAX < x ==> r < x
  {
    (x - INT_MIN) % 0x1_0000_0000 + INT_MIN
  }

  /** Narrowing keeps the value modulo the width of the type. */
  lemma NarrowingWraps(x: int)
    ensures (ToInt32(x) - x) % 0x1_0000_0000 == 0
  {
    var q := (x - INT_MIN) / 0x1_0000_0000;
    assert ToInt32(x) - x == -q * 0x1_0000_0000;
  }

  /** A C double up to rounding: which finite values exist is left open. */
  datatype Double = NaN | NegInf | Finite(v: real) | PosInf

  /** C's `a < b`: false as soon as one side is not a number. */
  predicate Less(a: Double, b: Double) {
    match (a, b)
    case (NaN, _) => false
    case (_, NaN) => false
    case (Finite(x), Finite(y)) => x < y
    case (NegInf, _) => b != NegInf
    case (_, PosInf) => a != PosInf
    case _ => false
  }

  /** C's `a >= b`. */
  predicate AtLeast(a: Double, b: Double) {
    a != NaN && b != NaN && !Less(a, b)
  }

  const ZERO := Finite(0.0)

  predicate NonNegative(d: Double) { AtLeast(d, ZERO) }

  predicate Positive(d: Double) { Less(ZERO, d) }

  datatype Status = Ok | ErrIo | ErrParse | ErrInvalid | ErrNoMem | ErrBackend | ErrUnavailable

  /** The haystack: an n x n row-major matrix. */
  datatype Picture = Picture(id: int, n: int, data: seq<int>) {
    predicate Complete() { 1 <= n <= MAX_SIDE && |data| == n * n }
  }

  /** The needle: an m x m row-major matrix. */
  datatype Object = Object(id: int, m: int, data: seq<int>) {
    predicate Complete() { 1 <= m <= MAX_SIDE && |data| == m * m }
  }

  datatype Problem = Problem(threshold: Double, pictures: seq<Picture>, objects: seq<Object>)

  datatype Match = Match(pictureId: int, objectId: int, row: int, col: int)

  function MatchNone(pictureId: int): Match { Match(pictureId, -1, -1, -1) }

  /** msearch_match_found: the sign of the object id is all it looks at. */
  predicate MatchFound(m: Match) { m.objectId >= 0 }

  datatype Option<+T> = None | Some(value: T)

  datatype Result<+T> = Success(value: T) | Failure(status: Status) {
    predicate IsFailure() { Failure? }
    function PropagateFailure<U>(): Result<U>
      requires Failure?
    {
      Failure(status)
    }
    function Extract(): T
      requires Success?
    {
      value
    }
  }
}
