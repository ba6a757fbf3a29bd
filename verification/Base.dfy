/** Types shared by the models: optional columns, instants and row identifiers. */
module Base {

  // An instant of the one clock that the application and the database share, in seconds.
  type Time = int

  // Row identifiers are compared by `order by ... id`, so they are ordered numbers here.
  type Id = nat

  type Byte = b: int | 0 <= b < 256

  /** A nullable column. */
  datatype Option<+T> = None | Some(value: T)

  /** SQL `coalesce(a, b)` where `b` is never null. */
  function Coalesce<T>(a: Option<T>, b: T): T {
    match a
    case None => b
    case Some(v) => v
  }

  /** A column keeps what it holds and takes the given value only when it is null. */
  function First<T>(kept: Option<T>, given: T): Option<T> {
    match kept
    case Some(x) => Some(x)
    case None => Some(given)
  }

  lemma {:induction false} SubsetSize<T>(a: set<T>, b: set<T>)
    requires a <= b
    ensures |a| <= |b|
  {
    if x :| x in a {
      SubsetSize(a - {x}, b - {x});
    }
  }
}
