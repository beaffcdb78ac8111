/** The two enumerations of vector.h, and an Option type standing for a
    C pointer that may be NULL. */
module VecTypes {

  /** Result code written by every fallible operation (vec_err). */
  datatype VecErr =
    | NoErr
    | AllocErr
    | ReallocErr
    | NullVecErr
    | IllegalDelErr
    | IllegalAccessErr      // `illegal_acces_err` in the C source
    | IndexOutOfBoundsErr

  /** Result of a comparator (CmpState): inf = -1, eq = 0, sup = 1. */
  datatype CmpState = Inf | Eq | Sup {

    /** The integer value the C enumerator carries. */
    function Value(): (r: int)
      ensures -1 <= r <= 1
      ensures r <= 0 <==> !Sup?
      ensures r == 0 <==> Eq?
    {
      match this
      case Inf => -1
      case Eq => 0
      case Sup => 1
    }

    /** The answer of the comparator with its arguments swapped. */
    function Flip(): (r: CmpState)
      ensures r.Value() == -Value()
    {
      match this
      case Inf => Sup
      case Eq => Eq
      case Sup => Inf
    }
  }

  /** An element copy handed back to the caller, or NULL. */
  datatype Option<T> = None | Some(value: T)
}
