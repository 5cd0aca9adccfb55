/** The optional value used wherever the source throws or returns null. */
module Options {
  datatype Option<+T> = None | Some(value: T) {
    predicate IsFailure() {
      None?
    }

    function PropagateFailure<U>(): Option<U>
      requires None?
    {
      None
    }

    function Extract(): T
      requires Some?
    {
      value
    }
  }

  /** A guard that throws: `:- Need(condition);` goes on only when the condition holds. */
  datatype Guard = Pass | Refuse {
    predicate IsFailure() {
      Refuse?
    }

    function PropagateFailure<U>(): Option<U>
      requires Refuse?
    {
      None
    }
  }

  function Need(condition: bool): Guard {
    if condition then Pass else Refuse
  }
}
