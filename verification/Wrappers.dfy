/** Result and option values used in place of the program's early error returns. */
module Wrappers {

  datatype Option<+T> = None | Some(value: T) {
    predicate IsFailure() {
      None?
    }

    function PropagateFailure<U>(): Option<U>
      requires None?
    {
      None
    }

    function Extract(): T
      requires Some?
    {
      value
    }

    /** An absent value becomes the given error. */
    function OkOr<E>(error: E): Result<T, E> {
      if Some? then Ok(value) else Err(error)
    }
  }

  datatype Result<+T, +E> = Ok(value: T) | Err(error: E) {
    predicate IsFailure() {
      Err?
    }

    function PropagateFailure<U>(): Result<U, E>
      requires Err?
    {
      Err(error)
    }

    function Extract(): T
      requires Ok?
    {
      value
    }
  }
}

/** Machine integers of the on-chain program: every stored quantity is a `u64`. */
module Words {
  import opened Wrappers

  const TWO_64 := 0x1_0000_0000_0000_0000

  type U64 = n: nat | n < TWO_64

  function CheckedAdd(a: U64, b: U64): Option<U64> {
    if a + b < TWO_64 then Some(a + b) else None
  }

  function CheckedSub(a: U64, b: U64): Option<U64> {
    if b <= a then Some(a - b) else None
  }

  function Product(a: nat, b: nat): nat {
    a * b
  }

  function CheckedMul(a: U64, b: U64): Option<U64> {
    var product := Product(a, b);
    if product < TWO_64 then Some(product) else None
  }
}
