/** Small shared definitions: an optional value, bytes, and integer minimum. */
module Common {

  datatype Option<+T> = None | Some(value: T)

  /** One byte of a file, as Python's `bytes` holds it. */
  type Byte = b: int | 0 <= b < 256

  function Min(a: int, b: int): (m: int)
    ensures m <= a && m <= b && (m == a || m == b)
  {
    if a <= b then a else b
  }

  /** The part of a stop budget left after `polls` polls have been spent (never negative). */
  function Since(budget: nat, polls: nat): (left: nat)
    ensures polls + left >= budget
    ensures polls < budget ==> polls + left == budget
  {
    if polls <= budget then budget - polls else 0
  }
}
