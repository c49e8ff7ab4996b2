/** Small helpers shared by the modules of the model. */
module Base {

  /** A value that may be absent; used for Go's `error` results (None is `nil`). */
  datatype Option<+T> = None | Some(value: T)

  function Min(a: nat, b: nat): (m: nat)
    ensures m <= a && m <= b
    ensures m == a || m == b
  {
    if a <= b then a else b
  }
}
