/** Datatypes and arithmetic shared by the models. */
module Common {

  datatype Option<+T> = None | Some(value: T)

  datatype Result<+R, +E> = Success(value: R) | Failure(error: E)

  function Power2(n: nat): nat { if n == 0 then 1 else 2 * Power2(n - 1) }
}
