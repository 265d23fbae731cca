/** Values that several components share. */
module Values {

  datatype Option<T> = None | Some(value: T)

  type byte = x: int | 0 <= x < 256

  type bytes = seq<byte>

  function Zeros(n: nat): bytes
  {
    seq(n, _ => 0)
  }
}
