/** Small shared datatypes: optional values, results with an error, bytes. */
module Common {

  datatype Option<+T> = None | Some(value: T)

  datatype Result<+T, +E> = Ok(value: T) | Err(error: E)

  /** A JavaScript number where NaN matters: a real value or NaN. */
  datatype Num = NaN | Val(v: real)

  /** An unsigned 8-bit value, as stored in a Uint8Array. */
  type byte = x: int | 0 <= x < 256

  /** Exact power of two for any integer exponent. */
  function Pow2(k: int): (r: real)
    ensures r > 0.0
    decreases if k < 0 then -k else k
  {
    if k == 0 then 1.0
    else if k > 0 then 2.0 * Pow2(k - 1)
    else Pow2(k + 1) / 2.0
  }

  /** Integer power of two, used for termination weights. */
  function IPow2(k: nat): (r: nat)
    ensures r >= 1
  {
    if k == 0 then 1 else 2 * IPow2(k - 1)
  }
}
