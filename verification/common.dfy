/**
 * Shared vocabulary of the model: optional values, Python exceptions as
 * error values, and the command/data transfers an e-Paper driver puts on
 * its SPI bus.
 */
module Common {

  /** Python's `Optional[T]`: `None` or a present value. */
  datatype Option<T> = None | Some(value: T)

  /** The Python exception classes the modelled code raises. */
  datatype PyError = ValueError | KeyError | TypeError | IndexError | AttributeError

  /** A call that either returns a value or raises one of `PyError`. */
  datatype Result<T> = Ok(value: T) | Err(error: PyError) {
    predicate IsFailure() {
      Err?
    }

    function PropagateFailure<U>(): Result<U>
      requires Err?
    {
      Err(error)
    }

    function Extract(): T
      requires Ok?
    {
      value
    }
  }

  /** One transfer on a display's SPI bus: `send_command(b)` or `send_data(b)`. */
  datatype Wire = Cmd(command: bv8) | Data(data: bv8)

  /** `n` copies of `x`, as `[x] * n` builds them. */
  function Repeat<T>(x: T, n: nat): (r: seq<T>)
    ensures |r| == n
    ensures forall i :: 0 <= i < n ==> r[i] == x
  {
    seq(n, _ => x)
  }

  /** The data transfers of `for b in bytes: send_data(b)`. */
  function DataOf(bytes: seq<bv8>): (r: seq<Wire>)
    ensures |r| == |bytes|
    ensures forall i :: 0 <= i < |bytes| ==> r[i] == Data(bytes[i])
  {
    seq(|bytes|, i requires 0 <= i < |bytes| => Data(bytes[i]))
  }
}
