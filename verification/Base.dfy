/** Shared vocabulary: octets, optional values and the outcomes of the decoders. */
module Base {
  type byte = n: nat | n < 256

  type Bytes = seq<byte>

  datatype Option<+T> = None | Some(value: T)

  // One constructor for each reason the wire decoders give for refusing an input.
  datatype Error =
    | Truncated
    | InvalidHeader
    | InvalidMessageLength
    | InvalidOpen
    | InvalidPrefixLength
    | InvalidPrefix
    | InvalidFlowSpecPrefix
    | BadAttribute
    | InvalidAsnWidth

  datatype Result<+T> = Ok(value: T) | Err(error: Error) {
    predicate IsFailure() {
      Err?
    }

    function PropagateFailure<U>(): Result<U>
      requires Err?
    {
      Err(error)
    }

    function Extract(): T
      requires Ok?
    {
      value
    }
  }
}
