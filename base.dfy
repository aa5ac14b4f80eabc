/** Bytes, optional values and the error outcomes shared by every part of the codec. */
module Base {

  /** One octet of a capture. */
  newtype u8 = b: int | 0 <= b < 256

  datatype Option<+T> = None | Some(value: T)

  /** The failures a Radiotap operation reports (the I/O variant is not modelled). */
  datatype Error =
    | IncompleteError     // a field the header promised runs past the governed region
    | InvalidLength       // the header declares more bytes than were supplied
    | InvalidFormat       // a field codec cannot make sense of its bytes
    | UnsupportedVersion  // the header's version is not 0
    | UnsupportedField    // a presence bit with no known field

  datatype Result<+T> = Ok(value: T) | Err(error: Error) {
    predicate IsFailure() { Err? }

    function PropagateFailure<U>(): Result<U>
      requires Err?
    {
      Err(error)
    }

    function Extract(): T
      requires Ok?
    {
      value
    }
  }

  /** `n` zero bytes: the padding a writer emits before an aligned field. */
  function Zeros(n: nat): seq<u8> {
    seq(n, _ => 0)
  }
}
