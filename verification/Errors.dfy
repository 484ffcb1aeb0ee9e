/** The error values of the decoding stack. */
module Errors {

  datatype Option<T> = None | Some(value: T)
  {
    predicate IsFailure() {
      None?
    }

    function PropagateFailure<U>(): Option<U>
      requires None?
    {
      None
    }

    function Extract(): T
      requires Some?
    {
      value
    }
  }

  /** Errors of the byte readers. `Cut` marks the point where a run of the model is cut off. */
  datatype IoError = NativeUnsigned(ret: nat) | UnexpectedEof | Unimplemented | Unknown | Cut

  datatype TlvType = String | Boolean | Integer | Unsigned | List | Other(raw: nat)

  datatype Error =
    | UnexpectedTlv(ty: TlvType, len: nat)
    | ShortTlvLength(len: nat)
    | MidMessageEndMarker(remaining: nat)
    | MultibyteTlvReservedType(raw: nat)
    | TlvLengthTooBig
    | EndOfSmlMessage
    | UnsupportedTlvType(raw: nat)
    | UnexpectedValue
    | UnsupportedLen(len: nat)
    | EndOfList
    | ChecksumMismatch(rec: nat, computed: nat)
    | UnsupportedTag(tag: nat)
    | WrongBufferSize
    | NoneTlv
    | CantParseTwice
    | Io(error: IoError)
    | TryFromIntError

  datatype Result<T> = Ok(value: T) | Err(error: Error)
  {
    predicate IsFailure() {
      Err?
    }

    function PropagateFailure<U>(): Result<U>
      requires Err?
    {
      Err(error)
    }

    function Extract(): T
      requires Ok?
    {
      value
    }
  }
}
