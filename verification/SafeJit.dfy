/** What every architecture's relocator returns. */
module SafeJit {
  import opened Bytes

  /** The errors returned, and `IndexOutOfBounds` where the code panics instead. */
  datatype JitError =
    | InvalidInstruction
    | UnsupportedInstruction
    | UnsupportedControlFlow
    | NoAvailableRegister
    | EncodingError
    | NoThunkAsm
    | IndexOutOfBounds

  datatype Result<+T> = Ok(value: T) | Err(error: JitError)

  datatype RelocThunk = RelocThunk(thunk: seq<Byte>, magicOffset: nat)
}
