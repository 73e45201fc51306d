/** The result types every other module answers with. */
module Base {

  datatype Option<+T> = None | Some(value: T)

  /** The kinds of refusal the keystore distinguishes. Its messages are not modelled. */
  datatype Error =
    | NotFound
    | InvalidAddress
    | InvalidKey
    | InvalidParams
    | Refused
    | Corrupt
    | VaultError
    | SigningError
    | IoError

  datatype Result<+T> = Ok(value: T) | Err(error: Error) {
    predicate IsFailure() {
      Err?
    }

    function PropagateFailure<U>(): Result<U>
      requires Err?
    {
      Err(error)
    }

    function Extract(): T
      requires Ok?
    {
      value
    }
  }
}
