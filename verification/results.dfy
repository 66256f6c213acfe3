/** Failure-carrying values shared by every module of the model.
    The source signals failure by raising Python exceptions; here each
    exception the core can raise becomes an `Error` value. */
module Results {

  /** A value that may be absent (Python's `None`). */
  datatype Option<+T> = None | Some(value: T)

  /** The exceptions the modelled operations can raise. */
  datatype Error =
    | UnknownRelation        // collect_user_id: relation type other than followers/friends
    | NameError(name: string) // a reference to a variable that is not defined
    | KeyError(key: string)   // a dictionary lookup of a missing key
    | RemoteError             // a failed call to the remote API

  /** Either a computed value or the exception that aborted the computation. */
  datatype Result<+T> = Ok(value: T) | Err(error: Error)
}
