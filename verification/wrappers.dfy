/** Failure-carrying values shared by every module of the model.

    The Rust code returns `Result<_, Box<dyn Error>>` whose errors are plain
    messages; `Err` carries that message. A `panic!`/`unimplemented!`/
    `unwrap()` on a bad value aborts the process instead; the model gives that
    outcome its own constructor so that it is never confused with an error
    the caller can handle. */
module Wrappers {

  datatype Option<T> = None | Some(value: T)

  datatype Result<T> = Ok(value: T) | Err(error: string) | Panic(reason: string)
  {
    predicate IsFailure() { !Ok? }

    function PropagateFailure<U>(): Result<U>
      requires IsFailure()
    {
      if Err? then Err(error) else Panic(reason)
    }

    function Extract(): T
      requires Ok?
    {
      value
    }
  }
}
