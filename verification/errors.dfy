/** Failure-carrying wrappers shared by every module: the Python exceptions the
    core raises become `Error` values, and an operation that may raise returns a
    `Result`, or an `Outcome` when the state it leaves behind matters. */
module Errors {

  datatype Option<+T> = None | Some(value: T)

  /** A file-system path as its sequence of segments. */
  type Path = seq<string>

  /** Why a `ValueError` was raised. */
  datatype ValueReason =
    | NotNextCoordinate        // a location coordinate set out of order
    | NotInTypeOrder           // `list.index` of a node type absent from the table
    | BadSliceForm             // slice with a start, or without a stop
    | InvalidKey               // location indexed by a value of no accepted type
    | IdMismatch               // scope coordinate differs from the node id
    | ScopeLength              // scope has the wrong length for the node type
    | IdBeyondNext             // list store at a gap index
    | NotOrderedDict           // map node given a non-map sublocation
    | NotList                  // list node given a non-list sublocation
    | NonStringKey             // map node with a key that is not a string
    | WrongChildType           // map node holding a child of the wrong type
    | InvalidJson(text: string, path: Path, listing: seq<string>)  // content, path, folder listing
    | NotAnInteger(text: string)
    | RefitDisabled
    | InMemoryWithWorkers
    | NoWorkers

  datatype Error =
    | KeyError
    | ValueError(reason: ValueReason)
    | TypeError
    | IndexError
    | AttributeError
    | AssertionError

  datatype Result<+T> = Ok(value: T) | Err(error: Error) {

    predicate IsFailure() {
      Err?
    }

    function PropagateFailure<U>(): Result<U>
      requires Err?
    {
      Err(error)
    }

    function Extract(): T
      requires Ok?
    {
      value
    }
  }

  /** The state an operation leaves behind, and the exception it raised if any.
      Python mutates in place, so a raise does not undo earlier writes. */
  datatype Outcome<+S> = Done(state: S) | Raised(state: S, error: Error)
}
