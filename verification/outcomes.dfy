/** Failure-carrying datatypes shared by every module of the model.

  - Option<T> models a Java reference that may be null.
  - Future<T> models how a CompletableFuture ends once the asynchronous work
    has been run to completion: it completed normally, it completed
    exceptionally, or it never completes at all.
 */
module Outcomes {

  datatype Option<+T> = None | Some(value: T) {

    /** The wrapped value, or `default` when there is none. */
    function GetOr(default: T): T {
      match this
      case Some(v) => v
      case None => default
    }
  }

  datatype Future<+T> =
    | Done(value: T)   // completed normally with `value`
    | Failed           // completed exceptionally
    | Pending          // the completing callback never runs
  {

    /** `thenApply`: a normal completion is transformed, the others propagate. */
    function Map<U>(g: T -> U): (r: Future<U>)
      ensures r.Done? <==> Done?
      ensures Done? ==> r.value == g(value)
      ensures Failed? <==> r.Failed?
    {
      match this
      case Done(v) => Done(g(v))
      case Failed => Failed
      case Pending => Pending
    }
  }
}
