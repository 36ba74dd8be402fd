/** Optional values, the exceptions the modelled Java code can raise, and a
    Result type that carries either a value or one of those exceptions. */
module Outcomes {

  /** A Java reference that may be null. */
  datatype Option<+T> = None | Some(value: T)

  /** The exceptions raised (and not swallowed) by the modelled operations.
      Spring's `Assert` raises `IllegalArgumentException`; each assertion of
      the source is given its own constructor so that contracts can say which
      check failed. */
  datatype Error =
    | PrimaryKeyNull       // a primary-key field holds null
    | NoPrimaryKey         // the type has no primary-key field
    | ClassNull            // no explicit key and no class to take it from
    | NullPointer          // a null reference was dereferenced
    | SizeMismatch         // key and value lists differ in length
    | SplitFailed          // a hash field name splits into no parts
    | IndexOutOfBounds     // a substring bound is out of range
    | NotSinglePrimaryKey  // scalar primary key for a type with several
    | ClassNotFound        // a stored class name is not a known type
    | ClassCast            // a stored value has an unexpected type
    | BadPropertyName      // an accessor name without is/get/set

  /** Either a value or the exception that replaced it. */
  datatype Result<+T> = Ok(value: T) | Err(error: Error) {

    predicate IsFailure() {
      Err?
    }

    function PropagateFailure<U>(): Result<U>
      requires Err?
    {
      Err(error)
    }

    function Extract(): T
      requires Ok?
    {
      value
    }
  }
}
