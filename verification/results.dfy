/** Failure-compatible wrappers shared by every pass, and the error tags a pass can raise.

    Each tag stands for one `throw` in the schema passes (or for a JavaScript TypeError that
    the code provokes by reading a property of `null`/`undefined` or lower-casing a
    non-string). The message text of the original errors is not modelled.
 */
module Results {

  datatype Option<+T> = None | Some(value: T)

  datatype SchemaError =
    | MissingIdentity
    | TopLevelAutoCreatedAt
    | TopLevelAutoUpdatedAt
    | MissingPrimaryKey
    | UnknownPrimaryKey(primaryKey: string)
    | PrimaryKeyDefault(primaryKey: string)
    | FunctionAttribute(attribute: string)
    | MissingType(attribute: string)
    | InvalidType(attribute: string)
    | RequiredNotBoolean(attribute: string)
    | UnrecognizedProperty(attribute: string, property: string)
    | InvalidAttributeName(attribute: string)
    | NullDefault(attribute: string)
    | RequiredWithDefault(attribute: string)
    | DefaultTypeMismatch(attribute: string)
    | MalformedAttributes(collection: string)
    | MissingVia(collection: string, attribute: string)
    | ViaNotFound(collection: string, attribute: string)
    | NoPrimaryKey(collection: string)
    | UnknownCollection(collection: string)
    | ThroughReferenceNotFound(collection: string, attribute: string)
    | TypeMismatch(context: string)

  /** The outcome of a pass: the transformed value, or the error that aborts the whole run. */
  datatype Result<+T> = Ok(value: T) | Err(error: SchemaError) {

    predicate IsFailure() {
      Err?
    }

    function PropagateFailure<U>(): Result<U>
      requires Err?
    {
      Err(error)
    }

    function Extract(): T
      requires Ok?
    {
      value
    }
  }
}
