/**
 * The part of the Designer API host (`webflow`) that the shade generator
 * touches, as values: variable values, variable handles, notifications, and
 * the two host behaviours the model takes as given (bindings and refusals).
 */
module Host {
  import opened Wrappers
  import opened ApiErrors

  /** A color variable's value: a literal color, another variable, or a custom expression. */
  datatype Value = Literal(color: string) | Alias(target: Variable) | Custom(expression: string)

  /** A variable, identified by its collection and its name (unique in that collection). */
  datatype Variable = Variable(collectionId: string, name: string)

  datatype NoticeKind = Info | Warning | Error | Success

  /** One call of `webflow.notify`. */
  datatype Notice = Notice(kind: NoticeKind, message: string)

  /**
   * `variable.getBinding()`: the host's text for a reference to the variable,
   * or null. Which variables have one, and its text, are host behaviour.
   */
  function Binding(bindings: map<Variable, string>, v: Variable): Option<string> {
    if v in bindings then Some(bindings[v]) else None
  }

  /** The error the host raises for a name already used in the collection. */
  const DuplicateError := HostError(Some("DuplicateValue"), None)

  /**
   * What `collection.createColorVariable(name, value)` throws, if anything:
   * the duplicate-name error when the collection already has a variable of
   * that name, else the host's own refusal (permissions, branch, ...) if it
   * has one for it.
   */
  function CreationError(vars: map<Variable, Value>, refusals: map<Variable, HostError>, v: Variable): (e: Option<HostError>)
    ensures v in vars ==> e == Some(DuplicateError)
    ensures e.None? <==> v !in vars && v !in refusals
  {
    if v in vars then Some(DuplicateError)
    else if v in refusals then Some(refusals[v])
    else None
  }

  /** The notice `createVariable` shows after a successful creation. */
  function CreatedNotice(typeName: string, name: string): Notice {
    Notice(Success, typeName + " variable \"" + name + "\" created.")
  }

  /** The warning `getVariableCollectionById` shows for an id that resolves to nothing. */
  function CollectionNotFoundNotice(collectionId: string): Notice {
    Notice(Warning, "Collection with ID " + collectionId + " not found.")
  }

  /** The error `createVariable` shows when it is given no collection. */
  const NoCollectionNotice := Notice(Error, "A valid collection is required to create a variable.")
}
