/** Failures the tools report, and the Result and Option wrappers around them. */
module Outcomes {

  datatype Error =
    /** "unknown module": the configuration has no `module:<name>` section. */
    | UnknownModule
    /** "unknown module path": the section has no `path`, or an empty one. */
    | UnknownModulePath
    /** The reference-locale directory of the module does not exist. */
    | MissingLocaleDirectory(moduleName: string, path: string)
    /** "<file> is not readable !!": the PO file to convert back cannot be read. */
    | UnreadableCatalog(path: string)
    /** The properties parser cannot open a reference file. */
    | CannotReadProperties(path: string)

  datatype Option<+T> = None | Some(value: T)

  datatype Result<+T> = Ok(value: T) | Err(error: Error) {
    predicate IsFailure() { Err? }

    function PropagateFailure<U>(): Result<U>
      requires Err?
    {
      Err(error)
    }

    function Extract(): T
      requires Ok?
    {
      value
    }
  }
}
