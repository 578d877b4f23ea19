/**
 * Failure-carrying values shared by every module of the model. Each
 * exception the Python code raises or lets escape becomes an `Error` value.
 */
module Results {

  datatype Option<+T> = None | Some(value: T)

  /** The exceptional outcomes of the modelled code. */
  datatype Error =
    | PreviewMismatch        // PreviewMismatchError from a pre-release bump
    | InvalidCommand         // ValueError: "<action> is not a valid command"
    | InvalidOption          // ValueError: "<option> is not a valid option"
    | NoOptionTable          // AttributeError: a command without options asked for one
    | NotATable              // AttributeError/TypeError: a key path runs through a non-table value
    | NotAContainer          // `in` applied to a manifest value that supports no membership test
    | InvalidPath            // TypeError: tool.pdm.version.path is missing or not a string
    | NoDynamicSource        // ValueError: "Only pdm-pep517 `file` types are supported."
    | FileNotFound           // the version file cannot be opened
    | VersionNotFound        // ValueError: the pattern does not match the file
    | VersionParse           // VersionParserError from Version.from_string
    | NotAString             // TypeError: project.version is not a string
    | NoCurrentValue         // ValueError: "No current value set"
    | MissingAttribute       // AttributeError: the code reads an attribute that does not exist
    | UndefinedName          // NameError: the code calls a name that is not defined

  datatype Result<+T> = Ok(value: T) | Err(error: Error)

  /** A result without a value, for operations that only have an effect. */
  datatype Outcome = Pass | Fail(error: Error)
}
