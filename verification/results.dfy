/** Outcomes shared by the scone_cli library, the two policy managers and the otpqr tool. */
module Results {

  /** A Rust `Result<T, String>`-like return value. `Panic` stands for an
      `expect` or `unwrap` that aborts the whole process instead of returning. */
  datatype Result<+T> = Ok(value: T) | Err(error: Failure) | Panic(reason: Failure)

  datatype Option<+T> = None | Some(value: T)

  /** The ways in which the modelled operations fail, one per message the
      program returns or aborts with; `Message` gives each one's text. */
  datatype Failure =
    // create_session
    | ReadingSession | TemplateIncorrect | CreateFailed | RenderingTemplate
    // check_mrenclave and read_state
    | MrEnclaveFailed | Deserialization | CannotDeserialize(filename: string)
    // read_policies
    | NamespacePolicy | AdminPolicy
    // create_command
    | MrenclaveMissing | CreatingNamespace | CreatingSession | CreatingSession2
    // otpqr
    | EnvUndefined(variable: string) | AlreadyExists(marker: string)
    | CreateFileFailed(file: string, why: string) | SyncFailed(file: string, why: string)
    | Unwrapped(why: string)

  /** The text the program prints or aborts with. */
  function Message(f: Failure): string
  {
    match f
    case ReadingSession => "Error reading session."
    case TemplateIncorrect => "Session template seems to be incorrect"
    case CreateFailed => "failed to create session."
    case RenderingTemplate => "error rendering template"
    case MrEnclaveFailed => "Failed to determine MrEnclave"
    case Deserialization => "deserialization"
    case CannotDeserialize(filename) => "Cannot deserialize '" + filename + "'"
    case NamespacePolicy => "namespace policy"
    case AdminPolicy => "admin policy"
    case MrenclaveMissing => "Failed to determine MRENCLAVE. Does image exist?"
    case CreatingNamespace => "Creating namespace"
    case CreatingSession => "Creating session"
    case CreatingSession2 => "Creating session2"
    case EnvUndefined(variable) => "environment variable " + variable + " not defined"
    case AlreadyExists(marker) => "OTP_SINGLE_USE (=" + marker + ") already exists!"
    case CreateFileFailed(file, why) => "Failed to create file " + file + ": Error " + why
    case SyncFailed(file, why) => "Failed to sync file " + file + ": Error " + why
    case Unwrapped(why) => "called `Result::unwrap()` on an `Err` value: " + why
  }
}
