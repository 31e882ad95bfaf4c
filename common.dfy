/** Outcome types shared by every operation of the note service. */
module Common {

  /** The conditions the service reports to its caller instead of performing an operation. */
  datatype Failure =
    | BlankPath
    | BlankDate
    | BlankTaskText
    | BlankFilePath
    | BlankTitle
    | BlankContent
    | InvalidStatus
    | InvalidDate
    | DateOutOfRange
    | FileNotFound
    | DailyNotFound
    | OutsideVault
    | TaskNotFound
    | SectionNotFound
    | MalformedSection
    | NoTasksInSection
    | DailiesFolder
    | FolderOutsideVault
    | FolderCreateFailed
    | NoteExists
    | WriteFailed

  datatype Option<+T> = None | Some(value: T)

  /** Either a value or the failure that replaced it; usable with `:-`. */
  datatype Result<+T> = Ok(value: T) | Err(error: Failure) {
    predicate IsFailure() { Err? }

    function PropagateFailure<U>(): Result<U>
      requires Err?
    {
      Err(error)
    }

    function Extract(): T
      requires Ok?
    {
      value
    }
  }

  /** What the caller sees of one file on disk: whether it exists, its canonical full name, its text. */
  datatype FileView = FileView(present: bool, fullName: string, content: string)

  /** The host's path services that locate a note: `Path.IsPathRooted` and the two-argument
      `Path.Combine`. */
  datatype Paths = Paths(isRooted: string -> bool, combine: (string, string) -> string)

  /** A whole-file write the operation asks for. */
  datatype Written = Written(path: string, content: string)
}
