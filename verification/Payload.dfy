/** What the readers of an AppImage payload share. */
module Payload {

  datatype EntryType = REGULAR | LINK | DIR | UNKNOWN

  type Bytes = seq<char>

  /** What the payload iterator shows of one entry. */
  datatype Entry = Entry(path: string, kind: EntryType, linkTarget: string, data: Bytes)

  /** The exceptions of the modelled operations. */
  datatype Error =
    | EntryDoesNotExist(path: string)
    | NotALink(path: string)
    | LoopFound(path: string)
    | MissingDesktopEntry
    | DesktopIntegrationError
    | FileSystemError

  datatype Option<+T> = None | Some(value: T)

  datatype Result<+T> = Ok(value: T) | Err(error: Error)
}
