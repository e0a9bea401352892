/**
 * What the wrapper sees of its collaborators: the driver's messages, the
 * command-family resolvers' typed responses, the commands the family
 * libraries construct, and the lookups of the driver, the message accessors and
 * the NDEF codec, each an abstract function the wrapper only calls.
 */
module Tcmp {
  import opened Js
  import opened Wrappers

  /** A protocol message: command family, command code and payload. */
  datatype Message = Message(commandFamily: seq<byte>, commandCode: byte, payload: seq<byte>)

  /** An error object thrown by a library call or by the resolver mux. */
  datatype Error = Error(message: string)

  /** The driver's description of a tag type (`Tappy.resolveTagType`); not modelled. */
  type TagType

  /** A message the NDEF codec parsed (`Ndef.Message.fromBytes`); not modelled. */
  type NdefMessage

  /**
   * The resolved response kinds the wrapper tells apart, closed. `Other` stands
   * for every response type it does not handle (a ping reply, say).
   */
  datatype Response =
    | TagFound
    | TagWritten
    | NdefFound
    | TagLocked
    | ApplicationError(errorMessage: string)
    | LcsMismatch
    | LengthMismatch
    | ImproperMessageFormat
    | CrcMismatch
    | SystemError(errorMessage: string)
    | Other

  /** `NfcFamily.PollingModes.GENERAL`, the one polling mode the wrapper uses. */
  datatype PollingMode = General

  /** What `Ndef.Utils.resolveUriToPrefix` returns. */
  datatype UriPrefix = UriPrefix(content: string, prefixCode: byte)

  /**
   * The commands the convenience senders construct, with the arguments they pass
   * to each constructor; `Raw` is any message handed to `sendMessage` directly.
   */
  datatype Command =
    | ScanTag(timeout: byte, pollingMode: PollingMode)
    | StreamTags(timeout: byte, pollingMode: PollingMode)
    | ScanNdef(timeout: byte, pollingMode: PollingMode)
    | StreamNdef(timeout: byte, pollingMode: PollingMode)
    | WriteNdefUri(timeout: byte, lockFlag: bool, uri: string, uriCode: byte)
    | WriteNdefText(timeout: byte, lockFlag: bool, text: string)
    | WriteNdefCustom(timeout: byte, lockFlag: bool, ndef: JsValue)
    | LockTag(timeout: byte, tagCode: JsValue)
    | Stop
    | Raw(message: Message)

  /** What a resolver's `resolveCommand`/`resolveResponse` comes to: it throws, returns null, or returns a value. */
  datatype Resolution<+T> = Threw(error: Error) | ReturnedNull | Returned(value: T)

  /** A command-family resolver (`NfcFamily.Resolver`, `SystemFamily.Resolver`). */
  datatype Resolver = Resolver(
    checkFamily: Message -> bool,
    resolveCommand: Message -> Resolution<Command>,
    resolveResponse: Message -> Resolution<Response>)

  /** The values of `Tappy.ErrorType` the error listener names. */
  datatype ErrorCodes = ErrorCodes(notConnected: int, connectionError: int, invalidHdlc: int, invalidTcmp: int)

  /**
   * The rest of the libraries: the accessors the message listener calls on the
   * raw message, the driver's tag-type table, the NDEF parser (which throws on
   * malformed bytes), the URI prefix splitter and the driver's error codes.
   */
  datatype Libraries = Libraries(
    getTagType: Message -> int,
    getTagCode: Message -> seq<byte>,
    getMessage: Message -> seq<byte>,
    resolveTagType: int -> TagType,
    parseNdef: seq<byte> -> Result<NdefMessage, Error>,
    resolveUriToPrefix: string -> UriPrefix,
    errorTypes: ErrorCodes)
}
