/**
 * The wrapper's own decisions, as values: which topics the message listener
 * publishes for an inbound message and with which envelopes, the error
 * listener's description of a driver error code, and the command each
 * convenience sender builds from its arguments.
 */
module WrapperRules {
  import opened Js
  import opened Wrappers
  import opened Tcmp
  import opened HexCodec
  import opened Mux

  const RECEIVED: string := "received"
  const SENT: string := "sent"
  const TAG_FOUND: string := "tag_found"
  const TAG_WRITTEN: string := "tag_written"
  const NDEF_FOUND: string := "ndef_found"
  const TAG_LOCKED: string := "tag_locked"
  const ERROR_MESSAGE: string := "error_message"
  const INVALID_MESSAGE: string := "invalid_message"
  const INVALID_NDEF: string := "invalid_ndef"
  const DRIVER_ERROR: string := "driver_error"

  /**
   * The two copies of the wrapper: the source file and the built one, which
   * leaves the thrown error out of the invalid_message envelope.
   */
  datatype Build = Source | Dist

  /** The tag fields of tag_found, tag_written, tag_locked, ndef_found and invalid_ndef envelopes. */
  datatype TagFields = TagFields(tagTypeCode: int, tagType: TagType, tagCode: seq<byte>, tagCodeStr: string)

  /** The envelopes the wrapper publishes. */
  datatype Envelope =
    | Received(message: Message)
    | Sent(command: Command)
    | InvalidMessage(message: Message, error: Option<Error>)
    | TagEvent(message: Message, resolved: Response, tag: TagFields)
    | InvalidNdef(message: Message, resolved: Response, tag: TagFields, rawNdef: seq<byte>, ndefError: Error)
    | NdefEvent(message: Message, resolved: Response, tag: TagFields, rawNdef: seq<byte>, ndef: NdefMessage)
    | ErrorEvent(message: Message, resolved: Response, description: string)
    | DriverError(errorType: int, data: JsValue, description: string)

  /** One `publish(envelope, topic)` call. */
  datatype Event = Event(topic: string, envelope: Envelope)

  /** The tag fields, all read from the raw message through its accessors. */
  function TagFieldsOf(libs: Libraries, msg: Message): (t: TagFields)
    ensures t.tagTypeCode == libs.getTagType(msg) && t.tagType == libs.resolveTagType(t.tagTypeCode)
    ensures t.tagCode == libs.getTagCode(msg)
    ensures |t.tagCodeStr| == 2 * |t.tagCode|
    ensures Unhex(t.tagCodeStr) == Some(t.tagCode)
  {
    var code := libs.getTagCode(msg);
    HexDigits(code);
    UnhexHex(code);
    TagFields(libs.getTagType(msg), libs.resolveTagType(libs.getTagType(msg)), code, Hex(code))
  }

  /** The topic each response kind is meant for, as a table; None for kinds the wrapper ignores. */
  function KindTopic(r: Response): Option<string>
  {
    match r
    case TagFound => Some(TAG_FOUND)
    case TagWritten => Some(TAG_WRITTEN)
    case NdefFound => Some(NDEF_FOUND)
    case TagLocked => Some(TAG_LOCKED)
    case ApplicationError(_) => Some(ERROR_MESSAGE)
    case LcsMismatch => Some(ERROR_MESSAGE)
    case LengthMismatch => Some(ERROR_MESSAGE)
    case ImproperMessageFormat => Some(ERROR_MESSAGE)
    case CrcMismatch => Some(ERROR_MESSAGE)
    case SystemError(_) => Some(ERROR_MESSAGE)
    case Other => None
  }

  /** The description the chain gives an error response. */
  function KindDescription(r: Response): Option<string>
  {
    match r
    case ApplicationError(m) => Some(m)
    case LcsMismatch => Some("LCS Mismatch")
    case LengthMismatch => Some("Message length mismatch")
    case ImproperMessageFormat => Some("Improper message format")
    case CrcMismatch => Some("CRC mismatch")
    case SystemError(m) => Some(m)
    case _ => None
  }

  /**
   * The if/else chain over the resolved response, given the tag fields: at most
   * one event. It agrees with the table `KindTopic`: a handled kind yields one
   * event on its topic, carrying the message, the resolved response and, for the
   * tag kinds, the tag fields; an NdefFound whose bytes do not parse goes to
   * invalid_ndef instead of ndef_found; a kind the table ignores yields nothing.
   */
  function ClassifyResponse(libs: Libraries, msg: Message, resolved: Response, tag: TagFields): (r: Option<Event>)
    ensures r.Some? <==> KindTopic(resolved).Some?
    ensures r.Some? ==>
      && r.value.topic == (if resolved.NdefFound? && libs.parseNdef(libs.getMessage(msg)).Failure?
                           then INVALID_NDEF else KindTopic(resolved).value)
      && (r.value.envelope.TagEvent? || r.value.envelope.InvalidNdef? ||
          r.value.envelope.NdefEvent? || r.value.envelope.ErrorEvent?)
      && r.value.envelope.message == msg
      && r.value.envelope.resolved == resolved
    ensures r.Some? ==>
      (resolved.TagFound? || resolved.TagWritten? || resolved.TagLocked? || resolved.NdefFound? <==>
       r.value.envelope.TagEvent? || r.value.envelope.NdefEvent? || r.value.envelope.InvalidNdef?)
    ensures r.Some? && (resolved.TagFound? || resolved.TagWritten? || resolved.TagLocked?) ==> r.value.envelope.TagEvent?
    ensures r.Some? && resolved.NdefFound? ==>
      (r.value.envelope.InvalidNdef? <==> libs.parseNdef(libs.getMessage(msg)).Failure?) &&
      (r.value.envelope.NdefEvent? <==> libs.parseNdef(libs.getMessage(msg)).Success?)
    ensures r.Some? && (r.value.envelope.TagEvent? || r.value.envelope.NdefEvent? || r.value.envelope.InvalidNdef?) ==>
      r.value.envelope.tag == tag
    ensures r.Some? ==> (KindDescription(resolved).Some? <==> r.value.envelope.ErrorEvent?)
    ensures r.Some? && r.value.envelope.ErrorEvent? ==> r.value.envelope.description == KindDescription(resolved).value
    ensures r.Some? && r.value.envelope.InvalidNdef? ==>
      r.value.envelope.rawNdef == libs.getMessage(msg) && libs.parseNdef(libs.getMessage(msg)) == Failure(r.value.envelope.ndefError)
    ensures r.Some? && r.value.envelope.NdefEvent? ==>
      r.value.envelope.rawNdef == libs.getMessage(msg) && libs.parseNdef(libs.getMessage(msg)) == Success(r.value.envelope.ndef)
  {
    if resolved.TagFound? then Some(Event(TAG_FOUND, TagEvent(msg, resolved, tag)))
    else if resolved.TagWritten? then Some(Event(TAG_WRITTEN, TagEvent(msg, resolved, tag)))
    else if resolved.NdefFound? then
      var raw := libs.getMessage(msg);
      match libs.parseNdef(raw)
      case Failure(err) => Some(Event(INVALID_NDEF, InvalidNdef(msg, resolved, tag, raw, err)))
      case Success(ndef) => Some(Event(NDEF_FOUND, NdefEvent(msg, resolved, tag, raw, ndef)))
    else if resolved.TagLocked? then Some(Event(TAG_LOCKED, TagEvent(msg, resolved, tag)))
    else if resolved.ApplicationError? then Some(Event(ERROR_MESSAGE, ErrorEvent(msg, resolved, resolved.errorMessage)))
    else if resolved.LcsMismatch? then Some(Event(ERROR_MESSAGE, ErrorEvent(msg, resolved, "LCS Mismatch")))
    else if resolved.LengthMismatch? then Some(Event(ERROR_MESSAGE, ErrorEvent(msg, resolved, "Message length mismatch")))
    else if resolved.ImproperMessageFormat? then Some(Event(ERROR_MESSAGE, ErrorEvent(msg, resolved, "Improper message format")))
    else if resolved.CrcMismatch? then Some(Event(ERROR_MESSAGE, ErrorEvent(msg, resolved, "CRC mismatch")))
    else if resolved.SystemError? then Some(Event(ERROR_MESSAGE, ErrorEvent(msg, resolved, resolved.errorMessage)))
    else None
  }

  /** What follows received once the family is supported, by what resolution came to. */
  function ResolutionEvents(build: Build, libs: Libraries, msg: Message, resolution: Resolution<Response>): (events: seq<Event>)
    ensures |events| <= 1
  {
    match resolution
    case Threw(err) => [Event(INVALID_MESSAGE, InvalidMessage(msg, if build == Source then Some(err) else None))]
    case ReturnedNull => []
    case Returned(resolved) =>
      match ClassifyResponse(libs, msg, resolved, TagFieldsOf(libs, msg))
      case None => []
      case Some(e) => [e]
  }

  /** The events the message listener publishes for one inbound message, in order. */
  function MessageEvents(build: Build, libs: Libraries, resolvers: seq<Resolver>, msg: Message): (events: seq<Event>)
    ensures 1 <= |events| <= 2
    ensures events[0] == Event(RECEIVED, Received(msg))
  {
    [Event(RECEIVED, Received(msg))] +
    if !Supports(resolvers, msg) then []
    else ResolutionEvents(build, libs, msg, ResolveResponseSpec(resolvers, msg))
  }

  /** Unsupported family: only received. */
  lemma UnsupportedFamilyOnlyReceived(build: Build, libs: Libraries, resolvers: seq<Resolver>, msg: Message)
    requires !Supports(resolvers, msg)
    ensures MessageEvents(build, libs, resolvers, msg) == [Event(RECEIVED, Received(msg))]
  {
  }

  /**
   * Resolution throws: received, then invalid_message with the message (and, in
   * the source copy, the error), then nothing.
   */
  lemma ResolutionFailureIsInvalidMessage(build: Build, libs: Libraries, resolvers: seq<Resolver>, msg: Message, err: Error)
    requires Supports(resolvers, msg)
    requires resolvers[FirstMatch(resolvers, msg).value].resolveResponse(msg) == Threw(err)
    ensures MessageEvents(build, libs, resolvers, msg) ==
      [Event(RECEIVED, Received(msg)),
       Event(INVALID_MESSAGE, InvalidMessage(msg, if build == Source then Some(err) else None))]
  {
  }

  /** Resolution returns null: only received, nothing after it. */
  lemma NullResolutionOnlyReceived(build: Build, libs: Libraries, resolvers: seq<Resolver>, msg: Message)
    requires Supports(resolvers, msg)
    requires resolvers[FirstMatch(resolvers, msg).value].resolveResponse(msg).ReturnedNull?
    ensures MessageEvents(build, libs, resolvers, msg) == [Event(RECEIVED, Received(msg))]
  {
  }

  /**
   * A resolved response: received, then exactly the event of the chain (never
   * more than one). The resolver that answered is the first that claims the family.
   */
  lemma {:induction false} ResolvedMessageEvents(build: Build, libs: Libraries, resolvers: seq<Resolver>, msg: Message, i: nat, r: Response)
    requires i < |resolvers| && resolvers[i].checkFamily(msg)
    requires forall j :: 0 <= j < i ==> !resolvers[j].checkFamily(msg)
    requires resolvers[i].resolveResponse(msg) == Returned(r)
    ensures |MessageEvents(build, libs, resolvers, msg)| == (if KindTopic(r).Some? then 2 else 1)
    ensures KindTopic(r).Some? ==>
      MessageEvents(build, libs, resolvers, msg)[1] == ClassifyResponse(libs, msg, r, TagFieldsOf(libs, msg)).value
  {
    FirstMatchIsFirst(resolvers, msg, i);
  }

  /** An NdefFound whose bytes do not parse: invalid_ndef with the raw bytes and the parser's error, never ndef_found. */
  lemma {:induction false} BadNdefIsInvalidNdef(build: Build, libs: Libraries, resolvers: seq<Resolver>, msg: Message, err: Error)
    requires Supports(resolvers, msg)
    requires ResolveResponseSpec(resolvers, msg) == Returned(NdefFound)
    requires libs.parseNdef(libs.getMessage(msg)) == Failure(err)
    ensures MessageEvents(build, libs, resolvers, msg) ==
      [Event(RECEIVED, Received(msg)),
       Event(INVALID_NDEF, InvalidNdef(msg, NdefFound, TagFieldsOf(libs, msg), libs.getMessage(msg), err))]
    ensures forall e :: e in MessageEvents(build, libs, resolvers, msg) ==> e.topic != NDEF_FOUND
  {
    var tag, raw := TagFieldsOf(libs, msg), libs.getMessage(msg);
    var invalid := Event(INVALID_NDEF, InvalidNdef(msg, NdefFound, tag, raw, err));
    assert ClassifyResponse(libs, msg, NdefFound, tag) == Some(invalid);
    assert ResolutionEvents(build, libs, msg, Returned(NdefFound)) == [invalid];
    var events := MessageEvents(build, libs, resolvers, msg);
    assert events == [Event(RECEIVED, Received(msg)), invalid];
    forall e | e in events ensures e.topic != NDEF_FOUND {
      assert e == events[0] || e == events[1];
    }
  }

  /** An NdefFound whose bytes parse: ndef_found with the raw bytes and the parsed message. */
  lemma GoodNdefIsNdefFound(build: Build, libs: Libraries, resolvers: seq<Resolver>, msg: Message, ndef: NdefMessage)
    requires Supports(resolvers, msg)
    requires ResolveResponseSpec(resolvers, msg) == Returned(NdefFound)
    requires libs.parseNdef(libs.getMessage(msg)) == Success(ndef)
    ensures MessageEvents(build, libs, resolvers, msg) ==
      [Event(RECEIVED, Received(msg)),
       Event(NDEF_FOUND, NdefEvent(msg, NdefFound, TagFieldsOf(libs, msg), libs.getMessage(msg), ndef))]
  {
  }

  /** The two copies publish the same events, except the error field of invalid_message. */
  lemma BuildsDifferOnlyInInvalidMessage(libs: Libraries, resolvers: seq<Resolver>, msg: Message)
    ensures |MessageEvents(Source, libs, resolvers, msg)| == |MessageEvents(Dist, libs, resolvers, msg)|
    ensures forall k :: 0 <= k < |MessageEvents(Source, libs, resolvers, msg)| ==>
      var s, d := MessageEvents(Source, libs, resolvers, msg)[k], MessageEvents(Dist, libs, resolvers, msg)[k];
      s.topic == d.topic &&
      (if s.topic == INVALID_MESSAGE
       then s.envelope.InvalidMessage? && d.envelope == InvalidMessage(msg, None) &&
            s.envelope.message == msg && s.envelope.error.Some?
       else s == d)
  {
  }

  /**
   * The tag_written test: a TagWritten for tag code 04 50 51 52 53 54 80 of tag
   * type 6 is published with tagCodeStr "04505152535480".
   */
  lemma TagWrittenExample(build: Build, libs: Libraries, resolvers: seq<Resolver>, msg: Message)
    requires Supports(resolvers, msg)
    requires ResolveResponseSpec(resolvers, msg) == Returned(TagWritten)
    requires libs.getTagCode(msg) == [0x04, 0x50, 0x51, 0x52, 0x53, 0x54, 0x80]
    requires libs.getTagType(msg) == 6
    ensures MessageEvents(build, libs, resolvers, msg)[1] ==
      Event(TAG_WRITTEN, TagEvent(msg, TagWritten,
        TagFields(6, libs.resolveTagType(6), [0x04, 0x50, 0x51, 0x52, 0x53, 0x54, 0x80], "04505152535480")))
  {
    var code := libs.getTagCode(msg);
    TagWrittenCode(code);
    assert TagFieldsOf(libs, msg) == TagFields(6, libs.resolveTagType(6), code, "04505152535480");
    ResolvedMessageEvents(build, libs, resolvers, msg, FirstMatch(resolvers, msg).value, TagWritten);
  }

  /** The tag_found test: tag code 04 50 51 52 53 54 81 of type 20 gives "04505152535481". */
  lemma TagFoundExample(build: Build, libs: Libraries, resolvers: seq<Resolver>, msg: Message)
    requires Supports(resolvers, msg)
    requires ResolveResponseSpec(resolvers, msg) == Returned(TagFound)
    requires libs.getTagCode(msg) == [0x04, 0x50, 0x51, 0x52, 0x53, 0x54, 0x81]
    requires libs.getTagType(msg) == 20
    ensures MessageEvents(build, libs, resolvers, msg)[1] ==
      Event(TAG_FOUND, TagEvent(msg, TagFound,
        TagFields(20, libs.resolveTagType(20), [0x04, 0x50, 0x51, 0x52, 0x53, 0x54, 0x81], "04505152535481")))
  {
    var code := libs.getTagCode(msg);
    TagFoundCode(code);
    assert TagFieldsOf(libs, msg) == TagFields(20, libs.resolveTagType(20), code, "04505152535481");
    ResolvedMessageEvents(build, libs, resolvers, msg, FirstMatch(resolvers, msg).value, TagFound);
  }

  // ---------------------------------------------------------------- error listener

  const UNKNOWN_ERROR: string := "Unknown error"

  /** The error listener's `switch`: the first case equal to the code, else "Unknown error". */
  function ErrorDescription(codes: ErrorCodes, errorType: int): (d: string)
    ensures d in {"Tappy not connected", "Connection error", "Received invalid frame", "Received invalid packet", UNKNOWN_ERROR}
    ensures d == UNKNOWN_ERROR <==>
      errorType !in {codes.notConnected, codes.connectionError, codes.invalidHdlc, codes.invalidTcmp}
  {
    if errorType == codes.notConnected then "Tappy not connected"
    else if errorType == codes.connectionError then "Connection error"
    else if errorType == codes.invalidHdlc then "Received invalid frame"
    else if errorType == codes.invalidTcmp then "Received invalid packet"
    else UNKNOWN_ERROR
  }

  /** With distinct codes, each description belongs to exactly one code. */
  lemma ErrorDescriptionExact(codes: ErrorCodes, errorType: int)
    requires |{codes.notConnected, codes.connectionError, codes.invalidHdlc, codes.invalidTcmp}| == 4
    ensures ErrorDescription(codes, errorType) == "Tappy not connected" <==> errorType == codes.notConnected
    ensures ErrorDescription(codes, errorType) == "Connection error" <==> errorType == codes.connectionError
    ensures ErrorDescription(codes, errorType) == "Received invalid frame" <==> errorType == codes.invalidHdlc
    ensures ErrorDescription(codes, errorType) == "Received invalid packet" <==> errorType == codes.invalidTcmp
  {
  }

  /** The error listener: exactly one driver_error, with the code and the data passed through. */
  function DriverErrorEvents(codes: ErrorCodes, errorType: int, data: JsValue): (events: seq<Event>)
    ensures |events| == 1 && events[0].topic == DRIVER_ERROR
    ensures events[0].envelope.DriverError?
    ensures events[0].envelope.errorType == errorType && events[0].envelope.data == data
    ensures events[0].envelope.description == ErrorDescription(codes, errorType)
  {
    [Event(DRIVER_ERROR, DriverError(errorType, data, ErrorDescription(codes, errorType)))]
  }

  // ---------------------------------------------------------------- convenience senders

  /** The timeout a command carries; Stop and raw messages carry none. */
  function Timeout(c: Command): Option<byte>
  {
    match c
    case ScanTag(t, _) => Some(t)
    case StreamTags(t, _) => Some(t)
    case ScanNdef(t, _) => Some(t)
    case StreamNdef(t, _) => Some(t)
    case WriteNdefUri(t, _, _, _) => Some(t)
    case WriteNdefText(t, _, _) => Some(t)
    case WriteNdefCustom(t, _, _) => Some(t)
    case LockTag(t, _) => Some(t)
    case Stop => None
    case Raw(_) => None
  }

  /** `detectTag(continuous)`: streaming only for a boolean `true`. */
  function DetectTagCommand(continuous: JsValue): (c: Command)
    ensures c.StreamTags? <==> continuous == Bool(true)
    ensures c.ScanTag? <==> continuous != Bool(true)
    ensures Timeout(c) == Some(0) && c.pollingMode == General
  {
    var continuous := BoolOr(continuous, false);
    if continuous then StreamTags(0x00, General) else ScanTag(0x00, General)
  }

  /** `detectNdef(continuous)`: streaming only for a boolean `true`. */
  function DetectNdefCommand(continuous: JsValue): (c: Command)
    ensures c.StreamNdef? <==> continuous == Bool(true)
    ensures c.ScanNdef? <==> continuous != Bool(true)
    ensures Timeout(c) == Some(0) && c.pollingMode == General
  {
    var continuous := BoolOr(continuous, false);
    if continuous then StreamNdef(0x00, General) else ScanNdef(0x00, General)
  }

  /**
   * `writeUri(uri, lock)`: a non-string uri is written as "", a non-boolean lock
   * as false; the content and prefix code are those the NDEF codec splits off.
   */
  function WriteUriCommand(libs: Libraries, uri: JsValue, lock: JsValue): (c: Command)
    ensures c.WriteNdefUri? && Timeout(c) == Some(0)
    ensures c.lockFlag <==> lock == Bool(true)
    ensures !uri.Str? ==> c.uri == libs.resolveUriToPrefix("").content && c.uriCode == libs.resolveUriToPrefix("").prefixCode
    ensures uri.Str? ==> c.uri == libs.resolveUriToPrefix(uri.s).content && c.uriCode == libs.resolveUriToPrefix(uri.s).prefixCode
  {
    var uri := StringOr(uri, "");
    var lock := BoolOr(lock, false);
    var parsed := libs.resolveUriToPrefix(uri);
    WriteNdefUri(0, lock, parsed.content, parsed.prefixCode)
  }

  /** `writeText(text, lock)`: a non-string text is written as "", a non-boolean lock as false. */
  function WriteTextCommand(text: JsValue, lock: JsValue): (c: Command)
    ensures c.WriteNdefText? && Timeout(c) == Some(0)
    ensures c.lockFlag <==> lock == Bool(true)
    ensures c.text == (if text.Str? then text.s else "")
  {
    var text := StringOr(text, "");
    var lock := BoolOr(lock, false);
    WriteNdefText(0x00, lock, text)
  }

  /** `writeNdef(data, lock)`: the data is passed on as given; a non-boolean lock is false. */
  function WriteNdefCommand(data: JsValue, lock: JsValue): (c: Command)
    ensures c.WriteNdefCustom? && Timeout(c) == Some(0)
    ensures c.lockFlag <==> lock == Bool(true)
    ensures c.ndef == data
  {
    var lock := BoolOr(lock, false);
    WriteNdefCustom(0x00, lock, data)
  }

  /** `lockTag(uid)`: a falsy uid (none given) restricts nothing and is sent as null. */
  function LockTagCommand(uid: JsValue): (c: Command)
    ensures c.LockTag? && Timeout(c) == Some(0)
    ensures Truthy(uid) ==> c.tagCode == uid
    ensures !Truthy(uid) ==> c.tagCode == Null
  {
    var uid := OrNull(uid);
    LockTag(0x00, uid)
  }

  /** What `sendMessage` publishes: exactly one sent event with the message. */
  function SentEvents(c: Command): (events: seq<Event>)
    ensures |events| == 1 && events[0].topic == SENT && events[0].envelope == Sent(c)
  {
    [Event(SENT, Sent(c))]
  }
}
