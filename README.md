# TappyWrapper, modelled in Dafny

TappyWrapper is TapTrack's convenience layer over a TCMP Tappy driver. The
wrapper keeps a small publish/subscribe event bus. It turns each inbound TCMP
message into events on named topics. The topics are `received`, `tag_found`,
`tag_written`, `ndef_found`, `tag_locked`, `error_message`, `invalid_message`
and `invalid_ndef`. It turns driver errors into `driver_error` events. Its
convenience senders (`detectTag`, `detectNdef`, `writeUri`/`writeUrl`,
`writeText`, `writeNdef`, `lockTag`, `stop`) build a basic NFC family command
and pass it to `sendMessage`. `sendMessage` hands the command to the driver
and publishes it on `sent`.

The model covers both copies of the wrapper: `src/wrapper.js` and the built
`dist/wrapper.js`. In every modelled part they differ in one place only. In
`dist/wrapper.js:145-157` the `invalid_message` envelope carries the message
but not the thrown error. The model takes a `Build` parameter (`Source` or
`Dist`) and follows each file's code.

| file | module | what it holds |
|---|---|---|
| `wrappers.dfy` | `Wrappers` | `Option`, `Outcome`, `Result` |
| `js.dfy` | `Js` | JavaScript values passed as dynamic arguments, `typeof` defaults, truthiness |
| `tcmp.dfy` | `Tcmp` | Library surface the wrapper relies on but does not define: messages, response kinds, commands, family resolvers, NDEF parsing, error codes. These are abstract types or function-valued record fields. |
| `hex.dfy` | `HexCodec` | `arrToHex` as a loop, proved against a two-digits-per-byte reference `Hex`, with its inverse `Unhex` |
| `event_bus.dfy` | `Bus` | The `EventBus` class. `subscribers` is a map field. A ghost `log` records every subscriber call. |
| `resolver_mux.dfy` | `Mux` | The `ResolverMux` class, whose three methods are loops over its resolvers. `CheckFamily` is proved against "some resolver claims the family"; the two resolve methods are proved against a first-match function. |
| `wrapper_rules.dfy` | `WrapperRules` | The listeners' and senders' decisions as functions: which events for which message, error descriptions, the command each sender builds |
| `wrapper.dfy` | `TappyWrapper` | The `Wrapper` class. Each listener and sender is a method proved against those functions. The driver is reduced to the list of commands handed to it. |

Subscribers are known by identity only (`SubscriberId`). A call
`subscriber(payload)` is recorded as a `Delivery` in the bus's ghost log. Every
listener and sender method states its effect as "the log grows by exactly
these deliveries". `EventDeliveries` describes those deliveries for a list of
events published one by one.

## Model

| member | source | states |
|---|---|---|
| Js.Truthy | src/wrapper.js:514 | A value is truthy iff it is none of undefined, null, false, 0 and ""; every object is truthy. |
| Js.BoolOr | src/wrapper.js:409 | `typeof v === "boolean" ? v : d` is true iff v is the boolean true, or v is not a boolean and d is true. |
| Js.StringOr | src/wrapper.js:466 | `typeof v === "string" ? v : d` keeps a string and replaces anything else by d. |
| Js.OrNull | src/wrapper.js:514 | `v \|\| null` keeps a truthy value and turns a falsy one into null; truthiness is preserved either way. |
| HexCodec.ArrToHex | src/wrapper.js:49-62 | The loop's result equals `Hex(data)`: two characters per byte, upper-case high digit then low digit, in byte order. It is proved through the source's own rule (zero-pad a byte of 15 or less). |
| HexCodec.ToUpperHex | src/wrapper.js:52 | `toString(16).toUpperCase()` of a non-negative integer: at least one digit, a leading "0" only for zero, every character an upper-case hex digit, one digit below 16 and two for 16 to 255. |
| HexCodec.ByteHex | src/wrapper.js:52-59 | The text one byte adds is always two characters, and starts with "0" exactly when the byte is 15 or less. |
| HexCodec.ByteHexDigits | src/wrapper.js:52-59 | `toString(16).toUpperCase()` with a "0" in front for bytes of 15 or less is always exactly the byte's two digits. |
| HexCodec.HexAppend | src/wrapper.js:51-60 | The hex of a concatenation is the concatenation of the hexes. |
| HexCodec.HexCons | src/wrapper.js:51-60 | The first byte contributes the first two digits. |
| HexCodec.HexDigits | src/wrapper.js:49-62 | The output has length 2·n; positions 2i and 2i+1 hold byte i's high and low digit. |
| HexCodec.HexIsUpperCase | src/wrapper.js:52 | Every output character is one of `0123456789ABCDEF`. |
| HexCodec.DigitValue | src/wrapper.js:52 | Reading a digit back gives a value below 16 whose digit is that character. |
| HexCodec.DigitValueOfDigit | src/wrapper.js:52 | Reading back the digit of d gives d. |
| HexCodec.UnhexHex | src/wrapper.js:49-62 | Round trip: reading the hex string back gives the original bytes. |
| HexCodec.HexInjective | src/wrapper.js:49-62 | Different byte arrays give different strings. |
| HexCodec.TagWrittenCode | test/testwrapper.js:544-545 | The tag code 04 50 51 52 53 54 80 renders as "04505152535480". |
| HexCodec.TagFoundCode | test/testwrapper.js:568-569 | The tag code 04 50 51 52 53 54 81 renders as "04505152535481". |
| Bus.SetSubscriberSpec | src/wrapper.js:110-121 | A non-function subscriber is rejected first ("Subscriber must be a function"), then a non-string topic ("Must subscribe to a string subject"). A rejected call leaves the table unchanged. An accepted one adds or replaces exactly that topic's subscriber and keeps every other topic's. |
| Bus.EventBus.constructor | src/wrapper.js:70-72 | A new bus has no subscribers and has made no calls. |
| Bus.EventBus.SetSubscriber | src/wrapper.js:110-121 | The outcome and new table are those of `SetSubscriberSpec`; the log is untouched. |
| Bus.PublishOutcome | src/wrapper.js:81-99 | `publish` returns normally iff the message is defined, at least one topic is given and every topic is a string. Otherwise it throws, in that order of checks, "Must specify a message to publish", "Must specify one message and one or more topics" or "Invalid argument specified, must be a string topic". |
| Bus.Deliveries | src/wrapper.js:90-98 | The topic loop makes no more calls than there are listed topics, and every call carries the published payload. |
| Bus.Published | src/wrapper.js:81-99 | An undefined message or an empty topic list calls nobody. Otherwise there are no more calls than topics, each carrying the message. |
| Bus.EventBus.Publish | src/wrapper.js:81-99 | Throws as `PublishOutcome` says. Calls the subscribers of the string topics in argument order, skips topics without a subscriber, and stops at the first non-string topic. Calls made before the throw stay made. |
| Bus.DeliveriesAppend | src/wrapper.js:90-98 | Publishing to topics a then b calls a's subscribers, then b's. |
| Bus.DeliveriesStopAt | src/wrapper.js:90-93 | A non-string topic at position k: only the topics before k are delivered. |
| Bus.PublishThrowsAtNonString | src/wrapper.js:90-93 | With a non-string topic, `publish` throws the topic error after delivering to the topics before it. |
| Bus.PublishSkipsUnregistered | src/wrapper.js:95-97 | A topic without a subscriber can be removed from the list without changing who is called. |
| Bus.PublishUnregisteredIsNoOp | src/wrapper.js:81-99 | Publishing only to unsubscribed string topics returns normally and calls nobody. |
| Bus.NoDeliveries | src/wrapper.js:95-97 | Topics with no subscriber produce no calls. |
| Bus.DeliveriesAreToSubscribers | src/wrapper.js:95-97 | Every call goes to the registered subscriber of one of the listed string topics. |
| Bus.PublishOne | src/wrapper.js:81-99 | One string topic: `publish` returns normally and calls that topic's subscriber if there is one. |
| Bus.LastRegistrationWins | src/wrapper.js:101-121 | A second registration on a topic replaces the first; publishing then reaches only the second. |
| Mux.FirstMatch | src/wrapper.js:158-164 | None iff no resolver claims the family. Otherwise the index of a claiming resolver with no claiming resolver before it. |
| Mux.ResolverMux.constructor | src/wrapper.js:128-130 | The mux keeps the resolvers it is given, in order. |
| Mux.ResolverMux.CheckFamily | src/wrapper.js:139-146 | True iff some resolver claims the message's family. |
| Mux.ResolverMux.ResolveCommand | src/wrapper.js:156-165 | The first claiming resolver's `resolveCommand` result, or thrown "Unsupported command type" if none claims it. |
| Mux.ResolverMux.ResolveResponse | src/wrapper.js:175-184 | The first claiming resolver's `resolveResponse` result, or thrown "Unsupported response type" if none claims it. |
| Mux.LaterResolversIgnored | src/wrapper.js:175-184 | Once a resolver claims the family, resolvers after it do not affect the result. |
| Mux.NonClaimingPrefixIgnored | src/wrapper.js:175-184 | Resolvers that do not claim the family can be dropped from the front without changing the result. |
| Mux.FirstMatchIsFirst | src/wrapper.js:177-181 | A claiming resolver with none claiming before it is the one chosen. |
| WrapperRules.TagFieldsOf | src/wrapper.js:235-238 | `tagTypeCode` is the message's tag type, `tagType` is that code's resolved tag type, and `tagCode` is the message's tag code. `tagCodeStr` has two characters per tag-code byte and reads back to the tag code. |
| WrapperRules.ClassifyResponse | src/wrapper.js:231-313 | At most one event, and one exactly for the kinds in the topic table. TagFound, TagWritten and TagLocked get a tag envelope with the tag fields. An NdefFound gets an NDEF envelope with the tag fields. No tag or NDEF kind is published as an error event. Error kinds carry the table's description ("LCS Mismatch", "Message length mismatch", "Improper message format", "CRC mismatch", or the response's own message). An NdefFound goes to `invalid_ndef` with the raw bytes and the parser's error exactly when parsing fails; otherwise it goes to `ndef_found` with the parsed message. |
| WrapperRules.ResolutionEvents | src/wrapper.js:215-313 | At most one event follows resolution. |
| WrapperRules.MessageEvents | src/wrapper.js:211-316 | One or two events per inbound message, the first always `received` with the message. |
| WrapperRules.UnsupportedFamilyOnlyReceived | src/wrapper.js:212-214 | A message of no supported family yields only `received`. |
| WrapperRules.ResolutionFailureIsInvalidMessage | src/wrapper.js:215-227 | A resolver that throws yields `received` then `invalid_message`, and nothing else. The error is carried only by the source copy. |
| WrapperRules.NullResolutionOnlyReceived | src/wrapper.js:225-227 | A resolver that returns null yields only `received`. |
| WrapperRules.ResolvedMessageEvents | src/wrapper.js:214-313 | A resolved response yields `received` plus the chain's event; there are two events iff its kind is in the table. |
| WrapperRules.BadNdefIsInvalidNdef | src/wrapper.js:247-264 | An NdefFound whose bytes do not parse yields `invalid_ndef` with the raw bytes and the error, and never `ndef_found`. |
| WrapperRules.GoodNdefIsNdefFound | src/wrapper.js:247-273 | An NdefFound whose bytes parse yields `ndef_found` with the raw bytes and the parsed message. |
| WrapperRules.BuildsDifferOnlyInInvalidMessage | dist/wrapper.js:145-157 | The built copy publishes the same events as the source copy, except that its `invalid_message` envelope has no error. |
| WrapperRules.TagWrittenExample | test/testwrapper.js:536-555 | A TagWritten of type 6 with code 04…80 is published on `tag_written` with tagCodeStr "04505152535480". |
| WrapperRules.TagFoundExample | test/testwrapper.js:560-579 | A TagFound of type 20 with code 04…81 is published on `tag_found` with tagCodeStr "04505152535481". |
| WrapperRules.ErrorDescription | src/wrapper.js:318-333 | The description is one of the five strings. It is "Unknown error" iff the code is none of the four driver error types. |
| WrapperRules.ErrorDescriptionExact | src/wrapper.js:320-333 | With distinct error codes, each specific description belongs to exactly one code, both directions. |
| WrapperRules.DriverErrorEvents | src/wrapper.js:334-338 | Exactly one `driver_error` event, with the error type and data passed through unchanged and the description of `ErrorDescription`. |
| WrapperRules.DetectTagCommand | src/wrapper.js:407-423 | StreamTags iff `continuous` is the boolean true, otherwise ScanTag. Timeout 0, general polling. |
| WrapperRules.DetectNdefCommand | src/wrapper.js:431-447 | StreamNdef iff `continuous` is the boolean true, otherwise ScanNdef. Timeout 0, general polling. |
| WrapperRules.WriteUriCommand | src/wrapper.js:464-472 | WriteNdefUri with timeout 0. Locks iff `lock` is the boolean true. Content and prefix code come from the NDEF codec's split of the uri, or of "" when the uri is not a string. |
| WrapperRules.WriteTextCommand | src/wrapper.js:481-488 | WriteNdefText with timeout 0. Locks iff `lock` is the boolean true. The text is the argument if it is a string, else "". |
| WrapperRules.WriteNdefCommand | src/wrapper.js:497-503 | WriteNdefCustom with timeout 0 and the data as given. Locks iff `lock` is the boolean true. |
| WrapperRules.LockTagCommand | src/wrapper.js:512-518 | LockTag with timeout 0. A truthy uid is passed on; a falsy one becomes null. |
| WrapperRules.SentEvents | src/wrapper.js:393-399 | `sendMessage` publishes exactly one event, on `sent`, carrying the command. |
| TappyWrapper.EventDeliveriesAppend | src/wrapper.js:211-316 | Events published one after another reach their subscribers in that order. |
| TappyWrapper.EventDeliveriesOne | src/wrapper.js:81-99 | One event reaches its topic's subscriber, if any, and no one else. |
| TappyWrapper.ListenerDeliveries | src/wrapper.js:211-316 | For one inbound message, subscribers see the `received` call first, then at most one more call, to the classified topic's subscriber. |
| TappyWrapper.ListenerLog | src/wrapper.js:211-316 | The calls for `received` followed by at most one more event. |
| TappyWrapper.ListenerSplit | src/wrapper.js:214-227 | The listener's events, split at the family check and at what resolution came to. |
| TappyWrapper.StopSendsOneStop | test/testwrapper.js:459-470 | After `stop`, the `sent` subscriber is called once, with the Stop command. |
| TappyWrapper.Wrapper.constructor | src/wrapper.js:198-209 | A fresh empty bus and a mux over the NFC family resolver, then the system family resolver; nothing sent yet. |
| TappyWrapper.Wrapper.On | src/wrapper.js:724-727 | `on` is the bus's `setSubscriber`: same outcome, same new table. |
| TappyWrapper.Wrapper.PublishEvent | src/wrapper.js:212 | Publishing one event to its one string topic never throws and delivers exactly `EventDeliveries` of it. |
| TappyWrapper.Wrapper.MakeTagFields | src/wrapper.js:235-238 | The envelope's tag fields, with `arrToHex` computing `tagCodeStr`, equal `TagFieldsOf`. |
| TappyWrapper.Wrapper.PublishResolution | src/wrapper.js:215-313 | After the family check, the log grows by exactly the calls of `ResolutionEvents`: invalid_message on a throw, nothing for null, the chain's event otherwise. |
| TappyWrapper.Wrapper.OnMessage | src/wrapper.js:211-316 | The log grows by exactly the subscriber calls of `MessageEvents` for the message, in order. |
| TappyWrapper.Wrapper.OnError | src/wrapper.js:318-339 | The log grows by exactly the calls of `DriverErrorEvents`. |
| TappyWrapper.Wrapper.SendMessage | src/wrapper.js:393-399 | The command is handed to the driver once, then published once on `sent`. |
| TappyWrapper.Wrapper.DetectTag | src/wrapper.js:407-423 | Sends `DetectTagCommand(continuous)` and publishes it on `sent`. |
| TappyWrapper.Wrapper.DetectNdef | src/wrapper.js:431-447 | Sends `DetectNdefCommand(continuous)` and publishes it on `sent`. |
| TappyWrapper.Wrapper.WriteUrl | src/wrapper.js:452-455 | The same effect as `writeUri` with the same arguments. |
| TappyWrapper.Wrapper.WriteUri | src/wrapper.js:464-472 | Sends `WriteUriCommand(uri, lock)` and publishes it on `sent`. |
| TappyWrapper.Wrapper.WriteText | src/wrapper.js:481-488 | Sends `WriteTextCommand(text, lock)` and publishes it on `sent`. |
| TappyWrapper.Wrapper.WriteNdef | src/wrapper.js:497-503 | Sends `WriteNdefCommand(data, lock)` and publishes it on `sent`. |
| TappyWrapper.Wrapper.LockTag | src/wrapper.js:512-518 | Sends `LockTagCommand(uid)` and publishes it on `sent`. |
| TappyWrapper.Wrapper.Stop | src/wrapper.js:529-534 | Sends exactly one Stop command and publishes it on `sent`. |

## Left out

- `connect`, `disconnect` and `isConnected` only forward to the driver and publish its callback arguments. Driver I/O is not modelled.
- The module loader (the AMD, CommonJS and browser-global selection, and the fallback `require`s) is packaging, not behaviour.
- Wrapper constructor: choosing between a passed-in `tappy` and a newly constructed driver is not modelled. The driver is reduced to the commands handed to its `sendMessage`.
- What subscribers do, and what happens when a subscriber throws or publishes from inside a call, are not modelled: subscribers are identities and calls are log entries.
- The subscriber table is a map from strings. JavaScript's inherited `Object.prototype` keys, such as a topic named "toString", are not modelled.
- The resolvers' family tests and decoding, NDEF parsing and URI prefixing, tag-type lookup and the numeric values in `Tappy.ErrorType` all belong to other libraries. They are parameters (the `Resolver` and `Libraries` records).
- Response kinds are matched by kind, as `isTypeOf` does. A resolver that returns `undefined` or an unrelated object is not distinguished from `ReturnedNull` or `Other`.
- JavaScript numbers are modelled as integers. Error types that are NaN or fractional are not modelled, and neither is `toString(16)` of a non-byte array element.
- In `writeText` the command is assigned to an undeclared variable, which leaks a global in non-strict code. The model has no global scope.
- WrapperRules.ErrorDescription: the `switch` is modelled as ordered equality tests on integers. With colliding error codes the first case wins, as in JavaScript, and `ErrorDescriptionExact` holds only for distinct codes.
- WrapperRules.WriteUriCommand: states the codec's split of the uri as an opaque parameter. That the split round-trips is a property of the NDEF codec and is not stated here.
