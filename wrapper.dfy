/**
 * `Wrapper`: owns the driver and an event bus, republishes what the driver
 * delivers (the message and error listeners) and sends the commands of its
 * convenience senders. The driver is reduced to the commands handed to its
 * `sendMessage`; the listeners are the methods the driver would call back.
 */
module TappyWrapper {
  import opened Js
  import opened Wrappers
  import opened Tcmp
  import opened HexCodec
  import opened Mux
  import opened Bus
  import opened WrapperRules

  /**
   * The subscriber calls made when each event is published in turn, one topic
   * per call (`PublishEvent` shows that each such `publish` makes exactly this call).
   */
  function EventDeliveries(subs: map<string, SubscriberId>, events: seq<Event>): seq<Delivery<Envelope>>
  {
    if events == [] then []
    else DeliveryTo(subs, events[0].envelope, events[0].topic) + EventDeliveries(subs, events[1..])
  }

  /** Publishing events one after another delivers them in that order. */
  lemma {:induction false} EventDeliveriesAppend(subs: map<string, SubscriberId>, a: seq<Event>, b: seq<Event>)
    ensures EventDeliveries(subs, a + b) == EventDeliveries(subs, a) + EventDeliveries(subs, b)
    decreases |a|
  {
    if a == [] {
      assert a + b == b;
    } else {
      assert (a + b)[0] == a[0] && (a + b)[1..] == a[1..] + b;
      EventDeliveriesAppend(subs, a[1..], b);
    }
  }

  /** One event reaches the subscriber of its topic, if there is one, and no one else. */
  lemma EventDeliveriesOne(subs: map<string, SubscriberId>, e: Event)
    ensures EventDeliveries(subs, [e]) == DeliveryTo(subs, e.envelope, e.topic)
  {
    assert [e][1..] == [];
    assert EventDeliveries(subs, [e]) == DeliveryTo(subs, e.envelope, e.topic) + [];
  }

  /**
   * What the subscribers see of one inbound message: the received subscriber (if
   * any) first, then at most one more call, to the subscriber of the classified topic.
   */
  lemma ListenerDeliveries(build: Build, libs: Libraries, resolvers: seq<Resolver>, subs: map<string, SubscriberId>, msg: Message)
    ensures var events := MessageEvents(build, libs, resolvers, msg);
      EventDeliveries(subs, events) ==
        DeliveryTo(subs, Received(msg), RECEIVED) +
        (if |events| == 2 then DeliveryTo(subs, events[1].envelope, events[1].topic) else [])
  {
    var events := MessageEvents(build, libs, resolvers, msg);
    assert events == [events[0]] + events[1..];
    EventDeliveriesAppend(subs, [events[0]], events[1..]);
    EventDeliveriesOne(subs, events[0]);
    if |events| == 2 {
      assert events[1..] == [events[1]];
      EventDeliveriesOne(subs, events[1]);
    } else {
      assert events[1..] == [];
    }
  }

  /** The log after publishing `first`, then the events of `rest` (at most one). */
  lemma ListenerLog(subs: map<string, SubscriberId>, first: Event, rest: seq<Event>)
    requires |rest| <= 1
    ensures EventDeliveries(subs, [first] + rest) ==
      EventDeliveries(subs, [first]) + (if rest == [] then [] else EventDeliveries(subs, [rest[0]]))
  {
    EventDeliveriesAppend(subs, [first], rest);
    if rest != [] { assert rest == [rest[0]]; }
  }

  /** The listener's events, split at the family check and the resolution. */
  lemma ListenerSplit(build: Build, libs: Libraries, resolvers: seq<Resolver>, msg: Message, resolution: Option<Resolution<Response>>)
    requires resolution.None? <==> !Supports(resolvers, msg)
    requires resolution.Some? ==> resolution.value == ResolveResponseSpec(resolvers, msg)
    ensures MessageEvents(build, libs, resolvers, msg) ==
      [Event(RECEIVED, Received(msg))] +
      (if resolution.None? then [] else ResolutionEvents(build, libs, msg, resolution.value))
  {
  }

  class Wrapper {
    /** Which copy of the wrapper is modelled. */
    const build: Build
    const libs: Libraries
    /** The mux over the basic NFC family resolver and the system family resolver, in that order. */
    const mux: ResolverMux
    /** `this.eb` */
    const eb: EventBus<Envelope>
    /** The commands handed to the driver's `sendMessage`, oldest first. */
    var driverSent: seq<Command>

    /** Wraps a driver; installing the two listeners is what `OnMessage` and `OnError` stand for. */
    constructor (build: Build, libs: Libraries, nfcResolver: Resolver, systemResolver: Resolver)
      ensures this.build == build && this.libs == libs
      ensures mux.resolvers == [nfcResolver, systemResolver]
      ensures fresh(eb) && eb.subscribers == map[] && eb.log == []
      ensures driverSent == []
    {
      this.build := build;
      this.libs := libs;
      eb := new EventBus<Envelope>();
      mux := new ResolverMux([nfcResolver, systemResolver]);
      driverSent := [];
    }

    /** `on(ev, callback)`: the bus's `setSubscriber`. */
    method On(ev: JsValue, callback: JsValue) returns (r: Outcome<BusError>)
      modifies eb`subscribers
      ensures (r, eb.subscribers) == SetSubscriberSpec(old(eb.subscribers), ev, callback)
    {
      r := eb.SetSubscriber(ev, callback);
    }

    /** `eb.publish(envelope, topic)` for one event; it never throws. */
    method PublishEvent(e: Event)
      modifies eb`log
      ensures eb.log == old(eb.log) + EventDeliveries(eb.subscribers, [e])
    {
      var outcome := eb.Publish(Some(e.envelope), [Str(e.topic)]);
      PublishOne(eb.subscribers, e.envelope, e.topic);
      EventDeliveriesOne(eb.subscribers, e);
      assert outcome == Pass;
    }

    /** The tag fields of a tag event, with `arrToHex` applied to the tag code. */
    method MakeTagFields(msg: Message) returns (tag: TagFields)
      ensures tag == TagFieldsOf(libs, msg)
    {
      var code := libs.getTagCode(msg);
      var codeStr := ArrToHex(code);
      tag := TagFields(libs.getTagType(msg), libs.resolveTagType(libs.getTagType(msg)), code, codeStr);
    }

    /** The listener's steps after the family check, by what resolution came to. */
    method PublishResolution(msg: Message, resolution: Resolution<Response>)
      modifies eb`log
      ensures eb.log == old(eb.log) + EventDeliveries(eb.subscribers, ResolutionEvents(build, libs, msg, resolution))
    {
      match resolution {
        case Threw(err) =>
          var error := if build == Source then Some(err) else None;
          var invalid := Event(INVALID_MESSAGE, InvalidMessage(msg, error));
          PublishEvent(invalid);
        case ReturnedNull =>
        case Returned(resolved) =>
          var tag := MakeTagFields(msg);
          var e := ClassifyResponse(libs, msg, resolved, tag);
          if e.Some? {
            PublishEvent(e.value);
          }
      }
    }

    /** The message listener. */
    method OnMessage(msg: Message)
      modifies eb`log
      ensures eb.log == old(eb.log) + EventDeliveries(eb.subscribers, MessageEvents(build, libs, mux.resolvers, msg))
    {
      var received := Event(RECEIVED, Received(msg));
      PublishEvent(received);
      var supported := mux.CheckFamily(msg);
      if !supported {
        ListenerSplit(build, libs, mux.resolvers, msg, None);
        ListenerLog(eb.subscribers, received, []);
        return;
      }
      var resolution := mux.ResolveResponse(msg);
      ListenerSplit(build, libs, mux.resolvers, msg, Some(resolution));
      PublishResolution(msg, resolution);
      EventDeliveriesAppend(eb.subscribers, [received], ResolutionEvents(build, libs, msg, resolution));
    }

    /** The error listener. */
    method OnError(errorType: int, data: JsValue)
      modifies eb`log
      ensures eb.log == old(eb.log) + EventDeliveries(eb.subscribers, DriverErrorEvents(libs.errorTypes, errorType, data))
    {
      var description := ErrorDescription(libs.errorTypes, errorType);
      PublishEvent(Event(DRIVER_ERROR, DriverError(errorType, data, description)));
    }

    /** `sendMessage(msg)`: hands the message to the driver, then publishes it on sent. */
    method SendMessage(c: Command)
      modifies this`driverSent, eb`log
      ensures driverSent == old(driverSent) + [c]
      ensures eb.log == old(eb.log) + EventDeliveries(eb.subscribers, SentEvents(c))
    {
      driverSent := driverSent + [c];
      PublishEvent(Event(SENT, Sent(c)));
    }

    method DetectTag(continuous: JsValue)
      modifies this`driverSent, eb`log
      ensures driverSent == old(driverSent) + [DetectTagCommand(continuous)]
      ensures eb.log == old(eb.log) + EventDeliveries(eb.subscribers, SentEvents(DetectTagCommand(continuous)))
    {
      SendMessage(DetectTagCommand(continuous));
    }

    method DetectNdef(continuous: JsValue)
      modifies this`driverSent, eb`log
      ensures driverSent == old(driverSent) + [DetectNdefCommand(continuous)]
      ensures eb.log == old(eb.log) + EventDeliveries(eb.subscribers, SentEvents(DetectNdefCommand(continuous)))
    {
      SendMessage(DetectNdefCommand(continuous));
    }

    /** `writeUrl`: an alias that forwards its arguments to `writeUri`. */
    method WriteUrl(uri: JsValue, lock: JsValue)
      modifies this`driverSent, eb`log
      ensures driverSent == old(driverSent) + [WriteUriCommand(libs, uri, lock)]
      ensures eb.log == old(eb.log) + EventDeliveries(eb.subscribers, SentEvents(WriteUriCommand(libs, uri, lock)))
    {
      WriteUri(uri, lock);
    }

    method WriteUri(uri: JsValue, lock: JsValue)
      modifies this`driverSent, eb`log
      ensures driverSent == old(driverSent) + [WriteUriCommand(libs, uri, lock)]
      ensures eb.log == old(eb.log) + EventDeliveries(eb.subscribers, SentEvents(WriteUriCommand(libs, uri, lock)))
    {
      SendMessage(WriteUriCommand(libs, uri, lock));
    }

    method WriteText(text: JsValue, lock: JsValue)
      modifies this`driverSent, eb`log
      ensures driverSent == old(driverSent) + [WriteTextCommand(text, lock)]
      ensures eb.log == old(eb.log) + EventDeliveries(eb.subscribers, SentEvents(WriteTextCommand(text, lock)))
    {
      SendMessage(WriteTextCommand(text, lock));
    }

    method WriteNdef(data: JsValue, lock: JsValue)
      modifies this`driverSent, eb`log
      ensures driverSent == old(driverSent) + [WriteNdefCommand(data, lock)]
      ensures eb.log == old(eb.log) + EventDeliveries(eb.subscribers, SentEvents(WriteNdefCommand(data, lock)))
    {
      SendMessage(WriteNdefCommand(data, lock));
    }

    /** `lockTag(uid)` */
    method LockTag(uid: JsValue)
      modifies this`driverSent, eb`log
      ensures driverSent == old(driverSent) + [LockTagCommand(uid)]
      ensures eb.log == old(eb.log) + EventDeliveries(eb.subscribers, SentEvents(LockTagCommand(uid)))
    {
      SendMessage(LockTagCommand(uid));
    }

    /** `stop()`: exactly one Stop, whatever came before. */
    method Stop()
      modifies this`driverSent, eb`log
      ensures driverSent == old(driverSent) + [Command.Stop]
      ensures eb.log == old(eb.log) + EventDeliveries(eb.subscribers, SentEvents(Command.Stop))
    {
      SendMessage(Command.Stop);
    }
  }

  /** The stop test: a sent subscriber sees exactly one call, carrying the Stop command. */
  lemma StopSendsOneStop(subs: map<string, SubscriberId>, id: SubscriberId)
    requires SENT in subs && subs[SENT] == id
    ensures EventDeliveries(subs, SentEvents(Stop)) == [Delivery(id, Sent(Stop))]
  {
    EventDeliveriesOne(subs, Event(SENT, Sent(Stop)));
  }
}
