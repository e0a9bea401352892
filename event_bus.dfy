/**
 * `EventBus`: one subscriber per topic, the last registration wins; `publish`
 * hands its payload to the subscriber of each listed topic, in argument order.
 * Subscribers are known by their identity; a call to one is recorded as a
 * `Delivery` in the bus's log.
 */
module Bus {
  import opened Js
  import opened Wrappers

  type SubscriberId = nat

  /** One call `subscriber(payload)`. */
  datatype Delivery<P> = Delivery(subscriber: SubscriberId, payload: P)

  /** The errors `publish` and `setSubscriber` throw. */
  datatype BusError =
    | MissingMessage
    | MissingTopics
    | TopicNotString
    | SubscriberNotFunction
    | SubjectNotString

  /** The message of the `Error` each case throws. */
  function ErrorText(e: BusError): string
  {
    match e
    case MissingMessage => "Must specify a message to publish"
    case MissingTopics => "Must specify one message and one or more topics"
    case TopicNotString => "Invalid argument specified, must be a string topic"
    case SubscriberNotFunction => "Subscriber must be a function"
    case SubjectNotString => "Must subscribe to a string subject"
  }

  /**
   * `setSubscriber(topic, subscriber)`: the outcome and the new table. The
   * subscriber is checked before the topic; a rejected call leaves the table as
   * it was, an accepted one gives the topic its new single subscriber and keeps
   * every other topic's.
   */
  function SetSubscriberSpec(subs: map<string, SubscriberId>, topic: JsValue, subscriber: JsValue)
    : (r: (Outcome<BusError>, map<string, SubscriberId>))
    ensures r.0 == Fail(SubscriberNotFunction) <==> !subscriber.Function?
    ensures r.0 == Fail(SubjectNotString) <==> subscriber.Function? && !topic.Str?
    ensures r.0 == Pass <==> subscriber.Function? && topic.Str?
    ensures r.0.Fail? ==>
      ErrorText(r.0.error) == (if subscriber.Function? then "Must subscribe to a string subject" else "Subscriber must be a function")
    ensures r.0.Fail? ==> r.1 == subs
    ensures r.0.Pass? ==> r.1.Keys == subs.Keys + {topic.s} && r.1[topic.s] == subscriber.id
    ensures forall t :: t in subs && !(r.0.Pass? && t == topic.s) ==> t in r.1 && r.1[t] == subs[t]
  {
    if !subscriber.Function? then (Fail(SubscriberNotFunction), subs)
    else if !topic.Str? then (Fail(SubjectNotString), subs)
    else (Pass, subs[topic.s := subscriber.id])
  }

  /** The call `self.subscribers[topic](message)`, when there is one. */
  function DeliveryTo<P>(subs: map<string, SubscriberId>, payload: P, topic: string): seq<Delivery<P>>
  {
    if topic in subs then [Delivery(subs[topic], payload)] else []
  }

  predicate AllStrings(topics: seq<JsValue>)
  {
    forall i :: 0 <= i < |topics| ==> topics[i].Str?
  }

  /**
   * The calls the topic loop of `publish` makes: topics in order, unregistered
   * ones skipped, and nothing from the first non-string topic on.
   */
  function Deliveries<P>(subs: map<string, SubscriberId>, payload: P, topics: seq<JsValue>): (r: seq<Delivery<P>>)
    ensures |r| <= |topics|
    ensures forall d :: d in r ==> d.payload == payload
  {
    if topics == [] || !topics[0].Str? then []
    else DeliveryTo(subs, payload, topics[0].s) + Deliveries(subs, payload, topics[1..])
  }

  /** Whether `publish(message, topics...)` returns or throws, and what. */
  function PublishOutcome<P>(message: Option<P>, topics: seq<JsValue>): (r: Outcome<BusError>)
    ensures r == Pass <==> message.Some? && |topics| > 0 && AllStrings(topics)
    ensures r.Fail? ==>
      ErrorText(r.error) == (if message.None? then "Must specify a message to publish"
                             else if |topics| == 0 then "Must specify one message and one or more topics"
                             else "Invalid argument specified, must be a string topic")
  {
    if message.None? then Fail(MissingMessage)
    else if |topics| == 0 then Fail(MissingTopics)
    else if !AllStrings(topics) then Fail(TopicNotString)
    else Pass
  }

  /** The calls `publish(message, topics...)` makes, also when it ends by throwing. */
  function Published<P>(subs: map<string, SubscriberId>, message: Option<P>, topics: seq<JsValue>): (r: seq<Delivery<P>>)
    ensures message.None? || |topics| == 0 ==> r == []
    ensures |r| <= |topics|
    ensures forall d :: d in r ==> message.Some? && d.payload == message.value
  {
    if message.None? || |topics| == 0 then [] else Deliveries(subs, message.value, topics)
  }

  class EventBus<P> {
    /** `this.subscribers`: the one subscriber of each topic that has one. */
    var subscribers: map<string, SubscriberId>
    /** Every call of a subscriber made so far, oldest first. */
    ghost var log: seq<Delivery<P>>

    constructor ()
      ensures subscribers == map[] && log == []
    {
      subscribers := map[];
      log := [];
    }

    /** `setSubscriber(topic, subscriber)` */
    method SetSubscriber(topic: JsValue, subscriber: JsValue) returns (r: Outcome<BusError>)
      modifies this`subscribers
      ensures (r, subscribers) == SetSubscriberSpec(old(subscribers), topic, subscriber)
    {
      if !subscriber.Function? {
        return Fail(SubscriberNotFunction);
      }
      if !topic.Str? {
        return Fail(SubjectNotString);
      }
      subscribers := subscribers[topic.s := subscriber.id];
      r := Pass;
    }

    /** `publish(message, topics...)`; `None` stands for an undefined message. */
    method Publish(message: Option<P>, topics: seq<JsValue>) returns (r: Outcome<BusError>)
      modifies this`log
      ensures r == PublishOutcome(message, topics)
      ensures log == old(log) + Published(subscribers, message, topics)
    {
      if message.None? {
        return Fail(MissingMessage);
      }
      if |topics| == 0 {
        return Fail(MissingTopics);
      }
      var i := 0;
      while i < |topics|
        invariant 0 <= i <= |topics|
        invariant AllStrings(topics[..i])
        invariant log == old(log) + Deliveries(subscribers, message.value, topics[..i])
      {
        ghost var done := topics[..i];
        assert topics[..i + 1] == done + [topics[i]];
        if !topics[i].Str? {
          DeliveriesStopAt(subscribers, message.value, topics, i);
          return Fail(TopicNotString);
        }
        DeliveriesAppend(subscribers, message.value, done, [topics[i]]);
        if topics[i].s in subscribers {
          log := log + [Delivery(subscribers[topics[i].s], message.value)];
        }
        i := i + 1;
      }
      assert topics[..i] == topics;
      r := Pass;
    }
  }

  /** Delivering to `a` then `b` is delivering to `a + b`, when `a` holds only strings. */
  lemma {:induction false} DeliveriesAppend<P>(subs: map<string, SubscriberId>, p: P, a: seq<JsValue>, b: seq<JsValue>)
    requires AllStrings(a)
    ensures Deliveries(subs, p, a + b) == Deliveries(subs, p, a) + Deliveries(subs, p, b)
    decreases |a|
  {
    if a == [] {
      assert a + b == b;
    } else {
      assert (a + b)[0] == a[0] && (a + b)[1..] == a[1..] + b;
      assert AllStrings(a[1..]) by {
        forall i | 0 <= i < |a[1..]| ensures a[1..][i].Str? { assert a[1..][i] == a[i + 1]; }
      }
      DeliveriesAppend(subs, p, a[1..], b);
    }
  }

  /** A non-string topic at position k: the deliveries are those of the topics before it. */
  lemma {:induction false} DeliveriesStopAt<P>(subs: map<string, SubscriberId>, p: P, topics: seq<JsValue>, k: nat)
    requires k < |topics| && !topics[k].Str? && AllStrings(topics[..k])
    ensures Deliveries(subs, p, topics) == Deliveries(subs, p, topics[..k])
  {
    assert topics == topics[..k] + topics[k..];
    DeliveriesAppend(subs, p, topics[..k], topics[k..]);
  }

  /**
   * `publish` throws at the first non-string topic, after delivering to the
   * topics before it.
   */
  lemma PublishThrowsAtNonString<P>(subs: map<string, SubscriberId>, p: P, topics: seq<JsValue>, k: nat)
    requires k < |topics| && !topics[k].Str? && AllStrings(topics[..k])
    ensures PublishOutcome(Some(p), topics) == Fail(TopicNotString)
    ensures Published(subs, Some(p), topics) == Deliveries(subs, p, topics[..k])
  {
    DeliveriesStopAt(subs, p, topics, k);
  }

  lemma AllStringsAppend(a: seq<JsValue>, b: seq<JsValue>)
    requires AllStrings(a) && AllStrings(b)
    ensures AllStrings(a + b)
  {
    forall i | 0 <= i < |a + b| ensures (a + b)[i].Str? {
      if i < |a| { assert (a + b)[i] == a[i]; } else { assert (a + b)[i] == b[i - |a|]; }
    }
  }

  /** An unregistered topic is skipped wherever it stands in the list. */
  lemma PublishSkipsUnregistered<P>(subs: map<string, SubscriberId>, p: P, a: seq<JsValue>, t: string, b: seq<JsValue>)
    requires AllStrings(a) && t !in subs
    ensures Deliveries(subs, p, a + [Str(t)] + b) == Deliveries(subs, p, a + b)
  {
    var one := [Str(t)];
    AllStringsAppend(a, one);
    assert one[1..] == [];
    assert Deliveries(subs, p, one) == [];
    calc {
      Deliveries(subs, p, a + one + b);
      { DeliveriesAppend(subs, p, a + one, b); }
      Deliveries(subs, p, a + one) + Deliveries(subs, p, b);
      { DeliveriesAppend(subs, p, a, one); }
      Deliveries(subs, p, a) + Deliveries(subs, p, b);
      { DeliveriesAppend(subs, p, a, b); }
      Deliveries(subs, p, a + b);
    }
  }

  /** Publishing only to topics nobody subscribed to returns normally and calls nobody. */
  lemma {:induction false} PublishUnregisteredIsNoOp<P>(subs: map<string, SubscriberId>, p: P, topics: seq<JsValue>)
    requires |topics| > 0
    requires forall i :: 0 <= i < |topics| ==> topics[i].Str? && topics[i].s !in subs
    ensures PublishOutcome(Some(p), topics) == Pass
    ensures Published(subs, Some(p), topics) == []
  {
    NoDeliveries(subs, p, topics);
  }

  lemma {:induction false} NoDeliveries<P>(subs: map<string, SubscriberId>, p: P, topics: seq<JsValue>)
    requires forall i :: 0 <= i < |topics| ==> topics[i].Str? && topics[i].s !in subs
    ensures Deliveries(subs, p, topics) == []
    decreases |topics|
  {
    if topics != [] {
      forall i | 0 <= i < |topics[1..]| ensures topics[1..][i].Str? && topics[1..][i].s !in subs {
        assert topics[1..][i] == topics[i + 1];
      }
      NoDeliveries(subs, p, topics[1..]);
    }
  }

  /** Every delivery goes to the registered subscriber of one of the listed string topics. */
  lemma {:induction false} DeliveriesAreToSubscribers<P>(subs: map<string, SubscriberId>, p: P, topics: seq<JsValue>)
    ensures forall d :: d in Deliveries(subs, p, topics) ==>
      exists i :: 0 <= i < |topics| && topics[i].Str? && topics[i].s in subs && subs[topics[i].s] == d.subscriber
    decreases |topics|
  {
    if topics != [] && topics[0].Str? {
      DeliveriesAreToSubscribers(subs, p, topics[1..]);
      forall d | d in Deliveries(subs, p, topics[1..])
        ensures exists i :: 0 <= i < |topics| && topics[i].Str? && topics[i].s in subs && subs[topics[i].s] == d.subscriber
      {
        var j :| 0 <= j < |topics[1..]| && topics[1..][j].Str? && topics[1..][j].s in subs && subs[topics[1..][j].s] == d.subscriber;
        assert topics[j + 1] == topics[1..][j];
      }
    }
  }

  /** Publishing to one string topic: one call if the topic has a subscriber, none otherwise. */
  lemma PublishOne<P>(subs: map<string, SubscriberId>, p: P, t: string)
    ensures PublishOutcome(Some(p), [Str(t)]) == Pass
    ensures Published(subs, Some(p), [Str(t)]) == DeliveryTo(subs, p, t)
  {
    assert [Str(t)][1..] == [];
    assert Deliveries(subs, p, [Str(t)]) == DeliveryTo(subs, p, t) + [];
  }

  /**
   * A second registration on a topic replaces the first: only the latest
   * subscriber is called.
   */
  lemma LastRegistrationWins<P>(subs: map<string, SubscriberId>, t: string, first: SubscriberId, second: SubscriberId, p: P)
    ensures var (r1, s1) := SetSubscriberSpec(subs, Str(t), Function(first));
            var (r2, s2) := SetSubscriberSpec(s1, Str(t), Function(second));
            r1 == Pass && r2 == Pass && Published(s2, Some(p), [Str(t)]) == [Delivery(second, p)]
  {
    var s2 := SetSubscriberSpec(SetSubscriberSpec(subs, Str(t), Function(first)).1, Str(t), Function(second)).1;
    PublishOne(s2, p, t);
  }
}
