/** The `/event` handler of the gateway (gateway.js:8-35): turn the body into a list,
    route each event by its kind to a fixed channel and publish the events one after
    the other; the first failure ends the loop. */
module Gateway {
  import opened Schema

  /** One element of the request body.  `Null` is a JSON `null`.  `BadKind` is an element
      whose `kind` is an object with no primitive conversion (its `toString` is not
      callable and `valueOf` gives back the object, as in `{"kind": {"toString": 0}}`), so
      turning it into a property key throws a TypeError.  Any other value is a `Value`
      whose `kind` is the property key the lookup uses (a missing kind is the key
      "undefined", any other non-string kind its string conversion). */
  datatype Item<P> = Null | BadKind(payload: P) | Value(kind: string, payload: P)
  {
    /** Evaluating `eventMap[event.kind]` on this element throws. */
    predicate Throws() { !Value? }
  }

  /** `req.body`: a single JSON value or an array of them. */
  datatype Body<P> = One(item: Item<P>) | Many(items: seq<Item<P>>)

  /** One successful `broker.publish(channel, event)`. */
  datatype Publication<P> = Publication(channel: string, event: Item<P>)

  /** The HTTP response of the handler, with the publishes it did before responding. */
  datatype Response<P> = Response(published: seq<Publication<P>>, status: int)

  const Accepted: int := 202
  const BrokerError: int := 500

  /** `eventMap`, the five own properties of the object literal. */
  const EventMap: map<string, string> := map[
    "dino_added" := "service:dino_add",
    "dino_removed" := "service:dino_remove",
    "dino_location_updated" := "service:dino_move",
    "dino_fed" := "service:dino_feed",
    "maintenance_performed" := "service:maintenance"]

  /** The list of events: the array itself, or a single value wrapped in a list. */
  function Events<P>(body: Body<P>): (items: seq<Item<P>>)
    ensures body.One? ==> items == [body.item]
    ensures body.Many? ==> items == body.items
  {
    match body
    case One(item) => [item]
    case Many(items) => items
  }

  /** The channel of an event kind: one of the five fixed channels for the five known
      kinds, none for any other kind. */
  function ChannelOf(kind: string): (c: Option<string>)
    ensures c.Some? <==> kind in EventMap.Keys
    ensures c.Some? ==> c.value == EventMap[kind]
  {
    if kind in EventMap then Some(EventMap[kind]) else None
  }

  /** Each known kind has a channel of its own: no two kinds share one. */
  lemma ChannelsDistinct(k1: string, k2: string)
    requires ChannelOf(k1).Some? && ChannelOf(k2).Some? && k1 != k2
    ensures ChannelOf(k1) != ChannelOf(k2)
  {
  }

  /** What the loop would do over `items` with a broker that never fails: the
      publications of the known-kind items before the first element that throws (a
      `null` or a bad kind), and whether such an element was reached. */
  datatype Route<P> = Route(pubs: seq<Publication<P>>, throws: bool)

  function RouteOf<P>(items: seq<Item<P>>): (r: Route<P>)
    ensures |r.pubs| <= |items|
    ensures forall i :: 0 <= i < |r.pubs| ==>
      r.pubs[i].event.Value? && ChannelOf(r.pubs[i].event.kind) == Some(r.pubs[i].channel)
    ensures r.throws <==> exists i :: 0 <= i < |items| && items[i].Throws()
  {
    if items == [] then Route([], false)
    else if items[0].Throws() then Route([], true)
    else
      var rest := RouteOf(items[1..]);
      assert items == [items[0]] + items[1..];
      match ChannelOf(items[0].kind)
      case None => rest
      case Some(channel) => Route([Publication(channel, items[0])] + rest.pubs, rest.throws)
  }

  /** Routing is a homomorphism on concatenation: the events of `a` come out before
      those of `b`, in input order, unless `a` already throws. */
  lemma {:induction false} RouteOfAppend<P>(a: seq<Item<P>>, b: seq<Item<P>>)
    ensures RouteOf(a + b) ==
      if RouteOf(a).throws then RouteOf(a) else Route(RouteOf(a).pubs + RouteOf(b).pubs, RouteOf(b).throws)
  {
    if a == [] {
      assert a + b == b;
    } else {
      var ab := a + b;
      assert ab[0] == a[0] && ab[1..] == a[1..] + b;
      if !a[0].Throws() {
        RouteOfAppend(a[1..], b);
        var ra, rb, rt := RouteOf(a[1..]), RouteOf(b), RouteOf(a[1..] + b);
        match ChannelOf(a[0].kind)
        case None =>
          assert RouteOf(a) == ra && RouteOf(ab) == rt;
        case Some(channel) =>
          var p := Publication(channel, a[0]);
          assert RouteOf(a) == Route([p] + ra.pubs, ra.throws);
          assert RouteOf(ab) == Route([p] + rt.pubs, rt.throws);
          assert [p] + (ra.pubs + rb.pubs) == [p] + ra.pubs + rb.pubs;
      }
    }
  }

  /** A single item: published to its channel when its kind is known, skipped when not. */
  lemma RouteOfOne<P>(x: Item<P>)
    ensures RouteOf([x]) ==
      if x.Throws() then Route([], true)
      else if ChannelOf(x.kind).Some? then Route([Publication(ChannelOf(x.kind).value, x)], false)
      else Route([], false)
  {
  }

  /** An unknown kind anywhere in the list is never published and does not change what
      is published around it. */
  lemma UnknownKindIsSkipped<P>(a: seq<Item<P>>, x: Item<P>, b: seq<Item<P>>)
    requires x.Value? && ChannelOf(x.kind).None?
    ensures RouteOf(a + [x] + b) == RouteOf(a + b)
  {
    RouteOfAppend(a + [x], b);
    RouteOfAppend(a, [x]);
    RouteOfAppend(a, b);
    RouteOfOne(x);
    assert RouteOf(a + [x]).pubs == RouteOf(a).pubs + [];
  }

  /** The response to `body` when the publish call with index `failAt` (counting from 0)
      is the first to fail, or when none fails (`failAt == None`). */
  function Respond<P>(body: Body<P>, failAt: Option<nat>): (r: Response<P>)
    ensures r.status == Accepted || r.status == BrokerError
    ensures r.status == Accepted <==>
      !RouteOf(Events(body)).throws && (failAt.None? || failAt.value >= |RouteOf(Events(body)).pubs|)
    ensures r.status == Accepted ==> r.published == RouteOf(Events(body)).pubs
    ensures r.published <= RouteOf(Events(body)).pubs
    ensures failAt.Some? && failAt.value < |RouteOf(Events(body)).pubs| ==> |r.published| == failAt.value
    ensures failAt.None? || failAt.value >= |RouteOf(Events(body)).pubs| ==> r.published == RouteOf(Events(body)).pubs
  {
    var route := RouteOf(Events(body));
    if failAt.Some? && failAt.value < |route.pubs| then Response(route.pubs[..failAt.value], BrokerError)
    else Response(route.pubs, if route.throws then BrokerError else Accepted)
  }

  /** A single object is handled exactly as a one-element array. */
  lemma SingleIsBatchOfOne<P>(x: Item<P>, failAt: Option<nat>)
    ensures Respond(One(x), failAt) == Respond(Many([x]), failAt)
  {
  }

  /** An empty array publishes nothing and is accepted. */
  lemma EmptyBatchIsAccepted<P>(failAt: Option<nat>)
    ensures var empty: seq<Item<P>> := []; Respond(Many(empty), failAt) == Response([], Accepted)
  {
  }

  /** An element whose kind cannot become a property key makes the whole request fail
      with 500, wherever it stands in the batch. */
  lemma BadKindIsRejected<P>(a: seq<Item<P>>, p: P, b: seq<Item<P>>, failAt: Option<nat>)
    ensures Respond(Many(a + [BadKind(p)] + b), failAt).status == BrokerError
  {
    var items := a + [BadKind(p)] + b;
    assert items[|a|].Throws();
  }

  /** The routes of a prefix and of one more item, related to the route of the whole list. */
  lemma {:induction false} RouteStep<P>(items: seq<Item<P>>, i: nat)
    requires i < |items| && !RouteOf(items[..i]).throws
    ensures items[i].Throws() ==> RouteOf(items) == Route(RouteOf(items[..i]).pubs, true)
    ensures items[i].Value? ==>
      RouteOf(items[..i + 1]) == Route(RouteOf(items[..i]).pubs + RouteOf([items[i]]).pubs, false)
    ensures !RouteOf(items[..i + 1]).throws ==> RouteOf(items[..i + 1]).pubs <= RouteOf(items).pubs
  {
    var x := items[i];
    assert items[..i + 1] == items[..i] + [x];
    RouteOfAppend(items[..i], [x]);
    RouteOfOne(x);
    assert items[..i + 1] + items[i + 1..] == items;
    RouteOfAppend(items[..i + 1], items[i + 1..]);
  }

  /** The handler: `failAt` says which publish call fails first, if any. */
  method HandleEvent<P>(body: Body<P>, failAt: Option<nat>) returns (published: seq<Publication<P>>, status: int)
    ensures Response(published, status) == Respond(body, failAt)
  {
    var events := Events(body);
    published := [];
    for i := 0 to |events|
      invariant !RouteOf(events[..i]).throws && published == RouteOf(events[..i]).pubs
      invariant failAt.None? || failAt.value >= |published|
    {
      var event := events[i];
      RouteStep(events, i);
      RouteOfOne(event);
      if event.Throws() {
        // `event.kind` on `null`, or the key conversion of a bad kind, throws a
        // TypeError; the `catch` answers 500.
        status := BrokerError;
        return;
      }
      var channel := ChannelOf(event.kind);
      if channel.Some? {
        if failAt == Some(|published|) {
          // `await broker.publish(...)` rejects; the `catch` answers 500.
          status := BrokerError;
          return;
        }
        published := published + [Publication(channel.value, event)];
      }
    }
    assert events[..|events|] == events;
    status := Accepted;
  }

  // ---------------------------------------------------------------------------
  // The lookup as written

  /** The names `Object.prototype` gives every object literal. */
  const PrototypeNames: set<string> := {
    "constructor", "__proto__", "hasOwnProperty", "isPrototypeOf", "propertyIsEnumerable",
    "toString", "toLocaleString", "valueOf", "__defineGetter__", "__defineSetter__",
    "__lookupGetter__", "__lookupSetter__"}

  /** What `eventMap[event.kind]` yields: an own property, a member inherited from
      `Object.prototype` (a function or object, so truthy), or `undefined`. */
  datatype Lookup = Own(channel: string) | Inherited(name: string) | Undefined

  function LookupAsWritten(kind: string): (l: Lookup)
    ensures l.Own? <==> kind in EventMap.Keys
    ensures l.Own? ==> l.channel == EventMap[kind]
    ensures l.Inherited? <==> kind !in EventMap.Keys && kind in PrototypeNames
  {
    if kind in EventMap then Own(EventMap[kind])
    else if kind in PrototypeNames then Inherited(kind)
    else Undefined
  }

  /** `if (channel)` as written: true for every lookup but `undefined`. */
  predicate PublishesAsWritten(kind: string)
  {
    !LookupAsWritten(kind).Undefined?
  }

  /** The guard lets the kind "constructor" through although it is not a known kind, so
      the loop calls `broker.publish` with a function as the channel. */
  lemma InheritedKindReachesPublish()
    ensures PublishesAsWritten("constructor")
    ensures ChannelOf("constructor").None?
  {
  }

  /** The own-property lookup the rest of the model uses agrees with the source on every
      kind not inherited from `Object.prototype`, and publishes only known kinds. */
  lemma ChannelOfAgreesOffPrototype(kind: string)
    ensures kind !in PrototypeNames ==> (PublishesAsWritten(kind) <==> ChannelOf(kind).Some?)
    ensures ChannelOf(kind).Some? ==> LookupAsWritten(kind) == Own(ChannelOf(kind).value)
  {
  }
}
