/** The middleware that gives an envelope bound for AMQP a routing key derived from
    its message's wire type (`src/Middleware/AmqpMessageRoutingKeyByTypeMiddleware.php`).
    The rest of the middleware stack is a function from envelopes to outcomes. */
module Middleware {
  import opened Wrappers
  import opened Failures
  import opened PhpArray
  import opened PhpString
  import opened Service
  import opened Messenger

  const MessageTypePlaceholder := "{messageType}"

  /** The last `AmqpStamp` has a routing key that is not empty in PHP's sense. */
  predicate HasRoutingKey(s: Option<Stamp>) {
    s.Some? && s.value.AmqpStamp? && s.value.routingKey.Some? && !Empty(s.value.routingKey.value)
  }

  /** `$amqpStamp ? $amqpStamp->getFlags() : \AMQP_NOPARAM` */
  function PreviousFlags(s: Option<Stamp>): int {
    match s
    case Some(AmqpStamp(_, flags, _)) => flags
    case _ => AMQP_NOPARAM
  }

  /** `$amqpStamp ? $amqpStamp->getAttributes() : []` */
  function PreviousAttributes(s: Option<Stamp>): seq<(string, string)> {
    match s
    case Some(AmqpStamp(_, _, attributes)) => attributes
    case _ => []
  }

  class AmqpMessageRoutingKeyByTypeMiddleware {
    const typeLocator: TypeLocator
    const routingKeyPattern: string

    /** The pattern names the placeholder, as the constructor demands. */
    predicate Valid() {
      Contains(routingKeyPattern, MessageTypePlaceholder)
    }

    constructor (typeLocator: TypeLocator, routingKeyPattern: string)
      requires Contains(routingKeyPattern, MessageTypePlaceholder)
      ensures this.typeLocator == typeLocator && this.routingKeyPattern == routingKeyPattern
      ensures Valid()
    {
      this.typeLocator := typeLocator;
      this.routingKeyPattern := routingKeyPattern;
    }

    /** `new AmqpMessageRoutingKeyByTypeMiddleware(...)`: a pattern without the
        placeholder is refused. */
    static method Create(typeLocator: TypeLocator, routingKeyPattern: string)
      returns (r: Result<AmqpMessageRoutingKeyByTypeMiddleware, Failure>)
      ensures r.Failure? <==> !Contains(routingKeyPattern, MessageTypePlaceholder)
      ensures r.Failure? ==> r.error == InvalidRoutingKeyPattern(routingKeyPattern)
      ensures r.Success? ==> fresh(r.value) && r.value.Valid() &&
                             r.value.typeLocator == typeLocator && r.value.routingKeyPattern == routingKeyPattern
    {
      if !Contains(routingKeyPattern, MessageTypePlaceholder) {
        return Failure(InvalidRoutingKeyPattern(routingKeyPattern));
      }
      var m := new AmqpMessageRoutingKeyByTypeMiddleware(typeLocator, routingKeyPattern);
      return Success(m);
    }

    /** `strtr($this->routingKeyPattern, ['{messageType}' => $messageType])` */
    function RoutingKey(messageType: string): string {
      ReplaceAll(routingKeyPattern, MessageTypePlaceholder, messageType)
    }

    /** The envelope `handle` passes on: unchanged when its last `AmqpStamp` has a
        routing key, otherwise with every `AmqpStamp` replaced by one that carries
        the routing key of the message's type. */
    function Routed(e: Envelope): Result<Envelope, Failure>
      reads typeLocator
    {
      var amqpStamp := Last(e, AmqpStampClass);
      if HasRoutingKey(amqpStamp) then Success(e)
      else
        match typeLocator.GetMessageTypeByClassName(e.message.className)
        case Failure(err) => Failure(err)
        case Success(messageType) =>
          var stamp := AmqpStamp(Some(RoutingKey(messageType)), PreviousFlags(amqpStamp), PreviousAttributes(amqpStamp));
          Success(With(WithoutAll(e, AmqpStampClass), stamp))
    }

    /** `handle`: the next middleware sees the routed envelope, and its result is
        returned; a failed lookup never reaches it. */
    function Handle(e: Envelope, next: Envelope -> Result<Envelope, Failure>): Result<Envelope, Failure>
      reads typeLocator
    {
      match Routed(e)
      case Failure(err) => Failure(err)
      case Success(routed) => next(routed)
    }

    // ------------------------------------------------------------ lemmas

    /** An envelope that already has a routing key goes on as it is. */
    lemma PassThrough(e: Envelope, next: Envelope -> Result<Envelope, Failure>)
      requires HasRoutingKey(Last(e, AmqpStampClass))
      ensures Routed(e) == Success(e)
      ensures Handle(e, next) == next(e)
    {
    }

    /** Without a routing key, the message class must have a type; otherwise the
        lookup's failure is the result and the next middleware is not called. */
    lemma UnknownMessageClassStops(e: Envelope, next: Envelope -> Result<Envelope, Failure>)
      requires !HasRoutingKey(Last(e, AmqpStampClass))
      requires typeLocator.GetMessageTypeByClassName(e.message.className).Failure?
      ensures Handle(e, next) == Failure(UnknownMessageClassName(e.message.className))
    {
    }

    /** A rewrite leaves exactly one `AmqpStamp`, in a group at the end: it carries the
        routing key of the message's type and the flags and attributes of the stamp it
        replaces.  The message and every other class's stamps are unchanged, and a
        well-formed envelope stays well-formed. */
    lemma Rewrite(e: Envelope, next: Envelope -> Result<Envelope, Failure>)
      requires Messenger.Valid(e) && !HasRoutingKey(Last(e, AmqpStampClass))
      requires typeLocator.GetMessageTypeByClassName(e.message.className).Success?
      ensures Routed(e).Success?
      ensures
        var r := Routed(e).value;
        var t := typeLocator.GetMessageTypeByClassName(e.message.className).value;
        var old_stamp := Last(e, AmqpStampClass);
        var stamp := AmqpStamp(Some(RoutingKey(t)), PreviousFlags(old_stamp), PreviousAttributes(old_stamp));
        && r.message == e.message
        && All(r, AmqpStampClass) == [stamp]
        && Last(r, AmqpStampClass) == Some(stamp)
        && r.stamps[|r.stamps| - 1] == (AmqpStampClass, [stamp])
        && (forall c :: c != AmqpStampClass ==> All(r, c) == All(e, c))
        && Messenger.Valid(r)
        && Handle(e, next) == next(r)
    {
      var t := typeLocator.GetMessageTypeByClassName(e.message.className).value;
      var old_stamp := Last(e, AmqpStampClass);
      var stamp := AmqpStamp(Some(RoutingKey(t)), PreviousFlags(old_stamp), PreviousAttributes(old_stamp));
      assert ValidGroup((ClassOf(stamp), [stamp]));
      ReplaceClassSpec(e, stamp);
    }

    /** Once routed, an envelope passes through unchanged: handling is idempotent. */
    lemma RoutedTwice(e: Envelope)
      requires Valid() && Messenger.Valid(e) && Routed(e).Success?
      ensures Routed(Routed(e).value) == Routed(e)
    {
      if !HasRoutingKey(Last(e, AmqpStampClass)) {
        var t := typeLocator.GetMessageTypeByClassName(e.message.className).value;
        Rewrite(e, (x: Envelope) => Success(x));
        RoutingKeyNotEmpty(t);
      }
    }

    /** A routing key built from a type that is not empty is not empty either. */
    lemma RoutingKeyNotEmpty(messageType: string)
      requires Valid() && !Empty(messageType)
      ensures !Empty(RoutingKey(messageType))
    {
      var r := RoutingKey(messageType);
      ReplaceAllKeepsValue(routingKeyPattern, MessageTypePlaceholder, messageType);
      var j :| 0 <= j <= |r| && OccursAt(r, messageType, j);
      assert |r| >= |messageType| > 0;
      if |r| == 1 {
        assert j == 0 && r == r[0..1] == messageType;
      }
    }

    /** The routing key of the middleware's test. */
    lemma RoutingKeyExample()
      requires routingKeyPattern == "some-namespace.{messageType}"
      ensures RoutingKey("user.created") == "some-namespace.user.created"
    {
      ExamplePatternSplit();
      ReplaceAllAfterPrefix("some-namespace.", MessageTypePlaceholder, "", "user.created");
      ExampleKeyJoin();
    }
  }

  /** The test's pattern is a prefix without `{`, then the placeholder. */
  lemma ExamplePatternSplit()
    ensures forall i :: 0 <= i < |"some-namespace."| ==> "some-namespace."[i] != '{'
    ensures "some-namespace.{messageType}" == "some-namespace." + MessageTypePlaceholder + ""
  {
  }

  lemma ExampleKeyJoin()
    ensures "some-namespace." + "user.created" + ReplaceAll("", MessageTypePlaceholder, "user.created") == "some-namespace.user.created"
  {
    assert ReplaceAll("", MessageTypePlaceholder, "user.created") == "";
  }
}
