/** The portable transport serializer (`src/Serializer/PortableSerializer.php`):
    an envelope becomes headers plus a body and back, with class names replaced by
    the wire types of the type locator.  The Symfony serializer it assembles from
    the normalizers and the JSON encoder is outside this model and appears as a
    value of `SymfonySerializer`. */
module Serializer {
  import opened Wrappers
  import opened Failures
  import opened PhpArray
  import opened PhpString
  import opened Service
  import opened Messenger

  const MessageTypeHeaderName := "X-Message-Type"
  const ContentTypeHeaderName := "Content-Type"
  const StampHeaderNamePrefix := "X-Message-Stamp-"

  /** `JsonEncoder::FORMAT` */
  const JsonFormat := "json"

  const ContentTypeMap: seq<(string, string)> := [(JsonFormat, "application/json")]

  /** What `deserialize` hands back: an object, or a PHP value of another type. */
  datatype Deserialized = Object(message: Message) | NonObject(typeName: string)

  /** The four uses the core makes of the Symfony serializer; a failure carries the
      exception's message. */
  datatype SymfonySerializer = SymfonySerializer(
    serializeMessage: Message -> string,
    deserializeMessage: (string, string) -> Result<Deserialized, string>,
    serializeStamps: seq<Stamp> -> string,
    deserializeStamps: (string, string) -> Result<seq<Stamp>, string>)

  /** `['headers' => ..., 'body' => ...]`; a transport may hand over no body at all. */
  datatype EncodedEnvelope = EncodedEnvelope(headers: seq<(string, string)>, body: Option<string>)

  /** `self::CONTENT_TYPE_MAP[$format] ?? 'text/plain'` */
  function ContentType(format: string): string {
    match Get(ContentTypeMap, format)
    case Some(t) => t
    case None => "text/plain"
  }

  function StampHeaderName(stampType: string): string {
    StampHeaderNamePrefix + Ucfirst(stampType)
  }

  predicate IsStampHeader(name: string) {
    StartsWith(name, StampHeaderNamePrefix)
  }

  /** The stamp type `decodeStamps` reads off a stamp header's name. */
  function StampTypeOfHeader(name: string): string
    requires IsStampHeader(name)
  {
    Lcfirst(name[|StampHeaderNamePrefix|..])
  }

  /** Only the JSON format has a content type of its own. */
  lemma ContentTypeOfFormat(format: string)
    ensures ContentType(format) == if format == JsonFormat then "application/json" else "text/plain"
  {
    assert ContentTypeMap[0].0 == JsonFormat && ContentTypeMap[1..] == [];
    if format == JsonFormat {
      assert Get(ContentTypeMap, format) == Some("application/json");
    } else {
      assert Get(ContentTypeMap, format) == Get(ContentTypeMap[1..], format) == None;
    }
  }

  /** A stamp header's name gives its stamp type back exactly when the type does not
      start with an upper-case letter: `ucfirst` and `lcfirst` are not inverse. */
  lemma StampHeaderNameRecoversType(stampType: string)
    ensures IsStampHeader(StampHeaderName(stampType))
    ensures StampTypeOfHeader(StampHeaderName(stampType)) == stampType <==> stampType == "" || !IsUpper(stampType[0])
  {
    assert StampHeaderName(stampType)[..|StampHeaderNamePrefix|] == StampHeaderNamePrefix;
    assert StampHeaderName(stampType)[|StampHeaderNamePrefix|..] == Ucfirst(stampType);
    LcfirstUcfirst(stampType);
  }

  /** Writing a stamp header into stamp headers keeps them distinct stamp headers
      and keeps every name already there. */
  lemma PutStampHeader(h: seq<(string, string)>, name: string, v: string)
    requires DistinctKeys(h) && IsStampHeader(name)
    requires forall k :: 0 <= k < |h| ==> IsStampHeader(h[k].0)
    ensures DistinctKeys(Put(h, name, v))
    ensures |Put(h, name, v)| <= |h| + 1
    ensures forall k :: 0 <= k < |Put(h, name, v)| ==> IsStampHeader(Put(h, name, v)[k].0)
    ensures HasKey(Put(h, name, v), name)
    ensures forall key :: HasKey(h, key) ==> HasKey(Put(h, name, v), key)
  {
    PutDistinct(h, name, v);
    PutShape(h, name, v);
    PutHasKey(h, name, v, name);
    forall key | HasKey(h, key) ensures HasKey(Put(h, name, v), key) {
      PutHasKey(h, name, v, key);
    }
  }

  /** Two stamp types that survive the header name round trip get different headers. */
  lemma StampHeaderNameInjective(t: string, u: string)
    requires t == "" || !IsUpper(t[0])
    requires u == "" || !IsUpper(u[0])
    ensures StampHeaderName(t) == StampHeaderName(u) <==> t == u
  {
    if StampHeaderName(t) == StampHeaderName(u) {
      calc {
        Ucfirst(t);
        StampHeaderName(t)[|StampHeaderNamePrefix|..];
        StampHeaderName(u)[|StampHeaderNamePrefix|..];
        Ucfirst(u);
      }
      UcfirstInjective(t, u);
    }
  }

  /** The two fixed headers are not stamp headers: both are shorter than the prefix. */
  lemma FixedHeadersAreNotStampHeaders()
    ensures !IsStampHeader(MessageTypeHeaderName) && !IsStampHeader(ContentTypeHeaderName)
  {
  }

  const SymfonyStampNamespace := "Symfony\\Component\\Messenger\\Stamp\\"
  const ExampleMessageClass := "Sokil\\MessageBus\\Stubs\\Event\\UserCreated"

  /** The stamp types the serializer's test registers: lower-case, so that they
      survive the header name. */
  const ExampleStampMap: seq<(string, string)> := [
    (SymfonyStampNamespace + "DelayStamp", "delay"),
    (SymfonyStampNamespace + "BusNameStamp", "busName"),
    (SymfonyStampNamespace + "SentStamp", "sent"),
    (SymfonyStampNamespace + "TransportMessageIdStamp", "transportMessageId"),
    (SymfonyStampNamespace + "ErrorDetailsStamp", "errorDetails"),
    (SymfonyStampNamespace + "RedeliveryStamp", "redelivery")
  ]

  lemma ExampleStampMapDistinct()
    ensures DistinctKeys(ExampleStampMap)
  {
    var m := ExampleStampMap;
    forall i, j | 0 <= i < j < |m| ensures m[i].0 != m[j].0 {
      assert |m[i].0| != |m[j].0|;
    }
  }

  /** With the test's stamp map added to the built-in one, the bus name and the
      transport message id stamps have the test's types. */
  lemma ExampleStampLookups()
    ensures Get(Merge(DefaultStampClassNameToTypeMap, ExampleStampMap), SymfonyStampNamespace + "BusNameStamp") == Some("busName")
    ensures Get(Merge(DefaultStampClassNameToTypeMap, ExampleStampMap), SymfonyStampNamespace + "TransportMessageIdStamp") == Some("transportMessageId")
  {
    ExampleStampMapDistinct();
    GetAt(ExampleStampMap, 1);
    GetAt(ExampleStampMap, 3);
    assert HasKey(ExampleStampMap, ExampleStampMap[1].0) && HasKey(ExampleStampMap, ExampleStampMap[3].0);
    MergeGet(DefaultStampClassNameToTypeMap, ExampleStampMap, ExampleStampMap[1].0);
    MergeGet(DefaultStampClassNameToTypeMap, ExampleStampMap, ExampleStampMap[3].0);
  }

  /** The header names of the two stamp types the serializer's test registers. */
  lemma BusNameHeader()
    ensures StampHeaderName("busName") == "X-Message-Stamp-BusName"
  {
    assert "busName" == ['b'] + "usName";
    UcfirstCons('b', "usName");
    assert StampHeaderNamePrefix + "BusName" == "X-Message-Stamp-BusName";
  }

  lemma TransportMessageIdHeader()
    ensures StampHeaderName("transportMessageId") == "X-Message-Stamp-TransportMessageId"
  {
    UcfirstTransportMessageId();
    PrefixTransportMessageId();
  }

  lemma UcfirstTransportMessageId()
    ensures Ucfirst("transportMessageId") == "TransportMessageId"
  {
    assert "transportMessageId" == ['t'] + "ransportMessageId";
    UcfirstCons('t', "ransportMessageId");
  }

  lemma PrefixTransportMessageId()
    ensures StampHeaderNamePrefix + "TransportMessageId" == "X-Message-Stamp-TransportMessageId"
  {
  }

  lemma AmqpStampStaysBehind(amqp: Stamp, gs: seq<(string, seq<Stamp>)>)
    requires amqp.AmqpStamp? && |gs| == 2 && SendableGroup(gs[0]) && SendableGroup(gs[1])
    ensures SendableGroups([(AmqpStampClass, [amqp])] + gs) == gs
  {
    assert ([(AmqpStampClass, [amqp])] + gs)[1..] == gs;
    assert gs[1..][1..] == [];
    assert SendableGroups(gs[1..]) == [gs[1]];
    assert [gs[0]] + [gs[1]] == gs;
  }

  lemma FixedHeadersBeforeStampHeaders(base: seq<(string, string)>, h: seq<(string, string)>)
    requires base == [("X-Message-Type", "user.created"), ("Content-Type", "application/json")]
    requires |h| == 2 && h[0].0 == "X-Message-Stamp-BusName" && h[1].0 == "X-Message-Stamp-TransportMessageId"
    ensures Union(base, h) == base + h
  {
    assert !KeysIntersect(base, h) by {
      forall i, j | 0 <= i < |base| && 0 <= j < |h| ensures base[i].0 != h[j].0 {
        assert |base[i].0| != |h[j].0|;
      }
    }
    assert h[0].0 != h[1].0 by { assert |h[0].0| != |h[1].0|; }
    UnionDisjoint(base, h);
  }

  class PortableSerializer {
    const typeLocator: TypeLocator
    const serializer: SymfonySerializer
    const format: string

    constructor (typeLocator: TypeLocator, serializer: SymfonySerializer, format: string)
      requires format == JsonFormat
      ensures this.typeLocator == typeLocator && this.serializer == serializer && this.format == format
    {
      this.typeLocator := typeLocator;
      this.serializer := serializer;
      this.format := format;
    }

    /** `new PortableSerializer(...)`: only the JSON format is accepted. */
    static method Create(typeLocator: TypeLocator, serializer: SymfonySerializer, format: string)
      returns (r: Result<PortableSerializer, Failure>)
      ensures r.Failure? <==> format != JsonFormat
      ensures r.Failure? ==> r.error == FormatNotSupported(format)
      ensures r.Success? ==> fresh(r.value) && r.value.typeLocator == typeLocator &&
                             r.value.serializer == serializer && r.value.format == JsonFormat
    {
      if format != JsonFormat {
        return Failure(FormatNotSupported(format));
      }
      var s := new PortableSerializer(typeLocator, serializer, format);
      return Success(s);
    }

    /** The headers `encodeStamps` writes for the stamp groups `gs`, taken in
        order; the first class without a type stops it. */
    function EncodedStampHeaders(gs: seq<(string, seq<Stamp>)>): Result<seq<(string, string)>, Failure>
      reads typeLocator
      decreases |gs|
    {
      if gs == [] then Success([])
      else
        match EncodedStampHeaders(gs[..|gs| - 1])
        case Failure(err) => Failure(err)
        case Success(headers) =>
          var g := gs[|gs| - 1];
          match typeLocator.GetStampTypeByClassName(g.0)
          case Failure(err) => Failure(err)
          case Success(t) => Success(Put(headers, StampHeaderName(t), serializer.serializeStamps(g.1)))
    }

    /** The stamps `decodeStamps` collects from `headers`, taken in order: each stamp
        header's array is appended, other headers are passed over, and the first
        failure stops it. */
    function DecodedStampList(headers: seq<(string, string)>): Result<seq<Stamp>, Failure>
      reads typeLocator
      decreases |headers|
    {
      if headers == [] then Success([])
      else
        match DecodedStampList(headers[..|headers| - 1])
        case Failure(err) => Failure(err)
        case Success(stamps) =>
          var h := headers[|headers| - 1];
          if !IsStampHeader(h.0) then Success(stamps)
          else
            match typeLocator.GetStampClassNameByType(StampTypeOfHeader(h.0))
            case Failure(err) => Failure(DecodingFailed(StampUndecodable, Some(err)))
            case Success(c) =>
              match serializer.deserializeStamps(h.1, c + "[]")
              case Failure(d) => Failure(DecodingFailed(StampUndecodable, Some(SerializerError(d))))
              case Success(more) => Success(stamps + more)
    }

    /** What `encode` returns for `e`. */
    function Encoded(e: Envelope): Result<EncodedEnvelope, Failure>
      reads typeLocator
    {
      var envelope := WithoutNonSendable(e);
      match typeLocator.GetMessageTypeByClassName(envelope.message.className)
      case Failure(err) => Failure(err)
      case Success(messageType) =>
        match EncodedStampHeaders(envelope.stamps)
        case Failure(err) => Failure(err)
        case Success(stampHeaders) =>
          var headers := [(MessageTypeHeaderName, messageType), (ContentTypeHeaderName, ContentType(format))];
          Success(EncodedEnvelope(Union(headers, stampHeaders), Some(serializer.serializeMessage(envelope.message))))
    }

    /** `decode`: the checks run in the source's order, body first. */
    function Decode(p: EncodedEnvelope): Result<Envelope, Failure>
      reads typeLocator
    {
      if p.body.None? || Empty(p.body.value) then Failure(DecodingFailed(BodyMissing, None))
      else
        var messageType := Get(p.headers, MessageTypeHeaderName);
        if messageType.None? || Empty(messageType.value) then Failure(DecodingFailed(MessageTypeMissing, None))
        else
          match typeLocator.GetMessageClassNameByType(messageType.value)
          case Failure(err) => Failure(DecodingFailed(MessageTypeUnknown, Some(err)))
          case Success(messageClassName) =>
            match DecodedStampList(p.headers)
            case Failure(err) => Failure(DecodingFailed(StampsUndecodable, Some(err)))
            case Success(stamps) =>
              match serializer.deserializeMessage(p.body.value, messageClassName)
              case Failure(d) => Failure(DecodingFailed(MessageUndecodable, Some(SerializerError(d))))
              case Success(NonObject(_)) => Failure(DecodingFailed(NotAnObject, None))
              case Success(Object(message)) => Success(Messenger.Create(message, stamps))
    }

    method Encode(e: Envelope) returns (r: Result<EncodedEnvelope, Failure>)
      ensures r == Encoded(e)
    {
      var envelope := WithoutNonSendable(e);
      var messageType := typeLocator.GetMessageTypeByClassName(envelope.message.className);
      if messageType.Failure? {
        return Failure(messageType.error);
      }
      var headers := [(MessageTypeHeaderName, messageType.value), (ContentTypeHeaderName, ContentType(format))];
      var stampHeaders := EncodeStamps(envelope);
      if stampHeaders.Failure? {
        return Failure(stampHeaders.error);
      }
      headers := Union(headers, stampHeaders.value);
      var body := serializer.serializeMessage(envelope.message);
      return Success(EncodedEnvelope(headers, Some(body)));
    }

    method EncodeStamps(e: Envelope) returns (r: Result<seq<(string, string)>, Failure>)
      ensures r == EncodedStampHeaders(e.stamps)
    {
      var allStamps := e.stamps;
      if allStamps == [] {
        return Success([]);
      }
      var headers: seq<(string, string)> := [];
      var i := 0;
      while i < |allStamps|
        invariant 0 <= i <= |allStamps|
        invariant EncodedStampHeaders(allStamps[..i]) == Success(headers)
      {
        assert allStamps[..i + 1][..i] == allStamps[..i];
        var stampType := typeLocator.GetStampTypeByClassName(allStamps[i].0);
        if stampType.Failure? {
          EncodedStampHeadersFailurePersists(allStamps, i + 1);
          return Failure(stampType.error);
        }
        headers := Put(headers, StampHeaderName(stampType.value), serializer.serializeStamps(allStamps[i].1));
        i := i + 1;
      }
      assert allStamps[..i] == allStamps;
      return Success(headers);
    }

    method DecodeStamps(p: EncodedEnvelope) returns (r: Result<seq<Stamp>, Failure>)
      ensures r == DecodedStampList(p.headers)
    {
      var headers := p.headers;
      var allStamps: seq<Stamp> := [];
      var i := 0;
      while i < |headers|
        invariant 0 <= i <= |headers|
        invariant DecodedStampList(headers[..i]) == Success(allStamps)
      {
        assert headers[..i + 1][..i] == headers[..i];
        var (name, value) := headers[i];
        if !IsStampHeader(name) {
          i := i + 1;
          continue;
        }
        var stampType := StampTypeOfHeader(name);
        var stampClassName := typeLocator.GetStampClassNameByType(stampType);
        if stampClassName.Failure? {
          DecodedStampListFailurePersists(headers, i + 1);
          return Failure(DecodingFailed(StampUndecodable, Some(stampClassName.error)));
        }
        var stamps := serializer.deserializeStamps(value, stampClassName.value + "[]");
        if stamps.Failure? {
          DecodedStampListFailurePersists(headers, i + 1);
          return Failure(DecodingFailed(StampUndecodable, Some(SerializerError(stamps.error))));
        }
        allStamps := allStamps + stamps.value;
        i := i + 1;
      }
      assert headers[..i] == headers;
      return Success(allStamps);
    }

    /** Once a prefix of the groups fails, encoding all of them fails the same way. */
    lemma {:induction false} EncodedStampHeadersFailurePersists(gs: seq<(string, seq<Stamp>)>, k: int)
      requires 0 <= k <= |gs| && EncodedStampHeaders(gs[..k]).Failure?
      ensures EncodedStampHeaders(gs) == EncodedStampHeaders(gs[..k])
      decreases |gs| - k
    {
      if k < |gs| {
        assert gs[..k + 1][..k] == gs[..k];
        EncodedStampHeadersFailurePersists(gs, k + 1);
      } else {
        assert gs[..k] == gs;
      }
    }

    /** Once a prefix of the headers fails, decoding all of them fails the same way. */
    lemma {:induction false} DecodedStampListFailurePersists(headers: seq<(string, string)>, k: int)
      requires 0 <= k <= |headers| && DecodedStampList(headers[..k]).Failure?
      ensures DecodedStampList(headers) == DecodedStampList(headers[..k])
      decreases |headers| - k
    {
      if k < |headers| {
        assert headers[..k + 1][..k] == headers[..k];
        DecodedStampListFailurePersists(headers, k + 1);
      } else {
        assert headers[..k] == headers;
      }
    }
    // ------------------------------------------------------------ lemmas

    /** The header name the stamps of class `c` are sent under. */
    function StampHeaderNameOf(c: string): Result<string, Failure>
      reads typeLocator
    {
      match typeLocator.GetStampTypeByClassName(c)
      case Failure(err) => Failure(err)
      case Success(t) => Success(StampHeaderName(t))
    }

    /** `h[i]` is the header `encodeStamps` writes for the group `gs[i]`. */
    predicate StampHeaderAt(gs: seq<(string, seq<Stamp>)>, h: seq<(string, string)>, i: int)
      reads typeLocator
      requires 0 <= i < |gs| && i < |h|
    {
      match typeLocator.GetStampTypeByClassName(gs[i].0)
      case Failure(_) => false
      case Success(t) => h[i] == (StampHeaderName(t), serializer.serializeStamps(gs[i].1))
    }

    /** One header per group, in the groups' order. */
    predicate StampHeadersFor(gs: seq<(string, seq<Stamp>)>, h: seq<(string, string)>)
      reads typeLocator
    {
      |h| == |gs| && forall i :: 0 <= i < |gs| ==> StampHeaderAt(gs, h, i)
    }

    /** Every class of the groups has a stamp type. */
    predicate StampTypesKnown(gs: seq<(string, seq<Stamp>)>)
      reads typeLocator
    {
      forall i :: 0 <= i < |gs| ==> typeLocator.GetStampTypeByClassName(gs[i].0).Success?
    }

    lemma StampTypesKnownSnoc(gs: seq<(string, seq<Stamp>)>)
      requires gs != []
      ensures StampTypesKnown(gs) <==>
              StampTypesKnown(gs[..|gs| - 1]) && typeLocator.GetStampTypeByClassName(gs[|gs| - 1].0).Success?
    {
      assert forall i :: 0 <= i < |gs| - 1 ==> gs[..|gs| - 1][i] == gs[i];
    }

    /** Encoding the stamps succeeds exactly when every class has a type. */
    lemma {:induction false} EncodedStampHeadersSuccessIff(gs: seq<(string, seq<Stamp>)>)
      ensures EncodedStampHeaders(gs).Success? <==> StampTypesKnown(gs)
      decreases |gs|
    {
      if gs != [] {
        EncodedStampHeadersSuccessIff(gs[..|gs| - 1]);
        StampTypesKnownSnoc(gs);
      }
    }

    /** The headers encoding writes carry distinct stamp header names, at most one per
        group. */
    lemma {:induction false} EncodedStampHeadersShape(gs: seq<(string, seq<Stamp>)>)
      requires EncodedStampHeaders(gs).Success?
      ensures DistinctKeys(EncodedStampHeaders(gs).value)
      ensures |EncodedStampHeaders(gs).value| <= |gs|
      ensures forall k :: 0 <= k < |EncodedStampHeaders(gs).value| ==> IsStampHeader(EncodedStampHeaders(gs).value[k].0)
      decreases |gs|
    {
      if gs != [] {
        var init, g := gs[..|gs| - 1], gs[|gs| - 1];
        assert EncodedStampHeaders(init).Success?;
        EncodedStampHeadersShape(init);
        var h0 := EncodedStampHeaders(init).value;
        var t := typeLocator.GetStampTypeByClassName(g.0).value;
        StampHeaderNameRecoversType(t);
        PutStampHeader(h0, StampHeaderName(t), serializer.serializeStamps(g.1));
      }
    }

    /** Every group's class has its header among the headers encoding writes. */
    lemma {:induction false} EncodedStampHeadersCoverGroups(gs: seq<(string, seq<Stamp>)>)
      requires EncodedStampHeaders(gs).Success?
      ensures forall i :: 0 <= i < |gs| ==>
                StampHeaderNameOf(gs[i].0).Success? &&
                HasKey(EncodedStampHeaders(gs).value, StampHeaderNameOf(gs[i].0).value)
      decreases |gs|
    {
      if gs != [] {
        var init, g := gs[..|gs| - 1], gs[|gs| - 1];
        assert EncodedStampHeaders(init).Success?;
        EncodedStampHeadersCoverGroups(init);
        var h0 := EncodedStampHeaders(init).value;
        var name := StampHeaderName(typeLocator.GetStampTypeByClassName(g.0).value);
        var v := serializer.serializeStamps(g.1);
        assert Put(h0, name, v) == EncodedStampHeaders(gs).value;
        forall i | 0 <= i < |gs| ensures StampHeaderNameOf(gs[i].0).Success? && HasKey(Put(h0, name, v), StampHeaderNameOf(gs[i].0).value) {
          if i < |init| {
            assert init[i] == gs[i];
          }
          PutHasKey(h0, name, v, StampHeaderNameOf(gs[i].0).value);
        }
      }
    }

    /** The first class without a type is the one encoding reports. */
    lemma {:induction false} EncodedStampHeadersFirstUnknown(gs: seq<(string, seq<Stamp>)>, i: int)
      requires 0 <= i < |gs| && typeLocator.GetStampTypeByClassName(gs[i].0).Failure?
      requires forall j :: 0 <= j < i ==> typeLocator.GetStampTypeByClassName(gs[j].0).Success?
      ensures EncodedStampHeaders(gs) == Failure(UnknownStampClassName(gs[i].0))
    {
      assert forall j :: 0 <= j < i ==> gs[..i][j] == gs[j];
      EncodedStampHeadersSuccessIff(gs[..i]);
      assert gs[..i + 1][..i] == gs[..i];
      EncodedStampHeadersFailurePersists(gs, i + 1);
    }

    /** When the classes have distinct header names, encoding writes exactly one
        header per group, in order. */
    lemma {:induction false} EncodedStampHeadersOnePerGroup(gs: seq<(string, seq<Stamp>)>)
      requires StampTypesKnown(gs)
      requires forall i, j :: 0 <= i < j < |gs| ==> StampHeaderNameOf(gs[i].0) != StampHeaderNameOf(gs[j].0)
      ensures EncodedStampHeaders(gs).Success? && StampHeadersFor(gs, EncodedStampHeaders(gs).value)
      decreases |gs|
    {
      if gs != [] {
        var init, g := gs[..|gs| - 1], gs[|gs| - 1];
        assert forall i :: 0 <= i < |init| ==> init[i] == gs[i];
        EncodedStampHeadersOnePerGroup(init);
        var h0 := EncodedStampHeaders(init).value;
        var t := typeLocator.GetStampTypeByClassName(g.0).value;
        var x := (StampHeaderName(t), serializer.serializeStamps(g.1));
        assert !HasKey(h0, x.0) by {
          forall k | 0 <= k < |h0| ensures h0[k].0 != x.0 {
            assert StampHeaderAt(init, h0, k);
            assert StampHeaderNameOf(gs[k].0) != StampHeaderNameOf(g.0);
          }
        }
        PutShape(h0, x.0, x.1);
        var h := h0 + [x];
        forall i | 0 <= i < |gs| ensures StampHeaderAt(gs, h, i) {
          if i < |init| {
            assert StampHeaderAt(init, h0, i);
            assert h[i] == h0[i];
          }
        }
      }
    }

    /** Encoding fails exactly when the message class, or the class of a sendable
        stamp, has no type. */
    lemma EncodedSucceeds(e: Envelope)
      ensures Encoded(e).Success? <==>
              typeLocator.GetMessageTypeByClassName(e.message.className).Success? && StampTypesKnown(SendableGroups(e.stamps))
    {
      var gs := SendableGroups(e.stamps);
      assert WithoutNonSendable(e) == Envelope(e.message, gs);
      EncodedStampHeadersSuccessIff(gs);
    }

    /** The stamps of an encoded envelope go out in the headers after the two fixed
        ones (`+=` drops none of them), and the body is the serialized message.  An
        envelope without sendable stamps has two headers. */
    lemma EncodedHeaders(e: Envelope)
      requires Encoded(e).Success?
      ensures Encoded(e).value.headers ==
                [(MessageTypeHeaderName, typeLocator.GetMessageTypeByClassName(e.message.className).value),
                 (ContentTypeHeaderName, ContentType(format))] +
                EncodedStampHeaders(SendableGroups(e.stamps)).value
      ensures Encoded(e).value.body == Some(serializer.serializeMessage(e.message))
      ensures SendableGroups(e.stamps) == [] ==> |Encoded(e).value.headers| == 2
    {
      var gs := SendableGroups(e.stamps);
      assert WithoutNonSendable(e).stamps == gs && WithoutNonSendable(e).message == e.message;
      assert EncodedStampHeaders(gs).Success?;
      EncodedStampHeadersShape(gs);
      var h := EncodedStampHeaders(gs).value;
      var base := [(MessageTypeHeaderName, typeLocator.GetMessageTypeByClassName(e.message.className).value),
                   (ContentTypeHeaderName, ContentType(format))];
      FixedHeadersAreNotStampHeaders();
      assert !KeysIntersect(base, h) by {
        forall i, j | 0 <= i < |base| && 0 <= j < |h| ensures base[i].0 != h[j].0 {
          assert IsStampHeader(h[j].0);
        }
      }
      UnionDisjoint(base, h);
      assert Encoded(e).value.headers == Union(base, h);
    }

    /** Headers that are not stamp headers yield no stamps. */
    lemma {:induction false} OtherHeadersYieldNoStamps(a: seq<(string, string)>)
      requires forall i :: 0 <= i < |a| ==> !IsStampHeader(a[i].0)
      ensures DecodedStampList(a) == Success([])
      decreases |a|
    {
      if a != [] {
        assert forall i :: 0 <= i < |a| - 1 ==> a[..|a| - 1][i] == a[i];
        OtherHeadersYieldNoStamps(a[..|a| - 1]);
      }
    }

    /** Headers other than stamp headers ahead of the rest change nothing. */
    lemma {:induction false} DecodedStampListSkipsOtherHeaders(a: seq<(string, string)>, b: seq<(string, string)>)
      requires forall i :: 0 <= i < |a| ==> !IsStampHeader(a[i].0)
      ensures DecodedStampList(a + b) == DecodedStampList(b)
      decreases |b|
    {
      if b == [] {
        assert a + b == a;
        OtherHeadersYieldNoStamps(a);
      } else {
        assert (a + b)[..|a + b| - 1] == a + b[..|b| - 1];
        assert (a + b)[|a + b| - 1] == b[|b| - 1];
        DecodedStampListSkipsOtherHeaders(a, b[..|b| - 1]);
      }
    }

    /** A stamp header whose type is unknown makes the stamps, and so the whole
        envelope, undecodable. */
    lemma {:induction false} UnknownStampTypeFailsDecode(p: EncodedEnvelope, i: int)
      requires 0 <= i < |p.headers| && IsStampHeader(p.headers[i].0)
      requires typeLocator.GetStampClassNameByType(StampTypeOfHeader(p.headers[i].0)).Failure?
      ensures DecodedStampList(p.headers).Failure?
      ensures Decode(p).Failure?
    {
      assert p.headers[..i + 1][..i] == p.headers[..i];
      assert DecodedStampList(p.headers[..i + 1]).Failure?;
      DecodedStampListFailurePersists(p.headers, i + 1);
    }

    // ------------------------------------------------- the order of decode's checks

    /** Without a body, nothing else is looked at. */
    lemma DecodeWithoutBody(headers: seq<(string, string)>, body: Option<string>)
      requires body.None? || Empty(body.value)
      ensures Decode(EncodedEnvelope(headers, body)) == Failure(DecodingFailed(BodyMissing, None))
    {
    }

    /** With a body, a missing or empty `X-Message-Type` header is reported next. */
    lemma DecodeWithoutMessageType(headers: seq<(string, string)>, body: string)
      requires !Empty(body)
      requires Get(headers, MessageTypeHeaderName).None? || Empty(Get(headers, MessageTypeHeaderName).value)
      ensures Decode(EncodedEnvelope(headers, Some(body))) == Failure(DecodingFailed(MessageTypeMissing, None))
    {
    }

    /** A message type no entry holds is reported before any stamp header is read. */
    lemma DecodeUnknownMessageType(headers: seq<(string, string)>, body: string, t: string)
      requires !Empty(body) && Get(headers, MessageTypeHeaderName) == Some(t) && !Empty(t)
      requires forall i :: 0 <= i < |typeLocator.messageClassNameToTypeMap| ==> typeLocator.messageClassNameToTypeMap[i].1 != t
      ensures Decode(EncodedEnvelope(headers, Some(body))) ==
              Failure(DecodingFailed(MessageTypeUnknown, Some(UnknownMessageType(t))))
    {
      MessageClassNameLookup(typeLocator, t);
    }

    /** Once the message type is known, the stamps are decoded before the body: their
        failure is reported, wrapped, and the body is not deserialized. */
    lemma DecodeStampsBeforeBody(headers: seq<(string, string)>, body: string)
      requires !Empty(body) && Get(headers, MessageTypeHeaderName).Some? && !Empty(Get(headers, MessageTypeHeaderName).value)
      requires typeLocator.GetMessageClassNameByType(Get(headers, MessageTypeHeaderName).value).Success?
      requires DecodedStampList(headers).Failure?
      ensures Decode(EncodedEnvelope(headers, Some(body))) ==
              Failure(DecodingFailed(StampsUndecodable, Some(DecodedStampList(headers).error)))
    {
    }

    /** With the type known and the stamps decoded, the body decides: a serializer
        error is wrapped, a value that is not an object is refused, and an object
        becomes the message of a new envelope holding the decoded stamps. */
    lemma DecodeBodyLast(headers: seq<(string, string)>, body: string)
      requires !Empty(body) && Get(headers, MessageTypeHeaderName).Some? && !Empty(Get(headers, MessageTypeHeaderName).value)
      requires typeLocator.GetMessageClassNameByType(Get(headers, MessageTypeHeaderName).value).Success?
      requires DecodedStampList(headers).Success?
      ensures var c := typeLocator.GetMessageClassNameByType(Get(headers, MessageTypeHeaderName).value).value;
              var d := serializer.deserializeMessage(body, c);
              var r := Decode(EncodedEnvelope(headers, Some(body)));
              && (d.Failure? ==> r == Failure(DecodingFailed(MessageUndecodable, Some(SerializerError(d.error)))))
              && (d.Success? && d.value.NonObject? ==> r == Failure(DecodingFailed(NotAnObject, None)))
              && (d.Success? && d.value.Object? ==> r == Success(Messenger.Create(d.value.message, DecodedStampList(headers).value)))
    {
    }

    /** What the round trip needs of one stamp group: a type that survives the header
        name, whose reverse lookup is the group's class, and a Symfony serializer that
        reads back the list it wrote. */
    predicate GroupPortable(g: (string, seq<Stamp>))
      reads typeLocator
    {
      match typeLocator.GetStampTypeByClassName(g.0)
      case Failure(_) => false
      case Success(t) =>
        && !IsUpper(t[0])
        && typeLocator.GetStampClassNameByType(t) == Success(g.0)
        && serializer.deserializeStamps(serializer.serializeStamps(g.1), g.0 + "[]") == Success(g.1)
    }

    /** What the round trip needs of the message: a type whose reverse lookup is the
        message's class, and a non-empty body that deserializes to the message. */
    predicate MessagePortable(m: Message)
      reads typeLocator
    {
      match typeLocator.GetMessageTypeByClassName(m.className)
      case Failure(_) => false
      case Success(t) =>
        && typeLocator.GetMessageClassNameByType(t) == Success(m.className)
        && !Empty(serializer.serializeMessage(m))
        && serializer.deserializeMessage(serializer.serializeMessage(m), m.className) == Success(Object(m))
    }

    predicate Portable(e: Envelope)
      reads typeLocator
    {
      MessagePortable(e.message) &&
      forall i :: 0 <= i < |SendableGroups(e.stamps)| ==> GroupPortable(SendableGroups(e.stamps)[i])
    }

    /** Decoding the headers of portable groups gives back their stamps, group after group. */
    lemma {:induction false} DecodedStampListOfStampHeaders(gs: seq<(string, seq<Stamp>)>, h: seq<(string, string)>)
      requires StampHeadersFor(gs, h)
      requires forall i :: 0 <= i < |gs| ==> GroupPortable(gs[i])
      ensures DecodedStampList(h) == Success(Flatten(gs))
      decreases |gs|
    {
      if gs != [] {
        var n := |gs| - 1;
        var init, hinit := gs[..n], h[..n];
        assert forall i :: 0 <= i < n ==> init[i] == gs[i] && hinit[i] == h[i];
        assert StampHeadersFor(init, hinit) by {
          forall i | 0 <= i < n ensures StampHeaderAt(init, hinit, i) { assert StampHeaderAt(gs, h, i); }
        }
        DecodedStampListOfStampHeaders(init, hinit);
        assert StampHeaderAt(gs, h, n) && GroupPortable(gs[n]);
        var t := typeLocator.GetStampTypeByClassName(gs[n].0).value;
        StampHeaderNameRecoversType(t);
      }
    }

    /** Portable groups of distinct classes get distinct header names. */
    lemma PortableHeaderNamesDistinct(gs: seq<(string, seq<Stamp>)>)
      requires DistinctKeys(gs) && forall i :: 0 <= i < |gs| ==> GroupPortable(gs[i])
      ensures StampTypesKnown(gs)
      ensures forall i, j :: 0 <= i < j < |gs| ==> StampHeaderNameOf(gs[i].0) != StampHeaderNameOf(gs[j].0)
    {
      forall i | 0 <= i < |gs| ensures typeLocator.GetStampTypeByClassName(gs[i].0).Success? {
        assert GroupPortable(gs[i]);
      }
      forall i, j | 0 <= i < j < |gs| ensures StampHeaderNameOf(gs[i].0) != StampHeaderNameOf(gs[j].0) {
        assert GroupPortable(gs[i]) && GroupPortable(gs[j]);
        var ti := typeLocator.GetStampTypeByClassName(gs[i].0).value;
        var tj := typeLocator.GetStampTypeByClassName(gs[j].0).value;
        assert ti != tj;
        StampHeaderNameInjective(ti, tj);
      }
    }

    /** The stamp headers of distinct, portable groups decode to their stamps. */
    lemma PortableStampsRoundTrip(gs: seq<(string, seq<Stamp>)>)
      requires DistinctKeys(gs) && forall i :: 0 <= i < |gs| ==> GroupPortable(gs[i])
      ensures EncodedStampHeaders(gs).Success?
      ensures DecodedStampList(EncodedStampHeaders(gs).value) == Success(Flatten(gs))
    {
      PortableHeaderNamesDistinct(gs);
      EncodedStampHeadersOnePerGroup(gs);
      DecodedStampListOfStampHeaders(gs, EncodedStampHeaders(gs).value);
    }

    /** A portable message whose type header and stamp headers are in place decodes
        to the envelope built from it and the decoded stamps. */
    lemma DecodePortableMessage(m: Message, headers: seq<(string, string)>, stamps: seq<Stamp>)
      requires MessagePortable(m)
      requires Get(headers, MessageTypeHeaderName) == Some(typeLocator.GetMessageTypeByClassName(m.className).value)
      requires DecodedStampList(headers) == Success(stamps)
      ensures Decode(EncodedEnvelope(headers, Some(serializer.serializeMessage(m)))) == Success(Messenger.Create(m, stamps))
    {
    }

    /** Encoding then decoding a well-formed, portable envelope gives back its
        sendable part: message, classes and stamps in their order. */
    lemma RoundTrip(e: Envelope)
      requires Messenger.Valid(e) && Portable(e)
      ensures Encoded(e).Success?
      ensures Decode(Encoded(e).value) == Success(WithoutNonSendable(e))
    {
      var gs := SendableGroups(e.stamps);
      SendableGroupsValid(e.stamps);
      PortableStampsRoundTrip(gs);
      var h := EncodedStampHeaders(gs).value;
      EncodedSucceeds(e);
      EncodedHeaders(e);
      var mt := typeLocator.GetMessageTypeByClassName(e.message.className).value;
      var base := [(MessageTypeHeaderName, mt), (ContentTypeHeaderName, ContentType(format))];
      calc {
        Decode(Encoded(e).value);
        Decode(EncodedEnvelope(base + h, Some(serializer.serializeMessage(e.message))));
        { FixedHeadersAreNotStampHeaders();
          DecodedStampListSkipsOtherHeaders(base, h);
          DecodePortableMessage(e.message, base + h, Flatten(gs)); }
        Success(Messenger.Create(e.message, Flatten(gs)));
        { CreateFlatten(e.message, gs); }
        Success(WithoutNonSendable(e));
      }
    }

    /** The built-in stamp types start with an upper-case letter, so the header a
        built-in stamp is sent under does not lead back to it: with only the built-in
        map, the header of a `DelayStamp` names the unknown type `delay`. */
    lemma BuiltInStampTypeNotDecodable(serialized: string)
      requires typeLocator.stampClassNameToTypeMap == DefaultStampClassNameToTypeMap
      ensures typeLocator.GetStampTypeByClassName(ServiceNamespace + "DelayStamp") == Success("Delay")
      ensures StampHeaderName("Delay") == "X-Message-Stamp-Delay"
      ensures DecodedStampList([(StampHeaderName("Delay"), serialized)]) ==
              Failure(DecodingFailed(StampUndecodable, Some(UnknownStampType("delay"))))
    {
      var m := DefaultStampClassNameToTypeMap;
      assert StampHeaderName("Delay") == "X-Message-Stamp-Delay";
      assert StampTypeOfHeader("X-Message-Stamp-Delay") == "delay";
      forall i | 0 <= i < |m| ensures m[i].1 != "delay" {
        assert m[i].1[0] != 'd';
      }
      StampClassNameLookup(typeLocator, "delay");
      assert [(StampHeaderName("Delay"), serialized)][..0] == [];
    }
    /** The encoding in the serializer's own test: a routing stamp, a bus name and a
        transport message id go out as the two fixed headers and one header for each
        sendable class, in order, and the routing stamp stays behind. */
    lemma EncodeExample(message: Message, busName: Stamp, messageId: Stamp)
      requires typeLocator.stampClassNameToTypeMap == Merge(DefaultStampClassNameToTypeMap, ExampleStampMap)
      requires typeLocator.messageClassNameToTypeMap == [(ExampleMessageClass, "user.created")]
      requires format == JsonFormat && message.className == ExampleMessageClass
      requires busName == OtherStamp(SymfonyStampNamespace + "BusNameStamp", true, [("busName", "event.bus")])
      requires messageId == OtherStamp(SymfonyStampNamespace + "TransportMessageIdStamp", true, [("id", "42")])
      ensures Encoded(Envelope(message, [(AmqpStampClass, [AmqpStamp(Some("some-routing-key"), AMQP_NOPARAM, [])]),
                                         (busName.className, [busName]),
                                         (messageId.className, [messageId])])) ==
              Success(EncodedEnvelope(
                [("X-Message-Type", "user.created"),
                 ("Content-Type", "application/json"),
                 ("X-Message-Stamp-BusName", serializer.serializeStamps([busName])),
                 ("X-Message-Stamp-TransportMessageId", serializer.serializeStamps([messageId]))],
                Some(serializer.serializeMessage(message))))
    {
      var e := Envelope(message, [(AmqpStampClass, [AmqpStamp(Some("some-routing-key"), AMQP_NOPARAM, [])]),
                                  (busName.className, [busName]),
                                  (messageId.className, [messageId])]);
      var gs := [(busName.className, [busName]), (messageId.className, [messageId])];
      AmqpStampStaysBehind(AmqpStamp(Some("some-routing-key"), AMQP_NOPARAM, []), gs);
      assert WithoutNonSendable(e) == Envelope(message, gs);
      var h := [("X-Message-Stamp-BusName", serializer.serializeStamps([busName])),
                ("X-Message-Stamp-TransportMessageId", serializer.serializeStamps([messageId]))];
      ExampleStampHeaders(busName, messageId);
      var base := [("X-Message-Type", "user.created"), ("Content-Type", "application/json")];
      assert typeLocator.GetMessageTypeByClassName(message.className) == Success("user.created");
      ContentTypeOfFormat(format);
      FixedHeadersBeforeStampHeaders(base, h);
      assert Encoded(e) == Success(EncodedEnvelope(Union(base, h), Some(serializer.serializeMessage(message))));
      assert base + h == [base[0], base[1], h[0], h[1]];
    }

    lemma ExampleStampHeaders(busName: Stamp, messageId: Stamp)
      requires typeLocator.stampClassNameToTypeMap == Merge(DefaultStampClassNameToTypeMap, ExampleStampMap)
      requires busName == OtherStamp(SymfonyStampNamespace + "BusNameStamp", true, [("busName", "event.bus")])
      requires messageId == OtherStamp(SymfonyStampNamespace + "TransportMessageIdStamp", true, [("id", "42")])
      ensures EncodedStampHeaders([(busName.className, [busName]), (messageId.className, [messageId])]) ==
              Success([("X-Message-Stamp-BusName", serializer.serializeStamps([busName])),
                       ("X-Message-Stamp-TransportMessageId", serializer.serializeStamps([messageId]))])
    {
      var gs := [(busName.className, [busName]), (messageId.className, [messageId])];
      ExampleStampLookups();
      BusNameHeader();
      TransportMessageIdHeader();
      var v1, v2 := serializer.serializeStamps([busName]), serializer.serializeStamps([messageId]);
      var h1 := [("X-Message-Stamp-BusName", v1)];
      assert typeLocator.GetStampTypeByClassName(busName.className) == Success("busName");
      assert typeLocator.GetStampTypeByClassName(messageId.className) == Success("transportMessageId");
      assert [gs[0]][..0] == [];
      assert EncodedStampHeaders([gs[0]]) == Success(h1);
      assert gs[..1] == [gs[0]];
      assert EncodedStampHeaders(gs) == Success(Put(h1, "X-Message-Stamp-TransportMessageId", v2));
      assert Put(h1, "X-Message-Stamp-TransportMessageId", v2) == h1 + [("X-Message-Stamp-TransportMessageId", v2)];
      assert h1 + [("X-Message-Stamp-TransportMessageId", v2)] ==
             [("X-Message-Stamp-BusName", v1), ("X-Message-Stamp-TransportMessageId", v2)];
    }
  }
}
