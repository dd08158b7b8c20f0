# message-bus-bundle core, modelled in Dafny

This project models the four classes at the heart of the Symfony message-bus bundle:

- **`TypeLocator`** keeps two ordered PHP arrays:
  - from stamp class names to portable stamp types;
  - from message class names to portable message types.

  It looks them up in both directions and, after construction, accepts extra message types as long as no class is registered twice.
- **`PortableSerializer`** turns a Messenger envelope into the wire form used between applications, and parses that form back:
  - the `X-Message-Type` and `Content-Type` headers;
  - one `X-Message-Stamp-<Type>` header per sendable stamp class;
  - the serialized message as the body.
- **`AmqpMessageRoutingKeyByTypeMiddleware`** gives every envelope without an AMQP routing key a key built from a pattern with a `{messageType}` placeholder. The key is the one for the message's portable type.
- **`TinyFlattenExceptionNormalizer`** writes a `FlattenException` as six fields and rebuilds one from those fields through its setters.

The PHP arrays these classes work on are ordered association lists, `seq<(K, V)>`, in module `PhpArray`. `??`, `array_search` (values compared as plain strings), `$a[$k] = $v`, `array_merge`, the array `+` operator and `unset` are each a function there. PHP's string functions (`empty`, `str_contains`, `ucfirst`, `lcfirst`, one-pair `strtr`) are in module `PhpString`.

Module `Messenger` is a value model of Symfony's `Envelope`:
- an envelope holds its stamps grouped by class, in order of first appearance;
- `with`, `withoutAll`, `last` and `all` work on those groups;
- `withoutStampsOfType(NonSendableStampInterface)` is modelled as `WithoutNonSendable`.

The Symfony serializer that `PortableSerializer` delegates to is a parameter, `SymfonySerializer`: four functions for serializing and deserializing messages and stamps.

Thrown exceptions are `Failure` values in module `Failures`, one constructor per kind. A `MessageDecodingFailedException` keeps the exception it wraps.

`TypeLocator`, `PortableSerializer`, the middleware and `FlattenException` are classes:
- `TypeLocator.appendMessageClassNameToTypeMap` and the `FlattenException` setters are methods that update fields.
- `decodeStamps` and `encodeStamps` run loops in the source, and are methods with loop invariants. `encode` calls `encodeStamps` and is a method too. Each is proved equal to a specification function, and the properties are lemmas about those functions.
- `decode`, `handle` and the normalizer's `normalize` are expressions over their inputs, and are functions. The normalizer's `denormalize` calls the setters in turn and is a method.

The model follows the code where it and the design disagree:
- The built-in stamp map names classes such as `Sokil\MessageBusBundle\Service\DelayStamp`. `TypeLocator.php` has no `use` imports, so `DelayStamp::class` resolves in the file's own namespace. `Service.DefaultStampClassNameToTypeMap` keeps those names.
- Its types (`Delay`, `BusName`, ...) start with an upper-case letter. The header such a stamp goes out under is read back as the lower-cased type, which the built-in map does not know. `Serializer.PortableSerializer.BuiltInStampTypeNotDecodable` shows this for `DelayStamp`.
- Portable types are meant to be unique, but neither the constructor nor `appendMessageClassNameToTypeMap` checks this. A type registered twice resolves to the class registered first (`Service.DuplicateTypeResolvesToFirst`).

The central property is `Serializer.PortableSerializer.RoundTrip`: decoding an encoded envelope gives back the envelope without its non-sendable stamps, with sendable stamps in order and grouped by class. It holds when four conditions are met:
- every class involved has a type that survives the `ucfirst`/`lcfirst` round trip;
- the reverse lookup of each such type gives back the class (a type registered for two classes, which the code accepts, breaks the round trip);
- the serialized body is not empty in PHP's sense (`""` or `"0"`);
- the Symfony serializer reads back what it wrote, for the message and for each stamp list.

## Model

| member | source | states |
|---|---|---|
| Service.DefaultStampMapDistinct | src/Service/TypeLocator.php:14-24 | The built-in stamp map names each of its nine stamp classes once. |
| Service.TypeLocator.constructor | src/Service/TypeLocator.php:37-43 | The stamp map is `array_merge(defaults, given)` and the message map is the given one; both keep every class name once. |
| Service.ConstructedStampMap | src/Service/TypeLocator.php:41 | After the merge, a class the caller names reads the caller's type and every other class its built-in type. The built-in classes keep their positions and no class appears twice. |
| Service.TypeLocator.GetStampClassNameByType | src/Service/TypeLocator.php:45-53 | A failed reverse stamp lookup always reports `UnknownStampType` with the type asked for. |
| Service.StampClassNameLookup | src/Service/TypeLocator.php:45-53 | The reverse stamp lookup fails exactly when no entry has the type. Otherwise it returns the class of the first entry, in map order, that has it. |
| Service.TypeLocator.GetStampTypeByClassName | src/Service/TypeLocator.php:55-63 | A type it returns is never empty (`""` or `"0"`); a failure is `UnknownStampClassName` with the class asked for. |
| Service.StampTypeLookup | src/Service/TypeLocator.php:55-63 | The type returned is the class's own entry. On a locator with distinct keys, the lookup succeeds exactly when the class is registered with a non-empty type. |
| Service.TypeLocator.GetMessageClassNameByType | src/Service/TypeLocator.php:80-88 | A failed reverse message lookup always reports `UnknownMessageType` with the type asked for. |
| Service.MessageClassNameLookup | src/Service/TypeLocator.php:80-88 | The reverse message lookup fails exactly when no entry has the type. Otherwise it returns the class of the first entry that has it. |
| Service.TypeLocator.GetMessageTypeByClassName | src/Service/TypeLocator.php:90-98 | A message type it returns is never empty; a failure is `UnknownMessageClassName` with the class asked for. |
| Service.MessageTypeLookup | src/Service/TypeLocator.php:90-98 | The message type returned is the class's entry; on a valid locator the lookup succeeds exactly when the class has a non-empty type. |
| Service.LookupByClassName | src/Service/TypeLocator.php:57-59 | `$map[$c] ?? null` followed by `empty` reads the class's own entry; with distinct keys it yields a value exactly when a non-empty entry exists. |
| Service.TypeLocator.AppendMessageClassNameToTypeMap | src/Service/TypeLocator.php:68-78 | Fails with `MessageClassNameAlreadyDefined`, leaving the map unchanged, exactly when a given class is already registered. Otherwise the message map becomes the old map followed by the new entries. The stamp map never changes and the locator stays valid. |
| Service.AppendedLookups | src/Service/TypeLocator.php:74-77 | After an accepted append, old classes read their old types and new classes their new ones. A type that resolved before still resolves to the same class. |
| Service.DuplicateTypeResolvesToFirst | src/Service/TypeLocator.php:68-78 | Two classes with the same type are both accepted, and the type resolves to the first of them. |
| Service.ReverseThenForward | src/Service/TypeLocator.php:45-63 | With distinct class names, the class found for a non-empty type maps back to that type. |
| Service.ForwardThenReverse | src/Service/TypeLocator.php:45-63 | With distinct class names and types, the type of a class leads back to the class. |
| Service.StampReverseThenForward | src/Service/TypeLocator.php:45-63 | For stamps: the class returned for a non-empty type has that type. |
| Service.StampForwardThenReverse | src/Service/TypeLocator.php:45-63 | For stamps with distinct types: the type returned for a class resolves to that class. |
| Service.MessageReverseThenForward | src/Service/TypeLocator.php:80-98 | For messages: the class returned for a non-empty type has that type. |
| Service.MessageForwardThenReverse | src/Service/TypeLocator.php:80-98 | For messages with distinct types: the type returned for a class resolves to that class. |
| PhpArray.SearchSpec | src/Service/TypeLocator.php:47 | `array_search` finds nothing exactly when no entry holds the value; otherwise it returns the key of the first entry holding it. |
| PhpArray.GetSomeIffHasKey | src/Service/TypeLocator.php:57 | `$a[$k] ?? null` gives a value exactly when the key is present. |
| PhpArray.GetAt | src/Service/TypeLocator.php:57 | With distinct keys, reading any entry's key gives that entry's value. |
| PhpArray.GetIsEntry | src/Service/TypeLocator.php:57 | A value read by key belongs to an entry with that key. |
| PhpArray.AppendGet | src/Service/TypeLocator.php:74-77 | In `a` followed by `b`, a key reads its value in `a` if `a` has it and its value in `b` otherwise. |
| PhpArray.AppendSearch | src/Service/TypeLocator.php:74-77 | A value found in `a` is found at the same key after `b` is appended. |
| PhpArray.MergeGet | src/Service/TypeLocator.php:41 | In `array_merge(a, b)`, keys of `b` read `b`'s values and all other keys read `a`'s. |
| PhpArray.MergeKeepsPositions | src/Service/TypeLocator.php:41 | `array_merge(a, b)` keeps every key of `a` at its position and keeps keys distinct. |
| PhpArray.MergeDisjoint | src/Service/TypeLocator.php:74-77 | `array_merge` of arrays with no common key is their concatenation. |
| PhpArray.UnionDisjoint | src/Serializer/PortableSerializer.php:122 | The array `+=` of arrays with no common key is their concatenation. |
| PhpArray.PutGet | src/Serializer/PortableSerializer.php:187 | After `$a[$k] = $v`, `k` reads `v` and every other key reads as before. |
| PhpArray.PutShape | src/Serializer/PortableSerializer.php:187 | `$a[$k] = $v` appends a new key at the end and overwrites an existing key in place. |
| PhpArray.PutHasKey | src/Serializer/PortableSerializer.php:187 | After `$a[$k] = $v`, the keys are the old keys and `k`. |
| PhpArray.PutDistinct | src/Serializer/PortableSerializer.php:187 | `$a[$k] = $v` keeps keys distinct. |
| PhpArray.PutLast | src/Serializer/PortableSerializer.php:108 | Writing to the last key replaces the last entry and nothing else. |
| PhpArray.RemoveGet | src/Middleware/AmqpMessageRoutingKeyByTypeMiddleware.php:43 | After removing a key, it is absent and every other key reads as before. |
| PhpArray.RemoveAbsent | src/Middleware/AmqpMessageRoutingKeyByTypeMiddleware.php:43 | Removing an absent key changes nothing. |
| PhpArray.RemoveDistinct | src/Middleware/AmqpMessageRoutingKeyByTypeMiddleware.php:43 | Removing a key keeps the other keys distinct. |
| PhpArray.RemoveSpec | src/Middleware/AmqpMessageRoutingKeyByTypeMiddleware.php:43 | The removal facts together: the key is gone, the others are kept, distinctness is kept, and an absent key is a no-op. |
| PhpString.ToUpper | src/Serializer/PortableSerializer.php:187 | A lower-case ASCII letter becomes the same letter of the alphabet in upper case; every other character is kept. |
| PhpString.ToLower | src/Serializer/PortableSerializer.php:154 | An upper-case ASCII letter becomes the same letter of the alphabet in lower case; every other character is kept. |
| PhpString.CaseInverse | src/Serializer/PortableSerializer.php:154-187 | Upper-casing a lower-case letter and lower-casing it again gives it back, and the other way round. |
| PhpString.LcfirstUcfirst | src/Serializer/PortableSerializer.php:154-187 | `lcfirst(ucfirst(t)) == t` exactly when `t` is empty or does not start with an upper-case letter. |
| PhpString.UcfirstLcfirst | src/Serializer/PortableSerializer.php:154-187 | `ucfirst(lcfirst(t)) == t` exactly when `t` is empty or does not start with a lower-case letter. |
| PhpString.UcfirstIdempotent | src/Serializer/PortableSerializer.php:187 | After `ucfirst` the first character is not lower-case, so applying it again changes nothing. |
| PhpString.UcfirstInjective | src/Serializer/PortableSerializer.php:187 | On strings that do not start upper-case, `ucfirst` maps different strings to different results. |
| PhpString.ReplaceAllNoOccurrence | src/Middleware/AmqpMessageRoutingKeyByTypeMiddleware.php:35-40 | `strtr` leaves a string without the placeholder unchanged. |
| PhpString.ReplaceAllAfterPrefix | src/Middleware/AmqpMessageRoutingKeyByTypeMiddleware.php:35-40 | The first placeholder after a prefix free of its first character is replaced, and the scan continues after it. |
| PhpString.ReplaceAllIdentity | src/Middleware/AmqpMessageRoutingKeyByTypeMiddleware.php:35-40 | Replacing the placeholder by itself changes nothing. |
| PhpString.ReplaceAllKeepsValue | src/Middleware/AmqpMessageRoutingKeyByTypeMiddleware.php:35-40 | Where the placeholder occurs, the result contains the replacement. |
| Messenger.WithAllAppend | src/Serializer/PortableSerializer.php:108 | Adding stamps `a + b` to an envelope is adding `a`, then `b`. |
| Messenger.WithAllNewClass | src/Serializer/PortableSerializer.php:108 | Adding stamps of one class the envelope does not yet have appends one group holding them. |
| Messenger.ValidGroupsSnoc | src/Serializer/PortableSerializer.php:108 | A well-formed grouping splits into a well-formed prefix and a last group whose class the prefix lacks. |
| Messenger.CreateFlatten | src/Serializer/PortableSerializer.php:108 | `new Envelope($message, $stamps)` on the stamps of a well-formed grouping, in order, rebuilds exactly that grouping. |
| Messenger.WithoutAllSpec | src/Middleware/AmqpMessageRoutingKeyByTypeMiddleware.php:42-43 | `withoutAll(c)` removes all stamps of class `c`, keeps every other class's stamps and the message, and keeps the envelope well-formed. |
| Messenger.RemoveWithin | src/Middleware/AmqpMessageRoutingKeyByTypeMiddleware.php:43 | Every group left after a removal was a group before it. |
| Messenger.SendableGroupsMembers | src/Serializer/PortableSerializer.php:113 | Removing non-sendable stamps keeps exactly the sendable groups. |
| Messenger.SendableGroupsKeys | src/Serializer/PortableSerializer.php:113 | No class appears after the removal that was not there before. |
| Messenger.SendableGroupsValid | src/Serializer/PortableSerializer.php:113 | A well-formed grouping stays well-formed after the removal. |
| Messenger.SendableGroupsSpec | src/Serializer/PortableSerializer.php:113 | The removal's facts together: membership both ways, no new class, well-formedness kept. |
| Messenger.AmqpStampsAreNotSent | src/Serializer/PortableSerializer.php:113 | An envelope ready to send holds no `AmqpStamp`. |
| Messenger.ReplaceClassShape | src/Middleware/AmqpMessageRoutingKeyByTypeMiddleware.php:42-50 | `withoutAll(c)->with(s)` removes the class's group and adds one group holding `s` at the end. |
| Messenger.ReplaceClassSpec | src/Middleware/AmqpMessageRoutingKeyByTypeMiddleware.php:42-50 | After the replacement, `s` is the class's only and last stamp, other classes are unchanged, and the envelope stays well-formed. |
| Serializer.ContentTypeOfFormat | src/Serializer/PortableSerializer.php:119 | The content type is `application/json` for the json format and `text/plain` for any other. |
| Serializer.StampHeaderNameRecoversType | src/Serializer/PortableSerializer.php:150-187 | A stamp's header name is recognised as a stamp header. It reads back as the same type exactly when the type does not start upper-case. |
| Serializer.PutStampHeader | src/Serializer/PortableSerializer.php:185-191 | Writing a stamp header into stamp headers keeps keys distinct and grows the array by at most one. Every key stays a stamp header, the new name is present and no old key is lost. |
| Serializer.StampHeaderNameInjective | src/Serializer/PortableSerializer.php:187 | Types that do not start upper-case get the same header name only when they are equal. |
| Serializer.FixedHeadersAreNotStampHeaders | src/Serializer/PortableSerializer.php:26-28 | `X-Message-Type` and `Content-Type` are not read as stamp headers. |
| Serializer.ExampleStampMapDistinct | tests/Serializer/PortableSerializerTest.php:28-35 | The test's stamp map names each class once. |
| Serializer.ExampleStampLookups | tests/Serializer/PortableSerializerTest.php:27-39 | With the test's map, `BusNameStamp` has type `busName` and `TransportMessageIdStamp` has type `transportMessageId`. |
| Serializer.BusNameHeader | tests/Serializer/PortableSerializerTest.php:71 | Type `busName` is sent as header `X-Message-Stamp-BusName`. |
| Serializer.TransportMessageIdHeader | tests/Serializer/PortableSerializerTest.php:72 | Type `transportMessageId` is sent as header `X-Message-Stamp-TransportMessageId`. |
| Serializer.AmqpStampStaysBehind | tests/Serializer/PortableSerializerTest.php:58-62 | In the test envelope the `AmqpStamp` group is dropped and the two sendable groups stay, in order. |
| Serializer.FixedHeadersBeforeStampHeaders | tests/Serializer/PortableSerializerTest.php:68-73 | The test's two fixed headers are followed by its two stamp headers, none dropped by `+=`. |
| Serializer.PortableSerializer.constructor | src/Serializer/PortableSerializer.php:36-63 | A serializer built for the json format keeps its locator, Symfony serializer and format. |
| Serializer.PortableSerializer.Create | src/Serializer/PortableSerializer.php:41-47 | Construction fails exactly for a format other than json, with `FormatNotSupported` for that format. |
| Serializer.PortableSerializer.Encode | src/Serializer/PortableSerializer.php:111-137 | `encode` computes the specified encoding: the headers and body below, or the first lookup failure. |
| Serializer.PortableSerializer.EncodeStamps | src/Serializer/PortableSerializer.php:175-194 | The header loop computes the specified stamp headers, stopping at the first stamp class without a type. |
| Serializer.PortableSerializer.DecodeStamps | src/Serializer/PortableSerializer.php:144-173 | The decoding loop computes the specified stamp list, stopping at the first undecodable stamp header. |
| Serializer.PortableSerializer.EncodedStampHeadersFailurePersists | src/Serializer/PortableSerializer.php:185-186 | Once a prefix of the stamp groups fails to encode, the whole encoding fails the same way. |
| Serializer.PortableSerializer.DecodedStampListFailurePersists | src/Serializer/PortableSerializer.php:156-167 | Once a prefix of the headers fails to decode, the whole decoding fails the same way. |
| Serializer.PortableSerializer.EncodedStampHeadersSuccessIff | src/Serializer/PortableSerializer.php:185-191 | Stamp headers are produced exactly when every stamp class has a type. |
| Serializer.PortableSerializer.EncodedStampHeadersShape | src/Serializer/PortableSerializer.php:184-193 | Produced stamp headers have distinct names, at most one per group, and each is a stamp header. |
| Serializer.PortableSerializer.EncodedStampHeadersCoverGroups | src/Serializer/PortableSerializer.php:185-191 | Every stamp group gets a header under its type's name. |
| Serializer.PortableSerializer.EncodedStampHeadersFirstUnknown | src/Serializer/PortableSerializer.php:186 | The failure is `UnknownStampClassName` for the first group whose class has no type. |
| Serializer.PortableSerializer.EncodedStampHeadersOnePerGroup | src/Serializer/PortableSerializer.php:185-191 | When the header names differ, the i-th header is the i-th group's name with its serialized stamps. |
| Serializer.PortableSerializer.EncodedSucceeds | src/Serializer/PortableSerializer.php:111-122 | Encoding succeeds exactly when the message class and every sendable stamp class have a type. |
| Serializer.PortableSerializer.EncodedHeaders | src/Serializer/PortableSerializer.php:115-136 | The headers are `X-Message-Type`, `Content-Type`, then the stamp headers. The body is the serialized message. Without sendable stamps there are two headers. |
| Serializer.PortableSerializer.OtherHeadersYieldNoStamps | src/Serializer/PortableSerializer.php:149-152 | Headers without the stamp prefix yield no stamps. |
| Serializer.PortableSerializer.DecodedStampListSkipsOtherHeaders | src/Serializer/PortableSerializer.php:149-152 | Leading headers that are not stamp headers do not affect the decoded stamps. |
| Serializer.PortableSerializer.Decode | src/Serializer/PortableSerializer.php:65-109 | `decode` as a function of the encoded envelope. The order of its checks is stated by the five `Decode…` lemmas below, and its success case by `DecodePortableMessage` and `RoundTrip`. |
| Serializer.PortableSerializer.DecodeWithoutBody | src/Serializer/PortableSerializer.php:68-70 | A missing or empty body fails with the body-missing error, whatever the headers hold. |
| Serializer.PortableSerializer.DecodeWithoutMessageType | src/Serializer/PortableSerializer.php:72-75 | With a body, a missing or empty `X-Message-Type` header fails with the missing-type error. |
| Serializer.PortableSerializer.DecodeUnknownMessageType | src/Serializer/PortableSerializer.php:77-81 | With a body and a non-empty type that no message entry holds, decoding fails with the unknown-type error wrapping `UnknownMessageType(t)`, whatever the stamp headers hold. |
| Serializer.PortableSerializer.DecodeStampsBeforeBody | src/Serializer/PortableSerializer.php:83-87 | Once the type is known, a stamp decoding failure is reported, wrapped, before the body is deserialized. |
| Serializer.PortableSerializer.DecodeBodyLast | src/Serializer/PortableSerializer.php:89-108 | With type and stamps decoded, a serializer error is wrapped, a non-object is refused, and an object gives `new Envelope` of it and the decoded stamps. |
| Serializer.PortableSerializer.UnknownStampTypeFailsDecode | src/Serializer/PortableSerializer.php:83-87 | A stamp header whose type is unknown makes the stamps, and so the whole envelope, undecodable. |
| Serializer.PortableSerializer.DecodedStampListOfStampHeaders | src/Serializer/PortableSerializer.php:144-173 | Decoding the headers of portable groups gives back all their stamps in order. |
| Serializer.PortableSerializer.PortableHeaderNamesDistinct | src/Serializer/PortableSerializer.php:187 | Distinct portable classes have types and get distinct header names. |
| Serializer.PortableSerializer.PortableStampsRoundTrip | src/Serializer/PortableSerializer.php:144-193 | Encoding portable stamp groups succeeds, and decoding the result gives back all their stamps in order. |
| Serializer.PortableSerializer.DecodePortableMessage | src/Serializer/PortableSerializer.php:65-109 | With a body, a known type header and decodable stamps, decoding builds `new Envelope` from the deserialized message and those stamps. |
| Serializer.PortableSerializer.RoundTrip | src/Serializer/PortableSerializer.php:65-137 | A well-formed portable envelope encodes, and decoding the encoding gives back the envelope without its non-sendable stamps. |
| Serializer.PortableSerializer.BuiltInStampTypeNotDecodable | src/Serializer/PortableSerializer.php:150-157 | With the built-in map only, a `DelayStamp` is sent as `X-Message-Stamp-Delay`, and decoding that header fails on the unknown type `delay`. |
| Serializer.PortableSerializer.EncodeExample | tests/Serializer/PortableSerializerTest.php:47-78 | The test envelope encodes to the expected headers, in order, and the serialized body. |
| Serializer.PortableSerializer.ExampleStampHeaders | tests/Serializer/PortableSerializerTest.php:71-72 | The test's bus-name and message-id stamps give the two expected stamp headers. |
| Middleware.AmqpMessageRoutingKeyByTypeMiddleware.constructor | src/Middleware/AmqpMessageRoutingKeyByTypeMiddleware.php:18-25 | A middleware built from a pattern holding `{messageType}` keeps its locator and pattern. |
| Middleware.AmqpMessageRoutingKeyByTypeMiddleware.Create | src/Middleware/AmqpMessageRoutingKeyByTypeMiddleware.php:18-25 | Construction fails with `InvalidRoutingKeyPattern` exactly when the pattern lacks `{messageType}`. |
| Middleware.AmqpMessageRoutingKeyByTypeMiddleware.Routed | src/Middleware/AmqpMessageRoutingKeyByTypeMiddleware.php:30-50 | The envelope `handle` passes on, as a function of the incoming one; stated by `PassThrough`, `UnknownMessageClassStops`, `Rewrite` and `RoutedTwice`. |
| Middleware.AmqpMessageRoutingKeyByTypeMiddleware.Handle | src/Middleware/AmqpMessageRoutingKeyByTypeMiddleware.php:27-54 | `handle` with the next middleware as a function; the same lemmas state what `next` receives and that its result is returned. |
| Middleware.AmqpMessageRoutingKeyByTypeMiddleware.PassThrough | src/Middleware/AmqpMessageRoutingKeyByTypeMiddleware.php:27-54 | An envelope whose last `AmqpStamp` has a routing key goes to the next middleware unchanged. |
| Middleware.AmqpMessageRoutingKeyByTypeMiddleware.UnknownMessageClassStops | src/Middleware/AmqpMessageRoutingKeyByTypeMiddleware.php:32-33 | Without a routing key and with an unknown message class, handling fails with `UnknownMessageClassName` and the next middleware is not called. |
| Middleware.AmqpMessageRoutingKeyByTypeMiddleware.Rewrite | src/Middleware/AmqpMessageRoutingKeyByTypeMiddleware.php:30-53 | Otherwise the next middleware gets the envelope with one `AmqpStamp` at the end. That stamp carries the type's routing key and the previous stamp's flags and attributes; everything else is unchanged and the envelope stays well-formed. |
| Middleware.AmqpMessageRoutingKeyByTypeMiddleware.RoutedTwice | src/Middleware/AmqpMessageRoutingKeyByTypeMiddleware.php:27-54 | Routing is idempotent: a routed envelope passes through unchanged. |
| Middleware.AmqpMessageRoutingKeyByTypeMiddleware.RoutingKeyNotEmpty | src/Middleware/AmqpMessageRoutingKeyByTypeMiddleware.php:35-40 | A non-empty type gives a non-empty routing key. |
| Middleware.AmqpMessageRoutingKeyByTypeMiddleware.RoutingKeyExample | tests/Middleware/AmqpMessageRoutingKeyByTypeMiddlewareTest.php:35-57 | Pattern `some-namespace.{messageType}` and type `user.created` give key `some-namespace.user.created`. |
| Normalizer.FlattenException.constructor | src/Serializer/Normalizer/TinyFlattenExceptionNormalizer.php:47 | `new FlattenException()`. The model fixes some initial state; which one is never observed, because `denormalize` runs every setter before it returns the object. |
| Normalizer.FlattenException.SetMessage | src/Serializer/Normalizer/TinyFlattenExceptionNormalizer.php:49 | `setMessage` changes only the message. |
| Normalizer.FlattenException.SetCode | src/Serializer/Normalizer/TinyFlattenExceptionNormalizer.php:50 | `setCode` changes only the code. |
| Normalizer.FlattenException.SetClass | src/Serializer/Normalizer/TinyFlattenExceptionNormalizer.php:51 | `setClass` changes only the class. |
| Normalizer.FlattenException.SetFile | src/Serializer/Normalizer/TinyFlattenExceptionNormalizer.php:52 | `setFile` changes only the file. |
| Normalizer.FlattenException.SetLine | src/Serializer/Normalizer/TinyFlattenExceptionNormalizer.php:53 | `setLine` changes only the line. |
| Normalizer.FlattenException.SetTrace | src/Serializer/Normalizer/TinyFlattenExceptionNormalizer.php:54 | `setTrace` changes only the trace: the given entries after a frame for the file and line. |
| Normalizer.Denormalize | src/Serializer/Normalizer/TinyFlattenExceptionNormalizer.php:45-57 | Denormalizing fails exactly when a field has the wrong type, with the specified error. Otherwise the new exception holds the fields read. |
| Normalizer.Normalized | src/Serializer/Normalizer/TinyFlattenExceptionNormalizer.php:26-38 | The array `normalize` writes for an exception state; stated by `NormalizedShape`, `NormalizeThenDenormalize` and `NormalizeStable`. |
| Normalizer.Normalize | src/Serializer/Normalizer/TinyFlattenExceptionNormalizer.php:26-38 | `normalize` on a `FlattenException` object: the array for its current state. |
| Normalizer.Denormalized | src/Serializer/Normalizer/TinyFlattenExceptionNormalizer.php:45-57 | The state `denormalize` builds, or the first type error; stated by `DenormalizedFailsAtFirstBadKey` and `NormalizeThenDenormalize`, and tied to the method by `Denormalize`. |
| Normalizer.NormalizedShape | src/Serializer/Normalizer/TinyFlattenExceptionNormalizer.php:26-38 | Normalizing gives exactly the six keys message, code, class, file, line and trace. Each holds the exception's field, and the trace is empty. |
| Normalizer.NormalizeThenDenormalize | src/Serializer/Normalizer/TinyFlattenExceptionNormalizer.php:26-57 | Denormalizing a normalized exception gives back its fields, with a trace of the one frame for its file and line. |
| Normalizer.NormalizeStable | src/Serializer/Normalizer/TinyFlattenExceptionNormalizer.php:26-57 | Normalizing again after a denormalize gives the same six fields. |
| Normalizer.DenormalizedFailsAtFirstBadKey | src/Serializer/Normalizer/TinyFlattenExceptionNormalizer.php:49-54 | For each of message, code, class, file, line and trace: when every earlier field is well typed and this one is not, its type error is the one reported. Denormalizing succeeds exactly when all six are well typed. |
| Normalizer.SupportsNormalization | src/Serializer/Normalizer/TinyFlattenExceptionNormalizer.php:40-43 | `supportsNormalization`; stated against `supportsDenormalization` by `SupportChecksAgree`. |
| Normalizer.SupportsDenormalization | src/Serializer/Normalizer/TinyFlattenExceptionNormalizer.php:59-62 | `supportsDenormalization`; stated by `SupportChecksAgree` and `SupportedTypesAgree`. |
| Normalizer.GetSupportedTypes | src/Serializer/Normalizer/TinyFlattenExceptionNormalizer.php:64-69 | `getSupportedTypes`; stated by `SupportedTypesAgree`. |
| Normalizer.SupportChecksAgree | src/Serializer/Normalizer/TinyFlattenExceptionNormalizer.php:40-62 | `normalize` accepts an object exactly when one of its classes is the class `denormalize` accepts, and accepts nothing that is not an object. |
| Normalizer.SupportedTypesAgree | src/Serializer/Normalizer/TinyFlattenExceptionNormalizer.php:59-69 | `getSupportedTypes` lists exactly the type `supportsDenormalization` accepts, as cacheable. |

## Left out

- The Symfony serializer and its normalizers are a parameter (`SymfonySerializer`), not modelled. The round trip assumes the parameter inverts itself on the values in the envelope (`MessagePortable`, `GroupPortable`).
- The `format` and context arguments passed to the Symfony serializer, including the normalization groups, are not modelled: the parameter's functions take the value only.
- Serializer exceptions that `encode` does not catch are not modelled. Only the exceptions `decode` catches and wraps are (as `SerializerError` inside `DecodingFailed`).
- The wrapped exception's numeric code, `(int) $e->getCode()`, is not modelled. Only the previous exception is kept.
- Exception message texts are not modelled; each exception is a `Failure` constructor.
- Transports, the message bus and the dependency-injection configuration are outside this core.
- The next middleware in `handle` is a function parameter. The stack it comes from is not modelled.
- PHP's loose comparison and integer-like string keys are not modelled. `array_search` in `TypeLocator.php` is called without its strict flag, so PHP would also match numeric strings that are equal as numbers (`"1e1"` and `"10"`); the model compares types as plain strings.
- `NonSendableStampInterface` is modelled as a per-stamp flag, `Sendable`. `AmqpStamp` is modelled as not sendable.
- Symfony's `FlattenException::setTrace` converts each trace entry; the model keeps the entries as given. Only the leading frame for the file and line is modelled.
- The other fields of `FlattenException` (status code, headers, previous, ...) are not modelled, because the normalizer neither reads nor writes them.
- Type uniqueness is not enforced, matching the code. The design describes portable types as unique, but neither `TypeLocator`'s constructor nor `appendMessageClassNameToTypeMap` checks it.
- Service.TypeLocator.GetStampClassNameByType: its own contract states only which error it reports. The full if-and-only-if is `Service.StampClassNameLookup`.
- Service.TypeLocator.GetMessageClassNameByType: its own contract states only which error it reports. The full if-and-only-if is `Service.MessageClassNameLookup`.
- Service.TypeLocator.GetStampTypeByClassName: its own contract states non-emptiness and the error. Membership and the if-and-only-if are in `Service.StampTypeLookup`.
- Service.TypeLocator.GetMessageTypeByClassName: its own contract states non-emptiness and the error. Membership and the if-and-only-if are in `Service.MessageTypeLookup`.
