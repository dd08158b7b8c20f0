/** The exceptions the core throws, one constructor per kind, so that a caller can
    branch on what went wrong.  A `MessageDecodingFailedException` that wraps a
    previous exception keeps it in `previous`. */
module Failures {
  import opened Wrappers

  /** Which of the checks in `PortableSerializer::decode` / `decodeStamps` raised
      the `MessageDecodingFailedException`; each stands for one message text. */
  datatype DecodingReason =
    | BodyMissing                 // 'Encoded envelope should have at least a "body"'
    | MessageTypeMissing          // 'Can not find message type in envelope headers'
    | MessageTypeUnknown          // 'Message type is unknown'
    | StampsUndecodable           // 'Error decoding stamps'
    | StampUndecodable            // 'Could not decode stamp'
    | MessageUndecodable          // 'Error decoding message'
    | NotAnObject                 // 'Deserialized result must be object, ...'

  datatype Failure =
    | UnknownStampType(stampType: string)              // RuntimeException
    | UnknownStampClassName(stampClassName: string)    // RuntimeException
    | UnknownMessageType(messageType: string)          // RuntimeException
    | UnknownMessageClassName(messageClassName: string) // RuntimeException
    | MessageClassNameAlreadyDefined                   // LogicException
    | FormatNotSupported(format: string)               // InvalidArgumentException
    | InvalidRoutingKeyPattern(pattern: string)        // InvalidArgumentException
    | SerializerError(detail: string)                  // thrown inside the Symfony serializer
    | TypeError(key: string)                           // PHP TypeError from a setter call
    | DecodingFailed(reason: DecodingReason, previous: Option<Failure>) // MessageDecodingFailedException
}
