// The error codes of the broker protocol.

module Protocol {
  import opened Types

  datatype ProtocolError =
    | WriteError | ActorError | InvalidState | SignatureError | InvalidSignature
    | SerializationError | PartialContent | AccessDenied | OverlayNotJoined | OverlayNotFound
    | BrokerError | NotFound | EndOfStream | StoreError | MissingBlocks
    | ObjectParseError | InvalidValue | UserAlreadyExists | RepoIdRequired | Closing

  /** The `u16` of an error; 0 stands for success. */
  function Code(e: ProtocolError): nat {
    match e
    case WriteError => 1 case ActorError => 2 case InvalidState => 3 case SignatureError => 4
    case InvalidSignature => 5 case SerializationError => 6 case PartialContent => 7
    case AccessDenied => 8 case OverlayNotJoined => 9 case OverlayNotFound => 10
    case BrokerError => 11 case NotFound => 12 case EndOfStream => 13 case StoreError => 14
    case MissingBlocks => 15 case ObjectParseError => 16 case InvalidValue => 17
    case UserAlreadyExists => 18 case RepoIdRequired => 19 case Closing => 20
  }

  const ERRORS: seq<ProtocolError> :=
    [WriteError, ActorError, InvalidState, SignatureError, InvalidSignature,
     SerializationError, PartialContent, AccessDenied, OverlayNotJoined, OverlayNotFound,
     BrokerError, NotFound, EndOfStream, StoreError, MissingBlocks,
     ObjectParseError, InvalidValue, UserAlreadyExists, RepoIdRequired, Closing]

  function TryFromCode(code: nat): Option<ProtocolError> {
    if 1 <= code <= |ERRORS| then Some(ERRORS[code - 1]) else None
  }

  /** Codes and errors correspond one to one, and no error has the code of success. */
  lemma CodesRoundTrip(e: ProtocolError, code: nat)
    ensures TryFromCode(code) == Some(e) <==> code == Code(e)
    ensures TryFromCode(0) == None
  {
    match e
    case _ =>
      assert ERRORS[Code(e) - 1] == e;
      if 1 <= code <= |ERRORS| {
        assert Code(ERRORS[code - 1]) == code;
      }
  }

  predicate IsStream(e: ProtocolError) {
    e.PartialContent? || e.EndOfStream?
  }
}
