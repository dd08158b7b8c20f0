/** The normalizer that stores only the head of an exception in an error details
    stamp (`src/Serializer/Normalizer/TinyFlattenExceptionNormalizer.php`).  Symfony's
    `FlattenException` it reads and builds appears as a class with the six fields
    and the setters the normalizer uses. */
module Normalizer {
  import opened Wrappers
  import opened Failures
  import opened PhpArray

  const FlattenExceptionClass := "Symfony\\Component\\ErrorHandler\\Exception\\FlattenException"

  /** A PHP value as the JSON decoder hands it to a denormalizer. */
  datatype Value = Null | Bool(b: bool) | Int(i: int) | Str(s: string) | List(items: seq<Value>) | Dict(entries: seq<(string, Value)>)

  /** `FlattenException`'s code: an int or a string. */
  datatype Code = IntCode(i: int) | StringCode(s: string)

  /** The fields of a `FlattenException` as one value. */
  datatype ExceptionState = ExceptionState(message: string, code: Code, className: string, file: string, line: int, trace: seq<Value>)

  /** The frame `setTrace` puts first: it records the file and line it is given. */
  function HeadFrame(file: string, line: int): Value {
    Dict([("namespace", Str("")), ("short_class", Str("")), ("class", Str("")), ("type", Str("")),
          ("function", Str("")), ("file", Str(file)), ("line", Int(line)), ("args", List([]))])
  }

  class FlattenException {
    var message: string
    var code: Code
    var className: string
    var file: string
    var line: int
    var trace: seq<Value>

    function State(): ExceptionState
      reads this
    {
      ExceptionState(message, code, className, file, line, trace)
    }

    constructor ()
      ensures State() == ExceptionState("", IntCode(0), "", "", 0, [])
    {
      message, code, className, file, line, trace := "", IntCode(0), "", "", 0, [];
    }

    method SetMessage(message: string)
      modifies this
      ensures State() == old(State()).(message := message)
    {
      this.message := message;
    }

    method SetCode(code: Code)
      modifies this
      ensures State() == old(State()).(code := code)
    {
      this.code := code;
    }

    method SetClass(className: string)
      modifies this
      ensures State() == old(State()).(className := className)
    {
      this.className := className;
    }

    method SetFile(file: string)
      modifies this
      ensures State() == old(State()).(file := file)
    {
      this.file := file;
    }

    method SetLine(line: int)
      modifies this
      ensures State() == old(State()).(line := line)
    {
      this.line := line;
    }

    /** Symfony's `setTrace`: the given entries after a frame for `file` and `line`. */
    method SetTrace(trace: seq<Value>, file: string, line: int)
      modifies this
      ensures State() == old(State()).(trace := [HeadFrame(file, line)] + trace)
    {
      this.trace := [HeadFrame(file, line)] + trace;
    }
  }

  function CodeValue(c: Code): Value {
    match c
    case IntCode(i) => Int(i)
    case StringCode(s) => Str(s)
  }

  /** The array `normalize` returns for an exception in state `s`: the trace is
      always written empty. */
  function Normalized(s: ExceptionState): seq<(string, Value)> {
    [("message", Str(s.message)), ("code", CodeValue(s.code)), ("class", Str(s.className)),
     ("file", Str(s.file)), ("line", Int(s.line)), ("trace", List([]))]
  }

  /** `normalize` */
  function Normalize(e: FlattenException): seq<(string, Value)>
    reads e
  {
    Normalized(e.State())
  }

  /** The value under `key` when it can be passed to a `string` parameter. */
  function StringAt(data: seq<(string, Value)>, key: string): Option<string> {
    match Get<Value>(data, key)
    case Some(Str(s)) => Some(s)
    case _ => None
  }

  function IntAt(data: seq<(string, Value)>, key: string): Option<int> {
    match Get<Value>(data, key)
    case Some(Int(i)) => Some(i)
    case _ => None
  }

  function CodeAt(data: seq<(string, Value)>, key: string): Option<Code> {
    match Get<Value>(data, key)
    case Some(Int(i)) => Some(IntCode(i))
    case Some(Str(s)) => Some(StringCode(s))
    case _ => None
  }

  /** The value under `key` when it is an array; `foreach` visits its values. */
  function ArrayAt(data: seq<(string, Value)>, key: string): Option<seq<Value>> {
    match Get<Value>(data, key)
    case Some(List(items)) => Some(items)
    case Some(Dict(entries)) => Some(seq(|entries|, i requires 0 <= i < |entries| => entries[i].1))
    case _ => None
  }

  /** The state `denormalize` gives the new exception, or the type error of the first
      setter whose argument is missing or of the wrong type (the file declares
      strict types). */
  function Denormalized(data: seq<(string, Value)>): Result<ExceptionState, Failure> {
    var message, code, className := StringAt(data, "message"), CodeAt(data, "code"), StringAt(data, "class");
    var file, line, trace := StringAt(data, "file"), IntAt(data, "line"), ArrayAt(data, "trace");
    if message.None? then Failure(TypeError("message"))
    else if code.None? then Failure(TypeError("code"))
    else if className.None? then Failure(TypeError("class"))
    else if file.None? then Failure(TypeError("file"))
    else if line.None? then Failure(TypeError("line"))
    else if trace.None? then Failure(TypeError("trace"))
    else Success(ExceptionState(message.value, code.value, className.value, file.value, line.value,
                                [HeadFrame(file.value, line.value)] + trace.value))
  }

  /** `denormalize`: a new exception, filled in setter by setter. */
  method Denormalize(data: seq<(string, Value)>) returns (r: Result<FlattenException, Failure>)
    ensures r.Failure? <==> Denormalized(data).Failure?
    ensures r.Failure? ==> r.error == Denormalized(data).error
    ensures r.Success? ==> fresh(r.value) && r.value.State() == Denormalized(data).value
  {
    var exception := new FlattenException();
    var message := StringAt(data, "message");
    if message.None? {
      return Failure(TypeError("message"));
    }
    exception.SetMessage(message.value);
    var code := CodeAt(data, "code");
    if code.None? {
      return Failure(TypeError("code"));
    }
    exception.SetCode(code.value);
    var className := StringAt(data, "class");
    if className.None? {
      return Failure(TypeError("class"));
    }
    exception.SetClass(className.value);
    var file := StringAt(data, "file");
    if file.None? {
      return Failure(TypeError("file"));
    }
    exception.SetFile(file.value);
    var line := IntAt(data, "line");
    if line.None? {
      return Failure(TypeError("line"));
    }
    exception.SetLine(line.value);
    var trace := ArrayAt(data, "trace");
    if trace.None? {
      return Failure(TypeError("trace"));
    }
    exception.SetTrace(trace.value, file.value, line.value);
    return Success(exception);
  }

  /** What `supportsNormalization` is given: an object, with every class and
      interface it is an instance of, or a value of another type. */
  datatype Data = Object(instanceOf: seq<string>) | OtherValue

  /** `supportsNormalization`: `$data instanceof FlattenException`. */
  predicate SupportsNormalization(data: Data) {
    data.Object? && FlattenExceptionClass in data.instanceOf
  }

  /** `supportsDenormalization`: only the exact class name. */
  predicate SupportsDenormalization(typeName: string) {
    typeName == FlattenExceptionClass
  }

  /** `getSupportedTypes` */
  function GetSupportedTypes(): seq<(string, bool)> {
    [(FlattenExceptionClass, true)]
  }

  // ---------------------------------------------------------------- lemmas

  /** `normalize` writes exactly the six keys, in order: five fields of the
      exception and an empty trace. */
  lemma NormalizedShape(s: ExceptionState)
    ensures |Normalized(s)| == 6 && DistinctKeys(Normalized(s))
    ensures forall k :: HasKey(Normalized(s), k) <==> k in ["message", "code", "class", "file", "line", "trace"]
    ensures StringAt(Normalized(s), "message") == Some(s.message)
    ensures CodeAt(Normalized(s), "code") == Some(s.code)
    ensures StringAt(Normalized(s), "class") == Some(s.className)
    ensures StringAt(Normalized(s), "file") == Some(s.file)
    ensures IntAt(Normalized(s), "line") == Some(s.line)
    ensures Get(Normalized(s), "trace") == Some(List([]))
  {
    var m := Normalized(s);
    forall k ensures HasKey(m, k) <==> k in ["message", "code", "class", "file", "line", "trace"] {
      if HasKey(m, k) {
        var i :| 0 <= i < |m| && m[i].0 == k;
      } else {
        assert m[0].0 != k && m[1].0 != k && m[2].0 != k && m[3].0 != k && m[4].0 != k && m[5].0 != k;
      }
    }
    forall i, j | 0 <= i < j < |m| ensures m[i].0 != m[j].0 {
      assert |m[i].0| != |m[j].0| || m[i].0[0] != m[j].0[0];
    }
    GetAt(m, 0);
    GetAt(m, 1);
    GetAt(m, 2);
    GetAt(m, 3);
    GetAt(m, 4);
    GetAt(m, 5);
    match s.code {
      case IntCode(_) =>
      case StringCode(_) =>
    }
  }

  /** Denormalizing what `normalize` wrote gives back the message, code, class, file
      and line; of the trace only the frame `setTrace` adds for that file and line
      remains. */
  lemma NormalizeThenDenormalize(s: ExceptionState)
    ensures Denormalized(Normalized(s)) == Success(s.(trace := [HeadFrame(s.file, s.line)]))
  {
    NormalizedShape(s);
    assert ArrayAt(Normalized(s), "trace") == Some([]);
    assert [HeadFrame(s.file, s.line)] + [] == [HeadFrame(s.file, s.line)];
  }

  /** A second pass through the normalizer writes what the first one wrote. */
  lemma NormalizeStable(s: ExceptionState)
    ensures Denormalized(Normalized(s)).Success?
    ensures Normalized(Denormalized(Normalized(s)).value) == Normalized(s)
  {
    NormalizeThenDenormalize(s);
  }

  /** The first missing or ill-typed argument, in setter order, is the one reported,
      and denormalizing succeeds exactly when all six are well typed. */
  lemma DenormalizedFailsAtFirstBadKey(data: seq<(string, Value)>)
    ensures StringAt(data, "message").None? ==> Denormalized(data) == Failure(TypeError("message"))
    ensures StringAt(data, "message").Some? && CodeAt(data, "code").None? ==>
              Denormalized(data) == Failure(TypeError("code"))
    ensures StringAt(data, "message").Some? && CodeAt(data, "code").Some? && StringAt(data, "class").None? ==>
              Denormalized(data) == Failure(TypeError("class"))
    ensures StringAt(data, "message").Some? && CodeAt(data, "code").Some? && StringAt(data, "class").Some? &&
            StringAt(data, "file").None? ==>
              Denormalized(data) == Failure(TypeError("file"))
    ensures StringAt(data, "message").Some? && CodeAt(data, "code").Some? && StringAt(data, "class").Some? &&
            StringAt(data, "file").Some? && IntAt(data, "line").None? ==>
              Denormalized(data) == Failure(TypeError("line"))
    ensures StringAt(data, "message").Some? && CodeAt(data, "code").Some? && StringAt(data, "class").Some? &&
            StringAt(data, "file").Some? && IntAt(data, "line").Some? && ArrayAt(data, "trace").None? ==>
              Denormalized(data) == Failure(TypeError("trace"))
    ensures Denormalized(data).Success? <==>
            && StringAt(data, "message").Some? && CodeAt(data, "code").Some? && StringAt(data, "class").Some?
            && StringAt(data, "file").Some? && IntAt(data, "line").Some? && ArrayAt(data, "trace").Some?
  {
  }

  /** The two support checks agree: `normalize` accepts an object exactly when one of
      the classes it is an instance of is the one `denormalize` builds, and nothing
      that is not an object. */
  lemma SupportChecksAgree(instanceOf: seq<string>)
    ensures SupportsNormalization(Object(instanceOf)) <==>
            exists i :: 0 <= i < |instanceOf| && SupportsDenormalization(instanceOf[i])
    ensures SupportsNormalization(Object([FlattenExceptionClass])) && SupportsDenormalization(FlattenExceptionClass)
    ensures !SupportsNormalization(OtherValue)
  {
    if SupportsNormalization(Object(instanceOf)) {
      var i :| 0 <= i < |instanceOf| && instanceOf[i] == FlattenExceptionClass;
      assert SupportsDenormalization(instanceOf[i]);
    }
    assert [FlattenExceptionClass][0] == FlattenExceptionClass;
  }

  /** `getSupportedTypes` names exactly the type `supportsDenormalization` accepts. */
  lemma SupportedTypesAgree(typeName: string)
    ensures Get(GetSupportedTypes(), typeName) == Some(true) <==> SupportsDenormalization(typeName)
    ensures HasKey(GetSupportedTypes(), typeName) <==> SupportsDenormalization(typeName)
  {
    assert GetSupportedTypes()[1..] == [];
  }
}
