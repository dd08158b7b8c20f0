/** The two-way registry between implementation class names and wire types
    (`src/Service/TypeLocator.php`).  Stamp classes and message classes live in two
    separate maps, so the two namespaces never interfere. */
module Service {
  import opened Wrappers
  import opened Failures
  import opened PhpArray
  import opened PhpString

  /** The namespace the built-in stamp keys resolve to: the source file imports
      none of Symfony's stamp classes, so the keys name classes of the bundle's own
      `Service` namespace.  They are kept as those strings. */
  const ServiceNamespace := "Sokil\\MessageBusBundle\\Service\\"

  /** The built-in stamp map. */
  const DefaultStampClassNameToTypeMap: seq<(string, string)> := [
    (ServiceNamespace + "DelayStamp", "Delay"),
    (ServiceNamespace + "BusNameStamp", "BusName"),
    (ServiceNamespace + "SentStamp", "Sent"),
    (ServiceNamespace + "TransportMessageIdStamp", "TransportMessageId"),
    (ServiceNamespace + "ErrorDetailsStamp", "ErrorDetails"),
    (ServiceNamespace + "RedeliveryStamp", "Redelivery"),
    (ServiceNamespace + "SentToFailureTransportStamp", "SendToFailureTransportStamp"),
    (ServiceNamespace + "HandledStamp", "Handled"),
    (ServiceNamespace + "ReceivedStamp", "Received")
  ]

  /** The built-in map names no class twice. */
  lemma DefaultStampMapDistinct()
    ensures DistinctKeys(DefaultStampClassNameToTypeMap)
  {
    var m := DefaultStampClassNameToTypeMap;
    var n := |ServiceNamespace|;
    forall i, j | 0 <= i < j < |m| ensures m[i].0 != m[j].0 {
      assert |m[i].0| != |m[j].0| || m[i].0[n] != m[j].0[n];
    }
  }

  class TypeLocator {
    var stampClassNameToTypeMap: seq<(string, string)>
    var messageClassNameToTypeMap: seq<(string, string)>

    /** Both maps are PHP arrays, so neither repeats a class name. */
    ghost predicate Valid()
      reads this
    {
      DistinctKeys(stampClassNameToTypeMap) && DistinctKeys(messageClassNameToTypeMap)
    }

    /** User stamp entries are laid over the built-in map with `array_merge`; the
        message map is taken as given. */
    constructor (stampClassNameToTypeMap: seq<(string, string)>, messageClassNameToTypeMap: seq<(string, string)>)
      requires DistinctKeys(stampClassNameToTypeMap) && DistinctKeys(messageClassNameToTypeMap)
      ensures Valid()
      ensures this.stampClassNameToTypeMap == Merge(DefaultStampClassNameToTypeMap, stampClassNameToTypeMap)
      ensures this.messageClassNameToTypeMap == messageClassNameToTypeMap
    {
      DefaultStampMapDistinct();
      MergeKeepsPositions(DefaultStampClassNameToTypeMap, stampClassNameToTypeMap);
      this.stampClassNameToTypeMap := Merge(DefaultStampClassNameToTypeMap, stampClassNameToTypeMap);
      this.messageClassNameToTypeMap := messageClassNameToTypeMap;
    }

    /** The first stamp class, in map order, registered with `stampType`. */
    function GetStampClassNameByType(stampType: string): (r: Result<string, Failure>)
      reads this
      ensures r.Failure? ==> r.error == UnknownStampType(stampType)
    {
      match Search(stampClassNameToTypeMap, stampType)
      case Some(c) => Success(c)
      case None => Failure(UnknownStampType(stampType))
    }

    /** The wire type registered for a stamp class; an absent class, or one whose
        type is empty in PHP's sense, is unknown. */
    function GetStampTypeByClassName(stampClassName: string): (r: Result<string, Failure>)
      reads this
      ensures r.Success? ==> !Empty(r.value)
      ensures r.Failure? ==> r.error == UnknownStampClassName(stampClassName)
    {
      match Get(stampClassNameToTypeMap, stampClassName)
      case Some(t) => if Empty(t) then Failure(UnknownStampClassName(stampClassName)) else Success(t)
      case None => Failure(UnknownStampClassName(stampClassName))
    }

    /** Adds message classes; a class that is already registered is rejected and
        nothing changes.  Wire types are not checked for uniqueness. */
    method AppendMessageClassNameToTypeMap(messageClassNameToTypeMap: seq<(string, string)>) returns (r: Outcome<Failure>)
      requires Valid() && DistinctKeys(messageClassNameToTypeMap)
      modifies this
      ensures Valid()
      ensures stampClassNameToTypeMap == old(stampClassNameToTypeMap)
      ensures r.Fail? <==> KeysIntersect(old(this.messageClassNameToTypeMap), messageClassNameToTypeMap)
      ensures r.Fail? ==> r.error == MessageClassNameAlreadyDefined && this.messageClassNameToTypeMap == old(this.messageClassNameToTypeMap)
      ensures r.Pass? ==> this.messageClassNameToTypeMap == old(this.messageClassNameToTypeMap) + messageClassNameToTypeMap
    {
      if KeysIntersect(this.messageClassNameToTypeMap, messageClassNameToTypeMap) {
        return Fail(MessageClassNameAlreadyDefined);
      }
      MergeDisjoint(this.messageClassNameToTypeMap, messageClassNameToTypeMap);
      MergeKeepsPositions(this.messageClassNameToTypeMap, messageClassNameToTypeMap);
      this.messageClassNameToTypeMap := Merge(this.messageClassNameToTypeMap, messageClassNameToTypeMap);
      r := Pass;
    }

    /** The first message class, in map order, registered with `messageType`. */
    function GetMessageClassNameByType(messageType: string): (r: Result<string, Failure>)
      reads this
      ensures r.Failure? ==> r.error == UnknownMessageType(messageType)
    {
      match Search(messageClassNameToTypeMap, messageType)
      case Some(c) => Success(c)
      case None => Failure(UnknownMessageType(messageType))
    }

    /** The wire type registered for a message class; an absent class, or one whose
        type is empty in PHP's sense, is unknown. */
    function GetMessageTypeByClassName(messageClassName: string): (r: Result<string, Failure>)
      reads this
      ensures r.Success? ==> !Empty(r.value)
      ensures r.Failure? ==> r.error == UnknownMessageClassName(messageClassName)
    {
      match Get(messageClassNameToTypeMap, messageClassName)
      case Some(t) => if Empty(t) then Failure(UnknownMessageClassName(messageClassName)) else Success(t)
      case None => Failure(UnknownMessageClassName(messageClassName))
    }
  }

  /** Some entry registers class `c` with a type that is not empty. */
  predicate HasNonEmptyType(m: seq<(string, string)>, c: string) {
    exists i :: 0 <= i < |m| && m[i].0 == c && !Empty(m[i].1)
  }

  /** What `$map[$class] ?? null` followed by the `empty` check accepts. */
  lemma LookupByClassName(m: seq<(string, string)>, c: string)
    ensures Get(m, c).Some? ==> (c, Get(m, c).value) in m
    ensures DistinctKeys(m) ==> ((Get(m, c).Some? && !Empty(Get(m, c).value)) <==> HasNonEmptyType(m, c))
  {
    if Get(m, c).Some? { GetIsEntry(m, c); }
    if DistinctKeys(m) {
      if exists i :: 0 <= i < |m| && m[i].0 == c && !Empty(m[i].1) {
        var i :| 0 <= i < |m| && m[i].0 == c && !Empty(m[i].1);
        GetAt(m, i);
      }
      if Get(m, c).Some? {
        var i :| 0 <= i < |m| && m[i] == (c, Get(m, c).value);
      }
    }
  }

  /** `getStampClassNameByType` fails exactly when no stamp class has the type, and
      otherwise gives the first class, in map order, that has it. */
  lemma StampClassNameLookup(locator: TypeLocator, stampType: string)
    ensures locator.GetStampClassNameByType(stampType).Failure? <==>
            forall i :: 0 <= i < |locator.stampClassNameToTypeMap| ==> locator.stampClassNameToTypeMap[i].1 != stampType
    ensures locator.GetStampClassNameByType(stampType).Success? ==>
            exists i :: FirstValueAt(locator.stampClassNameToTypeMap, stampType, i) &&
                        locator.stampClassNameToTypeMap[i].0 == locator.GetStampClassNameByType(stampType).value
  {
    SearchSpec(locator.stampClassNameToTypeMap, stampType);
  }

  /** The same for `getMessageClassNameByType`. */
  lemma MessageClassNameLookup(locator: TypeLocator, messageType: string)
    ensures locator.GetMessageClassNameByType(messageType).Failure? <==>
            forall i :: 0 <= i < |locator.messageClassNameToTypeMap| ==> locator.messageClassNameToTypeMap[i].1 != messageType
    ensures locator.GetMessageClassNameByType(messageType).Success? ==>
            exists i :: FirstValueAt(locator.messageClassNameToTypeMap, messageType, i) &&
                        locator.messageClassNameToTypeMap[i].0 == locator.GetMessageClassNameByType(messageType).value
  {
    SearchSpec(locator.messageClassNameToTypeMap, messageType);
  }

  /** `getStampTypeByClassName` gives the type the map registers for the class, and
      succeeds exactly when the class is registered with a type that is not empty. */
  lemma StampTypeLookup(locator: TypeLocator, stampClassName: string)
    ensures locator.GetStampTypeByClassName(stampClassName).Success? ==>
            (stampClassName, locator.GetStampTypeByClassName(stampClassName).value) in locator.stampClassNameToTypeMap
    ensures locator.Valid() ==>
            (locator.GetStampTypeByClassName(stampClassName).Success? <==> HasNonEmptyType(locator.stampClassNameToTypeMap, stampClassName))
  {
    LookupByClassName(locator.stampClassNameToTypeMap, stampClassName);
  }

  /** The same for `getMessageTypeByClassName`. */
  lemma MessageTypeLookup(locator: TypeLocator, messageClassName: string)
    ensures locator.GetMessageTypeByClassName(messageClassName).Success? ==>
            (messageClassName, locator.GetMessageTypeByClassName(messageClassName).value) in locator.messageClassNameToTypeMap
    ensures locator.Valid() ==>
            (locator.GetMessageTypeByClassName(messageClassName).Success? <==> HasNonEmptyType(locator.messageClassNameToTypeMap, messageClassName))
  {
    LookupByClassName(locator.messageClassNameToTypeMap, messageClassName);
  }

  /** After construction a stamp class has the user's type when the user map names
      it and keeps its built-in type otherwise; the built-in classes keep their
      positions and no class is repeated. */
  lemma {:induction false} ConstructedStampMap(userMap: seq<(string, string)>, c: string)
    requires DistinctKeys(userMap)
    ensures Get(Merge(DefaultStampClassNameToTypeMap, userMap), c) ==
      if HasKey(userMap, c) then Get(userMap, c) else Get(DefaultStampClassNameToTypeMap, c)
    ensures |Merge(DefaultStampClassNameToTypeMap, userMap)| >= |DefaultStampClassNameToTypeMap|
    ensures forall i :: 0 <= i < |DefaultStampClassNameToTypeMap| ==>
      Merge(DefaultStampClassNameToTypeMap, userMap)[i].0 == DefaultStampClassNameToTypeMap[i].0
    ensures DistinctKeys(Merge(DefaultStampClassNameToTypeMap, userMap))
  {
    MergeGet(DefaultStampClassNameToTypeMap, userMap, c);
    DefaultStampMapDistinct();
    MergeKeepsPositions(DefaultStampClassNameToTypeMap, userMap);
  }

  /** Reverse then forward: the class found for a non-empty type maps back to it. */
  lemma {:induction false} ReverseThenForward(m: seq<(string, string)>, t: string)
    requires DistinctKeys(m) && !Empty(t) && Search(m, t).Some?
    ensures Get(m, Search(m, t).value) == Some(t)
  {
    SearchSpec(m, t);
    var i :| FirstValueAt(m, t, i) && m[i].0 == Search(m, t).value;
    GetAt(m, i);
  }

  /** Forward then reverse: with distinct types, the type of a class leads back to it. */
  lemma {:induction false} ForwardThenReverse(m: seq<(string, string)>, c: string)
    requires DistinctKeys(m) && DistinctValues(m) && Get(m, c).Some?
    ensures Search(m, Get(m, c).value) == Some(c)
  {
    var t := Get(m, c).value;
    GetIsEntry(m, c);
    var i :| 0 <= i < |m| && m[i] == (c, t);
    SearchSpec(m, t);
    assert Search(m, t).Some?;
    var j :| FirstValueAt(m, t, j) && m[j].0 == Search(m, t).value;
    assert m[i].1 == t && m[j].1 == t;
    assert i >= j;
    assert i <= j;
  }

  lemma {:induction false} StampReverseThenForward(locator: TypeLocator, stampType: string)
    requires locator.Valid() && !Empty(stampType) && locator.GetStampClassNameByType(stampType).Success?
    ensures locator.GetStampTypeByClassName(locator.GetStampClassNameByType(stampType).value) == Success(stampType)
  {
    ReverseThenForward(locator.stampClassNameToTypeMap, stampType);
  }

  lemma {:induction false} MessageReverseThenForward(locator: TypeLocator, messageType: string)
    requires locator.Valid() && !Empty(messageType) && locator.GetMessageClassNameByType(messageType).Success?
    ensures locator.GetMessageTypeByClassName(locator.GetMessageClassNameByType(messageType).value) == Success(messageType)
  {
    ReverseThenForward(locator.messageClassNameToTypeMap, messageType);
  }

  lemma {:induction false} MessageForwardThenReverse(locator: TypeLocator, messageClassName: string)
    requires locator.Valid() && DistinctValues(locator.messageClassNameToTypeMap)
    requires locator.GetMessageTypeByClassName(messageClassName).Success?
    ensures locator.GetMessageClassNameByType(locator.GetMessageTypeByClassName(messageClassName).value) == Success(messageClassName)
  {
    ForwardThenReverse(locator.messageClassNameToTypeMap, messageClassName);
  }

  lemma {:induction false} StampForwardThenReverse(locator: TypeLocator, stampClassName: string)
    requires locator.Valid() && DistinctValues(locator.stampClassNameToTypeMap)
    requires locator.GetStampTypeByClassName(stampClassName).Success?
    ensures locator.GetStampClassNameByType(locator.GetStampTypeByClassName(stampClassName).value) == Success(stampClassName)
  {
    ForwardThenReverse(locator.stampClassNameToTypeMap, stampClassName);
  }

  /** After an accepted append (`old + added`, disjoint class names), every class
      registered before reads as before, every added class reads its new type, and
      a type that was already registered still resolves to its earlier class even
      when an added class repeats it. */
  lemma {:induction false} AppendedLookups(before: seq<(string, string)>, added: seq<(string, string)>, c: string, t: string)
    requires DistinctKeys(before) && DistinctKeys(added) && !KeysIntersect(before, added)
    ensures HasKey(before, c) ==> Get(before + added, c) == Get(before, c)
    ensures HasKey(added, c) ==> Get(before + added, c) == Get(added, c)
    ensures Search(before, t).Some? ==> Search(before + added, t) == Search(before, t)
  {
    AppendGet(before, added, c);
    if HasKey(added, c) {
      var j :| 0 <= j < |added| && added[j].0 == c;
      assert !HasKey(before, c) by {
        forall i | 0 <= i < |before| ensures before[i].0 != c {
          assert before[i].0 != added[j].0;
        }
      }
    }
    if Search(before, t).Some? { AppendSearch(before, added, t); }
  }

  /** Wire types need not be unique: two classes registered with one type are both
      accepted, and reverse lookup gives the first. */
  lemma DuplicateTypeResolvesToFirst()
    ensures !KeysIntersect([("First", "user.created")], [("Second", "user.created")])
    ensures Search([("First", "user.created")] + [("Second", "user.created")], "user.created") == Some("First")
    ensures Get([("First", "user.created")] + [("Second", "user.created")], "Second") == Some("user.created")
  {
    var m := [("First", "user.created")] + [("Second", "user.created")];
    assert m[1..] == [("Second", "user.created")];
  }
}
