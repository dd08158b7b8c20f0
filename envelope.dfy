/** Symfony Messenger's envelope, as the core uses it: a message and its stamps,
    held grouped by stamp class in the order each class first arrived (Symfony's
    `array<class-string, list<StampInterface>>`).  Every change builds a new value. */
module Messenger {
  import opened Wrappers
  import opened PhpArray

  const AmqpStampClass := "Symfony\\Component\\Messenger\\Bridge\\Amqp\\Transport\\AmqpStamp"

  /** The php-amqp extension's `AMQP_NOPARAM` flag value. */
  const AMQP_NOPARAM: int := 0

  /** A message object: its class name and its property values, which only the
      Symfony serializer looks into. */
  datatype Message = Message(className: string, properties: seq<(string, string)>)

  /** An `AmqpStamp`, or any other stamp.  `sendable` says whether the other
      stamp's class stays clear of `NonSendableStampInterface`; an `AmqpStamp`
      implements that interface. */
  datatype Stamp =
    | AmqpStamp(routingKey: Option<string>, flags: int, attributes: seq<(string, string)>)
    | OtherStamp(className: string, sendable: bool, properties: seq<(string, string)>)

  /** `$stamp::class` */
  function ClassOf(s: Stamp): string {
    match s
    case AmqpStamp(_, _, _) => AmqpStampClass
    case OtherStamp(c, _, _) => c
  }

  predicate Sendable(s: Stamp) {
    s.OtherStamp? && s.sendable
  }

  datatype Envelope = Envelope(message: Message, stamps: seq<(string, seq<Stamp>)>)

  /** A group as Symfony keeps it: non-empty, every stamp of the group's class, all
      alike in sendability (one class, one interface list), and only real
      `AmqpStamp`s under the `AmqpStamp` class. */
  predicate ValidGroup(g: (string, seq<Stamp>)) {
    && |g.1| > 0
    && forall i :: 0 <= i < |g.1| ==>
         ClassOf(g.1[i]) == g.0 && Sendable(g.1[i]) == Sendable(g.1[0]) &&
         (g.1[i].OtherStamp? ==> g.1[i].className != AmqpStampClass)
  }

  predicate ValidGroups(gs: seq<(string, seq<Stamp>)>) {
    DistinctKeys(gs) && forall i :: 0 <= i < |gs| ==> ValidGroup(gs[i])
  }

  predicate Valid(e: Envelope) {
    ValidGroups(e.stamps)
  }

  /** `$envelope->all($class)`: the stamps of one class, oldest first. */
  function All(e: Envelope, c: string): seq<Stamp> {
    match Get(e.stamps, c)
    case Some(g) => g
    case None => []
  }

  /** `$envelope->last($class)` */
  function Last(e: Envelope, c: string): Option<Stamp> {
    var g := All(e, c);
    if g == [] then None else Some(g[|g| - 1])
  }

  /** `$envelope->with($stamp)`: appended to its class's list, a new class at the end. */
  function With(e: Envelope, s: Stamp): Envelope {
    e.(stamps := Put(e.stamps, ClassOf(s), All(e, ClassOf(s)) + [s]))
  }

  /** `$envelope->with(...$stamps)` */
  function WithAll(e: Envelope, ss: seq<Stamp>): Envelope
    decreases |ss|
  {
    if ss == [] then e else With(WithAll(e, ss[..|ss| - 1]), ss[|ss| - 1])
  }

  /** `new Envelope($message, $stamps)` */
  function Create(message: Message, ss: seq<Stamp>): Envelope {
    WithAll(Envelope(message, []), ss)
  }

  /** `$envelope->withoutAll($class)` */
  function WithoutAll(e: Envelope, c: string): Envelope {
    e.(stamps := Remove(e.stamps, c))
  }

  predicate SendableGroup(g: (string, seq<Stamp>)) {
    |g.1| > 0 && Sendable(g.1[0])
  }

  function SendableGroups(gs: seq<(string, seq<Stamp>)>): seq<(string, seq<Stamp>)> {
    if gs == [] then []
    else (if SendableGroup(gs[0]) then [gs[0]] else []) + SendableGroups(gs[1..])
  }

  /** `$envelope->withoutStampsOfType(NonSendableStampInterface::class)` */
  function WithoutNonSendable(e: Envelope): Envelope {
    e.(stamps := SendableGroups(e.stamps))
  }

  /** All stamps, group after group. */
  function Flatten(gs: seq<(string, seq<Stamp>)>): seq<Stamp>
    decreases |gs|
  {
    if gs == [] then [] else Flatten(gs[..|gs| - 1]) + gs[|gs| - 1].1
  }

  // ---------------------------------------------------------------- lemmas

  lemma {:induction false} WithAllAppend(e: Envelope, a: seq<Stamp>, b: seq<Stamp>)
    ensures WithAll(e, a + b) == WithAll(WithAll(e, a), b)
    decreases |b|
  {
    if b == [] {
      assert a + b == a;
    } else {
      assert (a + b)[..|a + b| - 1] == a + b[..|b| - 1];
      assert (a + b)[|a + b| - 1] == b[|b| - 1];
      WithAllAppend(e, a, b[..|b| - 1]);
    }
  }

  /** Adding stamps of a class the envelope does not hold yet puts them, in order,
      in one new group at the end. */
  lemma {:induction false} WithAllNewClass(e: Envelope, c: string, ss: seq<Stamp>)
    requires !HasKey(e.stamps, c) && |ss| > 0
    requires forall i :: 0 <= i < |ss| ==> ClassOf(ss[i]) == c
    ensures WithAll(e, ss) == Envelope(e.message, e.stamps + [(c, ss)])
    decreases |ss|
  {
    var init, s := ss[..|ss| - 1], ss[|ss| - 1];
    if init == [] {
      assert WithAll(e, init) == e;
      GetSomeIffHasKey(e.stamps, c);
      assert ClassOf(s) == c && All(e, c) == [];
      PutShape(e.stamps, c, [s]);
      assert WithAll(e, ss) == With(e, s);
      assert With(e, s) == Envelope(e.message, Put(e.stamps, c, [] + [s]));
      assert [] + [s] == [s] == ss;
      assert Put(e.stamps, c, [s]) == e.stamps + [(c, ss)];
    } else {
      WithAllNewClass(e, c, init);
      AppendGet(e.stamps, [(c, init)], c);
      PutLast(e.stamps, c, init, init + [s]);
      assert init + [s] == ss;
    }
  }

  /** The groups before the last one are well formed, and none has the last one's class. */
  lemma ValidGroupsSnoc(gs: seq<(string, seq<Stamp>)>)
    requires ValidGroups(gs) && gs != []
    ensures ValidGroups(gs[..|gs| - 1]) && ValidGroup(gs[|gs| - 1])
    ensures !HasKey(gs[..|gs| - 1], gs[|gs| - 1].0)
  {
    var init := gs[..|gs| - 1];
    assert forall i :: 0 <= i < |init| ==> init[i] == gs[i];
    assert forall i :: 0 <= i < |init| ==> init[i].0 != gs[|gs| - 1].0;
  }

  /** Building an envelope from its stamps, group after group, gives it back:
      `new Envelope($m, $stamps)` loses nothing of a well-formed grouping. */
  lemma {:induction false} CreateFlatten(message: Message, gs: seq<(string, seq<Stamp>)>)
    requires ValidGroups(gs)
    ensures Create(message, Flatten(gs)) == Envelope(message, gs)
    decreases |gs|
  {
    if gs != [] {
      var init, g := gs[..|gs| - 1], gs[|gs| - 1];
      ValidGroupsSnoc(gs);
      calc {
        Create(message, Flatten(gs));
        WithAll(Envelope(message, []), Flatten(init) + g.1);
        { WithAllAppend(Envelope(message, []), Flatten(init), g.1); }
        WithAll(WithAll(Envelope(message, []), Flatten(init)), g.1);
        { CreateFlatten(message, init); }
        WithAll(Envelope(message, init), g.1);
        { WithAllNewClass(Envelope(message, init), g.0, g.1); }
        Envelope(message, init + [(g.0, g.1)]);
        { assert init + [(g.0, g.1)] == gs; }
        Envelope(message, gs);
      }
    }
  }

  /** `withoutAll` takes away exactly the stamps of one class. */
  lemma {:induction false} WithoutAllSpec(e: Envelope, c: string)
    requires Valid(e)
    ensures Valid(WithoutAll(e, c)) && WithoutAll(e, c).message == e.message
    ensures All(WithoutAll(e, c), c) == []
    ensures forall c' :: c' != c ==> All(WithoutAll(e, c), c') == All(e, c')
  {
    RemoveSpec(e.stamps, c);
    GetSomeIffHasKey(Remove(e.stamps, c), c);
    var r := Remove(e.stamps, c);
    forall i | 0 <= i < |r| ensures ValidGroup(r[i]) {
      RemoveWithin(e.stamps, c, i);
    }
  }

  lemma {:induction false} RemoveWithin<V>(m: seq<(string, V)>, k: string, i: int)
    requires 0 <= i < |Remove(m, k)|
    ensures exists j :: 0 <= j < |m| && m[j] == Remove(m, k)[i]
  {
    if m[0].0 == k {
      RemoveWithin(m[1..], k, i);
      var j :| 0 <= j < |m[1..]| && m[1..][j] == Remove(m[1..], k)[i];
      assert m[j + 1] == m[1..][j];
    } else if i > 0 {
      RemoveWithin(m[1..], k, i - 1);
      var j :| 0 <= j < |m[1..]| && m[1..][j] == Remove(m[1..], k)[i - 1];
      assert m[j + 1] == m[1..][j];
    } else {
      assert m[0] == Remove(m, k)[0];
    }
  }

  /** Dropping the non-sendable groups keeps exactly the sendable ones. */
  lemma {:induction false} SendableGroupsMembers(gs: seq<(string, seq<Stamp>)>)
    ensures forall i :: 0 <= i < |SendableGroups(gs)| ==> SendableGroup(SendableGroups(gs)[i]) && SendableGroups(gs)[i] in gs
    ensures forall i :: 0 <= i < |gs| && SendableGroup(gs[i]) ==> gs[i] in SendableGroups(gs)
  {
    if gs != [] {
      SendableGroupsMembers(gs[1..]);
      var head := if SendableGroup(gs[0]) then [gs[0]] else [];
      var r := SendableGroups(gs);
      var tail := SendableGroups(gs[1..]);
      assert r == head + tail;
      forall i | 0 <= i < |r| ensures SendableGroup(r[i]) && r[i] in gs {
        if i >= |head| { assert r[i] == tail[i - |head|]; }
      }
      forall i | 0 <= i < |gs| && SendableGroup(gs[i]) ensures gs[i] in r {
        if i > 0 { assert gs[i] == gs[1..][i - 1]; }
      }
    }
  }

  /** Dropping groups adds no class. */
  lemma {:induction false} SendableGroupsKeys(gs: seq<(string, seq<Stamp>)>)
    ensures forall k :: HasKey(SendableGroups(gs), k) ==> HasKey(gs, k)
  {
    if gs != [] {
      SendableGroupsKeys(gs[1..]);
      var head := if SendableGroup(gs[0]) then [gs[0]] else [];
      var r := SendableGroups(gs);
      var tail := SendableGroups(gs[1..]);
      assert r == head + tail;
      forall k | HasKey(r, k) ensures HasKey(gs, k) {
        var i :| 0 <= i < |r| && r[i].0 == k;
        if i >= |head| {
          assert tail[i - |head|].0 == k;
          HasKeyCons(gs, k);
        } else {
          assert gs[0].0 == k;
        }
      }
    }
  }

  /** The sendable groups of a well-formed grouping are well formed. */
  lemma {:induction false} SendableGroupsValid(gs: seq<(string, seq<Stamp>)>)
    requires ValidGroups(gs)
    ensures ValidGroups(SendableGroups(gs))
  {
    if gs != [] {
      DistinctKeysCons(gs);
      assert ValidGroups(gs[1..]) by {
        forall i | 0 <= i < |gs[1..]| ensures ValidGroup(gs[1..][i]) { assert gs[1..][i] == gs[i + 1]; }
      }
      SendableGroupsValid(gs[1..]);
      var r := SendableGroups(gs);
      var tail := SendableGroups(gs[1..]);
      if SendableGroup(gs[0]) {
        assert r == [gs[0]] + tail;
        assert r[0] == gs[0] && r[1..] == tail;
        SendableGroupsKeys(gs[1..]);
        assert !HasKey(tail, gs[0].0);
        DistinctKeysCons(r);
        assert ValidGroup(r[0]);
        forall i | 0 <= i < |r| ensures ValidGroup(r[i]) {
          if i > 0 { assert r[i] == tail[i - 1]; }
        }
      } else {
        assert r == tail;
      }
    }
  }

  /** Dropping the non-sendable groups keeps exactly the sendable ones, unchanged,
      adds no class and keeps the grouping well-formed. */
  lemma SendableGroupsSpec(gs: seq<(string, seq<Stamp>)>)
    ensures forall i :: 0 <= i < |SendableGroups(gs)| ==> SendableGroup(SendableGroups(gs)[i]) && SendableGroups(gs)[i] in gs
    ensures forall i :: 0 <= i < |gs| && SendableGroup(gs[i]) ==> gs[i] in SendableGroups(gs)
    ensures forall k :: HasKey(SendableGroups(gs), k) ==> HasKey(gs, k)
    ensures ValidGroups(gs) ==> ValidGroups(SendableGroups(gs))
  {
    SendableGroupsMembers(gs);
    SendableGroupsKeys(gs);
    if ValidGroups(gs) {
      SendableGroupsValid(gs);
    }
  }

  /** The `AmqpStamp`s of a well-formed envelope are never sent. */
  lemma {:induction false} AmqpStampsAreNotSent(e: Envelope)
    requires Valid(e)
    ensures !HasKey(WithoutNonSendable(e).stamps, AmqpStampClass)
  {
    SendableGroupsSpec(e.stamps);
    var r := SendableGroups(e.stamps);
    forall i | 0 <= i < |r| ensures r[i].0 != AmqpStampClass {
      var j :| 0 <= j < |e.stamps| && e.stamps[j] == r[i];
      assert ValidGroup(e.stamps[j]) && SendableGroup(r[i]);
      assert r[i].1[0].OtherStamp?;
    }
  }
  /** `withoutAll` of a class followed by `with` of one stamp of it: the old group
      goes, and a group of the new stamp alone comes last. */
  lemma {:induction false} ReplaceClassShape(e: Envelope, s: Stamp)
    ensures With(WithoutAll(e, ClassOf(s)), s) == Envelope(e.message, Remove(e.stamps, ClassOf(s)) + [(ClassOf(s), [s])])
  {
    var c := ClassOf(s);
    var w := WithoutAll(e, c);
    RemoveSpec(e.stamps, c);
    GetSomeIffHasKey(w.stamps, c);
    assert All(w, c) == [];
    PutShape(w.stamps, c, [s]);
    assert [] + [s] == [s];
  }

  /** After the replacement, the class holds only the new stamp, every other class
      keeps its stamps, and a well-formed envelope stays well-formed. */
  lemma {:induction false} ReplaceClassSpec(e: Envelope, s: Stamp)
    requires Valid(e) && ValidGroup((ClassOf(s), [s]))
    ensures var r := With(WithoutAll(e, ClassOf(s)), s);
      && r.message == e.message
      && All(r, ClassOf(s)) == [s]
      && r.stamps[|r.stamps| - 1] == (ClassOf(s), [s])
      && (forall c :: c != ClassOf(s) ==> All(r, c) == All(e, c))
      && Valid(r)
  {
    var c := ClassOf(s);
    var w := WithoutAll(e, c);
    ReplaceClassShape(e, s);
    WithoutAllSpec(e, c);
    RemoveSpec(e.stamps, c);
    var r := Envelope(e.message, w.stamps + [(c, [s])]);
    forall c' ensures Get(r.stamps, c') == if c' == c then Some([s]) else Get(w.stamps, c') {
      AppendGet(w.stamps, [(c, [s])], c');
      GetSomeIffHasKey(w.stamps, c');
    }
    assert forall c' :: c' != c ==> All(r, c') == All(w, c');
    assert DistinctKeys(r.stamps) by {
      forall i, j | 0 <= i < j < |r.stamps| ensures r.stamps[i].0 != r.stamps[j].0 {
        assert r.stamps[i] == w.stamps[i];
        if j < |w.stamps| { assert r.stamps[j] == w.stamps[j]; }
      }
    }
    forall i | 0 <= i < |r.stamps| ensures ValidGroup(r.stamps[i]) {
      if i < |w.stamps| { assert r.stamps[i] == w.stamps[i]; }
    }
  }
}
