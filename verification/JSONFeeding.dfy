/**
  Feeding a parser: the events of a document never find an empty stack, so the handlers can be called
  one after the other, and storing a document overlays it on the value the parser starts at.
 */
module JSONFeeding {
  import opened JSONValues
  import opened JSONPathParser
  import opened JSONLanding
  import opened JSONOverlay
  import opened Sequences

  /** The handler of the event finds what it takes from the stacks. */
  predicate CanHandle(s: State, e: Event) {
    match e
    case BeginObject => CanBegin(s)
    case BeginArray => CanBegin(s)
    case BeginString => CanBegin(s)
    case EndObject => s.paths != [] && s.types != [] && (Last(s.types, InObject) == InArray ==> s.indexes != [])
    case EndArray => s.paths != [] && s.types != [] && s.indexes != []
    case ObjectValue(_, kind) => kind != StringKind ==> s.paths != [] && s.keys != []
    case ArrayValue(kind) => kind != StringKind ==> s.paths != [] && s.indexes != []
    case _ => true
  }

  predicate AllHandled(s: State, es: seq<Event>, userId: Name)
    decreases |es|
  {
    es == [] || (CanHandle(s, es[0]) && AllHandled(Handled(s, es[0], userId), es[1..], userId))
  }

  lemma {:induction false} HandledConcat(s: State, a: seq<Event>, b: seq<Event>, userId: Name)
    requires AllHandled(s, a, userId) && AllHandled(Run(s, a, userId), b, userId)
    ensures AllHandled(s, a + b, userId)
    decreases |a|
  {
    if a == [] {
      Unit(b);
    } else {
      ConcatTail(a, b);
      HandledConcat(Handled(s, a[0], userId), a[1..], b, userId);
    }
  }

  lemma HandledOne(s: State, e: Event, userId: Name)
    requires CanHandle(s, e)
    ensures AllHandled(s, [e], userId)
  {
    assert [e][1..] == [];
  }

  lemma HandledThen(s: State, es: seq<Event>, last: Event, userId: Name)
    requires AllHandled(s, es, userId) && CanHandle(Run(s, es, userId), last)
    ensures AllHandled(s, es + [last], userId)
  {
    HandledOne(Run(s, es, userId), last, userId);
    HandledConcat(s, es, [last], userId);
  }

  lemma HandledBracketed(s: State, first: Event, es: seq<Event>, last: Event, userId: Name)
    requires CanHandle(s, first) && AllHandled(Handled(s, first, userId), es, userId)
    requires CanHandle(Run(Handled(s, first, userId), es, userId), last)
    ensures AllHandled(s, [first] + es + [last], userId)
  {
    HandledOne(s, first, userId);
    RunOne(s, first, userId);
    HandledConcat(s, [first], es, userId);
    RunConcat(s, [first], es, userId);
    HandledThen(s, [first] + es, last, userId);
  }

  lemma {:induction false} PartsHandled(s: State, parts: seq<Part>, userId: Name)
    ensures AllHandled(s, PartEvents(parts), userId)
    decreases |parts|
  {
    if parts != [] {
      var last := parts[|parts| - 1];
      PartsHandled(s, parts[..|parts| - 1], userId);
      HandledOne(Run(s, PartEvents(parts[..|parts| - 1]), userId), PartString(last.text, last.indexed), userId);
      HandledConcat(s, PartEvents(parts[..|parts| - 1]), [PartString(last.text, last.indexed)], userId);
    }
  }

  /** The events inside a value, and the event for the whole value. */
  lemma WholeHandled(s: State, d: Document, userId: Name)
    requires AllHandled(s, Inner(d), userId)
    ensures AllHandled(s, Events(d), userId)
  {
    HandledThen(s, Inner(d), JSONValue(KindOf(d)), userId);
  }

  lemma {:induction false} MemberHandled(s: State, name: Name, d: Document, root: Value, q: Path, o: Value, userId: Name)
    requires InsideObject(s, root, q, o)
    ensures AllHandled(s, [ObjectKey(name)] + Events(d) + [ObjectValue(name, KindOf(d))], userId)
    decreases d, 2
  {
    var s1 := Handled(s, ObjectKey(name), userId);
    KeyPushed(s, name, root, q, o, userId);
    InnerHandled(s1, d, userId);
    WholeHandled(s1, d, userId);
    ValueEvents(s1, d, userId);
    HandledBracketed(s, ObjectKey(name), Events(d), ObjectValue(name, KindOf(d)), userId);
  }

  lemma {:induction false} MembersHandled(s: State, ms: Members, root: Value, q: Path, o: Value, userId: Name)
    requires InsideObject(s, root, q, o)
    ensures AllHandled(s, MemberEvents(ms), userId)
    decreases ms, 0
  {
    if ms.Members? {
      var one := [ObjectKey(ms.name)] + Events(ms.value) + [ObjectValue(ms.name, KindOf(ms.value))];
      MemberHandled(s, ms.name, ms.value, root, q, o, userId);
      MemberStored(s, ms.name, ms.value, root, q, o, userId);
      MembersHandled(Run(s, one, userId), ms.rest, root, q, MemberLaid(o, ms.name, ms.value, userId), userId);
      HandledConcat(s, one, MemberEvents(ms.rest), userId);
    }
  }

  lemma {:induction false} ItemHandled(s: State, d: Document, root: Value, q: Path, a: Value, n: nat, userId: Name)
    requires InsideArray(s, root, q, a, n)
    ensures AllHandled(s, Events(d) + [ArrayValue(KindOf(d))], userId)
    decreases d, 2
  {
    ItemTarget(s, root, q, a, n);
    InnerHandled(s, d, userId);
    WholeHandled(s, d, userId);
    ValueEvents(s, d, userId);
    HandledThen(s, Events(d), ArrayValue(KindOf(d)), userId);
  }

  lemma {:induction false} ItemsHandled(s: State, ds: Documents, root: Value, q: Path, a: Value, n: nat, userId: Name)
    requires InsideArray(s, root, q, a, n)
    ensures AllHandled(s, ItemEvents(ds), userId)
    decreases ds, 0
  {
    if ds.Documents? {
      var one := Events(ds.first) + [ArrayValue(KindOf(ds.first))];
      ItemHandled(s, ds.first, root, q, a, n, userId);
      ItemStored(s, ds.first, root, q, a, n, userId);
      NextItem(s, Run(s, one, userId), root, q, a, n, ds.first, userId);
      ItemsHandled(Run(s, one, userId), ds.rest, root, q, ItemLaid(a, n, ds.first, userId), n + 1, userId);
      HandledConcat(s, one, ItemEvents(ds.rest), userId);
    }
  }

  /** The events inside a value never find an empty stack; and a value that is not a string uses nothing up. */
  lemma {:induction false} InnerHandled(s: State, d: Document, userId: Name)
    requires Ready(s)
    ensures AllHandled(s, Inner(d), userId)
    ensures var t := Run(s, Inner(d), userId);
            t.paths == s.paths && (!d.Str? ==> Kept(s, t))
    decreases d, 1
  {
    match d
    case Leaf(_) =>
    case Str(parts) =>
      var s1 := Handled(s, BeginString, userId);
      PartsHandled(s1, parts, userId);
      HandledBracketed(s, BeginString, PartEvents(parts), EndString, userId);
      StringStored(s, parts, userId);
    case Obj(members) =>
      var s1 := Handled(s, BeginObject, userId);
      ObjectBegins(s, userId);
      MembersHandled(s1, members, s.root, Target(s), AsObject(Get(s.root, Target(s))), userId);
      MembersStored(s1, members, s.root, Target(s), AsObject(Get(s.root, Target(s))), userId);
      HandledBracketed(s, BeginObject, MemberEvents(members), EndObject, userId);
      ValueStored(s, d, userId);
    case Arr(items) =>
      var s1 := Handled(s, BeginArray, userId);
      ArrayBegins(s, userId);
      ItemsHandled(s1, items, s.root, Target(s), AsArray(Get(s.root, Target(s))), 0, userId);
      ItemsStored(s1, items, s.root, Target(s), AsArray(Get(s.root, Target(s))), 0, Length(items), userId);
      HandledBracketed(s, BeginArray, ItemEvents(items), EndArray, userId);
      ValueStored(s, d, userId);
  }

  /** Calls the handler of an event. */
  method Handle(parser: Parser, e: Event)
    requires CanHandle(parser.Now(), e)
    modifies parser
    ensures parser.Now() == Handled(old(parser.Now()), e, parser.userId)
  {
    match e
    case BeginObject => parser.OnBeginObject();
    case ObjectKey(name) => parser.OnObjectKey(name);
    case ObjectValue(name, kind) => parser.OnObjectValue(name, kind);
    case EndObject => parser.OnEndObject();
    case BeginArray => parser.OnBeginArray();
    case ArrayValue(kind) => parser.OnArrayValue(kind);
    case EndArray => parser.OnEndArray();
    case BeginString => parser.OnBeginString();
    case PartString(text, indexed) => parser.OnPartString(text, indexed);
    case EndString => parser.OnEndString();
    case JSONValue(kind) => parser.OnValue(kind);
  }

  method Feed(parser: Parser, es: seq<Event>)
    requires AllHandled(parser.Now(), es, parser.userId)
    modifies parser
    ensures parser.Now() == Run(old(parser.Now()), es, parser.userId)
  {
    FromStart(es);
    for i := 0 to |es|
      invariant AllHandled(parser.Now(), es[i..], parser.userId)
      invariant Run(parser.Now(), es[i..], parser.userId) == Run(old(parser.Now()), es, parser.userId)
    {
      DropNext(es, i);
      Handle(parser, es[i]);
    }
  }

  /** Storing a document: no handler ever finds an empty stack, the stacks end as they began, and where
      each member whose key stands for the user is a string, the value is the overlay of the document,
      with the user's id for that key, on what was there; where no object has a key twice, exactly when
      each such member lands. */
  method Store(parser: Parser, d: Document)
    requires parser.paths == [] && parser.types == []
    modifies parser
    ensures parser.root == Laid(old(parser.root), d, parser.userId)
    ensures MyAreStrings(d) ==> parser.root == Overlay(old(parser.root), Renamed(d, parser.userId))
    ensures KeysOnce(Renamed(d, parser.userId)) ==>
              (parser.root == Overlay(old(parser.root), Renamed(d, parser.userId)) <==> AllLand(old(parser.root), d, parser.userId))
    ensures Kept(old(parser.Now()), parser.Now())
  {
    InnerHandled(parser.Now(), d, parser.userId);
    WholeHandled(parser.Now(), d, parser.userId);
    Feeding(parser.Now(), d, parser.userId);
    if MyAreStrings(d) {
      LaidIsOverlay(parser.root, d, parser.userId);
    }
    if KeysOnce(Renamed(d, parser.userId)) {
      LaidExactly(parser.root, d, parser.userId);
    }
    Feed(parser, Events(d));
  }
}
