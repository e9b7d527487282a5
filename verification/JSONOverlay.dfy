/**
  Feeding the events of a document to the handlers leaves the stacks as they were and overlays the
  document on the stored value.
 */
module JSONOverlay {
  import opened JSONValues
  import opened JSONPathParser
  import opened Sequences

  /** The stacks are as they were. */
  predicate Kept(s: State, t: State) {
    t.paths == s.paths && t.indexes == s.indexes && t.keys == s.keys && t.types == s.types
  }

  /** The handlers find what they look for on the stacks. */
  predicate Ready(s: State) {
    && |s.types| == |s.paths| && Steps(Target(s))
    && (s.paths != [] ==> Steps(Top(s)) && (if Last(s.types, InArray) == InObject then s.keys != [] else s.indexes != []))
  }

  /** The value at the target is changed, and the stacks are as they were. */
  predicate Stores(s: State, t: State, v: Value) {
    Kept(s, t) && t.root == Put(s.root, Target(s), v)
  }

  // ----- strings

  /** The pages that have been stored are the parts. */
  lemma {:induction false} PartsStored(s: State, parts: seq<Part>, root: Value, q: Path, userId: Name)
    requires Steps(q) && s.text == q && s.page == 0 && s.root == Put(root, q, Get(root, q))
    ensures var t := Run(s, PartEvents(parts), userId);
            && Kept(s, t) && t.text == q && t.page == |parts|
            && t.root == Put(root, q, Get(t.root, q))
            && (parts != [] ==> Get(t.root, q).Text?)
            && |parts| <= |AsText(Get(t.root, q)).pages| && AsText(Get(t.root, q)).pages[..|parts|] == Texts(parts)
    decreases |parts|
  {
    if parts == [] {
      GetPut(root, q, Get(root, q));
    } else {
      var front, last := parts[..|parts| - 1], parts[|parts| - 1];
      PartsStored(s, front, root, q, userId);
      var m := Run(s, PartEvents(front), userId);
      RunConcat(s, PartEvents(front), [PartString(last.text, last.indexed)], userId);
      RunOne(m, PartString(last.text, last.indexed), userId);
      OnePart(m, parts, root, q);
    }
  }

  lemma OnePart(m: State, parts: seq<Part>, root: Value, q: Path)
    requires Steps(q) && parts != [] && m.page == |parts| - 1 && m.text == q
    requires m.root == Put(root, q, Get(m.root, q))
    requires m.page <= |AsText(Get(m.root, q)).pages| && AsText(Get(m.root, q)).pages[..m.page] == Texts(parts[..|parts| - 1])
    ensures var last := parts[|parts| - 1];
            var pages := WithPage(AsText(Get(m.root, q)).pages, m.page, last.text, last.indexed);
            && |parts| <= |pages| && pages[..|parts|] == Texts(parts)
            && Put(m.root, q, Text(pages)) == Put(root, q, Text(pages)) && Get(Put(m.root, q, Text(pages)), q) == Text(pages)
  {
    var last := parts[|parts| - 1];
    var pages := WithPage(AsText(Get(m.root, q)).pages, m.page, last.text, last.indexed);
    GetPut(m.root, q, Text(pages));
    PutPut(root, q, Get(m.root, q), Text(pages));
    assert Texts(parts) == Texts(parts[..|parts| - 1]) + [last.text];
    assert pages[..m.page] == AsText(Get(m.root, q)).pages[..m.page];
    assert pages[..|parts|] == pages[..m.page] + [last.text];
  }

  lemma StringBegins(s: State, userId: Name)
    requires Ready(s)
    ensures var q, s1 := Target(s), Handled(s, BeginString, userId);
            && s1.text == q && s1.page == 0 && s1.root == Put(s.root, q, Get(s.root, q)) && s1.root == Put(s.root, q, Get(s1.root, q))
            && s1.paths == s.paths && s1.types == s.types
            && s1.keys == (if s.paths != [] && Last(s.types, InArray) == InObject then Front(s.keys) else s.keys)
            && s1.indexes == (if s.paths != [] && Last(s.types, InArray) == InArray then Counted(s.indexes) else s.indexes)
  {
    GetPut(s.root, Target(s), Get(s.root, Target(s)));
    assert Put(s.root, [], s.root) == s.root;
  }

  lemma StringEnds(m: State, root: Value, q: Path, texts: seq<string>, userId: Name)
    requires Steps(q) && m.text == q && m.page == |texts| && m.root == Put(root, q, Get(m.root, q))
    requires |texts| <= |AsText(Get(m.root, q)).pages| && AsText(Get(m.root, q)).pages[..|texts|] == texts
    ensures var t := Handled(m, EndString, userId);
            Kept(m, t) && t.root == Put(root, q, Text(texts))
  {
    PutPut(root, q, Get(m.root, q), Text(texts));
    var pages := AsText(Get(m.root, q)).pages;
    assert |texts| == |pages| ==> pages[..|texts|] == pages;
  }

  /** A string is stored where it belongs; its key or its index is used up at its beginning. */
  lemma StringStored(s: State, parts: seq<Part>, userId: Name)
    requires Ready(s)
    ensures var t := Run(s, Inner(Str(parts)), userId);
            && t.paths == s.paths && t.types == s.types && t.root == Put(s.root, Target(s), Text(Texts(parts)))
            && t.keys == (if s.paths != [] && Last(s.types, InArray) == InObject then Front(s.keys) else s.keys)
            && t.indexes == (if s.paths != [] && Last(s.types, InArray) == InArray then Counted(s.indexes) else s.indexes)
  {
    var q, s1 := Target(s), Handled(s, BeginString, userId);
    StringBegins(s, userId);
    PartsStored(s1, parts, s.root, q, userId);
    var m := Run(s1, PartEvents(parts), userId);
    StringEnds(m, s.root, q, Texts(parts), userId);
    Bracketed(s, BeginString, PartEvents(parts), EndString, userId);
  }

  lemma Bracketed(s: State, first: Event, es: seq<Event>, last: Event, userId: Name)
    ensures Run(s, [first] + es + [last], userId) == Handled(Run(Handled(s, first, userId), es, userId), last, userId)
  {
    RunConcat(s, [first] + es, [last], userId);
    RunConcat(s, [first], es, userId);
    RunOne(s, first, userId);
    RunOne(Run(Handled(s, first, userId), es, userId), last, userId);
  }

  // ----- objects and arrays

  /** Where the members of an object are stored. */
  predicate InsideObject(s: State, root: Value, q: Path, o: Value) {
    && s.paths != [] && |s.types| == |s.paths| && Top(s) == q && Last(s.types, InArray) == InObject
    && Steps(q) && o.Object? && s.root == Put(root, q, o)
  }

  predicate InsideArray(s: State, root: Value, q: Path, a: Value, n: nat) {
    && s.paths != [] && |s.types| == |s.paths| && Top(s) == q && Last(s.types, InObject) == InArray
    && Steps(q) && a.Array? && s.root == Put(root, q, a)
    && s.indexes != [] && Last(s.indexes, 0) == n
  }

  lemma StepsPush(q: Path, step: Step)
    requires Steps(q) && step != At(0)
    ensures Steps(q + [step])
  {
  }

  lemma {:induction false} LaidKinds(was: Value, d: Document, userId: Name)
    ensures d.Obj? ==> Laid(was, d, userId).Object?
    ensures d.Arr? ==> Laid(was, d, userId).Array?
  {
    if d.Obj? {
      MembersObject(AsObject(was), d.members, userId);
    }
  }

  lemma {:induction false} MembersObject(o: Value, ms: Members, userId: Name)
    requires o.Object?
    ensures LaidMembers(o, ms, userId).Object?
    decreases ms
  {
    if ms.Members? {
      MembersObject(MemberLaid(o, ms.name, ms.value, userId), ms.rest, userId);
    }
  }

  /** A composite value that has been stored is left alone by the event that follows. */
  lemma StoredAgain(root: Value, q: Path, v: Value, kind: Kind)
    requires Steps(q) && (kind == ArrayKind ==> v.Array?) && (kind == ObjectKind ==> v.Object?) && (kind.SimpleKind? ==> v == Simple(kind.scalar))
    ensures Put(Put(root, q, v), q, Variable(Get(Put(root, q, v), q), kind)) == Put(root, q, v)
  {
    GetPut(root, q, v);
    PutPut(root, q, v, v);
  }

  /** Inside a container, the event for the whole value does nothing. */
  lemma ValueEvents(s: State, d: Document, userId: Name)
    ensures Run(s, Events(d), userId) == Handled(Run(s, Inner(d), userId), JSONValue(KindOf(d)), userId)
  {
    RunConcat(s, Inner(d), [JSONValue(KindOf(d))], userId);
    RunOne(Run(s, Inner(d), userId), JSONValue(KindOf(d)), userId);
  }

  lemma MemberRun(s: State, name: Name, d: Document, userId: Name)
    requires Run(Handled(s, ObjectKey(name), userId), Inner(d), userId).paths != []
    ensures Run(s, [ObjectKey(name)] + Events(d) + [ObjectValue(name, KindOf(d))], userId)
            == Handled(Run(Handled(s, ObjectKey(name), userId), Inner(d), userId), ObjectValue(name, KindOf(d)), userId)
  {
    ValueEvents(Handled(s, ObjectKey(name), userId), d, userId);
    Bracketed(s, ObjectKey(name), Events(d), ObjectValue(name, KindOf(d)), userId);
  }

  lemma ItemRun(s: State, d: Document, userId: Name)
    requires Run(s, Inner(d), userId).paths != []
    ensures Run(s, Events(d) + [ArrayValue(KindOf(d))], userId)
            == Handled(Run(s, Inner(d), userId), ArrayValue(KindOf(d)), userId)
  {
    ValueEvents(s, d, userId);
    RunConcat(s, Events(d), [ArrayValue(KindOf(d))], userId);
    RunOne(Run(s, Events(d), userId), ArrayValue(KindOf(d)), userId);
  }

  /** The value after a member has been stored. */
  function MemberLaid(o: Value, name: Name, d: Document, userId: Name): Value {
    LaidMember(o, name, d, Laid(Child(o, Key(Meant(name, userId))), d, userId), userId)
  }

  function ItemLaid(a: Value, n: nat, d: Document, userId: Name): Value {
    WithChild(a, At(n + 1), Laid(Child(a, At(n + 1)), d, userId))
  }

  lemma KeyPushed(s: State, name: Name, root: Value, q: Path, o: Value, userId: Name)
    requires InsideObject(s, root, q, o)
    ensures var s1 := Handled(s, ObjectKey(name), userId);
            && Ready(s1) && s1.paths == s.paths && s1.types == s.types && s1.indexes == s.indexes && s1.root == s.root
            && s1.keys == s.keys + [Meant(name, userId)] && Front(s1.keys) == s.keys && Target(s1) == q + [Key(Meant(name, userId))]
  {
    StepsPush(q, Key(Meant(name, userId)));
  }

  lemma ItemTarget(s: State, root: Value, q: Path, a: Value, n: nat)
    requires InsideArray(s, root, q, a, n)
    ensures Ready(s) && Target(s) == q + [At(n + 1)] && Steps(q + [At(n + 1)])
  {
    StepsPush(q, At(n + 1));
  }

  lemma {:induction false} MemberStored(s: State, name: Name, d: Document, root: Value, q: Path, o: Value, userId: Name)
    requires InsideObject(s, root, q, o)
    ensures var t := Run(s, [ObjectKey(name)] + Events(d) + [ObjectValue(name, KindOf(d))], userId);
            Kept(s, t) && t.root == Put(root, q, MemberLaid(o, name, d, userId))
    decreases d, 2
  {
    var s1 := Handled(s, ObjectKey(name), userId);
    var inside := Laid(Child(o, Key(Meant(name, userId))), d, userId);
    KeyPushed(s, name, root, q, o, userId);
    if d.Leaf? {
      PutChild(root, q, o, Key(name), inside);
    } else {
      PutChild(root, q, o, Key(Meant(name, userId)), inside);
      if d.Str? {
        StringStored(s1, d.parts, userId);
      } else {
        ValueStored(s1, d, userId);
        var over := WithChild(o, Key(Meant(name, userId)), inside);
        PutChild(root, q, over, Key(name), Variable(Child(over, Key(name)), KindOf(d)));
      }
    }
    MemberRun(s, name, d, userId);
  }

  lemma {:induction false} MembersStored(s: State, ms: Members, root: Value, q: Path, o: Value, userId: Name)
    requires InsideObject(s, root, q, o)
    ensures var t := Run(s, MemberEvents(ms), userId);
            Kept(s, t) && t.root == Put(root, q, LaidMembers(o, ms, userId))
    decreases ms, 0
  {
    if ms.Members? {
      var one := [ObjectKey(ms.name)] + Events(ms.value) + [ObjectValue(ms.name, KindOf(ms.value))];
      MemberStored(s, ms.name, ms.value, root, q, o, userId);
      RunConcat(s, one, MemberEvents(ms.rest), userId);
      MembersStored(Run(s, one, userId), ms.rest, root, q, MemberLaid(o, ms.name, ms.value, userId), userId);
    }
  }

  /** One element has been stored, and its index is used up. */
  predicate ItemDone(s: State, t: State, root: Value, q: Path, a: Value) {
    t.paths == s.paths && t.types == s.types && t.keys == s.keys && t.indexes == Counted(s.indexes) && t.root == Put(root, q, a)
  }

  lemma StringItem(s: State, parts: seq<Part>, root: Value, q: Path, a: Value, n: nat, userId: Name)
    requires InsideArray(s, root, q, a, n)
    ensures ItemDone(s, Handled(Run(s, Inner(Str(parts)), userId), ArrayValue(StringKind), userId), root, q, ItemLaid(a, n, Str(parts), userId))
    ensures Run(s, Inner(Str(parts)), userId).paths != []
  {
    ItemTarget(s, root, q, a, n);
    PutChild(root, q, a, At(n + 1), Text(Texts(parts)));
    StringStored(s, parts, userId);
  }

  /** The event after an element that is not a string: the value is set, or left as it was stored. */
  lemma OtherItemDone(s: State, m: State, d: Document, root: Value, q: Path, a: Value, n: nat, userId: Name)
    requires InsideArray(s, root, q, a, n) && !d.Str? && Kept(s, m)
    requires m.root == if d.Leaf? then s.root else Put(s.root, q + [At(n + 1)], Laid(Child(a, At(n + 1)), d, userId))
    ensures ItemDone(s, Handled(m, ArrayValue(KindOf(d)), userId), root, q, ItemLaid(a, n, d, userId))
  {
    var v := Laid(Child(a, At(n + 1)), d, userId);
    ItemTarget(s, root, q, a, n);
    PutChild(root, q, a, At(n + 1), v);
    LaidKinds(Child(a, At(n + 1)), d, userId);
    StoredAgain(s.root, q + [At(n + 1)], v, KindOf(d));
  }

  lemma {:induction false} ItemStored(s: State, d: Document, root: Value, q: Path, a: Value, n: nat, userId: Name)
    requires InsideArray(s, root, q, a, n)
    ensures ItemDone(s, Run(s, Events(d) + [ArrayValue(KindOf(d))], userId), root, q, ItemLaid(a, n, d, userId))
    decreases d, 2
  {
    if d.Str? {
      StringItem(s, d.parts, root, q, a, n, userId);
    } else {
      if !d.Leaf? {
        ItemTarget(s, root, q, a, n);
        PutChild(root, q, a, At(n + 1), Undefined);
        ValueStored(s, d, userId);
      }
      OtherItemDone(s, Run(s, Inner(d), userId), d, root, q, a, n, userId);
    }
    ItemRun(s, d, userId);
  }

  /** After an element, the array expects the next one. */
  lemma NextItem(s: State, t: State, root: Value, q: Path, a: Value, n: nat, d: Document, userId: Name)
    requires InsideArray(s, root, q, a, n) && ItemDone(s, t, root, q, ItemLaid(a, n, d, userId))
    ensures InsideArray(t, root, q, ItemLaid(a, n, d, userId), n + 1) && Front(t.indexes) == Front(s.indexes)
  {
  }

  /** All elements have been stored: the index stands at the last one. */
  predicate ItemsDone(s: State, t: State, root: Value, q: Path, a: Value, n: nat) {
    && t.paths == s.paths && t.types == s.types && t.keys == s.keys && t.indexes == Front(s.indexes) + [n]
    && t.root == Put(root, q, a) && a.Array?
  }

  lemma ItemsStep(s: State, t: State, u: State, root: Value, q: Path, a: Value, after: Value, n: nat)
    requires ItemDone(s, t, root, q, a) && s.indexes != [] && ItemsDone(t, u, root, q, after, n)
    ensures ItemsDone(s, u, root, q, after, n)
  {
  }

  /** The first of some elements has been stored. */
  function AfterFirst(s: State, ds: Documents, userId: Name): State
    requires ds.Documents?
  {
    Run(s, Events(ds.first) + [ArrayValue(KindOf(ds.first))], userId)
  }

  lemma {:induction false} FirstItem(s: State, ds: Documents, root: Value, q: Path, a: Value, n: nat, userId: Name)
    requires ds.Documents? && InsideArray(s, root, q, a, n)
    requires ItemDone(s, AfterFirst(s, ds, userId), root, q, ItemLaid(a, n, ds.first, userId))
    ensures InsideArray(AfterFirst(s, ds, userId), root, q, ItemLaid(a, n, ds.first, userId), n + 1)
    ensures Run(s, ItemEvents(ds), userId) == Run(AfterFirst(s, ds, userId), ItemEvents(ds.rest), userId)
    ensures LaidItems(a, ds, n, userId) == LaidItems(ItemLaid(a, n, ds.first, userId), ds.rest, n + 1, userId)
  {
    NextItem(s, AfterFirst(s, ds, userId), root, q, a, n, ds.first, userId);
    RunConcat(s, Events(ds.first) + [ArrayValue(KindOf(ds.first))], ItemEvents(ds.rest), userId);
  }

  lemma NoItems(s: State, root: Value, q: Path, a: Value, n: nat, userId: Name)
    requires InsideArray(s, root, q, a, n)
    ensures ItemsDone(s, Run(s, [], userId), root, q, a, n)
  {
    Snoc(s.indexes);
  }

  /** The events of the elements after the n-th up to the m-th store them one after the other. */
  lemma {:induction false} ItemsStored(s: State, ds: Documents, root: Value, q: Path, a: Value, n: nat, m: nat, userId: Name)
    requires InsideArray(s, root, q, a, n) && m == n + Length(ds)
    ensures ItemsDone(s, Run(s, ItemEvents(ds), userId), root, q, LaidItems(a, ds, n, userId), m)
    decreases ds, 0
  {
    if ds.NoDocuments? {
      NoItems(s, root, q, a, n, userId);
    } else {
      var t, next := AfterFirst(s, ds, userId), ItemLaid(a, n, ds.first, userId);
      ItemStored(s, ds.first, root, q, a, n, userId);
      FirstItem(s, ds, root, q, a, n, userId);
      ItemsStored(t, ds.rest, root, q, next, n + 1, m, userId);
      ItemsStep(s, t, Run(t, ItemEvents(ds.rest), userId), root, q, next, LaidItems(next, ds.rest, n + 1, userId), m);
    }
  }

  lemma ObjectBegins(s: State, userId: Name)
    requires Ready(s)
    ensures var q, s1 := Target(s), Handled(s, BeginObject, userId);
            && InsideObject(s1, s.root, q, AsObject(Get(s.root, q))) && s1.indexes == s.indexes && s1.keys == s.keys
            && s1.paths == s.paths + [q] && s1.types == s.types + [InObject]
  {
  }

  lemma ObjectEnds(s: State, m: State, q: Path, v: Value, userId: Name)
    requires m.paths == s.paths + [q] && m.types == s.types + [InObject] && m.indexes == s.indexes && m.keys == s.keys
    requires m.root == Put(s.root, q, v) && q == Target(s)
    ensures Stores(s, Handled(m, EndObject, userId), v)
  {
  }

  lemma ArrayBegins(s: State, userId: Name)
    requires Ready(s)
    ensures var q, s1 := Target(s), Handled(s, BeginArray, userId);
            && InsideArray(s1, s.root, q, AsArray(Get(s.root, q)), 0) && s1.indexes == s.indexes + [0] && s1.keys == s.keys
            && s1.paths == s.paths + [q] && s1.types == s.types + [InArray]
  {
  }

  lemma ArrayEnds(s: State, m: State, q: Path, a: Value, n: nat, userId: Name)
    requires m.paths == s.paths + [q] && m.types == s.types + [InArray] && m.indexes == s.indexes + [n] && m.keys == s.keys
    requires m.root == Put(s.root, q, a) && q == Target(s) && Steps(q)
    ensures Stores(s, Handled(m, EndArray, userId), Truncated(a, n))
  {
    GetPut(s.root, q, a);
    PutPut(s.root, q, a, Truncated(a, n));
  }

  /** An object or an array inside which the members or the elements have been stored. */
  lemma {:induction false} ValueStored(s: State, d: Document, userId: Name)
    requires Ready(s) && (d.Obj? || d.Arr?)
    ensures Stores(s, Run(s, Inner(d), userId), Laid(Get(s.root, Target(s)), d, userId))
    decreases d, 1
  {
    var q := Target(s);
    var was := Get(s.root, q);
    if d.Obj? {
      var s1 := Handled(s, BeginObject, userId);
      ObjectBegins(s, userId);
      MembersStored(s1, d.members, s.root, q, AsObject(was), userId);
      ObjectEnds(s, Run(s1, MemberEvents(d.members), userId), q, LaidMembers(AsObject(was), d.members, userId), userId);
      Bracketed(s, BeginObject, MemberEvents(d.members), EndObject, userId);
    } else {
      var s1 := Handled(s, BeginArray, userId);
      ArrayBegins(s, userId);
      ItemsStored(s1, d.items, s.root, q, AsArray(was), 0, Length(d.items), userId);
      ArrayEnds(s, Run(s1, ItemEvents(d.items), userId), q, LaidItems(AsArray(was), d.items, 0, userId), Length(d.items), userId);
      Bracketed(s, BeginArray, ItemEvents(d.items), EndArray, userId);
    }
  }

  /** Feeding any document to the parser lays it over the value it starts at, and leaves the stacks as
      they were. */
  lemma Feeding(s: State, d: Document, userId: Name)
    requires s.paths == [] && s.types == []
    ensures var t := Run(s, Events(d), userId);
            Kept(s, t) && t.root == Laid(s.root, d, userId)
  {
    ValueEvents(s, d, userId);
    if d.Str? {
      StringStored(s, d.parts, userId);
    } else if !d.Leaf? {
      ValueStored(s, d, userId);
      LaidKinds(s.root, d, userId);
    }
  }

  // ----- what the overlay is

  predicate Mentions(ms: Members, k: Name) {
    match ms
    case NoMembers => false
    case Members(name, _, rest) => name == k || Mentions(rest, k)
  }

  /** The values of one key, laid over each other in the order of the document. */
  function Layers(was: Value, ms: Members, k: Name): Value
    decreases ms
  {
    match ms
    case NoMembers => was
    case Members(name, value, rest) => Layers(if name == k then Overlay(was, value) else was, rest, k)
  }

  /** Objects merge: each key of the document is laid over what was there, and other keys stay. */
  lemma {:induction false} ObjectsMerge(o: Value, ms: Members, k: Name)
    requires o.Object?
    ensures var r := OverlayMembers(o, ms);
            && r.Object? && (k in r.values <==> k in o.values || Mentions(ms, k))
            && Child(r, Key(k)) == Layers(Child(o, Key(k)), ms, k)
            && (!Mentions(ms, k) ==> Child(r, Key(k)) == Child(o, Key(k)))
            && o.names <= r.names
    decreases ms
  {
    if ms.Members? {
      var next := WithChild(o, Key(ms.name), Overlay(Child(o, Key(ms.name)), ms.value));
      ObjectsMerge(next, ms.rest, k);
      if ms.name == k {
        ChildWithChild(o, Key(k), Overlay(Child(o, Key(k)), ms.value));
      } else {
        ChildWithOther(o, Key(ms.name), Key(k), Overlay(Child(o, Key(ms.name)), ms.value));
      }
    }
  }

  function Nth(ds: Documents, i: nat): Document
    requires i < Length(ds)
  {
    if i == 0 then ds.first else Nth(ds.rest, i - 1)
  }

  lemma {:induction false} ItemsOverlaid(a: Value, ds: Documents, n: nat, i: nat)
    requires a.Array? && 1 <= i
    ensures var r := OverlayItems(a, ds, n);
            && r.Array?
            && Child(r, At(i)) == (if n < i <= n + Length(ds) then Overlay(Child(a, At(i)), Nth(ds, i - n - 1)) else Child(a, At(i)))
            && (ds.Documents? ==> |r.items| >= n + Length(ds))
            && |r.items| >= |a.items|
    decreases ds
  {
    if ds.Documents? {
      var next := WithChild(a, At(n + 1), Overlay(Child(a, At(n + 1)), ds.first));
      ItemsOverlaid(next, ds.rest, n + 1, i);
      if n + 1 == i {
        ChildWithChild(a, At(i), Overlay(Child(a, At(i)), ds.first));
      } else {
        OtherItem(a, n + 1, i, Overlay(Child(a, At(n + 1)), ds.first));
      }
    }
  }

  lemma OtherItem(a: Value, j: nat, i: nat, v: Value)
    requires a.Array? && 1 <= j && 1 <= i && i != j
    ensures Child(WithChild(a, At(j), v), At(i)) == Child(a, At(i))
  {
  }

  /** Arrays are laid over element by element, and are as long as the new array. */
  lemma ArraysOverlay(was: Value, ds: Documents, i: nat)
    requires 1 <= i <= Length(ds)
    ensures var r := Overlay(was, Arr(ds));
            r.Array? && |r.items| == Length(ds) && r.items[i - 1] == Overlay(Child(AsArray(was), At(i)), Nth(ds, i - 1))
  {
    ItemsOverlaid(AsArray(was), ds, 0, i);
    TruncatedItem(OverlayItems(AsArray(was), ds, 0), Length(ds), i);
  }

  lemma TruncatedItem(a: Value, n: nat, i: nat)
    requires a.Array? && 1 <= i <= n <= |a.items|
    ensures var r := Truncated(a, n); r.Array? && |r.items| == n && r.items[i - 1] == a.items[i - 1]
  {
  }

  // ----- the key that stands for the user

  /** Each member whose key stands for the user is a string. */
  predicate MyAreStrings(d: Document)
    decreases d
  {
    match d
    case Leaf(_) => true
    case Str(_) => true
    case Arr(items) => MyItemsAreStrings(items)
    case Obj(members) => MyMembersAreStrings(members)
  }

  predicate MyMembersAreStrings(ms: Members)
    decreases ms
  {
    match ms
    case NoMembers => true
    case Members(name, value, rest) => (name == "my" ==> value.Str?) && MyAreStrings(value) && MyMembersAreStrings(rest)
  }

  predicate MyItemsAreStrings(ds: Documents)
    decreases ds
  {
    match ds
    case NoDocuments => true
    case Documents(first, rest) => MyAreStrings(first) && MyItemsAreStrings(rest)
  }

  /** The document with the user's id for every key that stands for the user. */
  function Renamed(d: Document, userId: Name): Document
    decreases d
  {
    match d
    case Leaf(_) => d
    case Str(_) => d
    case Arr(items) => Arr(RenamedItems(items, userId))
    case Obj(members) => Obj(RenamedMembers(members, userId))
  }

  function RenamedMembers(ms: Members, userId: Name): Members
    decreases ms
  {
    match ms
    case NoMembers => NoMembers
    case Members(name, value, rest) => Members(Meant(name, userId), Renamed(value, userId), RenamedMembers(rest, userId))
  }

  function RenamedItems(ds: Documents, userId: Name): Documents
    decreases ds
  {
    match ds
    case NoDocuments => NoDocuments
    case Documents(first, rest) => Documents(Renamed(first, userId), RenamedItems(rest, userId))
  }

  lemma {:induction false} RenamedLength(ds: Documents, userId: Name)
    ensures Length(RenamedItems(ds, userId)) == Length(ds)
    decreases ds
  {
    if ds.Documents? {
      RenamedLength(ds.rest, userId);
    }
  }

  /** Writing a child as it is. */
  lemma SameChild(o: Value, name: Name)
    requires o.Object? && name in o.values
    ensures WithChild(o, Key(name), Child(o, Key(name))) == o
  {
  }

  /** A member that is a string, or whose key means itself, is overlaid where it belongs. */
  lemma {:induction false} MemberMeant(o: Value, name: Name, d: Document, userId: Name)
    requires o.Object? && (d.Str? || Meant(name, userId) == name)
    ensures var k := Key(Meant(name, userId));
            MemberLaid(o, name, d, userId) == WithChild(o, k, Laid(Child(o, k), d, userId))
  {
    var k := Key(Meant(name, userId));
    LaidKinds(Child(o, k), d, userId);
    var over := WithChild(o, k, Laid(Child(o, k), d, userId));
    if d.Obj? || d.Arr? {
      SameChild(over, name);
    }
  }

  /** Where each member with such a key is a string, a document is overlaid with the user's id for the key. */
  lemma {:induction false} LaidIsOverlay(was: Value, d: Document, userId: Name)
    requires MyAreStrings(d) || userId == "my"
    ensures Laid(was, d, userId) == Overlay(was, Renamed(d, userId))
    decreases d
  {
    match d
    case Leaf(_) =>
    case Str(_) =>
    case Arr(items) =>
      LaidItemsAreOverlay(AsArray(was), items, 0, userId);
      RenamedLength(items, userId);
    case Obj(members) =>
      LaidMembersAreOverlay(AsObject(was), members, userId);
  }

  lemma {:induction false} LaidMembersAreOverlay(o: Value, ms: Members, userId: Name)
    requires o.Object? && (MyMembersAreStrings(ms) || userId == "my")
    ensures LaidMembers(o, ms, userId) == OverlayMembers(o, RenamedMembers(ms, userId))
    decreases ms
  {
    if ms.Members? {
      MemberMeant(o, ms.name, ms.value, userId);
      LaidIsOverlay(Child(o, Key(Meant(ms.name, userId))), ms.value, userId);
      LaidMembersAreOverlay(MemberLaid(o, ms.name, ms.value, userId), ms.rest, userId);
    }
  }

  lemma {:induction false} LaidItemsAreOverlay(a: Value, ds: Documents, n: nat, userId: Name)
    requires MyItemsAreStrings(ds) || userId == "my"
    ensures LaidItems(a, ds, n, userId) == OverlayItems(a, RenamedItems(ds, userId), n)
    decreases ds
  {
    if ds.Documents? {
      LaidIsOverlay(Child(a, At(n + 1)), ds.first, userId);
      LaidItemsAreOverlay(ItemLaid(a, n, ds.first, userId), ds.rest, n + 1, userId);
    }
  }

  /** When a member whose key stands for the user lands at the user's id and nowhere else: it is a
      string; or the user's id is that key; or a plain value is already there at both keys; or a value
      of its kind is already there at the key itself. */
  predicate Lands(o: Value, d: Document, userId: Name)
    requires o.Object?
  {
    || d.Str? || userId == "my"
    || (d.Leaf? && Child(o, Key("my")) == Simple(d.scalar) == Child(o, Key(userId)))
    || (d.Obj? && Child(o, Key("my")).Object?)
    || (d.Arr? && Child(o, Key("my")).Array?)
  }

  /** The member of an object whose key stands for the user: the stored value is the object with the
      member overlaid at the user's id exactly when the member lands there. A plain value that does not
      land is found at the key itself; an object or an array is overlaid at the user's id in any case,
      and leaves a value of its kind at the key itself. */
  lemma MyKeySplits(s: State, d: Document, root: Value, q: Path, o: Value, userId: Name)
    requires InsideObject(s, root, q, o)
    ensures var t := Run(s, [ObjectKey("my")] + Events(d) + [ObjectValue("my", KindOf(d))], userId);
            var over := WithChild(o, Key(userId), Laid(Child(o, Key(userId)), d, userId));
            && Kept(s, t)
            && (t.root == Put(root, q, over) <==> Lands(o, d, userId))
            && (d.Leaf? ==> t.root == Put(root, q, WithChild(o, Key("my"), Simple(d.scalar))))
            && (d.Obj? ==> t.root == Put(root, q, WithChild(over, Key("my"), AsObject(Child(over, Key("my"))))))
            && (d.Arr? ==> t.root == Put(root, q, WithChild(over, Key("my"), AsArray(Child(over, Key("my"))))))
  {
    var over := WithChild(o, Key(userId), Laid(Child(o, Key(userId)), d, userId));
    MemberStored(s, "my", d, root, q, o, userId);
    GetPut(root, q, over);
    GetPut(root, q, MemberLaid(o, "my", d, userId));
    LaidKinds(Child(o, Key(userId)), d, userId);
    LandsExactly(o, d, Laid(Child(o, Key(userId)), d, userId), userId);
  }

  lemma LandsExactly(o: Value, d: Document, inside: Value, userId: Name)
    requires o.Object? && (d.Leaf? ==> inside == Simple(d.scalar)) && (d.Obj? ==> inside.Object?) && (d.Arr? ==> inside.Array?)
    ensures LaidMember(o, "my", d, inside, userId) == WithChild(o, Key(userId), inside) <==> Lands(o, d, userId)
  {
    var over := WithChild(o, Key(userId), inside);
    var laid := LaidMember(o, "my", d, inside, userId);
    if d.Leaf? {
      if userId != "my" {
        assert laid.values["my"] == inside && over.values[userId] == inside;
        if Lands(o, d, userId) {
          SameChild(o, "my");
          SameChild(o, userId);
        }
      }
    } else if !d.Str? {
      assert userId != "my" ==> Child(over, Key("my")) == Child(o, Key("my"));
      assert Child(laid, Key("my")) == Variable(Child(over, Key("my")), KindOf(d));
      if Lands(o, d, userId) {
        SameChild(over, "my");
      }
    }
  }
}
