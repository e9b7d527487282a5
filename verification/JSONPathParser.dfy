/**
  The event handlers that store a JSON document: four stacks of paths, indexes, keys and container
  types, and the string that is being stored page by page.
 */
module JSONPathParser {
  import opened JSONValues

  datatype Container = InObject | InArray

  /** The type of a parsed value, with its text when it has one. */
  datatype Kind = SimpleKind(scalar: Scalar) | StringKind | ArrayKind | ObjectKind

  /** What the JSON parser reports. A part of a string says whether the words of the stored string are
      indexed, which decides whether its later pages are cleared at once or at the end. */
  datatype Event =
    | BeginObject | ObjectKey(name: Name) | ObjectValue(name: Name, kind: Kind) | EndObject
    | BeginArray | ArrayValue(kind: Kind) | EndArray
    | BeginString | PartString(text: string, indexed: bool) | EndString
    | JSONValue(kind: Kind)

  datatype State = State(root: Value, paths: seq<Path>, indexes: seq<nat>, keys: seq<Name>, types: seq<Container>,
                         text: Path, page: nat)

  function Last<T>(s: seq<T>, otherwise: T): T {
    if s == [] then otherwise else s[|s| - 1]
  }

  function Front<T>(s: seq<T>): seq<T> {
    if s == [] then [] else s[..|s| - 1]
  }

  function Top(s: State): Path {
    Last(s.paths, [])
  }

  /** Where the value that begins next belongs. */
  function Target(s: State): Path {
    if s.paths == [] then []
    else if Last(s.types, InArray) == InObject then Top(s) + [Key(Last(s.keys, ""))]
    else Top(s) + [At(Last(s.indexes, 0) + 1)]
  }

  function Counted(indexes: seq<nat>): seq<nat> {
    if indexes == [] then [] else indexes[..|indexes| - 1] + [indexes[|indexes| - 1] + 1]
  }

  function Variable(v: Value, kind: Kind): Value {
    match kind
    case SimpleKind(scalar) => Simple(scalar)
    case StringKind => v
    case ArrayKind => AsArray(v)
    case ObjectKind => AsObject(v)
  }

  /** The key that a key of the document stands for. */
  function Meant(name: Name, userId: Name): Name {
    if name == "my" then userId else name
  }

  /** One page of a stored string; a change clears the later pages of an indexed one. */
  function WithPage(pages: seq<string>, i: nat, text: string, indexed: bool): seq<string> {
    if i >= |pages| then pages + [text]
    else if indexed && pages[i] != text then pages[..i] + [text]
    else pages[i := text]
  }

  function Truncated(v: Value, n: nat): Value {
    var items := Extended(AsArray(v).items, n);
    Array(items[..n])
  }

  function Popped(s: State): State {
    s.(paths := Front(s.paths), types := Front(s.types),
       indexes := if Last(s.types, InObject) == InArray then Front(s.indexes) else s.indexes)
  }

  /** What each handler does. */
  function Handled(s: State, e: Event, userId: Name): State {
    match e
    case BeginObject =>
      var q := Target(s);
      s.(root := Put(s.root, q, AsObject(Get(s.root, q))), paths := s.paths + [q], types := s.types + [InObject])
    case BeginArray =>
      var q := Target(s);
      s.(root := Put(s.root, q, AsArray(Get(s.root, q))), paths := s.paths + [q], types := s.types + [InArray], indexes := s.indexes + [0])
    case ObjectKey(name) => s.(keys := s.keys + [Meant(name, userId)])
    case ObjectValue(name, kind) =>
      if kind == StringKind then s
      else
        var q := Top(s) + [Key(name)];
        s.(root := Put(s.root, q, Variable(Get(s.root, q), kind)), keys := Front(s.keys))
    case EndObject => Popped(s)
    case ArrayValue(kind) =>
      if kind == StringKind then s
      else
        var q := Top(s) + [At(Last(s.indexes, 0) + 1)];
        s.(root := Put(s.root, q, Variable(Get(s.root, q), kind)), indexes := Counted(s.indexes))
    case EndArray => Popped(s.(root := Put(s.root, Top(s), Truncated(Get(s.root, Top(s)), Last(s.indexes, 0)))))
    case BeginString =>
      var q := Target(s);
      if s.paths == [] then s.(text := q, page := 0)
      else if Last(s.types, InArray) == InObject then
        s.(root := Put(s.root, q, Get(s.root, q)), keys := Front(s.keys), text := q, page := 0)
      else s.(root := Put(s.root, q, Get(s.root, q)), indexes := Counted(s.indexes), text := q, page := 0)
    case PartString(text, indexed) =>
      s.(root := Put(s.root, s.text, Text(WithPage(AsText(Get(s.root, s.text)).pages, s.page, text, indexed))), page := s.page + 1)
    case EndString =>
      var pages := AsText(Get(s.root, s.text)).pages;
      s.(root := Put(s.root, s.text, Text(if s.page < |pages| then pages[..s.page] else pages)), page := 0)
    case JSONValue(kind) =>
      if s.paths == [] && kind != StringKind then s.(root := Variable(s.root, kind)) else s
  }

  function Run(s: State, es: seq<Event>, userId: Name): State
    decreases |es|
  {
    if es == [] then s else Run(Handled(s, es[0], userId), es[1..], userId)
  }

  lemma {:induction false} RunConcat(s: State, a: seq<Event>, b: seq<Event>, userId: Name)
    ensures Run(s, a + b, userId) == Run(Run(s, a, userId), b, userId)
    decreases |a|
  {
    if a == [] {
      assert [] + b == b;
    } else {
      assert (a + b)[0] == a[0] && (a + b)[1..] == a[1..] + b;
      RunConcat(Handled(s, a[0], userId), a[1..], b, userId);
    }
  }

  lemma RunOne(s: State, e: Event, userId: Name)
    ensures Run(s, [e], userId) == Handled(s, e, userId)
  {
    assert [e][1..] == [];
  }

  // ----- documents

  datatype Part = Part(text: string, indexed: bool)

  datatype Document =
    | Leaf(scalar: Scalar)
    | Str(parts: seq<Part>)
    | Arr(items: Documents)
    | Obj(members: Members)

  datatype Documents = NoDocuments | Documents(first: Document, rest: Documents)

  datatype Members = NoMembers | Members(name: Name, value: Document, rest: Members)

  function KindOf(d: Document): Kind {
    match d
    case Leaf(scalar) => SimpleKind(scalar)
    case Str(_) => StringKind
    case Arr(_) => ArrayKind
    case Obj(_) => ObjectKind
  }

  function PartEvents(parts: seq<Part>): seq<Event> {
    if parts == [] then [] else PartEvents(parts[..|parts| - 1]) + [PartString(parts[|parts| - 1].text, parts[|parts| - 1].indexed)]
  }

  /** The events inside a value. */
  function Inner(d: Document): seq<Event>
    decreases d, 0
  {
    match d
    case Leaf(_) => []
    case Str(parts) => [BeginString] + PartEvents(parts) + [EndString]
    case Arr(items) => [BeginArray] + ItemEvents(items) + [EndArray]
    case Obj(members) => [BeginObject] + MemberEvents(members) + [EndObject]
  }

  /** The events of a whole value. */
  function Events(d: Document): seq<Event>
    decreases d, 1
  {
    Inner(d) + [JSONValue(KindOf(d))]
  }

  function MemberEvents(ms: Members): seq<Event>
    decreases ms
  {
    match ms
    case NoMembers => []
    case Members(name, value, rest) => [ObjectKey(name)] + Events(value) + [ObjectValue(name, KindOf(value))] + MemberEvents(rest)
  }

  function ItemEvents(ds: Documents): seq<Event>
    decreases ds
  {
    match ds
    case NoDocuments => []
    case Documents(first, rest) => Events(first) + [ArrayValue(KindOf(first))] + ItemEvents(rest)
  }

  // ----- the overlay

  function Texts(parts: seq<Part>): (r: seq<string>)
    ensures |r| == |parts|
  {
    seq(|parts|, i requires 0 <= i < |parts| => parts[i].text)
  }

  function Length(ds: Documents): nat {
    match ds
    case NoDocuments => 0
    case Documents(_, rest) => 1 + Length(rest)
  }

  /** The document over the old value: objects merge, arrays element by element and no longer than the
      new one, and other values replace. */
  function Overlay(was: Value, d: Document): Value
    decreases d
  {
    match d
    case Leaf(scalar) => Simple(scalar)
    case Str(parts) => Text(Texts(parts))
    case Arr(items) => Truncated(OverlayItems(AsArray(was), items, 0), Length(items))
    case Obj(members) => OverlayMembers(AsObject(was), members)
  }

  function OverlayMembers(o: Value, ms: Members): Value
    decreases ms
  {
    match ms
    case NoMembers => o
    case Members(name, value, rest) => OverlayMembers(WithChild(o, Key(name), Overlay(Child(o, Key(name)), value)), rest)
  }

  function OverlayItems(a: Value, ds: Documents, n: nat): Value
    decreases ds
  {
    match ds
    case NoDocuments => a
    case Documents(first, rest) => OverlayItems(WithChild(a, At(n + 1), Overlay(Child(a, At(n + 1)), first)), rest, n + 1)
  }

  // ----- what the handlers lay over the old value

  /** The same with the key `my`, which is read as the user's id by all handlers but one: the handler
      for the end of a member that is not a string goes to the key itself. */
  function Laid(was: Value, d: Document, userId: Name): Value
    decreases d
  {
    match d
    case Leaf(scalar) => Simple(scalar)
    case Str(parts) => Text(Texts(parts))
    case Arr(items) => Truncated(LaidItems(AsArray(was), items, 0, userId), Length(items))
    case Obj(members) => LaidMembers(AsObject(was), members, userId)
  }

  function LaidMembers(o: Value, ms: Members, userId: Name): Value
    decreases ms
  {
    match ms
    case NoMembers => o
    case Members(name, value, rest) =>
      var inside := Laid(Child(o, Key(Meant(name, userId))), value, userId);
      LaidMembers(LaidMember(o, name, value, inside, userId), rest, userId)
  }

  function LaidMember(o: Value, name: Name, d: Document, inside: Value, userId: Name): Value {
    if d.Leaf? then WithChild(o, Key(name), inside)
    else
      var over := WithChild(o, Key(Meant(name, userId)), inside);
      if d.Str? then over else WithChild(over, Key(name), Variable(Child(over, Key(name)), KindOf(d)))
  }

  function LaidItems(a: Value, ds: Documents, n: nat, userId: Name): Value
    decreases ds
  {
    match ds
    case NoDocuments => a
    case Documents(first, rest) =>
      LaidItems(WithChild(a, At(n + 1), Laid(Child(a, At(n + 1)), first, userId)), rest, n + 1, userId)
  }

  // ----- the handlers

  /** What a handler that begins a value reads from the tops of the stacks is there. */
  predicate CanBegin(s: State) {
    s.paths != [] ==> s.types != [] && (if Last(s.types, InArray) == InObject then s.keys != [] else s.indexes != [])
  }

  class Parser {
    var root: Value
    var paths: seq<Path>
    var indexes: seq<nat>
    var keys: seq<Name>
    var types: seq<Container>
    var text: Path
    var page: nat
    const userId: Name

    ghost function Now(): State
      reads this
    {
      State(root, paths, indexes, keys, types, text, page)
    }

    constructor (start: Value, userId: Name)
      ensures Now() == State(start, [], [], [], [], [], 0) && this.userId == userId
    {
      root, this.userId := start, userId;
      paths, indexes, keys, types, text, page := [], [], [], [], [], 0;
    }

    method NextPath() returns (path: Path)
      requires CanBegin(Now())
      ensures path == Target(Now())
    {
      if |paths| == 0 {
        path := [];
      } else {
        path := paths[|paths| - 1];
        if types[|types| - 1] == InObject {
          path := path + [Key(keys[|keys| - 1])];
        } else {
          path := path + [At(indexes[|indexes| - 1] + 1)];
        }
      }
    }

    method OnBeginObject()
      requires CanBegin(Now())
      modifies this
      ensures Now() == Handled(old(Now()), BeginObject, userId)
    {
      var path := NextPath();
      root := Put(root, path, AsObject(Get(root, path)));
      paths := paths + [path];
      types := types + [InObject];
    }

    method OnBeginArray()
      requires CanBegin(Now())
      modifies this
      ensures Now() == Handled(old(Now()), BeginArray, userId)
    {
      var path := NextPath();
      root := Put(root, path, AsArray(Get(root, path)));
      paths := paths + [path];
      indexes := indexes + [0];
      types := types + [InArray];
    }

    method PopPath()
      requires paths != [] && types != [] && (Last(types, InObject) == InArray ==> indexes != [])
      modifies this
      ensures Now() == Popped(old(Now()))
    {
      paths := paths[..|paths| - 1];
      if types[|types| - 1] == InArray {
        indexes := indexes[..|indexes| - 1];
      }
      types := types[..|types| - 1];
    }

    method OnEndObject()
      requires paths != [] && types != [] && (Last(types, InObject) == InArray ==> indexes != [])
      modifies this
      ensures Now() == Handled(old(Now()), EndObject, userId)
    {
      PopPath();
    }

    method OnEndArray()
      requires paths != [] && types != [] && indexes != []
      modifies this
      ensures Now() == Handled(old(Now()), EndArray, userId)
    {
      var length := indexes[|indexes| - 1];
      var top := paths[|paths| - 1];
      root := Put(root, top, Truncated(Get(root, top), length));
      PopPath();
    }

    method OnObjectKey(name: Name)
      modifies this
      ensures Now() == Handled(old(Now()), ObjectKey(name), userId)
    {
      if name == "my" {
        keys := keys + [userId];
      } else {
        keys := keys + [name];
      }
    }

    method OnObjectValue(name: Name, kind: Kind)
      requires kind != StringKind ==> paths != [] && keys != []
      modifies this
      ensures Now() == Handled(old(Now()), ObjectValue(name, kind), userId)
    {
      if kind != StringKind {
        var path := paths[|paths| - 1] + [Key(name)];
        root := Put(root, path, Variable(Get(root, path), kind));
        keys := keys[..|keys| - 1];
      }
    }

    method OnArrayValue(kind: Kind)
      requires kind != StringKind ==> paths != [] && indexes != []
      modifies this
      ensures Now() == Handled(old(Now()), ArrayValue(kind), userId)
    {
      if kind != StringKind {
        indexes := Counted(indexes);
        var path := paths[|paths| - 1] + [At(indexes[|indexes| - 1])];
        root := Put(root, path, Variable(Get(root, path), kind));
      }
    }

    method OnBeginString()
      requires CanBegin(Now())
      modifies this
      ensures Now() == Handled(old(Now()), BeginString, userId)
    {
      var path := NextPath();
      if |paths| != 0 {
        root := Put(root, path, Get(root, path));
        if types[|types| - 1] == InObject {
          keys := keys[..|keys| - 1];
        } else {
          indexes := Counted(indexes);
        }
      }
      text := path;
      page := 0;
    }

    method OnPartString(part: string, indexed: bool)
      modifies this
      ensures Now() == Handled(old(Now()), PartString(part, indexed), userId)
    {
      var pages := AsText(Get(root, text)).pages;
      if page < |pages| && indexed && pages[page] != part {
        pages := pages[..page];
      }
      if page < |pages| {
        pages := pages[page := part];
      } else {
        pages := pages + [part];
      }
      root := Put(root, text, Text(pages));
      page := page + 1;
    }

    method OnEndString()
      modifies this
      ensures Now() == Handled(old(Now()), EndString, userId)
    {
      var pages := AsText(Get(root, text)).pages;
      if page < |pages| {
        pages := pages[..page];
      }
      root := Put(root, text, Text(pages));
      page := 0;
    }

    method OnValue(kind: Kind)
      modifies this
      ensures Now() == Handled(old(Now()), JSONValue(kind), userId)
    {
      if |paths| == 0 && kind != StringKind {
        root := Variable(root, kind);
      }
    }
  }
}
