/**
  What a stored document reads as: at the path of each of its values, that value.
 */
module JSONReading {
  import opened JSONValues
  import opened JSONPathParser
  import opened JSONOverlay

  datatype Found = Nothing | Found(d: Document)

  /** The last member with a key. */
  function LastNamed(ms: Members, k: Name): Document
    requires Mentions(ms, k)
  {
    if Mentions(ms.rest, k) then LastNamed(ms.rest, k) else ms.value
  }

  /** The part of a document at a path: in an object the last member with the key, in an array the element. */
  function PartAt(d: Document, path: Path): Found
    decreases |path|
  {
    if path == [] then Found(d)
    else
      match path[0]
      case Key(k) => if d.Obj? && Mentions(d.members, k) then PartAt(LastNamed(d.members, k), path[1..]) else Nothing
      case At(i) => if d.Arr? && 1 <= i <= Length(d.items) then PartAt(Nth(d.items, i - 1), path[1..]) else Nothing
  }

  lemma {:induction false} LastLayer(was: Value, ms: Members, k: Name) returns (before: Value)
    requires Mentions(ms, k)
    ensures Layers(was, ms, k) == Overlay(before, LastNamed(ms, k))
    decreases ms
  {
    var next := if ms.name == k then Overlay(was, ms.value) else was;
    if Mentions(ms.rest, k) {
      before := LastLayer(next, ms.rest, k);
    } else {
      before := was;
      NoLayers(next, ms.rest, k);
    }
  }

  lemma {:induction false} NoLayers(was: Value, ms: Members, k: Name)
    requires !Mentions(ms, k)
    ensures Layers(was, ms, k) == was
    decreases ms
  {
    if ms.Members? {
      NoLayers(was, ms.rest, k);
    }
  }

  /** At the path of each of its parts, a stored document holds that part laid over something. */
  lemma {:induction false} PartOverlaid(was: Value, d: Document, path: Path) returns (before: Value)
    requires PartAt(d, path).Found?
    ensures Get(Overlay(was, d), path) == Overlay(before, PartAt(d, path).d)
    decreases |path|
  {
    if path == [] {
      before := was;
    } else {
      match path[0]
      case Key(k) =>
        ObjectsMerge(AsObject(was), d.members, k);
        var inner := LastLayer(Child(AsObject(was), Key(k)), d.members, k);
        before := PartOverlaid(inner, LastNamed(d.members, k), path[1..]);
      case At(i) =>
        ArraysOverlay(was, d.items, i);
        before := PartOverlaid(Child(AsArray(was), At(i)), Nth(d.items, i - 1), path[1..]);
    }
  }

  /** So every plain value and every string of a stored document is read back at its path, whatever was there
      before, its arrays have their lengths, and its objects all their keys. */
  lemma ReadBack(was: Value, d: Document, path: Path)
    requires PartAt(d, path).Found?
    ensures var r := Get(Overlay(was, d), path);
            match PartAt(d, path).d
            case Leaf(scalar) => r == Simple(scalar)
            case Str(parts) => r.Text? && |r.pages| == |parts| && forall i :: 0 <= i < |parts| ==> r.pages[i] == parts[i].text
            case Arr(items) => r.Array? && |r.items| == Length(items)
            case Obj(members) => r.Object? && forall k :: Mentions(members, k) ==> k in r.values
  {
    var before := PartOverlaid(was, d, path);
    match PartAt(d, path).d
    case Leaf(_) =>
    case Str(_) =>
    case Arr(items) => LengthOverlaid(before, items);
    case Obj(members) => KeysOverlaid(AsObject(before), members);
  }

  lemma LengthOverlaid(was: Value, ds: Documents)
    ensures var r := Overlay(was, Arr(ds)); r.Array? && |r.items| == Length(ds)
  {
    if Length(ds) > 0 {
      ArraysOverlay(was, ds, 1);
    }
  }

  lemma {:induction false} KeysOverlaid(o: Value, ms: Members)
    requires o.Object?
    ensures var r := OverlayMembers(o, ms); r.Object? && forall k :: Mentions(ms, k) || k in o.values ==> k in r.values
    decreases ms
  {
    if ms.Members? {
      KeysOverlaid(WithChild(o, Key(ms.name), Overlay(Child(o, Key(ms.name)), ms.value)), ms.rest);
    }
  }
}
