/**
  What the values of the store stand for: the JSON value below each of them. The operations of the
  store do to it what reading and writing JSON values by path says.
 */
module StoredValues {
  import opened PropertyIndexes
  import opened PropertyStore
  import JSON = JSONValues

  /** The values of a store with their names, and what the plain ones hold. */
  datatype World = World(nodes: Nodes, names: map<Index, Name>, contents: map<Index, JSON.Value>, next: Index)

  /** The children of a value have different names. */
  predicate NamesApart(node: Node, names: map<Index, Name>) {
    forall p, q :: p in node.children && q in node.children && p != q ==> NameAt(node, names, p) != NameAt(node, names, q)
  }

  ghost predicate Sound(w: World) {
    && Forest(w.nodes) && Allocated(w.names, w.nodes, w.next)
    && (forall d {:trigger NamesApart(w.nodes[d], w.names)} ::
          d in w.nodes && w.nodes[d].kind == Object ==> NamesApart(w.nodes[d], w.names))
  }

  function Content(w: World, o: Index): JSON.Value {
    if o in w.contents && (w.contents[o].Simple? || w.contents[o].Text?) then w.contents[o] else JSON.Undefined
  }

  ghost function ValueAt(w: World, o: Index): JSON.Value
    requires Sound(w) && o in w.nodes
    decreases w.next - o, 1, 0
  {
    match w.nodes[o].kind
    case Undefined => JSON.Undefined
    case Value => Content(w, o)
    case Array => JSON.Array(ItemsUpTo(w, o, w.nodes[o].count))
    case Object => JSON.Object(Keys(w.nodes[o], w.names), FieldsUpTo(w, o, w.nodes[o].count))
  }

  ghost function ChildAt(w: World, o: Index, p: nat): JSON.Value
    requires Sound(w) && o in w.nodes
    decreases w.next - o, 0, 0
  {
    if p in w.nodes[o].children then
      assert Holds(w.nodes, o, p);
      ValueAt(w, w.nodes[o].children[p])
    else JSON.Undefined
  }

  ghost function ItemsUpTo(w: World, o: Index, n: nat): (items: seq<JSON.Value>)
    requires Sound(w) && o in w.nodes
    ensures |items| == n
    decreases w.next - o, 0, n + 1
  {
    if n == 0 then [] else ItemsUpTo(w, o, n - 1) + [ChildAt(w, o, n)]
  }

  ghost function FieldsUpTo(w: World, o: Index, n: nat): map<Name, JSON.Value>
    requires Sound(w) && o in w.nodes
    decreases w.next - o, 0, n + 1
  {
    if n == 0 then map[]
    else
      var fields := FieldsUpTo(w, o, n - 1);
      if n in w.nodes[o].children then fields[NameAt(w.nodes[o], w.names, n) := ChildAt(w, o, n)] else fields
  }

  // ----- values that an operation leaves alone

  predicate NamesSame(node: Node, names: map<Index, Name>, names': map<Index, Name>) {
    forall p :: p in node.children ==> NameAt(node, names, p) == NameAt(node, names', p)
  }

  predicate SameAt(w: World, w': World, d: Index) {
    && d in w.nodes && d in w'.nodes && w'.nodes[d] == w.nodes[d] && Content(w', d) == Content(w, d)
    && NamesSame(w.nodes[d], w.names, w'.names)
  }

  /** All at or below a value is as it was. */
  ghost predicate SameBelow(w: World, w': World, o: Index) {
    forall d {:trigger SameAt(w, w', d)} :: d in w.nodes && Under(w.nodes, o, d) ==> SameAt(w, w', d)
  }

  lemma SameChild(w: World, w': World, o: Index, p: nat)
    requires Sound(w) && o in w.nodes && p in w.nodes[o].children && SameBelow(w, w', o)
    ensures var c := w.nodes[o].children[p]; c in w.nodes && o < c < w.next && SameBelow(w, w', c)
  {
    var c := w.nodes[o].children[p];
    assert Holds(w.nodes, o, p);
    forall d | d in w.nodes && Under(w.nodes, c, d)
      ensures SameAt(w, w', d)
    {
      UnderChild(w.nodes, o, c, d);
    }
  }

  lemma {:induction false} Unchanged(w: World, w': World, o: Index)
    requires Sound(w) && Sound(w') && o in w.nodes && SameBelow(w, w', o)
    ensures o in w'.nodes && ValueAt(w', o) == ValueAt(w, o)
    decreases w.next - o
  {
    assert SameAt(w, w', o);
    forall p: nat | 1 <= p
      ensures SamePosition(w, w', o, p)
    {
      if p in w.nodes[o].children {
        SameChild(w, w', o, p);
        Unchanged(w, w', w.nodes[o].children[p]);
      }
    }
    SameParts(w, w', o, w.nodes[o].count);
    KeysUpToSame(w.nodes[o], w.nodes[o], w.names, w'.names, w.nodes[o].count);
  }

  /** Positions up to n hold the same children under the same names. */
  ghost predicate SameUpTo(w: World, w': World, o: Index, n: nat)
    requires Sound(w) && Sound(w') && o in w.nodes && o in w'.nodes
  {
    forall p {:trigger SamePosition(w, w', o, p)} :: 1 <= p <= n ==> SamePosition(w, w', o, p)
  }

  ghost predicate SamePosition(w: World, w': World, o: Index, p: nat)
    requires Sound(w) && Sound(w') && o in w.nodes && o in w'.nodes
  {
    && ChildAt(w', o, p) == ChildAt(w, o, p)
    && (p in w.nodes[o].children <==> p in w'.nodes[o].children)
    && (p in w.nodes[o].children ==> NameAt(w.nodes[o], w.names, p) == NameAt(w'.nodes[o], w'.names, p))
  }

  lemma {:induction false} SameParts(w: World, w': World, o: Index, n: nat)
    requires Sound(w) && Sound(w') && o in w.nodes && o in w'.nodes && SameUpTo(w, w', o, n)
    ensures ItemsUpTo(w', o, n) == ItemsUpTo(w, o, n) && FieldsUpTo(w', o, n) == FieldsUpTo(w, o, n)
  {
    if n > 0 {
      SameParts(w, w', o, n - 1);
      assert SamePosition(w, w', o, n);
    }
  }

  /** Other values than o, as far as they are still there, are as they were. */
  ghost predicate Kept(w: World, w': World, o: Index) {
    forall d {:trigger SameAt(w, w', d)} :: d in w.nodes && d in w'.nodes && d != o ==> SameAt(w, w', d)
  }

  lemma ChildKept(w: World, w': World, o: Index, p: nat)
    requires Sound(w) && Sound(w') && o in w.nodes && o in w'.nodes && Kept(w, w', o)
    requires p in w.nodes[o].children ==>
               && p in w'.nodes[o].children && w'.nodes[o].children[p] == w.nodes[o].children[p]
               && forall d :: d in w.nodes && Under(w.nodes, w.nodes[o].children[p], d) ==> d in w'.nodes
    requires p !in w.nodes[o].children ==> p !in w'.nodes[o].children
    ensures ChildAt(w', o, p) == ChildAt(w, o, p)
  {
    if p in w.nodes[o].children {
      var c := w.nodes[o].children[p];
      assert Holds(w.nodes, o, p);
      forall d | d in w.nodes && Under(w.nodes, c, d)
        ensures SameAt(w, w', d)
      {
        UnderAtLeast(w.nodes, c, d);
      }
      Unchanged(w, w', c);
    }
  }

  // ----- objects

  lemma {:induction false} FieldNames(w: World, o: Index, n: nat)
    requires Sound(w) && o in w.nodes
    ensures forall k :: k in FieldsUpTo(w, o, n) <==> k in KeysUpTo(w.nodes[o], w.names, n)
  {
    if n > 0 {
      FieldNames(w, o, n - 1);
    }
  }

  /** The value has one property more, at a new position. */
  predicate Gained(w: World, w': World, o: Index, name: Name)
    requires o in w.nodes && o in w'.nodes
  {
    var node, node', p := w.nodes[o], w'.nodes[o], w.nodes[o].count + 1;
    && node.kind == Object && node'.kind == Object && node'.count == p
    && p in node'.children && node'.children == node.children[p := node'.children[p]]
    && (forall q :: q in node.children ==> NameAt(node', w'.names, q) == NameAt(node, w.names, q))
    && NameAt(node', w'.names, p) == name
  }

  lemma GainedBelow(w: World, w': World, o: Index, name: Name)
    requires Sound(w) && Sound(w') && o in w.nodes && o in w'.nodes && Kept(w, w', o)
    requires (forall d :: d in w.nodes ==> d in w'.nodes) && Gained(w, w', o, name)
    ensures SameUpTo(w, w', o, w.nodes[o].count)
  {
    forall p: nat | 1 <= p <= w.nodes[o].count
      ensures SamePosition(w, w', o, p)
    {
      ChildKept(w, w', o, p);
    }
  }

  /** The keys and the fields of the value with one property more. */
  lemma GainedParts(w: World, w': World, o: Index, name: Name)
    requires Sound(w) && Sound(w') && o in w.nodes && o in w'.nodes
    requires Gained(w, w', o, name) && SameUpTo(w, w', o, w.nodes[o].count) && Agrees(w.nodes[o])
    requires ChildAt(w', o, w.nodes[o].count + 1) == JSON.Undefined
    ensures Keys(w'.nodes[o], w'.names) == Keys(w.nodes[o], w.names) + [name]
    ensures FieldsUpTo(w', o, w.nodes[o].count + 1) == FieldsUpTo(w, o, w.nodes[o].count)[name := JSON.Undefined]
  {
    var n := w.nodes[o].count;
    SameParts(w, w', o, n);
    KeysUpToSame(w.nodes[o], w'.nodes[o], w.names, w'.names, n);
  }

  lemma GainedValue(w: World, w': World, o: Index, name: Name)
    requires Sound(w) && Sound(w') && o in w.nodes && o in w'.nodes && Kept(w, w', o)
    requires (forall d :: d in w.nodes ==> d in w'.nodes) && Gained(w, w', o, name)
    requires name !in Keys(w.nodes[o], w.names) && ChildAt(w', o, w.nodes[o].count + 1) == JSON.Undefined
    ensures ValueAt(w', o) == WithOwn(ValueAt(w, o), name)
  {
    assert Agrees(w.nodes[o]);
    GainedBelow(w, w', o, name);
    GainedParts(w, w', o, name);
    FieldNames(w, o, w.nodes[o].count);
    WithOwnNew(Keys(w.nodes[o], w.names), FieldsUpTo(w, o, w.nodes[o].count), name);
  }

  lemma WithOwnNew(names: seq<Name>, fields: map<Name, JSON.Value>, name: Name)
    requires name !in fields
    ensures WithOwn(JSON.Object(names, fields), name) == JSON.Object(names + [name], fields[name := JSON.Undefined])
  {
  }

  /** The value has lost the child at a position. */
  predicate LostAt(w: World, w': World, o: Index, p: nat)
    requires o in w.nodes && o in w'.nodes
  {
    var node, node' := w.nodes[o], w'.nodes[o];
    && node.kind == Object && node'.kind == Object && node'.count == node.count
    && p in node.children && node'.children == node.children - {p}
    && (forall q :: q in node'.children ==> NameAt(node', w'.names, q) == NameAt(node, w.names, q))
    && (forall q :: q in node'.children ==> NameAt(node, w.names, q) != NameAt(node, w.names, p))
  }

  lemma {:induction false} LostFields(w: World, w': World, o: Index, p: nat, n: nat)
    requires Sound(w) && Sound(w') && o in w.nodes && o in w'.nodes && LostAt(w, w', o, p)
    requires forall q :: q in w'.nodes[o].children ==> ChildAt(w', o, q) == ChildAt(w, o, q)
    ensures FieldsUpTo(w', o, n) == FieldsUpTo(w, o, n) - {NameAt(w.nodes[o], w.names, p)}
  {
    if n > 0 {
      LostFields(w, w', o, p, n - 1);
    }
  }

  /** Deleting a property takes its name and its value out of the object. */
  lemma LostValue(w: World, w': World, o: Index, p: nat)
    requires Sound(w) && Sound(w') && o in w.nodes && o in w'.nodes && Kept(w, w', o) && LostAt(w, w', o, p)
    requires forall d :: d in w.nodes && !Under(w.nodes, w.nodes[o].children[p], d) ==> d in w'.nodes
    ensures ValueAt(w', o).values == ValueAt(w, o).values - {NameAt(w.nodes[o], w.names, p)}
  {
    forall q | q in w'.nodes[o].children
      ensures ChildAt(w', o, q) == ChildAt(w, o, q)
    {
      forall d | d in w.nodes && Under(w.nodes, w.nodes[o].children[q], d)
        ensures d in w'.nodes
      {
        assert Holds(w.nodes, o, p) && Holds(w.nodes, o, q);
        ChildrenApart(w.nodes, w.nodes[o].children[p], w.nodes[o].children[q], d);
      }
      ChildKept(w, w', o, q);
    }
    LostFields(w, w', o, p, w.nodes[o].count);
  }

  /** Nothing is below two children of one value. */
  lemma {:induction false} ChildrenApart(nodes: Nodes, a: Index, b: Index, d: Index)
    requires a in nodes && b in nodes && nodes[a].up == nodes[b].up && nodes[a].up < a && nodes[b].up < b && a != b
    requires Under(nodes, b, d)
    ensures !Under(nodes, a, d)
    decreases d
  {
    if d == b {
      if Under(nodes, a, nodes[b].up) {
        UnderAtLeast(nodes, a, nodes[b].up);
      }
    } else if d == a {
      UnderAtLeast(nodes, b, nodes[a].up);
    } else {
      ChildrenApart(nodes, a, b, nodes[d].up);
    }
  }

  // ----- arrays

  /** The array has kept its children, and new ones have no type. */
  ghost predicate Lengthened(w: World, w': World, o: Index)
    requires Sound(w') && o in w.nodes && o in w'.nodes
  {
    var node, node' := w.nodes[o], w'.nodes[o];
    && node.count <= node'.count
    && (forall p :: p in node.children ==> p in node'.children && node'.children[p] == node.children[p])
    && (forall p :: p in node'.children && p !in node.children ==> ChildAt(w', o, p) == JSON.Undefined)
  }

  lemma LengthenedItems(w: World, w': World, o: Index)
    requires Sound(w) && Sound(w') && o in w.nodes && o in w'.nodes && Kept(w, w', o) && Lengthened(w, w', o)
    requires forall d :: d in w.nodes ==> d in w'.nodes
    ensures ItemsUpTo(w', o, w'.nodes[o].count) == JSON.Extended(ItemsUpTo(w, o, w.nodes[o].count), w'.nodes[o].count)
  {
    assert Agrees(w.nodes[o]);
    forall q: nat | q <= w.nodes[o].count
      ensures ChildAt(w', o, q) == ChildAt(w, o, q)
    {
      if q in w.nodes[o].children || q !in w'.nodes[o].children { ChildKept(w, w', o, q); }
    }
    SameItems(w, w', o, w.nodes[o].count);
    UndefinedItems(w', o, w.nodes[o].count, w'.nodes[o].count);
  }

  lemma {:induction false} UndefinedItems(w: World, o: Index, n: nat, m: nat)
    requires Sound(w) && o in w.nodes && n <= m && forall q :: n < q <= m ==> ChildAt(w, o, q) == JSON.Undefined
    ensures ItemsUpTo(w, o, m) == JSON.Extended(ItemsUpTo(w, o, n), m)
  {
    if n < m {
      UndefinedItems(w, o, n, m - 1);
    }
  }

  lemma {:induction false} SameItems(w: World, w': World, o: Index, n: nat)
    requires Sound(w) && Sound(w') && o in w.nodes && o in w'.nodes
    requires forall q :: 1 <= q <= n ==> ChildAt(w', o, q) == ChildAt(w, o, q)
    ensures ItemsUpTo(w', o, n) == ItemsUpTo(w, o, n)
  {
    if n > 0 {
      SameItems(w, w', o, n - 1);
    }
  }

  // ----- the values above

  /** The step from a value to the one it hangs below. */
  function StepTo(w: World, o: Index): JSON.Step
    requires o in w.nodes && w.nodes[o].up in w.nodes
  {
    var up := w.nodes[w.nodes[o].up];
    if up.kind == Array then JSON.At(w.nodes[o].at) else JSON.Key(NameAt(up, w.names, w.nodes[o].at))
  }

  ghost function PathTo(w: World, o: Index): JSON.Path
    requires Sound(w) && o in w.nodes
    decreases o
  {
    assert Hung(w.nodes, o);
    if w.nodes[o].up == o then [] else PathTo(w, w.nodes[o].up) + [StepTo(w, o)]
  }

  ghost function RootOf(w: World, o: Index): (r: Index)
    requires Sound(w) && o in w.nodes
    ensures r in w.nodes
    decreases o
  {
    assert Hung(w.nodes, o);
    if w.nodes[o].up == o then o else RootOf(w, w.nodes[o].up)
  }

  /** Whatever does not hang below o is as it was, and o hangs where it hung. */
  ghost predicate Local(w: World, w': World, o: Index) {
    && o in w.nodes && o in w'.nodes && w'.nodes[o].up == w.nodes[o].up && w'.nodes[o].at == w.nodes[o].at
    && forall d {:trigger SameAt(w, w', d)} :: d in w.nodes && !Under(w.nodes, o, d) ==> SameAt(w, w', d)
  }

  lemma {:induction false} ItemSet(w: World, w': World, u: Index, p: nat, n: nat)
    requires Sound(w) && Sound(w') && u in w.nodes && u in w'.nodes && 1 <= p <= n
    requires forall q: nat :: q != p ==> ChildAt(w', u, q) == ChildAt(w, u, q)
    ensures ItemsUpTo(w', u, n) == ItemsUpTo(w, u, n)[p - 1 := ChildAt(w', u, p)]
  {
    if p < n {
      ItemSet(w, w', u, p, n - 1);
    } else {
      SameItems(w, w', u, n - 1);
    }
  }

  lemma {:induction false} FieldSet(w: World, w': World, u: Index, p: nat, n: nat)
    requires Sound(w) && Sound(w') && u in w.nodes && SameAt(w, w', u) && p in w.nodes[u].children && NamesApart(w.nodes[u], w.names)
    requires forall q: nat :: q != p ==> ChildAt(w', u, q) == ChildAt(w, u, q)
    ensures var name := NameAt(w.nodes[u], w.names, p);
            && (n < p ==> FieldsUpTo(w', u, n) == FieldsUpTo(w, u, n))
            && (n >= p > 0 ==> FieldsUpTo(w', u, n) == FieldsUpTo(w, u, n)[name := ChildAt(w', u, p)]
                               && name in FieldsUpTo(w, u, n) && FieldsUpTo(w, u, n)[name] == ChildAt(w, u, p))
  {
    if n > 0 {
      FieldSet(w, w', u, p, n - 1);
    }
  }

  /** A change at or below a value is written into the value it hangs below. */
  lemma Upward(w: World, w': World, o: Index)
    requires Sound(w) && Sound(w') && Local(w, w', o) && w.nodes[o].up != o
    ensures var u := w.nodes[o].up;
            && u in w.nodes && u in w'.nodes
            && ValueAt(w', u) == JSON.WithChild(ValueAt(w, u), StepTo(w, o), ValueAt(w', o))
            && JSON.Child(ValueAt(w, u), StepTo(w, o)) == ValueAt(w, o)
  {
    var u, p := w.nodes[o].up, w.nodes[o].at;
    assert Hung(w.nodes, o);
    if Under(w.nodes, o, u) { UnderAtLeast(w.nodes, o, u); }
    assert SameAt(w, w', u) && Agrees(w.nodes[u]);
    forall q: nat | q != p
      ensures ChildAt(w', u, q) == ChildAt(w, u, q)
    {
      if q in w.nodes[u].children { BesideSame(w, w', o, q); }
    }
    if w.nodes[u].kind == Array {
      UpwardArray(w, w', u, p);
    } else {
      UpwardObject(w, w', u, p);
    }
  }

  lemma SetItem(items: seq<JSON.Value>, p: nat, v: JSON.Value)
    requires 1 <= p <= |items|
    ensures JSON.WithChild(JSON.Array(items), JSON.At(p), v) == JSON.Array(items[p - 1 := v])
    ensures JSON.Child(JSON.Array(items), JSON.At(p)) == items[p - 1]
  {
    assert JSON.Extended(items, p) == items;
  }

  lemma UpwardArray(w: World, w': World, u: Index, p: nat)
    requires Sound(w) && Sound(w') && u in w.nodes && SameAt(w, w', u)
    requires w.nodes[u].kind == Array && p in w.nodes[u].children
    requires forall q: nat :: q != p ==> ChildAt(w', u, q) == ChildAt(w, u, q)
    ensures ValueAt(w', u) == JSON.WithChild(ValueAt(w, u), JSON.At(p), ChildAt(w', u, p))
    ensures JSON.Child(ValueAt(w, u), JSON.At(p)) == ChildAt(w, u, p)
  {
    assert Agrees(w.nodes[u]);
    ItemSet(w, w', u, p, w.nodes[u].count);
    ItemAt(w, u, p, w.nodes[u].count);
    SetItem(ItemsUpTo(w, u, w.nodes[u].count), p, ChildAt(w', u, p));
  }

  lemma UpwardObject(w: World, w': World, u: Index, p: nat)
    requires Sound(w) && Sound(w') && u in w.nodes && SameAt(w, w', u)
    requires w.nodes[u].kind == Object && p in w.nodes[u].children
    requires forall q: nat :: q != p ==> ChildAt(w', u, q) == ChildAt(w, u, q)
    ensures var name := NameAt(w.nodes[u], w.names, p);
            && ValueAt(w', u) == JSON.WithChild(ValueAt(w, u), JSON.Key(name), ChildAt(w', u, p))
            && JSON.Child(ValueAt(w, u), JSON.Key(name)) == ChildAt(w, u, p)
  {
    assert Agrees(w.nodes[u]) && NamesApart(w.nodes[u], w.names);
    FieldSet(w, w', u, p, w.nodes[u].count);
    KeysUpToSame(w.nodes[u], w.nodes[u], w.names, w'.names, w.nodes[u].count);
  }

  lemma {:induction false} ItemAt(w: World, u: Index, p: nat, n: nat)
    requires Sound(w) && u in w.nodes && 1 <= p <= n
    ensures ItemsUpTo(w, u, n)[p - 1] == ChildAt(w, u, p)
  {
    if p < n {
      ItemAt(w, u, p, n - 1);
    }
  }

  lemma BesideSame(w: World, w': World, o: Index, q: nat)
    requires Sound(w) && Sound(w') && Local(w, w', o) && w.nodes[o].up != o
    requires var u := w.nodes[o].up; u in w.nodes && SameAt(w, w', u) && q in w.nodes[u].children && q != w.nodes[o].at
    ensures ChildAt(w', w.nodes[o].up, q) == ChildAt(w, w.nodes[o].up, q)
  {
    var u := w.nodes[o].up;
    var c := w.nodes[u].children[q];
    assert Hung(w.nodes, o) && Holds(w.nodes, u, q);
    forall d | d in w.nodes && Under(w.nodes, c, d)
      ensures SameAt(w, w', d)
    {
      ChildrenApart(w.nodes, o, c, d);
    }
    Unchanged(w, w', c);
  }

  lemma LocalUp(w: World, w': World, o: Index)
    requires Sound(w) && Sound(w') && Local(w, w', o) && w.nodes[o].up != o
    ensures Local(w, w', w.nodes[o].up)
  {
    var u := w.nodes[o].up;
    assert Hung(w.nodes, o);
    if Under(w.nodes, o, u) { UnderAtLeast(w.nodes, o, u); }
    assert SameAt(w, w', u);
    forall d | d in w.nodes && !Under(w.nodes, u, d)
      ensures SameAt(w, w', d)
    {
      if Under(w.nodes, o, d) { UnderChild(w.nodes, u, o, d); }
    }
  }

  /** A change at or below a value is a change of the whole document at the path of that value. */
  lemma {:induction false} WholeValue(w: World, w': World, o: Index)
    requires Sound(w) && Sound(w') && Local(w, w', o)
    ensures var r := RootOf(w, o);
            && r in w'.nodes
            && JSON.Get(ValueAt(w, r), PathTo(w, o)) == ValueAt(w, o)
            && ValueAt(w', r) == JSON.Put(ValueAt(w, r), PathTo(w, o), ValueAt(w', o))
    decreases o
  {
    assert Hung(w.nodes, o);
    if w.nodes[o].up != o {
      var u, r := w.nodes[o].up, RootOf(w, o);
      LocalUp(w, w', o);
      Upward(w, w', o);
      WholeValue(w, w', u);
      JSON.PutStep(ValueAt(w, r), PathTo(w, u), StepTo(w, o), ValueAt(w', o));
      JSON.GetStep(ValueAt(w, r), PathTo(w, u), StepTo(w, o));
    }
  }

  // ----- the operations

  ghost function Now(store: PropertyStore, contents: map<Index, JSON.Value>): World
    reads store
  {
    World(store.nodes, store.names, contents, store.next)
  }

  lemma ConsistentSound(dictionary: map<Name, Index>, users: map<Index, set<Index>>, w: World)
    requires Consistent(dictionary, w.names, users, w.nodes, w.next)
    ensures Sound(w)
  {
    forall d | d in w.nodes && w.nodes[d].kind == Object
      ensures NamesApart(w.nodes[d], w.names)
    {
      assert Agrees(w.nodes[d]);
      PropertiesNamed(dictionary, w.names, users, w.nodes, d);
    }
  }

  /** A value that is as it was has its children under the same names: names in use are kept. */
  lemma StillSame(dictionary: map<Name, Index>, users: map<Index, set<Index>>, w: World,
                  dictionary': map<Name, Index>, users': map<Index, set<Index>>, w': World, d: Index)
    requires Consistent(dictionary, w.names, users, w.nodes, w.next) && Consistent(dictionary', w'.names, users', w'.nodes, w'.next)
    requires d in w.nodes && d in w'.nodes && w'.nodes[d] == w.nodes[d] && w'.contents == w.contents
    requires KnownSame(w.names, w'.names)
    ensures SameAt(w, w', d)
  {
    assert Agrees(w.nodes[d]);
    PropertiesNamed(dictionary, w.names, users, w.nodes, d);
    PropertiesNamed(dictionary', w'.names, users', w'.nodes, d);
  }

  /** The value at o has become v, and the document it belongs to has v written at its path. */
  ghost predicate Changes(w: World, w': World, o: Index, v: JSON.Value) {
    && Sound(w) && Sound(w') && o in w.nodes && o in w'.nodes && ValueAt(w', o) == v
    && var r := RootOf(w, o);
       r in w'.nodes && ValueAt(w', r) == JSON.Put(ValueAt(w, r), PathTo(w, o), v)
  }

  /** An operation on one value leaves what is not below it, and changes nothing else that is left. */
  predicate Framed(nodes: Nodes, nodes': Nodes, o: Index) {
    && o in nodes && o in nodes' && nodes'[o].up == nodes[o].up && nodes'[o].at == nodes[o].at
    && (forall d :: d in nodes && !Under(nodes, o, d) ==> d in nodes')
    && (forall d :: d in nodes && d in nodes' && d != o ==> nodes'[d] == nodes[d])
  }

  lemma ChangesBy(dictionary: map<Name, Index>, users: map<Index, set<Index>>, w: World,
                  dictionary': map<Name, Index>, users': map<Index, set<Index>>, w': World, o: Index)
    requires Consistent(dictionary, w.names, users, w.nodes, w.next) && Consistent(dictionary', w'.names, users', w'.nodes, w'.next)
    requires Framed(w.nodes, w'.nodes, o) && w'.contents == w.contents && KnownSame(w.names, w'.names)
    ensures Sound(w) && Sound(w') && Kept(w, w', o) && Changes(w, w', o, ValueAt(w', o))
  {
    ConsistentSound(dictionary, users, w);
    ConsistentSound(dictionary', users', w');
    forall d | d in w.nodes && d in w'.nodes && d != o
      ensures SameAt(w, w', d)
    {
      StillSame(dictionary, users, w, dictionary', users', w', d);
    }
    assert Under(w.nodes, o, o);
    WholeValue(w, w', o);
  }

  /** Nothing has happened to the values. */
  lemma ChangesNothing(dictionary: map<Name, Index>, users: map<Index, set<Index>>, w: World,
                       dictionary': map<Name, Index>, users': map<Index, set<Index>>, w': World, o: Index)
    requires Consistent(dictionary, w.names, users, w.nodes, w.next) && Consistent(dictionary', w'.names, users', w'.nodes, w'.next)
    requires o in w.nodes && w'.nodes == w.nodes && w'.contents == w.contents && KnownSame(w.names, w'.names)
    ensures Sound(w) && Changes(w, w', o, ValueAt(w, o))
  {
    ChangesBy(dictionary, users, w, dictionary', users', w', o);
    forall d | d in w.nodes
      ensures SameAt(w, w', d)
    {
      StillSame(dictionary, users, w, dictionary', users', w', d);
    }
    Unchanged(w, w', o);
  }

  function WithoutField(v: JSON.Value, name: Name): JSON.Value {
    if v.Object? then JSON.Object(Without(v.names, name), v.values - {name}) else v
  }

  lemma DroppedAbsent(w: World, o: Index, name: Name)
    requires Sound(w) && o in w.nodes && name !in Keys(w.nodes[o], w.names)
    ensures WithoutField(ValueAt(w, o), name) == ValueAt(w, o)
  {
    if w.nodes[o].kind == Object {
      FieldNames(w, o, w.nodes[o].count);
      NothingDropped(Keys(w.nodes[o], w.names), FieldsUpTo(w, o, w.nodes[o].count), name);
    }
  }

  lemma NothingDropped(names: seq<Name>, fields: map<Name, JSON.Value>, name: Name)
    requires name !in names && name !in fields
    ensures WithoutField(JSON.Object(names, fields), name) == JSON.Object(names, fields)
  {
    WithoutAbsent(names, name);
    assert fields - {name} == fields;
  }

  /** The values after a property has been cut off. */
  ghost predicate HasDropped(dictionary: map<Name, Index>, w: World, w': World, o: Index, name: Name, id: Index, p: nat) {
    && o in w.nodes && Found(dictionary, w.nodes[o], name)
    && id == dictionary[name] && p == w.nodes[o].properties[id] && p in w.nodes[o].children
    && w'.nodes == Cut(w.nodes, o, p, Removed(w.nodes[o], id)) && o in w'.nodes
    && Keys(w'.nodes[o], w'.names) == Without(Keys(w.nodes[o], w.names), name)
    && w'.contents == w.contents && KnownSame(w.names, w'.names)
  }

  lemma DroppedFound(dictionary: map<Name, Index>, users: map<Index, set<Index>>, w: World,
                     dictionary': map<Name, Index>, users': map<Index, set<Index>>, w': World, o: Index, name: Name, id: Index, p: nat)
    requires Consistent(dictionary, w.names, users, w.nodes, w.next) && Consistent(dictionary', w'.names, users', w'.nodes, w'.next)
    requires HasDropped(dictionary, w, w', o, name, id, p)
    ensures Sound(w) && Changes(w, w', o, WithoutField(ValueAt(w, o), name))
  {
    var c := w.nodes[o].children[p];
    assert Agrees(w.nodes[o]) && Holds(w.nodes, o, p) && IsEntry(dictionary, w.names, users, name);
    CutIsShrunk(w.nodes, o, p, Removed(w.nodes[o], id));
    ChangesBy(dictionary, users, w, dictionary', users', w', o);
    assert NamesApart(w.nodes[o], w.names);
    RemovedNames(dictionary, users, w, dictionary', users', w', o, id);
    assert LostAt(w, w', o, p);
    LostValue(w, w', o, p);
  }

  /** The children that are left have their names. */
  lemma RemovedNames(dictionary: map<Name, Index>, users: map<Index, set<Index>>, w: World,
                     dictionary': map<Name, Index>, users': map<Index, set<Index>>, w': World, o: Index, id: Index)
    requires Consistent(dictionary, w.names, users, w.nodes, w.next) && Consistent(dictionary', w'.names, users', w'.nodes, w'.next)
    requires o in w.nodes && o in w'.nodes && w.nodes[o].kind == Object && id in w.nodes[o].properties
    requires w'.nodes[o] == Removed(w.nodes[o], id) && KnownSame(w.names, w'.names)
    ensures forall q :: q in w'.nodes[o].children ==> NameAt(w'.nodes[o], w'.names, q) == NameAt(w.nodes[o], w.names, q)
  {
    assert Agrees(w.nodes[o]) && Agrees(w'.nodes[o]);
    PropertiesNamed(dictionary, w.names, users, w.nodes, o);
    PropertiesNamed(dictionary', w'.names, users', w'.nodes, o);
  }

  /** Deleting a property takes it out of the object, in its place in the document. */
  method DropProperty(store: PropertyStore, o: Index, name: Name, ghost contents: map<Index, JSON.Value>)
    requires store.Valid() && o in store.nodes
    modifies store
    ensures store.Valid() && Sound(old(Now(store, contents)))
    ensures Changes(old(Now(store, contents)), Now(store, contents), o, WithoutField(ValueAt(old(Now(store, contents)), o), name))
  {
    ghost var w, dictionary, users := Now(store, contents), store.dictionary, store.users;
    ConsistentSound(dictionary, users, w);
    assert Agrees(w.nodes[o]);
    LookupFindsKeys(dictionary, w.names, users, w.nodes, o, name);
    store.DeleteProperty(o, name);
    if Found(dictionary, w.nodes[o], name) {
      ghost var id := dictionary[name];
      DroppedFound(dictionary, users, w, store.dictionary, store.users, Now(store, contents), o, name, id, w.nodes[o].properties[id]);
    } else {
      DroppedAbsent(w, o, name);
      ChangesNothing(dictionary, users, w, store.dictionary, store.users, Now(store, contents), o);
    }
  }

  lemma StrippedFramed(nodes: Nodes, o: Index, kind: Kind)
    requires o in nodes
    ensures Framed(nodes, Stripped(nodes, o)[o := Blank(nodes[o]).(kind := kind)], o)
  {
  }

  /** Making a value an object or an array keeps one that is there, and clears any other. */
  method MakeContainer(store: PropertyStore, o: Index, kind: Kind, ghost contents: map<Index, JSON.Value>)
    requires store.Valid() && o in store.nodes && kind in {Object, Array}
    modifies store
    ensures store.Valid() && Sound(old(Now(store, contents)))
    ensures var v := ValueAt(old(Now(store, contents)), o);
            Changes(old(Now(store, contents)), Now(store, contents), o,
                    if kind == Object then JSON.AsObject(v) else JSON.AsArray(v))
  {
    ghost var w, dictionary, users := Now(store, contents), store.dictionary, store.users;
    ConsistentSound(dictionary, users, w);
    store.SetType(o, kind);
    if w.nodes[o].kind == kind {
      ChangesNothing(dictionary, users, w, store.dictionary, store.users, Now(store, contents), o);
    } else {
      StrippedFramed(w.nodes, o, kind);
      ChangesBy(dictionary, users, w, store.dictionary, store.users, Now(store, contents), o);
      EmptyValue(Now(store, contents), o);
    }
  }

  lemma EmptyValue(w: World, o: Index)
    requires Sound(w) && o in w.nodes && w.nodes[o].count == 0
    ensures w.nodes[o].kind == Object ==> ValueAt(w, o) == JSON.Object([], map[])
    ensures w.nodes[o].kind == Array ==> ValueAt(w, o) == JSON.Array([])
  {
  }

  // ----- going to a property

  /** A property that is there is written as it is. */
  lemma WithOwnChild(w: World, o: Index, name: Name)
    requires Sound(w) && o in w.nodes && w.nodes[o].kind == Object && name in Keys(w.nodes[o], w.names)
    ensures WithOwn(ValueAt(w, o), name) == ValueAt(w, o)
  {
    FieldNames(w, o, w.nodes[o].count);
  }

  /** The values after a property has been added to an object, which was made one when it was none. */
  ghost predicate HasGained(w: World, w': World, o: Index, name: Name, id: Index, child: Index) {
    && o in w.nodes && GrewBy(Opened(w.nodes, o), w'.nodes, o, w.next, id, child)
    && id in w'.names && w'.names[id] == name && name !in Keys(w.nodes[o], w.names)
    && w'.contents == w.contents && KnownSame(w.names, w'.names)
  }

  lemma GainedFramed(w: World, w': World, o: Index, name: Name, id: Index, child: Index)
    requires HasGained(w, w', o, name, id, child) && forall d :: d in w.nodes ==> d < w.next
    ensures Framed(w.nodes, w'.nodes, o)
    ensures var p := w'.nodes[o].count;
            && p in w'.nodes[o].children && w'.nodes[o].children[p] == child && p in w'.nodes[o].positions && w'.nodes[o].positions[p] == id
            && child in w'.nodes && w'.nodes[child].kind == Undefined && w'.nodes[o].kind == Opened(w.nodes, o)[o].kind
            && p == Opened(w.nodes, o)[o].count + 1
  {
    assert o in Opened(w.nodes, o);
  }

  lemma GainedFound(dictionary: map<Name, Index>, users: map<Index, set<Index>>, w: World,
                    dictionary': map<Name, Index>, users': map<Index, set<Index>>, w': World, o: Index, name: Name, id: Index, child: Index)
    requires Consistent(dictionary, w.names, users, w.nodes, w.next) && Consistent(dictionary', w'.names, users', w'.nodes, w'.next)
    requires HasGained(w, w', o, name, id, child)
    ensures Sound(w) && Changes(w, w', o, WithOwn(ValueAt(w, o), name))
  {
    GainedFramed(w, w', o, name, id, child);
    ChangesBy(dictionary, users, w, dictionary', users', w', o);
    if w.nodes[o].kind == Object {
      GainedNames(dictionary, users, w, dictionary', users', w', o, name, id, child);
    }
    GainedShape(w, w', o, name, id, child);
  }

  lemma GainedShape(w: World, w': World, o: Index, name: Name, id: Index, child: Index)
    requires Sound(w) && Sound(w') && HasGained(w, w', o, name, id, child)
    requires o in w'.nodes && Kept(w, w', o) && (w.nodes[o].kind == Object ==> Gained(w, w', o, name))
    ensures ValueAt(w', o) == WithOwn(ValueAt(w, o), name)
  {
    GainedFramed(w, w', o, name, id, child);
    assert ChildAt(w', o, w'.nodes[o].count) == JSON.Undefined;
    if w.nodes[o].kind == Object {
      GainedValue(w, w', o, name);
    } else {
      FirstField(w', o, name);
      FirstOwn(w, o, name);
    }
  }

  /** The value with its own child at a key, which makes it an object and the child, if there is none, one without a type. */
  function WithOwn(v: JSON.Value, name: Name): JSON.Value {
    JSON.WithChild(v, JSON.Key(name), JSON.Child(v, JSON.Key(name)))
  }

  lemma FirstOwn(w: World, o: Index, name: Name)
    requires Sound(w) && o in w.nodes && w.nodes[o].kind != Object
    ensures WithOwn(ValueAt(w, o), name) == JSON.Object([name], map[name := JSON.Undefined])
  {
  }

  lemma GainedNames(dictionary: map<Name, Index>, users: map<Index, set<Index>>, w: World,
                    dictionary': map<Name, Index>, users': map<Index, set<Index>>, w': World, o: Index, name: Name, id: Index, child: Index)
    requires Consistent(dictionary, w.names, users, w.nodes, w.next) && Consistent(dictionary', w'.names, users', w'.nodes, w'.next)
    requires HasGained(w, w', o, name, id, child) && w.nodes[o].kind == Object
    ensures Gained(w, w', o, name)
  {
    var node, node' := w.nodes[o], w'.nodes[o];
    assert Agrees(node) && Agrees(node') && node' == Added(node, id, child);
    PropertiesNamed(dictionary, w.names, users, w.nodes, o);
    PropertiesNamed(dictionary', w'.names, users', w'.nodes, o);
    forall q | q in node.children
      ensures NameAt(node', w'.names, q) == NameAt(node, w.names, q)
    {
      assert node'.positions[q] == node.positions[q] && node.positions[q] in w.names && node.positions[q] in w'.names;
    }
  }

  lemma FirstField(w: World, o: Index, name: Name)
    requires Sound(w) && o in w.nodes && w.nodes[o].kind == Object && w.nodes[o].count == 1
    requires 1 in w.nodes[o].children && NameAt(w.nodes[o], w.names, 1) == name && ChildAt(w, o, 1) == JSON.Undefined
    ensures ValueAt(w, o) == JSON.Object([name], map[name := JSON.Undefined])
  {
    assert FieldsUpTo(w, o, 0) == map[] && KeysUpTo(w.nodes[o], w.names, 0) == [];
    assert FieldsUpTo(w, o, 1) == map[name := JSON.Undefined];
    assert KeysUpTo(w.nodes[o], w.names, 1) == [name];
  }

  lemma GrownPosition(before: Nodes, after: Nodes, names: map<Index, Name>, o: Index, next: Index, id: Index, child: Index, name: Name)
    requires GrewBy(before, after, o, next, id, child) && o in after && At(after[o], names, name, before[o].count + 1)
    ensures id in names && names[id] == name
  {
  }

  /** What going to a property does to the store, as the operation promises it. */
  ghost predicate WentTo(w: World, w': World, o: Index, name: Name, position: nat) {
    && o in w.nodes && o in w'.nodes && w'.contents == w.contents && KnownSame(w.names, w'.names)
    && (name in Keys(w.nodes[o], w.names) ==> w'.nodes == w.nodes)
    && (name !in Keys(w.nodes[o], w.names) ==>
          && Grew(Opened(w.nodes, o), w'.nodes, o, w.next)
          && position == Opened(w.nodes, o)[o].count + 1 && At(w'.nodes[o], w'.names, name, position))
  }

  lemma WentToChanges(dictionary: map<Name, Index>, users: map<Index, set<Index>>, w: World,
                      dictionary': map<Name, Index>, users': map<Index, set<Index>>, w': World, o: Index, name: Name, position: nat)
    requires Consistent(dictionary, w.names, users, w.nodes, w.next) && Consistent(dictionary', w'.names, users', w'.nodes, w'.next)
    requires WentTo(w, w', o, name, position)
    ensures Sound(w) && Changes(w, w', o, WithOwn(ValueAt(w, o), name))
  {
    ConsistentSound(dictionary, users, w);
    if name in Keys(w.nodes[o], w.names) {
      WithOwnChild(w, o, name);
      ChangesNothing(dictionary, users, w, dictionary', users', w', o);
    } else {
      var id, c :| GrewBy(Opened(w.nodes, o), w'.nodes, o, w.next, id, c);
      GrownPosition(Opened(w.nodes, o), w'.nodes, w'.names, o, w.next, id, c, name);
      GainedFound(dictionary, users, w, dictionary', users', w', o, name, id, c);
    }
  }

  /** Going to a property writes the child there is, or one without a type, at its key. */
  method GoToProperty(store: PropertyStore, o: Index, name: Name, ghost contents: map<Index, JSON.Value>) returns (child: Index)
    requires store.Valid() && o in store.nodes
    modifies store
    ensures store.Valid() && Sound(old(Now(store, contents)))
    ensures Changes(old(Now(store, contents)), Now(store, contents), o, WithOwn(ValueAt(old(Now(store, contents)), o), name))
    ensures child in store.nodes && store.nodes[child].up == o && o in store.nodes
    ensures At(store.nodes[o], store.names, name, store.nodes[child].at) && store.nodes[o].children[store.nodes[child].at] == child
  {
    ghost var w, dictionary, users := Now(store, contents), store.dictionary, store.users;
    var position, found := store.Property(o, name);
    child := found;
    assert Holds(store.nodes, o, position);
    OpenedCount(w.nodes, o);
    WentToChanges(dictionary, users, w, store.dictionary, store.users, Now(store, contents), o, name, position);
  }

  lemma OpenedCount(nodes: Nodes, o: Index)
    requires o in nodes
    ensures o in Opened(nodes, o) && Opened(nodes, o)[o].count == if nodes[o].kind == Object then nodes[o].count else 0
  {
  }

  // ----- going to an element

  lemma ExtendedChild(v: JSON.Value, i: nat, n: nat)
    requires i >= 1 && n == (if |JSON.AsArray(v).items| < i then i else |JSON.AsArray(v).items|)
    ensures JSON.WithChild(v, JSON.At(i), JSON.Child(v, JSON.At(i))) == JSON.Array(JSON.Extended(JSON.AsArray(v).items, n))
  {
    var items := JSON.AsArray(v).items;
    assert JSON.PutItem(items, i, JSON.Child(v, JSON.At(i))) == JSON.Extended(items, n);
  }

  lemma LengthensFramed(nodes: Nodes, nodes': Nodes, o: Index, next: Index)
    requires Lengthens(nodes, nodes', o, next)
    ensures Framed(nodes, nodes', o)
  {
  }

  /** A child that was not there before has just been allocated. */
  lemma NewChildren(w: World, w': World, o: Index, next: Index)
    requires Sound(w) && Sound(w') && Lengthens(w.nodes, w'.nodes, o, next) && w.nodes[o].count <= w'.nodes[o].count
    ensures Lengthened(w, w', o)
  {
    forall p | p in w'.nodes[o].children && p !in w.nodes[o].children
      ensures ChildAt(w', o, p) == JSON.Undefined
    {
      var d := w'.nodes[o].children[p];
      assert Holds(w'.nodes, o, p);
      assert d in w.nodes ==> Hung(w.nodes, d);
    }
  }

  /** What going to an element of an array does to the store, as the operation promises it. */
  lemma LengthenedChanges(dictionary: map<Name, Index>, users: map<Index, set<Index>>, w: World,
                          dictionary': map<Name, Index>, users': map<Index, set<Index>>, w': World, o: Index, index: nat)
    requires Consistent(dictionary, w.names, users, w.nodes, w.next) && Consistent(dictionary', w'.names, users', w'.nodes, w'.next)
    requires Lengthens(w.nodes, w'.nodes, o, w.next) && w'.contents == w.contents && KnownSame(w.names, w'.names)
    requires w.nodes[o].kind in {Array, Undefined} && w'.nodes[o].kind == Array && index >= 1
    requires w'.nodes[o].count == if w.nodes[o].count < index then index else w.nodes[o].count
    ensures Sound(w)
    ensures var v := ValueAt(w, o); Changes(w, w', o, JSON.WithChild(v, JSON.At(index), JSON.Child(v, JSON.At(index))))
  {
    assert Agrees(w.nodes[o]);
    LengthensFramed(w.nodes, w'.nodes, o, w.next);
    ChangesBy(dictionary, users, w, dictionary', users', w', o);
    NewChildren(w, w', o, w.next);
    LengthenedItems(w, w', o);
    ExtendedChild(ValueAt(w, o), index, w'.nodes[o].count);
  }

  /** Going to a number. In an array, or a value without a type, that writes the child there is, or one
      without a type, at its index; an error, and a position of an object that is in use, change nothing.
      At a position that has been deleted the indexes no longer agree. */
  method GoToElement(store: PropertyStore, o: Index, index: nat, ghost contents: map<Index, JSON.Value>) returns (child: Trie.Option<Index>)
    requires store.Valid() && o in store.nodes
    modifies store
    ensures Sound(old(Now(store, contents)))
    ensures child == Trie.None <==>
              index < 1 || (old(store.nodes[o].kind) in {Value, Object} && index > old(store.nodes[o].count))
    ensures store.Valid() <==> !(old(store.nodes[o].kind) == Object && 1 <= index <= old(store.nodes[o].count)
                                 && index !in old(store.nodes[o].children))
    ensures store.Valid() ==>
              var v := ValueAt(old(Now(store, contents)), o);
              Changes(old(Now(store, contents)), Now(store, contents), o,
                      if old(store.nodes[o].kind) in {Array, Undefined} && index >= 1
                      then JSON.WithChild(v, JSON.At(index), JSON.Child(v, JSON.At(index)))
                      else v)
    ensures child.Some? ==> o in store.nodes && index in store.nodes[o].children && store.nodes[o].children[index] == child.value
  {
    ghost var w, dictionary, users := Now(store, contents), store.dictionary, store.users;
    ConsistentSound(dictionary, users, w);
    assert Agrees(w.nodes[o]);
    child := store.Element(o, index);
    if w.nodes[o].kind in {Array, Undefined} && index >= 1 {
      LengthenedChanges(dictionary, users, w, store.dictionary, store.users, Now(store, contents), o, index);
    } else if store.Valid() {
      ChangesNothing(dictionary, users, w, store.dictionary, store.users, Now(store, contents), o);
    }
  }
}
