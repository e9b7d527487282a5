/**
  The property indexes of the JSON layer: a dictionary of names shared by all objects, and for every
  object an index from property to position, an index from position to property, and its children by
  position. Paths of the trie are finite maps here; the index of a path is the number its branch was
  allocated under, so it is never given out twice.
 */
module PropertyIndexes {
  import opened Sequences

  type Name = string
  type Index = nat

  datatype Kind = Undefined | Value | Array | Object

  /** A JSON value in the store: where it hangs, its type, and the paths below it. */
  datatype Node = Node(up: Index, at: nat, kind: Kind, count: nat,
                       properties: map<Index, nat>, positions: map<nat, Index>, children: map<nat, Index>)

  type Nodes = map<Index, Node>

  function Blank(n: Node): Node {
    Node(n.up, n.at, Undefined, 0, map[], map[], map[])
  }

  // ----- what every run keeps

  /** The three paths of one value agree. */
  predicate Agrees(n: Node) {
    && (n.kind != Object ==> n.properties == map[] && n.positions == map[])
    && (n.kind != Object && n.kind != Array ==> n.children == map[])
    && (n.kind != Object && n.kind != Array ==> n.count == 0)
    && (forall p :: p in n.children ==> 1 <= p <= n.count)
    && (forall p :: p in n.positions ==> 1 <= p <= n.count)
    && (n.kind == Object ==> forall p :: 1 <= p <= n.count ==> p in n.positions)
    && (n.kind == Object ==>
          && (forall p :: p in n.children ==> p in n.positions && n.positions[p] in n.properties && n.properties[n.positions[p]] == p)
          && (forall id :: id in n.properties ==>
                n.properties[id] in n.children && n.properties[id] in n.positions && n.positions[n.properties[id]] == id))
  }

  /** Every value but a root hangs at its position below a value allocated before it. */
  predicate Forest(nodes: Nodes) {
    && (forall d {:trigger Hung(nodes, d)} :: d in nodes ==> Hung(nodes, d))
    && (forall o, p {:trigger Holds(nodes, o, p)} :: o in nodes && p in nodes[o].children ==> Holds(nodes, o, p))
  }

  /** The value hangs at its position below another one, unless it is a root. */
  predicate Hung(nodes: Nodes, d: Index)
    requires d in nodes
  {
    var up := nodes[d].up;
    up == d || (up < d && up in nodes && nodes[d].at in nodes[up].children && nodes[up].children[nodes[d].at] == d)
  }

  /** The child at a position hangs there. */
  predicate Holds(nodes: Nodes, o: Index, p: nat)
    requires o in nodes && p in nodes[o].children
  {
    var d := nodes[o].children[p];
    d in nodes && o < d && nodes[d].up == o && nodes[d].at == p
  }

  /** The dictionary holds exactly the names in use, and a name can be read from its index exactly as
      long: dropping a name unlinks the branches that spell it. */
  predicate Named(dictionary: map<Name, Index>, names: map<Index, Name>, users: map<Index, set<Index>>) {
    && (forall n {:trigger IsEntry(dictionary, names, users, n)} :: n in dictionary ==> IsEntry(dictionary, names, users, n))
    && (forall id {:trigger IsKnown(dictionary, names, users, id)} :: id in users ==> IsKnown(dictionary, names, users, id))
    && (forall id :: id in names ==> id in users)
  }

  predicate IsEntry(dictionary: map<Name, Index>, names: map<Index, Name>, users: map<Index, set<Index>>, n: Name)
    requires n in dictionary
  {
    dictionary[n] in users && dictionary[n] in names && names[dictionary[n]] == n
  }

  predicate IsKnown(dictionary: map<Name, Index>, names: map<Index, Name>, users: map<Index, set<Index>>, id: Index)
    requires id in users
  {
    id in names && names[id] in dictionary && dictionary[names[id]] == id && users[id] != {}
  }

  /** Every property has the objects that use it. */
  ghost predicate Used(users: map<Index, set<Index>>, nodes: Nodes) {
    forall id, o {:trigger Listed(users, id, o)} {:trigger Using(nodes, id, o)} :: Listed(users, id, o) <==> Using(nodes, id, o)
  }

  predicate Listed(users: map<Index, set<Index>>, id: Index, o: Index) {
    id in users && o in users[id]
  }

  predicate Using(nodes: Nodes, id: Index, o: Index) {
    o in nodes && id in nodes[o].properties
  }

  predicate Allocated(names: map<Index, Name>, nodes: Nodes, next: Index) {
    && (forall id :: id in names ==> id < next)
    && (forall d :: d in nodes ==> d < next)
    && (forall d {:trigger Agrees(nodes[d])} :: d in nodes ==> Agrees(nodes[d]))
  }

  // ----- the order of the properties of an object

  /** The name read at a position: the empty one when its index no longer spells a name. */
  function NameAt(node: Node, names: map<Index, Name>, p: nat): Name {
    if p in node.positions && node.positions[p] in names then names[node.positions[p]] else ""
  }

  /** The names read at the children at positions up to n, in order of position. */
  function KeysUpTo(node: Node, names: map<Index, Name>, n: nat): seq<Name> {
    if n == 0 then []
    else KeysUpTo(node, names, n - 1) + if n in node.children then [NameAt(node, names, n)] else []
  }

  /** What the iterator over an object yields. */
  function Keys(node: Node, names: map<Index, Name>): seq<Name> {
    if node.kind == Object then KeysUpTo(node, names, node.count) else []
  }

  function Without(keys: seq<Name>, name: Name): seq<Name> {
    if keys == [] then []
    else Without(keys[..|keys| - 1], name) + if keys[|keys| - 1] == name then [] else [keys[|keys| - 1]]
  }

  lemma {:induction false} WithoutPush(keys: seq<Name>, k: Name, name: Name)
    ensures Without(keys + [k], name) == Without(keys, name) + if k == name then [] else [k]
  {
    assert (keys + [k])[..|keys|] == keys;
  }

  lemma {:induction false} WithoutAbsent(keys: seq<Name>, name: Name)
    requires name !in keys
    ensures Without(keys, name) == keys
  {
    if keys != [] {
      Snoc(keys);
      WithoutAbsent(keys[..|keys| - 1], name);
    }
  }

  /** The names found by walking the positions are those of the property index. */
  lemma {:induction false} KeysUpToContains(node: Node, names: map<Index, Name>, n: nat, name: Name)
    requires Agrees(node) && node.kind == Object && forall id :: id in node.properties ==> id in names
    ensures name in KeysUpTo(node, names, n) <==>
            exists id :: id in node.properties && names[id] == name && node.properties[id] <= n
  {
    if n == 0 {
      assert forall id :: id in node.properties ==> node.properties[id] in node.children;
    } else {
      KeysUpToContains(node, names, n - 1, name);
      if n in node.children {
        var id := node.positions[n];
        assert id in node.properties && node.properties[id] == n && NameAt(node, names, n) == names[id];
      }
      if exists id :: id in node.properties && names[id] == name && node.properties[id] <= n {
        var id :| id in node.properties && names[id] == name && node.properties[id] <= n;
        if node.properties[id] == n {
          assert node.positions[n] == id;
        }
      }
    }
  }

  /** Only the children, positions and names below n matter. */
  lemma {:induction false} KeysUpToSame(a: Node, b: Node, names: map<Index, Name>, more: map<Index, Name>, n: nat)
    requires forall p :: 1 <= p <= n ==> (p in a.children <==> p in b.children)
    requires forall p :: 1 <= p <= n && p in a.children ==> NameAt(a, names, p) == NameAt(b, more, p)
    ensures KeysUpTo(a, names, n) == KeysUpTo(b, more, n)
  {
    if n > 0 {
      KeysUpToSame(a, b, names, more, n - 1);
    }
  }

  /** Different properties of an object have different names. */
  predicate Distinct(node: Node, names: map<Index, Name>) {
    && (forall id :: id in node.properties ==> id in names)
    && (forall a, b :: a in node.properties && b in node.properties && names[a] == names[b] ==> a == b)
  }

  /** Taking one child out takes its name out of the keys. */
  lemma {:induction false} KeysUpToWithout(node: Node, names: map<Index, Name>, id: Index, n: nat)
    requires Agrees(node) && node.kind == Object && Distinct(node, names) && id in node.properties
    ensures KeysUpTo(Removed(node, id), names, n) == Without(KeysUpTo(node, names, n), names[id])
  {
    if n > 0 {
      KeysUpToWithout(node, names, id, n - 1);
      var before := KeysUpTo(node, names, n - 1);
      if n in node.children {
        assert node.positions[n] in node.properties && node.properties[node.positions[n]] == n;
        WithoutPush(before, NameAt(node, names, n), names[id]);
      } else {
        Unit(before);
        Unit(Without(before, names[id]));
      }
    }
  }

  function Removed(node: Node, id: Index): Node
    requires id in node.properties
  {
    node.(properties := node.properties - {id}, children := node.children - {node.properties[id]})
  }

  lemma RemovedAgrees(node: Node, id: Index)
    requires Agrees(node) && node.kind == Object && id in node.properties
    ensures Agrees(Removed(node, id))
  {
  }

  // ----- the values below a value

  predicate Under(nodes: Nodes, a: Index, d: Index)
    decreases d
  {
    d == a || (d in nodes && nodes[d].up < d && Under(nodes, a, nodes[d].up))
  }

  lemma {:induction false} UnderAtLeast(nodes: Nodes, a: Index, d: Index)
    requires Under(nodes, a, d)
    ensures a <= d
    decreases d
  {
    if d != a {
      UnderAtLeast(nodes, a, nodes[d].up);
    }
  }

  /** The same values hanging at the same places. */
  predicate Fewer(before: Nodes, after: Nodes) {
    forall d :: d in after ==> d in before && after[d].up == before[d].up && after[d].at == before[d].at
  }

  lemma {:induction false} UnderSame(before: Nodes, after: Nodes, a: Index, d: Index)
    requires Forest(after) && Fewer(before, after) && d in after
    ensures Under(after, a, d) == Under(before, a, d)
    decreases d
  {
    assert Hung(after, d);
    if d != a && after[d].up < d {
      UnderSame(before, after, a, after[d].up);
    }
  }

  lemma {:induction false} UnderChild(nodes: Nodes, o: Index, c: Index, d: Index)
    requires c in nodes && nodes[c].up == o && o < c && Under(nodes, c, d)
    ensures Under(nodes, o, d)
    decreases d
  {
    if d != c {
      UnderChild(nodes, o, c, nodes[d].up);
    }
  }

  /** Nothing is below a value without children. */
  lemma {:induction false} ChildlessAlone(nodes: Nodes, o: Index, d: Index)
    requires Forest(nodes) && o in nodes && nodes[o].children == map[] && d in nodes && Under(nodes, o, d)
    ensures d == o
    decreases d
  {
    assert Hung(nodes, d);
    if d != o {
      ChildlessAlone(nodes, o, nodes[d].up);
    }
  }

  /** Only values below o are gone, and only o has changed. */
  predicate Shrunk(before: Nodes, after: Nodes, o: Index) {
    && o in before && o in after && Fewer(before, after)
    && (forall d :: d in after && d != o ==> after[d] == before[d])
    && (forall d :: d in before && !Under(before, o, d) ==> d in after)
  }

  lemma StartShrunk(nodes: Nodes, o: Index)
    requires o in nodes
    ensures Shrunk(nodes, nodes, o)
  {
  }

  lemma ShrunkTransitive(a: Nodes, b: Nodes, c: Nodes, o: Index)
    requires Forest(b) && Shrunk(a, b, o) && Shrunk(b, c, o)
    ensures Shrunk(a, c, o)
  {
    forall d | d in a && !Under(a, o, d)
      ensures d in c
    {
      UnderSame(a, b, o, d);
    }
  }

  /** All values without those below o, and o blank. */
  function Stripped(nodes: Nodes, o: Index): Nodes {
    map d | d in nodes && (d == o || !Under(nodes, o, d)) :: if d == o then Blank(nodes[o]) else nodes[d]
  }

  /** A value that has lost its child at position p. */
  predicate Loses(before: Node, after: Node, p: nat) {
    p in before.children && after.up == before.up && after.at == before.at && after.children == before.children - {p}
  }

  /** All values without the child of o at p and those below it, and o changed. */
  function Cut(nodes: Nodes, o: Index, p: nat, changed: Node): Nodes
    requires o in nodes && p in nodes[o].children
  {
    map d | d in nodes && !Under(nodes, nodes[o].children[p], d) :: if d == o then changed else nodes[d]
  }

  /** Once its children are gone, blanking a value leaves it stripped. */
  lemma ShrunkToStripped(before: Nodes, after: Nodes, o: Index)
    requires Forest(before) && Forest(after) && Shrunk(before, after, o) && after[o].children == map[]
    ensures after[o := Blank(after[o])] == Stripped(before, o)
  {
    forall d | d in after && d != o
      ensures !Under(before, o, d)
    {
      UnderSame(before, after, o, d);
      if Under(after, o, d) {
        ChildlessAlone(after, o, d);
      }
    }
  }

  lemma CutIsShrunk(nodes: Nodes, o: Index, p: nat, changed: Node)
    requires Forest(nodes) && o in nodes && Loses(nodes[o], changed, p)
    ensures Shrunk(nodes, Cut(nodes, o, p, changed), o)
  {
    var c := nodes[o].children[p];
    assert Holds(nodes, o, p);
    if Under(nodes, c, o) {
      UnderAtLeast(nodes, c, o);
    }
    forall d | d in nodes && !Under(nodes, o, d)
      ensures !Under(nodes, c, d)
    {
      if Under(nodes, c, d) {
        UnderChild(nodes, o, c, d);
      }
    }
  }
}
