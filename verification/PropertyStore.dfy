/**
  The operations on the property indexes: adding a property, deleting one, changing the type of a
  value, and enumerating. Every operation keeps the indexes in agreement, and does to the list of
  properties of an object what it would do to a plain list of names.
 */
module PropertyStore {
  import opened PropertyIndexes
  import opened PropertyRuns
  import opened Sequences
  import Trie

  // ----- adding a property

  function Added(node: Node, id: Index, child: Index): Node {
    var position := node.count + 1;
    node.(count := position, properties := node.properties[id := position],
          positions := node.positions[position := id], children := node.children[position := child])
  }

  /** A new value without a type, hanging below o. */
  function Sprout(o: Index, position: nat): Node {
    Node(o, position, Undefined, 0, map[], map[], map[])
  }

  /** The value has gained a child at a new position. */
  predicate Gains(before: Node, after: Node, position: nat, child: Index) {
    && position !in before.children && after.children == before.children[position := child]
    && after.up == before.up && after.at == before.at
  }

  function Grown(nodes: Nodes, o: Index, id: Index, child: Index): Nodes
    requires o in nodes
  {
    nodes[o := Added(nodes[o], id, child)][child := Sprout(o, nodes[o].count + 1)]
  }

  lemma AddedAgrees(node: Node, id: Index, child: Index)
    requires Agrees(node) && node.kind == Object && id !in node.properties
    ensures Agrees(Added(node, id, child))
  {
  }

  lemma SproutForest(nodes: Nodes, o: Index, changed: Node, position: nat, child: Index)
    requires Forest(nodes) && o in nodes && Gains(nodes[o], changed, position, child) && child !in nodes && o < child
    ensures Forest(nodes[o := changed][child := Sprout(o, position)])
  {
    var more := nodes[o := changed][child := Sprout(o, position)];
    forall d | d in more
      ensures Hung(more, d)
    {
      assert d in nodes ==> Hung(nodes, d);
    }
    forall x, p | x in more && p in more[x].children
      ensures Holds(more, x, p)
    {
      if x in nodes && p in nodes[x].children {
        assert Holds(nodes, x, p);
      }
    }
  }

  function MoreUsers(users: map<Index, set<Index>>, id: Index, o: Index): map<Index, set<Index>> {
    users[id := (if id in users then users[id] else {}) + {o}]
  }

  lemma AddedNamed(dictionary: map<Name, Index>, names: map<Index, Name>, users: map<Index, set<Index>>,
                   name: Name, id: Index, o: Index)
    requires Named(dictionary, names, users) && (if name in dictionary then dictionary[name] == id else id !in names)
    ensures Named(dictionary[name := id], names[id := name], MoreUsers(users, id, o))
  {
    var dictionary', names', users' := dictionary[name := id], names[id := name], MoreUsers(users, id, o);
    assert name in dictionary ==> IsEntry(dictionary, names, users, name);
    forall n | n in dictionary'
      ensures IsEntry(dictionary', names', users', n)
    {
      assert n in dictionary ==> IsEntry(dictionary, names, users, n);
    }
    forall i | i in users'
      ensures IsKnown(dictionary', names', users', i)
    {
      assert i in users ==> IsKnown(dictionary, names, users, i);
    }
  }

  lemma GrownUsed(users: map<Index, set<Index>>, nodes: Nodes, o: Index, id: Index, child: Index)
    requires Used(users, nodes) && o in nodes && id !in nodes[o].properties && child !in nodes
    ensures Used(MoreUsers(users, id, o), Grown(nodes, o, id, child))
  {
    forall i, x
      ensures Listed(MoreUsers(users, id, o), i, x) <==> Using(Grown(nodes, o, id, child), i, x)
    {
      assert Listed(users, i, x) <==> Using(nodes, i, x);
    }
  }

  predicate MoreNames(names: map<Index, Name>, more: map<Index, Name>) {
    forall id :: id in names ==> id in more && more[id] == names[id]
  }

  /** Names that are known before and after are the same. */
  predicate KnownSame(names: map<Index, Name>, names': map<Index, Name>) {
    forall id :: id in names && id in names' ==> names'[id] == names[id]
  }

  /** A name that was not known has been allocated. */
  predicate NewNames(names: map<Index, Name>, names': map<Index, Name>, next: Index) {
    forall id :: id in names' && id !in names ==> id >= next
  }

  /** A new property comes last. */
  lemma AddedKeys(node: Node, names: map<Index, Name>, id: Index, child: Index, name: Name)
    requires Agrees(node) && node.kind == Object && (id in names ==> names[id] == name)
    requires forall i :: i in node.properties ==> i in names
    ensures Keys(Added(node, id, child), names[id := name]) == Keys(node, names) + [name]
  {
    KeysUpToSame(node, Added(node, id, child), names, names[id := name], node.count);
  }

  /** Other names do not matter to an object. */
  lemma SameKeys(node: Node, names: map<Index, Name>, more: map<Index, Name>)
    requires Agrees(node) && MoreNames(names, more) && (forall i :: i in node.properties ==> i in names)
    ensures Keys(node, more) == Keys(node, names)
  {
    if node.kind == Object {
      KeysUpToSame(node, node, names, more, node.count);
    }
  }

  // ----- deleting a property

  lemma CutForest(nodes: Nodes, o: Index, p: nat, changed: Node)
    requires Forest(nodes) && o in nodes && Loses(nodes[o], changed, p)
    ensures Forest(Cut(nodes, o, p, changed)) && o in Cut(nodes, o, p, changed)
  {
    var cut := Cut(nodes, o, p, changed);
    CutIsShrunk(nodes, o, p, changed);
    forall d | d in cut
      ensures Hung(cut, d)
    {
      CutUp(nodes, o, p, changed, d);
    }
    forall x, q | x in cut && q in cut[x].children
      ensures Holds(cut, x, q)
    {
      CutDown(nodes, o, p, changed, x, q);
    }
  }

  lemma CutUp(nodes: Nodes, o: Index, p: nat, changed: Node, d: Index)
    requires Forest(nodes) && o in nodes && Loses(nodes[o], changed, p) && d in Cut(nodes, o, p, changed)
    ensures Hung(Cut(nodes, o, p, changed), d)
  {
    var c := nodes[o].children[p];
    assert Hung(nodes, d);
    if nodes[d].up != d {
      CutKeepsUp(nodes, c, d);
    }
  }

  lemma CutDown(nodes: Nodes, o: Index, p: nat, changed: Node, x: Index, q: nat)
    requires Forest(nodes) && o in nodes && Loses(nodes[o], changed, p)
    requires x in Cut(nodes, o, p, changed) && q in Cut(nodes, o, p, changed)[x].children
    ensures Holds(Cut(nodes, o, p, changed), x, q)
  {
    assert Holds(nodes, o, p);
    assert Holds(nodes, x, q);
  }

  lemma CutKeepsUp(nodes: Nodes, c: Index, d: Index)
    requires d in nodes && nodes[d].up < d && !Under(nodes, c, d)
    ensures !Under(nodes, c, nodes[d].up)
  {
  }

  /** Stripping a child and then taking it away is cutting it. */
  lemma StripThenCut(nodes: Nodes, o: Index, p: nat, changed: Node)
    requires Forest(nodes) && o in nodes && Loses(nodes[o], changed, p)
    ensures var c := nodes[o].children[p];
            && o < c && c in nodes && o in Stripped(nodes, c) && Stripped(nodes, c)[o] == nodes[o]
            && Stripped(nodes, c)[o := changed] - {c} == Cut(nodes, o, p, changed)
  {
    var c := nodes[o].children[p];
    assert Holds(nodes, o, p);
    if Under(nodes, c, o) {
      UnderAtLeast(nodes, c, o);
    }
  }

  // What is left of the users and the dictionary once an object no longer uses a property.

  function FewerUsers(users: map<Index, set<Index>>, id: Index, o: Index): map<Index, set<Index>>
    requires id in users
  {
    if users[id] == {o} then users - {id} else users[id := users[id] - {o}]
  }

  function FewerNames(names: map<Index, Name>, users: map<Index, set<Index>>, id: Index, o: Index): map<Index, Name>
    requires id in users
  {
    if users[id] == {o} then names - {id} else names
  }

  function FewerEntries(dictionary: map<Name, Index>, names: map<Index, Name>, users: map<Index, set<Index>>, id: Index, o: Index): map<Name, Index>
    requires id in users && id in names
  {
    if users[id] == {o} then dictionary - {names[id]} else dictionary
  }

  lemma RemovedNamed(dictionary: map<Name, Index>, names: map<Index, Name>, users: map<Index, set<Index>>, id: Index, o: Index)
    requires Named(dictionary, names, users) && id in users
    ensures id in names
    ensures Named(FewerEntries(dictionary, names, users, id, o), FewerNames(names, users, id, o), FewerUsers(users, id, o))
  {
    assert IsKnown(dictionary, names, users, id);
    var dictionary' := FewerEntries(dictionary, names, users, id, o);
    var names', users' := FewerNames(names, users, id, o), FewerUsers(users, id, o);
    forall n | n in dictionary'
      ensures IsEntry(dictionary', names', users', n)
    {
      assert IsEntry(dictionary, names, users, n);
    }
    forall i | i in users'
      ensures IsKnown(dictionary', names', users', i)
    {
      assert IsKnown(dictionary, names, users, i);
      assert users[id] != {o} ==> users[id] - {o} != {} by {
        if users[id] - {o} == {} {
          assert users[id] <= {o};
        }
      }
    }
  }

  lemma RemovedUsed(users: map<Index, set<Index>>, nodes: Nodes, o: Index, id: Index)
    requires Used(users, nodes) && o in nodes && id in nodes[o].properties
    ensures id in users && Used(FewerUsers(users, id, o), nodes[o := Removed(nodes[o], id)])
  {
    assert Using(nodes, id, o) && Listed(users, id, o);
    forall i, x
      ensures Listed(FewerUsers(users, id, o), i, x) <==> Using(nodes[o := Removed(nodes[o], id)], i, x)
    {
      assert Listed(users, i, x) <==> Using(nodes, i, x);
    }
  }

  /** Values without properties do not count as users. */
  lemma UsedSame(users: map<Index, set<Index>>, nodes: Nodes, other: Nodes)
    requires Used(users, nodes)
    requires forall d :: d in nodes && nodes[d].properties != map[] ==> d in other && other[d].properties == nodes[d].properties
    requires forall d :: d in other && other[d].properties != map[] ==> d in nodes && other[d].properties == nodes[d].properties
    ensures Used(users, other)
  {
    forall i, x
      ensures Listed(users, i, x) <==> Using(other, i, x)
    {
      assert Listed(users, i, x) <==> Using(nodes, i, x);
    }
  }

  lemma BlankForest(nodes: Nodes, o: Index)
    requires Forest(nodes) && o in nodes && nodes[o].children == map[]
    ensures Forest(nodes[o := Blank(nodes[o])])
  {
    var blank := nodes[o := Blank(nodes[o])];
    forall d | d in blank
      ensures Hung(blank, d)
    {
      assert Hung(nodes, d);
    }
    forall x, q | x in blank && q in blank[x].children
      ensures Holds(blank, x, q)
    {
      assert Holds(nodes, x, q);
    }
  }

  /** Names are only dropped. */
  predicate Dropped(before: map<Name, Index>, after: map<Name, Index>) {
    forall n :: n in after ==> n in before && after[n] == before[n]
  }

  /** Whether the two lookups find a property. */
  predicate Found(dictionary: map<Name, Index>, node: Node, name: Name) {
    node.kind == Object && name in dictionary && dictionary[name] in node.properties
  }

  /** What every operation keeps. */
  ghost predicate Consistent(dictionary: map<Name, Index>, names: map<Index, Name>, users: map<Index, set<Index>>, nodes: Nodes, next: Index) {
    Forest(nodes) && Named(dictionary, names, users) && Used(users, nodes) && Allocated(names, nodes, next)
  }

  lemma PropertiesNamed(dictionary: map<Name, Index>, names: map<Index, Name>, users: map<Index, set<Index>>, nodes: Nodes, o: Index)
    requires Named(dictionary, names, users) && Used(users, nodes) && o in nodes
    ensures Distinct(nodes[o], names)
    ensures forall id :: id in nodes[o].properties ==> names[id] in dictionary && dictionary[names[id]] == id
  {
    forall id | id in nodes[o].properties
      ensures id in names && names[id] in dictionary && dictionary[names[id]] == id
    {
      assert Using(nodes, id, o) && Listed(users, id, o);
      assert IsKnown(dictionary, names, users, id);
    }
  }

  /** The two lookups find a name exactly when the iterator would yield it. */
  lemma LookupFindsKeys(dictionary: map<Name, Index>, names: map<Index, Name>, users: map<Index, set<Index>>, nodes: Nodes, o: Index, name: Name)
    requires Named(dictionary, names, users) && Used(users, nodes) && o in nodes && Agrees(nodes[o])
    ensures Found(dictionary, nodes[o], name) <==> name in Keys(nodes[o], names)
  {
    PropertiesNamed(dictionary, names, users, nodes, o);
    if nodes[o].kind == Object {
      KeysUpToContains(nodes[o], names, nodes[o].count, name);
      forall id | id in nodes[o].properties
        ensures names[id] == name <==> name in dictionary && dictionary[name] == id
      {
        assert Using(nodes, id, o) && Listed(users, id, o);
        assert IsKnown(dictionary, names, users, id);
        assert name in dictionary ==> IsEntry(dictionary, names, users, name);
      }
    }
  }

  lemma GrownAllocated(names: map<Index, Name>, nodes: Nodes, next: Index, o: Index, name: Name, id: Index, child: Index)
    requires Allocated(names, nodes, next) && o in nodes && nodes[o].kind == Object && id !in nodes[o].properties
    requires id in names || id == next
    requires next <= child && id < child
    ensures Allocated(names[id := name], Grown(nodes, o, id, child), child + 1)
  {
    assert Agrees(nodes[o]);
    AddedAgrees(nodes[o], id, child);
    var more := Grown(nodes, o, id, child);
    forall d | d in more
      ensures Agrees(more[d])
    {
      assert d in nodes ==> Agrees(nodes[d]);
    }
  }

  lemma AddConsistent(dictionary: map<Name, Index>, names: map<Index, Name>, users: map<Index, set<Index>>, nodes: Nodes, next: Index,
                      o: Index, name: Name, id: Index, child: Index)
    requires Consistent(dictionary, names, users, nodes, next) && o in nodes && nodes[o].kind == Object
    requires if name in dictionary then dictionary[name] == id && child == next else id == next && child == next + 1
    requires id !in nodes[o].properties
    ensures Consistent(dictionary[name := id], names[id := name], MoreUsers(users, id, o), Grown(nodes, o, id, child), child + 1)
    ensures Keys(Added(nodes[o], id, child), names[id := name]) == Keys(nodes[o], names) + [name]
    ensures MoreNames(names, names[id := name]) && NewNames(names, names[id := name], next) && child !in nodes
  {
    assert Agrees(nodes[o]);
    assert name in dictionary ==> IsEntry(dictionary, names, users, name);
    GrownAllocated(names, nodes, next, o, name, id, child);
    SproutForest(nodes, o, Added(nodes[o], id, child), nodes[o].count + 1, child);
    GrownUsed(users, nodes, o, id, child);
    AddedNamed(dictionary, names, users, name, id, o);
    PropertiesNamed(dictionary, names, users, nodes, o);
    AddedKeys(nodes[o], names, id, child, name);
  }

  /** The keys of the other objects stay as they are. */
  lemma OthersKeep(dictionary: map<Name, Index>, names: map<Index, Name>, users: map<Index, set<Index>>, nodes: Nodes, next: Index,
                   o: Index, name: Name, id: Index, child: Index)
    requires Consistent(dictionary, names, users, nodes, next) && o in nodes && child !in nodes
    requires id in names ==> names[id] == name
    ensures var more := Grown(nodes, o, id, child);
            forall d :: d in nodes && d != o ==> d in more && Keys(more[d], names[id := name]) == Keys(nodes[d], names)
  {
    forall d | d in nodes && d != o
      ensures Keys(Grown(nodes, o, id, child)[d], names[id := name]) == Keys(nodes[d], names)
    {
      assert Agrees(nodes[d]);
      PropertiesNamed(dictionary, names, users, nodes, d);
      SameKeys(nodes[d], names, names[id := name]);
    }
  }

  /** The object has a property of this name at this position. */
  predicate At(node: Node, names: map<Index, Name>, name: Name, position: nat) {
    position in node.children && position in node.positions && node.positions[position] in names && names[node.positions[position]] == name
  }

  lemma FoundAt(node: Node, names: map<Index, Name>, id: Index, name: Name)
    requires Agrees(node) && node.kind == Object && id in node.properties && id in names && names[id] == name
    ensures At(node, names, name, node.properties[id])
  {
  }

  /** Cutting off a value without children. */
  lemma LeafCut(nodes: Nodes, o: Index, p: nat, changed: Node)
    requires Forest(nodes) && o in nodes && Loses(nodes[o], changed, p)
    requires nodes[o].children[p] in nodes && nodes[nodes[o].children[p]].children == map[]
    ensures nodes[o].children[p] != o && nodes[o := changed] - {nodes[o].children[p]} == Cut(nodes, o, p, changed)
  {
    var c := nodes[o].children[p];
    assert Holds(nodes, o, p);
    forall d | d in nodes
      ensures Under(nodes, c, d) <==> d == c
    {
      if Under(nodes, c, d) {
        ChildlessAlone(nodes, c, d);
      }
    }
  }

  lemma CutAllocated(names: map<Index, Name>, nodes: Nodes, next: Index, o: Index, changed: Node, c: Index)
    requires Allocated(names, nodes, next) && o in nodes && Agrees(changed)
    ensures Allocated(names, nodes[o := changed] - {c}, next)
  {
    var cut := nodes[o := changed] - {c};
    forall d | d in cut
      ensures Agrees(cut[d])
    {
      assert Agrees(nodes[d]);
    }
  }

  /** The values after the property of a cleared child is taken away. */
  function Lost(nodes: Nodes, o: Index, id: Index): Nodes
    requires o in nodes && id in nodes[o].properties && nodes[o].properties[id] in nodes[o].children
  {
    nodes[o := Removed(nodes[o], id)] - {nodes[o].children[nodes[o].properties[id]]}
  }

  predicate Losable(nodes: Nodes, o: Index, id: Index) {
    && o in nodes && nodes[o].kind == Object && Agrees(nodes[o]) && id in nodes[o].properties
    && var c := nodes[o].children[nodes[o].properties[id]];
       c in nodes && nodes[c].children == map[] && nodes[c].properties == map[]
  }

  lemma LostForest(names: map<Index, Name>, nodes: Nodes, next: Index, o: Index, id: Index)
    requires Forest(nodes) && Allocated(names, nodes, next) && Losable(nodes, o, id)
    ensures Forest(Lost(nodes, o, id)) && Allocated(names, Lost(nodes, o, id), next)
  {
    var p := nodes[o].properties[id];
    RemovedAgrees(nodes[o], id);
    LeafCut(nodes, o, p, Removed(nodes[o], id));
    CutForest(nodes, o, p, Removed(nodes[o], id));
    CutAllocated(names, nodes, next, o, Removed(nodes[o], id), nodes[o].children[p]);
  }

  lemma LostUsed(users: map<Index, set<Index>>, nodes: Nodes, o: Index, id: Index)
    requires Used(users, nodes) && Forest(nodes) && Losable(nodes, o, id)
    ensures id in users && Used(FewerUsers(users, id, o), Lost(nodes, o, id))
  {
    RemovedUsed(users, nodes, o, id);
    assert Holds(nodes, o, nodes[o].properties[id]);
    UsedSame(FewerUsers(users, id, o), nodes[o := Removed(nodes[o], id)], Lost(nodes, o, id));
  }

  /** Taking a property away whose child has already been cleared. */
  lemma DeleteConsistent(dictionary: map<Name, Index>, names: map<Index, Name>, users: map<Index, set<Index>>, nodes: Nodes, next: Index,
                         o: Index, id: Index)
    requires Consistent(dictionary, names, users, nodes, next) && Losable(nodes, o, id)
    ensures id in users && id in names
    ensures Consistent(FewerEntries(dictionary, names, users, id, o), FewerNames(names, users, id, o), FewerUsers(users, id, o),
                       Lost(nodes, o, id), next)
    ensures Keys(Removed(nodes[o], id), FewerNames(names, users, id, o)) == Without(Keys(nodes[o], names), names[id])
  {
    LostForest(names, nodes, next, o, id);
    LostUsed(users, nodes, o, id);
    RemovedNamed(dictionary, names, users, id, o);
    PropertiesNamed(dictionary, names, users, nodes, o);
    KeysUpToWithout(nodes[o], names, id, nodes[o].count);
    RemovedKeys(nodes[o], names, FewerNames(names, users, id, o), id);
  }

  lemma RemovedKeys(node: Node, names: map<Index, Name>, less: map<Index, Name>, id: Index)
    requires Agrees(node) && node.kind == Object && id in node.properties && (less == names || less == names - {id})
    ensures Keys(Removed(node, id), less) == KeysUpTo(Removed(node, id), names, node.count)
  {
    RemovedAgrees(node, id);
    KeysUpToSame(Removed(node, id), Removed(node, id), names, less, node.count);
  }

  /** Taking an element away that has already been cleared. */
  lemma DropConsistent(dictionary: map<Name, Index>, names: map<Index, Name>, users: map<Index, set<Index>>, nodes: Nodes, next: Index,
                       o: Index, p: nat)
    requires Consistent(dictionary, names, users, nodes, next) && o in nodes && nodes[o].kind == Array
    requires p in nodes[o].children && nodes[o].children[p] in nodes
    requires var c := nodes[nodes[o].children[p]]; c.children == map[] && c.properties == map[]
    ensures Consistent(dictionary, names, users, nodes[o := Dropping(nodes[o], p)] - {nodes[o].children[p]}, next)
  {
    var c, changed := nodes[o].children[p], Dropping(nodes[o], p);
    assert Agrees(nodes[o]);
    LeafCut(nodes, o, p, changed);
    CutForest(nodes, o, p, changed);
    CutAllocated(names, nodes, next, o, changed, c);
    UsedSame(users, nodes, nodes[o := changed] - {c});
  }

  function Dropping(node: Node, p: nat): Node {
    node.(children := node.children - {p})
  }

  function Extended(node: Node, position: nat, child: Index): Node {
    node.(count := if node.count < position then position else node.count, children := node.children[position := child])
  }

  lemma ExtendConsistent(dictionary: map<Name, Index>, names: map<Index, Name>, users: map<Index, set<Index>>, nodes: Nodes, next: Index,
                         o: Index, position: nat)
    requires Consistent(dictionary, names, users, nodes, next) && o in nodes && nodes[o].kind == Array
    requires 1 <= position && position !in nodes[o].children
    ensures next !in nodes
    ensures Consistent(dictionary, names, users, nodes[o := Extended(nodes[o], position, next)][next := Sprout(o, position)], next + 1)
  {
    var changed := Extended(nodes[o], position, next);
    var more := nodes[o := changed][next := Sprout(o, position)];
    assert Agrees(nodes[o]);
    SproutForest(nodes, o, changed, position, next);
    UsedSame(users, nodes, more);
    forall d | d in more
      ensures Agrees(more[d])
    {
      assert d in nodes ==> Agrees(nodes[d]);
    }
  }

  lemma TypedConsistent(dictionary: map<Name, Index>, names: map<Index, Name>, users: map<Index, set<Index>>, nodes: Nodes, next: Index,
                        o: Index, kind: Kind)
    requires Consistent(dictionary, names, users, nodes, next) && o in nodes && nodes[o].kind == Undefined
    ensures Consistent(dictionary, names, users, nodes[o := Blank(nodes[o]).(kind := kind)], next)
  {
    assert Agrees(nodes[o]);
    var changed := Blank(nodes[o]).(kind := kind);
    BlankForest(nodes, o);
    KindForest(nodes[o := Blank(nodes[o])], o, kind);
    assert nodes[o := Blank(nodes[o])][o := changed] == nodes[o := changed];
    CutAllocated(names, nodes, next, o, changed, next);
    assert nodes[o := changed] - {next} == nodes[o := changed];
    UsedSame(users, nodes, nodes[o := changed]);
  }

  lemma KindForest(nodes: Nodes, o: Index, kind: Kind)
    requires Forest(nodes) && o in nodes
    ensures Forest(nodes[o := nodes[o].(kind := kind)])
  {
    var other := nodes[o := nodes[o].(kind := kind)];
    forall d | d in other
      ensures Hung(other, d)
    {
      assert Hung(nodes, d);
    }
    forall x, p | x in other && p in other[x].children
      ensures Holds(other, x, p)
    {
      assert Holds(nodes, x, p);
    }
  }

  lemma BlankConsistent(dictionary: map<Name, Index>, names: map<Index, Name>, users: map<Index, set<Index>>, nodes: Nodes, next: Index, o: Index)
    requires Consistent(dictionary, names, users, nodes, next) && o in nodes && nodes[o].children == map[]
    ensures Consistent(dictionary, names, users, nodes[o := Blank(nodes[o])], next)
  {
    assert Agrees(nodes[o]);
    BlankForest(nodes, o);
    CutAllocated(names, nodes, next, o, Blank(nodes[o]), next);
    assert nodes[o := Blank(nodes[o])] - {next} == nodes[o := Blank(nodes[o])];
    UsedSame(users, nodes, nodes[o := Blank(nodes[o])]);
  }

  // ----- what an operation on one object leaves alone

  /** The values after a value has been made an object. */
  function Opened(nodes: Nodes, o: Index): Nodes
    requires o in nodes
  {
    if nodes[o].kind == Object then nodes else Stripped(nodes, o)[o := Blank(nodes[o]).(kind := Object)]
  }

  ghost predicate GrewBy(before: Nodes, after: Nodes, o: Index, next: Index, id: Index, child: Index) {
    o in before && next <= child && child !in before && after == Grown(before, o, id, child)
  }

  /** The object has one property more, with a value allocated for it. */
  ghost predicate Grew(before: Nodes, after: Nodes, o: Index, next: Index) {
    exists id, child :: GrewBy(before, after, o, next, id, child)
  }

  /** Other values are as they were, or gone, or have just been allocated. */
  predicate Apart(before: Nodes, after: Nodes, o: Index, next: Index) {
    forall d :: d in after && d != o ==>
      if d in before then after[d] == before[d] else d >= next && after[d].kind == Undefined
  }

  /** The value has kept its children and its place, and no other value is gone or changed. */
  predicate Lengthens(before: Nodes, after: Nodes, o: Index, next: Index) {
    && o in before && o in after && after[o].up == before[o].up && after[o].at == before[o].at
    && Apart(before, after, o, next) && (forall d :: d in before ==> d in after)
    && (forall p :: p in before[o].children ==> p in after[o].children && after[o].children[p] == before[o].children[p])
  }

  lemma LengthensTransitive(a: Nodes, b: Nodes, c: Nodes, o: Index, next: Index, later: Index)
    requires Lengthens(a, b, o, next) && Lengthens(b, c, o, later) && next <= later
    ensures Lengthens(a, c, o, next)
  {
  }

  lemma GrewApart(before: Nodes, after: Nodes, o: Index, next: Index)
    requires Grew(before, after, o, next)
    ensures Apart(before, after, o, next) && o in before && o in after && after[o].count == before[o].count + 1
  {
    var id, child :| GrewBy(before, after, o, next, id, child);
  }

  lemma AddedAt(node: Node, names: map<Index, Name>, name: Name, id: Index, child: Index)
    requires id in names && names[id] == name
    ensures At(Added(node, id, child), names, name, node.count + 1) && Added(node, id, child).properties[id] == node.count + 1
  {
  }

  method ListKeys(node: Node, names: map<Index, Name>) returns (keys: seq<Name>)
    requires node.kind == Object
    ensures keys == Keys(node, names)
  {
    keys := [];
    for p := 1 to node.count + 1
      invariant keys == KeysUpTo(node, names, p - 1)
    {
      if p in node.children {
        keys := keys + [NameAt(node, names, p)];
      }
    }
  }

  /** The dictionary holds a name exactly when some object has a property of that name. */
  lemma DictionaryExact(dictionary: map<Name, Index>, names: map<Index, Name>, users: map<Index, set<Index>>, nodes: Nodes, next: Index,
                        name: Name)
    requires Consistent(dictionary, names, users, nodes, next)
    ensures name in dictionary <==> exists o :: o in nodes && name in Keys(nodes[o], names)
  {
    if name in dictionary {
      var id := dictionary[name];
      assert IsEntry(dictionary, names, users, name) && IsKnown(dictionary, names, users, id);
      var o :| o in users[id];
      assert Listed(users, id, o) && Using(nodes, id, o);
      assert Agrees(nodes[o]);
      LookupFindsKeys(dictionary, names, users, nodes, o, name);
    }
    if exists o :: o in nodes && name in Keys(nodes[o], names) {
      var o :| o in nodes && name in Keys(nodes[o], names);
      assert Agrees(nodes[o]);
      LookupFindsKeys(dictionary, names, users, nodes, o, name);
    }
  }

  // ----- going to a deleted position

  /** The values after the path of a position has been made again without a property. */
  function Revived(nodes: Nodes, o: Index, p: nat, child: Index): Nodes
    requires o in nodes
  {
    nodes[o := nodes[o].(children := nodes[o].children[p := child])][child := Sprout(o, p)]
  }

  lemma {:induction false} RevivedKeysUpTo(node: Node, revived: Node, names: map<Index, Name>, p: nat, n: nat)
    requires 1 <= p && p !in node.children && revived.positions == node.positions
    requires revived.children.Keys == node.children.Keys + {p}
    ensures n < p ==> KeysUpTo(revived, names, n) == KeysUpTo(node, names, n)
    ensures n >= p ==>
              && KeysUpTo(node, names, p) <= KeysUpTo(node, names, n)
              && KeysUpTo(revived, names, n)
                 == KeysUpTo(node, names, p) + [NameAt(node, names, p)] + KeysUpTo(node, names, n)[|KeysUpTo(node, names, p)|..]
  {
    if n > 0 {
      RevivedKeysUpTo(node, revived, names, p, n - 1);
      if n == p {
        Unit(KeysUpTo(node, names, p - 1));
      } else if n > p && n in node.children {
        var front, now := KeysUpTo(node, names, p), KeysUpTo(node, names, n - 1);
        assert (now + [NameAt(node, names, n)])[|front|..] == now[|front|..] + [NameAt(node, names, n)];
        Associative(front + [NameAt(node, names, p)], now[|front|..], [NameAt(node, names, n)]);
      } else if n > p {
        Unit(KeysUpTo(node, names, n - 1));
        Unit(KeysUpTo(revived, names, n - 1));
      }
    }
  }

  /** Indexing an object by the number of a deleted position makes the child again, but no property.
      From then on the iterator yields one name more at that position: the name last used there while
      some object still uses that entry of the dictionary, and the empty name once it is dropped. The
      lookups find what they found before, so they agree with the iterator if and only if the name is
      one they know anyway. */
  lemma RevivedPosition(dictionary: map<Name, Index>, names: map<Index, Name>, users: map<Index, set<Index>>, nodes: Nodes, next: Index,
                        o: Index, p: nat)
    requires Consistent(dictionary, names, users, nodes, next) && o in nodes && nodes[o].kind == Object
    requires 1 <= p <= nodes[o].count && p !in nodes[o].children
    ensures var node, revived := nodes[o], Revived(nodes, o, p, next)[o];
            var keys, front, name := Keys(node, names), KeysUpTo(node, names, p), NameAt(node, names, p);
            && p in node.positions
            && (node.positions[p] in names ==> name in dictionary && dictionary[name] == node.positions[p])
            && (node.positions[p] !in names ==> name == "" && forall n :: n in dictionary ==> dictionary[n] != node.positions[p])
            && front <= keys && Keys(revived, names) == front + [name] + keys[|front|..]
            && (forall n :: Found(dictionary, revived, n) <==> n in keys)
            && ((forall n :: Found(dictionary, revived, n) <==> n in Keys(revived, names)) <==> name in keys)
    ensures !Agrees(Revived(nodes, o, p, next)[o])
  {
    var node, revived := nodes[o], Revived(nodes, o, p, next)[o];
    assert Agrees(node) && o != next;
    RevivedKeysUpTo(node, revived, names, p, node.count);
    RevivedName(dictionary, names, users, node, p);
    forall n
      ensures Found(dictionary, revived, n) <==> n in Keys(node, names)
    {
      LookupFindsKeys(dictionary, names, users, nodes, o, n);
    }
    OneMore(Keys(node, names), KeysUpTo(node, names, p), NameAt(node, names, p), Keys(revived, names));
    assert revived.positions[p] in revived.properties ==> revived.properties[revived.positions[p]] != p;
  }

  lemma RevivedName(dictionary: map<Name, Index>, names: map<Index, Name>, users: map<Index, set<Index>>, node: Node, p: nat)
    requires Named(dictionary, names, users) && p in node.positions
    ensures var id, name := node.positions[p], NameAt(node, names, p);
            && (id in names ==> name in dictionary && dictionary[name] == id)
            && (id !in names ==> forall n :: n in dictionary ==> dictionary[n] != id)
  {
    var id := node.positions[p];
    if id in names {
      assert IsKnown(dictionary, names, users, id);
    } else {
      forall n | n in dictionary
        ensures dictionary[n] != id
      {
        assert IsEntry(dictionary, names, users, n);
      }
    }
  }

  lemma OneMore(keys: seq<Name>, front: seq<Name>, name: Name, more: seq<Name>)
    requires front <= keys && more == front + [name] + keys[|front|..]
    ensures forall n :: n in more <==> n in keys || n == name
  {
    TakeDrop(keys, |front|);
    assert keys == front + keys[|front|..];
  }

  class PropertyStore {
    var dictionary: map<Name, Index>
    var names: map<Index, Name>
    var users: map<Index, set<Index>>
    var nodes: Nodes
    var next: Index

    ghost predicate Valid()
      reads this
    {
      Consistent(dictionary, names, users, nodes, next)
    }

    ghost function KeysOf(o: Index): seq<Name>
      reads this
      requires o in nodes
    {
      Keys(nodes[o], names)
    }

    constructor ()
      ensures Valid() && nodes == map[0 := Node(0, 0, Undefined, 0, map[], map[], map[])] && dictionary == map[]
    {
      dictionary, names, users, next := map[], map[], map[], 1;
      nodes := map[0 := Node(0, 0, Undefined, 0, map[], map[], map[])];
    }

    /** A property the dictionary knows is looked up by the index of its name. */
    method Contains(o: Index, name: Name) returns (found: bool)
      requires Valid() && o in nodes
      ensures found <==> name in KeysOf(o)
    {
      assert Agrees(nodes[o]);
      LookupFindsKeys(dictionary, names, users, nodes, o, name);
      if nodes[o].kind != Object {
        return false;
      }
      if name !in dictionary {
        return false;
      }
      found := dictionary[name] in nodes[o].properties;
    }

    /** The keys in the order the iterator visits the positions. */
    method Enumerate(o: Index) returns (keys: seq<Name>)
      requires Valid() && o in nodes && nodes[o].kind == Object
      ensures keys == KeysOf(o)
    {
      keys := ListKeys(nodes[o], names);
    }

    /** Adds a property: to the users of its name, then to the three paths of the object. */
    method AddProperty(o: Index, name: Name, id: Index, child: Index)
      requires Valid() && o in nodes && nodes[o].kind == Object && id !in nodes[o].properties
      requires if name in dictionary then dictionary[name] == id && child == next else id == next && child == next + 1
      modifies this
      ensures Valid() && o in nodes && nodes == Grown(old(nodes), o, id, child) && child !in old(nodes) && next == child + 1
      ensures id in old(names) ==> old(names)[id] == name
      ensures dictionary == old(dictionary)[name := id] && names == old(names)[id := name] && MoreNames(old(names), names)
      ensures NewNames(old(names), names, old(next))
      ensures KeysOf(o) == old(KeysOf(o)) + [name]
    {
      AddConsistent(dictionary, names, users, nodes, next, o, name, id, child);
      var grown, named := Grown(nodes, o, id, child), names[id := name];
      assert Keys(grown[o], named) == Keys(nodes[o], names) + [name];
      dictionary, users := dictionary[name := id], MoreUsers(users, id, o);
      names, nodes, next := named, grown, child + 1;
    }

    /** Adds a property with what that means for all keys. */
    method NewProperty(o: Index, name: Name, id: Index, child: Index)
      requires Valid() && o in nodes && nodes[o].kind == Object && id !in nodes[o].properties
      requires if name in dictionary then dictionary[name] == id && child == next else id == next && child == next + 1
      modifies this
      ensures Valid() && nodes == Grown(old(nodes), o, id, child) && next == child + 1 && MoreNames(old(names), names)
      ensures NewNames(old(names), names, old(next))
      ensures o in nodes && KeysOf(o) == old(KeysOf(o)) + [name]
      ensures forall d :: d in old(nodes) && d != o ==> d in nodes && KeysOf(d) == old(KeysOf(d))
      ensures At(nodes[o], names, name, old(nodes[o].count) + 1) && id in nodes[o].properties
      ensures nodes[o].properties[id] == old(nodes[o].count) + 1
    {
      AddProperty(o, name, id, child);
      OthersKeep(old(dictionary), old(names), old(users), old(nodes), old(next), o, name, id, child);
      AddedAt(old(nodes[o]), names, name, id, child);
    }

    /** The position of a property, which is added when the object does not have it. */
    method GetObjectPropertyPosition(o: Index, name: Name) returns (position: nat)
      requires Valid() && o in nodes && nodes[o].kind == Object
      modifies this
      ensures Valid() && MoreNames(old(names), names) && o in nodes && nodes[o].kind == Object && next >= old(next)
      ensures KeysOf(o) == Changed(old(KeysOf(o)), Insert(name))
      ensures forall d :: d in old(nodes) && d != o ==> d in nodes && KeysOf(d) == old(KeysOf(d))
      ensures old(name in KeysOf(o)) ==> nodes == old(nodes) && names == old(names) && dictionary == old(dictionary)
      ensures NewNames(old(names), names, old(next))
      ensures old(name !in KeysOf(o)) ==> position == old(nodes[o].count) + 1 && Grew(old(nodes), nodes, o, old(next))
      ensures At(nodes[o], names, name, position)
    {
      assert Agrees(nodes[o]);
      LookupFindsKeys(dictionary, names, users, nodes, o, name);
      PropertiesNamed(dictionary, names, users, nodes, o);
      assert name in dictionary ==> IsEntry(dictionary, names, users, name);
      var id: Index, child := next, next;
      if name in dictionary {
        id := dictionary[name];
      } else {
        child := next + 1;
      }
      if id !in nodes[o].properties {
        NewProperty(o, name, id, child);
        assert GrewBy(old(nodes), nodes, o, old(next), id, child);
      } else {
        FoundAt(nodes[o], names, id, name);
      }
      position := nodes[o].properties[id];
    }

    /** Goes to a property, which makes the value an object first. */
    method Property(o: Index, name: Name) returns (position: nat, child: Index)
      requires Valid() && o in nodes
      modifies this
      ensures Valid() && o in nodes && nodes[o].kind == Object && next >= old(next)
      ensures KeysOf(o) == Changed(old(KeysOf(o)), Insert(name)) && At(nodes[o], names, name, position)
      ensures child == nodes[o].children[position]
      ensures var was := if old(nodes[o].kind) == Object then old(nodes[o].count) else 0;
              if old(name in KeysOf(o)) then nodes[o].count == was else position == nodes[o].count == was + 1
      ensures Apart(old(nodes), nodes, o, old(next))
      ensures forall d :: d in old(nodes) && d in nodes && d != o ==> KeysOf(d) == old(KeysOf(d))
      ensures old(name in KeysOf(o)) ==> nodes == old(nodes) && names == old(names)
      ensures old(name !in KeysOf(o)) ==> Grew(Opened(old(nodes), o), nodes, o, old(next))
      ensures KnownSame(old(names), names)
    {
      SetType(o, Object);
      assert forall id :: id in old(names) ==> id < old(next);
      ghost var nodes1, next1 := nodes, next;
      position := GetObjectPropertyPosition(o, name);
      child := nodes[o].children[position];
      if nodes != nodes1 { GrewApart(nodes1, nodes, o, next1); }
    }

    /** Dropping names does not change the keys of the objects that are left as they were. */
    lemma KeysKept(names0: map<Index, Name>, nodes0: Nodes, o: Index)
      requires Valid() && MoreNames(names, names0)
      requires forall d :: d in nodes && d != o ==> d in nodes0 && nodes[d] == nodes0[d]
      ensures forall d :: d in nodes && d != o ==> d in nodes0 && KeysOf(d) == Keys(nodes0[d], names0)
    {
      forall d | d in nodes && d != o
        ensures KeysOf(d) == Keys(nodes0[d], names0)
      {
        assert Agrees(nodes[d]);
        PropertiesNamed(dictionary, names, users, nodes, d);
        SameKeys(nodes[d], names, names0);
      }
    }

    /** Clears a value: first the values below it, one by one, and then the value itself. */
    method Clear(o: Index)
      requires Valid() && o in nodes
      modifies this
      ensures Valid() && nodes == Stripped(old(nodes), o) && o in nodes
      ensures MoreNames(names, old(names)) && next == old(next) && Dropped(old(dictionary), dictionary)
      decreases next - o, 2
    {
      assert Agrees(nodes[o]);
      if nodes[o].kind == Object {
        ClearProperties(o);
      } else if nodes[o].kind == Array {
        ClearElements(o);
      } else {
        StartShrunk(nodes, o);
      }
      assert old(Forest(nodes));
      BlankConsistent(dictionary, names, users, nodes, next, o);
      ShrunkToStripped(old(nodes), nodes, o);
      nodes := nodes[o := Blank(nodes[o])];
    }

    /** The loop over the properties of an object. */
    method ClearProperties(o: Index)
      requires Valid() && o in nodes && nodes[o].kind == Object
      modifies this
      ensures Valid() && Shrunk(old(nodes), nodes, o) && nodes[o].children == map[]
      ensures MoreNames(names, old(names)) && next == old(next) && Dropped(old(dictionary), dictionary)
      decreases next - o, 1, 1
    {
      var count := nodes[o].count;
      assert Agrees(nodes[o]);
      StartShrunk(nodes, o);
      for p := 1 to count + 1
        invariant Valid() && Shrunk(old(nodes), nodes, o) && nodes[o].kind == Object
        invariant MoreNames(names, old(names)) && next == old(next) && Dropped(old(dictionary), dictionary)
        invariant forall q :: q in nodes[o].children ==> p <= q <= count
      {
        if p in nodes[o].children {
          ghost var before := nodes;
          ClearProperty(o, p);
          ShrunkTransitive(old(nodes), before, nodes, o);
        }
      }
      assert nodes[o].children == map[];
    }

    method ClearProperty(o: Index, p: nat)
      requires Valid() && o in nodes && nodes[o].kind == Object && p in nodes[o].children
      modifies this
      ensures Valid() && Shrunk(old(nodes), nodes, o) && nodes[o].kind == Object && nodes[o].children == old(nodes[o].children) - {p}
      ensures MoreNames(names, old(names)) && next == old(next) && Dropped(old(dictionary), dictionary)
      decreases next - o, 1, 0
    {
      assert Agrees(nodes[o]);
      PropertiesNamed(dictionary, names, users, nodes, o);
      ghost var id := nodes[o].positions[p];
      assert Found(dictionary, nodes[o], names[id]);
      DeleteProperty(o, names[nodes[o].positions[p]]);
      assert nodes[o] == Removed(old(nodes[o]), id);
      CutIsShrunk(old(nodes), o, p, nodes[o]);
    }

    /** The loop over the elements of an array. */
    method ClearElements(o: Index)
      requires Valid() && o in nodes && nodes[o].kind == Array
      modifies this
      ensures Valid() && Shrunk(old(nodes), nodes, o) && nodes[o].children == map[]
      ensures MoreNames(names, old(names)) && next == old(next) && Dropped(old(dictionary), dictionary)
      decreases next - o, 1, 1
    {
      var count := nodes[o].count;
      assert Agrees(nodes[o]);
      StartShrunk(nodes, o);
      for p := 1 to count + 1
        invariant Valid() && Shrunk(old(nodes), nodes, o) && nodes[o].kind == Array
        invariant MoreNames(names, old(names)) && next == old(next) && Dropped(old(dictionary), dictionary)
        invariant forall q :: q in nodes[o].children ==> p <= q <= count
      {
        if p in nodes[o].children {
          ghost var before := nodes;
          ClearElement(o, p);
          ShrunkTransitive(old(nodes), before, nodes, o);
        }
      }
      assert nodes[o].children == map[];
    }

    method ClearElement(o: Index, p: nat)
      requires Valid() && o in nodes && nodes[o].kind == Array && p in nodes[o].children
      modifies this
      ensures Valid() && Shrunk(old(nodes), nodes, o) && nodes[o].kind == Array && nodes[o].children == old(nodes[o].children) - {p}
      ensures MoreNames(names, old(names)) && next == old(next) && Dropped(old(dictionary), dictionary)
      decreases next - o, 1, 0
    {
      var item := nodes[o].children[p];
      assert Holds(nodes, o, p);
      Clear(item);
      StripThenCut(old(nodes), o, p, Dropping(old(nodes[o]), p));
      DropConsistent(dictionary, names, users, nodes, next, o, p);
      nodes := nodes[o := Dropping(nodes[o], p)] - {item};
      CutIsShrunk(old(nodes), o, p, nodes[o]);
    }

    /** Takes a property away whose child has been cleared: from the users of its name, and from the
        paths of the object. A name without users is dropped. */
    method TakeAway(o: Index, id: Index)
      requires Valid() && Losable(nodes, o, id)
      modifies this
      ensures Valid() && o in nodes && nodes == Lost(old(nodes), o, id) && next == old(next)
      ensures id in old(names) && KeysOf(o) == Without(old(KeysOf(o)), old(names)[id])
      ensures MoreNames(names, old(names)) && Dropped(old(dictionary), dictionary)
    {
      DeleteConsistent(dictionary, names, users, nodes, next, o, id);
      if users[id] == {o} {
        dictionary := dictionary - {names[id]};
        names := names - {id};
      }
      users := FewerUsers(users, id, o);
      nodes := Lost(nodes, o, id);
      assert nodes[o] == Removed(old(nodes)[o], id);
    }

    /** Deletes a property: its value, its use of the name, and its place in the object. */
    method DeleteProperty(o: Index, name: Name)
      requires Valid() && o in nodes
      modifies this
      ensures Valid() && o in nodes && KeysOf(o) == Changed(old(KeysOf(o)), Delete(name))
      ensures MoreNames(names, old(names)) && next == old(next) && Dropped(old(dictionary), dictionary)
      ensures old(Found(dictionary, nodes[o], name)) ==>
                var id := old(dictionary[name]);
                var p := old(nodes[o].properties[id]);
                p in old(nodes[o].children) && nodes == Cut(old(nodes), o, p, Removed(old(nodes[o]), id))
      ensures !old(Found(dictionary, nodes[o], name)) ==> nodes == old(nodes) && dictionary == old(dictionary)
      ensures forall d :: d in nodes && d != o ==> d in old(nodes) && KeysOf(d) == old(KeysOf(d))
      decreases next - o, 0, 1
    {
      assert Agrees(nodes[o]);
      LookupFindsKeys(dictionary, names, users, nodes, o, name);
      var found := Contains(o, name);
      if !found {
        WithoutAbsent(KeysOf(o), name);
        return;
      }
      DeleteFound(o, name, dictionary[name]);
      KeysKept(old(names), old(nodes), o);
    }

    method DeleteFound(o: Index, name: Name, id: Index)
      requires Valid() && o in nodes && Found(dictionary, nodes[o], name) && id == dictionary[name]
      modifies this
      ensures Valid() && o in nodes && KeysOf(o) == Without(old(KeysOf(o)), name)
      ensures MoreNames(names, old(names)) && next == old(next) && Dropped(old(dictionary), dictionary)
      ensures var p := old(nodes[o].properties[id]);
              p in old(nodes[o].children) && nodes == Cut(old(nodes), o, p, Removed(old(nodes[o]), id))
      decreases next - o, 0, 0
    {
      assert Agrees(nodes[o]);
      assert IsEntry(dictionary, names, users, name);
      var position := nodes[o].properties[id];
      var json := nodes[o].children[position];
      assert Holds(nodes, o, position);
      Clear(json);
      StripThenCut(old(nodes), o, position, Removed(old(nodes[o]), id));
      KeysKept(old(names), old(nodes), json);
      PropertiesNamed(dictionary, names, users, nodes, o);
      TakeAway(o, id);
    }

    /** Gives a value a type; a value of another type is cleared first. */
    method SetType(o: Index, kind: Kind)
      requires Valid() && o in nodes
      modifies this
      ensures Valid() && MoreNames(names, old(names)) && next == old(next) && Dropped(old(dictionary), dictionary)
      ensures old(nodes[o]).kind == kind ==> nodes == old(nodes)
      ensures old(nodes[o]).kind in {kind, Undefined} ==> names == old(names) && dictionary == old(dictionary)
      ensures old(nodes[o]).kind != kind ==> nodes == Stripped(old(nodes), o)[o := Blank(old(nodes[o])).(kind := kind)]
      ensures forall d :: d in nodes && d != o ==> d in old(nodes) && KeysOf(d) == old(KeysOf(d))
    {
      if nodes[o].kind == kind {
        return;
      }
      assert Agrees(nodes[o]);
      if nodes[o].kind != Undefined {
        Clear(o);
      } else {
        StartShrunk(nodes, o);
        ShrunkToStripped(nodes, nodes, o);
      }
      TypedConsistent(dictionary, names, users, nodes, next, o, kind);
      nodes := nodes[o := nodes[o].(kind := kind)];
      KeysKept(old(names), old(nodes), o);
    }

    /** The child at a position. In an array those before it are added first, and a value without a
        type becomes an array; in an object going past the last position ever used is an error, as
        is any position of a plain value. Below that, the path is made again where the position has
        been deleted, and then, and only then, the indexes no longer agree. */
    method Element(o: Index, index: nat) returns (child: Trie.Option<Index>)
      requires Valid() && o in nodes
      modifies this
      ensures MoreNames(names, old(names)) && Dropped(old(dictionary), dictionary)
      ensures child == Trie.None <==> index < 1 || (old(nodes[o].kind) in {Value, Object} && index > old(nodes[o].count))
      ensures child == Trie.None ==> nodes == old(nodes)
      ensures child.Some? ==> o in nodes && index in nodes[o].children && nodes[o].children[index] == child.value
      ensures Valid() <==> !(old(nodes[o].kind) == Object && 1 <= index <= old(nodes[o].count) && index !in old(nodes[o].children))
      ensures old(nodes[o].kind) == Object && child.Some? ==>
                && names == old(names) && dictionary == old(dictionary) && users == old(users)
                && nodes == if index in old(nodes[o].children) then old(nodes) else Revived(old(nodes), o, index, old(next))
      ensures old(nodes[o].kind) != Object && child.Some? ==>
                && nodes[o].kind == Array
                && (nodes[o].count == if old(nodes[o].count) < index then index else old(nodes[o].count))
                && (forall p :: p in nodes[o].children <==>
                      p in old(nodes[o].children) || old(nodes[o].count) < p <= index || p == index)
      ensures Lengthens(old(nodes), nodes, o, old(next))
    {
      assert Agrees(nodes[o]);
      if index < 1 {
        return Trie.None;
      }
      if nodes[o].kind == Undefined {
        BecomeArray(o);
      }
      if index > nodes[o].count && nodes[o].kind != Array {
        return Trie.None;
      }
      if nodes[o].kind == Object {
        var made := ObjectChild(o, index);
        return Trie.Some(made);
      }
      ghost var before, next0 := nodes, next;
      var found := ArrayElement(o, index);
      LengthensTransitive(old(nodes), before, nodes, o, old(next), next0);
      child := Trie.Some(found);
    }

    /** The child of an object at a position up to the last one ever used. */
    method ObjectChild(o: Index, index: nat) returns (child: Index)
      requires Valid() && o in nodes && nodes[o].kind == Object && 1 <= index <= nodes[o].count
      modifies this
      ensures names == old(names) && dictionary == old(dictionary) && users == old(users)
      ensures nodes == if index in old(nodes[o].children) then old(nodes) else Revived(old(nodes), o, index, old(next))
      ensures o in nodes && index in nodes[o].children && nodes[o].children[index] == child
      ensures Valid() <==> index in old(nodes[o].children)
      ensures Lengthens(old(nodes), nodes, o, old(next))
    {
      assert Agrees(nodes[o]);
      if index !in nodes[o].children {
        RevivedPosition(dictionary, names, users, nodes, next, o, index);
        ghost var now := Revived(nodes, o, index, next);
        assert o in now && !Agrees(now[o]);
        nodes := Revived(nodes, o, index, next);
        next := next + 1;
      }
      child := nodes[o].children[index];
    }

    method BecomeArray(o: Index)
      requires Valid() && o in nodes && nodes[o].kind == Undefined
      modifies this
      ensures Valid() && names == old(names) && dictionary == old(dictionary) && next == old(next)
      ensures nodes == old(nodes)[o := Blank(old(nodes[o])).(kind := Array)] && old(nodes[o]) == Blank(old(nodes[o]))
    {
      assert Agrees(nodes[o]);
      StartShrunk(nodes, o);
      ShrunkToStripped(nodes, nodes, o);
      SetType(o, Array);
    }

    method ArrayElement(o: Index, index: nat) returns (child: Index)
      requires Valid() && o in nodes && nodes[o].kind == Array && index >= 1
      modifies this
      ensures Valid() && names == old(names) && dictionary == old(dictionary) && next >= old(next)
      ensures o in nodes && nodes[o].kind == Array && index in nodes[o].children && nodes[o].children[index] == child
      ensures nodes[o].count == if old(nodes[o].count) < index then index else old(nodes[o].count)
      ensures forall p :: p in nodes[o].children <==> p in old(nodes[o].children) || old(nodes[o].count) < p <= index || p == index
      ensures Lengthens(old(nodes), nodes, o, old(next))
    {
      if index > nodes[o].count {
        AddElements(o, index);
      }
      if index !in nodes[o].children {
        ghost var before, next0 := nodes, next;
        AddElement(o, index);
        LengthensTransitive(old(nodes), before, nodes, o, old(next), next0);
      }
      child := nodes[o].children[index];
    }

    /** Adds elements up to an index. */
    method AddElements(o: Index, index: nat)
      requires Valid() && o in nodes && nodes[o].kind == Array && nodes[o].count < index
      modifies this
      ensures Valid() && names == old(names) && dictionary == old(dictionary) && next >= old(next)
      ensures o in nodes && nodes[o].kind == Array && nodes[o].count == index
      ensures forall p :: p in nodes[o].children <==> p in old(nodes[o].children) || old(nodes[o].count) < p <= index
      ensures Lengthens(old(nodes), nodes, o, old(next))
    {
      while nodes[o].count < index
        invariant o in nodes && old(nodes[o].count) <= nodes[o].count
        invariant forall p :: p in nodes[o].children <==> p in old(nodes[o].children) || old(nodes[o].count) < p <= nodes[o].count
        invariant Valid() && names == old(names) && dictionary == old(dictionary)
        invariant o in nodes && nodes[o].kind == Array && nodes[o].count <= index
        invariant Lengthens(old(nodes), nodes, o, old(next)) && next >= old(next)
        decreases index - nodes[o].count
      {
        assert Agrees(nodes[o]);
        ghost var before, next0 := nodes, next;
        AddElement(o, nodes[o].count + 1);
        LengthensTransitive(old(nodes), before, nodes, o, old(next), next0);
      }
    }

    method AddElement(o: Index, position: nat)
      requires Valid() && o in nodes && nodes[o].kind == Array && 1 <= position && position !in nodes[o].children
      modifies this
      ensures Valid() && names == old(names) && dictionary == old(dictionary) && next == old(next) + 1
      ensures nodes == old(nodes)[o := Extended(old(nodes[o]), position, old(next))][old(next) := Sprout(o, position)]
      ensures old(next) !in old(nodes) && Lengthens(old(nodes), nodes, o, old(next))
    {
      ExtendConsistent(dictionary, names, users, nodes, next, o, position);
      nodes := nodes[o := Extended(nodes[o], position, next)][next := Sprout(o, position)];
      next := next + 1;
    }
  }
}
