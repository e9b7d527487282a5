/**
  Runs of insertions and deletions of properties on one object: what is left, and in which order.
 */
module PropertyRuns {
  import opened PropertyIndexes
  import opened Sequences

  datatype Change = Insert(name: Name) | Delete(name: Name)

  /** What one change does to the list of names: what the operations below are proved to do. */
  function Changed(keys: seq<Name>, c: Change): seq<Name> {
    match c
    case Insert(name) => if name in keys then keys else keys + [name]
    case Delete(name) => Without(keys, name)
  }

  function KeysFrom(keys: seq<Name>, run: seq<Change>): seq<Name> {
    if run == [] then keys else Changed(KeysFrom(keys, run[..|run| - 1]), run[|run| - 1])
  }

  function KeysAfter(run: seq<Change>): seq<Name> {
    KeysFrom([], run)
  }

  /** When a name was last inserted while the object did not have it; 0 when it does not have it. */
  function Since(run: seq<Change>, name: Name): (t: nat)
    ensures t <= |run|
  {
    if run == [] then 0
    else
      var before := run[..|run| - 1];
      match run[|run| - 1]
      case Insert(n) => if n == name && Since(before, name) == 0 then |run| else Since(before, name)
      case Delete(n) => if n == name then 0 else Since(before, name)
  }

  lemma {:induction false} WithoutMembers(keys: seq<Name>, name: Name, n: Name)
    ensures n in Without(keys, name) <==> n in keys && n != name
  {
    if keys != [] {
      Snoc(keys);
      WithoutMembers(keys[..|keys| - 1], name, n);
    }
  }

  /** Later in the list is inserted later. */
  predicate InOrder(run: seq<Change>, keys: seq<Name>) {
    forall i, j :: 0 <= i < j < |keys| ==> Since(run, keys[i]) < Since(run, keys[j])
  }

  lemma {:induction false} WithoutInOrder(run: seq<Change>, keys: seq<Name>, name: Name)
    requires InOrder(run, keys)
    ensures InOrder(run, Without(keys, name))
  {
    if keys != [] {
      var front, last := keys[..|keys| - 1], keys[|keys| - 1];
      WithoutInOrder(run, front, name);
      var rest := Without(front, name);
      forall i | 0 <= i < |rest|
        ensures Since(run, rest[i]) < Since(run, last)
      {
        WithoutMembers(front, name, rest[i]);
        var k :| 0 <= k < |front| && front[k] == rest[i];
        assert keys[k] == rest[i];
      }
    }
  }

  /** After any run, the names are those still inserted, in the order of their latest insertion. */
  lemma {:induction false} LatestInsertionOrder(run: seq<Change>)
    ensures InOrder(run, KeysAfter(run))
    ensures forall n :: n in KeysAfter(run) <==> Since(run, n) > 0
  {
    if run != [] {
      var before, c := run[..|run| - 1], run[|run| - 1];
      var keys := KeysAfter(before);
      LatestInsertionOrder(before);
      if c.Delete? {
        DeletedInOrder(before, run, keys, c.name);
      } else {
        InsertedInOrder(before, run, keys, c.name);
      }
    }
  }

  lemma DeletedInOrder(before: seq<Change>, run: seq<Change>, keys: seq<Name>, name: Name)
    requires run == before + [Delete(name)] && InOrder(before, keys) && forall n :: n in keys <==> Since(before, n) > 0
    ensures InOrder(run, Without(keys, name)) && forall n :: n in Without(keys, name) <==> Since(run, n) > 0
  {
    assert run[..|run| - 1] == before;
    var rest := Without(keys, name);
    WithoutInOrder(before, keys, name);
    forall n
      ensures n in rest <==> Since(run, n) > 0
      ensures n in rest ==> Since(run, n) == Since(before, n)
    {
      WithoutMembers(keys, name, n);
    }
    assert forall i :: 0 <= i < |rest| ==> rest[i] in rest;
  }

  lemma InsertedInOrder(before: seq<Change>, run: seq<Change>, keys: seq<Name>, name: Name)
    requires run == before + [Insert(name)] && InOrder(before, keys) && forall n :: n in keys <==> Since(before, n) > 0
    ensures InOrder(run, Changed(keys, Insert(name))) && forall n :: n in Changed(keys, Insert(name)) <==> Since(run, n) > 0
  {
    assert run[..|run| - 1] == before;
    assert forall i :: 0 <= i < |keys| ==> keys[i] in keys && Since(run, keys[i]) == Since(before, keys[i]);
  }
}
