/**
  JSON values as the store holds them, read and written by path. Going to a property or an element
  that is missing creates it without a type, and makes the value it belongs to an object or an array.
 */
module JSONValues {

  type Name = string

  datatype Scalar = Null | Boolean(text: string) | Integer(text: string) | Number(text: string)

  /** A stored value; the names of an object are in the order of their insertion. */
  datatype Value =
    | Undefined
    | Simple(scalar: Scalar)
    | Text(pages: seq<string>)
    | Array(items: seq<Value>)
    | Object(names: seq<Name>, values: map<Name, Value>)

  datatype Step = Key(name: Name) | At(index: nat)

  type Path = seq<Step>

  function AsObject(v: Value): (r: Value)
    ensures r.Object? && (v.Object? ==> r == v)
  {
    if v.Object? then v else Object([], map[])
  }

  function AsArray(v: Value): (r: Value)
    ensures r.Array? && (v.Array? ==> r == v)
  {
    if v.Array? then v else Array([])
  }

  function AsText(v: Value): (r: Value)
    ensures r.Text? && (v.Text? ==> r == v)
  {
    if v.Text? then v else Text([])
  }

  /** Elements up to n, the missing ones without a type. */
  function Extended(items: seq<Value>, n: nat): seq<Value> {
    items + seq(if n > |items| then n - |items| else 0, _ => Undefined)
  }

  function PutItem(items: seq<Value>, i: nat, v: Value): seq<Value>
    requires i >= 1
  {
    Extended(items, i)[i - 1 := v]
  }

  function PutField(o: Value, name: Name, v: Value): Value
    requires o.Object?
  {
    Object(if name in o.values then o.names else o.names + [name], o.values[name := v])
  }

  function Child(v: Value, step: Step): Value {
    match step
    case Key(name) => if v.Object? && name in v.values then v.values[name] else Undefined
    case At(i) => if v.Array? && 1 <= i <= |v.items| then v.items[i - 1] else Undefined
  }

  function WithChild(v: Value, step: Step, child: Value): Value {
    match step
    case Key(name) => PutField(AsObject(v), name, child)
    case At(i) => if i == 0 then v else Array(PutItem(AsArray(v).items, i, child))
  }

  predicate Steps(path: Path) {
    forall k :: 0 <= k < |path| ==> path[k] != At(0)
  }

  function Get(root: Value, path: Path): Value
    decreases |path|
  {
    if path == [] then root else Get(Child(root, path[0]), path[1..])
  }

  function Put(root: Value, path: Path, v: Value): Value
    decreases |path|
  {
    if path == [] then v else WithChild(root, path[0], Put(Child(root, path[0]), path[1..], v))
  }

  // ----- laws of reading and writing

  lemma ChildWithChild(v: Value, step: Step, child: Value)
    requires step != At(0)
    ensures Child(WithChild(v, step, child), step) == child
  {
  }

  lemma WithChildTwice(v: Value, step: Step, a: Value, b: Value)
    requires step != At(0)
    ensures WithChild(WithChild(v, step, a), step, b) == WithChild(v, step, b)
  {
    if step.At? {
      var items := AsArray(v).items;
      assert PutItem(PutItem(items, step.index, a), step.index, b) == PutItem(items, step.index, b);
    }
  }

  lemma ChildWithOther(v: Value, step: Step, other: Step, child: Value)
    requires step != At(0) && step != other && (step.Key? <==> other.Key?) && (step.Key? ==> v.Object?) && (step.At? ==> v.Array?)
    ensures Child(WithChild(v, step, child), other) == Child(v, other)
  {
  }

  lemma {:induction false} GetPut(root: Value, path: Path, v: Value)
    requires Steps(path)
    ensures Get(Put(root, path, v), path) == v
    decreases |path|
  {
    if path != [] {
      GetPut(Child(root, path[0]), path[1..], v);
      ChildWithChild(root, path[0], Put(Child(root, path[0]), path[1..], v));
    }
  }

  lemma {:induction false} PutPut(root: Value, path: Path, a: Value, b: Value)
    requires Steps(path)
    ensures Put(Put(root, path, a), path, b) == Put(root, path, b)
    decreases |path|
  {
    if path != [] {
      var child := Child(root, path[0]);
      PutPut(child, path[1..], a, b);
      ChildWithChild(root, path[0], Put(child, path[1..], a));
      WithChildTwice(root, path[0], Put(child, path[1..], a), Put(child, path[1..], b));
    }
  }

  lemma {:induction false} GetStep(root: Value, path: Path, step: Step)
    ensures Get(root, path + [step]) == Child(Get(root, path), step)
    decreases |path|
  {
    if path == [] {
      assert [] + [step] == [step] && [step][1..] == [];
    } else {
      assert (path + [step])[0] == path[0] && (path + [step])[1..] == path[1..] + [step];
      GetStep(Child(root, path[0]), path[1..], step);
    }
  }

  /** Writing a child is writing the value with that child. */
  lemma {:induction false} PutStep(root: Value, path: Path, step: Step, v: Value)
    ensures Put(root, path + [step], v) == Put(root, path, WithChild(Get(root, path), step, v))
    decreases |path|
  {
    if path == [] {
      assert [] + [step] == [step] && [step][1..] == [];
    } else {
      assert (path + [step])[0] == path[0] && (path + [step])[1..] == path[1..] + [step];
      PutStep(Child(root, path[0]), path[1..], step, v);
    }
  }

  /** The same, when the value has just been written. */
  lemma PutChild(root: Value, path: Path, v: Value, step: Step, child: Value)
    requires Steps(path)
    ensures Put(Put(root, path, v), path + [step], child) == Put(root, path, WithChild(v, step, child))
    ensures Get(Put(root, path, v), path + [step]) == Child(v, step)
  {
    GetPut(root, path, v);
    PutStep(Put(root, path, v), path, step, child);
    PutPut(root, path, v, WithChild(v, step, child));
    GetStep(Put(root, path, v), path, step);
  }
}
