/**
  Runs of insertions and deletions of properties on many objects of one store: what each object is
  left with, and the positions that are handed out.
 */
module PropertyHistories {
  import opened PropertyIndexes
  import opened PropertyRuns
  import opened PropertyStore
  import opened Sequences

  /** A change to the properties of one value. */
  datatype Request = Request(at: Index, change: Change)

  /** The position that an insertion was answered with, and whether the property was new. */
  datatype Answer = Answer(at: Index, name: Name, position: nat, isNew: bool)

  /** The changes to one value, in order. */
  function Own(run: seq<Request>, o: Index): seq<Change> {
    if run == [] then []
    else Own(run[..|run| - 1], o) + if run[|run| - 1].at == o then [run[|run| - 1].change] else []
  }

  lemma OwnPush(run: seq<Request>, r: Request, o: Index)
    ensures Own(run + [r], o) == if r.at == o then Own(run, o) + [r.change] else Own(run, o)
  {
    Unit(Own(run, o));
    assert (run + [r])[..|run|] == run;
  }

  lemma KeysPush(keys: seq<Name>, run: seq<Change>, c: Change)
    ensures KeysFrom(keys, run + [c]) == Changed(KeysFrom(keys, run), c)
  {
    assert (run + [c])[..|run|] == run;
  }

  /** The keys a value had at the start; one that has been allocated since had none. */
  function Before(nodes0: Nodes, names0: map<Index, Name>, o: Index): seq<Name> {
    if o in nodes0 then Keys(nodes0[o], names0) else []
  }

  /** A value's keys are what its own changes make of those it had at the start. */
  ghost predicate Followed(nodes0: Nodes, names0: map<Index, Name>, made: seq<Request>, nodes: Nodes, names: map<Index, Name>, o: Index)
    requires o in nodes
  {
    Keys(nodes[o], names) == KeysFrom(Before(nodes0, names0, o), Own(made, o))
  }

  /** The answers to one value never go back: a new property gets a position beyond all the value has
      given out, which its count remembers. */
  ghost predicate Forward(answers: seq<Answer>, nodes: Nodes) {
    && (forall i, j :: 0 <= i < j < |answers| && answers[i].at == answers[j].at && answers[j].isNew ==>
          answers[i].position < answers[j].position)
    && (forall i {:trigger answers[i]} :: 0 <= i < |answers| && answers[i].at in nodes ==>
          nodes[answers[i].at].kind == Object && answers[i].position <= nodes[answers[i].at].count)
  }

  /** What one change does to the values: the keys of its own change as a list of names would, and
      nothing happens to the others, but that some are gone and some have been allocated. */
  ghost predicate Stepped(nodes: Nodes, names: map<Index, Name>, next: Index, r: Request, nodes': Nodes, names': map<Index, Name>) {
    && r.at in nodes && r.at in nodes'
    && Keys(nodes'[r.at], names') == Changed(Keys(nodes[r.at], names), r.change)
    && Apart(nodes, nodes', r.at, next)
    && (forall d :: d in nodes && d in nodes' && d != r.at ==> Keys(nodes'[d], names') == Keys(nodes[d], names))
    && (nodes[r.at].kind == Object ==> nodes'[r.at].kind == Object && nodes[r.at].count <= nodes'[r.at].count)
  }

  /** An answer fits the step that gave it. */
  predicate Answers(nodes: Nodes, r: Request, nodes': Nodes, answer: Answer)
    requires r.at in nodes && r.at in nodes'
  {
    && answer.at == r.at && r.change == Insert(answer.name)
    && nodes'[r.at].kind == Object && answer.position <= nodes'[r.at].count
    && (answer.isNew && nodes[r.at].kind == Object ==> nodes[r.at].count < answer.position)
  }

  lemma StepFollows(nodes0: Nodes, names0: map<Index, Name>, made: seq<Request>, nodes: Nodes, names: map<Index, Name>, next: Index,
                    r: Request, nodes': Nodes, names': map<Index, Name>, o: Index)
    requires Stepped(nodes, names, next, r, nodes', names') && o in nodes'
    requires forall d :: d in nodes ==> Followed(nodes0, names0, made, nodes, names, d)
    requires forall d :: d in nodes0 ==> d < next
    requires forall q :: q in made ==> q.at < next
    ensures Followed(nodes0, names0, made + [r], nodes', names', o)
  {
    OwnPush(made, r, o);
    if o == r.at {
      KeysPush(Before(nodes0, names0, o), Own(made, o), r.change);
    } else if o !in nodes {
      NoneOwn(made, o);
    }
  }

  lemma {:induction false} NoneOwn(made: seq<Request>, o: Index)
    requires forall q :: q in made ==> q.at != o
    ensures Own(made, o) == []
  {
    if made != [] {
      NoneOwn(made[..|made| - 1], o);
    }
  }

  lemma StepForward(answers: seq<Answer>, nodes: Nodes, names: map<Index, Name>, next: Index, r: Request, nodes': Nodes, names': map<Index, Name>)
    requires Forward(answers, nodes) && Stepped(nodes, names, next, r, nodes', names')
    requires forall i :: 0 <= i < |answers| ==> answers[i].at < next
    ensures Forward(answers, nodes')
  {
    forall i | 0 <= i < |answers| && answers[i].at in nodes'
      ensures nodes'[answers[i].at].kind == Object && answers[i].position <= nodes'[answers[i].at].count
    {
      assert answers[i].at in nodes;
    }
  }

  lemma AnswerForward(answers: seq<Answer>, nodes: Nodes, r: Request, nodes': Nodes, answer: Answer)
    requires Forward(answers, nodes) && Forward(answers, nodes')
    requires r.at in nodes && r.at in nodes' && Answers(nodes, r, nodes', answer)
    ensures Forward(answers + [answer], nodes')
  {
    var more := answers + [answer];
    forall i, j | 0 <= i < j < |more| && more[i].at == more[j].at && more[j].isNew
      ensures more[i].position < more[j].position
    {
      if j == |answers| {
        assert answers[i].at in nodes;
      }
    }
  }

  /** Makes one change: an insertion goes to the property, a deletion deletes it. */
  method Make(store: PropertyStore, r: Request) returns (answers: seq<Answer>)
    requires store.Valid() && r.at in store.nodes
    modifies store
    ensures store.Valid() && store.next >= old(store.next)
    ensures Stepped(old(store.nodes), old(store.names), old(store.next), r, store.nodes, store.names)
    ensures answers == [] || (|answers| == 1 && Answers(old(store.nodes), r, store.nodes, answers[0]))
    ensures r.change.Insert? <==> answers != []
    ensures r.change.Insert? ==>
              && (answers[0].isNew <==> old(r.change.name !in store.KeysOf(r.at)))
              && At(store.nodes[r.at], store.names, r.change.name, answers[0].position)
  {
    match r.change
    case Insert(name) =>
      var found := store.Contains(r.at, name);
      var position, child := store.Property(r.at, name);
      assert Agrees(store.nodes[r.at]);
      answers := [Answer(r.at, name, position, !found)];
    case Delete(name) =>
      store.DeleteProperty(r.at, name);
      answers := [];
  }

  /** Every value has followed its own changes, and those to a value that was there from the start are
      the ones asked for. */
  ghost predicate AllFollowed(nodes0: Nodes, names0: map<Index, Name>, asked: seq<Request>, made: seq<Request>,
                              nodes: Nodes, names: map<Index, Name>) {
    && (forall o :: o in nodes ==> Followed(nodes0, names0, made, nodes, names, o))
    && (forall o :: o in nodes && o in nodes0 ==> Own(made, o) == Own(asked, o))
  }

  /** No index that a run started from, changed or answered for is still to be handed out. */
  ghost predicate Handed(nodes0: Nodes, made: seq<Request>, answers: seq<Answer>, next: Index) {
    && (forall d :: d in nodes0 ==> d < next)
    && (forall q :: q in made ==> q.at < next)
    && (forall j :: 0 <= j < |answers| ==> answers[j].at < next)
  }

  lemma HandedStep(nodes0: Nodes, made: seq<Request>, answers: seq<Answer>, next: Index, r: Request, more: seq<Answer>, next': Index)
    requires Handed(nodes0, made, answers, next) && r.at < next <= next'
    requires more == [] || (|more| == 1 && more[0].at == r.at)
    ensures Handed(nodes0, made + [r], answers + more, next')
  {
  }

  /** The state of a run: what has been asked for, what has been made of it, and the answers. */
  ghost predicate Underway(nodes0: Nodes, names0: map<Index, Name>, asked: seq<Request>, made: seq<Request>, answers: seq<Answer>,
                           nodes: Nodes, names: map<Index, Name>, next: Index) {
    && Handed(nodes0, made, answers, next)
    && AllFollowed(nodes0, names0, asked, made, nodes, names)
    && Forward(answers, nodes)
  }

  lemma AllFollowedStep(nodes0: Nodes, names0: map<Index, Name>, asked: seq<Request>, made: seq<Request>,
                        nodes: Nodes, names: map<Index, Name>, next: Index, r: Request, nodes': Nodes, names': map<Index, Name>)
    requires AllFollowed(nodes0, names0, asked, made, nodes, names) && Stepped(nodes, names, next, r, nodes', names')
    requires (forall d :: d in nodes0 ==> d < next) && (forall q :: q in made ==> q.at < next)
    ensures AllFollowed(nodes0, names0, asked + [r], made + [r], nodes', names')
  {
    forall o | o in nodes'
      ensures Followed(nodes0, names0, made + [r], nodes', names', o)
      ensures o in nodes0 ==> Own(made + [r], o) == Own(asked + [r], o)
    {
      StepFollows(nodes0, names0, made, nodes, names, next, r, nodes', names', o);
      OwnPush(made, r, o);
      OwnPush(asked, r, o);
    }
  }

  lemma ForwardStep(answers: seq<Answer>, nodes: Nodes, names: map<Index, Name>, next: Index, r: Request, more: seq<Answer>,
                    nodes': Nodes, names': map<Index, Name>)
    requires Forward(answers, nodes) && Stepped(nodes, names, next, r, nodes', names')
    requires forall j :: 0 <= j < |answers| ==> answers[j].at < next
    requires more == [] || (|more| == 1 && Answers(nodes, r, nodes', more[0]))
    ensures Forward(answers + more, nodes')
  {
    StepForward(answers, nodes, names, next, r, nodes', names');
    if more == [] {
      Unit(answers);
    } else {
      AnswerForward(answers, nodes, r, nodes', more[0]);
      assert more == [more[0]];
    }
  }

  lemma UnderwayStep(nodes0: Nodes, names0: map<Index, Name>, asked: seq<Request>, made: seq<Request>, answers: seq<Answer>,
                     nodes: Nodes, names: map<Index, Name>, next: Index, r: Request, more: seq<Answer>,
                     nodes': Nodes, names': map<Index, Name>, next': Index)
    requires Underway(nodes0, names0, asked, made, answers, nodes, names, next)
    requires Stepped(nodes, names, next, r, nodes', names') && r.at < next <= next'
    requires more == [] || (|more| == 1 && Answers(nodes, r, nodes', more[0]))
    ensures Underway(nodes0, names0, asked + [r], made + [r], answers + more, nodes', names', next')
  {
    HandedStep(nodes0, made, answers, next, r, more, next');
    AllFollowedStep(nodes0, names0, asked, made, nodes, names, next, r, nodes', names');
    ForwardStep(answers, nodes, names, next, r, more, nodes', names');
  }

  lemma UnderwaySkip(nodes0: Nodes, names0: map<Index, Name>, asked: seq<Request>, made: seq<Request>, answers: seq<Answer>,
                     nodes: Nodes, names: map<Index, Name>, next: Index, r: Request)
    requires Underway(nodes0, names0, asked, made, answers, nodes, names, next) && r.at !in nodes
    ensures Underway(nodes0, names0, asked + [r], made, answers, nodes, names, next)
  {
    forall o | o in nodes && o in nodes0
      ensures Own(made, o) == Own(asked + [r], o)
    {
      OwnPush(asked, r, o);
    }
  }

  /** The lookups find exactly the names that the iterators yield, and the dictionary holds exactly the
      names that some iterator yields. */
  ghost predicate AllAgree(dictionary: map<Name, Index>, nodes: Nodes, names: map<Index, Name>) {
    && (forall o, n :: o in nodes ==> (Found(dictionary, nodes[o], n) <==> n in Keys(nodes[o], names)))
    && (forall n :: n in dictionary <==> exists o :: o in nodes && n in Keys(nodes[o], names))
  }

  lemma ConsistentAgree(dictionary: map<Name, Index>, names: map<Index, Name>, users: map<Index, set<Index>>, nodes: Nodes, next: Index)
    requires Consistent(dictionary, names, users, nodes, next)
    ensures AllAgree(dictionary, nodes, names)
  {
    forall o, n | o in nodes
      ensures Found(dictionary, nodes[o], n) <==> n in Keys(nodes[o], names)
    {
      assert Agrees(nodes[o]);
      LookupFindsKeys(dictionary, names, users, nodes, o, n);
    }
    forall n
      ensures n in dictionary <==> exists o :: o in nodes && n in Keys(nodes[o], names)
    {
      DictionaryExact(dictionary, names, users, nodes, next, n);
    }
  }

  /** Makes the changes of a run one after the other; a change to a value that is gone, or not there
      yet, is passed over. In the end, and so after every change on the way, lookups, iterators and
      dictionary agree; every value has the keys that its own changes make of those it had; and a new
      property never gets a position that its object gave out before. */
  method MakeAll(store: PropertyStore, run: seq<Request>) returns (answers: seq<Answer>, ghost made: seq<Request>)
    requires store.Valid()
    modifies store
    ensures store.Valid() && AllAgree(store.dictionary, store.nodes, store.names)
    ensures forall o :: o in store.nodes ==> Followed(old(store.nodes), old(store.names), made, store.nodes, store.names, o)
    ensures forall o :: o in store.nodes && o in old(store.nodes) ==> Own(made, o) == Own(run, o)
    ensures Forward(answers, store.nodes)
  {
    answers, made := [], [];
    ghost var nodes0, names0 := store.nodes, store.names;
    ConsistentAgree(store.dictionary, store.names, store.users, store.nodes, store.next);
    for i := 0 to |run|
      invariant store.Valid() && AllAgree(store.dictionary, store.nodes, store.names)
      invariant Underway(nodes0, names0, run[..i], made, answers, store.nodes, store.names, store.next)
    {
      var r := run[i];
      TakeNext(run, i);
      ghost var nodes, names, next := store.nodes, store.names, store.next;
      if r.at in store.nodes {
        var more := Make(store, r);
        UnderwayStep(nodes0, names0, run[..i], made, answers, nodes, names, next, r, more, store.nodes, store.names, store.next);
        answers, made := answers + more, made + [r];
        ConsistentAgree(store.dictionary, store.names, store.users, store.nodes, store.next);
      } else {
        UnderwaySkip(nodes0, names0, run[..i], made, answers, nodes, names, next, r);
      }
    }
    Whole(run);
  }

  /** What the store says after any run, about any object that had no properties at its start: its keys
      come in the order of their latest insertion among its own changes, and each name that is still
      inserted is one of them. */
  lemma RunInOrder(nodes0: Nodes, names0: map<Index, Name>, made: seq<Request>, nodes: Nodes, names: map<Index, Name>, o: Index)
    requires o in nodes && Followed(nodes0, names0, made, nodes, names, o) && Before(nodes0, names0, o) == []
    ensures InOrder(Own(made, o), Keys(nodes[o], names))
    ensures forall n :: n in Keys(nodes[o], names) <==> Since(Own(made, o), n) > 0
  {
    LatestInsertionOrder(Own(made, o));
  }
}
