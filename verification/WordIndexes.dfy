/**
  The word index of the JSON layer: for every word, how often it was registered below every ancestor.
  Adding walks the ancestors and then the words; removing walks the words and then the ancestors, and
  clears entries that reach zero.
 */
module WordIndexes {
  import opened PropertyIndexes
  import opened Sequences

  type Words = map<Name, map<Index, nat>>

  // ----- the ancestors that count

  /** Neither a root nor directly below one. */
  predicate Deep(nodes: Nodes, d: Index) {
    && d in nodes && nodes[d].up < d
    && nodes[d].up in nodes && nodes[nodes[d].up].up < nodes[d].up
  }

  /** A value and the ancestors its words are counted for. */
  function Chain(nodes: Nodes, d: Index): seq<Index>
    decreases d
  {
    if Deep(nodes, d) then [d] + Chain(nodes, nodes[d].up) else []
  }

  function Occurrences<T(==)>(s: seq<T>, x: T): (n: nat)
    ensures n == multiset(s)[x]
  {
    if s == [] then 0
    else
      Snoc(s);
      Occurrences(s[..|s| - 1], x) + if s[|s| - 1] == x then 1 else 0
  }

  lemma OccurrencesPush<T>(s: seq<T>, y: T, x: T)
    ensures Occurrences(s + [y], x) == Occurrences(s, x) + if y == x then 1 else 0
  {
    assert (s + [y])[..|s|] == s;
  }

  lemma {:induction false} OccurrencesCons<T>(y: T, s: seq<T>, x: T)
    ensures Occurrences([y] + s, x) == Occurrences(s, x) + if y == x then 1 else 0
  {
    if s == [] {
      OccurrencesPush([], y, x);
      assert [] + [y] == [y] + [];
    } else {
      var front, last := s[..|s| - 1], s[|s| - 1];
      assert [y] + s == ([y] + front) + [last];
      OccurrencesCons(y, front, x);
      OccurrencesPush([y] + front, last, x);
    }
  }

  /** A value is counted for what is registered at d: it is at or above d, and it, its parent and its
      parent's parent are three different values. */
  predicate Counted(nodes: Nodes, d: Index, a: Index) {
    && Under(nodes, a, d) && a in nodes && nodes[a].up in nodes
    && a != nodes[a].up && nodes[a].up != nodes[nodes[a].up].up && a != nodes[nodes[a].up].up
  }

  /** The chain holds exactly the values that are counted, each once. */
  lemma ChainIsAncestors(nodes: Nodes, d: Index, a: Index)
    requires Forest(nodes) && d in nodes
    ensures Occurrences(Chain(nodes, d), a) == if Counted(nodes, d, a) then 1 else 0
  {
    ChainDeep(nodes, d, a);
    if a in nodes {
      assert Hung(nodes, a);
      assert Hung(nodes, nodes[a].up);
    }
  }

  /** A value that is its own parent, or has such a parent. */
  predicate NearRoot(nodes: Nodes, d: Index) {
    d in nodes && nodes[d].up in nodes && (nodes[d].up == d || nodes[nodes[d].up].up == nodes[d].up)
  }

  /** At a root and directly below one there is nothing to count. */
  lemma ShallowChain(nodes: Nodes, d: Index)
    requires NearRoot(nodes, d)
    ensures Chain(nodes, d) == []
  {
  }

  lemma {:induction false} ChainDeep(nodes: Nodes, d: Index, a: Index)
    requires Forest(nodes) && d in nodes
    ensures Occurrences(Chain(nodes, d), a) == if Under(nodes, a, d) && Deep(nodes, a) then 1 else 0
    decreases d
  {
    assert Hung(nodes, d);
    if Deep(nodes, d) {
      var up := nodes[d].up;
      ChainDeep(nodes, up, a);
      OccurrencesCons(d, Chain(nodes, up), a);
      if a == d && Under(nodes, d, up) {
        UnderAtLeast(nodes, d, up);
      }
    } else if Under(nodes, a, d) {
      ShallowAbove(nodes, d, a);
    }
  }

  lemma {:induction false} ShallowAbove(nodes: Nodes, d: Index, a: Index)
    requires Forest(nodes) && d in nodes && !Deep(nodes, d) && Under(nodes, a, d)
    ensures !Deep(nodes, a)
    decreases d
  {
    assert Hung(nodes, d);
    if a != d {
      assert Hung(nodes, nodes[d].up);
      ShallowAbove(nodes, nodes[d].up, a);
    }
  }

  // ----- the counts

  function Stored(words: Words, w: Name, id: Index): nat {
    if w in words && id in words[w] then words[w][id] else 0
  }

  /** No entry is zero and no word is empty. */
  predicate Tidy(words: Words) {
    && (forall w :: w in words ==> words[w] != map[])
    && (forall w, id :: w in words && id in words[w] ==> words[w][id] > 0)
  }

  function Bumped(words: Words, w: Name, id: Index): Words {
    var counts: map<Index, nat> := if w in words then words[w] else map[];
    words[w := counts[id := Stored(words, w, id) + 1]]
  }

  /** One less for an entry; an entry that reaches zero is cleared, and so is a word without entries. */
  function Dropped(words: Words, w: Name, id: Index): Words {
    if w !in words || id !in words[w] then words
    else
      var counts: map<Index, nat> := words[w];
      if counts[id] > 1 then words[w := counts[id := counts[id] - 1]]
      else if counts - {id} == map[] then words - {w}
      else words[w := counts - {id}]
  }

  lemma BumpedStored(words: Words, w: Name, id: Index, v: Name, i: Index)
    ensures Stored(Bumped(words, w, id), v, i) == Stored(words, v, i) + if v == w && i == id then 1 else 0
  {
  }

  lemma BumpedTidy(words: Words, w: Name, id: Index)
    requires Tidy(words)
    ensures Tidy(Bumped(words, w, id))
  {
    assert id in Bumped(words, w, id)[w];
  }

  function Less(a: nat, b: nat): nat {
    if a > b then a - b else 0
  }

  lemma DroppedStored(words: Words, w: Name, id: Index, v: Name, i: Index)
    requires Tidy(words)
    ensures Stored(Dropped(words, w, id), v, i) == Less(Stored(words, v, i), if v == w && i == id then 1 else 0)
  {
    if w in words && words[w] - {id} == map[] {
      assert forall x :: x in words[w] && x != id ==> x in words[w] - {id};
    }
  }

  lemma DroppedTidy(words: Words, w: Name, id: Index)
    requires Tidy(words)
    ensures Tidy(Dropped(words, w, id))
  {
  }

  // ----- registrations

  /** The words of one value, and the ids of the ancestors they are counted for. */
  datatype Registration = Registration(chain: seq<Index>, tokens: seq<Name>)

  function Weight(r: Registration, w: Name, id: Index): nat {
    Times(Occurrences(r.tokens, w), Occurrences(r.chain, id))
  }

  function Times(a: nat, b: nat): nat {
    if b == 0 then 0 else Times(a, b - 1) + a
  }

  lemma {:induction false} TimesStep(a: nat, b: nat)
    ensures Times(a + 1, b) == Times(a, b) + b && Times(0, b) == 0
  {
    if b > 0 {
      TimesStep(a, b - 1);
    }
  }

  function Count(live: seq<Registration>, w: Name, id: Index): nat {
    if live == [] then 0 else Count(live[..|live| - 1], w, id) + Weight(live[|live| - 1], w, id)
  }

  lemma {:induction false} CountConcat(u: seq<Registration>, v: seq<Registration>, w: Name, id: Index)
    ensures Count(u + v, w, id) == Count(u, w, id) + Count(v, w, id)
  {
    if v == [] {
      assert u + v == u;
    } else {
      var front, last := v[..|v| - 1], v[|v| - 1];
      CountConcat(u, front, w, id);
      assert (u + v)[..|u + v| - 1] == u + front;
    }
  }

  /** Taking one registration out takes its weight off. */
  lemma CountWithout(live: seq<Registration>, k: nat, w: Name, id: Index)
    requires k < |live|
    ensures Count(live, w, id) == Count(live[..k] + live[k + 1..], w, id) + Weight(live[k], w, id)
  {
    assert live == live[..k] + ([live[k]] + live[k + 1..]);
    CountConcat(live[..k], [live[k]] + live[k + 1..], w, id);
    CountConcat([live[k]], live[k + 1..], w, id);
    CountConcat(live[..k], live[k + 1..], w, id);
    assert [live[k]][..0] == [];
  }

  /** The index holds exactly the counts of the live registrations. */
  ghost predicate Matches(words: Words, live: seq<Registration>) {
    forall w, id {:trigger Stored(words, w, id)} :: Stored(words, w, id) == Count(live, w, id)
  }

  lemma WeightPush(tokens: seq<Name>, done: seq<Index>, d: Index, w: Name, i: Index)
    ensures Weight(Registration(done + [d], tokens), w, i)
            == Weight(Registration(done, tokens), w, i) + if i == d then Occurrences(tokens, w) else 0
  {
    OccurrencesPush(done, d, i);
  }

  lemma WeightPushToken(tokens: seq<Name>, t: Name, chain: seq<Index>, w: Name, i: Index)
    ensures Weight(Registration(chain, tokens + [t]), w, i)
            == Weight(Registration(chain, tokens), w, i) + if w == t then Occurrences(chain, i) else 0
  {
    OccurrencesPush(tokens, t, w);
    TimesStep(Occurrences(tokens, w), Occurrences(chain, i));
  }

  /** What a registration counts for: its words, for every value that is counted for it. */
  lemma WeightBelow(nodes: Nodes, d: Index, tokens: seq<Name>, w: Name, a: Index)
    requires Forest(nodes) && d in nodes
    ensures Weight(Registration(Chain(nodes, d), tokens), w, a)
            == if Counted(nodes, d, a) then Occurrences(tokens, w) else 0
  {
    ChainIsAncestors(nodes, d, a);
    assert Times(Occurrences(tokens, w), 1) == Times(Occurrences(tokens, w), 0) + Occurrences(tokens, w);
  }

  // ----- what the loops compute

  function AddedTokens(words: Words, tokens: seq<Name>, id: Index): Words {
    if tokens == [] then words
    else Bumped(AddedTokens(words, tokens[..|tokens| - 1], id), tokens[|tokens| - 1], id)
  }

  function AddedAlong(words: Words, tokens: seq<Name>, chain: seq<Index>): Words {
    if chain == [] then words
    else AddedTokens(AddedAlong(words, tokens, chain[..|chain| - 1]), tokens, chain[|chain| - 1])
  }

  function DroppedAlong(words: Words, word: Name, chain: seq<Index>): Words {
    if chain == [] then words
    else Dropped(DroppedAlong(words, word, chain[..|chain| - 1]), word, chain[|chain| - 1])
  }

  function DroppedTokens(words: Words, tokens: seq<Name>, chain: seq<Index>): Words {
    if tokens == [] then words
    else DroppedAlong(DroppedTokens(words, tokens[..|tokens| - 1], chain), tokens[|tokens| - 1], chain)
  }

  lemma {:induction false} AddedTokensStored(words: Words, tokens: seq<Name>, id: Index, w: Name, i: Index)
    requires Tidy(words)
    ensures Tidy(AddedTokens(words, tokens, id))
    ensures Stored(AddedTokens(words, tokens, id), w, i) == Stored(words, w, i) + if i == id then Occurrences(tokens, w) else 0
  {
    if tokens != [] {
      var front, last := tokens[..|tokens| - 1], tokens[|tokens| - 1];
      AddedTokensStored(words, front, id, w, i);
      BumpedTidy(AddedTokens(words, front, id), last, id);
      BumpedStored(AddedTokens(words, front, id), last, id, w, i);
    }
  }

  /** Adding raises every entry by the weight of the registration. */
  lemma {:induction false} AddedAlongStored(words: Words, tokens: seq<Name>, chain: seq<Index>, w: Name, i: Index)
    requires Tidy(words)
    ensures Tidy(AddedAlong(words, tokens, chain))
    ensures Stored(AddedAlong(words, tokens, chain), w, i) == Stored(words, w, i) + Weight(Registration(chain, tokens), w, i)
  {
    if chain != [] {
      var front, last := chain[..|chain| - 1], chain[|chain| - 1];
      AddedAlongStored(words, tokens, front, w, i);
      AddedTokensStored(AddedAlong(words, tokens, front), tokens, last, w, i);
      WeightPush(tokens, front, last, w, i);
      assert chain == front + [last];
    }
  }

  lemma {:induction false} DroppedAlongStored(words: Words, word: Name, chain: seq<Index>, w: Name, i: Index)
    requires Tidy(words)
    ensures Tidy(DroppedAlong(words, word, chain))
    ensures Stored(DroppedAlong(words, word, chain), w, i) == Less(Stored(words, w, i), if w == word then Occurrences(chain, i) else 0)
  {
    if chain != [] {
      var front, last := chain[..|chain| - 1], chain[|chain| - 1];
      DroppedAlongStored(words, word, front, w, i);
      DroppedTidy(DroppedAlong(words, word, front), word, last);
      DroppedStored(DroppedAlong(words, word, front), word, last, w, i);
    }
  }

  /** Removing lowers every entry by the weight of the registration, but not below zero. */
  lemma {:induction false} DroppedTokensStored(words: Words, tokens: seq<Name>, chain: seq<Index>, w: Name, i: Index)
    requires Tidy(words)
    ensures Tidy(DroppedTokens(words, tokens, chain))
    ensures Stored(DroppedTokens(words, tokens, chain), w, i) == Less(Stored(words, w, i), Weight(Registration(chain, tokens), w, i))
  {
    if tokens == [] {
      TimesStep(0, Occurrences(chain, i));
    } else {
      var front, last := tokens[..|tokens| - 1], tokens[|tokens| - 1];
      DroppedTokensStored(words, front, chain, w, i);
      DroppedAlongStored(DroppedTokens(words, front, chain), last, chain, w, i);
      WeightPushToken(front, last, chain, w, i);
      assert tokens == front + [last];
    }
  }

  /** Nothing is taken off a word that is not there. */
  lemma {:induction false} DroppedAbsent(words: Words, word: Name, chain: seq<Index>)
    requires word !in words
    ensures DroppedAlong(words, word, chain) == words
  {
    if chain != [] {
      DroppedAbsent(words, word, chain[..|chain| - 1]);
    }
  }

  /** Entries are equal when all counts are. */
  lemma TidyEqual(a: Words, b: Words)
    requires Tidy(a) && Tidy(b) && forall w, i {:trigger Stored(a, w, i)} :: Stored(a, w, i) == Stored(b, w, i)
    ensures a == b
  {
    forall w
      ensures w in a <==> w in b
      ensures w in a && w in b ==> a[w] == b[w]
    {
      if w in a {
        var i :| i in a[w];
        assert Stored(a, w, i) > 0;
      }
      if w in b {
        var i :| i in b[w];
        assert Stored(a, w, i) == Stored(b, w, i) > 0;
      }
      if w in a && w in b {
        forall i
          ensures i in a[w] <==> i in b[w]
          ensures i in a[w] && i in b[w] ==> a[w][i] == b[w][i]
        {
          assert Stored(a, w, i) == Stored(b, w, i);
        }
      }
    }
  }

  /** One more ancestor in the chain. */
  lemma ChainStep(nodes: Nodes, d: Index, done: seq<Index>)
    requires Deep(nodes, d)
    ensures done + Chain(nodes, d) == (done + [d]) + Chain(nodes, nodes[d].up)
  {
  }

  class WordIndex {
    var words: Words
    ghost var live: seq<Registration>

    ghost predicate Valid()
      reads this
    {
      Tidy(words) && Matches(words, live)
    }

    constructor ()
      ensures Valid() && live == []
    {
      words, live := map[], [];
    }

    method AddAt(tokens: seq<Name>, id: Index)
      modifies `words
      ensures words == AddedTokens(old(words), tokens, id)
    {
      for a := 0 to |tokens|
        invariant words == AddedTokens(old(words), tokens[..a], id)
      {
        assert tokens[..a + 1][..a] == tokens[..a];
        words := Bumped(words, tokens[a], id);
      }
      Whole(tokens);
    }

    /** Counts the words for a value and its ancestors. */
    method AddWords(nodes: Nodes, d: Index, tokens: seq<Name>)
      requires Valid()
      modifies this
      ensures Valid() && words == AddedAlong(old(words), tokens, Chain(nodes, d))
      ensures live == old(live) + [Registration(Chain(nodes, d), tokens)]
      ensures Forest(nodes) && d in nodes ==>
                forall w, a {:trigger Stored(words, w, a)} ::
                  Stored(words, w, a) == Stored(old(words), w, a) + if Counted(nodes, d, a) then Occurrences(tokens, w) else 0
      ensures NearRoot(nodes, d) ==> words == old(words)
    {
      var json := d;
      ghost var done: seq<Index> := [];
      assert done + Chain(nodes, d) == Chain(nodes, d);
      while Deep(nodes, json)
        invariant done + Chain(nodes, json) == Chain(nodes, d) && words == AddedAlong(old(words), tokens, done)
        invariant live == old(live)
        decreases json
      {
        assert (done + [json])[..|done|] == done;
        AddAt(tokens, json);
        ChainStep(nodes, json, done);
        done := done + [json];
        json := nodes[json].up;
      }
      assert done == Chain(nodes, d);
      live := live + [Registration(done, tokens)];
      AddMatches(old(words), old(live), tokens, done);
      AddedExactly(nodes, d, old(words), tokens);
    }

    method RemoveWord(nodes: Nodes, d: Index, word: Name)
      modifies `words
      ensures words == DroppedAlong(old(words), word, Chain(nodes, d))
    {
      if word !in words {
        DroppedAbsent(words, word, Chain(nodes, d));
        return;
      }
      var json := d;
      ghost var done: seq<Index> := [];
      assert done + Chain(nodes, d) == Chain(nodes, d);
      while Deep(nodes, json)
        invariant done + Chain(nodes, json) == Chain(nodes, d) && words == DroppedAlong(old(words), word, done)
        decreases json
      {
        assert (done + [json])[..|done|] == done;
        words := Dropped(words, word, json);
        ChainStep(nodes, json, done);
        done := done + [json];
        json := nodes[json].up;
      }
      assert done == Chain(nodes, d);
    }

    /** Takes the words off a value and its ancestors; k is where the registration stands among the live ones. */
    method RemoveWords(nodes: Nodes, d: Index, tokens: seq<Name>, ghost k: nat)
      requires Valid() && k < |live| && live[k] == Registration(Chain(nodes, d), tokens)
      modifies this
      ensures Valid() && words == DroppedTokens(old(words), tokens, Chain(nodes, d))
      ensures live == old(live)[..k] + old(live)[k + 1..]
      ensures Forest(nodes) && d in nodes ==>
                forall w, a {:trigger Stored(words, w, a)} ::
                  Stored(words, w, a) == Stored(old(words), w, a) - if Counted(nodes, d, a) then Occurrences(tokens, w) else 0
      ensures NearRoot(nodes, d) ==> words == old(words)
    {
      for a := 0 to |tokens|
        invariant words == DroppedTokens(old(words), tokens[..a], Chain(nodes, d)) && live == old(live)
      {
        assert tokens[..a + 1][..a] == tokens[..a];
        RemoveWord(nodes, d, tokens[a]);
      }
      Whole(tokens);
      live := live[..k] + live[k + 1..];
      RemoveMatches(old(words), old(live), k);
      DroppedExactly(nodes, d, old(words), tokens, old(live), k);
    }
  }

  lemma AddedExactly(nodes: Nodes, d: Index, words: Words, tokens: seq<Name>)
    requires Tidy(words)
    ensures Forest(nodes) && d in nodes ==>
              forall w, a {:trigger Stored(AddedAlong(words, tokens, Chain(nodes, d)), w, a)} ::
                Stored(AddedAlong(words, tokens, Chain(nodes, d)), w, a)
                == Stored(words, w, a) + if Counted(nodes, d, a) then Occurrences(tokens, w) else 0
    ensures NearRoot(nodes, d) ==>
              AddedAlong(words, tokens, Chain(nodes, d)) == words
  {
    if Forest(nodes) && d in nodes {
      forall w, a
        ensures Stored(AddedAlong(words, tokens, Chain(nodes, d)), w, a)
                == Stored(words, w, a) + if Counted(nodes, d, a) then Occurrences(tokens, w) else 0
      {
        AddedAlongStored(words, tokens, Chain(nodes, d), w, a);
        WeightBelow(nodes, d, tokens, w, a);
      }
    }
    if NearRoot(nodes, d) {
      ShallowChain(nodes, d);
    }
  }

  /** What a live registration has been counted for can be taken off in full. */
  lemma DroppedExactly(nodes: Nodes, d: Index, words: Words, tokens: seq<Name>, live: seq<Registration>, k: nat)
    requires Tidy(words) && Matches(words, live) && k < |live| && live[k] == Registration(Chain(nodes, d), tokens)
    ensures Forest(nodes) && d in nodes ==>
              forall w, a {:trigger Stored(DroppedTokens(words, tokens, Chain(nodes, d)), w, a)} ::
                Stored(DroppedTokens(words, tokens, Chain(nodes, d)), w, a)
                == Stored(words, w, a) - if Counted(nodes, d, a) then Occurrences(tokens, w) else 0
    ensures NearRoot(nodes, d) ==>
              DroppedTokens(words, tokens, Chain(nodes, d)) == words
  {
    if Forest(nodes) && d in nodes {
      forall w, a
        ensures Stored(DroppedTokens(words, tokens, Chain(nodes, d)), w, a)
                == Stored(words, w, a) - if Counted(nodes, d, a) then Occurrences(tokens, w) else 0
      {
        DroppedTokensStored(words, tokens, Chain(nodes, d), w, a);
        WeightBelow(nodes, d, tokens, w, a);
        assert Stored(words, w, a) == Count(live, w, a);
        CountWithout(live, k, w, a);
      }
    }
    if NearRoot(nodes, d) {
      ShallowChain(nodes, d);
      NothingDropped(words, tokens);
    }
  }

  lemma {:induction false} NothingDropped(words: Words, tokens: seq<Name>)
    ensures DroppedTokens(words, tokens, []) == words
  {
    if tokens != [] {
      NothingDropped(words, tokens[..|tokens| - 1]);
    }
  }

  lemma AddMatches(words: Words, live: seq<Registration>, tokens: seq<Name>, chain: seq<Index>)
    requires Tidy(words) && Matches(words, live)
    ensures Tidy(AddedAlong(words, tokens, chain))
    ensures Matches(AddedAlong(words, tokens, chain), live + [Registration(chain, tokens)])
  {
    var r := Registration(chain, tokens);
    AddedAlongStored(words, tokens, chain, "", 0);
    forall w, i
      ensures Stored(AddedAlong(words, tokens, chain), w, i) == Count(live + [r], w, i)
    {
      AddedAlongStored(words, tokens, chain, w, i);
      assert Stored(words, w, i) == Count(live, w, i);
      assert (live + [r])[..|live|] == live;
    }
  }

  lemma RemoveMatches(words: Words, live: seq<Registration>, k: nat)
    requires Tidy(words) && Matches(words, live) && k < |live|
    ensures Tidy(DroppedTokens(words, live[k].tokens, live[k].chain))
    ensures Matches(DroppedTokens(words, live[k].tokens, live[k].chain), live[..k] + live[k + 1..])
  {
    var r := live[k];
    DroppedTokensStored(words, r.tokens, r.chain, "", 0);
    forall w, i
      ensures Stored(DroppedTokens(words, r.tokens, r.chain), w, i) == Count(live[..k] + live[k + 1..], w, i)
    {
      DroppedTokensStored(words, r.tokens, r.chain, w, i);
      assert Stored(words, w, i) == Count(live, w, i);
      CountWithout(live, k, w, i);
    }
  }

  /** Removing what was just added leaves the index as it was. */
  lemma RemoveUndoesAdd(words: Words, tokens: seq<Name>, chain: seq<Index>)
    requires Tidy(words)
    ensures DroppedTokens(AddedAlong(words, tokens, chain), tokens, chain) == words
  {
    var more := AddedAlong(words, tokens, chain);
    var back := DroppedTokens(more, tokens, chain);
    AddedAlongStored(words, tokens, chain, "", 0);
    DroppedTokensStored(more, tokens, chain, "", 0);
    forall w, i
      ensures Stored(back, w, i) == Stored(words, w, i)
    {
      AddedAlongStored(words, tokens, chain, w, i);
      DroppedTokensStored(more, tokens, chain, w, i);
    }
    TidyEqual(back, words);
  }
}
