/**
  What scanning a trie means, and the steps of a scan. `toward` is the bit a scan turns to:
  true for the forward scan, false for the backward one. A scan descends preferring the other
  bit, stops at the first complete key, and on its way up turns at the first branch that was
  entered by the other bit and has a child on the side turned to.
 */
module Scanning {
  import opened BitWords
  import opened Nesting
  import opened Trie

  /** A key that a scan may come to from the word w0: beside the keys that w0 runs through, or
      below the start. */
  ghost predicate CandidateIn(br: Branches, start: nat, w0: Word, l: Word)
    requires WellLinked(br) && start in br
  {
    Candidate(w0, l) && Leads(br, start, l)
  }

  /** From a single key, or from the start, the candidates are the keys below the start. */
  lemma CandidatesIn(br: Branches, start: nat, w0: Word)
    requires WellLinked(br) && start in br && Single(w0)
    ensures forall l :: CandidateIn(br, start, w0, l) <==> KeyIn(br, start, l)
  {
    forall l
      ensures CandidateIn(br, start, w0, l) <==> KeyIn(br, start, l)
    {
      CandidatesAreKeys(w0, l);
    }
  }

  /** k is the first key after the word w0 in the scan. */
  ghost predicate Nearest(toward: bool, br: Branches, start: nat, w0: Word, k: Word)
    requires WellLinked(br) && start in br
  {
    && CandidateIn(br, start, w0, k) && After(toward, w0, k)
    && forall l :: CandidateIn(br, start, w0, l) && After(toward, w0, l) ==> l == k || Beside(toward, k, l)
  }

  /** No key comes after the word w0 in the scan. */
  ghost predicate NoneLeft(toward: bool, br: Branches, start: nat, w0: Word)
    requires WellLinked(br) && start in br
  {
    forall l :: CandidateIn(br, start, w0, l) ==> !After(toward, w0, l)
  }

  /** Every key after w0 lies beside c: what is below c is done with. */
  ghost predicate RestBeside(toward: bool, br: Branches, start: nat, w0: Word, c: Word)
    requires WellLinked(br) && start in br
  {
    forall l :: CandidateIn(br, start, w0, l) && After(toward, w0, l) ==> Beside(toward, c, l)
  }

  /** Every key after w0 lies after c: what is below c is still to be seen. */
  ghost predicate RestAfter(toward: bool, br: Branches, start: nat, w0: Word, c: Word)
    requires WellLinked(br) && start in br
  {
    forall l :: CandidateIn(br, start, w0, l) && After(toward, w0, l) ==> After(toward, c, l)
  }

  /** Branches beside c that a scan has not entered yet. */
  ghost predicate FreshBeside(toward: bool, br: Branches, start: nat, c: Word, todo: set<nat>)
    requires WellLinked(br) && start in br
  {
    forall v :: Leads(br, start, v) && Beside(toward, c, v) ==> Walk(br, start, v).value in todo
  }

  ghost predicate FreshAfter(toward: bool, br: Branches, start: nat, c: Word, todo: set<nat>)
    requires WellLinked(br) && start in br
  {
    forall v :: Leads(br, start, v) && After(toward, c, v) ==> Walk(br, start, v).value in todo
  }

  /** Being beside c keeps a word after w0. */
  ghost predicate OnwardBeside(toward: bool, w0: Word, c: Word) {
    forall v :: Beside(toward, c, v) ==> After(toward, w0, v)
  }

  ghost predicate OnwardAfter(toward: bool, w0: Word, c: Word) {
    forall v :: After(toward, c, v) ==> After(toward, w0, v)
  }

  lemma AfterTransitive(toward: bool, u: Word, v: Word, w: Word)
    requires After(toward, u, v) && After(toward, v, w)
    ensures After(toward, u, w)
  {
    if ProperPrefix(u, v) && ProperPrefix(v, w) {
      assert w[..|v|][..|u|] == w[..|u|];
    } else if ProperPrefix(u, v) {
      // w lies beside v: below u or beside it
      var i: nat :| DivergeAt(toward, v, w, i);
      if i >= |u| {
        assert w[..i][..|u|] == v[..i][..|u|];
        assert w[..|u|] == w[..i][..|u|] && v[..|u|] == v[..i][..|u|];
      } else {
        assert u[..i] == v[..|u|][..i] == v[..i];
        assert u[i] == v[..|u|][i] == v[i];
        assert DivergeAt(toward, u, w, i);
      }
    } else if ProperPrefix(v, w) {
      BesideExtend(toward, u, v, w);
    } else {
      BesideTransitive(toward, u, v, w);
    }
  }

  // ----- steps

  lemma Pop(toward: bool, br: Branches, start: nat, w0: Word, u: Word, b: bool, todo: set<nat>)
    requires WellLinked(br) && start in br
    requires OnwardBeside(toward, w0, u + [b]) && FreshBeside(toward, br, start, u + [b], todo)
    ensures OnwardBeside(toward, w0, u) && FreshBeside(toward, br, start, u, todo)
  {
    forall v | Beside(toward, u, v)
      ensures Beside(toward, u + [b], v)
    {
      BesideLast(toward, u, b, v);
    }
  }

  /** Going up without turning: nothing is left behind. */
  lemma PopCovers(toward: bool, br: Branches, start: nat, w0: Word, u: Word, b: bool)
    requires WellLinked(br) && start in br && RestBeside(toward, br, start, w0, u + [b])
    requires b == toward || !Leads(br, start, u + [toward])
    ensures RestBeside(toward, br, start, w0, u)
  {
    forall l | CandidateIn(br, start, w0, l) && After(toward, w0, l)
      ensures Beside(toward, u, l)
    {
      BesideLast(toward, u, b, l);
      if ProperPrefix(u + [toward], l) {
        WalkPrefix(br, start, l, |u| + 1);
      }
    }
  }

  /** Entering a child: its word and what comes after it. */
  lemma Enter(toward: bool, br: Branches, start: nat, c: Word, todo: set<nat>)
    requires WellLinked(br) && start in br && Leads(br, start, c)
    requires forall v :: Leads(br, start, v) && (v == c || After(toward, c, v)) ==> Walk(br, start, v).value in todo
    ensures Walk(br, start, c).value in todo
    ensures FreshAfter(toward, br, start, c, todo - {Walk(br, start, c).value})
  {
    forall v | Leads(br, start, v) && After(toward, c, v)
      ensures Walk(br, start, v).value in todo - {Walk(br, start, c).value}
    {
      if Walk(br, start, v) == Walk(br, start, c) {
        WalkInjective(br, start, c, v);
        AfterIrreflexive(toward, c);
      }
    }
  }

  lemma AfterIrreflexive(toward: bool, c: Word)
    ensures !After(toward, c, c)
  {
    if Beside(toward, c, c) {
      BesideIrreflexive(toward, c, c);
    }
  }

  /** What is after the child on the side turned to, seen from the child left behind. */
  lemma TurnAfter(toward: bool, u: Word, v: Word)
    ensures Beside(toward, u + [!toward], v) <==> v == u + [toward] || After(toward, u + [toward], v)
  {
    BesideLast(toward, u, !toward, v);
    BesideLast(toward, u, toward, v);
  }

  lemma Turn(toward: bool, br: Branches, start: nat, w0: Word, u: Word, todo: set<nat>)
    requires WellLinked(br) && start in br && Leads(br, start, u + [toward])
    requires OnwardBeside(toward, w0, u + [!toward]) && FreshBeside(toward, br, start, u + [!toward], todo)
    ensures OnwardAfter(toward, w0, u + [toward]) && After(toward, w0, u + [toward])
    ensures var x := Walk(br, start, u + [toward]).value;
            x in todo && FreshAfter(toward, br, start, u + [toward], todo - {x})
  {
    forall v
      ensures Beside(toward, u + [!toward], v) <==> v == u + [toward] || After(toward, u + [toward], v)
    {
      TurnAfter(toward, u, v);
    }
    var left := u + [!toward];
    forall v | Leads(br, start, v) && (v == u + [toward] || After(toward, u + [toward], v))
      ensures Walk(br, start, v).value in todo
    {
      TurnAfter(toward, u, v);
      assert Beside(toward, left, v);
    }
    Enter(toward, br, start, u + [toward], todo);
  }

  /** Turning covers what was beside, unless the child turned to is itself a key. */
  lemma TurnCovers(toward: bool, br: Branches, start: nat, w0: Word, u: Word)
    requires WellLinked(br) && start in br && RestBeside(toward, br, start, w0, u + [!toward])
    requires Level(u + [toward]) > 0
    ensures RestAfter(toward, br, start, w0, u + [toward])
  {
    forall l | CandidateIn(br, start, w0, l) && After(toward, w0, l)
      ensures After(toward, u + [toward], l)
    {
      TurnAfter(toward, u, l);
      CandidateLevel(w0, l);
    }
  }

  /** What is after c, seen from the child a descent enters. */
  lemma DescendAfter(toward: bool, br: Branches, start: nat, c: Word, b: bool, v: Word)
    requires WellLinked(br) && start in br
    requires b == !toward || !Leads(br, start, c + [!toward])
    ensures v == c + [b] || After(toward, c + [b], v) ==> After(toward, c, v)
    ensures Leads(br, start, v) && After(toward, c, v) ==> v == c + [b] || After(toward, c + [b], v)
  {
    var cb := c + [b];
    assert cb[..|c|] == c;
    BesideLast(toward, c, b, v);
    if ProperPrefix(cb, v) {
      assert v[..|cb|][..|c|] == v[..|c|];
    }
    if Leads(br, start, v) && ProperPrefix(c, v) {
      BelowSplits(c, v);
      WalkPrefix(br, start, v, |c| + 1);
    }
    if v == c + [toward] || ProperPrefix(c + [toward], v) {
      assert v[..|c| + 1] == c + [toward];
      assert v[..|c|] == v[..|c| + 1][..|c|];
    }
  }

  lemma Descend(toward: bool, br: Branches, start: nat, w0: Word, c: Word, b: bool, todo: set<nat>)
    requires WellLinked(br) && start in br && Leads(br, start, c + [b])
    requires b == !toward || !Leads(br, start, c + [!toward])
    requires OnwardAfter(toward, w0, c) && FreshAfter(toward, br, start, c, todo)
    ensures OnwardAfter(toward, w0, c + [b]) && After(toward, w0, c + [b])
    ensures var x := Walk(br, start, c + [b]).value; x in todo && FreshAfter(toward, br, start, c + [b], todo - {x})
  {
    forall v
      ensures v == c + [b] || After(toward, c + [b], v) ==> After(toward, c, v)
    {
      DescendAfter(toward, br, start, c, b, v);
    }
    Enter(toward, br, start, c + [b], todo);
  }

  /** A descent either completes the nearest key or keeps all remaining keys after its word. */
  lemma DescendCovers(toward: bool, br: Branches, start: nat, w0: Word, c: Word, b: bool)
    requires WellLinked(br) && start in br && Leads(br, start, c + [b])
    requires b == !toward || !Leads(br, start, c + [!toward])
    requires RestAfter(toward, br, start, w0, c) && Approach(w0, c) && Level(c + [b]) >= 0
    requires After(toward, w0, c + [b])
    ensures Level(c + [b]) > 0 ==> Approach(w0, c + [b]) && RestAfter(toward, br, start, w0, c + [b])
    ensures Level(c + [b]) == 0 ==> Nearest(toward, br, start, w0, c + [b])
  {
    var cb := c + [b];
    ApproachPush(w0, c, b);
    forall l | CandidateIn(br, start, w0, l) && After(toward, w0, l)
      ensures l == cb || After(toward, cb, l)
      ensures if Level(cb) > 0 then l != cb else l == cb || Beside(toward, cb, l)
    {
      DescendAfter(toward, br, start, c, b, l);
      CandidateLevel(w0, l);
      if Level(cb) == 0 {
        CandidatesApart(toward, w0, cb, l);
      }
    }
  }

  /** At a dead end nothing is below. */
  lemma Bottom(toward: bool, br: Branches, start: nat, w0: Word, c: Word, todo: set<nat>)
    requires WellLinked(br) && start in br && !Leads(br, start, c + [false]) && !Leads(br, start, c + [true])
    ensures OnwardAfter(toward, w0, c) ==> OnwardBeside(toward, w0, c)
    ensures FreshAfter(toward, br, start, c, todo) ==> FreshBeside(toward, br, start, c, todo)
    ensures RestAfter(toward, br, start, w0, c) ==> RestBeside(toward, br, start, w0, c)
  {
    forall v | Leads(br, start, v)
      ensures !ProperPrefix(c, v)
    {
      if |c| < |v| && c == v[..|c|] {
        BelowSplits(c, v);
        WalkPrefix(br, start, v, |c| + 1);
      }
    }
  }

  /** Where the scan starts: from the empty word everything is after, below a key nothing is. */
  lemma StartAt(toward: bool, br: Branches, start: nat, w0: Word)
    requires WellLinked(br) && start in br
    ensures OnwardAfter(toward, w0, w0) && OnwardBeside(toward, w0, w0)
    ensures RestAfter(toward, br, start, w0, w0)
    ensures w0 != [] && Level(w0) == 0 ==> RestBeside(toward, br, start, w0, w0)
    ensures FreshAfter(toward, br, start, w0, br.Keys) && FreshBeside(toward, br, start, w0, br.Keys)
  {
    forall l | w0 != [] && Level(w0) == 0 && CandidateIn(br, start, w0, l) && After(toward, w0, l)
      ensures Beside(toward, w0, l)
    {
      CandidateBeside(toward, w0, l);
    }
  }

  /** Nothing lies beside the empty word: a scan that is back at the start is over. */
  lemma BackAtStart(toward: bool, br: Branches, start: nat, w0: Word)
    requires WellLinked(br) && start in br && RestBeside(toward, br, start, w0, [])
    ensures NoneLeft(toward, br, start, w0)
  {
    forall l | CandidateIn(br, start, w0, l)
      ensures !After(toward, w0, l)
    {
      assert forall i: nat :: !DivergeAt(toward, [], l, i);
    }
  }

  // ----- keys in a row

  /** From a key below other keys, the scan goes on to the next key beside it there. */
  lemma NestedGoesOn(toward: bool, br: Branches, start: nat, b: Word, k: Word, l: Word)
    requires WellLinked(br) && start in br && Balanced(b) && b != [] && IsKey(k)
    requires Leads(br, start, b) && Nearest(toward, br, Walk(br, start, b).value, k, l)
    ensures Nearest(toward, br, start, b + k, b + l)
  {
    NestedMember(toward, br, start, b, k, b + l);
    Behind(b, l);
    CandidatesAreKeys(k, l);
    forall m | CandidateIn(br, start, b + k, m) && After(toward, b + k, m)
      ensures m == b + l || Beside(toward, b + l, m)
    {
      NestedMember(toward, br, start, b, k, m);
      if b <= m && NestedIn(toward, br, start, b, k, m[|b|..]) {
        NestedRest(toward, b, l, m);
      } else {
        BesideExtendLeft(toward, b, m, b + l);
      }
    }
  }

  lemma Behind(b: Word, l: Word)
    ensures b <= b + l && (b + l)[|b|..] == l && (l != [] ==> ProperPrefix(b, b + l))
  {
  }

  lemma NestedRest(toward: bool, b: Word, l: Word, m: Word)
    requires b <= m && (m[|b|..] == l || Beside(toward, l, m[|b|..]))
    ensures m == b + l || Beside(toward, b + l, m)
  {
    assert m == b + m[|b|..];
    BesideBehind(toward, b, l, m[|b|..]);
  }

  /** Where no key is left there, the scan goes on above, as from the keys above. */
  lemma NestedRises(toward: bool, br: Branches, start: nat, b: Word, k: Word)
    requires WellLinked(br) && start in br && Balanced(b) && b != [] && IsKey(k)
    requires Leads(br, start, b) && NoneLeft(toward, br, Walk(br, start, b).value, k)
    ensures NoneLeft(toward, br, start, b + k) <==> NoneLeft(toward, br, start, b)
    ensures forall l :: Nearest(toward, br, start, b + k, l) <==> Nearest(toward, br, start, b, l)
  {
    forall m
      ensures CandidateIn(br, start, b + k, m) && After(toward, b + k, m) <==>
              CandidateIn(br, start, b, m) && After(toward, b, m)
    {
      NestedMember(toward, br, start, b, k, m);
    }
  }

  /** A key after k below the branch that b leads to. */
  ghost predicate NestedIn(toward: bool, br: Branches, start: nat, b: Word, k: Word, l: Word)
    requires WellLinked(br) && start in br && Leads(br, start, b)
  {
    CandidateIn(br, Walk(br, start, b).value, k, l) && After(toward, k, l)
  }

  /** What a scan has before it at the key k below b: the keys after k there, and what it has before
      it at b. */
  lemma NestedMember(toward: bool, br: Branches, start: nat, b: Word, k: Word, m: Word)
    requires WellLinked(br) && start in br && Balanced(b) && b != [] && IsKey(k) && Leads(br, start, b)
    ensures CandidateIn(br, start, b + k, m) && After(toward, b + k, m) <==>
            || (b <= m && NestedIn(toward, br, start, b, k, m[|b|..]))
            || (CandidateIn(br, start, b, m) && After(toward, b, m))
    ensures CandidateIn(br, start, b, m) && After(toward, b, m) ==> Beside(toward, b, m)
  {
    CandidateSplits(b, k, m);
    if Candidate(b, m) { CandidateAbove(toward, b, k, m); }
    if b <= m { NestedBelow(toward, br, start, b, k, m[|b|..], m); }
  }

  lemma NestedBelow(toward: bool, br: Branches, start: nat, b: Word, k: Word, l: Word, m: Word)
    requires WellLinked(br) && start in br && IsKey(k) && Leads(br, start, b) && b <= m && l == m[|b|..]
    ensures NestedIn(toward, br, start, b, k, l) <==> IsKey(l) && Leads(br, start, m) && After(toward, b + k, m)
  {
    assert m == b + l;
    CandidatesAreKeys(k, l);
    WalkConcat(br, start, b, l);
    AfterBehind(toward, b, k, l);
  }
}
