/**
  Whole scans: the loops that call `Next` or `Previous` until there is nothing left.
 */
module Scans {
  import opened BitWords
  import opened Nesting
  import opened PathBase
  import opened Paths
  import opened PowerEncoding
  import opened Scanning
  import opened Stacks
  import opened Trie

  /** Every key below the start exactly once, in the order of the scan. */
  ghost predicate Enumeration(toward: bool, br: Branches, start: nat, keys: seq<Word>)
    requires WellLinked(br) && start in br
  {
    && (forall k :: k in keys <==> KeyIn(br, start, k))
    && (forall i, j :: 0 <= i < j < |keys| ==> Beside(toward, keys[i], keys[j]))
  }

  /** The keys enumerated before a scan reached the word w, which is none or the last of them. */
  ghost predicate Enumerated(toward: bool, br: Branches, start: nat, keys: seq<Word>, w: Word)
    requires WellLinked(br) && start in br
  {
    && (forall k :: k in keys ==> KeyIn(br, start, k))
    && (forall k :: KeyIn(br, start, k) ==> k in keys || After(toward, w, k))
    && (forall i, j :: 0 <= i < j < |keys| ==> Beside(toward, keys[i], keys[j]))
    && (if keys == [] then w == [] else w == keys[|keys| - 1])
  }

  lemma EnumeratedStart(toward: bool, br: Branches, start: nat)
    requires WellLinked(br) && start in br
    ensures Enumerated(toward, br, start, [], [])
  {
  }

  lemma EnumeratedPush(toward: bool, br: Branches, start: nat, keys: seq<Word>, w: Word, k: Word)
    requires WellLinked(br) && start in br
    requires Enumerated(toward, br, start, keys, w) && Nearest(toward, br, start, w, k)
    ensures Enumerated(toward, br, start, keys + [k], k)
  {
    var keys' := keys + [k];
    EnumeratedSingle(toward, br, start, keys, w);
    CandidatesIn(br, start, w);
    if keys != [] {
      assert w in keys;
      KeysPrefixFree(w, k);
      assert Beside(toward, w, k);
    }
    forall i, j | 0 <= i < j < |keys'|
      ensures Beside(toward, keys'[i], keys'[j])
    {
      if j == |keys| && i < |keys| - 1 {
        BesideTransitive(toward, keys[i], w, k);
      }
    }
    forall l | KeyIn(br, start, l)
      ensures l in keys' || After(toward, k, l)
    {
      if l in keys { assert l in keys'; }
    }
  }

  lemma EnumeratedEnd(toward: bool, br: Branches, start: nat, keys: seq<Word>, w: Word)
    requires WellLinked(br) && start in br
    requires Enumerated(toward, br, start, keys, w) && NoneLeft(toward, br, start, w)
    ensures Enumeration(toward, br, start, keys)
  {
    EnumeratedSingle(toward, br, start, keys, w);
    CandidatesIn(br, start, w);
  }

  lemma EnumeratedSingle(toward: bool, br: Branches, start: nat, keys: seq<Word>, w: Word)
    requires WellLinked(br) && start in br && Enumerated(toward, br, start, keys, w)
    ensures Single(w) && (w == [] || KeyIn(br, start, w))
  {
    assert w != [] ==> w in keys;
  }

  /** Finishing with one word of a scan: its branch is not to be visited again. */
  lemma Visit(toward: bool, br: Branches, start: nat, w0: Word, w: Word, todo: set<nat>)
    requires WellLinked(br) && start in br && FreshAfter(toward, br, start, w0, todo)
    requires Leads(br, start, w) && After(toward, w0, w)
    ensures var x := Walk(br, start, w).value; x in todo && FreshAfter(toward, br, start, w, todo - {x})
  {
    forall v | Leads(br, start, v) && (v == w || After(toward, w, v))
      ensures Walk(br, start, v).value in todo
    {
      if v != w { AfterTransitive(toward, w0, w, v); }
    }
    Enter(toward, br, start, w, todo);
  }

  /** A forward scan from the start visits every key below it exactly once, from left to right,
      skipping what is nested below keys, and comes back to the start. */
  method ForwardKeys(path: Path) returns (keys: seq<Word>)
    requires path.Valid()
    modifies path, path.database
    ensures path.Valid() && unchanged(path.database) && path.index == old(path.index)
    ensures path.database.branches[path.index].left == 0 ==>
              Enumeration(true, path.database.branches, path.index, keys)
  {
    var stack := new Stack();
    keys := [];
    ghost var br, start, todo := path.database.branches, path.index, path.database.branches.Keys;
    ghost var ready := br[start].left == 0;
    EnumeratedStart(true, br, start);
    StartAt(true, br, start, []);
    if ready { ReadyAt(br, start, []); }
    var found := Next(path, stack, start);
    if ready && !found { EnumeratedEnd(true, br, start, [], []); }
    ghost var w0: Word := [];
    while found
      invariant path.Valid() && unchanged(path.database) && fresh(stack)
      invariant Moved(true, br, start, w0, found, stack.bits, path.index)
      invariant FreshAfter(true, br, start, w0, todo)
      invariant ready ==> && stack.count == 0 && Exact(true, br, start, w0, found, stack.bits)
                          && Enumerated(true, br, start, keys, w0)
      invariant ready && !found ==> Enumeration(true, br, start, keys)
      decreases todo
    {
      Visit(true, br, start, w0, stack.bits, todo);
      todo := todo - {path.index};
      if ready { EnumeratedPush(true, br, start, keys, w0, stack.bits); }
      keys := keys + [stack.bits];
      w0 := stack.bits;
      WalkTrail(br, start, w0);
      if ready { ReadyAt(br, start, w0); }
      found := Next(path, stack, start);
      if ready && !found { EnumeratedEnd(true, br, start, keys, w0); }
    }
  }

  /** Counts the keys below the start. */
  method ChildCount(path: Path) returns (count: nat, ghost keys: seq<Word>)
    requires path.Valid()
    modifies path, path.database
    ensures path.Valid() && unchanged(path.database) && path.index == old(path.index)
    ensures path.database.branches[path.index].left == 0 ==>
              Enumeration(true, path.database.branches, path.index, keys) && count == |keys|
  {
    var stack := new Stack();
    count, keys := 0, [];
    ghost var br, start, todo := path.database.branches, path.index, path.database.branches.Keys;
    ghost var ready := br[start].left == 0;
    EnumeratedStart(true, br, start);
    StartAt(true, br, start, []);
    if ready { ReadyAt(br, start, []); }
    var found := Next(path, stack, start);
    if ready && !found { EnumeratedEnd(true, br, start, [], []); }
    ghost var w0: Word := [];
    while found
      invariant path.Valid() && unchanged(path.database) && fresh(stack)
      invariant Moved(true, br, start, w0, found, stack.bits, path.index)
      invariant FreshAfter(true, br, start, w0, todo) && count == |keys|
      invariant ready ==> && stack.count == 0 && Exact(true, br, start, w0, found, stack.bits)
                          && Enumerated(true, br, start, keys, w0)
      invariant ready && !found ==> Enumeration(true, br, start, keys)
      decreases todo
    {
      Visit(true, br, start, w0, stack.bits, todo);
      todo := todo - {path.index};
      if ready { EnumeratedPush(true, br, start, keys, w0, stack.bits); }
      keys := keys + [stack.bits];
      count := count + 1;
      w0 := stack.bits;
      WalkTrail(br, start, w0);
      if ready { ReadyAt(br, start, w0); }
      found := Next(path, stack, start);
      if ready && !found { EnumeratedEnd(true, br, start, keys, w0); }
    }
  }

  /** A backward scan from the start. It visits exactly the keys below it, from right to left,
      if and only if no key ends at the left child of a branch whose right child goes on. */
  method BackwardKeys(path: Path) returns (keys: seq<Word>)
    requires path.Valid()
    modifies path, path.database
    ensures path.Valid() && unchanged(path.database) && path.index == old(path.index)
    ensures var br, start := path.database.branches, path.index;
            br[start].left == 0 ==> (Enumeration(false, br, start, keys) <==> NoTightFork(br, start))
  {
    var stack := new Stack();
    keys := [];
    ghost var br, start, todo := path.database.branches, path.index, path.database.branches.Keys;
    ghost var ready := br[start].left == 0 && NoTightFork(br, start);
    EnumeratedStart(false, br, start);
    StartAt(false, br, start, []);
    if ready {
      ReadyAt(br, start, []);
      NoTightForkClear(br, start, []);
      SingleOnesFirst(br, start, []);
    }
    var found := Previous(path, stack, start);
    if ready && !found { EnumeratedEnd(false, br, start, [], []); }
    ghost var w0: Word := [];
    while found
      invariant path.Valid() && unchanged(path.database) && fresh(stack) && stack.count >= 0
      invariant Moved(false, br, start, w0, found, stack.bits, path.index)
      invariant found ==> EndsLeftOnly(br, start, stack.bits)
      invariant forall k :: k in keys ==> EndsLeftOnly(br, start, k)
      invariant FreshAfter(false, br, start, w0, todo)
      invariant ready ==> && stack.count == 0 && Exact(false, br, start, w0, found, stack.bits)
                          && Enumerated(false, br, start, keys, w0)
      invariant ready && !found ==> Enumeration(false, br, start, keys)
      decreases todo
    {
      Visit(false, br, start, w0, stack.bits, todo);
      todo := todo - {path.index};
      if ready { EnumeratedPush(false, br, start, keys, w0, stack.bits); }
      keys := keys + [stack.bits];
      w0 := stack.bits;
      WalkTrail(br, start, w0);
      if ready {
        ReadyAt(br, start, w0);
        NoTightForkClear(br, start, w0);
        SingleOnesFirst(br, start, w0);
      }
      found := Previous(path, stack, start);
      if ready && !found { EnumeratedEnd(false, br, start, keys, w0); }
    }
    if !NoTightFork(br, start) {
      TightForkMissed(br, start, keys);
    }
  }

  /** Words that end in a zero only where there is no right child never include the key that
      ends at a tight fork. */
  lemma TightForkMissed(br: Branches, start: nat, keys: seq<Word>)
    requires WellLinked(br) && start in br && !NoTightFork(br, start)
    requires forall k :: k in keys ==> EndsLeftOnly(br, start, k)
    ensures !Enumeration(false, br, start, keys)
  {
    var u :| TightFork(br, start, u);
    var k := u + [false];
    LevelPush(u, false);
    assert k[..|k| - 1] == u;
    assert KeyIn(br, start, k);
    assert !EndsLeftOnly(br, start, k);
  }

  /** The backward order is the forward order reversed. */
  lemma EnumerationReversed(br: Branches, start: nat, keys: seq<Word>)
    requires WellLinked(br) && start in br && Enumeration(true, br, start, keys)
    ensures Enumeration(false, br, start, Reversed(keys))
  {
    var r := Reversed(keys);
    forall k
      ensures k in r <==> k in keys
    {
      if k in keys {
        var i :| 0 <= i < |keys| && keys[i] == k;
        assert r[|keys| - 1 - i] == k;
      }
    }
    forall i, j | 0 <= i < j < |r|
      ensures Beside(false, r[i], r[j])
    {
      BesideFlip(true, keys[|keys| - 1 - j], keys[|keys| - 1 - i]);
    }
  }

  /** There is only one enumeration in each order. */
  lemma {:induction false} EnumerationUnique(toward: bool, br: Branches, start: nat, keys: seq<Word>, keys': seq<Word>)
    requires WellLinked(br) && start in br
    requires Enumeration(toward, br, start, keys) && Enumeration(toward, br, start, keys')
    ensures keys == keys'
  {
    SortedSame(toward, keys, keys');
  }

  lemma {:induction false} SortedSame(toward: bool, s: seq<Word>, t: seq<Word>)
    requires forall k :: k in s <==> k in t
    requires forall i, j :: 0 <= i < j < |s| ==> Beside(toward, s[i], s[j])
    requires forall i, j :: 0 <= i < j < |t| ==> Beside(toward, t[i], t[j])
    ensures s == t
  {
    if s == [] {
      assert forall i :: 0 <= i < |t| ==> t[i] in t;
    } else {
      assert s[0] in t;
      var a :| 0 <= a < |t| && t[a] == s[0];
      assert t[0] in s;
      var b :| 0 <= b < |s| && s[b] == t[0];
      if a > 0 && b > 0 {
        BesideIrreflexive(toward, s[0], s[b]);
        BesideFlip(toward, t[0], t[a]);
      }
      forall i | 0 < i < |s|
        ensures s[i] != s[0]
      {
        BesideIrreflexive(toward, s[0], s[i]);
      }
      forall i | 0 < i < |t|
        ensures t[i] != t[0]
      {
        BesideIrreflexive(toward, t[0], t[i]);
      }
      assert s[0] == t[0];
      forall k
        ensures k in s[1..] <==> k in t[1..]
      {
        assert k in s[1..] <==> k in s && k != s[0];
        assert k in t[1..] <==> k in t && k != t[0];
      }
      SortedSame(toward, s[1..], t[1..]);
      assert s == [s[0]] + s[1..] && t == [t[0]] + t[1..];
    }
  }

  /** The pages 0 and 1 of a string. */
  const TWO_PAGES: Branches := map[
    0 := Branch(0, 0, 32, 0),
    32 := Branch(0, 64, 96, 0),
    64 := Branch(32, 0, 0, 0),
    96 := Branch(32, 128, 0, 0),
    128 := Branch(96, 160, 0, 0),
    160 := Branch(128, 0, 0, 0)]

  /** A concrete trie whose backward scan is not exact: with the numbers 0 and 1 stored, the key
      of 0 ends at the left child of a branch whose right child leads on to the key of 1. */
  lemma BackwardMissesPageZero()
    ensures var br := TWO_PAGES;
            && WellLinked(br) && br[0].left == 0
            && KeyIn(br, 0, NumberKey(0)) && KeyIn(br, 0, NumberKey(1)) && !NoTightFork(br, 0)
  {
    TwoPagesLinked();
    TwoPagesWalks();
    FirstKeys();
    LevelPush([], true);
    assert [] + [true] == [true] && [true] + [false] == [true, false] && [true] + [true] == [true, true];
    OpenPush([], true);
    assert TightFork(TWO_PAGES, 0, [true]);
  }

  lemma FirstKeys()
    ensures NumberKey(0) == [true, false] && NumberKey(1) == [true, true, false, false]
    ensures IsKey(NumberKey(0)) && IsKey(NumberKey(1))
  {
    NumberKeyIsKey(0);
    NumberKeyIsKey(1);
    assert Encoded(1) == [true] + Encoded(0) + Encoded(0);
  }

  lemma TwoPagesWalks()
    requires WellLinked(TWO_PAGES)
    ensures Leads(TWO_PAGES, 0, [true, false]) && Leads(TWO_PAGES, 0, [true, true])
    ensures Leads(TWO_PAGES, 0, [true, true, false, false])
  {
    StepTo(0, [], true, 32);
    assert [] + [true] == [true];
    StepTo(32, [true], false, TWO_PAGES[32].left);
    StepTo(32, [true], true, TWO_PAGES[32].right);
    assert [true] + [false] == [true, false] && [true] + [true] == [true, true];
    StepTo(TWO_PAGES[32].right, [true, true], false, TWO_PAGES[TWO_PAGES[32].right].left);
    assert [true, true] + [false] == [true, true, false];
    StepTo(TWO_PAGES[TWO_PAGES[32].right].left, [true, true, false], false, TWO_PAGES[TWO_PAGES[TWO_PAGES[32].right].left].left);
    assert [true, true, false] + [false] == [true, true, false, false];
  }

  lemma StepTo(at: nat, w: Word, bit: bool, to: nat)
    requires WellLinked(TWO_PAGES) && Walk(TWO_PAGES, 0, w) == Some(at)
    requires at in TWO_PAGES && TWO_PAGES[at].Link(bit) == to != 0
    ensures Walk(TWO_PAGES, 0, w + [bit]) == Some(to)
  {
    WalkPush(TWO_PAGES, 0, w, bit);
  }

  lemma TwoPagesLinked()
    ensures WellLinked(TWO_PAGES)
  {
    var br := TWO_PAGES;
    forall x, bit | x in br && br[x].Link(bit) != 0
      ensures br[x].Link(bit) in br && br[br[x].Link(bit)].parent == x
    {
      assert x == 0 || x == 32 || x == 96 || x == 128;
    }
  }
}
