/**
  Clearing a key cuts the trie at the key's last bifurcation: what that does to the other keys,
  to dead ends, and to a scan that stands at the key.
 */
module Clearing {
  import opened BitWords
  import opened DatabaseBase
  import opened PathBase
  import opened Paths
  import opened Scanning
  import opened Scans
  import opened Stacks
  import opened Trie
  import opened Sequences

  /** What leads somewhere after a key is cleared: everything that does not run through the cut. */
  lemma ClearedWalk(br: Branches, start: nat, k: Word, v: Word)
    requires WellLinked(br) && start in br && k != [] && Leads(br, start, k)
    ensures var c := CutWord(br, start, k);
            && Leads(br, start, c)
            && WellLinked(Cleared(br, start, k))
            && Walk(Cleared(br, start, k), start, v) == if c == v || ProperPrefix(c, v) then None else Walk(br, start, v)
  {
    var c := CutWord(br, start, k);
    WalkPrefix(br, start, k, |c|);
    PrunedWellLinked(br, Walk(br, start, c).value);
    WalkPruned(br, start, c, v);
  }

  /** The only key that runs through the cut is the cleared one. */
  lemma CutIsPrivate(br: Branches, start: nat, k: Word, l: Word)
    requires WellLinked(br) && start in br && KeyIn(br, start, k) && KeyIn(br, start, l) && l != k
    ensures var c := CutWord(br, start, k); c != l && !ProperPrefix(c, l) && !ProperPrefix(l, c)
  {
    var c := CutWord(br, start, k);
    assert c == k[..|c|];
    KeysBeside(k, l);
    var toward := Beside(true, k, l);
    assert Beside(toward, k, l);
    var i: nat :| DivergeAt(toward, k, l, i);
    ParentForks(br, start, k, l, i);
    assert i < |c|;
    assert |l| >= |c| ==> l[..|c|][i] == l[i] && c[i] == k[i];
    assert |l| < |c| ==> c[..|l|][i] == k[i];
  }

  /** Where two keys part, the branch has two children. */
  lemma ParentForks(br: Branches, start: nat, k: Word, l: Word, i: nat)
    requires WellLinked(br) && start in br && Leads(br, start, k) && Leads(br, start, l)
    requires i < |k| && i < |l| && k[..i] == l[..i] && k[i] != l[i]
    ensures ForkAt(br, start, k, i)
  {
    WalkOneMore(br, start, k, i);
    WalkOneMore(br, start, l, i);
  }

  /** Clearing a key removes that key and no other: every other key, and every word below every
      other key, leads where it led, to the same data. */
  lemma ClearRemovesOneKey(br: Branches, start: nat, k: Word, l: Word, v: Word)
    requires WellLinked(br) && start in br && KeyIn(br, start, k) && WellLinked(Cleared(br, start, k))
    ensures var br' := Cleared(br, start, k);
            && !Leads(br', start, k)
            && (IsKey(l) && l != k ==> (KeyIn(br', start, l) <==> KeyIn(br, start, l)))
            && (KeyIn(br, start, l) && l != k ==> Walk(br', start, l + v) == Walk(br, start, l + v))
            && (KeyIn(br, start, l) && l != k && Leads(br, start, l + v) ==>
                  br'[Walk(br, start, l + v).value].dataIndex == br[Walk(br, start, l + v).value].dataIndex)
  {
    var c := CutWord(br, start, k);
    ClearedWalk(br, start, k, k);
    ClearedWalk(br, start, k, l);
    assert c == k || ProperPrefix(c, k);
    if KeyIn(br, start, l) && l != k {
      CutIsPrivate(br, start, k, l);
      NotThrough(c, l, v);
      ClearedWalk(br, start, k, l + v);
      if Leads(br, start, l + v) {
        BelowIsPrefix(br, start, c, l + v);
      }
    }
  }

  /** The branch where the cleared key ended is forgotten: going back from it gives no key. */
  lemma ClearForgets(br: Branches, start: nat, k: Word)
    requires WellLinked(br) && start in br && KeyIn(br, start, k) && WellLinked(Cleared(br, start, k))
    ensures var x := Walk(br, start, k).value; x in Cleared(br, start, k) && Forgotten(Cleared(br, start, k), x)
  {
    var c, u, x := CutWord(br, start, k), k[..|k| - 1], Walk(br, start, k).value;
    ClearedWalk(br, start, k, k);
    WalkParent(br, start, k);
    WalkBound(br, start, k);
    Snoc(k);
    BelowIsPrefix(br, start, c, k);
    BelowIsPrefix(br, start, c, u);
    assert br[br[x].parent].left != br[br[x].parent].right;
  }

  lemma NotThrough(c: Word, l: Word, v: Word)
    requires c != l && !ProperPrefix(c, l) && !ProperPrefix(l, c)
    ensures c != l + v && !ProperPrefix(c, l + v)
  {
    var w := l + v;
    assert w[..|l|] == l;
    assert |c| <= |l| ==> w[..|c|] == l[..|c|];
    assert |l| < |c| <= |w| ==> w[..|c|][..|l|] == l;
  }

  // ----- dead ends

  /** Every word below the start counts at least zero, and dead ends lie at count zero: the trie
      holds nothing but whole keys, nested or not. */
  ghost predicate Tidy(br: Branches, start: nat)
    requires WellLinked(br) && start in br
  {
    forall w {:trigger TidyAt(br, start, w)} :: Leads(br, start, w) ==> TidyAt(br, start, w)
  }

  ghost predicate TidyAt(br: Branches, start: nat, w: Word)
    requires WellLinked(br) && start in br
  {
    Level(w) >= 0 && (w == [] || Level(w) == 0 || Leads(br, start, w + [false]) || Leads(br, start, w + [true]))
  }

  lemma OpenLevel(w: Word)
    requires w != [] && Open(w)
    ensures Level(w) > 0
  {
    Whole(w);
  }

  lemma TidyClosed(br: Branches, start: nat)
    requires WellLinked(br) && start in br && Tidy(br, start)
    ensures DeadEndsClosed(br, start) && br[start].left == 0 && forall w :: OnesFirst(br, start, w)
  {
    forall w
      ensures !Stuck(br, start, w)
    {
      if w != [] && Open(w) && Leads(br, start, w) {
        OpenLevel(w);
        assert TidyAt(br, start, w);
      }
    }
    forall u | Level(u) == 0
      ensures !Leads(br, start, u + [false])
    {
      LevelPush(u, false);
      assert !TidyAt(br, start, u + [false]);
    }
    WalkPush(br, start, [], false);
    assert br[start].Link(false) == br[start].left && !Leads(br, start, [] + [false]);
  }

  /** Clearing a key leaves nothing but whole keys. */
  lemma ClearKeepsTidy(br: Branches, start: nat, k: Word)
    requires WellLinked(br) && start in br && KeyIn(br, start, k) && Tidy(br, start)
    requires WellLinked(Cleared(br, start, k))
    ensures Tidy(Cleared(br, start, k), start)
  {
    forall w | Leads(Cleared(br, start, k), start, w)
      ensures TidyAt(Cleared(br, start, k), start, w)
    {
      ClearKeepsTidyAt(br, start, k, w);
    }
  }

  lemma ClearKeepsTidyAt(br: Branches, start: nat, k: Word, w: Word)
    requires WellLinked(br) && start in br && KeyIn(br, start, k) && WellLinked(Cleared(br, start, k))
    requires Leads(Cleared(br, start, k), start, w) && (Leads(br, start, w) ==> TidyAt(br, start, w))
    ensures TidyAt(Cleared(br, start, k), start, w)
  {
    ClearedWalk(br, start, k, w);
    if w != [] && Level(w) != 0 {
      ClearKeepsChild(br, start, k, w);
    }
  }

  /** A branch that survives and had a child keeps one, the start excepted. */
  lemma ClearKeepsChild(br: Branches, start: nat, k: Word, w: Word)
    requires WellLinked(br) && start in br && KeyIn(br, start, k) && WellLinked(Cleared(br, start, k))
    requires Leads(Cleared(br, start, k), start, w) && Leads(br, start, w) && w != []
    requires Leads(br, start, w + [false]) || Leads(br, start, w + [true])
    ensures var br' := Cleared(br, start, k); Leads(br', start, w + [false]) || Leads(br', start, w + [true])
  {
    var c := CutWord(br, start, k);
    var fork := |c| - 1;
    ClearedWalk(br, start, k, w);
    ClearedWalk(br, start, k, w + [false]);
    ClearedWalk(br, start, k, w + [true]);
    NotThroughChild(c, w, false);
    NotThroughChild(c, w, true);
    if c == w + [false] || c == w + [true] {
      assert w == c[..fork] == k[..fork];
      assert ForkAt(br, start, k, fork);
      WalkPush(br, start, w, false);
      WalkPush(br, start, w, true);
    }
  }

  lemma NotThroughChild(c: Word, w: Word, b: bool)
    requires c != w && !ProperPrefix(c, w)
    ensures c == w + [b] || (c != w + [b] && !ProperPrefix(c, w + [b]))
  {
    assert |c| <= |w| ==> (w + [b])[..|c|] == w[..|c|];
  }

  /** Writing a key at the end of whole keys leaves nothing but whole keys. */
  lemma IndexKeepsTidy(br: Branches, start: nat, c: Word, at: nat, k: Word, size: nat)
    requires WellLinked(br) && start in br && Within(br, size) && Tidy(br, start)
    requires at in br && Walk(br, start, c) == Some(at) && Level(c) == 0 && IsKey(k)
    requires WellLinked(Indexed(br, at, k, size)) && start in Indexed(br, at, k, size)
    ensures Tidy(Indexed(br, at, k, size), start)
  {
    forall w | Leads(Indexed(br, at, k, size), start, w)
      ensures TidyAt(Indexed(br, at, k, size), start, w)
    {
      IndexKeepsTidyAt(br, start, c, at, k, size, w);
    }
  }

  lemma IndexKeepsTidyAt(br: Branches, start: nat, c: Word, at: nat, k: Word, size: nat, w: Word)
    requires WellLinked(br) && start in br && Within(br, size)
    requires at in br && Walk(br, start, c) == Some(at) && Level(c) == 0 && IsKey(k)
    requires WellLinked(Indexed(br, at, k, size)) && start in Indexed(br, at, k, size)
    requires Leads(Indexed(br, at, k, size), start, w) && (Leads(br, start, w) ==> TidyAt(br, start, w))
    ensures TidyAt(Indexed(br, at, k, size), start, w)
  {
    IndexedWalk(br, at, k, size, start, c, w);
    if Leads(br, start, w) {
      IndexedWalk(br, at, k, size, start, c, w + [false]);
      IndexedWalk(br, at, k, size, start, c, w + [true]);
    } else {
      AlongKey(c, k, w);
      if w != c + k {
        IndexedWalk(br, at, k, size, start, c, w + [k[|w| - |c|]]);
      }
    }
  }

  /** The words between a boundary and the end of a key count above zero and go on. */
  lemma AlongKey(c: Word, k: Word, w: Word)
    requires Level(c) == 0 && IsKey(k) && ProperPrefix(c, w) && w <= c + k
    ensures w == c + k ==> Level(w) == 0
    ensures w != c + k ==>
              && |w| - |c| < |k| && Level(w) > 0
              && var v := w + [k[|w| - |c|]]; ProperPrefix(c, v) && v <= c + k
  {
    var i := |w| - |c|;
    assert w == c + k[..i] by { assert w == (c + k)[..|w|]; }
    KeyLevelAt(c, k, i);
    if i < |k| {
      assert w + [k[i]] == c + k[..i + 1];
      BetweenIsPrefix(c, k, i + 1);
    } else {
      assert k[..i] == k;
    }
  }

  lemma BetweenIsPrefix(c: Word, k: Word, i: nat)
    requires 0 < i <= |k|
    ensures ProperPrefix(c, c + k[..i]) && c + k[..i] <= c + k
  {
    assert (c + k)[..|c| + i] == c + k[..i];
    assert (c + k[..i])[..|c|] == c;
  }

  lemma KeyLevelAt(c: Word, k: Word, i: nat)
    requires Level(c) == 0 && IsKey(k) && 0 < i <= |k|
    ensures if i == |k| then Level(c + k[..i]) == 0 else Level(c + k[..i]) > 0
  {
    LevelConcat(c, k[..i]);
    if i == |k| {
      assert k[..i] == k;
    } else {
      KeyPrefixOpen(k, i);
      assert k[..i][..i] == k[..i];
    }
  }

  lemma EmptyIsTidy()
    ensures var br := map[0 := NEW_ROOT]; WellLinked(br) && Tidy(br, 0)
  {
    var br := map[0 := NEW_ROOT];
    assert forall bit :: br[0].Link(bit) == 0;
    assert WellLinked(br);
    forall w | Leads(br, 0, w)
      ensures TidyAt(br, 0, w)
    {
      if w != [] { WalkParent(br, 0, w); }
    }
  }

  /** In a tidy trie a branch where a key ends, or the start, is a dead end exactly when no key
      is stored below it. */
  lemma DeadEndIffNoKeys(br: Branches, start: nat, size: nat)
    requires WellLinked(br) && start in br && Within(br, size) && Tidy(br, start)
    ensures br[start].IsDeadEnd() <==> forall k :: !KeyIn(br, start, k)
  {
    if br[start].IsDeadEnd() {
      forall k
        ensures !KeyIn(br, start, k)
      {
        assert forall bit :: br[start].Link(bit) == 0;
        if k != [] && Leads(br, start, k) {
          WalkOneMore(br, start, k, 0);
        }
      }
    } else {
      TidyClosed(br, start);
      WalkPush(br, start, [], true);
      assert br[start].Link(true) != 0;
      LevelPush([], true);
      OpenPush([], true);
      var k := SomeKey(br, start, [] + [true], size);
    }
  }

  /** Below an open word of a tidy trie there is a key. */
  lemma SomeKey(br: Branches, start: nat, w: Word, size: nat) returns (k: Word)
    requires WellLinked(br) && start in br && Within(br, size) && Tidy(br, start)
    requires w != [] && Open(w) && Leads(br, start, w)
    ensures KeyIn(br, start, k) && ProperPrefix(w, k)
    decreases size - Walk(br, start, w).value
  {
    assert TidyAt(br, start, w);
    Whole(w);
    var b := Leads(br, start, w + [true]);
    assert Leads(br, start, w + [b]);
    assert TidyAt(br, start, w + [b]);
    assert (w + [b])[..|w|] == w;
    WalkParent(br, start, w + [b]);
    if Level(w + [b]) == 0 {
      k := w + [b];
    } else {
      OpenPush(w, b);
      k := SomeKey(br, start, w + [b], size);
      assert k[..|w| + 1][..|w|] == k[..|w|];
    }
  }

  // ----- scanning while clearing

  /** A cursor on the cleared key still spells its way back to the start, past branches that are
      now empty. */
  lemma {:induction false} ClearKeepsTrail(br: Branches, start: nat, k: Word, w: Word)
    requires WellLinked(br) && start in br && KeyIn(br, start, k) && w <= k && WellLinked(Cleared(br, start, k))
    requires Leads(br, start, w)
    ensures Trail(Cleared(br, start, k), start, w, Walk(br, start, w).value)
    decreases |w|
  {
    var br', at, c := Cleared(br, start, k), Walk(br, start, w).value, CutWord(br, start, k);
    ClearedWalk(br, start, k, w);
    BelowIsPrefix(br, start, c, w);
    assert br'[at].parent == br[at].parent;
    if w != [] {
      WalkParent(br, start, w);
      ClearKeepsTrail(br, start, k, w[..|w| - 1]);
    }
  }

  /** Deleting the key a forward scan stands at does not disturb the scan: the next key from the
      detached cursor is the next key there was before. */
  lemma ClearKeepsSuccessor(br: Branches, start: nat, k: Word, found: bool, w: Word)
    requires WellLinked(br) && start in br && KeyIn(br, start, k) && WellLinked(Cleared(br, start, k))
    ensures Exact(true, Cleared(br, start, k), start, k, found, w) <==> Exact(true, br, start, k, found, w)
  {
    var br' := Cleared(br, start, k);
    forall l
      ensures KeyIn(br', start, l) <==> KeyIn(br, start, l) && l != k
    {
      ClearRemovesOneKey(br, start, k, l, []);
      ClearedWalk(br, start, k, l);
    }
    AfterIrreflexive(true, k);
    CandidatesIn(br, start, k);
    CandidatesIn(br', start, k);
  }

  /** A step of `Next` from the cursor of a key that has just been cleared. */
  method NextAfterClear(path: Path, stack: Stack, children: Path, ghost start: nat) returns (found: bool)
    requires path.Valid() && children.database == path.database && children != path && children.index == start
    requires start in path.database.branches && path.database.branches[start].left == 0
    requires KeyIn(path.database.branches, start, stack.bits) && stack.count == 0
    requires Walk(path.database.branches, start, stack.bits) == Some(path.index)
    modifies path, stack, path.database
    ensures path.Valid() && children.Valid()
    ensures path.database.branches == Cleared(old(path.database.branches), start, old(stack.bits))
    ensures Exact(true, old(path.database.branches), start, old(stack.bits), found, stack.bits)
    ensures Moved(true, path.database.branches, start, old(stack.bits), found, stack.bits, path.index)
    ensures stack.count == 0 && path.database.branches[start].left == 0
  {
    ghost var br, k := path.database.branches, stack.bits;
    children.ClearKey(stack.bits);
    ghost var br' := path.database.branches;
    ClearKeepsTrail(br, start, k, k);
    ClearedWalk(br, start, k, [false]);
    WalkPush(br, start, [], false);
    WalkPush(br', start, [], false);
    assert [] + [false] == [false];
    assert br[start].Link(false) == 0 && br'[start].Link(false) == br'[start].left;
    ReadyAt(br', start, k);
    found := Next(path, stack, start);
    ClearKeepsSuccessor(br, start, k, found, stack.bits);
  }

  /** Between the original trie and the trie with the visited keys cleared. */
  ghost predicate Left(br0: Branches, br: Branches, start: nat, visited: seq<Word>)
    requires WellLinked(br0) && start in br0 && WellLinked(br) && start in br
  {
    forall l :: KeyIn(br, start, l) <==> KeyIn(br0, start, l) && l !in visited
  }

  lemma LeftAfterClear(br0: Branches, br: Branches, start: nat, visited: seq<Word>, k: Word)
    requires WellLinked(br0) && start in br0 && WellLinked(br) && start in br && Left(br0, br, start, visited)
    requires KeyIn(br, start, k) && WellLinked(Cleared(br, start, k)) && start in Cleared(br, start, k)
    ensures Left(br0, Cleared(br, start, k), start, visited + [k])
  {
    forall l
      ensures KeyIn(Cleared(br, start, k), start, l) <==> KeyIn(br0, start, l) && l !in visited + [k]
    {
      ClearRemovesOneKey(br, start, k, l, []);
      ClearedWalk(br, start, k, l);
    }
  }

  /** What comes after the key just visited is the same with the visited keys gone. */
  lemma LeftKeepsExact(br0: Branches, br: Branches, start: nat, visited: seq<Word>, k: Word, found: bool, w: Word)
    requires WellLinked(br0) && start in br0 && WellLinked(br) && start in br && Left(br0, br, start, visited)
    requires forall l :: l in visited ==> KeyIn(br0, start, l) && Beside(true, l, k)
    requires IsKey(k) && Exact(true, br, start, k, found, w)
    ensures Exact(true, br0, start, k, found, w)
  {
    CandidatesIn(br0, start, k);
    CandidatesIn(br, start, k);
    forall l | KeyIn(br0, start, l) && After(true, k, l)
      ensures KeyIn(br, start, l)
    {
      KeysPrefixFree(k, l);
      if l in visited {
        BesideTransitive(true, l, k, l);
        BesideIrreflexive(true, l, l);
      }
    }
  }

  // ----- clearing what is stored at a key

  /** What clearing the path of a branch leaves: no data there, and nothing below. */
  ghost function PathCleared(br: Branches, x: nat): Branches
    requires WellLinked(br) && x in br && WellLinked(br[x := br[x].(dataIndex := 0)])
  {
    Bared(br[x := br[x].(dataIndex := 0)], x)
  }

  lemma PathClearedLink(br: Branches, x: nat, y: nat, bit: bool)
    requires WellLinked(br) && x in br && WellLinked(br[x := br[x].(dataIndex := 0)]) && y in br
    ensures PathCleared(br, x)[y].Link(bit) == if Below(br, x, y) then 0 else br[y].Link(bit)
  {
    var br1 := br[x := br[x].(dataIndex := 0)];
    forall z | z in br && z > x
      ensures Linked(br, z) <==> Linked(br1, z)
    {
      assert br1[br[z].parent].left == br[br[z].parent].left;
    }
    BelowAgrees(br, br1, x, y);
  }

  /** Clearing the path at the end of a key takes away the words below the key and no others. */
  lemma {:induction false} PathClearedWalk(br: Branches, start: nat, k: Word, v: Word)
    requires WellLinked(br) && start in br && Leads(br, start, k)
    requires var x := Walk(br, start, k).value; WellLinked(br[x := br[x].(dataIndex := 0)]) && WellLinked(PathCleared(br, x))
    ensures Walk(PathCleared(br, Walk(br, start, k).value), start, v) == if ProperPrefix(k, v) then None else Walk(br, start, v)
  {
    if v != [] {
      var x, u, bit := Walk(br, start, k).value, v[..|v| - 1], v[|v| - 1];
      Snoc(v);
      PrefixPush(k, u, bit);
      PathClearedWalk(br, start, k, u);
      if Leads(br, start, u) {
        PathClearedLink(br, x, Walk(br, start, u).value, bit);
        BelowIsPrefix(br, start, k, u);
      }
    }
  }

  /** Clearing the path of a key changes no other key, nor where the key itself leads. */
  lemma PathClearedKeeps(br0: Branches, br: Branches, start: nat, visited: seq<Word>, k: Word)
    requires WellLinked(br0) && start in br0 && WellLinked(br) && start in br && Left(br0, br, start, visited)
    requires KeyIn(br, start, k) && br[start].left == 0
    requires var x := Walk(br, start, k).value; WellLinked(br[x := br[x].(dataIndex := 0)]) && WellLinked(PathCleared(br, x))
    ensures var br' := PathCleared(br, Walk(br, start, k).value);
            && start in br' && br'[start].left == 0 && Left(br0, br', start, visited)
            && KeyIn(br', start, k) && Walk(br', start, k) == Walk(br, start, k)
            && (Tidy(br, start) ==> Tidy(br', start))
  {
    var x := Walk(br, start, k).value;
    var br' := PathCleared(br, x);
    PathClearedLink(br, x, start, false);
    assert br'[start].Link(false) == br'[start].left && br[start].Link(false) == br[start].left;
    PathClearedWalk(br, start, k, k);
    forall l
      ensures KeyIn(br', start, l) <==> KeyIn(br, start, l)
    {
      PathClearedWalk(br, start, k, l);
      if IsKey(l) { KeysPrefixFree(k, l); }
    }
    if Tidy(br, start) {
      forall w | Leads(br', start, w)
        ensures TidyAt(br', start, w)
      {
        PathClearedTidyAt(br, start, k, w);
      }
    }
  }

  lemma PathClearedTidyAt(br: Branches, start: nat, k: Word, w: Word)
    requires WellLinked(br) && start in br && KeyIn(br, start, k) && Tidy(br, start)
    requires var x := Walk(br, start, k).value; WellLinked(br[x := br[x].(dataIndex := 0)]) && WellLinked(PathCleared(br, x))
    requires Leads(PathCleared(br, Walk(br, start, k).value), start, w)
    ensures TidyAt(PathCleared(br, Walk(br, start, k).value), start, w)
  {
    PathClearedWalk(br, start, k, w);
    assert TidyAt(br, start, w);
    PrefixPush(k, w, false);
    PrefixPush(k, w, true);
    PathClearedWalk(br, start, k, w + [false]);
    PathClearedWalk(br, start, k, w + [true]);
  }

  /** Clears the path of the child that the scan stands at. */
  method ClearChild(children: Path, at: nat, ghost br0: Branches, ghost visited: seq<Word>, ghost k: Word)
    requires children.Valid() && WellLinked(br0) && children.index in br0
    requires var br, start := children.database.branches, children.index;
             && br[start].left == 0 && Left(br0, br, start, visited)
             && KeyIn(br, start, k) && Walk(br, start, k) == Some(at)
    modifies children.database
    ensures children.Valid() && children.database.blobs == old(children.database.blobs)
    ensures var br, br', start := old(children.database.branches), children.database.branches, children.index;
            && WellLinked(br) && start in br && br'.Keys == br.Keys
            && br'[start].left == 0 && Left(br0, br', start, visited)
            && KeyIn(br', start, k) && Walk(br', start, k) == Some(at)
            && (Tidy(br, start) ==> Tidy(br', start))
            && br'[at].IsDeadEnd() && br'[at].dataIndex == 0
  {
    ghost var br := children.database.branches;
    var item := new Path(children.database, at);
    item.Clear();
    PathClearedKeeps(br0, br, children.index, visited, k);
  }

  /** The state of the scan-and-clear loop: the visited keys are gone and all others are still there,
      the scan has come to the key after them, and has not been anywhere twice. */
  ghost predicate Sweeping(br0: Branches, br: Branches, start: nat, visited: seq<Word>, w0: Word,
                           found: bool, w: Word, at: nat, todo: set<nat>)
    requires WellLinked(br0) && start in br0 && WellLinked(br) && start in br
  {
    && br[start].left == 0 && Left(br0, br, start, visited)
    && Moved(true, br, start, w0, found, w, at)
    && Enumerated(true, br0, start, visited, w0) && Exact(true, br0, start, w0, found, w)
    && FreshAfter(true, br0, start, w0, todo)
    && (!found ==> Enumeration(true, br0, start, visited))
    && (Tidy(br0, start) ==> Tidy(br, start))
  }

  /** One round of the loop: clears the child, then its key, and goes on. */
  method Sweep(path: Path, stack: Stack, children: Path, ghost br0: Branches, ghost visited: seq<Word>, ghost w0: Word, ghost todo0: set<nat>)
    returns (found: bool, ghost todo: set<nat>)
    requires path.Valid() && children.Valid() && children.database == path.database && children != path
    requires WellLinked(br0) && children.index in br0 && stack.count == 0
    requires Sweeping(br0, path.database.branches, children.index, visited, w0, true, stack.bits, path.index, todo0)
    modifies path, stack, path.database
    ensures path.Valid() && children.Valid() && stack.count == 0 && todo < todo0
    ensures Sweeping(br0, path.database.branches, children.index, visited + [old(stack.bits)], old(stack.bits),
                     found, stack.bits, path.index, todo)
  {
    ghost var start, k := children.index, stack.bits;
    Visit(true, br0, start, w0, k, todo0);
    todo := todo0 - {Walk(br0, start, k).value};
    EnumeratedPush(true, br0, start, visited, w0, k);
    NotVisited(br0, start, visited, w0, k);
    ClearChild(children, path.index, br0, visited, k);
    ghost var br := path.database.branches;
    ClearedWalk(br, start, k, k);
    LeftAfterClear(br0, br, start, visited, k);
    if Tidy(br, start) { ClearKeepsTidy(br, start, k); }
    found := NextAfterClear(path, stack, children, start);
    LeftKeepsExact(br0, br, start, visited, k, found, stack.bits);
    if !found { EnumeratedEnd(true, br0, start, visited + [k], k); }
  }

  /** The scan-and-clear loop: visits every key there was, from left to right, and removes each
      while standing on it; nothing is left in the end. */
  method ClearKeys(children: Path) returns (visited: seq<Word>)
    requires children.Valid() && children.database.branches[children.index].left == 0
    modifies children.database
    ensures children.Valid()
    ensures Enumeration(true, old(children.database.branches), children.index, visited)
    ensures forall k :: !KeyIn(children.database.branches, children.index, k)
    ensures Tidy(old(children.database.branches), children.index) ==>
              && Tidy(children.database.branches, children.index)
              && children.database.branches[children.index].IsDeadEnd()
  {
    var path := new Path(children.database, children.index);
    var stack := new Stack();
    ghost var br0, start := path.database.branches, path.index;
    ghost var todo := br0.Keys;
    visited := [];
    EnumeratedStart(true, br0, start);
    StartAt(true, br0, start, []);
    ReadyAt(br0, start, []);
    var found := Next(path, stack, start);
    if !found { EnumeratedEnd(true, br0, start, [], []); }
    ghost var w0: Word := [];
    while found
      invariant path.Valid() && children.Valid() && fresh(path) && fresh(stack)
      invariant path.database == children.database && children.index == start && start in br0 && stack.count == 0
      invariant Sweeping(br0, path.database.branches, start, visited, w0, found, stack.bits, path.index, todo)
      decreases todo
    {
      var k := stack.bits;
      found, todo := Sweep(path, stack, children, br0, visited, w0, todo);
      visited := visited + [k];
      w0 := k;
    }
    if Tidy(br0, start) {
      ValidWithin(children.database);
      DeadEndIffNoKeys(children.database.branches, start, |children.database.file|);
    }
  }

  lemma NotVisited(br: Branches, start: nat, keys: seq<Word>, w: Word, k: Word)
    requires WellLinked(br) && start in br
    requires Enumerated(true, br, start, keys, w) && Enumerated(true, br, start, keys + [k], k)
    ensures forall l :: l in keys ==> KeyIn(br, start, l) && Beside(true, l, k)
    ensures k !in keys
  {
    var keys' := keys + [k];
    forall l | l in keys
      ensures KeyIn(br, start, l) && Beside(true, l, k)
    {
      var i :| 0 <= i < |keys| && keys[i] == l;
      assert Beside(true, keys'[i], keys'[|keys|]);
    }
    if k in keys {
      BesideIrreflexive(true, k, k);
    }
  }
}
