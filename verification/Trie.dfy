/**
  The tree that the branch records form: which words of bits lead from a start
  branch to which branch, and how writing, linking and cutting branches changes that.
 */
module Trie {
  import opened BitWords
  import opened Sequences

  datatype Option<+T> = None | Some(value: T)

  /** A branch record. A zero link means "no child"; zero dataIndex means "no data". */
  datatype Branch = Branch(parent: nat, left: nat, right: nat, dataIndex: nat) {
    function Link(bit: bool): nat {
      if bit then right else left
    }

    function WithLink(bit: bool, child: nat): Branch {
      if bit then this.(right := child) else this.(left := child)
    }

    predicate IsDeadEnd() {
      left == 0 && right == 0
    }
  }

  const NEW_ROOT := Branch(0, 0, 0, 0)

  type Branches = map<nat, Branch>

  /** Every link leads to a branch that records the linking branch as its parent, a branch is
      linked at most once, and records are appended: a child lies behind its parent. */
  ghost predicate WellLinked(br: Branches) {
    && 0 in br
    && br[0].parent == 0
    && (forall x {:trigger br[x].parent} :: x in br && x != 0 ==> br[x].parent < x && br[x].parent in br)
    && (forall x, bit {:trigger br[x].Link(bit)} :: x in br && br[x].Link(bit) != 0 ==>
          br[x].Link(bit) in br && br[br[x].Link(bit)].parent == x)
    && (forall x {:trigger br[x].left} :: x in br && br[x].left != 0 ==> br[x].left != br[x].right)
  }

  /** The branch that the word leads to from the start branch. */
  ghost function Walk(br: Branches, start: nat, w: Word): (r: Option<nat>)
    requires WellLinked(br) && start in br
    ensures r.Some? ==> r.value in br
  {
    if w == [] then Some(start)
    else
      var p := Walk(br, start, w[..|w| - 1]);
      if p.None? || br[p.value].Link(w[|w| - 1]) == 0 then None
      else Some(br[p.value].Link(w[|w| - 1]))
  }

  ghost predicate Leads(br: Branches, start: nat, w: Word)
    requires WellLinked(br) && start in br
  {
    Walk(br, start, w).Some?
  }

  /** A complete key stored below the start branch. */
  ghost predicate KeyIn(br: Branches, start: nat, k: Word)
    requires WellLinked(br) && start in br
  {
    IsKey(k) && Leads(br, start, k)
  }

  lemma WalkPush(br: Branches, start: nat, w: Word, bit: bool)
    requires WellLinked(br) && start in br
    ensures Walk(br, start, w + [bit]) ==
            var p := Walk(br, start, w);
            if p.None? || br[p.value].Link(bit) == 0 then None else Some(br[p.value].Link(bit))
  {
    assert (w + [bit])[..|w|] == w;
  }

  /** A word that leads somewhere leads to a branch whose recorded parent is one bit up. */
  lemma WalkParent(br: Branches, start: nat, w: Word)
    requires WellLinked(br) && start in br && w != [] && Leads(br, start, w)
    ensures Leads(br, start, w[..|w| - 1])
    ensures br[Walk(br, start, w).value].parent == Walk(br, start, w[..|w| - 1]).value
    ensures Walk(br, start, w).value == br[Walk(br, start, w[..|w| - 1]).value].Link(w[|w| - 1]) != 0
  {
  }

  lemma {:induction false} WalkPrefix(br: Branches, start: nat, w: Word, i: nat)
    requires WellLinked(br) && start in br && i <= |w| && Leads(br, start, w)
    ensures Leads(br, start, w[..i])
  {
    if i == |w| {
      assert w[..i] == w;
    } else {
      WalkPrefix(br, start, w[..|w| - 1], i);
      assert w[..|w| - 1][..i] == w[..i];
    }
  }

  lemma {:induction false} WalkConcat(br: Branches, start: nat, u: Word, v: Word)
    requires WellLinked(br) && start in br && Leads(br, start, u)
    ensures Walk(br, start, u + v) == Walk(br, Walk(br, start, u).value, v)
  {
    if v == [] {
      assert u + v == u;
    } else {
      WalkConcat(br, start, u, v[..|v| - 1]);
      assert (u + v)[..|u + v| - 1] == u + v[..|v| - 1];
    }
  }

  /** Each bit moves further into the file. */
  lemma {:induction false} WalkBound(br: Branches, start: nat, w: Word)
    requires WellLinked(br) && start in br && Leads(br, start, w)
    ensures Walk(br, start, w).value >= start + |w|
  {
    if w != [] {
      WalkParent(br, start, w);
      WalkBound(br, start, w[..|w| - 1]);
    }
  }

  /** Two words never lead to the same branch. */
  lemma {:induction false} WalkInjective(br: Branches, start: nat, v: Word, w: Word)
    requires WellLinked(br) && start in br
    requires Leads(br, start, v) && Walk(br, start, v) == Walk(br, start, w)
    ensures v == w
    decreases |v|
  {
    WalkBound(br, start, v);
    WalkBound(br, start, w);
    if v != [] && w != [] {
      WalkParent(br, start, v);
      WalkParent(br, start, w);
      WalkInjective(br, start, v[..|v| - 1], w[..|w| - 1]);
      Snoc(v);
      Snoc(w);
    }
  }

  /** The cursor of a scan: the recorded parents above `at` spell the word w back to the start,
      and every branch on the way is either where the word leads now, or has been cut off and
      emptied since it was visited. */
  ghost predicate Trail(br: Branches, start: nat, w: Word, at: nat)
    requires WellLinked(br) && start in br
  {
    && at in br
    && (Walk(br, start, w) == Some(at) || (!Leads(br, start, w) && br[at].IsDeadEnd()))
    && (w == [] ==> at == start)
    && (w != [] ==> Trail(br, start, w[..|w| - 1], br[at].parent))
  }

  lemma {:induction false} WalkTrail(br: Branches, start: nat, w: Word)
    requires WellLinked(br) && start in br && Leads(br, start, w)
    ensures Trail(br, start, w, Walk(br, start, w).value)
  {
    if w != [] {
      WalkParent(br, start, w);
      WalkTrail(br, start, w[..|w| - 1]);
    }
  }

  /** On a trail, the branch has a child exactly when the word can be extended that way. */
  lemma TrailLink(br: Branches, start: nat, w: Word, at: nat, bit: bool)
    requires WellLinked(br) && start in br && Trail(br, start, w, at)
    ensures br[at].Link(bit) != 0 <==> Leads(br, start, w + [bit])
    ensures br[at].Link(bit) != 0 ==> Walk(br, start, w + [bit]) == Some(br[at].Link(bit))
  {
    WalkPush(br, start, w, bit);
  }

  // ----- appending and linking a new child

  ghost function WithChild(br: Branches, at: nat, bit: bool, child: nat): Branches
    requires at in br
  {
    br[child := Branch(at, 0, 0, 0)][at := br[at].WithLink(bit, child)]
  }

  lemma WithChildWellLinked(br: Branches, at: nat, bit: bool, child: nat)
    requires WellLinked(br) && at in br && br[at].Link(bit) == 0 && child !in br && child > at
    ensures WellLinked(WithChild(br, at, bit, child))
    ensures WellLinked(br[child := Branch(at, 0, 0, 0)])
  {
    var br' := WithChild(br, at, bit, child);
    forall x, b | x in br' && br'[x].Link(b) != 0
      ensures br'[x].Link(b) in br' && br'[br'[x].Link(b)].parent == x
    {
      if x != child && !(x == at && b == bit) {
        assert br'[x].Link(b) == br[x].Link(b);
      }
    }
    forall x | x in br' && br'[x].left != 0
      ensures br'[x].left != br'[x].right
    {
      if x == at {
        assert br'[at].Link(!bit) == br[at].Link(!bit) != child;
      }
    }
    var br1 := br[child := Branch(at, 0, 0, 0)];
    forall x, b | x in br1 && br1[x].Link(b) != 0
      ensures br1[x].Link(b) in br1 && br1[br1[x].Link(b)].parent == x
    {
      assert x != child && br1[x].Link(b) == br[x].Link(b);
    }
  }

  lemma LinkWithChild(br: Branches, at: nat, bit: bool, child: nat, x: nat, b: bool)
    requires at in br && child !in br && (x in br || x == child)
    ensures WithChild(br, at, bit, child)[x].Link(b) ==
            if x == child then 0 else if x == at && b == bit then child else br[x].Link(b)
  {
  }

  /** A new child adds exactly one word below its parent; everything else leads where it led. */
  lemma {:induction false} WalkWithChild(br: Branches, at: nat, bit: bool, child: nat, start: nat, v: Word)
    requires WellLinked(br) && at in br && br[at].Link(bit) == 0 && child !in br && child > at
    requires WellLinked(WithChild(br, at, bit, child)) && start in br
    ensures var br' := WithChild(br, at, bit, child);
            Walk(br', start, v) ==
            if v != [] && Walk(br, start, v[..|v| - 1]) == Some(at) && v[|v| - 1] == bit then Some(child)
            else Walk(br, start, v)
  {
    if v != [] {
      var u, b := v[..|v| - 1], v[|v| - 1];
      WalkWithChild(br, at, bit, child, start, u);
      var p, p' := Walk(br, start, u), Walk(WithChild(br, at, bit, child), start, u);
      if p' == p {
        if p.Some? { LinkWithChild(br, at, bit, child, p.value, b); }
      } else {
        LinkWithChild(br, at, bit, child, child, b);
        assert p == None;
      }
    }
  }

  // ----- cutting a branch off

  ghost predicate Linked(br: Branches, x: nat)
    requires WellLinked(br) && x in br
  {
    x != 0 && (br[br[x].parent].left == x || br[br[x].parent].right == x)
  }

  /** x is `top` or hangs below it. */
  ghost predicate Below(br: Branches, top: nat, x: nat)
    requires WellLinked(br) && x in br
    decreases x
  {
    x == top || (Linked(br, x) && Below(br, top, br[x].parent))
  }

  function Unlinked(b: Branch, child: nat): Branch {
    if child == b.left then b.(left := 0)
    else if child == b.right then b.(right := 0)
    else b
  }

  /** What deleting a branch leaves: everything at or below it emptied, its parent's link cleared,
      recorded parents kept. */
  ghost function Pruned(br: Branches, top: nat): (r: Branches)
    requires WellLinked(br) && top in br
    ensures r.Keys == br.Keys
  {
    map x | x in br ::
      if Below(br, top, x) then Branch(br[x].parent, 0, 0, 0)
      else if x == br[top].parent then Unlinked(br[x], top)
      else br[x]
  }

  lemma PrunedWellLinked(br: Branches, top: nat)
    requires WellLinked(br) && top in br
    ensures WellLinked(Pruned(br, top))
  {
    var br' := Pruned(br, top);
    forall x, bit | x in br' && br'[x].Link(bit) != 0
      ensures br'[x].Link(bit) in br' && br'[br'[x].Link(bit)].parent == x
    {
      assert br'[x].Link(bit) == br[x].Link(bit);
      assert br'[br[x].Link(bit)].parent == br[br[x].Link(bit)].parent;
    }
  }

  lemma {:induction false} BelowIsBehind(br: Branches, top: nat, x: nat)
    requires WellLinked(br) && x in br && Below(br, top, x)
    ensures x >= top
    decreases x
  {
    if x != top {
      BelowIsBehind(br, top, br[x].parent);
    }
  }

  /** Being below depends only on the links behind the top. */
  lemma {:induction false} BelowAgrees(br: Branches, br': Branches, top: nat, x: nat)
    requires WellLinked(br) && WellLinked(br') && br.Keys == br'.Keys && x in br
    requires forall y :: y in br ==> br[y].parent == br'[y].parent
    requires forall y :: y in br && y > top ==> (Linked(br, y) <==> Linked(br', y))
    ensures Below(br, top, x) <==> Below(br', top, x)
    decreases x
  {
    if x > top {
      BelowAgrees(br, br', top, br[x].parent);
    } else if x < top {
      if Below(br, top, x) { BelowIsBehind(br, top, x); }
      if Below(br', top, x) { BelowIsBehind(br', top, x); }
    }
  }

  lemma {:induction false} BelowTransitive(br: Branches, top: nat, mid: nat, x: nat)
    requires WellLinked(br) && x in br && mid in br && Below(br, top, mid) && Below(br, mid, x)
    ensures Below(br, top, x)
    decreases x
  {
    if x != mid {
      BelowTransitive(br, top, mid, br[x].parent);
    }
  }

  /** The subtrees of two children of one branch are apart. */
  lemma {:induction false} SiblingsApart(br: Branches, l: nat, r: nat, x: nat)
    requires WellLinked(br) && x in br && l in br && r in br
    requires l != 0 && r != 0 && br[l].parent == br[r].parent
    requires Below(br, l, x) && Below(br, r, x)
    ensures l == r
    decreases x
  {
    if x == l && l != r {
      BelowIsBehind(br, r, br[x].parent);
    } else if x == r && l != r {
      BelowIsBehind(br, l, br[x].parent);
    } else if l != r {
      SiblingsApart(br, l, r, br[x].parent);
    }
  }

  /** At or below a branch: the branch itself, or below one of its children. */
  lemma {:induction false} BelowByChild(br: Branches, top: nat, x: nat)
    requires WellLinked(br) && x in br && top in br
    ensures Below(br, top, x) <==>
            x == top
            || (br[top].left != 0 && Below(br, br[top].left, x))
            || (br[top].right != 0 && Below(br, br[top].right, x))
    decreases x
  {
    var l, r := br[top].Link(false), br[top].Link(true);
    if Below(br, top, x) && x != top {
      BelowByChild(br, top, br[x].parent);
    }
    if l != 0 && Below(br, l, x) {
      assert Below(br, top, top);
      assert Below(br, top, l);
      BelowTransitive(br, top, l, x);
    }
    if r != 0 && Below(br, r, x) {
      assert Below(br, top, top);
      assert Below(br, top, r);
      BelowTransitive(br, top, r, x);
    }
  }

  /** A reached branch hangs below the cut branch exactly when its word runs through the cut. */
  lemma {:induction false} BelowIsPrefix(br: Branches, start: nat, c: Word, v: Word)
    requires WellLinked(br) && start in br && Leads(br, start, c) && Leads(br, start, v)
    ensures Below(br, Walk(br, start, c).value, Walk(br, start, v).value) <==> c == v || ProperPrefix(c, v)
  {
    var i, x := Walk(br, start, c).value, Walk(br, start, v).value;
    if c == v {
    } else {
      if x == i {
        WalkInjective(br, start, c, v);
      }
      if v == [] {
        WalkBound(br, start, c);
        if Below(br, i, x) { BelowIsBehind(br, i, x); }
      } else {
        WalkParent(br, start, v);
        var u := v[..|v| - 1];
        assert v == u + [v[|v| - 1]];
        BelowIsPrefix(br, start, c, u);
        assert br[x].parent == Walk(br, start, u).value;
        assert Linked(br, x);
        assert ProperPrefix(c, v) <==> c == u || ProperPrefix(c, u);
      }
    }
  }

  /** Cutting the branch at word c takes away the words through c and no others. */
  lemma {:induction false} WalkPruned(br: Branches, start: nat, c: Word, v: Word)
    requires WellLinked(br) && start in br && c != [] && Leads(br, start, c)
    requires WellLinked(Pruned(br, Walk(br, start, c).value))
    ensures var br' := Pruned(br, Walk(br, start, c).value);
            Walk(br', start, v) == if c == v || ProperPrefix(c, v) then None else Walk(br, start, v)
  {
    var top := Walk(br, start, c).value;
    if v != [] {
      var u, bit := v[..|v| - 1], v[|v| - 1];
      Snoc(v);
      PrefixPush(c, u, bit);
      WalkPruned(br, start, c, u);
      if !ProperPrefix(c, v) && Leads(br, start, u) {
        LinkPruned(br, start, c, u, bit);
      }
    }
  }

  lemma LinkPruned(br: Branches, start: nat, c: Word, u: Word, bit: bool)
    requires WellLinked(br) && start in br && c != [] && Leads(br, start, c) && Leads(br, start, u)
    requires c != u && !ProperPrefix(c, u)
    ensures var p := Walk(br, start, u).value;
            Pruned(br, Walk(br, start, c).value)[p].Link(bit) == if c == u + [bit] then 0 else br[p].Link(bit)
  {
    var top, p := Walk(br, start, c).value, Walk(br, start, u).value;
    var v := u + [bit];
    WalkPush(br, start, u, bit);
    BelowIsPrefix(br, start, c, u);
    WalkParent(br, start, c);
    Snoc(c);
    if p == br[top].parent {
      WalkInjective(br, start, u, c[..|c| - 1]);
    }
  }
}
