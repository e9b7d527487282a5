/**
  Paths: cursors over the branches of a database. Moving writes missing children, indexing
  writes the bits of a key, and clearing cuts a key off at its last bifurcation.
 */
module Paths {
  import opened BitWords
  import opened ByteStrings
  import opened DatabaseBase
  import opened PowerEncoding
  import opened Stacks
  import opened Trie
  import opened Sequences

  /** The data stored at a branch; no data is not the same as empty data. */
  function DataAt(br: Branches, blobs: Blobs, x: nat): Option<Bytes>
    requires x in br && (br[x].dataIndex != 0 ==> br[x].dataIndex in blobs)
  {
    if br[x].dataIndex == 0 then None else Some(blobs[br[x].dataIndex])
  }

  // ----- writing the bits of a word

  /** All records lie in the first `size` bytes. */
  ghost predicate Within(br: Branches, size: nat) {
    forall x :: x in br ==> x < size
  }

  /** The branches after moving to a child, which is appended at the end of the file when missing. */
  ghost function Stepped(br: Branches, at: nat, bit: bool, size: nat): (r: Branches)
    requires at in br
    ensures at in r
  {
    if br[at].Link(bit) != 0 then br else WithChild(br, at, bit, size)
  }

  ghost function Growth(br: Branches, at: nat, bit: bool): nat
    requires at in br
  {
    if br[at].Link(bit) != 0 then 0 else BRANCH_SIZE
  }

  lemma SteppedWellLinked(br: Branches, at: nat, bit: bool, size: nat)
    requires WellLinked(br) && at in br && Within(br, size)
    ensures var br' := Stepped(br, at, bit, size);
            && WellLinked(br') && Within(br', size + Growth(br, at, bit))
            && br'[at].Link(bit) in br' && br'[at].Link(bit) != 0
            && (br[at].Link(bit) == 0 ==> br'[at].Link(bit) == size)
  {
    if br[at].Link(bit) == 0 {
      WithChildWellLinked(br, at, bit, size);
    }
  }

  /** The branches after writing the bits of w from a branch. */
  ghost function Indexed(br: Branches, at: nat, w: Word, size: nat): Branches
    requires WellLinked(br) && at in br && Within(br, size)
    decreases |w|
  {
    if w == [] then br
    else
      var br' := Stepped(br, at, w[0], size);
      SteppedWellLinked(br, at, w[0], size);
      Indexed(br', br'[at].Link(w[0]), w[1..], size + Growth(br, at, w[0]))
  }

  lemma {:induction false} IndexedWellLinked(br: Branches, at: nat, w: Word, size: nat)
    requires WellLinked(br) && at in br && Within(br, size)
    ensures WellLinked(Indexed(br, at, w, size))
    ensures forall x :: x in br ==> x in Indexed(br, at, w, size)
    decreases |w|
  {
    if w != [] {
      var br' := Stepped(br, at, w[0], size);
      SteppedWellLinked(br, at, w[0], size);
      IndexedWellLinked(br', br'[at].Link(w[0]), w[1..], size + Growth(br, at, w[0]));
    }
  }

  /** Moving to a child makes one word lead somewhere; all others are as they were. */
  lemma SteppedWalk(br: Branches, at: nat, bit: bool, size: nat, start: nat, c: Word, v: Word)
    requires WellLinked(br) && at in br && Within(br, size) && WellLinked(Stepped(br, at, bit, size))
    requires start in br && Walk(br, start, c) == Some(at)
    ensures var br' := Stepped(br, at, bit, size);
            && start in br'
            && (Leads(br', start, v) <==> Leads(br, start, v) || v == c + [bit])
            && (Leads(br, start, v) ==> Walk(br', start, v) == Walk(br, start, v))
            && Walk(br', start, c + [bit]) == Some(br'[at].Link(bit))
  {
    WalkPush(br, start, c, bit);
    if br[at].Link(bit) == 0 {
      assert (c + [bit])[..|c|] == c;
      WalkWithChild(br, at, bit, size, start, v);
      WalkWithChild(br, at, bit, size, start, c + [bit]);
      NewChildWord(br, start, c, bit, v);
    }
  }

  /** Writing w below the word c adds the words from c to c + w, and nothing else; what led
      somewhere still leads there. */
  lemma {:induction false} IndexedWalk(br: Branches, at: nat, w: Word, size: nat, start: nat, c: Word, v: Word)
    requires WellLinked(br) && at in br && Within(br, size) && WellLinked(Indexed(br, at, w, size))
    requires start in br && start in Indexed(br, at, w, size) && Walk(br, start, c) == Some(at)
    ensures var br' := Indexed(br, at, w, size);
            && (Leads(br', start, v) <==> Leads(br, start, v) || (ProperPrefix(c, v) && v <= c + w))
            && (Leads(br, start, v) ==> Walk(br', start, v) == Walk(br, start, v))
    decreases |w|
  {
    if w == [] {
      assert c + w == c;
    } else {
      var br1 := Stepped(br, at, w[0], size);
      SteppedWellLinked(br, at, w[0], size);
      SteppedWalk(br, at, w[0], size, start, c, v);
      AlongPath(c, w, v);
      IndexedWalk(br1, br1[at].Link(w[0]), w[1..], size + Growth(br, at, w[0]), start, c + [w[0]], v);
    }
  }

  lemma IndexedFirst(br: Branches, at: nat, w: Word, size: nat)
    requires WellLinked(br) && at in br && Within(br, size) && w != []
    ensures var br', size' := Stepped(br, at, w[0], size), size + Growth(br, at, w[0]);
            && WellLinked(br') && Within(br', size') && br'[at].Link(w[0]) in br'
            && Indexed(br, at, w, size) == Indexed(br', br'[at].Link(w[0]), w[1..], size')
  {
    SteppedWellLinked(br, at, w[0], size);
  }

  /** Writing k from a branch on has come to bit i, and what is left to write leads to the goal. */
  ghost predicate Writing(br: Branches, from: nat, k: Word, i: nat, at: nat, size: nat, goal: Branches) {
    && WellLinked(br) && from in br && at in br && Within(br, size) && i <= |k|
    && Indexed(br, at, k[i..], size) == goal && Walk(br, from, k[..i]) == Some(at)
  }

  lemma WriteStart(br: Branches, from: nat, k: Word, size: nat)
    requires WellLinked(br) && from in br && Within(br, size)
    ensures Writing(br, from, k, 0, from, size, Indexed(br, from, k, size))
  {
    FromStart(k);
  }

  lemma WriteEnd(br: Branches, from: nat, k: Word, at: nat, size: nat, goal: Branches)
    requires Writing(br, from, k, |k|, at, size, goal)
    ensures br == goal && Walk(br, from, k) == Some(at)
  {
    Whole(k);
  }

  lemma WriteStep(br: Branches, from: nat, k: Word, i: nat, at: nat, size: nat, goal: Branches)
    requires i < |k| && Writing(br, from, k, i, at, size, goal)
    ensures var br' := Stepped(br, at, k[i], size);
            at in br' && Writing(br', from, k, i + 1, br'[at].Link(k[i]), size + Growth(br, at, k[i]), goal)
  {
    DropNext(k, i);
    IndexedFirst(br, at, k[i..], size);
    SteppedWellLinked(br, at, k[i], size);
    SteppedWalk(br, at, k[i], size, from, k[..i], []);
    TakeNext(k, i);
  }

  /** The words strictly between c and c + w, split at the first bit of w. */
  lemma AlongPath(c: Word, w: Word, v: Word)
    requires w != []
    ensures var c' := c + [w[0]];
            ProperPrefix(c, v) && v <= c + w <==> v == c' || (ProperPrefix(c', v) && v <= c' + w[1..])
  {
    var c' := c + [w[0]];
    assert c + w == c' + w[1..];
    assert c'[..|c|] == c;
    if |v| > |c| && v <= c + w {
      assert v[..|c'|] == (c + w)[..|c'|] == c';
      assert v[..|c|] == (c + w)[..|c|] == c;
      assert |v| == |c'| ==> v == v[..|c'|];
    }
    if v == c' {
      assert v == (c + w)[..|v|];
    }
    if ProperPrefix(c', v) {
      assert v[..|c|] == v[..|c'|][..|c|] == c;
    }
  }

  lemma NewChildWord(br: Branches, start: nat, c: Word, bit: bool, v: Word)
    requires WellLinked(br) && start in br && Leads(br, start, c)
    ensures v == c + [bit] <==> v != [] && Walk(br, start, v[..|v| - 1]) == Walk(br, start, c) && v[|v| - 1] == bit
  {
    if v == c + [bit] {
      assert v[..|v| - 1] == c;
    }
    if v != [] && Walk(br, start, v[..|v| - 1]) == Walk(br, start, c) {
      WalkInjective(br, start, c, v[..|v| - 1]);
      Snoc(v);
    }
  }

  /** Writing a word moves no data. */
  lemma {:induction false} IndexedData(br: Branches, at: nat, w: Word, size: nat, x: nat)
    requires WellLinked(br) && at in br && Within(br, size) && x in Indexed(br, at, w, size)
    ensures Indexed(br, at, w, size)[x].dataIndex == if x in br then br[x].dataIndex else 0
    decreases |w|
  {
    if w != [] {
      var br' := Stepped(br, at, w[0], size);
      SteppedWellLinked(br, at, w[0], size);
      IndexedData(br', br'[at].Link(w[0]), w[1..], size + Growth(br, at, w[0]), x);
    }
  }

  lemma WithChildDataLinked(br: Branches, blobs: Blobs, at: nat, bit: bool, child: nat)
    requires DataLinked(br, blobs) && at in br && child !in br
    ensures DataLinked(WithChild(br, at, bit, child), blobs)
    ensures DataLinked(br[child := Branch(at, 0, 0, 0)], blobs)
  {
    var br' := WithChild(br, at, bit, child);
    forall x, y | x in br' && y in br' && x != y
      ensures DataApart(br'[x], br'[y])
    {
      assert x in br && y in br ==> DataApart(br[x], br[y]);
    }
    var br1 := br[child := Branch(at, 0, 0, 0)];
    forall x, y | x in br1 && y in br1 && x != y
      ensures DataApart(br1[x], br1[y])
    {
      assert x in br && y in br ==> DataApart(br[x], br[y]);
    }
  }

  lemma ValidWithin(db: Database)
    requires db.Valid()
    ensures Within(db.branches, |db.file|)
  {
    forall x | x in db.branches
      ensures x < |db.file|
    {
      assert BranchAt(db.file, x, db.branches[x]);
    }
  }

  // ----- cutting a key

  ghost predicate ForkAt(br: Branches, start: nat, k: Word, i: nat)
    requires WellLinked(br) && start in br
  {
    i < |k| && Leads(br, start, k[..i]) &&
    var x := Walk(br, start, k[..i]).value; br[x].left != 0 && br[x].right != 0
  }

  /** The number of bits of k before the last branch on its way that has both children. */
  ghost function LastFork(br: Branches, start: nat, k: Word, n: nat): (i: nat)
    requires WellLinked(br) && start in br && n <= |k|
    ensures i == 0 || (i < n && ForkAt(br, start, k, i))
    ensures forall j :: i < j < n ==> !ForkAt(br, start, k, j)
    decreases n
  {
    if n == 0 then 0
    else if ForkAt(br, start, k, n - 1) then n - 1
    else LastFork(br, start, k, n - 1)
  }

  /** The word at which a key is cut off. */
  ghost function CutWord(br: Branches, start: nat, k: Word): (c: Word)
    requires WellLinked(br) && start in br && k != []
    ensures c != [] && c <= k
  {
    k[..LastFork(br, start, k, |k|) + 1]
  }

  /** The branches after clearing a key. */
  ghost function Cleared(br: Branches, start: nat, k: Word): Branches
    requires WellLinked(br) && start in br && k != []
  {
    if !Leads(br, start, k) then br
    else
      WalkPrefix(br, start, k, |CutWord(br, start, k)|);
      Pruned(br, Walk(br, start, CutWord(br, start, k)).value)
  }

  class Path {
    const database: Database
    var index: nat
    var count: int

    ghost predicate Valid()
      reads this, database
    {
      database.Valid() && index in database.branches
    }

    constructor (database: Database, index: nat)
      ensures this.database == database && this.index == index && count == 0
    {
      this.database, this.index, count := database, index, 0;
    }

    method GetBranch() returns (b: Branch)
      requires Valid()
      ensures b == database.branches[index]
    {
      b := database.GetBranch(index);
    }

    method CanGoLeft() returns (can: bool)
      requires Valid()
      ensures can <==> database.branches[index].Link(false) != 0
    {
      var b := GetBranch();
      can := b.left != 0;
    }

    method CanGoRight() returns (can: bool)
      requires Valid()
      ensures can <==> database.branches[index].Link(true) != 0
    {
      var b := GetBranch();
      can := b.right != 0;
    }

    method IsDeadEnd() returns (dead: bool)
      requires Valid()
      ensures dead <==> database.branches[index].IsDeadEnd()
    {
      var b := GetBranch();
      dead := b.IsDeadEnd();
    }

    /** Appends a branch and links it to the one at the cursor. */
    method Grow(bit: bool) returns (child: nat)
      requires Valid() && database.branches[index].Link(bit) == 0 && database.Room(BRANCH_SIZE)
      modifies database
      ensures Valid() && child == old(|database.file|) > index && |database.file| == child + BRANCH_SIZE
      ensures database.branches == WithChild(old(database.branches), index, bit, child)
      ensures database.blobs == old(database.blobs) && database.branches[index].Link(bit) == child
    {
      var branch := GetBranch();
      ghost var br := database.branches;
      ValidWithin(database);
      child := database.GetNextIndex(index);
      WithChildWellLinked(br, index, bit, child);
      WithChildDataLinked(br, database.blobs, index, bit, child);
      database.SetBranch(index, branch.WithLink(bit, child));
    }

    /** Moves to the left child, writing it when there is none. */
    method GoLeft()
      requires Valid() && database.Room(Growth(database.branches, index, false))
      modifies this, database
      ensures Valid() && database.blobs == old(database.blobs)
      ensures database.branches == Stepped(old(database.branches), old(index), false, old(|database.file|))
      ensures |database.file| == old(|database.file|) + Growth(old(database.branches), old(index), false)
      ensures index == database.branches[old(index)].Link(false) != 0
      ensures Growth(old(database.branches), old(index), false) == 0 ==> unchanged(database)
      ensures count == if old(count) > 0 then old(count) - 1 else old(count)
    {
      var branch := GetBranch();
      assert branch.Link(false) == branch.left;
      if branch.left == 0 {
        var child := Grow(false);
        branch := branch.(left := child);
      }
      index := branch.left;
      if count > 0 {
        count := count - 1;
      }
    }

    /** Moves to the right child, writing it when there is none. */
    method GoRight()
      requires Valid() && database.Room(Growth(database.branches, index, true))
      modifies this, database
      ensures Valid() && database.blobs == old(database.blobs)
      ensures database.branches == Stepped(old(database.branches), old(index), true, old(|database.file|))
      ensures |database.file| == old(|database.file|) + Growth(old(database.branches), old(index), true)
      ensures index == database.branches[old(index)].Link(true) != 0
      ensures Growth(old(database.branches), old(index), true) == 0 ==> unchanged(database)
      ensures count == old(count) + 1
    {
      var branch := GetBranch();
      assert branch.Link(true) == branch.right;
      if branch.right == 0 {
        var child := Grow(true);
        branch := branch.(right := child);
      }
      index := branch.right;
      count := count + 1;
    }

    /** Moves to the recorded parent, linked or not. */
    method GoUp()
      requires Valid()
      modifies this
      ensures Valid() && index == old(database.branches[index].parent)
      ensures count == if database.branches[index].left == old(index) then old(count) + 1 else old(count) - 1
    {
      var branch := GetBranch();
      var parent := database.GetBranch(branch.parent);
      if parent.left == index {
        count := count + 1;
      } else {
        count := count - 1;
      }
      index := branch.parent;
    }

    /** Moves to the child of the bit. The move counts the bit, and writing counts it once more. */
    method WriteBit(bit: bool)
      requires Valid() && database.Room(Growth(database.branches, index, bit))
      modifies this, database
      ensures Valid() && database.blobs == old(database.blobs)
      ensures database.branches == Stepped(old(database.branches), old(index), bit, old(|database.file|))
      ensures |database.file| == old(|database.file|) + Growth(old(database.branches), old(index), bit)
      ensures index == database.branches[old(index)].Link(bit) != 0
      ensures count == Tick(2, old(count), bit)
    {
      if bit == false {
        GoLeft();
      } else {
        GoRight();
      }
      if bit {
        count := count + 1;
      } else if count > 0 {
        count := count - 1;
      }
    }

    /** Indexing: writes the bits of an encoded key from here, and moves to its end. */
    method WriteKey(k: Word)
      requires Valid() && database.Room(BRANCH_SIZE * |k|)
      modifies this, database
      ensures Valid() && database.blobs == old(database.blobs)
      ensures Within(old(database.branches), old(|database.file|))
      ensures database.branches == Indexed(old(database.branches), old(index), k, old(|database.file|))
      ensures old(index) in database.branches && Walk(database.branches, old(index), k) == Some(index)
      ensures |database.file| <= old(|database.file|) + BRANCH_SIZE * |k|
    {
      ghost var from, size := index, |database.file|;
      ValidWithin(database);
      ghost var goal := Indexed(database.branches, index, k, size);
      WriteStart(database.branches, index, k, size);
      for i := 0 to |k|
        invariant Valid() && database.blobs == old(database.blobs)
        invariant |database.file| <= size + BRANCH_SIZE * i
        invariant Writing(database.branches, from, k, i, index, |database.file|, goal)
      {
        WriteStep(database.branches, from, k, i, index, |database.file|, goal);
        WriteBit(k[i]);
      }
      WriteEnd(database.branches, from, k, index, |database.file|, goal);
    }

    /** Whether the bits of an encoded key lead anywhere; nothing is written. */
    method Contains(k: Word) returns (contains: bool)
      requires Valid() && k != []
      ensures contains <==> Leads(database.branches, index, k)
    {
      var at := index;
      var start := GetBranch();
      contains := !start.IsDeadEnd();
      ghost var br := database.branches;
      ghost var stop := 1;
      WalkPush(br, index, k[..0], k[0]);
      assert k[..0] + [k[0]] == k[..1];
      for i := 0 to |k|
        invariant contains ==> Walk(br, index, k[..i]) == Some(at)
        invariant !contains ==> stop <= |k| && !Leads(br, index, k[..stop])
      {
        if contains {
          var branch := database.GetBranch(at);
          WalkPush(br, index, k[..i], k[i]);
          TakeNext(k, i);
          if !k[i] && branch.left != 0 {
            at := branch.left;
          } else if k[i] && branch.right != 0 {
            at := branch.right;
          } else {
            at := 0;
            contains := false;
            stop := i + 1;
          }
        }
      }
      Whole(k);
      if Leads(br, index, k) && !contains {
        WalkPrefix(br, index, k, stop);
      }
    }

    method GetData() returns (data: Bytes)
      requires Valid()
      ensures data == match DataAt(database.branches, database.blobs, index) case None => [] case Some(d) => d
    {
      var branch := GetBranch();
      if branch.dataIndex != 0 {
        data := database.GetData(branch.dataIndex);
      } else {
        data := [];
      }
    }

    /** Stores data at the cursor, in place when the size is unchanged. */
    method SetData(value: Bytes) returns (changed: bool)
      requires Valid() && database.Room(INDEX_SIZE + |value|)
      modifies database
      ensures Valid() && database.branches.Keys == old(database.branches.Keys)
      ensures DataAt(database.branches, database.blobs, index) == Some(value)
      ensures forall x :: x in database.branches && x != index ==>
                DataAt(database.branches, database.blobs, x) == old(DataAt(database.branches, database.blobs, x))
      ensures forall x, bit :: x in database.branches ==>
                && database.branches[x].Link(bit) == old(database.branches)[x].Link(bit)
                && database.branches[x].parent == old(database.branches)[x].parent
      ensures changed <==> old(DataAt(database.branches, database.blobs, index)) != Some(value)
    {
      ghost var br, blobs := database.branches, database.blobs;
      var branch := GetBranch();
      BlobsNotAtZero(database.file, br, blobs);
      var current := database.GetData(branch.dataIndex);
      if branch.dataIndex != 0 {
        if |current| != |value| {
          database.DeleteData(index);
          branch := branch.(dataIndex := 0);
        }
      }
      if branch.dataIndex == 0 {
        ghost var br1 := database.branches;
        var dataIndex := database.Allocate(value);
        branch := branch.(dataIndex := dataIndex);
        SetDataLinked(br1, database.blobs, index, branch);
        database.SetBranch(index, branch);
        DataElsewhere(br, blobs, database.branches, database.blobs, index, value);
        changed := true;
      } else if current != value {
        database.SetData(branch.dataIndex, value);
        DataElsewhere(br, blobs, database.branches, database.blobs, index, value);
        changed := true;
      } else {
        changed := false;
      }
    }

    method DeleteData()
      requires Valid()
      modifies database
      ensures Valid() && database.blobs == old(database.blobs) && |database.file| == old(|database.file|)
      ensures database.branches == old(database.branches)[index := old(database.branches)[index].(dataIndex := 0)]
    {
      database.DeleteData(index);
    }

    /** Removes the data at the cursor and everything below it. */
    method Clear()
      requires Valid()
      modifies database
      ensures Valid() && database.blobs == old(database.blobs) && |database.file| == old(|database.file|)
      ensures var br := old(database.branches)[index := old(database.branches)[index].(dataIndex := 0)];
              WellLinked(br) && database.branches == Bared(br, index)
    {
      var branch := GetBranch();
      ghost var br := database.branches;
      if branch.dataIndex != 0 {
        DeleteData();
      }
      branch := branch.(dataIndex := 0);
      SameMap(database.branches, br[index := branch]);
      database.DeleteChildren(index, branch);
    }

    /** Walks up along the recorded parents, counting zeros up and ones down in an unsigned word,
        until the count is back at zero or a root is reached; the bits passed, reversed, are
        the key. From the end of a key it stops exactly at the key's start; from a branch that its
        parent no longer links to, it gives no bits. */
    method Parent(stack: Stack, rootIndex: nat, ghost start: nat, ghost k: Word) returns (parentIndex: nat)
      requires Valid() && stack.bits == [] && start in database.branches
      modifies stack
      ensures stack.it == 0 && stack.count == 0 && parentIndex in database.branches
      ensures Ending(database.branches, index, start, k, rootIndex) ==> parentIndex == start && stack.bits == k
      ensures Forgotten(database.branches, index) ==> stack.bits == []
    {
      ghost var br := database.branches;
      var count: nat := 0;
      var branch := GetBranch();
      parentIndex := index;
      var again := true;
      ghost var n: nat := |k|;
      ValidWithin(database);
      UpwardStart(br, index, start, k, rootIndex);
      while again
        invariant unchanged(database) && parentIndex in br && branch == br[parentIndex]
        invariant Upward(br, index, start, k, rootIndex, n, parentIndex, stack.bits, count, again)
        decreases again, parentIndex
      {
        UpwardStep(br, index, start, k, rootIndex, n, parentIndex, stack.bits, count);
        var parent := database.GetBranch(branch.parent);
        if parentIndex == parent.left {
          stack.PushBack(false);
          count := CountUp(count);
        } else if parentIndex == parent.right {
          stack.PushBack(true);
          count := CountDown(count);
        }
        parentIndex := branch.parent;
        branch := parent;
        n := if n == 0 then 0 else n - 1;
        again := count > 0 && parentIndex != rootIndex && parentIndex != 0;
      }
      UpwardEnd(br, index, start, k, rootIndex, n, parentIndex, stack.bits, count);
      stack.Reverse();
      stack.Reset();
    }

    /** The parent of a path indexed by a number, and the number. */
    method ParentNumber(rootIndex: nat, ghost start: nat, ghost v: nat) returns (parentIndex: nat, value: nat)
      requires Valid() && start in database.branches
      ensures Walk(database.branches, start, NumberKey(v)) == Some(index)
              && RootOutside(database.branches, start, NumberKey(v), rootIndex) ==>
                parentIndex == start && value == v
    {
      var stack := new Stack();
      parentIndex := Parent(stack, rootIndex, start, NumberKey(v));
      NumberKeyIsKey(v);
      stack.Reset();
      value := 0;
      if |stack.bits| > 0 {
        assert stack.bits[0..] == stack.bits && NumberKey(v) == NumberKey(v) + [];
        value := stack.ReadNumber();
      }
    }

    /** The parent of a path indexed by a string, and the string. */
    method ParentString(rootIndex: nat, ghost start: nat, ghost s: Bytes) returns (parentIndex: nat, value: seq<nat>)
      requires Valid() && start in database.branches
      ensures Walk(database.branches, start, StringKey(s)) == Some(index)
              && RootOutside(database.branches, start, StringKey(s), rootIndex) ==>
                parentIndex == start && value == Numbers(s)
      ensures Forgotten(database.branches, index) ==> value == []
    {
      var stack := new Stack();
      parentIndex := Parent(stack, rootIndex, start, StringKey(s));
      StringKeyIsKey(s);
      stack.Reset();
      value := [];
      if |stack.bits| > 0 {
        FromStart(stack.bits);
        Unit(StringKey(s));
        value := stack.ReadString();
      }
    }

    /** Follows a key to its end, remembering the last branch with two children and the bit
        taken there; without any, the start and the bit one. */
    method LastBifurcation(k: Word) returns (lastIndex: nat, lastBit: bool)
      requires Valid() && k != [] && Leads(database.branches, index, k)
      ensures var fork := LastFork(database.branches, index, k, |k|);
              && Walk(database.branches, index, k[..fork]) == Some(lastIndex)
              && lastBit == if fork == 0 && !ForkAt(database.branches, index, k, 0) then true else k[fork]
    {
      var at := index;
      lastIndex, lastBit := index, true;
      ghost var fork := 0;
      for i := 0 to |k|
        invariant Walk(database.branches, index, k[..i]) == Some(at)
        invariant fork == LastFork(database.branches, index, k, i) && fork <= i
        invariant Walk(database.branches, index, k[..fork]) == Some(lastIndex)
        invariant lastBit == if fork == 0 && (i == 0 || !ForkAt(database.branches, index, k, 0)) then true else k[fork]
      {
        var bit := k[i];
        var branch := database.GetBranch(at);
        if branch.left != 0 && branch.right != 0 {
          lastIndex, lastBit := at, bit;
          fork := i;
        }
        WalkOneMore(database.branches, index, k, i);
        if bit == false {
          at := branch.left;
        } else {
          at := branch.right;
        }
      }
    }

    /** Removes a key: everything from its last bifurcation down goes. */
    method ClearKey(k: Word)
      requires Valid() && IsKey(k)
      modifies database
      ensures Valid() && database.blobs == old(database.blobs) && |database.file| == old(|database.file|)
      ensures database.branches == Cleared(old(database.branches), index, k)
    {
      var contains := Contains(k);
      if !contains {
        return;
      }
      KeyStartsWithOne(k);
      var lastIndex, lastBit := LastBifurcation(k);
      CutBranch(database.branches, index, k, lastIndex, lastBit);
      var branch := database.GetBranch(lastIndex);
      if lastBit == false {
        database.DeleteBranch(branch.left);
      } else {
        database.DeleteBranch(branch.right);
      }
    }
  }

  // ----- going back to the parent

  /** The parent recorded in the branch links to it no more. */
  ghost predicate Forgotten(br: Branches, x: nat)
    requires WellLinked(br) && x in br
  {
    x != 0 && br[br[x].parent].left != x && br[br[x].parent].right != x
  }

  /** The root index is not strictly inside the key. */
  ghost predicate RootOutside(br: Branches, start: nat, k: Word, rootIndex: nat)
    requires WellLinked(br) && start in br
  {
    forall i :: 0 < i < |k| ==> Walk(br, start, k[..i]) != Some(rootIndex)
  }

  /** Where the root is itself reached by whole keys, no key started at whole keys runs through it. */
  lemma RootAtBoundary(br: Branches, p: Word, k: Word, r: Word, start: nat, rootIndex: nat)
    requires WellLinked(br) && IsKey(k) && Level(p) == 0 && Level(r) == 0
    requires Walk(br, 0, p) == Some(start) && Walk(br, 0, r) == Some(rootIndex)
    ensures RootOutside(br, start, k, rootIndex)
  {
    forall i | 0 < i < |k|
      ensures Walk(br, start, k[..i]) != Some(rootIndex)
    {
      WalkConcat(br, 0, p, k[..i]);
      LevelConcat(p, k[..i]);
      KeyPrefixOpen(k, i);
      assert k[..i][..i] == k[..i];
      if Walk(br, start, k[..i]) == Some(rootIndex) {
        WalkInjective(br, 0, p + k[..i], r);
      }
    }
  }

  /** The state of the upward walk from the end of k: n bits of k are still above. */
  ghost predicate Climbing(br: Branches, start: nat, k: Word, n: nat, at: nat, bits: Word, count: nat)
    requires WellLinked(br) && start in br
  {
    n <= |k| && Walk(br, start, k[..n]) == Some(at) && Reversed(bits) == k[n..] && count == Level(k[..n])
  }

  lemma ClimbStart(br: Branches, start: nat, k: Word, at: nat)
    requires WellLinked(br) && start in br && IsKey(k) && Walk(br, start, k) == Some(at)
    ensures Climbing(br, start, k, |k|, at, [], 0) && |k| > 0 && |k| <= at
  {
    assert k[..|k|] == k && k[|k|..] == [];
    WalkBound(br, start, k);
  }

  lemma {:induction false} LevelBound(w: Word)
    ensures Level(w) <= |w|
  {
    if w != [] {
      LevelBound(w[..|w| - 1]);
    }
  }

  lemma LastTaken(k: Word, n: nat, bits: Word)
    requires 0 < n <= |k|
    ensures var u, bit := k[..n - 1], k[n - 1];
            && k[..n] == u + [bit] && k[..n][..n - 1] == u && k[..n][n - 1] == bit && u[..n - 1] == u
            && (Reversed(bits) == k[n..] ==> Reversed(bits + [bit]) == k[n - 1..])
  {
    assert (bits + [k[n - 1]])[..|bits|] == bits;
    assert k[n - 1..] == [k[n - 1]] + k[n..];
  }

  /** One bit up: the bit is told by the parent's links, the count by the bits still above, and
      the walk goes on exactly when there are any. */
  lemma ClimbStep(br: Branches, start: nat, k: Word, n: nat, at: nat, bits: Word, count: nat, rootIndex: nat)
    requires WellLinked(br) && start in br && IsKey(k) && n > 0 && Climbing(br, start, k, n, at, bits, count)
    requires RootOutside(br, start, k, rootIndex)
    ensures at in br && br[at].parent in br && count <= n
    ensures br[br[at].parent].left == at ==>
              n > 1 && Climbing(br, start, k, n - 1, br[at].parent, bits + [false], count + 1)
    ensures br[br[at].parent].left != at ==>
              && br[br[at].parent].right == at && count > 0 && (n > 1 <==> count > 1)
              && Climbing(br, start, k, n - 1, br[at].parent, bits + [true], count - 1)
    ensures n > 1 ==> br[at].parent != 0 && br[at].parent != rootIndex
  {
    var w, u, bit := k[..n], k[..n - 1], k[n - 1];
    LastTaken(k, n, bits);
    WalkParent(br, start, w);
    LevelPush(u, bit);
    LevelBound(w);
    KeyPrefixOpen(k, n - 1);
    WalkBound(br, start, u);
    assert br[br[at].parent].Link(false) == br[br[at].parent].left;
  }

  /** Counting in an unsigned word. */
  function CountUp(count: nat): nat {
    if count + 1 == INDEX_LIMIT then 0 else count + 1
  }

  function CountDown(count: nat): nat {
    if count == 0 then INDEX_LIMIT - 1 else count - 1
  }

  /** The branch is the end of the key, and no root is inside the key. */
  ghost predicate Ending(br: Branches, from: nat, start: nat, k: Word, rootIndex: nat)
    requires WellLinked(br) && start in br
  {
    IsKey(k) && Walk(br, start, k) == Some(from) && RootOutside(br, start, k, rootIndex)
  }

  /** The state of the walk up from a branch, whether it is the end of the key, forgotten, or neither. */
  ghost predicate Upward(br: Branches, from: nat, start: nat, k: Word, rootIndex: nat, n: nat, at: nat, bits: Word, count: nat, again: bool)
    requires WellLinked(br) && start in br && from in br
  {
    && (Ending(br, from, start, k, rootIndex) ==> Climbing(br, start, k, n, at, bits, count) && (again <==> n > 0))
    && (Forgotten(br, from) ==> bits == [] && (again ==> at == from && count == 0))
  }

  lemma UpwardStart(br: Branches, from: nat, start: nat, k: Word, rootIndex: nat)
    requires WellLinked(br) && start in br && from in br
    ensures Upward(br, from, start, k, rootIndex, |k|, from, [], 0, true)
  {
    if Ending(br, from, start, k, rootIndex) {
      ClimbStart(br, start, k, from);
    }
  }

  lemma UpwardStep(br: Branches, from: nat, start: nat, k: Word, rootIndex: nat, n: nat, at: nat, bits: Word, count: nat)
    requires WellLinked(br) && start in br && at in br && from in br && from < INDEX_LIMIT
    requires Upward(br, from, start, k, rootIndex, n, at, bits, count, true)
    ensures var up := br[at].parent;
            && up in br && (at != 0 ==> up < at)
            && var bits' := if at == br[up].left then bits + [false] else if at == br[up].right then bits + [true] else bits;
               var count' := if at == br[up].left then CountUp(count) else if at == br[up].right then CountDown(count) else count;
               Upward(br, from, start, k, rootIndex, if n == 0 then 0 else n - 1, up, bits', count',
                      count' > 0 && up != rootIndex && up != 0)
  {
    assert br[at].parent in br && (at != 0 ==> br[at].parent < at);
    if Ending(br, from, start, k, rootIndex) {
      WalkBound(br, start, k);
      ClimbStep(br, start, k, n, at, bits, count, rootIndex);
    }
  }

  lemma UpwardEnd(br: Branches, from: nat, start: nat, k: Word, rootIndex: nat, n: nat, at: nat, bits: Word, count: nat)
    requires WellLinked(br) && start in br && from in br && Upward(br, from, start, k, rootIndex, n, at, bits, count, false)
    ensures Ending(br, from, start, k, rootIndex) ==> at == start && Reversed(bits) == k
    ensures Forgotten(br, from) ==> bits == []
  {
    FromStart(k);
  }

  lemma WalkOneMore(br: Branches, start: nat, k: Word, i: nat)
    requires WellLinked(br) && start in br && i < |k| && Leads(br, start, k)
    ensures Leads(br, start, k[..i]) && Leads(br, start, k[..i + 1])
    ensures var x := Walk(br, start, k[..i]).value; Walk(br, start, k[..i + 1]) == Some(br[x].Link(k[i])) && br[x].Link(k[i]) != 0
  {
    WalkPrefix(br, start, k, i);
    WalkPrefix(br, start, k, i + 1);
    WalkPush(br, start, k[..i], k[i]);
    TakeNext(k, i);
  }

  /** Clearing a key deletes the branch beyond its last bifurcation. */
  lemma CutBranch(br: Branches, start: nat, k: Word, lastIndex: nat, lastBit: bool)
    requires WellLinked(br) && start in br && k != [] && k[0] && Leads(br, start, k)
    requires var fork := LastFork(br, start, k, |k|);
             && Walk(br, start, k[..fork]) == Some(lastIndex)
             && lastBit == if fork == 0 && !ForkAt(br, start, k, 0) then true else k[fork]
    ensures lastIndex in br
    ensures var x := br[lastIndex].Link(lastBit); x != 0 && x in br && Cleared(br, start, k) == Pruned(br, x)
  {
    WalkOneMore(br, start, k, LastFork(br, start, k, |k|));
  }

  /** Data stored for one branch, in its record or a new one, is not that of any other. */
  lemma DataElsewhere(br: Branches, blobs: Blobs, br': Branches, blobs': Blobs, x: nat, value: Bytes)
    requires DataLinked(br, blobs) && x in br && br'.Keys == br.Keys && br'[x] == br[x].(dataIndex := br'[x].dataIndex)
    requires forall y :: y in br && y != x ==> br'[y] == br[y]
    requires br'[x].dataIndex != 0 && blobs' == blobs[br'[x].dataIndex := value]
    requires br'[x].dataIndex == br[x].dataIndex || br'[x].dataIndex !in blobs
    ensures DataAt(br', blobs', x) == Some(value)
    ensures forall y :: y in br && y != x ==>
              (br'[y].dataIndex != 0 ==> br'[y].dataIndex in blobs') && DataAt(br', blobs', y) == DataAt(br, blobs, y)
    ensures forall y, bit :: y in br ==> br'[y].Link(bit) == br[y].Link(bit) && br'[y].parent == br[y].parent
  {
    forall y | y in br && y != x
      ensures (br'[y].dataIndex != 0 ==> br'[y].dataIndex in blobs') && DataAt(br', blobs', y) == DataAt(br, blobs, y)
    {
      assert DataApart(br[x], br[y]);
    }
  }

  lemma SetDataLinked(br: Branches, blobs: Blobs, x: nat, b: Branch)
    requires WellLinked(br) && DataLinked(br, blobs) && x in br && b == br[x].(dataIndex := b.dataIndex)
    requires b.dataIndex in blobs && forall y :: y in br ==> br[y].dataIndex != b.dataIndex
    ensures WellLinked(br[x := b]) && DataLinked(br[x := b], blobs)
    ensures forall y, bit :: y in br ==> br[x := b][y].Link(bit) == br[y].Link(bit)
  {
    SameLinksWellLinked(br, x, b);
    var br' := br[x := b];
    forall y, z | y in br' && z in br' && y != z
      ensures DataApart(br'[y], br'[z])
    {
      assert DataApart(br[y], br[z]);
    }
  }
}
