/**
  The traversal: `Next` and `Previous` move a cursor and a bit stack from one complete key to
  the neighbouring one, and the loops built on them visit the keys below a start branch.
 */
module PathBase {
  import opened BitWords
  import opened Nesting
  import opened Paths
  import opened Scanning
  import opened Stacks
  import opened Trie
  import opened Sequences

  /** The scan's stack holds keys in a row, or a word that stopped at a dead end, and its running
      count agrees; no key starts with a zero. */
  ghost predicate Ready(br: Branches, start: nat, w: Word, count: int)
    requires WellLinked(br) && start in br
  {
    && br[start].left == 0
    && count == Level(w) && !Dips(w)
    && (Level(w) == 0 || (!Leads(br, start, w + [false]) && !Leads(br, start, w + [true])))
  }

  /** A scan is ready at the start, at a key, and at keys in a row. */
  lemma ReadyAt(br: Branches, start: nat, w: Word)
    requires WellLinked(br) && start in br && br[start].left == 0
    ensures w == [] || IsKey(w) ==> Single(w) && Balanced(w)
    ensures Balanced(w) ==> Ready(br, start, w, 0)
  {
    if IsKey(w) {
      KeyBalanced(w);
    } else if w == [] {
      InsideStart();
    }
  }

  /** A branch at running count one, below the start, with two children: its left child ends a
      key, and its right child goes on. */
  ghost predicate TightFork(br: Branches, start: nat, u: Word)
    requires WellLinked(br) && start in br
  {
    u != [] && Open(u) && Level(u) == 1 && Leads(br, start, u + [false]) && Leads(br, start, u + [true])
  }

  ghost predicate NoTightFork(br: Branches, start: nat)
    requires WellLinked(br) && start in br
  {
    forall u :: !TightFork(br, start, u)
  }

  /** A dead end below the start where no key ends. */
  ghost predicate Stuck(br: Branches, start: nat, w: Word)
    requires WellLinked(br) && start in br
  {
    && w != [] && Open(w) && Leads(br, start, w)
    && !Leads(br, start, w + [false]) && !Leads(br, start, w + [true])
  }

  /** Dead ends below the start lie where keys end. */
  ghost predicate DeadEndsClosed(br: Branches, start: nat)
    requires WellLinked(br) && start in br
  {
    forall w :: !Stuck(br, start, w)
  }

  ghost predicate AtDeadEnd(path: Path)
    requires path.Valid()
    reads path, path.database
  {
    path.database.branches[path.index].IsDeadEnd()
  }

  /** What a scan step promises: the cursor stands at the found word, which comes after the old
      one, or is back at the start with an empty stack. */
  ghost predicate Moved(toward: bool, br: Branches, start: nat, w0: Word, found: bool, w1: Word, at: nat)
    requires WellLinked(br) && start in br
  {
    if found then w1 != [] && Walk(br, start, w1) == Some(at) && After(toward, w0, w1)
    else w1 == [] && at == start
  }

  /** The step is exact: it finds the nearest key, or there is none left. */
  ghost predicate Exact(toward: bool, br: Branches, start: nat, w0: Word, found: bool, w1: Word)
    requires WellLinked(br) && start in br
  {
    if found then Nearest(toward, br, start, w0, w1) else NoneLeft(toward, br, start, w0)
  }

  /** An exact step has only one result. */
  lemma ExactUnique(toward: bool, br: Branches, start: nat, w0: Word, found: bool, w: Word, found': bool, w': Word)
    requires WellLinked(br) && start in br
    requires Exact(toward, br, start, w0, found, w) && Exact(toward, br, start, w0, found', w')
    ensures found == found' && (found ==> w == w')
  {
    if found && found' && w != w' {
      BesideIrreflexive(toward, w, w');
      BesideFlip(toward, w, w');
    }
  }

  /** A descent from the start that ended at a dead end has seen no key. */
  lemma ExactFrom(toward: bool, br: Branches, start: nat, c: Word)
    requires WellLinked(br) && start in br && Open(c)
    requires OnwardAfter(toward, [], c) && RestAfter(toward, br, start, [], c)
    ensures forall found, w1 :: Exact(toward, br, start, c, found, w1) <==> Exact(toward, br, start, [], found, w1)
    ensures forall k :: Nearest(toward, br, start, c, k) <==> Nearest(toward, br, start, [], k)
  {
    CandidatesIn(br, start, []);
    CandidatesIn(br, start, c);
    forall l | CandidateIn(br, start, [], l)
      ensures After(toward, [], l) <==> After(toward, c, l)
    {
    }
  }

  /** Facts about the child of a cursor standing at the start or above count zero. */
  lemma ChildLevel(br: Branches, start: nat, c: Word, b: bool)
    requires WellLinked(br) && start in br && br[start].left == 0 && (c == [] || Level(c) > 0) && Leads(br, start, c + [b])
    ensures Level(c + [b]) == Level(c) + (if b then 1 else -1) && Level(c + [b]) >= 0
  {
    LevelPush(c, b);
    WalkPush(br, start, c, b);
    assert br[start].Link(false) == 0;
  }

  /** Popping a bit off a word that never counts below zero. */
  lemma PopCount(u: Word, b: bool)
    requires !Dips(u + [b])
    ensures !Dips(u)
    ensures Level(u) >= 0 && Level(u + [b]) == Level(u) + (if b then 1 else -1)
    ensures Level(u + [b]) >= 0 && (b ==> Level(u + [b]) > 0) && (u == [] ==> b)
  {
    var c := u + [b];
    LevelPush(u, b);
    DipsPush(c);
    NeverDips(u);
    NeverDips(c);
  }

  /** The state of a scan on its way up from the word c. */
  ghost predicate Rising(toward: bool, br: Branches, start: nat, w0: Word, c: Word, todo: set<nat>, ready: bool, count: int)
    requires WellLinked(br) && start in br
  {
    && OnwardBeside(toward, w0, c) && FreshBeside(toward, br, start, c, todo)
    && (ready ==> count == Level(c) && !Dips(c) && Tracks(w0, c) && RestBeside(toward, br, start, w0, c))
  }

  /** The state of a scan on its way down at the word c. */
  ghost predicate Descending(toward: bool, br: Branches, start: nat, w0: Word, c: Word, todo: set<nat>, ready: bool, count: int)
    requires WellLinked(br) && start in br
  {
    && OnwardAfter(toward, w0, c) && FreshAfter(toward, br, start, c, todo)
    && (ready ==> br[start].left == 0 && count == Level(c) && Inside(w0, c) && RestAfter(toward, br, start, w0, c))
  }

  /** The start, or a word inside a key. */
  ghost predicate Inside(w0: Word, c: Word) {
    (c == [] || Level(c) > 0) && !Dips(c) && Approach(w0, c)
  }

  lemma InsidePush(w0: Word, c: Word, b: bool)
    requires !Dips(c) && Level(c + [b]) > 0 && Approach(w0, c + [b])
    ensures Inside(w0, c + [b])
  {
    var cb := c + [b];
    DipsPush(cb);
    assert cb[..|c|] == c;
  }

  lemma InsideStart()
    ensures Inside([], [])
  {
    var none: Word := [];
    forall i: nat
      ensures !DipsAt(none, i)
    {
      assert i == 0 ==> none[..i] == [];
    }
    assert ApproachAt(none, none, 0);
  }

  lemma RiseFrom(toward: bool, br: Branches, start: nat, w: Word, count: int)
    requires WellLinked(br) && start in br && w != []
    ensures Rising(toward, br, start, w, w, br.Keys, Ready(br, start, w, count), count)
  {
    StartAt(toward, br, start, w);
    if Ready(br, start, w, count) && Level(w) != 0 {
      Bottom(toward, br, start, w, w, br.Keys);
    }
  }

  lemma RisePop(toward: bool, br: Branches, start: nat, w0: Word, u: Word, bit: bool, todo: set<nat>, ready: bool, count: int)
    requires WellLinked(br) && start in br
    requires Rising(toward, br, start, w0, u + [bit], todo, ready, count)
    requires bit == toward || !Leads(br, start, u + [toward])
    ensures Rising(toward, br, start, w0, u, todo, ready, Popped(count, bit))
  {
    Pop(toward, br, start, w0, u, bit, todo);
    if ready {
      PopCount(u, bit);
      TracksPop(w0, u, bit);
      PopCovers(toward, br, start, w0, u, bit);
    }
  }

  function Popped(count: int, bit: bool): int {
    if bit then (if count > 0 then count - 1 else count) else count + 1
  }

  /** Turning into the other child, which is not itself a key. */
  lemma RiseTurn(toward: bool, br: Branches, start: nat, w0: Word, u: Word, todo: set<nat>, ready: bool, count: int)
    requires WellLinked(br) && start in br && Leads(br, start, u + [toward])
    requires Rising(toward, br, start, w0, u + [!toward], todo, ready, count)
    requires ready ==> br[start].left == 0 && (toward || Level(u) > 1)
    ensures var x := Walk(br, start, u + [toward]).value;
            && x in todo && After(toward, w0, u + [toward])
            && Descending(toward, br, start, w0, u + [toward], todo - {x}, ready, Tick(1, Popped(count, !toward), toward))
  {
    Turn(toward, br, start, w0, u, todo);
    if ready {
      PopCount(u, !toward);
      LevelPush(u, toward);
      TracksTurn(w0, u, toward);
      TurnCovers(toward, br, start, w0, u);
      InsidePush(w0, u, toward);
    }
  }

  lemma DescendStep(toward: bool, br: Branches, start: nat, w0: Word, c: Word, b: bool, todo: set<nat>, ready: bool, count: int)
    requires WellLinked(br) && start in br && Leads(br, start, c + [b])
    requires b == !toward || !Leads(br, start, c + [!toward])
    requires Descending(toward, br, start, w0, c, todo, ready, count)
    ensures var x, count' := Walk(br, start, c + [b]).value, Tick(1, count, b);
            && x in todo && After(toward, w0, c + [b])
            && (ready ==> count' == Level(c + [b]))
            && (ready && count' == 0 ==> Nearest(toward, br, start, w0, c + [b]))
            && (!ready || count' != 0 ==> Descending(toward, br, start, w0, c + [b], todo - {x}, ready, count'))
  {
    Descend(toward, br, start, w0, c, b, todo);
    if ready {
      ChildLevel(br, start, c, b);
      DescendCovers(toward, br, start, w0, c, b);
      if Level(c + [b]) > 0 { InsidePush(w0, c, b); }
    }
  }

  lemma DescendEnds(toward: bool, br: Branches, start: nat, w0: Word, c: Word, todo: set<nat>, ready: bool, count: int)
    requires WellLinked(br) && start in br && !Leads(br, start, c + [false]) && !Leads(br, start, c + [true])
    requires Descending(toward, br, start, w0, c, todo, ready, count)
    ensures Rising(toward, br, start, w0, c, todo, ready, count)
    ensures ready ==> Ready(br, start, c, count)
  {
    Bottom(toward, br, start, w0, c, todo);
  }

  method Next(path: Path, stack: Stack, ghost start: nat) returns (found: bool)
    requires path.Valid() && start in path.database.branches
    requires Trail(path.database.branches, start, stack.bits, path.index)
    modifies path, stack, path.database
    ensures path.Valid() && unchanged(path.database) && stack.it == old(stack.it)
    ensures Moved(true, path.database.branches, start, old(stack.bits), found, stack.bits, path.index)
    ensures Ready(path.database.branches, start, old(stack.bits), old(stack.count)) ==>
              && Exact(true, path.database.branches, start, old(stack.bits), found, stack.bits)
              && stack.count == 0
    decreases if stack.bits != [] || AtDeadEnd(path) then 0 else 2
  {
    if |stack.bits| == 0 {
      var dead := path.IsDeadEnd();
      if dead {
        NothingBelow(true, path.database.branches, start);
        return false;
      }
      found := GoToMin(path, stack, start);
      return;
    }
    found := RiseRight(path, stack, start);
  }

  /** The loop of `Next`: up the tree until the first right from a left, then down again. */
  method RiseRight(path: Path, stack: Stack, ghost start: nat) returns (found: bool)
    requires path.Valid() && start in path.database.branches && stack.bits != []
    requires Trail(path.database.branches, start, stack.bits, path.index)
    modifies path, stack, path.database
    ensures path.Valid() && unchanged(path.database) && stack.it == old(stack.it)
    ensures Moved(true, path.database.branches, start, old(stack.bits), found, stack.bits, path.index)
    ensures Ready(path.database.branches, start, old(stack.bits), old(stack.count)) ==>
              && Exact(true, path.database.branches, start, old(stack.bits), found, stack.bits)
              && stack.count == 0
  {
    ghost var br, w0, todo := path.database.branches, stack.bits, path.database.branches.Keys;
    ghost var ready := Ready(br, start, w0, stack.count);
    RiseFrom(true, br, start, w0, stack.count);
    while |stack.bits| > 0
      invariant path.Valid() && unchanged(path.database) && stack.it == old(stack.it)
      invariant Trail(br, start, stack.bits, path.index)
      invariant Rising(true, br, start, w0, stack.bits, todo, ready, stack.count)
      decreases todo, |stack.bits|
    {
      var bit := stack.Last();
      ghost var u, count := stack.bits[..|stack.bits| - 1], stack.count;
      assert stack.bits == u + [bit];
      stack.PopBack();
      path.GoUp();
      TrailLink(br, start, u, path.index, true);
      var canGoRight := path.CanGoRight();
      if canGoRight && bit == false {
        RiseTurn(true, br, start, w0, u, todo, ready, count);
        path.GoRight();
        stack.PushBack(true);
        todo := todo - {path.index};
        found, todo := FollowMin(path, stack, start, w0, todo, ready);
        if found {
          return;
        }
      } else {
        RisePop(true, br, start, w0, u, bit, todo, ready, count);
      }
    }
    if ready { BackAtStart(true, br, start, w0); }
    found := false;
  }

  lemma NothingBelow(toward: bool, br: Branches, start: nat)
    requires WellLinked(br) && start in br && br[start].IsDeadEnd()
    ensures NoneLeft(toward, br, start, [])
  {
    WalkPush(br, start, [], false);
    WalkPush(br, start, [], true);
    StartAt(toward, br, start, []);
    Bottom(toward, br, start, [], [], br.Keys);
    BackAtStart(toward, br, start, []);
  }

  /** The inner loop of `Next` and the loop of `GoToMin`: follows the smallest branch until a key
      is complete, or to a dead end. */
  method FollowMin(path: Path, stack: Stack, ghost start: nat, ghost w0: Word, ghost todo0: set<nat>, ghost ready: bool)
    returns (found: bool, ghost todo: set<nat>)
    requires path.Valid() && start in path.database.branches
    requires Walk(path.database.branches, start, stack.bits) == Some(path.index)
    requires Descending(true, path.database.branches, start, w0, stack.bits, todo0, ready, stack.count)
    modifies path, stack, path.database
    ensures path.Valid() && unchanged(path.database) && stack.it == old(stack.it) && todo <= todo0
    ensures var br := path.database.branches;
            && Walk(br, start, stack.bits) == Some(path.index)
            && Trail(br, start, stack.bits, path.index)
    ensures found ==> stack.bits != [] && After(true, w0, stack.bits)
    ensures found && ready ==> Nearest(true, path.database.branches, start, w0, stack.bits) && stack.count == 0
    ensures !found ==> var br := path.database.branches;
                       && AtDeadEnd(path)
                       && Descending(true, br, start, w0, stack.bits, todo, ready, stack.count)
                       && Rising(true, br, start, w0, stack.bits, todo, ready, stack.count)
                       && (ready ==> Ready(br, start, stack.bits, stack.count))
  {
    ghost var br := path.database.branches;
    todo := todo0;
    while true
      invariant path.Valid() && unchanged(path.database) && stack.it == old(stack.it) && todo <= todo0
      invariant Walk(br, start, stack.bits) == Some(path.index)
      invariant Descending(true, br, start, w0, stack.bits, todo, ready, stack.count)
      decreases todo
    {
      ghost var c := stack.bits;
      WalkPush(br, start, c, false);
      WalkPush(br, start, c, true);
      var canGoLeft := path.CanGoLeft();
      if canGoLeft {
        DescendStep(true, br, start, w0, c, false, todo, ready, stack.count);
        stack.PushBack(false);
        path.GoLeft();
      } else {
        var canGoRight := path.CanGoRight();
        if canGoRight {
          DescendStep(true, br, start, w0, c, true, todo, ready, stack.count);
          stack.PushBack(true);
          path.GoRight();
        } else {
          DescendEnds(true, br, start, w0, c, todo, ready, stack.count);
          WalkTrail(br, start, c);
          return false, todo;
        }
      }
      todo := todo - {path.index};
      if stack.count == 0 {
        WalkTrail(br, start, stack.bits);
        return true, todo;
      }
    }
  }

  lemma ApproachFromStart(c: Word)
    requires Approach([], c)
    ensures Open(c)
  {
    FromStart(c);
  }

  method GoToMin(path: Path, stack: Stack, ghost start: nat) returns (found: bool)
    requires path.Valid() && start in path.database.branches
    requires stack.bits == [] && path.index == start
    modifies path, stack, path.database
    ensures path.Valid() && unchanged(path.database) && stack.it == old(stack.it)
    ensures Moved(true, path.database.branches, start, [], found, stack.bits, path.index)
    ensures path.database.branches[start].left == 0 && old(stack.count) == 0 ==>
              Exact(true, path.database.branches, start, [], found, stack.bits) && stack.count == 0
    decreases 1
  {
    ghost var br := path.database.branches;
    ghost var ready := br[start].left == 0 && stack.count == 0;
    StartAt(true, br, start, []);
    InsideStart();
    ghost var todo;
    found, todo := FollowMin(path, stack, start, [], br.Keys, ready);
    if !found {
      ghost var c := stack.bits;
      found := Next(path, stack, start);
      if ready {
        ApproachFromStart(c);
        ExactFrom(true, br, start, c);
      }
    }
  }

  /** What `Previous` and `GoToMax` stop at in any case: a word that ends in a zero written where
      there was no right child to prefer. */
  ghost predicate EndsLeftOnly(br: Branches, start: nat, w: Word)
    requires WellLinked(br) && start in br
  {
    w != [] && !w[|w| - 1] && !Leads(br, start, w[..|w| - 1] + [true])
  }

  /** The nearest key to the left, if there is one, does not end where a right child goes on. */
  ghost predicate NearestClear(br: Branches, start: nat, w0: Word)
    requires WellLinked(br) && start in br
  {
    forall k :: Nearest(false, br, start, w0, k) ==> EndsLeftOnly(br, start, k)
  }

  /** Without a tight fork no key ends where a right child goes on. */
  lemma NoTightForkClear(br: Branches, start: nat, w0: Word)
    requires WellLinked(br) && start in br && NoTightFork(br, start) && Single(w0)
    ensures NearestClear(br, start, w0)
  {
    CandidatesIn(br, start, w0);
    forall k | Nearest(false, br, start, w0, k)
      ensures EndsLeftOnly(br, start, k)
    {
      var u := k[..|k| - 1];
      Snoc(k);
      KeyStartsWithOne(k);
      LevelPush(u, false);
      assert !TightFork(br, start, u);
    }
  }

  /** Where a turn left completes a key, that key is the nearest. */
  lemma TurnCompletes(br: Branches, start: nat, w0: Word, u: Word)
    requires WellLinked(br) && start in br && Leads(br, start, u + [false])
    requires OnwardBeside(false, w0, u + [true]) && RestBeside(false, br, start, w0, u + [true])
    requires !Dips(u) && Tracks(w0, u + [true]) && Level(u) == 1
    ensures Nearest(false, br, start, w0, u + [false])
  {
    var k := u + [false];
    LevelPush(u, false);
    TracksTurn(w0, u, false);
    TurnAfter(false, u, k);
    forall l | CandidateIn(br, start, w0, l) && After(false, w0, l)
      ensures l == k || Beside(false, k, l)
    {
      TurnAfter(false, u, l);
      CandidatesApart(false, w0, k, l);
    }
  }

  /** Neither at the start nor where a key of the word ends does a key start with a zero. */
  ghost predicate OnesFirst(br: Branches, start: nat, w: Word)
    requires WellLinked(br) && start in br
  {
    forall u {:trigger Leads(br, start, u + [false])} :: (u == [] || u < w) && Level(u) == 0 ==> !Leads(br, start, u + [false])
  }

  /** For a single key, or a part of one, that is only about the start. */
  lemma SingleOnesFirst(br: Branches, start: nat, w: Word)
    requires WellLinked(br) && start in br && br[start].left == 0 && Single(w)
    ensures OnesFirst(br, start, w)
  {
    forall u | (u == [] || u < w) && Level(u) == 0
      ensures !Leads(br, start, u + [false])
    {
      assert u < w ==> w[..|u|] == u;
      if 0 < |u| { SingleLevel(w, |u|); }
      WalkPush(br, start, u, false);
      assert br[start].Link(false) == 0;
    }
  }

  /** The step is exact if and only if the nearest key does not end where a right child goes on,
      and then the running count is back at zero. */
  ghost predicate ExactIfClear(br: Branches, start: nat, w0: Word, found: bool, w1: Word, count: int)
    requires WellLinked(br) && start in br
  {
    && (Exact(false, br, start, w0, found, w1) <==> NearestClear(br, start, w0))
    && (NearestClear(br, start, w0) ==> count == 0)
  }

  /** A step stops only where no right child goes on. */
  lemma OnlyIfClear(br: Branches, start: nat, w0: Word, found: bool, w1: Word, count: int)
    requires WellLinked(br) && start in br
    requires found ==> EndsLeftOnly(br, start, w1)
    requires NearestClear(br, start, w0) ==> Exact(false, br, start, w0, found, w1) && count == 0
    ensures ExactIfClear(br, start, w0, found, w1, count)
  {
    if Exact(false, br, start, w0, found, w1) {
      forall k | Nearest(false, br, start, w0, k)
        ensures EndsLeftOnly(br, start, k)
      {
        if found { ExactUnique(false, br, start, w0, true, w1, true, k); }
      }
    }
  }

  /** The turn left pushes a zero without looking at the running count, so the step is exact if
      and only if the key it should find does not end at such a turn. */
  method Previous(path: Path, stack: Stack, ghost start: nat) returns (found: bool)
    requires path.Valid() && start in path.database.branches && stack.count >= 0
    requires Trail(path.database.branches, start, stack.bits, path.index)
    modifies path, stack, path.database
    ensures path.Valid() && unchanged(path.database) && stack.it == old(stack.it) && stack.count >= 0
    ensures Moved(false, path.database.branches, start, old(stack.bits), found, stack.bits, path.index)
    ensures found ==> EndsLeftOnly(path.database.branches, start, stack.bits) && stack.count == 0
    ensures old(stack.bits) == [] && old(AtDeadEnd(path)) ==> !found && stack.count == old(stack.count)
    ensures Ready(path.database.branches, start, old(stack.bits), old(stack.count))
            && OnesFirst(path.database.branches, start, old(stack.bits))
            && Leads(path.database.branches, start, old(stack.bits)) ==>
              ExactIfClear(path.database.branches, start, old(stack.bits), found, stack.bits, stack.count)
    decreases if stack.bits != [] || AtDeadEnd(path) then 0 else 2
  {
    if |stack.bits| == 0 {
      var dead := path.IsDeadEnd();
      if dead {
        NothingBelow(false, path.database.branches, start);
        return false;
      }
      found := GoToMax(path, stack, start);
      return;
    }
    found := RiseLeft(path, stack, start);
  }

  /** Up a bit in the backward scan, and into the left child. */
  lemma LeftTurn(br: Branches, start: nat, w0: Word, u: Word, todo: set<nat>, ready: bool, count: int)
    requires WellLinked(br) && start in br && Leads(br, start, u + [false])
    requires Rising(false, br, start, w0, u + [true], todo, ready, count)
    requires ready ==> br[start].left == 0 && OnesFirst(br, start, w0) && NearestClear(br, start, w0) && Leads(br, start, u + [true])
    ensures var x := Walk(br, start, u + [false]).value;
            && x in todo && After(false, w0, u + [false])
            && Descending(false, br, start, w0, u + [false], todo - {x}, ready, Tick(1, Popped(count, true), false))
  {
    if ready {
      PopCount(u, true);
      if Level(u) == 0 { TracksZero(w0, u, true); }
      if Level(u) == 1 {
        TurnCompletes(br, start, w0, u);
        LevelPush(u, false);
      }
    }
    RiseTurn(false, br, start, w0, u, todo, ready, count);
  }

  /** Up a bit in the backward scan, with nothing new to the left. */
  lemma LeftPop(br: Branches, start: nat, w0: Word, u: Word, bit: bool, todo: set<nat>, ready: bool, count: int)
    requires WellLinked(br) && start in br && (!bit || !Leads(br, start, u + [false]))
    requires Rising(false, br, start, w0, u + [bit], todo, ready, count)
    requires ready ==> Leads(br, start, u + [bit])
    ensures Rising(false, br, start, w0, u, todo, ready, Popped(count, bit))
    ensures ready ==> Leads(br, start, u)
  {
    if ready {
      WalkPrefix(br, start, u + [bit], |u|);
      LevelPush(u, bit);
    }
    RisePop(false, br, start, w0, u, bit, todo, ready, count);
  }

  /** The loop of `Previous`: up the tree until the first left from a right, then down again. */
  method RiseLeft(path: Path, stack: Stack, ghost start: nat) returns (found: bool)
    requires path.Valid() && start in path.database.branches && stack.count >= 0 && stack.bits != []
    requires Trail(path.database.branches, start, stack.bits, path.index)
    modifies path, stack, path.database
    ensures path.Valid() && unchanged(path.database) && stack.it == old(stack.it) && stack.count >= 0
    ensures Moved(false, path.database.branches, start, old(stack.bits), found, stack.bits, path.index)
    ensures found ==> EndsLeftOnly(path.database.branches, start, stack.bits) && stack.count == 0
    ensures Ready(path.database.branches, start, old(stack.bits), old(stack.count))
            && OnesFirst(path.database.branches, start, old(stack.bits))
            && Leads(path.database.branches, start, old(stack.bits)) ==>
              ExactIfClear(path.database.branches, start, old(stack.bits), found, stack.bits, stack.count)
  {
    ghost var br, w0, todo := path.database.branches, stack.bits, path.database.branches.Keys;
    ghost var good := Ready(br, start, w0, stack.count) && OnesFirst(br, start, w0) && Leads(br, start, w0);
    ghost var ready := good && NearestClear(br, start, w0);
    RiseFrom(false, br, start, w0, stack.count);
    while |stack.bits| > 0
      invariant path.Valid() && unchanged(path.database) && stack.it == old(stack.it) && stack.count >= 0
      invariant Trail(br, start, stack.bits, path.index)
      invariant Rising(false, br, start, w0, stack.bits, todo, ready, stack.count)
      invariant ready ==> Leads(br, start, stack.bits)
      decreases todo, |stack.bits|
    {
      found, todo := StepLeft(path, stack, start, w0, todo, ready);
      if found {
        if good { OnlyIfClear(br, start, w0, true, stack.bits, stack.count); }
        return;
      }
    }
    if ready { BackAtStart(false, br, start, w0); }
    found := false;
    if good { OnlyIfClear(br, start, w0, false, stack.bits, stack.count); }
  }

  /** One round of that loop: up a bit, and down again where there is a left to take. */
  method StepLeft(path: Path, stack: Stack, ghost start: nat, ghost w0: Word, ghost todo0: set<nat>, ghost ready: bool)
    returns (found: bool, ghost todo: set<nat>)
    requires path.Valid() && start in path.database.branches && stack.count >= 0 && stack.bits != []
    requires Trail(path.database.branches, start, stack.bits, path.index)
    requires Rising(false, path.database.branches, start, w0, stack.bits, todo0, ready, stack.count)
    requires ready ==> var br := path.database.branches;
                       br[start].left == 0 && OnesFirst(br, start, w0) && NearestClear(br, start, w0) && Leads(br, start, stack.bits)
    modifies path, stack, path.database
    ensures path.Valid() && unchanged(path.database) && stack.it == old(stack.it) && stack.count >= 0
    ensures Trail(path.database.branches, start, stack.bits, path.index)
    ensures todo < todo0 || (todo == todo0 && |stack.bits| < |old(stack.bits)|)
    ensures found ==> EndsLeftOnly(path.database.branches, start, stack.bits) && stack.count == 0
    ensures found ==> After(false, w0, stack.bits) && Walk(path.database.branches, start, stack.bits) == Some(path.index)
    ensures found && ready ==> Nearest(false, path.database.branches, start, w0, stack.bits)
    ensures !found ==> Rising(false, path.database.branches, start, w0, stack.bits, todo, ready, stack.count)
    ensures !found && ready ==> Leads(path.database.branches, start, stack.bits)
  {
    ghost var br, count := path.database.branches, stack.count;
    ghost var u := stack.bits[..|stack.bits| - 1];
    var bit := stack.Last();
    assert stack.bits == u + [bit];
    stack.PopBack();
    path.GoUp();
    TrailLink(br, start, u, path.index, false);
    var canGoLeft := path.CanGoLeft();
    if canGoLeft && bit == true {
      LeftTurn(br, start, w0, u, todo0, ready, count);
      found, todo := TurnLeft(path, stack, start, w0, todo0, ready);
    } else {
      LeftPop(br, start, w0, u, bit, todo0, ready, count);
      found, todo := false, todo0;
    }
  }

  /** Takes the left turn and follows the largest branch. The pushed zero is not checked. */
  method TurnLeft(path: Path, stack: Stack, ghost start: nat, ghost w0: Word, ghost todo0: set<nat>, ghost ready: bool)
    returns (found: bool, ghost todo: set<nat>)
    requires path.Valid() && start in path.database.branches && stack.count >= 0
    requires var br := path.database.branches;
             var x := br[path.index].Link(false);
             && x != 0 && x in todo0 && Walk(br, start, stack.bits + [false]) == Some(x)
             && Descending(false, br, start, w0, stack.bits + [false], todo0 - {x}, ready, Tick(1, stack.count, false))
    modifies path, stack, path.database
    ensures path.Valid() && unchanged(path.database) && stack.it == old(stack.it) && todo < todo0 && stack.count >= 0
    ensures var br := path.database.branches;
            && Walk(br, start, stack.bits) == Some(path.index)
            && Trail(br, start, stack.bits, path.index)
    ensures found ==> EndsLeftOnly(path.database.branches, start, stack.bits) && stack.count == 0
    ensures found ==> After(false, w0, stack.bits)
    ensures found && ready ==> Nearest(false, path.database.branches, start, w0, stack.bits)
    ensures !found ==> Rising(false, path.database.branches, start, w0, stack.bits, todo, ready, stack.count)
    ensures !found && ready ==> Leads(path.database.branches, start, stack.bits)
  {
    path.GoLeft();
    stack.PushBack(false);
    todo := todo0 - {path.index};
    found, todo := FollowMax(path, stack, start, w0, todo, ready);
  }

  /** The inner loop of `Previous` and the loop of `GoToMax`: follows the largest branch until
      a key is complete, or to a dead end. */
  method FollowMax(path: Path, stack: Stack, ghost start: nat, ghost w0: Word, ghost todo0: set<nat>, ghost ready: bool)
    returns (found: bool, ghost todo: set<nat>)
    requires path.Valid() && start in path.database.branches && stack.count >= 0
    requires Walk(path.database.branches, start, stack.bits) == Some(path.index)
    requires Descending(false, path.database.branches, start, w0, stack.bits, todo0, ready, stack.count)
    modifies path, stack, path.database
    ensures path.Valid() && unchanged(path.database) && stack.it == old(stack.it) && todo <= todo0 && stack.count >= 0
    ensures var br := path.database.branches;
            && Walk(br, start, stack.bits) == Some(path.index)
            && Trail(br, start, stack.bits, path.index)
    ensures found ==> After(false, w0, stack.bits) && stack.count == 0
    ensures found ==> EndsLeftOnly(path.database.branches, start, stack.bits)
    ensures found && ready ==> Nearest(false, path.database.branches, start, w0, stack.bits)
    ensures !found ==> var br := path.database.branches;
                       && AtDeadEnd(path)
                       && Descending(false, br, start, w0, stack.bits, todo, ready, stack.count)
                       && Rising(false, br, start, w0, stack.bits, todo, ready, stack.count)
                       && (ready ==> Ready(br, start, stack.bits, stack.count))
  {
    ghost var br := path.database.branches;
    todo := todo0;
    while true
      invariant path.Valid() && unchanged(path.database) && stack.it == old(stack.it) && todo <= todo0
      invariant stack.count >= 0
      invariant Walk(br, start, stack.bits) == Some(path.index)
      invariant Descending(false, br, start, w0, stack.bits, todo, ready, stack.count)
      decreases todo
    {
      ghost var c := stack.bits;
      WalkPush(br, start, c, false);
      WalkPush(br, start, c, true);
      var canGoRight := path.CanGoRight();
      if canGoRight {
        DescendStep(false, br, start, w0, c, true, todo, ready, stack.count);
        stack.PushBack(true);
        path.GoRight();
      } else {
        var canGoLeft := path.CanGoLeft();
        if canGoLeft {
          DescendStep(false, br, start, w0, c, false, todo, ready, stack.count);
          stack.PushBack(false);
          path.GoLeft();
        } else {
          DescendEnds(false, br, start, w0, c, todo, ready, stack.count);
          WalkTrail(br, start, c);
          return false, todo;
        }
      }
      todo := todo - {path.index};
      if stack.count == 0 {
        WalkTrail(br, start, stack.bits);
        assert stack.bits[..|stack.bits| - 1] == c;
        return true, todo;
      }
    }
  }

  /** Exact if and only if the last key does not end where a right child goes on; where all dead
      ends lie at the ends of keys, as in every trie of whole keys, it always is. */
  method GoToMax(path: Path, stack: Stack, ghost start: nat) returns (found: bool)
    requires path.Valid() && start in path.database.branches
    requires stack.bits == [] && path.index == start && stack.count >= 0
    modifies path, stack, path.database
    ensures path.Valid() && unchanged(path.database) && stack.it == old(stack.it) && stack.count >= 0
    ensures Moved(false, path.database.branches, start, [], found, stack.bits, path.index)
    ensures found ==> EndsLeftOnly(path.database.branches, start, stack.bits) && stack.count == 0
    ensures var br := path.database.branches;
            br[start].left == 0 && old(stack.count) == 0 ==>
              && ExactIfClear(br, start, [], found, stack.bits, stack.count)
              && (DeadEndsClosed(br, start) ==> NearestClear(br, start, []))
    decreases 1
  {
    ghost var br := path.database.branches;
    ghost var ready := br[start].left == 0 && stack.count == 0;
    StartAt(false, br, start, []);
    InsideStart();
    ghost var todo;
    found, todo := FollowMax(path, stack, start, [], br.Keys, ready);
    if !found {
      ghost var c := stack.bits;
      WalkPush(br, start, c, false);
      WalkPush(br, start, c, true);
      if c == [] { NothingBelow(false, br, start); }
      assert DeadEndsClosed(br, start) ==> !Stuck(br, start, c);
      if ready {
        ApproachFromStart(c);
        SingleOnesFirst(br, start, c);
      }
      found := Previous(path, stack, start);
      if ready { ExactFrom(false, br, start, c); }
    }
    if ready { OnlyIfClear(br, start, [], found, stack.bits, stack.count); }
  }
}
