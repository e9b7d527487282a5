/**
  Concurrent creation of branches: the double-checked `goLeft` and `goRight` and the `allocate`
  of any number of threads, as interleaved atomic steps. Reading a branch, writing a branch,
  reading the file's size and appending to it are one step each.
 */
module BranchCreation {
  import opened BitWords
  import DatabaseBase
  import opened LockFile
  import opened Trie

  /** A path object: where it started, the bits it followed, and where it is. */
  datatype Cursor = Cursor(start: nat, word: Word, at: nat) {
    function Push(bit: bool, child: nat): Cursor {
      Cursor(start, word + [bit], child)
    }
  }

  /** Where a thread stands in `goLeft`, `goRight` or `allocate`. */
  datatype Stage =
    | Resting(c: Cursor)
    | Missing(c: Cursor, bit: bool)                                 // saw no child, goes for the lock
    | Locked(c: Cursor, bit: bool)                                  // about to read again
    | Reread(c: Cursor, bit: bool, branch: Branch)
    | Creating(c: Cursor, bit: bool, branch: Branch)                // inside the nested lock
    | Sized(c: Cursor, bit: bool, branch: Branch, index: nat)       // read the file's size
    | Appended(c: Cursor, bit: bool, branch: Branch, index: nat)    // wrote the new branch
    | Linking(c: Cursor, bit: bool, branch: Branch, index: nat)     // left the nested lock
    | Finishing(c: Cursor)                                          // about to leave the lock
    | AllocLocked(c: Cursor, size: nat)
    | AllocSized(c: Cursor, size: nat, index: nat)
    | AllocHeaded(c: Cursor, size: nat, index: nat)                 // wrote the size word

  datatype Request = Go(bit: bool) | Allocate(size: nat)

  datatype Store = Store(
    database: Mutex,
    branches: Branches,
    fileSize: nat,
    records: map<nat, nat>,
    stages: map<Thread, Stage>)

  predicate CanStep(s: Store, t: Thread, r: Request) {
    t in s.stages &&
    match s.stages[t]
    case Resting(c) => c.at in s.branches && (r.Allocate? ==> CanTake(s.database, t))
    case Missing(_, _) => CanTake(s.database, t)
    case Locked(c, _) => c.at in s.branches
    case Reread(_, _, _) => CanTake(s.database, t)
    case _ => true
  }

  function Stepped(s: Store, t: Thread, r: Request): Store
    requires CanStep(s, t, r)
  {
    match s.stages[t]
    case Resting(c) =>
      (match r
       case Go(bit) =>
         var b := s.branches[c.at];
         s.(stages := s.stages[t := if b.Link(bit) != 0 then Resting(c.Push(bit, b.Link(bit))) else Missing(c, bit)])
       case Allocate(size) =>
         s.(database := Take(s.database, t), stages := s.stages[t := AllocLocked(c, size)]))
    case Missing(c, bit) =>
      s.(database := Take(s.database, t), stages := s.stages[t := Locked(c, bit)])
    case Locked(c, bit) =>
      s.(stages := s.stages[t := Reread(c, bit, s.branches[c.at])])
    case Reread(c, bit, b) =>
      if b.Link(bit) != 0 then s.(stages := s.stages[t := Finishing(c.Push(bit, b.Link(bit)))])
      else s.(database := Take(s.database, t), stages := s.stages[t := Creating(c, bit, b)])
    case Creating(c, bit, b) =>
      s.(stages := s.stages[t := Sized(c, bit, b, s.fileSize)])
    case Sized(c, bit, b, index) =>
      s.(branches := s.branches[index := Branch(c.at, 0, 0, 0)],
         fileSize := if index + DatabaseBase.BRANCH_SIZE <= s.fileSize then s.fileSize else index + DatabaseBase.BRANCH_SIZE,
         records := s.records[index := DatabaseBase.BRANCH_SIZE],
         stages := s.stages[t := Appended(c, bit, b, index)])
    case Appended(c, bit, b, index) =>
      s.(database := Release(s.database), stages := s.stages[t := Linking(c, bit, b, index)])
    case Linking(c, bit, b, index) =>
      s.(branches := s.branches[c.at := b.WithLink(bit, index)],
         stages := s.stages[t := Finishing(c.Push(bit, index))])
    case Finishing(c) =>
      s.(database := Release(s.database), stages := s.stages[t := Resting(c)])
    case AllocLocked(c, size) =>
      s.(stages := s.stages[t := AllocSized(c, size, s.fileSize)])
    case AllocSized(c, size, index) =>
      s.(fileSize := if index + DatabaseBase.INDEX_SIZE <= s.fileSize then s.fileSize else index + DatabaseBase.INDEX_SIZE,
         stages := s.stages[t := AllocHeaded(c, size, index)])
    case AllocHeaded(c, size, index) =>
      s.(fileSize := if index + DatabaseBase.INDEX_SIZE + size <= s.fileSize then s.fileSize else index + DatabaseBase.INDEX_SIZE + size,
         records := s.records[index := DatabaseBase.INDEX_SIZE + size],
         stages := s.stages[t := Finishing(c)])
  }

  ghost predicate BranchRecorded(s: Store, x: nat) {
    x in s.records && s.records[x] == DatabaseBase.BRANCH_SIZE
  }

  /** The branches that have been cut off before: no link leads to them. */
  ghost function CutOff(br: Branches): set<nat>
    requires WellLinked(br)
  {
    set x | x in br && x != 0 && !Linked(br, x)
  }

  /** No thread is on its way; paths may stand on branches that have been cut off. */
  ghost predicate Starts(s: Store) {
    && s.database == Free && WellLinked(s.branches)
    && (forall x {:trigger BranchRecorded(s, x)} :: x in s.branches ==> BranchRecorded(s, x))
    && RecordsApart(s.records, s.fileSize)
    && (forall t :: t in s.stages ==> s.stages[t].Resting? && CursorAt(s.branches, s.stages[t].c))
  }

  ghost predicate StoreStep(states: seq<Store>, actions: seq<(Thread, Request)>, n: nat)
    requires |states| == |actions| + 1 && n < |actions|
  {
    && CanStep(states[n], actions[n].0, actions[n].1)
    && states[n + 1] == Stepped(states[n], actions[n].0, actions[n].1)
  }

  /** Any interleaving of the threads' steps. */
  ghost predicate StoreRun(states: seq<Store>, actions: seq<(Thread, Request)>) {
    && |states| == |actions| + 1 && Starts(states[0])
    && forall n :: 0 <= n < |actions| ==> StoreStep(states, actions, n)
  }

  // ----- the invariant

  ghost predicate RecordApart(x: nat, size: nat, y: nat, size': nat) {
    x + size <= y || y + size' <= x
  }

  /** No two records share a byte, and all lie inside the file. */
  ghost predicate RecordsApart(records: map<nat, nat>, fileSize: nat) {
    && (forall x :: x in records ==> x + records[x] <= fileSize && records[x] > 0)
    && (forall x, y {:trigger RecordApart(x, records[x], y, records[y])} ::
          x in records && y in records && x != y ==> RecordApart(x, records[x], y, records[y]))
  }

  ghost predicate CursorAt(br: Branches, c: Cursor)
    requires WellLinked(br)
  {
    c.start in br && Walk(br, c.start, c.word) == Some(c.at)
  }

  predicate Inside(g: Stage) {
    !g.Resting? && !g.Missing?
  }

  /** How often a thread holds the database mutex. */
  function Nesting(g: Stage): nat {
    if g.Creating? || g.Sized? || g.Appended? then 2 else 1
  }

  /** The branch a thread has written and not linked yet. */
  predicate InFlight(g: Stage, x: nat) {
    (g.Appended? || g.Linking?) && g.index == x
  }

  ghost predicate StageOk(s: Store, t: Thread)
    requires t in s.stages && WellLinked(s.branches)
  {
    var g := s.stages[t];
    && CursorAt(s.branches, g.c)
    && (Inside(g) <==> s.database.Held? && s.database.owner == t)
    && (Inside(g) ==> s.database == Held(t, Nesting(g)))
    && (g.Reread? || g.Creating? || g.Sized? || g.Appended? || g.Linking? ==> s.branches[g.c.at] == g.branch)
    && (g.Creating? || g.Sized? || g.Appended? || g.Linking? ==> g.branch.Link(g.bit) == 0)
    && (g.Sized? || g.AllocSized? ==> g.index == s.fileSize)
    && (g.AllocHeaded? ==> g.index + DatabaseBase.INDEX_SIZE == s.fileSize && g.index !in s.records
                           && forall x :: x in s.records ==> x + s.records[x] <= g.index)
    && (g.Appended? || g.Linking? ==> g.index in s.branches && s.branches[g.index] == Branch(g.c.at, 0, 0, 0)
                                      && g.index != 0 && !Linked(s.branches, g.index))
  }

  /** A branch that had not been cut off before is linked from its recorded parent, or a thread
      inside is about to link it. */
  ghost predicate Attached(s: Store, cut: set<nat>, x: nat)
    requires WellLinked(s.branches) && x in s.branches
  {
    x == 0 || x in cut || Linked(s.branches, x)
    || (s.database.Held? && s.database.owner in s.stages && InFlight(s.stages[s.database.owner], x))
  }

  ghost predicate StoreInv(s: Store, cut: set<nat>) {
    && WellLinked(s.branches)
    && (s.database.Held? ==> s.database.owner in s.stages)
    && (forall x {:trigger BranchRecorded(s, x)} :: x in s.branches ==> BranchRecorded(s, x))
    && RecordsApart(s.records, s.fileSize)
    && (forall x {:trigger Attached(s, cut, x)} :: x in s.branches ==> Attached(s, cut, x))
    && (forall t {:trigger StageOk(s, t)} :: t in s.stages ==> StageOk(s, t))
  }

  lemma StartsInv(s: Store)
    requires Starts(s)
    ensures StoreInv(s, CutOff(s.branches))
  {
  }

  /** Branches are only added, and parents, data and child links once set stay. */
  ghost predicate Grown(br: Branches, br': Branches) {
    && (forall x :: x in br ==> x in br' && br'[x].parent == br[x].parent && br'[x].dataIndex == br[x].dataIndex)
    && (forall x, bit {:trigger br[x].Link(bit)} :: x in br && br[x].Link(bit) != 0 ==> br'[x].Link(bit) == br[x].Link(bit))
  }

  lemma {:induction false} WalkGrown(br: Branches, br': Branches, start: nat, w: Word)
    requires WellLinked(br) && WellLinked(br') && Grown(br, br') && start in br && Leads(br, start, w)
    ensures start in br' && Walk(br', start, w) == Walk(br, start, w)
  {
    if w != [] {
      WalkParent(br, start, w);
      WalkGrown(br, br', start, w[..|w| - 1]);
    }
  }

  /** Writing the new branch, unlinked. */
  lemma AppendGrows(br: Branches, index: nat, at: nat)
    requires WellLinked(br) && at in br && index !in br && at < index
    ensures var br' := br[index := Branch(at, 0, 0, 0)];
            && WellLinked(br') && Grown(br, br')
            && forall x :: x in br ==> (Linked(br', x) <==> Linked(br, x))
  {
    var br' := br[index := Branch(at, 0, 0, 0)];
    forall x, bit | x in br' && br'[x].Link(bit) != 0
      ensures br'[x].Link(bit) in br' && br'[br'[x].Link(bit)].parent == x
    {
      assert x != index && br'[x].Link(bit) == br[x].Link(bit);
    }
  }

  /** Linking it. */
  lemma LinkGrows(br: Branches, at: nat, bit: bool, index: nat)
    requires WellLinked(br) && at in br && br[at].Link(bit) == 0
    requires index in br && index != 0 && br[index].parent == at
    requires br[at].Link(!bit) != index
    ensures var br' := br[at := br[at].WithLink(bit, index)];
            && WellLinked(br') && Grown(br, br') && Linked(br', index) && br'[at].Link(bit) == index
            && forall x :: x in br && Linked(br, x) ==> Linked(br', x)
  {
    var br' := br[at := br[at].WithLink(bit, index)];
    forall x, b | x in br' && br'[x].Link(b) != 0
      ensures br'[x].Link(b) in br' && br'[br'[x].Link(b)].parent == x
    {
      if x != at || b != bit { assert br'[x].Link(b) == br[x].Link(b); }
    }
    assert br'[at].Link(!bit) == br[at].Link(!bit);
    assert br'[at].left == br'[at].Link(false) && br'[at].right == br'[at].Link(true);
    forall x | x in br && Linked(br, x)
      ensures Linked(br', x)
    {
      var p := br[x].parent;
      assert br[p].left == br[p].Link(false) && br[p].right == br[p].Link(true);
      if p == at {
        assert br'[at].Link(!bit) == br[at].Link(!bit);
      }
    }
  }

  // ----- every step keeps the invariant

  lemma FreshIndex(s: Store, cut: set<nat>, t: Thread)
    requires StoreInv(s, cut) && t in s.stages && s.stages[t].Sized?
    ensures var g := s.stages[t]; g.index !in s.branches && g.c.at in s.branches && g.c.at < g.index
  {
    var g := s.stages[t];
    assert StageOk(s, t);
    assert g.index in s.branches ==> BranchRecorded(s, g.index);
    assert BranchRecorded(s, g.c.at);
  }

  lemma StepGrows(s: Store, cut: set<nat>, t: Thread, r: Request)
    requires StoreInv(s, cut) && CanStep(s, t, r)
    ensures WellLinked(Stepped(s, t, r).branches) && Grown(s.branches, Stepped(s, t, r).branches)
    ensures forall x :: x in s.branches && Linked(s.branches, x) ==> Linked(Stepped(s, t, r).branches, x)
  {
    var g := s.stages[t];
    assert StageOk(s, t);
    if g.Sized? {
      FreshIndex(s, cut, t);
      AppendGrows(s.branches, g.index, g.c.at);
    } else if g.Linking? {
      var b := s.branches[g.c.at];
      assert b.left == b.Link(false) && b.right == b.Link(true);
      LinkGrows(s.branches, g.c.at, g.bit, g.index);
    }
  }

  lemma StepKeepsRecords(s: Store, cut: set<nat>, t: Thread, r: Request)
    requires StoreInv(s, cut) && CanStep(s, t, r)
    ensures var s' := Stepped(s, t, r);
            && RecordsApart(s'.records, s'.fileSize)
            && (forall x {:trigger BranchRecorded(s', x)} :: x in s'.branches ==> BranchRecorded(s', x))
  {
    var s' := Stepped(s, t, r);
    var g := s.stages[t];
    assert StageOk(s, t);
    forall x | x in s'.branches
      ensures BranchRecorded(s', x)
    {
      assert x in s.branches ==> BranchRecorded(s, x);
    }
    forall x, y | x in s'.records && y in s'.records && x != y
      ensures RecordApart(x, s'.records[x], y, s'.records[y])
    {
      if x in s.records && y in s.records {
        assert RecordApart(x, s.records[x], y, s.records[y]);
      }
    }
  }

  lemma StepKeepsAttached(s: Store, cut: set<nat>, t: Thread, r: Request, x: nat)
    requires StoreInv(s, cut) && CanStep(s, t, r) && x in Stepped(s, t, r).branches
    requires WellLinked(Stepped(s, t, r).branches)
    ensures Attached(Stepped(s, t, r), cut, x)
  {
    var s' := Stepped(s, t, r);
    var g := s.stages[t];
    assert StageOk(s, t);
    StepGrows(s, cut, t, r);
    if x in s.branches {
      assert Attached(s, cut, x);
      if g.Linking? && x == g.index {
        var b := s.branches[g.c.at];
        assert b.left == b.Link(false) && b.right == b.Link(true);
        LinkGrows(s.branches, g.c.at, g.bit, g.index);
      }
      if s.database.Held? { assert StageOk(s, s.database.owner); }
    }
  }

  lemma StepKeepsOthers(s: Store, cut: set<nat>, t: Thread, r: Request, u: Thread)
    requires StoreInv(s, cut) && CanStep(s, t, r) && u in s.stages && u != t
    requires WellLinked(Stepped(s, t, r).branches)
    ensures StageOk(Stepped(s, t, r), u)
  {
    assert StageOk(s, t) && StageOk(s, u);
    StepGrows(s, cut, t, r);
    WalkGrown(s.branches, Stepped(s, t, r).branches, s.stages[u].c.start, s.stages[u].c.word);
    OtherStage(s, t, r, u);
  }

  lemma OtherStage(s: Store, t: Thread, r: Request, u: Thread)
    requires CanStep(s, t, r) && u in s.stages && u != t && WellLinked(s.branches)
    requires WellLinked(Stepped(s, t, r).branches) && StageOk(s, t) && StageOk(s, u)
    requires CursorAt(Stepped(s, t, r).branches, s.stages[u].c)
    ensures StageOk(Stepped(s, t, r), u)
  {
  }

  lemma StepKeepsOwn(s: Store, cut: set<nat>, t: Thread, r: Request)
    requires StoreInv(s, cut) && CanStep(s, t, r) && WellLinked(Stepped(s, t, r).branches)
    ensures StageOk(Stepped(s, t, r), t)
  {
    assert StageOk(s, t);
    OwnCursor(s, cut, t, r);
    if s.stages[t].Sized? {
      FreshIndex(s, cut, t);
      AppendedUnlinked(s.branches, s.stages[t].index, s.stages[t].c.at);
    }
    if Allocating(s.stages[t]) {
      OwnAllocation(s, t, r);
    } else if Appending(s.stages[t]) {
      OwnAppending(s, t, r);
    } else {
      OwnStage(s, t, r);
    }
  }

  lemma AppendedUnlinked(br: Branches, index: nat, at: nat)
    requires WellLinked(br) && at in br && index !in br && at < index
    requires WellLinked(br[index := Branch(at, 0, 0, 0)])
    ensures !Linked(br[index := Branch(at, 0, 0, 0)], index)
  {
    assert br[at].left == br[at].Link(false) && br[at].right == br[at].Link(true);
  }

  predicate Allocating(g: Stage) {
    g.AllocLocked? || g.AllocSized? || g.AllocHeaded?
  }

  lemma OwnAllocation(s: Store, t: Thread, r: Request)
    requires CanStep(s, t, r) && WellLinked(s.branches) && WellLinked(Stepped(s, t, r).branches) && StageOk(s, t)
    requires CursorAt(Stepped(s, t, r).branches, Stepped(s, t, r).stages[t].c)
    requires Allocating(s.stages[t]) && RecordsApart(s.records, s.fileSize)
    ensures StageOk(Stepped(s, t, r), t)
  {
  }

  predicate Appending(g: Stage) {
    g.Sized? || g.Appended? || g.Linking? || g.Finishing?
  }

  lemma OwnStage(s: Store, t: Thread, r: Request)
    requires CanStep(s, t, r) && WellLinked(s.branches) && WellLinked(Stepped(s, t, r).branches) && StageOk(s, t)
    requires CursorAt(Stepped(s, t, r).branches, Stepped(s, t, r).stages[t].c)
    requires !Allocating(s.stages[t]) && !Appending(s.stages[t])
    ensures StageOk(Stepped(s, t, r), t)
  {
    var s' := Stepped(s, t, r);
    assert t in s'.stages && s'.branches == s.branches && s'.fileSize == s.fileSize && s'.records == s.records;
    match s.stages[t]
    case Resting(c) =>
    case Missing(c, bit) =>
    case Locked(c, bit) =>
    case Reread(c, bit, b) =>
    case Creating(c, bit, b) =>
  }

  lemma OwnAppending(s: Store, t: Thread, r: Request)
    requires CanStep(s, t, r) && WellLinked(s.branches) && WellLinked(Stepped(s, t, r).branches) && StageOk(s, t)
    requires CursorAt(Stepped(s, t, r).branches, Stepped(s, t, r).stages[t].c)
    requires var g := s.stages[t];
             && Appending(g)
             && (g.Sized? ==> g.index != g.c.at && g.index != 0 && !Linked(Stepped(s, t, r).branches, g.index))
    ensures StageOk(Stepped(s, t, r), t)
  {
    var s' := Stepped(s, t, r);
    assert t in s'.stages;
    match s.stages[t]
    case Sized(c, bit, b, index) =>
      assert s'.branches[index] == Branch(c.at, 0, 0, 0) && s'.branches[c.at] == s.branches[c.at] && s'.database == s.database;
    case Appended(c, bit, b, index) =>
      assert s'.branches == s.branches && s'.database == Held(t, 1);
    case Linking(c, bit, b, index) =>
      assert s'.database == s.database;
    case Finishing(c) =>
      assert s'.database == Free;
  }

  /** The stepping thread's cursor still stands where its bits lead. */
  lemma OwnCursor(s: Store, cut: set<nat>, t: Thread, r: Request)
    requires StoreInv(s, cut) && CanStep(s, t, r) && WellLinked(Stepped(s, t, r).branches)
    ensures CursorAt(Stepped(s, t, r).branches, Stepped(s, t, r).stages[t].c)
  {
    var s', g := Stepped(s, t, r), s.stages[t];
    var c := g.c;
    assert StageOk(s, t);
    StepGrows(s, cut, t, r);
    WalkGrown(s.branches, s'.branches, c.start, c.word);
    if g.Resting? && r.Go? {
      WalkPush(s'.branches, c.start, c.word, r.bit);
    } else if g.Reread? {
      WalkPush(s'.branches, c.start, c.word, g.bit);
    } else if g.Linking? {
      WalkPush(s'.branches, c.start, c.word, g.bit);
      assert s'.branches[c.at].Link(g.bit) == g.index;
    }
  }

  lemma StepKeepsStoreInv(s: Store, cut: set<nat>, t: Thread, r: Request)
    requires StoreInv(s, cut) && CanStep(s, t, r)
    ensures StoreInv(Stepped(s, t, r), cut)
  {
    var s' := Stepped(s, t, r);
    assert StageOk(s, t);
    StepGrows(s, cut, t, r);
    StepKeepsRecords(s, cut, t, r);
    forall x | x in s'.branches
      ensures Attached(s', cut, x)
    {
      StepKeepsAttached(s, cut, t, r, x);
    }
    forall u | u in s'.stages
      ensures StageOk(s', u)
    {
      if u == t { StepKeepsOwn(s, cut, t, r); } else { StepKeepsOthers(s, cut, t, r, u); }
    }
  }

  lemma {:induction false} StoreRunInv(states: seq<Store>, actions: seq<(Thread, Request)>, n: nat)
    requires StoreRun(states, actions) && n < |states|
    ensures StoreInv(states[n], CutOff(states[0].branches))
  {
    if n == 0 {
      StartsInv(states[0]);
    } else {
      StoreRunInv(states, actions, n - 1);
      assert StoreStep(states, actions, n - 1);
      StepKeepsStoreInv(states[n - 1], CutOff(states[0].branches), actions[n - 1].0, actions[n - 1].1);
    }
  }

  // ----- what that gives

  /** A child link once set never changes, in any interleaving. */
  lemma {:induction false} LinksNeverChange(states: seq<Store>, actions: seq<(Thread, Request)>, n: nat, m: nat)
    requires StoreRun(states, actions) && n <= m < |states|
    ensures Grown(states[n].branches, states[m].branches)
    decreases m
  {
    if n < m {
      LinksNeverChange(states, actions, n, m - 1);
      StoreRunInv(states, actions, m - 1);
      assert StoreStep(states, actions, m - 1);
      StepGrows(states[m - 1], CutOff(states[0].branches), actions[m - 1].0, actions[m - 1].1);
    }
  }

  /** No branch is ever the child of two slots; and whenever no thread is inside the lock, every branch
      that was linked at the start, or has been created since, is linked from its recorded parent. */
  lemma EveryBranchLinkedOnce(states: seq<Store>, actions: seq<(Thread, Request)>, n: nat, x: nat, p: nat, bit: bool, q: nat, bit': bool)
    requires StoreRun(states, actions) && n < |states|
    requires var br := states[n].branches; x in br && x != 0 && p in br && q in br
    ensures var br := states[n].branches;
            && (br[p].Link(bit) == x && br[q].Link(bit') == x ==> p == q == br[x].parent && bit == bit')
            && (states[n].database == Free && (x in states[0].branches ==> Linked(states[0].branches, x)) ==>
                  br[x].parent in br && (br[br[x].parent].Link(false) == x || br[br[x].parent].Link(true) == x))
  {
    StoreRunInv(states, actions, n);
    assert Attached(states[n], CutOff(states[0].branches), x);
    var br := states[n].branches;
    assert br[p].left == br[p].Link(false) && br[p].right == br[p].Link(true);
  }

  /** Threads that start at the same branch and have followed the same bits, at whatever times,
      are at the same branch. */
  lemma SameBitsSameBranch(states: seq<Store>, actions: seq<(Thread, Request)>, n: nat, m: nat, t: Thread, u: Thread)
    requires StoreRun(states, actions) && n <= m < |states|
    requires t in states[n].stages && u in states[m].stages
    requires states[n].stages[t].c.start == states[m].stages[u].c.start
    requires states[n].stages[t].c.word == states[m].stages[u].c.word
    ensures states[n].stages[t].c.at == states[m].stages[u].c.at
  {
    StoreRunInv(states, actions, n);
    StoreRunInv(states, actions, m);
    assert StageOk(states[n], t) && StageOk(states[m], u);
    LinksNeverChange(states, actions, n, m);
    var c := states[n].stages[t].c;
    WalkGrown(states[n].branches, states[m].branches, c.start, c.word);
  }

  /** Records of branches and data never overlap, and the one at offset zero is always a branch. */
  lemma RecordsNeverOverlap(states: seq<Store>, actions: seq<(Thread, Request)>, n: nat, x: nat, y: nat)
    requires StoreRun(states, actions) && n < |states| && x in states[n].records && y in states[n].records && x < y
    ensures x + states[n].records[x] <= y
    ensures y + states[n].records[y] <= states[n].fileSize
    ensures 0 in states[n].records && states[n].records[0] == DatabaseBase.BRANCH_SIZE
  {
    StoreRunInv(states, actions, n);
    var records := states[n].records;
    assert RecordApart(x, records[x], y, records[y]);
    assert BranchRecorded(states[n], 0);
  }

  // ----- what a request waits for, and what it has done when the thread rests again

  /** A thread waits for the lock exactly while another thread is inside it, and for nothing else. */
  lemma WaitsForLock(states: seq<Store>, actions: seq<(Thread, Request)>, n: nat, t: Thread, r: Request)
    requires StoreRun(states, actions) && n < |states| && t in states[n].stages
    ensures CanStep(states[n], t, r) <==>
              (states[n].stages[t].Missing? || (states[n].stages[t].Resting? && r.Allocate?) ==>
                 forall u :: u in states[n].stages && u != t ==> !Inside(states[n].stages[u]))
  {
    StoreRunInv(states, actions, n);
    var s := states[n];
    forall u | u in s.stages
      ensures Inside(s.stages[u]) <==> s.database.Held? && s.database.owner == u
    {
      assert StageOk(s, u);
    }
    assert StageOk(s, t);
  }

  /** The request the thread has not come to the end of: where it came from, and what it is asked for. */
  predicate Asked(g: Stage, c: Cursor, r: Request) {
    match g
    case Resting(c') => Answered(c', c, r)
    case Finishing(c') => Answered(c', c, r)
    case AllocLocked(c', size) => c' == c && r == Allocate(size)
    case AllocSized(c', size, _) => c' == c && r == Allocate(size)
    case AllocHeaded(c', size, _) => c' == c && r == Allocate(size)
    case _ => g.c == c && r == Go(g.bit)
  }

  predicate Answered(c': Cursor, c: Cursor, r: Request) {
    match r
    case Go(bit) => c'.start == c.start && c'.word == c.word + [bit]
    case Allocate(_) => c' == c
  }

  /** The thread rests at one time and later again, and not in between. */
  ghost predicate RestsAgain(states: seq<Store>, t: Thread, n: nat, m: nat)
    requires n < m < |states|
  {
    && t in states[n].stages && states[n].stages[t].Resting?
    && t in states[m].stages && states[m].stages[t].Resting?
    && forall k {:trigger states[k]} :: n < k < m ==> t in states[k].stages && !states[k].stages[t].Resting?
  }

  lemma AskedStep(s: Store, t: Thread, r: Request, u: Thread, c: Cursor, own: Request)
    requires CanStep(s, t, r) && u in s.stages && (u == t ==> !s.stages[u].Resting?) && Asked(s.stages[u], c, own)
    ensures u in Stepped(s, t, r).stages && Asked(Stepped(s, t, r).stages[u], c, own)
  {
  }

  lemma {:induction false} AskedUnderway(states: seq<Store>, actions: seq<(Thread, Request)>, n: nat, m: nat)
    requires StoreRun(states, actions) && n < m < |states|
    requires var t := actions[n].0;
             && t in states[n].stages && states[n].stages[t].Resting?
             && forall k {:trigger states[k]} :: n < k < m ==> t in states[k].stages && !states[k].stages[t].Resting?
    ensures var t := actions[n].0; t in states[m].stages && Asked(states[m].stages[t], states[n].stages[t].c, actions[n].1)
    decreases m
  {
    assert StoreStep(states, actions, m - 1);
    if n < m - 1 {
      AskedUnderway(states, actions, n, m - 1);
      AskedStep(states[m - 1], actions[m - 1].0, actions[m - 1].1, actions[n].0, states[n].stages[actions[n].0].c, actions[n].1);
    }
  }

  /** In every interleaving, a thread that has asked for a bit has followed exactly that bit when it rests
      again, whether it found the child, created it, or came second, and stands where its bits lead. */
  lemma GoFollows(states: seq<Store>, actions: seq<(Thread, Request)>, n: nat, m: nat, bit: bool)
    requires StoreRun(states, actions) && n < m < |states| && RestsAgain(states, actions[n].0, n, m) && actions[n].1 == Go(bit)
    ensures var c, c' := states[n].stages[actions[n].0].c, states[m].stages[actions[n].0].c;
            && c'.start == c.start && c'.word == c.word + [bit]
            && WellLinked(states[m].branches) && c.start in states[m].branches
            && Walk(states[m].branches, c.start, c.word + [bit]) == Some(c'.at)
            && c.at in states[m].branches && states[m].branches[c.at].Link(bit) == c'.at
  {
    var t := actions[n].0;
    AskedUnderway(states, actions, n, m);
    StoreRunInv(states, actions, n);
    StoreRunInv(states, actions, m);
    assert StageOk(states[n], t) && StageOk(states[m], t);
    var c := states[n].stages[t].c;
    LinksNeverChange(states, actions, n, m);
    WalkGrown(states[n].branches, states[m].branches, c.start, c.word);
    WalkPush(states[m].branches, c.start, c.word, bit);
  }

  /** A record of this size has been made since, beyond what the file held then. */
  ghost predicate MadeSince(s: Store, s': Store, size: nat) {
    exists x :: x in s'.records && s'.records[x] == size && x >= s.fileSize
  }

  lemma StepKeepsMade(s: Store, cut: set<nat>, t: Thread, r: Request)
    requires StoreInv(s, cut) && CanStep(s, t, r)
    ensures Stepped(s, t, r).fileSize >= s.fileSize
    ensures forall x :: x in s.records ==> x in Stepped(s, t, r).records && Stepped(s, t, r).records[x] == s.records[x]
  {
    assert StageOk(s, t);
  }

  /** What the thread that allocates has come to: an index beyond what the file held when it was asked. */
  ghost predicate Making(before: Store, s: Store, g: Stage, size: nat) {
    && s.fileSize >= before.fileSize
    && (g.AllocSized? || g.AllocHeaded? ==> g.index >= before.fileSize)
    && (g.Finishing? || g.Resting? ==> MadeSince(before, s, DatabaseBase.INDEX_SIZE + size))
  }

  lemma MakingStep(before: Store, s: Store, cut: set<nat>, t: Thread, r: Request, u: Thread, c: Cursor, size: nat)
    requires StoreInv(s, cut) && CanStep(s, t, r) && u in s.stages && (u == t ==> !s.stages[u].Resting?)
    requires Asked(s.stages[u], c, Allocate(size)) && Making(before, s, s.stages[u], size)
    ensures u in Stepped(s, t, r).stages && Making(before, Stepped(s, t, r), Stepped(s, t, r).stages[u], size)
  {
    var s' := Stepped(s, t, r);
    assert StageOk(s, t);
    StepKeepsMade(s, cut, t, r);
    if s.stages[u].AllocHeaded? && u == t {
      assert s.stages[u].index in s'.records;
    }
  }

  lemma {:induction false} MakingUnderway(states: seq<Store>, actions: seq<(Thread, Request)>, n: nat, m: nat, size: nat)
    requires StoreRun(states, actions) && n < m < |states| && actions[n].1 == Allocate(size)
    requires var t := actions[n].0;
             && t in states[n].stages && states[n].stages[t].Resting?
             && forall k {:trigger states[k]} :: n < k < m ==> t in states[k].stages && !states[k].stages[t].Resting?
    ensures actions[n].0 in states[m].stages && Making(states[n], states[m], states[m].stages[actions[n].0], size)
    decreases m
  {
    assert StoreStep(states, actions, m - 1);
    if n < m - 1 {
      MakingUnderway(states, actions, n, m - 1, size);
      AskedUnderway(states, actions, n, m - 1);
      StoreRunInv(states, actions, m - 1);
      MakingStep(states[n], states[m - 1], CutOff(states[0].branches), actions[m - 1].0, actions[m - 1].1,
                 actions[n].0, states[n].stages[actions[n].0].c, size);
    }
  }

  /** In every interleaving, a thread that has asked for room has not moved when it rests again, and a
      record of that size, with its size word, lies behind all that the file held before. */
  lemma AllocateMakes(states: seq<Store>, actions: seq<(Thread, Request)>, n: nat, m: nat, size: nat)
    requires StoreRun(states, actions) && n < m < |states| && RestsAgain(states, actions[n].0, n, m) && actions[n].1 == Allocate(size)
    ensures states[m].stages[actions[n].0].c == states[n].stages[actions[n].0].c
    ensures exists x :: x in states[m].records && states[m].records[x] == DatabaseBase.INDEX_SIZE + size && x >= states[n].fileSize
  {
    AskedUnderway(states, actions, n, m);
    MakingUnderway(states, actions, n, m, size);
  }

  // ----- the file holds nothing else

  ghost predicate InRecord(s: Store, b: nat) {
    exists x :: x in s.records && x <= b < x + s.records[x]
  }

  /** The byte is of the size word of a data record that is being written. */
  ghost predicate InHead(s: Store, b: nat) {
    && s.database.Held? && s.database.owner in s.stages
    && var g := s.stages[s.database.owner]; g.AllocHeaded? && g.index <= b < g.index + DatabaseBase.INDEX_SIZE
  }

  /** Every byte from the base on is of a record, or of one that is being written. */
  ghost predicate Covered(s: Store, base: nat) {
    forall b: nat {:trigger InRecord(s, b)} :: base <= b < s.fileSize ==> InRecord(s, b) || InHead(s, b)
  }

  lemma StepCovers(s: Store, cut: set<nat>, t: Thread, r: Request, base: nat, b: nat)
    requires StoreInv(s, cut) && CanStep(s, t, r) && Covered(s, base) && base <= b < Stepped(s, t, r).fileSize
    ensures InRecord(Stepped(s, t, r), b) || InHead(Stepped(s, t, r), b)
  {
    var s', g := Stepped(s, t, r), s.stages[t];
    assert StageOk(s, t);
    if s.database.Held? {
      assert StageOk(s, s.database.owner);
    }
    StepKeepsMade(s, cut, t, r);
    if b < s.fileSize && InRecord(s, b) {
      var x :| x in s.records && x <= b < x + s.records[x];
      assert x in s'.records;
    } else if g.Sized? || g.AllocHeaded? {
      assert g.index in s'.records;
    }
  }

  lemma {:induction false} RunCovers(states: seq<Store>, actions: seq<(Thread, Request)>, n: nat)
    requires StoreRun(states, actions) && n < |states|
    ensures Covered(states[n], states[0].fileSize)
  {
    if n > 0 {
      RunCovers(states, actions, n - 1);
      StoreRunInv(states, actions, n - 1);
      assert StoreStep(states, actions, n - 1);
      forall b: nat | states[0].fileSize <= b < states[n].fileSize
        ensures InRecord(states[n], b) || InHead(states[n], b)
      {
        StepCovers(states[n - 1], CutOff(states[0].branches), actions[n - 1].0, actions[n - 1].1, states[0].fileSize, b);
      }
    }
  }

  /** Whenever no thread is inside the lock, every byte that the file has grown by is of a record. */
  lemma FileIsRecords(states: seq<Store>, actions: seq<(Thread, Request)>, n: nat, b: nat)
    requires StoreRun(states, actions) && n < |states| && states[n].database == Free
    requires states[0].fileSize <= b < states[n].fileSize
    ensures exists x :: x in states[n].records && x <= b < x + states[n].records[x]
  {
    RunCovers(states, actions, n);
    assert InRecord(states[n], b);
  }
}
