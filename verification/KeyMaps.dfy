/**
  What the trie stands for: below any branch, a finite map from rows of keys to data. A row is the
  keys in a row that lead from path to path; keys are self-delimiting, so a row is just its bits.
 */
module KeyMaps {
  import opened BitWords
  import opened ByteStrings
  import opened Clearing
  import opened DatabaseBase
  import opened Nesting
  import opened Paths
  import opened Trie

  type Rows = map<Word, Bytes>

  /** The data at the end of a word. */
  ghost function DataOf(br: Branches, blobs: Blobs, root: nat, w: Word): Option<Bytes>
    requires WellLinked(br) && DataLinked(br, blobs) && root in br
  {
    if Leads(br, root, w) then DataAt(br, blobs, Walk(br, root, w).value) else None
  }

  function Lookup(m: Rows, w: Word): Option<Bytes> {
    if w in m then Some(m[w]) else None
  }

  /** The rows that have data, and their data. */
  ghost predicate Represents(br: Branches, blobs: Blobs, root: nat, m: Rows)
    requires WellLinked(br) && DataLinked(br, blobs) && root in br
  {
    forall w :: Balanced(w) ==> DataOf(br, blobs, root, w) == Lookup(m, w)
  }

  /** The map without the rows that run through one. */
  function WithoutRow(m: Rows, row: Word): Rows {
    map w | w in m && !(row <= w) :: m[w]
  }

  /** A new database has no data anywhere. */
  lemma EmptyRepresents()
    ensures var br := map[0 := NEW_ROOT]; WellLinked(br) && DataLinked(br, map[]) && Represents(br, map[], 0, map[])
  {
    var br := map[0 := NEW_ROOT];
    assert forall bit :: br[0].Link(bit) == 0;
    assert WellLinked(br);
    forall w
      ensures DataOf(br, map[], 0, w) == None
    {
      if w != [] && Leads(br, 0, w) { WalkParent(br, 0, w); }
    }
  }

  // ----- writing

  /** Creating the branches of a row creates no data. */
  lemma IndexedRow(br: Branches, blobs: Blobs, root: nat, b: Word, at: nat, w: Word, size: nat, v: Word)
    requires WellLinked(br) && DataLinked(br, blobs) && root in br && Within(br, size)
    requires at in br && Walk(br, root, b) == Some(at)
    requires var br' := Indexed(br, at, w, size); WellLinked(br') && DataLinked(br', blobs) && root in br'
    ensures DataOf(Indexed(br, at, w, size), blobs, root, v) == DataOf(br, blobs, root, v)
    ensures Walk(Indexed(br, at, w, size), root, b) == Some(at)
  {
    var br' := Indexed(br, at, w, size);
    IndexedWalk(br, at, w, size, root, b, b);
    IndexedWalk(br, at, w, size, root, b, v);
    if Leads(br', root, v) {
      var x := Walk(br', root, v).value;
      IndexedData(br, at, w, size, x);
      if !Leads(br, root, v) && x in br {
        IndexedNew(br, at, w, size, root, b, v);
      }
    }
  }

  /** A word that led nowhere before leads to a branch that was not there before. */
  lemma {:induction false} IndexedNew(br: Branches, at: nat, w: Word, size: nat, root: nat, b: Word, v: Word)
    requires WellLinked(br) && root in br && Within(br, size) && at in br && Walk(br, root, b) == Some(at)
    requires var br' := Indexed(br, at, w, size); WellLinked(br') && root in br' && Leads(br', root, v)
    requires !Leads(br, root, v)
    ensures Walk(Indexed(br, at, w, size), root, v).value !in br
    decreases |w|
  {
    if w != [] {
      var br1, size1 := Stepped(br, at, w[0], size), size + Growth(br, at, w[0]);
      SteppedWellLinked(br, at, w[0], size);
      SteppedWalk(br, at, w[0], size, root, b, v);
      if Leads(br1, root, v) {
        IndexedWalk(br1, br1[at].Link(w[0]), w[1..], size1, root, b + [w[0]], v);
      } else {
        IndexedNew(br1, br1[at].Link(w[0]), w[1..], size1, root, b + [w[0]], v);
      }
    } else {
      IndexedWalk(br, at, w, size, root, b, v);
    }
  }

  /** The same links give the same walks. */
  lemma {:induction false} SameLinksWalk(br: Branches, br': Branches, root: nat, v: Word)
    requires WellLinked(br) && WellLinked(br') && root in br && br.Keys == br'.Keys
    requires forall x, bit :: x in br ==> br'[x].Link(bit) == br[x].Link(bit)
    ensures Walk(br', root, v) == Walk(br, root, v)
  {
    if v != [] {
      SameLinksWalk(br, br', root, v[..|v| - 1]);
    }
  }

  /** Writing the data of the branch at the end of one row writes that entry of the map. */
  lemma WrittenRow(br: Branches, blobs: Blobs, br': Branches, blobs': Blobs, root: nat, row: Word, value: Bytes, m: Rows)
    requires WellLinked(br) && DataLinked(br, blobs) && root in br && WellLinked(br') && DataLinked(br', blobs')
    requires Represents(br, blobs, root, m) && Leads(br, root, row) && br.Keys == br'.Keys
    requires forall x, bit :: x in br ==> br'[x].Link(bit) == br[x].Link(bit)
    requires DataAt(br', blobs', Walk(br, root, row).value) == Some(value)
    requires forall x :: x in br && x != Walk(br, root, row).value ==> DataAt(br', blobs', x) == DataAt(br, blobs, x)
    ensures Represents(br', blobs', root, m[row := value])
  {
    forall w | Balanced(w)
      ensures DataOf(br', blobs', root, w) == Lookup(m[row := value], w)
    {
      SameLinksWalk(br, br', root, w);
      if Leads(br, root, w) && Walk(br, root, w) == Walk(br, root, row) {
        WalkInjective(br, root, w, row);
      }
      assert DataOf(br, blobs, root, w) == Lookup(m, w);
    }
  }

  // ----- clearing

  /** What runs through the cut of a cleared key runs through the key. */
  lemma ThroughCut(br: Branches, root: nat, b: Word, at: nat, k: Word, v: Word)
    requires WellLinked(br) && root in br && at in br && Walk(br, root, b) == Some(at) && KeyIn(br, at, k)
    requires Balanced(b) && Balanced(v) && Leads(br, root, v)
    ensures b + CutWord(br, at, k) <= v <==> b + k <= v
  {
    var c := CutWord(br, at, k);
    Prolonged(b, c, k);
    Further(b + c, b + k, v);
    if b + c <= v {
      FrontOf(b, c, v);
      var l := RowKey(br, root, b, at, v);
      OneCut(br, at, k, l, v[|b|..]);
      Prolonged(b, k, v[|b|..]);
    }
  }

  /** The key that a longer row goes on with. */
  lemma RowKey(br: Branches, root: nat, b: Word, at: nat, v: Word) returns (l: Word)
    requires WellLinked(br) && root in br && at in br && Walk(br, root, b) == Some(at)
    requires Balanced(b) && Balanced(v) && Leads(br, root, v) && b <= v && b != v
    ensures KeyIn(br, at, l) && l <= v[|b|..]
  {
    BalancedRest(b, v);
    var i := FirstKey(v[|b|..]);
    l := v[|b|..][..i];
    assert v[..|b| + i] == b + l;
    WalkPrefix(br, root, v, |b| + i);
    WalkConcat(br, root, b, l);
  }

  /** A key that shares the cut is the key. */
  lemma OneCut(br: Branches, at: nat, k: Word, l: Word, r: Word)
    requires WellLinked(br) && at in br && KeyIn(br, at, k) && KeyIn(br, at, l)
    requires CutWord(br, at, k) <= r && l <= r
    ensures l == k
  {
    Fronts(r, CutWord(br, at, k), l);
    if l != k {
      CutIsPrivate(br, at, k, l);
    }
  }

  lemma Prolonged(b: Word, u: Word, v: Word)
    requires u <= v
    ensures b + u <= b + v
  {
  }

  lemma Fronts(r: Word, u: Word, v: Word)
    requires u <= r && v <= r
    ensures u == v || ProperPrefix(u, v) || ProperPrefix(v, u)
  {
  }

  lemma FrontOf(b: Word, c: Word, v: Word)
    requires b + c <= v
    ensures b <= v && c <= v[|b|..] && v == b + v[|b|..] && (c != [] ==> b != v)
  {
    assert v[..|b|] == (b + c)[..|b|] == b;
    assert v[|b|..][..|c|] == v[..|b + c|][|b|..] == c;
  }

  lemma BalancedRest(b: Word, v: Word)
    requires Balanced(b) && Balanced(v) && b <= v
    ensures Balanced(v[|b|..])
  {
    var r := v[|b|..];
    assert v == b + r;
    LevelConcat(b, r);
    forall i: nat | i <= |r|
      ensures !DipsAt(r, i)
    {
      assert v[..|b| + i] == b + r[..i];
      LevelConcat(b, r[..i]);
      assert !DipsAt(v, |b| + i);
    }
  }

  /** Clearing a key below a row takes away exactly the rows through it. */
  lemma ClearedRow(br: Branches, blobs: Blobs, root: nat, b: Word, at: nat, k: Word, m: Rows)
    requires WellLinked(br) && DataLinked(br, blobs) && root in br && at in br && Walk(br, root, b) == Some(at)
    requires Balanced(b) && IsKey(k) && Represents(br, blobs, root, m)
    requires var br' := Cleared(br, at, k); WellLinked(br') && DataLinked(br', blobs) && root in br'
    ensures Represents(Cleared(br, at, k), blobs, root, WithoutRow(m, b + k))
    ensures Walk(Cleared(br, at, k), root, b) == Some(at)
  {
    forall w | Balanced(w)
      ensures DataOf(Cleared(br, at, k), blobs, root, w) == Lookup(WithoutRow(m, b + k), w)
    {
      assert DataOf(br, blobs, root, w) == Lookup(m, w);
      ClearedRowAt(br, Cleared(br, at, k), blobs, root, b, at, k, w);
    }
    ClearedBase(br, root, b, at, k);
  }

  lemma PrunedData(br: Branches, top: nat, x: nat)
    requires WellLinked(br) && top in br && x in br && !Below(br, top, x)
    ensures x in Pruned(br, top) && Pruned(br, top)[x].dataIndex == br[x].dataIndex
  {
  }

  lemma PrunedRow(br: Branches, br': Branches, blobs: Blobs, root: nat, c: Word, w: Word)
    requires WellLinked(br) && DataLinked(br, blobs) && root in br && c != [] && Leads(br, root, c)
    requires br' == Pruned(br, Walk(br, root, c).value) && WellLinked(br') && DataLinked(br', blobs)
    ensures DataOf(br', blobs, root, w) == if c <= w then None else DataOf(br, blobs, root, w)
  {
    WalkPruned(br, root, c, w);
    if !(c <= w) && Leads(br, root, w) {
      BelowIsPrefix(br, root, c, w);
      PrunedData(br, Walk(br, root, c).value, Walk(br, root, w).value);
      SameData(br, br', blobs, root, w);
    }
  }

  lemma SameData(br: Branches, br': Branches, blobs: Blobs, root: nat, w: Word)
    requires WellLinked(br) && DataLinked(br, blobs) && root in br && WellLinked(br') && DataLinked(br', blobs) && root in br'
    requires Leads(br, root, w) && Walk(br', root, w) == Walk(br, root, w)
    requires var x := Walk(br, root, w).value; br'[x].dataIndex == br[x].dataIndex
    ensures DataOf(br', blobs, root, w) == DataOf(br, blobs, root, w)
  {
  }

  /** Seen from the root, the cut lies below the row that leads to the path. */
  lemma CutBelow(br: Branches, root: nat, b: Word, at: nat, k: Word)
    requires WellLinked(br) && root in br && at in br && Walk(br, root, b) == Some(at) && k != [] && Leads(br, at, k)
    ensures var c := CutWord(br, at, k);
            && c != [] && b + c <= b + k && Leads(br, root, b + c)
            && Cleared(br, at, k) == Pruned(br, Walk(br, root, b + c).value)
  {
    var c := CutWord(br, at, k);
    WalkPrefix(br, at, k, |c|);
    WalkConcat(br, root, b, c);
  }

  lemma ClearedRowAt(br: Branches, br': Branches, blobs: Blobs, root: nat, b: Word, at: nat, k: Word, w: Word)
    requires WellLinked(br) && DataLinked(br, blobs) && root in br && at in br && Walk(br, root, b) == Some(at)
    requires Balanced(b) && IsKey(k) && Balanced(w)
    requires br' == Cleared(br, at, k) && WellLinked(br') && DataLinked(br', blobs) && root in br'
    ensures DataOf(br', blobs, root, w) == if b + k <= w then None else DataOf(br, blobs, root, w)
  {
    if Leads(br, at, k) {
      var c := b + CutWord(br, at, k);
      CutBelow(br, root, b, at, k);
      PrunedRow(br, br', blobs, root, c, w);
      Further(c, b + k, w);
      if Leads(br, root, w) {
        ThroughCut(br, root, b, at, k, w);
      }
    } else {
      NotLed(br, root, b, at, k, w);
    }
  }

  lemma Further(u: Word, v: Word, w: Word)
    requires u <= v
    ensures v <= w ==> u <= w
  {
  }

  lemma NotLed(br: Branches, root: nat, b: Word, at: nat, k: Word, w: Word)
    requires WellLinked(br) && root in br && at in br && Walk(br, root, b) == Some(at) && !Leads(br, at, k)
    ensures b + k <= w ==> !Leads(br, root, w)
  {
    WalkConcat(br, root, b, k);
    assert b + k <= w ==> w[..|b + k|] == b + k;
    if b + k <= w && Leads(br, root, w) {
      WalkPrefix(br, root, w, |b + k|);
    }
  }

  lemma ClearedBase(br: Branches, root: nat, b: Word, at: nat, k: Word)
    requires WellLinked(br) && root in br && at in br && Walk(br, root, b) == Some(at) && IsKey(k)
    requires var br' := Cleared(br, at, k); WellLinked(br') && root in br'
    ensures Walk(Cleared(br, at, k), root, b) == Some(at)
  {
    if Leads(br, at, k) {
      CutBelow(br, root, b, at, k);
      WalkPruned(br, root, b + CutWord(br, at, k), b);
    }
  }

  // ----- the operations

  /** Writes the data of the path that a row leads to: the map gets that entry. The path itself may
      stand below other keys, at the end of the row b. */
  method Put(path: Path, w: Word, value: Bytes, ghost root: nat, ghost b: Word, ghost m: Rows)
    requires path.Valid() && path.database.Room(BRANCH_SIZE * |w| + INDEX_SIZE + |value|)
    requires root in path.database.branches && Walk(path.database.branches, root, b) == Some(path.index)
    requires Represents(path.database.branches, path.database.blobs, root, m)
    modifies path.database
    ensures path.Valid() && root in path.database.branches && Walk(path.database.branches, root, b) == Some(path.index)
    ensures Represents(path.database.branches, path.database.blobs, root, m[b + w := value])
  {
    var child := Went(path, w, root, b, m);
    ghost var br, blobs := path.database.branches, path.database.blobs;
    var changed := child.SetData(value);
    WrittenRow(br, blobs, path.database.branches, path.database.blobs, root, b + w, value, m);
    SameLinksWalk(br, path.database.branches, root, b);
  }

  /** The data of the path that a row leads to: what the map has there, or nothing. */
  method Get(path: Path, w: Word, ghost root: nat, ghost b: Word, ghost m: Rows) returns (value: Bytes)
    requires path.Valid() && path.database.Room(BRANCH_SIZE * |w|)
    requires root in path.database.branches && Walk(path.database.branches, root, b) == Some(path.index)
    requires Represents(path.database.branches, path.database.blobs, root, m) && Balanced(b + w)
    modifies path.database
    ensures path.Valid() && root in path.database.branches && Walk(path.database.branches, root, b) == Some(path.index)
    ensures Represents(path.database.branches, path.database.blobs, root, m)
    ensures value == match Lookup(m, b + w) case None => [] case Some(data) => data
  {
    var child := Went(path, w, root, b, m);
    value := child.GetData();
    assert DataOf(path.database.branches, path.database.blobs, root, b + w) == Lookup(m, b + w);
  }

  /** Goes to the path that a row leads to; no entry of the map changes. */
  method Went(path: Path, w: Word, ghost root: nat, ghost b: Word, ghost m: Rows) returns (child: Path)
    requires path.Valid() && path.database.Room(BRANCH_SIZE * |w|)
    requires root in path.database.branches && Walk(path.database.branches, root, b) == Some(path.index)
    requires Represents(path.database.branches, path.database.blobs, root, m)
    modifies path.database
    ensures fresh(child) && child.database == path.database && child.Valid() && path.Valid()
    ensures root in path.database.branches && Walk(path.database.branches, root, b) == Some(path.index)
    ensures Walk(path.database.branches, root, b + w) == Some(child.index)
    ensures Represents(path.database.branches, path.database.blobs, root, m)
    ensures |path.database.file| <= old(|path.database.file|) + BRANCH_SIZE * |w|
  {
    ghost var br, blobs, size := path.database.branches, path.database.blobs, |path.database.file|;
    child := new Path(path.database, path.index);
    child.WriteKey(w);
    ghost var br' := path.database.branches;
    IndexedWellLinked(br, path.index, w, size);
    IndexedWalk(br, path.index, w, size, root, b, b);
    WalkConcat(br', root, b, w);
    forall v | Balanced(v)
      ensures DataOf(br', blobs, root, v) == Lookup(m, v)
    {
      IndexedRow(br, blobs, root, b, path.index, w, size, v);
      assert DataOf(br, blobs, root, v) == Lookup(m, v);
    }
  }

  /** Clears a key below the path: the map loses the rows through it. */
  method Remove(path: Path, k: Word, ghost root: nat, ghost b: Word, ghost m: Rows)
    requires path.Valid() && IsKey(k) && Balanced(b)
    requires root in path.database.branches && Walk(path.database.branches, root, b) == Some(path.index)
    requires Represents(path.database.branches, path.database.blobs, root, m)
    modifies path.database
    ensures path.Valid() && root in path.database.branches && Walk(path.database.branches, root, b) == Some(path.index)
    ensures Represents(path.database.branches, path.database.blobs, root, WithoutRow(m, b + k))
  {
    ghost var br, blobs := path.database.branches, path.database.blobs;
    path.ClearKey(k);
    assert root in Cleared(br, path.index, k);
    ClearedRow(br, blobs, root, b, path.index, k, m);
  }
}
