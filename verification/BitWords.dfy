/**
  Words of bits, as the trie and the power encoding use them: the running
  count ("ones minus zeros"), self-delimiting keys, and the left-to-right order
  of words in a binary trie.
 */
module BitWords {
  import opened Sequences

  type Word = seq<bool>

  /** Ones minus zeros. */
  function Level(w: Word): int {
    if w == [] then 0
    else Level(w[..|w| - 1]) + if w[|w| - 1] then 1 else -1
  }

  /** Every non-empty prefix, the word included, has a positive running count. */
  ghost predicate Open(w: Word) {
    forall i :: 0 < i <= |w| ==> Level(w[..i]) > 0
  }

  /** A key: the running count is positive until the last bit, where it is zero. */
  ghost predicate IsKey(w: Word) {
    w != [] && Open(w[..|w| - 1]) && Level(w) == 0
  }

  ghost predicate DivergeAt(toward: bool, u: Word, v: Word, i: nat) {
    i < |u| && i < |v| && u[..i] == v[..i] && u[i] != v[i] && v[i] == toward
  }

  /** The words part at some bit, where v takes the bit `toward`: with `toward` true,
      v lies to the right of u in the trie; with `toward` false, to its left. */
  ghost predicate Beside(toward: bool, u: Word, v: Word) {
    exists i: nat :: DivergeAt(toward, u, v, i)
  }

  ghost predicate ProperPrefix(u: Word, v: Word) {
    |u| < |v| && u == v[..|u|]
  }

  /** v comes after u in the scan that turns `toward`: below it, or beside it. */
  ghost predicate After(toward: bool, u: Word, v: Word) {
    ProperPrefix(u, v) || Beside(toward, u, v)
  }

  function Reversed<T>(s: seq<T>): (r: seq<T>)
    ensures |r| == |s| && forall i :: 0 <= i < |s| ==> r[i] == s[|s| - 1 - i]
  {
    if s == [] then [] else [s[|s| - 1]] + Reversed(s[..|s| - 1])
  }

  lemma PrefixPush(c: Word, u: Word, b: bool)
    ensures ProperPrefix(c, u + [b]) <==> c == u || ProperPrefix(c, u)
  {
    if ProperPrefix(c, u + [b]) {
      assert c == (u + [b])[..|c|] == u[..|c|];
    }
  }

  lemma LevelPush(w: Word, b: bool)
    ensures (w + [b])[..|w|] == w
    ensures Level(w + [b]) == Level(w) + if b then 1 else -1
  {
    assert (w + [b])[..|w|] == w;
  }

  lemma {:induction false} LevelConcat(u: Word, v: Word)
    ensures Level(u + v) == Level(u) + Level(v)
  {
    if v == [] {
      assert u + v == u;
    } else {
      LevelConcat(u, v[..|v| - 1]);
      assert (u + v)[..|u + v| - 1] == u + v[..|v| - 1];
    }
  }

  lemma OpenPrefix(w: Word, i: nat)
    requires Open(w) && i <= |w|
    ensures Open(w[..i])
  {
    forall j | 0 < j <= i
      ensures Level(w[..i][..j]) > 0
    {
      assert w[..i][..j] == w[..j];
    }
  }

  lemma OpenPush(w: Word, b: bool)
    requires Open(w) && Level(w + [b]) > 0
    ensures Open(w + [b])
  {
    forall j | 0 < j <= |w| + 1
      ensures Level((w + [b])[..j]) > 0
    {
      if j <= |w| {
        assert (w + [b])[..j] == w[..j];
      } else {
        assert (w + [b])[..j] == w + [b];
      }
    }
  }

  lemma KeyStartsWithOne(k: Word)
    requires IsKey(k)
    ensures |k| >= 2 && k[0] && !k[|k| - 1]
  {
    LevelPush([], k[0]);
    assert [] + [k[0]] == [k[0]] == k[..1];
    Whole(k);
    assert k[..|k| - 1][..1] == k[..1];
    assert k[..|k| - 1][..|k| - 1] == k[..|k| - 1];
  }

  /** A proper prefix of a key is open. */
  lemma KeyPrefixOpen(k: Word, i: nat)
    requires IsKey(k) && i < |k|
    ensures Open(k[..i])
  {
    OpenPrefix(k[..|k| - 1], i);
    assert k[..|k| - 1][..i] == k[..i];
  }

  /** A word that starts with a one and does not stay above count zero starts with a key. */
  lemma FirstReturn(w: Word) returns (i: nat)
    requires w != [] && w[0] && Level(w) <= 0
    ensures 0 < i <= |w| && IsKey(w[..i])
  {
    i := 1;
    LevelPush([], true);
    assert w[..1] == [] + [true];
    Whole(w);
    while Level(w[..i]) > 0
      invariant 0 < i <= |w| && Level(w[..i]) >= 0
      invariant forall j :: 0 < j < i ==> Level(w[..j]) > 0
      decreases |w| - i
    {
      TakeNext(w, i);
      LevelPush(w[..i], w[i]);
      i := i + 1;
    }
    var body := w[..i][..i - 1];
    forall j | 0 < j <= |body|
      ensures Level(body[..j]) > 0
    {
      assert body[..j] == w[..j];
    }
  }

  /** No key is a proper prefix of another: the encoding is self-delimiting. */
  lemma KeysPrefixFree(k: Word, l: Word)
    requires IsKey(k) && IsKey(l)
    ensures !ProperPrefix(k, l)
  {
    if |k| < |l| {
      KeyPrefixOpen(l, |k|);
      assert l[..|k|][..|k|] == l[..|k|];
    }
  }

  /** Two words are equal, or one is below the other, or they part at one bit. */
  lemma {:induction false} Trichotomy(u: Word, v: Word)
    ensures u == v || ProperPrefix(u, v) || ProperPrefix(v, u) || Beside(true, u, v) || Beside(false, u, v)
  {
    var i := 0;
    while i < |u| && i < |v| && u[i] == v[i]
      invariant i <= |u| && i <= |v| && u[..i] == v[..i]
    {
      i := i + 1;
    }
    if i < |u| && i < |v| {
      assert DivergeAt(v[i], u, v, i);
    }
  }

  /** Distinct keys lie side by side. */
  lemma KeysBeside(k: Word, l: Word)
    requires IsKey(k) && IsKey(l) && k != l
    ensures Beside(true, k, l) || Beside(false, k, l)
  {
    Trichotomy(k, l);
    KeysPrefixFree(k, l);
    KeysPrefixFree(l, k);
  }

  lemma BesideFlip(toward: bool, u: Word, v: Word)
    ensures Beside(toward, u, v) <==> Beside(!toward, v, u)
  {
    if Beside(toward, u, v) {
      var i: nat :| DivergeAt(toward, u, v, i);
      assert DivergeAt(!toward, v, u, i);
    }
    if Beside(!toward, v, u) {
      var i: nat :| DivergeAt(!toward, v, u, i);
      assert DivergeAt(toward, u, v, i);
    }
  }

  lemma BesideTransitive(toward: bool, u: Word, v: Word, w: Word)
    requires Beside(toward, u, v) && Beside(toward, v, w)
    ensures Beside(toward, u, w)
  {
    var i: nat :| DivergeAt(toward, u, v, i);
    var j: nat :| DivergeAt(toward, v, w, j);
    var m := if i <= j then i else j;
    assert u[..m] == u[..i][..m] == v[..i][..m] == v[..m];
    assert w[..m] == w[..j][..m] == v[..j][..m] == v[..m];
    if i < j {
      assert w[i] == w[..j][i] == v[..j][i] == v[i];
    }
    if j < i {
      assert u[j] == u[..i][j] == v[..i][j] == v[j];
    }
    assert DivergeAt(toward, u, w, m);
  }

  lemma BesideIrreflexive(toward: bool, u: Word, v: Word)
    requires Beside(toward, u, v)
    ensures u != v && !ProperPrefix(u, v) && !ProperPrefix(v, u) && !Beside(!toward, u, v)
  {
    var i: nat :| DivergeAt(toward, u, v, i);
    assert |u| <= |v| ==> v[..|u|][i] == v[i];
    assert |v| <= |u| ==> u[..|v|][i] == u[i];
    var away := !toward;
    forall j: nat
      ensures !DivergeAt(away, u, v, j)
    {
      assert i < j <= |u| && j <= |v| ==> u[..j][i] == u[i] && v[..j][i] == v[i];
      assert j < i ==> u[..i][j] == u[j] && v[..i][j] == v[j];
    }
  }

  /** Extending v keeps it beside u. */
  lemma BesideExtend(toward: bool, u: Word, v: Word, w: Word)
    requires Beside(toward, u, v) && ProperPrefix(v, w)
    ensures Beside(toward, u, w)
  {
    var i: nat :| DivergeAt(toward, u, v, i);
    assert w[..|v|][..i] == w[..i];
    assert w[..|v|][i] == w[i];
    assert DivergeAt(toward, u, w, i);
  }

  /** Extending u keeps v beside it. */
  lemma BesideExtendLeft(toward: bool, u: Word, v: Word, w: Word)
    requires Beside(toward, u, v) && ProperPrefix(u, w)
    ensures Beside(toward, w, v)
  {
    BesideFlip(toward, u, v);
    BesideExtend(!toward, v, u, w);
    BesideFlip(toward, w, v);
  }

  /** The same front does not matter to the order. */
  lemma BesideBehind(toward: bool, c: Word, u: Word, v: Word)
    ensures Beside(toward, c + u, c + v) <==> Beside(toward, u, v)
  {
    if Beside(toward, u, v) {
      var i: nat :| DivergeAt(toward, u, v, i);
      assert (c + u)[..|c| + i] == c + u[..i];
      assert (c + v)[..|c| + i] == c + v[..i];
      assert DivergeAt(toward, c + u, c + v, |c| + i);
    }
    if Beside(toward, c + u, c + v) {
      var i: nat :| DivergeAt(toward, c + u, c + v, i);
      assert i >= |c|;
      assert (c + u)[..i][|c|..] == u[..i - |c|] && (c + v)[..i][|c|..] == v[..i - |c|];
      assert DivergeAt(toward, u, v, i - |c|);
    }
  }

  /** What lies beside u + [b]: what lies beside u, and what lies under the other child of u
      when that child is on the side turned to. */
  lemma BesideLast(toward: bool, u: Word, b: bool, v: Word)
    ensures Beside(toward, u + [b], v) <==>
            Beside(toward, u, v) || (b != toward && (v == u + [toward] || ProperPrefix(u + [toward], v)))
  {
    var ub := u + [b];
    assert ub[..|u|] == u;
    if Beside(toward, ub, v) {
      var i: nat :| DivergeAt(toward, ub, v, i);
      if i < |u| {
        assert ub[..i] == u[..i];
        assert DivergeAt(toward, u, v, i);
      } else {
        assert ub[..i] == u;
        assert v[..|u| + 1] == u + [toward];
        if |v| == |u| + 1 { assert v == v[..|u| + 1]; }
      }
    }
    if Beside(toward, u, v) {
      assert ProperPrefix(u, ub);
      BesideExtendLeft(toward, u, v, ub);
    }
    if b != toward && (v == u + [toward] || ProperPrefix(u + [toward], v)) {
      assert v[..|u| + 1] == u + [toward];
      assert v[..|u|] == v[..|u| + 1][..|u|] == u;
      assert v[|u|] == v[..|u| + 1][|u|] == toward;
      assert DivergeAt(toward, ub, v, |u|);
    }
  }

  /** What lies below u lies at or below one of its two children. */
  lemma BelowSplits(u: Word, v: Word)
    requires ProperPrefix(u, v)
    ensures v[..|u| + 1] == u + [v[|u|]]
    ensures v == u + [v[|u|]] || ProperPrefix(u + [v[|u|]], v)
  {
    assert v[..|u| + 1] == u + [v[|u|]];
    if |v| == |u| + 1 { assert v == v[..|u| + 1]; }
  }

  // ----- words that never count below zero

  /** Whether some prefix counts below zero. */
  ghost predicate Dips(w: Word) {
    exists i: nat :: DipsAt(w, i)
  }

  ghost predicate DipsAt(w: Word, i: nat) {
    i <= |w| && Level(w[..i]) < 0
  }

  lemma NeverDips(w: Word)
    requires !Dips(w)
    ensures Level(w) >= 0
  {
    Whole(w);
    assert !DipsAt(w, |w|);
  }

  lemma DipsPush(w: Word)
    requires w != []
    ensures Dips(w) <==> Dips(w[..|w| - 1]) || Level(w) < 0
  {
    var u := w[..|w| - 1];
    Whole(w);
    forall i: nat | i <= |u|
      ensures DipsAt(w, i) <==> DipsAt(u, i)
    {
      assert u[..i] == w[..i];
    }
    if Dips(u) {
      var i: nat :| DipsAt(u, i);
      assert DipsAt(w, i);
    }
    if Level(w) < 0 {
      assert DipsAt(w, |w|);
    }
    if Dips(w) {
      var i: nat :| DipsAt(w, i);
      assert i <= |u| ==> DipsAt(u, i);
    }
  }
}
