/**
  Words of several keys. A key nested below another continues its word, so a cursor may stand at
  the end of several keys in a row; a scan from there first runs through the keys beside the
  last one, then through those beside the one before, and so on up.
 */
module Nesting {
  import opened BitWords
  import opened Sequences

  /** The word is empty, or keys in a row, as far as its counts go. */
  ghost predicate Balanced(w: Word) {
    Level(w) == 0 && !Dips(w)
  }

  /** The words agree up to j, where a key of w may start, and something else may start instead. */
  ghost predicate SharedTo(w: Word, v: Word, j: nat) {
    j <= |w| && j <= |v| && (j < |w| || w == []) && w[..j] == v[..j] && Level(w[..j]) == 0
  }

  ghost predicate CandidateAt(w: Word, l: Word, j: nat) {
    SharedTo(w, l, j) && IsKey(l[j..])
  }

  /** l ends a key that starts where w, or a key that w runs through, starts. */
  ghost predicate Candidate(w: Word, l: Word) {
    exists j: nat :: CandidateAt(w, l, j)
  }

  ghost predicate ApproachAt(w: Word, c: Word, j: nat) {
    SharedTo(w, c, j) && Open(c[j..])
  }

  /** c is on the way to such a key. */
  ghost predicate Approach(w: Word, c: Word) {
    exists j: nat :: ApproachAt(w, c, j)
  }

  /** c is a front of w or on the way to a candidate. */
  ghost predicate Tracks(w: Word, c: Word) {
    c <= w || Approach(w, c)
  }

  /** A single key, or the part of one. */
  ghost predicate Single(w: Word) {
    Open(w) || IsKey(w)
  }

  lemma SingleLevel(w: Word, j: nat)
    requires Single(w) && 0 < j < |w|
    ensures Level(w[..j]) > 0
  {
    if IsKey(w) {
      KeyPrefixOpen(w, j);
      Whole(w[..j]);
    }
  }

  /** Beside a single key, or a part of one, the candidates are the keys. */
  lemma CandidatesAreKeys(w: Word, l: Word)
    requires Single(w)
    ensures Candidate(w, l) <==> IsKey(l)
  {
    if IsKey(l) {
      FromStart(l);
      assert CandidateAt(w, l, 0);
    }
    if Candidate(w, l) {
      var j: nat :| CandidateAt(w, l, j);
      if j > 0 { SingleLevel(w, j); }
      FromStart(l);
    }
  }

  lemma SharedLevel(w: Word, v: Word, j: nat)
    requires SharedTo(w, v, j)
    ensures Level(v) == Level(v[j..])
  {
    TakeDrop(v, j);
    LevelConcat(v[..j], v[j..]);
  }

  lemma CandidateLevel(w: Word, l: Word)
    requires Candidate(w, l)
    ensures Level(l) == 0 && l != []
  {
    var j: nat :| CandidateAt(w, l, j);
    SharedLevel(w, l, j);
  }

  /** A word that comes back to count zero inside a key is a front of it or no part of it. */
  lemma NoneInside(l: Word, j: nat, i: nat)
    requires j < i < |l| && IsKey(l[j..]) && Level(l[..j]) == 0
    ensures Level(l[..i]) > 0
  {
    KeyPrefixOpen(l[j..], i - j);
    Whole(l[j..][..i - j]);
    assert l[j..][..i - j] == l[j..i];
    TakeRange(l, j, i);
    LevelConcat(l[..j], l[j..i]);
  }

  /** No candidate lies below the word itself. */
  lemma CandidateBeside(toward: bool, w: Word, l: Word)
    requires w != [] && Level(w) == 0 && Candidate(w, l) && After(toward, w, l)
    ensures Beside(toward, w, l)
  {
    var j: nat :| CandidateAt(w, l, j);
    if ProperPrefix(w, l) {
      NoneInside(l, j, |w|);
    }
  }

  /** No candidate after w is a proper front of another. */
  lemma CandidatesApart(toward: bool, w: Word, k: Word, l: Word)
    requires Candidate(w, k) && Candidate(w, l) && After(toward, w, k)
    ensures !ProperPrefix(k, l)
  {
    var i: nat :| CandidateAt(w, k, i);
    var j: nat :| CandidateAt(w, l, j);
    SharedLevel(w, k, i);
    if ProperPrefix(k, l) && j < |k| {
      NoneInside(l, j, |k|);
    }
  }

  /** One bit further on the way to a candidate. */
  lemma ApproachPush(w: Word, c: Word, b: bool)
    requires Approach(w, c)
    ensures Level(c + [b]) == 0 ==> Candidate(w, c + [b])
    ensures Level(c + [b]) > 0 ==> Approach(w, c + [b])
  {
    var j: nat :| ApproachAt(w, c, j);
    SharedPush(w, c, b, j);
    SharedLevel(w, c + [b], j);
    var d := c[j..];
    if Level(d + [b]) > 0 {
      OpenPush(d, b);
      assert ApproachAt(w, c + [b], j);
    } else if Level(d + [b]) == 0 {
      assert (d + [b])[..|d|] == d;
      assert CandidateAt(w, c + [b], j);
    }
  }

  lemma SharedPush(w: Word, c: Word, b: bool, j: nat)
    requires SharedTo(w, c, j)
    ensures SharedTo(w, c + [b], j) && (c + [b])[j..] == c[j..] + [b]
  {
    assert (c + [b])[..j] == c[..j];
  }

  /** Where the last key of a front of a balanced word starts. */
  lemma {:induction false} LastStart(u: Word) returns (j: nat)
    requires !Dips(u)
    ensures j <= |u| && Level(u[..j]) == 0 && Open(u[j..])
  {
    if u == [] {
      j := 0;
    } else {
      var v, b := u[..|u| - 1], u[|u| - 1];
      Snoc(u);
      DipsPush(u);
      NeverDips(u);
      if Level(u) == 0 {
        j := |u|;
        Whole(u);
      } else {
        j := LastStart(v);
        assert v[..j] == u[..j] && u[j..] == v[j..] + [b];
        TakeDrop(u, j);
        LevelConcat(u[..j], u[j..]);
        OpenPush(v[j..], b);
      }
    }
  }

  lemma ApproachPop(w: Word, u: Word, b: bool, j: nat)
    requires ApproachAt(w, u + [b], j)
    ensures if j <= |u| then ApproachAt(w, u, j) else u + [b] <= w
  {
    if j <= |u| {
      var d := (u + [b])[j..];
      assert d[..|u| - j] == u[j..] && (u + [b])[..j] == u[..j];
      OpenPrefix(d, |u| - j);
    } else {
      Whole(u + [b]);
    }
  }

  lemma TracksPop(w: Word, u: Word, b: bool)
    requires Tracks(w, u + [b])
    ensures Tracks(w, u)
  {
    if !(u + [b] <= w) {
      var j: nat :| ApproachAt(w, u + [b], j);
      ApproachPop(w, u, b, j);
    }
  }

  /** The word a scan turns off from is on the way to a candidate. */
  lemma TracksUp(w: Word, u: Word, b: bool)
    requires Tracks(w, u + [!b]) && !Dips(u)
    ensures Approach(w, u)
  {
    if u + [!b] <= w {
      var j := LastStart(u);
      assert w[..|u|] == u && w[..j] == u[..j];
      assert ApproachAt(w, u, j);
    } else {
      var j: nat :| ApproachAt(w, u + [!b], j);
      ApproachPop(w, u, !b, j);
    }
  }

  /** Turning off starts, or goes on, the way to a candidate, or completes one. */
  lemma TracksTurn(w: Word, u: Word, b: bool)
    requires Tracks(w, u + [!b]) && !Dips(u)
    ensures Level(u + [b]) == 0 ==> Candidate(w, u + [b])
    ensures Level(u + [b]) > 0 ==> Approach(w, u + [b])
  {
    TracksUp(w, u, b);
    ApproachPush(w, u, b);
  }

  /** Where a scan turns off at count zero, a key of the word starts. */
  lemma TracksZero(w: Word, u: Word, b: bool)
    requires Tracks(w, u + [b]) && Level(u) == 0
    ensures u == [] || u < w
  {
    if !(u + [b] <= w) {
      var j: nat :| ApproachAt(w, u + [b], j);
      ApproachPop(w, u, b, j);
      SharedLevel(w, u, j);
      Whole(u[j..]);
      Whole(u);
    }
  }

  /** A candidate is again keys in a row. */
  lemma CandidateBalanced(w: Word, l: Word)
    requires !Dips(w) && Candidate(w, l)
    ensures Balanced(l)
  {
    CandidateLevel(w, l);
    var j: nat :| CandidateAt(w, l, j);
    forall i: nat | i <= |l|
      ensures Level(l[..i]) >= 0
    {
      if i <= j {
        assert l[..i] == l[..j][..i] == w[..j][..i] == w[..i];
        assert !DipsAt(w, i);
      } else if i < |l| {
        NoneInside(l, j, i);
      } else {
        Whole(l);
      }
    }
  }

  lemma KeyBalanced(k: Word)
    requires IsKey(k)
    ensures Balanced(k)
  {
    forall i: nat | i <= |k|
      ensures !DipsAt(k, i)
    {
      if 0 < i < |k| {
        SingleLevel(k, i);
      } else {
        Whole(k);
      }
    }
  }

  /** A balanced word starts with a key, and what follows is balanced. */
  lemma FirstKey(w: Word) returns (i: nat)
    requires Balanced(w) && w != []
    ensures 0 < i <= |w| && IsKey(w[..i]) && Balanced(w[i..])
  {
    assert !DipsAt(w, 1);
    LevelPush([], w[0]);
    assert w[..1] == [] + [w[0]];
    i := FirstReturn(w);
    TakeDrop(w, i);
    LevelConcat(w[..i], w[i..]);
    forall j: nat | j <= |w[i..]|
      ensures !DipsAt(w[i..], j)
    {
      assert w[..i + j] == w[..i] + w[i..][..j];
      LevelConcat(w[..i], w[i..][..j]);
      assert !DipsAt(w, i + j);
    }
  }

  // ----- one key below others

  /** Below keys in a row, the candidates are the keys that start there, and the candidates of those keys. */
  lemma CandidateSplits(b: Word, k: Word, l: Word)
    requires Balanced(b) && b != [] && IsKey(k)
    ensures Candidate(b + k, l) <==> Candidate(b, l) || (b <= l && IsKey(l[|b|..]))
  {
    var w := b + k;
    if Candidate(w, l) {
      var j: nat :| CandidateAt(w, l, j);
      if j < |b| {
        assert w[..j] == b[..j];
        assert CandidateAt(b, l, j);
      } else {
        RowLevel(b, k, j);
      }
    }
    if Candidate(b, l) {
      var j: nat :| CandidateAt(b, l, j);
      assert w[..j] == b[..j];
      assert CandidateAt(w, l, j);
    }
    if b <= l && IsKey(l[|b|..]) {
      assert w[..|b|] == b;
      assert CandidateAt(w, l, |b|);
    }
  }

  lemma RowLevel(b: Word, k: Word, j: nat)
    requires Balanced(b) && IsKey(k) && |b| <= j < |b + k|
    ensures j == |b| ==> (b + k)[..j] == b
    ensures j > |b| ==> Level((b + k)[..j]) > 0
  {
    assert (b + k)[..j] == b + k[..j - |b|];
    if j > |b| {
      LevelConcat(b, k[..j - |b|]);
      SingleLevel(k, j - |b|);
    }
  }

  /** A candidate of the keys above comes after the row exactly when it comes after those keys. */
  lemma CandidateAbove(toward: bool, b: Word, k: Word, l: Word)
    requires Balanced(b) && b != [] && IsKey(k) && Candidate(b, l)
    ensures After(toward, b + k, l) <==> After(toward, b, l)
    ensures After(toward, b, l) ==> Beside(toward, b, l)
  {
    var w := b + k;
    assert ProperPrefix(b, w);
    if After(toward, b, l) {
      CandidateBeside(toward, b, l);
      BesideExtendLeft(toward, b, l, w);
    }
    if After(toward, w, l) {
      var j: nat :| CandidateAt(b, l, j);
      if |b| < |l| && l[..|b|] == b {
        NoneInside(l, j, |b|);
      }
      RowParts(toward, b, k, l);
    }
  }

  lemma RowParts(toward: bool, b: Word, k: Word, l: Word)
    requires After(toward, b + k, l) && k != []
    ensures Beside(toward, b, l) || ProperPrefix(b, l)
  {
    var w := b + k;
    if ProperPrefix(w, l) {
      assert l[..|w|][..|b|] == l[..|b|];
    } else {
      var i: nat :| DivergeAt(toward, w, l, i);
      if i < |b| {
        assert w[..i] == b[..i];
        assert DivergeAt(toward, b, l, i);
      } else {
        assert l[..i][..|b|] == l[..|b|] && w[..i][..|b|] == b;
      }
    }
  }

  lemma AfterBehind(toward: bool, b: Word, u: Word, v: Word)
    ensures After(toward, b + u, b + v) <==> After(toward, u, v)
  {
    BesideBehind(toward, b, u, v);
    assert |u| <= |v| ==> (b + v)[..|b + u|] == b + v[..|u|];
    if |u| <= |v| && b + u == b + v[..|u|] {
      assert (b + u)[|b|..] == u && (b + v[..|u|])[|b|..] == v[..|u|];
    }
  }
}
