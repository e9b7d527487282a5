/**
  Power encoding: x = 2^p + r is written as the bit one, then p, then r; zero is the bit zero.
  Numbers and strings written with a leading one are self-delimiting keys whose order in the
  trie is the order of the values.
 */
module PowerEncoding {
  import opened BitWords
  import opened ByteStrings
  import opened Sequences

  /** The exact integer base-2 logarithm, rounded down. */
  function Power(x: nat): (p: nat)
    requires x > 0
    ensures Exp2(p) <= x < 2 * Exp2(p) && p < x
  {
    if x == 1 then 0 else 1 + Power(x / 2)
  }

  function Remainder(x: nat): (r: nat)
    requires x > 0
    ensures r < x && x == Exp2(Power(x)) + r
  {
    x - Exp2(Power(x))
  }

  /** What `write` emits for a number. */
  function Encoded(x: nat): Word {
    if x == 0 then [false] else [true] + Encoded(Power(x)) + Encoded(Remainder(x))
  }

  /** A number as a key: a leading one, then the number. */
  function NumberKey(x: nat): Word {
    [true] + Encoded(x)
  }

  /** The characters of a string, each as a number key, then the closing zero. */
  function Characters(s: Bytes): Word {
    if s == [] then [false] else NumberKey(s[0] as nat) + Characters(s[1..])
  }

  function StringKey(s: Bytes): Word {
    [true] + Characters(s)
  }

  /** Reads one number; past its end the bits read as zero. */
  function Decoded(w: Word): (r: (nat, Word))
    ensures |r.1| <= |w| && (w != [] ==> |r.1| < |w|)
    decreases |w|
  {
    if w == [] then (0, [])
    else if !w[0] then (0, w[1..])
    else
      var (power, w1) := Decoded(w[1..]);
      var (remainder, w2) := Decoded(w1);
      (Exp2(power) + remainder, w2)
  }

  /** Reads one number key, skipping its leading one. */
  function DecodedKey(w: Word): (r: (nat, Word))
    ensures |r.1| <= |w| && (w != [] ==> |r.1| < |w|)
  {
    if w == [] then (0, []) else Decoded(w[1..])
  }

  /** Reads number keys while the next bit is one, then drops the closing zero. */
  function DecodedCharacters(w: Word): (r: (seq<nat>, Word))
    decreases |w|
  {
    if w == [] then ([], [])
    else if !w[0] then ([], w[1..])
    else
      var (c, w1) := DecodedKey(w);
      var (s, w2) := DecodedCharacters(w1);
      ([c] + s, w2)
  }

  function DecodedString(w: Word): (r: (seq<nat>, Word)) {
    if w == [] then ([], []) else DecodedCharacters(w[1..])
  }

  function Numbers(s: Bytes): seq<nat> {
    seq(|s|, i requires 0 <= i < |s| => s[i] as nat)
  }

  // ----- round trips

  /** The power and the remainder of a sum of a power and less than it. */
  lemma PowerOfSum(p: nat, r: nat)
    requires r < Exp2(p)
    ensures Exp2(p) + r > 0 && Power(Exp2(p) + r) == p && Remainder(Exp2(p) + r) == r
  {
    var q := Power(Exp2(p) + r);
    if q < p {
      Exp2Monotone(q + 1, p);
    } else if p < q {
      Exp2Monotone(p + 1, q);
    }
  }

  /** The keys of all numbers: zero is one bit behind the leading one, and 2^p + r is a one, then p, then r. */
  lemma NumberKeyIs(p: nat, r: nat)
    requires r < Exp2(p)
    ensures NumberKey(0) == [true, false]
    ensures NumberKey(Exp2(p) + r) == [true, true] + NumberKey(p)[1..] + NumberKey(r)[1..]
  {
    PowerOfSum(p, r);
    assert [true] + ([true] + Encoded(p) + Encoded(r)) == [true, true] + Encoded(p) + Encoded(r);
  }

  /** The keys of all strings: the keys of their bytes as numbers, between a one and a zero. */
  lemma StringKeyIs(s: Bytes, c: Byte)
    ensures StringKey([]) == [true, false]
    ensures |StringKey(s)| > 0 && StringKey(s + [c]) == StringKey(s)[..|StringKey(s)| - 1] + NumberKey(c as nat) + [false]
  {
    CharactersPush(s, c);
    assert StringKey(s)[..|StringKey(s)| - 1] == [true] + Characters(s)[..|Characters(s)| - 1];
    assert [true] + (Characters(s)[..|Characters(s)| - 1] + NumberKey(c as nat) + [false])
           == [true] + Characters(s)[..|Characters(s)| - 1] + NumberKey(c as nat) + [false];
  }

  lemma {:induction false} CharactersPush(s: Bytes, c: Byte)
    ensures |Characters(s)| > 0 && Characters(s + [c]) == Characters(s)[..|Characters(s)| - 1] + NumberKey(c as nat) + [false]
  {
    if s == [] {
      assert [c][1..] == [];
      assert Characters(s)[..0] == [];
    } else {
      CharactersPush(s[1..], c);
      assert (s + [c])[1..] == s[1..] + [c];
      var k, rest := NumberKey(s[0] as nat), Characters(s[1..]);
      assert (k + rest)[..|k + rest| - 1] == k + rest[..|rest| - 1];
      assert k + (rest[..|rest| - 1] + NumberKey(c as nat) + [false]) == k + rest[..|rest| - 1] + NumberKey(c as nat) + [false];
    }
  }

  /** Reading a number from any closing words, whatever they were written as. */
  lemma DecodedIs(u: Word, v: Word, rest: Word)
    requires Closes(u) && Closes(v)
    ensures Decoded([true] + u + (v + rest)) == (Exp2(Decoded(u).0) + Decoded(v).0, rest)
  {
    DecodedCloses(u, v + rest);
    DecodedCloses(v, rest);
    DecodedBehind(u, v + rest, rest, Decoded(u).0, Decoded(v).0);
  }

  lemma DecodedBehind(u: Word, t: Word, rest: Word, p: nat, r: nat)
    requires Decoded(u + t) == (p, t) && Decoded(t) == (r, rest)
    ensures Decoded([true] + u + t) == (Exp2(p) + r, rest)
  {
    Cons(true, u);
    DecodedStep([true] + u, t, rest, p, r);
  }

  lemma DecodedZero(rest: Word)
    ensures Decoded([false] + rest) == (0, rest)
  {
    Cons(false, rest);
  }

  /** Reading a written number gives the number and leaves the bits behind it. */
  lemma {:induction false} EncodedRoundTrip(x: nat, rest: Word)
    ensures Decoded(Encoded(x) + rest) == (x, rest)
  {
    if x != 0 {
      var p, r := Power(x), Remainder(x);
      EncodedRoundTrip(p, Encoded(r) + rest);
      EncodedRoundTrip(r, rest);
      PairTail(Encoded(p), Encoded(r), rest);
      DecodedPair(Encoded(x) + rest, Encoded(r) + rest, rest, p, r);
    }
  }

  lemma PairTail(u: Word, v: Word, rest: Word)
    ensures ([true] + u + v + rest)[1..] == u + (v + rest)
  {
  }

  lemma DecodedPair(w: Word, w1: Word, w2: Word, p: nat, r: nat)
    requires w != [] && w[0] && Decoded(w[1..]) == (p, w1) && Decoded(w1) == (r, w2)
    ensures Decoded(w) == (Exp2(p) + r, w2)
  {
  }

  lemma NumberKeyRoundTrip(x: nat, rest: Word)
    ensures DecodedKey(NumberKey(x) + rest) == (x, rest)
  {
    EncodedRoundTrip(x, rest);
    assert (NumberKey(x) + rest)[1..] == Encoded(x) + rest;
  }

  lemma {:induction false} CharactersRoundTrip(s: Bytes, rest: Word)
    ensures DecodedCharacters(Characters(s) + rest) == (Numbers(s), rest)
  {
    var w := Characters(s) + rest;
    if s == [] {
      assert Numbers(s) == [];
    } else {
      assert w == NumberKey(s[0] as nat) + (Characters(s[1..]) + rest);
      NumberKeyRoundTrip(s[0] as nat, Characters(s[1..]) + rest);
      CharactersRoundTrip(s[1..], rest);
      assert Numbers(s) == [s[0] as nat] + Numbers(s[1..]);
    }
  }

  lemma StringKeyRoundTrip(s: Bytes, rest: Word)
    ensures DecodedString(StringKey(s) + rest) == (Numbers(s), rest)
  {
    CharactersRoundTrip(s, rest);
    assert (StringKey(s) + rest)[1..] == Characters(s) + rest;
  }

  // ----- running counts

  /** Never counts below zero before the last bit, and ends one below. */
  ghost predicate Closes(w: Word) {
    Level(w) == -1 && forall i :: 0 <= i < |w| ==> Level(w[..i]) >= 0
  }

  lemma ClosesAfterKey(k: Word, w: Word)
    requires IsKey(k) && Closes(w)
    ensures Closes(k + w)
  {
    LevelConcat(k, w);
    forall i | 0 <= i < |k + w|
      ensures Level((k + w)[..i]) >= 0
    {
      if i < |k| {
        assert (k + w)[..i] == k[..i];
        KeyPrefixOpen(k, i);
        assert k[..i][..i] == k[..i];
      } else {
        assert (k + w)[..i] == k + w[..i - |k|];
        LevelConcat(k, w[..i - |k|]);
      }
    }
  }

  /** A leading one turns a closing word into a key. */
  lemma OneThenClosesIsKey(w: Word)
    requires Closes(w)
    ensures IsKey([true] + w)
  {
    var k := [true] + w;
    LevelConcat([true], w);
    assert Level([true]) == 1;
    var body := k[..|k| - 1];
    forall i | 0 < i <= |body|
      ensures Level(body[..i]) > 0
    {
      assert body[..i] == [true] + w[..i - 1];
      LevelConcat([true], w[..i - 1]);
    }
  }

  /** A key without its leading one is a closing word. */
  lemma KeyBody(k: Word)
    requires IsKey(k)
    ensures k[0] && Closes(k[1..])
  {
    KeyStartsWithOne(k);
    var w := k[1..];
    Cons(true, w);
    assert k == [true] + w;
    LevelConcat([true], w);
    assert Level([true]) == 1;
    forall i | 0 <= i < |w|
      ensures Level(w[..i]) >= 0
    {
      KeyPrefixOpen(k, i + 1);
      Whole(k[..i + 1]);
      assert k[..i + 1] == [true] + w[..i];
      LevelConcat([true], w[..i]);
    }
  }

  /** A closing word that starts with a one is a key and another closing word. */
  lemma SplitCloses(w: Word) returns (i: nat)
    requires Closes(w) && w[0]
    ensures 0 < i < |w| && IsKey(w[..i]) && Closes(w[i..])
  {
    i := FirstReturn(w);
    Whole(w);
    SplitRest(w, i);
  }

  lemma SplitRest(w: Word, i: nat)
    requires Closes(w) && i <= |w| && Level(w[..i]) == 0
    ensures Closes(w[i..])
  {
    TakeDrop(w, i);
    LevelConcat(w[..i], w[i..]);
    forall j | 0 <= j < |w[i..]|
      ensures Level(w[i..][..j]) >= 0
    {
      LevelConcat(w[..i], w[i..][..j]);
      assert w[..i + j] == w[..i] + w[i..][..j];
    }
  }

  /** A closing word that starts with a zero is that zero. */
  lemma ClosesAtZero(w: Word)
    requires Closes(w) && (w == [] || !w[0])
    ensures w == [false]
  {
    if w != [] {
      LevelPush([], false);
      assert w[..1] == [] + [false];
    }
  }

  /** Reading a number takes exactly a closing word, whatever follows it. */
  lemma {:induction false} DecodedCloses(w: Word, rest: Word)
    requires Closes(w)
    ensures Decoded(w + rest) == (Decoded(w).0, rest)
    decreases |w|
  {
    if w[0] {
      var i := SplitCloses(w);
      var k, v := w[..i], w[i..];
      KeyBody(k);
      var p, r := Decoded(k[1..]).0, Decoded(v).0;
      DecodedCloses(k[1..], v + rest);
      DecodedCloses(k[1..], v);
      DecodedCloses(v, rest);
      DecodedCloses(v, []);
      Unit(v);
      TakeDrop(w, i);
      Associative(k, v, rest);
      DecodedStep(k, v + rest, rest, p, r);
      DecodedStep(k, v, [], p, r);
    } else {
      ClosesAtZero(w);
      Cons(false, rest);
    }
  }

  lemma DecodedStep(k: Word, v: Word, rest: Word, p: nat, r: nat)
    requires k != [] && k[0] && Decoded(k[1..] + v) == (p, v) && Decoded(v) == (r, rest)
    ensures Decoded(k + v) == (Exp2(p) + r, rest)
  {
    ConcatTail(k, v);
    DecodedPair(k + v, v, rest, p, r);
  }

  /** Reading a number from a key takes exactly the key. */
  lemma DecodedKeyAlone(k: Word, rest: Word)
    requires IsKey(k)
    ensures DecodedKey(k + rest) == (DecodedKey(k).0, rest)
  {
    KeyBody(k);
    ConcatTail(k, rest);
    DecodedCloses(k[1..], rest);
  }

  lemma {:induction false} DecodedCharactersClose(w: Word, rest: Word)
    requires Closes(w)
    ensures DecodedCharacters(w + rest) == (DecodedCharacters(w).0, rest)
    decreases |w|
  {
    if w[0] {
      var i := SplitCloses(w);
      var k, v := w[..i], w[i..];
      TakeDrop(w, i);
      Associative(k, v, rest);
      DecodedKeyAlone(k, v + rest);
      DecodedKeyAlone(k, v);
      DecodedCharactersClose(v, rest);
    } else {
      ClosesAtZero(w);
      Cons(false, rest);
    }
  }

  /** Reading a string from a key takes exactly the key. */
  lemma DecodedStringAlone(k: Word, rest: Word)
    requires IsKey(k)
    ensures DecodedString(k + rest) == (DecodedString(k).0, rest)
  {
    KeyBody(k);
    ConcatTail(k, rest);
    DecodedCharactersClose(k[1..], rest);
  }

  lemma {:induction false} EncodedCloses(x: nat)
    ensures Closes(Encoded(x))
  {
    if x == 0 {
      assert Encoded(0)[..0] == [];
    } else {
      var p, r := Encoded(Power(x)), Encoded(Remainder(x));
      EncodedCloses(Power(x));
      EncodedCloses(Remainder(x));
      OneThenClosesIsKey(p);
      ClosesAfterKey([true] + p, r);
    }
  }

  /** A number key counts above zero until its last bit. */
  lemma NumberKeyIsKey(x: nat)
    ensures IsKey(NumberKey(x))
  {
    EncodedCloses(x);
    OneThenClosesIsKey(Encoded(x));
  }

  lemma {:induction false} CharactersClose(s: Bytes)
    ensures Closes(Characters(s))
  {
    if s == [] {
      assert Characters(s)[..0] == [];
    } else {
      NumberKeyIsKey(s[0] as nat);
      CharactersClose(s[1..]);
      ClosesAfterKey(NumberKey(s[0] as nat), Characters(s[1..]));
    }
  }

  /** A string key counts above zero until its last bit. */
  lemma StringKeyIsKey(s: Bytes)
    ensures IsKey(StringKey(s))
  {
    CharactersClose(s);
    OneThenClosesIsKey(Characters(s));
  }

  // ----- order

  lemma BesideBefore(toward: bool, u: Word, v: Word, d: Word, e: Word)
    requires Beside(toward, u, v)
    ensures Beside(toward, u + d, v + e)
  {
    var i: nat :| DivergeAt(toward, u, v, i);
    assert (u + d)[..i] == u[..i];
    assert (v + e)[..i] == v[..i];
    assert DivergeAt(toward, u + d, v + e, i);
  }

  lemma {:induction false} Exp2Monotone(p: nat, q: nat)
    requires p <= q
    ensures Exp2(p) <= Exp2(q)
  {
    if p < q {
      Exp2Monotone(p, q - 1);
    }
  }

  lemma PowerOrder(x: nat, y: nat)
    requires 0 < x < y
    ensures Power(x) < Power(y) || (Power(x) == Power(y) && Remainder(x) < Remainder(y))
  {
    if Power(y) < Power(x) {
      Exp2Monotone(Power(y) + 1, Power(x));
    }
  }

  lemma {:induction false} EncodedInOrder(x: nat, y: nat)
    requires x < y
    ensures Beside(true, Encoded(x), Encoded(y))
    decreases y
  {
    if x == 0 {
      assert DivergeAt(true, Encoded(x), Encoded(y), 0);
    } else {
      PowerOrder(x, y);
      if Power(x) < Power(y) {
        EncodedInOrder(Power(x), Power(y));
        PairBeside(Encoded(Power(x)), Encoded(Power(y)), Encoded(Remainder(x)), Encoded(Remainder(y)));
      } else {
        EncodedInOrder(Remainder(x), Remainder(y));
        BesideBehind(true, [true] + Encoded(Power(x)), Encoded(Remainder(x)), Encoded(Remainder(y)));
      }
    }
  }

  lemma PairBeside(u: Word, v: Word, d: Word, e: Word)
    requires Beside(true, u, v)
    ensures Beside(true, [true] + u + d, [true] + v + e)
  {
    BesideBehind(true, [true], u, v);
    BesideBefore(true, [true] + u, [true] + v, d, e);
  }

  /** The keys of numbers lie in the trie from left to right in numeric order. */
  lemma NumberKeyOrder(x: nat, y: nat)
    ensures Beside(true, NumberKey(x), NumberKey(y)) <==> x < y
  {
    if x < y {
      EncodedInOrder(x, y);
      BesideBehind(true, [true], Encoded(x), Encoded(y));
    } else if y < x {
      NumberKeyOrder(y, x);
      BesideIrreflexive(true, NumberKey(y), NumberKey(x));
      BesideFlip(true, NumberKey(x), NumberKey(y));
    } else if Beside(true, NumberKey(x), NumberKey(y)) {
      BesideIrreflexive(true, NumberKey(x), NumberKey(y));
    }
  }

  lemma {:induction false} CharactersInOrder(s: Bytes, t: Bytes)
    requires BytesLess(s, t)
    ensures Beside(true, Characters(s), Characters(t))
  {
    if s == [] {
      assert DivergeAt(true, Characters(s), Characters(t), 0);
    } else {
      var c, d := NumberKey(s[0] as nat), NumberKey(t[0] as nat);
      if s[0] < t[0] {
        NumberKeyOrder(s[0] as nat, t[0] as nat);
        BesideBefore(true, c, d, Characters(s[1..]), Characters(t[1..]));
      } else {
        CharactersInOrder(s[1..], t[1..]);
        BesideBehind(true, c, Characters(s[1..]), Characters(t[1..]));
      }
    }
  }

  lemma {:induction false} BytesTrichotomy(s: Bytes, t: Bytes)
    ensures s == t || BytesLess(s, t) || BytesLess(t, s)
  {
    if s != [] && t != [] && s[0] == t[0] {
      BytesTrichotomy(s[1..], t[1..]);
      assert s == [s[0]] + s[1..] && t == [t[0]] + t[1..];
    }
  }

  /** The keys of strings lie in the trie from left to right in bytewise order, a prefix first. */
  lemma StringKeyOrder(s: Bytes, t: Bytes)
    ensures Beside(true, StringKey(s), StringKey(t)) <==> BytesLess(s, t)
  {
    BytesTrichotomy(s, t);
    if BytesLess(s, t) {
      StringKeysInOrder(s, t);
    } else if BytesLess(t, s) {
      StringKeysInOrder(t, s);
      BesideIrreflexive(true, StringKey(t), StringKey(s));
      BesideFlip(true, StringKey(s), StringKey(t));
    } else if Beside(true, StringKey(s), StringKey(t)) {
      BesideIrreflexive(true, StringKey(s), StringKey(t));
    }
  }

  lemma StringKeysInOrder(s: Bytes, t: Bytes)
    requires BytesLess(s, t)
    ensures Beside(true, StringKey(s), StringKey(t))
  {
    CharactersInOrder(s, t);
    BesideBehind(true, [true], Characters(s), Characters(t));
  }
}
