/**
  What bits the client can read: a number exactly from the front of bits that begin with a key, and a
  string too.
 */
module ClientLanguage {
  import opened BitWords
  import opened ClientStream
  import opened PowerEncoding
  import opened Sequences

  lemma PairIn(k: Word, t: Word, rest: Word)
    requires k != [] && k[0] && NumberIn(k[1..] + t).Some? && NumberIn(k[1..] + t).value.1 == t
    requires NumberIn(t).Some? && NumberIn(t).value.1 == rest
    ensures NumberIn(k + t).Some? && NumberIn(k + t).value.1 == rest
  {
    ConcatTail(k, t);
    NumberPair(k + t, t, NumberIn(k[1..] + t).value.0);
  }

  /** A number is read from a closing word, and leaves what is behind it. */
  lemma {:induction false} ClosingIsRead(c: Word, rest: Word)
    requires Closes(c)
    ensures NumberIn(c + rest).Some? && NumberIn(c + rest).value.1 == rest
    decreases |c|
  {
    if c[0] {
      var i := SplitCloses(c);
      var k, v := c[..i], c[i..];
      KeyBody(k);
      ClosingIsRead(k[1..], v + rest);
      ClosingIsRead(v, rest);
      TakeDrop(c, i);
      Associative(k, v, rest);
      PairIn(k, v + rest, rest);
    } else {
      ClosesAtZero(c);
      Cons(false, rest);
      ZeroAgrees(c + rest);
    }
  }

  /** What a number was read from is a closing word. */
  lemma {:induction false} ReadIsClosing(w: Word) returns (c: Word)
    requires NumberIn(w).Some?
    ensures Closes(c) && w == c + NumberIn(w).value.1
    decreases |w|
  {
    if w[0] {
      NumberParts(w);
      var power := NumberIn(w[1..]).value;
      var u := ReadIsClosing(w[1..]);
      var v := ReadIsClosing(power.1);
      NumberPair(w, power.1, power.0);
      c := [true] + u + v;
      OneThenClosesIsKey(u);
      ClosesAfterKey([true] + u, v);
      assert w == [true] + w[1..];
      Associative([true], u, power.1);
      Associative([true] + u, v, NumberIn(w).value.1);
    } else {
      ZeroAgrees(w);
      c := [false];
      ZeroCloses();
      assert w == [false] + w[1..];
    }
  }

  lemma ZeroCloses()
    ensures Closes([false])
  {
    assert [false][..0] == [];
    LevelPush([], false);
    assert [] + [false] == [false];
  }

  /** The client reads a number from any key, the one the server reads, and leaves what is behind the key. */
  lemma KeyIsRead(k: Word, rest: Word)
    requires IsKey(k)
    ensures KeyIn(k + rest) == Trie.Some((DecodedKey(k).0, rest))
  {
    KeyBody(k);
    ConcatTail(k, rest);
    ClosingIsRead(k[1..], rest);
    NumberAgrees(k[1..] + rest);
    DecodedKeyAlone(k, rest);
  }

  /** The client reads a number only from bits that begin with a key. */
  lemma ReadIsKey(w: Word) returns (k: Word)
    requires KeyIn(w).Some?
    ensures IsKey(k) && w == k + KeyIn(w).value.1
  {
    var c := ReadIsClosing(w[1..]);
    k := [true] + c;
    OneThenClosesIsKey(c);
    assert w == [true] + w[1..];
    Associative([true], c, KeyIn(w).value.1);
  }

  lemma CharacterIn(k: Word, t: Word)
    requires IsKey(k)
    ensures k + t != [] && (k + t)[0]
    ensures CharactersIn(k + t) ==
            if CharactersIn(t).None? then Trie.None else Trie.Some(([DecodedKey(k).0] + CharactersIn(t).value.0, CharactersIn(t).value.1))
  {
    KeyBody(k);
    KeyIsRead(k, t);
  }

  lemma {:induction false} CharactersAreRead(c: Word, rest: Word)
    requires Closes(c)
    ensures CharactersIn(c + rest) == Trie.Some((DecodedCharacters(c).0, rest))
    decreases |c|
  {
    if c[0] {
      var i := SplitCloses(c);
      var k, v := c[..i], c[i..];
      TakeDrop(c, i);
      Associative(k, v, rest);
      CharactersAreRead(v, rest);
      CharacterIn(k, v + rest);
      DecodedKeyAlone(k, v);
      DecodedBehindKey(c, k, v);
    } else {
      ClosesAtZero(c);
      Cons(false, rest);
    }
  }

  lemma DecodedBehindKey(c: Word, k: Word, v: Word)
    requires c == k + v && c != [] && c[0] && DecodedKey(k + v) == (DecodedKey(k).0, v)
    ensures DecodedCharacters(c).0 == [DecodedKey(k).0] + DecodedCharacters(v).0
  {
  }

  lemma {:induction false} CharactersAreClosing(w: Word) returns (c: Word)
    requires CharactersIn(w).Some?
    ensures Closes(c) && w == c + CharactersIn(w).value.1
    decreases |w|
  {
    if w[0] {
      var t := KeyIn(w).value.1;
      var k := ReadIsKey(w);
      var v := CharactersAreClosing(t);
      CharacterIn(k, t);
      c := k + v;
      ClosesAfterKey(k, v);
      Associative(k, v, CharactersIn(w).value.1);
    } else {
      c := [false];
      ZeroCloses();
      assert w == [false] + w[1..];
    }
  }

  /** The client reads a string from any key, the one the server reads, and leaves what is behind the key. */
  lemma KeyIsReadAsString(k: Word, rest: Word)
    requires IsKey(k)
    ensures StringIn(k + rest) == Trie.Some((DecodedString(k).0, rest))
  {
    KeyBody(k);
    ConcatTail(k, rest);
    CharactersAreRead(k[1..], rest);
  }

  /** The client reads a string only from bits that begin with a key. */
  lemma StringIsKey(w: Word) returns (k: Word)
    requires StringIn(w).Some?
    ensures IsKey(k) && w == k + StringIn(w).value.1
  {
    var c := CharactersAreClosing(w[1..]);
    k := [true] + c;
    OneThenClosesIsKey(c);
    assert w == [true] + w[1..];
    Associative([true], c, StringIn(w).value.1);
  }
}
