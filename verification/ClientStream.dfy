/**
  The client's bit stream and its power encoding. It writes what the server's stack writes; reading
  differs once the bits run out, where the client fails, and no bits are dropped when a stream is made
  from text.
 */
module ClientStream {
  import opened BitWords
  import opened ByteStrings
  import opened PowerEncoding
  import opened Sequences
  import Stacks
  import Trie

  type Option<+T> = Trie.Option<T>

  /** Reads one number, or nothing when the bits run out. */
  function NumberIn(w: Word): (r: Option<(nat, Word)>)
    ensures r.Some? ==> |r.value.1| < |w|
    decreases |w|
  {
    if w == [] then Trie.None
    else if !w[0] then Trie.Some((0, w[1..]))
    else
      var power := NumberIn(w[1..]);
      if power.None? then Trie.None
      else
        var remainder := NumberIn(power.value.1);
        if remainder.None? then Trie.None
        else Trie.Some((Exp2(power.value.0) + remainder.value.0, remainder.value.1))
  }

  /** Reads one number key: the client checks the leading one. */
  function KeyIn(w: Word): (r: Option<(nat, Word)>)
    ensures r.Some? ==> |r.value.1| < |w|
  {
    if w == [] || !w[0] then Trie.None else NumberIn(w[1..])
  }

  function CharactersIn(w: Word): (r: Option<(seq<nat>, Word)>)
    ensures r.Some? ==> |r.value.1| < |w|
    decreases |w|
  {
    if w == [] then Trie.None
    else if !w[0] then Trie.Some(([], w[1..]))
    else
      var c := KeyIn(w);
      if c.None? then Trie.None
      else
        var s := CharactersIn(c.value.1);
        if s.None? then Trie.None
        else Trie.Some(([c.value.0] + s.value.0, s.value.1))
  }

  function StringIn(w: Word): (r: Option<(seq<nat>, Word)>)
  {
    if w == [] || !w[0] then Trie.None else CharactersIn(w[1..])
  }

  // ----- the same language as the server's

  lemma NumberPair(w: Word, w1: Word, p: nat)
    requires w != [] && w[0] && NumberIn(w[1..]) == Trie.Some((p, w1))
    ensures NumberIn(w) == if NumberIn(w1).None? then Trie.None else Trie.Some((Exp2(p) + NumberIn(w1).value.0, NumberIn(w1).value.1))
  {
  }

  lemma NumberParts(w: Word)
    requires NumberIn(w).Some? && w[0]
    ensures NumberIn(w[1..]).Some? && NumberIn(NumberIn(w[1..]).value.1).Some?
  {
  }

  lemma LevelCons(w: Word)
    requires w != []
    ensures Level(w) == Level(w[1..]) + if w[0] then 1 else -1
  {
    assert w == [w[0]] + w[1..];
    LevelConcat([w[0]], w[1..]);
    LevelPush([], w[0]);
    assert [] + [w[0]] == [w[0]];
  }

  lemma PairAgrees(w: Word, p: nat, w1: Word, r: nat, w2: Word)
    requires w != [] && w[0] && NumberIn(w[1..]) == Trie.Some((p, w1)) && NumberIn(w1) == Trie.Some((r, w2))
    requires Decoded(w[1..]) == (p, w1) && Decoded(w1) == (r, w2)
    ensures NumberIn(w) == Trie.Some((Exp2(p) + r, w2)) && Decoded(w) == (Exp2(p) + r, w2)
  {
    NumberPair(w, w1, p);
    DecodedPair(w, w1, w2, p, r);
  }

  lemma ZeroAgrees(w: Word)
    requires w != [] && !w[0]
    ensures NumberIn(w) == Trie.Some((0, w[1..])) && Decoded(w) == (0, w[1..])
  {
  }

  /** What the client reads, the server reads. */
  lemma {:induction false} NumberAgrees(w: Word)
    requires NumberIn(w).Some?
    ensures NumberIn(w) == Trie.Some(Decoded(w))
    decreases |w|
  {
    if w[0] {
      NumberParts(w);
      var power := NumberIn(w[1..]).value;
      var remainder := NumberIn(power.1).value;
      NumberAgrees(w[1..]);
      NumberAgrees(power.1);
      PairAgrees(w, power.0, power.1, remainder.0, remainder.1);
    } else {
      ZeroAgrees(w);
    }
  }

  lemma {:induction false} NumberRoundTrip(x: nat, rest: Word)
    ensures NumberIn(Encoded(x) + rest) == Trie.Some((x, rest))
  {
    var w := Encoded(x) + rest;
    if x == 0 {
      assert w[1..] == rest;
    } else {
      var p, r := Power(x), Remainder(x);
      PairTail(Encoded(p), Encoded(r), rest);
      NumberRoundTrip(p, Encoded(r) + rest);
      NumberRoundTrip(r, rest);
      NumberPair(w, Encoded(r) + rest, p);
    }
  }

  lemma KeyRoundTrip(x: nat, rest: Word)
    ensures KeyIn(NumberKey(x) + rest) == Trie.Some((x, rest))
  {
    NumberRoundTrip(x, rest);
    assert (NumberKey(x) + rest)[1..] == Encoded(x) + rest;
  }

  lemma {:induction false} CharactersInRoundTrip(s: Bytes, rest: Word)
    ensures CharactersIn(Characters(s) + rest) == Trie.Some((Numbers(s), rest))
  {
    var w := Characters(s) + rest;
    if s == [] {
      assert w[1..] == rest && Numbers(s) == [];
    } else {
      assert w == NumberKey(s[0] as nat) + (Characters(s[1..]) + rest);
      KeyRoundTrip(s[0] as nat, Characters(s[1..]) + rest);
      CharactersInRoundTrip(s[1..], rest);
      assert Numbers(s) == [s[0] as nat] + Numbers(s[1..]);
    }
  }

  /** Decoding an encoded string gives its bytes and leaves the bits behind it. */
  lemma StringRoundTrip(s: Bytes, rest: Word)
    ensures StringIn(StringKey(s) + rest) == Trie.Some((Numbers(s), rest))
  {
    CharactersInRoundTrip(s, rest);
    assert (StringKey(s) + rest)[1..] == Characters(s) + rest;
  }

  /** A number in binary, without leading zeros. */
  function Binary(n: nat): Word {
    if n < 2 then [n == 1] else Binary(n / 2) + [n % 2 == 1]
  }

  /** The bits of a character: its code in binary, filled up in front to eight bits; a code of more
      than eight bits keeps them all. */
  function CharacterBits(c: nat): Word {
    var w := Binary(c);
    Stacks.Zeros(if |w| < 8 then 8 - |w| else 0) + w
  }

  function TextBits(text: seq<nat>): Word {
    if text == [] then [] else TextBits(text[..|text| - 1]) + CharacterBits(text[|text| - 1])
  }

  lemma {:induction false} BinaryFills(n: nat, size: nat)
    requires n < Exp2(size) && size > 0
    ensures |Binary(n)| <= size && Stacks.NumberBits(n, size) == Stacks.Zeros(size - |Binary(n)|) + Binary(n)
  {
    if n < 2 {
      NoBits(size - 1);
    } else {
      BinaryFills(n / 2, size - 1);
      Associative(Stacks.Zeros(size - |Binary(n)|), Binary(n / 2), [n % 2 == 1]);
    }
  }

  lemma {:induction false} NoBits(size: nat)
    ensures Stacks.NumberBits(0, size) == Stacks.Zeros(size)
  {
    if size > 0 {
      NoBits(size - 1);
      assert Stacks.Zeros(size) == Stacks.Zeros(size - 1) + [false];
    }
  }

  /** The bits of any character: those of its code, the most significant first, as many as it needs, and
      at least eight. */
  lemma CharacterBitsAre(c: nat)
    ensures var n := |CharacterBits(c)|;
            && n >= 8 && c < Exp2(n) && (n > 8 ==> c >= Exp2(n - 1))
            && CharacterBits(c) == Stacks.NumberBits(c, n)
  {
    BinaryLength(c);
    var n := if |Binary(c)| < 8 then 8 else |Binary(c)|;
    Exp2Monotone(|Binary(c)|, n);
    BinaryFills(c, n);
  }

  lemma {:induction false} BinaryLength(n: nat)
    ensures |Binary(n)| > 0 && n < Exp2(|Binary(n)|) && (n > 0 ==> n >= Exp2(|Binary(n)| - 1))
  {
    if n >= 2 {
      BinaryLength(n / 2);
    }
  }

  /** A text of characters below 256 has the bits of its bytes. */
  lemma {:induction false} TextOfBytes(text: Bytes)
    ensures TextBits(Numbers(text)) == Stacks.Unpacked(text)
  {
    if text != [] {
      var front, last := text[..|text| - 1], text[|text| - 1];
      TextOfBytes(front);
      assert Numbers(text)[..|text| - 1] == Numbers(front);
      assert Exp2(4) == 16 && Exp2(8) == 256;
      BinaryFills(last as nat, 8);
      Unit(Binary(last as nat));
    }
  }

  /** A string written to text is read back, whatever zero bits pad the last character. */
  lemma TextRoundTrip(s: Bytes)
    ensures StringIn(TextBits(Numbers(Stacks.Packed(StringKey(s))))).Some?
    ensures StringIn(TextBits(Numbers(Stacks.Packed(StringKey(s))))).value.0 == Numbers(s)
  {
    TextOfBytes(Stacks.Packed(StringKey(s)));
    Stacks.UnpackedPacked(StringKey(s));
    StringRoundTrip(s, Stacks.Zeros(Stacks.Padding(StringKey(s))));
  }

  function From(bits: Word, i: nat): Word {
    if i <= |bits| then bits[i..] else []
  }

  /** Eight bits from position i, filled up with zeros. */
  function Chunk(bits: Word, i: nat): (c: Word)
    requires i < |bits|
    ensures |c| == 8
  {
    if i + 8 <= |bits| then bits[i..i + 8] else bits[i..] + Stacks.Zeros(8 - (|bits| - i))
  }

  lemma PackedFirst(bits: Word, i: nat)
    requires i < |bits|
    ensures Stacks.Packed(From(bits, i)) == [Stacks.BitsByte(Chunk(bits, i))] + Stacks.Packed(From(bits, i + 8))
  {
    var rest := bits[i..];
    if |rest| >= 8 {
      assert rest[..8] == Chunk(bits, i) && rest[8..] == bits[i + 8..];
    }
  }

  function Prepended(front: seq<nat>, r: Option<(seq<nat>, Word)>): Option<(seq<nat>, Word)> {
    if r.None? then r else Trie.Some((front + r.value.0, r.value.1))
  }

  lemma CharactersEnd(front: seq<nat>, w: Word)
    requires w == [] || !w[0]
    ensures Prepended(front, CharactersIn(w)) == if w == [] then Trie.None else Trie.Some((front, w[1..]))
  {
    assert front + [] == front;
  }

  lemma CharactersStep(front: seq<nat>, w: Word)
    requires w != [] && w[0]
    ensures Prepended(front, CharactersIn(w))
            == if KeyIn(w).None? then Trie.None else Prepended(front + [KeyIn(w).value.0], CharactersIn(KeyIn(w).value.1))
  {
    if KeyIn(w).Some? && CharactersIn(KeyIn(w).value.1).Some? {
      var c, s := KeyIn(w).value.0, CharactersIn(KeyIn(w).value.1).value.0;
      assert front + ([c] + s) == front + [c] + s;
    }
  }

  class Stream {
    var index: nat
    var count: int
    var bits: Word

    constructor ()
      ensures index == 0 && count == 0 && bits == []
    {
      index, count, bits := 0, 0, [];
    }

    constructor Copy(input: Stream)
      ensures index == 0 && count == 0 && bits == input.bits
    {
      index, count, bits := 0, 0, input.bits;
    }

    /** The bits of the characters of a text, one after the other. */
    constructor FromText(text: seq<nat>)
      ensures index == 0 && count == 0 && bits == TextBits(text)
    {
      index, count, bits := 0, 0, [];
      new;
      for i := 0 to |text|
        invariant index == 0 && count == 0 && bits == TextBits(text[..i])
      {
        var chunk := Binary(text[i]);
        var length := |chunk|;
        Unit(chunk);
        while |chunk| < 8
          invariant index == 0 && count == 0 && bits == TextBits(text[..i])
          invariant length <= |chunk| <= (if length < 8 then 8 else length)
          invariant chunk == Stacks.Zeros(|chunk| - length) + Binary(text[i])
          decreases 8 - |chunk|
        {
          assert [false] + Stacks.Zeros(|chunk| - length) == Stacks.Zeros(|chunk| + 1 - length);
          Associative([false], Stacks.Zeros(|chunk| - length), Binary(text[i]));
          chunk := [false] + chunk;
        }
        assert text[..i + 1][..i] == text[..i];
        bits := bits + chunk;
      }
      Whole(text);
    }

    /** The bits as characters, the last one padded with zeros. */
    method ToText() returns (text: Bytes)
      ensures text == Stacks.Packed(bits)
    {
      text := [];
      var i: nat := 0;
      FromStart(bits);
      Unit(Stacks.Packed(bits));
      while i < |bits|
        invariant i <= |bits| + 7
        invariant text + Stacks.Packed(From(bits, i)) == Stacks.Packed(bits)
        decreases |bits| - i
      {
        var chunk := Chunk(bits, i);
        PackedFirst(bits, i);
        Associative(text, [Stacks.BitsByte(chunk)], Stacks.Packed(From(bits, i + 8)));
        text := text + [Stacks.BitsByte(chunk)];
        i := i + 8;
      }
      Unit(text);
    }

    method Write(word: Word)
      modifies this
      ensures bits == old(bits) + word && count == old(count) + Level(word) && index == old(index)
    {
      for i := 0 to |word|
        invariant bits == old(bits) && index == old(index) && count == old(count) + Level(word[..i])
      {
        TakeNext(word, i);
        LevelPush(word[..i], word[i]);
        if word[i] {
          count := count + 1;
        } else {
          count := count - 1;
        }
      }
      Whole(word);
      bits := bits + word;
    }

    /** The next bit; none past the end. */
    function Peek(): Option<bool>
      reads this
    {
      if index < |bits| then Trie.Some(bits[index]) else Trie.None
    }

    /** Moves on even past the end; whatever is not a one counts down. */
    method Read() returns (bit: Option<bool>)
      modifies this
      ensures bit == old(Peek()) && bits == old(bits) && index == old(index) + 1
      ensures count == old(count) + if bit == Trie.Some(true) then 1 else -1
    {
      bit := Peek();
      index := index + 1;
      if bit == Trie.Some(true) {
        count := count + 1;
      } else {
        count := count - 1;
      }
    }

    // ----- power encoding

    method Encode(x: nat)
      modifies this
      ensures bits == old(bits) + Encoded(x) && index == old(index) && count == old(count) - 1
      decreases x
    {
      if x == 0 {
        Write([false]);
        LevelCons([false]);
        return;
      }
      Write([true]);
      LevelCons([true]);
      var exponent := Power(x);
      Encode(exponent);
      var remainder := Remainder(x);
      Encode(remainder);
      Associative(old(bits), [true], Encoded(exponent));
      Associative(old(bits), [true] + Encoded(exponent), Encoded(remainder));
    }

    /** Reads a number; nothing when the bits run out, where the client recurses until it fails. */
    method Decode() returns (x: Option<nat>)
      requires index <= |bits|
      modifies this
      ensures bits == old(bits)
      ensures var r := NumberIn(bits[old(index)..]);
              if r.None? then x == Trie.None
              else x == Trie.Some(r.value.0) && index <= |bits| && bits[index..] == r.value.1 && count == old(count) - 1
      decreases |bits| - index
    {
      ghost var w := bits[index..];
      var bit := Read();
      if bit.None? {
        return Trie.None;
      }
      assert w[1..] == bits[index..];
      if !bit.value {
        assert NumberIn(w) == Trie.Some((0, w[1..]));
        return Trie.Some(0);
      }
      var exponent := Decode();
      if exponent.None? {
        assert NumberIn(w) == Trie.None;
        return Trie.None;
      }
      NumberPair(w, bits[index..], exponent.value);
      var remainder := Decode();
      if remainder.None? {
        assert NumberIn(w) == Trie.None;
        return Trie.None;
      }
      x := Trie.Some(Exp2(exponent.value) + remainder.value);
    }

    method EncodeNumber(x: nat)
      modifies this
      ensures bits == old(bits) + NumberKey(x) && index == old(index) && count == old(count)
    {
      Write([true]);
      LevelCons([true]);
      Encode(x);
    }

    /** Reads a number key; the checks of the leading one and of the count decide. */
    method DecodeNumber() returns (x: Option<nat>)
      requires index <= |bits|
      modifies this
      ensures bits == old(bits)
      ensures var r := KeyIn(bits[old(index)..]);
              if r.None? then x == Trie.None
              else x == Trie.Some(r.value.0) && index <= |bits| && bits[index..] == r.value.1 && count == old(count)
    {
      ghost var w := bits[index..];
      var startCount := count;
      var bit := Read();
      if bit != Trie.Some(true) {
        return Trie.None;
      }
      assert w[1..] == bits[index..];
      x := Decode();
      if x.Some? && count != startCount {
        return Trie.None;
      }
    }

    method EncodeString(s: Bytes)
      modifies this
      ensures bits == old(bits) + StringKey(s) && index == old(index) && count == old(count)
    {
      Write([true]);
      LevelCons([true]);
      ghost var start := bits;
      assert s[0..] == s;
      for i := 0 to |s|
        invariant bits + Characters(s[i..]) == start + Characters(s) && index == old(index) && count == old(count) + 1
      {
        DropNext(s, i);
        Associative(bits, NumberKey(s[i] as nat), Characters(s[i + 1..]));
        EncodeNumber(s[i] as nat);
      }
      Write([false]);
      LevelCons([false]);
    }

    /** Reads a string key. */
    method DecodeString() returns (s: Option<seq<nat>>)
      requires index <= |bits|
      modifies this
      ensures bits == old(bits)
      ensures var r := StringIn(bits[old(index)..]);
              if r.None? then s == Trie.None
              else s == Trie.Some(r.value.0) && index <= |bits| && bits[index..] == r.value.1 && count == old(count)
    {
      ghost var w := bits[index..];
      var bit := Read();
      if bit != Trie.Some(true) {
        return Trie.None;
      }
      assert w[1..] == bits[index..];
      s := DecodeCharacters();
    }

    /** Reads number keys while the next bit is a one, and then the closing zero. */
    method DecodeCharacters() returns (s: Option<seq<nat>>)
      requires index <= |bits|
      modifies this
      ensures bits == old(bits)
      ensures var r := CharactersIn(bits[old(index)..]);
              if r.None? then s == Trie.None
              else s == Trie.Some(r.value.0) && index <= |bits| && bits[index..] == r.value.1 && count == old(count) - 1
    {
      ghost var goal := CharactersIn(bits[index..]);
      var read: seq<nat> := [];
      assert goal.Some? ==> [] + goal.value.0 == goal.value.0;
      while Peek() == Trie.Some(true)
        invariant bits == old(bits) && index <= |bits| && count == old(count)
        invariant goal == Prepended(read, CharactersIn(bits[index..]))
        decreases |bits| - index
      {
        CharactersStep(read, bits[index..]);
        var c := DecodeNumber();
        if c.None? {
          return Trie.None;
        }
        read := read + [c.value];
      }
      CharactersEnd(read, bits[index..]);
      var last := Read();
      if last != Trie.Some(false) {
        return Trie.None;
      }
      s := Trie.Some(read);
    }
  }
}
