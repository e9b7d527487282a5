/**
  Base64 (section 4 of RFC 4648) as a streaming encoder and a streaming decoder. Text is bytes.
 */
module Base64 {
  import opened ByteStrings
  import opened Sequences

  const PAD: Byte := 61
  const PAD_VALUE := 64

  /** The character for six bits. */
  function Symbol(v: nat): Byte
    requires v < 64
  {
    if v < 26 then (65 + v) as Byte
    else if v < 52 then (97 + v - 26) as Byte
    else if v < 62 then (48 + v - 52) as Byte
    else if v == 62 then 43
    else 47
  }

  /** The six bits of a character, 64 for padding, -1 for anything else. */
  function DecodeChar(c: Byte): (v: int)
    ensures -1 <= v <= PAD_VALUE
  {
    if 65 <= c <= 90 then c as int - 65
    else if 97 <= c <= 122 then c as int - 97 + 26
    else if 48 <= c <= 57 then c as int - 48 + 52
    else if c == 43 then 62
    else if c == 47 then 63
    else if c == PAD then PAD_VALUE
    else -1
  }

  lemma SymbolRoundTrip(v: nat)
    requires v < 64
    ensures DecodeChar(Symbol(v)) == v
  {
  }

  /** The alphabet of section 4 of RFC 4648. */
  const ALPHABET: string := CAPITALS + SMALLS + FIGURES + "+/"

  /** The character for six bits is the one at that place of the alphabet. */
  lemma SymbolInAlphabet(v: nat)
    requires v < 64
    ensures |ALPHABET| == 64 && Symbol(v) as int == ALPHABET[v] as int
  {
    LetterCodes(if v < 26 then v else if v < 52 then v - 26 else 0);
    FigureCodes(if 52 <= v < 62 then v - 52 else 0);
  }

  /** A character is decoded to its place in the alphabet, the padding to 64, and no other at all. */
  lemma DecodedInAlphabet(c: Byte)
    ensures forall v: nat :: v < 64 ==> (DecodeChar(c) == v <==> c as int == ALPHABET[v] as int)
    ensures DecodeChar(c) == PAD_VALUE <==> c as int == '=' as int
  {
    forall v: nat | v < 64
      ensures DecodeChar(c) == v <==> c as int == ALPHABET[v] as int
    {
      SymbolInAlphabet(v);
    }
  }

  /** Bitwise or. */
  function Or(a: nat, b: nat): nat {
    if a == 0 && b == 0 then 0
    else 2 * Or(a / 2, b / 2) + if a % 2 == 1 || b % 2 == 1 then 1 else 0
  }

  lemma {:induction false} OrZero(a: nat)
    ensures Or(a, 0) == a
  {
    if a > 0 {
      OrZero(a / 2);
    }
  }

  lemma OrDoubled(a: nat, half: nat, low: nat)
    requires a == 2 * half
    ensures Or(a, low) == 2 * Or(half, low / 2) + low % 2
  {
  }

  /** Or of numbers that share no bits: the high one a multiple of 2^n, the low one below it. */
  lemma {:induction false} OrApart(n: nat, high: nat, low: nat)
    requires low < Exp2(n)
    ensures Or(high * Exp2(n), low) == high * Exp2(n) + low
  {
    if n == 0 {
      OrZero(high);
    } else {
      OrApart(n - 1, high, low / 2);
      assert high * Exp2(n) == 2 * (high * Exp2(n - 1));
      OrDoubled(high * Exp2(n), high * Exp2(n - 1), low);
    }
  }

  // ----- encoding

  /** Four characters for one to three bytes; what is missing counts as zero and is padded. */
  function EncodedChunk(chunk: Bytes): (r: Bytes)
    requires 1 <= |chunk| <= 3
    ensures |r| == 4
  {
    var b1, b2, b3 := chunk[0] as nat,
        if |chunk| > 1 then chunk[1] as nat else 0,
        if |chunk| > 2 then chunk[2] as nat else 0;
    FieldsInRange(b1, b2, b3);
    [Symbol(b1 / 4),
     Symbol(Or((b1 % 4) * 16, b2 / 16)),
     if |chunk| > 1 then Symbol(Or((b2 % 16) * 4, b3 / 64)) else PAD,
     if |chunk| > 2 then Symbol(b3 % 64) else PAD]
  }

  lemma FieldsInRange(b1: nat, b2: nat, b3: nat)
    requires b1 < 256 && b2 < 256 && b3 < 256
    ensures Or((b1 % 4) * 16, b2 / 16) == (b1 % 4) * 16 + b2 / 16 < 64
    ensures Or((b2 % 16) * 4, b3 / 64) == (b2 % 16) * 4 + b3 / 64 < 64
  {
    assert Exp2(2) == 4 && Exp2(4) == 16;
    OrApart(4, b1 % 4, b2 / 16);
    OrApart(2, b2 % 16, b3 / 64);
  }

  /** The text of a byte string. */
  function Base64Text(data: Bytes): Bytes {
    if data == [] then []
    else if |data| <= 3 then EncodedChunk(data)
    else EncodedChunk(data[..3]) + Base64Text(data[3..])
  }

  lemma TextStep(chunk: Bytes, rest: Bytes)
    requires |chunk| == 3
    ensures Base64Text(chunk + rest) == EncodedChunk(chunk) + Base64Text(rest)
  {
    if rest == [] {
      assert chunk + rest == chunk;
    } else {
      assert (chunk + rest)[..3] == chunk && (chunk + rest)[3..] == rest;
    }
  }

  lemma TextStepConcat(chunk: Bytes, rest: Bytes, v: Bytes)
    requires |chunk| == 3 && Base64Text(rest + v) == Base64Text(rest) + Base64Text(v)
    ensures Base64Text((chunk + rest) + v) == Base64Text(chunk + rest) + Base64Text(v)
  {
    TextStep(chunk, rest);
    TextStep(chunk, rest + v);
    Associative(chunk, rest, v);
    Associative(EncodedChunk(chunk), Base64Text(rest), Base64Text(v));
  }

  /** Chunks of three bytes are encoded one by one. */
  lemma {:induction false} TextConcat(u: Bytes, v: Bytes)
    requires |u| % 3 == 0
    ensures Base64Text(u + v) == Base64Text(u) + Base64Text(v)
    decreases |u|
  {
    if u == [] {
      Unit(v);
      Unit(Base64Text(v));
    } else {
      TextConcat(u[3..], v);
      TextStepConcat(u[..3], u[3..], v);
      TakeDrop(u, 3);
    }
  }

  /** The i-th byte of a byte string, zero where it is missing. */
  function At(chunk: Bytes, i: nat): (b: nat)
    ensures b < 256
  {
    if i < |chunk| then chunk[i] as nat else 0
  }

  /** The bytes of three from position i on, as a number in base 256; bytes behind the end are zero. */
  function ThreeBytes(data: Bytes, i: nat): nat {
    At(data, i) * 65536 + At(data, i + 1) * 256 + At(data, i + 2)
  }

  /** The four characters of a chunk: padding exactly for the missing bytes, and otherwise the characters of
      the alphabet whose places, read in base 64, are the bytes read in base 256. */
  lemma ChunkPlaces(chunk: Bytes) returns (p0: nat, p1: nat, p2: nat, p3: nat)
    requires 1 <= |chunk| <= 3
    ensures p0 < 64 && p1 < 64 && p2 < 64 && p3 < 64 && |ALPHABET| == 64
    ensures p0 * 262144 + p1 * 4096 + p2 * 64 + p3 == ThreeBytes(chunk, 0)
    ensures var text := EncodedChunk(chunk);
            && text[0] as int == ALPHABET[p0] as int && text[1] as int == ALPHABET[p1] as int
            && text[2] as int == (if |chunk| > 1 then ALPHABET[p2] else '=') as int
            && text[3] as int == (if |chunk| > 2 then ALPHABET[p3] else '=') as int
  {
    var b1, b2, b3 := At(chunk, 0), At(chunk, 1), At(chunk, 2);
    p0, p1, p2, p3 := b1 / 4, (b1 % 4) * 16 + b2 / 16, (b2 % 16) * 4 + b3 / 64, b3 % 64;
    FieldsInRange(b1, b2, b3);
    SymbolInAlphabet(p0);
    SymbolInAlphabet(p1);
    SymbolInAlphabet(p2);
    SymbolInAlphabet(p3);
  }

  /** Block i of the text of a byte string is the chunk of its bytes from 3 * i on. */
  lemma {:induction false} TextBlock(data: Bytes, i: nat) returns (chunk: Bytes)
    requires 3 * i < |data|
    ensures 4 * i + 4 <= |Base64Text(data)|
    ensures 1 <= |chunk| <= 3 && chunk <= data[3 * i..] && (|chunk| == 3 || |chunk| == |data| - 3 * i)
    ensures Base64Text(data)[4 * i..4 * i + 4] == EncodedChunk(chunk)
    decreases |data|
  {
    if i == 0 {
      chunk := if |data| <= 3 then data else data[..3];
    } else {
      chunk := TextBlock(data[3..], i - 1);
      SliceSlice(data, 3, 3 * (i - 1));
      SliceRange(EncodedChunk(data[..3]), Base64Text(data[3..]), 4 * (i - 1), 4 * i);
    }
  }

  lemma SliceSlice(data: Bytes, a: nat, b: nat)
    requires a + b <= |data|
    ensures data[a..][b..] == data[a + b..]
  {
  }

  lemma SliceRange(u: Bytes, v: Bytes, from: nat, to: nat)
    requires from <= to <= |v|
    ensures (u + v)[|u| + from..|u| + to] == v[from..to]
  {
  }

  /** So every block of the text of a byte string stands for its bytes, and there are as many as it needs. */
  lemma TextPlaces(data: Bytes, i: nat) returns (p0: nat, p1: nat, p2: nat, p3: nat)
    requires 3 * i < |data|
    ensures |Base64Text(data)| == (|data| + 2) / 3 * 4 && 4 * i + 4 <= |Base64Text(data)|
    ensures p0 < 64 && p1 < 64 && p2 < 64 && p3 < 64 && |ALPHABET| == 64
    ensures p0 * 262144 + p1 * 4096 + p2 * 64 + p3 == ThreeBytes(data, 3 * i)
    ensures var text := Base64Text(data)[4 * i..4 * i + 4];
            && text[0] as int == ALPHABET[p0] as int && text[1] as int == ALPHABET[p1] as int
            && text[2] as int == (if 3 * i + 1 < |data| then ALPHABET[p2] else '=') as int
            && text[3] as int == (if 3 * i + 2 < |data| then ALPHABET[p3] else '=') as int
  {
    TextLength(data);
    var chunk := TextBlock(data, i);
    SameThree(data, 3 * i, chunk);
    p0, p1, p2, p3 := ChunkPlaces(chunk);
  }

  lemma SameThree(data: Bytes, i: nat, chunk: Bytes)
    requires i < |data| && chunk <= data[i..] && (|chunk| == 3 || |chunk| == |data| - i <= 3)
    ensures ThreeBytes(data, i) == ThreeBytes(chunk, 0)
  {
    forall j: nat | j < 3
      ensures At(data, i + j) == At(chunk, j)
    {
      if j < |chunk| {
        assert chunk[j] == data[i..][j];
      }
    }
  }

  lemma {:induction false} TextLength(data: Bytes)
    ensures |Base64Text(data)| == (|data| + 2) / 3 * 4
    decreases |data|
  {
    if |data| > 3 {
      TextLength(data[3..]);
    }
  }

  lemma BytePushed(whole: Bytes, held: Bytes, before: Bytes, data: Bytes, i: nat)
    requires i < |data| && whole + held == before + data[..i]
    ensures whole + (held + [data[i]]) == before + data[..i + 1]
  {
    Associative(whole, held, [data[i]]);
    Associative(before, data[..i], [data[i]]);
    TakeNext(data, i);
  }

  class Base64Streambuf {
    var buffer: Bytes

    ghost predicate Valid()
      reads this
    {
      |buffer| < 3
    }

    constructor ()
      ensures Valid() && buffer == []
    {
      buffer := [];
    }

    /** Takes one byte; the third one of a chunk sends four characters on. */
    method Overflow(c: Byte) returns (out: Bytes)
      requires Valid()
      modifies this
      ensures Valid() && out + Base64Text(buffer) == Base64Text(old(buffer) + [c])
      ensures |buffer| == (|old(buffer)| + 1) % 3
      ensures out == [] ==> buffer == old(buffer) + [c]
      ensures out != [] ==> buffer == [] && |old(buffer) + [c]| == 3 && out == EncodedChunk(old(buffer) + [c])
    {
      buffer := buffer + [c];
      out := [];
      if |buffer| == 3 {
        out := EncodedChunk(buffer);
        buffer := [];
      }
    }

    /** Sends an incomplete chunk on. */
    method Sync() returns (out: Bytes)
      requires Valid()
      modifies this
      ensures Valid() && buffer == [] && out == Base64Text(old(buffer))
    {
      out := [];
      if |buffer| > 0 {
        out := EncodedChunk(buffer);
        buffer := [];
      }
    }

    /** Writes a run of bytes: whole chunks go out, the rest waits. */
    method Write(data: Bytes) returns (out: Bytes)
      requires Valid()
      modifies this
      ensures Valid() && out + Base64Text(buffer) == Base64Text(old(buffer) + data)
      ensures exists whole: Bytes :: |whole| % 3 == 0 && whole + buffer == old(buffer) + data && out == Base64Text(whole)
    {
      out := [];
      ghost var whole: Bytes := [];
      for i := 0 to |data|
        invariant Valid() && |whole| % 3 == 0
        invariant whole + buffer == old(buffer) + data[..i] && out == Base64Text(whole)
      {
        ghost var before := buffer;
        BytePushed(whole, before, old(buffer), data, i);
        var chunk := Overflow(data[i]);
        if chunk != [] {
          TextConcat(whole, before + [data[i]]);
          whole := whole + (before + [data[i]]);
          Unit(whole);
        }
        out := out + chunk;
        Unit(out);
      }
      Whole(data);
      TextConcat(whole, buffer);
    }
  }

  /** Encodes a whole byte string. */
  method ToBase64(data: Bytes) returns (text: Bytes)
    ensures text == Base64Text(data)
  {
    var encoder := new Base64Streambuf();
    var head := encoder.Write(data);
    assert [] + data == data;
    var tail := encoder.Sync();
    text := head + tail;
  }

  // ----- decoding

  datatype Decoding = Decoding(sextets: seq<nat>, output: Bytes) | Invalid

  function FirstOctet(s0: nat, s1: nat): Byte {
    (Or(s0 * 4, s1 / 16) % 256) as Byte
  }

  function SecondOctet(s1: nat, s2: nat): Byte {
    (Or((s1 % 16) * 16, s2 / 4) % 256) as Byte
  }

  function ThirdOctet(s2: nat, s3: nat): Byte {
    (Or((s2 % 4) * 64, s3) % 256) as Byte
  }

  /** The bytes of four sextets; padding marks what is missing. */
  function Octets(s: seq<nat>): (r: Bytes)
    requires |s| == 4
    ensures 1 <= |r| <= 3
  {
    [FirstOctet(s[0], s[1])]
    + (if s[2] != PAD_VALUE then [SecondOctet(s[1], s[2])] else [])
    + (if s[3] != PAD_VALUE then [ThirdOctet(s[2], s[3])] else [])
  }

  /** Four sextets, read in base 64, are their bytes read in base 256; with padding the bits beyond the last
      whole byte are dropped. */
  lemma OctetsNumber(s0: nat, s1: nat, s2: nat, s3: nat)
    requires s0 < 64 && s1 < 64 && s2 <= PAD_VALUE && s3 <= PAD_VALUE
    ensures var r := Octets([s0, s1, s2, s3]);
            if s2 == PAD_VALUE && s3 < 64 then |r| == 2 && r[0] as int == (s0 * 64 + s1) / 16 && r[1] as int == s3
            else if s2 == PAD_VALUE then |r| == 1 && r[0] as int == (s0 * 64 + s1) / 16
            else if s3 == PAD_VALUE then |r| == 2 && r[0] as int * 256 + r[1] as int == (s0 * 4096 + s1 * 64 + s2) / 4
            else |r| == 3 && ThreeBytes(r, 0) == s0 * 262144 + s1 * 4096 + s2 * 64 + s3
  {
    FirstOctetIs(s0, s1);
    if s2 < 64 {
      SecondOctetIs(s1, s2);
    }
    if s3 < 64 {
      ThirdOctetIs(s2, s3);
    }
  }

  lemma FirstOctetIs(s0: nat, s1: nat)
    requires s0 < 64 && s1 < 64
    ensures FirstOctet(s0, s1) as int == s0 * 4 + s1 / 16
  {
    assert Exp2(2) == 4;
    OrApart(2, s0, s1 / 16);
  }

  lemma SecondOctetIs(s1: nat, s2: nat)
    requires s1 < 64 && s2 < 64
    ensures SecondOctet(s1, s2) as int == s1 % 16 * 16 + s2 / 4
  {
    assert Exp2(4) == 16;
    OrApart(4, s1 % 16, s2 / 4);
  }

  lemma ThirdOctetIs(s2: nat, s3: nat)
    requires s3 < 64
    ensures ThirdOctet(s2, s3) as int == s2 % 4 * 64 + s3
  {
    assert Exp2(6) == 64;
    OrApart(6, s2 % 4, s3);
  }

  /** The state after one more character. */
  function Fed(d: Decoding, c: Byte): Decoding {
    if d.Invalid? || DecodeChar(c) < 0 then Invalid
    else
      var s := d.sextets + [DecodeChar(c)];
      if |s| == 4 then Decoding([], d.output + Octets(s)) else Decoding(s, d.output)
  }

  /** The state after a run of characters. */
  function FedAll(d: Decoding, text: Bytes): Decoding {
    if text == [] then d else Fed(FedAll(d, text[..|text| - 1]), text[|text| - 1])
  }

  lemma {:induction false} FedConcat(d: Decoding, u: Bytes, v: Bytes)
    ensures FedAll(d, u + v) == FedAll(FedAll(d, u), v)
  {
    if v == [] {
      assert u + v == u;
    } else {
      FedConcat(d, u, v[..|v| - 1]);
      assert (u + v)[..|u + v| - 1] == u + v[..|v| - 1];
    }
  }

  lemma FedFour(d: Decoding, text: Bytes)
    requires d.Decoding? && d.sextets == [] && |text| == 4 && forall c :: c in text ==> DecodeChar(c) >= 0
    ensures FedAll(d, text) == Decoding([], d.output + Octets([DecodeChar(text[0]), DecodeChar(text[1]), DecodeChar(text[2]), DecodeChar(text[3])]))
  {
    assert text[..3][..2][..1] == [text[0]] && text[..3][..2] == [text[0], text[1]] && text[..3] == [text[0], text[1], text[2]];
    assert FedAll(d, [text[0]]) == Decoding([DecodeChar(text[0])], d.output) by {
      assert [text[0]][..0] == [];
    }
    assert FedAll(d, [text[0], text[1]]) == Decoding([DecodeChar(text[0]), DecodeChar(text[1])], d.output) by {
      assert [text[0], text[1]][..1] == [text[0]];
    }
    assert FedAll(d, text[..3]) == Decoding([DecodeChar(text[0]), DecodeChar(text[1]), DecodeChar(text[2])], d.output) by {
      assert text[..3][..2] == [text[0], text[1]];
    }
  }

  /** The sextets that the characters of a chunk decode to. */
  lemma ChunkSextets(chunk: Bytes)
    requires 1 <= |chunk| <= 3
    ensures var text, b1, b2, b3 := EncodedChunk(chunk), At(chunk, 0), At(chunk, 1), At(chunk, 2);
            && DecodeChar(text[0]) == b1 / 4
            && DecodeChar(text[1]) == (b1 % 4) * 16 + b2 / 16
            && DecodeChar(text[2]) == (if |chunk| > 1 then (b2 % 16) * 4 + b3 / 64 else PAD_VALUE)
            && DecodeChar(text[3]) == (if |chunk| > 2 then b3 % 64 else PAD_VALUE)
  {
    var b1, b2, b3 := At(chunk, 0), At(chunk, 1), At(chunk, 2);
    FieldsInRange(b1, b2, b3);
    SymbolRoundTrip(b1 / 4);
    SymbolRoundTrip((b1 % 4) * 16 + b2 / 16);
    SymbolRoundTrip((b2 % 16) * 4 + b3 / 64);
    SymbolRoundTrip(b3 % 64);
  }

  lemma FirstOctetOf(b1: nat, b2: nat)
    requires b1 < 256 && b2 < 256
    ensures FirstOctet(b1 / 4, (b1 % 4) * 16 + b2 / 16) as nat == b1
  {
    assert ((b1 % 4) * 16 + b2 / 16) / 16 == b1 % 4;
    assert Exp2(2) == 4;
    OrApart(2, b1 / 4, b1 % 4);
  }

  lemma SecondOctetOf(b1: nat, b2: nat, b3: nat)
    requires b1 < 256 && b2 < 256 && b3 < 256
    ensures SecondOctet((b1 % 4) * 16 + b2 / 16, (b2 % 16) * 4 + b3 / 64) as nat == b2
  {
    assert ((b1 % 4) * 16 + b2 / 16) % 16 == b2 / 16;
    assert ((b2 % 16) * 4 + b3 / 64) / 4 == b2 % 16;
    assert Exp2(4) == 16;
    OrApart(4, b2 / 16, b2 % 16);
  }

  lemma ThirdOctetOf(b2: nat, b3: nat)
    requires b2 < 256 && b3 < 256
    ensures ThirdOctet((b2 % 16) * 4 + b3 / 64, b3 % 64) as nat == b3
  {
    assert ((b2 % 16) * 4 + b3 / 64) % 4 == b3 / 64;
    assert Exp2(6) == 64;
    OrApart(6, b3 / 64, b3 % 64);
  }

  lemma OctetsAre(s: seq<nat>, chunk: Bytes)
    requires |s| == 4 && 1 <= |chunk| <= 3 && FirstOctet(s[0], s[1]) == chunk[0]
    requires if |chunk| > 1 then s[2] != PAD_VALUE && SecondOctet(s[1], s[2]) == chunk[1] else s[2] == PAD_VALUE
    requires if |chunk| > 2 then s[3] != PAD_VALUE && ThirdOctet(s[2], s[3]) == chunk[2] else s[3] == PAD_VALUE
    ensures Octets(s) == chunk
  {
  }

  /** Those sextets make up the chunk again. */
  lemma ChunkOctets(chunk: Bytes)
    requires 1 <= |chunk| <= 3
    ensures var b1, b2, b3 := At(chunk, 0), At(chunk, 1), At(chunk, 2);
            Octets([b1 / 4, (b1 % 4) * 16 + b2 / 16,
                    if |chunk| > 1 then (b2 % 16) * 4 + b3 / 64 else PAD_VALUE,
                    if |chunk| > 2 then b3 % 64 else PAD_VALUE]) == chunk
  {
    var b1, b2, b3 := At(chunk, 0), At(chunk, 1), At(chunk, 2);
    FirstOctetOf(b1, b2);
    SecondOctetOf(b1, b2, b3);
    ThirdOctetOf(b2, b3);
    OctetsAre([b1 / 4, (b1 % 4) * 16 + b2 / 16,
               if |chunk| > 1 then (b2 % 16) * 4 + b3 / 64 else PAD_VALUE,
               if |chunk| > 2 then b3 % 64 else PAD_VALUE], chunk);
  }

  /** The octets of an encoded chunk are the chunk. */
  lemma ChunkRoundTrip(d: Decoding, chunk: Bytes)
    requires d.Decoding? && d.sextets == [] && 1 <= |chunk| <= 3
    ensures FedAll(d, EncodedChunk(chunk)) == Decoding([], d.output + chunk)
  {
    ChunkSextets(chunk);
    ChunkOctets(chunk);
    FedFour(d, EncodedChunk(chunk));
  }

  lemma ChunkThenRest(d: Decoding, chunk: Bytes, rest: Bytes)
    requires d.Decoding? && d.sextets == [] && |chunk| == 3
    requires FedAll(Decoding([], d.output + chunk), Base64Text(rest)) == Decoding([], d.output + chunk + rest)
    ensures FedAll(d, Base64Text(chunk + rest)) == Decoding([], d.output + chunk + rest)
  {
    ChunkRoundTrip(d, chunk);
    TextStep(chunk, rest);
    FedConcat(d, EncodedChunk(chunk), Base64Text(rest));
  }

  /** Decoding undoes encoding, from any point between chunks. */
  lemma {:induction false} RoundTrip(d: Decoding, data: Bytes)
    requires d.Decoding? && d.sextets == []
    ensures FedAll(d, Base64Text(data)) == Decoding([], d.output + data)
    decreases |data|
  {
    if data == [] {
      assert d.output + data == d.output;
    } else if |data| <= 3 {
      ChunkRoundTrip(d, data);
    } else {
      RoundTrip(Decoding([], d.output + data[..3]), data[3..]);
      ChunkThenRest(d, data[..3], data[3..]);
      assert data[..3] + data[3..] == data;
      assert d.output + data[..3] + data[3..] == d.output + (data[..3] + data[3..]);
    }
  }

  /** Every four characters give at most three bytes. */
  lemma {:induction false} DecodedIsShorter(d: Decoding, text: Bytes)
    requires d.Decoding? && |d.sextets| < 4
    ensures FedAll(d, text).Decoding? ==>
              && |FedAll(d, text).sextets| < 4
              && 4 * |FedAll(d, text).output| + 3 * |FedAll(d, text).sextets| <= 4 * |d.output| + 3 * |d.sextets| + 3 * |text|
  {
    if text != [] {
      DecodedIsShorter(d, text[..|text| - 1]);
    }
  }

  class Base64DecodeStream {
    var sextets: seq<nat>
    var output: Bytes

    function State(): Decoding
      reads this
    {
      Decoding(sextets, output)
    }

    ghost predicate Valid()
      reads this
    {
      |sextets| < 4
    }

    constructor ()
      ensures Valid() && State() == Decoding([], [])
    {
      sextets, output := [], [];
    }

    /** Takes one character; false when it is not a Base64 character. */
    method DecodeBase64Stream(c: Byte) returns (ok: bool)
      requires Valid()
      modifies this
      ensures Valid() && ok == Fed(old(State()), c).Decoding?
      ensures State() == if ok then Fed(old(State()), c) else old(State())
    {
      var val := DecodeChar(c);
      if val < 0 {
        return false;
      }
      sextets := sextets + [val];
      if |sextets| == 4 {
        output := output + Octets(sextets);
        sextets := [];
      }
      return true;
    }

    /** Takes a run of characters; false stands for the exception on an invalid one. */
    method Write(source: Bytes) returns (ok: bool)
      requires Valid()
      modifies this
      ensures Valid() && ok == FedAll(old(State()), source).Decoding?
      ensures ok ==> State() == FedAll(old(State()), source)
    {
      ok := true;
      for i := 0 to |source|
        invariant Valid() && ok && State() == FedAll(old(State()), source[..i])
      {
        assert source[..i + 1][..i] == source[..i];
        FedConcat(old(State()), source[..i + 1], source[i + 1..]);
        assert source[..i + 1] + source[i + 1..] == source;
        ok := DecodeBase64Stream(source[i]);
        if !ok {
          FedInvalid(source[i + 1..]);
          return;
        }
      }
      Whole(source);
    }
  }

  lemma {:induction false} FedInvalid(text: Bytes)
    ensures FedAll(Invalid, text) == Invalid
  {
    if text != [] {
      FedInvalid(text[..|text| - 1]);
    }
  }

  /** A text decodes exactly when all its characters are of the alphabet, or padding. */
  lemma {:induction false} DecodesExactly(d: Decoding, text: Bytes)
    requires d.Decoding?
    ensures FedAll(d, text).Decoding? <==> forall i :: 0 <= i < |text| ==> DecodeChar(text[i]) >= 0
  {
    if text != [] {
      DecodesExactly(d, text[..|text| - 1]);
    }
  }

  /** Decodes a whole text; None stands for the exception. */
  method FromBase64(text: Bytes) returns (ok: bool, data: Bytes)
    ensures ok == FedAll(Decoding([], []), text).Decoding?
    ensures ok ==> data == FedAll(Decoding([], []), text).output
  {
    var decoder := new Base64DecodeStream();
    ok := decoder.Write(text);
    data := decoder.output;
  }
}
