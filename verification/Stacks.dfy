/**
  The bit stack: a vector of bits with a read position and a running count, its packing into
  bytes, and power encoding written to and read from it.
 */
module Stacks {
  import opened Arithmetic
  import opened BitWords
  import opened ByteStrings
  import opened PowerEncoding
  import opened Sequences

  /** One bit's effect on the running count, applied `times` times over; a zero never
      takes the count below zero. */
  function Tick(times: nat, count: int, bit: bool): int {
    if bit then count + times
    else if count > times then count - times
    else if count > 0 then 0
    else count
  }

  function Tally(times: nat, count: int, w: Word): int {
    if w == [] then count else Tick(times, Tally(times, count, w[..|w| - 1]), w[|w| - 1])
  }

  function Scaled(times: nat, n: int): int {
    if times == 2 then 2 * n else n
  }

  lemma TallyPush(times: nat, count: int, w: Word, bit: bool)
    ensures Tally(times, count, w + [bit]) == Tick(times, Tally(times, count, w), bit)
  {
    assert (w + [bit])[..|w|] == w;
  }

  lemma {:induction false} TallyConcat(times: nat, count: int, u: Word, v: Word)
    ensures Tally(times, count, u + v) == Tally(times, Tally(times, count, u), v)
  {
    if v == [] {
      assert u + v == u;
    } else {
      TallyConcat(times, count, u, v[..|v| - 1]);
      assert (u + v)[..|u + v| - 1] == u + v[..|v| - 1];
    }
  }

  /** Where the word never counts below zero, the tally is the level. */
  lemma {:induction false} TallyIsLevel(times: nat, count: int, w: Word)
    requires (times == 1 || times == 2) && count >= 0
    requires forall i :: 0 <= i <= |w| ==> Level(w[..i]) >= 0
    ensures Tally(times, count, w) == count + Scaled(times, Level(w))
  {
    Whole(w);
    if w != [] {
      var u := w[..|w| - 1];
      forall i | 0 <= i <= |u|
        ensures Level(u[..i]) >= 0
      {
        assert u[..i] == w[..i];
      }
      TallyIsLevel(times, count, u);
    }
  }

  /** The running count, wherever the word dips: the highest level of any of its endings, the whole of it counted from
      where the count began. */
  lemma {:induction false} TallyIsHighest(times: nat, count: int, w: Word) returns (i: nat)
    requires (times == 1 || times == 2) && count >= 0
    ensures Tally(times, count, w) >= count + Scaled(times, Level(w))
    ensures forall j :: 0 <= j <= |w| ==> Tally(times, count, w) >= Scaled(times, Level(w[j..]))
    ensures i <= |w| && (Tally(times, count, w) == count + Scaled(times, Level(w)) || Tally(times, count, w) == Scaled(times, Level(w[i..])))
  {
    if w == [] {
      i := 0;
    } else {
      var u, bit := w[..|w| - 1], w[|w| - 1];
      i := TallyIsHighest(times, count, u);
      forall j | 0 <= j <= |w|
        ensures Tally(times, count, w) >= Scaled(times, Level(w[j..]))
      {
        EndingPush(w, j);
        assert j < |w| ==> Tally(times, count, u) >= Scaled(times, Level(u[j..]));
        TallyNotNegative(times, count, w);
      }
      EndingPush(w, i);
      EndingPush(w, |w|);
      if Tally(times, count, w) == 0 {
        i := |w|;
      }
    }
  }

  lemma {:induction false} TallyNotNegative(times: nat, count: int, w: Word)
    requires count >= 0
    ensures Tally(times, count, w) >= 0
  {
    if w != [] {
      TallyNotNegative(times, count, w[..|w| - 1]);
    }
  }

  lemma EndingPush(w: Word, j: nat)
    requires w != [] && j <= |w|
    ensures j == |w| ==> Level(w[j..]) == 0
    ensures j < |w| ==> Level(w[j..]) == Level(w[..|w| - 1][j..]) + if w[|w| - 1] then 1 else -1
  {
    if j < |w| {
      assert w[j..][..|w[j..]| - 1] == w[..|w| - 1][j..];
    }
  }

  /** Writing (counted twice a bit) or reading (counted once) a whole key restores the count. */
  lemma TallyOfKey(times: nat, count: int, k: Word)
    requires (times == 1 || times == 2) && count >= 0 && IsKey(k)
    ensures Tally(times, count, k) == count
  {
    forall i | 0 <= i <= |k|
      ensures Level(k[..i]) >= 0
    {
      if i < |k| {
        KeyPrefixOpen(k, i);
        assert k[..i][..i] == k[..i];
      } else {
        assert k[..i] == k;
      }
    }
    TallyIsLevel(times, count, k);
  }

  // ----- packing

  /** The bits, most significant first, as a number. */
  function BitsNumber(w: Word): nat {
    if w == [] then 0 else 2 * BitsNumber(w[..|w| - 1]) + if w[|w| - 1] then 1 else 0
  }

  function NumberBits(n: nat, size: nat): (w: Word)
    ensures |w| == size
  {
    if size == 0 then [] else NumberBits(n / 2, size - 1) + [n % 2 == 1]
  }

  lemma {:induction false} BitsRoundTrip(w: Word)
    ensures NumberBits(BitsNumber(w), |w|) == w && BitsNumber(w) < Exp2(|w|)
  {
    if w != [] {
      BitsRoundTrip(w[..|w| - 1]);
    }
  }

  /** The bits of a number: the most significant first. */
  lemma {:induction false} NumberBitAt(n: nat, size: nat, i: nat)
    requires i < size
    ensures Exp2(size - 1 - i) > 0 && (NumberBits(n, size)[i] <==> n / Exp2(size - 1 - i) % 2 == 1)
  {
    if i < size - 1 {
      NumberBitAt(n / 2, size - 1, i);
      DividedTwice(n, 2, Exp2(size - 2 - i));
    }
  }

  function BitsByte(w: Word): Byte
    requires |w| == 8
  {
    BitsRoundTrip(w);
    assert Exp2(4) == 16 && Exp2(8) == 256;
    BitsNumber(w) as Byte
  }

  function ByteBits(b: Byte): (w: Word)
    ensures |w| == 8
  {
    NumberBits(b as nat, 8)
  }

  function Zeros(n: nat): (w: Word)
    ensures |w| == n
  {
    seq(n, _ => false)
  }

  function Padding(w: Word): nat {
    if |w| % 8 == 0 then 0 else 8 - |w| % 8
  }

  /** Eight bits a byte, the last byte filled up with zeros. */
  function Packed(w: Word): Bytes {
    if w == [] then []
    else if |w| < 8 then [BitsByte(w + Zeros(8 - |w|))]
    else [BitsByte(w[..8])] + Packed(w[8..])
  }

  function Unpacked(data: Bytes): Word {
    if data == [] then [] else Unpacked(data[..|data| - 1]) + ByteBits(data[|data| - 1])
  }

  lemma PackedChunk(c: Word, w: Word)
    requires |c| == 8
    ensures Packed(c + w) == [BitsByte(c)] + Packed(w)
  {
    assert (c + w)[..8] == c && (c + w)[8..] == w;
  }

  lemma {:induction false} PackedConcat(u: Word, v: Word)
    requires |u| % 8 == 0
    ensures Packed(u + v) == Packed(u) + Packed(v)
  {
    if u == [] {
      Unit(v);
      Unit(Packed(v));
    } else {
      var c, w := u[..8], u[8..];
      TakeDrop(u, 8);
      Associative(c, w, v);
      PackedChunk(c, w);
      PackedChunk(c, w + v);
      PackedConcat(w, v);
      Associative([BitsByte(c)], Packed(w), Packed(v));
    }
  }

  lemma {:induction false} UnpackedConcat(c: Bytes, d: Bytes)
    ensures Unpacked(c + d) == Unpacked(c) + Unpacked(d)
  {
    if d == [] {
      Unit(c);
      Unit(Unpacked(c));
    } else {
      var front, last := d[..|d| - 1], d[|d| - 1];
      UnpackedConcat(c, front);
      ConcatFront(c, d);
      Associative(Unpacked(c), Unpacked(front), ByteBits(last));
    }
  }

  lemma ByteRoundTrip(w: Word)
    requires |w| == 8
    ensures ByteBits(BitsByte(w)) == w
  {
    BitsRoundTrip(w);
  }

  lemma UnpackedByte(b: Byte)
    ensures Unpacked([b]) == ByteBits(b)
  {
    assert [b][..0] == [];
  }

  lemma UnpackedPartial(w: Word, z: Word)
    requires 0 < |w| < 8 && z == Zeros(8 - |w|)
    ensures Unpacked(Packed(w)) == w + z
  {
    ByteRoundTrip(w + z);
    UnpackedByte(BitsByte(w + z));
  }

  lemma PaddingChunk(w: Word)
    ensures 0 < |w| < 8 ==> Padding(w) == 8 - |w|
    ensures |w| >= 8 ==> Padding(w[8..]) == Padding(w)
  {
  }

  /** Unpacking gives back the packed bits and the padding. */
  lemma {:induction false} UnpackedPacked(w: Word)
    ensures Unpacked(Packed(w)) == w + Zeros(Padding(w))
  {
    PaddingChunk(w);
    if w == [] {
    } else if |w| < 8 {
      UnpackedPartial(w, Zeros(8 - |w|));
    } else {
      UnpackedPacked(w[8..]);
      UnpackedChunk(w[..8], w[8..], Zeros(Padding(w)));
      assert w == w[..8] + w[8..];
    }
  }

  /** The bits read from bytes: eight a byte, its most significant one first. */
  lemma {:induction false} UnpackedBitAt(data: Bytes, i: nat)
    requires i < 8 * |data|
    ensures |Unpacked(data)| == 8 * |data| && Exp2(7 - i % 8) > 0
    ensures Unpacked(data)[i] <==> data[i / 8] as nat / Exp2(7 - i % 8) % 2 == 1
  {
    var last := |data| - 1;
    UnpackedLength(data);
    UnpackedLength(data[..last]);
    if i < 8 * last {
      UnpackedBitAt(data[..last], i);
    } else {
      NumberBitAt(data[last] as nat, 8, i - 8 * last);
    }
  }

  lemma {:induction false} UnpackedLength(data: Bytes)
    ensures |Unpacked(data)| == 8 * |data|
  {
    if data != [] {
      UnpackedLength(data[..|data| - 1]);
    }
  }

  /** The bits written to bytes: as many bytes as they need, eight bits each, the most significant one first, and
      zeros behind them. */
  lemma PackedBitAt(w: Word, i: nat)
    requires i < 8 * |Packed(w)|
    ensures |Packed(w)| == (|w| + 7) / 8 && Exp2(7 - i % 8) > 0
    ensures Packed(w)[i / 8] as nat / Exp2(7 - i % 8) % 2 == 1 <==> i < |w| && w[i]
  {
    UnpackedPacked(w);
    UnpackedBitAt(Packed(w), i);
  }

  lemma UnpackedChunk(c: Word, v: Word, z: Word)
    requires |c| == 8 && Unpacked(Packed(v)) == v + z
    ensures Unpacked(Packed(c + v)) == c + v + z
  {
    PackedChunk(c, v);
    ByteRoundTrip(c);
    UnpackedByte(BitsByte(c));
    UnpackedConcat([BitsByte(c)], Packed(v));
    Associative(c, v, z);
  }

  /** The longest prefix that never counts below zero. */
  function Kept(w: Word): (k: Word)
    ensures k <= w
    ensures !Dips(w) ==> k == w
    ensures Level(k) >= 0 && !Dips(k)
    ensures Dips(w) ==> |k| < |w| && Level(w[..|k| + 1]) < 0
  {
    if w == [] then
      assert w[..0] == [];
      []
    else
      var u := w[..|w| - 1];
      var k := Kept(u);
      DipsPush(w);
      assert |k| < |u| ==> u[..|k| + 1] == w[..|k| + 1];
      Whole(w);
      if |k| == |w| - 1 && Level(w) >= 0 then w else k
  }

  /** The state of unpacking: what is kept so far, and its running count or -1 after a dip. */
  ghost predicate Loaded(seen: Word, kept: Word, running: int) {
    kept == Kept(seen) && running == if Dips(seen) then -1 else Level(kept)
  }

  lemma LoadedPush(seen: Word, kept: Word, running: int, bit: bool)
    requires Loaded(seen, kept, running)
    ensures running < 0 ==> Loaded(seen + [bit], kept, running)
    ensures var next := if bit then running + 1 else running - 1;
            running >= 0 ==>
              if next >= 0 then Loaded(seen + [bit], kept + [bit], next) && Level(kept + [bit]) == next
              else Loaded(seen + [bit], kept, next)
  {
    var w := seen + [bit];
    LevelPush(seen, bit);
    DipsPush(w);
    assert w[..|w| - 1] == seen;
  }

  lemma KeptPush(u: Word, bit: bool)
    ensures Kept(u + [bit]) == if Kept(u) == u && Level(u + [bit]) >= 0 then u + [bit] else Kept(u)
    ensures Dips(u + [bit]) <==> Dips(u) || Level(u + [bit]) < 0
  {
    DipsPush(u + [bit]);
    assert (u + [bit])[..|u|] == u;
  }

  lemma ZerosPush(w: Word, n: nat)
    requires n > 0
    ensures w + Zeros(n) == w + Zeros(n - 1) + [false]
    ensures Level(w + Zeros(n)) == Level(w + Zeros(n - 1)) - 1
  {
    assert w + Zeros(n) == w + Zeros(n - 1) + [false];
    LevelPush(w + Zeros(n - 1), false);
  }

  /** What is kept of a word followed by zeros: at count zero, the word. */
  lemma {:induction false} KeptBeforeZeros(w: Word, n: nat)
    requires !Dips(w)
    ensures Level(w) == 0 ==> Kept(w + Zeros(n)) == w
    ensures Level(w) > 0 && n > 0 ==> |Kept(w + Zeros(n))| > |w|
    ensures Level(w) == 0 && n > 0 ==> Dips(w + Zeros(n))
  {
    assert w + Zeros(0) == w;
    if n > 0 {
      KeptBeforeZeros(w, n - 1);
      ZerosPush(w, n);
      KeptPush(w + Zeros(n - 1), false);
    }
  }

  /** Token round trip: a word that never counts below zero comes back from its bytes exactly
      when it filled its last byte or it ends at count zero. */
  lemma TokenRoundTrip(w: Word)
    requires !Dips(w)
    ensures Kept(Unpacked(Packed(w))) == w <==> Padding(w) == 0 || Level(w) == 0
  {
    UnpackedPacked(w);
    if Padding(w) == 0 {
      assert w + Zeros(0) == w;
    } else {
      NeverDips(w);
      KeptBeforeZeros(w, Padding(w));
    }
  }

  // ----- counts of written and read numbers

  lemma TallyOne(times: nat, count: int, bit: bool)
    ensures Tally(times, count, [bit]) == Tick(times, count, bit)
  {
    TallyPush(times, count, [], bit);
    assert [] + [bit] == [bit];
  }

  lemma TallyEncoded(times: nat, count: int, x: nat)
    ensures x == 0 ==> Tally(times, count, Encoded(x)) == Tick(times, count, false)
    ensures x > 0 ==> Tally(times, count, Encoded(x)) ==
                      Tally(times, Tally(times, Tick(times, count, true), Encoded(Power(x))), Encoded(Remainder(x)))
  {
    if x == 0 {
      TallyOne(times, count, false);
    } else {
      var p, r := Encoded(Power(x)), Encoded(Remainder(x));
      TallyOne(times, count, true);
      TallyConcat(times, count, [true], p);
      TallyConcat(times, count, [true] + p, r);
    }
  }

  lemma TallyNumberKey(times: nat, count: int, x: nat)
    ensures Tally(times, count, NumberKey(x)) == Tally(times, Tick(times, count, true), Encoded(x))
  {
    TallyOne(times, count, true);
    TallyConcat(times, count, [true], Encoded(x));
  }

  lemma BytePush(before: Word, byte: Word, i: nat)
    requires i < |byte|
    ensures before + byte[..i + 1] == before + byte[..i] + [byte[i]]
  {
    TakeNext(byte, i);
  }

  lemma PackedByte(done: Word, byte: Word)
    requires |done| % 8 == 0 && |byte| == 8
    ensures Packed(done + byte) == Packed(done) + [BitsByte(byte)]
  {
    PackedConcat(done, byte);
    assert byte[..8] == byte && byte[8..] == [];
  }

  // ----- ranges of the bits that are read

  /** A closing range that starts with a one: the one, a closing range and another. */
  lemma SplitRange(w: Word, start: nat, n: nat) returns (i: nat)
    requires start < n <= |w| && w[start] && Closes(w[start..n])
    ensures start + 1 < i < n && Closes(w[start + 1..i]) && Closes(w[i..n])
  {
    i := SplitNext(w, start, n);
    KeyRange(w, start, i);
  }

  /** A closing range that starts with a one: a key and a closing range. */
  lemma SplitNext(w: Word, start: nat, n: nat) returns (i: nat)
    requires start < n <= |w| && w[start] && Closes(w[start..n])
    ensures start < i < n && IsKey(w[start..i]) && Closes(w[i..n])
  {
    var j := SplitCloses(w[start..n]);
    i := start + j;
    assert w[start..n][..j] == w[start..i] && w[start..n][j..] == w[i..n];
  }

  lemma KeyRange(w: Word, start: nat, n: nat)
    requires start <= n <= |w| && IsKey(w[start..n])
    ensures start < n && w[start] && Closes(w[start + 1..n])
  {
    KeyBody(w[start..n]);
    assert w[start..n][1..] == w[start + 1..n];
  }

  lemma CharactersEndAt(w: Word, at: nat)
    requires at <= |w| && (at < |w| ==> !w[at])
    ensures DecodedCharacters(w[at..]) == ([], if at == |w| then [] else w[at + 1..])
  {
    assert at < |w| ==> w[at..][1..] == w[at + 1..];
  }

  lemma FrontRange(w: Word, start: nat, k: Word, rest: Word)
    requires start <= |w| && w[start..] == k + rest
    ensures start + |k| <= |w| && w[start..start + |k|] == k
  {
    assert w[start..][..|k|] == k;
  }

  lemma TallyFirst(count: int, w: Word, start: nat, n: nat)
    requires start < n <= |w|
    ensures Tally(1, count, w[start..n]) == Tally(1, Tick(1, count, w[start]), w[start + 1..n])
  {
    assert w[start..n] == [w[start]] + w[start + 1..n];
    TallyOne(1, count, w[start]);
    TallyConcat(1, count, [w[start]], w[start + 1..n]);
  }

  lemma TallyRange(count: int, w: Word, start: nat, i: nat, n: nat)
    requires start < i <= n <= |w|
    ensures Tally(1, count, w[start..n]) ==
            Tally(1, Tally(1, Tick(1, count, w[start]), w[start + 1..i]), w[i..n])
  {
    TallyFirst(count, w, start, i);
    assert w[start..n] == w[start..i] + w[i..n];
    TallyConcat(1, count, w[start..i], w[i..n]);
  }

  class Stack {
    var bits: Word
    var it: nat
    var count: int

    constructor ()
      ensures bits == [] && it == 0 && count == 0
    {
      bits, it, count := [], 0, 0;
    }

    /** Copies the bits; the running count starts again at zero. */
    constructor Copy(source: Stack)
      ensures bits == source.bits && it == 0 && count == 0
    {
      bits, it, count := source.bits, 0, 0;
    }

    /** Takes over the bits; the running count is left as it was. */
    method Assign(rhs: Stack)
      modifies this
      ensures bits == old(rhs.bits) && it == 0 && count == old(count)
    {
      bits, it := rhs.bits, 0;
    }

    /** Unpacks bytes, up to where the running count would go below zero. */
    constructor FromData(data: Bytes)
      ensures bits == Kept(Unpacked(data)) && it == 0 && count == Level(bits)
    {
      bits, it, count := [], 0, 0;
      new;
      var running := 0;
      ghost var seen: Word := [];
      assert seen[..0] == [];
      for byteIndex := 0 to |data|
        invariant seen == Unpacked(data[..byteIndex]) && Loaded(seen, bits, running)
        invariant it == 0 && count == Level(bits) >= 0
      {
        assert data[..byteIndex + 1][..byteIndex] == data[..byteIndex];
        running := Load(ByteBits(data[byteIndex]), running, seen);
        seen := seen + ByteBits(data[byteIndex]);
      }
      Whole(data);
    }

    /** Takes in the bits of one byte, as long as nothing has dipped. */
    method Load(byte: Word, running: int, ghost before: Word) returns (next: int)
      requires Loaded(before, bits, running) && it == 0 && count == Level(bits) >= 0
      modifies this
      ensures Loaded(before + byte, bits, next) && it == 0 && count == Level(bits) >= 0
    {
      next := running;
      assert before + byte[..0] == before;
      for bitIndex := 0 to |byte|
        invariant Loaded(before + byte[..bitIndex], bits, next) && it == 0 && count == Level(bits) >= 0
      {
        var bit := byte[bitIndex];
        LoadedPush(before + byte[..bitIndex], bits, next, bit);
        BytePush(before, byte, bitIndex);
        if next >= 0 {
          next := if bit then next + 1 else next - 1;
          if next >= 0 {
            PushBack(bit);
          }
        }
      }
      Whole(byte);
    }

    /** Packs the bits into bytes. */
    method ToData() returns (data: Bytes)
      ensures data == Packed(bits)
    {
      data := [];
      var current: Word := [];
      ghost var done: Word := [];
      for i := 0 to |bits|
        invariant |current| < 8 && |done| % 8 == 0 && done + current == bits[..i]
        invariant data == Packed(done)
      {
        BytePush([], bits, i);
        Associative(done, current, [bits[i]]);
        current := current + [bits[i]];
        if |current| == 8 {
          PackedByte(done, current);
          data := data + [BitsByte(current)];
          done := done + current;
          current := [];
        }
      }
      PackedConcat(done, current);
      Whole(bits);
      if |current| > 0 {
        data := data + [BitsByte(current + Zeros(8 - |current|))];
      }
    }

    method PushBack(bit: bool)
      modifies this
      ensures bits == old(bits) + [bit] && it == old(it) && count == Tick(1, old(count), bit)
    {
      if bit {
        count := count + 1;
      } else if count > 0 {
        count := count - 1;
      }
      bits := bits + [bit];
    }

    function Last(): bool
      requires bits != []
      reads this
    {
      bits[|bits| - 1]
    }

    method PopBack()
      requires bits != []
      modifies this
      ensures bits == old(bits)[..|old(bits)| - 1] && it == old(it)
      ensures count == if old(Last()) then (if old(count) > 0 then old(count) - 1 else old(count)) else old(count) + 1
    {
      var bit := Last();
      if bit && count > 0 {
        count := count - 1;
      } else if !bit {
        count := count + 1;
      }
      bits := bits[..|bits| - 1];
    }

    method Reset()
      modifies this
      ensures bits == old(bits) && it == 0 && count == 0
    {
      it, count := 0, 0;
    }

    method Reverse()
      modifies this
      ensures bits == Reversed(old(bits)) && it == old(it) && count == old(count)
    {
      bits := Reversed(bits);
    }

    method Append(stack: Stack)
      modifies this
      ensures bits == old(bits) + old(stack.bits) && it == old(it) && count == old(count)
    {
      bits := bits + stack.bits;
    }

    /** Pushing counts the bit, and writing counts it once more. */
    method WriteBit(bit: bool)
      modifies this
      ensures bits == old(bits) + [bit] && it == old(it) && count == Tick(2, old(count), bit)
    {
      PushBack(bit);
      if bit {
        count := count + 1;
      } else if count > 0 {
        count := count - 1;
      }
    }

    function PeekBit(): bool
      reads this
    {
      if it >= |bits| then false else bits[it]
    }

    method ReadBit() returns (bit: bool)
      requires it <= |bits|
      modifies this
      ensures bits == old(bits) && bit == old(PeekBit()) && count == Tick(1, old(count), bit)
      ensures it == if old(it) < |bits| then old(it) + 1 else old(it)
    {
      bit := PeekBit();
      if bit {
        count := count + 1;
      } else if count > 0 {
        count := count - 1;
      }
      if it != |bits| {
        it := it + 1;
      }
    }

    // ----- power encoding on the stack

    method Write(x: nat)
      modifies this
      ensures bits == old(bits) + Encoded(x) && it == old(it)
      ensures count == Tally(2, old(count), Encoded(x))
      decreases x
    {
      if x == 0 {
        WriteBit(false);
      } else {
        var power := Power(x);
        var remainder := Remainder(x);
        WriteBit(true);
        Write(power);
        Write(remainder);
        Associative(old(bits), [true] + Encoded(power), Encoded(remainder));
        Associative(old(bits), [true], Encoded(power));
      }
      TallyEncoded(2, old(count), x);
    }

    /** Writes a number as a key; the running count comes back to where it was. */
    method WriteNumber(x: nat)
      modifies this
      ensures bits == old(bits) + NumberKey(x) && it == old(it)
      ensures old(count) >= 0 ==> count == old(count)
    {
      WriteBit(true);
      Write(x);
      TallyNumberKey(2, old(count), x);
      NumberKeyIsKey(x);
      if old(count) >= 0 {
        TallyOfKey(2, old(count), NumberKey(x));
      }
    }

    /** Writes a string as a key. */
    method WriteString(s: Bytes)
      modifies this
      ensures bits == old(bits) + StringKey(s) && it == old(it)
      ensures old(count) >= 0 ==> count == old(count)
    {
      var count0 := count;
      WriteBit(true);
      var count1 := count;
      for i := 0 to |s|
        invariant bits + Characters(s[i..]) == old(bits) + StringKey(s) && it == old(it)
        invariant count0 >= 0 ==> count == count1
      {
        DropNext(s, i);
        Associative(bits, NumberKey(s[i] as nat), Characters(s[i + 1..]));
        WriteNumber(s[i] as nat);
      }
      WriteBit(false);
    }

    method Read() returns (x: nat)
      requires it <= |bits|
      modifies this
      ensures bits == old(bits) && old(it) <= it <= |bits| && (old(count) >= 0 ==> count >= 0)
      ensures Decoded(bits[old(it)..]) == (x, bits[it..])
      ensures forall n :: old(it) <= n <= |bits| && Closes(bits[old(it)..n]) ==>
                it == n && count == Tally(1, old(count), bits[old(it)..n])
      decreases |bits| - it
    {
      ghost var start := it;
      var bit := ReadBit();
      if !bit {
        forall n | start <= n <= |bits| && Closes(bits[start..n])
          ensures it == n && count == Tally(1, old(count), bits[start..n])
        {
          ClosesAtZero(bits[start..n]);
          TallyOne(1, old(count), false);
        }
        return 0;
      }
      ghost var first := it;
      DropNext(bits, start);
      var power := Read();
      ghost var second := it;
      ghost var count2 := count;
      var remainder := Read();
      x := Exp2(power) + remainder;
      DecodedPair(bits[start..], bits[second..], bits[it..], power, remainder);
      forall n | start <= n <= |bits| && Closes(bits[start..n])
        ensures it == n && count == Tally(1, old(count), bits[start..n])
      {
        var i := SplitRange(bits, start, n);
        assert Closes(bits[first..i]);
        TallyRange(old(count), bits, start, i, n);
      }
    }

    /** Reads a number key. From a key on, it reads exactly that key, whether it was written as a
        number or not, and brings the running count back to where it was; reading a written
        number gives the number. */
    method ReadNumber() returns (x: nat)
      requires it <= |bits|
      modifies this
      ensures bits == old(bits) && old(it) <= it <= |bits| && (old(count) >= 0 ==> count >= 0)
      ensures DecodedKey(bits[old(it)..]) == (x, bits[it..])
      ensures forall n :: old(it) <= n <= |bits| && IsKey(bits[old(it)..n]) ==>
                it == n && (old(count) >= 0 ==> count == old(count))
      ensures forall v: nat, rest: Word :: old(bits[it..]) == NumberKey(v) + rest ==>
                x == v && bits[it..] == rest && (old(count) >= 0 ==> count == old(count))
    {
      ghost var start := it;
      var one := ReadBit();
      assert start < |bits| ==> bits[start..][1..] == bits[it..];
      ghost var first := it;
      x := Read();
      forall n | start <= n <= |bits| && IsKey(bits[start..n])
        ensures it == n && (old(count) >= 0 ==> count == old(count))
      {
        KeyRange(bits, start, n);
        assert Closes(bits[first..n]);
        TallyFirst(old(count), bits, start, n);
        if old(count) >= 0 {
          TallyOfKey(1, old(count), bits[start..n]);
        }
      }
      forall v: nat, rest: Word | bits[start..] == NumberKey(v) + rest
        ensures x == v && bits[it..] == rest && (old(count) >= 0 ==> count == old(count))
      {
        NumberKeyRoundTrip(v, rest);
        NumberKeyIsKey(v);
        FrontRange(bits, start, NumberKey(v), rest);
      }
    }

    /** Reads number keys while there are ones, and then the closing zero. */
    method ReadCharacters() returns (s: seq<nat>)
      requires it <= |bits|
      modifies this
      ensures bits == old(bits) && old(it) <= it <= |bits| && (old(count) >= 0 ==> count >= 0)
      ensures DecodedCharacters(bits[old(it)..]) == (s, bits[it..])
      ensures forall n :: old(it) <= n <= |bits| && Closes(bits[old(it)..n]) ==>
                it == n && (old(count) >= 1 ==> count == old(count) - 1)
    {
      ghost var body, count1 := it, count;
      s := [];
      ghost var whole := DecodedCharacters(bits[it..]);
      while PeekBit()
        invariant bits == old(bits) && body <= it <= |bits| && (count1 >= 0 ==> count >= 0)
        invariant whole.0 == s + DecodedCharacters(bits[it..]).0 && whole.1 == DecodedCharacters(bits[it..]).1
        invariant forall n :: body <= n <= |bits| && Closes(bits[body..n]) ==>
                    it <= n && Closes(bits[it..n]) && (count1 >= 0 ==> count == count1)
        decreases |bits| - it
      {
        ghost var from, count0 := it, count;
        var c := ReadNumber();
        forall n | body <= n <= |bits| && Closes(bits[body..n])
          ensures it <= n && Closes(bits[it..n]) && (count1 >= 0 ==> count == count1)
        {
          var i := SplitNext(bits, from, n);
          assert IsKey(bits[from..i]);
        }
        assert DecodedCharacters(bits[from..]).0 == [c] + DecodedCharacters(bits[it..]).0;
        Associative(s, [c], DecodedCharacters(bits[it..]).0);
        s := s + [c];
      }
      ghost var last := it;
      CharactersEndAt(bits, last);
      Unit(s);
      var zero := ReadBit();
      forall n | body <= n <= |bits| && Closes(bits[body..n])
        ensures it == n && (count1 >= 1 ==> count == count1 - 1)
      {
        ClosesAtZero(bits[last..n]);
      }
    }

    /** Reads a string key. From a key on, it reads exactly that key, whether it was written as a
        string or not, and brings the running count back; reading a written string gives its
        bytes. */
    method ReadString() returns (s: seq<nat>)
      requires it <= |bits|
      modifies this
      ensures bits == old(bits) && old(it) <= it <= |bits| && (old(count) >= 0 ==> count >= 0)
      ensures DecodedString(bits[old(it)..]) == (s, bits[it..])
      ensures forall n :: old(it) <= n <= |bits| && IsKey(bits[old(it)..n]) ==>
                it == n && (old(count) >= 0 ==> count == old(count))
      ensures forall t: Bytes, rest: Word :: old(bits[it..]) == StringKey(t) + rest ==>
                s == Numbers(t) && bits[it..] == rest && (old(count) >= 0 ==> count == old(count))
    {
      ghost var start := it;
      var one := ReadBit();
      assert start < |bits| ==> bits[start..][1..] == bits[it..];
      ghost var body := it;
      s := ReadCharacters();
      forall n | start <= n <= |bits| && IsKey(bits[start..n])
        ensures it == n && (old(count) >= 0 ==> count == old(count))
      {
        KeyRange(bits, start, n);
        assert Closes(bits[body..n]);
      }
      forall t: Bytes, rest: Word | bits[start..] == StringKey(t) + rest
        ensures s == Numbers(t) && bits[it..] == rest && (old(count) >= 0 ==> count == old(count))
      {
        StringKeyRoundTrip(t, rest);
        StringKeyIsKey(t);
        FrontRange(bits, start, StringKey(t), rest);
      }
    }
  }
}
