/**
  The main results about Punycode: decoding undoes encoding, encoding undoes decoding of lower-case
  text, and short inputs never overflow.
 */
module PunycodeRoundTrip {
  import opened Punycode
  import opened PunycodeDeltas
  import opened PunycodeInsertions
  import opened PunycodeEncoding
  import opened Sequences

  // ----- code points

  lemma {:induction false} TextCharacters(ts: seq<Insertion>, n: nat, i: nat, bias: nat, len: nat)
    requires Ordered(ts, n, i, len) && i <= len
    ensures Lower(Text(ts, n, i, bias, len)) && DELIMITER !in Text(ts, n, i, bias, len)
    decreases |ts|
  {
    if ts != [] {
      var delta := Gap(ts[0], n, i, len);
      DeltaCharacters(delta, bias);
      TextCharacters(ts[1..], ts[0].cp, ts[0].pos + 1, Adapted(delta, len + 1, i == 0), len + 1);
    }
  }

  /** What the encoder emits, if it does not overflow. */
  lemma EncodedText(cps: seq<nat>)
    requires InRange(cps)
    ensures Basics(cps) == Under(cps, INITIAL_N) && Ordered(RoundInsertions(cps, INITIAL_N), INITIAL_N, 0, |Basics(cps)|)
    ensures EncodedPoints(cps) == Overflow
            || EncodedPoints(cps) == Ok(Head(Basics(cps)) + Text(RoundInsertions(cps, INITIAL_N), INITIAL_N, 0, INITIAL_BIAS, |Basics(cps)|))
  {
    var basics := Basics(cps);
    BasicsAreUnder(cps);
    RoundText(cps, INITIAL_N, |basics|, Emission(0, INITIAL_BIAS, |basics|, Head(basics)), INITIAL_N, 0);
  }

  /** The decoder finds where the basic code points end. */
  lemma LastDelimiterOfHead(basics: seq<nat>, text: CodeUnits)
    requires DELIMITER !in text
    ensures LastDelimiter(Head(basics) + text) == |basics|
  {
    var s := Head(basics) + text;
    if basics == [] {
      assert s == text;
    } else {
      assert s[|basics|] == DELIMITER;
      assert forall i :: |basics| < i < |s| ==> s[i] == text[i - |basics| - 1];
    }
  }

  lemma DecodedHead(basics: seq<nat>, text: CodeUnits)
    requires (forall c :: c in basics ==> c < INITIAL_N) && DELIMITER !in text
    ensures DecodedPoints(Head(basics) + text) == DecodedFrom(text, Start(basics))
  {
    var s := Head(basics) + text;
    LastDelimiterOfHead(basics, text);
    DigitsAfterHead(basics, text);
    assert s[if |basics| > 0 then |basics| + 1 else 0..] == text;
    assert s[..|basics|] == basics;
    forall j | 0 <= j < |basics|
      ensures s[j] == basics[j] && s[j] < INITIAL_N
    {
      assert basics[j] in basics;
    }
  }

  lemma {:induction false} UnderBelow(cps: seq<nat>, n: nat)
    ensures forall c :: c in Under(cps, n) ==> c < n
  {
    UnderTopped(cps, n, 0);
  }

  /** Decoding what was encoded gives the code points back, or overflows. */
  lemma PointsRoundTrip(cps: seq<nat>)
    requires InRange(cps) && EncodedPoints(cps).Ok?
    ensures DecodedPoints(EncodedPoints(cps).value) in {Overflow, Ok(cps)}
  {
    var basics, ts := Basics(cps), RoundInsertions(cps, INITIAL_N);
    EncodedText(cps);
    UnderBelow(cps, INITIAL_N);
    RoundBuilds(cps, INITIAL_N, INITIAL_N, 0);
    TextCharacters(ts, INITIAL_N, 0, INITIAL_BIAS, |basics|);
    DecodedHead(basics, Text(ts, INITIAL_N, 0, INITIAL_BIAS, |basics|));
    DecodeText(ts, Start(basics));
  }

  /** Where the digits begin. */
  function DigitsFrom(input: CodeUnits): (r: nat)
    ensures r <= |input|
  {
    var b := LastDelimiter(input);
    if b > 0 then b + 1 else 0
  }

  predicate LowerDigits(input: CodeUnits) {
    Lower(input[DigitsFrom(input)..])
  }

  lemma {:induction false} UnderConcat(u: seq<nat>, v: seq<nat>, n: nat)
    ensures Under(u + v, n) == Under(u, n) + Under(v, n)
  {
    if u == [] {
      assert u + v == v;
    } else {
      UnderConcat(u[1..], v, n);
      ConcatTail(u, v);
      Associative(if u[0] < n then [u[0]] else [], Under(u[1..], n), Under(v, n));
    }
  }

  lemma UnderInserted(output: seq<nat>, pos: nat, c: nat, n: nat)
    requires pos <= |output| && n <= c
    ensures Under(Inserted(output, pos, c), n) == Under(output, n)
  {
    UnderConcat(output[..pos] + [c], output[pos..], n);
    UnderPush(output[..pos], c, n);
    UnderConcat(output[..pos], output[pos..], n);
    assert output == output[..pos] + output[pos..];
  }

  lemma {:induction false} BasicsKept(output: seq<nat>, ts: seq<Insertion>, n: nat, i: nat)
    requires Ordered(ts, n, i, |output|) && INITIAL_N <= n
    ensures Fitting(ts, |output|) && Under(InsertedAll(output, ts), INITIAL_N) == Under(output, INITIAL_N)
    decreases |ts|
  {
    if ts != [] {
      UnderInserted(output, ts[0].pos, ts[0].cp, INITIAL_N);
      BasicsKept(Inserted(output, ts[0].pos, ts[0].cp), ts[1..], ts[0].cp, ts[0].pos + 1);
    }
  }

  lemma {:induction false} UnderIsAll(cps: seq<nat>, n: nat)
    requires forall c :: c in cps ==> c < n
    ensures Under(cps, n) == cps
  {
    if cps != [] {
      assert cps[0] in cps && forall c :: c in cps[1..] ==> c in cps;
      UnderIsAll(cps[1..], n);
      assert cps == [cps[0]] + cps[1..];
    }
  }

  /** What a decoded input was: its basic code points and the text of the insertions the encoder makes. */
  lemma DecodedText(input: CodeUnits, cps: seq<nat>)
    requires DecodedPoints(input) == Ok(cps) && InRange(cps) && LowerDigits(input)
    ensures Ordered(RoundInsertions(cps, INITIAL_N), INITIAL_N, 0, |Basics(cps)|)
    ensures input == Head(Basics(cps)) + Text(RoundInsertions(cps, INITIAL_N), INITIAL_N, 0, INITIAL_BIAS, |Basics(cps)|)
  {
    var b, from := LastDelimiter(input), DigitsFrom(input);
    var basics, text := input[..b], input[from..];
    assert forall j :: 0 <= j < b ==> basics[j] == input[j] && input[j] < INITIAL_N;
    assert input == Head(basics) + text;
    var ts := DecodedIsText(text, Start(basics));
    BasicsKept(basics, ts, INITIAL_N, 0);
    UnderIsAll(basics, INITIAL_N);
    BasicsAreUnder(cps);
    RoundBuilds(cps, INITIAL_N, INITIAL_N, 0);
    InsertionsUnique(ts, RoundInsertions(cps, INITIAL_N), INITIAL_N, 0, basics);
  }

  /** Encoding what was decoded gives lower-case input back, or overflows. */
  lemma PointsConverse(input: CodeUnits, cps: seq<nat>)
    requires DecodedPoints(input) == Ok(cps) && InRange(cps) && EncodedPoints(cps).Ok?
    ensures EncodedPoints(cps) == Ok(input) <==> LowerDigits(input)
  {
    EncodedText(cps);
    if LowerDigits(input) {
      DecodedText(input, cps);
    }
    if EncodedPoints(cps) == Ok(input) {
      EncodedIsLower(cps);
    }
  }

  lemma EncodedIsLower(cps: seq<nat>)
    requires InRange(cps) && EncodedPoints(cps).Ok?
    ensures LowerDigits(EncodedPoints(cps).value)
  {
    var basics, ts := Basics(cps), RoundInsertions(cps, INITIAL_N);
    EncodedText(cps);
    TextCharacters(ts, INITIAL_N, 0, INITIAL_BIAS, |basics|);
    var text := Text(ts, INITIAL_N, 0, INITIAL_BIAS, |basics|);
    DigitsAfterHead(basics, text);
  }

  lemma DigitsAfterHead(basics: seq<nat>, text: CodeUnits)
    requires DELIMITER !in text
    ensures (Head(basics) + text)[DigitsFrom(Head(basics) + text)..] == text
  {
    LastDelimiterOfHead(basics, text);
  }

  /** No two lower-case inputs decode to the same code points. */
  lemma DecodingInjective(a: CodeUnits, b: CodeUnits)
    requires DecodedPoints(a).Ok? && DecodedPoints(a) == DecodedPoints(b) && InRange(DecodedPoints(a).value)
    requires LowerDigits(a) && LowerDigits(b)
    ensures a == b
  {
    DecodedText(a, DecodedPoints(a).value);
    DecodedText(b, DecodedPoints(b).value);
  }

  // ----- strings

  lemma PairUnits(high: nat, low: nat)
    requires IsHigh(high) && IsLow(low)
    ensures 0x10000 <= Pair(high, low) <= MAX_CODE_POINT && Units(Pair(high, low)) == [high, low]
  {
  }

  lemma UnitsPair(cp: nat)
    requires 0x10000 <= cp <= MAX_CODE_POINT
    ensures |Units(cp)| == 2 && IsHigh(Units(cp)[0]) && IsLow(Units(cp)[1]) && Pair(Units(cp)[0], Units(cp)[1]) == cp
  {
  }

  /** Every string of code units is the string of its code points. */
  lemma {:induction false} StringOfCodePoints(s: CodeUnits)
    requires forall u :: u in s ==> u < 0x10000
    ensures FromCodePoints(CodePoints(s)) == s
  {
    if s != [] {
      assert s[0] in s;
      if |s| > 1 && IsHigh(s[0]) && IsLow(s[1]) {
        assert forall u :: u in s[2..] ==> u in s;
        StringOfCodePoints(s[2..]);
        PairUnits(s[0], s[1]);
        Cons(Pair(s[0], s[1]), CodePoints(s[2..]));
        assert s[..2] == [s[0], s[1]];
        TakeDrop(s, 2);
      } else {
        assert forall u :: u in s[1..] ==> u in s;
        StringOfCodePoints(s[1..]);
        Cons(s[0], CodePoints(s[1..]));
        assert s[..1] == [s[0]];
        TakeDrop(s, 1);
      }
    }
  }

  /** Two neighbouring code points that a string would join into one. */
  predicate Joins(cps: seq<nat>) {
    exists k :: 0 <= k < |cps| - 1 && JoinsAt(cps, k)
  }

  predicate JoinsAt(cps: seq<nat>, k: nat)
    requires k < |cps| - 1
  {
    IsHigh(cps[k]) && IsLow(cps[k + 1])
  }

  lemma JoinsCons(cps: seq<nat>)
    requires |cps| > 0
    ensures Joins(cps) <==> Joins(cps[1..]) || (|cps| > 1 && JoinsAt(cps, 0))
  {
    if Joins(cps) {
      var k :| 0 <= k < |cps| - 1 && JoinsAt(cps, k);
      assert k > 0 ==> JoinsAt(cps[1..], k - 1);
    }
    if Joins(cps[1..]) {
      var k :| 0 <= k < |cps[1..]| - 1 && JoinsAt(cps[1..], k);
      assert JoinsAt(cps, k + 1);
    }
  }

  lemma {:induction false} FromCodePointsHead(cps: seq<nat>)
    requires InRange(cps) && cps != []
    ensures var s := FromCodePoints(cps);
            s != [] && (IsLow(s[0]) <==> IsLow(cps[0])) && s[0] < 0x10000 && (cps[0] < 0x10000 ==> s[0] == cps[0])
  {
    assert cps[0] in cps;
    if cps[0] >= 0x10000 {
      UnitsPair(cps[0]);
    }
  }

  lemma {:induction false} UnitsInRange(cps: seq<nat>)
    requires InRange(cps)
    ensures forall u :: u in FromCodePoints(cps) ==> u < 0x10000
  {
    if cps != [] {
      assert cps[0] in cps && forall c :: c in cps[1..] ==> c in cps;
      UnitsInRange(cps[1..]);
      assert forall u :: u in Units(cps[0]) ==> u < 0x10000;
      forall u | u in Units(cps[0]) + FromCodePoints(cps[1..])
        ensures u < 0x10000
      {
        assert u in Units(cps[0]) || u in FromCodePoints(cps[1..]);
      }
    }
  }

  /** The string of code points, taken apart after one code point or after two that join. */
  lemma CodePointsHead(cps: seq<nat>)
    requires InRange(cps) && cps != []
    ensures |cps| > 1 && JoinsAt(cps, 0) ==>
              CodePoints(FromCodePoints(cps)) == [Pair(cps[0], cps[1])] + CodePoints(FromCodePoints(cps[2..]))
    ensures !(|cps| > 1 && JoinsAt(cps, 0)) ==>
              CodePoints(FromCodePoints(cps)) == [cps[0]] + CodePoints(FromCodePoints(cps[1..]))
  {
    assert cps[0] in cps && forall c :: c in cps[1..] ==> c in cps;
    if cps[0] >= 0x10000 {
      LargeHead(cps);
    } else if |cps| > 1 && JoinsAt(cps, 0) {
      JoinedHead(cps);
    } else {
      Cons(cps[0], FromCodePoints(cps[1..]));
      if |cps| > 1 {
        FromCodePointsHead(cps[1..]);
      }
    }
  }

  lemma LargeHead(cps: seq<nat>)
    requires cps != [] && 0x10000 <= cps[0] <= MAX_CODE_POINT
    ensures CodePoints(FromCodePoints(cps)) == [cps[0]] + CodePoints(FromCodePoints(cps[1..]))
  {
    var s, rest := FromCodePoints(cps), FromCodePoints(cps[1..]);
    UnitsPair(cps[0]);
    assert s[0] == Units(cps[0])[0] && s[1] == Units(cps[0])[1] && s[2..] == rest;
  }

  lemma JoinedHead(cps: seq<nat>)
    requires |cps| > 1 && JoinsAt(cps, 0)
    ensures CodePoints(FromCodePoints(cps)) == [Pair(cps[0], cps[1])] + CodePoints(FromCodePoints(cps[2..]))
  {
    var s, rest := FromCodePoints(cps), FromCodePoints(cps[2..]);
    assert cps[1..][0] == cps[1] && cps[1..][1..] == cps[2..];
    assert FromCodePoints(cps[1..]) == [cps[1]] + rest;
    assert s == [cps[0]] + ([cps[1]] + rest);
    assert s[0] == cps[0] && s[1] == cps[1] && s[2..] == rest;
  }

  lemma {:induction false} CodePointsNotMore(cps: seq<nat>)
    requires InRange(cps)
    ensures |CodePoints(FromCodePoints(cps))| <= |cps|
    decreases |cps|
  {
    if cps != [] {
      CodePointsHead(cps);
      if |cps| > 1 && JoinsAt(cps, 0) {
        assert forall c :: c in cps[2..] ==> c in cps;
        CodePointsNotMore(cps[2..]);
      } else {
        assert forall c :: c in cps[1..] ==> c in cps;
        CodePointsNotMore(cps[1..]);
      }
    }
  }

  /** A string has the code points it was made of exactly when no neighbours join. */
  lemma {:induction false} CodePointsOfString(cps: seq<nat>)
    requires InRange(cps)
    ensures CodePoints(FromCodePoints(cps)) == cps <==> !Joins(cps)
    decreases |cps|
  {
    if cps != [] {
      JoinsCons(cps);
      CodePointsHead(cps);
      if |cps| > 1 && JoinsAt(cps, 0) {
        assert forall c :: c in cps[2..] ==> c in cps;
        CodePointsNotMore(cps[2..]);
      } else {
        assert forall c :: c in cps[1..] ==> c in cps;
        CodePointsOfString(cps[1..]);
        ConsEqual(cps[0], CodePoints(FromCodePoints(cps[1..])), cps);
      }
    }
  }

  lemma ConsEqual(c: nat, rest: seq<nat>, cps: seq<nat>)
    requires cps != [] && cps[0] == c
    ensures [c] + rest == cps <==> rest == cps[1..]
  {
    assert cps == [c] + cps[1..];
    assert ([c] + rest)[1..] == rest;
  }

  /** Decoding an encoded string gives the string back, or overflows. */
  lemma RoundTrip(s: CodeUnits)
    requires (forall u :: u in s ==> u < 0x10000) && Encoded(s).Ok?
    ensures Decoded(Encoded(s).value) in {Overflow, Ok(s)}
  {
    CodePointsInRange(s);
    PointsRoundTrip(CodePoints(s));
    StringOfCodePoints(s);
  }

  /** Encoding a decoded string gives the input back exactly when its digits are lower case and no
      two decoded code points join in the string, unless the encoder overflows. */
  lemma Converse(input: CodeUnits)
    requires Decoded(input).Ok?
    ensures DecodedPoints(input).Ok? && forall u :: u in Decoded(input).value ==> u < 0x10000
    ensures Encoded(Decoded(input).value).Ok? ==>
              (Encoded(Decoded(input).value) == Ok(input) <==> LowerDigits(input) && !Joins(DecodedPoints(input).value))
  {
    var cps := DecodedPoints(input).value;
    var s := Decoded(input).value;
    UnitsInRange(cps);
    CodePointsOfString(cps);
    CodePointsInRange(s);
    if Encoded(s).Ok? {
      if CodePoints(s) == cps {
        PointsConverse(input, cps);
      } else if Encoded(s) == Ok(input) {
        PointsRoundTrip(CodePoints(s));
      }
    }
  }
}
