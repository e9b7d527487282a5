/**
  Punycode on short inputs: no overflow guard of the encoder fires, and none of the decoder on what
  was encoded (section 6.4 of RFC 3492).
 */
module PunycodeBounds {
  import opened Arithmetic
  import opened Punycode
  import opened PunycodeDeltas
  import opened PunycodeInsertions
  import opened PunycodeEncoding
  import opened PunycodeRoundTrip

  /** Few enough code points that the encoder's delta stays within range. */
  predicate FewToEncode(cps: seq<nat>) {
    (MAX_CODE_POINT + 1) * (|cps| + 1) <= MAX_INT
  }

  lemma {:induction false} PassInBounds(cps: seq<nat>, j: nat, n: nat, points: nat, basic: nat, e: Emission)
    requires InRange(cps) && FewToEncode(cps) && j <= |cps| && n <= MAX_CODE_POINT && points > 0
    requires e.delta <= n * (|cps| + 1) + j
    ensures var r := Pass(cps, j, n, points, basic, e);
            r.Ok? && r.value.delta <= n * (|cps| + 1) + |cps|
    decreases |cps| - j
  {
    MultiplyMonotone(n, MAX_CODE_POINT, |cps| + 1);
    MultiplyMonotone(0, n, |cps| + 1);
    if j < |cps| {
      if cps[j] < n {
        PassInBounds(cps, j + 1, n, points, basic, e.(delta := e.delta + 1));
      } else if cps[j] == n {
        PassInBounds(cps, j + 1, n, points, basic,
                     Emission(0, Adapted(e.delta, points, e.handled == basic), e.handled + 1, e.text + DeltaText(e.delta, e.bias)));
      } else {
        PassInBounds(cps, j + 1, n, points, basic, e);
      }
    }
  }

  /** The guard of a round lets the growth through. */
  lemma RoundInBounds(m: nat, n: nat, delta: nat, points: nat, most: nat)
    requires n <= m <= MAX_CODE_POINT && 0 < points <= most && delta <= n * most && (MAX_CODE_POINT + 1) * most <= MAX_INT
    ensures m - n <= (MAX_INT - delta) / points
    ensures delta + (m - n) * points <= m * most
  {
    MultiplyMonotone(points, most, m - n);
    Growth(m, n, 0, most);
    MultiplyMonotone(m, MAX_CODE_POINT + 1, most);
    FitsQuotient(m - n, points, MAX_INT - delta);
  }

  lemma {:induction false} PassesInBounds(cps: seq<nat>, n: nat, basic: nat, e: Emission)
    requires InRange(cps) && FewToEncode(cps) && e.handled == CountBelow(cps, n) && e.delta <= n * (|cps| + 1)
    ensures Passes(cps, n, basic, e).Ok?
    decreases |cps| - CountBelow(cps, n)
  {
    if e.handled < |cps| {
      var m, p := OneRound(cps, n, basic, e);
      PassesInBounds(cps, m + 1, basic, p.(delta := p.delta + 1));
    }
  }

  /** One round stays in bounds and leaves the encoder ready for the next. */
  lemma OneRound(cps: seq<nat>, n: nat, basic: nat, e: Emission) returns (m: nat, p: Emission)
    requires InRange(cps) && FewToEncode(cps) && e.handled == CountBelow(cps, n) && e.delta <= n * (|cps| + 1)
    requires e.handled < |cps|
    ensures CountBelow(cps, n) < CountBelow(cps, m + 1) <= |cps|
    ensures p.handled == CountBelow(cps, m + 1) && p.delta + 1 <= (m + 1) * (|cps| + 1)
    ensures Passes(cps, n, basic, e) == Passes(cps, m + 1, basic, p.(delta := p.delta + 1))
  {
    m := Smallest(cps, n);
    NextPass(cps, n);
    RoundInBounds(m, n, e.delta, e.handled + 1, |cps| + 1);
    MultiplyMonotone(0, m - n, e.handled + 1);
    PassInBounds(cps, 0, m, e.handled + 1, basic, Grown(e, m - n));
    PassesStep(cps, n, basic, e, m);
    p := Pass(cps, 0, m, e.handled + 1, basic, Grown(e, m - n)).value;
    NextMultiple(m, 0, |cps| + 1);
  }

  lemma EncodeInBounds(cps: seq<nat>)
    requires InRange(cps) && FewToEncode(cps)
    ensures EncodedPoints(cps).Ok?
  {
    var basics := Basics(cps);
    BasicsCount(cps);
    PassesInBounds(cps, INITIAL_N, |basics|, Emission(0, INITIAL_BIAS, |basics|, Head(basics)));
  }

  // ----- decoding what was encoded

  const FEW := 55

  lemma GapInBounds(t: Insertion, d: Decoding)
    requires Onward(t, d.n, d.i, |d.output|) && d.i <= |d.output| < FEW && t.cp <= MAX_CODE_POINT
    ensures Insertable(t, d)
  {
    var n, i, len := d.n, d.i, |d.output|;
    LastWeightBound(Gap(t, n, i, len), d.bias, BASE, 1, Gap(t, n, i, len));
    var steps: nat := t.cp - n;
    MultiplyMonotone(len + 1, FEW, steps);
    var product := steps * (len + 1);
    assert product <= FEW * MAX_CODE_POINT;
    assert Gap(t, n, i, len) == product + t.pos - i;
  }

  lemma {:induction false} DecodeInBounds(ts: seq<Insertion>, d: Decoding)
    requires Ordered(ts, d.n, d.i, |d.output|) && d.i <= |d.output| && |d.output| + |ts| <= FEW
    requires forall t :: t in ts ==> t.cp <= MAX_CODE_POINT
    ensures DecodedFrom(TextFrom(ts, d), d).Ok?
    decreases |ts|
  {
    if ts != [] {
      assert ts[0] in ts && forall u :: u in ts[1..] ==> u in ts;
      GapInBounds(ts[0], d);
      FirstInsertion(ts, d, TextFrom(ts[1..], After(ts[0], d)));
      DecodeInBounds(ts[1..], After(ts[0], d));
    }
  }

  lemma {:induction false} InsertionsAreElements(output: seq<nat>, ts: seq<Insertion>)
    requires Fitting(ts, |output|)
    ensures forall c :: c in output ==> c in InsertedAll(output, ts)
    ensures forall t :: t in ts ==> t.cp in InsertedAll(output, ts)
    decreases |ts|
  {
    if ts != [] {
      var next := Inserted(output, ts[0].pos, ts[0].cp);
      assert next[ts[0].pos] == ts[0].cp;
      assert output == output[..ts[0].pos] + output[ts[0].pos..];
      InsertionsAreElements(next, ts[1..]);
      forall t | t in ts
        ensures t.cp in InsertedAll(output, ts)
      {
        assert t == ts[0] || t in ts[1..];
      }
    }
  }

  /** Few code points survive the round trip without any overflow. */
  lemma ShortPoints(cps: seq<nat>)
    requires InRange(cps) && |cps| <= FEW
    ensures EncodedPoints(cps).Ok? && DecodedPoints(EncodedPoints(cps).value) == Ok(cps)
  {
    var basics, ts := Basics(cps), RoundInsertions(cps, INITIAL_N);
    EncodeInBounds(cps);
    PointsRoundTrip(cps);
    EncodedText(cps);
    RoundBuilds(cps, INITIAL_N, INITIAL_N, 0);
    UnderBelow(cps, INITIAL_N);
    InsertedLength(basics, ts);
    InsertionsAreElements(basics, ts);
    TextCharacters(ts, INITIAL_N, 0, INITIAL_BIAS, |basics|);
    DecodedHead(basics, Text(ts, INITIAL_N, 0, INITIAL_BIAS, |basics|));
    DecodeInBounds(ts, Start(basics));
  }

  lemma {:induction false} NotMorePoints(s: CodeUnits)
    ensures |CodePoints(s)| <= |s|
  {
    if s != [] {
      if |s| > 1 && IsHigh(s[0]) && IsLow(s[1]) {
        NotMorePoints(s[2..]);
      } else {
        NotMorePoints(s[1..]);
      }
    }
  }

  /** A short string is encoded without overflow, and decoding gives it back without overflow. */
  lemma ShortRoundTrip(s: CodeUnits)
    requires (forall u :: u in s ==> u < 0x10000) && |CodePoints(s)| <= FEW
    ensures Encoded(s).Ok? && Decoded(Encoded(s).value) == Ok(s)
  {
    CodePointsInRange(s);
    ShortPoints(CodePoints(s));
    StringOfCodePoints(s);
  }

  /** What decodes to few enough code points is encoded without overflow, so the input comes back
      exactly when its digits are lower case and no two decoded code points join. */
  lemma ShortConverse(input: CodeUnits)
    requires Decoded(input).Ok? && FewToEncode(Decoded(input).value)
    ensures (forall u :: u in Decoded(input).value ==> u < 0x10000) && DecodedPoints(input).Ok?
    ensures Encoded(Decoded(input).value) == Ok(input) <==> LowerDigits(input) && !Joins(DecodedPoints(input).value)
  {
    Converse(input);
    var s := Decoded(input).value;
    CodePointsInRange(s);
    NotMorePoints(s);
    MultiplyMonotone(|CodePoints(s)| + 1, |s| + 1, MAX_CODE_POINT + 1);
    EncodeInBounds(CodePoints(s));
  }
}
