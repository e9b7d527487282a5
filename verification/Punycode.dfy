/**
  Punycode (RFC 3492): the encoder and the decoder with their overflow guards. A JavaScript
  string is a sequence of 16-bit code units; its numbers stay exact integers here.
 */
module Punycode {
  import opened Arithmetic
  import opened Sequences

  const MAX_INT: nat := 2147483647
  const BASE := 36
  const T_MIN := 1
  const T_MAX := 26
  const SKEW := 38
  const DAMP := 700
  const INITIAL_BIAS := 72
  const INITIAL_N := 128
  const DELIMITER := 45
  const MAX_CODE_POINT := 0x10FFFF

  type CodeUnits = seq<nat>

  datatype Result<+T> = Ok(value: T) | Overflow | NotBasic | InvalidInput | InvalidCodePoint

  // ----- UTF-16

  predicate IsHigh(u: nat) {
    0xD800 <= u <= 0xDBFF
  }

  predicate IsLow(u: nat) {
    0xDC00 <= u <= 0xDFFF
  }

  function Pair(high: nat, low: nat): nat {
    (high % 0x400) * 0x400 + low % 0x400 + 0x10000
  }

  /** The code points of a string; an unmatched surrogate stands for itself. */
  function CodePoints(s: CodeUnits): seq<nat> {
    if s == [] then []
    else if IsHigh(s[0]) && |s| > 1 && IsLow(s[1]) then [Pair(s[0], s[1])] + CodePoints(s[2..])
    else [s[0]] + CodePoints(s[1..])
  }

  function Units(cp: nat): CodeUnits {
    if cp < 0x10000 then [cp]
    else [0xD800 + (cp - 0x10000) / 0x400, 0xDC00 + (cp - 0x10000) % 0x400]
  }

  /** The string of a sequence of code points. */
  function FromCodePoints(cps: seq<nat>): CodeUnits {
    if cps == [] then [] else Units(cps[0]) + FromCodePoints(cps[1..])
  }

  method Ucs2Decode(s: CodeUnits) returns (output: seq<nat>)
    requires forall u :: u in s ==> u < 0x10000
    ensures output == CodePoints(s)
  {
    output := [];
    var counter := 0;
    ghost var goal := CodePoints(s);
    assert s[0..] == s;
    while counter < |s|
      invariant counter <= |s| && output + CodePoints(s[counter..]) == goal
    {
      CodePointsFrom(s, output, counter);
      var value := s[counter];
      counter := counter + 1;
      if 0xD800 <= value <= 0xDBFF && counter < |s| {
        var extra := s[counter];
        counter := counter + 1;
        if 0xDC00 <= extra < 0xE000 {
          output := output + [Pair(value, extra)];
        } else {
          counter := counter - 1;
          output := output + [value];
        }
      } else {
        output := output + [value];
      }
    }
  }

  lemma CodePointsFrom(s: CodeUnits, output: seq<nat>, i: nat)
    requires i < |s|
    ensures output + CodePoints(s[i..]) ==
            if IsHigh(s[i]) && i + 1 < |s| && IsLow(s[i + 1]) then output + [Pair(s[i], s[i + 1])] + CodePoints(s[i + 2..])
            else output + [s[i]] + CodePoints(s[i + 1..])
  {
    var rest := s[i..];
    assert rest[0] == s[i] && rest[1..] == s[i + 1..];
    if IsHigh(s[i]) && i + 1 < |s| && IsLow(s[i + 1]) {
      assert rest[1] == s[i + 1] && rest[2..] == s[i + 2..];
      Associative(output, [Pair(s[i], s[i + 1])], CodePoints(s[i + 2..]));
    } else {
      Associative(output, [s[i]], CodePoints(s[i + 1..]));
    }
  }

  // ----- digits and thresholds

  function BasicToDigit(c: nat): nat {
    if 0x30 <= c < 0x3A then 26 + (c - 0x30)
    else if 0x41 <= c < 0x5B then c - 0x41
    else if 0x61 <= c < 0x7B then c - 0x61
    else BASE
  }

  function DigitToBasic(digit: nat): nat
    requires digit < BASE
  {
    digit + 22 + if digit < 26 then 75 else 0
  }

  function Threshold(k: nat, bias: nat): (t: nat)
    ensures T_MIN <= t <= T_MAX
  {
    if k <= bias then T_MIN else if k >= bias + T_MAX then T_MAX else k - bias
  }

  function AdaptLoop(delta: nat, k: nat): nat
    decreases delta
  {
    if delta > ((BASE - T_MIN) * T_MAX) / 2 then AdaptLoop(delta / (BASE - T_MIN), k + BASE)
    else k + (BASE - T_MIN + 1) * delta / (delta + SKEW)
  }

  /** The bias after a delta, section 3.4 of RFC 3492. */
  function Adapted(delta: nat, numPoints: nat, firstTime: bool): nat
    requires numPoints > 0
  {
    var d := if firstTime then delta / DAMP else delta / 2;
    QuotientAtMost(d, numPoints);
    AdaptLoop(d + d / numPoints, 0)
  }

  method Adapt(delta0: nat, numPoints: nat, firstTime: bool) returns (bias: nat)
    requires numPoints > 0 && delta0 <= MAX_INT
    ensures bias == Adapted(delta0, numPoints, firstTime)
  {
    var k: nat := 0;
    var delta: nat := if firstTime then delta0 / DAMP else delta0 / 2;
    QuotientAtMost(delta, numPoints);
    delta := delta + delta / numPoints;
    while delta > ((BASE - T_MIN) * T_MAX) / 2
      invariant AdaptLoop(delta, k) == Adapted(delta0, numPoints, firstTime)
      decreases delta
    {
      delta := delta / (BASE - T_MIN);
      k := k + BASE;
    }
    bias := k + (BASE - T_MIN + 1) * delta / (delta + SKEW);
  }

  /** A number as digits, least significant first; the thresholds tell where it ends. */
  function Digits(q: nat, bias: nat, k: nat): (r: seq<nat>)
    ensures forall i :: 0 <= i < |r| ==> r[i] < BASE
    decreases q
  {
    var t := Threshold(k, bias);
    if q < t then [q]
    else
      QuotientAtMost(q - t, BASE - t);
      [t + (q - t) % (BASE - t)] + Digits((q - t) / (BASE - t), bias, k + BASE)
  }

  function Characters(digits: seq<nat>): (s: CodeUnits)
    requires forall i :: 0 <= i < |digits| ==> digits[i] < BASE
    ensures |s| == |digits| && forall i :: 0 <= i < |s| ==> s[i] == DigitToBasic(digits[i])
  {
    seq(|digits|, i requires 0 <= i < |digits| => DigitToBasic(digits[i]))
  }

  function DeltaText(delta: nat, bias: nat): CodeUnits {
    Characters(Digits(delta, bias, BASE))
  }

  // ----- encoding

  function Basics(cps: seq<nat>): seq<nat> {
    if cps == [] then []
    else Basics(cps[..|cps| - 1]) + if cps[|cps| - 1] < INITIAL_N then [cps[|cps| - 1]] else []
  }

  /** The smallest code point that is at least n and below the largest integer. */
  function Smallest(cps: seq<nat>, n: nat): (m: nat)
    ensures m <= MAX_INT && (m == MAX_INT || (m in cps && n <= m))
    ensures forall c :: c in cps && n <= c ==> m <= c
  {
    if cps == [] then MAX_INT
    else
      var last := cps[|cps| - 1];
      var m := Smallest(cps[..|cps| - 1], n);
      assert forall c :: c in cps ==> c in cps[..|cps| - 1] || c == last;
      if n <= last < m then last else m
  }

  /** How many code points are below n. */
  function CountBelow(cps: seq<nat>, n: nat): (c: nat)
    ensures c <= |cps|
  {
    if cps == [] then 0 else (if cps[0] < n then 1 else 0) + CountBelow(cps[1..], n)
  }

  lemma {:induction false} CountBelowStrict(cps: seq<nat>, n: nat, m: nat)
    requires n <= m
    ensures CountBelow(cps, n) <= CountBelow(cps, m)
    ensures n in cps && n < m ==> CountBelow(cps, n) < CountBelow(cps, m)
    ensures CountBelow(cps, n) < |cps| ==> exists c :: c in cps && n <= c
  {
    if cps != [] {
      CountBelowStrict(cps[1..], n, m);
      assert cps == [cps[0]] + cps[1..];
      if CountBelow(cps, n) < |cps| {
        if cps[0] >= n { assert cps[0] in cps; } else {
          var c :| c in cps[1..] && n <= c;
          assert c in cps;
        }
      }
    }
  }

  /** What the state of the encoder has become, and the text it has added. */
  datatype Emission = Emission(delta: nat, bias: nat, handled: nat, text: CodeUnits)

  /** One pass over the input from position j: counts smaller code points and emits the delta
      of each code point equal to n. `points` is the number of handled code points plus one when
      the pass began. */
  function Pass(cps: seq<nat>, j: nat, n: nat, points: nat, basic: nat, e: Emission): (r: Result<Emission>)
    requires j <= |cps| && points > 0
    decreases |cps| - j
  {
    if j == |cps| then Ok(e)
    else if cps[j] < n then
      (if e.delta + 1 > MAX_INT then Overflow else Pass(cps, j + 1, n, points, basic, e.(delta := e.delta + 1)))
    else if cps[j] == n then
      Pass(cps, j + 1, n, points, basic,
           Emission(0, Adapted(e.delta, points, e.handled == basic), e.handled + 1, e.text + DeltaText(e.delta, e.bias)))
    else Pass(cps, j + 1, n, points, basic, e)
  }

  lemma {:induction false} PassHandles(cps: seq<nat>, j: nat, n: nat, points: nat, basic: nat, e: Emission)
    requires j <= |cps| && points > 0 && Pass(cps, j, n, points, basic, e).Ok?
    ensures Pass(cps, j, n, points, basic, e).value.handled ==
            e.handled + CountBelow(cps[j..], n + 1) - CountBelow(cps[j..], n)
    decreases |cps| - j
  {
    if j < |cps| {
      assert cps[j..][0] == cps[j] && cps[j..][1..] == cps[j + 1..];
      if cps[j] < n {
        PassHandles(cps, j + 1, n, points, basic, e.(delta := e.delta + 1));
      } else if cps[j] == n {
        PassHandles(cps, j + 1, n, points, basic,
                    Emission(0, Adapted(e.delta, points, e.handled == basic), e.handled + 1, e.text + DeltaText(e.delta, e.bias)));
      } else {
        PassHandles(cps, j + 1, n, points, basic, e);
      }
    }
  }

  /** The delta grown to stand at the next code point. */
  function Grown(e: Emission, gap: nat): Emission {
    e.(delta := e.delta + gap * (e.handled + 1))
  }

  lemma PassAdvances(cps: seq<nat>, n: nat, m: nat, basic: nat, e: Emission)
    requires e.handled == CountBelow(cps, n) && m in cps && n <= m && forall c :: c in cps && n <= c ==> m <= c
    requires Pass(cps, 0, m, e.handled + 1, basic, Grown(e, m - n)).Ok?
    ensures Pass(cps, 0, m, e.handled + 1, basic, Grown(e, m - n)).value.handled == CountBelow(cps, m + 1)
    ensures CountBelow(cps, n) < CountBelow(cps, m + 1) <= |cps|
  {
    PassHandles(cps, 0, m, e.handled + 1, basic, Grown(e, m - n));
    SameBelow(cps, n, m);
    CountBelowStrict(cps, m, m + 1);
    assert cps[0..] == cps;
  }

  /** The main loop: pass after pass over the code points in increasing order. */
  function Passes(cps: seq<nat>, n: nat, basic: nat, e: Emission): (r: Result<CodeUnits>)
    requires forall c :: c in cps ==> c <= MAX_CODE_POINT
    requires e.handled == CountBelow(cps, n)
    decreases |cps| - CountBelow(cps, n)
  {
    if e.handled >= |cps| then Ok(e.text)
    else
      var m := Smallest(cps, n);
      CountBelowStrict(cps, n, n);
      SmallestExists(cps, n);
      if m - n > (MAX_INT - e.delta) / (e.handled + 1) then Overflow
      else
        var p := Pass(cps, 0, m, e.handled + 1, basic, Grown(e, m - n));
        if !p.Ok? then Overflow
        else
          PassAdvances(cps, n, m, basic, e);
          Passes(cps, m + 1, basic, p.value.(delta := p.value.delta + 1))
  }

  lemma SmallestExists(cps: seq<nat>, n: nat)
    requires (forall c :: c in cps ==> c <= MAX_CODE_POINT) && exists c :: c in cps && n <= c
    ensures Smallest(cps, n) in cps && n <= Smallest(cps, n) <= MAX_CODE_POINT
  {
    var c :| c in cps && n <= c;
    assert Smallest(cps, n) <= c;
  }

  lemma {:induction false} SameBelow(cps: seq<nat>, n: nat, m: nat)
    requires n <= m && forall c :: c in cps && n <= c ==> m <= c
    ensures CountBelow(cps, n) == CountBelow(cps, m)
  {
    if cps != [] {
      assert cps[0] in cps;
      assert forall c :: c in cps[1..] ==> c in cps;
      SameBelow(cps[1..], n, m);
    }
  }

  lemma {:induction false} BasicsCount(cps: seq<nat>)
    ensures |Basics(cps)| == CountBelow(cps, INITIAL_N)
  {
    if cps != [] {
      BasicsCount(cps[..|cps| - 1]);
      CountBelowPush(cps[..|cps| - 1], cps[|cps| - 1], INITIAL_N);
      Snoc(cps);
    }
  }

  lemma {:induction false} CountBelowPush(cps: seq<nat>, c: nat, n: nat)
    ensures CountBelow(cps + [c], n) == CountBelow(cps, n) + if c < n then 1 else 0
  {
    if cps == [] {
      assert [] + [c] == [c];
      assert CountBelow([c][1..], n) == 0;
    } else {
      CountBelowPush(cps[1..], c, n);
      assert (cps + [c])[1..] == cps[1..] + [c];
    }
  }

  /** Encoding a sequence of code points: the basic ones, a delimiter when there are any, and
      the deltas. */
  function EncodedPoints(cps: seq<nat>): Result<CodeUnits>
    requires forall c :: c in cps ==> c <= MAX_CODE_POINT
  {
    var basics := Basics(cps);
    BasicsCount(cps);
    Passes(cps, INITIAL_N, |basics|, Emission(0, INITIAL_BIAS, |basics|, Head(basics)))
  }

  function Head(basics: seq<nat>): CodeUnits {
    basics + if basics == [] then [] else [DELIMITER]
  }

  lemma {:induction false} CodePointsInRange(s: CodeUnits)
    requires forall u :: u in s ==> u < 0x10000
    ensures forall c :: c in CodePoints(s) ==> c <= MAX_CODE_POINT
  {
    if s != [] {
      assert forall u :: u in s[1..] ==> u in s;
      CodePointsInRange(s[1..]);
      var first, rest := [s[0]], CodePoints(s[1..]);
      if |s| > 1 && IsHigh(s[0]) && IsLow(s[1]) {
        assert forall u :: u in s[2..] ==> u in s;
        CodePointsInRange(s[2..]);
        first, rest := [Pair(s[0], s[1])], CodePoints(s[2..]);
      }
      assert s[0] in s;
      forall c | c in first + rest
        ensures c <= MAX_CODE_POINT
      {
        assert c in first || c in rest;
      }
    }
  }

  /** Encoding a string. */
  function Encoded(s: CodeUnits): Result<CodeUnits>
    requires forall u :: u in s ==> u < 0x10000
  {
    CodePointsInRange(s);
    EncodedPoints(CodePoints(s))
  }

  /** The inner loop: appends the digits of a delta. */
  method EmitDelta(delta: nat, bias: nat) returns (text: CodeUnits)
    ensures text == DeltaText(delta, bias)
  {
    text := [];
    var q: nat := delta;
    var k: nat := BASE;
    Unit(DeltaText(delta, bias));
    while true
      invariant text + Characters(Digits(q, bias, k)) == DeltaText(delta, bias)
      decreases q
    {
      var t := Threshold(k, bias);
      EmitStep(text, q, bias, k);
      if q < t {
        break;
      }
      text := text + [DigitToBasic(t + (q - t) % (BASE - t))];
      q := (q - t) / (BASE - t);
      k := k + BASE;
    }
    text := text + [DigitToBasic(q)];
  }

  /** One round of emitting: the last digit, or a digit and the quotient. */
  lemma EmitStep(text: CodeUnits, q: nat, bias: nat, k: nat)
    ensures var t := Threshold(k, bias);
            if q < t then text + Characters(Digits(q, bias, k)) == text + [DigitToBasic(q)]
            else
              && 0 <= (q - t) / (BASE - t) < q && 0 <= t + (q - t) % (BASE - t) < BASE
              && text + Characters(Digits(q, bias, k))
                 == text + [DigitToBasic(t + (q - t) % (BASE - t))] + Characters(Digits((q - t) / (BASE - t), bias, k + BASE))
  {
    var t := Threshold(k, bias);
    if q < t {
      assert Characters([q]) == [DigitToBasic(q)];
    } else {
      QuotientAtMost(q - t, BASE - t);
      var digit, rest := t + (q - t) % (BASE - t), Digits((q - t) / (BASE - t), bias, k + BASE);
      assert Characters([digit] + rest) == [DigitToBasic(digit)] + Characters(rest);
      Associative(text, [DigitToBasic(digit)], Characters(rest));
    }
  }

  /** The first inner loop: the next larger code point. */
  method FindSmallest(cps: seq<nat>, n: nat) returns (m: nat)
    ensures m == Smallest(cps, n)
  {
    m := MAX_INT;
    for a := 0 to |cps|
      invariant m == Smallest(cps[..a], n)
    {
      assert cps[..a + 1][..a] == cps[..a];
      if cps[a] >= n && cps[a] < m {
        m := cps[a];
      }
    }
    Whole(cps);
  }

  /** The overflow guard keeps the grown delta within range. */
  lemma GuardedGrowth(gap: nat, points: nat, delta: nat)
    requires points > 0 && gap <= (MAX_INT - delta) / points
    ensures delta <= delta + gap * points <= MAX_INT
  {
    MultiplyMonotone(0, gap, points);
    var room := MAX_INT - delta;
    assert room / points * points <= room;
    MultiplyMonotone(gap, room / points, points);
  }

  /** The second inner loop: one pass over the code points. */
  method RunPass(cps: seq<nat>, n: nat, points: nat, basicLength: nat, start: Emission) returns (result: Result<Emission>)
    requires points > 0 && start.delta <= MAX_INT
    ensures result == Pass(cps, 0, n, points, basicLength, start)
  {
    var delta: nat, bias: nat, handled: nat, output := start.delta, start.bias, start.handled, start.text;
    ghost var goal := Pass(cps, 0, n, points, basicLength, start);
    for j := 0 to |cps|
      invariant delta <= MAX_INT
      invariant Pass(cps, j, n, points, basicLength, Emission(delta, bias, handled, output)) == goal
    {
      if cps[j] < n {
        delta := delta + 1;
        if delta > MAX_INT {
          return Overflow;
        }
      }
      if cps[j] == n {
        var text := EmitDelta(delta, bias);
        output := output + text;
        bias := Adapt(delta, points, handled == basicLength);
        delta := 0;
        handled := handled + 1;
      }
    }
    return Ok(Emission(delta, bias, handled, output));
  }

  /** One round of the main loop. */
  lemma PassesStep(cps: seq<nat>, n: nat, basic: nat, e: Emission, m: nat)
    requires forall c :: c in cps ==> c <= MAX_CODE_POINT
    requires e.handled == CountBelow(cps, n) < |cps| && m == Smallest(cps, n)
    ensures n <= m && (m - n > (MAX_INT - e.delta) / (e.handled + 1) ==> Passes(cps, n, basic, e) == Overflow)
    ensures m - n <= (MAX_INT - e.delta) / (e.handled + 1) ==>
              && e.delta <= e.delta + (m - n) * (e.handled + 1) <= MAX_INT
              && var p := Pass(cps, 0, m, e.handled + 1, basic, Grown(e, m - n));
                 if !p.Ok? then Passes(cps, n, basic, e) == Overflow
                 else p.value.handled == CountBelow(cps, m + 1) && e.handled < p.value.handled
                      && Passes(cps, n, basic, e) == Passes(cps, m + 1, basic, p.value.(delta := p.value.delta + 1))
  {
    CountBelowStrict(cps, n, n);
    SmallestExists(cps, n);
    if m - n <= (MAX_INT - e.delta) / (e.handled + 1) {
      GuardedGrowth(m - n, e.handled + 1, e.delta);
      if Pass(cps, 0, m, e.handled + 1, basic, Grown(e, m - n)).Ok? {
        PassAdvances(cps, n, m, basic, e);
      }
    }
  }

  /** One round of the main loop: the next code point, the guard, and a pass. */
  method EncodeRound(cps: seq<nat>, n: nat, basicLength: nat, e: Emission) returns (ok: bool, next: nat, e': Emission)
    requires forall c :: c in cps ==> c <= MAX_CODE_POINT
    requires e.handled == CountBelow(cps, n) < |cps|
    ensures !ok ==> Passes(cps, n, basicLength, e) == Overflow
    ensures ok ==> && e.handled < e'.handled == CountBelow(cps, next)
                   && Passes(cps, n, basicLength, e) == Passes(cps, next, basicLength, e')
  {
    var m := FindSmallest(cps, n);
    PassesStep(cps, n, basicLength, e, m);
    next, e' := m + 1, e;
    if m - n > (MAX_INT - e.delta) / (e.handled + 1) {
      return false, next, e';
    }
    var pass := RunPass(cps, m, e.handled + 1, basicLength, Grown(e, m - n));
    if !pass.Ok? {
      return false, next, e';
    }
    e' := pass.value.(delta := pass.value.delta + 1);
    ok := true;
  }

  /** The main loop. */
  method EncodePasses(cps: seq<nat>, basicLength: nat, head: CodeUnits) returns (result: Result<CodeUnits>)
    requires forall c :: c in cps ==> c <= MAX_CODE_POINT
    requires basicLength == CountBelow(cps, INITIAL_N)
    ensures result == Passes(cps, INITIAL_N, basicLength, Emission(0, INITIAL_BIAS, basicLength, head))
  {
    var n: nat := INITIAL_N;
    var e := Emission(0, INITIAL_BIAS, basicLength, head);
    ghost var goal := Passes(cps, n, basicLength, e);
    while e.handled < |cps|
      invariant e.handled == CountBelow(cps, n) <= |cps|
      invariant goal == Passes(cps, n, basicLength, e)
      decreases |cps| - e.handled
    {
      var ok;
      ok, n, e := EncodeRound(cps, n, basicLength, e);
      if !ok {
        return Overflow;
      }
    }
    return Ok(e.text);
  }

  method Encode(input: CodeUnits) returns (result: Result<CodeUnits>)
    requires forall u :: u in input ==> u < 0x10000
    ensures result == Encoded(input)
  {
    var cps := Ucs2Decode(input);
    CodePointsInRange(input);
    BasicsCount(cps);
    var output: CodeUnits := [];
    for a := 0 to |cps|
      invariant output == Basics(cps[..a])
    {
      assert cps[..a + 1][..a] == cps[..a];
      if cps[a] < INITIAL_N {
        output := output + [cps[a]];
      }
    }
    Whole(cps);
    var basicLength := |output|;
    if basicLength > 0 {
      output := output + [DELIMITER];
    }
    assert output == Head(Basics(cps));
    result := EncodePasses(cps, basicLength, output);
  }

  // ----- decoding

  datatype Reading = Reading(i: nat, rest: CodeUnits)

  /** Reads one delta, adding it to i digit by digit; w is the weight of the next digit. */
  function ReadDelta(input: CodeUnits, i: nat, bias: nat, k: nat, w: nat): (r: Result<Reading>)
    requires w > 0
    ensures r.Ok? ==> |r.value.rest| < |input| && i <= r.value.i <= MAX_INT
    decreases |input|
  {
    if input == [] then InvalidInput
    else
      var digit := BasicToDigit(input[0]);
      if digit >= BASE then InvalidInput
      else if digit > (MAX_INT - i) / w then Overflow
      else
        var t := Threshold(k, bias);
        DigitFits(digit, i, w);
        if digit < t then Ok(Reading(i + digit * w, input[1..]))
        else if w > MAX_INT / (BASE - t) then Overflow
        else ReadDelta(input[1..], i + digit * w, bias, k + BASE, w * (BASE - t))
  }

  lemma DigitFits(digit: nat, i: nat, w: nat)
    requires w > 0 && digit <= (MAX_INT - i) / w
    ensures i <= i + digit * w <= MAX_INT
  {
    MultiplyMonotone(0, digit, w);
    var room := MAX_INT - i;
    assert room / w * w <= room;
    MultiplyMonotone(digit, room / w, w);
  }

  datatype Decoding = Decoding(output: seq<nat>, n: nat, i: nat, bias: nat)

  function Inserted(output: seq<nat>, pos: nat, n: nat): seq<nat>
    requires pos <= |output|
  {
    output[..pos] + [n] + output[pos..]
  }

  /** Inserts one code point: what the position i says after a delta was added. */
  function Placed(d: Decoding, i: nat): (r: Result<Decoding>)
    ensures r.Ok? ==> |r.value.output| == |d.output| + 1
  {
    var out := |d.output| + 1;
    var bias := Adapted(if i >= d.i then i - d.i else 0, out, d.i == 0);
    if i / out > MAX_INT - d.n then Overflow
    else Ok(Decoding(Inserted(d.output, i % out, d.n + i / out), d.n + i / out, i % out + 1, bias))
  }

  /** The main loop: deltas until the input ends. */
  function DecodedFrom(input: CodeUnits, d: Decoding): Result<seq<nat>>
    decreases |input|
  {
    if input == [] then Ok(d.output)
    else
      var r := ReadDelta(input, d.i, d.bias, BASE, 1);
      if !r.Ok? then (if r.Overflow? then Overflow else InvalidInput)
      else
        var p := Placed(d, r.value.i);
        if !p.Ok? then Overflow else DecodedFrom(r.value.rest, p.value)
  }

  /** The position of the last delimiter, or zero when there is none. */
  function LastDelimiter(s: CodeUnits): (b: nat)
    ensures b <= |s| && (b > 0 ==> b < |s| && s[b] == DELIMITER)
    ensures forall i :: b < i < |s| ==> s[i] != DELIMITER
    ensures DELIMITER !in s ==> b == 0
  {
    if s == [] then 0
    else if s[|s| - 1] == DELIMITER then |s| - 1
    else
      var rest := s[..|s| - 1];
      assert forall i :: 0 <= i < |rest| ==> rest[i] == s[i];
      LastDelimiter(rest)
  }

  function Start(basics: seq<nat>): Decoding {
    Decoding(basics, INITIAL_N, 0, INITIAL_BIAS)
  }

  /** Decoding a string into code points, without the final conversion. */
  function DecodedPoints(input: CodeUnits): Result<seq<nat>> {
    var basic := LastDelimiter(input);
    if exists j :: 0 <= j < basic && input[j] >= 0x80 then NotBasic
    else DecodedFrom(input[if basic > 0 then basic + 1 else 0..], Start(input[..basic]))
  }

  /** A string cannot be made of numbers that are not code points. */
  function Converted(r: Result<seq<nat>>): Result<CodeUnits> {
    match r
    case Ok(cps) => if forall c :: c in cps ==> c <= MAX_CODE_POINT then Ok(FromCodePoints(cps)) else InvalidCodePoint
    case Overflow => Overflow
    case NotBasic => NotBasic
    case InvalidInput => InvalidInput
    case InvalidCodePoint => InvalidCodePoint
  }

  /** Decoding a string. */
  function Decoded(input: CodeUnits): Result<CodeUnits> {
    Converted(DecodedPoints(input))
  }

  method FindLastDelimiter(input: CodeUnits) returns (basic: nat)
    ensures basic == LastDelimiter(input)
  {
    var b: nat := |input|;
    assert input[..b] == input;
    while b > 0
      invariant b <= |input| && LastDelimiter(input[..b]) == LastDelimiter(input)
    {
      assert input[..b][..b - 1] == input[..b - 1];
      if input[b - 1] == DELIMITER {
        return b - 1;
      }
      b := b - 1;
    }
    basic := 0;
  }

  /** The inner decoding loop. */
  method ReadOne(input: CodeUnits, index0: nat, i0: nat, bias: nat) returns (status: Result<nat>, index: nat)
    requires index0 < |input|
    ensures index0 <= index <= |input| && (status.Ok? ==> index0 < index && i0 <= status.value <= MAX_INT)
    ensures var r := ReadDelta(input[index0..], i0, bias, BASE, 1);
            && (status.Ok? <==> r.Ok?) && (status.Overflow? <==> r.Overflow?)
            && (status.Ok? ==> r.value == Reading(status.value, input[index..]))
            && (status.Ok? || status.Overflow? || status.InvalidInput?)
  {
    index := index0;
    var i: nat, w: nat, k: nat := i0, 1, BASE;
    ghost var goal := ReadDelta(input[index0..], i0, bias, BASE, 1);
    while true
      invariant index0 <= index <= |input| && w > 0 && i0 <= i
      invariant goal == ReadDelta(input[index..], i, bias, k, w)
      decreases |input| - index
    {
      if index >= |input| {
        return InvalidInput, index;
      }
      assert input[index..][0] == input[index] && input[index..][1..] == input[index + 1..];
      var digit := BasicToDigit(input[index]);
      index := index + 1;
      if digit >= BASE {
        return InvalidInput, index;
      }
      if digit > (MAX_INT - i) / w {
        return Overflow, index;
      }
      DigitFits(digit, i, w);
      i := i + digit * w;
      var t := Threshold(k, bias);
      if digit < t {
        break;
      }
      if w > MAX_INT / (BASE - t) {
        return Overflow, index;
      }
      MultiplyMonotone(1, BASE - t, w);
      w := w * (BASE - t);
      k := k + BASE;
    }
    status := Ok(i);
  }

  /** One round of the main decoding loop: a delta, the new bias, and one code point inserted. */
  method DecodeRound(input: CodeUnits, index: nat, d: Decoding) returns (status: Result<Decoding>, next: nat)
    requires index < |input|
    ensures status.Ok? ==> index < next <= |input| && DecodedFrom(input[index..], d) == DecodedFrom(input[next..], status.value)
    ensures status.Ok? || (status.Overflow? && DecodedFrom(input[index..], d) == Overflow)
            || (status.InvalidInput? && DecodedFrom(input[index..], d) == InvalidInput)
  {
    var delta;
    delta, next := ReadOne(input, index, d.i, d.bias);
    if delta.Overflow? {
      return Overflow, next;
    }
    if !delta.Ok? {
      return InvalidInput, next;
    }
    DecodedStep(input[index..], d, delta.value, input[next..]);
    status := Place(d, delta.value);
  }

  /** The new bias, the code point and its position, and the insertion. */
  method Place(d: Decoding, i: nat) returns (status: Result<Decoding>)
    requires d.i <= i <= MAX_INT
    ensures status == Placed(d, i)
  {
    var out := |d.output| + 1;
    QuotientAtMost(i, out);
    var bias := Adapt(i - d.i, out, d.i == 0);
    if i / out > MAX_INT - d.n {
      return Overflow;
    }
    var n := d.n + i / out;
    status := Ok(Decoding(Inserted(d.output, i % out, n), n, i % out + 1, bias));
  }

  method Decode(input: CodeUnits) returns (result: Result<CodeUnits>)
    ensures result == Decoded(input)
  {
    var output: seq<nat> := [];
    var basic := FindLastDelimiter(input);
    for j := 0 to basic
      invariant output == input[..j] && forall a :: 0 <= a < j ==> input[a] < 0x80
    {
      if input[j] >= 0x80 {
        return NotBasic;
      }
      output := output + [input[j]];
    }
    var index := if basic > 0 then basic + 1 else 0;
    var d := Start(output);
    ghost var goal := DecodedPoints(input);
    while index < |input|
      invariant index <= |input| && goal == DecodedFrom(input[index..], d)
    {
      var status, next := DecodeRound(input, index, d);
      if !status.Ok? {
        return if status.Overflow? then Overflow else InvalidInput;
      }
      index, d := next, status.value;
    }
    if exists c :: c in d.output && c > MAX_CODE_POINT {
      return InvalidCodePoint;
    }
    result := Ok(FromCodePoints(d.output));
  }

  /** Decoding after one delta has been read. */
  lemma DecodedStep(input: CodeUnits, d: Decoding, i: nat, rest: CodeUnits)
    requires input != [] && ReadDelta(input, d.i, d.bias, BASE, 1) == Ok(Reading(i, rest))
    ensures (Placed(d, i).Ok? || Placed(d, i).Overflow?)
    ensures DecodedFrom(input, d) == if Placed(d, i).Ok? then DecodedFrom(rest, Placed(d, i).value) else Overflow
  {
  }
}
