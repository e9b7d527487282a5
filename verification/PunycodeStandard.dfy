/**
  The numbers of RFC 3492, written out: digits, thresholds, variable-length integers, the bias, the
  state at the start, and the surrogate pairs of UTF-16.
 */
module PunycodeStandard {
  import opened Arithmetic
  import opened ByteStrings
  import opened Punycode
  import opened PunycodeBounds
  import opened PunycodeDeltas
  import opened PunycodeEncoding
  import opened PunycodeInsertions
  import opened PunycodeRoundTrip
  import opened Sequences

  // ----- digits

  /** The digits from 0 to 35. */
  const DIGITS: string := SMALLS + FIGURES

  const CAPITAL_DIGITS: string := CAPITALS + FIGURES

  /** A digit is written as the character at its place. */
  lemma DigitCharacter(d: nat)
    requires d < 36
    ensures |DIGITS| == 36 && DigitToBasic(d) == DIGITS[d] as int
    ensures |CAPITAL_DIGITS| == 36 && BasicToDigit(CAPITAL_DIGITS[d] as int) == d == BasicToDigit(DIGITS[d] as int)
  {
    LetterCodes(if d < 26 then d else 0);
    FigureCodes(if 26 <= d then d - 26 else 0);
  }

  /** Small and capital letters and figures are read as the digits at whose places they stand, and nothing else is a
      digit. */
  lemma CharacterDigit(c: nat)
    ensures |DIGITS| == |CAPITAL_DIGITS| == 36
    ensures forall d: nat :: d < 36 ==> (BasicToDigit(c) == d <==> c == DIGITS[d] as int || c == CAPITAL_DIGITS[d] as int)
    ensures BasicToDigit(c) <= 36
  {
    DigitCharacter(0);
    forall d: nat | d < 36
      ensures BasicToDigit(c) == d <==> c == DIGITS[d] as int || c == CAPITAL_DIGITS[d] as int
    {
      DigitCharacter(d);
      LetterCodes(if d < 26 then d else 0);
      FigureCodes(if 26 <= d then d - 26 else 0);
    }
  }

  // ----- variable-length integers, section 3.3 of RFC 3492

  /** The threshold at a position: the position less the bias, within 1 and 26. */
  lemma ThresholdIs(k: nat, bias: nat)
    ensures Threshold(k, bias) == if k < bias + 1 then 1 else if k > bias + 26 then 26 else k - bias
  {
  }

  function Times(a: nat, b: nat): nat {
    MultiplyMonotone(0, a, b);
    a * b
  }

  /** The number that digits stand for from position k on: each position weighs 36 less the threshold times
      what the one before it weighs. */
  function NumberOf(digits: seq<nat>, bias: nat, k: nat): nat {
    if digits == [] then 0
    else digits[0] + Times(36 - Threshold(k, bias), NumberOf(digits[1..], bias, k + 36))
  }

  /** All digits but the last are at least the threshold, and the last is below. */
  predicate Ends(digits: seq<nat>, bias: nat, k: nat) {
    digits != [] && (if |digits| == 1 then digits[0] < Threshold(k, bias)
                     else Threshold(k, bias) <= digits[0] < 36 && Ends(digits[1..], bias, k + 36))
  }

  lemma MoreEnds(digit: nat, digits: seq<nat>, bias: nat, k: nat)
    requires Threshold(k, bias) <= digit < 36 && Ends(digits, bias, k + 36)
    ensures Ends([digit] + digits, bias, k)
    ensures NumberOf([digit] + digits, bias, k) == digit + Times(36 - Threshold(k, bias), NumberOf(digits, bias, k + 36))
  {
    Cons(digit, digits);
  }

  /** The digits of a number end where they should, and stand for it. */
  lemma {:induction false} DigitsEnd(q: nat, bias: nat, k: nat)
    ensures Ends(Digits(q, bias, k), bias, k) && NumberOf(Digits(q, bias, k), bias, k) == q
    decreases q
  {
    var t := Threshold(k, bias);
    if q >= t {
      var digit, rest := FirstDigit(q, bias, k);
      DigitsEnd(rest, bias, k + 36);
      MoreEnds(digit, Digits(rest, bias, k + 36), bias, k);
    }
  }

  lemma FirstDigit(q: nat, bias: nat, k: nat) returns (digit: nat, rest: nat)
    requires q >= Threshold(k, bias)
    ensures Threshold(k, bias) <= digit < 36 && rest < q && q == digit + Times(36 - Threshold(k, bias), rest)
    ensures Digits(q, bias, k) == [digit] + Digits(rest, bias, k + 36)
  {
    var t := Threshold(k, bias);
    DigitAndQuotient(q, t, 1);
    digit, rest := t + (q - t) % (BASE - t), (q - t) / (BASE - t);
  }

  /** Digits that end where they should are those of the number they stand for. */
  lemma {:induction false} EndsIsDigits(digits: seq<nat>, bias: nat, k: nat)
    requires Ends(digits, bias, k)
    ensures Digits(NumberOf(digits, bias, k), bias, k) == digits
    decreases |digits|
  {
    if |digits| == 1 {
      assert digits == [digits[0]];
      assert NumberOf([], bias, k + 36) == 0;
    } else {
      var rest := NumberOf(digits[1..], bias, k + 36);
      EndsIsDigits(digits[1..], bias, k + 36);
      DigitsCons(digits[0], rest, bias, k);
      assert digits == [digits[0]] + digits[1..];
    }
  }

  /** So they are the digits of a number exactly when they end and stand for it. */
  lemma DigitsAreTheNumber(digits: seq<nat>, q: nat, bias: nat, k: nat)
    ensures Ends(digits, bias, k) && NumberOf(digits, bias, k) == q <==> digits == Digits(q, bias, k)
  {
    DigitsEnd(q, bias, k);
    if Ends(digits, bias, k) {
      EndsIsDigits(digits, bias, k);
    }
  }

  // ----- the bias, section 3.4 of RFC 3492

  function PowerOf35(j: nat): (p: nat)
    ensures p > 0
  {
    if j == 0 then 1 else 35 * PowerOf35(j - 1)
  }

  /** What is left after dividing by 35 so many times. */
  function Divided(d: nat, j: nat): nat {
    if j == 0 then d else Divided(d / 35, j - 1)
  }

  lemma {:induction false} DividedIs(d: nat, j: nat)
    ensures Divided(d, j) == d / PowerOf35(j)
  {
    if j > 0 {
      DividedIs(d / 35, j - 1);
      DividedTwice(d, 35, PowerOf35(j - 1));
    }
  }

  /** After j divisions, and not before, it is at most 455. */
  predicate Small(d: nat, j: nat) {
    Divided(d, j) <= 455 && forall i: nat {:trigger Divided(d, i)} :: i < j ==> Divided(d, i) > 455
  }

  lemma SmallStep(d: nat, j: nat)
    requires d > 455 && Small(d / 35, j)
    ensures Small(d, j + 1)
  {
    forall i: nat | i < j + 1
      ensures Divided(d, i) > 455
    {
      if i > 0 {
        assert Divided(d / 35, i - 1) > 455;
      }
    }
  }

  lemma {:induction false} AdaptLoopIs(d: nat, k: nat) returns (j: nat)
    ensures Small(d, j) && AdaptLoop(d, k) == k + 36 * j + 36 * Divided(d, j) / (Divided(d, j) + 38)
    decreases d
  {
    if d <= 455 {
      j := 0;
    } else {
      var j' := AdaptLoopIs(d / 35, k + 36);
      SmallStep(d, j');
      j := j' + 1;
    }
  }

  /** The bias after a delta: the delta is divided by 700 the first time and by 2 later, and raised by its share of
      the points; then j is how often it is divided by 35 until it is at most 455. */
  lemma AdaptedIs(delta: nat, numPoints: nat, firstTime: bool) returns (d: nat, j: nat)
    requires numPoints > 0
    ensures var a := if firstTime then delta / 700 else delta / 2; d == a + a / numPoints
    ensures d / PowerOf35(j) <= 455 && forall i: nat {:trigger PowerOf35(i)} :: i < j ==> d / PowerOf35(i) > 455
    ensures Adapted(delta, numPoints, firstTime) == 36 * j + 36 * (d / PowerOf35(j)) / (d / PowerOf35(j) + 38)
  {
    var a := if firstTime then delta / 700 else delta / 2;
    QuotientAtMost(a, numPoints);
    d := a + a / numPoints;
    j := AdaptLoopIs(d, 0);
    DividedIs(d, j);
    SmallQuotients(d, j);
  }

  lemma SmallQuotients(d: nat, j: nat)
    requires Small(d, j)
    ensures forall i: nat {:trigger PowerOf35(i)} :: i < j ==> d / PowerOf35(i) > 455
  {
    forall i: nat | i < j
      ensures d / PowerOf35(i) > 455
    {
      DividedIs(d, i);
    }
  }

  // ----- the start, section 5 of RFC 3492

  /** A single code point that is not basic is written as its distance from 128, in digits under the bias 72. */
  lemma FirstCodePoint(cp: nat, digits: seq<nat>)
    requires 128 <= cp <= 0x10FFFF && Ends(digits, 72, 36) && NumberOf(digits, 72, 36) == cp - 128
    ensures forall i :: 0 <= i < |digits| ==> digits[i] < 36
    ensures EncodedPoints([cp]) == Ok(Characters(digits)) && DecodedPoints(Characters(digits)) == Ok([cp])
  {
    DigitsAreTheNumber(digits, cp - 128, 72, 36);
    OneEncoded(cp);
    ShortPoints([cp]);
  }

  lemma OneEncoded(cp: nat)
    requires 128 <= cp <= 0x10FFFF
    ensures EncodedPoints([cp]) == Ok(DeltaText(cp - 128, 72))
  {
    EncodeInBounds([cp]);
    EncodedText([cp]);
    NoBasics(cp);
    OneInsertion(cp);
    OneText(cp);
    Unit(DeltaText(cp - 128, 72));
  }

  lemma NoBasics(cp: nat)
    requires 128 <= cp
    ensures Basics([cp]) == []
  {
    assert [cp][..0] == [];
  }

  lemma OneText(cp: nat)
    requires 128 <= cp
    ensures Text([Insertion(cp, 0)], 128, 0, 72, 0) == DeltaText(cp - 128, 72)
  {
    var t := Insertion(cp, 0);
    assert Gap(t, 128, 0, 0) == cp - 128;
    assert [t][1..] == [];
    Unit(DeltaText(cp - 128, 72));
  }

  lemma OneInsertion(cp: nat)
    requires 128 <= cp <= 0x10FFFF
    ensures RoundInsertions([cp], 128) == [Insertion(cp, 0)]
  {
    var cps := [cp];
    assert cps[..0] == [] && cps[..1] == cps && cps[0..] == cps && cps[1..] == [];
    assert CountBelow(cps, 128) == 0;
    NextPass(cps, 128);
    var m := Smallest(cps, 128);
    assert m == cp;
    assert CountBelow(cps, m + 1) == 1;
    assert PassInsertions(cps, 1, m) == RoundInsertions(cps, m + 1) == [];
  }

  // ----- the text, sections 6.2 and 6.3 of RFC 3492

  /** The text of insertions: the first of them, and only it, adapts the bias as the first; `count` code points are
      there before it, of which `first` when the text began. */
  function Written(ts: seq<Insertion>, n: nat, i: nat, bias: nat, count: nat, first: nat): CodeUnits
    requires Ordered(ts, n, i, count) && i <= count
    decreases |ts|
  {
    if ts == [] then []
    else
      MultiplyMonotone(if ts[0].cp == n then 0 else 1, ts[0].cp - n, count + 1);
      var delta := (ts[0].cp - n) * (count + 1) + ts[0].pos - i;
      DeltaText(delta, bias) + Written(ts[1..], ts[0].cp, ts[0].pos + 1, Adapted(delta, count + 1, count == first), count + 1, first)
  }

  lemma {:induction false} WrittenIsText(ts: seq<Insertion>, n: nat, i: nat, bias: nat, count: nat, first: nat)
    requires Ordered(ts, n, i, count) && i <= count && (count == first <==> i == 0) && first <= count
    ensures Written(ts, n, i, bias, count, first) == Text(ts, n, i, bias, count)
    decreases |ts|
  {
    if ts != [] {
      var delta := Gap(ts[0], n, i, count);
      WrittenIsText(ts[1..], ts[0].cp, ts[0].pos + 1, Adapted(delta, count + 1, i == 0), count + 1, first);
    }
  }

  /** The basic code points are those below 128, in their order. */
  lemma {:induction false} BasicsAre(cps: seq<nat>, c: nat)
    ensures Basics(cps + [c]) == if c < 128 then Basics(cps) + [c] else Basics(cps)
    ensures Basics([]) == []
  {
    assert (cps + [c])[..|cps|] == cps;
    Unit(Basics(cps));
  }

  /** What the encoder writes: the basic code points, a delimiter behind them when there are any, and the text of the one
      ordered list of insertions that makes the input of them, from 128 and the bias 72 on. */
  lemma EncodedIs(cps: seq<nat>)
    requires InRange(cps) && EncodedPoints(cps).Ok?
    ensures var basics, ts := Basics(cps), RoundInsertions(cps, 128);
            && Ordered(ts, 128, 0, |basics|) && Fitting(ts, |basics|) && InsertedAll(basics, ts) == cps
            && EncodedPoints(cps).value
               == basics + (if basics == [] then [] else ['-' as int as nat]) + Written(ts, 128, 0, 72, |basics|, |basics|)
  {
    var basics, ts := Basics(cps), RoundInsertions(cps, 128);
    EncodedText(cps);
    RoundBuilds(cps, 128, 128, 0);
    WrittenIsText(ts, 128, 0, 72, |basics|, |basics|);
  }

  // ----- surrogate pairs, section 3.9 of the Unicode standard

  /** The code points beyond the first 65536 are the pairs in their order, from D800 DC00 to DBFF DFFF. */
  lemma PairsInOrder(cp: nat, cp': nat)
    requires 0x10000 <= cp <= 0x10FFFF && 0x10000 <= cp' <= 0x10FFFF
    ensures |Units(cp)| == |Units(cp')| == 2
    ensures cp < cp' <==> Units(cp)[0] < Units(cp')[0] || (Units(cp)[0] == Units(cp')[0] && Units(cp)[1] < Units(cp')[1])
    ensures Units(0x10000) == [0xD800, 0xDC00] && Units(0x10FFFF) == [0xDBFF, 0xDFFF]
    ensures CodePoints(Units(cp)) == [cp]
  {
    UnitsPair(cp);
    assert Units(cp)[2..] == [];
  }

  /** A high and a low surrogate side by side are one code point, counted from 0x10000 on: a high one weighs 0x400. */
  lemma PairIs(high: nat, low: nat)
    requires 0xD800 <= high <= 0xDBFF && 0xDC00 <= low <= 0xDFFF
    ensures CodePoints([high, low]) == [0x10000 + (high - 0xD800) * 0x400 + (low - 0xDC00)]
  {
    assert high % 0x400 == high - 0xD800 && low % 0x400 == low - 0xDC00;
    assert [high, low][2..] == [];
  }

  // ----- what is refused

  /** What was read as a delta are digits. */
  lemma {:induction false} ReadDeltaDigits(input: CodeUnits, i: nat, bias: nat, k: nat, w: nat)
    requires w > 0 && ReadDelta(input, i, bias, k, w).Ok?
    ensures var rest := ReadDelta(input, i, bias, k, w).value.rest;
            && rest == input[|input| - |rest|..]
            && forall j :: 0 <= j < |input| - |rest| ==> BasicToDigit(input[j]) < 36
    decreases |input|
  {
    var digit, t := BasicToDigit(input[0]), Threshold(k, bias);
    DigitFits(digit, i, w);
    if digit >= t {
      MultiplyMonotone(1, BASE - t, w);
      ReadDeltaDigits(input[1..], i + digit * w, bias, k + BASE, w * (BASE - t));
    }
  }

  lemma {:induction false} DecodedFromDigits(text: CodeUnits, d: Decoding)
    ensures DecodedFrom(text, d).Ok? ==> forall j :: 0 <= j < |text| ==> BasicToDigit(text[j]) < 36
    ensures DecodedFrom(text, d).Ok? || DecodedFrom(text, d).Overflow? || DecodedFrom(text, d).InvalidInput?
    decreases |text|
  {
    if text != [] && ReadDelta(text, d.i, d.bias, BASE, 1).Ok? {
      var r := ReadDelta(text, d.i, d.bias, BASE, 1).value;
      ReadDeltaDigits(text, d.i, d.bias, BASE, 1);
      DecodedStep(text, d, r.i, r.rest);
      if Placed(d, r.i).Ok? {
        DecodedFromDigits(r.rest, Placed(d, r.i).value);
        assert DecodedFrom(text, d).Ok? ==> forall j :: |text| - |r.rest| <= j < |text| ==> text[j] == r.rest[j - (|text| - |r.rest|)];
      }
    }
  }

  /** Decoding refuses as not basic exactly the inputs with a unit from 0x80 on before the last delimiter. */
  lemma Refused(input: CodeUnits)
    ensures DecodedPoints(input) == NotBasic <==> exists j {:trigger input[j]} :: 0 <= j < LastDelimiter(input) && input[j] >= 0x80
  {
    DecodedFromDigits(input[DigitsFrom(input)..], Start(input[..LastDelimiter(input)]));
  }

  /** What decoding accepts has only letters and figures behind the last delimiter. */
  lemma Accepted(input: CodeUnits, j: nat)
    requires DecodedPoints(input).Ok? && DigitsFrom(input) <= j < |input|
    ensures BasicToDigit(input[j]) < 36
  {
    var text := input[DigitsFrom(input)..];
    DecodedFromDigits(text, Start(input[..LastDelimiter(input)]));
    assert input[j] == text[j - DigitsFrom(input)];
  }

  function Lowered(c: nat): nat {
    if 'A' as int <= c <= 'Z' as int then c + 32 else c
  }

  function AllLowered(s: CodeUnits): (r: CodeUnits)
    ensures |r| == |s| && forall j :: 0 <= j < |s| ==> r[j] == Lowered(s[j])
  {
    seq(|s|, j requires 0 <= j < |s| => Lowered(s[j]))
  }

  /** Reading a delta only looks at the digit of its first character. */
  lemma SameDigit(c: nat, c': nat, tail: CodeUnits, tail': CodeUnits, i: nat, bias: nat, k: nat, w: nat)
    requires w > 0 && BasicToDigit(c) == BasicToDigit(c')
    requires var digit, t := BasicToDigit(c), Threshold(k, bias);
             t <= digit < BASE && digit <= (MAX_INT - i) / w && w <= MAX_INT / (BASE - t) ==>
               && i + digit * w >= 0 && w * (BASE - t) > 0
               && SameReading(ReadDelta(tail, i + digit * w, bias, k + BASE, w * (BASE - t)),
                              ReadDelta(tail', i + digit * w, bias, k + BASE, w * (BASE - t)))
    requires tail' == AllLowered(tail)
    ensures SameReading(ReadDelta([c] + tail, i, bias, k, w), ReadDelta([c'] + tail', i, bias, k, w))
  {
    Cons(c, tail);
    Cons(c', tail');
  }

  /** The same has been read, and the rest is the same in lower case. */
  predicate SameReading(r: Result<Reading>, r': Result<Reading>) {
    match r
    case Ok(read) => r' == Ok(Reading(read.i, AllLowered(read.rest)))
    case _ => r' == r
  }

  lemma {:induction false} LoweredDelta(input: CodeUnits, i: nat, bias: nat, k: nat, w: nat)
    requires w > 0
    ensures SameReading(ReadDelta(input, i, bias, k, w), ReadDelta(AllLowered(input), i, bias, k, w))
    decreases |input|
  {
    if input != [] {
      var c, tail := input[0], input[1..];
      var digit, t := BasicToDigit(c), Threshold(k, bias);
      if t <= digit < BASE && digit <= (MAX_INT - i) / w {
        DigitFits(digit, i, w);
        MultiplyMonotone(1, BASE - t, w);
        LoweredDelta(tail, i + digit * w, bias, k + BASE, w * (BASE - t));
      }
      SameDigit(c, Lowered(c), tail, AllLowered(tail), i, bias, k, w);
      assert input == [c] + tail && AllLowered(input) == [Lowered(c)] + AllLowered(tail);
    }
  }

  lemma {:induction false} LoweredFrom(text: CodeUnits, d: Decoding)
    ensures DecodedFrom(AllLowered(text), d) == DecodedFrom(text, d)
    decreases |text|
  {
    if text != [] {
      LoweredDelta(text, d.i, d.bias, BASE, 1);
      if ReadDelta(text, d.i, d.bias, BASE, 1).Ok? {
        var r := ReadDelta(text, d.i, d.bias, BASE, 1).value;
        DecodedStep(text, d, r.i, r.rest);
        DecodedStep(AllLowered(text), d, r.i, AllLowered(r.rest));
        if Placed(d, r.i).Ok? {
          LoweredFrom(r.rest, Placed(d, r.i).value);
        }
      }
    }
  }

  lemma SameDelimiter(s: CodeUnits, t: CodeUnits)
    requires |s| == |t| && forall j :: 0 <= j < |s| ==> (s[j] == DELIMITER <==> t[j] == DELIMITER)
    ensures LastDelimiter(s) == LastDelimiter(t)
  {
  }

  /** Decoding what is taken apart where its digits begin. */
  lemma PointsBehind(head: CodeUnits, text: CodeUnits, basic: nat)
    requires LastDelimiter(head + text) == basic && |head| == if basic > 0 then basic + 1 else 0
    ensures DecodedPoints(head + text) ==
            if exists j {:trigger head[j]} :: 0 <= j < basic && head[j] >= 0x80 then NotBasic else DecodedFrom(text, Start(head[..basic]))
  {
    var s := head + text;
    assert s[|head|..] == text && s[..basic] == head[..basic];
    assert forall j :: 0 <= j < basic ==> s[j] == head[j];
  }

  /** The case of the digits does not matter. */
  lemma CaseDoesNotMatter(input: CodeUnits)
    ensures var from := DigitsFrom(input); DecodedPoints(input[..from] + AllLowered(input[from..])) == DecodedPoints(input)
  {
    var basic, from := LastDelimiter(input), DigitsFrom(input);
    TakeDrop(input, from);
    PointsBehind(input[..from], input[from..], basic);
    LoweredDelimiter(input, from);
    PointsBehind(input[..from], AllLowered(input[from..]), basic);
    LoweredFrom(input[from..], Start(input[..from][..basic]));
  }

  lemma LoweredAt(input: CodeUnits, from: nat, j: nat)
    requires from <= |input| && j < |input|
    ensures (input[..from] + AllLowered(input[from..]))[j] == if j < from then input[j] else Lowered(input[j])
  {
  }

  lemma LoweredDelimiter(input: CodeUnits, from: nat)
    requires from <= |input|
    ensures LastDelimiter(input[..from] + AllLowered(input[from..])) == LastDelimiter(input)
  {
    var lowered := input[..from] + AllLowered(input[from..]);
    forall j | 0 <= j < |input|
      ensures input[j] == DELIMITER <==> lowered[j] == DELIMITER
    {
      LoweredAt(input, from, j);
    }
    SameDelimiter(input, lowered);
  }
}
