/**
  What the digits of a delta mean: reading them back adds the delta, and lower-case digits are the
  only ones that do.
 */
module PunycodeDeltas {
  import opened Arithmetic
  import opened Punycode
  import opened Sequences

  predicate Lower(s: CodeUnits) {
    forall i :: 0 <= i < |s| ==> !(0x41 <= s[i] < 0x5B)
  }

  lemma DigitRoundTrip(digit: nat)
    requires digit < BASE
    ensures BasicToDigit(DigitToBasic(digit)) == digit
    ensures DigitToBasic(digit) != DELIMITER && !(0x41 <= DigitToBasic(digit) < 0x5B)
  {
  }

  lemma CharacterRoundTrip(c: nat)
    requires BasicToDigit(c) < BASE && !(0x41 <= c < 0x5B)
    ensures DigitToBasic(BasicToDigit(c)) == c
  {
  }

  lemma CharactersCons(digit: nat, digits: seq<nat>, rest: CodeUnits)
    requires digit < BASE && forall i :: 0 <= i < |digits| ==> digits[i] < BASE
    ensures Characters([digit] + digits) + rest == [DigitToBasic(digit)] + (Characters(digits) + rest)
  {
  }

  /** One digit and the quotient make up the number again, at any weight. */
  lemma DigitAndQuotient(q: nat, t: nat, w: nat)
    requires 1 <= t <= q && t < BASE
    ensures 0 <= (q - t) / (BASE - t) <= q - t
    ensures 0 <= (q - t) % (BASE - t) < BASE - t
    ensures (t + (q - t) % (BASE - t)) * w + (q - t) / (BASE - t) * (w * (BASE - t)) == q * w
  {
    QuotientAtMost(q - t, BASE - t);
    var b, x, r := BASE - t, (q - t) / (BASE - t), (q - t) % (BASE - t);
    assert q == t + r + x * b;
    Distribute(t + r, x, b, w);
  }

  lemma Distribute(r: int, x: int, b: int, w: int)
    ensures r * w + x * (w * b) == (r + x * b) * w
  {
    assert x * (w * b) == (x * b) * w;
  }

  lemma ReadStep(digit: nat, tail: CodeUnits, i: nat, bias: nat, k: nat, w: nat)
    requires w > 0 && digit < BASE
    ensures var r := ReadDelta([DigitToBasic(digit)] + tail, i, bias, k, w);
            var t := Threshold(k, bias);
            if digit > (MAX_INT - i) / w then r == Overflow
            else if digit < t then r == Ok(Reading(i + digit * w, tail))
            else if w > MAX_INT / (BASE - t) then r == Overflow
            else i + digit * w >= 0 && w * (BASE - t) > 0 && r == ReadDelta(tail, i + digit * w, bias, k + BASE, w * (BASE - t))
  {
    var s := [DigitToBasic(digit)] + tail;
    DigitRoundTrip(digit);
    assert s[0] == DigitToBasic(digit) && s[1..] == tail;
    var t := Threshold(k, bias);
    MultiplyMonotone(1, BASE - t, w);
    MultiplyMonotone(0, digit, w);
  }

  /** A quotient bound and a product bound are the same. */
  lemma FitsQuotient(x: int, w: nat, room: int)
    requires w > 0
    ensures x * w <= room <==> x <= room / w
  {
    assert room < (room / w + 1) * w;
    assert room / w * w <= room;
    if x > room / w {
      MultiplyMonotone(room / w + 1, x, w);
    } else {
      MultiplyMonotone(x, room / w, w);
    }
  }

  /** The weight of the last digit of a number whose first digit has weight w. */
  function LastWeight(q: nat, bias: nat, k: nat, w: nat): (r: nat)
    ensures w <= r
    decreases q
  {
    var t := Threshold(k, bias);
    if q < t then w
    else
      QuotientAtMost(q - t, BASE - t);
      MultiplyMonotone(1, BASE - t, w);
      LastWeight((q - t) / (BASE - t), bias, k + BASE, w * (BASE - t))
  }

  /** The number can be added to i: the sum and the weight of its last digit are within range. */
  predicate Addable(q: nat, bias: nat, k: nat, i: nat, w: nat, number: nat) {
    i + number <= MAX_INT && (q >= Threshold(k, bias) ==> LastWeight(q, bias, k, w) <= MAX_INT)
  }

  /** The number has been added where it can be, and otherwise there was an overflow. */
  predicate ReadsBack(r: Result<Reading>, i: nat, number: nat, rest: CodeUnits, addable: bool) {
    r == if addable then Ok(Reading(i + number, rest)) else Overflow
  }

  lemma LastDigit(q: nat, bias: nat, k: nat, i: nat, w: nat, rest: CodeUnits)
    requires w > 0 && q < Threshold(k, bias)
    ensures q * w >= 0 && ReadsBack(ReadDelta([DigitToBasic(q)] + rest, i, bias, k, w), i, q * w, rest, Addable(q, bias, k, i, w, q * w))
  {
    MultiplyMonotone(0, q, w);
    ReadStep(q, rest, i, bias, k, w);
    FitsQuotient(q, w, MAX_INT - i);
  }

  /** One digit before the digits of the quotient: dw is its share, wb the weight of the next one. */
  lemma MoreDigits(digit: nat, dw: nat, wb: nat, more: nat, whole: nat, bias: nat, k: nat, i: nat, w: nat, tail: CodeUnits, rest: CodeUnits,
                   inner: bool, outer: bool)
    requires w > 0 && Threshold(k, bias) <= digit < BASE && dw == digit * w && wb == w * (BASE - Threshold(k, bias)) > 0
    requires dw + more == whole
    requires outer <==> dw <= MAX_INT - i && wb <= MAX_INT && inner
    requires ReadsBack(ReadDelta(tail, i + dw, bias, k + BASE, wb), i + dw, more, rest, inner)
    ensures ReadsBack(ReadDelta([DigitToBasic(digit)] + tail, i, bias, k, w), i, whole, rest, outer)
  {
    ReadStep(digit, tail, i, bias, k, w);
    FitsQuotient(digit, w, MAX_INT - i);
    FitsQuotient(w, BASE - Threshold(k, bias), MAX_INT);
  }

  /** A number at a weight, taken apart into its first digit and the quotient. */
  lemma TakeDigit(q: nat, t: nat, w: nat) returns (digit: nat, rest: nat, dw: nat, wb: nat, more: nat)
    requires w > 0 && 1 <= t <= T_MAX && t <= q
    ensures digit == t + (q - t) % (BASE - t) < BASE && rest == (q - t) / (BASE - t) < q
    ensures dw == digit * w && wb == w * (BASE - t) > 0 && more == rest * wb && dw + more == q * w
  {
    DigitAndQuotient(q, t, w);
    digit, rest := t + (q - t) % (BASE - t), (q - t) / (BASE - t);
    MultiplyMonotone(0, digit, w);
    MultiplyMonotone(1, BASE - t, w);
    dw, wb := digit * w, w * (BASE - t);
    MultiplyMonotone(0, rest, wb);
    more := rest * wb;
  }

  /** Whether a number can be added, by its first digit and the quotient. */
  lemma AddableStep(q: nat, bias: nat, k: nat, i: nat, w: nat, rest: nat, dw: nat, wb: nat, more: nat)
    requires w > 0 && q >= Threshold(k, bias) && rest == (q - Threshold(k, bias)) / (BASE - Threshold(k, bias))
    requires wb == w * (BASE - Threshold(k, bias))
    ensures Addable(q, bias, k, i, w, dw + more) <==>
              dw <= MAX_INT - i && wb <= MAX_INT && Addable(rest, bias, k + BASE, i + dw, wb, more)
  {
    assert LastWeight(q, bias, k, w) == LastWeight(rest, bias, k + BASE, wb);
  }

  /** Reading the digits of a number adds it, and raises overflow exactly when the sum or the weight of the
      last digit is out of range. */
  lemma {:induction false} ReadDigits(q: nat, bias: nat, k: nat, i: nat, w: nat, number: nat, rest: CodeUnits)
    requires w > 0 && number == q * w
    ensures ReadsBack(ReadDelta(Characters(Digits(q, bias, k)) + rest, i, bias, k, w), i, number, rest, Addable(q, bias, k, i, w, number))
    decreases q
  {
    var t := Threshold(k, bias);
    if q < t {
      CharactersCons(q, [], rest);
      Unit([q]);
      Unit(rest);
      LastDigit(q, bias, k, i, w, rest);
    } else {
      var digit, q', dw, wb, more := TakeDigit(q, t, w);
      ReadDigits(q', bias, k + BASE, i + dw, wb, more, rest);
      ReadMore(q, bias, k, i, w, rest, digit, q', dw, wb, more);
    }
  }

  lemma ReadMore(q: nat, bias: nat, k: nat, i: nat, w: nat, rest: CodeUnits, digit: nat, q': nat, dw: nat, wb: nat, more: nat)
    requires w > 0 && q >= Threshold(k, bias) && digit == Threshold(k, bias) + (q - Threshold(k, bias)) % (BASE - Threshold(k, bias)) < BASE
    requires q' == (q - Threshold(k, bias)) / (BASE - Threshold(k, bias)) && dw == digit * w && wb == w * (BASE - Threshold(k, bias)) > 0
    requires ReadsBack(ReadDelta(Characters(Digits(q', bias, k + BASE)) + rest, i + dw, bias, k + BASE, wb), i + dw, more, rest,
                       Addable(q', bias, k + BASE, i + dw, wb, more))
    ensures ReadsBack(ReadDelta(Characters(Digits(q, bias, k)) + rest, i, bias, k, w), i, dw + more, rest,
                      Addable(q, bias, k, i, w, dw + more))
  {
    CharactersCons(digit, Digits(q', bias, k + BASE), rest);
    AddableStep(q, bias, k, i, w, q', dw, wb, more);
    MoreDigits(digit, dw, wb, more, dw + more, bias, k, i, w, Characters(Digits(q', bias, k + BASE)) + rest, rest,
               Addable(q', bias, k + BASE, i + dw, wb, more), Addable(q, bias, k, i, w, dw + more));
  }

  /** The last digit weighs at most 35 times the number. */
  lemma {:induction false} LastWeightBound(q: nat, bias: nat, k: nat, w: nat, number: nat)
    requires w > 0 && number == q * w
    ensures q >= Threshold(k, bias) ==> LastWeight(q, bias, k, w) <= 35 * number
    decreases q
  {
    var t := Threshold(k, bias);
    if q >= t {
      var digit, q', dw, wb, more := TakeDigit(q, t, w);
      NextWeight(q, w, BASE - t, number);
      MultiplyMonotone(0, digit, w);
      assert LastWeight(q, bias, k, w) == LastWeight(q', bias, k + BASE, wb);
      LastWeightBound(q', bias, k + BASE, wb, more);
    }
  }

  lemma NextWeight(q: nat, w: nat, b: nat, number: nat)
    requires q >= 1 && b <= 35 && number == q * w
    ensures w * b <= 35 * number
  {
    MultiplyMonotone(1, q, w);
    MultiplyMonotone(b, 35, w);
  }

  /** A digit followed by the digits of a number: the digits of the number they make. */
  lemma DigitsCons(digit: nat, q: nat, bias: nat, k: nat)
    requires Threshold(k, bias) <= digit < BASE
    ensures digit + q * (BASE - Threshold(k, bias)) >= 0
    ensures Digits(digit + q * (BASE - Threshold(k, bias)), bias, k) == [digit] + Digits(q, bias, k + BASE)
  {
    var t := Threshold(k, bias);
    MultiplyMonotone(0, q, BASE - t);
    var whole := digit + q * (BASE - t);
    assert whole - t == q * (BASE - t) + (digit - t);
    QuotientUnique(whole - t, BASE - t, q, digit - t);
  }

  /** The first digit of what was read, and what was read behind it. */
  lemma ReadFirst(input: CodeUnits, i: nat, bias: nat, k: nat, w: nat) returns (digit: nat, tail: CodeUnits, i': nat, w': nat)
    requires w > 0 && Lower(input) && ReadDelta(input, i, bias, k, w).Ok?
    ensures digit < BASE && input == [DigitToBasic(digit)] + tail && Lower(tail)
    ensures i' == i + digit * w && w' == w * (BASE - Threshold(k, bias)) && w' > 0
    ensures ReadDelta(input, i, bias, k, w) ==
            if digit < Threshold(k, bias) then Ok(Reading(i', tail)) else ReadDelta(tail, i', bias, k + BASE, w')
  {
    digit, tail := BasicToDigit(input[0]), input[1..];
    CharacterRoundTrip(input[0]);
    Cons(DigitToBasic(digit), tail);
    assert input == [DigitToBasic(digit)] + tail;
    ReadStep(digit, tail, i, bias, k, w);
    DigitFits(digit, i, w);
    MultiplyMonotone(1, BASE - Threshold(k, bias), w);
    i', w' := i + digit * w, w * (BASE - Threshold(k, bias));
  }

  /** A number was read from its own digits. */
  predicate ReadAs(input: CodeUnits, q: nat, bias: nat, k: nat, i: nat, w: nat, r: Reading) {
    r.i == i + q * w && input == Characters(Digits(q, bias, k)) + r.rest && Lower(r.rest)
  }

  lemma LastReadAs(digit: nat, tail: CodeUnits, bias: nat, k: nat, i: nat, i': nat, w: nat)
    requires digit < Threshold(k, bias) && i' == i + digit * w && Lower(tail)
    ensures ReadAs([DigitToBasic(digit)] + tail, digit, bias, k, i, w, Reading(i', tail))
  {
    CharactersCons(digit, [], tail);
    Unit([digit]);
    Unit(tail);
  }

  lemma MoreReadAs(digit: nat, tail: CodeUnits, more: nat, bias: nat, k: nat, i: nat, i': nat, w: nat, w': nat, r: Reading) returns (q: nat)
    requires Threshold(k, bias) <= digit < BASE && i' == i + digit * w && w' == w * (BASE - Threshold(k, bias))
    requires ReadAs(tail, more, bias, k + BASE, i', w', r)
    ensures ReadAs([DigitToBasic(digit)] + tail, q, bias, k, i, w, r)
  {
    DigitsCons(digit, more, bias, k);
    q := digit + more * (BASE - Threshold(k, bias));
    Distribute(digit, more, BASE - Threshold(k, bias), w);
    CharactersCons(digit, Digits(more, bias, k + BASE), r.rest);
  }

  /** Lower-case characters that were read as a number are the digits of that number. */
  lemma {:induction false} ReadIsDigits(input: CodeUnits, i: nat, bias: nat, k: nat, w: nat) returns (q: nat)
    requires w > 0 && Lower(input) && ReadDelta(input, i, bias, k, w).Ok?
    ensures ReadAs(input, q, bias, k, i, w, ReadDelta(input, i, bias, k, w).value)
    decreases |input|
  {
    var digit, tail, i', w' := ReadFirst(input, i, bias, k, w);
    if digit < Threshold(k, bias) {
      q := digit;
      LastReadAs(digit, tail, bias, k, i, i', w);
    } else {
      var more := ReadIsDigits(tail, i', bias, k + BASE, w');
      q := MoreReadAs(digit, tail, more, bias, k, i, i', w, w', ReadDelta(input, i, bias, k, w).value);
    }
  }

  /** The characters of a delta: lower case, and no delimiter. */
  lemma DeltaCharacters(delta: nat, bias: nat)
    ensures Lower(DeltaText(delta, bias)) && DELIMITER !in DeltaText(delta, bias) && DeltaText(delta, bias) != []
  {
    var digits := Digits(delta, bias, BASE);
    forall i | 0 <= i < |digits|
      ensures DigitToBasic(digits[i]) != DELIMITER && !(0x41 <= DigitToBasic(digits[i]) < 0x5B)
    {
      DigitRoundTrip(digits[i]);
    }
  }
}
