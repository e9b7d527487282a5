/**
  When the guards of the encoder and of the decoder fire: exactly when a delta, or what the decoder has to
  hold to read it, is out of range.
 */
module PunycodeOverflow {
  import opened Arithmetic
  import opened Punycode
  import opened PunycodeDeltas
  import opened PunycodeInsertions
  import opened PunycodeEncoding
  import opened PunycodeRoundTrip
  import opened Sequences

  /** Every delta of the insertions is within range. */
  predicate AllWithin(ts: seq<Insertion>, n: nat, i: nat, len: nat)
    requires Ordered(ts, n, i, len) && i <= len
    decreases |ts|
  {
    ts == [] || (Gap(ts[0], n, i, len) <= MAX_INT && AllWithin(ts[1..], ts[0].cp, ts[0].pos + 1, len + 1))
  }

  /** What no overflow means for the insertions that are still to come; `room` says that counting to the end
      of the last pass is within range. */
  predicate Guarded(ok: bool, ts: seq<Insertion>, n0: nat, i0: nat, len: nat, delta: nat, room: bool) {
    && i0 <= len && Ordered(ts, n0, i0, len)
    && (ts != [] ==> delta <= Gap(ts[0], n0, i0, len))
    && (ok && delta <= MAX_INT ==> AllWithin(ts, n0, i0, len))
    && (room && AllWithin(ts, n0, i0, len) ==> ok)
  }

  predicate Room(cps: seq<nat>, j: nat, delta: nat, ts: seq<Insertion>) {
    |cps| <= MAX_INT && (ts == [] ==> delta + |cps| - j <= MAX_INT)
  }

  lemma GuardedCons(ok: bool, t: Insertion, rest: seq<Insertion>, n0: nat, i0: nat, len: nat, delta: nat, room: bool, room': bool)
    requires i0 <= len && Onward(t, n0, i0, len) && delta == Gap(t, n0, i0, len) && (room ==> room')
    requires Guarded(ok, rest, t.cp, t.pos + 1, len + 1, 0, room')
    ensures Guarded(ok, [t] + rest, n0, i0, len, delta, room)
  {
    Cons(t, rest);
  }

  lemma FirstOfPass(cps: seq<nat>, j: nat, n: nat)
    requires InRange(cps) && j < |cps| && cps[j] == n
    ensures PassInsertions(cps, j, n) == [Insertion(n, Done(cps, j, n))] + PassInsertions(cps, j + 1, n)
  {
  }

  lemma EmitGuards(cps: seq<nat>, j: nat, n: nat, points: nat, basic: nat, e: Emission, n0: nat, i0: nat)
    requires InStep(cps, j, n, points, basic, e, n0, i0) && j < |cps| && cps[j] == n
    requires points == CountBelow(cps, n) + 1 && basic <= e.handled
    requires |Midway(cps, j + 1, n)| == e.handled + 1
    requires var e' := Emitted(e, points, basic);
             Guarded(Resumed(cps, j + 1, n, points, basic, e').Ok?, PassInsertions(cps, j + 1, n), n, Done(cps, j, n) + 1,
                     e'.handled, e'.delta, Room(cps, j + 1, e'.delta, PassInsertions(cps, j + 1, n)))
    ensures Guarded(Resumed(cps, j, n, points, basic, e).Ok?, PassInsertions(cps, j, n), n0, i0, e.handled, e.delta,
                    Room(cps, j, e.delta, PassInsertions(cps, j, n)))
  {
    var t := Insertion(n, Done(cps, j, n));
    FirstOfPass(cps, j, n);
    ResumedStep(cps, j, n, points, basic, e);
    StepEmit(cps, j, n, points, basic, e, n0, i0);
    GuardedCons(Resumed(cps, j, n, points, basic, e).Ok?, t, PassInsertions(cps, j + 1, n), n0, i0, e.handled, e.delta,
                Room(cps, j, e.delta, PassInsertions(cps, j, n)), Room(cps, j + 1, 0, PassInsertions(cps, j + 1, n)));
  }

  /** The state after a position whose code point is not emitted in this pass. */
  function Skipped(cps: seq<nat>, j: nat, n: nat, e: Emission): Emission
    requires j < |cps|
  {
    if cps[j] < n then e.(delta := e.delta + 1) else e
  }

  lemma StepSkips(cps: seq<nat>, j: nat, n: nat, points: nat, basic: nat, e: Emission, n0: nat, i0: nat)
    requires InStep(cps, j, n, points, basic, e, n0, i0) && j < |cps| && cps[j] != n
    ensures InStep(cps, j + 1, n, points, basic, Skipped(cps, j, n, e), n0, i0)
    ensures e.handled == |Midway(cps, j, n)| == |Midway(cps, j + 1, n)|
  {
    MidwayStep(cps, j, n);
    if cps[j] < n {
      StepBelow(cps, j, n, points, basic, e, n0, i0);
    } else {
      StepAbove(cps, j, n, points, basic, e, n0, i0);
    }
  }

  lemma SkipGuards(cps: seq<nat>, j: nat, n: nat, points: nat, basic: nat, e: Emission, n0: nat, i0: nat)
    requires InRange(cps) && j < |cps| && cps[j] != n && points > 0
    requires e.handled == |Midway(cps, j, n)| == |Midway(cps, j + 1, n)|
    requires var e' := Skipped(cps, j, n, e);
             Guarded(Resumed(cps, j + 1, n, points, basic, e').Ok?, PassInsertions(cps, j + 1, n), n0, i0, e.handled, e'.delta,
                     Room(cps, j + 1, e'.delta, PassInsertions(cps, j + 1, n)))
    ensures Guarded(Resumed(cps, j, n, points, basic, e).Ok?, PassInsertions(cps, j, n), n0, i0, e.handled, e.delta,
                    Room(cps, j, e.delta, PassInsertions(cps, j, n)))
  {
    ResumedStep(cps, j, n, points, basic, e);
  }

  lemma EndGuards(cps: seq<nat>, n: nat, points: nat, basic: nat, e: Emission, n0: nat, i0: nat)
    requires InStep(cps, |cps|, n, points, basic, e, n0, i0)
    requires e.handled == CountBelow(cps, n + 1)
    requires var r := Passes(cps, n + 1, basic, e.(delta := e.delta + 1));
             && r == Resumed(cps, |cps|, n, points, basic, e)
             && Guarded(r.Ok?, RoundInsertions(cps, n + 1), n0, i0, e.handled, e.delta + 1, |cps| <= MAX_INT)
             && (r.Ok? ==> AllWithin(RoundInsertions(cps, n + 1), n0, i0, e.handled))
    ensures Guarded(Resumed(cps, |cps|, n, points, basic, e).Ok?, PassInsertions(cps, |cps|, n), n0, i0, e.handled, e.delta,
                    Room(cps, |cps|, e.delta, PassInsertions(cps, |cps|, n)))
  {
  }

  lemma {:induction false} PassGuards(cps: seq<nat>, j: nat, n: nat, points: nat, basic: nat, e: Emission, n0: nat, i0: nat)
    requires InStep(cps, j, n, points, basic, e, n0, i0)
    requires points == CountBelow(cps, n) + 1 && basic <= e.handled
    ensures Guarded(Resumed(cps, j, n, points, basic, e).Ok?, PassInsertions(cps, j, n), n0, i0, e.handled, e.delta,
                    Room(cps, j, e.delta, PassInsertions(cps, j, n)))
    decreases |cps| - CountBelow(cps, n + 1), |cps| - j + 1
  {
    if j == |cps| {
      PassEnds(cps, n, points, basic, e, n0, i0);
      RoundGuards(cps, n + 1, basic, e.(delta := e.delta + 1), n0, i0);
      EndGuards(cps, n, points, basic, e, n0, i0);
    } else if cps[j] == n {
      StepEmit(cps, j, n, points, basic, e, n0, i0);
      PassGuards(cps, j + 1, n, points, basic, Emitted(e, points, basic), n, Done(cps, j, n) + 1);
      EmitGuards(cps, j, n, points, basic, e, n0, i0);
    } else {
      var e' := Skipped(cps, j, n, e);
      StepSkips(cps, j, n, points, basic, e, n0, i0);
      PassGuards(cps, j + 1, n, points, basic, e', n0, i0);
      SkipGuards(cps, j, n, points, basic, e, n0, i0);
    }
  }

  /** The rounds from n on raise no overflow exactly when all their deltas are within range. */
  lemma {:induction false} RoundGuards(cps: seq<nat>, n: nat, basic: nat, e: Emission, n0: nat, i0: nat)
    requires RoundInStep(cps, n, basic, e, n0, i0) && basic <= e.handled
    ensures Guarded(Passes(cps, n, basic, e).Ok?, RoundInsertions(cps, n), n0, i0, e.handled, e.delta, |cps| <= MAX_INT)
    ensures Passes(cps, n, basic, e).Ok? ==> AllWithin(RoundInsertions(cps, n), n0, i0, e.handled)
    decreases |cps| - CountBelow(cps, n), 0
  {
    if CountBelow(cps, n) < |cps| {
      var m := Smallest(cps, n);
      NextPass(cps, n);
      RoundStarts(cps, n, basic, e, n0, i0, m);
      PassGuards(cps, 0, m, e.handled + 1, basic, Grown(e, m - n), n0, i0);
      GrowthGuard(cps, n, basic, e, m);
      SomeInsertions(cps, n);
      GuardedRound(Passes(cps, n, basic, e).Ok?, Resumed(cps, 0, m, e.handled + 1, basic, Grown(e, m - n)).Ok?, RoundInsertions(cps, n),
                   n0, i0, e.handled, e.delta, Grown(e, m - n).delta, |cps| <= MAX_INT,
                   Room(cps, 0, Grown(e, m - n).delta, PassInsertions(cps, 0, m)));
    }
  }

  /** A pass behind the guard of its round. */
  lemma GuardedRound(ok: bool, okPass: bool, ts: seq<Insertion>, n0: nat, i0: nat, len: nat, delta: nat, grown: nat, few: bool, room: bool)
    requires ts != [] && delta <= grown && (ok <==> grown <= MAX_INT && okPass) && (few ==> room)
    requires Guarded(okPass, ts, n0, i0, len, grown, room)
    ensures Guarded(ok, ts, n0, i0, len, delta, few) && (ok ==> AllWithin(ts, n0, i0, len))
  {
  }

  /** The guard of a round fires exactly when the grown delta is out of range. */
  lemma GrowthGuard(cps: seq<nat>, n: nat, basic: nat, e: Emission, m: nat)
    requires InRange(cps) && e.handled == CountBelow(cps, n) < |cps| && m == Smallest(cps, n) && n <= m
    requires e.handled == |Midway(cps, 0, m)|
    ensures Grown(e, m - n).delta >= e.delta
    ensures Passes(cps, n, basic, e).Ok? <==>
              Grown(e, m - n).delta <= MAX_INT && Resumed(cps, 0, m, e.handled + 1, basic, Grown(e, m - n)).Ok?
  {
    MultiplyMonotone(0, m - n, e.handled + 1);
    PassesStep(cps, n, basic, e, m);
    FitsQuotient(m - n, e.handled + 1, MAX_INT - e.delta);
  }

  /** As long as code points are left there are insertions. */
  lemma SomeInsertions(cps: seq<nat>, n: nat)
    requires InRange(cps) && CountBelow(cps, n) < |cps|
    ensures RoundInsertions(cps, n) != []
  {
    RoundBuilds(cps, n, n, 0);
  }

  /** The encoder raises no overflow exactly when every delta is within range; only a list longer than
      the largest integer could raise one besides, by counting its end. */
  lemma EncodeOverflowsExactly(cps: seq<nat>)
    requires InRange(cps)
    ensures Ordered(RoundInsertions(cps, 128), 128, 0, |Basics(cps)|)
    ensures EncodedPoints(cps).Ok? ==> AllWithin(RoundInsertions(cps, 128), 128, 0, |Basics(cps)|)
    ensures AllWithin(RoundInsertions(cps, 128), 128, 0, |Basics(cps)|) && |cps| <= 2147483647 ==> EncodedPoints(cps).Ok?
  {
    var basics := Basics(cps);
    BasicsAreUnder(cps);
    RoundGuards(cps, INITIAL_N, |basics|, Emission(0, INITIAL_BIAS, |basics|, Head(basics)), INITIAL_N, 0);
  }

  /** What was encoded is decoded to the same code points where the decoder can make every insertion, and
      raises overflow where it cannot. */
  lemma DecodeOverflowsExactly(cps: seq<nat>)
    requires InRange(cps) && EncodedPoints(cps).Ok?
    ensures Ordered(RoundInsertions(cps, 128), 128, 0, |Basics(cps)|)
    ensures DecodedPoints(EncodedPoints(cps).value)
            == if AllInsertable(RoundInsertions(cps, 128), Decoding(Basics(cps), 128, 0, 72)) then Ok(cps) else Overflow
  {
    var basics, ts := Basics(cps), RoundInsertions(cps, INITIAL_N);
    EncodedText(cps);
    UnderBelow(cps, INITIAL_N);
    RoundBuilds(cps, INITIAL_N, INITIAL_N, 0);
    TextCharacters(ts, INITIAL_N, 0, INITIAL_BIAS, |basics|);
    DecodedHead(basics, Text(ts, INITIAL_N, 0, INITIAL_BIAS, |basics|));
    DecodeText(ts, Start(basics));
  }
}
