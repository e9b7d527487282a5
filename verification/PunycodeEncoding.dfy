/**
  The encoder of Punycode as insertions: what it emits is the text of the one ordered list of
  insertions that builds the code points from the basic ones.
 */
module PunycodeEncoding {
  import opened Arithmetic
  import opened Punycode
  import opened PunycodeInsertions
  import opened Sequences

  predicate InRange(cps: seq<nat>) {
    forall c :: c in cps ==> c <= MAX_CODE_POINT
  }

  /** The elements below n, in order. */
  function Under(cps: seq<nat>, n: nat): (r: seq<nat>)
    ensures |r| == CountBelow(cps, n)
  {
    if cps == [] then [] else (if cps[0] < n then [cps[0]] else []) + Under(cps[1..], n)
  }

  lemma {:induction false} UnderPush(cps: seq<nat>, c: nat, n: nat)
    ensures Under(cps + [c], n) == Under(cps, n) + if c < n then [c] else []
  {
    if cps == [] {
      assert [] + [c] == [c] && [c][1..] == [];
    } else {
      UnderPush(cps[1..], c, n);
      ConcatTail(cps, [c]);
      Associative(if cps[0] < n then [cps[0]] else [], Under(cps[1..], n), if c < n then [c] else []);
    }
  }

  lemma {:induction false} BasicsAreUnder(cps: seq<nat>)
    ensures Basics(cps) == Under(cps, INITIAL_N)
  {
    if cps != [] {
      BasicsAreUnder(cps[..|cps| - 1]);
      UnderPush(cps[..|cps| - 1], cps[|cps| - 1], INITIAL_N);
      Snoc(cps);
    }
  }

  lemma {:induction false} UnderAll(cps: seq<nat>, n: nat)
    requires CountBelow(cps, n) >= |cps|
    ensures Under(cps, n) == cps
  {
    if cps != [] {
      UnderAll(cps[1..], n);
      assert cps == [cps[0]] + cps[1..];
    }
  }

  /** No element in between: the same elements are below both bounds. */
  lemma {:induction false} UnderSkip(cps: seq<nat>, n: nat, m: nat)
    requires n <= m && forall c :: c in cps && n <= c ==> m <= c
    ensures Under(cps, n) == Under(cps, m)
  {
    if cps != [] {
      assert cps[0] in cps && forall c :: c in cps[1..] ==> c in cps;
      UnderSkip(cps[1..], n, m);
    }
  }

  lemma {:induction false} UnderTopped(cps: seq<nat>, n: nat, i: nat)
    ensures Topped(Under(cps, n), n, i)
  {
    if cps != [] {
      UnderTopped(cps[1..], n, 0);
    }
  }

  // ----- the insertions the encoder makes

  /** What the decoder has when the encoder is at position j of its pass for n. */
  function Midway(cps: seq<nat>, j: nat, n: nat): seq<nat>
    requires j <= |cps|
  {
    Under(cps[..j], n + 1) + Under(cps[j..], n)
  }

  function Done(cps: seq<nat>, j: nat, n: nat): nat
    requires j <= |cps|
  {
    CountBelow(cps[..j], n + 1)
  }

  /** The insertions from position j of the pass for n on. */
  function PassInsertions(cps: seq<nat>, j: nat, n: nat): seq<Insertion>
    requires InRange(cps) && j <= |cps|
    decreases |cps| - CountBelow(cps, n + 1), |cps| - j + 1
  {
    if j == |cps| then RoundInsertions(cps, n + 1)
    else if cps[j] == n then [Insertion(n, Done(cps, j, n))] + PassInsertions(cps, j + 1, n)
    else PassInsertions(cps, j + 1, n)
  }

  /** The insertions of all passes for code points from n on. */
  function RoundInsertions(cps: seq<nat>, n: nat): seq<Insertion>
    requires InRange(cps)
    decreases |cps| - CountBelow(cps, n), 0
  {
    if CountBelow(cps, n) >= |cps| then []
    else
      NextPass(cps, n);
      PassInsertions(cps, 0, Smallest(cps, n))
  }

  /** The next pass handles at least one more code point. */
  lemma NextPass(cps: seq<nat>, n: nat)
    requires InRange(cps) && CountBelow(cps, n) < |cps|
    ensures var m := Smallest(cps, n);
            && n <= m <= MAX_CODE_POINT && m in cps && CountBelow(cps, m) == CountBelow(cps, n) < CountBelow(cps, m + 1) <= |cps|
            && Under(cps, n) == Under(cps, m) == Midway(cps, 0, m)
  {
    CountBelowStrict(cps, n, n);
    SmallestExists(cps, n);
    var m := Smallest(cps, n);
    SameBelow(cps, n, m);
    CountBelowStrict(cps, m, m + 1);
    UnderSkip(cps, n, m);
    assert cps[..0] == [] && cps[0..] == cps;
  }

  /** How one position changes what the decoder has. */
  lemma MidwayStep(cps: seq<nat>, j: nat, n: nat)
    requires j < |cps|
    ensures cps[j] != n ==> Midway(cps, j + 1, n) == Midway(cps, j, n)
    ensures cps[j] == n ==> Done(cps, j, n) <= |Midway(cps, j, n)|
                            && Inserted(Midway(cps, j, n), Done(cps, j, n), n) == Midway(cps, j + 1, n)
    ensures Done(cps, j + 1, n) == Done(cps, j, n) + if cps[j] <= n then 1 else 0
    ensures CountBelow(cps[j..], n) == CountBelow(cps[j + 1..], n) + if cps[j] < n then 1 else 0
  {
    TakeNext(cps, j);
    assert cps[j..][0] == cps[j] && cps[j..][1..] == cps[j + 1..];
    UnderPush(cps[..j], cps[j], n + 1);
    CountBelowPush(cps[..j], cps[j], n + 1);
    Regroup(Under(cps[..j], n + 1), cps[j], Under(cps[j + 1..], n));
  }

  lemma Regroup(u: seq<nat>, c: nat, v: seq<nat>)
    ensures u + ([c] + v) == u + [c] + v
    ensures Inserted(u + v, |u|, c) == u + [c] + v
    ensures u + ([] + v) == u + v && u + [] + v == u + v
  {
    assert (u + v)[..|u|] == u && (u + v)[|u|..] == v;
  }

  lemma MidwayEnd(cps: seq<nat>, n: nat)
    ensures Midway(cps, |cps|, n) == Under(cps, n + 1) && Done(cps, |cps|, n) == CountBelow(cps, n + 1)
  {
    assert cps[..|cps|] == cps && cps[|cps|..] == [];
  }

  /** These insertions can be made from the state (n0, i0) on, and turn the list into the code points. */
  predicate Builds(ts: seq<Insertion>, output: seq<nat>, n0: nat, i0: nat, cps: seq<nat>) {
    Ordered(ts, n0, i0, |output|) && Fitting(ts, |output|) && InsertedAll(output, ts) == cps
  }

  lemma BuildsCons(t: Insertion, rest: seq<Insertion>, output: seq<nat>, n0: nat, i0: nat, cps: seq<nat>)
    requires Onward(t, n0, i0, |output|) && Builds(rest, Inserted(output, t.pos, t.cp), t.cp, t.pos + 1, cps)
    ensures Builds([t] + rest, output, n0, i0, cps)
  {
    Cons(t, rest);
  }

  /** The insertions build the code points, in the order of the decoder's states. */
  lemma {:induction false} PassBuilds(cps: seq<nat>, j: nat, n: nat, n0: nat, i0: nat)
    requires InRange(cps) && j <= |cps|
    requires n0 < n || (n0 == n && i0 <= Done(cps, j, n))
    ensures Builds(PassInsertions(cps, j, n), Midway(cps, j, n), n0, i0, cps)
    decreases |cps| - CountBelow(cps, n + 1), |cps| - j + 1
  {
    if j == |cps| {
      MidwayEnd(cps, n);
      RoundBuilds(cps, n + 1, n0, i0);
    } else {
      MidwayStep(cps, j, n);
      if cps[j] == n {
        var t := Insertion(n, Done(cps, j, n));
        PassBuilds(cps, j + 1, n, n, t.pos + 1);
        BuildsCons(t, PassInsertions(cps, j + 1, n), Midway(cps, j, n), n0, i0, cps);
      } else {
        PassBuilds(cps, j + 1, n, n0, i0);
      }
    }
  }

  lemma {:induction false} RoundBuilds(cps: seq<nat>, n: nat, n0: nat, i0: nat)
    requires InRange(cps) && n0 <= n && (n0 == n ==> i0 == 0)
    ensures Builds(RoundInsertions(cps, n), Under(cps, n), n0, i0, cps)
    decreases |cps| - CountBelow(cps, n), 0
  {
    if CountBelow(cps, n) >= |cps| {
      UnderAll(cps, n);
    } else {
      NextPass(cps, n);
      PassBuilds(cps, 0, Smallest(cps, n), n0, i0);
    }
  }

  // ----- the text the encoder emits

  lemma {:induction false} CountBelowConcat(u: seq<nat>, v: seq<nat>, n: nat)
    ensures CountBelow(u + v, n) == CountBelow(u, n) + CountBelow(v, n)
  {
    if u == [] {
      assert u + v == v;
    } else {
      CountBelowConcat(u[1..], v, n);
      ConcatTail(u, v);
    }
  }

  lemma CountSplit(cps: seq<nat>, j: nat, n: nat)
    requires j <= |cps|
    ensures CountBelow(cps, n) == CountBelow(cps[..j], n) + CountBelow(cps[j..], n)
  {
    assert cps == cps[..j] + cps[j..];
    CountBelowConcat(cps[..j], cps[j..], n);
  }

  /** The encoder from position j of its pass for n to the end of its last pass. */
  function Resumed(cps: seq<nat>, j: nat, n: nat, points: nat, basic: nat, e: Emission): Result<CodeUnits>
    requires InRange(cps) && j <= |cps| && points > 0 && e.handled == |Midway(cps, j, n)|
  {
    var p := Pass(cps, j, n, points, basic, e);
    if !p.Ok? then Overflow
    else
      PassHandles(cps, j, n, points, basic, e);
      CountSplit(cps, j, n + 1);
      Passes(cps, n + 1, basic, p.value.(delta := p.value.delta + 1))
  }

  function Emitted(e: Emission, points: nat, basic: nat): Emission
    requires points > 0
  {
    Emission(0, Adapted(e.delta, points, e.handled == basic), e.handled + 1, e.text + DeltaText(e.delta, e.bias))
  }

  /** One position of a pass. */
  lemma ResumedStep(cps: seq<nat>, j: nat, n: nat, points: nat, basic: nat, e: Emission)
    requires InRange(cps) && j < |cps| && points > 0 && e.handled == |Midway(cps, j, n)|
    ensures |Midway(cps, j + 1, n)| == e.handled + if cps[j] == n then 1 else 0
    ensures Resumed(cps, j, n, points, basic, e) ==
            if cps[j] < n then
              if e.delta + 1 > MAX_INT then Overflow else Resumed(cps, j + 1, n, points, basic, e.(delta := e.delta + 1))
            else if cps[j] == n then Resumed(cps, j + 1, n, points, basic, Emitted(e, points, basic))
            else Resumed(cps, j + 1, n, points, basic, e)
  {
    MidwayStep(cps, j, n);
  }

  /** The encoder in the state that the decoder's state (n0, i0) calls for at position j of the pass for n. */
  predicate InStep(cps: seq<nat>, j: nat, n: nat, points: nat, basic: nat, e: Emission, n0: nat, i0: nat) {
    && InRange(cps) && j <= |cps| && e.handled == |Midway(cps, j, n)| && i0 <= e.handled
    && (n0 < n || (n0 == n && i0 <= Done(cps, j, n)))
    && e.delta == (n - n0) * (e.handled + 1) + Done(cps, j, n) - i0
    && (e.handled == basic <==> i0 == 0)
    && 0 < points <= e.handled + 1
    && (points == e.handled + 1 || (i0 > 0 && e.delta + CountBelow(cps[j..], n) < points))
  }

  /** The same at the beginning of a round. */
  predicate RoundInStep(cps: seq<nat>, n: nat, basic: nat, e: Emission, n0: nat, i0: nat) {
    && InRange(cps) && e.handled == CountBelow(cps, n) && i0 <= e.handled
    && n0 <= n && (n0 == n ==> i0 == 0)
    && e.delta == (n - n0) * (e.handled + 1) - i0
    && (e.handled == basic <==> i0 == 0)
  }

  /** The count of points only matters before the first insertion of a pass. */
  lemma AdaptSteady(delta: nat, points: nat, more: nat)
    requires delta < points <= more
    ensures Adapted(delta, points, false) == Adapted(delta, more, false)
  {
    SmallQuotient(delta / 2, points);
    SmallQuotient(delta / 2, more);
  }

  lemma SmallQuotient(x: nat, d: nat)
    requires x < d
    ensures x / d == 0
  {
  }

  lemma StepBelow(cps: seq<nat>, j: nat, n: nat, points: nat, basic: nat, e: Emission, n0: nat, i0: nat)
    requires InStep(cps, j, n, points, basic, e, n0, i0) && j < |cps| && cps[j] < n
    ensures InStep(cps, j + 1, n, points, basic, e.(delta := e.delta + 1), n0, i0)
  {
    MidwayStep(cps, j, n);
  }

  lemma StepAbove(cps: seq<nat>, j: nat, n: nat, points: nat, basic: nat, e: Emission, n0: nat, i0: nat)
    requires InStep(cps, j, n, points, basic, e, n0, i0) && j < |cps| && cps[j] > n
    ensures InStep(cps, j + 1, n, points, basic, e, n0, i0)
  {
    MidwayStep(cps, j, n);
  }

  lemma EmittedBias(e: Emission, points: nat, basic: nat, i0: nat)
    requires (e.handled == basic <==> i0 == 0) && 0 < points <= e.handled + 1
    requires points == e.handled + 1 || (i0 > 0 && e.delta < points)
    ensures Emitted(e, points, basic).bias == Adapted(e.delta, e.handled + 1, i0 == 0)
  {
    if points != e.handled + 1 {
      AdaptSteady(e.delta, points, e.handled + 1);
    }
  }

  /** Behind an insertion the encoder is in step with the decoder that has made it. */
  lemma EmittedInStep(cps: seq<nat>, j: nat, n: nat, points: nat, basic: nat, e: Emission)
    requires InRange(cps) && j < |cps| && cps[j] == n && e.handled == |Midway(cps, j, n)|
    requires points == CountBelow(cps, n) + 1 <= e.handled + 1 && basic <= e.handled
    ensures Done(cps, j, n) <= e.handled
    ensures InStep(cps, j + 1, n, points, basic, Emitted(e, points, basic), n, Done(cps, j, n) + 1)
  {
    MidwayStep(cps, j, n);
    CountSplit(cps, j + 1, n);
  }

  /** Emitting a delta makes the insertion the decoder will make. */
  lemma StepEmit(cps: seq<nat>, j: nat, n: nat, points: nat, basic: nat, e: Emission, n0: nat, i0: nat)
    requires InStep(cps, j, n, points, basic, e, n0, i0) && j < |cps| && cps[j] == n
    requires points == CountBelow(cps, n) + 1 && basic <= e.handled
    ensures var t := Insertion(n, Done(cps, j, n));
            && Onward(t, n0, i0, e.handled) && e.delta == Gap(t, n0, i0, e.handled)
            && InStep(cps, j + 1, n, points, basic, Emitted(e, points, basic), n, t.pos + 1)
            && Emitted(e, points, basic).bias == Adapted(e.delta, e.handled + 1, i0 == 0)
  {
    EmittedInStep(cps, j, n, points, basic, e);
    EmittedBias(e, points, basic, i0);
    GapIs(n, Done(cps, j, n), n0, i0, e.handled, e.delta);
  }

  lemma GapIs(n: nat, done: nat, n0: nat, i0: nat, handled: nat, delta: nat)
    requires n0 < n || (n0 == n && i0 <= done)
    requires i0 <= handled && done <= handled && delta == (n - n0) * (handled + 1) + done - i0
    ensures Onward(Insertion(n, done), n0, i0, handled) && delta == Gap(Insertion(n, done), n0, i0, handled)
  {
  }

  /** The text of these insertions after the head, unless there was an overflow. */
  predicate Emits(r: Result<CodeUnits>, head: CodeUnits, ts: seq<Insertion>, n0: nat, i0: nat, bias: nat, len: nat) {
    && i0 <= len && Ordered(ts, n0, i0, len)
    && (r == Overflow || r == Ok(head + Text(ts, n0, i0, bias, len)))
  }

  lemma EmitsCons(r: Result<CodeUnits>, head: CodeUnits, t: Insertion, rest: seq<Insertion>, n0: nat, i0: nat, bias: nat, len: nat)
    requires i0 <= len && Onward(t, n0, i0, len)
    requires var delta := Gap(t, n0, i0, len);
             Emits(r, head + DeltaText(delta, bias), rest, t.cp, t.pos + 1, Adapted(delta, len + 1, i0 == 0), len + 1)
    ensures Emits(r, head, [t] + rest, n0, i0, bias, len)
  {
    Cons(t, rest);
    var delta := Gap(t, n0, i0, len);
    Associative(head, DeltaText(delta, bias), Text(rest, t.cp, t.pos + 1, Adapted(delta, len + 1, i0 == 0), len + 1));
  }

  /** The end of a pass is the beginning of a round. */
  lemma PassEnds(cps: seq<nat>, n: nat, points: nat, basic: nat, e: Emission, n0: nat, i0: nat)
    requires InStep(cps, |cps|, n, points, basic, e, n0, i0)
    ensures RoundInStep(cps, n + 1, basic, e.(delta := e.delta + 1), n0, i0)
    ensures Resumed(cps, |cps|, n, points, basic, e) == Passes(cps, n + 1, basic, e.(delta := e.delta + 1))
  {
    MidwayEnd(cps, n);
    NextMultiple(n, n0, e.handled + 1);
  }

  lemma NextMultiple(n: nat, n0: nat, points: nat)
    ensures (n + 1 - n0) * points == (n - n0) * points + points
  {
  }

  lemma PassEmits(cps: seq<nat>, j: nat, n: nat, points: nat, basic: nat, e: Emission, n0: nat, i0: nat)
    requires InStep(cps, j, n, points, basic, e, n0, i0) && j < |cps| && cps[j] == n
    requires points == CountBelow(cps, n) + 1 && basic <= e.handled
    requires |Midway(cps, j + 1, n)| == e.handled + 1
    requires var e' := Emitted(e, points, basic);
             Emits(Resumed(cps, j + 1, n, points, basic, e'), e'.text, PassInsertions(cps, j + 1, n), n, Done(cps, j, n) + 1,
                   e'.bias, e'.handled)
    ensures Emits(Resumed(cps, j, n, points, basic, e), e.text, PassInsertions(cps, j, n), n0, i0, e.bias, e.handled)
  {
    var t := Insertion(n, Done(cps, j, n));
    ResumedStep(cps, j, n, points, basic, e);
    StepEmit(cps, j, n, points, basic, e, n0, i0);
    EmitsCons(Resumed(cps, j, n, points, basic, e), e.text, t, PassInsertions(cps, j + 1, n), n0, i0, e.bias, e.handled);
  }

  lemma PassSkips(cps: seq<nat>, j: nat, n: nat, points: nat, basic: nat, e: Emission, n0: nat, i0: nat)
    requires InRange(cps) && j < |cps| && cps[j] != n && points > 0
    requires e.handled == |Midway(cps, j, n)| == |Midway(cps, j + 1, n)|
    requires var e' := if cps[j] < n then e.(delta := e.delta + 1) else e;
             Emits(Resumed(cps, j + 1, n, points, basic, e'), e'.text, PassInsertions(cps, j + 1, n), n0, i0, e'.bias, e'.handled)
    ensures Emits(Resumed(cps, j, n, points, basic, e), e.text, PassInsertions(cps, j, n), n0, i0, e.bias, e.handled)
  {
    ResumedStep(cps, j, n, points, basic, e);
  }

  lemma {:induction false} PassText(cps: seq<nat>, j: nat, n: nat, points: nat, basic: nat, e: Emission, n0: nat, i0: nat)
    requires InStep(cps, j, n, points, basic, e, n0, i0)
    requires points == CountBelow(cps, n) + 1 && basic <= e.handled
    ensures Emits(Resumed(cps, j, n, points, basic, e), e.text, PassInsertions(cps, j, n), n0, i0, e.bias, e.handled)
    decreases |cps| - CountBelow(cps, n + 1), |cps| - j + 1
  {
    if j == |cps| {
      PassEnds(cps, n, points, basic, e, n0, i0);
      RoundText(cps, n + 1, basic, e.(delta := e.delta + 1), n0, i0);
    } else if cps[j] == n {
      StepEmit(cps, j, n, points, basic, e, n0, i0);
      PassText(cps, j + 1, n, points, basic, Emitted(e, points, basic), n, Done(cps, j, n) + 1);
      PassEmits(cps, j, n, points, basic, e, n0, i0);
    } else if cps[j] < n {
      StepBelow(cps, j, n, points, basic, e, n0, i0);
      PassText(cps, j + 1, n, points, basic, e.(delta := e.delta + 1), n0, i0);
      PassSkips(cps, j, n, points, basic, e, n0, i0);
    } else {
      StepAbove(cps, j, n, points, basic, e, n0, i0);
      PassText(cps, j + 1, n, points, basic, e, n0, i0);
      PassSkips(cps, j, n, points, basic, e, n0, i0);
    }
  }

  /** The rounds from n on emit the text of their insertions, unless one raises overflow. */
  lemma {:induction false} RoundText(cps: seq<nat>, n: nat, basic: nat, e: Emission, n0: nat, i0: nat)
    requires RoundInStep(cps, n, basic, e, n0, i0) && basic <= e.handled
    ensures Emits(Passes(cps, n, basic, e), e.text, RoundInsertions(cps, n), n0, i0, e.bias, e.handled)
    decreases |cps| - CountBelow(cps, n), 0
  {
    if CountBelow(cps, n) >= |cps| {
      assert e.text + [] == e.text;
    } else {
      var m := Smallest(cps, n);
      NextPass(cps, n);
      RoundStarts(cps, n, basic, e, n0, i0, m);
      PassText(cps, 0, m, e.handled + 1, basic, Grown(e, m - n), n0, i0);
    }
  }

  /** A round that its guard lets through is the beginning of a pass. */
  lemma RoundStarts(cps: seq<nat>, n: nat, basic: nat, e: Emission, n0: nat, i0: nat, m: nat)
    requires RoundInStep(cps, n, basic, e, n0, i0) && basic <= e.handled
    requires CountBelow(cps, n) < |cps| && m == Smallest(cps, n) && n <= m
    ensures InStep(cps, 0, m, e.handled + 1, basic, Grown(e, m - n), n0, i0) && e.handled == CountBelow(cps, m)
    ensures var r := Passes(cps, n, basic, e);
            r == Overflow || r == Resumed(cps, 0, m, e.handled + 1, basic, Grown(e, m - n))
  {
    GrownInStep(cps, n, basic, e, n0, i0, m);
    PassesResumed(cps, n, basic, e, m);
  }

  lemma PassesResumed(cps: seq<nat>, n: nat, basic: nat, e: Emission, m: nat)
    requires InRange(cps) && e.handled == CountBelow(cps, n) < |cps| && m == Smallest(cps, n) && n <= m
    requires 0 <= e.delta + (m - n) * (e.handled + 1) && e.handled == |Midway(cps, 0, m)|
    ensures var r := Passes(cps, n, basic, e);
            r == Overflow || r == Resumed(cps, 0, m, e.handled + 1, basic, Grown(e, m - n))
  {
    PassesStep(cps, n, basic, e, m);
  }

  lemma GrownInStep(cps: seq<nat>, n: nat, basic: nat, e: Emission, n0: nat, i0: nat, m: nat)
    requires RoundInStep(cps, n, basic, e, n0, i0) && basic <= e.handled
    requires CountBelow(cps, n) < |cps| && m == Smallest(cps, n) && n <= m
    ensures InStep(cps, 0, m, e.handled + 1, basic, Grown(e, m - n), n0, i0) && e.handled == CountBelow(cps, m)
  {
    NextPass(cps, n);
    MultiplyMonotone(0, m - n, e.handled + 1);
    Growth(m, n, n0, e.handled + 1);
    assert cps[..0] == [] && cps[0..] == cps;
  }

  lemma Growth(m: nat, n: nat, n0: nat, points: nat)
    ensures (m - n0) * points == (n - n0) * points + (m - n) * points
  {
  }
}
