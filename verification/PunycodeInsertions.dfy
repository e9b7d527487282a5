/**
  Between the two state machines of Punycode: the list of insertions that a text of deltas stands
  for, the one list that builds a given sequence of code points, and the decoder reading such a text.
 */
module PunycodeInsertions {
  import opened Arithmetic
  import opened Punycode
  import opened PunycodeDeltas
  import opened Sequences

  datatype Insertion = Insertion(cp: nat, pos: nat)

  /** An insertion at or after the state (n, i) of the decoder. */
  predicate Onward(t: Insertion, n: nat, i: nat, len: nat) {
    (t.cp > n || (t.cp == n && t.pos >= i)) && t.pos <= len
  }

  /** Insertions in the order a decoder in state (n, i) can make them on a list of this length. */
  predicate Ordered(ts: seq<Insertion>, n: nat, i: nat, len: nat)
    decreases |ts|
  {
    ts == [] || (Onward(ts[0], n, i, len) && Ordered(ts[1..], ts[0].cp, ts[0].pos + 1, len + 1))
  }

  /** The steps of the decoder's state between two insertions. */
  function Gap(t: Insertion, n: nat, i: nat, len: nat): (delta: nat)
    requires Onward(t, n, i, len) && i <= len
  {
    MultiplyMonotone(if t.cp == n then 0 else 1, t.cp - n, len + 1);
    (t.cp - n) * (len + 1) + t.pos - i
  }

  /** The text of a list of insertions. */
  function Text(ts: seq<Insertion>, n: nat, i: nat, bias: nat, len: nat): CodeUnits
    requires Ordered(ts, n, i, len) && i <= len
    decreases |ts|
  {
    if ts == [] then []
    else
      var t := ts[0];
      var delta := Gap(t, n, i, len);
      DeltaText(delta, bias) + Text(ts[1..], t.cp, t.pos + 1, Adapted(delta, len + 1, i == 0), len + 1)
  }

  /** Every position is within the list at the time. */
  predicate Fitting(ts: seq<Insertion>, len: nat)
    decreases |ts|
  {
    ts == [] || (ts[0].pos <= len && Fitting(ts[1..], len + 1))
  }

  function InsertedAll(output: seq<nat>, ts: seq<Insertion>): seq<nat>
    requires Fitting(ts, |output|)
    decreases |ts|
  {
    if ts == [] then output else InsertedAll(Inserted(output, ts[0].pos, ts[0].cp), ts[1..])
  }

  lemma {:induction false} OrderedFits(ts: seq<Insertion>, n: nat, i: nat, len: nat)
    requires Ordered(ts, n, i, len)
    ensures Fitting(ts, len)
    decreases |ts|
  {
    if ts != [] {
      OrderedFits(ts[1..], ts[0].cp, ts[0].pos + 1, len + 1);
    }
  }

  // ----- the decoder reads insertions

  /** The state of the decoder after one insertion. */
  function After(t: Insertion, d: Decoding): Decoding
    requires Onward(t, d.n, d.i, |d.output|) && d.i <= |d.output|
  {
    Decoding(Inserted(d.output, t.pos, t.cp), t.cp, t.pos + 1,
             Adapted(Gap(t, d.n, d.i, |d.output|), |d.output| + 1, d.i == 0))
  }

  lemma PlacedInsertion(d: Decoding, t: Insertion, i: nat)
    requires Onward(t, d.n, d.i, |d.output|) && d.i <= |d.output| && i == d.i + Gap(t, d.n, d.i, |d.output|)
    ensures Placed(d, i) == if t.cp > MAX_INT then Overflow else Ok(After(t, d))
  {
    QuotientUnique(i, |d.output| + 1, t.cp - d.n, t.pos);
  }

  /** Decoding a text that begins with the digits of a delta. */
  lemma FirstDelta(text: CodeUnits, delta: nat, rest: CodeUnits, d: Decoding)
    requires text == DeltaText(delta, d.bias) + rest
    ensures DecodedFrom(text, d) ==
            if !Addable(delta, d.bias, BASE, d.i, 1, delta) || !Placed(d, d.i + delta).Ok? then Overflow
            else DecodedFrom(rest, Placed(d, d.i + delta).value)
  {
    DeltaCharacters(delta, d.bias);
    ReadDigits(delta, d.bias, BASE, d.i, 1, delta, rest);
    if Addable(delta, d.bias, BASE, d.i, 1, delta) {
      DecodedStep(text, d, d.i + delta, rest);
    }
  }

  /** The decoder can make the insertion: its delta can be added, and the code point is within range. */
  predicate Insertable(t: Insertion, d: Decoding)
    requires Onward(t, d.n, d.i, |d.output|) && d.i <= |d.output|
  {
    var delta := Gap(t, d.n, d.i, |d.output|);
    Addable(delta, d.bias, BASE, d.i, 1, delta) && t.cp <= MAX_INT
  }

  predicate AllInsertable(ts: seq<Insertion>, d: Decoding)
    requires Ordered(ts, d.n, d.i, |d.output|) && d.i <= |d.output|
    decreases |ts|
  {
    ts == [] || (Insertable(ts[0], d) && AllInsertable(ts[1..], After(ts[0], d)))
  }

  function TextFrom(ts: seq<Insertion>, d: Decoding): CodeUnits
    requires Ordered(ts, d.n, d.i, |d.output|) && d.i <= |d.output|
  {
    Text(ts, d.n, d.i, d.bias, |d.output|)
  }

  /** A text begins with the delta of its first insertion. */
  lemma FirstText(ts: seq<Insertion>, d: Decoding)
    requires Ordered(ts, d.n, d.i, |d.output|) && d.i <= |d.output| && ts != []
    ensures |After(ts[0], d).output| == |d.output| + 1
    ensures TextFrom(ts, d) == DeltaText(Gap(ts[0], d.n, d.i, |d.output|), d.bias) + TextFrom(ts[1..], After(ts[0], d))
  {
  }

  /** The decoder makes the first insertion of a text, or overflows if it cannot. */
  lemma FirstInsertion(ts: seq<Insertion>, d: Decoding, rest: CodeUnits)
    requires Ordered(ts, d.n, d.i, |d.output|) && d.i <= |d.output| && ts != []
    requires rest == TextFrom(ts[1..], After(ts[0], d))
    ensures DecodedFrom(TextFrom(ts, d), d) == if Insertable(ts[0], d) then DecodedFrom(rest, After(ts[0], d)) else Overflow
  {
    FirstText(ts, d);
    PlacedInsertion(d, ts[0], d.i + Gap(ts[0], d.n, d.i, |d.output|));
    FirstDelta(TextFrom(ts, d), Gap(ts[0], d.n, d.i, |d.output|), rest, d);
  }

  /** Decoding the text of insertions makes them, and overflows exactly when one of them cannot be made. */
  lemma {:induction false} DecodeText(ts: seq<Insertion>, d: Decoding)
    requires Ordered(ts, d.n, d.i, |d.output|) && d.i <= |d.output|
    ensures Fitting(ts, |d.output|)
    ensures DecodedFrom(TextFrom(ts, d), d) == if AllInsertable(ts, d) then Ok(InsertedAll(d.output, ts)) else Overflow
    decreases |ts|
  {
    OrderedFits(ts, d.n, d.i, |d.output|);
    if ts != [] {
      FirstInsertion(ts, d, TextFrom(ts[1..], After(ts[0], d)));
      DecodeText(ts[1..], After(ts[0], d));
    }
  }

  /** The text is that of the insertions, and making them gives the result. */
  predicate Stands(ts: seq<Insertion>, text: CodeUnits, d: Decoding, r: Result<seq<nat>>) {
    && d.i <= |d.output| && Ordered(ts, d.n, d.i, |d.output|) && Fitting(ts, |d.output|)
    && text == TextFrom(ts, d) && r == Ok(InsertedAll(d.output, ts))
  }

  lemma StandsCons(t: Insertion, rest: seq<Insertion>, tail: CodeUnits, d: Decoding, r: Result<seq<nat>>)
    requires d.i <= |d.output| && Onward(t, d.n, d.i, |d.output|) && Stands(rest, tail, After(t, d), r)
    ensures Stands([t] + rest, DeltaText(Gap(t, d.n, d.i, |d.output|), d.bias) + tail, d, r)
  {
    Cons(t, rest);
    FirstText([t] + rest, d);
  }

  /** Whatever lower-case text decodes is the text of insertions, and decoding makes them. */
  lemma {:induction false} DecodedIsText(text: CodeUnits, d: Decoding) returns (ts: seq<Insertion>)
    requires DecodedFrom(text, d).Ok? && Lower(text) && d.i <= |d.output|
    ensures Stands(ts, text, d, DecodedFrom(text, d))
    decreases |text|
  {
    if text == [] {
      ts := [];
      StandsEmpty(d);
    } else {
      var t, tail := FirstRead(text, d);
      var rest := DecodedIsText(tail, After(t, d));
      StandsCons(t, rest, tail, d, DecodedFrom(tail, After(t, d)));
      ts := [t] + rest;
    }
  }

  lemma StandsEmpty(d: Decoding)
    requires d.i <= |d.output|
    ensures Stands([], [], d, DecodedFrom([], d))
  {
  }

  /** The first delta of a text that decodes, as an insertion. */
  lemma FirstRead(text: CodeUnits, d: Decoding) returns (t: Insertion, tail: CodeUnits)
    requires DecodedFrom(text, d).Ok? && Lower(text) && d.i <= |d.output| && text != []
    ensures Onward(t, d.n, d.i, |d.output|) && |tail| < |text| && Lower(tail)
    ensures text == DeltaText(Gap(t, d.n, d.i, |d.output|), d.bias) + tail
    ensures DecodedFrom(text, d) == DecodedFrom(tail, After(t, d))
  {
    var r := ReadDelta(text, d.i, d.bias, BASE, 1).value;
    tail := r.rest;
    var delta := ReadIsDigits(text, d.i, d.bias, BASE, 1);
    t := StateAsInsertion(d, r.i);
    PlacedInsertion(d, t, r.i);
    DecodedStep(text, d, r.i, tail);
  }

  /** Where a position i of the decoder inserts. */
  lemma StateAsInsertion(d: Decoding, i: nat) returns (t: Insertion)
    requires d.i <= i && d.i <= |d.output|
    ensures Onward(t, d.n, d.i, |d.output|) && Gap(t, d.n, d.i, |d.output|) == i - d.i
  {
    var out := |d.output| + 1;
    QuotientAtMost(i, out);
    t := Insertion(d.n + i / out, i % out);
    if t.cp == d.n {
      assert i == i % out;
    }
  }

  // ----- one list of insertions builds a sequence

  /** Every element is at most n, and those from position i on are smaller. */
  predicate Topped(cps: seq<nat>, n: nat, i: nat) {
    forall k :: 0 <= k < |cps| ==> cps[k] <= n && (k >= i ==> cps[k] < n)
  }

  lemma ToppedInserted(cps: seq<nat>, n: nat, i: nat, t: Insertion)
    requires Topped(cps, n, i) && Onward(t, n, i, |cps|)
    ensures Topped(Inserted(cps, t.pos, t.cp), t.cp, t.pos + 1)
  {
    var r := Inserted(cps, t.pos, t.cp);
    forall k | 0 <= k < |r|
      ensures r[k] <= t.cp && (k >= t.pos + 1 ==> r[k] < t.cp)
    {
      if k < t.pos { assert r[k] == cps[k]; } else if k > t.pos { assert r[k] == cps[k - 1]; }
    }
  }

  /** The state of the decoder after all insertions. */
  function FinalN(ts: seq<Insertion>, n: nat): nat {
    if ts == [] then n else ts[|ts| - 1].cp
  }

  function FinalI(ts: seq<Insertion>, i: nat): nat {
    if ts == [] then i else ts[|ts| - 1].pos + 1
  }

  /** Taking the last insertion apart. */
  lemma {:induction false} LastInsertion(ts: seq<Insertion>, t: Insertion, n: nat, i: nat, output: seq<nat>)
    requires Ordered(ts + [t], n, i, |output|)
    ensures Ordered(ts, n, i, |output|) && Fitting(ts, |output|) && Fitting(ts + [t], |output|)
    ensures |InsertedAll(output, ts)| == |output| + |ts| && Onward(t, FinalN(ts, n), FinalI(ts, i), |output| + |ts|)
    ensures InsertedAll(output, ts + [t]) == Inserted(InsertedAll(output, ts), t.pos, t.cp)
    decreases |ts|
  {
    var all := ts + [t];
    OrderedFits(all, n, i, |output|);
    if ts == [] {
      assert all[0] == t && all[1..] == [];
    } else {
      assert all[0] == ts[0] && all[1..] == ts[1..] + [t];
      LastInsertion(ts[1..], t, ts[0].cp, ts[0].pos + 1, Inserted(output, ts[0].pos, ts[0].cp));
    }
  }

  lemma {:induction false} ToppedAll(ts: seq<Insertion>, n: nat, i: nat, output: seq<nat>)
    requires Ordered(ts, n, i, |output|) && Topped(output, n, i)
    ensures Fitting(ts, |output|) && Topped(InsertedAll(output, ts), FinalN(ts, n), FinalI(ts, i))
    decreases |ts|
  {
    if ts != [] {
      ToppedInserted(output, n, i, ts[0]);
      ToppedAll(ts[1..], ts[0].cp, ts[0].pos + 1, Inserted(output, ts[0].pos, ts[0].cp));
    }
  }

  /** The rightmost largest element tells what was inserted last. */
  lemma LastIsLargest(x: seq<nat>, y: seq<nat>, t: Insertion, u: Insertion)
    requires t.pos <= |x| && u.pos <= |y| && Inserted(x, t.pos, t.cp) == Inserted(y, u.pos, u.cp)
    requires Topped(Inserted(x, t.pos, t.cp), t.cp, t.pos + 1) && Topped(Inserted(y, u.pos, u.cp), u.cp, u.pos + 1)
    ensures t == u && x == y
  {
    var z := Inserted(x, t.pos, t.cp);
    assert z[t.pos] == t.cp && z[u.pos] == u.cp;
    assert t == u;
    assert x == z[..t.pos] + z[t.pos + 1..];
    assert y == z[..t.pos] + z[t.pos + 1..];
  }

  /** Two ordered lists of insertions that build the same sequence from the same start are equal. */
  lemma {:induction false} InsertionsUnique(ts: seq<Insertion>, us: seq<Insertion>, n: nat, i: nat, output: seq<nat>)
    requires Ordered(ts, n, i, |output|) && Ordered(us, n, i, |output|) && Topped(output, n, i)
    requires Fitting(ts, |output|) && Fitting(us, |output|) && InsertedAll(output, ts) == InsertedAll(output, us)
    ensures ts == us
    decreases |ts|
  {
    InsertedLength(output, ts);
    InsertedLength(output, us);
    if ts != [] {
      var last := |ts| - 1;
      var ts', t, us', u := ts[..last], ts[last], us[..last], us[last];
      assert ts == ts' + [t] && us == us' + [u];
      LastInsertion(ts', t, n, i, output);
      LastInsertion(us', u, n, i, output);
      ToppedAll(ts, n, i, output);
      ToppedAll(us, n, i, output);
      LastIsLargest(InsertedAll(output, ts'), InsertedAll(output, us'), t, u);
      InsertionsUnique(ts', us', n, i, output);
    }
  }

  lemma {:induction false} InsertedLength(output: seq<nat>, ts: seq<Insertion>)
    requires Fitting(ts, |output|)
    ensures |InsertedAll(output, ts)| == |output| + |ts|
    decreases |ts|
  {
    if ts != [] {
      InsertedLength(Inserted(output, ts[0].pos, ts[0].cp), ts[1..]);
    }
  }
}
