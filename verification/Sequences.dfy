/**
  Facts about sequences that proofs about words, texts and lists call by name.
 */
module Sequences {

  lemma Snoc<T>(s: seq<T>)
    requires s != []
    ensures s == s[..|s| - 1] + [s[|s| - 1]]
  {
  }

  lemma Cons<T>(x: T, s: seq<T>)
    ensures ([x] + s)[0] == x && ([x] + s)[1..] == s
  {
  }

  lemma ConcatTail<T>(u: seq<T>, v: seq<T>)
    requires u != []
    ensures (u + v)[0] == u[0] && (u + v)[1..] == u[1..] + v
  {
  }

  lemma ConcatFront<T>(u: seq<T>, v: seq<T>)
    requires v != []
    ensures (u + v)[..|u + v| - 1] == u + v[..|v| - 1] && (u + v)[|u + v| - 1] == v[|v| - 1]
  {
  }

  lemma Associative<T>(a: seq<T>, b: seq<T>, c: seq<T>)
    ensures a + b + c == a + (b + c)
  {
  }

  lemma Unit<T>(s: seq<T>)
    ensures [] + s == s && s + [] == s
  {
  }

  lemma TakeDrop<T>(s: seq<T>, i: nat)
    requires i <= |s|
    ensures s == s[..i] + s[i..]
  {
  }

  lemma TakeNext<T>(s: seq<T>, i: nat)
    requires i < |s|
    ensures s[..i + 1] == s[..i] + [s[i]]
  {
  }

  lemma DropNext<T>(s: seq<T>, i: nat)
    requires i < |s|
    ensures s[i..][0] == s[i] && s[i..][1..] == s[i + 1..]
  {
  }

  lemma TakeRange<T>(s: seq<T>, i: nat, j: nat)
    requires i <= j <= |s|
    ensures s[..j] == s[..i] + s[i..j]
  {
  }

  lemma Whole<T>(s: seq<T>)
    ensures s[..|s|] == s
  {
  }

  lemma FromStart<T>(s: seq<T>)
    ensures s[0..] == s
  {
  }
}
