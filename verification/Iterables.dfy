/**
  Iterators over the keys below a path, and the tokens that resume them.
 */
module Iterables {
  import opened Base64
  import opened BitWords
  import opened ByteStrings
  import opened Nesting
  import opened PathBase
  import opened Paths
  import opened PowerEncoding
  import opened Sequences
  import opened Stacks
  import opened Trie

  /** What an iterator is declared over. */
  datatype Kind = NumberKeys | StringKeys

  datatype Item = NumberItem(number: nat) | TextItem(text: seq<nat>)

  /** The item read from the front of the bits, whatever they were written from. */
  function ItemOf(kind: Kind, w: Word): Item {
    match kind
    case NumberKeys => NumberItem(DecodedKey(w).0)
    case StringKeys => TextItem(DecodedString(w).0)
  }

  /** The item of a number's key is the number. */
  lemma ItemOfNumber(v: nat)
    ensures ItemOf(NumberKeys, NumberKey(v)) == NumberItem(v)
  {
    NumberKeyRoundTrip(v, []);
    Unit(NumberKey(v));
  }

  /** The item of a string's key is the string. */
  lemma ItemOfText(s: Bytes)
    ensures ItemOf(StringKeys, StringKey(s)) == TextItem(Numbers(s))
  {
    StringKeyRoundTrip(s, []);
    Unit(StringKey(s));
  }

  /** Of several keys in a row the item is that of the first. */
  lemma ItemOfFirst(kind: Kind, k: Word, rest: Word)
    requires IsKey(k)
    ensures ItemOf(kind, k + rest) == ItemOf(kind, k)
  {
    DecodedKeyAlone(k, rest);
    DecodedStringAlone(k, rest);
  }

  /** Reads the item off the front of a stack. Reading takes exactly one key, whether it was
      written as such an item or not, so the running count is back at zero. */
  method ReadItem(kind: Kind, stack: Stack) returns (item: Item)
    modifies stack
    ensures stack.bits == old(stack.bits) && item == ItemOf(kind, stack.bits)
    ensures stack.count >= 0 && (Balanced(stack.bits) && stack.bits != [] ==> stack.count == 0)
  {
    stack.Reset();
    FromStart(stack.bits);
    ghost var good, n: nat := Balanced(stack.bits) && stack.bits != [], 0;
    if good {
      n := FirstKey(stack.bits);
      assert stack.bits[0..n] == stack.bits[..n];
    }
    match kind
    case NumberKeys =>
      var number := stack.ReadNumber();
      item := NumberItem(number);
    case StringKeys =>
      var text := stack.ReadString();
      item := TextItem(text);
  }

  /** `Next` with the item read off the stack. */
  method NextItem(kind: Kind, path: Path, stack: Stack, ghost start: nat) returns (found: bool, item: Item)
    requires path.Valid() && start in path.database.branches
    requires Trail(path.database.branches, start, stack.bits, path.index)
    requires Ready(path.database.branches, start, stack.bits, stack.count)
    modifies path, stack, path.database
    ensures path.Valid() && unchanged(path.database) && stack.count == 0
    ensures Moved(true, path.database.branches, start, old(stack.bits), found, stack.bits, path.index)
    ensures Exact(true, path.database.branches, start, old(stack.bits), found, stack.bits)
    ensures found ==> Balanced(stack.bits) && item == ItemOf(kind, stack.bits)
  {
    ghost var w0 := stack.bits;
    found := Next(path, stack, start);
    item := NumberItem(0);
    if found {
      CandidateBalanced(w0, stack.bits);
      item := ReadItem(kind, stack);
    }
  }

  /** An iterator: a cursor, the bits of the keys it stands at, and the item they encode. */
  class KeyIterator {
    const kind: Kind
    const path: Path
    const stack: Stack
    var item: Item
    var isEnd: bool
    ghost const start: nat

    /** Standing at a key, nested or not, or past the last one. */
    ghost predicate Valid()
      reads this, path, stack, path.database
    {
      && path.Valid() && start in path.database.branches && path.database.branches[start].left == 0
      && stack.count == 0 && Balanced(stack.bits)
      && Walk(path.database.branches, start, stack.bits) == Some(path.index)
      && if isEnd then stack.bits == [] else stack.bits != [] && item == ItemOf(kind, stack.bits)
    }

    /** The first key below the path. */
    constructor (kind: Kind, from: Path)
      requires from.Valid() && from.database.branches[from.index].left == 0
      modifies from.database
      ensures unchanged(from.database) && this.kind == kind
      ensures Valid() && start == from.index && path.database == from.database && fresh(path) && fresh(stack)
      ensures Exact(true, path.database.branches, start, [], !isEnd, stack.bits)
    {
      this.kind := kind;
      path := new Path(from.database, from.index);
      stack := new Stack();
      start, item, isEnd := from.index, NumberItem(0), true;
      new;
      ReadyAt(path.database.branches, start, []);
      var found, v := NextItem(kind, path, stack, start);
      isEnd, item := !found, v;
    }

    /** The key after the one the given bits lead to; the bits must lead there. */
    constructor After(kind: Kind, from: Path, bits: Stack)
      requires from.Valid() && from.database.branches[from.index].left == 0
      requires Leads(from.database.branches, from.index, bits.bits) && Balanced(bits.bits)
      modifies from.database
      ensures unchanged(from.database) && this.kind == kind
      ensures Valid() && start == from.index && path.database == from.database && fresh(path) && fresh(stack)
      ensures Exact(true, path.database.branches, start, old(bits.bits), !isEnd, stack.bits)
    {
      this.kind := kind;
      path := new Path(from.database, from.index);
      stack := new Stack.Copy(bits);
      start, item, isEnd := from.index, NumberItem(0), true;
      new;
      ghost var br := from.database.branches;
      for i := 0 to |bits.bits|
        invariant path.Valid() && unchanged(from.database)
        invariant stack.bits == old(bits.bits) == bits.bits && stack.count == 0
        invariant Walk(br, start, bits.bits[..i]) == Some(path.index)
      {
        WalkOneMore(br, start, bits.bits, i);
        if bits.bits[i] {
          path.GoRight();
        } else {
          path.GoLeft();
        }
      }
      Whole(bits.bits);
      WalkTrail(br, start, bits.bits);
      ReadyAt(br, start, bits.bits);
      var found, v := NextItem(kind, path, stack, start);
      isEnd, item := !found, v;
    }

    /** Moves on to the next key; past the last one, to the first again. */
    method Increment()
      requires Valid()
      modifies this, path, stack, path.database
      ensures Valid() && unchanged(path.database)
      ensures Exact(true, path.database.branches, start, old(stack.bits), !isEnd, stack.bits)
    {
      WalkTrail(path.database.branches, start, stack.bits);
      ReadyAt(path.database.branches, start, stack.bits);
      var found, v := NextItem(kind, path, stack, start);
      isEnd, item := !found, v;
    }

    /** The token of the position: the bits, packed and written in Base64. */
    method ToKey() returns (key: Bytes)
      ensures key == Base64Text(Packed(stack.bits))
    {
      var data := stack.ToData();
      key := ToBase64(data);
    }
  }

  /** `Previous` with the item read off the stack. */
  method PreviousItem(kind: Kind, path: Path, stack: Stack, ghost start: nat) returns (found: bool, item: Item)
    requires path.Valid() && start in path.database.branches && stack.count >= 0
    requires Trail(path.database.branches, start, stack.bits, path.index)
    modifies path, stack, path.database
    ensures path.Valid() && unchanged(path.database) && stack.count >= 0
    ensures Moved(false, path.database.branches, start, old(stack.bits), found, stack.bits, path.index)
    ensures found ==> item == ItemOf(kind, stack.bits)
    ensures Standing(path.database.branches, start, old(stack.bits)) && old(stack.count) == 0 ==>
              && ExactIfClear(path.database.branches, start, old(stack.bits), found, stack.bits, stack.count)
              && (NearestClear(path.database.branches, start, old(stack.bits)) ==> Balanced(stack.bits))
  {
    ghost var br, w0, count0 := path.database.branches, stack.bits, stack.count;
    if Standing(br, start, w0) { ReadyAt(br, start, w0); }
    found := Previous(path, stack, start);
    item := NumberItem(0);
    if Standing(br, start, w0) && count0 == 0 && NearestClear(br, start, w0) {
      if found {
        CandidateBalanced(w0, stack.bits);
      } else {
        ReadyAt(br, start, []);
      }
    }
    if found {
      item := ReadItem(kind, stack);
    }
  }

  /** At keys in a row, or at the start, where no key starts with a zero. */
  ghost predicate Standing(br: Branches, start: nat, w: Word)
    requires WellLinked(br) && start in br
  {
    br[start].left == 0 && Balanced(w) && Leads(br, start, w) && OnesFirst(br, start, w)
  }

  /** An iterator that moves backwards. */
  class ReverseIterator {
    const kind: Kind
    const path: Path
    const stack: Stack
    var item: Item
    var isEnd: bool
    ghost const start: nat

    /** The cursor stands where the bits lead, and the item is read from them. */
    ghost predicate Valid()
      reads this, path, stack, path.database
    {
      && path.Valid() && start in path.database.branches && stack.count >= 0
      && Walk(path.database.branches, start, stack.bits) == Some(path.index)
      && if isEnd then stack.bits == [] else stack.bits != [] && item == ItemOf(kind, stack.bits)
    }

    /** The last key below the path, if that does not end where a right child goes on. */
    constructor (kind: Kind, from: Path)
      requires from.Valid()
      modifies from.database
      ensures unchanged(from.database) && this.kind == kind
      ensures Valid() && start == from.index && path.database == from.database && fresh(path) && fresh(stack)
      ensures path.database.branches[start].left == 0 ==>
                ExactIfClear(path.database.branches, start, [], !isEnd, stack.bits, stack.count)
    {
      this.kind := kind;
      path := new Path(from.database, from.index);
      stack := new Stack();
      start, item, isEnd := from.index, NumberItem(0), true;
      new;
      ghost var br := path.database.branches;
      if br[start].left == 0 {
        ReadyAt(br, start, []);
        SingleOnesFirst(br, start, []);
      }
      var found, v := PreviousItem(kind, path, stack, start);
      isEnd, item := !found, v;
    }

    /** Where a forward iterator stands, which may be at keys nested below each other. */
    constructor From(source: KeyIterator)
      requires source.Valid()
      ensures Valid() && start == source.start && path.database == source.path.database && fresh(path) && fresh(stack)
      ensures kind == source.kind && stack.bits == source.stack.bits && stack.count == 0
      ensures isEnd == source.isEnd && item == source.item
    {
      kind := source.kind;
      path := new Path(source.path.database, source.path.index);
      stack := new Stack.Copy(source.stack);
      start, item, isEnd := source.start, source.item, source.isEnd;
    }

    /** Moves on to the nearest key to the left, if and only if that does not end where a right child
        goes on; past the last one, to the right end again. */
    method Increment()
      requires Valid()
      modifies this, path, stack, path.database
      ensures Valid() && unchanged(path.database)
      ensures Standing(path.database.branches, start, old(stack.bits)) && old(stack.count) == 0 ==>
                && ExactIfClear(path.database.branches, start, old(stack.bits), !isEnd, stack.bits, stack.count)
                && (NearestClear(path.database.branches, start, old(stack.bits)) ==> Balanced(stack.bits))
    {
      WalkTrail(path.database.branches, start, stack.bits);
      var found, v := PreviousItem(kind, path, stack, start);
      isEnd, item := !found, v;
    }
  }

  /** From one number to the next the item grows. */
  lemma NumbersInOrder(br: Branches, start: nat, v: nat, v': nat)
    requires WellLinked(br) && start in br && Exact(true, br, start, NumberKey(v), true, NumberKey(v'))
    ensures v < v'
  {
    NumberKeyIsKey(v);
    NumberKeyIsKey(v');
    KeysPrefixFree(NumberKey(v), NumberKey(v'));
    NumberKeyOrder(v, v');
  }

  /** From one string to the next the item grows in bytewise order. */
  lemma TextsInOrder(br: Branches, start: nat, s: Bytes, s': Bytes)
    requires WellLinked(br) && start in br && Exact(true, br, start, StringKey(s), true, StringKey(s'))
    ensures BytesLess(s, s')
  {
    StringKeyIsKey(s);
    StringKeyIsKey(s');
    KeysPrefixFree(StringKey(s), StringKey(s'));
    StringKeyOrder(s, s');
  }

  /** The bits a token stands for. */
  ghost function TokenBits(key: Bytes): Word
    requires FedAll(Decoding([], []), key).Decoding?
  {
    Kept(Unpacked(FedAll(Decoding([], []), key).output))
  }

  datatype Resumed = InvalidBase64 | InvalidStack | Resumed(it: KeyIterator)

  /** Resumes after a token, whatever keys it runs through. A text that is not Base64, bits that do
      not count back to zero and bits that do not lead to a branch are refused. */
  method Begin(kind: Kind, from: Path, key: Bytes) returns (result: Resumed)
    requires from.Valid() && from.database.branches[from.index].left == 0
    modifies from.database
    ensures unchanged(from.database)
    ensures var d := FedAll(Decoding([], []), key);
            && (result.InvalidBase64? <==> d.Invalid?)
            && (result.InvalidStack? <==>
                  d.Decoding? && (Level(TokenBits(key)) != 0 || !Leads(from.database.branches, from.index, TokenBits(key))))
    ensures result.Resumed? ==>
              && fresh(result.it) && fresh(result.it.path) && fresh(result.it.stack)
              && result.it.Valid() && result.it.start == from.index && result.it.kind == kind
              && result.it.path.database == from.database
              && Exact(true, from.database.branches, from.index, TokenBits(key),
                       !result.it.isEnd, result.it.stack.bits)
  {
    var ok, data := FromBase64(key);
    if !ok {
      return InvalidBase64;
    }
    var stack := new Stack.FromData(data);
    if stack.count != 0 {
      return InvalidStack;
    }
    var leads := Follows(from, stack.bits);
    if !leads {
      return InvalidStack;
    }
    var resumed := new KeyIterator.After(kind, from, stack);
    result := Resumed(resumed);
  }

  /** Whether the bits lead from child to child. */
  method Follows(from: Path, bits: Word) returns (leads: bool)
    requires from.Valid()
    ensures leads <==> Leads(from.database.branches, from.index, bits)
  {
    ghost var br := from.database.branches;
    var at := from.index;
    for i := 0 to |bits|
      invariant Walk(br, from.index, bits[..i]) == Some(at)
    {
      var branch := from.database.GetBranch(at);
      WalkPush(br, from.index, bits[..i], bits[i]);
      TakeNext(bits, i);
      if !bits[i] && branch.left != 0 {
        at := branch.left;
      } else if bits[i] && branch.right != 0 {
        at := branch.right;
      } else {
        if Leads(br, from.index, bits) { WalkPrefix(br, from.index, bits, i + 1); }
        return false;
      }
    }
    Whole(bits);
    leads := true;
  }

  /** A token stands for the bits it was made from. */
  lemma TokenOfKey(w: Word)
    requires Balanced(w)
    ensures FedAll(Decoding([], []), Base64Text(Packed(w))).Decoding?
    ensures TokenBits(Base64Text(Packed(w))) == w
  {
    RoundTrip(Decoding([], []), Packed(w));
    Unit(Packed(w));
    TokenRoundTrip(w);
  }

  /** Resuming from the token of an iterator on the unchanged trie gives exactly the key after
      the one it stands at. */
  method ResumeToken(from: Path, it: KeyIterator) returns (resumed: KeyIterator)
    requires from.Valid() && it.Valid()
    requires it.path.database == from.database && it.start == from.index
    modifies from.database
    ensures unchanged(from.database) && resumed.Valid()
    ensures fresh(resumed) && fresh(resumed.path) && fresh(resumed.stack)
    ensures resumed.path.database == from.database && resumed.start == from.index && resumed.kind == it.kind
    ensures Exact(true, from.database.branches, from.index, it.stack.bits, !resumed.isEnd, resumed.stack.bits)
  {
    var key := it.ToKey();
    TokenOfKey(it.stack.bits);
    var result := Begin(it.kind, from, key);
    resumed := result.it;
  }

  /** The resumed iterator goes on just as the original does. */
  method ResumeWhereLeft(from: Path, it: KeyIterator) returns (resumed: KeyIterator)
    requires from.Valid() && it.Valid()
    requires it.path.database == from.database && it.start == from.index && it.path != from
    modifies it, it.path, it.stack, from.database
    ensures resumed.isEnd == it.isEnd && resumed.stack.bits == it.stack.bits && resumed.path.index == it.path.index
    ensures !it.isEnd ==> resumed.item == it.item
  {
    ghost var br, start, w0 := from.database.branches, from.index, it.stack.bits;
    resumed := ResumeToken(from, it);
    ghost var found, w := !resumed.isEnd, resumed.stack.bits;
    it.Increment();
    ExactUnique(true, br, start, w0, found, w, !it.isEnd, it.stack.bits);
  }
}
