/**
  The database file: branch and data records appended to one byte file and linked by offset.
  The ghost maps `branches` and `blobs` are what the bytes mean; `Valid` ties the two.
 */
module DatabaseBase {
  import opened Arithmetic
  import opened ByteStrings
  import opened Trie

  const INDEX_SIZE := 8
  const BRANCH_SIZE := 32

  /** An offset is a 64-bit word. */
  const INDEX_LIMIT: nat := 0x1_0000_0000_0000_0000

  /** The low `size` bytes of a number, least significant first. */
  function NumberBytes(n: nat, size: nat): (b: Bytes)
    ensures |b| == size
  {
    if size == 0 then [] else [(n % 256) as Byte] + NumberBytes(n / 256, size - 1)
  }

  function BytesNumber(b: Bytes): nat {
    if b == [] then 0 else b[0] as nat + 256 * BytesNumber(b[1..])
  }

  function PowerOf256(e: nat): nat {
    if e == 0 then 1 else 256 * PowerOf256(e - 1)
  }

  /** A number read back from its bytes is the number, modulo what the bytes can hold. */
  lemma {:induction false} NumberRoundTrip(n: nat, size: nat)
    requires n < PowerOf256(size)
    ensures BytesNumber(NumberBytes(n, size)) == n
  {
    if size > 0 {
      assert n / 256 < PowerOf256(size - 1);
      NumberRoundTrip(n / 256, size - 1);
    }
  }

  function IndexBytes(i: nat): (b: Bytes)
    ensures |b| == INDEX_SIZE
  {
    NumberBytes(i, INDEX_SIZE)
  }

  lemma IndexRoundTrip(i: nat)
    requires i < INDEX_LIMIT
    ensures BytesNumber(IndexBytes(i)) == i
  {
    assert PowerOf256(4) == 0x1_0000_0000;
    assert PowerOf256(8) == INDEX_LIMIT;
    NumberRoundTrip(i, INDEX_SIZE);
  }

  function BranchBytes(b: Branch): (r: Bytes)
    ensures |r| == BRANCH_SIZE
  {
    IndexBytes(b.parent) + IndexBytes(b.left) + IndexBytes(b.right) + IndexBytes(b.dataIndex)
  }

  function BytesBranch(r: Bytes): Branch
    requires |r| == BRANCH_SIZE
  {
    Branch(BytesNumber(r[..8]), BytesNumber(r[8..16]), BytesNumber(r[16..24]), BytesNumber(r[24..]))
  }

  lemma BranchRoundTrip(b: Branch)
    requires b.parent < INDEX_LIMIT && b.left < INDEX_LIMIT && b.right < INDEX_LIMIT && b.dataIndex < INDEX_LIMIT
    ensures BytesBranch(BranchBytes(b)) == b
  {
    var r := BranchBytes(b);
    assert r[..8] == IndexBytes(b.parent);
    assert r[8..16] == IndexBytes(b.left);
    assert r[16..24] == IndexBytes(b.right);
    assert r[24..] == IndexBytes(b.dataIndex);
    IndexRoundTrip(b.parent);
    IndexRoundTrip(b.left);
    IndexRoundTrip(b.right);
    IndexRoundTrip(b.dataIndex);
  }

  /** The bytes of a number: the least significant first. */
  lemma {:induction false} NumberByteAt(n: nat, size: nat, i: nat)
    requires i < size
    ensures PowerOf256(i) > 0 && NumberBytes(n, size)[i] as nat == n / PowerOf256(i) % 256
  {
    if i > 0 {
      NumberByteAt(n / 256, size - 1, i - 1);
      DividedTwice(n, 256, PowerOf256(i - 1));
    }
  }

  lemma FourRows(s: Bytes, t: Bytes, u: Bytes, v: Bytes, i: nat)
    requires |s| == |t| == |u| == |v| == 8 && i < 32
    ensures (s + t + u + v)[i] == if i < 8 then s[i] else if i < 16 then t[i - 8] else if i < 24 then u[i - 16] else v[i - 24]
  {
  }

  /** The bytes of a branch record: parent, left, right and data index, eight each. */
  lemma BranchByteAt(b: Branch, i: nat)
    requires i < 8
    ensures PowerOf256(i) > 0
    ensures BranchBytes(b)[i] as nat == b.parent / PowerOf256(i) % 256
    ensures BranchBytes(b)[8 + i] as nat == b.left / PowerOf256(i) % 256
    ensures BranchBytes(b)[16 + i] as nat == b.right / PowerOf256(i) % 256
    ensures BranchBytes(b)[24 + i] as nat == b.dataIndex / PowerOf256(i) % 256
  {
    var s, t, u, v := IndexBytes(b.parent), IndexBytes(b.left), IndexBytes(b.right), IndexBytes(b.dataIndex);
    FourRows(s, t, u, v, i);
    FourRows(s, t, u, v, 8 + i);
    FourRows(s, t, u, v, 16 + i);
    FourRows(s, t, u, v, 24 + i);
    NumberByteAt(b.parent, 8, i);
    NumberByteAt(b.left, 8, i);
    NumberByteAt(b.right, 8, i);
    NumberByteAt(b.dataIndex, 8, i);
  }

  // ----- writing into a file

  /** Writing at an offset inside or at the end of the file, growing it when needed. */
  function Written(file: Bytes, at: nat, bytes: Bytes): (r: Bytes)
    requires at <= |file|
    ensures |r| == if at + |bytes| <= |file| then |file| else at + |bytes|
  {
    file[..at] + bytes + if at + |bytes| <= |file| then file[at + |bytes|..] else []
  }

  lemma WrittenRange(file: Bytes, at: nat, bytes: Bytes)
    requires at <= |file|
    ensures Written(file, at, bytes)[at..at + |bytes|] == bytes
  {
  }

  /** A range apart from the written one keeps its bytes. */
  lemma WrittenApart(file: Bytes, at: nat, bytes: Bytes, lo: nat, hi: nat)
    requires at <= |file| && lo <= hi <= |file|
    requires hi <= at || at + |bytes| <= lo
    ensures Written(file, at, bytes)[lo..hi] == file[lo..hi]
  {
  }

  // ----- what the bytes mean

  type Blobs = map<nat, Bytes>

  ghost predicate BranchAt(file: Bytes, x: nat, b: Branch) {
    x + BRANCH_SIZE <= |file| && file[x..x + BRANCH_SIZE] == BranchBytes(b)
  }

  ghost predicate BlobAt(file: Bytes, d: nat, data: Bytes) {
    && d + INDEX_SIZE + |data| <= |file|
    && file[d..d + INDEX_SIZE] == IndexBytes(|data|)
    && file[d + INDEX_SIZE..d + INDEX_SIZE + |data|] == data
  }

  ghost predicate BranchesApart(x: nat, y: nat) {
    x + BRANCH_SIZE <= y || y + BRANCH_SIZE <= x
  }

  ghost predicate BranchBlobApart(x: nat, d: nat, data: Bytes) {
    x + BRANCH_SIZE <= d || d + INDEX_SIZE + |data| <= x
  }

  ghost predicate BlobsApart(d: nat, data: Bytes, e: nat, data': Bytes) {
    d + INDEX_SIZE + |data| <= e || e + INDEX_SIZE + |data'| <= d
  }

  /** No two records share a byte. */
  ghost predicate Disjoint(br: Branches, blobs: Blobs) {
    && (forall x, y {:trigger BranchesApart(x, y)} :: x in br && y in br && x != y ==> BranchesApart(x, y))
    && (forall x, d {:trigger BranchBlobApart(x, d, blobs[d])} ::
          x in br && d in blobs ==> BranchBlobApart(x, d, blobs[d]))
    && (forall d, e {:trigger BlobsApart(d, blobs[d], e, blobs[e])} ::
          d in blobs && e in blobs && d != e ==> BlobsApart(d, blobs[d], e, blobs[e]))
  }

  ghost predicate Laid(file: Bytes, br: Branches, blobs: Blobs) {
    && |file| < INDEX_LIMIT
    && (forall x {:trigger BranchAt(file, x, br[x])} :: x in br ==> BranchAt(file, x, br[x]))
    && (forall d {:trigger BlobAt(file, d, blobs[d])} :: d in blobs ==> BlobAt(file, d, blobs[d]))
    && Disjoint(br, blobs)
  }

  ghost predicate DataApart(b: Branch, c: Branch) {
    b.dataIndex != 0 ==> b.dataIndex != c.dataIndex
  }

  /** Every data link leads to a data record, and no two branches share one. */
  ghost predicate DataLinked(br: Branches, blobs: Blobs) {
    && (forall x {:trigger br[x].dataIndex} :: x in br && br[x].dataIndex != 0 ==> br[x].dataIndex in blobs)
    && (forall x, y {:trigger DataApart(br[x], br[y])} :: x in br && y in br && x != y ==> DataApart(br[x], br[y]))
  }

  ghost predicate WellFormed(file: Bytes, br: Branches, blobs: Blobs) {
    WellLinked(br) && DataLinked(br, blobs) && Laid(file, br, blobs)
  }

  /** No data record starts at offset zero, so a zero data link is never a record. */
  lemma BlobsNotAtZero(file: Bytes, br: Branches, blobs: Blobs)
    requires WellFormed(file, br, blobs)
    ensures 0 !in blobs
  {
    assert 0 in br;
    assert 0 in blobs ==> BranchBlobApart(0, 0, blobs[0]);
  }

  lemma BranchReadBack(file: Bytes, br: Branches, blobs: Blobs, x: nat)
    requires WellFormed(file, br, blobs) && x in br
    ensures x + BRANCH_SIZE <= |file| && BytesBranch(file[x..x + BRANCH_SIZE]) == br[x]
  {
    var b := br[x];
    assert BranchAt(file, x, b);
    assert b.parent in br && (x == 0 || b.parent < x);
    assert br[x].Link(false) == b.left && br[x].Link(true) == b.right;
    assert b.left != 0 ==> BranchAt(file, b.left, br[b.left]);
    assert b.right != 0 ==> BranchAt(file, b.right, br[b.right]);
    assert b.dataIndex != 0 ==> BlobAt(file, b.dataIndex, blobs[b.dataIndex]);
    BranchRoundTrip(b);
  }

  lemma BlobReadBack(file: Bytes, br: Branches, blobs: Blobs, d: nat)
    requires WellFormed(file, br, blobs) && d in blobs
    ensures var size := |blobs[d]|;
            && d + INDEX_SIZE + size <= |file|
            && BytesNumber(file[d..d + INDEX_SIZE]) == size
            && file[d + INDEX_SIZE..d + INDEX_SIZE + size] == blobs[d]
  {
    assert BlobAt(file, d, blobs[d]);
    IndexRoundTrip(|blobs[d]|);
  }

  /** Overwriting one branch record in place leaves every other record as it was. */
  /** Where every byte of a branch lies in the file. */
  lemma BranchLayout(file: Bytes, br: Branches, blobs: Blobs, x: nat, i: nat)
    requires Laid(file, br, blobs) && x in br && i < 8
    ensures PowerOf256(i) > 0 && x + 32 <= |file|
    ensures file[x + i] as nat == br[x].parent / PowerOf256(i) % 256
    ensures file[x + 8 + i] as nat == br[x].left / PowerOf256(i) % 256
    ensures file[x + 16 + i] as nat == br[x].right / PowerOf256(i) % 256
    ensures file[x + 24 + i] as nat == br[x].dataIndex / PowerOf256(i) % 256
  {
    assert BranchAt(file, x, br[x]);
    BranchByteAt(br[x], i);
    var record := file[x..x + BRANCH_SIZE];
    assert file[x + i] == record[i] && file[x + 8 + i] == record[8 + i];
    assert file[x + 16 + i] == record[16 + i] && file[x + 24 + i] == record[24 + i];
  }

  /** Where every byte of data lies in the file: eight for the length, and then the data. */
  lemma BlobLayout(file: Bytes, br: Branches, blobs: Blobs, d: nat, i: nat)
    requires Laid(file, br, blobs) && d in blobs && i < 8 + |blobs[d]|
    ensures d + i < |file|
    ensures i < 8 ==> PowerOf256(i) > 0 && file[d + i] as nat == |blobs[d]| / PowerOf256(i) % 256
    ensures i >= 8 ==> file[d + i] == blobs[d][i - 8]
  {
    assert BlobAt(file, d, blobs[d]);
    if i < 8 {
      NumberByteAt(|blobs[d]|, 8, i);
      assert file[d + i] == file[d..d + INDEX_SIZE][i];
    } else {
      assert file[d + i] == file[d + INDEX_SIZE..d + INDEX_SIZE + |blobs[d]|][i - 8];
    }
  }

  lemma OverwriteBranch(file: Bytes, br: Branches, blobs: Blobs, x: nat, b: Branch)
    requires Laid(file, br, blobs) && x in br && BranchAt(file, x, br[x])
    ensures Laid(Written(file, x, BranchBytes(b)), br[x := b], blobs)
  {
    assert BranchAt(file, x, br[x]);
    var file', br' := Written(file, x, BranchBytes(b)), br[x := b];
    WrittenRange(file, x, BranchBytes(b));
    forall y | y in br'
      ensures BranchAt(file', y, br'[y])
    {
      if y != x {
        assert BranchAt(file, y, br[y]) && BranchesApart(x, y);
        WrittenApart(file, x, BranchBytes(b), y, y + BRANCH_SIZE);
      }
    }
    forall d | d in blobs
      ensures BlobAt(file', d, blobs[d])
    {
      assert BlobAt(file, d, blobs[d]) && BranchBlobApart(x, d, blobs[d]);
      WrittenApart(file, x, BranchBytes(b), d, d + INDEX_SIZE);
      WrittenApart(file, x, BranchBytes(b), d + INDEX_SIZE, d + INDEX_SIZE + |blobs[d]|);
    }
  }

  /** The data fits in at the place of a record: it shares no byte with another record. */
  ghost predicate Fits(br: Branches, blobs: Blobs, d: nat, data: Bytes) {
    && (forall x {:trigger BranchBlobApart(x, d, data)} :: x in br ==> BranchBlobApart(x, d, data))
    && (forall e {:trigger BlobsApart(d, data, e, blobs[e])} :: e in blobs && e != d ==> BlobsApart(d, data, e, blobs[e]))
  }

  /** Data no longer than what it overwrites fits in. */
  lemma ShorterFits(file: Bytes, br: Branches, blobs: Blobs, d: nat, data: Bytes)
    requires Laid(file, br, blobs) && d in blobs && |data| <= |blobs[d]|
    ensures Fits(br, blobs, d, data)
  {
    forall x | x in br
      ensures BranchBlobApart(x, d, data)
    {
      assert BranchBlobApart(x, d, blobs[d]);
    }
    forall e | e in blobs && e != d
      ensures BlobsApart(d, data, e, blobs[e])
    {
      assert BlobsApart(d, blobs[d], e, blobs[e]);
    }
  }

  /** Overwriting a data record leaves all other records as they were exactly when the new data
      fits in its place. */
  lemma OverwriteBlob(file: Bytes, br: Branches, blobs: Blobs, d: nat, data: Bytes)
    requires Laid(file, br, blobs) && d in blobs && BlobAt(file, d, blobs[d]) && d + INDEX_SIZE + |data| < INDEX_LIMIT
    ensures Laid(Written(file, d, IndexBytes(|data|) + data), br, blobs[d := data]) <==> Fits(br, blobs, d, data)
  {
    var file', blobs' := Written(file, d, IndexBytes(|data|) + data), blobs[d := data];
    if Fits(br, blobs, d, data) {
      OverwriteFitting(file, br, blobs, d, data);
    }
    if Laid(file', br, blobs') {
      forall x | x in br
        ensures BranchBlobApart(x, d, data)
      {
        assert BranchBlobApart(x, d, blobs'[d]);
      }
      forall e | e in blobs && e != d
        ensures BlobsApart(d, data, e, blobs[e])
      {
        assert BlobsApart(d, blobs'[d], e, blobs'[e]);
      }
    }
  }

  lemma OverwriteFitting(file: Bytes, br: Branches, blobs: Blobs, d: nat, data: Bytes)
    requires Laid(file, br, blobs) && d in blobs && BlobAt(file, d, blobs[d]) && d + INDEX_SIZE + |data| < INDEX_LIMIT
    requires Fits(br, blobs, d, data)
    ensures Laid(Written(file, d, IndexBytes(|data|) + data), br, blobs[d := data])
  {
    var record := IndexBytes(|data|) + data;
    var file', blobs' := Written(file, d, record), blobs[d := data];
    WrittenRange(file, d, record);
    assert file'[d..d + INDEX_SIZE] == record[..INDEX_SIZE] == IndexBytes(|data|);
    assert file'[d + INDEX_SIZE..d + |record|] == record[INDEX_SIZE..] == data;
    forall y | y in br
      ensures BranchAt(file', y, br[y])
    {
      assert BranchAt(file, y, br[y]) && BranchBlobApart(y, d, data);
      WrittenApart(file, d, record, y, y + BRANCH_SIZE);
    }
    forall e | e in blobs'
      ensures BlobAt(file', e, blobs'[e])
    {
      if e != d {
        assert BlobAt(file, e, blobs[e]) && BlobsApart(d, data, e, blobs[e]);
        WrittenApart(file, d, record, e, e + INDEX_SIZE);
        WrittenApart(file, d, record, e + INDEX_SIZE, e + INDEX_SIZE + |blobs[e]|);
      }
    }
    FittingDisjoint(br, blobs, d, data);
  }

  lemma FittingDisjoint(br: Branches, blobs: Blobs, d: nat, data: Bytes)
    requires Disjoint(br, blobs) && d in blobs && Fits(br, blobs, d, data)
    ensures Disjoint(br, blobs[d := data])
  {
    var blobs' := blobs[d := data];
    forall x, e | x in br && e in blobs'
      ensures BranchBlobApart(x, e, blobs'[e])
    {
      assert BranchBlobApart(x, e, if e == d then data else blobs[e]);
    }
    forall e, f | e in blobs' && f in blobs' && e != f
      ensures BlobsApart(e, blobs'[e], f, blobs'[f])
    {
      if e == d {
        assert BlobsApart(d, data, f, blobs[f]);
      } else if f == d {
        assert BlobsApart(d, data, e, blobs[e]);
      } else {
        assert BlobsApart(e, blobs[e], f, blobs[f]);
      }
    }
  }

  lemma AppendKeeps(file: Bytes, br: Branches, blobs: Blobs, record: Bytes)
    requires Laid(file, br, blobs)
    ensures forall x :: x in br ==> BranchAt(Written(file, |file|, record), x, br[x])
    ensures forall d :: d in blobs ==> BlobAt(Written(file, |file|, record), d, blobs[d])
  {
    var file' := Written(file, |file|, record);
    forall x | x in br
      ensures BranchAt(file', x, br[x])
    {
      assert BranchAt(file, x, br[x]);
      WrittenApart(file, |file|, record, x, x + BRANCH_SIZE);
    }
    forall d | d in blobs
      ensures BlobAt(file', d, blobs[d])
    {
      assert BlobAt(file, d, blobs[d]);
      WrittenApart(file, |file|, record, d, d + INDEX_SIZE);
      WrittenApart(file, |file|, record, d + INDEX_SIZE, d + INDEX_SIZE + |blobs[d]|);
    }
  }

  /** A branch record appended at the end is apart from all earlier records. */
  lemma AppendBranch(file: Bytes, br: Branches, blobs: Blobs, b: Branch)
    requires Laid(file, br, blobs) && |file| + BRANCH_SIZE < INDEX_LIMIT
    ensures |file| !in br && |file| !in blobs
    ensures Laid(Written(file, |file|, BranchBytes(b)), br[|file| := b], blobs)
  {
    var at, br' := |file|, br[|file| := b];
    AppendKeeps(file, br, blobs, BranchBytes(b));
    WrittenRange(file, at, BranchBytes(b));
    assert forall x :: x in br ==> BranchAt(file, x, br[x]);
    assert forall d :: d in blobs ==> BlobAt(file, d, blobs[d]);
    forall x, y | x in br' && y in br' && x != y
      ensures BranchesApart(x, y)
    {
      assert x in br ==> BranchAt(file, x, br[x]);
      assert y in br ==> BranchAt(file, y, br[y]);
    }
    forall x, d | x in br' && d in blobs
      ensures BranchBlobApart(x, d, blobs[d])
    {
      assert BlobAt(file, d, blobs[d]);
    }
  }

  lemma AppendedBlob(file: Bytes, data: Bytes)
    requires |file| + INDEX_SIZE + |data| < INDEX_LIMIT
    ensures BlobAt(Written(file, |file|, IndexBytes(|data|) + data), |file|, data)
  {
    var at, record := |file|, IndexBytes(|data|) + data;
    WrittenRange(file, at, record);
    var file' := Written(file, at, record);
    assert file'[at..at + INDEX_SIZE] == record[..INDEX_SIZE] == IndexBytes(|data|);
    assert file'[at + INDEX_SIZE..at + |record|] == record[INDEX_SIZE..] == data;
  }

  lemma AppendedApart(file: Bytes, br: Branches, blobs: Blobs, data: Bytes)
    requires Laid(file, br, blobs)
    ensures Disjoint(br, blobs[|file| := data])
  {
    var blobs' := blobs[|file| := data];
    forall x, d | x in br && d in blobs'
      ensures BranchBlobApart(x, d, blobs'[d])
    {
      assert BranchAt(file, x, br[x]);
    }
    forall d, e | d in blobs' && e in blobs' && d != e
      ensures BlobsApart(d, blobs'[d], e, blobs'[e])
    {
      assert d in blobs ==> BlobAt(file, d, blobs[d]);
      assert e in blobs ==> BlobAt(file, e, blobs[e]);
    }
  }

  lemma AppendBlob(file: Bytes, br: Branches, blobs: Blobs, data: Bytes)
    requires Laid(file, br, blobs) && |file| + INDEX_SIZE + |data| < INDEX_LIMIT
    ensures |file| !in br && |file| !in blobs
    ensures Laid(Written(file, |file|, IndexBytes(|data|) + data), br, blobs[|file| := data])
  {
    AppendKeeps(file, br, blobs, IndexBytes(|data|) + data);
    AppendedBlob(file, data);
    AppendedApart(file, br, blobs, data);
    assert forall x :: x in br ==> BranchAt(file, x, br[x]);
    assert forall d :: d in blobs ==> BlobAt(file, d, blobs[d]);
  }

  class Database {
    var file: Bytes
    ghost var branches: Branches
    ghost var blobs: Blobs

    ghost predicate Valid()
      reads this
    {
      WellFormed(file, branches, blobs)
    }

    /** The file can grow by n bytes and still be addressed. */
    ghost predicate Room(n: nat)
      reads this
    {
      |file| + n < INDEX_LIMIT
    }

    /** Opens a file. An empty one gets a root branch at offset zero. */
    constructor (contents: Bytes, ghost br: Branches, ghost data: Blobs)
      requires contents == [] || WellFormed(contents, br, data)
      ensures Valid()
      ensures contents == [] ==> branches == map[0 := NEW_ROOT] && blobs == map[]
      ensures contents != [] ==> file == contents && branches == br && blobs == data
    {
      file := contents;
      branches, blobs := br, data;
      new;
      if |file| == 0 {
        file := BranchBytes(NEW_ROOT);
        branches, blobs := map[0 := NEW_ROOT], map[];
        assert BranchAt(file, 0, NEW_ROOT);
      }
    }

    method GetNextIndex(parent: nat) returns (index: nat)
      requires Valid() && parent in branches && Room(BRANCH_SIZE)
      modifies this
      ensures Valid() && index == old(|file|) && index !in old(branches)
      ensures branches == old(branches)[index := Branch(parent, 0, 0, 0)] && blobs == old(blobs)
      ensures parent < index && |file| == old(|file|) + BRANCH_SIZE
    {
      AppendBranch(file, branches, blobs, Branch(parent, 0, 0, 0));
      assert BranchAt(file, parent, branches[parent]);
      WithChildWellLinkedUnlinked(branches, parent, |file|);
      index := |file|;
      file := Written(file, index, BranchBytes(Branch(parent, 0, 0, 0)));
      branches := branches[index := Branch(parent, 0, 0, 0)];
    }

    method Allocate(data: Bytes) returns (dataIndex: nat)
      requires Valid() && Room(INDEX_SIZE + |data|)
      modifies this
      ensures Valid() && dataIndex == old(|file|) != 0 && dataIndex !in old(blobs)
      ensures blobs == old(blobs)[dataIndex := data] && branches == old(branches)
      ensures |file| == old(|file|) + INDEX_SIZE + |data|
    {
      AppendBlob(file, branches, blobs, data);
      assert BranchAt(file, 0, branches[0]);
      dataIndex := |file|;
      file := Written(file, dataIndex, IndexBytes(|data|) + data);
      blobs := blobs[dataIndex := data];
    }

    method GetBranch(index: nat) returns (b: Branch)
      requires Valid() && index in branches
      ensures b == branches[index]
    {
      BranchReadBack(file, branches, blobs, index);
      b := BytesBranch(file[index..index + BRANCH_SIZE]);
    }

    method SetBranch(index: nat, b: Branch)
      requires Valid() && index in branches
      requires WellLinked(branches[index := b]) && DataLinked(branches[index := b], blobs)
      modifies this
      ensures Valid() && branches == old(branches)[index := b] && blobs == old(blobs)
      ensures |file| == old(|file|)
    {
      assert BranchAt(file, index, branches[index]);
      OverwriteBranch(file, branches, blobs, index, b);
      file := Written(file, index, BranchBytes(b));
      branches := branches[index := b];
    }

    method GetData(dataIndex: nat) returns (data: Bytes)
      requires Valid() && (dataIndex == 0 || dataIndex in blobs)
      ensures data == if dataIndex == 0 then [] else blobs[dataIndex]
    {
      if dataIndex == 0 {
        return [];
      }
      BlobReadBack(file, branches, blobs, dataIndex);
      var size := BytesNumber(file[dataIndex..dataIndex + INDEX_SIZE]);
      data := file[dataIndex + INDEX_SIZE..dataIndex + INDEX_SIZE + size];
    }

    method HasData(index: nat) returns (has: bool)
      requires Valid() && index in branches
      ensures has <==> branches[index].dataIndex != 0
    {
      var b := GetBranch(index);
      has := b.dataIndex != 0;
    }

    /** Overwrites a data record in place. The record's size is not checked against the new data:
        the file stays well formed exactly when the data fits in there, as data of the same size does. */
    method SetData(dataIndex: nat, source: Bytes)
      requires Valid() && dataIndex in blobs
      requires |source| <= |blobs[dataIndex]| || dataIndex + INDEX_SIZE + |source| < INDEX_LIMIT
      modifies this
      ensures dataIndex <= |old(file)| && file == Written(old(file), dataIndex, IndexBytes(|source|) + source)
      ensures blobs == old(blobs)[dataIndex := source] && branches == old(branches)
      ensures Valid() <==> Fits(branches, old(blobs), dataIndex, source)
      ensures |source| <= |old(blobs)[dataIndex]| ==> Valid() && |file| == old(|file|)
    {
      assert BlobAt(file, dataIndex, blobs[dataIndex]);
      OverwriteBlob(file, branches, blobs, dataIndex, source);
      if |source| <= |blobs[dataIndex]| {
        ShorterFits(file, branches, blobs, dataIndex, source);
      }
      file := Written(file, dataIndex, IndexBytes(|source|) + source);
      blobs := blobs[dataIndex := source];
    }

    method DeleteData(index: nat)
      requires Valid() && index in branches
      modifies this
      ensures Valid() && blobs == old(blobs) && |file| == old(|file|)
      ensures branches == old(branches)[index := old(branches)[index].(dataIndex := 0)]
    {
      var b := GetBranch(index);
      if b.dataIndex != 0 {
        SameLinksWellLinked(branches, index, b.(dataIndex := 0));
        DataLinkedKept(branches, blobs, index, b.(dataIndex := 0));
        SetBranch(index, b.(dataIndex := 0));
      } else {
        assert branches == branches[index := b];
      }
    }

    /** The first half of deleting a branch: its data goes, and its parent's link to it. */
    method Detach(index: nat) returns (branch: Branch)
      requires Valid() && index in branches
      modifies this
      ensures Valid() && blobs == old(blobs) && |file| == old(|file|)
      ensures branches == Detached(old(branches), index)
      ensures branch == old(branches)[index].(dataIndex := 0) == branches[index]
    {
      DeleteData(index);
      branch := GetBranch(index);
      if index != 0 {
        var parent := GetBranch(branch.parent);
        ghost var unlinked := Unlinked(parent, index);
        UnlinkWellLinked(branches, branch.parent, index);
        DataLinkedKept(branches, blobs, branch.parent, unlinked);
        if index == parent.left {
          parent := parent.(left := 0);
        } else if index == parent.right {
          parent := parent.(right := 0);
        }
        assert parent == unlinked;
        SetBranch(branch.parent, parent);
      }
    }

    /** The second half: its children are deleted. */
    method DeleteChildren(index: nat, branch: Branch)
      requires Valid() && index in branches && branches[index] == branch
      modifies this
      ensures Valid() && blobs == old(blobs) && |file| == old(|file|)
      ensures branches == Bared(old(branches), index)
      decreases |file| - index, 0
    {
      ghost var br1 := branches;
      ChildIsBehind(file, br1, blobs, index);
      if branch.left != 0 {
        DeleteBranch(branch.left);
      }
      ghost var br2 := branches;
      if branch.right != 0 {
        DeleteBranch(branch.right);
      }
      BaredInSteps(br1, index, br2, branches);
    }

    /** Detaches a branch from its parent and empties it and everything below it. The deleted
        records stay in the file and keep their recorded parents. */
    method DeleteBranch(index: nat)
      requires Valid() && index in branches
      modifies this
      ensures Valid() && blobs == old(blobs) && |file| == old(|file|)
      ensures branches == Pruned(old(branches), index)
      decreases |file| - index, 1
    {
      ghost var br := branches;
      var branch := Detach(index);
      DeleteChildren(index, branch);
      PrunedIsDetachedBared(br, index);
    }
  }

  // ----- lemmas for the methods above

  lemma WithChildWellLinkedUnlinked(br: Branches, parent: nat, child: nat)
    requires WellLinked(br) && parent in br && child !in br && child > parent
    ensures WellLinked(br[child := Branch(parent, 0, 0, 0)])
  {
    var br' := br[child := Branch(parent, 0, 0, 0)];
    forall x, bit | x in br' && br'[x].Link(bit) != 0
      ensures br'[x].Link(bit) in br' && br'[br'[x].Link(bit)].parent == x
    {
      assert x != child && br'[x].Link(bit) == br[x].Link(bit);
    }
  }

  lemma ChildIsBehind(file: Bytes, br: Branches, blobs: Blobs, x: nat)
    requires WellFormed(file, br, blobs) && x in br
    ensures forall bit :: br[x].Link(bit) != 0 ==> x < br[x].Link(bit) < |file| && br[x].Link(bit) in br
    ensures br[x].left == br[x].Link(false) && br[x].right == br[x].Link(true)
  {
    forall bit | br[x].Link(bit) != 0
      ensures x < br[x].Link(bit) < |file| && br[x].Link(bit) in br
    {
      assert BranchAt(file, br[x].Link(bit), br[br[x].Link(bit)]);
    }
  }

  lemma SameLinksWellLinked(br: Branches, x: nat, b: Branch)
    requires WellLinked(br) && x in br && b == br[x].(dataIndex := b.dataIndex)
    ensures WellLinked(br[x := b])
    ensures forall y, bit :: y in br ==> br[x := b][y].Link(bit) == br[y].Link(bit)
  {
    var br' := br[x := b];
    forall y, bit | y in br' && br'[y].Link(bit) != 0
      ensures br'[y].Link(bit) in br' && br'[br'[y].Link(bit)].parent == y
    {
      assert br'[y].Link(bit) == br[y].Link(bit);
    }
  }

  lemma DataLinkedKept(br: Branches, blobs: Blobs, x: nat, b: Branch)
    requires DataLinked(br, blobs) && x in br && (b.dataIndex == br[x].dataIndex || b.dataIndex == 0)
    ensures DataLinked(br[x := b], blobs)
  {
    var br' := br[x := b];
    forall y, z | y in br' && z in br' && y != z
      ensures DataApart(br'[y], br'[z])
    {
      assert DataApart(br[y], br[z]);
    }
  }

  lemma UnlinkWellLinked(br: Branches, x: nat, child: nat)
    requires WellLinked(br) && x in br
    ensures WellLinked(br[x := Unlinked(br[x], child)])
  {
    var br' := br[x := Unlinked(br[x], child)];
    forall y, bit | y in br' && br'[y].Link(bit) != 0
      ensures br'[y].Link(bit) in br' && br'[br'[y].Link(bit)].parent == y
    {
      assert br'[y].Link(bit) == br[y].Link(bit);
    }
  }

  /** The branch without data and without its parent's link: the first half of deleting it. */
  ghost function Detached(br: Branches, index: nat): Branches
    requires WellLinked(br) && index in br
  {
    var p := br[index].parent;
    var br0 := br[index := br[index].(dataIndex := 0)];
    if index == 0 then br0 else br0[p := Unlinked(br[p], index)]
  }

  /** Everything strictly below a branch emptied, the branch left without children. */
  ghost function Bared(br: Branches, top: nat): (r: Branches)
    requires WellLinked(br) && top in br
    ensures r.Keys == br.Keys
  {
    map x | x in br ::
      if x == top then br[x].(left := 0, right := 0)
      else if Below(br, top, x) then Branch(br[x].parent, 0, 0, 0)
      else br[x]
  }

  /** Deleting its children one after the other bares a branch. */
  lemma BaredInSteps(br: Branches, i: nat, br2: Branches, br3: Branches)
    requires WellLinked(br) && i in br && WellLinked(br2) && WellLinked(br3)
    requires var l := br[i].left; l in br && br2 == if l != 0 then Pruned(br, l) else br
    requires var r := br[i].right; r in br2 && br3 == if r != 0 then Pruned(br2, r) else br2
    ensures br3 == Bared(br, i)
  {
    forall x | x in br && x in br3
      ensures br3[x] == Bared(br, i)[x]
    {
      BaredStep(br, i, br2, br3, x);
    }
    SameMap(br3, Bared(br, i));
  }

  lemma SameMap(br: Branches, br': Branches)
    requires br.Keys == br'.Keys && forall x :: x in br && x in br' ==> br[x] == br'[x]
    ensures br == br'
  {
  }

  lemma BaredStep(br: Branches, i: nat, br2: Branches, br3: Branches, x: nat)
    requires WellLinked(br) && i in br && x in br && WellLinked(br2) && WellLinked(br3)
    requires var l := br[i].left; l in br && br2 == if l != 0 then Pruned(br, l) else br
    requires var r := br[i].right; r in br2 && br3 == if r != 0 then Pruned(br2, r) else br2
    ensures br3[x] == Bared(br, i)[x]
  {
    var l, r := br[i].left, br[i].right;
    assert br[i].Link(false) == l && br[i].Link(true) == r;
    BelowByChild(br, i, x);
    if l != 0 { BelowIsBehindOrNot(br, l, i); }
    if r != 0 {
      BelowIsBehindOrNot(br, r, i);
      if l != 0 {
        PrunedSibling(br, l, r, x);
      }
    }
  }

  lemma BelowIsBehindOrNot(br: Branches, top: nat, x: nat)
    requires WellLinked(br) && top in br && x in br && x < top
    ensures !Below(br, top, x)
  {
    if Below(br, top, x) {
      BelowIsBehind(br, top, x);
    }
  }

  /** Detaching a branch and then deleting its children empties exactly what is at or below it. */
  /** What deleting a branch leaves: the branch and all below it keep only their parent, and every other branch is as
      it was, but that it does not link to the deleted one any more. */
  lemma PrunedIs(br: Branches, top: nat, x: nat, bit: bool)
    requires WellLinked(br) && top in br && x in br
    ensures var b := Pruned(br, top)[x];
            && b.parent == br[x].parent
            && (Below(br, top, x) ==> b.dataIndex == 0 && b.Link(bit) == 0)
            && (!Below(br, top, x) ==> b.dataIndex == br[x].dataIndex)
            && (!Below(br, top, x) ==> b.Link(bit) == if br[x].Link(bit) == top then 0 else br[x].Link(bit))
  {
    assert br[x].left == br[x].Link(false) && br[x].right == br[x].Link(true);
  }

  /** What clearing a path leaves: its branch and all below it are empty but for their parents, and every other branch is
      as it was. */
  lemma BaredIs(br: Branches, top: nat, x: nat, bit: bool)
    requires WellLinked(br) && top in br && x in br
    ensures var b := Bared(br, top)[x];
            && b.parent == br[x].parent
            && (Below(br, top, x) ==> b.Link(bit) == 0 && (x != top ==> b.dataIndex == 0))
            && (!Below(br, top, x) ==> b == br[x])
            && (x == top ==> b.dataIndex == br[x].dataIndex)
  {
  }

  lemma PrunedIsDetachedBared(br: Branches, i: nat)
    requires WellLinked(br) && i in br && WellLinked(Detached(br, i))
    ensures Bared(Detached(br, i), i) == Pruned(br, i)
  {
    var br1 := Detached(br, i);
    forall x | x in br && x in br1
      ensures Bared(br1, i)[x] == Pruned(br, i)[x]
    {
      DetachedBelow(br, i, x);
    }
    SameMap(Bared(br1, i), Pruned(br, i));
  }

  lemma DetachedAt(br: Branches, i: nat, y: nat)
    requires WellLinked(br) && i in br && WellLinked(Detached(br, i)) && y in br
    ensures Detached(br, i)[y].parent == br[y].parent
    ensures y != i ==> (Linked(Detached(br, i), y) <==> Linked(br, y))
  {
  }

  lemma DetachedBelow(br: Branches, i: nat, x: nat)
    requires WellLinked(br) && i in br && WellLinked(Detached(br, i)) && x in br
    ensures Below(br, i, x) <==> Below(Detached(br, i), i, x)
    ensures x < i ==> !Below(br, i, x)
  {
    forall y | y in br
      ensures Detached(br, i)[y].parent == br[y].parent
      ensures y > i ==> (Linked(Detached(br, i), y) <==> Linked(br, y))
    {
      DetachedAt(br, i, y);
    }
    BelowAgrees(br, Detached(br, i), i, x);
    if Below(br, i, x) {
      BelowIsBehind(br, i, x);
    }
  }

  /** After a cut, what is still linked is what was linked and is not below the cut. */
  lemma LinkedPruned(br: Branches, top: nat, x: nat)
    requires WellLinked(br) && top in br && WellLinked(Pruned(br, top)) && x in br
    ensures Pruned(br, top)[x].parent == br[x].parent
    ensures Linked(Pruned(br, top), x) <==> Linked(br, x) && !Below(br, top, x)
  {
    if x != 0 {
      var p := br[x].parent;
      assert Pruned(br, top)[p].parent == br[p].parent;
    }
  }

  lemma {:induction false} PrunedSibling(br: Branches, l: nat, r: nat, x: nat)
    requires WellLinked(br) && l in br && r in br && WellLinked(Pruned(br, l)) && x in br
    requires l != 0 && r != 0 && l != r && br[l].parent == br[r].parent
    ensures Below(Pruned(br, l), r, x) <==> Below(br, r, x)
    decreases x
  {
    LinkedPruned(br, l, x);
    if x != r && x != 0 {
      PrunedSibling(br, l, r, br[x].parent);
      if Below(br, r, x) && Below(br, l, x) {
        SiblingsApart(br, l, r, x);
      }
    }
  }
}
