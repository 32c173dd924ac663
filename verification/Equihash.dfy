/** Verification of Equihash solutions for N = 192 and K = 7. */
module Equihash {
  import opened Primitives
  import opened Bits
  import opened IndexPacking

  const BSTR_BYTES: nat := 24
  const HASH_SIZE: nat := 48
  const CHUNK: nat := 3
  const ROUNDS: nat := 7
  const INDICES: nat := 128
  const SOLUTION_SIZE: nat := 400
  const ROW_SIZE: nat := 518

  // ----- the acceptance condition

  function XorBytes(x: Bytes, y: Bytes): (r: Bytes)
    requires |x| == |y|
    ensures |r| == |x|
    ensures forall i | 0 <= i < |r| :: r[i] == XorByte(x[i], y[i])
  {
    seq(|x|, i requires 0 <= i < |x| => XorByte(x[i], y[i]))
  }

  /** The bit string of one index: half of a hash of the input and the halved index. */
  function IndexHash(h: nat -> Bytes, index: nat): Bytes
    requires forall i :: |h(i)| == HASH_SIZE
  {
    h(index / 2)[BSTR_BYTES * (index % 2)..BSTR_BYTES * (index % 2) + BSTR_BYTES]
  }

  /** A block of the solution: the XOR of its bit strings, and its indices in order. */
  datatype Node = Node(xor: Bytes, indices: seq<nat>)

  function Leaf(h: nat -> Bytes, index: nat): Node
    requires forall i :: |h(i)| == HASH_SIZE
  {
    Node(IndexHash(h, index), [index])
  }

  function Leaves(h: nat -> Bytes, indices: seq<nat>): seq<Node>
    requires forall i :: |h(i)| == HASH_SIZE
  {
    seq(|indices|, k requires 0 <= k < |indices| => Leaf(h, indices[k]))
  }

  ghost predicate WellFormed(n: Node) {
    |n.xor| == BSTR_BYTES && n.indices != []
  }

  /** In round `r` two neighbours agree on 24-bit chunk `r`, and the left one has the smaller first index. */
  ghost predicate GoodPair(a: Node, b: Node, r: nat)
    requires WellFormed(a) && WellFormed(b) && r < ROUNDS
  {
    a.xor[CHUNK * r..CHUNK * r + CHUNK] == b.xor[CHUNK * r..CHUNK * r + CHUNK] && a.indices[0] < b.indices[0]
  }

  function Join(a: Node, b: Node): Node
    requires |a.xor| == |b.xor|
  {
    Node(XorBytes(a.xor, b.xor), a.indices + b.indices)
  }

  ghost predicate AllWellFormed(nodes: seq<Node>) {
    forall k | 0 <= k < |nodes| :: WellFormed(nodes[k])
  }

  function Joined(nodes: seq<Node>): (r: seq<Node>)
    requires AllWellFormed(nodes)
    ensures |r| == |nodes| / 2
    ensures forall k | 0 <= k < |r| :: r[k] == Join(nodes[2 * k], nodes[2 * k + 1])
  {
    seq(|nodes| / 2, k requires 0 <= k < |nodes| / 2 => Join(nodes[2 * k], nodes[2 * k + 1]))
  }

  ghost predicate AllGood(nodes: seq<Node>, r: nat)
    requires AllWellFormed(nodes) && r < ROUNDS
  {
    forall k | 0 <= k < |nodes| / 2 :: GoodPair(nodes[2 * k], nodes[2 * k + 1], r)
  }

  /** All rounds from `r` on succeed, and what is left of the XOR of everything is zero. */
  ghost predicate Survives(nodes: seq<Node>, r: nat)
    requires r <= ROUNDS && |nodes| == Pow2(ROUNDS - r) && AllWellFormed(nodes)
    decreases ROUNDS - r
  {
    if r == ROUNDS then nodes[0].xor[CHUNK * r..] == [0, 0, 0]
    else AllGood(nodes, r) && Survives(Joined(nodes), r + 1)
  }

  // ----- row contents

  lemma {:induction false} ConcatenatedAt(indices: seq<nat>, k: nat)
    requires k < |indices|
    ensures |Concatenated(indices)| == 4 * |indices|
    ensures Concatenated(indices)[4 * k..4 * k + 4] == BigEndian4(indices[k])
    decreases |indices|
  {
    var n := |indices| - 1;
    ConcatenatedLength(indices[..n]);
    var front, last := Concatenated(indices[..n]), BigEndian4(indices[n]);
    assert Concatenated(indices) == front + last && |last| == 4;
    hide Concatenated, BigEndian4;
    if k < n {
      ConcatenatedAt(indices[..n], k);
      assert (front + last)[4 * k..4 * k + 4] == front[4 * k..4 * k + 4];
    } else {
      assert (front + last)[4 * k..4 * k + 4] == last;
    }
  }

  lemma {:induction false} ConcatenatedLength(indices: seq<nat>)
    ensures |Concatenated(indices)| == 4 * |indices|
    decreases |indices|
  {
    if indices != [] {
      ConcatenatedLength(indices[..|indices| - 1]);
    }
  }

  lemma {:induction false} ConcatenatedAppend(x: seq<nat>, y: seq<nat>)
    ensures Concatenated(x + y) == Concatenated(x) + Concatenated(y)
    decreases |y|
  {
    if y == [] {
      assert x + y == x;
    } else {
      var n := |y| - 1;
      ConcatenatedAppend(x, y[..n]);
      assert (x + y)[..|x| + n] == x + y[..n];
      assert (x + y)[|x| + n] == y[n];
      var front, last := Concatenated(y[..n]), BigEndian4(y[n]);
      assert Concatenated(x + y) == Concatenated(x + y[..n]) + last && Concatenated(y) == front + last;
      hide Concatenated, BigEndian4;
      assert (Concatenated(x) + front) + last == Concatenated(x) + (front + last);
    }
  }

  /** Lexicographic order of two byte strings of the same length. */
  predicate LexLess(x: Bytes, y: Bytes)
    requires |x| == |y|
  {
    x != [] && (x[0] < y[0] || (x[0] == y[0] && LexLess(x[1..], y[1..])))
  }

  lemma {:induction false} LexLessAppend(x: Bytes, y: Bytes, u: Bytes, v: Bytes)
    requires |x| == |y| && |u| == |v|
    ensures LexLess(x + u, y + v) <==> LexLess(x, y) || (x == y && LexLess(u, v))
    decreases |x|
  {
    if x == [] {
      assert x + u == u && y + v == v;
    } else {
      assert (x + u)[1..] == x[1..] + u && (y + v)[1..] == y[1..] + v;
      LexLessAppend(x[1..], y[1..], u, v);
      assert x == y <==> x[0] == y[0] && x[1..] == y[1..];
    }
  }

  /** Big-endian strings of one length are ordered like the numbers they write. */
  lemma {:induction false} LexLessIsLess(x: Bytes, y: Bytes)
    requires |x| == |y|
    ensures LexLess(x, y) <==> Number(x, 256) < Number(y, 256)
    ensures x == y <==> Number(x, 256) == Number(y, 256)
    decreases |x|
  {
    if x != [] {
      var n := |x| - 1;
      LexLessIsLess(x[..n], y[..n]);
      LexLessAppend(x[..n], y[..n], [x[n]], [y[n]]);
      assert x == x[..n] + [x[n]] && y == y[..n] + [y[n]];
    }
  }

  lemma BigEndian4Order(i: nat, j: nat)
    requires i < Pow2(32) && j < Pow2(32)
    ensures LexLess(BigEndian4(i), BigEndian4(j)) <==> i < j
    ensures BigEndian4(i) == BigEndian4(j) <==> i == j
  {
    hide ElementBuffer, Number, Pow2, LexLess;
    BufferHoldsValue(i, 32, 0);
    BufferHoldsValue(j, 32, 0);
    assert BigEndian4(i)[0..4] == BigEndian4(i) && BigEndian4(j)[0..4] == BigEndian4(j);
    LexLessIsLess(BigEndian4(i), BigEndian4(j));
  }

  // ----- comparing and merging rows

  method HasCollision(row1: Bytes, row2: Bytes, length: nat) returns (r: bool)
    requires length <= |row1| && length <= |row2|
    ensures r <==> row1[..length] == row2[..length]
  {
    for i := 0 to length
      invariant row1[..i] == row2[..i]
    {
      if row1[i] != row2[i] {
        assert row1[..length][i] != row2[..length][i];
        return false;
      }
      assert row1[..i + 1] == row1[..i] + [row1[i]];
    }
    return true;
  }

  /** Whether the indices of `row1` come before those of `row2`. */
  method IndicesBefore(row1: Bytes, row2: Bytes, len: nat, indicesLen: nat) returns (r: bool)
    requires len + indicesLen <= |row1| && len + indicesLen <= |row2|
    ensures r <==> LexLess(row1[len..len + indicesLen], row2[len..len + indicesLen])
  {
    ghost var x, y := row1[len..len + indicesLen], row2[len..len + indicesLen];
    assert x[0..] == x && y[0..] == y;
    for i := 0 to indicesLen
      invariant LexLess(x, y) <==> LexLess(x[i..], y[i..])
    {
      assert x[i] == row1[len + i] && y[i] == row2[len + i];
      if row1[len + i] < row2[len + i] {
        return true;
      } else if row1[len + i] > row2[len + i] {
        return false;
      }
      assert x[i..][1..] == x[i + 1..] && y[i..][1..] == y[i + 1..];
    }
    return false;
  }

  /** The first index of `row1` is none of the first `count` indices of `row2`. */
  ghost predicate FirstIsDistinct(row1: Bytes, row2: Bytes, len: nat, count: nat)
    requires len + 4 * count <= |row1| && len + 4 * count <= |row2|
  {
    forall k | 0 <= k < count :: IndexAt(row1, len, 0) != IndexAt(row2, len, k)
  }

  /** The bytes of index `k` of a row. */
  function IndexAt(row: Bytes, len: nat, k: nat): Bytes
    requires len + 4 * k + 4 <= |row|
  {
    row[len + 4 * k..len + 4 * k + 4]
  }

  /** Compares the first index of `row1` with all indices of `row2`: the inner cursor is not reset, so the
      later indices of `row1` are compared with nothing. */
  method DistinctIndices(row1: Bytes, row2: Bytes, len: nat, indicesLen: nat) returns (r: bool)
    requires len + indicesLen <= |row1| && len + indicesLen <= |row2| && indicesLen % 4 == 0
    ensures r <==> FirstIsDistinct(row1, row2, len, indicesLen / 4)
  {
    var i, j := 0, 0;
    while i < indicesLen
      invariant 0 <= i <= indicesLen && i % 4 == 0 && 0 <= j <= indicesLen && j % 4 == 0
      invariant i > 0 ==> j == indicesLen
      invariant FirstIsDistinct(row1, row2, len, j / 4)
    {
      while j < indicesLen
        invariant 0 <= j <= indicesLen && j % 4 == 0 && (i > 0 ==> j == indicesLen)
        invariant FirstIsDistinct(row1, row2, len, j / 4)
      {
        if row1[len + i..len + i + 4] == row2[len + j..len + j + 4] {
          assert IndexAt(row1, len, 0) == IndexAt(row2, len, j / 4);
          return false;
        }
        j := j + 4;
      }
      i := i + 4;
    }
    return true;
  }

  /** What `merge_rows` writes. */
  function MergedRow(row1: Bytes, row2: Bytes, len: nat, indicesLen: nat, trim: nat): (r: Bytes)
    requires trim <= len && len + indicesLen <= |row1| && len + indicesLen <= |row2|
    ensures |r| == len - trim + 2 * indicesLen
  {
    var x, y := row1[len..len + indicesLen], row2[len..len + indicesLen];
    XorBytes(row1[trim..len], row2[trim..len]) + (if LexLess(x, y) then x + y else y + x)
  }

  /** `merge_rows` into the row that starts at `begin`. */
  method MergeRows(row1: Bytes, row2: Bytes, rows: array<Byte>, begin: nat, len: nat, indicesLen: nat, trim: nat)
    requires trim <= len && len + indicesLen <= |row1| && len + indicesLen <= |row2|
    requires begin + (len - trim) + 2 * indicesLen <= rows.Length
    modifies rows
    ensures var merged := MergedRow(row1, row2, len, indicesLen, trim);
            && rows[begin..begin + |merged|] == merged
            && rows[..begin] == old(rows[..begin])
            && rows[begin + |merged|..] == old(rows[begin + |merged|..])
  {
    XorInto(rows, begin, row1[trim..len], row2[trim..len]);
    var before := IndicesBefore(row1, row2, len, indicesLen);
    var x, y := row1[len..len + indicesLen], row2[len..len + indicesLen];
    var pos := begin + (len - trim);
    CopyFromSlice(rows, pos, if before then x else y);
    CopyFromSlice(rows, pos + indicesLen, if before then y else x);
    ghost var merged := MergedRow(row1, row2, len, indicesLen, trim);
    assert merged == XorBytes(row1[trim..len], row2[trim..len]) + (if before then x + y else y + x);
    hide MergedRow, XorBytes, LexLess;
    forall k | begin <= k < begin + |merged|
      ensures rows[k] == merged[k - begin]
    {
    }
    assert rows[begin..begin + |merged|] == merged;
    assert rows[..begin] == old(rows[..begin]);
    assert rows[begin + |merged|..] == old(rows[begin + |merged|..]);
  }

  method XorInto(rows: array<Byte>, begin: nat, x: Bytes, y: Bytes)
    requires |x| == |y| && begin + |x| <= rows.Length
    modifies rows
    ensures forall k | 0 <= k < rows.Length ::
              rows[k] == if begin <= k < begin + |x| then XorBytes(x, y)[k - begin] else old(rows[k])
  {
    for i := 0 to |x|
      invariant forall k | 0 <= k < rows.Length ::
                  rows[k] == if begin <= k < begin + i then XorBytes(x, y)[k - begin] else old(rows[k])
    {
      rows[begin + i] := XorByte(x[i], y[i]);
    }
  }

  method CopyFromSlice(rows: array<Byte>, begin: nat, bytes: Bytes)
    requires begin + |bytes| <= rows.Length
    modifies rows
    ensures forall k | 0 <= k < rows.Length ::
              rows[k] == if begin <= k < begin + |bytes| then bytes[k - begin] else old(rows[k])
  {
    for i := 0 to |bytes|
      invariant forall k | 0 <= k < rows.Length ::
                  rows[k] == if begin <= k < begin + i then bytes[k - begin] else old(rows[k])
    {
      rows[begin + i] := bytes[i];
    }
  }

  // ----- rounds

  /** Bytes of a row that still matter in round `r`: the rest of the XOR, then the indices. */
  function Content(n: Node, r: nat): Bytes
    requires |n.xor| == BSTR_BYTES && r <= ROUNDS
  {
    n.xor[CHUNK * r..] + Concatenated(n.indices)
  }

  /** A block whose first index is its strict minimum, with all indices below 2^25. */
  ghost predicate Tidy(n: Node) {
    && WellFormed(n)
    && (forall k | 0 < k < |n.indices| :: n.indices[0] < n.indices[k])
    && Fits(n.indices, INDEX_BITS)
  }

  lemma FirstIndex(indices: seq<nat>)
    requires indices != []
    ensures |Concatenated(indices)| == 4 * |indices|
    ensures Concatenated(indices) == BigEndian4(indices[0]) + Concatenated(indices)[4..]
  {
    ConcatenatedAt(indices, 0);
    assert Concatenated(indices)[4 * 0..4 * 0 + 4] == Concatenated(indices)[..4];
  }

  /** The bytes of `a`'s first index are not those of any index of `b`. */
  ghost predicate AvoidsFirst(a: seq<nat>, b: seq<nat>)
    requires a != []
  {
    forall k | 0 <= k < |b| :: BigEndian4(a[0]) != BigEndian4(b[k])
  }

  /** On tidy blocks the order and distinctness checks come down to comparing the first indices. */
  lemma IndexChecks(a: seq<nat>, b: seq<nat>)
    requires a != [] && |a| == |b| && Fits(a, INDEX_BITS) && Fits(b, INDEX_BITS)
    requires forall k | 0 < k < |b| :: b[0] < b[k]
    ensures |Concatenated(a)| == |Concatenated(b)| == 4 * |a|
    ensures a[0] < b[0] ==> LexLess(Concatenated(a), Concatenated(b))
    ensures a[0] < b[0] <==>
            && !LexLess(Concatenated(b), Concatenated(a))
            && AvoidsFirst(a, b)
  {
    hide *;
    FirstIndex(a);
    FirstIndex(b);
    IndexFits(a, 0);
    IndexFits(b, 0);
    AvoidsFirstIff(a, b);
    var x, y := Concatenated(a)[4..], Concatenated(b)[4..];
    LexLessAppend(BigEndian4(a[0]), BigEndian4(b[0]), x, y);
    LexLessAppend(BigEndian4(b[0]), BigEndian4(a[0]), y, x);
    BigEndian4Order(a[0], b[0]);
    BigEndian4Order(b[0], a[0]);
  }

  lemma IndexFits(a: seq<nat>, k: nat)
    requires k < |a| && Fits(a, INDEX_BITS)
    ensures a[k] < Pow2(32)
  {
    Pow2Monotone(INDEX_BITS, 32);
    hide Pow2;
  }

  lemma AvoidsFirstIff(a: seq<nat>, b: seq<nat>)
    requires a != [] && Fits(a, INDEX_BITS) && Fits(b, INDEX_BITS)
    ensures AvoidsFirst(a, b) <==> forall k | 0 <= k < |b| :: a[0] != b[k]
  {
    hide BigEndian4, LexLess, Fits;
    IndexFits(a, 0);
    forall k | 0 <= k < |b|
      ensures BigEndian4(a[0]) == BigEndian4(b[k]) <==> a[0] == b[k]
    {
      IndexFits(b, k);
      BigEndian4Order(a[0], b[k]);
    }
  }

  /** Where the parts of a block are in its row. */
  lemma RowParts(n: Node, r: nat, row: Bytes)
    requires WellFormed(n) && r < ROUNDS && Content(n, r) <= row
    ensures var len, il := BSTR_BYTES - CHUNK * r, 4 * |n.indices|;
            && len + il <= |row|
            && row[..CHUNK] == n.xor[CHUNK * r..CHUNK * r + CHUNK]
            && row[CHUNK..len] == n.xor[CHUNK * (r + 1)..]
            && row[len..len + il] == Concatenated(n.indices)
            && forall k | 0 <= k < |n.indices| :: IndexAt(row, len, k) == BigEndian4(n.indices[k])
  {
    hide BigEndian4, Concatenated;
    ConcatenatedLength(n.indices);
    var len, il := BSTR_BYTES - CHUNK * r, 4 * |n.indices|;
    assert row[len..len + il] == Concatenated(n.indices);
    forall k | 0 <= k < |n.indices|
      ensures IndexAt(row, len, k) == BigEndian4(n.indices[k])
    {
      ConcatenatedAt(n.indices, k);
      assert IndexAt(row, len, k) == Concatenated(n.indices)[4 * k..4 * k + 4];
    }
  }

  /** Two rows pass the three checks of round `r` exactly when their blocks are a good pair. */
  lemma PairChecks(a: Node, b: Node, r: nat, row1: Bytes, row2: Bytes)
    requires Tidy(a) && Tidy(b) && |a.indices| == |b.indices| && r < ROUNDS
    requires Content(a, r) <= row1 && Content(b, r) <= row2
    ensures var len, il := BSTR_BYTES - CHUNK * r, 4 * |a.indices|;
            && len + il <= |row1| && len + il <= |row2|
            && (GoodPair(a, b, r) <==>
                && row1[..CHUNK] == row2[..CHUNK]
                && !LexLess(row2[len..len + il], row1[len..len + il])
                && FirstIsDistinct(row1, row2, len, |a.indices|))
  {
    hide BigEndian4, Concatenated, LexLess, Content, FirstIsDistinct, AvoidsFirst, IndexAt, Fits, Pow2;
    RowParts(a, r, row1);
    RowParts(b, r, row2);
    IndexChecks(a.indices, b.indices);
    RowsAvoidFirst(a.indices, b.indices, row1, row2, BSTR_BYTES - CHUNK * r);
  }

  lemma RowsAvoidFirst(a: seq<nat>, b: seq<nat>, row1: Bytes, row2: Bytes, len: nat)
    requires a != [] && len + 4 * |b| <= |row1| && len + 4 * |b| <= |row2| && len + 4 <= |row1|
    requires IndexAt(row1, len, 0) == BigEndian4(a[0])
    requires forall k | 0 <= k < |b| :: IndexAt(row2, len, k) == BigEndian4(b[k])
    ensures FirstIsDistinct(row1, row2, len, |b|) <==> AvoidsFirst(a, b)
  {
  }

  /** A good pair is merged into the row of the joined block. */
  lemma PairMerges(a: Node, b: Node, r: nat, row1: Bytes, row2: Bytes)
    requires Tidy(a) && Tidy(b) && |a.indices| == |b.indices| && r < ROUNDS
    requires Content(a, r) <= row1 && Content(b, r) <= row2 && GoodPair(a, b, r)
    ensures var len, il := BSTR_BYTES - CHUNK * r, 4 * |a.indices|;
            && len + il <= |row1| && len + il <= |row2|
            && MergedRow(row1, row2, len, il, CHUNK) == Content(Join(a, b), r + 1)
    ensures Tidy(Join(a, b))
  {
    hide BigEndian4, Concatenated, LexLess, AvoidsFirst, IndexAt, Pow2, XorBytes;
    RowParts(a, r, row1);
    RowParts(b, r, row2);
    IndexChecks(a.indices, b.indices);
    ConcatenatedAppend(a.indices, b.indices);
    assert XorBytes(a.xor[CHUNK * (r + 1)..], b.xor[CHUNK * (r + 1)..]) == XorBytes(a.xor, b.xor)[CHUNK * (r + 1)..];
  }

  // ----- the row buffers

  /** Row `k` of the buffer starts with `content`. */
  ghost predicate RowHas(s: Bytes, k: nat, content: Bytes) {
    ROW_SIZE * k + ROW_SIZE <= |s| && content <= s[ROW_SIZE * k..ROW_SIZE * k + ROW_SIZE]
  }

  /** The first rows of the buffer hold the blocks of round `r`. */
  ghost predicate RowsHold(s: Bytes, nodes: seq<Node>, r: nat)
    requires r <= ROUNDS
  {
    AllWellFormed(nodes) && forall k | 0 <= k < |nodes| :: RowHas(s, k, Content(nodes[k], r))
  }

  /** Tidy blocks with `size` indices each. */
  ghost predicate AllTidy(nodes: seq<Node>, size: nat) {
    forall k | 0 <= k < |nodes| :: Tidy(nodes[k]) && |nodes[k].indices| == size
  }

  lemma RowKept(s: Bytes, s': Bytes, k: nat, content: Bytes, begin: nat)
    requires RowHas(s, k, content) && |s| == |s'|
    requires ROW_SIZE * k + ROW_SIZE <= begin <= |s| && s[..begin] == s'[..begin]
    ensures RowHas(s', k, content)
  {
    var lo, hi := ROW_SIZE * k, ROW_SIZE * k + ROW_SIZE;
    assert s[lo..hi] == s[..begin][lo..hi] && s'[lo..hi] == s'[..begin][lo..hi];
  }

  lemma RowWritten(s: Bytes, k: nat, content: Bytes)
    requires ROW_SIZE * k + ROW_SIZE <= |s| && |content| <= ROW_SIZE
    requires s[ROW_SIZE * k..ROW_SIZE * k + |content|] == content
    ensures RowHas(s, k, content)
  {
    var lo := ROW_SIZE * k;
    assert s[lo..lo + ROW_SIZE][..|content|] == s[lo..lo + |content|];
  }

  /** Checks one pair of rows and, when it is good, writes the merged row. */
  method MergePair(row1: Bytes, row2: Bytes, backup: array<Byte>, k: nat, hashLen: nat, indicesLen: nat,
                   ghost a: Node, ghost b: Node, ghost r: nat) returns (ok: bool)
    requires r < ROUNDS && Tidy(a) && Tidy(b) && |a.indices| == |b.indices|
    requires hashLen == BSTR_BYTES - CHUNK * r && indicesLen == 4 * |a.indices|
    requires hashLen - CHUNK + 2 * indicesLen <= ROW_SIZE
    requires Content(a, r) <= row1 && Content(b, r) <= row2
    requires ROW_SIZE * k + ROW_SIZE <= backup.Length
    modifies backup
    ensures ok <==> GoodPair(a, b, r)
    ensures backup[..ROW_SIZE * k] == old(backup[..ROW_SIZE * k])
    ensures ok ==> Tidy(Join(a, b)) && RowHas(backup[..], k, Content(Join(a, b), r + 1))
  {
    hide BigEndian4, Concatenated, LexLess, Content, FirstIsDistinct, IndexAt, Fits, Pow2, MergedRow, GoodPair, RowHas;
    PairChecks(a, b, r, row1, row2);
    var collision := HasCollision(row1, row2, CHUNK);
    if !collision {
      return false;
    }
    var before := IndicesBefore(row2, row1, hashLen, indicesLen);
    if before {
      return false;
    }
    var distinct := DistinctIndices(row1, row2, hashLen, indicesLen);
    if !distinct {
      return false;
    }
    PairMerges(a, b, r, row1, row2);
    MergeRows(row1, row2, backup, ROW_SIZE * k, hashLen, indicesLen, CHUNK);
    ghost var merged := Content(Join(a, b), r + 1);
    assert backup[..][ROW_SIZE * k..ROW_SIZE * k + |merged|] == merged;
    RowWritten(backup[..], k, merged);
    return true;
  }

  /** One round: checks all neighbouring rows of `current` and writes the merged rows to `backup`. */
  method MergeRound(current: array<Byte>, backup: array<Byte>, count: nat, hashLen: nat, indicesLen: nat,
                    ghost nodes: seq<Node>, ghost size: nat, ghost r: nat) returns (ok: bool)
    requires current != backup && r < ROUNDS && |nodes| == count && count % 2 == 0
    requires AllTidy(nodes, size) && RowsHold(current[..], nodes, r)
    requires hashLen == BSTR_BYTES - CHUNK * r && indicesLen == 4 * size && hashLen - CHUNK + 2 * indicesLen <= ROW_SIZE
    requires ROW_SIZE * (count / 2) <= backup.Length
    modifies backup
    ensures ok <==> AllGood(nodes, r)
    ensures ok ==> AllTidy(Joined(nodes), 2 * size) && RowsHold(backup[..], Joined(nodes), r + 1)
  {
    TidyIsWellFormed(nodes, size);
    assert PairsDone(backup[..], nodes, r, 0);
    hide Content, Tidy, GoodPair, RowHas, PairsDone, Joined;
    var currentRow, nextRow, mergedRow := 0, ROW_SIZE, 0;
    for p := 0 to count / 2
      invariant currentRow == ROW_SIZE * (2 * p) && nextRow == ROW_SIZE * (2 * p + 1) && mergedRow == p
      invariant current[..] == old(current[..])
      invariant PairsDone(backup[..], nodes, r, p)
    {
      ghost var a, b := nodes[2 * p], nodes[2 * p + 1];
      RowRead(current[..], 2 * p, Content(a, r));
      RowRead(current[..], 2 * p + 1, Content(b, r));
      var row1, row2 := current[..][currentRow..currentRow + ROW_SIZE], current[..][nextRow..nextRow + ROW_SIZE];
      ghost var was := backup[..];
      var good := MergePair(row1, row2, backup, mergedRow, hashLen, indicesLen, a, b, r);
      if !good {
        assert !GoodPair(nodes[2 * p], nodes[2 * p + 1], r);
        return false;
      }
      assert was[..ROW_SIZE * p] == backup[..][..ROW_SIZE * p];
      PairsDoneStep(was, backup[..], nodes, r, p);
      currentRow := currentRow + ROW_SIZE + ROW_SIZE;
      nextRow := nextRow + ROW_SIZE + ROW_SIZE;
      mergedRow := mergedRow + 1;
    }
    PairsAllDone(backup[..], nodes, size, r);
    return true;
  }

  /** The first `p` pairs are good and their joined blocks are in the buffer. */
  ghost predicate PairsDone(s: Bytes, nodes: seq<Node>, r: nat, p: nat)
    requires AllWellFormed(nodes) && r < ROUNDS && p <= |nodes| / 2
  {
    forall k | 0 <= k < p ::
      && GoodPair(nodes[2 * k], nodes[2 * k + 1], r)
      && Tidy(Join(nodes[2 * k], nodes[2 * k + 1]))
      && RowHas(s, k, Content(Join(nodes[2 * k], nodes[2 * k + 1]), r + 1))
  }

  lemma PairsDoneStep(s: Bytes, s': Bytes, nodes: seq<Node>, r: nat, p: nat)
    requires AllWellFormed(nodes) && r < ROUNDS && p < |nodes| / 2 && PairsDone(s, nodes, r, p)
    requires |s| == |s'| && ROW_SIZE * p <= |s| && s[..ROW_SIZE * p] == s'[..ROW_SIZE * p]
    requires var a, b := nodes[2 * p], nodes[2 * p + 1];
             GoodPair(a, b, r) && Tidy(Join(a, b)) && RowHas(s', p, Content(Join(a, b), r + 1))
    ensures PairsDone(s', nodes, r, p + 1)
  {
    hide GoodPair, Tidy, Content;
    forall k | 0 <= k < p
      ensures RowHas(s', k, Content(Join(nodes[2 * k], nodes[2 * k + 1]), r + 1))
    {
      RowKept(s, s', k, Content(Join(nodes[2 * k], nodes[2 * k + 1]), r + 1), ROW_SIZE * p);
    }
  }

  lemma PairsAllDone(s: Bytes, nodes: seq<Node>, size: nat, r: nat)
    requires AllTidy(nodes, size) && AllWellFormed(nodes) && r < ROUNDS && PairsDone(s, nodes, r, |nodes| / 2)
    ensures AllGood(nodes, r) && AllTidy(Joined(nodes), 2 * size)
    ensures RowsHold(s, Joined(nodes), r + 1)
  {
    hide GoodPair, Content, RowHas;
    forall k | 0 <= k < |nodes| / 2
      ensures Tidy(Joined(nodes)[k]) && |Joined(nodes)[k].indices| == 2 * size
    {
    }
  }

  lemma RowRead(s: Bytes, k: nat, content: Bytes)
    requires RowHas(s, k, content)
    ensures ROW_SIZE * k + ROW_SIZE <= |s| && content <= s[ROW_SIZE * k..ROW_SIZE * k + ROW_SIZE]
  {
  }

  lemma TidyIsWellFormed(nodes: seq<Node>, size: nat)
    requires AllTidy(nodes, size)
    ensures AllWellFormed(nodes)
  {
  }

  // ----- the whole verification

  /** Writes a bit string in three-byte pieces. */
  method WriteBitString(rows: array<Byte>, begin: nat, subHash: Bytes)
    requires |subHash| == BSTR_BYTES && begin + BSTR_BYTES <= rows.Length
    modifies rows
    ensures rows[..begin] == old(rows[..begin])
    ensures rows[begin..begin + BSTR_BYTES] == subHash
  {
    hide Fields, ElementBuffer;
    var parts := ExpandArray(subHash, 24, 0);
    FieldsCount(subHash);
    for j := 0 to 8
      invariant rows[..begin] == old(rows[..begin])
      invariant rows[begin..begin + 3 * j] == subHash[..3 * j]
    {
      ThreeByteElements(subHash, j);
      ghost var was := rows[..];
      CopyFromSlice(rows, begin + 3 * j, parts[j][..3]);
      PieceWritten(was, rows[..], begin, j, subHash);
    }
    assert subHash[..3 * 8] == subHash;
  }

  lemma PieceWritten(was: Bytes, now: Bytes, begin: nat, j: nat, subHash: Bytes)
    requires |was| == |now| && begin + 3 * j + 3 <= |was| && 3 * j + 3 <= |subHash|
    requires now[..begin + 3 * j] == was[..begin + 3 * j]
    requires now[begin + 3 * j..begin + 3 * j + 3] == subHash[3 * j..3 * j + 3]
    requires was[begin..begin + 3 * j] == subHash[..3 * j]
    ensures now[..begin] == was[..begin] && now[begin..begin + 3 * (j + 1)] == subHash[..3 * (j + 1)]
  {
    assert now[..begin] == now[..begin + 3 * j][..begin];
    assert was[..begin] == was[..begin + 3 * j][..begin];
    assert now[begin..begin + 3 * j] == now[..begin + 3 * j][begin..];
    assert was[begin..begin + 3 * j] == was[..begin + 3 * j][begin..];
    assert now[begin..begin + 3 * (j + 1)] == now[begin..begin + 3 * j] + now[begin + 3 * j..begin + 3 * j + 3];
    assert subHash[..3 * (j + 1)] == subHash[..3 * j] + subHash[3 * j..3 * j + 3];
  }

  /** Writes the first row of an index: its bit string and the index itself. */
  method WriteLeaf(rows: array<Byte>, k: nat, h: nat -> Bytes, index: nat)
    requires forall i :: |h(i)| == HASH_SIZE
    requires ROW_SIZE * k + ROW_SIZE <= rows.Length
    modifies rows
    ensures rows[..ROW_SIZE * k] == old(rows[..ROW_SIZE * k])
    ensures RowHas(rows[..], k, Content(Leaf(h, index), 0))
  {
    hide BigEndian4, Content, RowHas;
    var begin := ROW_SIZE * k;
    var hash := h(index / 2);
    var hashBegin := BSTR_BYTES * (index % 2);
    var subHash := hash[hashBegin..hashBegin + BSTR_BYTES];
    WriteBitString(rows, begin, subHash);
    ghost var was := rows[..];
    CopyFromSlice(rows, begin + BSTR_BYTES, BigEndian4(index));
    LeafContent(h, index);
    LeafWritten(was, rows[..], k, subHash, BigEndian4(index));
  }

  lemma LeafWritten(was: Bytes, now: Bytes, k: nat, subHash: Bytes, index: Bytes)
    requires |was| == |now| && ROW_SIZE * k + ROW_SIZE <= |was| && |subHash| == BSTR_BYTES && |index| == 4
    requires var begin := ROW_SIZE * k;
             && was[begin..begin + BSTR_BYTES] == subHash
             && now[..begin + BSTR_BYTES] == was[..begin + BSTR_BYTES]
             && now[begin + BSTR_BYTES..begin + BSTR_BYTES + 4] == index
    ensures now[..ROW_SIZE * k] == was[..ROW_SIZE * k] && RowHas(now, k, subHash + index)
  {
    var begin := ROW_SIZE * k;
    assert now[..begin] == now[..begin + BSTR_BYTES][..begin] == was[..begin];
    assert now[begin..begin + BSTR_BYTES] == now[..begin + BSTR_BYTES][begin..] == was[begin..begin + BSTR_BYTES];
    assert now[begin..begin + 28] == now[begin..begin + BSTR_BYTES] + now[begin + BSTR_BYTES..begin + BSTR_BYTES + 4];
    RowWritten(now, k, subHash + index);
  }

  lemma FieldsCount(bytes: Bytes)
    requires |bytes| == BSTR_BYTES
    ensures |Fields(bytes, 8, 24)| == 8
  {
  }

  lemma LeafContent(h: nat -> Bytes, index: nat)
    requires forall i :: |h(i)| == HASH_SIZE
    ensures Content(Leaf(h, index), 0) == IndexHash(h, index) + BigEndian4(index)
  {
    hide BigEndian4;
    assert Concatenated([index]) == BigEndian4(index) by {
      assert [index][..0] == [];
      assert Concatenated([]) == [];
    }
    assert IndexHash(h, index)[CHUNK * 0..] == IndexHash(h, index);
  }

  lemma UnpackFits(bytes: Bytes)
    ensures Fits(Unpack(bytes), INDEX_BITS)
    ensures |bytes| == SOLUTION_SIZE ==> |Unpack(bytes)| == INDICES
  {
    hide Number, Shr;
    forall k | 0 <= k < |Unpack(bytes)|
      ensures Unpack(bytes)[k] < Pow2(INDEX_BITS)
    {
      FieldBelow(bytes, 8, INDEX_BITS, k);
      LowBound(Shr(Number(bytes, Pow2(8)), 8 * |bytes| - (k + 1) * INDEX_BITS), INDEX_BITS);
    }
  }

  /** Fills the rows of the indices of a solution. */
  method WriteLeaves(rows: array<Byte>, h: nat -> Bytes, solution: Bytes)
    requires forall i :: |h(i)| == HASH_SIZE
    requires |solution| == SOLUTION_SIZE && ROW_SIZE * INDICES <= rows.Length
    modifies rows
    ensures RowsHold(rows[..], Leaves(h, Unpack(solution)), 0)
  {
    UnpackFits(solution);
    ghost var indices := Unpack(solution);
    var elements := ExpandArray(solution, INDEX_BITS, 0);
    assert LeavesWritten(rows[..], h, indices, 0);
    hide ElementBuffer, Fields, Content, RowHas, Pow2, Leaf, LeavesWritten, Number, Fits;
    for k := 0 to |elements|
      invariant LeavesWritten(rows[..], h, indices, k)
    {
      var index := Number(elements[k], 256);
      ElementHoldsIndex(elements[k], indices, k);
      ghost var was := rows[..];
      WriteLeaf(rows, k, h, index);
      assert was[..ROW_SIZE * k] == rows[..][..ROW_SIZE * k];
      LeavesWrittenStep(was, rows[..], h, indices, k);
    }
    LeavesAllWritten(rows[..], h, indices);
  }

  lemma ElementHoldsIndex(element: Bytes, indices: seq<nat>, k: nat)
    requires k < |indices| && Fits(indices, INDEX_BITS) && element == ElementBuffer(indices[k], INDEX_BITS, 0)
    ensures Number(element, 256) == indices[k]
  {
    hide ElementBuffer, Number, Pow2;
    BufferHoldsValue(indices[k], INDEX_BITS, 0);
    assert element[0..4] == element;
  }

  ghost predicate LeavesWritten(s: Bytes, h: nat -> Bytes, indices: seq<nat>, k: nat)
    requires forall i :: |h(i)| == HASH_SIZE
    requires k <= |indices|
  {
    forall q | 0 <= q < k :: RowHas(s, q, Content(Leaf(h, indices[q]), 0))
  }

  lemma LeavesWrittenStep(s: Bytes, s': Bytes, h: nat -> Bytes, indices: seq<nat>, k: nat)
    requires forall i :: |h(i)| == HASH_SIZE
    requires k < |indices| && LeavesWritten(s, h, indices, k) && RowHas(s', k, Content(Leaf(h, indices[k]), 0))
    requires |s| == |s'| && ROW_SIZE * k <= |s| && s[..ROW_SIZE * k] == s'[..ROW_SIZE * k]
    ensures LeavesWritten(s', h, indices, k + 1)
  {
    hide Content;
    forall q | 0 <= q < k
      ensures RowHas(s', q, Content(Leaf(h, indices[q]), 0))
    {
      RowKept(s, s', q, Content(Leaf(h, indices[q]), 0), ROW_SIZE * k);
    }
  }

  lemma LeavesAllWritten(s: Bytes, h: nat -> Bytes, indices: seq<nat>)
    requires forall i :: |h(i)| == HASH_SIZE
    requires LeavesWritten(s, h, indices, |indices|)
    ensures RowsHold(s, Leaves(h, indices), 0)
  {
  }

  lemma LeavesTidy(h: nat -> Bytes, indices: seq<nat>)
    requires forall i :: |h(i)| == HASH_SIZE
    requires Fits(indices, INDEX_BITS)
    ensures AllTidy(Leaves(h, indices), 1) && AllWellFormed(Leaves(h, indices))
  {
  }

  /** The block sizes of round `r` fit a row. */
  lemma RoundSizes(r: nat)
    requires r <= ROUNDS
    ensures Pow2(0) == 1 && Pow2(ROUNDS) == INDICES && Pow2(r) <= INDICES
    ensures r < ROUNDS ==>
              && Pow2(ROUNDS - r) == 2 * Pow2(ROUNDS - r - 1) && Pow2(r + 1) == 2 * Pow2(r)
              && Pow2(ROUNDS - r - 1) <= 64
              && BSTR_BYTES - CHUNK * r - CHUNK + 2 * (4 * Pow2(r)) <= ROW_SIZE
  {
    assert Pow2(5) == 32 && Pow2(6) == 64 && Pow2(7) == 128;
    Pow2Monotone(r, 7);
    if r < ROUNDS {
      Pow2Monotone(ROUNDS - r - 1, 6);
      if r <= 5 {
        Pow2Monotone(r, 5);
      }
    }
  }

  /** The rows hold blocks that decide the verdict for all `leaves`. */
  ghost predicate InRound(s: Bytes, leaves: seq<Node>, nodes: seq<Node>, r: nat) {
    && r <= ROUNDS && |leaves| == Pow2(ROUNDS) && AllWellFormed(leaves)
    && |nodes| == Pow2(ROUNDS - r) && AllTidy(nodes, Pow2(r)) && AllWellFormed(nodes)
    && RowsHold(s, nodes, r)
    && (Survives(leaves, 0) <==> Survives(nodes, r))
  }

  lemma RoundPassed(s: Bytes, leaves: seq<Node>, nodes: seq<Node>, r: nat, s': Bytes)
    requires r < ROUNDS && InRound(s, leaves, nodes, r) && AllGood(nodes, r)
    requires AllTidy(Joined(nodes), 2 * Pow2(r)) && RowsHold(s', Joined(nodes), r + 1)
    ensures InRound(s', leaves, Joined(nodes), r + 1)
  {
    RoundSizes(r);
    TidyIsWellFormed(Joined(nodes), 2 * Pow2(r));
  }

  lemma LastRound(r: nat)
    requires r <= ROUNDS
    ensures Pow2(ROUNDS - r) > 1 <==> r < ROUNDS
    ensures r == ROUNDS ==> Pow2(ROUNDS - r) == 1
  {
  }

  lemma Rejected(nodes: seq<Node>, r: nat)
    requires r < ROUNDS && |nodes| == Pow2(ROUNDS - r) && AllWellFormed(nodes) && !AllGood(nodes, r)
    ensures !Survives(nodes, r)
  {
  }

  /** After the last round the verdict is in the first bytes of the only row left. */
  lemma FinalRow(s: Bytes, nodes: seq<Node>)
    requires |nodes| == 1 && RowsHold(s, nodes, ROUNDS)
    ensures |s| >= CHUNK && |nodes| == Pow2(0)
    ensures Survives(nodes, ROUNDS) <==> s[..CHUNK] == [0, 0, 0]
  {
    hide Concatenated;
    assert RowHas(s, 0, Content(nodes[0], ROUNDS));
    assert s[ROW_SIZE * 0..ROW_SIZE * 0 + ROW_SIZE] == s[..ROW_SIZE];
    assert s[..CHUNK] == s[..ROW_SIZE][..CHUNK] == Content(nodes[0], ROUNDS)[..CHUNK];
  }

  /** The verdict on 128 indices. */
  ghost predicate Accepts(h: nat -> Bytes, indices: seq<nat>)
    requires forall i :: |h(i)| == HASH_SIZE
    requires |indices| == INDICES
  {
    RoundSizes(0);
    Survives(Leaves(h, indices), 0)
  }

  /** Accepts a solution exactly when its blocks survive all rounds. */
  method VerifyEquihashSolution(h: nat -> Bytes, solution: Bytes) returns (accepted: bool)
    requires forall i :: |h(i)| == HASH_SIZE
    requires |solution| == SOLUTION_SIZE
    ensures |Unpack(solution)| == INDICES
    ensures accepted <==> Accepts(h, Unpack(solution))
  {
    hide Content, RowHas, Tidy, GoodPair, Survives, Pow2, Leaf;
    UnpackFits(solution);
    RoundSizes(0);
    ghost var leaves := Leaves(h, Unpack(solution));
    LeavesTidy(h, Unpack(solution));
    var rows1 := new Byte[INDICES * ROW_SIZE](_ => 0);
    var rows2 := new Byte[INDICES * ROW_SIZE / 2](_ => 0);
    WriteLeaves(rows1, h, solution);
    var current, backup := rows1, rows2;
    var hashLen, indicesLen, count := BSTR_BYTES, 4, INDICES;
    ghost var r, nodes := 0, leaves;
    while count > 1
      invariant r <= ROUNDS && count == Pow2(ROUNDS - r)
      invariant hashLen == BSTR_BYTES - CHUNK * r && indicesLen == 4 * Pow2(r)
      invariant InRound(current[..], leaves, nodes, r)
      invariant current != backup && {current, backup} == {rows1, rows2}
      decreases count
    {
      RoundSizes(r);
      LastRound(r);
      var ok := MergeRound(current, backup, count, hashLen, indicesLen, nodes, Pow2(r), r);
      if !ok {
        Rejected(nodes, r);
        return false;
      }
      RoundPassed(current[..], leaves, nodes, r, backup[..]);
      nodes, r := Joined(nodes), r + 1;
      current, backup := backup, current;
      hashLen, indicesLen, count := hashLen - CHUNK, indicesLen * 2, count / 2;
    }
    LastRound(r);
    FinalRow(current[..], nodes);
    accepted := AllZero(current[..hashLen]);
  }

  method AllZero(bytes: Bytes) returns (r: bool)
    ensures r <==> forall i | 0 <= i < |bytes| :: bytes[i] == 0
  {
    for i := 0 to |bytes|
      invariant forall k | 0 <= k < i :: bytes[k] == 0
    {
      if bytes[i] != 0 {
        return false;
      }
    }
    return true;
  }
}
