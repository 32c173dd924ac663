/** What an accepted Equihash solution means, in terms of the hashes of its indices. */
module EquihashLaws {
  import opened Primitives
  import opened Bits
  import opened IndexPacking
  import opened Equihash

  /** The XOR of the bit strings of the indices from `lo` up to `hi`. */
  function XorRange(h: nat -> Bytes, indices: seq<nat>, lo: nat, hi: nat): (r: Bytes)
    requires forall i :: |h(i)| == HASH_SIZE
    requires lo < hi <= |indices|
    ensures |r| == BSTR_BYTES
    decreases hi
  {
    if hi == lo + 1 then IndexHash(h, indices[lo])
    else XorBytes(XorRange(h, indices, lo, hi - 1), IndexHash(h, indices[hi - 1]))
  }

  /** Where block `k` of size `size` begins. */
  function Offset(size: nat, k: nat): nat {
    size * k
  }

  lemma OffsetDoubles(size: nat, k: nat)
    ensures Offset(size, 2 * k) == Offset(2 * size, k)
    ensures Offset(size, 2 * k + 1) == Offset(2 * size, k) + size
  {
    assert size * (2 * k) == 2 * size * k && size * (2 * k + 1) == 2 * size * k + size;
  }

  /** The blocks that fit are the first `count`. */
  lemma OffsetFits(size: nat, count: nat, k: nat)
    requires size > 0
    ensures k < count <==> Offset(size, k) + size <= Offset(size, count)
  {
    assert size * (k + 1) == size * k + size;
    if k < count {
      MulMonotone(size, k + 1, count);
    } else {
      MulMonotone(size, count, k);
    }
  }

  function BlockAt(h: nat -> Bytes, indices: seq<nat>, lo: nat, size: nat): Node
    requires forall i :: |h(i)| == HASH_SIZE
    requires size > 0 && lo + size <= |indices|
  {
    Node(XorRange(h, indices, lo, lo + size), indices[lo..lo + size])
  }

  /** The nodes are the consecutive blocks of `size` indices. */
  ghost predicate IsLevel(h: nat -> Bytes, indices: seq<nat>, size: nat, nodes: seq<Node>)
    requires forall i :: |h(i)| == HASH_SIZE
  {
    && size > 0 && Offset(size, |nodes|) == |indices|
    && forall k | 0 <= k < |nodes| ::
         Offset(size, k) + size <= |indices| && nodes[k] == BlockAt(h, indices, Offset(size, k), size)
  }

  lemma XorBytesAssociates(x: Bytes, y: Bytes, z: Bytes)
    requires |x| == |y| == |z|
    ensures XorBytes(XorBytes(x, y), z) == XorBytes(x, XorBytes(y, z))
  {
    forall i | 0 <= i < |x|
      ensures XorByte(XorByte(x[i], y[i]), z[i]) == XorByte(x[i], XorByte(y[i], z[i]))
    {
      XorAssociates(x[i], y[i], z[i]);
    }
  }

  lemma {:induction false} XorRangeSplits(h: nat -> Bytes, indices: seq<nat>, lo: nat, mid: nat, hi: nat)
    requires forall i :: |h(i)| == HASH_SIZE
    requires lo < mid < hi <= |indices|
    ensures XorRange(h, indices, lo, hi) == XorBytes(XorRange(h, indices, lo, mid), XorRange(h, indices, mid, hi))
    decreases hi
  {
    if mid < hi - 1 {
      XorRangeSplits(h, indices, lo, mid, hi - 1);
      XorBytesAssociates(XorRange(h, indices, lo, mid), XorRange(h, indices, mid, hi - 1),
                         IndexHash(h, indices[hi - 1]));
    }
  }

  lemma BlocksJoin(h: nat -> Bytes, indices: seq<nat>, lo: nat, size: nat)
    requires forall i :: |h(i)| == HASH_SIZE
    requires size > 0 && lo + 2 * size <= |indices|
    ensures Join(BlockAt(h, indices, lo, size), BlockAt(h, indices, lo + size, size))
            == BlockAt(h, indices, lo, 2 * size)
  {
    hide XorRange, XorBytes;
    XorRangeSplits(h, indices, lo, lo + size, lo + 2 * size);
    assert indices[lo..lo + 2 * size] == indices[lo..lo + size] + indices[lo + size..lo + 2 * size];
  }

  lemma LevelWellFormed(h: nat -> Bytes, indices: seq<nat>, size: nat, nodes: seq<Node>)
    requires forall i :: |h(i)| == HASH_SIZE
    requires IsLevel(h, indices, size, nodes)
    ensures AllWellFormed(nodes)
  {
    hide Offset, XorRange;
  }

  /** Joining neighbours goes from one level of blocks to the next. */
  lemma JoinedLevel(h: nat -> Bytes, indices: seq<nat>, size: nat, nodes: seq<Node>)
    requires forall i :: |h(i)| == HASH_SIZE
    requires IsLevel(h, indices, size, nodes) && |nodes| % 2 == 0 && AllWellFormed(nodes)
    ensures IsLevel(h, indices, 2 * size, Joined(nodes))
  {
    hide Offset, Join, BlockAt;
    var half := |nodes| / 2;
    OffsetDoubles(size, half);
    forall k | 0 <= k < half
      ensures Offset(2 * size, k) + 2 * size <= |indices|
      ensures Joined(nodes)[k] == BlockAt(h, indices, Offset(2 * size, k), 2 * size)
    {
      OffsetDoubles(size, k);
      assert nodes[2 * k] == BlockAt(h, indices, Offset(size, 2 * k), size);
      assert nodes[2 * k + 1] == BlockAt(h, indices, Offset(size, 2 * k + 1), size);
      BlocksJoin(h, indices, Offset(2 * size, k), size);
    }
  }

  // ----- the two strings of a hash

  /** A hash is the bit strings of an even index and of the next one, in this order. */
  lemma HalvesOfHash(h: nat -> Bytes, i: nat)
    requires forall j :: |h(j)| == HASH_SIZE
    ensures IndexHash(h, 2 * i) + IndexHash(h, 2 * i + 1) == h(i)
  {
  }

  // ----- the closed form

  /** The two neighbouring blocks of `size` indices from `lo` on agree on 24-bit chunk `r` of their XOR,
      and the first index of the left one is below that of the right one. */
  ghost predicate PairCondition(h: nat -> Bytes, indices: seq<nat>, r: nat, size: nat, lo: nat)
    requires forall i :: |h(i)| == HASH_SIZE
    requires r < ROUNDS && size > 0 && lo + 2 * size <= |indices|
  {
    && XorRange(h, indices, lo, lo + size)[CHUNK * r..CHUNK * r + CHUNK]
       == XorRange(h, indices, lo + size, lo + 2 * size)[CHUNK * r..CHUNK * r + CHUNK]
    && indices[lo] < indices[lo + size]
  }

  /** Round `r` looks at every aligned pair of blocks of 2^r indices. */
  ghost predicate RoundCondition(h: nat -> Bytes, indices: seq<nat>, r: nat)
    requires forall i :: |h(i)| == HASH_SIZE
    requires r < ROUNDS
  {
    var size := Pow2(r);
    forall k: nat | Offset(2 * size, k) + 2 * size <= |indices| ::
      PairCondition(h, indices, r, size, Offset(2 * size, k))
  }

  ghost predicate LastChunkZero(h: nat -> Bytes, indices: seq<nat>)
    requires forall i :: |h(i)| == HASH_SIZE
    requires |indices| == INDICES
  {
    XorRange(h, indices, 0, INDICES)[CHUNK * ROUNDS..] == [0, 0, 0]
  }

  lemma PairIsGood(h: nat -> Bytes, indices: seq<nat>, r: nat, nodes: seq<Node>, k: nat)
    requires forall i :: |h(i)| == HASH_SIZE
    requires r < ROUNDS && 2 * k + 1 < |nodes|
    requires IsLevel(h, indices, Pow2(r), nodes) && AllWellFormed(nodes)
    ensures Offset(2 * Pow2(r), k) + 2 * Pow2(r) <= |indices|
    ensures GoodPair(nodes[2 * k], nodes[2 * k + 1], r) <==>
            PairCondition(h, indices, r, Pow2(r), Offset(2 * Pow2(r), k))
  {
    hide Offset, XorRange, Pow2;
    OffsetDoubles(Pow2(r), k);
  }

  lemma RoundIsAllGood(h: nat -> Bytes, indices: seq<nat>, r: nat, nodes: seq<Node>)
    requires forall i :: |h(i)| == HASH_SIZE
    requires r < ROUNDS && |nodes| % 2 == 0
    requires IsLevel(h, indices, Pow2(r), nodes) && AllWellFormed(nodes)
    ensures AllGood(nodes, r) <==> RoundCondition(h, indices, r)
  {
    hide Offset, XorRange, Pow2, PairCondition, GoodPair;
    var size, half := Pow2(r), |nodes| / 2;
    OffsetDoubles(size, half);
    forall k: nat | k < half
      ensures Offset(2 * size, k) + 2 * size <= |indices|
      ensures GoodPair(nodes[2 * k], nodes[2 * k + 1], r) <==> PairCondition(h, indices, r, size, Offset(2 * size, k))
    {
      PairIsGood(h, indices, r, nodes, k);
    }
    forall k: nat
      ensures k < half <==> Offset(2 * size, k) + 2 * size <= |indices|
    {
      OffsetFits(2 * size, half, k);
    }
    if AllGood(nodes, r) {
      forall k: nat | Offset(2 * size, k) + 2 * size <= |indices|
        ensures PairCondition(h, indices, r, size, Offset(2 * size, k))
      {
        assert k < half;
        assert GoodPair(nodes[2 * k], nodes[2 * k + 1], r);
      }
    }
  }

  lemma LevelSizes(r: nat)
    requires r < ROUNDS
    ensures Pow2(ROUNDS - r) % 2 == 0 && Pow2(ROUNDS - r) / 2 == Pow2(ROUNDS - (r + 1)) && Pow2(r + 1) == 2 * Pow2(r)
  {
  }

  /** One round of a level: its condition, then the next level. */
  lemma SurvivesStep(h: nat -> Bytes, indices: seq<nat>, r: nat, nodes: seq<Node>)
    requires forall i :: |h(i)| == HASH_SIZE
    requires r < ROUNDS && |nodes| == Pow2(ROUNDS - r)
    requires IsLevel(h, indices, Pow2(r), nodes) && AllWellFormed(nodes)
    ensures IsLevel(h, indices, Pow2(r + 1), Joined(nodes)) && AllWellFormed(Joined(nodes))
    ensures |Joined(nodes)| == Pow2(ROUNDS - (r + 1))
    ensures Survives(nodes, r) <==> RoundCondition(h, indices, r) && Survives(Joined(nodes), r + 1)
  {
    LevelSizes(r);
    hide RoundCondition, AllGood, IsLevel, Pow2, Joined;
    RoundIsAllGood(h, indices, r, nodes);
    JoinedLevel(h, indices, Pow2(r), nodes);
    LevelWellFormed(h, indices, Pow2(r + 1), Joined(nodes));
  }

  lemma {:induction false} SurvivesFrom(h: nat -> Bytes, indices: seq<nat>, r: nat, nodes: seq<Node>)
    requires forall i :: |h(i)| == HASH_SIZE
    requires |indices| == INDICES && r <= ROUNDS && |nodes| == Pow2(ROUNDS - r)
    requires IsLevel(h, indices, Pow2(r), nodes) && AllWellFormed(nodes)
    ensures Survives(nodes, r) <==>
            (forall q | r <= q < ROUNDS :: RoundCondition(h, indices, q)) && LastChunkZero(h, indices)
    decreases ROUNDS - r
  {
    hide *;
    if r < ROUNDS {
      SurvivesStep(h, indices, r, nodes);
      SurvivesFrom(h, indices, r + 1, Joined(nodes));
    } else {
      LastLevel(h, indices, nodes);
    }
  }

  lemma LastLevel(h: nat -> Bytes, indices: seq<nat>, nodes: seq<Node>)
    requires forall i :: |h(i)| == HASH_SIZE
    requires |indices| == INDICES && |nodes| == Pow2(ROUNDS - ROUNDS)
    requires IsLevel(h, indices, Pow2(ROUNDS), nodes) && AllWellFormed(nodes)
    ensures Survives(nodes, ROUNDS) <==> LastChunkZero(h, indices)
  {
    LastNode(h, indices, nodes);
  }

  lemma LastNode(h: nat -> Bytes, indices: seq<nat>, nodes: seq<Node>)
    requires forall i :: |h(i)| == HASH_SIZE
    requires |indices| == INDICES && |nodes| == 1 && IsLevel(h, indices, Pow2(ROUNDS), nodes)
    ensures nodes[0].xor == XorRange(h, indices, 0, INDICES)
  {
    hide XorRange;
    assert Pow2(ROUNDS) == INDICES;
    assert nodes[0] == BlockAt(h, indices, Offset(INDICES, 0), INDICES);
  }

  lemma FirstLevel(h: nat -> Bytes, indices: seq<nat>)
    requires forall i :: |h(i)| == HASH_SIZE
    ensures IsLevel(h, indices, 1, Leaves(h, indices))
  {
    forall k | 0 <= k < |indices|
      ensures Offset(1, k) == k && BlockAt(h, indices, k, 1) == Leaf(h, indices[k])
    {
      assert indices[k..k + 1] == [indices[k]];
    }
  }

  /** A solution is accepted if and only if every round finds every aligned pair of blocks in order and
      colliding, and the last chunk of the XOR of everything is zero. */
  lemma AcceptsIff(h: nat -> Bytes, indices: seq<nat>)
    requires forall i :: |h(i)| == HASH_SIZE
    requires |indices| == INDICES
    ensures Accepts(h, indices) <==>
            (forall q | 0 <= q < ROUNDS :: RoundCondition(h, indices, q)) && LastChunkZero(h, indices)
  {
    hide RoundCondition, Survives, LastChunkZero, IsLevel;
    assert Pow2(0) == 1 && Pow2(ROUNDS) == INDICES;
    FirstLevel(h, indices);
    LevelWellFormed(h, indices, 1, Leaves(h, indices));
    SurvivesFrom(h, indices, 0, Leaves(h, indices));
  }

  // ----- the XOR of all bit strings

  /** The first `r` chunks are zero. */
  ghost predicate ZeroChunks(x: Bytes, r: nat) {
    CHUNK * r <= |x| && forall i | 0 <= i < CHUNK * r :: x[i] == 0
  }

  lemma XorClears(x: Bytes, y: Bytes, r: nat)
    requires |x| == |y| == BSTR_BYTES && r < ROUNDS && ZeroChunks(x, r) && ZeroChunks(y, r)
    requires x[CHUNK * r..CHUNK * r + CHUNK] == y[CHUNK * r..CHUNK * r + CHUNK]
    ensures ZeroChunks(XorBytes(x, y), r + 1)
  {
    forall i | 0 <= i < CHUNK * (r + 1)
      ensures XorByte(x[i], y[i]) == 0
    {
      if i >= CHUNK * r {
        var j := i - CHUNK * r;
        assert x[i] == x[CHUNK * r..CHUNK * r + CHUNK][j] == y[CHUNK * r..CHUNK * r + CHUNK][j] == y[i];
      }
      XorZero(x[i]);
    }
  }

  ghost predicate AllZeroChunks(nodes: seq<Node>, r: nat) {
    forall k | 0 <= k < |nodes| :: ZeroChunks(nodes[k].xor, r)
  }

  lemma JoinedClears(nodes: seq<Node>, r: nat)
    requires r < ROUNDS && AllWellFormed(nodes) && AllGood(nodes, r) && AllZeroChunks(nodes, r)
    ensures AllZeroChunks(Joined(nodes), r + 1)
  {
    hide XorBytes, ZeroChunks;
    forall k | 0 <= k < |nodes| / 2
      ensures ZeroChunks(Joined(nodes)[k].xor, r + 1)
    {
      assert GoodPair(nodes[2 * k], nodes[2 * k + 1], r);
      XorClears(nodes[2 * k].xor, nodes[2 * k + 1].xor, r);
    }
  }

  lemma {:induction false} SurvivorsXorToZero(h: nat -> Bytes, indices: seq<nat>, r: nat, nodes: seq<Node>)
    requires forall i :: |h(i)| == HASH_SIZE
    requires |indices| == INDICES && r <= ROUNDS && |nodes| == Pow2(ROUNDS - r)
    requires IsLevel(h, indices, Pow2(r), nodes) && AllWellFormed(nodes)
    requires Survives(nodes, r) && AllZeroChunks(nodes, r)
    ensures XorRange(h, indices, 0, INDICES) == seq(BSTR_BYTES, _ => 0)
    decreases ROUNDS - r
  {
    hide *;
    if r < ROUNDS {
      SurvivesGood(nodes, r);
      SurvivesStep(h, indices, r, nodes);
      JoinedClears(nodes, r);
      SurvivorsXorToZero(h, indices, r + 1, Joined(nodes));
    } else {
      LastIsZero(h, indices, nodes);
    }
  }

  lemma LastIsZero(h: nat -> Bytes, indices: seq<nat>, nodes: seq<Node>)
    requires forall i :: |h(i)| == HASH_SIZE
    requires |indices| == INDICES && |nodes| == Pow2(ROUNDS - ROUNDS)
    requires IsLevel(h, indices, Pow2(ROUNDS), nodes) && AllWellFormed(nodes)
    requires Survives(nodes, ROUNDS) && AllZeroChunks(nodes, ROUNDS)
    ensures XorRange(h, indices, 0, INDICES) == seq(BSTR_BYTES, _ => 0)
  {
    hide XorRange, IsLevel, Survives;
    LastLevel(h, indices, nodes);
    LastNode(h, indices, nodes);
    var x := XorRange(h, indices, 0, INDICES);
    assert ZeroChunks(x, ROUNDS);
    assert x == x[..CHUNK * ROUNDS] + x[CHUNK * ROUNDS..];
  }

  lemma SurvivesGood(nodes: seq<Node>, r: nat)
    requires r < ROUNDS && |nodes| == Pow2(ROUNDS - r) && AllWellFormed(nodes) && Survives(nodes, r)
    ensures AllGood(nodes, r)
  {
  }

  /** Accepted solutions solve the generalised birthday problem: the XOR of their bit strings is zero. */
  lemma AcceptedXorIsZero(h: nat -> Bytes, indices: seq<nat>)
    requires forall i :: |h(i)| == HASH_SIZE
    requires |indices| == INDICES && Accepts(h, indices)
    ensures XorRange(h, indices, 0, INDICES) == seq(BSTR_BYTES, _ => 0)
  {
    hide Survives, IsLevel, XorRange;
    assert Pow2(0) == 1 && Pow2(ROUNDS) == INDICES;
    FirstLevel(h, indices);
    LevelWellFormed(h, indices, 1, Leaves(h, indices));
    SurvivorsXorToZero(h, indices, 0, Leaves(h, indices));
  }

  // ----- the order of the indices

  ghost predicate StartsWithMinimum(indices: seq<nat>, lo: nat, size: nat)
    requires lo + size <= |indices|
  {
    forall j | lo < j < lo + size :: indices[lo] < indices[j]
  }

  /** Every aligned block of an accepted solution begins with its strict minimum. */
  lemma {:induction false} AcceptedBlocksAreOrdered(h: nat -> Bytes, indices: seq<nat>, r: nat, k: nat)
    requires forall i :: |h(i)| == HASH_SIZE
    requires |indices| == INDICES && Accepts(h, indices)
    requires r <= ROUNDS && Offset(Pow2(r), k) + Pow2(r) <= INDICES
    ensures StartsWithMinimum(indices, Offset(Pow2(r), k), Pow2(r))
    decreases r
  {
    hide *;
    if r > 0 {
      LevelSizes(r - 1);
      var size := Pow2(r - 1);
      OffsetDoubles(size, k);
      RoundOrders(h, indices, r - 1, k);
      AcceptedBlocksAreOrdered(h, indices, r - 1, 2 * k);
      AcceptedBlocksAreOrdered(h, indices, r - 1, 2 * k + 1);
      MinimumOfHalves(indices, Offset(2 * size, k), size);
    } else {
      MinimumOfOne(indices, Offset(Pow2(0), k));
    }
  }

  lemma MinimumOfOne(indices: seq<nat>, lo: nat)
    requires lo + Pow2(0) <= |indices|
    ensures StartsWithMinimum(indices, lo, Pow2(0))
  {
  }

  lemma MinimumOfHalves(indices: seq<nat>, lo: nat, size: nat)
    requires size > 0 && lo + 2 * size <= |indices| && indices[lo] < indices[lo + size]
    requires StartsWithMinimum(indices, lo, size) && StartsWithMinimum(indices, lo + size, size)
    ensures StartsWithMinimum(indices, lo, 2 * size)
  {
  }

  lemma RoundOrders(h: nat -> Bytes, indices: seq<nat>, r: nat, k: nat)
    requires forall i :: |h(i)| == HASH_SIZE
    requires |indices| == INDICES && Accepts(h, indices)
    requires r < ROUNDS && Offset(2 * Pow2(r), k) + 2 * Pow2(r) <= INDICES
    ensures indices[Offset(2 * Pow2(r), k)] < indices[Offset(2 * Pow2(r), k) + Pow2(r)]
  {
    hide Offset, Accepts, XorRange, Survives, Pow2, LastChunkZero;
    AcceptsIff(h, indices);
    assert RoundCondition(h, indices, r);
    assert PairCondition(h, indices, r, Pow2(r), Offset(2 * Pow2(r), k));
  }

  // ----- repeated indices

  /** An aligned block that begins at position `i` contains the later position `j`. */
  ghost predicate Heads(i: nat, j: nat) {
    exists r: nat, k: nat :: r <= ROUNDS && Offset(Pow2(r), k) == i && i < j < i + Pow2(r)
  }

  ghost predicate InBlock(i: nat, j: nat) {
    j == i || Heads(i, j)
  }

  lemma NoMultipleBetween(d: nat, m: nat, k: nat)
    ensures !(Offset(d, k) < Offset(d, m) < Offset(d, k) + d)
  {
    if m <= k {
      MulMonotone(d, m, k);
    } else {
      MulMonotone(d, k + 1, m);
      assert d * (k + 1) == d * k + d;
    }
  }

  lemma OffsetOfProduct(d: nat, m: nat, k: nat)
    ensures Offset(d * m, k) == Offset(d, m * k)
  {
    assert (d * m) * k == d * (m * k);
  }

  /** A block that begins inside another aligned block ends inside it. */
  lemma BlocksNest(p: nat, k: nat, q: nat, m: nat)
    requires Offset(Pow2(p), k) < Offset(Pow2(q), m) < Offset(Pow2(p), k) + Pow2(p)
    ensures Offset(Pow2(q), m) + Pow2(q) <= Offset(Pow2(p), k) + Pow2(p)
  {
    hide Offset, Pow2;
    if p <= q {
      Pow2Add(p, q - p);
      OffsetOfProduct(Pow2(p), Pow2(q - p), m);
      NoMultipleBetween(Pow2(p), Pow2(q - p) * m, k);
    } else {
      Pow2Add(q, p - q);
      var c := Pow2(p - q);
      OffsetOfProduct(Pow2(q), c, k);
      OffsetOfProduct(Pow2(q), c, k + 1);
      OffsetNext(Pow2(p), k);
      OffsetFits(Pow2(q), c * (k + 1), m);
      OffsetGrows(Pow2(q), c * (k + 1), m);
    }
  }

  lemma OffsetNext(d: nat, k: nat)
    ensures Offset(d, k + 1) == Offset(d, k) + d
  {
  }

  lemma OffsetGrows(d: nat, k: nat, m: nat)
    requires Offset(d, m) < Offset(d, k)
    ensures m < k
  {
    if k <= m {
      MulMonotone(d, k, m);
    }
  }

  /** Where a pair of neighbouring blocks begins in a block, its right half begins there too. */
  lemma PairInBlock(i: nat, r: nat, k: nat)
    requires r < ROUNDS && InBlock(i, Offset(2 * Pow2(r), k))
    ensures InBlock(i, Offset(2 * Pow2(r), k) + Pow2(r))
  {
    LevelSizes(r);
    hide Offset, Pow2;
    var lo, size := Offset(2 * Pow2(r), k), Pow2(r);
    if lo == i {
      assert Offset(Pow2(r + 1), k) == i && i < lo + size < i + Pow2(r + 1);
    } else {
      var p: nat, m: nat :| p <= ROUNDS && Offset(Pow2(p), m) == i && i < lo < i + Pow2(p);
      BlocksNest(p, m, r + 1, k);
      assert Offset(Pow2(p), m) == i && i < lo + size < i + Pow2(p);
    }
  }

  /** Indices in order, except that the blocks at `i` and at `j` both count up from 1000. */
  ghost function Repeating(i: nat, j: nat): (r: seq<nat>)
    ensures |r| == INDICES
  {
    seq(INDICES, p requires 0 <= p < INDICES => RepeatingAt(i, j, p))
  }

  ghost function RepeatingAt(i: nat, j: nat, p: nat): nat {
    if p >= i && InBlock(i, p) then 1000 + p - i
    else if p >= j && InBlock(j, p) then 1000 + p - j
    else p
  }

  lemma RepeatingIsOrdered(i: nat, j: nat, r: nat, k: nat)
    requires i < j && r < ROUNDS && Offset(2 * Pow2(r), k) + 2 * Pow2(r) <= INDICES
    ensures RepeatingAt(i, j, Offset(2 * Pow2(r), k)) < RepeatingAt(i, j, Offset(2 * Pow2(r), k) + Pow2(r))
  {
    hide Heads, Offset, Pow2, InBlock;
    var lo := Offset(2 * Pow2(r), k);
    if lo >= i && InBlock(i, lo) {
      PairInBlock(i, r, k);
    } else if lo >= j && InBlock(j, lo) {
      PairInBlock(j, r, k);
    }
  }

  function ZeroHash(i: nat): Bytes {
    seq(HASH_SIZE, _ => 0)
  }

  ghost predicate HashSized(h: nat -> Bytes) {
    forall i :: |h(i)| == HASH_SIZE
  }

  lemma ZeroHashSized()
    ensures HashSized(ZeroHash) && forall i :: |ZeroHash(i)| == HASH_SIZE
  {
  }

  lemma {:induction false} ZeroHashesXorToZero(indices: seq<nat>, lo: nat, hi: nat)
    requires lo < hi <= |indices|
    ensures XorRange(ZeroHash, indices, lo, hi) == seq(BSTR_BYTES, _ => 0)
    decreases hi
  {
    assert IndexHash(ZeroHash, indices[hi - 1]) == seq(BSTR_BYTES, _ => 0);
    if lo + 1 < hi {
      ZeroHashesXorToZero(indices, lo, hi - 1);
      XorZero(0);
    }
  }

  lemma RepeatingIsAccepted(i: nat, j: nat)
    requires i < j
    ensures HashSized(ZeroHash) && Accepts(ZeroHash, Repeating(i, j))
  {
    ZeroHashSized();
    hide Accepts, RoundCondition, XorRange, Repeating, HashSized, ZeroHash;
    var indices := Repeating(i, j);
    forall r: nat | r < ROUNDS
      ensures RoundCondition(ZeroHash, indices, r)
    {
      RepeatingPassesRound(i, j, r);
    }
    ZeroHashesXorToZero(indices, 0, INDICES);
    AcceptsIff(ZeroHash, indices);
  }

  lemma RepeatingFits(i: nat, j: nat)
    ensures Fits(Repeating(i, j), INDEX_BITS) && |Repeating(i, j)| == 128
  {
    assert Pow2(11) == 2048;
    Pow2Monotone(11, INDEX_BITS);
    hide Pow2, InBlock;
  }

  lemma PackedBytes(indices: seq<nat>)
    ensures |Pack(indices)| == INDEX_BITS * |indices| / 8
    ensures forall k | 0 <= k < |Pack(indices)| :: Pack(indices)[k] < 256
  {
    Pow2Of8();
    hide Low, Shr, Number, Pow2;
    var masked := Masked(indices);
    forall k | 0 <= k < |Pack(indices)|
      ensures Pack(indices)[k] < 256
    {
      FieldBelow(masked, INDEX_BITS, 8, k);
      var shift: nat := INDEX_BITS * |masked| - (k + 1) * 8;
      LowBound(Shr(Number(masked, Pow2(INDEX_BITS)), shift), 8);
    }
  }

  /** These solutions come as bytes: 400 of them, and unpacking gives the indices back. */
  lemma RepeatingIsPacked(i: nat, j: nat) returns (solution: Bytes)
    ensures |solution| == SOLUTION_SIZE && Unpack(solution) == Repeating(i, j)
  {
    hide Pack, Unpack, Repeating, Fits, Pow2;
    RepeatingFits(i, j);
    UnpackPack(Repeating(i, j));
    PackedBytes(Repeating(i, j));
    solution := Pack(Repeating(i, j));
  }

  lemma RepeatingPassesRound(i: nat, j: nat, r: nat)
    requires i < j && r < ROUNDS
    ensures RoundCondition(ZeroHash, Repeating(i, j), r)
  {
    hide Offset, Pow2, XorRange, RepeatingAt;
    var indices, size := Repeating(i, j), Pow2(r);
    forall k: nat | Offset(2 * size, k) + 2 * size <= |indices|
      ensures PairCondition(ZeroHash, indices, r, size, Offset(2 * size, k))
    {
      var lo := Offset(2 * size, k);
      RepeatingIsOrdered(i, j, r, k);
      ZeroHashesXorToZero(indices, lo, lo + size);
      ZeroHashesXorToZero(indices, lo + size, lo + 2 * size);
    }
  }

  /** Acceptance keeps the indices at two positions apart exactly when an aligned block that begins at the
      first position contains the second one; everywhere else an accepted solution may repeat an index. */
  lemma KeptApartIff(i: nat, j: nat)
    requires i < j < INDICES
    ensures Heads(i, j) <==>
            forall h: nat -> Bytes, indices: seq<nat> ::
              HashSized(h) && |indices| == INDICES && Accepts(h, indices) ==> indices[i] != indices[j]
  {
    if Heads(i, j) {
      forall h: nat -> Bytes, indices: seq<nat> | HashSized(h) && |indices| == INDICES && Accepts(h, indices)
        ensures indices[i] != indices[j]
      {
        HeadIsBelow(h, indices, i, j);
      }
    } else {
      hide *;
      RepeatingIsAccepted(i, j);
      RepeatingRepeats(i, j);
    }
  }

  /** The same for solutions as the verification receives them. */
  lemma SolutionsKeptApartIff(i: nat, j: nat)
    requires i < j < INDICES
    ensures forall solution: Bytes | |solution| == SOLUTION_SIZE :: |Unpack(solution)| == INDICES
    ensures Heads(i, j) <==>
            forall h: nat -> Bytes, solution: Bytes ::
              HashSized(h) && |solution| == SOLUTION_SIZE && Accepts(h, Unpack(solution)) ==>
                Unpack(solution)[i] != Unpack(solution)[j]
  {
    hide *;
    forall solution: Bytes | |solution| == SOLUTION_SIZE
      ensures |Unpack(solution)| == INDICES
    {
      UnpackFits(solution);
    }
    KeptApartIff(i, j);
    if !Heads(i, j) {
      var solution := RepeatingIsPacked(i, j);
      RepeatingIsAccepted(i, j);
      RepeatingRepeats(i, j);
    }
  }

  lemma RepeatingRepeats(i: nat, j: nat)
    requires i < j < INDICES && !Heads(i, j)
    ensures Repeating(i, j)[i] == 1000 == Repeating(i, j)[j]
  {
    hide Heads;
  }

  lemma HeadIsBelow(h: nat -> Bytes, indices: seq<nat>, i: nat, j: nat)
    requires HashSized(h) && |indices| == INDICES && Accepts(h, indices)
    requires j < INDICES && Heads(i, j)
    ensures indices[i] < indices[j]
  {
    hide Offset, Pow2, Accepts;
    var r: nat, k: nat :| r <= ROUNDS && Offset(Pow2(r), k) == i && i < j < i + Pow2(r);
    BlockEnds(r, k);
    AcceptedBlocksAreOrdered(h, indices, r, k);
  }

  /** An aligned block that begins below 128 ends there or before. */
  lemma BlockEnds(r: nat, k: nat)
    requires r <= ROUNDS && Offset(Pow2(r), k) < INDICES
    ensures Offset(Pow2(r), k) + Pow2(r) <= INDICES
  {
    assert Pow2(ROUNDS) == INDICES;
    hide Offset, Pow2;
    Pow2Add(r, ROUNDS - r);
    var c := Pow2(ROUNDS - r);
    assert Offset(Pow2(r), c) == INDICES by {
      ProductOffset(Pow2(r), c);
    }
    OffsetGrows(Pow2(r), c, k);
    OffsetFits(Pow2(r), c, k);
  }

  lemma ProductOffset(d: nat, m: nat)
    ensures Offset(d, m) == d * m
  {
  }
}
