/**
 Where a key lives: its hash picks one of a power of two of partitions, and the partitions are dealt
 out to the nodes in consecutive ranges of nearly equal size.
 */
module Routing {
  import opened Prelude
  import opened Bits

  const FNV_OFFSET: nat := 14695981039346656037
  const FNV_PRIME: nat := 1099511628211

  /** The 64-bit FNV-1a hash. */
  function Fnv(key: Key): (h: nat)
    ensures h < TWO_64
  {
    if key == [] then FNV_OFFSET else
      var last := |key| - 1;
      Xor(Fnv(key[..last]), key[last]) * FNV_PRIME % TWO_64
  }

  /** The same loop with every step reduced modulo n. */
  function FnvModulo(key: Key, n: nat): nat
    requires n > 0
  {
    if key == [] then FNV_OFFSET % n else
      var last := |key| - 1;
      Xor(FnvModulo(key[..last], n), key[last]) * FNV_PRIME % n
  }

  /** One more byte, in numbers: it meets the lowest byte of the hash. */
  lemma {:induction false} OneMoreByte(key: Key, b: Byte, h: nat, low: nat, next: nat)
    requires Fnv(key) == h && Xor(h % 256, b) == low
    requires next == (h / 256 * 256 + low) * FNV_PRIME % TWO_64
    ensures Fnv(key + [b]) == next
  {
    assert (key + [b])[..|key|] == key;
    assert Pow2(8) == 256;
    XorSplits(h, b, 8);
  }

  /** One exclusive or, bit by bit: 0100101 and 1100001 give 1000100. */
  lemma {:induction false} XorOfA(x: nat, a: nat)
    requires x == 37 && a == 97
    ensures Xor(x, a) == 68
  {
    XorHalves(x, a);
    XorHalves(x / 2, a / 2);
    XorHalves(x / 4, a / 4);
    XorHalves(x / 8, a / 8);
    XorHalves(x / 16, a / 16);
    XorHalves(x / 32, a / 32);
    assert x / 64 == 0 && a / 64 == 1;
  }

  lemma {:induction false} NextOfA(h: nat)
    requires h == FNV_OFFSET
    ensures h == 0xcbf29ce484222325 && h % 256 == 37
    ensures (h / 256 * 256 + 68) * FNV_PRIME % TWO_64 == 0xaf63dc4c8601ec8c
  {
  }

  /** The published values of 64-bit FNV-1a for the empty text and for "a". */
  lemma {:induction false} KnownHashes(none: Key, a: Byte)
    requires none == [] && a == 97
    ensures Fnv(none) == 0xcbf29ce484222325
    ensures Fnv(none + [a]) == 0xaf63dc4c8601ec8c
  {
    var h := Fnv(none);
    NextOfA(h);
    XorOfA(h % 256, a);
    OneMoreByte(none, a, h, 68, (h / 256 * 256 + 68) * FNV_PRIME % TWO_64);
  }

  /** The partition a key belongs to, as a remainder of its hash. */
  function PartitionOf(key: Key, n: nat): (p: nat)
    requires n > 0
    ensures p < n
  {
    Fnv(key) % n
  }

  predicate ValidPartitionCount(n: int) {
    n > 0 && And(n, n - 1) == 0
  }

  /** The bit trick accepts exactly the powers of two. */
  lemma {:induction false} ValidIsPow2(n: int)
    ensures ValidPartitionCount(n) <==> IsPow2(n)
  {
    if n > 0 { SingleBit(n); }
  }

  /** The hashing loop and its final mask compute the remainder of the FNV-1a hash. */
  method Partition(key: Key, partitionCount: nat) returns (p: nat)
    requires ValidPartitionCount(partitionCount)
    ensures p == PartitionOf(key, partitionCount)
    ensures p < partitionCount
  {
    var h := FNV_OFFSET;
    for i := 0 to |key|
      invariant h == Fnv(key[..i])
    {
      assert key[..i + 1][..i] == key[..i];
      h := Xor(h, key[i]) * FNV_PRIME % TWO_64;
    }
    assert key[..|key|] == key;
    ValidIsPow2(partitionCount);
    ghost var k: nat :| partitionCount == Pow2(k);
    MaskIsMod(h, k);
    return And(h, partitionCount - 1);
  }

  lemma {:induction false} Pow2Monotone(j: nat, k: nat)
    requires j < k
    ensures Pow2(j) < Pow2(k)
    decreases k
  {
    if j < k - 1 { Pow2Monotone(j, k - 1); }
  }

  lemma {:induction false} TwoTo64()
    ensures Pow2(64) == TWO_64
  {
    assert Pow2(4) == 16;
    Pow2Splits(4, 8);
    Pow2Splits(8, 16);
    Pow2Splits(16, 32);
    Pow2Splits(32, 64);
  }

  /**
   The low bits of the hash never depend on the high ones: running the whole loop modulo the
   partition count places every key where the 64-bit hash does.
   */
  lemma {:induction false} HashLowBits(key: Key, n: nat)
    requires ValidPartitionCount(n) && n <= TWO_64
    ensures FnvModulo(key, n) == PartitionOf(key, n)
  {
    ValidIsPow2(n);
    var k: nat :| n == Pow2(k);
    TwoTo64();
    if k > 64 { Pow2Monotone(64, k); }
    if key == [] {
    } else {
      var last := |key| - 1;
      HashLowBits(key[..last], n);
      LowBitsStep(Fnv(key[..last]), key[last], k);
    }
  }

  lemma {:induction false} LowBitsStep(h: nat, b: nat, k: nat)
    requires k <= 64
    ensures Xor(h, b) * FNV_PRIME % TWO_64 % Pow2(k) == Xor(h % Pow2(k), b) * FNV_PRIME % Pow2(k)
  {
    var n := Pow2(k);
    TwoTo64();
    Pow2Splits(k, 64);
    var x, y := Xor(h, b), Xor(h % n, b);
    ModOfMultiple(x * FNV_PRIME, Pow2(64 - k), n);
    MulMod(x, FNV_PRIME, n);
    MulMod(y, FNV_PRIME, n);
    XorMod(h, b, k);
    XorMod(h % n, b, k);
    ModMod(h, n);
  }

  /** Doubling the partition count splits each partition in two and mixes no others. */
  lemma {:induction false} DoublingSplits(key: Key, n: nat)
    requires n > 0
    ensures PartitionOf(key, 2 * n) % n == PartitionOf(key, n)
    ensures PartitionOf(key, 2 * n) == PartitionOf(key, n) || PartitionOf(key, 2 * n) == PartitionOf(key, n) + n
  {
    ModOfMultiple(Fnv(key), 2, n);
    var p := PartitionOf(key, 2 * n);
    if p < n {
      ModUnique(p, n, 0, p);
    } else {
      ModUnique(p, n, 1, p - n);
    }
  }

  // ---------------------------------------------------------------- ranges

  /** A half-open span of partitions. */
  datatype Range = Range(lo: nat, hi: nat) {
    predicate Contains(p: nat) { lo <= p < hi }
  }

  datatype RoutingError =
    | BadNodeCount(count: int)
    | IndexOutOfRange(index: int, count: int)
    | BadPartitionCount(partitionCount: int)
    | NoNodes
    | TooManyNodes(count: int)

  function Min(a: int, b: int): int { if a < b then a else b }

  /** Where the range of node i starts when `parts` partitions are shared by n nodes. */
  function Lo(i: nat, n: nat, parts: nat): nat
    requires n > 0
  {
    i * (parts / n) + Min(i, parts % n)
  }

  /** How many partitions node i owns. */
  function Size(i: nat, n: nat, parts: nat): nat
    requires n > 0
  {
    parts / n + if i < parts % n then 1 else 0
  }

  function RangeFor(index: int, nodeCount: int, partitionCount: int): Result<Range, RoutingError> {
    if nodeCount <= 0 then Err(BadNodeCount(nodeCount))
    else if index < 0 || index >= nodeCount then Err(IndexOutOfRange(index, nodeCount))
    else if !ValidPartitionCount(partitionCount) then Err(BadPartitionCount(partitionCount))
    else
      var lo := Lo(index, nodeCount, partitionCount);
      Ok(Range(lo, lo + Size(index, nodeCount, partitionCount)))
  }

  /** A range is refused exactly for a fault in what was asked, and the refusal names it. */
  lemma {:induction false} RangeRefused(index: int, nodeCount: int, partitionCount: int)
    ensures RangeFor(index, nodeCount, partitionCount).Ok? <==>
              0 <= index < nodeCount && ValidPartitionCount(partitionCount)
    ensures match RangeFor(index, nodeCount, partitionCount)
            case Err(BadNodeCount(count)) => count == nodeCount <= 0
            case Err(IndexOutOfRange(i, count)) => i == index && count == nodeCount && !(0 <= index < nodeCount)
            case Err(BadPartitionCount(count)) => count == partitionCount && !ValidPartitionCount(partitionCount)
            case Err(_) => false
            case Ok(_) => true
  {
  }

  lemma {:induction false} LoStep(i: nat, n: nat, parts: nat)
    requires i < n
    ensures Lo(i + 1, n, parts) == Lo(i, n, parts) + Size(i, n, parts)
  {
    var base := parts / n;
    assert (i + 1) * base == i * base + base;
  }

  lemma {:induction false} LoEnds(n: nat, parts: nat)
    requires n > 0
    ensures Lo(0, n, parts) == 0
    ensures Lo(n, n, parts) == parts
  {
  }

  lemma {:induction false} LoMonotone(i: nat, j: nat, n: nat, parts: nat)
    requires i <= j <= n && n > 0
    ensures Lo(i, n, parts) <= Lo(j, n, parts)
    decreases j
  {
    if i == j {
    } else {
      LoMonotone(i, j - 1, n, parts);
      LoStep(j - 1, n, parts);
    }
  }

  /** The index of the node whose range holds partition p. */
  function Owner(p: nat, n: nat, parts: nat): (i: nat)
    requires n > 0 && p < parts
    ensures i < n && Lo(i, n, parts) <= p < Lo(i + 1, n, parts)
  {
    LoEnds(n, parts);
    OwnerUpTo(p, n - 1, n, parts)
  }

  function OwnerUpTo(p: nat, i: nat, n: nat, parts: nat): (j: nat)
    requires i < n && p < Lo(i + 1, n, parts)
    ensures j <= i && Lo(j, n, parts) <= p < Lo(j + 1, n, parts)
    decreases i
  {
    LoEnds(n, parts);
    if Lo(i, n, parts) <= p then i else OwnerUpTo(p, i - 1, n, parts)
  }

  /** Only one node's range can hold a partition. */
  lemma {:induction false} OwnerUnique(p: nat, i: nat, n: nat, parts: nat)
    requires i < n && p < parts
    requires Lo(i, n, parts) <= p < Lo(i + 1, n, parts)
    ensures i == Owner(p, n, parts)
  {
    var j := Owner(p, n, parts);
    if i < j {
      LoMonotone(i + 1, j, n, parts);
    } else if j < i {
      LoMonotone(j + 1, i, n, parts);
    }
  }

  /** The range of node i reaches to the start of the next one and not past the last partition. */
  lemma {:induction false} RangeEnds(i: nat, n: nat, parts: nat)
    requires i < n && ValidPartitionCount(parts)
    ensures RangeFor(i, n, parts) == Ok(Range(Lo(i, n, parts), Lo(i + 1, n, parts)))
    ensures i * (parts / n) <= Lo(i, n, parts) <= Lo(i + 1, n, parts) <= parts
  {
    LoStep(i, n, parts);
    LoEnds(n, parts);
    LoMonotone(i + 1, n, n, parts);
  }

  /**
   The ranges of an n-node cluster tile the partitions: they follow each other from 0 to the
   partition count, every partition p lies in the range of its owner and of no other node, sizes
   differ by at most one with the larger ranges first, and nothing computed on the way exceeds
   the partition count.
   */
  lemma {:induction false} RangesTile(n: nat, parts: nat, i: nat, j: nat, p: nat)
    requires i <= j < n && p < parts && ValidPartitionCount(parts)
    ensures RangeFor(i, n, parts).Ok?
    ensures i == 0 ==> RangeFor(i, n, parts).value.lo == 0
    ensures i == n - 1 ==> RangeFor(i, n, parts).value.hi == parts
    ensures i + 1 < n ==> RangeFor(i, n, parts).value.hi == RangeFor(i + 1, n, parts).value.lo
    ensures RangeFor(i, n, parts).value.Contains(p) <==> i == Owner(p, n, parts)
    ensures Size(j, n, parts) <= Size(i, n, parts) <= Size(j, n, parts) + 1
    ensures i * (parts / n) <= RangeFor(i, n, parts).value.lo <= RangeFor(i, n, parts).value.hi <= parts
  {
    LoEnds(n, parts);
    RangeEnds(i, n, parts);
    if i + 1 < n { RangeEnds(i + 1, n, parts); }
    if RangeFor(i, n, parts).value.Contains(p) { OwnerUnique(p, i, n, parts); }
  }

  /** Every node owns something exactly when there are at most as many nodes as partitions. */
  lemma {:induction false} NoIdleNode(n: nat, parts: nat)
    requires n > 0
    ensures (forall i :: 0 <= i < n ==> Size(i, n, parts) > 0) <==> n <= parts
  {
    if n <= parts {
      assert parts / n > 0;
    } else {
      ModUnique(parts, n, 0, parts);
      assert Size(n - 1, n, parts) == 0;
    }
  }
}
