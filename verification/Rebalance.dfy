/**
 What happens to ownership when a cluster grows from n to n + 1 nodes. The design notes promise that
 the new node's share, one partition in n + 1, is all that moves. The ranges that RangeFor hands out
 move half of all partitions instead, up to a correction that the two remainders give exactly and
 that does not grow with the partition count; they meet the promise only when one node becomes two.
 */
module Rebalance {
  import opened Bits
  import opened Routing

  /** No node's range grows when a node is added, even compared with its right-hand neighbour's old one. */
  lemma {:induction false} SizesShrink(i: nat, n: nat, parts: nat)
    requires i < n
    ensures Size(i, n + 1, parts) <= Size(i, n, parts)
    ensures Size(i + 1, n + 1, parts) <= Size(i, n, parts)
  {
    var q, r := parts / n, parts % n;
    var q', r' := parts / (n + 1), parts % (n + 1);
    assert parts == q * n + r == q' * (n + 1) + r';
    if q' > q {
      assert q' * (n + 1) == q' * n + q';
      MulMonotone(q + 1, q', n);
      assert false;
    }
    if q' == q {
      assert q' * (n + 1) == q * n + q;
    }
  }

  lemma {:induction false} MulMonotone(a: int, b: int, c: int)
    requires a <= b && c >= 0
    ensures a * c <= b * c
  {
  }

  /** Each old boundary lies between the two new ones around it. */
  lemma {:induction false} BoundariesInterlace(i: nat, n: nat, parts: nat)
    requires i <= n && n > 0
    ensures Lo(i, n + 1, parts) <= Lo(i, n, parts)
    ensures Lo(i, n, parts) <= Lo(i + 1, n + 1, parts)
  {
    StartsMoveDown(i, n, parts);
    EndsMoveUp(i, n, parts);
  }

  lemma {:induction false} StartsMoveDown(i: nat, n: nat, parts: nat)
    requires i <= n && n > 0
    ensures Lo(i, n + 1, parts) <= Lo(i, n, parts)
  {
    if i == 0 {
    } else {
      StartsMoveDown(i - 1, n, parts);
      LoStep(i - 1, n, parts);
      LoStep(i - 1, n + 1, parts);
      SizesShrink(i - 1, n, parts);
    }
  }

  lemma {:induction false} EndsMoveUp(i: nat, n: nat, parts: nat)
    requires i <= n && n > 0
    ensures Lo(i, n, parts) <= Lo(i + 1, n + 1, parts)
    decreases n - i
  {
    if i == n {
      LoEnds(n, parts);
      LoEnds(n + 1, parts);
    } else {
      EndsMoveUp(i + 1, n, parts);
      LoStep(i, n, parts);
      LoStep(i + 1, n + 1, parts);
      SizesShrink(i, n, parts);
    }
  }

  /** Adding a node leaves each partition with its owner or hands it to the next index, never further. */
  lemma {:induction false} OwnerMovesByOne(p: nat, n: nat, parts: nat)
    requires n > 0 && p < parts
    ensures var i := Owner(p, n, parts);
            Owner(p, n + 1, parts) == if p < Lo(i + 1, n + 1, parts) then i else i + 1
  {
    var i := Owner(p, n, parts);
    BoundariesInterlace(i, n, parts);
    BoundariesInterlace(i + 1, n, parts);
    if p < Lo(i + 1, n + 1, parts) {
      OwnerUnique(p, i, n + 1, parts);
    } else {
      OwnerUnique(p, i + 1, n + 1, parts);
    }
  }

  ghost predicate Moves(p: nat, n: nat, parts: nat)
    requires n > 0 && p < parts
  {
    Owner(p, n, parts) != Owner(p, n + 1, parts)
  }

  /** The partitions below `bound` whose owner index changes. */
  ghost function MovedBelow(bound: nat, n: nat, parts: nat): set<nat>
    requires n > 0 && bound <= parts
  {
    set p: nat | p < bound && Moves(p, n, parts)
  }

  /** The sum over j = 1..i of how far boundary j slides down. */
  function Slides(i: nat, n: nat, parts: nat): int
    requires n > 0
  {
    if i == 0 then 0 else Slides(i - 1, n, parts) + Lo(i, n, parts) - Lo(i, n + 1, parts)
  }

  function Interval(lo: nat, hi: nat): (s: set<nat>)
    requires lo <= hi
    ensures |s| == hi - lo
    ensures forall p :: p in s <==> lo <= p < hi
    decreases hi
  {
    if lo == hi then {} else Interval(lo, hi - 1) + {hi - 1}
  }

  /** Of the partitions node i - 1 used to own, those past its new right-hand boundary move. */
  lemma {:induction false} MovesWithinNode(i: nat, n: nat, parts: nat, p: nat)
    requires 0 < i <= n && p < parts
    requires Lo(i - 1, n, parts) <= p < Lo(i, n, parts)
    ensures Moves(p, n, parts) <==> Lo(i, n + 1, parts) <= p
  {
    OwnerUnique(p, i - 1, n, parts);
    OwnerMovesByOne(p, n, parts);
  }

  lemma {:induction false} MovedGrows(i: nat, n: nat, parts: nat, lo: nat, mid: nat, hi: nat)
    requires 0 < i <= n && lo == Lo(i - 1, n, parts) && mid == Lo(i, n + 1, parts) && hi == Lo(i, n, parts)
    requires lo <= mid <= hi <= parts
    ensures |MovedBelow(hi, n, parts)| == |MovedBelow(lo, n, parts)| + hi - mid
  {
    forall p: nat | lo <= p < hi
      ensures Moves(p, n, parts) <==> mid <= p
    {
      MovesWithinNode(i, n, parts, p);
    }
    var below, slice := MovedBelow(lo, n, parts), Interval(mid, hi);
    assert MovedBelow(hi, n, parts) == below + slice;
    assert below !! slice;
  }

  lemma {:induction false} MovedPerNode(i: nat, n: nat, parts: nat)
    requires i <= n && n > 0
    ensures Lo(i, n, parts) <= parts
    ensures |MovedBelow(Lo(i, n, parts), n, parts)| == Slides(i, n, parts)
    decreases i
  {
    LoEnds(n, parts);
    LoMonotone(i, n, n, parts);
    if i > 0 {
      MovedPerNode(i - 1, n, parts);
      BoundariesInterlace(i, n, parts);
      BoundariesInterlace(i - 1, n, parts);
      MovedGrows(i, n, parts, Lo(i - 1, n, parts), Lo(i, n + 1, parts), Lo(i, n, parts));
    } else {
      assert MovedBelow(0, n, parts) == {};
    }
  }

  /** How many partitions change owner when n nodes become n + 1. */
  ghost function MovedCount(n: nat, parts: nat): nat
    requires n > 0
  {
    |MovedBelow(parts, n, parts)|
  }

  lemma {:induction false} MovedIsSlides(n: nat, parts: nat)
    requires n > 0
    ensures MovedCount(n, parts) == Slides(n, n, parts)
  {
    MovedPerNode(n, n, parts);
    LoEnds(n, parts);
  }

  // ---------------------------------------------------------------- how many move, exactly

  /** The sum of the boundaries 1..m of n nodes. */
  function BoundarySum(m: nat, n: nat, parts: nat): nat
    requires n > 0
  {
    if m == 0 then 0 else BoundarySum(m - 1, n, parts) + Lo(m, n, parts)
  }

  lemma {:induction false} SlidesAreSums(i: nat, n: nat, parts: nat)
    requires n > 0
    ensures Slides(i, n, parts) == BoundarySum(i, n, parts) - BoundarySum(i, n + 1, parts)
  {
    if i == 0 {
    } else {
      SlidesAreSums(i - 1, n, parts);
    }
  }

  /** Twice the sum of Min(i, r) for i = 1..m. */
  function TwiceMins(m: nat, r: nat): int {
    if m <= r then m * (m + 1) else r * (r + 1) + 2 * (r * (m - r))
  }

  lemma {:induction false} MinsStep(m: nat, r: nat)
    requires m > 0
    ensures TwiceMins(m, r) == TwiceMins(m - 1, r) + 2 * Min(m, r)
  {
    if m <= r {
      Distribute(m - 1, 2, m);
    } else {
      Distribute(m - 1 - r, 1, r);
    }
  }

  lemma {:induction false} Distribute(a: int, b: int, c: int)
    ensures (a + b) * c == a * c + b * c
  {
  }

  lemma {:induction false} BoundarySumForm(m: nat, n: nat, parts: nat)
    requires n > 0
    ensures 2 * BoundarySum(m, n, parts) == parts / n * (m * (m + 1)) + TwiceMins(m, parts % n)
  {
    if m == 0 {
    } else {
      var q, r := parts / n, parts % n;
      BoundarySumForm(m - 1, n, parts);
      MinsStep(m, r);
      TriangleStep(m, q);
    }
  }

  lemma {:induction false} TriangleStep(m: int, q: int)
    ensures q * (m * (m + 1)) == q * ((m - 1) * m) + 2 * (m * q)
  {
    Distribute(m - 1, 2, m);
    assert m * (m + 1) == (m - 1) * m + 2 * m;
    Distribute((m - 1) * m, 2 * m, q);
  }

  /** What n nodes' remainder adds to twice the sum of their boundaries. */
  function Excess(n: nat, parts: nat): int
    requires n > 0
  {
    var r := parts % n;
    r * (n - r)
  }

  /** All boundaries of n nodes add up to half the partition count times n + 1, and a bit. */
  lemma {:induction false} AllBoundaries(n: nat, parts: nat)
    requires n > 0
    ensures 2 * BoundarySum(n, n, parts) == parts * (n + 1) + Excess(n, parts)
  {
    var q, r := parts / n, parts % n;
    BoundarySumForm(n, n, parts);
    assert parts == q * n + r;
    assert parts * (n + 1) == q * (n * (n + 1)) + r * (n + 1) by { Distribute(q * n, r, n + 1); }
    assert r * (n + 1) == r * (n - r) + r * (r + 1) by { Distribute(n - r, r + 1, r); }
  }

  /**
   The number of partitions that move, in closed form: half of them, corrected by what the remainders
   before and after contribute.
   */
  lemma {:induction false} MovedExactly(n: nat, parts: nat)
    requires n > 0
    ensures 2 * MovedCount(n, parts) == parts + Excess(n, parts) - Excess(n + 1, parts)
  {
    MovedIsSlides(n, parts);
    SlidesAreSums(n, n, parts);
    AllBoundaries(n, parts);
    AllBoundaries(n + 1, parts);
    LoEnds(n + 1, parts);
    Halve(n, parts, BoundarySum(n, n, parts), BoundarySum(n, n + 1, parts), Excess(n, parts), Excess(n + 1, parts));
  }

  lemma {:induction false} Halve(n: int, parts: int, before: int, after: int, x: int, y: int)
    requires 2 * before == parts * (n + 1) + x && 2 * (after + parts) == parts * (n + 2) + y
    ensures 2 * (before - after) == parts + x - y
  {
    Distribute(n, 1, parts);
    Distribute(n, 2, parts);
  }

  /** So half of the partitions move, give or take a number that the partition count does not enter. */
  lemma {:induction false} AboutHalfMove(n: nat, parts: nat)
    requires n > 0
    ensures parts - (n + 1) * (n + 1) / 4 <= 2 * MovedCount(n, parts) <= parts + n * n / 4
  {
    MovedExactly(n, parts);
    ProductBelowSquare(parts % n, n);
    ProductBelowSquare(parts % (n + 1), n + 1);
  }

  /** Two numbers with sum n have a product between 0 and n^2 / 4. */
  lemma {:induction false} ProductBelowSquare(r: nat, n: nat)
    requires r <= n
    ensures 0 <= r * (n - r) <= n * n / 4
  {
    var d := n - 2 * r;
    assert d * d >= 0;
    assert d * d == n * n - 4 * (r * (n - r)) by {
      assert n * n == (d + 2 * r) * (d + 2 * r) == d * d + 4 * (r * d) + 4 * (r * r);
      assert r * (n - r) == r * (d + r) == r * d + r * r;
    }
  }

  // ---------------------------------------------------------------- the promised share, and when it holds

  /**
   Growing from n to n + 1 nodes moves exactly one partition in n + 1 if and only if n is 1. From two
   or more nodes, a share that divides evenly would leave no remainder after, so that at least half of
   the partitions move, which is more.
   */
  lemma {:induction false} ExactShareOnlyFromOneNode(n: nat, parts: nat)
    requires n > 0 && n + 1 <= parts && ValidPartitionCount(parts)
    ensures MovedCount(n, parts) * (n + 1) == parts <==> n == 1
  {
    MovedExactly(n, parts);
    if n == 1 {
      ValidIsPow2(parts);
      var k: nat :| parts == Pow2(k);
      assert parts % 2 == 0 by { assert parts == 2 * Pow2(k - 1); }
      assert Excess(1, parts) == 0 == Excess(2, parts);
    } else if MovedCount(n, parts) * (n + 1) == parts {
      EvenShareTooSmall(n, parts, MovedCount(n, parts));
    }
  }

  lemma {:induction false} EvenShareTooSmall(n: nat, parts: nat, share: nat)
    requires n > 1 && parts > 0 && share * (n + 1) == parts
    ensures 2 * share < parts + Excess(n, parts) - Excess(n + 1, parts)
  {
    ModUnique(parts, n + 1, share, 0);
    assert Excess(n + 1, parts) == 0;
    ProductBelowSquare(parts % n, n);
    MulMonotone(3, n + 1, share);
  }

  /** The case the design notes work out: from 3 to 4 nodes, 513 of 1024 partitions move, not 256. */
  lemma {:induction false} ThreeToFourNodes()
    ensures MovedCount(3, 1024) == 513
  {
    MovedExactly(3, 1024);
  }
}
