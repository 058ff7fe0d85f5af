/**
 The addresses that the generator hands out: read as a mixed-radix number, an address grows by one
 with every call, so the addresses without an octet 255 and with a last octet from 1 to 254 come in
 order, each once and none left out.
 */
module CidrEnumeration {
  import opened Wrappers
  import opened Text
  import opened Cidr
  import opened Division

  // ---------------------------------------------------------------------------
  // Addresses as numbers
  // ---------------------------------------------------------------------------

  predicate Octets(q: Quad) {
    0 <= q.a < 256 && 0 <= q.b < 256 && 0 <= q.c < 256 && 0 <= q.d < 256
  }

  /** No octet is 255. */
  predicate Small(q: Quad) {
    Octets(q) && q.a < 255 && q.b < 255 && q.c < 255 && q.d < 255
  }

  /** The addresses meant for hosts. */
  predicate Usable(q: Quad) {
    Small(q) && q.d >= 1
  }

  function Num(q: Quad): int {
    ((q.a * 256 + q.b) * 256 + q.c) * 256 + q.d
  }

  function Rank(q: Quad): int {
    ((q.a * 255 + q.b) * 255 + q.c) * 254 + q.d - 1
  }

  const LAST := Quad(254, 254, 254, 254)

  // ---------------------------------------------------------------------------
  // Counting
  // ---------------------------------------------------------------------------

  /** One call, one step; only the very last address wraps around, to 254.0.0.1. */
  lemma NextCounts(q: Quad)
    requires Small(q)
    ensures Usable(Next(q))
    ensures q != LAST ==> Rank(Next(q)) == Rank(q) + 1 && Num(Next(q)) > Num(q)
    ensures q == LAST ==> Next(q) == Quad(254, 0, 0, 1)
  {
  }

  lemma RankBound(q: Quad)
    requires Small(q)
    ensures -1 <= Rank(q) <= Rank(LAST)
    ensures Rank(q) == Rank(LAST) ==> q == LAST
  {
  }

  lemma {:induction false} AfterCounts(q: Quad, calls: nat)
    requires Small(q) && Rank(q) + calls <= Rank(LAST)
    ensures Small(After(q, calls)) && (calls > 0 ==> Usable(After(q, calls)))
    ensures Rank(After(q, calls)) == Rank(q) + calls
  {
    if calls > 0 {
      AfterCounts(q, calls - 1);
      NextCounts(After(q, calls - 1));
    }
  }

  lemma Lexicographic(x: int, i: int, y: int, j: int)
    ensures 0 <= i < 255 && 0 <= j < 255 ==> (x * 255 + i < y * 255 + j <==> x < y || (x == y && i < j))
    ensures 0 <= i < 256 && 0 <= j < 256 ==> (x * 256 + i < y * 256 + j <==> x < y || (x == y && i < j))
  {
  }

  lemma LastOctet(x: int, i: int, y: int, j: int)
    requires 0 <= i <= 254 && 1 <= j <= 254
    ensures x * 254 + i - 1 < y * 254 + j - 1 <==> x < y || (x == y && i < j)
  {
  }

  /** Rank and numeric order agree. */
  lemma RankOrder(p: Quad, q: Quad)
    requires Small(p) && Usable(q)
    ensures Num(p) < Num(q) <==> Rank(p) < Rank(q)
  {
    var x, y := p.a * 255 + p.b, q.a * 255 + q.b;
    var u, v := p.a * 256 + p.b, q.a * 256 + q.b;
    Lexicographic(p.a, p.b, q.a, q.b);
    Lexicographic(q.a, q.b, p.a, p.b);
    Lexicographic(x, p.c, y, q.c);
    Lexicographic(y, q.c, x, p.c);
    Lexicographic(u, p.c, v, q.c);
    Lexicographic(v, q.c, u, p.c);
    LastOctet(x * 255 + p.c, p.d, y * 255 + q.c, q.d);
    Lexicographic(u * 256 + p.c, p.d, v * 256 + q.c, q.d);
  }

  lemma NumIsInjective(p: Quad, q: Quad)
    requires Octets(p) && Octets(q) && Num(p) == Num(q)
    ensures p == q
  {
  }

  lemma RankIsInjective(p: Quad, q: Quad)
    requires Usable(p) && Usable(q) && Rank(p) == Rank(q)
    ensures p == q
  {
    assert Num(p) == Num(q) by {
      RankOrder(p, q);
      RankOrder(q, p);
    }
    NumIsInjective(p, q);
  }

  /** Later calls give larger addresses, so none is repeated. */
  lemma StrictlyIncreasing(q: Quad, j: nat, k: nat)
    requires Small(q) && j < k && Rank(q) + k <= Rank(LAST)
    ensures Num(After(q, j)) < Num(After(q, k))
  {
    AfterCounts(q, j);
    AfterCounts(q, k);
    RankOrder(After(q, j), After(q, k));
  }

  /** No gap: every usable address above the start is handed out, after a known number of calls. */
  lemma EveryUsableAddressComes(q: Quad, address: Quad)
    requires Small(q) && Usable(address) && Num(q) < Num(address)
    ensures 1 <= Rank(address) - Rank(q)
    ensures Rank(address) <= Rank(LAST)
    ensures After(q, Rank(address) - Rank(q)) == address
  {
    RankOrder(q, address);
    RankBound(address);
    AfterCounts(q, Rank(address) - Rank(q));
    RankIsInjective(After(q, Rank(address) - Rank(q)), address);
  }

  // ---------------------------------------------------------------------------
  // Blocks
  // ---------------------------------------------------------------------------

  /** Agrees with the network on the first `p` bits. */
  predicate InBlock(q: Quad, net: Quad, p: nat) {
    Octets(q) && Network(q, p) == net
  }

  /** A natural with its last `k` bits cleared. */
  function High(x: nat, k: nat): nat {
    if k == 0 then x else 2 * High(x / 2, k - 1)
  }

  lemma {:induction false} HighRange(x: nat, y: nat, k: nat)
    ensures High(y, k) <= y < High(y, k) + Pow2(k)
    ensures High(x, k) == High(y, k) <==> High(y, k) <= x < High(y, k) + Pow2(k)
  {
    if k > 0 {
      HighRange(x / 2, y / 2, k - 1);
    }
  }

  lemma {:induction false} HighRoom(x: nat, k: nat, j: nat)
    requires k <= j && x < Pow2(j)
    ensures High(x, k) + Pow2(k) <= Pow2(j)
  {
    if k == 0 {
    } else {
      HighRoom(x / 2, k - 1, j - 1);
    }
  }

  lemma {:induction false} AndOnes(x: nat, j: nat)
    requires x < Pow2(j)
    ensures And(x, Pow2(j) - 1) == x
  {
    if j > 0 && x > 0 {
      AndOnes(x / 2, j - 1);
      var half := Pow2(j - 1);
      assert (2 * half - 1) / 2 == half - 1 && (2 * half - 1) % 2 == 1;
      assert And(x, 2 * half - 1) == 2 * And(x / 2, half - 1) + x % 2;
    }
  }

  lemma AndDouble(x: nat, y: nat)
    ensures And(x, 2 * y) == 2 * And(x / 2, y)
  {
    if x == 0 || y == 0 {
      assert And(x / 2, y) == 0;
    } else {
      assert (2 * y) / 2 == y && (2 * y) % 2 == 0;
    }
  }

  /** Conjunction with a mask of leading ones clears the other bits. */
  lemma {:induction false} AndHigh(x: nat, j: nat, k: nat)
    requires k <= j && x < Pow2(j)
    ensures Pow2(k) <= Pow2(j)
    ensures And(x, Pow2(j) - Pow2(k)) == High(x, k)
  {
    if k == 0 {
      AndOnes(x, j);
    } else {
      AndHigh(x / 2, j - 1, k - 1);
      AndDouble(x, Pow2(j - 1) - Pow2(k - 1));
    }
  }

  lemma {:induction false} OnesValue(n: nat)
    requires n <= 8
    ensures Ones(n) == Pow2(8) - Pow2(8 - n)
  {
    if n > 0 {
      OnesValue(n - 1);
    }
  }

  lemma ByteValue()
    ensures Pow2(8) == 256
  {
    assert Pow2(4) == 16;
  }

  lemma MaskedIsHigh(x: int, n: nat)
    requires 0 <= x < 256 && n <= 8
    ensures Masked(x, Ones(n)) == High(x, 8 - n)
  {
    ByteValue();
    OnesValue(n);
    AndHigh(x, 8, 8 - n);
    assert x % 256 == x;
  }

  predicate OctetFits(x: int, net: int, n: nat)
    requires n <= 8
  {
    net <= x < net + Pow2(8 - n)
  }

  lemma HighInRange(x: nat, y: nat, k: nat)
    requires y < 256 && k <= 8
    ensures High(y, k) <= y < High(y, k) + Pow2(k) <= 256
    ensures High(x, k) == High(y, k) <==> High(y, k) <= x < High(y, k) + Pow2(k)
  {
    HighRange(x, y, k);
    ByteValue();
    HighRoom(y, k, 8);
  }

  /** An octet agrees with another one on its first `n` bits exactly when it lies in the range of width
      2^(8-n) above the masked one. */
  lemma OctetInRange(x: int, y: int, n: nat)
    requires 0 <= x < 256 && 0 <= y < 256 && n <= 8
    ensures var net := Masked(y, Ones(n));
      && OctetFits(y, net, n) && net + Pow2(8 - n) <= 256
      && (Masked(x, Ones(n)) == net <==> OctetFits(x, net, n))
  {
    MaskedIsHigh(x, n);
    MaskedIsHigh(y, n);
    HighInRange(x, y, 8 - n);
  }

  /** The number of addresses in a block. */
  function Width(p: nat): nat
    requires p <= 32
  {
    if p <= 8 then Pow2(8 - p) * 0x100_0000
    else if p <= 16 then Pow2(16 - p) * 0x1_0000
    else if p <= 24 then Pow2(24 - p) * 0x100
    else Pow2(32 - p)
  }

  /** The octets of a network, and what it takes to be in its block. */
  predicate FitsBlock(q: Quad, net: Quad, p: nat) {
    && OctetFits(q.a, net.a, BitsIn(p, 0)) && OctetFits(q.b, net.b, BitsIn(p, 1))
    && OctetFits(q.c, net.c, BitsIn(p, 2)) && OctetFits(q.d, net.d, BitsIn(p, 3))
  }

  predicate HasRoom(net: Quad, p: nat) {
    && net.a + Pow2(8 - BitsIn(p, 0)) <= 256 && net.b + Pow2(8 - BitsIn(p, 1)) <= 256
    && net.c + Pow2(8 - BitsIn(p, 2)) <= 256 && net.d + Pow2(8 - BitsIn(p, 3)) <= 256
  }

  lemma BlockByOctets(q: Quad, start: Quad, p: nat)
    requires Octets(q) && Octets(start)
    ensures var net := Network(start, p);
      && FitsBlock(start, net, p) && HasRoom(net, p)
      && (InBlock(q, net, p) <==> FitsBlock(q, net, p))
  {
    OctetInRange(q.a, start.a, BitsIn(p, 0));
    OctetInRange(q.b, start.b, BitsIn(p, 1));
    OctetInRange(q.c, start.c, BitsIn(p, 2));
    OctetInRange(q.d, start.d, BitsIn(p, 3));
  }

  /** The number of addresses in four octet ranges, all of them full behind the first that is not 1. */
  function RangesWidth(wa: int, wb: int, wc: int, wd: int): int {
    if wb == 256 then wa * 0x100_0000 else if wc == 256 then wb * 0x1_0000 else if wd == 256 then wc * 0x100 else wd
  }

  /** The widths of the four octet ranges, all of them full behind the first that is not 1. */
  lemma IntervalOfRanges(q: Quad, net: Quad, wa: int, wb: int, wc: int, wd: int)
    requires Octets(q) && Octets(net) && wa > 0 && wb > 0 && wc > 0 && wd > 0
    requires net.b + wb <= 256 && net.c + wc <= 256 && net.d + wd <= 256
    requires wa == 1 || (wb == 256 && wc == 256 && wd == 256)
    requires wb == 1 || (wc == 256 && wd == 256)
    requires wc == 1 || wd == 256
    ensures
      && net.a <= q.a < net.a + wa && net.b <= q.b < net.b + wb
      && net.c <= q.c < net.c + wc && net.d <= q.d < net.d + wd
      <==>
      Num(net) <= Num(q) < Num(net) + RangesWidth(wa, wb, wc, wd)
  {
    if wb == 256 {
      IntervalFromFirst(q, net, wa);
    } else if wc == 256 {
      IntervalFromSecond(q, net, wb);
    } else if wd == 256 {
      IntervalFromThird(q, net, wc);
    } else {
      IntervalFromLast(q, net, wd);
    }
  }

  lemma IntervalFromFirst(q: Quad, net: Quad, w: int)
    requires Octets(q) && Octets(net) && net.b == net.c == net.d == 0
    ensures net.a <= q.a < net.a + w <==> Num(net) <= Num(q) < Num(net) + w * 0x100_0000
  {
  }

  lemma IntervalFromSecond(q: Quad, net: Quad, w: int)
    requires Octets(q) && Octets(net) && net.c == net.d == 0 && net.b + w <= 256
    ensures q.a == net.a && net.b <= q.b < net.b + w <==> Num(net) <= Num(q) < Num(net) + w * 0x1_0000
  {
  }

  lemma IntervalFromThird(q: Quad, net: Quad, w: int)
    requires Octets(q) && Octets(net) && net.d == 0 && net.c + w <= 256
    ensures q.a == net.a && q.b == net.b && net.c <= q.c < net.c + w <==> Num(net) <= Num(q) < Num(net) + w * 0x100
  {
  }

  lemma InLastRange(x: int, d: int, y: int, e: int, w: int)
    requires 0 <= d < 256 && 0 <= e && e + w <= 256
    ensures x == y && e <= d < e + w <==> y * 256 + e <= x * 256 + d < y * 256 + e + w
  {
  }

  lemma SameDigits(x: int, i: int, y: int, j: int)
    requires 0 <= i < 256 && 0 <= j < 256
    ensures x * 256 + i == y * 256 + j <==> x == y && i == j
  {
  }

  lemma IntervalFromLast(q: Quad, net: Quad, w: int)
    requires Octets(q) && Octets(net) && net.d + w <= 256
    ensures q.a == net.a && q.b == net.b && q.c == net.c && net.d <= q.d < net.d + w
       <==> Num(net) <= Num(q) < Num(net) + w
  {
    InLastRange((q.a * 256 + q.b) * 256 + q.c, q.d, (net.a * 256 + net.b) * 256 + net.c, net.d, w);
    SameDigits(q.a * 256 + q.b, q.c, net.a * 256 + net.b, net.c);
    SameDigits(q.a, q.b, net.a, net.b);
  }

  lemma WidthOfRanges(p: nat)
    requires p <= 32
    ensures
      var wa, wb := Pow2(8 - BitsIn(p, 0)), Pow2(8 - BitsIn(p, 1));
      var wc, wd := Pow2(8 - BitsIn(p, 2)), Pow2(8 - BitsIn(p, 3));
      && (wa == 1 || (wb == 256 && wc == 256 && wd == 256))
      && (wb == 1 || (wc == 256 && wd == 256))
      && (wc == 1 || wd == 256)
      && Width(p) == RangesWidth(wa, wb, wc, wd)
  {
    ByteValue();
    assert Pow2(0) == 1;
    NotFull(BitsIn(p, 1));
    NotFull(BitsIn(p, 2));
    NotFull(BitsIn(p, 3));
  }

  lemma NotFull(n: nat)
    requires n <= 8
    ensures Pow2(8 - n) == 256 <==> n == 0
  {
    ByteValue();
    OnesValue(n);
  }

  lemma IntervalByOctets(q: Quad, net: Quad, p: nat)
    requires Octets(q) && net.a >= 0 && net.b >= 0 && net.c >= 0 && net.d >= 0 && HasRoom(net, p) && p <= 32
    ensures Octets(net)
    ensures FitsBlock(q, net, p) <==> Num(net) <= Num(q) < Num(net) + Width(p)
  {
    WidthOfRanges(p);
    IntervalOfRanges(
      q, net,
      Pow2(8 - BitsIn(p, 0)), Pow2(8 - BitsIn(p, 1)), Pow2(8 - BitsIn(p, 2)), Pow2(8 - BitsIn(p, 3)));
  }

  /** A block is an interval that starts at its network address. */
  lemma BlockIsInterval(q: Quad, start: Quad, p: nat)
    requires Octets(q) && Octets(start) && p <= 32
    ensures var net := Network(start, p);
      && Octets(net)
      && (InBlock(q, net, p) <==> Num(net) <= Num(q) < Num(net) + Width(p))
  {
    BlockByOctets(q, start, p);
    IntervalByOctets(q, Network(start, p), p);
  }

  // ---------------------------------------------------------------------------
  // The generator enumerates its block
  // ---------------------------------------------------------------------------

  /** The address is handed out by some call before the wrap-around. */
  ghost predicate HandedOut(net: Quad, address: Quad) {
    exists k: nat :: k > 0 && Rank(net) + k <= Rank(LAST) && After(net, k) == address
  }

  /** Handed out are exactly the usable addresses above the start. */
  lemma HandedOutExactly(net: Quad, address: Quad)
    requires Small(net)
    ensures HandedOut(net, address) <==> Usable(address) && Num(net) < Num(address)
  {
    if Usable(address) && Num(net) < Num(address) {
      EveryUsableAddressComes(net, address);
      var k: nat := Rank(address) - Rank(net);
      assert After(net, k) == address;
    }
    if k: nat :| k > 0 && Rank(net) + k <= Rank(LAST) && After(net, k) == address {
      AfterCounts(net, k);
      StrictlyIncreasing(net, 0, k);
    }
  }

  /**
   From a network address without an octet 255, the calls that stay in the block hand out exactly its
   usable addresses other than the network address itself.
   */
  lemma EnumeratesTheBlock(start: Quad, p: nat, address: Quad)
    requires Octets(start) && p <= 32 && Small(Network(start, p))
    ensures
      var net := Network(start, p);
      InBlock(address, net, p) && HandedOut(net, address)
      <==> Usable(address) && InBlock(address, net, p) && address != net
  {
    var net := Network(start, p);
    HandedOutExactly(net, address);
    if InBlock(address, net, p) {
      BlockIsInterval(address, start, p);
      if Num(address) == Num(net) {
        NumIsInjective(address, net);
      }
    }
  }

  // ---------------------------------------------------------------------------
  // How long the addresses stay in their block
  // ---------------------------------------------------------------------------

  /** The largest octet of the block that the generator uses. */
  function LastOctetIn(x: int, n: nat): int
    requires n <= 8
  {
    if x + Pow2(8 - n) - 1 < 254 then x + Pow2(8 - n) - 1 else 254
  }

  /** The last address of the block that the generator uses. */
  function LastIn(net: Quad, p: nat): Quad {
    Quad(LastOctetIn(net.a, BitsIn(p, 0)), LastOctetIn(net.b, BitsIn(p, 1)),
         LastOctetIn(net.c, BitsIn(p, 2)), LastOctetIn(net.d, BitsIn(p, 3)))
  }

  /** The first one other than a network address that ends in 0. */
  function FirstIn(net: Quad): Quad {
    if net.d == 0 then net.(d := 1) else net
  }

  lemma LastInFits(net: Quad, p: nat)
    requires Small(net)
    ensures Small(LastIn(net, p)) && FitsBlock(LastIn(net, p), net, p)
  {
  }

  lemma RankGrowsByOctets(q: Quad, r: Quad)
    requires Small(q) && Small(r) && q.a <= r.a && q.b <= r.b && q.c <= r.c && q.d <= r.d
    ensures Rank(q) <= Rank(r)
  {
  }

  lemma RankWithinBlock(start: Quad, p: nat, q: Quad)
    requires Octets(start) && p <= 32 && Small(Network(start, p)) && Usable(q)
    requires Rank(FirstIn(Network(start, p))) <= Rank(q) <= Rank(LastIn(Network(start, p), p))
    ensures InBlock(q, Network(start, p), p)
  {
    var net := Network(start, p);
    var first, last := FirstIn(net), LastIn(net, p);
    LastInFits(net, p);
    assert Num(net) <= Num(first) <= Num(q) by {
      RankOrder(q, first);
    }
    assert Num(q) <= Num(last) by {
      RankOrder(last, q);
    }
    assert Num(last) < Num(net) + Width(p) by {
      BlockByOctets(last, start, p);
      BlockIsInterval(last, start, p);
    }
    BlockIsInterval(q, start, p);
  }

  lemma BlockWithinRanks(start: Quad, p: nat, q: Quad)
    requires Octets(start) && Small(Network(start, p)) && Usable(q) && InBlock(q, Network(start, p), p)
    ensures Rank(FirstIn(Network(start, p))) <= Rank(q) <= Rank(LastIn(Network(start, p), p))
  {
    var net := Network(start, p);
    BlockByOctets(q, start, p);
    LastInFits(net, p);
    RankGrowsByOctets(FirstIn(net), q);
    RankGrowsByOctets(q, LastIn(net, p));
  }

  /** A usable address is in the block if and only if its rank is between those of the first and the
      last usable address of the block. */
  lemma InBlockByRank(start: Quad, p: nat, q: Quad)
    requires Octets(start) && p <= 32 && Small(Network(start, p)) && Usable(q)
    ensures var net := Network(start, p);
      InBlock(q, net, p) <==> Rank(FirstIn(net)) <= Rank(q) <= Rank(LastIn(net, p))
  {
    if InBlock(q, Network(start, p), p) {
      BlockWithinRanks(start, p, q);
    } else if Rank(FirstIn(Network(start, p))) <= Rank(q) <= Rank(LastIn(Network(start, p), p)) {
      RankWithinBlock(start, p, q);
    }
  }

  lemma StaysInSmallBlock(start: Quad, p: nat, k: nat)
    requires Octets(start) && p <= 32 && Small(Network(start, p))
    requires k > 0 && Rank(Network(start, p)) + k <= Rank(LAST)
    ensures var net := Network(start, p);
      InBlock(After(net, k), net, p) <==> k <= Rank(LastIn(net, p)) - Rank(net)
  {
    AfterCounts(Network(start, p), k);
    InBlockByRank(start, p, After(Network(start, p), k));
  }

  const FIRST_AGAIN := Quad(254, 0, 0, 1)

  /** The rank of the k-th address: after the very last one the generator runs through 254.x.x.x. */
  function RankAfter(q: Quad, k: nat): int {
    var n := Rank(q) + k;
    if n <= Rank(LAST) then n else Rank(FIRST_AGAIN) + Rem(n - Rank(FIRST_AGAIN), Rank(LAST) + 1 - Rank(FIRST_AGAIN))
  }

  lemma RankAfterNext(q: Quad, k: nat)
    requires Small(q)
    ensures RankAfter(q, k + 1) == if RankAfter(q, k) == Rank(LAST) then Rank(FIRST_AGAIN) else RankAfter(q, k) + 1
  {
    var n := Rank(q) + k;
    if n >= Rank(LAST) {
      Advance(n - Rank(FIRST_AGAIN), 1, Rank(LAST) + 1 - Rank(FIRST_AGAIN));
    }
  }

  lemma {:induction false} AfterWraps(q: Quad, k: nat)
    requires Small(q)
    ensures Small(After(q, k)) && Rank(After(q, k)) == RankAfter(q, k)
    ensures k > 0 ==> Usable(After(q, k))
  {
    RankBound(q);
    if k > 0 {
      AfterWraps(q, k - 1);
      RankAfterNext(q, k - 1);
      NextCounts(After(q, k - 1));
      RankBound(After(q, k - 1));
    }
  }

  lemma InSmallBlock(start: Quad, p: nat, k: nat)
    requires Octets(start) && p <= 32 && Small(Network(start, p)) && k > 0
    ensures var net := Network(start, p);
      InBlock(After(net, k), net, p) <==> Rank(FirstIn(net)) <= RankAfter(net, k) <= Rank(LastIn(net, p))
  {
    AfterWraps(Network(start, p), k);
    InBlockByRank(start, p, After(Network(start, p), k));
  }

  // ---------------------------------------------------------------------------
  // Networks with an octet 255
  // ---------------------------------------------------------------------------

  function ClampOctet(x: int): int {
    if x < 254 then x else 254
  }

  /** The generator does not tell an octet 255 from 254, but it leaves a 255 alone until it overwrites it. */
  function Clamp(q: Quad): Quad {
    Quad(ClampOctet(q.a), ClampOctet(q.b), ClampOctet(q.c), ClampOctet(q.d))
  }

  /** Octets that are 255 have been so from the start; the first one is never overwritten. */
  predicate KeptFrom(start: Quad, q: Quad) {
    && (q.a == 255 <==> start.a == 255)
    && (q.b == 255 ==> start.b == 255) && (q.c == 255 ==> start.c == 255) && (q.d == 255 ==> start.d == 255)
  }

  lemma {:induction false} AfterClamped(q: Quad, k: nat)
    requires Octets(q)
    ensures Small(Clamp(q)) && Octets(After(q, k)) && KeptFrom(q, After(q, k))
    ensures Clamp(After(q, k)) == After(Clamp(q), k)
  {
    if k > 0 {
      AfterClamped(q, k - 1);
    }
  }

  lemma Pow2Grows(n: nat)
    ensures n > 0 ==> Pow2(n) >= 2
  {
  }

  lemma ClampedOctet(x: int, n: nat)
    requires 0 <= x < 256 && n <= 8
    ensures var net := Masked(x, Ones(n));
      0 <= net < 256 && (net == 255 ==> n == 8) && Masked(ClampOctet(net), Ones(n)) == ClampOctet(net)
  {
    OctetInRange(x, x, n);
    var net := Masked(x, Ones(n));
    OctetInRange(net, x, n);
    Pow2Grows(8 - n);
    if net == 255 {
      MaskedIsHigh(254, 8);
    }
  }

  lemma ClampIsNetwork(start: Quad, p: nat)
    requires Octets(start)
    ensures var net := Network(start, p);
      && Octets(net) && Small(Clamp(net)) && Network(Clamp(net), p) == Clamp(net)
      && (net.a == 255 ==> BitsIn(p, 0) == 8) && (net.b == 255 ==> BitsIn(p, 1) == 8)
      && (net.c == 255 ==> BitsIn(p, 2) == 8) && (net.d == 255 ==> BitsIn(p, 3) == 8)
  {
    ClampedOctet(start.a, BitsIn(p, 0));
    ClampedOctet(start.b, BitsIn(p, 1));
    ClampedOctet(start.c, BitsIn(p, 2));
    ClampedOctet(start.d, BitsIn(p, 3));
  }

  /** The octets that are 255 in the network are 255 here too. */
  predicate KeepsHigh(net: Quad, q: Quad) {
    && (net.a == 255 ==> q.a == 255) && (net.b == 255 ==> q.b == 255)
    && (net.c == 255 ==> q.c == 255) && (net.d == 255 ==> q.d == 255)
  }

  lemma FitsClamped(x: int, net: int, n: nat)
    requires 0 <= x < 256 && 0 <= net < 256 && n <= 8 && (x == 255 ==> net == 255) && (net == 255 ==> n == 8)
    ensures OctetFits(x, net, n) <==> OctetFits(ClampOctet(x), ClampOctet(net), n) && (net == 255 ==> x == 255)
  {
    assert Pow2(0) == 1;
  }

  /** In the block is what is in the clamped block and has kept its octets 255. */
  lemma InBlockClamped(start: Quad, p: nat, q: Quad)
    requires Octets(start) && Octets(q) && KeptFrom(Network(start, p), q)
    ensures var net := Network(start, p);
      InBlock(q, net, p) <==> InBlock(Clamp(q), Clamp(net), p) && KeepsHigh(net, q)
  {
    var net := Network(start, p);
    ClampIsNetwork(start, p);
    BlockByOctets(q, start, p);
    BlockByOctets(Clamp(q), Clamp(net), p);
    FitsClamped(q.a, net.a, BitsIn(p, 0));
    FitsClamped(q.b, net.b, BitsIn(p, 1));
    FitsClamped(q.c, net.c, BitsIn(p, 2));
    FitsClamped(q.d, net.d, BitsIn(p, 3));
  }

  /** An octet that is 255 is overwritten with 0 or 1, if at all. */
  lemma NextKeepsHigh(net: Quad, p: nat, q: Quad)
    requires Octets(q) && KeepsHigh(net, q) && net.d < 255
    requires net.b == 255 ==> Clamp(Next(q)).b == 254
    requires net.c == 255 ==> Clamp(Next(q)).c == 254
    ensures KeepsHigh(net, Next(q))
  {
  }

  /** An octet 255 of the network lies within its prefix, so all of the clamped block has 254 there. */
  lemma HighOctets(net: Quad, p: nat, q: Quad)
    requires Octets(net) && Network(Clamp(net), p) == Clamp(net) && Small(Clamp(net))
    requires (net.b == 255 ==> BitsIn(p, 1) == 8) && (net.c == 255 ==> BitsIn(p, 2) == 8)
    requires InBlock(q, Clamp(net), p)
    ensures (net.b == 255 ==> q.b == 254) && (net.c == 255 ==> q.c == 254)
  {
    BlockByOctets(q, Clamp(net), p);
    assert Pow2(0) == 1;
  }

  lemma StillInClamped(start: Quad, p: nat, k: nat)
    requires Octets(start) && p <= 32 && k > 0
    requires k <= Rank(LastIn(Clamp(Network(start, p)), p)) - Rank(Clamp(Network(start, p)))
    ensures var net, q := Network(start, p), Clamp(After(Network(start, p), k));
      Octets(net) && (net.b == 255 ==> q.b == 254) && (net.c == 255 ==> q.c == 254)
  {
    var net := Network(start, p);
    ClampIsNetwork(start, p);
    AfterClamped(net, k);
    LastInFits(Clamp(net), p);
    RankBound(LastIn(Clamp(net), p));
    StaysInSmallBlock(Clamp(net), p, k);
    HighOctets(net, p, Clamp(After(net, k)));
  }

  lemma {:induction false} HighKept(start: Quad, p: nat, k: nat)
    requires Octets(start) && p <= 32 && Network(start, p).d < 255
    requires k <= Rank(LastIn(Clamp(Network(start, p)), p)) - Rank(Clamp(Network(start, p)))
    ensures KeepsHigh(Network(start, p), After(Network(start, p), k))
  {
    var net := Network(start, p);
    if k > 0 {
      HighKept(start, p, k - 1);
      StillInClamped(start, p, k);
      AfterClamped(net, k - 1);
      NextKeepsHigh(net, p, After(net, k - 1));
    }
  }

  /**
   How long the calls stay in their block, known before the first call: the k-th address is in the block
   if and only if k is at most the difference of two ranks. Here k ranges over all calls before the very
   last address.
   */
  lemma StaysInBlockExactly(start: Quad, p: nat, k: nat)
    requires Octets(start) && p <= 32
    requires k > 0 && Rank(Clamp(Network(start, p))) + k <= Rank(LAST)
    ensures var net := Network(start, p);
      InBlock(After(net, k), net, p) <==> k <= Rank(LastIn(Clamp(net), p)) - Rank(Clamp(net))
  {
    var net := Network(start, p);
    ClampIsNetwork(start, p);
    AfterClamped(net, k);
    StaysInSmallBlock(Clamp(net), p, k);
    InBlockClamped(start, p, After(net, k));
    if net.d == 255 {
      assert Pow2(0) == 1;
      assert LastIn(Clamp(net), p) == Clamp(net);
    } else if k <= Rank(LastIn(Clamp(net), p)) - Rank(Clamp(net)) {
      HighKept(start, p, k);
    }
  }

  /** The wrap-around overwrites all octets but the first. */
  lemma {:induction false} WrapOverwrites(q: Quad, k: nat)
    requires Octets(q) && Rank(Clamp(q)) + k > Rank(LAST)
    ensures After(q, k).b < 255 && After(q, k).c < 255 && After(q, k).d < 255
  {
    AfterClamped(q, 0);
    RankBound(Clamp(q));
    var before := After(q, k - 1);
    AfterClamped(q, k - 1);
    if Rank(Clamp(q)) + k - 1 > Rank(LAST) {
      WrapOverwrites(q, k - 1);
    } else {
      AfterCounts(Clamp(q), k - 1);
      RankBound(Clamp(before));
      assert Clamp(before) == LAST;
    }
  }

  /**
   And for all calls. A block with an octet 255 behind the first is left once and for all; of any other,
   the k-th address is in it if and only if its rank, computed from k, lies between those of the first
   and the last usable address of the block.
   */
  lemma InBlockExactly(start: Quad, p: nat, k: nat)
    requires Octets(start) && p <= 32 && k > 0
    ensures
      var net := Network(start, p);
      var first, last := FirstIn(Clamp(net)), LastIn(Clamp(net), p);
      InBlock(After(net, k), net, p) <==>
      if net.b == 255 || net.c == 255 || net.d == 255 then k <= Rank(last) - Rank(Clamp(net))
      else Rank(first) <= RankAfter(Clamp(net), k) <= Rank(last)
  {
    var net := Network(start, p);
    ClampIsNetwork(start, p);
    AfterClamped(net, k);
    InBlockClamped(start, p, After(net, k));
    if !(net.b == 255 || net.c == 255 || net.d == 255) {
      InSmallBlock(Clamp(net), p, k);
    } else if Rank(Clamp(net)) + k <= Rank(LAST) {
      StaysInBlockExactly(start, p, k);
    } else {
      WrapOverwrites(net, k);
      LastInFits(Clamp(net), p);
      RankBound(LastIn(Clamp(net), p));
    }
  }

  /** So once the addresses have left the block they do not come back before the very last address. */
  lemma LeavesTheBlockOnce(start: Quad, p: nat, j: nat, k: nat)
    requires Octets(start) && p <= 32
    requires 0 < j <= k && Rank(Clamp(Network(start, p))) + k <= Rank(LAST)
    requires !InBlock(After(Network(start, p), j), Network(start, p), p)
    ensures !InBlock(After(Network(start, p), k), Network(start, p), p)
  {
    StaysInBlockExactly(start, p, j);
    StaysInBlockExactly(start, p, k);
  }

  // ---------------------------------------------------------------------------
  // When every address is usable
  // ---------------------------------------------------------------------------

  /** An octet 255 is harmless only where the very first call overwrites it. */
  predicate GoodStart(q: Quad) {
    && q.a < 255
    && (q.b == 255 ==> q.d >= 254 && q.c >= 254)
    && (q.c == 255 ==> q.d >= 254)
  }

  lemma {:induction false} UsableOnwards(q: Quad, k: nat)
    requires Octets(q) && Usable(After(q, 1)) && k > 0
    ensures Usable(After(q, k))
  {
    if k > 1 {
      UsableOnwards(q, k - 1);
      NextCounts(After(q, k - 1));
    }
  }

  /** All addresses ever handed out are usable if and only if the start is good. */
  lemma AllUsableExactly(q: Quad)
    requires Octets(q)
    ensures (forall k: nat :: k > 0 ==> Usable(After(q, k))) <==> GoodStart(q)
  {
    assert After(q, 0) == q;
    assert Usable(After(q, 1)) <==> GoodStart(q);
    if GoodStart(q) {
      forall k: nat | k > 0 {
        UsableOnwards(q, k);
      }
    }
  }

  const TEST_START := Quad(192, 12, 0, 0)

  lemma TestNetwork()
    ensures Network(TEST_START, 16) == TEST_START && LastIn(TEST_START, 16) == Quad(192, 12, 254, 254)
  {
    MaskedIsHigh(192, 8);
    MaskedIsHigh(12, 8);
    MaskedIsHigh(0, 0);
    HighRange(0, 0, 8);
    ByteValue();
    assert Pow2(0) == 1;
  }

  /** The block of the project's own test, an instance: its 64770 usable addresses, then the next block,
      which the 65535 calls of that test do reach. */
  lemma TestBlock(k: nat)
    requires 1 <= k <= 65535
    ensures Usable(After(TEST_START, k))
    ensures InBlock(After(TEST_START, k), TEST_START, 16) <==> k <= 64770
    ensures k == 1 ==> After(TEST_START, k) == Quad(192, 12, 0, 1)
    ensures k == 64771 ==> After(TEST_START, k) == Quad(192, 13, 0, 1)
  {
    var q := After(TEST_START, k);
    AfterCounts(TEST_START, k);
    TestNetwork();
    StaysInBlockExactly(TEST_START, 16, k);
    if k == 1 {
      RankIsInjective(q, Quad(192, 12, 0, 1));
    } else if k == 64771 {
      RankIsInjective(q, Quad(192, 13, 0, 1));
    }
  }

  // ---------------------------------------------------------------------------
  // Round trip
  // ---------------------------------------------------------------------------

  lemma SplitAtDot(a: string, rest: string)
    requires AllDigits(a)
    ensures Split(a + "." + rest, '.') == [a] + Split(rest, '.')
  {
    SplitFirst(a, '.', rest);
  }

  lemma SplitTwo(c: string, d: string)
    requires AllDigits(c) && AllDigits(d) && d != ""
    ensures Split(c + "." + d, '.') == [c, d]
  {
    SplitFirst(d, '.', "");
    SplitAtDot(c, d);
  }

  lemma SplitThree(b: string, cd: string, c: string, d: string)
    requires AllDigits(b) && Split(cd, '.') == [c, d]
    ensures Split(b + "." + cd, '.') == [b, c, d]
  {
    SplitAtDot(b, cd);
  }

  lemma SplitFour(a: string, bcd: string, b: string, c: string, d: string)
    requires AllDigits(a) && Split(bcd, '.') == [b, c, d]
    ensures Split(a + "." + bcd, '.') == [a, b, c, d]
  {
    SplitAtDot(a, bcd);
  }

  predicate DigitsAndDots(s: string) {
    forall i :: 0 <= i < |s| ==> IsDigit(s[i]) || s[i] == '.'
  }

  lemma {:induction false} ReadAllAt(tokens: seq<string>)
    requires forall i :: 0 <= i < |tokens| ==> ReadInt(tokens[i]).Some?
    ensures ReadAll(tokens).Some? && |ReadAll(tokens).value| == |tokens|
    ensures forall i :: 0 <= i < |tokens| ==> ReadAll(tokens).value[i] == ReadInt(tokens[i]).value
  {
    if tokens != [] {
      ReadAllAt(tokens[..|tokens| - 1]);
    }
  }

  lemma ParseTokens(address: string, p: string, tokens: seq<string>)
    requires DigitsAndDots(address) && AllDigits(p) && p != ""
    requires Split(address, '.') == tokens && |tokens| == 4
    requires forall i :: 0 <= i < 4 ==> ReadInt(tokens[i]).Some?
    requires ReadInt(p).Some? && 0 <= ReadInt(p).value <= 32
    ensures Parse(address + "/" + p) == Some((
      Quad(ReadInt(tokens[0]).value, ReadInt(tokens[1]).value, ReadInt(tokens[2]).value, ReadInt(tokens[3]).value),
      ReadInt(p).value))
  {
    ReadAllAt(tokens);
    SplitSlash(address, p);
  }

  lemma FourTokens(a: string, b: string, c: string, d: string)
    requires AllDigits(a) && AllDigits(b) && AllDigits(c) && AllDigits(d) && d != ""
    ensures Split(a + "." + (b + "." + (c + "." + d)), '.') == [a, b, c, d]
  {
    var cd := c + "." + d;
    var bcd := b + "." + cd;
    SplitTwo(c, d);
    SplitThree(b, cd, c, d);
    SplitFour(a, bcd, b, c, d);
  }

  lemma JoinDigits(a: string, rest: string)
    requires DigitsAndDots(a) && DigitsAndDots(rest)
    ensures DigitsAndDots(a + "." + rest)
  {
  }

  lemma FourDots(a: string, b: string, c: string, d: string)
    requires DigitsAndDots(a) && DigitsAndDots(b) && DigitsAndDots(c) && DigitsAndDots(d)
    ensures DigitsAndDots(a + "." + (b + "." + (c + "." + d)))
  {
    JoinDigits(c, d);
    JoinDigits(b, c + "." + d);
    JoinDigits(a, b + "." + (c + "." + d));
  }

  lemma ParseFour(a: string, b: string, c: string, d: string, q: Quad)
    requires AllDigits(a) && AllDigits(b) && AllDigits(c) && AllDigits(d) && d != ""
    requires ReadInt(a) == Some(q.a) && ReadInt(b) == Some(q.b) && ReadInt(c) == Some(q.c) && ReadInt(d) == Some(q.d)
    ensures Parse(a + "." + (b + "." + (c + "." + d)) + "/" + "32") == Some((q, 32))
  {
    FourTokens(a, b, c, d);
    FourDots(a, b, c, d);
    ReadFullPrefix();
    ParseTokens(a + "." + (b + "." + (c + "." + d)), "32", [a, b, c, d]);
  }

  lemma SplitSlash(address: string, p: string)
    requires DigitsAndDots(address) && AllDigits(p) && p != ""
    ensures Split(address + "/" + p, '/') == [address, p]
  {
    SplitFirst(address, '/', p);
    SplitFirst(p, '/', "");
  }

  lemma FullPrefix(q: Quad)
    requires Octets(q)
    ensures Network(q, 32) == q
  {
    MaskedIsHigh(q.a, 8);
    MaskedIsHigh(q.b, 8);
    MaskedIsHigh(q.c, 8);
    MaskedIsHigh(q.d, 8);
  }

  lemma ReadFullPrefix()
    ensures AllDigits("32") && ReadInt("32") == Some(32)
  {
    ReadShown(32);
    assert Show(32) == "32";
  }

  /** Printing an address and reading it back with the prefix length 32 gives the same four octets. */
  lemma DottedRoundTrip(q: Quad)
    requires Octets(q)
    ensures Parse(Dotted(q) + "/32") == Some((q, 32))
    ensures Network(q, 32) == q
  {
    ReadShown(q.a);
    ReadShown(q.b);
    ReadShown(q.c);
    ReadShown(q.d);
    ParseFour(Show(q.a), Show(q.b), Show(q.c), Show(q.d), q);
    assert Dotted(q) + "/32" == Dotted(q) + "/" + "32";
    FullPrefix(q);
  }

  lemma DottedTokens(q: Quad)
    requires Octets(q)
    ensures Split(Dotted(q), '.') == [Show(q.a), Show(q.b), Show(q.c), Show(q.d)] && DigitsAndDots(Dotted(q))
    ensures ReadInt(Show(q.a)) == Some(q.a) && ReadInt(Show(q.b)) == Some(q.b)
    ensures ReadInt(Show(q.c)) == Some(q.c) && ReadInt(Show(q.d)) == Some(q.d)
  {
    ReadShown(q.a);
    ReadShown(q.b);
    ReadShown(q.c);
    ReadShown(q.d);
    FourTokens(Show(q.a), Show(q.b), Show(q.c), Show(q.d));
    FourDots(Show(q.a), Show(q.b), Show(q.c), Show(q.d));
  }

  /** With any prefix length: up to 32 the octets and the prefix length are read as written. */
  lemma PrefixRoundTrip(q: Quad, p: nat)
    requires Octets(q) && p <= 2147483647
    ensures Parse(Dotted(q) + "/" + Show(p)) == if p <= 32 then Some((q, p)) else None
  {
    DottedTokens(q);
    ReadShown(p);
    if p <= 32 {
      ParseTokens(Dotted(q), Show(p), [Show(q.a), Show(q.b), Show(q.c), Show(q.d)]);
    } else {
      PrefixTooLong(Dotted(q), Show(p));
    }
  }

  lemma PrefixTooLong(address: string, p: string)
    requires DigitsAndDots(address) && AllDigits(p) && p != "" && ReadInt(p).Some? && ReadInt(p).value > 32
    ensures Parse(address + "/" + p) == None
  {
    SplitSlash(address, p);
    assert Split(address + "/" + p, '/')[1] == p;
  }

  /** Without a slash, the first octet is taken for the prefix length as well. */
  lemma WithoutSlash(q: Quad)
    requires Octets(q)
    ensures Parse(Dotted(q)) == if q.a <= 32 then Some((q, q.a)) else None
  {
    DottedTokens(q);
    LeadingShown(q);
    var address, tokens := Dotted(q), [Show(q.a), Show(q.b), Show(q.c), Show(q.d)];
    assert Split(address, '/') == [address] by {
      SplitFirst(address, '/', "");
    }
    ReadAllAt(tokens);
  }

  lemma LeadingShown(q: Quad)
    requires Octets(q)
    ensures ReadInt(Dotted(q)) == Some(q.a)
  {
    var rest := "." + (Show(q.b) + "." + (Show(q.c) + "." + Show(q.d)));
    assert Dotted(q) == Show(q.a) + rest;
    LeadingOf(Show(q.a), rest);
    ShowValue(q.a);
    assert IsDigit(Dotted(q)[0]);
  }

  lemma ShownOctets()
    ensures Show(192) == "192" && Show(12) == "12" && Show(16) == "16" && Show(0) == "0" && Show(1) == "1"
  {
    ShownByDigits(192);
    ShownByDigits(19);
    ShownByDigits(12);
    ShownByDigits(16);
    ShownByDigits(1);
    ShownByDigits(0);
  }

  lemma TestDots()
    ensures "192" + "." + ("12" + "." + ("0" + "." + "0")) + "/" + "16" == "192.12.0.0/16"
    ensures "192" + "." + ("12" + "." + ("0" + "." + "1")) == "192.12.0.1"
  {
  }

  /** The notation of the project's own test, and its first address, as text. */
  lemma TestText()
    ensures Parse("192.12.0.0/16") == Some((TEST_START, 16))
    ensures Dotted(After(TEST_START, 1)) == "192.12.0.1"
  {
    PrefixRoundTrip(TEST_START, 16);
    assert After(TEST_START, 0) == TEST_START;
    assert After(TEST_START, 1) == Quad(192, 12, 0, 1);
    ShownOctets();
    TestDots();
  }
}
