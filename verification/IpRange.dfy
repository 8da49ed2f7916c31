/**
 The range subcommand of "netdb ip" (NetdbIp in tnmNetdb.c): the host addresses of a network,
 in 32-bit arithmetic. A mask with k host bits is 2^32 - 2^k.
 */
module IpRange {

  function Pow2(k: nat): nat {
    if k == 0 then 1 else 2 * Pow2(k - 1)
  }

  const WORD: nat := 0x1_0000_0000

  function Mask(k: nat): int {
    WORD - Pow2(k)
  }

  // Bitwise and.
  function And(a: nat, b: nat): nat {
    if a == 0 || b == 0 then 0 else (a % 2) * (b % 2) + 2 * And(a / 2, b / 2)
  }

  function Not(a: int): int {
    WORD - 1 - a
  }

  // a with its k lowest bits cleared.
  function Clear(a: nat, k: nat): nat {
    if k == 0 then a else 2 * Clear(a / 2, k - 1)
  }

  lemma {:induction false} Pow2Grows(k: nat, n: nat)
    requires k <= n
    ensures 1 <= Pow2(k) <= Pow2(n) && (k < n ==> 2 * Pow2(k) <= Pow2(n))
    decreases n
  {
    if k == n {
      if k > 0 { Pow2Grows(k - 1, n - 1); }
    } else {
      Pow2Grows(k, n - 1);
    }
  }

  lemma Pow2Word()
    ensures Pow2(32) == WORD
  {
    assert Pow2(8) == 0x100;
    assert Pow2(16) == 0x100 * Pow2(8);
    assert Pow2(24) == 0x100 * Pow2(16);
    assert Pow2(32) == 0x100 * Pow2(24);
  }

  // An and with n - k ones over k zeros clears the k lowest bits.
  lemma {:induction false} AndMask(a: nat, n: nat, k: nat)
    requires k <= n && a < Pow2(n)
    ensures Pow2(k) <= Pow2(n)
    ensures And(a, Pow2(n) - Pow2(k)) == Clear(a, k)
    decreases n
  {
    Pow2Grows(k, n);
    if k > 0 {
      AndMask(a / 2, n - 1, k - 1);
      AndStep(a, Pow2(n - 1) - Pow2(k - 1), 0);
    } else {
      AndOnes(a, n);
    }
  }

  lemma {:induction false} AndOnes(a: nat, n: nat)
    requires a < Pow2(n)
    ensures Pow2(n) >= 1 && And(a, Pow2(n) - 1) == a
    decreases n
  {
    if n > 0 {
      AndOnes(a / 2, n - 1);
      AndStep(a, Pow2(n - 1) - 1, 1);
    }
  }

  lemma AndStep(a: nat, m: nat, bit: nat)
    requires bit < 2
    ensures And(a, 2 * m + bit) == (a % 2) * bit + 2 * And(a / 2, m)
  {
    var b := 2 * m + bit;
    assert b / 2 == m && b % 2 == bit;
  }

  // Two addresses agree above the k lowest bits when they lie in the same block of 2^k.
  lemma {:induction false} SameBlock(a: nat, b: nat, k: nat)
    ensures Clear(a, k) == Clear(b, k) <==> Clear(b, k) <= a < Clear(b, k) + Pow2(k)
    ensures Clear(b, k) <= b < Clear(b, k) + Pow2(k)
    decreases k
  {
    if k > 0 { SameBlock(a / 2, b / 2, k - 1); }
  }

  lemma {:induction false} BlockFits(a: nat, n: nat, k: nat)
    requires k <= n && a < Pow2(n)
    ensures Clear(a, k) + Pow2(k) <= Pow2(n)
    decreases k
  {
    if k > 0 { BlockFits(a / 2, n - 1, k - 1); }
  }

  // ----- The command -----

  function First(net: nat): nat {
    (net + 1) % WORD
  }

  function Last(net: nat, mask: nat): int {
    (net + Not(mask)) % WORD
  }

  /** The counter never wraps: the loop lists First, First + 1, ... up to but not including Last. */
  method Range(net: nat, mask: nat) returns (list: seq<nat>)
    requires net < WORD && mask < WORD
    ensures forall i :: 0 <= i < |list| ==> list[i] == First(net) + i
    ensures forall a: nat :: a in list <==> First(net) <= a < Last(net, mask)
  {
    var first, last := (net + 1) % WORD, (net + (WORD - 1 - mask)) % WORD;
    list := [];
    var host := first;
    while host < last
      invariant first <= host < WORD && |list| == host - first && (host <= last || host == first)
      invariant forall i :: 0 <= i < |list| ==> list[i] == first + i
    {
      list := list + [host];
      host := (host + 1) % WORD;
    }
    forall a: nat ensures a in list <==> first <= a < last {
      if first <= a < last { assert list[a - first] == a; }
    }
  }

  // a belongs to the network of net, and is neither its network nor its broadcast address.
  predicate IsHost(a: nat, net: nat, mask: nat)
    requires mask < WORD
  {
    And(a, mask) == And(net, mask) && a != And(net, mask) && a != And(net, mask) + Not(mask)
  }

  // Range lists exactly the hosts of the network.
  ghost predicate Exact(net: nat, mask: nat)
    requires mask < WORD
  {
    forall a: nat :: a < WORD ==> (First(net) <= a < Last(net, mask) <==> IsHost(a, net, mask))
  }

  // The hosts of a network, in numbers.
  lemma HostsAre(a: nat, net: nat, k: nat)
    requires k <= 32 && a < WORD && net < WORD
    ensures 1 <= Pow2(k) <= WORD && 0 <= Mask(k) < WORD && Not(Mask(k)) == Pow2(k) - 1
    ensures var base := And(net, Mask(k));
            && base <= net < base + Pow2(k) <= WORD
            && (IsHost(a, net, Mask(k)) <==> base < a < base + Pow2(k) - 1)
  {
    Pow2Word();
    Pow2Grows(k, 32);
    AndMask(net, 32, k);
    AndMask(a, 32, k);
    SameBlock(a, net, k);
    BlockFits(net, 32, k);
  }

  /** The listing is exact if and only if there is one host bit, or the address has no host bits set
      and is not 255.255.255.255 with a mask of 32 ones. */
  lemma RangeExact(net: nat, k: nat)
    requires k <= 32 && net < WORD
    ensures 0 <= Mask(k) < WORD
    ensures Exact(net, Mask(k)) <==> k == 1 || (And(net, Mask(k)) == net && !(k == 0 && net == WORD - 1))
  {
    HostsAre(0, net, k);
    var base := And(net, Mask(k));
    if k == 1 || (base == net && !(k == 0 && net == WORD - 1)) {
      ListedExactly(net, k);
    } else if k == 0 {
      Refuted(net, k, 0);
    } else {
      Pow2Grows(2, k);
      HostsAre(base + 1, net, k);
      if net == WORD - 1 {
        LastWraps(k);
        Refuted(net, k, 0);
      } else {
        Refuted(net, k, base + 1);
      }
    }
  }

  lemma ListedExactly(net: nat, k: nat)
    requires k <= 32 && net < WORD && 0 <= Mask(k) < WORD
    requires k == 1 || (And(net, Mask(k)) == net && !(k == 0 && net == WORD - 1))
    ensures Exact(net, Mask(k))
  {
    HostsAre(0, net, k);
    forall a: nat | a < WORD ensures First(net) <= a < Last(net, Mask(k)) <==> IsHost(a, net, Mask(k)) {
      HostsAre(a, net, k);
      if k != 1 { NoWrap(net, k); }
    }
  }

  lemma NoWrap(net: nat, k: nat)
    requires k <= 32 && k != 1 && net < WORD && 1 <= Pow2(k) <= WORD && net + Pow2(k) <= WORD
    requires !(k == 0 && net == WORD - 1)
    ensures First(net) == net + 1 && Last(net, Mask(k)) == net + Pow2(k) - 1
  {
    if k > 1 { Pow2Grows(1, k); }
  }

  lemma LastWraps(k: nat)
    requires 2 <= k <= 32 && 4 <= Pow2(k) <= WORD
    ensures Last(WORD - 1, Mask(k)) == Pow2(k) - 2 && First(WORD - 1) == 0
  {
  }

  lemma Refuted(net: nat, k: nat, a: nat)
    requires k <= 32 && net < WORD && a < WORD && 0 <= Mask(k) < WORD
    requires (First(net) <= a < Last(net, Mask(k))) != IsHost(a, net, Mask(k))
    ensures !Exact(net, Mask(k))
  {
  }

  // 255.255.255.255 with 32 mask bits lists almost all addresses; 10.0.0.5 with 24 starts at 10.0.0.6.
  lemma NotExact()
    ensures 0 <= Mask(0) < WORD && !Exact(WORD - 1, Mask(0))
    ensures 0 <= Mask(8) < WORD && !Exact(0x0a00_0005, Mask(8))
  {
    RangeExact(WORD - 1, 0);
    RangeExact(0x0a00_0005, 8);
    HostsAre(0, 0x0a00_0005, 8);
    Pow2Word();
    AndMask(0x0a00_0005, 32, 8);
    assert Clear(0x0a00_0005, 8) == 0x0a00_0000 by {
      SameBlock(0x0a00_0000, 0x0a00_0005, 8);
      assert Clear(0xa00_0005, 4) == 0xa00_0000;
    }
  }
}
