// CIDR prefixes over 32-bit addresses (section 3.1 of RFC 4632).
module Cidr {
  import opened Base
  import Ipv4

  /** A prefix: its network address and the number of leading ones of its mask. */
  datatype Net = Net(addr: int, ones: int) {
    function Size(): (r: nat) {
      if 0 <= ones <= 32 then Pow2(32 - ones) else 0
    }

    /** A block of 32-bit addresses whose host bits are zero at its network address. */
    ghost predicate Valid() {
      0 <= ones <= 32 && 0 <= addr && addr + Size() <= Ipv4.TWO32 && LowBitsZero(addr, 32 - ones)
    }

    predicate Has(a: int) {
      addr <= a < addr + Size()
    }

    /** Neither the network address nor the broadcast address. */
    predicate Usable(a: int) {
      addr < a < addr + Size() - 1
    }

    /** The addresses an ipallocator range over this prefix can hand out. */
    function Hosts(): set<int> {
      set a | addr <= a < addr + Size() && Usable(a)
    }

    predicate Within(outer: Net) {
      outer.addr <= addr && addr + Size() <= outer.addr + outer.Size()
    }
  }

  predicate Overlap(m: Net, n: Net) {
    m.addr < n.addr + n.Size() && n.addr < m.addr + m.Size()
  }

  /** The address with its host bits cleared. */
  function MaskTo(a: nat, ones: nat): int
    requires ones <= 32
  {
    a - a % Pow2(32 - ones)
  }

  lemma OverlapIsSharing(m: Net, n: Net)
    requires m.Valid() && n.Valid()
    ensures Overlap(m, n) <==> exists a :: m.Has(a) && n.Has(a)
  {
    if Overlap(m, n) {
      var a := if m.addr < n.addr then n.addr else m.addr;
      assert m.Has(a) && n.Has(a);
    }
  }

  /** An address lies in a prefix exactly when masking it yields the prefix's address. */
  lemma HasIffMasked(n: Net, a: nat)
    requires n.Valid()
    ensures n.Has(a) <==> MaskTo(a, n.ones) == n.addr
  {
    LowBitsZeroIsMultiple(n.addr, 32 - n.ones);
    var size := n.Size();
    var q := n.addr / size;
    assert n.addr == size * q;
    if n.Has(a) {
      DivModUnique(a, size, q, a - n.addr);
    }
  }

  /** The first and the last address of a prefix are not handed out. */
  lemma HostsAre(n: Net, a: int)
    requires 0 <= n.ones <= 32
    ensures a in n.Hosts() <==> n.addr < a < n.addr + Pow2(32 - n.ones) - 1
  {
  }

  /** Blocks that share no address share no host; a shared network address is an overlap. */
  lemma DisjointHosts(m: Net, n: Net, a: int)
    requires a in m.Hosts() && a in n.Hosts()
    ensures Overlap(m, n)
  {
  }

  lemma SameAddressOverlaps(m: Net, n: Net)
    requires m.Valid() && n.Valid() && m.addr == n.addr
    ensures Overlap(m, n)
  {
  }

  lemma {:induction false} AlignedGap(a: nat, b: nat, h: nat)
    requires LowBitsZero(a, h) && LowBitsZero(b, h) && a < b
    ensures a + Pow2(h) <= b
  {
    if h != 0 {
      AlignedGap(a / 2, b / 2, h - 1);
    }
  }

  lemma {:induction false} BlockEndAligned(a: nat, big: nat, h: nat)
    requires LowBitsZero(a, big) && h <= big
    ensures LowBitsZero(a + Pow2(big), h)
  {
    if h != 0 {
      BlockEndAligned(a / 2, big - 1, h - 1);
      assert (a + Pow2(big)) / 2 == a / 2 + Pow2(big - 1);
    }
  }

  lemma StartsInside(inner: Net, outer: Net)
    requires inner.Valid() && outer.Valid() && outer.Has(inner.addr) && inner.ones >= outer.ones
    ensures inner.Within(outer)
  {
    BlockEndAligned(outer.addr, 32 - outer.ones, 32 - inner.ones);
    AlignedGap(inner.addr, outer.addr + outer.Size(), 32 - inner.ones);
  }

  /** Aligned blocks are nested or apart: a block starting inside another one lies inside
      it exactly when it is not larger. */
  lemma NestedIffNotLarger(inner: Net, outer: Net)
    requires inner.Valid() && outer.Valid() && outer.Has(inner.addr)
    ensures inner.Within(outer) <==> inner.ones >= outer.ones
  {
    if inner.ones >= outer.ones {
      StartsInside(inner, outer);
    } else {
      Pow2Increases(32 - outer.ones, 32 - inner.ones);
    }
  }
}
