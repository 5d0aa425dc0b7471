// vsd-client/vsd-client.go: initCIDRs fills FreeCIDRs with the pod subnets carved
// out of the cluster prefix.
module FreePool {
  import opened Base
  import opened Ipv4
  import opened Cidr

  const MAX_SUBNETS: int := 2048
  const TWO64: int := 0x1_0000_0000_0000_0000

  type i64 = x: int | -0x8000_0000_0000_0000 <= x < 0x8000_0000_0000_0000

  /** net.IPNet as the pool stores it; CIDRMask yields nil for more than 32 ones. */
  datatype IPNet = IPNet(ip: IP, ones: Option<int>)

  /** Go's 1 << k on a 64-bit int. */
  function Shl(k: nat): int {
    if k < 63 then Pow2(k) else if k == 63 then -(Pow2(63) as int) else 0
  }

  // ---- what the pool is meant to be ----

  function SubnetSize(cluster: Net, subnetLength: nat): nat {
    Net(0, cluster.ones + subnetLength).Size()
  }

  function PrefixAddr(cluster: Net, subnetLength: nat, i: nat): int {
    if i == 0 then cluster.addr else PrefixAddr(cluster, subnetLength, i - 1) + SubnetSize(cluster, subnetLength)
  }

  function PoolSize(subnetLength: nat): nat {
    Min(Pow2(subnetLength), MAX_SUBNETS)
  }

  function PoolAddrs(cluster: Net, subnetLength: nat, k: nat): set<int> {
    set i | 0 <= i < k :: PrefixAddr(cluster, subnetLength, i)
  }

  /** The prefixes carved from the cluster prefix, by network address. */
  function Pool(cluster: Net, subnetLength: nat): map<int, Net> {
    map a | a in PoolAddrs(cluster, subnetLength, PoolSize(subnetLength)) ::
      Net(a, cluster.ones + subnetLength)
  }

  /** A configuration whose pod subnets have a mask of at most 32 bits. */
  ghost predicate Fits(cluster: Net, subnetLength: int) {
    cluster.Valid() && subnetLength >= 0 && cluster.ones + subnetLength <= 32
  }

  // ---- arithmetic of the carving ----

  lemma {:induction false} PrefixAddrIs(cluster: Net, subnetLength: nat, i: nat)
    ensures PrefixAddr(cluster, subnetLength, i) == cluster.addr + i * SubnetSize(cluster, subnetLength)
  {
    if i != 0 {
      PrefixAddrIs(cluster, subnetLength, i - 1);
      assert i * SubnetSize(cluster, subnetLength)
          == (i - 1) * SubnetSize(cluster, subnetLength) + SubnetSize(cluster, subnetLength);
    }
  }

  lemma ClusterIsWholeSubnets(cluster: Net, subnetLength: nat)
    requires Fits(cluster, subnetLength)
    ensures cluster.Size() == Pow2(subnetLength) * SubnetSize(cluster, subnetLength)
    ensures LowBitsZero(cluster.addr, 32 - (cluster.ones + subnetLength))
  {
    Pow2Add(subnetLength, 32 - (cluster.ones + subnetLength));
    FewerLowBits(cluster.addr, 32 - cluster.ones, 32 - (cluster.ones + subnetLength));
  }

  lemma PrefixBounds(cluster: Net, subnetLength: nat, i: nat)
    requires Fits(cluster, subnetLength) && i < Pow2(subnetLength)
    ensures var a := PrefixAddr(cluster, subnetLength, i);
            && cluster.addr <= a && a + SubnetSize(cluster, subnetLength) <= cluster.addr + cluster.Size()
            && LowBitsZero(a, 32 - (cluster.ones + subnetLength))
  {
    ClusterIsWholeSubnets(cluster, subnetLength);
    PrefixAddrIs(cluster, subnetLength, i);
    Carve(cluster.addr, 32 - (cluster.ones + subnetLength), Pow2(subnetLength), i);
  }

  /** Each carved prefix is a valid block inside the cluster prefix. */
  lemma PrefixIsValid(cluster: Net, subnetLength: nat, i: nat)
    requires Fits(cluster, subnetLength) && i < Pow2(subnetLength)
    ensures var n := Net(PrefixAddr(cluster, subnetLength, i), cluster.ones + subnetLength);
            n.Valid() && n.Within(cluster)
  {
    PrefixBounds(cluster, subnetLength, i);
  }

  /** Distinct indices carve disjoint blocks. */
  lemma {:induction false} PrefixesDisjoint(cluster: Net, subnetLength: nat, i: nat, j: nat)
    requires i < j
    ensures PrefixAddr(cluster, subnetLength, i) + SubnetSize(cluster, subnetLength) <= PrefixAddr(cluster, subnetLength, j)
  {
    if i + 1 < j {
      PrefixesDisjoint(cluster, subnetLength, i, j - 1);
    }
  }

  lemma {:induction false} CountAddrs(cluster: Net, subnetLength: nat, k: nat)
    requires Fits(cluster, subnetLength)
    ensures |PoolAddrs(cluster, subnetLength, k)| == k
  {
    if k == 0 {
      assert PoolAddrs(cluster, subnetLength, 0) == {};
    } else {
      var smaller, last := PoolAddrs(cluster, subnetLength, k - 1), PrefixAddr(cluster, subnetLength, k - 1);
      CountAddrs(cluster, subnetLength, k - 1);
      forall i | 0 <= i < k - 1
        ensures PrefixAddr(cluster, subnetLength, i) != last
      {
        PrefixesDisjoint(cluster, subnetLength, i, k - 1);
      }
      assert last !in smaller;
      assert PoolAddrs(cluster, subnetLength, k) == smaller + {last};
    }
  }

  lemma PoolEntry(cluster: Net, subnetLength: nat, a: int) returns (i: nat)
    requires a in Pool(cluster, subnetLength)
    ensures i < PoolSize(subnetLength) && i < Pow2(subnetLength)
    ensures a == PrefixAddr(cluster, subnetLength, i)
  {
    i :| 0 <= i < PoolSize(subnetLength) && a == PrefixAddr(cluster, subnetLength, i);
  }

  lemma PoolEntryIsValid(cluster: Net, subnetLength: nat, a: int)
    requires Fits(cluster, subnetLength) && a in Pool(cluster, subnetLength)
    ensures Net(a, cluster.ones + subnetLength).Valid() && Net(a, cluster.ones + subnetLength).Within(cluster)
  {
    var i := PoolEntry(cluster, subnetLength, a);
    PrefixIsValid(cluster, subnetLength, i);
  }

  lemma PoolEntriesDisjoint(cluster: Net, subnetLength: nat, a: int, b: int)
    requires Fits(cluster, subnetLength) && a != b
    requires a in Pool(cluster, subnetLength) && b in Pool(cluster, subnetLength)
    ensures !Overlap(Pool(cluster, subnetLength)[a], Pool(cluster, subnetLength)[b])
  {
    var i := PoolEntry(cluster, subnetLength, a);
    var j := PoolEntry(cluster, subnetLength, b);
    if i < j {
      PrefixesDisjoint(cluster, subnetLength, i, j);
    } else {
      PrefixesDisjoint(cluster, subnetLength, j, i);
    }
  }

  /** A map of valid prefixes inside the cluster prefix, keyed by address, no two overlapping. */
  ghost predicate WellFormed(pool: map<int, Net>, cluster: Net) {
    && (forall a :: a in pool ==> pool[a].addr == a && pool[a].Valid() && pool[a].Within(cluster))
    && (forall a, b :: a in pool && b in pool && a != b ==> !Overlap(pool[a], pool[b]))
  }

  /** How many prefixes that is: all of them up to length 11, then 2048. */
  lemma PoolSizeIs(subnetLength: nat)
    ensures PoolSize(subnetLength) == if subnetLength <= 11 then Pow2(subnetLength) else 2048
  {
    Pow2Values();
    if subnetLength < 11 {
      Pow2Increases(subnetLength, 11);
    } else if subnetLength > 11 {
      Pow2Increases(11, subnetLength);
    }
  }

  /** The pool has exactly min(2^SubnetLength, 2048) prefixes: aligned blocks inside
      the cluster prefix, no two overlapping. */
  lemma PoolIsWellFormed(cluster: Net, subnetLength: nat)
    requires Fits(cluster, subnetLength)
    ensures |Pool(cluster, subnetLength)| == PoolSize(subnetLength)
    ensures |Pool(cluster, subnetLength)| == if subnetLength <= 11 then Pow2(subnetLength) else 2048
    ensures WellFormed(Pool(cluster, subnetLength), cluster)
  {
    PoolSizeIs(subnetLength);
    var pool := Pool(cluster, subnetLength);
    CountAddrs(cluster, subnetLength, PoolSize(subnetLength));
    assert pool.Keys == PoolAddrs(cluster, subnetLength, PoolSize(subnetLength));
    forall a | a in pool
      ensures pool[a].addr == a && pool[a].Valid() && pool[a].Within(cluster)
    {
      PoolEntryIsValid(cluster, subnetLength, a);
    }
    forall a, b | a in pool && b in pool && a != b
      ensures !Overlap(pool[a], pool[b])
    {
      PoolEntriesDisjoint(cluster, subnetLength, a, b);
    }
  }

  /** Which prefixes those are: one after the other from the start of the cluster prefix, each
      as large as its mask says, which is SubnetLength longer than the cluster's. */
  lemma PoolHas(cluster: Net, subnetLength: nat, i: nat)
    requires Fits(cluster, subnetLength) && i < if subnetLength <= 11 then Pow2(subnetLength) else 2048
    ensures var a := cluster.addr + i * Pow2(32 - cluster.ones - subnetLength);
            a in Pool(cluster, subnetLength) && Pool(cluster, subnetLength)[a] == Net(a, cluster.ones + subnetLength)
  {
    PoolSizeIs(subnetLength);
    PrefixAddrIs(cluster, subnetLength, i);
    assert PrefixAddr(cluster, subnetLength, i) in PoolAddrs(cluster, subnetLength, PoolSize(subnetLength));
  }

  /** There are no others. */
  lemma PoolIndex(cluster: Net, subnetLength: nat, a: int) returns (i: nat)
    requires Fits(cluster, subnetLength) && a in Pool(cluster, subnetLength)
    ensures i < if subnetLength <= 11 then Pow2(subnetLength) else 2048
    ensures a == cluster.addr + i * Pow2(32 - cluster.ones - subnetLength)
  {
    PoolSizeIs(subnetLength);
    i := PoolEntry(cluster, subnetLength, a);
    PrefixAddrIs(cluster, subnetLength, i);
  }

  /** Beyond length 11 the highest prefix is the 2048th. */
  lemma HighestPrefix(cluster: Net, subnetLength: nat)
    requires Fits(cluster, subnetLength) && subnetLength > 11
    ensures var top := cluster.addr + 2047 * Pow2(32 - cluster.ones - subnetLength);
            top in Pool(cluster, subnetLength) && forall a :: a in Pool(cluster, subnetLength) ==> a <= top
  {
    PoolSizeIs(subnetLength);
    PrefixAddrIs(cluster, subnetLength, 2047);
    assert PrefixAddr(cluster, subnetLength, 2047) in PoolAddrs(cluster, subnetLength, PoolSize(subnetLength));
    forall a | a in Pool(cluster, subnetLength)
      ensures a <= PrefixAddr(cluster, subnetLength, 2047)
    {
      var i := PoolEntry(cluster, subnetLength, a);
      if i < 2047 {
        PrefixesDisjoint(cluster, subnetLength, i, 2047);
      }
    }
  }

  /** The block an address of the cluster prefix falls into. */
  lemma BlockOf(cluster: Net, subnetLength: nat, a: int) returns (i: nat)
    requires Fits(cluster, subnetLength) && cluster.Has(a)
    ensures i < Pow2(subnetLength)
    ensures PrefixAddr(cluster, subnetLength, i) <= a
              < PrefixAddr(cluster, subnetLength, i) + SubnetSize(cluster, subnetLength)
  {
    ClusterIsWholeSubnets(cluster, subnetLength);
    i := Quotient(a - cluster.addr, SubnetSize(cluster, subnetLength), Pow2(subnetLength));
    PrefixAddrIs(cluster, subnetLength, i);
  }

  ghost predicate Covers(pool: map<int, Net>, cluster: Net) {
    forall a :: cluster.Has(a) ==> exists p :: p in pool && pool[p].Has(a)
  }

  lemma ShortLengthsCover(cluster: Net, subnetLength: nat)
    requires Fits(cluster, subnetLength) && Pow2(subnetLength) <= MAX_SUBNETS
    ensures Covers(Pool(cluster, subnetLength), cluster)
  {
    var pool := Pool(cluster, subnetLength);
    forall a | cluster.Has(a)
      ensures exists p :: p in pool && pool[p].Has(a)
    {
      var i := BlockOf(cluster, subnetLength, a);
      var p := PrefixAddr(cluster, subnetLength, i);
      assert p in PoolAddrs(cluster, subnetLength, PoolSize(subnetLength));
      assert p in pool && pool[p].Has(a);
    }
  }

  lemma LongLengthsLeaveGaps(cluster: Net, subnetLength: nat)
    requires Fits(cluster, subnetLength) && Pow2(subnetLength) > MAX_SUBNETS
    ensures !Covers(Pool(cluster, subnetLength), cluster)
  {
    var pool := Pool(cluster, subnetLength);
    PrefixIsValid(cluster, subnetLength, MAX_SUBNETS);
    var a := PrefixAddr(cluster, subnetLength, MAX_SUBNETS);
    forall p | p in pool
      ensures !pool[p].Has(a)
    {
      var i := PoolEntry(cluster, subnetLength, p);
      PrefixesDisjoint(cluster, subnetLength, i, MAX_SUBNETS);
    }
    assert cluster.Has(a);
  }

  /** The pool covers the whole cluster prefix, hence partitions it, exactly for
      subnet lengths up to 11; beyond that the 2048 limit leaves addresses out. */
  lemma PoolPartitionsIffShort(cluster: Net, subnetLength: nat)
    requires Fits(cluster, subnetLength)
    ensures Covers(Pool(cluster, subnetLength), cluster) <==> subnetLength <= 11
  {
    Pow2Values();
    if subnetLength <= 11 {
      if subnetLength < 11 {
        Pow2Increases(subnetLength, 11);
      }
      ShortLengthsCover(cluster, subnetLength);
    } else {
      Pow2Increases(11, subnetLength);
      LongLengthsLeaveGaps(cluster, subnetLength);
    }
  }

  // ---- initCIDRs ----

  function CidrMask(ones: nat): Option<int> {
    if ones <= 32 then Some(ones) else None
  }

  function Entry(cluster: Net, subnetLength: nat, i: nat): IPNet {
    IPNet(AddrIP(PrefixAddr(cluster, subnetLength, i)), Some(cluster.ones + subnetLength))
  }

  ghost function PoolKeys(cluster: Net, subnetLength: nat, k: nat): (keys: seq<string>)
    ensures |keys| == k
    ensures forall i :: 0 <= i < k ==> keys[i] == Dotted(Entry(cluster, subnetLength, i).ip)
  {
    if k == 0 then [] else PoolKeys(cluster, subnetLength, k - 1) + [Dotted(Entry(cluster, subnetLength, k - 1).ip)]
  }

  ghost function PoolEntries(cluster: Net, subnetLength: nat, k: nat): (entries: seq<IPNet>)
    ensures |entries| == k
    ensures forall i :: 0 <= i < k ==> entries[i] == Entry(cluster, subnetLength, i)
  {
    if k == 0 then [] else PoolEntries(cluster, subnetLength, k - 1) + [Entry(cluster, subnetLength, k - 1)]
  }

  /** A map that holds exactly the listed entries, under distinct keys. */
  ghost predicate Lists(free: map<string, IPNet>, keys: seq<string>, entries: seq<IPNet>) {
    && |free| == |keys| == |entries|
    && (forall i :: 0 <= i < |keys| ==> keys[i] in free && free[keys[i]] == entries[i])
    && (forall s :: s in free ==> s in keys)
  }

  /** The first k prefixes, as the string-keyed map stores them. */
  ghost predicate Holds(free: map<string, IPNet>, cluster: Net, subnetLength: nat, k: nat) {
    Lists(free, PoolKeys(cluster, subnetLength, k), PoolEntries(cluster, subnetLength, k))
  }

  lemma ListOneMore(free: map<string, IPNet>, keys: seq<string>, entries: seq<IPNet>, key: string, entry: IPNet)
    requires Lists(free, keys, entries) && key !in keys
    ensures Lists(free[key := entry], keys + [key], entries + [entry])
  {
    assert key !in free;
    assert free[key := entry].Keys == free.Keys + {key};
  }

  lemma KeyIsNew(cluster: Net, subnetLength: nat, k: nat)
    requires Fits(cluster, subnetLength) && k < Pow2(subnetLength)
    ensures Dotted(Entry(cluster, subnetLength, k).ip) !in PoolKeys(cluster, subnetLength, k)
  {
    PrefixIsValid(cluster, subnetLength, k);
    forall i | 0 <= i < k
      ensures PoolKeys(cluster, subnetLength, k)[i] != Key(PrefixAddr(cluster, subnetLength, k))
    {
      PrefixIsValid(cluster, subnetLength, i);
      PrefixesDisjoint(cluster, subnetLength, i, k);
      KeyInjective(PrefixAddr(cluster, subnetLength, i), PrefixAddr(cluster, subnetLength, k));
    }
  }

  lemma AddOne(free: map<string, IPNet>, cluster: Net, subnetLength: nat, k: nat, entry: IPNet)
    requires Fits(cluster, subnetLength) && k < Pow2(subnetLength)
    requires Holds(free, cluster, subnetLength, k)
    requires entry == Entry(cluster, subnetLength, k)
    ensures Holds(free[Dotted(entry.ip) := entry], cluster, subnetLength, k + 1)
  {
    KeyIsNew(cluster, subnetLength, k);
    ListOneMore(free, PoolKeys(cluster, subnetLength, k), PoolEntries(cluster, subnetLength, k), Dotted(entry.ip), entry);
  }

  /** The subnet mask length, computed in Go's uint. */
  method SubnetMask(cmask: nat, subnetLength: i64) returns (smask: nat)
    requires cmask <= 32
    ensures 0 <= subnetLength < 63 ==> smask == cmask + subnetLength
  {
    smask := (cmask + subnetLength) % TWO64;
  }

  /** Go's 1 << uint(n) for an int n: negative counts become huge ones. */
  method ShiftOne(n: int) returns (r: int)
    requires -0x8000_0000_0000_0000 <= n < 0x8000_0000_0000_0000
    ensures 0 <= n < 63 ==> r == Pow2(n)
    ensures n < 0 || n >= 63 ==> r <= 0
  {
    r := Shl(n % TWO64);
  }

  /** Go's 1 << (32 - smask) on uint: past 32 the count wraps around and the result is 0. */
  method Increment(smask: nat) returns (step: int)
    requires smask < 95
    ensures step == if smask <= 32 then Pow2(32 - smask) else 0
  {
    step := Shl((32 - smask) % TWO64);
  }

  /** The i-th prefix and its mask, through wrapping int32 arithmetic. */
  method Candidate(clusterIP: IP, ghost cluster: Net, ghost subnetLength: nat, smask: nat, i: nat) returns (entry: IPNet)
    requires cluster.addr == ToU32(clusterIP) && 0 <= cluster.ones <= 32
    requires subnetLength < 63 && smask == cluster.ones + subnetLength
    ensures entry == if smask <= 32 then Entry(cluster, subnetLength, i) else IPNet(clusterIP, None)
  {
    var step := Increment(smask);
    var offset := i * step;
    WrappingAdditionIsExact(clusterIP, ToU32(clusterIP), offset);
    var newprefix := IntToIp(WrapI32(IpToInt(clusterIP) + WrapI32(offset)));
    entry := IPNet(newprefix, CidrMask(smask));
    if smask <= 32 {
      PrefixAddrIs(cluster, subnetLength, i);
    } else {
      U32RoundTrip(ToU32(clusterIP), clusterIP);
    }
  }

  /** What the map holds after i rounds: the intended prefixes while the mask fits, else
      at most the one entry all rounds write. */
  ghost predicate Filled(free: map<string, IPNet>, cluster: Net, clusterIP: IP, subnetLength: nat, i: nat) {
    if cluster.ones + subnetLength <= 32 then Holds(free, cluster, subnetLength, i)
    else free == if i == 0 then map[] else map[Dotted(clusterIP) := IPNet(clusterIP, None)]
  }

  lemma FillOne(free: map<string, IPNet>, cluster: Net, clusterIP: IP, subnetLength: nat, i: nat, entry: IPNet)
    requires cluster.Valid() && i < Pow2(subnetLength) && Filled(free, cluster, clusterIP, subnetLength, i)
    requires entry == if cluster.ones + subnetLength <= 32 then Entry(cluster, subnetLength, i) else IPNet(clusterIP, None)
    ensures Filled(free[Dotted(entry.ip) := entry], cluster, clusterIP, subnetLength, i + 1)
  {
    if cluster.ones + subnetLength <= 32 {
      AddOne(free, cluster, subnetLength, i, entry);
    }
  }

  method Insert(free: map<string, IPNet>, ghost cluster: Net, ghost clusterIP: IP, ghost subnetLength: nat,
                ghost i: nat, entry: IPNet) returns (filled: map<string, IPNet>)
    requires cluster.Valid() && i < Pow2(subnetLength) && Filled(free, cluster, clusterIP, subnetLength, i)
    requires entry == if cluster.ones + subnetLength <= 32 then Entry(cluster, subnetLength, i) else IPNet(clusterIP, None)
    ensures Filled(filled, cluster, clusterIP, subnetLength, i + 1)
  {
    FillOne(free, cluster, clusterIP, subnetLength, i, entry);
    filled := free[Dotted(entry.ip) := entry];
  }

  /** The pool for every cluster prefix and every 64-bit SubnetLength. The source only
      logs an oversized mask: at exactly /32 the pool is still the intended one, past it
      all prefixes collapse into one entry whose mask is nil. */
  method InitCIDRs(ghost cluster: Net, clusterIP: IP, cmask: nat, subnetLength: i64) returns (free: map<string, IPNet>)
    requires cluster.Valid() && cluster.addr == ToU32(clusterIP) && cluster.ones == cmask
    ensures 0 <= subnetLength < 63 ==> Filled(free, cluster, clusterIP, subnetLength, PoolSize(subnetLength))
    ensures subnetLength < 0 || subnetLength >= 63 ==> free == map[]
    ensures 0 <= subnetLength < 63 && cmask + subnetLength <= 32 ==>
              |free| == if subnetLength <= 11 then Pow2(subnetLength) else 2048
    ensures 0 <= subnetLength < 63 && cmask + subnetLength > 32 ==> free == map[Dotted(clusterIP) := IPNet(clusterIP, None)]
  {
    var smask := SubnetMask(cmask, subnetLength);
    var bound := ShiftOne(subnetLength);
    free := map[];
    var i := 0;
    while i < bound && i < MAX_SUBNETS
      invariant i >= 0
      invariant subnetLength < 0 || subnetLength >= 63 ==> i == 0 && free == map[]
      invariant 0 <= subnetLength < 63 ==>
                  i <= PoolSize(subnetLength) && Filled(free, cluster, clusterIP, subnetLength, i)
    {
      var entry := Candidate(clusterIP, cluster, subnetLength, smask, i);
      free := Insert(free, cluster, clusterIP, subnetLength, i, entry);
      i := i + 1;
    }
    if 0 <= subnetLength < 63 {
      PoolSizeIs(subnetLength);
    }
  }

  /** The map has as many entries as the configuration asks for exactly when the mask fits. */
  lemma CountIsRightIffFits(free: map<string, IPNet>, cluster: Net, clusterIP: IP, subnetLength: nat)
    requires cluster.Valid() && Filled(free, cluster, clusterIP, subnetLength, PoolSize(subnetLength))
    ensures |free| == (if subnetLength <= 11 then Pow2(subnetLength) else 2048) <==> cluster.ones + subnetLength <= 32
  {
    PoolSizeIs(subnetLength);
    if cluster.ones + subnetLength > 32 {
      Pow2Increases(0, subnetLength);
    }
  }

  lemma KeyHasIndex(free: map<string, IPNet>, cluster: Net, subnetLength: nat, s: string) returns (i: nat)
    requires Holds(free, cluster, subnetLength, PoolSize(subnetLength)) && s in free
    ensures i < PoolSize(subnetLength) && s == Dotted(Entry(cluster, subnetLength, i).ip)
    ensures free[s] == Entry(cluster, subnetLength, i)
  {
    var keys := PoolKeys(cluster, subnetLength, PoolSize(subnetLength));
    var entries := PoolEntries(cluster, subnetLength, PoolSize(subnetLength));
    i :| 0 <= i < |keys| && keys[i] == s;
    assert free[s] == entries[i];
  }

  lemma IndexHasKey(free: map<string, IPNet>, cluster: Net, subnetLength: nat, i: nat)
    requires Holds(free, cluster, subnetLength, PoolSize(subnetLength)) && i < PoolSize(subnetLength)
    ensures Dotted(Entry(cluster, subnetLength, i).ip) in free
  {
    assert PoolKeys(cluster, subnetLength, PoolSize(subnetLength))[i] in free;
  }

  /** The string-keyed map is the integer-keyed pool under the text of its addresses. */
  lemma MapIsPool(free: map<string, IPNet>, cluster: Net, subnetLength: nat, a: u32)
    requires Fits(cluster, subnetLength) && Holds(free, cluster, subnetLength, PoolSize(subnetLength))
    ensures Key(a) in free <==> a in Pool(cluster, subnetLength)
    ensures Key(a) in free ==> free[Key(a)].ones == Some(Pool(cluster, subnetLength)[a].ones)
  {
    if a in Pool(cluster, subnetLength) {
      var i := PoolEntry(cluster, subnetLength, a);
      IndexHasKey(free, cluster, subnetLength, i);
    }
    if Key(a) in free {
      var i := KeyHasIndex(free, cluster, subnetLength, Key(a));
      PrefixIsValid(cluster, subnetLength, i);
      KeyInjective(PrefixAddr(cluster, subnetLength, i), a);
      assert a in PoolAddrs(cluster, subnetLength, PoolSize(subnetLength));
    }
  }
}
