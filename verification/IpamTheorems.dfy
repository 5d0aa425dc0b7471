// The address-management results over runs: no address is given out twice, nothing leaks,
// subnets stay apart, every harmful step can end in a duplicate, and a released address
// finds its range.
module IpamTheorems {
  import opened Base
  import opened Cidr
  import opened Ipam
  import opened IpamSafety
  import FreePool
  import Ipv4

  /** A VSD with no agent running. */
  ghost predicate Start(gen: map<int, Net>, s: State) {
    GoodPool(gen) && VsdOk(s.vsd) && s.agent.None?
  }

  lemma PoolIsGood(cluster: Net, subnetLength: nat)
    requires FreePool.Fits(cluster, subnetLength) && cluster.ones + subnetLength >= 2
    ensures GoodPool(FreePool.Pool(cluster, subnetLength))
  {
    FreePool.PoolIsWellFormed(cluster, subnetLength);
  }

  // ---- over any run ----

  /** Over any harmless run no two live pods hold the same address. */
  lemma NoAddressTwice(gen: map<int, Net>, s: State, tr: seq<Event>, t: State, p: PodKey, q: PodKey)
    requires Start(gen, s) && Run(gen, s, tr) == Some(t) && HarmlessRun(gen, s, tr)
    requires p in t.vsd.containers && q in t.vsd.containers && p != q
    ensures t.vsd.containers[p].addr != t.vsd.containers[q].addr
  {
    RunKeeps(gen, s, tr, t);
  }

  /** With nothing in hand -- between pod handlers -- the allocated addresses of each loaded
      subnet are exactly those of its live containers and of the containers whose record has
      left and whose deletion is still to be handled. */
  lemma NothingLeaks(gen: map<int, Net>, s: State, tr: seq<Event>, t: State, id: nat)
    requires Start(gen, s) && Run(gen, s, tr) == Some(t) && HarmlessRun(gen, s, tr)
    requires t.agent.Some? && t.agent.value.pending.None? && id in t.agent.value.known
    ensures t.agent.value.known[id].used == Addrs(t.vsd, id) + DepartedOn(t.agent.value, id)
    ensures Addrs(t.vsd, id) !! DepartedOn(t.agent.value, id)
  {
    RunKeeps(gen, s, tr, t);
  }

  /** Over any run at all, loaded subnets of all namespaces stay disjoint, and no generated
      prefix is lost: each is in the free pool or is the address of a loaded non-custom subnet. */
  lemma SubnetsStayApart(gen: map<int, Net>, s: State, tr: seq<Event>, t: State)
    requires Start(gen, s) && Run(gen, s, tr) == Some(t) && t.agent.Some?
    ensures var m := t.agent.value;
            && (forall i, j :: i in m.known && j in m.known && i != j ==> !Overlap(m.known[i].net, m.known[j].net))
            && (forall a :: a in gen ==>
                  a in m.free || exists id :: id in m.known && !m.known[id].customed && m.known[id].net.addr == a)
  {
    RunIsSound(gen, s, tr, t);
    var m := t.agent.value;
    forall a | a in gen && a !in m.free
      ensures exists id :: id in m.known && !m.known[id].customed && m.known[id].net.addr == a
    {
      var id :| id in m.known && m.known[id].net.addr == a;
      assert !m.known[id].customed;
    }
  }

  // ---- harm: how an address comes to be held twice ----

  /** The container's address is not reserved in its own, loaded, range. */
  ghost predicate Exposed(s: State, p: PodKey) {
    && s.agent.Some? && p in s.vsd.containers
    && var i := s.vsd.containers[p];
       i.subnet in s.agent.value.known && i.addr !in s.agent.value.known[i.subnet].used
  }

  /** Every step that is not harmless exposes some container. */
  lemma HarmExposes(gen: map<int, Net>, s: State, e: Event) returns (p: PodKey)
    requires Inv(gen, s) && Enabled(gen, s, e) && !Harmless(s, e)
    ensures Exposed(Apply(gen, s, e), p)
  {
    match e
    case LostCommit(pod) => p := pod;
    case Free(id, addr) =>
      p :| p in s.vsd.containers && s.vsd.containers[p].subnet == id && s.vsd.containers[p].addr == addr;
    case LoadNamespace(ns, ids, lost) =>
      p :| p in lost && p in s.vsd.containers && s.vsd.containers[p].subnet in ids;
      LostAddr(s.vsd, lost, p);
  }

  /** Two more steps then give an exposed address to another pod of the namespace. */
  lemma ExposedLeadsToDuplicate(gen: map<int, Net>, s: State, p: PodKey, q: PodKey) returns (tr: seq<Event>, t: State)
    requires Sound(gen, s) && Exposed(s, p) && s.agent.value.pending.None? && q !in s.vsd.containers && q.ns == p.ns
    ensures var i := s.vsd.containers[p]; tr == [Reserve(i.subnet, i.addr), Commit(q)]
    ensures Run(gen, s, tr) == Some(t) && p != q && p in t.vsd.containers && q in t.vsd.containers
    ensures t.vsd.containers[p].addr == t.vsd.containers[q].addr
  {
    var i := s.vsd.containers[p];
    var mid := Apply(gen, s, Reserve(i.subnet, i.addr));
    t := Apply(gen, mid, Commit(q));
    Two(gen, s, Reserve(i.subnet, i.addr), mid, Commit(q), t);
    tr := [Reserve(i.subnet, i.addr), Commit(q)];
  }

  /** Giving back an address in hand exposes it no less. */
  lemma SettleExposed(gen: map<int, Net>, s: State, p: PodKey) returns (tr: seq<Event>, t: State)
    requires Sound(gen, s) && Exposed(s, p)
    ensures Run(gen, s, tr) == Some(t) && Exposed(t, p) && t.vsd == s.vsd && t.agent.value.pending.None?
  {
    tr, t := [], s;
    if s.agent.value.pending.Some? {
      tr, t := [Release], Apply(gen, s, Release);
      One(gen, s, Release, t);
    }
  }

  /** So every step that is not harmless can end in two live pods with one address. */
  lemma HarmLeadsToDuplicate(gen: map<int, Net>, s: State, e: Event, name: string)
    returns (p: PodKey, q: PodKey, tr: seq<Event>, t: State)
    requires Inv(gen, s) && Enabled(gen, s, e) && !Harmless(s, e)
    requires forall ns :: PodKey(name, ns) !in Apply(gen, s, e).vsd.containers
    ensures Run(gen, s, [e] + tr) == Some(t) && p != q && p in t.vsd.containers && q in t.vsd.containers
    ensures t.vsd.containers[p].addr == t.vsd.containers[q].addr
  {
    var mid := Apply(gen, s, e);
    StepIsSound(gen, s, e);
    p := HarmExposes(gen, s, e);
    q := PodKey(name, p.ns);
    var first, settled := SettleExposed(gen, mid, p);
    RunIsSound(gen, mid, first, settled);
    var rest;
    rest, t := ExposedLeadsToDuplicate(gen, settled, p, q);
    One(gen, s, e, mid);
    ThenRun(gen, mid, first, settled, rest, t);
    tr := first + rest;
    ThenRun(gen, s, [e], mid, tr, t);
  }

  /** A harmful step by itself makes no duplicate yet. */
  lemma HarmIsLatent(gen: map<int, Net>, s: State, e: Event)
    requires Inv(gen, s) && Enabled(gen, s, e)
    ensures VsdOk(Apply(gen, s, e).vsd)
  {
    StepIsSound(gen, s, e);
    if e.LostCommit? {
      NewContainerKeepsVsd(gen, s, e.pod);
    } else if e.Commit? || e.Leave? || e.AdminSubnet? || e.AddSubnet? {
      StepKeepsIff(gen, s, e);
    }
  }

  lemma More(gen: map<int, Net>, s: State, tr: seq<Event>, t: State, e: Event) returns (t': State, more: seq<Event>)
    requires Run(gen, s, tr) == Some(t) && Enabled(gen, t, e)
    ensures t' == Apply(gen, t, e) && more == tr + [e] && Run(gen, s, more) == Some(t')
  {
    t', more := Apply(gen, t, e), tr + [e];
    Then(gen, s, tr, t, e, t');
  }

  const TEN: Net := Net(0x0a00_0000, 24)

  lemma TenIsGood()
    ensures GoodNet(TEN) && 0x0a00_0001 in TEN.Hosts()
  {
    Pow2Values();
    LowBitsZeroIsMultiple(0x0a00_0000, 8);
  }

  /** From a VSD with the one custom subnet 10.0.0.0/24 and no agent: a process starts, loads
      the subnet and takes the address 10.0.0.1. */
  lemma TakeFirst(s: State, tr: seq<Event>, t: State, ns: string) returns (tr': seq<Event>, t': State)
    requires Run(map[], s, tr) == Some(t) && t == State(Vsd(map[0 := VsdSubnet(ns, TEN)], map[]), None)
    ensures Run(map[], s, tr') == Some(t') && t'.vsd == t.vsd && t'.agent.Some?
    ensures t'.agent.value.known.Keys == {0} && t'.agent.value.known[0] == Entry(ns, TEN, true, {0x0a00_0001})
    ensures t'.agent.value.pending == Some(Reservation(0, 0x0a00_0001))
  {
    TenIsGood();
    tr', t' := tr, t;
    t', tr' := More(map[], s, tr', t', Boot);
    assert SubnetsOf(t.vsd, ns) == {0};
    t', tr' := More(map[], s, tr', t', LoadNamespace(ns, {0}, {}));
    assert t'.agent.value.known[0] == Entry(ns, TEN, true, {});
    t', tr' := More(map[], s, tr', t', Reserve(0, 0x0a00_0001));
  }

  /** An administrator makes the subnet in an empty VSD, and an agent takes the address. */
  lemma Begin(ns: string) returns (s: State, tr: seq<Event>, t: State)
    ensures Start(map[], s) && Run(map[], s, tr) == Some(t)
    ensures t.vsd == Vsd(map[0 := VsdSubnet(ns, TEN)], map[]) && t.agent.Some?
    ensures t.agent.value.known.Keys == {0} && t.agent.value.known[0] == Entry(ns, TEN, true, {0x0a00_0001})
    ensures t.agent.value.pending == Some(Reservation(0, 0x0a00_0001))
  {
    TenIsGood();
    s := State(Vsd(map[], map[]), None);
    tr, t := [], s;
    t, tr := More(map[], s, tr, t, AdminSubnet(0, ns, TEN));
    tr, t := TakeFirst(s, tr, t, ns);
  }

  /** A container create that takes effect and is reported as failed: the pod lives on with an
      address that a second pod is given as well. */
  lemma LostCreateDuplicates(a: PodKey, b: PodKey) returns (s: State, tr: seq<Event>, t: State)
    requires a.ns == b.ns && a != b
    ensures Start(map[], s) && Run(map[], s, tr) == Some(t) && a in t.vsd.containers && b in t.vsd.containers
    ensures t.vsd.containers[a].addr == t.vsd.containers[b].addr
  {
    s, tr, t := Begin(a.ns);
    RunIsSound(map[], s, tr, t);
    StepIsSound(map[], t, LostCommit(a));
    t, tr := More(map[], s, tr, t, LostCommit(a));
    var mid := t;
    var more;
    more, t := ExposedLeadsToDuplicate(map[], mid, a, b);
    ThenRun(map[], s, tr, mid, more, t);
    tr := tr + more;
  }

  /** The record of pod a leaves, the agent restarts, and pod b is given the address; then the
      deletion of a is handled with the container the CNI agent still has, and frees the
      address that b holds: pod c is given it, too. */
  lemma StaleDeletionDuplicates(a: PodKey, b: PodKey, c: PodKey) returns (s: State, tr: seq<Event>, t: State)
    requires a.ns == b.ns == c.ns && b != c
    ensures Start(map[], s) && Run(map[], s, tr) == Some(t) && b in t.vsd.containers && c in t.vsd.containers
    ensures t.vsd.containers[b].addr == t.vsd.containers[c].addr
  {
    s, tr, t := Begin(a.ns);
    t, tr := More(map[], s, tr, t, Commit(a));
    t, tr := More(map[], s, tr, t, Leave(a));
    t, tr := More(map[], s, tr, t, Crash);
    assert t.vsd.containers == map[];
    tr, t := TakeFirst(s, tr, t, a.ns);
    t, tr := More(map[], s, tr, t, Commit(b));
    t, tr := More(map[], s, tr, t, Free(0, 0x0a00_0001));
    RunIsSound(map[], s, tr, t);
    var mid := t;
    var more;
    more, t := ExposedLeadsToDuplicate(map[], mid, b, c);
    ThenRun(map[], s, tr, mid, more, t);
    tr := tr + more;
  }

  // ---- without a restart in between, a stale answer does no harm ----

  /** Nobody but pod a may hold the address: it is reserved, and not in hand. */
  ghost predicate KeptFor(s: State, a: PodKey, id: nat, addr: int) {
    && s.agent.Some? && id in s.agent.value.known && addr in s.agent.value.known[id].used
    && addr !in PendingOn(s.agent.value, id)
    && forall q :: q in s.vsd.containers && s.vsd.containers[q].subnet == id && s.vsd.containers[q].addr == addr ==> q == a
  }

  lemma StaysKept(gen: map<int, Net>, s: State, e: Event, t: State, a: PodKey, id: nat, addr: int)
    requires Sound(gen, s) && Next(gen, s, e) == Some(t) && KeptFor(s, a, id, addr)
    requires !e.Crash? && e != Free(id, addr)
    ensures KeptFor(t, a, id, addr)
  {
    if e.LoadNamespace? {
      assert id !in e.ids;
    }
  }

  /** From the moment pod a holds an address of a loaded subnet until that address is freed,
      no other pod gets it, unless the process dies: so whatever the CNI agent says of a pod
      whose container was made or loaded by this process, freeing its address is harmless
      once its record has left. */
  lemma {:induction false} AnswersStayTrue(gen: map<int, Net>, s: State, tr: seq<Event>, t: State, a: PodKey)
    requires Inv(gen, s) && s.agent.Some? && Run(gen, s, tr) == Some(t)
    requires a in s.vsd.containers && s.vsd.containers[a].subnet in s.agent.value.known
    requires var i := s.vsd.containers[a]; forall e :: e in tr ==> !e.Crash? && e != Free(i.subnet, i.addr)
    ensures var i := s.vsd.containers[a];
            && KeptFor(t, a, i.subnet, i.addr)
            && (a !in t.vsd.containers ==> Harmless(t, Free(i.subnet, i.addr)))
  {
    var i := s.vsd.containers[a];
    if tr == [] {
      assert i.addr in Addrs(s.vsd, i.subnet);
    } else {
      var init, last := tr[..|tr| - 1], tr[|tr| - 1];
      assert tr == init + [last];
      var r := Run(gen, s, init).value;
      AnswersStayTrue(gen, s, init, r, a);
      RunIsSound(gen, s, init, r);
      StaysKept(gen, r, last, t, a, i.subnet, i.addr);
    }
  }

  /** Subnets are never removed from the VSD. */
  lemma {:induction false} SubnetsStay(gen: map<int, Net>, s: State, tr: seq<Event>, t: State, id: nat)
    requires Run(gen, s, tr) == Some(t) && id in s.vsd.subnets
    ensures id in t.vsd.subnets && t.vsd.subnets[id] == s.vsd.subnets[id]
  {
    if tr != [] {
      SubnetsStay(gen, s, tr[..|tr| - 1], Run(gen, s, tr[..|tr| - 1]).value, id);
    }
  }

  // ---- non-custom subnets and the cluster prefix ----

  /** Zone.Subnets tells custom subnets by network address only. A non-custom subnet
      lies inside the cluster prefix exactly when its mask is at least as long. */
  lemma NonCustomInsideIff(cluster: Net, subnetLength: nat, gen: map<int, Net>, s: State, tr: seq<Event>, t: State, id: nat)
    requires FreePool.Fits(cluster, subnetLength) && gen == FreePool.Pool(cluster, subnetLength)
    requires Start(gen, s) && Run(gen, s, tr) == Some(t)
    requires t.agent.Some? && id in t.agent.value.known && !t.agent.value.known[id].customed
    ensures var n := t.agent.value.known[id].net; n.Within(cluster) <==> n.ones >= cluster.ones
  {
    RunIsSound(gen, s, tr, t);
    FreePool.PoolIsWellFormed(cluster, subnetLength);
    var n := t.agent.value.known[id].net;
    assert gen[n.addr].Within(cluster);
    NestedIffNotLarger(n, cluster);
  }

  lemma TenSlashEight() returns (wide: Net, cluster: Net)
    ensures wide == Net(0x0a00_0000, 8) && cluster == Net(0x0a00_0000, 16)
    ensures GoodNet(wide) && GoodNet(cluster) && !wide.Within(cluster)
    ensures FreePool.Fits(cluster, 8)
  {
    wide, cluster := Net(0x0a00_0000, 8), Net(0x0a00_0000, 16);
    Pow2Values();
    Pow2Add(16, 8);
    assert Pow2(24) == 0x100_0000;
    LowBitsZeroIsMultiple(0x0a00_0000, 24);
    LowBitsZeroIsMultiple(0x0a00_0000, 16);
  }

  /** The mask condition is needed: with cluster prefix 10.0.0.0/16, an administrator's
      10.0.0.0/8 is taken for a cluster subnet. */
  lemma WideSubnetTakenForCluster(ns: string) returns (gen: map<int, Net>, s: State, tr: seq<Event>, t: State)
    ensures gen == FreePool.Pool(Net(0x0a00_0000, 16), 8)
    ensures Start(gen, s) && Run(gen, s, tr) == Some(t) && t.agent.Some? && 0 in t.agent.value.known
    ensures !t.agent.value.known[0].customed && !t.agent.value.known[0].net.Within(Net(0x0a00_0000, 16))
  {
    var wide, cluster := TenSlashEight();
    gen := FreePool.Pool(cluster, 8);
    PoolIsGood(cluster, 8);
    assert FreePool.PrefixAddr(cluster, 8, 0) in FreePool.PoolAddrs(cluster, 8, FreePool.PoolSize(8));
    s := State(Vsd(map[], map[]), None);
    tr, t := [], s;
    t, tr := More(gen, s, tr, t, AdminSubnet(0, ns, wide));
    t, tr := More(gen, s, tr, t, Boot);
    assert SubnetsOf(t.vsd, ns) == {0};
    t, tr := More(gen, s, tr, t, LoadNamespace(ns, {0}, {}));
  }

  /** Loading a namespace a second time in one process makes all of its subnets custom, as
      their prefixes have left the pool: case 3 then passes over every subnet it had made. */
  lemma ReloadMakesCustom(gen: map<int, Net>, v: Vsd, m: Memory, ns: string)
    requires KnownAgrees(gen, v, m)
    ensures var once := Loaded(v, m, ns, SubnetsOf(v, ns));
            var twice := Loaded(v, once, ns, SubnetsOf(v, ns));
            && (forall id :: id in SubnetsOf(v, ns) ==> id in twice.known && twice.known[id].customed)
            && Exhausted(twice, ns) && twice.free == once.free
  {
    var once := Loaded(v, m, ns, SubnetsOf(v, ns));
    forall id | id in SubnetsOf(v, ns)
      ensures v.subnets[id].net.addr !in once.free
    {
      assert v.subnets[id].net.addr in Prefixes(v, SubnetsOf(v, ns));
    }
  }

  // ---- release finds its home ----

  lemma MaskingSeparates(n: Net, n': Net, addr: nat)
    requires n.Valid() && n'.Valid() && addr < Ipv4.TWO32 && n.Has(addr)
    ensures Ipv4.And(addr, Ipv4.MaskValue(n.ones), 32) == n.addr
    ensures !Overlap(n, n') ==> n'.addr != n.addr
  {
    HasIffMasked(n, addr);
    Ipv4.MaskClearsHostBits(addr, n.ones);
  }

  /** Masking an address allocated from a loaded subnet with that subnet's netmask gives
      the address of that subnet and of no other. */
  lemma ReleaseFindsItsSubnet(gen: map<int, Net>, s: State, id: nat, addr: nat, k: nat)
    requires Sound(gen, s) && s.agent.Some?
    requires id in s.agent.value.known && k in s.agent.value.known
    requires addr in s.agent.value.known[id].net.Hosts()
    ensures addr < Ipv4.TWO32
    ensures Ipv4.And(addr, Ipv4.MaskValue(s.agent.value.known[id].net.ones), 32) == s.agent.value.known[k].net.addr
            <==> k == id
  {
    MaskingSeparates(s.agent.value.known[id].net, s.agent.value.known[k].net, addr);
  }

  lemma DistinctAddresses(v: Vsd, i: nat, j: nat)
    requires SubnetsApart(v) && i in v.subnets && j in v.subnets && i != j
    ensures v.subnets[i].net.addr != v.subnets[j].net.addr
  {
    if v.subnets[i].net.addr == v.subnets[j].net.addr {
      SameAddressOverlaps(v.subnets[i].net, v.subnets[j].net);
    }
  }
}
