// What the steps and runs of the address-management system keep.
module IpamSafety {
  import opened Base
  import opened Cidr
  import opened Ipam

  // ---- what every run keeps ----

  /** A pool of candidate prefixes, keyed by network address, no two overlapping. */
  ghost predicate GoodPool(gen: map<int, Net>) {
    && (forall a :: a in gen ==> gen[a].addr == a && GoodNet(gen[a]))
    && (forall a, b :: a in gen && b in gen && a != b ==> !Overlap(gen[a], gen[b]))
  }

  /** Subnets are valid blocks that do not overlap. */
  ghost predicate SubnetsApart(v: Vsd) {
    && (forall id :: id in v.subnets ==> GoodNet(v.subnets[id].net))
    && (forall i, j :: i in v.subnets && j in v.subnets && i != j ==> !Overlap(v.subnets[i].net, v.subnets[j].net))
  }

  /** Each container has a host address of a subnet of its own namespace. */
  ghost predicate ContainersPlaced(v: Vsd) {
    forall p :: p in v.containers ==>
      var i := v.containers[p];
      && i.subnet in v.subnets && v.subnets[i.subnet].ns == p.ns
      && i.addr in v.subnets[i.subnet].net.Hosts() && i.ones == v.subnets[i.subnet].net.ones
  }

  /** What the agent knows about a subnet agrees with the VSD; the Customed flag says
      whether the prefix is one of the cluster's. */
  ghost predicate KnownAgrees(gen: map<int, Net>, v: Vsd, m: Memory) {
    forall id :: id in m.known ==>
      && id in v.subnets && m.known[id].ns == v.subnets[id].ns && m.known[id].net == v.subnets[id].net
      && m.known[id].ns in m.loaded
      && (m.known[id].customed <==> m.known[id].net.addr !in gen)
  }

  ghost predicate PendingPlaced(m: Memory) {
    m.pending.Some? ==>
      m.pending.value.subnet in m.known && m.pending.value.addr in m.known[m.pending.value.subnet].net.Hosts()
  }

  /** Every generated prefix is in the free pool or is the address of a loaded subnet. */
  ghost predicate PoolAccounted(gen: map<int, Net>, m: Memory) {
    && (forall a :: a in m.free ==> a in gen && m.free[a] == gen[a])
    && (forall a :: a in gen ==> a in m.free || exists id :: id in m.known && m.known[id].net.addr == a)
  }

  ghost predicate MemorySound(gen: map<int, Net>, v: Vsd, m: Memory) {
    KnownAgrees(gen, v, m) && PendingPlaced(m) && PoolAccounted(gen, m)
  }

  /** What all steps keep, also those that lead to a duplicate address later. */
  ghost predicate Sound(gen: map<int, Net>, s: State) {
    && GoodPool(gen) && SubnetsApart(s.vsd) && ContainersPlaced(s.vsd)
    && (s.agent.Some? ==> MemorySound(gen, s.vsd, s.agent.value))
  }

  // ---- what harmless runs keep ----

  /** No two live pods hold the same address. */
  ghost predicate NoDuplicateAddress(v: Vsd) {
    forall p, q :: p in v.containers && q in v.containers && p != q ==> v.containers[p].addr != v.containers[q].addr
  }

  ghost predicate VsdOk(v: Vsd) {
    SubnetsApart(v) && ContainersPlaced(v) && NoDuplicateAddress(v)
  }

  function PendingOn(m: Memory, id: nat): set<int> {
    if m.pending.Some? && m.pending.value.subnet == id then {m.pending.value.addr} else {}
  }

  function DepartedOn(m: Memory, id: nat): set<int> {
    set r | r in m.departed && r.subnet == id :: r.addr
  }

  /** Allocated addresses are those of the live containers, the one in hand, and those of
      containers whose record has left and whose deletion has not been handled. */
  ghost predicate Conserved(v: Vsd, m: Memory) {
    forall id :: id in m.known ==> m.known[id].used == Addrs(v, id) + PendingOn(m, id) + DepartedOn(m, id)
  }

  /** The address in hand and the departed ones belong to no live container. */
  ghost predicate Unheld(v: Vsd, m: Memory) {
    && (m.pending.Some? ==> m.pending.value.addr !in Addrs(v, m.pending.value.subnet) && m.pending.value !in m.departed)
    && (forall r :: r in m.departed ==> r.subnet in m.known && r.addr !in Addrs(v, r.subnet))
  }

  ghost predicate Balanced(v: Vsd, m: Memory) {
    Conserved(v, m) && Unheld(v, m)
  }

  ghost predicate Inv(gen: map<int, Net>, s: State) {
    Sound(gen, s) && NoDuplicateAddress(s.vsd) && (s.agent.Some? ==> Balanced(s.vsd, s.agent.value))
  }

  /** No container of the given subnets is missing from the interface lists. */
  ghost predicate AllListed(v: Vsd, ids: set<nat>, lost: set<PodKey>) {
    forall p :: p in lost && p in v.containers ==> v.containers[p].subnet !in ids
  }

  /** The steps that keep the invariant: a container create must not take effect and report a
      failure, an address must not be freed while a live container holds it, and when a
      subnet is loaded, no container on it may be missing from the interface list. */
  ghost predicate Harmless(s: State, e: Event) {
    match e
    case LoadNamespace(_, ids, lost) => AllListed(s.vsd, ids, lost)
    case LostCommit(_) => false
    case Free(id, addr) => addr !in Addrs(s.vsd, id)
    case _ => true
  }

  // ---- loading ----

  /** While a subnet is not loaded, its prefix is free exactly when it is a cluster prefix. */
  lemma UnloadedPrefixIsFree(gen: map<int, Net>, v: Vsd, m: Memory, id: nat)
    requires SubnetsApart(v) && KnownAgrees(gen, v, m) && PoolAccounted(gen, m)
    requires id in v.subnets && id !in m.known
    ensures v.subnets[id].net.addr in m.free <==> v.subnets[id].net.addr in gen
  {
    var a := v.subnets[id].net.addr;
    if a in gen && a !in m.free {
      var k :| k in m.known && m.known[k].net.addr == a;
      SameAddressOverlaps(v.subnets[k].net, v.subnets[id].net);
      assert false;
    }
  }

  lemma LoadedAccounts(gen: map<int, Net>, v: Vsd, m: Memory, ns: string, ids: set<nat>)
    requires PoolAccounted(gen, m) && KnownAgrees(gen, v, m) && ids <= v.subnets.Keys
    ensures PoolAccounted(gen, Loaded(v, m, ns, ids))
  {
    var m' := Loaded(v, m, ns, ids);
    forall a | a in gen
      ensures a in m'.free || exists id :: id in m'.known && m'.known[id].net.addr == a
    {
      if a in m.free {
        if a in Prefixes(v, ids) {
          var id :| id in ids && v.subnets[id].net.addr == a;
          assert id in m'.known && m'.known[id].net.addr == a;
        }
      } else {
        var id :| id in m.known && m.known[id].net.addr == a;
        assert id in m'.known && m'.known[id].net.addr == a;
      }
    }
  }

  lemma LoadedAgrees(gen: map<int, Net>, v: Vsd, m: Memory, ns: string, ids: set<nat>)
    requires SubnetsApart(v) && KnownAgrees(gen, v, m) && PoolAccounted(gen, m) && ids <= SubnetsOf(v, ns)
    requires forall id :: id in ids ==> id !in m.known
    ensures KnownAgrees(gen, v, Loaded(v, m, ns, ids))
  {
    forall id | id in ids
      ensures v.subnets[id].net.addr in m.free <==> v.subnets[id].net.addr in gen
    {
      UnloadedPrefixIsFree(gen, v, m, id);
    }
  }

  /** The addresses in an interface list: all of them, if no container of the subnet is missing. */
  lemma SeenAddrs(v: Vsd, lost: set<PodKey>, id: nat)
    ensures Addrs(Seen(v, lost), id) <= Addrs(v, id)
    ensures On(v, id) !! lost ==> Addrs(Seen(v, lost), id) == Addrs(v, id)
  {
    if On(v, id) !! lost {
      forall a | a in Addrs(v, id)
        ensures a in Addrs(Seen(v, lost), id)
      {
        var p :| p in v.containers && v.containers[p].subnet == id && v.containers[p].addr == a;
        assert p in On(v, id) && p in Seen(v, lost).containers;
      }
    }
  }

  lemma LostAddr(v: Vsd, lost: set<PodKey>, p: PodKey)
    requires NoDuplicateAddress(v) && p in lost && p in v.containers
    ensures v.containers[p].addr in Addrs(v, v.containers[p].subnet)
    ensures v.containers[p].addr !in Addrs(Seen(v, lost), v.containers[p].subnet)
  {
  }

  lemma LoadIsSound(gen: map<int, Net>, s: State, ns: string, ids: set<nat>, lost: set<PodKey>)
    requires Sound(gen, s) && Enabled(gen, s, LoadNamespace(ns, ids, lost))
    ensures Sound(gen, Apply(gen, s, LoadNamespace(ns, ids, lost)))
  {
    var v, m := Seen(s.vsd, lost), s.agent.value;
    LoadedAccounts(gen, v, m, ns, ids);
    LoadedAgrees(gen, v, m, ns, ids);
  }

  lemma LoadedConserves(v: Vsd, m: Memory, m': Memory, ids: set<nat>)
    requires Balanced(v, m) && PendingPlaced(m) && m'.pending == m.pending && m'.departed == m.departed
    requires m'.known.Keys == m.known.Keys + ids && forall id :: id in m.known ==> m'.known[id] == m.known[id]
    requires forall id :: id in ids ==> id !in m.known && m'.known[id].used == Addrs(v, id)
    ensures Balanced(v, m')
  {
  }

  lemma LosingBreaks(gen: map<int, Net>, s: State, ns: string, ids: set<nat>, lost: set<PodKey>)
    requires Enabled(gen, s, LoadNamespace(ns, ids, lost)) && NoDuplicateAddress(s.vsd) && !AllListed(s.vsd, ids, lost)
    ensures !Inv(gen, Apply(gen, s, LoadNamespace(ns, ids, lost)))
  {
    var p :| p in lost && p in s.vsd.containers && s.vsd.containers[p].subnet in ids;
    LostAddr(s.vsd, lost, p);
  }

  lemma LoadedIsBalanced(gen: map<int, Net>, v: Vsd, m: Memory, ns: string, ids: set<nat>, lost: set<PodKey>)
    requires Balanced(v, m) && PendingPlaced(m) && KnownAgrees(gen, v, m) && ns !in m.loaded
    requires ids <= SubnetsOf(v, ns) && AllListed(v, ids, lost)
    ensures Balanced(v, Loaded(Seen(v, lost), m, ns, ids))
  {
    var m' := Loaded(Seen(v, lost), m, ns, ids);
    forall id | id in ids
      ensures id !in m.known && m'.known[id].used == Addrs(v, id)
    {
      SeenAddrs(v, lost, id);
    }
    LoadedConserves(v, m, m', ids);
  }

  /** Loading keeps the invariant exactly when no container of a loaded subnet is missing. It
      does not matter which subnets are loaded. */
  lemma LoadKeepsIff(gen: map<int, Net>, s: State, ns: string, ids: set<nat>, lost: set<PodKey>)
    requires Inv(gen, s) && Enabled(gen, s, LoadNamespace(ns, ids, lost))
    ensures Inv(gen, Apply(gen, s, LoadNamespace(ns, ids, lost))) <==> AllListed(s.vsd, ids, lost)
  {
    if AllListed(s.vsd, ids, lost) {
      LoadIsSound(gen, s, ns, ids, lost);
      LoadedIsBalanced(gen, s.vsd, s.agent.value, ns, ids, lost);
    } else {
      LosingBreaks(gen, s, ns, ids, lost);
    }
  }

  // ---- addresses and subnets ----

  lemma SameKnownPrefixes(gen: map<int, Net>, m: Memory, m': Memory)
    requires PoolAccounted(gen, m) && m'.free == m.free && m.known.Keys <= m'.known.Keys
    requires forall id :: id in m.known ==> m'.known[id].net == m.known[id].net
    ensures PoolAccounted(gen, m')
  {
    forall a | a in gen
      ensures a in m'.free || exists id :: id in m'.known && m'.known[id].net.addr == a
    {
      if a !in m.free {
        var id :| id in m.known && m.known[id].net.addr == a;
        assert id in m'.known && m'.known[id].net.addr == a;
      }
    }
  }

  lemma ReserveIsSound(gen: map<int, Net>, s: State, id: nat, addr: int)
    requires Sound(gen, s) && Enabled(gen, s, Reserve(id, addr))
    ensures Sound(gen, Apply(gen, s, Reserve(id, addr)))
  {
    SameKnownPrefixes(gen, s.agent.value, Apply(gen, s, Reserve(id, addr)).agent.value);
  }

  lemma DepartedIsOn(m: Memory, r: Reservation)
    ensures r in m.departed <==> r.addr in DepartedOn(m, r.subnet)
  {
  }

  lemma ReserveKeeps(gen: map<int, Net>, s: State, id: nat, addr: int)
    requires Inv(gen, s) && Enabled(gen, s, Reserve(id, addr))
    ensures Inv(gen, Apply(gen, s, Reserve(id, addr)))
  {
    ReserveIsSound(gen, s, id, addr);
    DepartedIsOn(s.agent.value, Reservation(id, addr));
  }

  lemma NewSubnetStaysApart(v: Vsd, v': Vsd, id: nat, ns: string, net: Net)
    requires SubnetsApart(v) && id !in v.subnets && GoodNet(net) && Clear(v, net)
    requires v' == v.(subnets := v.subnets[id := VsdSubnet(ns, net)])
    ensures SubnetsApart(v')
  {
  }

  lemma NewSubnetIsEmpty(v: Vsd, v': Vsd, id: nat, ns: string, net: Net)
    requires ContainersPlaced(v) && id !in v.subnets && v' == v.(subnets := v.subnets[id := VsdSubnet(ns, net)])
    ensures ContainersPlaced(v')
    ensures Addrs(v', id) == {} && forall k :: Addrs(v', k) == Addrs(v, k)
  {
  }

  lemma AddSubnetIsSound(gen: map<int, Net>, s: State, id: nat, ns: string, net: Net, addr: int)
    requires Sound(gen, s) && Enabled(gen, s, AddSubnet(id, ns, net, addr))
    ensures Sound(gen, Apply(gen, s, AddSubnet(id, ns, net, addr)))
  {
    var s' := Apply(gen, s, AddSubnet(id, ns, net, addr));
    NewSubnetStaysApart(s.vsd, s'.vsd, id, ns, net);
    NewSubnetIsEmpty(s.vsd, s'.vsd, id, ns, net);
    SameKnownPrefixes(gen, s.agent.value, s'.agent.value);
  }

  lemma AddSubnetKeeps(gen: map<int, Net>, s: State, id: nat, ns: string, net: Net, addr: int)
    requires Inv(gen, s) && Enabled(gen, s, AddSubnet(id, ns, net, addr))
    ensures Inv(gen, Apply(gen, s, AddSubnet(id, ns, net, addr)))
  {
    var s' := Apply(gen, s, AddSubnet(id, ns, net, addr));
    AddSubnetIsSound(gen, s, id, ns, net, addr);
    NewSubnetIsEmpty(s.vsd, s'.vsd, id, ns, net);
    assert DepartedOn(s.agent.value, id) == {};
    assert Balanced(s'.vsd, s'.agent.value);
  }

  lemma AdminSubnetIsSound(gen: map<int, Net>, s: State, id: nat, ns: string, net: Net)
    requires Sound(gen, s) && Enabled(gen, s, AdminSubnet(id, ns, net))
    ensures Sound(gen, Apply(gen, s, AdminSubnet(id, ns, net)))
  {
    var s' := Apply(gen, s, AdminSubnet(id, ns, net));
    NewSubnetStaysApart(s.vsd, s'.vsd, id, ns, net);
    NewSubnetIsEmpty(s.vsd, s'.vsd, id, ns, net);
  }

  /** A subnet the agent is not told of does no harm: an administrator's, or one of the
      agent's own that the VSD made while reporting a failure. */
  lemma AdminSubnetKeeps(gen: map<int, Net>, s: State, id: nat, ns: string, net: Net)
    requires Inv(gen, s) && Enabled(gen, s, AdminSubnet(id, ns, net))
    ensures Inv(gen, Apply(gen, s, AdminSubnet(id, ns, net)))
  {
    AdminSubnetIsSound(gen, s, id, ns, net);
    NewSubnetIsEmpty(s.vsd, Apply(gen, s, AdminSubnet(id, ns, net)).vsd, id, ns, net);
  }

  // ---- containers ----

  /** An address reserved in its range belongs to no live container at all: not on that
      subnet, by conservation, and not on another, since subnets do not overlap. */
  lemma ReservedIsUnused(gen: map<int, Net>, v: Vsd, m: Memory, q: PodKey)
    requires VsdOk(v) && KnownAgrees(gen, v, m) && PendingPlaced(m) && Unheld(v, m) && m.pending.Some? && q in v.containers
    ensures v.containers[q].addr != m.pending.value.addr
  {
    var j, r := v.containers[q], m.pending.value;
    assert j.addr in Addrs(v, j.subnet);
    if j.addr == r.addr && j.subnet != r.subnet {
      DisjointHosts(v.subnets[j.subnet].net, v.subnets[r.subnet].net, r.addr);
    }
  }

  lemma AddrsWithOneMore(v: Vsd, v': Vsd, pod: PodKey, id: nat)
    requires pod !in v.containers && pod in v'.containers && v'.containers == v.containers[pod := v'.containers[pod]]
    ensures Addrs(v', id) == Addrs(v, id) + (if v'.containers[pod].subnet == id then {v'.containers[pod].addr} else {})
  {
    var i := v'.containers[pod];
    forall a
      ensures a in Addrs(v', id) <==> a in Addrs(v, id) || (i.subnet == id && a == i.addr)
    {
      if a in Addrs(v, id) {
        var p :| p in v.containers && v.containers[p].subnet == id && v.containers[p].addr == a;
        assert p in v'.containers && v'.containers[p] == v.containers[p];
      }
      if a in Addrs(v', id) {
        var p :| p in v'.containers && v'.containers[p].subnet == id && v'.containers[p].addr == a;
        assert p != pod ==> p in v.containers && v.containers[p] == v'.containers[p];
      }
      if i.subnet == id && a == i.addr {
        assert pod in v'.containers;
      }
    }
  }

  lemma NewContainerIsPlaced(gen: map<int, Net>, s: State, pod: PodKey)
    requires Sound(gen, s) && HasInHand(s, pod)
    ensures ContainersPlaced(s.vsd.(containers := s.vsd.containers[pod := InHand(s.agent.value)]))
  {
  }

  lemma NewContainerKeepsVsd(gen: map<int, Net>, s: State, pod: PodKey)
    requires Inv(gen, s) && HasInHand(s, pod)
    ensures VsdOk(s.vsd.(containers := s.vsd.containers[pod := InHand(s.agent.value)]))
  {
    NewContainerIsPlaced(gen, s, pod);
    forall q | q in s.vsd.containers
      ensures s.vsd.containers[q].addr != s.agent.value.pending.value.addr
    {
      ReservedIsUnused(gen, s.vsd, s.agent.value, q);
    }
  }

  lemma CommitIsSound(gen: map<int, Net>, s: State, pod: PodKey)
    requires Sound(gen, s) && Enabled(gen, s, Commit(pod))
    ensures Sound(gen, Apply(gen, s, Commit(pod)))
  {
    NewContainerIsPlaced(gen, s, pod);
    SameKnownPrefixes(gen, s.agent.value, Apply(gen, s, Commit(pod)).agent.value);
  }

  lemma CommittedIsBalanced(v: Vsd, v': Vsd, m: Memory, m': Memory, pod: PodKey)
    requires Balanced(v, m) && m.pending.Some? && m' == m.(pending := None) && pod !in v.containers
    requires pod in v'.containers && v' == v.(containers := v.containers[pod := v'.containers[pod]])
    requires v'.containers[pod].subnet == m.pending.value.subnet && v'.containers[pod].addr == m.pending.value.addr
    ensures Balanced(v', m')
  {
    forall id
      ensures Addrs(v', id) == Addrs(v, id) + PendingOn(m, id)
    {
      AddrsWithOneMore(v, v', pod, id);
    }
  }

  lemma CommitKeeps(gen: map<int, Net>, s: State, pod: PodKey)
    requires Inv(gen, s) && Enabled(gen, s, Commit(pod))
    ensures Inv(gen, Apply(gen, s, Commit(pod)))
  {
    var s' := Apply(gen, s, Commit(pod));
    CommitIsSound(gen, s, pod);
    NewContainerKeepsVsd(gen, s, pod);
    CommittedIsBalanced(s.vsd, s'.vsd, s.agent.value, s'.agent.value, pod);
  }

  lemma ReleaseIsSound(gen: map<int, Net>, s: State)
    requires Sound(gen, s) && Enabled(gen, s, Release)
    ensures Sound(gen, Apply(gen, s, Release))
  {
    SameKnownPrefixes(gen, s.agent.value, Apply(gen, s, Release).agent.value);
  }

  /** On the state, a lost create is the creation and then the release. */
  lemma LostCommitIsSound(gen: map<int, Net>, s: State, pod: PodKey)
    requires Sound(gen, s) && Enabled(gen, s, LostCommit(pod))
    ensures Sound(gen, Apply(gen, s, LostCommit(pod)))
  {
    NewContainerIsPlaced(gen, s, pod);
    assert Apply(gen, s, LostCommit(pod)) == Apply(gen, Made(s, pod), Release);
    ReleaseIsSound(gen, Made(s, pod));
  }

  /** A create that takes effect and reports a failure always breaks the invariant: the live
      container's address is no longer reserved. */
  lemma LostCommitBreaks(gen: map<int, Net>, s: State, pod: PodKey)
    requires Enabled(gen, s, LostCommit(pod))
    ensures !Inv(gen, Apply(gen, s, LostCommit(pod)))
  {
    var s', r := Apply(gen, s, LostCommit(pod)), s.agent.value.pending.value;
    assert s'.vsd.containers[pod].addr in Addrs(s'.vsd, r.subnet);
    assert r.addr !in s'.agent.value.known[r.subnet].used;
  }

  lemma ReleaseKeeps(gen: map<int, Net>, s: State)
    requires Inv(gen, s) && Enabled(gen, s, Release)
    ensures Inv(gen, Apply(gen, s, Release))
  {
    ReleaseIsSound(gen, s);
    var m, m' := s.agent.value, Apply(gen, s, Release).agent.value;
    forall id | id in m.known
      ensures m'.known[id].used == m.known[id].used - PendingOn(m, id)
    {
    }
    assert forall id :: DepartedOn(m', id) == DepartedOn(m, id);
    assert m.pending.value.addr !in DepartedOn(m, m.pending.value.subnet);
  }

  // ---- records leaving, addresses being freed ----

  lemma LeaveIsSound(gen: map<int, Net>, s: State, pod: PodKey)
    requires Sound(gen, s) && Enabled(gen, s, Leave(pod))
    ensures Sound(gen, Apply(gen, s, Leave(pod)))
  {
    if s.agent.Some? {
      SameKnownPrefixes(gen, s.agent.value, Apply(gen, s, Leave(pod)).agent.value);
    }
  }

  lemma AddrsAfterLeaving(v: Vsd, v': Vsd, pod: PodKey, id: nat)
    requires NoDuplicateAddress(v) && pod in v.containers && v' == v.(containers := Drop(v.containers, pod))
    ensures Addrs(v, id) == Addrs(v', id) + (if v.containers[pod].subnet == id then {v.containers[pod].addr} else {})
    ensures v.containers[pod].addr !in Addrs(v', id)
  {
    assert v.containers == v'.containers[pod := v.containers[pod]];
    AddrsWithOneMore(v', v, pod, id);
  }

  lemma DepartedWithOneMore(m: Memory, m': Memory, r: Reservation, id: nat)
    requires m'.departed == m.departed + {r}
    ensures DepartedOn(m', id) == DepartedOn(m, id) + (if r.subnet == id then {r.addr} else {})
  {
    forall a | a in DepartedOn(m, id)
      ensures a in DepartedOn(m', id)
    {
      assert Reservation(id, a) in m'.departed;
    }
    if r.subnet == id {
      assert r in m'.departed;
    }
  }

  lemma LeftIsBalanced(v: Vsd, v': Vsd, m: Memory, m': Memory, pod: PodKey)
    requires NoDuplicateAddress(v) && Balanced(v, m) && pod in v.containers
    requires v' == v.(containers := Drop(v.containers, pod))
    requires m' == m.(departed := m.departed + Left(m, v.containers[pod]))
    ensures Balanced(v', m')
  {
    var i := v.containers[pod];
    assert i.addr in Addrs(v, i.subnet);
    forall id
      ensures Addrs(v, id) == Addrs(v', id) + (if i.subnet == id then {i.addr} else {}) && i.addr !in Addrs(v', id)
    {
      AddrsAfterLeaving(v, v', pod, id);
    }
    if i.subnet in m.known {
      var r := Reservation(i.subnet, i.addr);
      assert Left(m, i) == {r};
      DepartedIsBalanced(v, v', m, m', r);
    } else {
      assert m' == m;
    }
  }

  lemma DepartedIsBalanced(v: Vsd, v': Vsd, m: Memory, m': Memory, r: Reservation)
    requires Balanced(v, m) && m' == m.(departed := m.departed + {r})
    requires r.subnet in m.known && r.addr in Addrs(v, r.subnet)
    requires forall id :: Addrs(v, id) == Addrs(v', id) + (if r.subnet == id then {r.addr} else {})
    requires r.addr !in Addrs(v', r.subnet)
    ensures Balanced(v', m')
  {
    forall id
      ensures DepartedOn(m', id) == DepartedOn(m, id) + (if r.subnet == id then {r.addr} else {})
    {
      DepartedWithOneMore(m, m', r, id);
    }
  }

  /** A record may leave the VSD at any time: its address stays reserved, as a departed one. */
  lemma LeaveKeeps(gen: map<int, Net>, s: State, pod: PodKey)
    requires Inv(gen, s) && Enabled(gen, s, Leave(pod))
    ensures Inv(gen, Apply(gen, s, Leave(pod)))
  {
    LeaveIsSound(gen, s, pod);
    var s' := Apply(gen, s, Leave(pod));
    if s.agent.Some? {
      LeftIsBalanced(s.vsd, s'.vsd, s.agent.value, s'.agent.value, pod);
    }
  }

  lemma FreeIsSound(gen: map<int, Net>, s: State, id: nat, addr: int)
    requires Sound(gen, s) && Enabled(gen, s, Free(id, addr))
    ensures Sound(gen, Apply(gen, s, Free(id, addr)))
  {
    SameKnownPrefixes(gen, s.agent.value, Apply(gen, s, Free(id, addr)).agent.value);
  }

  lemma DepartedWithOneLess(m: Memory, m': Memory, r: Reservation, id: nat)
    requires m'.departed == m.departed - {r}
    ensures DepartedOn(m', id) == DepartedOn(m, id) - (if r.subnet == id then {r.addr} else {})
  {
    forall a | a in DepartedOn(m, id) && (id != r.subnet || a != r.addr)
      ensures a in DepartedOn(m', id)
    {
      assert Reservation(id, a) in m'.departed;
    }
  }

  lemma FreeingHeldBreaks(gen: map<int, Net>, s: State, id: nat, addr: int)
    requires Enabled(gen, s, Free(id, addr)) && addr in Addrs(s.vsd, id)
    ensures !Inv(gen, Apply(gen, s, Free(id, addr)))
  {
    assert addr !in Apply(gen, s, Free(id, addr)).agent.value.known[id].used;
  }

  lemma FreedIsBalanced(v: Vsd, m: Memory, m': Memory, id: nat, addr: int)
    requires Balanced(v, m) && m.pending.None? && id in m.known && addr !in Addrs(v, id)
    requires m' == m.(known := Freed(m.known, id, addr), departed := m.departed - {Reservation(id, addr)})
    ensures Balanced(v, m')
  {
    forall k
      ensures DepartedOn(m', k) == DepartedOn(m, k) - (if id == k then {addr} else {})
    {
      DepartedWithOneLess(m, m', Reservation(id, addr), k);
    }
  }

  /** Freeing an address keeps the invariant exactly when no live container holds it. */
  lemma FreeKeepsIff(gen: map<int, Net>, s: State, id: nat, addr: int)
    requires Inv(gen, s) && Enabled(gen, s, Free(id, addr))
    ensures Inv(gen, Apply(gen, s, Free(id, addr))) <==> addr !in Addrs(s.vsd, id)
  {
    if addr in Addrs(s.vsd, id) {
      FreeingHeldBreaks(gen, s, id, addr);
    } else {
      FreeIsSound(gen, s, id, addr);
      FreedIsBalanced(s.vsd, s.agent.value, Apply(gen, s, Free(id, addr)).agent.value, id, addr);
    }
  }

  // ---- every step, every run ----

  lemma StepIsSound(gen: map<int, Net>, s: State, e: Event)
    requires Sound(gen, s) && Enabled(gen, s, e)
    ensures Sound(gen, Apply(gen, s, e))
  {
    match e
    case Boot =>
    case Crash =>
    case LoadNamespace(ns, ids, lost) => LoadIsSound(gen, s, ns, ids, lost);
    case Reserve(id, addr) => ReserveIsSound(gen, s, id, addr);
    case AddSubnet(id, ns, net, addr) => AddSubnetIsSound(gen, s, id, ns, net, addr);
    case Commit(pod) => CommitIsSound(gen, s, pod);
    case LostCommit(pod) => LostCommitIsSound(gen, s, pod);
    case Release => ReleaseIsSound(gen, s);
    case Leave(pod) => LeaveIsSound(gen, s, pod);
    case Free(id, addr) => FreeIsSound(gen, s, id, addr);
    case AdminSubnet(id, ns, net) => AdminSubnetIsSound(gen, s, id, ns, net);
  }

  lemma BootKeeps(gen: map<int, Net>, s: State)
    requires Inv(gen, s) && Enabled(gen, s, Boot)
    ensures Inv(gen, Apply(gen, s, Boot))
  {
  }

  /** A step keeps the invariant exactly when it is harmless. */
  lemma StepKeepsIff(gen: map<int, Net>, s: State, e: Event)
    requires Inv(gen, s) && Enabled(gen, s, e)
    ensures Inv(gen, Apply(gen, s, e)) <==> Harmless(s, e)
  {
    match e
    case Boot => BootKeeps(gen, s);
    case Crash =>
    case LoadNamespace(ns, ids, lost) => LoadKeepsIff(gen, s, ns, ids, lost);
    case Reserve(id, addr) => ReserveKeeps(gen, s, id, addr);
    case AddSubnet(id, ns, net, addr) => AddSubnetKeeps(gen, s, id, ns, net, addr);
    case Commit(pod) => CommitKeeps(gen, s, pod);
    case LostCommit(pod) => LostCommitBreaks(gen, s, pod);
    case Release => ReleaseKeeps(gen, s);
    case Leave(pod) => LeaveKeeps(gen, s, pod);
    case Free(id, addr) => FreeKeepsIff(gen, s, id, addr);
    case AdminSubnet(id, ns, net) => AdminSubnetKeeps(gen, s, id, ns, net);
  }

  lemma {:induction false} RunIsSound(gen: map<int, Net>, s: State, tr: seq<Event>, t: State)
    requires Sound(gen, s) && Run(gen, s, tr) == Some(t)
    ensures Sound(gen, t)
  {
    if tr != [] {
      var r := Run(gen, s, tr[..|tr| - 1]).value;
      RunIsSound(gen, s, tr[..|tr| - 1], r);
      StepIsSound(gen, r, tr[|tr| - 1]);
    }
  }

  /** Every step of the run is harmless when its turn comes. */
  ghost predicate HarmlessRun(gen: map<int, Net>, s: State, tr: seq<Event>) {
    tr == [] ||
    (var init := tr[..|tr| - 1];
     HarmlessRun(gen, s, init) && Run(gen, s, init).Some? && Harmless(Run(gen, s, init).value, tr[|tr| - 1]))
  }

  /** Every harmless run keeps the invariant. */
  lemma {:induction false} RunKeeps(gen: map<int, Net>, s: State, tr: seq<Event>, t: State)
    requires Inv(gen, s) && Run(gen, s, tr) == Some(t) && HarmlessRun(gen, s, tr)
    ensures Inv(gen, t)
  {
    if tr != [] {
      var r := Run(gen, s, tr[..|tr| - 1]).value;
      RunKeeps(gen, s, tr[..|tr| - 1], r);
      StepKeepsIff(gen, r, tr[|tr| - 1]);
    }
  }

  lemma HarmlessThen(gen: map<int, Net>, s: State, tr: seq<Event>, t: State, e: Event)
    requires HarmlessRun(gen, s, tr) && Run(gen, s, tr) == Some(t) && Harmless(t, e)
    ensures HarmlessRun(gen, s, tr + [e])
  {
    assert (tr + [e])[..|tr + [e]| - 1] == tr;
  }
}
