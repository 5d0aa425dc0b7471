// What loading namespaces yields, in a fresh process and with lists that may be cut at their
// first page: when a restart rebuilds the agent's memory, and when it ends in a duplicate.
module Recovery {
  import opened Base
  import opened Cidr
  import opened Ipam
  import opened IpamSafety
  import opened IpamTheorems

  // ---- what the lists yield ----

  /** One NamespaceCreated: the subnets that were listed, and the containers missing from
      their interface lists. */
  datatype Load = Load(ns: string, ids: set<nat>, lost: set<PodKey>)

  function LoadEvent(l: Load): Event {
    LoadNamespace(l.ns, l.ids, l.lost)
  }

  ghost predicate AreOn(v: Vsd, pods: set<PodKey>, ids: set<nat>) {
    forall p :: p in pods ==> p in v.containers && v.containers[p].subnet in ids
  }

  ghost predicate IsLoad(v: Vsd, l: Load) {
    l.ids <= SubnetsOf(v, l.ns) && AreOn(v, l.lost, l.ids)
  }

  /** An interface list: nothing if listing fails, else its first page. */
  ghost predicate Missing(v: Vsd, id: nat, broken: set<nat>, lost: set<PodKey>) {
    if id in broken then On(v, id) <= lost else IsPage(On(v, id) - lost, On(v, id))
  }

  ghost predicate AreLists(v: Vsd, ids: set<nat>, broken: set<nat>, lost: set<PodKey>) {
    AreOn(v, lost, ids) && forall id :: id in ids ==> Missing(v, id, broken, lost)
  }

  lemma ListKept(v: Vsd, id: nat, broken: set<nat>, lost: set<PodKey>, more: set<PodKey>)
    requires Missing(v, id, broken, lost) && On(v, id) !! more
    ensures Missing(v, id, broken, lost + more)
  {
    assert On(v, id) - (lost + more) == On(v, id) - lost;
  }

  lemma OneMoreList(v: Vsd, ids: set<nat>, broken: set<nat>, lost: set<PodKey>, id: nat, more: set<PodKey>)
    requires AreLists(v, ids, broken, lost) && id !in ids
    requires more <= On(v, id) && Missing(v, id, broken, more)
    ensures AreLists(v, ids + {id}, broken, lost + more)
  {
    forall k | k in ids
      ensures Missing(v, k, broken, lost + more)
    {
      ListKept(v, k, broken, lost, more);
    }
    ListKept(v, id, broken, more, lost);
    assert more + lost == lost + more;
  }

  /** The load the VSD's answers allow: the first page of the zone's subnets, or none if
      listing them fails, and for each an interface list. */
  ghost predicate Answered(v: Vsd, l: Load, listOk: bool, broken: set<nat>) {
    && (if listOk then IsPage(l.ids, SubnetsOf(v, l.ns)) else l.ids == {})
    && AreLists(v, l.ids, broken, l.lost)
  }

  /** Which lists those are: of the zone's subnets, fifty or all there are; of the containers on
      each of them, too, the others being missing -- or none if listing fails. */
  lemma AnsweredIs(v: Vsd, l: Load, listOk: bool, broken: set<nat>, id: nat)
    requires Answered(v, l, listOk, broken)
    ensures !listOk ==> l.ids == {}
    ensures var zone := set k | k in v.subnets && v.subnets[k].ns == l.ns;
            listOk ==> l.ids <= zone && |l.ids| == if |zone| <= 50 then |zone| else 50
    ensures var on := set p | p in v.containers && v.containers[p].subnet == id;
            && (id in l.ids && id !in broken ==> |on - l.lost| == if |on| <= 50 then |on| else 50)
            && (id in l.ids && id in broken ==> on <= l.lost)
  {
    var zone := set k | k in v.subnets && v.subnets[k].ns == l.ns;
    var on := set p | p in v.containers && v.containers[p].subnet == id;
    assert SubnetsOf(v, l.ns) == zone && On(v, id) == on;
    assert id in l.ids ==> Missing(v, id, broken, l.lost);
  }

  /** Every list request succeeds, and yields its first page. */
  ghost predicate FirstPages(v: Vsd, l: Load) {
    Answered(v, l, true, {})
  }

  /** The interface list of the subnet comes whole. */
  predicate ListedWhole(v: Vsd, id: nat, broken: set<nat>) {
    if id in broken then On(v, id) == {} else |On(v, id)| <= PAGE
  }

  lemma MissingNoneIff(v: Vsd, id: nat, broken: set<nat>, lost: set<PodKey>)
    requires Missing(v, id, broken, lost)
    ensures On(v, id) !! lost <==> ListedWhole(v, id, broken)
  {
    if id in broken {
      if p :| p in On(v, id) {
        assert p in lost;
      }
    } else {
      PageIsWholeIff(On(v, id) - lost, On(v, id));
    }
  }

  lemma AllListedIff(v: Vsd, l: Load, listOk: bool, broken: set<nat>)
    requires Answered(v, l, listOk, broken)
    ensures AllListed(v, l.ids, l.lost) <==> forall id :: id in l.ids ==> ListedWhole(v, id, broken)
  {
    forall id | id in l.ids
      ensures On(v, id) !! l.lost <==> ListedWhole(v, id, broken)
    {
      MissingNoneIff(v, id, broken, l.lost);
    }
    if id :| id in l.ids && !(On(v, id) !! l.lost) {
      var p :| p in On(v, id) && p in l.lost;
      assert v.containers[p].subnet == id;
    }
    forall p | p in l.lost
      ensures p in On(v, v.containers[p].subnet)
    {
    }
  }

  /** Fifty containers on the subnet at most; none, if listing its interfaces failed. */
  lemma WholeIff(v: Vsd, id: nat, broken: set<nat>)
    ensures id in broken ==> (ListedWhole(v, id, broken) <==> forall p :: p in v.containers ==> v.containers[p].subnet != id)
    ensures id !in broken ==>
              (ListedWhole(v, id, broken) <==> |set p | p in v.containers && v.containers[p].subnet == id| <= 50)
  {
    var on := set p | p in v.containers && v.containers[p].subnet == id;
    assert On(v, id) == on;
    assert on == {} <==> forall p :: p in v.containers ==> p !in on;
  }

  lemma ListedKeepsIff(gen: map<int, Net>, s: State, l: Load, listOk: bool, broken: set<nat>)
    requires Inv(gen, s) && Enabled(gen, s, LoadEvent(l)) && Answered(s.vsd, l, listOk, broken)
    ensures Inv(gen, Apply(gen, s, LoadEvent(l))) <==> forall id :: id in l.ids ==> ListedWhole(s.vsd, id, broken)
  {
    LoadKeepsIff(gen, s, l.ns, l.ids, l.lost);
    AllListedIff(s.vsd, l, listOk, broken);
  }

  /** Loading a namespace keeps the invariant exactly when every subnet that was listed has at
      most fifty containers -- none, if listing its interfaces failed. */
  lemma AnsweredKeepsIff(gen: map<int, Net>, s: State, l: Load, listOk: bool, broken: set<nat>)
    requires Inv(gen, s) && Enabled(gen, s, LoadEvent(l)) && Answered(s.vsd, l, listOk, broken)
    ensures Inv(gen, Apply(gen, s, LoadEvent(l))) <==>
            forall id :: id in l.ids ==>
              if id in broken then forall p :: p in s.vsd.containers ==> s.vsd.containers[p].subnet != id
              else |set p | p in s.vsd.containers && s.vsd.containers[p].subnet == id| <= 50
  {
    ListedKeepsIff(gen, s, l, listOk, broken);
    forall id | id in l.ids
      ensures ListedWhole(s.vsd, id, broken) <==>
              if id in broken then forall p :: p in s.vsd.containers ==> s.vsd.containers[p].subnet != id
              else |set p | p in s.vsd.containers && s.vsd.containers[p].subnet == id| <= 50
    {
      WholeIff(s.vsd, id, broken);
    }
  }

  /** A subnet beyond the first page of its zone stays unknown. Its prefix, if it is one of the
      cluster's, stays in the pool but cannot be obtained: it is not clear. So nothing is
      taken from it and nothing is made in its place. */
  lemma UnlistedIsOutOfReach(gen: map<int, Net>, s: State, l: Load, id: nat)
    requires Sound(gen, s) && Enabled(gen, s, LoadEvent(l)) && id in SubnetsOf(s.vsd, l.ns) && id !in l.ids
    ensures var t, net := Apply(gen, s, LoadEvent(l)), s.vsd.subnets[id].net;
            && id !in t.agent.value.known
            && (net.addr in t.agent.value.free <==> net.addr in gen)
            && (net.addr in gen ==> !Clear(t.vsd, gen[net.addr]))
  {
    var t := Apply(gen, s, LoadEvent(l));
    StepIsSound(gen, s, LoadEvent(l));
    UnloadedPrefixIsFree(gen, t.vsd, t.agent.value, id);
    var net := s.vsd.subnets[id].net;
    if net.addr in gen {
      SameAddressOverlaps(gen[net.addr], net);
    }
  }

  // ---- restart ----

  /** A crash, a restart and the given loads. */
  function Restart(loads: seq<Load>): seq<Event> {
    if loads == [] then [Crash, Boot] else Restart(loads[..|loads| - 1]) + [LoadEvent(loads[|loads| - 1])]
  }

  /** Each namespace is loaded once. */
  ghost predicate AreLoads(v: Vsd, loads: seq<Load>) {
    && (forall i :: 0 <= i < |loads| ==> IsLoad(v, loads[i]))
    && (forall i, j :: 0 <= i < j < |loads| ==> loads[i].ns != loads[j].ns)
  }

  function Names(loads: seq<Load>): set<string> {
    set l | l in loads :: l.ns
  }

  function Listed(loads: seq<Load>): set<nat> {
    set l, id | l in loads && id in l.ids :: id
  }

  function Lost(loads: seq<Load>): set<PodKey> {
    set l, p | l in loads && p in l.lost :: p
  }

  /** The memory of an agent that has loaded the given subnets, but not seen some containers. */
  ghost function Rebuilt(gen: map<int, Net>, v: Vsd, names: set<string>, ids: set<nat>, lost: set<PodKey>): Memory
    requires ids <= v.subnets.Keys
  {
    Memory(gen - Prefixes(v, ids), names, LoadedEntries(Seen(v, lost), gen, ids), None, {})
  }

  lemma {:induction false} ListedAreSubnets(v: Vsd, loads: seq<Load>)
    requires AreLoads(v, loads)
    ensures forall id :: id in Listed(loads) ==> id in v.subnets && v.subnets[id].ns in Names(loads)
    ensures forall p :: p in Lost(loads) ==> p in v.containers && v.containers[p].subnet in Listed(loads)
  {
    forall id | id in Listed(loads)
      ensures id in v.subnets && v.subnets[id].ns in Names(loads)
    {
      var l :| l in loads && id in l.ids;
      assert id in SubnetsOf(v, l.ns);
    }
    forall p | p in Lost(loads)
      ensures p in v.containers && v.containers[p].subnet in Listed(loads)
    {
      var l :| l in loads && p in l.lost;
      assert v.containers[p].subnet in l.ids;
    }
  }

  lemma OneMoreLoad(init: seq<Load>, l: Load)
    ensures Names(init + [l]) == Names(init) + {l.ns} && Listed(init + [l]) == Listed(init) + l.ids
    ensures Lost(init + [l]) == Lost(init) + l.lost
  {
    assert forall x :: x in init + [l] <==> x in init || x == l;
  }

  /** What is missing on other subnets does not show. */
  lemma SeenElsewhere(v: Vsd, lost: set<PodKey>, more: set<PodKey>, id: nat)
    requires On(v, id) !! more
    ensures Addrs(Seen(v, lost + more), id) == Addrs(Seen(v, lost), id)
  {
    forall a | a in Addrs(Seen(v, lost), id)
      ensures a in Addrs(Seen(v, lost + more), id)
    {
      var p :| p in Seen(v, lost).containers && v.containers[p].subnet == id && v.containers[p].addr == a;
      assert p in On(v, id) && p in Seen(v, lost + more).containers;
    }
  }

  lemma StillFree(gen: map<int, Net>, v: Vsd, ids: set<nat>, id: nat)
    requires SubnetsApart(v) && ids <= v.subnets.Keys && id in v.subnets && id !in ids
    ensures v.subnets[id].net.addr !in Prefixes(v, ids)
  {
    forall k | k in ids
      ensures v.subnets[k].net.addr != v.subnets[id].net.addr
    {
      DistinctAddresses(v, k, id);
    }
  }

  lemma EntriesUnion(gen: map<int, Net>, free: map<int, Net>, v: Vsd, lost: set<PodKey>, more: set<PodKey>,
                     a: set<nat>, b: set<nat>)
    requires a <= v.subnets.Keys && b <= v.subnets.Keys
    requires forall id :: id in a ==> On(v, id) !! more
    requires forall id :: id in b ==>
               On(v, id) !! lost && (v.subnets[id].net.addr in free <==> v.subnets[id].net.addr in gen)
    ensures LoadedEntries(Seen(v, lost), gen, a) + LoadedEntries(Seen(v, more), free, b)
            == LoadedEntries(Seen(v, lost + more), gen, a + b)
  {
    forall id | id in a
      ensures LoadedEntry(Seen(v, lost + more), gen, id) == LoadedEntry(Seen(v, lost), gen, id)
    {
      SeenElsewhere(v, lost, more, id);
    }
    forall id | id in b
      ensures LoadedEntry(Seen(v, lost + more), gen, id) == LoadedEntry(Seen(v, more), free, id)
    {
      SeenElsewhere(v, more, lost, id);
      assert more + lost == lost + more;
    }
  }

  lemma OnOthers(v: Vsd, ids: set<nat>, lost: set<PodKey>, id: nat)
    requires forall p :: p in lost ==> p in v.containers && v.containers[p].subnet in ids
    requires id !in ids
    ensures On(v, id) !! lost
  {
  }

  /** Loading one more namespace extends the rebuilt memory. */
  lemma LoadExtends(gen: map<int, Net>, v: Vsd, names: set<string>, ids: set<nat>, lost: set<PodKey>, l: Load)
    requires SubnetsApart(v) && IsLoad(v, l) && l.ns !in names
    requires forall id :: id in ids ==> id in v.subnets && v.subnets[id].ns in names
    requires forall p :: p in lost ==> p in v.containers && v.containers[p].subnet in ids
    ensures Loaded(Seen(v, l.lost), Rebuilt(gen, v, names, ids, lost), l.ns, l.ids)
            == Rebuilt(gen, v, names + {l.ns}, ids + l.ids, lost + l.lost)
  {
    var free := gen - Prefixes(v, ids);
    assert Prefixes(v, ids + l.ids) == Prefixes(v, ids) + Prefixes(v, l.ids);
    assert Prefixes(Seen(v, l.lost), l.ids) == Prefixes(v, l.ids);
    assert free - Prefixes(v, l.ids) == gen - Prefixes(v, ids + l.ids);
    forall id | id in ids
      ensures On(v, id) !! l.lost
    {
      OnOthers(v, l.ids, l.lost, id);
    }
    forall id | id in l.ids
      ensures On(v, id) !! lost && (v.subnets[id].net.addr in free <==> v.subnets[id].net.addr in gen)
    {
      OnOthers(v, ids, lost, id);
      StillFree(gen, v, ids, id);
    }
    EntriesUnion(gen, free, v, lost, l.lost, ids, l.ids);
  }

  lemma FreshProcess(gen: map<int, Net>, s: State)
    requires s.agent.Some?
    ensures Run(gen, s, [Crash, Boot]) == Some(State(s.vsd, Some(Rebuilt(gen, s.vsd, {}, {}, {}))))
  {
    var down := s.(agent := None);
    assert Prefixes(s.vsd, {}) == {} && LoadedEntries(Seen(s.vsd, {}), gen, {}) == map[] && gen - {} == gen;
    Two(gen, s, Crash, down, Boot, Apply(gen, down, Boot));
  }

  /** The memory after a restart is determined by the VSD and by what was listed, whatever the
      order of loading. */
  lemma {:induction false} RestartRebuilds(gen: map<int, Net>, s: State, loads: seq<Load>)
    requires SubnetsApart(s.vsd) && s.agent.Some? && AreLoads(s.vsd, loads)
    ensures Listed(loads) <= s.vsd.subnets.Keys
    ensures Run(gen, s, Restart(loads))
            == Some(State(s.vsd, Some(Rebuilt(gen, s.vsd, Names(loads), Listed(loads), Lost(loads)))))
  {
    ListedAreSubnets(s.vsd, loads);
    if loads == [] {
      FreshProcess(gen, s);
      assert Names(loads) == {} && Listed(loads) == {} && Lost(loads) == {};
    } else {
      var init, l := loads[..|loads| - 1], loads[|loads| - 1];
      assert loads == init + [l];
      RestartRebuilds(gen, s, init);
      ListedAreSubnets(s.vsd, init);
      OneMoreLoad(init, l);
      LoadExtends(gen, s.vsd, Names(init), Listed(init), Lost(init), l);
      NotNamedYet(init, l);
      var m := Rebuilt(gen, s.vsd, Names(init), Listed(init), Lost(init));
      var m' := Rebuilt(gen, s.vsd, Names(loads), Listed(loads), Lost(loads));
      Then(gen, s, Restart(init), State(s.vsd, Some(m)), LoadEvent(l), State(s.vsd, Some(m')));
    }
  }

  lemma NotNamedYet(init: seq<Load>, l: Load)
    requires forall i :: 0 <= i < |init| ==> init[i].ns != l.ns
    ensures l.ns !in Names(init)
  {
  }

  /** The addresses on a subnet that were not listed. */
  function Unseen(v: Vsd, id: nat, lost: set<PodKey>): set<int> {
    Addrs(v, id) - Addrs(Seen(v, lost), id)
  }

  lemma UsedSplits(v: Vsd, m: Memory, id: nat, lost: set<PodKey>)
    requires Balanced(v, m) && id in m.known
    ensures Addrs(Seen(v, lost), id) == m.known[id].used - PendingOn(m, id) - DepartedOn(m, id) - Unseen(v, id, lost)
  {
    SeenAddrs(v, lost, id);
    assert Addrs(v, id) !! PendingOn(m, id) + DepartedOn(m, id);
  }

  /** Recovery: from any state in order, crashing and loading, in any order, yields for every
      listed subnet the agent knew the same namespace, prefix and Customed flag and the same
      allocated set, less an address in hand at the crash, those of departed containers and
      those that were not listed. Subnets that were not listed are no longer known. */
  lemma RecoveryRefines(gen: map<int, Net>, s: State, loads: seq<Load>) returns (m': Memory)
    requires Inv(gen, s) && s.agent.Some? && AreLoads(s.vsd, loads)
    ensures Run(gen, s, Restart(loads)) == Some(State(s.vsd, Some(m'))) && m'.free.Keys <= gen.Keys
    ensures var m := s.agent.value;
            forall id :: id in m.known ==>
              && (id in m'.known <==> id in Listed(loads))
              && (id in m'.known ==>
                    && m.known[id].net.addr !in m'.free
                    && m'.known[id] == m.known[id].(used := m.known[id].used - PendingOn(m, id) - DepartedOn(m, id)
                                                            - Unseen(s.vsd, id, Lost(loads))))
  {
    RestartRebuilds(gen, s, loads);
    m' := Rebuilt(gen, s.vsd, Names(loads), Listed(loads), Lost(loads));
    var m := s.agent.value;
    forall id | id in m.known && id in Listed(loads)
      ensures Addrs(Seen(s.vsd, Lost(loads)), id)
              == m.known[id].used - PendingOn(m, id) - DepartedOn(m, id) - Unseen(s.vsd, id, Lost(loads))
      ensures m.known[id].net.addr in Prefixes(s.vsd, Listed(loads))
    {
      UsedSplits(s.vsd, m, id, Lost(loads));
    }
  }

  // ---- when a restart is complete ----

  /** Zone and subnets fit the first page of their lists. */
  predicate Fits(v: Vsd, ns: string) {
    |SubnetsOf(v, ns)| <= 50 && forall id :: id in SubnetsOf(v, ns) ==> |On(v, id)| <= 50
  }

  lemma FittingLoadIsWhole(v: Vsd, l: Load)
    requires FirstPages(v, l) && Fits(v, l.ns)
    ensures l.ids == SubnetsOf(v, l.ns) && l.lost == {}
  {
    PageIsWholeIff(l.ids, SubnetsOf(v, l.ns));
    AllListedIff(v, l, true, {});
  }

  /** If zones and subnets fit a page, recovery is exact: nothing known is forgotten, and no
      prefix is free that was not free before. */
  lemma RecoveryIsWhole(gen: map<int, Net>, s: State, loads: seq<Load>) returns (m': Memory)
    requires Inv(gen, s) && s.agent.Some? && AreLoads(s.vsd, loads) && s.agent.value.loaded <= Names(loads)
    requires forall l :: l in loads ==> FirstPages(s.vsd, l) && Fits(s.vsd, l.ns)
    ensures Run(gen, s, Restart(loads)) == Some(State(s.vsd, Some(m')))
    ensures var m := s.agent.value;
            && m'.free.Keys <= m.free.Keys
            && forall id :: id in m.known ==>
                 && id in m'.known
                 && m'.known[id] == m.known[id].(used := m.known[id].used - PendingOn(m, id) - DepartedOn(m, id))
  {
    m' := RecoveryRefines(gen, s, loads);
    NothingIsLost(s.vsd, loads);
    KnownIsListed(gen, s, loads);
    NothingBecomesFree(gen, s, m');
    LessNothing(s.vsd, s.agent.value, m', Lost(loads));
  }

  lemma LessNothing(v: Vsd, m: Memory, m': Memory, lost: set<PodKey>)
    requires forall id :: id in m.known ==>
               && id in m'.known && Unseen(v, id, lost) == {}
               && m'.known[id] == m.known[id].(used := m.known[id].used - PendingOn(m, id) - DepartedOn(m, id)
                                                       - Unseen(v, id, lost))
    ensures forall id :: id in m.known ==>
              && id in m'.known
              && m'.known[id] == m.known[id].(used := m.known[id].used - PendingOn(m, id) - DepartedOn(m, id))
  {
    forall id | id in m.known
      ensures m'.known[id] == m.known[id].(used := m.known[id].used - PendingOn(m, id) - DepartedOn(m, id))
    {
      var used := m.known[id].used - PendingOn(m, id) - DepartedOn(m, id);
      assert used - Unseen(v, id, lost) == used;
    }
  }

  lemma KnownIsListed(gen: map<int, Net>, s: State, loads: seq<Load>)
    requires Inv(gen, s) && s.agent.Some? && s.agent.value.loaded <= Names(loads) && Lost(loads) == {}
    requires forall id :: id in s.vsd.subnets && s.vsd.subnets[id].ns in Names(loads) ==> id in Listed(loads)
    ensures forall id :: id in s.agent.value.known ==> id in Listed(loads) && Unseen(s.vsd, id, Lost(loads)) == {}
  {
    forall id | id in s.agent.value.known
      ensures id in Listed(loads) && Unseen(s.vsd, id, Lost(loads)) == {}
    {
      SeenAddrs(s.vsd, Lost(loads), id);
    }
  }

  lemma NothingBecomesFree(gen: map<int, Net>, s: State, m': Memory)
    requires Inv(gen, s) && s.agent.Some? && m'.free.Keys <= gen.Keys
    requires forall id :: id in s.agent.value.known ==> s.agent.value.known[id].net.addr !in m'.free
    ensures m'.free.Keys <= s.agent.value.free.Keys
  {
    forall a | a in gen && a !in s.agent.value.free
      ensures a !in m'.free
    {
      var id :| id in s.agent.value.known && s.agent.value.known[id].net.addr == a;
    }
  }

  lemma NothingIsLost(v: Vsd, loads: seq<Load>)
    requires forall l :: l in loads ==> FirstPages(v, l) && Fits(v, l.ns)
    ensures Lost(loads) == {} && forall id :: id in v.subnets && v.subnets[id].ns in Names(loads) ==> id in Listed(loads)
  {
    forall l | l in loads
      ensures l.lost == {} && l.ids == SubnetsOf(v, l.ns)
    {
      FittingLoadIsWhole(v, l);
    }
    forall id | id in v.subnets && v.subnets[id].ns in Names(loads)
      ensures id in Listed(loads)
    {
      var l :| l in loads && l.ns == v.subnets[id].ns;
      assert id in l.ids;
    }
  }

  /** A restart whose list requests all succeed heals exactly when every subnet listed has at
      most fifty containers: from any sound state whose VSD has no duplicate yet -- after a
      lost create or a stale deletion, for example -- it then restores the invariant. */
  lemma RestartHealsIff(gen: map<int, Net>, s: State, loads: seq<Load>) returns (t: State)
    requires Sound(gen, s) && NoDuplicateAddress(s.vsd) && s.agent.Some?
    requires AreLoads(s.vsd, loads) && forall l :: l in loads ==> FirstPages(s.vsd, l)
    ensures Run(gen, s, Restart(loads)) == Some(t) && t.vsd == s.vsd
    ensures Inv(gen, t) <==> forall id :: id in Listed(loads) ==> |On(s.vsd, id)| <= 50
  {
    RestartRebuilds(gen, s, loads);
    t := State(s.vsd, Some(Rebuilt(gen, s.vsd, Names(loads), Listed(loads), Lost(loads))));
    RunIsSound(gen, s, Restart(loads), t);
    forall id | id in Listed(loads)
      ensures Addrs(Seen(s.vsd, Lost(loads)), id) == Addrs(s.vsd, id) <==> |On(s.vsd, id)| <= PAGE
    {
      SeenWholeIff(s.vsd, loads, id);
    }
    assert forall id :: PendingOn(t.agent.value, id) == {} && DepartedOn(t.agent.value, id) == {};
  }

  lemma SeenWholeIff(v: Vsd, loads: seq<Load>, id: nat)
    requires NoDuplicateAddress(v) && AreLoads(v, loads) && id in Listed(loads)
    requires forall l :: l in loads ==> FirstPages(v, l)
    ensures Addrs(Seen(v, Lost(loads)), id) == Addrs(v, id) <==> |On(v, id)| <= PAGE
  {
    var l :| l in loads && id in l.ids;
    OnlyItsLoad(v, loads, l, id);
    MissingNoneIff(v, id, {}, l.lost);
    SeenAddrs(v, Lost(loads), id);
    if p :| p in On(v, id) && p in l.lost {
      assert p in Lost(loads);
      LostAddr(v, Lost(loads), p);
    }
  }

  lemma OnlyItsLoad(v: Vsd, loads: seq<Load>, l: Load, id: nat)
    requires AreLoads(v, loads) && l in loads && id in l.ids
    ensures On(v, id) * Lost(loads) == On(v, id) * l.lost
  {
    forall p | p in On(v, id) && p in Lost(loads)
      ensures p in l.lost
    {
      var k :| k in loads && p in k.lost;
      assert id in SubnetsOf(v, k.ns) && id in SubnetsOf(v, l.ns);
      var i :| 0 <= i < |loads| && loads[i] == k;
      var j :| 0 <= j < |loads| && loads[j] == l;
    }
    assert forall p :: p in l.lost ==> p in Lost(loads);
  }

  // ---- more containers than fit a page ----

  /** What is missing from the interface list of a subnet: the pod, if there are too many. */
  lemma MissingWith(v: Vsd, id: nat, p: PodKey) returns (lost: set<PodKey>)
    requires |On(v, id)| > PAGE || p !in On(v, id)
    ensures lost <= On(v, id) && Missing(v, id, {}, lost) && (p in On(v, id) ==> p in lost)
  {
    var page;
    if p in On(v, id) {
      page := PageWithout(p, On(v, id));
    } else {
      page := PageWith({}, On(v, id));
    }
    lost := On(v, id) - page;
    assert On(v, id) - lost == page;
  }

  lemma AllLists(v: Vsd, ids: set<nat>, rest: set<PodKey>, id: nat, more: set<PodKey>)
    requires id in ids && AreLists(v, ids - {id}, {}, rest) && more <= On(v, id) && Missing(v, id, {}, more)
    ensures AreLists(v, ids, {}, rest + more)
  {
    OneMoreList(v, ids - {id}, {}, rest, id, more);
    assert ids - {id} + {id} == ids;
  }

  lemma {:induction false} ListsWithout(v: Vsd, ids: set<nat>, p: PodKey) returns (lost: set<PodKey>)
    requires p in v.containers && |On(v, v.containers[p].subnet)| > PAGE
    ensures AreLists(v, ids, {}, lost) && (v.containers[p].subnet in ids ==> p in lost)
  {
    lost := {};
    if ids != {} {
      var id :| id in ids;
      var rest := ListsWithout(v, ids - {id}, p);
      var more := MissingWith(v, id, p);
      lost := rest + more;
      AllLists(v, ids, rest, id, more);
      assert p in On(v, v.containers[p].subnet);
    }
  }

  /** From any state without a duplicate: if the subnet of a pod has more than fifty
      containers, a restart whose list requests all succeed, and two more steps, give its
      address to another pod. */
  lemma CrowdLeadsToDuplicate(gen: map<int, Net>, s: State, p: PodKey, q: PodKey)
    returns (l: Load, tr: seq<Event>, t: State)
    requires Sound(gen, s) && NoDuplicateAddress(s.vsd) && s.agent.Some?
    requires p in s.vsd.containers && |On(s.vsd, s.vsd.containers[p].subnet)| > 50
    requires q !in s.vsd.containers && q.ns == p.ns
    ensures FirstPages(s.vsd, l)
    ensures var i := s.vsd.containers[p]; tr == Restart([l]) + [Reserve(i.subnet, i.addr), Commit(q)]
    ensures Run(gen, s, tr) == Some(t) && p != q && p in t.vsd.containers && q in t.vsd.containers
    ensures t.vsd.containers[p].addr == t.vsd.containers[q].addr
  {
    l := LoadWithout(gen, s, p);
    RestartRebuilds(gen, s, [l]);
    var loaded := State(s.vsd, Some(Rebuilt(gen, s.vsd, Names([l]), Listed([l]), Lost([l]))));
    RunIsSound(gen, s, Restart([l]), loaded);
    assert l in [l] && p in Lost([l]) && s.vsd.containers[p].subnet in Listed([l]);
    LostAddr(s.vsd, Lost([l]), p);
    var rest;
    rest, t := ExposedLeadsToDuplicate(gen, loaded, p, q);
    tr := Restart([l]) + rest;
    ThenRun(gen, s, Restart([l]), loaded, rest, t);
  }

  lemma LoadWithout(gen: map<int, Net>, s: State, p: PodKey) returns (l: Load)
    requires Sound(gen, s) && p in s.vsd.containers && |On(s.vsd, s.vsd.containers[p].subnet)| > PAGE
    ensures FirstPages(s.vsd, l) && s.vsd.containers[p].subnet in l.ids && p in l.lost && l.ns == p.ns
  {
    var ids := PageWith({s.vsd.containers[p].subnet}, SubnetsOf(s.vsd, p.ns));
    var lost := ListsWithout(s.vsd, ids, p);
    l := Load(p.ns, ids, lost);
  }

  /** Pods with different addresses in a range are at most as many as its addresses. */
  lemma {:induction false} AtMostOneEach(v: Vsd, pods: set<PodKey>, lo: int, hi: int)
    requires NoDuplicateAddress(v) && lo <= hi
    requires forall p :: p in pods ==> p in v.containers && lo <= v.containers[p].addr < hi
    ensures |pods| <= hi - lo
    decreases hi - lo
  {
    if p :| p in pods && v.containers[p].addr == hi - 1 {
      AtMostOneEach(v, pods - {p}, lo, hi - 1);
    } else if lo < hi {
      AtMostOneEach(v, pods, lo, hi - 1);
    } else if p :| p in pods {
      assert false;
    }
  }

  /** Subnets with a mask of at least /27 always fit. */
  lemma SmallSubnetFits(v: Vsd, id: nat)
    requires VsdOk(v) && id in v.subnets && v.subnets[id].net.ones >= 27
    ensures |On(v, id)| <= 30
  {
    var net := v.subnets[id].net;
    Pow2Increases(32 - net.ones, 6);
    assert Pow2(5) == 32;
    if net.ones > 27 {
      Pow2Increases(32 - net.ones, 5);
    }
    var hi := if net.Size() < 2 then net.addr + 1 else net.addr + net.Size() - 1;
    AtMostOneEach(v, On(v, id), net.addr + 1, hi);
  }

  function Member(ns: string, k: nat): PodKey {
    PodKey(seq(k, _ => 'x'), ns)
  }

  /** Pods of one namespace with the addresses from 10.0.0.1 on. */
  function Crowd(ns: string, n: nat): map<PodKey, Iface> {
    if n == 0 then map[] else Crowd(ns, n - 1)[Member(ns, n - 1) := Iface(0, 0x0a00_0000 + n, 24)]
  }

  lemma {:induction false} CrowdSize(ns: string, n: nat)
    ensures |Crowd(ns, n).Keys| == n
    ensures forall p :: p in Crowd(ns, n) ==>
              |p.name| < n && p == Member(ns, |p.name|) && Crowd(ns, n)[p] == Iface(0, 0x0a00_0001 + |p.name|, 24)
  {
    if n > 0 {
      CrowdSize(ns, n - 1);
      assert Crowd(ns, n).Keys == Crowd(ns, n - 1).Keys + {Member(ns, n - 1)};
    }
  }

  /** The state after so many pods have been created on the one subnet 10.0.0.0/24. */
  ghost predicate Crowded(ns: string, n: nat, t: State) {
    && t.vsd == Vsd(map[0 := VsdSubnet(ns, TEN)], Crowd(ns, n)) && t.agent.Some? && t.agent.value.pending.None?
    && t.agent.value.known.Keys == {0} && t.agent.value.known[0].ns == ns && t.agent.value.known[0].net == TEN
    && forall a :: a in t.agent.value.known[0].used ==> a <= 0x0a00_0000 + n
  }

  lemma TenHasRoom(ns: string, n: nat, t: State)
    requires Crowded(ns, n, t) && n < 254
    ensures Enabled(map[], t, Reserve(0, 0x0a00_0001 + n)) && Member(ns, n) !in t.vsd.containers
  {
    Pow2Values();
    CrowdSize(ns, n);
  }

  lemma OneMorePod(s: State, tr: seq<Event>, t: State, ns: string, n: nat) returns (tr': seq<Event>, t': State)
    requires Run(map[], s, tr) == Some(t) && Crowded(ns, n, t) && n < 254
    ensures Run(map[], s, tr') == Some(t') && Crowded(ns, n + 1, t')
  {
    TenHasRoom(ns, n, t);
    t', tr' := More(map[], s, tr, t, Reserve(0, 0x0a00_0001 + n));
    t', tr' := More(map[], s, tr', t', Commit(Member(ns, n)));
  }

  lemma {:induction false} FillSubnet(ns: string, n: nat) returns (s: State, tr: seq<Event>, t: State)
    requires n <= 254
    ensures Start(map[], s) && Run(map[], s, tr) == Some(t) && Crowded(ns, n, t)
  {
    if n == 0 {
      s, tr, t := Begin(ns);
      t, tr := More(map[], s, tr, t, Release);
    } else {
      s, tr, t := FillSubnet(ns, n - 1);
      tr, t := OneMorePod(s, tr, t, ns, n - 1);
    }
  }

  /** Fifty-one pods are created on a subnet; then a restart and one more pod. */
  lemma FiftyOneDuplicate(ns: string)
    returns (s: State, tr: seq<Event>, mid: State, l: Load, addr: int, p: PodKey, q: PodKey, t: State)
    ensures Start(map[], s) && Run(map[], s, tr) == Some(mid) && |On(mid.vsd, 0)| == 51 && NoDuplicateAddress(mid.vsd)
    ensures FirstPages(mid.vsd, l) && Run(map[], mid, Restart([l]) + [Reserve(0, addr), Commit(q)]) == Some(t)
    ensures p != q && p in t.vsd.containers && q in t.vsd.containers
    ensures t.vsd.containers[p].addr == t.vsd.containers[q].addr
  {
    s, tr, mid := FillSubnet(ns, 51);
    CrowdSize(ns, 51);
    assert On(mid.vsd, 0) == Crowd(ns, 51).Keys;
    RunIsSound(map[], s, tr, mid);
    p :| p in mid.vsd.containers;
    q := Member(ns, 51);
    var more;
    l, more, t := CrowdLeadsToDuplicate(map[], mid, p, q);
    addr := mid.vsd.containers[p].addr;
  }
}
