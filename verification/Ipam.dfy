// The address-management state shared by the agent and the VSD, as a labelled
// transition system. The agent's handlers (Agent.dfy) are proved to be runs of it;
// IpamSafety.dfy proves what every run keeps.
module Ipam {
  import opened Base
  import opened Cidr

  // ---- the VSD ----

  /** A VSD container is named <pod name>_<namespace>. */
  datatype PodKey = PodKey(name: string, ns: string)

  function ContainerName(pod: PodKey): string {
    pod.name + "_" + pod.ns
  }

  lemma ContainerNameIs()
    ensures ContainerName(PodKey("web", "prod")) == "web_prod"
  {
    assert "web" + "_" == "web_";
  }

  /** Its last underscore is the one between the two names. */
  lemma LastUnderscore(p: PodKey)
    requires '_' !in p.ns
    ensures var s := ContainerName(p);
            s[|p.name|] == '_' && (forall k :: |p.name| < k < |s| ==> s[k] != '_')
            && s[..|p.name|] == p.name && s[|p.name| + 1..] == p.ns
  {
    var s := ContainerName(p);
    forall k | |p.name| < k < |s|
      ensures s[k] != '_'
    {
      assert s[k] == p.ns[k - |p.name| - 1];
    }
  }

  /** Container names tell pods apart, as namespace names contain no underscore. */
  lemma ContainerNameInjective(p: PodKey, q: PodKey)
    requires '_' !in p.ns && '_' !in q.ns
    ensures ContainerName(p) == ContainerName(q) <==> p == q
  {
    LastUnderscore(p);
    LastUnderscore(q);
  }

  datatype VsdSubnet = VsdSubnet(ns: string, net: Net)

  /** A container's one interface: the subnet it is attached to, address and mask length. */
  datatype Iface = Iface(subnet: nat, addr: int, ones: int)

  datatype Vsd = Vsd(subnets: map<nat, VsdSubnet>, containers: map<PodKey, Iface>)

  // ---- the agent's memory ----

  /** A loaded subnet: its range's allocated addresses and its Customed flag. */
  datatype Entry = Entry(ns: string, net: Net, customed: bool, used: set<int>)

  /** An address taken from a range while its container is not (or no longer) in the VSD. */
  datatype Reservation = Reservation(subnet: nat, addr: int)

  /** departed is bookkeeping the program does not have: the addresses still reserved for
      containers whose record has left the VSD while this process was running. */
  datatype Memory = Memory(
    free: map<int, Net>,
    loaded: set<string>,
    known: map<nat, Entry>,
    pending: Option<Reservation>,
    departed: set<Reservation>
  )

  /** agent is None while no agent process runs. */
  datatype State = State(vsd: Vsd, agent: Option<Memory>)

  // ---- steps ----

  /** What becomes of a create request: done; refused; or done, but reported as failed. */
  datatype Answer = Fine | Refused | Lost

  datatype Event =
    | Boot                                                     // initCIDRs in a fresh process
    | Crash                                                    // the process dies, its memory is gone
    | LoadNamespace(ns: string, ids: set<nat>, lost: set<PodKey>) // NamespaceCreated: subnets listed, containers missing
    | Reserve(id: nat, addr: int)                              // Range.Allocate / AllocateNext
    | AddSubnet(id: nat, ns: string, net: Net, addr: int)      // new range, its first address, VSD subnet
    | Commit(pod: PodKey)                                      // container.Create succeeds
    | LostCommit(pod: PodKey)                                  // it succeeds but reports failure: Range.Release
    | Release                                                  // it is refused: Range.Release
    | Leave(pod: PodKey)                                       // a container's record leaves the VSD, at any time
    | Free(id: nat, addr: int)                                 // PodDeleted: Range.Release
    | AdminSubnet(id: nat, ns: string, net: Net)               // a subnet the agent is not told of

  function SubnetsOf(v: Vsd, ns: string): set<nat> {
    set id | id in v.subnets && v.subnets[id].ns == ns
  }

  /** The network addresses of the given subnets. */
  function Prefixes(v: Vsd, ids: set<nat>): set<int> {
    set id | id in ids && id in v.subnets :: v.subnets[id].net.addr
  }

  /** The addresses of the live containers on a subnet. */
  function Addrs(v: Vsd, id: nat): set<int> {
    set p | p in v.containers && v.containers[p].subnet == id :: v.containers[p].addr
  }

  /** The containers on a subnet. */
  function On(v: Vsd, id: nat): set<PodKey> {
    set p | p in v.containers && v.containers[p].subnet == id
  }

  predicate Clear(v: Vsd, net: Net) {
    forall id :: id in v.subnets ==> !Overlap(net, v.subnets[id].net)
  }

  /** Ranges shorter than /2 make ipallocator panic. */
  ghost predicate GoodNet(n: Net) {
    n.Valid() && n.ones >= 2
  }

  predicate Full(e: Entry) {
    e.net.Hosts() <= e.used
  }

  /** No non-custom subnet of the namespace has an address left. */
  predicate Exhausted(m: Memory, ns: string) {
    forall id :: id in m.known && m.known[id].ns == ns && !m.known[id].customed ==> Full(m.known[id])
  }

  ghost predicate Enabled(gen: map<int, Net>, s: State, e: Event) {
    match e
    case Boot => s.agent.None?
    case Crash => s.agent.Some?
    case LoadNamespace(ns, ids, _) =>
      s.agent.Some? && ns !in s.agent.value.loaded && ids <= SubnetsOf(s.vsd, ns)
    case Reserve(id, addr) =>
      && s.agent.Some? && s.agent.value.pending.None? && id in s.agent.value.known
      && addr in s.agent.value.known[id].net.Hosts() && addr !in s.agent.value.known[id].used
    case AddSubnet(id, ns, net, addr) =>
      && s.agent.Some? && s.agent.value.pending.None? && ns in s.agent.value.loaded
      && net.addr in gen && gen[net.addr] == net && addr in net.Hosts()
      && id !in s.vsd.subnets && Clear(s.vsd, net) && Exhausted(s.agent.value, ns)
    case Commit(pod) => HasInHand(s, pod)
    case LostCommit(pod) => HasInHand(s, pod)
    case Release =>
      && s.agent.Some? && s.agent.value.pending.Some?
      && s.agent.value.pending.value.subnet in s.agent.value.known
    case Leave(pod) => pod in s.vsd.containers
    case Free(id, _) => s.agent.Some? && s.agent.value.pending.None? && id in s.agent.value.known
    case AdminSubnet(id, ns, net) => id !in s.vsd.subnets && GoodNet(net) && Clear(s.vsd, net)
  }

  /** The agent holds an address for a new container of the pod. */
  ghost predicate HasInHand(s: State, pod: PodKey) {
    && s.agent.Some? && s.agent.value.pending.Some? && pod !in s.vsd.containers
    && s.agent.value.pending.value.subnet in s.agent.value.known
    && s.agent.value.known[s.agent.value.pending.value.subnet].ns == pod.ns
  }

  /** The container made with the address in hand. */
  function InHand(m: Memory): Iface
    requires m.pending.Some? && m.pending.value.subnet in m.known
  {
    Iface(m.pending.value.subnet, m.pending.value.addr, m.known[m.pending.value.subnet].net.ones)
  }

  function Freed(known: map<nat, Entry>, id: nat, addr: int): map<nat, Entry>
    requires id in known
  {
    known[id := known[id].(used := known[id].used - {addr})]
  }

  /** The address of a departing container, if the process has it reserved. */
  function Left(m: Memory, i: Iface): set<Reservation> {
    if i.subnet in m.known && i.addr in m.known[i.subnet].used then {Reservation(i.subnet, i.addr)} else {}
  }

  function Drop(containers: map<PodKey, Iface>, pod: PodKey): map<PodKey, Iface> {
    map p | p in containers && p != pod :: containers[p]
  }

  /** Zone.Subnets on one subnet: a prefix found among the free ones is not custom; the
      addresses of the subnet's containers are reserved. */
  function LoadedEntry(v: Vsd, free: map<int, Net>, id: nat): Entry
    requires id in v.subnets
  {
    Entry(v.subnets[id].ns, v.subnets[id].net, v.subnets[id].net.addr !in free, Addrs(v, id))
  }

  function LoadedEntries(v: Vsd, free: map<int, Net>, ids: set<nat>): map<nat, Entry>
    requires ids <= v.subnets.Keys
  {
    map id | id in ids :: LoadedEntry(v, free, id)
  }

  /** The VSD as it looks when some containers are missing from the interface lists. */
  function Seen(v: Vsd, lost: set<PodKey>): Vsd {
    v.(containers := map p | p in v.containers && p !in lost :: v.containers[p])
  }

  /** Loading a namespace: its subnets become known, their prefixes leave the pool. */
  function Loaded(v: Vsd, m: Memory, ns: string, ids: set<nat>): Memory
    requires ids <= v.subnets.Keys
  {
    m.(free := m.free - Prefixes(v, ids), loaded := m.loaded + {ns}, known := m.known + LoadedEntries(v, m.free, ids))
  }

  ghost function Apply(gen: map<int, Net>, s: State, e: Event): State
    requires Enabled(gen, s, e)
  {
    match e
    case Boot => s.(agent := Some(Memory(gen, {}, map[], None, {})))
    case Crash => s.(agent := None)
    case LoadNamespace(ns, ids, lost) => s.(agent := Some(Loaded(Seen(s.vsd, lost), s.agent.value, ns, ids)))
    case Reserve(id, addr) =>
      var m := s.agent.value;
      s.(agent := Some(m.(known := m.known[id := m.known[id].(used := m.known[id].used + {addr})],
                          pending := Some(Reservation(id, addr)))))
    case AddSubnet(id, ns, net, addr) =>
      var m := s.agent.value;
      State(s.vsd.(subnets := s.vsd.subnets[id := VsdSubnet(ns, net)]),
            Some(m.(known := m.known[id := Entry(ns, net, false, {addr})],
                    pending := Some(Reservation(id, addr)))))
    case Commit(pod) =>
      var m := s.agent.value;
      State(s.vsd.(containers := s.vsd.containers[pod := InHand(m)]), Some(m.(pending := None)))
    case LostCommit(pod) =>
      var m := s.agent.value;
      State(s.vsd.(containers := s.vsd.containers[pod := InHand(m)]),
            Some(m.(known := Freed(m.known, m.pending.value.subnet, m.pending.value.addr), pending := None)))
    case Release =>
      var m := s.agent.value;
      s.(agent := Some(m.(known := Freed(m.known, m.pending.value.subnet, m.pending.value.addr), pending := None)))
    case Leave(pod) =>
      var i := s.vsd.containers[pod];
      State(s.vsd.(containers := Drop(s.vsd.containers, pod)),
            match s.agent
            case None => None
            case Some(m) => Some(m.(departed := m.departed + Left(m, i))))
    case Free(id, addr) =>
      var m := s.agent.value;
      s.(agent := Some(m.(known := Freed(m.known, id, addr), departed := m.departed - {Reservation(id, addr)})))
    case AdminSubnet(id, ns, net) => s.(vsd := s.vsd.(subnets := s.vsd.subnets[id := VsdSubnet(ns, net)]))
  }

  // ---- runs ----

  /** The state after the event, if it can happen. */
  ghost function Next(gen: map<int, Net>, s: State, e: Event): Option<State> {
    if Enabled(gen, s, e) then Some(Apply(gen, s, e)) else None
  }

  /** The state after the events of tr, if each can happen when its turn comes. */
  ghost function Run(gen: map<int, Net>, s: State, tr: seq<Event>): Option<State> {
    if tr == [] then Some(s)
    else
      match Run(gen, s, tr[..|tr| - 1])
      case None => None
      case Some(t) => Next(gen, t, tr[|tr| - 1])
  }

  lemma Then(gen: map<int, Net>, s: State, tr: seq<Event>, s1: State, e: Event, s2: State)
    requires Run(gen, s, tr) == Some(s1) && Next(gen, s1, e) == Some(s2)
    ensures Run(gen, s, tr + [e]) == Some(s2)
  {
    assert (tr + [e])[..|tr + [e]| - 1] == tr;
  }

  lemma One(gen: map<int, Net>, s: State, e: Event, s': State)
    requires Next(gen, s, e) == Some(s')
    ensures Run(gen, s, [e]) == Some(s')
  {
    Then(gen, s, [], s, e, s');
    assert [] + [e] == [e];
  }

  lemma Two(gen: map<int, Net>, s: State, e1: Event, s1: State, e2: Event, s2: State)
    requires Next(gen, s, e1) == Some(s1) && Next(gen, s1, e2) == Some(s2)
    ensures Run(gen, s, [e1, e2]) == Some(s2)
  {
    One(gen, s, e1, s1);
    Then(gen, s, [e1], s1, e2, s2);
    assert [e1] + [e2] == [e1, e2];
  }

  lemma {:induction false} ThenRun(gen: map<int, Net>, s: State, tr: seq<Event>, s1: State, more: seq<Event>, s2: State)
    requires Run(gen, s, tr) == Some(s1) && Run(gen, s1, more) == Some(s2)
    ensures Run(gen, s, tr + more) == Some(s2)
  {
    if more == [] {
      assert tr + more == tr;
    } else {
      var init, last := more[..|more| - 1], more[|more| - 1];
      var t := Run(gen, s1, init).value;
      ThenRun(gen, s, tr, s1, init, t);
      Then(gen, s, tr + init, t, last, s2);
      assert tr + more == tr + init + [last];
    }
  }

  lemma ThenTwo(gen: map<int, Net>, s: State, tr: seq<Event>, e: Event, mid: State, last: Event, t: State)
    requires Run(gen, s, tr + [e]) == Some(mid) && Next(gen, mid, last) == Some(t)
    ensures Run(gen, s, tr + [e, last]) == Some(t)
  {
    Then(gen, s, tr + [e], mid, last, t);
    assert tr + [e] + [last] == tr + [e, last];
  }

  lemma ReserveStep(gen: map<int, Net>, s: State, id: nat, addr: int, s': State)
    requires s.agent.Some? && s.agent.value.pending.None? && id in s.agent.value.known
    requires var e := s.agent.value.known[id];
             addr in e.net.Hosts() && addr !in e.used
             && s' == s.(agent := Some(s.agent.value.(known := s.agent.value.known[id := e.(used := e.used + {addr})],
                                                      pending := Some(Reservation(id, addr)))))
    ensures Next(gen, s, Reserve(id, addr)) == Some(s')
  {
  }

  lemma ReleaseStep(gen: map<int, Net>, s: State, id: nat, addr: int, s': State)
    requires s.agent.Some? && s.agent.value.pending == Some(Reservation(id, addr)) && id in s.agent.value.known
    requires s' == s.(agent := Some(s.agent.value.(known := Freed(s.agent.value.known, id, addr), pending := None)))
    ensures Next(gen, s, Release) == Some(s')
  {
  }

  lemma CommitStep(gen: map<int, Net>, s: State, pod: PodKey, i: Iface, s': State)
    requires HasInHand(s, pod) && i == InHand(s.agent.value)
    requires s' == State(s.vsd.(containers := s.vsd.containers[pod := i]), Some(s.agent.value.(pending := None)))
    ensures Next(gen, s, Commit(pod)) == Some(s')
  {
  }

  /** A container made with the address in hand, before the agent does anything about it. */
  function Made(s: State, pod: PodKey): State
    requires s.agent.Some? && s.agent.value.pending.Some? && s.agent.value.pending.value.subnet in s.agent.value.known
  {
    s.(vsd := s.vsd.(containers := s.vsd.containers[pod := InHand(s.agent.value)]))
  }

  lemma LostCommitStep(gen: map<int, Net>, s: State, pod: PodKey, t: State)
    requires HasInHand(s, pod) && Next(gen, Made(s, pod), Release) == Some(t)
    ensures Next(gen, s, LostCommit(pod)) == Some(t)
  {
  }

  /** A container not made, or made without the agent being told, and then the release. */
  lemma SettledStep(gen: map<int, Net>, s: State, pod: PodKey, last: Event, mid: State, t: State)
    requires last.Release? || (last == LostCommit(pod) && HasInHand(s, pod))
    requires mid == (if last.LostCommit? then Made(s, pod) else s) && Next(gen, mid, Release) == Some(t)
    ensures Next(gen, s, last) == Some(t)
  {
    if last.LostCommit? {
      LostCommitStep(gen, s, pod, t);
    }
  }

  lemma FreeStep(gen: map<int, Net>, s: State, id: nat, addr: int, s': State)
    requires s.agent.Some? && s.agent.value.pending.None? && id in s.agent.value.known
    requires var m := s.agent.value;
             s' == s.(agent := Some(m.(known := Freed(m.known, id, addr), departed := m.departed - {Reservation(id, addr)})))
    ensures Next(gen, s, Free(id, addr)) == Some(s')
  {
  }

  lemma LoadStep(gen: map<int, Net>, s: State, ns: string, ids: set<nat>, lost: set<PodKey>, s': State)
    requires s.agent.Some? && ns !in s.agent.value.loaded && ids <= SubnetsOf(s.vsd, ns)
    requires s' == s.(agent := Some(Loaded(Seen(s.vsd, lost), s.agent.value, ns, ids)))
    ensures Next(gen, s, LoadNamespace(ns, ids, lost)) == Some(s')
  {
  }

  lemma AddSubnetStep(gen: map<int, Net>, s: State, id: nat, ns: string, net: Net, addr: int, s': State)
    requires s.agent.Some? && s.agent.value.pending.None? && ns in s.agent.value.loaded
    requires net.addr in gen && gen[net.addr] == net && addr in net.Hosts()
    requires id !in s.vsd.subnets && Clear(s.vsd, net) && Exhausted(s.agent.value, ns)
    requires s' == State(s.vsd.(subnets := s.vsd.subnets[id := VsdSubnet(ns, net)]),
                         Some(s.agent.value.(known := s.agent.value.known[id := Entry(ns, net, false, {addr})],
                                             pending := Some(Reservation(id, addr)))))
    ensures Next(gen, s, AddSubnet(id, ns, net, addr)) == Some(s')
  {
  }
}
