// The running agent: k8s-client/pod.go, k8s-client/namespace.go and vsd-client/zone.go.
// Each handler is proved to be a run of the system in Ipam.dfy.
module Agent {
  import opened Base
  import opened Cidr
  import opened Ipam
  import opened IpamSafety
  import opened Recovery
  import opened Handlers
  import opened Services
  import Ipv4
  import Labels

  /** What the handlers read of a Kubernetes pod. */
  datatype Pod = Pod(key: PodKey, scheduled: bool, labels: map<string, string>)

  /** The answers given during one PodCreated: to the lookup, to the creation of a subnet for
      each prefix and of the container in cases 2 and 3, and by the CNI agent server. */
  datatype PodEnv = PodEnv(fetchOk: bool, subnet: Net -> Answer, custom: Answer, normal: Answer, putOk: bool)

  /** What happens during one PodDeleted: what the CNI agent server knows of the container, if
      it answers; whether the VSD answers the fallback and deletes the record; and whether the
      node's plugin removes the record meanwhile. */
  datatype DeleteEnv = DeleteEnv(cni: Option<Iface>, fetchOk: bool, deleted: bool, leaves: bool)

  /** (*Container, error): a container, (nil, nil), (nil, err); or the process dies. */
  datatype CreateResult = Created(iface: Iface) | Nothing | Failed | Died

  /** vsdclient.Subnet: a value that shares its range with the other copies of it. */
  datatype Subnet = Subnet(id: nat, ns: string, name: string, net: Net, range: Range, customed: bool)

  /** The namespaces' subnet lists, indexed by subnet and by range. */
  datatype Listing = Listing(namespaces: map<string, seq<Subnet>>, info: map<nat, Subnet>, owner: map<Range, nat>)

  /** Lists and indices describe each other; so no two subnets share a range. */
  ghost predicate Consistent(t: Listing) {
    && (forall ns, i :: ns in t.namespaces && 0 <= i < |t.namespaces[ns]| ==>
          var s := t.namespaces[ns][i]; s.id in t.info && t.info[s.id] == s && s.ns == ns)
    && (forall id :: id in t.info ==>
          var s := t.info[id]; s.id == id && s.ns in t.namespaces && s in t.namespaces[s.ns])
    && (forall id :: id in t.info ==>
          var s := t.info[id]; s.range.net == s.net && s.range in t.owner && t.owner[s.range] == id)
  }

  /** The tables with s appended to the list of its namespace. */
  ghost function Extended(t: Listing, s: Subnet): Listing {
    var list := if s.ns in t.namespaces then t.namespaces[s.ns] else [];
    Listing(t.namespaces[s.ns := list + [s]], t.info[s.id := s], t.owner[s.range := s.id])
  }

  /** The tables with at most one subnet appended. */
  ghost function GrownBy(t: Listing, added: Option<Subnet>): Listing {
    match added
    case None => t
    case Some(s) => Extended(t, s)
  }

  ghost predicate IsNew(t: Listing, s: Subnet) {
    s.ns in t.namespaces && s.id !in t.info && s.range.net == s.net && s.range !in t.owner
  }

  lemma ExtendedIsConsistent(t: Listing, s: Subnet)
    requires Consistent(t) && IsNew(t, s)
    ensures Consistent(Extended(t, s))
  {
  }

  ghost predicate Tells(e: Entry, s: Subnet)
    reads s.range
  {
    e == Entry(s.ns, s.net, s.customed, s.range.used)
  }

  /** known says of each loaded subnet what the subnet and its range say. */
  ghost predicate Describes(known: map<nat, Entry>, info: map<nat, Subnet>)
    reads set id | id in info :: info[id].range
  {
    known.Keys == info.Keys && forall id :: id in info ==> Tells(known[id], info[id])
  }

  lemma AppendKeepsDescribes(known: map<nat, Entry>, info: map<nat, Subnet>, s: Subnet)
    requires Describes(known, info) && s.id !in info
    ensures Describes(known[s.id := Entry(s.ns, s.net, s.customed, s.range.used)], info[s.id := s])
  {
  }

  lemma DescribesAgain(known: map<nat, Entry>, info: map<nat, Subnet>, s: Subnet)
    requires known.Keys == info.Keys && s.id in info && info[s.id] == s
    requires known[s.id] == Entry(s.ns, s.net, s.customed, known[s.id].used)
    requires forall id :: id in info && id != s.id ==> Tells(known[id], info[id])
    ensures Describes(known[s.id := known[s.id].(used := s.range.used)], info)
  {
  }

  class Agent {
    ghost const gen: map<int, Net>
    const vsd: VsdServer
    var freeCIDRs: map<int, Net>
    var namespaces: map<string, seq<Subnet>>
    var pods: map<PodKey, Iface>
    ghost var table: Listing                      // the same lists, indexed
    ghost var known: map<nat, Entry>              // what each loaded subnet looks like
    ghost var pending: Option<Reservation>        // the address in hand while a handler runs
    ghost var departed: set<Reservation>          // addresses of containers whose record has left

    ghost function Ranges(): set<Range>
      reads `table
    {
      table.owner.Keys
    }

    ghost predicate Valid()
      reads `namespaces, `table, `known, Ranges()
    {
      Consistent(table) && table.namespaces == namespaces && Describes(known, table.info)
    }

    /** What the search for a new subnet relies on. */
    ghost predicate PoolOk()
      reads `freeCIDRs, `known, vsd`subnets
    {
      && GoodPool(gen) && known.Keys <= vsd.subnets.Keys
      && forall a :: a in freeCIDRs ==> a in gen && freeCIDRs[a] == gen[a]
    }

    ghost predicate Has(s: Subnet)
      reads `table
    {
      s.id in table.info && table.info[s.id] == s
    }

    /** known is right about every subnet, except perhaps what is taken from this one. */
    ghost predicate DescribedBut(s: Subnet)
      requires Consistent(table) && Has(s)
      reads `table, `known, Ranges()
    {
      && known.Keys == table.info.Keys
      && (forall id :: id in table.info && id != s.id ==> Tells(known[id], table.info[id]))
      && known[s.id] == Entry(s.ns, s.net, s.customed, known[s.id].used)
    }

    ghost function View(): State
      reads `known, `freeCIDRs, `namespaces, `pending, `departed, vsd`subnets, vsd`containers
    {
      State(vsd.Contents(), Some(Memory(freeCIDRs, namespaces.Keys, known, pending, departed)))
    }

    /** What the use of existing ranges leaves alone. */
    ghost function Rest(): (map<int, Net>, map<string, seq<Subnet>>, Listing, map<nat, VsdSubnet>)
      reads `freeCIDRs, `namespaces, `table, vsd`subnets
    {
      (freeCIDRs, namespaces, table, vsd.subnets)
    }

    lemma Described(s: Subnet)
      requires Valid() && Has(s)
      ensures s.id in known && known[s.id] == Entry(s.ns, s.net, s.customed, s.range.used)
      ensures s.ns in namespaces && s.range.net == s.net
    {
    }

    /** A fresh process: the pool is full and nothing is loaded. */
    constructor (ghost gen: map<int, Net>, pool: map<int, Net>, vsd: VsdServer)
      requires pool == gen
      ensures Valid() && fresh(this) && this.gen == gen && this.vsd == vsd && Ranges() == {}
      ensures namespaces == map[] && pods == map[]
      ensures pending.None? && Next(gen, State(vsd.Contents(), None), Boot) == Some(View())
    {
      this.gen := gen;
      this.vsd := vsd;
      freeCIDRs := pool;
      namespaces, pods := map[], map[];
      table, known, pending, departed := Listing(map[], map[], map[]), map[], None, {};
      new;
      assert namespaces.Keys == {};
    }

    // ---- one step at a time ----

    /** Notes what has become of a subnet's range. */
    ghost method Note(s: Subnet, hand: Option<Reservation>)
      requires Consistent(table) && table.namespaces == namespaces && Has(s) && DescribedBut(s)
      modifies `known, `pending
      ensures Valid() && pending == hand && Rest() == old(Rest()) && pods == old(pods)
      ensures known == old(known)[s.id := old(known)[s.id].(used := s.range.used)]
      ensures View() == old(View()).(agent := Some(old(View()).agent.value.(known := known, pending := hand)))
    {
      DescribesAgain(known, table.info, s);
      known := known[s.id := known[s.id].(used := s.range.used)];
      pending := hand;
    }

    method TakeNext(s: Subnet) returns (addr: Option<int>)
      requires Valid() && Has(s) && pending.None?
      modifies `pending, `known, s.range`used
      ensures Valid() && Rest() == old(Rest()) && pods == old(pods)
      ensures addr.None? <==> Full(old(known)[s.id])
      ensures addr.None? ==> View() == old(View())
      ensures addr.Some? ==> pending == Some(Reservation(s.id, addr.value))
      ensures addr.Some? ==> Next(gen, old(View()), Reserve(s.id, addr.value)) == Some(View())
    {
      addr := s.range.AllocateNext();
      if addr.Some? {
        Note(s, Some(Reservation(s.id, addr.value)));
        ReserveStep(gen, old(View()), s.id, addr.value, View());
      }
    }

    method TakeGiven(s: Subnet, addr: int) returns (ok: bool)
      requires Valid() && Has(s) && pending.None?
      modifies `pending, `known, s.range`used
      ensures Valid() && Rest() == old(Rest()) && pods == old(pods)
      ensures ok <==> addr in s.net.Hosts() && addr !in old(known)[s.id].used
      ensures !ok ==> View() == old(View())
      ensures ok ==> pending == Some(Reservation(s.id, addr))
      ensures ok ==> Next(gen, old(View()), Reserve(s.id, addr)) == Some(View())
    {
      ok := s.range.Allocate(addr);
      if ok {
        Note(s, Some(Reservation(s.id, addr)));
        ReserveStep(gen, old(View()), s.id, addr, View());
      }
    }

    method GiveBack(s: Subnet, addr: int)
      requires Valid() && Has(s) && pending == Some(Reservation(s.id, addr))
      modifies `pending, `known, s.range`used
      ensures Valid() && pending.None? && Rest() == old(Rest()) && pods == old(pods)
      ensures Next(gen, old(View()), Release) == Some(View()) && s.range.used == old(s.range.used) - {addr}
    {
      s.range.Release(addr);
      Note(s, None);
      ReleaseStep(gen, old(View()), s.id, addr, View());
    }

    /** container.Create with the address in hand. ok is what the VSD tells. */
    method CreateContainer(pod: PodKey, s: Subnet, addr: int, answer: Answer) returns (ok: bool)
      requires Valid() && Has(s) && pending == Some(Reservation(s.id, addr)) && s.ns == pod.ns
      modifies `pending, vsd`containers
      ensures Valid() && (ok <==> Outcome(pod, old(vsd.containers), answer).Commit?)
      ensures Rest() == old(Rest()) && pods == old(pods)
      ensures ok ==> pending.None? && Next(gen, old(View()), Commit(pod)) == Some(View())
      ensures !ok ==> View() == if Outcome(pod, old(vsd.containers), answer).LostCommit? then Made(old(View()), pod)
                                else old(View())
      ensures vsd.containers == if Makes(Outcome(pod, old(vsd.containers), answer), pod)
                                then old(vsd.containers)[pod := Iface(s.id, addr, s.net.ones)] else old(vsd.containers)
      ensures !answer.Refused? ==> pod in vsd.containers
      ensures ok ==> vsd.containers[pod] == Iface(s.id, addr, s.net.ones)
    {
      ok := vsd.CreateContainer(pod, Iface(s.id, addr, s.net.ones), answer);
      if ok {
        pending := None;
        CommitStep(gen, old(View()), pod, Iface(s.id, addr, s.net.ones), View());
      }
    }

    /** Replacing the list of a namespace. */
    method Store(ns: string, nssubnets: seq<Subnet>, ghost t: Listing, ghost k: map<nat, Entry>)
      requires Consistent(t) && t.namespaces == namespaces[ns := nssubnets] && Describes(k, t.info)
      modifies `namespaces, `table, `known
      ensures Valid() && namespaces == old(namespaces)[ns := nssubnets] && known == k && table == t
    {
      namespaces := namespaces[ns := nssubnets];
      table, known := t, k;
    }

    /** Appending a new subnet to its namespace. */
    method Install(s: Subnet, addr: int)
      requires Valid() && IsNew(table, s)
      requires s.range.used == {addr}
      modifies `namespaces, `table, `known, `pending
      ensures Valid() && table == Extended(old(table), s) && pending == Some(Reservation(s.id, addr))
      ensures namespaces.Keys == old(namespaces.Keys)
      ensures known == old(known)[s.id := Entry(s.ns, s.net, s.customed, {addr})]
    {
      pending := Some(Reservation(s.id, addr));
      ExtendedIsConsistent(table, s);
      AppendKeepsDescribes(known, table.info, s);
      Store(s.ns, namespaces[s.ns] + [s], Extended(table, s), known[s.id := Entry(s.ns, s.net, s.customed, {addr})]);
    }

    /** AddSubnet on the VSD and, if it tells of success, in the namespace. A subnet made while
        reporting a failure is none of the agent's. */
    method Grow(ns: string, net: Net, range: Range, addr: int, answer: Answer)
      returns (r: Option<Subnet>, ghost made: Option<nat>)
      requires Valid() && PoolOk() && pending.None? && ns in namespaces && net.addr in gen && gen[net.addr] == net
      requires range.net == net && range.used == {addr} && addr in net.Hosts() && range !in table.owner
      requires Exhausted(View().agent.value, ns)
      modifies `namespaces, `table, `known, `pending, vsd`subnets, vsd`names
      ensures Valid() && (made.Some? <==> !answer.Refused? && Clear(old(vsd.Contents()), net))
      ensures r.Some? <==> made.Some? && answer.Fine?
      ensures r.None? ==> Strayed(old(View()), ns, net, made, View()) && table == old(table) && pending.None?
      ensures r.Some? ==>
                && r.value == Subnet(made.value, ns, SubnetName(ns, |old(namespaces)[ns]|), net, range, false)
                && made.value in vsd.names && vsd.names[made.value] == r.value.name
                && table == Extended(old(table), r.value)
                && pending == Some(Reservation(r.value.id, addr))
                && Next(gen, old(View()), AddSubnet(r.value.id, ns, net, addr)) == Some(View())
    {
      var name := SubnetName(ns, |namespaces[ns]|);
      var id;
      id, made := vsd.CreateSubnet(ns, name, net, answer);
      if id.None? {
        r := None;
      } else {
        var s := Subnet(id.value, ns, name, net, range, false);
        Install(s, addr);
        AddSubnetStep(gen, old(View()), s.id, ns, net, addr, View());
        r := Some(s);
      }
    }

    /** One round of case3create's loop over FreeCIDRs: a range for the prefix, an address
        from it, then the VSD subnet. */
    method TryPrefix(ns: string, net: Net, answer: Answer) returns (r: Option<(Subnet, int)>, ghost made: Option<nat>)
      requires Valid() && PoolOk() && pending.None? && ns in namespaces && net.addr in gen && gen[net.addr] == net
      requires Exhausted(View().agent.value, ns)
      modifies `namespaces, `table, `known, `pending, vsd`subnets, vsd`names
      ensures Valid() && (made.Some? <==> net.Hosts() != {} && !answer.Refused? && Clear(old(vsd.Contents()), net))
      ensures r.Some? <==> made.Some? && answer.Fine?
      ensures r.None? ==> Strayed(old(View()), ns, net, made, View()) && table == old(table) && pending.None?
      ensures r.Some? ==>
                && r.value.0.ns == ns && r.value.0.net == net && !r.value.0.customed && fresh(r.value.0.range)
                && Has(r.value.0) && pending == Some(Reservation(r.value.0.id, r.value.1))
                && table == Extended(old(table), r.value.0)
                && Next(gen, old(View()), AddSubnet(r.value.0.id, ns, net, r.value.1)) == Some(View())
    {
      var range := new Range(net);
      var allocd := range.AllocateNext();
      r, made := None, None;
      if allocd.Some? {
        var s;
        s, made := Grow(ns, net, range, allocd.value, answer);
        if s.None? {
          range.Release(allocd.value);
        } else {
          r := Some((s.value, allocd.value));
        }
      }
    }

    // ---- case 3: a pod without settings of its own ----

    lemma ListFullIsExhausted(ns: string)
      requires Valid() && ns in namespaces && FullUpTo(known, namespaces[ns], |namespaces[ns]|)
      ensures Exhausted(View().agent.value, ns)
    {
      forall id | id in known && known[id].ns == ns && !known[id].customed
        ensures Full(known[id])
      {
        var j :| 0 <= j < |namespaces[ns]| && namespaces[ns][j] == table.info[id];
        assert namespaces[ns][j].id == id;
      }
    }

    /** An address from the first non-custom subnet of the namespace that has one. */
    method ReserveExisting(ns: string) returns (r: Option<(Subnet, int)>)
      requires Valid() && pending.None? && ns in namespaces
      modifies `pending, `known, Ranges()`used
      ensures Valid() && Rest() == old(Rest()) && pods == old(pods) && vsd.containers == old(vsd.containers)
      ensures r.None? ==> View() == old(View())
      ensures r.None? <==> Exhausted(old(View()).agent.value, ns)
      ensures r.Some? ==> Has(r.value.0) && r.value.0.ns == ns && pending == Some(Reservation(r.value.0.id, r.value.1))
                          && FirstFit(old(known), namespaces[ns], r.value.0.id)
                          && Next(gen, old(View()), Reserve(r.value.0.id, r.value.1)) == Some(View())
    {
      r := None;
      var subnets := namespaces[ns];
      var i := 0;
      while i < |subnets|
        invariant 0 <= i <= |subnets|
        invariant Valid() && View() == old(View()) && Rest() == old(Rest()) && pods == old(pods)
        invariant FullUpTo(old(known), subnets, i)
      {
        var s := subnets[i];
        if !s.customed {
          Described(s);
          var allocd := TakeNext(s);
          if allocd.Some? {
            HasRoom(old(View()), s.id);
            r := Some((s, allocd.value));
            return;
          }
        }
        FullUpToNext(old(known), subnets, i);
        i := i + 1;
      }
      ListFullIsExhausted(ns);
    }

    /** The loop over FreeCIDRs, in whatever order the map yields the prefixes. Prefixes made
        subnets while reporting a failure stray; they overlap no other prefix of the pool. */
    method ReserveNew(ns: string, answers: Net -> Answer) returns (r: Option<(Subnet, int)>, ghost strays: seq<Event>)
      requires Valid() && PoolOk() && pending.None? && ns in namespaces
      requires Exhausted(View().agent.value, ns)
      modifies `namespaces, `table, `known, `pending, vsd`subnets, vsd`names
      ensures Valid() && LostSubnets(strays, gen, ns, answers)
      ensures r.None? <==> forall a :: a in freeCIDRs ==> !Obtainable(old(vsd.Contents()), freeCIDRs[a], answers)
      ensures r.None? ==> Run(gen, old(View()), strays) == Some(View()) && table == old(table) && pending.None?
      ensures r.Some? ==>
                && r.value.0.ns == ns && !r.value.0.customed && fresh(r.value.0.range)
                && Has(r.value.0) && pending == Some(Reservation(r.value.0.id, r.value.1))
                && table == Extended(old(table), r.value.0)
                && Run(gen, old(View()), strays + [AddSubnet(r.value.0.id, ns, r.value.0.net, r.value.1)]) == Some(View())
    {
      ghost var s0 := View();
      r, strays := None, [];
      var rest := freeCIDRs.Keys;
      while rest != {}
        invariant Valid() && PoolOk() && pending.None? && table == old(table) && freeCIDRs == old(freeCIDRs) && r.None?
        invariant Searching(gen, s0, View(), ns, answers, strays, rest)
        decreases rest
      {
        var prefix := Pick(rest);
        ghost var before, made := View(), None;
        r, made := TryPrefix(ns, freeCIDRs[prefix], answers(freeCIDRs[prefix]));
        if r.Some? {
          Then(gen, s0, strays, before, AddSubnet(r.value.0.id, ns, freeCIDRs[prefix], r.value.1), View());
          SearchEnds(gen, s0, before, ns, answers, strays, rest, prefix);
          return;
        }
        strays := SearchOn(gen, s0, before, ns, answers, strays, rest, prefix, made, View());
        rest := rest - {prefix};
      }
    }

    /** Create the container with the address in hand; unless the VSD tells of success, give
        the address back. */
    method Settle(pod: PodKey, s: Subnet, addr: int, answer: Answer) returns (ok: bool)
      requires Valid() && Has(s) && pending == Some(Reservation(s.id, addr)) && s.ns == pod.ns
      modifies `pending, `known, vsd`containers, s.range`used
      ensures Valid() && pending.None? && Rest() == old(Rest()) && pods == old(pods)
      ensures ok <==> Outcome(pod, old(vsd.containers), answer).Commit?
      ensures Next(gen, old(View()), Outcome(pod, old(vsd.containers), answer)) == Some(View())
      ensures !answer.Refused? ==> pod in vsd.containers
      ensures ok ==> vsd.containers[pod] == Iface(s.id, addr, s.net.ones)
      ensures ok <==> answer == Fine && pod !in old(vsd.containers)
      ensures s.range.used == if ok then old(s.range.used) else old(s.range.used) - {addr}
      ensures vsd.containers == if answer == Refused || pod in old(vsd.containers) then old(vsd.containers)
                                else old(vsd.containers)[pod := Iface(s.id, addr, s.net.ones)]
    {
      ok := CreateContainer(pod, s, addr, answer);
      if !ok {
        ghost var mid := View();
        GiveBack(s, addr);
        SettledStep(gen, old(View()), pod, Outcome(pod, old(vsd.containers), answer), mid, View());
      }
    }

    /** Adds a container to the cache of pods that are not scheduled yet. */
    method Keep(pod: PodKey, iface: Iface)
      requires Valid()
      modifies `pods
      ensures Valid() && View() == old(View()) && Rest() == old(Rest()) && vsd.containers == old(vsd.containers)
      ensures pods == old(pods)[pod := iface]
    {
      pods := pods[pod := iface];
    }

    /** The common end of cases 2 and 3: settle the address in hand, then submit the
        container to the pod's node or keep it until the pod is scheduled. */
    method Place(pod: Pod, s: Subnet, addr: int, answer: Answer, putOk: bool) returns (r: CreateResult)
      requires Valid() && Has(s) && pending == Some(Reservation(s.id, addr)) && s.ns == pod.key.ns
      modifies `pending, `known, `pods, vsd`containers, s.range`used
      ensures Valid() && pending.None? && Rest() == old(Rest())
      ensures Next(gen, old(View()), Outcome(pod.key, old(vsd.containers), answer)) == Some(View())
      ensures !answer.Refused? ==> pod.key in vsd.containers
      ensures r == Verdict(Outcome(pod.key, old(vsd.containers), answer), pod, putOk, vsd.containers)
      ensures !r.Died? && (r.Created? <==> Outcome(pod.key, old(vsd.containers), answer).Commit? && !pod.scheduled)
      ensures pods == Cached(old(pods), pod.key, r)
    {
      var ok := Settle(pod.key, s, addr, answer);
      if !ok {
        r := Failed;
      } else if pod.scheduled {
        r := if putOk then Nothing else Failed;
      } else {
        r := Created(Iface(s.id, addr, s.net.ones));
        Keep(pod.key, r.iface);
      }
    }

    /** The address search of case3create: an existing subnet first, then a new one. */
    method Obtain(ns: string, answers: Net -> Answer)
      returns (r: Option<(Subnet, int)>, ghost e: Event, ghost strays: seq<Event>, ghost added: Option<Subnet>)
      requires Valid() && PoolOk() && pending.None? && ns in namespaces
      modifies `namespaces, `table, `known, `pending, vsd`subnets, vsd`names, Ranges()`used
      ensures Valid() && pods == old(pods) && vsd.containers == old(vsd.containers)
      ensures r.None? <==> NoAddress(old(View()), ns, answers)
      ensures r.None? ==> Run(gen, old(View()), strays) == Some(View()) && pending.None?
      ensures LostSubnets(strays, gen, ns, answers)
      ensures r.Some? ==>
                && Has(r.value.0) && r.value.0.ns == ns
                && (r.value.0.range in old(Ranges()) || fresh(r.value.0.range))
                && pending == Some(Reservation(r.value.0.id, r.value.1))
                && Run(gen, old(View()), strays + [e]) == Some(View())
                && if e.Reserve? then added.None? && FirstFit(old(known), old(namespaces)[ns], e.id)
                                      && e.id in old(known) && !old(known)[e.id].customed
                   else added == Some(r.value.0)
      ensures e.Reserve? || e.AddSubnet?
      ensures table == GrownBy(old(table), added) && (added.Some? ==> fresh(added.value.range))
    {
      e, strays, added := Reserve(0, 0), [], None;
      r := ReserveExisting(ns);
      if r.Some? {
        e := Reserve(r.value.0.id, r.value.1);
        One(gen, old(View()), e, View());
        assert [] + [e] == [e];
      } else {
        r, strays := ReserveNew(ns, answers);
        if r.Some? {
          e, added := AddSubnet(r.value.0.id, ns, r.value.0.net, r.value.1), Some(r.value.0);
        }
      }
    }

    /** case3create: first fit among the namespace's non-custom subnets, and a new subnet only
        when all of them are full. The process dies exactly when in that case no prefix of
        the pool can be obtained. */
    method Case3Create(pod: Pod, env: PodEnv)
      returns (r: CreateResult, ghost e: Event, ghost strays: seq<Event>, ghost added: Option<Subnet>)
      requires Valid() && PoolOk() && pending.None? && pod.key.ns in namespaces
      modifies `namespaces, `table, `known, `pending, `pods, vsd`subnets, vsd`names, vsd`containers, Ranges()`used
      ensures Valid() && pending.None? && LostSubnets(strays, gen, pod.key.ns, env.subnet)
      ensures Run(gen, old(View()), strays + Attempt(NoAddress(old(View()), pod.key.ns, env.subnet), e,
                                                     Outcome(pod.key, old(vsd.containers), env.normal))) == Some(View())
      ensures r == Result3(NoAddress(old(View()), pod.key.ns, env.subnet),
                           Outcome(pod.key, old(vsd.containers), env.normal), pod, env.putOk, vsd.containers)
      ensures e.Reserve? || e.AddSubnet?
      ensures !r.Died? && e.Reserve? ==>
                && FirstFit(old(known), old(namespaces)[pod.key.ns], e.id)
                && e.id in old(known) && !old(known)[e.id].customed
      ensures !r.Died? && !env.normal.Refused? ==> pod.key in vsd.containers
      ensures pods == (if r.Created? then old(pods)[pod.key := r.iface] else old(pods))
      ensures table == GrownBy(old(table), added) && (added.Some? ==> fresh(added.value.range))
    {
      var found;
      found, e, strays, added := Obtain(pod.key.ns, env.subnet);
      if found.None? {
        r := Died;
        assert strays + [] == strays;
      } else {
        ghost var mid, last := View(), Outcome(pod.key, vsd.containers, env.normal);
        r := Place(pod, found.value.0, found.value.1, env.normal, env.putOk);
        ThenTwo(gen, old(View()), strays, e, mid, last, View());
      }
    }

    // ---- case 2: a pod with "nuage.io/" settings ----

    /** The loop over the settings: the custom subnet asked for, and the address. */
    method ChooseNetwork(settings: map<string, string>, subnets: seq<Subnet>)
      returns (csubnet: Option<Subnet>, cifaddr: Option<int>)
      ensures csubnet == WantedSubnet(settings, subnets) && cifaddr == WantedAddress(settings)
      ensures csubnet.Some? <==>
              && "Subnet" in settings
              && exists j :: 0 <= j < |subnets| && subnets[j].customed && subnets[j].name == settings["Subnet"]
      ensures csubnet.Some? ==>
                exists j :: 0 <= j < |subnets| && subnets[j] == csubnet.value
                            && subnets[j].customed && subnets[j].name == settings["Subnet"]
                            && forall i :: 0 <= i < j ==> !(subnets[i].customed && subnets[i].name == settings["Subnet"])
      ensures "IPAddress" !in settings ==> cifaddr == None
      ensures "IPAddress" in settings && (exists c :: c in settings["IPAddress"] && c != '.' && !('0' <= c <= '9')) ==>
                cifaddr == None
      ensures forall ip: Ipv4.IP :: "IPAddress" in settings && settings["IPAddress"] == Ipv4.Dotted(ip) ==>
                cifaddr == Some(Ipv4.ToU32(ip))
    {
      NetworkIs(settings, subnets);
      csubnet, cifaddr := None, None;
      var rest := settings.Keys;
      while rest != {}
        invariant rest <= settings.Keys
        invariant csubnet == if "Subnet" in rest then None else WantedSubnet(settings, subnets)
        invariant cifaddr == if "IPAddress" in rest then None else WantedAddress(settings)
        decreases rest
      {
        var key :| key in rest;
        rest := rest - {key};
        if key == "Subnet" {
          csubnet := FirstCustom(subnets, settings[key]);
        } else if key == "IPAddress" {
          cifaddr := ParseAddress(settings[key]);
        }
      }
    }

    method Take(s: Subnet, given: Option<int>) returns (addr: Option<int>)
      requires Valid() && Has(s) && pending.None?
      modifies `pending, `known, s.range`used
      ensures Valid() && Rest() == old(Rest()) && pods == old(pods)
      ensures addr.Some? <==> Available(old(known)[s.id], given)
      ensures addr.None? ==> View() == old(View())
      ensures addr.Some? ==> (given.Some? ==> addr == given) && pending == Some(Reservation(s.id, addr.value))
      ensures addr.Some? ==> Next(gen, old(View()), Reserve(s.id, addr.value)) == Some(View())
    {
      if given.None? {
        addr := TakeNext(s);
      } else {
        var ok := TakeGiven(s, given.value);
        addr := if ok then given else None;
      }
    }

    lemma Listed(ns: string, s: Subnet)
      requires Valid() && ns in namespaces && s in namespaces[ns]
      ensures Has(s) && s.ns == ns && s.id in known && known[s.id].net == s.net && known[s.id].customed == s.customed
    {
    }

    lemma ListedAll(ns: string)
      requires Valid() && ns in namespaces
      ensures forall s :: s in namespaces[ns] ==> s.id in known && known[s.id].customed == s.customed
    {
      forall s | s in namespaces[ns]
        ensures s.id in known && known[s.id].customed == s.customed
      {
        Listed(ns, s);
      }
    }

    /** An address of the chosen subnet, and the container with it. */
    method CreateOn(pod: Pod, s: Subnet, given: Option<int>, env: PodEnv) returns (r: CreateResult, ghost tr: seq<Event>)
      requires Valid() && Has(s) && s.ns == pod.key.ns && pending.None?
      modifies `known, `pending, `pods, vsd`containers, s.range`used
      ensures Valid() && Rest() == old(Rest()) && pending.None? && Run(gen, old(View()), tr) == Some(View())
      ensures !Available(old(known)[s.id], given) ==> tr == [] && r == Failed
      ensures Available(old(known)[s.id], given) ==>
                && |tr| == 2 && tr[0].Reserve? && tr[0].id == s.id && (given.Some? ==> tr[0].addr == given.value)
                && tr[1] == Outcome(pod.key, old(vsd.containers), env.custom)
                && r == Verdict(tr[1], pod, env.putOk, vsd.containers)
      ensures !r.Died? && (r.Created? <==> |tr| == 2 && tr[1].Commit? && !pod.scheduled)
      ensures pods == Cached(old(pods), pod.key, r) && (tr != [] && !env.custom.Refused? ==> pod.key in vsd.containers)
    {
      tr := [];
      var addr := Take(s, given);
      if addr.None? {
        r := Failed;
        return;
      }
      ghost var e, mid := Reserve(s.id, addr.value), View();
      ghost var last := Outcome(pod.key, vsd.containers, env.custom);
      r := Place(pod, s, addr.value, env.custom, env.putOk);
      Two(gen, old(View()), e, mid, last, View());
      tr := [e, last];
    }

    /** case2create: acts only on a custom subnet of the namespace found by name, and takes
        the given address, or any if none was given; without them nothing changes. */
    method Case2Create(pod: Pod, env: PodEnv) returns (r: CreateResult, ghost tr: seq<Event>, ghost order: seq<string>)
      requires Valid() && pending.None? && pod.key.ns in namespaces
      modifies `known, `pending, `pods, vsd`containers, Ranges()`used
      ensures Valid() && pending.None? && Run(gen, old(View()), tr) == Some(View())
      ensures Labels.IsOrder(pod.labels, order)
      ensures Case2Did(tr, Labels.Settings(pod.labels, order), old(namespaces)[pod.key.ns], old(known),
                       Outcome(pod.key, old(vsd.containers), env.custom))
      ensures tr != [] ==> tr[0].id in old(known) && old(known)[tr[0].id].customed
      ensures var settings, subnets := Labels.Settings(pod.labels, order), old(namespaces)[pod.key.ns];
              && (tr != [] ==>
                    && tr[0].Reserve? && "Subnet" in settings
                    && exists j :: 0 <= j < |subnets| && subnets[j].id == tr[0].id
                                   && subnets[j].customed && subnets[j].name == settings["Subnet"]
                                   && forall i :: 0 <= i < j ==>
                                        !(subnets[i].customed && subnets[i].name == settings["Subnet"]))
              && forall ip: Ipv4.IP ::
                   tr != [] && "IPAddress" in settings && settings["IPAddress"] == Ipv4.Dotted(ip) ==>
                     tr[0].addr == Ipv4.ToU32(ip)
      ensures Rest() == old(Rest())
      ensures tr != [] ==> r == Verdict(tr[1], pod, env.putOk, vsd.containers)
      ensures r.Created? <==> Served(tr, pod)
      ensures !r.Died?
      ensures pods == Cached(old(pods), pod.key, r) && (tr != [] && !env.custom.Refused? ==> pod.key in vsd.containers)
    {
      tr := [];
      var settings;
      settings := Labels.ParseLabels(pod.labels);
      order :| Labels.IsOrder(pod.labels, order) && settings == Labels.Settings(pod.labels, order);
      if settings == map[] {
        r := Nothing;
        return;
      }
      var csubnet, cifaddr := ChooseNetwork(settings, namespaces[pod.key.ns]);
      if csubnet.None? {
        r := Failed;
        return;
      }
      FirstCustomIsListed(namespaces[pod.key.ns], settings["Subnet"]);
      Listed(pod.key.ns, csubnet.value);
      r, tr := CreateOn(pod, csubnet.value, cifaddr, env);
    }

    // ---- PodCreated ----

    /** case1create: the VSD already has the pod's container. Under the invariant its address
        is reserved, since it was when the subnet was loaded: nothing needs to change here. */
    method Case1Create(pod: Pod, env: PodEnv) returns (r: CreateResult)
      ensures r.Failed? <==> !env.fetchOk
      ensures r.Created? <==> env.fetchOk && pod.key in vsd.containers
      ensures r.Created? ==> r.iface == vsd.containers[pod.key]
      ensures r.Created? && Inv(gen, View()) && r.iface.subnet in known ==> r.iface.addr in known[r.iface.subnet].used
      ensures !r.Died?
    {
      if !env.fetchOk {
        r := Failed;
      } else {
        var container := vsd.FetchContainer(pod.key);
        r := if container.Some? then Created(container.value) else Nothing;
        if r.Created? && Inv(gen, View()) && r.iface.subnet in known {
          assert r.iface.addr in Addrs(vsd.Contents(), r.iface.subnet);
        }
      }
    }

    lemma SoundGivesPool()
      requires Sound(gen, View())
      ensures PoolOk()
    {
    }

    /** Case 2, as the first part of a story. */
    method FirstCase2(pod: Pod, env: PodEnv) returns (r: CreateResult, ghost story: Story)
      requires Valid() && pending.None? && pod.key.ns in namespaces
      modifies `known, `pending, `pods, vsd`containers, Ranges()`used
      ensures Valid() && pending.None? && Rest() == old(Rest()) && pods == Cached(old(pods), pod.key, r)
      ensures Case2Over(gen, old(View()), View(), namespaces[pod.key.ns], pod, env, story)
      ensures r.Created? <==> Served(story.first, pod)
      ensures r.Created? ==> Concludes(gen, old(View()), View(), namespaces[pod.key.ns], pod, env, story, r)
    {
      ghost var first, order;
      ListedAll(pod.key.ns);
      r, first, order := Case2Create(pod, env);
      story := Story(order, first, [], [], Reserve(0, 0));
      if r.Created? {
        Case2Sufficed(gen, old(View()), View(), namespaces[pod.key.ns], pod, env, story, r);
      }
    }

    /** Case 3, as the second part of a story that began in s0. */
    method ThenCase3(pod: Pod, env: PodEnv, ghost s0: State, ghost begun: Story)
      returns (r: CreateResult, ghost story: Story, ghost added: Option<Subnet>)
      requires Valid() && PoolOk() && pending.None? && pod.key.ns in namespaces && !Served(begun.first, pod)
      requires Case2Over(gen, s0, View(), namespaces[pod.key.ns], pod, env, begun)
      modifies `namespaces, `table, `known, `pending, `pods, vsd`subnets, vsd`names, vsd`containers, Ranges()`used
      ensures Valid() && pending.None? && pods == Cached(old(pods), pod.key, r)
      ensures Concludes(gen, s0, View(), old(namespaces)[pod.key.ns], pod, env, story, r)
      ensures table == GrownBy(old(table), added) && (added.Some? ==> fresh(added.value.range))
    {
      ghost var mid, subnets := View(), namespaces[pod.key.ns];
      ghost var none, last := NoAddress(mid, pod.key.ns, env.subnet), Outcome(pod.key, vsd.containers, env.normal);
      ghost var e, strays;
      r, e, strays, added := Case3Create(pod, env);
      story := begun.(strays := strays, second := Attempt(none, e, last), taking := e);
      Combined(gen, s0, mid, View(), subnets, pod, env, begun, story, none, last, r);
    }

    /** Cases 2 and 3. Case 3 follows case 2 whenever that yields no container -- also for an
        already scheduled pod whose container case 2 did create. */
    method CreateContainerFor(pod: Pod, env: PodEnv)
      returns (r: CreateResult, ghost story: Story, ghost added: Option<Subnet>)
      requires Valid() && PoolOk() && pending.None? && pod.key.ns in namespaces
      modifies `namespaces, `table, `known, `pending, `pods, vsd`subnets, vsd`names, vsd`containers, Ranges()`used
      ensures Valid() && pending.None?
      ensures Concludes(gen, old(View()), View(), old(namespaces)[pod.key.ns], pod, env, story, r)
      ensures pods == Cached(old(pods), pod.key, r)
      ensures table == GrownBy(old(table), added) && (added.Some? ==> fresh(added.value.range))
    {
      added := None;
      r, story := FirstCase2(pod, env);
      if !r.Created? {
        r, story, added := ThenCase3(pod, env, old(View()), story);
      }
    }

    /** PodCreated. It does nothing while the namespace is not loaded or when the VSD already
        has the container. Otherwise case 2 acts on the pod's settings and, unless that yields
        a container, case 3 follows; the process dies exactly when case 3 finds no address.
        The invariant survives exactly when no container was made and reported as failed. */
    method PodCreated(pod: Pod, env: PodEnv) returns (died: bool, ghost story: Story, ghost added: Option<Subnet>)
      requires Valid() && pending.None? && Sound(gen, View())
      modifies `namespaces, `table, `known, `pending, `pods, vsd`subnets, vsd`names, vsd`containers, Ranges()`used
      ensures Valid() && pending.None? && Run(gen, old(View()), story.Steps()) == Some(View())
      ensures Inv(gen, old(View())) ==> (Inv(gen, View()) <==> !story.LostOne())
      ensures OthersKept(old(vsd.Contents()), vsd.Contents(), pod.key)
      ensures SubnetsKept(old(View()).agent.value, View().agent.value)
      ensures pod.key.ns !in old(namespaces) || (env.fetchOk && pod.key in old(vsd.containers)) ==>
                !died && story.Steps() == [] && !story.LostOne() && pods == old(pods)
      ensures pod.key.ns in old(namespaces) && !(env.fetchOk && pod.key in old(vsd.containers)) ==>
                && Told(story, gen, old(View()), old(namespaces)[pod.key.ns], pod, env)
                && (story.LostOne() <==> LosesOne(old(View()), Labels.Settings(pod.labels, story.order),
                                                  old(namespaces)[pod.key.ns], pod, env))
                && (var r := ResultOf(story, NoAddress(old(View()), pod.key.ns, env.subnet), old(View()), pod, env,
                                      vsd.containers);
                    died == r.Died? && pods == Cached(old(pods), pod.key, r))
                && (!died && (Served(story.first, pod) || !env.normal.Refused?) ==> pod.key in vsd.containers)
      ensures table == GrownBy(old(table), added) && (added.Some? ==> fresh(added.value.range))
      // what becomes of each attempt, by the answers
      ensures var s := old(View());
              story.first != [] ==>
                && |story.first| == 2
                && story.first[1] == if pod.key in s.vsd.containers || env.custom == Refused then Release
                                     else if env.custom == Fine then Commit(pod.key) else LostCommit(pod.key)
      ensures var s := old(View());
              story.second != [] ==>
                && |story.second| == 2
                && story.second[1] ==
                     if pod.key in s.vsd.containers || (story.first != [] && env.custom != Refused) || env.normal == Refused
                     then Release
                     else if env.normal == Fine then Commit(pod.key) else LostCommit(pod.key)
      // when the process dies
      ensures var s := old(View());
              died <==>
                && pod.key.ns in old(namespaces) && !(env.fetchOk && pod.key in old(vsd.containers))
                && !(|story.first| == 2 && story.first[1] == Commit(pod.key) && !pod.scheduled)
                && (forall id :: id in s.agent.value.known && s.agent.value.known[id].ns == pod.key.ns
                                 && !s.agent.value.known[id].customed ==>
                      s.agent.value.known[id].net.Hosts() <= s.agent.value.known[id].used)
                && forall a :: a in s.agent.value.free ==>
                     || s.agent.value.free[a].Hosts() == {} || env.subnet(s.agent.value.free[a]) != Fine
                     || exists id :: id in s.vsd.subnets && Overlap(s.agent.value.free[a], s.vsd.subnets[id].net)
      // what is kept for a pod that has no node yet: the container it was told of, nothing else
      ensures !died && !pod.scheduled && Commit(pod.key) in story.Steps() ==>
                pod.key in vsd.containers && pods == old(pods)[pod.key := vsd.containers[pod.key]]
      ensures died || pod.scheduled || Commit(pod.key) !in story.Steps() ==> pods == old(pods)
    {
      died, story, added := false, Story([], [], [], [], Reserve(0, 0)), None;
      if pod.key.ns !in namespaces {
        return;
      }
      var existing := Case1Create(pod, env);
      if existing.Created? {
        return;
      }
      SoundGivesPool();
      var r;
      r, story, added := CreateContainerFor(pod, env);
      died := r.Died?;
      ToldKeeps(gen, old(View()), View(), old(namespaces)[pod.key.ns], pod, env, story);
      LostOneIff(story, gen, old(View()), old(namespaces)[pod.key.ns], pod, env);
      AttemptsAre(story, gen, old(View()), old(namespaces)[pod.key.ns], pod, env);
      DeathIs(gen, old(View()), View(), old(namespaces)[pod.key.ns], pod, env, story, r);
      CacheIs(gen, old(View()), View(), old(namespaces)[pod.key.ns], pod, env, story, r, old(pods));
    }

    /** Between handlers each range has allocated exactly the addresses of the live containers
        on its subnet and those of the departed ones. */
    lemma RangesMatchContainers(ns: string, s: Subnet)
      requires Valid() && pending.None? && Inv(gen, View())
      requires ns in namespaces && s in namespaces[ns]
      ensures s.range.used == Addrs(vsd.Contents(), s.id) + DepartedOn(View().agent.value, s.id)
    {
      Listed(ns, s);
    }

    // ---- PodDeleted, PodUpdated ----

    /** The release loop: the first subnet of the namespace with the network address the
        container has under its netmask gets the address back. */
    method ReleaseIn(ns: string, iface: Iface) returns (ghost hit: Option<nat>)
      requires Valid() && pending.None? && ns in namespaces
      modifies `known, `pending, `departed, Ranges()`used
      ensures Valid() && pending.None? && Finds(old(View()).agent.value, ns, iface, hit)
      ensures hit.None? ==> View() == old(View())
      ensures hit.Some? ==> Next(gen, old(View()), Free(hit.value, iface.addr)) == Some(View())
    {
      hit := None;
      var sprefix := NetworkOf(iface);
      var subnets := namespaces[ns];
      var i := 0;
      while i < |subnets|
        invariant 0 <= i <= |subnets|
        invariant Valid() && pending.None? && View() == old(View())
        invariant forall j :: 0 <= j < i ==> Some(subnets[j].net.addr) != sprefix
      {
        var s := subnets[i];
        if Some(s.net.addr) == sprefix {
          Listed(ns, s);
          s.range.Release(iface.addr);
          Note(s, None);
          departed := departed - {Reservation(s.id, iface.addr)};
          FreeStep(gen, old(View()), s.id, iface.addr, View());
          hit := Some(s.id);
          return;
        }
        i := i + 1;
      }
      NothingFound(ns, iface);
    }

    lemma NothingFound(ns: string, iface: Iface)
      requires Valid() && ns in namespaces
      requires forall j :: 0 <= j < |namespaces[ns]| ==> Some(namespaces[ns][j].net.addr) != NetworkOf(iface)
      ensures Finds(View().agent.value, ns, iface, None)
    {
      forall id | id in known && known[id].ns == ns
        ensures NetworkOf(iface) != Some(known[id].net.addr)
      {
        assert table.info[id] in namespaces[ns];
      }
    }

    /** The container as the CNI agent or, failing that, the VSD gives it; in the latter case
        its record may be deleted. */
    method FindDeleted(pod: PodKey, env: DeleteEnv) returns (container: Option<Iface>)
      requires Valid()
      modifies vsd`containers, `departed
      ensures Valid() && container == FoundDeleted(pod, env, old(vsd.containers))
      ensures if env.cni.None? && container.Some? && env.deleted
              then Next(gen, old(View()), Leave(pod)) == Some(View()) && pod !in vsd.containers
              else View() == old(View())
    {
      container := env.cni;
      if container.None? {
        if env.fetchOk {
          container := vsd.FetchContainer(pod);
        }
        if container.Some? && env.deleted {
          RecordLeaves(pod);
        }
      }
    }

    /** A container's record leaves the VSD: the environment's doing, except for Delete. */
    method RecordLeaves(pod: PodKey)
      requires Valid() && pod in vsd.containers
      modifies vsd`containers, `departed
      ensures Valid() && pod !in vsd.containers && Next(gen, old(View()), Leave(pod)) == Some(View())
    {
      departed := departed + Left(View().agent.value, vsd.containers[pod]);
      vsd.RemoveContainer(pod);
    }

    /** The rest of a deletion that began in s0, once the container is found. */
    method ReleaseFor(pod: PodKey, env: DeleteEnv, iface: Iface, ghost s0: State) returns (ghost hit: Option<nat>)
      requires Valid() && pending.None? && FoundDeleted(pod, env, s0.vsd.containers) == Some(iface)
      requires if env.cni.None? && env.deleted then Next(gen, s0, Leave(pod)) == Some(View()) && pod !in vsd.containers
               else View() == s0
      modifies `known, `pending, `departed, vsd`containers, Ranges()`used
      ensures Valid() && pending.None? && s0.agent.Some? && Finds(s0.agent.value, pod.ns, iface, hit)
      ensures Run(gen, s0, DeletionSteps(pod, RecordGoes(pod, env, s0.vsd.containers), hit, iface.addr)) == Some(View())
    {
      hit := None;
      ghost var s1 := View();
      if pod.ns in namespaces {
        hit := ReleaseIn(pod.ns, iface);
      }
      ghost var s2 := View();
      if env.leaves && pod in vsd.containers {
        RecordLeaves(pod);
      }
      DeletionIsARun(gen, s0, s1, s2, View(), pod, env, hit, iface.addr);
    }

    /** PodDeleted. The process dies exactly when neither the CNI agent nor the VSD yields the
        container. Otherwise the record may leave, and the address the container is said to
        have leaves the range the release loop finds for it, and no other. The invariant
        survives exactly when no live container holds that address afterwards. */
    method PodDeleted(pod: PodKey, env: DeleteEnv) returns (died: bool, ghost tr: seq<Event>, ghost hit: Option<nat>)
      requires Valid() && pending.None? && Sound(gen, View())
      modifies `known, `pending, `departed, vsd`containers, Ranges()`used
      ensures Valid() && pending.None? && Run(gen, old(View()), tr) == Some(View())
      ensures died <==> FoundDeleted(pod, env, old(vsd.containers)).None?
      ensures died ==> tr == []
      ensures !died ==>
                && var iface := FoundDeleted(pod, env, old(vsd.containers)).value;
                && Finds(old(View()).agent.value, pod.ns, iface, hit)
                && tr == DeletionSteps(pod, RecordGoes(pod, env, old(vsd.containers)), hit, iface.addr)
                && (Inv(gen, old(View())) ==>
                      (Inv(gen, View()) <==> hit.None? || iface.addr !in Addrs(vsd.Contents(), hit.value)))
      // when it dies, when the record goes, and which address leaves which range
      ensures died <==> env.cni.None? && !(env.fetchOk && pod in old(vsd.containers))
      ensures var s := old(View());
              vsd.containers ==
              if !died && pod in s.vsd.containers && (env.leaves || (env.cni.None? && env.deleted))
              then s.vsd.containers - {pod} else s.vsd.containers
      ensures var s := old(View());
              !died ==>
                var before, after := s.agent.value.known, View().agent.value.known;
                var iface := if env.cni.Some? then env.cni.value else s.vsd.containers[pod];
                if hit.None? then after == before
                else
                  && hit.value in before && before[hit.value].ns == pod.ns
                  && after == before[hit.value := before[hit.value].(used := before[hit.value].used - {iface.addr})]
    {
      ghost var s0 := View();
      hit, tr := None, [];
      var container := FindDeleted(pod, env);
      if container.None? {
        return true, tr, hit;
      }
      died := false;
      hit := ReleaseFor(pod, env, container.value, s0);
      tr := DeletionSteps(pod, RecordGoes(pod, env, s0.vsd.containers), hit, container.value.addr);
      DeletionIs(gen, s0, pod, RecordGoes(pod, env, s0.vsd.containers), hit, container.value.addr, View());
      if Inv(gen, s0) {
        DeletionKeepsIff(gen, s0, pod, RecordGoes(pod, env, s0.vsd.containers), hit, container.value.addr, View());
      }
    }

    /** PodUpdated: once the pod is scheduled, its container is submitted and leaves the cache
        -- unless submitting fails. Address management is not touched. */
    method PodUpdated(pod: PodKey, wasScheduled: bool, isScheduled: bool, putOk: bool)
      returns (submitted: Option<Iface>, failed: bool)
      requires Valid()
      modifies `pods
      ensures Valid() && View() == old(View())
      ensures submitted == if !wasScheduled && isScheduled && pod in old(pods) && putOk then Some(old(pods)[pod])
                           else None
      ensures failed <==> !wasScheduled && isScheduled && pod in old(pods) && !putOk
      ensures pods == if submitted.Some? then old(pods) - {pod} else old(pods)
    {
      submitted, failed := None, false;
      if !wasScheduled && isScheduled && pod in pods {
        if !putOk {
          failed := true;
          return;
        }
        submitted := Some(pods[pod]);
        pods := pods - {pod};
      }
    }

    // ---- NamespaceCreated ----

    /** Reserves the addresses of a subnet's container interfaces. */
    static method ReserveAll(range: Range, cifaces: set<int>)
      requires range.used == {} && cifaces <= range.net.Hosts()
      modifies range`used
      ensures range.used == cifaces
    {
      var rest := cifaces;
      while rest != {}
        invariant rest <= cifaces && range.used == cifaces - rest
        decreases rest
      {
        var addr := Pick(rest);
        var ok := range.Allocate(addr);
        rest := rest - {addr};
      }
    }

    /** An interface list: its first page, or nothing if listing fails, an error that is dropped. */
    method Interfaces(id: nat, broken: set<nat>) returns (cifaces: set<int>, ghost lost: set<PodKey>)
      ensures lost <= On(vsd.Contents(), id) && Missing(vsd.Contents(), id, broken, lost)
      ensures cifaces == Addrs(Seen(vsd.Contents(), lost), id)
    {
      if id in broken {
        cifaces, lost := {}, On(vsd.Contents(), id);
        PageAddrs(vsd.Contents(), id, lost);
      } else {
        cifaces, lost := vsd.ListInterfaces(id);
      }
    }

    /** One round of Zone.Subnets. */
    method LoadSubnet(id: nat, broken: set<nat>) returns (s: Subnet, ghost lost: set<PodKey>)
      requires id in vsd.subnets && Addrs(vsd.Contents(), id) <= vsd.subnets[id].net.Hosts()
      modifies `freeCIDRs
      ensures freeCIDRs == old(freeCIDRs) - {vsd.subnets[id].net.addr}
      ensures s.id == id && fresh(s.range) && s.range.net == s.net && s.name == vsd.Name(id)
      ensures lost <= On(vsd.Contents(), id) && Missing(vsd.Contents(), id, broken, lost)
      ensures Tells(LoadedEntry(Seen(vsd.Contents(), lost), old(freeCIDRs), id), s)
    {
      var found := vsd.subnets[id];
      var customed := found.net.addr !in freeCIDRs;
      if !customed {
        freeCIDRs := freeCIDRs - {found.net.addr};
      }
      assert freeCIDRs == old(freeCIDRs) - {found.net.addr};
      var name := vsd.Name(id);
      var range := new Range(found.net);
      var cifaces;
      cifaces, lost := Interfaces(id, broken);
      SeenAddrs(vsd.Contents(), lost, id);
      ReserveAll(range, cifaces);
      s := Subnet(id, found.ns, name, found.net, range, customed);
    }

    /** The subnets have the names the VSD has for them. */
    ghost predicate Named(list: seq<Subnet>)
      reads vsd`names
    {
      forall i :: 0 <= i < |list| ==> list[i].name == vsd.Name(list[i].id)
    }

    /** The list and tables while a zone is being loaded: the subnets of l are in. */
    ghost predicate Loading(resp: seq<Subnet>, t: Listing, k: map<nat, Entry>, m: Memory, l: Load)
      requires l.ids <= vsd.subnets.Keys
      reads `freeCIDRs, `namespaces, vsd`subnets, vsd`containers, set id | id in t.info :: t.info[id].range
    {
      && Consistent(t) && t.namespaces == namespaces[l.ns := resp] && Describes(k, t.info)
      && var after := Loaded(Seen(vsd.Contents(), l.lost), m, l.ns, l.ids); freeCIDRs == after.free && k == after.known
    }

    lemma NothingLoaded(ns: string)
      requires Valid() && ns !in namespaces
      ensures Loading([], Listing(namespaces[ns := []], table.info, table.owner), known, View().agent.value,
                      Load(ns, {}, {}))
    {
      LoadNone(Seen(vsd.Contents(), {}), View().agent.value, ns);
    }

    method LoadNext(id: nat, resp: seq<Subnet>, ghost t: Listing, ghost k: map<nat, Entry>, ghost m: Memory,
                    ghost l: Load, broken: set<nat>)
      returns (resp': seq<Subnet>, ghost t': Listing, ghost k': map<nat, Entry>, ghost lost': set<PodKey>)
      requires l.ids <= SubnetsOf(vsd.Contents(), l.ns) && id in SubnetsOf(vsd.Contents(), l.ns) && id !in l.ids
      requires Loadable(vsd.Contents(), m.known, l.ns) && Loading(resp, t, k, m, l)
      requires AreLists(vsd.Contents(), l.ids, broken, l.lost)
      modifies `freeCIDRs
      ensures AreLists(vsd.Contents(), l.ids + {id}, broken, lost')
      ensures Loading(resp', t', k', m, Load(l.ns, l.ids + {id}, lost'))
      ensures fresh(t'.owner.Keys - t.owner.Keys)
      ensures exists s :: resp' == resp + [s] && s.name == vsd.Name(s.id)
    {
      ghost var v := vsd.Contents();
      var subnet;
      ghost var more;
      subnet, more := LoadSubnet(id, broken);
      OneMoreList(v, l.ids, broken, l.lost, id, more);
      LoadOneMore(v, m, l.ns, l.ids, l.lost, id, more);
      ExtendedIsConsistent(t, subnet);
      AppendKeepsDescribes(k, t.info, subnet);
      UpdateTwice(namespaces, l.ns, resp, resp + [subnet]);
      resp', t', lost' := resp + [subnet], Extended(t, subnet), l.lost + more;
      k' := k[id := LoadedEntry(Seen(v, more), old(freeCIDRs), id)];
    }

    /** The first i subnets of the list are loaded. */
    ghost predicate LoadedUpTo(sl: seq<nat>, i: nat, resp: seq<Subnet>, t: Listing, k: map<nat, Entry>, m: Memory,
                               l: Load, broken: set<nat>)
      requires i <= |sl|
      reads `freeCIDRs, `namespaces, vsd`subnets, vsd`containers, vsd`names, set id | id in t.info :: t.info[id].range
    {
      && l.ids == Elements(sl[..i]) && l.ids <= SubnetsOf(vsd.Contents(), l.ns)
      && Loading(resp, t, k, m, l) && AreLists(vsd.Contents(), l.ids, broken, l.lost)
    }

    method LoadAt(sl: seq<nat>, i: nat, resp: seq<Subnet>, ghost t: Listing, ghost k: map<nat, Entry>,
                  ghost m: Memory, ghost l: Load, broken: set<nat>)
      returns (resp': seq<Subnet>, ghost t': Listing, ghost k': map<nat, Entry>, ghost l': Load)
      requires Distinct(sl) && i < |sl| && Elements(sl) <= SubnetsOf(vsd.Contents(), l.ns)
      requires Loadable(vsd.Contents(), m.known, l.ns) && LoadedUpTo(sl, i, resp, t, k, m, l, broken)
      modifies `freeCIDRs
      ensures LoadedUpTo(sl, i + 1, resp', t', k', m, l', broken) && l'.ns == l.ns
      ensures exists s :: resp' == resp + [s] && s.name == vsd.Name(s.id)
      ensures fresh(t'.owner.Keys - t.owner.Keys)
    {
      ElementsNext(sl, i);
      assert sl[i] in Elements(sl);
      ghost var lost;
      resp', t', k', lost := LoadNext(sl[i], resp, t, k, m, l, broken);
      l' := Load(l.ns, Elements(sl[..i + 1]), lost);
    }

    lemma NoneLoaded(ns: string, sl: seq<nat>, broken: set<nat>)
      requires Valid() && ns !in namespaces
      ensures LoadedUpTo(sl, 0, [], Listing(namespaces[ns := []], table.info, table.owner), known, View().agent.value,
                         Load(ns, {}, {}), broken)
    {
      NothingLoaded(ns);
      assert Elements(sl[..0]) == {};
    }

    lemma AllLoaded(sl: seq<nat>, l: Load, broken: set<nat>)
      requires l.ids == Elements(sl[..|sl|]) && AreLists(vsd.Contents(), l.ids, broken, l.lost)
      requires IsPage(Elements(sl), SubnetsOf(vsd.Contents(), l.ns))
      ensures Answered(vsd.Contents(), l, true, broken)
    {
      assert sl[..|sl|] == sl;
    }

    /** The loop over the subnets listed. */
    method LoadAll(ns: string, sl: seq<nat>, broken: set<nat>)
      returns (resp: seq<Subnet>, ghost t: Listing, ghost k: map<nat, Entry>, ghost l: Load)
      requires Valid() && ns !in namespaces && Loadable(vsd.Contents(), known, ns)
      requires Distinct(sl) && Elements(sl) <= SubnetsOf(vsd.Contents(), ns)
      modifies `freeCIDRs
      ensures LoadedUpTo(sl, |sl|, resp, t, k, old(View()).agent.value, l, broken) && l.ns == ns && Named(resp)
      ensures fresh(t.owner.Keys - old(table).owner.Keys)
    {
      ghost var m := View().agent.value;
      resp, t, k, l := [], Listing(namespaces[ns := []], table.info, table.owner), known, Load(ns, {}, {});
      NoneLoaded(ns, sl, broken);
      var i := 0;
      while i < |sl|
        invariant 0 <= i <= |sl| && l.ns == ns && LoadedUpTo(sl, i, resp, t, k, m, l, broken) && Named(resp)
        invariant fresh(t.owner.Keys - old(table).owner.Keys)
      {
        resp, t, k, l := LoadAt(sl, i, resp, t, k, m, l, broken);
        i := i + 1;
      }
    }

    /** Zone.Subnets: the first page of the zone's subnets, each with a range holding the
        addresses on the first page of its container interfaces; their prefixes leave the
        pool. Also the tables as they will be once the list is stored. */
    method ZoneSubnets(ns: string, broken: set<nat>)
      returns (resp: seq<Subnet>, ghost t: Listing, ghost k: map<nat, Entry>, ghost l: Load)
      requires Valid() && ns !in namespaces && Loadable(vsd.Contents(), known, ns)
      modifies `freeCIDRs
      ensures l.ns == ns && l.ids <= SubnetsOf(vsd.Contents(), ns) && Answered(vsd.Contents(), l, true, broken)
      ensures Loading(resp, t, k, old(View()).agent.value, l) && Named(resp)
      ensures fresh(t.owner.Keys - old(table).owner.Keys)
    {
      var sl := vsd.ListSubnets(ns);
      resp, t, k, l := LoadAll(ns, sl, broken);
      AllLoaded(sl, l, broken);
    }

    /** The subnets of the zone, or none when listing them fails. */
    method ZoneList(ns: string, listOk: bool, broken: set<nat>)
      returns (resp: seq<Subnet>, ghost t: Listing, ghost k: map<nat, Entry>, ghost l: Load)
      requires Valid() && ns !in namespaces && Loadable(vsd.Contents(), known, ns)
      modifies `freeCIDRs
      ensures l.ns == ns && l.ids <= SubnetsOf(vsd.Contents(), ns) && Answered(vsd.Contents(), l, listOk, broken)
      ensures Loading(resp, t, k, old(View()).agent.value, l) && Named(resp)
      ensures fresh(t.owner.Keys - old(table).owner.Keys)
    {
      if listOk {
        resp, t, k, l := ZoneSubnets(ns, broken);
      } else {
        resp, t, k, l := [], Listing(namespaces[ns := []], table.info, table.owner), known, Load(ns, {}, {});
        NothingLoaded(ns);
      }
    }

    method StoreNamespace(ns: string, listOk: bool, broken: set<nat>) returns (ghost l: Load)
      requires Valid() && ns !in namespaces && Loadable(vsd.Contents(), known, ns)
      modifies `namespaces, `table, `known, `freeCIDRs
      ensures Valid() && l.ns == ns && Answered(vsd.Contents(), l, listOk, broken)
      ensures Next(gen, old(View()), LoadEvent(l)) == Some(View())
      ensures ns in namespaces && namespaces == old(namespaces)[ns := namespaces[ns]] && Named(namespaces[ns])
      ensures forall r :: r in Ranges() && r !in old(Ranges()) ==> fresh(r)
    {
      var nssubnets;
      ghost var t, k;
      nssubnets, t, k, l := ZoneList(ns, listOk, broken);
      Store(ns, nssubnets, t, k);
      assert namespaces.Keys == old(namespaces.Keys) + {ns};
      LoadStep(gen, old(View()), ns, l.ids, l.lost, View());
    }

    lemma SoundGivesLoadable(ns: string)
      requires Sound(gen, View()) && ns !in namespaces
      ensures Loadable(vsd.Contents(), known, ns)
    {
      ZoneIsLoadable(gen, vsd.Contents(), View().agent.value, ns);
    }

    /** NamespaceCreated: fails without effect when the zone cannot be had; otherwise one
        loading step with the lists the VSD yields. It keeps the invariant exactly when every
        subnet listed has at most fifty containers, and none if listing its interfaces failed. */
    method NamespaceCreated(ns: string, zoneOk: bool, listOk: bool, broken: set<nat>)
      returns (failed: bool, ghost tr: seq<Event>, ghost l: Load)
      requires Valid() && Sound(gen, View()) && ns !in namespaces
      modifies `namespaces, `table, `known, `freeCIDRs
      ensures Valid() && failed == !zoneOk && Run(gen, old(View()), tr) == Some(View())
      ensures tr == if failed then [] else [LoadEvent(l)]
      ensures !failed ==> l.ns == ns && Answered(vsd.Contents(), l, listOk, broken)
      ensures failed ==> namespaces == old(namespaces)
      ensures !failed ==>
                && ns in namespaces && namespaces == old(namespaces)[ns := namespaces[ns]]
                && forall i :: 0 <= i < |namespaces[ns]| ==> namespaces[ns][i].name == vsd.Name(namespaces[ns][i].id)
      ensures Inv(gen, old(View())) ==>
                (Inv(gen, View()) <==>
                 || failed
                 || forall id :: id in l.ids ==>
                      if id in broken then forall p :: p in vsd.containers ==> vsd.containers[p].subnet != id
                      else |set p | p in vsd.containers && vsd.containers[p].subnet == id| <= 50)
      ensures forall r :: r in Ranges() && r !in old(Ranges()) ==> fresh(r)
    {
      failed, tr, l := !zoneOk, [], Load(ns, {}, {});
      if !failed {
        SoundGivesLoadable(ns);
        l := StoreNamespace(ns, listOk, broken);
        One(gen, old(View()), LoadEvent(l), View());
        tr := [LoadEvent(l)];
        if Inv(gen, old(View())) {
          AnsweredKeepsIff(gen, old(View()), l, listOk, broken);
        }
      }
    }
  }

  /** What an attempt yields: the container for a pod without a node; for a scheduled pod the
      container is submitted, and none is returned. */
  function Verdict(last: Event, pod: Pod, putOk: bool, containers: map<PodKey, Iface>): CreateResult {
    if last != Commit(pod.key) || pod.key !in containers then Failed
    else if !pod.scheduled then Created(containers[pod.key])
    else if putOk then Nothing else Failed
  }

  /** The cache of pods that are not scheduled yet. */
  function Cached(pods: map<PodKey, Iface>, pod: PodKey, r: CreateResult): map<PodKey, Iface> {
    if r.Created? then pods[pod := r.iface] else pods
  }

  /** Case 3 dies if no address can be had. */
  function Result3(none: bool, last: Event, pod: Pod, putOk: bool, containers: map<PodKey, Iface>): CreateResult {
    if none then Died else Verdict(last, pod, putOk, containers)
  }

  /** Case 2 has yielded a container. */
  predicate Served(first: seq<Event>, pod: Pod) {
    |first| == 2 && first[1].Commit? && !pod.scheduled
  }

  /** What becomes of case 3's address: a container made by case 2 is refused a second time. */
  function LastOf(first: seq<Event>, pod: PodKey, containers: map<PodKey, Iface>, answer: Answer): Event {
    if |first| == 2 && Makes(first[1], pod) then Release else Outcome(pod, containers, answer)
  }

  /** The story is what the source prescribes, seen from the state before. */
  ghost predicate Told(story: Story, gen: map<int, Net>, s: State, subnets: seq<Subnet>, pod: Pod, env: PodEnv)
    requires s.agent.Some?
  {
    && Labels.IsOrder(pod.labels, story.order)
    && Case2Did(story.first, Labels.Settings(pod.labels, story.order), subnets, s.agent.value.known,
                Outcome(pod.key, s.vsd.containers, env.custom))
    && story.second == Attempt(Served(story.first, pod) || NoAddress(s, pod.key.ns, env.subnet), story.taking,
                               LastOf(story.first, pod.key, s.vsd.containers, env.normal))
    && LostSubnets(story.strays, gen, pod.key.ns, env.subnet) && (Served(story.first, pod) ==> story.strays == [])
    && WellTold(story, s, pod.key)
    && (story.second != [] && story.taking.Reserve? ==> FirstFit(s.agent.value.known, subnets, story.taking.id))
  }

  /** Case 2 finds the custom subnet asked for, and an address of it. */
  predicate Tries(known: map<nat, Entry>, settings: map<string, string>, subnets: seq<Subnet>) {
    match WantedSubnet(settings, subnets)
    case None => false
    case Some(s) => s.id in known && Available(known[s.id], WantedAddress(settings))
  }

  /** A container is made and reported as failed: for the address of case 2 if that tries and
      is not refused, else for the one case 3 finds. */
  ghost predicate LosesOne(s: State, settings: map<string, string>, subnets: seq<Subnet>, pod: Pod, env: PodEnv)
    requires s.agent.Some?
  {
    && pod.key !in s.vsd.containers
    && if Tries(s.agent.value.known, settings, subnets) && !env.custom.Refused? then env.custom.Lost?
       else env.normal.Lost? && !NoAddress(s, pod.key.ns, env.subnet)
  }

  lemma LostOneIff(story: Story, gen: map<int, Net>, s: State, subnets: seq<Subnet>, pod: Pod, env: PodEnv)
    requires s.agent.Some? && Told(story, gen, s, subnets, pod, env)
    ensures story.LostOne() <==> LosesOne(s, Labels.Settings(pod.labels, story.order), subnets, pod, env)
  {
  }

  function ResultOf(story: Story, none: bool, s: State, pod: Pod, env: PodEnv, after: map<PodKey, Iface>): CreateResult
  {
    if Served(story.first, pod) then Verdict(Commit(pod.key), pod, env.putOk, after)
    else Result3(none, LastOf(story.first, pod.key, s.vsd.containers, env.normal), pod, env.putOk, after)
  }

  /** The story, and what it comes to, seen from the state before. */
  ghost predicate Concludes(gen: map<int, Net>, s: State, t: State, subnets: seq<Subnet>, pod: Pod, env: PodEnv,
                            story: Story, r: CreateResult)
  {
    && s.agent.Some? && Run(gen, s, story.Steps()) == Some(t) && Told(story, gen, s, subnets, pod, env)
    && r == ResultOf(story, NoAddress(s, pod.key.ns, env.subnet), s, pod, env, t.vsd.containers)
    && (!r.Died? && (Served(story.first, pod) || !env.normal.Refused?) ==> pod.key in t.vsd.containers)
  }

  /** Case 2, from s to t. */
  ghost predicate Case2Over(gen: map<int, Net>, s: State, t: State, subnets: seq<Subnet>, pod: Pod, env: PodEnv,
                            story: Story)
  {
    && s.agent.Some? && t.agent.Some? && Run(gen, s, story.first) == Some(t)
    && (forall u :: u in subnets ==> u.id in s.agent.value.known && s.agent.value.known[u.id].customed == u.customed)
    && story.strays == [] && story.second == [] && story.taking == Reserve(0, 0) && Labels.IsOrder(pod.labels, story.order)
    && Case2Did(story.first, Labels.Settings(pod.labels, story.order), subnets, s.agent.value.known,
                Outcome(pod.key, s.vsd.containers, env.custom))
    && (story.first != [] ==>
          && story.first[0].Reserve? && story.first[0].id in s.agent.value.known
          && s.agent.value.known[story.first[0].id].customed)
    && t.agent.value.known.Keys == s.agent.value.known.Keys
    && forall id :: id in s.agent.value.known ==> t.agent.value.known[id].customed == s.agent.value.known[id].customed
  }

  lemma Case2Sufficed(gen: map<int, Net>, s: State, t: State, subnets: seq<Subnet>, pod: Pod, env: PodEnv,
                      story: Story, r: CreateResult)
    requires r.Created? && r == Verdict(Commit(pod.key), pod, env.putOk, t.vsd.containers)
    requires Case2Over(gen, s, t, subnets, pod, env, story) && Served(story.first, pod)
    ensures Concludes(gen, s, t, subnets, pod, env, story, r)
  {
    assert story.Steps() == story.first;
  }

  /** Case 3, from mid to t, as the rest of the story. */
  ghost predicate Case3Over(gen: map<int, Net>, mid: State, t: State, subnets: seq<Subnet>, pod: Pod, env: PodEnv,
                            story: Story, none: bool, last: Event)
    requires mid.agent.Some?
  {
    && Run(gen, mid, story.strays + story.second) == Some(t)
    && none == NoAddress(mid, pod.key.ns, env.subnet) && last == Outcome(pod.key, mid.vsd.containers, env.normal)
    && story.second == Attempt(none, story.taking, last) && (story.taking.Reserve? || story.taking.AddSubnet?)
    && (!none && story.taking.Reserve? ==>
          && story.taking.id in mid.agent.value.known && !mid.agent.value.known[story.taking.id].customed
          && FirstFit(mid.agent.value.known, subnets, story.taking.id))
    && LostSubnets(story.strays, gen, pod.key.ns, env.subnet)
  }

  /** Case 2 without a container, then case 3, seen from the state before both. */
  lemma Combined(gen: map<int, Net>, s: State, mid: State, t: State, subnets: seq<Subnet>, pod: Pod, env: PodEnv,
                 begun: Story, story: Story, none: bool, last: Event, r: CreateResult)
    requires Case2Over(gen, s, mid, subnets, pod, env, begun) && !Served(begun.first, pod)
    requires story.order == begun.order && story.first == begun.first
    requires Case3Over(gen, mid, t, subnets, pod, env, story, none, last)
    requires r == Result3(none, last, pod, env.putOk, t.vsd.containers)
    requires !r.Died? && !env.normal.Refused? ==> pod.key in t.vsd.containers
    ensures Concludes(gen, s, t, subnets, pod, env, story, r)
  {
    SeenFromBefore(gen, s, mid, t, subnets, pod, env, begun, story, none, last);
    StoryRuns(gen, s, mid, t, story);
    StoryIsTold(gen, s, mid, t, subnets, pod, env, begun, story, none, last);
  }

  lemma SeenFromBefore(gen: map<int, Net>, s: State, mid: State, t: State, subnets: seq<Subnet>, pod: Pod, env: PodEnv,
                       begun: Story, story: Story, none: bool, last: Event)
    requires Case2Over(gen, s, mid, subnets, pod, env, begun) && story.first == begun.first
    requires Case3Over(gen, mid, t, subnets, pod, env, story, none, last)
    ensures none == NoAddress(s, pod.key.ns, env.subnet)
    ensures last == LastOf(story.first, pod.key, s.vsd.containers, env.normal)
  {
    CustomAttemptKeepsRoom(gen, s, story.first, mid, pod.key, env.subnet);
    LastAfterFirst(story.first, s.vsd.containers, mid.vsd.containers, pod.key, env);
  }

  lemma StoryIsTold(gen: map<int, Net>, s: State, mid: State, t: State, subnets: seq<Subnet>, pod: Pod, env: PodEnv,
                    begun: Story, story: Story, none: bool, last: Event)
    requires Case2Over(gen, s, mid, subnets, pod, env, begun) && !Served(begun.first, pod)
    requires story.order == begun.order && story.first == begun.first
    requires Case3Over(gen, mid, t, subnets, pod, env, story, none, last)
    requires none == NoAddress(s, pod.key.ns, env.subnet)
    requires last == LastOf(story.first, pod.key, s.vsd.containers, env.normal)
    ensures Told(story, gen, s, subnets, pod, env)
  {
    StoryIsWellTold(s, mid, pod.key, story);
    CustomAttemptKeepsRoom(gen, s, story.first, mid, pod.key, env.subnet);
    if story.second != [] && story.taking.Reserve? {
      FirstFitFromBefore(mid.agent.value.known, s.agent.value.known, subnets, story.taking.id);
    }
  }

  lemma FirstFitFromBefore(after: map<nat, Entry>, known: map<nat, Entry>, subnets: seq<Subnet>, id: nat)
    requires FirstFit(after, subnets, id) && after.Keys == known.Keys
    requires forall u :: u in subnets ==> u.id in known && known[u.id].customed == u.customed
    requires forall k :: k in known && !known[k].customed ==> after[k] == known[k]
    ensures FirstFit(known, subnets, id)
  {
    var i :| 0 <= i < |subnets| && subnets[i].id == id && !subnets[i].customed && FullUpTo(after, subnets, i);
    assert FullUpTo(known, subnets, i);
  }

  lemma StoryRuns(gen: map<int, Net>, s: State, mid: State, t: State, story: Story)
    requires Run(gen, s, story.first) == Some(mid) && Run(gen, mid, story.strays + story.second) == Some(t)
    ensures Run(gen, s, story.Steps()) == Some(t)
  {
    ThenRun(gen, s, story.first, mid, story.strays + story.second, t);
    assert story.first + (story.strays + story.second) == story.Steps();
  }

  lemma LastAfterFirst(first: seq<Event>, containers: map<PodKey, Iface>, after: map<PodKey, Iface>,
                       pod: PodKey, env: PodEnv)
    requires first == [] || |first| == 2
    requires pod in after <==> pod in containers || (first != [] && Makes(first[1], pod))
    ensures Outcome(pod, after, env.normal) == LastOf(first, pod, containers, env.normal)
  {
  }

  lemma StoryIsWellTold(s: State, mid: State, pod: PodKey, story: Story)
    requires s.agent.Some? && mid.agent.Some? && IsAttempt(story.first, pod) && IsAttempt(story.second, pod)
    requires story.first != [] ==>
               && story.first[0].Reserve? && story.first[0].id in s.agent.value.known
               && s.agent.value.known[story.first[0].id].customed
    requires forall i :: 0 <= i < |story.strays| ==> story.strays[i].AdminSubnet?
    requires mid.agent.value.known.Keys == s.agent.value.known.Keys
    requires forall id :: id in s.agent.value.known ==>
               mid.agent.value.known[id].customed == s.agent.value.known[id].customed
    requires story.second != [] && story.second[0].Reserve? ==>
               story.second[0].id in mid.agent.value.known && !mid.agent.value.known[story.second[0].id].customed
    requires story.first != [] && Makes(story.first[1], pod) && story.second != [] ==> story.second[1].Release?
    ensures WellTold(story, s, pod)
  {
  }

  lemma AttemptsAre(story: Story, gen: map<int, Net>, s: State, subnets: seq<Subnet>, pod: Pod, env: PodEnv)
    requires s.agent.Some? && Told(story, gen, s, subnets, pod, env)
    ensures story.first != [] ==>
              && |story.first| == 2
              && story.first[1] == if pod.key in s.vsd.containers || env.custom == Refused then Release
                                   else if env.custom == Fine then Commit(pod.key) else LostCommit(pod.key)
    ensures story.second != [] ==>
              && |story.second| == 2
              && story.second[1] ==
                   if pod.key in s.vsd.containers || (story.first != [] && env.custom != Refused) || env.normal == Refused
                   then Release
                   else if env.normal == Fine then Commit(pod.key) else LostCommit(pod.key)
  {
  }

  lemma FirstFitIs(story: Story, gen: map<int, Net>, s: State, subnets: seq<Subnet>, pod: Pod, env: PodEnv)
    requires s.agent.Some? && Told(story, gen, s, subnets, pod, env) && story.second != [] && story.second[0].Reserve?
    ensures var known := s.agent.value.known;
            exists i :: 0 <= i < |subnets| && subnets[i].id == story.second[0].id && !subnets[i].customed
                        && forall j :: 0 <= j < i && !subnets[j].customed ==>
                             && subnets[j].id in known
                             && known[subnets[j].id].net.Hosts() <= known[subnets[j].id].used
  {
    var known := s.agent.value.known;
    var i :| 0 <= i < |subnets| && subnets[i].id == story.taking.id && !subnets[i].customed && FullUpTo(known, subnets, i);
  }

  lemma DeathIs(gen: map<int, Net>, s: State, t: State, subnets: seq<Subnet>, pod: Pod, env: PodEnv,
                story: Story, r: CreateResult)
    requires Concludes(gen, s, t, subnets, pod, env, story, r)
    ensures r.Died? <==>
              && !(|story.first| == 2 && story.first[1] == Commit(pod.key) && !pod.scheduled)
              && (forall id :: id in s.agent.value.known && s.agent.value.known[id].ns == pod.key.ns
                               && !s.agent.value.known[id].customed ==>
                    s.agent.value.known[id].net.Hosts() <= s.agent.value.known[id].used)
              && forall a :: a in s.agent.value.free ==>
                   || s.agent.value.free[a].Hosts() == {} || env.subnet(s.agent.value.free[a]) != Fine
                   || exists id :: id in s.vsd.subnets && Overlap(s.agent.value.free[a], s.vsd.subnets[id].net)
  {
    AttemptsAre(story, gen, s, subnets, pod, env);
  }

  lemma CacheIs(gen: map<int, Net>, s: State, t: State, subnets: seq<Subnet>, pod: Pod, env: PodEnv,
                story: Story, r: CreateResult, pods: map<PodKey, Iface>)
    requires Concludes(gen, s, t, subnets, pod, env, story, r)
    ensures !r.Died? && !pod.scheduled && Commit(pod.key) in story.Steps() ==>
              pod.key in t.vsd.containers && Cached(pods, pod.key, r) == pods[pod.key := t.vsd.containers[pod.key]]
    ensures r.Died? || pod.scheduled || Commit(pod.key) !in story.Steps() ==> Cached(pods, pod.key, r) == pods
  {
    AttemptsAre(story, gen, s, subnets, pod, env);
    if Served(story.first, pod) {
      assert story.Steps()[1] == story.first[1];
    } else if story.second != [] {
      assert story.Steps()[|story.Steps()| - 1] == story.second[1];
    }
    StepsAre(story, pod.key);
  }

  lemma StepsAre(story: Story, pod: PodKey)
    requires story.first == [] || (|story.first| == 2 && !story.first[0].Commit?)
    requires story.second == [] || (|story.second| == 2 && !story.second[0].Commit?)
    requires forall i :: 0 <= i < |story.strays| ==> story.strays[i].AdminSubnet?
    ensures Commit(pod) in story.Steps() <==>
            (story.first != [] && story.first[1] == Commit(pod)) || (story.second != [] && story.second[1] == Commit(pod))
  {
    if story.first != [] {
      assert story.Steps()[1] == story.first[1];
    }
    if story.second != [] {
      assert story.Steps()[|story.Steps()| - 1] == story.second[1];
    }
  }

  lemma ToldKeeps(gen: map<int, Net>, s: State, t: State, subnets: seq<Subnet>, pod: Pod, env: PodEnv, story: Story)
    requires Sound(gen, s) && s.agent.Some? && Told(story, gen, s, subnets, pod, env)
    requires Run(gen, s, story.Steps()) == Some(t)
    ensures Inv(gen, s) ==> (Inv(gen, t) <==> !story.LostOne())
    ensures OthersKept(s.vsd, t.vsd, pod.key)
    ensures t.agent.Some? && SubnetsKept(s.agent.value, t.agent.value)
  {
    WellToldIsCreation(story, s, pod.key);
    CreationKeeps(gen, s, story.Steps(), t, pod.key);
    if Inv(gen, s) {
      CreationKeepsIff(gen, s, story, t, pod.key);
    }
  }

  /** A prefix made a subnet without the agent being told, if one was made. */
  ghost predicate Strayed(s: State, ns: string, net: Net, made: Option<nat>, t: State) {
    match made
    case None => t == s
    case Some(id) => id !in s.vsd.subnets && t == s.(vsd := s.vsd.(subnets := s.vsd.subnets[id := VsdSubnet(ns, net)]))
  }

  lemma StrayKeepsClear(gen: map<int, Net>, s: State, ns: string, net: Net, made: Option<nat>, t: State,
                        pool: map<int, Net>, rest: set<int>)
    requires Strayed(s, ns, net, made, t) && GoodPool(gen) && net.addr in gen && gen[net.addr] == net && net.addr !in rest
    requires rest <= pool.Keys && forall a :: a in rest ==> a in gen && pool[a] == gen[a]
    ensures forall a :: a in rest ==> (Clear(t.vsd, pool[a]) <==> Clear(s.vsd, pool[a]))
  {
    forall a | a in rest
      ensures Clear(t.vsd, pool[a]) <==> Clear(s.vsd, pool[a])
    {
      assert !Overlap(gen[a], gen[net.addr]);
      if made.Some? && Clear(t.vsd, pool[a]) {
        forall id | id in s.vsd.subnets
          ensures !Overlap(pool[a], s.vsd.subnets[id].net)
        {
          assert t.vsd.subnets[id] == s.vsd.subnets[id];
        }
      }
    }
  }

  /** The search through the free prefixes: those in rest are still to be tried. */
  ghost predicate Searching(gen: map<int, Net>, s0: State, s: State, ns: string, answers: Net -> Answer,
                            strays: seq<Event>, rest: set<int>)
  {
    && s0.agent.Some? && s.agent == s0.agent && rest <= s0.agent.value.free.Keys
    && Run(gen, s0, strays) == Some(s) && LostSubnets(strays, gen, ns, answers)
    && var free := s0.agent.value.free;
       && (forall a :: a in rest ==> (Clear(s.vsd, free[a]) <==> Clear(s0.vsd, free[a])))
       && (forall a :: a in free && a !in rest ==> !Obtainable(s0.vsd, free[a], answers))
  }

  lemma SearchEnds(gen: map<int, Net>, s0: State, s: State, ns: string, answers: Net -> Answer,
                   strays: seq<Event>, rest: set<int>, prefix: int)
    requires Searching(gen, s0, s, ns, answers, strays, rest) && prefix in rest
    requires Obtainable(s.vsd, s0.agent.value.free[prefix], answers)
    ensures prefix in s0.agent.value.free && Obtainable(s0.vsd, s0.agent.value.free[prefix], answers)
  {
  }

  /** One more prefix that cannot be had, perhaps made a subnet without notice. */
  lemma SearchOn(gen: map<int, Net>, s0: State, s: State, ns: string, answers: Net -> Answer,
                 strays: seq<Event>, rest: set<int>, prefix: int, made: Option<nat>, t: State)
    returns (more: seq<Event>)
    requires Searching(gen, s0, s, ns, answers, strays, rest) && prefix in rest
    requires GoodPool(gen) && forall a :: a in s0.agent.value.free ==> a in gen && s0.agent.value.free[a] == gen[a]
    requires var net := s0.agent.value.free[prefix];
             && Strayed(s, ns, net, made, t) && !Obtainable(s.vsd, net, answers)
             && (made.Some? ==> answers(net).Lost? && Clear(s.vsd, net))
    ensures Searching(gen, s0, t, ns, answers, more, rest - {prefix})
  {
    var free := s0.agent.value.free;
    StrayKeepsClear(gen, s, ns, free[prefix], made, t, free, rest - {prefix});
    more := StrayRun(gen, s0, strays, s, ns, free[prefix], made, t, answers);
  }

  lemma StrayRun(gen: map<int, Net>, s0: State, strays: seq<Event>, s: State, ns: string, net: Net, made: Option<nat>,
                 t: State, answers: Net -> Answer)
    returns (more: seq<Event>)
    requires Run(gen, s0, strays) == Some(s) && LostSubnets(strays, gen, ns, answers)
    requires Strayed(s, ns, net, made, t) && GoodPool(gen) && net.addr in gen && gen[net.addr] == net
    requires made.Some? ==> answers(net).Lost? && Clear(s.vsd, net)
    ensures Run(gen, s0, more) == Some(t) && LostSubnets(more, gen, ns, answers)
  {
    more := strays;
    if made.Some? {
      Then(gen, s0, strays, s, AdminSubnet(made.value, ns, net), t);
      more := strays + [AdminSubnet(made.value, ns, net)];
    }
  }

  // ---- deletion ----

  /** The container a deletion goes by: what the CNI agent says, else the VSD's record. */
  function FoundDeleted(pod: PodKey, env: DeleteEnv, containers: map<PodKey, Iface>): Option<Iface> {
    if env.cni.Some? then env.cni
    else if env.fetchOk && pod in containers then Some(containers[pod])
    else None
  }

  /** Whether the pod's record leaves the VSD in the course of its deletion. */
  predicate RecordGoes(pod: PodKey, env: DeleteEnv, containers: map<PodKey, Iface>) {
    pod in containers && (env.leaves || (env.cni.None? && env.deleted))
  }

  lemma DeletionIsARun(gen: map<int, Net>, s0: State, s1: State, s2: State, t: State, pod: PodKey, env: DeleteEnv,
                       hit: Option<nat>, addr: int)
    requires FoundDeleted(pod, env, s0.vsd.containers).Some?
    requires if env.cni.None? && env.deleted then Next(gen, s0, Leave(pod)) == Some(s1) && pod !in s1.vsd.containers
             else s1 == s0
    requires if hit.Some? then Next(gen, s1, Free(hit.value, addr)) == Some(s2) else s2 == s1
    requires if env.leaves && pod in s2.vsd.containers then Next(gen, s2, Leave(pod)) == Some(t) else t == s2
    ensures Run(gen, s0, DeletionSteps(pod, RecordGoes(pod, env, s0.vsd.containers), hit, addr)) == Some(t)
  {
    var gone := RecordGoes(pod, env, s0.vsd.containers);
    if gone && hit.Some? {
      assert DeletionSteps(pod, gone, hit, addr) == [Leave(pod), Free(hit.value, addr)];
      if env.cni.None? && env.deleted {
        Two(gen, s0, Leave(pod), s1, Free(hit.value, addr), t);
      } else {
        LeavingAndFreeingCommute(gen, s0, pod, hit.value, addr, s2, t);
      }
    } else if gone {
      assert DeletionSteps(pod, gone, hit, addr) == [Leave(pod)];
      One(gen, s0, Leave(pod), t);
    } else if hit.Some? {
      assert DeletionSteps(pod, gone, hit, addr) == [Free(hit.value, addr)];
      One(gen, s0, Free(hit.value, addr), t);
    } else {
      assert DeletionSteps(pod, gone, hit, addr) == [];
    }
  }

  /** The steps case 2 takes, given the settings and what becomes of the address. */
  ghost predicate Case2Did(tr: seq<Event>, settings: map<string, string>, subnets: seq<Subnet>,
                           known: map<nat, Entry>, last: Event)
  {
    match WantedSubnet(settings, subnets)
    case None => tr == []
    case Some(s) =>
      if s.id !in known || !Available(known[s.id], WantedAddress(settings)) then tr == []
      else
        && |tr| == 2 && tr[0].Reserve? && tr[0].id == s.id && tr[1] == last
        && (WantedAddress(settings).Some? ==> tr[0].addr == WantedAddress(settings).value)
  }

  /** The name of the n-th subnet the agent makes for a namespace. */
  function SubnetName(ns: string, n: nat): string {
    ns + "-" + Numeral(n)
  }

  function Numeral(n: nat): string {
    if n < 10 then [Ipv4.Digit(n)] else Numeral(n / 10) + [Ipv4.Digit(n % 10)]
  }

  /** The namespace, a dash and the number in decimal. */
  lemma SubnetNameIs()
    ensures SubnetName("prod", 0) == "prod-0" && SubnetName("prod", 10) == "prod-10"
    ensures SubnetName("prod", 209) == "prod-209"
  {
    assert Numeral(20) == "20" && Numeral(209) == Numeral(20) + "9" == "209";
  }

  /** The first custom subnet with the given name. */
  function FirstCustom(subnets: seq<Subnet>, name: string): Option<Subnet> {
    if subnets == [] then None
    else if subnets[0].customed && subnets[0].name == name then Some(subnets[0])
    else FirstCustom(subnets[1..], name)
  }

  lemma {:induction false} FirstCustomIsListed(subnets: seq<Subnet>, name: string)
    ensures FirstCustom(subnets, name).Some? ==>
              FirstCustom(subnets, name).value in subnets && FirstCustom(subnets, name).value.customed
  {
    if subnets != [] {
      FirstCustomIsListed(subnets[1..], name);
    }
  }

  /** FirstCustom yields the first custom subnet of the name, if there is one. */
  lemma {:induction false} FirstCustomIs(subnets: seq<Subnet>, name: string)
    ensures FirstCustom(subnets, name).Some? <==>
            exists j :: 0 <= j < |subnets| && subnets[j].customed && subnets[j].name == name
    ensures FirstCustom(subnets, name).Some? ==>
              exists j :: 0 <= j < |subnets| && subnets[j] == FirstCustom(subnets, name).value
                          && subnets[j].customed && subnets[j].name == name
                          && forall i :: 0 <= i < j ==> !(subnets[i].customed && subnets[i].name == name)
  {
    if subnets != [] {
      var rest := subnets[1..];
      FirstCustomIs(rest, name);
      if subnets[0].customed && subnets[0].name == name {
        assert subnets[0] == FirstCustom(subnets, name).value;
      } else {
        if j :| 0 <= j < |subnets| && subnets[j].customed && subnets[j].name == name {
          assert rest[j - 1] == subnets[j];
        }
        if FirstCustom(rest, name).Some? {
          var j :| 0 <= j < |rest| && rest[j] == FirstCustom(rest, name).value && rest[j].customed && rest[j].name == name
                   && forall i :: 0 <= i < j ==> !(rest[i].customed && rest[i].name == name);
          assert subnets[j + 1] == rest[j];
          assert forall i :: 0 < i < j + 1 ==> subnets[i] == rest[i - 1];
        }
      }
    }
  }

  lemma NetworkIs(settings: map<string, string>, subnets: seq<Subnet>)
    ensures var s := WantedSubnet(settings, subnets);
            && (s.Some? <==> "Subnet" in settings
                             && exists j ::
                                  0 <= j < |subnets| && subnets[j].customed && subnets[j].name == settings["Subnet"])
            && (s.Some? ==>
                  exists j :: 0 <= j < |subnets| && subnets[j] == s.value
                              && subnets[j].customed && subnets[j].name == settings["Subnet"]
                              && forall i :: 0 <= i < j ==> !(subnets[i].customed && subnets[i].name == settings["Subnet"]))
    ensures "IPAddress" !in settings ==> WantedAddress(settings) == None
    ensures "IPAddress" in settings && (exists c :: c in settings["IPAddress"] && c != '.' && !('0' <= c <= '9')) ==>
              WantedAddress(settings) == None
    ensures forall ip: Ipv4.IP :: "IPAddress" in settings && settings["IPAddress"] == Ipv4.Dotted(ip) ==>
              WantedAddress(settings) == Some(Ipv4.ToU32(ip))
  {
    if "Subnet" in settings {
      FirstCustomIs(subnets, settings["Subnet"]);
    }
    if "IPAddress" in settings {
      Ipv4.OnlyDigitsAndDots(settings["IPAddress"]);
    }
    forall ip: Ipv4.IP
      ensures ParseAddress(Ipv4.Dotted(ip)) == Some(Ipv4.ToU32(ip))
    {
      Ipv4.PrintParse(ip);
    }
  }

  /** What case 2 does, in terms of the settings: it takes an address of the first custom
      subnet of the given name -- the given one, if one is given -- unless there is none. */
  lemma Case2Is(tr: seq<Event>, settings: map<string, string>, subnets: seq<Subnet>, known: map<nat, Entry>, last: Event)
    requires Case2Did(tr, settings, subnets, known, last) && forall s :: s in subnets ==> s.id in known
    ensures tr != [] ==>
              && |tr| == 2 && tr[0].Reserve? && tr[1] == last && "Subnet" in settings
              && exists j :: 0 <= j < |subnets| && subnets[j].id == tr[0].id
                             && subnets[j].customed && subnets[j].name == settings["Subnet"]
                             && forall i :: 0 <= i < j ==> !(subnets[i].customed && subnets[i].name == settings["Subnet"])
    ensures forall ip: Ipv4.IP ::
              tr != [] && "IPAddress" in settings && settings["IPAddress"] == Ipv4.Dotted(ip) ==>
                tr[0].addr == Ipv4.ToU32(ip)
    ensures forall j :: "Subnet" in settings && 0 <= j < |subnets|
                        && subnets[j].customed && subnets[j].name == settings["Subnet"]
                        && (forall i :: 0 <= i < j ==> !(subnets[i].customed && subnets[i].name == settings["Subnet"])) ==>
              var e := known[subnets[j].id];
              && ("IPAddress" !in settings ==> (tr == [] <==> e.net.Hosts() <= e.used))
              && forall ip: Ipv4.IP :: "IPAddress" in settings && settings["IPAddress"] == Ipv4.Dotted(ip) ==>
                   (tr == [] <==> Ipv4.ToU32(ip) !in e.net.Hosts() || Ipv4.ToU32(ip) in e.used)
  {
    NetworkIs(settings, subnets);
  }

  function ParseAddress(text: string): Option<int> {
    match Ipv4.ParseIP(text)
    case None => None
    case Some(ip) => Some(Ipv4.ToU32(ip))
  }

  function WantedSubnet(settings: map<string, string>, subnets: seq<Subnet>): Option<Subnet> {
    if "Subnet" in settings then FirstCustom(subnets, settings["Subnet"]) else None
  }

  function WantedAddress(settings: map<string, string>): Option<int> {
    if "IPAddress" in settings then ParseAddress(settings["IPAddress"]) else None
  }

  /** The non-custom ones among the first k subnets of the list are full. */
  ghost predicate FullUpTo(known: map<nat, Entry>, subnets: seq<Subnet>, k: nat)
    requires k <= |subnets|
  {
    forall j :: 0 <= j < k && !subnets[j].customed ==> subnets[j].id in known && Full(known[subnets[j].id])
  }

  lemma FullUpToNext(known: map<nat, Entry>, subnets: seq<Subnet>, k: nat)
    requires k < |subnets| && FullUpTo(known, subnets, k)
    requires subnets[k].customed || (subnets[k].id in known && Full(known[subnets[k].id]))
    ensures FullUpTo(known, subnets, k + 1)
  {
  }

  /** The subnet is non-custom, and all non-custom ones before it in the list are full. */
  ghost predicate FirstFit(known: map<nat, Entry>, subnets: seq<Subnet>, id: nat) {
    exists i :: 0 <= i < |subnets| && subnets[i].id == id && !subnets[i].customed && FullUpTo(known, subnets, i)
  }
}
