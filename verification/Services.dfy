// The contracts of the two services the address management stands on: the in-memory
// address range and the VSD.
module Services {
  import opened Base
  import opened Cidr
  import opened Ipam

  /** ipallocator.Range: the addresses of a prefix that have been handed out. */
  class Range {
    const net: Net
    var used: set<int>

    constructor (net: Net)
      ensures this.net == net && used == {}
    {
      this.net := net;
      used := {};
    }

    /** Takes one given address; fails when it is outside the range or already taken. */
    method Allocate(addr: int) returns (ok: bool)
      modifies `used
      ensures ok <==> addr in net.Hosts() && addr !in old(used)
      ensures 0 <= net.ones <= 32 ==>
                (ok <==> net.addr < addr < net.addr + Pow2(32 - net.ones) - 1 && addr !in old(used))
      ensures used == if ok then old(used) + {addr} else old(used)
    {
      ok := net.Usable(addr) && net.Has(addr) && addr !in used;
      if ok {
        used := used + {addr};
      }
    }

    /** Takes any free address; fails only when the range is full. */
    method AllocateNext() returns (addr: Option<int>)
      modifies `used
      ensures addr.None? <==> net.Hosts() <= old(used)
      ensures addr.Some? ==> addr.value in net.Hosts() && addr.value !in old(used)
      ensures 0 <= net.ones <= 32 ==>
                (addr.None? <==> forall a :: net.addr < a < net.addr + Pow2(32 - net.ones) - 1 ==> a in old(used))
      ensures used == if addr.Some? then old(used) + {addr.value} else old(used)
    {
      var candidates := net.Hosts() - used;
      if 0 <= net.ones <= 32 {
        forall a
          ensures a in net.Hosts() <==> net.addr < a < net.addr + Pow2(32 - net.ones) - 1
        {
          HostsAre(net, a);
        }
      }
      if candidates == {} {
        assert forall a :: a in net.Hosts() && a !in used ==> a in candidates;
        addr := None;
      } else {
        var a :| a in candidates;
        used := used + {a};
        addr := Some(a);
      }
    }

    /** Gives an address back; a no-op for one that is not taken. */
    method Release(addr: int)
      modifies `used
      ensures used == old(used) - {addr}
    {
      used := used - {addr};
    }
  }

  /** The VSD's subnets and containers. It may refuse any request, or grant it and report a
      failure; it always refuses a subnet that overlaps another one and a container whose
      name is taken. */
  class VsdServer {
    var subnets: map<nat, VsdSubnet>
    var containers: map<PodKey, Iface>
    var names: map<nat, string>

    ghost function Contents(): Vsd
      reads `subnets, `containers
    {
      Vsd(subnets, containers)
    }

    /** made is the new subnet, whether or not the VSD tells. */
    method CreateSubnet(ns: string, name: string, net: Net, answer: Answer)
      returns (id: Option<nat>, ghost made: Option<nat>)
      modifies this`subnets, this`names
      ensures made.Some? <==> !answer.Refused? && Clear(old(Contents()), net)
      ensures id == if answer.Fine? then made else None
      ensures made.Some? ==>
                && made.value !in old(subnets) && subnets == old(subnets)[made.value := VsdSubnet(ns, net)]
                && names == old(names)[made.value := name]
      ensures made.None? ==> subnets == old(subnets) && names == old(names)
    {
      id, made := None, None;
      if !answer.Refused? && forall k :: k in subnets ==> !Overlap(net, subnets[k].net) {
        UnusedId(subnets.Keys);
        var unused: nat :| unused !in subnets;
        subnets := subnets[unused := VsdSubnet(ns, net)];
        names := names[unused := name];
        made := Some(unused);
        if answer.Fine? {
          id := Some(unused);
        }
      }
    }

    function Name(id: nat): string
      reads `names
    {
      if id in names then names[id] else ""
    }

    /** ok is what the VSD tells: a container may have been made all the same. */
    method CreateContainer(pod: PodKey, iface: Iface, answer: Answer) returns (ok: bool)
      modifies this`containers
      ensures ok <==> answer.Fine? && pod !in old(containers)
      ensures containers == if !answer.Refused? && pod !in old(containers) then old(containers)[pod := iface]
                            else old(containers)
    {
      ok := false;
      if !answer.Refused? && pod !in containers {
        containers := containers[pod := iface];
        ok := answer.Fine?;
      }
    }

    /** The one container with the given name, if there is one. */
    method FetchContainer(pod: PodKey) returns (r: Option<Iface>)
      ensures r == if pod in containers then Some(containers[pod]) else None
    {
      r := if pod in containers then Some(containers[pod]) else None;
    }

    method RemoveContainer(pod: PodKey)
      modifies this`containers
      ensures containers == Drop(old(containers), pod)
    {
      containers := Drop(containers, pod);
    }

    /** The subnets of a zone: the first page of them, in some order. */
    method ListSubnets(ns: string) returns (ids: seq<nat>)
      ensures Distinct(ids) && IsPage(Elements(ids), SubnetsOf(Contents(), ns))
    {
      ids := PickPage(SubnetsOf(Vsd(subnets, containers), ns));
    }

    /** The addresses of the container interfaces on a subnet: the first page of them. */
    method ListInterfaces(id: nat) returns (addrs: set<int>, ghost lost: set<PodKey>)
      ensures lost <= On(Contents(), id) && IsPage(On(Contents(), id) - lost, On(Contents(), id))
      ensures addrs == Addrs(Seen(Contents(), lost), id)
    {
      var page := PickPage(On(Vsd(subnets, containers), id));
      assert forall p :: p in page ==> p in Elements(page);
      addrs := set p | p in page && p in containers :: containers[p].addr;
      lost := On(Contents(), id) - Elements(page);
      assert On(Contents(), id) - lost == Elements(page);
      PageAddrs(Contents(), id, lost);
    }
  }

  lemma PageAddrs(v: Vsd, id: nat, lost: set<PodKey>)
    requires lost <= On(v, id)
    ensures Addrs(Seen(v, lost), id) == set p | p in On(v, id) - lost :: v.containers[p].addr
  {
    forall p | p in On(v, id) - lost
      ensures v.containers[p].addr in Addrs(Seen(v, lost), id)
    {
      assert p in Seen(v, lost).containers;
    }
  }

  lemma UnusedId(s: set<nat>)
    ensures exists n: nat :: n !in s
  {
    var n := Bound(s);
    assert n !in s;
  }

  lemma Bound(s: set<nat>) returns (n: nat)
    ensures forall k :: k in s ==> k < n
    decreases s
  {
    n := 0;
    if s != {} {
      var k :| k in s;
      n := Bound(s - {k});
      n := if n <= k then k + 1 else n;
      assert forall j :: j in s ==> j == k || j in s - {k};
    }
  }
}
