// What the pod handlers do to the address-management state, as runs of its steps.
module Handlers {
  import opened Base
  import opened Cidr
  import opened Ipam
  import opened IpamSafety
  import opened IpamTheorems
  import opened Recovery
  import Ipv4

  // ---- creating a pod ----

  /** The given address, or some address if none is given, can be taken. */
  predicate Available(e: Entry, given: Option<int>) {
    if given.Some? then given.value in e.net.Hosts() && given.value !in e.used else !Full(e)
  }

  /** What becomes of an address in hand, given the VSD's answer to creating the container. */
  function Outcome(pod: PodKey, containers: map<PodKey, Iface>, answer: Answer): Event {
    if pod in containers then Release
    else
      match answer
      case Fine => Commit(pod)
      case Lost => LostCommit(pod)
      case Refused => Release
  }

  /** Every non-custom subnet of the namespace is full and no free prefix can be obtained. */
  ghost predicate NoAddress(s: State, ns: string, answers: Net -> Answer)
    requires s.agent.Some?
  {
    && Exhausted(s.agent.value, ns)
    && forall a :: a in s.agent.value.free ==> !Obtainable(s.vsd, s.agent.value.free[a], answers)
  }

  /** The prefix has room for a host, overlaps no VSD subnet, and the VSD makes it a subnet
      and says so. */
  predicate Obtainable(v: Vsd, net: Net, answers: Net -> Answer) {
    net.Hosts() != {} && answers(net).Fine? && Clear(v, net)
  }

  lemma HasRoom(s: State, id: nat)
    requires s.agent.Some? && id in s.agent.value.known
    requires !s.agent.value.known[id].customed && !Full(s.agent.value.known[id])
    ensures !Exhausted(s.agent.value, s.agent.value.known[id].ns)
  {
  }

  /** A step that the creation of the given pod may take. */
  predicate CreationStep(e: Event, pod: PodKey) {
    e.Reserve? || e.AddSubnet? || e.AdminSubnet? || e.Release? || e == Commit(pod) || e == LostCommit(pod)
  }

  ghost predicate CreationSteps(tr: seq<Event>, pod: PodKey) {
    forall i :: 0 <= i < |tr| ==> CreationStep(tr[i], pod)
  }

  predicate Settles(e: Event, pod: PodKey) {
    e.Release? || e == Commit(pod) || e == LostCommit(pod)
  }

  /** Subnets of generated prefixes that the VSD made while reporting a failure. */
  ghost predicate LostSubnets(tr: seq<Event>, gen: map<int, Net>, ns: string, answers: Net -> Answer) {
    forall i :: 0 <= i < |tr| ==>
      && tr[i].AdminSubnet? && tr[i].ns == ns && answers(tr[i].net).Lost?
      && tr[i].net.addr in gen && gen[tr[i].net.addr] == tr[i].net
  }

  /** Nothing if there is no address, else taking one and settling it. */
  function Attempt(none: bool, taking: Event, last: Event): seq<Event> {
    if none then [] else [taking, last]
  }

  ghost predicate IsAttempt(tr: seq<Event>, pod: PodKey) {
    tr == [] || (|tr| == 2 && (tr[0].Reserve? || tr[0].AddSubnet?) && Settles(tr[1], pod))
  }

  /** No container but the given pod's is made, changed or removed. */
  ghost predicate OthersKept(v: Vsd, v': Vsd, pod: PodKey) {
    && v.containers.Keys <= v'.containers.Keys <= v.containers.Keys + {pod}
    && forall p :: p in v.containers ==> v'.containers[p] == v.containers[p]
  }

  /** Every subnet known before is known after, with the same prefix and flag. */
  ghost predicate SubnetsKept(m: Memory, m': Memory) {
    && m'.free == m.free && m'.loaded == m.loaded && m'.departed == m.departed
    && forall id :: id in m.known ==> id in m'.known && m'.known[id] == m.known[id].(used := m'.known[id].used)
  }

  lemma CreationStepKeeps(gen: map<int, Net>, s: State, e: Event, t: State, pod: PodKey)
    requires Sound(gen, s) && Next(gen, s, e) == Some(t) && CreationStep(e, pod) && s.agent.Some?
    ensures OthersKept(s.vsd, t.vsd, pod)
    ensures t.agent.Some? && SubnetsKept(s.agent.value, t.agent.value)
  {
  }

  /** The creation of a pod touches no other pod's container and no existing subnet, never
      takes a prefix out of the pool, and adds at most one container. */
  lemma {:induction false} CreationKeeps(gen: map<int, Net>, s: State, tr: seq<Event>, t: State, pod: PodKey)
    requires Sound(gen, s) && Run(gen, s, tr) == Some(t) && CreationSteps(tr, pod) && s.agent.Some?
    ensures OthersKept(s.vsd, t.vsd, pod)
    ensures t.agent.Some? && SubnetsKept(s.agent.value, t.agent.value)
  {
    if tr != [] {
      var r := Run(gen, s, tr[..|tr| - 1]).value;
      CreationKeeps(gen, s, tr[..|tr| - 1], r, pod);
      RunIsSound(gen, s, tr[..|tr| - 1], r);
      CreationStepKeeps(gen, r, tr[|tr| - 1], t, pod);
    }
  }

  /** The step makes a container for the pod. */
  predicate Makes(e: Event, pod: PodKey) {
    e == Commit(pod) || e == LostCommit(pod)
  }

  lemma MakingNeedsNone(gen: map<int, Net>, s: State, e: Event, t: State, pod: PodKey)
    requires Next(gen, s, e) == Some(t) && CreationStep(e, pod)
    ensures pod in t.vsd.containers <==> pod in s.vsd.containers || Makes(e, pod)
    ensures Makes(e, pod) ==> pod !in s.vsd.containers
  {
  }

  /** A pod never gets a second container: once it has one, every further attempt -- case 3
      after case 2, or either after a failed lookup -- ends with the address given back. */
  lemma {:induction false} AtMostOneContainer(gen: map<int, Net>, s: State, tr: seq<Event>, t: State, pod: PodKey)
    requires Run(gen, s, tr) == Some(t) && CreationSteps(tr, pod)
    ensures pod in t.vsd.containers <==> pod in s.vsd.containers || exists i :: 0 <= i < |tr| && Makes(tr[i], pod)
    ensures pod in s.vsd.containers ==> forall i :: 0 <= i < |tr| ==> !Makes(tr[i], pod)
    ensures forall i, j :: 0 <= i < j < |tr| && Makes(tr[i], pod) ==> !Makes(tr[j], pod)
  {
    if tr != [] {
      var init, last := tr[..|tr| - 1], tr[|tr| - 1];
      var r := Run(gen, s, init).value;
      assert forall i :: 0 <= i < |init| ==> init[i] == tr[i];
      AtMostOneContainer(gen, s, init, r, pod);
      MakingNeedsNone(gen, r, last, t, pod);
      if i :| 0 <= i < |init| && Makes(init[i], pod) {
        assert Makes(tr[i], pod);
      }
    }
  }

  // ---- when creation keeps the invariant ----

  lemma {:induction false} CreationIsHarmless(gen: map<int, Net>, s: State, tr: seq<Event>, pod: PodKey)
    requires Run(gen, s, tr).Some? && CreationSteps(tr, pod) && forall i :: 0 <= i < |tr| ==> !tr[i].LostCommit?
    ensures HarmlessRun(gen, s, tr)
  {
    if tr != [] {
      CreationIsHarmless(gen, s, tr[..|tr| - 1], pod);
    }
  }

  /** The pod's container is exposed, and no address of its subnet is in hand. */
  ghost predicate ExposedApart(s: State, pod: PodKey) {
    Exposed(s, pod) && PendingOn(s.agent.value, s.vsd.containers[pod].subnet) == {}
  }

  lemma ExposedBreaks(gen: map<int, Net>, s: State, pod: PodKey)
    requires Exposed(s, pod)
    ensures !Inv(gen, s)
  {
    var i := s.vsd.containers[pod];
    assert i.addr in Addrs(s.vsd, i.subnet);
  }

  /** Steps on other subnets leave it exposed. */
  predicate Elsewhere(e: Event, id: nat) {
    (e.Reserve? && e.id != id) || e.AddSubnet? || e.AdminSubnet? || e.Release?
  }

  lemma StaysExposed(gen: map<int, Net>, s: State, e: Event, t: State, pod: PodKey)
    requires Sound(gen, s) && Next(gen, s, e) == Some(t) && ExposedApart(s, pod)
    requires Elsewhere(e, s.vsd.containers[pod].subnet)
    ensures ExposedApart(t, pod) && t.vsd.containers[pod] == s.vsd.containers[pod]
  {
  }

  lemma {:induction false} StaysExposedRun(gen: map<int, Net>, s: State, tr: seq<Event>, t: State, pod: PodKey)
    requires Sound(gen, s) && Run(gen, s, tr) == Some(t) && ExposedApart(s, pod)
    requires forall i :: 0 <= i < |tr| ==> Elsewhere(tr[i], s.vsd.containers[pod].subnet)
    ensures ExposedApart(t, pod) && t.vsd.containers[pod] == s.vsd.containers[pod]
  {
    if tr != [] {
      var init := tr[..|tr| - 1];
      var r := Run(gen, s, init).value;
      StaysExposedRun(gen, s, init, r, pod);
      RunIsSound(gen, s, init, r);
      StaysExposed(gen, r, tr[|tr| - 1], t, pod);
    }
  }

  /** Settling an address of a custom subnet changes nothing that decides whether the
      namespace has an address left among its non-custom subnets and free prefixes. */
  lemma CustomAttemptKeepsRoom(gen: map<int, Net>, s: State, tr: seq<Event>, t: State, pod: PodKey, answers: Net -> Answer)
    requires s.agent.Some? && Run(gen, s, tr) == Some(t) && IsAttempt(tr, pod)
    requires tr != [] ==> tr[0].Reserve? && tr[0].id in s.agent.value.known && s.agent.value.known[tr[0].id].customed
    ensures t.agent.Some? && (NoAddress(t, pod.ns, answers) <==> NoAddress(s, pod.ns, answers))
    ensures pod in t.vsd.containers <==> pod in s.vsd.containers || (tr != [] && Makes(tr[1], pod))
    ensures t.agent.value.known.Keys == s.agent.value.known.Keys
    ensures forall id :: id in s.agent.value.known && !s.agent.value.known[id].customed ==>
              t.agent.value.known[id] == s.agent.value.known[id]
  {
    if tr != [] {
      assert tr == [tr[0], tr[1]];
      var mid := SplitTwo(gen, s, tr[0], tr[1], t);
      CustomStepKeepsRoom(s, mid, tr[0].id, pod.ns, answers);
      CustomStepKeepsRoom(mid, t, tr[0].id, pod.ns, answers);
    }
  }

  lemma SplitTwo(gen: map<int, Net>, s: State, e1: Event, e2: Event, t: State) returns (mid: State)
    requires Run(gen, s, [e1, e2]) == Some(t)
    ensures Next(gen, s, e1) == Some(mid) && Next(gen, mid, e2) == Some(t)
  {
    assert [e1, e2][..1] == [e1];
    assert [e1][..0] == [];
    assert Run(gen, s, [e1]) == Next(gen, s, e1);
    mid := Run(gen, s, [e1]).value;
  }

  lemma CustomStepKeepsRoom(s: State, t: State, id: nat, ns: string, answers: Net -> Answer)
    requires s.agent.Some? && t.agent.Some? && t.vsd.subnets == s.vsd.subnets && t.agent.value.free == s.agent.value.free
    requires id in s.agent.value.known && s.agent.value.known[id].customed
    requires id in t.agent.value.known && t.agent.value.known[id].customed
    requires forall k :: k in s.agent.value.known || k in t.agent.value.known ==>
               k in s.agent.value.known && k in t.agent.value.known &&
               (k == id || t.agent.value.known[k] == s.agent.value.known[k])
    ensures NoAddress(t, ns, answers) <==> NoAddress(s, ns, answers)
  {
    assert forall n :: Clear(t.vsd, n) <==> Clear(s.vsd, n);
  }

  /** How one PodCreated went: the order in which the labels were visited, the steps of case 2,
      and those of case 3 -- subnets made without the agent being told, then an attempt, in
      which taking is how the address was come by. */
  datatype Story = Story(order: seq<string>, first: seq<Event>, strays: seq<Event>, second: seq<Event>, taking: Event) {
    function Steps(): seq<Event> {
      first + strays + second
    }

    /** A container was made and reported as failed. */
    predicate LostOne() {
      (|first| == 2 && first[1].LostCommit?) || (|second| == 2 && second[1].LostCommit?)
    }
  }

  /** What the steps of a PodCreated are made of: case 2 takes from a custom subnet, case 3
      from a non-custom one, and a container made by case 2 is not made again. */
  ghost predicate WellTold(story: Story, s: State, pod: PodKey) {
    && s.agent.Some? && IsAttempt(story.first, pod) && IsAttempt(story.second, pod)
    && (story.first != [] ==>
          && story.first[0].Reserve? && story.first[0].id in s.agent.value.known
          && s.agent.value.known[story.first[0].id].customed)
    && (forall i :: 0 <= i < |story.strays| ==> story.strays[i].AdminSubnet?)
    && (story.second != [] && story.second[0].Reserve? ==>
          story.second[0].id in s.agent.value.known && !s.agent.value.known[story.second[0].id].customed)
    && (story.first != [] && Makes(story.first[1], pod) && story.second != [] ==> story.second[1].Release?)
  }

  lemma WellToldIsCreation(story: Story, s: State, pod: PodKey)
    requires WellTold(story, s, pod)
    ensures CreationSteps(story.Steps(), pod)
    ensures !story.LostOne() ==> forall i :: 0 <= i < |story.Steps()| ==> !story.Steps()[i].LostCommit?
  {
  }

  /** Creating a pod keeps the invariant exactly when no container was made and reported as
      failed -- subnets may be. */
  lemma CreationKeepsIff(gen: map<int, Net>, s: State, story: Story, t: State, pod: PodKey)
    requires Inv(gen, s) && WellTold(story, s, pod) && Run(gen, s, story.Steps()) == Some(t)
    ensures Inv(gen, t) <==> !story.LostOne()
  {
    WellToldIsCreation(story, s, pod);
    if !story.LostOne() {
      CreationIsHarmless(gen, s, story.Steps(), pod);
      RunKeeps(gen, s, story.Steps(), t);
    } else if |story.first| == 2 && story.first[1].LostCommit? {
      LostInCase2(gen, s, story, t, pod);
    } else {
      LostInCase3(gen, s, story, t, pod);
    }
  }

  /** The run and its end: it keeps the invariant exactly when all of its steps are harmless. */
  ghost predicate KeepsIff(gen: map<int, Net>, s: State, tr: seq<Event>, t: State) {
    && Run(gen, s, tr) == Some(t)
    && (Inv(gen, s) ==> (Inv(gen, t) <==> HarmlessRun(gen, s, tr)))
  }

  lemma CreationHarmlessIff(gen: map<int, Net>, s: State, story: Story, t: State, pod: PodKey)
    requires WellTold(story, s, pod) && Run(gen, s, story.Steps()) == Some(t)
    ensures KeepsIff(gen, s, story.Steps(), t)
  {
    if Inv(gen, s) {
      CreationKeepsIff(gen, s, story, t, pod);
      if HarmlessRun(gen, s, story.Steps()) {
        RunKeeps(gen, s, story.Steps(), t);
      } else if !story.LostOne() {
        WellToldIsCreation(story, s, pod);
        CreationIsHarmless(gen, s, story.Steps(), pod);
      }
    }
  }

  lemma {:induction false} RunSplits(gen: map<int, Net>, s: State, tr: seq<Event>, more: seq<Event>, t: State)
    returns (mid: State)
    requires Run(gen, s, tr + more) == Some(t)
    ensures Run(gen, s, tr) == Some(mid) && Run(gen, mid, more) == Some(t)
  {
    if more == [] {
      assert tr + more == tr;
      mid := t;
    } else {
      var init, last := more[..|more| - 1], more[|more| - 1];
      assert (tr + more)[..|tr + more| - 1] == tr + init;
      var r := Run(gen, s, tr + init).value;
      mid := RunSplits(gen, s, tr, init, r);
    }
  }

  lemma LostAttemptExposes(gen: map<int, Net>, s: State, id: nat, addr: int, mid: State, pod: PodKey)
    requires Run(gen, s, [Reserve(id, addr), LostCommit(pod)]) == Some(mid)
    ensures ExposedApart(mid, pod) && mid.vsd.containers[pod].subnet == id
  {
    var taken := SplitTwo(gen, s, Reserve(id, addr), LostCommit(pod), mid);
  }

  lemma Case3IsElsewhere(story: Story, s: State, pod: PodKey)
    requires WellTold(story, s, pod) && |story.first| == 2 && story.first[1].LostCommit?
    ensures var rest := story.strays + story.second; forall i :: 0 <= i < |rest| ==> Elsewhere(rest[i], story.first[0].id)
  {
  }

  lemma LostInCase2(gen: map<int, Net>, s: State, story: Story, t: State, pod: PodKey)
    requires Inv(gen, s) && WellTold(story, s, pod) && Run(gen, s, story.Steps()) == Some(t)
    requires |story.first| == 2 && story.first[1].LostCommit?
    ensures !Inv(gen, t)
  {
    var rest := story.strays + story.second;
    assert story.Steps() == story.first + rest;
    var mid := RunSplits(gen, s, story.first, rest, t);
    RunIsSound(gen, s, story.first, mid);
    assert story.first == [Reserve(story.first[0].id, story.first[0].addr), LostCommit(pod)];
    LostAttemptExposes(gen, s, story.first[0].id, story.first[0].addr, mid, pod);
    Case3IsElsewhere(story, s, pod);
    StaysExposedRun(gen, mid, rest, t, pod);
    ExposedBreaks(gen, t, pod);
  }

  lemma LostInCase3(gen: map<int, Net>, s: State, story: Story, t: State, pod: PodKey)
    requires WellTold(story, s, pod) && Run(gen, s, story.Steps()) == Some(t)
    requires |story.second| == 2 && story.second[1].LostCommit?
    ensures !Inv(gen, t)
  {
    var steps := story.Steps();
    var r := Run(gen, s, steps[..|steps| - 1]).value;
    assert steps[|steps| - 1] == story.second[1];
    LostCommitBreaks(gen, r, pod);
  }

  // ---- deleting a pod ----

  /** The network address of a container's address under its netmask, in 32 bits. */
  function NetworkOf(i: Iface): Option<int> {
    if 0 <= i.addr < Ipv4.TWO32 && 0 <= i.ones <= 32 then Some(Ipv4.And(i.addr, Ipv4.MaskValue(i.ones), 32)) else None
  }

  /** What the release loop finds: a loaded subnet of the namespace with the network address
      the container's address has under its netmask. */
  ghost predicate Finds(m: Memory, ns: string, i: Iface, hit: Option<nat>) {
    match hit
    case Some(id) => id in m.known && m.known[id].ns == ns && NetworkOf(i) == Some(m.known[id].net.addr)
    case None => forall id :: id in m.known && m.known[id].ns == ns ==> NetworkOf(i) != Some(m.known[id].net.addr)
  }

  /** The loop looks for the container's address with its host bits cleared, among the subnets
      of its namespace only. */
  lemma FindsIff(m: Memory, ns: string, i: Iface, hit: Option<nat>)
    requires 0 <= i.addr < 0x1_0000_0000 && 0 <= i.ones <= 32
    ensures var network := i.addr - i.addr % Pow2(32 - i.ones);
            Finds(m, ns, i, hit) <==>
            match hit
            case Some(id) => id in m.known && m.known[id].ns == ns && m.known[id].net.addr == network
            case None => forall id :: id in m.known && m.known[id].ns == ns ==> m.known[id].net.addr != network
  {
    Ipv4.MaskClearsHostBits(i.addr, i.ones);
  }

  /** The steps of a deletion; gone says whether the pod's record leaves in its course. */
  function DeletionSteps(pod: PodKey, gone: bool, hit: Option<nat>, addr: int): seq<Event> {
    (if gone then [Leave(pod)] else []) + (if hit.Some? then [Free(hit.value, addr)] else [])
  }

  /** The record may leave before or after the address is freed: the state is the same. */
  lemma LeavingAndFreeingCommute(gen: map<int, Net>, s: State, pod: PodKey, id: nat, addr: int, mid: State, t: State)
    requires Next(gen, s, Free(id, addr)) == Some(mid) && Next(gen, mid, Leave(pod)) == Some(t)
    ensures Run(gen, s, [Leave(pod), Free(id, addr)]) == Some(t)
  {
    var other := Apply(gen, s, Leave(pod));
    var t' := Apply(gen, other, Free(id, addr));
    var i := s.vsd.containers[pod];
    assert t'.agent.value.departed == t.agent.value.departed;
    assert t' == t;
    Two(gen, s, Leave(pod), other, Free(id, addr), t);
  }

  /** Deleting a pod keeps the invariant exactly when the address it frees -- whatever the CNI
      agent or the VSD said of the container -- is held by no live container afterwards. */
  lemma DeletionKeepsIff(gen: map<int, Net>, s: State, pod: PodKey, gone: bool, hit: Option<nat>, addr: int, t: State)
    requires Inv(gen, s) && Run(gen, s, DeletionSteps(pod, gone, hit, addr)) == Some(t)
    ensures Inv(gen, t) <==> hit.None? || addr !in Addrs(t.vsd, hit.value)
  {
    var first := if gone then [Leave(pod)] else [];
    var second := if hit.Some? then [Free(hit.value, addr)] else [];
    assert DeletionSteps(pod, gone, hit, addr) == first + second;
    var mid := RunSplits(gen, s, first, second, t);
    if gone {
      OneStep(gen, s, Leave(pod), mid);
      StepKeepsIff(gen, s, Leave(pod));
    }
    if hit.Some? {
      OneStep(gen, mid, Free(hit.value, addr), t);
      StepKeepsIff(gen, mid, Free(hit.value, addr));
    }
  }

  lemma DeletionHarmlessIff(gen: map<int, Net>, s: State, pod: PodKey, gone: bool, hit: Option<nat>, addr: int, t: State)
    requires Run(gen, s, DeletionSteps(pod, gone, hit, addr)) == Some(t)
    ensures KeepsIff(gen, s, DeletionSteps(pod, gone, hit, addr), t)
  {
    if Inv(gen, s) {
      var steps := DeletionSteps(pod, gone, hit, addr);
      DeletionKeepsIff(gen, s, pod, gone, hit, addr, t);
      if HarmlessRun(gen, s, steps) {
        RunKeeps(gen, s, steps, t);
      } else if Inv(gen, t) {
        NotHeldIsHarmless(gen, s, pod, gone, hit, addr, t);
      }
    }
  }

  lemma NotHeldIsHarmless(gen: map<int, Net>, s: State, pod: PodKey, gone: bool, hit: Option<nat>, addr: int, t: State)
    requires Run(gen, s, DeletionSteps(pod, gone, hit, addr)) == Some(t)
    requires hit.None? || addr !in Addrs(t.vsd, hit.value)
    ensures HarmlessRun(gen, s, DeletionSteps(pod, gone, hit, addr))
  {
    var first := if gone then [Leave(pod)] else [];
    if gone {
      HarmlessThen(gen, s, [], s, Leave(pod));
      assert [] + [Leave(pod)] == first;
    }
    if hit.Some? {
      var free := Free(hit.value, addr);
      assert DeletionSteps(pod, gone, hit, addr) == first + [free];
      var mid := RunSplits(gen, s, first, [free], t);
      OneStep(gen, mid, free, t);
      HarmlessThen(gen, s, first, mid, free);
    } else {
      assert DeletionSteps(pod, gone, hit, addr) == first;
    }
  }

  lemma DeletionVsd(gen: map<int, Net>, s: State, pod: PodKey, gone: bool, hit: Option<nat>, addr: int, t: State)
    requires Run(gen, s, DeletionSteps(pod, gone, hit, addr)) == Some(t)
    ensures t.vsd == if gone then s.vsd.(containers := Drop(s.vsd.containers, pod)) else s.vsd
  {
    var first := if gone then [Leave(pod)] else [];
    var second := if hit.Some? then [Free(hit.value, addr)] else [];
    assert DeletionSteps(pod, gone, hit, addr) == first + second;
    var mid := RunSplits(gen, s, first, second, t);
    if gone {
      OneStep(gen, s, Leave(pod), mid);
    }
    if hit.Some? {
      OneStep(gen, mid, Free(hit.value, addr), t);
    }
  }

  /** What a deletion changes: perhaps the pod's record goes; perhaps one address leaves the
      range of one subnet. */
  lemma DeletionIs(gen: map<int, Net>, s: State, pod: PodKey, gone: bool, hit: Option<nat>, addr: int, t: State)
    requires Run(gen, s, DeletionSteps(pod, gone, hit, addr)) == Some(t) && s.agent.Some?
    ensures t.vsd == s.vsd.(containers := if gone then s.vsd.containers - {pod} else s.vsd.containers)
    ensures t.agent.Some? && t.agent.value.free == s.agent.value.free && t.agent.value.loaded == s.agent.value.loaded
    ensures var known := s.agent.value.known;
            if hit.None? then t.agent.value.known == known
            else hit.value in known
                 && t.agent.value.known == known[hit.value := known[hit.value].(used := known[hit.value].used - {addr})]
  {
    var first := if gone then [Leave(pod)] else [];
    var second := if hit.Some? then [Free(hit.value, addr)] else [];
    assert DeletionSteps(pod, gone, hit, addr) == first + second;
    assert Drop(s.vsd.containers, pod) == s.vsd.containers - {pod};
    var mid := RunSplits(gen, s, first, second, t);
    if gone {
      OneStep(gen, s, Leave(pod), mid);
    }
    if hit.Some? {
      OneStep(gen, mid, Free(hit.value, addr), t);
    }
  }

  lemma OneStep(gen: map<int, Net>, s: State, e: Event, t: State)
    requires Run(gen, s, [e]) == Some(t)
    ensures Next(gen, s, e) == Some(t)
  {
    assert [e][..0] == [];
  }

  /** Masking a container's address with its netmask gives the address of its own subnet and
      of no other subnet of the VSD. */
  lemma MaskedIsOwn(v: Vsd, i: Iface, k: nat)
    requires SubnetsApart(v) && i.subnet in v.subnets && k in v.subnets
    requires i.addr in v.subnets[i.subnet].net.Hosts() && i.ones == v.subnets[i.subnet].net.ones
    ensures NetworkOf(i) == Some(v.subnets[k].net.addr) <==> k == i.subnet
  {
    MaskingSeparates(v.subnets[i.subnet].net, v.subnets[k].net, i.addr);
  }

  /** Release finds its home: for a container whose record the VSD has, the loop finds its own
      subnet if that is loaded, and otherwise none. */
  lemma OwnRecordFindsHome(gen: map<int, Net>, s: State, pod: PodKey, hit: Option<nat>)
    requires Sound(gen, s) && s.agent.Some? && pod in s.vsd.containers
    requires Finds(s.agent.value, pod.ns, s.vsd.containers[pod], hit)
    ensures var id := s.vsd.containers[pod].subnet; hit == if id in s.agent.value.known then Some(id) else None
  {
    var i := s.vsd.containers[pod];
    if hit.Some? {
      MaskedIsOwn(s.vsd, i, hit.value);
    }
    MaskedIsOwn(s.vsd, i, i.subnet);
  }

  /** Deleting a pod by its own record: its address leaves its own range, and the invariant
      holds afterwards exactly when the record is gone or the subnet was never loaded. */
  lemma OwnRecordKeepsIff(gen: map<int, Net>, s: State, pod: PodKey, gone: bool, hit: Option<nat>, t: State)
    requires Inv(gen, s) && s.agent.Some? && pod in s.vsd.containers
    requires var i := s.vsd.containers[pod];
             Finds(s.agent.value, pod.ns, i, hit) && Run(gen, s, DeletionSteps(pod, gone, hit, i.addr)) == Some(t)
    ensures Inv(gen, t) <==> gone || s.vsd.containers[pod].subnet !in s.agent.value.known
  {
    var i := s.vsd.containers[pod];
    OwnRecordFindsHome(gen, s, pod, hit);
    DeletionKeepsIff(gen, s, pod, gone, hit, i.addr, t);
    DeletionVsd(gen, s, pod, gone, hit, i.addr, t);
    if gone {
      AddrsAfterLeaving(s.vsd, t.vsd, pod, i.subnet);
    } else {
      assert i.addr in Addrs(s.vsd, i.subnet);
    }
  }

  /** Deleting a pod by what the CNI agent says, long after its record may have left: if this
      process has known the container, its subnet is still found, and without a restart in
      between the invariant survives once the record is gone. */
  lemma TrueAnswerKeeps(gen: map<int, Net>, s: State, tr: seq<Event>, t: State,
                        a: PodKey, gone: bool, hit: Option<nat>, t': State)
    requires Inv(gen, s) && s.agent.Some? && a in s.vsd.containers && s.vsd.containers[a].subnet in s.agent.value.known
    requires Run(gen, s, tr) == Some(t) && HarmlessRun(gen, s, tr) && t.agent.Some?
    requires var i := s.vsd.containers[a];
             && (forall e :: e in tr ==> !e.Crash? && e != Free(i.subnet, i.addr))
             && Finds(t.agent.value, a.ns, i, hit) && Run(gen, t, DeletionSteps(a, gone, hit, i.addr)) == Some(t')
    requires a !in t'.vsd.containers
    ensures hit == Some(s.vsd.containers[a].subnet) && Inv(gen, t')
  {
    var i := s.vsd.containers[a];
    AnswersStayTrue(gen, s, tr, t, a);
    SubnetsStay(gen, s, tr, t, i.subnet);
    RunKeeps(gen, s, tr, t);
    if hit.Some? {
      MaskedIsOwn(t.vsd, i, hit.value);
    }
    MaskedIsOwn(t.vsd, i, i.subnet);
    DeletionVsd(gen, t, a, gone, hit, i.addr, t');
    DeletionKeepsIff(gen, t, a, gone, hit, i.addr, t');
  }

  // ---- loading a namespace ----

  lemma LoadNone(v: Vsd, m: Memory, ns: string)
    ensures Loaded(v, m, ns, {}) == m.(loaded := m.loaded + {ns})
  {
    assert Prefixes(v, {}) == {} && m.free - {} == m.free;
    assert LoadedEntries(v, m.free, {}) == map[];
  }

  /** The zone's subnets are new to the agent, their prefixes differ, and their containers
      have host addresses. */
  ghost predicate Loadable(v: Vsd, known: map<nat, Entry>, ns: string) {
    && (forall id :: id in SubnetsOf(v, ns) ==> id !in known && Addrs(v, id) <= v.subnets[id].net.Hosts())
    && (forall i, j :: i in SubnetsOf(v, ns) && j in SubnetsOf(v, ns) && i != j ==>
          v.subnets[i].net.addr != v.subnets[j].net.addr)
  }

  lemma ZoneIsLoadable(gen: map<int, Net>, v: Vsd, m: Memory, ns: string)
    requires SubnetsApart(v) && ContainersPlaced(v) && KnownAgrees(gen, v, m) && ns !in m.loaded
    ensures Loadable(v, m.known, ns)
  {
    forall i, j | i in SubnetsOf(v, ns) && j in SubnetsOf(v, ns) && i != j
      ensures v.subnets[i].net.addr != v.subnets[j].net.addr
    {
      DistinctAddresses(v, i, j);
    }
  }

  lemma OneMorePrefix(v: Vsd, free: map<int, Net>, done: set<nat>, id: nat)
    requires id in v.subnets
    ensures free - Prefixes(v, done + {id}) == free - Prefixes(v, done) - {v.subnets[id].net.addr}
  {
    assert Prefixes(v, done + {id}) == Prefixes(v, done) + {v.subnets[id].net.addr};
  }

  lemma OneMoreEntry(v: Vsd, free: map<int, Net>, done: set<nat>, id: nat)
    requires done <= v.subnets.Keys && id in v.subnets
    ensures LoadedEntries(v, free, done + {id}) == LoadedEntries(v, free, done)[id := LoadedEntry(v, free, id)]
  {
  }

  /** What is missing on subnets still to be loaded does not show yet. */
  lemma LoadedElsewhere(v: Vsd, m: Memory, ns: string, done: set<nat>, lost: set<PodKey>, more: set<PodKey>)
    requires done <= v.subnets.Keys && forall id :: id in done ==> On(v, id) !! more
    ensures Loaded(Seen(v, lost + more), m, ns, done) == Loaded(Seen(v, lost), m, ns, done)
  {
    assert Prefixes(Seen(v, lost + more), done) == Prefixes(Seen(v, lost), done);
    forall id | id in done
      ensures LoadedEntry(Seen(v, lost + more), m.free, id) == LoadedEntry(Seen(v, lost), m.free, id)
    {
      SeenElsewhere(v, lost, more, id);
    }
    assert LoadedEntries(Seen(v, lost + more), m.free, done) == LoadedEntries(Seen(v, lost), m.free, done);
  }

  lemma OneMoreSubnet(v: Vsd, m: Memory, ns: string, done: set<nat>, id: nat)
    requires done <= v.subnets.Keys && id in v.subnets && v.subnets[id].net.addr !in Prefixes(v, done)
    ensures var before, after := Loaded(v, m, ns, done), Loaded(v, m, ns, done + {id});
            && after.free == before.free - {v.subnets[id].net.addr}
            && after.known == before.known[id := LoadedEntry(v, before.free, id)]
  {
    OneMorePrefix(v, m.free, done, id);
    OneMoreEntry(v, m.free, done, id);
    var entry := LoadedEntry(v, m.free, id);
    assert m.known + LoadedEntries(v, m.free, done)[id := entry] == (m.known + LoadedEntries(v, m.free, done))[id := entry];
  }

  /** Loading subnet by subnet, each with what its own interface list lacks, is loading them
      at once with all that was missing. */
  lemma LoadOneMore(v: Vsd, m: Memory, ns: string, done: set<nat>, lost: set<PodKey>, id: nat, more: set<PodKey>)
    requires Loadable(v, m.known, ns) && done <= SubnetsOf(v, ns) && id in SubnetsOf(v, ns) && id !in done
    requires AreOn(v, lost, done) && more <= On(v, id)
    ensures var before, after := Loaded(Seen(v, lost), m, ns, done), Loaded(Seen(v, lost + more), m, ns, done + {id});
            && after.free == before.free - {v.subnets[id].net.addr}
            && id !in before.known
            && after.known == before.known[id := LoadedEntry(Seen(v, more), before.free, id)]
  {
    LoadedElsewhere(v, m, ns, done, lost, more);
    assert v.subnets[id].net.addr !in Prefixes(Seen(v, lost + more), done);
    OneMoreSubnet(Seen(v, lost + more), m, ns, done, id);
    OnOthers(v, done, lost, id);
    SeenElsewhere(v, more, lost, id);
    assert more + lost == lost + more;
  }
}
