// The agent over a whole run of Kubernetes events, of what others do to the VSD meanwhile, and
// of process deaths.
module Serving {
  import opened Base
  import opened Cidr
  import opened Ipam
  import opened IpamSafety
  import opened Recovery
  import opened IpamTheorems
  import opened Handlers
  import opened Services
  import opened Agent

  datatype Call =
    | NamespaceAdded(ns: string, zoneOk: bool, listOk: bool, broken: set<nat>)
    | PodAdded(pod: Pod, answers: PodEnv)
    | PodRemoved(key: PodKey, course: DeleteEnv)
    | PodChanged(key: PodKey, wasScheduled: bool, isScheduled: bool, putOk: bool)
    | RecordLeft(key: PodKey)                          // the node's plugin removes a container's record
    | SubnetMade(ns: string, name: string, net: Net)   // an administrator asks the VSD for a subnet
    | Killed

  /** The agent and the VSD at one moment: the state, the namespaces' subnet lists and the cache
      of pods without a node. */
  datatype Moment = Moment(state: State, namespaces: map<string, seq<Subnet>>, pods: map<PodKey, Iface>)

  ghost function Now(agent: Agent): Moment
    reads agent, agent.vsd
  {
    Moment(agent.View(), agent.namespaces, agent.pods)
  }

  /** Subnets are aligned to their masks, and no mask is shorter than /2. */
  ghost predicate Proper(c: Call) {
    c.SubnetMade? ==> GoodNet(c.net)
  }

  ghost predicate HeldByNone(v: Vsd, addr: int) {
    forall p :: p in v.containers ==> v.containers[p].addr != addr
  }

  /** What does no harm, told from the state before and the VSD after: no container made and
      reported as failed, interface lists that come whole, no live container with the address
      of the deleted one. */
  ghost predicate Mild(s: State, c: Call, v': Vsd) {
    match c
    case PodAdded(_, answers) => !answers.custom.Lost? && !answers.normal.Lost?
    case NamespaceAdded(ns, _, _, broken) => forall id :: id in SubnetsOf(s.vsd, ns) ==> ListedWhole(s.vsd, id, broken)
    case PodRemoved(key, course) =>
      var found := FoundDeleted(key, course, s.vsd.containers);
      found.Some? ==> HeldByNone(v', found.value.addr)
    case _ => true
  }

  /** Lists and state tell the same of the loaded subnets. */
  ghost predicate Coherent(m: Moment) {
    && m.state.agent.Some? && m.namespaces.Keys == m.state.agent.value.loaded
    && var known := m.state.agent.value.known;
       && (forall ns, i :: ns in m.namespaces && 0 <= i < |m.namespaces[ns]| ==>
             var s := m.namespaces[ns][i];
             s.id in known && known[s.id] == Entry(ns, s.net, s.customed, known[s.id].used))
       && (forall id :: id in known ==>
             && known[id].ns in m.namespaces
             && exists i :: 0 <= i < |m.namespaces[known[id].ns]| && m.namespaces[known[id].ns][i].id == id)
  }

  lemma IsCoherent(agent: Agent)
    requires agent.Valid()
    ensures Coherent(Now(agent))
  {
    var m := Now(agent);
    forall id | id in agent.known
      ensures agent.known[id].ns in m.namespaces
      ensures exists i :: 0 <= i < |m.namespaces[agent.known[id].ns]| && m.namespaces[agent.known[id].ns][i].id == id
    {
      assert agent.table.info[id] in agent.namespaces[agent.known[id].ns];
    }
  }

  /** Lists only get longer. */
  ghost predicate Grown(b: map<string, seq<Subnet>>, a: map<string, seq<Subnet>>) {
    forall ns :: ns in b ==> ns in a && b[ns] <= a[ns]
  }

  /** Nothing, if the namespace is not loaded or the VSD has the container; else what the two
      cases come to. A pod without a node has its container cached if the agent was told of it. */
  ghost predicate DoesCreate(gen: map<int, Net>, b: Moment, pod: Pod, answers: PodEnv, tr: seq<Event>, died: bool,
                             a: Moment)
  {
    && Grown(b.namespaces, a.namespaces)
    && (if pod.key.ns !in b.namespaces || (answers.fetchOk && pod.key in b.state.vsd.containers) then !died && tr == []
        else exists story, r ::
          && Concludes(gen, b.state, a.state, b.namespaces[pod.key.ns], pod, answers, story, r)
          && tr == story.Steps() && (died <==> r == Died))
    && (!died && !pod.scheduled && Commit(pod.key) in tr ==>
          pod.key in a.state.vsd.containers && a.pods == b.pods[pod.key := a.state.vsd.containers[pod.key]])
    && (died || pod.scheduled || Commit(pod.key) !in tr ==> a.pods == b.pods)
  }

  /** The container is what the CNI agent says, or else the VSD's record; without either the
      process dies. */
  ghost predicate DoesDelete(b: Moment, key: PodKey, course: DeleteEnv, tr: seq<Event>, died: bool)
    requires b.state.agent.Some?
  {
    match FoundDeleted(key, course, b.state.vsd.containers)
    case None => died && tr == []
    case Some(i) =>
      !died && exists hit ::
        && Finds(b.state.agent.value, key.ns, i, hit)
        && tr == DeletionSteps(key, RecordGoes(key, course, b.state.vsd.containers), hit, i.addr)
  }

  /** Nothing, if the zone cannot be had or the namespace is loaded; else one load with the
      lists the VSD yields. */
  ghost predicate DoesLoad(b: Moment, ns: string, zoneOk: bool, listOk: bool, broken: set<nat>, tr: seq<Event>, a: Moment) {
    if ns in b.namespaces || !zoneOk then tr == [] && a.namespaces == b.namespaces
    else
      && |tr| == 1 && tr[0].LoadNamespace? && tr[0].ns == ns
      && Answered(b.state.vsd, Load(ns, tr[0].ids, tr[0].lost), listOk, broken)
      && ns in a.namespaces && a.namespaces == b.namespaces[ns := a.namespaces[ns]]
  }

  /** What each call does: its steps, whether the process dies of it, and the lists and the
      cache afterwards. */
  ghost predicate Does(gen: map<int, Net>, b: Moment, c: Call, tr: seq<Event>, died: bool, a: Moment) {
    && b.state.agent.Some?
    && (c.PodAdded? || c.NamespaceAdded? || a.namespaces == b.namespaces)
    && (c.PodAdded? || c.PodChanged? || a.pods == b.pods)
    && match c
       case NamespaceAdded(ns, zoneOk, listOk, broken) => !died && DoesLoad(b, ns, zoneOk, listOk, broken, tr, a)
       case PodAdded(pod, answers) => DoesCreate(gen, b, pod, answers, tr, died, a)
       case PodRemoved(key, course) => DoesDelete(b, key, course, tr, died)
       case PodChanged(key, wasScheduled, isScheduled, putOk) =>
         && !died && tr == []
         && a.pods == if !wasScheduled && isScheduled && putOk && key in b.pods then b.pods - {key} else b.pods
       case RecordLeft(key) => !died && tr == if key in b.state.vsd.containers then [Leave(key)] else []
       case SubnetMade(ns, name, net) =>
         && !died && (Clear(b.state.vsd, net) <==> tr != [])
         && (tr != [] ==> |tr| == 1 && tr[0].AdminSubnet? && tr[0].ns == ns && tr[0].net == net)
       case Killed => died && tr == []
  }

  /** The run and its end: the invariant survives exactly when all steps were harmless, and it
      does if the call was mild. */
  ghost predicate Handled(gen: map<int, Net>, s: State, c: Call, tr: seq<Event>, t: State) {
    KeepsIff(gen, s, tr, t) && (Inv(gen, s) && Mild(s, c, t.vsd) ==> Inv(gen, t))
  }

  lemma NothingHandled(gen: map<int, Net>, s: State, c: Call)
    ensures Handled(gen, s, c, [], s)
  {
  }

  lemma OneHandled(gen: map<int, Net>, s: State, c: Call, e: Event, t: State)
    requires Next(gen, s, e) == Some(t) && (Inv(gen, s) && Mild(s, c, t.vsd) ==> Harmless(s, e))
    ensures Handled(gen, s, c, [e], t)
  {
    One(gen, s, e, t);
    assert [e][..0] == [];
    if Inv(gen, s) {
      StepKeepsIff(gen, s, e);
    }
  }

  lemma LoadHandled(gen: map<int, Net>, b: Moment, c: Call, tr: seq<Event>, a: Moment)
    requires c.NamespaceAdded? && DoesLoad(b, c.ns, c.zoneOk, c.listOk, c.broken, tr, a)
    requires Run(gen, b.state, tr) == Some(a.state)
    ensures Handled(gen, b.state, c, tr, a.state)
  {
    if tr == [] {
      NothingHandled(gen, b.state, c);
    } else {
      var l := Load(c.ns, tr[0].ids, tr[0].lost);
      assert tr == [LoadEvent(l)];
      OneStep(gen, b.state, LoadEvent(l), a.state);
      AllListedIff(b.state.vsd, l, c.listOk, c.broken);
      OneHandled(gen, b.state, c, LoadEvent(l), a.state);
    }
  }

  lemma StoryHandled(gen: map<int, Net>, s: State, story: Story, subnets: seq<Subnet>, pod: Pod, answers: PodEnv, t: State)
    requires s.agent.Some? && Told(story, gen, s, subnets, pod, answers) && Run(gen, s, story.Steps()) == Some(t)
    ensures Handled(gen, s, PodAdded(pod, answers), story.Steps(), t)
  {
    CreationHarmlessIff(gen, s, story, t, pod.key);
    if Inv(gen, s) && Mild(s, PodAdded(pod, answers), t.vsd) {
      LostOneIff(story, gen, s, subnets, pod, answers);
      CreationKeepsIff(gen, s, story, t, pod.key);
    }
  }

  lemma CreationHandled(gen: map<int, Net>, b: Moment, pod: Pod, answers: PodEnv, tr: seq<Event>, died: bool, a: Moment)
    requires DoesCreate(gen, b, pod, answers, tr, died, a) && Run(gen, b.state, tr) == Some(a.state)
    ensures Handled(gen, b.state, PodAdded(pod, answers), tr, a.state)
  {
    var s, t := b.state, a.state;
    if pod.key.ns in b.namespaces && !(answers.fetchOk && pod.key in s.vsd.containers) {
      var story, r :| Concludes(gen, s, t, b.namespaces[pod.key.ns], pod, answers, story, r) && tr == story.Steps();
      StoryHandled(gen, s, story, b.namespaces[pod.key.ns], pod, answers, t);
    } else {
      NothingHandled(gen, s, PodAdded(pod, answers));
    }
  }

  lemma DeletionHandled(gen: map<int, Net>, b: Moment, key: PodKey, course: DeleteEnv, tr: seq<Event>, died: bool, t: State)
    requires b.state.agent.Some? && DoesDelete(b, key, course, tr, died) && Run(gen, b.state, tr) == Some(t)
    ensures Handled(gen, b.state, PodRemoved(key, course), tr, t)
  {
    var s, found := b.state, FoundDeleted(key, course, b.state.vsd.containers);
    if found.Some? {
      var gone := RecordGoes(key, course, s.vsd.containers);
      var hit :| Finds(s.agent.value, key.ns, found.value, hit) && tr == DeletionSteps(key, gone, hit, found.value.addr);
      DeletionHarmlessIff(gen, s, key, gone, hit, found.value.addr, t);
      if Inv(gen, s) && HeldByNone(t.vsd, found.value.addr) {
        DeletionKeepsIff(gen, s, key, gone, hit, found.value.addr, t);
      }
    } else {
      NothingHandled(gen, s, PodRemoved(key, course));
    }
  }

  /** Whatever a call does is a run with that property. */
  lemma DoesIsHandled(gen: map<int, Net>, b: Moment, c: Call, tr: seq<Event>, died: bool, a: Moment)
    requires Does(gen, b, c, tr, died, a) && Run(gen, b.state, tr) == Some(a.state)
    ensures Handled(gen, b.state, c, tr, a.state)
  {
    match c {
      case NamespaceAdded(_, _, _, _) => LoadHandled(gen, b, c, tr, a);
      case PodAdded(pod, answers) => CreationHandled(gen, b, pod, answers, tr, died, a);
      case PodRemoved(key, course) => DeletionHandled(gen, b, key, course, tr, died, a.state);
      case _ => AtMostOneHandled(gen, b.state, c, tr, a.state);
    }
  }

  lemma AtMostOneHandled(gen: map<int, Net>, s: State, c: Call, tr: seq<Event>, t: State)
    requires |tr| <= 1 && Run(gen, s, tr) == Some(t) && (tr != [] ==> Harmless(s, tr[0]))
    ensures Handled(gen, s, c, tr, t)
  {
    if tr == [] {
      NothingHandled(gen, s, c);
    } else {
      assert tr == [tr[0]];
      OneStep(gen, s, tr[0], t);
      OneHandled(gen, s, c, tr[0], t);
    }
  }

  method LoadZone(agent: Agent, ns: string, zoneOk: bool, listOk: bool, broken: set<nat>) returns (ghost tr: seq<Event>)
    requires agent.Valid() && agent.pending.None? && Sound(agent.gen, agent.View())
    modifies agent
    ensures agent.Valid() && agent.pending.None? && Run(agent.gen, old(agent.View()), tr) == Some(agent.View())
    ensures Does(agent.gen, old(Now(agent)), NamespaceAdded(ns, zoneOk, listOk, broken), tr, false, Now(agent))
    ensures forall r :: r in agent.Ranges() && r !in old(agent.Ranges()) ==> fresh(r)
  {
    tr := [];
    if ns !in agent.namespaces {
      var failed;
      ghost var l;
      failed, tr, l := agent.NamespaceCreated(ns, zoneOk, listOk, broken);
    }
  }

  lemma GrowsLists(t: Listing, added: Option<Subnet>)
    ensures Grown(t.namespaces, GrownBy(t, added).namespaces)
  {
  }

  lemma CreationDoes(gen: map<int, Net>, b: Moment, pod: Pod, answers: PodEnv, story: Story, died: bool, a: Moment)
    requires b.state.agent.Some? && Run(gen, b.state, story.Steps()) == Some(a.state) && Grown(b.namespaces, a.namespaces)
    requires pod.key.ns !in b.namespaces || (answers.fetchOk && pod.key in b.state.vsd.containers) ==>
               !died && story.Steps() == []
    requires pod.key.ns in b.namespaces && !(answers.fetchOk && pod.key in b.state.vsd.containers) ==>
               && Told(story, gen, b.state, b.namespaces[pod.key.ns], pod, answers)
               && (var r := ResultOf(story, NoAddress(b.state, pod.key.ns, answers.subnet), b.state, pod, answers,
                                     a.state.vsd.containers);
                   died == r.Died?)
               && (!died && (Served(story.first, pod) || !answers.normal.Refused?) ==> pod.key in a.state.vsd.containers)
    requires !died && !pod.scheduled && Commit(pod.key) in story.Steps() ==>
               pod.key in a.state.vsd.containers && a.pods == b.pods[pod.key := a.state.vsd.containers[pod.key]]
    requires died || pod.scheduled || Commit(pod.key) !in story.Steps() ==> a.pods == b.pods
    ensures DoesCreate(gen, b, pod, answers, story.Steps(), died, a)
  {
    if pod.key.ns in b.namespaces && !(answers.fetchOk && pod.key in b.state.vsd.containers) {
      var r := ResultOf(story, NoAddress(b.state, pod.key.ns, answers.subnet), b.state, pod, answers,
                        a.state.vsd.containers);
      assert Concludes(gen, b.state, a.state, b.namespaces[pod.key.ns], pod, answers, story, r);
    }
  }

  method Create(agent: Agent, pod: Pod, answers: PodEnv) returns (died: bool, ghost tr: seq<Event>)
    requires agent.Valid() && agent.pending.None? && Sound(agent.gen, agent.View())
    modifies agent, agent.vsd, agent.Ranges()
    ensures agent.Valid() && agent.pending.None? && Run(agent.gen, old(agent.View()), tr) == Some(agent.View())
    ensures Does(agent.gen, old(Now(agent)), PodAdded(pod, answers), tr, died, Now(agent))
    ensures forall r :: r in agent.Ranges() && r !in old(agent.Ranges()) ==> fresh(r)
  {
    ghost var story, added;
    died, story, added := agent.PodCreated(pod, answers);
    tr := story.Steps();
    GrowsLists(old(agent.table), added);
    CreationDoes(agent.gen, old(Now(agent)), pod, answers, story, died, Now(agent));
  }

  lemma DeletionDoes(b: Moment, key: PodKey, course: DeleteEnv, tr: seq<Event>, died: bool, hit: Option<nat>)
    requires b.state.agent.Some? && (died <==> FoundDeleted(key, course, b.state.vsd.containers).None?)
    requires died ==> tr == []
    requires !died ==>
               var i := FoundDeleted(key, course, b.state.vsd.containers).value;
               && Finds(b.state.agent.value, key.ns, i, hit)
               && tr == DeletionSteps(key, RecordGoes(key, course, b.state.vsd.containers), hit, i.addr)
    ensures DoesDelete(b, key, course, tr, died)
  {
  }

  method Delete(agent: Agent, key: PodKey, course: DeleteEnv) returns (died: bool, ghost tr: seq<Event>)
    requires agent.Valid() && agent.pending.None? && Sound(agent.gen, agent.View())
    modifies agent, agent.vsd, agent.Ranges()
    ensures agent.Valid() && agent.pending.None? && agent.table == old(agent.table)
    ensures Run(agent.gen, old(agent.View()), tr) == Some(agent.View())
    ensures Does(agent.gen, old(Now(agent)), PodRemoved(key, course), tr, died, Now(agent))
  {
    ghost var hit;
    died, tr, hit := agent.PodDeleted(key, course);
    DeletionDoes(old(Now(agent)), key, course, tr, died, hit);
  }

  method LoseRecord(agent: Agent, key: PodKey) returns (ghost tr: seq<Event>)
    requires agent.Valid()
    modifies agent`departed, agent.vsd
    ensures agent.Valid() && Run(agent.gen, old(agent.View()), tr) == Some(agent.View())
    ensures Does(agent.gen, old(Now(agent)), RecordLeft(key), tr, false, Now(agent))
  {
    tr := [];
    if key in agent.vsd.containers {
      agent.RecordLeaves(key);
      tr := [Leave(key)];
      One(agent.gen, old(agent.View()), Leave(key), agent.View());
    }
  }

  method MakeSubnet(agent: Agent, ns: string, name: string, net: Net) returns (ghost tr: seq<Event>)
    requires agent.Valid() && GoodNet(net)
    modifies agent.vsd
    ensures agent.Valid() && Run(agent.gen, old(agent.View()), tr) == Some(agent.View())
    ensures Does(agent.gen, old(Now(agent)), SubnetMade(ns, name, net), tr, false, Now(agent))
  {
    var id;
    ghost var made;
    id, made := agent.vsd.CreateSubnet(ns, name, net, Fine);
    tr := [];
    if id.Some? {
      tr := [AdminSubnet(id.value, ns, net)];
      One(agent.gen, old(agent.View()), AdminSubnet(id.value, ns, net), agent.View());
    }
  }

  /** One event, whatever the answers. The process may die; a namespace event is handled once
      per process. */
  method Handle(agent: Agent, c: Call) returns (died: bool, ghost tr: seq<Event>)
    requires agent.Valid() && agent.pending.None? && Sound(agent.gen, agent.View()) && Proper(c)
    modifies agent, agent.vsd, agent.Ranges()
    ensures agent.Valid() && agent.pending.None?
    ensures Does(agent.gen, old(Now(agent)), c, tr, died, Now(agent))
    ensures Handled(agent.gen, old(agent.View()), c, tr, agent.View())
    ensures forall r :: r in agent.Ranges() && r !in old(agent.Ranges()) ==> fresh(r)
  {
    died, tr := false, [];
    match c {
      case NamespaceAdded(ns, zoneOk, listOk, broken) => tr := LoadZone(agent, ns, zoneOk, listOk, broken);
      case PodAdded(pod, answers) => died, tr := Create(agent, pod, answers);
      case PodRemoved(key, course) => died, tr := Delete(agent, key, course);
      case PodChanged(key, wasScheduled, isScheduled, putOk) =>
        var submitted, failed := agent.PodUpdated(key, wasScheduled, isScheduled, putOk);
      case RecordLeft(key) => tr := LoseRecord(agent, key);
      case SubnetMade(ns, name, net) => tr := MakeSubnet(agent, ns, name, net);
      case Killed => died := true;
    }
    DoesIsHandled(agent.gen, old(Now(agent)), c, tr, died, Now(agent));
  }

  /** A fresh process on the VSD as it is. */
  method Restart(ghost gen: map<int, Net>, pool: map<int, Net>, vsd: VsdServer) returns (agent: Agent)
    requires pool == gen && GoodPool(gen)
    ensures fresh(agent) && agent.gen == gen && agent.vsd == vsd && agent.Ranges() == {}
    ensures agent.Valid() && agent.pending.None? && agent.namespaces == map[] && agent.pods == map[]
    ensures Next(gen, State(vsd.Contents(), None), Boot) == Some(agent.View())
    ensures VsdOk(vsd.Contents()) ==> Inv(gen, agent.View())
  {
    agent := new Agent(gen, pool, vsd);
    if VsdOk(vsd.Contents()) {
      BootKeeps(gen, State(vsd.Contents(), None));
    }
  }

  lemma DiedThenLeads(gen: map<int, Net>, b: Moment, c: Call, tr: seq<Event>, m: Moment, a: Moment)
    requires Does(gen, b, c, tr, true, m) && Run(gen, b.state, tr) == Some(m.state) && m.state.agent.Some?
    requires Next(gen, State(m.state.vsd, None), Boot) == Some(a.state) && a.namespaces == map[] && a.pods == map[]
    ensures Leads(gen, b, c, tr + [Crash, Boot], a)
  {
    assert Does(gen, b, c, tr, true, Moment(m.state, b.namespaces, b.pods));
    Two(gen, m.state, Crash, State(m.state.vsd, None), Boot, a.state);
    ThenRun(gen, b.state, tr, m.state, [Crash, Boot], a.state);
  }

  /** Handling one call, and a fresh process if it was the end of the old one. */
  ghost predicate Leads(gen: map<int, Net>, b: Moment, c: Call, steps: seq<Event>, a: Moment) {
    && Run(gen, b.state, steps) == Some(a.state)
    && (|| Does(gen, b, c, steps, false, a)
        || (&& a.namespaces == map[] && a.pods == map[]
            && exists tr, t ::
                 && Does(gen, b, c, tr, true, Moment(t, b.namespaces, b.pods)) && Run(gen, b.state, tr) == Some(t)
                 && steps == tr + [Crash, Boot]))
  }

  lemma RebootKeeps(gen: map<int, Net>, s: State, tr: seq<Event>, t: State, a: State)
    requires Run(gen, s, tr) == Some(t) && Run(gen, s, tr + [Crash, Boot]) == Some(a)
    ensures a.vsd == t.vsd && (Inv(gen, t) ==> Inv(gen, a))
  {
    var t' := RunSplits(gen, s, tr, [Crash, Boot], a);
    var down := SplitTwo(gen, t, Crash, Boot, a);
    if Inv(gen, t) {
      BootKeeps(gen, down);
    }
  }

  lemma MildLeads(gen: map<int, Net>, b: Moment, c: Call, steps: seq<Event>, a: Moment)
    requires Leads(gen, b, c, steps, a) && Inv(gen, b.state) && Mild(b.state, c, a.state.vsd)
    ensures Inv(gen, a.state)
  {
    if Does(gen, b, c, steps, false, a) {
      DoesIsHandled(gen, b, c, steps, false, a);
    } else {
      var tr, t :| && Does(gen, b, c, tr, true, Moment(t, b.namespaces, b.pods)) && Run(gen, b.state, tr) == Some(t)
                   && steps == tr + [Crash, Boot];
      RebootKeeps(gen, b.state, tr, t, a.state);
      DoesIsHandled(gen, b, c, tr, true, Moment(t, b.namespaces, b.pods));
    }
  }

  /** The moments between the calls, and the steps from each to the next. */
  datatype History = First(now: Moment) | Later(before: History, call: Call, steps: seq<Event>, now: Moment)

  ghost function Calls(h: History): seq<Call> {
    match h
    case First(_) => []
    case Later(before, call, _, _) => Calls(before) + [call]
  }

  ghost function Trace(h: History): seq<Event> {
    match h
    case First(_) => [Boot]
    case Later(before, _, steps, _) => Trace(before) + steps
  }

  ghost predicate AllMild(h: History) {
    match h
    case First(_) => true
    case Later(before, call, _, now) => AllMild(before) && Mild(before.now.state, call, now.state.vsd)
  }

  /** The history itself and all that came before. */
  ghost function Parts(h: History): set<History> {
    match h
    case First(_) => {h}
    case Later(before, _, _, _) => Parts(before) + {h}
  }

  /** The last call leads from one moment to the next; the first is that of a fresh process. */
  ghost predicate LastLeads(gen: map<int, Net>, start: State, h: History) {
    match h
    case First(now) =>
      Next(gen, start, Boot) == Some(now.state) && now.namespaces == map[] && now.pods == map[] && Coherent(now)
    case Later(before, call, steps, now) => Leads(gen, before.now, call, steps, now) && Coherent(now)
  }

  ghost predicate Passes(gen: map<int, Net>, start: State, h: History) {
    forall part :: part in Parts(h) ==> LastLeads(gen, start, part)
  }

  /** The history of the calls, ending in m. */
  ghost predicate Follows(gen: map<int, Net>, start: State, calls: seq<Call>, h: History, m: Moment) {
    Passes(gen, start, h) && Calls(h) == calls && h.now == m
  }

  lemma FollowsNext(gen: map<int, Net>, start: State, calls: seq<Call>, i: nat, h: History, b: Moment,
                    more: seq<Event>, a: Moment)
    requires i < |calls| && Follows(gen, start, calls[..i], h, b) && Leads(gen, b, calls[i], more, a) && Coherent(a)
    ensures Follows(gen, start, calls[..i + 1], Later(h, calls[i], more, a), a)
  {
    assert calls[..i + 1] == calls[..i] + [calls[i]];
  }

  lemma FollowsNone(gen: map<int, Net>, start: State, calls: seq<Call>, m: Moment)
    requires Next(gen, start, Boot) == Some(m.state) && m.namespaces == map[] && m.pods == map[] && Coherent(m)
    ensures Follows(gen, start, calls[..0], First(m), m)
  {
  }

  lemma FollowsAll(gen: map<int, Net>, start: State, calls: seq<Call>, h: History, m: Moment)
    requires Follows(gen, start, calls[..|calls|], h, m)
    ensures Follows(gen, start, calls, h, m)
  {
    assert calls[..|calls|] == calls;
  }

  lemma {:induction false} TraceIsRun(gen: map<int, Net>, start: State, h: History)
    requires Passes(gen, start, h)
    ensures Run(gen, start, Trace(h)) == Some(h.now.state)
  {
    assert h in Parts(h);
    match h {
      case First(now) => One(gen, start, Boot, now.state);
      case Later(before, _, steps, now) =>
        TraceIsRun(gen, start, before);
        ThenRun(gen, start, Trace(before), before.now.state, steps, now.state);
    }
  }

  lemma {:induction false} MildKeeps(gen: map<int, Net>, start: State, h: History)
    requires Passes(gen, start, h) && Start(gen, start) && AllMild(h)
    ensures Inv(gen, h.now.state)
  {
    assert h in Parts(h);
    match h {
      case First(now) => BootKeeps(gen, start);
      case Later(before, call, steps, now) =>
        MildKeeps(gen, start, before);
        MildLeads(gen, before.now, call, steps, now);
    }
  }

  lemma HistoryIsSound(gen: map<int, Net>, start: State, h: History)
    requires Passes(gen, start, h) && Start(gen, start)
    ensures Sound(gen, h.now.state)
  {
    TraceIsRun(gen, start, h);
    RunIsSound(gen, start, Trace(h), h.now.state);
  }

  lemma Concluded(agent: Agent, start: State, h: History)
    requires agent.Valid() && agent.pending.None? && Passes(agent.gen, start, h) && h.now.state == agent.View()
    requires Start(agent.gen, start)
    ensures HarmlessRun(agent.gen, start, Trace(h)) || AllMild(h) ==>
              && NoDuplicateAddress(agent.vsd.Contents())
              && forall ns, s :: ns in agent.namespaces && s in agent.namespaces[ns] ==>
                   s.range.used == Addrs(agent.vsd.Contents(), s.id) + DepartedOn(agent.View().agent.value, s.id)
  {
    TraceIsRun(agent.gen, start, h);
    if HarmlessRun(agent.gen, start, Trace(h)) {
      RunKeeps(agent.gen, start, Trace(h), agent.View());
    } else if AllMild(h) {
      MildKeeps(agent.gen, start, h);
    }
    if Inv(agent.gen, agent.View()) {
      forall ns, s | ns in agent.namespaces && s in agent.namespaces[ns]
        ensures s.range.used == Addrs(agent.vsd.Contents(), s.id) + DepartedOn(agent.View().agent.value, s.id)
      {
        agent.RangesMatchContainers(ns, s);
      }
    }
  }

  /** An event, and a fresh process if it was the end of the old one. */
  method ServeOne(ghost gen: map<int, Net>, pool: map<int, Net>, agent: Agent, c: Call)
    returns (next: Agent, ghost more: seq<Event>)
    requires pool == gen && agent.gen == gen && agent.Valid() && agent.pending.None? && Proper(c)
    requires Sound(gen, agent.View())
    modifies agent, agent.vsd, agent.Ranges()
    ensures next.gen == gen && next.vsd == agent.vsd && (next == agent || fresh(next))
    ensures fresh(next.Ranges() - old(agent.Ranges()))
    ensures next.Valid() && next.pending.None? && Leads(gen, old(Now(agent)), c, more, Now(next))
  {
    var died;
    died, more := Handle(agent, c);
    next := agent;
    if died {
      next := Restart(gen, pool, agent.vsd);
      DiedThenLeads(gen, old(Now(agent)), c, more, Now(agent), Now(next));
      more := more + [Crash, Boot];
    }
  }

  method ServeNext(ghost gen: map<int, Net>, pool: map<int, Net>, agent: Agent, calls: seq<Call>, i: nat,
                   ghost start: State, ghost h: History)
    returns (next: Agent, ghost h': History)
    requires pool == gen && agent.gen == gen && agent.Valid() && agent.pending.None? && i < |calls| && Proper(calls[i])
    requires Start(gen, start) && Follows(gen, start, calls[..i], h, Now(agent))
    modifies agent, agent.vsd, agent.Ranges()
    ensures next.gen == gen && next.vsd == agent.vsd && (next == agent || fresh(next))
    ensures fresh(next.Ranges() - old(agent.Ranges()))
    ensures next.Valid() && next.pending.None?
    ensures Follows(gen, start, calls[..i + 1], h', Now(next))
  {
    ghost var b, more := Now(agent), [];
    HistoryIsSound(gen, start, h);
    next, more := ServeOne(gen, pool, agent, calls[i]);
    IsCoherent(next);
    FollowsNext(gen, start, calls, i, h, b, more, Now(next));
    h' := Later(h, calls[i], more, Now(next));
  }

  /** The loop over the calls. */
  method ServeAll(ghost gen: map<int, Net>, pool: map<int, Net>, vsd: VsdServer, calls: seq<Call>)
    returns (agent: Agent, ghost h: History)
    requires pool == gen && GoodPool(gen) && VsdOk(vsd.Contents()) && forall c :: c in calls ==> Proper(c)
    modifies vsd
    ensures agent.Valid() && agent.gen == gen && agent.vsd == vsd && agent.pending.None?
    ensures Follows(gen, State(old(vsd.Contents()), None), calls[..|calls|], h, Now(agent))
  {
    ghost var start := State(vsd.Contents(), None);
    agent := Restart(gen, pool, vsd);
    IsCoherent(agent);
    FollowsNone(gen, start, calls, Now(agent));
    h := First(Now(agent));
    var i := 0;
    while i < |calls|
      invariant 0 <= i <= |calls|
      invariant fresh(agent) && agent.gen == gen && agent.vsd == vsd && fresh(agent.Ranges())
      invariant agent.Valid() && agent.pending.None?
      invariant Follows(gen, start, calls[..i], h, Now(agent))
    {
      agent, h := ServeNext(gen, pool, agent, calls, i, start, h);
      i := i + 1;
    }
  }

  /** Over any list of events, changes by others and process deaths, and whatever the services
      answer, the agent does what each call prescribes, and all of it is a run of the system.
      If all steps of that are harmless -- for example because every call was mild in the
      states the run passed through -- no two live pods hold one address, and the agent that
      is left has reserved exactly the addresses of live containers and of those that have
      left under its eyes. */
  method Serve(ghost gen: map<int, Net>, pool: map<int, Net>, vsd: VsdServer, calls: seq<Call>)
    returns (agent: Agent, ghost h: History)
    requires pool == gen && GoodPool(gen) && VsdOk(vsd.Contents()) && forall c :: c in calls ==> Proper(c)
    modifies vsd
    ensures agent.Valid() && agent.vsd == vsd && agent.pending.None? && Sound(gen, agent.View())
    ensures Follows(gen, State(old(vsd.Contents()), None), calls, h, Now(agent))
    ensures Run(gen, State(old(vsd.Contents()), None), Trace(h)) == Some(agent.View())
    ensures HarmlessRun(gen, State(old(vsd.Contents()), None), Trace(h)) || AllMild(h) ==>
              && NoDuplicateAddress(vsd.Contents())
              && forall ns, s :: ns in agent.namespaces && s in agent.namespaces[ns] ==>
                   s.range.used == Addrs(vsd.Contents(), s.id) + DepartedOn(agent.View().agent.value, s.id)
  {
    ghost var start := State(vsd.Contents(), None);
    agent, h := ServeAll(gen, pool, vsd, calls);
    FollowsAll(gen, start, calls, h, Now(agent));
    TraceIsRun(gen, start, h);
    HistoryIsSound(gen, start, h);
    Concluded(agent, start, h);
  }

  lemma CachedAndGone(pods: map<PodKey, Iface>, key: PodKey, i: Iface)
    ensures pods[key := i] - {key} == pods - {key}
    ensures key !in pods ==> pods - {key} == pods
  {
  }

  /** A pod without a node, and later its scheduling: once the agent was told of its container,
      exactly that container is submitted, and nothing of the pod stays in the cache. */
  method CreateThenSchedule(agent: Agent, pod: Pod, answers: PodEnv)
    returns (died: bool, submitted: Option<Iface>, ghost tr: seq<Event>)
    requires agent.Valid() && agent.pending.None? && Sound(agent.gen, agent.View()) && !pod.scheduled
    modifies agent, agent.vsd, agent.Ranges()
    ensures agent.Valid() && Run(agent.gen, old(agent.View()), tr) == Some(agent.View())
    ensures !died && Commit(pod.key) in tr ==>
              && pod.key in agent.vsd.containers && submitted == Some(agent.vsd.containers[pod.key])
              && agent.pods == old(agent.pods) - {pod.key}
              && (pod.key !in old(agent.pods) ==> agent.pods == old(agent.pods))
    ensures Commit(pod.key) !in tr && pod.key !in old(agent.pods) ==>
              submitted == None && agent.pods == old(agent.pods)
  {
    submitted := None;
    died, tr := Create(agent, pod, answers);
    if !died {
      var failed;
      submitted, failed := agent.PodUpdated(pod.key, false, true, true);
      if submitted.Some? {
        CachedAndGone(old(agent.pods), pod.key, submitted.value);
      }
    }
  }
}
