// Zones, network macro groups and network macros: objects the agent finds in the VSD by
// name, creates when they are missing, and caches while its process lives. The functions
// say what a handler does to the VSD and to the caches, given the VSD's answers; the
// lemmas are about runs of handlers with crashes anywhere between two requests. Groups are
// searched for in the first page of their list, so they can be overlooked.
module Directory {
  import opened Base

  const ZONE_NAME := "K8S namespace "
  const NMG_NAME := "K8S services in namespace "
  const NM_NAME := "K8S service "

  datatype Object = Object(id: nat, name: string, address: string)

  /** One kind of object: those in the VSD, and the agent's cache of them. */
  datatype Kind = Kind(objs: seq<Object>, cache: map<string, Object>)

  /** What becomes of a request: done; refused; done, but reported as failed; or the
      process dies before making it. */
  datatype Answer = Fine | Refused | Lost | Dead

  datatype Reply = Found(obj: Object) | Absent | Error | Died

  // ---- finding an object by name ----

  /** Server-side filtering. */
  function Matching(objs: seq<Object>, name: string): seq<Object> {
    if objs == [] then []
    else if objs[0].name == name then [objs[0]] + Matching(objs[1..], name)
    else Matching(objs[1..], name)
  }

  /** Client-side search: the first object with the name. */
  function FirstNamed(objs: seq<Object>, name: string): Option<Object> {
    if objs == [] then None
    else if objs[0].name == name then Some(objs[0])
    else FirstNamed(objs[1..], name)
  }

  function Only(objs: seq<Object>, ids: set<nat>): seq<Object> {
    if objs == [] then []
    else if objs[0].id in ids then [objs[0]] + Only(objs[1..], ids)
    else Only(objs[1..], ids)
  }

  /** The first page of a list that does not fit holds the objects the VSD puts there. */
  function FirstPage(objs: seq<Object>, ids: set<nat>): (page: seq<Object>)
    ensures |objs| <= PAGE ==> page == objs
    ensures |page| <= PAGE
  {
    if |objs| <= PAGE then objs
    else if |Only(objs, ids)| <= PAGE then Only(objs, ids)
    else Only(objs, ids)[..PAGE]
  }

  /** Zones and macros are filtered by the server, and the agent accepts a list of exactly
      one. Groups are searched for by the client, among those listed. */
  datatype How = Filtered | Searched(listed: set<nat>)

  function Lookup(objs: seq<Object>, name: string, how: How): Option<Object> {
    match how
    case Searched(listed) => FirstNamed(FirstPage(objs, listed), name)
    case Filtered => if |Matching(objs, name)| == 1 then Some(Matching(objs, name)[0]) else None
  }

  function Fetch(k: Kind, name: string, how: How, a: Answer): (Kind, Reply) {
    if name in k.cache then (k, Found(k.cache[name]))
    else if a.Dead? then (k, Died)
    else if !a.Fine? then (k, Error)
    else
      match Lookup(k.objs, name, how)
      case None => (k, Absent)
      case Some(o) => (k.(cache := k.cache[name := o]), Found(o))
  }

  /** The VSD numbers its objects in order of creation. */
  function Make(k: Kind, name: string, address: string): Object {
    Object(|k.objs| + 1, name, address)
  }

  function Create(k: Kind, name: string, address: string, a: Answer): (Kind, Reply) {
    var o := Make(k, name, address);
    match a
    case Fine => (Kind(k.objs + [o], k.cache[name := o]), Found(o))
    case Lost => (k.(objs := k.objs + [o]), Error)
    case Refused => (k, Error)
    case Dead => (k, Died)
  }

  /** Fetch, and create if absent. */
  function Ensure(k: Kind, name: string, address: string, how: How, fetch: Answer, create: Answer): (Kind, Reply) {
    var (k1, r) := Fetch(k, name, how, fetch);
    if r.Absent? then Create(k1, name, address, create) else (k1, r)
  }

  // ---- what one kind keeps ----

  ghost predicate UniqueNames(objs: seq<Object>) {
    forall i, j :: 0 <= i < j < |objs| ==> objs[i].name != objs[j].name
  }

  ghost predicate CacheAgrees(k: Kind) {
    forall n :: n in k.cache ==> k.cache[n] in k.objs && k.cache[n].name == n
  }

  ghost predicate KindOk(k: Kind) {
    UniqueNames(k.objs) && CacheAgrees(k)
  }

  ghost predicate Named(objs: seq<Object>, name: string) {
    exists o :: o in objs && o.name == name
  }

  lemma {:induction false} FirstNamedFinds(objs: seq<Object>, name: string)
    ensures FirstNamed(objs, name).None? <==> !Named(objs, name)
    ensures FirstNamed(objs, name).Some? ==>
              FirstNamed(objs, name).value in objs && FirstNamed(objs, name).value.name == name
  {
    if objs != [] {
      FirstNamedFinds(objs[1..], name);
      assert objs == [objs[0]] + objs[1..];
      if objs[0].name == name {
        assert objs[0] in objs;
      } else if Named(objs, name) {
        var o :| o in objs && o.name == name;
        assert o in objs[1..];
      }
    }
  }

  lemma {:induction false} MatchingIsEmptyIff(objs: seq<Object>, name: string)
    ensures Matching(objs, name) == [] <==> FirstNamed(objs, name).None?
  {
    if objs != [] {
      MatchingIsEmptyIff(objs[1..], name);
    }
  }

  lemma {:induction false} OnlyIsPart(objs: seq<Object>, ids: set<nat>)
    ensures forall o :: o in Only(objs, ids) ==> o in objs
  {
    if objs != [] {
      OnlyIsPart(objs[1..], ids);
      assert objs == [objs[0]] + objs[1..];
    }
  }

  lemma PageIsPart(objs: seq<Object>, ids: set<nat>)
    ensures forall o :: o in FirstPage(objs, ids) ==> o in objs
  {
    OnlyIsPart(objs, ids);
  }

  lemma {:induction false} FilterIsFirst(objs: seq<Object>, name: string)
    requires UniqueNames(objs)
    ensures Lookup(objs, name, Filtered) == FirstNamed(objs, name)
  {
    if objs != [] {
      if objs[0].name == name {
        forall o | o in objs[1..]
          ensures o.name != name
        {
          var j :| 0 <= j < |objs[1..]| && objs[1..][j] == o;
          assert objs[j + 1] == o;
        }
        FirstNamedFinds(objs[1..], name);
        MatchingIsEmptyIff(objs[1..], name);
      } else {
        FilterIsFirst(objs[1..], name);
      }
    }
  }

  /** The object is in the VSD but not among those that can be found. */
  ghost predicate Hidden(objs: seq<Object>, name: string, how: How) {
    how.Searched? && Named(objs, name) && !Named(FirstPage(objs, how.listed), name)
  }

  lemma LookupFinds(objs: seq<Object>, name: string, how: How)
    requires UniqueNames(objs)
    ensures Lookup(objs, name, how).None? <==> !Named(objs, name) || Hidden(objs, name, how)
    ensures Lookup(objs, name, how).Some? ==>
              Lookup(objs, name, how).value in objs && Lookup(objs, name, how).value.name == name
  {
    FirstNamedFinds(objs, name);
    match how
    case Filtered => FilterIsFirst(objs, name);
    case Searched(listed) =>
      FirstNamedFinds(FirstPage(objs, listed), name);
      PageIsPart(objs, listed);
  }

  lemma TheOneNamed(objs: seq<Object>, o: Object, p: Object)
    requires UniqueNames(objs) && o in objs && p in objs && o.name == p.name
    ensures o == p
  {
    var i :| 0 <= i < |objs| && objs[i] == o;
    var j :| 0 <= j < |objs| && objs[j] == p;
  }

  /** While names are unique, filtering and searching find the same object, exactly unless it
      is beyond the first page. */
  lemma FilterIsSearchIff(objs: seq<Object>, name: string, listed: set<nat>)
    requires UniqueNames(objs)
    ensures Lookup(objs, name, Filtered) == Lookup(objs, name, Searched(listed)) <==> !Hidden(objs, name, Searched(listed))
  {
    LookupFinds(objs, name, Filtered);
    LookupFinds(objs, name, Searched(listed));
    if Named(objs, name) && !Hidden(objs, name, Searched(listed)) {
      TheOneNamed(objs, Lookup(objs, name, Filtered).value, Lookup(objs, name, Searched(listed)).value);
    }
  }

  lemma AppendKeepsUnique(objs: seq<Object>, o: Object)
    requires UniqueNames(objs) && !Named(objs, o.name)
    ensures UniqueNames(objs + [o])
  {
    forall i | 0 <= i < |objs|
      ensures objs[i].name != o.name
    {
      assert objs[i] in objs;
    }
  }

  lemma AppendRepeats(objs: seq<Object>, o: Object)
    requires Named(objs, o.name)
    ensures !UniqueNames(objs + [o])
  {
    var p :| p in objs && p.name == o.name;
    var i :| 0 <= i < |objs| && objs[i] == p;
    assert (objs + [o])[i].name == (objs + [o])[|objs|].name;
  }

  /** The fetch misses an object that is there. */
  ghost predicate Overlooked(k: Kind, name: string, how: How, fetch: Answer) {
    name !in k.cache && fetch.Fine? && Hidden(k.objs, name, how)
  }

  lemma FetchFinds(k: Kind, name: string, how: How, fetch: Answer)
    requires KindOk(k)
    ensures var (k', r) := Fetch(k, name, how, fetch);
            && k'.objs == k.objs && KindOk(k')
            && (r.Absent? <==> Overlooked(k, name, how, fetch) || (fetch.Fine? && !Named(k.objs, name)))
            && (r.Absent? ==> k' == k)
            && (r.Found? ==> r.obj in k.objs && r.obj.name == name && name in k'.cache && k'.cache[name] == r.obj)
  {
    LookupFinds(k.objs, name, how);
  }

  /** Fetch-or-create keeps names unique and the cache in agreement, whatever the answers,
      exactly unless an object is overlooked and the VSD makes another one of the name. */
  lemma EnsureKeepsIff(k: Kind, name: string, address: string, how: How, fetch: Answer, create: Answer)
    requires KindOk(k)
    ensures KindOk(Ensure(k, name, address, how, fetch, create).0)
            <==> !(Overlooked(k, name, how, fetch) && (create.Fine? || create.Lost?))
  {
    FetchFinds(k, name, how, fetch);
    var o := Make(k, name, address);
    if Overlooked(k, name, how, fetch) {
      AppendRepeats(k.objs, o);
    } else if !Named(k.objs, name) {
      AppendKeepsUnique(k.objs, o);
    }
  }

  /** It creates at most one object, none when the name is found, and what it reports is in
      the VSD. */
  lemma EnsureMakes(k: Kind, name: string, address: string, how: How, fetch: Answer, create: Answer)
    requires KindOk(k)
    ensures var (k', r) := Ensure(k, name, address, how, fetch, create);
            && !r.Absent?
            && (k'.objs == k.objs || k'.objs == k.objs + [Make(k, name, address)])
            && (Named(k.objs, name) && !Overlooked(k, name, how, fetch) ==> k'.objs == k.objs)
            && (r.Found? ==> r.obj in k'.objs && r.obj.name == name && name in k'.cache && k'.cache[name] == r.obj)
  {
    FetchFinds(k, name, how, fetch);
  }

  /** Fetch-or-create of an object the server filters for. */
  lemma EnsureKeeps(k: Kind, name: string, address: string, fetch: Answer, create: Answer)
    requires KindOk(k)
    ensures var (k', r) := Ensure(k, name, address, Filtered, fetch, create);
            && KindOk(k') && !r.Absent?
            && (k'.objs == k.objs || (!Named(k.objs, name) && k'.objs == k.objs + [Make(k, name, address)]))
            && (r.Found? ==> r.obj in k'.objs && r.obj.name == name && name in k'.cache && k'.cache[name] == r.obj)
  {
    EnsureKeepsIff(k, name, address, Filtered, fetch, create);
    EnsureMakes(k, name, address, Filtered, fetch, create);
  }

  // ---- the handlers ----

  datatype Service = Service(name: string, ns: string, clusterIP: string)

  datatype Assignment = Assignment(macro: nat, group: nat)

  /** The VSD and the caches. applied counts how often the allow-services policy element
      was applied to a group, members holds the (macro, group) assignments made. */
  datatype Dir = Dir(zones: Kind, groups: Kind, macros: Kind, applied: map<string, nat>, members: set<Assignment>)

  datatype Call =
    | Namespace(ns: string, fetch: Answer, create: Answer)
    | Svc(svc: Service, fetchGroup: Answer, listed: set<nat>, createGroup: Answer, policy: Answer,
          fetchMacro: Answer, createMacro: Answer, assign: Answer)
    | Crash

  datatype Outcome = Done | Failed | Gone

  function Forget(d: Dir): Dir {
    d.(zones := d.zones.(cache := map[]), groups := d.groups.(cache := map[]), macros := d.macros.(cache := map[]))
  }

  function Count(d: Dir, group: string): nat {
    if group in d.applied then d.applied[group] else 0
  }

  function OutcomeOf(r: Reply): Outcome {
    if r.Found? then Done else if r.Died? then Gone else Failed
  }

  /** The zone part of NamespaceCreated. */
  function NamespaceStep(d: Dir, c: Call): (Dir, Outcome)
    requires c.Namespace?
  {
    var (k, r) := Ensure(d.zones, ZONE_NAME + c.ns, "", Filtered, c.fetch, c.create);
    (d.(zones := k), OutcomeOf(r))
  }

  /** AddPESvcsAllow, called only for a group this very call has created. */
  function AllowStep(d: Dir, group: string, a: Answer): Dir {
    if a.Fine? || a.Lost? then d.(applied := d.applied[group := Count(d, group) + 1]) else d
  }

  /** The group part of ServiceCreated. */
  function GroupStep(d: Dir, c: Call): (Dir, Reply)
    requires c.Svc?
  {
    var name := NMG_NAME + c.svc.ns;
    var (k1, r1) := Fetch(d.groups, name, Searched(c.listed), c.fetchGroup);
    if !r1.Absent? then (d.(groups := k1), r1)
    else
      var (k2, r2) := Create(k1, name, "", c.createGroup);
      var d2 := d.(groups := k2);
      if !r2.Found? then (d2, r2)
      else (AllowStep(d2, name, c.policy), if c.policy.Dead? then Died else r2)
  }

  /** ServiceCreated. A refused assignment is only logged. */
  function ServiceStep(d: Dir, c: Call): (Dir, Outcome)
    requires c.Svc?
  {
    var (d1, g) := GroupStep(d, c);
    if !g.Found? then (d1, OutcomeOf(g))
    else
      var (k, m) := Ensure(d1.macros, NM_NAME + c.svc.name, c.svc.clusterIP, Filtered, c.fetchMacro, c.createMacro);
      var d2 := d1.(macros := k);
      if !m.Found? then (d2, OutcomeOf(m))
      else if c.assign.Dead? then (d2, Gone)
      else if c.assign.Refused? then (d2, Done)
      else (d2.(members := d2.members + {Assignment(m.obj.id, g.obj.id)}), Done)
  }

  /** One handler; a process that dies leaves empty caches to its successor. */
  function Step(d: Dir, c: Call): Dir {
    match c
    case Namespace(_, _, _) => var (d', o) := NamespaceStep(d, c); if o.Gone? then Forget(d') else d'
    case Svc(_, _, _, _, _, _, _, _) => var (d', o) := ServiceStep(d, c); if o.Gone? then Forget(d') else d'
    case Crash => Forget(d)
  }

  function Run(d: Dir, calls: seq<Call>): Dir {
    if calls == [] then d else Step(Run(d, calls[..|calls| - 1]), calls[|calls| - 1])
  }

  // ---- what every run keeps ----

  /** The policy element is applied at most once per group, and only to groups that exist. */
  ghost predicate AllowedOnce(d: Dir) {
    forall g :: g in d.applied ==> d.applied[g] <= 1 && Named(d.groups.objs, g)
  }

  ghost predicate DirOk(d: Dir) {
    KindOk(d.zones) && KindOk(d.groups) && KindOk(d.macros) && AllowedOnce(d)
  }

  lemma StillNamed(objs: seq<Object>, more: seq<Object>, name: string)
    requires Named(objs, name) && objs <= more
    ensures Named(more, name)
  {
    var o :| o in objs && o.name == name;
    assert o in more;
  }

  /** The handler does not make a group that is there already. */
  ghost predicate Sees(d: Dir, c: Call) {
    c.Svc? ==>
      !(Overlooked(d.groups, NMG_NAME + c.svc.ns, Searched(c.listed), c.fetchGroup)
        && (c.createGroup.Fine? || c.createGroup.Lost?))
  }

  lemma GroupStepMakes(d: Dir, c: Call)
    requires DirOk(d) && c.Svc?
    ensures var (d', g) := GroupStep(d, c);
            && d'.groups == Ensure(d.groups, NMG_NAME + c.svc.ns, "", Searched(c.listed), c.fetchGroup, c.createGroup).0
            && d'.zones == d.zones && d'.macros == d.macros && d'.members == d.members && !g.Absent?
            && (g.Found? ==> g.obj in d'.groups.objs && g.obj.name == NMG_NAME + c.svc.ns)
            && d.groups.objs <= d'.groups.objs
  {
    EnsureMakes(d.groups, NMG_NAME + c.svc.ns, "", Searched(c.listed), c.fetchGroup, c.createGroup);
  }

  /** The policy element is applied only for a group that was neither seen nor there. */
  lemma GroupStepAllows(d: Dir, c: Call)
    requires DirOk(d) && c.Svc? && Sees(d, c)
    ensures AllowedOnce(GroupStep(d, c).0)
  {
    var name := NMG_NAME + c.svc.ns;
    var (d', g) := GroupStep(d, c);
    GroupStepMakes(d, c);
    FetchFinds(d.groups, name, Searched(c.listed), c.fetchGroup);
    forall n | Named(d.groups.objs, n)
      ensures Named(d'.groups.objs, n)
    {
      StillNamed(d.groups.objs, d'.groups.objs, n);
    }
    if name in d'.applied && name !in d.applied {
      assert Make(d.groups, name, "") in d'.groups.objs;
    }
  }

  lemma GroupStepKeepsIff(d: Dir, c: Call)
    requires DirOk(d) && c.Svc?
    ensures var d' := GroupStep(d, c).0;
            && (UniqueNames(d'.groups.objs) <==> Sees(d, c)) && CacheAgrees(d'.groups)
            && (Sees(d, c) ==> AllowedOnce(d'))
  {
    var name := NMG_NAME + c.svc.ns;
    GroupStepMakes(d, c);
    EnsureKeepsIff(d.groups, name, "", Searched(c.listed), c.fetchGroup, c.createGroup);
    CacheStaysRight(d.groups, name, "", Searched(c.listed), c.fetchGroup, c.createGroup);
    if Sees(d, c) {
      GroupStepAllows(d, c);
    }
  }

  lemma CacheStaysRight(k: Kind, name: string, address: string, how: How, fetch: Answer, create: Answer)
    requires KindOk(k)
    ensures CacheAgrees(Ensure(k, name, address, how, fetch, create).0)
  {
    FetchFinds(k, name, how, fetch);
  }

  lemma MacroStepKeeps(d: Dir, c: Call)
    requires DirOk(d) && c.Svc?
    ensures var d1, d2 := GroupStep(d, c).0, ServiceStep(d, c).0;
            d2.groups == d1.groups && d2.applied == d1.applied && d2.zones == d.zones && KindOk(d2.macros)
  {
    GroupStepMakes(d, c);
    EnsureKeeps(d.macros, NM_NAME + c.svc.name, c.svc.clusterIP, c.fetchMacro, c.createMacro);
  }

  lemma ForgettingKeeps(d: Dir)
    requires CacheAgrees(d.groups) && KindOk(d.zones) && KindOk(d.macros)
    ensures DirOk(Forget(d)) <==> DirOk(d)
  {
  }

  /** A handler keeps the directory in order exactly when it does not make a group that is
      there already. */
  lemma StepKeepsIff(d: Dir, c: Call)
    requires DirOk(d)
    ensures DirOk(Step(d, c)) <==> Sees(d, c)
  {
    match c
    case Namespace(ns, fetch, create) => EnsureKeeps(d.zones, ZONE_NAME + ns, "", fetch, create);
    case Svc(_, _, _, _, _, _, _, _) =>
      GroupStepKeepsIff(d, c);
      MacroStepKeeps(d, c);
      ForgettingKeeps(ServiceStep(d, c).0);
    case Crash =>
  }

  ghost predicate SeesAll(d: Dir, calls: seq<Call>) {
    calls == [] || (SeesAll(d, calls[..|calls| - 1]) && Sees(Run(d, calls[..|calls| - 1]), calls[|calls| - 1]))
  }

  /** Over any run of namespace and service creations, with requests refused or lost and
      crashes anywhere, in which no group is made that is there already: each name exists at
      most once in the VSD, every cached object is in the VSD under its name, and no group
      gets the policy element twice. */
  lemma {:induction false} RunKeeps(d: Dir, calls: seq<Call>)
    requires DirOk(d) && SeesAll(d, calls)
    ensures DirOk(Run(d, calls))
  {
    if calls != [] {
      RunKeeps(d, calls[..|calls| - 1]);
      StepKeepsIff(Run(d, calls[..|calls| - 1]), calls[|calls| - 1]);
    }
  }

  // ---- how a handler ends ----

  /** How fetch-or-create ends, by the answers and by what is cached and what is there. */
  lemma EnsureEnds(k: Kind, name: string, address: string, fetch: Answer, create: Answer)
    requires KindOk(k)
    ensures var r := Ensure(k, name, address, Filtered, fetch, create).1;
            && (r.Died? <==> name !in k.cache && (fetch.Dead? || (fetch.Fine? && !Named(k.objs, name) && create.Dead?)))
            && (r.Found? <==> name in k.cache || (fetch.Fine? && (Named(k.objs, name) || create.Fine?)))
  {
    FetchFinds(k, name, Filtered, fetch);
  }

  /** What fetch-or-create leaves behind: a new object exactly if none was found and the VSD
      made one, and a cache entry exactly if the caller was told of an object. */
  lemma EnsureLeaves(k: Kind, name: string, address: string, fetch: Answer, create: Answer)
    requires KindOk(k)
    ensures var (k', r) := Ensure(k, name, address, Filtered, fetch, create);
            && k'.objs == (if name !in k.cache && fetch.Fine? && !Named(k.objs, name) && (create.Fine? || create.Lost?)
                           then k.objs + [Object(|k.objs| + 1, name, address)] else k.objs)
            && k'.cache == (if r.Found? then k.cache[name := r.obj] else k.cache)
            && (r.Found? ==> r.obj in k'.objs && r.obj.name == name)
  {
    FetchFinds(k, name, Filtered, fetch);
  }

  /** A namespace event ends with the death of the process exactly when the first request that
      is not answered is never made: the listing of zones, or the creation of one that is not
      there. It is done exactly when the zone is cached, found or made. */
  lemma NamespaceEnds(d: Dir, c: Call)
    requires DirOk(d) && c.Namespace?
    ensures var name, o := "K8S namespace " + c.ns, NamespaceStep(d, c).1;
            && (o.Gone? <==> name !in d.zones.cache
                             && (c.fetch.Dead? || (c.fetch.Fine? && !Named(d.zones.objs, name) && c.create.Dead?)))
            && (o.Done? <==> name in d.zones.cache
                             || (c.fetch.Fine? && (Named(d.zones.objs, name) || c.create.Fine?)))
    ensures var name, d' := "K8S namespace " + c.ns, NamespaceStep(d, c).0;
            && d' == d.(zones := d'.zones)
            && d'.zones.objs == (if && name !in d.zones.cache && c.fetch.Fine? && !Named(d.zones.objs, name)
                                    && (c.create.Fine? || c.create.Lost?)
                                 then d.zones.objs + [Object(|d.zones.objs| + 1, name, "")] else d.zones.objs)
            && (forall n :: n != name ==> (n in d'.zones.cache <==> n in d.zones.cache))
            && (NamespaceStep(d, c).1.Done? <==> name in d'.zones.cache)
  {
    EnsureEnds(d.zones, "K8S namespace " + c.ns, "", c.fetch, c.create);
    EnsureLeaves(d.zones, "K8S namespace " + c.ns, "", c.fetch, c.create);
  }

  /** The group is there and can be found. */
  ghost predicate GroupSeen(d: Dir, c: Call, name: string)
    requires c.Svc?
  {
    Named(d.groups.objs, name) && Named(FirstPage(d.groups.objs, c.listed), name)
  }

  lemma GroupEnds(d: Dir, c: Call)
    requires DirOk(d) && c.Svc?
    ensures var name, r := "K8S services in namespace " + c.svc.ns, GroupStep(d, c).1;
            && (r.Died? <==>
                  && name !in d.groups.cache
                  && (c.fetchGroup.Dead?
                      || (c.fetchGroup.Fine? && !GroupSeen(d, c, name)
                          && (c.createGroup.Dead? || (c.createGroup.Fine? && c.policy.Dead?)))))
            && (r.Found? <==>
                  name in d.groups.cache
                  || (c.fetchGroup.Fine? && (GroupSeen(d, c, name) || (c.createGroup.Fine? && !c.policy.Dead?))))
  {
    var name := "K8S services in namespace " + c.svc.ns;
    FetchFinds(d.groups, name, Searched(c.listed), c.fetchGroup);
    assert NMG_NAME + c.svc.ns == name;
  }

  /** How a service event ends, request by request: its group, the policy element of a group
      just made, its macro, the assignment. Refused and lost requests end in an error, or, for
      the policy element and the assignment, are passed over. */
  lemma ServiceEnds(d: Dir, c: Call)
    requires DirOk(d) && c.Svc?
    ensures var group, macro, o := "K8S services in namespace " + c.svc.ns, "K8S service " + c.svc.name,
                               ServiceStep(d, c).1;
            var groupDied := && group !in d.groups.cache
                             && (c.fetchGroup.Dead?
                                 || (c.fetchGroup.Fine? && !GroupSeen(d, c, group)
                                     && (c.createGroup.Dead? || (c.createGroup.Fine? && c.policy.Dead?))));
            var groupFound := group in d.groups.cache
                              || (c.fetchGroup.Fine?
                                  && (GroupSeen(d, c, group) || (c.createGroup.Fine? && !c.policy.Dead?)));
            var macroDied := && macro !in d.macros.cache
                             && (c.fetchMacro.Dead?
                                 || (c.fetchMacro.Fine? && !Named(d.macros.objs, macro) && c.createMacro.Dead?));
            var macroFound := macro in d.macros.cache
                              || (c.fetchMacro.Fine? && (Named(d.macros.objs, macro) || c.createMacro.Fine?));
            && (o.Gone? <==> groupDied || (groupFound && (macroDied || (macroFound && c.assign.Dead?))))
            && (o.Done? <==> groupFound && macroFound && !c.assign.Dead?)
  {
    GroupEnds(d, c);
    GroupStepMakes(d, c);
    EnsureEnds(d.macros, "K8S service " + c.svc.name, c.svc.clusterIP, c.fetchMacro, c.createMacro);
  }

  /** All requests of the call would be made. */
  predicate Lives(c: Call) {
    match c
    case Namespace(_, fetch, create) => !fetch.Dead? && !create.Dead?
    case Svc(_, fetchGroup, _, createGroup, policy, fetchMacro, createMacro, assign) =>
      !fetchGroup.Dead? && !createGroup.Dead? && !policy.Dead? && !fetchMacro.Dead? && !createMacro.Dead? && !assign.Dead?
    case Crash => false
  }

  ghost predicate CacheGrows(k: Kind, k': Kind) {
    forall name :: name in k.cache ==> name in k'.cache && k'.cache[name] == k.cache[name]
  }

  lemma EnsureKeepsCache(k: Kind, name: string, address: string, how: How, fetch: Answer, create: Answer)
    ensures CacheGrows(k, Ensure(k, name, address, how, fetch, create).0)
  {
  }

  /** A process that lives forgets nothing, whatever is refused or lost; one that dies leaves
      empty caches. */
  lemma CachesStay(d: Dir, c: Call)
    requires DirOk(d)
    ensures Lives(c) ==>
              var d' := Step(d, c);
              CacheGrows(d.zones, d'.zones) && CacheGrows(d.groups, d'.groups) && CacheGrows(d.macros, d'.macros)
    ensures OutcomeIn(d, c).Gone? ==>
              var d' := Step(d, c); d'.zones.cache == map[] && d'.groups.cache == map[] && d'.macros.cache == map[]
  {
    match c
    case Namespace(ns, fetch, create) =>
      NamespaceEnds(d, c);
      EnsureKeepsCache(d.zones, ZONE_NAME + ns, "", Filtered, fetch, create);
    case Svc(svc, fetchGroup, listed, createGroup, _, fetchMacro, createMacro, _) =>
      ServiceEnds(d, c);
      GroupStepMakes(d, c);
      EnsureKeepsCache(d.groups, NMG_NAME + svc.ns, "", Searched(listed), fetchGroup, createGroup);
      EnsureKeepsCache(d.macros, NM_NAME + svc.name, svc.clusterIP, Filtered, fetchMacro, createMacro);
    case Crash =>
  }

  // ---- replay ----

  lemma StepGrows(d: Dir, c: Call)
    requires DirOk(d)
    ensures var d' := Step(d, c);
            d.zones.objs <= d'.zones.objs && d.groups.objs <= d'.groups.objs && d.macros.objs <= d'.macros.objs
  {
    match c
    case Namespace(ns, fetch, create) => EnsureKeeps(d.zones, ZONE_NAME + ns, "", fetch, create);
    case Svc(svc, _, _, _, _, fetchMacro, createMacro, _) =>
      GroupStepMakes(d, c);
      EnsureKeeps(d.macros, NM_NAME + svc.name, svc.clusterIP, fetchMacro, createMacro);
    case Crash =>
  }

  /** A name once in the VSD stays there. */
  lemma {:induction false} RunGrows(d: Dir, calls: seq<Call>)
    requires DirOk(d) && SeesAll(d, calls)
    ensures var d' := Run(d, calls);
            d.zones.objs <= d'.zones.objs && d.groups.objs <= d'.groups.objs && d.macros.objs <= d'.macros.objs
  {
    if calls != [] {
      RunGrows(d, calls[..|calls| - 1]);
      RunKeeps(d, calls[..|calls| - 1]);
      StepGrows(Run(d, calls[..|calls| - 1]), calls[|calls| - 1]);
    }
  }

  /** The names a handler is about are in the VSD. */
  ghost predicate Present(d: Dir, c: Call) {
    match c
    case Namespace(ns, _, _) => Named(d.zones.objs, ZONE_NAME + ns)
    case Svc(svc, _, _, _, _, _, _, _) => Named(d.groups.objs, NMG_NAME + svc.ns) && Named(d.macros.objs, NM_NAME + svc.name)
    case Crash => true
  }

  ghost predicate SameEvent(c: Call, c': Call) {
    || (c.Namespace? && c'.Namespace? && c.ns == c'.ns)
    || (c.Svc? && c'.Svc? && c.svc == c'.svc)
  }

  function OutcomeIn(d: Dir, c: Call): Outcome {
    match c
    case Namespace(_, _, _) => NamespaceStep(d, c).1
    case Svc(_, _, _, _, _, _, _, _) => ServiceStep(d, c).1
    case Crash => Gone
  }

  lemma DoneIsPresent(d: Dir, c: Call)
    requires DirOk(d) && OutcomeIn(d, c).Done?
    ensures Present(Step(d, c), c)
  {
    match c
    case Namespace(ns, fetch, create) => EnsureKeeps(d.zones, ZONE_NAME + ns, "", fetch, create);
    case Svc(svc, _, _, _, _, fetchMacro, createMacro, _) =>
      GroupStepMakes(d, c);
      EnsureKeeps(d.macros, NM_NAME + svc.name, svc.clusterIP, fetchMacro, createMacro);
    case Crash =>
  }

  lemma PresentCreatesNothing(d: Dir, c: Call)
    requires DirOk(d) && Present(d, c) && Sees(d, c)
    ensures var d' := Step(d, c);
            && d'.zones.objs == d.zones.objs && d'.groups.objs == d.groups.objs && d'.macros.objs == d.macros.objs
            && d'.applied == d.applied
  {
    match c
    case Namespace(ns, fetch, create) => EnsureKeeps(d.zones, ZONE_NAME + ns, "", fetch, create);
    case Svc(svc, _, _, _, _, fetchMacro, createMacro, _) =>
      FetchFinds(d.groups, NMG_NAME + svc.ns, Searched(c.listed), c.fetchGroup);
      EnsureKeeps(d.macros, NM_NAME + svc.name, svc.clusterIP, fetchMacro, createMacro);
    case Crash =>
  }

  /** Replay is idempotent: once a namespace or service event has been handled, handling it
      again -- after any further run, in a new process or not, whatever the answers -- creates
      nothing and applies no policy element, as long as no group is overlooked. */
  lemma ReplayCreatesNothing(d: Dir, c: Call, calls: seq<Call>, again: Call)
    requires DirOk(d) && Sees(d, c) && OutcomeIn(d, c).Done? && SameEvent(c, again)
    requires SeesAll(Step(d, c), calls) && Sees(Run(Step(d, c), calls), again)
    ensures var e := Run(Step(d, c), calls);
            var e' := Step(e, again);
            && e'.zones.objs == e.zones.objs && e'.groups.objs == e.groups.objs && e'.macros.objs == e.macros.objs
            && e'.applied == e.applied
  {
    var d1 := Step(d, c);
    var e := Run(d1, calls);
    StepKeepsIff(d, c);
    DoneIsPresent(d, c);
    RunKeeps(d1, calls);
    RunGrows(d1, calls);
    assert Present(e, again) by {
      if c.Namespace? {
        StillNamed(d1.zones.objs, e.zones.objs, ZONE_NAME + c.ns);
      } else {
        StillNamed(d1.groups.objs, e.groups.objs, NMG_NAME + c.svc.ns);
        StillNamed(d1.macros.objs, e.macros.objs, NM_NAME + c.svc.name);
      }
    }
    PresentCreatesNothing(e, again);
  }

  lemma StepKeepsCount(d: Dir, c: Call, group: string)
    requires DirOk(d) && Sees(d, c) && Named(d.groups.objs, group)
    ensures Count(Step(d, c), group) == Count(d, group)
  {
    if c.Svc? {
      FetchFinds(d.groups, NMG_NAME + c.svc.ns, Searched(c.listed), c.fetchGroup);
    }
  }

  /** Once a group exists, its policy element is never applied any more, as long as no group is
      overlooked: neither twice nor, if the call that made the group could not apply it, ever. */
  lemma {:induction false} RunKeepsCount(d: Dir, calls: seq<Call>, group: string)
    requires DirOk(d) && SeesAll(d, calls) && Named(d.groups.objs, group)
    ensures Count(Run(d, calls), group) == Count(d, group)
  {
    if calls != [] {
      var init := calls[..|calls| - 1];
      RunKeepsCount(d, init, group);
      RunKeeps(d, init);
      RunGrows(d, init);
      StillNamed(d.groups.objs, Run(d, init).groups.objs, group);
      StepKeepsCount(Run(d, init), calls[|calls| - 1], group);
    }
  }

  /** The one call that makes a group applies the policy element exactly when both its
      requests take effect and the group's creation is reported. */
  lemma CountAfterMaking(d: Dir, c: Call)
    requires DirOk(d) && c.Svc? && !Named(d.groups.objs, NMG_NAME + c.svc.ns) && NMG_NAME + c.svc.ns !in d.groups.cache
    requires c.fetchGroup.Fine?
    ensures Count(Step(d, c), NMG_NAME + c.svc.ns) == 1 <==> c.createGroup.Fine? && (c.policy.Fine? || c.policy.Lost?)
  {
    FetchFinds(d.groups, NMG_NAME + c.svc.ns, Searched(c.listed), c.fetchGroup);
  }

  // ---- when groups are overlooked ----

  /** While the groups fit a page, none is overlooked. */
  lemma FewGroupsAreSeen(d: Dir, c: Call)
    requires |d.groups.objs| <= PAGE
    ensures Sees(d, c)
  {
  }

  function GroupNames(objs: seq<Object>): set<string> {
    set o | o in objs :: o.name
  }

  lemma {:induction false} UniqueNamesCount(objs: seq<Object>)
    requires UniqueNames(objs)
    ensures |GroupNames(objs)| == |objs|
  {
    if objs != [] {
      var init, last := objs[..|objs| - 1], objs[|objs| - 1];
      UniqueNamesCount(init);
      assert objs == init + [last];
      assert GroupNames(objs) == GroupNames(init) + {last.name};
      assert last.name !in GroupNames(init);
    } else {
      assert GroupNames(objs) == {};
    }
  }

  /** The names of the groups there are and of those the calls ask for. */
  function Wanted(d: Dir, calls: seq<Call>): set<string> {
    GroupNames(d.groups.objs) + set c | c in calls && c.Svc? :: NMG_NAME + c.svc.ns
  }

  lemma StepMakesWanted(d: Dir, c: Call)
    requires DirOk(d)
    ensures GroupNames(Step(d, c).groups.objs) <= Wanted(d, [c])
  {
    if c.Svc? {
      GroupStepMakes(d, c);
      EnsureMakes(d.groups, NMG_NAME + c.svc.ns, "", Searched(c.listed), c.fetchGroup, c.createGroup);
      MacroStepKeeps(d, c);
    }
  }

  /** If no more than fifty group names are ever wanted, no group is overlooked: so everything
      above holds for every such list of events. */
  lemma {:induction false} FewNamesAreSeen(d: Dir, calls: seq<Call>)
    requires DirOk(d) && |Wanted(d, calls)| <= 50
    ensures SeesAll(d, calls) && DirOk(Run(d, calls)) && GroupNames(Run(d, calls).groups.objs) <= Wanted(d, calls)
  {
    if calls != [] {
      var init, last := calls[..|calls| - 1], calls[|calls| - 1];
      assert calls == init + [last];
      assert Wanted(d, init) <= Wanted(d, calls);
      SubsetIsSmaller(Wanted(d, init), Wanted(d, calls));
      FewNamesAreSeen(d, init);
      var e := Run(d, init);
      UniqueNamesCount(e.groups.objs);
      SubsetIsSmaller(GroupNames(e.groups.objs), Wanted(d, calls));
      FewGroupsAreSeen(e, last);
      StepKeepsIff(e, last);
      StepMakesWanted(e, last);
    }
  }

  function IdsOf(objs: seq<Object>): set<nat> {
    set o | o in objs :: o.id
  }

  ghost predicate UniqueIds(objs: seq<Object>) {
    forall i, j :: 0 <= i < j < |objs| ==> objs[i].id != objs[j].id
  }

  lemma {:induction false} OnlyFirst(objs: seq<Object>, n: nat)
    requires UniqueIds(objs) && n <= |objs|
    ensures Only(objs, IdsOf(objs[..n])) == objs[..n]
  {
    if n == 0 {
      OnlyNone(objs, IdsOf(objs[..n]));
    } else {
      assert objs[..n] == [objs[0]] + objs[1..][..n - 1];
      forall o | o in objs[1..]
        ensures o.id != objs[0].id
      {
        var j :| 0 <= j < |objs[1..]| && objs[1..][j] == o;
        assert objs[j + 1] == o;
      }
      OnlyFirst(objs[1..], n - 1);
      SameOnly(objs[1..], IdsOf(objs[..n]), IdsOf(objs[1..][..n - 1]));
      assert objs[0] in objs[..n];
    }
  }

  lemma {:induction false} OnlyNone(objs: seq<Object>, ids: set<nat>)
    requires forall o :: o in objs ==> o.id !in ids
    ensures Only(objs, ids) == []
  {
    if objs != [] {
      OnlyNone(objs[1..], ids);
    }
  }

  lemma {:induction false} SameOnly(objs: seq<Object>, a: set<nat>, b: set<nat>)
    requires forall o :: o in objs ==> (o.id in a <==> o.id in b)
    ensures Only(objs, a) == Only(objs, b)
  {
    if objs != [] {
      assert objs[0] in objs;
      SameOnly(objs[1..], a, b);
    }
  }

  /** A service of the namespace; all requests are granted. */
  function Plain(ns: string, listed: set<nat>): Call {
    Svc(Service("web", ns, "10.0.0.1"), Fine, listed, Fine, Fine, Fine, Fine, Fine)
  }

  lemma LastIsHidden(objs: seq<Object>, name: string)
    requires UniqueNames(objs) && UniqueIds(objs) && |objs| > PAGE && objs[|objs| - 1].name == name
    ensures FirstPage(objs, IdsOf(objs[..PAGE])) == objs[..PAGE]
    ensures Hidden(objs, name, Searched(IdsOf(objs[..PAGE])))
  {
    OnlyFirst(objs, PAGE);
    assert objs[|objs| - 1] in objs;
  }

  /** With more than fifty groups: after a restart, a service in the namespace of the last one
      makes a second group of its name and applies the policy element once more. */
  lemma LastGroupIsMadeAgain(d: Dir, ns: string) returns (c: Call)
    requires DirOk(d) && UniqueIds(d.groups.objs) && |d.groups.objs| > 50
    requires d.groups.objs[|d.groups.objs| - 1].name == NMG_NAME + ns
    ensures c.Svc? && c.svc.ns == ns && |FirstPage(d.groups.objs, c.listed)| == 50
    ensures var d' := Step(Forget(d), c);
            && !Sees(Forget(d), c) && !DirOk(d')
            && d'.groups.objs == d.groups.objs + [Object(|d.groups.objs| + 1, NMG_NAME + ns, "")]
            && Count(d', NMG_NAME + ns) == Count(d, NMG_NAME + ns) + 1
  {
    var e := Forget(d);
    c := Plain(ns, IdsOf(d.groups.objs[..PAGE]));
    LastIsHidden(d.groups.objs, NMG_NAME + ns);
    StepKeepsIff(e, c);
    FetchFinds(e.groups, NMG_NAME + ns, Searched(c.listed), Fine);
    MacroStepKeeps(e, c);
  }

  function Groups(n: nat): seq<Object> {
    seq(n, i requires i >= 0 => Object(i + 1, NMG_NAME + seq(i, _ => 'x'), ""))
  }

  /** The failing input: fifty-one groups. */
  lemma FiftyOneGroups() returns (d: Dir, c: Call)
    ensures c.Svc? && DirOk(d) && |d.groups.objs| == 51 && |FirstPage(d.groups.objs, c.listed)| == 50 && !DirOk(Step(d, c))
  {
    d := Dir(Kind([], map[]), Kind(Groups(51), map[]), Kind([], map[]), map[], {});
    forall i, j | 0 <= i < j < 51
      ensures Groups(51)[i].name != Groups(51)[j].name
    {
      assert |Groups(51)[i].name| != |Groups(51)[j].name|;
    }
    c := LastGroupIsMadeAgain(d, seq(50, _ => 'x'));
    assert Forget(d) == d;
  }

  // ---- macros are named by service name only ----

  /** A macro of the service's name with another address: made for a service of the same
      name in another namespace, or for an earlier service of that name. */
  ghost predicate Taken(d: Dir, svc: Service) {
    exists m :: m in d.macros.objs && m.name == NM_NAME + svc.name && m.address != svc.clusterIP
  }

  /** After a completed ServiceCreated the macro of the service's name is assigned to its
      namespace's group; it has the service's address exactly when no macro of that name
      with another address was there. */
  lemma AssignedAddressIff(d: Dir, c: Call) returns (macro: Object, group: Object)
    requires DirOk(d) && c.Svc? && OutcomeIn(d, c).Done? && !c.assign.Refused?
    ensures var d' := Step(d, c);
            && macro in d'.macros.objs && macro.name == "K8S service " + c.svc.name
            && group in d'.groups.objs && group.name == "K8S services in namespace " + c.svc.ns
            && d'.members == d.members + {Assignment(macro.id, group.id)}
            && (macro.address == c.svc.clusterIP <==> !Taken(d, c.svc))
  {
    GroupStepMakes(d, c);
    var (d1, g) := GroupStep(d, c);
    var name := NM_NAME + c.svc.name;
    EnsureKeeps(d.macros, name, c.svc.clusterIP, c.fetchMacro, c.createMacro);
    var (k, m) := Ensure(d.macros, name, c.svc.clusterIP, Filtered, c.fetchMacro, c.createMacro);
    macro, group := m.obj, g.obj;
    if k.objs == d.macros.objs {
      forall o | o in d.macros.objs && o.name == name
        ensures o == macro
      {
        TheOneNamed(d.macros.objs, o, macro);
      }
    } else {
      assert Make(d.macros, name, c.svc.clusterIP) in k.objs;
      TheOneNamed(k.objs, macro, Make(d.macros, name, c.svc.clusterIP));
    }
  }
}
