// vsd-client/zone.go, network-macro-group.go, network-macro.go with their callers in
// k8s-client/namespace.go and service.go. Each method is proved to do what Directory.dfy says.
module VsdClient {
  import opened Base
  import opened Directory

  /** The objects of one kind in the VSD, and the agent's cache of them (Zones, NMGs, NMs). */
  class Registry {
    var objs: seq<Object>
    var cache: map<string, Object>

    constructor (objs: seq<Object>)
      ensures View() == Kind(objs, map[])
    {
      this.objs, cache := objs, map[];
    }

    ghost function View(): Kind
      reads this
    {
      Kind(objs, cache)
    }

    /** The server's filtered list. */
    method Filter(name: string) returns (list: seq<Object>)
      ensures list == Matching(objs, name)
    {
      list := [];
      var i := |objs|;
      while i > 0
        invariant 0 <= i <= |objs| && list == Matching(objs[i..], name)
      {
        i := i - 1;
        assert objs[i..][1..] == objs[i + 1..];
        if objs[i].name == name {
          list := [objs[i]] + list;
        }
      }
    }

    /** FetchByName of zones and macros: the cache, else a filtered list of exactly one. */
    method FetchFiltered(name: string, a: Answer) returns (r: Reply)
      modifies this
      ensures (View(), r) == Fetch(old(View()), name, Filtered, a)
    {
      if name in cache {
        return Found(cache[name]);
      }
      if !a.Fine? {
        return if a.Dead? then Died else Error;
      }
      var list := Filter(name);
      r := Absent;
      if |list| == 1 {
        cache := cache[name := list[0]];
        r := Found(cache[name]);
      }
    }

    /** The list of groups, cut at its first page; ids are those the VSD puts there. */
    method ListPage(ids: set<nat>) returns (list: seq<Object>)
      ensures list == FirstPage(objs, ids)
    {
      list := objs;
      if |objs| > PAGE {
        list := [];
        var i := |objs|;
        while i > 0
          invariant 0 <= i <= |objs| && list == Only(objs[i..], ids)
        {
          i := i - 1;
          assert objs[i..][1..] == objs[i + 1..];
          if objs[i].id in ids {
            list := [objs[i]] + list;
          }
        }
        assert objs[0..] == objs;
        if |list| > PAGE {
          list := list[..PAGE];
        }
      }
    }

    /** FetchByName of groups: the cache, else a search through the list. */
    method FetchSearching(name: string, a: Answer, listed: set<nat>) returns (r: Reply)
      modifies this
      ensures (View(), r) == Fetch(old(View()), name, Searched(listed), a)
    {
      if name in cache {
        return Found(cache[name]);
      }
      if !a.Fine? {
        return if a.Dead? then Died else Error;
      }
      var list := ListPage(listed);
      r := Absent;
      var i := 0;
      while i < |list|
        invariant 0 <= i <= |list| && r.Absent? && View() == old(View())
        invariant FirstNamed(list, name) == FirstNamed(list[i..], name)
      {
        assert list[i..][1..] == list[i + 1..];
        if list[i].name == name {
          cache := cache[name := list[i]];
          r := Found(cache[name]);
          break;
        }
        i := i + 1;
      }
    }

    /** Create: the new object is cached once the VSD has confirmed it. */
    method CreateObject(name: string, address: string, a: Answer) returns (r: Reply)
      modifies this
      ensures (View(), r) == Create(old(View()), name, address, a)
    {
      var o := Object(|objs| + 1, name, address);
      if a.Dead? {
        return Died;
      }
      if a.Fine? || a.Lost? {
        objs := objs + [o];
      }
      if !a.Fine? {
        return Error;
      }
      cache := cache[name := o];
      r := Found(o);
    }
  }

  class Client {
    const zones: Registry
    const groups: Registry
    const macros: Registry
    var applied: map<string, nat>
    var members: set<Assignment>

    constructor (zones: Registry, groups: Registry, macros: Registry)
      requires zones != groups && zones != macros && groups != macros
      ensures Valid() && this.zones == zones && this.groups == groups && this.macros == macros
      ensures applied == map[] && members == {}
    {
      this.zones, this.groups, this.macros := zones, groups, macros;
      applied, members := map[], {};
    }

    ghost predicate Valid() {
      zones != groups && zones != macros && groups != macros
    }

    ghost function View(): Dir
      reads this, zones, groups, macros
    {
      Dir(zones.View(), groups.View(), macros.View(), applied, members)
    }

    /** A new process: the caches are empty, the VSD is as it was. */
    method Restart()
      requires Valid()
      modifies zones, groups, macros
      ensures View() == Forget(old(View()))
    {
      zones.cache, groups.cache, macros.cache := map[], map[], map[];
    }

    /** The zone part of NamespaceCreated. */
    method NamespaceCreated(c: Call) returns (o: Outcome)
      requires Valid() && c.Namespace?
      modifies zones
      ensures (View(), o) == NamespaceStep(old(View()), c)
    {
      var zone := zones.FetchFiltered(ZONE_NAME + c.ns, c.fetch);
      if zone.Absent? {
        zone := zones.CreateObject(ZONE_NAME + c.ns, "", c.create);
      }
      o := OutcomeOf(zone);
    }

    /** AddPESvcsAllow. */
    method AddPESvcsAllow(group: string, a: Answer)
      modifies this
      ensures View() == AllowStep(old(View()), group, a)
    {
      if a.Fine? || a.Lost? {
        applied := applied[group := (if group in applied then applied[group] else 0) + 1];
      }
    }

    method EnsureGroup(c: Call) returns (nmg: Reply)
      requires Valid() && c.Svc?
      modifies this, groups
      ensures (View(), nmg) == GroupStep(old(View()), c)
    {
      var name := NMG_NAME + c.svc.ns;
      nmg := groups.FetchSearching(name, c.fetchGroup, c.listed);
      if nmg.Absent? {
        nmg := groups.CreateObject(name, "", c.createGroup);
        if nmg.Found? {
          AddPESvcsAllow(name, c.policy);
          if c.policy.Dead? {
            nmg := Died;
          }
        }
      }
    }

    /** ServiceCreated. */
    method ServiceCreated(c: Call) returns (o: Outcome)
      requires Valid() && c.Svc?
      modifies this, groups, macros
      ensures (View(), o) == ServiceStep(old(View()), c)
    {
      var nmg := EnsureGroup(c);
      if !nmg.Found? {
        return OutcomeOf(nmg);
      }
      var nm := macros.FetchFiltered(NM_NAME + c.svc.name, c.fetchMacro);
      if nm.Absent? {
        nm := macros.CreateObject(NM_NAME + c.svc.name, c.svc.clusterIP, c.createMacro);
      }
      if !nm.Found? {
        return OutcomeOf(nm);
      }
      if c.assign.Dead? {
        return Gone;
      }
      if !c.assign.Refused? {
        members := members + {Assignment(nm.obj.id, nmg.obj.id)};
      }
      o := Done;
    }

    /** Handling a list of events, with a new process after each death: the resulting state is
        the run's; so it has unique names, agreeing caches and no doubly applied policy, as
        long as no group is made that is there already. */
    method Serve(calls: seq<Call>)
      requires Valid() && DirOk(View())
      modifies this, zones, groups, macros
      ensures View() == Run(old(View()), calls)
      ensures SeesAll(old(View()), calls) ==> DirOk(View())
    {
      var i := 0;
      while i < |calls|
        invariant 0 <= i <= |calls| && View() == Run(old(View()), calls[..i])
      {
        var o := Gone;
        match calls[i] {
          case Namespace(_, _, _) => o := NamespaceCreated(calls[i]);
          case Svc(_, _, _, _, _, _, _, _) => o := ServiceCreated(calls[i]);
          case Crash =>
        }
        if o.Gone? {
          Restart();
        }
        assert calls[..i + 1][..i] == calls[..i];
        i := i + 1;
      }
      assert calls[..i] == calls;
      if SeesAll(old(View()), calls) {
        RunKeeps(old(View()), calls);
      }
    }
  }
}
