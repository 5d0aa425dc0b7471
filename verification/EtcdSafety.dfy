// What the lease protocol guarantees, first without and then with a premise on timing.
module EtcdSafety {
  import opened Base
  import opened Etcd

  // ---- without any premise ----

  /** No process yet; whatever keys are left from the past expire within a TTL, and host
      keys hold their own host's name. */
  ghost predicate Initial(s: State) {
    s.procs == map[] && StoreOk(s)
  }

  ghost predicate StoreOk(s: State) {
    && (forall k :: k in s.store ==> s.store[k].expiry <= s.now + TTL)
    && (forall h :: HostKey(h) in s.store ==> s.store[HostKey(h)].value == h)
  }

  lemma StepKeepsStore(s: State, e: Event)
    requires StoreOk(s) && Enabled(s, e)
    ensures StoreOk(Apply(s, e))
  {
  }

  lemma {:induction false} RunKeepsStore(s: State, tr: seq<Event>, t: State)
    requires StoreOk(s) && Run(s, tr) == Some(t)
    ensures StoreOk(t)
  {
    if tr != [] {
      var r := Run(s, tr[..|tr| - 1]).value;
      RunKeepsStore(s, tr[..|tr| - 1], r);
      StepKeepsStore(r, tr[|tr| - 1]);
    }
  }

  /** A lease as it may become while its key stays present. */
  ghost predicate Extends(old_: Lease, new_: Lease) {
    new_ == old_.(expiry := new_.expiry) && old_.expiry <= new_.expiry
  }

  /** A step that leaves a key present keeps its value and its creator and never moves its
      expiry backwards. */
  lemma StepExtends(s: State, e: Event, key: Key)
    requires StoreOk(s) && Enabled(s, e) && key in s.store && key in Apply(s, e).store
    ensures Extends(s.store[key], Apply(s, e).store[key])
  {
  }

  /** The key is present in every state of the run. */
  ghost predicate PresentThroughout(s: State, tr: seq<Event>, key: Key) {
    if tr == [] then key in s.store
    else
      && PresentThroughout(s, tr[..|tr| - 1], key)
      && Run(s, tr).Some? && key in Run(s, tr).value.store
  }

  /** In any run, a key -- the leader key in particular -- never passes from one value to
      another without having been absent in between; until then its expiry only grows. */
  lemma {:induction false} ValueStays(s: State, tr: seq<Event>, t: State, key: Key)
    requires StoreOk(s) && Run(s, tr) == Some(t) && PresentThroughout(s, tr, key)
    ensures key in s.store && key in t.store && Extends(s.store[key], t.store[key])
  {
    if tr != [] {
      var r := Run(s, tr[..|tr| - 1]).value;
      ValueStays(s, tr[..|tr| - 1], r, key);
      RunKeepsStore(s, tr[..|tr| - 1], r);
      StepExtends(r, tr[|tr| - 1], key);
    }
  }

  // ---- one process per host ----

  /** Every live process set its host key less than a TTL ago. */
  ghost predicate HostTimely(s: State) {
    forall pid :: Live(s, pid) ==> s.now < s.procs[pid].hostSet + TTL
  }

  ghost predicate HostTimelyRun(s: State, tr: seq<Event>) {
    if tr == [] then HostTimely(s)
    else HostTimelyRun(s, tr[..|tr| - 1]) && Run(s, tr).Some? && HostTimely(Run(s, tr).value)
  }

  /** Every live process owns its host's key. */
  ghost predicate HostsOwned(s: State) {
    forall pid :: Live(s, pid) ==>
      var p := s.procs[pid];
      HostKey(p.host) in s.store && s.store[HostKey(p.host)] == Lease(p.host, p.hostSet + TTL, pid)
  }

  /** A live leader never takes another process's lease for its own. */
  ghost predicate LeaderMineIfNamed(s: State) {
    forall pid :: Live(s, pid) && s.procs[pid].phase.Leading? && Leader in s.store
                  && s.store[Leader].value == s.procs[pid].host ==>
      s.store[Leader].creator == pid
  }

  lemma OneProcessPerHost(s: State, p: nat, q: nat)
    requires HostsOwned(s) && Live(s, p) && Live(s, q) && s.procs[p].host == s.procs[q].host
    ensures p == q
  {
  }

  lemma StepKeepsHosts(s: State, e: Event)
    requires HostsOwned(s) && HostTimely(s) && Enabled(s, e)
    ensures HostsOwned(Apply(s, e))
  {
  }

  lemma StepKeepsNamed(s: State, e: Event)
    requires HostsOwned(s) && HostTimely(s) && LeaderMineIfNamed(s) && Enabled(s, e)
    ensures LeaderMineIfNamed(Apply(s, e))
  {
  }

  lemma {:induction false} TimelyRunKeepsHosts(s: State, tr: seq<Event>, t: State)
    requires Initial(s) && Run(s, tr) == Some(t) && HostTimelyRun(s, tr)
    ensures HostsOwned(t) && LeaderMineIfNamed(t) && HostTimely(t)
  {
    if tr != [] {
      var r := Run(s, tr[..|tr| - 1]).value;
      TimelyRunKeepsHosts(s, tr[..|tr| - 1], r);
      StepKeepsHosts(r, tr[|tr| - 1]);
      StepKeepsNamed(r, tr[|tr| - 1]);
    }
  }

  /** Two-level lease: if host keys are renewed in time, at most one process per host is
      alive, and a renewal that succeeds -- by comparing values only -- always extends a
      lease which that same process created. */
  lemma RenewsOwnLeaseOnly(s: State, tr: seq<Event>, t: State, pid: nat, key: Key)
    requires Initial(s) && Run(s, tr) == Some(t) && HostTimelyRun(s, tr)
    requires Renewing(t, pid, key) && key in t.store && t.store[key].value == t.procs[pid].host
    ensures t.store[key].creator == pid
    ensures forall q :: Live(t, q) && t.procs[q].host == t.procs[pid].host ==> q == pid
  {
    TimelyRunKeepsHosts(s, tr, t);
    forall q | Live(t, q) && t.procs[q].host == t.procs[pid].host
      ensures q == pid
    {
      OneProcessPerHost(t, q, pid);
    }
  }

  // ---- one leader ----

  ghost predicate LeaderTimely(s: State) {
    forall pid :: Live(s, pid) && s.procs[pid].phase.Leading? ==> s.now < s.procs[pid].leaderSet + TTL
  }

  ghost predicate LeaderTimelyRun(s: State, tr: seq<Event>) {
    if tr == [] then LeaderTimely(s)
    else LeaderTimelyRun(s, tr[..|tr| - 1]) && Run(s, tr).Some? && LeaderTimely(Run(s, tr).value)
  }

  /** Every live leader owns the leader key. */
  ghost predicate LeaderOwned(s: State) {
    forall pid :: Live(s, pid) && s.procs[pid].phase.Leading? ==>
      var p := s.procs[pid];
      Leader in s.store && s.store[Leader] == Lease(p.host, p.leaderSet + TTL, pid)
  }

  lemma StepKeepsLeader(s: State, e: Event)
    requires LeaderOwned(s) && LeaderTimely(s) && Enabled(s, e)
    ensures LeaderOwned(Apply(s, e))
  {
  }

  lemma {:induction false} TimelyRunKeepsLeader(s: State, tr: seq<Event>, t: State)
    requires Initial(s) && Run(s, tr) == Some(t) && LeaderTimelyRun(s, tr)
    ensures LeaderOwned(t) && LeaderTimely(t)
  {
    if tr != [] {
      var r := Run(s, tr[..|tr| - 1]).value;
      TimelyRunKeepsLeader(s, tr[..|tr| - 1], r);
      StepKeepsLeader(r, tr[|tr| - 1]);
    }
  }

  /** In any run in which leaders renew in time: a live process that has returned from
      LeaderElection is the only one, and the leader key is present with its host's name. */
  lemma OneLeader(s: State, tr: seq<Event>, t: State, pid: nat)
    requires Initial(s) && Run(s, tr) == Some(t) && LeaderTimelyRun(s, tr)
    requires Live(t, pid) && t.procs[pid].phase.Leading?
    ensures Leader in t.store && t.store[Leader].value == t.procs[pid].host && t.store[Leader].creator == pid
    ensures forall q :: Live(t, q) && t.procs[q].phase.Leading? ==> q == pid
  {
    TimelyRunKeepsLeader(s, tr, t);
  }

  // ---- the premises are needed ----

  /** A leader renews its host key only, until its leader key is due. */
  lemma Stalled(a: string) returns (s: State, tr: seq<Event>, t: State)
    ensures Initial(s) && Run(s, tr) == Some(t) && HostTimelyRun(s, tr)
    ensures t.procs.Keys == {0} && t.procs[0] == Proc(a, Leading, TTL - 1, 0, true, true)
    ensures t.now == TTL && Leader in t.store && t.store[Leader] == Lease(a, TTL, 0)
    ensures forall h :: HostKey(h) in t.store ==> h == a
  {
    s := State(0, map[], map[]);
    tr, t := [], s;
    t, tr := Extend(s, tr, t, Start(0, a));
    t, tr := Extend(s, tr, t, TryLeader(0));
    t, tr := Extend(s, tr, t, Tick(TTL - 1));
    t, tr := Extend(s, tr, t, Renew(0, HostKey(a)));
    t, tr := Extend(s, tr, t, Tick(1));
  }

  /** A leader whose loop stalls for a TTL, while its host key is renewed in time: another
      process becomes leader too, and the first one's failed renewal only ends its loop. */
  lemma StalledLeaderStays(a: string, b: string) returns (s: State, tr: seq<Event>, t: State)
    requires a != b
    ensures Initial(s) && Run(s, tr) == Some(t) && HostTimelyRun(s, tr)
    ensures Live(t, 0) && t.procs[0].phase.Leading? && Live(t, 1) && t.procs[1].phase.Leading?
    ensures Leader in t.store && t.store[Leader].value == b && !t.procs[0].leaderLoop
  {
    s, tr, t := Stalled(a);
    t, tr := Extend(s, tr, t, Expire(Leader));
    t, tr := Extend(s, tr, t, Start(1, b));
    t, tr := Extend(s, tr, t, TryLeader(1));
    t, tr := Extend(s, tr, t, Renew(0, Leader));
  }

  /** One more event of a run whose host keys are timely. */
  lemma Extend(s: State, tr: seq<Event>, t: State, e: Event) returns (t': State, more: seq<Event>)
    requires Run(s, tr) == Some(t) && HostTimelyRun(s, tr) && Enabled(t, e) && HostTimely(Apply(t, e))
    ensures t' == Apply(t, e) && more == tr + [e] && Run(s, more) == Some(t') && HostTimelyRun(s, more)
  {
    t', more := Apply(t, e), tr + [e];
    Then(s, tr, t, e, t');
    assert more[..|more| - 1] == tr;
  }

  lemma After(s: State, tr: seq<Event>, t: State, e: Event) returns (t': State, more: seq<Event>)
    requires Run(s, tr) == Some(t) && Enabled(t, e)
    ensures t' == Apply(t, e) && more == tr + [e] && Run(s, more) == Some(t')
  {
    t', more := Apply(t, e), tr + [e];
    Then(s, tr, t, e, t');
  }

  /** The first process of all leads at once. */
  lemma LeadsAtOnce(a: string) returns (s: State, tr: seq<Event>, t: State)
    ensures Initial(s) && Run(s, tr) == Some(t)
    ensures t == State(0, map[HostKey(a) := Lease(a, TTL, 0), Leader := Lease(a, TTL, 0)],
                       map[0 := Proc(a, Leading, 0, 0, true, true)])
  {
    s := State(0, map[], map[]);
    tr, t := [], s;
    t, tr := After(s, tr, t, Start(0, a));
    t, tr := After(s, tr, t, TryLeader(0));
  }

  /** A leader whose two keys have expired. */
  lemma Outlived(a: string) returns (s: State, tr: seq<Event>, t: State)
    ensures Initial(s) && Run(s, tr) == Some(t)
    ensures t.procs.Keys == {0} && t.procs[0] == Proc(a, Leading, 0, 0, true, true)
    ensures t.now == TTL && Leader !in t.store && HostKey(a) !in t.store
  {
    s, tr, t := LeadsAtOnce(a);
    t, tr := After(s, tr, t, Tick(TTL));
    t, tr := After(s, tr, t, Expire(HostKey(a)));
    t, tr := After(s, tr, t, Expire(Leader));
  }

  /** A process that outlives its host key: a second one starts on the same host and takes
      the leader key, and the first one's value-compared renewal extends the other's lease. */
  lemma RenewsAnothersLease(a: string) returns (s: State, tr: seq<Event>, t: State, t': State)
    ensures Initial(s) && Run(s, tr) == Some(t) && Next(t, Renew(0, Leader)) == Some(t')
    ensures Leader in t.store && t.store[Leader].creator == 1
    ensures Leader in t'.store && t'.store[Leader].expiry > t.store[Leader].expiry && t'.procs[0].leaderSet == t'.now
  {
    s, tr, t := Outlived(a);
    t, tr := After(s, tr, t, Start(1, a));
    t, tr := After(s, tr, t, TryLeader(1));
    t, tr := After(s, tr, t, Tick(1));
    t' := Apply(t, Renew(0, Leader));
  }

  // ---- the renewal period ----

  /** RenewKey's sleep: the larger of one second and the TTL divided by the number of clients. */
  function Period(ttl: int, clients: int): int
    requires clients > 0
  {
    if SECOND > ttl / clients then SECOND else ttl / clients
  }

  /** The sleep is shorter than the TTL exactly when the TTL exceeds a second and there are
      at least two clients. */
  lemma SlackIff(ttl: nat, clients: nat)
    requires clients > 0
    ensures Period(ttl, clients) < ttl <==> ttl > 1_000_000_000 && clients >= 2
  {
    var q, r := ttl / clients, ttl % clients;
    assert ttl == clients * q + r;
    if clients >= 2 {
      MulMonotone(q, 2, clients);
    }
  }

  lemma ThreeSecondPeriod()
    ensures Period(TTL, NR_CLIENTS) == 3_000_000_000 && TTL - Period(TTL, NR_CLIENTS) == 6_000_000_000
  {
  }

  /** Every key a live process holds was set at most one period and the given delay ago:
      sleep, scheduling and the two requests' latencies add up to no more. */
  ghost predicate Paced(s: State, delay: int) {
    forall pid :: Live(s, pid) ==>
      && s.now <= s.procs[pid].hostSet + Period(TTL, NR_CLIENTS) + delay
      && (s.procs[pid].phase.Leading? ==> s.now <= s.procs[pid].leaderSet + Period(TTL, NR_CLIENTS) + delay)
  }

  ghost predicate PacedRun(s: State, tr: seq<Event>, delay: int) {
    if tr == [] then Paced(s, delay)
    else PacedRun(s, tr[..|tr| - 1], delay) && Run(s, tr).Some? && Paced(Run(s, tr).value, delay)
  }

  lemma {:induction false} PacedIsTimely(s: State, tr: seq<Event>, delay: int)
    requires PacedRun(s, tr, delay) && delay < 6_000_000_000
    ensures HostTimelyRun(s, tr) && LeaderTimelyRun(s, tr)
  {
    ThreeSecondPeriod();
    if tr != [] {
      PacedIsTimely(s, tr[..|tr| - 1], delay);
    }
  }

  /** With the agent's own period and delays below six seconds, there is at most one leader
      in every reachable state, it holds the leader key under its host's name, and no host
      runs a second process. */
  lemma ElectionIsSafe(s: State, tr: seq<Event>, t: State, delay: int, pid: nat)
    requires Initial(s) && Run(s, tr) == Some(t) && PacedRun(s, tr, delay) && delay < 6_000_000_000
    requires Live(t, pid)
    ensures forall q :: Live(t, q) && t.procs[q].host == t.procs[pid].host ==> q == pid
    ensures t.procs[pid].phase.Leading? ==>
              && Leader in t.store && t.store[Leader].value == t.procs[pid].host && t.store[Leader].creator == pid
              && forall q :: Live(t, q) && t.procs[q].phase.Leading? ==> q == pid
  {
    PacedIsTimely(s, tr, delay);
    TimelyRunKeepsHosts(s, tr, t);
    TimelyRunKeepsLeader(s, tr, t);
  }
}
