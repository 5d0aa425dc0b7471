// The lease protocol of etcd-client/etcd-leader-election.go, as a labelled transition
// system over time: an etcd store whose keys expire, and any number of agent processes.
module Etcd {
  import opened Base

  /** ServiceTTL and NrClients; durations are in nanoseconds. */
  const SECOND: int := 1_000_000_000
  const TTL: int := 9 * SECOND
  const NR_CLIENTS: int := 3

  datatype Key = HostKey(host: string) | Leader

  /** creator is bookkeeping: the process whose request made the key. */
  datatype Lease = Lease(value: string, expiry: int, creator: nat)

  /** Trying: about to create the leader key. Watching: blocked until a notice about it.
      Leading: LeaderElection has returned. */
  datatype Phase = Trying | Watching | Leading | Ended

  /** hostSet and leaderSet are the times of the process's last successful request on its
      two keys; the loops are its RenewKey goroutines. */
  datatype Proc = Proc(host: string, phase: Phase, hostSet: int, leaderSet: int, hostLoop: bool, leaderLoop: bool)

  datatype State = State(now: int, store: map<Key, Lease>, procs: map<nat, Proc>)

  datatype Event =
    | Start(pid: nat, host: string)      // a new process asks to create its host key
    | TryLeader(pid: nat)                // CreateKey(leader)
    | Notice(pid: nat)                   // the watch reports that the leader key is gone
    | Renew(pid: nat, key: Key)          // CASKey with the old value equal to the new
    | LoopEnds(pid: nat, key: Key)       // CASKey fails with another etcd error
    | Expire(key: Key)                   // etcd drops a key whose time has come
    | Tick(d: nat)
    | Crash(pid: nat)

  ghost predicate Live(s: State, pid: nat) {
    pid in s.procs && !s.procs[pid].phase.Ended?
  }

  /** The process has a running renewal loop for the key. */
  ghost predicate Renewing(s: State, pid: nat, key: Key) {
    && Live(s, pid)
    && var p := s.procs[pid];
       match key
       case HostKey(h) => h == p.host && p.hostLoop
       case Leader => p.phase.Leading? && p.leaderLoop
  }

  ghost predicate Enabled(s: State, e: Event) {
    match e
    case Start(pid, _) => pid !in s.procs
    case TryLeader(pid) => pid in s.procs && s.procs[pid].phase.Trying?
    case Notice(pid) => pid in s.procs && s.procs[pid].phase.Watching?
    case Renew(pid, key) => Renewing(s, pid, key)
    case LoopEnds(pid, key) => Renewing(s, pid, key)
    case Expire(key) => key in s.store && s.now >= s.store[key].expiry
    case Tick(_) => true
    case Crash(pid) => Live(s, pid)
  }

  function Fresh(s: State, value: string, pid: nat): Lease {
    Lease(value, s.now + TTL, pid)
  }

  /** The process when one of its renewal loops has ended; nothing else stops. */
  function WithoutLoop(p: Proc, key: Key): Proc {
    match key
    case HostKey(_) => p.(hostLoop := false)
    case Leader => p.(leaderLoop := false)
  }

  function WithSet(p: Proc, key: Key, now: int): Proc {
    match key
    case HostKey(_) => p.(hostSet := now)
    case Leader => p.(leaderSet := now)
  }

  ghost function Apply(s: State, e: Event): State
    requires Enabled(s, e)
  {
    match e
    case Start(pid, h) =>
      if HostKey(h) in s.store then s.(procs := s.procs[pid := Proc(h, Ended, 0, 0, false, false)])
      else
        s.(store := s.store[HostKey(h) := Fresh(s, h, pid)],
           procs := s.procs[pid := Proc(h, Trying, s.now, 0, true, false)])
    case TryLeader(pid) =>
      var p := s.procs[pid];
      if Leader in s.store then s.(procs := s.procs[pid := p.(phase := Watching)])
      else
        s.(store := s.store[Leader := Fresh(s, p.host, pid)],
           procs := s.procs[pid := p.(phase := Leading, leaderSet := s.now, leaderLoop := true)])
    case Notice(pid) => s.(procs := s.procs[pid := s.procs[pid].(phase := Trying)])
    case Renew(pid, key) =>
      var p := s.procs[pid];
      if key !in s.store then s.(procs := s.procs[pid := p.(phase := Ended)])
      else if s.store[key].value != p.host then s.(procs := s.procs[pid := WithoutLoop(p, key)])
      else
        s.(store := s.store[key := s.store[key].(expiry := s.now + TTL)],
           procs := s.procs[pid := WithSet(p, key, s.now)])
    case LoopEnds(pid, key) => s.(procs := s.procs[pid := WithoutLoop(s.procs[pid], key)])
    case Expire(key) => s.(store := s.store - {key})
    case Tick(d) => s.(now := s.now + d)
    case Crash(pid) => s.(procs := s.procs[pid := s.procs[pid].(phase := Ended)])
  }

  ghost function Next(s: State, e: Event): Option<State> {
    if Enabled(s, e) then Some(Apply(s, e)) else None
  }

  ghost function Run(s: State, tr: seq<Event>): Option<State> {
    if tr == [] then Some(s)
    else
      match Run(s, tr[..|tr| - 1])
      case None => None
      case Some(t) => Next(t, tr[|tr| - 1])
  }

  lemma Then(s: State, tr: seq<Event>, t: State, e: Event, t': State)
    requires Run(s, tr) == Some(t) && Next(t, e) == Some(t')
    ensures Run(s, tr + [e]) == Some(t')
  {
    assert (tr + [e])[..|tr + [e]| - 1] == tr;
  }
}
