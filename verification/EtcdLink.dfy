// The phases of a process in the lease system (Etcd.dfy) are the outcomes of the source's
// BlockforKey loop (EtcdClient.dfy) on the answers and notices that process received.
module EtcdLink {
  import opened Base
  import opened Etcd
  import opened EtcdClient

  // ---- the steps of the lease system are the client's requests ----

  const COMPARE_FAILED: int := 101

  /** How an etcd store serves a Set request of a process. */
  function Serve(store: map<Key, Lease>, now: int, pid: nat, q: Request): (map<Key, Lease>, Answer) {
    match q.condition
    case NoExist =>
      if q.key in store then (store, EtcdError(NODE_EXIST))
      else (store[q.key := Lease(q.value, now + q.ttl, pid)], Fine)
    case Was(value) =>
      if q.key !in store then (store, EtcdError(KEY_NOT_FOUND))
      else if store[q.key].value != value then (store, EtcdError(COMPARE_FAILED))
      else (store[q.key := Lease(q.value, now + q.ttl, store[q.key].creator)], Fine)
  }

  /** Registering the host, an attempt at the leader key and a renewal are, on the store,
      CreateKey's and CASKey's requests; and the process goes by the answer: a refused
      registration and a renewal of a missing key end it, a refused leader key makes it watch,
      and any other refusal ends a renewal loop. */
  lemma StepIsRequest(s: State, pid: nat, key: Key, h: string)
    ensures Enabled(s, Start(pid, h)) ==>
              var (store, answer), t := Serve(s.store, s.now, pid, Create(HostKey(h), h)), Apply(s, Start(pid, h));
              t.store == store && (Live(t, pid) <==> answer.Fine?)
    ensures Enabled(s, TryLeader(pid)) ==>
              var (store, answer) := Serve(s.store, s.now, pid, Create(Leader, s.procs[pid].host));
              var t := Apply(s, TryLeader(pid));
              t.store == store && t.procs[pid].phase == if answer.Fine? then Leading else Watching
    ensures Enabled(s, Renew(pid, key)) ==>
              var (store, answer) := Serve(s.store, s.now, pid, Renewal(key, s.procs[pid].host));
              var t := Apply(s, Renew(pid, key));
              && t.store == store && (Live(t, pid) <==> !CasOutcome(answer).Died?)
              && (Renewing(t, pid, key) <==> CasOutcome(answer).Success?)
  {
  }

  // ---- the phases of a process are the outcomes of its BlockforKey call ----

  /** What the store answered to the attempts of a process during a run. */
  ghost function Answers(s: State, tr: seq<Event>, pid: nat): seq<Answer> {
    if tr == [] then []
    else
      var init, last := tr[..|tr| - 1], tr[|tr| - 1];
      var r := Run(s, init);
      Answers(s, init, pid) +
      if last == TryLeader(pid) && r.Some? then [if Leader in r.value.store then EtcdError(NODE_EXIST) else Fine] else []
  }

  /** What its watches reported. */
  function Notices(tr: seq<Event>, pid: nat): seq<Notice> {
    if tr == [] then []
    else Notices(tr[..|tr| - 1], pid) + if tr[|tr| - 1] == Event.Notice(pid) then [Action("expire")] else []
  }

  function Taken(n: nat): seq<Answer> {
    if n == 0 then [] else [EtcdError(NODE_EXIST)] + Taken(n - 1)
  }

  function Gones(n: nat): seq<Notice> {
    if n == 0 then [] else [Action("expire")] + Gones(n - 1)
  }

  lemma {:induction false} OneMore(n: nat)
    ensures Taken(n) + [EtcdError(NODE_EXIST)] == Taken(n + 1)
    ensures Gones(n) + [Action("expire")] == Gones(n + 1)
  {
    if n > 0 {
      OneMore(n - 1);
      assert Taken(n) + [EtcdError(NODE_EXIST)] == [EtcdError(NODE_EXIST)] + (Taken(n - 1) + [EtcdError(NODE_EXIST)]);
      assert Gones(n) + [Action("expire")] == [Action("expire")] + (Gones(n - 1) + [Action("expire")]);
    }
  }

  lemma {:induction false} StillBlocked(n: nat, m: nat)
    requires m <= n <= m + 1
    ensures BlockSpec(Taken(n), Gones(m)).outcome == if n == m then AwaitingAnswer else AwaitingNotice
  {
    if m > 0 {
      assert Skip(Gones(m)) == 0;
      assert Gones(m)[1..] == Gones(m - 1);
      StillBlocked(n - 1, m - 1);
    }
  }

  lemma {:induction false} FinallyWins(n: nat)
    ensures BlockSpec(Taken(n) + [Fine], Gones(n)).outcome == Success
  {
    if n > 0 {
      assert (Taken(n) + [Fine])[1..] == Taken(n - 1) + [Fine];
      assert Skip(Gones(n)) == 0;
      assert Gones(n)[1..] == Gones(n - 1);
      FinallyWins(n - 1);
    }
  }

  /** The attempts and notices of a process that began by trying. */
  ghost predicate Rounds(phase: Phase, answers: seq<Answer>, notices: seq<Notice>, n: nat) {
    match phase
    case Trying => answers == Taken(n) && notices == Gones(n)
    case Watching => answers == Taken(n + 1) && notices == Gones(n)
    case Leading => answers == Taken(n) + [Fine] && notices == Gones(n)
    case Ended => true
  }

  lemma Round(s: State, tr: seq<Event>, r: State, e: Event, t: State, pid: nat, n: nat) returns (n': nat)
    requires Run(s, tr) == Some(r) && Next(r, e) == Some(t) && pid in r.procs
    requires Rounds(r.procs[pid].phase, Answers(s, tr, pid), Notices(tr, pid), n)
    ensures pid in t.procs && Rounds(t.procs[pid].phase, Answers(s, tr + [e], pid), Notices(tr + [e], pid), n')
  {
    assert (tr + [e])[..|tr|] == tr;
    OneMore(n);
    n' := if e == Event.Notice(pid) then n + 1 else n;
  }

  lemma {:induction false} History(s: State, tr: seq<Event>, t: State, pid: nat) returns (n: nat)
    requires pid in s.procs && s.procs[pid].phase.Trying? && Run(s, tr) == Some(t)
    ensures pid in t.procs && Rounds(t.procs[pid].phase, Answers(s, tr, pid), Notices(tr, pid), n)
  {
    if tr == [] {
      n := 0;
    } else {
      var init, last := tr[..|tr| - 1], tr[|tr| - 1];
      assert tr == init + [last];
      var r := Run(s, init).value;
      n := History(s, init, r, pid);
      n := Round(s, init, r, last, t, pid, n);
    }
  }

  /** In any run, whatever other processes do meanwhile: as long as it has not ended, a process
      leads, watches or is about to try exactly as its BlockforKey call has succeeded, waits
      for a notice or waits for an answer. */
  lemma PhaseIsOutcome(s: State, tr: seq<Event>, t: State, pid: nat)
    requires pid in s.procs && s.procs[pid].phase.Trying? && Run(s, tr) == Some(t)
    ensures Live(t, pid) ==>
              var o := BlockSpec(Answers(s, tr, pid), Notices(tr, pid)).outcome;
              && (t.procs[pid].phase.Leading? <==> o.Success?)
              && (t.procs[pid].phase.Watching? <==> o.AwaitingNotice?)
              && (t.procs[pid].phase.Trying? <==> o.AwaitingAnswer?)
    ensures pid in t.procs
  {
    var n := History(s, tr, t, pid);
    match t.procs[pid].phase
    case Trying => StillBlocked(n, n);
    case Watching => StillBlocked(n + 1, n);
    case Leading => FinallyWins(n);
    case Ended =>
  }
}
