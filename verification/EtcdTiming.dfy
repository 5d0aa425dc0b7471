// The renewal loops in time, request by request: how long each phase takes at most, the
// client's header timeout, and exactly when that makes the election safe.
module EtcdTiming {
  import opened Base
  import Etcd
  import opened EtcdSafety

  /** The etcd client tries one endpoint after another. For each phase, the longest it takes:
      until an endpoint's store has served a request (or the attempt has failed), until the
      response header has come back, until the body has been read, and by how much a sleep is
      overrun. */
  datatype Network = Network(endpoints: nat, out: nat, header: nat, body: nat, over: nat) {
    /** An attempt whose header is not there after a second is given up. */
    function Attempt(): nat {
      if out < Etcd.SECOND then out else Etcd.SECOND
    }

    function Header(): nat {
      if header < Etcd.SECOND then header else Etcd.SECOND
    }

    function Attempts(k: nat): nat {
      if k == 0 then 0 else Attempt() + Attempts(k - 1)
    }

    /** The most that comes on top of the renewal period. */
    function Total(): nat {
      Header() + body + over + Attempts(endpoints)
    }
  }

  /** Where a key's RenewKey loop stands: an attempt is on its way to an endpoint, with so many
      endpoints left; the store has served it; the body is being read; the loop sleeps. first
      marks the request of CreateKey, which is not repeated and after which there is no sleep. */
  datatype Loop =
    | Asking(left: nat, start: int)
    | Answering(left: nat, until: int, first: bool)
    | Reading(until: int, first: bool)
    | Sleeping(from: int, until: int)

  datatype Slot = Slot(pid: nat, key: Etcd.Key)

  datatype State = State(s: Etcd.State, loops: map<Slot, Loop>)

  datatype Event =
    | Does(e: Etcd.Event)
    | Headed(slot: Slot)     // the response header is there
    | Finished(slot: Slot)   // the body is read
    | Woken(slot: Slot)
    | Retried(slot: Slot)    // an attempt failed or timed out: the next endpoint

  /** When the loop must have moved on, or its process have ended. */
  function Due(loop: Loop, l: Network): int {
    match loop
    case Asking(_, start) => start + l.Attempt()
    case Answering(_, until, _) => until
    case Reading(until, _) => until
    case Sleeping(_, until) => until
  }

  ghost predicate InTime(t: State, d: nat, l: Network) {
    forall slot :: slot in t.loops && Etcd.Live(t.s, slot.pid) ==> t.s.now + d <= Due(t.loops[slot], l)
  }

  ghost predicate Enabled(t: State, e: Event, l: Network) {
    match e
    case Does(e) =>
      && Etcd.Enabled(t.s, e)
      && (match e
          case Renew(pid, key) => Slot(pid, key) in t.loops && t.loops[Slot(pid, key)].Asking?
          case LoopEnds(pid, key) => Slot(pid, key) in t.loops && t.loops[Slot(pid, key)].Asking?
          case Tick(d) => InTime(t, d, l)
          case _ => true)
    case Headed(slot) => slot in t.loops && t.loops[slot].Answering?
    case Finished(slot) => slot in t.loops && t.loops[slot].Reading?
    case Woken(slot) => slot in t.loops && t.loops[slot].Sleeping? && t.s.now >= t.loops[slot].from
    case Retried(slot) =>
      && slot in t.loops && l.endpoints > 0
      && match t.loops[slot]
         case Asking(left, _) => left > 0
         case Answering(left, _, _) => left > 0
         case _ => false
  }

  /** The first attempt of a renewal. */
  function Ask(now: int, l: Network): Loop {
    Asking(if l.endpoints == 0 then 0 else l.endpoints - 1, now)
  }

  /** The loops after a step of the protocol. */
  ghost function Follow(t: State, e: Etcd.Event, l: Network): map<Slot, Loop>
    requires Enabled(t, Does(e), l)
  {
    match e
    case Start(pid, h) =>
      if Etcd.HostKey(h) in t.s.store then t.loops
      else t.loops[Slot(pid, Etcd.HostKey(h)) := Answering(0, t.s.now + l.Header(), true)]
    case TryLeader(pid) =>
      if Etcd.Leader in t.s.store then t.loops
      else t.loops[Slot(pid, Etcd.Leader) := Answering(0, t.s.now + l.Header(), true)]
    case Renew(pid, key) =>
      var loop := t.loops[Slot(pid, key)];
      t.loops[Slot(pid, key) := Answering(loop.left, Min(loop.start + Etcd.SECOND, t.s.now + l.header), false)]
    case LoopEnds(pid, key) => t.loops - {Slot(pid, key)}
    case _ => t.loops
  }

  ghost function Apply(t: State, e: Event, l: Network): State
    requires Enabled(t, e, l)
  {
    match e
    case Does(e) => State(Etcd.Apply(t.s, e), Follow(t, e, l))
    case Headed(slot) => t.(loops := t.loops[slot := Reading(t.s.now + l.body, t.loops[slot].first)])
    case Finished(slot) =>
      t.(loops := t.loops[slot := if t.loops[slot].first then Ask(t.s.now, l)
                                  else Sleeping(t.s.now + Nap(), t.s.now + Nap() + l.over)])
    case Woken(slot) => t.(loops := t.loops[slot := Ask(t.s.now, l)])
    case Retried(slot) => t.(loops := t.loops[slot := Asking(t.loops[slot].left - 1, t.s.now)])
  }

  function Nap(): int {
    Period(Etcd.TTL, Etcd.NR_CLIENTS)
  }

  ghost function Run(t: State, tr: seq<Event>, l: Network): Option<State> {
    if tr == [] then Some(t)
    else
      match Run(t, tr[..|tr| - 1], l)
      case None => None
      case Some(r) => if Enabled(r, tr[|tr| - 1], l) then Some(Apply(r, tr[|tr| - 1], l)) else None
  }

  /** What the store and the processes do in a timed run. */
  function Untimed(tr: seq<Event>): seq<Etcd.Event> {
    if tr == [] then []
    else Untimed(tr[..|tr| - 1]) + if tr[|tr| - 1].Does? then [tr[|tr| - 1].e] else []
  }

  /** No renewal is answered with another etcd error. */
  ghost predicate Unrefused(tr: seq<Event>) {
    forall i :: 0 <= i < |tr| && tr[i].Does? ==> !tr[i].e.LoopEnds?
  }

  // ---- short phases are safe ----

  lemma {:induction false} AttemptsGrow(l: Network, j: nat, k: nat)
    requires j <= k
    ensures l.Attempts(j) <= l.Attempts(k)
  {
    if j < k {
      AttemptsGrow(l, j, k - 1);
    }
  }

  /** The latest time at which the loop of a key set at the given time wakes up. */
  function Wake(set_: int, l: Network): int {
    set_ + l.Header() + l.body + Nap() + l.over
  }

  /** The loop of a key set at the given time moves on soon enough. */
  predicate Prompt(loop: Loop, set_: int, l: Network) {
    match loop
    case Asking(left, start) => left < l.endpoints && start + l.Attempts(left) <= Wake(set_, l) + l.Attempts(l.endpoints - 1)
    case Answering(left, until, _) => left < l.endpoints && until <= set_ + l.Header()
    case Reading(until, _) => until <= set_ + l.Header() + l.body
    case Sleeping(_, until) => until <= Wake(set_, l)
  }

  lemma PromptIsDue(loop: Loop, set_: int, l: Network)
    requires Prompt(loop, set_, l)
    ensures Due(loop, l) <= set_ + Nap() + l.Total()
  {
    ThreeSecondPeriod();
    assert loop.Asking? ==> l.Attempts(l.endpoints) == l.Attempt() + l.Attempts(l.endpoints - 1);
  }

  ghost predicate Tended(t: State, slot: Slot, set_: int, l: Network) {
    && slot in t.loops && t.s.now <= Due(t.loops[slot], l) && Prompt(t.loops[slot], set_, l)
    && (t.loops[slot].Asking? ==> t.loops[slot].start <= t.s.now)
  }

  /** Every key a live process holds has such a loop. */
  ghost predicate OnTime(t: State, l: Network) {
    forall pid :: Etcd.Live(t.s, pid) ==>
      var p := t.s.procs[pid];
      && Tended(t, Slot(pid, Etcd.HostKey(p.host)), p.hostSet, l)
      && (p.phase.Leading? ==> Tended(t, Slot(pid, Etcd.Leader), p.leaderSet, l))
  }

  lemma OnTimeIsPaced(t: State, l: Network)
    requires OnTime(t, l)
    ensures Paced(t.s, l.Total())
  {
    forall pid | Etcd.Live(t.s, pid)
      ensures var p := t.s.procs[pid];
              && t.s.now <= p.hostSet + Nap() + l.Total()
              && (p.phase.Leading? ==> t.s.now <= p.leaderSet + Nap() + l.Total())
    {
      var p := t.s.procs[pid];
      PromptIsDue(t.loops[Slot(pid, Etcd.HostKey(p.host))], p.hostSet, l);
      if p.phase.Leading? {
        PromptIsDue(t.loops[Slot(pid, Etcd.Leader)], p.leaderSet, l);
      }
    }
  }

  /** How a loop's own steps keep it prompt. */
  lemma LoopStaysPrompt(t: State, e: Event, slot: Slot, set_: int, l: Network)
    requires !e.Does? && Enabled(t, e, l) && Tended(t, slot, set_, l) && l.endpoints > 0
    ensures Tended(Apply(t, e, l), slot, set_, l)
  {
    ThreeSecondPeriod();
    if e.slot == slot {
      var loop := t.loops[slot];
      if e.Retried? {
        if loop.Asking? {
          assert l.Attempts(loop.left) == l.Attempt() + l.Attempts(loop.left - 1);
        } else {
          AttemptsGrow(l, loop.left - 1, l.endpoints - 1);
        }
      }
    }
  }

  lemma LoopStepIsOnTime(t: State, e: Event, l: Network)
    requires OnTime(t, l) && Enabled(t, e, l) && !e.Does? && l.endpoints > 0
    ensures OnTime(Apply(t, e, l), l)
  {
    forall pid | Etcd.Live(t.s, pid)
      ensures var p := t.s.procs[pid];
              && Tended(Apply(t, e, l), Slot(pid, Etcd.HostKey(p.host)), p.hostSet, l)
              && (p.phase.Leading? ==> Tended(Apply(t, e, l), Slot(pid, Etcd.Leader), p.leaderSet, l))
    {
      var p := t.s.procs[pid];
      LoopStaysPrompt(t, e, Slot(pid, Etcd.HostKey(p.host)), p.hostSet, l);
      if p.phase.Leading? {
        LoopStaysPrompt(t, e, Slot(pid, Etcd.Leader), p.leaderSet, l);
      }
    }
  }

  /** While every process owns its keys, renewals succeed and the loops go on. */
  lemma RenewalIsOnTime(t: State, pid: nat, key: Etcd.Key, l: Network)
    requires OnTime(t, l) && HostsOwned(t.s) && LeaderOwned(t.s) && Enabled(t, Does(Etcd.Renew(pid, key)), l)
    ensures OnTime(Apply(t, Does(Etcd.Renew(pid, key)), l), l)
  {
    var p := t.s.procs[pid];
    assert key in t.s.store && t.s.store[key].value == p.host;
  }

  lemma StepIsOnTime(t: State, e: Event, l: Network)
    requires OnTime(t, l) && HostsOwned(t.s) && LeaderOwned(t.s) && Enabled(t, e, l)
    requires l.endpoints > 0 && (e.Does? ==> !e.e.LoopEnds?)
    ensures OnTime(Apply(t, e, l), l)
  {
    if !e.Does? {
      LoopStepIsOnTime(t, e, l);
    } else if e.e.Renew? {
      RenewalIsOnTime(t, e.e.pid, e.e.key, l);
    }
  }

  /** A timed run is a run of the lease protocol in which each key of a live process was set
      at most one period and the longest phases ago. */
  lemma {:induction false} TimedRunIsPaced(t0: State, tr: seq<Event>, t: State, l: Network)
    requires Initial(t0.s) && Run(t0, tr, l) == Some(t) && Unrefused(tr)
    requires l.endpoints > 0 && l.Total() < 6 * Etcd.SECOND
    ensures Etcd.Run(t0.s, Untimed(tr)) == Some(t.s) && PacedRun(t0.s, Untimed(tr), l.Total())
    ensures OnTime(t, l)
  {
    if tr != [] {
      var init, last := tr[..|tr| - 1], tr[|tr| - 1];
      var r := Run(t0, init, l).value;
      TimedRunIsPaced(t0, init, r, l);
      PacedIsTimely(t0.s, Untimed(init), l.Total());
      TimelyRunKeepsHosts(t0.s, Untimed(init), r.s);
      TimelyRunKeepsLeader(t0.s, Untimed(init), r.s);
      StepIsOnTime(r, last, l);
      OnTimeIsPaced(t, l);
      if last.Does? {
        Etcd.Then(t0.s, Untimed(init), r.s, last.e, t.s);
        assert Untimed(tr)[..|Untimed(tr)| - 1] == Untimed(init);
      } else {
        assert Untimed(tr) == Untimed(init);
      }
    }
  }

  /** If the longest phases add up to less than six seconds and no renewal is refused, there is
      at most one leader at any time, it holds the leader key under its host's name, and no
      host runs a second process. */
  lemma ShortPhasesAreSafe(t0: State, tr: seq<Event>, t: State, l: Network, pid: nat)
    requires Initial(t0.s) && Run(t0, tr, l) == Some(t) && Unrefused(tr)
    requires l.endpoints > 0 && l.Total() < 6 * Etcd.SECOND
    requires Etcd.Live(t.s, pid)
    ensures forall q :: Etcd.Live(t.s, q) && t.s.procs[q].host == t.s.procs[pid].host ==> q == pid
    ensures t.s.procs[pid].phase.Leading? ==>
              && Etcd.Leader in t.s.store && t.s.store[Etcd.Leader].value == t.s.procs[pid].host
              && forall q :: Etcd.Live(t.s, q) && t.s.procs[q].phase.Leading? ==> q == pid
  {
    TimedRunIsPaced(t0, tr, t, l);
    ElectionIsSafe(t0.s, Untimed(tr), t.s, l.Total(), pid);
  }

  // ---- six seconds are the limit ----

  /** One process, leading, with both of its keys set at time 0. */
  function Lone(a: string, now: int, host: Loop, leader: Loop): State {
    State(Etcd.State(now,
                     map[Etcd.HostKey(a) := Etcd.Lease(a, Etcd.TTL, 0), Etcd.Leader := Etcd.Lease(a, Etcd.TTL, 0)],
                     map[0 := Etcd.Proc(a, Etcd.Leading, 0, 0, true, true)]),
          map[Slot(0, Etcd.HostKey(a)) := host, Slot(0, Etcd.Leader) := leader])
  }

  const EMPTY: State := State(Etcd.State(0, map[], map[]), map[])

  ghost predicate Reaches(tr: seq<Event>, t: State, l: Network) {
    Run(EMPTY, tr, l) == Some(t) && Unrefused(tr)
  }

  lemma More(tr: seq<Event>, t: State, e: Event, l: Network) returns (t': State, more: seq<Event>)
    requires Reaches(tr, t, l) && Enabled(t, e, l) && (e.Does? ==> !e.e.LoopEnds?)
    ensures t' == Apply(t, e, l) && Reaches(more, t', l)
  {
    t', more := Apply(t, e, l), tr + [e];
    assert more[..|more| - 1] == tr;
  }

  /** How a loop may move on; a renewal, at time 0, leaves the time the key was set as it is. */
  predicate MovesTo(loop: Loop, loop': Loop, now: int, l: Network) {
    match loop
    case Asking(left, start) =>
      (left > 0 && loop' == Asking(left - 1, now))
      || (now == 0 && loop' == Answering(left, Min(start + Etcd.SECOND, l.header), false))
    case Answering(_, _, first) => loop' == Reading(now + l.body, first)
    case Reading(_, first) => loop' == if first then Ask(now, l) else Sleeping(now + Nap(), now + Nap() + l.over)
    case Sleeping(from, _) => now >= from && loop' == Ask(now, l)
  }

  function Move(loop: Loop, loop': Loop, slot: Slot): Event {
    match loop
    case Asking(_, _) => if loop'.Asking? then Retried(slot) else Does(Etcd.Renew(slot.pid, slot.key))
    case Answering(_, _, _) => Headed(slot)
    case Reading(_, _) => Finished(slot)
    case Sleeping(_, _) => Woken(slot)
  }

  lemma HostMoves(a: string, now: int, loop: Loop, loop': Loop, leader: Loop, l: Network)
    requires MovesTo(loop, loop', now, l) && l.endpoints > 0
    ensures var t, e := Lone(a, now, loop, leader), Move(loop, loop', Slot(0, Etcd.HostKey(a)));
            Enabled(t, e, l) && Apply(t, e, l) == Lone(a, now, loop', leader)
  {
    var t, t' := Lone(a, now, loop, leader), Lone(a, now, loop', leader);
    assert t.loops[Slot(0, Etcd.HostKey(a)) := loop'] == t'.loops;
    if loop'.Answering? {
      assert t.s.store[Etcd.HostKey(a) := Etcd.Lease(a, Etcd.TTL, 0)] == t.s.store;
      assert t.s.procs[0 := t.s.procs[0]] == t.s.procs;
    }
  }

  lemma LeaderMoves(a: string, now: int, host: Loop, loop: Loop, loop': Loop, l: Network)
    requires MovesTo(loop, loop', now, l) && l.endpoints > 0
    ensures var t, e := Lone(a, now, host, loop), Move(loop, loop', Slot(0, Etcd.Leader));
            Enabled(t, e, l) && Apply(t, e, l) == Lone(a, now, host, loop')
  {
    var t, t' := Lone(a, now, host, loop), Lone(a, now, host, loop');
    assert t.loops[Slot(0, Etcd.Leader) := loop'] == t'.loops;
    if loop'.Answering? {
      assert t.s.store[Etcd.Leader := Etcd.Lease(a, Etcd.TTL, 0)] == t.s.store;
      assert t.s.procs[0 := t.s.procs[0]] == t.s.procs;
    }
  }

  lemma BothMove(tr: seq<Event>, a: string, now: int, loop: Loop, loop': Loop, l: Network) returns (more: seq<Event>)
    requires Reaches(tr, Lone(a, now, loop, loop), l) && MovesTo(loop, loop', now, l) && l.endpoints > 0
    ensures Reaches(more, Lone(a, now, loop', loop'), l)
  {
    var t;
    HostMoves(a, now, loop, loop', loop, l);
    t, more := More(tr, Lone(a, now, loop, loop), Move(loop, loop', Slot(0, Etcd.HostKey(a))), l);
    LeaderMoves(a, now, loop', loop, loop', l);
    t, more := More(more, t, Move(loop, loop', Slot(0, Etcd.Leader)), l);
  }

  lemma Wait(tr: seq<Event>, a: string, now: int, d: nat, loop: Loop, l: Network) returns (more: seq<Event>)
    requires Reaches(tr, Lone(a, now, loop, loop), l) && now + d <= Due(loop, l)
    ensures Reaches(more, Lone(a, now + d, loop, loop), l)
  {
    var t;
    t, more := More(tr, Lone(a, now, loop, loop), Does(Etcd.Tick(d)), l);
  }

  /** A process gets both keys. */
  lemma Arrive(a: string, l: Network) returns (tr: seq<Event>)
    ensures Reaches(tr, Lone(a, 0, Answering(0, l.Header(), true), Answering(0, l.Header(), true)), l)
  {
    var t := EMPTY;
    tr := [];
    t, tr := More(tr, t, Does(Etcd.Start(0, a)), l);
    t, tr := More(tr, t, Does(Etcd.TryLeader(0)), l);
    var lone := Lone(a, 0, Answering(0, l.Header(), true), Answering(0, l.Header(), true));
    assert t.s.procs == lone.s.procs && t.s.store == lone.s.store && t.loops == lone.loops;
  }

  /** It renews both at once, and the stores answer. */
  lemma RenewBoth(a: string, l: Network) returns (tr: seq<Event>, loop: Loop)
    requires l.endpoints > 0
    ensures loop.Answering? && loop.until == l.Header() && !loop.first && Reaches(tr, Lone(a, 0, loop, loop), l)
  {
    tr := Arrive(a, l);
    tr := BothMove(tr, a, 0, Answering(0, l.Header(), true), Reading(l.body, true), l);
    tr := BothMove(tr, a, 0, Reading(l.body, true), Ask(0, l), l);
    loop := Answering(l.endpoints - 1, l.Header(), false);
    tr := BothMove(tr, a, 0, Ask(0, l), loop, l);
  }

  /** The answers take so long, the sleep so much more than its period. */
  lemma SleepBoth(a: string, header: nat, body: nat, over: nat, l: Network) returns (tr: seq<Event>)
    requires l.endpoints > 0 && header <= l.Header() && body <= l.body && over <= l.over
    ensures var now := header + body + Nap() + over; Reaches(tr, Lone(a, now, Ask(now, l), Ask(now, l)), l)
  {
    ThreeSecondPeriod();
    var loop;
    tr, loop := RenewBoth(a, l);
    tr := Wait(tr, a, 0, header, loop, l);
    tr := BothMove(tr, a, header, loop, Reading(header + l.body, false), l);
    tr := Wait(tr, a, header, body, Reading(header + l.body, false), l);
    var now := header + body;
    var asleep := Sleeping(now + Nap(), now + Nap() + l.over);
    tr := BothMove(tr, a, now, Reading(header + l.body, false), asleep, l);
    tr := Wait(tr, a, now, Nap() + over, asleep, l);
    tr := BothMove(tr, a, now + Nap() + over, asleep, Ask(now + Nap() + over, l), l);
  }

  /** One attempt after another fails. */
  lemma {:induction false} Dawdle(tr: seq<Event>, a: string, now: int, left: nat, d: nat, l: Network)
    returns (more: seq<Event>, loop: Loop)
    requires l.endpoints > 0 && d <= l.Attempts(left + 1)
    requires Reaches(tr, Lone(a, now, Asking(left, now), Asking(left, now)), l)
    ensures loop.Asking? && Reaches(more, Lone(a, now + d, loop, loop), l)
    decreases left
  {
    loop := Asking(left, now);
    if d <= l.Attempt() {
      more := Wait(tr, a, now, d, loop, l);
    } else {
      assert left > 0;
      more := Wait(tr, a, now, l.Attempt(), loop, l);
      var failed := now + l.Attempt();
      more := BothMove(more, a, failed, loop, Asking(left - 1, failed), l);
      more, loop := Dawdle(more, a, failed, left - 1, d - l.Attempt(), l);
    }
  }

  /** If they add up to six seconds or more, there is a run with two live leaders. */
  lemma LongPhasesAreUnsafe(a: string, b: string, l: Network) returns (tr: seq<Event>, t: State)
    requires l.endpoints > 0 && l.Total() >= 6 * Etcd.SECOND && a != b
    ensures Run(EMPTY, tr, l) == Some(t) && Unrefused(tr) && LiveLeader(t.s, 0) && LiveLeader(t.s, 1)
  {
    ThreeSecondPeriod();
    var header := Min(l.Header(), 6 * Etcd.SECOND);
    var body := Min(l.body, 6 * Etcd.SECOND - header);
    var over := Min(l.over, 6 * Etcd.SECOND - header - body);
    var now := header + body + Nap() + over;
    var loop;
    tr := SleepBoth(a, header, body, over, l);
    tr, loop := Dawdle(tr, a, now, l.endpoints - 1, 9 * Etcd.SECOND - now, l);
    t := Lone(a, Etcd.TTL, loop, loop);
    t, tr := More(tr, t, Does(Etcd.Expire(Etcd.Leader)), l);
    t, tr := More(tr, t, Does(Etcd.Start(1, b)), l);
    t, tr := More(tr, t, Does(Etcd.TryLeader(1)), l);
  }

  predicate LiveLeader(s: Etcd.State, pid: nat) {
    pid in s.procs && s.procs[pid].phase.Leading?
  }

  /** In no run without a refused renewal are there two leaders at a time. */
  ghost predicate NeverTwoLeaders(l: Network) {
    forall t0: State, tr, p, q ::
      Initial(t0.s) && Run(t0, tr, l).Some? && Unrefused(tr)
      && LiveLeader(Run(t0, tr, l).value.s, p) && LiveLeader(Run(t0, tr, l).value.s, q) ==>
        p == q
  }

  lemma {:induction false} AttemptsAre(l: Network, k: nat)
    ensures l.Attempts(k) == k * if l.out < 1_000_000_000 then l.out else 1_000_000_000
  {
    if k > 0 {
      AttemptsAre(l, k - 1);
    }
  }

  /** Six seconds are exactly the limit, in nanoseconds: for a header and for each endpoint's
      attempt, which take no more than a second, a body and an overrun. */
  lemma SixSecondsIff(l: Network)
    requires l.endpoints > 0
    ensures NeverTwoLeaders(l) <==> l.Total() < 6_000_000_000
    ensures var header := if l.header < 1_000_000_000 then l.header else 1_000_000_000;
            var attempt := if l.out < 1_000_000_000 then l.out else 1_000_000_000;
            NeverTwoLeaders(l) <==> header + l.body + l.over + l.endpoints * attempt < 6_000_000_000
  {
    AttemptsAre(l, l.endpoints);
    if l.Total() < 6 * Etcd.SECOND {
      forall t0: State, tr, p, q | Initial(t0.s) && Run(t0, tr, l).Some? && Unrefused(tr)
                                   && LiveLeader(Run(t0, tr, l).value.s, p) && LiveLeader(Run(t0, tr, l).value.s, q)
        ensures p == q
      {
        ShortPhasesAreSafe(t0, tr, Run(t0, tr, l).value, l, p);
      }
    } else {
      var tr, t := LongPhasesAreUnsafe("a", "b", l);
      assert Initial(EMPTY.s);
    }
  }

  lemma {:induction false} AttemptsAreCapped(l: Network, k: nat)
    ensures l.Attempts(k) <= k * Etcd.SECOND
  {
    if k > 0 {
      AttemptsAreCapped(l, k - 1);
    }
  }

  /** The header timeout makes the election safe on any network, as long as reading a body and
      overrunning a sleep take less than four seconds together for one endpoint, three for two,
      two for three or one for four. */
  lemma FewEndpointsAreSafe(l: Network)
    requires 0 < l.endpoints && l.body + l.over < (5 - l.endpoints) * 1_000_000_000
    ensures NeverTwoLeaders(l)
  {
    AttemptsAreCapped(l, l.endpoints);
    SixSecondsIff(l);
  }

  // ---- one refusal is enough ----

  /** A leader whose leader key is no longer renewed, its host key set just now. */
  function Lame(a: string, now: int, loop: Loop): State {
    State(Etcd.State(now,
                     map[Etcd.HostKey(a) := Etcd.Lease(a, now + Etcd.TTL, 0), Etcd.Leader := Etcd.Lease(a, Etcd.TTL, 0)],
                     map[0 := Etcd.Proc(a, Etcd.Leading, now, 0, true, false)]),
          map[Slot(0, Etcd.HostKey(a)) := loop])
  }

  /** How many renewals ended in another etcd error. */
  function Refusals(tr: seq<Event>): nat {
    if tr == [] then 0
    else Refusals(tr[..|tr| - 1]) + if tr[|tr| - 1].Does? && tr[|tr| - 1].e.LoopEnds? then 1 else 0
  }

  ghost predicate ReachesLame(tr: seq<Event>, a: string, now: int, loop: Loop, l: Network) {
    && loop.Answering? && loop.until >= now && !loop.first
    && Run(EMPTY, tr, l) == Some(Lame(a, now, loop)) && Refusals(tr) == 1
  }

  lemma Onward(tr: seq<Event>, t: State, e: Event, l: Network, t': State) returns (more: seq<Event>)
    requires Run(EMPTY, tr, l) == Some(t) && Enabled(t, e, l) && Apply(t, e, l) == t'
    ensures Run(EMPTY, more, l) == Some(t')
    ensures Refusals(more) == Refusals(tr) + if e.Does? && e.e.LoopEnds? then 1 else 0
  {
    more := tr + [e];
    assert more[..|more| - 1] == tr;
  }

  /** The host key only. */
  function Nodding(a: string, set_: int, now: int, loop: Loop): State {
    var t := Lame(a, set_, loop);
    t.(s := t.s.(now := now))
  }

  lemma NodStep(a: string, set_: int, now: int, loop: Loop, e: Event, loop': Loop, now': int, l: Network)
    requires var slot := Slot(0, Etcd.HostKey(a));
             || (loop.Answering? && e == Headed(slot) && loop' == Reading(now + l.body, loop.first) && now' == now)
             || (loop.Reading? && !loop.first && e == Finished(slot)
                 && loop' == Sleeping(now + Nap(), now + Nap() + l.over) && now' == now)
             || (loop.Sleeping? && now == loop.from && e == Woken(slot) && loop' == Ask(now, l) && now' == now)
             || (loop' == loop && now <= now' <= Due(loop, l) && e == Does(Etcd.Tick(now' - now)))
    ensures Enabled(Nodding(a, set_, now, loop), e, l)
    ensures Apply(Nodding(a, set_, now, loop), e, l) == Nodding(a, set_, now', loop')
  {
    var t := Nodding(a, set_, now, loop);
    assert t.loops[Slot(0, Etcd.HostKey(a)) := loop'] == map[Slot(0, Etcd.HostKey(a)) := loop'];
  }

  lemma NodRenewal(a: string, set_: int, now: int, loop: Loop, l: Network)
    requires loop.Asking? && loop.start == now
    ensures var t, e := Nodding(a, set_, now, loop), Does(Etcd.Renew(0, Etcd.HostKey(a)));
            && Enabled(t, e, l)
            && Apply(t, e, l) == Lame(a, now, Answering(loop.left, Min(now + Etcd.SECOND, now + l.header), false))
  {
    var t := Nodding(a, set_, now, loop);
    var t' := Lame(a, now, Answering(loop.left, Min(now + Etcd.SECOND, now + l.header), false));
    var e := Etcd.Renew(0, Etcd.HostKey(a));
    assert Etcd.Apply(t.s, e).store == t'.s.store && Etcd.Apply(t.s, e).procs == t'.s.procs;
    assert t.loops[Slot(0, Etcd.HostKey(a)) := t'.loops[Slot(0, Etcd.HostKey(a))]] == t'.loops;
  }

  /** Three seconds later the host key has been renewed once more; every phase was immediate. */
  lemma NodOn(tr: seq<Event>, a: string, now: int, loop: Loop, l: Network) returns (more: seq<Event>, next: Loop)
    requires ReachesLame(tr, a, now, loop, l)
    ensures ReachesLame(more, a, now + 3 * Etcd.SECOND, next, l)
  {
    ThreeSecondPeriod();
    var slot, later := Slot(0, Etcd.HostKey(a)), now + 3 * Etcd.SECOND;
    var reading, asleep := Reading(now + l.body, false), Sleeping(now + Nap(), now + Nap() + l.over);
    NodStep(a, now, now, loop, Headed(slot), reading, now, l);
    more := Onward(tr, Nodding(a, now, now, loop), Headed(slot), l, Nodding(a, now, now, reading));
    NodStep(a, now, now, reading, Finished(slot), asleep, now, l);
    more := Onward(more, Nodding(a, now, now, reading), Finished(slot), l, Nodding(a, now, now, asleep));
    NodStep(a, now, now, asleep, Does(Etcd.Tick(3 * Etcd.SECOND)), asleep, later, l);
    more := Onward(more, Nodding(a, now, now, asleep), Does(Etcd.Tick(3 * Etcd.SECOND)), l, Nodding(a, now, later, asleep));
    NodStep(a, now, later, asleep, Woken(slot), Ask(later, l), later, l);
    more := Onward(more, Nodding(a, now, later, asleep), Woken(slot), l, Nodding(a, now, later, Ask(later, l)));
    NodRenewal(a, now, later, Ask(later, l), l);
    next := Answering(Ask(later, l).left, Min(later + Etcd.SECOND, later + l.header), false);
    var renewal := Does(Etcd.Renew(0, Etcd.HostKey(a)));
    more := Onward(more, Nodding(a, now, later, Ask(later, l)), renewal, l, Lame(a, later, next));
  }

  lemma Refuse(a: string, l: Network) returns (tr: seq<Event>, loop: Loop)
    requires l.endpoints > 0
    ensures ReachesLame(tr, a, 0, loop, l)
  {
    var first;
    first, loop := RenewHost(a, l);
    NoRefusals(first);
    var t := Lone(a, 0, loop, Ask(0, l));
    var e := Does(Etcd.LoopEnds(0, Etcd.Leader));
    assert Apply(t, e, l).s.procs == Lame(a, 0, loop).s.procs;
    assert Apply(t, e, l).loops == Lame(a, 0, loop).loops;
    tr := Onward(first, t, e, l, Lame(a, 0, loop));
  }

  lemma {:induction false} NoRefusals(tr: seq<Event>)
    requires Unrefused(tr)
    ensures Refusals(tr) == 0
  {
    if tr != [] {
      NoRefusals(tr[..|tr| - 1]);
    }
  }

  /** The process has both keys, and has renewed its host key. */
  lemma RenewHost(a: string, l: Network) returns (tr: seq<Event>, loop: Loop)
    requires l.endpoints > 0
    ensures loop.Answering? && loop.until >= 0 && !loop.first && Reaches(tr, Lone(a, 0, loop, Ask(0, l)), l)
  {
    tr := Arrive(a, l);
    tr := BothMove(tr, a, 0, Answering(0, l.Header(), true), Reading(l.body, true), l);
    tr := BothMove(tr, a, 0, Reading(l.body, true), Ask(0, l), l);
    loop := Answering(l.endpoints - 1, l.Header(), false);
    HostMoves(a, 0, Ask(0, l), loop, Ask(0, l), l);
    var t;
    t, tr := More(tr, Lone(a, 0, Ask(0, l), Ask(0, l)), Move(Ask(0, l), loop, Slot(0, Etcd.HostKey(a))), l);
  }

  /** However fast everything is: one renewal of the leader key that etcd answers with another
      error, and there are two live leaders nine seconds later. */
  lemma RefusalIsUnsafe(a: string, b: string, l: Network) returns (tr: seq<Event>, t: State)
    requires l.endpoints > 0 && a != b
    ensures Run(EMPTY, tr, l) == Some(t) && Refusals(tr) == 1 && t.s.now == 9_000_000_000
    ensures LiveLeader(t.s, 0) && LiveLeader(t.s, 1)
  {
    var loop;
    tr, loop := Refuse(a, l);
    tr, loop := NodOn(tr, a, 0, loop, l);
    tr, loop := NodOn(tr, a, 3 * Etcd.SECOND, loop, l);
    tr, loop := NodOn(tr, a, 6 * Etcd.SECOND, loop, l);
    t := Lame(a, 9 * Etcd.SECOND, loop);
    var expired := Apply(t, Does(Etcd.Expire(Etcd.Leader)), l);
    tr := Onward(tr, t, Does(Etcd.Expire(Etcd.Leader)), l, expired);
    var started := Apply(expired, Does(Etcd.Start(1, b)), l);
    tr := Onward(tr, expired, Does(Etcd.Start(1, b)), l, started);
    t := Apply(started, Does(Etcd.TryLeader(1)), l);
    tr := Onward(tr, started, Does(Etcd.TryLeader(1)), l, t);
  }
}
