// One agent's side of the election, in the source's own loops: CreateKey, CASKey,
// BlockforKey, RenewKey and LeaderElection, driven by the answers the server gives.
module EtcdClient {
  import opened Base
  import Etcd
  import EtcdSafety

  const KEY_NOT_FOUND: int := 100
  const NODE_EXIST: int := 105

  /** The answer to a Set request. OtherError is an error that is not an etcd error: the
      agent's type assertion on it panics. */
  datatype Answer = Fine | EtcdError(code: int) | OtherError

  /** What the watch on a key reports. */
  datatype Notice = Action(name: string) | WatchError

  /** How a call ends: with success, with an etcd error, with the death of the process, or
      not yet -- waiting for the answer to a request, for a notice, or between renewals. */
  datatype Outcome = Success | Failed(code: int) | Died | AwaitingAnswer | AwaitingNotice | Leads | Exits

  // ---- BlockforKey as a simple loop ----

  predicate Gone(n: Notice) {
    n == Action("delete") || n == Action("expire")
  }

  predicate Swapped(n: Notice) {
    n == Action("compareAndSwap")
  }

  /** How far the first notice that is not a compareAndSwap is. */
  function Skip(notices: seq<Notice>): (k: nat)
    ensures k <= |notices|
  {
    if notices != [] && Swapped(notices[0]) then 1 + Skip(notices[1..]) else 0
  }

  /** The outcome, the create attempts made and the notices consumed. */
  datatype Block = Block(outcome: Outcome, attempts: nat, consumed: nat)

  /** The creates a BlockforKey call has sent: those answered and perhaps one that is not. */
  function Sent(b: Block): nat {
    b.attempts + if b.outcome.AwaitingAnswer? then 1 else 0
  }

  /** Try; if the key exists, wait until it is gone and try again. */
  function BlockSpec(answers: seq<Answer>, notices: seq<Notice>): (b: Block)
    ensures b.attempts <= |answers| && b.consumed <= |notices|
    ensures !b.outcome.Leads? && !b.outcome.Exits?
    decreases |answers|
  {
    if answers == [] then Block(AwaitingAnswer, 0, 0)
    else
      match answers[0]
      case Fine => Block(Success, 1, 0)
      case OtherError => Block(Died, 1, 0)
      case EtcdError(code) =>
        var k := Skip(notices);
        if code != NODE_EXIST then Block(Failed(code), 1, 0)
        else if k == |notices| then Block(AwaitingNotice, 1, k)
        else if !Gone(notices[k]) then Block(Died, 1, k + 1)
        else
          var rest := BlockSpec(answers[1..], notices[k + 1..]);
          Block(rest.outcome, 1 + rest.attempts, k + 1 + rest.consumed)
  }

  /** What each answer to the first create leads to, apart from the notices. */
  lemma AnswerDecides(answers: seq<Answer>, notices: seq<Notice>)
    ensures answers == [] ==> BlockSpec(answers, notices) == Block(AwaitingAnswer, 0, 0)
    ensures answers != [] && answers[0].Fine? ==> BlockSpec(answers, notices) == Block(Success, 1, 0)
    ensures answers != [] && answers[0].OtherError? ==> BlockSpec(answers, notices) == Block(Died, 1, 0)
    ensures forall code :: answers != [] && answers[0] == EtcdError(code) && code != 105 ==>
              BlockSpec(answers, notices) == Block(Failed(code), 1, 0)
    ensures answers != [] && answers[0] == EtcdError(105) && notices == [] ==>
              BlockSpec(answers, notices) == Block(AwaitingNotice, 1, 0)
  {
  }

  /** When the key was found taken: after "delete" or "expire", one more create, and whatever
      the remaining answers and notices lead to. */
  lemma {:induction false} GoneCreatesAgain(answers: seq<Answer>, notices: seq<Notice>)
    requires answers != [] && answers[0] == EtcdError(105)
    requires notices != [] && (notices[0] == Action("delete") || notices[0] == Action("expire"))
    ensures var b, rest := BlockSpec(answers, notices), BlockSpec(answers[1..], notices[1..]);
            && b == Block(rest.outcome, 1 + rest.attempts, 1 + rest.consumed)
            && Sent(b) == 1 + Sent(rest)
  {
    assert Skip(notices) == 0;
  }

  /** "compareAndSwap" changes nothing. */
  lemma {:induction false} SwapChangesNothing(answers: seq<Answer>, notices: seq<Notice>)
    requires answers != [] && answers[0] == EtcdError(105) && notices != [] && notices[0] == Action("compareAndSwap")
    ensures var b, rest := BlockSpec(answers, notices), BlockSpec(answers, notices[1..]);
            b == rest.(consumed := 1 + rest.consumed)
  {
    var later := notices[1..];
    var k := Skip(later);
    assert Skip(notices) == 1 + k;
    if k < |later| {
      assert notices[1 + k] == later[k] && notices[1 + k + 1..] == later[k + 1..];
    }
  }

  /** Any other action, or an error of the watch, is the death of the process. */
  lemma {:induction false} OtherNoticesKill(answers: seq<Answer>, notices: seq<Notice>)
    requires answers != [] && answers[0] == EtcdError(105) && notices != []
    requires notices[0] != Action("delete") && notices[0] != Action("expire") && notices[0] != Action("compareAndSwap")
    ensures BlockSpec(answers, notices) == Block(Died, 1, 1)
  {
    assert Skip(notices) == 0;
  }

  function CountGone(notices: seq<Notice>): nat {
    if notices == [] then 0 else (if Gone(notices[0]) then 1 else 0) + CountGone(notices[1..])
  }

  lemma {:induction false} CountGoneIs(notices: seq<Notice>)
    ensures CountGone(notices) == multiset(notices)[Action("delete")] + multiset(notices)[Action("expire")]
  {
    if notices != [] {
      CountGoneIs(notices[1..]);
      assert notices == [notices[0]] + notices[1..];
    }
  }

  /** The call succeeds exactly when its last create attempt did; every earlier attempt
      found the key taken. */
  lemma {:induction false} SuccessIff(answers: seq<Answer>, notices: seq<Notice>)
    ensures var b := BlockSpec(answers, notices);
            && (b.outcome.Success? <==> b.attempts > 0 && answers[b.attempts - 1].Fine?)
            && (forall i :: 0 <= i < b.attempts - 1 ==> answers[i] == EtcdError(105))
  {
    if answers != [] && answers[0] == EtcdError(NODE_EXIST) && Skip(notices) < |notices| && Gone(notices[Skip(notices)]) {
      SuccessIff(answers[1..], notices[Skip(notices) + 1..]);
    }
  }

  lemma {:induction false} SkipCountsNone(notices: seq<Notice>, k: nat)
    requires k <= Skip(notices)
    ensures CountGone(notices[..k]) == 0
  {
    if k > 0 {
      SkipCountsNone(notices[1..], k - 1);
      assert notices[..k][1..] == notices[1..][..k - 1];
    }
  }

  /** Of the notices up to the first that is no compareAndSwap, only that one can count. */
  lemma {:induction false} CountThrough(notices: seq<Notice>, c: nat)
    requires Skip(notices) < c <= |notices|
    ensures var k := Skip(notices);
            CountGone(notices[..c]) == (if Gone(notices[k]) then 1 else 0) + CountGone(notices[k + 1..][..c - (k + 1)])
  {
    assert notices[..c][1..] == notices[1..][..c - 1];
    if Swapped(notices[0]) {
      var k := Skip(notices);
      CountThrough(notices[1..], c - 1);
      assert notices[1..][k..] == notices[k + 1..];
    }
  }

  /** One create to begin with and one per "delete" or "expire" notice consumed. */
  lemma AttemptsCount(answers: seq<Answer>, notices: seq<Notice>)
    ensures var b := BlockSpec(answers, notices);
            var seen := multiset(notices[..b.consumed]);
            Sent(b) == 1 + seen[Action("delete")] + seen[Action("expire")]
  {
    AttemptsAreGones(answers, notices);
    CountGoneIs(notices[..BlockSpec(answers, notices).consumed]);
  }

  lemma {:induction false} AttemptsAreGones(answers: seq<Answer>, notices: seq<Notice>)
    ensures var b := BlockSpec(answers, notices);
            Sent(b) == 1 + CountGone(notices[..b.consumed])
  {
    var k, b := Skip(notices), BlockSpec(answers, notices);
    if answers != [] && answers[0] == EtcdError(NODE_EXIST) {
      if k == |notices| {
        SkipCountsNone(notices, k);
      } else {
        CountThrough(notices, b.consumed);
        if Gone(notices[k]) {
          AttemptsAreGones(answers[1..], notices[k + 1..]);
        }
      }
    }
  }

  function WithoutSwaps(notices: seq<Notice>): seq<Notice> {
    if notices == [] then []
    else if Swapped(notices[0]) then WithoutSwaps(notices[1..])
    else [notices[0]] + WithoutSwaps(notices[1..])
  }

  lemma {:induction false} WithoutSwapsFrom(notices: seq<Notice>)
    ensures var k := Skip(notices);
            WithoutSwaps(notices) == if k == |notices| then [] else [notices[k]] + WithoutSwaps(notices[k + 1..])
  {
    if notices != [] && Swapped(notices[0]) {
      WithoutSwapsFrom(notices[1..]);
      var k := Skip(notices);
      if k < |notices| {
        assert notices[1..][k..] == notices[k + 1..];
      }
    }
  }

  /** compareAndSwap notices -- the current leader renewing -- change neither the outcome nor
      the number of attempts. */
  lemma {:induction false} SwapsCostNothing(answers: seq<Answer>, notices: seq<Notice>)
    ensures BlockSpec(answers, notices).outcome == BlockSpec(answers, WithoutSwaps(notices)).outcome
    ensures BlockSpec(answers, notices).attempts == BlockSpec(answers, WithoutSwaps(notices)).attempts
    decreases |answers|
  {
    WithoutSwapsFrom(notices);
    var k := Skip(notices);
    if answers != [] && answers[0] == EtcdError(NODE_EXIST) && k < |notices| {
      assert WithoutSwaps(notices)[1..] == WithoutSwaps(notices[k + 1..]);
      assert !Swapped(notices[k]) by {
        SkipStops(notices);
      }
      SwapsCostNothing(answers[1..], notices[k + 1..]);
    }
  }

  lemma {:induction false} SkipStops(notices: seq<Notice>)
    ensures Skip(notices) < |notices| ==> !Swapped(notices[Skip(notices)])
  {
    if notices != [] && Swapped(notices[0]) {
      SkipStops(notices[1..]);
    }
  }

  // ---- RenewKey ----

  /** The successful renewals before the first failure. */
  function Renewals(answers: seq<Answer>): (k: nat)
    ensures k <= |answers|
  {
    if answers != [] && answers[0].Fine? then 1 + Renewals(answers[1..]) else 0
  }

  function CasOutcome(a: Answer): Outcome {
    match a
    case Fine => Success
    case OtherError => Died
    case EtcdError(code) => if code == KEY_NOT_FOUND then Died else Failed(code)
  }

  /** A missing key or an error that is no etcd error kills the process; any other etcd
      error -- a different value, say -- only ends the loop. */
  function RenewOutcome(answers: seq<Answer>): Outcome {
    if Renewals(answers) == |answers| then AwaitingAnswer
    else CasOutcome(answers[Renewals(answers)])
  }

  /** One sleep of the renewal period after each success. */
  function Naps(k: nat): seq<int> {
    if k == 0 then [] else [EtcdSafety.Period(Etcd.TTL, Etcd.NR_CLIENTS)] + Naps(k - 1)
  }

  lemma {:induction false} NapsAre(k: nat)
    ensures |Naps(k)| == k && forall i :: 0 <= i < k ==> Naps(k)[i] == 3_000_000_000
  {
    EtcdSafety.ThreeSecondPeriod();
    if k > 0 {
      NapsAre(k - 1);
    }
  }

  lemma {:induction false} RenewalsStop(answers: seq<Answer>)
    ensures forall i :: 0 <= i < Renewals(answers) ==> answers[i].Fine?
    ensures Renewals(answers) < |answers| ==> !answers[Renewals(answers)].Fine?
  {
    if answers != [] && answers[0].Fine? {
      RenewalsStop(answers[1..]);
    }
  }

  /** A renewal loop never returns success. It ends quietly, the process living on, exactly
      when the first failure is an etcd error other than a missing key. */
  lemma RenewEndsQuietlyIff(answers: seq<Answer>)
    ensures !RenewOutcome(answers).Success?
    ensures RenewOutcome(answers).Failed? <==>
            && Renewals(answers) < |answers| && answers[Renewals(answers)].EtcdError?
            && answers[Renewals(answers)].code != 100
  {
    RenewalsStop(answers);
  }

  // ---- LeaderElection ----

  /** How the election ends: registering the host decides first, then the leader key. */
  function ElectionOutcome(answers: seq<Answer>, notices: seq<Notice>): Outcome {
    if answers == [] then AwaitingAnswer
    else
      match answers[0]
      case OtherError => Exits
      case EtcdError(code) => if code == NODE_EXIST then Exits else Died
      case Fine =>
        match BlockSpec(answers[1..], notices).outcome
        case Success => Leads
        case Failed(_) => Died
        case o => o
  }

  /** The agent leads exactly when its host was registered and its last attempt at the
      leader key succeeded; until then that key was found taken each time. */
  lemma LeadsIff(answers: seq<Answer>, notices: seq<Notice>)
    ensures ElectionOutcome(answers, notices).Leads? <==>
            && answers != [] && answers[0].Fine?
            && var k := BlockSpec(answers[1..], notices).attempts; k > 0 && answers[k].Fine?
    ensures ElectionOutcome(answers, notices).Leads? ==>
              forall i :: 1 <= i < BlockSpec(answers[1..], notices).attempts ==> answers[i] == EtcdError(105)
  {
    if answers != [] {
      SuccessIff(answers[1..], notices);
      var k := BlockSpec(answers[1..], notices).attempts;
      forall i | 1 <= i <= k
        ensures answers[i] == answers[1..][i - 1]
      {
      }
    }
  }

  // ---- the requests ----

  /** What a Set request asks for: the key must not exist yet, or must have the given value. */
  datatype Condition = NoExist | Was(value: string)

  datatype Request = Request(key: Etcd.Key, value: string, condition: Condition, ttl: int)

  function Create(key: Etcd.Key, value: string): Request {
    Request(key, value, NoExist, Etcd.TTL)
  }

  /** A renewal swaps a value for itself. */
  function Renewal(key: Etcd.Key, value: string): Request {
    Request(key, value, Was(value), Etcd.TTL)
  }

  function Times(q: Request, n: nat): seq<Request> {
    seq(n, _ => q)
  }

  lemma OneMoreTime(q: Request, n: nat)
    ensures Times(q, n) + [q] == Times(q, n + 1)
  {
  }

  /** What an election has sent. */
  function ElectionRequests(hname: string, answers: seq<Answer>, notices: seq<Notice>): seq<Request> {
    [Create(Etcd.HostKey(hname), hname)] +
    if answers == [] || !answers[0].Fine? then []
    else Times(Create(Etcd.Leader, hname), Sent(BlockSpec(answers[1..], notices)))
  }

  class Myetcdclient {
    var answers: seq<Answer>         // what the server will answer to Set requests
    var notices: seq<Notice>         // what the watches will report
    var requests: seq<Request>       // Set requests sent
    var slept: seq<int>              // how long each sleep was
    var loops: map<Etcd.Key, string> // the RenewKey goroutines started, with their values

    constructor (answers: seq<Answer>, notices: seq<Notice>)
      ensures this.answers == answers && this.notices == notices && requests == [] && slept == [] && loops == map[]
    {
      this.answers, this.notices, requests, slept, loops := answers, notices, [], [], map[];
    }

    /** One Set request; None while its answer is outstanding. */
    method Set(q: Request) returns (r: Option<Answer>)
      modifies `answers, `requests
      ensures requests == old(requests) + [q]
      ensures old(answers) == [] ==> r.None? && answers == []
      ensures old(answers) != [] ==> r == Some(old(answers)[0]) && answers == old(answers)[1..]
    {
      requests := requests + [q];
      if answers == [] {
        return None;
      }
      r := Some(answers[0]);
      answers := answers[1..];
    }

    /** CreateKey passes every error on. */
    method CreateKey(key: Etcd.Key, value: string) returns (r: Option<Answer>)
      modifies `answers, `requests
      ensures requests == old(requests) + [Create(key, value)]
      ensures old(answers) == [] ==> r.None? && answers == []
      ensures old(answers) != [] ==> r == Some(old(answers)[0]) && answers == old(answers)[1..]
    {
      r := Set(Request(key, value, NoExist, Etcd.TTL));
    }

    /** The inner loop of BlockforKey: follow the key until it is gone. */
    method AwaitGone() returns (o: Option<Outcome>)
      modifies `notices
      ensures var k := Skip(old(notices));
              if k == |old(notices)| then o == Some(AwaitingNotice) && notices == []
              else o == (if Gone(old(notices)[k]) then None else Some(Died)) && notices == old(notices)[k + 1..]
    {
      while notices != []
        invariant |notices| <= |old(notices)| && notices == old(notices)[|old(notices)| - |notices|..]
        invariant Skip(old(notices)) == |old(notices)| - |notices| + Skip(notices)
        decreases |notices|
      {
        var r := notices[0];
        notices := notices[1..];
        match r {
          case WatchError => return Some(Died);
          case Action(name) =>
            if name == "delete" || name == "expire" {
              return None;
            } else if name == "compareAndSwap" {
              continue;
            } else {
              return Some(Died);
            }
        }
      }
      o := Some(AwaitingNotice);
    }

    /** BlockforKey. The jump back to the error check is another round of the loop. */
    method BlockforKey(key: Etcd.Key, value: string) returns (o: Outcome)
      modifies `answers, `notices, `requests
      ensures var b := BlockSpec(old(answers), old(notices));
              && o == b.outcome && |notices| == |old(notices)| - b.consumed
              && requests == old(requests) + Times(Create(key, value), Sent(b))
    {
      ghost var left := answers;
      var err := CreateKey(key, value);
      ghost var whole := BlockSpec(left, notices);
      ghost var made: nat, got: nat := 0, 0;
      while err.Some?
        invariant if err.None? then left == [] else left != [] && err.value == left[0] && answers == left[1..]
        invariant requests == old(requests) + Times(Create(key, value), made + 1) && |notices| == |old(notices)| - got
        invariant var b := BlockSpec(left, notices); whole == Block(b.outcome, made + b.attempts, got + b.consumed)
        decreases |left|
      {
        match err.value {
          case Fine => return Success;
          case OtherError => return Died;
          case EtcdError(code) =>
            if code != NODE_EXIST {
              return Failed(code);
            }
            var stop := AwaitGone();
            if stop.Some? {
              return stop.value;
            }
            made, got, left := made + 1, |old(notices)| - |notices|, answers;
            OneMoreTime(Create(key, value), made);
            err := CreateKey(key, value);
        }
      }
      o := AwaitingAnswer;
    }

    /** CASKey: a missing key is fatal, as is an error that is no etcd error. */
    method CASKey(key: Etcd.Key, oldvalue: string, newvalue: string) returns (o: Outcome)
      modifies `answers, `requests
      ensures requests == old(requests) + [Request(key, newvalue, Was(oldvalue), Etcd.TTL)]
      ensures o == if old(answers) == [] then AwaitingAnswer else CasOutcome(old(answers)[0])
      ensures old(answers) == [Fine] + answers ==> o == Success
      ensures forall code :: old(answers) == [EtcdError(code)] + answers ==> o == if code == 100 then Died else Failed(code)
      ensures old(answers) == [OtherError] + answers ==> o == Died
      ensures answers == if old(answers) == [] then [] else old(answers)[1..]
    {
      var err := Set(Request(key, newvalue, Was(oldvalue), Etcd.TTL));
      match err {
        case None => o := AwaitingAnswer;
        case Some(Fine) => o := Success;
        case Some(OtherError) => o := Died;
        case Some(EtcdError(code)) => o := if code == KEY_NOT_FOUND then Died else Failed(code);
      }
    }

    /** RenewKey: renew and sleep until a renewal fails. */
    method RenewKey(key: Etcd.Key, value: string) returns (o: Outcome)
      modifies `answers, `requests, `slept
      ensures o == RenewOutcome(old(answers))
      ensures forall i :: 0 <= i < Renewals(old(answers)) ==> old(answers)[i] == Fine
      ensures var k := Renewals(old(answers));
              && (k == |old(answers)| <==> o == AwaitingAnswer)
              && (k < |old(answers)| ==>
                    && old(answers)[k] != Fine
                    && (o == Died <==> old(answers)[k] == OtherError || old(answers)[k] == EtcdError(100))
                    && forall code :: old(answers)[k] == EtcdError(code) && code != 100 ==> o == Failed(code))
      ensures slept == old(slept) + Naps(Renewals(old(answers)))
      ensures |slept| == |old(slept)| + Renewals(old(answers))
      ensures forall i :: |old(slept)| <= i < |slept| ==> slept[i] == 3_000_000_000
      ensures requests == old(requests) + Times(Renewal(key, value), Renewals(old(answers)) + 1)
    {
      ghost var left, made: nat := answers, 0;
      NapsAre(Renewals(answers));
      RenewalsStop(answers);
      o := CASKey(key, value, value);
      while o.Success?
        invariant o == if left == [] then AwaitingAnswer else CasOutcome(left[0])
        invariant answers == if left == [] then [] else left[1..]
        invariant RenewOutcome(left) == RenewOutcome(old(answers))
        invariant made + Renewals(left) == Renewals(old(answers))
        invariant requests == old(requests) + Times(Renewal(key, value), made + 1)
        invariant slept + Naps(Renewals(left)) == old(slept) + Naps(Renewals(old(answers)))
        decreases |left|
      {
        var nap := if Etcd.SECOND > Etcd.TTL / Etcd.NR_CLIENTS then Etcd.SECOND else Etcd.TTL / Etcd.NR_CLIENTS;
        assert slept + ([nap] + Naps(Renewals(answers))) == (slept + [nap]) + Naps(Renewals(answers));
        slept := slept + [nap];
        left, made := answers, made + 1;
        OneMoreTime(Renewal(key, value), made);
        o := CASKey(key, value, value);
      }
    }

    /** LeaderElection: register the host, then block for the leader key. Each key that is
        obtained gets a renewal loop; a host already registered is left for a TTL and then
        the process exits. */
    method LeaderElection(hname: string) returns (o: Outcome)
      requires loops == map[]
      modifies this
      ensures o == ElectionOutcome(old(answers), old(notices))
      ensures old(answers) != [] && old(answers)[0] == OtherError ==> o == Exits
      ensures forall code :: old(answers) != [] && old(answers)[0] == EtcdError(code) ==>
                o == if code == 105 then Exits else Died
      ensures old(answers) != [] && old(answers)[0] == Fine ==>
                && (o.Leads? <==> BlockSpec(old(answers)[1..], old(notices)).outcome.Success?)
                && (o.Died? <==> BlockSpec(old(answers)[1..], old(notices)).outcome.Failed?
                                 || BlockSpec(old(answers)[1..], old(notices)).outcome.Died?)
      ensures requests == old(requests) + ElectionRequests(hname, old(answers), old(notices))
      ensures Etcd.HostKey(hname) in loops <==> old(answers) != [] && old(answers)[0].Fine?
      ensures Etcd.Leader in loops <==> o.Leads?
      ensures forall k :: k in loops ==> k in {Etcd.HostKey(hname), Etcd.Leader} && loops[k] == hname
      ensures slept == old(slept) +
                       if old(answers) != [] && old(answers)[0] == EtcdError(105) then [9_000_000_000] else []
      ensures |requests| > |old(requests)|
      ensures requests[|old(requests)|] == Request(Etcd.HostKey(hname), hname, NoExist, 9_000_000_000)
      ensures forall i :: |old(requests)| < i < |requests| ==>
                requests[i] == Request(Etcd.Leader, hname, NoExist, 9_000_000_000)
    {
      var err := CreateKey(Etcd.HostKey(hname), hname);
      match err {
        case None => return AwaitingAnswer;
        case Some(OtherError) => return Exits;
        case Some(EtcdError(code)) =>
          if code != NODE_EXIST {
            return Died;
          }
          slept := slept + [Etcd.TTL];
          return Exits;
        case Some(Fine) =>
      }
      loops := loops[Etcd.HostKey(hname) := hname];
      var leader := BlockforKey(Etcd.Leader, hname);
      match leader {
        case Success => o := Leads;
        case Failed(_) => o := Died;
        case _ => o := leader;
      }
      if o.Leads? {
        loops := loops[Etcd.Leader := hname];
      }
    }
  }
}
