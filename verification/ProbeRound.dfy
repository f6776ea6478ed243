/**
 The confirmation daemon's probing as a transition system: the main goroutine, and for every host of
 every round a worker, the checker it starts, and the one-slot channel between the two. The probes of
 old rounds stay in the system; only the loop variable `block` is shared with main.
 */
module ProbeRound {
  import opened Options

  datatype Worker =
    | Ready                    // started, has not read the loop variable yet
    | Racing(block: int)       // waits for its checker or the timeout
    | Sending(answer: string)  // offers its answer to main, on the round's unbuffered channel
    | Done(answer: string)

  datatype Checker = Unborn | Probing(block: int) | Reported

  /** `target` is the block of the round the probe was started for; no goroutine reads it. */
  datatype Probe = Probe(target: int, worker: Worker, checker: Checker, slot: Option<string>)

  datatype Phase = Between | Spawning | Gathering

  /**
   `probes[base..]` belong to the current round. `delivered` and `answers` list what main has received
   in it, in order of arrival.
   */
  datatype State = State(
    phase: Phase, block: int, hash: string, hosts: nat,
    base: nat, probes: seq<Probe>,
    good: nat, bad: nat, delivered: seq<nat>, answers: seq<string>)

  datatype Action =
    | Assign(block: int)                // the scan moves its loop variable, or starts over
    | Open(hash: string, hosts: nat)
    | Spawn
    | StartGather
    | Read(j: nat)                      // worker j reads the loop variable and starts its checker
    | Report(j: nat, answer: string)    // checker j finishes its probe, whatever it found
    | Take(j: nat)
    | Timeout(j: nat)
    | Deliver(j: nat)
    | Close

  const NO_ANSWER := "0"

  predicate Enabled(s: State, a: Action) {
    match a
    case Assign(_) => s.phase.Between?
    case Open(_, _) => s.phase.Between?
    case Spawn => s.phase.Spawning? && |s.probes| < s.base + s.hosts
    case StartGather => s.phase.Spawning? && |s.probes| == s.base + s.hosts
    case Read(j) => j < |s.probes| && s.probes[j].worker.Ready?
    case Report(j, _) => j < |s.probes| && s.probes[j].checker.Probing? && s.probes[j].slot.None?
    case Take(j) => j < |s.probes| && s.probes[j].worker.Racing? && s.probes[j].slot.Some?
    case Timeout(j) => j < |s.probes| && s.probes[j].worker.Racing?
    case Deliver(j) =>
      && s.phase.Gathering? && |s.delivered| < s.hosts
      && s.base <= j < |s.probes| && s.probes[j].worker.Sending?
    case Close => s.phase.Gathering? && |s.delivered| == s.hosts
  }

  function Next(s: State, a: Action): State
    requires Enabled(s, a)
  {
    match a
    case Assign(b) => s.(block := b)
    case Open(h, n) =>
      s.(phase := Spawning, hash := h, hosts := n, base := |s.probes|,
         good := 0, bad := 0, delivered := [], answers := [])
    case Spawn => s.(probes := s.probes + [Probe(s.block, Ready, Unborn, None)])
    case StartGather => s.(phase := Gathering)
    case Read(j) => s.(probes := s.probes[j := s.probes[j].(worker := Racing(s.block), checker := Probing(s.block))])
    case Report(j, v) => s.(probes := s.probes[j := s.probes[j].(checker := Reported, slot := Some(v))])
    case Take(j) =>
      s.(probes := s.probes[j := s.probes[j].(worker := Sending(s.probes[j].slot.value), slot := None)])
    case Timeout(j) => s.(probes := s.probes[j := s.probes[j].(worker := Sending(NO_ANSWER))])
    case Deliver(j) =>
      var v := s.probes[j].worker.answer;
      s.(probes := s.probes[j := s.probes[j].(worker := Done(v))],
         good := if v == s.hash then s.good + 1 else s.good,
         bad := if v == s.hash then s.bad else s.bad + 1,
         delivered := s.delivered + [j], answers := s.answers + [v])
    case Close => s.(phase := Between)
  }

  function Initial(): State {
    State(Between, 0, "", 0, 0, [], 0, 0, [], [])
  }

  function CountEq(answers: seq<string>, hash: string): nat {
    if answers == [] then 0
    else CountEq(answers[..|answers| - 1], hash) + if answers[|answers| - 1] == hash then 1 else 0
  }

  // ----- The invariant

  /** What holds of every probe, whichever round it is from. */
  ghost predicate ProbeOk(p: Probe) {
    && (p.worker.Ready? <==> p.checker.Unborn?)
    && (p.slot.Some? ==> p.checker.Reported?)
    && (p.worker.Racing? ==> p.worker.block == p.target)
    && (p.checker.Probing? ==> p.checker.block == p.target)
  }

  /** What main has received so far in the current round. */
  ghost predicate Ledger(s: State) {
    && |s.delivered| == |s.answers|
    && (forall k :: 0 <= k < |s.delivered| ==>
          s.base <= s.delivered[k] < |s.probes| && s.probes[s.delivered[k]].worker == Done(s.answers[k]))
    && (forall k, l :: 0 <= k < l < |s.delivered| ==> s.delivered[k] != s.delivered[l])
    && (forall j :: s.base <= j < |s.probes| && s.probes[j].worker.Done? ==> j in s.delivered)
    && s.good == CountEq(s.answers, s.hash) && s.good + s.bad == |s.answers|
  }

  /** Where the goroutines of all rounds stand. */
  ghost predicate Shape(s: State) {
    && s.base <= |s.probes| <= s.base + s.hosts
    && (forall j :: 0 <= j < |s.probes| ==> ProbeOk(s.probes[j]))
    && (forall j :: 0 <= j < s.base ==> s.probes[j].worker.Done?)
    && (s.phase.Between? ==> forall j :: 0 <= j < |s.probes| ==> s.probes[j].worker.Done?)
    && (!s.phase.Between? ==> forall j :: s.base <= j < |s.probes| ==> s.probes[j].target == s.block)
    && (s.phase.Spawning? ==> s.delivered == [])
    && (!s.phase.Spawning? ==> |s.probes| == s.base + s.hosts)
  }

  ghost predicate Inv(s: State) {
    Shape(s) && Ledger(s)
  }

  /** A probe that moves on without changing whether main has its answer disturbs nothing else. */
  lemma UpdateKeepsInv(s: State, j: nat, p: Probe)
    requires Inv(s) && j < |s.probes| && ProbeOk(p) && p.target == s.probes[j].target
    requires p.worker == s.probes[j].worker || (!p.worker.Done? && !s.probes[j].worker.Done?)
    ensures Inv(s.(probes := s.probes[j := p]))
  {
    var s' := s.(probes := s.probes[j := p]);
    assert forall k :: 0 <= k < |s.probes| && s.probes[k].worker.Done? ==> s'.probes[k].worker == s.probes[k].worker;
    assert Ledger(s');
  }

  /** A worker that has not answered is of the current round, and the loop variable still has its block. */
  lemma UnansweredIsCurrent(s: State, j: nat)
    requires Inv(s) && j < |s.probes| && !s.probes[j].worker.Done?
    ensures s.base <= j && !s.phase.Between? && s.probes[j].target == s.block
  {
  }

  lemma DeliverKeepsCount(s: State, j: nat)
    requires Ledger(s) && Enabled(s, Deliver(j))
    ensures var s' := Next(s, Deliver(j)); s'.good == CountEq(s'.answers, s'.hash) && s'.good + s'.bad == |s'.answers|
  {
    var s' := Next(s, Deliver(j));
    assert s'.answers[..|s'.answers| - 1] == s.answers;
  }

  lemma DeliverKeepsSenders(s: State, j: nat)
    requires Ledger(s) && Enabled(s, Deliver(j))
    ensures var s' := Next(s, Deliver(j));
      && (forall k :: 0 <= k < |s'.delivered| ==>
            s'.base <= s'.delivered[k] < |s'.probes| && s'.probes[s'.delivered[k]].worker == Done(s'.answers[k]))
      && (forall k, l :: 0 <= k < l < |s'.delivered| ==> s'.delivered[k] != s'.delivered[l])
  {
    var s' := Next(s, Deliver(j));
    assert forall k :: 0 <= k < |s.delivered| ==> s'.delivered[k] == s.delivered[k] != j;
  }

  lemma DeliverKeepsCover(s: State, j: nat, i: nat)
    requires Ledger(s) && Enabled(s, Deliver(j))
    requires s.base <= i < |s.probes| && Next(s, Deliver(j)).probes[i].worker.Done?
    ensures i in Next(s, Deliver(j)).delivered
  {
    var s' := Next(s, Deliver(j));
    if i == j {
      assert s'.delivered[|s.delivered|] == j;
    } else {
      assert i in s.delivered;
    }
  }

  lemma DeliverKeepsLedger(s: State, j: nat)
    requires Inv(s) && Enabled(s, Deliver(j))
    ensures Ledger(Next(s, Deliver(j)))
  {
    DeliverKeepsCount(s, j);
    DeliverKeepsSenders(s, j);
    forall i | s.base <= i < |s.probes| && Next(s, Deliver(j)).probes[i].worker.Done?
      ensures i in Next(s, Deliver(j)).delivered
    {
      DeliverKeepsCover(s, j, i);
    }
  }

  lemma DeliverKeepsShape(s: State, j: nat)
    requires Shape(s) && Enabled(s, Deliver(j))
    ensures Shape(Next(s, Deliver(j)))
  {
    var s' := Next(s, Deliver(j));
    assert ProbeOk(s.probes[j]);
    assert forall i :: 0 <= i < |s.probes| && i != j ==> s'.probes[i] == s.probes[i];
  }

  lemma DeliverKeepsInv(s: State, j: nat)
    requires Inv(s) && Enabled(s, Deliver(j))
    ensures Inv(Next(s, Deliver(j)))
  {
    DeliverKeepsShape(s, j);
    DeliverKeepsLedger(s, j);
  }

  ghost function Range(lo: nat, n: nat): (r: set<nat>)
    ensures |r| == n
    ensures forall j :: j in r <==> lo <= j < lo + n
  {
    if n == 0 then {} else Range(lo, n - 1) + {lo + n - 1}
  }

  ghost function Elements(q: seq<nat>): set<nat> {
    set j | j in q
  }

  lemma {:induction false} DistinctHasFullSize(q: seq<nat>)
    requires forall k, l :: 0 <= k < l < |q| ==> q[k] != q[l]
    ensures |Elements(q)| == |q|
  {
    if q != [] {
      var last := q[|q| - 1];
      DistinctHasFullSize(q[..|q| - 1]);
      assert Elements(q) == Elements(q[..|q| - 1]) + {last};
    }
  }

  lemma SubsetOfSameSize(a: set<nat>, b: set<nat>)
    requires a <= b && |a| == |b|
    ensures a == b
  {
    assert |b - a| == |b| - |a|;
  }

  /** Once main has as many answers as there are hosts, it has one from every host. */
  lemma FullLedgerCoversRound(s: State)
    requires Inv(s) && s.phase.Gathering? && |s.delivered| == s.hosts
    ensures Elements(s.delivered) == Range(s.base, s.hosts)
    ensures forall j :: s.base <= j < s.base + s.hosts ==> s.probes[j].worker.Done?
  {
    DistinctHasFullSize(s.delivered);
    SubsetOfSameSize(Elements(s.delivered), Range(s.base, s.hosts));
    forall j | s.base <= j < s.base + s.hosts
      ensures s.probes[j].worker.Done?
    {
      assert j in Elements(s.delivered);
    }
  }

  lemma SpawnKeepsInv(s: State)
    requires Inv(s) && Enabled(s, Spawn)
    ensures Inv(Next(s, Spawn))
  {
    var s' := Next(s, Spawn);
    assert forall j :: 0 <= j < |s.probes| ==> s'.probes[j] == s.probes[j];
  }

  lemma MainKeepsInv(s: State, a: Action)
    requires Inv(s) && Enabled(s, a) && (a.Assign? || a.Open? || a.StartGather? || a.Close?)
    ensures Inv(Next(s, a))
  {
    if a.Close? {
      FullLedgerCoversRound(s);
    }
  }

  lemma WorkerKeepsInv(s: State, a: Action)
    requires Inv(s) && Enabled(s, a) && (a.Read? || a.Report? || a.Take? || a.Timeout?)
    ensures Inv(Next(s, a))
  {
    if a.Read? {
      UnansweredIsCurrent(s, a.j);
    }
    UpdateKeepsInv(s, a.j, Next(s, a).probes[a.j]);
  }

  lemma NextKeepsInv(s: State, a: Action)
    requires Inv(s) && Enabled(s, a)
    ensures Inv(Next(s, a))
  {
    match a
    case Spawn => SpawnKeepsInv(s);
    case Deliver(j) => DeliverKeepsInv(s, j);
    case Assign(_) => MainKeepsInv(s, a);
    case Open(_, _) => MainKeepsInv(s, a);
    case StartGather => MainKeepsInv(s, a);
    case Close => MainKeepsInv(s, a);
    case _ => WorkerKeepsInv(s, a);
  }

  // ----- Runs

  ghost predicate IsRun(run: seq<State>, actions: seq<Action>) {
    && |run| == |actions| + 1
    && run[0] == Initial()
    && forall i :: 0 <= i < |actions| ==> Enabled(run[i], actions[i]) && run[i + 1] == Next(run[i], actions[i])
  }

  lemma StepOfRun(run: seq<State>, actions: seq<Action>, n: nat)
    requires IsRun(run, actions) && 0 < n < |run|
    ensures Enabled(run[n - 1], actions[n - 1]) && run[n] == Next(run[n - 1], actions[n - 1])
  {
  }

  lemma NoProbesHaveShape(s: State)
    requires s.phase.Between? && s.base == s.hosts == 0 && s.probes == []
    ensures Shape(s)
  {
  }

  lemma NoAnswersAreALedger(s: State)
    requires s.base == 0 && s.probes == [] && s.delivered == [] && s.answers == [] && s.good == s.bad == 0
    ensures Ledger(s)
  {
  }

  lemma EmptyStateHasInv(s: State)
    requires s.phase.Between? && s.base == s.hosts == 0 && s.probes == []
    requires s.delivered == [] && s.answers == [] && s.good == s.bad == 0
    ensures Inv(s)
  {
    NoProbesHaveShape(s);
    NoAnswersAreALedger(s);
  }

  lemma {:induction false} InvAlongRun(run: seq<State>, actions: seq<Action>, n: nat)
    requires IsRun(run, actions) && n < |run|
    ensures Inv(run[n])
  {
    if n == 0 {
      EmptyStateHasInv(run[0]);
    } else {
      StepOfRun(run, actions, n);
      InvAlongRun(run, actions, n - 1);
      NextKeepsInv(run[n - 1], actions[n - 1]);
    }
  }

  // ----- What a round yields

  /** The hosts of the current round whose answer to main was the hash. */
  ghost function Agreeing(s: State): set<nat>
    requires |s.probes| == s.base + s.hosts
  {
    set j | s.base <= j < s.base + s.hosts && s.probes[j].worker == Done(s.hash)
  }

  /** The senders of those answers that were the hash. */
  ghost function Hits(q: seq<nat>, answers: seq<string>, hash: string): (hits: set<nat>)
    requires |q| == |answers|
    ensures forall k :: 0 <= k < |q| && answers[k] == hash ==> q[k] in hits
    ensures forall j :: j in hits ==> exists k :: 0 <= k < |q| && q[k] == j && answers[k] == hash
  {
    if q == [] then {}
    else
      var n := |q| - 1;
      Hits(q[..n], answers[..n], hash) + if answers[n] == hash then {q[n]} else {}
  }

  lemma {:induction false} CountIsSize(q: seq<nat>, answers: seq<string>, hash: string)
    requires |q| == |answers|
    requires forall k, l :: 0 <= k < l < |q| ==> q[k] != q[l]
    ensures |Hits(q, answers, hash)| == CountEq(answers, hash)
  {
    if q != [] {
      CountIsSize(q[..|q| - 1], answers[..|q| - 1], hash);
    }
  }

  /**
   When main leaves the gather loop it has received exactly one answer from every host, the counters
   add up to the number of hosts, and `good` is the number of hosts that answered with the hash.
   */
  lemma RoundOutcome(run: seq<State>, actions: seq<Action>, n: nat)
    requires IsRun(run, actions) && n < |run| && Enabled(run[n], Close)
    ensures var s := run[n];
      && |s.probes| == s.base + s.hosts
      && Elements(s.delivered) == Range(s.base, s.hosts) && |s.delivered| == s.hosts
      && s.good + s.bad == s.hosts
      && s.good == CountEq(s.answers, s.hash) == |Agreeing(s)|
  {
    InvAlongRun(run, actions, n);
    var s := run[n];
    FullLedgerCoversRound(s);
    CountIsSize(s.delivered, s.answers, s.hash);
    var hits := Hits(s.delivered, s.answers, s.hash);
    forall j | j in Agreeing(s)
      ensures j in hits
    {
      assert j in Elements(s.delivered);
    }
    assert hits == Agreeing(s);
  }

  /**
   No goroutine of any round ever probes a block other than the one its round is about, although they
   all read the shared loop variable: while a worker has yet to read it, main can neither move it nor
   open another round.
   */
  lemma EveryProbeAsksItsBlock(run: seq<State>, actions: seq<Action>, n: nat, j: nat)
    requires IsRun(run, actions) && n < |run| && j < |run[n].probes|
    ensures run[n].probes[j].checker.Probing? ==> run[n].probes[j].checker.block == run[n].probes[j].target
    ensures run[n].probes[j].worker.Racing? ==> run[n].probes[j].worker.block == run[n].probes[j].target
    ensures run[n].probes[j].worker.Ready? ==>
      && run[n].block == run[n].probes[j].target
      && forall a :: Enabled(run[n], a) ==> !a.Assign? && !a.Open?
  {
    InvAlongRun(run, actions, n);
    assert ProbeOk(run[n].probes[j]);
  }

  // ----- Progress

  /** A probe may never come back, so progress must not depend on a Report. */
  ghost predicate Prompt(a: Action) {
    !a.Report? && !a.Assign? && !a.Open?
  }

  /** An open round is never stuck, even when no probe answers; timeouts are enough. */
  lemma NeverDeadlocks(run: seq<State>, actions: seq<Action>, n: nat) returns (a: Action)
    requires IsRun(run, actions) && n < |run| && !run[n].phase.Between?
    ensures Prompt(a) && Enabled(run[n], a)
  {
    InvAlongRun(run, actions, n);
    var s := run[n];
    if s.phase.Spawning? {
      a := if |s.probes| < s.base + s.hosts then Spawn else StartGather;
    } else if |s.delivered| == s.hosts {
      a := Close;
    } else {
      var j := SomeoneIsMissing(s);
      match s.probes[j].worker
      case Ready => a := Read(j);
      case Racing(_) => a := Timeout(j);
      case Sending(_) => a := Deliver(j);
    }
  }

  lemma SomeoneIsMissing(s: State) returns (j: nat)
    requires Inv(s) && s.phase.Gathering? && |s.delivered| != s.hosts
    ensures s.base <= j < |s.probes| && !s.probes[j].worker.Done? && |s.delivered| < s.hosts
  {
    DistinctHasFullSize(s.delivered);
    var answered, all := Elements(s.delivered), Range(s.base, s.hosts);
    assert answered <= all;
    assert |all - answered| == |all| - |answered|;
    assert all != answered;
    j :| j in all - answered;
    assert j !in s.delivered;
  }

  /** Whatever became of its worker, a checker can always put its answer into the slot and end. */
  lemma LateCheckerCanFinish(run: seq<State>, actions: seq<Action>, n: nat, j: nat, answer: string)
    requires IsRun(run, actions) && n < |run| && j < |run[n].probes| && run[n].probes[j].checker.Probing?
    ensures Enabled(run[n], Report(j, answer))
  {
    InvAlongRun(run, actions, n);
    assert ProbeOk(run[n].probes[j]);
  }

  function Weight(p: Probe): nat {
    (match p.worker case Ready => 5 case Racing(_) => 3 case Sending(_) => 2 case Done(_) => 0)
    + (if p.checker.Reported? then 0 else 1)
  }

  function Weights(probes: seq<Probe>): nat {
    if probes == [] then 0 else Weights(probes[..|probes| - 1]) + Weight(probes[|probes| - 1])
  }

  /** A bound on the steps an open round still takes, late checkers of earlier rounds included. */
  function Remaining(s: State): int {
    Weights(s.probes)
    + (match s.phase
       case Between => 0
       case Spawning => 7 * (s.base + s.hosts - |s.probes|) + 2
       case Gathering => 1)
  }

  lemma {:induction false} WeightsUpdate(probes: seq<Probe>, j: nat, p: Probe)
    requires j < |probes|
    ensures Weights(probes[j := p]) == Weights(probes) - Weight(probes[j]) + Weight(p)
  {
    var n := |probes| - 1;
    if j == n {
      assert probes[j := p][..n] == probes[..n];
    } else {
      WeightsUpdate(probes[..n], j, p);
      assert probes[j := p][..n] == probes[..n][j := p];
    }
  }

  /**
   Every step of a round, in whatever order the scheduler takes them, uses up the bound: with
   NeverDeadlocks, every round ends, and ends by Close.
   */
  lemma EveryStepCounts(s: State, a: Action)
    requires Inv(s) && Enabled(s, a) && !a.Assign? && !a.Open?
    ensures 0 <= Remaining(Next(s, a)) < Remaining(s)
  {
    match a
    case Spawn => SpawnCounts(s);
    case StartGather =>
    case Read(j) => WorkerCounts(s, a);
    case Report(j, _) => WorkerCounts(s, a);
    case Take(j) => WorkerCounts(s, a);
    case Timeout(j) => WorkerCounts(s, a);
    case Deliver(j) => WorkerCounts(s, a);
    case Close =>
  }

  lemma SpawnCounts(s: State)
    requires Inv(s) && Enabled(s, Spawn)
    ensures 0 <= Remaining(Next(s, Spawn)) < Remaining(s)
  {
    assert Next(s, Spawn).probes[..|s.probes|] == s.probes;
  }

  lemma WorkerCounts(s: State, a: Action)
    requires Inv(s) && Enabled(s, a) && (a.Read? || a.Report? || a.Take? || a.Timeout? || a.Deliver?)
    ensures 0 <= Remaining(Next(s, a)) < Remaining(s)
  {
    assert ProbeOk(s.probes[a.j]);
    WeightsUpdate(s.probes, a.j, Next(s, a).probes[a.j]);
  }

  lemma StepCountsInRun(run: seq<State>, actions: seq<Action>, n: nat)
    requires IsRun(run, actions) && 0 < n < |run| && !actions[n - 1].Assign? && !actions[n - 1].Open?
    ensures Remaining(run[n]) < Remaining(run[n - 1])
  {
    InvAlongRun(run, actions, n - 1);
    StepOfRun(run, actions, n);
    EveryStepCounts(run[n - 1], actions[n - 1]);
  }

  /** So no run makes more than Remaining steps without starting another round. */
  lemma {:induction false} RoundsAreBounded(run: seq<State>, actions: seq<Action>, from: nat, to: nat)
    requires IsRun(run, actions) && from <= to < |run|
    requires forall i :: from <= i < to ==> !actions[i].Assign? && !actions[i].Open?
    ensures Remaining(run[to]) + (to - from) <= Remaining(run[from])
  {
    if from < to {
      RoundsAreBounded(run, actions, from, to - 1);
      StepCountsInRun(run, actions, to);
    }
  }
}
