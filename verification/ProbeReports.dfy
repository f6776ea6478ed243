/**
 What reaches main: the answer a worker sends is the one its checker reported and it took, or "0" after its
 timeout, told by the steps of the run and not by the state.
 */
module ProbeReports {
  import opened Options
  import opened ProbeRound

  // ----- What happened to host j before step n

  /** The checker reported v, and the worker took it later. */
  ghost predicate Took(actions: seq<Action>, n: nat, j: nat, v: string)
    requires n <= |actions|
  {
    exists i, k :: 0 <= i < k < n && actions[i] == Report(j, v) && actions[k] == Take(j)
  }

  ghost predicate ReportedAs(actions: seq<Action>, n: nat, j: nat, v: string)
    requires n <= |actions|
  {
    exists i :: 0 <= i < n && actions[i] == Report(j, v)
  }

  ghost predicate TimedOut(actions: seq<Action>, n: nat, j: nat)
    requires n <= |actions|
  {
    exists k :: 0 <= k < n && actions[k] == Timeout(j)
  }

  /** Why the worker sends v. */
  ghost predicate Accounted(actions: seq<Action>, n: nat, j: nat, v: string)
    requires n <= |actions|
  {
    Took(actions, n, j, v) || (TimedOut(actions, n, j) && v == "0")
  }

  predicate Sent(w: Worker, v: string) {
    w == Sending(v) || w == Done(v)
  }

  /** Everything host j's goroutines hold has its step. */
  ghost predicate HasOrigin(actions: seq<Action>, n: nat, j: nat, p: Probe)
    requires n <= |actions|
  {
    && (p.slot.Some? ==> ReportedAs(actions, n, j, p.slot.value))
    && (p.worker.Sending? ==> Accounted(actions, n, j, p.worker.answer))
    && (p.worker.Done? ==> Accounted(actions, n, j, p.worker.answer))
  }

  lemma OriginStays(actions: seq<Action>, n: nat, j: nat, p: Probe)
    requires 0 < n <= |actions| && HasOrigin(actions, n - 1, j, p)
    ensures HasOrigin(actions, n, j, p)
  {
  }

  lemma TakeHasOrigin(actions: seq<Action>, n: nat, j: nat, v: string)
    requires 0 < n <= |actions| && actions[n - 1] == Take(j) && ReportedAs(actions, n - 1, j, v)
    ensures Took(actions, n, j, v)
  {
  }

  /** One step: whatever host j's goroutines hold afterwards has its step. */
  lemma StepHasOrigin(s: State, actions: seq<Action>, n: nat, j: nat)
    requires 0 < n <= |actions| && Enabled(s, actions[n - 1]) && j < |s.probes|
    requires HasOrigin(actions, n - 1, j, s.probes[j])
    ensures HasOrigin(actions, n, j, Next(s, actions[n - 1]).probes[j])
  {
    OriginStays(actions, n, j, s.probes[j]);
    var a := actions[n - 1];
    match a
    case Report(k, v) =>
      if k == j {
        assert ReportedAs(actions, n, j, v);
      }
    case Take(k) =>
      if k == j {
        TakeHasOrigin(actions, n, j, s.probes[j].slot.value);
      }
    case Timeout(k) =>
      if k == j {
        assert TimedOut(actions, n, j);
      }
    case _ =>
  }

  lemma NewProbeHasOrigin(s: State, actions: seq<Action>, n: nat, j: nat)
    requires 0 < n <= |actions| && Enabled(s, actions[n - 1]) && |s.probes| <= j < |Next(s, actions[n - 1]).probes|
    ensures HasOrigin(actions, n, j, Next(s, actions[n - 1]).probes[j])
  {
  }

  /** No answer comes from nowhere. */
  lemma {:induction false} AnswersHaveOrigins(run: seq<State>, actions: seq<Action>, n: nat, j: nat)
    requires IsRun(run, actions) && n < |run| && j < |run[n].probes|
    ensures HasOrigin(actions, n, j, run[n].probes[j])
  {
    if 0 < n {
      StepOfRun(run, actions, n);
      if j < |run[n - 1].probes| {
        AnswersHaveOrigins(run, actions, n - 1, j);
        StepHasOrigin(run[n - 1], actions, n, j);
      } else {
        NewProbeHasOrigin(run[n - 1], actions, n, j);
      }
    }
  }

  // ----- And what was taken arrives

  /** The report lies in the slot, or the worker no longer waits for it. */
  predicate Waits(p: Probe, v: string) {
    p.checker.Reported? && (p.slot == Some(v) || p.worker.Sending? || p.worker.Done?)
  }

  lemma StepKeepsWaiting(s: State, a: Action, j: nat, v: string)
    requires Enabled(s, a) && j < |s.probes| && Waits(s.probes[j], v) && ProbeOk(s.probes[j])
    ensures j < |Next(s, a).probes| && Waits(Next(s, a).probes[j], v)
  {
  }

  lemma StepKeepsSent(s: State, a: Action, j: nat, v: string)
    requires Enabled(s, a) && j < |s.probes| && Sent(s.probes[j].worker, v)
    ensures j < |Next(s, a).probes| && Sent(Next(s, a).probes[j].worker, v)
  {
  }

  lemma {:induction false} ReportWaits(run: seq<State>, actions: seq<Action>, i: nat, m: nat, j: nat, v: string)
    requires IsRun(run, actions) && i < m < |run| && actions[i] == Report(j, v)
    ensures j < |run[m].probes| && Waits(run[m].probes[j], v)
    decreases m
  {
    StepOfRun(run, actions, m);
    if i < m - 1 {
      ReportWaits(run, actions, i, m - 1, j, v);
      InvAlongRun(run, actions, m - 1);
      StepKeepsWaiting(run[m - 1], actions[m - 1], j, v);
    }
  }

  lemma {:induction false} SentStays(run: seq<State>, actions: seq<Action>, k: nat, n: nat, j: nat, v: string)
    requires IsRun(run, actions) && k <= n < |run| && j < |run[k].probes| && Sent(run[k].probes[j].worker, v)
    ensures j < |run[n].probes| && Sent(run[n].probes[j].worker, v)
    decreases n
  {
    if k < n {
      StepOfRun(run, actions, n);
      SentStays(run, actions, k, n - 1, j, v);
      StepKeepsSent(run[n - 1], actions[n - 1], j, v);
    }
  }

  /** After a report and the step that takes it, the worker sends that report and nothing else, for good. */
  lemma TakenReportIsSent(run: seq<State>, actions: seq<Action>, i: nat, k: nat, n: nat, j: nat, v: string)
    requires IsRun(run, actions) && i < k < n < |run| && actions[i] == Report(j, v) && actions[k] == Take(j)
    ensures j < |run[n].probes| && Sent(run[n].probes[j].worker, v)
    ensures n == k + 1 ==> run[n].probes[j].worker == Sending(v)
  {
    ReportWaits(run, actions, i, k, j, v);
    StepOfRun(run, actions, k + 1);
    SentStays(run, actions, k + 1, n, j, v);
  }

  lemma TimeoutSendsNothing(run: seq<State>, actions: seq<Action>, k: nat, n: nat, j: nat)
    requires IsRun(run, actions) && k < n < |run| && actions[k] == Timeout(j)
    ensures j < |run[n].probes| && Sent(run[n].probes[j].worker, "0")
  {
    StepOfRun(run, actions, k + 1);
    SentStays(run, actions, k + 1, n, j, "0");
  }

  /** What a worker sends is accounted for by the steps, and the steps by what it sends. */
  lemma SentIsAccounted(run: seq<State>, actions: seq<Action>, n: nat, j: nat, v: string)
    requires IsRun(run, actions) && n < |run| && j < |run[n].probes|
    ensures Sent(run[n].probes[j].worker, v) <==> Accounted(actions, n, j, v)
  {
    AnswersHaveOrigins(run, actions, n, j);
    if Took(actions, n, j, v) {
      var i, k :| 0 <= i < k < n && actions[i] == Report(j, v) && actions[k] == Take(j);
      TakenReportIsSent(run, actions, i, k, n, j, v);
    } else if TimedOut(actions, n, j) && v == "0" {
      var k :| 0 <= k < n && actions[k] == Timeout(j);
      TimeoutSendsNothing(run, actions, k, n, j);
    }
  }

  /** The hosts of the round whose report was the hash and was taken, or that timed out if the hash is "0". */
  ghost function Confirming(s: State, actions: seq<Action>, n: nat): set<nat>
    requires n <= |actions|
  {
    set j | s.base <= j < s.base + s.hosts && Accounted(actions, n, j, s.hash)
  }

  /** When a round ends, `good` is the number of those hosts. */
  lemma GoodCountsReports(run: seq<State>, actions: seq<Action>, n: nat)
    requires IsRun(run, actions) && n < |run| && Enabled(run[n], Close)
    ensures run[n].good == |Confirming(run[n], actions, n)|
    ensures run[n].bad == run[n].hosts - |Confirming(run[n], actions, n)|
  {
    var s := run[n];
    RoundOutcome(run, actions, n);
    InvAlongRun(run, actions, n);
    FullLedgerCoversRound(s);
    forall j | s.base <= j < s.base + s.hosts
      ensures j in Agreeing(s) <==> j in Confirming(s, actions, n)
    {
      SentIsAccounted(run, actions, n, j, s.hash);
    }
    assert Agreeing(s) == Confirming(s, actions, n);
  }
}
