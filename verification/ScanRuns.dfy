/**
 The daemon's whole scan as a run of ProbeRound: main opens its rounds from the newest block down, and the
 rows it writes are those of the sequential scan.
 */
module ScanRuns {
  import opened Options
  import opened ProbeRound
  import opened ProbeReports
  import opened Confirmations

  /** A round that main has gathered. */
  datatype Round = Round(block: int, hash: string, answers: seq<string>, good: nat, bad: nat)

  function RoundOf(s: State): Round {
    Round(s.block, s.hash, s.answers, s.good, s.bad)
  }

  /** The rounds that end between the steps `from` and n, oldest first. */
  ghost function Rounds(run: seq<State>, actions: seq<Action>, from: nat, n: nat): seq<Round>
    requires from <= n <= |actions| < |run|
    decreases n
  {
    if n == from then []
    else Rounds(run, actions, from, n - 1) + if actions[n - 1].Close? then [RoundOf(run[n - 1])] else []
  }

  /** What the scan is about: stored hashes, its range and its threshold. */
  datatype Task = Task(hashOf: int -> string, start: int, last: int, threshold: int)

  /** Has the current block just been gathered? */
  predicate Probed(rounds: seq<Round>, block: int) {
    rounds != [] && rounds[|rounds| - 1].block == block
  }

  predicate Agreed(rounds: seq<Round>, block: int, threshold: int) {
    Probed(rounds, block) && rounds[|rounds| - 1].good >= threshold
  }

  /** Main's own steps are those of the loop; workers, checkers and timeouts are free. */
  predicate Follows(t: Task, s: State, rounds: seq<Round>, a: Action) {
    match a
    case Assign(b) =>
      && t.start < s.block && b == s.block - 1
      && (t.hashOf(s.block) == "" || (Probed(rounds, s.block) && !Agreed(rounds, s.block, t.threshold)))
    case Open(hash, _) =>
      t.start < s.block && hash == t.hashOf(s.block) && hash != "" && !Probed(rounds, s.block)
    case _ => true
  }

  /** From step `from`, where the loop variable is set to the last block, to step n. */
  ghost predicate IsScan(t: Task, run: seq<State>, actions: seq<Action>, from: nat, n: nat) {
    && IsRun(run, actions) && from <= n <= |actions|
    && run[from].phase.Between? && run[from].block == t.last
    && forall i :: from <= i < n ==> FollowsAt(t, run, actions, from, i)
  }

  ghost predicate FollowsAt(t: Task, run: seq<State>, actions: seq<Action>, from: nat, i: nat)
    requires from <= i < |actions| < |run|
  {
    Follows(t, run[i], Rounds(run, actions, from, i), actions[i])
  }

  /** The loop has ended: its range is used up, or enough hosts agree on the block. */
  predicate IsOver(t: Task, s: State, rounds: seq<Round>) {
    s.phase.Between? && (s.block <= t.start || Agreed(rounds, s.block, t.threshold))
  }

  // ----- The invariant of the scan

  ghost predicate Genuine(t: Task, r: Round) {
    && t.start < r.block <= t.last
    && r.hash == t.hashOf(r.block) != ""
    && r.good == CountEq(r.answers, r.hash) && r.good + r.bad == |r.answers|
  }

  ghost predicate Descending(rounds: seq<Round>) {
    forall i, j :: 0 <= i < j < |rounds| ==> rounds[j].block < rounds[i].block
  }

  ghost predicate Has(rounds: seq<Round>, b: int) {
    exists k :: 0 <= k < |rounds| && rounds[k].block == b
  }

  ghost predicate Scanning(t: Task, s: State, rounds: seq<Round>) {
    && s.block <= t.last && (t.start <= s.block || s.block == t.last)
    && (forall k :: 0 <= k < |rounds| ==> Genuine(t, rounds[k]))
    && Descending(rounds)
    && (forall k :: 0 <= k < |rounds| ==> s.block <= rounds[k].block)
    && (forall k :: 0 <= k < |rounds| && s.block < rounds[k].block ==> rounds[k].good < t.threshold)
    && (forall b :: s.block < b <= t.last && t.hashOf(b) != "" ==> Has(rounds, b))
    && (!s.phase.Between? ==>
          t.start < s.block && s.hash == t.hashOf(s.block) != "" && !Has(rounds, s.block))
  }

  lemma OnlyTheLastIsCurrent(t: Task, s: State, rounds: seq<Round>)
    requires Scanning(t, s, rounds)
    ensures Has(rounds, s.block) <==> Probed(rounds, s.block)
  {
    if Has(rounds, s.block) {
      var k :| 0 <= k < |rounds| && rounds[k].block == s.block;
      assert rounds[|rounds| - 1].block <= rounds[k].block;
    }
  }

  lemma SameBlockSameRound(rounds: seq<Round>, k: nat, l: nat)
    requires Descending(rounds) && k < |rounds| && l < |rounds| && rounds[k].block == rounds[l].block
    ensures k == l
  {
  }

  lemma AssignKeepsScanning(t: Task, s: State, rounds: seq<Round>, b: int)
    requires Scanning(t, s, rounds) && Enabled(s, Assign(b)) && Follows(t, s, rounds, Assign(b))
    ensures Scanning(t, Next(s, Assign(b)), rounds)
  {
    OnlyTheLastIsCurrent(t, s, rounds);
    forall k | 0 <= k < |rounds| && b < rounds[k].block
      ensures rounds[k].good < t.threshold
    {
      if rounds[k].block == s.block {
        assert Genuine(t, rounds[k]) && Has(rounds, s.block);
        SameBlockSameRound(rounds, k, |rounds| - 1);
      }
    }
  }

  lemma HasSnoc(older: seq<Round>, r: Round, b: int)
    ensures Has(older + [r], b) <==> Has(older, b) || r.block == b
  {
    var rounds := older + [r];
    if Has(older, b) {
      var k :| 0 <= k < |older| && older[k].block == b;
      assert rounds[k].block == b;
    }
    assert rounds[|older|] == r;
  }

  lemma DescendingSnoc(rounds: seq<Round>, r: Round)
    requires Descending(rounds) && forall k :: 0 <= k < |rounds| ==> r.block < rounds[k].block
    ensures Descending(rounds + [r])
  {
  }

  lemma CloseKeepsScanning(t: Task, s: State, rounds: seq<Round>)
    requires Scanning(t, s, rounds) && ProbeRound.Inv(s) && Enabled(s, Close)
    ensures Scanning(t, Next(s, Close), rounds + [RoundOf(s)])
  {
    forall k | 0 <= k < |rounds|
      ensures s.block < rounds[k].block
    {
      assert rounds[k].block == s.block ==> Has(rounds, s.block);
    }
    assert Genuine(t, RoundOf(s));
    DescendingSnoc(rounds, RoundOf(s));
    forall b | Has(rounds, b)
      ensures Has(rounds + [RoundOf(s)], b)
    {
      HasSnoc(rounds, RoundOf(s), b);
    }
  }

  lemma SameShapeKeepsScanning(t: Task, s: State, s': State, rounds: seq<Round>)
    requires Scanning(t, s, rounds)
    requires s'.block == s.block && s'.hash == s.hash && (s'.phase.Between? || !s.phase.Between?)
    ensures Scanning(t, s', rounds)
  {
  }

  lemma OpenKeepsScanning(t: Task, s: State, rounds: seq<Round>, hash: string, hosts: nat)
    requires Scanning(t, s, rounds) && Enabled(s, Open(hash, hosts)) && Follows(t, s, rounds, Open(hash, hosts))
    ensures Scanning(t, Next(s, Open(hash, hosts)), rounds)
  {
    OnlyTheLastIsCurrent(t, s, rounds);
  }

  lemma StepKeepsScanning(t: Task, s: State, rounds: seq<Round>, a: Action)
    requires Scanning(t, s, rounds) && ProbeRound.Inv(s) && Enabled(s, a) && Follows(t, s, rounds, a)
    ensures Scanning(t, Next(s, a), if a.Close? then rounds + [RoundOf(s)] else rounds)
  {
    match a
    case Assign(b) => AssignKeepsScanning(t, s, rounds, b);
    case Open(hash, hosts) => OpenKeepsScanning(t, s, rounds, hash, hosts);
    case Close => CloseKeepsScanning(t, s, rounds);
    case _ => SameShapeKeepsScanning(t, s, Next(s, a), rounds);
  }

  lemma {:induction false} ScanningAlongRun(t: Task, run: seq<State>, actions: seq<Action>, from: nat, n: nat)
    requires IsScan(t, run, actions, from, n)
    ensures Scanning(t, run[n], Rounds(run, actions, from, n))
    decreases n
  {
    if from == n {
      ScanStarts(t, run[n]);
    } else {
      ShorterScan(t, run, actions, from, n);
      ScanningAlongRun(t, run, actions, from, n - 1);
      ProbeRound.InvAlongRun(run, actions, n - 1);
      LastStep(t, run, actions, from, n);
    }
  }

  lemma ShorterScan(t: Task, run: seq<State>, actions: seq<Action>, from: nat, n: nat)
    requires IsScan(t, run, actions, from, n) && from < n
    ensures IsScan(t, run, actions, from, n - 1) && FollowsAt(t, run, actions, from, n - 1)
  {
  }

  lemma ScanStarts(t: Task, s: State)
    requires s.phase.Between? && s.block == t.last
    ensures Scanning(t, s, [])
  {
  }

  lemma LastStep(t: Task, run: seq<State>, actions: seq<Action>, from: nat, n: nat)
    requires IsRun(run, actions) && from < n <= |actions| && FollowsAt(t, run, actions, from, n - 1)
    requires ProbeRound.Inv(run[n - 1]) && Scanning(t, run[n - 1], Rounds(run, actions, from, n - 1))
    ensures Scanning(t, run[n], Rounds(run, actions, from, n))
  {
    var rounds := Rounds(run, actions, from, n - 1);
    assert rounds + [] == rounds;
    StepKeepsScanning(t, run[n - 1], rounds, actions[n - 1]);
  }

  // ----- The rows

  /** The table after the upserts of these rounds. */
  function TableAfter(was: seq<ConfRow>, rounds: seq<Round>, clock: int -> int): seq<ConfRow> {
    if rounds == [] then was
    else
      var r := rounds[|rounds| - 1];
      Upserted(TableAfter(was, rounds[..|rounds| - 1], clock), RowOf(r, clock))
  }

  /** The answers the round about a block gathered. */
  function AnswersIn(rounds: seq<Round>, b: int): seq<string> {
    if rounds == [] then []
    else if rounds[|rounds| - 1].block == b then rounds[|rounds| - 1].answers
    else AnswersIn(rounds[..|rounds| - 1], b)
  }

  /** What the sequential scan would have met. */
  function WorldOf(hashOf: int -> string, rounds: seq<Round>, clock: int -> int): World {
    World(hashOf, b => AnswersIn(rounds, b), clock)
  }

  function RowOf(r: Round, clock: int -> int): ConfRow {
    ConfRow(r.block, r.good, r.bad, clock(r.block))
  }

  /** Every block some round was about has that round's row; all other rows are as before. */
  lemma {:induction false} RowsOfRounds(was: seq<ConfRow>, rounds: seq<Round>, clock: int -> int, b: int)
    requires OneRowPerBlock(was) && forall k :: 0 <= k < |rounds| ==> 0 < rounds[k].block
    ensures OneRowPerBlock(TableAfter(was, rounds, clock))
    ensures Lookup(TableAfter(was, rounds, clock), b)
         == if Has(rounds, b) then Some(RowOf(LastAbout(rounds, b), clock)) else Lookup(was, b)
  {
    if rounds != [] {
      var older, r := rounds[..|rounds| - 1], rounds[|rounds| - 1];
      assert rounds == older + [r];
      RowsOfRounds(was, older, clock, b);
      UpsertedTable(TableAfter(was, older, clock), RowOf(r, clock));
      HasSnoc(older, r, b);
    }
  }

  ghost function LastAbout(rounds: seq<Round>, b: int): (r: Round)
    requires Has(rounds, b)
  {
    var n := |rounds| - 1;
    if rounds[n].block == b then rounds[n]
    else
      HasSnoc(rounds[..n], rounds[n], b);
      assert rounds == rounds[..n] + [rounds[n]];
      LastAbout(rounds[..n], b)
  }

  lemma {:induction false} LastAboutIsThere(rounds: seq<Round>, b: int) returns (k: nat)
    requires Has(rounds, b)
    ensures k < |rounds| && rounds[k] == LastAbout(rounds, b) && rounds[k].block == b
    ensures AnswersIn(rounds, b) == rounds[k].answers
  {
    var n := |rounds| - 1;
    if rounds[n].block == b {
      k := n;
    } else {
      HasSnoc(rounds[..n], rounds[n], b);
      assert rounds == rounds[..n] + [rounds[n]];
      k := LastAboutIsThere(rounds[..n], b);
    }
  }

  ghost function StopOf(t: Task, s: State, rounds: seq<Round>): Option<int> {
    if Agreed(rounds, s.block, t.threshold) then Some(s.block) else None
  }

  /** Which blocks had a round: those with a stored hash from the stopping point up. */
  lemma RoundsCoverScan(t: Task, s: State, rounds: seq<Round>, b: int)
    requires Scanning(t, s, rounds) && IsOver(t, s, rounds)
    ensures Has(rounds, b) <==> Lowest(t.start, StopOf(t, s, rounds)) <= b <= t.last && t.hashOf(b) != ""
  {
    if Has(rounds, b) {
      var k :| 0 <= k < |rounds| && rounds[k].block == b;
      assert Genuine(t, rounds[k]);
    }
    if Agreed(rounds, s.block, t.threshold) {
      assert rounds[|rounds| - 1].block == s.block;
    }
  }

  /** The row of a block's round is the scan's verdict; only at the stopping point did enough hosts agree. */
  lemma ScanVerdicts(t: Task, s: State, rounds: seq<Round>, clock: int -> int, b: int)
    requires Scanning(t, s, rounds) && IsOver(t, s, rounds) && Has(rounds, b)
    ensures var w := WorldOf(t.hashOf, rounds, clock);
      && RowOf(LastAbout(rounds, b), clock) == w.Verdict(b)
      && (w.Good(b) >= t.threshold <==> StopOf(t, s, rounds) == Some(b))
  {
    var k := LastAboutIsThere(rounds, b);
    assert Genuine(t, rounds[k]);
    if b == s.block {
      OnlyTheLastIsCurrent(t, s, rounds);
      SameBlockSameRound(rounds, k, |rounds| - 1);
    }
  }

  /** One block of the scan. */
  lemma ScanOfBlock(t: Task, s: State, rounds: seq<Round>, was: seq<ConfRow>, clock: int -> int, b: int)
    requires Scanning(t, s, rounds) && IsOver(t, s, rounds)
    requires OneRowPerBlock(was) && forall c :: t.hashOf(c) != "" ==> 0 < c
    ensures var w, stop := WorldOf(t.hashOf, rounds, clock), StopOf(t, s, rounds);
      var looked := Lowest(t.start, stop) <= b <= t.last && w.Stored(b);
      && (looked ==> (w.Good(b) >= t.threshold <==> stop == Some(b)))
      && Lookup(TableAfter(was, rounds, clock), b) == if looked then Some(w.Verdict(b)) else Lookup(was, b)
  {
    forall k | 0 <= k < |rounds|
      ensures 0 < rounds[k].block
    {
      assert Genuine(t, rounds[k]);
    }
    RoundsCoverScan(t, s, rounds, b);
    RowsOfRounds(was, rounds, clock, b);
    if Has(rounds, b) {
      ScanVerdicts(t, s, rounds, clock, b);
    }
  }

  lemma StopIsScanned(t: Task, s: State, rounds: seq<Round>, clock: int -> int)
    requires Scanning(t, s, rounds) && IsOver(t, s, rounds) && StopOf(t, s, rounds).Some?
    ensures var w := WorldOf(t.hashOf, rounds, clock);
      t.start < s.block <= t.last && w.Stored(s.block) && w.Good(s.block) >= t.threshold
  {
    assert Genuine(t, rounds[|rounds| - 1]);
    assert Has(rounds, s.block);
    ScanVerdicts(t, s, rounds, clock, s.block);
  }

  /**
   In every interleaving of main, workers, checkers and timeouts, once the loop has ended the rows written
   are those of the sequential scan over the answers that main received.
   */
  lemma RunIsAScan(t: Task, run: seq<State>, actions: seq<Action>, from: nat, n: nat, was: seq<ConfRow>,
                   clock: int -> int) returns (stop: Option<int>)
    requires IsScan(t, run, actions, from, n) && IsOver(t, run[n], Rounds(run, actions, from, n))
    requires OneRowPerBlock(was) && forall b :: t.hashOf(b) != "" ==> 0 < b
    ensures var rounds := Rounds(run, actions, from, n);
      Scanned(was, TableAfter(was, rounds, clock), WorldOf(t.hashOf, rounds, clock), t.start, t.last, t.threshold, stop)
  {
    var s, rounds := run[n], Rounds(run, actions, from, n);
    ScanningAlongRun(t, run, actions, from, n);
    stop := StopOf(t, s, rounds);
    StateIsScanned(t, s, rounds, was, clock);
  }

  lemma StateIsScanned(t: Task, s: State, rounds: seq<Round>, was: seq<ConfRow>, clock: int -> int)
    requires Scanning(t, s, rounds) && IsOver(t, s, rounds)
    requires OneRowPerBlock(was) && forall b :: t.hashOf(b) != "" ==> 0 < b
    ensures Scanned(was, TableAfter(was, rounds, clock), WorldOf(t.hashOf, rounds, clock), t.start, t.last, t.threshold,
                    StopOf(t, s, rounds))
  {
    var w, stop, rows := WorldOf(t.hashOf, rounds, clock), StopOf(t, s, rounds), TableAfter(was, rounds, clock);
    forall b
      ensures Lowest(t.start, stop) <= b <= t.last && w.Stored(b) && stop != Some(b) ==> w.Good(b) < t.threshold
      ensures Lookup(rows, b) ==
        if Lowest(t.start, stop) <= b <= t.last && w.Stored(b) then Some(w.Verdict(b)) else Lookup(was, b)
    {
      ScanOfBlock(t, s, rounds, was, clock, b);
    }
    if stop.Some? {
      StopIsScanned(t, s, rounds, clock);
    }
  }

  lemma {:induction false} CloseIsARound(run: seq<State>, actions: seq<Action>, from: nat, n: nat, i: nat)
    returns (k: nat)
    requires from <= i < n <= |actions| < |run| && actions[i].Close?
    ensures k < |Rounds(run, actions, from, n)| && Rounds(run, actions, from, n)[k] == RoundOf(run[i])
    decreases n
  {
    if i == n - 1 {
      k := |Rounds(run, actions, from, n - 1)|;
    } else {
      k := CloseIsARound(run, actions, from, n - 1, i);
    }
  }

  /**
   Every row the scan leaves is the tally of its concurrent round: `good` is the number of hosts whose taken
   report was the stored hash (or whose timeout, for the hash "0"), `bad` the number of the others.
   */
  lemma RoundIsATally(t: Task, run: seq<State>, actions: seq<Action>, from: nat, n: nat, was: seq<ConfRow>,
                      clock: int -> int, i: nat)
    requires IsScan(t, run, actions, from, n) && IsOver(t, run[n], Rounds(run, actions, from, n))
    requires OneRowPerBlock(was) && forall b :: t.hashOf(b) != "" ==> 0 < b
    requires from <= i < n && actions[i].Close?
    ensures var b, confirming := run[i].block, |Confirming(run[i], actions, i)|;
      && run[i].hash == t.hashOf(b)
      && confirming <= run[i].hosts
      && Lookup(TableAfter(was, Rounds(run, actions, from, n), clock), b)
         == Some(ConfRow(b, confirming, run[i].hosts - confirming, clock(b)))
  {
    var rounds, b := Rounds(run, actions, from, n), run[i].block;
    ScanningAlongRun(t, run, actions, from, n);
    GoodCountsReports(run, actions, i);
    var k := CloseIsARound(run, actions, from, n, i);
    assert Genuine(t, rounds[k]) && Has(rounds, b);
    OneRoundPerBlock(rounds, k, b);
    forall k | 0 <= k < |rounds|
      ensures 0 < rounds[k].block
    {
      assert Genuine(t, rounds[k]);
    }
    RowsOfRounds(was, rounds, clock, b);
  }

  lemma OneRoundPerBlock(rounds: seq<Round>, k: nat, b: int)
    requires Descending(rounds) && k < |rounds| && rounds[k].block == b && Has(rounds, b)
    ensures LastAbout(rounds, b) == rounds[k]
  {
    var l := LastAboutIsThere(rounds, b);
    SameBlockSameRound(rounds, k, l);
  }

  // ----- The scan goes on, and ends

  /**
   A scan that is not over always has a step its loop allows, and one that waits for no probe to come back.
   */
  lemma ScanGoesOn(t: Task, run: seq<State>, actions: seq<Action>, from: nat, n: nat) returns (a: Action)
    requires IsScan(t, run, actions, from, n) && !IsOver(t, run[n], Rounds(run, actions, from, n))
    ensures Enabled(run[n], a) && Follows(t, run[n], Rounds(run, actions, from, n), a) && !a.Report?
  {
    var s, rounds := run[n], Rounds(run, actions, from, n);
    if !s.phase.Between? {
      a := NeverDeadlocks(run, actions, n);
    } else if t.hashOf(s.block) == "" || Probed(rounds, s.block) {
      a := Assign(s.block - 1);
    } else {
      a := Open(t.hashOf(s.block), 0);
    }
  }

  /** How many rounds main has opened. */
  ghost function Opened(actions: seq<Action>, from: nat, n: nat): nat
    requires from <= n <= |actions|
    decreases n
  {
    if n == from then 0 else Opened(actions, from, n - 1) + if actions[n - 1].Open? then 1 else 0
  }

  lemma {:induction false} OpenedIsClosedOrOpen(t: Task, run: seq<State>, actions: seq<Action>, from: nat, n: nat)
    requires IsScan(t, run, actions, from, n)
    ensures Opened(actions, from, n) == |Rounds(run, actions, from, n)| + if run[n].phase.Between? then 0 else 1
    decreases n
  {
    if from < n {
      ShorterScan(t, run, actions, from, n);
      OpenedIsClosedOrOpen(t, run, actions, from, n - 1);
      StepOfRun(run, actions, n);
    }
  }

  lemma {:induction false} DescendingFits(rounds: seq<Round>, low: int, high: int)
    requires Descending(rounds) && low <= high
    requires forall k :: 0 <= k < |rounds| ==> low < rounds[k].block <= high
    ensures |rounds| <= high - low
  {
    if rounds != [] {
      var n := |rounds| - 1;
      DescendingFits(rounds[..n], rounds[n].block, high);
    }
  }

  /** Main opens at most one round for each block of the range. */
  lemma RoundsAreFew(t: Task, run: seq<State>, actions: seq<Action>, from: nat, n: nat)
    requires IsScan(t, run, actions, from, n)
    ensures t.start < t.last ==> Opened(actions, from, n) <= t.last - t.start
    ensures t.last <= t.start ==> Opened(actions, from, n) == 0
  {
    OpenedIsClosedOrOpen(t, run, actions, from, n);
    ScanningAlongRun(t, run, actions, from, n);
    FewRounds(t, run[n], Rounds(run, actions, from, n));
  }

  lemma FewRounds(t: Task, s: State, rounds: seq<Round>)
    requires Scanning(t, s, rounds)
    ensures var count := |rounds| + if s.phase.Between? then 0 else 1;
      if t.start < t.last then count <= t.last - t.start else count == 0
  {
    forall k | 0 <= k < |rounds|
      ensures t.start < rounds[k].block <= t.last
      ensures !s.phase.Between? ==> s.block < rounds[k].block
    {
      assert Genuine(t, rounds[k]);
      assert rounds[k].block == s.block ==> Has(rounds, s.block);
    }
    assert rounds != [] ==> t.start < rounds[0].block <= t.last;
    if t.start < t.last {
      DescendingFits(rounds, if s.phase.Between? then t.start else s.block, t.last);
    }
  }

  /** Before, during and after the round of the current block. */
  function Rank(s: State, rounds: seq<Round>): nat {
    if !s.phase.Between? then 1 else if Probed(rounds, s.block) then 0 else 2
  }

  /**
   Every step of a scan lowers the block, which stays at or above the start of the range, or with the block
   kept the rank, or with both kept the bound of EveryStepCounts: no scan goes on for ever.
   */
  lemma ScanStepCounts(t: Task, s: State, rounds: seq<Round>, a: Action)
    requires Scanning(t, s, rounds) && ProbeRound.Inv(s) && Enabled(s, a) && Follows(t, s, rounds, a)
    ensures var s', rounds' := Next(s, a), if a.Close? then rounds + [RoundOf(s)] else rounds;
      || t.start <= s'.block < s.block
      || (s'.block == s.block && Rank(s', rounds') < Rank(s, rounds))
      || (s'.block == s.block && Rank(s', rounds') == Rank(s, rounds) && 0 <= Remaining(s') < Remaining(s))
  {
    if !a.Assign? && !a.Open? {
      EveryStepCounts(s, a);
    }
  }
}
