/** The detector behind "need_reload": has the node been stuck at one block for too long? */
module StallDetector {
  /** One call: the clock, the block it sees and that block's time. */
  datatype Call = Call(now: int, block: int, time: int)

  /** The three package variables; start is 0 before the first call. */
  datatype Tracker = Tracker(start: int, block: int, since: int)

  /** What the database reports: the current block, and the time of the last one collected. */
  datatype Report = Report(block: int, time: int, lastTime: int)

  /** A node that is less than twelve hours behind and has almost all blocks reports -1 for both. */
  function Seen(now: int, report: Report, test: bool): Call {
    var wTime, wReady := if test then 63072000 else 12, if test then 63072000 else 1;
    if now - report.time < 3600 * wTime && now - report.lastTime < 600 * wReady then Call(now, -1, -1)
    else Call(now, report.block, report.time)
  }

  function Step(s: Tracker, c: Call): Tracker {
    if s.start == 0 then Tracker(c.now, c.block, c.now)
    else if c.now - s.start > 300 && s.block != c.block then Tracker(s.start, c.block, c.now)
    else s
  }

  predicate Raises(s: Tracker, c: Call) {
    && s.start != 0 && c.now - s.start > 300
    && s.block == c.block && c.now - s.since > 60 && c.now - c.time > 3600
  }

  class Detector {
    var timeSynchro: int
    var lastSBlock: int
    var lastSTime: int

    function State(): Tracker
      reads this
    {
      Tracker(timeSynchro, lastSBlock, lastSTime)
    }

    constructor ()
      ensures State() == Tracker(0, 0, 0)
    {
      timeSynchro, lastSBlock, lastSTime := 0, 0, 0;
    }

    method Synchronize(now: int, report: Report, test: bool) returns (needReload: bool)
      modifies this
      ensures State() == Step(old(State()), Seen(now, report, test))
      ensures needReload == Raises(old(State()), Seen(now, report, test))
      ensures old(timeSynchro) == 0 ==> !needReload
    {
      var iBlock, blockTime := report.block, report.time;
      var wTime, wReady := 12, 1;
      if test { wTime, wReady := 63072000, 63072000; }
      if now - report.time < 3600 * wTime {
        if now - report.lastTime < 600 * wReady {
          iBlock, blockTime := -1, -1;
        }
      }
      needReload := false;
      if timeSynchro == 0 {
        timeSynchro, lastSBlock, lastSTime := now, iBlock, now;
      } else if now - timeSynchro > 300 {
        if lastSBlock != iBlock {
          lastSBlock, lastSTime := iBlock, now;
        } else if now - lastSTime > 60 {
          if now - blockTime > 3600 {
            needReload := true;
          }
        }
      }
    }
  }

  /**
   The block a call sees is hidden exactly when it is less than twelve hours and the last one collected less
   than ten minutes old; in test mode the limits are 7200 and 1200 years of 365 days.
   */
  lemma HiddenExactly(now: int, report: Report, test: bool)
    requires report.block != -1
    ensures var c, hour, year := Seen(now, report, test), 60 * 60, 365 * 24 * 60 * 60;
      && c.now == now
      && (!test ==> (c.block == -1 <==> now - report.time < 12 * hour && now - report.lastTime < 10 * 60))
      && (test ==> (c.block == -1 <==> now - report.time < 7200 * year && now - report.lastTime < 1200 * year))
      && (c.block == -1 ==> c.time == -1)
      && (c.block != -1 ==> c.block == report.block && c.time == report.time)
  {
  }

  // ----- Whole runs

  ghost function After(calls: seq<Call>): Tracker {
    if calls == [] then Tracker(0, 0, 0) else Step(After(calls[..|calls| - 1]), calls[|calls| - 1])
  }

  /** The clock shows a positive time and does not go back. */
  ghost predicate Clock(calls: seq<Call>) {
    forall i, j :: 0 <= i <= j < |calls| ==> 0 < calls[i].now <= calls[j].now
  }

  predicate Warm(calls: seq<Call>, k: nat)
    requires k < |calls|
  {
    calls[k].now - calls[0].now > 300
  }

  /** From call k on, every call past the warm-up sees call k's block. */
  ghost predicate Steady(calls: seq<Call>, k: nat)
    requires k < |calls|
  {
    && (k == 0 || Warm(calls, k))
    && forall j :: k < j < |calls| && Warm(calls, j) ==> calls[j].block == calls[k].block
  }

  /** The call that last changed the tracked block. */
  ghost function Reset(calls: seq<Call>): (r: nat)
    requires calls != []
    ensures r < |calls|
    decreases |calls|
  {
    var n := |calls| - 1;
    if n == 0 then 0
    else
      var r := Reset(calls[..n]);
      if Warm(calls, n) && calls[r].block != calls[n].block then n else r
  }

  lemma {:induction false} TrackerIsReset(calls: seq<Call>)
    requires calls != [] && Clock(calls)
    ensures var r := Reset(calls); After(calls) == Tracker(calls[0].now, calls[r].block, calls[r].now)
    ensures Steady(calls, Reset(calls))
    decreases |calls|
  {
    var n := |calls| - 1;
    if n > 0 {
      var before := calls[..n];
      TrackerIsReset(before);
      assert forall j :: 0 <= j < n && Warm(calls, j) ==> Warm(before, j);
    } else {
      assert After(calls[..0]) == Tracker(0, 0, 0);
    }
  }

  lemma {:induction false} SteadySinceReset(calls: seq<Call>, k: nat)
    requires k < |calls| && Steady(calls, k)
    ensures Reset(calls) <= k && calls[Reset(calls)].block == calls[k].block
    decreases |calls|
  {
    var n := |calls| - 1;
    if k < n {
      var before := calls[..n];
      assert forall j :: 0 <= j < n && Warm(before, j) ==> Warm(calls, j);
      SteadySinceReset(before, k);
    }
  }

  /**
   After any earlier calls, over any blocks, the flag is raised exactly when the warm-up is over, the
   block seen is more than an hour old, and the node has been steady since some call over 60 seconds ago.
   */
  lemma RaisedExactlyWhenStuck(calls: seq<Call>, c: Call)
    requires calls != [] && Clock(calls + [c])
    ensures Raises(After(calls), c) <==>
      && c.now - calls[0].now > 300 && c.now - c.time > 3600
      && exists k :: 0 <= k < |calls| && Steady(calls + [c], k) && c.now - calls[k].now > 60
  {
    var all := calls + [c];
    assert Clock(calls) by {
      forall i, j | 0 <= i <= j < |calls| ensures 0 < calls[i].now <= calls[j].now {
        assert all[i] == calls[i] && all[j] == calls[j];
      }
    }
    TrackerIsReset(calls);
    var r := Reset(calls);
    if Raises(After(calls), c) {
      SteadyExtends(calls, c, r);
    }
    if c.now - calls[0].now > 300 {
      forall k | 0 <= k < |calls| && Steady(all, k) && c.now - calls[k].now > 60
        ensures calls[r].block == c.block && c.now - calls[r].now > 60
      {
        SteadyBefore(calls, c, k);
        SteadySinceReset(calls, k);
        assert all[r] == calls[r] && all[k] == calls[k];
      }
    }
  }

  lemma SteadyExtends(calls: seq<Call>, c: Call, k: nat)
    requires k < |calls| && Steady(calls, k) && calls[k].block == c.block
    ensures Steady(calls + [c], k)
  {
    var all := calls + [c];
    forall j | k < j < |all| && Warm(all, j) ensures all[j].block == all[k].block {
      if j < |calls| {
        assert Warm(calls, j);
      }
    }
  }

  lemma SteadyBefore(calls: seq<Call>, c: Call, k: nat)
    requires k < |calls| && Steady(calls + [c], k)
    ensures Steady(calls, k)
    ensures c.now - calls[0].now > 300 ==> c.block == calls[k].block
  {
    var all := calls + [c];
    assert all[|calls|] == c && all[0] == calls[0];
    if c.now - calls[0].now > 300 {
      assert Warm(all, |calls|);
    }
    forall j | k < j < |calls| && Warm(calls, j) ensures calls[j].block == calls[k].block {
      assert Warm(all, j) && all[j] == calls[j];
    }
  }

  /** When blocks never go back either, steady means that every call since k saw the same block. */
  lemma SteadyMeansUnchanged(calls: seq<Call>, c: Call, k: nat)
    requires calls != [] && Clock(calls + [c]) && c.now - calls[0].now > 300
    requires forall i, j :: 0 <= i <= j <= |calls| ==> (calls + [c])[i].block <= (calls + [c])[j].block
    requires k < |calls| && (k == 0 || Warm(calls, k))
    ensures Steady(calls + [c], k) <==> forall j :: k <= j <= |calls| ==> (calls + [c])[j].block == c.block
  {
    var all := calls + [c];
    assert all[|calls|] == c && Warm(all, |calls|);
  }

  /**
   A node that has almost all blocks is told to reload as soon as it has been seen so for over 60 seconds
   past the warm-up: the age of -1 is never below an hour.
   */
  lemma CaughtUpNodeIsTold(calls: seq<Call>, now: int, report: Report, test: bool)
    requires Seen(now, report, test).block == -1 == Seen(now, report, test).time && 3600 <= now
    requires calls != [] && Clock(calls + [Seen(now, report, test)])
    ensures Raises(After(calls), Seen(now, report, test)) <==>
      now - calls[0].now > 300
      && exists k :: 0 <= k < |calls| && Steady(calls + [Seen(now, report, test)], k) && now - calls[k].now > 60
  {
    RaisedExactlyWhenStuck(calls, Seen(now, report, test));
  }

  /** Two calls, five minutes apart, of a node whose last block is seconds old. */
  lemma CaughtUpNodeIsToldOnce()
    ensures var first, second := Report(7, 9990, 9990), Report(8, 10300, 10300);
      Raises(After([Seen(10000, first, false)]), Seen(10301, second, false))
  {
    assert After([]) == Tracker(0, 0, 0);
    assert [Seen(10000, Report(7, 9990, 9990), false)][..0] == [];
  }
}
