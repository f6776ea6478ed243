/**
 Reads that fall into the middle of a poll, compared with the table, and a run that shows a compaction
 breaking the order of the window.
 */
module WindowReads {
  import opened BlockTable
  import opened WindowSteps
  import opened ChainWindow

  // ----- The log in the middle of a poll

  /** m is some assignments into the poll that began in `start` with `rows`. */
  ghost predicate Within(start: Machine, rows: seq<Row>, m: Machine, address: AddressCodec)
    requires 0 < |rows|
  {
    exists k: nat :: m == After(Begin(start, rows), k, address)
  }

  /** The writer k assignments later, or where it stopped. */
  ghost function After(m: Machine, k: nat, address: AddressCodec): Machine {
    if k == 0 then m
    else
      var before := After(m, k - 1, address);
      if !before.phase.Idle? && CanTick(before) then Tick(before, address) else before
  }

  lemma {:induction false} AfterKeepsPlan(m: Machine, k: nat, address: AddressCodec)
    requires Inv(m, address)
    ensures var m' := After(m, k, address);
      Inv(m', address) && Planned(m') == Planned(m) && |Batch(m')| <= |Batch(m)|
  {
    if k > 0 {
      AfterKeepsPlan(m, k - 1, address);
      var before := After(m, k - 1, address);
      if !before.phase.Idle? {
        TickKeepsInv(before, address);
        TickKeepsPlan(before, address);
      }
    }
  }

  /** In the middle of a poll the log is what it was, with some of the fetched rows behind it, oldest first. */
  lemma LogWithinPoll(start: Machine, rows: seq<Row>, m: Machine, address: AddressCodec) returns (j: nat)
    requires 0 < |rows| && Inv(Begin(start, rows), address) && Within(start, rows, m, address)
    ensures Inv(m, address) && j == |rows| - |Batch(m)| && m.log == start.log + Reverse(rows)[..j]
  {
    var k: nat :| m == After(Begin(start, rows), k, address);
    AfterKeepsPlan(Begin(start, rows), k, address);
    j := |rows| - |Batch(m)|;
    SamePlan(m.log, Reverse(Batch(m)), start.log, Reverse(rows), j);
  }

  lemma SamePlan(a: seq<Row>, b: seq<Row>, c: seq<Row>, d: seq<Row>, j: nat)
    requires a + b == c + d && |b| + j == |d|
    ensures a == c + d[..j]
  {
    assert (a + b)[..|a|] == a && (c + d)[..|c| + j] == c + d[..j];
  }

  // ----- Against the table

  /** The query only sees what lies above the mark. */
  lemma {:induction false} SameAbove(a: seq<Row>, b: seq<Row>, s: seq<Row>, mark: int, n: nat)
    requires a != [] ==> a[|a| - 1].id <= mark
    requires b != [] ==> b[|b| - 1].id <= mark
    ensures Descend(a + s, mark, n) == Descend(b + s, mark, n)
    decreases |s|
  {
    if s == [] {
      assert a + s == a && b + s == b;
    } else {
      var s', last := s[..|s| - 1], s[|s| - 1];
      assert (a + s)[..|a + s| - 1] == a + s' && (b + s)[..|b + s| - 1] == b + s';
      if n > 0 && last.id > mark {
        SameAbove(a, b, s', mark, n - 1);
      }
    }
  }

  /** A poll that fetched `batch` from `table`, over a log that ends as the table seen before did. */
  ghost predicate IsPoll(log: seq<Row>, seen: seq<Row>, table: seq<Row>, latest: int, batch: seq<Row>) {
    && IsChain(table) && seen <= table && IsMark(seen, latest) && Increasing(log)
    && SameTail(log, seen, BATCH) && |log| <= |seen|
    && batch == Newest(table, latest, BATCH) && batch != []
  }

  /** Were there new rows the poll did not fetch? */
  ghost predicate Skipped(seen: seq<Row>, table: seq<Row>, batch: seq<Row>) {
    |seen| + |batch| < |table|
  }

  /** The log once the first j fetched rows are appended. */
  ghost function Partial(log: seq<Row>, batch: seq<Row>, j: nat): seq<Row>
    requires j <= |batch|
  {
    log + Reverse(batch)[..j]
  }

  /**
   Does an answer mix rows from before and after skipped ones? Only while fewer than PAGE of the fetched rows
   are in, and only for a mark below the newest row that was skipped.
   */
  ghost predicate Straddles(seen: seq<Row>, table: seq<Row>, batch: seq<Row>, j: nat, mark: int) {
    && Skipped(seen, table, batch) && 0 < j < PAGE
    && mark < table[|table| - |batch| - 1].id
  }

  lemma FetchedSuffix(log: seq<Row>, seen: seq<Row>, table: seq<Row>, latest: int, batch: seq<Row>)
    requires IsPoll(log, seen, table, latest, batch)
    ensures |seen| + |batch| <= |table| && |batch| <= BATCH
    ensures Reverse(batch) == table[|table| - |batch|..]
    ensures !Skipped(seen, table, batch) ==> table == seen + Reverse(batch)
  {
    var suffix := FetchedRowsAreATail(seen, table, latest, batch);
    if !Skipped(seen, table, batch) {
      assert table[|seen|..] == suffix && table[..|seen|] == seen;
    }
  }

  /** An answer that does not straddle is the query on a state the table went through. */
  lemma QuietReadIsAQuery(log: seq<Row>, seen: seq<Row>, table: seq<Row>, latest: int, batch: seq<Row>, j: nat,
                          mark: int) returns (n: nat)
    requires IsPoll(log, seen, table, latest, batch) && j <= |batch| && !Straddles(seen, table, batch, j, mark)
    ensures n <= |table| && Descend(Partial(log, batch, j), mark, PAGE) == Descend(table[..n], mark, PAGE)
  {
    FetchedSuffix(log, seen, table, latest, batch);
    var suffix := Reverse(batch);
    var front := suffix[..j];
    if j == 0 {
      n := |seen|;
      assert Partial(log, batch, j) == log && table[..n] == seen;
      TailsAgree(log, seen);
      QueryDependsOnTail(log, seen, mark, PAGE);
    } else if !Skipped(seen, table, batch) {
      n := |seen| + j;
      assert table[..n] == seen + front;
      TailsGrowTogether(log, seen, front, BATCH);
      TailsAgree(log + front, seen + front);
      QueryDependsOnTail(log + front, seen + front, mark, PAGE);
    } else {
      n := |table| - |batch| + j;
      var older := table[..|table| - |batch|];
      assert table[..n] == older + front;
      if PAGE <= j {
        OnlyFrontMatters(log, older, front, mark);
      } else {
        LogEndsBelow(log, seen, table, older);
        SameAbove(log, older, front, mark, PAGE);
      }
    }
  }

  lemma OnlyFrontMatters(a: seq<Row>, b: seq<Row>, front: seq<Row>, mark: int)
    requires PAGE <= |front|
    ensures Descend(a + front, mark, PAGE) == Descend(b + front, mark, PAGE)
  {
    assert (a + front)[|a + front| - PAGE..] == front[|front| - PAGE..] == (b + front)[|b + front| - PAGE..];
    QueryDependsOnTail(a + front, b + front, mark, PAGE);
  }

  lemma TailsAgree(a: seq<Row>, b: seq<Row>)
    requires SameTail(a, b, BATCH)
    ensures SameTail(a, b, PAGE)
  {
    if a != b {
      assert a[|a| - PAGE..] == a[|a| - BATCH..][BATCH - PAGE..];
      assert b[|b| - PAGE..] == b[|b| - BATCH..][BATCH - PAGE..];
    }
  }

  lemma LogEndsBelow(log: seq<Row>, seen: seq<Row>, table: seq<Row>, older: seq<Row>)
    requires IsChain(table) && seen <= table && older <= table && |seen| < |older|
    requires SameTail(log, seen, BATCH) && |log| <= |seen|
    ensures log != [] ==> log[|log| - 1].id < older[|older| - 1].id
  {
    if log != [] {
      LogEndsAsSeen(log, seen);
      assert seen[|seen| - 1] == table[|seen| - 1] && older[|older| - 1] == table[|older| - 1];
    }
  }

  lemma LogEndsAsSeen(log: seq<Row>, seen: seq<Row>)
    requires SameTail(log, seen, BATCH) && |log| <= |seen| && log != []
    ensures log[|log| - 1] == seen[|seen| - 1]
  {
    if log != seen {
      assert log[|log| - 1] == log[|log| - BATCH..][BATCH - 1] && seen[|seen| - 1] == seen[|seen| - BATCH..][BATCH - 1];
    }
  }

  /** A state that shows a row above the mark at depth j, where the log has an older one or none. */
  lemma DepthsDiffer(now: seq<Row>, state: seq<Row>, j: nat, mark: int)
    requires Increasing(now) && Increasing(state) && j < PAGE && j < |state| && mark < state[|state| - j - 1].id
    requires j < |now| ==> now[|now| - j - 1].id < state[|state| - j - 1].id
    ensures var a, b := Descend(now, mark, PAGE), Descend(state, mark, PAGE);
      j < |b| && (j < |a| ==> a[j].id != b[j].id)
  {
    DescendTakesTail(now, mark, PAGE);
    DescendTakesTail(state, mark, PAGE);
    EnoughAbove(state, mark, j);
  }

  /** Answers that begin alike are answers on the same state. */
  lemma FirstRowTellsState(table: seq<Row>, n: nat, k: nat, now: seq<Row>, mark: int)
    requires Increasing(table) && n <= |table| && 0 < k <= |table| && Increasing(now) && now != []
    requires now[|now| - 1] == table[k - 1] && mark < table[k - 1].id
    ensures var a, b := Descend(now, mark, PAGE), Descend(table[..n], mark, PAGE);
      a != [] && (b != [] && a[0].id == b[0].id ==> n == k)
  {
    DescendTakesTail(now, mark, PAGE);
    DescendTakesTail(table[..n], mark, PAGE);
    assert n != 0 ==> table[..n][n - 1] == table[n - 1];
  }

  lemma LastOfPartial(log: seq<Row>, fetched: seq<Row>, j: nat)
    requires 0 < j <= |fetched|
    ensures var now := log + fetched[..j];
      now[|now| - 1] == fetched[j - 1] && (j < |now| ==> log != [] && now[|now| - j - 1] == log[|log| - 1])
  {
  }

  /** The only state the answer could be from, k rows, and what stands at depth j on both sides. */
  lemma StraddleShape(log: seq<Row>, seen: seq<Row>, table: seq<Row>, older: seq<Row>, fetched: seq<Row>, j: nat)
    requires IsChain(table) && seen <= table && |seen| < |older| && table == older + fetched
    requires SameTail(log, seen, BATCH) && |log| <= |seen| && 0 < j <= |fetched|
    ensures var now, k := log + fetched[..j], |older| + j;
      && k <= |table| && table[k - j - 1] == older[|older| - 1] && older[|older| - 1].id < table[k - 1].id
      && now[|now| - 1] == table[k - 1]
      && (j < |now| ==> now[|now| - j - 1].id < table[k - j - 1].id)
  {
    LogEndsBelow(log, seen, table, older);
    LastOfPartial(log, fetched, j);
    assert table[|older| + j - 1] == fetched[j - 1];
  }

  /** A straddling answer is the query on no state of the table, not even by its ids. */
  lemma StraddlingReadIsNoQuery(log: seq<Row>, seen: seq<Row>, table: seq<Row>, latest: int, batch: seq<Row>, j: nat,
                                mark: int, n: nat)
    requires IsPoll(log, seen, table, latest, batch) && j <= |batch| && Straddles(seen, table, batch, j, mark)
    requires n <= |table| && Increasing(Partial(log, batch, j))
    ensures var a, b := Descend(Partial(log, batch, j), mark, PAGE), Descend(table[..n], mark, PAGE);
      |a| != |b| || exists i :: 0 <= i < |a| && a[i].id != b[i].id
  {
    FetchedSuffix(log, seen, table, latest, batch);
    var older := table[..|table| - |batch|];
    assert table == older + Reverse(batch);
    StraddleShape(log, seen, table, older, Reverse(batch), j);
    NoStateLike(table, Partial(log, batch, j), |older| + j, j, n, mark);
  }

  lemma NoStateLike(table: seq<Row>, now: seq<Row>, k: nat, j: nat, n: nat, mark: int)
    requires Increasing(table) && Increasing(now) && now != [] && n <= |table|
    requires j < k <= |table| && j < PAGE && mark < table[k - j - 1].id <= table[k - 1].id
    requires now[|now| - 1] == table[k - 1] && (j < |now| ==> now[|now| - j - 1].id < table[k - j - 1].id)
    ensures var a, b := Descend(now, mark, PAGE), Descend(table[..n], mark, PAGE);
      |a| != |b| || exists i :: 0 <= i < |a| && a[i].id != b[i].id
  {
    FirstRowTellsState(table, n, k, now, mark);
    if n == k {
      DepthsDiffer(now, table[..k], j, mark);
    }
  }

  /** With a row above the mark at depth j below PAGE, the answer reaches it. */
  lemma EnoughAbove(rows: seq<Row>, mark: int, j: nat)
    requires Increasing(rows) && j < PAGE && j < |rows| && mark < rows[|rows| - j - 1].id
    ensures j < |Descend(rows, mark, PAGE)|
  {
    DescendTakesTail(rows, mark, PAGE);
  }

  /**
   In the middle of a poll, between any two assignments, the answer is the query on some state the table
   went through if and only if it does not straddle skipped rows.
   */
  lemma ReadWithinPoll(start: Machine, seen: seq<Row>, table: seq<Row>, rows: seq<Row>, m: Machine, mark: int,
                       address: AddressCodec)
    requires Stands(start, seen, address) && IsChain(table) && seen <= table
    requires rows != [] && rows == Newest(table, start.latest, BATCH) && Within(start, rows, m, address)
    ensures 0 <= m.off <= |m.list| && |Batch(m)| <= |rows|
    ensures SomeStateAnswers(Walk(m.list, m.off, PAGE, mark), table, mark, address)
            <==> !Straddles(seen, table, rows, |rows| - |Batch(m)|, mark)
  {
    PollOutcome(start, seen, table, rows, address);
    var j := LogWithinPoll(start, rows, m, address);
    ReaderSeesLog(m, mark, address);
    NewestIsDescend(m.log, mark, PAGE);
    PartialAnswers(start.log, seen, table, start.latest, rows, j, mark, address);
  }

  /** The answer is the query on some state the table went through. */
  ghost predicate SomeStateAnswers(answer: seq<ChainInfo>, table: seq<Row>, mark: int, address: AddressCodec) {
    exists n :: 0 <= n <= |table| && answer == Entries(Newest(table[..n], mark, PAGE), address)
  }

  lemma PartialAnswers(log: seq<Row>, seen: seq<Row>, table: seq<Row>, latest: int, batch: seq<Row>, j: nat, mark: int,
                       address: AddressCodec)
    requires IsPoll(log, seen, table, latest, batch) && j <= |batch| && Increasing(Partial(log, batch, j))
    ensures SomeStateAnswers(Entries(Descend(Partial(log, batch, j), mark, PAGE), address), table, mark, address)
            <==> !Straddles(seen, table, batch, j, mark)
  {
    if Straddles(seen, table, batch, j, mark) {
      forall n | 0 <= n <= |table|
        ensures Entries(Descend(Partial(log, batch, j), mark, PAGE), address)
             != Entries(Newest(table[..n], mark, PAGE), address)
      {
        NoStateAnswers(log, seen, table, latest, batch, j, mark, n, address);
      }
    } else {
      var n := QuietReadIsAQuery(log, seen, table, latest, batch, j, mark);
      NewestIsDescend(table[..n], mark, PAGE);
    }
  }

  lemma NoStateAnswers(log: seq<Row>, seen: seq<Row>, table: seq<Row>, latest: int, batch: seq<Row>, j: nat, mark: int,
                       n: nat, address: AddressCodec)
    requires IsPoll(log, seen, table, latest, batch) && j <= |batch| && Straddles(seen, table, batch, j, mark)
    requires n <= |table| && Increasing(Partial(log, batch, j))
    ensures Entries(Descend(Partial(log, batch, j), mark, PAGE), address)
         != Entries(Newest(table[..n], mark, PAGE), address)
  {
    StraddlingReadIsNoQuery(log, seen, table, latest, batch, j, mark, n);
    NewestIsDescend(table[..n], mark, PAGE);
    DifferentIds(Descend(Partial(log, batch, j), mark, PAGE), Descend(table[..n], mark, PAGE), address);
  }

  lemma DifferentIds(a: seq<Row>, b: seq<Row>, address: AddressCodec)
    requires |a| != |b| || exists i :: 0 <= i < |a| && a[i].id != b[i].id
    ensures Entries(a, address) != Entries(b, address)
  {
    if |a| == |b| {
      var i :| 0 <= i < |a| && a[i].id != b[i].id;
      assert Entries(a, address)[i].id != Entries(b, address)[i].id;
    }
  }

  // ----- A compaction is reached

  function Thirty(base: nat): (rows: seq<Row>)
    ensures |rows| == BATCH && forall i :: 0 <= i < BATCH ==> rows[i].id == base + BATCH - i
  {
    seq(BATCH, i => Row(base + BATCH - i, 0, "", ""))
  }

  lemma RunExtends(run: seq<Machine>, m: Machine, address: AddressCodec)
    requires IsRun(run, address) && Step(run[|run| - 1], m, address)
    ensures IsRun(run + [m], address)
  {
    var run' := run + [m];
    forall i | 0 <= i < |run'| - 1
      ensures Step(run'[i], run'[i + 1], address)
    {
      if i < |run| - 1 {
        assert Step(run[i], run[i + 1], address);
      }
    }
  }

  lemma {:induction false} RunSettles(run: seq<Machine>, address: AddressCodec) returns (run': seq<Machine>)
    requires IsRun(run, address) && Inv(run[|run| - 1], address)
    ensures IsRun(run', address) && run'[|run'| - 1] == Settle(run[|run| - 1], address)
    decreases Remaining(run[|run| - 1])
  {
    var m := run[|run| - 1];
    if m.phase.Idle? {
      run' := run;
    } else {
      TickKeepsInv(m, address);
      RunExtends(run, Tick(m, address), address);
      run' := RunSettles(run + [Tick(m, address)], address);
    }
  }

  lemma {:induction false} AppendsGrow(m: Machine, address: AddressCodec)
    requires Inv(m, address) && (m.phase.Appending? || m.phase.Filled?)
    ensures Settle(m, address).off == m.off + |Batch(m)|
    decreases Remaining(m)
  {
    TickKeepsInv(m, address);
    if m.phase.Filled? || m.phase.batch != [] {
      AppendsGrow(Tick(m, address), address);
    }
  }

  /** Where a poll leaves the offset: a compaction happens exactly when the rows would pass the last slot. */
  lemma OffsetAfterPoll(m: Machine, rows: seq<Row>, address: AddressCodec)
    requires Inv(m, address) && m.phase.Idle? && IsBatch(rows, m.latest)
    ensures Inv(Begin(m, rows), address)
    ensures var end := Settle(Begin(m, rows), address);
      && end.off == (if m.off + |rows| <= 100 then m.off + |rows| else 50 + |rows|)
      && end.latest == rows[0].id
  {
    var begun := Begin(m, rows);
    BeginKeepsInv(m, rows, address);
    SettleAppendsBatch(begun, address);
    if begun.phase.Copying? {
      CompactionSettlesAlike(begun, address);
      AppendsGrow(Compacted(begun), address);
    } else {
      AppendsGrow(begun, address);
    }
  }

  /** One more poll of thirty rows that still fits. */
  lemma PollThirty(run: seq<Machine>, address: AddressCodec) returns (run': seq<Machine>)
    requires IsRun(run, address)
    requires var m := run[|run| - 1]; m.phase.Idle? && 0 <= m.latest && m.off + BATCH <= LIMIT
    ensures IsRun(run', address)
    ensures var m, m' := run[|run| - 1], run'[|run'| - 1];
      m'.phase.Idle? && m'.latest == m.latest + BATCH && m'.off == m.off + BATCH
  {
    var m := run[|run| - 1];
    var begun := Begin(m, Thirty(m.latest));
    InvAlongRun(run, |run| - 1, address);
    BeginKeepsInv(m, Thirty(m.latest), address);
    RunExtends(run, begun, address);
    run' := RunSettles(run + [begun], address);
    AppendsGrow(begun, address);
    SettleAppendsBatch(begun, address);
  }

  /** Four polls of thirty rows: the first copy of the fourth breaks the order of the ids below the offset. */
  lemma CompactionIsReached(address: AddressCodec) returns (run: seq<Machine>)
    ensures IsRun(run, address)
    ensures var m := run[|run| - 1]; 0 <= m.off <= |m.list| && !IdsIncrease(m.list, m.off)
  {
    run := [Initial()];
    run := PollThirty(run, address);
    run := PollThirty(run, address);
    run := PollThirty(run, address);
    var m := run[|run| - 1];
    assert m.off == 90 && m.latest == 90;
    var begun := Begin(m, Thirty(90));
    RunExtends(run, begun, address);
    run := run + [begun];
    InvAlongRun(run, |run| - 1, address);
    TickKeepsInv(begun, address);
    RunExtends(run, Tick(begun, address), address);
    run := run + [Tick(begun, address)];
    IdsIncreaseBelowOffset(run, |run| - 1, address);
  }

  // ----- A straddling read is reached

  function FirstRows(n: nat): (rows: seq<Row>)
    ensures |rows| == n && forall i :: 0 <= i < n ==> rows[i].id == i + 1
  {
    seq(n, i => Row(i + 1, 0, "", ""))
  }

  lemma FirstPollFetchesThirty()
    ensures IsChain(FirstRows(31)) && |Newest(FirstRows(31), 0, BATCH)| == BATCH
  {
    NewestIsDescend(FirstRows(31), 0, BATCH);
    DescendTakesTail(FirstRows(31), 0, BATCH);
  }

  lemma InitialStandsForNothing(address: AddressCodec)
    ensures Stands(Initial(), [], address)
  {
    InvHoldsInitially(address);
  }

  /** Two assignments into a poll that needs no compaction, one row is in. */
  lemma OneRowIn(start: Machine, rows: seq<Row>, address: AddressCodec)
    requires start.phase.Idle? && |rows| == BATCH && start.off == 0 && |start.list| == LIMIT
    ensures Within(start, rows, After(Begin(start, rows), 2, address), address)
    ensures |Batch(After(Begin(start, rows), 2, address))| == BATCH - 1
  {
    var begun := Begin(start, rows);
    assert After(begun, 0, address) == begun;
    assert After(begun, 1, address) == Tick(begun, address);
    assert After(begun, 2, address) == Tick(Tick(begun, address), address);
  }

  /**
   The first poll of a node with 31 blocks, when one row is in: the answer from the start is the query on no
   state of the table.
   */
  lemma StraddlingReadIsReached(address: AddressCodec) returns (m: Machine)
    ensures var table := FirstRows(31);
      var rows := Newest(table, 0, BATCH);
      && Stands(Initial(), [], address) && IsChain(table) && rows != []
      && Within(Initial(), rows, m, address)
      && 0 <= m.off <= |m.list| && !SomeStateAnswers(Walk(m.list, m.off, PAGE, 0), table, 0, address)
  {
    var table := FirstRows(31);
    var rows := Newest(table, 0, BATCH);
    FirstPollFetchesThirty();
    InitialStandsForNothing(address);
    OneRowIn(Initial(), rows, address);
    m := After(Begin(Initial(), rows), 2, address);
    assert Straddles([], table, rows, 1, 0);
    ReadWithinPoll(Initial(), [], table, rows, m, 0, address);
  }
}
