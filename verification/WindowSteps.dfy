/**
 The writer of the block window cut into its single assignments, so that a reader can be
 placed between any two of them.
 */
module WindowSteps {
  import opened BlockTable

  const LIMIT := 100  // slots in the window
  const KEEP := 50    // entries kept by a compaction
  const BATCH := 30   // rows a poll asks for
  const PAGE := 10    // entries a reader gets

  /** Where the writer stands; `batch` holds the polled rows, newest first, still to be appended. */
  datatype Phase =
    | Idle
    | Copying(i: nat, batch: seq<Row>)  // i slots already moved down
    | Appending(batch: seq<Row>)
    | Filled(batch: seq<Row>)           // slot written, offset not yet advanced

  /** `log` is every row whose append is complete, oldest first. */
  datatype Machine = Machine(list: seq<ChainInfo>, off: int, latest: int, phase: Phase, log: seq<Row>)

  // ----- The reader: the backward walk of UpdateChain

  function Walk(list: seq<ChainInfo>, off: int, n: nat, latest: int): seq<ChainInfo>
    requires off <= |list|
    decreases off
  {
    if off <= 0 || n == 0 || list[off - 1].id <= latest then []
    else [list[off - 1]] + Walk(list, off - 1, n - 1, latest)
  }

  /** The last n rows of the log, or the whole log, stand right below the offset. */
  ghost predicate Shows(list: seq<ChainInfo>, off: int, log: seq<Row>, n: nat, address: AddressCodec) {
    && 0 <= off <= |list| && off <= |log|
    && (n <= off || off == |log|)
    && forall j :: 0 <= j < off && off - n <= j ==> list[j] == Entry(log[|log| - off + j], address)
  }

  lemma ShowsOlder(list: seq<ChainInfo>, off: int, log: seq<Row>, n: nat, address: AddressCodec)
    requires Shows(list, off, log, n, address) && 0 < off && 0 < n
    ensures list[off - 1] == Entry(log[|log| - 1], address)
    ensures Shows(list, off - 1, log[..|log| - 1], n - 1, address)
  {
  }

  lemma {:induction false} WalkIsDescend(list: seq<ChainInfo>, off: int, log: seq<Row>, n: nat, latest: int,
                                       address: AddressCodec)
    requires Increasing(log) && Shows(list, off, log, n, address)
    ensures Walk(list, off, n, latest) == Entries(Descend(log, latest, n), address)
    decreases off
  {
    if off > 0 && n > 0 {
      ShowsOlder(list, off, log, n, address);
      if log[|log| - 1].id > latest {
        var older := log[..|log| - 1];
        WalkIsDescend(list, off - 1, older, n - 1, latest, address);
        EntriesCons(log[|log| - 1], Descend(older, latest, n - 1), address);
      }
    }
  }

  /** The walk over the slots is the query over the log. */
  lemma WalkIsQuery(list: seq<ChainInfo>, off: int, log: seq<Row>, n: nat, latest: int, address: AddressCodec)
    requires Increasing(log) && Shows(list, off, log, n, address)
    ensures Walk(list, off, n, latest) == Entries(Newest(log, latest, n), address)
  {
    WalkIsDescend(list, off, log, n, latest, address);
    NewestIsDescend(log, latest, n);
  }

  // ----- The writer

  ghost predicate Decreasing(batch: seq<Row>) {
    forall i, j :: 0 <= i < j < |batch| ==> batch[j].id < batch[i].id
  }

  /** Rows a poll may return: newest first, all above the high-water mark, at most BATCH. */
  ghost predicate IsBatch(batch: seq<Row>, latest: int) {
    0 < |batch| <= BATCH && Decreasing(batch) && latest < batch[|batch| - 1].id
  }

  /** The poll has its rows: move the mark, and compact first when they would not fit. */
  function Begin(m: Machine, batch: seq<Row>): Machine
    requires 0 < |batch|
  {
    m.(latest := batch[0].id,
       phase := if m.off + |batch| > LIMIT then Copying(0, batch) else Appending(batch))
  }

  ghost predicate CanTick(m: Machine) {
    match m.phase
    case Idle => false
    case Copying(i, _) => i < KEEP ==> 0 <= m.off - KEEP + i < |m.list| && i < |m.list|
    case Appending(batch) => batch == [] || 0 <= m.off < |m.list|
    case Filled(batch) => batch != []
  }

  /** The next single assignment of the writer. */
  function Tick(m: Machine, address: AddressCodec): Machine
    requires CanTick(m)
  {
    match m.phase
    case Copying(i, batch) =>
      if i < KEEP then m.(list := m.list[i := m.list[m.off - KEEP + i]], phase := Copying(i + 1, batch))
      else m.(off := KEEP, phase := Appending(batch))
    case Appending(batch) =>
      if batch == [] then m.(phase := Idle)
      else m.(list := m.list[m.off := Entry(batch[|batch| - 1], address)], phase := Filled(batch))
    case Filled(batch) =>
      m.(off := m.off + 1, log := m.log + [batch[|batch| - 1]], phase := Appending(batch[..|batch| - 1]))
  }

  const BLANK := ChainInfo(0, "", "", "")

  /** The package variables before the first poll. */
  function Initial(): Machine {
    Machine(seq(LIMIT, _ => BLANK), 0, 0, Idle, [])
  }

  /** Slots [from, off) hold the log's tail, and only a compaction or a short log makes off smaller than the log. */
  ghost predicate Window(list: seq<ChainInfo>, off: int, log: seq<Row>, from: nat, address: AddressCodec) {
    && 0 <= off <= |list| == LIMIT && off <= |log|
    && (off == |log| || KEEP <= off)
    && forall j :: from <= j < off ==> list[j] == Entry(log[|log| - off + j], address)
  }

  /** What is polled but not appended continues the log, up to the high-water mark. */
  ghost predicate Pending(log: seq<Row>, batch: seq<Row>, latest: int) {
    && Increasing(log) && Decreasing(batch) && |batch| <= BATCH
    && (log != [] && batch != [] ==> log[|log| - 1].id < batch[|batch| - 1].id)
    && latest == if batch != [] then batch[0].id else if log != [] then log[|log| - 1].id else 0
  }

  ghost predicate Inv(m: Machine, address: AddressCodec) {
    match m.phase
    case Idle => Window(m.list, m.off, m.log, 0, address) && Pending(m.log, [], m.latest)
    case Copying(i, batch) =>
      && i <= KEEP && LIMIT < m.off + |batch|
      && Window(m.list, m.off, m.log, i, address) && Pending(m.log, batch, m.latest)
      && Moved(m.list, m.log, i, address)
    case Appending(batch) =>
      && m.off + |batch| <= LIMIT
      && Window(m.list, m.off, m.log, 0, address) && Pending(m.log, batch, m.latest)
    case Filled(batch) =>
      && batch != [] && m.off + |batch| <= LIMIT
      && Window(m.list, m.off, m.log, 0, address) && Pending(m.log, batch, m.latest)
      && m.list[m.off] == Entry(batch[|batch| - 1], address)
  }

  lemma InvHoldsInitially(address: AddressCodec)
    ensures Inv(Initial(), address)
  {
  }

  lemma BeginKeepsInv(m: Machine, batch: seq<Row>, address: AddressCodec)
    requires Inv(m, address) && m.phase.Idle? && IsBatch(batch, m.latest)
    ensures Inv(Begin(m, batch), address)
  {
  }

  lemma WindowShrinks(list: seq<ChainInfo>, off: int, log: seq<Row>, i: nat, x: ChainInfo, address: AddressCodec)
    requires Window(list, off, log, i, address) && i < off
    ensures Window(list[i := x], off, log, i + 1, address)
  {
  }

  /** The first i slots hold the log's last KEEP rows, as far as they go. */
  ghost predicate Moved(list: seq<ChainInfo>, log: seq<Row>, i: nat, address: AddressCodec)
    requires i <= KEEP <= |log| && i <= |list|
  {
    forall j :: 0 <= j < i ==> list[j] == Entry(log[|log| - KEEP + j], address)
  }

  lemma MovedGrows(list: seq<ChainInfo>, log: seq<Row>, i: nat, address: AddressCodec)
    requires i < KEEP <= |log| && i < |list| && Moved(list, log, i, address)
    ensures Moved(list[i := Entry(log[|log| - KEEP + i], address)], log, i + 1, address)
  {
  }

  lemma CopyKeepsInv(m: Machine, address: AddressCodec)
    requires Inv(m, address) && m.phase.Copying? && m.phase.i < KEEP
    ensures CanTick(m) && Inv(Tick(m, address), address)
  {
    // The source slot lies above every slot written so far.
    var i := m.phase.i;
    var x := m.list[m.off - KEEP + i];
    assert x == Entry(m.log[|m.log| - KEEP + i], address);
    WindowShrinks(m.list, m.off, m.log, i, x, address);
    MovedGrows(m.list, m.log, i, address);
  }

  lemma ResetKeepsInv(m: Machine, address: AddressCodec)
    requires Inv(m, address) && m.phase.Copying? && m.phase.i == KEEP
    ensures CanTick(m) && Inv(Tick(m, address), address)
  {
  }

  lemma WriteKeepsInv(m: Machine, address: AddressCodec)
    requires Inv(m, address) && m.phase.Appending?
    ensures CanTick(m) && Inv(Tick(m, address), address)
  {
  }

  lemma WindowGrows(list: seq<ChainInfo>, off: int, log: seq<Row>, row: Row, address: AddressCodec)
    requires Window(list, off, log, 0, address) && off < LIMIT && list[off] == Entry(row, address)
    ensures Window(list, off + 1, log + [row], 0, address)
  {
  }

  lemma AdvanceKeepsInv(m: Machine, address: AddressCodec)
    requires Inv(m, address) && m.phase.Filled?
    ensures CanTick(m) && Inv(Tick(m, address), address)
  {
    WindowGrows(m.list, m.off, m.log, m.phase.batch[|m.phase.batch| - 1], address);
  }

  /** Every single assignment keeps the invariant: in particular no index is out of bounds. */
  lemma TickKeepsInv(m: Machine, address: AddressCodec)
    requires Inv(m, address) && !m.phase.Idle?
    ensures CanTick(m) && Inv(Tick(m, address), address)
  {
    match m.phase
    case Copying(i, _) => if i < KEEP { CopyKeepsInv(m, address); } else { ResetKeepsInv(m, address); }
    case Appending(_) => WriteKeepsInv(m, address);
    case Filled(_) => AdvanceKeepsInv(m, address);
  }

  /** Whatever the writer is in the middle of, a reader sees the newest PAGE entries of the log. */
  lemma ReaderSeesLog(m: Machine, latest: int, address: AddressCodec)
    requires Inv(m, address)
    ensures 0 <= m.off <= |m.list|
    ensures Walk(m.list, m.off, PAGE, latest) == Entries(Newest(m.log, latest, PAGE), address)
  {
    assert Shows(m.list, m.off, m.log, PAGE, address);
    WalkIsQuery(m.list, m.off, m.log, PAGE, latest, address);
  }

  // ----- Runs

  ghost predicate Step(m: Machine, m': Machine, address: AddressCodec) {
    if m.phase.Idle? then exists batch :: IsBatch(batch, m.latest) && m' == Begin(m, batch)
    else CanTick(m) && m' == Tick(m, address)
  }

  ghost predicate IsRun(run: seq<Machine>, address: AddressCodec) {
    && 0 < |run| && run[0] == Initial()
    && forall i :: 0 <= i < |run| - 1 ==> Step(run[i], run[i + 1], address)
  }

  lemma {:induction false} InvAlongRun(run: seq<Machine>, n: nat, address: AddressCodec)
    requires IsRun(run, address) && n < |run|
    ensures Inv(run[n], address)
  {
    if n == 0 {
      InvHoldsInitially(address);
    } else {
      InvAlongRun(run, n - 1, address);
      assert Step(run[n - 1], run[n], address);
      if run[n - 1].phase.Idle? {
        var batch :| IsBatch(batch, run[n - 1].latest) && run[n] == Begin(run[n - 1], batch);
        BeginKeepsInv(run[n - 1], batch, address);
      } else {
        TickKeepsInv(run[n - 1], address);
      }
    }
  }

  /**
   Main result: at every point of every run, between any two assignments of the writer, an atomic
   reader gets exactly the newest at most ten entries above its mark among those appended so far;
   the offset stays within the window and the published ids are strictly increasing.
   */
  lemma EveryReadIsTheQuery(run: seq<Machine>, n: nat, latest: int, address: AddressCodec)
    requires IsRun(run, address) && n < |run|
    ensures 0 <= run[n].off <= 100 == |run[n].list| && Increasing(run[n].log)
    ensures Walk(run[n].list, run[n].off, 10, latest) == Entries(Newest(run[n].log, latest, 10), address)
    ensures NewestTen(Walk(run[n].list, run[n].off, 10, latest), run[n].log, latest, address)
  {
    InvAlongRun(run, n, address);
    ReaderSeesLog(run[n], latest, address);
    QueryIsNewestTen(run[n].log, latest, address);
  }

  ghost predicate IdsIncrease(list: seq<ChainInfo>, off: int)
    requires off <= |list|
  {
    forall i, j :: 0 <= i < j < off ==> list[i].id < list[j].id
  }

  /** The ids below the offset are strictly increasing, except from a compaction's first copy to its end. */
  lemma IdsIncreaseBelowOffset(run: seq<Machine>, n: nat, address: AddressCodec)
    requires IsRun(run, address) && n < |run|
    ensures run[n].off <= |run[n].list|
    ensures IdsIncrease(run[n].list, run[n].off) <==> !(run[n].phase.Copying? && 0 < run[n].phase.i)
  {
    InvAlongRun(run, n, address);
    if run[n].phase.Copying? && 0 < run[n].phase.i {
      CopyBreaksOrder(run[n], address);
    }
  }

  lemma CopyBreaksOrder(m: Machine, address: AddressCodec)
    requires Inv(m, address) && m.phase.Copying? && 0 < m.phase.i
    ensures !IdsIncrease(m.list, m.off)
  {
    var i := m.phase.i;
    assert m.list[i - 1] == Entry(m.log[|m.log| - KEEP + i - 1], address);
    assert m.list[i] == Entry(m.log[|m.log| - m.off + i], address);
  }

  // ----- A whole poll is the writer's assignments run to the end

  function Remaining(m: Machine): nat {
    match m.phase
    case Idle => 0
    case Copying(i, batch) => (if i < KEEP then KEEP - i else 0) + 2 * |batch| + 2
    case Appending(batch) => 2 * |batch| + 1
    case Filled(batch) => 2 * |batch|
  }

  ghost function Settle(m: Machine, address: AddressCodec): (m': Machine)
    requires Inv(m, address)
    ensures m'.phase.Idle? && Inv(m', address)
    decreases Remaining(m)
  {
    if m.phase.Idle? then m
    else
      TickKeepsInv(m, address);
      Settle(Tick(m, address), address)
  }

  lemma TickSettlesAlike(m: Machine, end: Machine, address: AddressCodec)
    requires Inv(m, address) && !m.phase.Idle? && end == Settle(m, address)
    ensures CanTick(m) && Inv(Tick(m, address), address) && end == Settle(Tick(m, address), address)
  {
    TickKeepsInv(m, address);
  }

  /** Slot write and offset advance together: one row moves from the batch to the log. */
  ghost function Appended(m: Machine, address: AddressCodec): Machine
    requires m.phase.Appending? && m.phase.batch != [] && 0 <= m.off < |m.list|
  {
    var batch := m.phase.batch;
    var row := batch[|batch| - 1];
    m.(list := m.list[m.off := Entry(row, address)], off := m.off + 1, log := m.log + [row],
       phase := Appending(batch[..|batch| - 1]))
  }

  lemma TwoTicksAppend(m: Machine, address: AddressCodec)
    requires m.phase.Appending? && m.phase.batch != [] && 0 <= m.off < |m.list|
    ensures CanTick(m) && CanTick(Tick(m, address)) && Tick(Tick(m, address), address) == Appended(m, address)
  {
  }

  lemma AppendSettlesAlike(m: Machine, end: Machine, address: AddressCodec)
    requires Inv(m, address) && m.phase.Appending? && m.phase.batch != [] && end == Settle(m, address)
    ensures Inv(Appended(m, address), address) && end == Settle(Appended(m, address), address)
  {
    TickSettlesAlike(m, end, address);
    TickSettlesAlike(Tick(m, address), end, address);
    TwoTicksAppend(m, address);
  }

  /** A list after its first i slots were overwritten by what stood KEEP below the offset. */
  ghost function Shifted<T>(list: seq<T>, off: int, i: nat): (shifted: seq<T>)
    requires i <= KEEP <= off <= |list|
  {
    seq(|list|, j requires 0 <= j < |list| => if j < i then list[off - KEEP + j] else list[j])
  }

  /** The writer after i copies, in one piece. */
  ghost function Copied(m: Machine, i: nat): Machine
    requires m.phase.Copying? && i <= KEEP <= m.off <= |m.list|
  {
    m.(list := Shifted(m.list, m.off, i), phase := Copying(i, m.phase.batch))
  }

  /** Copy by copy, although source and destination overlap, the writer goes through these states. */
  lemma CopyReachesNext(m: Machine, i: nat, address: AddressCodec)
    requires m.phase.Copying? && i < KEEP <= m.off <= |m.list|
    ensures CanTick(Copied(m, i)) && Tick(Copied(m, i), address) == Copied(m, i + 1)
  {
    assert Copied(m, i).list[m.off - KEEP + i] == m.list[m.off - KEEP + i];
    assert Tick(Copied(m, i), address).list == Copied(m, i + 1).list;
  }

  lemma CopiedFromStart(m: Machine)
    requires m.phase.Copying? && m.phase.i == 0 && KEEP <= m.off <= |m.list|
    ensures Copied(m, 0) == m
  {
    assert Copied(m, 0).list == m.list;
  }

  ghost predicate SettlesTo(m: Machine, end: Machine, address: AddressCodec) {
    Inv(m, address) && Settle(m, address) == end
  }

  lemma CopySettlesAlike(m: Machine, i: nat, end: Machine, address: AddressCodec)
    requires m.phase.Copying? && i < KEEP <= m.off <= |m.list|
    requires SettlesTo(Copied(m, i), end, address)
    ensures SettlesTo(Copied(m, i + 1), end, address)
  {
    CopyReachesNext(m, i, address);
    TickSettlesAlike(Copied(m, i), end, address);
  }

  ghost predicate Rises(holds: nat -> bool, i: nat) {
    holds(i) ==> holds(i + 1)
  }

  lemma {:induction false} RisesTo(holds: nat -> bool, n: nat)
    requires holds(0) && forall i :: 0 <= i < n ==> Rises(holds, i)
    ensures holds(n)
  {
    if 0 < n {
      RisesTo(holds, n - 1);
      assert Rises(holds, n - 1);
    }
  }

  lemma CopiesSettleAlike(m: Machine, end: Machine, address: AddressCodec)
    requires m.phase.Copying? && KEEP <= m.off <= |m.list|
    requires SettlesTo(Copied(m, 0), end, address)
    ensures SettlesTo(Copied(m, KEEP), end, address)
  {
    var holds := (i: nat) => i <= KEEP && SettlesTo(Copied(m, i), end, address);
    forall i | 0 <= i < KEEP
      ensures Rises(holds, i)
    {
      if holds(i) {
        CopySettlesAlike(m, i, end, address);
      }
    }
    RisesTo(holds, KEEP);
  }

  /** The writer once the compaction is over. */
  ghost function Compacted(m: Machine): Machine
    requires m.phase.Copying? && KEEP <= m.off <= |m.list|
  {
    m.(list := Shifted(m.list, m.off, KEEP), off := KEEP, phase := Appending(m.phase.batch))
  }

  lemma CompactionSettlesAlike(m: Machine, address: AddressCodec)
    requires Inv(m, address) && m.phase.Copying? && m.phase.i == 0
    ensures Inv(Compacted(m), address) && Settle(m, address) == Settle(Compacted(m), address)
  {
    CopiedFromStart(m);
    CopiesSettleAlike(m, Settle(m, address), address);
    TickSettlesAlike(Copied(m, KEEP), Settle(m, address), address);
    assert Tick(Copied(m, KEEP), address) == Compacted(m);
  }

  function Batch(m: Machine): seq<Row> {
    match m.phase
    case Idle => []
    case Copying(_, batch) => batch
    case Appending(batch) => batch
    case Filled(batch) => batch
  }

  /** What the log will be when the poll is over. */
  function Planned(m: Machine): seq<Row> {
    m.log + Reverse(Batch(m))
  }

  lemma TickKeepsPlan(m: Machine, address: AddressCodec)
    requires CanTick(m)
    ensures Planned(Tick(m, address)) == Planned(m) && |Batch(Tick(m, address))| <= |Batch(m)|
  {
    if m.phase.Filled? {
      ReverseSnocLeft(m.phase.batch);
    }
  }

  /** A finished poll has appended its whole batch in order and moved nothing else in the log. */
  lemma {:induction false} SettleAppendsBatch(m: Machine, address: AddressCodec)
    requires Inv(m, address)
    ensures Settle(m, address).log == Planned(m) && Settle(m, address).latest == m.latest
    decreases Remaining(m)
  {
    if m.phase.Idle? {
      assert Reverse([]) == [] && m.log + [] == m.log;
    } else {
      TickKeepsInv(m, address);
      TickKeepsPlan(m, address);
      SettleAppendsBatch(Tick(m, address), address);
    }
  }

  lemma ReverseSnocLeft(batch: seq<Row>)
    requires batch != []
    ensures Reverse(batch) == [batch[|batch| - 1]] + Reverse(batch[..|batch| - 1])
  {
  }
}
