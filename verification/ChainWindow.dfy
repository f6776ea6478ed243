/**
 The block window itself: a fixed array, an offset and a high-water mark, filled by polling the
 block table and read by the websocket. Its ghost fields say what it stands for.
 */
module ChainWindow {
  import opened BlockTable
  import opened WindowSteps

  datatype Answer = QueryFailed | Rows(rows: seq<Row>)

  datatype ChainMsg = ChainMsg(data: seq<ChainInfo>, latest: int)

  /** The last n rows of both sequences agree. */
  ghost predicate SameTail(a: seq<Row>, b: seq<Row>, n: nat) {
    a == b || (n <= |a| && n <= |b| && a[|a| - n..] == b[|b| - n..])
  }

  lemma {:induction false} QueryDependsOnTail(a: seq<Row>, b: seq<Row>, latest: int, n: nat)
    requires SameTail(a, b, n)
    ensures Descend(a, latest, n) == Descend(b, latest, n)
  {
    if n > 0 && a != b {
      assert a[|a| - 1] == a[|a| - n..][n - 1] == b[|b| - n..][n - 1] == b[|b| - 1];
      var a', b' := a[..|a| - 1], b[..|b| - 1];
      assert a'[|a'| - (n - 1)..] == a[|a| - n..][..n - 1] == b[|b| - n..][..n - 1] == b'[|b'| - (n - 1)..];
      QueryDependsOnTail(a', b', latest, n - 1);
    }
  }

  ghost predicate IsMark(table: seq<Row>, latest: int) {
    latest == if table == [] then 0 else table[|table| - 1].id
  }

  /** The fetched rows are exactly the new ones, or the newest BATCH of them. */
  lemma FetchedRowsAreNew(seen: seq<Row>, table: seq<Row>, latest: int, k: nat)
    requires IsChain(table) && seen <= table && IsMark(seen, latest)
    requires k <= BATCH && k <= |table|
    requires 0 < k ==> table[|table| - k].id > latest
    requires k < BATCH && k < |table| ==> table[|table| - k - 1].id <= latest
    ensures |seen| <= |table| - k
    ensures k < BATCH ==> table == seen + table[|table| - k..]
  {
    assert seen != [] ==> table[|seen| - 1] == seen[|seen| - 1];
  }

  lemma ReversedTail(table: seq<Row>, batch: seq<Row>)
    requires |batch| <= |table| && forall i :: 0 <= i < |batch| ==> batch[i] == table[|table| - 1 - i]
    ensures table[|table| - |batch|..] == Reverse(batch)
  {
  }

  lemma FetchedRowsAreATail(seen: seq<Row>, table: seq<Row>, latest: int, batch: seq<Row>)
    returns (suffix: seq<Row>)
    requires IsChain(table) && seen <= table && IsMark(seen, latest)
    requires batch == Newest(table, latest, BATCH)
    ensures |batch| <= BATCH && |seen| + |batch| <= |table|
    ensures suffix == table[|table| - |batch|..] == Reverse(batch)
    ensures |batch| < BATCH ==> table == seen + suffix
  {
    NewestIsDescend(table, latest, BATCH);
    DescendTakesTail(table, latest, BATCH);
    FetchedRowsAreNew(seen, table, latest, |batch|);
    suffix := table[|table| - |batch|..];
    ReversedTail(table, batch);
  }

  lemma TailsGrowTogether(a: seq<Row>, b: seq<Row>, suffix: seq<Row>, n: nat)
    requires SameTail(a, b, n) && |suffix| <= n
    ensures SameTail(a + suffix, b + suffix, n)
  {
    if a != b {
      var k := |suffix|;
      assert (a + suffix)[|a + suffix| - n..] == a[|a| - n..][k..] + suffix;
      assert (b + suffix)[|b + suffix| - n..] == b[|b| - n..][k..] + suffix;
    }
  }

  /**
   What a poll fetches, put behind what is already logged, again ends with the table's last rows:
   rows are lost when more than BATCH arrive between two polls, but never among the last BATCH.
   */
  lemma PollRestoresTail(log: seq<Row>, seen: seq<Row>, table: seq<Row>, latest: int, batch: seq<Row>)
    requires IsChain(table) && seen <= table && IsMark(seen, latest)
    requires SameTail(log, seen, BATCH) && |log| <= |seen|
    requires batch == Newest(table, latest, BATCH)
    ensures batch == [] ==> table == seen
    ensures SameTail(log + Reverse(batch), table, BATCH) && |log + Reverse(batch)| <= |table|
  {
    var suffix := FetchedRowsAreATail(seen, table, latest, batch);
    if |batch| < BATCH {
      TailsGrowTogether(log, seen, suffix, BATCH);
    } else {
      assert (log + suffix)[|log + suffix| - BATCH..] == suffix;
    }
  }

  lemma FetchedRowsAreABatch(table: seq<Row>, latest: int, batch: seq<Row>)
    requires IsChain(table) && batch == Newest(table, latest, BATCH) && batch != []
    ensures IsBatch(batch, latest) && IsMark(table, batch[0].id)
  {
    NewestIsDescend(table, latest, BATCH);
    DescendTakesTail(table, latest, BATCH);
  }

  /** A settled window stands for the table it last saw. */
  ghost predicate Stands(m: Machine, seen: seq<Row>, address: AddressCodec) {
    && m.phase.Idle? && Inv(m, address)
    && IsChain(seen) && IsMark(seen, m.latest)
    && SameTail(m.log, seen, BATCH) && |m.log| <= |seen|
  }

  lemma SettledPoll(m: Machine, table: seq<Row>, rows: seq<Row>, address: AddressCodec)
    requires rows != [] && Inv(Begin(m, rows), address) && IsChain(table) && IsMark(table, rows[0].id)
    requires SameTail(m.log + Reverse(rows), table, BATCH) && |m.log + Reverse(rows)| <= |table|
    ensures Stands(Settle(Begin(m, rows), address), table, address)
  {
    SettleAppendsBatch(Begin(m, rows), address);
    assert Planned(Begin(m, rows)) == m.log + Reverse(rows);
  }

  /** A poll that fetched rows leaves the window standing for the new table. */
  lemma PollOutcome(m: Machine, seen: seq<Row>, table: seq<Row>, rows: seq<Row>, address: AddressCodec)
    requires Stands(m, seen, address) && IsChain(table) && seen <= table
    requires rows == Newest(table, m.latest, BATCH)
    ensures rows == [] ==> table == seen
    ensures rows != [] ==> Inv(Begin(m, rows), address) && Stands(Settle(Begin(m, rows), address), table, address)
  {
    PollRestoresTail(m.log, seen, table, m.latest, rows);
    if rows != [] {
      FetchedRowsAreABatch(table, m.latest, rows);
      BeginKeepsInv(m, rows, address);
      SettledPoll(m, table, rows, address);
    }
  }

  /** The walk over a settled window answers as the table would. */
  lemma WindowServesTable(m: Machine, seen: seq<Row>, mark: int, address: AddressCodec)
    requires Stands(m, seen, address)
    ensures 0 <= m.off <= |m.list|
    ensures Walk(m.list, m.off, PAGE, mark) == Entries(Newest(seen, mark, PAGE), address)
  {
    ReaderSeesLog(m, mark, address);
    NewestIsDescend(m.log, mark, PAGE);
    NewestIsDescend(seen, mark, PAGE);
    if m.log != seen {
      assert m.log[|m.log| - PAGE..] == m.log[|m.log| - BATCH..][BATCH - PAGE..];
      assert seen[|seen| - PAGE..] == seen[|seen| - BATCH..][BATCH - PAGE..];
    }
    QueryDependsOnTail(m.log, seen, mark, PAGE);
  }

  method WalkBack(list: array<ChainInfo>, off: int, mark: int) returns (answer: ChainMsg)
    requires 0 <= off <= list.Length
    ensures answer.data == Walk(list[..], off, PAGE, mark)
    ensures answer.latest == if answer.data == [] then 0 else answer.data[0].id
  {
    answer := ChainMsg([], 0);
    var i := off - 1;
    while i >= 0 && |answer.data| < PAGE && list[i].id > mark
      invariant -1 <= i < off && |answer.data| <= PAGE
      invariant answer.data + Walk(list[..], i + 1, PAGE - |answer.data|, mark) == Walk(list[..], off, PAGE, mark)
      invariant if i == off - 1 then answer.data == [] else answer.data != [] && answer.data[0] == list[off - 1]
      invariant answer.latest == if answer.data == [] then 0 else answer.data[0].id
    {
      answer := answer.(data := answer.data + [list[i]]);
      if i == off - 1 {
        answer := answer.(latest := list[i].id);
      }
      i := i - 1;
    }
  }

  /**
   The overlapping forward copy of a compaction. After i copies the slots are those of
   WindowSteps.Copied: each source slot lies above everything written so far.
   */
  method CopyDown(list: array<ChainInfo>, off: int)
    requires KEEP <= off <= list.Length
    modifies list
    ensures list[..] == Shifted(old(list[..]), off, KEEP)
    ensures list[..][..50] == old(list[..])[off - 50..off] && list[..][50..] == old(list[..])[50..]
  {
    ghost var was := list[..];
    var i := 0;
    while i < KEEP
      invariant 0 <= i <= KEEP
      invariant forall j {:trigger list[j]} :: 0 <= j < i ==> list[j] == was[off - KEEP + j]
      invariant forall j {:trigger list[j]} :: i <= j < list.Length ==> list[j] == was[j]
    {
      list[i] := list[off - KEEP + i];
      i := i + 1;
    }
    CopiedIsShifted(was, list[..], off);
  }

  lemma CopiedIsShifted(was: seq<ChainInfo>, now: seq<ChainInfo>, off: int)
    requires KEEP <= off <= |was| == |now|
    requires forall j :: 0 <= j < KEEP ==> now[j] == was[off - KEEP + j]
    requires forall j :: KEEP <= j < |was| ==> now[j] == was[j]
    ensures now == Shifted(was, off, KEEP)
    ensures now[..KEEP] == was[off - KEEP..off] && now[KEEP..] == was[KEEP..]
  {
  }

  class ChainCache {
    var latest: int
    var off: int
    const list: array<ChainInfo>
    const address: AddressCodec

    ghost var log: seq<Row>   // every row appended so far
    ghost var seen: seq<Row>  // the block table at the last poll that succeeded

    ghost function Snapshot(): Machine
      reads this, list
    {
      Machine(list[..], off, latest, Idle, log)
    }

    ghost predicate Valid()
      reads this, list
    {
      Stands(Snapshot(), seen, address)
    }

    constructor (address: AddressCodec)
      ensures Valid() && Snapshot() == Initial() && seen == [] && this.address == address && fresh(list)
    {
      this.address := address;
      latest, off, log, seen := 0, 0, [], [];
      list := new ChainInfo[LIMIT](_ => BLANK);
      new;
      assert list[..] == Initial().list;
    }

    /**
     At all times the answer is the plain query "newest ten rows above the mark" on the table as of
     the last successful poll.
     */
    method UpdateChain(mark: int) returns (answer: ChainMsg)
      requires Valid()
      ensures answer.data == Entries(Newest(seen, mark, 10), address)
      ensures NewestTen(answer.data, seen, mark, address)
      ensures answer.latest == if answer.data == [] then 0 else answer.data[0].id
    {
      WindowServesTable(Snapshot(), seen, mark, address);
      QueryIsNewestTen(seen, mark, address);
      answer := WalkBack(list, off, mark);
    }

    /** The fields are those of the writer m, which may be in the middle of its work. */
    ghost predicate Mirrors(m: Machine)
      reads this, list
    {
      m == Machine(list[..], off, latest, m.phase, log)
    }

    /** One turn of the append loop: the slot is written before the offset moves over it. */
    method AppendOne(row: Row)
      requires 0 <= off < list.Length
      modifies this`off, this`log, list
      ensures list[..] == old(list[..])[old(off) := Entry(row, address)]
      ensures off == old(off) + 1 && log == old(log) + [row]
    {
      list[off] := Entry(row, address);
      off := off + 1;
      log := log + [row];
    }

    method Append(rows: seq<Row>, ghost m: Machine)
      requires Mirrors(m) && Inv(m, address) && m.phase == Appending(rows)
      modifies this`off, this`log, list
      ensures Snapshot() == Settle(m, address)
    {
      ghost var m', end := m, Settle(m, address);
      var i := |rows|;
      while i > 0
        invariant 0 <= i <= |rows| && m'.phase == Appending(rows[..i])
        invariant Mirrors(m') && Inv(m', address) && end == Settle(m', address)
      {
        AppendSettlesAlike(m', end, address);
        m' := Appended(m', address);
        assert rows[..i][..i - 1] == rows[..i - 1];
        AppendOne(rows[i - 1]);
        i := i - 1;
      }
      TickSettlesAlike(m', end, address);
    }

    /** What the loop does with a non-empty answer: move the mark, make room, append. */
    method Take(rows: seq<Row>)
      requires list.Length == LIMIT && 0 < |rows| && Inv(Begin(Snapshot(), rows), address)
      modifies this`latest, this`off, this`log, list
      ensures Snapshot() == Settle(Begin(old(Snapshot()), rows), address)
    {
      ghost var m := Begin(Snapshot(), rows);
      latest := rows[0].id;
      if off + |rows| > LIMIT {
        CompactionSettlesAlike(m, address);
        CopyDown(list, off);
        off := KEEP;
        m := Compacted(m);
      }
      Append(rows, m);
    }

    /**
     One turn of GetChain's loop. The body is, assignment by assignment, the writer of WindowSteps:
     `m` is that writer, and it agrees with the fields after each of them, so everything proved of
     its runs holds of a reader that interrupts this method anywhere.
     */
    method Poll(explorer: Answer, ghost table: seq<Row>)
      requires Valid() && IsChain(table) && seen <= table
      requires explorer.Rows? ==> explorer.rows == Newest(table, latest, 30)
      modifies this, list
      ensures Valid()
      ensures explorer.QueryFailed? ==> Snapshot() == old(Snapshot()) && seen == old(seen)
      ensures explorer.Rows? ==> seen == table
      ensures explorer.Rows? && explorer.rows == [] ==> Snapshot() == old(Snapshot())
      ensures explorer.Rows? && explorer.rows != [] ==>
        Inv(Begin(old(Snapshot()), explorer.rows), address) &&
        Snapshot() == Settle(Begin(old(Snapshot()), explorer.rows), address)
    {
      if explorer.QueryFailed? { return; }
      var rows := explorer.rows;
      PollOutcome(Snapshot(), seen, table, rows, address);
      seen := table;
      if rows != [] {
        Take(rows);
      }
    }
  }
}
