/**
 The confirmation scan: from the newest block down, one probing round per block with a stored hash,
 its tally written to the confirmations table, until a block has enough agreeing hosts.
 */
module Confirmations {
  import opened Options
  import opened ProbeRound

  datatype ConfRow = ConfRow(block: int, good: nat, bad: nat, time: int)

  /**
   What the scan meets: the stored hash of each block ("" when there is none), the answers its round
   delivers, in order of arrival, and the time its row is written.
   */
  datatype World = World(hashOf: int -> string, answersOf: int -> seq<string>, clock: int -> int) {
    predicate Stored(b: int) {
      hashOf(b) != ""
    }

    function Good(b: int): nat {
      CountEq(answersOf(b), hashOf(b))
    }

    /** The row a finished round leaves behind. */
    function Verdict(b: int): ConfRow {
      CountIsBounded(answersOf(b), hashOf(b));
      ConfRow(b, Good(b), |answersOf(b)| - Good(b), clock(b))
    }

    /** Block ids are positive. */
    ghost predicate IsChain() {
      forall b :: Stored(b) ==> 0 < b
    }
  }

  lemma {:induction false} CountIsBounded(answers: seq<string>, hash: string)
    ensures CountEq(answers, hash) <= |answers|
  {
    if answers != [] {
      CountIsBounded(answers[..|answers| - 1], hash);
    }
  }

  // ----- The table

  ghost predicate OneRowPerBlock(rows: seq<ConfRow>) {
    forall i, j :: 0 <= i < j < |rows| ==> rows[i].block != rows[j].block
  }

  function Lookup(rows: seq<ConfRow>, block: int): (row: Option<ConfRow>)
    ensures row.Some? ==> row.value in rows && row.value.block == block
    ensures row.None? ==> forall i :: 0 <= i < |rows| ==> rows[i].block != block
  {
    if rows == [] then None
    else if rows[0].block == block then Some(rows[0])
    else Lookup(rows[1..], block)
  }

  lemma LookupFinds(rows: seq<ConfRow>, i: nat)
    requires OneRowPerBlock(rows) && i < |rows|
    ensures Lookup(rows, rows[i].block) == Some(rows[i])
  {
    var row := Lookup(rows, rows[i].block).value;
    var k :| 0 <= k < |rows| && rows[k] == row;
  }

  /** `update confirmations set ... where block_id = row.block` */
  function Updated(rows: seq<ConfRow>, row: ConfRow): (rows': seq<ConfRow>)
    ensures |rows'| == |rows| && forall i :: 0 <= i < |rows| ==> rows'[i].block == rows[i].block
  {
    if rows == [] then []
    else [if rows[0].block == row.block then row else rows[0]] + Updated(rows[1..], row)
  }

  lemma {:induction false} LookupUpdated(rows: seq<ConfRow>, row: ConfRow, b: int)
    ensures Lookup(Updated(rows, row), b) ==
            if b == row.block && Lookup(rows, b).Some? then Some(row) else Lookup(rows, b)
  {
    if rows != [] {
      LookupUpdated(rows[1..], row, b);
      assert Updated(rows, row)[1..] == Updated(rows[1..], row);
    }
  }

  lemma {:induction false} LookupInserted(rows: seq<ConfRow>, row: ConfRow, b: int)
    ensures Lookup(rows + [row], b) ==
            if Lookup(rows, b).Some? then Lookup(rows, b) else if b == row.block then Some(row) else None
  {
    if rows != [] {
      LookupInserted(rows[1..], row, b);
      assert (rows + [row])[1..] == rows[1..] + [row];
    }
  }

  /** The row in place of its block's earlier one, or behind the others. */
  function Upserted(rows: seq<ConfRow>, row: ConfRow): seq<ConfRow> {
    if Lookup(rows, row.block).Some? && 0 < row.block then Updated(rows, row) else rows + [row]
  }

  lemma UpsertedTable(rows: seq<ConfRow>, row: ConfRow)
    requires OneRowPerBlock(rows) && 0 < row.block
    ensures OneRowPerBlock(Upserted(rows, row))
    ensures forall b :: Lookup(Upserted(rows, row), b) == if b == row.block then Some(row) else Lookup(rows, b)
  {
    forall b
      ensures Lookup(Upserted(rows, row), b) == if b == row.block then Some(row) else Lookup(rows, b)
    {
      LookupUpdated(rows, row, b);
      LookupInserted(rows, row, b);
    }
  }

  /** `select max(block_id) from confirmations where good >= threshold`, null read as 0. */
  function Confirmed(rows: seq<ConfRow>, threshold: int): (max: int)
    ensures 0 <= max
    ensures forall i :: 0 <= i < |rows| && rows[i].good >= threshold ==> rows[i].block <= max
    ensures max != 0 ==> exists i :: 0 <= i < |rows| && rows[i].block == max && rows[i].good >= threshold
  {
    if rows == [] then 0
    else
      var rest := Confirmed(rows[1..], threshold);
      if rows[0].good >= threshold && rows[0].block > rest then rows[0].block else rest
  }

  // ----- One round's tally

  method Gather(answers: seq<string>, hash: string) returns (st0: nat, st1: nat)
    ensures st1 == CountEq(answers, hash) && st0 + st1 == |answers|
  {
    st0, st1 := 0, 0;
    for i := 0 to |answers|
      invariant st1 == CountEq(answers[..i], hash) && st0 + st1 == i
    {
      assert answers[..i + 1][..i] == answers[..i];
      if answers[i] == hash {
        st1 := st1 + 1;
      } else {
        st0 := st0 + 1;
      }
    }
    assert answers[..|answers|] == answers;
  }

  // ----- The scan

  /** The lowest block the scan has looked at. */
  function Lowest(start: int, stop: Option<int>): int {
    if stop.Some? then stop.value else start + 1
  }

  /** What a completed scan of (start, last] leaves behind, and where it stopped. */
  ghost predicate Scanned(was: seq<ConfRow>, rows: seq<ConfRow>, w: World, start: int, last: int, threshold: int,
                          stop: Option<int>)
  {
    && (stop.Some? ==> start < stop.value <= last && w.Stored(stop.value) && w.Good(stop.value) >= threshold)
    && (forall b :: Lowest(start, stop) <= b <= last && w.Stored(b) && stop != Some(b) ==> w.Good(b) < threshold)
    && (forall b :: Lookup(rows, b) ==
          if Lowest(start, stop) <= b <= last && w.Stored(b) then Some(w.Verdict(b)) else Lookup(was, b))
  }

  lemma ScanSkips(was: seq<ConfRow>, rows: seq<ConfRow>, w: World, b: int, last: int, threshold: int)
    requires Scanned(was, rows, w, b, last, threshold, None) && !w.Stored(b)
    ensures Scanned(was, rows, w, b - 1, last, threshold, None)
  {
  }

  /** Between the upsert of b and the test whether to stop there. */
  ghost predicate Wrote(was: seq<ConfRow>, rows: seq<ConfRow>, w: World, b: int, last: int, threshold: int) {
    && b <= last && w.Stored(b)
    && (forall c :: b < c <= last && w.Stored(c) ==> w.Good(c) < threshold)
    && (forall c :: Lookup(rows, c) == if b <= c <= last && w.Stored(c) then Some(w.Verdict(c)) else Lookup(was, c))
  }

  lemma ScanWrites(was: seq<ConfRow>, before: seq<ConfRow>, rows: seq<ConfRow>, w: World, b: int, last: int,
                   threshold: int)
    requires Scanned(was, before, w, b, last, threshold, None) && w.Stored(b) && b <= last
    requires forall c :: Lookup(rows, c) == if c == b then Some(w.Verdict(b)) else Lookup(before, c)
    ensures Wrote(was, rows, w, b, last, threshold)
  {
  }

  lemma ScanStopsThere(was: seq<ConfRow>, rows: seq<ConfRow>, w: World, start: int, b: int, last: int, threshold: int)
    requires Wrote(was, rows, w, b, last, threshold) && start < b
    ensures w.Good(b) >= threshold ==> Scanned(was, rows, w, start, last, threshold, Some(b))
    ensures w.Good(b) < threshold ==> Scanned(was, rows, w, b - 1, last, threshold, None)
  {
  }

  /**
   The first block of the scan's range. After a long gap it is the block after the last confirmed one,
   otherwise the last block but one; the scan itself stays strictly above it.
   */
  function StartBlock(last: int, confirmed: int): int {
    var start := if last - confirmed > 5 then confirmed + 1 else 0;
    if start == 0 then last - 1 else start
  }

  class ConfirmationTable {
    var rows: seq<ConfRow>

    constructor ()
      ensures rows == []
    {
      rows := [];
    }

    method Upsert(row: ConfRow)
      requires OneRowPerBlock(rows) && 0 < row.block
      modifies this
      ensures rows == Upserted(old(rows), row) && OneRowPerBlock(rows)
      ensures forall b :: Lookup(rows, b) == if b == row.block then Some(row) else Lookup(old(rows), b)
    {
      UpsertedTable(rows, row);
      var found := Lookup(rows, row.block);
      if found.Some? && found.value.block > 0 {
        rows := Updated(rows, row);
      } else {
        rows := rows + [row];
      }
    }

    /** The descending loop. */
    method Scan(w: World, start: int, last: int, threshold: int) returns (stop: Option<int>)
      requires OneRowPerBlock(rows) && w.IsChain()
      modifies this
      ensures OneRowPerBlock(rows) && Scanned(old(rows), rows, w, start, last, threshold, stop)
    {
      var blockID := last;
      while blockID > start
        invariant blockID <= last && (start <= blockID || blockID == last)
        invariant OneRowPerBlock(rows) && Scanned(old(rows), rows, w, blockID, last, threshold, None)
      {
        var hash := w.hashOf(blockID);
        if hash == "" {
          ScanSkips(old(rows), rows, w, blockID, last, threshold);
        } else {
          ghost var before := rows;
          assert w.Stored(blockID);
          var st0, st1 := Gather(w.answersOf(blockID), hash);
          Upsert(ConfRow(blockID, st1, st0, w.clock(blockID)));
          ScanWrites(old(rows), before, rows, w, blockID, last, threshold);
          ScanStopsThere(old(rows), rows, w, start, blockID, last, threshold);
          if blockID > start && st1 >= threshold {
            return Some(blockID);
          }
        }
        blockID := blockID - 1;
      }
      return None;
    }

    /** One turn of the daemon: choose the range, then scan it. */
    method Turn(w: World, last: int, threshold: int) returns (ghost start: int, stop: Option<int>)
      requires OneRowPerBlock(rows) && w.IsChain()
      modifies this
      ensures OneRowPerBlock(rows)
      ensures start == StartBlock(last, Confirmed(old(rows), threshold))
      ensures Scanned(old(rows), rows, w, start, last, threshold, stop)
    {
      var from := StartBlock(last, Confirmed(rows, threshold));
      start := from;
      stop := Scan(w, from, last, threshold);
    }
  }

  // ----- What a turn amounts to

  /**
   Which blocks a turn looks at: all above the one that follows the last confirmed block when more
   than five are waiting, otherwise only the last. The block right after the confirmed one is skipped.
   */
  lemma TurnRange(last: int, confirmed: int, b: int)
    requires 0 <= confirmed
    ensures StartBlock(last, confirmed) < b <= last <==>
            if last - confirmed > 5 then confirmed + 2 <= b <= last else b == last
  {
  }

  /**
   Where every row is about a stored block, a scan that stops makes its stopping block the confirmed
   one, and a scan that runs through leaves no confirmed block in its range.
   */
  lemma ConfirmedAfterScan(was: seq<ConfRow>, rows: seq<ConfRow>, w: World, start: int, last: int, threshold: int,
                           stop: Option<int>)
    requires OneRowPerBlock(rows) && w.IsChain() && 0 <= start
    requires Scanned(was, rows, w, start, last, threshold, stop)
    requires forall i :: 0 <= i < |was| ==> was[i].block <= last && w.Stored(was[i].block)
    ensures stop.Some? ==> Confirmed(rows, threshold) == stop.value
    ensures stop.None? ==> Confirmed(rows, threshold) <= start
  {
    forall i | 0 <= i < |rows| && rows[i].good >= threshold
      ensures rows[i].block <= if stop.Some? then stop.value else start
    {
      var b := rows[i].block;
      LookupFinds(rows, i);
      assert Lookup(rows, b) == if Lowest(start, stop) <= b <= last && w.Stored(b) then Some(w.Verdict(b))
                                else Lookup(was, b);
    }
    if stop.Some? {
      assert Lookup(rows, stop.value) == Some(w.Verdict(stop.value));
    }
  }

  /**
   With the shipped threshold of zero the first round always satisfies the scan: it stops at the
   highest stored block of its range and writes that one row.
   */
  lemma ZeroThresholdChecksOneBlock(was: seq<ConfRow>, rows: seq<ConfRow>, w: World, start: int, last: int,
                                    stop: Option<int>, b: int)
    requires Scanned(was, rows, w, start, last, 0, stop)
    ensures start < b <= last && w.Stored(b) ==> stop.Some? && b <= stop.value
    ensures Lookup(rows, b) == if stop == Some(b) then Some(w.Verdict(b)) else Lookup(was, b)
  {
  }
}
