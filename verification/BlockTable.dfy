/** The block_chain table as the explorer queries it, and the entries the in-memory window publishes. */
module BlockTable {
  /** The columns of block_chain that the window's query selects. */
  datatype Row = Row(id: int, walletId: int, time: string, tx: string)

  datatype ChainInfo = ChainInfo(id: int, address: string, time: string, tx: string)

  /** The address codec is a parameter: only whether it is applied matters here. */
  type AddressCodec = int -> string

  function Entry(row: Row, address: AddressCodec): ChainInfo {
    ChainInfo(row.id, if row.walletId != 0 then address(row.walletId) else "", row.time, row.tx)
  }

  function Entries(rows: seq<Row>, address: AddressCodec): seq<ChainInfo> {
    seq(|rows|, i requires 0 <= i < |rows| => Entry(rows[i], address))
  }

  lemma EntriesCons(first: Row, rest: seq<Row>, address: AddressCodec)
    ensures Entries([first] + rest, address) == [Entry(first, address)] + Entries(rest, address)
  {
  }

  ghost predicate Increasing(rows: seq<Row>) {
    forall i, j :: 0 <= i < j < |rows| ==> rows[i].id < rows[j].id
  }

  /** A table the window can serve: positive ids in insertion order. */
  ghost predicate IsChain(table: seq<Row>) {
    Increasing(table) && forall i :: 0 <= i < |table| ==> 0 < table[i].id
  }

  // ----- `where id > latest order by id desc limit n`

  function Above(rows: seq<Row>, latest: int): seq<Row> {
    if rows == [] then []
    else
      var older, last := rows[..|rows| - 1], rows[|rows| - 1];
      if last.id > latest then Above(older, latest) + [last] else Above(older, latest)
  }

  function Reverse(rows: seq<Row>): seq<Row> {
    seq(|rows|, i requires 0 <= i < |rows| => rows[|rows| - 1 - i])
  }

  function Limit(rows: seq<Row>, n: nat): seq<Row> {
    if |rows| <= n then rows else rows[..n]
  }

  function Newest(rows: seq<Row>, latest: int, n: nat): seq<Row> {
    Limit(Reverse(Above(rows, latest)), n)
  }

  lemma ReverseSnoc(older: seq<Row>, last: Row)
    ensures Reverse(older + [last]) == [last] + Reverse(older)
  {
  }

  lemma LimitCons(first: Row, rest: seq<Row>, n: nat)
    ensures Limit([first] + rest, n) == if n == 0 then [] else [first] + Limit(rest, n - 1)
  {
  }

  lemma {:induction false} AboveIsEmpty(rows: seq<Row>, latest: int)
    requires Increasing(rows) && (rows != [] ==> rows[|rows| - 1].id <= latest)
    ensures Above(rows, latest) == []
  {
    if rows != [] {
      AboveIsEmpty(rows[..|rows| - 1], latest);
    }
  }

  /** The same query as a walk down from the end that stops at the first id not above the mark. */
  function Descend(rows: seq<Row>, latest: int, n: nat): seq<Row>
    decreases rows
  {
    if n == 0 || rows == [] || rows[|rows| - 1].id <= latest then []
    else [rows[|rows| - 1]] + Descend(rows[..|rows| - 1], latest, n - 1)
  }

  /** On increasing ids the filter never skips, so the two forms agree. */
  lemma {:induction false} NewestIsDescend(rows: seq<Row>, latest: int, n: nat)
    requires Increasing(rows)
    ensures Newest(rows, latest, n) == Descend(rows, latest, n)
  {
    if rows == [] || rows[|rows| - 1].id <= latest {
      AboveIsEmpty(rows, latest);
    } else {
      var older, last := rows[..|rows| - 1], rows[|rows| - 1];
      ReverseSnoc(Above(older, latest), last);
      LimitCons(last, Reverse(Above(older, latest)), n);
      if n > 0 {
        NewestIsDescend(older, latest, n - 1);
      }
    }
  }

  /** The query returns the last k rows, from the end, where k is as large as mark and limit allow. */
  lemma {:induction false} DescendTakesTail(rows: seq<Row>, latest: int, n: nat)
    requires Increasing(rows)
    ensures var k := |Descend(rows, latest, n)|;
      && k <= n && k <= |rows|
      && (forall i :: 0 <= i < k ==> Descend(rows, latest, n)[i] == rows[|rows| - 1 - i])
      && (0 < k ==> rows[|rows| - k].id > latest)
      && (k < n && k < |rows| ==> rows[|rows| - k - 1].id <= latest)
  {
    if n > 0 && rows != [] && rows[|rows| - 1].id > latest {
      DescendTakesTail(rows[..|rows| - 1], latest, n - 1);
    }
  }

  // ----- The answer, field by field

  /** What a reader is shown of a row; a row of no wallet has no address. */
  ghost predicate Publishes(e: ChainInfo, row: Row, address: AddressCodec) {
    && e.id == row.id && e.time == row.time && e.tx == row.tx
    && e.address == if row.walletId == 0 then "" else address(row.walletId)
  }

  /** The newest rows above the mark, from the end, at most ten: as many as there are, and no older one. */
  ghost predicate NewestTen(data: seq<ChainInfo>, rows: seq<Row>, mark: int, address: AddressCodec) {
    && |data| <= 10 && |data| <= |rows|
    && (forall i :: 0 <= i < |data| ==> Publishes(data[i], rows[|rows| - 1 - i], address))
    && (data != [] ==> mark < rows[|rows| - |data|].id)
    && (|data| < 10 && |data| < |rows| ==> rows[|rows| - 1 - |data|].id <= mark)
  }

  lemma QueryIsNewestTen(rows: seq<Row>, mark: int, address: AddressCodec)
    requires Increasing(rows)
    ensures NewestTen(Entries(Newest(rows, mark, 10), address), rows, mark, address)
  {
    NewestIsDescend(rows, mark, 10);
    DescendTakesTail(rows, mark, 10);
  }
}
