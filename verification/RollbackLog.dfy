/**
 The shared rollback log: every update of a row first saves the columns it overwrites, together with the
 row's previous record number; a rollback follows those numbers back.
 */
module RollbackLog {
  import opened Bytes
  import opened Text

  type Column = string

  datatype Cell = Null | Value(b: bytes)

  type Cells = map<Column, Cell>

  datatype Row = Row(cells: Cells, rb: nat)

  datatype Key = Key(table: string, id: int)

  /** A log record: the saved columns as text, the row's earlier record (0 for none), and the block. */
  datatype Record = Record(saved: map<Column, bytes>, prev: nat, block: nat)

  type Log = map<nat, Record>

  datatype Store = Store(rows: map<Key, Row>, log: Log, next: nat)

  /** Which columns of which tables hold bytes, and what a row holds where an insert names no value. */
  datatype Db = Db(isByte: (string, Column) -> bool, blank: string -> Cells)

  /** One call of selectiveLoggingAndUpd; `changes` gives the cells as they will be. */
  datatype Write = Write(key: Key, changes: Cells, block: nat)

  // ----- Writing

  /** The text a column is saved as: NULL by its name, non-empty byte strings in hexadecimal. */
  function Saved(db: Db, table: string, c: Column, cell: Cell): bytes {
    var text := if cell.Null? then SQL_NULL else cell.b;
    if db.isByte(table, c) && text != [] then HexEncode(text) else text
  }

  function SavedAll(db: Db, table: string, cells: Cells, columns: set<Column>): map<Column, bytes>
    requires columns <= cells.Keys
  {
    map c | c in columns :: Saved(db, table, c, cells[c])
  }

  /** Every column named exists; otherwise the statement fails and nothing is written. */
  predicate Fits(db: Db, s: Store, w: Write) {
    w.changes.Keys <= if w.key in s.rows then s.rows[w.key].cells.Keys else db.blank(w.key.table).Keys
  }

  function RecordOf(db: Db, s: Store, w: Write): Record
    requires w.key in s.rows && Fits(db, s, w)
  {
    var row := s.rows[w.key];
    Record(SavedAll(db, w.key.table, row.cells, w.changes.Keys), row.rb, w.block)
  }

  /** selectiveLoggingAndUpd: an update with its record, or an insert without one. */
  function Apply(db: Db, s: Store, w: Write): Store
    requires Fits(db, s, w)
  {
    if w.key in s.rows then
      var row := Row(s.rows[w.key].cells + w.changes, s.next);
      Store(s.rows[w.key := row], s.log[s.next := RecordOf(db, s, w)], s.next + 1)
    else
      s.(rows := s.rows[w.key := Row(db.blank(w.key.table) + w.changes, 0)])
  }

  ghost predicate IsRun(db: Db, s: Store, ws: seq<Write>)
    decreases |ws|
  {
    ws != [] ==> Fits(db, s, ws[0]) && IsRun(db, Apply(db, s, ws[0]), ws[1..])
  }

  ghost function Run(db: Db, s: Store, ws: seq<Write>): Store
    requires IsRun(db, s, ws)
    decreases |ws|
  {
    if ws == [] then s else Run(db, Apply(db, s, ws[0]), ws[1..])
  }

  // ----- Undoing

  function Largest(log: Log, n: nat): (k: nat)
    ensures k <= n
  {
    if n == 0 || n in log then n else Largest(log, n - 1)
  }

  function Restored(saved: map<Column, bytes>): Cells {
    map c | c in saved :: Value(saved[c])
  }

  /**
   selectiveRollback of one row: its record's text goes back into the columns and the record is deleted;
   a row without a record is deleted. Numbering resumes after the largest number left.
   */
  function Undo(s: Store, key: Key): Store {
    if key !in s.rows then s
    else
      var row := s.rows[key];
      if row.rb == 0 then s.(rows := s.rows - {key})
      else if row.rb !in s.log then s
      else
        var record, log := s.log[row.rb], s.log - {row.rb};
        Store(s.rows[key := Row(row.cells + Restored(record.saved), record.prev)], log, Largest(log, s.next) + 1)
  }

  /** autoRollback: the writes are undone last to first. */
  ghost function UndoAll(s: Store, ws: seq<Write>): Store {
    if ws == [] then s else Undo(UndoAll(s, ws[1..]), ws[0].key)
  }

  // ----- The log is well formed

  ghost predicate Sound(log: Log) {
    forall i :: i in log ==> 0 < i && log[i].prev < i && (log[i].prev == 0 || log[i].prev in log)
  }

  /** Record numbers run from 1 without a gap and every row's number is one of them or 0. */
  ghost predicate Valid(s: Store) {
    && 0 < s.next
    && (forall i :: i in s.log <==> 0 < i < s.next)
    && (forall i :: i in s.log ==> s.log[i].prev < i)
    && (forall k :: k in s.rows ==> s.rows[k].rb < s.next)
  }

  lemma ValidLogIsSound(s: Store)
    requires Valid(s)
    ensures Sound(s.log)
  {
  }

  lemma ApplyKeepsValid(db: Db, s: Store, w: Write)
    requires Valid(s) && Fits(db, s, w)
    ensures Valid(Apply(db, s, w))
  {
  }

  lemma {:induction false} RunKeepsValid(db: Db, s: Store, ws: seq<Write>)
    requires Valid(s) && IsRun(db, s, ws)
    ensures Valid(Run(db, s, ws))
    decreases |ws|
  {
    if ws != [] {
      ApplyKeepsValid(db, s, ws[0]);
      RunKeepsValid(db, Apply(db, s, ws[0]), ws[1..]);
    }
  }

  // ----- Undoing a run

  /** What a cell becomes once it was saved and put back. */
  function Scar(db: Db, table: string, c: Column, cell: Cell): Cell {
    Value(Saved(db, table, c, cell))
  }

  ghost predicate Touched(ws: seq<Write>, key: Key, c: Column) {
    exists i :: 0 <= i < |ws| && ws[i].key == key && c in ws[i].changes
  }

  ghost function ScarredCells(db: Db, key: Key, cells: Cells, ws: seq<Write>): Cells {
    map c | c in cells :: if Touched(ws, key, c) then Scar(db, key.table, c, cells[c]) else cells[c]
  }

  ghost function Scarred(db: Db, s: Store, ws: seq<Write>): Store {
    s.(rows := map key | key in s.rows :: Row(ScarredCells(db, key, s.rows[key].cells, ws), s.rows[key].rb))
  }

  lemma TouchedFirst(w: Write, ws: seq<Write>, key: Key, c: Column)
    ensures Touched([w] + ws, key, c) <==> (w.key == key && c in w.changes) || Touched(ws, key, c)
  {
    var all := [w] + ws;
    if Touched(ws, key, c) {
      var i :| 0 <= i < |ws| && ws[i].key == key && c in ws[i].changes;
      assert all[i + 1] == ws[i];
    }
    if w.key == key && c in w.changes {
      assert all[0] == w;
    }
  }

  /** One row: the scars of the later writes are kept, and those of w are added. */
  lemma RestoredCells(db: Db, s: Store, w: Write, ws: seq<Write>)
    requires w.key in s.rows && Fits(db, s, w)
    ensures ScarredCells(db, w.key, Apply(db, s, w).rows[w.key].cells, ws) + Restored(RecordOf(db, s, w).saved)
         == ScarredCells(db, w.key, s.rows[w.key].cells, [w] + ws)
  {
    forall c { TouchedFirst(w, ws, w.key, c); }
  }

  lemma UntouchedRows(db: Db, w: Write, ws: seq<Write>, key: Key, cells: Cells)
    requires key != w.key
    ensures ScarredCells(db, key, cells, [w] + ws) == ScarredCells(db, key, cells, ws)
  {
    forall c { TouchedFirst(w, ws, key, c); }
  }

  lemma {:induction false} LargestOfValid(s: Store, n: nat)
    requires Valid(s) && s.next <= n + 1
    ensures Largest(s.log, n) == s.next - 1
    decreases n
  {
    if s.next <= n {
      LargestOfValid(s, n - 1);
    }
  }

  lemma OtherRows(db: Db, s: Store, w: Write, ws: seq<Write>, key: Key)
    requires Fits(db, s, w) && key in s.rows && key != w.key
    ensures Scarred(db, Apply(db, s, w), ws).rows[key] == Scarred(db, s, [w] + ws).rows[key]
  {
    UntouchedRows(db, w, ws, key, s.rows[key].cells);
  }

  lemma UndoneRow(db: Db, s: Store, w: Write, ws: seq<Write>)
    requires Valid(s) && Fits(db, s, w) && w.key in s.rows
    ensures var u, t := Undo(Scarred(db, Apply(db, s, w), ws), w.key), Scarred(db, s, [w] + ws);
      && u.log == t.log && u.next == t.next && u.rows.Keys == t.rows.Keys
      && u.rows[w.key] == t.rows[w.key]
  {
    var s' := Scarred(db, Apply(db, s, w), ws);
    assert s'.rows[w.key].rb == s.next && s'.log - {s.next} == s.log;
    LargestOfValid(s, s'.next);
    RestoredCells(db, s, w, ws);
  }

  lemma UndoUpdate(db: Db, s: Store, w: Write, ws: seq<Write>)
    requires Valid(s) && Fits(db, s, w) && w.key in s.rows
    ensures Undo(Scarred(db, Apply(db, s, w), ws), w.key) == Scarred(db, s, [w] + ws)
  {
    var u, t := Undo(Scarred(db, Apply(db, s, w), ws), w.key), Scarred(db, s, [w] + ws);
    UndoneRow(db, s, w, ws);
    forall key | key in s.rows && key != w.key
      ensures u.rows[key] == t.rows[key]
    {
      OtherRows(db, s, w, ws, key);
    }
    assert u.rows == t.rows;
  }

  lemma UndoInsert(db: Db, s: Store, w: Write, ws: seq<Write>)
    requires Fits(db, s, w) && w.key !in s.rows
    ensures Undo(Scarred(db, Apply(db, s, w), ws), w.key) == Scarred(db, s, [w] + ws)
  {
    var u, t := Undo(Scarred(db, Apply(db, s, w), ws), w.key), Scarred(db, s, [w] + ws);
    forall key | key in s.rows
      ensures u.rows[key] == t.rows[key]
    {
      OtherRows(db, s, w, ws, key);
    }
    assert u.rows == t.rows;
  }

  /**
   Undoing a whole run, last write first, gives back every row that was there, the log and the numbering,
   except that each column some write touched is left as it was saved.
   */
  lemma {:induction false} UndoAllLeavesScars(db: Db, s: Store, ws: seq<Write>)
    requires Valid(s) && IsRun(db, s, ws)
    ensures UndoAll(Run(db, s, ws), ws) == Scarred(db, s, ws)
    decreases |ws|
  {
    if ws == [] {
      NothingTouched(db, s);
    } else {
      var w, more := ws[0], ws[1..];
      ApplyKeepsValid(db, s, w);
      UndoAllLeavesScars(db, Apply(db, s, w), more);
      if w.key in s.rows {
        UndoUpdate(db, s, w, more);
      } else {
        UndoInsert(db, s, w, more);
      }
      assert ws == [w] + more;
    }
  }

  lemma NothingTouched(db: Db, s: Store)
    ensures Scarred(db, s, []) == s
  {
    forall key | key in s.rows
      ensures Scarred(db, s, []).rows[key] == s.rows[key]
    {
      assert ScarredCells(db, key, s.rows[key].cells, []) == s.rows[key].cells;
    }
    assert Scarred(db, s, []).rows == s.rows;
  }

  /** Saving and restoring loses nothing: not NULL, and no bytes in a byte column. */
  predicate Plain(db: Db, table: string, c: Column, cell: Cell) {
    cell.Value? && (db.isByte(table, c) ==> cell.b == [])
  }

  lemma ScarIsExact(db: Db, table: string, c: Column, cell: Cell)
    ensures Scar(db, table, c, cell) == cell <==> Plain(db, table, c, cell)
  {
    if cell.Value? && cell.b != [] {
      assert |HexEncode(cell.b)| != |cell.b|;
    }
  }

  ghost predicate TouchesOnlyPlain(db: Db, s: Store, ws: seq<Write>) {
    forall key, c :: key in s.rows && c in s.rows[key].cells && Touched(ws, key, c)
      ==> Plain(db, key.table, c, s.rows[key].cells[c])
  }

  /**
   A run is undone exactly when every column it touches, in the rows that were there before it, held a
   plain value then; rows the run inserts are always undone.
   */
  lemma UndoneExactlyWhenPlain(db: Db, s: Store, ws: seq<Write>)
    requires Valid(s) && IsRun(db, s, ws)
    ensures UndoAll(Run(db, s, ws), ws) == s <==> TouchesOnlyPlain(db, s, ws)
  {
    UndoAllLeavesScars(db, s, ws);
    var t := Scarred(db, s, ws);
    if t == s {
      forall key, c | key in s.rows && c in s.rows[key].cells && Touched(ws, key, c)
        ensures Plain(db, key.table, c, s.rows[key].cells[c])
      {
        assert t.rows[key].cells[c] == Scar(db, key.table, c, s.rows[key].cells[c]);
        ScarIsExact(db, key.table, c, s.rows[key].cells[c]);
      }
    }
    if TouchesOnlyPlain(db, s, ws) {
      forall key | key in s.rows
        ensures t.rows[key] == s.rows[key]
      {
        forall c | c in s.rows[key].cells
          ensures t.rows[key].cells[c] == s.rows[key].cells[c]
        {
          ScarIsExact(db, key.table, c, s.rows[key].cells[c]);
        }
        assert t.rows[key].cells == s.rows[key].cells;
      }
      assert t.rows == s.rows;
    }
  }

  /** A store of one row with one column, and a write of that column. */
  function OneRow(key: Key, c: Column, cell: Cell): Store {
    Store(map[key := Row(map[c := cell], 0)], map[], 1)
  }

  function OneWrite(key: Key, c: Column): Write {
    Write(key, map[c := Value([])], 1)
  }

  /** Every value that is not plain is lost by one write and its undoing. */
  lemma OtherValuesAreLost(db: Db, key: Key, c: Column, cell: Cell)
    requires !Plain(db, key.table, c, cell)
    ensures var s, ws := OneRow(key, c, cell), [OneWrite(key, c)];
      Valid(s) && IsRun(db, s, ws) && UndoAll(Run(db, s, ws), ws) != s
  {
    var s, ws := OneRow(key, c, cell), [OneWrite(key, c)];
    assert IsRun(db, Apply(db, s, ws[0]), ws[1..]);
    UndoneExactlyWhenPlain(db, s, ws);
    assert ws[0].key == key && c in ws[0].changes;
    assert Touched(ws, key, c);
  }

  lemma OneRowIsTouched(key: Key, c: Column)
    ensures Touched([OneWrite(key, c)], key, c)
  {
    var ws := [OneWrite(key, c)];
    assert ws[0].key == key && c in ws[0].changes;
  }

  lemma OneRowIsRun(db: Db, key: Key, c: Column, cell: Cell)
    ensures Valid(OneRow(key, c, cell)) && IsRun(db, OneRow(key, c, cell), [OneWrite(key, c)])
  {
    var s, ws := OneRow(key, c, cell), [OneWrite(key, c)];
    assert IsRun(db, Apply(db, s, ws[0]), ws[1..]);
  }

  lemma OneRowScarred(db: Db, key: Key, c: Column, cell: Cell)
    ensures Scarred(db, OneRow(key, c, cell), [OneWrite(key, c)]).rows
         == map[key := Row(map[c := Scar(db, key.table, c, cell)], 0)]
  {
    OneRowIsTouched(key, c);
    assert ScarredCells(db, key, map[c := cell], [OneWrite(key, c)]) == map[c := Scar(db, key.table, c, cell)];
  }

  /** What one write and its undoing leave in the column. */
  lemma OneWriteLeavesScar(db: Db, key: Key, c: Column, cell: Cell)
    ensures var s, ws := OneRow(key, c, cell), [OneWrite(key, c)];
      && Valid(s) && IsRun(db, s, ws)
      && UndoAll(Run(db, s, ws), ws).rows == map[key := Row(map[c := Scar(db, key.table, c, cell)], 0)]
  {
    OneRowIsRun(db, key, c, cell);
    UndoAllLeavesScars(db, OneRow(key, c, cell), [OneWrite(key, c)]);
    OneRowScarred(db, key, c, cell);
  }

  /** NULL in a text column comes back as the four letters. */
  lemma NullComesBackAsText(db: Db, key: Key, c: Column)
    requires !db.isByte(key.table, c)
    ensures var s, ws := OneRow(key, c, Null), [OneWrite(key, c)];
      && Valid(s) && IsRun(db, s, ws)
      && UndoAll(Run(db, s, ws), ws).rows == map[key := Row(map[c := Value(SQL_NULL)], 0)] != s.rows
  {
    OneWriteLeavesScar(db, key, c, Null);
    assert map[key := Row(map[c := Value(SQL_NULL)], 0)][key].cells[c] != OneRow(key, c, Null).rows[key].cells[c];
  }

  /** A byte in a byte column comes back as the two digits that print it. */
  lemma ByteComesBackAsDigits(db: Db, key: Key, c: Column, b: byte)
    requires db.isByte(key.table, c)
    ensures var s, ws := OneRow(key, c, Value([b])), [OneWrite(key, c)];
      && Valid(s) && IsRun(db, s, ws)
      && UndoAll(Run(db, s, ws), ws).rows == map[key := Row(map[c := Value(HexEncode([b]))], 0)] != s.rows
  {
    OneWriteLeavesScar(db, key, c, Value([b]));
    assert |HexEncode([b])| == 2;
    assert map[key := Row(map[c := Value(HexEncode([b]))], 0)][key].cells[c]
        != OneRow(key, c, Value([b])).rows[key].cells[c];
  }

  // ----- A row's history

  /** The records from number rb back to the row's first update. */
  ghost function Chain(log: Log, rb: nat): seq<Record>
    requires Sound(log) && (rb == 0 || rb in log)
    decreases rb
  {
    if rb == 0 then [] else [log[rb]] + Chain(log, log[rb].prev)
  }

  ghost function HistoryOf(s: Store, key: Key): seq<Record>
    requires Valid(s)
  {
    if key in s.rows then Chain(s.log, s.rows[key].rb) else []
  }

  lemma {:induction false} ChainFrame(log: Log, log': Log, rb: nat)
    requires Sound(log) && Sound(log') && (rb == 0 || rb in log)
    requires forall i :: i in log ==> i in log' && log'[i] == log[i]
    ensures Chain(log', rb) == Chain(log, rb)
    decreases rb
  {
    if rb != 0 {
      ChainFrame(log, log', log[rb].prev);
    }
  }

  /** What the run overwrote in a row, newest first. */
  ghost function Overwritten(db: Db, s: Store, ws: seq<Write>, key: Key): seq<Record>
    requires IsRun(db, s, ws)
    decreases |ws|
  {
    if ws == [] then []
    else Overwritten(db, Apply(db, s, ws[0]), ws[1..], key)
         + if ws[0].key == key && key in s.rows then [RecordOf(db, s, ws[0])] else []
  }

  lemma ApplyExtendsHistory(db: Db, s: Store, w: Write, key: Key)
    requires Valid(s) && Fits(db, s, w) && Valid(Apply(db, s, w))
    ensures HistoryOf(Apply(db, s, w), key)
         == (if w.key == key && key in s.rows then [RecordOf(db, s, w)] else []) + HistoryOf(s, key)
  {
    var s' := Apply(db, s, w);
    if key in s.rows {
      ChainFrame(s.log, s'.log, s.rows[key].rb);
    }
  }

  /** After any run, over any rows, a row's chain is exactly what was overwritten in it, then the older chain. */
  lemma {:induction false} HistoryIsWhatWasOverwritten(db: Db, s: Store, ws: seq<Write>, key: Key)
    requires Valid(s) && IsRun(db, s, ws)
    ensures Valid(Run(db, s, ws))
    ensures HistoryOf(Run(db, s, ws), key) == Overwritten(db, s, ws, key) + HistoryOf(s, key)
    decreases |ws|
  {
    RunKeepsValid(db, s, ws);
    if ws != [] {
      var s', first := Apply(db, s, ws[0]), if ws[0].key == key && key in s.rows then [RecordOf(db, s, ws[0])] else [];
      ApplyKeepsValid(db, s, ws[0]);
      HistoryIsWhatWasOverwritten(db, s', ws[1..], key);
      ApplyExtendsHistory(db, s, ws[0], key);
      Regroup(Overwritten(db, s', ws[1..], key), first, HistoryOf(s, key));
    }
  }

  lemma Regroup(a: seq<Record>, b: seq<Record>, c: seq<Record>)
    ensures a + (b + c) == a + b + c
  {
  }
}
