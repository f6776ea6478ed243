/**
 What a run of writes leaves in the rows, told by the writes alone: every cell holds the newest value written
 to it, and every record the value that was newest before.
 */
module WrittenCells {
  import opened Bytes
  import opened Text
  import opened RollbackLog

  /** The write names the cell. */
  predicate Names(w: Write, key: Key, c: Column) {
    w.key == key && c in w.changes
  }

  /** Write i is the newest that names the cell. */
  ghost predicate IsNewest(ws: seq<Write>, i: int, key: Key, c: Column) {
    && 0 <= i < |ws| && Names(ws[i], key, c)
    && forall k :: i < k < |ws| ==> !Names(ws[k], key, c)
  }

  ghost predicate Unnamed(ws: seq<Write>, key: Key, c: Column) {
    forall k :: 0 <= k < |ws| ==> !Names(ws[k], key, c)
  }

  /** The cells a row has before a run, or begins with when the run inserts it. */
  ghost function Earlier(db: Db, s: Store, key: Key): Cells {
    if key in s.rows then s.rows[key].cells else db.blank(key.table)
  }

  /** `cell` is the newest value written to the cell, or the earlier one where nothing was. */
  ghost predicate Holds(db: Db, s: Store, ws: seq<Write>, key: Key, c: Column, cell: Cell) {
    || (exists i :: IsNewest(ws, i, key, c) && cell == ws[i].changes[c])
    || (Unnamed(ws, key, c) && c in Earlier(db, s, key) && cell == Earlier(db, s, key)[c])
  }

  lemma NewestBehind(w: Write, more: seq<Write>, i: int, key: Key, c: Column)
    requires IsNewest(more, i, key, c)
    ensures IsNewest([w] + more, i + 1, key, c) && ([w] + more)[i + 1] == more[i]
  {
    var ws := [w] + more;
    forall k | i + 1 < k < |ws| ensures !Names(ws[k], key, c) {
      assert ws[k] == more[k - 1];
    }
  }

  lemma NewestInFront(w: Write, more: seq<Write>, key: Key, c: Column)
    requires Unnamed(more, key, c)
    ensures Names(w, key, c) ==> IsNewest([w] + more, 0, key, c)
    ensures !Names(w, key, c) ==> Unnamed([w] + more, key, c)
  {
    var ws := [w] + more;
    forall k | 0 < k < |ws| ensures !Names(ws[k], key, c) {
      assert ws[k] == more[k - 1];
    }
  }

  /** What holds after the first write and the rest holds after all of them. */
  lemma HoldsFromFirst(db: Db, s: Store, w: Write, more: seq<Write>, key: Key, c: Column, cell: Cell)
    requires Fits(db, s, w) && Holds(db, Apply(db, s, w), more, key, c, cell)
    requires key in Apply(db, s, w).rows || Earlier(db, Apply(db, s, w), key) == Earlier(db, s, key)
    ensures Holds(db, s, [w] + more, key, c, cell)
  {
    if i :| IsNewest(more, i, key, c) && cell == more[i].changes[c] {
      NewestBehind(w, more, i, key, c);
    } else {
      NewestInFront(w, more, key, c);
      if Names(w, key, c) {
        assert ([w] + more)[0] == w;
      }
    }
  }

  /**
   After any run, over any rows: the rows are the earlier ones and those some write names, each with the
   columns it had or begins with, and each cell holds the value of the newest write that names it, or else
   the earlier or blank one.
   */
  lemma {:induction false} RunWrites(db: Db, s: Store, ws: seq<Write>, key: Key)
    requires IsRun(db, s, ws)
    ensures key in Run(db, s, ws).rows <==> key in s.rows || exists i :: 0 <= i < |ws| && ws[i].key == key
    ensures key in Run(db, s, ws).rows ==>
      && Run(db, s, ws).rows[key].cells.Keys == Earlier(db, s, key).Keys
      && forall c :: c in Earlier(db, s, key) ==> Holds(db, s, ws, key, c, Run(db, s, ws).rows[key].cells[c])
    decreases |ws|
  {
    if ws != [] {
      var w, more := ws[0], ws[1..];
      var s' := Apply(db, s, w);
      assert ws == [w] + more;
      RunWrites(db, s', more, key);
      if key in Run(db, s, ws).rows {
        forall c | c in Earlier(db, s, key)
          ensures Holds(db, s, ws, key, c, Run(db, s, ws).rows[key].cells[c])
        {
          HoldsFromFirst(db, s, w, more, key, c, Run(db, s, ws).rows[key].cells[c]);
        }
      }
    }
  }

  /** The text a value is saved as: NULL as its name, in a byte column the hexadecimal digits. */
  function TextOf(db: Db, table: string, c: Column, cell: Cell): bytes {
    var text := if cell.Null? then Ascii("NULL") else cell.b;
    if db.isByte(table, c) then HexEncode(text) else text
  }

  lemma SavedIsTextOf(db: Db, table: string, c: Column, cell: Cell)
    ensures Saved(db, table, c, cell) == TextOf(db, table, c, cell)
  {
  }

  /**
   The write after a run: in a row that is there it leaves a record under the next number, in the block of
   the write, leading to the row's number so far, and holding for exactly the columns it names the text of
   the newest earlier value; the row takes that number and the cells the write names.
   */
  lemma WriteSavesNewest(db: Db, s: Store, ws: seq<Write>, w: Write)
    requires Valid(s) && IsRun(db, s, ws) && Fits(db, Run(db, s, ws), w)
    ensures var end := Run(db, s, ws);
      var after := Apply(db, end, w);
      && w.key in after.rows
      && (forall key :: key in end.rows && key != w.key ==> key in after.rows && after.rows[key] == end.rows[key])
      && (forall c :: c in after.rows[w.key].cells ==>
            Holds(db, s, ws, w.key, c, after.rows[w.key].cells[c]) || c in w.changes)
      && (forall c :: c in w.changes ==> c in after.rows[w.key].cells && after.rows[w.key].cells[c] == w.changes[c])
      && (w.key !in end.rows ==> after.log == end.log && after.rows[w.key].rb == 0)
      && (w.key in end.rows ==>
            && after.rows[w.key].rb == end.next && end.next !in end.log && end.next in after.log
            && after.log - {end.next} == end.log
            && var record := after.log[end.next];
               && record.block == w.block && record.prev == end.rows[w.key].rb
               && record.saved.Keys == w.changes.Keys
               && forall c :: c in w.changes ==>
                    && c in end.rows[w.key].cells
                    && Holds(db, s, ws, w.key, c, end.rows[w.key].cells[c])
                    && record.saved[c] == TextOf(db, w.key.table, c, end.rows[w.key].cells[c]))
  {
    var end := Run(db, s, ws);
    RunKeepsValid(db, s, ws);
    RunWrites(db, s, ws, w.key);
    var after := Apply(db, end, w);
    assert w.key in end.rows ==> after.log - {end.next} == end.log;
    forall c, cell ensures Saved(db, w.key.table, c, cell) == TextOf(db, w.key.table, c, cell) {
      SavedIsTextOf(db, w.key.table, c, cell);
    }
    if w.key !in end.rows {
      forall c | c in after.rows[w.key].cells && c !in w.changes
        ensures Holds(db, s, ws, w.key, c, after.rows[w.key].cells[c])
      {
        assert w.key !in s.rows;
        assert forall k :: 0 <= k < |ws| ==> ws[k].key != w.key;
      }
    }
  }

  /** A record of the write after a run: its block, and for the columns it names the newest earlier values. */
  ghost predicate SavesNewest(db: Db, s: Store, ws: seq<Write>, w: Write, record: Record) {
    && record.block == w.block && record.saved.Keys == w.changes.Keys
    && forall c :: c in w.changes ==>
         exists cell :: Holds(db, s, ws, w.key, c, cell) && record.saved[c] == TextOf(db, w.key.table, c, cell)
  }

  lemma NewRecordSavesNewest(db: Db, s: Store, ws: seq<Write>, w: Write)
    requires Valid(s) && IsRun(db, s, ws) && Fits(db, Run(db, s, ws), w) && w.key in Run(db, s, ws).rows
    ensures var end := Run(db, s, ws);
      end.next in Apply(db, end, w).log && SavesNewest(db, s, ws, w, Apply(db, end, w).log[end.next])
  {
    WriteSavesNewest(db, s, ws, w);
  }

  /** A run's history grows by the record of its last write, in front of the older ones. */
  lemma {:induction false} OverwrittenGrows(db: Db, s: Store, ws: seq<Write>, w: Write, key: Key)
    requires IsRun(db, s, ws) && Fits(db, Run(db, s, ws), w)
    ensures IsRun(db, s, ws + [w]) && Run(db, s, ws + [w]) == Apply(db, Run(db, s, ws), w)
    ensures Overwritten(db, s, ws + [w], key)
         == (if w.key == key && key in Run(db, s, ws).rows then [RecordOf(db, Run(db, s, ws), w)] else [])
            + Overwritten(db, s, ws, key)
    decreases |ws|
  {
    var all := ws + [w];
    if ws == [] {
      assert all[0] == w && all[1..] == [];
      assert IsRun(db, Apply(db, s, w), []);
    } else {
      assert all[0] == ws[0] && all[1..] == ws[1..] + [w];
      OverwrittenGrows(db, Apply(db, s, ws[0]), ws[1..], w, key);
    }
  }
}
