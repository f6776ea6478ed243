/** The history loops of the page, contract and row views: bounded walks along a row's records. */
module Histories {
  import opened Options
  import opened RollbackLog
  import opened WrittenCells

  /** At most n records from number rb back; None where the loop would write into a missing record's map. */
  function Walk(log: Log, rb: nat, n: nat): Option<seq<Record>>
    decreases n
  {
    if n == 0 || rb == 0 then Some([])
    else if rb !in log then None
    else
      match Walk(log, log[rb].prev, n - 1)
      case None => None
      case Some(older) => Some([log[rb]] + older)
  }

  /** The loop of EditPage and EditContract: round 0 reads the row (0 when it is missing), the rest records. */
  method RowThenRecords(log: Log, rowRb: nat, rounds: nat) returns (history: Option<seq<Record>>)
    requires 0 < rounds
    ensures history == Walk(log, rowRb, rounds - 1)
  {
    var rbId := 0;
    var list: seq<Record> := [];
    var i := 0;
    while i < rounds
      invariant 0 <= i <= rounds
      invariant i == 0 ==> list == []
      invariant 0 < i ==> rbId != 0 && Walk(log, rowRb, rounds - 1) == Onto(list, Walk(log, rbId, rounds - i))
    {
      if i == 0 {
        rbId := rowRb;
        OntoNothing(Walk(log, rbId, rounds - 1));
      } else {
        if rbId !in log { return None; }
        OntoTwice(list, [log[rbId]], Walk(log, log[rbId].prev, rounds - i - 1));
        list, rbId := list + [log[rbId]], log[rbId].prev;
      }
      i := i + 1;
      if rbId == 0 {
        assert list + [] == list;
        break;
      }
    }
    assert list + [] == list;
    history := Some(list);
  }

  method EditPageHistory(log: Log, rowRb: nat) returns (history: Option<seq<Record>>)
    ensures history == Walk(log, rowRb, 29)
  {
    history := RowThenRecords(log, rowRb, 30);
  }

  method EditContractHistory(log: Log, rowRb: nat) returns (history: Option<seq<Record>>)
    ensures history == Walk(log, rowRb, 9)
  {
    history := RowThenRecords(log, rowRb, 10);
  }

  datatype RowView = IncorrectRbId | Missing | History(records: seq<Record>)

  /** RowHistory starts from a number of the form's choosing. */
  method RowHistory(log: Log, formRb: int) returns (r: RowView)
    ensures formRb < 1 ==> r == IncorrectRbId
    ensures 1 <= formRb ==> r == match Walk(log, formRb, 100)
      case None => Missing
      case Some(records) => History(records)
  {
    if formRb < 1 { return IncorrectRbId; }
    var rbId: nat := formRb;
    var list: seq<Record> := [];
    OntoNothing(Walk(log, formRb, 100));
    for i := 0 to 100
      invariant rbId != 0
      invariant Walk(log, formRb, 100) == Onto(list, Walk(log, rbId, 100 - i))
    {
      if rbId !in log { return Missing; }
      OntoTwice(list, [log[rbId]], Walk(log, log[rbId].prev, 99 - i));
      list, rbId := list + [log[rbId]], log[rbId].prev;
      if rbId == 0 {
        assert list + [] == list;
        break;
      }
    }
    assert list + [] == list;
    r := History(list);
  }

  ghost function Take(records: seq<Record>, n: nat): seq<Record> {
    if n <= |records| then records[..n] else records
  }

  /** On a sound log a walk is the row's chain, cut at the bound. */
  lemma {:induction false} WalkIsChain(log: Log, rb: nat, n: nat)
    requires Sound(log) && (rb == 0 || rb in log)
    ensures Walk(log, rb, n) == Some(Take(Chain(log, rb), n))
    decreases rb
  {
    if n != 0 && rb != 0 {
      WalkIsChain(log, log[rb].prev, n - 1);
      var older := Chain(log, log[rb].prev);
      assert Take([log[rb]] + older, n) == [log[rb]] + Take(older, n - 1);
    }
  }

  /** So walks of one row with different bounds are prefixes of each other. */
  lemma ShorterWalkIsPrefix(log: Log, rb: nat, m: nat, n: nat)
    requires Sound(log) && (rb == 0 || rb in log) && m <= n
    ensures Walk(log, rb, m).Some? && Walk(log, rb, n).Some?
    ensures Walk(log, rb, m).value <= Walk(log, rb, n).value
  {
    WalkIsChain(log, rb, m);
    WalkIsChain(log, rb, n);
  }

  /**
   After any run of writes to any rows, a walk of n records from a row's number shows exactly the columns
   the newest n updates of that row overwrote, newest first, going on to those from before the run.
   */
  lemma WalkShowsWhatWasOverwritten(db: Db, s: Store, ws: seq<Write>, key: Key, n: nat)
    requires Valid(s) && IsRun(db, s, ws) && key in Run(db, s, ws).rows
    ensures Walk(Run(db, s, ws).log, Run(db, s, ws).rows[key].rb, n)
         == Some(Take(Overwritten(db, s, ws, key) + HistoryOf(s, key), n))
  {
    RunKeepsValid(db, s, ws);
    var end := Run(db, s, ws);
    ValidLogIsSound(end);
    HistoryIsWhatWasOverwritten(db, s, ws, key);
    WalkIsChain(end.log, end.rows[key].rb, n);
  }

  /**
   One more write to a row, after any run: a walk shows its record, with the newest earlier values of the
   columns it names, in front of what the walk showed before.
   */
  lemma WalkAfterWrite(db: Db, s: Store, ws: seq<Write>, w: Write, n: nat) returns (record: Record)
    requires Valid(s) && IsRun(db, s, ws) && Fits(db, Run(db, s, ws), w) && w.key in Run(db, s, ws).rows
    ensures SavesNewest(db, s, ws, w, record)
    ensures var end := Run(db, s, ws);
      var after := Apply(db, end, w);
      && w.key in after.rows && Walk(end.log, end.rows[w.key].rb, n).Some?
      && Walk(after.log, after.rows[w.key].rb, n + 1)
         == Some([record] + Walk(end.log, end.rows[w.key].rb, n).value)
  {
    var end := Run(db, s, ws);
    var after := Apply(db, end, w);
    NewRecordSavesNewest(db, s, ws, w);
    record := after.log[end.next];
    RunKeepsValid(db, s, ws);
    ApplyKeepsValid(db, end, w);
    ValidLogIsSound(end);
    ValidLogIsSound(after);
    WalkIsChain(end.log, end.rows[w.key].rb, n);
    WalkIsChain(after.log, end.rows[w.key].rb, n);
    ChainFrame(end.log, after.log, end.rows[w.key].rb);
  }

  /** It changes nothing in what the walk of another row shows. */
  lemma OtherWalksStay(db: Db, s: Store, ws: seq<Write>, w: Write, key: Key, n: nat)
    requires Valid(s) && IsRun(db, s, ws) && Fits(db, Run(db, s, ws), w)
    requires key in Run(db, s, ws).rows && key != w.key
    ensures var end := Run(db, s, ws);
      var after := Apply(db, end, w);
      key in after.rows && Walk(after.log, after.rows[key].rb, n) == Walk(end.log, end.rows[key].rb, n)
  {
    var end := Run(db, s, ws);
    var after := Apply(db, end, w);
    RunKeepsValid(db, s, ws);
    ApplyKeepsValid(db, end, w);
    ValidLogIsSound(end);
    ValidLogIsSound(after);
    WalkIsChain(end.log, end.rows[key].rb, n);
    WalkIsChain(after.log, end.rows[key].rb, n);
    ChainFrame(end.log, after.log, end.rows[key].rb);
  }
}
