/** The wallet's history: balances and differences rebuilt from the rollback records of its row. */
module WalletHistory {
  import opened Bytes
  import opened Options
  import opened RollbackLog
  import opened Histories

  /** `inc`: the balance grew by `dif`; otherwise it shrank by `dif` or stayed. */
  datatype Entry = Entry(block: nat, dif: real, balance: real, inc: bool) {
    function Signed(): real {
      if inc then dif else -dif
    }
  }

  /** The wallet's row as read: its amount and its record number. */
  datatype Wallet = Wallet(amount: bytes, rb: nat)

  /** decimal.NewFromString with its error ignored. */
  type Decimal = bytes -> real

  predicate HasAmount(record: Record) {
    "amount" in record.saved
  }

  function Amount(decimal: Decimal, record: Record): real
    requires HasAmount(record)
  {
    decimal(record.saved["amount"])
  }

  function EntryOf(block: nat, balance: real, val: real): (e: Entry)
    ensures e.dif >= 0.0 && e.Signed() == balance - val
  {
    Entry(block, if balance > val then balance - val else val - balance, balance, balance > val)
  }

  /** Numbers only lead to smaller ones. */
  ghost predicate Ordered(log: Log) {
    forall i :: i in log ==> log[i].prev < i
  }

  /** At most n entries from number rb on; None for the error page shown where a record is missing. */
  ghost function Trail(decimal: Decimal, log: Log, rb: nat, balance: real, n: nat): Option<seq<Entry>>
    requires Ordered(log)
    decreases rb
  {
    if n == 0 || rb == 0 then Some([])
    else if rb !in log then None
    else if !HasAmount(log[rb]) then Trail(decimal, log, log[rb].prev, balance, n)
    else
      var val := Amount(decimal, log[rb]);
      Onto([EntryOf(log[rb].block, balance, val)], Trail(decimal, log, log[rb].prev, val, n - 1))
  }

  method ShowHistory(decimal: Decimal, log: Log, current: Option<Wallet>) returns (r: Option<seq<Entry>>)
    requires Ordered(log)
    ensures current.None? ==> r == Some([])
    ensures current.Some? ==> r == Trail(decimal, log, current.value.rb, decimal(current.value.amount), 101)
  {
    var list: seq<Entry> := [];
    if current.Some? && current.value.rb != 0 {
      var rb, balance := current.value.rb, decimal(current.value.amount);
      ghost var whole := Trail(decimal, log, rb, balance, 101);
      OntoNothing(whole);
      while |list| <= 100 && rb > 0
        invariant |list| <= 101
        invariant whole == Onto(list, Trail(decimal, log, rb, balance, 101 - |list|))
        decreases rb
      {
        if rb !in log { return None; }
        var record := log[rb];
        rb := record.prev;
        if HasAmount(record) {
          var val := Amount(decimal, record);
          var dif;
          if balance > val {
            dif := balance - val;
          } else {
            dif := val - balance;
          }
          OntoTwice(list, [EntryOf(record.block, balance, val)], Trail(decimal, log, rb, val, 100 - |list|));
          list := list + [Entry(record.block, dif, balance, balance > val)];
          balance := val;
        }
      }
      assert list + [] == list;
    }
    r := Some(list);
  }

  // ----- What the entries add up to

  /** The records that hold an amount, in order. */
  ghost function WithAmount(records: seq<Record>): (r: seq<Record>)
    ensures forall k :: 0 <= k < |r| ==> HasAmount(r[k])
  {
    if records == [] then []
    else (if HasAmount(records[0]) then [records[0]] else []) + WithAmount(records[1..])
  }

  ghost function Entries(decimal: Decimal, balance: real, records: seq<Record>): (r: seq<Entry>)
    requires forall k :: 0 <= k < |records| ==> HasAmount(records[k])
    ensures |r| == |records|
    decreases |records|
  {
    if records == [] then []
    else
      var val := Amount(decimal, records[0]);
      [EntryOf(records[0].block, balance, val)] + Entries(decimal, val, records[1..])
  }

  /** On a sound log: one entry for each of the first n records of the chain that hold an amount. */
  lemma {:induction false} TrailFollowsChain(decimal: Decimal, log: Log, rb: nat, balance: real, n: nat)
    requires Ordered(log) && Sound(log) && (rb == 0 || rb in log)
    ensures Trail(decimal, log, rb, balance, n)
         == Some(Entries(decimal, balance, Take(WithAmount(Chain(log, rb)), n)))
    decreases rb
  {
    if n != 0 && rb != 0 {
      var record, older := log[rb], Chain(log, log[rb].prev);
      assert ([record] + older)[1..] == older;
      if HasAmount(record) {
        var val := Amount(decimal, record);
        TrailFollowsChain(decimal, log, record.prev, val, n - 1);
        var rest := WithAmount(older);
        assert Take([record] + rest, n) == [record] + Take(rest, n - 1);
        assert ([record] + Take(rest, n - 1))[1..] == Take(rest, n - 1);
      } else {
        TrailFollowsChain(decimal, log, record.prev, balance, n);
        assert [] + WithAmount(older) == WithAmount(older);
      }
    }
  }

  ghost function Total(entries: seq<Entry>): real {
    if entries == [] then 0.0 else entries[0].Signed() + Total(entries[1..])
  }

  /** The amount the entries end at. */
  ghost function Last(decimal: Decimal, balance: real, records: seq<Record>): real
    requires forall k :: 0 <= k < |records| ==> HasAmount(records[k])
  {
    if records == [] then balance else Amount(decimal, records[|records| - 1])
  }

  ghost function Before(decimal: Decimal, balance: real, records: seq<Record>, k: nat): real
    requires k < |records| && forall k :: 0 <= k < |records| ==> HasAmount(records[k])
  {
    if k == 0 then balance else Amount(decimal, records[k - 1])
  }

  /** e shows its balance; undoing its difference gives the amount in the record. */
  ghost predicate Undoes(decimal: Decimal, e: Entry, balance: real, record: Record)
    requires HasAmount(record)
  {
    && e.block == record.block
    && e.balance == balance
    && e.balance - e.Signed() == decimal(record.saved["amount"])
    && e.dif >= 0.0
    && (e.inc <==> e.balance > decimal(record.saved["amount"]))
  }

  /** Each entry shows the balance its predecessor's difference led to, and is undone to its record's amount. */
  ghost predicate Linked(decimal: Decimal, balance: real, records: seq<Record>, entries: seq<Entry>)
    requires |entries| == |records| && forall k :: 0 <= k < |records| ==> HasAmount(records[k])
  {
    forall k :: 0 <= k < |entries| ==> Undoes(decimal, entries[k], Before(decimal, balance, records, k), records[k])
  }

  lemma {:induction false} EntryUndoes(decimal: Decimal, balance: real, records: seq<Record>, k: nat)
    requires k < |records| && forall k :: 0 <= k < |records| ==> HasAmount(records[k])
    ensures Undoes(decimal, Entries(decimal, balance, records)[k], Before(decimal, balance, records, k), records[k])
    decreases k
  {
    if k > 0 {
      EntryUndoes(decimal, Amount(decimal, records[0]), records[1..], k - 1);
    }
  }

  lemma {:induction false} EntriesAddUp(decimal: Decimal, balance: real, records: seq<Record>)
    requires forall k :: 0 <= k < |records| ==> HasAmount(records[k])
    ensures Total(Entries(decimal, balance, records)) == balance - Last(decimal, balance, records)
    decreases |records|
  {
    if records != [] {
      var val, rest := Amount(decimal, records[0]), records[1..];
      EntriesAddUp(decimal, val, rest);
      assert Entries(decimal, balance, records)[1..] == Entries(decimal, val, rest);
    }
  }

  /**
   Over any sound log the page shows at most 101 entries: those of the newest records with an amount,
   starting from the current balance, each leading to the next, with differences adding up to the current
   balance less the last amount visited.
   */
  lemma HistoryAddsUp(decimal: Decimal, log: Log, wallet: Wallet)
    requires Ordered(log) && Sound(log) && (wallet.rb == 0 || wallet.rb in log)
    ensures var balance, records := decimal(wallet.amount), Take(WithAmount(Chain(log, wallet.rb)), 101);
      var r := Trail(decimal, log, wallet.rb, balance, 101);
      && r.Some? && |r.value| == |records| <= 101
      && Linked(decimal, balance, records, r.value)
      && Total(r.value) == balance - Last(decimal, balance, records)
  {
    var balance := decimal(wallet.amount);
    TrailFollowsChain(decimal, log, wallet.rb, balance, 101);
    var records := Take(WithAmount(Chain(log, wallet.rb)), 101);
    EntriesAddUp(decimal, balance, records);
    forall k | 0 <= k < |records|
      ensures Undoes(decimal, Entries(decimal, balance, records)[k], Before(decimal, balance, records, k), records[k])
    {
      EntryUndoes(decimal, balance, records, k);
    }
  }
}
