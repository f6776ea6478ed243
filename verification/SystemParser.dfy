/** The node's parser for system transactions, and that it reads back what the producers wrote. */
module SystemParser {
  import opened Options
  import opened Bytes
  import opened Text
  import opened WireCode
  import opened Frames

  /** The transaction's slices: type, time, then the fields. None is an error. */
  type Parsed = Option<seq<bytes>>

  /** Cut n bytes off the front; too short an input is emptied and yields nothing. */
  function BytesShift(data: bytes, n: int64): (r: (bytes, bytes))
    requires 0 <= n
    ensures |r.0| <= n && |r.0| + |r.1| <= |data|
  {
    if |data| < n || n == 0 then ([], []) else (data[..n], data[n..])
  }

  /** The field loop after i rounds; a twentieth round is an error. */
  function ParseFields(data: bytes, i: nat): Parsed
    requires i < 20
    decreases 20 - i
  {
    var d := DecodeLength(data);
    if i == 19 then None
    else if 0 < d.value < MAX_TX_SIZE then
      var (field, rest) := BytesShift(d.rest, d.value);
      Onto([field], ParseFields(rest, i + 1))
    else if d.value == 0 && d.rest != [] then Onto([[]], ParseFields(d.rest, i + 1))
    else if d.value == 0 then Some([])
    else ParseFields(d.rest, i + 1)
  }

  function Parse(data: bytes): Parsed {
    if data == [] then Some([])
    else
      var (kind, rest) := BytesShift(data, 1);
      if rest == [] then None
      else
        var (time, body) := BytesShift(rest, 4);
        if body == [] then None
        else Onto([Number(kind), Number(time)], ParseFields(body, 0))
  }

  /** A big-endian number of at most four bytes, as decimal text. */
  function Number(s: bytes): bytes
    requires |s| <= 4
  {
    FromBigEndianRoundTrip(s);
    BlockPow(|s|);
    DecimalText(FromBigEndian(s))
  }

  lemma BlockPow(n: nat)
    requires n <= 4
    ensures Pow256(n) <= 0x1_0000_0000
  {
    Pow256Values();
    assert Pow256(0) == 1;
  }

  // ----- The other two branches

  /** The transaction that starts a chain, the only one read as a structure. */
  datatype FirstBlock = FirstBlock(
    time: nat, wallet: int64, citizen: int64, publicKey: bytes, nodeKey: bytes, host: bytes)

  /** BinUnmarshal of an int64, which wants some input. */
  function ReadInt64(input: bytes): Read<int64> {
    var d := DecodeInt64(input);
    if input == [] || d.short then Failed else Got(d.value, d.rest)
  }

  /** Two keys and a host name. */
  function ReadKeys(input: bytes): Read<(bytes, bytes, bytes)> {
    var publicKey := ReadData(input);
    if publicKey.Failed? then Failed else
    var nodeKey := ReadData(publicKey.rest);
    if nodeKey.Failed? then Failed else
    var host := ReadData(nodeKey.rest);
    if host.Failed? then Failed else Got((publicKey.value, nodeKey.value, host.value), host.rest)
  }

  /** Type, time and the two ids. */
  function ReadTxHeader(data: bytes): Read<(nat, int64, int64)> {
    var kind := ReadNumber(data, 1);
    if kind.Failed? then Failed else
    var time := ReadNumber(kind.rest, 4);
    if time.Failed? then Failed else
    var wallet := ReadInt64(time.rest);
    if wallet.Failed? then Failed else
    var citizen := ReadInt64(wallet.rest);
    if citizen.Failed? then Failed else Got((time.value, wallet.value, citizen.value), citizen.rest)
  }

  function ReadFirst(data: bytes): Read<FirstBlock> {
    var head := ReadTxHeader(data);
    if head.Failed? then Failed else
    var keys := ReadKeys(head.rest);
    if keys.Failed? then Failed
    else
      Got(FirstBlock(head.value.0, head.value.1, head.value.2, keys.value.0, keys.value.1, keys.value.2), keys.rest)
  }

  function FirstFields(f: FirstBlock): seq<bytes> {
    [DecimalText(f.wallet), DecimalText(f.citizen), f.publicKey, f.nodeKey, f.host]
  }

  /** Type and time off the front; None when nothing is left behind either. */
  function HeadSlices(data: bytes): Parsed
    requires data != []
  {
    var (kind, rest) := BytesShift(data, 1);
    var (time, body) := BytesShift(rest, 4);
    if rest == [] || body == [] then None else Some([Number(kind), Number(time)])
  }

  /** All of ParseTransaction; `contractOk` says that ContractParser accepts a contract's transaction. */
  function Transaction(data: bytes, contractOk: bool): Parsed {
    if data == [] then Some([])
    else if data[0] > 127 then
      if contractOk then HeadSlices(data) else None
    else if data[0] == 1 then
      match ReadFirst(data)
      case Failed => None
      case Got(f, _) =>
        var head := HeadSlices(data);
        if head.None? then None else Some(head.value + FirstFields(f))
    else Parse(data)
  }

  method ParseTransaction(data: bytes, contractOk: bool) returns (r: Parsed)
    ensures r == Transaction(data, contractOk)
  {
    if data == [] { return Some([]); }
    var (kind, rest) := BytesShift(data, 1);
    var txType := data[0];
    assert data[..1] == [txType];
    var isStruct := txType == 1;
    var structFields: seq<bytes> := [];
    if txType > 127 {
      if !contractOk { return None; }
    } else if isStruct {
      var first := ReadFirst(data);
      if first.Failed? { return None; }
      structFields := FirstFields(first.value);
    }
    var slices := [Number(kind)];
    if rest == [] { return None; }
    var (time, body) := BytesShift(rest, 4);
    slices := slices + [Number(time)];
    assert slices == [Number(kind), Number(time)];
    if body == [] { return None; }
    if txType > 127 {
      return Some(slices);
    } else if isStruct {
      return Some(slices + structFields);
    }
    var fields := ParseFieldsLoop(body);
    if fields.None? { return None; }
    r := Some(slices + fields.value);
  }

  method ParseFieldsLoop(data: bytes) returns (r: Parsed)
    ensures r == ParseFields(data, 0)
  {
    var body := data;
    var slices: seq<bytes> := [];
    var i := 0;
    OntoNothing(ParseFields(data, 0));
    while true
      invariant 0 <= i < 20 && ParseFields(data, 0) == Onto(slices, ParseFields(body, i))
      decreases 20 - i
    {
      var d := DecodeLength(body);
      var length := d.value;
      body := d.rest;
      i := i + 1;
      if i >= 20 { return None; }
      if 0 < length < MAX_TX_SIZE {
        var (field, rest') := BytesShift(body, length);
        OntoTwice(slices, [field], ParseFields(rest', i));
        slices, body := slices + [field], rest';
      } else if length == 0 && body != [] {
        OntoTwice(slices, [[]], ParseFields(body, i));
        slices := slices + [[]];
      } else if length == 0 {
        break;
      }
    }
    assert slices + [] == slices;
    r := Some(slices);
  }

  function KeysCode(f: FirstBlock): bytes {
    LengthPlusData(f.publicKey) + (LengthPlusData(f.nodeKey) + (LengthPlusData(f.host) + []))
  }

  function FirstBlockCode(f: FirstBlock): bytes {
    [1] + (BigEndian(f.time, 4) + (Int64Code(f.wallet) + (Int64Code(f.citizen) + KeysCode(f))))
  }

  lemma ReadInt64OfCode(x: int64, rest: bytes)
    ensures ReadInt64(Int64Code(x) + rest) == Got(x, rest)
  {
    DecodeInt64OfCode(x, rest);
  }

  lemma KeysReadBack(f: FirstBlock)
    requires |f.publicKey| < TWO63 && |f.nodeKey| < TWO63 && |f.host| < TWO63
    ensures ReadKeys(KeysCode(f)) == Got((f.publicKey, f.nodeKey, f.host), [])
  {
    var host := LengthPlusData(f.host) + [];
    ReadDataOfCode(f.publicKey, LengthPlusData(f.nodeKey) + host);
    ReadDataOfCode(f.nodeKey, host);
    ReadDataOfCode(f.host, []);
  }

  lemma TxHeaderReadsBack(f: FirstBlock, rest: bytes)
    requires f.time < TWO32
    ensures ReadTxHeader([1] + (BigEndian(f.time, 4) + (Int64Code(f.wallet) + (Int64Code(f.citizen) + rest))))
         == Got((f.time, f.wallet, f.citizen), rest)
  {
    Pow256Values();
    var citizen := Int64Code(f.citizen) + rest;
    var wallet := Int64Code(f.wallet) + citizen;
    var time := BigEndian(f.time, 4) + wallet;
    assert ([1] + time)[1..] == time;
    ReadNumberOfBigEndian(f.time, 4, wallet);
    ReadInt64OfCode(f.wallet, citizen);
    ReadInt64OfCode(f.citizen, rest);
  }

  /** The first block's transaction, marshalled field by field, is read back. */
  lemma FirstBlockReadsBack(f: FirstBlock)
    requires f.time < TWO32 && |f.publicKey| < TWO63 && |f.nodeKey| < TWO63 && |f.host| < TWO63
    ensures ReadFirst(FirstBlockCode(f)) == Got(f, [])
  {
    TxHeaderReadsBack(f, KeysCode(f));
    KeysReadBack(f);
  }

  lemma HeadSlicesOf(kind: byte, time: nat, body: bytes)
    requires time < TWO32 && body != []
    ensures HeadSlices([kind] + (BigEndian(time, 4) + body)) == Some([DecimalText(kind), DecimalText(time)])
  {
    var clock := BigEndian(time, 4);
    var data := [kind] + (clock + body);
    assert data[..1] == [kind] && data[1..] == clock + body;
    assert (clock + body)[..4] == clock && (clock + body)[4..] == body;
    Pow256Values();
    BigEndianRoundTrip(time, 4);
    OneByte(kind);
  }

  lemma FirstBlockIsParsed(f: FirstBlock, contractOk: bool)
    requires f.time < TWO32 && |f.publicKey| < TWO63 && |f.nodeKey| < TWO63 && |f.host| < TWO63
    ensures Transaction(FirstBlockCode(f), contractOk)
         == Some([DecimalText(1), DecimalText(f.time)] + FirstFields(f))
  {
    FirstBlockReadsBack(f);
    HeadSlicesOf(1, f.time, Int64Code(f.wallet) + (Int64Code(f.citizen) + KeysCode(f)));
  }

  /** Numbers as text, then the others. */
  ghost predicate HasSlices(slices: seq<bytes>, numbers: seq<int64>, texts: seq<bytes>) {
    && |slices| == |numbers| + |texts|
    && (forall i :: 0 <= i < |numbers| ==> slices[i] == FormatInt(numbers[i]))
    && (forall i :: 0 <= i < |texts| ==> slices[|numbers| + i] == texts[i])
  }

  /** The slices are its type, its time, the two ids as text, both keys and the host. */
  lemma FirstBlockSlices(f: FirstBlock)
    requires f.time < TWO32
    ensures HasSlices([DecimalText(1), DecimalText(f.time)] + FirstFields(f), [1, f.time, f.wallet, f.citizen],
                      [f.publicKey, f.nodeKey, f.host])
  {
  }

  /** The first byte decides how a transaction is read; the contract parser only has a say above 127. */
  lemma KindDecidesBranch(data: bytes, contractOk: bool)
    requires data != []
    ensures data[0] < 128 && data[0] != 1 ==> Transaction(data, contractOk) == Parse(data)
    ensures 128 <= data[0] ==>
      var r := Transaction(data, contractOk);
      && (r.Some? <==> contractOk && 5 < |data|)
      && (r.Some? ==> r.value == [DecimalText(data[0]), FormatInt(FromBigEndian(data[1..5]))])
  {
    HeadSlicesAre(data);
  }

  lemma HeadSlicesAre(data: bytes)
    requires data != []
    ensures HeadSlices(data).Some? <==> 5 < |data|
    ensures HeadSlices(data).Some? ==>
      HeadSlices(data).value == [DecimalText(data[0]), FormatInt(FromBigEndian(data[1..5]))]
  {
    OneByte(data[0]);
    if 5 < |data| {
      assert data[..1] == [data[0]] && data[1..][..4] == data[1..5];
    }
  }

  lemma OneByte(b: byte)
    ensures FromBigEndian([b]) == b
  {
    assert [b][..0] == [];
  }

  // ----- Reading back a frame

  /** Fields the parser's loop can carry: short ones, the last of them not empty. */
  predicate Carried(values: seq<bytes>) {
    AllShort(values) && (values != [] ==> values[|values| - 1] != [])
  }

  lemma CarriedTail(values: seq<bytes>)
    requires Carried(values) && values != []
    ensures Carried(values[1..]) && |values[0]| < MAX_TX_SIZE && (values[0] != [] || values[1..] != [])
  {
  }

  lemma {:induction false} FieldsParse(values: seq<bytes>, i: nat)
    requires Carried(values) && i + |values| < 19
    ensures ParseFields(Fields(values), i) == Some(values)
    decreases |values|
  {
    if values != [] {
      CarriedTail(values);
      FieldsParse(values[1..], i + 1);
      FieldsParseFrom(values[0], values[1..], i);
      assert values == [values[0]] + values[1..];
    }
  }

  lemma FieldsCons(v: bytes, more: seq<bytes>)
    ensures Fields([v] + more) == LengthCode(Len(v)) + (v + Fields(more))
  {
    assert ([v] + more)[1..] == more;
    Associative(LengthCode(Len(v)), v, Fields(more));
  }

  lemma FieldsParseFrom(v: bytes, more: seq<bytes>, i: nat)
    requires |v| < MAX_TX_SIZE && i < 19 && (v != [] || more != [])
    requires ParseFields(Fields(more), i + 1) == Some(more)
    ensures ParseFields(Fields([v] + more), i) == Some([v] + more)
  {
    FieldsCons(v, more);
    FirstFieldParses(v, Fields(more), i);
  }

  lemma FirstFieldParses(v: bytes, rest: bytes, i: nat)
    requires |v| < MAX_TX_SIZE && i < 19
    requires v != [] || rest != []
    ensures ParseFields(LengthCode(|v|) + (v + rest), i) == Onto([v], ParseFields(rest, i + 1))
  {
    DecodeLengthOfCode(|v|, v + rest);
    assert (v + rest)[..|v|] == v && (v + rest)[|v|..] == rest;
  }

  // ----- The maps

  /** The declared types: int64, decimal, and string or bytes. */
  datatype FieldKind = Whole | Exact | Plain

  datatype Declared = Declared(field: Field, kind: FieldKind)

  function KindOf(t: TxType, f: Field): FieldKind {
    match f
    case Form(Amount) => Exact
    case Form(Commission) => Exact
    case Form(Global) => if t.NewMenu? || t.NewPage? then Plain else Whole
    case Form(Index) => Whole
    case Form(FuelRate) => Whole
    case Form(Id) => if t.EditWallet? then Whole else Plain
    case _ => Plain
  }

  /** What the type's Init asks GetTxMaps for. */
  function Declaration(t: TxType): (d: seq<Declared>)
    ensures |d| == |Schema(t)| && forall i :: 0 <= i < |d| ==> d[i] == Declared(Schema(t)[i], KindOf(t, Schema(t)[i]))
  {
    seq(|Schema(t)|, i requires 0 <= i < |Schema(t)| => Declared(Schema(t)[i], KindOf(t, Schema(t)[i])))
  }

  /** The value in the map of its type; an amount is kept as the text it is read from. */
  datatype Typed = Integer(n: int64) | Amounting(text: bytes) | Raw(text: bytes)

  datatype Entry = Entry(field: Field, text: bytes, value: Typed)

  function EntryOf(d: Declared, text: bytes): Entry {
    Entry(d.field, text,
          match d.kind
          case Whole => Integer(ParseInt(text))
          case Exact => Amounting(text)
          case Plain => Raw(text))
  }

  datatype TxMaps = TxMaps(
    kind: int64, time: int64, userId: int64, stateId: int64, citizenId: int64, walletId: int64, fields: seq<Entry>)

  /** OutOfRange: GetTxMaps indexes a slice that is not there. */
  datatype Mapped = Mapped(maps: TxMaps) | BadTransaction | OutOfRange

  function Zip(fields: seq<Declared>, values: seq<bytes>): seq<Entry>
    requires |fields| == |values|
  {
    seq(|fields|, i requires 0 <= i < |fields| => EntryOf(fields[i], values[i]))
  }

  ghost predicate AmountsOk(fields: seq<Declared>, values: seq<bytes>, isDecimal: bytes -> bool)
    requires |fields| == |values|
  {
    forall i :: 0 <= i < |fields| && fields[i].kind.Exact? ==> isDecimal(values[i])
  }

  ghost function MapOf(slices: seq<bytes>, fields: seq<Declared>, isDecimal: bytes -> bool): Mapped {
    if |slices| < 4 then OutOfRange
    else if |slices| != |fields| + 4 || ParseInt(slices[0]) == 0 || !AmountsOk(fields, slices[4..], isDecimal) then
      BadTransaction
    else
      Mapped(Reading(ParseInt(slices[0]), ParseInt(slices[1]), ParseInt(slices[2]), ParseInt(slices[3]), fields,
                     slices[4..]))
  }

  /** Fewer than four slices are out of range; otherwise maps are made exactly of a typed, complete transaction. */
  lemma MappedExactly(slices: seq<bytes>, fields: seq<Declared>, isDecimal: bytes -> bool)
    ensures MapOf(slices, fields, isDecimal) == OutOfRange <==> |slices| <= 3
    ensures MapOf(slices, fields, isDecimal).Mapped? <==>
      && |slices| == 4 + |fields| && ParseInt(slices[0]) != 0
      && forall i :: 0 <= i < |fields| && fields[i].kind == Exact ==> isDecimal(slices[4 + i])
  {
    if |slices| == 4 + |fields| {
      assert forall i :: 0 <= i < |fields| ==> slices[4..][i] == slices[4 + i];
    }
  }

  /** The maps of a transaction with this sender and these field values. */
  function Reading(code: int64, time: int64, user: int64, state: int64, fields: seq<Declared>, values: seq<bytes>)
    : TxMaps
    requires |fields| == |values|
  {
    TxMaps(code, time, user, state, if state > 0 then user else 0, if state > 0 then 0 else user, Zip(fields, values))
  }

  method GetTxMaps(slices: seq<bytes>, fields: seq<Declared>, isDecimal: bytes -> bool) returns (r: Mapped)
    ensures r == MapOf(slices, fields, isDecimal)
  {
    if |slices| < 4 { return OutOfRange; }
    var kind, time, user, state := ParseInt(slices[0]), ParseInt(slices[1]), ParseInt(slices[2]), ParseInt(slices[3]);
    var citizen, wallet: int64;
    if state > 0 {
      citizen, wallet := user, 0;
    } else {
      citizen, wallet := 0, user;
    }
    if kind == 0 { return BadTransaction; }
    if |slices| != |fields| + 4 { return BadTransaction; }
    var txMap: seq<Entry> := [];
    for i := 0 to |fields|
      invariant txMap == Zip(fields, slices[4..])[..i]
      invariant forall k :: 0 <= k < i && fields[k].kind.Exact? ==> isDecimal(slices[k + 4])
    {
      var text := slices[i + 4];
      assert slices[4..][i] == text;
      match fields[i].kind
      case Whole => txMap := txMap + [Entry(fields[i].field, text, Integer(ParseInt(text)))];
      case Exact =>
        if !isDecimal(text) { return BadTransaction; }
        txMap := txMap + [Entry(fields[i].field, text, Amounting(text))];
      case Plain => txMap := txMap + [Entry(fields[i].field, text, Raw(text))];
    }
    assert txMap == Zip(fields, slices[4..]);
    r := Mapped(TxMaps(kind, time, user, state, citizen, wallet, txMap));
  }

  /** A field declared int64 prints back to its text exactly when that is canonical. */
  lemma NumbersPrintBack(fields: seq<Declared>, values: seq<bytes>, i: nat)
    requires |fields| == |values| && i < |fields| && fields[i].kind.Whole?
    ensures var e := Zip(fields, values)[i];
      e.value.Integer? && (FormatInt(e.value.n) == e.text <==> CanonicalInt(values[i]))
  {
    IntTextRoundTrip(values[i]);
  }

  // ----- Producers and parser agree

  predicate AllShort(slices: seq<bytes>) {
    forall k :: 0 <= k < |slices| ==> |slices[k]| < MAX_TX_SIZE
  }

  /** No slice the field loop yields reaches the size limit. */
  lemma {:induction false} ParsedFieldsAreShort(data: bytes, i: nat)
    requires i < 20
    ensures var r := ParseFields(data, i); r.Some? ==> AllShort(r.value)
    decreases 20 - i
  {
    var d := DecodeLength(data);
    if i < 19 {
      if 0 < d.value < MAX_TX_SIZE {
        var (field, rest) := BytesShift(d.rest, d.value);
        ParsedFieldsAreShort(rest, i + 1);
        assert |field| < MAX_TX_SIZE;
        OntoShort(field, ParseFields(rest, i + 1));
      } else if d.value != 0 || d.rest != [] {
        ParsedFieldsAreShort(d.rest, i + 1);
        OntoShort([], ParseFields(d.rest, i + 1));
      }
    }
  }

  lemma OntoShort(field: bytes, r: Parsed)
    requires |field| < MAX_TX_SIZE
    requires r.Some? ==> AllShort(r.value)
    ensures Onto([field], r).Some? ==> AllShort(Onto([field], r).value)
  {
  }

  /** More than eighteen fields, short or not, are an error. */
  lemma {:induction false} ManyFieldsAreRejected(values: seq<bytes>, i: nat)
    requires Carried(values) && i < 20 && 19 <= i + |values|
    ensures ParseFields(Fields(values), i) == None
    decreases |values|
  {
    if i < 19 {
      CarriedTail(values);
      ManyFieldsAreRejected(values[1..], i + 1);
      FieldsRejectedFrom(values[0], values[1..], i);
      assert values == [values[0]] + values[1..];
    }
  }

  lemma FieldsRejectedFrom(v: bytes, more: seq<bytes>, i: nat)
    requires |v| < MAX_TX_SIZE && i < 19 && (v != [] || more != [])
    requires ParseFields(Fields(more), i + 1) == None
    ensures ParseFields(Fields([v] + more), i) == None
  {
    FieldsCons(v, more);
    FirstFieldParses(v, Fields(more), i);
  }

  /** A field of which less is there than its length says is read as empty and ends the loop. */
  lemma CutFieldIsEmpty(n: int64, rest: bytes, i: nat)
    requires |rest| < n < 0x200_0000 && i < 18
    ensures ParseFields(LengthCode(n) + rest, i) == Some([[]])
  {
    DecodeLengthOfCode(n, rest);
    var empty: seq<bytes> := [[]];
    assert ParseFields([], i + 1) == Some([]) && empty + [] == empty;
  }

  /** A negative length is passed over: the loop reads the next one from what follows. */
  lemma NegativeLengthIsSkipped(n: int64, rest: bytes, i: nat)
    requires n < 0 && i < 19
    ensures ParseFields(LengthCode(n) + rest, i) == ParseFields(rest, i + 1)
  {
    DecodeLengthOfCode(n, rest);
  }

  /**
   A frame with known type and 32-bit time, the last of its fields not empty, is read back slice by slice
   exactly when every field is below 32 MiB and there are at most eighteen.
   */
  lemma FrameParsesExactly(lib: Library, code: nat, time: nat, values: seq<bytes>)
    requires code < 256 && time < 0x1_0000_0000
    requires values != [] && values[|values| - 1] != []
    ensures Parse(FrameBytes(lib, code, time, values)) == Some([DecimalText(code), DecimalText(time)] + values)
            <==> |values| <= 18 && forall k :: 0 <= k < |values| ==> |values[k]| < 0x200_0000
  {
    if !AllShort(values) {
      var k :| 0 <= k < |values| && |values[k]| >= MAX_TX_SIZE;
      LongFieldIsLost(lib, code, time, values, k);
    } else if |values| <= 18 {
      FrameParses(lib, code, time, values);
    } else {
      ParseHead(lib, code, time, values);
      ManyFieldsAreRejected(values, 0);
    }
  }

  lemma FrameParses(lib: Library, code: nat, time: nat, values: seq<bytes>)
    requires code < 256 && time < 0x1_0000_0000
    requires values != [] && |values| < 19 && values[|values| - 1] != []
    requires AllShort(values)
    ensures Parse(FrameBytes(lib, code, time, values)) == Some([DecimalText(code), DecimalText(time)] + values)
  {
    ParseHead(lib, code, time, values);
    FieldsParse(values, 0);
  }

  lemma LongFieldIsLost(lib: Library, code: nat, time: nat, values: seq<bytes>, k: nat)
    requires code < 256 && time < 0x1_0000_0000
    requires k < |values| && |values[k]| >= MAX_TX_SIZE
    ensures Parse(FrameBytes(lib, code, time, values)) != Some([DecimalText(code), DecimalText(time)] + values)
  {
    ParseHead(lib, code, time, values);
    ParsedFieldsAreShort(Fields(values), 0);
    var head, r := [DecimalText(code), DecimalText(time)], ParseFields(Fields(values), 0);
    if Onto(head, r) == Some(head + values) {
      Cancel(head, r.value, values);
      assert false;
    }
  }

  lemma Cancel(head: seq<bytes>, a: seq<bytes>, b: seq<bytes>)
    requires head + a == head + b
    ensures a == b
  {
    assert (head + a)[|head|..] == a && (head + b)[|head|..] == b;
  }

  lemma ParseHead(lib: Library, code: nat, time: nat, values: seq<bytes>)
    requires code < 256 && time < 0x1_0000_0000 && values != []
    ensures Parse(FrameBytes(lib, code, time, values)) ==
            Onto([DecimalText(code), DecimalText(time)], ParseFields(Fields(values), 0))
  {
    Pow256Values();
    var kind, clock, body := BigEndian(code, 1), BigEndian(time, 4), Fields(values);
    Associative(kind, clock, body);
    var data := kind + (clock + body);
    assert data[..1] == kind && data[1..] == clock + body;
    assert (clock + body)[..4] == clock && (clock + body)[4..] == body;
    BigEndianRoundTrip(code, 1);
    BigEndianRoundTrip(time, 4);
  }

  /** `user` and `state` may be any texts; they are read as numbers. */
  lemma FrameMaps(lib: Library, code: nat, time: nat, user: bytes, state: bytes, fields: seq<Declared>,
                  values: seq<bytes>, isDecimal: bytes -> bool)
    requires 0 < code < 256 && time < 0x1_0000_0000
    requires 0 < |values| == |fields| < 17 && values[|values| - 1] != []
    requires |user| < MAX_TX_SIZE && |state| < MAX_TX_SIZE
    requires AllShort(values)
    ensures var r := Parse(FrameBytes(lib, code, time, [user, state] + values));
      r.Some? && MapOf(r.value, fields, isDecimal) ==
                   if AmountsOk(fields, values, isDecimal)
                   then Mapped(Reading(code, time, ParseInt(user), ParseInt(state), fields, values))
                   else BadTransaction
  {
    FrameParses(lib, code, time, [user, state] + values);
    ParseIntOfFormat(code);
    ParseIntOfFormat(time);
    FourAndMore(DecimalText(code), DecimalText(time), user, state, values);
    MapOfParts(DecimalText(code), DecimalText(time), user, state, fields, values, isDecimal);
  }

  lemma FourAndMore(a: bytes, b: bytes, c: bytes, d: bytes, values: seq<bytes>)
    ensures [a, b] + ([c, d] + values) == [a, b, c, d] + values
  {
  }

  lemma MapOfParts(kind: bytes, time: bytes, user: bytes, state: bytes, fields: seq<Declared>, values: seq<bytes>,
                   isDecimal: bytes -> bool)
    requires |values| == |fields| && ParseInt(kind) != 0
    ensures MapOf([kind, time, user, state] + values, fields, isDecimal) ==
            if AmountsOk(fields, values, isDecimal)
            then Mapped(Reading(ParseInt(kind), ParseInt(time), ParseInt(user), ParseInt(state), fields, values))
            else BadTransaction
  {
    assert ([kind, time, user, state] + values)[4..] == values;
  }

  lemma SchemaShape(t: TxType)
    requires !t.Unserialized?
    ensures 0 < |Schema(t)| < 17 && Schema(t)[|Schema(t)| - 1] == Sign
    ensures 1 < Code(t) < 128
  {
  }

  /** What the request says, in the node's terms. */
  function Submitted(r: Request, lib: Library): TxMaps
    requires Accepted(r)
  {
    var (user, state) := Sender(r);
    Reading(Code(r.t), TimeOf(r), user, state, Declaration(r.t), Sources(r, lib, Schema(r.t)))
  }

  predicate AmountsAreDecimal(r: Request, isDecimal: bytes -> bool) {
    isDecimal(r.form(Amount)) && isDecimal(r.form(Commission))
  }

  /** The node's maps of a queued request are what the request says. */
  ghost predicate IsReadBack(r: Request, lib: Library, isDecimal: bytes -> bool)
    requires Accepted(r)
  {
    var slices := Parse(Frame(r, lib));
    slices.Some? && MapOf(slices.value, Declaration(r.t), isDecimal) == Mapped(Submitted(r, lib))
  }

  /**
   For every request SaveQueue accepts, of any of the twenty-six types: the node reads back the type, the
   time, the sender and, under each name its parser declares, exactly the value the form held for it, if
   and only if the time fits 32 bits, every field is below the size limit, and the amounts of a transfer are
   decimals.
   */
  lemma NodeReadsWhatWasQueued(r: Request, lib: Library, isDecimal: bytes -> bool)
    requires Accepted(r) && !r.t.Unserialized?
    ensures IsReadBack(r, lib, isDecimal) <==>
      && TimeOf(r) < TWO32 && AllShort(Sources(r, lib, Schema(r.t)))
      && (r.t.DLTTransfer? ==> AmountsAreDecimal(r, isDecimal))
  {
    AmountsAreTransferOnly(r, lib, isDecimal);
    if TimeOf(r) < TWO32 && AllShort(Sources(r, lib, Schema(r.t))) {
      ShortFrameIsMapped(r, lib, isDecimal);
    }
    if IsReadBack(r, lib, isDecimal) {
      ReadBackIsWithinLimits(r, lib, isDecimal);
    }
  }

  /** Within the limits of time and size, a bad amount is the only reason for a refusal. */
  lemma ShortFrameIsMapped(r: Request, lib: Library, isDecimal: bytes -> bool)
    requires Accepted(r) && !r.t.Unserialized? && TimeOf(r) < TWO32 && AllShort(Sources(r, lib, Schema(r.t)))
    ensures Parse(Frame(r, lib)).Some?
    ensures MapOf(Parse(Frame(r, lib)).value, Declaration(r.t), isDecimal) ==
            if AmountsOk(Declaration(r.t), Sources(r, lib, Schema(r.t)), isDecimal)
            then Mapped(Submitted(r, lib)) else BadTransaction
  {
    SchemaShape(r.t);
    var values := Sources(r, lib, Schema(r.t));
    assert values[|values| - 1] == LengthPlusData(r.signature.value);
    FrameMaps(lib, Code(r.t), TimeOf(r), DecimalText(Sender(r).0), DecimalText(Sender(r).1), Declaration(r.t), values,
              isDecimal);
    ParseIntOfFormat(Sender(r).0);
    ParseIntOfFormat(Sender(r).1);
  }

  /** Whatever is parsed has a 32-bit time and short fields. */
  lemma ParsedShape(data: bytes)
    requires data != [] && Parse(data).Some?
    ensures var slices := Parse(data).value;
      2 <= |slices| && ParseInt(slices[1]) < TWO32 && AllShort(slices[2..])
  {
    var (kind, rest) := BytesShift(data, 1);
    var (time, body) := BytesShift(rest, 4);
    FromBigEndianRoundTrip(time);
    BlockPow(|time|);
    ParseIntOfFormat(FromBigEndian(time));
    ParsedFieldsAreShort(body, 0);
    var fields := ParseFields(body, 0).value;
    assert ([Number(kind), Number(time)] + fields)[2..] == fields;
  }

  lemma SameTexts(fields: seq<Declared>, a: seq<bytes>, b: seq<bytes>)
    requires |fields| == |a| == |b| && Zip(fields, a) == Zip(fields, b)
    ensures a == b
  {
    forall i | 0 <= i < |a|
      ensures a[i] == b[i]
    {
      assert Zip(fields, a)[i].text == Zip(fields, b)[i].text;
    }
  }

  lemma ReadBackIsWithinLimits(r: Request, lib: Library, isDecimal: bytes -> bool)
    requires Accepted(r) && !r.t.Unserialized? && IsReadBack(r, lib, isDecimal)
    ensures TimeOf(r) < TWO32 && AllShort(Sources(r, lib, Schema(r.t)))
    ensures AmountsOk(Declaration(r.t), Sources(r, lib, Schema(r.t)), isDecimal)
  {
    SchemaShape(r.t);
    FrameStarts(lib, Code(r.t), TimeOf(r), Values(r, lib));
    ParsedShape(Frame(r, lib));
    var slices, values := Parse(Frame(r, lib)).value, Sources(r, lib, Schema(r.t));
    SameTexts(Declaration(r.t), slices[4..], values);
    assert slices[4..] == slices[2..][2..];
  }

  lemma AmountsAreTransferOnly(r: Request, lib: Library, isDecimal: bytes -> bool)
    requires r.signature.Some?
    ensures AmountsOk(Declaration(r.t), Sources(r, lib, Schema(r.t)), isDecimal) <==>
            (r.t.DLTTransfer? ==> AmountsAreDecimal(r, isDecimal))
  {
    var fields, values := Declaration(r.t), Sources(r, lib, Schema(r.t));
    if r.t.DLTTransfer? {
      assert fields[1].kind.Exact? && fields[2].kind.Exact?;
      assert values[1] == r.form(Amount) && values[2] == r.form(Commission);
    }
    forall i | 0 <= i < |fields| && fields[i].kind.Exact?
      ensures r.t.DLTTransfer? && (i == 1 || i == 2)
    {
      AmountPositions(r.t, i);
    }
  }

  lemma AmountPositions(t: TxType, i: nat)
    requires i < |Schema(t)| && (Schema(t)[i] == Form(Amount) || Schema(t)[i] == Form(Commission))
    ensures t.DLTTransfer? && (i == 1 || i == 2)
  {
  }

  /** A number the form posts for a field declared int64 is kept as posted exactly when it is canonical. */
  lemma PostedNumbersAreKept(r: Request, lib: Library, i: nat)
    requires Accepted(r) && i < |Schema(r.t)| && Declaration(r.t)[i].kind.Whole?
    ensures var e := Submitted(r, lib).fields[i];
      && e.text == Source(r, lib, Schema(r.t)[i]) && e.value.Integer?
      && (FormatInt(e.value.n) == e.text <==> CanonicalInt(e.text))
  {
    NumbersPrintBack(Declaration(r.t), Sources(r, lib, Schema(r.t)), i);
  }

  /** A frame with a field of 32 MiB, the last one present: it is not read back. */
  lemma LongFrameIsNotReadBack(lib: Library)
    ensures var values := [Zeros(0x200_0000), [1]];
      Parse(FrameBytes(lib, Code(NewLang), 0, values)) != Some([DecimalText(Code(NewLang)), DecimalText(0)] + values)
  {
    var values := [Zeros(0x200_0000), [1]];
    assert !AllShort(values) by { assert |values[0]| == 0x200_0000; }
    FrameParsesExactly(lib, Code(NewLang), 0, values);
  }

  // ----- Unique decodability

  lemma {:induction false} FieldsAreUnique(a: seq<bytes>, b: seq<bytes>)
    requires Fields(a) == Fields(b) && InMemory(a) && InMemory(b)
    ensures a == b
  {
    if a != [] && b != [] {
      var u, v, s, t := a[0], b[0], Fields(a[1..]), Fields(b[1..]);
      ReadDataOfCode(u, s);
      ReadDataOfCode(v, t);
      FieldsAreUnique(a[1..], b[1..]);
      assert a == [u] + a[1..] && b == [v] + b[1..];
    }
  }

  predicate InMemory(values: seq<bytes>) {
    forall i :: 0 <= i < |values| ==> |values[i]| < TWO63
  }

  lemma OtherCountOtherBytes(a: seq<bytes>, b: seq<bytes>)
    requires |a| != |b| && InMemory(a) && InMemory(b)
    ensures Fields(a) != Fields(b)
  {
    if Fields(a) == Fields(b) {
      FieldsAreUnique(a, b);
    }
  }

  function TypeOf(code: nat): TxType {
    match code
    case 5 => DLTTransfer
    case 6 => DLTChangeHostVote
    case 8 => ChangeNodeKey
    case 9 => NewState
    case 10 => NewColumn
    case 11 => NewTable
    case 12 => EditPage
    case 13 => EditMenu
    case 14 => EditContract
    case 15 => NewContract
    case 16 => EditColumn
    case 17 => EditTable
    case 18 => EditStateParameters
    case 19 => NewStateParameters
    case 20 => NewPage
    case 21 => NewMenu
    case 22 => ChangeNodeKeyDLT
    case 23 => AppendPage
    case 28 => NewLang
    case 29 => EditLang
    case 30 => AppendMenu
    case 31 => NewSign
    case 32 => EditSign
    case 33 => EditWallet
    case 34 => ActivateContract
    case 35 => NewAccount
    case _ => Unserialized([])
  }

  lemma DecimalTextIsUnique(x: int64, y: int64)
    requires DecimalText(x) == DecimalText(y)
    ensures x == y
  {
    ParseIntOfFormat(x);
    ParseIntOfFormat(y);
  }

  lemma LengthPlusDataIsUnique(a: slice, b: slice)
    requires LengthPlusData(a) == LengthPlusData(b)
    ensures a == b
  {
    ReadDataOfCode(a, []);
    ReadDataOfCode(b, []);
  }

  lemma SamePair(x: bytes, y: bytes, s: seq<bytes>, x': bytes, y': bytes, s': seq<bytes>)
    requires [x, y] + s == [x', y'] + s'
    ensures x == x' && y == y' && s == s'
  {
    var a, b := [x, y] + s, [x', y'] + s';
    assert a[0] == b[0] && a[1] == b[1] && a[2..] == b[2..];
    assert a[2..] == s && b[2..] == s';
  }

  lemma SameValuesSameFields(r: Request, q: Request, lib: Library)
    requires r.signature.Some? && q.signature.Some? && Values(r, lib) == Values(q, lib)
    ensures Sender(r) == Sender(q) && Sources(r, lib, Schema(r.t)) == Sources(q, lib, Schema(q.t))
  {
    var (user, state) := Sender(r);
    var (user', state') := Sender(q);
    SamePair(DecimalText(user), DecimalText(state), Sources(r, lib, Schema(r.t)),
             DecimalText(user'), DecimalText(state'), Sources(q, lib, Schema(q.t)));
    DecimalTextIsUnique(user, user');
    DecimalTextIsUnique(state, state');
  }

  lemma TypeByte(lib: Library, code: nat)
    requires code < 256
    ensures lib.DecToBin(code, 1) == [code]
  {
    Pow256Values();
    assert BigEndian(code / 256, 0) == [];
  }

  lemma FrameStarts(lib: Library, code: nat, time: nat, values: seq<bytes>)
    requires code < 256
    ensures var frame := FrameBytes(lib, code, time, values);
      frame != [] && frame[0] == code && frame[1..] == TimeBytes(lib, time) + Fields(values)
  {
    TypeByte(lib, code);
    FirstByte(code, TimeBytes(lib, time), Fields(values));
  }

  lemma FirstByte(code: byte, clock: bytes, body: bytes)
    ensures var frame := [code] + clock + body; frame[0] == code && frame[1..] == clock + body
  {
  }

  // ----- A time is never taken for a field

  /** A decimal text: short, and of bytes above every length it could have. */
  predicate IsNumberText(s: bytes) {
    0 < |s| <= 20 && forall i :: 0 <= i < |s| ==> 45 <= s[i]
  }

  lemma DecimalTextIsNumberText(x: int64)
    ensures IsNumberText(DecimalText(x))
  {
  }

  lemma FieldsOfNumber(v: bytes, more: seq<bytes>)
    requires IsNumberText(v)
    ensures Fields([v] + more) == [|v|] + (v + Fields(more))
  {
    FieldsCons(v, more);
  }

  lemma FifthOfTwo(x: bytes, y: bytes, tail: bytes)
    requires IsNumberText(x) && IsNumberText(y)
    ensures var inner := [|y|] + (y + tail);
      var all := [|x|] + (x + inner);
      4 <= |all| && ((4 < |all| && 45 <= all[4]) || all[4..] == inner || all[4..] == tail)
  {
    var inner := [|y|] + (y + tail);
    var all := [|x|] + (x + inner);
    if 4 <= |x| {
      assert all[4] == x[3];
    } else if |x| == 3 {
      assert all[4..] == inner;
    } else if |x| == 2 {
      assert all[4] == y[0];
    } else if 2 <= |y| {
      assert all[4] == y[1];
    } else {
      assert all[4..] == tail;
    }
  }

  /** With the first two fields decimal texts, the fifth byte is a digit, or behind it fewer fields are left. */
  lemma FifthByte(b: seq<bytes>)
    requires 2 <= |b| && IsNumberText(b[0]) && IsNumberText(b[1])
    ensures 4 <= |Fields(b)|
    ensures (4 < |Fields(b)| && 45 <= Fields(b)[4])
            || exists n :: 1 <= n <= 2 && Fields(b)[4..] == Fields(b[n..])
  {
    var x, y, more, rest := b[0], b[1], b[1..], b[2..];
    assert b == [x] + more && more == [y] + rest;
    FieldsOfNumber(x, more);
    FieldsOfNumber(y, rest);
    FifthOfTwo(x, y, Fields(rest));
    assert Fields(b[1..]) == [|y|] + (y + Fields(rest)) && Fields(b[2..]) == Fields(rest);
  }

  /** Four bytes of time and then as many fields are never those fields without a time. */
  lemma TimeIsNoField(time: bytes, a: seq<bytes>, b: seq<bytes>)
    requires |time| == 4 && 2 <= |a| == |b| && InMemory(a) && InMemory(b)
    requires IsNumberText(a[0]) && IsNumberText(b[0]) && IsNumberText(b[1])
    ensures time + Fields(a) != Fields(b)
  {
    var all := time + Fields(a);
    assert a == [a[0]] + a[1..];
    FieldsOfNumber(a[0], a[1..]);
    assert all[4] == |a[0]| && all[4..] == Fields(a);
    FifthByte(b);
    if n :| 1 <= n <= 2 && Fields(b)[4..] == Fields(b[n..]) {
      OtherCountOtherBytes(a, b[n..]);
    }
  }

  /** The values of a frame, as SaveQueue puts them together. */
  predicate IsFrame(values: seq<bytes>) {
    2 <= |values| && InMemory(values) && IsNumberText(values[0]) && IsNumberText(values[1])
  }

  lemma SameTails(x: bytes, y: bytes, a: seq<bytes>, b: seq<bytes>)
    requires |x| in {0, 4} && |y| in {0, 4} && |a| == |b| && IsFrame(a) && IsFrame(b)
    requires x + Fields(a) == y + Fields(b)
    ensures x == y && a == b
  {
    if |x| == |y| {
      assert (x + Fields(a))[..|x|] == x && (y + Fields(b))[..|y|] == y;
      assert (x + Fields(a))[|x|..] == Fields(a) && (y + Fields(b))[|y|..] == Fields(b);
      FieldsAreUnique(a, b);
    } else if |x| == 4 {
      assert y + Fields(b) == Fields(b);
      TimeIsNoField(x, a, b);
    } else {
      assert x + Fields(a) == Fields(a);
      TimeIsNoField(y, b, a);
    }
  }

  lemma CodeIsUnique(t: TxType)
    requires !t.Unserialized?
    ensures Code(t) < 128 && TypeOf(Code(t)) == t
  {
  }

  ghost predicate FitsMemory(r: Request, lib: Library)
    requires Accepted(r)
  {
    |r.signature.value| < TWO63 && InMemory(Values(r, lib))
  }

  lemma ValuesAreFrame(r: Request, lib: Library)
    requires Accepted(r) && FitsMemory(r, lib)
    ensures IsFrame(Values(r, lib))
  {
    DecimalTextIsNumberText(Sender(r).0);
    DecimalTextIsNumberText(Sender(r).1);
  }

  lemma TimeWidth(lib: Library, time: nat)
    requires time <= MAX_TIME
    ensures |lib.DecToBin(time, 4)| in {0, 4}
  {
    Pow256Values();
  }

  function TimeBytes(lib: Library, time: nat): bytes {
    lib.DecToBin(time, 4)
  }

  /**
   Two requests are queued as the same bytes exactly when they have the same type, sender and fields, the
   signature among them, and their times leave the same bytes: the frames of all types together are uniquely
   decodable, even where a time leaves none.
   */
  lemma QueuedBytesAreUnique(r: Request, q: Request, lib: Library)
    requires Accepted(r) && Accepted(q) && !r.t.Unserialized? && !q.t.Unserialized?
    requires FitsMemory(r, lib) && FitsMemory(q, lib)
    ensures Frame(r, lib) == Frame(q, lib) <==>
      && r.t == q.t && Sender(r) == Sender(q) && TimeBytes(lib, TimeOf(r)) == TimeBytes(lib, TimeOf(q))
      && Sources(r, lib, Schema(r.t)) == Sources(q, lib, Schema(q.t))
  {
    if Frame(r, lib) == Frame(q, lib) {
      CodeIsUnique(r.t);
      CodeIsUnique(q.t);
      FrameStarts(lib, Code(r.t), TimeOf(r), Values(r, lib));
      FrameStarts(lib, Code(q.t), TimeOf(q), Values(q, lib));
      ValuesAreFrame(r, lib);
      ValuesAreFrame(q, lib);
      TimeWidth(lib, TimeOf(r));
      TimeWidth(lib, TimeOf(q));
      SameTails(TimeBytes(lib, TimeOf(r)), TimeBytes(lib, TimeOf(q)), Values(r, lib), Values(q, lib));
      SameValuesSameFields(r, q, lib);
    }
  }

  lemma SameSourcesSameSignature(r: Request, q: Request, lib: Library)
    requires Accepted(r) && Accepted(q) && !r.t.Unserialized? && FitsMemory(r, lib) && FitsMemory(q, lib)
    requires r.t == q.t && Sources(r, lib, Schema(r.t)) == Sources(q, lib, Schema(q.t))
    ensures r.signature == q.signature
  {
    SchemaShape(r.t);
    var n := |Schema(r.t)| - 1;
    assert Sources(r, lib, Schema(r.t))[n] == Source(r, lib, Sign);
    LengthPlusDataIsUnique(r.signature.value, q.signature.value);
  }

  /** What the bytes of a time hold, where whole pairs of digits are decoded. */
  function Stamp(time: nat): nat {
    if time < TWO32 then time else time / 16
  }

  /**
   Exactly when two times leave the same bytes: within 32 bits only when they are equal, and otherwise when
   their first eight digits are, or, where nothing is decoded, always.
   */
  lemma TimesShareBytes(lib: Library, x: nat, y: nat)
    requires x <= MAX_TIME && y <= MAX_TIME
    ensures TimeBytes(lib, x) == TimeBytes(lib, y) <==>
      if lib.pairs then Stamp(x) == Stamp(y) else x == y || (TWO32 <= x && TWO32 <= y)
  {
    Pow256Values();
    BigEndianRoundTrip(Stamp(x), 4);
    BigEndianRoundTrip(Stamp(y), 4);
  }

  /** A request with a time of its own and nothing else in the form. */
  function TimedRequest(time: int64): Request {
    Request(0, 1, NewLang, k => if k == Time then DecimalText(time) else [], Some([1]), true)
  }

  lemma TimedRequestIsAccepted(time: int64)
    requires 0 <= time <= MAX_TIME
    ensures Accepted(TimedRequest(time)) && TimeOf(TimedRequest(time)) == time
  {
    TimeOfTimed(time);
    LanguageIsAccepted(TimedRequest(time));
  }

  /** A new language asks for nothing but a sender, a time and a signature. */
  lemma LanguageIsAccepted(r: Request)
    requires r.t.NewLang? && r.wallet != 0 && 0 <= TimeOf(r) <= MAX_TIME
    requires r.signature.Some? && r.signature.value != []
    ensures Accepted(r)
  {
  }

  lemma TimeOfTimed(time: int64)
    ensures TimeOf(TimedRequest(time)) == time
  {
    ParseIntOfFormat(time);
  }

  /** Every time of more than 32 bits is accepted in a request that is not read back. */
  lemma LongTimeIsNotReadBack(lib: Library, time: int64, isDecimal: bytes -> bool) returns (r: Request)
    requires TWO32 <= time <= MAX_TIME
    ensures Accepted(r) && TimeOf(r) == time && !r.t.Unserialized? && !IsReadBack(r, lib, isDecimal)
  {
    r := TimedRequest(time);
    TimedRequestIsAccepted(time);
    NodeReadsWhatWasQueued(r, lib, isDecimal);
  }
}
