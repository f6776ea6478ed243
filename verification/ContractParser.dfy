/** The node's reading of a contract transaction. */
module ContractParser {
  import opened Options
  import opened Bytes
  import opened Text
  import opened WireCode
  import opened Pieces
  import opened ContractTx

  /** A parameter's value as the parser stores it; amounts and byte strings are kept as printed. */
  datatype Value = Integer(n: int) | Floating(bits: word) | Characters(s: bytes) | Things(list: seq<bytes>) | Nil

  const NIL_TEXT: plain := Ascii("<nil>")

  function Print(lib: Library, v: Value): bytes {
    match v
    case Integer(n) => FormatInt(n)
    case Floating(bits) => lib.printFloat(bits)
    case Characters(s) => s
    case Things(list) => Join(list)
    case Nil => NIL_TEXT
  }

  // ----- The parser

  function ReadHeader(input: bytes): Read<Header> {
    var kind := ReadInt32(input);
    if kind.Failed? then Failed else
    var time := ReadNumber(kind.rest, 4);
    if time.Failed? then Failed else
    var wallet := ReadNumber(time.rest, 8);
    if wallet.Failed? then Failed else
    var state := ReadInt32(wallet.rest);
    if state.Failed? then Failed else
    var flags := ReadNumber(state.rest, 1);
    if flags.Failed? || flags.value >= 256 then Failed else
    var sign := ReadData(flags.rest);
    if sign.Failed? then Failed
    else Got(Header(kind.value, time.value, wallet.value, state.value, flags.value, sign.value), sign.rest)
  }

  function ReadItems(input: bytes, count: nat): Read<seq<bytes>> {
    if count == 0 then Got([], input)
    else
      var d := DecodeLength(input);
      if d.short || d.value < 0 || |d.rest| < d.value then Failed
      else
        var more := ReadItems(d.rest[d.value..], count - 1);
        if more.Failed? then Failed else Got([d.rest[..d.value]] + more.value, more.rest)
  }

  /** Fixed-width numbers ignore that the input is empty; every other shortage ends the parse. */
  function ReadParam(lib: Library, input: bytes, kind: Kind): Read<Value> {
    match kind
    case Uint64 =>
      if input == [] then Got(Integer(0), [])
      else if |input| < 8 then Failed
      else Got(Integer(FromBigEndian(input[..8])), input[8..])
    case Float64 =>
      if input == [] then Got(Floating(0), [])
      else if |input| < 8 then Failed
      else
        FromLittleEndianBound(input[..8]);
        Pow256Values();
        Got(Floating(FromLittleEndian(input[..8])), input[8..])
    case Int64 =>
      var d := DecodeInt64(input);
      if d.short then Failed else Got(Integer(d.value), d.rest)
    case Money =>
      (match ReadData(input)
       case Failed => Failed
       case Got(s, rest) =>
         var amount := lib.Decimal(s);
         if amount.None? then Failed else Got(Characters(amount.value), rest))
    case Str =>
      (match ReadData(input)
       case Failed => Failed
       case Got(s, rest) => Got(Characters(s), rest))
    case Blob =>
      (match ReadData(input)
       case Failed => Failed
       case Got(s, rest) => Got(Characters(HexEncode(s)), rest))
    case List =>
      var d := DecodeLength(input);
      if d.short then Failed
      else
        (match ReadItems(d.rest, if d.value < 0 then 0 else d.value)
         case Failed => Failed
         case Got(list, rest) => Got(Things(list), rest))
    case Other => Got(Nil, input)
  }

  function ReadParams(lib: Library, input: bytes, schema: seq<Param>): Read<seq<Value>>
    decreases |schema|
  {
    if schema == [] then Got([], input)
    else
      match ReadParam(lib, input, schema[0].kind)
      case Failed => Failed
      case Got(v, rest) =>
        match ReadParams(lib, rest, schema[1..])
        case Failed => Failed
        case Got(values, end) => Got([v] + values, end)
  }

  /** Is p's text part of the string, with the parameters that are signed by themselves or without? */
  predicate Counted(p: Param, signs: bool) {
    !p.image && (signs || !p.signature)
  }

  function EchoAll(lib: Library, schema: seq<Param>, values: seq<Value>, signs: bool): seq<bytes>
    requires |schema| <= |values|
  {
    if schema == [] then []
    else
      (if Counted(schema[0], signs) then [Print(lib, values[0])] else [])
      + EchoAll(lib, schema[1..], values[1..], signs)
  }

  function Rebuilt(lib: Library, schema: seq<Param>, h: Header, values: seq<Value>, signs: bool): bytes
    requires |schema| <= |values|
  {
    Join(Heading(h.kind, h.time, h.wallet, h.state, h.flags) + EchoAll(lib, schema, values, signs))
  }

  /** The string the signature is checked against: every parameter but the images. */
  function ForSign(lib: Library, schema: seq<Param>, h: Header, values: seq<Value>): bytes
    requires |schema| <= |values|
  {
    Rebuilt(lib, schema, h, values, true)
  }

  /** System: the transaction is taken for one of the system types. */
  datatype Outcome = System | Rejected | Contract(header: Header, values: seq<Value>, forsign: bytes)

  /** ParseTransaction, where the transaction's contract declares `schema`. */
  function ParseContract(lib: Library, schema: seq<Param>, data: bytes): Outcome {
    if data == [] || data[0] <= 127 then System
    else
      match ReadHeader(data)
      case Failed => Rejected
      case Got(h, rest) =>
        match ReadParams(lib, rest, schema)
        case Failed => Rejected
        case Got(values, _) =>
          if |values| < |schema| then Rejected
          else Contract(h, values, ForSign(lib, schema, h, values))
  }

  // ----- The payload decodes back

  /** The value a parameter was sent with. */
  function Meaning(lib: Library, form: Form, p: Param): Value {
    var v := Sent(lib, form, p);
    match p.kind
    case Uint64 => Integer(ParseUint(v))
    case Int64 => Integer(ParseInt(v))
    case Float64 => Floating(lib.float(v))
    case Str => Characters(v)
    case Money => if lib.Decimal(v).None? then Nil else Characters(lib.Decimal(v).value)
    case Blob => if HexDecode(v).None? then Nil else Characters(HexEncode(HexDecode(v).value))
    case List => Things(form.list(p.name))
    case Other => Nil
  }

  function Meanings(lib: Library, form: Form, schema: seq<Param>): (values: seq<Value>)
    ensures |values| == |schema|
  {
    seq(|schema|, i requires 0 <= i < |schema| => Meaning(lib, form, schema[i]))
  }

  predicate IsNumeral(lib: Library, form: Form, p: Param) {
    p.kind == Money ==> lib.Decimal(Sent(lib, form, p)).Some?
  }

  ghost predicate AllNumerals(lib: Library, form: Form, schema: seq<Param>) {
    forall i :: 0 <= i < |schema| ==> IsNumeral(lib, form, schema[i])
  }

  lemma {:induction false} ItemsReadBack(list: seq<slice>, rest: bytes)
    ensures ReadItems(Items(list) + rest, |list|) == Got(list, rest)
  {
    if list == [] {
      assert Items(list) + rest == rest;
    } else {
      var head: bytes, tail: bytes := list[0], Items(list[1..]) + rest;
      ItemsReadBack(list[1..], rest);
      Regroup(LengthCode(|head|), head, Items(list[1..]), rest);
      ItemReadsBack(list[0], tail, |list|);
      assert [head] + list[1..] == list;
    }
  }

  lemma Regroup(a: bytes, b: bytes, c: bytes, d: bytes)
    ensures a + b + c + d == a + (b + (c + d))
  {
  }

  lemma ItemReadsBack(head: slice, tail: bytes, count: nat)
    requires 0 < count
    ensures ReadItems(LengthCode(|head|) + (head + tail), count)
         == var more := ReadItems(tail, count - 1);
            if more.Failed? then Failed else Got([head] + more.value, more.rest)
  {
    DecodeLengthOfCode(|head|, head + tail);
    assert (head + tail)[..|head|] == head && (head + tail)[|head|..] == tail;
  }

  /** Whatever follows it, a parameter's encoding is read as its value, unless it is no numeral. */
  lemma ParamReadsBack(lib: Library, form: Form, p: Param, rest: bytes)
    requires Encoded(lib, form, p).Some?
    ensures ReadParam(lib, Encoded(lib, form, p).value + rest, p.kind)
         == if IsNumeral(lib, form, p) then Got(Meaning(lib, form, p), rest) else Failed
  {
    var v, input := Sent(lib, form, p), Encoded(lib, form, p).value + rest;
    Pow256Values();
    match p.kind
    case Uint64 => ReadNumberOfBigEndian(ParseUint(v), 8, rest);
    case Float64 =>
      LittleEndianRoundTrip(lib.float(v), 8);
      assert input[..8] == LittleEndian(lib.float(v), 8);
    case Int64 => DecodeInt64OfCode(ParseInt(v), rest);
    case Money => ReadDataOfCode(v, rest);
    case Str => ReadDataOfCode(v, rest);
    case Blob => ReadDataOfCode(HexDecode(v).value, rest);
    case List =>
      var list := form.list(p.name);
      assert input == LengthCode(|list|) + (Items(list) + rest);
      DecodeLengthOfCode(|list|, Items(list) + rest);
      ItemsReadBack(list, rest);
    case Other => assert input == rest;
  }

  /**
   For every schema and form: the payload is read back parameter by parameter, with what follows it
   untouched, exactly when every amount is a numeral.
   */
  lemma {:induction false} PayloadReadsBack(lib: Library, form: Form, schema: seq<Param>, rest: bytes)
    requires Payload(lib, form, schema).Some?
    ensures ReadParams(lib, Payload(lib, form, schema).value + rest, schema)
         == if AllNumerals(lib, form, schema) then Got(Meanings(lib, form, schema), rest) else Failed
  {
    if schema == [] {
      assert [] + rest == rest;
    } else {
      var p, more := schema[0], schema[1..];
      var tail := Payload(lib, form, more).value + rest;
      assert Payload(lib, form, schema).value + rest == Encoded(lib, form, p).value + tail;
      ParamReadsBack(lib, form, p, tail);
      PayloadReadsBack(lib, form, more, rest);
      MeaningsCons(lib, form, p, more);
      assert schema == [p] + more;
    }
  }

  lemma MeaningsCons(lib: Library, form: Form, p: Param, more: seq<Param>)
    ensures AllNumerals(lib, form, [p] + more) <==> IsNumeral(lib, form, p) && AllNumerals(lib, form, more)
    ensures Meanings(lib, form, [p] + more) == [Meaning(lib, form, p)] + Meanings(lib, form, more)
  {
    var schema := [p] + more;
    assert schema[0] == p && schema[1..] == more;
    forall i | 0 <= i < |more| ensures schema[i + 1] == more[i] {}
    if AllNumerals(lib, form, schema) {
      forall i | 0 <= i < |more| ensures IsNumeral(lib, form, more[i]) { assert IsNumeral(lib, form, schema[i + 1]); }
    }
  }

  lemma HeaderReadsBack(h: Header, rest: bytes)
    requires h.time < TWO32 && h.wallet < TWO64 && |h.sign| < TWO63
    ensures ReadHeader(HeaderCode(h) + rest) == Got(h, rest)
  {
    Pow256Values();
    var sign := LengthPlusData(h.sign) + rest;
    var flags := BigEndian(h.flags, 1) + sign;
    var state := Int32Code(h.state) + flags;
    var wallet := BigEndian(h.wallet, 8) + state;
    var time := BigEndian(h.time, 4) + wallet;
    HeaderAssociates(h, rest);
    ReadInt32OfCode(h.kind, time);
    ReadNumberOfBigEndian(h.time, 4, wallet);
    ReadNumberOfBigEndian(h.wallet, 8, state);
    ReadInt32OfCode(h.state, flags);
    ReadNumberOfBigEndian(h.flags, 1, sign);
    ReadDataOfCode(h.sign, rest);
  }

  lemma HeaderAssociates(h: Header, rest: bytes)
    ensures HeaderCode(h) + rest == Int32Code(h.kind) + (BigEndian(h.time, 4) + (BigEndian(h.wallet, 8)
      + (Int32Code(h.state) + (BigEndian(h.flags, 1) + (LengthPlusData(h.sign) + rest)))))
  {
  }

  // ----- The Sign field

  /** CallContract's split; None where it indexes before the start. */
  function SplitSign(h: Header): Option<(bytes, bytes)> {
    if h.flags % 2 == 0 then Some((h.sign, []))
    else if |h.sign| < 64 then None
    else Some((h.sign[..|h.sign| - 64], h.sign[|h.sign| - 64..]))
  }

  /**
   The node gets the length-prefixed signature back, with the key but for its first byte exactly when no
   key is stored, if and only if the key posted for a wallet without one has 65 bytes.
   */
  lemma SignSplitsBack(lib: Library, form: Form, s: Session, signature: bytes)
    requires SignField(lib, form, s, signature).Some?
    ensures var key := PublicKey(lib, form);
      SplitSign(SentHeader(form, s, SignField(lib, form, s, signature).value))
        == Some((LengthPlusData(signature), if s.hasKey then [] else key[1..]))
      <==> (!s.hasKey ==> |key| == 65)
  {
    var sign, code := SignField(lib, form, s, signature).value, LengthPlusData(signature);
    if !s.hasKey {
      var tail := PublicKey(lib, form)[1..];
      assert sign == code + tail && sign[..|code|] == code && sign[|code|..] == tail;
    }
  }
}
