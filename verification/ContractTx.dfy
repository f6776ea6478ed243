/**
 Contract transactions as the pages build them: the string the user is asked to sign and the bytes the
 node queues, both driven by the contract's declared parameters.
 */
module ContractTx {
  import opened Options
  import opened Bytes
  import opened Text
  import opened WireCode
  import opened Pieces

  /** Parameter types of the contract language; Other is bool and map, which have no wire form. */
  datatype Kind = Uint64 | Int64 | Float64 | Str | Money | Blob | List | Other

  /** `signName` is the word after "signature:" in the tags of a signature parameter, if there is one. */
  datatype Param = Param(
    name: bytes, kind: Kind, image: bool, crypt: bool, signature: bool, signName: Option<bytes>, address: bool,
    optional: bool)

  type word = x: nat | x < TWO64

  /**
   What the program takes from outside: strings.TrimSpace, lib.StringToAddress, reading and printing a
   float64, decimal.NewFromString on text that is not a plain integer, a key pair encrypted by
   EncryptNewKey, hex.DecodeString on malformed text, the parameters a stored signature lists, and MD5.
   */
  datatype Library = Library(
    trim: bytes -> slice, address: bytes -> int64, float: bytes -> word, printFloat: word -> plain,
    otherDecimal: bytes -> Option<plain>, encrypted: bytes -> Option<plain>, badHex: bytes -> slice,
    signature: bytes -> Option<seq<bytes>>, md5: bytes -> bytes)
  {
    /** StringToAddress: empty text and "0" are no addresses, whatever the checksum. */
    function Address(s: bytes): int64 {
      if s == [] || s == [ZERO] then 0 else address(s)
    }

    /** decimal.NewFromString and its String: a plain integer loses its leading zeros. */
    function Decimal(s: bytes): (r: Option<bytes>)
      ensures r.Some? ==> CommaFree(r.value)
    {
      if s != [] && AllDigits(s) then Some(Digits(FromDigits(s)))
      else if CanonicalInt(s) then Some(s)
      else otherDecimal(s)
    }
  }

  /** Form values by name, and the lists posted under a name followed by a pair of brackets. */
  type items = s: seq<slice> | |s| < TWO63 witness []

  datatype Form = Form(value: bytes -> slice, list: bytes -> items)

  // ----- checkTx

  /** hasKey: a public key is stored for the wallet. */
  datatype Session = Session(id: nat, wallet: int64, state: int64, hasKey: bool)

  function UserId(s: Session): nat {
    Unsigned(s.wallet)
  }

  predicate ParamOk(lib: Library, form: Form, p: Param, preparing: bool) {
    if p.image || p.crypt then true
    else if p.signature && preparing then p.signName.Some? ==> lib.signature(p.signName.value).Some?
    else
      var val := lib.trim(form.value(p.name));
      && (val != [] || p.optional)
      && (p.address ==> lib.Address(val) != 0)
      && (p.kind == Money ==> val != [] && AllDigits(val))
  }

  /** A parameter the browser has to sign by itself: where its signature goes, and what it covers. */
  datatype TxSign = TxSign(field: bytes, forsign: bytes)

  function Trimmed(lib: Library, form: Form, names: seq<bytes>): seq<bytes> {
    seq(|names|, i requires 0 <= i < |names| => lib.trim(form.value(names[i])))
  }

  /** Is p signed by itself? */
  predicate HasSign(lib: Library, p: Param) {
    !p.image && !p.crypt && p.signature && p.signName.Some? && lib.signature(p.signName.value).Some?
  }

  function SignOf(lib: Library, form: Form, s: Session, time: nat, p: Param): TxSign
    requires HasSign(lib, p)
  {
    var names := lib.signature(p.signName.value).value;
    TxSign(p.name, Join([Digits(time), Digits(UserId(s))] + Trimmed(lib, form, names)))
  }

  function SignsOf(lib: Library, form: Form, s: Session, time: nat, schema: seq<Param>): seq<TxSign> {
    if schema == [] then []
    else
      (if HasSign(lib, schema[0]) then [SignOf(lib, form, s, time, schema[0])] else [])
      + SignsOf(lib, form, s, time, schema[1..])
  }

  lemma {:induction false} SignsOfSnoc(lib: Library, form: Form, s: Session, time: nat, schema: seq<Param>, p: Param)
    ensures SignsOf(lib, form, s, time, schema + [p])
         == SignsOf(lib, form, s, time, schema) + if HasSign(lib, p) then [SignOf(lib, form, s, time, p)] else []
  {
    var last := if HasSign(lib, p) then [SignOf(lib, form, s, time, p)] else [];
    if schema == [] {
      assert ([] + [p])[1..] == [] && last + [] == last == [] + last;
    } else {
      var first := if HasSign(lib, schema[0]) then [SignOf(lib, form, s, time, schema[0])] else [];
      SignsOfSnoc(lib, form, s, time, schema[1..], p);
      assert (schema + [p])[1..] == schema[1..] + [p];
      OntoTwice(first, SignsOf(lib, form, s, time, schema[1..]), Some(last));
    }
  }

  /** The contract's declaration is None where there is no such contract. */
  method CheckTx(lib: Library, form: Form, s: Session, contract: Option<seq<Param>>, time: nat, preparing: bool)
    returns (ok: bool, signs: seq<TxSign>)
    ensures ok <==>
      contract.Some? && forall i :: 0 <= i < |contract.value| ==> ParamOk(lib, form, contract.value[i], preparing)
    ensures ok ==> signs == if preparing then SignsOf(lib, form, s, time, contract.value) else []
  {
    ok, signs := true, [];
    if contract.None? { return false, []; }
    var schema := contract.value;
    for i := 0 to |schema|
      invariant ok && forall k :: 0 <= k < i ==> ParamOk(lib, form, schema[k], preparing)
      invariant signs == if preparing then SignsOf(lib, form, s, time, schema[..i]) else []
    {
      var p := schema[i];
      assert schema[..i + 1] == schema[..i] + [p];
      SignsOfSnoc(lib, form, s, time, schema[..i], p);
      if p.image || p.crypt { continue; }
      if p.signature && preparing {
        if p.signName.Some? {
          if lib.signature(p.signName.value).None? { return false, []; }
          var sign := SignText(lib, form, s, time, p);
          signs := signs + [TxSign(p.name, sign)];
        }
      } else {
        var val := lib.trim(form.value(p.name));
        if val == [] && !p.optional { return false, []; }
        if p.address && lib.Address(val) == 0 { return false, []; }
        if p.kind == Money && !(val != [] && AllDigits(val)) { return false, []; }
      }
    }
    assert schema[..|schema|] == schema;
  }

  lemma TrimmedSnoc(lib: Library, form: Form, head: seq<bytes>, names: seq<bytes>, i: nat)
    requires i < |names|
    ensures head + Trimmed(lib, form, names[..i + 1])
         == head + Trimmed(lib, form, names[..i]) + [lib.trim(form.value(names[i]))]
  {
  }

  method SignText(lib: Library, form: Form, s: Session, time: nat, p: Param) returns (text: bytes)
    requires HasSign(lib, p)
    ensures text == SignOf(lib, form, s, time, p).forsign
  {
    var names, head := lib.signature(p.signName.value).value, [Digits(time), Digits(UserId(s))];
    text := Join(head);
    assert head + Trimmed(lib, form, names[..0]) == head;
    for i := 0 to |names|
      invariant text == Join(head + Trimmed(lib, form, names[..i]))
    {
      var val := lib.trim(form.value(names[i]));
      JoinSnoc(head + Trimmed(lib, form, names[..i]), val);
      TrimmedSnoc(lib, form, head, names, i);
      text := text + ([COMMA] + val);
    }
    assert names[..|names|] == names;
  }

  // ----- AjaxPrepareTx

  datatype Header = Header(kind: int32, time: nat, wallet: nat, state: int32, flags: byte, sign: bytes)

  function Heading(id: int, time: nat, wallet: nat, state: int, flags: nat): (pieces: seq<bytes>)
    ensures |pieces| == 5
  {
    [FormatInt(id), Digits(time), Digits(wallet), FormatInt(state), Digits(flags)]
  }

  function Shown(lib: Library, form: Form, p: Param): Option<bytes> {
    if p.crypt then
      match lib.encrypted(p.name)
      case None => None
      case Some(key) => Some(key)
    else if p.kind == List then Some(Join(form.list(p.name)))
    else
      var val := lib.trim(form.value(p.name));
      Some(if p.address then FormatInt(lib.Address(val))
           else if p.kind == Money then TrimLeftZeros(val) else val)
  }

  /** The pieces of the prepared string, one for each parameter that is neither image nor signature. */
  function ShownAll(lib: Library, form: Form, schema: seq<Param>): Option<seq<bytes>> {
    if schema == [] then Some([])
    else
      var p, rest := schema[0], ShownAll(lib, form, schema[1..]);
      if p.image || p.signature then rest
      else
        var piece := Shown(lib, form, p);
        if piece.None? then None else Onto([piece.value], rest)
  }

  function Flags(s: Session): byte {
    if s.hasKey then 0 else 1
  }

  function PrepareSpec(lib: Library, form: Form, s: Session, schema: seq<Param>, time: nat): Option<bytes> {
    match ShownAll(lib, form, schema)
    case None => None
    case Some(pieces) => Some(Join(Heading(s.id, time, UserId(s), s.state, Flags(s)) + pieces))
  }

  /** The encrypted keys the browser is told to post, by parameter name; a later one overwrites. */
  function Values(lib: Library, schema: seq<Param>): map<bytes, bytes> {
    if schema == [] then map[]
    else
      var older, p := Values(lib, schema[..|schema| - 1]), schema[|schema| - 1];
      if p.image || p.signature || !p.crypt then older
      else
        match lib.encrypted(p.name)
        case None => older
        case Some(key) => older[p.name := key]
  }

  /**
   AjaxPrepareTx once checkTx has succeeded: the string to sign with the values for the browser, or the
   error of EncryptNewKey.
   */
  method Prepare(lib: Library, form: Form, s: Session, schema: seq<Param>, time: nat)
    returns (r: Option<bytes>, values: map<bytes, bytes>)
    ensures r == PrepareSpec(lib, form, s, schema, time)
    ensures r.Some? ==> values == Values(lib, schema)
  {
    values := map[];
    var flags: byte := 0;
    if !s.hasKey { flags := 1; }
    var heading := Heading(s.id, time, UserId(s), s.state, flags);
    var forsign := Join(heading);
    ghost var done: seq<bytes> := [];
    assert heading + done == heading && schema[0..] == schema;
    OntoNothing(ShownAll(lib, form, schema));
    for i := 0 to |schema|
      invariant forsign == Join(heading + done) && values == Values(lib, schema[..i])
      invariant ShownAll(lib, form, schema) == Onto(done, ShownAll(lib, form, schema[i..]))
    {
      var p := schema[i];
      assert schema[i..][0] == p && schema[i..][1..] == schema[i + 1..];
      assert schema[..i + 1][..i] == schema[..i];
      if p.image || p.signature { continue; }
      var val: bytes;
      if p.crypt {
        var key := lib.encrypted(p.name);
        if key.None? { return None, map[]; }
        values := values[p.name := key.value];
        val := key.value;
      } else if p.kind == List {
        val := Join(form.list(p.name));
      } else {
        val := lib.trim(form.value(p.name));
        if p.address {
          val := FormatInt(lib.Address(val));
        } else if p.kind == Money {
          val := TrimLeftZeros(val);
        }
      }
      forsign := forsign + ([COMMA] + val);
      JoinSnoc(heading + done, val);
      OntoTwice(done, [val], ShownAll(lib, form, schema[i + 1..]));
      assert heading + (done + [val]) == heading + done + [val];
      done := done + [val];
    }
    assert schema[|schema|..] == [] && schema[..|schema|] == schema;
    assert done + [] == done;
    r := Some(forsign);
  }

  // ----- AjaxSendTx

  /** The text a parameter is encoded from. */
  function Sent(lib: Library, form: Form, p: Param): slice {
    var val := lib.trim(form.value(p.name));
    if p.address then DecimalText(lib.Address(val)) else val
  }

  function Items(list: seq<slice>): bytes {
    if list == [] then [] else LengthPlusData(list[0]) + Items(list[1..])
  }

  function Encoded(lib: Library, form: Form, p: Param): Option<bytes> {
    var val := Sent(lib, form, p);
    match p.kind
    case List => Some(LengthCode(|form.list(p.name)|) + Items(form.list(p.name)))
    case Uint64 => Some(BigEndian(ParseUint(val), 8))
    case Int64 => Some(Int64Code(ParseInt(val)))
    case Float64 => Some(LittleEndian(lib.float(val), 8))
    case Str => Some(LengthPlusData(val))
    case Money => Some(LengthPlusData(val))
    case Blob => if HexDecode(val).None? then None else Some(LengthPlusData(HexDecode(val).value))
    case Other => Some([])
  }

  function Payload(lib: Library, form: Form, schema: seq<Param>): Option<bytes> {
    if schema == [] then Some([])
    else
      var piece := Encoded(lib, form, schema[0]);
      if piece.None? then None else Onto(piece.value, Payload(lib, form, schema[1..]))
  }

  /** int32(x) */
  function ToInt32(x: int): int32 {
    Signed32(x % TWO32)
  }

  function HeaderCode(h: Header): bytes
  {
    Int32Code(h.kind) + (BigEndian(h.time, 4) + (BigEndian(h.wallet, 8)
      + (Int32Code(h.state) + (BigEndian(h.flags, 1) + LengthPlusData(h.sign)))))
  }

  const PUBLIC: bytes := Ascii("public")
  const TIME: bytes := Ascii("time")

  function PublicKey(lib: Library, form: Form): slice {
    var text := form.value(PUBLIC);
    if HexDecode(text).Some? then HexDecode(text).value else lib.badHex(text)
  }

  /** The header's Sign: the signature with its length, then the key without its first byte. */
  function SignField(lib: Library, form: Form, s: Session, signature: bytes): Option<bytes> {
    if signature == [] then None
    else if s.hasKey then Some(LengthPlusData(signature))
    else if PublicKey(lib, form) == [] then None
    else Some(LengthPlusData(signature) + PublicKey(lib, form)[1..])
  }

  function SentHeader(form: Form, s: Session, sign: bytes): Header {
    Header(ToInt32(s.id), ParseInt(form.value(TIME)) % TWO32, UserId(s), ToInt32(s.state), Flags(s), sign)
  }

  /** `signature` is what JSSignToBytes yields: nothing when it fails. */
  function SendSpec(lib: Library, form: Form, s: Session, schema: seq<Param>, signature: bytes): Option<bytes> {
    var sign, payload := SignField(lib, form, s, signature), Payload(lib, form, schema);
    if sign.None? then None else Onto(HeaderCode(SentHeader(form, s, sign.value)), payload)
  }

  /** The row of transactions_status, but for its time, and the data of the row of queue_tx beside it. */
  datatype QueueRows = QueueRows(hash: bytes, kind: int32, wallet: int64, citizen: int64, data: bytes)

  /** AjaxSendTx once checkTx has succeeded: the rows it inserts, or none when nothing is queued. */
  method Send(lib: Library, form: Form, s: Session, schema: seq<Param>, signature: bytes)
    returns (r: Option<QueueRows>)
    ensures r == match SendSpec(lib, form, s, schema, signature)
      case None => None
      case Some(data) => Some(QueueRows(lib.md5(data), ToInt32(s.id), s.wallet, s.wallet, data))
  {
    var flags: byte := 0;
    var userID := UserId(s);
    var sign: bytes := [];
    if |signature| > 0 {
      sign := sign + LengthPlusData(signature);
      assert sign == LengthPlusData(signature);
    }
    if |sign| > 0 && !s.hasKey {
      flags := 1;
      var key := PublicKey(lib, form);
      if key == [] { return None; }
      sign := sign + key[1..];
    }
    if |sign| == 0 { return None; }
    var header := SentHeader(form, s, sign).(flags := flags);
    var data := AppendParams(lib, form, schema, HeaderCode(header));
    if data.None? { return None; }
    r := Some(QueueRows(lib.md5(data.value), header.kind, Signed(userID), Signed(userID), data.value));
  }

  method AppendParams(lib: Library, form: Form, schema: seq<Param>, header: bytes) returns (r: Option<bytes>)
    ensures r == Onto(header, Payload(lib, form, schema))
  {
    var data := header;
    assert schema[0..] == schema;
    for i := 0 to |schema|
      invariant Onto(header, Payload(lib, form, schema)) == Onto(data, Payload(lib, form, schema[i..]))
    {
      assert schema[i..][0] == schema[i] && schema[i..][1..] == schema[i + 1..];
      var piece := AppendParam(lib, form, schema[i], data);
      if piece.None? { return None; }
      OntoTwice(data, Encoded(lib, form, schema[i]).value, Payload(lib, form, schema[i + 1..]));
      data := piece.value;
    }
    assert schema[|schema|..] == [] && data + [] == data;
    r := Some(data);
  }

  method AppendParam(lib: Library, form: Form, p: Param, data: bytes) returns (r: Option<bytes>)
    ensures r == Onto(data, Encoded(lib, form, p))
  {
    var val: slice := lib.trim(form.value(p.name));
    if p.address { val := DecimalText(lib.Address(val)); }
    match p.kind
    case List =>
      var out := AppendList(data, form.list(p.name));
      r := Some(out);
    case Uint64 => r := Some(data + BigEndian(ParseUint(val), 8));
    case Int64 =>
      var out := EncodeLenInt64(data, ParseInt(val));
      r := Some(out);
    case Float64 => r := Some(data + LittleEndian(lib.float(val), 8));
    case Str => r := Some(Append(data, val));
    case Money => r := Some(Append(data, val));
    case Blob =>
      var blob := HexDecode(val);
      if blob.None? { return None; }
      r := Some(Append(data, blob.value));
    case Other =>
      assert data + [] == data;
      r := Some(data);
  }

  /** append(append(data, EncodeLength(len(val))), val) */
  function Append(data: bytes, val: slice): (r: bytes)
    ensures r == data + LengthPlusData(val)
  {
    data + LengthCode(|val|) + val
  }

  lemma Associative(a: bytes, b: bytes, c: bytes)
    ensures a + (b + c) == a + b + c
  {
  }

  method AppendList(data: bytes, list: items) returns (out: bytes)
    ensures out == data + (LengthCode(|list|) + Items(list))
  {
    out := data + LengthCode(|list|);
    ghost var whole := Items(list);
    assert list[0..] == list;
    for i := 0 to |list|
      invariant out + Items(list[i..]) == data + (LengthCode(|list|) + whole)
    {
      assert list[i..][0] == list[i] && list[i..][1..] == list[i + 1..];
      Associative(out, LengthPlusData(list[i]), Items(list[i + 1..]));
      out := Append(out, list[i]);
    }
    assert list[|list|..] == [] && out + [] == out;
  }
}
