/**
 The signed string and the sent bytes read piece by piece and byte by byte, without the functions that put
 them together.
 */
module SignedHeading {
  import opened Options
  import opened Bytes
  import opened Text
  import opened WireCode
  import opened Pieces
  import opened ContractTx
  import opened ContractParser
  import opened SignedString
  import BlockBody

  /** Cut at the commas, the string begins with number, time, wallet, state and flags, each in plain decimal. */
  ghost predicate Begins(text: bytes, number: int, time: nat, wallet: nat, state: int, flags: nat) {
    var cut := Cut(text);
    && 5 <= |cut|
    && CanonicalInt(cut[0]) && ParseInt(cut[0]) == number
    && CanonicalUint(cut[1]) && ParseUint(cut[1]) == time
    && CanonicalUint(cut[2]) && ParseUint(cut[2]) == wallet
    && CanonicalInt(cut[3]) && ParseInt(cut[3]) == state
    && CanonicalUint(cut[4]) && ParseUint(cut[4]) == flags
  }

  lemma IntPiece(x: int64)
    ensures CanonicalInt(FormatInt(x)) && ParseInt(FormatInt(x)) == x
  {
    FormatIsCanonicalInt(x);
    ParseIntOfFormat(x);
  }

  lemma UintPiece(x: word)
    ensures CanonicalUint(Digits(x)) && ParseUint(Digits(x)) == x
  {
    DigitsAreCanonical(x);
    ScanOfDigits(Digits(x));
  }

  lemma PiecesBegin(text: bytes, a: int64, b: word, c: word, d: int64, e: word)
    requires 5 <= |Cut(text)|
    requires Cut(text)[0] == FormatInt(a) && Cut(text)[1] == Digits(b) && Cut(text)[2] == Digits(c)
    requires Cut(text)[3] == FormatInt(d) && Cut(text)[4] == Digits(e)
    ensures Begins(text, a, b, c, d, e)
  {
    IntPiece(a);
    UintPiece(b);
    UintPiece(c);
    IntPiece(d);
    UintPiece(e);
  }

  lemma FirstFive(cut: seq<bytes>, pieces: seq<bytes>)
    requires |pieces| == 5 <= |cut| && cut[..5] == pieces
    ensures cut[0] == pieces[0] && cut[1] == pieces[1] && cut[2] == pieces[2]
    ensures cut[3] == pieces[3] && cut[4] == pieces[4]
  {
  }

  lemma JoinBegins(a: int64, b: word, c: word, d: int64, e: word, rest: seq<bytes>)
    ensures Begins(Join(Heading(a, b, c, d, e) + rest), a, b, c, d, e)
  {
    var pieces := Heading(a, b, c, d, e);
    HeadingIsCommaFree(a, b, c, d, e);
    CutOfJoin(pieces, rest);
    FirstFive(Cut(Join(pieces + rest)), pieces);
    PiecesBegin(Join(pieces + rest), a, b, c, d, e);
  }

  /**
   What AjaxPrepareTx gives the user to sign begins with the contract's number, the time, the session's
   wallet as an unsigned number, its state, and 1 exactly when no key is stored for the wallet.
   */
  lemma PreparedBegins(lib: Library, form: Form, s: Session, schema: seq<Param>, time: word, text: bytes)
    requires s.id < TWO63 && PrepareSpec(lib, form, s, schema, time) == Some(text)
    ensures Begins(text, s.id, time, if s.wallet < 0 then s.wallet + TWO64 else s.wallet, s.state,
                   if s.hasKey then 0 else 1)
  {
    JoinBegins(s.id, time, UserId(s), s.state, Flags(s), ShownAll(lib, form, schema).value);
  }

  /** The string the parser checks the signature against begins with the same five of the header it read. */
  lemma RebuiltBegins(lib: Library, schema: seq<Param>, data: bytes)
    requires ParseContract(lib, schema, data).Contract?
    ensures var r := ParseContract(lib, schema, data);
      Begins(r.forsign, r.header.kind, r.header.time, r.header.wallet, r.header.state, r.header.flags)
  {
    var r := ParseContract(lib, schema, data);
    HeaderIsBounded(data);
    JoinBegins(r.header.kind, r.header.time, r.header.wallet, r.header.state, r.header.flags,
               EchoAll(lib, schema, r.values, true));
  }

  lemma NumberIsBounded(input: bytes, width: nat)
    requires width <= 8 && ReadNumber(input, width).Got?
    ensures ReadNumber(input, width).value < TWO64
  {
    FromBigEndianRoundTrip(input[..width]);
    Pow256Values();
    PowerIsBounded(width);
  }

  lemma PowerIsBounded(n: nat)
    requires n <= 8
    ensures Pow256(n) <= TWO64
  {
    Pow256Values();
    BlockBody.Pow256Monotone(n, 8);
  }

  lemma HeaderIsBounded(data: bytes)
    requires ReadHeader(data).Got?
    ensures ReadHeader(data).value.time < TWO64 && ReadHeader(data).value.wallet < TWO64
  {
    var kind := ReadInt32(data);
    NumberIsBounded(kind.rest, 4);
    var time := ReadNumber(kind.rest, 4);
    NumberIsBounded(time.rest, 8);
  }

  /**
   From the session to the node: the string the signature is checked against begins with the session's own
   contract number, posted time, wallet, state and missing key, where number and state fit an int32.
   */
  lemma SentBegins(lib: Library, form: Form, s: Session, schema: seq<Param>, signature: bytes, data: slice)
    requires 128 <= s.id < 0x8000_0000 && -0x8000_0000 <= s.state < 0x8000_0000
    requires 0 <= ParseInt(form.value(Ascii("time"))) < TWO32 && AllNumerals(lib, form, schema)
    requires SendSpec(lib, form, s, schema, signature) == Some(data)
    ensures ParseContract(lib, schema, data).Contract?
    ensures Begins(ParseContract(lib, schema, data).forsign, s.id, ParseInt(form.value(Ascii("time"))),
                   if s.wallet < 0 then s.wallet + TWO64 else s.wallet, s.state, if s.hasKey then 0 else 1)
  {
    SentIsParsed(lib, form, s, schema, signature, data);
    RebuiltBegins(lib, schema, data);
    HeaderOfSession(form, s, SignField(lib, form, s, signature).value);
  }

  lemma HeaderOfSession(form: Form, s: Session, sign: bytes)
    requires 128 <= s.id < 0x8000_0000 && -0x8000_0000 <= s.state < 0x8000_0000
    requires 0 <= ParseInt(form.value(Ascii("time"))) < TWO32
    ensures var h := SentHeader(form, s, sign);
      && h.kind == s.id && h.time == ParseInt(form.value(Ascii("time"))) && h.state == s.state
      && h.wallet == (if s.wallet < 0 then s.wallet + TWO64 else s.wallet)
      && h.flags == if s.hasKey then 0 else 1
  {
    FitsInt32(s.id);
    FitsInt32(s.state);
  }

  // ----- The parameters behind

  /** A parameter of type string, with no tag. */
  predicate IsPlainString(p: Param) {
    p.kind == Str && !p.image && !p.crypt && !p.signature && !p.address
  }

  lemma {:induction false} PlainStringsAreShown(lib: Library, form: Form, schema: seq<Param>)
    requires forall i :: 0 <= i < |schema| ==> IsPlainString(schema[i])
    ensures var shown := ShownAll(lib, form, schema);
      && shown.Some? && |shown.value| == |schema|
      && forall i :: 0 <= i < |schema| ==> shown.value[i] == lib.trim(form.value(schema[i].name))
  {
    if schema != [] {
      PlainStringsAreShown(lib, form, schema[1..]);
    }
  }

  /** Behind the five pieces stand the trimmed texts of the parameters, in declared order. */
  lemma PlainStringsAreSigned(lib: Library, form: Form, s: Session, schema: seq<Param>, time: word, text: bytes)
    requires s.id < TWO63 && PrepareSpec(lib, form, s, schema, time) == Some(text)
    requires forall i :: 0 <= i < |schema| ==>
      IsPlainString(schema[i]) && CommaFree(lib.trim(form.value(schema[i].name)))
    ensures |Cut(text)| == 5 + |schema|
    ensures forall i :: 0 <= i < |schema| ==> Cut(text)[5 + i] == lib.trim(form.value(schema[i].name))
  {
    PlainStringsAreShown(lib, form, schema);
    var shown := ShownAll(lib, form, schema).value;
    var heading := Heading(s.id, time, UserId(s), s.state, Flags(s));
    HeadingIsCommaFree(s.id, time, UserId(s), s.state, Flags(s));
    RecutOfPlain(heading + shown);
  }

  /** What a parameter's own signature covers: the time, the wallet, and the listed parameters' trimmed texts. */
  lemma SignCovers(lib: Library, form: Form, s: Session, time: word, p: Param)
    requires HasSign(lib, p)
    ensures SignOf(lib, form, s, time, p).field == p.name
    ensures var cut, names := Cut(SignOf(lib, form, s, time, p).forsign), lib.signature(p.signName.value).value;
      && 2 <= |cut|
      && CanonicalUint(cut[0]) && ParseUint(cut[0]) == time
      && CanonicalUint(cut[1]) && ParseUint(cut[1]) == (if s.wallet < 0 then s.wallet + TWO64 else s.wallet)
      && ((forall i :: 0 <= i < |names| ==> CommaFree(lib.trim(form.value(names[i])))) ==>
            && |cut| == 2 + |names|
            && forall i :: 0 <= i < |names| ==> cut[2 + i] == lib.trim(form.value(names[i])))
  {
    var texts := Trimmed(lib, form, lib.signature(p.signName.value).value);
    CutSign(time, UserId(s), texts);
  }

  lemma CutSign(time: word, user: word, texts: seq<bytes>)
    ensures var cut := Cut(Join([Digits(time), Digits(user)] + texts));
      && 2 <= |cut|
      && CanonicalUint(cut[0]) && ParseUint(cut[0]) == time
      && CanonicalUint(cut[1]) && ParseUint(cut[1]) == user
      && ((forall i :: 0 <= i < |texts| ==> CommaFree(texts[i])) ==> cut[2..] == texts)
  {
    UintPiece(time);
    UintPiece(user);
    CutTwo(Digits(time), Digits(user), texts);
  }

  lemma CutTwo(a: bytes, b: bytes, texts: seq<bytes>)
    requires CommaFree(a) && CommaFree(b)
    ensures var cut := Cut(Join([a, b] + texts));
      && 2 <= |cut| && cut[0] == a && cut[1] == b
      && ((forall i :: 0 <= i < |texts| ==> CommaFree(texts[i])) ==> cut[2..] == texts)
  {
    assert [a, b] + texts == [a] + ([b] + texts);
    RecutOfCons(a, [b] + texts);
    RecutOfCons(b, texts);
    if forall i :: 0 <= i < |texts| ==> CommaFree(texts[i]) {
      RecutOfPlain(texts);
    }
  }

  // ----- Checks and values

  /** A posted parameter is refused exactly when a text is missing, is no address, or is no amount. */
  lemma RefusedParamExactly(lib: Library, form: Form, p: Param)
    requires !p.image && !p.crypt
    ensures var text := lib.trim(form.value(p.name));
      !ParamOk(lib, form, p, false) <==>
        || (text == [] && !p.optional)
        || (p.address && lib.Address(text) == 0)
        || (p.kind == Money && (text == [] || exists i :: 0 <= i < |text| && !(48 <= text[i] <= 57)))
  {
  }

  /** When preparing, a signature parameter is refused exactly when its tag names an unknown signature. */
  lemma RefusedSignatureExactly(lib: Library, form: Form, p: Param)
    requires !p.image && !p.crypt && p.signature
    ensures !ParamOk(lib, form, p, true) <==> p.signName.Some? && lib.signature(p.signName.value).None?
  {
  }

  /** Images and encrypted keys pass unchecked. */
  lemma UncheckedPasses(lib: Library, form: Form, p: Param, preparing: bool)
    requires p.image || p.crypt
    ensures ParamOk(lib, form, p, preparing)
  {
  }

  /** So what the checks let through is accepted by the parser, where no amount is an image or encrypted. */
  lemma CheckedIsAccepted(lib: Library, form: Form, s: Session, schema: seq<Param>, signature: bytes, data: slice)
    requires 128 <= s.id < TWO32 && SendSpec(lib, form, s, schema, signature) == Some(data)
    requires forall i :: 0 <= i < |schema| ==>
      ParamOk(lib, form, schema[i], false) && (schema[i].kind == Money ==> !schema[i].image && !schema[i].crypt)
    ensures ParseContract(lib, schema, data).Contract?
  {
    SentIsParsed(lib, form, s, schema, signature, data);
    forall i | 0 <= i < |schema|
      ensures IsNumeral(lib, form, schema[i])
    {
      if schema[i].address {
        AddressText(lib, form, schema[i]);
      }
    }
  }

  /** The key is posted in hexadecimal; of malformed text Go leaves something else in the result. */
  lemma KeyIsPosted(lib: Library, form: Form)
    ensures PublicKey(lib, form) ==
      match HexDecode(form.value(Ascii("public")))
      case Some(key) => key
      case None => lib.badHex(form.value(Ascii("public")))
  {
  }

  /** A plain amount is printed by the parser as its value, without needless zeros. */
  lemma AmountIsPrinted(lib: Library, text: bytes)
    requires text != [] && AllDigits(text)
    ensures lib.Decimal(text).Some?
    ensures Canonical(lib.Decimal(text).value) && FromDigits(lib.Decimal(text).value) == FromDigits(text)
  {
    DigitsAreCanonical(FromDigits(text));
  }

  /** Below 128 the first byte makes a system transaction, whatever the contract; any other never does. */
  lemma SystemExactly(lib: Library, schema: seq<Param>, data: bytes)
    ensures ParseContract(lib, schema, data).System? <==> data == [] || data[0] < 128
  {
  }

  /** A parameter of type bool or map is printed as "<nil>", and nothing is read for it. */
  lemma OtherIsPrintedAsNil(lib: Library, input: bytes)
    ensures var read := ReadParam(lib, input, Kind.Other);
      read.Got? && read.rest == input && Print(lib, read.value) == Ascii("<nil>")
  {
  }

  /** The browser is given exactly the keys of the encrypted parameters that are neither image nor signature. */
  lemma {:induction false} ValuesAreKeys(lib: Library, schema: seq<Param>, name: bytes)
    ensures name in Values(lib, schema) <==>
      lib.encrypted(name).Some?
      && exists i :: 0 <= i < |schema|
           && schema[i].name == name && schema[i].crypt && !schema[i].image && !schema[i].signature
    ensures name in Values(lib, schema) ==> Some(Values(lib, schema)[name]) == lib.encrypted(name)
  {
    if schema != [] {
      var older, p := schema[..|schema| - 1], schema[|schema| - 1];
      ValuesAreKeys(lib, older, name);
      assert schema == older + [p];
      assert p == schema[|schema| - 1];
    }
  }

  // ----- The sent bytes

  /**
   The bytes AjaxSendTx queues for a contract numbered 128 or more: a count and the number in as many bytes,
   four bytes of time, eight of the wallet, and for a state below 128 one byte of state and one of flags,
   each with the most significant byte first.
   */
  lemma SentLayout(lib: Library, form: Form, s: Session, schema: seq<Param>, signature: bytes, data: slice)
    requires 128 <= s.id < TWO32 && 0 <= s.state < 128 && 0 <= ParseInt(form.value(Ascii("time"))) < TWO32
    requires SendSpec(lib, form, s, schema, signature) == Some(data)
    ensures data != [] && 129 <= data[0] <= 132
    ensures var n := data[0] as int - 127;
      && n + 14 <= |data|
      && data[1] != 0 && FromBigEndian(data[1..n]) == s.id
      && FromBigEndian(data[n..n + 4]) == ParseInt(form.value(Ascii("time")))
      && FromBigEndian(data[n + 4..n + 12]) == (if s.wallet < 0 then s.wallet + TWO64 else s.wallet)
      && data[n + 12] == s.state && data[n + 13] == if s.hasKey then 0 else 1
  {
    SentIsHeaderAndPayload(lib, form, s, schema, signature, data);
    var h := SentHeader(form, s, SignField(lib, form, s, signature).value);
    HeaderOfSmallState(form, s, h.sign);
    HeaderLayout(h, Payload(lib, form, schema).value, data);
  }

  lemma HeaderOfSmallState(form: Form, s: Session, sign: bytes)
    requires s.id < TWO32 && 0 <= s.state < 128 && 0 <= ParseInt(form.value(Ascii("time"))) < TWO32
    ensures var h := SentHeader(form, s, sign);
      && Unsigned32(h.kind) == s.id && h.time == ParseInt(form.value(Ascii("time"))) && h.state == s.state
      && h.wallet == (if s.wallet < 0 then s.wallet + TWO64 else s.wallet)
      && h.flags == if s.hasKey then 0 else 1
  {
    FitsInt32(s.state);
  }

  lemma HeaderLayout(h: Header, payload: bytes, data: bytes)
    requires data == HeaderCode(h) + payload && 128 <= Unsigned32(h.kind) && 0 <= h.state < 128
    requires h.time < TWO32 && h.wallet < TWO64
    ensures data != [] && 129 <= data[0] <= 132
    ensures var n := data[0] as int - 127;
      && n + 14 <= |data|
      && data[1] != 0 && FromBigEndian(data[1..n]) == Unsigned32(h.kind)
      && FromBigEndian(data[n..n + 4]) == h.time && FromBigEndian(data[n + 4..n + 12]) == h.wallet
      && data[n + 12] == h.state && data[n + 13] == h.flags
  {
    var code, rest := Int32Code(h.kind), LengthPlusData(h.sign) + payload;
    Int32CodeShape(h.kind);
    HeaderParts(h, payload);
    FourParts(code, BigEndian(h.time, 4), BigEndian(h.wallet, 8), [h.state as byte, h.flags], rest);
    FrontOfCode(data, code);
    Pow256Values();
    BigEndianRoundTrip(h.time, 4);
    BigEndianRoundTrip(h.wallet, 8);
  }

  lemma FrontOfCode(data: bytes, code: bytes)
    requires 2 <= |code| <= |data| && data[..|code|] == code
    ensures data[0] == code[0] && data[1] == code[1] && data[1..|code|] == code[1..]
  {
  }

  lemma SmallCodes(state: int32, flags: byte)
    requires 0 <= state < 128
    ensures Int32Code(state) == [state as byte] && BigEndian(flags, 1) == [flags]
  {
    assert BigEndian(flags / 256, 0) == [];
  }

  lemma HeaderParts(h: Header, payload: bytes)
    requires 0 <= h.state < 128
    ensures HeaderCode(h) + payload
         == Int32Code(h.kind) + BigEndian(h.time, 4) + BigEndian(h.wallet, 8) + [h.state as byte, h.flags]
            + (LengthPlusData(h.sign) + payload)
  {
    SmallCodes(h.state, h.flags);
    assert [h.state as byte] + [h.flags] == [h.state as byte, h.flags];
  }

  lemma FourParts(a: bytes, b: bytes, c: bytes, d: bytes, rest: bytes)
    requires |b| == 4 && |c| == 8 && |d| == 2
    ensures var data, n := a + b + c + d + rest, |a|;
      && n + 14 <= |data| && data[..n] == a && data[n..n + 4] == b && data[n + 4..n + 12] == c
      && data[n + 12] == d[0] && data[n + 13] == d[1]
  {
  }

  /** The bytes of one parameter, told by the text it is sent from. */
  lemma EncodedShape(lib: Library, form: Form, p: Param)
    requires Encoded(lib, form, p).Some?
    ensures var e, text := Encoded(lib, form, p).value, Sent(lib, form, p);
      match p.kind
      case Uint64 => |e| == 8 && FromBigEndian(e) == ParseUint(text)
      case Float64 => |e| == 8 && FromLittleEndian(e) == lib.float(text)
      case Int64 =>
        var x := ParseInt(text);
        && 1 <= |e| <= 9 && e[0] == |e| - 1 && (1 < |e| ==> e[|e| - 1] != 0)
        && FromLittleEndian(e[1..]) == (if x < 0 then x + TWO64 else x)
      case Str => |text| <= 127 ==> e == [|text|] + text
      case Money => |text| <= 127 ==> e == [|text|] + text
      case Blob => HexDecode(text).Some? && (|text| <= 254 ==> e == [|text| / 2] + HexDecode(text).value)
      case List => |form.list(p.name)| <= 127 ==> e != [] && e[0] == |form.list(p.name)|
      case Other => e == []
  {
    var text := Sent(lib, form, p);
    Pow256Values();
    match p.kind
    case Uint64 => BigEndianRoundTrip(ParseUint(text), 8);
    case Float64 => LittleEndianRoundTrip(lib.float(text), 8);
    case Int64 => Int64CodeShape(ParseInt(text));
    case _ =>
  }

  /** The address parameter's text is its number, any other's the trimmed text itself. */
  lemma SentText(lib: Library, form: Form, p: Param)
    ensures !p.address ==> Sent(lib, form, p) == lib.trim(form.value(p.name))
    ensures p.address ==>
      CanonicalInt(Sent(lib, form, p)) && ParseInt(Sent(lib, form, p)) == lib.Address(lib.trim(form.value(p.name)))
  {
    if p.address {
      IntPiece(lib.Address(lib.trim(form.value(p.name))));
    }
  }

  predicate NeedsNoBytes(kind: Kind) {
    kind in {Uint64, Int64, Float64, List, Other}
  }

  /** A transaction that ends before its parameters is read, as zeros, exactly when none is a text or bytes. */
  lemma {:induction false} EmptyPayloadIsRead(lib: Library, schema: seq<Param>)
    ensures ReadParams(lib, [], schema).Got? <==> forall i :: 0 <= i < |schema| ==> NeedsNoBytes(schema[i].kind)
    ensures ReadParams(lib, [], schema).Got? ==>
      var values := ReadParams(lib, [], schema).value;
      |values| == |schema| && forall i :: 0 <= i < |schema| ==>
        match schema[i].kind
        case Float64 => values[i] == Floating(0)
        case List => values[i] == Things([])
        case Other => values[i] == Nil
        case _ => values[i] == Integer(0)
    ensures ReadParams(lib, [], schema).Got? ==> ReadParams(lib, [], schema).rest == []
    decreases |schema|
  {
    if schema != [] {
      var p, more := schema[0], schema[1..];
      assert schema == [p] + more;
      EmptyPayloadIsRead(lib, more);
      assert NeedsNoBytes(p.kind) ==> ReadParam(lib, [], p.kind).Got? && ReadParam(lib, [], p.kind).rest == [];
    }
  }

  /** A number cut short ends the parse. */
  lemma CutNumberIsRejected(lib: Library, input: bytes, kind: Kind)
    requires 0 < |input| < 8 && kind in {Uint64, Float64}
    ensures ReadParam(lib, input, kind).Failed?
  {
  }

  /** The block explorer lists such a transaction under the contract's number. */
  lemma SentIsListed(lib: Library, form: Form, s: Session, schema: seq<Param>, signature: bytes, data: slice)
    requires 128 <= s.id < 0x8000_0000 && SendSpec(lib, form, s, schema, signature) == Some(data)
    ensures BlockBody.CodeOf(data) == BlockBody.Code(BlockBody.Contract(s.id))
  {
    SentIsHeaderAndPayload(lib, form, s, schema, signature, data);
    var h := SentHeader(form, s, SignField(lib, form, s, signature).value);
    FitsInt32(s.id);
    BlockBody.ContractNumberIsRead(h.kind, data[|Int32Code(h.kind)|..]);
    FrontOfSum(data, Int32Code(h.kind));
  }

  lemma FrontOfSum(data: bytes, front: bytes)
    requires |front| <= |data| && data[..|front|] == front
    ensures data == front + data[|front|..]
  {
  }
}
