/**
 The string a user signs for a contract transaction and the string the node rebuilds from the queued
 bytes: exactly when are they the same?
 */
module SignedString {
  import opened Options
  import opened Bytes
  import opened Text
  import opened WireCode
  import opened Pieces
  import opened ContractTx
  import opened ContractParser

  // ----- What was sent is parsed

  /** Contracts numbered below 128 would be taken for system transactions. */
  lemma ContractBranch(form: Form, s: Session, sign: bytes, rest: bytes)
    requires s.id < TWO32
    ensures var data := HeaderCode(SentHeader(form, s, sign)) + rest;
      data != [] && (data[0] > 127 <==> 128 <= s.id)
  {
    var code := Int32Code(ToInt32(s.id));
    assert Unsigned32(ToInt32(s.id)) == s.id;
    assert code != [] && (code[0] > 127 <==> 128 <= s.id);
    assert HeaderCode(SentHeader(form, s, sign))[0] == code[0];
  }

  lemma SentIsHeaderAndPayload(
    lib: Library, form: Form, s: Session, schema: seq<Param>, signature: bytes, data: slice)
    requires SendSpec(lib, form, s, schema, signature) == Some(data)
    ensures SignField(lib, form, s, signature).Some? && Payload(lib, form, schema).Some?
    ensures var sign := SignField(lib, form, s, signature).value;
      |sign| < TWO63 && data == HeaderCode(SentHeader(form, s, sign)) + Payload(lib, form, schema).value
  {
    var h := SentHeader(form, s, SignField(lib, form, s, signature).value);
    assert |data| >= |HeaderCode(h)| >= |LengthPlusData(h.sign)| >= |h.sign|;
  }

  /**
   For every contract, form and session. What was queued is taken for a contract's transaction exactly when
   the contract's number is at least 128, and is then accepted exactly when every amount is a numeral; the
   header and every value are recovered.
   */
  lemma SentIsParsed(lib: Library, form: Form, s: Session, schema: seq<Param>, signature: bytes, data: slice)
    requires s.id < TWO32 && SendSpec(lib, form, s, schema, signature) == Some(data)
    ensures var r := ParseContract(lib, schema, data);
      && (r.System? <==> s.id < 128)
      && (r.Contract? <==> 128 <= s.id && AllNumerals(lib, form, schema))
      && (r.Contract? ==>
            && r.header == SentHeader(form, s, SignField(lib, form, s, signature).value)
            && r.values == Meanings(lib, form, schema)
            && r.forsign == ForSign(lib, schema, r.header, r.values))
  {
    SentIsHeaderAndPayload(lib, form, s, schema, signature, data);
    var sign, payload := SignField(lib, form, s, signature).value, Payload(lib, form, schema).value;
    assert payload + [] == payload;
    ContractBranch(form, s, sign, payload);
    HeaderReadsBack(SentHeader(form, s, sign), payload);
    PayloadReadsBack(lib, form, schema, []);
  }

  // ----- One parameter

  /** Signed as posted: an encrypted key, or a signature the browser made. */
  predicate Verbatim(p: Param) {
    p.crypt || p.signature
  }

  /** Does the parser print p as the user saw it? Decided by the posted text and the text that was sent. */
  predicate Faithful(lib: Library, form: Form, p: Param) {
    var v := Sent(lib, form, p);
    var seen := if Verbatim(p) then lib.trim(form.value(p.name)) else v;
    match p.kind
    case Uint64 => v == seen && CanonicalUint(v)
    case Int64 => v == seen && CanonicalInt(v)
    case Float64 => lib.printFloat(lib.float(v)) == seen
    case Str => v == seen
    case Money =>
      if Verbatim(p) then lib.Decimal(v) == Some(seen)
      else p.address || exists i :: 0 <= i < |v| && v[i] != ZERO
    case Blob => v == seen && !HasUpperCase(v)
    case List => true
    case Other => seen == NIL_TEXT
  }

  /** The text p adds to the string that is signed. */
  function Expected(lib: Library, form: Form, p: Param): Option<bytes> {
    if p.signature then Some(form.value(p.name)) else Shown(lib, form, p)
  }

  /**
   What the browser posts for p: the prepared key under an encrypted parameter, under a signature
   parameter the signature it made, which has no space around it. Neither is a list.
   */
  predicate Posted(lib: Library, form: Form, p: Param) {
    if p.signature then HasSign(lib, p) && p.kind != List && lib.trim(form.value(p.name)) == form.value(p.name)
    else p.crypt ==> p.kind != List && lib.encrypted(p.name) == Some(lib.trim(form.value(p.name)))
  }

  /** An amount loses its leading zeros alike on both sides, unless it has nothing else. */
  lemma AmountEcho(lib: Library, v: bytes)
    requires v != [] && AllDigits(v)
    ensures lib.Decimal(v) == Some(TrimLeftZeros(v)) <==> exists i :: 0 <= i < |v| && v[i] != ZERO
  {
    var t := TrimLeftZeros(v);
    TrimmedZeros(v);
    if t != [] {
      CanonicalIsDigits(t);
    } else {
      assert Digits(FromDigits(v)) != [];
    }
  }

  lemma AddressEcho(lib: Library, address: int64)
    ensures lib.Decimal(DecimalText(address)) == Some(FormatInt(address))
  {
    FormatIsCanonicalInt(address);
    var v := DecimalText(address);
    if AllDigits(v) {
      CanonicalIsDigits(v);
    }
  }

  lemma {:induction false} HexIsCommaFree(b: bytes)
    ensures CommaFree(HexEncode(b))
  {
    if b != [] {
      HexIsCommaFree(b[1..]);
    }
  }

  lemma DecimalIsCommaFree(x: int)
    ensures CommaFree(FormatInt(x))
  {
  }

  function Echo(lib: Library, form: Form, p: Param): bytes {
    Print(lib, Meaning(lib, form, p))
  }

  lemma NumberEcho(v: bytes, seen: bytes)
    requires v == seen || (CanonicalInt(v) && seen != [ZERO])
    ensures Digits(ParseUint(v)) == seen <==> v == seen && CanonicalUint(v)
  {
    UintTextRoundTrip(v);
    if v != seen && v[0] == MINUS {
      MinusIsNoUint(v);
    }
  }

  lemma {:induction false} MinusIsBad(s: bytes)
    requires s != [] && s[0] == MINUS
    ensures !Scan(s).Number? && Scan(s).BadSyntax?
  {
    var before := s[..|s| - 1];
    if before == [] {
      assert s == [MINUS];
    } else {
      MinusIsBad(before);
    }
  }

  lemma MinusIsNoUint(v: bytes)
    requires v != [] && v[0] == MINUS
    ensures Digits(ParseUint(v)) == [ZERO]
  {
    MinusIsBad(v);
  }

  /** What an address parameter is sent as. */
  lemma AddressText(lib: Library, form: Form, p: Param)
    requires p.address
    ensures var v := Sent(lib, form, p);
      && CanonicalInt(v) && CommaFree(v) && !HasUpperCase(v) && lib.Decimal(v) == Some(v)
      && (lib.trim(form.value(p.name)) == [ZERO] ==> v == [ZERO])
  {
    var address := lib.Address(lib.trim(form.value(p.name)));
    FormatIsCanonicalInt(address);
    AddressHasNoUpperCase(address);
    AddressEcho(lib, address);
  }

  lemma NumberIsShown(lib: Library, form: Form, p: Param)
    requires p.kind == Uint64 || p.kind == Int64
    requires Expected(lib, form, p).Some? && Posted(lib, form, p)
    ensures Echo(lib, form, p) == Expected(lib, form, p).value <==> Faithful(lib, form, p)
    ensures CommaFree(Echo(lib, form, p))
  {
    var v := Sent(lib, form, p);
    var seen := if Verbatim(p) then lib.trim(form.value(p.name)) else v;
    if p.address { AddressText(lib, form, p); }
    if p.kind == Uint64 {
      NumberEcho(v, seen);
      DecimalIsCommaFree(ParseUint(v));
    } else {
      IntTextRoundTrip(v);
      DecimalIsCommaFree(ParseInt(v));
    }
  }

  lemma AmountIsShown(lib: Library, form: Form, p: Param)
    requires p.kind == Money && !p.image && ParamOk(lib, form, p, false) && Posted(lib, form, p)
    requires IsNumeral(lib, form, p) && Expected(lib, form, p).Some?
    ensures Echo(lib, form, p) == Expected(lib, form, p).value <==> Faithful(lib, form, p)
    ensures CommaFree(Echo(lib, form, p))
  {
    if p.address {
      AddressText(lib, form, p);
    } else if !Verbatim(p) {
      AmountEcho(lib, Sent(lib, form, p));
    }
  }

  lemma BytesAreShown(lib: Library, form: Form, p: Param)
    requires p.kind == Blob && Encoded(lib, form, p).Some? && Expected(lib, form, p).Some? && Posted(lib, form, p)
    ensures Echo(lib, form, p) == Expected(lib, form, p).value <==> Faithful(lib, form, p)
    ensures CommaFree(Echo(lib, form, p))
  {
    var v := Sent(lib, form, p);
    if p.address { AddressText(lib, form, p); }
    HexEncodeOfDecode(v);
    HexIsCommaFree(HexDecode(v).value);
  }

  /** One parameter: the parser prints what was signed exactly when the texts are faithful. */
  lemma EchoIsShown(lib: Library, form: Form, p: Param)
    requires !p.image && ParamOk(lib, form, p, false) && Posted(lib, form, p)
    requires Encoded(lib, form, p).Some? && IsNumeral(lib, form, p) && Expected(lib, form, p).Some?
    ensures Echo(lib, form, p) == Expected(lib, form, p).value <==> Faithful(lib, form, p)
    ensures CommaFree(Echo(lib, form, p)) || Echo(lib, form, p) == Expected(lib, form, p).value
  {
    if p.address { AddressText(lib, form, p); }
    match p.kind
    case Uint64 => NumberIsShown(lib, form, p);
    case Int64 => NumberIsShown(lib, form, p);
    case Blob => BytesAreShown(lib, form, p);
    case Money => AmountIsShown(lib, form, p);
    case _ =>
  }

  lemma {:induction false} DigitsHaveNoUpperCase(s: bytes)
    requires forall i :: 0 <= i < |s| ==> IsDigit(s[i]) || s[i] == MINUS
    ensures !HasUpperCase(s)
  {
    if s != [] {
      DigitsHaveNoUpperCase(s[1..]);
    }
  }

  lemma AddressHasNoUpperCase(address: int64)
    ensures !HasUpperCase(DecimalText(address))
    ensures CommaFree(DecimalText(address))
  {
    DigitsHaveNoUpperCase(DecimalText(address));
  }

  /** An address survives in a signed parameter; in an unsigned one only if not negative. */
  lemma AddressIsFaithful(lib: Library, form: Form, p: Param)
    requires p.address && !Verbatim(p)
    ensures p.kind == Int64 ==> Faithful(lib, form, p)
    ensures p.kind == Uint64 ==> (Faithful(lib, form, p) <==> 0 <= lib.Address(lib.trim(form.value(p.name))))
  {
    FormatIsCanonicalInt(lib.Address(lib.trim(form.value(p.name))));
  }

  /** The amount "0" passes every check, yet is signed as nothing and rebuilt as "0". */
  lemma ZeroAmountIsNotFaithful(lib: Library, form: Form, p: Param)
    requires p.kind == Money && !p.image && !p.crypt && !p.signature && !p.address
    requires lib.trim(form.value(p.name)) == [ZERO]
    ensures ParamOk(lib, form, p, false)
    ensures Shown(lib, form, p) == Some([]) && Echo(lib, form, p) == [ZERO]
  {
    assert FromDigits([ZERO]) == 0 by { assert [ZERO][..0] == []; }
  }

  // ----- All parameters

  ghost predicate Accepted(lib: Library, form: Form, schema: seq<Param>, signs: bool) {
    forall i :: 0 <= i < |schema| && Counted(schema[i], signs) ==>
      ParamOk(lib, form, schema[i], false) && Posted(lib, form, schema[i])
  }

  ghost predicate AllFaithful(lib: Library, form: Form, schema: seq<Param>, signs: bool) {
    forall i :: 0 <= i < |schema| && Counted(schema[i], signs) ==> Faithful(lib, form, schema[i])
  }

  lemma FaithfulCons(lib: Library, form: Form, p: Param, more: seq<Param>, signs: bool)
    ensures AllFaithful(lib, form, [p] + more, signs)
            <==> (Counted(p, signs) ==> Faithful(lib, form, p)) && AllFaithful(lib, form, more, signs)
    ensures Accepted(lib, form, [p] + more, signs) ==> Accepted(lib, form, more, signs)
    ensures AllNumerals(lib, form, [p] + more) ==> AllNumerals(lib, form, more)
  {
    var schema := [p] + more;
    forall i | 0 <= i < |more| ensures more[i] == schema[i + 1] {}
    assert schema[0] == p && forall i :: 0 < i < |schema| ==> schema[i] == more[i - 1];
  }

  function Echoes(lib: Library, form: Form, schema: seq<Param>, signs: bool): seq<bytes> {
    EchoAll(lib, schema, Meanings(lib, form, schema), signs)
  }

  lemma EchoesCons(lib: Library, form: Form, p: Param, more: seq<Param>, signs: bool)
    ensures Echoes(lib, form, [p] + more, signs)
         == (if Counted(p, signs) then [Echo(lib, form, p)] else []) + Echoes(lib, form, more, signs)
  {
    MeaningsCons(lib, form, p, more);
  }

  /** Without the signature parameters: pieces match pairwise exactly when all are faithful. */
  lemma {:induction false} EchoesMatch(lib: Library, form: Form, schema: seq<Param>)
    requires Accepted(lib, form, schema, false) && AllNumerals(lib, form, schema)
    requires Payload(lib, form, schema).Some? && ShownAll(lib, form, schema).Some?
    ensures var shown, echoes := ShownAll(lib, form, schema).value, Echoes(lib, form, schema, false);
      Tame(shown, echoes) && (shown == echoes <==> AllFaithful(lib, form, schema, false))
  {
    if schema != [] {
      var p, more := schema[0], schema[1..];
      assert schema == [p] + more;
      FaithfulCons(lib, form, p, more, false);
      EchoesMatch(lib, form, more);
      EchoesCons(lib, form, p, more, false);
      var shown, echoes := ShownAll(lib, form, more).value, Echoes(lib, form, more, false);
      if Counted(p, false) {
        EchoIsShown(lib, form, p);
        Cons(Shown(lib, form, p).value, shown, Echo(lib, form, p), echoes);
      } else {
        assert [] + echoes == echoes;
      }
    }
  }

  // ----- Parameters the browser signs by themselves

  /** The signatures, in the order the page appends them to the prepared string. */
  function SignTexts(form: Form, signs: seq<TxSign>): seq<bytes> {
    seq(|signs|, i requires 0 <= i < |signs| => form.value(signs[i].field))
  }

  /** What the page has the user sign: the prepared string, then every signature it made. */
  function Completed(form: Form, prepared: bytes, signs: seq<TxSign>): bytes {
    prepared + Tail(SignTexts(form, signs))
  }

  /** Every parameter behind a signature is itself a signature, images aside. */
  predicate SignaturesLast(schema: seq<Param>) {
    schema == []
    || (if Counted(schema[0], true) && schema[0].signature then OnlySignatures(schema[1..])
        else SignaturesLast(schema[1..]))
  }

  predicate OnlySignatures(schema: seq<Param>) {
    forall i :: 0 <= i < |schema| ==> schema[i].image || schema[i].signature
  }

  lemma {:induction false} OnlySignaturesShowNothing(lib: Library, form: Form, schema: seq<Param>)
    requires OnlySignatures(schema)
    ensures ShownAll(lib, form, schema) == Some([]) && SignaturesLast(schema)
  {
    if schema != [] {
      OnlySignaturesShowNothing(lib, form, schema[1..]);
    }
  }

  /** With the signatures last, prepared pieces and signatures match the parser's pieces pairwise. */
  lemma {:induction false} CompletedMatch(lib: Library, form: Form, s: Session, time: nat, schema: seq<Param>)
    requires SignaturesLast(schema) && Accepted(lib, form, schema, true) && AllNumerals(lib, form, schema)
    requires Payload(lib, form, schema).Some? && ShownAll(lib, form, schema).Some?
    ensures var echoes := Echoes(lib, form, schema, true);
      var signed := ShownAll(lib, form, schema).value + SignTexts(form, SignsOf(lib, form, s, time, schema));
      Tame(signed, echoes) && (signed == echoes <==> AllFaithful(lib, form, schema, true))
  {
    if schema != [] {
      var p, more := schema[0], schema[1..];
      assert schema == [p] + more;
      FaithfulCons(lib, form, p, more, true);
      if Counted(p, true) && p.signature {
        OnlySignaturesShowNothing(lib, form, more);
      }
      CompletedMatch(lib, form, s, time, more);
      EchoesCons(lib, form, p, more, true);
      var shown, echoes := ShownAll(lib, form, more).value, Echoes(lib, form, more, true);
      var signs := SignsOf(lib, form, s, time, more);
      if Counted(p, true) {
        EchoIsShown(lib, form, p);
        Cons(Expected(lib, form, p).value, shown + SignTexts(form, signs), Echo(lib, form, p), echoes);
        PieceFirst(Expected(lib, form, p).value, shown, SignTexts(form, signs));
        if p.signature {
          SignTextsCons(form, SignOf(lib, form, s, time, p), signs);
        } else {
          assert [] + signs == signs;
        }
      } else {
        assert [] + echoes == echoes && [] + signs == signs;
      }
    }
  }

  lemma SignTextsCons(form: Form, sign: TxSign, signs: seq<TxSign>)
    ensures SignTexts(form, [sign] + signs) == [form.value(sign.field)] + SignTexts(form, signs)
  {
  }

  lemma PieceFirst(t: bytes, shown: seq<bytes>, texts: seq<bytes>)
    ensures [t] + shown + texts == [t] + (shown + texts)
    ensures [] + ([t] + texts) == [t] + ([] + texts)
  {
  }

  // ----- Whole strings

  /** The two headings print alike exactly when the contract's number and the state fit an int32. */
  lemma HeadingsAgree(s: Session, time: nat)
    requires s.id < TWO32
    ensures var wallet := UserId(s);
      Heading(s.id, time, wallet, s.state, Flags(s)) == Heading(ToInt32(s.id), time, wallet, ToInt32(s.state), Flags(s))
      <==> s.id < 0x8000_0000 && -0x8000_0000 <= s.state < 0x8000_0000
  {
    FormatIsInjective(s.id, ToInt32(s.id));
    FormatIsInjective(s.state, ToInt32(s.state));
    FitsInt32(s.id);
    FitsInt32(s.state);
  }

  lemma FitsInt32(x: int)
    ensures ToInt32(x) == x <==> -0x8000_0000 <= x < 0x8000_0000
  {
  }

  lemma FormatIsInjective(x: int64, y: int64)
    ensures FormatInt(x) == FormatInt(y) <==> x == y
  {
    ParseIntOfFormat(x);
    ParseIntOfFormat(y);
  }

  /** Do number and state fit the header? */
  predicate Fits(s: Session) {
    s.id < 0x8000_0000 && -0x8000_0000 <= s.state < 0x8000_0000
  }

  lemma HeadingsMatch(s: Session, time: nat, shown: seq<bytes>, echoes: seq<bytes>)
    requires s.id < TWO32 && Tame(shown, echoes)
    ensures var a := Heading(s.id, time, UserId(s), s.state, Flags(s));
      var b := Heading(ToInt32(s.id), time, UserId(s), ToInt32(s.state), Flags(s));
      Join(a + shown) == Join(b + echoes) <==> Fits(s) && shown == echoes
  {
    var a := Heading(s.id, time, UserId(s), s.state, Flags(s));
    var b := Heading(ToInt32(s.id), time, UserId(s), ToInt32(s.state), Flags(s));
    HeadingFirst(a, shown, b, echoes);
    SameJoin(a + shown, b + echoes);
    HeadingsAgree(s, time);
  }

  /** What prepare and send have in common with the parser's answer, once it accepts. */
  ghost predicate Exchange(lib: Library, form: Form, s: Session, schema: seq<Param>, time: nat, prepared: bytes,
                           h: Header)
  {
    && s.id < TWO32 && AllNumerals(lib, form, schema) && Payload(lib, form, schema).Some?
    && PrepareSpec(lib, form, s, schema, time) == Some(prepared)
    && h == SentHeader(form, s, h.sign) && h.time == time
  }

  /**
   For every contract. Leaving out the signature parameters, the string rebuilt by the parser is the
   prepared one exactly when number and state fit an int32 and every other parameter but the images is
   faithful.
   */
  lemma SignedStringIsRebuilt(lib: Library, form: Form, s: Session, schema: seq<Param>, time: nat, prepared: bytes,
                              h: Header)
    requires Exchange(lib, form, s, schema, time, prepared, h) && Accepted(lib, form, schema, false)
    ensures Rebuilt(lib, schema, h, Meanings(lib, form, schema), false) == prepared
            <==> Fits(s) && AllFaithful(lib, form, schema, false)
  {
    EchoesMatch(lib, form, schema);
    HeadingsMatch(s, time, ShownAll(lib, form, schema).value, Echoes(lib, form, schema, false));
  }

  /**
   Where the signature parameters come last, the whole string the signature is checked against is the one
   the page had signed under the same conditions, for the signature parameters too.
   */
  lemma CompletedStringIsRebuilt(lib: Library, form: Form, s: Session, schema: seq<Param>, time: nat, prepared: bytes,
                                 h: Header)
    requires Exchange(lib, form, s, schema, time, prepared, h) && Accepted(lib, form, schema, true)
    requires SignaturesLast(schema)
    ensures ForSign(lib, schema, h, Meanings(lib, form, schema))
              == Completed(form, prepared, SignsOf(lib, form, s, time, schema))
            <==> Fits(s) && AllFaithful(lib, form, schema, true)
  {
    CompletedMatch(lib, form, s, time, schema);
    CompletedIsJoin(lib, form, s, schema, time, prepared);
    var shown := ShownAll(lib, form, schema).value + SignTexts(form, SignsOf(lib, form, s, time, schema));
    HeadingsMatch(s, time, shown, Echoes(lib, form, schema, true));
  }

  lemma CompletedIsJoin(lib: Library, form: Form, s: Session, schema: seq<Param>, time: nat, prepared: bytes)
    requires PrepareSpec(lib, form, s, schema, time) == Some(prepared)
    ensures ShownAll(lib, form, schema).Some?
    ensures var signs := SignsOf(lib, form, s, time, schema);
      Completed(form, prepared, signs)
        == Join(Heading(s.id, time, UserId(s), s.state, Flags(s))
                + (ShownAll(lib, form, schema).value + SignTexts(form, signs)))
  {
    var heading, shown := Heading(s.id, time, UserId(s), s.state, Flags(s)), ShownAll(lib, form, schema).value;
    var texts := SignTexts(form, SignsOf(lib, form, s, time, schema));
    JoinAppend(heading + shown, texts);
    SameOrder(heading, shown, texts);
  }

  lemma SameOrder(a: seq<bytes>, b: seq<bytes>, c: seq<bytes>)
    ensures a + b + c == a + (b + c)
  {
  }

  lemma JoinAppend(a: seq<bytes>, b: seq<bytes>)
    requires a != []
    ensures Join(a + b) == Join(a) + Tail(b)
  {
    TailAppend(a, b);
    DropFirst(Tail(a), Tail(b));
  }

  lemma DropFirst(x: bytes, y: bytes)
    requires x != []
    ensures (x + y)[1..] == x[1..] + y
  {
  }

  /** A posted form, what was prepared and queued from it, and the parser's answer when it is a contract's. */
  ghost predicate IsExchange(lib: Library, form: Form, s: Session, schema: seq<Param>, signature: bytes, time: nat,
                             prepared: bytes, data: slice)
  {
    && s.id < TWO32 && time < TWO32 && ParseInt(form.value(TIME)) == time
    && PrepareSpec(lib, form, s, schema, time) == Some(prepared)
    && SendSpec(lib, form, s, schema, signature) == Some(data)
    && ParseContract(lib, schema, data).Contract?
  }

  /**
   From the pages to the node, where the posted time reads as the prepared one: the string the node checks
   the signature against. First without the signature parameters, for every contract; then as a whole,
   where those come last.
   */
  lemma NodeChecksWhatWasSigned(lib: Library, form: Form, s: Session, schema: seq<Param>, signature: bytes, time: nat,
                                prepared: bytes, data: slice)
    requires IsExchange(lib, form, s, schema, signature, time, prepared, data)
    ensures var r := ParseContract(lib, schema, data);
      Accepted(lib, form, schema, false) ==>
        (Rebuilt(lib, schema, r.header, r.values, false) == prepared
         <==> Fits(s) && AllFaithful(lib, form, schema, false))
    ensures Accepted(lib, form, schema, true) && SignaturesLast(schema) ==>
      (ParseContract(lib, schema, data).forsign == Completed(form, prepared, SignsOf(lib, form, s, time, schema))
       <==> Fits(s) && AllFaithful(lib, form, schema, true))
  {
    var h := AnswerOf(lib, form, s, schema, signature, time, prepared, data);
    if Accepted(lib, form, schema, false) {
      SignedStringIsRebuilt(lib, form, s, schema, time, prepared, h);
    }
    if Accepted(lib, form, schema, true) && SignaturesLast(schema) {
      CompletedStringIsRebuilt(lib, form, s, schema, time, prepared, h);
    }
  }

  lemma AnswerOf(lib: Library, form: Form, s: Session, schema: seq<Param>, signature: bytes, time: nat,
                 prepared: bytes, data: slice) returns (h: Header)
    requires IsExchange(lib, form, s, schema, signature, time, prepared, data)
    ensures Exchange(lib, form, s, schema, time, prepared, h)
    ensures var values := Meanings(lib, form, schema);
      ParseContract(lib, schema, data) == Contract(h, values, ForSign(lib, schema, h, values))
  {
    h := SentHeader(form, s, SignField(lib, form, s, signature).value);
    SentIsParsed(lib, form, s, schema, signature, data);
    SentIsHeaderAndPayload(lib, form, s, schema, signature, data);
    HeaderOfExchange(lib, form, s, schema, time, prepared, h.sign);
  }

  lemma HeaderOfExchange(lib: Library, form: Form, s: Session, schema: seq<Param>, time: nat, prepared: bytes,
                         sign: bytes)
    requires s.id < TWO32 && time < TWO32 && ParseInt(form.value(TIME)) == time
    requires AllNumerals(lib, form, schema) && Payload(lib, form, schema).Some?
    requires PrepareSpec(lib, form, s, schema, time) == Some(prepared)
    ensures Exchange(lib, form, s, schema, time, prepared, SentHeader(form, s, sign))
  {
    TimeIsKept(form, s, sign, time);
  }

  lemma TimeIsKept(form: Form, s: Session, sign: bytes, time: nat)
    requires time < TWO32 && ParseInt(form.value(TIME)) == time
    ensures SentHeader(form, s, sign).time == time
  {
  }

  // ----- Signature parameters anywhere

  /** The pieces of what the page has signed. */
  function SignedPieces(lib: Library, form: Form, s: Session, schema: seq<Param>, time: nat): seq<bytes>
    requires ShownAll(lib, form, schema).Some?
  {
    ShownAll(lib, form, schema).value + SignTexts(form, SignsOf(lib, form, s, time, schema))
  }

  /** For every contract and all texts: behind the headings, the joins of signed and printed pieces decide. */
  lemma WholeStringsAgreePiecewise(lib: Library, form: Form, s: Session, schema: seq<Param>, time: nat,
                                   prepared: bytes, h: Header)
    requires Exchange(lib, form, s, schema, time, prepared, h)
    ensures ForSign(lib, schema, h, Meanings(lib, form, schema))
              == Completed(form, prepared, SignsOf(lib, form, s, time, schema))
            <==> Fits(s) && Tail(SignedPieces(lib, form, s, schema, time)) == Tail(Echoes(lib, form, schema, true))
  {
    CompletedIsJoin(lib, form, s, schema, time, prepared);
    HeadingsPeel(s, time, SignedPieces(lib, form, s, schema, time), Echoes(lib, form, schema, true));
  }

  function TextOf(lib: Library, form: Form, p: Param): bytes {
    if Expected(lib, form, p).None? then [] else Expected(lib, form, p).value
  }

  /** The texts of some of the parameters, in declared order. */
  function Texts(lib: Library, form: Form, schema: seq<Param>, which: Param -> bool): seq<bytes> {
    if schema == [] then []
    else (if which(schema[0]) then [TextOf(lib, form, schema[0])] else []) + Texts(lib, form, schema[1..], which)
  }

  /** All texts but those of images, in declared order. */
  function Declared(lib: Library, form: Form, schema: seq<Param>): seq<bytes> {
    Texts(lib, form, schema, (p: Param) => Counted(p, true))
  }

  /** The same texts with the signatures moved behind the others. */
  function Moved(lib: Library, form: Form, schema: seq<Param>): seq<bytes> {
    Texts(lib, form, schema, (p: Param) => Counted(p, false))
    + Texts(lib, form, schema, (p: Param) => !p.image && p.signature)
  }

  lemma {:induction false} ShownAreTexts(lib: Library, form: Form, schema: seq<Param>)
    requires ShownAll(lib, form, schema).Some?
    ensures ShownAll(lib, form, schema).value == Texts(lib, form, schema, (p: Param) => Counted(p, false))
  {
    if schema != [] {
      ShownAreTexts(lib, form, schema[1..]);
    }
  }

  lemma {:induction false} SignsAreTexts(lib: Library, form: Form, s: Session, time: nat, schema: seq<Param>)
    requires Accepted(lib, form, schema, true)
    ensures SignTexts(form, SignsOf(lib, form, s, time, schema))
         == Texts(lib, form, schema, (p: Param) => !p.image && p.signature)
  {
    if schema != [] {
      var p, more := schema[0], schema[1..];
      assert schema == [p] + more;
      FaithfulCons(lib, form, p, more, true);
      SignsAreTexts(lib, form, s, time, more);
      var signs := SignsOf(lib, form, s, time, more);
      assert Counted(p, true) ==> Posted(lib, form, p);
      if HasSign(lib, p) {
        SignTextsCons(form, SignOf(lib, form, s, time, p), signs);
      } else {
        assert [] + signs == signs;
      }
    }
  }

  lemma {:induction false} EchoesAreTexts(lib: Library, form: Form, schema: seq<Param>)
    requires Accepted(lib, form, schema, true) && AllFaithful(lib, form, schema, true)
    requires AllNumerals(lib, form, schema)
    requires Payload(lib, form, schema).Some? && ShownAll(lib, form, schema).Some?
    ensures Echoes(lib, form, schema, true) == Declared(lib, form, schema)
  {
    if schema != [] {
      var p, more := schema[0], schema[1..];
      assert schema == [p] + more;
      FaithfulCons(lib, form, p, more, true);
      EchoesAreTexts(lib, form, more);
      EchoesCons(lib, form, p, more, true);
      if Counted(p, true) {
        EchoIsShown(lib, form, p);
      }
    }
  }

  /**
   Wherever the signature parameters stand, and whatever the texts: with all of them faithful, the whole
   string is the one the page had signed exactly when number and state fit and moving the signatures to the
   end does not change the texts' join.
   */
  lemma OrderDecides(lib: Library, form: Form, s: Session, schema: seq<Param>, time: nat, prepared: bytes, h: Header)
    requires Exchange(lib, form, s, schema, time, prepared, h)
    requires Accepted(lib, form, schema, true) && AllFaithful(lib, form, schema, true)
    ensures ForSign(lib, schema, h, Meanings(lib, form, schema))
              == Completed(form, prepared, SignsOf(lib, form, s, time, schema))
            <==> Fits(s) && Tail(Moved(lib, form, schema)) == Tail(Declared(lib, form, schema))
  {
    ShownAreTexts(lib, form, schema);
    SignsAreTexts(lib, form, s, time, schema);
    EchoesAreTexts(lib, form, schema);
    WholeStringsAgreePiecewise(lib, form, s, schema, time, prepared, h);
  }

  /** Among texts without commas: exactly when moving the signatures to the end changes no text's place. */
  lemma PlainOrderDecides(lib: Library, form: Form, schema: seq<Param>)
    requires AllCommaFree(Moved(lib, form, schema)) && AllCommaFree(Declared(lib, form, schema))
    ensures Tail(Moved(lib, form, schema)) == Tail(Declared(lib, form, schema))
            <==> Moved(lib, form, schema) == Declared(lib, form, schema)
  {
    if Tail(Moved(lib, form, schema)) == Tail(Declared(lib, form, schema)) {
      CommaFreeJoins(Moved(lib, form, schema), Declared(lib, form, schema));
    }
  }

  lemma HeadingsPeel(s: Session, time: nat, ps: seq<bytes>, qs: seq<bytes>)
    requires s.id < TWO32
    ensures var a := Heading(s.id, time, UserId(s), s.state, Flags(s));
      var b := Heading(ToInt32(s.id), time, UserId(s), ToInt32(s.state), Flags(s));
      Join(a + ps) == Join(b + qs) <==> Fits(s) && Tail(ps) == Tail(qs)
  {
    var a := Heading(s.id, time, UserId(s), s.state, Flags(s));
    var b := Heading(ToInt32(s.id), time, UserId(s), ToInt32(s.state), Flags(s));
    HeadingIsCommaFree(s.id, time, UserId(s), s.state, Flags(s));
    HeadingIsCommaFree(ToInt32(s.id), time, UserId(s), ToInt32(s.state), Flags(s));
    JoinOrTail(a + ps, b + qs);
    PlainPiecesPeel(a, ps, b, qs);
    HeadingsAgree(s, time);
  }

  lemma HeadingIsCommaFree(id: int, time: nat, wallet: nat, state: int, flags: nat)
    ensures AllCommaFree(Heading(id, time, wallet, state, flags))
  {
  }

  /**
   A signature in front of another parameter: two different texts without commas are signed in one order and
   read in the other.
   */
  lemma SignatureInFrontIsMisread(lib: Library, form: Form, s: Session, p: Param, q: Param, time: nat, prepared: bytes,
                                  h: Header)
    requires Exchange(lib, form, s, [p, q], time, prepared, h) && Accepted(lib, form, [p, q], true)
    requires AllFaithful(lib, form, [p, q], true) && Counted(p, true) && Counted(q, false) && p.signature
    requires CommaFree(TextOf(lib, form, p)) && CommaFree(TextOf(lib, form, q))
    requires TextOf(lib, form, p) != TextOf(lib, form, q)
    ensures ForSign(lib, [p, q], h, Meanings(lib, form, [p, q]))
              != Completed(form, prepared, SignsOf(lib, form, s, time, [p, q]))
  {
    var declared := Declared(lib, form, [p, q]);
    PairTexts(lib, form, p, q);
    PlainOrderDecides(lib, form, [p, q]);
    OrderDecides(lib, form, s, [p, q], time, prepared, h);
    assert Moved(lib, form, [p, q])[0] != declared[0];
  }

  lemma PairTexts(lib: Library, form: Form, p: Param, q: Param)
    requires Counted(p, true) && Counted(q, false) && p.signature
    ensures Declared(lib, form, [p, q]) == [TextOf(lib, form, p), TextOf(lib, form, q)]
    ensures Moved(lib, form, [p, q]) == [TextOf(lib, form, q), TextOf(lib, form, p)]
  {
    SomeOfPair(lib, form, p, q, (p: Param) => Counted(p, true));
    SomeOfPair(lib, form, p, q, (p: Param) => Counted(p, false));
    SomeOfPair(lib, form, p, q, (p: Param) => !p.image && p.signature);
  }

  lemma SomeOfPair(lib: Library, form: Form, p: Param, q: Param, which: Param -> bool)
    ensures Texts(lib, form, [p, q], which)
         == (if which(p) then [TextOf(lib, form, p)] else []) + if which(q) then [TextOf(lib, form, q)] else []
  {
    assert [p, q][1..] == [q] && [q][1..] == [];
    assert Texts(lib, form, [q], which) == (if which(q) then [TextOf(lib, form, q)] else []) + [];
  }

  // ----- Inputs that show where it fails

  /**
   Why an encrypted key must not be a list: its pieces differ on both sides, and a bool parameter behind it
   can make up for that, so no condition on single parameters is exact there.
   */
  lemma EncryptedListIsMadeUpFor(lib: Library, form: Form, p: Param, q: Param, x: plain, y: slice)
    requires p.kind == List && p.crypt && !p.image && !p.signature && lib.encrypted(p.name) == Some(x)
    requires q.kind == Other && !q.image && !q.crypt && !q.signature && !q.address
    requires form.list(p.name) == [x, y] && lib.trim(form.value(q.name)) == y + [COMMA] + NIL_TEXT
    ensures ShownAll(lib, form, [p, q]).Some?
    ensures var shown, echoes := ShownAll(lib, form, [p, q]).value, Echoes(lib, form, [p, q], true);
      shown[0] != echoes[0] && Join(shown) == Join(echoes)
  {
    var z := y + [COMMA] + NIL_TEXT;
    PairShown(lib, form, p, q, x, z);
    PairEchoes(lib, form, p, q);
    PairsMadeUp(x, y, NIL_TEXT);
  }

  lemma PairShown(lib: Library, form: Form, p: Param, q: Param, x: bytes, z: bytes)
    requires !p.image && !p.signature && !q.image && !q.signature
    requires Shown(lib, form, p) == Some(x) && Shown(lib, form, q) == Some(z)
    ensures ShownAll(lib, form, [p, q]) == Some([x, z])
  {
    assert [p, q][1..] == [q] && [q][1..] == [];
    assert ShownAll(lib, form, [q]) == Some([z] + []) && [z] + [] == [z];
    assert [x] + [z] == [x, z];
  }

  lemma PairEchoes(lib: Library, form: Form, p: Param, q: Param)
    requires Counted(p, true) && Counted(q, true)
    ensures Echoes(lib, form, [p, q], true) == [Echo(lib, form, p), Echo(lib, form, q)]
  {
    assert [p] + [q] == [p, q] && [q] + [] == [q];
    EchoesCons(lib, form, p, [q], true);
    EchoesCons(lib, form, q, [], true);
  }

  lemma PairsMadeUp(x: bytes, y: bytes, z: bytes)
    ensures Join([x, y + [COMMA] + z]) == Join([Join([x, y]), z]) && x != Join([x, y])
  {
    JoinPair(x, y);
    JoinPair(x, y + [COMMA] + z);
    JoinPair(Join([x, y]), z);
    FivePieces(x, [COMMA], y, [COMMA], z);
  }

  lemma FivePieces(a: bytes, b: bytes, c: bytes, d: bytes, e: bytes)
    ensures a + b + (c + d + e) == a + b + c + d + e
  {
  }

  lemma JoinPair(a: bytes, b: bytes)
    ensures Join([a, b]) == a + [COMMA] + b
  {
    assert [a, b][1..] == [b] && [b][1..] == [];
    assert Tail([b]) == [COMMA] + b;
    assert Tail([a, b]) == [COMMA] + a + ([COMMA] + b);
  }

  /** Every outside function answers plainly, and every field of the form reads "0". */
  function PlainLibrary(): Library {
    Library(s => if |s| < TWO63 then s else [], _ => 0, _ => 0, _ => [], _ => None, _ => None, _ => [], _ => None,
            _ => [])
  }

  function ZeroForm(): Form {
    Form(_ => [ZERO], _ => [])
  }

  function ZeroSession(): Session {
    Session(200, 0, 0, true)
  }

  function ZeroSchema(): seq<Param> {
    [Param([], Money, false, false, false, None, false, false)]
  }

  lemma ZeroFormIsAccepted()
    ensures var lib, form, schema := PlainLibrary(), ZeroForm(), ZeroSchema();
      && Accepted(lib, form, schema, true) && SignaturesLast(schema) && !AllFaithful(lib, form, schema, true)
      && AllNumerals(lib, form, schema) && ShownAll(lib, form, schema).Some?
      && Payload(lib, form, schema) == Some(LengthPlusData([ZERO]))
  {
    var lib, form, schema := PlainLibrary(), ZeroForm(), ZeroSchema();
    var p := schema[0];
    assert schema == [p] && schema[1..] == [];
    ZeroAmountIsNotFaithful(lib, form, p);
    assert Payload(lib, form, schema) == Onto(LengthPlusData([ZERO]), Payload(lib, form, []));
    assert LengthPlusData([ZERO]) + [] == LengthPlusData([ZERO]);
    assert Counted(p, true) && !Faithful(lib, form, p);
  }

  lemma ZeroFormIsSent(signature: bytes) returns (data: slice)
    requires 0 < |signature| < 0x1_0000
    ensures SendSpec(PlainLibrary(), ZeroForm(), ZeroSession(), ZeroSchema(), signature) == Some(data)
  {
    ZeroFormIsAccepted();
    SentIsShort(ZeroForm(), ZeroSession(), signature);
    data := HeaderCode(SentHeader(ZeroForm(), ZeroSession(), LengthPlusData(signature))) + LengthPlusData([ZERO]);
  }

  /** A contract with one amount, posted as "0": accepted throughout, and checked against another string. */
  lemma ZeroAmountIsMisread(signature: bytes) returns (prepared: bytes, data: slice)
    requires 0 < |signature| < 0x1_0000
    ensures IsExchange(PlainLibrary(), ZeroForm(), ZeroSession(), ZeroSchema(), signature, 0, prepared, data)
    ensures Accepted(PlainLibrary(), ZeroForm(), ZeroSchema(), true) && SignaturesLast(ZeroSchema())
    ensures ParseContract(PlainLibrary(), ZeroSchema(), data).forsign
         != Completed(ZeroForm(), prepared, SignsOf(PlainLibrary(), ZeroForm(), ZeroSession(), 0, ZeroSchema()))
  {
    var lib, form, s, schema := PlainLibrary(), ZeroForm(), ZeroSession(), ZeroSchema();
    ZeroFormIsAccepted();
    ZeroReadsAsZero();
    prepared := PrepareSpec(lib, form, s, schema, 0).value;
    data := ZeroFormIsSent(signature);
    SentIsParsed(lib, form, s, schema, signature, data);
    NodeChecksWhatWasSigned(lib, form, s, schema, signature, 0, prepared, data);
  }

  lemma ZeroReadsAsZero()
    ensures ParseInt([ZERO]) == 0
  {
    ParseIntOfFormat(0);
  }

  lemma SentIsShort(form: Form, s: Session, signature: bytes)
    requires |signature| < 0x1_0000
    ensures |HeaderCode(SentHeader(form, s, LengthPlusData(signature))) + LengthPlusData([ZERO])| < 0x10_0000
  {
  }
}
