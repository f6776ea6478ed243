/** Who a queued transaction is from, which fields it carries and which requests are refused, type by type. */
module Senders {
  import opened Options
  import opened Bytes
  import opened Text
  import opened WireCode
  import opened Frames
  import opened SystemParser
  import BlockBody

  /** The node's maps of a queued request. */
  ghost function Received(r: Request, lib: Library, isDecimal: bytes -> bool): Mapped
    requires Accepted(r)
  {
    var slices := Parse(Frame(r, lib));
    if slices.None? then OutOfRange else MapOf(slices.value, Declaration(r.t), isDecimal)
  }

  /** The limits within which a request is read back. */
  ghost predicate IsReadable(r: Request, lib: Library, isDecimal: bytes -> bool)
    requires Accepted(r)
  {
    && !r.t.Unserialized? && ParseInt(r.form(Time)) < TWO32
    && AllShort(Sources(r, lib, Schema(r.t)))
    && (r.t.DLTTransfer? ==> AmountsAreDecimal(r, isDecimal))
  }

  /** The user as the node takes it: a citizen of a state, or a wallet. */
  ghost predicate IsFrom(m: TxMaps, user: int64, state: int64) {
    && m.userId == user && m.stateId == state
    && (0 < state ==> m.citizenId == user && m.walletId == 0)
    && (state <= 0 ==> m.citizenId == 0 && m.walletId == user)
  }

  /**
   A positive state in the form makes the session's citizen the sender, otherwise its wallet. Transfers,
   votes, new states and node keys of wallets then drop the state, so that either is taken for a wallet;
   a wallet edit is from the wallet where there is one; a new account is from itself; and a node key carries
   the citizen for the state.
   */
  lemma SenderIsRead(r: Request, lib: Library, isDecimal: bytes -> bool)
    requires Accepted(r) && IsReadable(r, lib, isDecimal)
    ensures Received(r, lib, isDecimal).Mapped?
    ensures var m, state := Received(r, lib, isDecimal).maps, ParseInt(r.form(StateId));
      match r.t
      case DLTTransfer => IsFrom(m, if 0 < state then r.citizen else r.wallet, 0)
      case DLTChangeHostVote => IsFrom(m, if 0 < state then r.citizen else r.wallet, 0)
      case NewState => IsFrom(m, if 0 < state then r.citizen else r.wallet, 0)
      case ChangeNodeKeyDLT => IsFrom(m, if 0 < state then r.citizen else r.wallet, 0)
      case EditWallet => IsFrom(m, if r.wallet != 0 then r.wallet else r.citizen, state)
      case NewAccount => IsFrom(m, ParseInt(r.form(AccountId)), state)
      case ChangeNodeKey => IsFrom(m, r.wallet, r.citizen)
      case _ => IsFrom(m, if 0 < state then r.citizen else r.wallet, state)
  {
    NodeReadsWhatWasQueued(r, lib, isDecimal);
    SenderOfType(r);
    ReadingIsFrom(Received(r, lib, isDecimal).maps.kind, TimeOf(r), Sender(r).0, Sender(r).1, Declaration(r.t),
                  Sources(r, lib, Schema(r.t)));
  }

  lemma SenderOfType(r: Request)
    ensures var state := ParseInt(r.form(StateId));
      Sender(r) ==
        match r.t
        case DLTTransfer => (if 0 < state then r.citizen else r.wallet, 0)
        case DLTChangeHostVote => (if 0 < state then r.citizen else r.wallet, 0)
        case NewState => (if 0 < state then r.citizen else r.wallet, 0)
        case ChangeNodeKeyDLT => (if 0 < state then r.citizen else r.wallet, 0)
        case EditWallet => (if r.wallet != 0 then r.wallet else r.citizen, state)
        case NewAccount => (ParseInt(r.form(AccountId)), state)
        case ChangeNodeKey => (r.wallet, r.citizen)
        case _ => (if 0 < state then r.citizen else r.wallet, state)
  {
  }

  lemma ReadingIsFrom(code: int64, time: int64, user: int64, state: int64, fields: seq<Declared>, values: seq<bytes>)
    requires |fields| == |values|
    ensures IsFrom(Reading(code, time, user, state, fields, values), user, state)
  {
  }

  /** Type and time arrive as posted. */
  lemma TypeAndTimeAreRead(r: Request, lib: Library, isDecimal: bytes -> bool)
    requires Accepted(r) && IsReadable(r, lib, isDecimal)
    ensures Received(r, lib, isDecimal).Mapped?
    ensures var m := Received(r, lib, isDecimal).maps; m.kind == Code(r.t) && m.time == ParseInt(r.form(Time))
  {
    NodeReadsWhatWasQueued(r, lib, isDecimal);
  }

  /** Hexadecimal text decoded; of malformed text Go leaves something else in the result. */
  function Decoded(text: bytes, lib: Library): bytes {
    match HexDecode(text)
    case Some(b) => b
    case None => lib.badHex(text)
  }

  /** What the field of a name holds for a request. */
  ghost predicate HoldsPosted(f: Field, text: bytes, r: Request, lib: Library)
    requires Accepted(r)
  {
    match f
    case Form(Comment) => text == if r.form(Comment) == [] then Ascii("null") else r.form(Comment)
    case Form(name) => text == r.form(name)
    case Res => text == r.form(Trans)
    case Pub => text == Decoded(r.form(Pubkey), lib)
    case PublicKeyField =>
      var key := Decoded(r.form(Pubkey), lib);
      && (key == [] ==> text == Ascii("null"))
      && (0 < |key| <= 64 ==> text == key)
      && (64 < |key| ==> text == key[|key| - 64..])
    case NewNodePublicKey => text == Decoded(r.form(PublicKey), lib)
    case Sign => text == LengthPlusData(r.signature.value)
  }

  /** Every field arrives under its declared name with what the form held for that name. */
  lemma FieldsAreRead(r: Request, lib: Library, isDecimal: bytes -> bool)
    requires Accepted(r) && IsReadable(r, lib, isDecimal)
    ensures Received(r, lib, isDecimal).Mapped?
    ensures var fields := Received(r, lib, isDecimal).maps.fields;
      && |fields| == |Schema(r.t)|
      && forall i :: 0 <= i < |fields| ==>
           fields[i].field == Schema(r.t)[i] && HoldsPosted(fields[i].field, fields[i].text, r, lib)
  {
    NodeReadsWhatWasQueued(r, lib, isDecimal);
    var fields := Received(r, lib, isDecimal).maps.fields;
    forall i | 0 <= i < |fields|
      ensures fields[i].field == Schema(r.t)[i] && HoldsPosted(fields[i].field, fields[i].text, r, lib)
    {
      SourceHoldsPosted(r, lib, Schema(r.t)[i]);
    }
  }

  lemma SourceHoldsPosted(r: Request, lib: Library, f: Field)
    requires Accepted(r)
    ensures HoldsPosted(f, Source(r, lib, f), r, lib)
  {
  }

  // ----- Who is refused

  /** What every type asks for: a sender, a time of ten digits, a signature, and a name of the right shape. */
  predicate AsksWell(r: Request) {
    && (0 < r.citizen || r.wallet != 0)
    && 0 <= ParseInt(r.form(Time)) <= 9999999999
    && r.signature.Some? && r.signature.value != []
    && (r.t.Unserialized? ==> TypeNameOk(r.t.name))
  }

  /** The types, by number, that are queued without a state: the others change something of a state. */
  predicate GoesWithoutState(t: TxType) {
    Code(t) in {0, 5, 6, 8, 9, 16, 22, 28, 29, 31, 32, 33, 34}
  }

  /**
   A well-asked request is refused exactly when its type needs a state and there is none, when a node key has
   the wrong shape, or when a new account lacks its number, its state, a sender or one of its keys.
   */
  lemma RefusedExactly(r: Request)
    requires AsksWell(r)
    ensures var state := ParseInt(r.form(StateId));
      Accepted(r) <==>
        && (state == 0 ==> GoesWithoutState(r.t))
        && (Code(r.t) in {8, 22} ==> r.keysOk)
        && (Code(r.t) == 35 ==>
              && ParseInt(r.form(AccountId)) != 0 && (if 0 < state then r.citizen else r.wallet) != 0
              && HexDecode(r.form(Pubkey)).Some? && r.form(Prvkey) != [])
  {
  }

  lemma OnlyWellAskedIsAccepted(r: Request)
    requires Accepted(r)
    ensures AsksWell(r)
  {
  }

  /** Of numerals the type names are those up to 30; other names are words of any letters, digits and '_'. */
  lemma TypeNamesExactly(name: bytes)
    requires name != []
    ensures AllDigits(name) ==> (TypeNameOk(name) <==> FromDigits(name) <= 30)
    ensures (exists i :: 0 <= i < |name| && !IsDigit(name[i])) ==>
      (TypeNameOk(name) <==> ParseInt(name) <= 30 && forall i :: 0 <= i < |name| ==>
         48 <= name[i] <= 57 || 65 <= name[i] <= 90 || 97 <= name[i] <= 122 || name[i] == 95)
  {
    if AllDigits(name) {
      NumeralsAreRead(name);
    }
  }

  /** A queued request begins with its type in one byte and its time in four, the most significant first. */
  lemma FrameBegins(r: Request, lib: Library)
    requires Accepted(r) && !r.t.Unserialized? && ParseInt(r.form(Time)) < TWO32
    ensures 5 <= |Frame(r, lib)|
    ensures Frame(r, lib)[0] == Code(r.t) && FromBigEndian(Frame(r, lib)[1..5]) == ParseInt(r.form(Time))
  {
    FrameStarts(lib, Code(r.t), TimeOf(r), Values(r, lib));
    ShortTime(lib, TimeOf(r));
    var frame, clock, body := Frame(r, lib), TimeBytes(lib, TimeOf(r)), Fields(Values(r, lib));
    assert frame == [frame[0]] + frame[1..];
    assert frame[1..5] == (clock + body)[..4] == clock;
  }

  lemma ShortTime(lib: Library, time: nat)
    requires time < TWO32
    ensures |TimeBytes(lib, time)| == 4 && FromBigEndian(TimeBytes(lib, time)) == time
  {
    Pow256Values();
    BigEndianRoundTrip(time, 4);
  }

  /** A request of any other type is queued without a single byte. */
  lemma OthersQueueNothing(r: Request, lib: Library)
    requires Accepted(r) && r.t.Unserialized?
    ensures Frame(r, lib) == []
  {
  }

  /** The block explorer lists a queued request under its type. */
  lemma QueuedIsListed(r: Request, lib: Library)
    requires Accepted(r) && !r.t.Unserialized?
    ensures BlockBody.CodeOf(Frame(r, lib)) == BlockBody.Code(BlockBody.System(Code(r.t)))
  {
    var frame := Frame(r, lib);
    FrameStarts(lib, Code(r.t), TimeOf(r), Values(r, lib));
    assert frame == [frame[0]] + frame[1..];
    BlockBody.SystemTypeIsRead(Code(r.t), frame[1..]);
  }
}
