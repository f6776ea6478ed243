/** System transactions as SaveQueue builds them, with the fields each type's parser declares. */
module Frames {
  import opened Options
  import opened Bytes
  import opened Text
  import opened WireCode

  /** The transaction types SaveQueue serializes; Unserialized stands for every other type, by its name. */
  datatype TxType =
    | DLTTransfer | DLTChangeHostVote | NewState | NewColumn | EditColumn | AppendPage | AppendMenu
    | EditPage | NewPage | EditTable | EditStateParameters | NewStateParameters | NewContract
    | EditContract | ActivateContract | NewMenu | EditMenu | EditWallet | NewTable | ChangeNodeKeyDLT
    | EditLang | NewLang | EditSign | NewSign | NewAccount | ChangeNodeKey
    | Unserialized(name: bytes)

  function Code(t: TxType): (code: nat)
    ensures code < 128
  {
    match t
    case DLTTransfer => 5
    case DLTChangeHostVote => 6
    case ChangeNodeKey => 8
    case NewState => 9
    case NewColumn => 10
    case NewTable => 11
    case EditPage => 12
    case EditMenu => 13
    case EditContract => 14
    case NewContract => 15
    case EditColumn => 16
    case EditTable => 17
    case EditStateParameters => 18
    case NewStateParameters => 19
    case NewPage => 20
    case NewMenu => 21
    case ChangeNodeKeyDLT => 22
    case AppendPage => 23
    case NewLang => 28
    case EditLang => 29
    case AppendMenu => 30
    case NewSign => 31
    case EditSign => 32
    case EditWallet => 33
    case ActivateContract => 34
    case NewAccount => 35
    case Unserialized(_) => 0
  }

  /** TypeInt of a name SaveQueue has no branch for: the other entries of TxTypes, or 0. */
  function OtherCode(name: bytes): nat {
    if name == Ascii("FirstBlock") then 1
    else if name == Ascii("Reserved1") then 2
    else if name == Ascii("Reserved2") then 3
    else if name == Ascii("Reserved3") then 4
    else if name == Ascii("UpdFullNodes") then 7
    else if name == Ascii("RestoreAccessActive") then 24
    else if name == Ascii("RestoreAccessClose") then 25
    else if name == Ascii("RestoreAccessRequest") then 26
    else if name == Ascii("RestoreAccess") then 27
    else 0
  }

  function TypeInt(t: TxType): nat {
    if t.Unserialized? then OtherCode(t.name) else Code(t)
  }

  predicate IsWord(b: byte) {
    IsDigit(b) || 65 <= b <= 90 || 97 <= b <= 122 || b == 95
  }

  /** CheckInputData for "type": a word, and no numeral above 30. */
  predicate TypeNameOk(name: bytes) {
    name != [] && (forall i :: 0 <= i < |name| ==> IsWord(name[i])) && ParseInt(name) <= 30
  }

  /** Form parameters by their names. */
  datatype Key =
    | WalletAddress | Amount | Commission | Comment | Host | AddressVote | FuelRate | StateName
    | CurrencyName | TableName | ColumnName | Permissions | Index | ColumnKind | Global | Name | Value
    | Menu | Conditions | GeneralUpdate | InsertRight | NewColumnRight | Id | SpendingContract
    | ConditionsChange | Columns | PublicKey | Trans | Pubkey | Prvkey | AccountId | StateId | Time

  /** Field names a parser declares: those of a form parameter, and five of their own. */
  datatype Field = Form(key: Key) | Res | Pub | PublicKeyField | NewNodePublicKey | Sign

  // ----- What each parser declares, in order

  function Schema(t: TxType): seq<Field> {
    match t
    case DLTTransfer =>
      [Form(WalletAddress), Form(Amount), Form(Commission), Form(Comment), PublicKeyField, Sign]
    case DLTChangeHostVote => [Form(Host), Form(AddressVote), Form(FuelRate), PublicKeyField, Sign]
    case NewState => [Form(StateName), Form(CurrencyName), PublicKeyField, Sign]
    case NewColumn =>
      [Form(TableName), Form(ColumnName), Form(Permissions), Form(Index), Form(ColumnKind), Sign]
    case EditColumn => [Form(TableName), Form(ColumnName), Form(Permissions), Sign]
    case AppendPage => [Form(Global), Form(Name), Form(Value), Sign]
    case AppendMenu => [Form(Global), Form(Name), Form(Value), Sign]
    case EditPage => [Form(Global), Form(Name), Form(Value), Form(Menu), Form(Conditions), Sign]
    case NewPage => [Form(Global), Form(Name), Form(Value), Form(Menu), Form(Conditions), Sign]
    case EditTable => [Form(TableName), Form(GeneralUpdate), Form(InsertRight), Form(NewColumnRight), Sign]
    case EditStateParameters => [Form(Name), Form(Value), Form(Conditions), Sign]
    case NewStateParameters => [Form(Name), Form(Value), Form(Conditions), Sign]
    case NewContract => [Form(Global), Form(Name), Form(Value), Form(Conditions), Sign]
    case EditContract => [Form(Global), Form(Id), Form(Value), Form(Conditions), Sign]
    case ActivateContract => [Form(Global), Form(Id), Sign]
    case NewMenu => [Form(Global), Form(Name), Form(Value), Form(Conditions), Sign]
    case EditMenu => [Form(Global), Form(Name), Form(Value), Form(Conditions), Sign]
    case EditWallet => [Form(Id), Form(SpendingContract), Form(ConditionsChange), Sign]
    case NewTable => [Form(Global), Form(TableName), Form(Columns), Sign]
    case ChangeNodeKeyDLT => [NewNodePublicKey, Sign]
    case EditLang => [Form(Name), Res, Sign]
    case NewLang => [Form(Name), Res, Sign]
    case EditSign => [Form(Global), Form(Name), Form(Value), Form(Conditions), Sign]
    case NewSign => [Form(Global), Form(Name), Form(Value), Form(Conditions), Sign]
    case NewAccount => [Pub, Sign]
    case ChangeNodeKey => [NewNodePublicKey, Sign]
    case Unserialized(_) => []
  }

  // ----- The request

  /**
   hex.DecodeString with its error ignored yields, for malformed text, different bytes in different releases
   of Go: `badHex` stands for them. For an odd number of digits, `pairs` says whether the whole pairs in front
   are decoded or nothing is.
   */
  datatype Library = Library(badHex: bytes -> bytes, pairs: bool, md5: bytes -> bytes) {
    function Hex(s: bytes): bytes {
      if HexDecode(s).Some? then HexDecode(s).value else badHex(s)
    }

    /** The hexadecimal digits of v, at least two a byte, decoded; an odd number of them is malformed. */
    function DecToBin(v: nat, size: nat): bytes
      decreases if v < Pow256(size) then 0 else 1 + v - Pow256(size)
    {
      if v < Pow256(size) then BigEndian(v, size)
      else if 16 * Pow256(size) <= v then DecToBin(v, size + 1)
      else if pairs then BigEndian(v / 16, size)
      else []
    }
  }

  /** The names SaveQueue has a branch for. */
  predicate HasBranch(name: bytes) {
    IsWalletName(name) || IsPageName(name) || IsTableName(name)
  }

  predicate IsWalletName(name: bytes) {
    || name == Ascii("DLTTransfer") || name == Ascii("DLTChangeHostVote") || name == Ascii("NewState")
    || name == Ascii("EditWallet") || name == Ascii("ChangeNodeKeyDLT") || name == Ascii("NewAccount")
    || name == Ascii("ChangeNodeKey") || name == Ascii("EditLang") || name == Ascii("NewLang")
  }

  predicate IsPageName(name: bytes) {
    || name == Ascii("AppendPage") || name == Ascii("AppendMenu") || name == Ascii("EditPage")
    || name == Ascii("NewPage") || name == Ascii("NewMenu") || name == Ascii("EditMenu")
    || name == Ascii("EditSign") || name == Ascii("NewSign")
  }

  predicate IsTableName(name: bytes) {
    || name == Ascii("NewColumn") || name == Ascii("EditColumn") || name == Ascii("EditTable")
    || name == Ascii("EditStateParameters") || name == Ascii("NewStateParameters") || name == Ascii("NewContract")
    || name == Ascii("EditContract") || name == Ascii("ActivateContract") || name == Ascii("NewTable")
  }

  /** A type as a request names it: a name with a branch is never unserialized. */
  type RequestType = t: TxType | t.Unserialized? ==> !HasBranch(t.name) witness NewState

  /**
   `signature` is the outcome of JSSignToBytes; `keysOk` that the node keys in the form have their
   required shape.
   */
  datatype Request = Request(
    citizen: int64, wallet: int64, t: RequestType, form: Key -> bytes, signature: Option<bytes>, keysOk: bool)

  /** Queued: the row of transactions_status, but for its time, and the data of the row of queue_tx. */
  datatype Reply = Refused | Queued(hash: bytes, kind: nat, wallet: int64, citizen: int64, data: bytes)

  const NULL_TEXT: bytes := Ascii("null")

  /** The public key field: the last 64 bytes of the submitted key, or "null" for none. */
  function PublicKeyOf(r: Request, lib: Library): bytes {
    var key := lib.Hex(r.form(Pubkey));
    if |key| > 64 then key[|key| - 64..] else if key == [] then NULL_TEXT else key
  }

  function FormState(r: Request): int64 {
    ParseInt(r.form(StateId))
  }

  function SenderOf(r: Request): int64 {
    if FormState(r) > 0 then r.citizen else r.wallet
  }

  /** The user id and state id a frame carries. */
  function Sender(r: Request): (int64, int64) {
    match r.t
    case DLTTransfer => (SenderOf(r), 0)
    case DLTChangeHostVote => (SenderOf(r), 0)
    case NewState => (SenderOf(r), 0)
    case ChangeNodeKeyDLT => (SenderOf(r), 0)
    case EditWallet => (if r.wallet == 0 then r.citizen else r.wallet, FormState(r))
    case NewAccount => (ParseInt(r.form(AccountId)), FormState(r))
    case ChangeNodeKey => (r.wallet, r.citizen)
    case _ => (SenderOf(r), FormState(r))
  }

  /** What the field a parser calls f must hold for this request. */
  function Source(r: Request, lib: Library, f: Field): bytes
    requires r.signature.Some?
  {
    match f
    case Form(Comment) => if r.form(Comment) == [] then NULL_TEXT else r.form(Comment)
    case Form(key) => r.form(key)
    case Res => r.form(Trans)
    case Pub => lib.Hex(r.form(Pubkey))
    case PublicKeyField => PublicKeyOf(r, lib)
    case NewNodePublicKey => lib.Hex(r.form(PublicKey))
    case Sign => LengthPlusData(r.signature.value)
  }

  const MAX_TX_SIZE := 33554432  // 32 << 20

  // ----- The frame

  function Fields(values: seq<bytes>): bytes {
    if values == [] then [] else LengthPlusData(values[0]) + Fields(values[1..])
  }

  lemma {:induction false} FieldsSnoc(values: seq<bytes>, last: bytes)
    ensures Fields(values + [last]) == Fields(values) + LengthPlusData(last)
  {
    var all := values + [last];
    if values == [] {
      assert all[1..] == [];
    } else {
      FieldsSnoc(values[1..], last);
      assert all[1..] == values[1..] + [last];
      Associative(LengthPlusData(values[0]), Fields(values[1..]), LengthPlusData(last));
    }
  }

  lemma Associative(a: bytes, b: bytes, c: bytes)
    ensures a + (b + c) == (a + b) + c
  {
  }

  /** The longest time SaveQueue accepts has nine hexadecimal digits. */
  const MAX_TIME := 9999999999

  function FrameBytes(lib: Library, code: nat, time: nat, values: seq<bytes>): bytes {
    lib.DecToBin(code, 1) + lib.DecToBin(time, 4) + Fields(values)
  }

  function Sources(r: Request, lib: Library, fields: seq<Field>): (values: seq<bytes>)
    requires r.signature.Some?
    ensures |values| == |fields|
  {
    seq(|fields|, i requires 0 <= i < |fields| => Source(r, lib, fields[i]))
  }

  /** The sender, then whatever the type's parser expects. */
  function Values(r: Request, lib: Library): seq<bytes>
    requires r.signature.Some?
  {
    [DecimalText(Sender(r).0), DecimalText(Sender(r).1)] + Sources(r, lib, Schema(r.t))
  }

  function TimeOf(r: Request): int64 {
    ParseInt(r.form(Time))
  }

  /** Types that are refused without a state. */
  predicate NeedsState(t: TxType) {
    t.NewColumn? || t.AppendPage? || t.AppendMenu? || t.EditPage? || t.NewPage? || t.EditTable?
    || t.EditStateParameters? || t.NewStateParameters? || t.NewContract? || t.EditContract? || t.NewMenu?
    || t.EditMenu? || t.NewTable?
  }

  predicate Accepted(r: Request) {
    && (0 < r.citizen || r.wallet != 0)
    && 0 <= TimeOf(r) <= MAX_TIME
    && (r.t.Unserialized? ==> TypeNameOk(r.t.name))
    && r.signature.Some? && r.signature.value != []
    && (NeedsState(r.t) ==> FormState(r) != 0)
    && (r.t.NewAccount? ==>
          ParseInt(r.form(AccountId)) != 0 && FormState(r) != 0 && SenderOf(r) != 0
          && HexDecode(r.form(Pubkey)).Some? && r.form(Prvkey) != [])
    && (r.t.ChangeNodeKeyDLT? || r.t.ChangeNodeKey? ==> r.keysOk)
  }

  function Frame(r: Request, lib: Library): bytes
    requires Accepted(r)
  {
    if r.t.Unserialized? then [] else FrameBytes(lib, Code(r.t), TimeOf(r), Values(r, lib))
  }

  // ----- SaveQueue

  /** One branch of the type switch: the values it appends between the sender and the signature. */
  method Branch(r: Request, lib: Library, publicKey: bytes) returns (fields: seq<bytes>)
    requires r.signature.Some? && !r.t.Unserialized? && publicKey == PublicKeyOf(r, lib)
    ensures fields + [LengthPlusData(r.signature.value)] == Sources(r, lib, Schema(r.t))
  {
    var f := r.form;
    match r.t {
      case DLTTransfer =>
        var comment := if f(Comment) == [] then NULL_TEXT else f(Comment);
        fields := [f(WalletAddress), f(Amount), f(Commission), comment, publicKey];
      case DLTChangeHostVote => fields := [f(Host), f(AddressVote), f(FuelRate), publicKey];
      case NewState => fields := [f(StateName), f(CurrencyName), publicKey];
      case ActivateContract => fields := [f(Global), f(Id)];
      case EditWallet => fields := [f(Id), f(SpendingContract), f(ConditionsChange)];
      case NewTable => fields := [f(Global), f(TableName), f(Columns)];
      case ChangeNodeKeyDLT => fields := [lib.Hex(f(PublicKey))];
      case EditLang => fields := [f(Name), f(Trans)];
      case NewLang => fields := [f(Name), f(Trans)];
      case NewAccount => fields := [lib.Hex(f(Pubkey))];
      case ChangeNodeKey => fields := [lib.Hex(f(PublicKey))];
      case _ => fields := PageBranch(r, lib);
    }
  }

  predicate IsPageType(t: TxType) {
    (NeedsState(t) && !t.NewTable?) || t.EditColumn? || t.EditSign? || t.NewSign?
  }

  /** The branches of pages, menus, columns, tables, parameters, contracts and signatures. */
  method PageBranch(r: Request, lib: Library) returns (fields: seq<bytes>)
    requires r.signature.Some? && IsPageType(r.t)
    ensures fields + [LengthPlusData(r.signature.value)] == Sources(r, lib, Schema(r.t))
  {
    var f := r.form;
    match r.t {
      case NewColumn => fields := [f(TableName), f(ColumnName), f(Permissions), f(Index), f(ColumnKind)];
      case EditColumn => fields := [f(TableName), f(ColumnName), f(Permissions)];
      case AppendPage => fields := [f(Global), f(Name), f(Value)];
      case AppendMenu => fields := [f(Global), f(Name), f(Value)];
      case EditPage => fields := [f(Global), f(Name), f(Value), f(Menu), f(Conditions)];
      case NewPage => fields := [f(Global), f(Name), f(Value), f(Menu), f(Conditions)];
      case EditTable => fields := [f(TableName), f(GeneralUpdate), f(InsertRight), f(NewColumnRight)];
      case EditStateParameters => fields := [f(Name), f(Value), f(Conditions)];
      case NewStateParameters => fields := [f(Name), f(Value), f(Conditions)];
      case NewContract => fields := [f(Global), f(Name), f(Value), f(Conditions)];
      case EditContract => fields := [f(Global), f(Id), f(Value), f(Conditions)];
      case NewMenu => fields := [f(Global), f(Name), f(Value), f(Conditions)];
      case EditMenu => fields := [f(Global), f(Name), f(Value), f(Conditions)];
      case EditSign => fields := [f(Global), f(Name), f(Value), f(Conditions)];
      case NewSign => fields := [f(Global), f(Name), f(Value), f(Conditions)];
    }
  }

  /** The user and state id of the frame, or a refusal by the type's own checks. */
  method Header(r: Request) returns (ok: bool, userID: int64, stateID: int64)
    requires 0 < r.citizen || r.wallet != 0
    requires r.t.Unserialized? ==> TypeNameOk(r.t.name)
    requires 0 <= TimeOf(r) <= MAX_TIME && r.signature.Some? && r.signature.value != []
    ensures ok == Accepted(r) && (ok ==> (userID, stateID) == Sender(r))
  {
    stateID := ParseInt(r.form(StateId));
    userID := r.wallet;
    if stateID > 0 { userID := r.citizen; }
    ok := !(NeedsState(r.t) && stateID == 0);
    match r.t {
      case DLTTransfer => stateID := 0;
      case DLTChangeHostVote => stateID := 0;
      case NewState => stateID := 0;
      case ChangeNodeKeyDLT =>
        stateID := 0;
        ok := r.keysOk;
      case EditWallet =>
        userID := r.wallet;
        if userID == 0 { userID := r.citizen; }
      case NewAccount =>
        var accountID := ParseInt(r.form(AccountId));
        ok := !(accountID == 0 || stateID == 0 || userID == 0 || HexDecode(r.form(Pubkey)).None?)
              && r.form(Prvkey) != [];
        userID := accountID;
      case ChangeNodeKey =>
        ok := r.keysOk;
        userID, stateID := r.wallet, r.citizen;
      case _ =>
    }
  }

  method AppendFields(data: bytes, fields: seq<bytes>) returns (out: bytes)
    ensures out == data + Fields(fields)
  {
    out := data;
    var i := 0;
    while i < |fields|
      invariant 0 <= i <= |fields| && out == data + Fields(fields[..i])
    {
      FieldsSnoc(fields[..i], fields[i]);
      assert fields[..i + 1] == fields[..i] + [fields[i]];
      Associative(data, Fields(fields[..i]), LengthPlusData(fields[i]));
      out := out + LengthPlusData(fields[i]);
      i := i + 1;
    }
    assert fields[..i] == fields;
  }

  method PublicKeyParameter(r: Request, lib: Library) returns (publicKey: bytes)
    ensures publicKey == PublicKeyOf(r, lib)
  {
    publicKey := lib.Hex(r.form(Pubkey));
    var lenpub := |publicKey|;
    if lenpub > 64 {
      publicKey := publicKey[lenpub - 64..];
    } else if lenpub == 0 {
      publicKey := NULL_TEXT;
    }
  }

  /** utils.CheckInputData(itxType, "type") */
  method CheckType(t: TxType) returns (ok: bool)
    ensures ok <==> (t.Unserialized? ==> TypeNameOk(t.name))
  {
    if !t.Unserialized? { return true; }
    var name := t.name;
    if name == [] { return false; }
    for i := 0 to |name|
      invariant forall k :: 0 <= k < i ==> IsWord(name[k])
    {
      if !IsWord(name[i]) { return false; }
    }
    ok := ParseInt(name) <= 30;
  }

  /**
   Exactly the accepted requests are queued: as a type byte, four bytes of time, and the length-prefixed
   sender and fields, in the order the parser of that type declares them.
   */
  method SaveQueue(r: Request, lib: Library) returns (reply: Reply)
    ensures reply == if !Accepted(r) then Refused
                     else Queued(lib.md5(Frame(r, lib)), TypeInt(r.t), r.wallet, r.citizen, Frame(r, lib))
  {
    if r.citizen <= 0 && r.wallet == 0 { return Refused; }
    var txTime := ParseInt(r.form(Time));
    if txTime < 0 || txTime > MAX_TIME { return Refused; }
    var typeOk := CheckType(r.t);
    if !typeOk { return Refused; }
    var publicKey := PublicKeyParameter(r, lib);
    if r.signature.None? || r.signature.value == [] { return Refused; }
    var sign := LengthPlusData(r.signature.value);
    var ok, userID, stateID := Header(r);
    if !ok { return Refused; }
    var data: bytes := [];
    if !r.t.Unserialized? {
      var fields := Branch(r, lib, publicKey);
      var values := [DecimalText(userID), DecimalText(stateID)] + (fields + [sign]);
      data := AppendFields(lib.DecToBin(Code(r.t), 1) + lib.DecToBin(txTime, 4), values);
    }
    return Queued(lib.md5(data), TypeInt(r.t), r.wallet, r.citizen, data);
  }
}
