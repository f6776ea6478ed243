/**
 The names behind the model's constructors: transaction types by number, form parameters, and the names and
 types each parser declares, in order.
 */
module TxTable {
  import opened Text
  import opened Frames
  import opened SystemParser

  /** The entries of TxTypes; the empty name for every other number. */
  function TypeName(number: nat): string {
    if number == 1 then "FirstBlock"
    else if number == 2 then "Reserved1"
    else if number == 3 then "Reserved2"
    else if number == 4 then "Reserved3"
    else if number == 5 then "DLTTransfer"
    else if number == 6 then "DLTChangeHostVote"
    else if number == 7 then "UpdFullNodes"
    else if number == 8 then "ChangeNodeKey"
    else if number == 9 then "NewState"
    else if number == 10 then "NewColumn"
    else if number == 11 then "NewTable"
    else if number == 12 then "EditPage"
    else if number == 13 then "EditMenu"
    else if number == 14 then "EditContract"
    else if number == 15 then "NewContract"
    else if number == 16 then "EditColumn"
    else if number == 17 then "EditTable"
    else if number == 18 then "EditStateParameters"
    else if number == 19 then "NewStateParameters"
    else if number == 20 then "NewPage"
    else if number == 21 then "NewMenu"
    else if number == 22 then "ChangeNodeKeyDLT"
    else if number == 23 then "AppendPage"
    else if number == 24 then "RestoreAccessActive"
    else if number == 25 then "RestoreAccessClose"
    else if number == 26 then "RestoreAccessRequest"
    else if number == 27 then "RestoreAccess"
    else if number == 28 then "NewLang"
    else if number == 29 then "EditLang"
    else if number == 30 then "AppendMenu"
    else if number == 31 then "NewSign"
    else if number == 32 then "EditSign"
    else if number == 33 then "EditWallet"
    else if number == 34 then "ActivateContract"
    else if number == 35 then "NewAccount"
    else ""
  }

  function NameOf(t: TxType): string {
    match t
    case DLTTransfer => "DLTTransfer"
    case DLTChangeHostVote => "DLTChangeHostVote"
    case ChangeNodeKey => "ChangeNodeKey"
    case NewState => "NewState"
    case NewColumn => "NewColumn"
    case NewTable => "NewTable"
    case EditPage => "EditPage"
    case EditMenu => "EditMenu"
    case EditContract => "EditContract"
    case NewContract => "NewContract"
    case EditColumn => "EditColumn"
    case EditTable => "EditTable"
    case EditStateParameters => "EditStateParameters"
    case NewStateParameters => "NewStateParameters"
    case NewPage => "NewPage"
    case NewMenu => "NewMenu"
    case ChangeNodeKeyDLT => "ChangeNodeKeyDLT"
    case AppendPage => "AppendPage"
    case NewLang => "NewLang"
    case EditLang => "EditLang"
    case AppendMenu => "AppendMenu"
    case NewSign => "NewSign"
    case EditSign => "EditSign"
    case EditWallet => "EditWallet"
    case ActivateContract => "ActivateContract"
    case NewAccount => "NewAccount"
    case Unserialized(_) => ""
  }

  /** Every serialized type has its number in TxTypes. */
  lemma TypesHaveTheirNumbers(t: TxType)
    requires !t.Unserialized?
    ensures TypeName(Code(t)) == NameOf(t) != "" && TypeInt(t) == Code(t)
  {
    if IsPageType(t) {
      PageTypesHaveNumbers(t);
    } else {
      OtherTypesHaveNumbers(t);
    }
  }

  lemma PageTypesHaveNumbers(t: TxType)
    requires IsPageType(t)
    ensures TypeName(Code(t)) == NameOf(t) != ""
  {
  }

  lemma OtherTypesHaveNumbers(t: TxType)
    requires !IsPageType(t) && !t.Unserialized?
    ensures TypeName(Code(t)) == NameOf(t) != ""
  {
  }

  predicate IsAscii(s: string) {
    forall i :: 0 <= i < |s| ==> s[i] as int < 256
  }

  /** The names without a branch have theirs too. */
  lemma OtherNamesHaveTheirNumbers()
    ensures forall n :: n in {1, 2, 3, 4, 7, 24, 25, 26, 27} ==>
      IsAscii(TypeName(n)) && TypeInt(Unserialized(Ascii(TypeName(n)))) == n
  {
    forall n | n in {1, 2, 3, 4, 7, 24, 25, 26, 27}
      ensures IsAscii(TypeName(n)) && TypeInt(Unserialized(Ascii(TypeName(n)))) == n
    {
      OtherNameHasItsNumber(n);
    }
  }

  lemma OtherNameHasItsNumber(n: nat)
    requires n in {1, 2, 3, 4, 7, 24, 25, 26, 27}
    ensures IsAscii(TypeName(n)) && OtherCode(Ascii(TypeName(n))) == n
  {
    if n in {2, 3, 4} {
      ReservedNames(n);
    } else if n in {1, 7} {
      ShortNames(n);
    } else {
      RestoreNames(n);
    }
  }

  lemma ReservedNames(n: nat)
    requires n in {2, 3, 4}
    ensures IsAscii(TypeName(n)) && OtherCode(Ascii(TypeName(n))) == n
  {
    assert Ascii("Reserved1")[8] == 49 && Ascii("Reserved2")[8] == 50 && Ascii("Reserved3")[8] == 51;
  }

  lemma ShortNames(n: nat)
    requires n in {1, 7}
    ensures IsAscii(TypeName(n)) && OtherCode(Ascii(TypeName(n))) == n
  {
  }

  lemma RestoreNames(n: nat)
    requires n in {24, 25, 26, 27}
    ensures IsAscii(TypeName(n)) && OtherCode(Ascii(TypeName(n))) == n
  {
    if n in {24, 25} {
      EarlyRestoreNames(n);
    } else {
      LateRestoreNames(n);
    }
  }

  lemma EarlyRestoreNames(n: nat)
    requires n in {24, 25}
    ensures IsAscii(TypeName(n)) && OtherCode(Ascii(TypeName(n))) == n
  {
  }

  lemma LateRestoreNames(n: nat)
    requires n in {26, 27}
    ensures IsAscii(TypeName(n)) && OtherCode(Ascii(TypeName(n))) == n
  {
    if n == 26 {
      RequestName();
    } else {
      AccessName();
    }
  }

  lemma RequestName()
    ensures OtherCode(Ascii("RestoreAccessRequest")) == 26
  {
    assert |Ascii("RestoreAccessRequest")| == 20 && |Ascii("RestoreAccessActive")| == 19;
    assert |Ascii("RestoreAccessClose")| == 18 && |Ascii("UpdFullNodes")| == 12;
  }

  lemma AccessName()
    ensures OtherCode(Ascii("RestoreAccess")) == 27
  {
    assert |Ascii("RestoreAccess")| == 13 && |Ascii("RestoreAccessRequest")| == 20;
    assert |Ascii("RestoreAccessActive")| == 19 && |Ascii("RestoreAccessClose")| == 18;
  }

  function KeyName(key: Key): string {
    match key
    case WalletAddress => "walletAddress"
    case Amount => "amount"
    case Commission => "commission"
    case Comment => "comment"
    case Host => "host"
    case AddressVote => "addressVote"
    case FuelRate => "fuelRate"
    case StateName => "state_name"
    case CurrencyName => "currency_name"
    case TableName => "table_name"
    case ColumnName => "column_name"
    case Permissions => "permissions"
    case Index => "index"
    case ColumnKind => "column_type"
    case Global => "global"
    case Name => "name"
    case Value => "value"
    case Menu => "menu"
    case Conditions => "conditions"
    case GeneralUpdate => "general_update"
    case InsertRight => "insert"
    case NewColumnRight => "new_column"
    case Id => "id"
    case SpendingContract => "spending_contract"
    case ConditionsChange => "conditions_change"
    case Columns => "columns"
    case PublicKey => "publicKey"
    case Trans => "trans"
    case Pubkey => "pubkey"
    case Prvkey => "prvkey"
    case AccountId => "accountId"
    case StateId => "stateId"
    case Time => "time"
  }

  function FieldName(f: Field): string {
    match f
    case Form(key) => KeyName(key)
    case Res => "res"
    case Pub => "pub"
    case PublicKeyField => "public_key"
    case NewNodePublicKey => "new_node_public_key"
    case Sign => "sign"
  }

  /** The names and types that each type's Init hands to GetTxMaps. */
  function Init(t: TxType): seq<(string, string)> {
    match t
    case DLTTransfer =>
      [("walletAddress", "string"), ("amount", "decimal"), ("commission", "decimal"), ("comment", "bytes"),
       ("public_key", "bytes"), ("sign", "bytes")]
    case DLTChangeHostVote =>
      [("host", "string"), ("addressVote", "string"), ("fuelRate", "int64"), ("public_key", "bytes"),
       ("sign", "bytes")]
    case ChangeNodeKey => [("new_node_public_key", "bytes"), ("sign", "bytes")]
    case NewState =>
      [("state_name", "string"), ("currency_name", "string"), ("public_key", "bytes"), ("sign", "bytes")]
    case NewColumn =>
      [("table_name", "string"), ("column_name", "string"), ("permissions", "string"), ("index", "int64"),
       ("column_type", "string"), ("sign", "bytes")]
    case NewTable => [("global", "int64"), ("table_name", "string"), ("columns", "string"), ("sign", "bytes")]
    case EditPage =>
      [("global", "int64"), ("name", "string"), ("value", "string"), ("menu", "string"),
       ("conditions", "string"), ("sign", "bytes")]
    case EditMenu =>
      [("global", "int64"), ("name", "string"), ("value", "string"), ("conditions", "string"),
       ("sign", "bytes")]
    case EditContract =>
      [("global", "int64"), ("id", "string"), ("value", "string"), ("conditions", "string"), ("sign", "bytes")]
    case NewContract =>
      [("global", "int64"), ("name", "string"), ("value", "string"), ("conditions", "string"),
       ("sign", "bytes")]
    case EditColumn =>
      [("table_name", "string"), ("column_name", "string"), ("permissions", "string"), ("sign", "bytes")]
    case EditTable =>
      [("table_name", "string"), ("general_update", "string"), ("insert", "string"), ("new_column", "string"),
       ("sign", "bytes")]
    case EditStateParameters => [("name", "string"), ("value", "string"), ("conditions", "string"), ("sign", "bytes")]
    case NewStateParameters => [("name", "string"), ("value", "string"), ("conditions", "string"), ("sign", "bytes")]
    case NewPage =>
      [("global", "string"), ("name", "string"), ("value", "string"), ("menu", "string"),
       ("conditions", "string"), ("sign", "bytes")]
    case NewMenu =>
      [("global", "string"), ("name", "string"), ("value", "string"), ("conditions", "string"),
       ("sign", "bytes")]
    case ChangeNodeKeyDLT => [("new_node_public_key", "bytes"), ("sign", "bytes")]
    case AppendPage => [("global", "int64"), ("name", "string"), ("value", "string"), ("sign", "bytes")]
    case NewLang => [("name", "string"), ("res", "string"), ("sign", "bytes")]
    case EditLang => [("name", "string"), ("res", "string"), ("sign", "bytes")]
    case AppendMenu => [("global", "int64"), ("name", "string"), ("value", "string"), ("sign", "bytes")]
    case NewSign =>
      [("global", "int64"), ("name", "string"), ("value", "string"), ("conditions", "string"),
       ("sign", "bytes")]
    case EditSign =>
      [("global", "int64"), ("name", "string"), ("value", "string"), ("conditions", "string"),
       ("sign", "bytes")]
    case EditWallet =>
      [("id", "int64"), ("spending_contract", "string"), ("conditions_change", "string"), ("sign", "bytes")]
    case ActivateContract => [("global", "int64"), ("id", "string"), ("sign", "bytes")]
    case NewAccount => [("pub", "bytes"), ("sign", "bytes")]
    case Unserialized(_) => []
  }

  /** Whole numbers and amounts are declared so; strings and bytes are kept as they come. */
  predicate IsKind(kind: FieldKind, declared: string) {
    match kind
    case Whole => declared == "int64"
    case Exact => declared == "decimal"
    case Plain => declared == "string" || declared == "bytes"
  }

  predicate IsDeclared(d: Declared, init: (string, string)) {
    FieldName(d.field) == init.0 && IsKind(d.kind, init.1)
  }

  ghost predicate MatchesAt(t: TxType, i: nat) {
    |Declaration(t)| == |Init(t)| && (i < |Declaration(t)| ==> IsDeclared(Declaration(t)[i], Init(t)[i]))
  }

  lemma DeclarationsUpTo8(t: TxType, i: nat)
    requires Code(t) <= 8
    ensures MatchesAt(t, i)
  {
  }

  lemma DeclarationsUpTo11(t: TxType, i: nat)
    requires 8 < Code(t) <= 11
    ensures MatchesAt(t, i)
  {
    if Code(t) == 10 {
      DeclarationsOf10(t, i);
    }
  }

  lemma DeclarationsOf10(t: TxType, i: nat)
    requires Code(t) == 10
    ensures MatchesAt(t, i)
  {
  }

  lemma DeclarationsUpTo13(t: TxType, i: nat)
    requires 11 < Code(t) <= 13
    ensures MatchesAt(t, i)
  {
  }

  lemma DeclarationsUpTo15(t: TxType, i: nat)
    requires 13 < Code(t) <= 15
    ensures MatchesAt(t, i)
  {
  }

  lemma DeclarationsUpTo17(t: TxType, i: nat)
    requires 15 < Code(t) <= 17
    ensures MatchesAt(t, i)
  {
  }

  lemma DeclarationsUpTo19(t: TxType, i: nat)
    requires 17 < Code(t) <= 19
    ensures MatchesAt(t, i)
  {
  }

  lemma DeclarationsUpTo21(t: TxType, i: nat)
    requires 19 < Code(t) <= 21
    ensures MatchesAt(t, i)
  {
  }

  lemma DeclarationsUpTo23(t: TxType, i: nat)
    requires 21 < Code(t) <= 23
    ensures MatchesAt(t, i)
  {
  }

  lemma DeclarationsUpTo29(t: TxType, i: nat)
    requires 23 < Code(t) <= 29
    ensures MatchesAt(t, i)
  {
  }

  lemma DeclarationsUpTo31(t: TxType, i: nat)
    requires 29 < Code(t) <= 31
    ensures MatchesAt(t, i)
  {
  }

  lemma DeclarationsUpTo33(t: TxType, i: nat)
    requires 31 < Code(t) <= 33
    ensures MatchesAt(t, i)
  {
  }

  lemma DeclarationsUpTo35(t: TxType, i: nat)
    requires 33 < Code(t) <= 35
    ensures MatchesAt(t, i)
  {
  }

  /** The model's declarations are those of the parsers: same names, same types, same order. */
  lemma DeclarationsAreInits(t: TxType, i: nat)
    ensures MatchesAt(t, i)
  {
    if Code(t) <= 8 {
      DeclarationsUpTo8(t, i);
    } else if Code(t) <= 11 {
      DeclarationsUpTo11(t, i);
    } else if Code(t) <= 13 {
      DeclarationsUpTo13(t, i);
    } else if Code(t) <= 15 {
      DeclarationsUpTo15(t, i);
    } else if Code(t) <= 17 {
      DeclarationsUpTo17(t, i);
    } else if Code(t) <= 19 {
      DeclarationsUpTo19(t, i);
    } else if Code(t) <= 21 {
      DeclarationsUpTo21(t, i);
    } else if Code(t) <= 23 {
      DeclarationsUpTo23(t, i);
    } else if Code(t) <= 29 {
      DeclarationsUpTo29(t, i);
    } else if Code(t) <= 31 {
      DeclarationsUpTo31(t, i);
    } else if Code(t) <= 33 {
      DeclarationsUpTo33(t, i);
    } else {
      DeclarationsUpTo35(t, i);
    }
  }
}
