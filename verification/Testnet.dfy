/** The testnet path of AjaxNewState: a second producer of transfer and new-state frames. */
module Testnet {
  import opened Options
  import opened Bytes
  import opened Text
  import opened WireCode
  import opened Frames
  import opened SystemParser

  /**
   The retry loop: fresh keys are drawn until the wallet is not in the table. The lookup answers with
   the wallet id itself, so wallet 0 always counts as free. `free` bounds the draws needed.
   */
  method FreshWallet(wallets: nat -> int64, taken: set<int64>, ghost free: nat) returns (n: nat)
    requires wallets(free) == 0 || wallets(free) !in taken
    ensures n <= free && (wallets(n) == 0 || wallets(n) !in taken)
    ensures forall k :: 0 <= k < n ==> wallets(k) in taken
  {
    n := 0;
    var exist := 1;
    while exist != 0
      invariant n <= free + 1 && (exist != 0 ==> n <= free)
      invariant exist != 0 ==> forall k :: 0 <= k < n ==> wallets(k) in taken
      invariant exist == 0 ==> 0 < n && (wallets(n - 1) == 0 || wallets(n - 1) !in taken)
      invariant exist == 0 ==> forall k :: 0 <= k < n - 1 ==> wallets(k) in taken
      decreases free + 1 - n
    {
      var wallet := wallets(n);
      exist := if wallet in taken then wallet else 0;
      n := n + 1;
    }
    n := n - 1;
  }

  const AMOUNT: bytes := Ascii("2e+21")
  const COMMISSION: bytes := Ascii("1000000000000000")
  const COMMENT: bytes := Ascii("testnet")

  /** EncodeLengthPlusData of the untyped constant 0: an int is none of its cases, so no data at all. */
  const ZERO_STATE: bytes := []

  function TransferValues(wallet: bytes, signature: bytes): seq<bytes> {
    [wallet, AMOUNT, COMMISSION, COMMENT, [], LengthPlusData(signature)]
  }

  function NewStateValues(country: bytes, currency: bytes, pub: bytes, signature: bytes): seq<bytes> {
    [country, currency, HexEncode(pub), LengthPlusData(signature)]
  }

  method TransferFrame(lib: Library, txTime: nat, adminWallet: int64, walletUser: bytes, signature: bytes)
    returns (data: bytes)
    ensures data == FrameBytes(lib, Code(DLTTransfer), txTime,
                               [DecimalText(adminWallet), ZERO_STATE] + TransferValues(walletUser, signature))
  {
    var sign := LengthPlusData(signature);
    var head := lib.DecToBin(Code(DLTTransfer), 1) + lib.DecToBin(txTime, 4);
    data := head;
    data := Put(data, head, [], DecimalText(adminWallet));
    ghost var done := [DecimalText(adminWallet)];
    data := Put(data, head, done, ZERO_STATE);
    done := done + [ZERO_STATE];
    data := Put(data, head, done, walletUser);
    done := done + [walletUser];
    data := Put(data, head, done, AMOUNT);
    done := done + [AMOUNT];
    data := Put(data, head, done, COMMISSION);
    done := done + [COMMISSION];
    data := Put(data, head, done, COMMENT);
    done := done + [COMMENT];
    data := Put(data, head, done, []);
    done := done + [[]];
    data := Put(data, head, done, sign);
    assert done + [sign] == [DecimalText(adminWallet), ZERO_STATE] + TransferValues(walletUser, signature);
  }

  method NewStateFrame(lib: Library, txTime: nat, wallet: int64, country: bytes, currency: bytes, pub: bytes,
                       signature: bytes) returns (data: bytes)
    ensures data == FrameBytes(lib, Code(NewState), txTime,
                               [DecimalText(wallet), ZERO_STATE] + NewStateValues(country, currency, pub, signature))
  {
    var sign := LengthPlusData(signature);
    var head := lib.DecToBin(Code(NewState), 1) + lib.DecToBin(txTime, 4);
    data := head;
    data := Put(data, head, [], DecimalText(wallet));
    ghost var done := [DecimalText(wallet)];
    data := Put(data, head, done, ZERO_STATE);
    done := done + [ZERO_STATE];
    data := Put(data, head, done, country);
    done := done + [country];
    data := Put(data, head, done, currency);
    done := done + [currency];
    data := Put(data, head, done, HexEncode(pub));
    done := done + [HexEncode(pub)];
    data := Put(data, head, done, sign);
    assert done + [sign] == [DecimalText(wallet), ZERO_STATE] + NewStateValues(country, currency, pub, signature);
  }

  /** One append of a length-prefixed value behind those already `done`. */
  method Put(data: bytes, ghost head: bytes, ghost done: seq<bytes>, value: bytes) returns (out: bytes)
    requires data == head + Fields(done)
    ensures out == head + Fields(done + [value])
  {
    FieldsSnoc(done, value);
    Associative(head, Fields(done), LengthPlusData(value));
    out := data + LengthPlusData(value);
  }

  lemma ReadsZeroState(user: int64)
    ensures ParseInt(DecimalText(user)) == user && ParseInt(ZERO_STATE) == 0
  {
    ParseIntOfFormat(user);
  }

  lemma TransferIsInOrder(walletUser: bytes, signature: bytes, isDecimal: bytes -> bool)
    requires isDecimal(AMOUNT) && isDecimal(COMMISSION)
    requires |walletUser| < MAX_TX_SIZE && |LengthPlusData(signature)| < MAX_TX_SIZE
    ensures var values := TransferValues(walletUser, signature);
      && |values| == |Schema(DLTTransfer)| == 6 && values[5] != []
      && AllShort(values) && AmountsOk(Declaration(DLTTransfer), values, isDecimal)
  {
  }

  /**
   The transfer built here is read under the same declaration as the one SaveQueue builds, field for
   field; its empty state id is read as 0, so it is a wallet's transaction.
   */
  lemma TransferIsReadAlike(lib: Library, txTime: nat, adminWallet: int64, walletUser: bytes, signature: bytes,
                            isDecimal: bytes -> bool)
    requires txTime < 0x1_0000_0000 && isDecimal(AMOUNT) && isDecimal(COMMISSION)
    requires |walletUser| < MAX_TX_SIZE && |LengthPlusData(signature)| < MAX_TX_SIZE
    ensures var values := TransferValues(walletUser, signature);
      var p := Parse(FrameBytes(lib, Code(DLTTransfer), txTime, [DecimalText(adminWallet), ZERO_STATE] + values));
      p.Some? && MapOf(p.value, Declaration(DLTTransfer), isDecimal) ==
        Mapped(TxMaps(5, txTime, adminWallet, 0, 0, adminWallet, Zip(Declaration(DLTTransfer), values)))
  {
    ReadsZeroState(adminWallet);
    TransferIsInOrder(walletUser, signature, isDecimal);
    FrameMaps(lib, Code(DLTTransfer), txTime, DecimalText(adminWallet), ZERO_STATE, Declaration(DLTTransfer),
              TransferValues(walletUser, signature), isDecimal);
  }

  /** The maps hold these texts under these names, in this order. */
  ghost predicate Says(maps: TxMaps, fields: seq<Field>, texts: seq<bytes>) {
    && |maps.fields| == |fields| == |texts|
    && forall i :: 0 <= i < |fields| ==> maps.fields[i].field == fields[i] && maps.fields[i].text == texts[i]
  }

  lemma MapsSay(maps: TxMaps, t: TxType, texts: seq<bytes>)
    requires |texts| == |Schema(t)| && maps.fields == Zip(Declaration(t), texts)
    ensures Says(maps, Schema(t), texts)
  {
  }

  /** The transfer arrives as the administrator's wallet's, of the time it was sent at. */
  lemma TransferArrives(lib: Library, txTime: nat, adminWallet: int64, walletUser: bytes, signature: bytes,
                        isDecimal: bytes -> bool) returns (maps: TxMaps)
    requires txTime < 0x1_0000_0000 && isDecimal(AMOUNT) && isDecimal(COMMISSION)
    requires |walletUser| < MAX_TX_SIZE && |LengthPlusData(signature)| < MAX_TX_SIZE
    ensures var values := [DecimalText(adminWallet), []] + TransferValues(walletUser, signature);
      var slices := Parse(FrameBytes(lib, 5, txTime, values));
      slices.Some? && MapOf(slices.value, Declaration(DLTTransfer), isDecimal) == Mapped(maps)
    ensures maps.walletId == adminWallet && maps.citizenId == 0 && maps.time == txTime
    ensures maps.fields == Zip(Declaration(DLTTransfer), TransferValues(walletUser, signature))
  {
    TransferIsReadAlike(lib, txTime, adminWallet, walletUser, signature, isDecimal);
    maps := TxMaps(5, txTime, adminWallet, 0, 0, adminWallet,
                   Zip(Declaration(DLTTransfer), TransferValues(walletUser, signature)));
  }

  /** What it then says: 2e+21 units to the new wallet, at a fixed commission, marked as testnet's. */
  lemma TransferSays(maps: TxMaps, walletUser: bytes, signature: bytes)
    requires maps.fields == Zip(Declaration(DLTTransfer), TransferValues(walletUser, signature))
    ensures Says(maps, [Form(WalletAddress), Form(Amount), Form(Commission), Form(Comment), PublicKeyField, Sign],
                 [walletUser, Ascii("2e+21"), Ascii("1000000000000000"), Ascii("testnet"), [],
                  LengthPlusData(signature)])
  {
    MapsSay(maps, DLTTransfer, TransferValues(walletUser, signature));
  }

  lemma NewStateIsInOrder(country: bytes, currency: bytes, pub: bytes, signature: bytes, isDecimal: bytes -> bool)
    requires |country| < MAX_TX_SIZE && |currency| < MAX_TX_SIZE && 2 * |pub| < MAX_TX_SIZE
    requires |LengthPlusData(signature)| < MAX_TX_SIZE
    ensures var values := NewStateValues(country, currency, pub, signature);
      && |values| == |Schema(NewState)| == 4 && values[3] != []
      && AllShort(values) && AmountsOk(Declaration(NewState), values, isDecimal)
  {
  }

  /** Likewise the new state. */
  lemma NewStateIsReadAlike(lib: Library, txTime: nat, wallet: int64, country: bytes, currency: bytes, pub: bytes,
                            signature: bytes, isDecimal: bytes -> bool)
    requires txTime < 0x1_0000_0000
    requires |country| < MAX_TX_SIZE && |currency| < MAX_TX_SIZE && 2 * |pub| < MAX_TX_SIZE
    requires |LengthPlusData(signature)| < MAX_TX_SIZE
    ensures var values := NewStateValues(country, currency, pub, signature);
      var p := Parse(FrameBytes(lib, Code(NewState), txTime, [DecimalText(wallet), ZERO_STATE] + values));
      p.Some? && MapOf(p.value, Declaration(NewState), isDecimal) ==
        Mapped(TxMaps(9, txTime, wallet, 0, 0, wallet, Zip(Declaration(NewState), values)))
  {
    ReadsZeroState(wallet);
    NewStateIsInOrder(country, currency, pub, signature, isDecimal);
    FrameMaps(lib, Code(NewState), txTime, DecimalText(wallet), ZERO_STATE, Declaration(NewState),
              NewStateValues(country, currency, pub, signature), isDecimal);
  }

  /** The new state's public key arrives as hexadecimal text, where SaveQueue sends the key's bytes. */
  lemma PublicKeyArrivesAsHex(country: bytes, currency: bytes, pub: bytes, signature: bytes)
    ensures HexDecode(NewStateValues(country, currency, pub, signature)[2]) == Some(pub)
    ensures pub != [] ==> NewStateValues(country, currency, pub, signature)[2] != pub
  {
    HexDecodeOfEncode(pub);
  }

  /** The new state's names and key, from the wallet. */
  lemma NewStateSays(lib: Library, txTime: nat, wallet: int64, country: bytes, currency: bytes, pub: bytes,
                     signature: bytes, isDecimal: bytes -> bool) returns (maps: TxMaps)
    requires txTime < 0x1_0000_0000
    requires |country| < MAX_TX_SIZE && |currency| < MAX_TX_SIZE && 2 * |pub| < MAX_TX_SIZE
    requires |LengthPlusData(signature)| < MAX_TX_SIZE
    ensures var values := [DecimalText(wallet), []] + NewStateValues(country, currency, pub, signature);
      var slices := Parse(FrameBytes(lib, 9, txTime, values));
      slices.Some? && MapOf(slices.value, Declaration(NewState), isDecimal) == Mapped(maps)
    ensures maps.walletId == wallet && maps.citizenId == 0 && maps.time == txTime
    ensures Says(maps, [Form(StateName), Form(CurrencyName), PublicKeyField, Sign],
                 [country, currency, HexEncode(pub), LengthPlusData(signature)])
  {
    var values := NewStateValues(country, currency, pub, signature);
    NewStateIsReadAlike(lib, txTime, wallet, country, currency, pub, signature, isDecimal);
    maps := TxMaps(9, txTime, wallet, 0, 0, wallet, Zip(Declaration(NewState), values));
    MapsSay(maps, NewState, values);
  }
}
