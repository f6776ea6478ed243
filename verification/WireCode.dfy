/** The variable-length integer codes every transaction and block is built from. */
module WireCode {
  import opened Bytes

  // ----- Leading and trailing zero bytes

  /** s without its leading zeros, but never empty. */
  function Trim(s: bytes): (t: bytes)
    requires s != []
    ensures 0 < |t| <= |s|
  {
    if s[0] == 0 && |s| > 1 then Trim(s[1..]) else s
  }

  lemma {:induction false} TrimDropsZeros(s: bytes)
    requires s != []
    ensures s == Zeros(|s| - |Trim(s)|) + Trim(s)
    ensures |Trim(s)| == 1 || Trim(s)[0] != 0
  {
    if s[0] == 0 && |s| > 1 {
      TrimDropsZeros(s[1..]);
      assert s == [0] + s[1..];
    }
  }

  /** s without its trailing zeros. */
  function TrimEnd(s: bytes): (t: bytes)
    ensures |t| <= |s|
  {
    if s != [] && s[|s| - 1] == 0 then TrimEnd(s[..|s| - 1]) else s
  }

  lemma {:induction false} TrimEndDropsZeros(s: bytes)
    ensures s == TrimEnd(s) + Zeros(|s| - |TrimEnd(s)|)
  {
    if s != [] && s[|s| - 1] == 0 {
      TrimEndDropsZeros(s[..|s| - 1]);
      assert s == s[..|s| - 1] + [0];
    }
  }

  // ----- EncodeLength, DecodeLength

  /** Below 128 one byte; otherwise 128 plus a byte count, then that many bytes without leading zeros. */
  function LengthCode(x: int64): (code: bytes)
    ensures 0 < |code| <= 9
  {
    if 0 <= x <= 127 then [x]
    else
      var s := BigEndian(Unsigned(x), 8);
      var t := Trim(s);
      assert |t| <= |s| == 8;
      [0x80 + |t|] + t
  }

  method EncodeLength(length: int64) returns (code: bytes)
    ensures code == LengthCode(length)
  {
    if length >= 0 && length <= 127 {
      return [length];
    }
    var buf: bytes := [0] + BigEndian(Unsigned(length), 8);
    assert buf[1..] == BigEndian(Unsigned(length), 8);
    var i := SkipZeros(buf);
    code := CodeFrom(buf, i);
  }

  /** The loop over the leading zeros: the last byte stays. */
  method SkipZeros(buf: bytes) returns (i: nat)
    requires |buf| == 9
    ensures 1 <= i <= 8 && Trim(buf[1..]) == buf[i..]
  {
    i := 1;
    while buf[i] == 0 && i < 8
      invariant 1 <= i <= 8 && Trim(buf[1..]) == Trim(buf[i..])
    {
      assert buf[i..][1..] == buf[i + 1..];
      i := i + 1;
    }
  }

  method CodeFrom(buf: bytes, i: nat) returns (code: bytes)
    requires |buf| == 9 && 1 <= i <= 8
    ensures code == [0x80 + |buf[i..]|] + buf[i..]
  {
    var out: bytes := buf[0 := 0x80 + (9 - i)];
    assert out[i..] == buf[i..];
    code := out[..1] + out[i..];
  }

  /** A decoded integer, what follows it, and whether the input was too short (then nothing is consumed). */
  datatype Decoded = Decoded(value: int64, rest: bytes, short: bool)

  /** On an empty input the result is zero without an error. A count above eight bytes reads as zero. */
  function DecodeLength(buf: bytes): (d: Decoded)
    ensures |d.rest| <= |buf|
    ensures d.value != 0 ==> !d.short && |d.rest| < |buf|
  {
    if buf == [] then Decoded(0, buf, false)
    else if buf[0] < 0x80 then Decoded(buf[0], buf[1..], false)
    else
      var n := buf[0] as int - 0x80;
      if |buf| < n + 1 then Decoded(0, buf, true)
      else
        var padded: bytes := Zeros((8 - n) % 256) + buf[1..n + 1];
        Decoded(Word(padded[..8]), buf[n + 1..], false)
  }

  /** int64(binary.BigEndian.Uint64(s)) */
  function Word(s: bytes): int64
    requires |s| == 8
  {
    FromBigEndianRoundTrip(s);
    Pow256Values();
    Signed(FromBigEndian(s))
  }

  lemma WordOfBigEndian(x: int64)
    ensures Word(BigEndian(Unsigned(x), 8)) == x
  {
    Pow256Values();
    BigEndianRoundTrip(Unsigned(x), 8);
  }

  /** Decoding an encoding followed by anything yields the value and that anything, for every int64. */
  lemma DecodeLengthOfCode(x: int64, rest: bytes)
    ensures DecodeLength(LengthCode(x) + rest) == Decoded(x, rest, false)
  {
    var buf := LengthCode(x) + rest;
    if 0 <= x <= 127 {
      assert buf[1..] == rest;
    } else {
      var s := BigEndian(Unsigned(x), 8);
      var t := Trim(s);
      assert buf[1..|t| + 1] == t && buf[|t| + 1..] == rest;
      TrimDropsZeros(s);
      assert (Zeros(8 - |t|) + t)[..8] == s;
      WordOfBigEndian(x);
    }
  }

  /** Cut inside an encoding, the decoder reports zero, whether or not it calls that an error. */
  lemma DecodeLengthOfCutCode(x: int64, k: nat)
    requires k < |LengthCode(x)|
    ensures DecodeLength(LengthCode(x)[..k]).value == 0
  {
  }

  /** The exact form of a code: one byte up to 127, otherwise a count and that many bytes, the first not zero. */
  lemma LengthCodeShape(x: int64)
    ensures 0 <= x <= 127 ==> LengthCode(x) == [x]
    ensures x < 0 || 127 < x ==>
      var code := LengthCode(x);
      && 2 <= |code| <= 9 && code[0] == 127 + |code| && code[1] != 0
      && FromBigEndian(code[1..]) == if x < 0 then x + 0x1_0000_0000_0000_0000 else x
  {
    if x < 0 || 127 < x {
      var s := BigEndian(Unsigned(x), 8);
      Pow256Values();
      BigEndianRoundTrip(Unsigned(x), 8);
      TrimmedValue(s);
      assert LengthCode(x)[1..] == Trim(s);
    }
  }

  /** Trimming keeps the value; a single zero byte is left of nothing else only. */
  lemma TrimmedValue(s: bytes)
    requires s != []
    ensures FromBigEndian(Trim(s)) == FromBigEndian(s)
    ensures FromBigEndian(s) != 0 ==> Trim(s)[0] != 0
  {
    var t := Trim(s);
    TrimDropsZeros(s);
    LeadingZeros(|s| - |t|, t);
    if |t| == 1 {
      assert t[..0] == [];
    }
  }

  /** A count of more than eight bytes reads as zero and is skipped with its bytes. */
  lemma LargeCountIsZero(buf: bytes)
    requires buf != [] && 136 < buf[0] && buf[0] as int - 127 <= |buf|
    ensures DecodeLength(buf) == Decoded(0, buf[buf[0] as int - 127..], false)
  {
    var n := buf[0] as int - 0x80;
    var zeros := (8 - n) % 256;
    assert (Zeros(zeros) + buf[1..n + 1])[..8] == Zeros(8);
    LeadingZeros(8, []);
    assert Zeros(8) + [] == Zeros(8);
  }

  // ----- EncodeLenByte, EncodeLengthPlusData, BinMarshal of strings and byte slices

  /** int64(len(data)); every byte string the program can hold is a slice. */
  function Len(data: bytes): (n: int64)
    ensures |data| < TWO63 ==> n == |data|
  {
    if |data| < TWO63 then |data| else TWO63 - 1
  }

  function LengthPlusData(data: bytes): bytes {
    LengthCode(Len(data)) + data
  }

  // ----- EncodeLenInt64, DecodeLenInt64

  /** A byte count and the little-endian bytes without trailing zeros. */
  function Int64Code(x: int64): bytes {
    var t := TrimEnd(LittleEndian(Unsigned(x), 8));
    [|t|] + t
  }

  method EncodeLenInt64(data: bytes, x: int64) returns (out: bytes)
    ensures out == data + Int64Code(x)
  {
    var buf: bytes := LittleEndian(Unsigned(x), 8);
    assert buf[..8] == buf;
    var length := 8;
    while length > 0 && buf[length - 1] == 0
      invariant 0 <= length <= 8 && TrimEnd(buf) == TrimEnd(buf[..length])
    {
      assert buf[..length][..length - 1] == buf[..length - 1];
      length := length - 1;
    }
    out := (data + [length]) + buf[..length];
  }

  function DecodeInt64(data: bytes): Decoded {
    if data == [] then Decoded(0, data, false)
    else
      var length := data[0] as int + 1;
      if |data| < length then Decoded(0, data, true)
      else
        var buf: bytes := (data[1..length] + Zeros(8))[..8];
        FromLittleEndianBound(buf);
        Pow256Values();
        Decoded(Signed(FromLittleEndian(buf)), data[length..], false)
  }

  lemma DecodeInt64OfCode(x: int64, rest: bytes)
    ensures DecodeInt64(Int64Code(x) + rest) == Decoded(x, rest, false)
  {
    var s := LittleEndian(Unsigned(x), 8);
    var t := TrimEnd(s);
    var data := Int64Code(x) + rest;
    assert data[1..|t| + 1] == t && data[|t| + 1..] == rest;
    TrimEndDropsZeros(s);
    assert (t + Zeros(8))[..8] == t + Zeros(8 - |t|);
    Pow256Values();
    LittleEndianRoundTrip(Unsigned(x), 8);
  }

  /** Cut inside an encoding, the decoder reports zero and consumes nothing: an error unless nothing is there. */
  lemma DecodeInt64OfCutCode(x: int64, k: nat)
    requires k < |Int64Code(x)|
    ensures DecodeInt64(Int64Code(x)[..k]) == Decoded(0, Int64Code(x)[..k], 0 < k)
  {
  }

  /** A count of at most eight and that many bytes, the least significant first, the last not zero. */
  lemma Int64CodeShape(x: int64)
    ensures var code := Int64Code(x);
      && 1 <= |code| <= 9 && code[0] == |code| - 1 && (1 < |code| ==> code[|code| - 1] != 0)
      && FromLittleEndian(code[1..]) == if x < 0 then x + 0x1_0000_0000_0000_0000 else x
  {
    var s := LittleEndian(Unsigned(x), 8);
    var t := TrimEnd(s);
    TrimEndDropsZeros(s);
    TrimEndStops(s);
    TrailingZeros(t, 8 - |t|);
    Pow256Values();
    LittleEndianRoundTrip(Unsigned(x), 8);
    assert Int64Code(x)[1..] == t;
  }

  lemma {:induction false} TrimEndStops(s: bytes)
    ensures TrimEnd(s) != [] ==> TrimEnd(s)[|TrimEnd(s)| - 1] != 0
  {
    if s != [] {
      TrimEndStops(s[..|s| - 1]);
    }
  }

  // ----- BinMarshal, BinUnmarshal

  type int32 = x: int | -0x8000_0000 <= x < 0x8000_0000

  const TWO32: int := 0x1_0000_0000

  /** uint32(x) */
  function Unsigned32(x: int32): (u: nat)
    ensures u < TWO32 && (0 <= x ==> u == x)
  {
    if x < 0 then x + TWO32 else x
  }

  /** int32(u) for a uint32 u */
  function Signed32(u: nat): (x: int32)
    requires u < TWO32
    ensures Unsigned32(x) == u
  {
    if u < 0x8000_0000 then u else u - TWO32
  }

  function Int32Code(x: int32): bytes {
    var u := Unsigned32(x);
    if u < 128 then [u]
    else
      var t := Trim(BigEndian(u, 4));
      [128 + |t|] + t
  }

  method MarshalInt32(out: bytes, x: int32) returns (out': bytes)
    ensures out' == out + Int32Code(x)
  {
    var u := Unsigned32(x);
    if u < 128 {
      return out + [u];
    }
    var tmp := BigEndian(u, 4);
    Pow256Values();
    BigEndianRoundTrip(u, 4);
    var i := 0;
    while i < 4
      invariant 0 <= i < 4 && FromBigEndian(tmp[i..]) == u
      invariant Trim(tmp) == Trim(tmp[i..])
    {
      if tmp[i] != 0 { break; }
      assert tmp[i..] == Zeros(1) + tmp[i + 1..];
      LeadingZeros(1, tmp[i + 1..]);
      assert tmp[i..][1..] == tmp[i + 1..];
      i := i + 1;
    }
    out' := (out + [128 + 4 - i]) + tmp[i..];
  }

  /** A contract's number: one byte below 128, otherwise a count and that many bytes, the first not zero. */
  lemma Int32CodeShape(x: int32)
    ensures 0 <= x < 128 ==> Int32Code(x) == [x]
    ensures x < 0 || 128 <= x ==>
      var code := Int32Code(x);
      && 2 <= |code| <= 5 && code[0] == 127 + |code| && code[1] != 0
      && FromBigEndian(code[1..]) == if x < 0 then x + 0x1_0000_0000 else x
  {
    if x < 0 || 128 <= x {
      var s := BigEndian(Unsigned32(x), 4);
      Pow256Values();
      BigEndianRoundTrip(Unsigned32(x), 4);
      TrimmedValue(s);
      assert Int32Code(x)[1..] == Trim(s);
    }
  }

  /** A value read from the front of the input, or a failure: an error return or an index out of range. */
  datatype Read<+T> = Got(value: T, rest: bytes) | Failed

  function ReadInt32(input: bytes): Read<int32> {
    if input == [] then Failed
    else if input[0] < 128 then Got(input[0], input[1..])
    else
      var size := input[0] as int - 128;
      if |input| <= size || size > 4 then Failed
      else
        var tmp: bytes := Zeros(4 - size) + input[1..size + 1];
        FromBigEndianRoundTrip(tmp);
        Pow256Values();
        Got(Signed32(FromBigEndian(tmp)), input[size + 1..])
  }

  lemma ReadInt32OfCode(x: int32, rest: bytes)
    ensures ReadInt32(Int32Code(x) + rest) == Got(x, rest)
  {
    var u := Unsigned32(x);
    var input := Int32Code(x) + rest;
    if u < 128 {
      assert input[1..] == rest;
    } else {
      var t := Trim(BigEndian(u, 4));
      assert input[1..|t| + 1] == t && input[|t| + 1..] == rest;
      TrimDropsZeros(BigEndian(u, 4));
      Pow256Values();
      BigEndianRoundTrip(u, 4);
    }
  }

  /** A fixed-width big-endian number: uint8, uint32 and uint64. */
  function ReadNumber(input: bytes, width: nat): Read<nat> {
    if input == [] || |input| < width then Failed
    else Got(FromBigEndian(input[..width]), input[width..])
  }

  lemma ReadNumberOfBigEndian(v: nat, width: nat, rest: bytes)
    requires v < Pow256(width) && 0 < width
    ensures ReadNumber(BigEndian(v, width) + rest, width) == Got(v, rest)
  {
    BigEndianRoundTrip(v, width);
    assert (BigEndian(v, width) + rest)[..width] == BigEndian(v, width);
  }

  function ReadData(input: bytes): Read<bytes> {
    if input == [] then Failed
    else
      var d := DecodeLength(input);
      if d.short || d.value < 0 || |d.rest| < d.value then Failed
      else Got(d.rest[..d.value], d.rest[d.value..])
  }

  lemma ReadDataOfCode(data: slice, rest: bytes)
    ensures ReadData(LengthPlusData(data) + rest) == Read<bytes>.Got(data, rest)
  {
    assert LengthPlusData(data) + rest == LengthCode(|data|) + (data + rest);
    DecodeLengthOfCode(|data|, data + rest);
  }
}
