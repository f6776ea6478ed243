/** The block explorer's loop over a block body: length-prefixed transactions and their type codes. */
module BlockBody {
  import opened Options
  import opened Bytes
  import opened WireCode

  /** A system transaction by its number, or a contract call by the contract's id. */
  datatype TypeCode = System(code: nat) | Contract(id: int32)

  /** The loop's list; None when it hits an index or slice out of range. */
  type Outcome = Option<seq<TypeCode>>

  /** The code at the front of `block`; None when the program would read or write out of range. */
  datatype Peek = Code(code: TypeCode) | OutOfRange

  function CodeOf(block: bytes): Peek {
    if block == [] then OutOfRange
    else if block[0] < 128 then Code(System(block[0]))
    else
      var n := block[0] as int - 128;
      if n > 4 || |block| < n + 1 then OutOfRange
      else
        FromBigEndianRoundTrip(block[1..n + 1]);
        Pow256Monotone(n, 4);
        Pow256Values();
        Code(Contract(Signed32(FromBigEndian(block[1..n + 1]))))
  }

  lemma {:induction false} Pow256Monotone(m: nat, n: nat)
    requires m <= n
    ensures Pow256(m) <= Pow256(n)
  {
    if m < n {
      Pow256Monotone(m, n - 1);
    }
  }

  /** A byte below 128 is a system type. */
  lemma SystemTypeIsRead(code: byte, rest: bytes)
    requires code < 128
    ensures CodeOf([code] + rest) == Code(System(code))
  {
  }

  /** A contract's number, as it is marshalled, is read back. */
  lemma ContractNumberIsRead(x: int32, rest: bytes)
    requires x < 0 || 128 <= x
    ensures CodeOf(Int32Code(x) + rest) == Code(Contract(x))
  {
    Int32CodeShape(x);
    var code := Int32Code(x);
    assert (code + rest)[1..|code|] == code[1..];
  }

  function Split(body: bytes): (r: Outcome)
    decreases |body|
  {
    if body == [] then Some([])
    else
      var d := DecodeLength(body);
      if d.value == 0 || |d.rest| < d.value then Some([])
      else if d.value < 0 || CodeOf(d.rest).OutOfRange? then None
      else Onto([CodeOf(d.rest).code], Split(d.rest[d.value..]))
  }

  /** Four bytes holding the first i of n id bytes, right-aligned for all n. */
  function Scratch(block: bytes, n: nat, i: nat): (s: bytes)
    requires i <= n <= 4 && i < |block|
    ensures |s| == 4
  {
    Zeros(4 - n) + block[1..i + 1] + Zeros(n - i)
  }

  lemma ScratchNext(block: bytes, n: nat, i: nat)
    requires i < n <= 4 && i + 1 < |block|
    ensures Scratch(block, n, i)[4 - n + i := block[i + 1]] == Scratch(block, n, i + 1)
  {
  }

  lemma ScratchHoldsId(block: bytes)
    requires block != [] && 128 <= block[0] <= 132 && block[0] as int - 128 < |block|
    ensures var n := block[0] as int - 128;
      FromBigEndian(Scratch(block, n, n)) == FromBigEndian(block[1..n + 1]) < TWO32
  {
    var n := block[0] as int - 128;
    assert Scratch(block, n, n) == Zeros(4 - n) + block[1..n + 1];
    LeadingZeros(4 - n, block[1..n + 1]);
    FromBigEndianRoundTrip(Scratch(block, n, n));
    Pow256Values();
  }

  /** The scratch array of a contract id: the id's bytes, right-aligned in four. */
  method ContractId(block: bytes) returns (peek: Peek)
    requires block != [] && 128 <= block[0]
    ensures peek == CodeOf(block)
  {
    var itype := block[0] as int - 128;
    var tmp := new byte[4](_ => 0);
    assert tmp[..] == Zeros(4);
    var i := 0;
    while i < itype
      invariant 0 <= i <= itype && i < |block| && (i == 0 || itype <= 4)
      invariant itype <= 4 ==> tmp[..] == Scratch(block, itype, i)
    {
      if 4 - itype + i < 0 || i + 1 >= |block| {
        return OutOfRange;
      }
      ScratchNext(block, itype, i);
      tmp[4 - itype + i] := block[i + 1];
      i := i + 1;
    }
    ScratchHoldsId(block);
    var idc := Signed32(FromBigEndian(tmp[..]));
    peek := Code(Contract(idc));
  }

  method TypeCodes(body: bytes) returns (r: Outcome)
    ensures r == Split(body)
  {
    var block: bytes, txlist: seq<TypeCode> := body, [];
    OntoNothing(Split(body));
    while |block| > 0
      invariant Split(body) == Onto(txlist, Split(block))
      decreases |block|
    {
      var d := DecodeLength(block);
      var size := d.value;
      if size == 0 || |d.rest| < size { break; }
      if d.rest == [] { return None; }
      var peek: Peek;
      if d.rest[0] < 128 {
        peek := Code(System(d.rest[0]));
      } else {
        peek := ContractId(d.rest);
      }
      if peek.OutOfRange? || size < 0 { return None; }
      OntoTwice(txlist, [peek.code], Split(d.rest[size..]));
      txlist := txlist + [peek.code];
      block := d.rest[size..];
    }
    assert txlist + [] == txlist;
    r := Some(txlist);
  }

  // ----- Well-formed bodies

  /** A system type below 128, or 128 + n with n <= 4 and n id bytes behind it. */
  predicate WellFormed(tx: slice) {
    tx != [] && (tx[0] < 128 || (tx[0] <= 132 && tx[0] - 127 <= |tx|))
  }

  function Frames(txs: seq<slice>): (frames: seq<bytes>) {
    seq(|txs|, i requires 0 <= i < |txs| => LengthPlusData(txs[i]))
  }

  function Body(txs: seq<slice>): bytes {
    Concat(Frames(txs))
  }

  function CodeIn(tx: slice): (code: TypeCode)
    requires WellFormed(tx)
    ensures Code(code) == CodeOf(tx)
  {
    CodeOf(tx).code
  }

  function Codes(txs: seq<slice>): (codes: seq<TypeCode>)
    requires forall i :: 0 <= i < |txs| ==> WellFormed(txs[i])
    ensures |codes| == |txs| && forall i :: 0 <= i < |txs| ==> Code(codes[i]) == CodeOf(txs[i])
  {
    seq(|txs|, i requires 0 <= i < |txs| => CodeIn(txs[i]))
  }

  /** How many of the transactions lie wholly within the first k bytes of the body. */
  function Whole(txs: seq<slice>, k: nat): (n: nat)
    ensures n <= |txs|
  {
    Within(Frames(txs), k)
  }

  // ----- Frames of any kind

  function Concat(frames: seq<bytes>): bytes {
    if frames == [] then [] else frames[0] + Concat(frames[1..])
  }

  function Within(frames: seq<bytes>, k: nat): (n: nat)
    ensures n <= |frames|
  {
    if frames == [] || k < |frames[0]| then 0 else 1 + Within(frames[1..], k - |frames[0]|)
  }

  /** A cut in the frame ends the list; the whole frame adds its code in front of what follows. */
  ghost predicate ReadsAs(split: bytes -> Outcome, frame: bytes, code: TypeCode) {
    && (forall k :: 0 <= k < |frame| ==> split(frame[..k]) == Some([]))
    && (forall rest :: split(frame + rest) == Onto([code], split(rest)))
  }

  lemma {:induction false} CutLists(split: bytes -> Outcome, frames: seq<bytes>, codes: seq<TypeCode>, k: nat)
    requires |codes| == |frames| && k <= |Concat(frames)| && split([]) == Some([])
    requires forall i :: 0 <= i < |frames| ==> ReadsAs(split, frames[i], codes[i])
    ensures split(Concat(frames)[..k]) == Some(codes[..Within(frames, k)])
  {
    if frames != [] {
      var frame, more := frames[0], Concat(frames[1..]);
      assert ReadsAs(split, frame, codes[0]);
      CutFirst(frame, more, k);
      if |frame| <= k {
        CutLists(split, frames[1..], codes[1..], k - |frame|);
        TakeCons(codes[0], codes[1..], Within(frames[1..], k - |frame|));
        assert codes == [codes[0]] + codes[1..];
      }
    }
  }

  lemma CutFirst(first: bytes, rest: bytes, k: nat)
    requires k <= |first| + |rest|
    ensures (first + rest)[..k] == if k < |first| then first[..k] else first + rest[..k - |first|]
  {
  }

  lemma TakeCons(code: TypeCode, codes: seq<TypeCode>, n: nat)
    requires n <= |codes|
    ensures ([code] + codes)[..n + 1] == [code] + codes[..n]
  {
  }

  lemma {:induction false} AllWithin(frames: seq<bytes>)
    ensures Within(frames, |Concat(frames)|) == |frames|
  {
    if frames != [] {
      AllWithin(frames[1..]);
    }
  }

  // ----- Frames of transactions

  lemma CodeOfFirst(tx: slice, rest: bytes)
    requires WellFormed(tx)
    ensures CodeOf(tx + rest) == CodeOf(tx) && CodeOf(tx).Code?
  {
    if tx[0] >= 128 {
      var n := tx[0] - 128;
      assert (tx + rest)[1..n + 1] == tx[1..n + 1];
    }
  }

  lemma SplitFirst(tx: slice, rest: bytes)
    requires WellFormed(tx)
    ensures CodeOf(tx).Code?
    ensures Split(LengthPlusData(tx) + rest) == Onto([CodeOf(tx).code], Split(rest))
  {
    var body := LengthPlusData(tx) + rest;
    assert body == LengthCode(|tx|) + (tx + rest);
    DecodeLengthOfCode(|tx|, tx + rest);
    CodeOfFirst(tx, rest);
    assert (tx + rest)[|tx|..] == rest;
  }

  lemma SplitCut(tx: slice, k: nat)
    requires k < |LengthPlusData(tx)|
    ensures Split(LengthPlusData(tx)[..k]) == Some([])
  {
    var cut := LengthPlusData(tx)[..k];
    var code := LengthCode(|tx|);
    if k < |code| {
      assert cut == code[..k];
      DecodeLengthOfCutCode(|tx|, k);
    } else {
      assert cut == code + tx[..k - |code|];
      DecodeLengthOfCode(|tx|, tx[..k - |code|]);
    }
  }

  lemma FrameReadsAsCode(tx: slice)
    requires WellFormed(tx)
    ensures CodeOf(tx).Code? && ReadsAs(Split, LengthPlusData(tx), CodeOf(tx).code)
  {
    forall k | 0 <= k < |LengthPlusData(tx)|
      ensures Split(LengthPlusData(tx)[..k]) == Some([])
    {
      SplitCut(tx, k);
    }
    SplitFirst(tx, []);
    forall rest
      ensures Split(LengthPlusData(tx) + rest) == Onto([CodeOf(tx).code], Split(rest))
    {
      SplitFirst(tx, rest);
    }
  }

  /**
   A body cut anywhere -- between transactions, inside a payload or inside a length prefix -- lists
   exactly the type codes of the transactions that are still whole, in order.
   */
  lemma CutBodyListsWholeTransactions(txs: seq<slice>, k: nat)
    requires forall i :: 0 <= i < |txs| ==> WellFormed(txs[i])
    requires k <= |Body(txs)|
    ensures Split(Body(txs)[..k]) == Some(Codes(txs)[..Whole(txs, k)])
  {
    forall i | 0 <= i < |txs|
      ensures ReadsAs(Split, Frames(txs)[i], Codes(txs)[i])
    {
      FrameReadsAsCode(txs[i]);
    }
    CutLists(Split, Frames(txs), Codes(txs), k);
  }

  /** Parsing the concatenation of length-prefixed transactions recovers their type codes in order. */
  lemma BodyListsAllTransactions(txs: seq<slice>)
    requires forall i :: 0 <= i < |txs| ==> WellFormed(txs[i])
    ensures Split(Body(txs)) == Some(Codes(txs))
  {
    var body, codes := Body(txs), Codes(txs);
    AllWithin(Frames(txs));
    CutBodyListsWholeTransactions(txs, |body|);
    assert body[..|body|] == body && codes[..|txs|] == codes;
  }
}
