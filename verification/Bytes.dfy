/** Bytes, machine integers and their fixed-width forms. */
module Bytes {
  type byte = x: int | 0 <= x < 256
  type bytes = seq<byte>

  /** A byte string as the program can hold it: its length is an int64. */
  type slice = s: bytes | |s| < 0x8000_0000_0000_0000

  const TWO63: int := 0x8000_0000_0000_0000
  const TWO64: int := 0x1_0000_0000_0000_0000

  type int64 = x: int | -0x8000_0000_0000_0000 <= x < 0x8000_0000_0000_0000

  /** uint64(x) */
  function Unsigned(x: int64): (u: nat)
    ensures u < TWO64 && (u < TWO63 ==> x == u) && (TWO63 <= u ==> x == u - TWO64)
  {
    if x < 0 then x + TWO64 else x
  }

  /** int64(u) for a uint64 u */
  function Signed(u: nat): (x: int64)
    requires u < TWO64
    ensures Unsigned(x) == u
  {
    if u < TWO63 then u else u - TWO64
  }

  /** 256 to the n */
  function Pow256(n: nat): (p: nat)
    ensures 0 < p
  {
    if n == 0 then 1 else 256 * Pow256(n - 1)
  }

  lemma Pow256Values()
    ensures Pow256(1) == 0x100 && Pow256(2) == 0x1_0000 && Pow256(3) == 0x100_0000 && Pow256(4) == 0x1_0000_0000
    ensures Pow256(8) == TWO64
  {
    assert Pow256(4) == 0x1_0000_0000;
    assert Pow256(5) == 256 * Pow256(4);
    assert Pow256(6) == 256 * Pow256(5);
    assert Pow256(7) == 256 * Pow256(6);
    assert Pow256(8) == 256 * Pow256(7);
  }

  // ----- Big-endian

  /** The n low bytes of v, most significant first. */
  function BigEndian(v: nat, n: nat): (s: bytes)
    ensures |s| == n
  {
    if n == 0 then [] else BigEndian(v / 256, n - 1) + [v % 256]
  }

  function FromBigEndian(s: bytes): nat {
    if s == [] then 0 else 256 * FromBigEndian(s[..|s| - 1]) + s[|s| - 1]
  }

  lemma {:induction false} BigEndianRoundTrip(v: nat, n: nat)
    requires v < Pow256(n)
    ensures FromBigEndian(BigEndian(v, n)) == v
  {
    if n > 0 {
      var s := BigEndian(v, n);
      assert v / 256 < Pow256(n - 1);
      BigEndianRoundTrip(v / 256, n - 1);
      assert s[..n - 1] == BigEndian(v / 256, n - 1);
    }
  }

  lemma {:induction false} FromBigEndianRoundTrip(s: bytes)
    ensures FromBigEndian(s) < Pow256(|s|)
    ensures BigEndian(FromBigEndian(s), |s|) == s
  {
    if s != [] {
      var older, last := s[..|s| - 1], s[|s| - 1];
      FromBigEndianRoundTrip(older);
      assert FromBigEndian(s) / 256 == FromBigEndian(older) && FromBigEndian(s) % 256 == last;
      assert s == older + [last];
    }
  }

  function Zeros(n: nat): (s: bytes)
    ensures |s| == n && forall i :: 0 <= i < n ==> s[i] == 0
  {
    seq(n, _ => 0)
  }

  lemma {:induction false} LeadingZeros(n: nat, s: bytes)
    ensures FromBigEndian(Zeros(n) + s) == FromBigEndian(s)
  {
    if s == [] {
      assert Zeros(n) + s == Zeros(n);
      if n > 0 {
        assert Zeros(n)[..n - 1] == Zeros(n - 1) + [];
        LeadingZeros(n - 1, []);
      }
    } else {
      var t := Zeros(n) + s;
      assert t[..|t| - 1] == Zeros(n) + s[..|s| - 1];
      LeadingZeros(n, s[..|s| - 1]);
    }
  }

  // ----- Little-endian

  function LittleEndian(v: nat, n: nat): (s: bytes)
    ensures |s| == n
  {
    if n == 0 then [] else [v % 256] + LittleEndian(v / 256, n - 1)
  }

  function FromLittleEndian(s: bytes): nat {
    if s == [] then 0 else s[0] + 256 * FromLittleEndian(s[1..])
  }

  lemma BigSnoc(s: bytes, b: byte)
    ensures FromBigEndian(s + [b]) == 256 * FromBigEndian(s) + b
  {
    assert (s + [b])[..|s|] == s;
  }

  lemma LittleCons(b: byte, s: bytes)
    ensures FromLittleEndian([b] + s) == b + 256 * FromLittleEndian(s)
  {
    assert ([b] + s)[1..] == s;
  }

  /** Where the more significant bytes stand. */
  lemma FourBytes(a: byte, b: byte, c: byte, d: byte)
    ensures FromBigEndian([a, b, c, d]) == 0x100_0000 * a + 0x1_0000 * b + 0x100 * c + d
    ensures FromLittleEndian([a, b, c, d]) == a + 0x100 * b + 0x1_0000 * c + 0x100_0000 * d
  {
    var one: bytes, two: bytes, three: bytes := [a], [a, b], [a, b, c];
    BigSnoc([], a);
    BigSnoc(one, b);
    BigSnoc(two, c);
    BigSnoc(three, d);
    assert [] + [a] == one && one + [b] == two && two + [c] == three && three + [d] == [a, b, c, d];
    LittleCons(d, []);
    LittleCons(c, [d]);
    LittleCons(b, [c, d]);
    LittleCons(a, [b, c, d]);
  }

  lemma {:induction false} LittleEndianRoundTrip(v: nat, n: nat)
    requires v < Pow256(n)
    ensures FromLittleEndian(LittleEndian(v, n)) == v
  {
    if n > 0 {
      LittleEndianRoundTrip(v / 256, n - 1);
      assert LittleEndian(v, n)[1..] == LittleEndian(v / 256, n - 1);
    }
  }

  lemma {:induction false} FromLittleEndianBound(s: bytes)
    ensures FromLittleEndian(s) < Pow256(|s|)
  {
    if s != [] {
      FromLittleEndianBound(s[1..]);
    }
  }

  lemma {:induction false} TrailingZeros(s: bytes, n: nat)
    ensures FromLittleEndian(s + Zeros(n)) == FromLittleEndian(s)
    decreases |s| + n
  {
    if s == [] {
      assert s + Zeros(n) == Zeros(n);
      if n > 0 {
        assert Zeros(n)[1..] == [] + Zeros(n - 1);
        TrailingZeros([], n - 1);
      }
    } else {
      assert (s + Zeros(n))[1..] == s[1..] + Zeros(n);
      TrailingZeros(s[1..], n);
    }
  }
}
