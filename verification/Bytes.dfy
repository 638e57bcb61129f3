/** Bytes, strings of bytes, and big-endian integers (Go's encoding/binary). */
module Bytes {

  type byte = b: int | 0 <= b < 256

  type Bytes = seq<byte>

  datatype Option<+T> = None | Some(value: T)

  /** 256 to the power w: the number of values w bytes can hold. */
  function Pow256(w: nat): (p: nat)
    ensures p > 0
  {
    if w == 0 then 1 else 256 * Pow256(w - 1)
  }

  /** The low w bytes of n, most significant first. A wider n is truncated, as a Go conversion to uint32 is. */
  function BigEndian(n: nat, w: nat): (s: Bytes)
    ensures |s| == w
  {
    if w == 0 then [] else BigEndian(n / 256, w - 1) + [n % 256]
  }

  function FromBigEndian(s: Bytes): nat {
    if s == [] then 0 else 256 * FromBigEndian(s[..|s| - 1]) + s[|s| - 1]
  }

  function U32(n: nat): Bytes { BigEndian(n, 4) }

  function U64(n: nat): Bytes { BigEndian(n, 8) }

  lemma DivModSplit(n: nat, p: nat)
    requires p > 0
    ensures n % (256 * p) == 256 * ((n / 256) % p) + n % 256
  {
    var q, r := n / 256, n % 256;
    var a, b := q / p, q % p;
    assert n == 256 * q + r && q == p * a + b;
    assert n == (256 * p) * a + (256 * b + r) by {
      assert 256 * (p * a + b) == (256 * p) * a + 256 * b;
    }
    assert 0 <= 256 * b + r < 256 * p by { assert 256 * (b + 1) <= 256 * p; }
    ModUnique(n, 256 * p, a, 256 * b + r);
  }

  lemma ModUnique(n: nat, m: nat, q: nat, r: nat)
    requires 0 <= r < m
    requires n == m * q + r
    ensures n % m == r
  {
    var q', r' := n / m, n % m;
    assert m * q' + r' == m * q + r;
    if q' < q {
      assert m * q >= m * (q' + 1) by { MulMono(m, q' + 1, q); }
    } else if q < q' {
      assert m * q' >= m * (q + 1) by { MulMono(m, q + 1, q'); }
    }
  }

  lemma MulMono(m: nat, a: nat, b: nat)
    requires a <= b
    ensures m * a <= m * b
  {
    assert m * b == m * a + m * (b - a);
  }

  /** Decoding what was encoded gives the value back, modulo the width. */
  lemma {:induction false} BigEndianRoundTrip(n: nat, w: nat)
    ensures FromBigEndian(BigEndian(n, w)) == n % Pow256(w)
  {
    if w > 0 {
      BigEndianRoundTrip(n / 256, w - 1);
      DivModSplit(n, Pow256(w - 1));
      var s := BigEndian(n, w);
      assert s[..|s| - 1] == BigEndian(n / 256, w - 1);
    }
  }

  lemma Pow256Values()
    ensures Pow256(4) == 0x1_0000_0000
    ensures Pow256(8) == 0x1_0000_0000_0000_0000
  {
    assert Pow256(2) == 65536;
    assert Pow256(4) == 65536 * Pow256(2);
    assert Pow256(6) == 65536 * Pow256(4);
    assert Pow256(8) == 65536 * Pow256(6);
  }

  lemma U32RoundTrip(n: nat)
    requires n < 0x1_0000_0000
    ensures FromBigEndian(U32(n)) == n
  {
    hide BigEndian, FromBigEndian, Pow256;
    BigEndianRoundTrip(n, 4);
    Pow256Values();
  }

  lemma U64Injective(m: nat, n: nat)
    requires m < 0x1_0000_0000_0000_0000 && n < 0x1_0000_0000_0000_0000
    requires U64(m) == U64(n)
    ensures m == n
  {
    hide BigEndian, FromBigEndian, Pow256;
    BigEndianRoundTrip(m, 8);
    BigEndianRoundTrip(n, 8);
    Pow256Values();
  }

  /** And encoding what was decoded. */
  lemma {:induction false} EncodeOfDecode(s: Bytes)
    ensures BigEndian(FromBigEndian(s), |s|) == s
  {
    if s != [] {
      var init, last := s[..|s| - 1], s[|s| - 1];
      EncodeOfDecode(init);
      assert FromBigEndian(s) / 256 == FromBigEndian(init) && FromBigEndian(s) % 256 == last;
      assert s == init + [last];
    }
  }

  function Zeros(n: nat): (s: Bytes)
    ensures |s| == n && forall i :: 0 <= i < n ==> s[i] == 0
  {
    seq(n, _ => 0)
  }
}
