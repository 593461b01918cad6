/** Byte strings and the fixed-width integer encodings used on the wire. */
module Bytes {
  import opened Bits

  type bytes = seq<u8>

  function Pow256(k: nat): (p: nat)
    ensures p > 0
  {
    if k == 0 then 1 else 256 * Pow256(k - 1)
  }

  /** The low `k` bytes of `n`, most significant first. */
  function ToBE(n: nat, k: nat): (s: bytes)
    ensures |s| == k
  {
    if k == 0 then [] else ToBE(n / 256, k - 1) + [n % 256]
  }

  function FromBE(s: bytes): nat {
    if s == [] then 0 else 256 * FromBE(s[..|s| - 1]) + s[|s| - 1]
  }

  function Reverse(s: bytes): (r: bytes)
    ensures |r| == |s|
  {
    if s == [] then [] else [s[|s| - 1]] + Reverse(s[..|s| - 1])
  }

  /** The low `k` bytes of `n`, least significant first. */
  function ToLE(n: nat, k: nat): bytes {
    Reverse(ToBE(n, k))
  }

  lemma Pow256Values()
    ensures Pow256(1) == 256 && Pow256(2) == TWO16 && Pow256(4) == TWO32 && Pow256(8) == TWO64
  {
    assert Pow256(4) == 256 * 256 * Pow256(2);
    assert Pow256(6) == 256 * 256 * Pow256(4);
    assert Pow256(8) == 256 * 256 * Pow256(6);
  }

  lemma {:induction false} FromBEBound(s: bytes)
    ensures FromBE(s) < Pow256(|s|)
  {
    if s != [] { FromBEBound(s[..|s| - 1]); }
  }

  /** Decoding undoes encoding for every integer that fits. */
  lemma {:induction false} BERoundTrip(n: nat, k: nat)
    requires n < Pow256(k)
    ensures FromBE(ToBE(n, k)) == n
  {
    if k > 0 {
      BERoundTrip(n / 256, k - 1);
      assert ToBE(n, k)[..k - 1] == ToBE(n / 256, k - 1);
    }
  }

  /** Encoding undoes decoding for every byte string. */
  lemma {:induction false} FromBERoundTrip(s: bytes)
    ensures ToBE(FromBE(s), |s|) == s
  {
    if s != [] {
      var front, last := s[..|s| - 1], s[|s| - 1];
      FromBERoundTrip(front);
      DivMod(FromBE(s), 256, FromBE(front), last);
      assert s == front + [last];
    }
  }

  lemma BEInjective(m: nat, n: nat, k: nat)
    requires m < Pow256(k) && n < Pow256(k) && ToBE(m, k) == ToBE(n, k)
    ensures m == n
  {
    BERoundTrip(m, k);
    BERoundTrip(n, k);
  }

  lemma {:induction false} ReverseInjective(s: bytes, t: bytes)
    requires Reverse(s) == Reverse(t)
    ensures s == t
  {
    assert |s| == |Reverse(s)| == |Reverse(t)| == |t|;
    if s != [] {
      var n := |s| - 1;
      assert Reverse(s)[1..] == Reverse(s[..n]) && Reverse(t)[1..] == Reverse(t[..n]);
      ReverseInjective(s[..n], t[..n]);
      assert s[n] == Reverse(s)[0] == Reverse(t)[0] == t[n];
      assert s == s[..n] + [s[n]] && t == t[..n] + [t[n]];
    }
  }

  /** Leading zero bytes do not change the value. */
  lemma {:induction false} FromBELeadingZero(s: bytes)
    ensures FromBE([0] + s) == FromBE(s)
  {
    if s != [] {
      assert ([0] + s)[..|s|] == [0] + s[..|s| - 1];
      FromBELeadingZero(s[..|s| - 1]);
    }
  }

  // ---- The same in plain numbers ----

  /** Four bytes, most significant first. */
  function FourBytes(n: u32): (s: bytes)
    ensures |s| == 4
  {
    [n / 0x100_0000, n / 0x1_0000 % 256, n / 0x100 % 256, n % 256]
  }

  /** Eight bytes, most significant first. */
  function EightBytes(n: u64): (s: bytes)
    ensures |s| == 8
  {
    [n / 0x100_0000_0000_0000, n / 0x1_0000_0000_0000 % 256, n / 0x100_0000_0000 % 256, n / 0x1_0000_0000 % 256,
     n / 0x100_0000 % 256, n / 0x1_0000 % 256, n / 0x100 % 256, n % 256]
  }

  /** The number that bytes spell, most significant first: each byte times its own power. */
  function Value(s: bytes): nat {
    if s == [] then 0 else s[0] * Pow256(|s| - 1) + Value(s[1..])
  }

  lemma Div256(n: nat, a: nat, b: nat)
    requires a > 0 && b == 256 * a
    ensures n / b == n / a / 256 == n / 256 / a
  {
    var q, r := n / a, n % a;
    var q2, r2 := q / 256, q % 256;
    assert n == b * q2 + (a * r2 + r);
    assert a * r2 <= a * 255;
    DivMod(n, b, q2, a * r2 + r);
    var u, v := n / 256, n % 256;
    var u2, v2 := u / a, u % a;
    assert n == b * u2 + (256 * v2 + v);
    DivMod(n, b, u2, 256 * v2 + v);
  }

  lemma FourBytesAreBE(n: u32)
    ensures ToBE(n, 4) == FourBytes(n)
  {
    Div256(n, 0x100, 0x1_0000);
    Div256(n, 0x1_0000, 0x100_0000);
    BE4(n);
  }

  lemma BE4(n: nat)
    ensures ToBE(n, 4) == [n / 256 / 256 / 256 % 256, n / 256 / 256 % 256, n / 256 % 256, n % 256]
  {
    assert ToBE(n, 4) == ToBE(n / 256, 3) + [n % 256];
    assert ToBE(n / 256, 3) == ToBE(n / 256 / 256, 2) + [n / 256 % 256];
    assert ToBE(n / 256 / 256, 2) == ToBE(n / 256 / 256 / 256, 1) + [n / 256 / 256 % 256];
    assert ToBE(n / 256 / 256 / 256, 1) == [n / 256 / 256 / 256 % 256];
  }

  lemma BELast4(n: nat, k: nat)
    ensures ToBE(n, k + 4) == ToBE(n / 256 / 256 / 256 / 256, k)
                              + [n / 256 / 256 / 256 % 256, n / 256 / 256 % 256, n / 256 % 256, n % 256]
  {
    assert ToBE(n, k + 4) == ToBE(n / 256, k + 3) + [n % 256];
    assert ToBE(n / 256, k + 3) == ToBE(n / 256 / 256, k + 2) + [n / 256 % 256];
    assert ToBE(n / 256 / 256, k + 2) == ToBE(n / 256 / 256 / 256, k + 1) + [n / 256 / 256 % 256];
  }

  lemma EightBytesAreBE(n: u64)
    ensures ToBE(n, 8) == EightBytes(n)
  {
    BELast4(n, 4);
    BE4(n / 256 / 256 / 256 / 256);
    hide ToBE;
    Div256(n, 0x100, 0x1_0000);
    Div256(n, 0x1_0000, 0x100_0000);
    Div256(n, 0x100_0000, 0x1_0000_0000);
    Div256(n, 0x1_0000_0000, 0x100_0000_0000);
    Div256(n, 0x100_0000_0000, 0x1_0000_0000_0000);
    Div256(n, 0x1_0000_0000_0000, 0x100_0000_0000_0000);
  }

  /** Decoding gives that number. */
  lemma {:induction false} FromBEIsValue(s: bytes)
    ensures FromBE(s) == Value(s)
  {
    if s != [] {
      FromBEIsValue(s[1..]);
      FromBEHead(s);
    }
  }

  lemma {:induction false} FromBEHead(s: bytes)
    requires s != []
    ensures FromBE(s) == s[0] * Pow256(|s| - 1) + FromBE(s[1..])
  {
    if |s| > 1 {
      var front := s[..|s| - 1];
      FromBEHead(front);
      assert s[1..][..|s| - 2] == front[1..];
      assert FromBE(s) == 256 * FromBE(front) + s[|s| - 1];
      assert FromBE(s[1..]) == 256 * FromBE(front[1..]) + s[|s| - 1];
    }
  }
}
