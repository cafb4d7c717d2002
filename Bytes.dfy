/** Fixed-width unsigned integers of the tool and big-endian byte strings. */
module Bytes {

  newtype byte = x: int | 0 <= x < 0x100
  newtype u16 = x: int | 0 <= x < 0x1_0000

  const U128_LIMIT: int := 0x1_0000_0000_0000_0000_0000_0000_0000_0000
  newtype u128 = x: int | 0 <= x < U128_LIMIT

  /** 256 raised to the n-th power. */
  function Pow256(n: nat): (r: nat)
    ensures r >= 1
  {
    if n == 0 then 1 else 256 * Pow256(n - 1)
  }

  /** The value of a big-endian byte string: the sum of s[i] * 256^(|s|-1-i). */
  function BeValue(s: seq<byte>): nat
  {
    if s == [] then 0 else s[0] as nat * Pow256(|s| - 1) + BeValue(s[1..])
  }

  /** The n low-order bytes of x, most significant first. */
  function ToBeBytes(x: nat, n: nat): (r: seq<byte>)
    ensures |r| == n
  {
    if n == 0 then [] else ToBeBytes(x / 256, n - 1) + [(x % 256) as byte]
  }

  /** Appending a byte shifts the value one byte to the left. */
  lemma {:induction false} BeValueSnoc(s: seq<byte>, b: byte)
    ensures BeValue(s + [b]) == BeValue(s) * 256 + b as nat
  {
    if s != [] {
      calc {
        BeValue(s + [b]);
        { assert (s + [b])[1..] == s[1..] + [b]; }
        s[0] as nat * Pow256(|s|) + BeValue(s[1..] + [b]);
        { BeValueSnoc(s[1..], b); }
        s[0] as nat * Pow256(|s|) + BeValue(s[1..]) * 256 + b as nat;
        { assert Pow256(|s|) == Pow256(|s| - 1) * 256; }
        s[0] as nat * (Pow256(|s| - 1) * 256) + BeValue(s[1..]) * 256 + b as nat;
        (s[0] as nat * Pow256(|s| - 1) + BeValue(s[1..])) * 256 + b as nat;
      }
    } else {
      assert [b][1..] == [];
    }
  }

  /** A big-endian string of n bytes denotes a value below 256^n. */
  lemma {:induction false} BeValueBound(s: seq<byte>)
    ensures BeValue(s) < Pow256(|s|)
  {
    if s != [] {
      var p := Pow256(|s| - 1);
      BeValueBound(s[1..]);
      MulMonotone(s[0] as nat, 255, p);
      assert BeValue(s) < 255 * p + p;
    }
  }

  lemma MulMonotone(a: nat, b: nat, p: nat)
    requires a <= b
    ensures a * p <= b * p
  {
  }

  /** Encoding a value that fits in n bytes and decoding it gives the value back. */
  lemma {:induction false} BeValueOfToBeBytes(x: nat, n: nat)
    requires x < Pow256(n)
    ensures BeValue(ToBeBytes(x, n)) == x
  {
    if n > 0 {
      BeValueOfToBeBytes(x / 256, n - 1);
      BeValueSnoc(ToBeBytes(x / 256, n - 1), (x % 256) as byte);
    }
  }

  /** Decoding a byte string and encoding the value in as many bytes gives the string back. */
  lemma {:induction false} ToBeBytesOfBeValue(s: seq<byte>)
    ensures ToBeBytes(BeValue(s), |s|) == s
  {
    if s != [] {
      var init, last := s[..|s| - 1], s[|s| - 1];
      assert s == init + [last];
      BeValueSnoc(init, last);
      ToBeBytesOfBeValue(init);
      assert BeValue(s) / 256 == BeValue(init);
      assert BeValue(s) % 256 == last as nat;
    }
  }

  /** 256^16 is the range of a u128. */
  lemma Pow256Sixteen()
    ensures Pow256(16) == U128_LIMIT
  {
    assert Pow256(1) == 0x100;
    assert Pow256(2) == 0x10000;
    assert Pow256(3) == 0x1000000;
    assert Pow256(4) == 0x100000000;
    assert Pow256(5) == 0x10000000000;
    assert Pow256(6) == 0x1000000000000;
    assert Pow256(7) == 0x100000000000000;
    assert Pow256(8) == 0x10000000000000000;
    assert Pow256(9) == 0x1000000000000000000;
    assert Pow256(10) == 0x100000000000000000000;
    assert Pow256(11) == 0x10000000000000000000000;
    assert Pow256(12) == 0x1000000000000000000000000;
    assert Pow256(13) == 0x100000000000000000000000000;
    assert Pow256(14) == 0x10000000000000000000000000000;
    assert Pow256(15) == 0x1000000000000000000000000000000;
    assert Pow256(16) == 0x100000000000000000000000000000000;
  }

  /** u128::from_be_bytes: the big-endian value of 16 bytes. */
  function U128FromBeBytes(s: seq<byte>): (r: u128)
    requires |s| == 16
    ensures r as nat == BeValue(s)
  {
    BeValueBound(s);
    Pow256Sixteen();
    BeValue(s) as u128
  }

  /** u128::to_be_bytes: the 16 big-endian bytes of x. */
  function U128ToBeBytes(x: u128): (r: seq<byte>)
    ensures |r| == 16
  {
    ToBeBytes(x as nat, 16)
  }

  /** from_be_bytes(to_be_bytes(x)) == x. */
  lemma U128RoundTrip(x: u128)
    ensures U128FromBeBytes(U128ToBeBytes(x)) == x
  {
    Pow256Sixteen();
    BeValueOfToBeBytes(x as nat, 16);
  }

  /** to_be_bytes(from_be_bytes(s)) == s. */
  lemma U128RoundTripBytes(s: seq<byte>)
    requires |s| == 16
    ensures U128ToBeBytes(U128FromBeBytes(s)) == s
  {
    ToBeBytesOfBeValue(s);
  }
}
