/** Octets, fixed-width unsigned integers and their big-endian encodings. */
module Bytes {
  type Byte = b: int | 0 <= b < 0x100
  type U16 = n: int | 0 <= n < 0x1_0000
  type U32 = n: int | 0 <= n < 0x1_0000_0000
  type U64 = n: int | 0 <= n < 0x1_0000_0000_0000_0000

  /** The largest payload of a UDP datagram over IPv4. */
  const MAX_DATAGRAM_BYTES := 65_507

  const NIL_UUID: seq<Byte> := [0, 0, 0, 0, 0, 0, 0, 0, 0, 0, 0, 0, 0, 0, 0, 0]

  /** A UUID is its sixteen octets. */
  type Uuid = s: seq<Byte> | |s| == 16 witness NIL_UUID

  /** Powers of two, for shifts and masks. */
  function Pow2(n: nat): (p: nat)
    ensures p > 0
  {
    if n == 0 then 1 else 2 * Pow2(n - 1)
  }

  /** Quotient and remainder are determined by the division equation. */
  lemma {:induction false} DivUnique(n: int, d: int, q: int, r: int)
    requires d > 0 && n == d * q + r && 0 <= r < d
    ensures n / d == q && n % d == r
  {
    var e := n / d - q;
    assert n == d * (n / d) + n % d;
    assert d * e == d * (n / d) - d * q;
    assert e >= 1 ==> d * e >= d;
    assert e <= -1 ==> d * e <= -d;
  }

  function Pow256(width: nat): (p: nat)
    ensures p > 0
  {
    if width == 0 then 1 else 256 * Pow256(width - 1)
  }

  lemma {:induction false} Pow256Values()
    ensures Pow256(2) == 0x1_0000
    ensures Pow256(4) == 0x1_0000_0000
    ensures Pow256(8) == 0x1_0000_0000_0000_0000
  {
    assert Pow256(1) == 256 && Pow256(3) == 256 * Pow256(2);
    assert Pow256(5) == 256 * Pow256(4) && Pow256(6) == 256 * Pow256(5);
    assert Pow256(7) == 256 * Pow256(6) && Pow256(8) == 256 * Pow256(7);
  }

  /** The `width` low-order octets of `n`, most significant first. */
  function ToBe(n: nat, width: nat): (s: seq<Byte>)
    ensures |s| == width
  {
    if width == 0 then [] else ToBe(n / 256, width - 1) + [n % 256]
  }

  function FromBe(s: seq<Byte>): (n: nat)
    ensures n < Pow256(|s|)
  {
    if s == [] then 0 else 256 * FromBe(s[..|s| - 1]) + s[|s| - 1]
  }

  lemma {:induction false} FromToBe(n: nat, width: nat)
    requires n < Pow256(width)
    ensures FromBe(ToBe(n, width)) == n
  {
    if width == 0 {
    } else {
      hide ToBe, FromBe, Pow256;
      assert n / 256 < Pow256(width - 1) by { Pow256Step(width); }
      FromToBe(n / 256, width - 1);
      ToBeStep(n, width);
      FromBeStep(ToBe(n / 256, width - 1), n % 256);
    }
  }

  lemma {:induction false} Pow256Step(width: nat)
    requires width > 0
    ensures Pow256(width) == 256 * Pow256(width - 1)
  {
  }

  lemma {:induction false} ToBeStep(n: nat, width: nat)
    requires width > 0
    ensures ToBe(n, width) == ToBe(n / 256, width - 1) + [n % 256]
  {
  }

  lemma {:induction false} FromBeStep(s: seq<Byte>, b: Byte)
    ensures FromBe(s + [b]) == 256 * FromBe(s) + b
  {
    assert (s + [b])[..|s|] == s;
  }

  lemma {:induction false} ToFromBe(s: seq<Byte>)
    ensures ToBe(FromBe(s), |s|) == s
  {
    if s == [] {
    } else {
      var init := s[..|s| - 1];
      ToFromBe(init);
      assert FromBe(s) / 256 == FromBe(init) && FromBe(s) % 256 == s[|s| - 1];
    }
  }

  /** Concatenation of a list of octet strings. */
  function Concat(parts: seq<seq<Byte>>): seq<Byte>
  {
    if parts == [] then [] else parts[0] + Concat(parts[1..])
  }

  lemma {:induction false} ConcatAppend(parts: seq<seq<Byte>>, last: seq<Byte>)
    ensures Concat(parts + [last]) == Concat(parts) + last
  {
    if parts == [] {
      assert parts + [last] == [last] && Concat([last][1..]) == [];
    } else {
      assert (parts + [last])[1..] == parts[1..] + [last];
      ConcatAppend(parts[1..], last);
    }
  }
}
