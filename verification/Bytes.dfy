/** Bytes and the fixed-width integers built from them. */
module Bytes {
  type byte = x: int | 0 <= x < 256

  function Pow256(k: nat): (p: nat)
    ensures p >= 1
  {
    if k == 0 then 1 else 256 * Pow256(k - 1)
  }

  lemma Pow256Values()
    ensures Pow256(1) == 0x100 && Pow256(2) == 0x1_0000 && Pow256(3) == 0x100_0000 && Pow256(4) == 0x1_0000_0000
    ensures Pow256(8) == 0x1_0000_0000_0000_0000
  {
    assert Pow256(4) == 0x1_0000_0000;
    assert Pow256(6) == 0x1_0000_0000_0000;
  }

  // ----- little endian

  function Le(n: nat, k: nat): (b: seq<byte>)
    ensures |b| == k
  {
    if k == 0 then [] else [n % 256] + Le(n / 256, k - 1)
  }

  function FromLe(b: seq<byte>): nat
  {
    if b == [] then 0 else b[0] + 256 * FromLe(b[1..])
  }

  lemma {:induction false} FromLeOfLe(n: nat, k: nat)
    requires n < Pow256(k)
    ensures FromLe(Le(n, k)) == n
  {
    if k > 0 {
      FromLeOfLe(n / 256, k - 1);
      assert Le(n, k)[1..] == Le(n / 256, k - 1);
    }
  }

  // ----- big endian

  function Be(n: nat, k: nat): (b: seq<byte>)
    ensures |b| == k
  {
    if k == 0 then [] else Be(n / 256, k - 1) + [n % 256]
  }

  function FromBe(b: seq<byte>): nat
  {
    if b == [] then 0 else 256 * FromBe(b[..|b| - 1]) + b[|b| - 1]
  }

  lemma {:induction false} FromBeOfBe(n: nat, k: nat)
    requires n < Pow256(k)
    ensures FromBe(Be(n, k)) == n
  {
    if k > 0 {
      FromBeOfBe(n / 256, k - 1);
      assert Be(n, k)[..k - 1] == Be(n / 256, k - 1);
    }
  }

  lemma {:induction false} FromBeBound(b: seq<byte>)
    ensures FromBe(b) < Pow256(|b|)
  {
    if b != [] { FromBeBound(b[..|b| - 1]); }
  }

  lemma FromTwoBytes(a: byte, b: byte)
    ensures FromLe([a, b]) == a + 256 * b
  {
    assert [a, b][1..] == [b];
    assert FromLe([b]) == b;
  }

  // ----- two's complement

  /** k bytes read as a signed number. */
  function AsSigned(n: nat, k: nat): int { if 2 * n >= Pow256(k) then n - Pow256(k) else n }

  /** The unsigned number with the same k bytes. */
  function TwosComplement(n: int, k: nat): int { if n < 0 then n + Pow256(k) else n }
}
