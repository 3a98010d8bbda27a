/** Column bitmaps (pymysqlreplication/bitmap.py): counting bits by table and testing one bit. */
module Bitmaps {
  import opened Bytes

  /** x & (1 << t) is not zero. */
  predicate Bit(x: nat, t: nat) { if t == 0 then x % 2 == 1 else Bit(x / 2, t - 1) }

  function One(b: bool): nat { if b then 1 else 0 }

  /** The set bits among the lowest k. */
  function Pop(x: nat, k: nat): nat { if k == 0 then 0 else Pop(x, k - 1) + One(Bit(x, k - 1)) }

  /** The lookup table, sixteen entries a row. */
  function Row(r: nat): (row: seq<nat>)
    requires r < 16
    ensures |row| == 16
  {
    if r == 0 then [0, 1, 1, 2, 1, 2, 2, 3, 1, 2, 2, 3, 2, 3, 3, 4]
    else if r == 1 then [1, 2, 2, 3, 2, 3, 3, 4, 2, 3, 3, 4, 3, 4, 4, 5]
    else if r == 2 then [1, 2, 2, 3, 2, 3, 3, 4, 2, 3, 3, 4, 3, 4, 4, 5]
    else if r == 3 then [2, 3, 3, 4, 3, 4, 4, 5, 3, 4, 4, 5, 4, 5, 5, 6]
    else if r == 4 then [1, 2, 2, 3, 2, 3, 3, 4, 2, 3, 3, 4, 3, 4, 4, 5]
    else if r == 5 then [2, 3, 3, 4, 3, 4, 4, 5, 3, 4, 4, 5, 4, 5, 5, 6]
    else if r == 6 then [2, 3, 3, 4, 3, 4, 4, 5, 3, 4, 4, 5, 4, 5, 5, 6]
    else if r == 7 then [3, 4, 4, 5, 4, 5, 5, 6, 4, 5, 5, 6, 5, 6, 6, 7]
    else if r == 8 then [1, 2, 2, 3, 2, 3, 3, 4, 2, 3, 3, 4, 3, 4, 4, 5]
    else if r == 9 then [2, 3, 3, 4, 3, 4, 4, 5, 3, 4, 4, 5, 4, 5, 5, 6]
    else if r == 10 then [2, 3, 3, 4, 3, 4, 4, 5, 3, 4, 4, 5, 4, 5, 5, 6]
    else if r == 11 then [3, 4, 4, 5, 4, 5, 5, 6, 4, 5, 5, 6, 5, 6, 6, 7]
    else if r == 12 then [2, 3, 3, 4, 3, 4, 4, 5, 3, 4, 4, 5, 4, 5, 5, 6]
    else if r == 13 then [3, 4, 4, 5, 4, 5, 5, 6, 4, 5, 5, 6, 5, 6, 6, 7]
    else if r == 14 then [3, 4, 4, 5, 4, 5, 5, 6, 4, 5, 5, 6, 5, 6, 6, 7]
    else [4, 5, 5, 6, 5, 6, 6, 7, 5, 6, 6, 7, 6, 7, 7, 8]
  }

  function Table(x: byte): nat { Row(x / 16)[x % 16] }

  function Nibble(c: nat): nat { c % 2 + c / 2 % 2 + c / 4 % 2 + c / 8 % 2 }

  /** A row is the first row, raised by the bits of its number. */
  function Lift(k: nat): seq<nat>
  {
    [k, k + 1, k + 1, k + 2, k + 1, k + 2, k + 2, k + 3, k + 1, k + 2, k + 2, k + 3, k + 2, k + 3, k + 3, k + 4]
  }

  lemma RowIsLifted(r: nat)
    requires r < 16
    ensures Row(r) == Lift(Nibble(r))
  {
    if r < 4 { LowRows(r); }
    else if r < 8 { LowMiddleRows(r); }
    else if r < 12 { HighMiddleRows(r); }
    else { HighRows(r); }
  }

  lemma LowRows(r: nat)
    requires 0 <= r < 4
    ensures Row(r) == Lift(Nibble(r))
  {
    assert r == 0 || r == 1 || r == 2 || r == 3;
  }

  lemma LowMiddleRows(r: nat)
    requires 4 <= r < 8
    ensures Row(r) == Lift(Nibble(r))
  {
    assert r == 4 || r == 5 || r == 6 || r == 7;
  }

  lemma HighMiddleRows(r: nat)
    requires 8 <= r < 12
    ensures Row(r) == Lift(Nibble(r))
  {
    assert r == 8 || r == 9 || r == 10 || r == 11;
  }

  lemma HighRows(r: nat)
    requires 12 <= r < 16
    ensures Row(r) == Lift(Nibble(r))
  {
    assert r == 12 || r == 13 || r == 14 || r == 15;
  }

  lemma LiftEntry(k: nat, c: nat)
    requires c < 16
    ensures Lift(k)[c] == k + Nibble(c)
  {
    var s := Lift(k);
    assert s[0] == k && s[1] == k + 1 && s[2] == k + 1 && s[3] == k + 2;
    assert s[4] == k + 1 && s[5] == k + 2 && s[6] == k + 2 && s[7] == k + 3;
    assert s[8] == k + 1 && s[9] == k + 2 && s[10] == k + 2 && s[11] == k + 3;
    assert s[12] == k + 2 && s[13] == k + 3 && s[14] == k + 3 && s[15] == k + 4;
    hide Lift, Nibble;
    NibbleValues(c);
    if c >= 8 { NibbleValues(c - 8); }
  }

  lemma NibbleValues(c: nat)
    requires c < 16
    ensures Nibble(c) == (if c < 8 then 0 else 1) + Nibble(if c < 8 then c else c - 8)
    ensures c < 8 ==>
              Nibble(c) == (if c == 0 then 0 else if c == 7 then 3 else if c == 3 || c == 5 || c == 6 then 2 else 1)
  {
    if c >= 8 {
      UpperBit(c - 8);
    } else if c == 0 {
    } else if c == 1 {
    } else if c == 2 {
    } else if c == 3 {
    } else if c == 4 {
    } else if c == 5 {
    } else if c == 6 {
    }
  }

  lemma UpperBit(d: nat)
    requires d < 8
    ensures Nibble(d + 8) == Nibble(d) + 1
  {
    assert (d + 8) / 2 == d / 2 + 4 && (d + 8) / 4 == d / 4 + 2;
  }

  /** Counting from the lowest bit. */
  lemma {:induction false} PopLow(x: nat, k: nat)
    requires k > 0
    ensures Pop(x, k) == x % 2 + Pop(x / 2, k - 1)
  {
    if k == 1 {
      assert Pop(x, 0) == 0 && Pop(x / 2, 0) == 0;
    } else {
      PopLow(x, k - 1);
    }
  }

  lemma FourBits(x: nat, k: nat)
    requires k >= 4
    ensures Pop(x, k) == Nibble(x) + Pop(x / 16, k - 4)
  {
    hide Pop;
    PopLow(x, k);
    PopLow(x / 2, k - 1);
    PopLow(x / 4, k - 2);
    PopLow(x / 8, k - 3);
    assert x / 2 / 2 == x / 4 && x / 4 / 2 == x / 8 && x / 8 / 2 == x / 16;
  }

  /** Bit p of the low half. */
  function BitAt(x: nat, p: nat): nat
    requires p >= 1
  {
    x / p % 2
  }

  lemma EvenPart(a: nat, e: nat)
    ensures (2 * a + e) % 2 == e % 2
  {
    assert (2 * a + e) / 2 == a + e / 2;
  }

  lemma BitAtOne(r: nat, c: nat)
    ensures BitAt(16 * r + c, 1) == BitAt(c, 1)
  {
    EvenPart(8 * r, c);
    assert 2 * (8 * r) + c == 16 * r + c;
  }

  lemma BitAtTwo(r: nat, c: nat)
    ensures BitAt(16 * r + c, 2) == BitAt(c, 2)
  {
    EvenPart(4 * r, c / 2);
    assert (16 * r + c) / 2 == 2 * (4 * r) + c / 2;
  }

  lemma BitAtFour(r: nat, c: nat)
    ensures BitAt(16 * r + c, 4) == BitAt(c, 4)
  {
    EvenPart(2 * r, c / 4);
    assert (16 * r + c) / 4 == 2 * (2 * r) + c / 4;
  }

  lemma BitAtEight(r: nat, c: nat)
    ensures BitAt(16 * r + c, 8) == BitAt(c, 8)
  {
    EvenPart(r, c / 8);
    assert (16 * r + c) / 8 == 2 * r + c / 8;
  }

  lemma NibbleBits(x: nat)
    ensures Nibble(x) == BitAt(x, 1) + BitAt(x, 2) + BitAt(x, 4) + BitAt(x, 8)
  {
  }

  lemma NibbleOfRemainder(r: nat, c: nat)
    ensures Nibble(16 * r + c) == Nibble(c)
  {
    hide Nibble, BitAt;
    NibbleBits(16 * r + c);
    NibbleBits(c);
    BitAtOne(r, c);
    BitAtTwo(r, c);
    BitAtFour(r, c);
    BitAtEight(r, c);
  }

  /** The table counts the bits of every byte. */
  lemma TableCounts(x: byte)
    ensures Table(x) == Pop(x, 8)
  {
    hide Row, Pop, Lift, Nibble;
    var r, c := x / 16, x % 16;
    RowIsLifted(r);
    LiftEntry(Nibble(r), c);
    FourBits(x, 8);
    FourBits(r, 4);
    NoBits(r / 16);
    NibbleOfRemainder(r, c);
  }

  lemma NoBits(x: nat)
    ensures Pop(x, 0) == 0
  {
  }

  /** Bit i of a bitmap. */
  predicate BitGet(bitmap: seq<byte>, i: nat)
    requires i < 8 * |bitmap|
  {
    Bit(bitmap[i / 8], i % 8)
  }

  /** How many of the first n bits are set. */
  function Rank(bitmap: seq<byte>, n: nat): (r: nat)
    requires n <= 8 * |bitmap|
    ensures r <= n
  {
    if n == 0 then 0 else Rank(bitmap, n - 1) + One(BitGet(bitmap, n - 1))
  }

  lemma {:induction false} RankGrows(bitmap: seq<byte>, m: nat, n: nat)
    requires m <= n <= 8 * |bitmap|
    ensures Rank(bitmap, m) <= Rank(bitmap, n)
  {
    if m < n { RankGrows(bitmap, m, n - 1); }
  }

  lemma {:induction false} RankInByte(bitmap: seq<byte>, j: nat, k: nat)
    requires j < |bitmap| && k <= 8
    ensures Rank(bitmap, 8 * j + k) == Rank(bitmap, 8 * j) + Pop(bitmap[j], k)
  {
    hide Bit;
    if k > 0 { RankInByte(bitmap, j, k - 1); }
  }

  /** Adding up table entries counts the set bits of the whole bitmap. */
  method BitCount(bitmap: seq<byte>) returns (n: nat)
    ensures n == Rank(bitmap, 8 * |bitmap|)
  {
    n := 0;
    for i := 0 to |bitmap|
      invariant n == Rank(bitmap, 8 * i)
    {
      hide Rank, Table, Pop;
      TableCounts(bitmap[i]);
      RankInByte(bitmap, i, 8);
      n := n + Table(bitmap[i]);
    }
  }

  // ----- writing bitmaps

  function ByteOf(bits: seq<bool>): nat
  {
    if bits == [] then 0 else One(bits[0]) + 2 * ByteOf(bits[1..])
  }

  function Pow2(k: nat): nat { if k == 0 then 1 else 2 * Pow2(k - 1) }

  lemma {:induction false} ByteOfBound(bits: seq<bool>)
    ensures ByteOf(bits) < Pow2(|bits|)
  {
    if bits != [] { ByteOfBound(bits[1..]); }
  }

  lemma {:induction false} BitOfByte(bits: seq<bool>, t: nat)
    requires t < |bits|
    ensures Bit(ByteOf(bits), t) == bits[t]
  {
    if t > 0 { BitOfByte(bits[1..], t - 1); }
  }

  function NullBytes(n: nat): nat { (n + 7) / 8 }

  lemma {:induction false} Pow2Grows(k: nat)
    requires k <= 8
    ensures Pow2(k) <= 256
  {
    assert Pow2(4) == 16;
    assert Pow2(8) == 256;
    if k < 8 { assert Pow2(5) == 32 && Pow2(6) == 64 && Pow2(7) == 128; }
  }

  /** Eight bits a byte, lowest first, zero padded. */
  function PackBits(bits: seq<bool>): (b: seq<byte>)
    ensures |b| == NullBytes(|bits|)
  {
    if bits == [] then []
    else
      var n := if |bits| < 8 then |bits| else 8;
      ByteOfBound(bits[..n]);
      Pow2Grows(n);
      [ByteOf(bits[..n])] + PackBits(bits[n..])
  }

  lemma {:induction false} PackedBit(bits: seq<bool>, i: nat)
    requires i < |bits|
    ensures i < 8 * NullBytes(|bits|) && BitGet(PackBits(bits), i) == bits[i]
  {
    var n := if |bits| < 8 then |bits| else 8;
    if i < n {
      BitOfByte(bits[..n], i);
    } else {
      PackedBit(bits[8..], i - 8);
      assert PackBits(bits)[i / 8] == PackBits(bits[8..])[(i - 8) / 8];
    }
  }
}
