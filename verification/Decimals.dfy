/** MySQL's NEWDECIMAL storage format and its two decoders: the one on a packet
    (pymysqlreplication/row_event.py) and the one on bytes (pymysqlreplication/util/bytes.py). */
module Decimals {
  import opened Prelude
  import opened Text
  import opened Bytes
  import opened Packets

  /** A Python Decimal: sign, integer coefficient, and how many of its digits follow the point. */
  datatype Decimal = Decimal(negative: bool, coefficient: nat, scale: nat)

  datatype DecimalError = ShortData | InvalidText

  // ----- powers of ten and numerals

  function Pow10(k: nat): (p: nat)
    ensures p >= 1
  {
    if k == 0 then 1 else 10 * Pow10(k - 1)
  }

  lemma {:induction false} Pow10Add(a: nat, b: nat)
    ensures Pow10(a + b) == Pow10(a) * Pow10(b)
  {
    if a > 0 {
      Pow10Add(a - 1, b);
      assert 10 * (Pow10(a - 1) * Pow10(b)) == 10 * Pow10(a - 1) * Pow10(b);
    }
  }

  lemma {:induction false} NumberConcat(a: string, b: string)
    requires AllDigits(a) && AllDigits(b)
    ensures AllDigits(a + b) && Number(a + b) == Number(a) * Pow10(|b|) + Number(b)
  {
    if b == "" {
      assert a + b == a;
    } else {
      var front := b[..|b| - 1];
      NumberConcat(a, front);
      assert (a + b)[..|a + b| - 1] == a + front;
      Scale(Number(a), Pow10(|front|), Number(front));
    }
  }

  lemma Scale(a: nat, p: nat, b: nat)
    ensures (a * p + b) * 10 == a * (10 * p) + b * 10
  {
  }

  function Zeros(k: nat): (s: string)
    ensures |s| == k && AllDigits(s)
  {
    if k == 0 then "" else Zeros(k - 1) + "0"
  }

  lemma {:induction false} NumberOfZeros(k: nat)
    ensures Number(Zeros(k)) == 0
  {
    if k > 0 {
      NumberOfZeros(k - 1);
      assert Zeros(k)[..k - 1] == Zeros(k - 1);
    }
  }

  lemma {:induction false} DigitsLength(n: nat, w: nat)
    requires n < Pow10(w) && w >= 1
    ensures |Digits(n)| <= w
  {
    if n >= 10 {
      assert w != 1;
      DigitsLength(n / 10, w - 1);
    }
  }

  function PadNat(n: nat, w: nat): (s: string)
    ensures s != "" && AllDigits(s)
  {
    var d := Digits(n);
    if |d| < w then Zeros(w - |d|) + d else d
  }

  /** Python's zero-padded format: the width counts the sign. */
  function Pad(n: int, w: nat): string
  {
    if n < 0 then "-" + PadNat(-n, if w == 0 then 0 else w - 1) else PadNat(n, w)
  }

  /** A number of at most w digits takes exactly w characters. */
  lemma PadFits(n: nat, w: nat)
    requires n < Pow10(w) && w >= 1
    ensures |Pad(n, w)| == w && AllDigits(Pad(n, w)) && Number(Pad(n, w)) == n
  {
    hide Digits, Number, Zeros, Pow10;
    DigitsLength(n, w);
    NumberOfDigits(n);
    var d := Digits(n);
    if |d| < w {
      NumberConcat(Zeros(w - |d|), d);
      NumberOfZeros(w - |d|);
    }
  }

  // ----- decimal.Decimal(text) on the texts built here

  function ParseUnsigned(negative: bool, body: string): Result<Decimal, DecimalError>
  {
    var parts := Split(body, '.');
    if |parts| == 2 && AllDigits(parts[0]) && AllDigits(parts[1]) && (parts[0] != "" || parts[1] != "")
    then Ok(Decimal(negative, Number(parts[0] + parts[1]), |parts[1]|))
    else Err(InvalidText)
  }

  /** [sign] digits . digits, with a digit somewhere. */
  function ParseDecimal(text: string): Result<Decimal, DecimalError>
  {
    if text != "" && text[0] == '-' then ParseUnsigned(true, text[1..]) else ParseUnsigned(false, text)
  }

  // ----- the storage format

  function CompressedBytes(d: nat): nat
    requires d <= 9
  {
    if d == 0 then 0 else if d <= 2 then 1 else if d <= 4 then 2 else if d <= 6 then 3 else 4
  }

  /** The least k from k0 on with n <= 256^k. */
  function LeastBytes(n: nat, k0: nat): (k: nat)
    ensures k >= k0 && n <= Pow256(k) && forall j :: k0 <= j < k ==> Pow256(j) < n
    decreases if Pow256(k0) < n then n - Pow256(k0) else 0
  {
    if n <= Pow256(k0) then k0 else LeastBytes(n, k0 + 1)
  }

  /** The storage format: d leftover digits take the fewest bytes that hold them and a sign bit. */
  function StoredBytes(d: nat): nat { if d == 0 then 0 else LeastBytes(2 * Pow10(d), 0) }

  lemma LeastIs(n: nat, k: nat)
    requires k >= 1 && Pow256(k - 1) < n <= Pow256(k)
    ensures LeastBytes(n, 0) == k
  {
    var m := LeastBytes(n, 0);
    if m < k { Pow256Grows(m, k - 1); }
  }

  lemma {:induction false} Pow256Grows(a: nat, b: nat)
    requires a <= b
    ensures Pow256(a) <= Pow256(b)
  {
    if a < b { Pow256Grows(a, b - 1); }
  }

  lemma Pow10Values()
    ensures Pow10(1) == 10 && Pow10(2) == 100 && Pow10(3) == 1000 && Pow10(4) == 10_000 && Pow10(5) == 100_000
    ensures Pow10(6) == 1_000_000 && Pow10(7) == 10_000_000 && Pow10(8) == 100_000_000 && Pow10(9) == 1_000_000_000
  {
    assert Pow10(3) == 1000;
    assert Pow10(6) == 1_000_000;
  }

  /** The decoders' table is that rule. */
  lemma TableIsStored(d: nat)
    requires d <= 9
    ensures CompressedBytes(d) == StoredBytes(d)
  {
    if d >= 1 {
      Pow10Values();
      Pow256Values();
      assert Pow256(0) == 1;
      hide Pow10, Pow256, LeastBytes;
      LeastIs(2 * Pow10(d), CompressedBytes(d));
    }
  }

  /** A byte count holds d digits and a sign bit exactly from the table's entry on. */
  lemma TableIsLeast(d: nat, k: nat)
    requires 1 <= d <= 9
    ensures 2 * Pow10(d) <= Pow256(k) <==> CompressedBytes(d) <= k
  {
    Pow10Values();
    Pow256Values();
    assert Pow256(0) == 1;
    hide Pow10, Pow256;
    if k < CompressedBytes(d) { Pow256Grows(k, CompressedBytes(d) - 1); } else { Pow256Grows(CompressedBytes(d), k); }
  }

  /** How many leftover integral digits, full integral groups, full fractional groups and leftover
      fractional digits a column has. */
  datatype Shape = Shape(lead: nat, whole: nat, fraction: nat, tail: nat)

  function ShapeOf(precision: nat, scale: nat): (h: Shape)
    requires scale <= precision
    ensures h.lead <= 9 && h.tail <= 8
    ensures h.lead + 9 * h.whole == precision - scale && 9 * h.fraction + h.tail == scale
  {
    Shape((precision - scale) % 9, (precision - scale) / 9, scale / 9, scale % 9)
  }

  /** The shape parse_decimal_from_bytes computes: divmod rounds down, and a loop over a negative range
      does nothing. */
  function BytesShape(precision: nat, scale: nat): (h: Shape)
    ensures h.lead <= 9 && h.tail <= 8
    ensures scale <= precision ==> h == ShapeOf(precision, scale)
  {
    var integral := precision - scale;
    Shape(integral % 9, if integral < 0 then 0 else integral / 9, scale / 9, scale % 9)
  }

  /** The shape __read_new_decimal computes: int() rounds towards zero, so a scale above the precision
      leaves a negative count of leftover digits, which indexes the table from its end. */
  function PacketShape(precision: nat, scale: nat): (h: Shape)
    ensures h.lead <= 9 && h.tail <= 8
    ensures scale <= precision ==> h == ShapeOf(precision, scale)
  {
    if scale <= precision then ShapeOf(precision, scale)
    else
      var excess := (scale - precision) % 9;
      Shape(if excess == 0 then 0 else 10 - excess, 0, scale / 9, scale % 9)
  }

  function EncodedSize(h: Shape): nat
    requires h.lead <= 9 && h.tail <= 8
  {
    CompressedBytes(h.lead) + 4 * h.whole + 4 * h.fraction + CompressedBytes(h.tail)
  }

  const BILLION := 1_000_000_000

  /** k groups of nine digits, four bytes each, most significant first. */
  function Groups(n: nat, k: nat): (b: seq<byte>)
    ensures |b| == 4 * k
  {
    if k == 0 then [] else Groups(n / BILLION, k - 1) + Be(n % BILLION, 4)
  }

  function Flip(b: seq<byte>): (r: seq<byte>)
    ensures |r| == |b| && forall i :: 0 <= i < |b| ==> r[i] == 255 - b[i]
  {
    seq(|b|, i requires 0 <= i < |b| => (255 - b[i]) as byte)
  }

  function Mask(b: seq<byte>, negative: bool): (r: seq<byte>)
    ensures |r| == |b|
  {
    if negative then Flip(b) else b
  }

  /** x ^ 0x80 */
  function Toggle(x: byte): byte { if x >= 128 then x - 128 else x + 128 }

  function Toggled(b: seq<byte>): (r: seq<byte>)
    ensures |r| == |b|
  {
    if b == [] then [] else [Toggle(b[0])] + b[1..]
  }

  /** All but the last k decimal digits, and the last k. */
  function Upper(n: nat, k: nat): nat { Quotient(n, Pow10(k)) }
  function Lower(n: nat, k: nat): nat { Remainder(n, Pow10(k)) }

  function Quotient(n: nat, p: nat): nat
    requires p >= 1
  {
    n / p
  }

  function Remainder(n: nat, p: nat): nat
    requires p >= 1
  {
    n % p
  }

  function Plain(n: nat, h: Shape): (b: seq<byte>)
    requires h.lead <= 9 && h.tail <= 8
    ensures |b| == EncodedSize(h)
  {
    var scale := 9 * h.fraction + h.tail;
    var integral, fractional := Upper(n, scale), Lower(n, scale);
    TableIsStored(h.lead);
    TableIsStored(h.tail);
    Be(Upper(integral, 9 * h.whole), StoredBytes(h.lead)) + Groups(Lower(integral, 9 * h.whole), h.whole)
    + Groups(Upper(fractional, h.tail), h.fraction) + Be(Lower(fractional, h.tail), StoredBytes(h.tail))
  }

  lemma PlainParts(n: nat, h: Shape)
    requires h.lead <= 9 && h.tail <= 8
    ensures var integral, fractional := Upper(n, 9 * h.fraction + h.tail), Lower(n, 9 * h.fraction + h.tail);
            Plain(n, h)
            == Be(Upper(integral, 9 * h.whole), CompressedBytes(h.lead)) + Groups(Lower(integral, 9 * h.whole), h.whole)
               + Groups(Upper(fractional, h.tail), h.fraction) + Be(Lower(fractional, h.tail), CompressedBytes(h.tail))
  {
    hide Be, Groups, Upper, Lower, CompressedBytes, StoredBytes;
    TableIsStored(h.lead);
    TableIsStored(h.tail);
  }

  /** The reference encoding: big-endian groups, complemented when negative, the first bit toggled. */
  function Encode(negative: bool, n: nat, h: Shape): (b: seq<byte>)
    requires h.lead <= 9 && h.tail <= 8
    ensures |b| == EncodedSize(h)
  {
    Toggled(Mask(Plain(n, h), negative))
  }

  // ----- reading a group

  /** v ^ mask, where mask is 0 or -1. */
  function Unmask(v: int, negative: bool): int { if negative then -v - 1 else v }

  function GroupValue(b: seq<byte>, negative: bool): int { Unmask(SignedBe(b), negative) }

  /** int.from_bytes after each byte is xor-ed with the mask. */
  function UnsignedValue(b: seq<byte>, negative: bool): nat { FromBe(Mask(b, negative)) }

  lemma {:induction false} FlipComplements(b: seq<byte>)
    ensures FromBe(Flip(b)) == Pow256(|b|) - 1 - FromBe(b)
  {
    if b != [] {
      var front := b[..|b| - 1];
      FlipComplements(front);
      assert Flip(b)[..|b| - 1] == Flip(front);
    }
  }

  /** The bytes carry the sign in their top bit. */
  predicate SignMatches(b: seq<byte>, negative: bool) { (2 * FromBe(b) >= Pow256(|b|)) == negative }

  /** On bytes whose top bit is the sign, the signed and the unsigned reader agree; on others the signed
      one goes below zero. */
  lemma GroupReadersAgree(b: seq<byte>, negative: bool)
    ensures SignMatches(b, negative) ==> GroupValue(b, negative) == UnsignedValue(b, negative)
    ensures !SignMatches(b, negative) ==> GroupValue(b, negative) < 0
  {
    FlipComplements(b);
    FromBeBound(b);
  }

  lemma MaskTwice(b: seq<byte>, negative: bool)
    ensures Mask(Mask(b, negative), negative) == b
  {
    hide Flip;
    var r := Mask(Mask(b, negative), negative);
    assert forall i :: 0 <= i < |b| ==> r[i] == b[i];
  }

  lemma MaskedSign(b: seq<byte>, negative: bool)
    requires |b| >= 1 && 2 * FromBe(b) < Pow256(|b|)
    ensures SignMatches(Mask(b, negative), negative)
  {
    Pow256Even(|b|);
    hide FromBe, Pow256, Flip;
    if negative {
      FlipComplements(b);
      assert 2 * FromBe(Flip(b)) >= Pow256(|b|);
    }
  }

  lemma Pow256Even(k: nat)
    requires k >= 1
    ensures Pow256(k) % 2 == 0
  {
    assert Pow256(k) == 2 * (128 * Pow256(k - 1));
  }

  lemma GroupRoundTrip(n: nat, k: nat, negative: bool)
    requires k >= 1 && 2 * n < Pow256(k)
    ensures GroupValue(Mask(Be(n, k), negative), negative) == n
    ensures UnsignedValue(Mask(Be(n, k), negative), negative) == n
  {
    hide FromBe, Be, Mask, GroupValue, SignMatches, Pow256;
    var b := Be(n, k);
    FromBeOfBe(n, k);
    MaskTwice(b, negative);
    MaskedSign(b, negative);
    GroupReadersAgree(Mask(b, negative), negative);
  }

  /** k groups, nine characters each. */
  function GroupsText(t: seq<byte>, k: nat, negative: bool): string
    requires 4 * k <= |t|
  {
    if k == 0 then ""
    else GroupsText(t, k - 1, negative) + Pad(GroupValue(t[4 * (k - 1)..4 * k], negative), 9)
  }

  lemma FlipConcat(a: seq<byte>, b: seq<byte>, negative: bool)
    ensures Mask(a + b, negative) == Mask(a, negative) + Mask(b, negative)
  {
    hide Flip;
  }

  lemma {:induction false} GroupsTextPrefix(t: seq<byte>, u: seq<byte>, k: nat, negative: bool)
    requires 4 * k <= |t|
    ensures GroupsText(t + u, k, negative) == GroupsText(t, k, negative)
  {
    hide Pad, GroupValue;
    if k > 0 {
      GroupsTextPrefix(t, u, k - 1, negative);
      assert (t + u)[4 * (k - 1)..4 * k] == t[4 * (k - 1)..4 * k];
    }
  }

  lemma BillionIsPower()
    ensures Pow10(9) == BILLION && 2 * BILLION < Pow256(4)
  {
    assert Pow10(5) == 100_000;
    Pow256Values();
  }

  ghost predicate Spells(s: string, width: nat, n: nat) { |s| == width && AllDigits(s) && Number(s) == n }

  lemma SpellsConcat(a: string, b: string, w: nat, v: nat, m: nat, n: nat)
    requires Spells(a, w, m) && Spells(b, v, n)
    ensures Spells(a + b, w + v, m * Pow10(v) + n)
  {
    hide Number, Pow10;
    NumberConcat(a, b);
  }

  /** The last group adds its nine characters. */
  lemma GroupsTextLast(front: seq<byte>, last: seq<byte>, k: nat, negative: bool)
    requires |front| == 4 * k && |last| == 4
    ensures GroupsText(Mask(front + last, negative), k + 1, negative) ==
            GroupsText(Mask(front, negative), k, negative) + Pad(GroupValue(Mask(last, negative), negative), 9)
  {
    hide Pad, GroupValue, Mask;
    FlipConcat(front, last, negative);
    var t := Mask(front, negative) + Mask(last, negative);
    GroupsTextPrefix(Mask(front, negative), Mask(last, negative), k, negative);
    assert t[4 * k..4 * (k + 1)] == Mask(last, negative);
  }

  lemma NextGroup(k: nat)
    requires k > 0
    ensures Pow10(9 * k) == BILLION * Pow10(9 * (k - 1))
  {
    BillionIsPower();
    hide Pow10;
    Pow10Add(9, 9 * (k - 1));
    assert 9 + 9 * (k - 1) == 9 * k;
  }

  lemma AppendGroup(a: string, w: nat, m: nat, d: nat)
    requires Spells(a, w, m) && d < BILLION
    ensures Spells(a + Pad(d, 9), w + 9, m * BILLION + d)
  {
    hide Pow10, Number, Pad;
    BillionIsPower();
    PadFits(d, 9);
    SpellsConcat(a, Pad(d, 9), w, 9, m, d);
  }

  /** One more group of digits d after the groups of m. */
  lemma GroupsStep(m: nat, d: nat, k: nat, negative: bool)
    requires d < BILLION && Spells(GroupsText(Mask(Groups(m, k), negative), k, negative), 9 * k, m)
    ensures Spells(GroupsText(Mask(Groups(m, k) + Be(d, 4), negative), k + 1, negative), 9 * (k + 1), m * BILLION + d)
  {
    hide Pow10, Be, Pad, GroupValue, Pow256, Mask, GroupsText, Spells, Groups;
    BillionIsPower();
    GroupsTextLast(Groups(m, k), Be(d, 4), k, negative);
    GroupRoundTrip(d, 4, negative);
    AppendGroup(GroupsText(Mask(Groups(m, k), negative), k, negative), 9 * k, m, d);
  }

  lemma {:induction false} GroupsRoundTrip(n: nat, k: nat, negative: bool)
    requires n < Pow10(9 * k)
    ensures Spells(GroupsText(Mask(Groups(n, k), negative), k, negative), 9 * k, n)
  {
    hide Pow10, Be, Mask, GroupsText, Spells, Groups;
    if k == 0 {
      NoGroups(n, negative);
    } else {
      NextGroup(k);
      var m, d := n / BILLION, n % BILLION;
      DivideBound(n, Pow10(9 * (k - 1)));
      GroupsRoundTrip(m, k - 1, negative);
      GroupsStep(m, d, k - 1, negative);
      GroupsLast(n, k);
    }
  }

  lemma NoGroups(n: nat, negative: bool)
    requires n < Pow10(0)
    ensures Spells(GroupsText(Mask(Groups(n, 0), negative), 0, negative), 0, n)
  {
  }

  lemma GroupsLast(n: nat, k: nat)
    requires k > 0
    ensures Groups(n, k) == Groups(n / BILLION, k - 1) + Be(n % BILLION, 4)
  {
  }

  lemma DivideBound(n: nat, p: nat)
    requires n < BILLION * p
    ensures n / BILLION < p
  {
  }

  // ----- the texts the decoders build

  /** str(value) on the packet, nothing when no byte is stored. */
  function LeadText(t: seq<byte>, h: Shape, negative: bool): string
    requires h.lead <= 9 && h.tail <= 8 && |t| >= EncodedSize(h)
  {
    if CompressedBytes(h.lead) > 0 then Pad(GroupValue(t[..CompressedBytes(h.lead)], negative), 0) else ""
  }

  /** The nine-digit groups before and after the point. */
  function WholeText(t: seq<byte>, h: Shape, negative: bool): string
    requires h.lead <= 9 && h.tail <= 8 && |t| >= EncodedSize(h)
  {
    GroupsText(t[CompressedBytes(h.lead)..], h.whole, negative)
  }

  function FractionText(t: seq<byte>, h: Shape, negative: bool): string
    requires h.lead <= 9 && h.tail <= 8 && |t| >= EncodedSize(h)
  {
    GroupsText(t[CompressedBytes(h.lead) + 4 * h.whole..], h.fraction, negative)
  }

  function TailBytes(t: seq<byte>, h: Shape): (b: seq<byte>)
    requires h.lead <= 9 && h.tail <= 8 && |t| >= EncodedSize(h)
    ensures |b| == CompressedBytes(h.tail)
  {
    t[EncodedSize(h) - CompressedBytes(h.tail)..EncodedSize(h)]
  }

  function TailText(t: seq<byte>, h: Shape, negative: bool): string
    requires h.lead <= 9 && h.tail <= 8 && |t| >= EncodedSize(h)
  {
    if CompressedBytes(h.tail) > 0 then Pad(GroupValue(TailBytes(t, h), negative), h.tail) else ""
  }

  function Join2(negative: bool, x: string, y: string): string { (if negative then "-" else "") + x + "." + y }

  /** What is read after the first byte has been put back with its top bit toggled. */
  function SignedDecimal(t: seq<byte>, negative: bool, h: Shape): Result<Decimal, DecimalError>
    requires h.lead <= 9 && h.tail <= 8
  {
    if |t| < EncodedSize(h) then Err(ShortData)
    else ParseDecimal(Join2(negative, LeadText(t, h, negative) + WholeText(t, h, negative),
                            FractionText(t, h, negative) + TailText(t, h, negative)))
  }

  /** __read_new_decimal: compressed groups are read as signed integers. */
  function PacketDecimal(b: seq<byte>, h: Shape): Result<Decimal, DecimalError>
    requires h.lead <= 9 && h.tail <= 8
  {
    if |b| < 1 then Err(ShortData) else SignedDecimal(Toggled(b), b[0] < 128, h)
  }

  function UnsignedTail(t: seq<byte>, h: Shape, negative: bool): string
    requires h.lead <= 9 && h.tail <= 8 && |t| >= EncodedSize(h)
  {
    if CompressedBytes(h.tail) > 0 then Pad(UnsignedValue(TailBytes(t, h), negative), h.tail) else ""
  }

  function UnsignedLead(t: seq<byte>, h: Shape, negative: bool): string
    requires h.lead <= 9 && h.tail <= 8 && |t| >= EncodedSize(h)
  {
    Pad(UnsignedValue(t[..CompressedBytes(h.lead)], negative), 0)
  }

  /** parse_decimal_from_bytes: compressed groups are read as unsigned integers, an absent leading one
      as 0. */
  function BytesDecimal(b: seq<byte>, h: Shape): Result<Decimal, DecimalError>
    requires h.lead <= 9 && h.tail <= 8
  {
    if |b| < 1 || |b| < EncodedSize(h) then Err(ShortData)
    else
      var negative, t := b[0] < 128, Toggled(b);
      ParseDecimal(Join2(negative, UnsignedLead(t, h, negative) + WholeText(t, h, negative),
                         FractionText(t, h, negative) + UnsignedTail(t, h, negative)))
  }

  // ----- what decimal.Decimal makes of them

  function Combine(negative: bool, x: string, y: string): Result<Decimal, DecimalError>
  {
    if AllDigits(x) && AllDigits(y) && (x != "" || y != "")
    then Ok(Decimal(negative, Number(x + y), |y|))
    else Err(InvalidText)
  }

  lemma CombineReads(negative: bool, x: string, y: string)
    requires '.' !in x && '.' !in y && !(x != "" && x[0] == '-' && !negative)
    ensures ParseDecimal(Join2(negative, x, y)) == Combine(negative, x, y)
  {
    hide Number;
    SplitTwo(x, y, '.');
    hide Split;
    var body := x + "." + y;
    if negative {
      assert Join2(negative, x, y) == "-" + body;
      assert ("-" + body)[1..] == body;
    } else {
      assert Join2(negative, x, y) == body;
    }
  }

  lemma PadCharacters(n: int, w: nat)
    ensures Pad(n, w) != "" && '.' !in Pad(n, w) && '-' !in Pad(n, w)[1..]
    ensures n >= 0 <==> AllDigits(Pad(n, w))
    ensures n < 0 <==> Pad(n, w)[0] == '-'
  {
    var s := Pad(n, w);
    if n < 0 { assert s[0] == '-'; }
  }

  lemma GroupsTextStep(t: seq<byte>, k: nat, negative: bool)
    requires 0 < k && 4 * k <= |t|
    ensures GroupsText(t, k, negative)
            == GroupsText(t, k - 1, negative) + Pad(GroupValue(t[4 * (k - 1)..4 * k], negative), 9)
  {
  }

  lemma AbsentFromBoth(a: string, b: string, c: char)
    requires c !in a && c !in b
    ensures c !in a + b
  {
  }

  lemma NoText(t: seq<byte>, negative: bool)
    ensures GroupsText(t, 0, negative) == ""
  {
  }

  lemma {:induction false} GroupsTextCharacters(t: seq<byte>, k: nat, negative: bool)
    requires 4 * k <= |t|
    ensures '.' !in GroupsText(t, k, negative) && (k > 0 ==> GroupsText(t, k, negative) != "")
  {
    hide Pad, GroupValue, GroupsText;
    if k == 0 {
      NoText(t, negative);
    } else {
      var value := GroupValue(t[4 * (k - 1)..4 * k], negative);
      GroupsTextStep(t, k, negative);
      GroupsTextCharacters(t, k - 1, negative);
      PadCharacters(value, 9);
      AbsentFromBoth(GroupsText(t, k - 1, negative), Pad(value, 9), '.');
    }
  }

  lemma {:induction false} GroupsTextHead(t: seq<byte>, k: nat, negative: bool)
    requires 0 < k && 4 * k <= |t| && SignMatches(t[..4], negative)
    ensures GroupsText(t, k, negative) != "" && GroupsText(t, k, negative)[0] != '-'
  {
    if k > 1 {
      hide Pad, GroupValue, GroupsText, SignMatches;
      GroupsTextHead(t, k - 1, negative);
      GroupsTextStep(t, k, negative);
    } else {
      var v := GroupValue(t[..4], negative);
      assert v >= 0 by { GroupReadersAgree(t[..4], negative); }
      PadCharacters(v, 9);
      hide Pad, GroupValue, SignMatches;
      assert t[4 * (k - 1)..4 * k] == t[..4];
      assert GroupsText(t, 0, negative) == "";
      GroupsTextStep(t, k, negative);
    }
  }

  // ----- both decoders invert the encoding

  /** The four parts of a stored number, in order, at the front of t. */
  ghost predicate Parts(t: seq<byte>, h: Shape, a: seq<byte>, b: seq<byte>, c: seq<byte>, d: seq<byte>)
  {
    && h.lead <= 9 && h.tail <= 8 && |t| >= EncodedSize(h)
    && |a| == CompressedBytes(h.lead) && |b| == 4 * h.whole && |c| == 4 * h.fraction && |d| == CompressedBytes(h.tail)
    && t[..|a|] == a && t[|a|..|a| + |b|] == b && t[|a| + |b|..|a| + |b| + |c|] == c && TailBytes(t, h) == d
  }

  lemma GroupsTextAt(t: seq<byte>, p: nat, b: seq<byte>, k: nat, negative: bool)
    requires p + 4 * k <= |t| && |b| == 4 * k && t[p..p + 4 * k] == b
    ensures GroupsText(t[p..], k, negative) == GroupsText(b, k, negative)
  {
    hide GroupsText;
    assert t[p..] == b + t[p + 4 * k..];
    GroupsTextPrefix(b, t[p + 4 * k..], k, negative);
  }

  lemma FourParts(t: seq<byte>, h: Shape, a: seq<byte>, b: seq<byte>, c: seq<byte>, d: seq<byte>, rest: seq<byte>)
    requires h.lead <= 9 && h.tail <= 8 && t == a + b + c + d + rest
    requires |a| == CompressedBytes(h.lead) && |b| == 4 * h.whole && |c| == 4 * h.fraction
    requires |d| == CompressedBytes(h.tail)
    ensures Parts(t, h, a, b, c, d)
  {
    hide CompressedBytes;
    assert t[|a|..] == b + c + d + rest;
    assert t[|a| + |b|..] == c + d + rest;
    assert t[|a| + |b| + |c|..] == d + rest;
  }

  lemma CompressedFits(d: nat, n: nat)
    requires 1 <= d <= 9 && n < Pow10(d)
    ensures CompressedBytes(d) >= 1 && 2 * n < Pow256(CompressedBytes(d))
  {
    Pow10Values();
    Pow256Values();
  }

  lemma CompressedZero(d: nat)
    requires d <= 9
    ensures CompressedBytes(d) == 0 <==> d == 0
  {
  }

  lemma SplitNumber(n: nat, a: nat, b: nat)
    requires n < Pow10(a + b)
    ensures Upper(n, b) < Pow10(a) && Lower(n, b) < Pow10(b) && n == Upper(n, b) * Pow10(b) + Lower(n, b)
  {
    hide Pow10;
    Pow10Add(a, b);
    QuotientBound(n, Pow10(a), Pow10(b));
  }

  lemma QuotientBound(n: nat, p: nat, q: nat)
    requires q >= 1 && n < p * q
    ensures Quotient(n, q) < p && Remainder(n, q) < q && n == Quotient(n, q) * q + Remainder(n, q)
  {
    var d := Quotient(n, q);
    assert n == d * q + n % q;
    Multiplied(d, p, q);
  }

  lemma Multiplied(a: nat, b: nat, q: nat)
    ensures a >= b ==> a * q >= b * q
  {
  }

  /** The text of a compressed group: its width is the digit count, or as short as possible for 0. */
  lemma LeadReads(n: nat, d: nat, w: nat, negative: bool)
    requires 1 <= d <= 9 && n < Pow10(d) && (w == d || w == 0)
    ensures var b := Mask(Be(n, CompressedBytes(d)), negative);
            && Pad(GroupValue(b, negative), w) == Pad(n, w) && Pad(UnsignedValue(b, negative), w) == Pad(n, w)
            && Pad(n, w) != "" && AllDigits(Pad(n, w)) && Number(Pad(n, w)) == n && (w == d ==> |Pad(n, w)| == d)
  {
    CompressedFits(d, n);
    GroupRoundTrip(n, CompressedBytes(d), negative);
    if w == d { PadFits(n, d); } else { NumberOfDigits(n); }
  }

  /** Both integral texts are numerals of the integral part. */
  lemma IntegralReads(t: seq<byte>, h: Shape, n: nat, b: seq<byte>, c: seq<byte>, d: seq<byte>, negative: bool)
    requires h.lead <= 9 && h.tail <= 8 && n < Pow10(h.lead + 9 * h.whole)
    requires Parts(t, h, Mask(Be(Upper(n, 9 * h.whole), CompressedBytes(h.lead)), negative), b, c, d)
    requires b == Mask(Groups(Lower(n, 9 * h.whole), h.whole), negative)
    ensures var x := LeadText(t, h, negative) + WholeText(t, h, negative);
            AllDigits(x) && Number(x) == n && (x == "" ==> h.lead == 0 && h.whole == 0)
    ensures var x := UnsignedLead(t, h, negative) + WholeText(t, h, negative);
            AllDigits(x) && Number(x) == n && x != ""
  {
    hide Pow10, Number, Pad, GroupValue, UnsignedValue, Mask, Be, GroupsText, CompressedBytes, Upper, Lower, Groups;
    var hi, lo := Upper(n, 9 * h.whole), Lower(n, 9 * h.whole);
    SplitNumber(n, h.lead, 9 * h.whole);
    GroupsTextAt(t, CompressedBytes(h.lead), b, h.whole, negative);
    GroupsRoundTrip(lo, h.whole, negative);
    CompressedZero(h.lead);
    var w := WholeText(t, h, negative);
    if h.lead > 0 {
      LeadReads(hi, h.lead, 0, negative);
      NumberConcat(Pad(hi, 0), w);
    } else {
      NoLead(hi, negative);
      NumberConcat("", w);
      NumberConcat("0", w);
    }
  }

  lemma NoLead(n: nat, negative: bool)
    requires n < Pow10(0)
    ensures n == 0 && Pad(UnsignedValue(Mask(Be(n, 0), negative), negative), 0) == "0" && Number("0") == 0
    ensures Number("") == 0
  {
    assert Digits(0) == "0";
    assert "0"[..0] == "";
  }

  /** Both fractional texts spell the fractional part in exactly as many digits as the scale. */
  lemma FractionReads(t: seq<byte>, h: Shape, n: nat, a: seq<byte>, b: seq<byte>, c: seq<byte>, negative: bool)
    requires h.lead <= 9 && h.tail <= 8 && n < Pow10(9 * h.fraction + h.tail)
    requires Parts(t, h, a, b, c, Mask(Be(Lower(n, h.tail), CompressedBytes(h.tail)), negative))
    requires c == Mask(Groups(Upper(n, h.tail), h.fraction), negative)
    ensures TailText(t, h, negative) == UnsignedTail(t, h, negative)
    ensures Spells(FractionText(t, h, negative) + TailText(t, h, negative), 9 * h.fraction + h.tail, n)
  {
    hide Pow10, Number, Pad, GroupValue, UnsignedValue, Mask, Be, GroupsText, CompressedBytes, Upper, Lower, Groups,
         TailBytes;
    var hi, lo := Upper(n, h.tail), Lower(n, h.tail);
    SplitNumber(n, 9 * h.fraction, h.tail);
    GroupsTextAt(t, |a| + |b|, c, h.fraction, negative);
    GroupsRoundTrip(hi, h.fraction, negative);
    CompressedZero(h.tail);
    var g := FractionText(t, h, negative);
    if h.tail > 0 {
      LeadReads(lo, h.tail, h.tail, negative);
      SpellsConcat(g, Pad(lo, h.tail), 9 * h.fraction, h.tail, hi, lo);
    } else {
      NoTail(lo);
      SpellsConcat(g, "", 9 * h.fraction, 0, hi, lo);
    }
  }

  lemma NoTail(n: nat)
    requires n < Pow10(0)
    ensures Spells("", 0, n)
  {
  }

  lemma Recombine(negative: bool, x: string, y: string, whole: nat, part: nat, scale: nat)
    requires AllDigits(x) && Number(x) == whole && Spells(y, scale, part) && (x != "" || y != "")
    ensures ParseDecimal(Join2(negative, x, y)) == Ok(Decimal(negative, whole * Pow10(scale) + part, scale))
  {
    hide Number, Pow10, ParseDecimal;
    assert '.' !in x && '.' !in y;
    CombineReads(negative, x, y);
    NumberConcat(x, y);
  }

  /** The first byte of a stored number has its top bit clear before masking. */
  lemma BeTop(n: nat, k: nat)
    requires k >= 1 && 2 * n < Pow256(k)
    ensures Be(n, k)[0] < 128
  {
    hide Be, FromBe;
    FromBeOfBe(n, k);
    TopBit(Be(n, k));
  }

  lemma TopStep(high: nat, low: nat, p: nat)
    requires p % 2 == 0 && low < 256
    ensures 2 * (256 * high + low) >= 256 * p <==> 2 * high >= p
  {
    var half := p / 2;
    assert p == 2 * half;
  }

  lemma TopByte(b: byte)
    ensures 2 * FromBe([b]) >= Pow256(1) <==> b >= 128
  {
    assert [b][..0] == [];
    assert FromBe([]) == 0 && Pow256(0) == 1;
  }

  lemma {:induction false} TopBit(b: seq<byte>)
    requires |b| >= 1
    ensures 2 * FromBe(b) >= Pow256(|b|) <==> b[0] >= 128
  {
    if |b| == 1 {
      assert b == [b[0]];
      TopByte(b[0]);
    } else {
      var front := b[..|b| - 1];
      TopBit(front);
      Pow256Even(|front|);
      TopStep(FromBe(front), b[|b| - 1], Pow256(|front|));
      assert FromBe(b) == 256 * FromBe(front) + b[|b| - 1];
      assert Pow256(|b|) == 256 * Pow256(|front|);
    }
  }
}
