/** The two NEWDECIMAL decoders: both invert the reference encoding, they agree wherever the stored
    sign is consistent, and the packet decoder consumes exactly the encoded size. */
module DecimalDecoders {
  import opened Prelude
  import opened Text
  import opened Bytes
  import opened Packets
  import opened Decimals

  // ----- both invert the encoding

  lemma {:induction false} GroupsTop(n: nat, k: nat)
    requires k >= 1
    ensures Groups(n, k)[0] < 128
  {
    hide Be;
    GroupsLast(n, k);
    if k == 1 {
      BillionIsPower();
      BeTop(n % BILLION, 4);
      assert Groups(n / BILLION, 0) == [];
    } else {
      GroupsTop(n / BILLION, k - 1);
    }
  }

  lemma CompressedTop(n: nat, d: nat)
    requires 1 <= d <= 9 && n < Pow10(d)
    ensures CompressedBytes(d) >= 1 && Be(n, CompressedBytes(d))[0] < 128
  {
    hide Be;
    CompressedFits(d, n);
    BeTop(n, CompressedBytes(d));
  }

  lemma LowerBound(n: nat, k: nat)
    ensures Lower(n, k) < Pow10(k)
  {
  }

  lemma PlainTop(n: nat, h: Shape)
    requires h.lead <= 9 && h.tail <= 8 && EncodedSize(h) >= 1
    requires n < Pow10(h.lead + 9 * h.whole + 9 * h.fraction + h.tail)
    ensures Plain(n, h)[0] < 128
  {
    hide Pow10, Be, Groups, Upper, Lower, CompressedBytes, Plain;
    PlainParts(n, h);
    var scale := 9 * h.fraction + h.tail;
    SplitNumber(n, h.lead + 9 * h.whole, scale);
    var integral, fractional := Upper(n, scale), Lower(n, scale);
    CompressedZero(h.lead);
    CompressedZero(h.tail);
    if h.lead > 0 {
      SplitNumber(integral, h.lead, 9 * h.whole);
      CompressedTop(Upper(integral, 9 * h.whole), h.lead);
    } else if h.whole > 0 {
      GroupsTop(Lower(integral, 9 * h.whole), h.whole);
    } else if h.fraction > 0 {
      GroupsTop(Upper(fractional, h.tail), h.fraction);
    } else {
      LowerBound(fractional, h.tail);
      CompressedTop(Lower(fractional, h.tail), h.tail);
    }
  }

  lemma ToggledBack(m: seq<byte>, rest: seq<byte>)
    requires |m| >= 1
    ensures (Toggled(m) + rest)[0] == Toggle(m[0]) && Toggled(Toggled(m) + rest) == m + rest
  {
    var b := Toggled(m) + rest;
    assert b[1..] == m[1..] + rest;
    assert m == [m[0]] + m[1..];
    assert [m[0]] + (m[1..] + rest) == m + rest;
  }

  lemma MaskHead(b: seq<byte>, negative: bool)
    requires |b| >= 1
    ensures Mask(b, negative)[0] == if negative then 255 - b[0] else b[0]
  {
  }

  /** The decoders' first step recovers the sign and the masked bytes. */
  lemma SignRecovered(negative: bool, plain: seq<byte>, rest: seq<byte>)
    requires |plain| >= 1 && plain[0] < 128
    ensures var b := Toggled(Mask(plain, negative)) + rest;
            (b[0] < 128 <==> negative) && Toggled(b) == Mask(plain, negative) + rest
  {
    hide Mask, Toggled;
    MaskHead(plain, negative);
    ToggledBack(Mask(plain, negative), rest);
  }

  lemma MaskedParts(a: seq<byte>, b: seq<byte>, c: seq<byte>, d: seq<byte>, negative: bool)
    ensures Mask(a + b + c + d, negative)
            == Mask(a, negative) + Mask(b, negative) + Mask(c, negative) + Mask(d, negative)
  {
    hide Mask;
    FlipConcat(a + b + c, d, negative);
    FlipConcat(a + b, c, negative);
    FlipConcat(a, b, negative);
  }

  /** The stored bytes fall into their four masked parts. */
  lemma PartsOfPlain(t: seq<byte>, h: Shape, n: nat, negative: bool, rest: seq<byte>)
    requires h.lead <= 9 && h.tail <= 8 && t == Mask(Plain(n, h), negative) + rest
    ensures var integral, fractional := Upper(n, 9 * h.fraction + h.tail), Lower(n, 9 * h.fraction + h.tail);
            Parts(t, h,
                  Mask(Be(Upper(integral, 9 * h.whole), CompressedBytes(h.lead)), negative),
                  Mask(Groups(Lower(integral, 9 * h.whole), h.whole), negative),
                  Mask(Groups(Upper(fractional, h.tail), h.fraction), negative),
                  Mask(Be(Lower(fractional, h.tail), CompressedBytes(h.tail)), negative))
  {
    hide Plain, Pow10, Be, Groups, Upper, Lower, CompressedBytes, Mask, Parts;
    PlainParts(n, h);
    var integral, fractional := Upper(n, 9 * h.fraction + h.tail), Lower(n, 9 * h.fraction + h.tail);
    var a := Be(Upper(integral, 9 * h.whole), CompressedBytes(h.lead));
    var b := Groups(Lower(integral, 9 * h.whole), h.whole);
    var c, d := Groups(Upper(fractional, h.tail), h.fraction), Be(Lower(fractional, h.tail), CompressedBytes(h.tail));
    MaskedParts(a, b, c, d, negative);
    FourParts(t, h, Mask(a, negative), Mask(b, negative), Mask(c, negative), Mask(d, negative), rest);
  }

  /** What both decoders return on the masked parts of a number. */
  lemma MaskedDecodes(t: seq<byte>, h: Shape, n: nat, negative: bool, rest: seq<byte>)
    requires h.lead <= 9 && h.tail <= 8 && EncodedSize(h) >= 1
    requires n < Pow10(h.lead + 9 * h.whole + 9 * h.fraction + h.tail)
    requires t == Mask(Plain(n, h), negative) + rest
    ensures var d := Ok(Decimal(negative, n, 9 * h.fraction + h.tail));
            && ParseDecimal(Join2(negative, LeadText(t, h, negative) + WholeText(t, h, negative),
                                  FractionText(t, h, negative) + TailText(t, h, negative))) == d
            && ParseDecimal(Join2(negative, UnsignedLead(t, h, negative) + WholeText(t, h, negative),
                                  FractionText(t, h, negative) + UnsignedTail(t, h, negative))) == d
  {
    hide Pow10, Be, Groups, Upper, Lower, CompressedBytes, Mask, ParseDecimal, Join2, Parts, Number, Pad, GroupValue,
         UnsignedValue, Plain, LeadText, WholeText, FractionText, TailText, UnsignedTail, UnsignedLead;
    var scale := 9 * h.fraction + h.tail;
    SplitNumber(n, h.lead + 9 * h.whole, scale);
    PartsOfPlain(t, h, n, negative, rest);
    var integral, fractional := Upper(n, scale), Lower(n, scale);
    var a := Mask(Be(Upper(integral, 9 * h.whole), CompressedBytes(h.lead)), negative);
    var b := Mask(Groups(Lower(integral, 9 * h.whole), h.whole), negative);
    var c := Mask(Groups(Upper(fractional, h.tail), h.fraction), negative);
    var d := Mask(Be(Lower(fractional, h.tail), CompressedBytes(h.tail)), negative);
    IntegralReads(t, h, integral, b, c, d, negative);
    FractionReads(t, h, fractional, a, b, c, negative);
    var y := FractionText(t, h, negative) + TailText(t, h, negative);
    SizeIsDigits(h);
    Recombine(negative, LeadText(t, h, negative) + WholeText(t, h, negative), y, integral, fractional, scale);
    Recombine(negative, UnsignedLead(t, h, negative) + WholeText(t, h, negative), y, integral, fractional, scale);
  }

  lemma SizeIsDigits(h: Shape)
    requires h.lead <= 9 && h.tail <= 8
    ensures EncodedSize(h) >= 1 <==> h.lead + h.whole + h.fraction + h.tail >= 1
  {
  }

  /** For every precision, scale and number of at most that many digits, of either sign and whatever
      follows, both decoders return the number. */
  lemma BothDecodersInvert(negative: bool, n: nat, precision: nat, scale: nat, rest: seq<byte>)
    requires 1 <= precision && scale <= precision && n < Pow10(precision)
    ensures var h := ShapeOf(precision, scale); var b := Encode(negative, n, h) + rest;
            && PacketDecimal(b, h) == Ok(Decimal(negative, n, scale))
            && BytesDecimal(b, h) == Ok(Decimal(negative, n, scale))
  {
    hide Pow10, Plain, ParseDecimal, Join2, LeadText, WholeText, FractionText, TailText, UnsignedTail, Toggled, Mask,
         Pad, UnsignedValue;
    hide EncodedSize, CompressedBytes;
    var h := ShapeOf(precision, scale);
    SizeIsDigits(h);
    PlainTop(n, h);
    SignRecovered(negative, Plain(n, h), rest);
    MaskedDecodes(Mask(Plain(n, h), negative) + rest, h, n, negative, rest);
  }

  // ----- on all inputs

  /** The leftover fractional digits carry the sign of the number, as every encoding does. */
  predicate TailConsistent(b: seq<byte>, h: Shape)
    requires h.lead <= 9 && h.tail <= 8 && |b| >= EncodedSize(h) && |b| >= 1
  {
    h.tail == 0 || SignMatches(TailBytes(Toggled(b), h), b[0] < 128)
  }

  lemma ToggledSign(b: seq<byte>, k: nat)
    requires 1 <= k <= |b|
    ensures SignMatches(Toggled(b)[..k], b[0] < 128)
  {
    hide FromBe, Pow256;
    TopBit(Toggled(b)[..k]);
  }

  /** A leading zero changes nothing. */
  lemma LeadingZero(negative: bool, x: string, y: string)
    requires x != "" || y != ""
    ensures Combine(negative, "0" + x, y) == Combine(negative, x, y)
  {
    hide Number;
    if AllDigits(x) && AllDigits(y) {
      assert "0" + x + y == "0" + (x + y);
      NumberConcat("0", x + y);
      NoLead(0, negative);
      assert AllDigits("0" + x);
    } else if !AllDigits(x) {
      var i :| 0 <= i < |x| && !IsDigit(x[i]);
      assert ("0" + x)[i + 1] == x[i];
    }
  }

  lemma IntegralTexts(b: seq<byte>, h: Shape)
    requires h.lead <= 9 && h.tail <= 8 && |b| >= 1 && |b| >= EncodedSize(h)
    ensures var t, negative := Toggled(b), b[0] < 128;
            var x := LeadText(t, h, negative) + WholeText(t, h, negative);
            var z := UnsignedLead(t, h, negative) + WholeText(t, h, negative);
            && '.' !in x && (x != "" ==> x[0] != '-') && '.' !in z && z != "" && z[0] != '-'
            && (if h.lead > 0 then x == z && x != "" else z == "0" + x && (x == "" <==> h.whole == 0))
  {
    hide Pad, GroupValue, UnsignedValue, GroupsText, SignMatches, Toggled, CompressedBytes;
    var t, negative := Toggled(b), b[0] < 128;
    var c := CompressedBytes(h.lead);
    CompressedZero(h.lead);
    GroupsTextCharacters(t[c..], h.whole, negative);
    PadCharacters(UnsignedValue(t[..c], negative), 0);
    if h.lead > 0 {
      ToggledSign(b, c);
      GroupReadersAgree(t[..c], negative);
    } else {
      assert t[..c] == Mask(Be(0, 0), negative);
      NoLead(0, negative);
      assert t[c..] == t;
      NoText(t, negative);
      if h.whole > 0 {
        ToggledSign(b, 4);
        GroupsTextHead(t, h.whole, negative);
      }
    }
  }

  lemma FractionTexts(b: seq<byte>, h: Shape)
    requires h.lead <= 9 && h.tail <= 8 && |b| >= 1 && |b| >= EncodedSize(h)
    ensures var t, negative := Toggled(b), b[0] < 128;
            var y := FractionText(t, h, negative) + TailText(t, h, negative);
            var w := FractionText(t, h, negative) + UnsignedTail(t, h, negative);
            && '.' !in y && '.' !in w && (y == "" <==> h.fraction + h.tail == 0)
            && (if TailConsistent(b, h) then y == w else !AllDigits(y))
  {
    hide Pad, GroupValue, UnsignedValue, GroupsText, SignMatches, Toggled, CompressedBytes, TailBytes;
    var t, negative := Toggled(b), b[0] < 128;
    CompressedZero(h.tail);
    NoText(t[CompressedBytes(h.lead) + 4 * h.whole..], negative);
    GroupsTextCharacters(t[CompressedBytes(h.lead) + 4 * h.whole..], h.fraction, negative);
    if h.tail > 0 {
      var bytes := TailBytes(t, h);
      PadCharacters(UnsignedValue(bytes, negative), h.tail);
      PadCharacters(GroupValue(bytes, negative), h.tail);
      GroupReadersAgree(bytes, negative);
      if !SignMatches(bytes, negative) {
        var f, s := FractionText(t, h, negative), Pad(GroupValue(bytes, negative), h.tail);
        assert (f + s)[|f|] == '-';
      }
    }
  }

  /** On every input of a column with digits, the packet decoder returns what the bytes decoder returns
      if the leftover fractional digits carry the right sign, and raises if they do not. */
  lemma DecodersAgree(b: seq<byte>, precision: nat, scale: nat)
    requires 1 <= precision && scale <= precision
    ensures var h := ShapeOf(precision, scale);
            if |b| < EncodedSize(h) then PacketDecimal(b, h) == Err(ShortData) && BytesDecimal(b, h) == Err(ShortData)
            else
              PacketDecimal(b, h) == if |b| >= 1 && TailConsistent(b, h) then BytesDecimal(b, h) else Err(InvalidText)
  {
    var h := ShapeOf(precision, scale);
    SizeIsDigits(h);
    if |b| >= EncodedSize(h) {
      hide EncodedSize, CompressedBytes, LeadText, WholeText, FractionText, TailText, UnsignedTail, ParseDecimal,
           Join2, Pad, UnsignedValue;
      hide TailConsistent, Toggled, Combine;
      var t, negative := Toggled(b), b[0] < 128;
      IntegralTexts(b, h);
      FractionTexts(b, h);
      var x := LeadText(t, h, negative) + WholeText(t, h, negative);
      var z := UnsignedLead(t, h, negative) + WholeText(t, h, negative);
      var y := FractionText(t, h, negative) + TailText(t, h, negative);
      CombineReads(negative, x, y);
      CombineReads(negative, z, FractionText(t, h, negative) + UnsignedTail(t, h, negative));
      if TailConsistent(b, h) {
        if h.lead == 0 { LeadingZero(negative, x, y); }
      } else {
        NotCombined(negative, x, y);
      }
    }
  }

  lemma NotCombined(negative: bool, x: string, y: string)
    requires !AllDigits(y)
    ensures Combine(negative, x, y) == Err(InvalidText)
  {
  }

  lemma SmallNumerals()
    ensures Digits(5) == "5" && Digits(255) == "255" && AllDigits("5255") && Number("5255") == 5255
  {
    assert Digits(25) == "25";
    var a, b, c, d := "5", "52", "525", "5255";
    assert d[..3] == c && c[..2] == b && b[..1] == a && a[..0] == "";
    assert Number(a) == 5;
    assert Number(b) == 52;
    assert Number(c) == 525;
  }

  lemma OneByte(x: byte)
    ensures FromBe([x]) == x && Pow256(1) == 256
  {
    assert [x][..0] == [];
    assert FromBe([]) == 0;
  }

  lemma DisagreeingTexts(t: seq<byte>, h: Shape)
    requires t == [5, 255] && h == Shape(1, 0, 0, 1)
    ensures UnsignedLead(t, h, false) + WholeText(t, h, false) == "5"
    ensures FractionText(t, h, false) + UnsignedTail(t, h, false) == "255"
    ensures !SignMatches(TailBytes(t, h), false)
  {
    hide Digits, FromBe, Pow256, GroupsText;
    SmallNumerals();
    OneByte(5);
    OneByte(255);
    NoText(t[1..], false);
    assert t[..1] == [5] && TailBytes(t, h) == [255];
  }

  lemma BytesSide(b: seq<byte>, h: Shape)
    requires |b| == 2 && b[0] >= 128 && Toggled(b) == [5, 255] && h == Shape(1, 0, 0, 1)
    ensures BytesDecimal(b, h) == Ok(Decimal(false, 5255, 3)) && EncodedSize(h) == 2 && !TailConsistent(b, h)
  {
    hide Number, Pad, UnsignedValue, WholeText, FractionText, UnsignedTail, ParseDecimal, Join2, SignMatches,
         TailBytes, Toggled;
    DisagreeingTexts(Toggled(b), h);
    hide CompressedBytes;
    SmallNumerals();
    CombineReads(false, "5", "255");
    assert "5" + "255" == "5255";
  }

  lemma TwoDigits(h: Shape)
    requires h == ShapeOf(2, 1)
    ensures h == Shape(1, 0, 0, 1)
  {
  }

  /** Two bytes whose one leftover digit has the wrong sign: the packet decoder raises, the other
      returns 5.255. */
  lemma DecodersDisagree(b: seq<byte>, h: Shape)
    requires b == [0x85, 0xFF] && h == ShapeOf(2, 1)
    ensures PacketDecimal(b, h) == Err(InvalidText) && BytesDecimal(b, h) == Ok(Decimal(false, 5255, 3))
  {
    assert Toggled(b) == [5, 255];
    hide PacketDecimal, BytesDecimal, EncodedSize, Toggled, TailConsistent;
    TwoDigits(h);
    BytesSide(b, h);
    DecodersAgree(b, 2, 1);
  }

  // ----- the decoders with their loops

  /** The bytes of a compressed group, each xor-ed with the mask. */
  method Decompress(data: seq<byte>, size: nat, negative: bool) returns (value: nat)
    requires size <= |data|
    ensures value == UnsignedValue(data[..size], negative)
  {
    var buffer: seq<byte> := [];
    for i := 0 to size
      invariant buffer == Mask(data[..i], negative)
    {
      buffer := buffer + [if negative then 255 - data[i] else data[i]];
    }
    value := FromBe(buffer);
  }

  method UnpackGroups(data: seq<byte>, k: nat, negative: bool) returns (r: Result<string, DecimalError>)
    ensures r == if |data| < 4 * k then Err(ShortData) else Ok(GroupsText(data, k, negative))
  {
    hide Pad, GroupValue;
    var res, position := "", 0;
    for i := 0 to k
      invariant position == 4 * i <= |data| && res == GroupsText(data, i, negative)
    {
      if |data| < position + 4 { return Err(ShortData); }
      res := res + Pad(GroupValue(data[position..position + 4], negative), 9);
      position := position + 4;
    }
    r := Ok(res);
  }

  lemma SizeParts(h: Shape)
    requires h.lead <= 9 && h.tail <= 8
    ensures EncodedSize(h) == CompressedBytes(h.lead) + 4 * h.whole + 4 * h.fraction + CompressedBytes(h.tail)
  {
  }

  method ParseDecimalFromBytes(raw: seq<byte>, precision: nat, decimals: nat) returns (r: Result<Decimal, DecimalError>)
    ensures r == BytesDecimal(raw, BytesShape(precision, decimals))
  {
    hide ParseDecimal, Toggled, Pad, UnsignedValue, GroupsText, CompressedBytes, EncodedSize;
    if |raw| < 1 { return Err(ShortData); }
    var h := BytesShape(precision, decimals);
    SizeParts(h);
    var negative, t := raw[0] < 128, Toggled(raw);
    var size := CompressedBytes(h.lead);
    if |t| < size { return Err(ShortData); }
    var lead := Decompress(t, size, negative);
    var whole := UnpackGroups(t[size..], h.whole, negative);
    if whole.Err? { return Err(ShortData); }
    var position := size + 4 * h.whole;
    var fraction := UnpackGroups(t[position..], h.fraction, negative);
    if fraction.Err? { return Err(ShortData); }
    position := position + 4 * h.fraction;
    size := CompressedBytes(h.tail);
    if |t| < position + size { return Err(ShortData); }
    var last := Decompress(t[position..], size, negative);
    var tail := if size > 0 then Pad(last, h.tail) else "";
    assert t[position..][..size] == TailBytes(t, h);
    r := ParseDecimal((if negative then "-" else "") + (Pad(lead, 0) + whole.value) + "." + (fraction.value + tail));
  }

  /** k nine-digit groups off the packet. */
  method ReadGroups(packet: Packet, k: nat, negative: bool) returns (r: Result<string, DecimalError>)
    requires packet.Valid()
    modifies packet
    ensures packet.Valid()
    ensures var b := old(packet.Remaining());
            if |b| < 4 * k then r == Err(ShortData)
            else r == Ok(GroupsText(b, k, negative)) && packet.Remaining() == b[4 * k..]
                 && packet.readBytes == old(packet.readBytes) + 4 * k
                 && |packet.buffer| == Monus(|old(packet.buffer)|, 4 * k)
  {
    hide Pad, GroupValue;
    ghost var b := packet.Remaining();
    var res := "";
    for i := 0 to k
      invariant packet.Valid() && 4 * i <= |b| && packet.Remaining() == b[4 * i..] && res == GroupsText(b, i, negative)
      invariant packet.readBytes == old(packet.readBytes) + 4 * i
      invariant |packet.buffer| == Monus(|old(packet.buffer)|, 4 * i)
    {
      var group := packet.Read(4);
      if group.Err? { return Err(ShortData); }
      assert group.value == b[4 * i..4 * (i + 1)];
      res := res + Pad(GroupValue(group.value, negative), 9);
    }
    r := Ok(res);
  }

  /** A compressed group off the packet, as a signed integer; nothing is read for no digits. */
  method ReadCompressed(packet: Packet, digits: nat, width: nat, negative: bool)
    returns (r: Result<string, DecimalError>)
    requires packet.Valid() && digits <= 9
    modifies packet
    ensures packet.Valid()
    ensures var b := old(packet.Remaining()); var c := CompressedBytes(digits);
            if |b| < c then r == Err(ShortData)
            else r == Ok(if c > 0 then Pad(GroupValue(b[..c], negative), width) else "") && packet.Remaining() == b[c..]
                 && packet.readBytes == old(packet.readBytes) + c
                 && |packet.buffer| == Monus(|old(packet.buffer)|, c)
  {
    hide Pad, SignedBe;
    var size := CompressedBytes(digits);
    if size == 0 { return Ok(""); }
    var v := packet.ReadIntBe(size);
    if v.Err? { return Err(ShortData); }
    r := Ok(Pad(Unmask(v.value.value, negative), width));
  }

  /** The four parts in order, with the point between the second and the third. */
  method ReadDigits(packet: Packet, h: Shape, negative: bool) returns (r: Result<string, DecimalError>)
    requires packet.Valid() && h.lead <= 9 && h.tail <= 8
    modifies packet
    ensures packet.Valid()
    ensures var t := old(packet.Remaining());
            if |t| < EncodedSize(h) then r == Err(ShortData)
            else r == Ok(Join2(negative, LeadText(t, h, negative) + WholeText(t, h, negative),
                               FractionText(t, h, negative) + TailText(t, h, negative)))
                 && packet.Remaining() == t[EncodedSize(h)..]
                 && packet.readBytes == old(packet.readBytes) + EncodedSize(h)
                 && |packet.buffer| == Monus(|old(packet.buffer)|, EncodedSize(h))
  {
    hide Pad, GroupValue, GroupsText, CompressedBytes, EncodedSize;
    SizeParts(h);
    ghost var t := packet.Remaining();
    var lead := ReadCompressed(packet, h.lead, 0, negative);
    if lead.Err? { return Err(ShortData); }
    ghost var p := CompressedBytes(h.lead);
    var whole := ReadGroups(packet, h.whole, negative);
    if whole.Err? { return Err(ShortData); }
    ghost var q := p + 4 * h.whole;
    DropTwice(t, p, 4 * h.whole);
    var fraction := ReadGroups(packet, h.fraction, negative);
    if fraction.Err? { return Err(ShortData); }
    ghost var s := q + 4 * h.fraction;
    DropTwice(t, q, 4 * h.fraction);
    var tail := ReadCompressed(packet, h.tail, h.tail, negative);
    if tail.Err? { return Err(ShortData); }
    DropTwice(t, s, CompressedBytes(h.tail));
    r := Ok(Join2(negative, lead.value + whole.value, fraction.value + tail.value));
  }

  /** The bytes to come after the first one was read, toggled and pushed back: behind all that was
      already waiting, and in front of what is ahead. */
  ghost function Requeued(waiting: seq<byte>, ahead: seq<byte>): (t: seq<byte>)
    requires |waiting + ahead| >= 1
    ensures |t| == |waiting| + |ahead|
  {
    if waiting == [] then [Toggle(ahead[0])] + ahead[1..] else waiting[1..] + [Toggle(waiting[0])] + ahead
  }

  /** The sign byte: read, toggled, pushed back. */
  method ReadSign(packet: Packet) returns (r: Result<bool, DecimalError>)
    requires packet.Valid()
    modifies packet
    ensures packet.Valid() && packet.readBytes == old(packet.readBytes) + (if r.Ok? then 0 else 1)
    ensures var b := old(packet.Remaining());
            if |b| < 1 then r == Err(ShortData)
            else
              && r == Ok(b[0] < 128)
              && |packet.buffer| == (if old(packet.buffer) == [] then 1 else |old(packet.buffer)|)
              && packet.Remaining() == Requeued(old(packet.buffer), packet.data[old(packet.pos)..])
  {
    ghost var waiting, ahead, b := packet.buffer, packet.data[packet.pos..], packet.Remaining();
    var first := packet.Read(1);
    if first.Err? { return Err(ShortData); }
    ghost var kept, left := packet.buffer, packet.data[packet.pos..];
    assert kept + left == b[1..];
    SplitAfterRead(waiting, ahead, kept, left);
    packet.Unread([Toggle(first.value[0])]);
    r := Ok(first.value[0] < 128);
  }

  lemma SplitAfterRead(waiting: seq<byte>, ahead: seq<byte>, kept: seq<byte>, left: seq<byte>)
    requires |waiting + ahead| >= 1 && kept + left == (waiting + ahead)[1..] && |kept| == Monus(|waiting|, 1)
    ensures if waiting == [] then kept == [] && left == ahead[1..] else kept == waiting[1..] && left == ahead
  {
    var t := (waiting + ahead)[1..];
    assert kept == t[..|kept|] && left == t[|kept|..];
  }

  /** The first byte gives the sign; its value, with that bit toggled, is pushed back to be read again.
      If nothing was waiting before it, exactly the encoded size is consumed. */
  method ReadNewDecimal(packet: Packet, precision: nat, decimals: nat) returns (r: Result<Decimal, DecimalError>)
    requires packet.Valid()
    modifies packet
    ensures packet.Valid()
    ensures var b, h := old(packet.Remaining()), PacketShape(precision, decimals);
            if |b| < 1 then r == Err(ShortData)
            else
              var t := Requeued(old(packet.buffer), packet.data[old(packet.pos)..]);
              && r == SignedDecimal(t, b[0] < 128, h)
              && (|b| >= EncodedSize(h) ==>
                    && packet.Remaining() == t[EncodedSize(h)..]
                    && packet.readBytes == old(packet.readBytes) + EncodedSize(h))
    ensures var b, h := old(packet.Remaining()), PacketShape(precision, decimals);
            old(packet.buffer) == [] ==>
              && r == PacketDecimal(b, h)
              && (EncodedSize(h) >= 1 && |b| >= EncodedSize(h) ==>
                    packet.buffer == [] && packet.Remaining() == b[EncodedSize(h)..])
  {
    hide ParseDecimal, Toggled, EncodedSize, LeadText, WholeText, FractionText, TailText, Join2;
    ghost var waiting, b := packet.buffer, packet.Remaining();
    var h := PacketShape(precision, decimals);
    var sign := ReadSign(packet);
    if sign.Err? { return Err(ShortData); }
    ghost var t := packet.Remaining();
    if waiting == [] {
      ToggledFirst(b);
      assert t == Toggled(b);
      assert 1 <= EncodedSize(h) <= |b| ==> t[EncodedSize(h)..] == b[EncodedSize(h)..];
    }
    var text := ReadDigits(packet, h, sign.value);
    if text.Err? { return Err(ShortData); }
    r := ParseDecimal(text.value);
  }

  lemma ToggledFirst(b: seq<byte>)
    requires |b| >= 1
    ensures Toggled(b) == [Toggle(b[0])] + b[1..]
  {
  }
}
