/** Opaque values inside binary JSON (pymysqlreplication/json_binary.py and util/bytes.py): decimals, and
    times and dates packed into 64-bit integers. */
module JsonOpaque {
  import opened Prelude
  import opened Bytes
  import opened Decimals

  /** A value of a MySQL type that JSON lacks; the text of all other types is kept as its bytes. */
  datatype OpaqueValue =
    | OpaqueDecimal(d: Decimal)
    | OpaqueTime(clock: Clock)
    | OpaqueDate(day: Day, clock: Clock)
    | ZeroDate
    | OpaqueText(raw: seq<byte>)

  datatype Clock = Clock(hour: nat, minute: nat, second: nat, micros: nat)

  datatype Day = Day(year: nat, month: nat, day: nat)

  datatype OpaqueError = ShortOpaque | OutOfRange

  // ----- what Python's time and datetime accept

  predicate ValidClock(c: Clock) { c.hour < 24 && c.minute < 60 && c.second < 60 && c.micros < 1_000_000 }

  predicate Leap(year: nat) { year % 4 == 0 && (year % 100 != 0 || year % 400 == 0) }

  function DaysIn(year: nat, month: nat): nat
  {
    if month == 2 then (if Leap(year) then 29 else 28)
    else if month == 4 || month == 6 || month == 9 || month == 11 then 30
    else 31
  }

  predicate ValidDay(d: Day) { 1 <= d.year <= 9999 && 1 <= d.month <= 12 && 1 <= d.day <= DaysIn(d.year, d.month) }

  /** The calendar itself: months of fixed length, and a leap day in every fourth year but three in four
      hundred. */
  predicate InCalendar(d: Day)
  {
    && 1 <= d.year <= 9999 && 1 <= d.month <= 12 && 1 <= d.day
    && (d.day <= [31, 28, 31, 30, 31, 30, 31, 31, 30, 31, 30, 31][d.month - 1]
        || (d.month == 2 && d.day == 29 && d.year % 4 == 0 && d.year % 400 !in {100, 200, 300}))
  }

  lemma CalendarIsValid(d: Day)
    ensures InCalendar(d) <==> ValidDay(d)
  {
    if 1 <= d.month <= 12 {
      var days := [31, 28, 31, 30, 31, 30, 31, 31, 30, 31, 30, 31];
      assert days[0] == 31 && days[1] == 28 && days[2] == 31 && days[3] == 30 && days[4] == 31 && days[5] == 30;
      assert days[6] == 31 && days[7] == 31 && days[8] == 30 && days[9] == 31 && days[10] == 30 && days[11] == 31;
      LeapYears(d.year);
    }
  }

  lemma LeapYears(year: nat)
    ensures Leap(year) <==> year % 4 == 0 && year % 400 !in {100, 200, 300}
  {
    var q, r := year / 400, year % 400;
    var s, t := r / 100, r % 100;
    assert year == (4 * q + s) * 100 + t && r == 100 * s + t && s <= 3;
    Unpacked(4 * q + s, t, 100);
    assert year % 100 == t;
  }

  // ----- unpacking

  const TWO_24: nat := 0x100_0000
  const TWO_17: nat := 0x2_0000

  function Magnitude(v: int): nat { if v < 0 then -v else v }

  /** The sign of a packed time is dropped. */
  function UnpackTime(v: int): Result<OpaqueValue, OpaqueError>
  {
    if v == 0 then Ok(OpaqueTime(Clock(0, 0, 0, 0)))
    else
      var high, micros := Magnitude(v) / TWO_24, Magnitude(v) % TWO_24;
      var c := Clock(high / 4096 % 1024, high / 64 % 64, high % 64, micros);
      if ValidClock(c) then Ok(OpaqueTime(c)) else Err(OutOfRange)
  }

  function UnpackDate(v: int): Result<OpaqueValue, OpaqueError>
  {
    if v == 0 then Ok(ZeroDate)
    else
      var high, micros := Magnitude(v) / TWO_24, Magnitude(v) % TWO_24;
      var ymd, hms := high / TWO_17, high % TWO_17;
      var d := Day(ymd / 32 / 13, ymd / 32 % 13, ymd % 32);
      var c := Clock(hms / 4096, hms / 64 % 64, hms % 64, micros);
      if ValidDay(d) && ValidClock(c) then Ok(OpaqueDate(d, c)) else Err(OutOfRange)
  }

  function ParsePacked(data: seq<byte>): Result<int, OpaqueError>
  {
    if |data| < 8 then Err(ShortOpaque) else Ok(AsSigned(FromLe(data[..8]), 8))
  }

  /** decode_decimal: two bytes of precision and scale, then the stored number. */
  function ParseDecimalValue(data: seq<byte>): Result<OpaqueValue, OpaqueError>
  {
    if |data| < 2 then Err(ShortOpaque)
    else
      match BytesDecimal(data[2..], BytesShape(data[0], data[1]))
      case Ok(d) => Ok(OpaqueDecimal(d))
      case Err(ShortData) => Err(ShortOpaque)
      case Err(InvalidText) => Err(OutOfRange)
  }

  predicate IsDecimal(field: byte) { field == 0 || field == 246 }
  predicate IsTime(field: byte) { field == 11 || field == 19 }
  predicate IsDate(field: byte) { field == 10 || field == 12 || field == 18 }

  function DecodeOpaque(field: byte, data: seq<byte>): Result<OpaqueValue, OpaqueError>
  {
    if IsDecimal(field) then ParseDecimalValue(data)
    else if IsTime(field) then
      match ParsePacked(data)
      case Ok(v) => UnpackTime(v)
      case Err(e) => Err(e)
    else if IsDate(field) then
      match ParsePacked(data)
      case Ok(v) => UnpackDate(v)
      case Err(e) => Err(e)
    else Ok(OpaqueText(data))
  }

  // ----- packing, as MySQL stores these types

  function PackClock(c: Clock): nat { c.hour * 4096 + c.minute * 64 + c.second }

  function PackTime(c: Clock): nat { PackClock(c) * TWO_24 + c.micros }

  function PackDay(d: Day): nat { (d.year * 13 + d.month) * 32 + d.day }

  function PackDate(d: Day, c: Clock): nat { (PackDay(d) * TWO_17 + PackClock(c)) * TWO_24 + c.micros }

  lemma Unpacked(a: nat, b: nat, p: nat)
    requires b < p
    ensures (a * p + b) / p == a && (a * p + b) % p == b
  {
    var q, r := (a * p + b) / p, (a * p + b) % p;
    assert q * p + r == a * p + b;
    Apart(q, a, p);
    Apart(a, q, p);
  }

  lemma {:induction false} Apart(a: nat, b: nat, p: nat)
    ensures a < b ==> a * p + p <= b * p
    decreases b
  {
    if a < b {
      Apart(a, b - 1, p);
      assert b * p == (b - 1) * p + p;
    }
  }

  lemma ClockUnpacked(c: Clock)
    requires c.minute < 64 && c.second < 64
    ensures PackClock(c) / 4096 == c.hour && PackClock(c) / 64 % 64 == c.minute && PackClock(c) % 64 == c.second
  {
    var high := c.hour * 64 + c.minute;
    assert PackClock(c) == high * 64 + c.second;
    Unpacked(high, c.second, 64);
    Unpacked(c.hour, c.minute, 64);
    Unpacked(c.hour, c.minute * 64 + c.second, 4096);
  }

  function WithSign(negative: bool, n: nat): int { if negative then 0 - n else n }

  /** A packed time is read back exactly when it is a time of day; a negative one loses its sign. */
  lemma TimeRoundTrip(c: Clock, negative: bool)
    requires c.hour < 1024 && c.minute < 60 && c.second < 60 && c.micros < 1_000_000
    ensures UnpackTime(WithSign(negative, PackTime(c))) == if c.hour < 24 then Ok(OpaqueTime(c)) else Err(OutOfRange)
  {
    ClockUnpacked(c);
    Unpacked(PackClock(c), c.micros, TWO_24);
    if PackTime(c) == 0 {
      ZeroClock(c);
    } else {
      hide PackClock;
      assert Magnitude(WithSign(negative, PackTime(c))) == PackClock(c) * TWO_24 + c.micros;
    }
  }

  lemma ZeroClock(c: Clock)
    requires PackTime(c) == 0
    ensures c == Clock(0, 0, 0, 0)
  {
  }

  lemma DayUnpacked(d: Day)
    requires ValidDay(d)
    ensures PackDay(d) / 32 / 13 == d.year && PackDay(d) / 32 % 13 == d.month
    ensures PackDay(d) % 32 == d.day && PackDay(d) > 0
  {
    Unpacked(d.year * 13 + d.month, d.day, 32);
    Unpacked(d.year, d.month, 13);
  }

  lemma ClockBound(c: Clock)
    requires ValidClock(c)
    ensures PackClock(c) < TWO_17
  {
  }

  /** A packed date and time of the calendar is read back. */
  lemma DateRoundTrip(d: Day, c: Clock)
    requires ValidDay(d) && ValidClock(c)
    ensures UnpackDate(PackDate(d, c)) == Ok(OpaqueDate(d, c))
  {
    DayUnpacked(d);
    ClockUnpacked(c);
    ClockBound(c);
    hide PackDay, PackClock;
    Unpacked(PackDay(d) * TWO_17 + PackClock(c), c.micros, TWO_24);
    Unpacked(PackDay(d), PackClock(c), TWO_17);
  }
}
