/** The cursor over one binlog event (pymysqlreplication/packet.py): reading, pushing back, skipping,
    and the integer readers built on them. */
module Packets {
  import opened Prelude
  import opened Bytes

  /** The bytes ended early, or a format string did not match the bytes it was given. */
  datatype PacketError = Short | BadFormat

  function SignedLe(b: seq<byte>): int { AsSigned(FromLe(b), |b|) }
  function SignedBe(b: seq<byte>): int { AsSigned(FromBe(b), |b|) }

  /** What the big-endian reader makes of the bytes it took: 1 to 4 bytes are signed, 5 are not; for 8
      it unpacks with ">l", whose standard size is 4, and for other sizes it returns nothing. */
  function IntBe(b: seq<byte>): Result<Option<int>, PacketError>
  {
    if 1 <= |b| <= 4 then Ok(Some(SignedBe(b)))
    else if |b| == 5 then Ok(Some(FromBe(b)))
    else if |b| == 8 then Err(BadFormat)
    else Ok(None)
  }

  /** What is left of a after taking away up to n. */
  function Monus(a: nat, n: nat): nat { if n <= a then a - n else 0 }

  lemma Spliced(a: seq<byte>, b: seq<byte>, n: nat)
    requires n <= |a| + |b|
    ensures if n <= |a| then (a + b)[..n] == a[..n] && (a + b)[n..] == a[n..] + b
            else (a + b)[..n] == a + b[..n - |a|] && (a + b)[n..] == b[n - |a|..]
  {
  }

  lemma DropTwice(t: seq<byte>, p: nat, k: nat)
    requires p + k <= |t|
    ensures t[p..][..k] == t[p..p + k] && t[p..][k..] == t[p + k..]
  {
  }

  class Packet {
    const data: seq<byte>
    var pos: nat
    var buffer: seq<byte>
    var readBytes: int

    ghost predicate Valid() reads this { pos <= |data| }

    /** What is still to be read. */
    ghost function Remaining(): seq<byte> reads this requires Valid() { buffer + data[pos..] }

    constructor (data: seq<byte>)
      ensures Valid() && Remaining() == data && buffer == [] && readBytes == 0
    {
      this.data := data;
      pos, buffer, readBytes := 0, [], 0;
    }

    /** The wrapped packet refuses a short read. */
    method Raw(n: nat) returns (r: Result<seq<byte>, PacketError>)
      requires Valid()
      modifies this`pos
      ensures Valid()
      ensures if old(pos) + n <= |data| then r == Ok(data[old(pos)..old(pos) + n]) && pos == old(pos) + n
              else r == Err(Short) && pos == old(pos)
    {
      if pos + n > |data| { return Err(Short); }
      r := Ok(data[pos..pos + n]);
      pos := pos + n;
    }

    /** The next n bytes, pushed-back ones first. */
    method Read(n: nat) returns (r: Result<seq<byte>, PacketError>)
      requires Valid()
      modifies this
      ensures Valid() && readBytes == old(readBytes) + n
      ensures if n <= |old(Remaining())| then r == Ok(old(Remaining())[..n]) && Remaining() == old(Remaining())[n..]
              else r == Err(Short)
      ensures |buffer| == Monus(|old(buffer)|, n)
    {
      ghost var waiting, ahead := buffer, data[pos..];
      if n <= |waiting| + |ahead| { Spliced(waiting, ahead, n); }
      readBytes := readBytes + n;
      if |buffer| > 0 {
        var cut := if n <= |buffer| then n else |buffer|;
        var front := buffer[..cut];
        buffer := buffer[cut..];
        if |front| == n { return Ok(front); }
        assert front == waiting;
        var more := this.Raw(n - |front|);
        if more.Err? { return more; }
        DropTwice(data, old(pos), n - |front|);
        assert buffer == [] && buffer + data[pos..] == data[pos..];
        r := Ok(front + more.value);
      } else {
        assert waiting + ahead == ahead;
        r := this.Raw(n);
        assert buffer + data[pos..] == data[pos..];
        if r.Ok? { DropTwice(data, old(pos), n); }
      }
    }

    /** Push-back goes behind whatever was pushed back before. */
    method Unread(b: seq<byte>)
      requires Valid()
      modifies this`buffer, this`readBytes
      ensures Valid() && readBytes == old(readBytes) - |b| && buffer == old(buffer) + b
      ensures old(buffer) == [] ==> Remaining() == b + old(Remaining())
    {
      readBytes := readBytes - |b|;
      buffer := buffer + b;
    }

    method Advance(n: nat) returns (error: Option<PacketError>)
      requires Valid()
      modifies this
      ensures Valid() && readBytes == old(readBytes) + n
      ensures if n <= |old(Remaining())| then error == None && Remaining() == old(Remaining())[n..]
              else error == Some(Short)
    {
      readBytes := readBytes + n;
      var had := |buffer|;
      var skip := n;
      if had > 0 {
        buffer := if n <= had then buffer[n..] else [];
        if n <= had { return None; }
        skip := n - had;
      }
      if pos + skip > |data| { return Some(Short); }
      pos := pos + skip;
      error := None;
    }

    method ReadIntBe(size: nat) returns (r: Result<Option<int>, PacketError>)
      requires Valid()
      modifies this
      ensures Valid()
      ensures if size in {1, 2, 3, 4, 5, 8} then
                readBytes == old(readBytes) + size
                && |buffer| == Monus(|old(buffer)|, size)
                && if |old(Remaining())| < size then r == Err(Short)
                   else r == IntBe(old(Remaining())[..size]) && Remaining() == old(Remaining())[size..]
              else
                r == Ok(None) && Remaining() == old(Remaining()) && readBytes == old(readBytes)
    {
      if size in {1, 2, 3, 4, 5, 8} {
        var b := Read(size);
        if b.Err? { return Err(b.error); }
        r := IntBe(b.value);
      } else {
        r := Ok(None);
      }
    }
  }

  /** Big-endian two's complement of one to four bytes, plain binary of five; eight bytes cannot be read. */
  lemma IntBeReads(n: int, k: nat)
    requires var p: int := Pow256(k); (1 <= k <= 4 && -p <= 2 * n < p) || (k == 5 && 0 <= n < p)
    ensures TwosComplement(n, k) >= 0 && IntBe(Be(TwosComplement(n, k), k)) == Ok(Some(n))
  {
    hide Be, FromBe, Pow256;
    FromBeOfBe(TwosComplement(n, k), k);
  }

  lemma EightBytesFail(b: seq<byte>)
    requires |b| == 8
    ensures IntBe(b).Err?
  {
  }

  /** A pushed-back byte comes next again exactly when nothing else, or only the same byte, waits. */
  lemma PushBackRestores(buffer: seq<byte>, b: byte, rest: seq<byte>)
    ensures buffer + [b] + rest == [b] + (buffer + rest) <==> forall i :: 0 <= i < |buffer| ==> buffer[i] == b
  {
    if buffer + [b] + rest == [b] + (buffer + rest) {
      var left, right := buffer + [b] + rest, [b] + (buffer + rest);
      AllEqual(buffer, b, left, right, |buffer|);
    }
    if forall i :: 0 <= i < |buffer| ==> buffer[i] == b {
      assert buffer + [b] == [b] + buffer;
      assert buffer + [b] + rest == [b] + buffer + rest;
      assert [b] + buffer + rest == [b] + (buffer + rest);
    }
  }

  lemma {:induction false} AllEqual(buffer: seq<byte>, b: byte, left: seq<byte>, right: seq<byte>, n: nat)
    requires n <= |buffer| && left == right && |left| > |buffer|
    requires forall i :: 0 <= i < |buffer| ==> left[i] == buffer[i]
    requires right[0] == b && forall i :: 0 <= i < |buffer| ==> right[i + 1] == buffer[i]
    ensures forall i :: 0 <= i < n ==> buffer[i] == b
  {
    if n > 0 {
      AllEqual(buffer, b, left, right, n - 1);
      if n > 1 { assert right[n - 2 + 1] == buffer[n - 2]; }
    }
  }
}
