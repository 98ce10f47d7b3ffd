/** Byte streams between the backend and its helper: big-endian integers and exact reads. */
module Wire {
  import opened Wrappers

  type Byte = b: int | 0 <= b < 256

  type Bytes = seq<Byte>

  // ----- big-endian integers -----

  function Power256(width: nat): (r: nat)
    ensures r >= 1
  {
    if width == 0 then 1 else 256 * Power256(width - 1)
  }

  function BigEndian(n: nat, width: nat): (r: Bytes)
    ensures |r| == width
  {
    if width == 0 then [] else BigEndian(n / 256, width - 1) + [n % 256]
  }

  function FromBigEndian(s: Bytes): (n: nat)
    ensures n < Power256(|s|)
  {
    if s == [] then 0 else FromBigEndian(s[..|s| - 1]) * 256 + s[|s| - 1]
  }

  lemma {:induction false} BigEndianReads(n: nat, width: nat)
    requires n < Power256(width)
    ensures FromBigEndian(BigEndian(n, width)) == n
  {
    if width > 0 {
      BigEndianReads(n / 256, width - 1);
      assert BigEndian(n, width)[..width - 1] == BigEndian(n / 256, width - 1);
    }
  }

  lemma {:induction false} BigEndianWrites(s: Bytes)
    ensures BigEndian(FromBigEndian(s), |s|) == s
  {
    if s != [] {
      var front := s[..|s| - 1];
      BigEndianWrites(front);
      assert FromBigEndian(s) / 256 == FromBigEndian(front) && FromBigEndian(s) % 256 == s[|s| - 1];
      assert s == front + [s[|s| - 1]];
    }
  }

  /** The first byte weighs most: a number is its leading bytes shifted by the width of the rest, plus the rest. */
  lemma {:induction false} BigEndianIsPositional(front: Bytes, back: Bytes)
    ensures FromBigEndian(front + back) == FromBigEndian(front) * Power256(|back|) + FromBigEndian(back)
  {
    if back == [] {
      assert front + back == front;
    } else {
      var last := |back| - 1;
      BigEndianIsPositional(front, back[..last]);
      assert (front + back)[..|front| + last] == front + back[..last];
      ShiftAgain(FromBigEndian(front), Power256(last), FromBigEndian(back[..last]), back[last]);
    }
  }

  lemma ShiftAgain(high: nat, weight: nat, low: nat, digit: Byte)
    ensures (high * weight + low) * 256 + digit == high * (256 * weight) + (low * 256 + digit)
  {
  }

  const I32_MIN := -0x8000_0000
  const I32_MAX := 0x7fff_ffff

  predicate IsI32(n: int) { I32_MIN <= n <= I32_MAX }

  /** A signed 32-bit integer in two's complement. */
  function BigEndianI32(n: int): (r: Bytes)
    requires IsI32(n)
    ensures |r| == 4
  {
    BigEndian(if n < 0 then n + 0x1_0000_0000 else n, 4)
  }

  lemma Power256Is()
    ensures Power256(2) == 0x1_0000 && Power256(4) == 0x1_0000_0000 && Power256(8) == 0x1_0000_0000_0000_0000
  {
    assert Power256(1) == 256 && Power256(2) == 65536 && Power256(3) == 16777216;
    assert Power256(4) == 0x1_0000_0000 && Power256(5) == 0x1_0000_0000_00;
    assert Power256(6) == 0x1_0000_0000_0000 && Power256(7) == 0x1_0000_0000_0000_00;
  }

  function FromBigEndianI32(s: Bytes): (n: int)
    requires |s| == 4
    ensures IsI32(n)
  {
    Power256Is();
    var raw := FromBigEndian(s);
    if raw > I32_MAX then raw - 0x1_0000_0000 else raw
  }

  lemma BigEndianI32RoundTrip(n: int, s: Bytes)
    requires IsI32(n) && |s| == 4
    ensures FromBigEndianI32(BigEndianI32(n)) == n
    ensures BigEndianI32(FromBigEndianI32(s)) == s
  {
    Power256Is();
    BigEndianReads(if n < 0 then n + 0x1_0000_0000 else n, 4);
    BigEndianWrites(s);
  }

  // ----- exact reads -----

  /** The next `n` bytes of a stream and what follows them; `None` at a short stream. */
  function Take(stream: Bytes, n: nat): (r: Option<(Bytes, Bytes)>)
    ensures r.Some? <==> n <= |stream|
    ensures r.Some? ==> |r.value.0| == n && r.value.0 + r.value.1 == stream && |r.value.1| == |stream| - n
  {
    if n <= |stream| then Some((stream[..n], stream[n..])) else None
  }

  /** A written chunk is taken back whole. */
  lemma TakeWritten(chunk: Bytes, rest: Bytes)
    ensures Take(chunk + rest, |chunk|) == Some((chunk, rest))
  {
  }

  /** A mutable stream: reading advances it; a short read consumes what is left. */
  class Reader {
    var pending: Bytes

    constructor (bytes: Bytes)
      ensures pending == bytes
    {
      pending := bytes;
    }

    method ReadExact(n: nat) returns (r: Option<Bytes>)
      modifies this
      ensures r.Some? <==> Take(old(pending), n).Some?
      ensures r.Some? ==> (r.value, pending) == Take(old(pending), n).value
      ensures r.None? ==> pending == []
    {
      if n > |pending| {
        pending := [];
        return None;
      }
      r := Some(pending[..n]);
      pending := pending[n..];
    }
  }
}
