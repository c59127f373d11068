/** The private-address test of the registration endpoint check.

    The program compares an address with the two ends of a block byte by byte. That is not the same
    as comparing 32-bit numbers; this module says for exactly which blocks the two agree. */
module PrivateRange {
  import opened MeshTypes

  type Byte = n: int | 0 <= n < 256

  /** Big-endian weight of the byte in front of `n` others. */
  function Weight(n: nat): (w: nat)
    ensures w > 0
  {
    if n == 0 then 1 else 256 * Weight(n - 1)
  }

  /** The number an address stands for, first byte most significant. */
  function Numeric(ip: seq<Byte>): nat {
    if ip == [] then 0 else ip[0] * Weight(|ip| - 1) + Numeric(ip[1..])
  }

  ghost predicate InBox(ip: seq<Byte>, start: seq<Byte>, end: seq<Byte>)
    requires |ip| <= |start| && |ip| <= |end|
  {
    forall i :: 0 <= i < |ip| ==> start[i] <= ip[i] <= end[i]
  }

  ghost predicate InInterval(ip: seq<Byte>, start: seq<Byte>, end: seq<Byte>) {
    Numeric(start) <= Numeric(ip) <= Numeric(end)
  }

  /** The tail of a block whose remaining bytes are free: zeros at the start, 255s at the end. */
  predicate FreeTail(start: seq<Byte>, end: seq<Byte>)
    requires |start| == |end|
  {
    forall i :: 0 <= i < |start| ==> start[i] == 0 && end[i] == 255
  }

  /** A shared prefix, then at most one byte that varies, then free bytes. */
  predicate Aligned(start: seq<Byte>, end: seq<Byte>)
    requires |start| == |end|
  {
    if start == [] then true
    else if start[0] == end[0] then Aligned(start[1..], end[1..])
    else start[0] < end[0] && FreeTail(start[1..], end[1..])
  }

  method BytesInRange(ip: seq<Byte>, start: seq<Byte>, end: seq<Byte>) returns (inside: bool)
    requires |ip| <= |start| && |ip| <= |end|
    ensures inside <==> InBox(ip, start, end)
  {
    for i := 0 to |ip|
      invariant forall j :: 0 <= j < i ==> start[j] <= ip[j] <= end[j]
    {
      if ip[i] < start[i] {
        return false;
      }
      if ip[i] > end[i] {
        return false;
      }
    }
    return true;
  }

  lemma LeadingDigitDecides(a: nat, b: nat, weight: nat, rest: nat)
    requires a < b && rest < weight
    ensures a * weight + rest < b * weight
  {
    assert b * weight == a * weight + weight + (b - a - 1) * weight;
  }

  lemma {:induction false} NumericBound(x: seq<Byte>)
    ensures Numeric(x) < Weight(|x|)
  {
    if x != [] {
      NumericBound(x[1..]);
      LeadingDigitDecides(x[0], 256, Weight(|x| - 1), Numeric(x[1..]));
    }
  }

  /** The first byte that differs decides the numeric order. */
  lemma FirstByteDecides(a: seq<Byte>, b: seq<Byte>)
    requires |a| == |b| > 0 && a[0] < b[0]
    ensures Numeric(a) < Numeric(b)
  {
    NumericBound(a[1..]);
    LeadingDigitDecides(a[0], b[0], Weight(|a| - 1), Numeric(a[1..]));
  }

  lemma {:induction false} NumericMonotone(a: seq<Byte>, b: seq<Byte>)
    requires |a| == |b|
    requires forall i :: 0 <= i < |a| ==> a[i] <= b[i]
    ensures Numeric(a) <= Numeric(b)
  {
    if a != [] {
      NumericMonotone(a[1..], b[1..]);
      assert a[0] * Weight(|a| - 1) <= b[0] * Weight(|a| - 1);
    }
  }

  /** On an aligned block the two tests agree, for addresses of every length. */
  lemma {:induction false} AlignedTestsAgree(ip: seq<Byte>, start: seq<Byte>, end: seq<Byte>)
    requires |ip| == |start| == |end| && Aligned(start, end)
    ensures InBox(ip, start, end) <==> InInterval(ip, start, end)
  {
    if ip == [] {
    } else if ip[0] < start[0] {
      FirstByteDecides(ip, start);
    } else if ip[0] > end[0] {
      FirstByteDecides(end, ip);
    } else if start[0] == end[0] {
      AlignedTestsAgree(ip[1..], start[1..], end[1..]);
      if InBox(ip, start, end) {
        assert forall i :: 0 <= i < |ip[1..]| ==> ip[1..][i] == ip[i + 1];
        assert InBox(ip[1..], start[1..], end[1..]);
      }
      if InBox(ip[1..], start[1..], end[1..]) {
        assert forall i :: 0 < i < |ip| ==>
          ip[i] == ip[1..][i - 1] && start[i] == start[1..][i - 1] && end[i] == end[1..][i - 1];
      }
    } else {
      assert forall i :: 0 < i < |ip| ==> start[i] == start[1..][i - 1] && end[i] == end[1..][i - 1];
      assert InBox(ip, start, end);
      NumericMonotone(start, ip);
      NumericMonotone(ip, end);
    }
  }

  /** A block that is not aligned contains, as a numeric interval, an address the byte test rejects. */
  lemma {:induction false} UnalignedTestsDiffer(start: seq<Byte>, end: seq<Byte>) returns (ip: seq<Byte>)
    requires |start| == |end| && Numeric(start) <= Numeric(end) && !Aligned(start, end)
    ensures |ip| == |start| && InInterval(ip, start, end) && !InBox(ip, start, end)
  {
    if start[0] == end[0] {
      var rest := UnalignedTestsDiffer(start[1..], end[1..]);
      ip := [start[0]] + rest;
      assert ip[1..] == rest;
      var i :| 0 <= i < |rest| && !(start[1..][i] <= rest[i] <= end[1..][i]);
      assert ip[i + 1] == rest[i];
    } else if end[0] < start[0] {
      FirstByteDecides(end, start);
      assert false;
    } else {
      var j :| 0 <= j < |start| - 1 && !(start[1..][j] == 0 && end[1..][j] == 255);
      if start[j + 1] != 0 {
        ip := end[j + 1 := 0];
        FirstByteDecides(start, ip);
        NumericMonotone(ip, end);
        assert !(start[j + 1] <= ip[j + 1]);
      } else {
        ip := start[j + 1 := 255];
        FirstByteDecides(ip, end);
        NumericMonotone(start, ip);
        assert !(ip[j + 1] <= end[j + 1]);
      }
    }
  }

  /** The exact condition: the byte test is the numeric test for every address if and only if the
      block is empty or aligned. */
  lemma TestsAgreeExactlyOnAlignedBlocks(start: seq<Byte>, end: seq<Byte>)
    requires |start| == |end|
    ensures (forall ip: seq<Byte> | |ip| == |start| :: InBox(ip, start, end) <==> InInterval(ip, start, end))
       <==> (Numeric(start) > Numeric(end) || Aligned(start, end))
  {
    if Numeric(start) > Numeric(end) {
      forall ip: seq<Byte> | |ip| == |start|
        ensures InBox(ip, start, end) <==> InInterval(ip, start, end)
      {
        if InBox(ip, start, end) {
          NumericMonotone(start, ip);
          NumericMonotone(ip, end);
          assert false;
        }
      }
    } else if Aligned(start, end) {
      forall ip: seq<Byte> | |ip| == |start|
        ensures InBox(ip, start, end) <==> InInterval(ip, start, end)
      {
        AlignedTestsAgree(ip, start, end);
      }
    } else {
      var ip := UnalignedTestsDiffer(start, end);
    }
  }

  /** A concrete block on which the two tests differ: 10.0.5.0 to 10.1.7.255 and the address 10.0.9.0. */
  lemma ByteTestIsNotNumericInGeneral()
    ensures InInterval([10, 0, 9, 0], [10, 0, 5, 0], [10, 1, 7, 255])
    ensures !InBox([10, 0, 9, 0], [10, 0, 5, 0], [10, 1, 7, 255])
  {
    var ip: seq<Byte> := [10, 0, 9, 0];
    var end: seq<Byte> := [10, 1, 7, 255];
    FourByteNumber(10, 0, 9, 0);
    FourByteNumber(10, 0, 5, 0);
    FourByteNumber(10, 1, 7, 255);
    assert !(ip[2] <= end[2]);
  }

  lemma FourByteNumber(a: Byte, b: Byte, c: Byte, d: Byte)
    ensures Numeric([a, b, c, d]) == a * 0x100_0000 + b * 0x1_0000 + c * 0x100 + d
  {
    var ip0: seq<Byte>, ip1: seq<Byte>, ip2: seq<Byte>, ip3: seq<Byte> := [a, b, c, d], [b, c, d], [c, d], [d];
    assert ip0[1..] == ip1 && ip1[1..] == ip2 && ip2[1..] == ip3 && ip3[1..] == [];
    assert Weight(0) == 1;
    assert Weight(1) == 0x100;
    assert Weight(2) == 0x1_0000;
    assert Weight(3) == 0x100_0000;
    assert Numeric(ip3) == d;
    assert Numeric(ip2) == c * 0x100 + d;
    assert Numeric(ip1) == b * 0x1_0000 + c * 0x100 + d;
  }

  /** The three blocks of section 3 of RFC 1918 as 32-bit numbers. */
  predicate InPrivateBlock(address: nat) {
    || 0x0A00_0000 <= address <= 0x0AFF_FFFF
    || 0xAC10_0000 <= address <= 0xAC1F_FFFF
    || 0xC0A8_0000 <= address <= 0xC0A8_FFFF
  }

  /** The same blocks as they are written: 10.x.x.x, 172.16.x.x to 172.31.x.x, and 192.168.x.x. */
  lemma PrivateBlocksByOctets(ip: seq<Byte>)
    requires |ip| == 4
    ensures InPrivateBlock(Numeric(ip)) <==>
              ip[0] == 10 || (ip[0] == 172 && 16 <= ip[1] <= 31) || (ip[0] == 192 && ip[1] == 168)
  {
    assert ip == [ip[0], ip[1], ip[2], ip[3]];
    FourByteNumber(ip[0], ip[1], ip[2], ip[3]);
  }

  /** `special` is what the Go library says about loopback and link-local addresses; `ip4` is the
      address as four bytes, `None` when it has no IPv4 form. */
  method IsPrivateIp(special: bool, ip4: Option<seq<Byte>>) returns (private: bool)
    requires ip4.Some? ==> |ip4.value| == 4
    ensures private <==> special || (ip4.Some? && InPrivateBlock(Numeric(ip4.value)))
  {
    if special {
      return true;
    }
    var privateRanges: seq<(seq<Byte>, seq<Byte>)> := [
      ([10, 0, 0, 0], [10, 255, 255, 255]),
      ([172, 16, 0, 0], [172, 31, 255, 255]),
      ([192, 168, 0, 0], [192, 168, 255, 255])];
    if ip4.None? {
      return false;
    }
    BlocksAreNumeric(ip4.value);
    for i := 0 to |privateRanges|
      invariant forall j :: 0 <= j < i ==> !InBox(ip4.value, privateRanges[j].0, privateRanges[j].1)
    {
      var inside := BytesInRange(ip4.value, privateRanges[i].0, privateRanges[i].1);
      if inside {
        return true;
      }
    }
    assert !InBox(ip4.value, privateRanges[0].0, privateRanges[0].1);
    assert !InBox(ip4.value, privateRanges[1].0, privateRanges[1].1);
    assert !InBox(ip4.value, privateRanges[2].0, privateRanges[2].1);
    return false;
  }

  lemma BlocksAreNumeric(ip: seq<Byte>)
    requires |ip| == 4
    ensures InBox(ip, [10, 0, 0, 0], [10, 255, 255, 255]) <==> 0x0A00_0000 <= Numeric(ip) <= 0x0AFF_FFFF
    ensures InBox(ip, [172, 16, 0, 0], [172, 31, 255, 255]) <==> 0xAC10_0000 <= Numeric(ip) <= 0xAC1F_FFFF
    ensures InBox(ip, [192, 168, 0, 0], [192, 168, 255, 255]) <==> 0xC0A8_0000 <= Numeric(ip) <= 0xC0A8_FFFF
  {
    BlockIsNumeric(ip, 10, 0, 10, 255);
    BlockIsNumeric(ip, 172, 16, 172, 31);
    BlockIsNumeric(ip, 192, 168, 192, 168);
  }

  lemma BlockIsNumeric(ip: seq<Byte>, a: Byte, b: Byte, c: Byte, d: Byte)
    requires |ip| == 4
    requires a == c && b <= d
    ensures InBox(ip, [a, b, 0, 0], [c, d, 255, 255]) <==>
            a * 0x100_0000 + b * 0x1_0000 <= Numeric(ip) <= c * 0x100_0000 + d * 0x1_0000 + 0xFFFF
  {
    var start: seq<Byte>, end: seq<Byte> := [a, b, 0, 0], [c, d, 255, 255];
    assert start[1..] == [b, 0, 0] && end[1..] == [d, 255, 255];
    var s1: seq<Byte>, e1: seq<Byte> := [b, 0, 0], [d, 255, 255];
    assert s1[1..] == [0, 0] && e1[1..] == [255, 255];
    var s2: seq<Byte>, e2: seq<Byte> := [0, 0], [255, 255];
    assert s2[1..] == [0] && e2[1..] == [255];
    assert FreeTail(s2, e2) && Aligned(s1, e1);
    AlignedTestsAgree(ip, start, end);
    FourByteNumber(a, b, 0, 0);
    FourByteNumber(c, d, 255, 255);
  }
}
