/**
 * UDP over IPv4 frames (source/kernel/udp.cc): what `UdpCtrl::Send` writes into its buffer, the
 * one's-complement checksums (section 1 of RFC 1071, section 3.1 of RFC 791, RFC 768), and what the
 * receive callback reads out of a frame.
 */
module Udp {
  import opened Words

  const BUFFER: nat := 1518

  function Be16(v: uint16): (r: seq<byte>)
    ensures |r| == 2 && r[0] as int * 256 + r[1] as int == v
  {
    [v / 256, v % 256]
  }

  // ---------------------------------------------------------------------------------------------
  // One's-complement sums
  // ---------------------------------------------------------------------------------------------

  /** The sum of the big-endian 16-bit words of `s`, an odd last byte padded with zero. */
  function Sum(s: seq<byte>): nat
    decreases |s|
  {
    if |s| == 0 then 0 else if |s| == 1 then s[0] * 256 else s[0] * 256 + s[1] + Sum(s[2..])
  }

  lemma {:induction false} SumAppend(a: seq<byte>, b: seq<byte>)
    requires |a| % 2 == 0
    ensures Sum(a + b) == Sum(a) + Sum(b)
    decreases |a|
  {
    if a == [] {
      assert a + b == b;
    } else {
      assert (a + b)[2..] == a[2..] + b;
      SumAppend(a[2..], b);
    }
  }

  /** The sum of the bytes at even places, or at odd ones. */
  function Every(s: seq<byte>, odd: bool): nat {
    if s == [] then 0
    else Every(s[..|s| - 1], odd) + if ((|s| - 1) % 2 == 1) == odd then s[|s| - 1] as nat else 0
  }

  /** In each word the byte at the even place counts 256 times. */
  lemma {:induction false} SumByPlace(s: seq<byte>)
    ensures Sum(s) == 256 * Every(s, false) + Every(s, true)
    decreases |s|
  {
    if s != [] {
      var n := |s| - 1;
      SumByPlace(s[..n]);
      if n % 2 == 0 {
        SumAppend(s[..n], [s[n]]);
        assert s == s[..n] + [s[n]];
      } else {
        var m := n - 1;
        SumAppend(s[..m], [s[m], s[n]]);
        SumAppend(s[..m], [s[m]]);
        assert s == s[..m] + [s[m], s[n]] && s[..n] == s[..m] + [s[m]];
        assert [s[m], s[n]][2..] == [];
      }
    }
  }

  lemma {:induction false} SumBound(s: seq<byte>)
    ensures Sum(s) <= (|s| + 1) / 2 * 0xffff
    decreases |s|
  {
    if |s| >= 2 {
      SumBound(s[2..]);
    }
  }

  /** The value that the carry loop reaches. */
  function Folded(c: nat): (r: uint16)
    ensures r % 0xffff == c % 0xffff && (r == 0 <==> c == 0)
    decreases c
  {
    if c > 0xffff then
      FoldStep(c);
      Folded(c / 0x1_0000 + c % 0x1_0000)
    else c
  }

  lemma FoldStep(c: nat)
    requires c > 0xffff
    ensures 0 < c / 0x1_0000 + c % 0x1_0000 < c
    ensures (c / 0x1_0000 + c % 0x1_0000) % 0xffff == c % 0xffff
  {
  }

  /** The carry loop. */
  method Fold(sum: uint32) returns (c: uint16)
    ensures c == Folded(sum)
  {
    var checksum: uint32 := sum;
    while checksum > 0xffff
      invariant Folded(checksum) == Folded(sum)
      decreases checksum
    {
      FoldStep(checksum);
      checksum := checksum / 0x1_0000 + checksum % 0x1_0000;
    }
    c := checksum;
  }

  lemma Multiple(k: nat)
    ensures (k * 0xffff) % 0xffff == 0
  {
  }

  /** Adding the complement of a folded sum gives a sum that folds to all ones. */
  lemma ComplementFolds(sum: nat)
    ensures Folded(sum + (0xffff - Folded(sum))) == 0xffff
  {
    var f := Folded(sum);
    hide Folded;
    var t := sum % 0xffff;
    assert sum == sum / 0xffff * 0xffff + t && f == f / 0xffff * 0xffff + t;
    assert sum + (0xffff - f) == (sum / 0xffff - f / 0xffff + 1) * 0xffff;
    Multiple(sum / 0xffff - f / 0xffff + 1);
    var r := Folded(sum + (0xffff - f));
    assert r % 0xffff == 0 && r != 0;
  }

  // ---------------------------------------------------------------------------------------------
  // The frame
  // ---------------------------------------------------------------------------------------------

  type Mac = s: seq<byte> | |s| == 6 witness [0, 0, 0, 0, 0, 0]
  type Addr = s: seq<byte> | |s| == 4 witness [0, 0, 0, 0]

  /** The inputs of one send: the addresses, the two identification bytes, the port and the payload. */
  datatype Request = Request(targetMac: Mac, mac: Mac, target: Addr, addr: Addr, id0: byte, id1: byte, port: uint16,
                             data: seq<byte>)

  predicate Fits(r: Request) {
    42 + |r.data| < BUFFER
  }

  function IpHeader(r: Request, checksum: uint16): (s: seq<byte>)
    requires Fits(r)
    ensures |s| == 20
  {
    [0x45, 0] + Be16(28 + |r.data|) + [r.id0, r.id1, 0x40, 0, 0xff, 17] + Be16(checksum) + r.addr + r.target
  }

  function Segment(r: Request, checksum: uint16): (s: seq<byte>)
    requires Fits(r)
    ensures |s| == 8 + |r.data|
  {
    [0x30, 0x39] + Be16(r.port) + Be16(8 + |r.data|) + Be16(checksum) + r.data
  }

  function PseudoHeader(r: Request): (s: seq<byte>)
    requires Fits(r)
    ensures |s| == 12
  {
    r.addr + r.target + [0, 17] + Be16(8 + |r.data|)
  }

  function IpChecksum(r: Request): uint16
    requires Fits(r)
  {
    0xffff - Folded(Sum(IpHeader(r, 0)))
  }

  function UdpChecksum(r: Request): uint16
    requires Fits(r)
  {
    0xffff - Folded(Sum(PseudoHeader(r)) + Sum(Segment(r, 0)))
  }

  function Frame(r: Request): (s: seq<byte>)
    requires Fits(r)
    ensures |s| == 42 + |r.data|
  {
    r.targetMac + r.mac + [8, 0] + IpHeader(r, IpChecksum(r)) + Segment(r, UdpChecksum(r))
  }

  lemma HeaderWithChecksum(r: Request, c: uint16)
    requires Fits(r)
    ensures Sum(IpHeader(r, c)) == Sum(IpHeader(r, 0)) + c
  {
    var a := [0x45, 0] + Be16(28 + |r.data|) + [r.id0, r.id1, 0x40, 0, 0xff, 17];
    var b := r.addr + r.target;
    Replace(a, c, b);
    assert IpHeader(r, c) == a + Be16(c) + b && IpHeader(r, 0) == a + Be16(0) + b;
  }

  lemma SegmentWithChecksum(r: Request, c: uint16)
    requires Fits(r)
    ensures Sum(Segment(r, c)) == Sum(Segment(r, 0)) + c
  {
    var a := [0x30, 0x39] + Be16(r.port) + Be16(8 + |r.data|);
    Replace(a, c, r.data);
  }

  /** A word at an even place contributes itself to the sum. */
  lemma Replace(a: seq<byte>, c: uint16, b: seq<byte>)
    requires |a| % 2 == 0
    ensures Sum(a + Be16(c) + b) == Sum(a + Be16(0) + b) + c
  {
    SumAppend(a, Be16(c));
    SumAppend(a, Be16(0));
    SumAppend(a + Be16(c), b);
    SumAppend(a + Be16(0), b);
    assert Be16(c)[2..] == [] && Be16(0)[2..] == [];
  }

  /**
   * What a receiver checks, from the bytes of the frame alone: the header sums to all ones, and so does the
   * segment with the two addresses, the protocol number and the length field of the segment.
   */
  lemma ChecksumsVerify(r: Request)
    requires 42 + |r.data| < 1518
    ensures var f := Frame(r);
            && Folded(Sum(f[14..34])) == 0xffff
            && Folded(Sum(f[26..34] + [0, 17] + f[38..40]) + Sum(f[34..])) == 0xffff
  {
    FrameParts(r);
    PseudoBytes(r);
    hide Frame, Segment, IpHeader, PseudoHeader, Sum, Folded;
    HeaderWithChecksum(r, IpChecksum(r));
    SegmentWithChecksum(r, UdpChecksum(r));
    ComplementFolds(Sum(IpHeader(r, 0)));
    ComplementFolds(Sum(PseudoHeader(r)) + Sum(Segment(r, 0)));
  }

  lemma PseudoBytes(r: Request)
    requires Fits(r)
    ensures var f := Frame(r); PseudoHeader(r) == f[26..34] + [0, 17] + f[38..40]
  {
    FrameFields(r);
    var f := Frame(r);
    hide Frame;
    assert f[26..34] == f[26..30] + f[30..34];
    assert f[38..40] == [f[38], f[39]];
  }

  /** The frame field by field. */
  lemma FrameFields(r: Request)
    requires 42 + |r.data| < 1518
    ensures var f := Frame(r);
            && f[..6] == r.targetMac && f[6..12] == r.mac && f[12] == 8 && f[13] == 0
            && f[14] == 0x45 && f[15] == 0 && f[16] as int * 256 + f[17] as int == 28 + |r.data|
            && f[18] == r.id0 && f[19] == r.id1 && f[20] == 0x40 && f[21] == 0 && f[22] == 0xff && f[23] == 17
            && f[26..30] == r.addr && f[30..34] == r.target
            && f[34] as int * 256 + f[35] as int == 12345 && f[36] as int * 256 + f[37] as int == r.port
            && f[38] as int * 256 + f[39] as int == 8 + |r.data| && f[38..40] == Be16(8 + |r.data|)
            && f[42..] == r.data
  {
    var f := Frame(r);
    var ip, seg := IpHeader(r, IpChecksum(r)), Segment(r, UdpChecksum(r));
    FrameParts(r);
    HeaderBytes(r, IpChecksum(r));
    SegmentBytes(r, UdpChecksum(r));
    assert f[..6] == r.targetMac && f[6..12] == r.mac;
    hide Frame, IpHeader, Segment, IpChecksum, UdpChecksum;
    forall k | 0 <= k < 20 ensures f[14 + k] == ip[k] { assert f[14..34][k] == ip[k]; }
    forall k | 0 <= k < |seg| ensures f[34 + k] == seg[k] { assert f[34..][k] == seg[k]; }
    assert f[26..30] == ip[12..16] && f[30..34] == ip[16..20] && f[38..40] == seg[4..6] && f[42..] == seg[8..];
  }

  lemma HeaderBytes(r: Request, c: uint16)
    requires Fits(r)
    ensures var h := IpHeader(r, c);
            && h[0] == 0x45 && h[1] == 0 && h[2] as int * 256 + h[3] as int == 28 + |r.data|
            && h[4] == r.id0 && h[5] == r.id1
            && h[6] == 0x40 && h[7] == 0 && h[8] == 0xff && h[9] == 17 && h[10..12] == Be16(c)
            && h[12..16] == r.addr && h[16..20] == r.target
  {
  }

  lemma SegmentBytes(r: Request, c: uint16)
    requires Fits(r)
    ensures var g := Segment(r, c);
            && g[0] as int * 256 + g[1] as int == 12345 && g[2] as int * 256 + g[3] as int == r.port
            && g[4] as int * 256 + g[5] as int == 8 + |r.data|
            && g[4..6] == Be16(8 + |r.data|) && g[6..8] == Be16(c) && g[8..] == r.data
  {
  }

  /** The checksum field is zero, which a receiver takes for no checksum, exactly when the sum folds to all ones. */
  lemma ZeroUdpChecksum(r: Request)
    requires Fits(r)
    ensures UdpChecksum(r) == 0 <==> (Sum(PseudoHeader(r)) + Sum(Segment(r, 0))) % 0xffff == 0
  {
  }

  /** The destination port contributes itself to the sum. */
  lemma SegmentWithPort(r: Request, port: uint16)
    requires Fits(r)
    ensures Sum(Segment(r.(port := port), 0)) == Sum(Segment(r.(port := 0), 0)) + port
  {
    var b := Be16(8 + |r.data|) + Be16(0) + r.data;
    Replace([0x30, 0x39], port, b);
    assert Segment(r.(port := port), 0) == [0x30, 0x39] + Be16(port) + b;
    assert Segment(r.(port := 0), 0) == [0x30, 0x39] + Be16(0) + b;
  }

  /** Whatever the addresses and the payload are, there is a port for which the checksum field is zero. */
  lemma ZeroForSomePort(r: Request) returns (port: uint16)
    requires Fits(r)
    ensures UdpChecksum(r.(port := port)) == 0
  {
    var rest := Sum(PseudoHeader(r)) + Sum(Segment(r.(port := 0), 0));
    port := 0xffff - rest % 0xffff;
    SegmentWithPort(r, port);
    Multiple(rest / 0xffff + 1);
    assert rest + port == (rest / 0xffff + 1) * 0xffff;
    ZeroUdpChecksum(r.(port := port));
  }

  lemma SumPair(a: byte, b: byte, rest: seq<byte>)
    ensures Sum([a, b] + rest) == a * 256 + b + Sum(rest)
  {
    assert ([a, b] + rest)[2..] == rest;
  }

  /** An empty datagram from 10.0.2.5 to 10.0.2.15. */
  lemma ZeroChecksumSent()
    ensures var mac := [0, 0, 0, 0, 0, 0];
            UdpChecksum(Request(mac, mac, [10, 0, 2, 15], [10, 0, 2, 5], 0, 0, 46993, [])) == 0
  {
    var mac := [0, 0, 0, 0, 0, 0];
    var r := Request(mac, mac, [10, 0, 2, 15], [10, 0, 2, 5], 0, 0, 46993, []);
    assert PseudoHeader(r) == [10, 0] + ([2, 5] + ([10, 0] + ([2, 15] + ([0, 17] + ([0, 8] + [])))));
    assert Segment(r, 0) == [0x30, 0x39] + ([183, 145] + ([0, 8] + ([0, 0] + [])));
    hide PseudoHeader, Segment, Sum;
    SumPair(10, 0, [2, 5] + ([10, 0] + ([2, 15] + ([0, 17] + ([0, 8] + [])))));
    SumPair(2, 5, [10, 0] + ([2, 15] + ([0, 17] + ([0, 8] + []))));
    SumPair(10, 0, [2, 15] + ([0, 17] + ([0, 8] + [])));
    SumPair(2, 15, [0, 17] + ([0, 8] + []));
    SumPair(0, 17, [0, 8] + []);
    SumPair(0, 8, []);
    SumPair(0x30, 0x39, [183, 145] + ([0, 8] + ([0, 0] + [])));
    SumPair(183, 145, [0, 8] + ([0, 0] + []));
    SumPair(0, 8, [0, 0] + []);
    SumPair(0, 0, []);
    SumNone();
    ZeroUdpChecksum(r);
  }

  /** A whole frame: one byte, "a", from 10.0.2.5 to port 8080 of 10.0.2.15. */
  lemma KnownFrame(r: Request)
    requires r.targetMac == [2, 0, 0, 0, 0, 1] && r.mac == [2, 0, 0, 0, 0, 2]
    requires r.target == [10, 0, 2, 15] && r.addr == [10, 0, 2, 5] && r.id0 == 0x12 && r.id1 == 0x34 && r.data == [0x61]
    requires r.port == 8080
    ensures Frame(r) == [2, 0, 0, 0, 0, 1] + [2, 0, 0, 0, 0, 2] + [8, 0]
                        + [0x45, 0, 0, 29, 0x12, 0x34, 0x40, 0, 0xff, 17, 0x51, 0x88, 10, 0, 2, 5, 10, 0, 2, 15]
                        + [0x30, 0x39, 0x1f, 0x90, 0, 9, 0x36, 0xff, 0x61]
  {
    hide IpChecksum, UdpChecksum, IpHeader, Segment;
    KnownHeader(r);
    KnownSegment(r);
    KnownParts(r);
  }

  lemma KnownParts(r: Request)
    requires r.target == [10, 0, 2, 15] && r.addr == [10, 0, 2, 5] && r.id0 == 0x12 && r.id1 == 0x34 && r.data == [0x61]
    requires r.port == 8080
    ensures IpHeader(r, 0x5188) == [0x45, 0, 0, 29, 0x12, 0x34, 0x40, 0, 0xff, 17, 0x51, 0x88, 10, 0, 2, 5, 10, 0, 2, 15]
    ensures Segment(r, 0x36ff) == [0x30, 0x39, 0x1f, 0x90, 0, 9, 0x36, 0xff, 0x61]
  {
  }

  lemma KnownWords()
    ensures Sum([0x45, 0] + ([0, 29] + ([0x12, 0x34] + ([0x40, 0] + ([0xff, 17] + ([0, 0] + [])))))) == 104034
  {
    hide Sum;
    SumPair(0x45, 0, [0, 29] + ([0x12, 0x34] + ([0x40, 0] + ([0xff, 17] + ([0, 0] + [])))));
    SumPair(0, 29, [0x12, 0x34] + ([0x40, 0] + ([0xff, 17] + ([0, 0] + []))));
    SumPair(0x12, 0x34, [0x40, 0] + ([0xff, 17] + ([0, 0] + [])));
    SumPair(0x40, 0, [0xff, 17] + ([0, 0] + []));
    SumPair(0xff, 17, [0, 0] + []);
    SumPair(0, 0, []);
    SumNone();
  }

  lemma KnownAddresses()
    ensures Sum([10, 0] + ([2, 5] + ([10, 0] + ([2, 15] + [])))) == 6164
  {
    hide Sum;
    SumPair(10, 0, [2, 5] + ([10, 0] + ([2, 15] + [])));
    SumPair(2, 5, [10, 0] + ([2, 15] + []));
    SumPair(10, 0, [2, 15] + []);
    SumPair(2, 15, []);
    SumNone();
  }

  lemma KnownHeader(r: Request)
    requires r.target == [10, 0, 2, 15] && r.addr == [10, 0, 2, 5] && r.id0 == 0x12 && r.id1 == 0x34 && r.data == [0x61]
    ensures IpChecksum(r) == 0x5188
  {
    hide Sum;
    var b: seq<byte> := [10, 0] + ([2, 5] + ([10, 0] + ([2, 15] + [])));
    var a: seq<byte> := [0x45, 0] + ([0, 29] + ([0x12, 0x34] + ([0x40, 0] + ([0xff, 17] + ([0, 0] + [])))));
    assert IpHeader(r, 0) == a + b;
    hide IpHeader;
    SumAppend(a, b);
    KnownWords();
    KnownAddresses();
    FoldOf(110198, 0xae77);
  }

  lemma KnownSegment(r: Request)
    requires r.target == [10, 0, 2, 15] && r.addr == [10, 0, 2, 5] && r.port == 8080 && r.data == [0x61]
    ensures UdpChecksum(r) == 0x36ff
  {
    assert PseudoHeader(r) == [10, 0] + ([2, 5] + ([10, 0] + ([2, 15] + ([0, 17] + ([0, 9] + [])))));
    assert Segment(r, 0) == [0x30, 0x39] + ([0x1f, 0x90] + ([0, 9] + ([0, 0] + [0x61])));
    assert Sum([0x61]) == 0x6100;
    hide PseudoHeader, Segment, Sum;
    SumPair(10, 0, [2, 5] + ([10, 0] + ([2, 15] + ([0, 17] + ([0, 9] + [])))));
    SumPair(2, 5, [10, 0] + ([2, 15] + ([0, 17] + ([0, 9] + []))));
    SumPair(10, 0, [2, 15] + ([0, 17] + ([0, 9] + [])));
    SumPair(2, 15, [0, 17] + ([0, 9] + []));
    SumPair(0, 17, [0, 9] + []);
    SumPair(0, 9, []);
    SumNone();
    SumPair(0x30, 0x39, [0x1f, 0x90] + ([0, 9] + ([0, 0] + [0x61])));
    SumPair(0x1f, 0x90, [0, 9] + ([0, 0] + [0x61]));
    SumPair(0, 9, [0, 0] + [0x61]);
    SumPair(0, 0, [0x61]);
    assert Sum(PseudoHeader(r)) + Sum(Segment(r, 0)) == 51456;
    FoldOf(51456, 51456);
  }

  /** The fold of a number that needs one turn at most. */
  lemma FoldOf(c: nat, f: uint16)
    requires c == f || (c > 0xffff && c / 0x1_0000 + c % 0x1_0000 == f)
    ensures Folded(c) == f
  {
  }

  lemma SumNone()
    ensures Sum([]) == 0
  {
  }

  // ---------------------------------------------------------------------------------------------
  // The receive callback
  // ---------------------------------------------------------------------------------------------

  /** What becomes of a frame; `PastEnd` is a read behind the buffer. */
  datatype Parsed = Ignored | PastEnd | Datagram(source: uint16, port: uint16, data: seq<byte>)

  function Word(s: seq<byte>, i: nat): (w: uint16)
    requires i + 1 < |s|
  {
    s[i] as int * 256 + s[i + 1] as int
  }

  function Parse(buf: seq<byte>): Parsed {
    if |buf| < 34 then PastEnd
    else if buf[12] != 8 || buf[13] != 0 then Ignored
    else if buf[14] / 16 != 4 then Ignored
    else
      var headerLength := buf[14] % 16 * 4;
      if headerLength < 20 then Ignored
      else
        var foffset := Word(buf, 20);
        if foffset / 0x2000 % 2 != 0 || foffset % 0x2000 != 0 then Ignored
        else if buf[23] != 17 then Ignored
        else ParseUdp(buf, 14 + headerLength)
  }

  function ParseUdp(buf: seq<byte>, start: nat): Parsed {
    if |buf| < start + 8 then PastEnd
    else
      // the length of the data is a 16-bit number too
      var length := (Word(buf, start + 4) - 8) % 0x1_0000;
      if |buf| < start + 8 + length then PastEnd
      else Datagram(Word(buf, start), Word(buf, start + 2), buf[start + 8..start + 8 + length])
  }

  /** IPv4 of version 4, at least five words of header, neither a fragment nor followed by one, and UDP. */
  predicate IsUdp(buf: seq<byte>)
    requires |buf| >= 34
  {
    && buf[12..14] == [8, 0] && 69 <= buf[14] <= 79
    && buf[20] in [0, 64, 128, 192] && buf[21] == 0 && buf[23] == 17
  }

  lemma VersionAndLength(b: byte)
    ensures b / 16 == 4 && b % 16 * 4 >= 20 <==> 69 <= b <= 79
    ensures 69 <= b <= 79 ==> b % 16 * 4 == 4 * (b - 64)
  {
  }

  /** Bit 13 says that fragments follow, and the bits below it are the offset. */
  lemma NoFragment(a: byte, b: byte)
    ensures var foffset := a as int * 256 + b as int;
            foffset / 0x2000 % 2 == 0 && foffset % 0x2000 == 0 <==> a in [0, 64, 128, 192] && b == 0
  {
    assert (a as int * 256 + b as int) % 0x2000 == (a as int % 32) * 256 + b as int;
    assert (a as int * 256 + b as int) / 0x2000 == a as int / 32;
  }

  /** Exactly which frames are taken for a datagram, byte by byte, and what is read out of them. */
  lemma ParseExact(buf: seq<byte>)
    ensures Parse(buf).Ignored? <==> |buf| >= 34 && !IsUdp(buf)
    ensures |buf| >= 34 && IsUdp(buf) ==>
              var start := 14 + 4 * (buf[14] as int - 64);
              if |buf| < start + 8 then Parse(buf).PastEnd?
              else
                var length := buf[start + 4] as int * 256 + buf[start + 5] as int;
                var n := if length >= 8 then length - 8 else length + 65528;
                if |buf| < start + 8 + n then Parse(buf).PastEnd?
                else Parse(buf) == Datagram(buf[start] as int * 256 + buf[start + 1] as int,
                                            buf[start + 2] as int * 256 + buf[start + 3] as int,
                                            buf[start + 8..start + 8 + n])
  {
    if |buf| >= 34 {
      VersionAndLength(buf[14]);
      NoFragment(buf[20], buf[21]);
    }
  }

  lemma HeaderFields(r: Request, c: uint16)
    requires Fits(r)
    ensures var ip := IpHeader(r, c); ip[0] == 0x45 && Word(ip, 6) == 0x4000 && ip[9] == 17
  {
  }

  lemma SegmentFields(r: Request, c: uint16)
    requires Fits(r)
    ensures var s := Segment(r, c);
            Word(s, 0) == 12345 && Word(s, 2) == r.port && Word(s, 4) == 8 + |r.data| && s[8..] == r.data
  {
  }

  /** A part of the buffer is read where it lies. */
  lemma ReadPart(buf: seq<byte>, part: seq<byte>, at: nat, i: nat)
    requires at + |part| <= |buf| && buf[at..at + |part|] == part && i < |part|
    ensures buf[at + i] == part[i] && (i + 1 < |part| ==> Word(buf, at + i) == Word(part, i))
  {
  }

  /** The receive path recovers the ports and the payload of every frame that `Send` builds, whatever follows it. */
  lemma SendThenReceive(r: Request, rest: seq<byte>)
    requires 42 + |r.data| < 1518
    ensures Parse(Frame(r) + rest) == Datagram(12345, r.port, r.data)
  {
    hide Frame, IpHeader, Segment, IpChecksum, UdpChecksum, Word;
    var f := Frame(r);
    var buf := f + rest;
    var ip, seg := IpHeader(r, IpChecksum(r)), Segment(r, UdpChecksum(r));
    FrameParts(r);
    HeaderFields(r, IpChecksum(r));
    SegmentFields(r, UdpChecksum(r));
    assert buf[12] == 8 && buf[13] == 0 && buf[14..34] == f[14..34] && buf[34..|f|] == f[34..];
    ReadPart(buf, ip, 14, 0);
    ReadPart(buf, ip, 14, 6);
    ReadPart(buf, ip, 14, 9);
    ReadPart(buf, seg, 34, 0);
    ReadPart(buf, seg, 34, 2);
    ReadPart(buf, seg, 34, 4);
    assert buf[42..|f|] == buf[34..|f|][8..];
  }

  lemma FrameParts(r: Request)
    requires Fits(r)
    ensures var f := Frame(r); f[12] == 8 && f[13] == 0 && f[14..34] == IpHeader(r, IpChecksum(r)) &&
                               f[34..] == Segment(r, UdpChecksum(r))
  {
  }

  // ---------------------------------------------------------------------------------------------
  // Send
  // ---------------------------------------------------------------------------------------------

  /** Slices of slices. */
  lemma TakeSlice(s: seq<byte>, n: nat, lo: nat, hi: nat)
    requires lo <= hi <= n <= |s|
    ensures s[..n][lo..hi] == s[lo..hi]
  {
  }

  lemma DropSlice(s: seq<byte>, a: nat, k: nat)
    requires a + k <= |s|
    ensures s[a..][..k] == s[a..a + k] && s[a..][k..] == s[a + k..]
  {
  }

  /** What lies in a part that is kept, is kept. */
  lemma Kept(s: seq<byte>, t: seq<byte>, n: nat, lo: nat, hi: nat)
    requires lo <= hi <= n <= |s| && n <= |t| && s[..n] == t[..n]
    ensures s[lo..hi] == t[lo..hi]
  {
    TakeSlice(s, n, lo, hi);
    TakeSlice(t, n, lo, hi);
  }

  lemma ThreeParts(s: seq<byte>, a: nat, b: nat, c: nat)
    requires a <= b <= c <= |s|
    ensures s[..c] == s[..a] + s[a..b] + s[b..c]
  {
  }

  /** `memcpy(buf + offset, s, |s|)` */
  method Put(buf: array<byte>, offset: nat, s: seq<byte>)
    requires offset + |s| <= buf.Length
    modifies buf
    ensures buf[..offset + |s|] == old(buf[..offset]) + s
    ensures buf[offset + |s|..] == old(buf[offset + |s|..])
  {
    var i := 0;
    while i < |s|
      invariant 0 <= i <= |s| && buf[..offset + i] == old(buf[..offset]) + s[..i]
      invariant buf[offset + |s|..] == old(buf[offset + |s|..])
    {
      buf[offset + i] := s[i];
      i := i + 1;
    }
  }

  lemma LowBytes(v: nat)
    ensures Be16(v % 0x1_0000) == [v / 256 % 256, v % 256]
  {
    var q, r := v / 0x1_0000, v % 0x1_0000;
    assert v == q * 256 * 256 + r / 256 * 256 + r % 256;
    assert v / 256 == q * 256 + r / 256;
  }

  /** Writes the two low bytes of `v` at `offset`, inside the part `buf[lo..hi]`. */
  method PutWord(buf: array<byte>, offset: nat, v: uint32, ghost lo: nat, ghost hi: nat)
    requires lo <= offset && offset + 2 <= hi <= buf.Length
    modifies buf
    ensures buf[lo..hi] == old(buf[lo..offset]) + Be16(v % 0x1_0000) + old(buf[offset + 2..hi])
    ensures buf[..lo] == old(buf[..lo]) && buf[hi..] == old(buf[hi..])
  {
    LowBytes(v);
    buf[offset] := v / 256 % 256;
    buf[offset + 1] := v % 256;
  }

  /** The sum of a prefix that ends with the word at `i`. */
  lemma SumNext(s: seq<byte>, i: nat)
    requires i < |s| && i % 2 == 0
    ensures var j := if i + 2 <= |s| then i + 2 else |s|;
            var low := if i + 1 < |s| then s[i + 1] as int else 0;
            Sum(s[..j]) == Sum(s[..i]) + (s[i] as int * 256 + low) && Sum(s[..j]) <= (|s| + 1) / 2 * 0xffff
  {
    var j := if i + 2 <= |s| then i + 2 else |s|;
    SumAppend(s[..i], s[i..j]);
    assert s[..i] + s[i..j] == s[..j];
    assert Sum(s[i..j][|s[i..j]|..]) == 0;
    SumBound(s[..j]);
  }

  /** The summing loop over `buf[start..end]`, adding to `checksum` in 32 bits. */
  method AddWords(checksum: uint32, buf: array<byte>, start: nat, end: nat) returns (r: uint32)
    requires start <= end <= buf.Length && checksum <= 0x1000_0000 && end - start <= BUFFER
    requires (end - start) % 2 == 1 ==> end < buf.Length && buf[end] == 0
    ensures r == checksum + Sum(buf[start..end])
  {
    hide Sum;
    SumNone();
    ghost var s := buf[start..end];
    r := checksum;
    var i := start;
    while i < end
      invariant start <= i <= end + 1 && (i - start) % 2 == 0 && (i == end + 1 ==> |s| % 2 == 1)
      invariant r == checksum + Sum(s[..if i <= end then i - start else |s|])
    {
      SumNext(s, i - start);
      assert buf[i + 1] == if i + 1 < end then s[i + 1 - start] else 0;
      r := (r + (buf[i] as int * 256 + buf[i + 1] as int)) % 0x1_0000_0000;
      i := i + 2;
    }
    assert s[..|s|] == s;
  }

  /** The Ethernet header and the IPv4 header, its length left out and its checksum zero. */
  method WriteHeaders(buf: array<byte>, r: Request)
    requires buf.Length == BUFFER
    modifies buf
    ensures buf[..14] == r.targetMac + r.mac + [8, 0]
    ensures buf[14..16] == [0x45, 0] && buf[18..34] == [r.id0, r.id1, 0x40, 0, 0xff, 17, 0, 0] + r.addr + r.target
  {
    var offset := 0;
    Put(buf, offset, r.targetMac);
    offset := offset + 6;
    Put(buf, offset, r.mac);
    offset := offset + 6;
    Put(buf, offset, [8, 0]);
    offset := offset + 2;
    Put(buf, offset, [0x45, 0]);
    ghost var eth := r.targetMac + r.mac + [8, 0];
    assert buf[..16] == eth + [0x45, 0];
    offset := offset + 4;
    ghost var before := buf[..offset];
    assert before[..14] == eth && before[14..16] == [0x45, 0] by {
      assert before[..16] == buf[..16];
    }
    Put(buf, offset, [r.id0, r.id1, 0x40, 0, 0xff, 17, 0, 0]);
    offset := offset + 8;
    Put(buf, offset, r.addr);
    offset := offset + 4;
    Put(buf, offset, r.target);
    assert buf[..34] == before + ([r.id0, r.id1, 0x40, 0, 0xff, 17, 0, 0] + r.addr + r.target);
    assert buf[18..34] == buf[..34][18..];
    assert buf[..14] == buf[..34][..14] == before[..14];
    assert buf[14..16] == buf[..34][14..16] == before[14..16];
  }

  /** The UDP header and the payload, the length left out and the checksum zero. */
  method WriteSegment(buf: array<byte>, r: Request)
    requires buf.Length == BUFFER && Fits(r)
    modifies buf
    ensures buf[..34] == old(buf[..34])
    ensures buf[34..38] == [0x30, 0x39] + Be16(r.port) && buf[40..42 + |r.data|] == [0, 0] + r.data
  {
    var offset := 34;
    Put(buf, offset, [0x30, 0x39]);
    offset := offset + 2;
    Put(buf, offset, [r.port / 256, r.port % 256]);
    ghost var start := [0x30, 0x39] + Be16(r.port);
    assert buf[..38] == old(buf[..34]) + start;
    offset := offset + 4;
    ghost var before := buf[..offset];
    assert before[..34] == old(buf[..34]) && before[34..38] == start by {
      assert before[..38] == buf[..38];
    }
    Put(buf, offset, [0, 0]);
    offset := offset + 2;
    Put(buf, offset, r.data);
    ghost var all := buf[..42 + |r.data|];
    assert all == before + ([0, 0] + r.data);
    assert buf[40..42 + |r.data|] == all[40..];
    assert buf[34..38] == all[34..38] == before[34..38];
    assert buf[..34] == all[..34] == before[..34];
  }

  method SumPseudoHeader(r: Request) returns (sum: uint32)
    requires Fits(r)
    ensures sum == Sum(PseudoHeader(r)) == Sum(r.addr + r.target + [0, 17] + Be16(8 + |r.data|)) && sum <= 6 * 0xffff
  {
    var pseudo := new byte[12];
    Put(pseudo, 0, r.addr);
    Put(pseudo, 4, r.target);
    Put(pseudo, 8, [0, 17]);
    Put(pseudo, 10, Be16(8 + |r.data|));
    assert pseudo[..] == pseudo[0..12] == PseudoHeader(r);
    SumBound(PseudoHeader(r));
    sum := AddWords(0, pseudo, 0, 12);
  }

  /** The complement in 32 bits, of which the two low bytes are kept. */
  function Complement(c: uint16): (v: uint32)
    ensures v % 0x1_0000 == 0xffff - c
  {
    0xffff_ffff - c
  }

  lemma SegmentPatch(r: Request, c: uint16)
    requires Fits(r)
    ensures Segment(r, c) == Segment(r, 0)[..6] + Be16(c) + Segment(r, 0)[8..]
  {
  }

  lemma HeaderPatch(r: Request, c: uint16)
    requires Fits(r)
    ensures IpHeader(r, c) == IpHeader(r, 0)[..10] + Be16(c) + IpHeader(r, 0)[12..]
  {
  }

  /** The folded sum over the pseudo header and the segment, padded behind its end when it is odd. */
  method SumSegment(buf: array<byte>, r: Request) returns (checksum: uint16)
    requires buf.Length == BUFFER && Fits(r) && buf[34..42 + |r.data|] == Segment(r, 0)
    modifies buf
    ensures buf[..42 + |r.data|] == old(buf[..42 + |r.data|])
    ensures checksum == Folded(Sum(PseudoHeader(r)) + Sum(Segment(r, 0)))
  {
    hide Sum, Folded, Segment, PseudoHeader;
    var offset := 42 + |r.data|;
    var sum := SumPseudoHeader(r);
    if (offset - 34) % 2 == 1 {
      buf[offset] := 0;
    }
    assert buf[34..offset] == old(buf[34..offset]);
    sum := AddWords(sum, buf, 34, offset);
    checksum := Fold(sum);
  }

  /** What the headers written so far and the length make together. */
  lemma Drafts(r: Request)
    requires Fits(r)
    ensures [0x30, 0x39] + Be16(r.port) + Be16(8 + |r.data|) + ([0, 0] + r.data) == Segment(r, 0)
    ensures [0x45, 0] + Be16(28 + |r.data|) + ([r.id0, r.id1, 0x40, 0, 0xff, 17, 0, 0] + r.addr + r.target) == IpHeader(r, 0)
  {
  }

  /** The length and the checksum of the segment. */
  method FinishSegment(buf: array<byte>, r: Request)
    requires buf.Length == BUFFER && Fits(r)
    requires buf[34..38] == [0x30, 0x39] + Be16(r.port) && buf[40..42 + |r.data|] == [0, 0] + r.data
    modifies buf
    ensures buf[..34] == old(buf[..34]) && buf[34..42 + |r.data|] == Segment(r, UdpChecksum(r))
  {
    hide Sum, Folded, Segment, Be16, PseudoHeader;
    var offset := 42 + |r.data|;
    Drafts(r);
    ghost var g := Segment(r, 0);
    PutWord(buf, 38, offset - 34, 34, offset);
    assert buf[34..offset] == g;
    ghost var all := buf[..offset];
    TakeSlice(buf[..], offset, 0, 34);
    TakeSlice(buf[..], offset, 34, offset);
    var checksum := SumSegment(buf, r);
    PatchSegment(buf, r, checksum, all);
  }

  method PatchSegment(buf: array<byte>, r: Request, checksum: uint16, ghost all: seq<byte>)
    requires buf.Length == BUFFER && Fits(r) && buf[..42 + |r.data|] == all && all[34..] == Segment(r, 0)
    requires UdpChecksum(r) == 0xffff - checksum
    modifies buf
    ensures buf[..34] == all[..34] && buf[34..42 + |r.data|] == Segment(r, UdpChecksum(r))
  {
    hide Segment, Be16, UdpChecksum;
    var offset := 42 + |r.data|;
    SegmentPatch(r, UdpChecksum(r));
    DropSlice(all, 34, 6);
    DropSlice(all, 34, 8);
    TakeSlice(buf[..], offset, 34, 40);
    TakeSlice(buf[..], offset, 42, offset);
    TakeSlice(buf[..], offset, 0, 34);
    PutWord(buf, 40, Complement(checksum), 34, offset);
  }

  /** The length and the checksum of the IPv4 header. */
  method FinishHeader(buf: array<byte>, r: Request)
    requires buf.Length == BUFFER && Fits(r)
    requires buf[14..16] == [0x45, 0] && buf[18..34] == [r.id0, r.id1, 0x40, 0, 0xff, 17, 0, 0] + r.addr + r.target
    modifies buf
    ensures buf[..14] == old(buf[..14]) && buf[34..] == old(buf[34..]) && buf[14..34] == IpHeader(r, IpChecksum(r))
  {
    hide Sum, Folded, IpHeader, Be16;
    var offset := 42 + |r.data|;
    Drafts(r);
    ghost var h := IpHeader(r, 0);
    PutWord(buf, 16, offset - 14, 14, 34);
    assert buf[14..34] == h;
    var sum := AddWords(0, buf, 14, 34);
    var checksum := Fold(sum);
    HeaderPatch(r, IpChecksum(r));
    TakeSlice(buf[..], 34, 14, 24);
    DropSlice(buf[..34], 14, 10);
    DropSlice(buf[..34], 14, 12);
    PutWord(buf, 24, Complement(checksum), 14, 34);
  }

  lemma HeadersKept(s: seq<byte>, t: seq<byte>)
    requires |s| >= 34 && |t| >= 34 && s[..34] == t[..34]
    ensures s[..14] == t[..14] && s[14..16] == t[14..16] && s[18..34] == t[18..34]
  {
    Kept(s, t, 34, 0, 14);
    Kept(s, t, 34, 14, 16);
    Kept(s, t, 34, 18, 34);
  }

  /** `Send` up to the hand-over of the frame to the device. */
  method Send(r: Request) returns (buf: array<byte>, offset: nat)
    requires 42 + |r.data| < 1518
    ensures buf.Length == BUFFER && offset == 42 + |r.data| < BUFFER && buf[..offset] == Frame(r)
  {
    hide IpHeader, Segment, IpChecksum, UdpChecksum;
    buf := new byte[BUFFER];
    WriteHeaders(buf, r);
    ghost var headers := buf[..];
    WriteSegment(buf, r);
    ghost var drafted := buf[..];
    HeadersKept(headers, drafted);
    FinishSegment(buf, r);
    ghost var summed := buf[..];
    HeadersKept(drafted, summed);
    FinishHeader(buf, r);
    offset := 42 + |r.data|;
    DropSlice(summed, 34, offset - 34);
    DropSlice(buf[..], 34, offset - 34);
    ThreeParts(buf[..], 14, 34, offset);
  }
}
