/**
 * What snull does to the octets of a frame: padding to the Ethernet minimum,
 * moving both addresses to the neighbouring class C network, and rebuilding the
 * header checksum.
 */
module SnullFrame {
  import opened Bytes
  import opened InternetChecksum
  import opened Ethernet

  // Frame offsets of the third octets of source and destination.
  const SADDR_2 := IP_SADDR + 2
  const DADDR_2 := IP_DADDR + 2

  /** The octet with its lowest bit flipped. */
  function FlipLow(b: byte): byte {
    if b % 2 == 0 then b + 1 else b - 1
  }

  function Flipped(f: Frame): (r: Frame)
    requires |f| >= ETH_HLEN + IP_HLEN
    ensures |r| == |f|
  {
    f[SADDR_2 := FlipLow(f[SADDR_2])][DADDR_2 := FlipLow(f[DADDR_2])]
  }

  ghost predicate IsRewrite(f: Frame, r: Frame)
    requires HasIpHeader(f)
  {
    forall x {:trigger Open(x)} | Open(x) :: HasIpHeader(Flipped(f)) && r == FixIpChecksum(Flipped(f))
  }

  /** Both addresses moved to the neighbouring network, and the checksum rebuilt. */
  ghost function Rewrite(f: Frame): (r: Frame)
    requires HasIpHeader(f)
    ensures |r| == |f| && IsRewrite(f, r)
  {
    FlippedHeader(f);
    var r0 := FixIpChecksum(Flipped(f));
    assert |r0| == |f| && IsRewrite(f, r0);
    var r: Frame :| |r| == |f| && IsRewrite(f, r);
    r
  }

  lemma {:induction false} RewriteIs(f: Frame)
    requires HasIpHeader(f)
    ensures HasIpHeader(Flipped(f)) && Rewrite(f) == FixIpChecksum(Flipped(f))
  {
    assert Open(0);
  }

  /** Short frames are copied into a zeroed buffer of the minimum length. */
  function Pad(f: Frame): (r: Frame)
    ensures |r| >= ETH_ZLEN && f <= r
  {
    if |f| < ETH_ZLEN then f + Zeros(ETH_ZLEN - |f|) else f
  }

  /** What the stack must respect when it hands a frame to the driver. */
  predicate Sendable(f: Frame) {
    |Pad(f)| <= ETH_DATA_LEN && HasIpHeader(Pad(f))
  }

  ghost predicate IsWire(f: Frame, r: Frame)
    requires Sendable(f)
  {
    forall x {:trigger Open(x)} | Open(x) :: r == Rewrite(Pad(f))
  }

  /** The octets that travel for a submitted frame: padded, then rewritten. */
  ghost function Wire(f: Frame): (r: Frame)
    requires Sendable(f)
    ensures |r| == |Pad(f)| && IsWire(f, r)
  {
    assert IsWire(f, Rewrite(Pad(f)));
    var r: Frame :| |r| == |Pad(f)| && IsWire(f, r);
    r
  }

  lemma {:induction false} WireIs(f: Frame)
    requires Sendable(f)
    ensures Wire(f) == Rewrite(Pad(f))
  {
    assert Open(0);
  }

  /** The in-place rewrite at the head of snull_hw_tx; too-short frames are left alone. */
  method RewriteInPlace(buf: array<byte>) returns (sent: bool)
    requires buf.Length >= ETH_HLEN + IP_HLEN ==> HasIpHeader(buf[..])
    modifies buf
    ensures sent <==> buf.Length >= ETH_HLEN + IP_HLEN
    ensures buf[..] == if sent then Rewrite(old(buf[..])) else old(buf[..])
  {
    if buf.Length < ETH_HLEN + IP_HLEN {
      return false;
    }
    buf[SADDR_2] := FlipLow(buf[SADDR_2]);
    buf[DADDR_2] := FlipLow(buf[DADDR_2]);
    RewriteIs(old(buf[..]));
    assert buf[..] == Flipped(old(buf[..]));
    FixIpChecksumInPlace(buf);
    return true;
  }

  // ------------------------------------------------------------- properties

  lemma {:induction false} FlippedHeader(f: Frame)
    requires HasIpHeader(f)
    ensures HasIpHeader(Flipped(f))
    ensures IpHeader(Flipped(f)) == IpHeader(f)[14 := FlipLow(f[SADDR_2])][18 := FlipLow(f[DADDR_2])]
    ensures Flipped(Flipped(f)) == f
  {
  }

  /** Every rewritten frame carries a header that verifies, whatever checksum it came with. */
  lemma {:induction false} RewriteVerifies(f: Frame)
    requires HasIpHeader(f)
    ensures HasIpHeader(Rewrite(f)) && Verifies(IpHeader(Rewrite(f)))
  {
    RewriteIs(f);
    FixedHeader(Flipped(f));
  }

  /** The rewrite touches two address octets and the checksum, and nothing else. */
  lemma {:induction false} RewriteFootprint(f: Frame)
    requires HasIpHeader(f)
    ensures Rewrite(f)[SADDR_2] == FlipLow(f[SADDR_2]) && Rewrite(f)[DADDR_2] == FlipLow(f[DADDR_2])
    ensures forall i | 0 <= i < |f| && i !in {IP_CHECK, IP_CHECK + 1, SADDR_2, DADDR_2} :: Rewrite(f)[i] == f[i]
  {
    RewriteIs(f);
  }

  /** Going through both devices normalises the checksum and changes nothing else. */
  lemma {:induction false} RewriteTwice(f: Frame)
    requires HasIpHeader(f)
    ensures HasIpHeader(Rewrite(f))
    ensures Rewrite(Rewrite(f)) == FixIpChecksum(f)
  {
    FlippedHeader(f);
    RewriteIs(f);
    var e, g := Flipped(f), Rewrite(f);
    FixedHeader(e);
    FlippedHeader(g);
    RewriteIs(g);
    var d := Flipped(g);
    assert forall i | 0 <= i < |f| && i != IP_CHECK && i != IP_CHECK + 1 :: d[i] == f[i];
    CanonicalIgnoresField(IpHeader(f), IpHeader(d), CHECK);
    StoredUnique(f, IP_CHECK, Canonical(IpHeader(f), CHECK), FixIpChecksum(d));
  }

  /**
   * Round trip: a frame whose header verifies comes back octet for octet from
   * its twin exactly when its checksum field is not the alternative spelling
   * 0xFFFF of zero.
   */
  lemma {:induction false} RoundTrip(f: Frame)
    requires HasIpHeader(f) && Verifies(IpHeader(f))
    ensures HasIpHeader(Rewrite(f))
    ensures Rewrite(Rewrite(f)) == f <==> Be16(f, IP_CHECK) != 0xFFFF
  {
    RewriteTwice(f);
    FixedHeader(f);
    var h := IpHeader(f);
    VerifiesIff(h, CHECK);
    CanonicalNotAllOnes(h, CHECK, 0);
    assert Be16(h, CHECK) == Be16(f, IP_CHECK);
    if Be16(f, IP_CHECK) == Canonical(h, CHECK) {
      StoredUnique(f, IP_CHECK, Canonical(h, CHECK), f);
    }
  }

  /** The non-canonical 0xFFFF does occur in headers that verify, and does not survive. */
  lemma {:induction false} RoundTripCounterexample() returns (f: Frame)
    ensures HasIpHeader(f) && Verifies(IpHeader(f)) && Be16(f, IP_CHECK) == 0xFFFF
    ensures HasIpHeader(Rewrite(f)) && Rewrite(Rewrite(f)) != f
  {
    f := Zeros(34)[ETH_HLEN := 0x45][20 := 0xBA][21 := 0xFF][IP_CHECK := 0xFF][IP_CHECK + 1 := 0xFF];
    var h := IpHeader(f);
    var z := Zeros(20);
    TotalZeros(20);
    assert h == z[0 := 0x45][6 := 0xBA][7 := 0xFF][10 := 0xFF][11 := 0xFF];
    TotalUpdate(z, 0, 0x45);
    TotalUpdate(z[0 := 0x45], 6, 0xBA);
    TotalUpdate(z[0 := 0x45][6 := 0xBA], 7, 0xFF);
    TotalUpdate(z[0 := 0x45][6 := 0xBA][7 := 0xFF], 10, 0xFF);
    TotalUpdate(z[0 := 0x45][6 := 0xBA][7 := 0xFF][10 := 0xFF], 11, 0xFF);
    assert Total(h) == 2 * 0xFFFF;
    OcSumIsNorm(h);
    NormUnique(Total(h), 0xFFFF, 1);
    RoundTrip(f);
  }

  lemma {:induction false} TotalZeros(n: nat)
    ensures Total(Zeros(n)) == 0
  {
    if n >= 2 {
      assert Zeros(n)[2..] == Zeros(n - 2);
      TotalZeros(n - 2);
    }
  }

  /**
   * Parity law: when the checksum is canonical, the rewrite leaves it unchanged
   * exactly when the low bits of the two third octets differ, so that one
   * address moves up by 256 and the other down.
   */
  lemma {:induction false} ParityLaw(f: Frame)
    requires HasIpHeader(f) && Be16(f, IP_CHECK) == Canonical(IpHeader(f), CHECK)
    ensures Be16(Rewrite(f), IP_CHECK) == Be16(f, IP_CHECK) <==> f[SADDR_2] % 2 != f[DADDR_2] % 2
  {
    FlippedHeader(f);
    RewriteIs(f);
    FixedHeader(Flipped(f));
    ParityOfHeader(IpHeader(f), FlipLow(f[SADDR_2]), FlipLow(f[DADDR_2]));
  }

  lemma {:induction false} ParityOfHeader(h: seq<byte>, s: byte, d: byte)
    requires |h| >= 20 && -1 <= s - h[14] <= 1 && -1 <= d - h[18] <= 1
    ensures Canonical(h[14 := s][18 := d], CHECK) == Canonical(h, CHECK) <==> s - h[14] + d - h[18] == 0
  {
    var z, h' := Cleared(h, CHECK), h[14 := s][18 := d];
    var z': seq<byte> := z[14 := s][18 := d];
    StoredUnique(h', CHECK, 0, z');
    CanonicalIs(h, CHECK);
    CanonicalIs(h', CHECK);
    TotalUpdate(z, 14, s);
    TotalUpdate(z[14 := s], 18, d);
    OcSumIsNorm(z);
    OcSumIsNorm(z');
    NormInjectiveNearby(Total(z), Total(z'));
  }

  // --------------------------------------------------------------- in octets

  /** An IPv4 packet in an Ethernet frame, octet by octet; tail holds options, payload and padding. */
  datatype IpFrame = IpFrame(
    eth: seq<byte>, first: byte, mid: seq<byte>, check: word, src: seq<byte>, dst: seq<byte>, tail: seq<byte>)
  {
    predicate Shaped() { |eth| == 14 && |mid| == 9 && |src| == 4 && |dst| == 4 }

    ghost function Octets(): seq<byte> { eth + Header(tail) }

    ghost function Header(options: seq<byte>): seq<byte> { [first] + mid + Be(check) + src + dst + options }
  }

  /** The header length is the low half of the first octet behind the Ethernet header. */
  lemma {:induction false} HeaderInOctets(p: IpFrame, ihl: nat)
    requires p.Shaped() && 5 <= ihl <= 15 && p.first == 0x40 + ihl && 4 * ihl - 20 <= |p.tail|
    ensures HasIpHeader(p.Octets()) && IpHeader(p.Octets()) == p.Header(p.tail[..4 * ihl - 20])
  {
    var f := p.Octets();
    assert f[14] == p.first;
    assert Ihl(f) == ihl;
    assert p.tail == p.tail[..4 * ihl - 20] + p.tail[4 * ihl - 20..];
    assert f == p.eth + p.Header(p.tail[..4 * ihl - 20]) + p.tail[4 * ihl - 20..];
  }

  /** The address with the lowest bit of its third octet flipped. */
  function Neighbour(a: seq<byte>): seq<byte>
    requires |a| == 4
  {
    [a[0], a[1], if a[2] % 2 == 0 then a[2] + 1 else a[2] - 1, a[3]]
  }

  lemma {:induction false} FlippedInOctets(p: IpFrame)
    requires p.Shaped()
    ensures Flipped(p.Octets()) == p.(src := Neighbour(p.src), dst := Neighbour(p.dst)).Octets()
  {
    var f, q := p.Octets(), p.(src := Neighbour(p.src), dst := Neighbour(p.dst));
    var head := p.eth + [p.first] + p.mid + Be(p.check);
    assert f == head + p.src + p.dst + p.tail && q.Octets() == head + q.src + q.dst + q.tail;
    forall k | 0 <= k < |f| ensures Flipped(f)[k] == q.Octets()[k] {
      assert 26 <= k < 30 ==> f[k] == p.src[k - 26] && q.Octets()[k] == q.src[k - 26];
      assert 30 <= k < 34 ==> f[k] == p.dst[k - 30] && q.Octets()[k] == q.dst[k - 30];
    }
  }

  lemma {:induction false} CheckInOctets(p: IpFrame, c: word)
    requires p.Shaped()
    ensures PutBe16(p.Octets(), 24, c) == p.(check := c).Octets()
    ensures forall options :: PutBe16(p.Header(options), 10, c) == p.(check := c).Header(options)
  {
    BeIs(c);
    StoredUnique(p.Octets(), 24, c, p.(check := c).Octets());
    forall options ensures PutBe16(p.Header(options), 10, c) == p.(check := c).Header(options) {
      StoredUnique(p.Header(options), 10, c, p.(check := c).Header(options));
    }
  }

  /** The rewrite, in octets: neighbouring addresses, and the checksum of the header with its field cleared. */
  lemma {:induction false} RewriteInOctets(p: IpFrame, ihl: nat)
    requires p.Shaped() && 5 <= ihl <= 15 && p.first == 0x40 + ihl && 4 * ihl - 20 <= |p.tail|
    ensures HasIpHeader(p.Octets())
    ensures var q := p.(src := Neighbour(p.src), dst := Neighbour(p.dst), check := 0);
            Rewrite(p.Octets()) == q.(check := ChecksumOf(q.Header(p.tail[..4 * ihl - 20]))).Octets()
  {
    var m := p.(src := Neighbour(p.src), dst := Neighbour(p.dst));
    var options := p.tail[..4 * ihl - 20];
    HeaderInOctets(p, ihl);
    RewriteIs(p.Octets());
    FlippedInOctets(p);
    HeaderInOctets(m, ihl);
    CanonicalIs(m.Header(options), CHECK);
    CheckInOctets(m, 0);
    ChecksumIs(Cleared(m.Header(options), CHECK));
    CheckInOctets(m, Canonical(m.Header(options), CHECK));
  }

  /**
   * What travels for a submitted frame, in octets: at least 60 of them, the
   * missing ones zero, the rest as submitted but for the third octets of the
   * addresses and the checksum; and which frames may be submitted.
   */
  lemma {:induction false} WireInOctets(p: IpFrame, ihl: nat)
    requires p.Shaped() && 5 <= ihl <= 15 && p.first == 0x40 + ihl && 4 * ihl - 20 <= |p.tail|
    ensures Sendable(p.Octets()) <==> 34 + |p.tail| <= 1500
    ensures 34 + |p.tail| <= 1500 ==>
              var tail := if |p.tail| < 26 then p.tail + seq(26 - |p.tail|, _ => 0) else p.tail;
              var q := p.(src := Neighbour(p.src), dst := Neighbour(p.dst), check := 0, tail := tail);
              Wire(p.Octets()) == q.(check := ChecksumOf(q.Header(tail[..4 * ihl - 20]))).Octets()
  {
    var tail := if |p.tail| < 26 then p.tail + seq(26 - |p.tail|, _ => 0) else p.tail;
    var r := p.(tail := tail);
    PadInOctets(p);
    RewriteInOctets(r, ihl);
    if 34 + |p.tail| <= 1500 { WireIs(p.Octets()); }
  }

  lemma {:induction false} PadInOctets(p: IpFrame)
    requires p.Shaped()
    ensures var tail := if |p.tail| < 26 then p.tail + seq(26 - |p.tail|, _ => 0) else p.tail;
            Pad(p.Octets()) == p.(tail := tail).Octets()
  {
    var f := p.Octets();
    if |p.tail| < 26 {
      var z: seq<byte> := seq(26 - |p.tail|, _ => 0);
      assert Zeros(ETH_ZLEN - |f|) == z;
      assert f + z == p.(tail := p.tail + z).Octets();
    }
  }

  /** The same of any frame that may be submitted, position by position. */
  lemma {:induction false} WireZeros(f: Frame)
    requires Sendable(f)
    ensures |Wire(f)| == if |f| < 60 then 60 else |f|
    ensures forall i | |f| <= i < |Wire(f)| && i !in {24, 25, 28, 32} :: Wire(f)[i] == 0
    ensures forall i | 0 <= i < |f| && i !in {24, 25, 28, 32} :: Wire(f)[i] == f[i]
  {
    WireIs(f);
    RewriteFootprint(Pad(f));
  }
}
