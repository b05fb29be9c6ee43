/**
 * The reflector of the dummy Ethernet driver: ARP requests and ICMP echo
 * requests are turned into their replies inside the frame that carried them.
 */
module Reflector {
  import opened Options
  import opened Bytes
  import opened InternetChecksum
  import opened Ethernet

  const ETH_P_ARP: word := 0x0806
  const ETH_P_IP: word := 0x0800
  const ARP_END := 42
  const ICMP_ECHO: byte := 8

  type Mac = s: seq<byte> | |s| == 6 witness [0, 0, 0, 0, 0, 0]
  type Ip4 = s: seq<byte> | |s| == 4 witness [0, 0, 0, 0]

  /** A locally administered unicast address that names the IPv4 address. */
  function FakeMac(ip: Ip4): Mac { [0x02, 0xDE] + ip }

  // ----------------------------------------------------------------- fields

  function DstMac(f: Frame): Mac requires |f| >= ETH_HLEN { f[0..6] }

  function SrcMac(f: Frame): Mac requires |f| >= ETH_HLEN { f[6..12] }

  function Proto(f: Frame): word requires |f| >= ETH_HLEN { Be16(f, 12) }

  function ArpOp(f: Frame): word requires |f| >= ARP_END { Be16(f, 20) }

  function ArpSha(f: Frame): Mac requires |f| >= ARP_END { f[22..28] }

  function ArpSpa(f: Frame): Ip4 requires |f| >= ARP_END { f[28..32] }

  function ArpTha(f: Frame): Mac requires |f| >= ARP_END { f[32..38] }

  function ArpTpa(f: Frame): Ip4 requires |f| >= ARP_END { f[38..42] }

  function SrcIp(f: Frame): Ip4 requires |f| >= ETH_HLEN + IP_HLEN { f[26..30] }

  function DstIp(f: Frame): Ip4 requires |f| >= ETH_HLEN + IP_HLEN { f[30..34] }

  function TotLen(f: Frame): word requires |f| >= ETH_HLEN + IP_HLEN { Be16(f, 16) }

  // -------------------------------------------------------------------- ARP

  predicate ArpAccepts(f: Frame) {
    && |f| >= ARP_END
    && ArpOp(f) == 1 && Be16(f, 16) == ETH_P_IP && f[18] == 6 && f[19] == 4
  }

  /** The reply, field by field. */
  function ArpReply(f: Frame): (r: Frame)
    requires ArpAccepts(f)
    ensures |r| == |f|
  {
    var fake := FakeMac(ArpTpa(f));
    ArpSha(f) + fake + f[12..20] + [0, 2] + fake + ArpTpa(f) + ArpSha(f) + ArpSpa(f) + f[ARP_END..]
  }

  /**
   * An ARP reply answers for the address asked about with its synthetic MAC,
   * goes back to the asker, keeps everything else, and is not itself a request.
   */
  lemma {:induction false} ArpReplyAnswers(f: Frame)
    requires ArpAccepts(f)
    ensures var r := ArpReply(f);
            && DstMac(r) == ArpSha(f) && SrcMac(r) == FakeMac(ArpTpa(f)) && ArpOp(r) == 2
            && ArpSha(r) == FakeMac(ArpTpa(f)) && ArpSpa(r) == ArpTpa(f)
            && ArpTha(r) == ArpSha(f) && ArpTpa(r) == ArpSpa(f)
            && r[12..20] == f[12..20] && r[ARP_END..] == f[ARP_END..]
            && Proto(r) == Proto(f) && !ArpAccepts(r)
  {
    var r := ArpReply(f);
    assert Proto(r) == Proto(f) by { assert r[12] == f[12] && r[13] == f[13]; }
    assert r[20] == 0 && r[21] == 2;
  }

  // ------------------------------------------------------------------- ICMP

  predicate IcmpAccepts(f: Frame) {
    && |f| >= ETH_HLEN + IP_HLEN && f[23] == 1
    && |f| >= HeaderEnd(f) + 8 && f[HeaderEnd(f)] == ICMP_ECHO
  }

  /** What the code takes for granted: a full header, and an ICMP message inside the frame. */
  predicate EchoInside(f: Frame) {
    && |f| >= ETH_HLEN + IP_HLEN
    && Ihl(f) >= 5 && 4 * Ihl(f) + 8 <= TotLen(f) && ETH_HLEN + TotLen(f) <= |f|
  }

  function IcmpMessage(f: Frame): (m: seq<byte>)
    requires EchoInside(f)
    ensures |m| == TotLen(f) - 4 * Ihl(f) >= 8
  {
    f[HeaderEnd(f)..ETH_HLEN + TotLen(f)]
  }

  /** Both address pairs exchanged. */
  function Swapped(f: Frame): (r: Frame)
    requires |f| >= ETH_HLEN + IP_HLEN
    ensures |r| == |f|
  {
    f[6..12] + f[0..6] + f[12..26] + f[30..34] + f[26..30] + f[34..]
  }

  /** The reply before its two checksums are rebuilt. */
  function Turned(f: Frame): (r: Frame)
    requires EchoInside(f)
    ensures |r| == |f|
  {
    Swapped(f)[HeaderEnd(f) := 0]
  }

  ghost function IcmpReply(f: Frame): (r: Frame)
    requires EchoInside(f)
    ensures |r| == |f|
  {
    var g := FixIpChecksum(Turned(f));
    PutBe16(g, HeaderEnd(f) + 2, Canonical(IcmpMessage(g), 2))
  }

  lemma {:induction false} TurnedParts(f: Frame)
    requires EchoInside(f)
    ensures var g := Turned(f);
            && EchoInside(g) && HasIpHeader(g) && HasIpHeader(f)
            && Ihl(g) == Ihl(f) && TotLen(g) == TotLen(f)
            && IcmpMessage(g) == IcmpMessage(f)[0 := 0]
            && IpHeader(g) == IpHeader(f)[..12] + DstIp(f) + SrcIp(f) + IpHeader(f)[20..]
            && DstMac(g) == SrcMac(f) && SrcMac(g) == DstMac(f) && SrcIp(g) == DstIp(f) && DstIp(g) == SrcIp(f)
  {
    var g, w := Turned(f), Swapped(f);
    SwappedParts(f);
    assert g[14] == f[14] && g[16] == f[16] && g[17] == f[17] by {
      assert w[12..26][2] == w[14] && w[12..26][4] == w[16] && w[12..26][5] == w[17];
    }
    assert g[0..6] == w[0..6] && g[6..12] == w[6..12] && g[26..30] == w[26..30] && g[30..34] == w[30..34];
    assert w[HeaderEnd(f)..] == f[HeaderEnd(f)..] by {
      assert w[34..][HeaderEnd(f) - 34..] == w[HeaderEnd(f)..];
      assert f[34..][HeaderEnd(f) - 34..] == f[HeaderEnd(f)..];
    }
    assert IcmpMessage(g) == IcmpMessage(f)[0 := 0] by {
      var n := TotLen(f) - 4 * Ihl(f);
      assert IcmpMessage(f) == f[HeaderEnd(f)..][..n] && IcmpMessage(g) == w[HeaderEnd(f)..][..n][0 := 0];
    }
    HeaderTurned(f);
  }

  lemma {:induction false} SwappedParts(f: Frame)
    requires |f| >= ETH_HLEN + IP_HLEN
    ensures var w := Swapped(f);
            && w[0..6] == f[6..12] && w[6..12] == f[0..6] && w[12..26] == f[12..26]
            && w[26..30] == f[30..34] && w[30..34] == f[26..30] && w[34..] == f[34..]
  {
  }

  lemma {:induction false} HeaderTurned(f: Frame)
    requires EchoInside(f) && HasIpHeader(f) && HasIpHeader(Turned(f)) && Ihl(Turned(f)) == Ihl(f)
    ensures IpHeader(Turned(f)) == IpHeader(f)[..12] + DstIp(f) + SrcIp(f) + IpHeader(f)[20..]
  {
    var g, h := Turned(f), IpHeader(f)[..12] + DstIp(f) + SrcIp(f) + IpHeader(f)[20..];
    forall k | 0 <= k < 4 * Ihl(f) ensures IpHeader(g)[k] == h[k] {
      assert IpHeader(g)[k] == g[ETH_HLEN + k] == Swapped(f)[ETH_HLEN + k];
      assert IpHeader(f)[k] == f[ETH_HLEN + k];
    }
  }

  lemma {:induction false} IcmpReplyParts(f: Frame)
    requires EchoInside(f)
    ensures var r, g := IcmpReply(f), Turned(f);
            && EchoInside(r) && HasIpHeader(r) && HasIpHeader(g) && EchoInside(g)
            && Ihl(r) == Ihl(f) && TotLen(r) == TotLen(f)
            && IpHeader(r) == IpHeader(FixIpChecksum(g))
            && IcmpMessage(r) == PutBe16(IcmpMessage(g), 2, Canonical(IcmpMessage(g), 2))
  {
    TurnedParts(f);
    var g, r := Turned(f), IcmpReply(f);
    FixedHeader(g);
    var h := FixIpChecksum(g);
    assert h[14] == g[14] && h[16] == g[16] && h[17] == g[17];
    assert IcmpMessage(h) == IcmpMessage(g);
    assert r[14] == g[14] && r[16] == g[16] && r[17] == g[17];
    assert IpHeader(r) == IpHeader(h);
    PutSlice(h, HeaderEnd(f), ETH_HLEN + TotLen(f), HeaderEnd(f) + 2, Canonical(IcmpMessage(g), 2));
  }

  predicate Touched(f: Frame, i: nat)
    requires |f| > ETH_HLEN
  {
    i < 12 || IP_CHECK <= i < 34 || i == HeaderEnd(f) || HeaderEnd(f) + 2 <= i < HeaderEnd(f) + 4
  }

  /**
   * An echo reply has both checksums right, both address pairs exchanged, type
   * echo reply, and every other octet (identifier, sequence number and data
   * included) as it was; and it is not accepted a second time.
   */
  lemma {:induction false} EchoReplyCorrect(f: Frame)
    requires IcmpAccepts(f) && EchoInside(f)
    ensures var r := IcmpReply(f);
            && EchoInside(r) && HasIpHeader(r) && Verifies(IpHeader(r)) && Verifies(IcmpMessage(r))
            && DstMac(r) == SrcMac(f) && SrcMac(r) == DstMac(f)
            && DstIp(r) == SrcIp(f) && SrcIp(r) == DstIp(f)
            && HeaderEnd(r) == HeaderEnd(f) && r[HeaderEnd(f)] == 0 && !IcmpAccepts(r)
            && (forall i | 0 <= i < |f| && !Touched(f, i) :: r[i] == f[i])
            && Proto(r) == Proto(f)
  {
    IcmpReplyParts(f);
    TurnedParts(f);
    var g, r := Turned(f), IcmpReply(f);
    FixedHeader(g);
    StoredChecksumVerifies(IcmpMessage(g), 2);
    assert forall i | 0 <= i < |f| && !Touched(f, i) :: g[i] == f[i];
    assert r[HeaderEnd(f)] == g[HeaderEnd(f)] == 0;
    assert Proto(r) == Proto(f) by { assert r[12] == f[12] && r[13] == f[13]; }
    assert DstIp(r) == DstIp(g) && SrcIp(r) == SrcIp(g) && DstMac(r) == DstMac(g) && SrcMac(r) == SrcMac(g);
  }

  // -------------------------------------------------------- checksum laws

  lemma {:induction false} TotalConcat(a: seq<byte>, b: seq<byte>)
    requires |a| % 2 == 0
    ensures Total(a + b) == Total(a) + Total(b)
  {
    if a == [] {
      assert a + b == b;
    } else {
      assert (a + b)[2..] == a[2..] + b;
      TotalConcat(a[2..], b);
    }
  }

  lemma {:induction false} TotalOfFour(a: seq<byte>, x: seq<byte>, y: seq<byte>, b: seq<byte>)
    requires |a| % 2 == 0 && |x| % 2 == 0 && |y| % 2 == 0
    ensures Total(a + x + y + b) == Total(a) + Total(x) + Total(y) + Total(b)
  {
    TotalConcat(a + x + y, b);
    TotalConcat(a + x, y);
    TotalConcat(a, x);
  }

  /** Exchanging two addresses does not change a sum. */
  lemma {:induction false} SwapKeepsTotal(a: seq<byte>, x: seq<byte>, y: seq<byte>, b: seq<byte>)
    requires |a| % 2 == 0 && |x| % 2 == 0 && |y| % 2 == 0
    ensures Total(a + x + y + b) == Total(a + y + x + b)
  {
    TotalOfFour(a, x, y, b);
    TotalOfFour(a, y, x, b);
  }

  /** Exchanging the addresses of a header does not change its canonical checksum. */
  lemma {:induction false} SwapKeepsCanonical(h: seq<byte>, x: seq<byte>, y: seq<byte>, t: seq<byte>)
    requires |h| == 12 && |x| == 4 && |y| == 4
    ensures Canonical(h + x + y + t, CHECK) == Canonical(h + y + x + t, CHECK)
  {
    SwapCleared(h, x, y, t);
    SwapCleared(h, y, x, t);
    SwapKeepsTotal(Cleared(h, CHECK), x, y, t);
    CanonicalByTotal(h + x + y + t, h + y + x + t, CHECK);
  }

  lemma {:induction false} SwapCleared(h: seq<byte>, x: seq<byte>, y: seq<byte>, t: seq<byte>)
    requires |h| == 12
    ensures Cleared(h + x + y + t, CHECK) == Cleared(h, CHECK) + x + y + t
  {
    PutPrefix(h, x + y + t, CHECK, 0);
    assert h + x + y + t == h + (x + y + t);
    assert Cleared(h, CHECK) + x + y + t == Cleared(h, CHECK) + (x + y + t);
  }

  lemma {:induction false} PutPrefix(h: seq<byte>, t: seq<byte>, k: nat, w: word)
    requires k + 2 <= |h|
    ensures PutBe16(h + t, k, w) == PutBe16(h, k, w) + t
  {
    StoredUnique(h + t, k, w, PutBe16(h, k, w) + t);
  }

  lemma {:induction false} CanonicalByTotal(s: seq<byte>, s': seq<byte>, k: nat)
    requires k + 2 <= |s| && k + 2 <= |s'| && Total(Cleared(s, k)) == Total(Cleared(s', k))
    ensures Canonical(s, k) == Canonical(s', k)
  {
    CanonicalIs(s, k);
    CanonicalIs(s', k);
    OcSumIsNorm(Cleared(s, k));
    OcSumIsNorm(Cleared(s', k));
  }

  /** A request whose IP checksum is canonical gets a reply with the same IP checksum. */
  lemma {:induction false} IpChecksumUnchanged(f: Frame)
    requires EchoInside(f) && HasIpHeader(f) && Be16(f, IP_CHECK) == Canonical(IpHeader(f), CHECK)
    ensures Be16(IcmpReply(f), IP_CHECK) == Be16(f, IP_CHECK)
  {
    TurnedParts(f);
    IcmpReplyParts(f);
    FixedHeader(Turned(f));
    var h := IpHeader(f);
    assert h == h[..12] + SrcIp(f) + DstIp(f) + h[20..];
    SwapKeepsCanonical(h[..12], SrcIp(f), DstIp(f), h[20..]);
    var r := IcmpReply(f);
    assert Be16(r, IP_CHECK) == Be16(IpHeader(r), CHECK);
  }

  /** The incremental update HC' = ~(~HC + ~m + m') of section 3 of RFC 1624 (its equation 3). */
  function Eqn3(hc: word, m: word, m': word): word {
    Complement(Add(Add(Complement(hc), Complement(m)), m'))
  }

  /** Changing the top word of a message from m to m', in residues. */
  lemma {:induction false} Eqn3Residue(t: nat, t': nat, hc: word, m: word, m': word)
    requires m <= t && t' == t - m + m'
    requires hc == Complement(Norm(t)) || (Norm(t) == 0xFFFF && hc == 0xFFFF)
    requires 0 < m < 0xFFFF
    ensures Eqn3(hc, m, m') == if t' == 0 then 0 else Complement(Norm(t'))
  {
    var q := NormQuotient(t);
    var a := Add(Complement(hc), Complement(m));
    var p := AddQuotient(Complement(hc), Complement(m));
    var r := AddQuotient(a, m');
    var q' := NormQuotient(t');
    var s := if hc == Complement(Norm(t)) then 0 else 1;
    if t' == 0 {
      SameResidue(Add(a, m'), 0xFFFF, -q - p - r - s);
    } else {
      SameResidue(Add(a, m'), Norm(t'), q' - q - p - r + 1 - s);
    }
  }

  /** All octets zero but the type and the checksum. */
  predicate Quiet(m: seq<byte>) {
    forall i | 0 <= i < |m| && i != 0 && i != 2 && i != 3 :: m[i] == 0
  }

  predicate AllZero(s: seq<byte>) { forall i | 0 <= i < |s| :: s[i] == 0 }

  lemma {:induction false} AllZeroIff(s: seq<byte>)
    ensures AllZero(s) <==> Total(s) == 0
  {
    if Total(s) == 0 {
      TotalZero(s);
    } else {
      var i := NonzeroOctet(s);
      assert s[i] != 0;
    }
  }

  /** s is m with its first octet cleared. */
  predicate FirstCleared(m: seq<byte>, s: seq<byte>) {
    |s| == |m| >= 8 && s[0] == 0 && forall i | 0 < i < |m| :: s[i] == m[i]
  }

  lemma {:induction false} QuietIsZero(m: seq<byte>, s: seq<byte>)
    requires FirstCleared(m, s) && Quiet(m)
    ensures AllZero(Cleared(s, 2))
  {
    assert Be16(Cleared(s, 2), 2) == 0;
  }

  lemma {:induction false} ZeroIsQuiet(m: seq<byte>, s: seq<byte>)
    requires FirstCleared(m, s) && AllZero(Cleared(s, 2))
    ensures Quiet(m)
  {
    var z := Cleared(s, 2);
    forall i | 0 <= i < |m| && i != 0 && i != 2 && i != 3 ensures m[i] == 0 { assert m[i] == s[i] == z[i]; }
  }

  lemma {:induction false} TypeChange(m: seq<byte>)
    requires |m| >= 8 && m[0] == ICMP_ECHO
    ensures Word(8, m[1]) <= Total(Cleared(m, 2))
    ensures Total(Cleared(m[0 := 0], 2)) == Total(Cleared(m, 2)) - Word(8, m[1]) + Word(0, m[1])
  {
    var z := Cleared(m, 2);
    StoredUnique(m[0 := 0], 2, 0, z[0 := 0]);
    TotalUpdate(z, 0, 0);
    assert Total(z) == Word(z[0], z[1]) + Total(z[2..]);
  }

  lemma {:induction false} MessageChecksumLaw(m: seq<byte>)
    requires |m| >= 8 && m[0] == ICMP_ECHO && Verifies(m)
    ensures var hc', predicted := Canonical(m[0 := 0], 2), Eqn3(Be16(m, 2), Word(8, m[1]), Word(0, m[1]));
            && (Quiet(m) ==> hc' == 0xFFFF && predicted == 0)
            && (!Quiet(m) ==> hc' == predicted)
  {
    var z, z' := Cleared(m, 2), Cleared(m[0 := 0], 2);
    TypeChange(m);
    if Quiet(m) { QuietIsZero(m, m[0 := 0]); } else if AllZero(z') { ZeroIsQuiet(m, m[0 := 0]); }
    AllZeroIff(z');
    VerifiesIff(m, 2);
    CanonicalIs(m, 2);
    CanonicalIs(m[0 := 0], 2);
    OcSumIsNorm(z);
    OcSumIsNorm(z');
    Eqn3Residue(Total(z), Total(z'), Be16(m, 2), Word(8, m[1]), Word(0, m[1]));
  }

  /**
   * ICMP checksum law: for every echo request that verifies, the recomputed
   * reply checksum is what the incremental update predicts for the change of
   * type, except for a reply that is all zero apart from its checksum, where the
   * driver stores 0xFFFF and the update gives 0.
   */
  lemma {:induction false} IcmpChecksumLaw(f: Frame)
    requires IcmpAccepts(f) && EchoInside(f) && Verifies(IcmpMessage(f))
    ensures var m, hc' := IcmpMessage(f), Be16(IcmpReply(f), HeaderEnd(f) + 2);
            var predicted := Eqn3(Be16(m, 2), Word(8, m[1]), Word(0, m[1]));
            && (Quiet(m) ==> hc' == 0xFFFF && predicted == 0)
            && (!Quiet(m) ==> hc' == predicted)
  {
    TurnedParts(f);
    IcmpReplyParts(f);
    MessageChecksumLaw(IcmpMessage(f));
    assert Be16(IcmpReply(f), HeaderEnd(f) + 2) == Be16(IcmpMessage(IcmpReply(f)), 2);
  }

  lemma {:induction false} NonzeroOctet(s: seq<byte>) returns (i: nat)
    requires Total(s) > 0
    ensures i < |s| && s[i] != 0
  {
    if s[0] != 0 {
      i := 0;
    } else if |s| >= 2 && s[1] != 0 {
      i := 1;
    } else {
      i := NonzeroOctet(s[2..]);
      i := i + 2;
    }
  }

  // -------------------------------------------------------------- dispatch

  /** What the code takes for granted of a frame, without a test. */
  predicate Granted(f: Frame) {
    |f| >= ETH_HLEN && Proto(f) == ETH_P_IP && IcmpAccepts(f) ==> EchoInside(f)
  }

  /** Frames for which the code's unchecked assumptions hold. */
  ghost predicate Reflectable(f: Frame) {
    forall x {:trigger Unfold(x)} | Unfold(x) :: Granted(f)
  }

  /** By protocol: an accepted frame is answered, any other is not. */
  ghost function Answer(f: Frame): Option<Frame>
    requires Granted(f)
  {
    if |f| < ETH_HLEN then None
    else if Proto(f) == ETH_P_ARP then (if ArpAccepts(f) then Some(ArpReply(f)) else None)
    else if Proto(f) == ETH_P_IP then (if IcmpAccepts(f) then Some(IcmpReply(f)) else None)
    else None
  }

  ghost predicate IsReflection(f: Frame, r: Option<Frame>) {
    forall x {:trigger Unfold(x)} | Unfold(x) :: Granted(f) && r == Answer(f)
  }

  ghost predicate SameSize(f: Frame, r: Option<Frame>) { r.Some? ==> |r.value| == |f| >= ETH_HLEN }

  /** dummy_eth_rx: the frame handed back to the stack, or None for one that is freed. */
  ghost function Reflect(f: Frame): (r: Option<Frame>)
    requires Reflectable(f)
    ensures IsReflection(f, r) && SameSize(f, r)
  {
    assert Unfold(0);
    assert IsReflection(f, Answer(f)) && SameSize(f, Answer(f));
    var r :| IsReflection(f, r) && SameSize(f, r);
    r
  }

  lemma {:induction false} ReflectIs(f: Frame)
    requires Reflectable(f)
    ensures Granted(f) && Reflect(f) == Answer(f)
  {
    assert Unfold(0);
  }

  /** What the reflector produced, it does not reflect again. */
  lemma {:induction false} ReflectOnce(f: Frame)
    requires Reflectable(f) && Reflect(f).Some?
    ensures Reflectable(Reflect(f).value) && Reflect(Reflect(f).value) == None
    ensures Proto(Reflect(f).value) == Proto(f)
  {
    ReflectIs(f);
    if Proto(f) == ETH_P_ARP { ArpReplyAnswers(f); } else { EchoReplyCorrect(f); }
    ReflectIs(Reflect(f).value);
  }

  /** Distinct addresses have distinct synthetic MACs. */
  lemma {:induction false} FakeMacInjective(a: Ip4, b: Ip4)
    requires FakeMac(a) == FakeMac(b)
    ensures a == b
  {
    assert a == FakeMac(a)[2..] == FakeMac(b)[2..] == b;
  }

  // --------------------------------------------------------------- in octets

  /** Which frames are answered, by their octets. */
  lemma {:induction false} AnsweredIff(f: Frame)
    requires Reflectable(f)
    ensures Reflect(f).Some? <==>
              || (|f| >= 42 && f[12..14] == [0x08, 0x06] && f[16..22] == [0x08, 0x00, 6, 4, 0, 1])
              || (|f| >= 34 && f[12..14] == [0x08, 0x00] && f[23] == 1
                  && var icmp := 14 + 4 * (f[14] % 16); |f| >= icmp + 8 && f[icmp] == 8)
  {
    ReflectIs(f);
    if |f| >= 42 {
      assert f[16..22] == [f[16], f[17], f[18], f[19], f[20], f[21]];
    }
    if |f| >= 14 { assert f[12..14] == [f[12], f[13]]; }
  }

  /** An ARP message for Ethernet and IPv4 (RFC 826), octet by octet. */
  function ArpOctets(
    dst: Mac, src: Mac, op: byte, sha: Mac, spa: Ip4, tha: Mac, tpa: Ip4, rest: seq<byte>): Frame
  {
    dst + src + [0x08, 0x06] + [0, 1, 0x08, 0x00, 6, 4, 0, op] + sha + spa + tha + tpa + rest
  }

  /** Every request is answered, for the address asked about, with 02:de and that address as its MAC. */
  lemma {:induction false} ArpRequestAnswered(
    dst: Mac, src: Mac, sha: Mac, spa: Ip4, tha: Mac, tpa: Ip4, rest: seq<byte>)
    ensures var f := ArpOctets(dst, src, 1, sha, spa, tha, tpa, rest);
            var mac := [0x02, 0xDE] + tpa;
            Reflectable(f) && Reflect(f) == Some(ArpOctets(sha, mac, 2, mac, tpa, sha, spa, rest))
  {
    var f := ArpOctets(dst, src, 1, sha, spa, tha, tpa, rest);
    ArpFields(f, dst, src, sha, spa, tha, tpa, rest);
    ReflectIs(f);
    var mac := [0x02, 0xDE] + tpa;
    assert f[12..20] == [0x08, 0x06, 0, 1, 0x08, 0x00, 6, 4];
    assert ArpReply(f) == ArpOctets(sha, mac, 2, mac, tpa, sha, spa, rest);
  }

  lemma {:induction false} ArpFields(
    f: Frame, dst: Mac, src: Mac, sha: Mac, spa: Ip4, tha: Mac, tpa: Ip4, rest: seq<byte>)
    requires f == ArpOctets(dst, src, 1, sha, spa, tha, tpa, rest)
    ensures |f| >= 42 && f[12] == 8 && f[13] == 6 && f[14..22] == [0, 1, 8, 0, 6, 4, 0, 1]
    ensures f[22..28] == sha && f[28..32] == spa && f[38..42] == tpa && f[42..] == rest
    ensures Proto(f) == ETH_P_ARP && ArpAccepts(f)
  {
    assert f[14..22] == [0, 1, 8, 0, 6, 4, 0, 1];
    assert f[14..22][2] == f[16] && f[14..22][3] == f[17] && f[14..22][4] == f[18];
    assert f[14..22][5] == f[19] && f[14..22][6] == f[20] && f[14..22][7] == f[21];
  }

  /** An ICMP message in an IPv4 packet in an Ethernet frame, octet by octet (RFC 791, RFC 792). */
  datatype Echo = Echo(
    dst: Mac, src: Mac, ihl: nat, tos: byte, ids: seq<byte>, ttl: byte, check: word, sip: Ip4, dip: Ip4,
    options: seq<byte>, typ: byte, code: byte, sum: word, body: seq<byte>, rest: seq<byte>)
  {
    function Total(): nat { 4 * ihl + 4 + |body| }

    predicate Shaped() {
      5 <= ihl <= 15 && |options| == 4 * ihl - 20 && |ids| == 4 && |body| >= 4 && Total() < 0x1_0000
    }

    ghost function Header(): seq<byte>
      requires Shaped()
    {
      [0x40 + ihl, tos] + Be(Total()) + ids + [ttl, 1] + Be(check) + sip + dip + options
    }

    ghost function Message(): seq<byte> { [typ, code] + Be(sum) + body }

    ghost function Octets(): Frame
      requires Shaped()
    {
      dst + src + [0x08, 0x00] + Header() + Message() + rest
    }
  }

  /** Header and message where they are expected. */
  lemma {:induction false} EchoSlices(e: Echo)
    requires e.Shaped()
    ensures var f, end := e.Octets(), 34 + |e.options|;
            && |f| >= end + 8 && f[12] == 8 && f[13] == 0
            && f[14..end] == e.Header() && f[end..end + 4 + |e.body|] == e.Message()
  {
    var eth := e.dst + e.src + [0x08, 0x00];
    assert e.Octets() == eth + e.Header() + e.Message() + e.rest;
  }

  lemma {:induction false} EchoOctets(e: Echo)
    requires e.Shaped()
    ensures var f, end := e.Octets(), 34 + |e.options|;
            && |f| >= end + 8 && f[14] == 0x40 + e.ihl && f[23] == 1
            && Word(f[16], f[17]) == e.Total() && f[end] == e.typ
  {
    EchoSlices(e);
    var f, end := e.Octets(), 34 + |e.options|;
    var h := e.Header();
    assert h[0] == f[14] && h[2] == f[16] && h[3] == f[17] && h[9] == f[23];
    assert h[2] == Be(e.Total())[0] && h[3] == Be(e.Total())[1];
    BeIs(e.Total());
    assert f[end] == e.Message()[0];
  }

  lemma {:induction false} EchoFields(e: Echo)
    requires e.Shaped()
    ensures var f := e.Octets();
            && |f| >= 34 && Proto(f) == ETH_P_IP && HeaderEnd(f) == 34 + |e.options| && TotLen(f) == e.Total()
            && EchoInside(f) && HasIpHeader(f) && IpHeader(f) == e.Header() && IcmpMessage(f) == e.Message()
            && (IcmpAccepts(f) <==> e.typ == 8)
  {
    EchoSlices(e);
    EchoOctets(e);
    assert Ihl(e.Octets()) == e.ihl;
  }

  /** The header up to the addresses. */
  ghost function EchoStart(e: Echo): seq<byte>
    requires e.Shaped()
  {
    [0x40 + e.ihl, e.tos] + Be(e.Total()) + e.ids + [e.ttl, 1] + Be(e.check)
  }

  lemma {:induction false} SwappedPieces(a: Mac, b: Mac, w: seq<byte>, x: Ip4, y: Ip4, t: seq<byte>)
    requires |w| == 14
    ensures Swapped(a + b + w + x + y + t) == b + a + w + y + x + t
  {
    var f := a + b + w + x + y + t;
    assert f[0..6] == a && f[6..12] == b && f[12..26] == w && f[26..30] == x && f[30..34] == y && f[34..] == t;
  }

  lemma {:induction false} EchoPieces(e: Echo)
    requires e.Shaped()
    ensures |[0x08, 0x00] + EchoStart(e)| == 14
    ensures e.Octets()
            == e.dst + e.src + ([0x08, 0x00] + EchoStart(e)) + e.sip + e.dip + (e.options + e.Message() + e.rest)
  {
    assert e.Header() == EchoStart(e) + e.sip + e.dip + e.options;
  }

  lemma {:induction false} SwappedEcho(e: Echo)
    requires e.Shaped()
    ensures Swapped(e.Octets()) == e.(dst := e.src, src := e.dst, sip := e.dip, dip := e.sip).Octets()
  {
    var g := e.(dst := e.src, src := e.dst, sip := e.dip, dip := e.sip);
    var w, t := [0x08, 0x00] + EchoStart(e), e.options + e.Message() + e.rest;
    EchoPieces(e);
    EchoPieces(g);
    assert EchoStart(g) == EchoStart(e) && g.Message() == e.Message();
    SwappedPieces(e.dst, e.src, w, e.sip, e.dip, t);
  }

  function EchoEth(e: Echo): seq<byte> { e.dst + e.src + [0x08, 0x00] }

  lemma {:induction false} TypeEcho(e: Echo, t: byte)
    requires e.Shaped()
    ensures e.Octets()[34 + |e.options| := t] == e.(typ := t).Octets()
  {
    var a := EchoEth(e) + e.Header();
    assert e.Octets() == a + e.Message() + e.rest && e.(typ := t).Octets() == a + e.(typ := t).Message() + e.rest;
    assert e.Message()[0 := t] == e.(typ := t).Message();
  }

  lemma {:induction false} CheckEcho(e: Echo, c: word)
    requires e.Shaped()
    ensures PutBe16(e.Header(), 10, c) == e.(check := c).Header()
    ensures PutBe16(e.Octets(), 24, c) == e.(check := c).Octets()
  {
    BeIs(c);
    var a, z := EchoEth(e), e.Message() + e.rest;
    StoredUnique(e.Header(), 10, c, e.(check := c).Header());
    StoredIn(a, e.Header(), z, 10, c, e.(check := c).Header());
    assert e.Octets() == a + e.Header() + z;
    assert e.(check := c).Octets() == a + e.(check := c).Header() + z;
  }

  lemma {:induction false} SumEcho(e: Echo, k: word)
    requires e.Shaped()
    ensures PutBe16(e.Message(), 2, k) == e.(sum := k).Message()
    ensures PutBe16(e.Octets(), 36 + |e.options|, k) == e.(sum := k).Octets()
  {
    BeIs(k);
    var a := EchoEth(e) + e.Header();
    StoredUnique(e.Message(), 2, k, e.(sum := k).Message());
    StoredIn(a, e.Message(), e.rest, 2, k, e.(sum := k).Message());
    assert e.Octets() == a + e.Message() + e.rest && e.(sum := k).Octets() == a + e.(sum := k).Message() + e.rest;
  }

  /** Storing into the middle piece of a frame. */
  lemma {:induction false} StoredIn(a: seq<byte>, m: seq<byte>, z: seq<byte>, i: nat, w: word, r: seq<byte>)
    requires i + 2 <= |m| && r == PutBe16(m, i, w)
    ensures PutBe16(a + m + z, |a| + i, w) == a + r + z
  {
    var f, g := a + m + z, a + r + z;
    assert g[|a| + i] == r[i] && g[|a| + i + 1] == r[i + 1];
    StoredUnique(f, |a| + i, w, g);
  }

  /**
   * Every echo request is answered, octet by octet: both address pairs
   * exchanged, type 0, each checksum that of its block with the field cleared,
   * and everything else as it was. A message of any other type is not answered.
   */
  lemma {:induction false} EchoRequestAnswered(e: Echo)
    requires e.Shaped()
    ensures Reflectable(e.Octets())
    ensures var r := e.(dst := e.src, src := e.dst, sip := e.dip, dip := e.sip, check := 0, typ := 0, sum := 0);
            Reflect(e.Octets())
            == if e.typ == 8 then Some(r.(check := ChecksumOf(r.Header()), sum := ChecksumOf(r.Message())).Octets())
               else None
  {
    EchoFields(e);
    ReflectIs(e.Octets());
    if e.typ == 8 { EchoReplyOctets(e); }
  }

  /** Addresses exchanged and type cleared. */
  function TurnedEcho(e: Echo): Echo { e.(dst := e.src, src := e.dst, sip := e.dip, dip := e.sip, typ := 0) }

  lemma {:induction false} TurnedIs(e: Echo)
    requires e.Shaped() && EchoInside(e.Octets())
    ensures Turned(e.Octets()) == TurnedEcho(e).Octets()
  {
    EchoFields(e);
    SwappedEcho(e);
    TypeEcho(e.(dst := e.src, src := e.dst, sip := e.dip, dip := e.sip), 0);
  }

  lemma {:induction false} FixedEcho(e: Echo)
    requires e.Shaped() && HasIpHeader(e.Octets())
    ensures FixIpChecksum(e.Octets()) == e.(check := ChecksumOf(e.(check := 0).Header())).Octets()
  {
    EchoFields(e);
    CheckEcho(e, 0);
    CanonicalIs(e.Header(), CHECK);
    ChecksumIs(Cleared(e.Header(), CHECK));
    CheckEcho(e, Canonical(e.Header(), CHECK));
  }

  lemma {:induction false} SummedEcho(e: Echo)
    requires e.Shaped() && EchoInside(e.Octets())
    ensures PutBe16(e.Octets(), 36 + |e.options|, Canonical(IcmpMessage(e.Octets()), 2))
            == e.(sum := ChecksumOf(e.(sum := 0).Message())).Octets()
  {
    EchoFields(e);
    SumEcho(e, 0);
    CanonicalIs(e.Message(), 2);
    ChecksumIs(Cleared(e.Message(), 2));
    SumEcho(e, Canonical(e.Message(), 2));
  }

  ghost function WithCheck(e: Echo): Echo
    requires e.Shaped()
  {
    e.(check := ChecksumOf(e.(check := 0).Header()))
  }

  ghost function WithSum(e: Echo): Echo { e.(sum := ChecksumOf(e.(sum := 0).Message())) }

  lemma {:induction false} EchoReplyIs(e: Echo)
    requires e.Shaped() && EchoInside(e.Octets())
    ensures IcmpReply(e.Octets()) == WithSum(WithCheck(TurnedEcho(e))).Octets()
  {
    var t := TurnedEcho(e);
    EchoShape(e);
    EchoShape(t);
    EchoShape(WithCheck(t));
    TurnedIs(e);
    FixedEcho(t);
    SummedEcho(WithCheck(t));
  }

  lemma {:induction false} EchoReplyOctets(e: Echo)
    requires e.Shaped() && EchoInside(e.Octets())
    ensures var r := e.(dst := e.src, src := e.dst, sip := e.dip, dip := e.sip, check := 0, typ := 0, sum := 0);
            IcmpReply(e.Octets()) == r.(check := ChecksumOf(r.Header()), sum := ChecksumOf(r.Message())).Octets()
  {
    EchoReplyIs(e);
    ReplyRecord(TurnedEcho(e));
  }

  lemma {:induction false} ReplyRecord(t: Echo)
    requires t.Shaped()
    ensures var r := t.(check := 0, sum := 0);
            WithSum(WithCheck(t)) == r.(check := ChecksumOf(r.Header()), sum := ChecksumOf(r.Message()))
  {
    var r := t.(check := 0, sum := 0);
    assert t.(check := 0).Header() == r.Header();
    assert WithCheck(t).(sum := 0).Message() == r.Message();
  }

  lemma {:induction false} EchoShape(e: Echo)
    requires e.Shaped()
    ensures EchoInside(e.Octets()) && HasIpHeader(e.Octets()) && HeaderEnd(e.Octets()) == 34 + |e.options|
  {
    EchoFields(e);
  }

  // --------------------------------------------------------------- in place

  /** f with the octets s stored at offset at. */
  function Splice(f: Frame, at: nat, s: seq<byte>): (r: Frame)
    requires at + |s| <= |f|
    ensures |r| == |f|
  {
    f[..at] + s + f[at + |s|..]
  }

  /** Copy octets into the frame. */
  method Store(buf: array<byte>, at: nat, s: seq<byte>)
    requires at + |s| <= buf.Length
    modifies buf
    ensures buf[..] == Splice(old(buf[..]), at, s)
  {
    forall k | 0 <= k < |s| {
      buf[at + k] := s[k];
    }
  }

  lemma {:induction false} SpliceConcat(a: seq<byte>, b: seq<byte>, c: seq<byte>, s: seq<byte>)
    requires |b| == |s|
    ensures Splice(a + b + c, |a|, s) == a + s + c
  {
    var f := a + b + c;
    assert f[..|a|] == a && f[|a| + |s|..] == c;
  }

  /** Storing s over the octets from at on, when the frame is known in three pieces. */
  lemma {:induction false} SpliceIn(f: Frame, a: seq<byte>, b: seq<byte>, c: seq<byte>, s: seq<byte>)
    requires f == a + b + c && |b| == |s|
    ensures Splice(f, |a|, s) == a + s + c
  {
    SpliceConcat(a, b, c, s);
  }

  /** The ARP part: opcode, sender and target. */
  lemma {:induction false} ArpSplices(f: Frame)
    requires ArpAccepts(f)
    ensures var fake := FakeMac(ArpTpa(f));
            var g := Splice(Splice(Splice(f, 20, [0, 2]), 22, fake), 28, ArpTpa(f));
            var h := Splice(Splice(g, 32, ArpSha(f)), 38, ArpSpa(f));
            Splice(Splice(h, 0, ArpSha(f)), 6, fake) == ArpReply(f)
  {
    var fake, t := FakeMac(ArpTpa(f)), f[ARP_END..];
    var f0: Frame := Splice(f, 20, [0, 2]);
    var p0: seq<byte> := f[..20] + [0, 2];
    assert f0 == p0 + f[22..28] + f[28..];
    var f1 := Splice(f0, 22, fake);
    SpliceIn(f0, p0, f[22..28], f[28..], fake);
    var p1 := p0 + fake;
    assert f1 == p1 + f[28..32] + f[32..];
    var f2 := Splice(f1, 28, ArpTpa(f));
    SpliceIn(f1, p1, f[28..32], f[32..], ArpTpa(f));
    var p2 := p1 + ArpTpa(f);
    assert f2 == p2 + f[32..38] + f[38..];
    var f3 := Splice(f2, 32, ArpSha(f));
    SpliceIn(f2, p2, f[32..38], f[38..], ArpSha(f));
    var p3 := p2 + ArpSha(f);
    assert f3 == p3 + f[38..42] + t;
    var f4 := Splice(f3, 38, ArpSpa(f));
    SpliceIn(f3, p3, f[38..42], t, ArpSpa(f));
    HeadSplices(f, f4, fake, [0, 2] + fake + ArpTpa(f) + ArpSha(f) + ArpSpa(f) + t);
  }

  /** The Ethernet part, once the octets from 20 on are in place. */
  lemma {:induction false} HeadSplices(f: Frame, g: Frame, fake: Mac, rest: seq<byte>)
    requires ArpAccepts(f) && g == f[..20] + rest
    ensures Splice(Splice(g, 0, ArpSha(f)), 6, fake) == ArpSha(f) + fake + f[12..20] + rest
  {
    var none: seq<byte> := [];
    assert g == none + g[..6] + g[6..];
    SpliceIn(g, none, g[..6], g[6..], ArpSha(f));
    var h := Splice(g, 0, ArpSha(f));
    assert h == ArpSha(f) + g[6..12] + g[12..];
    SpliceIn(h, ArpSha(f), g[6..12], g[12..], fake);
    assert g[12..] == f[12..20] + rest;
  }

  /** dummy_arp_reply */
  method ArpReplyInPlace(buf: array<byte>) returns (ok: bool)
    modifies buf
    ensures ok <==> ArpAccepts(old(buf[..]))
    ensures buf[..] == if ok then ArpReply(old(buf[..])) else old(buf[..])
  {
    if buf.Length < ARP_END {
      return false;
    }
    ghost var f := buf[..];
    if Word(buf[20], buf[21]) != 1 || Word(buf[16], buf[17]) != ETH_P_IP || buf[18] != 6 || buf[19] != 4 {
      return false;
    }
    var sha, sip, tip := buf[22..28], buf[28..32], buf[38..42];
    var fake := FakeMac(tip);
    ArpSplices(f);
    Store(buf, 20, [0, 2]);
    Store(buf, 22, fake);
    Store(buf, 28, tip);
    Store(buf, 32, sha);
    Store(buf, 38, sip);
    Store(buf, 0, sha);
    Store(buf, 6, fake);
    return true;
  }

  lemma {:induction false} SwapSplices(f: Frame)
    requires |f| >= ETH_HLEN + IP_HLEN
    ensures Splice(Splice(Splice(Splice(f, 0, f[6..12]), 6, f[0..6]), 30, f[26..30]), 26, f[30..34]) == Swapped(f)
  {
    var none: seq<byte> := [];
    assert f == none + f[0..6] + f[6..];
    SpliceIn(f, none, f[0..6], f[6..], f[6..12]);
    var g := Splice(f, 0, f[6..12]);
    assert g == f[6..12] + f[6..12] + f[12..];
    SpliceIn(g, f[6..12], f[6..12], f[12..], f[0..6]);
    var h, p := Splice(g, 6, f[0..6]), f[6..12] + f[0..6];
    assert h == (p + f[12..30]) + f[30..34] + f[34..];
    SpliceIn(h, p + f[12..30], f[30..34], f[34..], f[26..30]);
    var k := Splice(h, 30, f[26..30]);
    assert k == (p + f[12..26]) + f[26..30] + (f[26..30] + f[34..]);
    SpliceIn(k, p + f[12..26], f[26..30], f[26..30] + f[34..], f[30..34]);
    assert (p + f[12..26]) + f[30..34] + (f[26..30] + f[34..]) == Swapped(f);
  }

  method SwapInPlace(buf: array<byte>)
    requires buf.Length >= ETH_HLEN + IP_HLEN
    modifies buf
    ensures buf[..] == Swapped(old(buf[..]))
  {
    ghost var f := buf[..];
    SwapSplices(f);
    var mac, src, daddr, saddr := buf[0..6], buf[6..12], buf[30..34], buf[26..30];
    assert mac == f[0..6] && src == f[6..12] && daddr == f[30..34] && saddr == f[26..30];
    Store(buf, 0, src);
    Store(buf, 6, mac);
    Store(buf, 30, saddr);
    Store(buf, 26, daddr);
  }

  lemma {:induction false} MessageCleared(f: Frame)
    requires EchoInside(f)
    ensures PutBe16(f, HeaderEnd(f) + 2, 0)[HeaderEnd(f)..ETH_HLEN + TotLen(f)] == Cleared(IcmpMessage(f), 2)
  {
    PutSlice(f, HeaderEnd(f), ETH_HLEN + TotLen(f), HeaderEnd(f) + 2, 0);
  }

  method FixIcmpChecksum(buf: array<byte>)
    requires EchoInside(buf[..])
    modifies buf
    ensures var f := old(buf[..]); buf[..] == PutBe16(f, HeaderEnd(f) + 2, Canonical(IcmpMessage(f), 2))
  {
    ghost var f := buf[..];
    var icmp, end := ETH_HLEN + 4 * (buf[ETH_HLEN] % 16), ETH_HLEN + Word(buf[16], buf[17]);
    PutBe16InPlace(buf, icmp + 2, 0);
    var c := Checksum(buf[..][icmp..end]);
    MessageCleared(f);
    CanonicalIs(IcmpMessage(f), 2);
    PutTwice(f, icmp + 2, 0, c);
    PutBe16InPlace(buf, icmp + 2, c);
  }

  /** dummy_icmp_reply */
  method IcmpReplyInPlace(buf: array<byte>) returns (ok: bool)
    requires IcmpAccepts(buf[..]) ==> EchoInside(buf[..])
    modifies buf
    ensures ok <==> IcmpAccepts(old(buf[..]))
    ensures buf[..] == if ok then IcmpReply(old(buf[..])) else old(buf[..])
  {
    ghost var f := buf[..];
    if buf.Length < ETH_HLEN + IP_HLEN || buf[23] != 1 {
      return false;
    }
    var icmp := ETH_HLEN + 4 * (buf[ETH_HLEN] % 16);
    if buf.Length < icmp + 8 || buf[icmp] != ICMP_ECHO {
      return false;
    }
    TurnedParts(f);
    IcmpReplyParts(f);
    SwapInPlace(buf);
    buf[icmp] := 0;
    assert buf[..] == Turned(f);
    FixIpChecksumInPlace(buf);
    FixIcmpChecksum(buf);
    return true;
  }

  /** dummy_eth_rx, up to what becomes of the skb. */
  method EthRx(buf: array<byte>) returns (ok: bool)
    requires Reflectable(buf[..])
    modifies buf
    ensures ok <==> Reflect(old(buf[..])).Some?
    ensures buf[..] == if ok then Reflect(old(buf[..])).value else old(buf[..])
  {
    ReflectIs(buf[..]);
    if buf.Length < ETH_HLEN {
      return false;
    }
    var proto := Word(buf[12], buf[13]);
    if proto == ETH_P_ARP {
      ok := ArpReplyInPlace(buf);
    } else if proto == ETH_P_IP {
      ok := IcmpReplyInPlace(buf);
    } else {
      ok := false;
    }
  }
}
