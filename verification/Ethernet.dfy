/** Layout of the Ethernet and IPv4 headers inside a linear frame. */
module Ethernet {
  import opened Bytes
  import opened InternetChecksum

  type Frame = seq<byte>

  const ETH_HLEN := 14
  const ETH_ZLEN := 60
  const ETH_DATA_LEN := 1500
  const IP_HLEN := 20

  // Offsets inside the frame.
  const IP_CHECK := 24
  const IP_SADDR := 26
  const IP_DADDR := 30

  /** Offset of the checksum field inside the IPv4 header. */
  const CHECK := 10

  /** Header length in 32-bit words: the low nibble of the first header octet. */
  function Ihl(f: Frame): nat
    requires |f| > ETH_HLEN
  {
    f[ETH_HLEN] % 16
  }

  function HeaderEnd(f: Frame): nat
    requires |f| > ETH_HLEN
  {
    ETH_HLEN + 4 * Ihl(f)
  }

  /** A full IPv4 header, options included, lies inside the frame. */
  predicate HasIpHeader(f: Frame) {
    && |f| >= ETH_HLEN + IP_HLEN
    && Ihl(f) >= 5
    && HeaderEnd(f) <= |f|
  }

  function IpHeader(f: Frame): (h: seq<byte>)
    requires HasIpHeader(f)
    ensures |h| == 4 * Ihl(f) >= IP_HLEN
    ensures h[0] != 0
  {
    f[ETH_HLEN..HeaderEnd(f)]
  }

  /** The frame with its IPv4 header checksum rebuilt, as ip_fast_csum does. */
  ghost function FixIpChecksum(f: Frame): (r: Frame)
    requires HasIpHeader(f)
    ensures |r| == |f|
    ensures forall i | 0 <= i < |f| && i != IP_CHECK && i != IP_CHECK + 1 :: r[i] == f[i]
  {
    PutBe16(f, IP_CHECK, Canonical(IpHeader(f), CHECK))
  }

  lemma {:induction false} HeaderCleared(f: Frame)
    requires HasIpHeader(f)
    ensures PutBe16(f, IP_CHECK, 0)[ETH_HLEN..HeaderEnd(f)] == Cleared(IpHeader(f), CHECK)
  {
    PutSlice(f, ETH_HLEN, HeaderEnd(f), IP_CHECK, 0);
  }

  lemma {:induction false} PutTwice(f: Frame, i: nat, v: word, w: word)
    requires i + 2 <= |f|
    ensures PutBe16(PutBe16(f, i, v), i, w) == PutBe16(f, i, w)
  {
    StoredUnique(f, i, w, PutBe16(PutBe16(f, i, v), i, w));
  }

  /** Clear the checksum field, sum the header, and store the result. */
  method FixIpChecksumInPlace(buf: array<byte>)
    requires HasIpHeader(buf[..])
    modifies buf
    ensures buf[..] == FixIpChecksum(old(buf[..]))
  {
    ghost var f := buf[..];
    var end := ETH_HLEN + 4 * (buf[ETH_HLEN] % 16);
    PutBe16InPlace(buf, IP_CHECK, 0);
    var c := Checksum(buf[..][ETH_HLEN..end]);
    HeaderCleared(f);
    CanonicalIs(IpHeader(f), CHECK);
    PutTwice(f, IP_CHECK, 0, c);
    PutBe16InPlace(buf, IP_CHECK, c);
  }

  /** The rebuilt header is the old one with the canonical checksum in its field, and verifies. */
  lemma {:induction false} FixedHeader(f: Frame)
    requires HasIpHeader(f)
    ensures HasIpHeader(FixIpChecksum(f))
    ensures IpHeader(FixIpChecksum(f)) == PutBe16(IpHeader(f), CHECK, Canonical(IpHeader(f), CHECK))
    ensures Be16(FixIpChecksum(f), IP_CHECK) == Canonical(IpHeader(f), CHECK)
    ensures Verifies(IpHeader(FixIpChecksum(f)))
  {
    StoredChecksumVerifies(IpHeader(f), CHECK);
    PutSlice(f, ETH_HLEN, HeaderEnd(f), IP_CHECK, Canonical(IpHeader(f), CHECK));
  }
}
