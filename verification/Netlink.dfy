/**
 * Netlink records: messages inside a datagram and attributes inside a message,
 * each with its own length and aligned to four octets (sections 2.2 and 2.3.2 of
 * RFC 3549), on a little-endian host. The walks are those of the NLMSG_OK /
 * NLMSG_NEXT and RTA_OK / RTA_NEXT macros; the encoder is their partner.
 */
module Netlink {
  import opened Bytes

  const NLMSG_HDRLEN := 16
  const RTA_HDRLEN := 4

  ghost predicate IsLe16(b: seq<byte>, i: nat, w: word)
    requires i + 2 <= |b|
  {
    forall x {:trigger Open(x)} | Open(x) :: w == Word(b[i + 1], b[i])
  }

  /** The little-endian 16-bit value stored at offset i. */
  ghost function Le16(b: seq<byte>, i: nat): (w: word)
    requires i + 2 <= |b|
    ensures IsLe16(b, i, w)
  {
    assert IsLe16(b, i, Word(b[i + 1], b[i]));
    var w: word :| IsLe16(b, i, w);
    w
  }

  method ReadLe16(b: seq<byte>, i: nat) returns (w: word)
    requires i + 2 <= |b|
    ensures w == Le16(b, i)
  {
    assert Open(0);
    w := Word(b[i + 1], b[i]);
  }

  /** The same two octets read the same. */
  lemma {:induction false} Le16Same(b: seq<byte>, i: nat, c: seq<byte>, j: nat)
    requires i + 2 <= |b| && j + 2 <= |c| && b[i] == c[j] && b[i + 1] == c[j + 1]
    ensures Le16(b, i) == Le16(c, j)
  {
    assert Open(0);
  }

  lemma {:induction false} Le32Same(b: seq<byte>, i: nat, c: seq<byte>, j: nat)
    requires i + 4 <= |b| && j + 4 <= |c| && Le16(b, i) == Le16(c, j) && Le16(b, i + 2) == Le16(c, j + 2)
    ensures Le32(b, i) == Le32(c, j)
  {
    assert Open(0);
  }

  ghost predicate IsLe32(b: seq<byte>, i: nat, n: nat)
    requires i + 4 <= |b|
  {
    forall x {:trigger Open(x)} | Open(x) :: var hi: int := Le16(b, i + 2); n == Le16(b, i) + 0x1_0000 * hi
  }

  /** The little-endian 32-bit value stored at offset i. */
  ghost function Le32(b: seq<byte>, i: nat): (n: nat)
    requires i + 4 <= |b|
    ensures IsLe32(b, i, n)
  {
    var hi: int := Le16(b, i + 2);
    assert IsLe32(b, i, Le16(b, i) + 0x1_0000 * hi);
    var n: nat :| IsLe32(b, i, n);
    n
  }

  method ReadLe32(b: seq<byte>, i: nat) returns (n: nat)
    requires i + 4 <= |b|
    ensures n == Le32(b, i)
  {
    assert Open(0);
    var lo := ReadLe16(b, i);
    var hi: int := ReadLe16(b, i + 2);
    n := lo + 0x1_0000 * hi;
  }

  ghost predicate IsAlign(n: nat, r: nat) {
    n <= r < n + 4 && forall x {:trigger Open(x)} | Open(x) :: r % 4 == 0
  }

  /** The next multiple of four. */
  ghost function Align(n: nat): (r: nat)
    ensures IsAlign(n, r)
  {
    assert IsAlign(n, (n + 3) / 4 * 4);
    var r: nat :| IsAlign(n, r);
    r
  }

  /** Round up to a multiple of four, as the alignment macros do. */
  method AlignUp(n: nat) returns (r: nat)
    ensures r == Align(n) && r % 4 == 0 && n <= r < n + 4
  {
    r := (n + 3) / 4 * 4;
    assert Open(0);
  }

  // ------------------------------------------------------------------ walks

  /** A record found by a walk: where it starts, and its length without padding. */
  datatype Slot = Slot(off: nat, len: nat)

  /** RTA_OK: rem octets are left at p. */
  ghost predicate RtaOk(b: seq<byte>, p: nat, rem: int)
    requires p + rem <= |b|
  {
    rem >= RTA_HDRLEN && RTA_HDRLEN <= Le16(b, p) <= rem
  }

  /** Evaluate RTA_OK; len is the length of the attribute, if there is one. */
  method NextAttr(b: seq<byte>, p: nat, rem: int) returns (ok: bool, len: nat)
    requires p + rem <= |b|
    ensures ok == RtaOk(b, p, rem) && (ok ==> len == Le16(b, p))
  {
    if rem < RTA_HDRLEN {
      return false, 0;
    }
    len := ReadLe16(b, p);
    ok := RTA_HDRLEN <= len <= rem;
  }

  /** The attributes visited from p with rem octets left; rem may end up below zero. */
  ghost function Attrs(b: seq<byte>, p: nat, rem: int): seq<Slot>
    requires p + rem <= |b|
    decreases rem
  {
    if RtaOk(b, p, rem) then
      var n := Align(Le16(b, p));
      [Slot(p, Le16(b, p))] + Attrs(b, p + n, rem - n)
    else []
  }

  /** NLMSG_OK */
  ghost predicate NlmsgOk(b: seq<byte>, p: nat, rem: int)
    requires p + rem <= |b|
  {
    rem >= NLMSG_HDRLEN && NLMSG_HDRLEN <= Le32(b, p) <= rem
  }

  /** Evaluate NLMSG_OK; len is the length of the message, if there is one. */
  method NextMsg(b: seq<byte>, p: nat, rem: int) returns (ok: bool, len: nat)
    requires p + rem <= |b|
    ensures ok == NlmsgOk(b, p, rem) && (ok ==> len == Le32(b, p))
  {
    if rem < NLMSG_HDRLEN {
      return false, 0;
    }
    len := ReadLe32(b, p);
    ok := NLMSG_HDRLEN <= len <= rem;
  }

  ghost function Msgs(b: seq<byte>, p: nat, rem: int): seq<Slot>
    requires p + rem <= |b|
    decreases rem
  {
    if NlmsgOk(b, p, rem) then
      var n := Align(Le32(b, p));
      [Slot(p, Le32(b, p))] + Msgs(b, p + n, rem - n)
    else []
  }

  // --------------------------------------------------- every byte buffer

  /** Slots that lie in order, without overlap, inside [lo, hi), each at least as long as a header. */
  predicate Packed(s: seq<Slot>, lo: nat, hi: int, header: nat) {
    s != [] ==>
      && lo <= s[0].off && header <= s[0].len && s[0].off + s[0].len <= hi
      && Packed(s[1..], s[0].off + s[0].len, hi, header)
  }

  lemma {:induction false} PackedFrom(s: seq<Slot>, lo: nat, lo': nat, hi: int, header: nat)
    requires Packed(s, lo', hi, header) && lo <= lo'
    ensures Packed(s, lo, hi, header)
  {
  }

  lemma {:induction false} PackedInside(s: seq<Slot>, lo: nat, hi: int, header: nat, k: nat)
    requires Packed(s, lo, hi, header) && k < |s|
    ensures lo <= s[k].off && header <= s[k].len && s[k].off + s[k].len <= hi
  {
    if k > 0 {
      PackedInside(s[1..], s[0].off + s[0].len, hi, header, k - 1);
    }
  }

  /** Whatever the octets are, the attributes visited lie inside what was left to visit. */
  lemma {:induction false} AttrsPacked(b: seq<byte>, p: nat, rem: int)
    requires p + rem <= |b|
    ensures Packed(Attrs(b, p, rem), p, p + rem, RTA_HDRLEN)
    decreases rem
  {
    if RtaOk(b, p, rem) {
      var n := Align(Le16(b, p));
      AttrsPacked(b, p + n, rem - n);
      var rest := Attrs(b, p + n, rem - n);
      PackedFrom(rest, p + Le16(b, p), p + n, p + rem, RTA_HDRLEN);
      assert ([Slot(p, Le16(b, p))] + rest)[1..] == rest;
    }
  }

  lemma {:induction false} MsgsPacked(b: seq<byte>, p: nat, rem: int)
    requires p + rem <= |b|
    ensures Packed(Msgs(b, p, rem), p, p + rem, NLMSG_HDRLEN)
    decreases rem
  {
    if NlmsgOk(b, p, rem) {
      var n := Align(Le32(b, p));
      MsgsPacked(b, p + n, rem - n);
      var rest := Msgs(b, p + n, rem - n);
      PackedFrom(rest, p + Le32(b, p), p + n, p + rem, NLMSG_HDRLEN);
      assert ([Slot(p, Le32(b, p))] + rest)[1..] == rest;
    }
  }

  /** The attributes of a message whose fixed part is fixed octets long. */
  ghost function AttrsOf(b: seq<byte>, m: Slot, fixed: nat): seq<Slot> {
    if m.off + m.len <= |b| then Attrs(b, m.off + NLMSG_HDRLEN + fixed, m.len - NLMSG_HDRLEN - fixed) else []
  }

  lemma {:induction false} MsgInside(b: seq<byte>, len: nat, m: Slot)
    requires len <= |b| && m in Msgs(b, 0, len)
    ensures NLMSG_HDRLEN <= m.len && m.off + m.len <= len
  {
    var k :| 0 <= k < |Msgs(b, 0, len)| && Msgs(b, 0, len)[k] == m;
    MsgsPacked(b, 0, len);
    PackedInside(Msgs(b, 0, len), 0, len, NLMSG_HDRLEN, k);
  }

  lemma {:induction false} AttrInside(b: seq<byte>, m: Slot, fixed: nat, a: Slot)
    requires m.off + m.len <= |b| && a in AttrsOf(b, m, fixed)
    ensures m.off + NLMSG_HDRLEN + fixed <= a.off && RTA_HDRLEN <= a.len && a.off + a.len <= m.off + m.len
  {
    var attrs := AttrsOf(b, m, fixed);
    var j :| 0 <= j < |attrs| && attrs[j] == a;
    AttrsPacked(b, m.off + NLMSG_HDRLEN + fixed, m.len - NLMSG_HDRLEN - fixed);
    PackedInside(attrs, m.off + NLMSG_HDRLEN + fixed, m.off + m.len, RTA_HDRLEN, j);
  }

  /**
   * Both walks on any datagram: every attribute visited lies inside its own
   * message, after its fixed part, and every message inside the datagram.
   */
  lemma {:induction false} WalkStaysInside(b: seq<byte>, len: nat, fixed: nat, m: Slot, a: Slot)
    requires len <= |b| && m in Msgs(b, 0, len) && a in AttrsOf(b, m, fixed)
    ensures m.off + NLMSG_HDRLEN + fixed <= a.off && RTA_HDRLEN <= a.len
    ensures a.off + a.len <= m.off + m.len <= len
  {
    MsgInside(b, len, m);
    AttrInside(b, m, fixed, a);
  }

  // --------------------------------------------------------- record lists

  /** Octets followed by the zeros that align them. */
  ghost function Padded(s: seq<byte>): (r: seq<byte>)
    ensures |r| == Align(|s|)
  {
    s + Zeros(Align(|s|) - |s|)
  }

  /** How many of the zeros behind the last record may be kept. */
  ghost predicate Keeps(cs: seq<seq<byte>>, keep: nat) {
    cs != [] ==> |cs[|cs| - 1]| + keep <= Align(|cs[|cs| - 1]|)
  }

  /** Records in a row: each aligned, the last followed by keep zeros. */
  ghost function Row(cs: seq<seq<byte>>, keep: nat): seq<byte> {
    if cs == [] then []
    else if |cs| == 1 then cs[0] + Zeros(keep)
    else Padded(cs[0]) + Row(cs[1..], keep)
  }

  /** The octets r stand in b from p on. */
  predicate Stands(b: seq<byte>, p: nat, r: seq<byte>) {
    p + |r| <= |b| && forall i | 0 <= i < |r| :: b[p + i] == r[i]
  }

  /** The slots hold exactly the records cs, in order. */
  predicate Holds(b: seq<byte>, slots: seq<Slot>, cs: seq<seq<byte>>) {
    && |slots| == |cs|
    && (cs != [] ==>
          slots[0].len == |cs[0]| && Stands(b, slots[0].off, cs[0]) && Holds(b, slots[1..], cs[1..]))
  }

  lemma {:induction false} StandsParts(b: seq<byte>, p: nat, x: seq<byte>, y: seq<byte>)
    requires Stands(b, p, x + y)
    ensures Stands(b, p, x) && Stands(b, p + |x|, y)
  {
    forall i | 0 <= i < |x| ensures b[p + i] == x[i] { assert (x + y)[i] == x[i]; }
    forall i | 0 <= i < |y| ensures b[p + |x| + i] == y[i] { assert (x + y)[|x| + i] == y[i]; }
  }

  lemma {:induction false} HoldsCons(b: seq<byte>, x: Slot, xs: seq<Slot>, cs: seq<seq<byte>>)
    requires cs != [] && x.len == |cs[0]| && Stands(b, x.off, cs[0]) && Holds(b, xs, cs[1..])
    ensures Holds(b, [x] + xs, cs)
  {
    assert ([x] + xs)[1..] == xs;
  }

  /** What a row looks like from its first record on: the record, its zeros, the rest. */
  lemma {:induction false} RowParts(cs: seq<seq<byte>>, keep: nat) returns (z: seq<byte>, rest: seq<byte>)
    requires cs != [] && Keeps(cs, keep)
    ensures Row(cs, keep) == cs[0] + z + rest && rest == Row(cs[1..], keep) && Keeps(cs[1..], keep)
    ensures |cs| > 1 ==> |cs[0]| + |z| == Align(|cs[0]|)
    ensures |cs| == 1 ==> |cs[0]| + |z| <= Align(|cs[0]|) && rest == []
  {
    rest := Row(cs[1..], keep);
    if |cs| == 1 {
      z := Zeros(keep);
      assert cs[1..] == [];
      assert cs[0] + z + rest == cs[0] + z;
    } else {
      z := Zeros(Align(|cs[0]|) - |cs[0]|);
      assert cs[1..][|cs| - 2] == cs[|cs| - 1];
    }
  }

  /** A record that starts with its own length, as RTA_LENGTH stores it. */
  ghost predicate AttrSized(c: seq<byte>) {
    |c| >= RTA_HDRLEN && Le16(c, 0) == |c|
  }

  ghost predicate MsgSized(c: seq<byte>) {
    |c| >= NLMSG_HDRLEN && Le32(c, 0) == |c|
  }

  lemma {:induction false} AttrHead(b: seq<byte>, p: nat, c: seq<byte>)
    requires AttrSized(c) && Stands(b, p, c)
    ensures Le16(b, p) == |c|
  {
    assert b[p + 0] == c[0] && b[p + 1] == c[1];
    Le16Same(b, p, c, 0);
  }

  lemma {:induction false} MsgHead(b: seq<byte>, p: nat, c: seq<byte>)
    requires MsgSized(c) && Stands(b, p, c)
    ensures Le32(b, p) == |c|
  {
    assert b[p + 0] == c[0] && b[p + 1] == c[1] && b[p + 2] == c[2] && b[p + 3] == c[3];
    Le16Same(b, p, c, 0);
    Le16Same(b, p + 2, c, 2);
    Le32Same(b, p, c, 0);
  }

  /**
   * The attribute walk over a row of self-sized records visits exactly those
   * records, whether or not the last one's padding is counted in the length, so
   * that the last step may take the remaining length below zero.
   */
  lemma {:induction false} AttrWalk(b: seq<byte>, p: nat, cs: seq<seq<byte>>, keep: nat)
    requires (forall c | c in cs :: AttrSized(c)) && Keeps(cs, keep) && Stands(b, p, Row(cs, keep))
    ensures Holds(b, Attrs(b, p, |Row(cs, keep)|), cs)
    decreases |cs|
  {
    if cs != [] {
      var z, rest := RowParts(cs, keep);
      var c, n, rem := cs[0], Align(|cs[0]|), |Row(cs, keep)|;
      StandsParts(b, p, c + z, rest);
      StandsParts(b, p, c, z);
      AttrHead(b, p, c);
      if |cs| > 1 { AttrWalk(b, p + n, cs[1..], keep); }
      HoldsCons(b, Slot(p, |c|), Attrs(b, p + n, rem - n), cs);
    }
  }

  lemma {:induction false} MsgWalk(b: seq<byte>, p: nat, cs: seq<seq<byte>>, keep: nat)
    requires (forall c | c in cs :: MsgSized(c)) && Keeps(cs, keep) && Stands(b, p, Row(cs, keep))
    ensures Holds(b, Msgs(b, p, |Row(cs, keep)|), cs)
    decreases |cs|
  {
    if cs != [] {
      var z, rest := RowParts(cs, keep);
      var c, n, rem := cs[0], Align(|cs[0]|), |Row(cs, keep)|;
      StandsParts(b, p, c + z, rest);
      StandsParts(b, p, c, z);
      MsgHead(b, p, c);
      if |cs| > 1 { MsgWalk(b, p + n, cs[1..], keep); }
      HoldsCons(b, Slot(p, |c|), Msgs(b, p + n, rem - n), cs);
    }
  }

  // ------------------------------------------------------- broken headers

  /** Records in a row, every one aligned. */
  ghost function AlignedRow(cs: seq<seq<byte>>): seq<byte> {
    if cs == [] then [] else Padded(cs[0]) + AlignedRow(cs[1..])
  }

  lemma {:induction false} AlignedParts(b: seq<byte>, p: nat, cs: seq<seq<byte>>)
    requires cs != [] && Stands(b, p, AlignedRow(cs))
    ensures Stands(b, p, cs[0]) && Stands(b, p + Align(|cs[0]|), AlignedRow(cs[1..]))
    ensures |AlignedRow(cs)| == Align(|cs[0]|) + |AlignedRow(cs[1..])|
  {
    StandsParts(b, p, Padded(cs[0]), AlignedRow(cs[1..]));
    StandsParts(b, p, cs[0], Zeros(Align(|cs[0]|) - |cs[0]|));
  }

  /**
   * The attribute walk stops at the first broken header: fewer than four octets
   * left, or a length below four or beyond what is left. It visits the records
   * before it and nothing behind it.
   */
  lemma {:induction false} AttrWalkStops(b: seq<byte>, p: nat, cs: seq<seq<byte>>, rem: int)
    requires (forall c | c in cs :: AttrSized(c)) && Stands(b, p, AlignedRow(cs))
    requires var q, left := p + |AlignedRow(cs)|, rem - |AlignedRow(cs)|;
             && 0 <= left && q + left <= |b|
             && (left < 4 || Word(b[q + 1], b[q]) < 4 || Word(b[q + 1], b[q]) > left)
    ensures Holds(b, Attrs(b, p, rem), cs)
    decreases |cs|
  {
    if cs == [] {
      if rem >= 4 { assert Open(0); }
    } else {
      var c, n := cs[0], Align(|cs[0]|);
      assert c in cs;
      AlignedParts(b, p, cs);
      AttrHead(b, p, c);
      AttrWalkStops(b, p + n, cs[1..], rem - n);
      HoldsCons(b, Slot(p, |c|), Attrs(b, p + n, rem - n), cs);
    }
  }

  /** The same of the message walk, whose header has sixteen octets, the first four being the length. */
  lemma {:induction false} MsgWalkStops(b: seq<byte>, p: nat, cs: seq<seq<byte>>, rem: int)
    requires (forall c | c in cs :: MsgSized(c)) && Stands(b, p, AlignedRow(cs))
    requires var q, left := p + |AlignedRow(cs)|, rem - |AlignedRow(cs)|;
             && 0 <= left && q + left <= |b|
             && (left >= 16 ==> var len := Weighed(b[q], b[q + 1], b[q + 2], b[q + 3]); len < 16 || len > left)
    ensures Holds(b, Msgs(b, p, rem), cs)
    decreases |cs|
  {
    if cs == [] {
      if rem >= 16 { Octets32(b, p, b[p..p + 4]); }
    } else {
      var c, n := cs[0], Align(|cs[0]|);
      assert c in cs;
      AlignedParts(b, p, cs);
      MsgHead(b, p, c);
      MsgWalkStops(b, p + n, cs[1..], rem - n);
      HoldsCons(b, Slot(p, |c|), Msgs(b, p + n, rem - n), cs);
    }
  }

  // ---------------------------------------------------------------- encoder

  datatype Attr = Attr(typ: word, payload: seq<byte>) {
    predicate Fits() { RTA_HDRLEN + |payload| < 0x1_0000 }
  }

  /** The value of four octets, the least significant first. */
  function Weighed(a: int, b: int, c: int, d: int): int { a + 0x100 * b + 0x1_0000 * c + 0x100_0000 * d }

  /** Two octets, the less significant first. */
  ghost predicate Is16(w: word, r: seq<byte>) {
    |r| == 2 && forall x {:trigger Open(x)} | Open(x) :: w == Weighed(r[0], r[1], 0, 0)
  }

  ghost function Bytes16(w: word): (r: seq<byte>)
    ensures Is16(w, r)
  {
    HiLo(w);
    assert Is16(w, [Lo(w), Hi(w)]);
    var r :| Is16(w, r);
    r
  }

  /** Four octets, the least significant first. */
  ghost predicate Is32(n: nat, r: seq<byte>) {
    |r| == 4 && forall x {:trigger Open(x)} | Open(x) :: n == Weighed(r[0], r[1], r[2], r[3])
  }

  ghost function Bytes32(n: nat): (r: seq<byte>)
    requires n < 0x1_0000_0000
    ensures Is32(n, r)
  {
    var r := Split32(n % 0x1_0000, n / 0x1_0000);
    assert Is32(n, r);
    var r' :| Is32(n, r');
    r'
  }

  ghost function Split32(lo: word, hi: word): (r: seq<byte>)
    ensures |r| == 4 && Weighed(lo, 0, hi, 0) == Weighed(r[0], r[1], r[2], r[3])
  {
    HiLo(lo);
    HiLo(hi);
    [Lo(lo), Hi(lo), Lo(hi), Hi(hi)]
  }

  ghost function AttrBytes(a: Attr): (r: seq<byte>)
    requires a.Fits()
    ensures |r| == RTA_HDRLEN + |a.payload|
  {
    Bytes16(RTA_HDRLEN + |a.payload|) + Bytes16(a.typ) + a.payload
  }

  ghost function AttrRecords(s: seq<Attr>): (r: seq<seq<byte>>)
    requires forall a | a in s :: a.Fits()
    ensures |r| == |s| && forall k | 0 <= k < |s| :: r[k] == AttrBytes(s[k])
  {
    seq(|s|, k requires 0 <= k < |s| => AttrBytes(s[k]))
  }

  /** A message: type, the ten header octets behind it, the family header, the attributes, and kept padding. */
  datatype Msg = Msg(typ: word, meta: seq<byte>, fixed: seq<byte>, attrs: seq<Attr>, keep: nat) {
    ghost predicate Valid() {
      && |meta| == 10 && (forall a | a in attrs :: a.Fits())
      && Keeps(AttrRecords(attrs), keep) && Size() < 0x1_0000_0000
    }

    ghost function Size(): nat
      requires forall a | a in attrs :: a.Fits()
    {
      NLMSG_HDRLEN + |fixed| + |Row(AttrRecords(attrs), keep)|
    }
  }

  ghost function MsgBytes(m: Msg): (r: seq<byte>)
    requires m.Valid()
    ensures |r| == m.Size()
  {
    Bytes32(m.Size()) + Bytes16(m.typ) + m.meta + m.fixed + Row(AttrRecords(m.attrs), m.keep)
  }

  ghost function MsgRecords(ms: seq<Msg>): (r: seq<seq<byte>>)
    requires forall m | m in ms :: m.Valid()
    ensures |r| == |ms| && forall k | 0 <= k < |ms| :: r[k] == MsgBytes(ms[k])
  {
    seq(|ms|, k requires 0 <= k < |ms| => MsgBytes(ms[k]))
  }

  lemma {:induction false} Read16(b: seq<byte>, p: nat, w: word)
    requires Stands(b, p, Bytes16(w))
    ensures Le16(b, p) == w
  {
    var r := Bytes16(w);
    assert b[p + 0] == r[0] && b[p + 1] == r[1];
    assert Open(0);
  }

  lemma {:induction false} Read32(b: seq<byte>, p: nat, n: nat)
    requires n < 0x1_0000_0000 && Stands(b, p, Bytes32(n))
    ensures Le32(b, p) == n
  {
    var r := Bytes32(n);
    assert b[p + 0] == r[0] && b[p + 1] == r[1] && b[p + 2] == r[2] && b[p + 3] == r[3];
    Octets32(b, p, r);
    assert Open(0);
  }

  lemma {:induction false} Octets32(b: seq<byte>, p: nat, r: seq<byte>)
    requires |r| == 4 && p + 4 <= |b| && forall k | 0 <= k < 4 :: b[p + k] == r[k]
    ensures Le32(b, p) == Weighed(r[0], r[1], r[2], r[3])
  {
    assert b[p + 0] == r[0] && b[p + 1] == r[1] && b[p + 2] == r[2] && b[p + 3] == r[3];
    assert Open(0);
  }

  lemma {:induction false} StandsItself(r: seq<byte>)
    ensures Stands(r, 0, r)
  {
  }

  lemma {:induction false} StandsSlice(b: seq<byte>, p: nat, r: seq<byte>)
    requires Stands(b, p, r)
    ensures b[p..p + |r|] == r
  {
  }

  ghost function Decode(b: seq<byte>, a: Slot): Attr
    requires RTA_HDRLEN <= a.len && a.off + a.len <= |b|
  {
    Attr(Le16(b, a.off + 2), b[a.off + RTA_HDRLEN..a.off + a.len])
  }

  /** One encoded attribute is read back, wherever it stands. */
  lemma {:induction false} AttrReads(b: seq<byte>, p: nat, a: Attr)
    requires a.Fits() && Stands(b, p, AttrBytes(a))
    ensures Le16(b, p) == |AttrBytes(a)| && Decode(b, Slot(p, |AttrBytes(a)|)) == a
  {
    var n := RTA_HDRLEN + |a.payload|;
    assert AttrBytes(a) == Bytes16(n) + (Bytes16(a.typ) + a.payload);
    StandsParts(b, p, Bytes16(n), Bytes16(a.typ) + a.payload);
    StandsParts(b, p + 2, Bytes16(a.typ), a.payload);
    Read16(b, p, n);
    Read16(b, p + 2, a.typ);
    StandsSlice(b, p + 4, a.payload);
  }

  lemma {:induction false} AttrIsSized(a: Attr)
    requires a.Fits()
    ensures AttrSized(AttrBytes(a))
  {
    StandsItself(AttrBytes(a));
    AttrReads(AttrBytes(a), 0, a);
  }

  /** The fields of an encoded message, wherever it stands. */
  lemma {:induction false} MsgReads(b: seq<byte>, p: nat, m: Msg)
    requires m.Valid() && Stands(b, p, MsgBytes(m))
    ensures Le32(b, p) == |MsgBytes(m)| && Le16(b, p + 4) == m.typ
    ensures Stands(b, p + NLMSG_HDRLEN, m.fixed)
    ensures Stands(b, p + NLMSG_HDRLEN + |m.fixed|, Row(AttrRecords(m.attrs), m.keep))
  {
    var head, row := Bytes32(m.Size()) + Bytes16(m.typ) + m.meta, Row(AttrRecords(m.attrs), m.keep);
    assert MsgBytes(m) == head + m.fixed + row;
    StandsParts(b, p, head + m.fixed, row);
    StandsParts(b, p, head, m.fixed);
    StandsParts(b, p, Bytes32(m.Size()) + Bytes16(m.typ), m.meta);
    StandsParts(b, p, Bytes32(m.Size()), Bytes16(m.typ));
    Read32(b, p, m.Size());
    Read16(b, p + 4, m.typ);
  }

  lemma {:induction false} MsgIsSized(m: Msg)
    requires m.Valid()
    ensures MsgSized(MsgBytes(m))
  {
    StandsItself(MsgBytes(m));
    MsgReads(MsgBytes(m), 0, m);
  }

  lemma {:induction false} HoldsAt(b: seq<byte>, slots: seq<Slot>, cs: seq<seq<byte>>, k: nat)
    requires Holds(b, slots, cs) && k < |cs|
    ensures slots[k].len == |cs[k]| && Stands(b, slots[k].off, cs[k])
  {
    if k > 0 { HoldsAt(b, slots[1..], cs[1..], k - 1); }
  }

  // ------------------------------------------------------------- round trip

  /** One slot reads back as the attribute a. */
  ghost predicate ReadsOne(b: seq<byte>, x: Slot, a: Attr) {
    RTA_HDRLEN <= x.len && x.off + x.len <= |b| && Decode(b, x) == a
  }

  /** The slots read back as the attributes s, in order. */
  ghost predicate Reads(b: seq<byte>, slots: seq<Slot>, s: seq<Attr>) {
    |slots| == |s| && (s != [] ==> ReadsOne(b, slots[0], s[0]) && Reads(b, slots[1..], s[1..]))
  }

  lemma {:induction false} HoldsReads(b: seq<byte>, slots: seq<Slot>, s: seq<Attr>)
    requires (forall a | a in s :: a.Fits()) && Holds(b, slots, AttrRecords(s))
    ensures Reads(b, slots, s)
    decreases |s|
  {
    if s != [] {
      assert s[0] in s;
      AttrReads(b, slots[0].off, s[0]);
      assert AttrRecords(s)[1..] == AttrRecords(s[1..]);
      HoldsReads(b, slots[1..], s[1..]);
    }
  }

  lemma {:induction false} AttrsRoundTrip(b: seq<byte>, p: nat, s: seq<Attr>, keep: nat)
    requires (forall a | a in s :: a.Fits()) && Keeps(AttrRecords(s), keep)
    requires Stands(b, p, Row(AttrRecords(s), keep))
    ensures Reads(b, Attrs(b, p, |Row(AttrRecords(s), keep)|), s)
  {
    var cs := AttrRecords(s);
    forall c | c in cs ensures AttrSized(c) {
      var k :| 0 <= k < |cs| && cs[k] == c;
      AttrIsSized(s[k]);
    }
    AttrWalk(b, p, cs, keep);
    HoldsReads(b, Attrs(b, p, |Row(cs, keep)|), s);
  }

  /** A slot holds message m: its type, its fixed part, and a walk that reads its attributes. */
  ghost predicate ReadsMsg(b: seq<byte>, x: Slot, m: Msg)
    requires m.Valid()
  {
    && x.len == m.Size() && x.off + x.len <= |b|
    && Le16(b, x.off + 4) == m.typ
    && Stands(b, x.off + NLMSG_HDRLEN, m.fixed)
    && Reads(b, AttrsOf(b, x, |m.fixed|), m.attrs)
  }

  /**
   * Round trip: for every list of messages, each with any list of attributes,
   * and with the padding behind the last attribute and the last message counted
   * or not, the nested walks recover exactly that list.
   */
  lemma {:induction false} RoundTrip(b: seq<byte>, ms: seq<Msg>, keep: nat, k: nat)
    requires (forall m | m in ms :: m.Valid()) && Keeps(MsgRecords(ms), keep)
    requires Stands(b, 0, Row(MsgRecords(ms), keep)) && k < |ms|
    ensures var slots := Msgs(b, 0, |Row(MsgRecords(ms), keep)|);
            |slots| == |ms| && ReadsMsg(b, slots[k], ms[k])
  {
    var cs := MsgRecords(ms);
    forall c | c in cs ensures MsgSized(c) {
      var j :| 0 <= j < |cs| && cs[j] == c;
      MsgIsSized(ms[j]);
    }
    MsgWalk(b, 0, cs, keep);
    var slots := Msgs(b, 0, |Row(cs, keep)|);
    HoldsAt(b, slots, cs, k);
    OneMsg(b, slots[k], ms[k]);
  }

  lemma {:induction false} OneMsg(b: seq<byte>, x: Slot, m: Msg)
    requires m.Valid() && x.len == |MsgBytes(m)| && Stands(b, x.off, MsgBytes(m))
    ensures ReadsMsg(b, x, m)
  {
    MsgReads(b, x.off, m);
    MsgAttrs(b, x, |m.fixed|, m.attrs, m.keep);
  }

  lemma {:induction false} AttrsOfIs(b: seq<byte>, x: Slot, fixed: nat, p: nat, rem: int)
    requires p == x.off + NLMSG_HDRLEN + fixed && p + rem == x.off + x.len <= |b|
    ensures AttrsOf(b, x, fixed) == Attrs(b, p, rem)
  {
  }

  lemma {:induction false} MsgAttrs(b: seq<byte>, x: Slot, fixed: nat, attrs: seq<Attr>, keep: nat)
    requires (forall a | a in attrs :: a.Fits()) && Keeps(AttrRecords(attrs), keep)
    requires Stands(b, x.off + NLMSG_HDRLEN + fixed, Row(AttrRecords(attrs), keep))
    requires x.len == NLMSG_HDRLEN + fixed + |Row(AttrRecords(attrs), keep)|
    ensures x.off + x.len <= |b| && Reads(b, AttrsOf(b, x, fixed), attrs)
  {
    var p, row := x.off + NLMSG_HDRLEN + fixed, Row(AttrRecords(attrs), keep);
    AttrsRoundTrip(b, p, attrs, keep);
    AttrsOfIs(b, x, fixed, p, |row|);
  }
}
