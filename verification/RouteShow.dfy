/**
 * What route_show extracts from netlink replies: the routes of the main table
 * with their last destination and gateway, the links with their known
 * attributes, and when to stop receiving.
 */
module RouteShow {
  import opened Options
  import opened Bytes
  import opened Counting
  import opened Netlink

  const NLMSG_ERROR: word := 2
  const NLMSG_DONE: word := 3
  const RTM_NEWLINK: word := 16
  const RTM_NEWROUTE: word := 24
  const RT_TABLE_MAIN: byte := 254
  const RTA_DST: word := 1
  const RTA_GATEWAY: word := 5
  const IFLA_ADDRESS: word := 1
  const IFLA_IFNAME: word := 3
  const IFLA_MTU: word := 4
  const IFLA_QDISC: word := 6

  /** sizeof(struct rtmsg) and sizeof(struct ifinfomsg), both aligned. */
  const RTMSG_LEN := 12
  const IFINFO_LEN := 16

  datatype Line =
    | RouteLine(dst: Option<seq<byte>>, dstLen: byte, protocol: byte, gateway: Option<seq<byte>>)
    | LinkLine(index: seq<byte>, attrs: seq<Attr>)
    | ErrorLine(error: seq<byte>)
    | UnexpectedLine(typ: word, len: nat)

  predicate Printed(typ: word) {
    typ == IFLA_ADDRESS || typ == IFLA_IFNAME || typ == IFLA_MTU || typ == IFLA_QDISC
  }

  // ---------------------------------------------- what the loops compute

  ghost predicate Typed(b: seq<byte>, a: Slot, typ: word) { a.off + 4 <= |b| && Le16(b, a.off + 2) == typ }

  /** The attribute has the given type, and four octets behind its header can be read. */
  ghost predicate Matches(b: seq<byte>, a: Slot, typ: word) { a.off + 8 <= |b| && Typed(b, a, typ) }

  /** The address held in acc after the loop has gone over the slots: each match overwrites it. */
  ghost function Pick(b: seq<byte>, slots: seq<Slot>, typ: word, acc: Option<seq<byte>>): Option<seq<byte>> {
    if slots == [] then acc
    else
      var a := slots[0];
      Pick(b, slots[1..], typ, if Matches(b, a, typ) then Some(b[a.off + 4..a.off + 8]) else acc)
  }

  /** What one attribute adds to the printed ones. */
  ghost function Shown(b: seq<byte>, a: Slot): seq<Attr> {
    if RTA_HDRLEN <= a.len && a.off + a.len <= |b| && Printed(Le16(b, a.off + 2)) then [Decode(b, a)] else []
  }

  /** The printed attributes, in order. */
  ghost function Known(b: seq<byte>, slots: seq<Slot>): seq<Attr> {
    if slots == [] then [] else Shown(b, slots[0]) + Known(b, slots[1..])
  }

  /** Four octets can be read behind the header of every destination and gateway attribute. */
  ghost predicate AddressesInside(b: seq<byte>, slots: seq<Slot>) {
    forall a | a in slots && (Typed(b, a, RTA_DST) || Typed(b, a, RTA_GATEWAY)) :: a.off + 8 <= |b|
  }

  /** A message inside the buffer. */
  predicate Inside(b: seq<byte>, m: Slot) { NLMSG_HDRLEN <= m.len && m.off + m.len <= |b| }

  /**
   * The buffer holds every octet the program reads of the message: the error
   * code of an error; of a route its table and, in the main table, prefix
   * length, protocol and addresses.
   */
  ghost predicate Readable(b: seq<byte>, m: Slot, routes: bool) {
    && Inside(b, m)
    && (Le16(b, m.off + 4) == NLMSG_ERROR ==> m.off + 20 <= |b|)
    && (Le16(b, m.off + 4) == RTM_NEWROUTE && routes ==> RouteReadable(b, m))
  }

  ghost predicate RouteReadable(b: seq<byte>, m: Slot) {
    && m.off + 21 <= |b|
    && (b[m.off + 20] == RT_TABLE_MAIN ==> m.off + 22 <= |b| && AddressesInside(b, AttrsOf(b, m, RTMSG_LEN)))
  }

  ghost function RouteOf(b: seq<byte>, m: Slot): seq<Line>
    requires Inside(b, m) && RouteReadable(b, m)
  {
    if b[m.off + 20] != RT_TABLE_MAIN then []
    else
      var slots := AttrsOf(b, m, RTMSG_LEN);
      [RouteLine(Pick(b, slots, RTA_DST, None), b[m.off + 17], b[m.off + 21], Pick(b, slots, RTA_GATEWAY, None))]
  }

  /** Nothing is printed of a link without known attributes; with one, its family header is whole. */
  ghost function LinkOf(b: seq<byte>, m: Slot): seq<Line>
    requires Inside(b, m)
  {
    var known := Known(b, AttrsOf(b, m, IFINFO_LEN));
    if known == [] then []
    else
      KnownHasHeader(b, m);
      [LinkLine(b[m.off + 20..m.off + 24], known)]
  }

  ghost function LinesOf(b: seq<byte>, m: Slot, routes: bool, links: bool): seq<Line>
    requires Readable(b, m, routes)
  {
    var typ := Le16(b, m.off + 4);
    if typ == NLMSG_DONE then []
    else if typ == RTM_NEWROUTE then (if routes then RouteOf(b, m) else [])
    else if typ == RTM_NEWLINK then (if links then LinkOf(b, m) else [])
    else if typ == NLMSG_ERROR then [ErrorLine(b[m.off + 16..m.off + 20])]
    else if links || routes then [UnexpectedLine(typ, m.len)]
    else []
  }

  ghost predicate Terminates(b: seq<byte>, m: Slot)
    requires Inside(b, m)
  {
    Le16(b, m.off + 4) == NLMSG_DONE || Le16(b, m.off + 4) == NLMSG_ERROR
  }

  predicate AllInside(b: seq<byte>, ms: seq<Slot>) { forall m | m in ms :: Inside(b, m) }

  ghost predicate AllReadable(b: seq<byte>, ms: seq<Slot>, routes: bool) {
    forall m | m in ms :: Readable(b, m, routes)
  }

  ghost function AllLines(b: seq<byte>, ms: seq<Slot>, routes: bool, links: bool): seq<Line>
    requires AllReadable(b, ms, routes)
  {
    if ms == [] then [] else LinesOf(b, ms[0], routes, links) + AllLines(b, ms[1..], routes, links)
  }

  /** Some message ends the exchange. */
  ghost predicate AnyTerminates(b: seq<byte>, ms: seq<Slot>)
    requires AllInside(b, ms)
  {
    ms != [] && (Terminates(b, ms[0]) || AnyTerminates(b, ms[1..]))
  }

  lemma {:induction false} MsgsInside(b: seq<byte>, len: nat)
    requires len <= |b|
    ensures AllInside(b, Msgs(b, 0, len)) && forall m | m in Msgs(b, 0, len) :: m.off + m.len <= len
  {
    forall m | m in Msgs(b, 0, len) ensures Inside(b, m) && m.off + m.len <= len { MsgInside(b, len, m); }
  }

  /** Whatever the octets are, six more than the datagram has are enough. */
  lemma {:induction false} SlackIsReadable(b: seq<byte>, len: nat, routes: bool)
    requires len + 6 <= |b|
    ensures AllReadable(b, Msgs(b, 0, len), routes)
  {
    MsgsInside(b, len);
    forall m | m in Msgs(b, 0, len) ensures Readable(b, m, routes) {
      forall a | a in AttrsOf(b, m, RTMSG_LEN) ensures a.off + 8 <= |b| { AttrInside(b, m, RTMSG_LEN, a); }
    }
  }

  // ------------------------------------------------------------------ loops

  /** These are the attributes left to visit. */
  ghost predicate Left(b: seq<byte>, p: nat, rem: int, left: seq<Slot>) {
    forall x {:trigger Unfold(x)} | Unfold(x) :: p + rem <= |b| && left == Attrs(b, p, rem)
  }

  /** One step of an attribute loop: the attribute at p comes first of what is left to visit. */
  lemma {:induction false} AttrsNext(b: seq<byte>, p: nat, rem: int, left: seq<Slot>)
    requires p + rem <= |b| && RtaOk(b, p, rem) && Left(b, p, rem, left)
    ensures var a, n := Slot(p, Le16(b, p)), Align(Le16(b, p));
            && left != [] && left[0] == a && Left(b, p + n, rem - n, left[1..])
            && RTA_HDRLEN <= a.len && p + a.len <= |b|
  {
    assert Unfold(0);
    var n := Align(Le16(b, p));
    assert left == [Slot(p, Le16(b, p))] + Attrs(b, p + n, rem - n);
  }

  lemma {:induction false} AttrsDone(b: seq<byte>, p: nat, rem: int, left: seq<Slot>)
    requires p + rem <= |b| && !RtaOk(b, p, rem) && Left(b, p, rem, left)
    ensures left == []
  {
    assert Unfold(0);
  }

  lemma {:induction false} FirstInside(b: seq<byte>, left: seq<Slot>)
    requires left != [] && AddressesInside(b, left)
    ensures Typed(b, left[0], RTA_DST) || Typed(b, left[0], RTA_GATEWAY) ==> left[0].off + 8 <= |b|
    ensures AddressesInside(b, left[1..])
  {
  }

  lemma {:induction false} PickNext(b: seq<byte>, left: seq<Slot>, typ: word, acc: Option<seq<byte>>)
    requires left != []
    ensures var a := left[0];
            Pick(b, left, typ, acc)
            == Pick(b, left[1..], typ, if Matches(b, a, typ) then Some(b[a.off + 4..a.off + 8]) else acc)
  {
  }

  /** What the loop of rtnl_print_link has printed once it has also gone over the slots. */
  ghost function KnownAfter(b: seq<byte>, slots: seq<Slot>, acc: seq<Attr>): seq<Attr> {
    if slots == [] then acc else KnownAfter(b, slots[1..], acc + Shown(b, slots[0]))
  }

  lemma {:induction false} KnownAfterIs(b: seq<byte>, slots: seq<Slot>, acc: seq<Attr>)
    ensures KnownAfter(b, slots, acc) == acc + Known(b, slots)
    decreases |slots|
  {
    if slots != [] {
      KnownAfterIs(b, slots[1..], acc + Shown(b, slots[0]));
      Assoc(acc, Shown(b, slots[0]), Known(b, slots[1..]));
    }
  }

  /** With attrs printed and left to visit, the loop is on its way to the printed attributes of all. */
  ghost predicate Showing(b: seq<byte>, left: seq<Slot>, attrs: seq<Attr>, all: seq<Slot>) {
    forall x {:trigger Unfold(x)} | Unfold(x) :: KnownAfter(b, left, attrs) == Known(b, all)
  }

  lemma {:induction false} ShowingStarts(b: seq<byte>, all: seq<Slot>)
    ensures Showing(b, all, [], all)
  {
    KnownAfterIs(b, all, []);
  }

  lemma {:induction false} ShowingEnds(b: seq<byte>, attrs: seq<Attr>, all: seq<Slot>)
    requires Showing(b, [], attrs, all)
    ensures attrs == Known(b, all)
  {
    assert Unfold(0);
  }

  /** The attribute loop of rtnl_print_route. */
  method WalkRoute(b: seq<byte>, start: nat, size: int, ghost all: seq<Slot>)
    returns (dst: Option<seq<byte>>, gateway: Option<seq<byte>>)
    requires start + size <= |b| && Left(b, start, size, all) && AddressesInside(b, all)
    ensures dst == Pick(b, all, RTA_DST, None) && gateway == Pick(b, all, RTA_GATEWAY, None)
  {
    ghost var left := all;
    var p, rem := start, size;
    dst, gateway := None, None;
    ghost var lastDst, lastGateway := Pick(b, all, RTA_DST, None), Pick(b, all, RTA_GATEWAY, None);
    var ok, len := NextAttr(b, p, rem);
    while ok
      invariant p + rem == start + size && ok == RtaOk(b, p, rem) && (ok ==> len == Le16(b, p))
      invariant Left(b, p, rem, left) && AddressesInside(b, left)
      invariant Pick(b, left, RTA_DST, dst) == lastDst && Pick(b, left, RTA_GATEWAY, gateway) == lastGateway
      decreases rem
    {
      AttrsNext(b, p, rem, left);
      PickNext(b, left, RTA_DST, dst);
      PickNext(b, left, RTA_GATEWAY, gateway);
      var typ := ReadLe16(b, p + 2);
      FirstInside(b, left);
      var n := AlignUp(len);
      if typ == RTA_DST {
        dst := Some(b[p + 4..p + 8]);
      }
      if typ == RTA_GATEWAY {
        gateway := Some(b[p + 4..p + 8]);
      }
      left := left[1..];
      p, rem := p + n, rem - n;
      ok, len := NextAttr(b, p, rem);
    }
    AttrsDone(b, p, rem, left);
  }

  /** rtnl_print_route */
  method PrintRoute(b: seq<byte>, m: Slot) returns (lines: seq<Line>)
    requires Inside(b, m) && RouteReadable(b, m)
    ensures lines == RouteOf(b, m)
  {
    if b[m.off + 20] != RT_TABLE_MAIN {
      return [];
    }
    var start, size := m.off + NLMSG_HDRLEN + RTMSG_LEN, m.len - NLMSG_HDRLEN - RTMSG_LEN;
    var dst, gateway := WalkRoute(b, start, size, AttrsOf(b, m, RTMSG_LEN));
    return [RouteLine(dst, b[m.off + 17], b[m.off + 21], gateway)];
  }

  /** What one round of the attribute loop of rtnl_print_link adds to what is printed. */
  method ShowNext(b: seq<byte>, a: Slot, acc: seq<Attr>, ghost left: seq<Slot>, ghost all: seq<Slot>)
    returns (attrs: seq<Attr>)
    requires left != [] && left[0] == a && RTA_HDRLEN <= a.len && a.off + a.len <= |b|
    requires Showing(b, left, acc, all)
    ensures Showing(b, left[1..], attrs, all)
  {
    var typ := ReadLe16(b, a.off + 2);
    attrs := acc + if Printed(typ) then [Attr(typ, b[a.off + RTA_HDRLEN..a.off + a.len])] else [];
    assert attrs == acc + Shown(b, a);
  }

  /** The attribute loop of rtnl_print_link. */
  method WalkLink(b: seq<byte>, start: nat, size: int, ghost all: seq<Slot>) returns (attrs: seq<Attr>)
    requires start + size <= |b| && Left(b, start, size, all)
    ensures attrs == Known(b, all)
  {
    ghost var left := all;
    var p, rem := start, size;
    attrs := [];
    ShowingStarts(b, all);
    var ok, len := NextAttr(b, p, rem);
    while ok
      invariant p + rem == start + size && ok == RtaOk(b, p, rem) && (ok ==> len == Le16(b, p))
      invariant Left(b, p, rem, left) && Showing(b, left, attrs, all)
      decreases rem
    {
      AttrsNext(b, p, rem, left);
      attrs := ShowNext(b, Slot(p, len), attrs, left, all);
      var n := AlignUp(len);
      left := left[1..];
      p, rem := p + n, rem - n;
      ok, len := NextAttr(b, p, rem);
    }
    AttrsDone(b, p, rem, left);
    ShowingEnds(b, attrs, all);
  }

  /** rtnl_print_link */
  method PrintLink(b: seq<byte>, m: Slot) returns (lines: seq<Line>)
    requires Inside(b, m)
    ensures lines == LinkOf(b, m)
  {
    var start, size := m.off + NLMSG_HDRLEN + IFINFO_LEN, m.len - NLMSG_HDRLEN - IFINFO_LEN;
    var attrs := WalkLink(b, start, size, AttrsOf(b, m, IFINFO_LEN));
    if attrs == [] {
      return [];
    }
    KnownHasHeader(b, m);
    return [LinkLine(b[m.off + 20..m.off + 24], attrs)];
  }

  /** A message with an attribute to print has room for the family header before it. */
  lemma {:induction false} KnownHasHeader(b: seq<byte>, m: Slot)
    requires Inside(b, m) && Known(b, AttrsOf(b, m, IFINFO_LEN)) != []
    ensures m.off + NLMSG_HDRLEN + IFINFO_LEN + RTA_HDRLEN <= |b|
  {
    var slots := AttrsOf(b, m, IFINFO_LEN);
    if slots != [] { AttrInside(b, m, IFINFO_LEN, slots[0]); }
  }

  method PrintMessage(b: seq<byte>, m: Slot, routes: bool, links: bool) returns (lines: seq<Line>, end: bool)
    requires Readable(b, m, routes)
    ensures lines == LinesOf(b, m, routes, links) && end == Terminates(b, m)
  {
    var typ := ReadLe16(b, m.off + 4);
    lines, end := [], false;
    if typ == NLMSG_DONE {
      end := true;
    } else if typ == RTM_NEWROUTE {
      if routes { lines := PrintRoute(b, m); }
    } else if typ == RTM_NEWLINK {
      if links { lines := PrintLink(b, m); }
    } else if typ == NLMSG_ERROR {
      lines, end := [ErrorLine(b[m.off + 16..m.off + 20])], true;
    } else if links || routes {
      lines := [UnexpectedLine(typ, m.len)];
    }
  }

  /**
   * The message loop of process_netlink_responses over one datagram. A DONE or
   * ERROR message sets the end flag, and the messages behind it are still processed.
   */
  method ProcessDatagram(b: seq<byte>, len: nat, routes: bool, links: bool) returns (lines: seq<Line>, end: bool)
    requires len <= |b| && AllReadable(b, Msgs(b, 0, len), routes)
    ensures lines == AllLines(b, Msgs(b, 0, len), routes, links)
    ensures end <==> AnyTerminates(b, Msgs(b, 0, len))
  {
    ghost var all := Msgs(b, 0, len);
    ghost var left := all;
    var p, rem: int := 0, len;
    lines, end := [], false;
    var ok, size := NextMsg(b, p, rem);
    while ok
      invariant p + rem == len && ok == NlmsgOk(b, p, rem) && (ok ==> size == Le32(b, p))
      invariant left == Msgs(b, p, rem) && AllReadable(b, left, routes)
      invariant lines + AllLines(b, left, routes, links) == AllLines(b, all, routes, links)
      invariant end || AnyTerminates(b, left) <==> AnyTerminates(b, all)
      decreases rem
    {
      MsgsNext(b, p, rem, left, routes);
      var m := Slot(p, size);
      var n := AlignUp(size);
      var more, stop := PrintMessage(b, m, routes, links);
      Assoc(lines, more, AllLines(b, left[1..], routes, links));
      lines, end := lines + more, end || stop;
      left := left[1..];
      p, rem := p + n, rem - n;
      ok, size := NextMsg(b, p, rem);
    }
  }

  /** One step of the message loop: the message at p comes first of what is left to visit. */
  lemma {:induction false} MsgsNext(b: seq<byte>, p: nat, rem: int, left: seq<Slot>, routes: bool)
    requires p + rem <= |b| && NlmsgOk(b, p, rem) && left == Msgs(b, p, rem) && AllReadable(b, left, routes)
    ensures var n := Align(Le32(b, p));
            && left != [] && left[0] == Slot(p, Le32(b, p)) && Readable(b, left[0], routes)
            && left[1..] == Msgs(b, p + n, rem - n) && AllReadable(b, left[1..], routes)
  {
    var n := Align(Le32(b, p));
    assert left == [Slot(p, Le32(b, p))] + Msgs(b, p + n, rem - n);
    assert left[0] in left;
    forall m | m in left[1..] ensures m in left { }
  }

  // --------------------------------------------------------------- sessions

  /** One recvmsg: a negative length is an error, the buffer may be longer than the datagram. */
  datatype Reply = Reply(len: int, buf: seq<byte>) {
    ghost predicate Valid(routes: bool) { len > 0 ==> len <= |buf| && AllReadable(buf, Msgs(buf, 0, len), routes) }

    /** The exchange goes on after this reply. */
    ghost predicate GoesOn(routes: bool)
      requires Valid(routes)
    {
      len > 0 && !AnyTerminates(buf, Msgs(buf, 0, len))
    }
  }

  /** Every reply up to the one that ends the exchange can be read; what follows does not matter. */
  ghost predicate Receivable(rs: seq<Reply>, routes: bool) {
    rs != [] ==> rs[0].Valid(routes) && (rs[0].GoesOn(routes) ==> Receivable(rs[1..], routes))
  }

  /** The lines of a whole exchange: up to a failure, an empty reply, or the datagram that ends it. */
  ghost function Session(rs: seq<Reply>, routes: bool, links: bool): seq<Line>
    requires Receivable(rs, routes)
  {
    if rs == [] || rs[0].len <= 0 then []
    else
      AllLines(rs[0].buf, Msgs(rs[0].buf, 0, rs[0].len), routes, links)
      + if rs[0].GoesOn(routes) then Session(rs[1..], routes, links) else []
  }

  /** process_netlink_responses */
  method ProcessResponses(rs: seq<Reply>, routes: bool, links: bool) returns (lines: seq<Line>)
    requires Receivable(rs, routes)
    ensures lines == Session(rs, routes, links)
  {
    lines := [];
    ghost var left := rs;
    var end, i := false, 0;
    OngoingStarts(rs, routes, links);
    while !end && i < |rs|
      invariant i <= |rs| && left == rs[i..]
      invariant if end then lines == Session(rs, routes, links) else Ongoing(left, lines, rs, routes, links)
      decreases |rs| - i, !end
    {
      var r := rs[i];
      if r.len <= 0 {
        break;
      }
      OngoingNext(left, lines, rs, routes, links);
      var more, stop := ProcessDatagram(r.buf, r.len, routes, links);
      lines, end := lines + more, stop;
      left := left[1..];
      i := i + 1;
    }
    if !end { OngoingEnds(left, lines, rs, routes, links); }
  }

  /** With these lines printed and these replies left, the exchange is on its way to the lines of all. */
  ghost predicate Ongoing(left: seq<Reply>, lines: seq<Line>, rs: seq<Reply>, routes: bool, links: bool)
    requires Receivable(rs, routes)
  {
    forall x {:trigger Unfold(x)} | Unfold(x) ::
      Receivable(left, routes) && lines + Session(left, routes, links) == Session(rs, routes, links)
  }

  lemma {:induction false} OngoingStarts(rs: seq<Reply>, routes: bool, links: bool)
    requires Receivable(rs, routes)
    ensures Ongoing(rs, [], rs, routes, links)
  {
    assert [] + Session(rs, routes, links) == Session(rs, routes, links);
  }

  /** One reply is taken in, and the others follow unless it ends the exchange. */
  lemma {:induction false} OngoingNext(
    left: seq<Reply>, lines: seq<Line>, rs: seq<Reply>, routes: bool, links: bool)
    requires Receivable(rs, routes) && left != [] && left[0].len > 0 && Ongoing(left, lines, rs, routes, links)
    ensures var r := left[0];
            && r.Valid(routes)
            && var more := AllLines(r.buf, Msgs(r.buf, 0, r.len), routes, links);
               if AnyTerminates(r.buf, Msgs(r.buf, 0, r.len)) then lines + more == Session(rs, routes, links)
               else Ongoing(left[1..], lines + more, rs, routes, links)
  {
    assert Unfold(0);
    var r := left[0];
    var more := AllLines(r.buf, Msgs(r.buf, 0, r.len), routes, links);
    if r.GoesOn(routes) { Assoc(lines, more, Session(left[1..], routes, links)); } else { assert more + [] == more; }
  }

  lemma {:induction false} OngoingEnds(
    left: seq<Reply>, lines: seq<Line>, rs: seq<Reply>, routes: bool, links: bool)
    requires Receivable(rs, routes) && Ongoing(left, lines, rs, routes, links) && (left == [] || left[0].len <= 0)
    ensures lines == Session(rs, routes, links)
  {
    assert Unfold(0);
    assert lines + [] == lines;
  }

  // ---------------------------------------- what the encoded messages say

  /** The first four octets of the last attribute of the given type. */
  function LastAddress(attrs: seq<Attr>, typ: word): Option<seq<byte>>
    requires forall a | a in attrs && a.typ == typ :: |a.payload| >= 4
  {
    if attrs == [] then None
    else
      var a := attrs[|attrs| - 1];
      if a.typ == typ then Some(a.payload[..4]) else LastAddress(attrs[..|attrs| - 1], typ)
  }

  function KnownAttrs(attrs: seq<Attr>): seq<Attr> {
    if attrs == [] then [] else (if attrs[0].typ in {1, 3, 4, 6} then [attrs[0]] else []) + KnownAttrs(attrs[1..])
  }

  // What a message means is written with the numbers of the protocol, on its own.

  /** A message with the family header and the address sizes its type calls for. */
  predicate Proper(m: Msg) {
    && (m.typ == 24 ==> |m.fixed| == 12 && AddressesWhole(m.attrs))
    && (m.typ == 16 ==> |m.fixed| == 16)
    && (m.typ == 2 ==> |m.fixed| >= 4)
  }

  /** What should be printed for a message, read off the message itself. */
  ghost function Meaning(m: Msg, routes: bool, links: bool): seq<Line>
    requires m.Valid() && Proper(m)
  {
    if m.typ == 3 then []
    else if m.typ == 24 then (if routes then RouteSays(m.fixed, m.attrs) else [])
    else if m.typ == 16 then (if links then LinkSays(m.fixed, m.attrs) else [])
    else if m.typ == 2 then [ErrorLine(m.fixed[..4])]
    else if links || routes then [UnexpectedLine(m.typ, m.Size())]
    else []
  }

  ghost function Meanings(ms: seq<Msg>, routes: bool, links: bool): seq<Line>
    requires forall m | m in ms :: m.Valid() && Proper(m)
  {
    if ms == [] then [] else Meaning(ms[0], routes, links) + Meanings(ms[1..], routes, links)
  }

  /** Seen from the front: a later match wins over the first attribute. */
  lemma {:induction false} LastFromFront(attrs: seq<Attr>, typ: word)
    requires attrs != [] && forall a | a in attrs && a.typ == typ :: |a.payload| >= 4
    ensures var later := LastAddress(attrs[1..], typ);
            LastAddress(attrs, typ)
            == if later.Some? then later else if attrs[0].typ == typ then Some(attrs[0].payload[..4]) else None
    decreases |attrs|
  {
    var k := |attrs| - 1;
    if k > 0 && attrs[k].typ != typ {
      LastFromFront(attrs[..k], typ);
      assert attrs[1..][..k - 1] == attrs[..k][1..];
    }
  }

  /** A slot that reads as a with a whole address matches a's type and yields a's address. */
  lemma {:induction false} AddressAt(b: seq<byte>, x: Slot, a: Attr, typ: word)
    requires ReadsOne(b, x, a) && (a.typ == typ ==> |a.payload| >= 4)
    ensures Typed(b, x, typ) <==> a.typ == typ
    ensures Typed(b, x, typ) ==> Matches(b, x, typ)
    ensures a.typ == typ ==> b[x.off + 4..x.off + 8] == a.payload[..4]
  {
  }

  /** The overwriting loop ends with the last match. */
  lemma {:induction false} PickIsLast(
    b: seq<byte>, slots: seq<Slot>, attrs: seq<Attr>, typ: word, acc: Option<seq<byte>>)
    requires Reads(b, slots, attrs)
    requires forall a | a in attrs && a.typ == typ :: |a.payload| >= 4
    ensures Pick(b, slots, typ, acc) == if LastAddress(attrs, typ).Some? then LastAddress(attrs, typ) else acc
    decreases |attrs|
  {
    if attrs != [] {
      LastFromFront(attrs, typ);
      assert attrs[0] in attrs;
      AddressAt(b, slots[0], attrs[0], typ);
      PickIsLast(b, slots[1..], attrs[1..], typ, if attrs[0].typ == typ then Some(attrs[0].payload[..4]) else acc);
    }
  }

  lemma {:induction false} ShownIs(b: seq<byte>, x: Slot, a: Attr)
    requires ReadsOne(b, x, a)
    ensures Shown(b, x) == if Printed(a.typ) then [a] else []
  {
  }

  lemma {:induction false} KnownIsKnown(b: seq<byte>, slots: seq<Slot>, attrs: seq<Attr>)
    requires Reads(b, slots, attrs)
    ensures Known(b, slots) == KnownAttrs(attrs)
    decreases |attrs|
  {
    if attrs != [] {
      ShownIs(b, slots[0], attrs[0]);
      KnownIsKnown(b, slots[1..], attrs[1..]);
    }
  }

  predicate AddressesWhole(attrs: seq<Attr>) {
    forall a | a in attrs && (a.typ == 1 || a.typ == 5) :: |a.payload| >= 4
  }

  lemma {:induction false} RouteAddresses(b: seq<byte>, slots: seq<Slot>, attrs: seq<Attr>)
    requires Reads(b, slots, attrs) && AddressesWhole(attrs)
    ensures Pick(b, slots, RTA_DST, None) == LastAddress(attrs, RTA_DST)
    ensures Pick(b, slots, RTA_GATEWAY, None) == LastAddress(attrs, RTA_GATEWAY)
  {
    PickIsLast(b, slots, attrs, RTA_DST, None);
    PickIsLast(b, slots, attrs, RTA_GATEWAY, None);
  }

  lemma {:induction false} FixedOctet(b: seq<byte>, p: nat, r: seq<byte>, k: nat)
    requires Stands(b, p, r) && k < |r|
    ensures b[p + k] == r[k]
  {
  }

  /** What is said about a route, from its family header and its attributes. */
  function RouteSays(fixed: seq<byte>, attrs: seq<Attr>): seq<Line>
    requires |fixed| == 12 && AddressesWhole(attrs)
  {
    if fixed[4] != 254 then []
    else [RouteLine(LastAddress(attrs, 1), fixed[1], fixed[5], LastAddress(attrs, 5))]
  }

  lemma {:induction false} RouteMeaning(b: seq<byte>, x: Slot, fixed: seq<byte>, attrs: seq<Attr>)
    requires Inside(b, x) && RouteReadable(b, x) && |fixed| == RTMSG_LEN && Stands(b, x.off + NLMSG_HDRLEN, fixed)
    requires Reads(b, AttrsOf(b, x, RTMSG_LEN), attrs) && AddressesWhole(attrs)
    ensures RouteOf(b, x) == RouteSays(fixed, attrs)
  {
    RouteAddresses(b, AttrsOf(b, x, RTMSG_LEN), attrs);
    FixedOctet(b, x.off + NLMSG_HDRLEN, fixed, 1);
    FixedOctet(b, x.off + NLMSG_HDRLEN, fixed, 4);
    FixedOctet(b, x.off + NLMSG_HDRLEN, fixed, 5);
  }

  /** The address, name, MTU and queueing discipline of a link, in order, with its index. */
  function LinkSays(fixed: seq<byte>, attrs: seq<Attr>): seq<Line>
    requires |fixed| == 16
  {
    if KnownAttrs(attrs) == [] then [] else [LinkLine(fixed[4..8], KnownAttrs(attrs))]
  }

  lemma {:induction false} LinkMeaning(b: seq<byte>, x: Slot, fixed: seq<byte>, attrs: seq<Attr>)
    requires Inside(b, x) && |fixed| == IFINFO_LEN && Stands(b, x.off + NLMSG_HDRLEN, fixed)
    requires Reads(b, AttrsOf(b, x, IFINFO_LEN), attrs)
    ensures LinkOf(b, x) == LinkSays(fixed, attrs)
  {
    KnownIsKnown(b, AttrsOf(b, x, IFINFO_LEN), attrs);
    FixedSlice(b, x.off + NLMSG_HDRLEN, fixed, 4);
  }

  lemma {:induction false} FixedSlice(b: seq<byte>, p: nat, r: seq<byte>, k: nat)
    requires Stands(b, p, r) && k + 4 <= |r|
    ensures b[p + k..p + k + 4] == r[k..k + 4]
  {
    FixedOctet(b, p, r, k);
    FixedOctet(b, p, r, k + 1);
    FixedOctet(b, p, r, k + 2);
    FixedOctet(b, p, r, k + 3);
  }

  lemma {:induction false} WholeIsInside(b: seq<byte>, slots: seq<Slot>, attrs: seq<Attr>)
    requires Reads(b, slots, attrs) && AddressesWhole(attrs)
    ensures AddressesInside(b, slots)
    decreases |attrs|
  {
    if attrs != [] {
      assert attrs[0] in attrs;
      WholeIsInside(b, slots[1..], attrs[1..]);
      if Typed(b, slots[0], RTA_DST) { AddressAt(b, slots[0], attrs[0], RTA_DST); }
      if Typed(b, slots[0], RTA_GATEWAY) { AddressAt(b, slots[0], attrs[0], RTA_GATEWAY); }
      assert slots == [slots[0]] + slots[1..];
    }
  }

  /** A proper message holds every octet that is read of it. */
  lemma {:induction false} ProperIsReadable(b: seq<byte>, x: Slot, m: Msg, routes: bool)
    requires m.Valid() && Proper(m) && ReadsMsg(b, x, m)
    ensures Readable(b, x, routes)
  {
    if m.typ == RTM_NEWROUTE { WholeIsInside(b, AttrsOf(b, x, RTMSG_LEN), m.attrs); }
  }

  lemma {:induction false} AllProperReadable(b: seq<byte>, xs: seq<Slot>, ms: seq<Msg>, routes: bool)
    requires |xs| == |ms|
    requires forall k | 0 <= k < |ms| :: ms[k].Valid() && Proper(ms[k]) && ReadsMsg(b, xs[k], ms[k])
    ensures AllReadable(b, xs, routes)
  {
    forall x | x in xs ensures Readable(b, x, routes) {
      var k :| 0 <= k < |xs| && xs[k] == x;
      ProperIsReadable(b, x, ms[k], routes);
    }
  }

  /** Printing the slot that holds a message prints what the message says. */
  lemma {:induction false} LinesAreMeaning(b: seq<byte>, x: Slot, m: Msg, routes: bool, links: bool)
    requires m.Valid() && Proper(m) && ReadsMsg(b, x, m) && Readable(b, x, routes)
    ensures LinesOf(b, x, routes, links) == Meaning(m, routes, links)
  {
    if m.typ == RTM_NEWROUTE {
      if routes { RouteMeaning(b, x, m.fixed, m.attrs); }
    } else if m.typ == RTM_NEWLINK {
      LinkMeaning(b, x, m.fixed, m.attrs);
    } else if m.typ == NLMSG_ERROR {
      FixedSlice(b, x.off + NLMSG_HDRLEN, m.fixed, 0);
    }
  }

  lemma {:induction false} AllLinesAreMeanings(b: seq<byte>, xs: seq<Slot>, ms: seq<Msg>, routes: bool, links: bool)
    requires |xs| == |ms| && AllReadable(b, xs, routes) && forall m | m in ms :: m.Valid() && Proper(m)
    requires forall k | 0 <= k < |ms| :: ms[k].Valid() && ReadsMsg(b, xs[k], ms[k])
    ensures AllLines(b, xs, routes, links) == Meanings(ms, routes, links)
    decreases |ms|
  {
    if ms != [] {
      assert ms[0] in ms && xs[0] in xs;
      LinesAreMeaning(b, xs[0], ms[0], routes, links);
      AllLinesAreMeanings(b, xs[1..], ms[1..], routes, links);
    }
  }

  /**
   * End to end: for every list of messages encoded in a datagram, also one that
   * fills its buffer, nothing outside the buffer is read, and what is printed is
   * what the messages say, in order, the last destination and the last gateway
   * attribute of a route winning.
   */
  lemma {:induction false} DatagramMeaning(b: seq<byte>, ms: seq<Msg>, keep: nat, routes: bool, links: bool)
    requires (forall m | m in ms :: m.Valid() && Proper(m)) && Keeps(MsgRecords(ms), keep)
    requires Stands(b, 0, Row(MsgRecords(ms), keep))
    ensures var xs := Msgs(b, 0, |Row(MsgRecords(ms), keep)|);
            AllReadable(b, xs, routes) && AllLines(b, xs, routes, links) == Meanings(ms, routes, links)
  {
    var xs := Msgs(b, 0, |Row(MsgRecords(ms), keep)|);
    if ms == [] {
      assert MsgRecords(ms) == [];
    } else {
      RoundTrip(b, ms, keep, 0);
      forall k | 0 <= k < |ms| ensures ms[k].Valid() && ReadsMsg(b, xs[k], ms[k]) { RoundTrip(b, ms, keep, k); }
      AllProperReadable(b, xs, ms, routes);
      AllLinesAreMeanings(b, xs, ms, routes, links);
    }
  }

  // ------------------------------------------------------ a whole exchange

  /** A message that ends the exchange: an error or the end of the dump. */
  predicate Ends(m: Msg) { m.typ == 2 || m.typ == 3 }

  predicate AnyEnds(ms: seq<Msg>) { exists m | m in ms :: Ends(m) }

  ghost predicate AllProper(ms: seq<Msg>) { forall m | m in ms :: m.Valid() && Proper(m) }

  /** The reply is a datagram that holds exactly these messages, at least one. */
  ghost predicate Carries(r: Reply, ms: seq<Msg>, keep: nat) {
    && ms != [] && AllProper(ms) && Keeps(MsgRecords(ms), keep)
    && Stands(r.buf, 0, Row(MsgRecords(ms), keep)) && r.len == |Row(MsgRecords(ms), keep)|
  }

  lemma {:induction false} EndsHere(b: seq<byte>, x: Slot, m: Msg)
    requires Inside(b, x) && m.Valid() && ReadsMsg(b, x, m)
    ensures Terminates(b, x) <==> Ends(m)
  {
  }

  lemma {:induction false} AnyEndsCons(ms: seq<Msg>)
    requires ms != []
    ensures AnyEnds(ms) <==> Ends(ms[0]) || AnyEnds(ms[1..])
  {
    if Ends(ms[0]) { assert ms[0] in ms; }
    assert ms == [ms[0]] + ms[1..];
  }

  lemma {:induction false} TerminatesIffEnds(b: seq<byte>, xs: seq<Slot>, ms: seq<Msg>)
    requires |xs| == |ms| && AllInside(b, xs)
    requires forall k | 0 <= k < |ms| :: ms[k].Valid() && ReadsMsg(b, xs[k], ms[k])
    ensures AnyTerminates(b, xs) <==> AnyEnds(ms)
    decreases |ms|
  {
    if ms != [] {
      assert xs[0] in xs;
      EndsHere(b, xs[0], ms[0]);
      AnyEndsCons(ms);
      TerminatesIffEnds(b, xs[1..], ms[1..]);
    }
  }

  lemma {:induction false} RowNotEmpty(ms: seq<Msg>, keep: nat)
    requires ms != [] && (forall m | m in ms :: m.Valid()) && Keeps(MsgRecords(ms), keep)
    ensures |Row(MsgRecords(ms), keep)| > 0
  {
    var cs := MsgRecords(ms);
    assert ms[0] in ms;
    var _, _ := RowParts(cs, keep);
  }

  /** One reply: it can be read, prints what its messages say, and ends the exchange if one of them does. */
  lemma {:induction false} ReplyMeaning(r: Reply, ms: seq<Msg>, keep: nat, routes: bool, links: bool)
    requires Carries(r, ms, keep)
    ensures r.len > 0 && r.Valid(routes) && (r.GoesOn(routes) <==> !AnyEnds(ms))
    ensures AllLines(r.buf, Msgs(r.buf, 0, r.len), routes, links) == Meanings(ms, routes, links)
  {
    RowNotEmpty(ms, keep);
    DatagramMeaning(r.buf, ms, keep, routes, links);
    var xs := Msgs(r.buf, 0, r.len);
    RoundTrip(r.buf, ms, keep, 0);
    forall k | 0 <= k < |ms| ensures ms[k].Valid() && ReadsMsg(r.buf, xs[k], ms[k]) {
      assert ms[k] in ms;
      RoundTrip(r.buf, ms, keep, k);
    }
    TerminatesIffEnds(r.buf, xs, ms);
  }

  function Flat(mss: seq<seq<Msg>>): seq<Msg> { if mss == [] then [] else mss[0] + Flat(mss[1..]) }

  lemma {:induction false} MeaningsConcat(a: seq<Msg>, b: seq<Msg>, routes: bool, links: bool)
    requires AllProper(a) && AllProper(b)
    ensures AllProper(a + b)
    ensures Meanings(a + b, routes, links) == Meanings(a, routes, links) + Meanings(b, routes, links)
    decreases |a|
  {
    if a == [] {
      assert a + b == b;
    } else {
      assert (a + b)[1..] == a[1..] + b;
      MeaningsConcat(a[1..], b, routes, links);
      Assoc(Meaning(a[0], routes, links), Meanings(a[1..], routes, links), Meanings(b, routes, links));
    }
  }

  /** The replies carry the lists of messages, none but the last of which ends the exchange. */
  ghost predicate Exchange(rs: seq<Reply>, mss: seq<seq<Msg>>, keeps: seq<nat>) {
    && |mss| == |keeps| <= |rs|
    && (forall k | 0 <= k < |mss| :: Carries(rs[k], mss[k], keeps[k]))
    && (forall k | 0 <= k < |mss| - 1 :: !AnyEnds(mss[k]))
  }

  /** After them the exchange is over: the last one ended it, or there is no further reply. */
  ghost predicate Over(rs: seq<Reply>, mss: seq<seq<Msg>>)
    requires |mss| <= |rs|
  {
    || (mss != [] && AnyEnds(mss[|mss| - 1]))
    || |rs| == |mss|
    || rs[|mss|].len <= 0
  }

  /**
   * The whole exchange, end to end: everything said up to and including the
   * datagram with the first error or end-of-dump message is printed, that whole
   * datagram included, and nothing of the replies behind it, whatever they are;
   * without such a message, everything said up to the first failed or empty
   * reply.
   */
  lemma {:induction false} SessionMeaning(
    rs: seq<Reply>, mss: seq<seq<Msg>>, keeps: seq<nat>, routes: bool, links: bool)
    requires Exchange(rs, mss, keeps) && Over(rs, mss)
    ensures Receivable(rs, routes) && AllProper(Flat(mss))
    ensures Session(rs, routes, links) == Meanings(Flat(mss), routes, links)
    decreases |mss|
  {
    if mss != [] {
      assert Carries(rs[0], mss[0], keeps[0]);
      if AnyEnds(mss[0]) {
        LastOne(rs, mss, keeps);
      } else {
        ExchangeTail(rs, mss, keeps);
        SessionMeaning(rs[1..], mss[1..], keeps[1..], routes, links);
        MeaningsConcat(mss[0], Flat(mss[1..]), routes, links);
      }
      SessionHead(rs, mss[0], keeps[0], routes, links);
    }
  }

  lemma {:induction false} SessionHead(rs: seq<Reply>, ms: seq<Msg>, keep: nat, routes: bool, links: bool)
    requires rs != [] && Carries(rs[0], ms, keep) && (AnyEnds(ms) || Receivable(rs[1..], routes))
    ensures Receivable(rs, routes)
    ensures Session(rs, routes, links)
            == Meanings(ms, routes, links) + if AnyEnds(ms) then [] else Session(rs[1..], routes, links)
  {
    ReplyMeaning(rs[0], ms, keep, routes, links);
  }

  lemma {:induction false} LastOne(rs: seq<Reply>, mss: seq<seq<Msg>>, keeps: seq<nat>)
    requires Exchange(rs, mss, keeps) && mss != [] && AnyEnds(mss[0])
    ensures |mss| == 1 && Flat(mss) == mss[0]
  {
    assert mss[1..] == [];
    assert mss[0] + [] == mss[0];
  }

  lemma {:induction false} ExchangeTail(rs: seq<Reply>, mss: seq<seq<Msg>>, keeps: seq<nat>)
    requires Exchange(rs, mss, keeps) && Over(rs, mss) && mss != [] && !AnyEnds(mss[0])
    ensures Exchange(rs[1..], mss[1..], keeps[1..]) && Over(rs[1..], mss[1..])
  {
    var rs', mss', keeps' := rs[1..], mss[1..], keeps[1..];
    forall k | 0 <= k < |mss'| ensures Carries(rs'[k], mss'[k], keeps'[k]) {
      assert Carries(rs[k + 1], mss[k + 1], keeps[k + 1]);
    }
    forall k | 0 <= k < |mss'| - 1 ensures !AnyEnds(mss'[k]) { assert !AnyEnds(mss[k + 1]); }
  }
}
