/**
 * The client table of the chat server: a slot array with a redundant counter,
 * shared under a mutex by the accepting thread and one thread per client.
 */
module ChatTable {
  import opened Options
  import opened Counting

  /** sockfd 0 marks a free slot; peer stands for the address, IP text and port. */
  datatype Slot = Slot(fd: int, peer: nat)

  const FREE := Slot(0, 0)

  // ------------------------------------------------------- table functions

  /** The first slot holding descriptor fd, or the size of the table. */
  function Find(t: seq<Slot>, fd: int): (i: nat)
    ensures i <= |t| && (i < |t| ==> t[i].fd == fd) && forall k | 0 <= k < i :: t[k].fd != fd
  {
    if t == [] || t[0].fd == fd then 0 else 1 + Find(t[1..], fd)
  }

  function Occupied(t: seq<Slot>): nat {
    if t == [] then 0 else (if t[0].fd != 0 then 1 else 0) + Occupied(t[1..])
  }

  function Add(t: seq<Slot>, x: Slot): seq<Slot> {
    var i := Find(t, 0);
    if i < |t| then t[i := x] else t
  }

  function Remove(t: seq<Slot>, fd: int): seq<Slot> {
    var i := Find(t, fd);
    if i < |t| then t[i := FREE] else t
  }

  /** The descriptors a broadcast sends to, in slot order. */
  function Recipients(t: seq<Slot>, sender: int): seq<int> {
    if t == [] then []
    else (if t[0].fd > 0 && t[0].fd != sender then [t[0].fd] else []) + Recipients(t[1..], sender)
  }

  lemma {:induction false} OccupiedUpdate(t: seq<Slot>, i: nat, x: Slot)
    requires i < |t|
    ensures Occupied(t[i := x]) == Occupied(t) - (if t[i].fd != 0 then 1 else 0) + (if x.fd != 0 then 1 else 0)
  {
    if i > 0 {
      assert t[i := x][1..] == t[1..][i - 1 := x];
      OccupiedUpdate(t[1..], i - 1, x);
    } else {
      assert t[i := x][1..] == t[1..];
    }
  }

  // -------------------------------------------------------- the slot index

  /** The occupied slots form a prefix that leaves room: slots below k are taken, the others free. */
  predicate RoomyPrefix(t: seq<Slot>) {
    var k := Find(t, 0);
    k < |t| && forall i | k <= i < |t| :: t[i].fd == 0
  }

  lemma {:induction false} NoneOccupied(t: seq<Slot>)
    ensures Occupied(t) == 0 <==> forall i | 0 <= i < |t| :: t[i].fd == 0
  {
    if t != [] {
      NoneOccupied(t[1..]);
      if Occupied(t) == 0 {
        forall i | 0 <= i < |t| ensures t[i].fd == 0 { if i > 0 { assert t[i] == t[1..][i - 1]; } }
      }
    }
  }

  lemma {:induction false} OccupiedFromFirstFree(t: seq<Slot>)
    ensures Occupied(t) == Find(t, 0) + Occupied(t[Find(t, 0)..])
  {
    if t != [] && t[0].fd != 0 {
      OccupiedFromFirstFree(t[1..]);
      assert t[Find(t, 0)..] == t[1..][Find(t[1..], 0)..];
    }
  }

  /**
   * The accepting thread hands slot client_count - 1 to the new client's thread.
   * After an add, that is the slot just filled if and only if the occupied slots
   * formed a prefix with room behind it.
   */
  lemma {:induction false} SlotJustFilled(t: seq<Slot>, x: Slot)
    requires x.fd != 0
    ensures Find(t, 0) < |t| && Occupied(Add(t, x)) - 1 == Find(t, 0) <==> RoomyPrefix(t)
  {
    var k := Find(t, 0);
    OccupiedFromFirstFree(t);
    if k < |t| {
      OccupiedUpdate(t, k, x);
      RoomyIff(t);
    }
  }

  lemma {:induction false} RoomyIff(t: seq<Slot>)
    requires Find(t, 0) < |t|
    ensures RoomyPrefix(t) <==> Occupied(t[Find(t, 0)..]) == 0
  {
    var k := Find(t, 0);
    NoneOccupied(t[k..]);
    if Occupied(t[k..]) == 0 {
      forall i | k <= i < |t| ensures t[i].fd == 0 { assert t[i] == t[k..][i - k]; }
    }
  }

  /** A hole makes it wrong: with the first of two clients gone, a third is handed the second one's slot. */
  lemma {:induction false} HoleExample()
    ensures var t := Add(Remove(Add(Add([FREE, FREE, FREE], Slot(4, 1)), Slot(5, 2)), 4), Slot(6, 3));
            t == [Slot(6, 3), Slot(5, 2), FREE] && Occupied(t) - 1 == 1
  {
    var t0 := [FREE, FREE, FREE];
    assert Find(t0, 0) == 0;
    var t1 := [Slot(4, 1), FREE, FREE];
    assert Add(t0, Slot(4, 1)) == t1;
    assert t1[1..] == [FREE, FREE] && Find(t1[1..], 0) == 0 && Find(t1, 0) == 1;
    var t2 := [Slot(4, 1), Slot(5, 2), FREE];
    assert Add(t1, Slot(5, 2)) == t2;
    assert Find(t2, 4) == 0;
    var t3 := [FREE, Slot(5, 2), FREE];
    assert Remove(t2, 4) == t3;
    assert Find(t3, 0) == 0;
    var t4 := [Slot(6, 3), Slot(5, 2), FREE];
    assert Add(t3, Slot(6, 3)) == t4;
    assert [FREE][1..] == [] && Occupied([FREE]) == 0;
    assert [Slot(5, 2), FREE][1..] == [FREE] && Occupied([Slot(5, 2), FREE]) == 1;
    assert t4[1..] == [Slot(5, 2), FREE] && Occupied(t4) == 2;
  }

  // ------------------------------------------------------------ broadcasts

  predicate DistinctFds(t: seq<Slot>) {
    forall i, j | 0 <= i < j < |t| && t[i].fd != 0 :: t[i].fd != t[j].fd
  }

  predicate Holds(t: seq<Slot>, fd: int) { exists i | 0 <= i < |t| :: t[i].fd == fd }

  /** A broadcast sends exactly once to every client in the table but the sender. */
  lemma {:induction false} BroadcastOnce(t: seq<Slot>, sender: int, fd: int)
    requires DistinctFds(t)
    ensures Occ(Recipients(t, sender), fd) == if fd > 0 && fd != sender && Holds(t, fd) then 1 else 0
  {
    if t != [] {
      var head := if t[0].fd > 0 && t[0].fd != sender then [t[0].fd] else [];
      BroadcastOnce(t[1..], sender, fd);
      OccConcat(head, Recipients(t[1..], sender), fd);
      HoldsTail(t, fd);
    }
  }

  lemma {:induction false} HoldsTail(t: seq<Slot>, fd: int)
    requires t != []
    ensures Holds(t, fd) <==> t[0].fd == fd || Holds(t[1..], fd)
    ensures DistinctFds(t) && t[0].fd == fd != 0 ==> !Holds(t[1..], fd)
  {
    if Holds(t[1..], fd) {
      var i :| 0 <= i < |t| - 1 && t[1..][i].fd == fd;
      assert t[i + 1].fd == fd;
    }
    if Holds(t, fd) && t[0].fd != fd {
      var i :| 0 <= i < |t| && t[i].fd == fd;
      assert t[1..][i - 1].fd == fd;
    }
  }

  // ------------------------------------------------------------------ runs

  /** A client thread serves its descriptor with the slot it was handed, takes it out of the table, and closes it. */
  datatype Phase = Running(slot: int) | Leaving

  /** pending is the descriptor accepted but not yet given its thread. */
  datatype Chat = Chat(table: seq<Slot>, count: int, pending: Option<int>, threads: map<int, Phase>) {
    predicate Open(fd: int) { fd in threads || pending == Some(fd) }
  }

  datatype Step =
    | AcceptStep(fd: int, peer: nat)   // accept, then add_client under the mutex
    | SpawnStep                        // read client_count without the mutex, create the thread
    | RemoveStep(fd: int)              // remove_client at the end of handle_client
    | CloseStep(fd: int)

  predicate Enabled(c: Chat, s: Step) {
    match s
    case AcceptStep(fd, _) => c.pending.None? && fd > 0 && !c.Open(fd)
    case SpawnStep => c.pending.Some?
    case RemoveStep(fd) => fd in c.threads && c.threads[fd].Running?
    case CloseStep(fd) => fd in c.threads && c.threads[fd].Leaving?
  }

  function Apply(c: Chat, s: Step): Chat
    requires Enabled(c, s)
  {
    match s
    case AcceptStep(fd, peer) =>
      c.(table := Add(c.table, Slot(fd, peer)), pending := Some(fd),
         count := if Find(c.table, 0) < |c.table| then c.count + 1 else c.count)
    case SpawnStep =>
      c.(pending := None, threads := c.threads[c.pending.value := Running(c.count - 1)])
    case RemoveStep(fd) =>
      c.(table := Remove(c.table, fd), threads := c.threads[fd := Leaving],
         count := if Find(c.table, fd) < |c.table| then c.count - 1 else c.count)
    case CloseStep(fd) =>
      c.(threads := c.threads - {fd})
  }

  function Init(size: nat): Chat { Chat(seq(size, _ => FREE), 0, None, map[]) }

  predicate Legal(c: Chat, steps: seq<Step>)
    decreases |steps|
  {
    steps != [] ==> Enabled(c, steps[0]) && Legal(Apply(c, steps[0]), steps[1..])
  }

  function Run(c: Chat, steps: seq<Step>): Chat
    requires Legal(c, steps)
    decreases |steps|
  {
    if steps == [] then c else Run(Apply(c, steps[0]), steps[1..])
  }

  /** The descriptor is open, and its client has not been taken out of the table yet. */
  predicate Serving(c: Chat, fd: int) {
    c.pending == Some(fd) || (fd in c.threads && c.threads[fd].Running?)
  }

  predicate Inv(c: Chat) {
    && c.count == Occupied(c.table)
    && DistinctFds(c.table)
    && (forall i | 0 <= i < |c.table| && c.table[i].fd != 0 :: c.table[i].fd > 0 && Serving(c, c.table[i].fd))
    && (c.pending.Some? ==> c.pending.value > 0 && c.pending.value !in c.threads)
    && (forall fd | fd in c.threads :: fd > 0)
  }

  lemma {:induction false} AcceptKeepsInv(c: Chat, fd: int, peer: nat)
    requires Inv(c) && Enabled(c, AcceptStep(fd, peer))
    ensures Inv(Apply(c, AcceptStep(fd, peer)))
  {
    var k := Find(c.table, 0);
    if k < |c.table| { OccupiedUpdate(c.table, k, Slot(fd, peer)); }
  }

  lemma {:induction false} RemoveKeepsInv(c: Chat, fd: int)
    requires Inv(c) && Enabled(c, RemoveStep(fd))
    ensures Inv(Apply(c, RemoveStep(fd)))
  {
    var k := Find(c.table, fd);
    if k < |c.table| { OccupiedUpdate(c.table, k, FREE); }
  }

  lemma {:induction false} RunKeepsInv(c: Chat, steps: seq<Step>)
    requires Inv(c) && Legal(c, steps)
    ensures Inv(Run(c, steps))
    decreases |steps|
  {
    if steps != [] {
      match steps[0] {
        case AcceptStep(fd, peer) => AcceptKeepsInv(c, fd, peer);
        case RemoveStep(fd) => RemoveKeepsInv(c, fd);
        case SpawnStep =>
        case CloseStep(_) =>
      }
      RunKeepsInv(Apply(c, steps[0]), steps[1..]);
    }
  }

  lemma {:induction false} InitOccupied(size: nat)
    ensures Occupied(seq(size, _ => FREE)) == 0
  {
    NoneOccupied(seq(size, _ => FREE));
  }

  /**
   * Over every interleaving, client_count is the number of occupied slots, and
   * the descriptors in the table are positive, distinct and open.
   */
  lemma {:induction false} TableConsistent(size: nat, steps: seq<Step>)
    requires Legal(Init(size), steps)
    ensures var c := Run(Init(size), steps);
            && c.count == Occupied(c.table) && DistinctFds(c.table)
            && forall i | 0 <= i < |c.table| && c.table[i].fd != 0 :: c.table[i].fd > 0 && c.Open(c.table[i].fd)
  {
    InitOccupied(size);
    RunKeepsInv(Init(size), steps);
  }

  /** In every reachable state a broadcast sends once to every client in the table but the sender, and to no other. */
  lemma {:induction false} BroadcastReaches(size: nat, steps: seq<Step>, sender: int, fd: int)
    requires Legal(Init(size), steps)
    ensures var c := Run(Init(size), steps);
            && Occ(Recipients(c.table, sender), fd) == (if fd != 0 && fd != sender && Holds(c.table, fd) then 1 else 0)
            && (fd in Recipients(c.table, sender) ==> c.Open(fd))
  {
    TableConsistent(size, steps);
    BroadcastOnce(Run(Init(size), steps).table, sender, fd);
    OccMember(Recipients(Run(Init(size), steps).table, sender), fd);
  }

  lemma {:induction false} OccMember(s: seq<int>, x: int)
    ensures x in s <==> Occ(s, x) > 0
  {
    if s != [] {
      OccMember(s[1..], x);
      assert s == [s[0]] + s[1..];
    }
  }

  // ------------------------------------------------------------- departures

  /** In every reachable state, a client that has been taken out is in no slot. */
  lemma {:induction false} LeavingIsOut(size: nat, steps: seq<Step>, fd: int)
    requires Legal(Init(size), steps)
    requires fd in Run(Init(size), steps).threads && Run(Init(size), steps).threads[fd].Leaving?
    ensures !Holds(Run(Init(size), steps).table, fd) && fd > 0
  {
    InitOccupied(size);
    RunKeepsInv(Init(size), steps);
  }

  /** A client leaves in two steps: first its slot is free, then its descriptor, which may be accepted again. */
  lemma {:induction false} DepartureFrees(size: nat, steps: seq<Step>, fd: int, peer: nat)
    requires Legal(Init(size), steps) && Enabled(Run(Init(size), steps), RemoveStep(fd))
    ensures var c := Run(Init(size), steps);
            var out := Apply(c, RemoveStep(fd));
            var gone := Apply(out, CloseStep(fd));
            && !Holds(out.table, fd) && out.Open(fd)
            && gone.table == out.table && !gone.Open(fd)
            && (gone.pending.None? ==> Enabled(gone, AcceptStep(fd, peer)))
            && (forall other | other != fd :: gone.Open(other) <==> c.Open(other))
            && (forall k | 0 <= k < |c.table| && c.table[k].fd != fd :: out.table[k] == c.table[k])
  {
    InitOccupied(size);
    RunKeepsInv(Init(size), steps);
    RemoveKeepsInv(Run(Init(size), steps), fd);
  }

  // ------------------------------------------------------- the slot handed

  function Free(t: seq<Slot>): int { |t| - Occupied(t) }

  lemma {:induction false} OccupiedAround(t: seq<Slot>, j: nat)
    requires j < |t|
    ensures Occupied(t) == Occupied(t[..j]) + (if t[j].fd != 0 then 1 else 0) + Occupied(t[j + 1..])
  {
    if j > 0 {
      OccupiedAround(t[1..], j - 1);
      assert t[1..][..j - 1] == t[..j][1..] && t[1..][j..] == t[j + 1..];
    }
  }

  lemma {:induction false} OccupiedAtMost(t: seq<Slot>)
    ensures Occupied(t) <= |t|
  {
    if t != [] { OccupiedAtMost(t[1..]); }
  }

  /** The slot that the next SpawnStep hands out is the one that holds descriptor fd. */
  predicate HandsOwnSlot(c: Chat, fd: int)
    requires Enabled(c, SpawnStep)
  {
    var slot := Apply(c, SpawnStep).threads[c.pending.value].slot;
    0 <= slot < |c.table| && c.table[slot].fd == fd
  }

  /** As many clients sit above the slot of fd as there are holes below it. */
  predicate Balanced(t: seq<Slot>, fd: int) {
    var j := Find(t, fd);
    j < |t| && Occupied(t[j + 1..]) == Free(t[..j])
  }

  lemma {:induction false} HandedIff(c: Chat, fd: int)
    requires Inv(c) && c.pending == Some(fd)
    ensures HandsOwnSlot(c, fd) <==> Balanced(c.table, fd)
    ensures 0 <= c.count - 1 < |c.table| <==> exists k | 0 <= k < |c.table| :: c.table[k].fd != 0
  {
    var j := Find(c.table, fd);
    OccupiedAtMost(c.table);
    NoneOccupied(c.table);
    if j < |c.table| { OccupiedAround(c.table, j); }
  }

  /**
   * client_count is read without the mutex, so clients may leave between the
   * accept and the read. In every reachable state with a client waiting for its
   * thread, the thread is handed the client's own slot if and only if the client
   * is in the table with as many clients above its slot as holes below it; and
   * the index handed is one of the table if and only if some slot is occupied.
   */
  lemma {:induction false} HandedSlot(size: nat, steps: seq<Step>, fd: int)
    requires Legal(Init(size), steps) && Run(Init(size), steps).pending == Some(fd)
    ensures var c := Run(Init(size), steps);
            && (HandsOwnSlot(c, fd) <==> Balanced(c.table, fd))
            && (0 <= Apply(c, SpawnStep).threads[fd].slot < |c.table| <==>
                  exists k | 0 <= k < |c.table| :: c.table[k].fd != 0)
  {
    InitOccupied(size);
    RunKeepsInv(Init(size), steps);
    HandedIff(Run(Init(size), steps), fd);
  }

  /** When nobody leaves in between, that is if and only if the occupied slots formed a prefix with room behind it. */
  lemma {:induction false} HandedAtOnce(size: nat, steps: seq<Step>, fd: int, peer: nat)
    requires Legal(Init(size), steps) && Enabled(Run(Init(size), steps), AcceptStep(fd, peer))
    ensures var c := Run(Init(size), steps);
            HandsOwnSlot(Apply(c, AcceptStep(fd, peer)), fd) <==> RoomyPrefix(c.table)
  {
    var c := Run(Init(size), steps);
    InitOccupied(size);
    RunKeepsInv(Init(size), steps);
    AcceptKeepsInv(c, fd, peer);
    HandedIff(Apply(c, AcceptStep(fd, peer)), fd);
    BalancedAfterAdd(c.table, Slot(fd, peer));
  }

  lemma {:induction false} BalancedAfterAdd(t: seq<Slot>, x: Slot)
    requires x.fd != 0 && !Holds(t, x.fd)
    ensures Balanced(Add(t, x), x.fd) <==> RoomyPrefix(t)
  {
    var k := Find(t, 0);
    if k < |t| {
      var t' := t[k := x];
      assert t'[k].fd == x.fd && forall i | 0 <= i < k :: t'[i].fd != x.fd;
      assert Find(t', x.fd) == k;
      OccupiedFromFirstFree(t[..k]);
      assert Find(t[..k], 0) == k;
      assert t'[..k] == t[..k] && t'[k + 1..] == t[k + 1..];
      assert t[k..][1..] == t[k + 1..];
      RoomyIff(t);
    }
  }

  /** A run through the given states. */
  lemma {:induction false} Trace(cs: seq<Chat>, steps: seq<Step>)
    requires |cs| == |steps| + 1
    requires forall k | 0 <= k < |steps| :: Enabled(cs[k], steps[k]) && Apply(cs[k], steps[k]) == cs[k + 1]
    ensures Legal(cs[0], steps) && Run(cs[0], steps) == cs[|steps|]
    decreases |steps|
  {
    if steps != [] {
      var cs', steps' := cs[1..], steps[1..];
      forall k | 0 <= k < |steps'| ensures Enabled(cs'[k], steps'[k]) && Apply(cs'[k], steps'[k]) == cs'[k + 1] {
        assert cs'[k] == cs[k + 1] && steps'[k] == steps[k + 1];
      }
      Trace(cs', steps');
    }
  }

  /** Two clients come, and the first leaves before the second is given its thread. */
  function Leaver(): seq<Step> { [AcceptStep(4, 1), SpawnStep, AcceptStep(5, 2), RemoveStep(4), SpawnStep] }

  /**
   * The prefix condition alone is not enough: it holds before the second accept,
   * and yet the second client's thread is handed a free slot.
   */
  lemma {:induction false} LeaverShiftsIndex()
    ensures Legal(Init(3), Leaver()) && RoomyPrefix([Slot(4, 1), FREE, FREE])
    ensures Run(Init(3), Leaver()) == Chat([FREE, Slot(5, 2), FREE], 1, None, map[4 := Leaving, 5 := Running(0)])
  {
    var t0, t1, t2 := [FREE, FREE, FREE], [Slot(4, 1), FREE, FREE], [Slot(4, 1), Slot(5, 2), FREE];
    var t3 := [FREE, Slot(5, 2), FREE];
    assert Init(3).table == t0;
    assert Add(t0, Slot(4, 1)) == t1;
    FindNext(t1, 0);
    assert t1[1..] == [FREE, FREE] && Add(t1, Slot(5, 2)) == t2;
    assert Remove(t2, 4) == t3;
    var up := map[4 := Running(0)];
    Trace([Init(3), Chat(t1, 1, Some(4), map[]), Chat(t1, 1, None, up), Chat(t2, 2, Some(5), up),
           Chat(t3, 1, Some(5), map[4 := Leaving]), Chat(t3, 1, None, map[4 := Leaving, 5 := Running(0)])], Leaver());
  }

  lemma {:induction false} FindNext(t: seq<Slot>, fd: int)
    requires t != [] && t[0].fd != fd
    ensures Find(t, fd) == 1 + Find(t[1..], fd)
  {
  }

  /** With a table of one, the second client finds no slot, and the index handed to its thread is -1. */
  lemma {:induction false} LeaverEmptiesTable()
    ensures Legal(Init(1), Leaver())
    ensures Run(Init(1), Leaver()) == Chat([FREE], 0, None, map[4 := Leaving, 5 := Running(-1)])
  {
    var t0, t1 := [FREE], [Slot(4, 1)];
    assert Init(1).table == t0;
    assert Add(t0, Slot(4, 1)) == t1;
    FindNext(t1, 0);
    assert Add(t1, Slot(5, 2)) == t1;
    assert Remove(t1, 4) == t0;
    var up := map[4 := Running(0)];
    Trace([Init(1), Chat(t1, 1, Some(4), map[]), Chat(t1, 1, None, up), Chat(t1, 1, Some(5), up),
           Chat(t0, 0, Some(5), map[4 := Leaving]), Chat(t0, 0, None, map[4 := Leaving, 5 := Running(-1)])], Leaver());
  }

  // ------------------------------------------------------------- the table

  class Server {
    const clients: array<Slot>
    var clientCount: int

    constructor (size: nat)
      ensures clients.Length == size && fresh(clients) && clientCount == 0
      ensures clients[..] == Init(size).table
    {
      clients := new Slot[size](_ => FREE);
      clientCount := 0;
    }

    /** add_client: the first free slot, or nothing when the table is full. */
    method AddClient(fd: int, peer: nat)
      modifies this, clients
      ensures clients[..] == Add(old(clients[..]), Slot(fd, peer))
      ensures clientCount == old(clientCount) + if Find(old(clients[..]), 0) < clients.Length then 1 else 0
    {
      var i := IndexOf(0);
      if i < clients.Length {
        clients[i] := Slot(fd, peer);
        clientCount := clientCount + 1;
      }
    }

    /** remove_client */
    method RemoveClient(fd: int)
      modifies this, clients
      ensures clients[..] == Remove(old(clients[..]), fd)
      ensures clientCount == old(clientCount) - if Find(old(clients[..]), fd) < clients.Length then 1 else 0
    {
      var i := IndexOf(fd);
      if i < clients.Length {
        clients[i] := FREE;
        clientCount := clientCount - 1;
      }
    }

    /** The scanning loop both share. */
    method IndexOf(fd: int) returns (i: nat)
      ensures i == Find(clients[..], fd)
    {
      i := 0;
      while i < clients.Length && clients[i].fd != fd
        invariant i <= clients.Length && forall k | 0 <= k < i :: clients[k].fd != fd
      {
        i := i + 1;
      }
    }

    /** broadcast_message: the descriptors sent to, in order. */
    method Broadcast(sender: int) returns (sent: seq<int>)
      ensures sent == Recipients(clients[..], sender)
    {
      sent := [];
      var i := 0;
      while i < clients.Length
        invariant i <= clients.Length
        invariant sent + Recipients(clients[i..], sender) == Recipients(clients[..], sender)
      {
        assert clients[i..][0] == clients[i] && clients[i..][1..] == clients[i + 1..];
        SendNext(sent, clients[i..], sender);
        if clients[i].fd > 0 && clients[i].fd != sender {
          sent := sent + [clients[i].fd];
        }
        i := i + 1;
      }
    }
  }

  lemma {:induction false} SendNext(sent: seq<int>, t: seq<Slot>, sender: int)
    requires t != []
    ensures sent + Recipients(t, sender)
            == (if t[0].fd > 0 && t[0].fd != sender then sent + [t[0].fd] else sent) + Recipients(t[1..], sender)
  {
  }
}
