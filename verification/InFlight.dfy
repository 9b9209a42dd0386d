/**
 The block download bookkeeping of the peer logic (src/net_processing.cpp): which peer each
 requested block is in flight from, the per-peer queues, and the counters derived from them.
 */
module InFlight {
  import opened Basics

  const MAX_BLOCKS_IN_TRANSIT_PER_PEER: nat := 16
  const MAX_OUTBOUND_PEERS_TO_PROTECT: nat := 4

  type NodeId = nat
  type Hash = nat

  /** A queue entry; `slot` names its place in the linked list, as an iterator does. */
  datatype Queued = Queued(slot: nat, hash: Hash, validated: bool, partial: bool)

  datatype Place = Place(node: NodeId, slot: nat)

  datatype Node = Node(
    queue: seq<Queued>,
    nBlocks: int,
    nValid: int,
    preferred: bool,
    protect: bool,
    downloadingSince: int,
    stallingSince: int)

  datatype State = State(
    nodes: map<NodeId, Node>,
    inFlight: map<Hash, Place>,
    nPreferred: int,
    nValidated: int,
    nProtected: int,
    nextSlot: nat)

  const FreshNode := Node([], 0, 0, false, false, 0, 0)
  const Empty := State(map[], map[], 0, 0, 0, 0)

  // ---------------------------------------------------------------- queues

  function CountValid(q: seq<Queued>): nat {
    if q == [] then 0 else CountValid(q[..|q| - 1]) + Count(q[|q| - 1].validated)
  }

  predicate SlotAt(q: seq<Queued>, i: int, slot: nat) {
    0 <= i < |q| && q[i].slot == slot
  }

  ghost predicate Distinct(q: seq<Queued>) {
    forall i, j :: 0 <= i < j < |q| ==> q[i].slot != q[j].slot
  }

  /** list::erase at an iterator. */
  function Erase(q: seq<Queued>, slot: nat): seq<Queued> {
    if q == [] then []
    else if q[|q| - 1].slot == slot then q[..|q| - 1]
    else Erase(q[..|q| - 1], slot) + [q[|q| - 1]]
  }

  ghost predicate HasSlot(q: seq<Queued>, slot: nat) {
    exists i :: SlotAt(q, i, slot)
  }

  lemma HasSlotBefore(q: seq<Queued>, slot: nat)
    requires HasSlot(q, slot) && q[|q| - 1].slot != slot
    ensures HasSlot(q[..|q| - 1], slot)
  {
    var i :| SlotAt(q, i, slot);
    assert SlotAt(q[..|q| - 1], i, slot);
  }

  /** The entry an iterator points at. */
  function Lookup(q: seq<Queued>, slot: nat): (e: Queued)
    requires HasSlot(q, slot)
    ensures e in q && e.slot == slot
  {
    if q[|q| - 1].slot == slot then q[|q| - 1]
    else
      HasSlotBefore(q, slot);
      Lookup(q[..|q| - 1], slot)
  }

  lemma {:induction false} EraseIs(q: seq<Queued>, slot: nat, i: nat)
    requires SlotAt(q, i, slot) && Distinct(q)
    ensures Erase(q, slot) == q[..i] + q[i + 1..]
    ensures CountValid(Erase(q, slot)) == CountValid(q) - Count(q[i].validated)
  {
    hide CountValid, Distinct;
    var n := |q| - 1;
    assert q == q[..n] + [q[n]];
    CountValidSnoc(q[..n], q[n]);
    if i < n {
      DistinctPrefix(q, n, i, slot);
      EraseIs(q[..n], slot, i);
      WithoutBeforeLast(q, i);
      CountValidSnoc(Erase(q[..n], slot), q[n]);
    } else {
      assert q[i + 1..] == [] && q[..i] + [] == q[..i];
    }
  }

  lemma CountValidSnoc(q: seq<Queued>, e: Queued)
    ensures CountValid(q + [e]) == CountValid(q) + Count(e.validated)
  {
    assert (q + [e])[..|q|] == q;
  }

  lemma DistinctPrefix(q: seq<Queued>, n: nat, i: nat, slot: nat)
    requires Distinct(q) && i < n == |q| - 1 && SlotAt(q, i, slot)
    ensures Distinct(q[..n]) && SlotAt(q[..n], i, slot) && q[n].slot != slot && q[..n][i] == q[i]
  {}

  lemma WithoutBeforeLast(q: seq<Queued>, i: nat)
    requires i < |q| - 1
    ensures q[..i] + q[i + 1..] == q[..|q| - 1][..i] + q[..|q| - 1][i + 1..] + [q[|q| - 1]]
  {
    var n := |q| - 1;
    assert q[..n][..i] == q[..i] && q[..n][i + 1..] == q[i + 1..n];
    assert q[i + 1..] == q[i + 1..n] + [q[n]];
  }

  lemma {:induction false} ValidEntryCounts(q: seq<Queued>, i: nat)
    requires i < |q| && q[i].validated
    ensures CountValid(q) > 0
  {
    if i < |q| - 1 { ValidEntryCounts(q[..|q| - 1], i); }
  }

  lemma LookupIs(q: seq<Queued>, slot: nat, i: nat)
    requires SlotAt(q, i, slot) && Distinct(q)
    ensures Lookup(q, slot) == q[i]
  {
    var e := Lookup(q, slot);
    var j :| 0 <= j < |q| && q[j] == e;
  }

  // ---------------------------------------------------------------- the invariant

  /** Every entry of a peer's queue is where the global map says it is. */
  ghost predicate Listed(inFlight: map<Hash, Place>, id: NodeId, q: seq<Queued>) {
    forall i {:trigger q[i]} :: 0 <= i < |q| ==> InFlightAt(inFlight, q[i].hash, Place(id, q[i].slot))
  }

  predicate InFlightAt(inFlight: map<Hash, Place>, h: Hash, p: Place) {
    h in inFlight && inFlight[h] == p
  }

  ghost predicate Holds(q: seq<Queued>, h: Hash, slot: nat) {
    exists i :: SlotAt(q, i, slot) && q[i].hash == h
  }

  /** What the global map says is where the queues have it. */
  ghost predicate Placed(nodes: map<NodeId, Node>, h: Hash, p: Place) {
    p.node in nodes && Holds(nodes[p.node].queue, h, p.slot)
  }

  ghost predicate NodeOk(n: Node, nextSlot: nat) {
    && n.nBlocks == |n.queue|
    && n.nValid == CountValid(n.queue)
    && Distinct(n.queue)
    && forall i {:trigger n.queue[i]} :: 0 <= i < |n.queue| ==> n.queue[i].slot < nextSlot
  }

  ghost function ValidPeers(nodes: map<NodeId, Node>): set<NodeId> {
    set id | id in nodes && nodes[id].nValid != 0
  }

  ghost function PreferredPeers(nodes: map<NodeId, Node>): set<NodeId> {
    set id | id in nodes && nodes[id].preferred
  }

  ghost function ProtectedPeers(nodes: map<NodeId, Node>): set<NodeId> {
    set id | id in nodes && nodes[id].protect
  }

  ghost predicate CountersOk(st: State) {
    && st.nValidated == |ValidPeers(st.nodes)|
    && st.nPreferred == |PreferredPeers(st.nodes)|
    && st.nProtected == |ProtectedPeers(st.nodes)| <= MAX_OUTBOUND_PEERS_TO_PROTECT
  }

  ghost predicate QueuesOk(st: State) {
    forall id :: id in st.nodes ==> NodeOk(st.nodes[id], st.nextSlot) && Listed(st.inFlight, id, st.nodes[id].queue)
  }

  ghost predicate MapOk(st: State) {
    forall h :: h in st.inFlight ==> Placed(st.nodes, h, st.inFlight[h])
  }

  /**
   The global map is exactly the disjoint union of the per-peer queues, and every counter
   agrees with the queues.
   */
  ghost predicate Inv(st: State) {
    QueuesOk(st) && MapOk(st) && CountersOk(st)
  }

  ghost predicate WithinLimit(st: State) {
    forall id :: id in st.nodes ==> |st.nodes[id].queue| <= MAX_BLOCKS_IN_TRANSIT_PER_PEER
  }

  /** A block is in flight from at most one peer, and only once. */
  lemma QueuesAreDisjoint(st: State, a: NodeId, i: nat, b: NodeId, j: nat)
    requires Inv(st) && a in st.nodes && b in st.nodes
    requires i < |st.nodes[a].queue| && j < |st.nodes[b].queue|
    requires st.nodes[a].queue[i].hash == st.nodes[b].queue[j].hash
    ensures a == b && i == j
  {
    hide CountersOk, MapOk;
    var p, q := st.nodes[a].queue[i], st.nodes[b].queue[j];
    assert InFlightAt(st.inFlight, p.hash, Place(a, p.slot));
    assert InFlightAt(st.inFlight, q.hash, Place(b, q.slot));
  }

  predicate SamePeers(st: State, st': State) {
    st.nodes.Keys == st'.nodes.Keys
  }

  // ---------------------------------------------------------------- counters under update

  /** Replacing one peer's record changes each counted set by that peer at most. */
  lemma SetsUpdate(nodes: map<NodeId, Node>, id: NodeId, n: Node)
    requires id in nodes
    ensures |ValidPeers(nodes[id := n])| == |ValidPeers(nodes)| - Count(nodes[id].nValid != 0) + Count(n.nValid != 0)
    ensures |PreferredPeers(nodes[id := n])| == |PreferredPeers(nodes)| - Count(nodes[id].preferred) + Count(n.preferred)
    ensures |ProtectedPeers(nodes[id := n])| == |ProtectedPeers(nodes)| - Count(nodes[id].protect) + Count(n.protect)
  {
    var nodes' := nodes[id := n];
    SetUpdate(ValidPeers(nodes), ValidPeers(nodes'), id);
    SetUpdate(PreferredPeers(nodes), PreferredPeers(nodes'), id);
    SetUpdate(ProtectedPeers(nodes), ProtectedPeers(nodes'), id);
  }

  lemma SetUpdate(s: set<NodeId>, s': set<NodeId>, id: NodeId)
    requires forall x :: x != id ==> (x in s <==> x in s')
    ensures |s'| == |s| - Count(id in s) + Count(id in s')
  {
    assert s - {id} == s' - {id};
    if id in s { assert s == (s - {id}) + {id}; } else { assert s == s - {id}; }
    if id in s' { assert s' == (s' - {id}) + {id}; } else { assert s' == s' - {id}; }
  }

  lemma SetsRemove(nodes: map<NodeId, Node>, id: NodeId)
    requires id in nodes
    ensures |ValidPeers(nodes - {id})| == |ValidPeers(nodes)| - Count(nodes[id].nValid != 0)
    ensures |PreferredPeers(nodes - {id})| == |PreferredPeers(nodes)| - Count(nodes[id].preferred)
    ensures |ProtectedPeers(nodes - {id})| == |ProtectedPeers(nodes)| - Count(nodes[id].protect)
  {
    SetUpdate(ValidPeers(nodes), ValidPeers(nodes - {id}), id);
    SetUpdate(PreferredPeers(nodes), PreferredPeers(nodes - {id}), id);
    SetUpdate(ProtectedPeers(nodes), ProtectedPeers(nodes - {id}), id);
  }

  lemma SetsAdd(nodes: map<NodeId, Node>, id: NodeId)
    requires id !in nodes
    ensures ValidPeers(nodes[id := FreshNode]) == ValidPeers(nodes)
    ensures PreferredPeers(nodes[id := FreshNode]) == PreferredPeers(nodes)
    ensures ProtectedPeers(nodes[id := FreshNode]) == ProtectedPeers(nodes)
  {
  }

  // ---------------------------------------------------------------- operations

  /** The peer's record after one of its blocks arrived, was dropped or moved to another peer. */
  function NodeReceived(n: Node, slot: nat, now: int): Node
    requires HasSlot(n.queue, slot)
  {
    var e := Lookup(n.queue, slot);
    n.(queue := Erase(n.queue, slot),
       nBlocks := n.nBlocks - 1,
       nValid := n.nValid - Count(e.validated),
       downloadingSince := if n.queue[0].slot == slot then Max(n.downloadingSince, now) else n.downloadingSince,
       stallingSince := 0)
  }

  ghost predicate CanReceive(st: State, h: Hash) {
    h in st.inFlight ==> Placed(st.nodes, h, st.inFlight[h])
  }

  ghost function Received(st: State, h: Hash, now: int): State
    requires CanReceive(st, h)
  {
    if h !in st.inFlight then st
    else
      var p := st.inFlight[h];
      var n := st.nodes[p.node];
      var n' := NodeReceived(n, p.slot, now);
      st.(nodes := st.nodes[p.node := n'],
          inFlight := st.inFlight - {h},
          nValidated := st.nValidated - Count(n'.nValid == 0 && Lookup(n.queue, p.slot).validated))
  }

  function NodeQueued(n: Node, e: Queued, now: int): Node {
    n.(queue := n.queue + [e],
       nBlocks := n.nBlocks + 1,
       nValid := n.nValid + Count(e.validated),
       downloadingSince := if n.nBlocks + 1 == 1 then now else n.downloadingSince)
  }

  /** The state after the block, in flight from nobody, is queued for a peer. */
  function Queue(st: State, id: NodeId, e: Queued, now: int): State
    requires id in st.nodes
  {
    var n' := NodeQueued(st.nodes[id], e, now);
    st.(nodes := st.nodes[id := n'],
        inFlight := st.inFlight[e.hash := Place(id, e.slot)],
        nValidated := st.nValidated + Count(n'.nValid == 1 && e.validated),
        nextSlot := st.nextSlot + 1)
  }

  ghost function Requested(st: State, id: NodeId, h: Hash, validated: bool, partial: bool, now: int): State
    requires id in st.nodes && CanReceive(st, h)
  {
    if h in st.inFlight && st.inFlight[h].node == id then st
    else Queue(Received(st, h, now), id, Queued(st.nextSlot, h, validated, partial), now)
  }

  /** The queue with a compact block under construction for one entry. */
  function Prepared(q: seq<Queued>, slot: nat): (r: seq<Queued>)
    ensures |r| == |q|
  {
    seq(|q|, i requires 0 <= i < |q| => if q[i].slot == slot then q[i].(partial := true) else q[i])
  }

  function Compacted(st: State, h: Hash): State
    requires h in st.inFlight && st.inFlight[h].node in st.nodes
  {
    var p := st.inFlight[h];
    var n := st.nodes[p.node];
    st.(nodes := st.nodes[p.node := n.(queue := Prepared(n.queue, p.slot))])
  }

  function Initialized(st: State, id: NodeId): State {
    if id in st.nodes then st else st.(nodes := st.nodes[id := FreshNode])
  }

  function HashesOf(q: seq<Queued>): set<Hash> {
    set i | 0 <= i < |q| :: q[i].hash
  }

  function Finalized(st: State, id: NodeId): State
    requires id in st.nodes
  {
    var n := st.nodes[id];
    st.(nodes := st.nodes - {id},
        inFlight := st.inFlight - HashesOf(n.queue),
        nPreferred := st.nPreferred - Count(n.preferred),
        nValidated := st.nValidated - Count(n.nValid != 0),
        nProtected := st.nProtected - Count(n.protect))
  }

  function Preferred(st: State, id: NodeId, on: bool): State
    requires id in st.nodes
  {
    var n := st.nodes[id];
    st.(nodes := st.nodes[id := n.(preferred := on)],
        nPreferred := st.nPreferred - Count(n.preferred) + Count(on))
  }

  function Protected(st: State, id: NodeId): State
    requires id in st.nodes
  {
    var n := st.nodes[id];
    if st.nProtected < MAX_OUTBOUND_PEERS_TO_PROTECT && !n.protect then
      st.(nodes := st.nodes[id := n.(protect := true)], nProtected := st.nProtected + 1)
    else st
  }

  // ---------------------------------------------------------------- each operation keeps the invariant

  lemma EmptyKeeps()
    ensures Inv(Empty) && WithinLimit(Empty)
  {
    assert ValidPeers(map[]) == {} && PreferredPeers(map[]) == {} && ProtectedPeers(map[]) == {};
  }

  lemma CanAlwaysReceive(st: State, h: Hash)
    requires Inv(st)
    ensures CanReceive(st, h)
  {
    hide QueuesOk, CountersOk;
  }

  lemma NodeReceivedKeeps(inFlight: map<Hash, Place>, id: NodeId, n: Node, h: Hash, slot: nat, nextSlot: nat, now: int)
    requires NodeOk(n, nextSlot) && Listed(inFlight, id, n.queue)
    requires h in inFlight && inFlight[h] == Place(id, slot) && Holds(n.queue, h, slot)
    ensures var n' := NodeReceived(n, slot, now);
            && NodeOk(n', nextSlot) && Listed(inFlight - {h}, id, n'.queue)
            && |n'.queue| == |n.queue| - 1
            && Count(n.nValid != 0) - Count(n'.nValid == 0 && Lookup(n.queue, slot).validated) == Count(n'.nValid != 0)
            && forall g, s :: Holds(n.queue, g, s) && g != h ==> Holds(n'.queue, g, s)
  {
    hide CountValid, Erase, Lookup, Holds;
    var i := HeldAt(n.queue, h, slot);
    var q, q' := n.queue, Erase(n.queue, slot);
    EraseIs(q, slot, i);
    LookupIs(q, slot, i);
    if q[i].validated { ValidEntryCounts(q, i); }
    EraseListed(inFlight, id, q, h, slot, i);
    forall g, s | Holds(q, g, s) && g != h
      ensures Holds(q', g, s)
    {
      EraseHolds(q, i, g, s);
    }
  }

  lemma HeldAt(q: seq<Queued>, h: Hash, slot: nat) returns (i: nat)
    requires Holds(q, h, slot)
    ensures SlotAt(q, i, slot) && q[i].hash == h
  {
    i :| SlotAt(q, i, slot) && q[i].hash == h;
  }

  lemma EraseHolds(q: seq<Queued>, i: nat, g: Hash, s: nat)
    requires i < |q| && Holds(q, g, s) && q[i].hash != g
    ensures Holds(q[..i] + q[i + 1..], g, s)
  {
    var k :| SlotAt(q, k, s) && q[k].hash == g;
    assert SlotAt(q[..i] + q[i + 1..], if k < i then k else k - 1, s);
  }

  lemma EraseListed(inFlight: map<Hash, Place>, id: NodeId, q: seq<Queued>, h: Hash, slot: nat, i: nat)
    requires i < |q| && q[i].slot == slot && q[i].hash == h && Distinct(q) && Listed(inFlight, id, q)
    ensures var q' := q[..i] + q[i + 1..];
            Distinct(q') && Listed(inFlight - {h}, id, q')
  {
    var q' := q[..i] + q[i + 1..];
    forall j {:trigger q'[j]} | 0 <= j < |q'|
      ensures InFlightAt(inFlight - {h}, q'[j].hash, Place(id, q'[j].slot))
    {
      var k := if j < i then j else j + 1;
      assert q'[j] == q[k];
      assert InFlightAt(inFlight, q[k].hash, Place(id, q[k].slot)) && InFlightAt(inFlight, q[i].hash, Place(id, q[i].slot));
    }
  }

  /** An arrival removes the block from its peer's queue and from the map, and settles the counters. */
  lemma ReceivedKeeps(st: State, h: Hash, now: int)
    requires Inv(st)
    ensures CanReceive(st, h)
    ensures var st' := Received(st, h, now);
            && Inv(st') && h !in st'.inFlight && st'.inFlight == st.inFlight - {h}
            && st'.nextSlot == st.nextSlot && SamePeers(st, st')
            && (forall id :: id in st.nodes ==> |st'.nodes[id].queue| <= |st.nodes[id].queue|)
  {
    hide QueuesOk, MapOk, CountersOk, NodeReceived, Holds;
    CanAlwaysReceive(st, h);
    if h in st.inFlight {
      ReceivedCounters(st, h, now);
      ReceivedQueues(st, h, now);
      ReceivedMap(st, h, now);
    } else {
      assert st.inFlight - {h} == st.inFlight;
    }
  }

  lemma ReceivedCounters(st: State, h: Hash, now: int)
    requires Inv(st) && h in st.inFlight && CanReceive(st, h)
    ensures CountersOk(Received(st, h, now))
    ensures forall id :: id in st.nodes ==> |Received(st, h, now).nodes[id].queue| <= |st.nodes[id].queue|
  {
    hide MapOk, QueuesOk, NodeReceived, NodeOk, Listed, Holds, ValidPeers, PreferredPeers, ProtectedPeers;
    var p := st.inFlight[h];
    var n, n' := st.nodes[p.node], Received(st, h, now).nodes[p.node];
    QueuesAt(st, p.node);
    NodeReceivedKeeps(st.inFlight, p.node, n, h, p.slot, st.nextSlot, now);
    assert n'.preferred == n.preferred && n'.protect == n.protect by { NodeReceivedFlags(n, h, p.slot, now); }
    SetsUpdate(st.nodes, p.node, n');
  }

  lemma NodeReceivedFlags(n: Node, h: Hash, slot: nat, now: int)
    requires Holds(n.queue, h, slot)
    ensures HasSlot(n.queue, slot)
    ensures var n' := NodeReceived(n, slot, now); n'.preferred == n.preferred && n'.protect == n.protect
  {
  }

  lemma ReceivedQueues(st: State, h: Hash, now: int)
    requires Inv(st) && h in st.inFlight && CanReceive(st, h)
    ensures QueuesOk(Received(st, h, now))
  {
    hide CountersOk, MapOk, NodeReceived, NodeOk;
    var p, st' := st.inFlight[h], Received(st, h, now);
    NodeReceivedKeeps(st.inFlight, p.node, st.nodes[p.node], h, p.slot, st.nextSlot, now);
    forall id | id in st'.nodes
      ensures NodeOk(st'.nodes[id], st'.nextSlot) && Listed(st'.inFlight, id, st'.nodes[id].queue)
    {
      if id != p.node {
        OtherListed(st.inFlight, id, st.nodes[id].queue, h);
      }
    }
  }

  lemma OtherListed(inFlight: map<Hash, Place>, id: NodeId, q: seq<Queued>, h: Hash)
    requires Listed(inFlight, id, q) && h in inFlight && inFlight[h].node != id
    ensures Listed(inFlight - {h}, id, q)
  {
  }

  lemma ReceivedMap(st: State, h: Hash, now: int)
    requires Inv(st) && h in st.inFlight && CanReceive(st, h)
    ensures MapOk(Received(st, h, now))
  {
    hide CountersOk, Holds, NodeReceived, NodeOk, Listed;
    var p, st' := st.inFlight[h], Received(st, h, now);
    NodeReceivedKeeps(st.inFlight, p.node, st.nodes[p.node], h, p.slot, st.nextSlot, now);
    forall g | g in st'.inFlight
      ensures Placed(st'.nodes, g, st'.inFlight[g])
    {
      assert Placed(st.nodes, g, st.inFlight[g]);
    }
  }

  lemma NodeQueuedKeeps(inFlight: map<Hash, Place>, id: NodeId, n: Node, e: Queued, now: int)
    requires NodeOk(n, e.slot) && Listed(inFlight, id, n.queue) && e.hash !in inFlight
    ensures var n' := NodeQueued(n, e, now);
            && NodeOk(n', e.slot + 1) && Listed(inFlight[e.hash := Place(id, e.slot)], id, n'.queue)
            && |n'.queue| == |n.queue| + 1
            && Count(n.nValid != 0) + Count(n'.nValid == 1 && e.validated) == Count(n'.nValid != 0)
            && Holds(n'.queue, e.hash, e.slot)
            && forall g, s :: Holds(n.queue, g, s) ==> Holds(n'.queue, g, s)
  {
    var q' := n.queue + [e];
    assert q'[..|q'| - 1] == n.queue;
    assert SlotAt(q', |n.queue|, e.slot);
    forall g, s | Holds(n.queue, g, s)
      ensures Holds(q', g, s)
    {
      var k :| SlotAt(n.queue, k, s) && n.queue[k].hash == g;
      assert SlotAt(q', k, s);
    }
  }

  lemma QueueQueues(st: State, id: NodeId, e: Queued, now: int)
    requires QueuesOk(st) && id in st.nodes && e.hash !in st.inFlight && e.slot == st.nextSlot
    ensures QueuesOk(Queue(st, id, e, now))
  {
    hide NodeQueued;
    var st' := Queue(st, id, e, now);
    NodeQueuedKeeps(st.inFlight, id, st.nodes[id], e, now);
    forall k | k in st'.nodes
      ensures NodeOk(st'.nodes[k], st'.nextSlot) && Listed(st'.inFlight, k, st'.nodes[k].queue)
    {
      if k != id { assert NodeOk(st.nodes[k], st.nextSlot) && Listed(st.inFlight, k, st.nodes[k].queue); }
    }
  }

  lemma QueueMap(st: State, id: NodeId, e: Queued, now: int)
    requires Inv(st) && id in st.nodes && e.hash !in st.inFlight && e.slot == st.nextSlot
    ensures MapOk(Queue(st, id, e, now))
  {
    hide CountersOk, Holds, NodeQueued, NodeOk, Listed;
    var st' := Queue(st, id, e, now);
    NodeQueuedKeeps(st.inFlight, id, st.nodes[id], e, now);
    forall g | g in st'.inFlight
      ensures Placed(st'.nodes, g, st'.inFlight[g])
    {
      if g != e.hash { assert Placed(st.nodes, g, st.inFlight[g]); }
    }
  }

  /** A request puts the block in flight from exactly this peer, taking it from whoever had it. */
  lemma RequestedKeeps(st: State, id: NodeId, h: Hash, validated: bool, partial: bool, now: int)
    requires Inv(st) && id in st.nodes
    ensures CanReceive(st, h)
    ensures var st' := Requested(st, id, h, validated, partial, now);
            && Inv(st') && h in st'.inFlight && st'.inFlight[h].node == id
            && (forall g :: g != h ==> (g in st'.inFlight <==> g in st.inFlight))
            && (forall g :: g != h && g in st.inFlight ==> st'.inFlight[g] == st.inFlight[g])
            && SamePeers(st, st')
            && (forall k :: k in st.nodes && k != id ==> |st'.nodes[k].queue| <= |st.nodes[k].queue|)
            && |st'.nodes[id].queue| <= |st.nodes[id].queue| + 1
  {
    hide Inv, Received, Queue, CanReceive;
    CanAlwaysReceive(st, h);
    if !(h in st.inFlight && st.inFlight[h].node == id) {
      ReceivedKeeps(st, h, now);
      var mid, e := Received(st, h, now), Queued(st.nextSlot, h, validated, partial);
      QueueKeeps(mid, id, e, now);
      assert Requested(st, id, h, validated, partial, now) == Queue(mid, id, e, now);
    }
  }

  lemma QueueKeeps(st: State, id: NodeId, e: Queued, now: int)
    requires Inv(st) && id in st.nodes && e.hash !in st.inFlight && e.slot == st.nextSlot
    ensures Inv(Queue(st, id, e, now))
    ensures SamePeers(st, Queue(st, id, e, now))
    ensures forall k :: k in st.nodes ==> |Queue(st, id, e, now).nodes[k].queue| == |st.nodes[k].queue| + Count(k == id)
    ensures Queue(st, id, e, now).inFlight == st.inFlight[e.hash := Place(id, e.slot)]
  {
    hide MapOk, QueuesOk, CountersOk;
    QueueQueues(st, id, e, now);
    QueueMap(st, id, e, now);
    QueueCounters(st, id, e, now);
  }

  lemma QueueCounters(st: State, id: NodeId, e: Queued, now: int)
    requires QueuesOk(st) && CountersOk(st) && id in st.nodes && e.hash !in st.inFlight && e.slot == st.nextSlot
    ensures CountersOk(Queue(st, id, e, now))
  {
    hide QueuesOk, NodeOk, Listed, Holds, ValidPeers, PreferredPeers, ProtectedPeers;
    QueuesAt(st, id);
    NodeQueuedKeeps(st.inFlight, id, st.nodes[id], e, now);
    SetsUpdate(st.nodes, id, NodeQueued(st.nodes[id], e, now));
  }

  lemma QueuesAt(st: State, id: NodeId)
    requires QueuesOk(st) && id in st.nodes
    ensures NodeOk(st.nodes[id], st.nextSlot) && Listed(st.inFlight, id, st.nodes[id].queue)
  {
  }

  lemma InitializedKeeps(st: State, id: NodeId)
    requires Inv(st)
    ensures var st' := Initialized(st, id);
            && Inv(st') && id in st'.nodes && st'.nodes.Keys == st.nodes.Keys + {id}
            && (forall k :: k in st.nodes ==> st'.nodes[k] == st.nodes[k])
            && st'.inFlight == st.inFlight
            && st'.nPreferred == st.nPreferred && st'.nValidated == st.nValidated && st'.nProtected == st.nProtected
  {
    hide Inv;
    InitializedInv(st, id);
  }

  lemma InitializedInv(st: State, id: NodeId)
    requires Inv(st)
    ensures Inv(Initialized(st, id))
  {
    if id !in st.nodes {
      SetsAdd(st.nodes, id);
      var st' := Initialized(st, id);
      forall h | h in st'.inFlight
        ensures Placed(st'.nodes, h, st'.inFlight[h])
      {
        assert Placed(st.nodes, h, st.inFlight[h]);
      }
    }
  }

  /**
   Removing a peer leaves exactly the other peers' blocks in flight. The counters stay non-negative,
   and after the last peer everything is zero and empty.
   */
  lemma FinalizedKeeps(st: State, id: NodeId)
    requires Inv(st) && id in st.nodes
    ensures var st' := Finalized(st, id);
            && Inv(st')
            && (forall h :: h in st'.inFlight <==> h in st.inFlight && st.inFlight[h].node != id)
            && st'.nValidated >= 0 && st'.nProtected >= 0
            && (st'.nodes == map[] ==>
                  st'.inFlight == map[] && st'.nPreferred == 0 && st'.nValidated == 0 && st'.nProtected == 0)
  {
    hide QueuesOk, CountersOk;
    var st' := Finalized(st, id);
    FinalizedMap(st, id);
    FinalizedQueues(st, id);
    FinalizedCounters(st, id);
    if st'.nodes == map[] {
      assert forall h :: h in st'.inFlight ==> Placed(st'.nodes, h, st'.inFlight[h]);
    }
  }

  lemma FinalizedCounters(st: State, id: NodeId)
    requires CountersOk(st) && id in st.nodes
    ensures var st' := Finalized(st, id);
            && CountersOk(st') && st'.nValidated >= 0 && st'.nProtected >= 0
            && (st'.nodes == map[] ==> st'.nPreferred == 0 && st'.nValidated == 0 && st'.nProtected == 0)
  {
    SetsRemove(st.nodes, id);
    assert ValidPeers(map[]) == {} && PreferredPeers(map[]) == {} && ProtectedPeers(map[]) == {};
  }

  lemma FinalizedMap(st: State, id: NodeId)
    requires Inv(st) && id in st.nodes
    ensures MapOk(Finalized(st, id))
    ensures forall h :: h in Finalized(st, id).inFlight <==> h in st.inFlight && st.inFlight[h].node != id
  {
    hide CountersOk;
    var st', q := Finalized(st, id), st.nodes[id].queue;
    forall h | h in st.inFlight
      ensures h in HashesOf(q) <==> st.inFlight[h].node == id
    {
      assert Placed(st.nodes, h, st.inFlight[h]);
      if h in HashesOf(q) {
        var i :| 0 <= i < |q| && q[i].hash == h;
        assert InFlightAt(st.inFlight, q[i].hash, Place(id, q[i].slot));
      }
    }
    forall h | h in st'.inFlight
      ensures Placed(st'.nodes, h, st'.inFlight[h])
    {
      assert Placed(st.nodes, h, st.inFlight[h]);
    }
  }

  lemma FinalizedQueues(st: State, id: NodeId)
    requires Inv(st) && id in st.nodes
    requires forall h :: h in Finalized(st, id).inFlight <==> h in st.inFlight && st.inFlight[h].node != id
    ensures QueuesOk(Finalized(st, id))
  {
    hide CountersOk, MapOk, NodeOk;
    var st' := Finalized(st, id);
    forall k | k in st'.nodes
      ensures NodeOk(st'.nodes[k], st'.nextSlot) && Listed(st'.inFlight, k, st'.nodes[k].queue)
    {
      var q := st.nodes[k].queue;
      assert Listed(st.inFlight, k, q);
      forall i {:trigger q[i]} | 0 <= i < |q|
        ensures InFlightAt(st'.inFlight, q[i].hash, Place(k, q[i].slot))
      {
        assert InFlightAt(st.inFlight, q[i].hash, Place(k, q[i].slot));
      }
    }
  }

  /** Changing only flags of a peer keeps queues and map in step. */
  lemma FlagsKeep(st: State, id: NodeId, n: Node, st': State)
    requires QueuesOk(st) && MapOk(st) && id in st.nodes
    requires n == st.nodes[id].(preferred := n.preferred, protect := n.protect)
    requires st' == st.(nodes := st.nodes[id := n], nPreferred := st'.nPreferred, nProtected := st'.nProtected)
    ensures QueuesOk(st') && MapOk(st')
  {
    forall h | h in st'.inFlight
      ensures Placed(st'.nodes, h, st'.inFlight[h])
    {
      assert Placed(st.nodes, h, st.inFlight[h]);
    }
  }

  lemma PreferredKeeps(st: State, id: NodeId, on: bool)
    requires Inv(st) && id in st.nodes
    ensures Inv(Preferred(st, id, on))
  {
    hide QueuesOk, MapOk, ValidPeers, PreferredPeers, ProtectedPeers;
    var st' := Preferred(st, id, on);
    SetsUpdate(st.nodes, id, st'.nodes[id]);
    FlagsKeep(st, id, st'.nodes[id], st');
  }

  lemma ProtectedKeeps(st: State, id: NodeId)
    requires Inv(st) && id in st.nodes
    ensures Inv(Protected(st, id))
  {
    hide QueuesOk, MapOk, ValidPeers, PreferredPeers, ProtectedPeers;
    var st' := Protected(st, id);
    if st' != st {
      SetsUpdate(st.nodes, id, st'.nodes[id]);
      FlagsKeep(st, id, st'.nodes[id], st');
    }
  }

  // ---------------------------------------------------------------- whole runs

  /** The three places that request blocks, with their guards, and everything else that touches the state. */
  datatype Action =
    | Connect(id: NodeId)
    | Disconnect(id: NodeId)
    | Arrive(hash: Hash, now: int)
    | DirectFetch(id: NodeId, hashes: seq<Hash>, now: int)
    | FetchNext(id: NodeId, hashes: seq<Hash>, now: int)
    | CompactBlock(id: NodeId, hash: Hash, now: int)
    | SetPreferred(id: NodeId, on: bool)
    | Protect(id: NodeId)

  /** Requests each block in turn, as long as the peer is below the limit when `guarded`; None where a list iterator would be stale. */
  ghost function RequestAll(st: State, id: NodeId, hashes: seq<Hash>, guarded: bool, now: int): Option<State>
    decreases |hashes|
  {
    if hashes == [] then Some(st)
    else if id !in st.nodes then None
    else if guarded && st.nodes[id].nBlocks >= MAX_BLOCKS_IN_TRANSIT_PER_PEER then Some(st)
    else if !CanReceive(st, hashes[0]) then None
    else RequestAll(Requested(st, id, hashes[0], true, false, now), id, hashes[1..], guarded, now)
  }

  /** What callers respect: a known peer, and a next batch that fits the peer's free places. */
  ghost predicate Allowed(st: State, a: Action) {
    match a
    case Connect(_) => true
    case Arrive(_, _) => true
    case Disconnect(id) => id in st.nodes
    case DirectFetch(id, _, _) => id in st.nodes
    case FetchNext(id, hashes, _) =>
      id in st.nodes && (hashes != [] ==> |hashes| + st.nodes[id].nBlocks <= MAX_BLOCKS_IN_TRANSIT_PER_PEER)
    case CompactBlock(id, _, _) => id in st.nodes
    case SetPreferred(id, _) => id in st.nodes
    case Protect(id) => id in st.nodes
  }

  /** None where a list iterator kept in the global map would not be valid. */
  ghost function Do(st: State, a: Action): Option<State>
    requires Allowed(st, a)
  {
    match a
    case Connect(id) => Some(Initialized(st, id))
    case Disconnect(id) => Some(Finalized(st, id))
    case Arrive(h, now) => if CanReceive(st, h) then Some(Received(st, h, now)) else None
    case DirectFetch(id, hashes, now) => RequestAll(st, id, hashes, true, now)
    case FetchNext(id, hashes, now) => RequestAll(st, id, hashes, false, now)
    case CompactBlock(id, h, now) =>
      if !CanReceive(st, h) then None
      else if h in st.inFlight then Some(if st.inFlight[h].node == id then Compacted(st, h) else st)
      else Some(if st.nodes[id].nBlocks < MAX_BLOCKS_IN_TRANSIT_PER_PEER then Requested(st, id, h, true, true, now) else st)
    case SetPreferred(id, on) => Some(Preferred(st, id, on))
    case Protect(id) => Some(Protected(st, id))
  }

  lemma {:induction false} RequestAllKeeps(st: State, id: NodeId, hashes: seq<Hash>, guarded: bool, now: int)
    requires Inv(st) && id in st.nodes && WithinLimit(st)
    requires guarded || hashes == [] || |hashes| + st.nodes[id].nBlocks <= MAX_BLOCKS_IN_TRANSIT_PER_PEER
    ensures var r := RequestAll(st, id, hashes, guarded, now); r.Some? && Inv(r.value) && WithinLimit(r.value)
    decreases |hashes|
  {
    hide Inv, Requested;
    QueueLength(st, id);
    if !(hashes == [] || (guarded && st.nodes[id].nBlocks >= MAX_BLOCKS_IN_TRANSIT_PER_PEER)) {
      RequestedKeeps(st, id, hashes[0], true, false, now);
      var st' := Requested(st, id, hashes[0], true, false, now);
      QueueLength(st', id);
      LimitKept(st, st', id);
      RequestAllKeeps(st', id, hashes[1..], guarded, now);
    }
  }

  lemma QueueLength(st: State, id: NodeId)
    requires Inv(st) && id in st.nodes
    ensures st.nodes[id].nBlocks == |st.nodes[id].queue|
  {
    QueuesAt(st, id);
  }

  lemma PeerWithin(st: State, id: NodeId)
    requires Inv(st) && WithinLimit(st) && id in st.nodes
    ensures 0 <= st.nodes[id].nBlocks <= MAX_BLOCKS_IN_TRANSIT_PER_PEER
  {
    hide Inv;
    QueueLength(st, id);
  }

  lemma LimitKept(st: State, st': State, id: NodeId)
    requires WithinLimit(st) && SamePeers(st, st') && id in st.nodes
    requires forall k :: k in st.nodes && k != id ==> |st'.nodes[k].queue| <= |st.nodes[k].queue|
    requires |st'.nodes[id].queue| <= MAX_BLOCKS_IN_TRANSIT_PER_PEER
    ensures WithinLimit(st')
  {
    forall k | k in st'.nodes
      ensures |st'.nodes[k].queue| <= MAX_BLOCKS_IN_TRANSIT_PER_PEER
    {
      assert k in st.nodes;
    }
  }

  lemma DoKeeps(st: State, a: Action)
    requires Inv(st) && WithinLimit(st) && Allowed(st, a)
    ensures var r := Do(st, a); r.Some? && Inv(r.value) && WithinLimit(r.value)
  {
    hide Inv, Requested, Received;
    match a
    case Connect(id) =>
      InitializedKeeps(st, id);
    case Disconnect(id) =>
      FinalizedKeeps(st, id);
    case Arrive(h, now) =>
      ReceivedKeeps(st, h, now);
      var st' := Received(st, h, now);
      assert forall k :: k in st'.nodes ==> k in st.nodes;
    case DirectFetch(id, hashes, now) =>
      RequestAllKeeps(st, id, hashes, true, now);
    case FetchNext(id, hashes, now) =>
      RequestAllKeeps(st, id, hashes, false, now);
    case CompactBlock(id, h, now) =>
      CompactBlockKeeps(st, id, h, now);
    case SetPreferred(id, on) =>
      PreferredKeeps(st, id, on);
    case Protect(id) =>
      ProtectedKeeps(st, id);
  }

  /** Whether the block in flight is being rebuilt from a compact block. */
  ghost predicate BeingRebuilt(st: State, h: Hash) {
    h in st.inFlight && Placed(st.nodes, h, st.inFlight[h]) && Lookup(st.nodes[st.inFlight[h].node].queue, st.inFlight[h].slot).partial
  }

  /** A compact block is taken from the peer it is in flight from, or from one with a free place if from nobody. */
  predicate TakesCompact(st: State, id: NodeId, h: Hash)
    requires id in st.nodes
  {
    if h in st.inFlight then st.inFlight[h].node == id else st.nodes[id].nBlocks < MAX_BLOCKS_IN_TRANSIT_PER_PEER
  }

  lemma CompactBlockKeeps(st: State, id: NodeId, h: Hash, now: int)
    requires Inv(st) && WithinLimit(st) && id in st.nodes
    ensures var r := Do(st, CompactBlock(id, h, now));
            && r.Some? && Inv(r.value) && WithinLimit(r.value)
            && if TakesCompact(st, id, h) then BeingRebuilt(r.value, h) && r.value.inFlight[h].node == id else r.value == st
  {
    hide Inv, Received, BeingRebuilt, Compacted;
    CanAlwaysReceive(st, h);
    if h in st.inFlight {
      if st.inFlight[h].node == id { CompactedKeeps(st, h); }
    } else if st.nodes[id].nBlocks < MAX_BLOCKS_IN_TRANSIT_PER_PEER {
      QueueLength(st, id);
      RequestedKeeps(st, id, h, true, true, now);
      LimitKept(st, Requested(st, id, h, true, true, now), id);
      RequestedIsRebuilt(st, id, h, now);
    }
  }

  lemma RequestedIsRebuilt(st: State, id: NodeId, h: Hash, now: int)
    requires id in st.nodes && h !in st.inFlight
    ensures CanReceive(st, h) && BeingRebuilt(Requested(st, id, h, true, true, now), h)
  {
    var st' := Requested(st, id, h, true, true, now);
    var q := st'.nodes[id].queue;
    assert SlotAt(q, |q| - 1, st.nextSlot) && q[|q| - 1].hash == h;
  }

  lemma PreparedAt(q: seq<Queued>, slot: nat, i: nat)
    requires i < |q|
    ensures Prepared(q, slot)[i] == q[i].(partial := q[i].partial || q[i].slot == slot)
  {}

  lemma {:induction false} PreparedCounts(q: seq<Queued>, slot: nat)
    ensures CountValid(Prepared(q, slot)) == CountValid(q)
  {
    if q != [] {
      var n := |q| - 1;
      assert Prepared(q, slot)[..n] == Prepared(q[..n], slot);
      PreparedCounts(q[..n], slot);
    }
  }

  lemma PreparedHolds(q: seq<Queued>, slot: nat, h: Hash, s: nat)
    requires Holds(q, h, s)
    ensures Holds(Prepared(q, slot), h, s)
  {
    var i :| SlotAt(q, i, s) && q[i].hash == h;
    assert SlotAt(Prepared(q, slot), i, s);
  }

  /** Nothing but the flag of that one entry changes. */
  lemma CompactedKeeps(st: State, h: Hash)
    requires Inv(st) && WithinLimit(st) && h in st.inFlight
    ensures CanReceive(st, h)
    ensures var st' := Compacted(st, h);
            Inv(st') && WithinLimit(st') && SamePeers(st, st') && st'.inFlight == st.inFlight && BeingRebuilt(st', h)
  {
    hide QueuesOk, MapOk, CountersOk, Prepared, BeingRebuilt, CanReceive, WithinLimit;
    CanAlwaysReceive(st, h);
    PeerFound(st, h);
    CompactedQueues(st, h);
    CompactedMap(st, h);
    CompactedCounters(st, h);
  }

  lemma CompactedCounters(st: State, h: Hash)
    requires h in st.inFlight && st.inFlight[h].node in st.nodes
    ensures CountersOk(st) ==> CountersOk(Compacted(st, h))
    ensures WithinLimit(st) ==> WithinLimit(Compacted(st, h))
  {
    hide ValidPeers, PreferredPeers, ProtectedPeers, Prepared;
    var p := st.inFlight[h];
    SetsUpdate(st.nodes, p.node, Compacted(st, h).nodes[p.node]);
  }

  lemma PeerFound(st: State, h: Hash)
    requires h in st.inFlight && CanReceive(st, h)
    ensures st.inFlight[h].node in st.nodes
  {}

  lemma CompactedQueues(st: State, h: Hash)
    requires QueuesOk(st) && h in st.inFlight && CanReceive(st, h)
    ensures QueuesOk(Compacted(st, h))
  {
    var p := st.inFlight[h];
    var q := st.nodes[p.node].queue;
    PreparedCounts(q, p.slot);
    hide CountValid;
    assert NodeOk(st.nodes[p.node], st.nextSlot) && Listed(st.inFlight, p.node, q);
    forall i | 0 <= i < |q| ensures Prepared(q, p.slot)[i] == q[i].(partial := q[i].partial || q[i].slot == p.slot) { PreparedAt(q, p.slot, i); }
  }

  lemma CompactedMap(st: State, h: Hash)
    requires MapOk(st) && h in st.inFlight && CanReceive(st, h)
    ensures MapOk(Compacted(st, h)) && BeingRebuilt(Compacted(st, h), h)
  {
    var st' := Compacted(st, h);
    forall g | g in st'.inFlight ensures Placed(st'.nodes, g, st'.inFlight[g]) { CompactedPlaced(st, h, g); }
    hide Placed;
    CompactedFlag(st, h);
  }

  lemma CompactedPlaced(st: State, h: Hash, g: Hash)
    requires h in st.inFlight && CanReceive(st, h) && g in st.inFlight && Placed(st.nodes, g, st.inFlight[g])
    ensures Placed(Compacted(st, h).nodes, g, st.inFlight[g])
  {
    hide Holds, Prepared;
    var p := st.inFlight[h];
    if st.inFlight[g].node == p.node { PreparedHolds(st.nodes[p.node].queue, p.slot, g, st.inFlight[g].slot); }
  }

  lemma CompactedFlag(st: State, h: Hash)
    requires h in st.inFlight && CanReceive(st, h) && Placed(Compacted(st, h).nodes, h, st.inFlight[h])
    ensures BeingRebuilt(Compacted(st, h), h)
  {
    var p := st.inFlight[h];
    var q := st.nodes[p.node].queue;
    PreparedFlag(q, p.slot);
  }

  lemma PreparedFlag(q: seq<Queued>, slot: nat)
    requires HasSlot(Prepared(q, slot), slot)
    ensures Lookup(Prepared(q, slot), slot).partial
  {
    hide Lookup;
    var e := Lookup(Prepared(q, slot), slot);
    var i :| 0 <= i < |q| && Prepared(q, slot)[i] == e;
    PreparedAt(q, slot, i);
  }

  /** A run from nothing, every action allowed where it happens. */
  ghost predicate IsRun(states: seq<State>, actions: seq<Action>) {
    && |states| == |actions| + 1 && states[0] == Empty
    && forall i {:trigger actions[i]} :: 0 <= i < |actions| ==>
         Allowed(states[i], actions[i]) && Do(states[i], actions[i]) == Some(states[i + 1])
  }

  /**
   In every state of every run the map is the disjoint union of the queues, all counters agree,
   and no peer has more than the allowed number of blocks in flight.
   */
  lemma {:induction false} EveryRunIsConsistent(states: seq<State>, actions: seq<Action>, k: nat)
    requires IsRun(states, actions) && k < |states|
    ensures Inv(states[k]) && WithinLimit(states[k])
  {
    hide Inv, Do, Allowed;
    if k == 0 {
      EmptyKeeps();
    } else {
      EveryRunIsConsistent(states, actions, k - 1);
      var a := actions[k - 1];
      DoKeeps(states[k - 1], a);
    }
  }

  /** Whatever is allowed next is also defined, so every run goes on. */
  lemma RunGoesOn(states: seq<State>, actions: seq<Action>, a: Action)
    requires IsRun(states, actions) && Allowed(states[|actions|], a)
    ensures var r := Do(states[|actions|], a); r.Some? && IsRun(states + [r.value], actions + [a])
  {
    hide Inv, Do, Allowed;
    EveryRunIsConsistent(states, actions, |actions|);
    DoKeeps(states[|actions|], a);
  }

  // ---------------------------------------------------------------- the maps as the code updates them

  class Downloads {
    var mapNodeState: map<NodeId, Node>
    var mapBlocksInFlight: map<Hash, Place>
    var nPreferredDownload: int
    var nPeersWithValidatedDownloads: int
    var nProtectedPeers: int
    var nextSlot: nat

    ghost function Abs(): State
      reads this
    {
      State(mapNodeState, mapBlocksInFlight, nPreferredDownload, nPeersWithValidatedDownloads, nProtectedPeers, nextSlot)
    }

    constructor ()
      ensures Abs() == Empty && Inv(Abs()) && WithinLimit(Abs())
    {
      mapNodeState, mapBlocksInFlight := map[], map[];
      nPreferredDownload, nPeersWithValidatedDownloads, nProtectedPeers, nextSlot := 0, 0, 0, 0;
      EmptyKeeps();
    }

    /** Whether the block had been requested; it no longer is. */
    method MarkBlockAsReceived(hash: Hash, now: int) returns (requested: bool)
      requires Inv(Abs())
      modifies this
      ensures Inv(Abs()) && CanReceive(old(Abs()), hash) && Abs() == Received(old(Abs()), hash, now)
      ensures requested <==> hash in old(mapBlocksInFlight)
    {
      hide Inv;
      ReceivedKeeps(Abs(), hash, now);
      if hash in mapBlocksInFlight {
        var it := mapBlocksInFlight[hash];
        assert HasSlot(mapNodeState[it.node].queue, it.slot);
        var state := mapNodeState[it.node];
        var entry := Lookup(state.queue, it.slot);
        state := state.(nValid := state.nValid - Count(entry.validated));
        if state.nValid == 0 && entry.validated {
          nPeersWithValidatedDownloads := nPeersWithValidatedDownloads - 1;
        }
        if state.queue[0].slot == it.slot {
          state := state.(downloadingSince := Max(state.downloadingSince, now));
        }
        state := state.(queue := Erase(state.queue, it.slot));
        state := state.(nBlocks := state.nBlocks - 1);
        state := state.(stallingSince := 0);
        mapNodeState := mapNodeState[it.node := state];
        mapBlocksInFlight := mapBlocksInFlight - {hash};
        return true;
      }
      return false;
    }

    /** Appends a block that is in flight from nobody to a peer's queue. */
    method Append(id: NodeId, hash: Hash, validated: bool, partial: bool, now: int)
      requires id in mapNodeState
      modifies this
      ensures Abs() == Queue(old(Abs()), id, Queued(old(nextSlot), hash, validated, partial), now)
    {
      var state := mapNodeState[id];
      var slot := nextSlot;
      nextSlot := nextSlot + 1;
      state := state.(queue := state.queue + [Queued(slot, hash, validated, partial)]);
      state := state.(nBlocks := state.nBlocks + 1);
      state := state.(nValid := state.nValid + Count(validated));
      if state.nBlocks == 1 {
        state := state.(downloadingSince := now);
      }
      if state.nValid == 1 && validated {
        nPeersWithValidatedDownloads := nPeersWithValidatedDownloads + 1;
      }
      mapNodeState := mapNodeState[id := state];
      mapBlocksInFlight := mapBlocksInFlight[hash := Place(id, slot)];
    }

    /** False when the block was already in flight from this peer. */
    method MarkBlockAsInFlight(id: NodeId, hash: Hash, validated: bool, partial: bool, now: int) returns (added: bool)
      requires Inv(Abs()) && id in mapNodeState
      modifies this
      ensures Inv(Abs()) && CanReceive(old(Abs()), hash)
      ensures Abs() == Requested(old(Abs()), id, hash, validated, partial, now)
      ensures added <==> !(hash in old(mapBlocksInFlight) && old(mapBlocksInFlight)[hash].node == id)
    {
      hide Inv, Received, Queue;
      RequestedKeeps(Abs(), id, hash, validated, partial, now);
      if hash in mapBlocksInFlight && mapBlocksInFlight[hash].node == id {
        return false;
      }
      ReceivedKeeps(Abs(), hash, now);
      var _ := MarkBlockAsReceived(hash, now);
      Append(id, hash, validated, partial, now);
      return true;
    }

    /** A compact block arrives; true if it is to be worked on, false if it is not taken or already being worked on. */
    method StartCompact(id: NodeId, hash: Hash, now: int) returns (proceed: bool)
      requires Inv(Abs()) && WithinLimit(Abs()) && id in mapNodeState
      modifies this
      ensures Inv(Abs()) && WithinLimit(Abs()) && Some(Abs()) == Do(old(Abs()), CompactBlock(id, hash, now))
      ensures proceed <==> TakesCompact(old(Abs()), id, hash) && !BeingRebuilt(old(Abs()), hash)
      ensures proceed ==> BeingRebuilt(Abs(), hash) && mapBlocksInFlight[hash].node == id
    {
      hide Inv, Requested, BeingRebuilt, Compacted;
      CompactBlockKeeps(Abs(), id, hash, now);
      RebuiltIs(Abs(), hash);
      var fAlreadyInFlight := hash in mapBlocksInFlight;
      if (!fAlreadyInFlight && mapNodeState[id].nBlocks < MAX_BLOCKS_IN_TRANSIT_PER_PEER) ||
         (fAlreadyInFlight && mapBlocksInFlight[hash].node == id) {
        var added := MarkBlockAsInFlight(id, hash, true, true, now);
        if !added {
          RequestedAgain(old(Abs()), id, hash, now);
          proceed := Prepare(hash);
          return;
        }
        return true;
      }
      return false;
    }

    /** Starts a partial block for an entry that has none. */
    method Prepare(hash: Hash) returns (started: bool)
      requires hash in mapBlocksInFlight && CanReceive(Abs(), hash)
      modifies this
      ensures Abs() == Compacted(old(Abs()), hash)
      ensures started <==> !old(BeingRebuilt(Abs(), hash))
    {
      var p := mapBlocksInFlight[hash];
      var state := mapNodeState[p.node];
      assert HasSlot(state.queue, p.slot);
      started := !Lookup(state.queue, p.slot).partial;
      mapNodeState := mapNodeState[p.node := state.(queue := Prepared(state.queue, p.slot))];
    }

    method InitializeNode(id: NodeId)
      requires Inv(Abs())
      modifies this
      ensures Inv(Abs()) && Abs() == Initialized(old(Abs()), id)
    {
      InitializedKeeps(Abs(), id);
      if id !in mapNodeState {
        mapNodeState := mapNodeState[id := FreshNode];
      }
    }

    /** Forgets a peer. The asserts are the consistency checks of the original. */
    method FinalizeNode(id: NodeId)
      requires Inv(Abs()) && id in mapNodeState
      modifies this
      ensures Inv(Abs()) && Abs() == Finalized(old(Abs()), id)
    {
      hide Inv;
      FinalizedKeeps(Abs(), id);
      var state := mapNodeState[id];
      ForgetBlocks(state.queue);
      nPreferredDownload := nPreferredDownload - Count(state.preferred);
      nPeersWithValidatedDownloads := nPeersWithValidatedDownloads - Count(state.nValid != 0);
      assert nPeersWithValidatedDownloads >= 0;
      nProtectedPeers := nProtectedPeers - Count(state.protect);
      assert nProtectedPeers >= 0;
      mapNodeState := mapNodeState - {id};
      assert Abs() == Finalized(old(Abs()), id);
      if mapNodeState == map[] {
        assert mapBlocksInFlight == map[];
        assert nPreferredDownload == 0;
        assert nPeersWithValidatedDownloads == 0;
        assert nProtectedPeers == 0;
      }
    }

    /** Takes the blocks of a queue out of the global map. */
    method ForgetBlocks(queue: seq<Queued>)
      modifies `mapBlocksInFlight
      ensures mapBlocksInFlight == old(mapBlocksInFlight) - HashesOf(queue)
    {
      var i := 0;
      while i < |queue|
        invariant 0 <= i <= |queue|
        invariant mapBlocksInFlight == old(mapBlocksInFlight) - HashesOf(queue[..i])
      {
        mapBlocksInFlight := mapBlocksInFlight - {queue[i].hash};
        HashesSnoc(queue, i);
        i := i + 1;
      }
      assert queue[..i] == queue;
    }

    method UpdatePreferredDownload(id: NodeId, preferred: bool)
      requires Inv(Abs()) && id in mapNodeState
      modifies this
      ensures Inv(Abs()) && Abs() == Preferred(old(Abs()), id, preferred)
    {
      hide Inv;
      PreferredKeeps(Abs(), id, preferred);
      nPreferredDownload := nPreferredDownload - Count(mapNodeState[id].preferred);
      mapNodeState := mapNodeState[id := mapNodeState[id].(preferred := preferred)];
      nPreferredDownload := nPreferredDownload + Count(mapNodeState[id].preferred);
    }

    /** Requests blocks from a peer, oldest first, until it has as many in flight as allowed. */
    method DirectFetch(id: NodeId, hashes: seq<Hash>, now: int) returns (requested: seq<Hash>)
      requires Inv(Abs()) && WithinLimit(Abs()) && id in mapNodeState
      modifies this
      ensures Inv(Abs()) && WithinLimit(Abs()) && Some(Abs()) == RequestAll(old(Abs()), id, hashes, true, now)
      ensures requested <= hashes
      ensures forall h :: h in requested ==> h in mapBlocksInFlight && mapBlocksInFlight[h].node == id
    {
      hide Inv, WithinLimit, Requested, RequestAll;
      RequestAllKeeps(Abs(), id, hashes, true, now);
      ghost var end := RequestAll(Abs(), id, hashes, true, now);
      requested := [];
      var i := 0;
      while i < |hashes|
        invariant 0 <= i <= |hashes| && requested == hashes[..i]
        invariant Inv(Abs()) && id in mapNodeState && RequestAll(Abs(), id, hashes[i..], true, now) == end
        invariant forall h :: h in requested ==> h in mapBlocksInFlight && mapBlocksInFlight[h].node == id
      {
        RequestAllStep(Abs(), id, hashes, i, true, now);
        if mapNodeState[id].nBlocks >= MAX_BLOCKS_IN_TRANSIT_PER_PEER {
          return;
        }
        RequestedKeeps(Abs(), id, hashes[i], true, false, now);
        requested := requested + [hashes[i]];
        var _ := MarkBlockAsInFlight(id, hashes[i], true, false, now);
        i := i + 1;
      }
      assert hashes[i..] == [];
      RequestAllNone(Abs(), id, true, now);
    }

    /** Requests blocks that fit the peer's free places. */
    method RequestBlocks(id: NodeId, hashes: seq<Hash>, now: int)
      requires Inv(Abs()) && WithinLimit(Abs()) && Allowed(Abs(), FetchNext(id, hashes, now))
      modifies this
      ensures Inv(Abs()) && WithinLimit(Abs()) && Some(Abs()) == Do(old(Abs()), FetchNext(id, hashes, now))
      ensures forall h :: h in hashes ==> h in mapBlocksInFlight && mapBlocksInFlight[h].node == id
    {
      hide Inv, WithinLimit, Requested, RequestAll;
      RequestAllKeeps(Abs(), id, hashes, false, now);
      ghost var end := RequestAll(Abs(), id, hashes, false, now);
      var i := 0;
      while i < |hashes|
        invariant 0 <= i <= |hashes|
        invariant Inv(Abs()) && id in mapNodeState && RequestAll(Abs(), id, hashes[i..], false, now) == end
        invariant forall h :: h in hashes[..i] ==> h in mapBlocksInFlight && mapBlocksInFlight[h].node == id
      {
        RequestAllStep(Abs(), id, hashes, i, false, now);
        RequestedKeeps(Abs(), id, hashes[i], true, false, now);
        var _ := MarkBlockAsInFlight(id, hashes[i], true, false, now);
        assert hashes[..i + 1] == hashes[..i] + [hashes[i]];
        i := i + 1;
      }
      assert hashes[i..] == [] && hashes[..i] == hashes;
      RequestAllNone(Abs(), id, false, now);
    }
  }

  lemma HashesSnoc(q: seq<Queued>, i: nat)
    requires i < |q|
    ensures HashesOf(q[..i + 1]) == HashesOf(q[..i]) + {q[i].hash}
  {
    var p := q[..i + 1];
    forall h | h in HashesOf(q[..i]) + {q[i].hash}
      ensures h in HashesOf(p)
    {
      if h in HashesOf(q[..i]) {
        var j :| 0 <= j < i && q[..i][j].hash == h;
        assert p[j].hash == h;
      } else {
        assert p[i].hash == h;
      }
    }
    forall h | h in HashesOf(p)
      ensures h in HashesOf(q[..i]) + {q[i].hash}
    {
      var j :| 0 <= j < |p| && p[j].hash == h;
      if j < i { assert q[..i][j].hash == h; }
    }
  }

  lemma RebuiltIs(st: State, h: Hash)
    ensures BeingRebuilt(st, h) ==> h in st.inFlight
  {}

  lemma RequestedAgain(st: State, id: NodeId, h: Hash, now: int)
    requires id in st.nodes && h in st.inFlight && st.inFlight[h].node == id && CanReceive(st, h)
    ensures Requested(st, id, h, true, true, now) == st
  {}

  lemma RequestAllStep(st: State, id: NodeId, hashes: seq<Hash>, i: nat, guarded: bool, now: int)
    requires Inv(st) && id in st.nodes && i < |hashes|
    ensures guarded && st.nodes[id].nBlocks >= MAX_BLOCKS_IN_TRANSIT_PER_PEER ==>
              RequestAll(st, id, hashes[i..], guarded, now) == Some(st)
    ensures CanReceive(st, hashes[i])
    ensures var st' := Requested(st, id, hashes[i], true, false, now);
            && Inv(st') && id in st'.nodes
            && (!guarded || st.nodes[id].nBlocks < MAX_BLOCKS_IN_TRANSIT_PER_PEER ==>
                  RequestAll(st, id, hashes[i..], guarded, now) == RequestAll(st', id, hashes[i + 1..], guarded, now))
  {
    hide Inv, Requested;
    RequestedKeeps(st, id, hashes[i], true, false, now);
    assert hashes[i..][1..] == hashes[i + 1..];
  }

  lemma RequestAllNone(st: State, id: NodeId, guarded: bool, now: int)
    requires Inv(st) && id in st.nodes
    ensures RequestAll(st, id, [], guarded, now) == Some(st)
  {
  }
}
