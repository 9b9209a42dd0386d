/**
 Compact block relay (src/blockencodings.h, src/blockencodings.cpp and the two
 ends in src/net_processing.cpp; BIP 152, sections "BlockTransactionsRequest"
 and "Short transaction IDs").

 `sid` maps a transaction hash to its short id; it stands for the keyed hash of
 the announced header.  Positions are 16 bits wide, so blocks have at most
 65536 transactions here.
 */
module CompactBlock {
  import opened Basics

  datatype Tx = Tx(hash: nat, witnessHash: nat, isNull: bool)

  datatype Status = Okay | Invalid | Failed | CheckBlockFailed

  datatype Prefilled = Prefilled(index: nat, tx: Tx)

  datatype Announcement = Announcement(headerIsNull: bool, shortIds: seq<nat>, prefilled: seq<Prefilled>)

  const U16: nat := 65536
  const MAX_TXN: nat := 4000000 / 40

  type Slots = seq<Option<Tx>>

  // ---------------------------------------------------------------- the sender

  function Key(tx: Tx, fUseWTXID: bool): nat { if fUseWTXID then tx.witnessHash else tx.hash }

  /** The announcement of a block: the coinbase in full and a short id for everything else. */
  method Announce(vtx: seq<Tx>, sid: nat -> nat, fUseWTXID: bool) returns (a: Announcement)
    requires |vtx| >= 1
    ensures a == Announced(vtx, sid, fUseWTXID)
  {
    var shortIds: seq<nat> := [];
    var i := 1;
    while i < |vtx|
      invariant 1 <= i <= |vtx| && |shortIds| == i - 1
      invariant forall j :: 0 <= j < |shortIds| ==> shortIds[j] == sid(Key(vtx[j + 1], fUseWTXID))
    {
      shortIds := shortIds + [sid(Key(vtx[i], fUseWTXID))];
      i := i + 1;
    }
    a := Announcement(false, shortIds, [Prefilled(0, vtx[0])]);
  }

  function Announced(vtx: seq<Tx>, sid: nat -> nat, fUseWTXID: bool): Announcement
    requires |vtx| >= 1
  {
    Announcement(false, seq<nat>(|vtx| - 1, i requires 0 <= i < |vtx| - 1 => sid(Key(vtx[i + 1], fUseWTXID))),
                 [Prefilled(0, vtx[0])])
  }

  // ---------------------------------------------------------------- empty slots

  /** The positions without a transaction, in order. */
  ghost function Gaps(s: Slots): seq<nat> {
    if s == [] then [] else
      var last := |s| - 1;
      Gaps(s[..last]) + if s[last].None? then [last] else []
  }

  ghost predicate Increasing(g: seq<nat>) {
    forall j, k :: 0 <= j < k < |g| ==> g[j] < g[k]
  }

  lemma {:induction false} GapsFacts(s: Slots)
    ensures Increasing(Gaps(s))
    ensures forall j :: 0 <= j < |Gaps(s)| ==> Gaps(s)[j] < |s| && s[Gaps(s)[j]].None?
    ensures forall p :: 0 <= p < |s| && s[p].None? ==> p in Gaps(s)
  {
    if s != [] {
      var last := |s| - 1;
      GapsFacts(s[..last]);
      forall p | 0 <= p < |s| && s[p].None? ensures p in Gaps(s) {
        if p < last { assert s[..last][p].None?; }
      }
    }
  }

  lemma {:induction false} GapsOfEmpty(n: nat)
    ensures |Gaps(seq(n, _ => None))| == n
  {
    if n > 0 {
      var s: Slots := seq(n, _ => None);
      assert s[..n - 1] == seq(n - 1, _ => None);
      GapsOfEmpty(n - 1);
    }
  }

  /** Filling one gap takes one position off the list. */
  lemma {:induction false} GapsFilled(s: Slots, p: nat, tx: Tx)
    requires p < |s| && s[p].None?
    ensures |Gaps(s[p := Some(tx)])| == |Gaps(s)| - 1
  {
    var last := |s| - 1;
    var s' := s[p := Some(tx)];
    if p == last {
      assert s'[..last] == s[..last];
    } else {
      assert s'[..last] == s[..last][p := Some(tx)];
      GapsFilled(s[..last], p, tx);
    }
  }

  // ---------------------------------------------------------------- the three parts of InitData

  /** Where the i-th prefilled transaction goes: its index counts from the one before. */
  function PlaceOf(prefilled: seq<Prefilled>, i: nat): nat
    requires i < |prefilled|
  {
    prefilled[i].index + if i == 0 then 0 else PlaceOf(prefilled, i - 1) + 1
  }

  /** The slots hold the first n prefilled transactions and nothing else. */
  ghost predicate Placed(avail: Slots, prefilled: seq<Prefilled>, n: nat)
    requires n <= |prefilled|
  {
    && (forall i :: 0 <= i < n ==> PlaceOf(prefilled, i) < |avail| && avail[PlaceOf(prefilled, i)] == Some(prefilled[i].tx))
    && (forall p :: 0 <= p < |avail| && avail[p].Some? ==> exists i :: 0 <= i < n && p == PlaceOf(prefilled, i))
  }

  lemma PlacedNext(avail: Slots, prefilled: seq<Prefilled>, n: nat)
    requires n < |prefilled| && Placed(avail, prefilled, n)
    requires PlaceOf(prefilled, n) < |avail| && (n > 0 ==> PlaceOf(prefilled, n - 1) < PlaceOf(prefilled, n))
    requires forall i :: 0 <= i < n ==> PlaceOf(prefilled, i) < PlaceOf(prefilled, n)
    ensures Placed(avail[PlaceOf(prefilled, n) := Some(prefilled[n].tx)], prefilled, n + 1)
  {
    var p := PlaceOf(prefilled, n);
    var avail' := avail[p := Some(prefilled[n].tx)];
    forall q | 0 <= q < |avail'| && avail'[q].Some? ensures exists i :: 0 <= i < n + 1 && q == PlaceOf(prefilled, i) {
      if q != p {
        var i :| 0 <= i < n && q == PlaceOf(prefilled, i);
      }
    }
  }

  lemma {:induction false} PlacesIncrease(prefilled: seq<Prefilled>, n: nat)
    requires n < |prefilled|
    ensures forall i :: 0 <= i < n ==> PlaceOf(prefilled, i) < PlaceOf(prefilled, n)
  {
    if n > 0 { PlacesIncrease(prefilled, n - 1); }
  }

  /** Not null, within 16 bits, and with no transaction before it that neither list accounts for. */
  predicate Placeable(a: Announcement, i: nat)
    requires i < |a.prefilled|
  {
    !a.prefilled[i].tx.isNull && PlaceOf(a.prefilled, i) < U16 && PlaceOf(a.prefilled, i) <= |a.shortIds| + i
  }

  lemma PlaceStep(prefilled: seq<Prefilled>, i: nat)
    requires i < |prefilled|
    ensures PlaceOf(prefilled, i) == prefilled[i].index + if i == 0 then 0 else PlaceOf(prefilled, i - 1) + 1
  {}

  /** Puts the prefilled transactions where their running index says. */
  method PlacePrefilled(a: Announcement) returns (status: Status, avail: Slots)
    ensures status == Okay || status == Invalid
    ensures |avail| == |a.shortIds| + |a.prefilled|
    ensures status == Okay ==> Placed(avail, a.prefilled, |a.prefilled|) && |Gaps(avail)| == |a.shortIds|
    ensures status == Okay <==> forall i :: 0 <= i < |a.prefilled| ==> Placeable(a, i)
  {
    hide Gaps, Placed, PlaceOf;
    var total := |a.shortIds| + |a.prefilled|;
    avail := seq(total, _ => None);
    GapsOfEmpty(total);
    NothingPlaced(total, a.prefilled);
    var last: int := -1;
    var i := 0;
    while i < |a.prefilled|
      invariant 0 <= i <= |a.prefilled| && |avail| == total
      invariant last == if i == 0 then -1 else PlaceOf(a.prefilled, i - 1)
      invariant Placed(avail, a.prefilled, i) && |Gaps(avail)| == total - i
      invariant forall j :: 0 <= j < i ==> Placeable(a, j)
    {
      PlaceStep(a.prefilled, i);
      assert PlaceOf(a.prefilled, i) == last + a.prefilled[i].index + 1;
      if a.prefilled[i].tx.isNull {
        assert !Placeable(a, i);
        return Invalid, avail;
      }
      last := last + a.prefilled[i].index + 1;
      assert Placeable(a, i) <==> last <= U16 - 1 && last <= |a.shortIds| + i;
      if last > U16 - 1 {
        return Invalid, avail;
      }
      if last > |a.shortIds| + i {
        return Invalid, avail;
      }
      PlacesIncrease(a.prefilled, i);
      FreeAhead(avail, a.prefilled, i);
      GapsFilled(avail, last, a.prefilled[i].tx);
      PlacedNext(avail, a.prefilled, i);
      avail := avail[last := Some(a.prefilled[i].tx)];
      i := i + 1;
    }
    status := Okay;
  }

  lemma NothingPlaced(n: nat, prefilled: seq<Prefilled>)
    ensures Placed(seq(n, _ => None), prefilled, 0)
  {}

  lemma FreeAhead(avail: Slots, prefilled: seq<Prefilled>, n: nat)
    requires n < |prefilled| && Placed(avail, prefilled, n) && PlaceOf(prefilled, n) < |avail|
    requires forall i :: 0 <= i < n ==> PlaceOf(prefilled, i) < PlaceOf(prefilled, n)
    ensures avail[PlaceOf(prefilled, n)].None?
  {}

  ghost predicate DistinctIds(ids: seq<nat>) {
    forall i, j :: 0 <= i < j < |ids| ==> ids[i] != ids[j]
  }

  /** The map from short ids to slots: the i-th id belongs to the i-th gap. */
  ghost predicate IsSlotMap(m: map<nat, nat>, ids: seq<nat>, g: seq<nat>) {
    && |ids| <= |g|
    && (forall j :: 0 <= j < |ids| ==> ids[j] in m)
    && (forall k :: k in m ==> FromIds(m, ids, g, k))
  }

  ghost predicate FromIds(m: map<nat, nat>, ids: seq<nat>, g: seq<nat>, k: nat) {
    exists j :: FromId(m, ids, g, k, j)
  }

  predicate FromId(m: map<nat, nat>, ids: seq<nat>, g: seq<nat>, k: nat, j: int) {
    0 <= j < |ids| && j < |g| && ids[j] == k && k in m && m[k] == g[j]
  }

  lemma DistinctAdd(ids: seq<nat>, id: nat)
    ensures DistinctIds(ids + [id]) <==> DistinctIds(ids) && id !in ids
  {
    var ids' := ids + [id];
    if DistinctIds(ids') {
      forall i, j | 0 <= i < j < |ids| ensures ids[i] != ids[j] { assert ids'[i] == ids[i] && ids'[j] == ids[j]; }
      forall j | 0 <= j < |ids| ensures ids[j] != id { assert ids'[j] == ids[j] && ids'[|ids|] == id; }
    }
  }

  lemma SlotMapAdd(m: map<nat, nat>, ids: seq<nat>, g: seq<nat>, id: nat)
    requires IsSlotMap(m, ids, g) && |ids| < |g| && |m| <= |ids| && (|m| == |ids| <==> DistinctIds(ids))
    ensures var m' := m[id := g[|ids|]];
            && IsSlotMap(m', ids + [id], g)
            && |m'| <= |ids| + 1 && (|m'| == |ids| + 1 <==> DistinctIds(ids + [id]))
  {
    hide DistinctIds;
    var m' := m[id := g[|ids|]];
    assert m'.Keys == m.Keys + {id};
    assert |m'| == |m'.Keys| && |m| == |m.Keys|;
    DistinctAdd(ids, id);
    assert id in m <==> id in ids by { if id in m { assert FromIds(m, ids, g, id); } }
    SlotMapGrows(m, ids, g, id);
  }

  lemma SlotMapGrows(m: map<nat, nat>, ids: seq<nat>, g: seq<nat>, id: nat)
    requires IsSlotMap(m, ids, g) && |ids| < |g|
    ensures IsSlotMap(m[id := g[|ids|]], ids + [id], g)
  {
    var m', ids' := m[id := g[|ids|]], ids + [id];
    forall k | k in m' ensures FromIds(m', ids', g, k) {
      if k == id {
        assert FromId(m', ids', g, k, |ids|);
      } else {
        assert FromIds(m, ids, g, k);
        var j :| FromId(m, ids, g, k, j);
        assert FromId(m', ids', g, k, j);
      }
    }
  }

  /** Walks over filled slots to the gap for the i-th short id, in 16-bit arithmetic. */
  method NextGap(avail: Slots, i: nat, offset0: nat) returns (offset: nat, slot: nat)
    requires |avail| <= U16 && i < |Gaps(avail)| && i + offset0 <= Gaps(avail)[i]
    requires i > 0 ==> Gaps(avail)[i - 1] < i + offset0
    ensures slot == i + offset == Gaps(avail)[i]
  {
    hide Gaps;
    GapsFacts(avail);
    ghost var g := Gaps(avail);
    offset := offset0;
    while avail[i + offset].Some?
      invariant i + offset <= g[i]
      invariant i > 0 ==> g[i - 1] < i + offset
      decreases g[i] - (i + offset)
    {
      offset := (offset + 1) % U16;
    }
    GapIsNext(avail, i, i + offset);
    slot := (i + offset) % U16;
  }

  /** `crowded(i)` says that the hash table's bucket of the i-th id holds more than 12 entries. */
  method MapShortIds(a: Announcement, avail: Slots, crowded: nat -> bool) returns (status: Status, ids: map<nat, nat>)
    requires |avail| <= U16 && |Gaps(avail)| == |a.shortIds|
    ensures status == Okay || status == Failed
    ensures status == Okay ==> DistinctIds(a.shortIds) && IsSlotMap(ids, a.shortIds, Gaps(avail)) && |ids| == |a.shortIds|
    ensures status == Failed <==> !DistinctIds(a.shortIds) || exists i :: 0 <= i < |a.shortIds| && crowded(i)
  {
    hide Gaps, IsSlotMap, DistinctIds, Increasing;
    ids := map[];
    ghost var g := Gaps(avail);
    GapsFacts(avail);
    GapsClimb(g);
    EmptySlotMap(g);
    assert a.shortIds[..0] == [];
    var offset := 0;
    var i := 0;
    while i < |a.shortIds|
      invariant 0 <= i <= |a.shortIds|
      invariant i > 0 ==> i + offset == g[i - 1] + 1
      invariant i == 0 ==> offset == 0
      invariant IsSlotMap(ids, a.shortIds[..i], g)
      invariant |ids| <= i && (|ids| == i <==> DistinctIds(a.shortIds[..i]))
      invariant forall j :: 0 <= j < i ==> !crowded(j)
    {
      var slot;
      offset, slot := NextGap(avail, i, offset);
      SlotMapAdd(ids, a.shortIds[..i], g, a.shortIds[i]);
      assert a.shortIds[..i + 1] == a.shortIds[..i] + [a.shortIds[i]];
      ids := ids[a.shortIds[i] := slot];
      if crowded(i) {
        return Failed, ids;
      }
      i := i + 1;
    }
    assert a.shortIds[..|a.shortIds|] == a.shortIds;
    if |ids| != |a.shortIds| {
      return Failed, ids;
    }
    status := Okay;
  }

  lemma GapsClimb(g: seq<nat>)
    requires Increasing(g)
    ensures forall i :: 0 < i < |g| ==> g[i - 1] < g[i]
    ensures forall i :: 0 <= i < |g| ==> i <= g[i]
  {
    forall i | 0 <= i < |g| ensures i <= g[i] { IndexBelow(g, i); }
  }

  lemma {:induction false} IndexBelow(g: seq<nat>, i: nat)
    requires Increasing(g) && i < |g|
    ensures i <= g[i]
  {
    if i > 0 { IndexBelow(g, i - 1); }
  }

  lemma EmptySlotMap(g: seq<nat>)
    ensures IsSlotMap(map[], [], g) && DistinctIds([])
  {}

  lemma GapIsNext(s: Slots, i: nat, p: nat)
    requires i < |Gaps(s)| && p <= Gaps(s)[i] && p < |s| && s[p].None? && (i > 0 ==> Gaps(s)[i - 1] < p)
    ensures p == Gaps(s)[i]
  {
    hide Gaps;
    GapsFacts(s);
    var g := Gaps(s);
    assert p in g;
    var j :| 0 <= j < |g| && g[j] == p;
  }

  // ---------------------------------------------------------------- looking in the pools

  /** A hash and the transaction it was stored under; an unused extra slot has none. */
  type Source = seq<(nat, Option<Tx>)>

  /** Entry e claims slot p. */
  ghost predicate Claims(ids: map<nat, nat>, sid: nat -> nat, e: (nat, Option<Tx>), p: nat) {
    sid(e.0) in ids && ids[sid(e.0)] == p
  }

  /** What is in a slot was prefilled or comes from one of the first m entries, which claims the slot. */
  ghost predicate Vouched(before: Slots, avail: Slots, ids: map<nat, nat>, sid: nat -> nat, src: Source, m: nat)
    requires m <= |src|
  {
    && |avail| == |before|
    && (forall p :: 0 <= p < |avail| && before[p].Some? ==> avail[p] == before[p])
    && (forall p :: 0 <= p < |avail| && before[p].None? && avail[p].Some? ==>
          exists i :: 0 <= i < m && Claims(ids, sid, src[i], p) && src[i].1 == avail[p])
  }

  ghost predicate SlotMapOk(before: Slots, ids: map<nat, nat>) {
    && (forall k :: k in ids ==> ids[k] < |before| && before[ids[k]].None?)
    && (forall k, l :: k in ids && l in ids && ids[k] == ids[l] ==> k == l)
  }

  ghost function HaveSet(have: seq<bool>): set<nat> { set p | 0 <= p < |have| && have[p] }

  /** No two entries fight for a slot. */
  ghost predicate Clean(ids: map<nat, nat>, sid: nat -> nat, src: Source, nPool: nat) {
    && (forall i, j :: 0 <= i < |src| && 0 <= j < |src| && sid(src[i].0) in ids && sid(src[i].0) == sid(src[j].0) ==>
          src[i].1 == src[j].1)
    && (forall i, j :: 0 <= i < j < nPool && j < |src| && sid(src[i].0) in ids ==> sid(src[i].0) != sid(src[j].0))
  }

  /** The bookkeeping when no two entries fight: `have` marks the filled slots and `count` counts them. */
  ghost predicate Tallied(avail: Slots, have: seq<bool>, count: int, ids: map<nat, nat>, sid: nat -> nat, src: Source, n: nat)
    requires n <= |src|
  {
    && |have| == |avail|
    && (forall p :: 0 <= p < |have| && have[p] ==> avail[p].Some? && exists k :: k in ids && ids[k] == p)
    && (forall i :: 0 <= i < n && sid(src[i].0) in ids ==> ids[sid(src[i].0)] < |have| && have[ids[sid(src[i].0)]])
    && count == |HaveSet(have)|
  }

  lemma VouchedBy(before: Slots, avail: Slots, ids: map<nat, nat>, sid: nat -> nat, src: Source, m: nat, i: nat, p: nat)
    requires i < m <= |src| && Vouched(before, avail, ids, sid, src, m) && SlotMapOk(before, ids)
    requires Claims(ids, sid, src[i], p)
    ensures p < |avail| && before[p].None?
    ensures Vouched(before, avail[p := src[i].1], ids, sid, src, m) && Vouched(before, avail[p := None], ids, sid, src, m)
  {}

  lemma HaveSetAdd(have: seq<bool>, p: nat)
    requires p < |have| && !have[p]
    ensures |HaveSet(have[p := true])| == |HaveSet(have)| + 1
  {
    assert HaveSet(have[p := true]) == HaveSet(have) + {p};
  }

  /** A free slot is taken by a claim. */
  lemma TallyTake(before: Slots, avail: Slots, have: seq<bool>, count: int, ids: map<nat, nat>, sid: nat -> nat, src: Source, n: nat, p: nat)
    requires n < |src| && SlotMapOk(before, ids) && |avail| == |before| == |have|
    requires Claims(ids, sid, src[n], p) && p < |have| && !have[p] && src[n].1.Some?
    ensures Tallied(avail, have, count, ids, sid, src, n) ==>
              Tallied(avail[p := src[n].1], have[p := true], count + 1, ids, sid, src, n + 1)
  {
    HaveSetAdd(have, p);
  }

  /** Whoever claims a slot that is already marked brings the very same transaction. */
  lemma SameClaim(before: Slots, avail: Slots, have: seq<bool>, count: int, ids: map<nat, nat>, sid: nat -> nat, src: Source,
                  nPool: nat, n: nat, m: nat, p: nat)
    requires n < |src| && m <= |src| && SlotMapOk(before, ids) && |have| == |avail| == |before|
    requires Vouched(before, avail, ids, sid, src, m) && (n < nPool ==> m == n)
    requires Claims(ids, sid, src[n], p) && p < |have| && have[p]
    ensures Clean(ids, sid, src, nPool) && Tallied(avail, have, count, ids, sid, src, n) ==>
              avail[p] == src[n].1 && n >= nPool && Tallied(avail, have, count, ids, sid, src, n + 1)
  {
    if Clean(ids, sid, src, nPool) && Tallied(avail, have, count, ids, sid, src, n) {
      assert before[p].None? && avail[p].Some?;
      var i :| 0 <= i < m && Claims(ids, sid, src[i], p) && src[i].1 == avail[p];
      assert sid(src[i].0) == sid(src[n].0);
    }
  }

  lemma VouchedMore(before: Slots, avail: Slots, ids: map<nat, nat>, sid: nat -> nat, src: Source, m: nat, m': nat)
    requires m <= m' <= |src| && Vouched(before, avail, ids, sid, src, m)
    ensures Vouched(before, avail, ids, sid, src, m')
  {}

  /**
   One entry of the scan: the mempool loop gives a contested slot up, the extra
   loop does so only if the transaction there differs.
   */
  method ScanEntry(ghost before: Slots, avail0: Slots, have0: seq<bool>, count0: int, ids: map<nat, nat>, sid: nat -> nat,
                   src: Source, ghost nPool: nat, n: nat, fromMempool: bool)
    returns (avail: Slots, have: seq<bool>, count: int)
    requires n < |src| && SlotMapOk(before, ids) && |have0| == |avail0| == |before|
    requires Vouched(before, avail0, ids, sid, src, if fromMempool then n else |src|)
    requires src[n].1.None? ==> sid(src[n].0) !in ids
    requires fromMempool == (n < nPool)
    ensures Vouched(before, avail, ids, sid, src, if fromMempool then n + 1 else |src|) && |have| == |avail| == |before|
    ensures Clean(ids, sid, src, nPool) && Tallied(avail0, have0, count0, ids, sid, src, n) ==>
              Tallied(avail, have, count, ids, sid, src, n + 1)
  {
    hide Vouched, Tallied, SlotMapOk, Clean;
    avail, have, count := avail0, have0, count0;
    ghost var m := if fromMempool then n + 1 else |src|;
    VouchedMore(before, avail, ids, sid, src, if fromMempool then n else |src|, m);
    if sid(src[n].0) in ids {
      var p := ids[sid(src[n].0)];
      VouchedBy(before, avail, ids, sid, src, m, n, p);
      if !have[p] {
        TallyTake(before, avail, have, count, ids, sid, src, n, p);
        avail, have, count := avail[p := src[n].1], have[p := true], count + 1;
      } else {
        SameClaim(before, avail, have, count, ids, sid, src, nPool, n, if fromMempool then n else |src|, p);
        if avail[p].Some? && (fromMempool || avail[p].value.witnessHash != src[n].1.value.witnessHash) {
          avail := avail[p := None];
          count := count - 1;
        }
      }
    } else {
      TallySkip(avail, have, count, ids, sid, src, n);
    }
  }

  lemma TallySkip(avail: Slots, have: seq<bool>, count: int, ids: map<nat, nat>, sid: nat -> nat, src: Source, n: nat)
    requires n < |src| && sid(src[n].0) !in ids
    ensures Tallied(avail, have, count, ids, sid, src, n) ==> Tallied(avail, have, count, ids, sid, src, n + 1)
  {}

  ghost predicate AllFound(avail: Slots, ids: map<nat, nat>, sid: nat -> nat, src: Source) {
    forall i :: 0 <= i < |src| && sid(src[i].0) in ids ==>
      ids[sid(src[i].0)] < |avail| && avail[ids[sid(src[i].0)]].Some?
  }

  /** Once as many slots are filled as there are ids, no later entry can matter. */
  lemma FullIsFound(before: Slots, avail: Slots, have: seq<bool>, ids: map<nat, nat>, sid: nat -> nat, src: Source, n: nat)
    requires n <= |src| && Tallied(avail, have, |ids|, ids, sid, src, n) && SlotMapOk(before, ids) && |avail| == |before|
    ensures Tallied(avail, have, |ids|, ids, sid, src, |src|)
  {
    var slots := SlotSet(ids);
    SlotCount(ids);
    assert HaveSet(have) <= slots;
    SubsetIsAll(HaveSet(have), slots);
    forall i | 0 <= i < |src| && sid(src[i].0) in ids
      ensures ids[sid(src[i].0)] < |have| && have[ids[sid(src[i].0)]]
    {
      assert ids[sid(src[i].0)] in HaveSet(have);
    }
  }

  lemma FullIsFoundIf(before: Slots, avail: Slots, have: seq<bool>, count: int, ids: map<nat, nat>, sid: nat -> nat, src: Source, n: nat, n': nat)
    requires n <= |src| && n' <= |src| && SlotMapOk(before, ids) && |avail| == |before|
    ensures Tallied(avail, have, count, ids, sid, src, n) && (count == |ids| || n == n') ==>
              Tallied(avail, have, count, ids, sid, src, n')
  {
    if Tallied(avail, have, count, ids, sid, src, n) && count == |ids| {
      FullIsFound(before, avail, have, ids, sid, src, n);
    }
  }

  lemma TalliedIsFound(avail: Slots, have: seq<bool>, count: int, ids: map<nat, nat>, sid: nat -> nat, src: Source)
    ensures Tallied(avail, have, count, ids, sid, src, |src|) ==> AllFound(avail, ids, sid, src)
  {}

  ghost function SlotSet(ids: map<nat, nat>): set<nat> { set k | k in ids :: ids[k] }

  lemma {:induction false} SlotCount(ids: map<nat, nat>)
    ensures |SlotSet(ids)| <= |ids|
    decreases |ids|
  {
    if ids != map[] {
      var k :| k in ids;
      var rest := ids - {k};
      assert rest.Keys == ids.Keys - {k} && |rest.Keys| == |rest| && |ids.Keys| == |ids|;
      SlotCount(rest);
      SlotsWithout(ids, k);
    } else {
      assert SlotSet(ids) == {};
    }
  }

  lemma SlotsWithout(ids: map<nat, nat>, k: nat)
    requires k in ids
    ensures SlotSet(ids) == SlotSet(ids - {k}) + {ids[k]}
  {
    forall p | p in SlotSet(ids) && p != ids[k] ensures p in SlotSet(ids - {k}) {
      var l :| l in ids && ids[l] == p;
      assert l in ids - {k} && (ids - {k})[l] == p;
    }
  }

  lemma {:induction false} SubsetIsAll<T>(a: set<T>, b: set<T>)
    requires a <= b && |a| >= |b|
    ensures a == b
  {
    if a != {} {
      var x :| x in a;
      SubsetIsAll(a - {x}, b - {x});
    }
  }

  /** Both scans, each with its early exit: `src` is the mempool followed by the extra transactions. */
  method ScanPools(before: Slots, ids: map<nat, nat>, sid: nat -> nat, src: Source, nPool: nat) returns (avail: Slots)
    requires SlotMapOk(before, ids) && nPool <= |src|
    requires forall i :: 0 <= i < |src| && src[i].1.None? ==> sid(src[i].0) !in ids
    ensures Vouched(before, avail, ids, sid, src, |src|)
    ensures Clean(ids, sid, src, nPool) ==> AllFound(avail, ids, sid, src)
  {
    hide Vouched, Tallied, SlotMapOk, Clean, AllFound;
    avail := before;
    var have := seq(|before|, _ => false);
    var count := 0;
    ScanStart(before, have, ids, sid, src);
    var n := 0;
    while n < nPool
      invariant 0 <= n <= nPool && |have| == |avail| == |before|
      invariant Vouched(before, avail, ids, sid, src, n)
      invariant Clean(ids, sid, src, nPool) ==> Tallied(avail, have, count, ids, sid, src, n)
    {
      avail, have, count := ScanEntry(before, avail, have, count, ids, sid, src, nPool, n, true);
      n := n + 1;
      if count == |ids| {
        break;
      }
    }
    VouchedMore(before, avail, ids, sid, src, n, |src|);
    FullIsFoundIf(before, avail, have, count, ids, sid, src, n, nPool);
    n := nPool;
    while n < |src|
      invariant nPool <= n <= |src| && |have| == |avail| == |before|
      invariant Vouched(before, avail, ids, sid, src, |src|)
      invariant Clean(ids, sid, src, nPool) ==> Tallied(avail, have, count, ids, sid, src, n)
    {
      avail, have, count := ScanEntry(before, avail, have, count, ids, sid, src, nPool, n, false);
      n := n + 1;
      if count == |ids| {
        break;
      }
    }
    FullIsFoundIf(before, avail, have, count, ids, sid, src, n, |src|);
    TalliedIsFound(avail, have, count, ids, sid, src);
  }

  lemma ScanStart(before: Slots, have: seq<bool>, ids: map<nat, nat>, sid: nat -> nat, src: Source)
    requires have == seq(|before|, _ => false)
    ensures Vouched(before, before, ids, sid, src, 0) && Tallied(before, have, 0, ids, sid, src, 0)
  {
    assert HaveSet(have) == {};
  }

  /** The map of short ids sends different ids to different gaps. */
  lemma SlotMapIsOk(before: Slots, ids: map<nat, nat>, shortIds: seq<nat>)
    requires IsSlotMap(ids, shortIds, Gaps(before)) && DistinctIds(shortIds)
    ensures SlotMapOk(before, ids)
    ensures forall j :: 0 <= j < |shortIds| ==> shortIds[j] in ids && ids[shortIds[j]] == Gaps(before)[j]
  {
    hide Gaps;
    GapsFacts(before);
    var g := Gaps(before);
    forall k, l | k in ids && l in ids && ids[k] == ids[l] ensures k == l {
      assert FromIds(ids, shortIds, g, k) && FromIds(ids, shortIds, g, l);
      var i :| FromId(ids, shortIds, g, k, i);
      var j :| FromId(ids, shortIds, g, l, j);
      assert g[i] == g[j];
    }
    forall k | k in ids ensures ids[k] < |before| && before[ids[k]].None? {
      assert FromIds(ids, shortIds, g, k);
      var i :| FromId(ids, shortIds, g, k, i);
      assert g[i] == ids[k];
    }
    forall j | 0 <= j < |shortIds| ensures shortIds[j] in ids && ids[shortIds[j]] == g[j] {
      assert FromIds(ids, shortIds, g, shortIds[j]);
      var i :| FromId(ids, shortIds, g, shortIds[j], i);
    }
  }

  // ---------------------------------------------------------------- the index list of a request


  /** What is written for the i-th index, an unsigned 64-bit difference. */
  function Difference(indexes: seq<nat>, i: nat): nat
    requires i < |indexes|
  {
    (indexes[i] - (if i == 0 then 0 else indexes[i - 1] + 1)) % U64
  }

  method EncodeIndexes(indexes: seq<nat>) returns (wire: seq<nat>)
    ensures |wire| == |indexes| && forall i :: 0 <= i < |wire| ==> wire[i] == Difference(indexes, i)
  {
    wire := [];
    while |wire| < |indexes|
      invariant |wire| <= |indexes| && forall i :: 0 <= i < |wire| ==> wire[i] == Difference(indexes, i)
    {
      var i := |wire|;
      wire := wire + [(indexes[i] - (if i == 0 then 0 else indexes[i - 1] + 1)) % U64];
    }
  }

  /** The running offset after the first n indexes, 16 bits wide. */
  function Offset(indexes: seq<nat>, n: nat): nat
    requires n <= |indexes|
  {
    if n == 0 then 0 else (indexes[n - 1] + 1) % U16
  }

  /** `indexes` is what the decoder makes of `wire`. */
  ghost predicate Decodes(wire: seq<nat>, indexes: seq<nat>, n: nat)
    requires n <= |indexes| == |wire|
  {
    forall j :: 0 <= j < n ==> DecodesAt(wire, indexes, j)
  }

  ghost predicate DecodesAt(wire: seq<nat>, indexes: seq<nat>, j: nat)
    requires j < |indexes| == |wire|
  {
    wire[j] < U16 && wire[j] + Offset(indexes, j) < U16 && indexes[j] == wire[j] + Offset(indexes, j)
  }

  /** The decoder works in place and throws, here None, on anything that leaves 16 bits. */
  method DecodeIndexes(wire: seq<nat>) returns (r: Option<seq<nat>>)
    ensures r.Some? ==> |r.value| == |wire| && Decodes(wire, r.value, |wire|)
    ensures r.None? ==> !exists l: seq<nat> :: |l| == |wire| && Decodes(wire, l, |wire|)
  {
    var indexes: seq<nat> := [];
    while |indexes| < |wire|
      invariant |indexes| <= |wire| && indexes == wire[..|indexes|]
      invariant forall j :: 0 <= j < |indexes| ==> wire[j] < U16
    {
      if wire[|indexes|] > U16 - 1 {
        ghost var k := |indexes|;
        forall l: seq<nat> | |l| == |wire| ensures !Decodes(wire, l, |wire|) { assert !DecodesAt(wire, l, k); }
        return None;
      }
      indexes := indexes + [wire[|indexes|]];
    }
    var offset := 0;
    var j := 0;
    while j < |indexes|
      invariant 0 <= j <= |indexes| == |wire| && offset == Offset(indexes, j)
      invariant Decodes(wire, indexes, j)
      invariant forall k :: j <= k < |wire| ==> indexes[k] == wire[k] < U16
    {
      if indexes[j] + offset > U16 - 1 {
        NoDecoding(wire, indexes, j);
        return None;
      }
      ghost var before := indexes;
      indexes := indexes[j := indexes[j] + offset];
      assert forall k :: 0 <= k <= j ==> Offset(indexes, k) == Offset(before, k);
      assert forall k :: 0 <= k < j ==> DecodesAt(wire, before, k) ==> DecodesAt(wire, indexes, k);
      assert DecodesAt(wire, indexes, j);
      offset := (indexes[j] + 1) % U16;
      j := j + 1;
    }
    r := Some(indexes);
  }

  lemma {:induction false} DecodesOnce(wire: seq<nat>, a: seq<nat>, b: seq<nat>, n: nat)
    requires n <= |wire| == |a| == |b| && Decodes(wire, a, n) && Decodes(wire, b, n)
    ensures a[..n] == b[..n] && Offset(a, n) == Offset(b, n)
  {
    if n > 0 {
      DecodesOnce(wire, a, b, n - 1);
      assert DecodesAt(wire, a, n - 1) && DecodesAt(wire, b, n - 1);
      assert a[..n] == a[..n - 1] + [a[n - 1]] && b[..n] == b[..n - 1] + [b[n - 1]];
    }
  }

  lemma NoDecoding(wire: seq<nat>, b: seq<nat>, j: nat)
    requires j < |wire| == |b| && Decodes(wire, b, j) && wire[j] + Offset(b, j) >= U16
    ensures !exists l: seq<nat> :: |l| == |wire| && Decodes(wire, l, |wire|)
  {
    forall l: seq<nat> | |l| == |wire| ensures !Decodes(wire, l, |wire|) {
      if Decodes(wire, l, |wire|) {
        assert DecodesAt(wire, l, j);
        DecodesOnce(wire, l, b, j);
        assert false;
      }
    }
  }

  lemma DifferenceFacts(indexes: seq<nat>, i: nat)
    requires i < |indexes| && indexes[i] < U16 && (i > 0 ==> indexes[i - 1] < U16)
    ensures i == 0 ==> Difference(indexes, i) == indexes[i]
    ensures i > 0 && indexes[i - 1] < indexes[i] ==> Difference(indexes, i) == indexes[i] - indexes[i - 1] - 1
    ensures i > 0 && indexes[i - 1] >= indexes[i] ==> Difference(indexes, i) >= U16
  {
    if i > 0 && indexes[i - 1] >= indexes[i] {
      var d: int := indexes[i] as int - indexes[i - 1] - 1;
      assert d % U64 == (d + U64) % U64 == d + U64;
    }
  }

  /** The codec gives a list back exactly when it is strictly increasing. */
  lemma CodecRoundTrip(indexes: seq<nat>, wire: seq<nat>)
    requires forall i :: 0 <= i < |indexes| ==> indexes[i] < U16
    requires |wire| == |indexes| && forall i :: 0 <= i < |wire| ==> wire[i] == Difference(indexes, i)
    ensures Decodes(wire, indexes, |wire|) <==> Increasing(indexes)
  {
    hide Difference;
    if Decodes(wire, indexes, |wire|) {
      forall j | 0 < j < |indexes| ensures indexes[j - 1] < indexes[j] {
        DifferenceFacts(indexes, j);
        assert DecodesAt(wire, indexes, j);
      }
      StepsIncrease(indexes);
    }
    if Increasing(indexes) {
      forall j | 0 <= j < |wire| ensures DecodesAt(wire, indexes, j) {
        DifferenceFacts(indexes, j);
        if j > 0 { assert indexes[j - 1] < indexes[j]; }
      }
    }
  }

  lemma StepsIncrease(l: seq<nat>)
    requires forall j :: 0 < j < |l| ==> l[j - 1] < l[j]
    ensures Increasing(l)
  {
    forall i, j | 0 <= i < j < |l| ensures l[i] < l[j] { StepsIncreaseTo(l, i, j); }
  }

  lemma {:induction false} StepsIncreaseTo(l: seq<nat>, i: nat, j: nat)
    requires i < j < |l| && forall j :: 0 < j < |l| ==> l[j - 1] < l[j]
    ensures l[i] < l[j]
  {
    if i + 1 < j { StepsIncreaseTo(l, i, j - 1); }
  }

  // ---------------------------------------------------------------- the receiver's object

  /** CheckBlock's verdict on a rebuilt block. */
  datatype Verdict = Good | Bad | CorruptionPossible

  /** The slots are filled by `missing` in order and by what was there. */
  ghost predicate Completes(avail: Slots, missing: seq<Tx>, vtx: seq<Tx>) {
    && |vtx| == |avail| && |missing| == |Gaps(avail)|
    && (forall p :: 0 <= p < |avail| && avail[p].Some? ==> vtx[p] == avail[p].value)
    && (forall j :: 0 <= j < |missing| ==> Gaps(avail)[j] < |vtx| && vtx[Gaps(avail)[j]] == missing[j])
  }

  class PartiallyDownloadedBlock {
    var txn_available: Slots
    var headerIsNull: bool

    constructor ()
      ensures txn_available == [] && headerIsNull
    {
      txn_available, headerIsNull := [], true;
    }

    /**
     From an announcement whose slots 16 bits can name, or one that is refused for its size; `before`
     shows the slots as the prefilled transactions left them.
     */
    method InitData(a: Announcement, sid: nat -> nat, src: Source, nPool: nat, crowded: nat -> bool)
      returns (status: Status, ghost before: Slots)
      requires headerIsNull && txn_available == [] && nPool <= |src|
      requires |a.shortIds| + |a.prefilled| <= U16 || |a.shortIds| + |a.prefilled| > MAX_TXN
      requires forall i :: 0 <= i < |src| && src[i].1.None? ==> sid(src[i].0) !in a.shortIds
      modifies this
      ensures status != CheckBlockFailed
      ensures status == Okay ==>
                && !headerIsNull && Placed(before, a.prefilled, |a.prefilled|)
                && |Gaps(before)| == |a.shortIds| && |txn_available| == |before| == |a.shortIds| + |a.prefilled|
                && SlotsMatch(before, txn_available, a.shortIds, sid, src)
                && (Unambiguous(a.shortIds, sid, src, nPool) ==> SlotsFound(before, txn_available, a.shortIds, sid, src))
      ensures status == Invalid <==>
                || a.headerIsNull || (a.shortIds == [] && a.prefilled == []) || |a.shortIds| + |a.prefilled| > MAX_TXN
                || exists i :: 0 <= i < |a.prefilled| && !Placeable(a, i)
      ensures status == Failed <==>
                status != Invalid && (!DistinctIds(a.shortIds) || exists i :: 0 <= i < |a.shortIds| && crowded(i))
    {
      hide Gaps, Placed, IsSlotMap, DistinctIds, Placeable, SlotMapOk, Clean, Vouched, AllFound;
      before := [];
      if a.headerIsNull || (a.shortIds == [] && a.prefilled == []) {
        return Invalid, before;
      }
      if |a.shortIds| + |a.prefilled| > MAX_TXN {
        return Invalid, before;
      }
      headerIsNull := false;
      var avail, ids;
      status, avail := PlacePrefilled(a);
      before := avail;
      txn_available := avail;
      if status != Okay {
        return;
      }
      status, ids := MapShortIds(a, avail, crowded);
      if status != Okay {
        return;
      }
      SlotMapIsOk(before, ids, a.shortIds);
      IdsAreShort(ids, a.shortIds, Gaps(before));
      txn_available := ScanPools(avail, ids, sid, src, nPool);
      MatchFromVouched(before, txn_available, ids, a.shortIds, sid, src);
      if Unambiguous(a.shortIds, sid, src, nPool) {
        CleanFromUnambiguous(ids, a.shortIds, Gaps(before), sid, src, nPool);
        FoundFromAll(before, txn_available, ids, a.shortIds, sid, src);
      }
    }

    /** Whether a slot need not be asked for. */
    method IsTxAvailable(index: nat) returns (r: bool)
      requires !headerIsNull && index < |txn_available|
      ensures r <==> index !in Gaps(txn_available)
    {
      GapsFacts(txn_available);
      r := txn_available[index].Some?;
    }

    /** The indexes to ask for. */
    method MissingIndexes() returns (indexes: seq<nat>)
      requires !headerIsNull
      ensures indexes == Gaps(txn_available)
    {
      indexes := [];
      var i := 0;
      while i < |txn_available|
        invariant 0 <= i <= |txn_available|
        invariant indexes == Gaps(txn_available[..i])
      {
        assert txn_available[..i + 1][..i] == txn_available[..i];
        GapsFacts(txn_available);
        var available := IsTxAvailable(i);
        if !available {
          indexes := indexes + [i];
        }
        i := i + 1;
      }
      assert txn_available[..|txn_available|] == txn_available;
    }

    method FillBlock(vtx_missing: seq<Tx>, checkBlock: seq<Tx> -> Verdict) returns (status: Status, vtx: seq<Tx>)
      requires !headerIsNull
      modifies this
      ensures |vtx_missing| != |Gaps(old(txn_available))| <==> status == Invalid
      ensures status != Invalid ==>
                && headerIsNull && txn_available == []
                && Completes(old(txn_available), vtx_missing, vtx)
                && status == (match checkBlock(vtx) case Good => Okay case Bad => CheckBlockFailed case CorruptionPossible => Failed)
    {
      var avail := txn_available;
      assert avail[..0] == [];
      vtx := [];
      var offset := 0;
      while |vtx| < |avail|
        invariant |vtx| <= |avail| && offset == |Gaps(avail[..|vtx|])| <= |vtx_missing|
        invariant Completes(avail[..|vtx|], vtx_missing[..offset], vtx)
      {
        GapsPrefix(avail, |vtx| + 1);
        CompletesNext(avail, vtx_missing, vtx, offset);
        if avail[|vtx|].None? {
          if |vtx_missing| <= offset {
            status := Invalid;
            return;
          }
          vtx := vtx + [vtx_missing[offset]];
          offset := offset + 1;
        } else {
          vtx := vtx + [avail[|vtx|].value];
        }
      }
      assert avail[..|avail|] == avail;
      headerIsNull := true;
      txn_available := [];
      if |vtx_missing| != offset {
        return Invalid, vtx;
      }
      assert vtx_missing[..offset] == vtx_missing;
      match checkBlock(vtx) {
        case Good => status := Okay;
        case Bad => status := CheckBlockFailed;
        case CorruptionPossible => status := Failed;
      }
    }
  }

  lemma {:induction false} GapsPrefix(s: Slots, n: nat)
    requires n <= |s|
    ensures |Gaps(s[..n])| <= |Gaps(s)|
    ensures n > 0 ==> Gaps(s[..n]) == Gaps(s[..n - 1]) + if s[n - 1].None? then [n - 1] else []
    decreases |s| - n
  {
    if n < |s| {
      GapsPrefix(s, n + 1);
      assert s[..n + 1][..n] == s[..n];
    } else {
      assert s[..n] == s;
    }
    if n > 0 { assert s[..n][..n - 1] == s[..n - 1]; }
  }

  lemma CompletesNext(avail: Slots, missing: seq<Tx>, vtx: seq<Tx>, offset: nat)
    requires |vtx| < |avail| && offset <= |missing| && Completes(avail[..|vtx|], missing[..offset], vtx)
    ensures avail[|vtx|].Some? ==> Completes(avail[..|vtx| + 1], missing[..offset], vtx + [avail[|vtx|].value])
    ensures avail[|vtx|].None? && offset < |missing| ==>
              Completes(avail[..|vtx| + 1], missing[..offset + 1], vtx + [missing[offset]])
  {
    GapsPrefix(avail, |vtx| + 1);
    hide Gaps;
  }

  // ---------------------------------------------------------------- from the maps to the short ids

  /** What sits in the i-th gap came from an entry with the i-th short id. */
  ghost predicate SlotsMatch(before: Slots, avail: Slots, shortIds: seq<nat>, sid: nat -> nat, src: Source)
    requires |Gaps(before)| == |shortIds| && |avail| == |before|
  {
    && (forall p :: 0 <= p < |avail| && before[p].Some? ==> avail[p] == before[p])
    && (forall j :: 0 <= j < |shortIds| ==> GapAt(before, j) < |avail| && MatchedAt(avail[GapAt(before, j)], shortIds[j], sid, src))
  }

  ghost function GapAt(s: Slots, j: nat): nat
    requires j < |Gaps(s)|
  {
    Gaps(s)[j]
  }

  ghost predicate MatchedAt(slot: Option<Tx>, shortId: nat, sid: nat -> nat, src: Source) {
    slot.Some? ==> exists i :: 0 <= i < |src| && sid(src[i].0) == shortId && src[i].1 == slot
  }

  /** Whatever the pools have is not asked for again. */
  ghost predicate SlotsFound(before: Slots, avail: Slots, shortIds: seq<nat>, sid: nat -> nat, src: Source)
    requires |Gaps(before)| == |shortIds| && |avail| == |before|
  {
    forall i, j :: 0 <= i < |src| && 0 <= j < |shortIds| && sid(src[i].0) == shortIds[j] ==>
      GapAt(before, j) < |avail| && avail[GapAt(before, j)].Some?
  }

  /** Entries with the same announced short id are the same transaction, and the mempool has each once. */
  ghost predicate Unambiguous(shortIds: seq<nat>, sid: nat -> nat, src: Source, nPool: nat) {
    && (forall i, j :: 0 <= i < |src| && 0 <= j < |src| && sid(src[i].0) in shortIds && sid(src[i].0) == sid(src[j].0) ==>
          src[i].1 == src[j].1)
    && (forall i, j :: 0 <= i < j < nPool && j < |src| && sid(src[i].0) in shortIds ==> sid(src[i].0) != sid(src[j].0))
  }

  lemma IdsAreShort(ids: map<nat, nat>, shortIds: seq<nat>, g: seq<nat>)
    requires IsSlotMap(ids, shortIds, g)
    ensures forall k :: k in ids <==> k in shortIds
  {}

  lemma CleanFromUnambiguous(ids: map<nat, nat>, shortIds: seq<nat>, g: seq<nat>, sid: nat -> nat, src: Source, nPool: nat)
    requires IsSlotMap(ids, shortIds, g) && Unambiguous(shortIds, sid, src, nPool)
    ensures Clean(ids, sid, src, nPool)
  {
    IdsAreShort(ids, shortIds, g);
  }

  lemma MatchFromVouched(before: Slots, avail: Slots, ids: map<nat, nat>, shortIds: seq<nat>, sid: nat -> nat, src: Source)
    requires |Gaps(before)| == |shortIds| && Vouched(before, avail, ids, sid, src, |src|) && SlotMapOk(before, ids)
    requires forall j :: 0 <= j < |shortIds| ==> shortIds[j] in ids && ids[shortIds[j]] == Gaps(before)[j]
    ensures |avail| == |before| && SlotsMatch(before, avail, shortIds, sid, src)
  {
    hide Gaps;
    GapsFacts(before);
    forall j | 0 <= j < |shortIds| ensures GapAt(before, j) < |avail| && MatchedAt(avail[GapAt(before, j)], shortIds[j], sid, src) {
      var p := GapAt(before, j);
      if avail[p].Some? {
        var i :| 0 <= i < |src| && Claims(ids, sid, src[i], p) && src[i].1 == avail[p];
        assert sid(src[i].0) == shortIds[j];
      }
    }
  }

  lemma FoundFromAll(before: Slots, avail: Slots, ids: map<nat, nat>, shortIds: seq<nat>, sid: nat -> nat, src: Source)
    requires |Gaps(before)| == |shortIds| && |avail| == |before| && AllFound(avail, ids, sid, src)
    requires forall j :: 0 <= j < |shortIds| ==> shortIds[j] in ids && ids[shortIds[j]] == Gaps(before)[j]
    ensures SlotsFound(before, avail, shortIds, sid, src)
  {
    hide Gaps;
  }

  // ---------------------------------------------------------------- the whole exchange

  /** The sender's answer to a request; None where it calls the request out of bounds. */
  method SendBlockTransactions(vtx: seq<Tx>, indexes: seq<nat>) returns (r: Option<seq<Tx>>)
    ensures r.Some? <==> forall i :: 0 <= i < |indexes| ==> indexes[i] < |vtx|
    ensures r.Some? ==> |r.value| == |indexes| && forall i :: 0 <= i < |indexes| ==> r.value[i] == vtx[indexes[i]]
  {
    var txn: seq<Tx> := [];
    while |txn| < |indexes|
      invariant |txn| <= |indexes|
      invariant forall i :: 0 <= i < |txn| ==> indexes[i] < |vtx| && txn[i] == vtx[indexes[i]]
    {
      if indexes[|txn|] >= |vtx| {
        return None;
      }
      txn := txn + [vtx[indexes[|txn|]]];
    }
    r := Some(txn);
  }

  /** A short id of the block is hit only by its own hash, and that hash names its own transaction. */
  ghost predicate NoCollision(vtx: seq<Tx>, fUseWTXID: bool, sid: nat -> nat, src: Source) {
    && (forall i, j :: 0 < i < |vtx| && 0 <= j < |src| && sid(Key(vtx[i], fUseWTXID)) == sid(src[j].0) ==>
          Key(vtx[i], fUseWTXID) == src[j].0)
    && (forall i, j :: 0 < i < j < |vtx| ==> sid(Key(vtx[i], fUseWTXID)) != sid(Key(vtx[j], fUseWTXID)))
    && (forall i, j :: 0 < i < |vtx| && 0 <= j < |src| && src[j].0 == Key(vtx[i], fUseWTXID) ==> src[j].1 == Some(vtx[i]))
  }

  ghost predicate DistinctPool(src: Source, nPool: nat) {
    forall i, j :: 0 <= i < j < nPool && j < |src| ==> src[i].0 != src[j].0
  }

  lemma {:induction false} GapsAfterCoinbase(tx: Tx, n: nat)
    ensures var s: Slots := [Some(tx)] + seq(n, _ => None);
            |Gaps(s)| == n && forall j :: 0 <= j < n ==> Gaps(s)[j] == j + 1
  {
    var s: Slots := [Some(tx)] + seq(n, _ => None);
    if n > 0 {
      assert s[..n] == [Some(tx)] + seq(n - 1, _ => None);
      GapsAfterCoinbase(tx, n - 1);
    } else {
      assert s[..0] == [];
    }
  }

  lemma HonestSlots(a: Announcement, before: Slots)
    requires |a.prefilled| == 1 && a.prefilled[0].index == 0 && |before| == |a.shortIds| + 1
    requires Placed(before, a.prefilled, 1)
    ensures before == [Some(a.prefilled[0].tx)] + seq(|a.shortIds|, _ => None)
    ensures |Gaps(before)| == |a.shortIds| && forall j :: 0 <= j < |a.shortIds| ==> GapAt(before, j) == j + 1
  {
    hide Gaps;
    assert PlaceOf(a.prefilled, 0) == 0;
    assert before == [Some(a.prefilled[0].tx)] + seq(|a.shortIds|, _ => None);
    GapsAfterCoinbase(a.prefilled[0].tx, |a.shortIds|);
  }

  /** Every slot of the receiver holds the sender's transaction or nothing, and nothing only if no pool has it. */
  ghost predicate SlotsAgree(vtx: seq<Tx>, fUseWTXID: bool, avail: Slots, src: Source) {
    && |avail| == |vtx| >= 1 && avail[0] == Some(vtx[0])
    && (forall i :: 0 < i < |vtx| ==>
          (avail[i] == None || avail[i] == Some(vtx[i]))
          && (avail[i].None? <==> forall j :: 0 <= j < |src| ==> src[j].0 != Key(vtx[i], fUseWTXID)))
  }

  lemma AgreeAfterInit(vtx: seq<Tx>, fUseWTXID: bool, sid: nat -> nat, src: Source, nPool: nat, before: Slots, avail: Slots)
    requires |vtx| >= 1 && NoCollision(vtx, fUseWTXID, sid, src) && nPool <= |src| && DistinctPool(src, nPool)
    requires var a := Announced(vtx, sid, fUseWTXID);
             && |avail| == |before| == |vtx| && Placed(before, a.prefilled, 1) && |Gaps(before)| == |a.shortIds|
             && SlotsMatch(before, avail, a.shortIds, sid, src)
             && (Unambiguous(a.shortIds, sid, src, nPool) ==> SlotsFound(before, avail, a.shortIds, sid, src))
    ensures SlotsAgree(vtx, fUseWTXID, avail, src)
  {
    hide Gaps, Placed, GapAt;
    var a := Announced(vtx, sid, fUseWTXID);
    HonestSlots(a, before);
    IsUnambiguous(vtx, fUseWTXID, sid, src, nPool);
    forall i | 0 < i < |vtx|
      ensures (avail[i] == None || avail[i] == Some(vtx[i]))
              && (avail[i].None? <==> forall j :: 0 <= j < |src| ==> src[j].0 != Key(vtx[i], fUseWTXID))
    {
      assert a.shortIds[i - 1] == sid(Key(vtx[i], fUseWTXID)) && GapAt(before, i - 1) == i;
      assert MatchedAt(avail[i], a.shortIds[i - 1], sid, src);
    }
  }

  lemma IsUnambiguous(vtx: seq<Tx>, fUseWTXID: bool, sid: nat -> nat, src: Source, nPool: nat)
    requires |vtx| >= 1 && NoCollision(vtx, fUseWTXID, sid, src) && nPool <= |src| && DistinctPool(src, nPool)
    ensures Unambiguous(Announced(vtx, sid, fUseWTXID).shortIds, sid, src, nPool)
    ensures DistinctIds(Announced(vtx, sid, fUseWTXID).shortIds)
    ensures forall j :: 0 <= j < |src| && src[j].1.None? ==> sid(src[j].0) !in Announced(vtx, sid, fUseWTXID).shortIds
  {
    var ids := Announced(vtx, sid, fUseWTXID).shortIds;
    forall j | 0 <= j < |src| && sid(src[j].0) in ids
      ensures exists i :: 0 < i < |vtx| && sid(src[j].0) == sid(Key(vtx[i], fUseWTXID)) && src[j] == (Key(vtx[i], fUseWTXID), Some(vtx[i]))
    {
      var k :| 0 <= k < |ids| && ids[k] == sid(src[j].0);
      assert ids[k] == sid(Key(vtx[k + 1], fUseWTXID));
    }
  }

  lemma FilledIsSame(vtx: seq<Tx>, fUseWTXID: bool, src: Source, avail: Slots, missing: seq<Tx>, block: seq<Tx>)
    requires SlotsAgree(vtx, fUseWTXID, avail, src) && Completes(avail, missing, block)
    requires forall j :: 0 <= j < |missing| ==> Gaps(avail)[j] < |vtx| && missing[j] == vtx[Gaps(avail)[j]]
    ensures block == vtx
  {
    hide Gaps;
    GapsFacts(avail);
    forall p | 0 <= p < |vtx| ensures block[p] == vtx[p] {
      if avail[p].None? {
        assert p in Gaps(avail);
        var j :| 0 <= j < |missing| && Gaps(avail)[j] == p;
      }
    }
  }

  /**
   Announce, initialize, request what is missing over the wire, answer, fill:
   the receiver ends with exactly the sender's transactions.
   */
  method Relay(vtx: seq<Tx>, fUseWTXID: bool, sid: nat -> nat, src: Source, nPool: nat, crowded: nat -> bool, checkBlock: seq<Tx> -> Verdict)
    returns (status: Status, block: seq<Tx>, requested: seq<nat>)
    requires 1 <= |vtx| <= U16 && !vtx[0].isNull && nPool <= |src|
    requires NoCollision(vtx, fUseWTXID, sid, src) && DistinctPool(src, nPool)
    ensures status != Invalid
    ensures status == Okay ==> block == vtx
    ensures status == Okay ==> forall i :: 0 <= i < |vtx| ==>
              (i in requested <==> i > 0 && forall j :: 0 <= j < |src| ==> src[j].0 != Key(vtx[i], fUseWTXID))
    ensures (forall i :: !crowded(i)) && checkBlock(vtx) == Good ==> status == Okay
  {
    hide Gaps, NoCollision, DistinctPool, Placed, SlotsMatch, SlotsFound, Unambiguous, DistinctIds, Completes, Decodes;
    block, requested := [], [];
    var a := Announce(vtx, sid, fUseWTXID);
    IsUnambiguous(vtx, fUseWTXID, sid, src, nPool);
    assert a.prefilled[0] == Prefilled(0, vtx[0]) && Placeable(a, 0);
    var partial := new PartiallyDownloadedBlock();
    ghost var before;
    status, before := partial.InitData(a, sid, src, nPool, crowded);
    if status != Okay {
      return;
    }
    AgreeAfterInit(vtx, fUseWTXID, sid, src, nPool, before, partial.txn_available);
    requested := partial.MissingIndexes();
    GapsFacts(partial.txn_available);
    var wire := EncodeIndexes(requested);
    CodecRoundTrip(requested, wire);
    var decoded := DecodeIndexes(wire);
    assert decoded.Some?;
    DecodesOnce(wire, decoded.value, requested, |wire|);
    assert decoded.value[..|wire|] == decoded.value && requested[..|wire|] == requested;
    var answer := SendBlockTransactions(vtx, decoded.value);
    assert answer.Some?;
    ghost var avail := partial.txn_available;
    status, block := partial.FillBlock(answer.value, checkBlock);
    FilledIsSame(vtx, fUseWTXID, src, avail, answer.value, block);
  }
}
