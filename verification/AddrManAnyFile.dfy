/**
 Reading an address file that this program need not have written (Unserialize in src/addrman.h):
 whatever the counts, versions, buckets and references say, reading succeeds, and what comes out fits
 together exactly when no count is negative and no entry that is kept shares its address.
 */
module AddrManAnyFile {
  import opened AddrMan
  import opened AddrManDisk

  ghost function Orphans(st: State): set<int> {
    set id | id in st.mapInfo && Orphan(st.mapInfo[id])
  }

  function IpOf(m: map<int, Info>, id: int): Ip
    requires id in m
  {
    m[id].addr.service.ip
  }

  // ---------------------------------------------------------------- the index by address

  /** The index by address has every address, and for each the entry that came last. */
  ghost predicate LastListed(mapAddr: map<Ip, int>, m: map<int, Info>) {
    && (forall id :: id in m ==> IpOf(m, id) in mapAddr && id <= IdOf(mapAddr, IpOf(m, id)))
    && (forall ip :: ip in mapAddr ==> IdOf(mapAddr, ip) in m && IpOf(m, IdOf(mapAddr, ip)) == ip)
  }

  lemma LastListedEnter(mapAddr: map<Ip, int>, m: map<int, Info>, id: int, i: Info)
    requires LastListed(mapAddr, m) && forall k :: k in m ==> k < id
    ensures LastListed(mapAddr[i.addr.service.ip := id], m[id := i])
  {}

  lemma LastListedFrame(mapAddr: map<Ip, int>, m: map<int, Info>, m': map<int, Info>)
    requires LastListed(mapAddr, m) && forall id :: id in m <==> id in m'
    requires forall id :: id in m ==> IpOf(m, id) == IpOf(m', id)
    ensures LastListed(mapAddr, m')
  {}

  /** Two entries with one address are both without a reference. */
  ghost predicate OnlyOrphansShare(m: map<int, Info>) {
    forall a, b :: a in m && b in m && a != b && IpOf(m, a) == IpOf(m, b) ==> Orphan(m[a]) && Orphan(m[b])
  }

  ghost function IpsOf(m: map<int, Info>, ids: set<int>): set<Ip> {
    set id | id in ids && id in m :: IpOf(m, id)
  }

  /** Dropping entries takes their addresses out of the index, also for those who share them. */
  lemma ListedIff(mapAddr: map<Ip, int>, m: map<int, Info>, gone: set<int>, m': map<int, Info>)
    requires LastListed(mapAddr, m) && gone == (set id | id in m && Orphan(m[id])) && SameButPositions(m - gone, m')
    ensures AddrOk(mapAddr - IpsOf(m, gone), m') <==> OnlyOrphansShare(m)
  {
    forall id ensures id in m' <==> id in m && id !in gone { assert id in m - gone <==> id in m'; }
    forall id | id in m' ensures IpOf(m', id) == IpOf(m, id) { assert id in m - gone; }
    if OnlyOrphansShare(m) {
      OthersListed(mapAddr, m, gone, m');
    } else {
      var a, b :| a in m && b in m && a != b && IpOf(m, a) == IpOf(m, b) && !(Orphan(m[a]) && Orphan(m[b]));
      var kept, other := if Orphan(m[a]) then b else a, if Orphan(m[a]) then a else b;
      SharedIsUnlisted(mapAddr, m, gone, m', kept, other);
    }
  }

  lemma OthersListed(mapAddr: map<Ip, int>, m: map<int, Info>, gone: set<int>, m': map<int, Info>)
    requires LastListed(mapAddr, m) && OnlyOrphansShare(m) && gone == set id | id in m && Orphan(m[id])
    requires forall id :: id in m' <==> id in m && id !in gone
    requires forall id :: id in m' ==> IpOf(m', id) == IpOf(m, id)
    ensures AddrOk(mapAddr - IpsOf(m, gone), m')
  {
    var rest := mapAddr - IpsOf(m, gone);
    forall id | id in m' ensures IpOf(m', id) in rest && IdOf(rest, IpOf(m', id)) == id {
      var last := IdOf(mapAddr, IpOf(m, id));
      assert forall other :: other in gone && other in m ==> IpOf(m, other) != IpOf(m, id);
    }
    forall ip | ip in rest ensures IdOf(rest, ip) in m' && IpOf(m', IdOf(rest, ip)) == ip {
      var last := IdOf(mapAddr, ip);
      assert last in gone ==> ip in IpsOf(m, gone);
    }
  }

  lemma SharedIsUnlisted(mapAddr: map<Ip, int>, m: map<int, Info>, gone: set<int>, m': map<int, Info>, kept: int, other: int)
    requires kept in m && other in m && kept != other && IpOf(m, kept) == IpOf(m, other) && kept !in gone
    requires forall id :: id in m' <==> id in m && id !in gone
    requires forall id :: id in m' ==> IpOf(m', id) == IpOf(m, id)
    ensures !AddrOk(mapAddr - IpsOf(m, gone), m')
  {
    var rest := mapAddr - IpsOf(m, gone);
    if other in gone {
      assert IpOf(m, kept) in IpsOf(m, gone);
      assert IpOf(m', kept) !in rest;
    } else {
      assert IpOf(m', kept) in rest ==> IdOf(rest, IpOf(m', kept)) != kept || IdOf(rest, IpOf(m', other)) != other;
    }
  }

  // ---------------------------------------------------------------- the new records

  /** The first n new records are in memory; the counters that the file announced are set aside. */
  ghost predicate NewPart(h: Hashes, d: Disk, st: State, n: nat) {
    && TablesOk(h, st.(nNew := n, nTried := 0, nIdCount := n), Orphans(st)) && LastListed(st.mapAddr, st.mapInfo)
    && (forall id :: id in st.mapInfo ==> id < n && !st.mapInfo[id].fInTried)
    && st.nNew == d.nNew && st.nTried == d.nTried
  }

  lemma NewPartEmpty(h: Hashes, d: Disk)
    ensures NewPart(h, d, Empty.(nNew := d.nNew, nTried := d.nTried), 0)
  {
    EmptyIsConsistent(h);
    hide TablesOk;
    assert Orphans(Empty.(nNew := d.nNew, nTried := d.nTried)) == {};
    assert Empty.(nNew := d.nNew, nTried := d.nTried).(nNew := 0, nTried := 0, nIdCount := 0) == Empty;
  }

  lemma NewPartNext(h: Hashes, d: Disk, st: State, n: nat)
    requires n < |d.news| && NewPart(h, d, st, n)
    ensures NewPart(h, d, LoadNewOne(h, d, st, n), n + 1)
  {
    hide NewPart, Referenced;
    var i := FromRecord(d.news[n]);
    NewPartEntered(h, d, st, n, i);
    var st1 := Enter(st, n, i);
    var slot := NewSlot(h, i.addr.service, i.source);
    if !Usable(d) && slot !in st1.vvNew {
      NewSlotIsOwn(h, i.addr.service, i.source);
      NewPartReferenced(h, d, st1, n, slot);
    }
  }

  lemma NewPartEntered(h: Hashes, d: Disk, st: State, n: nat, i: Info)
    requires NewPart(h, d, st, n) && !i.fInTried && i.nRefCount == 0
    ensures NewPart(h, d, Enter(st, n, i), n + 1)
  {
    hide TablesOk, LastListed;
    var counted := st.(nNew := n, nTried := 0, nIdCount := n);
    var st1 := Enter(st, n, i);
    CreatedTablesOk(h, counted, st1.(nNew := n + 1, nTried := 0, nIdCount := n + 1), i.(nRandomPos := |st.vRandom|), Orphans(st));
    LastListedEnter(st.mapAddr, st.mapInfo, n, i.(nRandomPos := |st.vRandom|));
    OrphansEnter(st, n, i);
  }

  lemma NewPartReferenced(h: Hashes, d: Disk, st: State, n: nat, slot: Slot)
    requires NewPart(h, d, st, n + 1) && n in st.mapInfo && st.mapInfo[n].nRefCount == 0
    requires slot !in st.vvNew && Own(h, st.mapInfo[n].addr.service, slot)
    ensures NewPart(h, d, Referenced(st, n, slot), n + 1)
  {
    hide TablesOk, Referenced, LastListed;
    ReferencedTablesOk(h, st.(nNew := n + 1, nTried := 0, nIdCount := n + 1), n, slot, Orphans(st));
    ReferencedParts(st, n, slot);
    LastListedFrame(st.mapAddr, st.mapInfo, Referenced(st, n, slot).mapInfo);
    ReferencedCounters(st, n, slot, n + 1, 0, n + 1);
  }

  lemma OrphansEnter(st: State, id: int, i: Info)
    requires id !in st.mapInfo && !i.fInTried && i.nRefCount == 0
    ensures Orphans(Enter(st, id, i)) == Orphans(st) + {id}
  {}

  /** What a reference changes: one slot, one count, and one orphan less at most. */
  lemma ReferencedParts(st: State, id: int, slot: Slot)
    requires id in st.mapInfo && !st.mapInfo[id].fInTried && st.mapInfo[id].nRefCount >= 0
    ensures var st' := Referenced(st, id, slot);
            && Orphans(st') == Orphans(st) - {id} && st'.mapAddr == st.mapAddr && st'.vvTried == st.vvTried
            && st'.nNew == st.nNew && st'.nTried == st.nTried && st'.nIdCount == st.nIdCount
            && (forall k :: k in st'.mapInfo <==> k in st.mapInfo)
            && (forall k :: k in st.mapInfo ==>
                  st'.mapInfo[k].fInTried == st.mapInfo[k].fInTried && IpOf(st'.mapInfo, k) == IpOf(st.mapInfo, k))
  {}

  lemma ReferencedCounters(st: State, id: int, slot: Slot, nNew: int, nTried: int, nIdCount: int)
    requires id in st.mapInfo
    ensures Referenced(st, id, slot).(nNew := nNew, nTried := nTried, nIdCount := nIdCount) ==
            Referenced(st.(nNew := nNew, nTried := nTried, nIdCount := nIdCount), id, slot)
  {}

  lemma {:induction false} NewLoaded(h: Hashes, d: Disk, n: nat)
    requires n <= |d.news|
    ensures NewPart(h, d, LoadNew(h, d, n), n)
  {
    hide NewPart, LoadNewOne;
    if n == 0 {
      NewPartEmpty(h, d);
    } else {
      NewLoaded(h, d, n - 1);
      NewPartNext(h, d, LoadNew(h, d, n - 1), n - 1);
    }
  }

  // ---------------------------------------------------------------- the tried records

  /** The state with the counters that n tried records amount to. */
  function Counted(d: Disk, st: State, n: nat): State {
    st.(nNew := Rounds(d.nNew), nTried := st.nTried - (d.nTried - n))
  }

  ghost predicate TriedPart(h: Hashes, d: Disk, st: State, n: nat) {
    && TablesOk(h, Counted(d, st, n), Orphans(st)) && LastListed(st.mapAddr, st.mapInfo)
    && st.nNew == d.nNew && (d.nTried < 0 ==> st.nTried == d.nTried)
    && st.nIdCount >= d.nNew && (forall id :: id in st.mapInfo && id < d.nNew ==> !st.mapInfo[id].fInTried)
  }

  lemma TriedPartStart(h: Hashes, d: Disk)
    requires d.nNew <= |d.news| && d.nTried <= |d.trieds|
    ensures TriedPart(h, d, LoadTried(h, d, 0), 0)
  {
    if d.nNew < 0 {
      EmptyTablesOk(h, d.nNew);
      var st := LoadTried(h, d, 0);
      assert Orphans(st) == {};
      assert Counted(d, st, 0) == Empty.(nIdCount := d.nNew);
    } else {
      hide TablesOk, LastListed, LoadNew;
      NewLoaded(h, d, d.nNew);
      var st := LoadNew(h, d, d.nNew);
      assert Orphans(LoadTried(h, d, 0)) == Orphans(st);
      assert Counted(d, LoadTried(h, d, 0), 0) == st.(nNew := d.nNew, nTried := 0, nIdCount := d.nNew);
    }
  }

  lemma TriedPartNext(h: Hashes, d: Disk, st: State, n: nat)
    requires n < d.nTried && n < |d.trieds| && TriedPart(h, d, st, n)
    ensures TriedPart(h, d, LoadTriedOne(h, d, st, n), n + 1)
  {
    hide TablesOk, LastListed;
    var i := FromRecord(d.trieds[n]);
    var slot := TriedSlot(h, i.addr.service);
    var st' := LoadTriedOne(h, d, st, n);
    if slot in st.vvTried {
      assert Counted(d, st', n + 1) == Counted(d, st, n);
      assert Orphans(st') == Orphans(st);
    } else {
      TriedPartEntered(h, d, st, st', i, slot, n);
    }
  }

  lemma TriedPartEntered(h: Hashes, d: Disk, st: State, st': State, i: Info, slot: Slot, n: nat)
    requires n < d.nTried && TriedPart(h, d, st, n) && !i.fInTried && i.nRefCount == 0
    requires slot == TriedSlot(h, i.addr.service) && slot !in st.vvTried
    requires var st1 := Enter(st, st.nIdCount, i.(fInTried := true));
             st' == st1.(vvTried := st1.vvTried[slot := st.nIdCount], nIdCount := st.nIdCount + 1)
    ensures TriedPart(h, d, st', n + 1)
  {
    hide TablesOk, LastListed;
    var id, counted, j := st.nIdCount, Counted(d, st, n), i.(nRandomPos := |st.vRandom|);
    var in1 := Enter(counted, id, i).(nNew := counted.nNew + 1, nIdCount := id + 1);
    IdsBelow(h, counted, Orphans(st));
    CreatedTablesOk(h, counted, in1, j, Orphans(st));
    TriedTablesOk(h, in1, id, slot, Orphans(st) + {id});
    EnteredTried(d, st, st', in1, i, slot, n);
    LastListedEnter(st.mapAddr, st.mapInfo, id, j.(fInTried := true));
    assert Orphans(st) + {id} - {id} == Orphans(st);
  }

  lemma IdsBelow(h: Hashes, st: State, limbo: set<int>)
    requires TablesOk(h, st, limbo)
    ensures forall id :: id in st.mapInfo ==> id < st.nIdCount
  {
    hide RandomOk, NewOk, TriedOk, CountsOk;
  }

  /** Entering straight into the tried table is entering and then moving. */
  lemma EnteredTried(d: Disk, st: State, st': State, in1: State, i: Info, slot: Slot, n: nat)
    requires st.nIdCount !in st.mapInfo && !i.fInTried
    requires in1 == Enter(Counted(d, st, n), st.nIdCount, i).(nNew := Counted(d, st, n).nNew + 1, nIdCount := st.nIdCount + 1)
    requires var st1 := Enter(st, st.nIdCount, i.(fInTried := true));
             st' == st1.(vvTried := st1.vvTried[slot := st.nIdCount], nIdCount := st.nIdCount + 1)
    ensures Counted(d, st', n + 1) == Tried(in1, st.nIdCount, slot) && Orphans(st') == Orphans(st)
    ensures forall k :: k in st'.mapInfo && k != st.nIdCount ==> k in st.mapInfo && st'.mapInfo[k] == st.mapInfo[k]
  {
    var m := in1.mapInfo;
    assert st'.mapInfo == m[st.nIdCount := m[st.nIdCount].(fInTried := true)];
  }

  lemma {:induction false} TriedLoaded(h: Hashes, d: Disk, n: nat)
    requires d.nNew <= |d.news| && n <= Rounds(d.nTried) && d.nTried <= |d.trieds|
    ensures TriedPart(h, d, LoadTried(h, d, n), n)
  {
    hide TriedPart, LoadTriedOne, LoadNew;
    if n == 0 {
      TriedPartStart(h, d);
    } else {
      TriedLoaded(h, d, n - 1);
      TriedPartNext(h, d, LoadTried(h, d, n - 1), n - 1);
    }
  }

  // ---------------------------------------------------------------- the references

  /** All records have been read. */
  ghost predicate Settled(h: Hashes, d: Disk, st: State) {
    TriedPart(h, d, st, Rounds(d.nTried))
  }

  lemma ReferenceSettles(h: Hashes, d: Disk, st: State, bucket: nat, index: int)
    requires Settled(h, d, st) && (Usable(d) ==> bucket < NEW_BUCKETS)
    ensures Settled(h, d, LoadReference(h, d, st, bucket, index))
  {
    hide Settled, Usable, Referenced;
    if 0 <= index < d.nNew && index in st.mapInfo {
      var i := st.mapInfo[index];
      var slot := Slot(bucket, Position(h, i.addr.service, true, bucket));
      if Usable(d) && slot !in st.vvNew && i.nRefCount < NEW_BUCKETS_PER_ADDRESS {
        ReferenceTaken(h, d, st, index, slot);
      }
    }
  }

  lemma ReferenceTaken(h: Hashes, d: Disk, st: State, index: int, slot: Slot)
    requires Settled(h, d, st) && 0 <= index < d.nNew && index in st.mapInfo
    requires slot !in st.vvNew && Own(h, st.mapInfo[index].addr.service, slot)
    requires st.mapInfo[index].nRefCount < NEW_BUCKETS_PER_ADDRESS
    ensures Settled(h, d, Referenced(st, index, slot))
  {
    hide TablesOk, LastListed, Referenced;
    var counted := Counted(d, st, Rounds(d.nTried));
    RefCountKnown(h, counted, index, Orphans(st));
    ReferencedTablesOk(h, counted, index, slot, Orphans(st));
    ReferencedParts(st, index, slot);
    ReferencedCounters(st, index, slot, counted.nNew, counted.nTried, st.nIdCount);
    LastListedFrame(st.mapAddr, st.mapInfo, Referenced(st, index, slot).mapInfo);
  }

  lemma RefCountKnown(h: Hashes, st: State, id: int, limbo: set<int>)
    requires TablesOk(h, st, limbo) && id in st.mapInfo
    ensures st.mapInfo[id].nRefCount >= 0
  {
    hide RandomOk, NewOk, TriedOk, CountsOk;
    EntryFacts(st.nIdCount, st.mapInfo, id, limbo);
  }

  lemma {:induction false} ListSettles(h: Hashes, d: Disk, st: State, bucket: nat, list: seq<int>, n: nat)
    requires Settled(h, d, st) && (Usable(d) ==> bucket < NEW_BUCKETS) && n <= |list|
    ensures Settled(h, d, LoadList(h, d, st, bucket, list, n))
  {
    hide Settled, LoadReference, Usable;
    if n > 0 {
      ListSettles(h, d, st, bucket, list, n - 1);
      ReferenceSettles(h, d, LoadList(h, d, st, bucket, list, n - 1), bucket, list[n - 1]);
    }
  }

  lemma {:induction false} BucketsSettle(h: Hashes, d: Disk, st: State, b: nat)
    requires Settled(h, d, st) && b <= |d.buckets| && b <= Rounds(Buckets(d))
    ensures Settled(h, d, LoadBuckets(h, d, st, b))
  {
    hide Settled, LoadList;
    if b > 0 {
      BucketsSettle(h, d, st, b - 1);
      ListSettles(h, d, LoadBuckets(h, d, st, b - 1), b - 1, d.buckets[b - 1], |d.buckets[b - 1]|);
    }
  }

  lemma LoadedSettles(h: Hashes, d: Disk)
    requires Readable(d)
    ensures Settled(h, d, Loaded(h, d))
  {
    hide TriedPart, LoadTried, LoadBuckets;
    TriedLoaded(h, d, Rounds(d.nTried));
    BucketsSettle(h, d, LoadTried(h, d, Rounds(d.nTried)), Rounds(Buckets(d)));
  }

  // ---------------------------------------------------------------- dropping what has no reference

  /** The orphans among the first n of the listed ids. */
  ghost function Gone(st: State, ids: seq<int>, n: nat): set<int>
    requires n <= |ids|
  {
    set id | id in Orphans(st) && id in ids[..n]
  }

  ghost predicate PrunedTo(h: Hashes, st: State, ids: seq<int>, n: nat, p: State)
    requires n <= |ids|
  {
    && TablesOk(h, p, Orphans(st) - Gone(st, ids, n)) && SameButPositions(st.mapInfo - Gone(st, ids, n), p.mapInfo)
    && p.mapAddr == st.mapAddr - IpsOf(st.mapInfo, Gone(st, ids, n))
    && p.vvNew == st.vvNew && p.vvTried == st.vvTried
  }

  lemma PruneNext(h: Hashes, st: State, ids: seq<int>, n: nat, p: State)
    requires n < |ids| && PrunedTo(h, st, ids, n, p)
    ensures var id := ids[n];
            var r := if id in p.mapInfo && Orphan(p.mapInfo[id]) then Delete(p, id) else Ok(p);
            r.Ok? && PrunedTo(h, st, ids, n + 1, r.value)
  {
    hide TablesOk, Delete, IpsOf, SameButPositions;
    var id, gone := ids[n], Gone(st, ids, n);
    GoneNext(st, ids, n);
    StillThere(st, gone, p, id);
    if id in p.mapInfo && Orphan(p.mapInfo[id]) {
      var limbo := Orphans(st) - gone;
      DeleteTablesOk(h, p, id, limbo);
      assert limbo - {id} == Orphans(st) - (gone + {id});
      SameAfter(st.mapInfo, gone, p.mapInfo, Delete(p, id).value.mapInfo, id);
      IpsMore(st.mapInfo, gone, p.mapInfo, id);
    } else {
      assert Gone(st, ids, n + 1) == gone;
    }
  }

  lemma IpsMore(m: map<int, Info>, gone: set<int>, p: map<int, Info>, id: int)
    requires SameButPositions(m - gone, p) && id in p
    ensures IpsOf(m, gone + {id}) == IpsOf(m, gone) + {IpOf(p, id)}
  {
    assert id in m - gone && IpOf(p, id) == IpOf(m, id);
  }

  lemma GoneNext(st: State, ids: seq<int>, n: nat)
    requires n < |ids|
    ensures Gone(st, ids, n + 1) == if ids[n] in Orphans(st) then Gone(st, ids, n) + {ids[n]} else Gone(st, ids, n)
  {
    assert ids[..n + 1] == ids[..n] + [ids[n]];
  }

  lemma StillThere(st: State, gone: set<int>, p: State, id: int)
    requires gone <= Orphans(st) && SameButPositions(st.mapInfo - gone, p.mapInfo)
    ensures id in p.mapInfo && Orphan(p.mapInfo[id]) <==> id in Orphans(st) - gone
  {
    var m := st.mapInfo - gone;
    assert id in m <==> id in p.mapInfo;
  }

  lemma SameAfter(m: map<int, Info>, gone: set<int>, p: map<int, Info>, q: map<int, Info>, id: int)
    requires SameButPositions(m - gone, p) && SameButPositions(p - {id}, q)
    ensures SameButPositions(m - (gone + {id}), q)
  {
    var a, b, c := m - gone, p - {id}, m - (gone + {id});
    forall k ensures (k in c <==> k in q) && (k in c ==> q[k] == c[k].(nRandomPos := q[k].nRandomPos)) {
      assert k in a <==> k in p;
      assert k in b <==> k in q;
    }
  }

  lemma {:induction false} PruneKeeps(h: Hashes, st: State, ids: seq<int>, n: nat)
    requires TablesOk(h, st, Orphans(st)) && n <= |ids|
    ensures var r := Pruned(st, ids, n); r.Ok? && PrunedTo(h, st, ids, n, r.value)
  {
    if n == 0 {
      hide TablesOk;
      assert Gone(st, ids, 0) == {} && st.mapInfo - {} == st.mapInfo && Orphans(st) - {} == Orphans(st);
      assert IpsOf(st.mapInfo, {}) == {} && st.mapAddr - {} == st.mapAddr;
    } else {
      hide TablesOk, PrunedTo, Delete;
      PruneKeeps(h, st, ids, n - 1);
      PruneNext(h, st, ids, n - 1, Pruned(st, ids, n - 1).value);
    }
  }

  lemma AllListed(h: Hashes, st: State)
    requires TablesOk(h, st, Orphans(st))
    ensures Gone(st, st.vRandom, |st.vRandom|) == Orphans(st)
  {
    hide NewOk, TriedOk, CountsOk;
    assert st.vRandom[..|st.vRandom|] == st.vRandom;
    forall id | id in Orphans(st) ensures id in st.vRandom {
      assert Nth(st.vRandom, st.mapInfo[id].nRandomPos) == id;
    }
  }

  // ---------------------------------------------------------------- negative counts

  /** The same state with other counters. */
  function Recounted(st: State, a: int, b: int): State {
    st.(nNew := st.nNew + a, nTried := st.nTried + b)
  }

  lemma DeleteRecounted(st: State, id: int, a: int, b: int)
    requires Delete(st, id).Ok?
    ensures Delete(Recounted(st, a, b), id) == Ok(Recounted(Delete(st, id).value, a, b))
  {}

  lemma {:induction false} PrunedRecounted(st: State, ids: seq<int>, n: nat, a: int, b: int)
    requires n <= |ids| && Pruned(st, ids, n).Ok?
    ensures Pruned(Recounted(st, a, b), ids, n) == Ok(Recounted(Pruned(st, ids, n).value, a, b))
  {
    hide Delete;
    if n > 0 {
      PrunedRecounted(st, ids, n - 1, a, b);
      var p := Pruned(st, ids, n - 1).value;
      if ids[n - 1] in p.mapInfo && Orphan(p.mapInfo[ids[n - 1]]) { DeleteRecounted(p, ids[n - 1], a, b); }
    }
  }

  lemma RecountedIff(h: Hashes, p: State, a: int, b: int)
    requires TablesOk(h, p, {})
    ensures TablesOk(h, Recounted(p, a, b), {}) <==> a == 0 && b == 0
  {
    hide RandomOk, NewOk, TriedOk, EntriesOk, NewIds, TriedIds;
  }

  // ---------------------------------------------------------------- every readable file

  /** Reading what the loops left, with the pruning spelled out. */
  lemma ReadsAs(h: Hashes, d: Disk) returns (p: State)
    requires Readable(d)
    ensures var st, a, b := Loaded(h, d), d.nNew - Rounds(d.nNew), d.nTried - Rounds(d.nTried);
            && Unserialized(h, d) == Ok(Recounted(p, a, b)) && TablesOk(h, p, {})
            && LastListed(st.mapAddr, st.mapInfo) && p.mapAddr == st.mapAddr - IpsOf(st.mapInfo, Orphans(st))
            && SameButPositions(st.mapInfo - Orphans(st), p.mapInfo) && p.vvNew == st.vvNew && p.vvTried == st.vvTried
  {
    hide TablesOk, Loaded, LastListed, IpsOf, SameButPositions;
    LoadedSettles(h, d);
    var st, a, b := Loaded(h, d), d.nNew - Rounds(d.nNew), d.nTried - Rounds(d.nTried);
    var counted := Counted(d, st, Rounds(d.nTried));
    assert Orphans(counted) == Orphans(st);
    p := PrunesAs(h, counted);
    PrunedRecounted(counted, st.vRandom, |st.vRandom|, a, b);
    assert Recounted(counted, a, b) == st;
  }

  /** Dropping all orphans. */
  lemma PrunesAs(h: Hashes, st: State) returns (p: State)
    requires TablesOk(h, st, Orphans(st))
    ensures Pruned(st, st.vRandom, |st.vRandom|) == Ok(p) && TablesOk(h, p, {})
    ensures p.mapAddr == st.mapAddr - IpsOf(st.mapInfo, Orphans(st))
    ensures SameButPositions(st.mapInfo - Orphans(st), p.mapInfo) && p.vvNew == st.vvNew && p.vvTried == st.vvTried
  {
    hide TablesOk, IpsOf, SameButPositions, Pruned;
    PruneKeeps(h, st, st.vRandom, |st.vRandom|);
    AllListed(h, st);
    assert Orphans(st) - Orphans(st) == {};
    p := Pruned(st, st.vRandom, |st.vRandom|).value;
  }

  /**
   For every readable file reading succeeds and drops exactly the entries that ended up without a
   reference.  Indexes, tables and counters then agree if and only if no count was negative and every
   two entries with one address were dropped.
   */
  lemma AnyFileIsConsistent(h: Hashes, d: Disk)
    requires Readable(d)
    ensures var r, loaded := Unserialized(h, d), Loaded(h, d);
            && r.Ok?
            && SameButPositions(loaded.mapInfo - Orphans(loaded), r.value.mapInfo)
            && r.value.vvNew == loaded.vvNew && r.value.vvTried == loaded.vvTried
            && (Inv(h, r.value, {}) <==> d.nNew >= 0 && d.nTried >= 0 && OnlyOrphansShare(loaded.mapInfo))
  {
    hide TablesOk, AddrOk, Loaded, Unserialized, LastListed, IpsOf, SameButPositions, OnlyOrphansShare;
    var p := ReadsAs(h, d);
    var st := Loaded(h, d);
    RecountedIff(h, p, d.nNew - Rounds(d.nNew), d.nTried - Rounds(d.nTried));
    ListedIff(st.mapAddr, st.mapInfo, Orphans(st), p.mapInfo);
  }

  /** ... and the debug check passes exactly when the times of what is kept are in order as well. */
  lemma AnyFilePasses(h: Hashes, d: Disk)
    requires Readable(d)
    ensures var r, loaded := Unserialized(h, d), Loaded(h, d);
            r.Ok? && (Consistent(h, r.value) <==>
                        && d.nNew >= 0 && d.nTried >= 0 && OnlyOrphansShare(loaded.mapInfo)
                        && TimesOk(loaded.mapInfo - Orphans(loaded)))
  {
    AnyFileIsConsistent(h, d);
    hide Inv, Loaded, Unserialized, OnlyOrphansShare;
    var m, m' := Loaded(h, d).mapInfo - Orphans(Loaded(h, d)), Unserialized(h, d).value.mapInfo;
    forall id ensures id in m <==> id in m' {}
  }

  // ---------------------------------------------------------------- files with and without repeated addresses

  /** A file with the same new record twice: the second takes the address of the first along when it is dropped. */
  lemma RepeatedRecordUnlists(h: Hashes, r: Record)
    ensures var d := Disk(0, KEY_SIZE, 2, 0, 0, [r, r], [], []);
            && Readable(d) && Unserialized(h, d).Ok?
            && var st := Unserialized(h, d).value;
               0 in st.mapInfo && IpOf(st.mapInfo, 0) == r.addr.service.ip && r.addr.service.ip !in st.mapAddr && !Inv(h, st, {})
  {
    var d := Disk(0, KEY_SIZE, 2, 0, 0, [r, r], [], []);
    var st := LoadedTwice(h, r);
    hide Loaded, TablesOk, LastListed, Inv, Unserialized;
    var p := ReadsAs(h, d);
    AnyFileIsConsistent(h, d);
    assert !OnlyOrphansShare(st.mapInfo);
    assert 0 in st.mapInfo - Orphans(st);
    assert 1 in Orphans(st) && IpOf(st.mapInfo, 1) in IpsOf(st.mapInfo, Orphans(st));
  }

  lemma LoadedTwice(h: Hashes, r: Record) returns (st: State)
    ensures st == Loaded(h, Disk(0, KEY_SIZE, 2, 0, 0, [r, r], [], []))
    ensures 0 in st.mapInfo && 1 in st.mapInfo && !Orphan(st.mapInfo[0]) && Orphan(st.mapInfo[1])
    ensures IpOf(st.mapInfo, 0) == IpOf(st.mapInfo, 1) == r.addr.service.ip
  {
    var d := Disk(0, KEY_SIZE, 2, 0, 0, [r, r], [], []);
    st := Loaded(h, d);
    var one := LoadNew(h, d, 1);
    assert one == LoadNewOne(h, d, LoadNew(h, d, 0), 0);
    assert LoadNew(h, d, 2) == LoadNewOne(h, d, one, 1);
    assert st == LoadNew(h, d, 2).(nIdCount := 2);
  }

  /** The same tried record twice does no harm: the second finds its slot taken and is not even entered. */
  lemma RepeatedTriedIsLost(h: Hashes, r: Record)
    ensures var d := Disk(0, KEY_SIZE, 0, 2, 0, [], [r, r], []);
            Readable(d) && !OneRecordEach(d) && Unserialized(h, d).Ok? && Inv(h, Unserialized(h, d).value, {})
  {
    var d := Disk(0, KEY_SIZE, 0, 2, 0, [], [r, r], []);
    assert TriedIp(d, 0) == TriedIp(d, 1);
    var st := Loaded(h, d);
    var one := LoadTried(h, d, 1);
    assert one == LoadTriedOne(h, d, LoadTried(h, d, 0), 0);
    assert LoadTried(h, d, 2) == LoadTriedOne(h, d, one, 1);
    assert st.mapInfo == one.mapInfo && forall id :: id in one.mapInfo ==> id == 0;
    hide Loaded, Inv, Unserialized;
    AnyFileIsConsistent(h, d);
  }

  function NewIp(d: Disk, k: nat): Ip
    requires k < |d.news|
  {
    d.news[k].addr.service.ip
  }

  function TriedIp(d: Disk, k: nat): Ip
    requires k < |d.trieds|
  {
    d.trieds[k].addr.service.ip
  }

  /** No address has two records. */
  ghost predicate OneRecordEach(d: Disk)
    requires d.nNew <= |d.news| && d.nTried <= |d.trieds|
  {
    && (forall i, j :: 0 <= i < j < d.nNew ==> NewIp(d, i) != NewIp(d, j))
    && (forall i, j :: 0 <= i < j < d.nTried ==> TriedIp(d, i) != TriedIp(d, j))
    && (forall i, j :: 0 <= i < d.nNew && 0 <= j < d.nTried ==> NewIp(d, i) != TriedIp(d, j))
  }

  ghost predicate FromFile(d: Disk, ip: Ip, n: nat, t: nat)
    requires n <= |d.news| && t <= |d.trieds|
  {
    (exists k :: 0 <= k < n && NewIp(d, k) == ip) || (exists k :: 0 <= k < t && TriedIp(d, k) == ip)
  }

  /** All addresses differ, and come from the first n new and t tried records. */
  ghost predicate Unshared(d: Disk, m: map<int, Info>, n: nat, t: nat)
    requires n <= |d.news| && t <= |d.trieds|
  {
    && (forall a, b :: a in m && b in m && a != b ==> IpOf(m, a) != IpOf(m, b))
    && (forall a :: a in m ==> FromFile(d, IpOf(m, a), n, t))
  }

  lemma FromMore(d: Disk, ip: Ip, n: nat, t: nat, n': nat, t': nat)
    requires n <= n' <= |d.news| && t <= t' <= |d.trieds| && FromFile(d, ip, n, t)
    ensures FromFile(d, ip, n', t')
  {}

  /** A record with a new address joins, and slots and counts do not matter. */
  lemma UnsharedEnter(d: Disk, m: map<int, Info>, m': map<int, Info>, id: int, ip: Ip, n: nat, t: nat, n': nat, t': nat)
    requires n <= n' <= |d.news| && t <= t' <= |d.trieds| && Unshared(d, m, n, t)
    requires !FromFile(d, ip, n, t) && FromFile(d, ip, n', t')
    requires forall k :: k in m' <==> k in m || k == id
    requires forall k :: k in m' ==> IpOf(m', k) == if k == id then ip else IpOf(m, k)
    ensures Unshared(d, m', n', t')
  {
    hide FromFile;
    forall a | a in m' ensures FromFile(d, IpOf(m', a), n', t') {
      if a != id { FromMore(d, IpOf(m, a), n, t, n', t'); }
    }
    forall a, b | a in m' && b in m' && a != b ensures IpOf(m', a) != IpOf(m', b) {
      assert a != id ==> FromFile(d, IpOf(m, a), n, t);
      assert b != id ==> FromFile(d, IpOf(m, b), n, t);
    }
  }

  lemma {:induction false} NewUnshared(h: Hashes, d: Disk, n: nat)
    requires n <= Rounds(d.nNew) && d.nNew <= |d.news| && d.nTried <= |d.trieds| && OneRecordEach(d)
    ensures Unshared(d, LoadNew(h, d, n).mapInfo, n, 0)
  {
    if n > 0 {
      NewUnshared(h, d, n - 1);
      hide Unshared, OneRecordEach, FromFile, LoadNewOne;
      var st := LoadNew(h, d, n - 1);
      NewIsOther(d, n - 1);
      NewEntered(h, d, st, n - 1);
      UnsharedEnter(d, st.mapInfo, LoadNewOne(h, d, st, n - 1).mapInfo, n - 1, NewIp(d, n - 1), n - 1, 0, n, 0);
    }
  }

  lemma NewEntered(h: Hashes, d: Disk, st: State, n: nat)
    requires n < |d.news|
    ensures var m' := LoadNewOne(h, d, st, n).mapInfo;
            && (forall k :: k in m' <==> k in st.mapInfo || k == n)
            && (forall k :: k in m' ==> IpOf(m', k) == if k == n then NewIp(d, n) else IpOf(st.mapInfo, k))
  {}

  lemma NewIsOther(d: Disk, n: nat)
    requires n < d.nNew <= |d.news| && d.nTried <= |d.trieds| && OneRecordEach(d)
    ensures !FromFile(d, NewIp(d, n), n, 0) && FromFile(d, NewIp(d, n), n + 1, 0)
  {}

  lemma TriedIsOther(d: Disk, t: nat)
    requires d.nNew <= |d.news| && t < d.nTried <= |d.trieds| && OneRecordEach(d)
    ensures !FromFile(d, TriedIp(d, t), Rounds(d.nNew), t) && FromFile(d, TriedIp(d, t), Rounds(d.nNew), t + 1)
  {}

  lemma {:induction false} TriedUnshared(h: Hashes, d: Disk, t: nat)
    requires t <= Rounds(d.nTried) && d.nNew <= |d.news| && d.nTried <= |d.trieds| && OneRecordEach(d)
    ensures Unshared(d, LoadTried(h, d, t).mapInfo, Rounds(d.nNew), t)
  {
    var n := Rounds(d.nNew);
    if t == 0 {
      NewUnshared(h, d, n);
    } else {
      TriedUnshared(h, d, t - 1);
      var st := LoadTried(h, d, t - 1);
      TriedIsOther(d, t - 1);
      if TriedSlot(h, d.trieds[t - 1].addr.service) in st.vvTried {
        UnsharedStays(d, st.mapInfo, n, t - 1);
      } else {
        TriedLoaded(h, d, t - 1);
        IdsBelow(h, Counted(d, st, t - 1), Orphans(st));
        hide Unshared, OneRecordEach, FromFile, LoadTried;
        UnsharedEnter(d, st.mapInfo, LoadTriedOne(h, d, st, t - 1).mapInfo, st.nIdCount, TriedIp(d, t - 1), n, t - 1, n, t);
      }
    }
  }

  lemma UnsharedStays(d: Disk, m: map<int, Info>, n: nat, t: nat)
    requires n <= |d.news| && t < |d.trieds| && Unshared(d, m, n, t)
    ensures Unshared(d, m, n, t + 1)
  {
    forall a | a in m ensures FromFile(d, IpOf(m, a), n, t + 1) { FromMore(d, IpOf(m, a), n, t, n, t + 1); }
  }

  ghost predicate SameIps(m: map<int, Info>, m': map<int, Info>) {
    (forall k :: k in m <==> k in m') && forall k :: k in m ==> IpOf(m, k) == IpOf(m', k)
  }

  lemma {:induction false} ListKeepsIps(h: Hashes, d: Disk, st: State, bucket: nat, list: seq<int>, n: nat)
    requires n <= |list|
    ensures SameIps(st.mapInfo, LoadList(h, d, st, bucket, list, n).mapInfo)
  {
    if n > 0 { ListKeepsIps(h, d, st, bucket, list, n - 1); }
  }

  lemma {:induction false} BucketsKeepIps(h: Hashes, d: Disk, st: State, b: nat)
    requires b <= |d.buckets|
    ensures SameIps(st.mapInfo, LoadBuckets(h, d, st, b).mapInfo)
  {
    if b > 0 {
      BucketsKeepIps(h, d, st, b - 1);
      ListKeepsIps(h, d, LoadBuckets(h, d, st, b - 1), b - 1, d.buckets[b - 1], |d.buckets[b - 1]|);
      hide LoadList;
    }
  }

  /** A file with one record for each address and no negative count always gives a manager that fits together. */
  lemma OneRecordEachSuffices(h: Hashes, d: Disk)
    requires Readable(d) && d.nNew >= 0 && d.nTried >= 0 && OneRecordEach(d)
    ensures Unserialized(h, d).Ok? && Inv(h, Unserialized(h, d).value, {})
  {
    TriedUnshared(h, d, d.nTried);
    BucketsKeepIps(h, d, LoadTried(h, d, d.nTried), Rounds(Buckets(d)));
    hide LoadTried, LoadBuckets, Unserialized, Inv, OneRecordEach;
    AnyFileIsConsistent(h, d);
  }
}
