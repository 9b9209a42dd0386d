/**
 Writing the address manager to disk and reading it back (Serialize and Unserialize in src/addrman.h).
 Only records, counters and the new table go to disk; ids, positions, the address map and the tried
 table are rebuilt.
 */
module AddrManDisk {
  import opened Basics
  import opened AddrMan

  const MARK: int := 0x4000_0000
  const KEY_SIZE: nat := 32

  /** Exclusive or with 2^30. */
  function Marked(x: int): int {
    if x / MARK % 2 == 1 then x - MARK else x + MARK
  }

  /** What is stored of an entry. */
  datatype Record = Record(addr: Address, source: Ip, nLastSuccess: int, nAttempts: int)

  datatype Disk = Disk(
    nVersion: nat, keySize: nat, nNew: int, nTried: int, nUBuckets: int,
    news: seq<Record>, trieds: seq<Record>, buckets: seq<seq<int>>)

  function ToRecord(i: Info): Record {
    Record(i.addr, i.source, i.nLastSuccess, i.nAttempts)
  }

  function FromRecord(r: Record): Info {
    Info(r.addr, r.source, 0, 0, r.nLastSuccess, r.nAttempts, 0, false, -1)
  }

  // ---------------------------------------------------------------- lists of ids

  ghost predicate Distinct(s: seq<int>) {
    forall i, j :: 0 <= i < j < |s| ==> s[i] != s[j]
  }

  /** The order in which the entries are visited: each id once. */
  ghost predicate IsOrder(order: seq<int>, m: map<int, Info>) {
    Distinct(order) && forall id :: id in m <==> id in order
  }

  function InfoAt(ids: seq<int>, m: map<int, Info>, i: nat): Info
    requires Known(ids, m) && i < |ids|
  {
    m[Nth(ids, i)]
  }

  lemma KnownFrom(ids: seq<int>, m: map<int, Info>)
    requires forall id :: id in ids ==> id in m
    ensures Known(ids, m)
  {
    forall i {:trigger ids[i]} {:trigger Nth(ids, i)} | 0 <= i < |ids|
      ensures Nth(ids, i) in m
    {
      assert ids[i] in ids;
    }
  }

  function IndexOf(s: seq<int>, x: int): (k: nat)
    requires x in s
    ensures k < |s| && s[k] == x
  {
    if s[0] == x then 0 else 1 + IndexOf(s[1..], x)
  }

  lemma IndexOfAt(s: seq<int>, k: nat)
    requires Distinct(s) && k < |s|
    ensures IndexOf(s, s[k]) == k
  {
    var j := IndexOf(s, s[k]);
  }

  /** The visited ids that are, or are not, in the tried table. */
  ghost function Pick(order: seq<int>, m: map<int, Info>, tried: bool): seq<int>
    requires Known(order, m)
  {
    if order == [] then []
    else
      var k := |order| - 1;
      assert forall i {:trigger order[..k][i]} :: 0 <= i < k ==> order[..k][i] == order[i];
      var front := Pick(order[..k], m, tried);
      if InfoAt(order, m, k).fInTried == tried then front + [order[k]] else front
  }

  lemma {:induction false} PickIs(order: seq<int>, m: map<int, Info>, tried: bool)
    requires Known(order, m) && Distinct(order)
    ensures Distinct(Pick(order, m, tried))
    ensures forall id :: id in Pick(order, m, tried) <==> id in order && id in m && m[id].fInTried == tried
  {
    if order != [] {
      var k := |order| - 1;
      assert order == order[..k] + [order[k]];
      assert forall i {:trigger order[..k][i]} :: 0 <= i < k ==> order[..k][i] == order[i];
      PickIs(order[..k], m, tried);
    }
  }

  lemma DistinctAppend(a: seq<int>, b: seq<int>)
    requires Distinct(a) && Distinct(b) && forall x :: x in a ==> x !in b
    ensures Distinct(a + b)
  {
    var s := a + b;
    forall i, j | 0 <= i < j < |s|
      ensures s[i] != s[j]
    {
      if i < |a| <= j { assert a[i] in a && b[j - |a|] in b; }
    }
  }

  lemma NoElements(t: set<int>)
    requires forall x: int :: x !in t
    ensures t == {}
  {
    var e: set<int> := {};
    forall x: int
      ensures x in t <==> x in e
    {
    }
    assert t == e;
  }

  lemma {:induction false} DistinctSize(s: seq<int>, t: set<int>)
    requires Distinct(s) && forall x :: x in s <==> x in t
    ensures |s| == |t|
  {
    if s == [] {
      NoElements(t);
    } else {
      var k := |s| - 1;
      assert s == s[..k] + [s[k]];
      DistinctSize(s[..k], t - {s[k]});
    }
  }

  // ---------------------------------------------------------------- writing

  function Records(ids: seq<int>, m: map<int, Info>): (r: seq<Record>)
    requires Known(ids, m)
    ensures |r| == |ids| && forall i {:trigger r[i]} :: 0 <= i < |ids| ==> r[i] == ToRecord(InfoAt(ids, m, i))
  {
    seq(|ids|, i requires 0 <= i < |ids| => ToRecord(InfoAt(ids, m, i)))
  }

  /** The indexes stored for a bucket, by position. */
  ghost function BucketList(vvNew: map<Slot, int>, ids: seq<int>, bucket: nat, n: nat): seq<int>
    requires forall s :: s in vvNew ==> Holder(vvNew, s) in ids
  {
    if n == 0 then []
    else
      var front := BucketList(vvNew, ids, bucket, n - 1);
      var s := Slot(bucket, n - 1);
      if s in vvNew then front + [IndexOf(ids, Holder(vvNew, s))] else front
  }

  ghost predicate Ordered(h: Hashes, st: State, order: seq<int>) {
    Consistent(h, st) && IsOrder(order, st.mapInfo)
  }

  ghost function NewOrder(st: State, order: seq<int>): seq<int>
    requires IsOrder(order, st.mapInfo)
  {
    KnownFrom(order, st.mapInfo);
    Pick(order, st.mapInfo, false)
  }

  ghost function TriedOrder(st: State, order: seq<int>): seq<int>
    requires IsOrder(order, st.mapInfo)
  {
    KnownFrom(order, st.mapInfo);
    Pick(order, st.mapInfo, true)
  }

  /** How many there are of each kind, and that the new table holds only new entries. */
  lemma OrderFacts(h: Hashes, st: State, order: seq<int>)
    requires Ordered(h, st, order)
    ensures var news, trieds := NewOrder(st, order), TriedOrder(st, order);
            && |news| == st.nNew && |trieds| == st.nTried && Distinct(news + trieds)
            && (forall id :: id in news <==> id in st.mapInfo && !st.mapInfo[id].fInTried)
            && (forall id :: id in trieds <==> id in st.mapInfo && st.mapInfo[id].fInTried)
            && (forall id :: id in news + trieds <==> id in st.mapInfo)
            && (forall s :: s in st.vvNew ==> Holder(st.vvNew, s) in news)
            && (forall s :: s in st.vvTried ==> Holder(st.vvTried, s) in trieds)
  {
    hide RandomOk, AddrOk, EntriesOk, TimesOk;
    var news, trieds := NewOrder(st, order), TriedOrder(st, order);
    KnownFrom(order, st.mapInfo);
    PickIs(order, st.mapInfo, false);
    PickIs(order, st.mapInfo, true);
    DistinctAppend(news, trieds);
    DistinctSize(news, NewIds(st.mapInfo));
    DistinctSize(trieds, TriedIds(st.mapInfo));
  }

  ghost function Serialized(h: Hashes, st: State, order: seq<int>): Disk
    requires Ordered(h, st, order)
  {
    OrderFacts(h, st, order);
    var news, trieds := NewOrder(st, order), TriedOrder(st, order);
    KnownFrom(news, st.mapInfo);
    KnownFrom(trieds, st.mapInfo);
    Disk(1, KEY_SIZE, st.nNew, st.nTried, Marked(NEW_BUCKETS),
         Records(news, st.mapInfo), Records(trieds, st.mapInfo),
         seq(NEW_BUCKETS, b requires 0 <= b < NEW_BUCKETS => BucketList(st.vvNew, news, b, BUCKET_SIZE)))
  }

  // ---------------------------------------------------------------- reading

  /** Whether the stored new table can be used as it is. */
  predicate Usable(d: Disk) { d.nVersion == 1 && Buckets(d) == NEW_BUCKETS }

  function Buckets(d: Disk): int { if d.nVersion != 0 then Marked(d.nUBuckets) else d.nUBuckets }

  function Rounds(u: int): nat { if u < 0 then 0 else u }

  /** The entry enters the indexes under the next position. */
  function Enter(st: State, id: int, i: Info): State {
    st.(mapInfo := st.mapInfo[id := i.(nRandomPos := |st.vRandom|)],
        mapAddr := st.mapAddr[i.addr.service.ip := id],
        vRandom := st.vRandom + [id])
  }

  function LoadNewOne(h: Hashes, d: Disk, st: State, n: nat): State
    requires n < |d.news|
  {
    var i := FromRecord(d.news[n]);
    var st1 := Enter(st, n, i);
    if Usable(d) then st1
    else
      var slot := NewSlot(h, i.addr.service, i.source);
      if slot in st1.vvNew then st1 else Referenced(st1, n, slot)
  }

  function LoadTriedOne(h: Hashes, d: Disk, st: State, n: nat): State
    requires n < |d.trieds|
  {
    var i := FromRecord(d.trieds[n]);
    var slot := TriedSlot(h, i.addr.service);
    if slot in st.vvTried then st.(nTried := st.nTried - 1)
    else
      var st1 := Enter(st, st.nIdCount, i.(fInTried := true));
      st1.(vvTried := st1.vvTried[slot := st.nIdCount], nIdCount := st.nIdCount + 1)
  }

  /** A stored reference is taken up if it makes sense, its slot is free and the entry may have one more. */
  function LoadReference(h: Hashes, d: Disk, st: State, bucket: nat, index: int): State {
    if !(0 <= index < d.nNew) || index !in st.mapInfo then st
    else
      var i := st.mapInfo[index];
      var slot := Slot(bucket, Position(h, i.addr.service, true, bucket));
      if Usable(d) && slot !in st.vvNew && i.nRefCount < NEW_BUCKETS_PER_ADDRESS then Referenced(st, index, slot) else st
  }

  predicate Orphan(i: Info) { !i.fInTried && i.nRefCount == 0 }

  ghost predicate NoneOrphaned(st: State) {
    forall id :: id in st.mapInfo ==> !Orphan(st.mapInfo[id])
  }

  predicate Readable(d: Disk) {
    && d.keySize == KEY_SIZE && d.nNew <= NEW_BUCKETS * BUCKET_SIZE && d.nTried <= TRIED_BUCKETS * BUCKET_SIZE
    && d.nNew <= |d.news| && d.nTried <= |d.trieds| && Rounds(Buckets(d)) <= |d.buckets|
  }

  ghost function LoadNew(h: Hashes, d: Disk, n: nat): State
    requires n <= |d.news|
  {
    if n == 0 then Empty.(nNew := d.nNew, nTried := d.nTried) else LoadNewOne(h, d, LoadNew(h, d, n - 1), n - 1)
  }

  ghost function LoadTried(h: Hashes, d: Disk, n: nat): State
    requires n <= |d.trieds| && d.nNew <= |d.news|
  {
    if n == 0 then LoadNew(h, d, Rounds(d.nNew)).(nIdCount := d.nNew) else LoadTriedOne(h, d, LoadTried(h, d, n - 1), n - 1)
  }

  ghost function LoadList(h: Hashes, d: Disk, st: State, bucket: nat, list: seq<int>, n: nat): State
    requires n <= |list|
  {
    if n == 0 then st else LoadReference(h, d, LoadList(h, d, st, bucket, list, n - 1), bucket, list[n - 1])
  }

  ghost function LoadBuckets(h: Hashes, d: Disk, st: State, b: nat): State
    requires b <= |d.buckets|
  {
    if b == 0 then st
    else LoadList(h, d, LoadBuckets(h, d, st, b - 1), b - 1, d.buckets[b - 1], |d.buckets[b - 1]|)
  }

  /** What is in memory before entries without a reference are dropped. */
  ghost function Loaded(h: Hashes, d: Disk): State
    requires Readable(d)
  {
    LoadBuckets(h, d, LoadTried(h, d, Rounds(d.nTried)), Rounds(Buckets(d)))
  }

  /** The listed entries are dropped where they have no reference. */
  ghost function Pruned(st: State, ids: seq<int>, n: nat): Result<State>
    requires n <= |ids|
  {
    if n == 0 then Ok(st)
    else
      var p :- Pruned(st, ids, n - 1);
      if ids[n - 1] in p.mapInfo && Orphan(p.mapInfo[ids[n - 1]]) then Delete(p, ids[n - 1]) else Ok(p)
  }

  /** What reading a file ends with. */
  ghost function Unserialized(h: Hashes, d: Disk): Result<State> {
    if !Readable(d) then Failed else Pruned(Loaded(h, d), Loaded(h, d).vRandom, |Loaded(h, d).vRandom|)
  }

  lemma {:induction false} PrunedNone(st: State, ids: seq<int>, n: nat)
    requires NoneOrphaned(st) && n <= |ids|
    ensures Pruned(st, ids, n) == Ok(st)
  {
    if n > 0 { PrunedNone(st, ids, n - 1); }
  }

  // ---------------------------------------------------------------- the expected result

  /** The entry under its new id, without what is kept only in memory. */
  function Restored(i: Info, k: int): Info {
    i.(nLastTry := 0, nLastCountAttempt := 0, nRandomPos := k)
  }

  ghost function Renamed(table: map<Slot, int>, ids: seq<int>): map<Slot, int>
    requires forall s :: s in table ==> Holder(table, s) in ids
  {
    map s | s in table :: IndexOf(ids, Holder(table, s))
  }

  ghost function RenamedAddr(mapAddr: map<Ip, int>, ids: seq<int>): map<Ip, int>
    requires forall ip :: ip in mapAddr ==> IdOf(mapAddr, ip) in ids
  {
    map ip | ip in mapAddr :: IndexOf(ids, IdOf(mapAddr, ip))
  }

  ghost function RestoredInfo(m: map<int, Info>, ids: seq<int>): map<int, Info>
    requires Known(ids, m)
  {
    map k | 0 <= k < |ids| :: Restored(InfoAt(ids, m, k), k)
  }

  /** The same manager with the entries numbered in the order of `ids`. */
  ghost function Renumbered(st: State, ids: seq<int>): State
    requires Numbering(st, ids)
  {
    KnownFrom(ids, st.mapInfo);
    State(|ids|, RestoredInfo(st.mapInfo, ids), RenamedAddr(st.mapAddr, ids), seq<int>(|ids|, k => k),
          st.nTried, Renamed(st.vvTried, ids), st.nNew, Renamed(st.vvNew, ids), 1)
  }

  ghost predicate Numbering(st: State, ids: seq<int>) {
    && Distinct(ids) && (forall id :: id in ids <==> id in st.mapInfo)
    && (forall s :: s in st.vvNew ==> Holder(st.vvNew, s) in ids)
    && (forall s :: s in st.vvTried ==> Holder(st.vvTried, s) in ids)
    && (forall ip :: ip in st.mapAddr ==> IdOf(st.mapAddr, ip) in ids)
  }

  lemma NumberingOk(h: Hashes, st: State, order: seq<int>)
    requires Ordered(h, st, order)
    ensures Numbering(st, NewOrder(st, order) + TriedOrder(st, order))
  {
    OrderFacts(h, st, order);
  }

  // ---------------------------------------------------------------- renumbering keeps everything

  lemma RenumberedRandom(st: State, ids: seq<int>)
    requires Numbering(st, ids)
    ensures RandomOk(Renumbered(st, ids).vRandom, Renumbered(st, ids).mapInfo)
  {
  }

  lemma RenumberedAddr(st: State, ids: seq<int>)
    requires Numbering(st, ids) && AddrOk(st.mapAddr, st.mapInfo)
    ensures AddrOk(Renumbered(st, ids).mapAddr, Renumbered(st, ids).mapInfo)
  {
    var t := Renumbered(st, ids);
    forall k | k in t.mapInfo
      ensures t.mapInfo[k].addr.service.ip in t.mapAddr && IdOf(t.mapAddr, t.mapInfo[k].addr.service.ip) == k
    {
      IndexOfAt(ids, k);
      assert ids[k] in ids;
    }
  }

  lemma RenamedSlots(table: map<Slot, int>, ids: seq<int>, k: nat)
    requires Distinct(ids) && k < |ids| && forall s :: s in table ==> Holder(table, s) in ids
    ensures SlotsOf(Renamed(table, ids), k) == SlotsOf(table, ids[k])
  {
    forall s | s in table
      ensures Holder(Renamed(table, ids), s) == k <==> Holder(table, s) == ids[k]
    {
      IndexOfAt(ids, k);
    }
  }

  lemma RenumberedNew(h: Hashes, st: State, ids: seq<int>)
    requires Numbering(st, ids) && NewOk(h, st.vvNew, st.mapInfo)
    ensures NewOk(h, Renumbered(st, ids).vvNew, Renumbered(st, ids).mapInfo)
  {
    var t := Renumbered(st, ids);
    forall s | s in t.vvNew
      ensures Holder(t.vvNew, s) in t.mapInfo && !t.mapInfo[Holder(t.vvNew, s)].fInTried
      ensures Own(h, t.mapInfo[Holder(t.vvNew, s)].addr.service, s)
    {
      assert Holder(st.vvNew, s) in st.mapInfo;
    }
    forall k | k in t.mapInfo
      ensures t.mapInfo[k].nRefCount == |SlotsOf(t.vvNew, k)|
    {
      RenamedSlots(st.vvNew, ids, k);
      assert ids[k] in ids;
    }
  }

  lemma RenumberedTried(h: Hashes, st: State, ids: seq<int>)
    requires Numbering(st, ids) && TriedOk(h, st.vvTried, st.mapInfo)
    ensures TriedOk(h, Renumbered(st, ids).vvTried, Renumbered(st, ids).mapInfo)
  {
    var t := Renumbered(st, ids);
    forall s | s in t.vvTried
      ensures Holder(t.vvTried, s) in t.mapInfo && t.mapInfo[Holder(t.vvTried, s)].fInTried
      ensures s == TriedSlot(h, t.mapInfo[Holder(t.vvTried, s)].addr.service)
    {
      assert Holder(st.vvTried, s) in st.mapInfo;
    }
    forall k | k in t.mapInfo && t.mapInfo[k].fInTried
      ensures TriedSlot(h, t.mapInfo[k].addr.service) in t.vvTried && Holder(t.vvTried, TriedSlot(h, t.mapInfo[k].addr.service)) == k
    {
      IndexOfAt(ids, k);
      assert ids[k] in ids;
    }
  }

  /** Ids below n in a map of n + m entries. */
  lemma {:induction false} RangeSize(a: nat, b: nat, s: set<int>)
    requires a <= b && forall x :: x in s <==> a <= x < b
    ensures |s| == b - a
  {
    if a == b {
      NoElements(s);
    } else {
      RangeSize(a, b - 1, s - {b - 1});
    }
  }

  lemma RenumberedCounts(h: Hashes, st: State, order: seq<int>)
    requires Ordered(h, st, order)
    ensures var ids := NewOrder(st, order) + TriedOrder(st, order);
            Numbering(st, ids) && CountsOk(Renumbered(st, ids)) && EntriesOk(|ids|, Renumbered(st, ids).mapInfo, {})
  {
    hide Consistent, NewOrder, TriedOrder;
    NumberingOk(h, st, order);
    RenumberedSizes(h, st, order);
    RenumberedEntries(h, st, NewOrder(st, order) + TriedOrder(st, order));
  }

  lemma RenumberedEntries(h: Hashes, st: State, ids: seq<int>)
    requires Consistent(h, st) && Numbering(st, ids)
    ensures EntriesOk(|ids|, Renumbered(st, ids).mapInfo, {})
  {
    hide RandomOk, AddrOk, NewOk, TriedOk, TimesOk, CountsOk;
    var t := Renumbered(st, ids);
    forall k | k in t.mapInfo
      ensures EntryOk(t.mapInfo[k], false)
    {
      assert ids[k] in ids;
    }
  }

  lemma RenumberedSizes(h: Hashes, st: State, order: seq<int>)
    requires Ordered(h, st, order) && Numbering(st, NewOrder(st, order) + TriedOrder(st, order))
    ensures CountsOk(Renumbered(st, NewOrder(st, order) + TriedOrder(st, order)))
  {
    hide Consistent;
    OrderFacts(h, st, order);
    var news, trieds := NewOrder(st, order), TriedOrder(st, order);
    var ids := news + trieds;
    var t := Renumbered(st, ids);
    forall k | 0 <= k < |ids|
      ensures t.mapInfo[k].fInTried <==> k >= |news|
    {
      if k < |news| { assert ids[k] == news[k] && news[k] in news; } else { assert ids[k] == trieds[k - |news|] && ids[k] in trieds; }
    }
    RangeSize(0, |news|, NewIds(t.mapInfo));
    RangeSize(|news|, |ids|, TriedIds(t.mapInfo));
  }

  /** The restored manager passes the manager's own consistency check. */
  lemma RenumberedConsistent(h: Hashes, st: State, order: seq<int>)
    requires Ordered(h, st, order)
    ensures var ids := NewOrder(st, order) + TriedOrder(st, order);
            Numbering(st, ids) && Consistent(h, Renumbered(st, ids))
  {
    hide NewOrder, TriedOrder, RandomOk, AddrOk, NewOk, TriedOk, CountsOk, EntriesOk, TimesOk, Renumbered;
    NumberingOk(h, st, order);
    var ids := NewOrder(st, order) + TriedOrder(st, order);
    RenumberedRandom(st, ids);
    RenumberedAddr(st, ids);
    RenumberedNew(h, st, ids);
    RenumberedTried(h, st, ids);
    RenumberedCounts(h, st, order);
    RenumberedTimes(st, ids);
  }

  lemma RenumberedTimes(st: State, ids: seq<int>)
    requires Numbering(st, ids) && TimesOk(st.mapInfo)
    ensures TimesOk(Renumbered(st, ids).mapInfo) && Renumbered(st, ids).nIdCount == |ids|
  {
    var t := Renumbered(st, ids);
    forall k | k in t.mapInfo
      ensures t.mapInfo[k].nLastSuccess >= 0 && (t.mapInfo[k].fInTried ==> t.mapInfo[k].nLastSuccess != 0)
    {
      assert ids[k] in ids;
    }
  }

  // ---------------------------------------------------------------- reading it back

  /** Ids are the numbers below the entry count, new ones first, each at its own place in vRandom. */
  ghost predicate Dense(t: State) {
    && t.nNew >= 0 && t.nTried >= 0 && t.nIdCount == t.nNew + t.nTried && t.nLastGood == 1
    && (forall id :: id in t.mapInfo <==> 0 <= id < t.nIdCount)
    && (forall id :: id in t.mapInfo ==> (t.mapInfo[id].fInTried <==> id >= t.nNew))
    && t.vRandom == seq<int>(t.nIdCount, k => k)
  }

  /** The holders of a bucket's slots, by position. */
  ghost function Holders(vvNew: map<Slot, int>, bucket: nat, n: nat): seq<int> {
    if n == 0 then []
    else
      var s := Slot(bucket, n - 1);
      if s in vvNew then Holders(vvNew, bucket, n - 1) + [Holder(vvNew, s)] else Holders(vvNew, bucket, n - 1)
  }

  /** The disk holds exactly what is needed to rebuild t. */
  ghost predicate Describes(d: Disk, t: State) {
    && Usable(d) && Readable(d) && Rounds(Buckets(d)) == NEW_BUCKETS && Dense(t)
    && d.nNew == t.nNew == |d.news| && d.nTried == t.nTried == |d.trieds|
    && (forall k {:trigger d.news[k]} :: 0 <= k < t.nNew ==> NewRecordOk(d.news[k], t, k))
    && (forall k {:trigger d.trieds[k]} :: 0 <= k < t.nTried ==> TriedRecordOk(d.trieds[k], t, t.nNew + k))
    && |d.buckets| == NEW_BUCKETS
    && (forall b {:trigger d.buckets[b]} :: 0 <= b < NEW_BUCKETS ==> d.buckets[b] == Holders(t.vvNew, b, BUCKET_SIZE))
  }

  predicate NewRecordOk(r: Record, t: State, id: int) {
    id in t.mapInfo && FromRecord(r).(nRandomPos := id) == t.mapInfo[id].(nRefCount := 0)
  }

  predicate TriedRecordOk(r: Record, t: State, id: int) {
    id in t.mapInfo && FromRecord(r).(fInTried := true, nRandomPos := id) == t.mapInfo[id].(nRefCount := 0)
  }

  /** The part of t with the first k entries, before any reference is loaded. */
  ghost function Upto(t: State, k: nat, nIdCount: int): State {
    State(nIdCount, map id | id in t.mapInfo && id < k :: t.mapInfo[id].(nRefCount := 0),
          map ip | ip in t.mapAddr && IdOf(t.mapAddr, ip) < k :: IdOf(t.mapAddr, ip),
          seq<int>(k, i => i), t.nTried,
          map s | s in t.vvTried && Holder(t.vvTried, s) < k :: Holder(t.vvTried, s),
          t.nNew, map[], 1)
  }

  lemma UptoInfo(t: State, k: nat, c: int)
    requires Dense(t) && k in t.mapInfo
    ensures Upto(t, k + 1, c).mapInfo == Upto(t, k, c).mapInfo[k := t.mapInfo[k].(nRefCount := 0)]
  {
    var a, b := Upto(t, k + 1, c).mapInfo, Upto(t, k, c).mapInfo[k := t.mapInfo[k].(nRefCount := 0)];
    forall id: int
      ensures id in a <==> id in b
    {
    }
  }

  lemma UptoAddr(t: State, k: nat, c: int)
    requires Dense(t) && k in t.mapInfo && AddrOk(t.mapAddr, t.mapInfo)
    ensures Upto(t, k + 1, c).mapAddr == Upto(t, k, c).mapAddr[t.mapInfo[k].addr.service.ip := k]
  {
    var a, b := Upto(t, k + 1, c).mapAddr, Upto(t, k, c).mapAddr[t.mapInfo[k].addr.service.ip := k];
    forall ip: Ip
      ensures ip in a <==> ip in b
    {
    }
  }

  lemma UptoTried(h: Hashes, t: State, k: nat, c: int)
    requires Dense(t) && k in t.mapInfo && TriedOk(h, t.vvTried, t.mapInfo)
    ensures var slot := TriedSlot(h, t.mapInfo[k].addr.service);
            && (slot !in Upto(t, k, c).vvTried || !t.mapInfo[k].fInTried)
            && Upto(t, k + 1, c).vvTried == if t.mapInfo[k].fInTried then Upto(t, k, c).vvTried[slot := k] else Upto(t, k, c).vvTried
  {
    var slot := TriedSlot(h, t.mapInfo[k].addr.service);
    var a := Upto(t, k + 1, c).vvTried;
    var b := if t.mapInfo[k].fInTried then Upto(t, k, c).vvTried[slot := k] else Upto(t, k, c).vvTried;
    forall s: Slot
      ensures s in a <==> s in b
    {
    }
  }

  /** Entering the next entry, and its tried slot if it has one. */
  lemma UptoNext(h: Hashes, t: State, k: nat, c: int, i: Info)
    requires Dense(t) && k in t.mapInfo && AddrOk(t.mapAddr, t.mapInfo) && TriedOk(h, t.vvTried, t.mapInfo)
    requires i.(nRandomPos := k) == t.mapInfo[k].(nRefCount := 0)
    ensures var e, slot := Enter(Upto(t, k, c), k, i), TriedSlot(h, i.addr.service);
            && Upto(t, k + 1, c) == (if i.fInTried then e.(vvTried := e.vvTried[slot := k]) else e)
            && (i.fInTried ==> slot !in Upto(t, k, c).vvTried)
  {
    UptoInfo(t, k, c);
    UptoAddr(t, k, c);
    UptoTried(h, t, k, c);
    hide Dense, AddrOk, TriedOk;
    assert seq<int>(k + 1, j => j) == seq<int>(k, j => j) + [k];
  }

  lemma UptoCount(t: State, k: nat, c: int, c': int)
    ensures Upto(t, k, c).nIdCount == c && Upto(t, k, c).(nIdCount := c') == Upto(t, k, c')
  {
  }

  lemma ConsistentParts(h: Hashes, t: State)
    requires Consistent(h, t)
    ensures AddrOk(t.mapAddr, t.mapInfo) && TriedOk(h, t.vvTried, t.mapInfo)
    ensures forall s :: s in t.vvTried ==> Holder(t.vvTried, s) in t.mapInfo
  {
  }

  lemma {:induction false} LoadNewIs(h: Hashes, d: Disk, t: State, n: nat)
    requires Consistent(h, t) && Describes(d, t) && n <= t.nNew
    ensures LoadNew(h, d, n) == Upto(t, n, 0)
  {
    hide Consistent, Upto, AddrOk, TriedOk, Enter;
    ConsistentParts(h, t);
    if n == 0 {
      UptoNone(t);
    } else {
      var k := n - 1;
      LoadNewIs(h, d, t, k);
      assert NewRecordOk(d.news[k], t, k);
      UptoNext(h, t, k, 0, FromRecord(d.news[k]));
    }
  }

  lemma UptoNone(t: State)
    requires Dense(t) && AddrMan.AddrOk(t.mapAddr, t.mapInfo)
    requires forall s :: s in t.vvTried ==> Holder(t.vvTried, s) in t.mapInfo
    ensures Upto(t, 0, 0) == Empty.(nNew := t.nNew, nTried := t.nTried)
  {
    var u := Upto(t, 0, 0);
    forall id: int ensures id !in u.mapInfo {}
    forall ip: Ip ensures ip !in u.mapAddr {}
    forall s: Slot ensures s !in u.vvTried {}
    assert u.mapInfo == map[] && u.mapAddr == map[] && u.vvTried == map[];
  }

  lemma {:induction false} LoadTriedIs(h: Hashes, d: Disk, t: State, n: nat)
    requires Consistent(h, t) && Describes(d, t) && n <= t.nTried
    ensures LoadTried(h, d, n) == Upto(t, t.nNew + n, t.nNew + n)
  {
    hide Consistent, Upto, AddrOk, TriedOk, LoadTriedOne, LoadNew, Describes, Dense, TriedRecordOk;
    DescribesFacts(d, t);
    ConsistentParts(h, t);
    if n == 0 {
      LoadNewIs(h, d, t, t.nNew);
      UptoCount(t, t.nNew, 0, t.nNew);
    } else {
      LoadTriedIs(h, d, t, n - 1);
      DescribesTried(d, t, n - 1);
      LoadTriedStep(h, d, t, n - 1);
    }
  }

  lemma DescribesTried(d: Disk, t: State, n: nat)
    requires Describes(d, t) && n < t.nTried
    ensures t.nNew >= 0 && n < |d.trieds| && TriedRecordOk(d.trieds[n], t, t.nNew + n) && Dense(t) && t.nNew + n in t.mapInfo
  {}

  lemma LoadTriedStep(h: Hashes, d: Disk, t: State, n: nat)
    requires n < |d.trieds| && t.nNew >= 0 && TriedRecordOk(d.trieds[n], t, t.nNew + n) && Dense(t) && t.nNew + n in t.mapInfo
    requires AddrOk(t.mapAddr, t.mapInfo) && TriedOk(h, t.vvTried, t.mapInfo)
    ensures LoadTriedOne(h, d, Upto(t, t.nNew + n, t.nNew + n), n) == Upto(t, t.nNew + n + 1, t.nNew + n + 1)
  {
    hide Upto, AddrOk, TriedOk, Dense;
    var k := t.nNew + n;
    UptoNext(h, t, k, k, FromRecord(d.trieds[n]).(fInTried := true));
    UptoCount(t, k, k, k);
    UptoCount(t, k + 1, k, k + 1);
  }

  /** t with only the references in vv. */
  ghost function Partial(t: State, vv: map<Slot, int>): State {
    t.(vvNew := vv, mapInfo := map id | id in t.mapInfo :: t.mapInfo[id].(nRefCount := |SlotsOf(vv, id)|))
  }

  ghost predicate Within(vv: map<Slot, int>, vvNew: map<Slot, int>) {
    forall s :: s in vv ==> s in vvNew && Holder(vv, s) == Holder(vvNew, s)
  }

  /** One stored reference restores one slot. */
  lemma ReferenceStep(h: Hashes, d: Disk, t: State, vv: map<Slot, int>, s: Slot)
    requires Consistent(h, t) && Describes(d, t) && Within(vv, t.vvNew) && s in t.vvNew && s !in vv
    ensures LoadReference(h, d, Partial(t, vv), s.bucket, Holder(t.vvNew, s)) == Partial(t, vv[s := Holder(t.vvNew, s)])
  {
    hide RandomOk, AddrOk, TriedOk, CountsOk, TimesOk, Describes, SlotsOf;
    DescribesFacts(d, t);
    var id := Holder(t.vvNew, s);
    SlotsFewer(vv, t.vvNew, s, id);
    assert id in t.mapInfo && Own(h, t.mapInfo[id].addr.service, s);
    assert EntryOk(t.mapInfo[id], false);
    hide NewOk, EntriesOk, Dense;
    PartialNext(t, vv, s, id);
  }

  lemma PartialNext(t: State, vv: map<Slot, int>, s: Slot, id: int)
    requires id in t.mapInfo && s !in vv
    ensures Referenced(Partial(t, vv), id, s) == Partial(t, vv[s := id])
  {
    hide SlotsOf;
    SlotsAdd(vv, s, id);
    var r, p := Referenced(Partial(t, vv), id, s), Partial(t, vv[s := id]);
    forall k: int ensures k in r.mapInfo <==> k in p.mapInfo {}
    assert r.mapInfo == p.mapInfo;
  }

  lemma DescribesFacts(d: Disk, t: State)
    requires Describes(d, t)
    ensures Usable(d) && d.nNew == t.nNew && Dense(t)
    ensures Readable(d) && Rounds(Buckets(d)) == NEW_BUCKETS == |d.buckets| && d.nTried == t.nTried >= 0 && d.nNew >= 0
    ensures t.nIdCount == t.nNew + t.nTried && |d.news| == t.nNew && |d.trieds| == t.nTried
  {
  }

  lemma SlotsAdd(vv: map<Slot, int>, s: Slot, id: int)
    requires s !in vv
    ensures |SlotsOf(vv[s := id], id)| == |SlotsOf(vv, id)| + 1
    ensures forall k :: k != id ==> SlotsOf(vv[s := id], k) == SlotsOf(vv, k)
  {
    assert SlotsOf(vv[s := id], id) == SlotsOf(vv, id) + {s};
    forall k | k != id
      ensures SlotsOf(vv[s := id], k) == SlotsOf(vv, k)
    {
    }
  }

  lemma SlotsFewer(vv: map<Slot, int>, vvNew: map<Slot, int>, s: Slot, id: int)
    requires Within(vv, vvNew) && s in vvNew && s !in vv && Holder(vvNew, s) == id
    ensures |SlotsOf(vv, id)| < |SlotsOf(vvNew, id)|
  {
    assert SlotsOf(vv, id) <= SlotsOf(vvNew, id) - {s};
    SubsetSize(SlotsOf(vv, id), SlotsOf(vvNew, id) - {s});
  }

  /** The slots that come before a place in the order of the file. */
  ghost function Before(vvNew: map<Slot, int>, b: nat, p: nat): map<Slot, int> {
    map s | s in vvNew && (s.bucket < b || (s.bucket == b && s.pos < p)) :: Holder(vvNew, s)
  }

  lemma BeforeNext(vvNew: map<Slot, int>, b: nat, p: nat)
    ensures var s := Slot(b, p);
            && s !in Before(vvNew, b, p) && Within(Before(vvNew, b, p), vvNew)
            && Before(vvNew, b, p + 1) == if s in vvNew then Before(vvNew, b, p)[s := Holder(vvNew, s)] else Before(vvNew, b, p)
  {
    var s := Slot(b, p);
    var x := Before(vvNew, b, p + 1);
    var y := if s in vvNew then Before(vvNew, b, p)[s := Holder(vvNew, s)] else Before(vvNew, b, p);
    forall u: Slot
      ensures u in x <==> u in y
    {
    }
  }

  lemma {:induction false} HoldersPrefix(vvNew: map<Slot, int>, b: nat, p: nat, n: nat)
    requires p <= n
    ensures Holders(vvNew, b, p) <= Holders(vvNew, b, n)
  {
    if p < n { HoldersPrefix(vvNew, b, p, n - 1); }
  }

  lemma {:induction false} ListIs(h: Hashes, d: Disk, t: State, b: nat, p: nat)
    requires Consistent(h, t) && Describes(d, t) && p <= BUCKET_SIZE
    ensures var list := Holders(t.vvNew, b, BUCKET_SIZE);
            && |Holders(t.vvNew, b, p)| <= |list|
            && LoadList(h, d, Partial(t, Before(t.vvNew, b, 0)), b, list, |Holders(t.vvNew, b, p)|) == Partial(t, Before(t.vvNew, b, p))
  {
    hide Consistent, Describes, Partial, LoadReference;
    HoldersPrefix(t.vvNew, b, p, BUCKET_SIZE);
    if p > 0 {
      ListIs(h, d, t, b, p - 1);
      BeforeNext(t.vvNew, b, p - 1);
      var s := Slot(b, p - 1);
      if s in t.vvNew {
        ReferenceStep(h, d, t, Before(t.vvNew, b, p - 1), s);
        var list := Holders(t.vvNew, b, BUCKET_SIZE);
        assert list[|Holders(t.vvNew, b, p)| - 1] == Holder(t.vvNew, s);
      }
    }
  }

  lemma BeforeWhole(h: Hashes, t: State, b: nat)
    requires Consistent(h, t)
    ensures Before(t.vvNew, b, BUCKET_SIZE) == Before(t.vvNew, b + 1, 0)
    ensures Before(t.vvNew, NEW_BUCKETS, 0) == t.vvNew && Before(t.vvNew, 0, 0) == map[]
  {
    hide RandomOk, AddrOk, TriedOk, CountsOk, TimesOk, EntriesOk;
    forall s: Slot
      ensures s in Before(t.vvNew, b, BUCKET_SIZE) <==> s in Before(t.vvNew, b + 1, 0)
    {
      if s in t.vvNew { assert Own(h, t.mapInfo[Holder(t.vvNew, s)].addr.service, s); }
    }
    forall s: Slot
      ensures s in Before(t.vvNew, NEW_BUCKETS, 0) <==> s in t.vvNew
    {
      if s in t.vvNew { assert Own(h, t.mapInfo[Holder(t.vvNew, s)].addr.service, s); }
    }
    forall s: Slot
      ensures s !in Before(t.vvNew, 0, 0)
    {
    }
    assert Before(t.vvNew, 0, 0) == map[];
  }

  lemma {:induction false} BucketsAre(h: Hashes, d: Disk, t: State, b: nat)
    requires Consistent(h, t) && Describes(d, t) && b <= NEW_BUCKETS
    ensures |d.buckets| == NEW_BUCKETS && LoadBuckets(h, d, Partial(t, map[]), b) == Partial(t, Before(t.vvNew, b, 0))
  {
    hide Consistent, Partial, LoadList;
    BeforeWhole(h, t, b);
    if b > 0 {
      BucketsAre(h, d, t, b - 1);
      ListIs(h, d, t, b - 1, BUCKET_SIZE);
      BeforeWhole(h, t, b - 1);
      assert d.buckets[b - 1] == Holders(t.vvNew, b - 1, BUCKET_SIZE);
    }
  }

  lemma PartialWhole(h: Hashes, t: State)
    requires NewOk(h, t.vvNew, t.mapInfo)
    ensures Partial(t, t.vvNew) == t
  {
    hide SlotsOf;
    var p := Partial(t, t.vvNew);
    forall id: int ensures id in p.mapInfo <==> id in t.mapInfo {}
    assert p.mapInfo == t.mapInfo;
  }

  lemma PartialNone(t: State)
    requires Dense(t)
    requires forall ip :: ip in t.mapAddr ==> IdOf(t.mapAddr, ip) in t.mapInfo
    requires forall s :: s in t.vvTried ==> Holder(t.vvTried, s) in t.mapInfo
    ensures Partial(t, map[]) == Upto(t, t.nIdCount, t.nIdCount)
  {
    var p, u := Partial(t, map[]), Upto(t, t.nIdCount, t.nIdCount);
    NoSlotsAtAll(t);
    forall id: int ensures id in p.mapInfo <==> id in u.mapInfo {}
    assert p.mapInfo == u.mapInfo;
    forall ip: Ip ensures ip in u.mapAddr <==> ip in t.mapAddr {}
    assert u.mapAddr == t.mapAddr;
    forall s: Slot ensures s in u.vvTried <==> s in t.vvTried {}
    assert u.vvTried == t.vvTried;
  }

  lemma NoSlotsAtAll(t: State)
    ensures forall id :: id in t.mapInfo ==> |SlotsOf(map[], id)| == 0
  {
    forall id | id in t.mapInfo
      ensures |SlotsOf(map[], id)| == 0
    {
      assert SlotsOf(map[], id) == {};
    }
  }

  lemma NoOrphans(h: Hashes, t: State)
    requires Consistent(h, t)
    ensures NoneOrphaned(t)
  {
    hide RandomOk, AddrOk, NewOk, TriedOk, CountsOk, TimesOk;
  }

  /** Reading such a disk rebuilds t, and leaves no entry without a place. */
  lemma LoadedIs(h: Hashes, d: Disk, t: State)
    requires Consistent(h, t) && Describes(d, t)
    ensures Loaded(h, d) == t && NoneOrphaned(t)
  {
    hide Consistent, Describes, Upto, Partial, LoadBuckets, LoadTried, Dense, Readable, Usable, Before, Holders;
    DescribesFacts(d, t);
    NoOrphans(h, t);
    LoadTriedIs(h, d, t, t.nTried);
    WholeAndNone(h, t);
    BucketsAre(h, d, t, NEW_BUCKETS);
    BeforeWhole(h, t, 0);
  }

  lemma WholeAndNone(h: Hashes, t: State)
    requires Consistent(h, t) && Dense(t)
    ensures Partial(t, t.vvNew) == t && Partial(t, map[]) == Upto(t, t.nIdCount, t.nIdCount)
  {
    assert AddrOk(t.mapAddr, t.mapInfo) && NewOk(h, t.vvNew, t.mapInfo);
    hide RandomOk, CountsOk, TimesOk, EntriesOk, Partial, Upto;
    PartialWhole(h, t);
    PartialNone(t);
  }

  // ---------------------------------------------------------------- the file describes the renumbered manager

  /** Different numbers below n are at most n. */
  lemma DistinctBelow(s: seq<int>, n: nat)
    requires Distinct(s) && forall i {:trigger s[i]} :: 0 <= i < |s| ==> 0 <= s[i] < n
    ensures |s| <= n
  {
    var all := Range(n);
    var t := set x | x in s;
    RangeSize(0, n, all);
    DistinctSize(s, t);
    assert all == t + (all - t);
  }

  ghost function Range(n: nat): (r: set<int>)
    ensures forall x :: x in r <==> 0 <= x < n
  {
    if n == 0 then {} else Range(n - 1) + {n - 1}
  }

  function Number(s: Slot): int { s.bucket * BUCKET_SIZE + s.pos }

  lemma NumberUnique(a: Slot, b: Slot)
    requires a.pos < BUCKET_SIZE && b.pos < BUCKET_SIZE && Number(a) == Number(b)
    ensures a == b
  {
  }

  /** As many entries as distinct slots of a table of so many buckets. */
  lemma TableFits(table: map<Slot, int>, ids: seq<int>, slots: seq<Slot>, buckets: nat)
    requires Distinct(ids) && |slots| == |ids|
    requires forall k {:trigger slots[k]} :: 0 <= k < |slots| ==>
               slots[k] in table && Holder(table, slots[k]) == ids[k] && slots[k].bucket < buckets && slots[k].pos < BUCKET_SIZE
    ensures |ids| <= buckets * BUCKET_SIZE
  {
    var numbers := seq<int>(|slots|, k requires 0 <= k < |slots| => Number(slots[k]));
    forall i, j | 0 <= i < j < |numbers|
      ensures numbers[i] != numbers[j]
    {
      if numbers[i] == numbers[j] {
        NumberUnique(slots[i], slots[j]);
        assert false;
      }
    }
    DistinctBelow(numbers, buckets * BUCKET_SIZE);
  }

  ghost function ASlot(h: Hashes, st: State, id: int): (s: Slot)
    requires Consistent(h, st) && id in st.mapInfo && !st.mapInfo[id].fInTried
    ensures s in st.vvNew && Holder(st.vvNew, s) == id && s.bucket < NEW_BUCKETS && s.pos < BUCKET_SIZE
  {
    HasSlot(h, st, id);
    var s :| s in SlotsOf(st.vvNew, id);
    assert Own(h, st.mapInfo[Holder(st.vvNew, s)].addr.service, s);
    s
  }

  lemma HasSlot(h: Hashes, st: State, id: int)
    requires Consistent(h, st) && id in st.mapInfo && !st.mapInfo[id].fInTried
    ensures SlotsOf(st.vvNew, id) != {}
  {
    hide RandomOk, AddrOk, TriedOk, CountsOk, TimesOk;
    assert EntryOk(st.mapInfo[id], false);
    assert |SlotsOf(st.vvNew, id)| >= 1;
  }

  lemma CountsFit(h: Hashes, st: State, order: seq<int>)
    requires Ordered(h, st, order)
    ensures st.nNew <= NEW_BUCKETS * BUCKET_SIZE && st.nTried <= TRIED_BUCKETS * BUCKET_SIZE
  {
    OrderFacts(h, st, order);
    var news, trieds := NewOrder(st, order), TriedOrder(st, order);
    DistinctParts(news, trieds);
    NewCountFits(h, st, news);
    TriedCountFits(h, st, trieds);
  }

  lemma DistinctParts(a: seq<int>, b: seq<int>)
    requires Distinct(a + b)
    ensures Distinct(a) && Distinct(b)
  {
    var s := a + b;
    forall i, j | 0 <= i < j < |a| ensures a[i] != a[j] { assert s[i] == a[i] && s[j] == a[j]; }
    forall i, j | 0 <= i < j < |b| ensures b[i] != b[j] { assert s[|a| + i] == b[i] && s[|a| + j] == b[j]; }
  }

  lemma NewCountFits(h: Hashes, st: State, news: seq<int>)
    requires Consistent(h, st) && Distinct(news)
    requires forall id :: id in news <==> id in st.mapInfo && !st.mapInfo[id].fInTried
    ensures |news| <= NEW_BUCKETS * BUCKET_SIZE
  {
    hide Consistent;
    var slots: seq<Slot> := [];
    while |slots| < |news|
      invariant |slots| <= |news|
      invariant forall k {:trigger slots[k]} :: 0 <= k < |slots| ==>
                  slots[k] in st.vvNew && Holder(st.vvNew, slots[k]) == news[k] && slots[k].bucket < NEW_BUCKETS && slots[k].pos < BUCKET_SIZE
    {
      assert news[|slots|] in news;
      slots := slots + [ASlot(h, st, news[|slots|])];
    }
    TableFits(st.vvNew, news, slots, NEW_BUCKETS);
  }

  lemma TriedCountFits(h: Hashes, st: State, trieds: seq<int>)
    requires Consistent(h, st) && Distinct(trieds)
    requires forall id :: id in trieds <==> id in st.mapInfo && st.mapInfo[id].fInTried
    ensures |trieds| <= TRIED_BUCKETS * BUCKET_SIZE
  {
    hide RandomOk, AddrOk, NewOk, CountsOk, TimesOk, EntriesOk;
    var slots: seq<Slot> := [];
    while |slots| < |trieds|
      invariant |slots| <= |trieds|
      invariant forall k {:trigger slots[k]} :: 0 <= k < |slots| ==>
                  slots[k] in st.vvTried && Holder(st.vvTried, slots[k]) == trieds[k] && slots[k].bucket < TRIED_BUCKETS && slots[k].pos < BUCKET_SIZE
    {
      var id := trieds[|slots|];
      assert id in trieds && id in st.mapInfo;
      slots := slots + [TriedSlot(h, st.mapInfo[id].addr.service)];
    }
    TableFits(st.vvTried, trieds, slots, TRIED_BUCKETS);
  }

  lemma IndexInFront(a: seq<int>, b: seq<int>, x: int)
    requires Distinct(a + b) && x in a
    ensures x in a + b && IndexOf(a + b, x) == IndexOf(a, x)
  {
    var k := IndexOf(a, x);
    assert (a + b)[k] == x;
    IndexOfAt(a + b, k);
  }

  lemma {:induction false} ListsAgree(vvNew: map<Slot, int>, news: seq<int>, trieds: seq<int>, b: nat, n: nat)
    requires Distinct(news + trieds) && forall s :: s in vvNew ==> Holder(vvNew, s) in news
    ensures forall s :: s in vvNew ==> Holder(vvNew, s) in news + trieds
    ensures BucketList(vvNew, news, b, n) == Holders(Renamed(vvNew, news + trieds), b, n)
  {
    if n > 0 {
      ListsAgree(vvNew, news, trieds, b, n - 1);
      var s := Slot(b, n - 1);
      if s in vvNew { IndexInFront(news, trieds, Holder(vvNew, s)); }
    }
  }

  lemma MarkedTwice(x: int)
    ensures Marked(Marked(x)) == x
  {
    var q := x / MARK;
    assert (x + MARK) / MARK == q + 1 && (x - MARK) / MARK == q - 1;
  }

  lemma RecordsDescribe(h: Hashes, st: State, order: seq<int>)
    requires Ordered(h, st, order)
    ensures Numbering(st, NewOrder(st, order) + TriedOrder(st, order))
    ensures var t, d := Renumbered(st, NewOrder(st, order) + TriedOrder(st, order)), Serialized(h, st, order);
            && |d.news| == st.nNew && |d.trieds| == st.nTried
            && (forall k {:trigger d.news[k]} :: 0 <= k < st.nNew ==> NewRecordOk(d.news[k], t, k))
            && (forall k {:trigger d.trieds[k]} :: 0 <= k < st.nTried ==> TriedRecordOk(d.trieds[k], t, st.nNew + k))
  {
    hide Consistent;
    NumberingOk(h, st, order);
    OrderFacts(h, st, order);
    var news, trieds := NewOrder(st, order), TriedOrder(st, order);
    var ids := news + trieds;
    var t, d := Renumbered(st, ids), Serialized(h, st, order);
    forall k {:trigger d.news[k]} | 0 <= k < st.nNew
      ensures NewRecordOk(d.news[k], t, k)
    {
      assert ids[k] == news[k] && news[k] in news;
    }
    forall k {:trigger d.trieds[k]} | 0 <= k < st.nTried
      ensures TriedRecordOk(d.trieds[k], t, st.nNew + k)
    {
      assert ids[st.nNew + k] == trieds[k] && trieds[k] in trieds;
    }
  }

  lemma RenumberedDense(h: Hashes, st: State, order: seq<int>)
    requires Ordered(h, st, order)
    ensures Numbering(st, NewOrder(st, order) + TriedOrder(st, order))
    ensures Dense(Renumbered(st, NewOrder(st, order) + TriedOrder(st, order)))
  {
    hide Consistent;
    NumberingOk(h, st, order);
    OrderFacts(h, st, order);
    var news, trieds := NewOrder(st, order), TriedOrder(st, order);
    var ids := news + trieds;
    var t := Renumbered(st, ids);
    forall k | k in t.mapInfo
      ensures t.mapInfo[k].fInTried <==> k >= t.nNew
    {
      if k < |news| { assert ids[k] == news[k] && news[k] in news; } else { assert ids[k] == trieds[k - |news|] && ids[k] in trieds; }
    }
  }

  lemma SerializedDescribes(h: Hashes, st: State, order: seq<int>)
    requires Ordered(h, st, order)
    ensures Numbering(st, NewOrder(st, order) + TriedOrder(st, order))
    ensures Describes(Serialized(h, st, order), Renumbered(st, NewOrder(st, order) + TriedOrder(st, order)))
  {
    hide Consistent, Dense, NewRecordOk, TriedRecordOk, NewOrder, TriedOrder, Holders, BucketList;
    RecordsDescribe(h, st, order);
    RenumberedDense(h, st, order);
    CountsFit(h, st, order);
    MarkedTwice(NEW_BUCKETS);
    OrderFacts(h, st, order);
    BucketsDescribe(h, st, order);
  }

  lemma BucketsDescribe(h: Hashes, st: State, order: seq<int>)
    requires Ordered(h, st, order) && Numbering(st, NewOrder(st, order) + TriedOrder(st, order))
    ensures var t, d := Renumbered(st, NewOrder(st, order) + TriedOrder(st, order)), Serialized(h, st, order);
            && |d.buckets| == NEW_BUCKETS
            && forall b {:trigger d.buckets[b]} :: 0 <= b < NEW_BUCKETS ==> d.buckets[b] == Holders(t.vvNew, b, BUCKET_SIZE)
  {
    hide Consistent, NewOrder, TriedOrder, Holders, BucketList;
    OrderFacts(h, st, order);
    var news, trieds := NewOrder(st, order), TriedOrder(st, order);
    var t, d := Renumbered(st, news + trieds), Serialized(h, st, order);
    forall b {:trigger d.buckets[b]} | 0 <= b < NEW_BUCKETS
      ensures d.buckets[b] == Holders(t.vvNew, b, BUCKET_SIZE)
    {
      ListsAgree(st.vvNew, news, trieds, b, BUCKET_SIZE);
    }
  }

  /**
   Reading back what was written for a consistent manager gives a consistent manager that is the same
   up to the numbering of entries and what is kept only in memory: nothing is lost or pruned, and every
   slot of both tables is restored.
   */
  lemma RoundTrip(h: Hashes, st: State, order: seq<int>)
    requires Ordered(h, st, order)
    ensures var ids, d := NewOrder(st, order) + TriedOrder(st, order), Serialized(h, st, order);
            && Numbering(st, ids) && Readable(d) && d.nNew >= 0 && d.nTried >= 0
            && Loaded(h, d) == Renumbered(st, ids) && Consistent(h, Loaded(h, d))
            && NoneOrphaned(Loaded(h, d)) && Unserialized(h, d) == Ok(Renumbered(st, ids))
  {
    SerializedDescribes(h, st, order);
    RenumberedConsistent(h, st, order);
    var ids, d := NewOrder(st, order) + TriedOrder(st, order), Serialized(h, st, order);
    DescribesFacts(d, Renumbered(st, ids));
    hide Consistent, Describes, Serialized, Renumbered, Loaded;
    LoadedIs(h, d, Renumbered(st, ids));
    PrunedNone(Loaded(h, d), Loaded(h, d).vRandom, |Loaded(h, d).vRandom|);
  }

  // ---------------------------------------------------------------- the two loops

  lemma PickSnoc(order: seq<int>, m: map<int, Info>, i: nat, tried: bool)
    requires Known(order, m) && i < |order|
    ensures Known(order[..i], m) && Known(order[..i + 1], m)
    ensures Pick(order[..i + 1], m, tried) ==
            if InfoAt(order, m, i).fInTried == tried then Pick(order[..i], m, tried) + [order[i]] else Pick(order[..i], m, tried)
  {
    assert order[..i + 1][..i] == order[..i];
  }

  /** The number given to each new entry is its place among the new entries. */
  ghost predicate NumbersOk(mapUnkIds: map<int, int>, ids: seq<int>) {
    forall k {:trigger ids[k]} :: 0 <= k < |ids| ==> NumberIs(mapUnkIds, Nth(ids, k), k)
  }

  predicate NumberIs(mapUnkIds: map<int, int>, id: int, k: int) {
    id in mapUnkIds && mapUnkIds[id] == k
  }

  /** The first i entries visited: what was written of them, and how they were numbered. */
  ghost predicate Written(order: seq<int>, m: map<int, Info>, i: nat, tried: bool, records: seq<Record>, mapUnkIds: map<int, int>)
    requires Known(order, m) && i <= |order|
  {
    && Known(order[..i], m)
    && var ids := Pick(order[..i], m, tried);
    && Known(ids, m) && records == Records(ids, m) && NumbersOk(mapUnkIds, ids)
  }

  lemma WriteStep(order: seq<int>, m: map<int, Info>, i: nat, tried: bool, records: seq<Record>, mapUnkIds: map<int, int>)
    requires Known(order, m) && Distinct(order) && i < |order| && Written(order, m, i, tried, records, mapUnkIds)
    ensures var info := InfoAt(order, m, i);
            Written(order, m, i + 1, tried, if info.fInTried == tried then records + [ToRecord(info)] else records, mapUnkIds[order[i] := |records|])
  {
    PickSnoc(order, m, i, tried);
    var ids, id, info := Pick(order[..i], m, tried), order[i], InfoAt(order, m, i);
    var ids' := if info.fInTried == tried then ids + [id] else ids;
    FreshId(order, m, i, tried);
    forall k {:trigger ids'[k]} | 0 <= k < |ids'|
      ensures Nth(ids', k) in m && NumberIs(mapUnkIds[id := |records|], Nth(ids', k), k)
    {
      if k < |ids| { assert NumberIs(mapUnkIds, Nth(ids, k), k) && Nth(ids, k) in m; assert ids[k] in ids; }
    }
    assert info.fInTried == tried ==> Records(ids', m) == Records(ids, m) + [ToRecord(info)];
  }

  lemma FreshId(order: seq<int>, m: map<int, Info>, i: nat, tried: bool)
    requires i < |order| && Known(order, m) && Known(order[..i], m) && Distinct(order)
    ensures order[i] !in Pick(order[..i], m, tried)
  {
    var front := order[..i];
    assert Distinct(front);
    PickIs(front, m, tried);
    forall j | 0 <= j < i
      ensures front[j] != order[i]
    {
    }
  }

  /** Records of the entries of one kind, in the order they are visited. */
  method WriteEntries(ghost h: Hashes, st: State, order: seq<int>, tried: bool, limit: int)
    returns (records: seq<Record>, mapUnkIds: map<int, int>)
    requires Ordered(h, st, order) && limit == if tried then st.nTried else st.nNew
    ensures Known(order, st.mapInfo) && Known(Pick(order, st.mapInfo, tried), st.mapInfo)
    ensures records == Records(Pick(order, st.mapInfo, tried), st.mapInfo) && NumbersOk(mapUnkIds, Pick(order, st.mapInfo, tried))
  {
    records, mapUnkIds := [], map[];
    KnownFrom(order, st.mapInfo);
    PickAll(h, st, order, tried);
    RefCounts(h, st);
    hide Consistent, Pick;
    WriteStart(order, st.mapInfo, tried);
    var nIds, i := 0, 0;
    while i < |order|
      invariant 0 <= i <= |order| && nIds == |records| && Written(order, st.mapInfo, i, tried, records, mapUnkIds)
    {
      WriteStep(order, st.mapInfo, i, tried, records, mapUnkIds);
      assert Nth(order, i) in st.mapInfo;
      var info := InfoAt(order, st.mapInfo, i);
      mapUnkIds := mapUnkIds[order[i] := nIds];
      if (if tried then info.fInTried else info.nRefCount != 0) {
        PickFits(order, st.mapInfo, i, tried);
        assert nIds != limit;
        records := records + [ToRecord(info)];
        nIds := nIds + 1;
      }
      i := i + 1;
    }
    assert order[..i] == order;
  }

  lemma WriteStart(order: seq<int>, m: map<int, Info>, tried: bool)
    requires Known(order, m)
    ensures Written(order, m, 0, tried, [], map[])
  {
  }

  /** An entry is in the tried table exactly when it has no reference. */
  lemma RefCounts(h: Hashes, st: State)
    requires Consistent(h, st)
    ensures forall id :: id in st.mapInfo ==> (st.mapInfo[id].nRefCount != 0 <==> !st.mapInfo[id].fInTried)
  {
    hide RandomOk, AddrOk, NewOk, TriedOk, CountsOk, TimesOk;
    forall id | id in st.mapInfo
      ensures st.mapInfo[id].nRefCount != 0 <==> !st.mapInfo[id].fInTried
    {
      assert EntryOk(st.mapInfo[id], false);
    }
  }

  lemma PickAll(h: Hashes, st: State, order: seq<int>, tried: bool)
    requires Ordered(h, st, order)
    ensures Known(order, st.mapInfo) && |Pick(order, st.mapInfo, tried)| == if tried then st.nTried else st.nNew
  {
    KnownFrom(order, st.mapInfo);
    OrderFacts(h, st, order);
  }

  /** An entry still to be written means the count is not used up. */
  lemma {:induction false} PickFits(order: seq<int>, m: map<int, Info>, i: nat, tried: bool)
    requires Known(order, m) && i < |order| && InfoAt(order, m, i).fInTried == tried
    ensures Known(order[..i], m) && |Pick(order[..i], m, tried)| < |Pick(order, m, tried)|
    decreases |order|
  {
    var k := |order| - 1;
    PickSnoc(order, m, k, tried);
    assert order[..k + 1] == order;
    if i < k {
      assert forall j {:trigger order[..k][j]} :: 0 <= j < k ==> order[..k][j] == order[j];
      PickFits(order[..k], m, i, tried);
      assert order[..k][..i] == order[..i];
    }
  }

  method WriteBucket(st: State, mapUnkIds: map<int, int>, bucket: nat, ghost news: seq<int>) returns (list: seq<int>)
    requires Distinct(news) && NumbersOk(mapUnkIds, news) && forall s :: s in st.vvNew ==> Holder(st.vvNew, s) in news
    ensures list == BucketList(st.vvNew, news, bucket, BUCKET_SIZE)
  {
    list := [];
    var i := 0;
    while i < BUCKET_SIZE
      invariant 0 <= i <= BUCKET_SIZE && list == BucketList(st.vvNew, news, bucket, i)
    {
      var s := Slot(bucket, i);
      if s in st.vvNew {
        var id := Holder(st.vvNew, s);
        ghost var k := IndexOf(news, id);
        assert NumberIs(mapUnkIds, Nth(news, k), k);
        list := list + [mapUnkIds[id]];
      }
      i := i + 1;
    }
  }

  /** Writes a manager; the original's asserts on the two counters hold. */
  method Serialize(ghost h: Hashes, st: State, order: seq<int>) returns (d: Disk)
    requires Ordered(h, st, order)
    ensures d == Serialized(h, st, order)
  {
    hide Consistent, Pick, BucketList;
    OrderFacts(h, st, order);
    ghost var news, trieds := NewOrder(st, order), TriedOrder(st, order);
    DistinctParts(news, trieds);
    var newRecords, mapUnkIds := WriteEntries(h, st, order, false, st.nNew);
    var triedRecords, _ := WriteEntries(h, st, order, true, st.nTried);
    var buckets: seq<seq<int>> := [];
    while |buckets| < NEW_BUCKETS
      invariant |buckets| <= NEW_BUCKETS
      invariant forall b {:trigger buckets[b]} :: 0 <= b < |buckets| ==> buckets[b] == BucketList(st.vvNew, news, b, BUCKET_SIZE)
    {
      var list := WriteBucket(st, mapUnkIds, |buckets|, news);
      buckets := buckets + [list];
    }
    d := Disk(1, KEY_SIZE, st.nNew, st.nTried, Marked(NEW_BUCKETS), newRecords, triedRecords, buckets);
    assert buckets == Serialized(h, st, order).buckets;
  }

  /** Reads a manager; failing is a wrong key size, an excessive count, the end of the file, or an assert. */
  method Unserialize(h: Hashes, d: Disk) returns (r: Result<State>)
    ensures r == Unserialized(h, d)
  {
    hide LoadNewOne, LoadTriedOne, LoadReference;
    if !Readable(d) {
      return Failed;
    }
    var st := Empty.(nNew := d.nNew, nTried := d.nTried);
    var n := 0;
    while n < d.nNew
      invariant 0 <= n <= Rounds(d.nNew) && st == LoadNew(h, d, n)
    {
      st := LoadNewOne(h, d, st, n);
      n := n + 1;
    }
    st := st.(nIdCount := d.nNew);
    n := 0;
    while n < d.nTried
      invariant 0 <= n <= Rounds(d.nTried) && st == LoadTried(h, d, n)
    {
      st := LoadTriedOne(h, d, st, n);
      n := n + 1;
    }
    ghost var start := st;
    var bucket := 0;
    while bucket < Rounds(Buckets(d))
      invariant 0 <= bucket <= Rounds(Buckets(d)) && st == LoadBuckets(h, d, start, bucket)
    {
      var list := d.buckets[bucket];
      n := 0;
      while n < |list|
        invariant 0 <= n <= |list| && st == LoadList(h, d, LoadBuckets(h, d, start, bucket), bucket, list, n)
      {
        st := LoadReference(h, d, st, bucket, list[n]);
        n := n + 1;
      }
      bucket := bucket + 1;
    }
    r := Prune(st);
  }

  /** Drops the entries without a reference. */
  method Prune(loaded: State) returns (r: Result<State>)
    ensures r == Pruned(loaded, loaded.vRandom, |loaded.vRandom|)
  {
    hide Delete;
    var st := loaded;
    var ids := st.vRandom;
    var i := 0;
    while i < |ids|
      invariant 0 <= i <= |ids| && Ok(st) == Pruned(loaded, ids, i)
    {
      var id := ids[i];
      if id in st.mapInfo && Orphan(st.mapInfo[id]) {
        var pruned := Delete(st, id);
        if pruned.Failed? {
          PrunedFails(loaded, ids, i + 1, |ids|);
          return Failed;
        }
        st := pruned.value;
      }
      i := i + 1;
    }
    return Ok(st);
  }

  lemma {:induction false} PrunedFails(st: State, ids: seq<int>, i: nat, n: nat)
    requires i <= n <= |ids| && Pruned(st, ids, i).Failed?
    ensures Pruned(st, ids, n).Failed?
  {
    if i < n { PrunedFails(st, ids, i, n - 1); }
  }

  /** Writing a consistent manager and reading the file back. */
  method SaveAndLoad(h: Hashes, st: State, order: seq<int>) returns (r: Result<State>)
    requires Ordered(h, st, order)
    ensures Numbering(st, NewOrder(st, order) + TriedOrder(st, order))
    ensures r == Ok(Renumbered(st, NewOrder(st, order) + TriedOrder(st, order))) && Consistent(h, r.value)
  {
    hide Consistent, Serialized, Loaded, Renumbered, Unserialized;
    RoundTrip(h, st, order);
    var d := Serialize(h, st, order);
    r := Unserialize(h, d);
  }
}
