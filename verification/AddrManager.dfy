/** The code of the address manager, proved against the functions of `AddrMan`. */
module AddrManager {
  import opened Basics
  import opened AddrMan

  /** Only the counter of new entries is off. */
  function Shift(st: State, d: int): State { st.(nNew := st.nNew + d) }

  lemma ClearNewShift(st: State, slot: Slot, d: int)
    requires ClearNew(st, slot).Ok?
    ensures ClearNew(Shift(st, d), slot) == Ok(Shift(ClearNew(st, slot).value, d))
  {
    if slot in st.vvNew {
      var id := Holder(st.vvNew, slot);
      var i := st.mapInfo[id].(nRefCount := st.mapInfo[id].nRefCount - 1);
      var st' := SetInfo(st, id, i).(vvNew := st.vvNew - {slot});
      assert SetInfo(Shift(st, d), id, i).(vvNew := st.vvNew - {slot}) == Shift(st', d);
      if i.nRefCount == 0 { DeleteShift(st', id, d); }
    }
  }

  lemma DeleteShift(st: State, id: int, d: int)
    requires Delete(st, id).Ok?
    ensures Delete(Shift(st, d), id) == Ok(Shift(Delete(st, id).value, d))
  {}

  /** Where an address would be in a given new bucket. */
  function SlotIn(h: Hashes, a: Service, bucket: nat): Slot { Slot(bucket, Position(h, a, true, bucket)) }

  /** The held slots in the buckets before `below`. */
  ghost function HeldBelow(h: Hashes, vvNew: map<Slot, int>, a: Service, id: int, below: int): set<Slot> {
    set s | s in vvNew && Holder(vvNew, s) == id && Own(h, a, s) && s.bucket < below
  }

  /** Clearing one more bucket. */
  lemma HeldBelowNext(h: Hashes, vvNew: map<Slot, int>, a: Service, id: int, bucket: nat)
    requires bucket < NEW_BUCKETS
    ensures var s, before, after :=
              SlotIn(h, a, bucket), HeldBelow(h, vvNew, a, id, bucket), HeldBelow(h, vvNew, a, id, bucket + 1);
            && (s in vvNew - before <==> s in vvNew)
            && (s in vvNew ==> Holder(vvNew - before, s) == Holder(vvNew, s))
            && (if s in vvNew && Holder(vvNew, s) == id
                then vvNew - before - {s} == vvNew - after && |after| == |before| + 1
                else after == before)
  {
    hide HeldBelow, SlotIn;
    HeldBelowMore(h, vvNew, a, id, bucket);
    var s, before := SlotIn(h, a, bucket), HeldBelow(h, vvNew, a, id, bucket);
    assert vvNew - before - {s} == vvNew - (before + {s});
  }

  lemma HeldBelowMore(h: Hashes, vvNew: map<Slot, int>, a: Service, id: int, bucket: nat)
    requires bucket < NEW_BUCKETS
    ensures var s, before := SlotIn(h, a, bucket), HeldBelow(h, vvNew, a, id, bucket);
            && s !in before
            && HeldBelow(h, vvNew, a, id, bucket + 1) == if s in vvNew && Holder(vvNew, s) == id then before + {s} else before
  {
    var s, before, after := SlotIn(h, a, bucket), HeldBelow(h, vvNew, a, id, bucket), HeldBelow(h, vvNew, a, id, bucket + 1);
    forall t: Slot ensures t in after <==> t in before || (t == s && s in vvNew && Holder(vvNew, s) == id) {}
  }

  /** The bucket that Good_ looks at in round n. */
  function Probe(n: nat, rnd: nat): (b: nat)
    ensures b < NEW_BUCKETS
  {
    (n + rnd) % NEW_BUCKETS
  }

  lemma BucketIsProbed(bucket: nat, rnd: nat) returns (n: nat)
    requires bucket < NEW_BUCKETS
    ensures n < NEW_BUCKETS && Probe(n, rnd) == bucket
  {
    var r := rnd % NEW_BUCKETS;
    n := if bucket >= r then bucket - r else bucket + NEW_BUCKETS - r;
    assert rnd == NEW_BUCKETS * (rnd / NEW_BUCKETS) + r;
  }

  lemma LeaveNewAddr(h: Hashes, st: State, id: int)
    requires id in st.mapInfo
    ensures id in LeaveNew(h, st, id).mapInfo && LeaveNew(h, st, id).mapInfo[id].addr == st.mapInfo[id].addr
  {}

  class Manager {
    const h: Hashes
    var nIdCount: int
    var mapInfo: map<int, Info>
    var mapAddr: map<Ip, int>
    var vRandom: seq<int>
    var nTried: int
    var vvTried: map<Slot, int>
    var nNew: int
    var vvNew: map<Slot, int>
    var nLastGood: int

    ghost function Abs(): State
      reads this
    {
      State(nIdCount, mapInfo, mapAddr, vRandom, nTried, vvTried, nNew, vvNew, nLastGood)
    }

    constructor (hashes: Hashes)
      ensures Abs() == Empty && h == hashes && Consistent(h, Abs())
    {
      h := hashes;
      nIdCount, mapInfo, mapAddr, vRandom := 0, map[], map[], [];
      nTried, vvTried, nNew, vvNew, nLastGood := 0, map[], 0, map[], 1;
      new;
      hide Consistent;
      EmptyIsConsistent(h);
    }

    method SwapRandom(p: int, q: int)
      requires AddrMan.SwapRandom(Abs(), p, q).Ok?
      modifies this
      ensures Ok(Abs()) == AddrMan.SwapRandom(old(Abs()), p, q)
    {
      if p == q {
        return;
      }
      var id1, id2 := Nth(vRandom, p), Nth(vRandom, q);
      mapInfo := mapInfo[id1 := mapInfo[id1].(nRandomPos := q)];
      mapInfo := mapInfo[id2 := mapInfo[id2].(nRandomPos := p)];
      vRandom := vRandom[p := id2];
      vRandom := vRandom[q := id1];
    }

    method Delete(id: int)
      requires AddrMan.Delete(Abs(), id).Ok?
      modifies this
      ensures Ok(Abs()) == AddrMan.Delete(old(Abs()), id)
    {
      var ip := mapInfo[id].addr.service.ip;
      SwapRandom(mapInfo[id].nRandomPos, |vRandom| - 1);
      vRandom := vRandom[..|vRandom| - 1];
      mapAddr := mapAddr - {ip};
      mapInfo := mapInfo - {id};
      nNew := nNew - 1;
    }

    method ClearNew(slot: Slot)
      requires AddrMan.ClearNew(Abs(), slot).Ok?
      modifies this
      ensures Ok(Abs()) == AddrMan.ClearNew(old(Abs()), slot)
    {
      if slot in vvNew {
        var id := Holder(vvNew, slot);
        mapInfo := mapInfo[id := mapInfo[id].(nRefCount := mapInfo[id].nRefCount - 1)];
        vvNew := vvNew - {slot};
        if mapInfo[id].nRefCount == 0 {
          Delete(id);
        }
      }
    }

    /** The first loop of MakeTried. */
    method RemoveFromNew(id: int)
      requires id in mapInfo
      modifies `mapInfo, `vvNew
      ensures Abs() == LeaveNew(h, old(Abs()), id)
    {
      ghost var st := Abs();
      ghost var i := st.mapInfo[id];
      var a := mapInfo[id].addr.service;
      var bucket := 0;
      while bucket < NEW_BUCKETS
        invariant 0 <= bucket <= NEW_BUCKETS
        invariant vvNew == st.vvNew - HeldBelow(h, st.vvNew, a, id, bucket)
        invariant mapInfo == st.mapInfo[id := i.(nRefCount := i.nRefCount - |HeldBelow(h, st.vvNew, a, id, bucket)|)]
      {
        hide HeldBelow;
        HeldBelowNext(h, st.vvNew, a, id, bucket);
        var slot := SlotIn(h, a, bucket);
        if slot in vvNew && Holder(vvNew, slot) == id {
          vvNew := vvNew - {slot};
          mapInfo := mapInfo[id := mapInfo[id].(nRefCount := mapInfo[id].nRefCount - 1)];
        }
        bucket := bucket + 1;
      }
      assert HeldBelow(h, st.vvNew, a, id, NEW_BUCKETS) == HeldSlots(h, st, a, id);
    }

    /** Takes the holder of a tried slot out of the tried table; nNew is left for the caller. */
    method LeaveTried(slot: Slot) returns (idEvict: int)
      requires slot in vvTried && Holder(vvTried, slot) in mapInfo
      modifies this
      ensures idEvict == old(Holder(vvTried, slot)) && Abs() == Shift(Untried(old(Abs()), slot), -1)
    {
      idEvict := Holder(vvTried, slot);
      mapInfo := mapInfo[idEvict := mapInfo[idEvict].(fInTried := false)];
      vvTried := vvTried - {slot};
      nTried := nTried - 1;
    }

    /** Gives an evicted entry its one slot of the new table. */
    method EnterNew(id: int, slot: Slot)
      requires id in mapInfo
      modifies this
      ensures Abs() == Shift(Referenced(SetInfo(old(Abs()), id, old(mapInfo)[id].(nRefCount := 0)), id, slot), 1)
    {
      mapInfo := mapInfo[id := mapInfo[id].(nRefCount := 1)];
      vvNew := vvNew[slot := id];
      nNew := nNew + 1;
      assert mapInfo == old(mapInfo)[id := old(mapInfo)[id].(nRefCount := 0)][id := mapInfo[id]];
    }

    lemma ShiftUntried(st: State, slot: Slot, d: int)
      requires slot in st.vvTried && Holder(st.vvTried, slot) in st.mapInfo
      ensures Untried(Shift(st, d), slot) == Shift(Untried(st, slot), d)
    {}

    lemma ShiftEntered(st: State, id: int, slot: Slot, d: int)
      requires id in st.mapInfo
      ensures Referenced(SetInfo(Shift(st, d), id, st.mapInfo[id].(nRefCount := 0)), id, slot) ==
              Shift(Referenced(SetInfo(st, id, st.mapInfo[id].(nRefCount := 0)), id, slot), d)
    {}

    /** The eviction in the middle of MakeTried, where the entry on its way is no longer counted as new. */
    method EvictFrom(slot: Slot)
      requires Evict(h, Shift(Abs(), 1), slot).Ok?
      modifies this
      ensures Abs() == Shift(Evict(h, Shift(old(Abs()), 1), slot).value, -1)
    {
      hide AddrMan.ClearNew, Untried, Referenced, SetInfo;
      ghost var st := Shift(Abs(), 1);
      if slot in vvTried {
        var was := mapInfo[Holder(vvTried, slot)];
        ShiftUntried(Abs(), slot, 1);
        var idEvict := LeaveTried(slot);
        var u := NewSlot(h, was.addr.service, was.source);
        assert Abs() == Shift(Untried(st, slot), -2);
        ClearNewShift(Untried(st, slot), u, -2);
        ClearNew(u);
        ghost var room := AddrMan.ClearNew(Untried(st, slot), u).value;
        assert Abs() == Shift(room, -2);
        ShiftEntered(room, idEvict, u, -2);
        EnterNew(idEvict, u);
      }
    }

    method MakeTried(id: int)
      requires AddrMan.MakeTried(h, Abs(), id).Ok?
      modifies this
      ensures Ok(Abs()) == AddrMan.MakeTried(h, old(Abs()), id)
    {
      hide Evict;
      LeaveNewAddr(h, Abs(), id);
      RemoveFromNew(id);
      hide LeaveNew;
      ghost var left := Abs();
      nNew := nNew - 1;
      var slot := TriedSlot(h, mapInfo[id].addr.service);
      assert Shift(Abs(), 1) == left;
      EvictFrom(slot);
      vvTried := vvTried[slot := id];
      nTried := nTried + 1;
      mapInfo := mapInfo[id := mapInfo[id].(fInTried := true)];
    }

    /** `rnd` is where the search for the entry's bucket starts. */
    method Good(a: Service, nTime: int, rnd: nat) returns (exit: GoodExit)
      requires Inv(h, Abs(), {})
      modifies this
      ensures Inv(h, Abs(), {}) && Ok((Abs(), exit)) == AddrMan.Good(h, old(Abs()), a, nTime)
    {
      hide Inv, AddrMan.MakeTried, GoodEffect, HeldSlots;
      GoodIsExact(h, Abs(), a, nTime);
      nLastGood := nTime;
      if a.ip !in mapAddr || IdOf(mapAddr, a.ip) !in mapInfo {
        return Unknown;
      }
      var id := IdOf(mapAddr, a.ip);
      if mapInfo[id].addr.service != a {
        return Unknown;
      }
      mapInfo := mapInfo[id := mapInfo[id].(nLastSuccess := nTime, nLastTry := nTime, nAttempts := 0)];
      if mapInfo[id].fInTried {
        return AlreadyTried;
      }
      var found := FindBucket(id, a, rnd);
      if !found {
        return NoBucketFound;
      }
      MakeTried(id);
      exit := Moved;
    }

    method FindBucket(id: int, a: Service, rnd: nat) returns (found: bool)
      ensures found <==> HeldSlots(h, Abs(), a, id) != {}
    {
      var n := 0;
      while n < NEW_BUCKETS
        invariant 0 <= n <= NEW_BUCKETS
        invariant forall j :: 0 <= j < n ==> SlotIn(h, a, Probe(j, rnd)) !in HeldSlots(h, Abs(), a, id)
      {
        var slot := SlotIn(h, a, Probe(n, rnd));
        if slot in vvNew && Holder(vvNew, slot) == id {
          assert slot in HeldSlots(h, Abs(), a, id);
          return true;
        }
        n := n + 1;
      }
      forall s | Own(h, a, s) ensures exists j :: 0 <= j < NEW_BUCKETS && SlotIn(h, a, Probe(j, rnd)) == s {
        var j := BucketIsProbed(s.bucket, rnd);
        assert SlotIn(h, a, Probe(j, rnd)) == s;
      }
      found := false;
    }

    method Create(addr: Address, source: Ip) returns (id: int)
      modifies this
      ensures (Abs(), id) == AddrMan.Create(old(Abs()), addr, source)
    {
      id := nIdCount;
      nIdCount := nIdCount + 1;
      mapInfo := mapInfo[id := Info(addr, source, 0, 0, 0, 0, 0, false, -1)];
      mapAddr := mapAddr[addr.service.ip := id];
      mapInfo := mapInfo[id := mapInfo[id].(nRandomPos := |vRandom|)];
      vRandom := vRandom + [id];
      assert mapInfo == old(mapInfo)[id := mapInfo[id]];
    }

    /** `die` stands for the random number of the stochastic test. */
    method Add(addr: Address, routable: bool, source: Ip, timePenalty: int, now: int, die: nat) returns (fNew: bool)
      requires Inv(h, Abs(), {})
      modifies this
      ensures Inv(h, Abs(), {})
      ensures Ok((Abs(), fNew)) == AddrMan.Add(h, old(Abs()), addr, routable, source, timePenalty, now, die)
    {
      hide Inv, Place, AddEffect;
      AddIsExact(h, Abs(), addr, routable, source, timePenalty, now, die);
      if !routable {
        return false;
      }
      var penalty := timePenalty;
      if addr.service.ip == source {
        penalty := 0;
      }
      var id;
      if addr.service.ip in mapAddr && IdOf(mapAddr, addr.service.ip) in mapInfo {
        id := IdOf(mapAddr, addr.service.ip);
        mapInfo := mapInfo[id := Refreshed(mapInfo[id], addr, penalty, now)];
        var again := MayReference(mapInfo[id], addr, die);
        if !again {
          return false;
        }
        fNew := false;
      } else {
        id := CreateForNew(addr, source, penalty);
        fNew := true;
      }
      PlaceInNew(id, source, now);
    }

    /** Whether an entry that is already known gets one more reference. */
    method MayReference(info: Info, addr: Address, die: nat) returns (again: bool)
      requires info.nRefCount >= 0
      ensures again <==> MayAddReference(info, addr, die)
    {
      if addr.nTime == 0 || (info.addr.nTime != 0 && addr.nTime <= info.addr.nTime) {
        return false;
      }
      if info.fInTried {
        return false;
      }
      if info.nRefCount == NEW_BUCKETS_PER_ADDRESS {
        return false;
      }
      var factor := PowerOfTwo(info.nRefCount);
      again := !(factor > 1 && die % factor != 0);
    }

    method CreateForNew(addr: Address, source: Ip, penalty: int) returns (id: int)
      modifies this
      ensures (Abs(), id) == Introduced(old(Abs()), addr, source, penalty)
    {
      id := Create(addr, source);
      mapInfo := mapInfo[id := mapInfo[id].(addr := addr.(nTime := Max(0, addr.nTime - penalty)))];
      nNew := nNew + 1;
      assert mapInfo == old(mapInfo)[id := mapInfo[id]];
    }

    method PlaceInNew(id: int, source: Ip, now: int)
      requires Place(h, Abs(), id, source, now).Ok?
      modifies this
      ensures Ok(Abs()) == Place(h, old(Abs()), id, source, now)
    {
      var slot := NewSlot(h, mapInfo[id].addr.service, source);
      if !(slot in vvNew && Holder(vvNew, slot) == id) {
        var fInsert := slot !in vvNew;
        if !fInsert {
          var existing := mapInfo[Holder(vvNew, slot)];
          if IsTerrible(existing, now) || (existing.nRefCount > 1 && mapInfo[id].nRefCount == 0) {
            fInsert := true;
          }
        }
        if fInsert {
          ClearNew(slot);
          mapInfo := mapInfo[id := mapInfo[id].(nRefCount := mapInfo[id].nRefCount + 1)];
          vvNew := vvNew[slot := id];
        } else if mapInfo[id].nRefCount == 0 {
          Delete(id);
        }
      }
    }

    method Attempt(a: Service, fCountFailure: bool, nTime: int)
      modifies this
      ensures Abs() == AddrMan.Attempt(old(Abs()), a, fCountFailure, nTime)
    {
      if a.ip !in mapAddr || IdOf(mapAddr, a.ip) !in mapInfo || mapInfo[IdOf(mapAddr, a.ip)].addr.service != a {
        return;
      }
      var id := IdOf(mapAddr, a.ip);
      mapInfo := mapInfo[id := mapInfo[id].(nLastTry := nTime)];
      if fCountFailure && mapInfo[id].nLastCountAttempt < nLastGood {
        mapInfo := mapInfo[id := mapInfo[id].(nLastCountAttempt := nTime)];
        mapInfo := mapInfo[id := mapInfo[id].(nAttempts := mapInfo[id].nAttempts + 1)];
      }
    }

    method Connected(a: Service, nTime: int)
      modifies this
      ensures Abs() == AddrMan.Connected(old(Abs()), a, nTime)
    {
      if a.ip !in mapAddr || IdOf(mapAddr, a.ip) !in mapInfo || mapInfo[IdOf(mapAddr, a.ip)].addr.service != a {
        return;
      }
      var id := IdOf(mapAddr, a.ip);
      var nUpdateInterval := 20 * 60;
      if nTime - mapInfo[id].addr.nTime > nUpdateInterval {
        mapInfo := mapInfo[id := mapInfo[id].(addr := mapInfo[id].addr.(nTime := nTime))];
      }
    }

    method SetServices(a: Service, nServices: bv64)
      modifies this
      ensures Abs() == AddrMan.SetServices(old(Abs()), a, nServices)
    {
      if a.ip !in mapAddr || IdOf(mapAddr, a.ip) !in mapInfo || mapInfo[IdOf(mapAddr, a.ip)].addr.service != a {
        return;
      }
      var id := IdOf(mapAddr, a.ip);
      mapInfo := mapInfo[id := mapInfo[id].(addr := mapInfo[id].addr.(nServices := nServices))];
    }

    method GetAddr(rnd: nat -> nat, now: int) returns (vAddr: seq<Address>)
      requires Inv(h, Abs(), {})
      modifies this
      ensures Inv(h, Abs(), {}) && Ok((Abs(), vAddr)) == AddrMan.GetAddr(old(Abs()), rnd, now)
    {
      hide Inv, IsListing, Worthy, IsTerrible, AddrMan.SwapRandom, Shuffled, Draw;
      GetAddrIsExact(h, Abs(), rnd, now);
      var nNodes := GETADDR_MAX_PCT * |vRandom| / 100;
      if nNodes > GETADDR_MAX {
        nNodes := GETADDR_MAX;
      }
      vAddr := [];
      var n := 0;
      while n < |vRandom| && |vAddr| < nNodes
        invariant 0 <= n <= |vRandom|
        invariant GetAddrFrom(Abs(), n, nNodes, vAddr, rnd, now) == AddrMan.GetAddr(old(Abs()), rnd, now)
        decreases |vRandom| - n
      {
        ghost var before := Abs();
        SwapRandom(n, Draw(rnd(n), n, |vRandom|));
        assert AddrMan.SwapRandom(before, n, Draw(rnd(n), n, |before.vRandom|)) == Ok(Abs());
        var info := mapInfo[Nth(vRandom, n)];
        if !IsTerrible(info, now) {
          vAddr := vAddr + [info.addr];
        }
        n := n + 1;
      }
    }
  }

  method PowerOfTwo(n: int) returns (factor: nat)
    ensures n >= 0 ==> factor == Pow2(n)
    ensures n < 0 ==> factor == 1
  {
    factor := 1;
    var k := 0;
    while k < n
      invariant 0 <= k && (n >= 0 ==> k <= n) && factor == Pow2(k)
      invariant n < 0 ==> k == 0
    {
      factor := factor * 2;
      k := k + 1;
    }
  }
}
