/**
 The stochastic address manager (src/addrman.h, src/addrman.cpp).

 Five indexes describe the same set of entries: mapInfo by id, mapAddr by
 network address, vRandom by position, and the "new" and "tried" bucket tables
 by slot; two counters and a reference count per entry repeat what the tables
 say.  `Consistent` is what the source's own debug check demands of them.
 A failed assert of the source is the outcome `Failed`.
 */
module AddrMan {
  import opened Basics

  datatype Result<+T> = Ok(value: T) | Failed {
    predicate IsFailure() { Failed? }
    function PropagateFailure<U>(): Result<U>
      requires Failed?
    {
      Failed
    }
    function Extract(): T
      requires Ok?
    {
      value
    }
  }

  const TRIED_BUCKETS: nat := 256
  const NEW_BUCKETS: nat := 1024
  const BUCKET_SIZE: nat := 64
  const NEW_BUCKETS_PER_ADDRESS: nat := 8
  const HORIZON_DAYS: int := 30
  const RETRIES: int := 3
  const MAX_FAILURES: int := 10
  const MIN_FAIL_DAYS: int := 7
  const GETADDR_MAX_PCT: nat := 23
  const GETADDR_MAX: nat := 2500
  const DAY: int := 86400

  type Ip = nat

  datatype Service = Service(ip: Ip, port: nat)

  datatype Address = Address(service: Service, nServices: bv64, nTime: int)

  datatype Info = Info(
    addr: Address, source: Ip, nLastTry: int, nLastCountAttempt: int, nLastSuccess: int,
    nAttempts: int, nRefCount: int, fInTried: bool, nRandomPos: int)

  datatype Slot = Slot(bucket: nat, pos: nat)

  /** The keyed hashes, before the reduction to a bucket or a position. */
  datatype Hashes = Hashes(tried: Service -> nat, fresher: (Service, Ip) -> nat, position: (Service, bool, nat) -> nat)

  /** An absent slot of a table is a slot that holds -1. */
  datatype State = State(
    nIdCount: int, mapInfo: map<int, Info>, mapAddr: map<Ip, int>, vRandom: seq<int>,
    nTried: int, vvTried: map<Slot, int>, nNew: int, vvNew: map<Slot, int>, nLastGood: int)

  const Empty := State(0, map[], map[], [], 0, map[], 0, map[], 1)

  function Holder(table: map<Slot, int>, s: Slot): int
    requires s in table
  {
    table[s]
  }

  function IdOf(mapAddr: map<Ip, int>, ip: Ip): int
    requires ip in mapAddr
  {
    mapAddr[ip]
  }

  function Nth(vRandom: seq<int>, p: int): int
    requires 0 <= p < |vRandom|
  {
    vRandom[p]
  }

  function Position(h: Hashes, a: Service, isNew: bool, bucket: nat): nat {
    h.position(a, isNew, bucket) % BUCKET_SIZE
  }

  function TriedSlot(h: Hashes, a: Service): Slot {
    var bucket := h.tried(a) % TRIED_BUCKETS;
    Slot(bucket, Position(h, a, false, bucket))
  }

  function NewSlot(h: Hashes, a: Service, src: Ip): Slot {
    var bucket := h.fresher(a, src) % NEW_BUCKETS;
    Slot(bucket, Position(h, a, true, bucket))
  }

  predicate IsTerrible(i: Info, now: int) {
    if i.nLastTry != 0 && i.nLastTry >= now - 60 then false
    else
      || i.addr.nTime > now + 10 * 60
      || i.addr.nTime == 0 || now - i.addr.nTime > HORIZON_DAYS * DAY
      || (i.nLastSuccess == 0 && i.nAttempts >= RETRIES)
      || (now - i.nLastSuccess > MIN_FAIL_DAYS * DAY && i.nAttempts >= MAX_FAILURES)
  }

  // ---------------------------------------------------------------- the operations

  function Find(st: State, ip: Ip): Option<int> {
    if ip in st.mapAddr && IdOf(st.mapAddr, ip) in st.mapInfo then Some(IdOf(st.mapAddr, ip)) else None
  }

  function FindExact(st: State, a: Service): Option<int> {
    var id := Find(st, a.ip);
    if id.Some? && st.mapInfo[id.value].addr.service == a then id else None
  }

  function SetInfo(st: State, id: int, i: Info): State {
    st.(mapInfo := st.mapInfo[id := i])
  }

  function Create(st: State, addr: Address, source: Ip): (State, int) {
    var id := st.nIdCount;
    (st.(nIdCount := id + 1,
         mapInfo := st.mapInfo[id := Info(addr, source, 0, 0, 0, 0, 0, false, |st.vRandom|)],
         mapAddr := st.mapAddr[addr.service.ip := id],
         vRandom := st.vRandom + [id]), id)
  }

  function SwapRandom(st: State, p: int, q: int): Result<State> {
    if p == q then Ok(st)
    else if !(0 <= p < |st.vRandom| && 0 <= q < |st.vRandom|) then Failed
    else
      var a, b := Nth(st.vRandom, p), Nth(st.vRandom, q);
      if a !in st.mapInfo || b !in st.mapInfo then Failed
      else
        var m := st.mapInfo[a := st.mapInfo[a].(nRandomPos := q)];
        Ok(st.(mapInfo := m[b := m[b].(nRandomPos := p)], vRandom := st.vRandom[p := b][q := a]))
  }

  function Delete(st: State, id: int): Result<State> {
    if id !in st.mapInfo || st.mapInfo[id].fInTried || st.mapInfo[id].nRefCount != 0 then Failed
    else
      var swapped :- SwapRandom(st, st.mapInfo[id].nRandomPos, |st.vRandom| - 1);
      if swapped.vRandom == [] then Failed
      else
        Ok(swapped.(vRandom := swapped.vRandom[..|swapped.vRandom| - 1],
                    mapAddr := swapped.mapAddr - {st.mapInfo[id].addr.service.ip},
                    mapInfo := swapped.mapInfo - {id},
                    nNew := swapped.nNew - 1))
  }

  function ClearNew(st: State, slot: Slot): Result<State> {
    if slot !in st.vvNew then Ok(st)
    else
      var id := Holder(st.vvNew, slot);
      if id !in st.mapInfo || st.mapInfo[id].nRefCount <= 0 then Failed
      else
        var i := st.mapInfo[id].(nRefCount := st.mapInfo[id].nRefCount - 1);
        var st' := SetInfo(st, id, i).(vvNew := st.vvNew - {slot});
        if i.nRefCount == 0 then Delete(st', id) else Ok(st')
  }

  /** Each new bucket has just one position for an address. */
  predicate Own(h: Hashes, a: Service, s: Slot) {
    s.bucket < NEW_BUCKETS && s.pos == Position(h, a, true, s.bucket)
  }

  function HeldSlots(h: Hashes, st: State, a: Service, id: int): set<Slot> {
    set s | s in st.vvNew && Holder(st.vvNew, s) == id && Own(h, a, s)
  }

  /** MakeTried's first loop: out of every new bucket. */
  function LeaveNew(h: Hashes, st: State, id: int): State
    requires id in st.mapInfo
  {
    var i := st.mapInfo[id];
    var held := HeldSlots(h, st, i.addr.service, id);
    SetInfo(st, id, i.(nRefCount := i.nRefCount - |held|)).(vvNew := st.vvNew - held)
  }

  /** The entry in a tried slot stops being tried; it is in no table then. */
  function Untried(st: State, slot: Slot): State
    requires slot in st.vvTried && Holder(st.vvTried, slot) in st.mapInfo
  {
    var id := Holder(st.vvTried, slot);
    SetInfo(st, id, st.mapInfo[id].(fInTried := false))
      .(vvTried := st.vvTried - {slot}, nTried := st.nTried - 1, nNew := st.nNew + 1)
  }

  /** An entry takes a free slot of the new table. */
  function Referenced(st: State, id: int, slot: Slot): State
    requires id in st.mapInfo
  {
    SetInfo(st, id, st.mapInfo[id].(nRefCount := st.mapInfo[id].nRefCount + 1)).(vvNew := st.vvNew[slot := id])
  }

  /** Makes room in the tried table: whoever is there goes back to a new bucket. */
  function Evict(h: Hashes, st: State, slot: Slot): Result<State> {
    if slot !in st.vvTried then Ok(st)
    else if Holder(st.vvTried, slot) !in st.mapInfo then Failed
    else
      var id := Holder(st.vvTried, slot);
      var was := st.mapInfo[id];
      var u := NewSlot(h, was.addr.service, was.source);
      var room :- ClearNew(Untried(st, slot), u);
      if u in room.vvNew || id !in room.mapInfo then Failed
      else Ok(Referenced(SetInfo(room, id, room.mapInfo[id].(nRefCount := 0)), id, u))
  }

  function Tried(st: State, id: int, slot: Slot): State
    requires id in st.mapInfo
  {
    SetInfo(st, id, st.mapInfo[id].(fInTried := true))
      .(vvTried := st.vvTried[slot := id], nTried := st.nTried + 1, nNew := st.nNew - 1)
  }

  function MakeTried(h: Hashes, st: State, id: int): Result<State> {
    if id !in st.mapInfo then Failed
    else
      var left := LeaveNew(h, st, id);
      if left.mapInfo[id].nRefCount != 0 then Failed
      else
        var slot := TriedSlot(h, st.mapInfo[id].addr.service);
        var room :- Evict(h, left, slot);
        if slot in room.vvTried || id !in room.mapInfo then Failed
        else Ok(Tried(room, id, slot))
  }

  datatype GoodExit = Unknown | AlreadyTried | NoBucketFound | Moved

  function Good(h: Hashes, st: State, a: Service, nTime: int): Result<(State, GoodExit)> {
    var st1 := st.(nLastGood := nTime);
    var id := FindExact(st1, a);
    if id.None? then Ok((st1, Unknown))
    else
      var i := st1.mapInfo[id.value];
      var st2 := SetInfo(st1, id.value, i.(nLastSuccess := nTime, nLastTry := nTime, nAttempts := 0));
      if i.fInTried then Ok((st2, AlreadyTried))
      else if HeldSlots(h, st2, a, id.value) == {} then Ok((st2, NoBucketFound))
      else
        var st3 :- MakeTried(h, st2, id.value);
        Ok((st3, Moved))
  }

  /** The periodic update of an entry that is already known. */
  function Refreshed(i: Info, addr: Address, penalty: int, now: int): Info {
    var interval := if now - addr.nTime < DAY then 60 * 60 else DAY;
    var nTime := if addr.nTime != 0 && (i.addr.nTime == 0 || i.addr.nTime < addr.nTime - interval - penalty)
                 then Max(0, addr.nTime - penalty) else i.addr.nTime;
    i.(addr := i.addr.(nTime := nTime, nServices := i.addr.nServices | addr.nServices))
  }

  /** Whether an address that is already known may get one more reference; `rnd` is the die. */
  predicate MayAddReference(i: Info, addr: Address, rnd: nat) {
    && addr.nTime != 0 && (i.addr.nTime == 0 || addr.nTime > i.addr.nTime)
    && !i.fInTried
    && i.nRefCount != NEW_BUCKETS_PER_ADDRESS
    && (i.nRefCount > 0 ==> rnd % Pow2(i.nRefCount) == 0)
  }

  /** The new-table half of Add_: claims the slot, or gives the entry up if it has no other. */
  function Place(h: Hashes, st: State, id: int, source: Ip, now: int): Result<State> {
    if id !in st.mapInfo then Failed
    else
      var i := st.mapInfo[id];
      var slot := NewSlot(h, i.addr.service, source);
      if slot in st.vvNew && Holder(st.vvNew, slot) == id then Ok(st)
      else if slot in st.vvNew && Holder(st.vvNew, slot) !in st.mapInfo then Failed
      else if Yields(st, slot, i, now) then
        var room :- ClearNew(st, slot);
        if id !in room.mapInfo then Failed
        else Ok(Referenced(room, id, slot))
      else if i.nRefCount == 0 then Delete(st, id)
      else Ok(st)
  }

  predicate Yields(st: State, slot: Slot, i: Info, now: int)
    requires slot in st.vvNew ==> Holder(st.vvNew, slot) in st.mapInfo
  {
    slot !in st.vvNew
    || (var there := st.mapInfo[Holder(st.vvNew, slot)];
        IsTerrible(there, now) || (there.nRefCount > 1 && i.nRefCount == 0))
  }

  /** The state in which Add_ looks for a slot for an address it has not seen. */
  function Introduced(st: State, addr: Address, source: Ip, penalty: int): (State, int) {
    var (st1, id) := Create(st, addr.(nTime := Max(0, addr.nTime - penalty)), source);
    (st1.(nNew := st1.nNew + 1), id)
  }

  function Add(h: Hashes, st: State, addr: Address, routable: bool, source: Ip, timePenalty: int, now: int, rnd: nat):
    Result<(State, bool)>
  {
    if !routable then Ok((st, false))
    else
      var penalty := if addr.service.ip == source then 0 else timePenalty;
      var found := Find(st, addr.service.ip);
      if found.Some? then
        var i := Refreshed(st.mapInfo[found.value], addr, penalty, now);
        var st1 := SetInfo(st, found.value, i);
        if i.nRefCount < 0 then Failed
        else if MayAddReference(i, addr, rnd) then
          var st2 :- Place(h, st1, found.value, source, now);
          Ok((st2, false))
        else Ok((st1, false))
      else
        var (st1, id) := Introduced(st, addr, source, penalty);
        var st2 :- Place(h, st1, id, source, now);
        Ok((st2, true))
  }

  function Attempt(st: State, a: Service, fCountFailure: bool, nTime: int): State {
    var id := FindExact(st, a);
    if id.None? then st
    else
      var i := st.mapInfo[id.value].(nLastTry := nTime);
      SetInfo(st, id.value,
              if fCountFailure && i.nLastCountAttempt < st.nLastGood
              then i.(nLastCountAttempt := nTime, nAttempts := i.nAttempts + 1) else i)
  }

  function Connected(st: State, a: Service, nTime: int): State {
    var id := FindExact(st, a);
    if id.None? then st
    else
      var i := st.mapInfo[id.value];
      if nTime - i.addr.nTime > 20 * 60 then SetInfo(st, id.value, i.(addr := i.addr.(nTime := nTime))) else st
  }

  function SetServices(st: State, a: Service, nServices: bv64): State {
    var id := FindExact(st, a);
    if id.None? then st
    else
      var i := st.mapInfo[id.value];
      SetInfo(st, id.value, i.(addr := i.addr.(nServices := nServices)))
  }

  function GetAddrLimit(st: State): nat {
    var n := GETADDR_MAX_PCT * |st.vRandom| / 100;
    if n > GETADDR_MAX then GETADDR_MAX else n
  }

  /** A random position from n on. */
  function Draw(r: nat, n: nat, len: nat): (q: nat)
    requires n < len
    ensures n <= q < len
  {
    r % (len - n) + n
  }

  /** GetAddr_ from loop index n on; `rnd(n)` is the random number drawn in round n. */
  function GetAddrFrom(st: State, n: nat, limit: nat, got: seq<Address>, rnd: nat -> nat, now: int): Result<(State, seq<Address>)>
    decreases |st.vRandom| - n
  {
    if n >= |st.vRandom| || |got| >= limit then Ok((st, got))
    else
      var st' :- SwapRandom(st, n, Draw(rnd(n), n, |st.vRandom|));
      if |st'.vRandom| != |st.vRandom| || Nth(st'.vRandom, n) !in st'.mapInfo then Failed
      else
        var i := st'.mapInfo[Nth(st'.vRandom, n)];
        GetAddrFrom(st', n + 1, limit, if IsTerrible(i, now) then got else got + [i.addr], rnd, now)
  }

  function GetAddr(st: State, rnd: nat -> nat, now: int): Result<(State, seq<Address>)> {
    GetAddrFrom(st, 0, GetAddrLimit(st), [], rnd, now)
  }

  // ---------------------------------------------------------------- consistency

  ghost predicate RandomOk(vRandom: seq<int>, m: map<int, Info>) {
    && (forall p {:trigger vRandom[p]} {:trigger Nth(vRandom, p)} :: 0 <= p < |vRandom| ==> Nth(vRandom, p) in m && m[Nth(vRandom, p)].nRandomPos == p)
    && (forall id :: id in m ==> 0 <= m[id].nRandomPos < |vRandom| && Nth(vRandom, m[id].nRandomPos) == id)
  }

  ghost predicate AddrOk(mapAddr: map<Ip, int>, m: map<int, Info>) {
    && (forall id :: id in m ==>
          m[id].addr.service.ip in mapAddr && IdOf(mapAddr, m[id].addr.service.ip) == id)
    && (forall ip :: ip in mapAddr ==>
          IdOf(mapAddr, ip) in m && m[IdOf(mapAddr, ip)].addr.service.ip == ip)
  }

  ghost function SlotsOf(table: map<Slot, int>, id: int): set<Slot> {
    set s | s in table && Holder(table, s) == id
  }

  ghost predicate NewOk(h: Hashes, vvNew: map<Slot, int>, m: map<int, Info>) {
    && (forall s :: s in vvNew ==>
          Holder(vvNew, s) in m && !m[Holder(vvNew, s)].fInTried && Own(h, m[Holder(vvNew, s)].addr.service, s))
    && (forall id :: id in m ==> m[id].nRefCount == |SlotsOf(vvNew, id)|)
  }

  ghost predicate TriedOk(h: Hashes, vvTried: map<Slot, int>, m: map<int, Info>) {
    && (forall s :: s in vvTried ==>
          Holder(vvTried, s) in m && m[Holder(vvTried, s)].fInTried && s == TriedSlot(h, m[Holder(vvTried, s)].addr.service))
    && (forall id :: id in m && m[id].fInTried ==>
          TriedSlot(h, m[id].addr.service) in vvTried && Holder(vvTried, TriedSlot(h, m[id].addr.service)) == id)
  }

  ghost function NewIds(m: map<int, Info>): set<int> { set id | id in m && !m[id].fInTried }

  ghost function TriedIds(m: map<int, Info>): set<int> { set id | id in m && m[id].fInTried }

  ghost predicate CountsOk(st: State) {
    && st.nNew == |NewIds(st.mapInfo)| && st.nTried == |TriedIds(st.mapInfo)|
    && |st.vRandom| == st.nTried + st.nNew
  }

  ghost predicate EntryOk(i: Info, inLimbo: bool) {
    if i.fInTried then i.nRefCount == 0 && !inLimbo
    else if inLimbo then i.nRefCount == 0
    else 1 <= i.nRefCount <= NEW_BUCKETS_PER_ADDRESS
  }

  /** Entries in `limbo` are in neither table for the moment. */
  ghost predicate EntriesOk(nIdCount: int, m: map<int, Info>, limbo: set<int>) {
    && (forall id :: id in limbo ==> id in m)
    && (forall id :: id in m ==> id < nIdCount && EntryOk(m[id], id in limbo))
  }

  /** How the positions, tables and counters fit together. */
  ghost predicate TablesOk(h: Hashes, st: State, limbo: set<int>) {
    && RandomOk(st.vRandom, st.mapInfo)
    && NewOk(h, st.vvNew, st.mapInfo) && TriedOk(h, st.vvTried, st.mapInfo)
    && CountsOk(st) && EntriesOk(st.nIdCount, st.mapInfo, limbo)
  }

  /** ... and the index by address with them. */
  ghost predicate Inv(h: Hashes, st: State, limbo: set<int>) {
    TablesOk(h, st, limbo) && AddrOk(st.mapAddr, st.mapInfo)
  }

  ghost predicate TimesOk(m: map<int, Info>) {
    forall id :: id in m ==>
      m[id].nLastTry >= 0 && m[id].nLastSuccess >= 0 && (m[id].fInTried ==> m[id].nLastSuccess != 0)
  }

  /** Everything Check_ tests, between public calls. */
  ghost predicate Consistent(h: Hashes, st: State) {
    Inv(h, st, {}) && TimesOk(st.mapInfo)
  }

  // ---------------------------------------------------------------- updates that leave the tables alone

  /** Nothing that a table or a counter repeats has changed. */
  ghost predicate SameInTables(m: map<int, Info>, m': map<int, Info>) {
    && (forall id :: id in m <==> id in m')
    && (forall id :: id in m ==>
          && m[id].addr.service == m'[id].addr.service
          && m[id].nRefCount == m'[id].nRefCount && m[id].fInTried == m'[id].fInTried)
  }

  lemma TablesFrame(h: Hashes, st: State, m': map<int, Info>)
    requires SameInTables(st.mapInfo, m')
    requires NewOk(h, st.vvNew, st.mapInfo) && TriedOk(h, st.vvTried, st.mapInfo)
    ensures NewOk(h, st.vvNew, m') && TriedOk(h, st.vvTried, m')
  {}

  /** The index by address looks at nothing but addresses. */
  lemma AddrFrame(mapAddr: map<Ip, int>, m: map<int, Info>, m': map<int, Info>)
    requires AddrOk(mapAddr, m) && forall id :: id in m <==> id in m'
    requires forall id :: id in m ==> m[id].addr.service == m'[id].addr.service
    ensures AddrOk(mapAddr, m')
  {}

  lemma CountsFrame(m: map<int, Info>, m': map<int, Info>)
    requires SameInTables(m, m')
    ensures NewIds(m') == NewIds(m) && TriedIds(m') == TriedIds(m)
  {
    forall id: int ensures (id in NewIds(m') <==> id in NewIds(m)) && (id in TriedIds(m') <==> id in TriedIds(m)) {
      assert id in m <==> id in m';
    }
  }

  /** One entry changes, and may enter or leave limbo. */
  lemma EntriesUpdate(nIdCount: int, m: map<int, Info>, id: int, i: Info, limbo: set<int>, limbo': set<int>)
    requires EntriesOk(nIdCount, m, limbo) && id in m && EntryOk(i, id in limbo')
    requires forall k :: k != id ==> (k in limbo <==> k in limbo')
    ensures EntriesOk(nIdCount, m[id := i], limbo')
  {}

  lemma EntryFacts(nIdCount: int, m: map<int, Info>, id: int, limbo: set<int>)
    requires EntriesOk(nIdCount, m, limbo) && id in m
    ensures EntryOk(m[id], id in limbo)
  {}

  lemma TouchRandom(vRandom: seq<int>, m: map<int, Info>, id: int, i: Info)
    requires RandomOk(vRandom, m) && id in m && i.nRandomPos == m[id].nRandomPos
    ensures RandomOk(vRandom, m[id := i])
  {}

  lemma TouchKeeps(h: Hashes, st: State, id: int, i: Info, limbo: set<int>)
    requires Inv(h, st, limbo) && id in st.mapInfo
    requires var j := st.mapInfo[id];
             && i.addr.service == j.addr.service && i.nRefCount == j.nRefCount
             && i.fInTried == j.fInTried && i.nRandomPos == j.nRandomPos
    requires EntryOk(i, id in limbo)
    ensures Inv(h, SetInfo(st, id, i), limbo)
  {
    hide RandomOk, NewOk, TriedOk, AddrOk, NewIds, TriedIds, EntriesOk, EntryOk;
    var m' := st.mapInfo[id := i];
    TouchRandom(st.vRandom, st.mapInfo, id, i);
    EntriesUpdate(st.nIdCount, st.mapInfo, id, i, limbo, limbo);
    TablesFrame(h, st, m');
    AddrFrame(st.mapAddr, st.mapInfo, m');
    CountsFrame(st.mapInfo, m');
  }

  // ---------------------------------------------------------------- the indexes, one step at a time

  /** Only positions in vRandom differ. */
  ghost predicate SameButPositions(m: map<int, Info>, m': map<int, Info>) {
    && (forall id :: id in m <==> id in m')
    && (forall id :: id in m ==> m'[id] == m[id].(nRandomPos := m'[id].nRandomPos))
  }

  lemma SwapRandomEffect(st: State, p: int, q: int)
    requires RandomOk(st.vRandom, st.mapInfo) && 0 <= p < |st.vRandom| && 0 <= q < |st.vRandom|
    ensures var r := SwapRandom(st, p, q);
            && r.Ok? && RandomOk(r.value.vRandom, r.value.mapInfo)
            && r.value == st.(mapInfo := r.value.mapInfo, vRandom := st.vRandom[p := st.vRandom[q]][q := st.vRandom[p]])
            && SameButPositions(st.mapInfo, r.value.mapInfo)
  {
    if p != q { assert st.vRandom[p] != st.vRandom[q]; }
  }

  lemma PositionsFrame(h: Hashes, st: State, st': State, limbo: set<int>)
    requires TablesOk(h, st, limbo) && RandomOk(st'.vRandom, st'.mapInfo) && |st'.vRandom| == |st.vRandom|
    requires st' == st.(mapInfo := st'.mapInfo, vRandom := st'.vRandom)
    requires SameButPositions(st.mapInfo, st'.mapInfo)
    ensures TablesOk(h, st', limbo)
  {
    hide RandomOk, NewOk, TriedOk, NewIds, TriedIds;
    TablesFrame(h, st, st'.mapInfo);
    CountsFrame(st.mapInfo, st'.mapInfo);
  }

  lemma SwapRandomTablesOk(h: Hashes, st: State, p: int, q: int, limbo: set<int>)
    requires TablesOk(h, st, limbo) && 0 <= p < |st.vRandom| && 0 <= q < |st.vRandom|
    ensures var r := SwapRandom(st, p, q); r.Ok? && TablesOk(h, r.value, limbo)
  {
    hide NewOk, TriedOk, CountsOk, EntriesOk, SwapRandom;
    SwapRandomEffect(st, p, q);
    PositionsFrame(h, st, SwapRandom(st, p, q).value, limbo);
  }

  lemma SwapRandomKeeps(h: Hashes, st: State, p: int, q: int, limbo: set<int>)
    requires Inv(h, st, limbo) && 0 <= p < |st.vRandom| && 0 <= q < |st.vRandom|
    ensures var r := SwapRandom(st, p, q); r.Ok? && Inv(h, r.value, limbo)
  {
    hide RandomOk, AddrOk, NewOk, TriedOk, CountsOk, EntriesOk, SwapRandom;
    SwapRandomTablesOk(h, st, p, q, limbo);
    SwapRandomEffect(st, p, q);
    AddrFrame(st.mapAddr, st.mapInfo, SwapRandom(st, p, q).value.mapInfo);
  }

  /** What Delete does once the entry stands last in vRandom. */
  function Dropped(st: State, id: int): State
    requires id in st.mapInfo && st.vRandom != []
  {
    st.(vRandom := st.vRandom[..|st.vRandom| - 1],
        mapAddr := st.mapAddr - {st.mapInfo[id].addr.service.ip},
        mapInfo := st.mapInfo - {id}, nNew := st.nNew - 1)
  }

  lemma NoSlots(vvNew: map<Slot, int>, id: int)
    requires |SlotsOf(vvNew, id)| == 0
    ensures forall s :: s in vvNew ==> Holder(vvNew, s) != id
  {
    assert forall s :: s in vvNew && Holder(vvNew, s) == id ==> s in SlotsOf(vvNew, id);
  }

  lemma DroppedRandom(vRandom: seq<int>, m: map<int, Info>, id: int)
    requires RandomOk(vRandom, m) && id in m && m[id].nRandomPos == |vRandom| - 1
    ensures RandomOk(vRandom[..|vRandom| - 1], m - {id})
  {}

  lemma DroppedAddr(mapAddr: map<Ip, int>, m: map<int, Info>, id: int)
    requires AddrOk(mapAddr, m) && id in m
    ensures AddrOk(mapAddr - {m[id].addr.service.ip}, m - {id})
  {}

  lemma DroppedCounts(m: map<int, Info>, id: int)
    requires id in m && !m[id].fInTried
    ensures |NewIds(m - {id})| == |NewIds(m)| - 1 && |TriedIds(m - {id})| == |TriedIds(m)|
  {
    assert NewIds(m - {id}) == NewIds(m) - {id};
    assert TriedIds(m - {id}) == TriedIds(m);
  }

  lemma DroppedEntries(nIdCount: int, m: map<int, Info>, id: int, limbo: set<int>)
    requires EntriesOk(nIdCount, m, limbo)
    ensures EntriesOk(nIdCount, m - {id}, limbo - {id})
  {}

  lemma DroppedTables(h: Hashes, vvNew: map<Slot, int>, vvTried: map<Slot, int>, m: map<int, Info>, id: int)
    requires NewOk(h, vvNew, m) && TriedOk(h, vvTried, m)
    requires id in m && m[id].nRefCount == 0 && !m[id].fInTried
    ensures NewOk(h, vvNew, m - {id}) && TriedOk(h, vvTried, m - {id})
  {
    NoSlots(vvNew, id);
  }

  lemma DroppedKeeps(h: Hashes, st: State, id: int, limbo: set<int>)
    requires TablesOk(h, st, limbo) && id in limbo
    requires st.mapInfo[id].nRandomPos == |st.vRandom| - 1
    ensures TablesOk(h, Dropped(st, id), limbo - {id})
  {
    LimboFacts(h, st, id, limbo);
    hide RandomOk, NewOk, TriedOk, EntriesOk, NewIds, TriedIds;
    DroppedRandom(st.vRandom, st.mapInfo, id);
    DroppedTables(h, st.vvNew, st.vvTried, st.mapInfo, id);
    DroppedCounts(st.mapInfo, id);
    DroppedEntries(st.nIdCount, st.mapInfo, id, limbo);
  }

  lemma LastInRandom(vRandom: seq<int>, m: map<int, Info>, id: int)
    requires RandomOk(vRandom, m) && vRandom != [] && vRandom[|vRandom| - 1] == id
    ensures id in m && m[id].nRandomPos == |vRandom| - 1
  {}

  lemma LimboFacts(h: Hashes, st: State, id: int, limbo: set<int>)
    requires TablesOk(h, st, limbo) && id in limbo
    ensures id in st.mapInfo && !st.mapInfo[id].fInTried && st.mapInfo[id].nRefCount == 0
    ensures RandomOk(st.vRandom, st.mapInfo)
    ensures 0 <= st.mapInfo[id].nRandomPos < |st.vRandom| && st.vRandom[st.mapInfo[id].nRandomPos] == id
  {
    hide NewOk, TriedOk, CountsOk;
    assert EntryOk(st.mapInfo[id], true);
  }

  /** Delete as a swap to the end and a drop. */
  lemma DeleteTablesOk(h: Hashes, st: State, id: int, limbo: set<int>)
    requires TablesOk(h, st, limbo) && id in limbo
    ensures var r := Delete(st, id);
            && r.Ok? && TablesOk(h, r.value, limbo - {id})
            && id in st.mapInfo && r.value.mapAddr == st.mapAddr - {st.mapInfo[id].addr.service.ip}
            && SameButPositions(st.mapInfo - {id}, r.value.mapInfo)
            && r.value.vvNew == st.vvNew && r.value.vvTried == st.vvTried
            && r.value.nIdCount == st.nIdCount && r.value.nLastGood == st.nLastGood
  {
    hide TablesOk, SwapRandom, RandomOk;
    LimboFacts(h, st, id, limbo);
    var p := st.mapInfo[id].nRandomPos;
    SwapRandomEffect(st, p, |st.vRandom| - 1);
    var swapped := SwapRandom(st, p, |st.vRandom| - 1).value;
    SwapRandomTablesOk(h, st, p, |st.vRandom| - 1, limbo);
    LimboFacts(h, swapped, id, limbo);
    LastInRandom(swapped.vRandom, swapped.mapInfo, id);
    DroppedKeeps(h, swapped, id, limbo);
    assert Delete(st, id).value == Dropped(swapped, id);
  }

  lemma DeleteKeeps(h: Hashes, st: State, id: int, limbo: set<int>)
    requires Inv(h, st, limbo) && id in limbo
    ensures var r := Delete(st, id);
            && r.Ok? && Inv(h, r.value, limbo - {id})
            && SameButPositions(st.mapInfo - {id}, r.value.mapInfo)
            && r.value.vvNew == st.vvNew && r.value.vvTried == st.vvTried
            && r.value.nIdCount == st.nIdCount && r.value.nLastGood == st.nLastGood
  {
    hide TablesOk, AddrOk, Delete;
    DeleteTablesOk(h, st, id, limbo);
    DroppedAddr(st.mapAddr, st.mapInfo, id);
    AddrFrame(st.mapAddr - {st.mapInfo[id].addr.service.ip}, st.mapInfo - {id}, Delete(st, id).value.mapInfo);
  }

  lemma SlotsWithout(table: map<Slot, int>, gone: set<Slot>, id: int)
    ensures SlotsOf(table - gone, id) == SlotsOf(table, id) - gone
  {}

  lemma SlotsWith(table: map<Slot, int>, s: Slot, id: int, k: int)
    requires s !in table
    ensures SlotsOf(table[s := id], k) == if k == id then SlotsOf(table, k) + {s} else SlotsOf(table, k)
  {}

  lemma UnrefTable(h: Hashes, vvNew: map<Slot, int>, m: map<int, Info>, id: int, gone: set<Slot>)
    requires NewOk(h, vvNew, m) && id in m && gone <= SlotsOf(vvNew, id)
    ensures |gone| <= m[id].nRefCount
    ensures NewOk(h, vvNew - gone, m[id := m[id].(nRefCount := m[id].nRefCount - |gone|)])
  {
    var m' := m[id := m[id].(nRefCount := m[id].nRefCount - |gone|)];
    UnrefHolders(h, vvNew, m, m', id, gone);
    hide SlotsOf, Own;
    forall k | k in m' ensures m'[k].nRefCount == |SlotsOf(vvNew - gone, k)| {
      UnrefSize(vvNew, id, gone, k);
    }
    UnrefSize(vvNew, id, gone, id);
  }

  lemma UnrefSize(vvNew: map<Slot, int>, id: int, gone: set<Slot>, k: int)
    requires gone <= SlotsOf(vvNew, id)
    ensures |SlotsOf(vvNew - gone, k)| == |SlotsOf(vvNew, k)| - if k == id then |gone| else 0
  {
    SlotsWithout(vvNew, gone, k);
    if k == id {
      assert SlotsOf(vvNew, id) == (SlotsOf(vvNew, id) - gone) + gone;
    } else {
      assert SlotsOf(vvNew, k) - gone == SlotsOf(vvNew, k);
    }
  }

  lemma UnrefHolders(h: Hashes, vvNew: map<Slot, int>, m: map<int, Info>, m': map<int, Info>, id: int, gone: set<Slot>)
    requires NewOk(h, vvNew, m) && id in m && m' == m[id := m[id].(nRefCount := m[id].nRefCount - |gone|)]
    ensures forall s :: s in vvNew - gone ==>
              && Holder(vvNew - gone, s) in m' && !m'[Holder(vvNew - gone, s)].fInTried
              && Own(h, m'[Holder(vvNew - gone, s)].addr.service, s)
  {
    hide Own, SlotsOf;
    var vv := vvNew - gone;
    forall s | s in vv ensures Holder(vv, s) in m' && !m'[Holder(vv, s)].fInTried && Own(h, m'[Holder(vv, s)].addr.service, s) {
      assert Holder(vv, s) == Holder(vvNew, s);
    }
  }

  /** The reference count of one entry changes; everything but the new table is indifferent. */
  lemma RecountFrame(h: Hashes, st: State, id: int, n: int)
    requires id in st.mapInfo
    requires RandomOk(st.vRandom, st.mapInfo) && TriedOk(h, st.vvTried, st.mapInfo)
    ensures var m' := st.mapInfo[id := st.mapInfo[id].(nRefCount := n)];
            && RandomOk(st.vRandom, m') && TriedOk(h, st.vvTried, m')
            && NewIds(m') == NewIds(st.mapInfo) && TriedIds(m') == TriedIds(st.mapInfo)
  {
    TouchRandom(st.vRandom, st.mapInfo, id, st.mapInfo[id].(nRefCount := n));
    RecountTried(h, st.vvTried, st.mapInfo, id, n);
    hide RandomOk, TriedOk;
  }

  lemma RecountTried(h: Hashes, vvTried: map<Slot, int>, m: map<int, Info>, id: int, n: int)
    requires id in m && TriedOk(h, vvTried, m)
    ensures TriedOk(h, vvTried, m[id := m[id].(nRefCount := n)])
  {}

  /** An entry loses some of its slots, and goes to limbo if those were all. */
  lemma UnrefKeeps(h: Hashes, st: State, id: int, gone: set<Slot>, limbo: set<int>)
    requires Inv(h, st, limbo) && id in st.mapInfo && id !in limbo && !st.mapInfo[id].fInTried
    requires gone <= SlotsOf(st.vvNew, id)
    ensures var i := st.mapInfo[id].(nRefCount := st.mapInfo[id].nRefCount - |gone|);
            && i.nRefCount >= 0
            && Inv(h, SetInfo(st, id, i).(vvNew := st.vvNew - gone), if i.nRefCount == 0 then limbo + {id} else limbo)
  {
    hide RandomOk, AddrOk, NewOk, TriedOk, NewIds, TriedIds, EntriesOk, SlotsOf;
    EntryFacts(st.nIdCount, st.mapInfo, id, limbo);
    UnrefTable(h, st.vvNew, st.mapInfo, id, gone);
    var i := st.mapInfo[id].(nRefCount := st.mapInfo[id].nRefCount - |gone|);
    RecountFrame(h, st, id, i.nRefCount);
    EntriesUpdate(st.nIdCount, st.mapInfo, id, i, limbo, if i.nRefCount == 0 then limbo + {id} else limbo);
    AddrFrame(st.mapAddr, st.mapInfo, st.mapInfo[id := i]);
  }

  /** ClearNew frees the slot and loses at most its occupant. */
  ghost predicate Cleared(st: State, st': State, slot: Slot) {
    && st'.vvNew == st.vvNew - {slot} && st'.vvTried == st.vvTried
    && st'.nIdCount == st.nIdCount && st'.nLastGood == st.nLastGood
    && (forall id :: id in st'.mapInfo ==> id in st.mapInfo)
    && (forall id :: id in st.mapInfo && !(slot in st.vvNew && Holder(st.vvNew, slot) == id) ==>
          id in st'.mapInfo && st'.mapInfo[id] == st.mapInfo[id].(nRandomPos := st'.mapInfo[id].nRandomPos))
    && (slot in st.vvNew ==>
          var id := Holder(st.vvNew, slot);
          && id in st.mapInfo && (id in st'.mapInfo <==> st.mapInfo[id].nRefCount > 1)
          && (id in st'.mapInfo ==> st'.mapInfo[id] == st.mapInfo[id].(nRefCount := st.mapInfo[id].nRefCount - 1)))
  }

  lemma SlotFacts(h: Hashes, st: State, slot: Slot, limbo: set<int>)
    requires Inv(h, st, limbo) && slot in st.vvNew
    ensures var id := Holder(st.vvNew, slot);
            && id in st.mapInfo && !st.mapInfo[id].fInTried && id !in limbo && st.mapInfo[id].nRefCount >= 1
            && {slot} <= SlotsOf(st.vvNew, id)
  {
    var id := Holder(st.vvNew, slot);
    assert slot in SlotsOf(st.vvNew, id);
    assert EntryOk(st.mapInfo[id], id in limbo);
  }

  lemma ClearNewKeeps(h: Hashes, st: State, slot: Slot, limbo: set<int>)
    requires Inv(h, st, limbo)
    ensures var r := ClearNew(st, slot); r.Ok? && Inv(h, r.value, limbo) && Cleared(st, r.value, slot)
  {
    hide Inv, Delete;
    if slot in st.vvNew {
      SlotFacts(h, st, slot, limbo);
      var id := Holder(st.vvNew, slot);
      UnrefKeeps(h, st, id, {slot}, limbo);
      var i := st.mapInfo[id].(nRefCount := st.mapInfo[id].nRefCount - 1);
      var st' := SetInfo(st, id, i).(vvNew := st.vvNew - {slot});
      if i.nRefCount == 0 {
        DeleteKeeps(h, st', id, limbo + {id});
        assert limbo + {id} - {id} == limbo;
      }
    }
  }

  // ---------------------------------------------------------------- moving between the tables

  lemma ReferencedHolders(h: Hashes, vvNew: map<Slot, int>, vv': map<Slot, int>, m: map<int, Info>, m': map<int, Info>, id: int, slot: Slot)
    requires NewOk(h, vvNew, m) && id in m && !m[id].fInTried && Own(h, m[id].addr.service, slot)
    requires m' == m[id := m[id].(nRefCount := m[id].nRefCount + 1)] && vv' == vvNew[slot := id]
    ensures forall s :: s in vv' ==> Holder(vv', s) in m' && !m'[Holder(vv', s)].fInTried && Own(h, m'[Holder(vv', s)].addr.service, s)
  {
    hide Own, SlotsOf;
    forall s | s in vv'
      ensures Holder(vv', s) in m' && !m'[Holder(vv', s)].fInTried && Own(h, m'[Holder(vv', s)].addr.service, s)
    {
      if s != slot { assert Holder(vv', s) == Holder(vvNew, s); }
    }
  }

  lemma ReferencedTable(h: Hashes, vvNew: map<Slot, int>, m: map<int, Info>, id: int, slot: Slot)
    requires NewOk(h, vvNew, m) && id in m && !m[id].fInTried && slot !in vvNew && Own(h, m[id].addr.service, slot)
    ensures NewOk(h, vvNew[slot := id], m[id := m[id].(nRefCount := m[id].nRefCount + 1)])
  {
    var m' := m[id := m[id].(nRefCount := m[id].nRefCount + 1)];
    ReferencedHolders(h, vvNew, vvNew[slot := id], m, m', id, slot);
    hide SlotsOf, Own;
    forall k | k in m' ensures m'[k].nRefCount == |SlotsOf(vvNew[slot := id], k)| {
      SlotsWith(vvNew, slot, id, k);
    }
  }

  lemma ReferencedTablesOk(h: Hashes, st: State, id: int, slot: Slot, limbo: set<int>)
    requires TablesOk(h, st, limbo) && id in st.mapInfo && !st.mapInfo[id].fInTried
    requires st.mapInfo[id].nRefCount < NEW_BUCKETS_PER_ADDRESS
    requires slot !in st.vvNew && Own(h, st.mapInfo[id].addr.service, slot)
    ensures TablesOk(h, Referenced(st, id, slot), limbo - {id})
  {
    hide RandomOk, NewOk, TriedOk, NewIds, TriedIds, EntriesOk, Own;
    EntryFacts(st.nIdCount, st.mapInfo, id, limbo);
    ReferencedTable(h, st.vvNew, st.mapInfo, id, slot);
    RecountFrame(h, st, id, st.mapInfo[id].nRefCount + 1);
    EntriesUpdate(st.nIdCount, st.mapInfo, id, Referenced(st, id, slot).mapInfo[id], limbo, limbo - {id});
  }

  lemma ReferencedKeeps(h: Hashes, st: State, id: int, slot: Slot, limbo: set<int>)
    requires Inv(h, st, limbo) && id in st.mapInfo && !st.mapInfo[id].fInTried
    requires st.mapInfo[id].nRefCount < NEW_BUCKETS_PER_ADDRESS
    requires slot !in st.vvNew && Own(h, st.mapInfo[id].addr.service, slot)
    ensures Inv(h, Referenced(st, id, slot), limbo - {id})
  {
    hide TablesOk, AddrOk;
    ReferencedTablesOk(h, st, id, slot, limbo);
    AddrFrame(st.mapAddr, st.mapInfo, Referenced(st, id, slot).mapInfo);
  }

  /** An entry changes tables; the positions do not care, and it moves from one count to the other. */
  lemma FlipFrame(vRandom: seq<int>, m: map<int, Info>, id: int, inTried: bool)
    requires id in m && RandomOk(vRandom, m) && m[id].fInTried != inTried
    ensures var m' := m[id := m[id].(fInTried := inTried)];
            && RandomOk(vRandom, m')
            && |NewIds(m')| == |NewIds(m)| + (if inTried then -1 else 1)
            && |TriedIds(m')| == |TriedIds(m)| + (if inTried then 1 else -1)
  {
    var m' := m[id := m[id].(fInTried := inTried)];
    TouchRandom(vRandom, m, id, m'[id]);
    hide RandomOk;
    if inTried {
      assert NewIds(m') == NewIds(m) - {id} && TriedIds(m') == TriedIds(m) + {id};
    } else {
      assert NewIds(m') == NewIds(m) + {id} && TriedIds(m') == TriedIds(m) - {id};
    }
  }

  lemma FlipNew(h: Hashes, vvNew: map<Slot, int>, m: map<int, Info>, id: int, inTried: bool)
    requires NewOk(h, vvNew, m) && id in m && m[id].nRefCount == 0
    ensures NewOk(h, vvNew, m[id := m[id].(fInTried := inTried)])
  {
    NoSlots(vvNew, id);
  }

  lemma UntriedTable(h: Hashes, vvTried: map<Slot, int>, m: map<int, Info>, slot: Slot)
    requires TriedOk(h, vvTried, m) && slot in vvTried
    ensures var id := Holder(vvTried, slot);
            id in m && m[id].fInTried && TriedOk(h, vvTried - {slot}, m[id := m[id].(fInTried := false)])
  {}

  lemma UntriedKeeps(h: Hashes, st: State, slot: Slot, limbo: set<int>)
    requires Inv(h, st, limbo) && slot in st.vvTried
    ensures var id := Holder(st.vvTried, slot);
            && id in st.mapInfo && st.mapInfo[id].fInTried && st.mapInfo[id].nRefCount == 0 && id !in limbo
            && Inv(h, Untried(st, slot), limbo + {id})
  {
    hide RandomOk, AddrOk, NewOk, TriedOk, NewIds, TriedIds, EntriesOk;
    UntriedTable(h, st.vvTried, st.mapInfo, slot);
    var id := Holder(st.vvTried, slot);
    EntryFacts(st.nIdCount, st.mapInfo, id, limbo);
    var i := st.mapInfo[id].(fInTried := false);
    FlipFrame(st.vRandom, st.mapInfo, id, false);
    FlipNew(h, st.vvNew, st.mapInfo, id, false);
    EntriesUpdate(st.nIdCount, st.mapInfo, id, i, limbo, limbo + {id});
    AddrFrame(st.mapAddr, st.mapInfo, st.mapInfo[id := i]);
  }

  lemma TriedTable(h: Hashes, vvTried: map<Slot, int>, m: map<int, Info>, id: int, slot: Slot)
    requires TriedOk(h, vvTried, m) && id in m && !m[id].fInTried
    requires slot == TriedSlot(h, m[id].addr.service) && slot !in vvTried
    ensures TriedOk(h, vvTried[slot := id], m[id := m[id].(fInTried := true)])
  {}

  lemma TriedTablesOk(h: Hashes, st: State, id: int, slot: Slot, limbo: set<int>)
    requires TablesOk(h, st, limbo) && id in limbo && id in st.mapInfo
    requires slot == TriedSlot(h, st.mapInfo[id].addr.service) && slot !in st.vvTried
    ensures TablesOk(h, Tried(st, id, slot), limbo - {id})
  {
    hide RandomOk, NewOk, TriedOk, NewIds, TriedIds, EntriesOk;
    EntryFacts(st.nIdCount, st.mapInfo, id, limbo);
    TriedTable(h, st.vvTried, st.mapInfo, id, slot);
    FlipFrame(st.vRandom, st.mapInfo, id, true);
    FlipNew(h, st.vvNew, st.mapInfo, id, true);
    EntriesUpdate(st.nIdCount, st.mapInfo, id, st.mapInfo[id].(fInTried := true), limbo, limbo - {id});
  }

  lemma TriedKeeps(h: Hashes, st: State, id: int, slot: Slot, limbo: set<int>)
    requires Inv(h, st, limbo) && id in limbo && id in st.mapInfo
    requires slot == TriedSlot(h, st.mapInfo[id].addr.service) && slot !in st.vvTried
    ensures Inv(h, Tried(st, id, slot), limbo - {id})
  {
    hide TablesOk, AddrOk;
    TriedTablesOk(h, st, id, slot, limbo);
    AddrFrame(st.mapAddr, st.mapInfo, Tried(st, id, slot).mapInfo);
  }

  lemma NewSlotIsOwn(h: Hashes, a: Service, src: Ip)
    ensures Own(h, a, NewSlot(h, a, src))
  {}

  /** Who is driven out of the tried slot, and who then loses the new slot to them. */
  ghost predicate EvictEffect(h: Hashes, st: State, st': State, slot: Slot) {
    && slot !in st'.vvTried && st'.vvTried == st.vvTried - {slot}
    && st'.nIdCount == st.nIdCount && st'.nLastGood == st.nLastGood
    && (forall k :: k in st'.mapInfo ==> k in st.mapInfo)
    && if slot !in st.vvTried then st' == st
       else
         var e := Holder(st.vvTried, slot);
         && e in st.mapInfo && e in st'.mapInfo
         && st'.mapInfo[e] == st.mapInfo[e].(fInTried := false, nRefCount := 1, nRandomPos := st'.mapInfo[e].nRandomPos)
         && var u := NewSlot(h, st.mapInfo[e].addr.service, st.mapInfo[e].source);
            && st'.vvNew == st.vvNew[u := e]
            && forall k :: k in st.mapInfo && k != e ==>
                 if u in st.vvNew && Holder(st.vvNew, u) == k then
                   && (k in st'.mapInfo <==> st.mapInfo[k].nRefCount > 1)
                   && (k in st'.mapInfo ==> st'.mapInfo[k] == st.mapInfo[k].(nRefCount := st.mapInfo[k].nRefCount - 1))
                 else
                   k in st'.mapInfo && st'.mapInfo[k] == st.mapInfo[k].(nRandomPos := st'.mapInfo[k].nRandomPos)
  }

  lemma EvictKeeps(h: Hashes, st: State, slot: Slot, limbo: set<int>)
    requires Inv(h, st, limbo)
    ensures var r := Evict(h, st, slot); r.Ok? && Inv(h, r.value, limbo) && EvictEffect(h, st, r.value, slot)
  {
    hide Inv, ClearNew;
    if slot in st.vvTried {
      UntriedKeeps(h, st, slot, limbo);
      var id := Holder(st.vvTried, slot);
      var out := Untried(st, slot);
      var was := st.mapInfo[id];
      var u := NewSlot(h, was.addr.service, was.source);
      if u in out.vvNew { SlotFacts(h, out, u, limbo + {id}); }
      ClearNewKeeps(h, out, u, limbo + {id});
      var room := ClearNew(out, u).value;
      assert room.mapInfo[id] == out.mapInfo[id].(nRandomPos := room.mapInfo[id].nRandomPos);
      assert SetInfo(room, id, room.mapInfo[id].(nRefCount := 0)) == room;
      NewSlotIsOwn(h, was.addr.service, was.source);
      ReferencedKeeps(h, room, id, u, limbo + {id});
      assert limbo + {id} - {id} == limbo;
      assert room.vvNew[u := id] == st.vvNew[u := id];
    }
  }

  lemma HeldIsAll(h: Hashes, st: State, id: int, limbo: set<int>)
    requires Inv(h, st, limbo) && id in st.mapInfo
    ensures HeldSlots(h, st, st.mapInfo[id].addr.service, id) == SlotsOf(st.vvNew, id)
    ensures st.mapInfo[id].nRefCount == |SlotsOf(st.vvNew, id)|
  {}

  lemma LeaveNewKeeps(h: Hashes, st: State, id: int)
    requires Inv(h, st, {}) && id in st.mapInfo && !st.mapInfo[id].fInTried
    ensures var left := LeaveNew(h, st, id);
            && left == SetInfo(st, id, st.mapInfo[id].(nRefCount := 0)).(vvNew := st.vvNew - SlotsOf(st.vvNew, id))
            && Inv(h, left, {id})
  {
    hide Inv;
    HeldIsAll(h, st, id, {});
    UnrefKeeps(h, st, id, SlotsOf(st.vvNew, id), {});
    assert {} + {id} == {id};
  }

  /** The occupant of the tried slot that entry `id` claims. */
  ghost predicate IsEvicted(h: Hashes, st: State, id: int, k: int)
    requires id in st.mapInfo
  {
    var slot := TriedSlot(h, st.mapInfo[id].addr.service);
    slot in st.vvTried && Holder(st.vvTried, slot) == k
  }

  /** The only entry that a move to tried may delete: one whose last slot the evicted entry takes. */
  ghost predicate IsDisplaced(h: Hashes, st: State, id: int, k: int)
    requires id in st.mapInfo
  {
    var slot := TriedSlot(h, st.mapInfo[id].addr.service);
    && slot in st.vvTried && Holder(st.vvTried, slot) in st.mapInfo
    && var e := st.mapInfo[Holder(st.vvTried, slot)];
       var u := NewSlot(h, e.addr.service, e.source);
       u in st.vvNew && Holder(st.vvNew, u) == k && k != id && k in st.mapInfo && st.mapInfo[k].nRefCount == 1
  }

  /** The new table after the move: the entry's own slots are free, and an evicted entry has its first one. */
  ghost function NewTableAfterMove(h: Hashes, st: State, id: int): map<Slot, int>
    requires id in st.mapInfo
  {
    var left := st.vvNew - SlotsOf(st.vvNew, id);
    var slot := TriedSlot(h, st.mapInfo[id].addr.service);
    if slot in st.vvTried && Holder(st.vvTried, slot) in st.mapInfo then
      var e := st.mapInfo[Holder(st.vvTried, slot)];
      left[NewSlot(h, e.addr.service, e.source) := Holder(st.vvTried, slot)]
    else left
  }

  ghost predicate MovedEffect(h: Hashes, st: State, st': State, id: int)
    requires id in st.mapInfo
  {
    && id in st'.mapInfo
    && st'.mapInfo[id] == st.mapInfo[id].(fInTried := true, nRefCount := 0, nRandomPos := st'.mapInfo[id].nRandomPos)
    && st'.vvTried == st.vvTried[TriedSlot(h, st.mapInfo[id].addr.service) := id]
    && st'.vvNew == NewTableAfterMove(h, st, id)
    && st'.nLastGood == st.nLastGood
    && (forall k :: k in st'.mapInfo ==> k in st.mapInfo)
    && (forall k :: k in st.mapInfo && k != id ==> OtherMoved(h, st, st'.mapInfo, id, k))
  }

  /** What the move did to any other entry: nothing but counts and positions, unless evicted or displaced. */
  ghost predicate OtherMoved(h: Hashes, st: State, m': map<int, Info>, id: int, k: int)
    requires id in st.mapInfo && k in st.mapInfo
  {
    if k in m' then
      && m'[k] == st.mapInfo[k].(nRandomPos := m'[k].nRandomPos, nRefCount := m'[k].nRefCount, fInTried := m'[k].fInTried)
      && m'[k].fInTried == (st.mapInfo[k].fInTried && !IsEvicted(h, st, id, k))
    else IsDisplaced(h, st, id, k)
  }

  /** The entry on its way to tried holds no slot, so an eviction cannot touch it. */
  lemma LeftIsUnslotted(h: Hashes, left: State, room: State, id: int, slot: Slot)
    requires Inv(h, left, {id}) && EvictEffect(h, left, room, slot)
    requires slot in left.vvTried ==> Holder(left.vvTried, slot) != id
    ensures id in room.mapInfo && room.mapInfo[id] == left.mapInfo[id].(nRandomPos := room.mapInfo[id].nRandomPos)
  {
    assert EntryOk(left.mapInfo[id], true);
    NoSlots(left.vvNew, id);
  }

  lemma MovedFromEvict(h: Hashes, st: State, room: State, id: int)
    requires id in st.mapInfo && !st.mapInfo[id].fInTried && Inv(h, st, {})
    requires var left := SetInfo(st, id, st.mapInfo[id].(nRefCount := 0)).(vvNew := st.vvNew - SlotsOf(st.vvNew, id));
             && EvictEffect(h, left, room, TriedSlot(h, st.mapInfo[id].addr.service))
             && id in room.mapInfo
             && room.mapInfo[id] == left.mapInfo[id].(nRandomPos := room.mapInfo[id].nRandomPos)
    ensures MovedEffect(h, st, Tried(room, id, TriedSlot(h, st.mapInfo[id].addr.service)), id)
  {
    hide Inv, SlotsOf, IsEvicted, IsDisplaced, OtherMoved, NewTableAfterMove, EvictEffect;
    var slot := TriedSlot(h, st.mapInfo[id].addr.service);
    NewTableIs(h, st, room, id);
    EvictRest(h, SetInfo(st, id, st.mapInfo[id].(nRefCount := 0)).(vvNew := st.vvNew - SlotsOf(st.vvNew, id)), room, slot);
    var st' := Tried(room, id, slot);
    assert st'.vvTried == st.vvTried[slot := id];
    forall k | k in st.mapInfo && k != id
      ensures OtherMoved(h, st, st'.mapInfo, id, k)
    {
      OtherIsMoved(h, st, room, id, k);
      OtherFrame(h, st, room.mapInfo, st'.mapInfo, id, k);
    }
  }

  lemma EvictRest(h: Hashes, st: State, st': State, slot: Slot)
    requires EvictEffect(h, st, st', slot)
    ensures st'.vvTried == st.vvTried - {slot} && st'.nLastGood == st.nLastGood
    ensures forall k :: k in st'.mapInfo ==> k in st.mapInfo
  {}

  lemma NewTableIs(h: Hashes, st: State, room: State, id: int)
    requires id in st.mapInfo && !st.mapInfo[id].fInTried && Inv(h, st, {})
    requires var left := SetInfo(st, id, st.mapInfo[id].(nRefCount := 0)).(vvNew := st.vvNew - SlotsOf(st.vvNew, id));
             EvictEffect(h, left, room, TriedSlot(h, st.mapInfo[id].addr.service))
    ensures room.vvNew == NewTableAfterMove(h, st, id)
  {
    hide RandomOk, AddrOk, NewOk, CountsOk, EntriesOk, SlotsOf;
  }

  lemma OtherFrame(h: Hashes, st: State, m: map<int, Info>, m': map<int, Info>, id: int, k: int)
    requires id in st.mapInfo && k in st.mapInfo && k != id && id in m && OtherMoved(h, st, m, id, k)
    requires id in m' && m' == m[id := m'[id]]
    ensures OtherMoved(h, st, m', id, k)
  {
  }

  lemma OtherIsMoved(h: Hashes, st: State, room: State, id: int, k: int)
    requires id in st.mapInfo && !st.mapInfo[id].fInTried && Inv(h, st, {}) && k in st.mapInfo && k != id
    requires var left := SetInfo(st, id, st.mapInfo[id].(nRefCount := 0)).(vvNew := st.vvNew - SlotsOf(st.vvNew, id));
             EvictEffect(h, left, room, TriedSlot(h, st.mapInfo[id].addr.service))
    ensures OtherMoved(h, st, room.mapInfo, id, k)
  {
    hide RandomOk, AddrOk, NewOk, CountsOk, EntriesOk, SlotsOf;
    var slot := TriedSlot(h, st.mapInfo[id].addr.service);
    var left := SetInfo(st, id, st.mapInfo[id].(nRefCount := 0)).(vvNew := st.vvNew - SlotsOf(st.vvNew, id));
    assert left.mapInfo[k] == st.mapInfo[k];
    if slot in st.vvTried {
      var e := Holder(st.vvTried, slot);
      assert e in st.mapInfo && e != id && left.mapInfo[e] == st.mapInfo[e];
      if k != e {
        var u := NewSlot(h, st.mapInfo[e].addr.service, st.mapInfo[e].source);
        if u in st.vvNew { SlotFacts(h, st, u, {}); }
      }
    } else {
      assert room == left;
    }
  }

  lemma MakeTriedKeeps(h: Hashes, st: State, id: int)
    requires Inv(h, st, {}) && id in st.mapInfo && !st.mapInfo[id].fInTried
    ensures var r := MakeTried(h, st, id); r.Ok? && Inv(h, r.value, {}) && MovedEffect(h, st, r.value, id)
  {
    hide Inv, Evict, LeaveNew, EvictEffect, MovedEffect;
    LeaveNewKeeps(h, st, id);
    var left := LeaveNew(h, st, id);
    var slot := TriedSlot(h, st.mapInfo[id].addr.service);
    EvictKeeps(h, left, slot, {id});
    var room := Evict(h, left, slot).value;
    if slot in left.vvTried { UntriedKeeps(h, left, slot, {id}); }
    LeftIsUnslotted(h, left, room, id, slot);
    MovedFromEvict(h, st, room, id);
    EvictClears(h, left, room, slot);
    TriedKeeps(h, room, id, slot, {id});
    assert {id} - {id} == {};
  }

  lemma EvictClears(h: Hashes, st: State, st': State, slot: Slot)
    requires EvictEffect(h, st, st', slot)
    ensures slot !in st'.vvTried
  {}

  // ---------------------------------------------------------------- the public calls

  lemma FindFacts(h: Hashes, st: State, ip: Ip)
    requires Inv(h, st, {})
    ensures Find(st, ip).None? <==> ip !in st.mapAddr
    ensures Find(st, ip).Some? ==>
              var id := Find(st, ip).value;
              && id in st.mapInfo && st.mapInfo[id].addr.service.ip == ip
              && EntryOk(st.mapInfo[id], false)
  {}

  /** The entry is in the new table, so the search of Good_ cannot come back empty. */
  lemma NewEntryIsHeld(h: Hashes, st: State, id: int)
    requires Inv(h, st, {}) && id in st.mapInfo && !st.mapInfo[id].fInTried
    ensures HeldSlots(h, st, st.mapInfo[id].addr.service, id) != {}
  {
    HeldIsAll(h, st, id, {});
    assert EntryOk(st.mapInfo[id], false);
  }

  /**
   Good_ on any consistent manager: no assert fires, the "no bucket" exit is
   dead, the entry ends up tried, and at most one displaced entry is lost.
   */
  lemma GoodIsExact(h: Hashes, st: State, a: Service, nTime: int)
    requires Inv(h, st, {})
    ensures Good(h, st, a, nTime).Ok?
    ensures var (st', exit) := Good(h, st, a, nTime).value;
            Inv(h, st', {}) && st'.nLastGood == nTime && GoodEffect(h, st, st', exit, FindExact(st, a), nTime)
  {
    hide Inv, MakeTried, HeldSlots, MovedEffect;
    var st1 := st.(nLastGood := nTime);
    LastGoodFrame(h, st, nTime);
    FindFacts(h, st, a.ip);
    var id := FindExact(st, a);
    assert FindExact(st1, a) == id;
    if id.Some? {
      var i := st.mapInfo[id.value].(nLastSuccess := nTime, nLastTry := nTime, nAttempts := 0);
      var st2 := SetInfo(st1, id.value, i);
      TouchKeeps(h, st1, id.value, i, {});
      if !i.fInTried {
        NewEntryIsHeld(h, st2, id.value);
        MakeTriedKeeps(h, st2, id.value);
        MovedKeepsLastGood(h, st2, MakeTried(h, st2, id.value).value, id.value);
      }
      assert st2 == Greeted(st, id.value, nTime);
    }
  }

  /** The state after Good_ has noted the success. */
  function Greeted(st: State, id: int, nTime: int): State
    requires id in st.mapInfo
  {
    SetInfo(st, id, st.mapInfo[id].(nLastSuccess := nTime, nLastTry := nTime, nAttempts := 0)).(nLastGood := nTime)
  }

  ghost predicate GoodEffect(h: Hashes, st: State, st': State, exit: GoodExit, id: Option<int>, nTime: int)
    requires id.Some? ==> id.value in st.mapInfo
  {
    if id.None? then exit == Unknown && st' == st.(nLastGood := nTime)
    else if st.mapInfo[id.value].fInTried then exit == AlreadyTried && st' == Greeted(st, id.value, nTime)
    else exit == Moved && MovedEffect(h, Greeted(st, id.value, nTime), st', id.value)
  }

  lemma MovedKeepsLastGood(h: Hashes, st: State, st': State, id: int)
    requires id in st.mapInfo && MovedEffect(h, st, st', id)
    ensures st'.nLastGood == st.nLastGood
  {}

  lemma LastGoodFrame(h: Hashes, st: State, nTime: int)
    requires Inv(h, st, {})
    ensures Inv(h, st.(nLastGood := nTime), {})
  {}

  /** ... and what Check_ asks of the times survives exactly when the time given is positive or not used. */
  lemma GoodKeepsTimes(h: Hashes, st: State, a: Service, nTime: int)
    requires Consistent(h, st)
    ensures var r := Good(h, st, a, nTime);
            && r.Ok?
            && (Consistent(h, r.value.0) <==> nTime > 0 || FindExact(st, a).None?)
  {
    hide Inv, Good;
    GoodIsExact(h, st, a, nTime);
    var id := FindExact(st, a);
    if id.Some? {
      var st' := Good(h, st, a, nTime).value.0;
      assert id.value in st'.mapInfo && st'.mapInfo[id.value].fInTried && st'.mapInfo[id.value].nLastSuccess == nTime;
    }
  }

  lemma CreatedRandom(vRandom: seq<int>, m: map<int, Info>, id: int, i: Info)
    requires RandomOk(vRandom, m) && id !in m && i.nRandomPos == |vRandom|
    ensures RandomOk(vRandom + [id], m[id := i])
  {}

  lemma CreatedAddr(mapAddr: map<Ip, int>, m: map<int, Info>, id: int, i: Info)
    requires AddrOk(mapAddr, m) && id !in m && i.addr.service.ip !in mapAddr
    ensures AddrOk(mapAddr[i.addr.service.ip := id], m[id := i])
  {}

  lemma CreatedTables(h: Hashes, st: State, id: int, i: Info)
    requires NewOk(h, st.vvNew, st.mapInfo) && TriedOk(h, st.vvTried, st.mapInfo)
    requires id !in st.mapInfo && i.nRefCount == 0 && !i.fInTried
    ensures NewOk(h, st.vvNew, st.mapInfo[id := i]) && TriedOk(h, st.vvTried, st.mapInfo[id := i])
  {
    assert SlotsOf(st.vvNew, id) == {};
  }

  lemma CreatedEntries(m: map<int, Info>, id: int, i: Info, limbo: set<int>)
    requires EntriesOk(id, m, limbo) && !i.fInTried && i.nRefCount == 0
    ensures id !in m && id !in limbo && EntriesOk(id + 1, m[id := i], limbo + {id})
  {}

  lemma CreatedCounts(m: map<int, Info>, id: int, i: Info)
    requires id !in m && !i.fInTried
    ensures |NewIds(m[id := i])| == |NewIds(m)| + 1 && |TriedIds(m[id := i])| == |TriedIds(m)|
  {
    assert NewIds(m[id := i]) == NewIds(m) + {id};
    assert TriedIds(m[id := i]) == TriedIds(m);
  }

  /** An entry in neither table takes the next number and the next position, however it is indexed. */
  lemma CreatedTablesOk(h: Hashes, st: State, st': State, i: Info, limbo: set<int>)
    requires TablesOk(h, st, limbo) && !i.fInTried && i.nRefCount == 0 && i.nRandomPos == |st.vRandom|
    requires st' == st.(mapInfo := st.mapInfo[st.nIdCount := i], vRandom := st.vRandom + [st.nIdCount],
                        nIdCount := st.nIdCount + 1, nNew := st.nNew + 1, mapAddr := st'.mapAddr)
    ensures TablesOk(h, st', limbo + {st.nIdCount})
    ensures st.nIdCount !in limbo && st.nIdCount !in st.mapInfo
  {
    hide RandomOk, NewOk, TriedOk, NewIds, TriedIds, EntriesOk;
    var id := st.nIdCount;
    CreatedEntries(st.mapInfo, id, i, limbo);
    CreatedRandom(st.vRandom, st.mapInfo, id, i);
    CreatedTables(h, st, id, i);
    CreatedCounts(st.mapInfo, id, i);
  }

  lemma IntroducedKeeps(h: Hashes, st: State, addr: Address, source: Ip, penalty: int)
    requires Inv(h, st, {}) && addr.service.ip !in st.mapAddr
    ensures var (st', id) := Introduced(st, addr, source, penalty);
            Inv(h, st', {id}) && id !in st.mapInfo
  {
    hide TablesOk, AddrOk;
    var (st', id) := Introduced(st, addr, source, penalty);
    var i := Info(addr.(nTime := Max(0, addr.nTime - penalty)), source, 0, 0, 0, 0, 0, false, |st.vRandom|);
    CreatedTablesOk(h, st, st', i, {});
    CreatedAddr(st.mapAddr, st.mapInfo, id, i);
    assert {} + {id} == {id};
  }

  ghost predicate Taken(st: State, slot: Slot, id: int) {
    slot in st.vvNew && Holder(st.vvNew, slot) != id
  }

  /** The slot that entry `id` asks for is, or can be made, its own. */
  ghost predicate Granted(st: State, slot: Slot, id: int, now: int)
    requires id in st.mapInfo
  {
    Taken(st, slot, id) ==>
      && Holder(st.vvNew, slot) in st.mapInfo
      && var there := st.mapInfo[Holder(st.vvNew, slot)];
         IsTerrible(there, now) || (there.nRefCount > 1 && st.mapInfo[id].nRefCount == 0)
  }

  ghost predicate PlaceEffect(h: Hashes, st: State, st': State, id: int, slot: Slot, now: int)
    requires id in st.mapInfo
  {
    && (forall k :: k in st'.mapInfo ==> k in st.mapInfo)
    && (id in st'.mapInfo <==> Granted(st, slot, id, now) || st.mapInfo[id].nRefCount > 0)
    && st'.vvNew == (if Granted(st, slot, id, now) then st.vvNew[slot := id] else st.vvNew)
    && st'.vvTried == st.vvTried
    && (forall k :: k in st.mapInfo && k in st'.mapInfo ==>
          var i, j := st.mapInfo[k], st'.mapInfo[k];
          j == i.(nRandomPos := j.nRandomPos, nRefCount := j.nRefCount))
    && (forall k :: k in st.mapInfo && k != id && k !in st'.mapInfo ==>
          && slot in st.vvNew && Holder(st.vvNew, slot) == k
          && st.mapInfo[k].nRefCount == 1 && IsTerrible(st.mapInfo[k], now))
    && st'.nLastGood == st.nLastGood
  }

  lemma ReferencedEffect(h: Hashes, st: State, room: State, id: int, slot: Slot, now: int)
    requires id in st.mapInfo && Cleared(st, room, slot) && !(slot in st.vvNew && Holder(st.vvNew, slot) == id)
    requires Granted(st, slot, id, now)
    requires slot in st.vvNew ==>
               Holder(st.vvNew, slot) in st.mapInfo && st.mapInfo[Holder(st.vvNew, slot)].nRefCount >= 1
    ensures id in room.mapInfo && PlaceEffect(h, st, Referenced(room, id, slot), id, slot, now)
  {}

  lemma PlaceKeeps(h: Hashes, st: State, id: int, source: Ip, now: int, limbo: set<int>)
    requires Inv(h, st, limbo) && limbo <= {id}
    requires id in st.mapInfo && !st.mapInfo[id].fInTried && 0 <= st.mapInfo[id].nRefCount < NEW_BUCKETS_PER_ADDRESS
    requires id in limbo <==> st.mapInfo[id].nRefCount == 0
    ensures Place(h, st, id, source, now).Ok?
    ensures var st' := Place(h, st, id, source, now).value;
            Inv(h, st', {}) && PlaceEffect(h, st, st', id, NewSlot(h, st.mapInfo[id].addr.service, source), now)
  {
    hide Inv, ClearNew, Delete, Cleared;
    var slot := NewSlot(h, st.mapInfo[id].addr.service, source);
    NewSlotIsOwn(h, st.mapInfo[id].addr.service, source);
    assert limbo - {id} == {};
    if slot in st.vvNew { SlotFacts(h, st, slot, limbo); }
    if slot in st.vvNew && Holder(st.vvNew, slot) == id {
      assert limbo == {};
    } else if Yields(st, slot, st.mapInfo[id], now) {
      ClearNewKeeps(h, st, slot, limbo);
      var room := ClearNew(st, slot).value;
      ClearedFrees(st, room, slot, id);
      ReferencedKeeps(h, room, id, slot, limbo);
      ReferencedEffect(h, st, room, id, slot, now);
    } else if st.mapInfo[id].nRefCount == 0 {
      DeleteKeeps(h, st, id, limbo);
      DeletedEffect(h, st, Delete(st, id).value, id, slot, now);
    } else {
      assert limbo == {};
    }
  }

  lemma ClearedFrees(st: State, room: State, slot: Slot, id: int)
    requires Cleared(st, room, slot) && id in st.mapInfo && !(slot in st.vvNew && Holder(st.vvNew, slot) == id)
    ensures slot !in room.vvNew && id in room.mapInfo
    ensures room.mapInfo[id] == st.mapInfo[id].(nRandomPos := room.mapInfo[id].nRandomPos)
  {}

  lemma DeletedEffect(h: Hashes, st: State, st': State, id: int, slot: Slot, now: int)
    requires id in st.mapInfo && st.mapInfo[id].nRefCount == 0 && !Granted(st, slot, id, now)
    requires SameButPositions(st.mapInfo - {id}, st'.mapInfo) && st'.vvNew == st.vvNew && st'.vvTried == st.vvTried
    requires st'.nLastGood == st.nLastGood
    ensures PlaceEffect(h, st, st', id, slot, now)
  {
    forall k ensures k in st'.mapInfo <==> k in st.mapInfo && k != id {
      assert k in st.mapInfo - {id} <==> k in st'.mapInfo;
    }
    forall k | k in st'.mapInfo ensures st'.mapInfo[k] == st.mapInfo[k].(nRandomPos := st'.mapInfo[k].nRandomPos) {
      assert k in st.mapInfo - {id} && (st.mapInfo - {id})[k] == st.mapInfo[k];
    }
  }

  /** What Add_ does: see PlaceEffect for the search for a slot. */
  ghost predicate AddEffect(h: Hashes, st: State, st': State, isNew: bool,
                            addr: Address, source: Ip, penalty: int, now: int, rnd: nat)
  {
    var found := Find(st, addr.service.ip);
    if found.Some? then
      var i := Refreshed(st.mapInfo[found.value], addr, penalty, now);
      var st1 := SetInfo(st, found.value, i);
      && !isNew && found.value in st'.mapInfo
      && (if MayAddReference(i, addr, rnd)
          then PlaceEffect(h, st1, st', found.value, NewSlot(h, i.addr.service, source), now) else st' == st1)
    else
      var (st1, id) := Introduced(st, addr, source, penalty);
      isNew && id in st1.mapInfo && PlaceEffect(h, st1, st', id, NewSlot(h, addr.service, source), now)
  }

  function Penalty(addr: Address, source: Ip, timePenalty: int): int {
    if addr.service.ip == source then 0 else timePenalty
  }

  lemma AddIsExact(h: Hashes, st: State, addr: Address, routable: bool, source: Ip, timePenalty: int, now: int, rnd: nat)
    requires Inv(h, st, {})
    ensures Add(h, st, addr, routable, source, timePenalty, now, rnd).Ok?
    ensures var (st', isNew) := Add(h, st, addr, routable, source, timePenalty, now, rnd).value;
            && Inv(h, st', {})
            && (if routable then AddEffect(h, st, st', isNew, addr, source, Penalty(addr, source, timePenalty), now, rnd)
                else st' == st && !isNew)
  {
    hide Inv, Place, PlaceEffect;
    if routable {
      var penalty := Penalty(addr, source, timePenalty);
      FindFacts(h, st, addr.service.ip);
      var found := Find(st, addr.service.ip);
      if found.Some? {
        var i := Refreshed(st.mapInfo[found.value], addr, penalty, now);
        TouchKeeps(h, st, found.value, i, {});
        if MayAddReference(i, addr, rnd) {
          var st1 := SetInfo(st, found.value, i);
          PlaceKeeps(h, st1, found.value, source, now, {});
          PlacedStays(h, st1, Place(h, st1, found.value, source, now).value, found.value, NewSlot(h, i.addr.service, source), now);
        }
      } else {
        var (st1, id) := Introduced(st, addr, source, penalty);
        IntroducedKeeps(h, st, addr, source, penalty);
        PlaceKeeps(h, st1, id, source, now, {id});
      }
    }
  }

  lemma PlacedStays(h: Hashes, st: State, st': State, id: int, slot: Slot, now: int)
    requires id in st.mapInfo && st.mapInfo[id].nRefCount > 0 && PlaceEffect(h, st, st', id, slot, now)
    ensures id in st'.mapInfo
  {}

  /**
   Add_ answers "new" for every routable address it did not know, but it keeps
   the address exactly when its slot is free, or held by an entry that is
   terrible or that has a second slot.
   */
  lemma AddKeepsExactlyWhenGranted(h: Hashes, st: State, addr: Address, source: Ip, timePenalty: int, now: int, rnd: nat)
    requires Inv(h, st, {}) && addr.service.ip !in st.mapAddr
    ensures Add(h, st, addr, true, source, timePenalty, now, rnd).Ok?
    ensures var (st', isNew) := Add(h, st, addr, true, source, timePenalty, now, rnd).value;
            var slot := NewSlot(h, addr.service, source);
            && isNew
            && (addr.service.ip in st'.mapAddr <==>
                  slot !in st.vvNew
                  || (Holder(st.vvNew, slot) in st.mapInfo
                      && var there := st.mapInfo[Holder(st.vvNew, slot)]; IsTerrible(there, now) || there.nRefCount > 1))
  {
    AddIsExact(h, st, addr, true, source, timePenalty, now, rnd);
    var (st', _) := Add(h, st, addr, true, source, timePenalty, now, rnd).value;
    StoredByIp(h, st, st', addr, source, timePenalty, now, rnd);
  }

  lemma StoredByIp(h: Hashes, st: State, st': State, addr: Address, source: Ip, timePenalty: int, now: int, rnd: nat)
    requires Inv(h, st, {}) && Inv(h, st', {}) && addr.service.ip !in st.mapAddr
    requires AddEffect(h, st, st', true, addr, source, Penalty(addr, source, timePenalty), now, rnd)
    ensures var slot := NewSlot(h, addr.service, source);
            addr.service.ip in st'.mapAddr <==>
                  slot !in st.vvNew
                  || (Holder(st.vvNew, slot) in st.mapInfo
                      && var there := st.mapInfo[Holder(st.vvNew, slot)]; IsTerrible(there, now) || there.nRefCount > 1)
  {
    hide RandomOk, TriedOk;
    FindFacts(h, st, addr.service.ip);
    var (st1, id) := Introduced(st, addr, source, Penalty(addr, source, timePenalty));
    IntroducedKeeps(h, st, addr, source, Penalty(addr, source, timePenalty));
    assert id in st'.mapInfo ==> st'.mapInfo[id].addr.service == addr.service;
    if addr.service.ip in st'.mapAddr {
      var k := IdOf(st'.mapAddr, addr.service.ip);
      assert k in st1.mapInfo && st1.mapInfo[k].addr.service == st'.mapInfo[k].addr.service;
      assert k == id;
    }
  }

  // ---------------------------------------------------------------- GetAddr_

  /** All listed ids are known. */
  ghost predicate Known(ids: seq<int>, m: map<int, Info>) {
    forall p {:trigger ids[p]} {:trigger Nth(ids, p)} :: 0 <= p < |ids| ==> Nth(ids, p) in m
  }

  /** The addresses worth giving out among the listed ids, in order. */
  ghost function Presentable(ids: seq<int>, m: map<int, Info>, now: int): seq<Address>
    requires Known(ids, m)
  {
    if ids == [] then [] else
      var last := |ids| - 1;
      assert forall p :: 0 <= p < last ==> Nth(ids[..last], p) == Nth(ids, p);
      var i := m[Nth(ids, last)];
      Presentable(ids[..last], m, now) + if IsTerrible(i, now) then [] else [i.addr]
  }

  lemma {:induction false} PresentableFrame(ids: seq<int>, m: map<int, Info>, m': map<int, Info>, now: int)
    requires Known(ids, m)
    requires SameButPositions(m, m')
    ensures Known(ids, m')
    ensures Presentable(ids, m', now) == Presentable(ids, m, now)
  {
    if ids != [] {
      var last := |ids| - 1;
      assert forall p :: 0 <= p < last ==> Nth(ids[..last], p) == Nth(ids, p);
      PresentableFrame(ids[..last], m, m', now);
    }
  }

  lemma {:induction false} PresentableIsGood(ids: seq<int>, m: map<int, Info>, mapAddr: map<Ip, int>, now: int)
    requires Known(ids, m)
    requires forall p, q :: 0 <= p < q < |ids| ==> Nth(ids, p) != Nth(ids, q)
    requires AddrOk(mapAddr, m)
    ensures var got := Presentable(ids, m, now);
            && |got| <= |ids|
            && (forall j :: 0 <= j < |got| ==>
                  exists p :: 0 <= p < |ids| && m[Nth(ids, p)].addr == got[j] && !IsTerrible(m[Nth(ids, p)], now))
            && (forall j, k :: 0 <= j < k < |got| ==> got[j].service.ip != got[k].service.ip)
  {
    if ids != [] {
      var last := |ids| - 1;
      var front := ids[..last];
      assert forall p :: 0 <= p < last ==> Nth(front, p) == Nth(ids, p);
      PresentableIsGood(front, m, mapAddr, now);
      var i := m[Nth(ids, last)];
      var rest := Presentable(front, m, now);
      forall j | 0 <= j < |rest|
        ensures rest[j].service.ip != i.addr.service.ip
        ensures exists p :: 0 <= p < |ids| && m[Nth(ids, p)].addr == rest[j] && !IsTerrible(m[Nth(ids, p)], now)
      {
        var p :| 0 <= p < |front| && m[Nth(front, p)].addr == rest[j] && !IsTerrible(m[Nth(front, p)], now);
        assert Nth(front, p) == Nth(ids, p);
        assert IdOf(mapAddr, rest[j].service.ip) == Nth(ids, p);
        assert IdOf(mapAddr, i.addr.service.ip) == Nth(ids, last);
      }
    }
  }

  /** The first k positions of vRandom have been looked at and gave this list. */
  ghost predicate IsListing(st: State, k: nat, got: seq<Address>, now: int) {
    k <= |st.vRandom| && Known(st.vRandom[..k], st.mapInfo) && got == Presentable(st.vRandom[..k], st.mapInfo, now)
  }

  /** vRandom is shuffled and nothing else. */
  ghost predicate Shuffled(st: State, st': State) {
    && SameButPositions(st.mapInfo, st'.mapInfo)
    && st' == st.(mapInfo := st'.mapInfo, vRandom := st'.vRandom)
    && multiset(st'.vRandom) == multiset(st.vRandom) && |st'.vRandom| == |st.vRandom|
  }

  lemma RandomFacts(h: Hashes, st: State)
    requires Inv(h, st, {})
    ensures RandomOk(st.vRandom, st.mapInfo) && Known(st.vRandom, st.mapInfo)
  {}

  /** One round of the loop. */
  lemma GetAddrRound(h: Hashes, st: State, n: nat, limit: nat, got: seq<Address>, rnd: nat -> nat, now: int)
    returns (st1: State, got1: seq<Address>)
    requires Inv(h, st, {}) && IsListing(st, n, got, now) && n < |st.vRandom| && |got| < limit
    ensures Inv(h, st1, {}) && Shuffled(st, st1) && IsListing(st1, n + 1, got1, now) && |got1| <= limit
    ensures GetAddrFrom(st, n, limit, got, rnd, now) == GetAddrFrom(st1, n + 1, limit, got1, rnd, now)
  {
    hide Inv, SwapRandom, RandomOk, IsListing, SameButPositions, Known, IsTerrible, Draw;
    var q := Draw(rnd(n), n, |st.vRandom|);
    RandomFacts(h, st);
    SwapRandomEffect(st, n, q);
    SwapRandomKeeps(h, st, n, q, {});
    st1 := SwapRandom(st, n, q).value;
    SwapIsPermutation(st.vRandom, n, q);
    RandomFacts(h, st1);
    KnownAt(st1.vRandom, st1.mapInfo, n);
    ListNext(st, st1, n, got, now);
    var i := st1.mapInfo[Nth(st1.vRandom, n)];
    got1 := if IsTerrible(i, now) then got else got + [i.addr];
  }

  lemma ShuffledTrans(a: State, b: State, c: State)
    requires Shuffled(a, b) && Shuffled(b, c)
    ensures Shuffled(a, c)
  {}

  /** Where the loop can stop: at the limit or at the end. */
  ghost predicate Finished(st: State, got: seq<Address>, limit: nat, now: int) {
    |got| <= limit && exists k :: 0 <= k <= |st.vRandom| && IsListing(st, k, got, now) && (k == |st.vRandom| || |got| == limit)
  }

  lemma {:induction false} GetAddrFromIsExact(h: Hashes, st: State, n: nat, limit: nat, got: seq<Address>, rnd: nat -> nat, now: int)
    requires Inv(h, st, {}) && |got| <= limit && IsListing(st, n, got, now)
    ensures GetAddrFrom(st, n, limit, got, rnd, now).Ok?
    ensures var (st', got') := GetAddrFrom(st, n, limit, got, rnd, now).value;
            Inv(h, st', {}) && Shuffled(st, st') && Finished(st', got', limit, now)
    decreases |st.vRandom| - n
  {
    hide Inv, IsListing, Shuffled, Finished;
    ListingBound(st, n, got, now);
    if n < |st.vRandom| && |got| < limit {
      var st1, got1 := GetAddrRound(h, st, n, limit, got, rnd, now);
      ShuffledLength(st, st1);
      GetAddrFromIsExact(h, st1, n + 1, limit, got1, rnd, now);
      ShuffledTrans(st, st1, GetAddrFrom(st1, n + 1, limit, got1, rnd, now).value.0);
    } else {
      FinishedHere(st, n, got, limit, now);
    }
  }

  lemma ShuffledLength(a: State, b: State)
    requires Shuffled(a, b)
    ensures |a.vRandom| == |b.vRandom|
  {}

  lemma FinishedHere(st: State, n: nat, got: seq<Address>, limit: nat, now: int)
    requires IsListing(st, n, got, now) && |got| <= limit && (n == |st.vRandom| || |got| == limit)
    ensures Finished(st, got, limit, now) && Shuffled(st, st)
  {}

  lemma ListingBound(st: State, n: nat, got: seq<Address>, now: int)
    requires IsListing(st, n, got, now)
    ensures n <= |st.vRandom|
  {}

  lemma KnownAt(ids: seq<int>, m: map<int, Info>, p: nat)
    requires Known(ids, m) && p < |ids|
    ensures Nth(ids, p) in m
  {}

  lemma SwapIsPermutation(v: seq<int>, p: nat, q: nat)
    requires p < |v| && q < |v|
    ensures multiset(v[p := v[q]][q := v[p]]) == multiset(v)
  {}

  /** One more round: the entry now at position n joins the listing if it is presentable. */
  lemma ListNext(st: State, st1: State, n: nat, got: seq<Address>, now: int)
    requires n < |st.vRandom| && |st1.vRandom| == |st.vRandom| && st1.vRandom[..n] == st.vRandom[..n]
    requires IsListing(st, n, got, now)
    requires SameButPositions(st.mapInfo, st1.mapInfo) && Nth(st1.vRandom, n) in st1.mapInfo
    ensures var i := st1.mapInfo[Nth(st1.vRandom, n)];
            IsListing(st1, n + 1, if IsTerrible(i, now) then got else got + [i.addr], now)
  {
    PresentableFrame(st.vRandom[..n], st.mapInfo, st1.mapInfo, now);
    var ids := st1.vRandom[..n + 1];
    assert ids[..n] == st.vRandom[..n];
    assert forall p :: 0 <= p < n ==> Nth(ids, p) == Nth(st.vRandom[..n], p);
    assert Nth(ids, n) == Nth(st1.vRandom, n);
  }

  /**
   GetAddr_ hands out distinct, presentable addresses of known entries, never
   more than the limit, and stops short of the limit only after seeing them all.
   */
  lemma GetAddrIsExact(h: Hashes, st: State, rnd: nat -> nat, now: int)
    requires Inv(h, st, {})
    ensures GetAddr(st, rnd, now).Ok?
    ensures var (st', got) := GetAddr(st, rnd, now).value;
            && Inv(h, st', {}) && Shuffled(st, st')
            && |got| <= GETADDR_MAX && 100 * |got| <= GETADDR_MAX_PCT * |st.vRandom|
            && (forall j, k :: 0 <= j < k < |got| ==> got[j].service.ip != got[k].service.ip)
            && (forall j :: 0 <= j < |got| ==> Worthy(st', got[j], now))
            && (|got| < GetAddrLimit(st) ==> IsListing(st', |st'.vRandom|, got, now))
  {
    hide Inv, IsListing, GetAddrFrom, IsTerrible;
    ListingStart(st, now);
    GetAddrFromIsExact(h, st, 0, GetAddrLimit(st), [], rnd, now);
    var (st', got) := GetAddr(st, rnd, now).value;
    var k :| 0 <= k <= |st'.vRandom| && IsListing(st', k, got, now) && (k == |st'.vRandom| || |got| == GetAddrLimit(st));
    ListingIsGood(h, st', k, got, now);
  }

  /** The address of an entry that is not terrible. */
  ghost predicate Worthy(st: State, a: Address, now: int) {
    exists id :: id in st.mapInfo && st.mapInfo[id].addr == a && !IsTerrible(st.mapInfo[id], now)
  }

  lemma ListingStart(st: State, now: int)
    ensures IsListing(st, 0, [], now)
  {
    assert st.vRandom[..0] == [];
  }

  lemma ListingIsGood(h: Hashes, st: State, k: nat, got: seq<Address>, now: int)
    requires Inv(h, st, {}) && IsListing(st, k, got, now)
    ensures forall i, j :: 0 <= i < j < |got| ==> got[i].service.ip != got[j].service.ip
    ensures forall j :: 0 <= j < |got| ==> Worthy(st, got[j], now)
  {
    var ids := st.vRandom[..k];
    forall p, q | 0 <= p < q < |ids| ensures Nth(ids, p) != Nth(ids, q) {
      assert Nth(ids, p) == Nth(st.vRandom, p) && Nth(ids, q) == Nth(st.vRandom, q);
    }
    PresentableIsGood(ids, st.mapInfo, st.mapAddr, now);
    forall j | 0 <= j < |got| ensures Worthy(st, got[j], now) {
      var p :| 0 <= p < |ids| && st.mapInfo[Nth(ids, p)].addr == got[j] && !IsTerrible(st.mapInfo[Nth(ids, p)], now);
      assert Nth(ids, p) in st.mapInfo;
    }
  }

  // ---------------------------------------------------------------- the small calls

  lemma AttemptIsExact(h: Hashes, st: State, a: Service, fCountFailure: bool, nTime: int)
    requires Consistent(h, st)
    ensures Inv(h, Attempt(st, a, fCountFailure, nTime), {})
    ensures Consistent(h, Attempt(st, a, fCountFailure, nTime)) <==> nTime >= 0 || FindExact(st, a).None?
  {
    hide Inv;
    FindFacts(h, st, a.ip);
    var id := FindExact(st, a);
    if id.Some? {
      var i := Attempt(st, a, fCountFailure, nTime).mapInfo[id.value];
      TouchKeeps(h, st, id.value, i, {});
    }
  }

  lemma ConnectedKeeps(h: Hashes, st: State, a: Service, nTime: int)
    requires Inv(h, st, {})
    ensures Inv(h, Connected(st, a, nTime), {})
    ensures TimesOk(st.mapInfo) ==> TimesOk(Connected(st, a, nTime).mapInfo)
  {
    hide Inv;
    FindFacts(h, st, a.ip);
    var id := FindExact(st, a);
    if id.Some? {
      var i := st.mapInfo[id.value];
      TouchKeeps(h, st, id.value, i.(addr := i.addr.(nTime := nTime)), {});
    }
  }

  lemma SetServicesKeeps(h: Hashes, st: State, a: Service, nServices: bv64)
    requires Inv(h, st, {})
    ensures Inv(h, SetServices(st, a, nServices), {})
    ensures TimesOk(st.mapInfo) ==> TimesOk(SetServices(st, a, nServices).mapInfo)
  {
    hide Inv;
    FindFacts(h, st, a.ip);
    var id := FindExact(st, a);
    if id.Some? {
      var i := st.mapInfo[id.value];
      TouchKeeps(h, st, id.value, i.(addr := i.addr.(nServices := nServices)), {});
    }
  }

  // ---------------------------------------------------------------- every sequence of calls

  datatype Call =
    | CallAdd(addr: Address, routable: bool, source: Ip, timePenalty: int, now: int, die: nat)
    | CallGood(a: Service, nTime: int)
    | CallAttempt(a: Service, fCountFailure: bool, nTime: int)
    | CallConnected(a: Service, nTime: int)
    | CallSetServices(a: Service, nServices: bv64)
    | CallGetAddr(rnd: nat -> nat, now: int)

  function Do(h: Hashes, st: State, c: Call): Result<State> {
    match c
    case CallAdd(addr, routable, source, timePenalty, now, die) =>
      var r :- Add(h, st, addr, routable, source, timePenalty, now, die);
      Ok(r.0)
    case CallGood(a, nTime) =>
      var r :- Good(h, st, a, nTime);
      Ok(r.0)
    case CallAttempt(a, fCountFailure, nTime) => Ok(Attempt(st, a, fCountFailure, nTime))
    case CallConnected(a, nTime) => Ok(Connected(st, a, nTime))
    case CallSetServices(a, nServices) => Ok(SetServices(st, a, nServices))
    case CallGetAddr(rnd, now) =>
      var r :- GetAddr(st, rnd, now);
      Ok(r.0)
  }

  function DoAll(h: Hashes, st: State, calls: seq<Call>): Result<State>
    decreases |calls|
  {
    if calls == [] then Ok(st) else
      var st' :- Do(h, st, calls[0]);
      DoAll(h, st', calls[1..])
  }

  /** The clock is never before the epoch, and after it when a connection succeeds. */
  predicate ClockOk(c: Call) {
    match c
    case CallGood(_, nTime) => nTime > 0
    case CallAttempt(_, _, nTime) => nTime >= 0
    case _ => true
  }

  lemma AddKeepsTimes(h: Hashes, st: State, st': State, isNew: bool, addr: Address, source: Ip, penalty: int, now: int, rnd: nat)
    requires TimesOk(st.mapInfo) && AddEffect(h, st, st', isNew, addr, source, penalty, now, rnd)
    ensures TimesOk(st'.mapInfo)
  {}

  lemma DoKeeps(h: Hashes, st: State, c: Call)
    requires Inv(h, st, {})
    ensures Do(h, st, c).Ok? && Inv(h, Do(h, st, c).value, {})
    ensures TimesOk(st.mapInfo) && ClockOk(c) ==> TimesOk(Do(h, st, c).value.mapInfo)
  {
    hide Inv, Add, Good, GetAddr, Attempt, Connected, SetServices, AddEffect;
    match c
    case CallAdd(addr, routable, source, timePenalty, now, die) =>
      AddIsExact(h, st, addr, routable, source, timePenalty, now, die);
      if TimesOk(st.mapInfo) && routable {
        var (st', isNew) := Add(h, st, addr, routable, source, timePenalty, now, die).value;
        AddKeepsTimes(h, st, st', isNew, addr, source, Penalty(addr, source, timePenalty), now, die);
      }
    case CallGood(a, nTime) =>
      GoodIsExact(h, st, a, nTime);
      if TimesOk(st.mapInfo) { GoodKeepsTimes(h, st, a, nTime); }
    case CallAttempt(a, fCountFailure, nTime) => AttemptKeeps(h, st, a, fCountFailure, nTime);
    case CallConnected(a, nTime) => ConnectedKeeps(h, st, a, nTime);
    case CallSetServices(a, nServices) => SetServicesKeeps(h, st, a, nServices);
    case CallGetAddr(rnd, now) => GetAddrIsExact(h, st, rnd, now);
  }

  lemma AttemptKeeps(h: Hashes, st: State, a: Service, fCountFailure: bool, nTime: int)
    requires Inv(h, st, {})
    ensures Inv(h, Attempt(st, a, fCountFailure, nTime), {})
    ensures TimesOk(st.mapInfo) && nTime >= 0 ==> TimesOk(Attempt(st, a, fCountFailure, nTime).mapInfo)
  {
    hide Inv;
    FindFacts(h, st, a.ip);
    var id := FindExact(st, a);
    if id.Some? {
      TouchKeeps(h, st, id.value, Attempt(st, a, fCountFailure, nTime).mapInfo[id.value], {});
    }
  }

  lemma {:induction false} DoAllKeeps(h: Hashes, st: State, calls: seq<Call>)
    requires Inv(h, st, {})
    ensures DoAll(h, st, calls).Ok? && Inv(h, DoAll(h, st, calls).value, {})
    ensures TimesOk(st.mapInfo) && (forall i :: 0 <= i < |calls| ==> ClockOk(calls[i])) ==>
              TimesOk(DoAll(h, st, calls).value.mapInfo)
    decreases |calls|
  {
    hide Inv, Do;
    if calls != [] {
      DoKeeps(h, st, calls[0]);
      DoAllKeeps(h, Do(h, st, calls[0]).value, calls[1..]);
    }
  }

  lemma NothingToIndex(h: Hashes)
    ensures RandomOk([], map[]) && AddrOk(map[], map[]) && NewOk(h, map[], map[]) && TriedOk(h, map[], map[])
  {}

  lemma NothingToCount(nIdCount: int)
    ensures CountsOk(Empty.(nIdCount := nIdCount)) && EntriesOk(nIdCount, map[], {}) && TimesOk(map[])
  {
    var m: map<int, Info> := map[];
    assert NewIds(m) == {} && TriedIds(m) == {};
  }

  lemma EmptyTablesOk(h: Hashes, nIdCount: int)
    ensures TablesOk(h, Empty.(nIdCount := nIdCount), {})
  {
    hide RandomOk, AddrOk, NewOk, TriedOk, CountsOk, EntriesOk, TimesOk;
    NothingToIndex(h);
    NothingToCount(nIdCount);
  }

  lemma EmptyIsConsistent(h: Hashes)
    ensures Consistent(h, Empty)
  {
    hide TablesOk, RandomOk, AddrOk, NewOk, TriedOk, CountsOk, EntriesOk, TimesOk;
    NothingToIndex(h);
    NothingToCount(0);
    EmptyTablesOk(h, 0);
  }

  /** From the empty manager no sequence of calls trips an assert, and with a sane clock Check_ stays at 0. */
  lemma EveryRunIsConsistent(h: Hashes, calls: seq<Call>)
    ensures DoAll(h, Empty, calls).Ok? && Inv(h, DoAll(h, Empty, calls).value, {})
    ensures (forall i :: 0 <= i < |calls| ==> ClockOk(calls[i])) ==> Consistent(h, DoAll(h, Empty, calls).value)
  {
    hide Inv, DoAll;
    EmptyIsConsistent(h);
    DoAllKeeps(h, Empty, calls);
  }
}
