/**
 The layered cache of unspent coins (src/coins.h, src/coins.cpp).

 A stack of caches stands on a database.  Each cached entry carries a DIRTY and
 a FRESH flag that let a cache avoid talking to its parent.  The specification
 is one plain map from outpoints to unspent coins per level.
 */
module Coins {
  import opened Basics

  datatype OutPoint = OutPoint(hash: nat, n: nat)

  /** `bytes` is the dynamic memory the script takes. */
  datatype Script = Script(bytes: nat, unspendable: bool)

  const NoScript := Script(0, false)

  datatype Coin = Coin(nValue: int, script: Script, fCoinBase: bool, nHeight: nat) {
    predicate IsSpent() { nValue == -1 }
    function Usage(): nat { script.bytes }
  }

  /** What the default constructor and Clear() leave behind. */
  const Cleared := Coin(-1, NoScript, false, 0)

  datatype Entry = Entry(coin: Coin, isDirty: bool, isFresh: bool)

  datatype Stack =
    | Base(db: map<OutPoint, Coin>)
    | Cache(coins: map<OutPoint, Entry>, usage: int, base: Stack)

  // ---------------------------------------------------------------- the specification: one map per level

  function Unspent(coins: map<OutPoint, Entry>): map<OutPoint, Coin> {
    map o | o in coins && !coins[o].coin.IsSpent() :: coins[o].coin
  }

  function View(s: Stack): map<OutPoint, Coin> {
    match s
    case Base(db) => map o | o in db && !db[o].IsSpent() :: db[o]
    case Cache(coins, _, base) => (View(base) - coins.Keys) + Unspent(coins)
  }

  /** The view of every level, the top cache first and the database last. */
  function Views(s: Stack): (vs: seq<map<OutPoint, Coin>>)
    ensures |vs| >= 1 && vs[0] == View(s)
    ensures s.Cache? ==> |vs| >= 2 && vs[1..] == Views(s.base)
  {
    match s
    case Base(_) => [View(s)]
    case Cache(_, _, base) => [View(s)] + Views(base)
  }

  /** One outpoint of the view: what the first cache that has an entry says, and else the database. */
  function Look(s: Stack, o: OutPoint): Option<Coin> {
    match s
    case Base(db) => if o in db && !db[o].IsSpent() then Some(db[o]) else None
    case Cache(coins, _, base) => if o in coins then Shown(coins[o]) else Look(base, o)
  }

  function Shown(e: Entry): Option<Coin> {
    if e.coin.IsSpent() then None else Some(e.coin)
  }

  lemma {:induction false} ViewIsLook(s: Stack, o: OutPoint)
    ensures Look(s, o) == if o in View(s) then Some(View(s)[o]) else None
  {
    if s.Cache? { ViewIsLook(s.base, o); }
  }

  lemma ViewFromLook(s: Stack, v: map<OutPoint, Coin>)
    requires forall o :: Look(s, o) == if o in v then Some(v[o]) else None
    ensures View(s) == v
  {
    forall o ensures (o in View(s) <==> o in v) && (o in v ==> View(s)[o] == v[o]) {
      ViewIsLook(s, o);
      assert Look(s, o) == if o in v then Some(v[o]) else None;
    }
  }

  ghost predicate SameLook(s: Stack, t: Stack) {
    forall o :: Look(s, o) == Look(t, o)
  }

  lemma SameView(s: Stack, t: Stack)
    requires SameLook(s, t)
    ensures View(s) == View(t)
  {
    forall o ensures Look(s, o) == if o in View(t) then Some(View(t)[o]) else None {
      ViewIsLook(t, o);
      assert Look(s, o) == Look(t, o);
    }
    ViewFromLook(s, View(t));
  }

  // ---------------------------------------------------------------- what the flags mean

  ghost predicate EntryOk(e: Entry, below: Option<Coin>) {
    && (e.isFresh ==> below.None?)
    && (!e.isDirty ==> Shown(e) == below)
  }

  ghost predicate FlagsOk(coins: map<OutPoint, Entry>, base: Stack) {
    forall o :: o in coins ==> EntryOk(coins[o], Look(base, o))
  }

  ghost predicate WellFormed(s: Stack) {
    s.Cache? ==> WellFormed(s.base) && s.usage == SumUsage(s.coins) && FlagsOk(s.coins, s.base)
  }

  lemma FlagsOkOver(coins: map<OutPoint, Entry>, base: Stack, base': Stack)
    requires FlagsOk(coins, base) && SameLook(base, base')
    ensures FlagsOk(coins, base')
  {
    forall o | o in coins ensures EntryOk(coins[o], Look(base', o)) {
      assert Look(base, o) == Look(base', o);
    }
  }

  ghost function SumUsage(coins: map<OutPoint, Entry>): nat
    decreases |coins|
  {
    if coins == map[] then 0 else
      var o :| o in coins;
      SmallerWithout(coins, o);
      coins[o].coin.Usage() + SumUsage(coins - {o})
  }

  lemma SmallerWithout(coins: map<OutPoint, Entry>, o: OutPoint)
    requires o in coins
    ensures |coins - {o}| == |coins| - 1
  {
    assert (coins - {o}).Keys == coins.Keys - {o};
    assert |(coins - {o}).Keys| == |coins - {o}|;
  }

  lemma {:induction false} SumSplit(coins: map<OutPoint, Entry>, o: OutPoint)
    requires o in coins
    ensures SumUsage(coins) == coins[o].coin.Usage() + SumUsage(coins - {o})
    decreases |coins|
  {
    var p :| p in coins && SumUsage(coins) == coins[p].coin.Usage() + SumUsage(coins - {p});
    if p != o {
      SmallerWithout(coins, p);
      SmallerWithout(coins, o);
      SumSplit(coins - {p}, o);
      SumSplit(coins - {o}, p);
      assert coins - {p} - {o} == coins - {o} - {p};
    }
  }

  lemma SumUpdate(coins: map<OutPoint, Entry>, o: OutPoint, e: Entry)
    ensures SumUsage(coins[o := e]) ==
            SumUsage(coins) - (if o in coins then coins[o].coin.Usage() else 0) + e.coin.Usage()
  {
    var r := coins[o := e];
    SumSplit(r, o);
    if o in coins {
      SumSplit(coins, o);
      assert r - {o} == coins - {o};
    } else {
      assert r - {o} == coins;
    }
  }

  // ---------------------------------------------------------------- looking a coin up

  /** The database answers for whatever it stores; a cache answers only for unspent coins. */
  function GetCoin(s: Stack, o: OutPoint): (Stack, Option<Coin>)
    decreases s, 1
  {
    match s
    case Base(db) => (s, if o in db then Some(db[o]) else None)
    case Cache(_, _, _) =>
      var s' := Fetch(s, o);
      (s', if o in s'.coins && !s'.coins[o].coin.IsSpent() then Some(s'.coins[o].coin) else None)
  }

  /** FetchCoin: fills the cache from below, all the way down. */
  function Fetch(s: Stack, o: OutPoint): (s': Stack)
    requires s.Cache?
    ensures s'.Cache?
    decreases s, 0
  {
    if o in s.coins then s else
      var (base, found) := GetCoin(s.base, o);
      if found.None? then s.(base := base) else
        Cache(s.coins[o := Entry(found.value, false, found.value.IsSpent())],
              s.usage + found.value.Usage(), base)
  }

  /** The levels of two stacks agree one by one. */
  ghost predicate SameLevels(s: Stack, t: Stack) {
    SameLook(s, t) && s.Cache? == t.Cache? && (s.Cache? ==> SameLevels(s.base, t.base))
  }

  lemma {:induction false} SameViews(s: Stack, t: Stack)
    requires SameLevels(s, t)
    ensures Views(s) == Views(t)
  {
    SameView(s, t);
    if s.Cache? { SameViews(s.base, t.base); }
  }

  lemma {:induction false} SameLevelsRefl(s: Stack)
    ensures SameLevels(s, s)
  {
    if s.Cache? { SameLevelsRefl(s.base); }
  }

  lemma {:induction false} FetchIsExact(s: Stack, o: OutPoint)
    requires s.Cache? && WellFormed(s)
    ensures WellFormed(Fetch(s, o)) && SameLevels(s, Fetch(s, o))
    ensures Look(s, o) == if o in Fetch(s, o).coins then Shown(Fetch(s, o).coins[o]) else None
    decreases s, 0
  {
    SameLevelsRefl(s);
    if o !in s.coins {
      GetCoinIsExact(s.base, o);
      var (base, found) := GetCoin(s.base, o);
      FlagsOkOver(s.coins, s.base, base);
      if found.Some? {
        SumUpdate(s.coins, o, Entry(found.value, false, found.value.IsSpent()));
      }
      assert SameLook(s, Fetch(s, o));
    }
  }

  /** A lookup answers from the specification's map and leaves every level's map alone. */
  lemma {:induction false} GetCoinIsExact(s: Stack, o: OutPoint)
    requires WellFormed(s)
    ensures var (s', found) := GetCoin(s, o);
            && WellFormed(s') && SameLevels(s, s')
            && (if found.Some? && s.Base? then Shown(Entry(found.value, false, false)) else found) == Look(s, o)
    decreases s, 1
  {
    SameLevelsRefl(s);
    if s.Cache? { FetchIsExact(s, o); }
  }

  // ---------------------------------------------------------------- adding, spending, uncaching

  datatype Outcome = Done(stack: Stack) | Threw(stack: Stack)

  function AddCoin(s: Stack, o: OutPoint, coin: Coin, overwrite: bool): (r: Outcome)
    requires s.Cache? && !coin.IsSpent()
    ensures r.stack.Cache? && r.stack.base == s.base
  {
    if coin.script.unspendable then Done(s) else
      var e := if o in s.coins then s.coins[o] else Entry(Cleared, false, false);
      var usage := if o in s.coins then s.usage - e.coin.Usage() else s.usage;
      if !overwrite && !e.coin.IsSpent() then
        Threw(s.(coins := s.coins[o := e], usage := usage))
      else
        var markFresh := !overwrite && !e.isDirty;
        Done(s.(coins := s.coins[o := Entry(coin, true, e.isFresh || markFresh)], usage := usage + coin.Usage()))
  }

  /** Succeeds on every entry it finds, a spent one included, and hands out what the entry held. */
  function SpendCoin(s: Stack, o: OutPoint): (Stack, Option<Coin>)
    requires s.Cache?
  {
    var f := Fetch(s, o);
    if o !in f.coins then (f, None) else
      var e := f.coins[o];
      var usage := f.usage - e.coin.Usage();
      if e.isFresh then (f.(coins := f.coins - {o}, usage := usage), Some(e.coin))
      else (f.(coins := f.coins[o := Entry(Cleared, true, false)], usage := usage), Some(e.coin))
  }

  function Uncache(s: Stack, o: OutPoint): (s': Stack)
    requires s.Cache?
    ensures s'.Cache?
  {
    if o in s.coins && !s.coins[o].isDirty && !s.coins[o].isFresh then
      s.(coins := s.coins - {o}, usage := s.usage - s.coins[o].coin.Usage())
    else s
  }

  /**
   Adding without the overwrite flag is right exactly when the coin is not
   already visible: if it is in this cache the call throws, and if it is only
   below, the entry is wrongly marked FRESH.
   */
  lemma AddCoinIsExact(s: Stack, o: OutPoint, coin: Coin, overwrite: bool)
    requires s.Cache? && WellFormed(s) && !coin.IsSpent()
    ensures var r := AddCoin(s, o, coin, overwrite);
            var good := overwrite || coin.script.unspendable || Look(s, o).None?;
            && (r.Done? && WellFormed(r.stack) <==> good)
            && (r.Threw? <==> !good && o in s.coins)
            && (good ==>
                  forall p :: Look(r.stack, p) == if p == o && !coin.script.unspendable then Some(coin) else Look(s, p))
  {
    var r := AddCoin(s, o, coin, overwrite);
    if !coin.script.unspendable && r.Done? {
      SumUpdate(s.coins, o, r.stack.coins[o]);
      assert EntryOk(r.stack.coins[o], Look(s.base, o)) <==> (overwrite || Look(s, o).None?);
    }
  }

  /** An entry whose flags do not fit what is below. */
  ghost predicate BadEntry(s: Stack, o: OutPoint) {
    s.Cache? && o in s.coins && !EntryOk(s.coins[o], Look(s.base, o))
  }

  /** Adding over a coin that is only visible below leaves such an entry. */
  lemma AddCoinLeavesBad(s: Stack, o: OutPoint, coin: Coin)
    requires s.Cache? && WellFormed(s) && !coin.IsSpent() && !coin.script.unspendable && Look(s, o).Some?
    requires AddCoin(s, o, coin, false).Done?
    ensures BadEntry(AddCoin(s, o, coin, false).stack, o)
  {}

  /** Nothing added elsewhere mends it. */
  lemma BadEntryStays(s: Stack, o: OutPoint, p: OutPoint, coin: Coin, overwrite: bool)
    requires BadEntry(s, o) && p != o && !coin.IsSpent()
    ensures BadEntry(AddCoin(s, p, coin, overwrite).stack, o)
  {}

  /** The promise that the original asks of a caller who does not let it check: the outputs are new. */
  ghost predicate OutputsNew(s: Stack, txid: nat, outs: seq<Coin>, n: nat)
    requires n <= |outs|
  {
    forall i :: 0 <= i < n ==> outs[i].script.unspendable || Look(s, OutPoint(txid, i)).None?
  }

  /** A throwing call has already given back the memory of the entry it leaves in place. */
  lemma AddCoinThrowMiscounts(s: Stack, o: OutPoint, coin: Coin)
    requires s.Cache? && WellFormed(s) && !coin.IsSpent() && !coin.script.unspendable
    requires o in s.coins && !s.coins[o].coin.IsSpent()
    ensures var r := AddCoin(s, o, coin, false);
            && r.Threw? && r.stack.coins == s.coins
            && (r.stack.usage == SumUsage(r.stack.coins) <==> s.coins[o].coin.Usage() == 0)
  {
    assert s.coins[o := s.coins[o]] == s.coins;
  }

  /** Spending removes the coin from the top map only, whatever the flags were. */
  lemma SpendCoinIsExact(s: Stack, o: OutPoint)
    requires s.Cache? && WellFormed(s)
    ensures var (s', out) := SpendCoin(s, o);
            && s'.Cache? && WellFormed(s') && SameLevels(s.base, s'.base)
            && (forall p :: Look(s', p) == if p == o then None else Look(s, p))
            && (if out.Some? then Shown(Entry(out.value, false, false)) else None) == Look(s, o)
  {
    FetchIsExact(s, o);
    hide SumUsage, Fetch, WellFormed, FlagsOk;
    var f := Fetch(s, o);
    if o in f.coins {
      SpendHere(f, o);
      var (s', _) := SpendCoin(s, o);
      forall p ensures Look(s', p) == if p == o then None else Look(s, p) {
        assert Look(f, p) == Look(s, p);
      }
    }
  }

  /** When there is an entry to spend: a visible coin, a spent entry here, or a spent coin stored right below. */
  lemma SpendCoinFinds(s: Stack, o: OutPoint)
    requires s.Cache? && WellFormed(s)
    ensures SpendCoin(s, o).1.Some? <==> Look(s, o).Some? || o in s.coins || (s.base.Base? && o in s.base.db)
  {
    if o !in s.coins { GetCoinIsExact(s.base, o); }
  }

  /** Spending a coin that is in this cache. */
  lemma SpendHere(f: Stack, o: OutPoint)
    requires f.Cache? && WellFormed(f) && o in f.coins
    ensures var e, usage := f.coins[o], f.usage - f.coins[o].coin.Usage();
            var s' := if e.isFresh then f.(coins := f.coins - {o}, usage := usage) else f.(coins := f.coins[o := Entry(Cleared, true, false)], usage := usage);
            && WellFormed(s') && forall p :: Look(s', p) == if p == o then None else Look(f, p)
  {
    SumUpdate(f.coins, o, Entry(Cleared, true, false));
    SumSplit(f.coins, o);
    hide SumUsage;
    var usage := f.usage - f.coins[o].coin.Usage();
    var s' := if f.coins[o].isFresh then f.(coins := f.coins - {o}, usage := usage) else f.(coins := f.coins[o := Entry(Cleared, true, false)], usage := usage);
    forall p ensures Look(s', p) == if p == o then None else Look(f, p) {
    }
  }

  lemma UncacheIsExact(s: Stack, o: OutPoint)
    requires s.Cache? && WellFormed(s)
    ensures WellFormed(Uncache(s, o)) && SameLevels(s, Uncache(s, o))
    ensures o in Uncache(s, o).coins <==> o in s.coins && (s.coins[o].isDirty || s.coins[o].isFresh)
  {
    SameLevelsRefl(s);
    if Uncache(s, o) != s { SumSplit(s.coins, o); }
  }

  // ---------------------------------------------------------------- flushing

  /** "FRESH flag misapplied": the child calls FRESH what the parent holds unspent. */
  predicate Misapplied(ours: Option<Entry>, theirs: Entry) {
    theirs.isDirty && theirs.isFresh && ours.Some? && !ours.value.coin.IsSpent()
  }

  /** What the parent keeps for one outpoint of the child. */
  function MergeOne(ours: Option<Entry>, theirs: Entry): Option<Entry> {
    if !theirs.isDirty then ours
    else if ours.None? then
      if theirs.isFresh && theirs.coin.IsSpent() then None
      else Some(Entry(theirs.coin, true, theirs.isFresh))
    else
      if ours.value.isFresh && theirs.coin.IsSpent() then None
      else Some(Entry(theirs.coin, true, ours.value.isFresh))
  }

  function Get(coins: map<OutPoint, Entry>, o: OutPoint): Option<Entry> {
    if o in coins then Some(coins[o]) else None
  }

  function MergeAt(ours: map<OutPoint, Entry>, theirs: map<OutPoint, Entry>, o: OutPoint): Option<Entry> {
    if o in theirs then MergeOne(Get(ours, o), theirs[o]) else Get(ours, o)
  }

  /** BatchWrite does not depend on the order in which the child's map is walked. */
  function Merged(ours: map<OutPoint, Entry>, theirs: map<OutPoint, Entry>): map<OutPoint, Entry> {
    map o | o in ours.Keys + theirs.Keys && MergeAt(ours, theirs, o).Some? :: MergeAt(ours, theirs, o).value
  }

  ghost predicate AnyMisapplied(ours: map<OutPoint, Entry>, theirs: map<OutPoint, Entry>) {
    exists o :: o in theirs && Misapplied(Get(ours, o), theirs[o])
  }

  /** The database erases spent coins and stores the rest. */
  function Stored(db: map<OutPoint, Coin>, theirs: map<OutPoint, Entry>): map<OutPoint, Coin> {
    var dirty := set o | o in theirs && theirs[o].isDirty;
    (db - dirty) + (map o | o in dirty && !theirs[o].coin.IsSpent() :: theirs[o].coin)
  }

  ghost function BatchWrite(s: Stack, theirs: map<OutPoint, Entry>): Outcome {
    match s
    case Base(db) => Done(Base(Stored(db, theirs)))
    case Cache(coins, usage, base) =>
      if AnyMisapplied(coins, theirs) then Threw(s)
      else Done(Cache(Merged(coins, theirs), usage - SumUsage(coins) + SumUsage(Merged(coins, theirs)), base))
  }

  ghost function Flush(s: Stack): Outcome
    requires s.Cache?
  {
    var r := BatchWrite(s.base, s.coins);
    if r.Threw? then r else Done(Cache(map[], 0, r.stack))
  }

  lemma MergeOneIsRight(ours: Option<Entry>, theirs: Entry, below: Option<Coin>)
    requires ours.Some? ==> EntryOk(ours.value, below)
    requires EntryOk(theirs, if ours.Some? then Shown(ours.value) else below)
    ensures !Misapplied(ours, theirs)
    ensures var r := MergeOne(ours, theirs);
            && (r.Some? ==> EntryOk(r.value, below))
            && (if r.Some? then Shown(r.value) else below) == Shown(theirs)
  {}

  /** A well-formed child makes the parent's map its own, and the throw is unreachable. */
  lemma BatchWriteIsExact(s: Stack, theirs: map<OutPoint, Entry>)
    requires WellFormed(s) && FlagsOk(theirs, s)
    ensures var r := BatchWrite(s, theirs);
            && r.Done? && WellFormed(r.stack)
            && (forall o :: Look(r.stack, o) == if o in theirs then Shown(theirs[o]) else Look(s, o))
            && r.stack.Cache? == s.Cache? && (s.Cache? ==> r.stack.base == s.base)
  {
    if s.Cache? {
      var m := Merged(s.coins, theirs);
      forall o | o in theirs
        ensures !Misapplied(Get(s.coins, o), theirs[o])
        ensures o in m ==> EntryOk(m[o], Look(s.base, o))
        ensures (if o in m then Shown(m[o]) else Look(s.base, o)) == Shown(theirs[o])
      {
        MergeOneIsRight(Get(s.coins, o), theirs[o], Look(s.base, o));
      }
    }
  }

  lemma FlushIsExact(s: Stack)
    requires s.Cache? && WellFormed(s)
    ensures var r := Flush(s);
            && r.Done? && r.stack.Cache? && WellFormed(r.stack)
            && SameLook(s, r.stack) && SameLook(s, r.stack.base)
            && r.stack.base.Cache? == s.base.Cache?
            && (s.base.Cache? ==> r.stack.base.base == s.base.base)
  {
    BatchWriteIsExact(s.base, s.coins);
  }

  // ---------------------------------------------------------------- runs over a whole stack

  /** Level 0 is the top.  Coins are added and spent at the top; the other calls may go to any cache. */
  datatype Op =
    | OpFetch(level: nat, o: OutPoint)
    | OpUncache(level: nat, o: OutPoint)
    | OpFlush(level: nat)
    | OpAdd(o: OutPoint, coin: Coin, overwrite: bool)
    | OpSpend(o: OutPoint)
    | OpPush          // a new empty cache on top
    | OpDiscard       // drop the top cache unflushed

  function Depth(s: Stack): nat {
    if s.Base? then 0 else 1 + Depth(s.base)
  }

  ghost predicate Respects(s: Stack, op: Op) {
    match op
    case OpFetch(level, _) => level < Depth(s)
    case OpUncache(level, _) => level < Depth(s)
    case OpFlush(level) => level < Depth(s)
    case OpAdd(o, coin, overwrite) =>
      s.Cache? && !coin.IsSpent() && (overwrite || coin.script.unspendable || o !in View(s))
    case OpSpend(_) => s.Cache?
    case OpPush => true
    case OpDiscard => s.Cache?
  }

  /** Fetch, uncache or flush at some level of the stack. */
  ghost function DoAt(s: Stack, level: nat, op: Op): Outcome
    requires op.OpFetch? || op.OpUncache? || op.OpFlush?
    requires level < Depth(s)
    decreases level
  {
    if level > 0 then
      var r := DoAt(s.base, level - 1, op);
      if r.Threw? then Threw(s.(base := r.stack)) else Done(s.(base := r.stack))
    else match op
      case OpFetch(_, o) => Done(Fetch(s, o))
      case OpUncache(_, o) => Done(Uncache(s, o))
      case OpFlush(_) => Flush(s)
  }

  ghost function Do(s: Stack, op: Op): Outcome
    requires Respects(s, op)
  {
    match op
    case OpFetch(level, _) => DoAt(s, level, op)
    case OpUncache(level, _) => DoAt(s, level, op)
    case OpFlush(level) => DoAt(s, level, op)
    case OpAdd(o, coin, overwrite) => AddCoin(s, o, coin, overwrite)
    case OpSpend(o) => Done(SpendCoin(s, o).0)
    case OpPush => Done(Cache(map[], 0, s))
    case OpDiscard => Done(s.base)
  }

  /** The same operation on plain maps. */
  ghost function SpecDo(vs: seq<map<OutPoint, Coin>>, op: Op): seq<map<OutPoint, Coin>>
    requires |vs| >= 1
    requires op.OpFlush? ==> op.level + 1 < |vs|
  {
    match op
    case OpFetch(_, _) => vs
    case OpUncache(_, _) => vs
    case OpFlush(level) => vs[level + 1 := vs[level]]
    case OpAdd(o, coin, _) => if coin.script.unspendable then vs else vs[0 := vs[0][o := coin]]
    case OpSpend(o) => vs[0 := vs[0] - {o}]
    case OpPush => [vs[0]] + vs
    case OpDiscard => vs[1..]
  }

  lemma {:induction false} ViewsLength(s: Stack)
    ensures |Views(s)| == Depth(s) + 1
  {
    if s.Cache? { ViewsLength(s.base); }
  }

  lemma {:induction false} DoAtRefines(s: Stack, level: nat, op: Op)
    requires WellFormed(s) && level < Depth(s)
    requires op.OpFetch? || op.OpUncache? || op.OpFlush?
    ensures level + 1 < |Views(s)|
    ensures var r := DoAt(s, level, op);
            && r.Done? && WellFormed(r.stack) && SameLook(s, r.stack)
            && Views(r.stack) == if op.OpFlush? then Views(s)[level + 1 := Views(s)[level]] else Views(s)
    decreases level
  {
    hide WellFormed, View, Look, SameLook, Views;
    ViewsLength(s);
    var r := DoAt(s, level, op);
    if level > 0 {
      CacheParts(s);
      DoAtRefines(s.base, level - 1, op);
      OverRefined(s, r.stack);
      ViewsOver(s);
      ViewsOver(r.stack);
      if op.OpFlush? { UpdateBelow(View(s), Views(s.base), level); }
    } else {
      DoHereRefines(s, op);
    }
  }

  lemma ViewsOver(s: Stack)
    requires s.Cache?
    ensures Views(s) == [View(s)] + Views(s.base)
  {}

  lemma UpdateBelow(v: map<OutPoint, Coin>, vs: seq<map<OutPoint, Coin>>, k: nat)
    requires 0 < k < |vs|
    ensures ([v] + vs)[k + 1 := ([v] + vs)[k]] == [v] + vs[k := vs[k - 1]]
  {}

  lemma CacheParts(s: Stack)
    requires s.Cache? && WellFormed(s)
    ensures WellFormed(s.base)
  {}

  /** A cache over a base that looks the same looks the same. */
  lemma OverRefined(s: Stack, t: Stack)
    requires s.Cache? && WellFormed(s) && t.Cache? && t == s.(base := t.base)
    requires WellFormed(t.base) && SameLook(s.base, t.base)
    ensures WellFormed(t) && SameLook(s, t) && View(s) == View(t)
  {
    FlagsOkOver(s.coins, s.base, t.base);
    forall o ensures Look(s, o) == Look(t, o) {
      assert Look(s.base, o) == Look(t.base, o);
    }
    SameView(s, t);
  }

  lemma DoHereRefines(s: Stack, op: Op)
    requires s.Cache? && WellFormed(s)
    requires op.OpFetch? || op.OpUncache? || op.OpFlush?
    ensures 1 < |Views(s)|
    ensures var r := DoAt(s, 0, op);
            && r.Done? && WellFormed(r.stack) && SameLook(s, r.stack)
            && Views(r.stack) == if op.OpFlush? then Views(s)[1 := Views(s)[0]] else Views(s)
  {
    ViewsLength(s);
    hide FlagsOk, SumUsage;
    var r := DoAt(s, 0, op);
    match op
    case OpFetch(_, o) => FetchIsExact(s, o); SameViews(s, r.stack);
    case OpUncache(_, o) => UncacheIsExact(s, o); SameViews(s, r.stack);
    case OpFlush(_) => FlushIsExact(s); SameView(s, r.stack); SameView(s, r.stack.base);
  }

  /** One operation refines its specification on every level at once, and never throws. */
  lemma StepRefines(s: Stack, op: Op)
    requires WellFormed(s) && Respects(s, op)
    ensures op.OpFlush? ==> op.level + 1 < |Views(s)|
    ensures var r := Do(s, op);
            r.Done? && WellFormed(r.stack) && Views(r.stack) == SpecDo(Views(s), op)
  {
    match op
    case OpFetch(level, _) => DoAtRefines(s, level, op);
    case OpUncache(level, _) => DoAtRefines(s, level, op);
    case OpFlush(level) => DoAtRefines(s, level, op);
    case OpAdd(o, coin, overwrite) => AddRefines(s, o, coin, overwrite);
    case OpSpend(o) => SpendRefines(s, o);
    case OpPush => SameView(s, Do(s, op).stack);
    case OpDiscard =>
  }

  lemma AddRefines(s: Stack, o: OutPoint, coin: Coin, overwrite: bool)
    requires s.Cache? && WellFormed(s) && !coin.IsSpent() && (overwrite || coin.script.unspendable || o !in View(s))
    ensures var r := AddCoin(s, o, coin, overwrite);
            && r.Done? && WellFormed(r.stack)
            && Views(r.stack) == if coin.script.unspendable then Views(s) else Views(s)[0 := View(s)[o := coin]]
  {
    hide WellFormed, View, Look;
    ViewIsLook(s, o);
    AddCoinIsExact(s, o, coin, overwrite);
    if !coin.script.unspendable {
      ChangedView(s, AddCoin(s, o, coin, overwrite).stack, View(s)[o := coin], o);
    }
  }

  lemma SpendRefines(s: Stack, o: OutPoint)
    requires s.Cache? && WellFormed(s)
    ensures WellFormed(SpendCoin(s, o).0) && Views(SpendCoin(s, o).0) == Views(s)[0 := View(s) - {o}]
  {
    hide WellFormed, View, Look, SameLevels, SpendCoin;
    SpendCoinIsExact(s, o);
    var s' := SpendCoin(s, o).0;
    SameViews(s.base, s'.base);
    ChangedView(s, s', View(s) - {o}, o);
  }

  lemma ChangedView(s: Stack, t: Stack, v: map<OutPoint, Coin>, o: OutPoint)
    requires Look(t, o) == if o in v then Some(v[o]) else None
    requires v - {o} == View(s) - {o}
    requires forall p :: p != o ==> Look(t, p) == Look(s, p)
    ensures View(t) == v
  {
    forall p ensures Look(t, p) == if p in v then Some(v[p]) else None {
      ViewIsLook(s, p);
      if p != o {
        assert p in v <==> p in v - {o};
        assert p in View(s) <==> p in View(s) - {o};
        assert p in v ==> v[p] == (v - {o})[p] && View(s)[p] == (View(s) - {o})[p];
      }
    }
    ViewFromLook(t, v);
  }

  /** A run in which every operation respects the overwrite precondition when its turn comes. */
  ghost predicate RespectsAll(s: Stack, ops: seq<Op>)
    decreases |ops|
  {
    ops == [] || (Respects(s, ops[0]) && (Do(s, ops[0]).Done? ==> RespectsAll(Do(s, ops[0]).stack, ops[1..])))
  }

  ghost predicate Reaches(s: Stack, ops: seq<Op>, t: Stack)
    decreases |ops|
  {
    if ops == [] then t == s
    else Respects(s, ops[0]) && Do(s, ops[0]).Done? && Reaches(Do(s, ops[0]).stack, ops[1..], t)
  }

  ghost predicate SpecReaches(vs: seq<map<OutPoint, Coin>>, ops: seq<Op>, ws: seq<map<OutPoint, Coin>>)
    decreases |ops|
  {
    if ops == [] then ws == vs
    else |vs| >= 1 && (ops[0].OpFlush? ==> ops[0].level + 1 < |vs|) && SpecReaches(SpecDo(vs, ops[0]), ops[1..], ws)
  }

  /** Every run goes through, and every level ends at the map the operations describe. */
  lemma {:induction false} RunsRefine(s: Stack, ops: seq<Op>) returns (t: Stack)
    requires WellFormed(s) && RespectsAll(s, ops)
    ensures Reaches(s, ops, t) && WellFormed(t)
    ensures SpecReaches(Views(s), ops, Views(t))
    decreases |ops|
  {
    if ops == [] {
      t := s;
    } else {
      StepRefines(s, ops[0]);
      t := RunsRefine(Do(s, ops[0]).stack, ops[1..]);
    }
  }
}

/** The code of the cache class, one object per level, proved against the functions above. */
module CoinsCache {
  import opened Basics
  import opened Coins

  class CoinsView {
    /** The parent view, or null for the database at the bottom. */
    const base: CoinsView?
    ghost const height: nat
    var db: map<OutPoint, Coin>
    var cacheCoins: map<OutPoint, Entry>
    var cachedCoinsUsage: int

    ghost predicate Linked()
      decreases height
    {
      base != null ==> base.height < height && base.Linked()
    }

    ghost function Repr(): set<CoinsView>
      decreases height
    {
      if base != null && base.height < height then {this} + base.Repr() else {this}
    }

    ghost function Abs(): Stack
      reads Repr()
      decreases height
    {
      if base != null && base.height < height then Cache(cacheCoins, cachedCoinsUsage, base.Abs()) else Base(db)
    }

    lemma ReprIsLow()
      ensures forall v :: v in Repr() ==> v.height <= height
      decreases height
    {
      if base != null && base.height < height { base.ReprIsLow(); }
    }

    constructor Database(coins: map<OutPoint, Coin>)
      ensures Linked() && base == null && Abs() == Base(coins) && Repr() == {this}
    {
      base, height := null, 0;
      db, cacheCoins, cachedCoinsUsage := coins, map[], 0;
    }

    constructor OnTopOf(baseIn: CoinsView)
      requires baseIn.Linked()
      ensures Linked() && base == baseIn && Repr() == {this} + baseIn.Repr()
      ensures Abs() == Cache(map[], 0, baseIn.Abs())
    {
      base, height := baseIn, baseIn.height + 1;
      db, cacheCoins, cachedCoinsUsage := map[], map[], 0;
      new;
      baseIn.ReprIsLow();
    }

    method GetCoin(o: OutPoint) returns (found: Option<Coin>)
      requires Linked()
      modifies Repr()
      ensures (Abs(), found) == Coins.GetCoin(old(Abs()), o)
      decreases height, 1
    {
      if base == null {
        return if o in db then Some(db[o]) else None;
      }
      FetchCoin(o);
      found := if o in cacheCoins && !cacheCoins[o].coin.IsSpent() then Some(cacheCoins[o].coin) else None;
    }

    /** Afterwards the entry, if there is one, is in cacheCoins. */
    method FetchCoin(o: OutPoint)
      requires Linked() && base != null
      modifies Repr()
      ensures Abs() == Fetch(old(Abs()), o)
      decreases height, 0
    {
      if o in cacheCoins {
        return;
      }
      base.ReprIsLow();
      var tmp := base.GetCoin(o);
      if tmp.None? {
        return;
      }
      var entry := Entry(tmp.value, false, false);
      if entry.coin.IsSpent() {
        entry := entry.(isFresh := true);
      }
      cacheCoins := cacheCoins[o := entry];
      cachedCoinsUsage := cachedCoinsUsage + entry.coin.Usage();
    }

    method HaveCoin(o: OutPoint) returns (have: bool)
      requires Linked() && base != null && WellFormed(Abs())
      modifies Repr()
      ensures Abs() == Fetch(old(Abs()), o) && WellFormed(Abs()) && SameLevels(old(Abs()), Abs())
      ensures have <==> Look(old(Abs()), o).Some?
    {
      FetchIsExact(Abs(), o);
      FetchCoin(o);
      have := o in cacheCoins && !cacheCoins[o].coin.IsSpent();
    }

    /** Returns false where the source throws. */
    method AddCoin(o: OutPoint, coin: Coin, possibleOverwrite: bool) returns (ok: bool)
      requires Linked() && base != null && !coin.IsSpent()
      modifies this
      ensures var r := Coins.AddCoin(old(Abs()), o, coin, possibleOverwrite);
              ok == r.Done? && Abs() == r.stack
    {
      base.ReprIsLow();
      if coin.script.unspendable {
        return true;
      }
      var inserted := o !in cacheCoins;
      if inserted {
        cacheCoins := cacheCoins[o := Entry(Cleared, false, false)];
      }
      var entry := cacheCoins[o];
      var markFresh := false;
      if !inserted {
        cachedCoinsUsage := cachedCoinsUsage - entry.coin.Usage();
      }
      if !possibleOverwrite {
        if !entry.coin.IsSpent() {
          assert old(cacheCoins)[o := entry] == cacheCoins;
          return false;
        }
        markFresh := !entry.isDirty;
      }
      cacheCoins := cacheCoins[o := Entry(coin, true, entry.isFresh || markFresh)];
      cachedCoinsUsage := cachedCoinsUsage + coin.Usage();
      assert cacheCoins == old(cacheCoins)[o := cacheCoins[o]];
      ok := true;
    }

    /**
     Adds all outputs of a transaction; false where the source throws.  It goes through with all flags
     right exactly when it checks, or the transaction is a coinbase, or the outputs are new.
     */
    method AddCoins(txid: nat, outs: seq<Coin>, fCoinbase: bool, check: bool) returns (ok: bool)
      requires Linked() && base != null && WellFormed(Abs())
      requires forall i :: 0 <= i < |outs| ==> !outs[i].IsSpent()
      modifies Repr()
      ensures ok && WellFormed(Abs()) <==> check || fCoinbase || OutputsNew(old(Abs()), txid, outs, |outs|)
      ensures ok && WellFormed(Abs()) ==>
                forall p :: Look(Abs(), p) ==
                            if p.hash == txid && p.n < |outs| && !outs[p.n].script.unspendable then Some(outs[p.n])
                            else Look(old(Abs()), p)
    {
      hide WellFormed, Coins.AddCoin;
      var i := 0;
      ghost var start := Abs();
      ghost var bad := OutPoint(txid, 0);
      ok := true;
      while i < |outs|
        invariant i <= |outs| && ok
        invariant check || fCoinbase || OutputsNew(start, txid, outs, i) ==> Extended(start, Abs(), txid, outs, i)
        invariant !(check || fCoinbase || OutputsNew(start, txid, outs, i)) ==>
                    BadEntry(Abs(), bad) && bad.hash == txid && bad.n < i
      {
        ghost var before := Abs();
        var o := OutPoint(txid, i);
        var overwrite := fCoinbase;
        if check {
          overwrite := HaveCoin(o);
          SameExtended(start, before, Abs(), txid, outs, i);
        }
        ghost var mid := Abs();
        ok := AddCoin(o, outs[i], overwrite);
        if check || fCoinbase || OutputsNew(start, txid, outs, i) {
          AddExtends(start, mid, txid, outs, i, overwrite);
          if !(check || fCoinbase || OutputsNew(start, txid, outs, i + 1)) {
            bad := o;
            if ok { AddCoinLeavesBad(mid, o, outs[i]); }
          }
        } else {
          BadEntryStays(mid, bad, o, outs[i], overwrite);
        }
        if !ok {
          return;
        }
        i := i + 1;
      }
      BadIsNotWellFormed(Abs(), bad);
    }

    /** The first outputs have been added to the view, and nothing else. */
    static ghost predicate Extended(start: Stack, s: Stack, txid: nat, outs: seq<Coin>, n: nat)
      requires n <= |outs|
    {
      && s.Cache? && WellFormed(s)
      && forall p :: Look(s, p) ==
                     if p.hash == txid && p.n < n && !outs[p.n].script.unspendable then Some(outs[p.n]) else Look(start, p)
    }

    static lemma SameExtended(start: Stack, s: Stack, s': Stack, txid: nat, outs: seq<Coin>, n: nat)
      requires n <= |outs| && Extended(start, s, txid, outs, n) && WellFormed(s') && s'.Cache? && SameLook(s, s')
      ensures Extended(start, s', txid, outs, n)
    {
      hide WellFormed, Look;
    }

    static lemma AddExtends(start: Stack, s: Stack, txid: nat, outs: seq<Coin>, i: nat, overwrite: bool)
      requires i < |outs| && Extended(start, s, txid, outs, i) && !outs[i].IsSpent()
      ensures var o := OutPoint(txid, i);
              var good := overwrite || outs[i].script.unspendable || Look(start, o).None?;
              var r := Coins.AddCoin(s, o, outs[i], overwrite);
              && Look(s, o) == Look(start, o)
              && (good ==> r.Done? && Extended(start, r.stack, txid, outs, i + 1))
    {
      AddCoinIsExact(s, OutPoint(txid, i), outs[i], overwrite);
      hide WellFormed, Look, Coins.AddCoin;
    }

    static lemma BadIsNotWellFormed(s: Stack, o: OutPoint)
      ensures BadEntry(s, o) ==> !WellFormed(s)
    {}

    /** Returns what *moveout receives, or None where the source returns false. */
    method SpendCoin(o: OutPoint) returns (moveout: Option<Coin>)
      requires Linked() && base != null
      modifies Repr()
      ensures (Abs(), moveout) == Coins.SpendCoin(old(Abs()), o)
    {
      FetchCoin(o);
      base.ReprIsLow();
      if o !in cacheCoins {
        return None;
      }
      var entry := cacheCoins[o];
      cachedCoinsUsage := cachedCoinsUsage - entry.coin.Usage();
      moveout := Some(entry.coin);
      if entry.isFresh {
        cacheCoins := cacheCoins - {o};
      } else {
        cacheCoins := cacheCoins[o := Entry(Cleared, true, entry.isFresh)];
      }
    }

    method Uncache(o: OutPoint)
      requires Linked() && base != null
      modifies this
      ensures Abs() == Coins.Uncache(old(Abs()), o)
    {
      base.ReprIsLow();
      if o in cacheCoins && !cacheCoins[o].isDirty && !cacheCoins[o].isFresh {
        cachedCoinsUsage := cachedCoinsUsage - cacheCoins[o].coin.Usage();
        cacheCoins := cacheCoins - {o};
      }
    }

    /** One entry of the child's map; false where the source throws. */
    method MergeEntry(o: OutPoint, theirs: Entry) returns (ok: bool)
      requires Linked()
      modifies `cacheCoins, `cachedCoinsUsage
      ensures base != null ==> base.Abs() == old(base.Abs())
      ensures ok <==> !Misapplied(old(Get(cacheCoins, o)), theirs)
      ensures ok ==> forall p :: Get(cacheCoins, p) == if p == o then MergeOne(old(Get(cacheCoins, o)), theirs) else old(Get(cacheCoins, p))
      ensures ok ==> cachedCoinsUsage - SumUsage(cacheCoins) == old(cachedCoinsUsage - SumUsage(cacheCoins))
    {
      hide SumUsage;
      if base != null { base.ReprIsLow(); }
      ok := true;
      if theirs.isDirty {
        if o !in cacheCoins {
          if !(theirs.isFresh && theirs.coin.IsSpent()) {
            SumUpdate(cacheCoins, o, Entry(theirs.coin, true, theirs.isFresh));
            cacheCoins := cacheCoins[o := Entry(theirs.coin, true, theirs.isFresh)];
            cachedCoinsUsage := cachedCoinsUsage + theirs.coin.Usage();
          }
        } else {
          var us := cacheCoins[o];
          if theirs.isFresh && !us.coin.IsSpent() {
            return false;
          }
          if us.isFresh && theirs.coin.IsSpent() {
            SumSplit(cacheCoins, o);
            cachedCoinsUsage := cachedCoinsUsage - us.coin.Usage();
            cacheCoins := cacheCoins - {o};
          } else {
            SumUpdate(cacheCoins, o, Entry(theirs.coin, true, us.isFresh));
            cachedCoinsUsage := cachedCoinsUsage - us.coin.Usage();
            cacheCoins := cacheCoins[o := Entry(theirs.coin, true, us.isFresh)];
            cachedCoinsUsage := cachedCoinsUsage + theirs.coin.Usage();
          }
        }
      }
    }

    /** Walks the child's map in an arbitrary order; false where the source throws. */
    method BatchWrite(mapCoins: map<OutPoint, Entry>) returns (ok: bool)
      requires Linked()
      modifies this
      ensures var r := Coins.BatchWrite(old(Abs()), mapCoins);
              ok == r.Done? && (ok ==> Abs() == r.stack)
    {
      if base == null {
        WriteDb(mapCoins);
        return true;
      }
      base.ReprIsLow();
      var todo := mapCoins.Keys;
      ghost var ours, usage, below := cacheCoins, cachedCoinsUsage, base.Abs();
      while todo != {}
        invariant todo <= mapCoins.Keys
        invariant base.Abs() == below
        invariant cachedCoinsUsage == usage - SumUsage(ours) + SumUsage(cacheCoins)
        invariant forall o :: o in mapCoins && o !in todo ==> !Misapplied(Get(ours, o), mapCoins[o])
        invariant forall o :: Get(cacheCoins, o) == if o in todo then Get(ours, o) else MergeAt(ours, mapCoins, o)
        decreases todo
      {
        var o :| o in todo;
        assert Get(cacheCoins, o) == Get(ours, o);
        var merged := MergeEntry(o, mapCoins[o]);
        if !merged {
          return false;
        }
        todo := todo - {o};
      }
      SameEntries(cacheCoins, Merged(ours, mapCoins), ours, mapCoins);
      assert old(Abs()) == Cache(ours, usage, below) && Abs() == Cache(cacheCoins, cachedCoinsUsage, below);
      ok := true;
    }

    /** The database's side of a batch write, which erases what is spent. */
    method WriteDb(mapCoins: map<OutPoint, Entry>)
      requires base == null
      modifies this
      ensures Abs() == Base(Stored(old(db), mapCoins))
    {
      var todo := mapCoins.Keys;
      while todo != {}
        invariant todo <= mapCoins.Keys
        invariant forall o :: o in db <==>
                              if o in mapCoins && o !in todo && mapCoins[o].isDirty then !mapCoins[o].coin.IsSpent()
                              else o in old(db)
        invariant forall o :: o in db ==>
                              db[o] == if o in mapCoins && o !in todo && mapCoins[o].isDirty then mapCoins[o].coin
                                       else old(db)[o]
        decreases todo
      {
        var o :| o in todo;
        if mapCoins[o].isDirty {
          if mapCoins[o].coin.IsSpent() {
            db := db - {o};
          } else {
            db := db[o := mapCoins[o].coin];
          }
        }
        todo := todo - {o};
      }
      assert db == Stored(old(db), mapCoins);
    }

    method Flush() returns (ok: bool)
      requires Linked() && base != null
      modifies Repr()
      ensures var r := Coins.Flush(old(Abs()));
              ok == r.Done? && (ok ==> Abs() == r.stack)
    {
      base.ReprIsLow();
      ok := base.BatchWrite(cacheCoins);
      ghost var below := base.Abs();
      if ok {
        cacheCoins := map[];
        cachedCoinsUsage := 0;
        assert base.Abs() == below;
      }
    }
  }

  lemma SameEntries(a: map<OutPoint, Entry>, b: map<OutPoint, Entry>, ours: map<OutPoint, Entry>, theirs: map<OutPoint, Entry>)
    requires forall o :: Get(a, o) == MergeAt(ours, theirs, o)
    requires b == Merged(ours, theirs)
    ensures a == b
  {
    forall o ensures (o in a <==> o in b) && (o in a ==> a[o] == b[o]) {
      assert Get(a, o) == MergeAt(ours, theirs, o);
    }
  }
}
