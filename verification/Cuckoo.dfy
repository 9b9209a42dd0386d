/**
 The signature cache (src/cuckoocache.h): a cuckoo table with eight locations for each element, a
 garbage flag for each slot, and two epochs.
 */
module Cuckoo {
  import opened Basics

  /** Elements are uint256 values; the default one is never inserted. */
  type Element = nat
  const DEFAULT: Element := 0
  const TWO32: nat := 0x1_0000_0000

  // ---------------------------------------------------------------- locations

  type HashFn = (nat, Element) -> nat

  predicate HashOk(hash: HashFn, k: nat, e: Element) { hash(k, e) < TWO32 }

  /** A 32-bit hash read as a fraction of the table size. */
  function Location(h: nat, size: nat): (r: nat)
    requires h < TWO32 && size > 0
    ensures r < size
  {
    ScaleDown(h, size);
    (h * size) / TWO32
  }

  lemma ScaleDown(h: nat, size: nat)
    requires h < TWO32 && size > 0
    ensures 0 <= (h * size) / TWO32 < size
  {
    Monotone(h, TWO32 - 1, size);
  }

  lemma Monotone(a: nat, b: nat, m: nat)
    requires a <= b
    ensures 0 <= a * m <= b * m
  {
  }

  type Hashes = locs: seq<nat> | |locs| == 8 witness [0, 0, 0, 0, 0, 0, 0, 0]

  ghost predicate AllHashesOk(hash: HashFn) {
    forall k, e :: HashOk(hash, k, e)
  }

  function ComputeHashes(hash: HashFn, size: nat, e: Element): (locs: Hashes)
    requires AllHashesOk(hash) && size > 0
    ensures forall k :: 0 <= k < 8 ==> locs[k] < size
  {
    [LocationOf(hash, size, 0, e), LocationOf(hash, size, 1, e), LocationOf(hash, size, 2, e), LocationOf(hash, size, 3, e),
     LocationOf(hash, size, 4, e), LocationOf(hash, size, 5, e), LocationOf(hash, size, 6, e), LocationOf(hash, size, 7, e)]
  }

  function LocationOf(hash: HashFn, size: nat, k: nat, e: Element): (r: nat)
    requires AllHashesOk(hash) && size > 0
    ensures r < size
  {
    assert HashOk(hash, k, e);
    Location(hash(k, e), size)
  }

  // ---------------------------------------------------------------- the table

  datatype Table = Table(slots: seq<Element>, garbage: seq<bool>, recent: seq<bool>)

  datatype Config = Config(hash: HashFn, size: nat, epochSize: nat)

  ghost predicate ConfigOk(c: Config) {
    AllHashesOk(c.hash) && c.size > 0
  }

  ghost predicate IsLocation(c: Config, e: Element, i: nat)
    requires ConfigOk(c)
  {
    i in ComputeHashes(c.hash, c.size, e)
  }

  /** Every stored element is at one of its own locations, once; live slots hold real elements. */
  ghost predicate TableOk(c: Config, t: Table)
    requires ConfigOk(c)
  {
    && |t.slots| == |t.garbage| == |t.recent| == c.size
    && (forall i {:trigger t.slots[i]} :: 0 <= i < c.size ==> t.slots[i] != DEFAULT ==> IsLocation(c, t.slots[i], i))
    && (forall i {:trigger t.slots[i]} :: 0 <= i < c.size ==> t.slots[i] == DEFAULT ==> t.garbage[i])
    && Unique(t)
  }

  ghost predicate Unique(t: Table) {
    forall i, j :: 0 <= i < j < |t.slots| ==> t.slots[i] == t.slots[j] ==> t.slots[i] == DEFAULT
  }

  ghost predicate LiveAt(t: Table, i: int) {
    0 <= i < |t.slots| && i < |t.garbage| && !t.garbage[i]
  }

  /** The elements that may not be overwritten. */
  ghost function Live(t: Table): set<Element> {
    set i | 0 <= i < |t.slots| && LiveAt(t, i) :: t.slots[i]
  }

  /** Live slots of the current epoch among the first n. */
  function Recents(garbage: seq<bool>, recent: seq<bool>, n: nat): nat
    requires n <= |garbage| && n <= |recent|
  {
    if n == 0 then 0 else Recents(garbage, recent, n - 1) + Count(recent[n - 1] && !garbage[n - 1])
  }

  ghost function RecentLive(t: Table): nat
    requires |t.garbage| == |t.recent|
  {
    Recents(t.garbage, t.recent, |t.garbage|)
  }

  lemma {:induction false} RecentsFrame(g: seq<bool>, r: seq<bool>, g': seq<bool>, r': seq<bool>, n: nat)
    requires n <= |g| && n <= |r| && n <= |g'| && n <= |r'|
    requires forall j :: 0 <= j < n ==> g[j] == g'[j] && r[j] == r'[j]
    ensures Recents(g, r, n) == Recents(g', r', n)
  {
    if n > 0 { RecentsFrame(g, r, g', r', n - 1); }
  }

  /** Writing the flags of one slot changes the count by that slot. */
  lemma {:induction false} RecentsSet(g: seq<bool>, r: seq<bool>, i: nat, gi: bool, ri: bool, n: nat)
    requires n <= |g| == |r| && i < n
    ensures Recents(g[i := gi], r[i := ri], n) == Recents(g, r, n) - Count(r[i] && !g[i]) + Count(ri && !gi)
  {
    if i == n - 1 {
      RecentsFrame(g, r, g[i := gi], r[i := ri], n - 1);
    } else {
      RecentsSet(g, r, i, gi, ri, n - 1);
    }
  }

  lemma {:induction false} RecentsNone(g: seq<bool>, r: seq<bool>, n: nat)
    requires n <= |g| && n <= |r| && forall j :: 0 <= j < n ==> !r[j]
    ensures Recents(g, r, n) == 0
  {
    if n > 0 { RecentsNone(g, r, n - 1); }
  }

  // ---------------------------------------------------------------- single writes

  /** Storing an element that is nowhere in the table over garbage. */
  function Stored(t: Table, i: nat, e: Element, recent: bool): Table
    requires i < |t.slots| && i < |t.garbage| && i < |t.recent|
  {
    Table(t.slots[i := e], t.garbage[i := false], t.recent[i := recent])
  }

  lemma StoredOk(c: Config, t: Table, i: nat, e: Element, recent: bool)
    requires ConfigOk(c) && TableOk(c, t) && i < c.size && e != DEFAULT && IsLocation(c, e, i)
    requires e !in t.slots
    ensures TableOk(c, Stored(t, i, e, recent))
    ensures forall x :: x in Stored(t, i, e, recent).slots ==> x == e || x in t.slots
  {
  }

  lemma StoredLive(c: Config, t: Table, i: nat, e: Element, recent: bool)
    requires ConfigOk(c) && TableOk(c, t) && i < c.size
    ensures var t' := Stored(t, i, e, recent);
            if t.garbage[i] then Live(t') == Live(t) + {e} else Live(t') + {t.slots[i]} == Live(t) + {e}
  {
    var t' := Stored(t, i, e, recent);
    forall x | x in Live(t) && x != t.slots[i]
      ensures x in Live(t')
    {
      var j :| 0 <= j < |t.slots| && LiveAt(t, j) && t.slots[j] == x;
      assert LiveAt(t', j) && t'.slots[j] == x;
    }
    assert LiveAt(t', i) && t'.slots[i] == e;
    if !t.garbage[i] {
      assert LiveAt(t, i) && t.slots[i] in Live(t);
    } else {
      GarbageNotLive(c, t, i);
    }
    forall x | x in Live(t') && x != e
      ensures x in Live(t)
    {
      var j :| 0 <= j < |t'.slots| && LiveAt(t', j) && t'.slots[j] == x;
      assert LiveAt(t, j) && t.slots[j] == x;
    }
  }

  /** A garbage slot's element is not live anywhere else. */
  lemma GarbageNotLive(c: Config, t: Table, i: nat)
    requires ConfigOk(c) && TableOk(c, t) && i < c.size && t.garbage[i]
    ensures t.slots[i] !in Live(t)
  {
    if t.slots[i] in Live(t) {
      var j :| 0 <= j < |t.slots| && LiveAt(t, j) && t.slots[j] == t.slots[i];
      assert false;
    }
  }

  lemma StoredRecents(c: Config, t: Table, i: nat, e: Element, recent: bool)
    requires ConfigOk(c) && TableOk(c, t) && i < c.size
    ensures RecentLive(Stored(t, i, e, recent)) ==
            RecentLive(t) - Count(t.recent[i] && !t.garbage[i]) + Count(recent)
  {
    RecentsSet(t.garbage, t.recent, i, false, recent, c.size);
  }

  /** Under the invariant an element is in the table exactly when one of its locations has it. */
  lemma FoundAtLocations(c: Config, t: Table, e: Element)
    requires ConfigOk(c) && TableOk(c, t) && e != DEFAULT
    requires forall k :: 0 <= k < 8 ==> t.slots[ComputeHashes(c.hash, c.size, e)[k]] != e
    ensures e !in t.slots
  {
    forall i | 0 <= i < |t.slots|
      ensures t.slots[i] != e
    {
    }
  }

  // ---------------------------------------------------------------- epochs

  /** All of the old epoch becomes garbage and the current epoch becomes the old one. */
  ghost predicate Aged(t: Table, t': Table) {
    && |t.garbage| == |t.recent| == |t.slots|
    && t'.slots == t.slots && |t'.garbage| == |t.garbage| && |t'.recent| == |t.recent|
    && (forall i :: 0 <= i < |t.recent| ==> !t'.recent[i])
    && (forall i :: 0 <= i < |t.garbage| ==> t'.garbage[i] == (t.garbage[i] || !t.recent[i]))
  }

  /** How far the current epoch may outgrow its size before the next scan. */
  function Slack(epochSize: nat): nat { Max(1, epochSize / 16) }

  lemma AgedOk(c: Config, t: Table, t': Table)
    requires ConfigOk(c) && TableOk(c, t) && Aged(t, t')
    ensures TableOk(c, t') && Live(t') <= Live(t) && RecentLive(t') == 0
  {
    RecentsNone(t'.garbage, t'.recent, |t'.garbage|);
    forall x | x in Live(t')
      ensures x in Live(t)
    {
      var j :| 0 <= j < |t'.slots| && LiveAt(t', j) && t'.slots[j] == x;
      assert LiveAt(t, j) && t.slots[j] == x;
    }
  }

  /** 45 percent of the slots, from a product in 32 bits. */
  function EpochSize(size: nat): nat { Max(1, 45 * size % TWO32 / 100) }

  /** The product wraps around exactly beyond 95443717 slots, and the epoch is then too short. */
  lemma EpochSizeIff(size: nat)
    requires 2 <= size < TWO32
    ensures EpochSize(size) == Max(1, 45 * size / 100) <==> size <= 95443717
    ensures size > 95443717 ==> EpochSize(size) < 45 * size / 100
    ensures 1 <= EpochSize(size) <= size
  {
    var p := 45 * size;
    if p < TWO32 {
      assert p % TWO32 == p;
    } else {
      assert p % TWO32 <= p - TWO32;
      assert (p - TWO32) / 100 < p / 100;
    }
  }

  class Cache {
    const hash: HashFn
    const size: nat
    const epochSize: nat
    const depthLimit: nat
    const table: array<Element>
    const collectionFlags: array<bool>
    const epochFlags: array<bool>
    var epochHeuristicCounter: nat

    ghost function Conf(): Config { Config(hash, size, epochSize) }

    ghost function Contents(): Table
      reads table, collectionFlags, epochFlags
    {
      Table(table[..], collectionFlags[..], epochFlags[..])
    }

    ghost predicate Shape() {
      && ConfigOk(Conf()) && table.Length == collectionFlags.Length == epochFlags.Length == size
      && collectionFlags != epochFlags && epochSize > 0
    }

    /** The table is in order, and what the current epoch can still grow by is accounted for. */
    ghost predicate Valid()
      reads this, table, collectionFlags, epochFlags
    {
      && Shape() && TableOk(Conf(), Contents())
      && RecentLive(Contents()) + epochHeuristicCounter <= epochSize + Slack(epochSize)
    }

    /**
     setup: at least two slots, all of them garbage.  The epoch is 45 percent of the slots, unless
     the 32-bit product wraps around.
     */
    constructor (hash: HashFn, newSize: nat, depthLimit: nat)
      requires AllHashesOk(hash) && newSize < TWO32
      ensures Valid() && size == Max(2, newSize) && this.depthLimit == depthLimit
      ensures fresh(table) && fresh(collectionFlags) && fresh(epochFlags)
      ensures Live(Contents()) == {} && epochSize == EpochSize(size)
      ensures epochSize == Max(1, 45 * size / 100) <==> size <= 95443717
      ensures epochSize <= size
    {
      hide EpochSize;
      var n := Max(2, newSize);
      this.hash := hash;
      this.depthLimit := depthLimit;
      size := n;
      epochSize := EpochSize(n);
      table := new Element[n](_ => DEFAULT);
      collectionFlags := new bool[n](_ => true);
      epochFlags := new bool[n](_ => false);
      epochHeuristicCounter := EpochSize(n);
      new;
      EpochSizeIff(n);
      RecentsNone(collectionFlags[..], epochFlags[..], n);
    }

    /** Counts the live slots of the current epoch. */
    method CountRecent() returns (n: nat)
      requires Shape()
      ensures n == RecentLive(Contents())
    {
      n := 0;
      var i := 0;
      while i < size
        invariant 0 <= i <= size && n == Recents(collectionFlags[..], epochFlags[..], i)
      {
        n := n + Count(epochFlags[i] && !collectionFlags[i]);
        i := i + 1;
      }
    }

    method AgeAll()
      requires Shape()
      modifies collectionFlags, epochFlags
      ensures Aged(old(Contents()), Contents())
    {
      var i := 0;
      while i < size
        invariant 0 <= i <= size
        invariant forall j :: i <= j < size ==> collectionFlags[j] == old(collectionFlags[j]) && epochFlags[j] == old(epochFlags[j])
        invariant forall j :: 0 <= j < i ==> !epochFlags[j] && collectionFlags[j] == (old(collectionFlags[j]) || !old(epochFlags[j]))
      {
        if epochFlags[i] {
          epochFlags[i] := false;
        } else {
          collectionFlags[i] := true;
        }
        i := i + 1;
      }
    }

    /** Before each insert: leaves room for one more recent element within the bound. */
    method EpochCheck()
      requires Valid()
      modifies this, collectionFlags, epochFlags
      ensures Shape() && TableOk(Conf(), Contents())
      ensures RecentLive(Contents()) + 1 + epochHeuristicCounter <= epochSize + Slack(epochSize)
      ensures Contents() == old(Contents()) || Aged(old(Contents()), Contents())
      ensures Contents() != old(Contents()) ==> old(RecentLive(Contents())) >= epochSize
      ensures table[..] == old(table[..])
    {
      if epochHeuristicCounter != 0 {
        epochHeuristicCounter := epochHeuristicCounter - 1;
        return;
      }
      ghost var before := Contents();
      var unused := CountRecent();
      if unused >= epochSize {
        AgeAll();
        AgedOk(Conf(), before, Contents());
        epochHeuristicCounter := epochSize;
      } else {
        epochHeuristicCounter := Max(1, Max(epochSize / 16, epochSize - unused));
      }
    }

    /** The first of the locations that holds the element. */
    method Find(locs: Hashes, e: Element) returns (k: nat)
      requires Shape() && forall j :: 0 <= j < 8 ==> locs[j] < size
      ensures k <= 8 && (k < 8 ==> table[locs[k]] == e) && forall j :: 0 <= j < k ==> table[locs[j]] != e
    {
      k := 0;
      while k < 8
        invariant 0 <= k <= 8 && forall j :: 0 <= j < k ==> table[locs[j]] != e
      {
        if table[locs[k]] == e {
          return;
        }
        k := k + 1;
      }
    }

    /** The first of the locations that may be overwritten. */
    method FindGarbage(locs: Hashes) returns (k: nat)
      requires Shape() && forall j :: 0 <= j < 8 ==> locs[j] < size
      ensures k <= 8 && (k < 8 ==> collectionFlags[locs[k]]) && forall j :: 0 <= j < k ==> !collectionFlags[locs[j]]
    {
      k := 0;
      while k < 8
        invariant 0 <= k <= 8 && forall j :: 0 <= j < k ==> !collectionFlags[locs[j]]
      {
        if collectionFlags[locs[k]] {
          return;
        }
        k := k + 1;
      }
    }

    /** Writes a slot and makes it live. */
    method Store(i: nat, e: Element, recent: bool)
      requires Shape() && i < size
      modifies table, collectionFlags, epochFlags
      ensures Contents() == Stored(old(Contents()), i, e, recent)
    {
      table[i] := e;
      collectionFlags[i] := false;
      epochFlags[i] := recent;
    }

    /**
     Inserts an element. Apart from what aging an epoch gives up, the live elements afterwards are those
     before plus the new one, less at most the one that found no place when the depth ran out.
     */
    method Insert(e0: Element) returns (ghost kept: Table, ghost dropped: Option<Element>)
      requires Valid() && e0 != DEFAULT
      modifies this, table, collectionFlags, epochFlags
      ensures Valid()
      ensures kept == old(Contents()) || Aged(old(Contents()), kept)
      ensures match dropped
              case None => Live(Contents()) == Live(kept) + {e0}
              case Some(x) => x in Live(kept) + {e0} && Live(Contents()) == Live(kept) + {e0} - {x}
      ensures e0 in old(table[..]) ==> dropped == None
    {
      EpochCheck();
      kept, dropped := Contents(), None;
      var locs := ComputeHashes(hash, size, e0);
      var found := Find(locs, e0);
      if found < 8 {
        Keep(locs[found], e0);
        return;
      }
      FoundAtLocations(Conf(), Contents(), e0);
      dropped := Place(e0);
    }

    /** An element already in the table is kept where it is. */
    method Keep(i: nat, e: Element)
      requires Shape() && TableOk(Conf(), Contents()) && i < size && table[i] == e != DEFAULT
      modifies collectionFlags, epochFlags
      ensures TableOk(Conf(), Contents()) && Live(Contents()) == Live(old(Contents())) + {e}
      ensures RecentLive(Contents()) <= RecentLive(old(Contents())) + 1
    {
      ghost var t := Contents();
      StoredLive(Conf(), t, i, e, true);
      StoredRecents(Conf(), t, i, e, true);
      collectionFlags[i] := false;
      epochFlags[i] := true;
      assert t.slots[i := e] == t.slots;
      assert Contents() == Stored(t, i, e, true);
      if !t.garbage[i] { assert LiveAt(t, i); assert LiveAt(Contents(), i); }
    }

    /** The cuckoo loop: put the element in hand on garbage, or swap it with a live one and go on with that. */
    method Place(e0: Element) returns (ghost dropped: Option<Element>)
      requires Shape() && TableOk(Conf(), Contents()) && e0 != DEFAULT && e0 !in table[..]
      modifies table, collectionFlags, epochFlags
      ensures TableOk(Conf(), Contents()) && RecentLive(Contents()) <= RecentLive(old(Contents())) + 1
      ensures match dropped
              case None => Live(Contents()) == Live(old(Contents())) + {e0}
              case Some(x) => x in Live(old(Contents())) + {e0} && Live(Contents()) == Live(old(Contents())) + {e0} - {x}
    {
      hide TableOk, Live, Recents, Stored, Unique;
      ghost var start := Contents();
      var e, lastEpoch := e0, true;
      var lastLoc: Option<nat> := None;
      var locs := ComputeHashes(hash, size, e);
      NotLive(Conf(), start, e);
      var depth := 0;
      while depth < depthLimit
        invariant 0 <= depth <= depthLimit
        invariant TableOk(Conf(), Contents()) && e != DEFAULT && e !in table[..] && locs == ComputeHashes(hash, size, e)
        invariant Live(Contents()) + {e} == Live(start) + {e0} && e !in Live(Contents())
        invariant RecentLive(Contents()) + Count(lastEpoch) <= RecentLive(start) + 1
      {
        ghost var t := Contents();
        var free := FindGarbage(locs);
        if free < 8 {
          PutOk(Conf(), t, locs[free], e, lastEpoch);
          Store(locs[free], e, lastEpoch);
          return None;
        }
        var next := locs[(1 + IndexOf(locs, lastLoc)) % 8];
        lastLoc := Some(next);
        SwapOk(Conf(), t, next, e, lastEpoch);
        var e', epoch' := table[next], epochFlags[next];
        assert !collectionFlags[next];
        Store(next, e, lastEpoch);
        e, lastEpoch := e', epoch';
        locs := ComputeHashes(hash, size, e);
        depth := depth + 1;
      }
      dropped := Some(e);
      assert Live(Contents()) == Live(Contents()) + {e} - {e};
    }

    /** Whether the element is in the table, live or not; erasing only lets its slot be reused. */
    method Contains(e: Element, erase: bool) returns (r: bool)
      requires Valid() && e != DEFAULT
      modifies collectionFlags
      ensures Valid() && (r <==> e in table[..])
      ensures Live(Contents()) == if erase then old(Live(Contents())) - {e} else old(Live(Contents()))
    {
      var locs := ComputeHashes(hash, size, e);
      var k := Find(locs, e);
      ghost var t := Contents();
      if k < 8 {
        assert table[..][locs[k]] == e;
        if erase {
          EraseOk(Conf(), t, locs[k]);
          collectionFlags[locs[k]] := true;
          assert Contents() == t.(garbage := t.garbage[locs[k] := true]);
        }
        return true;
      }
      FoundAtLocations(Conf(), t, e);
      NotLive(Conf(), t, e);
      return false;
    }
  }

  /** std::find in the eight locations; eight when absent. */
  function IndexOf(locs: Hashes, last: Option<nat>): (k: nat)
    ensures k <= 8
  {
    if last.None? then 8 else IndexFrom(locs, last.value, 0)
  }

  function IndexFrom(locs: Hashes, x: nat, k: nat): (r: nat)
    requires k <= 8
    ensures k <= r <= 8
    decreases 8 - k
  {
    if k == 8 || locs[k] == x then k else IndexFrom(locs, x, k + 1)
  }

  lemma NotLive(c: Config, t: Table, e: Element)
    requires ConfigOk(c) && TableOk(c, t) && e !in t.slots
    ensures e !in Live(t)
  {
  }

  lemma PutOk(c: Config, t: Table, i: nat, e: Element, recent: bool)
    requires ConfigOk(c) && TableOk(c, t) && i < c.size && e != DEFAULT && IsLocation(c, e, i) && e !in t.slots
    requires t.garbage[i]
    ensures var t' := Stored(t, i, e, recent);
            && TableOk(c, t') && Live(t') == Live(t) + {e} && RecentLive(t') == RecentLive(t) + Count(recent)
  {
    hide Live;
    StoredOk(c, t, i, e, recent);
    StoredLive(c, t, i, e, recent);
    StoredRecents(c, t, i, e, recent);
  }

  /** Swapping with a live element: it leaves the table, and is the only one to leave the live set. */
  lemma SwapOk(c: Config, t: Table, i: nat, e: Element, recent: bool)
    requires ConfigOk(c) && TableOk(c, t) && i < c.size && e != DEFAULT && IsLocation(c, e, i) && e !in t.slots
    requires !t.garbage[i]
    ensures var t', x := Stored(t, i, e, recent), t.slots[i];
            && TableOk(c, t') && x != DEFAULT && x !in t'.slots && x !in Live(t')
            && Live(t') + {x} == Live(t) + {e}
            && RecentLive(t') + Count(t.recent[i]) == RecentLive(t) + Count(recent)
  {
    StoredOk(c, t, i, e, recent);
    StoredLive(c, t, i, e, recent);
    StoredRecents(c, t, i, e, recent);
    NotLive(c, Stored(t, i, e, recent), t.slots[i]);
  }

  lemma EraseOk(c: Config, t: Table, i: nat)
    requires ConfigOk(c) && TableOk(c, t) && i < c.size && t.slots[i] != DEFAULT
    ensures var t' := t.(garbage := t.garbage[i := true]);
            TableOk(c, t') && Live(t') == Live(t) - {t.slots[i]} && RecentLive(t') <= RecentLive(t)
  {
    var t' := t.(garbage := t.garbage[i := true]);
    RecentsSet(t.garbage, t.recent, i, true, t.recent[i], c.size);
    assert t.recent[i := t.recent[i]] == t.recent;
    forall x | x in Live(t) && x != t.slots[i]
      ensures x in Live(t')
    {
      var j :| 0 <= j < |t.slots| && LiveAt(t, j) && t.slots[j] == x;
      assert LiveAt(t', j) && t'.slots[j] == x;
    }
    forall x | x in Live(t')
      ensures x in Live(t) && x != t.slots[i]
    {
      var j :| 0 <= j < |t'.slots| && LiveAt(t', j) && t'.slots[j] == x;
      assert LiveAt(t, j) && t.slots[j] == x;
    }
  }
}
