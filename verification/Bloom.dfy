/**
 The rolling Bloom filter (src/bloom.h, src/bloom.cpp): two bits for each position say in which of
 three generations it was last set, and starting a generation wipes the one that had its number.
 */
module Bloom {

  type Key = seq<bv8>

  // ---------------------------------------------------------------- bits of a word

  function And(x: bv64, y: bv64): bv64 { x & y }

  function Or(x: bv64, y: bv64): bv64 { x | y }

  function Xor(x: bv64, y: bv64): bv64 { x ^ y }

  function Not(x: bv64): bv64 { !x }

  /** All ones for a set bit, all zeros for a clear one. */
  function Spread(on: bool): bv64 { 0 - (if on then 1 else 0) }

  function ShiftIn(on: bool, b: bv64): bv64
    requires b < 64
  {
    (if on then 1 else 0) << b
  }

  predicate Bit(x: bv64, b: bv64)
    requires b < 64
  {
    (x >> b) & 1 == 1
  }

  lemma BitAnd(x: bv64, y: bv64, b: bv64)
    requires b < 64
    ensures Bit(And(x, y), b) <==> Bit(x, b) && Bit(y, b)
  {
  }

  lemma BitOr(x: bv64, y: bv64, b: bv64)
    requires b < 64
    ensures Bit(Or(x, y), b) <==> Bit(x, b) || Bit(y, b)
  {
    OrIs(x, y);
    hide Bit, And, Or, Not;
    BitNot(And(Not(x), Not(y)), b);
    BitAnd(Not(x), Not(y), b);
    BitNot(x, b);
    BitNot(y, b);
  }

  lemma OrIs(x: bv64, y: bv64)
    ensures Or(x, y) == Not(And(Not(x), Not(y)))
  {
  }

  lemma BitXor(x: bv64, y: bv64, b: bv64)
    requires b < 64
    ensures Bit(Xor(x, y), b) <==> Bit(x, b) != Bit(y, b)
  {
    XorIs(x, y);
    hide Bit, And, Or, Xor, Not;
    BitOr(And(x, Not(y)), And(Not(x), y), b);
    BitAnd(x, Not(y), b);
    BitAnd(Not(x), y, b);
    BitNot(x, b);
    BitNot(y, b);
  }

  lemma XorIs(x: bv64, y: bv64)
    ensures Xor(x, y) == Or(And(x, Not(y)), And(Not(x), y))
  {
  }

  lemma BitNot(x: bv64, b: bv64)
    requires b < 64
    ensures Bit(Not(x), b) <==> !Bit(x, b)
  {
  }

  lemma BitSpread(on: bool, b: bv64)
    requires b < 64
    ensures Bit(Spread(on), b) <==> on
  {
  }

  lemma BitZero(b: bv64)
    requires b < 64
    ensures !Bit(0, b)
  {
  }

  lemma BitShiftIn(on: bool, b: bv64, c: bv64)
    requires b < 64 && c < 64
    ensures Bit(ShiftIn(on, b), c) <==> on && b == c
  {
  }

  predicate Low(g: nat) { g % 2 == 1 }

  predicate High(g: nat) { g / 2 == 1 }

  /** The generation recorded at bit b of a pair of words; zero when unset. */
  function GenOf(p1: bv64, p2: bv64, b: bv64): (g: nat)
    requires b < 64
    ensures g <= 3
  {
    (if Bit(p1, b) then 1 else 0) + (if Bit(p2, b) then 2 else 0)
  }

  /** Writes one bit of a word. */
  function Put(x: bv64, b: bv64, on: bool): bv64
    requires b < 64
  {
    Or(And(x, Not(ShiftIn(true, b))), ShiftIn(on, b))
  }

  lemma PutBit(x: bv64, b: bv64, c: bv64, on: bool)
    requires b < 64 && c < 64
    ensures Bit(Put(x, b, on), c) <==> if c == b then on else Bit(x, c)
  {
    hide Bit, And, Or, Not, ShiftIn;
    BitOr(And(x, Not(ShiftIn(true, b))), ShiftIn(on, b), c);
    BitAnd(x, Not(ShiftIn(true, b)), c);
    BitNot(ShiftIn(true, b), c);
    BitShiftIn(true, b, c);
    BitShiftIn(on, b, c);
  }

  lemma PutGen(p1: bv64, p2: bv64, b: bv64, c: bv64, g: nat)
    requires b < 64 && c < 64 && 1 <= g <= 3
    ensures GenOf(Put(p1, b, Low(g)), Put(p2, b, High(g)), c) == if c == b then g else GenOf(p1, p2, c)
  {
    hide Bit, Put;
    PutBit(p1, b, c, Low(g));
    PutBit(p2, b, c, High(g));
  }

  /** Zero exactly at the bits whose generation is g. */
  function Mask(p1: bv64, p2: bv64, g: nat): bv64 {
    Or(Xor(p1, Spread(Low(g))), Xor(p2, Spread(High(g))))
  }

  lemma WipeGen(p1: bv64, p2: bv64, b: bv64, g: nat)
    requires b < 64 && 1 <= g <= 3
    ensures var m := Mask(p1, p2, g);
            GenOf(And(p1, m), And(p2, m), b) == if GenOf(p1, p2, b) == g then 0 else GenOf(p1, p2, b)
  {
    hide Bit, And, Or, Xor, Spread;
    var m := Mask(p1, p2, g);
    BitAnd(p1, m, b);
    BitAnd(p2, m, b);
    BitOr(Xor(p1, Spread(Low(g))), Xor(p2, Spread(High(g))), b);
    BitXor(p1, Spread(Low(g)), b);
    BitXor(p2, Spread(High(g)), b);
    BitSpread(Low(g), b);
    BitSpread(High(g), b);
  }

  // ---------------------------------------------------------------- positions

  datatype Slot = Slot(word: nat, bit: bv64)

  ghost predicate InRange(s: seq<bv64>, t: Slot) {
    2 * t.word + 1 < |s| && t.bit < 64
  }

  ghost function GenAt(s: seq<bv64>, t: Slot): nat
    requires InRange(s, t)
  {
    GenOf(s[2 * t.word], s[2 * t.word + 1], t.bit)
  }

  /** The position a 32-bit hash selects: its low six bits, and the rest modulo the number of words. */
  function SlotOf(h: bv32, len: nat): (t: Slot)
    requires len > 0 && len % 2 == 0
    ensures 2 * t.word + 1 < len && t.bit < 64
  {
    Slot(((h >> 6) as nat % len) / 2, (h & 0x3F) as bv64)
  }

  /** Exactly the positions of one generation were cleared. */
  ghost predicate Wiped(s: seq<bv64>, s': seq<bv64>, g: nat) {
    |s'| == |s| && forall t {:trigger GenAt(s', t)} :: InRange(s, t) ==>
      GenAt(s', t) == if GenAt(s, t) == g then 0 else GenAt(s, t)
  }

  /** Exactly one position was set to a generation. */
  ghost predicate Marked(s: seq<bv64>, s': seq<bv64>, t: Slot, g: nat)
    requires InRange(s, t)
  {
    |s'| == |s| && forall u {:trigger GenAt(s', u)} :: InRange(s, u) ==> GenAt(s', u) == if u == t then g else GenAt(s, u)
  }

  // ---------------------------------------------------------------- ages

  function Next(g: nat): nat { if g + 1 == 4 then 1 else g + 1 }

  /** How many generations ago a generation number was the current one. */
  function Age(current: nat, g: nat): nat {
    if g == current then 0 else if Next(g) == current then 1 else 2
  }

  lemma AgeAdvances(current: nat, g: nat)
    requires 1 <= current <= 3 && 1 <= g <= 3
    ensures g == Next(current) <==> Age(current, g) == 2
    ensures g != Next(current) ==> Age(Next(current), g) == Age(current, g) + 1
    ensures 1 <= Next(current) <= 3
  {
  }

  /** The age of the key inserted `back` inserts ago. */
  function KeyAge(back: nat, thisGen: nat, perGen: nat): nat {
    if back <= thisGen then 0 else if back <= thisGen + perGen then 1 else 2
  }

  // ---------------------------------------------------------------- what the filter remembers

  /** What stays fixed between resets. */
  datatype Setup = Setup(hash: (nat, bv32, Key) -> bv32, tweak: bv32, nHashFuncs: nat, perGen: nat, len: nat)

  predicate SetupOk(c: Setup) {
    c.perGen > 0 && c.len > 0 && c.len % 2 == 0
  }

  function SlotFor(c: Setup, n: nat, key: Key): (t: Slot)
    requires SetupOk(c)
    ensures 2 * t.word + 1 < c.len && t.bit < 64
  {
    SlotOf(c.hash(n, c.tweak, key), c.len)
  }

  /** Every position of the key is set, in a generation no older than `age`. */
  ghost predicate Holds(c: Setup, s: seq<bv64>, current: nat, key: Key, age: nat)
    requires SetupOk(c) && |s| == c.len
  {
    forall n: nat {:trigger SlotFor(c, n, key)} :: n < c.nHashFuncs ==> HeldAt(s, current, SlotFor(c, n, key), age)
  }

  ghost predicate HeldAt(s: seq<bv64>, current: nat, t: Slot, age: nat)
    requires InRange(s, t)
  {
    GenAt(s, t) != 0 && Age(current, GenAt(s, t)) <= age
  }

  /** The keys of the current generation and of the two before it are held. */
  ghost predicate Remembers(c: Setup, s: seq<bv64>, current: nat, entries: nat, history: seq<Key>)
    requires SetupOk(c) && |s| == c.len
  {
    forall i {:trigger history[i]} :: 0 <= i < |history| && |history| - i <= entries + 2 * c.perGen ==>
      Holds(c, s, current, history[i], KeyAge(|history| - i, entries, c.perGen))
  }

  /** Wiping the oldest generation when a full one ends hits only keys more than two generations back. */
  lemma RollKeeps(c: Setup, s: seq<bv64>, s': seq<bv64>, current: nat, history: seq<Key>)
    requires SetupOk(c) && |s| == c.len && 1 <= current <= 3
    requires Remembers(c, s, current, c.perGen, history) && Wiped(s, s', Next(current))
    ensures Remembers(c, s', Next(current), 0, history)
  {
    forall i {:trigger history[i]} | 0 <= i < |history| && |history| - i <= 2 * c.perGen
      ensures Holds(c, s', Next(current), history[i], KeyAge(|history| - i, 0, c.perGen))
    {
      hide GenAt;
      var key, back := history[i], |history| - i;
      forall n: nat {:trigger SlotFor(c, n, key)} | n < c.nHashFuncs
        ensures HeldAt(s', Next(current), SlotFor(c, n, key), KeyAge(back, 0, c.perGen))
      {
        var t := SlotFor(c, n, key);
        assert HeldAt(s, current, t, KeyAge(back, c.perGen, c.perGen));
        GenBound(s, t);
        AgeAdvances(current, GenAt(s, t));
      }
    }
  }

  lemma GenBound(s: seq<bv64>, t: Slot)
    requires InRange(s, t)
    ensures GenAt(s, t) <= 3
  {
  }

  /** Marking a position in the current generation forgets nothing. */
  lemma MarkKeeps(c: Setup, s: seq<bv64>, s': seq<bv64>, t: Slot, current: nat, entries: nat, history: seq<Key>)
    requires SetupOk(c) && |s| == c.len && InRange(s, t) && 1 <= current <= 3
    requires Marked(s, s', t, current) && Remembers(c, s, current, entries, history)
    ensures Remembers(c, s', current, entries, history)
  {
    forall i {:trigger history[i]} | 0 <= i < |history| && |history| - i <= entries + 2 * c.perGen
      ensures Holds(c, s', current, history[i], KeyAge(|history| - i, entries, c.perGen))
    {
      hide GenAt;
      var key, age := history[i], KeyAge(|history| - i, entries, c.perGen);
      forall n: nat {:trigger SlotFor(c, n, key)} | n < c.nHashFuncs
        ensures HeldAt(s', current, SlotFor(c, n, key), age)
      {
        assert HeldAt(s, current, SlotFor(c, n, key), age);
      }
    }
  }

  ghost predicate MarkedUpTo(c: Setup, s: seq<bv64>, current: nat, key: Key, n: nat)
    requires SetupOk(c) && |s| == c.len
  {
    forall m: nat {:trigger SlotFor(c, m, key)} :: m < n ==> GenAt(s, SlotFor(c, m, key)) == current
  }

  lemma MarkedNext(c: Setup, s: seq<bv64>, s': seq<bv64>, current: nat, key: Key, n: nat)
    requires SetupOk(c) && |s| == c.len && MarkedUpTo(c, s, current, key, n) && Marked(s, s', SlotFor(c, n, key), current)
    ensures MarkedUpTo(c, s', current, key, n + 1)
  {
    hide GenAt;
    forall m: nat {:trigger SlotFor(c, m, key)} | m < n + 1
      ensures GenAt(s', SlotFor(c, m, key)) == current
    {
      assert InRange(s, SlotFor(c, m, key));
    }
  }

  /** A key marked in the current generation joins the history. */
  lemma InsertKeeps(c: Setup, s: seq<bv64>, current: nat, entries: nat, history: seq<Key>, key: Key)
    requires SetupOk(c) && |s| == c.len && 1 <= current <= 3
    requires Remembers(c, s, current, entries, history) && MarkedUpTo(c, s, current, key, c.nHashFuncs)
    ensures Remembers(c, s, current, entries + 1, history + [key])
  {
    var history' := history + [key];
    forall i {:trigger history'[i]} | 0 <= i < |history'| && |history'| - i <= entries + 1 + 2 * c.perGen
      ensures Holds(c, s, current, history'[i], KeyAge(|history'| - i, entries + 1, c.perGen))
    {
      if i < |history| {
        assert Holds(c, s, current, history[i], KeyAge(|history| - i, entries, c.perGen));
      }
    }
  }

  class RollingBloomFilter {
    const nEntriesPerGeneration: nat
    const nHashFuncs: nat
    const hash: (nat, bv32, Key) -> bv32
    const data: array<bv64>
    var nEntriesThisGeneration: nat
    var nGeneration: nat
    var nTweak: bv32

    // The keys inserted since the last reset.
    ghost var history: seq<Key>

    function Config(): Setup
      reads this
    {
      Setup(hash, nTweak, nHashFuncs, nEntriesPerGeneration, data.Length)
    }

    ghost predicate Shape()
      reads this
    {
      SetupOk(Config()) && nEntriesThisGeneration <= nEntriesPerGeneration && 1 <= nGeneration <= 3
    }

    ghost predicate Valid()
      reads this, data
    {
      Shape() && Remembers(Config(), data[..], nGeneration, nEntriesThisGeneration, history)
    }

    /** For nElements keys; the number of hash functions and of words follow from the wanted error rate. */
    constructor (nElements: nat, nHashFuncs: nat, pairs: nat, hash: (nat, bv32, Key) -> bv32, tweak: bv32)
      requires nElements >= 1 && pairs >= 1
      ensures Valid() && fresh(data) && history == []
      ensures nEntriesPerGeneration == (nElements + 1) / 2
    {
      this.nEntriesPerGeneration := (nElements + 1) / 2;
      this.nHashFuncs := nHashFuncs;
      this.hash := hash;
      data := new bv64[2 * pairs];
      nEntriesThisGeneration := 0;
      nGeneration := 1;
      nTweak := tweak;
      history := [];
      new;
      Reset(tweak);
    }

    method Reset(tweak: bv32)
      requires Shape()
      modifies this, data
      ensures Valid() && history == [] && nTweak == tweak
      ensures forall t {:trigger GenAt(data[..], t)} :: InRange(data[..], t) ==> GenAt(data[..], t) == 0
    {
      nTweak := tweak;
      nEntriesThisGeneration := 0;
      nGeneration := 1;
      history := [];
      for i := 0 to data.Length
        invariant forall j :: 0 <= j < i ==> data[j] == 0
        modifies data
      {
        data[i] := 0;
      }
      ghost var s := data[..];
      forall t {:trigger GenAt(s, t)} | InRange(s, t)
        ensures GenAt(s, t) == 0
      {
        BitZero(t.bit);
      }
    }

    /** Clears the positions whose generation number is about to be used again. */
    method Wipe()
      requires Shape()
      modifies data
      ensures Wiped(old(data[..]), data[..], nGeneration)
    {
      hide And, Bit, Mask;
      ghost var s := data[..];
      var p := 0;
      while p < data.Length
        invariant 0 <= p <= data.Length && p % 2 == 0
        invariant forall j :: p <= j < data.Length ==> data[j] == s[j]
        invariant WordsWiped(s, data[..], p, nGeneration)
      {
        ghost var t := data[..];
        var p1, p2 := data[p], data[p + 1];
        var mask := Mask(p1, p2, nGeneration);
        data[p] := And(p1, mask);
        data[p + 1] := And(p2, mask);
        WordsNext(s, t, data[..], p, nGeneration);
        p := p + 2;
      }
      WordsAll(s, data[..], nGeneration);
    }

    method Mark(t: Slot)
      requires Shape() && 2 * t.word + 1 < data.Length && t.bit < 64
      modifies data
      ensures Marked(old(data[..]), data[..], t, nGeneration)
    {
      hide Put, Bit;
      ghost var s := data[..];
      data[2 * t.word] := Put(data[2 * t.word], t.bit, Low(nGeneration));
      data[2 * t.word + 1] := Put(data[2 * t.word + 1], t.bit, High(nGeneration));
      ghost var s' := data[..];
      forall u {:trigger GenAt(s', u)} | InRange(s, u)
        ensures GenAt(s', u) == if u == t then nGeneration else GenAt(s, u)
      {
        PutGen(s[2 * t.word], s[2 * t.word + 1], t.bit, u.bit, nGeneration);
      }
    }

    /** Inserts a key, first starting the next generation when the current one is full. */
    method Insert(key: Key)
      requires Valid()
      modifies this, data
      ensures Valid() && history == old(history) + [key] && nEntriesThisGeneration >= 1 && nTweak == old(nTweak)
    {
      hide Remembers, Wiped, Marked, MarkedUpTo;
      if nEntriesThisGeneration == nEntriesPerGeneration {
        ghost var s, current := data[..], nGeneration;
        nEntriesThisGeneration := 0;
        nGeneration := nGeneration + 1;
        if nGeneration == 4 {
          nGeneration := 1;
        }
        Wipe();
        RollKeeps(Config(), s, data[..], current, history);
      }
      NothingMarked(Config(), data[..], nGeneration, key);
      var n := 0;
      while n < nHashFuncs
        invariant 0 <= n <= nHashFuncs && Valid() && MarkedUpTo(Config(), data[..], nGeneration, key, n)
        modifies data
      {
        ghost var s := data[..];
        var t := SlotFor(Config(), n, key);
        Mark(t);
        MarkKeeps(Config(), s, data[..], t, nGeneration, nEntriesThisGeneration, history);
        MarkedNext(Config(), s, data[..], nGeneration, key, n);
        n := n + 1;
      }
      InsertKeeps(Config(), data[..], nGeneration, nEntriesThisGeneration, history, key);
      nEntriesThisGeneration := nEntriesThisGeneration + 1;
      history := history + [key];
    }

    /**
     Whether every position of the key is set. It is for each of the last two generations' worth of
     keys and those of the current one, whatever the hash function.
     */
    method Contains(key: Key) returns (r: bool)
      requires Valid()
      ensures r <==> forall n: nat {:trigger SlotFor(Config(), n, key)} :: n < nHashFuncs ==> GenAt(data[..], SlotFor(Config(), n, key)) != 0
      ensures (exists i {:trigger history[i]} :: 0 <= i < |history| && history[i] == key &&
                 |history| - i <= nEntriesThisGeneration + 2 * nEntriesPerGeneration) ==> r
    {
      var n := 0;
      while n < nHashFuncs
        invariant 0 <= n <= nHashFuncs
        invariant forall m: nat {:trigger SlotFor(Config(), m, key)} :: m < n ==> GenAt(data[..], SlotFor(Config(), m, key)) != 0
      {
        var t := SlotFor(Config(), n, key);
        var p1, p2 := data[2 * t.word], data[2 * t.word + 1];
        BitOr(p1, p2, t.bit);
        assert GenAt(data[..], t) == GenOf(p1, p2, t.bit);
        if !Bit(Or(p1, p2), t.bit) {
          return false;
        }
        n := n + 1;
      }
      return true;
    }
  }

  lemma NothingMarked(c: Setup, s: seq<bv64>, current: nat, key: Key)
    requires SetupOk(c) && |s| == c.len
    ensures MarkedUpTo(c, s, current, key, 0)
  {
  }

  /** The j-th pair of words was masked. */
  ghost predicate PairWiped(s: seq<bv64>, s': seq<bv64>, j: nat, g: nat)
    requires |s| == |s'| && 2 * j + 1 < |s|
  {
    && s'[2 * j] == And(s[2 * j], Mask(s[2 * j], s[2 * j + 1], g))
    && s'[2 * j + 1] == And(s[2 * j + 1], Mask(s[2 * j], s[2 * j + 1], g))
  }

  /** The pairs of words below p were masked. */
  ghost predicate WordsWiped(s: seq<bv64>, s': seq<bv64>, p: nat, g: nat) {
    && |s| == |s'| && p <= |s| && |s| % 2 == 0
    && forall j: nat :: 2 * j < p && 2 * j + 1 < |s| ==> PairWiped(s, s', j, g)
  }

  lemma PairStays(s: seq<bv64>, t: seq<bv64>, t': seq<bv64>, j: nat, g: nat)
    requires |s| == |t| == |t'| && 2 * j + 1 < |s| && PairWiped(s, t, j, g)
    requires t'[2 * j] == t[2 * j] && t'[2 * j + 1] == t[2 * j + 1]
    ensures PairWiped(s, t', j, g)
  {
    hide And, Mask;
  }

  lemma WordsNext(s: seq<bv64>, t: seq<bv64>, t': seq<bv64>, p: nat, g: nat)
    requires WordsWiped(s, t, p, g) && p % 2 == 0 && p + 1 < |s| && t[p] == s[p] && t[p + 1] == s[p + 1]
    requires t' == t[p := And(s[p], Mask(s[p], s[p + 1], g))][p + 1 := And(s[p + 1], Mask(s[p], s[p + 1], g))]
    ensures WordsWiped(s, t', p + 2, g)
  {
    PairDone(s, t', p, g);
    hide And, Mask, PairWiped;
    forall j: nat | 2 * j < p + 2 && 2 * j + 1 < |s| ensures PairWiped(s, t', j, g) {
      if j < p / 2 {
        PairStays(s, t, t', j, g);
      } else {
        assert j == p / 2;
      }
    }
  }

  lemma PairDone(s: seq<bv64>, t': seq<bv64>, p: nat, g: nat)
    requires |s| == |t'| && p % 2 == 0 && p + 1 < |s|
    requires t'[p] == And(s[p], Mask(s[p], s[p + 1], g)) && t'[p + 1] == And(s[p + 1], Mask(s[p], s[p + 1], g))
    ensures PairWiped(s, t', p / 2, g)
  {
    hide And, Mask;
    assert 2 * (p / 2) == p;
  }

  lemma WordsAll(s: seq<bv64>, s': seq<bv64>, g: nat)
    requires WordsWiped(s, s', |s|, g) && 1 <= g <= 3
    ensures Wiped(s, s', g)
  {
    hide And, Mask, Bit;
    forall t {:trigger GenAt(s', t)} | InRange(s, t)
      ensures GenAt(s', t) == if GenAt(s, t) == g then 0 else GenAt(s, t)
    {
      var j := t.word;
      assert PairWiped(s, s', j, g);
      WipeGen(s[2 * j], s[2 * j + 1], t.bit, g);
    }
  }
}
