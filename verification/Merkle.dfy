/**
 Partial Merkle trees (src/merkleblock.h, src/merkleblock.cpp; BIP 37, sections
 "Constructing a partial merkle tree object" and "Parsing a partial merkle tree
 object").

 The hash of two children is a parameter `H`.  Where the source relies on it
 being collision free, that is the hypothesis `Injective(H)`.
 */
module Merkle {
  import opened Basics

  type Hash = nat

  const NullHash: Hash := 0
  const MAX_TRANSACTIONS: nat := 4000000 / 240

  ghost predicate Injective(H: (Hash, Hash) -> Hash) {
    forall a, b, c, d :: H(a, b) == H(c, d) ==> a == c && b == d
  }

  // ---------------------------------------------------------------- shape of the tree

  /** CalcTreeWidth: the number of nodes at a height. */
  function Width(n: nat, h: nat): nat { (n + Pow2(h) - 1) / Pow2(h) }

  /** The first leaf under a node. */
  function Lo(h: nat, pos: nat): nat { pos * Pow2(h) }

  lemma LoChildren(h: nat, pos: nat)
    requires h >= 1
    ensures Lo(h - 1, 2 * pos) == Lo(h, pos)
    ensures Lo(h - 1, 2 * pos + 1) == Lo(h, pos) + Pow2(h - 1)
    ensures Lo(h - 1, 2 * pos + 2) == Lo(h, pos + 1) == Lo(h, pos) + Pow2(h)
  {
    var q := Pow2(h - 1);
    assert Pow2(h) == 2 * q;
    assert (2 * pos) * q == pos * (2 * q);
    assert (2 * pos + 1) * q == pos * (2 * q) + q;
    assert (2 * pos + 2) * q == pos * (2 * q) + 2 * q == (pos + 1) * (2 * q);
  }

  /** A position is within the width exactly when its first leaf exists. */
  lemma WidthIff(n: nat, h: nat, pos: nat)
    ensures pos < Width(n, h) <==> Lo(h, pos) < n
  {
    DivBound(n + Pow2(h) - 1, Pow2(h), pos);
    assert (pos + 1) * Pow2(h) == pos * Pow2(h) + Pow2(h);
  }

  lemma DivBound(a: nat, d: nat, q: nat)
    requires d >= 1
    ensures q < a / d <==> (q + 1) * d <= a
  {
    var e := a / d;
    assert a == e * d + a % d;
    if q < e {
      assert e * d == (q + 1) * d + (e - q - 1) * d;
    } else {
      assert (q + 1) * d == e * d + (q + 1 - e) * d;
      assert (q + 1 - e) * d >= d by { assert (q + 1 - e) * d == d + (q - e) * d; }
    }
  }

  function CalcHash(H: (Hash, Hash) -> Hash, h: nat, pos: nat, txids: seq<Hash>): Hash
    requires Lo(h, pos) < |txids|
  {
    if h == 0 then txids[pos] else
      LoChildren(h, pos);
      var left := CalcHash(H, h - 1, 2 * pos, txids);
      var right := if Lo(h - 1, 2 * pos + 1) < |txids| then CalcHash(H, h - 1, 2 * pos + 1, txids) else left;
      H(left, right)
  }

  /** The loop `while (CalcTreeWidth(nHeight) > 1) nHeight++`. */
  function HeightFrom(n: nat, h: nat): (r: nat)
    ensures r >= h && n <= Pow2(r)
    decreases if n > Pow2(h) then n - Pow2(h) else 0
  {
    if n > Pow2(h) then HeightFrom(n, h + 1) else h
  }

  function Height(n: nat): nat { HeightFrom(n, 0) }

  lemma WidthOne(n: nat, h: nat)
    ensures Width(n, h) > 1 <==> n > Pow2(h)
  {
    WidthIff(n, h, 1);
    assert Lo(h, 1) == Pow2(h);
  }

  // ---------------------------------------------------------------- building

  /** Whether some transaction from lo up to hi is matched. */
  ghost predicate AnyMatch(vMatch: seq<bool>, lo: nat, hi: nat) {
    exists p :: lo <= p < hi && p < |vMatch| && vMatch[p]
  }

  /** The matched indexes from lo up to hi, in order. */
  function MatchedIndexes(vMatch: seq<bool>, lo: nat, hi: nat): seq<nat>
    decreases hi - lo
  {
    if hi <= lo then [] else
      MatchedIndexes(vMatch, lo, hi - 1) + if hi - 1 < |vMatch| && vMatch[hi - 1] then [hi - 1] else []
  }

  datatype Partial = Partial(bits: seq<bool>, hashes: seq<Hash>)

  /** What TraverseAndBuild appends for one node. */
  ghost function Build(H: (Hash, Hash) -> Hash, h: nat, pos: nat, txids: seq<Hash>, vMatch: seq<bool>): Partial
    requires Lo(h, pos) < |txids| == |vMatch|
  {
    var parent := AnyMatch(vMatch, Lo(h, pos), Lo(h, pos + 1));
    if h == 0 || !parent then Partial([parent], [CalcHash(H, h, pos, txids)])
    else
      LoChildren(h, pos);
      var l := Build(H, h - 1, 2 * pos, txids, vMatch);
      if Lo(h - 1, 2 * pos + 1) < |txids| then
        var r := Build(H, h - 1, 2 * pos + 1, txids, vMatch);
        Partial([parent] + l.bits + r.bits, l.hashes + r.hashes)
      else Partial([parent] + l.bits, l.hashes)
  }

  lemma {:induction false} MatchedSplit(vMatch: seq<bool>, lo: nat, mid: nat, hi: nat)
    requires lo <= mid <= hi
    ensures MatchedIndexes(vMatch, lo, hi) == MatchedIndexes(vMatch, lo, mid) + MatchedIndexes(vMatch, mid, hi)
    decreases hi
  {
    if mid < hi { MatchedSplit(vMatch, lo, mid, hi - 1); }
  }

  lemma {:induction false} MatchedNone(vMatch: seq<bool>, lo: nat, hi: nat)
    ensures MatchedIndexes(vMatch, lo, hi) == [] <==> !AnyMatch(vMatch, lo, hi)
    ensures |vMatch| <= lo ==> MatchedIndexes(vMatch, lo, hi) == []
    decreases hi
  {
    if hi > lo { MatchedNone(vMatch, lo, hi - 1); }
  }

  /** At most one hash per transaction below the node, and at least one bit per hash. */
  lemma {:induction false} BuildSize(H: (Hash, Hash) -> Hash, h: nat, pos: nat, txids: seq<Hash>, vMatch: seq<bool>)
    requires Lo(h, pos) < |txids| == |vMatch|
    ensures var b := Build(H, h, pos, txids, vMatch);
            && 1 <= |b.hashes| <= |b.bits|
            && |b.hashes| <= |txids| - Lo(h, pos) && |b.hashes| <= Pow2(h)
  {
    if h > 0 && AnyMatch(vMatch, Lo(h, pos), Lo(h, pos + 1)) {
      LoChildren(h, pos);
      BuildSize(H, h - 1, 2 * pos, txids, vMatch);
      if Lo(h - 1, 2 * pos + 1) < |txids| { BuildSize(H, h - 1, 2 * pos + 1, txids, vMatch); }
    }
  }

  function Matches(vMatch: seq<bool>, h: nat, pos: nat): nat {
    |MatchedIndexes(vMatch, Lo(h, pos), Lo(h, pos + 1))|
  }

  lemma MatchesOfChildren(vMatch: seq<bool>, h: nat, pos: nat)
    requires h >= 1
    ensures Matches(vMatch, h, pos) == Matches(vMatch, h - 1, 2 * pos) + Matches(vMatch, h - 1, 2 * pos + 1)
    ensures Lo(h - 1, 2 * pos + 1) >= |vMatch| ==> Matches(vMatch, h - 1, 2 * pos + 1) == 0
    ensures AnyMatch(vMatch, Lo(h, pos), Lo(h, pos + 1)) <==> Matches(vMatch, h, pos) >= 1
  {
    LoChildren(h, pos);
    MatchedSplit(vMatch, Lo(h, pos), Lo(h - 1, 2 * pos + 1), Lo(h, pos + 1));
    MatchedNone(vMatch, Lo(h, pos), Lo(h, pos + 1));
    MatchedNone(vMatch, Lo(h - 1, 2 * pos + 1), Lo(h, pos + 1));
  }

  lemma PathLengths(ml: nat, mr: nat, h: nat)
    requires h >= 1 && ml + mr >= 1
    ensures 2 + ml * (h - 1) + mr * (h - 1) <= 1 + (ml + mr) * h
    ensures 1 + ml * (h - 1) <= 1 + ml * h
  {
    assert (ml + mr) * h == ml * (h - 1) + mr * (h - 1) + (ml + mr);
    assert ml * h == ml * (h - 1) + ml;
  }

  /** Besides the root, only siblings of the paths to matched transactions are stored. */
  lemma {:induction false} BuildHashBound(H: (Hash, Hash) -> Hash, h: nat, pos: nat, txids: seq<Hash>, vMatch: seq<bool>)
    requires Lo(h, pos) < |txids| == |vMatch|
    ensures |Build(H, h, pos, txids, vMatch).hashes| <= 1 + Matches(vMatch, h, pos) * h
  {
    if h > 0 && AnyMatch(vMatch, Lo(h, pos), Lo(h, pos + 1)) {
      LoChildren(h, pos);
      MatchesOfChildren(vMatch, h, pos);
      PathLengths(Matches(vMatch, h - 1, 2 * pos), Matches(vMatch, h - 1, 2 * pos + 1), h);
      BuildHashBound(H, h - 1, 2 * pos, txids, vMatch);
      if Lo(h - 1, 2 * pos + 1) < |txids| { BuildHashBound(H, h - 1, 2 * pos + 1, txids, vMatch); }
    }
  }

  // ---------------------------------------------------------------- extracting

  /** The cursors and outputs that TraverseAndExtract threads through. */
  datatype Cursor = Cursor(nBitsUsed: nat, nHashUsed: nat, vMatch: seq<Hash>, vnIndex: seq<nat>, fBad: bool)

  function Extract(H: (Hash, Hash) -> Hash, n: nat, bits: seq<bool>, hashes: seq<Hash>, h: nat, pos: nat, c: Cursor): (Cursor, Hash)
    decreases h
  {
    if c.nBitsUsed >= |bits| then (c.(fBad := true), NullHash)
    else
      var parent := bits[c.nBitsUsed];
      var c1 := c.(nBitsUsed := c.nBitsUsed + 1);
      if h == 0 || !parent then
        if c1.nHashUsed >= |hashes| then (c1.(fBad := true), NullHash)
        else
          var hash := hashes[c1.nHashUsed];
          var c2 := c1.(nHashUsed := c1.nHashUsed + 1);
          (if h == 0 && parent then c2.(vMatch := c2.vMatch + [hash], vnIndex := c2.vnIndex + [pos]) else c2, hash)
      else
        var (cl, left) := Extract(H, n, bits, hashes, h - 1, 2 * pos, c1);
        if 2 * pos + 1 < Width(n, h - 1) then
          var (cr, right) := Extract(H, n, bits, hashes, h - 1, 2 * pos + 1, cl);
          (if right == left then cr.(fBad := true) else cr, H(left, right))
        else (cl, H(left, left))
  }

  datatype Extraction = Extraction(root: Hash, vMatch: seq<Hash>, vnIndex: seq<nat>)

  /** ExtractMatches with both output vectors empty; the null hash reports failure. */
  function ExtractMatches(H: (Hash, Hash) -> Hash, n: nat, bits: seq<bool>, hashes: seq<Hash>, fBad: bool): Extraction {
    if n == 0 || n > MAX_TRANSACTIONS || |hashes| > n || |bits| < |hashes| then Extraction(NullHash, [], [])
    else
      var (c, root) := Extract(H, n, bits, hashes, Height(n), 0, Cursor(0, 0, [], [], fBad));
      Extraction(
        if c.fBad || (c.nBitsUsed + 7) / 8 != (|bits| + 7) / 8 || c.nHashUsed != |hashes| then NullHash else root,
        c.vMatch, c.vnIndex)
  }

  // ---------------------------------------------------------------- round trip

  /** Distinct transactions give distinct hashes at every level. */
  lemma {:induction false} NodesDiffer(H: (Hash, Hash) -> Hash, h: nat, p: nat, q: nat, txids: seq<Hash>)
    requires Injective(H) && Lo(h, p) < |txids| && Lo(h, q) < |txids| && p != q
    requires Distinct(txids)
    ensures CalcHash(H, h, p, txids) != CalcHash(H, h, q, txids)
  {
    if h > 0 {
      LoChildren(h, p);
      LoChildren(h, q);
      NodesDiffer(H, h - 1, 2 * p, 2 * q, txids);
    }
  }

  ghost predicate Distinct(txids: seq<Hash>) {
    forall i, j :: 0 <= i < j < |txids| ==> txids[i] != txids[j]
  }

  function At(txids: seq<Hash>, indexes: seq<nat>): seq<Hash> {
    seq(|indexes|, i requires 0 <= i < |indexes| => if indexes[i] < |txids| then txids[indexes[i]] else NullHash)
  }

  lemma AtConcat(txids: seq<Hash>, a: seq<nat>, b: seq<nat>)
    ensures At(txids, a + b) == At(txids, a) + At(txids, b)
  {}

  /** The next bits and hashes are those the builder wrote for this node. */
  ghost predicate Reads(bits: seq<bool>, hashes: seq<Hash>, c: Cursor, b: Partial) {
    && c.nBitsUsed + |b.bits| <= |bits| && bits[c.nBitsUsed..c.nBitsUsed + |b.bits|] == b.bits
    && c.nHashUsed + |b.hashes| <= |hashes| && hashes[c.nHashUsed..c.nHashUsed + |b.hashes|] == b.hashes
  }

  ghost function Advanced(txids: seq<Hash>, vMatch: seq<bool>, c: Cursor, b: Partial, lo: nat, hi: nat): Cursor {
    var m := MatchedIndexes(vMatch, lo, hi);
    Cursor(c.nBitsUsed + |b.bits|, c.nHashUsed + |b.hashes|, c.vMatch + At(txids, m), c.vnIndex + m, c.fBad)
  }

  lemma ReadsParts(bits: seq<bool>, hashes: seq<Hash>, c: Cursor, flag: bool, l: Partial, r: Partial)
    requires Reads(bits, hashes, c, Partial([flag] + l.bits + r.bits, l.hashes + r.hashes))
    ensures c.nBitsUsed < |bits| && bits[c.nBitsUsed] == flag
    ensures Reads(bits, hashes, c.(nBitsUsed := c.nBitsUsed + 1), l)
    ensures forall d: Cursor :: d.nBitsUsed == c.nBitsUsed + 1 + |l.bits| && d.nHashUsed == c.nHashUsed + |l.hashes| ==>
              Reads(bits, hashes, d, r)
  {
    FlaggedParts(bits, c.nBitsUsed, flag, l.bits, r.bits);
    SliceParts(hashes, c.nHashUsed, l.hashes, r.hashes);
  }

  lemma FlaggedParts(bits: seq<bool>, at: nat, flag: bool, l: seq<bool>, r: seq<bool>)
    requires at + 1 + |l| + |r| <= |bits| && bits[at..at + |[flag] + l + r|] == [flag] + l + r
    ensures bits[at] == flag && bits[at + 1..at + 1 + |l|] == l && bits[at + 1 + |l|..at + 1 + |l| + |r|] == r
  {
    assert [flag] + l + r == [flag] + (l + r);
    SliceParts(bits, at, [flag], l + r);
    assert bits[at] == bits[at..at + 1][0];
    SliceParts(bits, at + 1, l, r);
  }

  /** A stretch that reads as two pieces holds one after the other. */
  lemma SliceParts<T>(s: seq<T>, i: nat, a: seq<T>, b: seq<T>)
    requires i + |a| + |b| <= |s| && s[i..i + |a + b|] == a + b
    ensures s[i..i + |a|] == a && s[i + |a|..i + |a| + |b|] == b
  {
    var all := s[i..i + |a + b|];
    assert all[..|a|] == a && all[|a|..] == b;
    forall k | 0 <= k < |a| ensures s[i + k] == a[k] { assert all[k] == s[i + k]; }
    forall k | 0 <= k < |b| ensures s[i + |a| + k] == b[k] { assert all[|a| + k] == s[i + (|a| + k)]; }
  }

  lemma AdvancedTwice(txids: seq<Hash>, vMatch: seq<bool>, c: Cursor, flag: bool, l: Partial, r: Partial, lo: nat, mid: nat, hi: nat)
    requires lo <= mid <= hi
    ensures Advanced(txids, vMatch, Advanced(txids, vMatch, c.(nBitsUsed := c.nBitsUsed + 1), l, lo, mid), r, mid, hi) ==
            Advanced(txids, vMatch, c, Partial([flag] + l.bits + r.bits, l.hashes + r.hashes), lo, hi)
  {
    hide MatchedIndexes, At;
    var ml, mr := MatchedIndexes(vMatch, lo, mid), MatchedIndexes(vMatch, mid, hi);
    MatchedSplit(vMatch, lo, mid, hi);
    AtConcat(txids, ml, mr);
    assert c.vMatch + At(txids, ml) + At(txids, mr) == c.vMatch + (At(txids, ml) + At(txids, mr));
    assert c.vnIndex + ml + mr == c.vnIndex + (ml + mr);
  }

  lemma AdvancedByNothing(txids: seq<Hash>, vMatch: seq<bool>, c: Cursor, lo: nat, hi: nat)
    requires MatchedIndexes(vMatch, lo, hi) == []
    ensures Advanced(txids, vMatch, c, Partial([], []), lo, hi) == c
  {
    assert At(txids, []) == [];
  }

  /** A node that is stored rather than descended into. */
  lemma ExtractStored(H: (Hash, Hash) -> Hash, bits: seq<bool>, hashes: seq<Hash>,
                      h: nat, pos: nat, c: Cursor, txids: seq<Hash>, vMatch: seq<bool>)
    requires Lo(h, pos) < |txids| == |vMatch|
    requires h == 0 || !AnyMatch(vMatch, Lo(h, pos), Lo(h, pos + 1))
    requires Reads(bits, hashes, c, Build(H, h, pos, txids, vMatch))
    ensures Extract(H, |txids|, bits, hashes, h, pos, c) ==
            (Advanced(txids, vMatch, c, Build(H, h, pos, txids, vMatch), Lo(h, pos), Lo(h, pos + 1)),
             CalcHash(H, h, pos, txids))
  {
    var b := Build(H, h, pos, txids, vMatch);
    MatchedNone(vMatch, Lo(h, pos), Lo(h, pos + 1));
    assert bits[c.nBitsUsed] == bits[c.nBitsUsed..c.nBitsUsed + |b.bits|][0];
    assert hashes[c.nHashUsed] == hashes[c.nHashUsed..c.nHashUsed + |b.hashes|][0];
    if h == 0 { LeafMatched(vMatch, pos); }
    if h == 0 && vMatch[pos] {
      assert At(txids, [pos]) == [txids[pos]];
    } else {
      assert At(txids, []) == [] && c.vMatch + [] == c.vMatch && c.vnIndex + [] == c.vnIndex;
    }
  }

  lemma ExtractNode(H: (Hash, Hash) -> Hash, n: nat, bits: seq<bool>, hashes: seq<Hash>, h: nat, pos: nat, c: Cursor)
    requires h > 0 && c.nBitsUsed < |bits| && bits[c.nBitsUsed]
    ensures var (cl, left) := Extract(H, n, bits, hashes, h - 1, 2 * pos, c.(nBitsUsed := c.nBitsUsed + 1));
            var (cr, right) := Extract(H, n, bits, hashes, h - 1, 2 * pos + 1, cl);
            Extract(H, n, bits, hashes, h, pos, c) ==
            if 2 * pos + 1 < Width(n, h - 1) then (if right == left then cr.(fBad := true) else cr, H(left, right))
            else (cl, H(left, left))
  {}

  /** The right child, or nothing where the tree has none. */
  ghost function BuildRight(H: (Hash, Hash) -> Hash, h: nat, pos: nat, txids: seq<Hash>, vMatch: seq<bool>): Partial
    requires h > 0 && |txids| == |vMatch|
  {
    if Lo(h - 1, 2 * pos + 1) < |txids| then Build(H, h - 1, 2 * pos + 1, txids, vMatch) else Partial([], [])
  }

  lemma BuildStored(H: (Hash, Hash) -> Hash, h: nat, pos: nat, txids: seq<Hash>, vMatch: seq<bool>)
    requires Lo(h, pos) < |txids| == |vMatch| && (h == 0 || !AnyMatch(vMatch, Lo(h, pos), Lo(h, pos + 1)))
    ensures Build(H, h, pos, txids, vMatch) ==
            Partial([AnyMatch(vMatch, Lo(h, pos), Lo(h, pos + 1))], [CalcHash(H, h, pos, txids)])
  {}

  lemma BuildNode(H: (Hash, Hash) -> Hash, h: nat, pos: nat, txids: seq<Hash>, vMatch: seq<bool>)
    requires Lo(h, pos) < |txids| == |vMatch| && h > 0 && AnyMatch(vMatch, Lo(h, pos), Lo(h, pos + 1))
    ensures Lo(h - 1, 2 * pos) == Lo(h, pos)
    ensures var l, r := Build(H, h - 1, 2 * pos, txids, vMatch), BuildRight(H, h, pos, txids, vMatch);
            Build(H, h, pos, txids, vMatch) == Partial([true] + l.bits + r.bits, l.hashes + r.hashes)
  {
    LoChildren(h, pos);
    var l := Build(H, h - 1, 2 * pos, txids, vMatch);
    assert [true] + l.bits + [] == [true] + l.bits && l.hashes + [] == l.hashes;
  }

  lemma CalcNode(H: (Hash, Hash) -> Hash, h: nat, pos: nat, txids: seq<Hash>)
    requires Lo(h, pos) < |txids| && h > 0
    ensures Lo(h - 1, 2 * pos) == Lo(h, pos)
    ensures var left := CalcHash(H, h - 1, 2 * pos, txids);
            CalcHash(H, h, pos, txids) ==
            H(left, if Lo(h - 1, 2 * pos + 1) < |txids| then CalcHash(H, h - 1, 2 * pos + 1, txids) else left)
  {
    LoChildren(h, pos);
  }

  /** Extraction undoes building, node by node, wherever in a longer stream it starts. */
  lemma {:induction false} ExtractInvertsBuild(H: (Hash, Hash) -> Hash, bits: seq<bool>, hashes: seq<Hash>,
                                              h: nat, pos: nat, c: Cursor, txids: seq<Hash>, vMatch: seq<bool>)
    requires Injective(H) && Distinct(txids) && Lo(h, pos) < |txids| == |vMatch|
    requires Reads(bits, hashes, c, Build(H, h, pos, txids, vMatch))
    ensures Extract(H, |txids|, bits, hashes, h, pos, c) ==
            (Advanced(txids, vMatch, c, Build(H, h, pos, txids, vMatch), Lo(h, pos), Lo(h, pos + 1)),
             CalcHash(H, h, pos, txids))
    decreases h
  {
    hide Reads, Advanced, Width, Lo, Injective, Distinct, MatchedIndexes, AnyMatch, Extract, Build, CalcHash;
    var lo, hi := Lo(h, pos), Lo(h, pos + 1);
    if h == 0 || !AnyMatch(vMatch, lo, hi) {
      ExtractStored(H, bits, hashes, h, pos, c, txids, vMatch);
    } else {
      LoChildren(h, pos);
      WidthIff(|txids|, h - 1, 2 * pos + 1);
      BuildNode(H, h, pos, txids, vMatch);
      CalcNode(H, h, pos, txids);
      var mid := Lo(h - 1, 2 * pos + 1);
      var l, r := Build(H, h - 1, 2 * pos, txids, vMatch), BuildRight(H, h, pos, txids, vMatch);
      var c1 := c.(nBitsUsed := c.nBitsUsed + 1);
      var cl := Advanced(txids, vMatch, c1, l, lo, mid);
      AdvancedPlaces(txids, vMatch, c1, l, lo, mid);
      AdvancedTwice(txids, vMatch, c, true, l, r, lo, mid, hi);
      ReadsParts(bits, hashes, c, true, l, r);
      ExtractNode(H, |txids|, bits, hashes, h, pos, c);
      ExtractInvertsBuild(H, bits, hashes, h - 1, 2 * pos, c1, txids, vMatch);
      if mid < |txids| {
        ExtractInvertsBuild(H, bits, hashes, h - 1, 2 * pos + 1, cl, txids, vMatch);
        NodesDiffer(H, h - 1, 2 * pos, 2 * pos + 1, txids);
      } else {
        MatchedNone(vMatch, mid, hi);
        AdvancedByNothing(txids, vMatch, cl, mid, hi);
      }
    }
  }

  lemma AdvancedPlaces(txids: seq<Hash>, vMatch: seq<bool>, c: Cursor, b: Partial, lo: nat, hi: nat)
    ensures Advanced(txids, vMatch, c, b, lo, hi).nBitsUsed == c.nBitsUsed + |b.bits|
    ensures Advanced(txids, vMatch, c, b, lo, hi).nHashUsed == c.nHashUsed + |b.hashes|
  {}

  lemma LeafMatched(vMatch: seq<bool>, pos: nat)
    requires pos < |vMatch|
    ensures Lo(0, pos) == pos && Lo(0, pos + 1) == pos + 1
    ensures MatchedIndexes(vMatch, pos, pos + 1) == if vMatch[pos] then [pos] else []
    ensures AnyMatch(vMatch, pos, pos + 1) <==> vMatch[pos]
  {
    assert MatchedIndexes(vMatch, pos, pos) == [];
  }

  lemma {:induction false} HeightFits(n: nat, h: nat)
    requires n >= 1
    ensures Lo(HeightFrom(n, h), 0) == 0 && Lo(HeightFrom(n, h), 0 + 1) >= n
  {
    assert Lo(HeightFrom(n, h), 1) == Pow2(HeightFrom(n, h));
  }

  /** What the constructor stores. */
  ghost function Built(H: (Hash, Hash) -> Hash, txids: seq<Hash>, vMatch: seq<bool>): Partial
    requires 1 <= |txids| == |vMatch|
  {
    Build(H, Height(|txids|), 0, txids, vMatch)
  }

  ghost function Root(H: (Hash, Hash) -> Hash, txids: seq<Hash>): Hash
    requires 1 <= |txids|
  {
    CalcHash(H, Height(|txids|), 0, txids)
  }

  lemma {:induction false} MatchedBeyond(vMatch: seq<bool>, hi: nat)
    requires hi >= |vMatch|
    ensures MatchedIndexes(vMatch, 0, hi) == MatchedIndexes(vMatch, 0, |vMatch|)
  {
    if hi > |vMatch| { MatchedBeyond(vMatch, hi - 1); }
  }

  /**
   Build, pack to whole bytes, unpack and extract: `padding` is what whole bytes
   add.  The true root comes back with exactly the matched transactions.
   */
  lemma RoundTrip(H: (Hash, Hash) -> Hash, txids: seq<Hash>, vMatch: seq<bool>, padding: seq<bool>)
    requires Injective(H) && Distinct(txids) && 1 <= |txids| == |vMatch| <= MAX_TRANSACTIONS
    requires (|Built(H, txids, vMatch).bits| + 7) / 8 == (|Built(H, txids, vMatch).bits + padding| + 7) / 8
    ensures var b := Built(H, txids, vMatch);
            var indexes := MatchedIndexes(vMatch, 0, |vMatch|);
            ExtractMatches(H, |txids|, b.bits + padding, b.hashes, false) ==
            Extraction(Root(H, txids), At(txids, indexes), indexes)
    ensures var b := Built(H, txids, vMatch);
            |b.hashes| <= |txids| && |b.hashes| <= 1 + |MatchedIndexes(vMatch, 0, |vMatch|)| * Height(|txids|)
  {
    hide Injective, Distinct, Extract, Build, CalcHash, MatchedIndexes, HeightFrom, Lo;
    var h := Height(|txids|);
    HeightFits(|txids|, 0);
    var b := Built(H, txids, vMatch);
    BuildSize(H, h, 0, txids, vMatch);
    BuildHashBound(H, h, 0, txids, vMatch);
    MatchedBeyond(vMatch, Lo(h, 1));
    var c := Cursor(0, 0, [], [], false);
    var bits := b.bits + padding;
    assert bits[0..|b.bits|] == b.bits && b.hashes[0..|b.hashes|] == b.hashes;
    assert Reads(bits, b.hashes, c, b);
    ExtractInvertsBuild(H, bits, b.hashes, h, 0, c, txids, vMatch);
    var indexes := MatchedIndexes(vMatch, 0, |vMatch|);
    assert [] + At(txids, indexes) == At(txids, indexes) && [] + indexes == indexes;
  }

  // ---------------------------------------------------------------- soundness for arbitrary trees

  ghost predicate TruePairs(txids: seq<Hash>, c: Cursor, from: nat) {
    && from <= |c.vMatch| == |c.vnIndex|
    && forall i :: from <= i < |c.vMatch| ==> c.vnIndex[i] < |txids| && c.vMatch[i] == txids[c.vnIndex[i]]
  }

  /** Extraction only ever appends to its outputs, and a failure is never taken back. */
  ghost predicate Extends(c: Cursor, c': Cursor) {
    && c.vMatch <= c'.vMatch && c.vnIndex <= c'.vnIndex && (c.fBad ==> c'.fBad)
    && |c'.vMatch| - |c.vMatch| == |c'.vnIndex| - |c.vnIndex|
  }

  lemma StoredExtends(H: (Hash, Hash) -> Hash, n: nat, bits: seq<bool>, hashes: seq<Hash>, h: nat, pos: nat, c: Cursor)
    requires c.nBitsUsed < |bits| ==> h == 0 || !bits[c.nBitsUsed]
    ensures Extends(c, Extract(H, n, bits, hashes, h, pos, c).0)
  {}

  lemma {:induction false} ExtractExtends(H: (Hash, Hash) -> Hash, n: nat, bits: seq<bool>, hashes: seq<Hash>, h: nat, pos: nat, c: Cursor)
    ensures Extends(c, Extract(H, n, bits, hashes, h, pos, c).0)
    decreases h
  {
    hide Extract, Width;
    if c.nBitsUsed < |bits| && h > 0 && bits[c.nBitsUsed] {
      ExtractNode(H, n, bits, hashes, h, pos, c);
      var c1 := c.(nBitsUsed := c.nBitsUsed + 1);
      ExtractExtends(H, n, bits, hashes, h - 1, 2 * pos, c1);
      ExtractExtends(H, n, bits, hashes, h - 1, 2 * pos + 1, Extract(H, n, bits, hashes, h - 1, 2 * pos, c1).0);
    } else {
      StoredExtends(H, n, bits, hashes, h, pos, c);
    }
  }

  lemma StoredIsSound(H: (Hash, Hash) -> Hash, bits: seq<bool>, hashes: seq<Hash>, h: nat, pos: nat, c: Cursor, txids: seq<Hash>)
    requires Lo(h, pos) < |txids| && |c.vMatch| == |c.vnIndex|
    requires c.nBitsUsed < |bits| ==> h == 0 || !bits[c.nBitsUsed]
    requires var (c', hash) := Extract(H, |txids|, bits, hashes, h, pos, c);
             !c'.fBad && hash == CalcHash(H, h, pos, txids)
    ensures TruePairs(txids, Extract(H, |txids|, bits, hashes, h, pos, c).0, |c.vMatch|)
  {}

  lemma ChildrenKnown(H: (Hash, Hash) -> Hash, a: Hash, b: Hash, c: Hash, d: Hash)
    requires Injective(H) && H(a, b) == H(c, d)
    ensures a == c && b == d
  {}

  lemma TruePairsJoin(txids: seq<Hash>, cl: Cursor, cr: Cursor, from: nat)
    requires TruePairs(txids, cl, from) && TruePairs(txids, cr, |cl.vMatch|)
    requires cl.vMatch <= cr.vMatch && cl.vnIndex <= cr.vnIndex
    ensures TruePairs(txids, cr, from)
  {}

  /** Whatever the bits and hashes are: the right hash for a node vouches for every match reported below it. */
  lemma {:induction false} ExtractIsSound(H: (Hash, Hash) -> Hash, bits: seq<bool>, hashes: seq<Hash>,
                                          h: nat, pos: nat, c: Cursor, txids: seq<Hash>)
    requires Injective(H) && Lo(h, pos) < |txids| && |c.vMatch| == |c.vnIndex|
    requires var (c', hash) := Extract(H, |txids|, bits, hashes, h, pos, c);
             !c'.fBad && hash == CalcHash(H, h, pos, txids)
    ensures TruePairs(txids, Extract(H, |txids|, bits, hashes, h, pos, c).0, |c.vMatch|)
    decreases h
  {
    hide Injective, Extract, CalcHash, TruePairs, Lo, Width;
    if c.nBitsUsed < |bits| && h > 0 && bits[c.nBitsUsed] {
      LoChildren(h, pos);
      WidthIff(|txids|, h - 1, 2 * pos + 1);
      ExtractNode(H, |txids|, bits, hashes, h, pos, c);
      CalcNode(H, h, pos, txids);
      var c1 := c.(nBitsUsed := c.nBitsUsed + 1);
      var (cl, left) := Extract(H, |txids|, bits, hashes, h - 1, 2 * pos, c1);
      ExtractExtends(H, |txids|, bits, hashes, h - 1, 2 * pos, c1);
      var truth := CalcHash(H, h - 1, 2 * pos, txids);
      if Lo(h - 1, 2 * pos + 1) < |txids| {
        var (cr, right) := Extract(H, |txids|, bits, hashes, h - 1, 2 * pos + 1, cl);
        ExtractExtends(H, |txids|, bits, hashes, h - 1, 2 * pos + 1, cl);
        ChildrenKnown(H, left, right, truth, CalcHash(H, h - 1, 2 * pos + 1, txids));
        ExtractIsSound(H, bits, hashes, h - 1, 2 * pos, c1, txids);
        ExtractIsSound(H, bits, hashes, h - 1, 2 * pos + 1, cl, txids);
        TruePairsJoin(txids, cl, cr, |c.vMatch|);
      } else {
        ChildrenKnown(H, left, left, truth, truth);
        ExtractIsSound(H, bits, hashes, h - 1, 2 * pos, c1, txids);
      }
    } else {
      StoredIsSound(H, bits, hashes, h, pos, c, txids);
    }
  }

  /** From an entry on, the indexes strictly rise within bounds. */
  ghost predicate RisesIn(s: seq<nat>, from: nat, lo: nat, hi: nat) {
    && from <= |s|
    && (forall i :: from <= i < |s| ==> lo <= s[i] < hi)
    && (forall i, j :: from <= i < j < |s| ==> s[i] < s[j])
  }

  lemma RisesJoin(l: seq<nat>, r: seq<nat>, from: nat, lo: nat, mid: nat, hi: nat)
    requires RisesIn(l, from, lo, mid) && RisesIn(r, |l|, mid, hi) && l <= r && lo <= mid <= hi
    ensures RisesIn(r, from, lo, hi)
  {}

  lemma StoredRises(H: (Hash, Hash) -> Hash, n: nat, bits: seq<bool>, hashes: seq<Hash>, h: nat, pos: nat, c: Cursor)
    requires c.nBitsUsed < |bits| ==> h == 0 || !bits[c.nBitsUsed]
    ensures RisesIn(Extract(H, n, bits, hashes, h, pos, c).0.vnIndex, |c.vnIndex|, Lo(h, pos), Lo(h, pos + 1))
  {
    if h == 0 { assert Lo(h, pos) == pos && Lo(h, pos + 1) == pos + 1; }
  }

  /** Whatever the bits and hashes are: the indexes found below a node rise strictly within its leaves. */
  lemma {:induction false} ExtractRises(H: (Hash, Hash) -> Hash, n: nat, bits: seq<bool>, hashes: seq<Hash>, h: nat, pos: nat, c: Cursor)
    ensures RisesIn(Extract(H, n, bits, hashes, h, pos, c).0.vnIndex, |c.vnIndex|, Lo(h, pos), Lo(h, pos + 1))
    decreases h
  {
    hide Extract, Width, Lo, RisesIn;
    if c.nBitsUsed < |bits| && h > 0 && bits[c.nBitsUsed] {
      LoChildren(h, pos);
      ExtractNode(H, n, bits, hashes, h, pos, c);
      var c1 := c.(nBitsUsed := c.nBitsUsed + 1);
      var cl := Extract(H, n, bits, hashes, h - 1, 2 * pos, c1).0;
      ExtractExtends(H, n, bits, hashes, h - 1, 2 * pos, c1);
      ExtractRises(H, n, bits, hashes, h - 1, 2 * pos, c1);
      ExtractExtends(H, n, bits, hashes, h - 1, 2 * pos + 1, cl);
      ExtractRises(H, n, bits, hashes, h - 1, 2 * pos + 1, cl);
      var mid := Lo(h - 1, 2 * pos + 1);
      RisesJoin(cl.vnIndex, Extract(H, n, bits, hashes, h - 1, 2 * pos + 1, cl).0.vnIndex, |c.vnIndex|, Lo(h, pos), mid, Lo(h, pos + 1));
      RisesWider(cl.vnIndex, |c.vnIndex|, Lo(h, pos), mid, Lo(h, pos + 1));
    } else {
      StoredRises(H, n, bits, hashes, h, pos, c);
    }
  }

  lemma RisesWider(s: seq<nat>, from: nat, lo: nat, mid: nat, hi: nat)
    requires RisesIn(s, from, lo, mid) && mid <= hi
    ensures RisesIn(s, from, lo, hi)
  {}

  /** A peer cannot claim a transaction at an index where the block has another, nor one transaction twice. */
  lemma ExtractMatchesIsSound(H: (Hash, Hash) -> Hash, bits: seq<bool>, hashes: seq<Hash>, fBad: bool, txids: seq<Hash>)
    requires Injective(H) && 1 <= |txids|
    requires Root(H, txids) != NullHash
    requires ExtractMatches(H, |txids|, bits, hashes, fBad).root == Root(H, txids)
    ensures var e := ExtractMatches(H, |txids|, bits, hashes, fBad);
            && |e.vMatch| == |e.vnIndex|
            && (forall i :: 0 <= i < |e.vMatch| ==> e.vnIndex[i] < |txids| && e.vMatch[i] == txids[e.vnIndex[i]])
            && (forall i, j :: 0 <= i < j < |e.vnIndex| ==> e.vnIndex[i] < e.vnIndex[j])
  {
    hide Extract, Lo;
    var h := Height(|txids|);
    HeightFits(|txids|, 0);
    ExtractRises(H, |txids|, bits, hashes, h, 0, Cursor(0, 0, [], [], fBad));
    ExtractIsSound(H, bits, hashes, h, 0, Cursor(0, 0, [], [], fBad), txids);
  }
}

/** The code of the partial tree and of its serialization. */
module MerkleTree {
  import opened Basics
  import opened Merkle

  // ---------------------------------------------------------------- packing bits into bytes

  /** 1 << k */
  function Mask(k: nat): bv8
    requires k < 8
  {
    if k == 0 then 1 else if k == 1 then 2 else if k == 2 then 4 else if k == 3 then 8
    else if k == 4 then 16 else if k == 5 then 32 else if k == 6 then 64 else 128
  }

  predicate BitAt(bytes: seq<bv8>, p: nat)
    requires p / 8 < |bytes|
  {
    bytes[p / 8] & Mask(p % 8) != 0
  }

  lemma BitOr(b: bv8, k: nat, j: nat)
    requires k < 8 && j < 8
    ensures (b | Mask(k)) & Mask(j) != 0 <==> b & Mask(j) != 0 || k == j
  {
    if k == 0 { BitOrCase(b, 1, j); }
    else if k == 1 { BitOrCase(b, 2, j); }
    else if k == 2 { BitOrCase(b, 4, j); }
    else if k == 3 { BitOrCase(b, 8, j); }
    else if k == 4 { BitOrCase(b, 16, j); }
    else if k == 5 { BitOrCase(b, 32, j); }
    else if k == 6 { BitOrCase(b, 64, j); }
    else { BitOrCase(b, 128, j); }
  }

  lemma BitOrCase(b: bv8, m: bv8, j: nat)
    requires j < 8
    requires m == 1 || m == 2 || m == 4 || m == 8 || m == 16 || m == 32 || m == 64 || m == 128
    ensures (b | m) & Mask(j) != 0 <==> b & Mask(j) != 0 || m == Mask(j)
  {}

  method PackBits(vBits: seq<bool>) returns (vBytes: seq<bv8>)
    ensures |vBytes| == (|vBits| + 7) / 8
    ensures forall q :: 0 <= q < 8 * |vBytes| ==> BitAt(vBytes, q) == (q < |vBits| && vBits[q])
  {
    vBytes := seq((|vBits| + 7) / 8, _ => 0);
    assert forall q :: 0 <= q < 8 * |vBytes| ==> !BitAt(vBytes, q);
    var p := 0;
    while p < |vBits|
      invariant 0 <= p <= |vBits| && |vBytes| == (|vBits| + 7) / 8
      invariant forall q :: 0 <= q < 8 * |vBytes| ==> BitAt(vBytes, q) == (q < p && vBits[q])
    {
      ghost var before := vBytes;
      if vBits[p] {
        vBytes := vBytes[p / 8 := vBytes[p / 8] | Mask(p % 8)];
        forall q | 0 <= q < 8 * |vBytes| ensures BitAt(vBytes, q) == (BitAt(before, q) || q == p) {
          if q / 8 == p / 8 { BitOr(before[p / 8], p % 8, q % 8); }
        }
      }
      p := p + 1;
    }
  }

  method UnpackBits(vBytes: seq<bv8>) returns (vBits: seq<bool>)
    ensures |vBits| == 8 * |vBytes|
    ensures forall p :: 0 <= p < |vBits| ==> vBits[p] == BitAt(vBytes, p)
  {
    vBits := [];
    while |vBits| < 8 * |vBytes|
      invariant |vBits| <= 8 * |vBytes|
      invariant forall p :: 0 <= p < |vBits| ==> vBits[p] == BitAt(vBytes, p)
    {
      vBits := vBits + [BitAt(vBytes, |vBits|)];
    }
  }

  // ---------------------------------------------------------------- the tree object

  class PartialMerkleTree {
    const H: (Hash, Hash) -> Hash
    var nTransactions: nat
    var vBits: seq<bool>
    var vHash: seq<Hash>
    var fBad: bool

    /** From a list of transaction ids and a mask; the list must not be empty. */
    constructor FromMask(combine: (Hash, Hash) -> Hash, vTxid: seq<Hash>, vMatch: seq<bool>)
      requires 1 <= |vTxid| == |vMatch|
      ensures H == combine && nTransactions == |vTxid| && !fBad
      ensures Partial(vBits, vHash) == Built(H, vTxid, vMatch)
    {
      H := combine;
      nTransactions, vBits, vHash, fBad := |vTxid|, [], [], false;
      new;
      var nHeight := TreeHeight();
      HeightFits(|vTxid|, 0);
      TraverseAndBuild(nHeight, 0, vTxid, vMatch);
    }

    /** What unserializing leaves behind. */
    constructor FromWire(combine: (Hash, Hash) -> Hash, n: nat, bits: seq<bool>, hashes: seq<Hash>)
      ensures H == combine && nTransactions == n && vBits == bits && vHash == hashes && !fBad
    {
      H := combine;
      nTransactions, vBits, vHash, fBad := n, bits, hashes, false;
    }

    method TreeHeight() returns (nHeight: nat)
      ensures nHeight == Height(nTransactions)
    {
      nHeight := 0;
      WidthOne(nTransactions, 0);
      while Width(nTransactions, nHeight) > 1
        invariant HeightFrom(nTransactions, nHeight) == Height(nTransactions)
        decreases if nTransactions > Pow2(nHeight) then nTransactions - Pow2(nHeight) else 0
      {
        WidthOne(nTransactions, nHeight);
        nHeight := nHeight + 1;
        WidthOne(nTransactions, nHeight);
      }
      WidthOne(nTransactions, nHeight);
    }

    method ParentOfMatch(height: nat, pos: nat, vMatch: seq<bool>) returns (found: bool)
      requires nTransactions == |vMatch|
      ensures found <==> AnyMatch(vMatch, Lo(height, pos), Lo(height, pos + 1))
    {
      found := false;
      var p := Lo(height, pos);
      while p < Lo(height, pos + 1) && p < nTransactions
        invariant Lo(height, pos) <= p
        invariant found <==> AnyMatch(vMatch, Lo(height, pos), p)
        invariant p <= Lo(height, pos + 1) || p == Lo(height, pos)
        decreases nTransactions - p
      {
        found := found || vMatch[p];
        p := p + 1;
      }
      LoMonotone(height, pos);
      assert AnyMatch(vMatch, Lo(height, pos), Lo(height, pos + 1)) <==> AnyMatch(vMatch, Lo(height, pos), p);
    }

    lemma LoMonotone(height: nat, pos: nat)
      ensures Lo(height, pos) < Lo(height, pos + 1)
    {
      assert (pos + 1) * Pow2(height) == pos * Pow2(height) + Pow2(height);
    }

    method TraverseAndBuild(height: nat, pos: nat, vTxid: seq<Hash>, vMatch: seq<bool>)
      requires Lo(height, pos) < |vTxid| == |vMatch| == nTransactions
      modifies `vBits, `vHash
      ensures var b := Build(H, height, pos, vTxid, vMatch);
              vBits == old(vBits) + b.bits && vHash == old(vHash) + b.hashes
      decreases height
    {
      hide Lo, AnyMatch, CalcHash, Width, Build;
      var fParentOfMatch := ParentOfMatch(height, pos, vMatch);
      vBits := vBits + [fParentOfMatch];
      if height == 0 || !fParentOfMatch {
        BuildStored(H, height, pos, vTxid, vMatch);
        vHash := vHash + [CalcHash(H, height, pos, vTxid)];
      } else {
        LoChildren(height, pos);
        BuildNode(H, height, pos, vTxid, vMatch);
        WidthIff(nTransactions, height - 1, 2 * pos + 1);
        TraverseAndBuild(height - 1, 2 * pos, vTxid, vMatch);
        if 2 * pos + 1 < Width(nTransactions, height - 1) {
          TraverseAndBuild(height - 1, 2 * pos + 1, vTxid, vMatch);
        }
        ghost var l, r := Build(H, height - 1, 2 * pos, vTxid, vMatch), BuildRight(H, height, pos, vTxid, vMatch);
        assert old(vBits) + [true] + l.bits + r.bits == old(vBits) + ([true] + l.bits + r.bits);
        assert old(vHash) + l.hashes + r.hashes == old(vHash) + (l.hashes + r.hashes);
      }
    }

    method TraverseAndExtract(height: nat, pos: nat, bitsUsed: nat, hashUsed: nat, match0: seq<Hash>, index0: seq<nat>)
      returns (nBitsUsed: nat, nHashUsed: nat, vMatch: seq<Hash>, vnIndex: seq<nat>, hash: Hash)
      modifies `fBad
      ensures (Cursor(nBitsUsed, nHashUsed, vMatch, vnIndex, fBad), hash) ==
              Extract(H, nTransactions, vBits, vHash, height, pos, Cursor(bitsUsed, hashUsed, match0, index0, old(fBad)))
      decreases height
    {
      nBitsUsed, nHashUsed, vMatch, vnIndex := bitsUsed, hashUsed, match0, index0;
      if nBitsUsed >= |vBits| {
        fBad := true;
        return nBitsUsed, nHashUsed, vMatch, vnIndex, NullHash;
      }
      var fParentOfMatch := vBits[nBitsUsed];
      nBitsUsed := nBitsUsed + 1;
      if height == 0 || !fParentOfMatch {
        if nHashUsed >= |vHash| {
          fBad := true;
          return nBitsUsed, nHashUsed, vMatch, vnIndex, NullHash;
        }
        hash := vHash[nHashUsed];
        nHashUsed := nHashUsed + 1;
        if height == 0 && fParentOfMatch {
          vMatch := vMatch + [hash];
          vnIndex := vnIndex + [pos];
        }
      } else {
        var left, right;
        nBitsUsed, nHashUsed, vMatch, vnIndex, left :=
          TraverseAndExtract(height - 1, 2 * pos, nBitsUsed, nHashUsed, vMatch, vnIndex);
        if 2 * pos + 1 < Width(nTransactions, height - 1) {
          nBitsUsed, nHashUsed, vMatch, vnIndex, right :=
            TraverseAndExtract(height - 1, 2 * pos + 1, nBitsUsed, nHashUsed, vMatch, vnIndex);
          if right == left {
            fBad := true;
          }
        } else {
          right := left;
        }
        hash := H(left, right);
      }
    }

    method ExtractMatches() returns (root: Hash, vMatch: seq<Hash>, vnIndex: seq<nat>)
      modifies `fBad
      ensures Extraction(root, vMatch, vnIndex) == Merkle.ExtractMatches(H, nTransactions, vBits, vHash, old(fBad))
    {
      root, vMatch, vnIndex := NullHash, [], [];
      if nTransactions == 0 || nTransactions > MAX_TRANSACTIONS || |vHash| > nTransactions || |vBits| < |vHash| {
        return;
      }
      var nHeight := TreeHeight();
      var nBitsUsed, nHashUsed, hash;
      nBitsUsed, nHashUsed, vMatch, vnIndex, hash := TraverseAndExtract(nHeight, 0, 0, 0, [], []);
      if fBad || (nBitsUsed + 7) / 8 != (|vBits| + 7) / 8 || nHashUsed != |vHash| {
        return;
      }
      root := hash;
    }
  }

  /** The whole path of a filtered block: build, pack, unpack, extract. */
  method SendAndExtract(H: (Hash, Hash) -> Hash, vTxid: seq<Hash>, mask: seq<bool>)
    returns (root: Hash, vMatch: seq<Hash>, vnIndex: seq<nat>)
    requires Injective(H) && Distinct(vTxid) && 1 <= |vTxid| == |mask| <= MAX_TRANSACTIONS
    ensures root == Root(H, vTxid)
    ensures vnIndex == MatchedIndexes(mask, 0, |mask|) && vMatch == At(vTxid, vnIndex)
  {
    hide Injective, Distinct, Built, Root, MatchedIndexes;
    var tree := new PartialMerkleTree.FromMask(H, vTxid, mask);
    var vBytes := PackBits(tree.vBits);
    var bits := UnpackBits(vBytes);
    ghost var padding := bits[|tree.vBits|..];
    assert bits == tree.vBits + padding;
    var received := new PartialMerkleTree.FromWire(H, tree.nTransactions, bits, tree.vHash);
    root, vMatch, vnIndex := received.ExtractMatches();
    RoundTrip(H, vTxid, mask, padding);
  }
}
