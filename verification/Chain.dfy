/**
 The block tree with its skip pointers and the active chain (src/chain.h, src/chain.cpp).
 */
module Chain {
  import opened Basics
  import opened Heights
  import opened SkipWalk

  // ---------------------------------------------------------------- the block tree

  class BlockIndex {
    const hash: nat
    const pprev: BlockIndex?
    const nHeight: nat
    var pskip: BlockIndex?

    constructor (hash: nat, pprev: BlockIndex?)
      ensures this.hash == hash && this.pprev == pprev && pskip == null
      ensures nHeight == if pprev == null then 0 else pprev.nHeight + 1
    {
      this.hash := hash;
      this.pprev := pprev;
      nHeight := if pprev == null then 0 else pprev.nHeight + 1;
      pskip := null;
    }

    /**
     The ancestor at a height by way of skip pointers: the same block as walking back one by one, in
     logarithmically many steps (squared) when every block has its skip pointer.
     */
    method GetAncestor(height: int, ghost tree: set<BlockIndex>) returns (r: BlockIndex?, ghost steps: nat)
      requires this in tree && Tree(tree)
      ensures r == if 0 <= height <= nHeight then Back(this, height) else null
      ensures 0 <= height <= nHeight ==> steps <= nHeight - height
      ensures 0 <= height <= nHeight && AllSkip(tree) ==> FewSteps(steps, nHeight - height)
    {
      hide FewSteps, Hops, NextHeight, AllSkip, GetSkipHeight, Tree, Back;
      steps := 0;
      TreeAt(tree, this);
      if height > nHeight || height < 0 {
        return null, 0;
      }
      var walk: BlockIndex := this;
      var heightWalk := nHeight;
      while heightWalk > height
        invariant height <= heightWalk <= nHeight
        invariant walk in tree && Linked(walk) && walk.nHeight == heightWalk && Back(walk, height) == Back(this, height)
        invariant steps <= nHeight - heightWalk
        invariant AllSkip(tree) ==> steps + Hops(heightWalk, height) == Hops(nHeight, height)
        decreases heightWalk
      {
        var heightSkip := GetSkipHeight(heightWalk);
        var heightSkipPrev := GetSkipHeight(heightWalk - 1);
        HopsOnce(heightWalk, height);
        NextIs(heightWalk, height);
        TreeAt(tree, walk);
        HasSkip(tree, walk);
        if walk.pskip != null &&
           (heightSkip == height ||
            (heightSkip > height && !(heightSkipPrev < heightSkip - 2 && heightSkipPrev >= height))) {
          BackBack(walk, heightSkip, height);
          BackInTree(tree, walk, heightSkip);
          walk := walk.pskip;
          heightWalk := heightSkip;
        } else {
          BackOver(walk, height);
          walk := walk.pprev;
          heightWalk := heightWalk - 1;
        }
        steps := steps + 1;
      }
      HopsNone(height);
      BackSelf(walk);
      if AllSkip(tree) { HopsAreFew(nHeight, height); }
      return walk, steps;
    }

    /** Sets the skip pointer; the block may join the tree its parent is in. */
    method BuildSkip(ghost tree: set<BlockIndex>)
      requires Tree(tree) && this !in tree && Linked(this) && (pprev != null ==> pprev in tree)
      requires pskip == null
      modifies this`pskip
      ensures Tree(tree + {this}) && (AllSkip(tree) ==> AllSkip(tree + {this}))
      ensures if pprev == null then pskip == null else pskip == Back(this, GetSkipHeight(nHeight))
    {
      hide FewSteps;
      if pprev != null {
        var ancestor, _ := pprev.GetAncestor(GetSkipHeight(nHeight), tree);
        pskip := ancestor;
      }
    }
  }

  /** Heights count the blocks behind a block. */
  ghost predicate Linked(b: BlockIndex)
    decreases b.nHeight
  {
    if b.pprev == null then b.nHeight == 0 else b.nHeight == b.pprev.nHeight + 1 && Linked(b.pprev)
  }

  /** The block reached by following pprev down to a height. */
  ghost function Back(b: BlockIndex, height: nat): (r: BlockIndex)
    requires Linked(b) && height <= b.nHeight
    ensures Linked(r) && r.nHeight == height
    decreases b.nHeight
  {
    if height == b.nHeight then b else Back(b.pprev, height)
  }

  ghost predicate SkipOk(b: BlockIndex)
    requires Linked(b)
    reads b
  {
    b.pskip != null ==> b.nHeight > 0 && b.pskip == Back(b, GetSkipHeight(b.nHeight))
  }

  /** A set of blocks closed under pprev whose skip pointers are ancestors at the right height. */
  ghost predicate Tree(tree: set<BlockIndex>)
    reads tree
  {
    forall b :: b in tree ==> Linked(b) && (b.pprev != null ==> b.pprev in tree) && SkipOk(b)
  }

  /** Every block but a genesis has its skip pointer. */
  ghost predicate AllSkip(tree: set<BlockIndex>)
    reads tree
  {
    forall b :: b in tree && b.pprev != null ==> b.pskip != null
  }

  lemma TreeAt(tree: set<BlockIndex>, b: BlockIndex)
    requires Tree(tree) && b in tree
    ensures Linked(b) && (b.pprev != null ==> b.pprev in tree)
    ensures b.pskip != null ==> b.nHeight > 0 && b.pskip == Back(b, GetSkipHeight(b.nHeight))
  {}

  lemma BackOver(b: BlockIndex, h: nat)
    requires Linked(b) && h < b.nHeight
    ensures b.pprev != null && b.pprev.nHeight == b.nHeight - 1 && Linked(b.pprev) && Back(b.pprev, h) == Back(b, h)
  {}

  lemma HasSkip(tree: set<BlockIndex>, b: BlockIndex)
    requires b in tree && Linked(b) && b.nHeight > 0
    ensures AllSkip(tree) ==> b.pskip != null
  {}

  lemma {:induction false} BackBack(b: BlockIndex, h: nat, g: nat)
    requires Linked(b) && g <= h <= b.nHeight
    ensures Back(Back(b, h), g) == Back(b, g)
    decreases b.nHeight
  {
    if h < b.nHeight { BackBack(b.pprev, h, g); }
  }

  lemma {:induction false} BackStep(b: BlockIndex, h: nat)
    requires Linked(b) && 0 < h <= b.nHeight
    ensures Back(b, h).pprev == Back(b, h - 1)
    decreases b.nHeight
  {
    if h < b.nHeight { BackStep(b.pprev, h); }
  }

  lemma {:induction false} BackInTree(tree: set<BlockIndex>, b: BlockIndex, h: nat)
    requires Tree(tree) && b in tree && h <= b.nHeight
    ensures Back(b, h) in tree
    decreases b.nHeight
  {
    if h < b.nHeight { BackInTree(tree, b.pprev, h); }
  }

  ghost predicate IsAncestor(a: BlockIndex, b: BlockIndex)
    requires Linked(b)
  {
    a.nHeight <= b.nHeight && Back(b, a.nHeight) == a
  }

  /** r is the highest block that is an ancestor of both; null when they have no block in common. */
  ghost predicate IsLastCommon(r: BlockIndex?, a: BlockIndex, b: BlockIndex)
    requires Linked(a) && Linked(b)
  {
    && (r != null ==> IsAncestor(r, a) && IsAncestor(r, b))
    && forall h: nat {:trigger Back(a, h)} :: h <= a.nHeight && h <= b.nHeight && Back(a, h) == Back(b, h) ==> r != null && h <= r.nHeight
  }

  lemma LastCommonUnique(r: BlockIndex?, s: BlockIndex?, a: BlockIndex, b: BlockIndex)
    requires Linked(a) && Linked(b) && IsLastCommon(r, a, b) && IsLastCommon(s, a, b)
    ensures r == s
  {
    if r != null { assert Back(a, r.nHeight) == Back(b, r.nHeight); }
    if s != null { assert Back(a, s.nHeight) == Back(b, s.nHeight); }
  }

  lemma BackSelf(b: BlockIndex)
    requires Linked(b)
    ensures Back(b, b.nHeight) == b
  {
  }

  lemma {:induction false} BackZero(b: BlockIndex)
    requires Linked(b)
    ensures Back(b, 0).pprev == null
    decreases b.nHeight
  {
    if b.pprev != null { BackZero(b.pprev); }
  }

  lemma TreeLinked(tree: set<BlockIndex>, b: BlockIndex)
    requires Tree(tree) && b in tree
    ensures Linked(b)
  {
  }

  /** mapBlockIndex: every known header by hash. */
  class BlockMap {
    var entries: map<nat, BlockIndex>

    ghost function Blocks(): set<BlockIndex>
      reads this
    {
      entries.Values
    }

    ghost predicate Valid()
      reads this, Blocks()
    {
      Tree(Blocks()) && AllSkip(Blocks()) && forall k :: k in entries ==> entries[k].hash == k
    }

    constructor ()
      ensures Valid() && entries == map[]
    {
      entries := map[];
    }

    /** Adds a header under its parent, with its skip pointer; a known hash gives the known block. */
    method AddToBlockIndex(hash: nat, hashPrev: nat) returns (b: BlockIndex)
      requires Valid()
      modifies this
      ensures Valid() && entries == old(entries)[hash := b]
      ensures if hash in old(entries) then b == old(entries)[hash]
              else fresh(b) && b.pprev == (if hashPrev in old(entries) then old(entries)[hashPrev] else null)
    {
      if hash in entries {
        b := entries[hash];
        assert entries == entries[hash := b];
        return;
      }
      ghost var tree := Blocks();
      if hashPrev in entries {
        b := new BlockIndex(hash, entries[hashPrev]);
        b.BuildSkip(tree);
      } else {
        b := new BlockIndex(hash, null);
      }
      assert Tree(tree + {b}) && AllSkip(tree + {b});
      ValuesGrow(entries, hash, b);
      entries := entries[hash := b];
    }
  }

  lemma ValuesGrow(m: map<nat, BlockIndex>, k: nat, b: BlockIndex)
    requires k !in m
    ensures m[k := b].Values == m.Values + {b}
  {
    var n := m[k := b];
    forall x | x in m.Values + {b}
      ensures x in n.Values
    {
      if x in m.Values {
        var j :| j in m && m[j] == x;
        assert n[j] == x;
      } else {
        assert n[k] == x;
      }
    }
  }

  /** The two blocks have no ancestor in common above a height. */
  ghost predicate PartAbove(a: BlockIndex, b: BlockIndex, h: int)
    requires Linked(a) && Linked(b)
  {
    forall g: nat {:trigger Back(a, g)} :: h < g <= a.nHeight && g <= b.nHeight ==> Back(a, g) != Back(b, g)
  }

  lemma PartStart(a: BlockIndex, b: BlockIndex, h: int)
    requires Linked(a) && Linked(b) && (h >= a.nHeight || h >= b.nHeight)
    ensures PartAbove(a, b, h)
  {
  }

  lemma PartNext(a: BlockIndex, b: BlockIndex, h: nat)
    requires Linked(a) && Linked(b) && h <= a.nHeight && h <= b.nHeight
    requires PartAbove(a, b, h) && Back(a, h) != Back(b, h)
    ensures PartAbove(a, b, h - 1)
  {
  }

  lemma PartEnd(a: BlockIndex, b: BlockIndex, h: int, r: BlockIndex?)
    requires Linked(a) && Linked(b) && -1 <= h <= a.nHeight && h <= b.nHeight && PartAbove(a, b, h)
    requires if h < 0 then r == null else r == Back(a, h) == Back(b, h)
    ensures IsLastCommon(r, a, b)
  {
    hide Back, Linked;
  }

  /** Null when the two blocks do not even share their genesis; the assert at the end holds then too. */
  method LastCommonAncestor(a: BlockIndex, b: BlockIndex, ghost tree: set<BlockIndex>) returns (r: BlockIndex?)
    requires Tree(tree) && a in tree && b in tree
    ensures IsLastCommon(r, a, b)
  {
    hide FewSteps, AllSkip, Back, Linked, Tree, SkipOk, PartAbove, IsLastCommon;
    TreeLinked(tree, a);
    TreeLinked(tree, b);
    BackSelf(a);
    BackSelf(b);
    var pa: BlockIndex?, pb: BlockIndex? := a, b;
    if a.nHeight > b.nHeight {
      var ancestor, _ := a.GetAncestor(b.nHeight, tree);
      pa := ancestor;
    } else if b.nHeight > a.nHeight {
      var ancestor, _ := b.GetAncestor(a.nHeight, tree);
      pb := ancestor;
    }
    ghost var h: int := Min(a.nHeight, b.nHeight);
    PartStart(a, b, h);
    while pa != pb && pa != null && pb != null
      invariant -1 <= h <= a.nHeight && h <= b.nHeight
      invariant if h < 0 then pa == null && pb == null else pa == Back(a, h) && pb == Back(b, h)
      invariant PartAbove(a, b, h)
      decreases h
    {
      PartNext(a, b, h);
      if h > 0 {
        BackStep(a, h);
        BackStep(b, h);
      } else {
        BackZero(a);
        BackZero(b);
      }
      pa := pa.pprev;
      pb := pb.pprev;
      h := h - 1;
    }
    assert pa == pb;
    PartEnd(a, b, h, pa);
    return pa;
  }

  // ---------------------------------------------------------------- the active chain

  /** The path from genesis to a block. */
  ghost function Path(b: BlockIndex): (s: seq<BlockIndex?>)
    requires Linked(b)
    ensures |s| == b.nHeight + 1
    ensures forall h {:trigger s[h]} :: 0 <= h <= b.nHeight ==> s[h] == Back(b, h)
  {
    seq(b.nHeight + 1, h requires 0 <= h <= b.nHeight => Back(b, h))
  }

  ghost function PathOrEmpty(b: BlockIndex?): seq<BlockIndex?>
    requires b != null ==> Linked(b)
  {
    if b == null then [] else Path(b)
  }

  /** resize: cut off the end, or add null entries. */
  function Resized(s: seq<BlockIndex?>, n: nat): (r: seq<BlockIndex?>)
    ensures |r| == n && forall i {:trigger r[i]} :: 0 <= i < n ==> r[i] == if i < |s| then s[i] else null
  {
    if n <= |s| then s[..n] else s + seq(n - |s|, _ => null)
  }

  class ActiveChain {
    var vChain: seq<BlockIndex?>

    /** The entries are exactly the path from genesis to the last of them. */
    ghost predicate Valid(tree: set<BlockIndex>)
      reads this, tree
    {
      && Tree(tree)
      && (vChain != [] ==> TipOf(vChain) != null && TipOf(vChain) in tree && vChain == Path(TipOf(vChain)))
    }

    constructor ()
      ensures vChain == []
    {
      vChain := [];
    }

    function Tip(): BlockIndex?
      reads this
    {
      TipOf(vChain)
    }

    function Height(): int
      reads this
    {
      |vChain| - 1
    }

    function At(h: int): BlockIndex?
      reads this
    {
      if h < 0 || h >= |vChain| then null else vChain[h]
    }

    predicate Contains(b: BlockIndex)
      reads this
    {
      At(b.nHeight) == b
    }

    /** Containing a block means having it on the path to the tip. */
    lemma ContainsIff(b: BlockIndex, tree: set<BlockIndex>)
      requires Valid(tree)
      ensures Contains(b) <==> Tip() != null && IsAncestor(b, Tip())
    {
    }

    /** Adding blocks to the tree leaves the chain valid. */
    lemma ValidInLargerTree(tree: set<BlockIndex>, larger: set<BlockIndex>)
      requires Valid(tree) && tree <= larger && Tree(larger)
      ensures Valid(larger)
    {
    }

    /**
     Makes a block the tip. The loop stops at the first entry that is already right, and the
     result is still the whole path.
     */
    method SetTip(pindex: BlockIndex?, ghost tree: set<BlockIndex>)
      requires Valid(tree) && (pindex != null ==> pindex in tree)
      modifies this
      ensures Valid(tree) && Tip() == pindex && vChain == PathOrEmpty(pindex)
    {
      if pindex == null {
        vChain := [];
        return;
      }
      hide Back, Linked, Tree, SkipOk, Replaced, Path, Resized;
      TreeLinked(tree, pindex);
      BackSelf(pindex);
      BackZero(pindex);
      ghost var was := vChain;
      ReplacedStart(was, pindex);
      vChain := Resized(vChain, pindex.nHeight + 1);
      var p: BlockIndex? := pindex;
      ghost var h: int := pindex.nHeight;
      while p != null && vChain[p.nHeight] != p
        invariant -1 <= h <= pindex.nHeight && |vChain| == pindex.nHeight + 1
        invariant if h < 0 then p == null else p == Back(pindex, h)
        invariant Replaced(was, vChain, pindex, h)
        decreases h
      {
        ReplacedStep(was, vChain, pindex, h);
        vChain := vChain[p.nHeight := p];
        if h > 0 { BackStep(pindex, h); }
        p := p.pprev;
        h := h - 1;
      }
      ReplacedEnd(was, vChain, pindex, h, tree);
    }

    /** The highest block of the chain that is an ancestor of the given one. */
    method FindFork(pindex: BlockIndex?, ghost tree: set<BlockIndex>) returns (r: BlockIndex?)
      requires Valid(tree) && (pindex != null ==> pindex in tree)
      ensures pindex == null || Tip() == null ==> r == null
      ensures pindex != null && Tip() != null ==> IsLastCommon(r, pindex, Tip())
    {
      if pindex == null {
        return null;
      }
      hide FewSteps, AllSkip, Back, Linked, Tree, SkipOk, PartAbove, IsLastCommon, Path;
      TreeLinked(tree, pindex);
      BackSelf(pindex);
      var p: BlockIndex? := pindex;
      if pindex.nHeight > Height() {
        var ancestor, _ := pindex.GetAncestor(Height(), tree);
        p := ancestor;
      }
      ghost var tip := Tip();
      ghost var h: int := if p == null then -1 else p.nHeight;
      if tip != null { PartStart(pindex, tip, h); }
      while p != null && !Contains(p)
        invariant -1 <= h <= pindex.nHeight && h <= Height()
        invariant if h < 0 then p == null else p == Back(pindex, h)
        invariant tip != null ==> PartAbove(pindex, tip, h)
        decreases h
      {
        PartNext(pindex, tip, h);
        if h > 0 { BackStep(pindex, h); } else { BackZero(pindex); }
        p := p.pprev;
        h := h - 1;
      }
      if tip != null { PartEnd(pindex, tip, h, p); }
      return p;
    }

    /**
     Block hashes from a block (or the tip) back to genesis: eleven single steps, then steps that
     double. They are ancestors at strictly falling heights, and logarithmically many.
     */
    method GetLocator(pindex: BlockIndex?, ghost tree: set<BlockIndex>) returns (vHave: seq<nat>)
      requires Valid(tree) && (pindex != null ==> pindex in tree)
      ensures pindex == null && Tip() == null ==> vHave == []
      ensures var start := if pindex == null then Tip() else pindex;
              start != null ==>
                && |vHave| > 0 && LocatorHeight(start.nHeight, |vHave| - 1) == 0
                && Located(start, vHave) && Falling(start.nHeight, |vHave| - 1)
                && |vHave| <= 12 + CeilLog2(start.nHeight + 1)
    {
      hide Back, Linked, Tree, SkipOk, Path, LocatorHeight, CeilLog2, Located, Falling, Pow2;
      var nStep := 1;
      vHave := [];
      var p: BlockIndex? := pindex;
      if p == null {
        p := Tip();
      }
      if p == null {
        return;
      }
      ghost var start: BlockIndex := p;
      ghost var height: nat := p.nHeight;
      TreeLinked(tree, start);
      BackSelf(start);
      LocatorFirst(start);
      while p != null
        invariant p != null && p in tree && p == Back(start, LocatorHeight(height, |vHave|))
        invariant nStep == if |vHave| <= 10 then 1 else Pow2(|vHave| - 10)
        invariant Located(start, vHave) && Falling(height, |vHave|)
        decreases p.nHeight
      {
        ghost var n := |vHave|;
        LocatedNext(start, vHave);
        vHave := vHave + [p.hash];
        if p.nHeight == 0 {
          break;
        }
        LocatorStep(height, n);
        p := StepBack(p, nStep, start, tree);
        if |vHave| > 10 {
          nStep := nStep * 2;
        }
      }
      LocatorBound(height, |vHave|);
    }

    /** The ancestor a number of steps back, or genesis: from the chain's index when the block is in it. */
    method StepBack(p: BlockIndex, nStep: nat, ghost start: BlockIndex, ghost tree: set<BlockIndex>) returns (r: BlockIndex)
      requires Valid(tree) && p in tree && start in tree
      requires Linked(start) && IsAncestor(p, start)
      ensures r in tree && r == Back(start, Max(p.nHeight - nStep, 0))
    {
      var nHeight := Max(p.nHeight - nStep, 0);
      BackBack(start, p.nHeight, nHeight);
      BackInTree(tree, p, nHeight);
      if Contains(p) {
        BackBack(Tip(), p.nHeight, nHeight);
        r := At(nHeight);
      } else {
        var ancestor, _ := p.GetAncestor(nHeight, tree);
        r := ancestor;
      }
    }
  }

  function TipOf(vChain: seq<BlockIndex?>): BlockIndex? {
    if vChain == [] then null else vChain[|vChain| - 1]
  }

  /** An old path that already has a block at its height agrees with the new path below it. */
  lemma SharedPrefix(was: seq<BlockIndex?>, pindex: BlockIndex, h: nat, tree: set<BlockIndex>)
    requires Tree(tree) && pindex in tree && h <= pindex.nHeight && h < |was|
    requires TipOf(was) != null && TipOf(was) in tree && was == Path(TipOf(was))
    requires was[h] == Back(pindex, h)
    ensures forall i {:trigger was[i]} :: 0 <= i <= h ==> was[i] == Back(pindex, i)
  {
    forall i {:trigger was[i]} | 0 <= i <= h
      ensures was[i] == Back(pindex, i)
    {
      BackBack(pindex, h, i);
      BackBack(TipOf(was), h, i);
    }
  }

  /** The entries above h are on the new path; those up to h are as they were, or null. */
  ghost predicate Replaced(was: seq<BlockIndex?>, now: seq<BlockIndex?>, pindex: BlockIndex, h: int)
    requires Linked(pindex)
  {
    && |now| == pindex.nHeight + 1
    && (forall i {:trigger now[i]} :: 0 <= i < |now| ==> now[i] == if i > h then Back(pindex, i) else if i < |was| then was[i] else null)
  }

  lemma ReplacedStart(was: seq<BlockIndex?>, pindex: BlockIndex)
    requires Linked(pindex)
    ensures Replaced(was, Resized(was, pindex.nHeight + 1), pindex, pindex.nHeight)
  {
    hide Linked;
  }

  lemma ReplacedStep(was: seq<BlockIndex?>, now: seq<BlockIndex?>, pindex: BlockIndex, h: nat)
    requires Linked(pindex) && h <= pindex.nHeight && Replaced(was, now, pindex, h)
    ensures Replaced(was, now[h := Back(pindex, h)], pindex, h - 1)
  {
    hide Linked, Back;
  }

  /** Stopping at an entry that is already right leaves the whole new path. */
  lemma ReplacedEnd(was: seq<BlockIndex?>, now: seq<BlockIndex?>, pindex: BlockIndex, h: int, tree: set<BlockIndex>)
    requires Tree(tree) && pindex in tree && -1 <= h <= pindex.nHeight && Replaced(was, now, pindex, h)
    requires was != [] ==> TipOf(was) != null && TipOf(was) in tree && was == Path(TipOf(was))
    requires h >= 0 ==> now[h] == Back(pindex, h)
    ensures now == Path(pindex) && TipOf(now) == pindex
  {
    BackSelf(pindex);
    if h >= 0 {
      assert now[h] == was[h];
      SharedPrefix(was, pindex, h, tree);
    }
    hide Linked, Back, Tree;
    assert now == Path(pindex);
  }

  /** The height of the locator's i-th entry. */
  function LocatorHeight(height: nat, i: nat): (r: nat)
    ensures r <= height
  {
    if i <= 10 then Max(height - i, 0) else Max(height - 9 - Pow2(i - 10), 0)
  }

  /** The hashes of the ancestors at the locator's heights. */
  ghost predicate Located(start: BlockIndex, vHave: seq<nat>)
    requires Linked(start)
  {
    forall i {:trigger vHave[i]} :: 0 <= i < |vHave| ==> vHave[i] == Back(start, LocatorHeight(start.nHeight, i)).hash
  }

  /** The first n + 1 heights strictly fall. */
  ghost predicate Falling(height: nat, n: nat) {
    forall i :: 0 <= i < n ==> LocatorHeight(height, i + 1) < LocatorHeight(height, i)
  }

  lemma LocatedNext(start: BlockIndex, vHave: seq<nat>)
    requires Linked(start) && Located(start, vHave)
    ensures Located(start, vHave + [Back(start, LocatorHeight(start.nHeight, |vHave|)).hash])
  {
    hide Back, Linked, LocatorHeight;
  }

  lemma LocatorFirst(start: BlockIndex)
    requires Linked(start)
    ensures LocatorHeight(start.nHeight, 0) == start.nHeight && Located(start, []) && Falling(start.nHeight, 0)
  {
  }

  lemma LocatorStep(height: nat, n: nat)
    requires LocatorHeight(height, n) > 0 && Falling(height, n)
    ensures LocatorHeight(height, n + 1) < LocatorHeight(height, n) && Falling(height, n + 1)
    ensures n > 9 ==> Pow2(n - 10) * 2 == Pow2(n - 9)
    ensures n == 10 ==> Pow2(n - 9) == 2
    ensures LocatorHeight(height, n + 1) == Max(LocatorHeight(height, n) - if n <= 10 then 1 else Pow2(n - 10), 0)
  {
  }

  function CeilLog2(n: nat): (k: nat)
    requires n > 0
    ensures n <= Pow2(k) && (k > 0 ==> Pow2(k - 1) < n)
  {
    if n == 1 then 0 else 1 + CeilLog2((n + 1) / 2)
  }

  lemma LocatorBound(height: nat, n: nat)
    requires n > 0 && Falling(height, n - 1)
    ensures n <= 12 + CeilLog2(height + 1)
  {
    if n > 12 {
      assert LocatorHeight(height, n - 2 + 1) < LocatorHeight(height, n - 2);
      var k := CeilLog2(height + 1);
      if n - 12 > k { Pow2Monotone(k, n - 12); assert false; }
    }
  }

}
