/**
 Which blocks to request next from a peer (FindNextBlocksToDownload in src/net_processing.cpp):
 the batched walk up the peer's chain against a scan one block at a time.
 */
module FetchPlan {
  import opened Basics
  import opened Chain

  const BLOCK_DOWNLOAD_WINDOW: nat := 1024

  /** What is known about blocks while the peer's chain is scanned. */
  datatype Known = Known(
    refused: set<BlockIndex>,     // invalid, or not to be had from this peer
    have: set<BlockIndex>,        // data on disk, or part of the active chain
    connected: set<BlockIndex>,   // all data back to genesis was received
    inFlight: map<nat, nat>)      // block hash to the peer it is in flight from

  datatype Scan = Scan(blocks: seq<BlockIndex>, lastCommon: BlockIndex, waitingFor: int, staller: int, stopped: bool)

  datatype Goal = Goal(known: Known, node: int, count: nat, windowEnd: int)

  /** One block of the scan. */
  function Step(g: Goal, s: Scan, b: BlockIndex): Scan {
    if s.stopped then s
    else if b in g.known.refused then s.(stopped := true)
    else if b in g.known.have then
      if b in g.known.connected then s.(lastCommon := b) else s
    else if b.hash !in g.known.inFlight then
      if b.nHeight > g.windowEnd then
        s.(staller := if s.blocks == [] && s.waitingFor != g.node then s.waitingFor else s.staller, stopped := true)
      else
        s.(blocks := s.blocks + [b], stopped := |s.blocks| + 1 == g.count)
    else if s.waitingFor == -1 then s.(waitingFor := g.known.inFlight[b.hash])
    else s
  }

  /** The scan of the blocks above `from` up to a height on the path to `best`. */
  ghost function ScanTo(g: Goal, best: BlockIndex, from: BlockIndex, height: nat): Scan
    requires Linked(best) && from.nHeight <= height <= best.nHeight
    decreases height
  {
    if height == from.nHeight then Scan([], from, -1, -1, false)
    else Step(g, ScanTo(g, best, from, height - 1), Back(best, height))
  }

  ghost predicate Missing(g: Goal, b: BlockIndex) {
    b !in g.known.have && b.hash !in g.known.inFlight
  }

  /**
   The scan asks for blocks on the peer's chain, in rising order, inside the window, that are neither
   here nor in flight, and for no more than it was told.
   */
  ghost predicate Sound(g: Goal, best: BlockIndex, from: BlockIndex, height: nat, s: Scan)
    requires Linked(best) && height <= best.nHeight
  {
    && |s.blocks| <= g.count
    && (forall i {:trigger s.blocks[i]} :: 0 <= i < |s.blocks| ==>
          var b := s.blocks[i];
          && from.nHeight < b.nHeight <= height && b.nHeight <= g.windowEnd && IsAncestor(b, best)
          && Missing(g, b) && b !in g.known.refused)
    && (forall i, j :: 0 <= i < j < |s.blocks| ==> s.blocks[i].nHeight < s.blocks[j].nHeight)
    && (s.lastCommon == from ||
        (IsAncestor(s.lastCommon, best) && from.nHeight < s.lastCommon.nHeight <= height && Connected(g, s.lastCommon)))
  }

  predicate Connected(g: Goal, b: BlockIndex) {
    b in g.known.have && b in g.known.connected
  }

  /** The last common block is the highest connected one that was scanned. */
  ghost predicate LastCommonOk(g: Goal, best: BlockIndex, from: BlockIndex, height: nat, s: Scan)
    requires Linked(best) && height <= best.nHeight
  {
    !s.stopped ==> forall h {:trigger Back(best, h)} :: from.nHeight < h <= height && Connected(g, Back(best, h)) ==> h <= s.lastCommon.nHeight
  }

  /** Nothing missing was passed over: the blocks asked for are the lowest missing ones. */
  ghost predicate Complete(g: Goal, best: BlockIndex, from: BlockIndex, height: nat, s: Scan)
    requires Linked(best) && height <= best.nHeight
  {
    && (s.stopped ==> |s.blocks| == g.count || Blocked(g, best, from, height, s))
    && (forall h {:trigger Back(best, h)} :: from.nHeight < h <= height && Missing(g, Back(best, h)) ==> Taken(s, Back(best, h)))
  }

  /** The block was asked for, or the scan had stopped with lower ones. */
  ghost predicate Taken(s: Scan, b: BlockIndex) {
    b in s.blocks || (s.stopped && forall i {:trigger s.blocks[i]} :: 0 <= i < |s.blocks| ==> s.blocks[i].nHeight < b.nHeight)
  }

  /** The scan met a refused block, or a missing block beyond the window. */
  ghost predicate Blocked(g: Goal, best: BlockIndex, from: BlockIndex, height: nat, s: Scan)
    requires Linked(best) && height <= best.nHeight
  {
    exists h {:trigger Back(best, h)} :: from.nHeight < h <= height &&
      (Back(best, h) in g.known.refused || (Missing(g, Back(best, h)) && h > g.windowEnd))
  }

  /** Not here, and in flight from somebody. */
  predicate Awaited(g: Goal, b: BlockIndex) {
    b !in g.known.have && b.hash in g.known.inFlight
  }

  ghost predicate NoneAwaited(g: Goal, best: BlockIndex, from: BlockIndex, height: int)
    requires Linked(best) && height <= best.nHeight
  {
    forall h {:trigger Back(best, h)} :: from.nHeight < h <= height ==> !Awaited(g, Back(best, h))
  }

  ghost predicate NoneRefused(g: Goal, best: BlockIndex, from: BlockIndex, height: int)
    requires Linked(best) && height <= best.nHeight
  {
    forall h {:trigger Back(best, h)} :: from.nHeight < h <= height ==> Back(best, h) !in g.known.refused
  }

  /** The scan got to a missing block just beyond the window. */
  ghost predicate WindowEnded(g: Goal, best: BlockIndex, from: BlockIndex, height: nat)
    requires Linked(best) && height <= best.nHeight
  {
    height > g.windowEnd && NoneRefused(g, best, from, height) && Missing(g, Back(best, height))
  }

  /** The peer the lowest awaited block is wanted from. */
  ghost predicate IsFirstAwaited(g: Goal, best: BlockIndex, from: BlockIndex, height: nat, peer: int)
    requires Linked(best) && height <= best.nHeight
  {
    exists h {:trigger Back(best, h)} :: from.nHeight < h <= height && Awaited(g, Back(best, h)) &&
      g.known.inFlight[Back(best, h).hash] == peer && NoneAwaited(g, best, from, h - 1)
  }

  /**
   Before the window ends: who is waited for is the peer of the lowest awaited block, nobody is a
   staller, and a scan that stopped without a block met a refused one.
   */
  ghost predicate WaitingOk(g: Goal, best: BlockIndex, from: BlockIndex, height: nat, s: Scan)
    requires Linked(best) && height <= best.nHeight
  {
    && s.staller == -1
    && (!s.stopped ==> NoneRefused(g, best, from, height))
    && (s.stopped && s.blocks == [] ==> !NoneRefused(g, best, from, height))
    && (s.waitingFor != -1 ==> IsFirstAwaited(g, best, from, height, s.waitingFor))
    && (s.waitingFor == -1 && !s.stopped ==> NoneAwaited(g, best, from, height))
  }

  ghost predicate NoneMissing(g: Goal, best: BlockIndex, from: BlockIndex, height: int)
    requires Linked(best) && height <= best.nHeight
  {
    forall h {:trigger Back(best, h)} :: from.nHeight < h <= height ==> !Missing(g, Back(best, h))
  }

  /**
   The window ends at a missing block with nothing missing before it, and the lowest awaited block is
   in flight from another peer.
   */
  ghost predicate Stalls(g: Goal, best: BlockIndex, from: BlockIndex, height: nat, peer: int)
    requires Linked(best) && height <= best.nHeight
  {
    && WindowEnded(g, best, from, height) && NoneMissing(g, best, from, height - 1)
    && IsFirstAwaited(g, best, from, height, peer) && peer != g.node
  }

  /** A staller is named exactly when there is one. */
  ghost predicate StallerOk(g: Goal, best: BlockIndex, from: BlockIndex, height: nat, s: Scan)
    requires Linked(best) && height <= best.nHeight
  {
    s.staller >= -1 && forall p: nat :: s.staller == p <==> Stalls(g, best, from, height, p)
  }

  lemma {:induction false} ScanIsSound(g: Goal, best: BlockIndex, from: BlockIndex, height: nat)
    requires Linked(best) && from.nHeight <= height <= best.nHeight && g.count > 0
    ensures Sound(g, best, from, height, ScanTo(g, best, from, height))
    ensures !ScanTo(g, best, from, height).stopped ==> |ScanTo(g, best, from, height).blocks| < g.count
    decreases height
  {
    if height > from.nHeight {
      ScanIsSound(g, best, from, height - 1);
      SoundStep(g, best, from, height, ScanTo(g, best, from, height - 1));
    }
  }

  lemma SoundStep(g: Goal, best: BlockIndex, from: BlockIndex, height: nat, s: Scan)
    requires Linked(best) && from.nHeight < height <= best.nHeight
    requires Sound(g, best, from, height - 1, s) && (!s.stopped ==> |s.blocks| < g.count)
    ensures var s' := Step(g, s, Back(best, height));
            Sound(g, best, from, height, s') && (!s'.stopped ==> |s'.blocks| < g.count)
  {
    hide Linked, Back;
  }

  lemma {:induction false} ScanIsComplete(g: Goal, best: BlockIndex, from: BlockIndex, height: nat)
    requires Linked(best) && from.nHeight <= height <= best.nHeight && g.count > 0
    ensures Complete(g, best, from, height, ScanTo(g, best, from, height))
    decreases height
  {
    if height > from.nHeight {
      ScanIsComplete(g, best, from, height - 1);
      ScanIsSound(g, best, from, height - 1);
      CompleteStep(g, best, from, height, ScanTo(g, best, from, height - 1));
    }
  }

  lemma CompleteStep(g: Goal, best: BlockIndex, from: BlockIndex, height: nat, s: Scan)
    requires Linked(best) && from.nHeight < height <= best.nHeight && g.count > 0
    requires Complete(g, best, from, height - 1, s) && Sound(g, best, from, height - 1, s)
    ensures Complete(g, best, from, height, Step(g, s, Back(best, height)))
  {
    hide Linked, Back;
    var b := Back(best, height);
    var s' := Step(g, s, b);
    if s.stopped && |s.blocks| != g.count {
      var h :| from.nHeight < h <= height - 1 && (Back(best, h) in g.known.refused || (Missing(g, Back(best, h)) && h > g.windowEnd));
    }
    forall h {:trigger Back(best, h)} | from.nHeight < h <= height && Missing(g, Back(best, h))
      ensures Taken(s', Back(best, h))
    {
      if h < height {
        TakenStays(g, s, b, Back(best, h));
      } else {
        assert b in s'.blocks || s'.blocks == s.blocks;
      }
    }
  }

  lemma TakenStays(g: Goal, s: Scan, b: BlockIndex, c: BlockIndex)
    requires Taken(s, c)
    ensures Taken(Step(g, s, b), c)
  {
  }

  lemma {:induction false} ScanWaits(g: Goal, best: BlockIndex, from: BlockIndex, height: nat)
    requires Linked(best) && from.nHeight <= height <= best.nHeight && height <= g.windowEnd
    ensures WaitingOk(g, best, from, height, ScanTo(g, best, from, height))
    decreases height
  {
    if height > from.nHeight {
      ScanWaits(g, best, from, height - 1);
      WaitingStep(g, best, from, height, ScanTo(g, best, from, height - 1));
    }
  }

  lemma WaitingStep(g: Goal, best: BlockIndex, from: BlockIndex, height: nat, s: Scan)
    requires Linked(best) && from.nHeight < height <= best.nHeight && height <= g.windowEnd
    requires WaitingOk(g, best, from, height - 1, s)
    ensures WaitingOk(g, best, from, height, Step(g, s, Back(best, height)))
  {
    hide Linked, Back, NoneAwaited, NoneRefused, IsFirstAwaited;
    var b := Back(best, height);
    BackHeight(best, height);
    RefusedNext(g, best, from, height);
    AwaitedNext(g, best, from, height, s.waitingFor);
    if s.waitingFor == -1 && !s.stopped && Awaited(g, b) {
      AwaitedFirst(g, best, from, height);
    }
  }

  lemma BackHeight(best: BlockIndex, h: nat)
    requires Linked(best) && h <= best.nHeight
    ensures Back(best, h).nHeight == h
  {
  }

  lemma RefusedNext(g: Goal, best: BlockIndex, from: BlockIndex, height: nat)
    requires Linked(best) && from.nHeight < height <= best.nHeight
    ensures NoneRefused(g, best, from, height) <==> NoneRefused(g, best, from, height - 1) && Back(best, height) !in g.known.refused
  {
    hide Linked, Back;
  }

  lemma AwaitedNext(g: Goal, best: BlockIndex, from: BlockIndex, height: nat, peer: int)
    requires Linked(best) && from.nHeight < height <= best.nHeight
    ensures NoneAwaited(g, best, from, height) <==> NoneAwaited(g, best, from, height - 1) && !Awaited(g, Back(best, height))
    ensures IsFirstAwaited(g, best, from, height - 1, peer) ==> IsFirstAwaited(g, best, from, height, peer)
  {
    hide Linked, Back;
  }

  lemma AwaitedFirst(g: Goal, best: BlockIndex, from: BlockIndex, height: nat)
    requires Linked(best) && from.nHeight < height <= best.nHeight
    requires NoneAwaited(g, best, from, height - 1) && Awaited(g, Back(best, height))
    ensures IsFirstAwaited(g, best, from, height, g.known.inFlight[Back(best, height).hash])
  {
    hide Linked, Back;
  }

  /** The scan up to one block beyond the window, or to the end of the peer's chain. */
  lemma ScanNamesStaller(g: Goal, best: BlockIndex, from: BlockIndex, height: nat)
    requires Linked(best) && from.nHeight < height <= best.nHeight && height <= g.windowEnd + 1 && from.nHeight <= g.windowEnd
    requires g.count > 0
    ensures StallerOk(g, best, from, height, ScanTo(g, best, from, height))
  {
    ScanWaits(g, best, from, height - 1);
    if height <= g.windowEnd {
      ScanWaits(g, best, from, height);
    } else {
      var s := ScanTo(g, best, from, height - 1);
      ScanIsSound(g, best, from, height - 1);
      ScanIsComplete(g, best, from, height - 1);
      EmptyIffNoneMissing(g, best, from, height - 1, s);
      StallerStep(g, best, from, height, s);
    }
  }

  lemma EmptyIffNoneMissing(g: Goal, best: BlockIndex, from: BlockIndex, height: nat, s: Scan)
    requires Linked(best) && height <= best.nHeight && Sound(g, best, from, height, s) && Complete(g, best, from, height, s)
    ensures s.blocks != [] ==> !NoneMissing(g, best, from, height)
    ensures s.blocks == [] && !s.stopped ==> NoneMissing(g, best, from, height)
  {
    hide Linked, Back;
    if s.blocks != [] {
      var b := s.blocks[0];
      assert Back(best, b.nHeight) == b;
    }
  }

  lemma FirstAwaitedUnique(g: Goal, best: BlockIndex, from: BlockIndex, height: nat, p: int, q: int)
    requires Linked(best) && height <= best.nHeight
    requires IsFirstAwaited(g, best, from, height, p) && IsFirstAwaited(g, best, from, height, q)
    ensures p == q && p >= 0
  {
    hide Linked, Back;
  }

  lemma NoFirstAwaited(g: Goal, best: BlockIndex, from: BlockIndex, height: nat, p: int)
    requires Linked(best) && height <= best.nHeight && NoneAwaited(g, best, from, height)
    ensures !IsFirstAwaited(g, best, from, height, p)
  {
    hide Linked, Back;
  }

  lemma StallerStep(g: Goal, best: BlockIndex, from: BlockIndex, height: nat, s: Scan)
    requires Linked(best) && from.nHeight < height <= best.nHeight && height == g.windowEnd + 1
    requires WaitingOk(g, best, from, height - 1, s)
    requires s.blocks != [] ==> !NoneMissing(g, best, from, height - 1)
    requires s.blocks == [] && !s.stopped ==> NoneMissing(g, best, from, height - 1)
    ensures StallerOk(g, best, from, height, Step(g, s, Back(best, height)))
  {
    hide Linked, Back, NoneAwaited, NoneRefused, NoneMissing, IsFirstAwaited;
    var b := Back(best, height);
    BackHeight(best, height);
    RefusedNext(g, best, from, height);
    AwaitedNext(g, best, from, height, s.waitingFor);
    if s.waitingFor != -1 {
      FirstAwaitedUnique(g, best, from, height, s.waitingFor, s.waitingFor);
    }
    forall p: nat ensures Step(g, s, b).staller == p <==> Stalls(g, best, from, height, p) {
      if Missing(g, b) && !s.stopped {
        if s.waitingFor == -1 {
          NoFirstAwaited(g, best, from, height, p);
        } else if IsFirstAwaited(g, best, from, height, p) {
          FirstAwaitedUnique(g, best, from, height, s.waitingFor, p);
        }
      }
    }
  }

  lemma {:induction false} ScanKeepsLastCommon(g: Goal, best: BlockIndex, from: BlockIndex, height: nat)
    requires Linked(best) && from.nHeight <= height <= best.nHeight
    ensures LastCommonOk(g, best, from, height, ScanTo(g, best, from, height))
    ensures ScanTo(g, best, from, height).lastCommon.nHeight <= height
    decreases height
  {
    if height > from.nHeight {
      ScanKeepsLastCommon(g, best, from, height - 1);
      BackHeight(best, height);
      hide Linked, Back;
    }
  }

  lemma {:induction false} StoppedStays(g: Goal, best: BlockIndex, from: BlockIndex, height: nat, end: nat)
    requires Linked(best) && from.nHeight <= height <= end <= best.nHeight && ScanTo(g, best, from, height).stopped
    ensures ScanTo(g, best, from, end) == ScanTo(g, best, from, height)
    decreases end
  {
    if height < end { StoppedStays(g, best, from, height, end - 1); }
  }

  /** The next blocks of the peer's chain, read downwards from one ancestor. */
  method FetchChunk(best: BlockIndex, from: nat, n: nat, ghost tree: set<BlockIndex>) returns (chunk: seq<BlockIndex>)
    requires Tree(tree) && best in tree && 0 < n && from + n <= best.nHeight
    ensures |chunk| == n && forall i {:trigger chunk[i]} :: 0 <= i < n ==> chunk[i] == Back(best, from + 1 + i)
  {
    hide Back, Linked, Tree, SkipOk;
    TreeLinked(tree, best);
    var top, _ := best.GetAncestor(from + n, tree);
    var vToFetch := new BlockIndex[n](_ => top);
    var i := n - 1;
    while i > 0
      invariant 0 <= i < n
      invariant forall j :: i <= j < n ==> vToFetch[j] == Back(best, from + 1 + j)
    {
      BackStep(best, from + 1 + i);
      vToFetch[i - 1] := vToFetch[i].pprev;
      i := i - 1;
    }
    chunk := vToFetch[..];
  }

  lemma FromBelow(from: BlockIndex, best: BlockIndex)
    requires Linked(best) && IsAncestor(from, best) && from != best
    ensures from.nHeight < best.nHeight
  {
    BackSelf(best);
  }

  /** What the plan for a peer is, from the last common block with it. */
  ghost predicate Planned(known: Known, node: int, count: nat, best: BlockIndex, from: BlockIndex, s: Scan)
    requires Linked(best) && from.nHeight <= best.nHeight
  {
    if from == best then s == Scan([], from, -1, -1, false)
    else
      var g := Goal(known, node, count, from.nHeight + BLOCK_DOWNLOAD_WINDOW);
      var end := Min(best.nHeight, g.windowEnd + 1);
      && s == ScanTo(g, best, from, end)
      && Sound(g, best, from, end, s) && Complete(g, best, from, end, s)
      && StallerOk(g, best, from, end, s) && LastCommonOk(g, best, from, end, s)
  }

  /** At most `count` blocks to request from a peer whose best block is `best`, above the last common one. */
  method FindNextBlocks(known: Known, node: int, count: nat, best: BlockIndex, from: BlockIndex, ghost tree: set<BlockIndex>)
    returns (s: Scan)
    requires Tree(tree) && best in tree && from in tree && IsAncestor(from, best) && count > 0
    ensures Planned(known, node, count, best, from, s)
    ensures |s.blocks| <= count
  {
    hide Back, Linked, Tree, SkipOk, Step, Sound, Complete, StallerOk, LastCommonOk;
    s := Scan([], from, -1, -1, false);
    if from == best { return; }
    TreeLinked(tree, best);
    var windowEnd := from.nHeight + BLOCK_DOWNLOAD_WINDOW;
    var maxHeight := Min(best.nHeight, windowEnd + 1);
    var g := Goal(known, node, count, windowEnd);
    FromBelow(from, best);
    PlanHolds(g, best, from, maxHeight);
    var walk := from.nHeight;
    while walk < maxHeight
      invariant from.nHeight <= walk <= maxHeight && s == ScanTo(g, best, from, walk) && !s.stopped
    {
      SoundCount(g, best, from, walk);
      var n := Min(maxHeight - walk, Max(count - |s.blocks|, 128));
      var chunk := FetchChunk(best, walk, n, tree);
      var i := 0;
      while i < n
        invariant 0 <= i <= n && s == ScanTo(g, best, from, walk + i) && !s.stopped
      {
        s := Step(g, s, chunk[i]);
        i := i + 1;
        if s.stopped {
          StoppedStays(g, best, from, walk + i, maxHeight);
          return;
        }
      }
      walk := walk + n;
    }
  }

  lemma SoundCount(g: Goal, best: BlockIndex, from: BlockIndex, height: nat)
    requires Linked(best) && from.nHeight <= height <= best.nHeight && g.count > 0
    ensures |ScanTo(g, best, from, height).blocks| <= g.count
  {
    ScanIsSound(g, best, from, height);
  }

  lemma PlanHolds(g: Goal, best: BlockIndex, from: BlockIndex, end: nat)
    requires Linked(best) && from.nHeight < end <= best.nHeight && g.count > 0
    requires end <= g.windowEnd + 1 && from.nHeight <= g.windowEnd
    ensures var s := ScanTo(g, best, from, end);
            && |s.blocks| <= g.count
            && Sound(g, best, from, end, s) && Complete(g, best, from, end, s)
            && StallerOk(g, best, from, end, s) && LastCommonOk(g, best, from, end, s)
  {
    SoundCount(g, best, from, end);
    ScanIsSound(g, best, from, end);
    ScanIsComplete(g, best, from, end);
    ScanNamesStaller(g, best, from, end);
    ScanKeepsLastCommon(g, best, from, end);
  }

  // ---------------------------------------------------------------- which peer, and from where

  /** Every block proves one unit of work, so the work of a chain is its length. */
  function ChainWork(b: BlockIndex): nat { b.nHeight + 1 }

  /** The peer has a chain worth fetching from. */
  predicate Interesting(best: BlockIndex?, tip: BlockIndex, nMinimumChainWork: nat) {
    best != null && ChainWork(best) >= ChainWork(tip) && ChainWork(best) >= nMinimumChainWork
  }

  ghost predicate OneGenesis(tree: set<BlockIndex>)
    reads tree
  {
    Tree(tree) && forall a, b :: a in tree && b in tree ==> Back(a, 0) == Back(b, 0)
  }

  lemma SharedGenesis(tree: set<BlockIndex>, r: BlockIndex?, a: BlockIndex, b: BlockIndex)
    requires OneGenesis(tree) && a in tree && b in tree && IsLastCommon(r, a, b)
    ensures r != null && r in tree && IsAncestor(r, b)
  {
    assert Back(a, 0) == Back(b, 0);
    BackInTree(tree, b, r.nHeight);
  }

  /**
   The whole of FindNextBlocksToDownload: nothing for a peer without an interesting chain; otherwise
   the last common block is brought onto the peer's chain, or guessed, and the plan starts there.
   */
  method FindNextBlocksToDownload(known: Known, node: int, count: nat, best: BlockIndex?, last: BlockIndex?,
                                  chain: ActiveChain, nMinimumChainWork: nat, ghost tree: set<BlockIndex>)
    returns (s: Option<Scan>, lastCommon: BlockIndex?)
    requires OneGenesis(tree) && chain.Valid(tree) && chain.Tip() != null
    requires (best != null ==> best in tree) && (last != null ==> last in tree)
    ensures s.Some? <==> count > 0 && Interesting(best, chain.Tip(), nMinimumChainWork)
    ensures s.None? ==> lastCommon == last
    ensures s.Some? ==>
              exists from: BlockIndex ::
                && IsLastCommon(from, if last != null then last else Back(chain.Tip(), Min(best.nHeight, chain.Height())), best)
                && Planned(known, node, count, best, from, s.value) && lastCommon == s.value.lastCommon
  {
    lastCommon, s := last, None;
    if count == 0 || !Interesting(best, chain.Tip(), nMinimumChainWork) {
      return;
    }
    ghost var tip := chain.Tip();
    TreeLinked(tree, tip);
    if lastCommon == null {
      lastCommon := chain.At(Min(best.nHeight, chain.Height()));
      BackInTree(tree, tip, Min(best.nHeight, chain.Height()));
    }
    hide Back, Linked, Tree, SkipOk, OneGenesis, Planned, IsLastCommon;
    ghost var start := lastCommon;
    TreeOf(tree);
    var from := LastCommonAncestor(lastCommon, best, tree);
    SharedGenesis(tree, from, start, best);
    var scan := FindNextBlocks(known, node, count, best, from, tree);
    s, lastCommon := Some(scan), scan.lastCommon;
  }

  lemma TreeOf(tree: set<BlockIndex>)
    requires OneGenesis(tree)
    ensures Tree(tree)
  {}
}
