/**
 Requesting the next blocks from a peer (the getdata part of SendMessages in src/net_processing.cpp):
 the plan of FetchPlan meets the bookkeeping of InFlight.
 */
module BlockFetch {
  import opened Basics
  import opened Chain
  import opened FetchPlan
  import InFlight

  /** Whom each block in flight is expected from. */
  function Peers(places: map<nat, InFlight.Place>): map<nat, nat> {
    map h | h in places :: places[h].node
  }

  function Hashes(blocks: seq<BlockIndex>): seq<nat> {
    seq(|blocks|, i requires 0 <= i < |blocks| => blocks[i].hash)
  }

  /** Nothing that the plan asks for is in flight from anybody. */
  lemma PlanIsNew(known: Known, node: int, count: nat, best: BlockIndex, from: BlockIndex, s: Scan, h: nat)
    requires Linked(best) && from.nHeight <= best.nHeight && Planned(known, node, count, best, from, s)
    requires h in Hashes(s.blocks)
    ensures h !in known.inFlight
  {
    var i :| 0 <= i < |s.blocks| && Hashes(s.blocks)[i] == h;
    assert s.blocks[i].hash == h;
  }

  /**
   Asks the peer for as many blocks as it has free places.  Only blocks in flight from nobody are
   asked for, all of them are in flight from this peer afterwards, and nobody exceeds the limit.
   */
  method RequestNext(d: InFlight.Downloads, known: Known, id: nat, best: BlockIndex?, last: BlockIndex?, chain: ActiveChain,
                     nMinimumChainWork: nat, now: int, ghost tree: set<BlockIndex>)
    returns (vGetData: seq<nat>, staller: int, lastCommon: BlockIndex?)
    requires InFlight.Inv(d.Abs()) && InFlight.WithinLimit(d.Abs()) && id in d.mapNodeState
    requires known.inFlight == Peers(d.mapBlocksInFlight)
    requires OneGenesis(tree) && chain.Valid(tree) && chain.Tip() != null
    requires (best != null ==> best in tree) && (last != null ==> last in tree)
    modifies d
    ensures InFlight.Inv(d.Abs()) && InFlight.WithinLimit(d.Abs())
    ensures InFlight.Allowed(old(d.Abs()), InFlight.FetchNext(id, vGetData, now))
    ensures Some(d.Abs()) == InFlight.Do(old(d.Abs()), InFlight.FetchNext(id, vGetData, now))
    ensures forall h :: h in vGetData ==>
              h !in old(d.mapBlocksInFlight) && h in d.mapBlocksInFlight && d.mapBlocksInFlight[h].node == id
    ensures old(d.mapNodeState)[id].nBlocks == InFlight.MAX_BLOCKS_IN_TRANSIT_PER_PEER ==> vGetData == []
  {
    hide Back, Linked, Tree, SkipOk, OneGenesis, Planned, IsLastCommon, InFlight.Inv, InFlight.WithinLimit, InFlight.RequestAll;
    InFlight.PeerWithin(d.Abs(), id);
    vGetData, staller, lastCommon := [], -1, last;
    if d.mapNodeState[id].nBlocks < InFlight.MAX_BLOCKS_IN_TRANSIT_PER_PEER {
      var free := InFlight.MAX_BLOCKS_IN_TRANSIT_PER_PEER - d.mapNodeState[id].nBlocks;
      var plan;
      plan, lastCommon := FindNextBlocksToDownload(known, id, free, best, last, chain, nMinimumChainWork, tree);
      if plan.Some? {
        staller := plan.value.staller;
        vGetData := Hashes(plan.value.blocks);
        PlanFits(known, id, free, best, last, chain, plan.value, tree);
      }
    }
    d.RequestBlocks(id, vGetData, now);
  }

  /** The plan names no more blocks than asked for, none of them in flight. */
  lemma PlanFits(known: Known, node: int, count: nat, best: BlockIndex, last: BlockIndex?, chain: ActiveChain, s: Scan,
                 tree: set<BlockIndex>)
    requires OneGenesis(tree) && chain.Valid(tree) && chain.Tip() != null && best in tree && (last != null ==> last in tree)
    requires count > 0
    requires exists from: BlockIndex ::
               && IsLastCommon(from, if last != null then last else Back(chain.Tip(), Min(best.nHeight, chain.Height())), best)
               && Planned(known, node, count, best, from, s)
    ensures |s.blocks| <= count
    ensures forall h :: h in Hashes(s.blocks) ==> h !in known.inFlight
  {
    var from: BlockIndex :|
      && IsLastCommon(from, if last != null then last else Back(chain.Tip(), Min(best.nHeight, chain.Height())), best)
      && Planned(known, node, count, best, from, s);
    forall h | h in Hashes(s.blocks) ensures h !in known.inFlight {
      PlanIsNew(known, node, count, best, from, s, h);
    }
  }
}
