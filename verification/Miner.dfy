/**
 Block assembly by ancestor packages (src/miner.h, src/miner.cpp).

 The memory pool is a finite DAG: `rank` orders transactions so that parents
 come first.  Fee rates are compared by exact integer products.
 */
module Miner {
  import opened Basics

  const MAX_BLOCK_WEIGHT: nat := 4000000
  const MAX_BLOCK_SIGOPS_COST: nat := 80000
  const WITNESS_SCALE_FACTOR: nat := 4
  const COINBASE_WEIGHT: nat := 4000
  const COINBASE_SIGOPS: nat := 400

  type TxId = nat

  /** `includable` stands for finality and the witness rule; the last four are totals with all ancestors. */
  datatype Tx = Tx(parents: set<TxId>, rank: nat, weight: nat, sigOps: nat, fee: int, modFee: int,
                   includable: bool, contract: bool,
                   countWithAncestors: nat, sizeWithAncestors: nat, feesWithAncestors: int, sigOpsWithAncestors: nat)

  datatype Pool = Pool(txs: map<TxId, Tx>, bytesPerSigOp: nat)

  ghost predicate Valid(pool: Pool) {
    forall t, p :: t in pool.txs && p in pool.txs[t].parents ==>
      p in pool.txs && pool.txs[p].rank < pool.txs[t].rank
  }

  // ---------------------------------------------------------------- ancestors

  /** All in-pool ancestors, the transaction itself excluded. */
  function Anc(pool: Pool, t: TxId): set<TxId>
    requires Valid(pool) && t in pool.txs
    decreases pool.txs[t].rank
  {
    pool.txs[t].parents + set p, a | p in pool.txs[t].parents && a in Anc(pool, p) :: a
  }

  lemma {:induction false} AncRank(pool: Pool, t: TxId, a: TxId)
    requires Valid(pool) && t in pool.txs && a in Anc(pool, t)
    ensures a in pool.txs && pool.txs[a].rank < pool.txs[t].rank
    decreases pool.txs[t].rank
  {
    if a !in pool.txs[t].parents {
      var p :| p in pool.txs[t].parents && a in Anc(pool, p);
      AncRank(pool, p, a);
    }
  }

  lemma {:induction false} AncTrans(pool: Pool, t: TxId, a: TxId, b: TxId)
    requires Valid(pool) && t in pool.txs && a in Anc(pool, t) && a in pool.txs && b in Anc(pool, a)
    ensures b in Anc(pool, t)
    decreases pool.txs[t].rank
  {
    if a in pool.txs[t].parents {
    } else {
      var p :| p in pool.txs[t].parents && a in Anc(pool, p);
      AncTrans(pool, p, a, b);
    }
  }

  /** An ancestor has strictly fewer ancestors, which is what makes the sort a topological one. */
  lemma AncCount(pool: Pool, t: TxId, a: TxId)
    requires Valid(pool) && t in pool.txs && a in Anc(pool, t)
    ensures a in pool.txs && |Anc(pool, a)| < |Anc(pool, t)|
  {
    hide Anc;
    AncRank(pool, t, a);
    forall b | b in Anc(pool, a) ensures b in Anc(pool, t) { AncTrans(pool, t, a, b); }
    if a in Anc(pool, a) { AncRank(pool, a, a); }
    SubsetSize(Anc(pool, a) + {a}, Anc(pool, t));
  }

  function Desc(pool: Pool, t: TxId): set<TxId>
    requires Valid(pool)
  {
    set d | d in pool.txs && t in Anc(pool, d)
  }

  // ---------------------------------------------------------------- sums over sets of transactions

  datatype Measure = Weight | VSize | SigOps

  function Of(pool: Pool, q: Measure, t: TxId): nat {
    if t !in pool.txs then 0 else
      var tx := pool.txs[t];
      match q
      case Weight => tx.weight
      case SigOps => tx.sigOps
      case VSize => (Max(tx.weight, tx.sigOps * pool.bytesPerSigOp) + WITNESS_SCALE_FACTOR - 1) / WITNESS_SCALE_FACTOR
  }

  ghost function Sum(pool: Pool, q: Measure, s: set<TxId>): nat {
    if s == {} then 0 else
      var t :| t in s;
      Of(pool, q, t) + Sum(pool, q, s - {t})
  }

  lemma {:induction false} SumWithout(pool: Pool, q: Measure, s: set<TxId>, t: TxId)
    requires t in s
    ensures Sum(pool, q, s) == Of(pool, q, t) + Sum(pool, q, s - {t})
    decreases |s|
  {
    var u :| u in s && Sum(pool, q, s) == Of(pool, q, u) + Sum(pool, q, s - {u});
    if u != t {
      SumWithout(pool, q, s - {u}, t);
      SumWithout(pool, q, s - {t}, u);
      assert s - {u} - {t} == s - {t} - {u};
    }
  }

  lemma SumWith(pool: Pool, q: Measure, s: set<TxId>, t: TxId)
    requires t !in s
    ensures Sum(pool, q, s + {t}) == Sum(pool, q, s) + Of(pool, q, t)
  {
    SumWithout(pool, q, s + {t}, t);
    assert s + {t} - {t} == s;
  }

  lemma {:induction false} SumUnion(pool: Pool, q: Measure, a: set<TxId>, b: set<TxId>)
    requires a !! b
    ensures Sum(pool, q, a + b) == Sum(pool, q, a) + Sum(pool, q, b)
    decreases |a|
  {
    if a == {} {
      assert a + b == b;
    } else {
      var t :| t in a;
      SumWithout(pool, q, a, t);
      SumWithout(pool, q, a + b, t);
      assert a + b - {t} == (a - {t}) + b;
      SumUnion(pool, q, a - {t}, b);
    }
  }

  lemma SumSplit(pool: Pool, q: Measure, s: set<TxId>, part: set<TxId>)
    ensures Sum(pool, q, s) == Sum(pool, q, s * part) + Sum(pool, q, s - part)
  {
    SumUnion(pool, q, s * part, s - part);
    assert s * part + (s - part) == s;
  }

  /** A block's weight never exceeds four times its virtual size. */
  lemma {:induction false} WeightBelowSize(pool: Pool, s: set<TxId>)
    ensures Sum(pool, Weight, s) <= WITNESS_SCALE_FACTOR * Sum(pool, VSize, s)
    decreases |s|
  {
    if s != {} {
      var t :| t in s;
      SumWithout(pool, Weight, s, t);
      SumWithout(pool, VSize, s, t);
      WeightBelowSize(pool, s - {t});
    }
  }

  // ---------------------------------------------------------------- the block under construction

  datatype Block = Block(vtx: seq<TxId>, inBlock: set<TxId>, nBlockWeight: nat, nBlockSigOpsCost: nat, nBlockTx: nat, nFees: int)

  const EmptyBlock := Block([], {}, COINBASE_WEIGHT, COINBASE_SIGOPS, 0, 0)

  /** The block limit after the constructor has clamped the option. */
  function ClampWeight(option: nat): (w: nat)
    ensures COINBASE_WEIGHT <= w <= MAX_BLOCK_WEIGHT - 4000
    ensures COINBASE_WEIGHT <= option <= MAX_BLOCK_WEIGHT - 4000 ==> w == option
  {
    Max(4000, if option < MAX_BLOCK_WEIGHT - 4000 then option else MAX_BLOCK_WEIGHT - 4000)
  }

  function Added(pool: Pool, b: Block, t: TxId): Block
    requires t in pool.txs
  {
    Block(b.vtx + [t], b.inBlock + {t}, b.nBlockWeight + Of(pool, Weight, t), b.nBlockSigOpsCost + Of(pool, SigOps, t),
          b.nBlockTx + 1, b.nFees + pool.txs[t].fee)
  }

  ghost function Members(vtx: seq<TxId>): set<TxId> { set i | 0 <= i < |vtx| :: vtx[i] }

  /** Everything a transaction spends stands earlier in the block. */
  ghost predicate Ordered(pool: Pool, vtx: seq<TxId>)
    requires Valid(pool)
  {
    forall j :: 0 <= j < |vtx| ==> vtx[j] in pool.txs && Anc(pool, vtx[j]) <= Members(vtx[..j])
  }

  ghost predicate NoDuplicates(vtx: seq<TxId>) {
    forall i, j :: 0 <= i < j < |vtx| ==> vtx[i] != vtx[j]
  }

  ghost predicate Closed(pool: Pool, s: set<TxId>)
    requires Valid(pool)
  {
    forall t :: t in s ==> t in pool.txs && Anc(pool, t) <= s
  }

  ghost predicate BlockOk(pool: Pool, b: Block)
    requires Valid(pool)
  {
    && b.inBlock == Members(b.vtx) && NoDuplicates(b.vtx) && Ordered(pool, b.vtx) && Closed(pool, b.inBlock)
    && b.nBlockTx == |b.vtx|
    && b.nBlockWeight == COINBASE_WEIGHT + Sum(pool, Weight, b.inBlock)
    && b.nBlockSigOpsCost == COINBASE_SIGOPS + Sum(pool, SigOps, b.inBlock)
  }

  /** The limits, strict as soon as the block holds more than the coinbase. */
  ghost predicate WithinLimits(b: Block, maxWeight: nat) {
    b.vtx == [] || (b.nBlockWeight < maxWeight && b.nBlockSigOpsCost < MAX_BLOCK_SIGOPS_COST)
  }

  lemma OrderedSnoc(pool: Pool, vtx: seq<TxId>, t: TxId)
    requires Valid(pool) && Ordered(pool, vtx) && NoDuplicates(vtx)
    requires t in pool.txs && t !in Members(vtx) && Anc(pool, t) <= Members(vtx)
    ensures Ordered(pool, vtx + [t]) && NoDuplicates(vtx + [t])
  {
    hide Anc;
    var v := vtx + [t];
    forall j | 0 <= j < |v| ensures v[j] in pool.txs && Anc(pool, v[j]) <= Members(v[..j]) {
      if j < |vtx| { assert v[..j] == vtx[..j]; } else { assert v[..j] == vtx; }
    }
    forall i | 0 <= i < |vtx| ensures vtx[i] != t { assert vtx[i] in Members(vtx); }
  }

  lemma AddedKeeps(pool: Pool, b: Block, t: TxId)
    requires Valid(pool) && BlockOk(pool, b) && t in pool.txs && t !in b.inBlock && Anc(pool, t) <= b.inBlock
    ensures BlockOk(pool, Added(pool, b, t))
  {
    hide Anc, Ordered, NoDuplicates;
    MembersSnoc(b.vtx, t);
    OrderedSnoc(pool, b.vtx, t);
    SumWith(pool, Weight, b.inBlock, t);
    SumWith(pool, SigOps, b.inBlock, t);
  }

  lemma MembersSnoc(vtx: seq<TxId>, t: TxId)
    ensures Members(vtx + [t]) == Members(vtx) + {t}
  {
    var v := vtx + [t];
    forall x | x in Members(vtx) ensures x in Members(v) {
      var i :| 0 <= i < |vtx| && vtx[i] == x;
      assert v[i] == x;
    }
    assert v[|vtx|] == t;
  }

  // ---------------------------------------------------------------- packages

  /** The transaction with those of its ancestors that the block still lacks. */
  function Package(pool: Pool, b: Block, t: TxId): set<TxId>
    requires Valid(pool) && t in pool.txs
  {
    (Anc(pool, t) - b.inBlock) + {t}
  }

  predicate TestPackage(b: Block, maxWeight: nat, size: int, sigOps: int) {
    && b.nBlockWeight + WITNESS_SCALE_FACTOR * size < maxWeight
    && b.nBlockSigOpsCost + sigOps < MAX_BLOCK_SIGOPS_COST
  }

  datatype Mod = Mod(size: int, fees: int, sigOps: int)

  /** A cached total covers what is still missing of the package. */
  ghost predicate Covers(pool: Pool, b: Block, t: TxId, size: int, sigOps: int)
    requires Valid(pool) && t in pool.txs
  {
    Sum(pool, VSize, Package(pool, b, t)) <= size && Sum(pool, SigOps, Package(pool, b, t)) <= sigOps
  }

  ghost predicate ModsOk(pool: Pool, b: Block, mods: map<TxId, Mod>)
    requires Valid(pool)
  {
    forall t :: t in mods ==>
      t in pool.txs && t !in b.inBlock && Covers(pool, b, t, mods[t].size, mods[t].sigOps)
  }

  /** The totals with all ancestors, as the pool keeps them. */
  ghost function WithAncestors(pool: Pool, q: Measure, t: TxId): nat
    requires Valid(pool) && t in pool.txs
  {
    Sum(pool, q, Anc(pool, t) + {t})
  }

  /** The pool keeps its ancestor totals exact. */
  ghost predicate Exact(pool: Pool)
    requires Valid(pool)
  {
    forall t :: t in pool.txs ==>
      && pool.txs[t].countWithAncestors == |Anc(pool, t)| + 1
      && pool.txs[t].sizeWithAncestors == WithAncestors(pool, VSize, t)
      && pool.txs[t].sigOpsWithAncestors == WithAncestors(pool, SigOps, t)
  }

  lemma FullTotalsCover(pool: Pool, b: Block, t: TxId)
    requires Valid(pool) && t in pool.txs
    ensures Covers(pool, b, t, WithAncestors(pool, VSize, t), WithAncestors(pool, SigOps, t))
  {
    var all := Anc(pool, t) + {t};
    SumSplit(pool, VSize, all, Package(pool, b, t));
    SumSplit(pool, SigOps, all, Package(pool, b, t));
    assert all * Package(pool, b, t) == Package(pool, b, t);
  }

  /** Passing the test on an upper bound is enough for the whole package to fit. */
  lemma PackageFits(pool: Pool, b: Block, t: TxId, maxWeight: nat, size: int, sigOps: int)
    requires Valid(pool) && t in pool.txs && Covers(pool, b, t, size, sigOps) && TestPackage(b, maxWeight, size, sigOps)
    ensures b.nBlockWeight + Sum(pool, Weight, Package(pool, b, t)) < maxWeight
    ensures b.nBlockSigOpsCost + Sum(pool, SigOps, Package(pool, b, t)) < MAX_BLOCK_SIGOPS_COST
  {
    WeightBelowSize(pool, Package(pool, b, t));
  }

  /** Once `added` is in the block, the rest of a package shrinks by what it shares with `added`. */
  lemma PackageShrinks(pool: Pool, b: Block, b': Block, added: set<TxId>, t: TxId, q: Measure)
    requires Valid(pool) && t in pool.txs && t !in b.inBlock && t !in added
    requires b'.inBlock == b.inBlock + added && b.inBlock !! added
    ensures Sum(pool, q, Package(pool, b', t)) == Sum(pool, q, Package(pool, b, t)) - Sum(pool, q, added * Anc(pool, t))
  {
    var p := Package(pool, b, t);
    SumSplit(pool, q, p, added);
    assert p * added == added * Anc(pool, t);
    assert p - added == Package(pool, b', t);
  }

  // ---------------------------------------------------------------- adding a package in order

  /** Members of the package whose contract does not execute are skipped. */
  function AddAll(pool: Pool, b: Block, sorted: seq<TxId>, failing: set<TxId>): Block
    requires forall i :: 0 <= i < |sorted| ==> sorted[i] in pool.txs
    decreases |sorted|
  {
    if sorted == [] then b else
      var last := |sorted| - 1;
      var b' := AddAll(pool, b, sorted[..last], failing);
      if pool.txs[sorted[last]].contract && sorted[last] in failing then b' else Added(pool, b', sorted[last])
  }

  ghost function Skipped(pool: Pool, s: set<TxId>, failing: set<TxId>): set<TxId> {
    set t | t in s && t in failing && t in pool.txs && pool.txs[t].contract
  }

  lemma {:induction false} AddAllMembers(pool: Pool, b: Block, sorted: seq<TxId>, failing: set<TxId>)
    requires forall i :: 0 <= i < |sorted| ==> sorted[i] in pool.txs
    ensures AddAll(pool, b, sorted, failing).inBlock == b.inBlock + (Members(sorted) - Skipped(pool, Members(sorted), failing))
    decreases |sorted|
  {
    if sorted == [] {
      assert Members(sorted) == {};
    } else {
      var last := |sorted| - 1;
      AddAllMembers(pool, b, sorted[..last], failing);
      assert sorted == sorted[..last] + [sorted[last]];
      MembersSnoc(sorted[..last], sorted[last]);
    }
  }

  /** The comparator: fewer ancestors first, then the smaller hash. */
  ghost predicate Before(pool: Pool, a: TxId, b: TxId)
    requires Valid(pool)
  {
    AncestorCount(pool, a) < AncestorCount(pool, b) || (AncestorCount(pool, a) == AncestorCount(pool, b) && a < b)
  }

  /** Sorted by the comparator, as std::sort leaves it. */
  ghost predicate SortedForBlock(pool: Pool, package: set<TxId>, sorted: seq<TxId>)
    requires Valid(pool)
  {
    && Members(sorted) == package && NoDuplicates(sorted)
    && (forall i :: 0 <= i < |sorted| ==> sorted[i] in pool.txs)
    && (forall i, j :: 0 <= i < j < |sorted| ==> Before(pool, sorted[i], sorted[j]))
  }

  ghost function AncestorCount(pool: Pool, t: TxId): nat
    requires Valid(pool)
  {
    if t in pool.txs then |Anc(pool, t)| else 0
  }

  lemma SortedPutsAncestorsFirst(pool: Pool, b: Block, t: TxId, sorted: seq<TxId>, k: nat)
    requires Valid(pool) && t in pool.txs && SortedForBlock(pool, Package(pool, b, t), sorted) && k < |sorted|
    ensures Anc(pool, sorted[k]) <= b.inBlock + Members(sorted[..k])
  {
    hide Anc;
    assert sorted[k] in Members(sorted);
    PackageIsClosed(pool, b, t, sorted[k]);
    forall a | a in Anc(pool, sorted[k]) && a !in b.inBlock ensures a in Members(sorted[..k]) {
      assert a in Members(sorted);
      var i :| 0 <= i < |sorted| && sorted[i] == a;
      AncCount(pool, sorted[k], a);
      assert i < k && sorted[..k][i] == a;
    }
  }

  lemma SumEmpty(pool: Pool, m: Measure)
    requires Valid(pool)
    ensures Sum(pool, m, {}) == 0
  {
  }

  /** The next one in line is in the pool, not in the block, and not among those before it. */
  lemma SortedMember(pool: Pool, b: Block, t: TxId, sorted: seq<TxId>, k: nat)
    requires Valid(pool) && BlockOk(pool, b) && t in pool.txs && t !in b.inBlock
    requires SortedForBlock(pool, Package(pool, b, t), sorted) && k < |sorted|
    ensures sorted[k] in pool.txs && sorted[k] !in b.inBlock && sorted[k] !in Members(sorted[..k])
  {
    hide Anc;
    assert sorted[k] in Members(sorted);
    NotYet(sorted, k);
  }

  /** Without failing contracts the whole package goes in, in a valid order. */
  lemma {:induction false} AddAllKeeps(pool: Pool, b: Block, t: TxId, sorted: seq<TxId>, k: nat)
    requires Valid(pool) && BlockOk(pool, b) && t in pool.txs && t !in b.inBlock
    requires SortedForBlock(pool, Package(pool, b, t), sorted) && k <= |sorted|
    ensures BlockOk(pool, AddAll(pool, b, sorted[..k], {}))
    ensures AddAll(pool, b, sorted[..k], {}).inBlock == b.inBlock + Members(sorted[..k])
    ensures AddAll(pool, b, sorted[..k], {}).nBlockWeight == b.nBlockWeight + Sum(pool, Weight, Members(sorted[..k]))
    ensures AddAll(pool, b, sorted[..k], {}).nBlockSigOpsCost == b.nBlockSigOpsCost + Sum(pool, SigOps, Members(sorted[..k]))
  {
    hide Anc, BlockOk, Sum, AncestorCount, Package;
    if k == 0 {
      assert sorted[..0] == [] && Members([]) == {};
      SumEmpty(pool, Weight);
      SumEmpty(pool, SigOps);
    } else {
      AddAllKeeps(pool, b, t, sorted, k - 1);
      assert sorted[..k][..k - 1] == sorted[..k - 1];
      assert sorted[..k] == sorted[..k - 1] + [sorted[k - 1]];
      MembersSnoc(sorted[..k - 1], sorted[k - 1]);
      SortedPutsAncestorsFirst(pool, b, t, sorted, k - 1);
      SortedMember(pool, b, t, sorted, k - 1);
      AddedKeeps(pool, AddAll(pool, b, sorted[..k - 1], {}), sorted[k - 1]);
      SumWith(pool, Weight, Members(sorted[..k - 1]), sorted[k - 1]);
      SumWith(pool, SigOps, Members(sorted[..k - 1]), sorted[k - 1]);
    }
  }

  lemma NotYet(v: seq<TxId>, k: nat)
    requires NoDuplicates(v) && k < |v|
    ensures v[k] !in Members(v[..k])
  {}

  /** Weight and sigops grow by exactly the members that are not skipped. */
  lemma {:induction false} AddAllTotals(pool: Pool, b: Block, sorted: seq<TxId>, failing: set<TxId>)
    requires (forall i :: 0 <= i < |sorted| ==> sorted[i] in pool.txs) && NoDuplicates(sorted)
    ensures var s := Members(sorted) - Skipped(pool, Members(sorted), failing);
            && AddAll(pool, b, sorted, failing).nBlockWeight == b.nBlockWeight + Sum(pool, Weight, s)
            && AddAll(pool, b, sorted, failing).nBlockSigOpsCost == b.nBlockSigOpsCost + Sum(pool, SigOps, s)
    decreases |sorted|
  {
    if sorted == [] {
      assert Members(sorted) - Skipped(pool, Members(sorted), failing) == {};
    } else {
      var last := |sorted| - 1;
      var before, x := sorted[..last], sorted[last];
      AddAllTotals(pool, b, before, failing);
      assert sorted == before + [x];
      MembersSnoc(before, x);
      NotYet(sorted, last);
      var s := Members(before) - Skipped(pool, Members(before), failing);
      if pool.txs[x].contract && x in failing {
        assert Members(sorted) - Skipped(pool, Members(sorted), failing) == s;
      } else {
        assert Members(sorted) - Skipped(pool, Members(sorted), failing) == s + {x};
        SumWith(pool, Weight, s, x);
        SumWith(pool, SigOps, s, x);
      }
    }
  }

  /** Where nothing is skipped, it does not matter which contracts would fail elsewhere. */
  lemma {:induction false} AddAllNoneSkipped(pool: Pool, b: Block, mods: map<TxId, Mod>, sorted: seq<TxId>, failing: set<TxId>)
    requires forall i :: 0 <= i < |sorted| ==> sorted[i] in pool.txs
    requires Skipped(pool, Members(sorted), failing) == {}
    ensures AddAll(pool, b, sorted, failing) == AddAll(pool, b, sorted, {})
    ensures Erased(pool, mods, sorted, failing) == Erased(pool, mods, sorted, {})
    decreases |sorted|
  {
    if sorted != [] {
      var last := |sorted| - 1;
      assert sorted == sorted[..last] + [sorted[last]];
      MembersSnoc(sorted[..last], sorted[last]);
      var inner := Skipped(pool, Members(sorted[..last]), failing);
      assert inner <= Skipped(pool, Members(sorted), failing);
      AddAllNoneSkipped(pool, b, mods, sorted[..last], failing);
      assert sorted[last] !in Skipped(pool, Members(sorted), failing);
    }
  }

  /**
   A round leaves every transaction with all its ancestors in the block exactly
   when no skipped contract of the package has a descendant that went in.
   */
  lemma ClosedIffNoOrphan(pool: Pool, b: Block, t: TxId, sorted: seq<TxId>, failing: set<TxId>)
    requires Valid(pool) && Closed(pool, b.inBlock) && t in pool.txs && t !in b.inBlock
    requires SortedForBlock(pool, Package(pool, b, t), sorted)
    ensures var p := Package(pool, b, t);
            var skipped := Skipped(pool, p, failing);
            Closed(pool, AddAll(pool, b, sorted, failing).inBlock) <==>
              forall x, f :: x in p - skipped && f in skipped ==> !IsAncestor(pool, f, x)
  {
    hide Anc;
    var p := Package(pool, b, t);
    var skipped := Skipped(pool, p, failing);
    var inBlock' := AddAll(pool, b, sorted, failing).inBlock;
    AddAllMembers(pool, b, sorted, failing);
    if forall x, f :: x in p - skipped && f in skipped ==> !IsAncestor(pool, f, x) {
      forall x | x in inBlock' ensures x in pool.txs && Anc(pool, x) <= inBlock' {
        if x in p {
          PackageIsClosed(pool, b, t, x);
          forall a | a in Anc(pool, x) ensures a in inBlock' {
            assert a in skipped ==> !IsAncestor(pool, a, x);
          }
        }
      }
    } else {
      var x, f :| x in p - skipped && f in skipped && IsAncestor(pool, f, x);
      assert x in inBlock';
      PackageMisses(pool, b, t, f);
    }
  }

  ghost predicate IsAncestor(pool: Pool, a: TxId, t: TxId)
    requires Valid(pool)
  {
    t in pool.txs && a in Anc(pool, t)
  }

  lemma PackageMisses(pool: Pool, b: Block, t: TxId, x: TxId)
    requires Valid(pool) && t in pool.txs && t !in b.inBlock && x in Package(pool, b, t)
    ensures x !in b.inBlock
  {}

  lemma PackageIsClosed(pool: Pool, b: Block, t: TxId, x: TxId)
    requires Valid(pool) && t in pool.txs && x in Package(pool, b, t)
    ensures x in pool.txs && Anc(pool, x) <= b.inBlock + Package(pool, b, t)
  {
    hide Anc;
    if x != t {
      AncRank(pool, t, x);
      forall a | a in Anc(pool, x) ensures a in Anc(pool, t) { AncTrans(pool, t, x, a); }
    }
  }

  /** A contract and a plain transaction that spends from it. */
  const OrphanPool := Pool(map[7 := Tx({}, 0, 400, 4, 1000, 1000, true, true, 1, 100, 1000, 4),
                               8 := Tx({7}, 1, 400, 4, 1000, 1000, true, false, 2, 200, 2000, 8)], 20)

  lemma OrphanAncestors()
    ensures Valid(OrphanPool) && Anc(OrphanPool, 7) == {} && Anc(OrphanPool, 8) == {7}
  {}

  /** If the contract fails, the child goes in without its parent. */
  lemma FailedContractOrphansChild()
    ensures Valid(OrphanPool)
    ensures SortedForBlock(OrphanPool, Package(OrphanPool, EmptyBlock, 8), [7, 8])
    ensures AddAll(OrphanPool, EmptyBlock, [7, 8], {7}).vtx == [8] && 7 in OrphanPool.txs[8].parents
  {
    OrphanAncestors();
    hide Anc;
    var sorted := [7, 8];
    assert sorted[0] in Members(sorted) && sorted[1] in Members(sorted);
    assert Members(sorted) == {7, 8} == Package(OrphanPool, EmptyBlock, 8);
    assert sorted[..1] == [7] && [7][..0] == [];
    assert AddAll(OrphanPool, EmptyBlock, [], {7}) == EmptyBlock;
    assert AddAll(OrphanPool, EmptyBlock, [7], {7}) == EmptyBlock;
  }

  /** What is left of the modified set after a package went in. */
  function Erased(pool: Pool, mods: map<TxId, Mod>, sorted: seq<TxId>, failing: set<TxId>): map<TxId, Mod>
    requires forall i :: 0 <= i < |sorted| ==> sorted[i] in pool.txs
  {
    if sorted == [] then mods else
      var last := |sorted| - 1;
      var m := Erased(pool, mods, sorted[..last], failing);
      if pool.txs[sorted[last]].contract && sorted[last] in failing then m else m - {sorted[last]}
  }

  /** Exactly what went into the block leaves the set. */
  lemma {:induction false} ErasedKeys(pool: Pool, mods: map<TxId, Mod>, sorted: seq<TxId>, failing: set<TxId>)
    requires forall i :: 0 <= i < |sorted| ==> sorted[i] in pool.txs
    ensures Erased(pool, mods, sorted, failing) == mods - (Members(sorted) - Skipped(pool, Members(sorted), failing))
  {
    if sorted == [] {
      assert Members(sorted) == {};
    } else {
      var last := |sorted| - 1;
      ErasedKeys(pool, mods, sorted[..last], failing);
      assert sorted == sorted[..last] + [sorted[last]];
      MembersSnoc(sorted[..last], sorted[last]);
    }
  }

  // ---------------------------------------------------------------- updating the cached totals

  /** A cached total of descendant d after the members of `done` were subtracted. */
  ghost function Remaining(pool: Pool, q: Measure, cached: int, done: set<TxId>, d: TxId): int
    requires Valid(pool) && d in pool.txs
  {
    cached - Sum(pool, q, done * Anc(pool, d))
  }

  /** The entry for d once every member of `done` has been taken into account. */
  ghost predicate EntryUpdated(pool: Pool, added: set<TxId>, done: set<TxId>, mods: map<TxId, Mod>, cur: map<TxId, Mod>, d: TxId)
    requires Valid(pool)
  {
    && (d in cur <==> d in mods || (d in pool.txs && d !in added && done * Anc(pool, d) != {}))
    && (d in cur ==>
          if d in pool.txs && d !in added then
            && cur[d].size == Remaining(pool, VSize, if d in mods then mods[d].size else WithAncestors(pool, VSize, d), done, d)
            && cur[d].sigOps == Remaining(pool, SigOps, if d in mods then mods[d].sigOps else WithAncestors(pool, SigOps, d), done, d)
            && (done * Anc(pool, d) == {} ==> d in mods && cur[d] == mods[d])
          else d in mods && cur[d] == mods[d])
  }

  ghost predicate Updated(pool: Pool, added: set<TxId>, done: set<TxId>, mods: map<TxId, Mod>, cur: map<TxId, Mod>)
    requires Valid(pool)
  {
    forall d :: EntryUpdated(pool, added, done, mods, cur, d)
  }

  /** Nothing changes for those who do not descend from the transaction. */
  lemma EntryUnrelated(pool: Pool, added: set<TxId>, done: set<TxId>, it: TxId, mods: map<TxId, Mod>, cur: map<TxId, Mod>, d: TxId)
    requires Valid(pool) && EntryUpdated(pool, added, done, mods, cur, d) && d !in Desc(pool, it)
    ensures EntryUpdated(pool, added, done + {it}, mods, cur, d)
  {
    hide Anc;
    if d in pool.txs { assert (done + {it}) * Anc(pool, d) == done * Anc(pool, d); }
  }

  lemma EntryOfAdded(pool: Pool, added: set<TxId>, done: set<TxId>, it: TxId, mods: map<TxId, Mod>, cur: map<TxId, Mod>, d: TxId)
    requires Valid(pool) && EntryUpdated(pool, added, done, mods, cur, d) && d in added
    ensures EntryUpdated(pool, added, done + {it}, mods, cur, d)
  {}

  /** One more ancestor in the block: its share comes off, from the cached entry or from the pool's total. */
  lemma EntrySubtracted(pool: Pool, added: set<TxId>, done: set<TxId>, it: TxId, mods: map<TxId, Mod>, cur: map<TxId, Mod>,
                        d: TxId, e: Mod)
    requires Valid(pool) && EntryUpdated(pool, added, done, mods, cur, d)
    requires d in Desc(pool, it) && d !in added && it !in done
    requires e.size == (if d in cur then cur[d].size else WithAncestors(pool, VSize, d)) - Of(pool, VSize, it)
    requires e.sigOps == (if d in cur then cur[d].sigOps else WithAncestors(pool, SigOps, d)) - Of(pool, SigOps, it)
    ensures EntryUpdated(pool, added, done + {it}, mods, cur[d := e], d)
  {
    hide Anc;
    var before, after := done * Anc(pool, d), (done + {it}) * Anc(pool, d);
    assert after == before + {it};
    SumWith(pool, VSize, before, it);
    SumWith(pool, SigOps, before, it);
  }

  lemma UpdatedKeepsMods(pool: Pool, b: Block, b': Block, added: set<TxId>, mods: map<TxId, Mod>, mods': map<TxId, Mod>)
    requires Valid(pool) && Closed(pool, b.inBlock) && ModsOk(pool, b, mods)
    requires b'.inBlock == b.inBlock + added && b.inBlock !! added
    requires forall t :: t in mods ==> t !in added
    requires Updated(pool, added, added, mods, mods')
    ensures ModsOk(pool, b', mods')
  {
    hide Anc;
    forall d | d in mods' ensures d in pool.txs && d !in b'.inBlock && Covers(pool, b', d, mods'[d].size, mods'[d].sigOps) {
      assert EntryUpdated(pool, added, added, mods, mods', d);
      assert d in pool.txs && d !in added;
      assert d !in b.inBlock;
      PackageShrinks(pool, b, b', added, d, VSize);
      PackageShrinks(pool, b, b', added, d, SigOps);
      FullTotalsCover(pool, b, d);
    }
  }

  // ---------------------------------------------------------------- rounds in which contracts may fail

  /** A whole round for a package that passed its tests, up to the update of the cached totals. */
  ghost predicate Round(pool: Pool, b: Block, mods: map<TxId, Mod>, t: TxId, sorted: seq<TxId>, failing: set<TxId>,
                        b': Block, mods': map<TxId, Mod>)
    requires Valid(pool)
  {
    && t in pool.txs && t !in b.inBlock
    && SortedForBlock(pool, Package(pool, b, t), sorted)
    && b' == AddAll(pool, b, sorted, failing)
    && Updated(pool, Package(pool, b, t), Package(pool, b, t), Erased(pool, mods, sorted, failing), mods')
  }

  lemma RoundIsFor(pool: Pool, b: Block, mods: map<TxId, Mod>, t: TxId, sorted: seq<TxId>, failing: set<TxId>,
                   b': Block, mods': map<TxId, Mod>)
    requires Valid(pool) && Round(pool, b, mods, t, sorted, failing, b', mods')
    ensures t in pool.txs && t !in b.inBlock
  {
    hide Anc, SortedForBlock, Updated;
  }

  ghost function SkippedBy(pool: Pool, b: Block, t: TxId, failing: set<TxId>): set<TxId>
    requires Valid(pool) && t in pool.txs
  {
    Skipped(pool, Package(pool, b, t), failing)
  }

  /** What a round does to the block and to the keys of the modified set. */
  lemma RoundEffect(pool: Pool, b: Block, mods: map<TxId, Mod>, t: TxId, sorted: seq<TxId>, failing: set<TxId>,
                    b': Block, mods': map<TxId, Mod>)
    requires Valid(pool) && Round(pool, b, mods, t, sorted, failing, b', mods')
    ensures var p := Package(pool, b, t);
            var added := p - SkippedBy(pool, b, t, failing);
            && b'.inBlock == b.inBlock + added && b.inBlock !! p
            && Updated(pool, p, p, mods - added, mods')
            && forall d :: d in mods' <==> d in mods - added || (d in pool.txs && d !in p && p * Anc(pool, d) != {})
  {
    hide Anc, Before;
    var p := Package(pool, b, t);
    AddAllMembers(pool, b, sorted, failing);
    ErasedKeys(pool, mods, sorted, failing);
    forall x | x in p ensures x !in b.inBlock { PackageMisses(pool, b, t, x); }
    forall d ensures d in mods' <==> d in mods - (p - SkippedBy(pool, b, t, failing)) || (d in pool.txs && d !in p && p * Anc(pool, d) != {}) {
      assert EntryUpdated(pool, p, p, mods - (p - SkippedBy(pool, b, t, failing)), mods', d);
    }
  }

  ghost predicate Apart(b: Block, mods: map<TxId, Mod>) {
    mods.Keys !! b.inBlock
  }

  /** No member of s is an ancestor of a transaction in the block. */
  ghost predicate NoneBelow(pool: Pool, b: Block, s: set<TxId>)
    requires Valid(pool)
  {
    forall f, x :: f in s && x in b.inBlock ==> !IsAncestor(pool, f, x)
  }

  /**
   The assert that nothing taken from the modified set is in the block survives a round exactly when
   no member of the package is an ancestor of a transaction already in the block.
   */
  lemma ApartIff(pool: Pool, b: Block, mods: map<TxId, Mod>, t: TxId, sorted: seq<TxId>, failing: set<TxId>,
                 b': Block, mods': map<TxId, Mod>)
    requires Valid(pool) && Round(pool, b, mods, t, sorted, failing, b', mods') && Apart(b, mods)
    ensures Apart(b', mods') <==> NoneBelow(pool, b, Package(pool, b, t))
  {
    RoundEffect(pool, b, mods, t, sorted, failing, b', mods');
    hide Anc, Round, Package, SkippedBy, Updated;
    var p := Package(pool, b, t);
    if !NoneBelow(pool, b, p) {
      var f, x :| f in p && x in b.inBlock && IsAncestor(pool, f, x);
      assert f in p * Anc(pool, x);
      assert x in mods'.Keys && x in b'.inBlock;
    }
    if !Apart(b', mods') {
      var d :| d in mods'.Keys && d in b'.inBlock;
      var f :| f in p * Anc(pool, d);
      assert IsAncestor(pool, f, d);
    }
  }

  /** What the block lacks of the ancestors of its members are contracts that fail. */
  ghost predicate OrphansFail(pool: Pool, b: Block, failing: set<TxId>)
    requires Valid(pool)
  {
    forall x, a :: x in b.inBlock && IsAncestor(pool, a, x) && a !in b.inBlock ==>
      a in failing && a in pool.txs && pool.txs[a].contract
  }

  /** While the same contracts fail, every round keeps that. */
  lemma OrphansStayFailing(pool: Pool, b: Block, mods: map<TxId, Mod>, t: TxId, sorted: seq<TxId>, failing: set<TxId>,
                           b': Block, mods': map<TxId, Mod>)
    requires Valid(pool) && Round(pool, b, mods, t, sorted, failing, b', mods') && OrphansFail(pool, b, failing)
    ensures OrphansFail(pool, b', failing)
  {
    RoundEffect(pool, b, mods, t, sorted, failing, b', mods');
    hide Anc, Round, Package, Updated;
    var p := Package(pool, b, t);
    forall x, a | x in b'.inBlock && IsAncestor(pool, a, x) && a !in b'.inBlock
      ensures a in failing && a in pool.txs && pool.txs[a].contract
    {
      if x in p { PackageIsClosed(pool, b, t, x); }
    }
  }

  /** While the same contracts fail, only a skipped contract can trip the assert. */
  lemma ApartIffNoSkippedBelow(pool: Pool, b: Block, mods: map<TxId, Mod>, t: TxId, sorted: seq<TxId>, failing: set<TxId>,
                               b': Block, mods': map<TxId, Mod>)
    requires Valid(pool) && Round(pool, b, mods, t, sorted, failing, b', mods') && Apart(b, mods)
    requires OrphansFail(pool, b, failing)
    ensures Apart(b', mods') <==> NoneBelow(pool, b, SkippedBy(pool, b, t, failing))
  {
    ApartIff(pool, b, mods, t, sorted, failing, b', mods');
    hide Anc, Round;
    var p := Package(pool, b, t);
    forall f, x | f in p && x in b.inBlock && IsAncestor(pool, f, x) ensures f in SkippedBy(pool, b, t, failing) {
      PackageMisses(pool, b, t, f);
    }
  }

  // ---------------------------------------------------------------- progress

  ghost function Unselected(pool: Pool, b: Block): nat {
    |pool.txs.Keys - b.inBlock|
  }

  /** The measure of the loop: transactions not selected, index entries left, size of the modified set. */
  ghost predicate Nearer(u': nat, left': nat, mods': nat, u: nat, left: nat, mods: nat) {
    u' < u || (u' == u && (left' < left || (left' == left && mods' < mods)))
  }

  /**
   A round brings the loop nearer to its end exactly when it came from the index of the pool, or some
   member of its package is not a skipped contract.
   */
  lemma ProgressIff(pool: Pool, b: Block, mods: map<TxId, Mod>, t: TxId, sorted: seq<TxId>, failing: set<TxId>,
                    b': Block, mods': map<TxId, Mod>, usingModified: bool, left: nat)
    requires Valid(pool) && Round(pool, b, mods, t, sorted, failing, b', mods')
    requires !usingModified ==> left > 0
    ensures Nearer(Unselected(pool, b'), if usingModified then left else left - 1, |mods'|, Unselected(pool, b), left, |mods|) <==>
            !usingModified || Package(pool, b, t) != SkippedBy(pool, b, t, failing)
  {
    assert t in pool.txs;
    hide Anc, Round, Package, SkippedBy;
    SkippedInPackage(pool, b, t, failing);
    if Package(pool, b, t) != SkippedBy(pool, b, t, failing) {
      var x :| x in Package(pool, b, t) && x !in SkippedBy(pool, b, t, failing);
      SelectedRound(pool, b, mods, t, sorted, failing, b', mods', x);
    } else {
      SkippedRound(pool, b, mods, t, sorted, failing, b', mods');
    }
  }

  lemma SelectedRound(pool: Pool, b: Block, mods: map<TxId, Mod>, t: TxId, sorted: seq<TxId>, failing: set<TxId>,
                      b': Block, mods': map<TxId, Mod>, x: TxId)
    requires Valid(pool) && Round(pool, b, mods, t, sorted, failing, b', mods')
    requires x in Package(pool, b, t) && x !in SkippedBy(pool, b, t, failing)
    ensures Unselected(pool, b') < Unselected(pool, b)
  {
    RoundEffect(pool, b, mods, t, sorted, failing, b', mods');
    hide Anc, Round, Package, SkippedBy, Updated;
    PackageIsClosed(pool, b, t, x);
    FewerLeft(pool, b, b', x);
  }

  lemma SkippedRound(pool: Pool, b: Block, mods: map<TxId, Mod>, t: TxId, sorted: seq<TxId>, failing: set<TxId>,
                     b': Block, mods': map<TxId, Mod>)
    requires Valid(pool) && Round(pool, b, mods, t, sorted, failing, b', mods')
    requires Package(pool, b, t) == SkippedBy(pool, b, t, failing)
    ensures Unselected(pool, b') == Unselected(pool, b) && |mods| <= |mods'|
  {
    RoundEffect(pool, b, mods, t, sorted, failing, b', mods');
    hide Anc, Round, Package, SkippedBy, Updated;
    assert b'.inBlock == b.inBlock;
    MoreKeys(mods, mods');
  }

  lemma FewerLeft(pool: Pool, b: Block, b': Block, x: TxId)
    requires b.inBlock <= b'.inBlock && x in pool.txs && x in b'.inBlock && x !in b.inBlock
    ensures Unselected(pool, b') < Unselected(pool, b)
  {
    SubsetSize(pool.txs.Keys - b'.inBlock, pool.txs.Keys - b.inBlock - {x});
  }

  lemma SkippedInPackage(pool: Pool, b: Block, t: TxId, failing: set<TxId>)
    requires Valid(pool) && t in pool.txs
    ensures SkippedBy(pool, b, t, failing) <= Package(pool, b, t)
  {
    hide Anc;
  }

  lemma MoreKeys(m: map<TxId, Mod>, m': map<TxId, Mod>)
    requires forall d :: d in m ==> d in m'
    ensures |m| <= |m'|
  {
    SubsetSize(m.Keys, m'.Keys);
    assert |m| == |m.Keys| && |m'| == |m'.Keys|;
  }

  /** Skipping a package nobody else descends from changes nothing at all, so the next round is the same one again. */
  lemma SkippedRoundRepeats(pool: Pool, b: Block, mods: map<TxId, Mod>, t: TxId, sorted: seq<TxId>, failing: set<TxId>,
                            b': Block, mods': map<TxId, Mod>)
    requires Valid(pool) && Round(pool, b, mods, t, sorted, failing, b', mods')
    requires Package(pool, b, t) == SkippedBy(pool, b, t, failing)
    requires forall f, d :: f in Package(pool, b, t) && IsAncestor(pool, f, d) ==> d in Package(pool, b, t)
    ensures b' == b && mods' == mods
  {
    hide Anc, Before;
    var p := Package(pool, b, t);
    AddAllSkips(pool, b, sorted, failing);
    ErasedKeys(pool, mods, sorted, failing);
    assert p - SkippedBy(pool, b, t, failing) == {};
    assert Erased(pool, mods, sorted, failing) == mods;
    SumEmpty(pool, VSize);
    SumEmpty(pool, SigOps);
    forall d ensures d in mods' <==> d in mods
             ensures d in mods ==> mods'[d] == mods[d]
    {
      assert EntryUpdated(pool, p, p, mods, mods', d);
      if d in pool.txs && d !in p {
        forall f | f in p ensures f !in Anc(pool, d) { assert !IsAncestor(pool, f, d); }
        assert p * Anc(pool, d) == {};
      }
    }
  }

  lemma {:induction false} AddAllSkips(pool: Pool, b: Block, sorted: seq<TxId>, failing: set<TxId>)
    requires forall i :: 0 <= i < |sorted| ==> sorted[i] in pool.txs
    requires Skipped(pool, Members(sorted), failing) == Members(sorted)
    ensures AddAll(pool, b, sorted, failing) == b
    decreases |sorted|
  {
    if sorted != [] {
      var last := |sorted| - 1;
      assert sorted == sorted[..last] + [sorted[last]];
      MembersSnoc(sorted[..last], sorted[last]);
      AddAllSkips(pool, b, sorted[..last], failing);
      assert sorted[last] in Members(sorted);
    }
  }

  // ---------------------------------------------------------------- the limits

  /** Even with contracts skipped, a package that passed the test on a covering total stays within the limits. */
  lemma RoundStaysWithin(pool: Pool, b: Block, mods: map<TxId, Mod>, t: TxId, sorted: seq<TxId>, failing: set<TxId>,
                         b': Block, mods': map<TxId, Mod>, maxWeight: nat, size: int, sigOps: int)
    requires Valid(pool) && Round(pool, b, mods, t, sorted, failing, b', mods')
    requires Covers(pool, b, t, size, sigOps) && TestPackage(b, maxWeight, size, sigOps)
    ensures b'.nBlockWeight < maxWeight && b'.nBlockSigOpsCost < MAX_BLOCK_SIGOPS_COST
  {
    hide Anc, Before, Updated;
    PackageFits(pool, b, t, maxWeight, size, sigOps);
    AddAllTotals(pool, b, sorted, failing);
    SumSplit(pool, Weight, Package(pool, b, t), SkippedBy(pool, b, t, failing));
    SumSplit(pool, SigOps, Package(pool, b, t), SkippedBy(pool, b, t, failing));
  }

  /** The total a package is tested with: the cached one, or else the one of the pool. */
  ghost function Total(pool: Pool, q: Measure, mods: map<TxId, Mod>, d: TxId): int
    requires Valid(pool) && d in pool.txs && q != Weight
  {
    if d !in mods then WithAncestors(pool, q, d) else if q == VSize then mods[d].size else mods[d].sigOps
  }

  /** The total of d covers its missing package and the skipped ancestors once more. */
  ghost predicate RoomFor(pool: Pool, b: Block, mods: map<TxId, Mod>, d: TxId, skipped: set<TxId>, q: Measure)
    requires Valid(pool) && d in pool.txs && q != Weight
  {
    Sum(pool, q, Package(pool, b, d)) + Sum(pool, q, skipped * Anc(pool, d)) <= Total(pool, q, mods, d)
  }

  lemma ShareSplits(pool: Pool, q: Measure, p: set<TxId>, skipped: set<TxId>, anc: set<TxId>)
    requires skipped <= p
    ensures Sum(pool, q, p * anc) == Sum(pool, q, skipped * anc) + Sum(pool, q, (p - skipped) * anc)
  {
    SumSplit(pool, q, p * anc, skipped);
    assert p * anc * skipped == skipped * anc && p * anc - skipped == (p - skipped) * anc;
  }

  /** The new total of d is the old one less the whole share of the package, skipped members included. */
  lemma TotalAfter(pool: Pool, b: Block, mods: map<TxId, Mod>, t: TxId, sorted: seq<TxId>, failing: set<TxId>,
                   b': Block, mods': map<TxId, Mod>, d: TxId, q: Measure)
    requires Valid(pool) && Round(pool, b, mods, t, sorted, failing, b', mods') && q != Weight
    requires d in pool.txs && d in mods' && d !in b.inBlock && d !in Package(pool, b, t)
    ensures Total(pool, q, mods', d) == Total(pool, q, mods, d) - Sum(pool, q, Package(pool, b, t) * Anc(pool, d))
  {
    RoundEffect(pool, b, mods, t, sorted, failing, b', mods');
    var p, skipped := Package(pool, b, t), SkippedBy(pool, b, t, failing);
    hide Anc, Round, Package, SkippedBy, Sum, WithAncestors;
    assert EntryUpdated(pool, p, p, mods - (p - skipped), mods', d);
  }

  lemma MissingAfter(pool: Pool, b: Block, mods: map<TxId, Mod>, t: TxId, sorted: seq<TxId>, failing: set<TxId>,
                     b': Block, mods': map<TxId, Mod>, d: TxId, q: Measure)
    requires Valid(pool) && Round(pool, b, mods, t, sorted, failing, b', mods')
    requires d in pool.txs && d !in b.inBlock && d !in Package(pool, b, t)
    ensures Sum(pool, q, Package(pool, b', d)) ==
            Sum(pool, q, Package(pool, b, d)) - Sum(pool, q, Package(pool, b, t) * Anc(pool, d))
            + Sum(pool, q, SkippedBy(pool, b, t, failing) * Anc(pool, d))
  {
    RoundEffect(pool, b, mods, t, sorted, failing, b', mods');
    SkippedInPackage(pool, b, t, failing);
    var p, skipped := Package(pool, b, t), SkippedBy(pool, b, t, failing);
    hide Anc, Round, Package, SkippedBy, Sum, Updated;
    PackageShrinks(pool, b, b', p - skipped, d, q);
    ShareSplits(pool, q, p, skipped, Anc(pool, d));
  }

  /** Members of the package are subtracted from the totals of others whether or not they went in. */
  lemma CoverIff(pool: Pool, b: Block, mods: map<TxId, Mod>, t: TxId, sorted: seq<TxId>, failing: set<TxId>,
                 b': Block, mods': map<TxId, Mod>, d: TxId)
    requires Valid(pool) && Round(pool, b, mods, t, sorted, failing, b', mods')
    requires d in pool.txs && d in mods' && d !in b.inBlock && d !in Package(pool, b, t)
    ensures Covers(pool, b', d, mods'[d].size, mods'[d].sigOps) <==>
            RoomFor(pool, b, mods, d, SkippedBy(pool, b, t, failing), VSize) &&
            RoomFor(pool, b, mods, d, SkippedBy(pool, b, t, failing), SigOps)
  {
    assert t in pool.txs;
    hide Anc, Round, Package, SkippedBy, Sum, WithAncestors;
    TotalAfter(pool, b, mods, t, sorted, failing, b', mods', d, VSize);
    TotalAfter(pool, b, mods, t, sorted, failing, b', mods', d, SigOps);
    MissingAfter(pool, b, mods, t, sorted, failing, b', mods', d, VSize);
    MissingAfter(pool, b, mods, t, sorted, failing, b', mods', d, SigOps);
  }

  /** A skipped member keeps its cached total, which still covers its package. */
  lemma SkippedKeepsCover(pool: Pool, b: Block, mods: map<TxId, Mod>, t: TxId, sorted: seq<TxId>, failing: set<TxId>,
                          b': Block, mods': map<TxId, Mod>, d: TxId)
    requires Valid(pool) && Round(pool, b, mods, t, sorted, failing, b', mods') && ModsOk(pool, b, mods)
    requires d in mods' && d in Package(pool, b, t)
    ensures d in pool.txs && d !in b'.inBlock && Covers(pool, b', d, mods'[d].size, mods'[d].sigOps)
  {
    RoundEffect(pool, b, mods, t, sorted, failing, b', mods');
    var p, skipped := Package(pool, b, t), SkippedBy(pool, b, t, failing);
    hide Anc, Round, SkippedBy, Sum;
    assert EntryUpdated(pool, p, p, mods - (p - skipped), mods', d);
    var before, after := Package(pool, b, d), Package(pool, b', d);
    assert before * after == after;
    SumSplit(pool, VSize, before, after);
    SumSplit(pool, SigOps, before, after);
  }

  /** Every transaction that a skipped contract is subtracted from has room for it. */
  ghost predicate RoomForAll(pool: Pool, b: Block, mods: map<TxId, Mod>, p: set<TxId>, skipped: set<TxId>)
    requires Valid(pool)
  {
    forall d :: d in pool.txs && d !in p && d !in b.inBlock && skipped * Anc(pool, d) != {} ==>
      RoomFor(pool, b, mods, d, skipped, VSize) && RoomFor(pool, b, mods, d, skipped, SigOps)
  }

  /**
   The cached totals still bound every missing package after a round, and with it the limits hold in
   the next one, exactly when no member of the package is an ancestor of a block transaction and
   every descendant of a skipped contract had room for it in its total.
   */
  lemma ModsOkIff(pool: Pool, b: Block, mods: map<TxId, Mod>, t: TxId, sorted: seq<TxId>, failing: set<TxId>,
                  b': Block, mods': map<TxId, Mod>)
    requires Valid(pool) && Round(pool, b, mods, t, sorted, failing, b', mods') && ModsOk(pool, b, mods)
    ensures ModsOk(pool, b', mods') <==>
            NoneBelow(pool, b, Package(pool, b, t)) &&
            RoomForAll(pool, b, mods, Package(pool, b, t), SkippedBy(pool, b, t, failing))
  {
    ApartIff(pool, b, mods, t, sorted, failing, b', mods');
    RoundEffect(pool, b, mods, t, sorted, failing, b', mods');
    SkippedInPackage(pool, b, t, failing);
    var p, skipped := Package(pool, b, t), SkippedBy(pool, b, t, failing);
    hide Anc, Round, Package, SkippedBy, Updated, Covers, NoneBelow, RoomFor;
    if ModsOk(pool, b', mods') {
      forall d | d in pool.txs && d !in p && d !in b.inBlock && skipped * Anc(pool, d) != {}
        ensures RoomFor(pool, b, mods, d, skipped, VSize) && RoomFor(pool, b, mods, d, skipped, SigOps)
      {
        assert skipped * Anc(pool, d) <= p * Anc(pool, d);
        CoverIff(pool, b, mods, t, sorted, failing, b', mods', d);
      }
    } else if NoneBelow(pool, b, p) && RoomForAll(pool, b, mods, p, skipped) {
      forall d | d in mods' ensures d in pool.txs && d !in b'.inBlock && Covers(pool, b', d, mods'[d].size, mods'[d].sigOps) {
        if d in p {
          SkippedKeepsCover(pool, b, mods, t, sorted, failing, b', mods', d);
        } else {
          RoomWithoutSkipped(pool, b, mods, d, skipped);
          CoverIff(pool, b, mods, t, sorted, failing, b', mods', d);
        }
      }
    }
  }

  lemma RoomWithoutSkipped(pool: Pool, b: Block, mods: map<TxId, Mod>, d: TxId, skipped: set<TxId>)
    requires Valid(pool) && d in pool.txs && ModsOk(pool, b, mods)
    ensures skipped * Anc(pool, d) == {} ==>
            RoomFor(pool, b, mods, d, skipped, VSize) && RoomFor(pool, b, mods, d, skipped, SigOps)
  {
    hide Anc, Package;
    FullTotalsCover(pool, b, d);
    SumEmpty(pool, VSize);
    SumEmpty(pool, SigOps);
  }

  // ---------------------------------------------------------------- a run with a failing contract

  /** A contract with two children. */
  const SharedPool := Pool(map[7 := Tx({}, 0, 2000, 4, 5000, 5000, true, true, 1, 500, 5000, 4),
                               8 := Tx({7}, 1, 400, 4, 900, 900, true, false, 2, 600, 5900, 8),
                               9 := Tx({7}, 1, 4000, 4, 8000, 8000, true, false, 2, 1500, 13000, 8)], 20)

  const SharedLimit: nat := 8000

  // The modified set after the first, second and third round; the block after the second and third.
  const Mods1: map<TxId, Mod> := map[8 := Mod(100, 900, 4), 9 := Mod(1000, 8000, 4)]
  const Mods2: map<TxId, Mod> := map[9 := Mod(500, 3000, 0)]
  const Mods3: map<TxId, Mod> := map[8 := Mod(100, 900, 4)]
  const Block2 := Block([8], {8}, 4400, 404, 1, 900)
  const Block3 := Block([8, 9], {8, 9}, 8400, 408, 2, 8900)

  lemma SharedAncestors()
    ensures Valid(SharedPool)
    ensures Anc(SharedPool, 7) == {} && Anc(SharedPool, 8) == {7} && Anc(SharedPool, 9) == {7}
  {}

  lemma SumOne(pool: Pool, q: Measure, t: TxId)
    ensures Sum(pool, q, {t}) == Of(pool, q, t)
  {
    SumWithout(pool, q, {t}, t);
    assert {t} - {t} == {};
  }

  lemma SharedSums(q: Measure, d: TxId)
    requires Valid(SharedPool) && (d == 8 || d == 9) && q != Weight
    ensures Sum(SharedPool, q, {7}) == Of(SharedPool, q, 7)
    ensures WithAncestors(SharedPool, q, d) == Of(SharedPool, q, 7) + Of(SharedPool, q, d)
  {
    SharedAncestors();
    SumOne(SharedPool, q, 7);
    SumWith(SharedPool, q, {7}, d);
  }

  lemma SharedExact()
    ensures Valid(SharedPool) && Exact(SharedPool)
  {
    SharedAncestors();
    hide Anc, Sum;
    forall t | t in SharedPool.txs
      ensures SharedPool.txs[t].countWithAncestors == |Anc(SharedPool, t)| + 1
      ensures SharedPool.txs[t].sizeWithAncestors == WithAncestors(SharedPool, VSize, t)
      ensures SharedPool.txs[t].sigOpsWithAncestors == WithAncestors(SharedPool, SigOps, t)
    {
      if t == 7 {
        assert {} + {7} == {7};
        SumOne(SharedPool, VSize, 7);
        SumOne(SharedPool, SigOps, 7);
      } else {
        SharedSums(VSize, t);
        SharedSums(SigOps, t);
      }
    }
  }

  lemma SortedPair(pool: Pool, package: set<TxId>, a: TxId, b: TxId)
    requires Valid(pool) && a in pool.txs && b in pool.txs && a != b && Before(pool, a, b) && package == {a, b}
    ensures SortedForBlock(pool, package, [a, b])
  {
    hide Before;
    var s := [a, b];
    assert s[0] in Members(s) && s[1] in Members(s);
    assert Members(s) == {a, b};
  }

  /** How a pair of a failing contract and a plain child goes in. */
  lemma PairAdded(pool: Pool, b: Block, mods: map<TxId, Mod>, f: TxId, x: TxId)
    requires f in pool.txs && x in pool.txs && pool.txs[f].contract && !pool.txs[x].contract
    ensures AddAll(pool, b, [f, x], {f}) == Added(pool, b, x)
    ensures Erased(pool, mods, [f, x], {f}) == mods - {x}
  {
    assert [f, x][..1] == [f] && [f][..0] == [];
    assert AddAll(pool, b, [], {f}) == b && AddAll(pool, b, [f], {f}) == b;
    assert Erased(pool, mods, [], {f}) == mods && Erased(pool, mods, [f], {f}) == mods;
  }

  /** The contract fails on its own; both children now count as if it were in the block. */
  lemma FirstRound()
    requires Valid(SharedPool)
    ensures Round(SharedPool, EmptyBlock, map[], 7, [7], {7}, EmptyBlock, Mods1)
  {
    SharedAncestors();
    hide Anc, Sum, WithAncestors, Of;
    var s := [7];
    assert s[0] in Members(s);
    assert Members(s) == {7} == Package(SharedPool, EmptyBlock, 7);
    assert s[..0] == [];
    assert AddAll(SharedPool, EmptyBlock, [], {7}) == EmptyBlock;
    assert Erased(SharedPool, map[], [], {7}) == map[];
    forall d ensures EntryUpdated(SharedPool, {7}, {7}, map[], Mods1, d) {
      if d == 8 || d == 9 { FreshEntry(d); }
    }
  }

  lemma FreshEntry(d: TxId)
    requires Valid(SharedPool) && (d == 8 || d == 9)
    ensures {7} * Anc(SharedPool, d) == {7}
    ensures Remaining(SharedPool, VSize, WithAncestors(SharedPool, VSize, d), {7}, d) == if d == 8 then 100 else 1000
    ensures Remaining(SharedPool, SigOps, WithAncestors(SharedPool, SigOps, d), {7}, d) == 4
  {
    hide Anc, Sum, WithAncestors;
    SharedAncestors();
    SharedSums(VSize, d);
    SharedSums(SigOps, d);
    assert {7} * {7} == {7};
  }

  lemma PairPackage(b: Block, x: TxId)
    requires Valid(SharedPool) && (x == 8 || x == 9) && 7 !in b.inBlock
    ensures Package(SharedPool, b, x) == {7, x} && SortedForBlock(SharedPool, {7, x}, [7, x])
  {
    SharedAncestors();
    hide Anc;
    SortedPair(SharedPool, {7, x}, 7, x);
  }

  /** A child goes in without the contract. */
  lemma PairRound(b: Block, mods: map<TxId, Mod>, x: TxId, mods': map<TxId, Mod>)
    requires Valid(SharedPool) && (x == 8 || x == 9) && 7 !in b.inBlock && x !in b.inBlock
    requires Updated(SharedPool, {7, x}, {7, x}, mods - {x}, mods')
    ensures Round(SharedPool, b, mods, x, [7, x], {7}, Added(SharedPool, b, x), mods')
  {
    PairPackage(b, x);
    PairAdded(SharedPool, b, mods, 7, x);
    hide Anc, Package, SortedForBlock, AddAll, Erased, Updated;
  }

  /** From the other child the contract is taken off once more. */
  lemma PairUpdated(x: TxId, y: TxId, mods: map<TxId, Mod>, e: Mod)
    requires Valid(SharedPool) && ((x == 8 && y == 9) || (x == 9 && y == 8))
    requires mods.Keys <= {x, y}
    requires e.size == Total(SharedPool, VSize, mods, y) - 500 && e.sigOps == Total(SharedPool, SigOps, mods, y) - 4
    ensures Updated(SharedPool, {7, x}, {7, x}, mods - {x}, map[y := e])
  {
    SharedAncestors();
    hide Anc;
    forall d ensures EntryUpdated(SharedPool, {7, x}, {7, x}, mods - {x}, map[y := e], d) {
      if d == y { PairEntry(x, y, mods, e); }
    }
  }

  lemma PairEntry(x: TxId, y: TxId, mods: map<TxId, Mod>, e: Mod)
    requires Valid(SharedPool) && ((x == 8 && y == 9) || (x == 9 && y == 8))
    requires e.size == Total(SharedPool, VSize, mods, y) - 500 && e.sigOps == Total(SharedPool, SigOps, mods, y) - 4
    ensures EntryUpdated(SharedPool, {7, x}, {7, x}, mods - {x}, map[y := e], y)
  {
    hide Anc, Sum, WithAncestors;
    SharedAncestors();
    SharedSums(VSize, y);
    SharedSums(SigOps, y);
    assert {7, x} * {7} == {7};
  }

  /** One child goes in, and the contract is taken off the other a second time. */
  lemma SecondRound()
    requires Valid(SharedPool)
    ensures Round(SharedPool, EmptyBlock, Mods1, 8, [7, 8], {7}, Block2, Mods2)
  {
    hide Anc, Round, Updated, Sum;
    PairUpdated(8, 9, Mods1, Mods2[9]);
    PairRound(EmptyBlock, Mods1, 8, Mods2);
    assert Added(SharedPool, EmptyBlock, 8) == Block2;
  }

  /** The other child passes the test with half its size and goes in; the first one comes back into the modified set. */
  lemma ThirdRound()
    requires Valid(SharedPool)
    ensures Round(SharedPool, Block2, Mods2, 9, [7, 9], {7}, Block3, Mods3)
  {
    ThirdUpdate();
    hide Anc, Round, Updated;
    PairRound(Block2, Mods2, 9, Mods3);
    assert Added(SharedPool, Block2, 9) == Block3;
  }

  lemma ThirdUpdate()
    requires Valid(SharedPool)
    ensures Updated(SharedPool, {7, 9}, {7, 9}, Mods2 - {9}, Mods3)
  {
    hide Anc, Updated, Sum, WithAncestors;
    SharedSums(VSize, 8);
    SharedSums(SigOps, 8);
    PairUpdated(9, 8, Mods2, Mods3[8]);
  }

  /**
   With a contract that keeps failing, three rounds that each take the best fee rate and pass the test
   leave the block over its limit, without the parent of either child, and with a transaction
   of the block in the modified set.
   */
  lemma FailedContractBreaksRun()
    ensures Valid(SharedPool) && Exact(SharedPool)
    ensures Round(SharedPool, EmptyBlock, map[], 7, [7], {7}, EmptyBlock, Mods1) && TestPackage(EmptyBlock, SharedLimit, 500, 4)
    ensures Round(SharedPool, EmptyBlock, Mods1, 8, [7, 8], {7}, Block2, Mods2)
    ensures TestPackage(EmptyBlock, SharedLimit, Mods1[8].size, Mods1[8].sigOps)
    ensures Mods1[8].fees * Mods1[9].size > Mods1[9].fees * Mods1[8].size
    ensures Round(SharedPool, Block2, Mods2, 9, [7, 9], {7}, Block3, Mods3)
    ensures TestPackage(Block2, SharedLimit, Mods2[9].size, Mods2[9].sigOps)
    ensures !WithinLimits(Block3, SharedLimit) && 7 !in Block3.inBlock && !Apart(Block3, Mods3)
  {
    SharedExact();
    FirstRound();
    SecondRound();
    ThirdRound();
    hide Round;
    assert 8 in Block3.inBlock && 8 in Mods3.Keys;
  }

  /** A plain transaction and a contract that spends from it. */
  const LoopPool := Pool(map[6 := Tx({}, 0, 400, 4, 1000, 1000, true, false, 1, 100, 1000, 4),
                             7 := Tx({6}, 1, 400, 4, 1000, 1000, true, true, 2, 200, 2000, 8)], 20)

  const LoopBlock := Block([6], {6}, 4400, 404, 1, 1000)
  const LoopMods: map<TxId, Mod> := map[7 := Mod(100, 1000, 4)]

  lemma LoopAncestors()
    ensures Valid(LoopPool) && Anc(LoopPool, 6) == {} && Anc(LoopPool, 7) == {6}
  {}

  lemma OneSorted(pool: Pool, t: TxId)
    requires Valid(pool) && t in pool.txs
    ensures SortedForBlock(pool, {t}, [t])
  {
    assert [t][0] in Members([t]);
    assert Members([t]) == {t};
  }

  lemma LoopUpdate()
    requires Valid(LoopPool)
    ensures Updated(LoopPool, {6}, {6}, map[], LoopMods)
  {
    hide Anc, Sum;
    LoopAncestors();
    SumOne(LoopPool, VSize, 6);
    SumOne(LoopPool, SigOps, 6);
    SumWith(LoopPool, VSize, {6}, 7);
    SumWith(LoopPool, SigOps, {6}, 7);
    assert {6} * {6} == {6};
  }

  lemma LoopEntered()
    requires Valid(LoopPool)
    ensures Round(LoopPool, EmptyBlock, map[], 6, [6], {7}, LoopBlock, LoopMods)
  {
    LoopAncestors();
    LoopUpdate();
    OneSorted(LoopPool, 6);
    hide Anc, Updated, SortedForBlock;
    assert Package(LoopPool, EmptyBlock, 6) == {6};
    assert [6][..0] == [];
    assert AddAll(LoopPool, EmptyBlock, [], {7}) == EmptyBlock && Erased(LoopPool, map[], [], {7}) == map[];
    assert Added(LoopPool, EmptyBlock, 6) == LoopBlock;
  }

  lemma LoopRepeats()
    requires Valid(LoopPool)
    ensures Round(LoopPool, LoopBlock, LoopMods, 7, [7], {7}, LoopBlock, LoopMods)
  {
    LoopAncestors();
    OneSorted(LoopPool, 7);
    assert Package(LoopPool, LoopBlock, 7) == {7};
    assert [7][..0] == [];
    assert AddAll(LoopPool, LoopBlock, [], {7}) == LoopBlock && Erased(LoopPool, LoopMods, [], {7}) == LoopMods;
    hide Anc, SortedForBlock;
    forall d ensures EntryUpdated(LoopPool, {7}, {7}, LoopMods, LoopMods, d) {
      if d == 6 { assert {7} * {} == {}; }
    }
  }

  /** A contract that fails again and again from the modified set brings the loop back to the state it was in. */
  lemma FailedContractLoops()
    ensures Valid(LoopPool)
    ensures Round(LoopPool, EmptyBlock, map[], 6, [6], {7}, LoopBlock, LoopMods)
    ensures Round(LoopPool, LoopBlock, LoopMods, 7, [7], {7}, LoopBlock, LoopMods)
    ensures TestPackage(LoopBlock, SharedLimit, LoopMods[7].size, LoopMods[7].sigOps)
  {
    LoopAncestors();
    LoopEntered();
    LoopRepeats();
  }

  // ---------------------------------------------------------------- runs

  /** A contract fails. */
  ghost predicate Fails(pool: Pool, failing: set<TxId>, t: TxId) {
    t in failing && t in pool.txs && pool.txs[t].contract
  }

  /** No failing contract has an ancestor or a descendant in the pool. */
  ghost predicate Isolated(pool: Pool, failing: set<TxId>)
    requires Valid(pool)
  {
    forall t :: Fails(pool, failing, t) ==> Anc(pool, t) == {} && Desc(pool, t) == {}
  }

  /** What the loop keeps. */
  ghost predicate LoopOk(pool: Pool, maxWeight: nat, b: Block, mods: map<TxId, Mod>, failing: set<TxId>)
    requires Valid(pool)
  {
    && BlockOk(pool, b) && WithinLimits(b, maxWeight) && ModsOk(pool, b, mods)
    && (forall t :: t in mods ==> !Fails(pool, failing, t))
    && (forall t :: t in b.inBlock ==> t in pool.txs && pool.txs[t].includable && !Fails(pool, failing, t))
  }

  /** An isolated contract that fails is alone in its package, and skipping it changes nothing. */
  lemma IsolatedRound(pool: Pool, b: Block, mods: map<TxId, Mod>, t: TxId, sorted: seq<TxId>, failing: set<TxId>,
                      b': Block, mods': map<TxId, Mod>)
    requires Valid(pool) && Isolated(pool, failing) && Fails(pool, failing, t)
    requires Round(pool, b, mods, t, sorted, failing, b', mods')
    ensures b' == b && mods' == mods
  {
    hide Anc, Round;
    assert t in pool.txs && Package(pool, b, t) == {t};
    forall d | IsAncestor(pool, t, d) ensures d in Desc(pool, t) {}
    SkippedRoundRepeats(pool, b, mods, t, sorted, failing, b', mods');
  }

  lemma NoneSkipped(pool: Pool, b: Block, t: TxId, failing: set<TxId>)
    requires Valid(pool) && Isolated(pool, failing) && t in pool.txs && !Fails(pool, failing, t)
    ensures forall x :: x in Package(pool, b, t) ==> !Fails(pool, failing, x)
    ensures t in Package(pool, b, t) && SkippedBy(pool, b, t, failing) == {}
  {
    hide Anc;
    forall x | x in Package(pool, b, t) ensures !Fails(pool, failing, x) {
      assert x != t ==> t in Desc(pool, x);
    }
  }

  // ---------------------------------------------------------------- the code of the assembler

  // ---------------------------------------------------------------- the best fee rate

  datatype Candidate = Candidate(id: TxId, fees: int, size: int)

  /** The order of both indexes: the higher fee rate first, then the smaller hash. */
  predicate Better(a: Candidate, b: Candidate) {
    a.fees * b.size > b.fees * a.size || (a.fees * b.size == b.fees * a.size && a.id < b.id)
  }

  lemma TimesMonotone(x: int, y: int, m: nat)
    requires m > 0
    ensures x * m >= y * m <==> x >= y
  {}

  /** Multiplied out, with three sizes in each term. */
  lemma CrossProducts(af: int, a: nat, bf: int, b: nat, cf: int, c: nat)
    requires af * b >= bf * a && bf * c >= cf * b
    ensures (af * c) * b >= (bf * a) * c && (bf * a) * c == (bf * c) * a && (bf * c) * a >= (cf * a) * b
  {
    assert (af * c) * b == (af * b) * c && (cf * a) * b == (cf * b) * a;
    TimesAtLeast(af * b, bf * a, c);
    TimesAtLeast(bf * c, cf * b, a);
  }

  lemma TimesAtLeast(x: int, y: int, m: nat)
    requires x >= y
    ensures x * m >= y * m
  {}

  lemma BetterTransitive(a: Candidate, b: Candidate, c: Candidate)
    requires a.size > 0 && b.size > 0 && c.size > 0 && Better(a, b) && Better(b, c)
    ensures Better(a, c)
  {
    CrossProducts(a.fees, a.size, b.fees, b.size, c.fees, c.size);
    TimesMonotone(a.fees * c.size, c.fees * a.size, b.size);
    if a.fees * c.size == c.fees * a.size {
      TimesMonotone(b.fees * a.size, a.fees * b.size, c.size);
      TimesMonotone(c.fees * b.size, b.fees * c.size, a.size);
      assert (a.fees * b.size) * c.size == (a.fees * c.size) * b.size;
      assert (c.fees * b.size) * a.size == (c.fees * a.size) * b.size;
    }
  }

  function FromPool(pool: Pool, t: TxId): Candidate
    requires t in pool.txs
  {
    Candidate(t, pool.txs[t].feesWithAncestors, pool.txs[t].sizeWithAncestors)
  }

  function FromMods(mods: map<TxId, Mod>, t: TxId): Candidate
    requires t in mods
  {
    Candidate(t, mods[t].fees, mods[t].size)
  }

  /** The pool in the order of its ancestor-score index. */
  ghost predicate ByScore(pool: Pool, byScore: seq<TxId>) {
    && (forall i :: 0 <= i < |byScore| ==> byScore[i] in pool.txs)
    && (forall i, j :: 0 <= i < j < |byScore| ==> Better(FromPool(pool, byScore[i]), FromPool(pool, byScore[j])))
  }

  /** No transaction is empty. */
  ghost predicate NoneEmpty(pool: Pool) {
    forall t :: t in pool.txs ==> pool.txs[t].weight > 0 && pool.txs[t].sizeWithAncestors > 0
  }

  ghost predicate Sized(mods: map<TxId, Mod>) {
    forall t :: t in mods ==> mods[t].size > 0
  }

  /** What one round chose, and what it chose from: the modified set and the rest of the index. */
  datatype Pick = Pick(chosen: Candidate, mods: map<TxId, Mod>, rest: seq<TxId>)

  /** The choice is one of the entries left, and better than every other. */
  ghost predicate IsBest(pool: Pool, p: Pick) {
    && (forall i :: 0 <= i < |p.rest| ==> p.rest[i] in pool.txs)
    && (if p.chosen.id in p.mods then p.chosen == FromMods(p.mods, p.chosen.id)
        else |p.rest| > 0 && p.chosen == FromPool(pool, p.rest[0]))
    && (forall t :: t in p.mods && t != p.chosen.id ==> Better(p.chosen, FromMods(p.mods, t)))
    && (forall i :: 0 <= i < |p.rest| && p.rest[i] != p.chosen.id ==> Better(p.chosen, FromPool(pool, p.rest[i])))
  }

  ghost predicate AllBest(pool: Pool, picks: seq<Pick>) {
    forall k :: 0 <= k < |picks| ==> IsBest(pool, picks[k])
  }

  /** A cached total that covers a package is positive. */
  lemma CoveredIsSized(pool: Pool, b: Block, mods: map<TxId, Mod>)
    requires Valid(pool) && NoneEmpty(pool) && ModsOk(pool, b, mods)
    ensures Sized(mods)
  {
    hide Anc, Sum;
    forall t | t in mods ensures mods[t].size > 0 {
      assert t in Package(pool, b, t);
      SumWithout(pool, VSize, Package(pool, b, t), t);
    }
  }

  /** What became of the package under consideration. */
  datatype Outcome = FeeTooLow | TooBig | NotIncludable | Selected

  class BlockAssembler {
    const pool: Pool
    const nBlockMaxWeight: nat
    /** The fee that the minimum fee rate asks for a package of a given size. */
    const minFee: int -> int
    var vtx: seq<TxId>
    var inBlock: set<TxId>
    var nBlockWeight: nat
    var nBlockSigOpsCost: nat
    var nBlockTx: nat
    var nFees: int

    ghost function Abs(): Block
      reads this
    {
      Block(vtx, inBlock, nBlockWeight, nBlockSigOpsCost, nBlockTx, nFees)
    }

    constructor (mempool: Pool, maxWeightOption: nat, minFeeRate: int -> int)
      ensures pool == mempool && minFee == minFeeRate && nBlockMaxWeight == ClampWeight(maxWeightOption)
      ensures Abs() == EmptyBlock
    {
      pool, minFee := mempool, minFeeRate;
      nBlockMaxWeight := ClampWeight(maxWeightOption);
      vtx, inBlock, nBlockTx, nFees := [], {}, 0, 0;
      nBlockWeight, nBlockSigOpsCost := COINBASE_WEIGHT, COINBASE_SIGOPS;
    }

    method AddToBlock(t: TxId)
      requires t in pool.txs
      modifies this
      ensures Abs() == Added(pool, old(Abs()), t)
    {
      vtx := vtx + [t];
      nBlockWeight := nBlockWeight + Of(pool, Weight, t);
      nBlockTx := nBlockTx + 1;
      nBlockSigOpsCost := nBlockSigOpsCost + Of(pool, SigOps, t);
      nFees := nFees + pool.txs[t].fee;
      inBlock := inBlock + {t};
    }

    /** Stands for std::sort with the ancestor-count comparator. */
    method SortForBlock(package: set<TxId>) returns (sorted: seq<TxId>)
      requires Valid(pool) && Exact(pool) && package <= pool.txs.Keys
      ensures SortedForBlock(pool, package, sorted)
    {
      hide Before, Exact;
      sorted := [];
      var rest := package;
      assert Members(sorted) == {};
      while rest != {}
        invariant rest <= package && SortedForBlock(pool, package - rest, sorted)
        invariant forall i, t :: 0 <= i < |sorted| && t in rest ==> Before(pool, sorted[i], t)
        decreases rest
      {
        var t := FirstOf(rest);
        SortedSnoc(package - rest, sorted, t);
        assert package - rest + {t} == package - (rest - {t});
        sorted := sorted + [t];
        rest := rest - {t};
      }
      assert package - {} == package;
    }

    lemma SortedSnoc(package: set<TxId>, sorted: seq<TxId>, t: TxId)
      requires Valid(pool) && SortedForBlock(pool, package, sorted) && t in pool.txs && t !in package
      requires forall i :: 0 <= i < |sorted| ==> Before(pool, sorted[i], t)
      ensures SortedForBlock(pool, package + {t}, sorted + [t])
    {
      hide Before;
      MembersSnoc(sorted, t);
      forall i | 0 <= i < |sorted| ensures sorted[i] != t { assert sorted[i] in Members(sorted); }
    }

    method FirstOf(s: set<TxId>) returns (t: TxId)
      requires Valid(pool) && Exact(pool) && s <= pool.txs.Keys && s != {}
      ensures t in s && forall u :: u in s && u != t ==> Before(pool, t, u)
    {
      hide Anc;
      t :| t in s;
      var todo := s - {t};
      while todo != {}
        invariant todo <= s && t in s
        invariant forall u :: u in s && u !in todo && u != t ==> Before(pool, t, u)
        decreases todo
      {
        var u :| u in todo;
        assert u in pool.txs && t in pool.txs;
        if pool.txs[u].countWithAncestors < pool.txs[t].countWithAncestors ||
           (pool.txs[u].countWithAncestors == pool.txs[t].countWithAncestors && u < t) {
          t := u;
        }
        todo := todo - {u};
      }
    }

    /** Adds the package and takes what went in out of the modified set. */
    method AddSorted(sorted: seq<TxId>, mods: map<TxId, Mod>, failing: set<TxId>) returns (left: map<TxId, Mod>)
      requires forall i :: 0 <= i < |sorted| ==> sorted[i] in pool.txs
      modifies this
      ensures Abs() == AddAll(pool, old(Abs()), sorted, failing)
      ensures left == Erased(pool, mods, sorted, failing)
    {
      left := mods;
      var i := 0;
      assert sorted[..0] == [];
      while i < |sorted|
        invariant 0 <= i <= |sorted|
        invariant Abs() == AddAll(pool, old(Abs()), sorted[..i], failing)
        invariant left == Erased(pool, mods, sorted[..i], failing)
      {
        assert sorted[..i + 1][..i] == sorted[..i];
        if pool.txs[sorted[i]].contract && sorted[i] in failing {
        } else {
          AddToBlock(sorted[i]);
          left := left - {sorted[i]};
        }
        i := i + 1;
      }
      assert sorted[..|sorted|] == sorted;
    }

    method UpdatePackagesForAdded(added: set<TxId>, mods: map<TxId, Mod>) returns (cur: map<TxId, Mod>)
      requires Valid(pool) && Exact(pool) && added <= pool.txs.Keys
      ensures Updated(pool, added, added, mods, cur)
    {
      hide Anc, EntryUpdated;
      cur := mods;
      var todo := added;
      NothingUpdated(mods, added);
      while todo != {}
        invariant todo <= added
        invariant Updated(pool, added, added - todo, mods, cur)
        decreases todo
      {
        var it :| it in todo;
        cur := UpdateDescendants(added, added - todo, it, mods, cur);
        assert added - todo + {it} == added - (todo - {it});
        todo := todo - {it};
      }
      assert added - {} == added;
    }

    lemma NothingUpdated(mods: map<TxId, Mod>, added: set<TxId>)
      requires Valid(pool)
      ensures Updated(pool, added, added - added, mods, mods)
    {
      hide Anc;
      forall d ensures EntryUpdated(pool, added, added - added, mods, mods, d) {
        if d in pool.txs { assert (added - added) * Anc(pool, d) == {}; }
      }
    }

    /** The inner loop of UpdatePackagesForAdded, for one transaction. */
    method UpdateDescendants(added: set<TxId>, ghost done: set<TxId>, it: TxId, ghost mods: map<TxId, Mod>, mods0: map<TxId, Mod>)
      returns (cur: map<TxId, Mod>)
      requires Valid(pool) && Exact(pool) && it in pool.txs && it !in done
      requires Updated(pool, added, done, mods, mods0)
      ensures Updated(pool, added, done + {it}, mods, cur)
    {
      hide Anc, EntryUpdated, Desc;
      cur := mods0;
      var todo := Desc(pool, it);
      forall d | d !in todo ensures EntryUpdated(pool, added, done + {it}, mods, cur, d) {
        EntryUnrelated(pool, added, done, it, mods, cur, d);
      }
      while todo != {}
        invariant todo <= Desc(pool, it)
        invariant forall d :: d in todo ==> EntryUpdated(pool, added, done, mods, cur, d)
        invariant forall d :: d !in todo ==> EntryUpdated(pool, added, done + {it}, mods, cur, d)
        decreases todo
      {
        var desc :| desc in todo;
        ghost var before := cur;
        InPool(it, desc);
        if desc in added {
          EntryOfAdded(pool, added, done, it, mods, cur, desc);
        } else {
          var tx := pool.txs[it];
          var e: Mod;
          if desc !in cur {
            var full := pool.txs[desc];
            e := Mod(full.sizeWithAncestors - Of(pool, VSize, it), full.feesWithAncestors - tx.modFee,
                     full.sigOpsWithAncestors - Of(pool, SigOps, it));
          } else {
            e := Mod(cur[desc].size - Of(pool, VSize, it), cur[desc].fees - tx.fee,
                     cur[desc].sigOps - Of(pool, SigOps, it));
          }
          EntrySubtracted(pool, added, done, it, mods, cur, desc, e);
          cur := cur[desc := e];
          forall d | d != desc
            ensures EntryUpdated(pool, added, done, mods, before, d) ==> EntryUpdated(pool, added, done, mods, cur, d)
            ensures EntryUpdated(pool, added, done + {it}, mods, before, d) ==> EntryUpdated(pool, added, done + {it}, mods, cur, d)
          {
            EntryFrame(added, done, mods, before, cur, d);
            EntryFrame(added, done + {it}, mods, before, cur, d);
          }
        }
        todo := todo - {desc};
      }
    }

    lemma InPool(it: TxId, d: TxId)
      requires Valid(pool) && d in Desc(pool, it)
      ensures d in pool.txs
    {}

    lemma EntryFrame(added: set<TxId>, done: set<TxId>, mods: map<TxId, Mod>, cur: map<TxId, Mod>, cur': map<TxId, Mod>, d: TxId)
      requires Valid(pool) && (d in cur <==> d in cur') && (d in cur ==> cur[d] == cur'[d])
      ensures EntryUpdated(pool, added, done, mods, cur, d) ==> EntryUpdated(pool, added, done, mods, cur', d)
    {}

    method TestPackageTransactions(package: set<TxId>) returns (ok: bool)
      requires package <= pool.txs.Keys
      ensures ok <==> forall t :: t in package ==> pool.txs[t].includable
    {
      var todo := package;
      while todo != {}
        invariant todo <= package
        invariant forall t :: t in package && t !in todo ==> pool.txs[t].includable
        decreases todo
      {
        var t :| t in todo;
        if !pool.txs[t].includable {
          return false;
        }
        todo := todo - {t};
      }
      ok := true;
    }

    /** One package: sorted, added, and taken off the totals of its descendants. */
    method SelectPackage(iter: TxId, ancestors: set<TxId>, mods: map<TxId, Mod>, failing: set<TxId>)
      returns (left: map<TxId, Mod>, ghost sorted: seq<TxId>)
      requires Valid(pool) && Exact(pool) && iter in pool.txs && iter !in inBlock && ancestors == Package(pool, Abs(), iter)
      modifies this
      ensures Round(pool, old(Abs()), mods, iter, sorted, failing, Abs(), left)
    {
      hide Anc, Updated, SortedForBlock, Exact;
      PackageInPool(Abs(), iter);
      var entries := SortForBlock(ancestors);
      sorted := entries;
      SortedInPool(ancestors, entries);
      left := AddSorted(entries, mods, failing);
      left := UpdatePackagesForAdded(ancestors, left);
    }

    lemma SortedInPool(package: set<TxId>, sorted: seq<TxId>)
      requires Valid(pool) && SortedForBlock(pool, package, sorted)
      ensures forall i :: 0 <= i < |sorted| ==> sorted[i] in pool.txs
    {}

    /** The front of the modified set in the order of its score index. */
    method BestModified(mods: map<TxId, Mod>) returns (best: TxId)
      requires mods != map[] && Sized(mods)
      ensures best in mods && forall t :: t in mods && t != best ==> Better(FromMods(mods, best), FromMods(mods, t))
    {
      hide Better;
      best :| best in mods;
      var todo := mods.Keys - {best};
      while todo != {}
        invariant todo <= mods.Keys && best in mods && best !in todo
        invariant forall t :: t in mods && t !in todo && t != best ==> Better(FromMods(mods, best), FromMods(mods, t))
        decreases todo
      {
        var t :| t in todo;
        ghost var was := best;
        if Better(FromMods(mods, t), FromMods(mods, best)) {
          best := t;
        }
        TotalOrder(FromMods(mods, t), FromMods(mods, was));
        forall u | u in mods && u !in todo && u != was && best == t ensures Better(FromMods(mods, t), FromMods(mods, u)) {
          BetterTransitive(FromMods(mods, t), FromMods(mods, was), FromMods(mods, u));
        }
        todo := todo - {t};
      }
    }

    lemma TotalOrder(a: Candidate, b: Candidate)
      requires a.id != b.id
      ensures Better(a, b) <==> !Better(b, a)
    {}

    /** The next entry of the index, or the best of the modified set if that is better. */
    method ChooseEntry(byScore: seq<TxId>, mi: nat, mods: map<TxId, Mod>) returns (iter: TxId, fUsingModified: bool, next: nat)
      requires ByScore(pool, byScore) && NoneEmpty(pool) && Sized(mods)
      requires mi <= |byScore| && (mi < |byScore| || mods != map[]) && (mi < |byScore| ==> byScore[mi] !in mods)
      ensures if fUsingModified then iter in mods && next == mi else mi < |byScore| && iter == byScore[mi] && next == mi + 1
      ensures fUsingModified <==> iter in mods
      ensures iter in pool.txs || iter in mods
      ensures IsBest(pool, Pick(if iter in mods then FromMods(mods, iter) else FromPool(pool, iter), mods, byScore[mi..]))
    {
      hide Better;
      next := mi;
      fUsingModified := false;
      if mi == |byScore| {
        iter := BestModified(mods);
        fUsingModified := true;
      } else {
        iter := byScore[mi];
        if mods != map[] {
          var modit := BestModified(mods);
          if Better(FromMods(mods, modit), FromPool(pool, iter)) {
            ModifiedIsBest(byScore, mi, mods, modit);
            iter := modit;
            fUsingModified := true;
          } else {
            IndexIsBest(byScore, mi, mods, modit);
            next := mi + 1;
          }
        } else {
          next := mi + 1;
        }
      }
    }

    lemma ModifiedIsBest(byScore: seq<TxId>, mi: nat, mods: map<TxId, Mod>, best: TxId)
      requires ByScore(pool, byScore) && NoneEmpty(pool) && Sized(mods) && mi < |byScore| && best in mods
      requires Better(FromMods(mods, best), FromPool(pool, byScore[mi]))
      ensures forall j :: mi <= j < |byScore| ==> Better(FromMods(mods, best), FromPool(pool, byScore[j]))
    {
      hide Better;
      forall j | mi < j < |byScore| ensures Better(FromMods(mods, best), FromPool(pool, byScore[j])) {
        BetterTransitive(FromMods(mods, best), FromPool(pool, byScore[mi]), FromPool(pool, byScore[j]));
      }
    }

    lemma IndexIsBest(byScore: seq<TxId>, mi: nat, mods: map<TxId, Mod>, best: TxId)
      requires ByScore(pool, byScore) && NoneEmpty(pool) && Sized(mods) && mi < |byScore| && byScore[mi] !in mods && best in mods
      requires !Better(FromMods(mods, best), FromPool(pool, byScore[mi]))
      requires forall t :: t in mods && t != best ==> Better(FromMods(mods, best), FromMods(mods, t))
      ensures forall t :: t in mods ==> Better(FromPool(pool, byScore[mi]), FromMods(mods, t))
    {
      hide Better;
      TotalOrder(FromMods(mods, best), FromPool(pool, byScore[mi]));
      forall t | t in mods && t != best ensures Better(FromPool(pool, byScore[mi]), FromMods(mods, t)) {
        BetterTransitive(FromPool(pool, byScore[mi]), FromMods(mods, best), FromMods(mods, t));
      }
    }

    /** A package that is not taken leaves the modified set, if that is where it came from. */
    ghost predicate Dropped(fUsingModified: bool, iter: TxId, mods: map<TxId, Mod>, left: map<TxId, Mod>) {
      left == if fUsingModified then mods - {iter} else mods
    }

    /** Tests the package of one entry and adds it if it may go in. */
    method Consider(iter: TxId, fUsingModified: bool, mods: map<TxId, Mod>, failing: set<TxId>)
      returns (left: map<TxId, Mod>, outcome: Outcome)
      requires Valid(pool) && Exact(pool) && Isolated(pool, failing) && LoopOk(pool, nBlockMaxWeight, Abs(), mods, failing)
      requires if fUsingModified then iter in mods else iter in pool.txs && iter !in inBlock
      modifies this
      ensures LoopOk(pool, nBlockMaxWeight, Abs(), left, failing)
      ensures outcome != Selected ==> Abs() == old(Abs())
      ensures outcome == TooBig || outcome == NotIncludable ==> Dropped(fUsingModified, iter, mods, left)
      ensures outcome == Selected ==>
                Unselected(pool, Abs()) < Unselected(pool, old(Abs())) || (!fUsingModified && Abs() == old(Abs()))
      ensures forall t :: t in inBlock && t !in old(inBlock) ==> t == iter || IsAncestor(pool, t, iter)
    {
      hide Anc, Covers, Isolated, Exact, Fails, Round, LoopOk, Package;
      if fUsingModified { ModFacts(Abs(), mods, failing, iter); } else { FullFacts(Abs(), iter); }
      assert iter !in inBlock;
      var packageSize, packageFees, packageSigOpsCost: int :=
        pool.txs[iter].sizeWithAncestors, pool.txs[iter].feesWithAncestors, pool.txs[iter].sigOpsWithAncestors;
      if fUsingModified {
        packageSize, packageFees, packageSigOpsCost := mods[iter].size, mods[iter].fees, mods[iter].sigOps;
      }
      LoopShrinks(Abs(), mods, failing, iter);
      if packageFees < minFee(packageSize) {
        return mods, FeeTooLow;
      }
      if !TestPackage(Block(vtx, inBlock, nBlockWeight, nBlockSigOpsCost, nBlockTx, nFees),
                      nBlockMaxWeight, packageSize, packageSigOpsCost) {
        return if fUsingModified then mods - {iter} else mods, TooBig;
      }
      var ancestors := Package(pool, Block(vtx, inBlock, nBlockWeight, nBlockSigOpsCost, nBlockTx, nFees), iter);
      PackageInPool(Abs(), iter);
      var allIncludable := TestPackageTransactions(ancestors);
      if !allIncludable {
        return if fUsingModified then mods - {iter} else mods, NotIncludable;
      }
      ghost var sorted;
      left, sorted := SelectPackage(iter, ancestors, mods, failing);
      RoundKeeps(old(Abs()), Abs(), iter, sorted, failing, mods, left, packageSize, packageSigOpsCost);
      RoundAdds(old(Abs()), Abs(), iter, sorted, failing, mods, left);
      outcome := Selected;
    }

    /** A transaction of the block belongs to the package of some round. */
    ghost predicate FromPicks(picks: seq<Pick>, t: TxId)
      requires Valid(pool)
    {
      exists k :: 0 <= k < |picks| && InPackageOf(picks[k], t)
    }

    ghost predicate InPackageOf(p: Pick, t: TxId)
      requires Valid(pool)
    {
      t == p.chosen.id || IsAncestor(pool, t, p.chosen.id)
    }

    ghost predicate AllPicked(picks: seq<Pick>, s: set<TxId>)
      requires Valid(pool)
    {
      forall t :: t in s ==> FromPicks(picks, t)
    }

    lemma NoPicks()
      requires Valid(pool)
      ensures AllPicked([], {}) && AllBest(pool, [])
    {}

    lemma MorePicks(picks: seq<Pick>, p: Pick, before: set<TxId>, after: set<TxId>)
      requires Valid(pool) && AllPicked(picks, before) && AllBest(pool, picks) && IsBest(pool, p)
      requires forall t :: t in after && t !in before ==> InPackageOf(p, t)
      ensures AllPicked(picks + [p], after) && AllBest(pool, picks + [p])
    {
      hide InPackageOf, IsBest;
      var more := picks + [p];
      forall t | t in after ensures FromPicks(more, t) {
        if t in before {
          var k :| 0 <= k < |picks| && InPackageOf(picks[k], t);
          assert InPackageOf(more[k], t);
        } else {
          assert InPackageOf(more[|picks|], t);
        }
      }
    }

    /**
     Selects packages until nothing is left.  `byScore` is the pool in the order of its
     ancestor-score index, `failing` the contracts whose execution fails; `picks` shows what each
     round chose and from what.
     */
    method AddPackageTxs(byScore: seq<TxId>, failing: set<TxId>) returns (ghost picks: seq<Pick>)
      requires Valid(pool) && Exact(pool) && Abs() == EmptyBlock
      requires ByScore(pool, byScore) && NoneEmpty(pool)
      requires Isolated(pool, failing)
      modifies this
      ensures BlockOk(pool, Abs()) && WithinLimits(Abs(), nBlockMaxWeight)
      ensures forall t :: t in inBlock ==> t in pool.txs && pool.txs[t].includable && !Fails(pool, failing, t)
      ensures AllBest(pool, picks) && AllPicked(picks, inBlock)
    {
      hide Anc, BlockOk, Isolated, Exact, Fails, LoopOk, WithinLimits, AllBest, NoneEmpty, AllPicked, ByScore, Unselected;
      var mods: map<TxId, Mod> := map[];
      var failedTx: set<TxId> := {};
      picks := [];
      StartIsOk(failing);
      NoPicks();
      var mi := 0;
      var nConsecutiveFailed := 0;
      while mi < |byScore| || mods != map[]
        invariant 0 <= mi <= |byScore|
        invariant LoopOk(pool, nBlockMaxWeight, Abs(), mods, failing)
        invariant AllBest(pool, picks) && AllPicked(picks, inBlock)
        decreases Unselected(pool, Abs()), |byScore| - mi, |mods|
      {
        if mi < |byScore| && (byScore[mi] in mods || byScore[mi] in inBlock || byScore[mi] in failedTx) {
          mi := mi + 1;
          continue;
        }
        var iter, fUsingModified, outcome;
        iter, fUsingModified, mi, mods, outcome, picks := NextPackage(byScore, mi, mods, failing, picks);
        match outcome
        case FeeTooLow =>
          break;
        case Selected =>
          nConsecutiveFailed := 0;
        case NotIncludable =>
          if fUsingModified { failedTx := failedTx + {iter}; }
        case TooBig =>
          if fUsingModified { failedTx := failedTx + {iter}; }
          nConsecutiveFailed := nConsecutiveFailed + 1;
          if nConsecutiveFailed > 1000 && nBlockWeight > nBlockMaxWeight - 4000 {
            break;
          }
      }
      LoopEnds(Abs(), mods, failing);
    }

    /** Chooses an entry that is not to be skipped and considers its package. */
    method NextPackage(byScore: seq<TxId>, mi: nat, mods: map<TxId, Mod>, failing: set<TxId>, ghost picks: seq<Pick>)
      returns (iter: TxId, fUsingModified: bool, next: nat, left: map<TxId, Mod>, outcome: Outcome, ghost more: seq<Pick>)
      requires Valid(pool) && Exact(pool) && Isolated(pool, failing) && LoopOk(pool, nBlockMaxWeight, Abs(), mods, failing)
      requires ByScore(pool, byScore) && NoneEmpty(pool) && AllBest(pool, picks) && AllPicked(picks, inBlock)
      requires mi <= |byScore| && (mi < |byScore| || mods != map[])
      requires mi < |byScore| ==> byScore[mi] !in mods && byScore[mi] !in inBlock
      modifies this
      ensures next <= |byScore| && LoopOk(pool, nBlockMaxWeight, Abs(), left, failing)
      ensures AllBest(pool, more) && AllPicked(more, inBlock)
      ensures outcome != FeeTooLow ==>
                Nearer(Unselected(pool, Abs()), |byScore| - next, |left|, Unselected(pool, old(Abs())), |byScore| - mi, |mods|)
    {
      hide Anc, Isolated, Exact, LoopOk, IsBest, NoneEmpty, AllBest, AllPicked, Sized, Better, Unselected, FromPool, FromMods;
      LoopIsSized(Abs(), mods, failing);
      iter, fUsingModified, next := ChooseEntry(byScore, mi, mods);
      ghost var pick := Pick(if iter in mods then FromMods(mods, iter) else FromPool(pool, iter), mods, byScore[mi..]);
      PickIsFor(pick.chosen, mods, iter);
      if fUsingModified { Without(mods, iter); }
      left, outcome := Consider(iter, fUsingModified, mods, failing);
      MorePicks(picks, pick, old(inBlock), inBlock);
      more := picks + [pick];
    }

    lemma PickIsFor(c: Candidate, mods: map<TxId, Mod>, t: TxId)
      requires if t in mods then c == FromMods(mods, t) else t in pool.txs && c == FromPool(pool, t)
      ensures c.id == t
    {}

    lemma LoopIsSized(b: Block, mods: map<TxId, Mod>, failing: set<TxId>)
      requires Valid(pool) && NoneEmpty(pool) && LoopOk(pool, nBlockMaxWeight, b, mods, failing)
      ensures Sized(mods)
    {
      hide BlockOk, WithinLimits, Fails, ModsOk, NoneEmpty, Sized;
      CoveredIsSized(pool, b, mods);
    }

    lemma StartIsOk(failing: set<TxId>)
      requires Valid(pool)
      ensures LoopOk(pool, nBlockMaxWeight, EmptyBlock, map[], failing)
    {
      assert Members(EmptyBlock.vtx) == {};
    }

    lemma LoopEnds(b: Block, mods: map<TxId, Mod>, failing: set<TxId>)
      requires Valid(pool) && LoopOk(pool, nBlockMaxWeight, b, mods, failing)
      ensures BlockOk(pool, b) && WithinLimits(b, nBlockMaxWeight)
      ensures forall t :: t in b.inBlock ==> t in pool.txs && pool.txs[t].includable && !Fails(pool, failing, t)
    {
      hide BlockOk, WithinLimits, Fails, ModsOk;
    }

    lemma ModFacts(b: Block, mods: map<TxId, Mod>, failing: set<TxId>, t: TxId)
      requires Valid(pool) && LoopOk(pool, nBlockMaxWeight, b, mods, failing) && t in mods
      ensures t in pool.txs && t !in b.inBlock && Covers(pool, b, t, mods[t].size, mods[t].sigOps) && !Fails(pool, failing, t)
    {
      hide BlockOk, WithinLimits, Fails, Covers;
    }

    lemma FullFacts(b: Block, t: TxId)
      requires Valid(pool) && Exact(pool) && t in pool.txs
      ensures Covers(pool, b, t, pool.txs[t].sizeWithAncestors, pool.txs[t].sigOpsWithAncestors)
    {
      FullTotalsCover(pool, b, t);
    }

    lemma LoopShrinks(b: Block, mods: map<TxId, Mod>, failing: set<TxId>, t: TxId)
      requires Valid(pool) && LoopOk(pool, nBlockMaxWeight, b, mods, failing)
      ensures LoopOk(pool, nBlockMaxWeight, b, mods - {t}, failing)
    {
      hide BlockOk, WithinLimits, Fails, Covers;
    }

    lemma Without(mods: map<TxId, Mod>, t: TxId)
      requires t in mods
      ensures |mods - {t}| < |mods|
    {
      assert (mods - {t}).Keys == mods.Keys - {t};
      assert |(mods - {t}).Keys| == |mods - {t}| && |mods.Keys| == |mods|;
    }

    lemma PackageInPool(b: Block, t: TxId)
      requires Valid(pool) && t in pool.txs
      ensures Package(pool, b, t) <= pool.txs.Keys
    {
      hide Anc;
      forall x | x in Package(pool, b, t) ensures x in pool.txs { PackageIsClosed(pool, b, t, x); }
    }

    /** Only members of the package go in. */
    lemma RoundAdds(b: Block, b': Block, t: TxId, sorted: seq<TxId>, failing: set<TxId>, mods: map<TxId, Mod>, mods': map<TxId, Mod>)
      requires Valid(pool) && Round(pool, b, mods, t, sorted, failing, b', mods')
      ensures forall x :: x in b'.inBlock && x !in b.inBlock ==> x == t || IsAncestor(pool, x, t)
    {
      RoundIsFor(pool, b, mods, t, sorted, failing, b', mods');
      RoundEffect(pool, b, mods, t, sorted, failing, b', mods');
      hide Anc, Round, SkippedBy, Updated;
    }

    /** A whole round keeps everything the loop needs, and selects something or ends a failing contract's only turn. */
    lemma RoundKeeps(b: Block, b': Block, t: TxId, sorted: seq<TxId>, failing: set<TxId>, mods: map<TxId, Mod>, mods': map<TxId, Mod>,
                     size: int, sigOps: int)
      requires Valid(pool) && Isolated(pool, failing) && LoopOk(pool, nBlockMaxWeight, b, mods, failing)
      requires Round(pool, b, mods, t, sorted, failing, b', mods')
      requires Covers(pool, b, t, size, sigOps) && TestPackage(b, nBlockMaxWeight, size, sigOps)
      requires forall x :: x in Package(pool, b, t) ==> x in pool.txs && pool.txs[x].includable
      ensures LoopOk(pool, nBlockMaxWeight, b', mods', failing)
      ensures if Fails(pool, failing, t) then b' == b && mods' == mods else Unselected(pool, b') < Unselected(pool, b)
    {
      if Fails(pool, failing, t) {
        IsolatedRound(pool, b, mods, t, sorted, failing, b', mods');
      } else {
        RoundSelects(b, b', t, sorted, failing, mods, mods', size, sigOps);
      }
    }

    lemma RoundSelects(b: Block, b': Block, t: TxId, sorted: seq<TxId>, failing: set<TxId>, mods: map<TxId, Mod>, mods': map<TxId, Mod>,
                       size: int, sigOps: int)
      requires Valid(pool) && Isolated(pool, failing) && LoopOk(pool, nBlockMaxWeight, b, mods, failing) && !Fails(pool, failing, t)
      requires Round(pool, b, mods, t, sorted, failing, b', mods')
      requires Covers(pool, b, t, size, sigOps) && TestPackage(b, nBlockMaxWeight, size, sigOps)
      requires forall x :: x in Package(pool, b, t) ==> x in pool.txs && pool.txs[x].includable
      ensures LoopOk(pool, nBlockMaxWeight, b', mods', failing) && Unselected(pool, b') < Unselected(pool, b)
    {
      hide Anc, Round, Package, SkippedBy, BlockOk, ModsOk, Fails, Covers, Isolated, Unselected, TestPackage;
      RoundIsFor(pool, b, mods, t, sorted, failing, b', mods');
      NoneSkipped(pool, b, t, failing);
      RoundStaysWithin(pool, b, mods, t, sorted, failing, b', mods', nBlockMaxWeight, size, sigOps);
      WholePackageAdded(b, b', t, sorted, failing, mods, mods');
      RoundIncludes(b, b', t, sorted, failing, mods, mods');
      SelectedRound(pool, b, mods, t, sorted, failing, b', mods', t);
    }

    lemma RoundIncludes(b: Block, b': Block, t: TxId, sorted: seq<TxId>, failing: set<TxId>, mods: map<TxId, Mod>, mods': map<TxId, Mod>)
      requires Valid(pool) && Isolated(pool, failing) && LoopOk(pool, nBlockMaxWeight, b, mods, failing)
      requires Round(pool, b, mods, t, sorted, failing, b', mods') && SkippedBy(pool, b, t, failing) == {}
      requires forall x :: x in Package(pool, b, t) ==> x in pool.txs && pool.txs[x].includable && !Fails(pool, failing, x)
      ensures forall d :: d in mods' ==> !Fails(pool, failing, d)
      ensures forall x :: x in b'.inBlock ==> x in pool.txs && pool.txs[x].includable && !Fails(pool, failing, x)
    {
      RoundEffect(pool, b, mods, t, sorted, failing, b', mods');
      hide Anc, Round, Package, SkippedBy, BlockOk, ModsOk, Fails, Updated, WithinLimits;
      forall d | d in mods' ensures !Fails(pool, failing, d) {
        if d !in mods { assert Anc(pool, d) != {}; }
      }
    }

    lemma WholePackageAdded(b: Block, b': Block, t: TxId, sorted: seq<TxId>, failing: set<TxId>, mods: map<TxId, Mod>, mods': map<TxId, Mod>)
      requires Valid(pool) && BlockOk(pool, b) && ModsOk(pool, b, mods)
      requires Round(pool, b, mods, t, sorted, failing, b', mods') && SkippedBy(pool, b, t, failing) == {}
      ensures BlockOk(pool, b') && ModsOk(pool, b', mods')
    {
      var p := Package(pool, b, t);
      hide Anc, Updated, Before, ModsOk;
      assert sorted[..|sorted|] == sorted;
      AddAllNoneSkipped(pool, b, mods, sorted, failing);
      AddAllKeeps(pool, b, t, sorted, |sorted|);
      ErasedKeys(pool, mods, sorted, {});
      assert p - Skipped(pool, p, {}) == p;
      forall x | x in p ensures x !in b.inBlock { PackageMisses(pool, b, t, x); }
      UpdatedShrinks(b, p, mods);
      UpdatedKeepsMods(pool, b, b', p, mods - p, mods');
    }

    lemma UpdatedShrinks(b: Block, p: set<TxId>, mods: map<TxId, Mod>)
      requires Valid(pool) && ModsOk(pool, b, mods)
      ensures ModsOk(pool, b, mods - p)
    {
      hide Covers;
    }
  }
}
