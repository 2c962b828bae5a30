/** The pool across a connected block: which transactions stay, and that they stay payable. */
module MempoolBlocks {
  import opened Basics
  import opened Types
  import opened Utxo
  import opened UndoTheorems
  import opened MempoolSpec
  import opened MempoolRules

  // ---------- Removing several families ----------

  /** The entries that descend from none of the roots. */
  ghost function PrunedAll(txs: Txs, roots: set<Hash>): Txs {
    map id | id in txs && !(exists r :: r in roots && Descends(txs, r, id)) :: txs[id]
  }

  /** Along a lineage that ends outside a family, no member is in that family. */
  lemma {:induction false} LineageOutside(txs: Txs, root: Hash, path: seq<Hash>)
    requires IsLineage(txs, path) && !Descends(txs, root, path[|path| - 1])
    ensures IsLineage(Pruned(txs, root), path)
    decreases |path|
  {
    hide Descends;
    if |path| > 1 {
      var init := path[..|path| - 1];
      forall i | 0 < i < |init|
        ensures ChildOf(txs, init[i - 1], init[i])
      {
        assert ChildOf(txs, path[i - 1], path[i]);
      }
      assert ChildOf(txs, path[|path| - 2], path[|path| - 1]);
      if Descends(txs, root, path[|path| - 2]) {
        DescendsStep(txs, root, path[|path| - 2], path[|path| - 1]);
      }
      LineageOutside(txs, root, init);
      forall i | 0 < i < |path|
        ensures ChildOf(Pruned(txs, root), path[i - 1], path[i])
      {
        assert ChildOf(txs, path[i - 1], path[i]);
        assert i < |path| - 1 ==> init[i] in Pruned(txs, root);
        assert init[i - 1] in Pruned(txs, root);
      }
    }
  }

  lemma LineageInside(txs: Txs, kept: Txs, path: seq<Hash>)
    requires IsLineage(kept, path) && forall id :: id in kept ==> id in txs && kept[id] == txs[id]
    ensures IsLineage(txs, path)
  {
    forall i | 0 < i < |path|
      ensures ChildOf(txs, path[i - 1], path[i])
    {
      assert ChildOf(kept, path[i - 1], path[i]);
    }
  }

  /** Outside one family, descent from another root is the same before and after removing it. */
  lemma PrunedDescends(txs: Txs, a: Hash, r: Hash, id: Hash)
    requires id in Pruned(txs, a)
    ensures Descends(Pruned(txs, a), r, id) <==> Descends(txs, r, id)
  {
    hide ChildOf;
    if Descends(txs, r, id) {
      var path :| IsLineage(txs, path) && path[0] == r && path[|path| - 1] == id;
      LineageOutside(txs, a, path);
    }
    if Descends(Pruned(txs, a), r, id) {
      var path :| IsLineage(Pruned(txs, a), path) && path[0] == r && path[|path| - 1] == id;
      LineageInside(txs, Pruned(txs, a), path);
    }
  }

  /** Removing families one after the other removes their union. */
  lemma {:induction false} PruneNext(txs: Txs, a: Hash, roots: set<Hash>)
    ensures PrunedAll(Pruned(txs, a), roots) == PrunedAll(txs, {a} + roots)
  {
    hide Descends;
    var one, both := PrunedAll(Pruned(txs, a), roots), PrunedAll(txs, {a} + roots);
    forall id | id in txs
      ensures id in one <==> id in both
    {
      if id in Pruned(txs, a) {
        forall r | r in roots
          ensures Descends(Pruned(txs, a), r, id) <==> Descends(txs, r, id)
        {
          PrunedDescends(txs, a, r, id);
        }
      }
    }
    assert one == both;
  }

  /** Roots that are not in the pool remove nothing. */
  lemma PruneAbsent(txs: Txs, a: set<Hash>, b: set<Hash>)
    requires forall r :: r in txs ==> (r in a <==> r in b)
    ensures PrunedAll(txs, a) == PrunedAll(txs, b)
  {
    forall r, id | Descends(txs, r, id)
      ensures r in txs
    {
      var path :| IsLineage(txs, path) && path[0] == r && path[|path| - 1] == id;
    }
  }

  lemma PrunedAllKeepsParents(txs: Txs, roots: set<Hash>)
    ensures KeepsParents(txs, PrunedAll(txs, roots))
  {
    hide Descends, ChildOf;
    forall x, y | y in PrunedAll(txs, roots) && ChildOf(txs, x, y)
      ensures x in PrunedAll(txs, roots)
    {
      assert x in txs by { ParentStored(txs, x, y); }
      forall r | r in roots
        ensures !Descends(txs, r, x)
      {
        if Descends(txs, r, x) {
          DescendsStep(txs, r, x, y);
        }
      }
    }
  }

  lemma ParentStored(txs: Txs, x: Hash, y: Hash)
    requires ChildOf(txs, x, y)
    ensures x in txs
  {
  }

  // ---------- A block ----------

  function Ids(txs: seq<Tx>): set<Hash> {
    set i | 0 <= i < |txs| :: txs[i].txid
  }

  /** Everything a block spends. */
  function SpentBy(txs: seq<Tx>): set<OutPoint> {
    if txs == [] then {} else SpentBy(txs[..|txs| - 1]) + txs[|txs| - 1].Inputs()
  }

  ghost predicate Conflicts(txs: Txs, spent: set<OutPoint>, id: Hash)
    requires id in txs
  {
    exists p :: p in Prevs(txs[id].tx.vin) && p in spent
  }

  ghost function Conflicting(txs: Txs, spent: set<OutPoint>): set<Hash> {
    set id | id in txs && Conflicts(txs, spent, id)
  }

  /** Confirmed transactions leave; so do transactions that spend what the block spent, with their descendants. */
  ghost function AfterBlock(txs: Txs, block: seq<Tx>): Txs {
    var left := txs - Ids(block);
    PrunedAll(left, Conflicting(left, SpentBy(block)))
  }

  predicate Creates(tx: Tx, p: OutPoint, out: TxOut) {
    p in tx.Outputs() && tx.vout[p.index] == out
  }

  ghost predicate CreatedIn(txs: seq<Tx>, p: OutPoint, out: TxOut) {
    exists i :: 0 <= i < |txs| && Creates(txs[i], p, out)
  }

  /** After a block a coin is an old one or one the block created; what the block did not
      spend and had, it still has. */
  lemma {:induction false} BlockCoins(rules: Rules, u: Utxos, txs: seq<Tx>, height: nat, p: OutPoint)
    requires ConnectTxs(rules, Start(u), txs, height).Ok?
    ensures var v := ConnectTxs(rules, Start(u), txs, height).value.utxos;
            && (p in v ==> (p in u && v[p] == u[p]) || CreatedIn(txs, p, v[p].out))
            && (p !in SpentBy(txs) && (p in u || exists out :: CreatedIn(txs, p, out)) ==> p in v)
    decreases |txs|
  {
    hide ConnectTx, ConnectTxs;
    var v := ConnectTxs(rules, Start(u), txs, height).value.utxos;
    if txs == [] {
      assert v == u by { ConnectNone(rules, u, height); }
    } else {
      var init, last := txs[..|txs| - 1], txs[|txs| - 1];
      ConnectInit(rules, u, txs, height);
      BlockCoins(rules, u, init, height, p);
      var before := ConnectTxs(rules, Start(u), init, height).value;
      ConnectTxFacts(rules, before, last, height);
      CreatedSnoc(txs, p);
      if p in v && p in last.Outputs() {
        assert Creates(last, p, v[p].out);
      }
    }
  }

  lemma ConnectNone(rules: Rules, u: Utxos, height: nat)
    ensures ConnectTxs(rules, Start(u), [], height) == Ok(Start(u))
  {
  }

  lemma CreatedSnoc(txs: seq<Tx>, p: OutPoint)
    requires txs != []
    ensures forall out :: CreatedIn(txs, p, out) <==>
              CreatedIn(txs[..|txs| - 1], p, out) || Creates(txs[|txs| - 1], p, out)
  {
    var init := txs[..|txs| - 1];
    forall out
      ensures CreatedIn(txs, p, out) <==> CreatedIn(init, p, out) || Creates(txs[|txs| - 1], p, out)
    {
      if CreatedIn(init, p, out) {
        var i :| 0 <= i < |init| && Creates(init[i], p, out);
        assert Creates(txs[i], p, out);
      }
      if CreatedIn(txs, p, out) {
        var i :| 0 <= i < |txs| && Creates(txs[i], p, out);
        assert i < |init| ==> Creates(init[i], p, out);
      }
    }
  }

  /** A transaction id names one transaction: a block transaction with the id of a pool
      transaction is that transaction, and with the id of a coin creates that same output. */
  ghost predicate IdsHonest(pool: Txs, u: Utxos, block: seq<Tx>) {
    && (forall i :: 0 <= i < |block| && block[i].txid in pool ==> pool[block[i].txid].tx == block[i])
    && forall p, out :: p in u && CreatedIn(block, p, out) ==> u[p].out == out
  }

  lemma SurvivorFacts(txs: Txs, block: seq<Tx>, id: Hash)
    requires id in AfterBlock(txs, block)
    ensures id in txs && id !in Ids(block) && AfterBlock(txs, block)[id] == txs[id]
    ensures Prevs(txs[id].tx.vin) !! SpentBy(block)
  {
    var left := txs - Ids(block);
    if Conflicts(left, SpentBy(block), id) {
      DescendsSelf(left, id);
    }
  }

  lemma SurvivorResolves(verify: Verifier, rules: Rules, txs: Txs, u: Utxos, block: seq<Tx>, height: nat, id: Hash,
      i: nat)
    requires Sound(verify, txs, u) && IdsHonest(txs, u, block)
    requires ConnectTxs(rules, Start(u), block, height).Ok?
    requires id in AfterBlock(txs, block) && i < |AfterBlock(txs, block)[id].tx.vin|
    ensures var p := AfterBlock(txs, block)[id].tx.vin[i].prev;
            Resolve(txs, u, p) ==
            Resolve(AfterBlock(txs, block), ConnectTxs(rules, Start(u), block, height).value.utxos, p)
  {
    hide ConnectTxs, AfterBlock, SpentBy, Descends, IsLineage, Funds, CheckTransaction, Rate;
    var after, v := AfterBlock(txs, block), ConnectTxs(rules, Start(u), block, height).value.utxos;
    SurvivorFacts(txs, block, id);
    var p := txs[id].tx.vin[i].prev;
    assert p !in SpentBy(block);
    assert ScriptOk(verify, txs, u, txs[id].tx, i);
    BlockCoins(rules, u, block, height, p);
    if p !in u {
      ParentSurvives(txs, block, p, id);
      var parent := txs[p.txid].tx;
      if p.txid in Ids(block) {
        var k :| 0 <= k < |block| && block[k].txid == p.txid;
        assert block[k] == parent;
        assert Creates(block[k], p, parent.vout[p.index]);
        assert CreatedIn(block, p, parent.vout[p.index]);
        var j :| 0 <= j < |block| && Creates(block[j], p, v[p].out);
        assert block[j].txid == p.txid;
      } else {
        assert p !in v;
      }
    }
  }

  /** A parent that was not confirmed survives with its child. */
  lemma ParentSurvives(txs: Txs, block: seq<Tx>, p: OutPoint, id: Hash)
    requires id in AfterBlock(txs, block) && id in txs && p in Prevs(txs[id].tx.vin)
    requires p.txid in txs && p.index < |txs[p.txid].tx.vout|
    ensures p.txid !in Ids(block) ==> p.txid in AfterBlock(txs, block) && AfterBlock(txs, block)[p.txid] == txs[p.txid]
  {
    hide Descends, SpentBy;
    var left := txs - Ids(block);
    PrunedAllKeepsParents(left, Conflicting(left, SpentBy(block)));
    if p.txid !in Ids(block) {
      assert OutPoint(p.txid, p.index) == p;
      assert ChildOf(left, p.txid, id);
    }
  }

  /** After a block connects, every transaction left in the pool is still payable against the
      new coins, and none of them spends an outpoint the block spent. */
  lemma {:induction false} BlockKeepsSound(verify: Verifier, rules: Rules, txs: Txs, u: Utxos, block: seq<Tx>,
      height: nat)
    requires Sound(verify, txs, u) && IdsHonest(txs, u, block)
    requires ConnectTxs(rules, Start(u), block, height).Ok?
    ensures Sound(verify, AfterBlock(txs, block), ConnectTxs(rules, Start(u), block, height).value.utxos)
    ensures forall id :: id in AfterBlock(txs, block) ==> Prevs(AfterBlock(txs, block)[id].tx.vin) !! SpentBy(block)
  {
    hide ConnectTxs, AfterBlock, SpentBy, Resolve, Payable, IdsHonest;
    var after, v := AfterBlock(txs, block), ConnectTxs(rules, Start(u), block, height).value.utxos;
    forall id | id in after
      ensures Payable(verify, after, v, after[id]) && Prevs(after[id].tx.vin) !! SpentBy(block)
    {
      SurvivorFacts(txs, block, id);
      forall i | 0 <= i < |after[id].tx.vin|
        ensures Resolve(txs, u, after[id].tx.vin[i].prev) == Resolve(after, v, after[id].tx.vin[i].prev)
      {
        SurvivorResolves(verify, rules, txs, u, block, height, id, i);
      }
      PayableSame(verify, txs, u, after, v, after[id]);
    }
  }
}
