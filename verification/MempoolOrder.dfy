/** Orders of the pool in which parents come before children: the pool always has one. */
module MempoolOrder {
  import opened Basics
  import opened Types
  import opened Utxo
  import opened UndoTheorems
  import opened MempoolSpec
  import opened MempoolRules
  import opened MempoolBlocks

  /** Different ids, and every input is confirmed or created earlier in the list. */
  ghost predicate ParentsFirst(txs: Txs, u: Utxos, order: seq<Hash>) {
    && (forall i :: 0 <= i < |order| ==> order[i] in txs)
    && (forall i, j :: 0 <= i < j < |order| ==> order[i] != order[j])
    && forall j :: 0 <= j < |order| ==> ParentsBefore(txs, u, order[..j], order[j])
  }

  /** Every input of a transaction is confirmed or created by one of the given transactions. */
  ghost predicate ParentsBefore(txs: Txs, u: Utxos, before: seq<Hash>, id: Hash) {
    id in txs && forall p :: p in Prevs(txs[id].tx.vin) ==> p in u || p.txid in before
  }

  lemma ParentsFirstInit(txs: Txs, u: Utxos, order: seq<Hash>)
    requires ParentsFirst(txs, u, order) && order != []
    ensures var init, last := order[..|order| - 1], order[|order| - 1];
            ParentsFirst(txs, u, init) && last !in init && ParentsBefore(txs, u, init, last)
  {
    hide ParentsBefore;
    var init := order[..|order| - 1];
    forall j | 0 <= j < |init|
      ensures ParentsBefore(txs, u, init[..j], init[j])
    {
      assert init[j] == order[j] && init[..j] == order[..j];
    }
  }

  lemma ParentsFirstNext(txs: Txs, u: Utxos, order: seq<Hash>, last: Hash)
    requires ParentsFirst(txs, u, order) && last in txs && last !in order && ParentsBefore(txs, u, order, last)
    ensures ParentsFirst(txs, u, order + [last])
  {
    hide ParentsBefore;
    var all := order + [last];
    forall j | 0 <= j < |all|
      ensures ParentsBefore(txs, u, all[..j], all[j])
    {
      if j < |order| {
        assert all[..j] == order[..j] && ParentsBefore(txs, u, order[..j], order[j]);
      } else {
        assert all[..j] == order;
      }
    }
  }

  /** An order of the whole pool. */
  ghost predicate Orders(txs: Txs, u: Utxos, order: seq<Hash>) {
    ParentsFirst(txs, u, order) && forall id :: id in txs ==> id in order
  }

  ghost predicate Orderable(txs: Txs, u: Utxos) {
    exists order :: Orders(txs, u, order)
  }

  lemma EmptyOrderable(u: Utxos)
    ensures Orderable(map[], u)
  {
    assert Orders(map[], u, []);
  }

  // ---------- Insertion ----------

  /** A new transaction comes last. */
  lemma {:induction false} AcceptedOrderable(verify: Verifier, pool: Pool, u: Utxos, tx: Tx)
    requires Orderable(pool.txs, u) && tx.size > 0 && Evaluate(verify, pool, u, tx).Ok?
    ensures Orderable(Inserted(pool, tx, Evaluate(verify, pool, u, tx).value).txs, u)
  {
    hide Evaluate, ParentsFirst, Payable;
    EvaluatedPayable(verify, pool, u, tx);
    var e := Entry(tx, Evaluate(verify, pool, u, tx).value, tx.size);
    var order :| Orders(pool.txs, u, order);
    var more := pool.txs[tx.txid := e];
    SameOrder(pool.txs, more, u, order);
    assert tx.txid !in order by { OrderInside(pool.txs, u, order); }
    forall p | p in Prevs(tx.vin)
      ensures p in u || p.txid in order
    {
      InputResolves(verify, pool.txs, u, e, p);
    }
    ParentsFirstNext(more, u, order, tx.txid);
    assert Orders(more, u, order + [tx.txid]);
  }

  lemma OrderInside(txs: Txs, u: Utxos, order: seq<Hash>)
    requires ParentsFirst(txs, u, order)
    ensures forall id :: id in order ==> id in txs
  {
  }

  lemma InputResolves(verify: Verifier, txs: Txs, u: Utxos, e: Entry, p: OutPoint)
    requires Payable(verify, txs, u, e) && p in Prevs(e.tx.vin)
    ensures p in u || (p.txid in txs && p.index < |txs[p.txid].tx.vout|)
  {
    hide Funds, CheckTransaction, Rate;
    var i :| 0 <= i < |e.tx.vin| && e.tx.vin[i].prev == p;
    assert ScriptOk(verify, txs, u, e.tx, i);
  }

  lemma SameOrder(txs: Txs, more: Txs, u: Utxos, order: seq<Hash>)
    requires ParentsFirst(txs, u, order) && forall id :: id in txs ==> id in more && more[id] == txs[id]
    ensures ParentsFirst(more, u, order)
  {
    forall j | 0 <= j < |order|
      ensures ParentsBefore(more, u, order[..j], order[j])
    {
      assert ParentsBefore(txs, u, order[..j], order[j]);
    }
  }

  // ---------- Removal ----------

  /** The members of an order that are still in the pool. */
  ghost function Remaining(order: seq<Hash>, kept: Txs): seq<Hash> {
    if order == [] then []
    else
      var init, last := Remaining(order[..|order| - 1], kept), order[|order| - 1];
      if last in kept then init + [last] else init
  }

  lemma {:induction false} RemainingMembers(order: seq<Hash>, kept: Txs)
    ensures forall id :: id in Remaining(order, kept) <==> id in order && id in kept
    decreases |order|
  {
    if order != [] {
      RemainingMembers(order[..|order| - 1], kept);
      assert order == order[..|order| - 1] + [order[|order| - 1]];
    }
  }

  /** Whatever is kept, if no kept transaction lost an input it had from before, the order
      of the rest is an order of what is kept. */
  lemma {:induction false} RemainingOrder(txs: Txs, u: Utxos, kept: Txs, v: Utxos, order: seq<Hash>)
    requires ParentsFirst(txs, u, order)
    requires forall id, p :: id in kept && p in Prevs(kept[id].tx.vin) ==> InputKept(txs, u, kept, v, id, p)
    ensures ParentsFirst(kept, v, Remaining(order, kept))
    decreases |order|
  {
    hide ParentsFirst, InputKept;
    if order == [] {
      NoOrder(kept, v);
    } else {
      var init, last := order[..|order| - 1], order[|order| - 1];
      ParentsFirstInit(txs, u, order);
      RemainingOrder(txs, u, kept, v, init);
      RemainingMembers(init, kept);
      if last in kept {
        forall p | p in Prevs(kept[last].tx.vin)
          ensures p in v || p.txid in Remaining(init, kept)
        {
          assert InputKept(txs, u, kept, v, last, p);
          KeptWhere(txs, u, kept, v, last, p);
        }
        ParentsFirstNext(kept, v, Remaining(init, kept), last);
      }
    }
  }

  /** A kept input: the transaction is unchanged, and the input is a coin now, or it was none
      before and its parent is kept. */
  ghost predicate InputKept(txs: Txs, u: Utxos, kept: Txs, v: Utxos, id: Hash, p: OutPoint) {
    id in txs && id in kept && kept[id] == txs[id] && (p in v || (p !in u && p.txid in kept))
  }

  lemma KeptWhere(txs: Txs, u: Utxos, kept: Txs, v: Utxos, id: Hash, p: OutPoint)
    requires InputKept(txs, u, kept, v, id, p)
    ensures id in txs && id in kept && kept[id] == txs[id] && (p in v || (p !in u && p.txid in kept))
  {
  }

  lemma NoOrder(txs: Txs, u: Utxos)
    ensures ParentsFirst(txs, u, [])
  {
  }

  lemma RemainingOrderable(txs: Txs, u: Utxos, kept: Txs, v: Utxos)
    requires Orderable(txs, u)
    requires forall id, p :: id in kept && p in Prevs(kept[id].tx.vin) ==> InputKept(txs, u, kept, v, id, p)
    requires forall id :: id in kept ==> id in txs
    ensures Orderable(kept, v)
  {
    hide ParentsFirst, InputKept;
    var order :| Orders(txs, u, order);
    RemainingOrder(txs, u, kept, v, order);
    RemainingMembers(order, kept);
    assert Orders(kept, v, Remaining(order, kept));
  }

  /** Eviction keeps an order. */
  lemma {:induction false} KeptOrderable(verify: Verifier, txs: Txs, kept: Txs, u: Utxos)
    requires Sound(verify, txs, u) && KeepsParents(txs, kept) && Orderable(txs, u)
    ensures Orderable(kept, u)
  {
    hide Payable, Orderable;
    forall id, p | id in kept && p in Prevs(kept[id].tx.vin)
      ensures InputKept(txs, u, kept, u, id, p)
    {
      InputResolves(verify, txs, u, txs[id], p);
      if p !in u {
        assert OutPoint(p.txid, p.index) in Prevs(txs[id].tx.vin);
        assert ChildOf(txs, p.txid, id);
      }
    }
    RemainingOrderable(txs, u, kept, u);
  }

  /** A connected block keeps an order. */
  lemma {:induction false} BlockOrderable(verify: Verifier, rules: Rules, txs: Txs, u: Utxos, block: seq<Tx>,
      height: nat)
    requires Sound(verify, txs, u) && IdsHonest(txs, u, block) && Orderable(txs, u)
    requires ConnectTxs(rules, Start(u), block, height).Ok?
    ensures Orderable(AfterBlock(txs, block), ConnectTxs(rules, Start(u), block, height).value.utxos)
  {
    hide ConnectTxs, AfterBlock, Payable, IdsHonest, Orderable, SpentBy;
    var after, v := AfterBlock(txs, block), ConnectTxs(rules, Start(u), block, height).value.utxos;
    forall id | id in after
      ensures id in txs && after[id] == txs[id]
    {
      SurvivorFacts(txs, block, id);
    }
    forall id, p | id in after && p in Prevs(after[id].tx.vin)
      ensures InputKept(txs, u, after, v, id, p)
    {
      SurvivorFacts(txs, block, id);
      var i :| 0 <= i < |after[id].tx.vin| && after[id].tx.vin[i].prev == p;
      SurvivorResolves(verify, rules, txs, u, block, height, id, i);
      InputResolves(verify, txs, u, txs[id], p);
      BlockCoins(rules, u, block, height, p);
    }
    RemainingOrderable(txs, u, after, v);
  }
}
