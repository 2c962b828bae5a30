/** The pool against block validation: listed parents first, the transactions of the pool
    connect as the body of the next block, exactly if they spend no immature coinbase. */
module MempoolTemplate {
  import opened Basics
  import opened Types
  import opened Utxo
  import opened UndoTheorems
  import opened MempoolSpec
  import opened MempoolRules
  import opened MempoolBlocks
  import opened MempoolOrder
  import opened Supply

  /** The transactions named by a list of ids. */
  function Listed(txs: Txs, order: seq<Hash>): (r: seq<Tx>)
    requires forall id :: id in order ==> id in txs
    ensures |r| == |order|
    ensures forall i :: 0 <= i < |order| ==> r[i] == txs[order[i]].tx
  {
    if order == [] then []
    else
      var init := order[..|order| - 1];
      Listed(txs, init) + [txs[order[|order| - 1]].tx]
  }

  ghost function FeeTotal(txs: Txs, order: seq<Hash>): nat
    requires forall id :: id in order ==> id in txs
  {
    if order == [] then 0
    else
      var init := order[..|order| - 1];
      FeeTotal(txs, init) + txs[order[|order| - 1]].fee
  }

  predicate MatureCoin(c: Coin, height: nat) {
    c.isCoinbase ==> height - c.height >= COINBASE_MATURITY
  }

  /** No input is a coinbase younger than the maturity. */
  ghost predicate Mature(u: Utxos, tx: Tx, height: nat) {
    forall p :: p in Prevs(tx.vin) && p in u ==> MatureCoin(u[p], height)
  }

  ghost predicate AllMature(u: Utxos, txs: seq<Tx>, height: nat) {
    forall i :: 0 <= i < |txs| ==> Mature(u, txs[i], height)
  }

  /** No output of a pool transaction is already a coin. */
  ghost predicate Unconfirmed(txs: Txs, u: Utxos) {
    forall p :: p in u && p.txid in txs ==> p.index >= |txs[p.txid].tx.vout|
  }

  // ---------- Spending ----------

  lemma {:induction false} SpendMatches(txs: Txs, u: Utxos, s: Spend, vin: seq<TxIn>, height: nat)
    requires forall i, j :: 0 <= i < j < |vin| ==> vin[i].prev != vin[j].prev
    requires forall i :: 0 <= i < |vin| ==> vin[i].prev in s.utxos && Resolve(txs, u, vin[i].prev) == Some(s.utxos[vin[i].prev].out)
    requires Funds(txs, u, s.sum, vin).Some?
    ensures SpendAll(s, vin, height).Ok? <==> forall i :: 0 <= i < |vin| ==> MatureCoin(s.utxos[vin[i].prev], height)
    ensures SpendAll(s, vin, height).Ok? ==> SpendAll(s, vin, height).value.sum == Funds(txs, u, s.sum, vin).value
    decreases |vin|
  {
    hide Resolve;
    if vin != [] {
      var coin, rest := s.utxos[vin[0].prev], vin[1..];
      if MatureCoin(coin, height) {
        var s' := SpendOne(s, vin[0].prev, height).value;
        assert forall i :: 0 <= i < |rest| ==> rest[i] == vin[i + 1] && rest[i].prev != vin[0].prev;
        SpendMatches(txs, u, s', rest, height);
        assert forall i :: 0 <= i < |rest| ==> s'.utxos[rest[i].prev] == s.utxos[vin[i + 1].prev];
        assert (forall i :: 0 <= i < |rest| ==> MatureCoin(s'.utxos[rest[i].prev], height)) <==>
               (forall i :: 0 < i < |vin| ==> MatureCoin(s.utxos[vin[i].prev], height)) by {
          assert forall i :: 0 < i < |vin| ==> vin[i] == rest[i - 1];
        }
      } else {
        assert SpendOne(s, vin[0].prev, height).Err?;
      }
    }
  }

  lemma {:induction false} SumOutputsTotal(acc: int, outs: seq<TxOut>)
    requires 0 <= acc && (forall i :: 0 <= i < |outs| ==> outs[i].value >= 0) && acc + OutTotal(outs) <= MAX_MONEY
    ensures SumOutputs(acc, outs) == Some(acc + OutTotal(outs)) && OutTotal(outs) >= 0
    decreases |outs|
  {
    if outs != [] {
      OutTotalFront(outs);
      OutTotalNonneg(outs[1..]);
      SumOutputsTotal(acc + outs[0].value, outs[1..]);
    }
  }

  lemma {:induction false} OutTotalNonneg(outs: seq<TxOut>)
    requires forall i :: 0 <= i < |outs| ==> outs[i].value >= 0
    ensures OutTotal(outs) >= 0
    decreases |outs|
  {
    if outs != [] {
      OutTotalNonneg(outs[..|outs| - 1]);
    }
  }

  // ---------- One transaction of the list ----------

  /** The inputs of `tx` are coins of `cur`, with the outputs the pool resolved them to. */
  ghost predicate Available(txs: Txs, u: Utxos, cur: Utxos, tx: Tx) {
    forall i :: 0 <= i < |tx.vin| ==> tx.vin[i].prev in cur && Resolve(txs, u, tx.vin[i].prev) == Some(cur[tx.vin[i].prev].out)
  }

  ghost predicate MatureIn(cur: Utxos, tx: Tx, height: nat) {
    forall i :: 0 <= i < |tx.vin| ==> tx.vin[i].prev in cur && MatureCoin(cur[tx.vin[i].prev], height)
  }

  lemma SpentScripts(rules: Rules, txs: Txs, u: Utxos, cur: Utxos, tx: Tx, height: nat)
    requires ScriptsOk(rules.verify, txs, u, tx) && Available(txs, u, cur, tx)
    requires SpendAll(Spend(cur, [], 0), tx.vin, height).Ok?
    ensures ScriptsPass(rules, tx, SpendAll(Spend(cur, [], 0), tx.vin, height).value.spent)
  {
    SpendFacts(Spend(cur, [], 0), tx.vin, height);
    var spent := SpendAll(Spend(cur, [], 0), tx.vin, height).value.spent;
    forall i | 0 <= i < |spent|
      ensures rules.verify(tx.vin[i].scriptSig, spent[i].out.script, tx, i)
    {
      assert ScriptOk(rules.verify, txs, u, tx, i);
      assert spent[0 + i] == cur[tx.vin[i].prev];
    }
  }

  /** What the block has collected and what the coins are worth stays within a limit. */
  ghost predicate Affordable(p: Progress, limit: int) {
    Nonneg(p.utxos) && 0 <= p.fees && p.fees + Total(p.utxos) <= limit
  }

  /** Spending never collects more than the coins are worth. */
  lemma SpendBound(cur: Utxos, vin: seq<TxIn>, height: nat)
    requires Nonneg(cur) && SpendAll(Spend(cur, [], 0), vin, height).Ok?
    ensures SpendAll(Spend(cur, [], 0), vin, height).value.sum <= Total(cur)
  {
    hide SpendAll, Total;
    SpendTotal(Spend(cur, [], 0), vin, height);
    SpendFacts(Spend(cur, [], 0), vin, height);
    TotalNonneg(SpendAll(Spend(cur, [], 0), vin, height).value.utxos);
  }

  lemma {:induction false} OneConnects(rules: Rules, txs: Txs, u: Utxos, p: Progress, e: Entry, height: nat, limit: int)
    requires Payable(rules.verify, txs, u, e) && !e.tx.IsCoinbase() && Available(txs, u, p.utxos, e.tx)
    requires Affordable(p, limit) && limit <= MAX_I64
    ensures ConnectTx(rules, p, e.tx, height).Ok? <==> MatureIn(p.utxos, e.tx, height)
    ensures ConnectTx(rules, p, e.tx, height).Ok? ==>
              var r := ConnectTx(rules, p, e.tx, height).value; r.fees == p.fees + e.fee && Affordable(r, limit)
  {
    hide Resolve, ScriptsOk, ScriptsPass, SumOutputs, SpendAll, Rate, Total, ConnectTx;
    var start := Spend(p.utxos, [], 0);
    SpendMatches(txs, u, start, e.tx.vin, height);
    SumOutputsTotal(0, e.tx.vout);
    TotalNonneg(p.utxos);
    if SpendAll(start, e.tx.vin, height).Ok? {
      SpentScripts(rules, txs, u, p.utxos, e.tx, height);
      SpendBound(p.utxos, e.tx.vin, height);
    }
    ConnectUnfolds(rules, p, e.tx, height);
    if ConnectTx(rules, p, e.tx, height).Ok? {
      TxConserves(rules, p, e.tx, height);
    }
  }

  /** A transaction whose inputs can be spent, whose scripts pass and whose sums fit connects. */
  lemma ConnectUnfolds(rules: Rules, p: Progress, tx: Tx, height: nat)
    requires !tx.IsCoinbase() && tx.vin != []
    ensures var spend := SpendAll(Spend(p.utxos, [], 0), tx.vin, height);
            && (spend.Err? ==> ConnectTx(rules, p, tx, height).Err?)
            && (spend.Ok? && ScriptsPass(rules, tx, spend.value.spent) && SumOutputs(0, tx.vout).Some? ==>
                  FeeCollected(rules, p, tx, height, spend.value.sum - SumOutputs(0, tx.vout).value))
  {
    hide SpendAll, ScriptsPass, SumOutputs;
  }

  ghost predicate FeeCollected(rules: Rules, p: Progress, tx: Tx, height: nat, fee: int) {
    0 <= fee && FitsI64(p.fees + fee) ==>
      ConnectTx(rules, p, tx, height).Ok? && ConnectTx(rules, p, tx, height).value.fees == p.fees + fee
  }

  // ---------- The whole list ----------

  /** Coins after a prefix of the list: whatever the prefix did not spend is there. */
  ghost predicate Ready(txs: Txs, u: Utxos, order: seq<Hash>, cur: Utxos)
    requires forall id :: id in order ==> id in txs
  {
    forall p :: p !in SpentBy(Listed(txs, order)) ==>
      && (p in u ==> p in cur && cur[p] == u[p])
      && (p.txid in order && p.index < |txs[p.txid].tx.vout| ==>
            p in cur && cur[p].out == txs[p.txid].tx.vout[p.index] && !cur[p].isCoinbase)
  }

  lemma {:induction false} SpentByMember(txs: seq<Tx>, p: OutPoint)
    requires p in SpentBy(txs)
    ensures exists i :: 0 <= i < |txs| && p in txs[i].Inputs()
    decreases |txs|
  {
    if txs != [] && p !in txs[|txs| - 1].Inputs() {
      var init := txs[..|txs| - 1];
      SpentByMember(init, p);
      var i :| 0 <= i < |init| && p in init[i].Inputs();
      assert p in txs[i].Inputs();
    }
  }

  /** No earlier transaction of the list spends an input of the last one. */
  lemma LastUnspent(pool: Pool, order: seq<Hash>, last: Hash, p: OutPoint)
    requires Inv(pool) && last in pool.txs && last !in order && p in Prevs(pool.txs[last].tx.vin)
    requires forall id :: id in order ==> id in pool.txs
    ensures p !in SpentBy(Listed(pool.txs, order))
  {
    var list := Listed(pool.txs, order);
    assert pool.spends[p] == last;
    forall i | 0 <= i < |list|
      ensures p !in list[i].Inputs()
    {
      assert order[i] in order;
      assert p !in Prevs(pool.txs[order[i]].tx.vin);
    }
    if p in SpentBy(list) {
      SpentByMember(list, p);
    }
  }

  /** Given the coins after the prefix, the next transaction finds all its inputs. */
  lemma NextAvailable(pool: Pool, u: Utxos, order: seq<Hash>, last: Hash, cur: Utxos)
    requires Inv(pool) && last in pool.txs && last !in order && ParentsBefore(pool.txs, u, order, last)
    requires forall id :: id in order ==> id in pool.txs
    requires Unconfirmed(pool.txs, u) && Ready(pool.txs, u, order, cur)
    requires Backed(pool.txs, u, last)
    ensures Available(pool.txs, u, cur, pool.txs[last].tx)
    ensures forall height :: MatureIn(cur, pool.txs[last].tx, height) <==> Mature(u, pool.txs[last].tx, height)
  {
    hide Inv, SpentBy;
    var tx := pool.txs[last].tx;
    forall i | 0 <= i < |tx.vin|
      ensures var p := tx.vin[i].prev;
              p in cur && Resolve(pool.txs, u, p) == Some(cur[p].out) && if p in u then cur[p] == u[p] else !cur[p].isCoinbase
    {
      var p := tx.vin[i].prev;
      assert p in Prevs(tx.vin);
      LastUnspent(pool, order, last, p);
      assert Resolve(pool.txs, u, p).Some?;
    }
  }

  /** All inputs of a pool transaction resolve. */
  ghost predicate Backed(txs: Txs, u: Utxos, id: Hash) {
    id in txs && forall i :: 0 <= i < |txs[id].tx.vin| ==> Resolve(txs, u, txs[id].tx.vin[i].prev).Some?
  }

  lemma SoundBacked(verify: Verifier, txs: Txs, u: Utxos, id: Hash)
    requires Sound(verify, txs, u) && id in txs
    ensures Backed(txs, u, id)
  {
    hide Resolve, Funds, CheckTransaction, Rate;
    forall i | 0 <= i < |txs[id].tx.vin|
      ensures Resolve(txs, u, txs[id].tx.vin[i].prev).Some?
    {
      assert ScriptOk(verify, txs, u, txs[id].tx, i);
    }
  }

  lemma NextReady(rules: Rules, pool: Pool, u: Utxos, order: seq<Hash>, last: Hash, p: Progress, height: nat)
    requires Inv(pool) && last in pool.txs && forall id :: id in order ==> id in pool.txs
    requires Unconfirmed(pool.txs, u) && Ready(pool.txs, u, order, p.utxos)
    requires ConnectTx(rules, p, pool.txs[last].tx, height).Ok?
    ensures Ready(pool.txs, u, order + [last], ConnectTx(rules, p, pool.txs[last].tx, height).value.utxos)
  {
    hide Listed, ConnectTx, SpentBy, Inv;
    var tx, all := pool.txs[last].tx, order + [last];
    NotCoinbase(pool, last);
    ListedId(pool, last);
    ConnectTxFacts(rules, p, tx, height);
    var v := ConnectTx(rules, p, tx, height).value.utxos;
    ListedSnoc(pool.txs, order, last);
    SpentBySnoc(Listed(pool.txs, order), tx);
    forall q | q !in SpentBy(Listed(pool.txs, all))
      ensures q in u ==> q in v && v[q] == u[q]
      ensures q.txid in all && q.index < |pool.txs[q.txid].tx.vout| ==>
                q in v && v[q].out == pool.txs[q.txid].tx.vout[q.index] && !v[q].isCoinbase
    {
      assert q !in SpentBy(Listed(pool.txs, order)) && q !in tx.Inputs();
      assert q in tx.Outputs() <==> q.txid == last && q.index < |tx.vout| by {
        assert q == OutPoint(q.txid, q.index);
      }
    }
  }

  lemma ListedId(pool: Pool, id: Hash)
    requires Inv(pool) && id in pool.txs
    ensures pool.txs[id].tx.txid == id
  {
    assert EntryOk(pool.txs, id);
  }

  lemma ListedSnoc(txs: Txs, order: seq<Hash>, last: Hash)
    requires last in txs && forall id :: id in order ==> id in txs
    ensures Listed(txs, order + [last]) == Listed(txs, order) + [txs[last].tx]
  {
    assert (order + [last])[..|order|] == order;
  }

  lemma SpentBySnoc(txs: seq<Tx>, tx: Tx)
    ensures SpentBy(txs + [tx]) == SpentBy(txs) + tx.Inputs()
  {
    assert (txs + [tx])[..|txs|] == txs;
  }

  /** Listed parents first, the pool connects as a block body exactly if no listed transaction
      spends a coinbase that is too young; and then the block collects exactly the pool's fees. */
  lemma {:induction false} PoolConnects(rules: Rules, pool: Pool, u: Utxos, order: seq<Hash>, height: nat)
    requires Inv(pool) && Sound(rules.verify, pool.txs, u) && Unconfirmed(pool.txs, u)
    requires Nonneg(u) && Total(u) <= MAX_I64 && ParentsFirst(pool.txs, u, order)
    ensures forall id :: id in order ==> id in pool.txs
    ensures ConnectTxs(rules, Start(u), Listed(pool.txs, order), height).Ok? <==> AllMature(u, Listed(pool.txs, order), height)
    ensures ConnectTxs(rules, Start(u), Listed(pool.txs, order), height).Ok? ==>
              var p := ConnectTxs(rules, Start(u), Listed(pool.txs, order), height).value;
              && p.fees == FeeTotal(pool.txs, order)
              && Ready(pool.txs, u, order, p.utxos) && Affordable(p, Total(u))
    decreases |order|
  {
    hide ConnectTx, ConnectTxs, Ready, Mature, Payable, Inv, ParentsFirst, Total, Nonneg;
    OrderInside(pool.txs, u, order);
    if order == [] {
      ConnectNone(rules, u, height);
      assert Ready(pool.txs, u, [], u) by { NothingReady(pool.txs, u); }
    } else {
      var init, last := order[..|order| - 1], order[|order| - 1];
      assert order == init + [last];
      ParentsFirstInit(pool.txs, u, order);
      PoolConnects(rules, pool, u, init, height);
      var list, tx := Listed(pool.txs, init), pool.txs[last].tx;
      assert Listed(pool.txs, order) == list + [tx];
      ConnectAppend(rules, Start(u), list, tx, height);
      MatureSnoc(u, list, tx, height);
      if ConnectTxs(rules, Start(u), list, height).Ok? {
        var p := ConnectTxs(rules, Start(u), list, height).value;
        SoundBacked(rules.verify, pool.txs, u, last);
        NextAvailable(pool, u, init, last, p.utxos);
        NotCoinbase(pool, last);
        OneConnects(rules, pool.txs, u, p, pool.txs[last], height, Total(u));
        if ConnectTx(rules, p, tx, height).Ok? {
          NextReady(rules, pool, u, init, last, p, height);
        }
      }
    }
  }

  /** The whole pool as a block body: some order of it connects, and then collects all its fees,
      exactly if no transaction of it spends a coinbase that is too young. */
  lemma {:induction false} WholePoolConnects(rules: Rules, pool: Pool, u: Utxos, height: nat) returns (order: seq<Hash>)
    requires Inv(pool) && Sound(rules.verify, pool.txs, u) && Unconfirmed(pool.txs, u)
    requires Nonneg(u) && Total(u) <= MAX_I64 && Orderable(pool.txs, u)
    ensures Orders(pool.txs, u, order) && forall id :: id in order ==> id in pool.txs
    ensures ConnectTxs(rules, Start(u), Listed(pool.txs, order), height).Ok? <==>
            forall id :: id in pool.txs ==> Mature(u, pool.txs[id].tx, height)
    ensures ConnectTxs(rules, Start(u), Listed(pool.txs, order), height).Ok? ==>
              ConnectTxs(rules, Start(u), Listed(pool.txs, order), height).value.fees == FeeTotal(pool.txs, order)
  {
    hide ConnectTxs, Mature, Sound, Inv, ParentsFirst, Total, Nonneg, Ready;
    order :| Orders(pool.txs, u, order);
    PoolConnects(rules, pool, u, order, height);
    var list := Listed(pool.txs, order);
    if AllMature(u, list, height) {
      forall id | id in pool.txs
        ensures Mature(u, pool.txs[id].tx, height)
      {
        var i :| 0 <= i < |order| && order[i] == id;
        assert list[i] == pool.txs[id].tx;
      }
    }
  }

  lemma NotCoinbase(pool: Pool, id: Hash)
    requires Inv(pool) && id in pool.txs
    ensures !pool.txs[id].tx.IsCoinbase()
  {
    assert EntryOk(pool.txs, id);
  }

  lemma NothingReady(txs: Txs, u: Utxos)
    ensures Ready(txs, u, [], u)
  {
  }

  lemma MatureSnoc(u: Utxos, txs: seq<Tx>, tx: Tx, height: nat)
    ensures AllMature(u, txs + [tx], height) <==> AllMature(u, txs, height) && Mature(u, tx, height)
  {
    hide Mature;
    var all := txs + [tx];
    assert forall i :: 0 <= i < |txs| ==> all[i] == txs[i];
    assert all[|txs|] == tx;
  }
}
