/** Which transactions the pool accepts, and which survive a block. */
module MempoolAccept {
  import opened Basics
  import opened Types
  import opened Utxo
  import opened MempoolSpec
  import opened MempoolRules
  import opened MempoolBlocks
  import B = BlockRules

  /** The amounts of the outputs that the inputs name. */
  function Named(txs: Txs, utxos: Utxos, vin: seq<TxIn>): seq<int> {
    seq(|vin|, i requires 0 <= i < |vin| =>
      match Resolve(txs, utxos, vin[i].prev) case None => 0 case Some(out) => out.value)
  }

  /** No entry of the pool spends the input, and it names an output. */
  ghost predicate Available(pool: Pool, utxos: Utxos, p: OutPoint) {
    && Resolve(pool.txs, utxos, p).Some?
    && forall id :: id in pool.txs ==> p !in Prevs(pool.txs[id].tx.vin)
  }

  lemma UnspentIff(pool: Pool, p: OutPoint)
    requires Inv(pool)
    ensures p !in pool.spends <==> forall id :: id in pool.txs ==> p !in Prevs(pool.txs[id].tx.vin)
  {
    if p in pool.spends {
      var id := pool.spends[p];
      assert id in pool.txs && p in Prevs(pool.txs[id].tx.vin);
    }
  }

  lemma {:induction false} InputsIff(pool: Pool, utxos: Utxos, acc: int, vin: seq<TxIn>)
    requires Inv(pool)
    ensures SumInputs(pool, utxos, acc, vin).Ok? <==>
            && (forall i :: 0 <= i < |vin| ==> Available(pool, utxos, vin[i].prev))
            && B.SumsFit(acc, Named(pool.txs, utxos, vin))
    ensures SumInputs(pool, utxos, acc, vin).Ok? ==>
              SumInputs(pool, utxos, acc, vin).value == acc + B.Sum(Named(pool.txs, utxos, vin))
    decreases |vin|
  {
    hide Inv, Available, Resolve, B.SumsFit, FitsI64;
    if vin == [] {
      B.NothingSummed(acc);
    } else {
      var values, tail := Named(pool.txs, utxos, vin), vin[1..];
      assert values[1..] == Named(pool.txs, utxos, tail);
      B.SumsFitStep(acc, values);
      B.SumFront(values);
      AvailableIff(pool, utxos, vin[0].prev);
      InputsIff(pool, utxos, acc + values[0], tail);
      assert (forall i :: 0 <= i < |vin| ==> Available(pool, utxos, vin[i].prev)) <==>
             Available(pool, utxos, vin[0].prev) && forall i :: 0 <= i < |tail| ==> Available(pool, utxos, tail[i].prev)
      by {
        assert forall i :: 0 < i < |vin| ==> vin[i] == tail[i - 1];
        assert forall i :: 0 <= i < |tail| ==> tail[i] == vin[i + 1];
      }
    }
  }

  lemma AvailableIff(pool: Pool, utxos: Utxos, p: OutPoint)
    requires Inv(pool)
    ensures Available(pool, utxos, p) <==> p !in pool.spends && Resolve(pool.txs, utxos, p).Some?
  {
    hide Inv, Resolve;
    UnspentIff(pool, p);
  }

  /** A transaction is accepted, with a fee, exactly if it is well formed and not too large or
      known, every input names an output that no entry spends and whose script accepts it, and
      the inputs pay for the outputs and at least one unit per byte. The fee is what is left. */
  lemma {:induction false} AcceptIff(verify: Verifier, pool: Pool, utxos: Utxos, tx: Tx, fee: nat)
    requires Inv(pool) && tx.size > 0
    ensures Evaluate(verify, pool, utxos, tx) == Ok(fee) <==>
            && CheckTransaction(tx) && !tx.IsCoinbase() && tx.size <= 102_400 && tx.txid !in pool.txs
            && (forall i :: 0 <= i < |tx.vin| ==>
                  && Available(pool, utxos, tx.vin[i].prev)
                  && verify(tx.vin[i].scriptSig, Resolve(pool.txs, utxos, tx.vin[i].prev).value.script, tx, i))
            && B.SumsFit(0, Named(pool.txs, utxos, tx.vin))
            && fee == B.Sum(Named(pool.txs, utxos, tx.vin)) - OutTotal(tx.vout) && fee >= tx.size
  {
    hide Inv, CheckTransaction, B.SumsFit, SumInputs, Resolve, B.Sum, Available, Rate, ScriptsOk;
    InputsIff(pool, utxos, 0, tx.vin);
    var left := B.Sum(Named(pool.txs, utxos, tx.vin)) - OutTotal(tx.vout);
    RateIff(left, tx.size);
    ScriptsIff(verify, pool, utxos, tx);
  }

  lemma ScriptsIff(verify: Verifier, pool: Pool, utxos: Utxos, tx: Tx)
    ensures var all := forall i :: 0 <= i < |tx.vin| ==> Available(pool, utxos, tx.vin[i].prev);
            all && ScriptsOk(verify, pool.txs, utxos, tx) <==>
            forall i :: 0 <= i < |tx.vin| ==>
              && Available(pool, utxos, tx.vin[i].prev)
              && verify(tx.vin[i].scriptSig, Resolve(pool.txs, utxos, tx.vin[i].prev).value.script, tx, i)
  {
    hide Resolve;
    forall i | 0 <= i < |tx.vin| && Available(pool, utxos, tx.vin[i].prev)
      ensures ScriptOk(verify, pool.txs, utxos, tx, i) <==>
              verify(tx.vin[i].scriptSig, Resolve(pool.txs, utxos, tx.vin[i].prev).value.script, tx, i)
    {
    }
  }

  lemma RateIff(fee: int, size: nat)
    requires size > 0
    ensures Rate(fee, size) >= MIN_RELAY_FEE_RATE <==> fee >= size
  {
    var r := fee as real / size as real;
    assert r * size as real == fee as real;
  }

  /** An entry survives a block exactly if the block does not confirm it, and neither it nor an
      entry it descends from spends what the block spends. */
  lemma {:induction false} SurvivesIff(txs: Txs, block: seq<Tx>, id: Hash)
    ensures id in AfterBlock(txs, block) <==>
            && id in txs && (forall i :: 0 <= i < |block| ==> block[i].txid != id)
            && forall r, i :: 0 <= i < |block| && Descends(txs - Ids(block), r, id) ==>
                 r in txs && Prevs(txs[r].tx.vin) !! block[i].Inputs()
    ensures id in AfterBlock(txs, block) ==> AfterBlock(txs, block)[id] == txs[id]
  {
    hide Descends, SpentBy;
    var left := txs - Ids(block);
    forall r
      ensures r in Conflicting(left, SpentBy(block)) <==>
              r in left && exists i :: 0 <= i < |block| && !(Prevs(left[r].tx.vin) !! block[i].Inputs())
    {
      if r in left {
        ConflictsIff(left, block, r);
      }
    }
    forall r | Descends(left, r, id)
      ensures r in left
    {
      RootStored(left, r, id);
    }
  }

  lemma RootStored(txs: Txs, r: Hash, id: Hash)
    requires Descends(txs, r, id)
    ensures r in txs
  {
    var path :| IsLineage(txs, path) && path[0] == r && path[|path| - 1] == id;
  }

  lemma ConflictsIff(txs: Txs, block: seq<Tx>, r: Hash)
    requires r in txs
    ensures Conflicts(txs, SpentBy(block), r) <==>
            exists i :: 0 <= i < |block| && !(Prevs(txs[r].tx.vin) !! block[i].Inputs())
  {
    if Conflicts(txs, SpentBy(block), r) {
      var p :| p in Prevs(txs[r].tx.vin) && p in SpentBy(block);
      SpentIff(block, p);
      var i :| 0 <= i < |block| && p in block[i].Inputs();
      assert !(Prevs(txs[r].tx.vin) !! block[i].Inputs());
    }
    if i: nat :| 0 <= i < |block| && !(Prevs(txs[r].tx.vin) !! block[i].Inputs()) {
      var p :| p in Prevs(txs[r].tx.vin) && p in block[i].Inputs();
      SpentIff(block, p);
    }
  }

  lemma {:induction false} SpentIff(block: seq<Tx>, p: OutPoint)
    ensures p in SpentBy(block) <==> exists i :: 0 <= i < |block| && p in block[i].Inputs()
    decreases |block|
  {
    if block != [] {
      var init, n := block[..|block| - 1], |block| - 1;
      SpentIff(init, p);
      if i :| 0 <= i < |init| && p in init[i].Inputs() {
        assert p in block[i].Inputs();
      }
      if i :| 0 <= i < |block| && p in block[i].Inputs() {
        assert i < n ==> p in init[i].Inputs();
      }
    }
  }
}
