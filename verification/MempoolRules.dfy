/** What the pool accepts, and the promise it keeps about every transaction it holds. */
module MempoolRules {
  import opened Basics
  import opened Types
  import opened Utxo
  import opened MempoolSpec

  type Verifier = (Bytes, Bytes, Tx, nat) -> bool

  const MAX_TX_SIZE := 100 * 1024

  const MIN_RELAY_FEE_RATE := 1.0

  datatype Reject =
    | Malformed | Coinbase | TooLarge | Duplicate | AlreadySpent | UnknownInput | Overflow
    | SpendsTooMuch | FeeTooLow | BadScript

  // ---------- Acceptance ----------

  /** The output an outpoint names: a confirmed coin first, then an output of a pool transaction. */
  function Resolve(txs: Txs, utxos: Utxos, p: OutPoint): Option<TxOut> {
    if p in utxos then Some(utxos[p].out)
    else if p.txid in txs && p.index < |txs[p.txid].tx.vout| then Some(txs[p.txid].tx.vout[p.index])
    else None
  }

  /** Input values summed left to right; a conflict, an unknown input or an overflow stops the sum. */
  function SumInputs(pool: Pool, utxos: Utxos, acc: int, vin: seq<TxIn>): Result<int, Reject>
    decreases |vin|
  {
    if vin == [] then Ok(acc)
    else if vin[0].prev in pool.spends then Err(AlreadySpent)
    else
      match Resolve(pool.txs, utxos, vin[0].prev)
      case None => Err(UnknownInput)
      case Some(out) =>
        match CheckedAdd(acc, out.value)
        case None => Err(Overflow)
        case Some(sum) => SumInputs(pool, utxos, sum, vin[1..])
  }

  predicate ScriptOk(verify: Verifier, txs: Txs, utxos: Utxos, tx: Tx, i: nat)
    requires i < |tx.vin|
  {
    var out := Resolve(txs, utxos, tx.vin[i].prev);
    out.Some? && verify(tx.vin[i].scriptSig, out.value.script, tx, i)
  }

  predicate ScriptsOk(verify: Verifier, txs: Txs, utxos: Utxos, tx: Tx) {
    forall i :: 0 <= i < |tx.vin| ==> ScriptOk(verify, txs, utxos, tx, i)
  }

  function Rate(fee: int, size: nat): real
    requires size > 0
  {
    fee as real / size as real
  }

  /** The fee of an acceptable transaction, or the first reason against it. */
  function Evaluate(verify: Verifier, pool: Pool, utxos: Utxos, tx: Tx): (r: Result<nat, Reject>)
    requires tx.size > 0
  {
    if !CheckTransaction(tx) then Err(Malformed)
    else if tx.IsCoinbase() then Err(Coinbase)
    else if tx.size > MAX_TX_SIZE then Err(TooLarge)
    else if tx.txid in pool.txs then Err(Duplicate)
    else
      match SumInputs(pool, utxos, 0, tx.vin)
      case Err(e) => Err(e)
      case Ok(sum) =>
        var fee := sum - OutTotal(tx.vout);
        if fee < 0 then Err(SpendsTooMuch)
        else if Rate(fee, tx.size) < MIN_RELAY_FEE_RATE then Err(FeeTooLow)
        else if !ScriptsOk(verify, pool.txs, utxos, tx) then Err(BadScript)
        else Ok(fee)
  }

  function Spending(tx: Tx): map<OutPoint, Hash> {
    map p | p in Prevs(tx.vin) :: tx.txid
  }

  function Inserted(pool: Pool, tx: Tx, fee: nat): Pool {
    Pool(pool.txs[tx.txid := Entry(tx, fee, tx.size)], pool.spends + Spending(tx), pool.totalSize + tx.size)
  }

  // ---------- The promise ----------

  /** Values of resolved inputs, with the same overflow check. */
  function Funds(txs: Txs, utxos: Utxos, acc: int, vin: seq<TxIn>): Option<int>
    decreases |vin|
  {
    if vin == [] then Some(acc)
    else
      match Resolve(txs, utxos, vin[0].prev)
      case None => None
      case Some(out) =>
        match CheckedAdd(acc, out.value)
        case None => None
        case Some(sum) => Funds(txs, utxos, sum, vin[1..])
  }

  /** All inputs exist, their scripts accept, and they pay for the outputs and exactly the fee. */
  ghost predicate Payable(verify: Verifier, txs: Txs, utxos: Utxos, e: Entry) {
    && CheckTransaction(e.tx)
    && ScriptsOk(verify, txs, utxos, e.tx)
    && Funds(txs, utxos, 0, e.tx.vin) == Some(OutTotal(e.tx.vout) + e.fee)
    && e.size > 0 && Rate(e.fee, e.size) >= MIN_RELAY_FEE_RATE
  }

  /** Every pool transaction could be paid for from the confirmed coins and the pool itself. */
  ghost predicate Sound(verify: Verifier, txs: Txs, utxos: Utxos) {
    forall id :: id in txs ==> Payable(verify, txs, utxos, txs[id])
  }

  /** The inputs of a transaction still name the same outputs. */
  ghost predicate SameInputs(a: Txs, u: Utxos, b: Txs, v: Utxos, tx: Tx) {
    forall i :: 0 <= i < |tx.vin| ==> Resolve(a, u, tx.vin[i].prev) == Resolve(b, v, tx.vin[i].prev)
  }

  lemma {:induction false} FundsSame(a: Txs, u: Utxos, b: Txs, v: Utxos, acc: int, vin: seq<TxIn>)
    requires forall i :: 0 <= i < |vin| ==> Resolve(a, u, vin[i].prev) == Resolve(b, v, vin[i].prev)
    ensures Funds(a, u, acc, vin) == Funds(b, v, acc, vin)
    decreases |vin|
  {
    hide Resolve;
    if vin != [] && Resolve(a, u, vin[0].prev).Some? {
      match CheckedAdd(acc, Resolve(a, u, vin[0].prev).value.value)
      case None =>
      case Some(sum) =>
        FundsSame(a, u, b, v, sum, vin[1..]);
    }
  }

  lemma PayableSame(verify: Verifier, a: Txs, u: Utxos, b: Txs, v: Utxos, e: Entry)
    requires Payable(verify, a, u, e) && SameInputs(a, u, b, v, e.tx)
    ensures Payable(verify, b, v, e)
  {
    hide Resolve, Funds, CheckTransaction, Rate;
    FundsSame(a, u, b, v, 0, e.tx.vin);
    forall i | 0 <= i < |e.tx.vin|
      ensures ScriptOk(verify, b, v, e.tx, i)
    {
      assert ScriptOk(verify, a, u, e.tx, i);
    }
  }

  /** Keeping parents keeps the promise. */
  lemma {:induction false} KeptSound(verify: Verifier, txs: Txs, kept: Txs, utxos: Utxos)
    requires Sound(verify, txs, utxos) && KeepsParents(txs, kept)
    ensures Sound(verify, kept, utxos)
  {
    hide Funds, CheckTransaction, Rate;
    forall id | id in kept
      ensures Payable(verify, kept, utxos, kept[id])
    {
      var tx := kept[id].tx;
      forall i | 0 <= i < |tx.vin|
        ensures Resolve(txs, utxos, tx.vin[i].prev) == Resolve(kept, utxos, tx.vin[i].prev)
      {
        var p := tx.vin[i].prev;
        assert ScriptOk(verify, txs, utxos, tx, i);
        if p !in utxos {
          assert OutPoint(p.txid, p.index) in Prevs(txs[id].tx.vin);
          assert ChildOf(txs, p.txid, id);
        }
      }
      PayableSame(verify, txs, utxos, kept, utxos, kept[id]);
    }
  }

  // ---------- Insertion ----------

  /** An accepted transaction conflicts with nothing, and its input sum is what it can spend. */
  lemma {:induction false} SumFacts(pool: Pool, utxos: Utxos, acc: int, vin: seq<TxIn>)
    requires SumInputs(pool, utxos, acc, vin).Ok?
    ensures Prevs(vin) !! pool.spends.Keys
    ensures Funds(pool.txs, utxos, acc, vin) == Some(SumInputs(pool, utxos, acc, vin).value)
    decreases |vin|
  {
    if vin != [] {
      var sum := CheckedAdd(acc, Resolve(pool.txs, utxos, vin[0].prev).value.value).value;
      SumFacts(pool, utxos, sum, vin[1..]);
      PrevsStep(vin);
    }
  }

  lemma InsertedIndex(pool: Pool, tx: Tx, fee: nat)
    requires IndexExact(pool.txs, pool.spends) && tx.txid !in pool.txs && Prevs(tx.vin) !! pool.spends.Keys
    ensures var r := Inserted(pool, tx, fee); IndexExact(r.txs, r.spends)
  {
    hide Prevs;
    var r := Inserted(pool, tx, fee);
    forall id, p | id in r.txs && p in Prevs(r.txs[id].tx.vin)
      ensures p in r.spends && r.spends[p] == id
    {
      if id != tx.txid {
        assert p in pool.spends && pool.spends[p] == id;
      }
    }
    forall p | p in r.spends
      ensures r.spends[p] in r.txs && p in Prevs(r.txs[r.spends[p]].tx.vin)
    {
      if p !in Prevs(tx.vin) {
        assert p in pool.spends;
      }
    }
  }

  lemma InsertedInv(pool: Pool, tx: Tx, fee: nat)
    requires Inv(pool) && tx.size > 0 && !tx.IsCoinbase() && tx.txid !in pool.txs && Prevs(tx.vin) !! pool.spends.Keys
    ensures Inv(Inserted(pool, tx, fee))
  {
    hide IndexExact;
    var r := Inserted(pool, tx, fee);
    SizeSumRemove(r.txs, tx.txid);
    assert r.txs - {tx.txid} == pool.txs;
    forall id | id in r.txs
      ensures EntryOk(r.txs, id)
    {
      if id != tx.txid {
        assert EntryOk(pool.txs, id);
      }
    }
    InsertedIndex(pool, tx, fee);
  }

  lemma {:induction false} EvaluatedPayable(verify: Verifier, pool: Pool, utxos: Utxos, tx: Tx)
    requires tx.size > 0 && Evaluate(verify, pool, utxos, tx).Ok?
    ensures Payable(verify, pool.txs, utxos, Entry(tx, Evaluate(verify, pool, utxos, tx).value, tx.size))
    ensures !tx.IsCoinbase() && tx.txid !in pool.txs && Prevs(tx.vin) !! pool.spends.Keys
  {
    hide CheckTransaction, Rate, ScriptsOk, Funds, SumInputs;
    SumFacts(pool, utxos, 0, tx.vin);
  }

  /** Inserting an accepted transaction keeps the index exact and the promise for the whole pool. */
  lemma {:induction false} AcceptedSound(verify: Verifier, pool: Pool, utxos: Utxos, tx: Tx)
    requires Inv(pool) && tx.size > 0 && Evaluate(verify, pool, utxos, tx).Ok?
    ensures var r := Inserted(pool, tx, Evaluate(verify, pool, utxos, tx).value);
            Inv(r) && (Sound(verify, pool.txs, utxos) ==> Sound(verify, r.txs, utxos))
  {
    hide Evaluate, Inv, Payable;
    var fee := Evaluate(verify, pool, utxos, tx).value;
    var r := Inserted(pool, tx, fee);
    EvaluatedPayable(verify, pool, utxos, tx);
    InsertedInv(pool, tx, fee);
    if Sound(verify, pool.txs, utxos) {
      forall id | id in r.txs
        ensures Payable(verify, r.txs, utxos, r.txs[id])
      {
        var e := r.txs[id];
        assert Payable(verify, pool.txs, utxos, e);
        StillResolves(verify, pool.txs, utxos, r.txs, tx.txid, e);
        PayableSame(verify, pool.txs, utxos, r.txs, utxos, e);
      }
    }
  }

  lemma StillResolves(verify: Verifier, txs: Txs, utxos: Utxos, more: Txs, added: Hash, e: Entry)
    requires Payable(verify, txs, utxos, e) && added !in txs && added in more && more - {added} == txs
    ensures SameInputs(txs, utxos, more, utxos, e.tx)
  {
    hide CheckTransaction, Rate, Funds;
    forall i | 0 <= i < |e.tx.vin|
      ensures Resolve(txs, utxos, e.tx.vin[i].prev) == Resolve(more, utxos, e.tx.vin[i].prev)
    {
      assert ScriptOk(verify, txs, utxos, e.tx, i);
      var id := e.tx.vin[i].prev.txid;
      if id in txs {
        assert txs[id] == (more - {added})[id] == more[id];
      }
    }
  }
}
