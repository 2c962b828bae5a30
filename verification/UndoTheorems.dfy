/** Disconnecting a block after connecting it: what is restored, and exactly when
    everything is. */
module UndoTheorems {
  import opened Basics
  import opened Types
  import opened UndoCodec
  import opened Utxo

  function Lookup(u: Utxos, p: OutPoint): Option<Coin> {
    if p in u then Some(u[p]) else None
  }

  lemma SameUtxos(a: Utxos, b: Utxos)
    requires forall p :: Lookup(a, p) == Lookup(b, p)
    ensures a == b
  {
    forall p
      ensures p in a <==> p in b
      ensures p in a ==> a[p] == b[p]
    {
      assert Lookup(a, p) == Lookup(b, p);
    }
  }

  // ---------- One transaction ----------

  /** Spending: the spent coins are the ones found, and exactly those outpoints disappear. */
  lemma {:induction false} SpendFacts(s: Spend, vin: seq<TxIn>, height: nat)
    requires SpendAll(s, vin, height).Ok?
    ensures var r := SpendAll(s, vin, height).value;
            && |r.spent| == |s.spent| + |vin|
            && s.spent <= r.spent
            && (forall i :: 0 <= i < |vin| ==>
                  vin[i].prev in s.utxos && r.spent[|s.spent| + i] == s.utxos[vin[i].prev])
            && r.utxos == s.utxos - Prevs(vin)
    decreases |vin|
  {
    if vin != [] {
      var s' := SpendOne(s, vin[0].prev, height).value;
      var rest := vin[1..];
      SpendFacts(s', rest, height);
      var r := SpendAll(s, vin, height).value;
      forall i | 0 <= i < |vin|
        ensures vin[i].prev in s.utxos && r.spent[|s.spent| + i] == s.utxos[vin[i].prev]
      {
        if i == 0 {
          assert r.spent[|s.spent|] == s'.spent[|s.spent|];
        } else {
          assert rest[i - 1] == vin[i];
          assert r.spent[|s'.spent| + (i - 1)] == s'.utxos[rest[i - 1].prev];
        }
      }
      PrevsStep(vin);
    } else {
      assert Prevs(vin) == {};
    }
  }

  /** What a connected non-coinbase transaction did, outpoint by outpoint. */
  lemma {:induction false} ConnectTxFacts(rules: Rules, p: Progress, tx: Tx, height: nat)
    requires ConnectTx(rules, p, tx, height).Ok?
    ensures var r := ConnectTx(rules, p, tx, height).value;
            && tx.Inputs() <= p.utxos.Keys
            && r.utxos == p.utxos - tx.Inputs() + NewCoins(tx, height)
            && (tx.IsCoinbase() ==> r.undo == p.undo)
            && (!tx.IsCoinbase() ==>
                  && |r.undo| == |p.undo| + 1 && p.undo <= r.undo
                  && |r.undo[|p.undo|]| == |tx.vin|
                  && forall i :: 0 <= i < |tx.vin| ==>
                       tx.vin[i].prev in p.utxos && r.undo[|p.undo|][i] == p.utxos[tx.vin[i].prev])
  {
    if !tx.IsCoinbase() {
      SpendFacts(Spend(p.utxos, [], 0), tx.vin, height);
    }
  }

  /** Putting the spent coins back. */
  lemma {:induction false} RestoreFacts(u: Utxos, vin: seq<TxIn>, coins: TxUndo, base: Utxos, q: OutPoint)
    requires |vin| <= |coins|
    requires forall i :: 0 <= i < |vin| ==> vin[i].prev in base && coins[i] == base[vin[i].prev]
    ensures Lookup(Restore(u, vin, coins), q) ==
            if exists i :: 0 <= i < |vin| && vin[i].prev == q then Lookup(base, q) else Lookup(u, q)
    decreases |vin|
  {
    if vin != [] {
      var init, last := vin[..|vin| - 1], vin[|vin| - 1];
      RestoreFacts(u, init, coins, base, q);
      if last.prev != q && exists i :: 0 <= i < |vin| && vin[i].prev == q {
        var i :| 0 <= i < |vin| && vin[i].prev == q;
        assert init[i].prev == q;
      }
    }
  }

  // ---------- A whole block ----------

  datatype Touch = Untouched | SpentFirst | CreatedFirst

  function TouchOf(tx: Tx, p: OutPoint): Touch {
    if p in tx.Inputs() then SpentFirst else if p in tx.Outputs() then CreatedFirst else Untouched
  }

  /** How the earliest transaction that touches an outpoint touches it. */
  function FirstTouch(txs: seq<Tx>, p: OutPoint): Touch {
    if txs == [] then Untouched
    else
      var t := FirstTouch(txs[..|txs| - 1], p);
      if t != Untouched then t else TouchOf(txs[|txs| - 1], p)
  }

  /** Coinbase first, and only there. */
  predicate CoinbaseFirst(txs: seq<Tx>) {
    forall i :: 0 <= i < |txs| ==> (txs[i].IsCoinbase() <==> i == 0)
  }

  lemma {:induction false} ConnectAppend(rules: Rules, p: Progress, txs: seq<Tx>, tx: Tx, height: nat)
    ensures ConnectTxs(rules, p, txs + [tx], height) ==
            match ConnectTxs(rules, p, txs, height)
            case Err(e) => Err(e)
            case Ok(p') => ConnectTx(rules, p', tx, height)
    decreases |txs|
  {
    hide ConnectTx;
    if txs == [] {
      assert [tx][1..] == [];
    } else {
      assert (txs + [tx])[1..] == txs[1..] + [tx];
      var r := ConnectTx(rules, p, txs[0], height);
      if r.Ok? {
        ConnectAppend(rules, r.value, txs[1..], tx, height);
      }
    }
  }

  function Start(u: Utxos): Progress {
    Progress(u, [], 0)
  }

  /** The state after all but the last transaction. */
  lemma ConnectInit(rules: Rules, u: Utxos, txs: seq<Tx>, height: nat)
    requires txs != [] && ConnectTxs(rules, Start(u), txs, height).Ok?
    ensures ConnectTxs(rules, Start(u), txs[..|txs| - 1], height).Ok?
    ensures ConnectTxs(rules, Start(u), txs, height) ==
            ConnectTx(rules, ConnectTxs(rules, Start(u), txs[..|txs| - 1], height).value, txs[|txs| - 1], height)
  {
    hide ConnectTx, ConnectTxs;
    ConnectAppend(rules, Start(u), txs[..|txs| - 1], txs[|txs| - 1], height);
    assert txs[..|txs| - 1] + [txs[|txs| - 1]] == txs;
  }

  /** One undo entry per non-coinbase transaction. */
  lemma {:induction false} UndoLength(rules: Rules, u: Utxos, txs: seq<Tx>, height: nat)
    requires CoinbaseFirst(txs) && ConnectTxs(rules, Start(u), txs, height).Ok?
    ensures |ConnectTxs(rules, Start(u), txs, height).value.undo| == if txs == [] then 0 else |txs| - 1
    decreases |txs|
  {
    hide ConnectTx;
    if txs != [] {
      ConnectInit(rules, u, txs, height);
      var init := txs[..|txs| - 1];
      UndoLength(rules, u, init, height);
      ConnectTxFacts(rules, ConnectTxs(rules, Start(u), init, height).value, txs[|txs| - 1], height);
    }
  }

  /** An outpoint the block does not touch keeps its coin. */
  lemma {:induction false} UntouchedKept(rules: Rules, u: Utxos, txs: seq<Tx>, height: nat, q: OutPoint)
    requires ConnectTxs(rules, Start(u), txs, height).Ok? && FirstTouch(txs, q) == Untouched
    ensures Lookup(ConnectTxs(rules, Start(u), txs, height).value.utxos, q) == Lookup(u, q)
    decreases |txs|
  {
    hide ConnectTx;
    if txs != [] {
      ConnectInit(rules, u, txs, height);
      var init := txs[..|txs| - 1];
      UntouchedKept(rules, u, init, height, q);
      ConnectTxFacts(rules, ConnectTxs(rules, Start(u), init, height).value, txs[|txs| - 1], height);
    }
  }

  /** Undoing one transaction on any set of coins: its inputs get their coins back, its
      other outputs disappear, nothing else changes. */
  lemma DisconnectTxFacts(rules: Rules, p: Progress, tx: Tx, height: nat, w: Utxos, i: nat, undo: BlockUndo,
      q: OutPoint)
    requires ConnectTx(rules, p, tx, height).Ok?
    requires ConnectTx(rules, p, tx, height).value.undo <= undo
    requires tx.IsCoinbase() || i == |p.undo| + 1
    ensures DisconnectTx(w, tx, i, undo).Ok?
    ensures Lookup(DisconnectTx(w, tx, i, undo).value, q) ==
            match TouchOf(tx, q)
            case SpentFirst => Lookup(p.utxos, q)
            case CreatedFirst => None
            case Untouched => Lookup(w, q)
  {
    hide ConnectTx;
    ConnectTxFacts(rules, p, tx, height);
    if !tx.IsCoinbase() {
      var coins := undo[i - 1];
      assert coins == ConnectTx(rules, p, tx, height).value.undo[|p.undo|];
      RestoreFacts(w - tx.Outputs(), tx.vin, coins, p.utxos, q);
      if exists k :: 0 <= k < |tx.vin| && tx.vin[k].prev == q {
        var k :| 0 <= k < |tx.vin| && tx.vin[k].prev == q;
        assert q in tx.Inputs();
      }
    }
  }

  /** Undoing a block on any set of coins `w`, outpoint by outpoint: what the block spent
      first comes back as it was before the block, what it created first disappears, and
      what it did not touch is left as it is. */
  lemma {:induction false} DisconnectPointwise(rules: Rules, u: Utxos, txs: seq<Tx>, height: nat, w: Utxos,
      undo: BlockUndo, q: OutPoint)
    requires CoinbaseFirst(txs) && ConnectTxs(rules, Start(u), txs, height).Ok?
    requires ConnectTxs(rules, Start(u), txs, height).value.undo <= undo
    ensures DisconnectTxs(w, txs, undo).Ok?
    ensures Lookup(DisconnectTxs(w, txs, undo).value, q) ==
            match FirstTouch(txs, q)
            case SpentFirst => Lookup(u, q)
            case CreatedFirst => None
            case Untouched => Lookup(w, q)
    decreases |txs|
  {
    hide ConnectTx, ConnectTxs, DisconnectTx;
    if txs != [] {
      var init, tx := txs[..|txs| - 1], txs[|txs| - 1];
      ConnectInit(rules, u, txs, height);
      var p := ConnectTxs(rules, Start(u), init, height).value;
      UndoLength(rules, u, init, height);
      ConnectTxFacts(rules, p, tx, height);
      DisconnectTxFacts(rules, p, tx, height, w, |txs| - 1, undo, q);
      var w' := DisconnectTx(w, tx, |txs| - 1, undo).value;
      DisconnectPointwise(rules, u, init, height, w', undo, q);
      if FirstTouch(init, q) == Untouched {
        UntouchedKept(rules, u, init, height, q);
      }
    }
  }

  /** No output overwrites a coin that is still unspent when the output is created, unless
      the block has spent it by then. The uniqueness rule of BIP 30 implies it. */
  ghost predicate NoOverwrite(u: Utxos, txs: seq<Tx>) {
    forall p :: p in u ==> FirstTouch(txs, p) != CreatedFirst
  }

  /** Disconnecting after connecting always succeeds, and it restores the coins exactly when
      the block overwrote none. */
  lemma {:induction false} DisconnectUndoesConnect(rules: Rules, u: Utxos, txs: seq<Tx>, height: nat)
    requires CoinbaseFirst(txs) && ConnectTxs(rules, Start(u), txs, height).Ok?
    ensures var p := ConnectTxs(rules, Start(u), txs, height).value;
            && DisconnectTxs(p.utxos, txs, p.undo).Ok?
            && (DisconnectTxs(p.utxos, txs, p.undo).value == u <==> NoOverwrite(u, txs))
  {
    hide ConnectTxs, DisconnectTxs;
    var p := ConnectTxs(rules, Start(u), txs, height).value;
    DisconnectPointwise(rules, u, txs, height, p.utxos, p.undo, COINBASE_OUTPOINT);
    var d := DisconnectTxs(p.utxos, txs, p.undo).value;
    forall q
      ensures Lookup(d, q) == if FirstTouch(txs, q) == CreatedFirst then None else Lookup(u, q)
    {
      DisconnectPointwise(rules, u, txs, height, p.utxos, p.undo, q);
      if FirstTouch(txs, q) == Untouched {
        UntouchedKept(rules, u, txs, height, q);
      }
    }
    if NoOverwrite(u, txs) {
      SameUtxos(d, u);
    } else {
      var q :| q in u && FirstTouch(txs, q) == CreatedFirst;
      assert Lookup(d, q) == None;
    }
  }
}
