/** Which blocks connect, and what they leave, stated without running them: every input is
    looked up backwards in the block and in the chain. */
module BlockRules {
  import opened Basics
  import opened Types
  import opened UndoCodec
  import opened Utxo
  import opened UndoTheorems
  import opened ChainSpec
  import opened Replay

  function Sum(values: seq<int>): int {
    if values == [] then 0 else Sum(values[..|values| - 1]) + values[|values| - 1]
  }

  /** No partial sum leaves the 64-bit range. */
  ghost predicate SumsFit(acc: int, values: seq<int>) {
    forall k :: 0 < k <= |values| ==> FitsI64(acc + Sum(values[..k]))
  }

  function Amounts(outs: seq<TxOut>): seq<int> {
    seq(|outs|, i requires 0 <= i < |outs| => outs[i].value)
  }

  // ---------- The rules ----------

  /** The coin at an outpoint before transaction `i`, if it was `base` before the block: the
      last transaction that touches the outpoint decides. */
  function Named(base: Option<Coin>, txs: seq<Tx>, height: nat, i: nat, p: OutPoint): Option<Coin>
    requires i <= |txs|
  {
    if i == 0 then base
    else if p in txs[i - 1].Outputs() then Some(Coin(txs[i - 1].vout[p.index], height, txs[i - 1].IsCoinbase()))
    else if p in txs[i - 1].Inputs() then None
    else Named(base, txs, height, i - 1, p)
  }

  /** The coin that input `j` of transaction `i` names. */
  function InputCoin(coins: OutPoint -> Option<Coin>, txs: seq<Tx>, height: nat, i: nat, j: nat): Option<Coin>
    requires i < |txs| && j < |txs[i].vin|
  {
    var p := txs[i].vin[j].prev;
    Named(coins(p), txs, height, i, p)
  }

  /** A coinbase can be spent after 100 blocks. */
  predicate Mature(c: Coin, height: nat) {
    c.isCoinbase ==> c.height + COINBASE_MATURITY <= height
  }

  /** An input may be spent: its coin exists and is mature, and above the verified height its
      script accepts the input. */
  predicate InputOk(rules: Rules, tx: Tx, j: nat, c: Option<Coin>, height: nat)
    requires j < |tx.vin|
  {
    && c.Some? && Mature(c.value, height)
    && (height > rules.scriptVerifyHeight ==> rules.verify(tx.vin[j].scriptSig, c.value.out.script, tx, j))
  }

  /** The amounts of the coins a transaction spends. */
  function Spent(coins: OutPoint -> Option<Coin>, txs: seq<Tx>, height: nat, i: nat): seq<int>
    requires i < |txs|
  {
    seq(|txs[i].vin|, j requires 0 <= j < |txs[i].vin| =>
      match InputCoin(coins, txs, height, i, j) case None => 0 case Some(c) => c.out.value)
  }

  function Fee(coins: OutPoint -> Option<Coin>, txs: seq<Tx>, height: nat, i: nat): int
    requires i < |txs|
  {
    if txs[i].IsCoinbase() then 0 else Sum(Spent(coins, txs, height, i)) - Sum(Amounts(txs[i].vout))
  }

  function Fees(coins: OutPoint -> Option<Coin>, txs: seq<Tx>, height: nat, n: nat): int
    requires n <= |txs|
  {
    if n == 0 then 0 else Fees(coins, txs, height, n - 1) + Fee(coins, txs, height, n - 1)
  }

  predicate Different(vin: seq<TxIn>) {
    forall j, k :: 0 <= j < k < |vin| ==> vin[j].prev != vin[k].prev
  }

  ghost predicate InputsOk(rules: Rules, coins: OutPoint -> Option<Coin>, txs: seq<Tx>, height: nat, i: nat)
    requires i < |txs|
  {
    forall j :: 0 <= j < |txs[i].vin| ==>
      InputOk(rules, txs[i], j, InputCoin(coins, txs, height, i, j), height)
  }

  /** A transaction other than a coinbase spends different coins that it may spend, worth at
      least its outputs. */
  ghost predicate TxOk(rules: Rules, coins: OutPoint -> Option<Coin>, txs: seq<Tx>, height: nat, i: nat)
    requires i < |txs|
  {
    var tx := txs[i];
    && tx.vin != [] && Different(tx.vin) && InputsOk(rules, coins, txs, height, i)
    && SumsFit(0, Spent(coins, txs, height, i)) && SumsFit(0, Amounts(tx.vout))
    && Fee(coins, txs, height, i) >= 0
  }

  /** The first `n` transactions keep the rules. */
  ghost predicate TxsOk(rules: Rules, coins: OutPoint -> Option<Coin>, txs: seq<Tx>, height: nat, n: nat)
    requires n <= |txs|
  {
    forall i :: 0 <= i < n && !txs[i].IsCoinbase() ==>
      TxOk(rules, coins, txs, height, i) && FitsI64(Fees(coins, txs, height, i + 1))
  }

  /** The block's first transaction creates at most the subsidy and the fees. */
  ghost predicate BlockOk(rules: Rules, coins: OutPoint -> Option<Coin>, txs: seq<Tx>, height: nat) {
    && txs != [] && TxsOk(rules, coins, txs, height, |txs|)
    && SumsFit(0, Amounts(txs[0].vout))
    && var max := Subsidy(height) + Fees(coins, txs, height, |txs|);
    && FitsI64(max) && Sum(Amounts(txs[0].vout)) <= max
  }

  /** The coin at an outpoint after the first `n` blocks of a chain. */
  function ChainCoin(chain: seq<Block>, n: nat, p: OutPoint): Option<Coin>
    requires n <= |chain|
  {
    if n == 0 then None
    else Named(ChainCoin(chain, n - 1, p), chain[n - 1].txs, n, |chain[n - 1].txs|, p)
  }

  // ---------- Sums ----------

  lemma {:induction false} SumFront(values: seq<int>)
    requires values != []
    ensures Sum(values) == values[0] + Sum(values[1..])
    decreases |values|
  {
    if |values| > 1 {
      SumFront(values[..|values| - 1]);
      assert values[1..][..|values| - 2] == values[..|values| - 1][1..];
    }
  }

  lemma SumsFitStep(acc: int, values: seq<int>)
    requires values != []
    ensures SumsFit(acc, values) <==> FitsI64(acc + values[0]) && SumsFit(acc + values[0], values[1..])
  {
    hide FitsI64;
    forall k | 0 < k <= |values|
      ensures Sum(values[..k]) == values[0] + Sum(values[1..][..k - 1])
    {
      SumFront(values[..k]);
      assert values[..k][1..] == values[1..][..k - 1];
    }
    if SumsFit(acc, values) {
      assert FitsI64(acc + Sum(values[..1]));
      forall k | 0 < k <= |values[1..]|
        ensures FitsI64(acc + values[0] + Sum(values[1..][..k]))
      {
        assert FitsI64(acc + Sum(values[..k + 1]));
      }
    }
    if FitsI64(acc + values[0]) && SumsFit(acc + values[0], values[1..]) {
      forall k | 0 < k <= |values|
        ensures FitsI64(acc + Sum(values[..k]))
      {
        if k > 1 {
          assert FitsI64(acc + values[0] + Sum(values[1..][..k - 1]));
        }
      }
    }
  }

  lemma {:induction false} OutputsIff(acc: int, outs: seq<TxOut>)
    ensures SumOutputs(acc, outs) ==
            if SumsFit(acc, Amounts(outs)) then Some(acc + Sum(Amounts(outs))) else None
    decreases |outs|
  {
    if outs != [] {
      var values := Amounts(outs);
      assert values[1..] == Amounts(outs[1..]);
      SumsFitStep(acc, values);
      SumFront(values);
      OutputsIff(acc + outs[0].value, outs[1..]);
    }
  }

  // ---------- One transaction ----------

  /** Different coins that exist and are mature. */
  ghost predicate Takable(u: Utxos, vin: seq<TxIn>, height: nat) {
    Different(vin) && forall j :: 0 <= j < |vin| ==> vin[j].prev in u && Mature(u[vin[j].prev], height)
  }

  function CoinAmounts(u: Utxos, vin: seq<TxIn>): seq<int> {
    seq(|vin|, j requires 0 <= j < |vin| => if vin[j].prev in u then u[vin[j].prev].out.value else 0)
  }

  lemma TakableStep(u: Utxos, vin: seq<TxIn>, height: nat)
    requires vin != []
    ensures Takable(u, vin, height) <==>
            vin[0].prev in u && Mature(u[vin[0].prev], height) && Takable(u - {vin[0].prev}, vin[1..], height)
    ensures Takable(u, vin, height) ==> CoinAmounts(u - {vin[0].prev}, vin[1..]) == CoinAmounts(u, vin)[1..]
  {
    hide Mature;
    var rest, v := vin[1..], u - {vin[0].prev};
    assert forall j :: 0 <= j < |rest| ==> rest[j] == vin[j + 1];
    if Takable(u, vin, height) {
      assert Takable(v, rest, height);
    }
    if vin[0].prev in u && Mature(u[vin[0].prev], height) && Takable(v, rest, height) {
      forall j | 0 <= j < |vin|
        ensures vin[j].prev in u && Mature(u[vin[j].prev], height)
      {
        assert j > 0 ==> rest[j - 1] == vin[j];
      }
      forall j, k | 0 <= j < k < |vin|
        ensures vin[j].prev != vin[k].prev
      {
        assert rest[k - 1].prev in v;
        assert j > 0 ==> rest[j - 1].prev != rest[k - 1].prev;
      }
    }
  }

  lemma {:induction false} SpendIff(s: Spend, vin: seq<TxIn>, height: nat)
    ensures SpendAll(s, vin, height).Ok? <==>
            Takable(s.utxos, vin, height) && SumsFit(s.sum, CoinAmounts(s.utxos, vin))
    ensures SpendAll(s, vin, height).Ok? ==>
              SpendAll(s, vin, height).value.sum == s.sum + Sum(CoinAmounts(s.utxos, vin))
    decreases |vin|
  {
    hide Takable, SumsFit, FitsI64;
    if vin == [] {
      assert Takable(s.utxos, vin, height) by { NothingTaken(s.utxos, height); }
      assert SumsFit(s.sum, []) by { NothingSummed(s.sum); }
    } else {
      var values := CoinAmounts(s.utxos, vin);
      TakableStep(s.utxos, vin, height);
      SumsFitStep(s.sum, values);
      SumFront(values);
      var one := SpendOne(s, vin[0].prev, height);
      if one.Ok? {
        SpendIff(one.value, vin[1..], height);
      }
    }
  }

  lemma NothingTaken(u: Utxos, height: nat)
    ensures Takable(u, [], height)
  {
  }

  lemma NothingSummed(acc: int)
    ensures SumsFit(acc, [])
  {
  }

  /** Coins and fees before transaction `i` are those looked up backwards. */
  ghost predicate At(coins: OutPoint -> Option<Coin>, txs: seq<Tx>, height: nat, i: nat, p: Progress)
    requires i <= |txs|
  {
    && p.fees == Fees(coins, txs, height, i)
    && forall q :: Lookup(p.utxos, q) == Named(coins(q), txs, height, i, q)
  }

  lemma InputsIff(rules: Rules, coins: OutPoint -> Option<Coin>, txs: seq<Tx>, height: nat, i: nat, p: Progress)
    requires i < |txs| && At(coins, txs, height, i, p)
    ensures CoinAmounts(p.utxos, txs[i].vin) == Spent(coins, txs, height, i)
    ensures forall j :: 0 <= j < |txs[i].vin| ==>
              InputCoin(coins, txs, height, i, j) == Lookup(p.utxos, txs[i].vin[j].prev)
  {
    hide Named;
    forall j | 0 <= j < |txs[i].vin|
      ensures InputCoin(coins, txs, height, i, j) == Lookup(p.utxos, txs[i].vin[j].prev)
    {
      var q := txs[i].vin[j].prev;
      assert Lookup(p.utxos, q) == Named(coins(q), txs, height, i, q);
    }
  }

  /** Transaction `i` connects exactly if it keeps the rules. */
  lemma {:induction false} TxConnectsIff(rules: Rules, coins: OutPoint -> Option<Coin>, txs: seq<Tx>, height: nat,
      i: nat, p: Progress)
    requires i < |txs| && At(coins, txs, height, i, p)
    ensures ConnectTx(rules, p, txs[i], height).Ok? <==>
            txs[i].IsCoinbase() || (TxOk(rules, coins, txs, height, i) && FitsI64(Fees(coins, txs, height, i + 1)))
    ensures ConnectTx(rules, p, txs[i], height).Ok? ==>
              ConnectTx(rules, p, txs[i], height).value.fees == Fees(coins, txs, height, i + 1)
  {
    hide Named, SumsFit, FitsI64, Sum, Takable, InputCoin, Different, InputsOk, ScriptsPass;
    var tx := txs[i];
    if !tx.IsCoinbase() {
      var s := Spend(p.utxos, [], 0);
      InputsIff(rules, coins, txs, height, i, p);
      SpendIff(s, tx.vin, height);
      OutputsIff(0, tx.vout);
      TakenOk(rules, coins, txs, height, i, p);
    }
  }

  /** Takable inputs whose scripts pass are the inputs that may be spent. */
  lemma TakenOk(rules: Rules, coins: OutPoint -> Option<Coin>, txs: seq<Tx>, height: nat, i: nat, p: Progress)
    requires i < |txs| && At(coins, txs, height, i, p)
    ensures var tx, s := txs[i], SpendAll(Spend(p.utxos, [], 0), txs[i].vin, height);
            var ok := Different(tx.vin) && InputsOk(rules, coins, txs, height, i);
            && (ok ==> Takable(p.utxos, tx.vin, height))
            && (s.Ok? ==> (ok <==> height > rules.scriptVerifyHeight ==> ScriptsPass(rules, tx, s.value.spent)))
  {
    hide Named, At, InputCoin, SpendAll, Different;
    var tx, s := txs[i], SpendAll(Spend(p.utxos, [], 0), txs[i].vin, height);
    InputsIff(rules, coins, txs, height, i, p);
    if s.Ok? {
      SpendFacts(Spend(p.utxos, [], 0), tx.vin, height);
      SpendIff(Spend(p.utxos, [], 0), tx.vin, height);
    }
  }

  lemma {:induction false} CoinsNext(rules: Rules, coins: OutPoint -> Option<Coin>, txs: seq<Tx>, height: nat,
      i: nat, p: Progress, q: OutPoint)
    requires i < |txs| && At(coins, txs, height, i, p) && ConnectTx(rules, p, txs[i], height).Ok?
    ensures Lookup(ConnectTx(rules, p, txs[i], height).value.utxos, q) == Named(coins(q), txs, height, i + 1, q)
  {
    hide ConnectTx;
    ConnectTxFacts(rules, p, txs[i], height);
    assert Lookup(p.utxos, q) == Named(coins(q), txs, height, i, q);
  }

  // ---------- A block, and a chain ----------

  /** The transactions of a block connect exactly if they keep the rules, and then leave the
      coins looked up backwards. */
  lemma {:induction false} TxsConnectIff(rules: Rules, u: Utxos, coins: OutPoint -> Option<Coin>, txs: seq<Tx>,
      height: nat, n: nat)
    requires n <= |txs| && forall q :: Lookup(u, q) == coins(q)
    ensures ConnectTxs(rules, Start(u), txs[..n], height).Ok? <==> TxsOk(rules, coins, txs, height, n)
    ensures ConnectTxs(rules, Start(u), txs[..n], height).Ok? ==>
              At(coins, txs, height, n, ConnectTxs(rules, Start(u), txs[..n], height).value)
    decreases n
  {
    hide ConnectTx, TxOk, FitsI64;
    if n > 0 {
      TxsConnectIff(rules, u, coins, txs, height, n - 1);
      assert txs[..n] == txs[..n - 1] + [txs[n - 1]];
      ConnectAppend(rules, Start(u), txs[..n - 1], txs[n - 1], height);
      var r := ConnectTxs(rules, Start(u), txs[..n - 1], height);
      if r.Ok? {
        TxConnectsIff(rules, coins, txs, height, n - 1, r.value);
        if ConnectTx(rules, r.value, txs[n - 1], height).Ok? {
          forall q
            ensures Lookup(ConnectTx(rules, r.value, txs[n - 1], height).value.utxos, q) ==
                    Named(coins(q), txs, height, n, q)
          {
            CoinsNext(rules, coins, txs, height, n - 1, r.value, q);
          }
        }
      }
    }
  }

  /** A block connects exactly if it keeps the rules. */
  lemma {:induction false} BlockConnectsIff(rules: Rules, u: Utxos, coins: OutPoint -> Option<Coin>, txs: seq<Tx>,
      height: nat)
    requires forall q :: Lookup(u, q) == coins(q)
    ensures ConnectBlock(rules, u, txs, height).Ok? <==> BlockOk(rules, coins, txs, height)
    ensures ConnectBlock(rules, u, txs, height).Ok? ==>
              At(coins, txs, height, |txs|, ConnectBlock(rules, u, txs, height).value)
  {
    hide ConnectTxs, TxOk, FitsI64, SumsFit, Named;
    if txs != [] {
      assert txs[..|txs|] == txs;
      TxsConnectIff(rules, u, coins, txs, height, |txs|);
      OutputsIff(0, txs[0].vout);
    }
  }

  function CoinsAt(chain: seq<Block>, n: nat): OutPoint -> Option<Coin>
    requires n <= |chain|
  {
    p => ChainCoin(chain, n, p)
  }

  ghost predicate BlocksOk(rules: Rules, chain: seq<Block>, n: nat)
    requires n <= |chain|
  {
    forall k :: 0 <= k < n ==> BlockOk(rules, CoinsAt(chain, k), chain[k].txs, k + 1)
  }

  /** A chain replays exactly if every block of it keeps the rules, and then its coins are
      those looked up backwards. */
  lemma {:induction false} ReplaysIff(rules: Rules, chain: seq<Block>, n: nat)
    requires n <= |chain|
    ensures ReplayUtxos(rules, chain[..n]).Ok? <==> BlocksOk(rules, chain, n)
    ensures ReplayUtxos(rules, chain[..n]).Ok? ==>
              forall p :: Lookup(ReplayUtxos(rules, chain[..n]).value, p) == ChainCoin(chain, n, p)
    decreases n
  {
    hide ConnectBlock, BlockOk, Named;
    if n > 0 {
      ReplaysIff(rules, chain, n - 1);
      assert chain[..n][..n - 1] == chain[..n - 1];
      var r := ReplayUtxos(rules, chain[..n - 1]);
      if r.Ok? {
        BlockConnectsIff(rules, r.value, CoinsAt(chain, n - 1), chain[n - 1].txs, n);
      }
    }
  }

  // ---------- Scripts ----------

  /** Transaction `b` of block `a` created the coin at `p`. */
  predicate Creates(chain: seq<Block>, a: nat, b: nat, p: OutPoint, c: Coin) {
    && a < |chain| && b < |chain[a].txs| && p in chain[a].txs[b].Outputs()
    && c == Coin(chain[a].txs[b].vout[p.index], a + 1, chain[a].txs[b].IsCoinbase())
  }

  /** A coin named in a block was created by an earlier transaction of it, or before it. */
  lemma {:induction false} NamedOrigin(chain: seq<Block>, k: nat, i: nat, p: OutPoint) returns (a: nat, b: nat)
    requires k < |chain| && i <= |chain[k].txs|
    requires Named(ChainCoin(chain, k, p), chain[k].txs, k + 1, i, p).Some?
    ensures Creates(chain, a, b, p, Named(ChainCoin(chain, k, p), chain[k].txs, k + 1, i, p).value)
    ensures a < k || (a == k && b < i)
    decreases k, i
  {
    if i == 0 {
      a, b := NamedOrigin(chain, k - 1, |chain[k - 1].txs|, p);
    } else if p in chain[k].txs[i - 1].Outputs() {
      a, b := k, i - 1;
    } else {
      a, b := NamedOrigin(chain, k, i - 1, p);
    }
  }

  /** In a chain that replays, every input of a block above the verified height names an output
      of an earlier transaction, and its script accepts the input. */
  lemma {:induction false} ScriptsVerified(rules: Rules, chain: seq<Block>, k: nat, i: nat, j: nat)
    returns (a: nat, b: nat)
    requires ReplayUtxos(rules, chain).Ok? && k < |chain| && k + 1 > rules.scriptVerifyHeight
    requires i < |chain[k].txs| && !chain[k].txs[i].IsCoinbase() && j < |chain[k].txs[i].vin|
    ensures var tx := chain[k].txs[i];
            && (a < k || (a == k && b < i)) && b < |chain[a].txs| && tx.vin[j].prev in chain[a].txs[b].Outputs()
            && rules.verify(tx.vin[j].scriptSig, chain[a].txs[b].vout[tx.vin[j].prev.index].script, tx, j)
  {
    hide ReplayUtxos, Named;
    assert chain[..|chain|] == chain;
    ReplaysIff(rules, chain, |chain|);
    assert BlockOk(rules, CoinsAt(chain, k), chain[k].txs, k + 1);
    assert TxOk(rules, CoinsAt(chain, k), chain[k].txs, k + 1, i);
    assert InputOk(rules, chain[k].txs[i], j, InputCoin(CoinsAt(chain, k), chain[k].txs, k + 1, i, j), k + 1);
    a, b := NamedOrigin(chain, k, i, chain[k].txs[i].vin[j].prev);
  }

  lemma {:induction false} TxsUnverified(rules: Rules, other: Rules, p: Progress, txs: seq<Tx>, height: nat)
    requires height <= rules.scriptVerifyHeight == other.scriptVerifyHeight
    ensures ConnectTxs(rules, p, txs, height) == ConnectTxs(other, p, txs, height)
    decreases |txs|
  {
    if txs != [] {
      var r := ConnectTx(rules, p, txs[0], height);
      if r.Ok? {
        TxsUnverified(rules, other, r.value, txs[1..], height);
      }
    }
  }

  /** Up to the verified height the scripts do not matter. */
  lemma {:induction false} ScriptsSkipped(rules: Rules, other: Rules, chain: seq<Block>)
    requires |chain| <= rules.scriptVerifyHeight == other.scriptVerifyHeight
    ensures ReplayUtxos(rules, chain) == ReplayUtxos(other, chain)
    decreases |chain|
  {
    hide ConnectTxs, CheckCoinbase;
    if chain != [] {
      ScriptsSkipped(rules, other, chain[..|chain| - 1]);
      var r := ReplayUtxos(rules, chain[..|chain| - 1]);
      if r.Ok? {
        TxsUnverified(rules, other, Start(r.value), chain[|chain| - 1].txs, |chain|);
      }
    }
  }

  // ---------- The chain state ----------

  /** A block is connected exactly if it is the next one and keeps the rules. */
  lemma {:induction false} ConnectsIff(rules: Rules, s: State, coins: OutPoint -> Option<Coin>, block: Block,
      height: nat, hash: Hash)
    requires forall q :: Lookup(s.utxos, q) == coins(q)
    ensures Connect(rules, s, block, height, hash).Ok? <==>
            height == Min(s.height + 1, MAX_U32) && BlockOk(rules, coins, block.txs, height)
  {
    hide ConnectBlock, BlockOk;
    BlockConnectsIff(rules, s.utxos, coins, block.txs, height);
  }

  /** The undo record has an entry for every transaction, with a coin for every input. */
  ghost predicate Undoable(txs: seq<Tx>, undo: BlockUndo) {
    forall i :: 0 <= i < |txs| && !txs[i].IsCoinbase() ==> 0 < i <= |undo| && |txs[i].vin| <= |undo[i - 1]|
  }

  lemma {:induction false} TxsDisconnectIff(u: Utxos, txs: seq<Tx>, undo: BlockUndo)
    ensures DisconnectTxs(u, txs, undo).Ok? <==> Undoable(txs, undo)
    decreases |txs|
  {
    if txs != [] {
      var init, n := txs[..|txs| - 1], |txs| - 1;
      var r := DisconnectTx(u, txs[n], n, undo);
      if r.Ok? {
        TxsDisconnectIff(r.value, init, undo);
        assert Undoable(txs, undo) ==> Undoable(init, undo);
        if Undoable(init, undo) {
          forall i | 0 <= i < |txs| && !txs[i].IsCoinbase()
            ensures 0 < i <= |undo| && |txs[i].vin| <= |undo[i - 1]|
          {
            assert i < n ==> init[i] == txs[i];
          }
        }
      }
    }
  }

  /** A checked block is disconnected exactly if it is the tip, not the genesis block, and the
      stored record can be read and covers it. */
  lemma {:induction false} DisconnectsIff(s: State, block: Block, height: nat, hash: Hash)
    requires CheckedBlock(block)
    ensures Disconnect(s, block, height, hash).Ok? <==>
            && 0 < height == s.height && hash == s.tip
            && (|block.txs| > 1 ==>
                  && hash in s.undo && BlockUndoFrom(s.undo[hash]).Some?
                  && |BlockUndoFrom(s.undo[hash]).value| == |block.txs| - 1
                  && Undoable(block.txs, BlockUndoFrom(s.undo[hash]).value))
    ensures Disconnect(s, block, height, hash).Ok? ==>
              Disconnect(s, block, height, hash).value ==
              State(Disconnect(s, block, height, hash).value.utxos, s.undo, block.header.prevHash, height - 1)
  {
    hide BlockUndoFrom, DisconnectTxs, CheckedTx;
    NonCoinbaseCount(block.txs[1..]);
    var undo := LoadUndo(s, block.txs, hash);
    if undo.Ok? {
      TxsDisconnectIff(s.utxos, block.txs, undo.value);
    }
  }
}
