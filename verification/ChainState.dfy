/** The chain state object: its two operations, proved to be the functions of `ChainSpec`.
    A failed call leaves the object as it was: the database transaction is dropped. */
module ChainStateClass {
  import opened Basics
  import opened Types
  import opened UndoCodec
  import opened Utxo
  import opened UndoTheorems
  import opened ChainSpec

  /** The outputs with index below `n`. */
  function CoinsBelow(tx: Tx, height: nat, n: nat): Utxos
    requires n <= |tx.vout|
  {
    map p | p in (set k | 0 <= k < n :: OutPoint(tx.txid, k)) :: Coin(tx.vout[p.index], height, tx.IsCoinbase())
  }

  method InsertOutputs(utxos: Utxos, tx: Tx, height: nat) returns (u: Utxos)
    ensures u == utxos + NewCoins(tx, height)
  {
    u := utxos;
    var i := 0;
    while i < |tx.vout|
      invariant 0 <= i <= |tx.vout|
      invariant u == utxos + CoinsBelow(tx, height, i)
    {
      u := u[OutPoint(tx.txid, i) := Coin(tx.vout[i], height, tx.IsCoinbase())];
      i := i + 1;
    }
  }

  method RemoveOutputs(utxos: Utxos, tx: Tx) returns (u: Utxos)
    ensures u == utxos - tx.Outputs()
  {
    u := utxos;
    var i := 0;
    while i < |tx.vout|
      invariant 0 <= i <= |tx.vout|
      invariant u == utxos - set k | 0 <= k < i :: OutPoint(tx.txid, k)
    {
      u := u - {OutPoint(tx.txid, i)};
      i := i + 1;
    }
  }

  method SpendInputs(utxos: Utxos, vin: seq<TxIn>, height: nat) returns (r: Result<Spend, ConnectError>)
    ensures r == SpendAll(Spend(utxos, [], 0), vin, height)
  {
    var s := Spend(utxos, [], 0);
    var i := 0;
    while i < |vin|
      invariant 0 <= i <= |vin|
      invariant SpendAll(s, vin[i..], height) == SpendAll(Spend(utxos, [], 0), vin, height)
    {
      assert vin[i..][1..] == vin[i + 1..];
      var prev := vin[i].prev;
      if prev !in s.utxos {
        return Err(MissingUtxo);
      }
      var coin := s.utxos[prev];
      if coin.isCoinbase {
        var confirmations := Max(height - coin.height, 0);
        if confirmations < COINBASE_MATURITY {
          return Err(ImmatureCoinbase);
        }
      }
      var sum := CheckedAdd(s.sum, coin.out.value);
      if sum.None? {
        return Err(InputOverflow);
      }
      s := Spend(s.utxos - {prev}, s.spent + [coin], sum.value);
      i := i + 1;
    }
    return Ok(s);
  }

  method VerifyScripts(rules: Rules, tx: Tx, spent: TxUndo) returns (ok: bool)
    requires |spent| == |tx.vin|
    ensures ok <==> ScriptsPass(rules, tx, spent)
  {
    var i := 0;
    while i < |spent|
      invariant 0 <= i <= |spent|
      invariant forall j :: 0 <= j < i ==> rules.verify(tx.vin[j].scriptSig, spent[j].out.script, tx, j)
    {
      if !rules.verify(tx.vin[i].scriptSig, spent[i].out.script, tx, i) {
        return false;
      }
      i := i + 1;
    }
    return true;
  }

  method AddOutputs(outs: seq<TxOut>) returns (r: Option<int>)
    ensures r == SumOutputs(0, outs)
  {
    var sum := 0;
    var i := 0;
    while i < |outs|
      invariant 0 <= i <= |outs|
      invariant SumOutputs(sum, outs[i..]) == SumOutputs(0, outs)
    {
      assert outs[i..][1..] == outs[i + 1..];
      var s := CheckedAdd(sum, outs[i].value);
      if s.None? {
        return None;
      }
      sum := s.value;
      i := i + 1;
    }
    return Some(sum);
  }

  /** One turn of the transaction loop. */
  method ApplyTx(rules: Rules, p: Progress, tx: Tx, height: nat) returns (r: Result<Progress, ConnectError>)
    ensures r == ConnectTx(rules, p, tx, height)
  {
    if tx.IsCoinbase() {
      var u := InsertOutputs(p.utxos, tx, height);
      return Ok(p.(utxos := u));
    }
    if tx.vin == [] {
      return Err(NoInputs);
    }
    var spend := SpendInputs(p.utxos, tx.vin, height);
    if spend.Err? {
      return Err(spend.error);
    }
    SpendFacts(Spend(p.utxos, [], 0), tx.vin, height);
    if height > rules.scriptVerifyHeight {
      var ok := VerifyScripts(rules, tx, spend.value.spent);
      if !ok {
        return Err(ScriptFailed);
      }
    }
    var out := AddOutputs(tx.vout);
    if out.None? {
      return Err(OutputOverflow);
    }
    if out.value > spend.value.sum {
      return Err(OutputsExceedInputs);
    }
    var fees := CheckedAdd(p.fees, spend.value.sum - out.value);
    if fees.None? {
      return Err(FeeOverflow);
    }
    var u := InsertOutputs(spend.value.utxos, tx, height);
    return Ok(Progress(u, p.undo + [spend.value.spent], fees.value));
  }

  method ApplyBlock(rules: Rules, utxos: Utxos, txs: seq<Tx>, height: nat) returns (r: Result<Progress, ConnectError>)
    ensures r == ConnectBlock(rules, utxos, txs, height)
  {
    hide ConnectTx;
    if txs == [] {
      return Err(NoTransactions);
    }
    var p := Start(utxos);
    var i := 0;
    while i < |txs|
      invariant 0 <= i <= |txs|
      invariant ConnectTxs(rules, p, txs[i..], height) == ConnectTxs(rules, Start(utxos), txs, height)
    {
      assert txs[i..][1..] == txs[i + 1..];
      var step := ApplyTx(rules, p, txs[i], height);
      if step.Err? {
        return Err(step.error);
      }
      p := step.value;
      i := i + 1;
    }
    var value := AddOutputs(txs[0].vout);
    if value.None? {
      return Err(CoinbaseOverflow);
    }
    var max := CheckedAdd(Subsidy(height), p.fees);
    if max.None? {
      return Err(SubsidyOverflow);
    }
    if value.value > max.value {
      return Err(CoinbaseTooLarge);
    }
    return Ok(p);
  }

  method RestoreInputs(utxos: Utxos, vin: seq<TxIn>, coins: TxUndo) returns (r: Option<Utxos>)
    ensures if |coins| < |vin| then r == None else r == Some(Restore(utxos, vin, coins))
  {
    var u := utxos;
    var i := 0;
    while i < |vin|
      invariant 0 <= i <= |vin| && i <= |coins|
      invariant u == Restore(utxos, vin[..i], coins)
    {
      if i >= |coins| {
        return None;
      }
      assert vin[..i + 1][..i] == vin[..i];
      u := u[vin[i].prev := coins[i]];
      i := i + 1;
    }
    assert vin[..i] == vin;
    return Some(u);
  }

  method RevertTxs(utxos: Utxos, txs: seq<Tx>, undo: BlockUndo) returns (r: Result<Utxos, DisconnectError>)
    ensures r == DisconnectTxs(utxos, txs, undo)
  {
    var u := utxos;
    var n := |txs|;
    assert txs[..n] == txs;
    while n > 0
      invariant 0 <= n <= |txs|
      invariant DisconnectTxs(u, txs[..n], undo) == DisconnectTxs(utxos, txs, undo)
    {
      n := n - 1;
      var tx := txs[n];
      assert txs[..n + 1][..n] == txs[..n];
      u := RemoveOutputs(u, tx);
      if !tx.IsCoinbase() {
        if n == 0 || n > |undo| {
          return Err(MissingTxUndo);
        }
        var restored := RestoreInputs(u, tx.vin, undo[n - 1]);
        if restored.None? {
          return Err(MissingCoin);
        }
        u := restored.value;
      }
    }
    return Ok(u);
  }

  method CountNonCoinbase(txs: seq<Tx>) returns (n: nat)
    ensures n == NonCoinbase(txs)
  {
    n := 0;
    var i := 0;
    while i < |txs|
      invariant 0 <= i <= |txs|
      invariant n + NonCoinbase(txs[i..]) == NonCoinbase(txs)
    {
      assert txs[i..][1..] == txs[i + 1..];
      if !txs[i].IsCoinbase() {
        n := n + 1;
      }
      i := i + 1;
    }
  }

  class ChainState {
    const rules: Rules
    var utxos: Utxos
    var undo: map<Hash, Bytes>
    var tip: Hash
    var tipHeight: nat

    constructor (rules: Rules)
      ensures this.rules == rules && Value() == State(map[], map[], ZERO_HASH, 0)
    {
      this.rules := rules;
      utxos, undo, tip, tipHeight := map[], map[], ZERO_HASH, 0;
    }

    ghost function Value(): State
      reads this
    {
      State(utxos, undo, tip, tipHeight)
    }

    method GetUtxo(p: OutPoint) returns (c: Option<Coin>)
      ensures c == Lookup(utxos, p)
    {
      c := if p in utxos then Some(utxos[p]) else None;
    }

    method ConnectBlockAt(block: Block, height: nat, hash: Hash) returns (err: Option<ConnectError>)
      modifies this
      ensures match Connect(rules, old(Value()), block, height, hash)
              case Err(e) => err == Some(e) && Value() == old(Value())
              case Ok(s) => err == None && Value() == s
    {
      if height != SaturatingInc(tipHeight) {
        return Some(WrongHeight);
      }
      var r := ApplyBlock(rules, utxos, block.txs, height);
      if r.Err? {
        return Some(r.error);
      }
      utxos := r.value.utxos;
      if r.value.undo != [] {
        var bytes := EncodeBlockUndo(r.value.undo);
        undo := undo[hash := bytes];
      }
      tip, tipHeight := hash, height;
      err := None;
    }

    method DisconnectBlockAt(block: Block, height: nat, hash: Hash) returns (err: Option<DisconnectError>)
      modifies this
      ensures match Disconnect(old(Value()), block, height, hash)
              case Err(e) => err == Some(e) && Value() == old(Value())
              case Ok(s) => err == None && Value() == s
    {
      if height == 0 {
        return Some(GenesisBlock);
      }
      if hash != tip || height != tipHeight {
        return Some(NotTip);
      }
      var count := CountNonCoinbase(block.txs);
      var blockUndo: BlockUndo := [];
      if count > 0 {
        if hash !in undo {
          return Some(NoUndo);
        }
        var loaded := DecodeBlockUndo(undo[hash]);
        if loaded.None? {
          return Some(NoUndo);
        }
        if |loaded.value| != count {
          return Some(UndoMismatch);
        }
        blockUndo := loaded.value;
      }
      var r := RevertTxs(utxos, block.txs, blockUndo);
      if r.Err? {
        return Some(r.error);
      }
      utxos := r.value;
      tip, tipHeight := block.header.prevHash, height - 1;
      err := None;
    }
  }
}
