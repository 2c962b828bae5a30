/** The persistent chain state: unspent coins, undo records as stored bytes, tip. */
module ChainSpec {
  import opened Basics
  import opened Types
  import opened UndoCodec
  import opened Utxo
  import opened UndoTheorems

  datatype State = State(utxos: Utxos, undo: map<Hash, Bytes>, tip: Hash, height: nat)

  function SaturatingInc(h: nat): nat { Min(h + 1, MAX_U32) }

  /** `connect_block`: all or nothing. */
  function Connect(rules: Rules, s: State, block: Block, height: nat, hash: Hash): Result<State, ConnectError> {
    if height != SaturatingInc(s.height) then Err(WrongHeight)
    else
      match ConnectBlock(rules, s.utxos, block.txs, height)
      case Err(e) => Err(e)
      case Ok(p) =>
        Ok(State(p.utxos, if p.undo == [] then s.undo else s.undo[hash := BlockUndoBytes(p.undo)], hash, height))
  }

  function NonCoinbase(txs: seq<Tx>): nat {
    if txs == [] then 0 else (if txs[0].IsCoinbase() then 0 else 1) + NonCoinbase(txs[1..])
  }

  /** The undo record a block needs: none when it holds nothing but coinbases. */
  function LoadUndo(s: State, txs: seq<Tx>, hash: Hash): Result<BlockUndo, DisconnectError> {
    if NonCoinbase(txs) == 0 then Ok([])
    else if hash !in s.undo then Err(NoUndo)
    else
      match BlockUndoFrom(s.undo[hash])
      case None => Err(NoUndo)
      case Some(undo) => if |undo| != NonCoinbase(txs) then Err(UndoMismatch) else Ok(undo)
  }

  /** `disconnect_block`: all or nothing. */
  function Disconnect(s: State, block: Block, height: nat, hash: Hash): Result<State, DisconnectError> {
    if height == 0 then Err(GenesisBlock)
    else if hash != s.tip || height != s.height then Err(NotTip)
    else
      match LoadUndo(s, block.txs, hash)
      case Err(e) => Err(e)
      case Ok(undo) =>
        match DisconnectTxs(s.utxos, block.txs, undo)
        case Err(e) => Err(e)
        case Ok(u) => Ok(State(u, s.undo, block.header.prevHash, height - 1))
  }

  // ---------- Coins stay well-formed ----------

  ghost predicate ValidUtxos(u: Utxos) {
    forall p :: p in u ==> ValidCoin(u[p])
  }

  lemma ConnectTxValid(rules: Rules, p: Progress, tx: Tx, height: nat)
    requires ConnectTx(rules, p, tx, height).Ok?
    requires ValidUtxos(p.utxos) && ValidUndo(p.undo) && |p.undo| < MAX_BLOCK_TXS
    requires CheckedTx(tx) && height <= MAX_U32
    ensures var r := ConnectTx(rules, p, tx, height).value; ValidUtxos(r.utxos) && ValidUndo(r.undo)
  {
    hide ConnectTx;
    ConnectTxFacts(rules, p, tx, height);
    var r := ConnectTx(rules, p, tx, height).value;
    if !tx.IsCoinbase() {
      var spent := r.undo[|p.undo|];
      assert ValidTxUndo(spent);
      forall i | 0 <= i < |r.undo|
        ensures ValidTxUndo(r.undo[i])
      {
        if i < |p.undo| {
          assert r.undo[i] == p.undo[i];
        }
      }
    }
  }

  lemma {:induction false} ConnectValid(rules: Rules, u: Utxos, txs: seq<Tx>, height: nat)
    requires ConnectTxs(rules, Start(u), txs, height).Ok? && ValidUtxos(u) && height <= MAX_U32
    requires |txs| <= MAX_BLOCK_TXS && CoinbaseFirst(txs)
    requires forall i :: 0 <= i < |txs| ==> CheckedTx(txs[i])
    ensures var r := ConnectTxs(rules, Start(u), txs, height).value; ValidUtxos(r.utxos) && ValidUndo(r.undo)
    decreases |txs|
  {
    hide ConnectTx, CheckedTx;
    if txs != [] {
      var init := txs[..|txs| - 1];
      ConnectInit(rules, u, txs, height);
      ConnectValid(rules, u, init, height);
      UndoLength(rules, u, init, height);
      ConnectTxValid(rules, ConnectTxs(rules, Start(u), init, height).value, txs[|txs| - 1], height);
    }
  }

  lemma {:induction false} NonCoinbaseCount(txs: seq<Tx>)
    requires forall i :: 0 <= i < |txs| ==> !txs[i].IsCoinbase()
    ensures NonCoinbase(txs) == |txs|
  {
    if txs != [] {
      NonCoinbaseCount(txs[1..]);
    }
  }

  /** The undo record of a block that connects. */
  function UndoOf(rules: Rules, u: Utxos, block: Block, height: nat): BlockUndo {
    match ConnectTxs(rules, Start(u), block.txs, height)
    case Err(_) => []
    case Ok(p) => p.undo
  }

  /** The record written by connecting is the one disconnecting loads. */
  lemma {:induction false} UndoLoads(rules: Rules, u: Utxos, block: Block, height: nat, hash: Hash, s: State)
    requires CheckedBlock(block) && ValidUtxos(u) && height <= MAX_U32
    requires ConnectTxs(rules, Start(u), block.txs, height).Ok?
    requires NonCoinbase(block.txs) > 0 ==>
               hash in s.undo && s.undo[hash] == BlockUndoBytes(UndoOf(rules, u, block, height))
    ensures LoadUndo(s, block.txs, hash) == Ok(UndoOf(rules, u, block, height))
  {
    hide ConnectTxs, CheckedTx, BlockUndoFrom, BlockUndoBytes;
    UndoLength(rules, u, block.txs, height);
    ConnectValid(rules, u, block.txs, height);
    NonCoinbaseCount(block.txs[1..]);
    UndoRoundTrip(UndoOf(rules, u, block, height));
  }

  /** A block on the tip, connected, its undo record written to bytes and read back, and
      disconnected: it always succeeds, and it restores coins, tip and height exactly when
      the block names the tip as its parent and overwrites no unspent coin. */
  lemma {:induction false} ConnectThenDisconnect(rules: Rules, s: State, block: Block, height: nat, hash: Hash)
    requires CheckedBlock(block) && ValidUtxos(s.utxos) && s.height < MAX_U32
    requires Connect(rules, s, block, height, hash).Ok?
    ensures var s' := Connect(rules, s, block, height, hash).value;
            && ValidUtxos(s'.utxos)
            && Disconnect(s', block, height, hash).Ok?
            && var r := Disconnect(s', block, height, hash).value;
               && r.undo == s'.undo && r.tip == block.header.prevHash && r.height == s.height
               && (r.utxos == s.utxos <==> NoOverwrite(s.utxos, block.txs))
               && (r == s.(undo := r.undo) <==> NoOverwrite(s.utxos, block.txs) && block.header.prevHash == s.tip)
  {
    hide ConnectTxs, DisconnectTxs, CheckedTx, BlockUndoFrom, BlockUndoBytes, CheckCoinbase, LoadUndo, NoOverwrite,
         ValidUtxos;
    var s' := Connect(rules, s, block, height, hash).value;
    ConnectValid(rules, s.utxos, block.txs, height);
    UndoWritten(rules, s, block, height, hash);
    UndoLoads(rules, s.utxos, block, height, hash, s');
    DisconnectUndoesConnect(rules, s.utxos, block.txs, height);
  }

  lemma UndoWritten(rules: Rules, s: State, block: Block, height: nat, hash: Hash)
    requires CheckedBlock(block) && Connect(rules, s, block, height, hash).Ok?
    ensures var s' := Connect(rules, s, block, height, hash).value;
            NonCoinbase(block.txs) > 0 ==>
              hash in s'.undo && s'.undo[hash] == BlockUndoBytes(UndoOf(rules, s.utxos, block, height))
  {
    hide ConnectTxs, CheckedTx, BlockUndoBytes, CheckCoinbase;
    UndoLength(rules, s.utxos, block.txs, height);
    NonCoinbaseCount(block.txs[1..]);
  }

  // ---------- A sufficient condition ----------

  lemma {:induction false} FreshOutputsSuffice(u: Utxos, txs: seq<Tx>)
    requires forall i, p :: 0 <= i < |txs| && p in txs[i].Outputs() ==> p !in u
    ensures NoOverwrite(u, txs)
  {
    forall p | p in u
      ensures FirstTouch(txs, p) != CreatedFirst
    {
      FreshNeverCreated(u, txs, p);
    }
  }

  lemma {:induction false} FreshNeverCreated(u: Utxos, txs: seq<Tx>, p: OutPoint)
    requires forall i, q :: 0 <= i < |txs| && q in txs[i].Outputs() ==> q !in u
    requires p in u
    ensures FirstTouch(txs, p) != CreatedFirst
    decreases |txs|
  {
    if txs != [] {
      FreshNeverCreated(u, txs[..|txs| - 1], p);
    }
  }
}
