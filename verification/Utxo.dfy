/** Connecting and disconnecting blocks, as functions on the set of unspent coins. */
module Utxo {
  import opened Basics
  import opened Types
  import opened UndoCodec
  import Arith

  type Utxos = map<OutPoint, Coin>

  const COINBASE_MATURITY := 100
  const HALVING_INTERVAL := 210_000
  const INITIAL_SUBSIDY := 50 * COIN_UNIT

  datatype ConnectError =
    | WrongHeight | NoTransactions | NoInputs | MissingUtxo | ImmatureCoinbase | InputOverflow
    | ScriptFailed | OutputOverflow | OutputsExceedInputs | FeeOverflow
    | CoinbaseOverflow | SubsidyOverflow | CoinbaseTooLarge

  datatype DisconnectError = GenesisBlock | NotTip | NoUndo | UndoMismatch | MissingTxUndo | MissingCoin

  /** Script verification is an arbitrary predicate; blocks up to a height skip it. */
  datatype Rules = Rules(verify: (Bytes, Bytes, Tx, nat) -> bool, scriptVerifyHeight: nat)

  function Subsidy(height: nat): nat {
    var halvings := height / HALVING_INTERVAL;
    if halvings >= 64 then 0 else Arith.Div(INITIAL_SUBSIDY, Arith.Pow2(halvings))
  }

  function CheckedAdd(a: int, b: int): Option<int> {
    if FitsI64(a + b) then Some(a + b) else None
  }

  // ---------- One transaction ----------

  /** Inputs consumed so far. */
  datatype Spend = Spend(utxos: Utxos, spent: TxUndo, sum: int)

  function SpendOne(s: Spend, prev: OutPoint, height: nat): Result<Spend, ConnectError> {
    if prev !in s.utxos then Err(MissingUtxo)
    else
      var coin := s.utxos[prev];
      if coin.isCoinbase && height - coin.height < COINBASE_MATURITY then Err(ImmatureCoinbase)
      else
        match CheckedAdd(s.sum, coin.out.value)
        case None => Err(InputOverflow)
        case Some(sum) => Ok(Spend(s.utxos - {prev}, s.spent + [coin], sum))
  }

  function SpendAll(s: Spend, vin: seq<TxIn>, height: nat): Result<Spend, ConnectError>
    decreases |vin|
  {
    if vin == [] then Ok(s)
    else
      match SpendOne(s, vin[0].prev, height)
      case Err(e) => Err(e)
      case Ok(s') => SpendAll(s', vin[1..], height)
  }

  function SumOutputs(acc: int, outs: seq<TxOut>): Option<int>
    decreases |outs|
  {
    if outs == [] then Some(acc)
    else
      match CheckedAdd(acc, outs[0].value)
      case None => None
      case Some(a) => SumOutputs(a, outs[1..])
  }

  predicate ScriptsPass(rules: Rules, tx: Tx, spent: TxUndo) {
    |spent| == |tx.vin| &&
    forall i :: 0 <= i < |spent| ==> rules.verify(tx.vin[i].scriptSig, spent[i].out.script, tx, i)
  }

  /** The coins a transaction creates. */
  function NewCoins(tx: Tx, height: nat): Utxos {
    map p | p in tx.Outputs() :: Coin(tx.vout[p.index], height, tx.IsCoinbase())
  }

  /** The block so far: coins, undo entries, fees. */
  datatype Progress = Progress(utxos: Utxos, undo: BlockUndo, fees: int)

  function ConnectTx(rules: Rules, p: Progress, tx: Tx, height: nat): Result<Progress, ConnectError> {
    if tx.IsCoinbase() then Ok(p.(utxos := p.utxos + NewCoins(tx, height)))
    else if tx.vin == [] then Err(NoInputs)
    else
      match SpendAll(Spend(p.utxos, [], 0), tx.vin, height)
      case Err(e) => Err(e)
      case Ok(s) =>
        if height > rules.scriptVerifyHeight && !ScriptsPass(rules, tx, s.spent) then Err(ScriptFailed)
        else
          match SumOutputs(0, tx.vout)
          case None => Err(OutputOverflow)
          case Some(out) =>
            if out > s.sum then Err(OutputsExceedInputs)
            else
              match CheckedAdd(p.fees, s.sum - out)
              case None => Err(FeeOverflow)
              case Some(fees) => Ok(Progress(s.utxos + NewCoins(tx, height), p.undo + [s.spent], fees))
  }

  function ConnectTxs(rules: Rules, p: Progress, txs: seq<Tx>, height: nat): Result<Progress, ConnectError>
    decreases |txs|
  {
    if txs == [] then Ok(p)
    else
      match ConnectTx(rules, p, txs[0], height)
      case Err(e) => Err(e)
      case Ok(p') => ConnectTxs(rules, p', txs[1..], height)
  }

  /** The first transaction may create at most the subsidy plus the fees. */
  function CheckCoinbase(first: Tx, height: nat, fees: int): Option<ConnectError> {
    match SumOutputs(0, first.vout)
    case None => Some(CoinbaseOverflow)
    case Some(value) =>
      match CheckedAdd(Subsidy(height), fees)
      case None => Some(SubsidyOverflow)
      case Some(max) => if value > max then Some(CoinbaseTooLarge) else None
  }

  function ConnectBlock(rules: Rules, utxos: Utxos, txs: seq<Tx>, height: nat): Result<Progress, ConnectError> {
    if txs == [] then Err(NoTransactions)
    else
      match ConnectTxs(rules, Progress(utxos, [], 0), txs, height)
      case Err(e) => Err(e)
      case Ok(p) =>
        match CheckCoinbase(txs[0], height, p.fees)
        case Some(e) => Err(e)
        case None => Ok(p)
  }

  // ---------- Undoing ----------

  /** Spent coins put back, in input order. */
  function Restore(utxos: Utxos, vin: seq<TxIn>, coins: TxUndo): Utxos
    requires |vin| <= |coins|
  {
    if vin == [] then utxos
    else Restore(utxos, vin[..|vin| - 1], coins)[vin[|vin| - 1].prev := coins[|vin| - 1]]
  }

  /** Transaction `i` of a block is undone with undo entry `i - 1`. */
  function DisconnectTx(utxos: Utxos, tx: Tx, i: nat, undo: BlockUndo): Result<Utxos, DisconnectError> {
    var kept := utxos - tx.Outputs();
    if tx.IsCoinbase() then Ok(kept)
    else if !(0 < i <= |undo|) then Err(MissingTxUndo)
    else if |undo[i - 1]| < |tx.vin| then Err(MissingCoin)
    else Ok(Restore(kept, tx.vin, undo[i - 1]))
  }

  /** Transactions in reverse order. */
  function DisconnectTxs(utxos: Utxos, txs: seq<Tx>, undo: BlockUndo): Result<Utxos, DisconnectError>
    decreases |txs|
  {
    if txs == [] then Ok(utxos)
    else
      match DisconnectTx(utxos, txs[|txs| - 1], |txs| - 1, undo)
      case Err(e) => Err(e)
      case Ok(u) => DisconnectTxs(u, txs[..|txs| - 1], undo)
  }
}
