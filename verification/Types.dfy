/** Blocks, transactions and coins. Hashes are opaque numbers: `txid` and `hash` stand for
    the double SHA-256 of the serialized transaction or header, about which the model
    assumes nothing unless a lemma says so. */
module Types {
  import opened Basics

  type Hash = nat

  const ZERO_HASH: Hash := 0

  datatype OutPoint = OutPoint(txid: Hash, index: nat)

  /** The null outpoint that marks a coinbase input. */
  const COINBASE_OUTPOINT := OutPoint(ZERO_HASH, 0xFFFF_FFFF)

  datatype TxIn = TxIn(prev: OutPoint, scriptSig: Bytes)

  datatype TxOut = TxOut(value: int, script: Bytes)

  function Prevs(vin: seq<TxIn>): set<OutPoint> {
    set i | 0 <= i < |vin| :: vin[i].prev
  }

  lemma PrevsStep(vin: seq<TxIn>)
    requires vin != []
    ensures Prevs(vin) == {vin[0].prev} + Prevs(vin[1..])
  {
    forall q | q in Prevs(vin)
      ensures q in {vin[0].prev} + Prevs(vin[1..])
    {
      var i :| 0 <= i < |vin| && vin[i].prev == q;
      if i > 0 {
        assert vin[1..][i - 1].prev == q;
      }
    }
    forall q | q in Prevs(vin[1..])
      ensures q in Prevs(vin)
    {
      var i :| 0 <= i < |vin[1..]| && vin[1..][i].prev == q;
      assert vin[i + 1].prev == q;
    }
  }

  datatype Tx = Tx(txid: Hash, size: nat, vin: seq<TxIn>, vout: seq<TxOut>) {
    predicate IsCoinbase() {
      |vin| == 1 && vin[0].prev == COINBASE_OUTPOINT
    }

    /** The outpoints a transaction spends; a coinbase spends none. */
    function Inputs(): set<OutPoint> {
      if IsCoinbase() then {} else Prevs(vin)
    }

    function Outputs(): set<OutPoint> {
      set i | 0 <= i < |vout| :: OutPoint(txid, i)
    }
  }

  datatype Header = Header(hash: Hash, prevHash: Hash, timestamp: u32, bits: u32)

  datatype Block = Block(header: Header, txs: seq<Tx>)

  datatype Coin = Coin(out: TxOut, height: nat, isCoinbase: bool)

  const MAX_U32 := 0xFFFF_FFFF
  const MAX_I64 := 0x7FFF_FFFF_FFFF_FFFF
  const MIN_I64 := -0x8000_0000_0000_0000

  predicate FitsI64(x: int) { MIN_I64 <= x <= MAX_I64 }

  // ---------- What the parser and `check_block` guarantee ----------

  const COIN_UNIT := 100_000_000
  const MAX_MONEY := 21_000_000 * COIN_UNIT
  const MAX_SCRIPT_LEN := 10_000
  const MAX_TX_IN_OUT := 25_000
  const MAX_BLOCK_TXS := 100_000

  predicate ValidOut(o: TxOut) {
    0 <= o.value <= MAX_MONEY && |o.script| <= MAX_SCRIPT_LEN
  }

  predicate ValidCoin(c: Coin) {
    ValidOut(c.out) && c.height <= MAX_U32
  }

  function OutTotal(outs: seq<TxOut>): int {
    if outs == [] then 0 else OutTotal(outs[..|outs| - 1]) + outs[|outs| - 1].value
  }

  lemma {:induction false} OutTotalFront(outs: seq<TxOut>)
    requires outs != []
    ensures OutTotal(outs) == outs[0].value + OutTotal(outs[1..])
    decreases |outs|
  {
    if |outs| > 1 {
      OutTotalFront(outs[..|outs| - 1]);
      assert outs[1..][..|outs| - 2] == outs[..|outs| - 1][1..];
    }
  }

  /** `check_transaction`. */
  predicate CheckTransaction(tx: Tx) {
    && tx.vin != [] && tx.vout != []
    && (forall i :: 0 <= i < |tx.vout| ==> 0 <= tx.vout[i].value <= MAX_MONEY)
    && OutTotal(tx.vout) <= MAX_MONEY
    && (forall i, j :: 0 <= i < j < |tx.vin| ==> tx.vin[i].prev != tx.vin[j].prev)
    && (if tx.IsCoinbase() then 2 <= |tx.vin[0].scriptSig| <= 100
        else forall i :: 0 <= i < |tx.vin| ==> tx.vin[i].prev != COINBASE_OUTPOINT)
  }

  /** A transaction that was parsed and passes `check_transaction`. */
  predicate CheckedTx(tx: Tx) {
    && CheckTransaction(tx)
    && |tx.vin| <= MAX_TX_IN_OUT && |tx.vout| <= MAX_TX_IN_OUT && tx.size > 0
    && (forall i :: 0 <= i < |tx.vout| ==> |tx.vout[i].script| <= MAX_SCRIPT_LEN)
  }

  /** Coinbase first and only there, every transaction valid on its own. */
  predicate CheckedBlock(b: Block) {
    && 0 < |b.txs| <= MAX_BLOCK_TXS
    && b.txs[0].IsCoinbase()
    && (forall i :: 0 < i < |b.txs| ==> !b.txs[i].IsCoinbase())
    && (forall i :: 0 <= i < |b.txs| ==> CheckedTx(b.txs[i]))
  }
}
