/** Money: no transaction creates any, a block creates at most its subsidy, and all the
    subsidies together stay below the cap. */
module Supply {
  import opened Basics
  import opened Types
  import opened Utxo
  import opened UndoTheorems
  import Arith

  /** Total unspent value. */
  ghost function Total(u: Utxos): int
    decreases |u|
  {
    if u == map[] then 0
    else
      var p :| p in u;
      u[p].out.value + Total(u - {p})
  }

  ghost predicate Nonneg(u: Utxos) {
    forall p :: p in u ==> u[p].out.value >= 0
  }

  lemma {:induction false} TotalRemove(u: Utxos, p: OutPoint)
    requires p in u
    ensures Total(u) == u[p].out.value + Total(u - {p})
    decreases |u|
  {
    var q :| q in u && Total(u) == u[q].out.value + Total(u - {q});
    if q != p {
      TotalRemove(u - {q}, p);
      TotalRemove(u - {p}, q);
      assert u - {q} - {p} == u - {p} - {q};
    }
  }

  lemma {:induction false} TotalNonneg(u: Utxos)
    requires Nonneg(u)
    ensures Total(u) >= 0
    decreases |u|
  {
    if u != map[] {
      var p :| p in u;
      TotalRemove(u, p);
      TotalNonneg(u - {p});
    }
  }

  /** Storing a coin adds at most its value, even over another coin. */
  lemma TotalInsert(u: Utxos, p: OutPoint, c: Coin)
    requires Nonneg(u)
    ensures Total(u[p := c]) <= Total(u) + c.out.value
    ensures p !in u ==> Total(u[p := c]) == Total(u) + c.out.value
  {
    TotalRemove(u[p := c], p);
    if p in u {
      TotalRemove(u, p);
      assert u[p := c] - {p} == u - {p};
    } else {
      assert u[p := c] - {p} == u;
    }
  }

  // ---------- One transaction ----------

  lemma {:induction false} SpendTotal(s: Spend, vin: seq<TxIn>, height: nat)
    requires SpendAll(s, vin, height).Ok?
    ensures var r := SpendAll(s, vin, height).value;
            Total(r.utxos) + r.sum == Total(s.utxos) + s.sum
    decreases |vin|
  {
    if vin != [] {
      TotalRemove(s.utxos, vin[0].prev);
      SpendTotal(SpendOne(s, vin[0].prev, height).value, vin[1..], height);
    }
  }

  lemma {:induction false} SumOutputsIsSum(acc: int, outs: seq<TxOut>)
    ensures SumOutputs(acc, outs).Some? ==> SumOutputs(acc, outs).value == acc + OutTotal(outs)
    decreases |outs|
  {
    if outs != [] {
      OutTotalFront(outs);
      var a := CheckedAdd(acc, outs[0].value);
      if a.Some? {
        SumOutputsIsSum(a.value, outs[1..]);
      }
    }
  }

  predicate NonnegOutputs(tx: Tx) {
    forall i :: 0 <= i < |tx.vout| ==> tx.vout[i].value >= 0
  }

  /** The transaction cut to its first outputs. */
  function FirstOutputs(tx: Tx, n: nat): Tx
    requires n <= |tx.vout|
  {
    tx.(vout := tx.vout[..n])
  }

  lemma NoNewCoins(tx: Tx, height: nat)
    requires |tx.vout| == 0
    ensures NewCoins(tx, height) == map[]
  {
  }

  lemma NewCoinsStep(tx: Tx, height: nat)
    requires |tx.vout| > 0
    ensures var n := |tx.vout| - 1;
            NewCoins(tx, height) ==
            NewCoins(FirstOutputs(tx, n), height)[OutPoint(tx.txid, n) := Coin(tx.vout[n], height, tx.IsCoinbase())]
  {
    var n := |tx.vout| - 1;
    assert tx.Outputs() == FirstOutputs(tx, n).Outputs() + {OutPoint(tx.txid, n)};
  }

  lemma {:induction false} CreateTotal(u: Utxos, tx: Tx, height: nat)
    requires Nonneg(u) && NonnegOutputs(tx)
    ensures Total(u + NewCoins(tx, height)) <= Total(u) + OutTotal(tx.vout)
    ensures Nonneg(u + NewCoins(tx, height))
    decreases |tx.vout|
  {
    hide NewCoins;
    var n := |tx.vout|;
    if n == 0 {
      NoNewCoins(tx, height);
      assert u + map[] == u;
    } else {
      var less := FirstOutputs(tx, n - 1);
      CreateTotal(u, less, height);
      var p, c := OutPoint(tx.txid, n - 1), Coin(tx.vout[n - 1], height, tx.IsCoinbase());
      NewCoinsStep(tx, height);
      assert u + NewCoins(tx, height) == (u + NewCoins(less, height))[p := c];
      TotalInsert(u + NewCoins(less, height), p, c);
    }
  }

  /** A transaction never creates money: unspent value plus collected fees do not grow. */
  lemma {:induction false} TxConserves(rules: Rules, p: Progress, tx: Tx, height: nat)
    requires ConnectTx(rules, p, tx, height).Ok? && Nonneg(p.utxos) && NonnegOutputs(tx)
    ensures var r := ConnectTx(rules, p, tx, height).value;
            && Nonneg(r.utxos)
            && Total(r.utxos) + r.fees <= Total(p.utxos) + p.fees + (if tx.IsCoinbase() then OutTotal(tx.vout) else 0)
            && (tx.IsCoinbase() ==> r.fees == p.fees)
            && (!tx.IsCoinbase() ==> r.fees >= p.fees)
  {
    if tx.IsCoinbase() {
      CreateTotal(p.utxos, tx, height);
    } else {
      var s := SpendAll(Spend(p.utxos, [], 0), tx.vin, height).value;
      SpendTotal(Spend(p.utxos, [], 0), tx.vin, height);
      SpendFacts(Spend(p.utxos, [], 0), tx.vin, height);
      assert Nonneg(s.utxos);
      CreateTotal(s.utxos, tx, height);
      SumOutputsIsSum(0, tx.vout);
    }
  }

  // ---------- One block ----------

  lemma {:induction false} TxsConserve(rules: Rules, u: Utxos, txs: seq<Tx>, height: nat)
    requires ConnectTxs(rules, Start(u), txs, height).Ok? && CoinbaseFirst(txs) && Nonneg(u)
    requires forall i :: 0 <= i < |txs| ==> NonnegOutputs(txs[i])
    ensures var r := ConnectTxs(rules, Start(u), txs, height).value;
            && Nonneg(r.utxos)
            && Total(r.utxos) + r.fees <= Total(u) + (if txs == [] then 0 else OutTotal(txs[0].vout))
    decreases |txs|
  {
    hide ConnectTx, NonnegOutputs;
    if txs != [] {
      var init := txs[..|txs| - 1];
      ConnectInit(rules, u, txs, height);
      TxsConserve(rules, u, init, height);
      TxConserves(rules, ConnectTxs(rules, Start(u), init, height).value, txs[|txs| - 1], height);
    }
  }

  /** A block adds at most its subsidy to the unspent value. */
  lemma {:induction false} BlockConserves(rules: Rules, u: Utxos, txs: seq<Tx>, height: nat)
    requires ConnectBlock(rules, u, txs, height).Ok? && CoinbaseFirst(txs) && Nonneg(u)
    requires forall i :: 0 <= i < |txs| ==> NonnegOutputs(txs[i])
    ensures var r := ConnectBlock(rules, u, txs, height).value;
            Nonneg(r.utxos) && Total(r.utxos) <= Total(u) + Subsidy(height)
  {
    hide ConnectTxs, NonnegOutputs;
    TxsConserve(rules, u, txs, height);
    SumOutputsIsSum(0, txs[0].vout);
  }

  // ---------- All blocks ----------

  /** Subsidies of heights 1 to `h`. */
  function Issued(h: nat): nat {
    if h == 0 then 0 else Issued(h - 1) + Subsidy(h)
  }

  lemma {:induction false} HalvingHalves(h: nat, k: nat)
    requires h / HALVING_INTERVAL + 1 == k / HALVING_INTERVAL
    ensures 2 * Subsidy(k) <= Subsidy(h)
  {
    hide Arith.Pow2;
    var e := h / HALVING_INTERVAL;
    if e + 1 < 64 {
      Arith.Pow2Next(e);
      Arith.DivDiv(INITIAL_SUBSIDY, Arith.Pow2(e), 2);
    }
  }

  /** What has been issued, plus everything that could still be. */
  function Potential(h: nat): int {
    var s := Subsidy(h);
    var left := HALVING_INTERVAL * (h / HALVING_INTERVAL + 1) - 1 - h;
    Issued(h) + left * s + HALVING_INTERVAL * s
  }

  lemma PotentialFalls(h: nat)
    ensures Potential(h + 1) <= Potential(h)
  {
    hide Subsidy;
    var e := h / HALVING_INTERVAL;
    var left := HALVING_INTERVAL * (e + 1) - 1 - h;
    if left > 0 {
      SameEra(h);
      var s := Subsidy(h);
      assert left * s == (left - 1) * s + s;
    } else {
      HalvingHalves(h, h + 1);
    }
  }

  lemma SameEra(h: nat)
    requires (h + 1) / HALVING_INTERVAL == h / HALVING_INTERVAL
    ensures Subsidy(h + 1) == Subsidy(h)
  {
  }

  lemma {:induction false} PotentialStart(h: nat)
    ensures Potential(h) <= Potential(0)
  {
    hide Potential;
    if h > 0 {
      PotentialStart(h - 1);
      PotentialFalls(h - 1);
    }
  }

  lemma FirstSubsidy()
    ensures Subsidy(0) == INITIAL_SUBSIDY
  {
  }

  /** The cap holds at every height. */
  lemma {:induction false} IssuedBelowMaxMoney(h: nat)
    ensures Issued(h) < MAX_MONEY
  {
    hide Subsidy, Issued;
    PotentialStart(h);
    FirstSubsidy();
    IssuedZero();
    var left := HALVING_INTERVAL * (h / HALVING_INTERVAL + 1) - 1 - h;
    Arith.MulNonneg(left, Subsidy(h));
  }

  lemma IssuedZero()
    ensures Issued(0) == 0
  {
  }

  // ---------- The exact total ----------

  /** Fifty coins, halved once per era. */
  function EraSubsidy(era: nat): nat {
    if era == 0 then 50 * COIN_UNIT else EraSubsidy(era - 1) / 2
  }

  function EraSum(eras: nat): nat {
    if eras == 0 then 0 else EraSum(eras - 1) + EraSubsidy(eras - 1)
  }

  lemma {:induction false} EraIs(era: nat)
    ensures era < 64 ==> EraSubsidy(era) == Arith.Div(INITIAL_SUBSIDY, Arith.Pow2(era))
    decreases era
  {
    hide Arith.Pow2;
    if era == 0 {
      PowZero();
    } else {
      EraIs(era - 1);
      Arith.Pow2Next(era - 1);
      Arith.DivDiv(INITIAL_SUBSIDY, Arith.Pow2(era - 1), 2);
    }
  }

  lemma PowZero()
    ensures Arith.Pow2(0) == 1
  {
  }

  lemma EraValues()
    ensures EraSubsidy(33) == 0
  {
    assert EraSubsidy(11) == 2_441_406;
    assert EraSubsidy(22) == 1_192;
  }

  /** After 33 eras nothing is left to halve. */
  lemma {:induction false} EraEnds(era: nat)
    requires era >= 33
    ensures EraSubsidy(era) == 0
    decreases era
  {
    if era > 33 {
      EraEnds(era - 1);
    } else {
      EraValues();
    }
  }

  /** The subsidy at every height. */
  lemma {:induction false} SubsidyIs(height: nat)
    ensures Subsidy(height) == EraSubsidy(height / HALVING_INTERVAL)
  {
    hide Arith.Pow2, EraSubsidy;
    var era := height / HALVING_INTERVAL;
    EraIs(era);
    if era >= 64 {
      EraEnds(era);
    }
  }

  /** What has been issued up to block `r` of an era: all eras before, and the blocks of this
      one, but for the genesis block. */
  lemma {:induction false} IssuedIs(era: nat, r: nat)
    requires r < HALVING_INTERVAL
    ensures Issued(HALVING_INTERVAL * era + r) ==
            HALVING_INTERVAL * EraSum(era) + (r + 1) * EraSubsidy(era) - 50 * COIN_UNIT
    decreases era, r
  {
    hide Subsidy, EraSubsidy;
    var h := HALVING_INTERVAL * era + r;
    EraStart();
    if h > 0 {
      SubsidyIs(h);
      if r > 0 {
        IssuedIs(era, r - 1);
        assert (r + 1) * EraSubsidy(era) == r * EraSubsidy(era) + EraSubsidy(era);
      } else {
        IssuedIs(era - 1, HALVING_INTERVAL - 1);
        assert HALVING_INTERVAL * (era - 1) + (HALVING_INTERVAL - 1) == h - 1;
      }
    }
  }

  lemma {:induction false} EraSumEnds(era: nat)
    requires era >= 33
    ensures EraSum(era) == EraSum(33)
    decreases era
  {
    hide EraSubsidy;
    if era > 33 {
      EraSumEnds(era - 1);
      EraEnds(era - 1);
    }
  }

  /** From the end of the 33rd era on, exactly this much has been issued, in the smallest
      units. */
  lemma {:induction false} IssuedExactly(height: nat)
    requires height >= 33 * HALVING_INTERVAL - 1
    ensures Issued(height) == 2_099_994_997_690_000
  {
    hide Issued, EraSubsidy, EraSum;
    var era, r := height / HALVING_INTERVAL, height % HALVING_INTERVAL;
    EraTotal();
    if era == 32 {
      IssuedIs(32, HALVING_INTERVAL - 1);
    } else {
      IssuedIs(era, r);
      EraEnds(era);
      EraSumEnds(era);
    }
  }

  /** Eight eras on. */
  lemma EightEras(era: nat)
    ensures var e0 := EraSubsidy(era); var e1 := e0 / 2; var e2 := e1 / 2; var e3 := e2 / 2;
            var e4 := e3 / 2; var e5 := e4 / 2; var e6 := e5 / 2; var e7 := e6 / 2;
            && EraSubsidy(era + 8) == e7 / 2
            && EraSum(era + 8) == EraSum(era) + e0 + e1 + e2 + e3 + e4 + e5 + e6 + e7
  {
    FourEras(era);
    FourEras(era + 4);
  }

  lemma FourEras(era: nat)
    ensures var e0 := EraSubsidy(era); var e1 := e0 / 2; var e2 := e1 / 2; var e3 := e2 / 2;
            EraSubsidy(era + 4) == e3 / 2 && EraSum(era + 4) == EraSum(era) + e0 + e1 + e2 + e3
  {
    assert EraSum(era + 2) == EraSum(era + 1) + EraSubsidy(era + 1);
    assert EraSum(era + 4) == EraSum(era + 3) + EraSubsidy(era + 3);
  }

  lemma EraTotal()
    ensures EraSum(33) == 9_999_999_989
    ensures EraSum(32) + EraSubsidy(32) == EraSum(33)
  {
    hide EraSubsidy, EraSum;
    EraStart();
    EightEras(0);
    assert EraSubsidy(8) == 19_531_250 && EraSum(8) == 9_960_937_500;
    EightEras(8);
    assert EraSubsidy(16) == 76_293 && EraSum(16) == 9_999_847_409;
    EightEras(16);
    assert EraSubsidy(24) == 298 && EraSum(24) == 9_999_999_397;
    EightEras(24);
  }

  lemma EraStart()
    ensures EraSubsidy(0) == 50 * COIN_UNIT && EraSum(0) == 0
    ensures EraSum(33) == EraSum(32) + EraSubsidy(32)
  {
  }
}
