/** Inputs for which a promise of the program fails. */
module Counterexamples {
  import opened Basics
  import opened Types
  import opened Utxo
  import opened UndoTheorems
  import opened ChainSpec
  import opened Replay
  import opened MempoolSpec
  import opened MempoolRules
  import opened MempoolClass
  import opened ReorgSpec
  import opened Reorg
  import opened HeaderStoreClass
  import opened ChainStateClass
  import HT = HeaderTree
  import HS = HeaderSpec
  import HF = HeaderForks
  import HW = HeaderWork
  import HB = HeaderBest
  import Arith
  import Compact

  // ---------- Blocks with nothing but a coinbase ----------

  function Reward(txid: Hash): Tx {
    Tx(txid, 100, [TxIn(COINBASE_OUTPOINT, [0, 0])], [TxOut(INITIAL_SUBSIDY, [])])
  }

  function RewardBlock(hash: Hash, prev: Hash, bits: u32, txid: Hash): Block {
    Block(Header(hash, prev, 0, bits), [Reward(txid)])
  }

  function RewardCoin(height: nat): Coin {
    Coin(TxOut(INITIAL_SUBSIDY, []), height, true)
  }

  lemma RewardChecked(hash: Hash, prev: Hash, bits: u32, txid: Hash)
    ensures CheckedBlock(RewardBlock(hash, prev, bits, txid))
  {
    assert OutTotal([]) == 0 && [TxOut(INITIAL_SUBSIDY, [])][..0] == [];
    assert OutTotal(Reward(txid).vout) == INITIAL_SUBSIDY;
  }

  lemma RewardCoins(txid: Hash, height: nat)
    ensures NewCoins(Reward(txid), height) == map[OutPoint(txid, 0) := RewardCoin(height)]
  {
    var tx := Reward(txid);
    assert tx.Outputs() == {OutPoint(txid, 0)};
  }

  /** Such a block connects on any coins, and adds its one coin. */
  lemma RewardConnects(rules: Rules, s: State, hash: Hash, prev: Hash, bits: u32, txid: Hash)
    requires s.height < 1000
    ensures Connect(rules, s, RewardBlock(hash, prev, bits, txid), s.height + 1, hash) ==
            Ok(State(s.utxos[OutPoint(txid, 0) := RewardCoin(s.height + 1)], s.undo, hash, s.height + 1))
  {
    var tx, height := Reward(txid), s.height + 1;
    RewardCoins(txid, height);
    assert [tx][1..] == [];
    assert ConnectTxs(rules, Progress(s.utxos, [], 0), [tx], height) ==
           Ok(Progress(s.utxos + NewCoins(tx, height), [], 0));
    assert s.utxos + NewCoins(tx, height) == s.utxos[OutPoint(txid, 0) := RewardCoin(height)];
    assert tx.vout[1..] == [];
    assert SumOutputs(0, tx.vout) == Some(INITIAL_SUBSIDY);
    assert Subsidy(height) == INITIAL_SUBSIDY by {
      assert Arith.Pow2(0) == 1;
    }
  }

  /** A second block repeats the coinbase of the first: both connect from the empty state, and
      disconnecting the second destroys the coin of the first. */
  lemma {:induction false} RepeatedCoinbaseLosesCoin(rules: Rules, genesis: Hash, bits: u32)
    ensures var first, second := RewardBlock(11, genesis, bits, 7), RewardBlock(12, 11, bits, 7);
            && CheckedBlock(first) && CheckedBlock(second)
            && Connect(rules, EMPTY, first, 1, 11).Ok?
            && var s1 := Connect(rules, EMPTY, first, 1, 11).value;
            && Connect(rules, s1, second, 2, 12).Ok?
            && var s2 := Connect(rules, s1, second, 2, 12).value;
            && Disconnect(s2, second, 2, 12).Ok?
            && var s3 := Disconnect(s2, second, 2, 12).value;
            && s3.tip == s1.tip && s3.height == s1.height
            && s1.utxos == map[OutPoint(7, 0) := RewardCoin(1)] && s3.utxos == map[]
  {
    hide Connect, CheckedBlock;
    var second := RewardBlock(12, 11, bits, 7);
    RewardChecked(11, genesis, bits, 7);
    RewardChecked(12, 11, bits, 7);
    RewardConnects(rules, EMPTY, 11, genesis, bits, 7);
    var s1 := Connect(rules, EMPTY, RewardBlock(11, genesis, bits, 7), 1, 11).value;
    RewardConnects(rules, s1, 12, 11, bits, 7);
    var s2 := Connect(rules, s1, second, 2, 12).value;
    RewardDisconnects(s2, 12, 11, bits, 7);
  }

  lemma RewardDisconnects(s: State, hash: Hash, prev: Hash, bits: u32, txid: Hash)
    requires s.tip == hash && s.height > 0
    ensures Disconnect(s, RewardBlock(hash, prev, bits, txid), s.height, hash) ==
            Ok(State(s.utxos - {OutPoint(txid, 0)}, s.undo, prev, s.height - 1))
  {
    var tx := Reward(txid);
    assert [tx][1..] == [] && [tx][..0] == [];
    assert NonCoinbase([tx]) == 0;
    assert tx.Outputs() == {OutPoint(txid, 0)};
    assert DisconnectTxs(s.utxos, [tx], []) == Ok(s.utxos - {OutPoint(txid, 0)});
  }

  // ---------- The pool ----------

  /** One input, one output. */
  function Payment(txid: Hash, size: nat, from: OutPoint, value: int): Tx {
    Tx(txid, size, [TxIn(from, [])], [TxOut(value, [])])
  }

  const ACCEPT: Verifier := (sig, script, tx, i) => true

  lemma PaymentChecked(txid: Hash, size: nat, from: OutPoint, value: int)
    requires from != COINBASE_OUTPOINT && 0 <= value <= MAX_MONEY
    ensures var tx := Payment(txid, size, from, value);
            CheckTransaction(tx) && !tx.IsCoinbase() && OutTotal(tx.vout) == value && Prevs(tx.vin) == {from}
  {
    var tx := Payment(txid, size, from, value);
    assert OutTotal([]) == 0 && tx.vout[..0] == [];
    assert tx.vin[0].prev == from;
  }

  /** A payment from a coin no one else spends is accepted if it pays at least its size. */
  lemma PaymentAccepted(pool: Pool, u: Utxos, txid: Hash, size: nat, from: OutPoint, value: int)
    requires from != COINBASE_OUTPOINT && from in u && from !in pool.spends && txid !in pool.txs
    requires 0 < size <= MAX_TX_SIZE && 0 <= value && value + size <= u[from].out.value <= MAX_MONEY
    ensures Evaluate(ACCEPT, pool, u, Payment(txid, size, from, value)) == Ok(u[from].out.value - value)
  {
    var tx, fee := Payment(txid, size, from, value), u[from].out.value - value;
    PaymentChecked(txid, size, from, value);
    assert tx.vin[1..] == [];
    assert SumInputs(pool, u, 0, tx.vin) == Ok(u[from].out.value);
    assert ScriptOk(ACCEPT, pool.txs, u, tx, 0);
    RateAtLeastOne(fee, size);
  }

  lemma RateAtLeastOne(fee: int, size: nat)
    requires fee >= size > 0
    ensures Rate(fee, size) >= MIN_RELAY_FEE_RATE
  {
    assert fee as real >= size as real;
    assert fee as real / size as real >= size as real / size as real;
  }

  const NO_POOL := Pool(map[], map[], 0)

  /** After one block the pool accepts a payment of its coinbase, and the next block does not
      connect with that payment, although it does without. */
  lemma {:induction false} YoungCoinbaseAccepted(genesis: Hash, bits: u32)
    ensures var rules := Rules(ACCEPT, 0);
            var first, empty := RewardBlock(11, genesis, bits, 7), RewardBlock(12, 11, bits, 9);
            var tx := Payment(8, 200, OutPoint(7, 0), INITIAL_SUBSIDY - 1000);
            var second := Block(empty.header, [Reward(9), tx]);
            && Connect(rules, EMPTY, first, 1, 11).Ok?
            && var s := Connect(rules, EMPTY, first, 1, 11).value;
            && Evaluate(ACCEPT, NO_POOL, s.utxos, tx) == Ok(1000)
            && CheckedBlock(second) && Connect(rules, s, empty, 2, 12).Ok?
            && Connect(rules, s, second, 2, 12) == Err(ImmatureCoinbase)
  {
    hide Connect, Evaluate, CheckedBlock;
    var rules, first := Rules(ACCEPT, 0), RewardBlock(11, genesis, bits, 7);
    RewardConnects(rules, EMPTY, 11, genesis, bits, 7);
    var s := Connect(rules, EMPTY, first, 1, 11).value;
    RewardConnects(rules, s, 12, 11, bits, 9);
    var from, value := OutPoint(7, 0), INITIAL_SUBSIDY - 1000;
    PaymentAccepted(NO_POOL, s.utxos, 8, 200, from, value);
    PaymentChecked(8, 200, from, value);
    var tx := Payment(8, 200, from, value);
    TwoChecked(tx, bits);
    YoungFails(rules, s, tx, from, bits);
  }

  lemma TwoChecked(tx: Tx, bits: u32)
    requires CheckTransaction(tx) && !tx.IsCoinbase() && |tx.vin| == |tx.vout| == 1 && tx.size > 0 && tx.vout[0].script == []
    ensures CheckedBlock(Block(RewardBlock(12, 11, bits, 9).header, [Reward(9), tx]))
  {
    RewardChecked(12, 11, bits, 9);
    assert CheckedTx(RewardBlock(12, 11, bits, 9).txs[0]);
  }

  lemma YoungFails(rules: Rules, s: State, tx: Tx, from: OutPoint, bits: u32)
    requires s.height == 1 && from in s.utxos && s.utxos[from] == RewardCoin(1) && from.txid != 9
    requires tx.vin == [TxIn(from, [])] && !tx.IsCoinbase()
    ensures Connect(rules, s, Block(RewardBlock(12, 11, bits, 9).header, [Reward(9), tx]), 2, 12) == Err(ImmatureCoinbase)
  {
    var txs, u := [Reward(9), tx], s.utxos + NewCoins(Reward(9), 2);
    RewardCoins(9, 2);
    assert SpendOne(Spend(u, [], 0), from, 2) == Err(ImmatureCoinbase);
    assert SpendAll(Spend(u, [], 0), tx.vin, 2) == Err(ImmatureCoinbase);
    assert txs[1..] == [tx];
    assert ConnectTxs(rules, Progress(u, [], 0), [tx], 2) == Err(ImmatureCoinbase);
    assert ConnectTx(rules, Progress(s.utxos, [], 0), txs[0], 2) == Ok(Progress(u, [], 0));
  }

  /** Two coins of 1000 each, and a pool with room for one payment of size 100. */
  function TwoCoins(): Utxos {
    map[OutPoint(5, 0) := Coin(TxOut(1000, []), 1, false), OutPoint(6, 0) := Coin(TxOut(1000, []), 1, false)]
  }

  /** Both payments in one pool are too large, and the second does not stay. */
  lemma SecondEvicted(txs: Txs, victims: seq<Hash>, kept: Txs)
    requires txs == map[8 := Entry(Payment(8, 100, OutPoint(5, 0), 500), 500, 100),
                        9 := Entry(Payment(9, 100, OutPoint(6, 0), 800), 200, 100)]
    requires Evicts(150, txs, victims, kept)
    ensures 9 !in kept
  {
    hide Evicts;
    SizeSumRemove(txs, 8);
    SizeSumRemove(txs - {8}, 9);
    assert txs - {8} - {9} == map[];
    LowestEvicted(150, txs, victims, kept, 9);
  }

  lemma OnlySpends(pool: Pool, first: Tx)
    requires Inv(pool) && pool.txs == map[first.txid := Entry(first, 500, 100)]
    ensures forall p :: p in pool.spends ==> p in Prevs(first.vin)
  {
  }

  /** A second payment with a lower fee rate is accepted, and evicted by the same call. */
  method AcceptedThenEvicted() returns (pool: Mempool, first: Result<Hash, Reject>, second: Result<Hash, Reject>)
    ensures first == Ok(8) && second == Ok(9) && 9 !in pool.txs && MempoolSpec.Inv(pool.Value())
  {
    hide Evaluate, Evicts, MempoolSpec.Inv;
    pool := new Mempool(150, ACCEPT);
    var u, a, b := TwoCoins(), Payment(8, 100, OutPoint(5, 0), 500), Payment(9, 100, OutPoint(6, 0), 800);
    PaymentAccepted(pool.Value(), u, 8, 100, OutPoint(5, 0), 500);
    ghost var none, victims;
    first, none := pool.AcceptTx(a, u);
    EvictsNothingIff(150, map[8 := Entry(a, 500, 100)], none, pool.txs);
    OnlySpends(pool.Value(), a);
    PaymentChecked(8, 100, OutPoint(5, 0), 500);
    PaymentAccepted(pool.Value(), u, 9, 100, OutPoint(6, 0), 800);
    ghost var both := pool.txs[9 := Entry(b, 200, 100)];
    second, victims := pool.AcceptTx(b, u);
    SecondEvicted(both, victims, pool.txs);
  }

  // ---------- A reorganization that stops half way ----------

  /** Genesis 1, its children 2 and 3, and 4 on 3. */
  function ForkTree(bits: u32): HT.Tree {
    var work := Compact.WorkFromBits(bits);
    map[1 := HT.Stored(HF.Demo(1, 0, bits), 0, work),
        2 := HT.Stored(HF.Demo(2, 1, bits), 1, work + work),
        3 := HT.Stored(HF.Demo(3, 1, bits), 1, work + work),
        4 := HT.Stored(HF.Demo(4, 3, bits), 2, work + work + work)]
  }

  /** A header store that holds this tree, with 2 active and 4 best. */
  method ForkedHeaders(bits: u32) returns (headers: HeaderStore)
    requires Compact.WorkFromBits(bits) > 0
    ensures fresh(headers) && headers.Valid() && headers.genesis == 1
    ensures headers.byHash == ForkTree(bits) && headers.best.hash == 4
  {
    hide Compact.WorkFromBits, HS.AcceptHeader, HS.Inv, HW.Worked, HW.LooksBack, HB.LeavesKnown;
    ghost var w := Compact.WorkFromBits(bits);
    headers := new HeaderStore(HF.Lenient(bits), HF.Demo(1, 0, bits));
    HF.AcceptNew(headers.Value(), HF.Demo(2, 1, bits), HT.Stored(HF.Demo(1, 0, bits), 0, w));
    var r := headers.Accept(HF.Demo(2, 1, bits));
    HF.AcceptNew(headers.Value(), HF.Demo(3, 1, bits), HT.Stored(HF.Demo(1, 0, bits), 0, w));
    r := headers.Accept(HF.Demo(3, 1, bits));
    HF.AcceptNew(headers.Value(), HF.Demo(4, 3, bits), HT.Stored(HF.Demo(3, 1, bits), 1, w + w));
    r := headers.Accept(HF.Demo(4, 3, bits));
    assert headers.byHash == ForkTree(bits);
  }

  /** Only block 2 was ever stored. */
  function ForkWorld(rules: Rules, bits: u32): World {
    World(rules, 1, ForkTree(bits), map[2 := RewardBlock(2, 1, bits, 7)])
  }

  lemma ForkAncestors(bits: u32)
    ensures var t := ForkTree(bits);
            && HT.AncestorAt(t, 2, 1) == 2 && HT.AncestorAt(t, 4, 2) == 4
            && HT.AncestorAt(t, 4, 1) == 3 && HT.AncestorAt(t, 3, 1) == 3
            && HT.AncestorAt(t, 4, 0) == 1 && HT.AncestorAt(t, 2, 0) == 1
  {
    hide Compact.WorkFromBits;
    var t := ForkTree(bits);
    assert HT.Walk(t, 4, 1) == 3 && HT.Walk(t, 4, 2) == HT.Walk(t, 3, 1) == 1;
    assert HT.Walk(t, 2, 1) == 1;
  }

  /** No branch is known beyond its first block, and only branch 2 that far. */
  lemma ForkHeld(rules: Rules, bits: u32, tip: Hash, n: nat)
    ensures Held(ForkWorld(rules, bits), tip, n) ==> n == 0 || (tip == 2 && n == 1)
  {
    hide Compact.WorkFromBits;
    ForkAncestors(bits);
    var w := ForkWorld(rules, bits);
    if n > 0 && Held(w, tip, n) {
      assert HT.AncestorAt(w.tree, tip, 1) in w.known;
    }
  }

  lemma ForkSafe(rules: Rules, bits: u32)
    requires HT.WellFormed(ForkTree(bits), 1)
    ensures var w := ForkWorld(rules, bits); Honest(w) && SafeBranch(w, 4)
  {
    hide Compact.WorkFromBits, HT.WellFormed, HT.AncestorAt, CheckedBlock;
    var w := ForkWorld(rules, bits);
    RewardChecked(2, 1, bits, 7);
    forall k: nat
      ensures Held(w, 4, k) ==> k == 0
    {
      ForkHeld(rules, bits, 4, k);
    }
  }

  /** The chain state after block 2. */
  lemma ForkStands(rules: Rules, bits: u32, s: State)
    requires s == State(map[OutPoint(7, 0) := RewardCoin(1)], map[], 2, 1)
    ensures Stands(ForkWorld(rules, bits), s, 2, 1)
  {
    hide Compact.WorkFromBits, HT.AncestorAt, Represents, CheckedBlock, Connect;
    var w, b := ForkWorld(rules, bits), RewardBlock(2, 1, bits, 7);
    ForkAncestors(bits);
    EmptyRepresents(rules, 1);
    RewardChecked(2, 1, bits, 7);
    RewardConnects(rules, EMPTY, 2, 1, bits, 7);
    assert Connectable(1, EMPTY, [], b);
    ConnectExtends(rules, 1, EMPTY, [], b);
    assert Branch(w, 2, 1) == [] + [b];
  }

  /** Standing on branch 4 means standing at genesis, without a coin. */
  lemma ForkStopped(rules: Rules, bits: u32, s: State, n: nat)
    requires Stands(ForkWorld(rules, bits), s, 4, n)
    ensures n == 0 && s.height == 0 && s.tip == 1 && s.utxos == map[]
  {
    hide Compact.WorkFromBits, GoodChain, HT.AncestorAt;
    ForkHeld(rules, bits, 4, n);
    ForkAncestors(bits);
    assert Branch(ForkWorld(rules, bits), 4, n) == [];
  }

  lemma ForkFacts(bits: u32)
    ensures var t := ForkTree(bits); 2 in t && t[2].height == 1 && 4 in t && t[4].height == 2
  {
    hide Compact.WorkFromBits;
  }

  /** No outcome but an unreadable block is possible. */
  ghost predicate ForkImpossible(w: World, store: BlockStore, fork: Hash) {
    && (forall k :: !Unreplayable(w, 4, k))
    && (HT.IsForkPoint(w.tree, 2, 4, fork) ==>
          && 4 in w.tree && fork in w.tree && w.tree[fork].height <= 1 && !ReadableTo(w, store, fork, 4, 2)
          && w.tree[fork].height <= w.tree[4].height
          && Missing(store.index, HT.PathAbove(w.tree, 4, w.tree[fork].height)) == [])
  }

  lemma ForkOutcome(rules: Rules, bits: u32, store: BlockStore, fork: Hash)
    requires store == BlockStore({3, 4}, map[2 := RewardBlock(2, 1, bits, 7)])
    ensures ForkImpossible(ForkWorld(rules, bits), store, fork)
  {
    hide Compact.WorkFromBits, HT.AncestorAt, Held, Missing;
    var w := ForkWorld(rules, bits);
    ForkAncestors(bits);
    forall k
      ensures !Unreplayable(w, 4, k)
    {
      ForkHeld(rules, bits, 4, k);
      assert Held(w, 4, k) ==> Branch(w, 4, k) == [];
    }
    if HT.IsForkPoint(w.tree, 2, 4, fork) {
      assert HT.IsAncestor(w.tree, fork, 2) && HT.IsAncestor(w.tree, fork, 4);
      var path := HT.PathAbove(w.tree, 4, w.tree[fork].height);
      NothingMissing(store.index, path);
      assert HT.AncestorAt(w.tree, 4, 2) !in store.files;
    }
  }

  /** Nor is there a reason not to move. */
  lemma ForkPlan(rules: Rules, bits: u32, store: BlockStore, r: ActivateResult)
    requires store == BlockStore({3, 4}, map[2 := RewardBlock(2, 1, bits, 7)])
    ensures !PlanOk(ForkTree(bits), store.index, 2, 4, Stop(r))
  {
    hide Compact.WorkFromBits, HT.IsForkPoint, Missing, ReadableTo, Unreplayable;
    ForkFacts(bits);
    var t := ForkTree(bits);
    if PlanOk(t, store.index, 2, 4, Stop(r)) {
      var fork :| HT.IsForkPoint(t, 2, 4, fork);
      ForkOutcome(rules, bits, store, fork);
      forall g | HT.IsForkPoint(t, 2, 4, g)
        ensures g == fork
      {
        HT.ForkPointUnique(t, 2, 4, fork, g);
      }
    }
  }

  /** The unreadable block is 3, and the chain state is at genesis. */
  lemma ForkLoad(rules: Rules, bits: u32, store: BlockStore, fork: Hash, h: Hash, on: Hash, n: nat, s: State)
    requires store == BlockStore({3, 4}, map[2 := RewardBlock(2, 1, bits, 7)])
    requires var w := ForkWorld(rules, bits); StoppedBy(w, store, 2, 4, fork, h, on, n) && Stands(w, s, on, n)
    ensures h == 3 && s.height == 0 && s.utxos == map[]
  {
    hide Compact.WorkFromBits, HT.AncestorAt, Stands;
    ForkAncestors(bits);
    if on == 4 {
      ForkStopped(rules, bits, s, n);
    }
  }

  /** The chain state stands on block 2. Blocks 3 and 4 of the better branch are indexed but
      cannot be read. The reorganization disconnects block 2, fails on block 3, and leaves the
      chain state at genesis, without the coin it had. */
  method StoppedHalfWay(bits: u32) returns (r: ActivateResult, before: Utxos, after: Utxos, height: nat)
    requires Compact.WorkFromBits(bits) > 0
    ensures r == Failed(LoadFailed(3))
    ensures before == map[OutPoint(7, 0) := RewardCoin(1)] && after == map[] && height == 0
  {
    hide Compact.WorkFromBits, HS.Inv, HT.WellFormed, Honest, SafeBranch, Stands, HT.AncestorAt, Unreplayable, Connect,
         HT.IsForkPoint, Reoffered, OldTxsReadded, PoolStopped, ReadableTo, Missing, MempoolSpec.Inv, ForkTree;
    var rules, b := Rules(ACCEPT, 0), RewardBlock(2, 1, bits, 7);
    var headers := ForkedHeaders(bits);
    var cs := new ChainState(rules);
    var pool := new Mempool(1000, ACCEPT);
    RewardConnects(rules, EMPTY, 2, 1, bits, 7);
    var err := cs.ConnectBlockAt(b, 1, 2);
    var store := BlockStore({3, 4}, map[2 := b]);
    ghost var w := ForkWorld(rules, bits);
    before := cs.utxos;
    StoreShape(headers.Value(), headers.genesis);
    ForkSafe(rules, bits);
    ForkStands(rules, bits, cs.Value());
    ForkFacts(bits);
    assert Consistent(headers, cs, store, w.known);
    ghost var trace;
    r, trace := ActivateBestChain(headers, cs, store, pool, w.known);
    ForkOutcome(rules, bits, store, trace.fork);
    ForkPlan(rules, bits, store, r);
    assert WorldOf(headers, cs, w.known) == w;
    assert r.Failed? && r.error.LoadFailed?;
    ForkLoad(rules, bits, store, trace.fork, r.error.hash, trace.on, trace.n, cs.Value());
    after, height := cs.utxos, cs.tipHeight;
  }

  // ---------- A rejected tip that stays the best ----------

  /** Genesis 1, 2 on it, and 3 on 2. */
  function LineTree(bits: u32): HT.Tree {
    var work := Compact.WorkFromBits(bits);
    map[1 := HT.Stored(HF.Demo(1, 0, bits), 0, work),
        2 := HT.Stored(HF.Demo(2, 1, bits), 1, work + work),
        3 := HT.Stored(HF.Demo(3, 2, bits), 2, work + work + work)]
  }

  method LineHeaders(bits: u32) returns (headers: HeaderStore)
    requires Compact.WorkFromBits(bits) > 0
    ensures fresh(headers) && headers.Valid() && headers.genesis == 1
    ensures headers.byHash == LineTree(bits) && headers.best.hash == 3 && headers.activeChain == [1, 2, 3]
  {
    hide Compact.WorkFromBits, HS.AcceptHeader, HS.Inv, HW.Worked, HW.LooksBack, HB.LeavesKnown;
    ghost var w := Compact.WorkFromBits(bits);
    headers := new HeaderStore(HF.Lenient(bits), HF.Demo(1, 0, bits));
    HF.AcceptNew(headers.Value(), HF.Demo(2, 1, bits), HT.Stored(HF.Demo(1, 0, bits), 0, w));
    var r := headers.Accept(HF.Demo(2, 1, bits));
    HF.AcceptNew(headers.Value(), HF.Demo(3, 2, bits), HT.Stored(HF.Demo(2, 1, bits), 1, w + w));
    r := headers.Accept(HF.Demo(3, 2, bits));
    assert headers.byHash == LineTree(bits);
  }

  /** A block whose coinbase takes one more than the subsidy. */
  function GreedyBlock(bits: u32): Block {
    Block(Header(3, 2, 0, bits), [Tx(8, 100, [TxIn(COINBASE_OUTPOINT, [0, 0])], [TxOut(INITIAL_SUBSIDY + 1, [])])])
  }

  lemma GreedyChecked(bits: u32)
    ensures CheckedBlock(GreedyBlock(bits))
  {
    var outs := GreedyBlock(bits).txs[0].vout;
    assert OutTotal([]) == 0 && outs[..0] == [];
    assert OutTotal(outs) == INITIAL_SUBSIDY + 1;
  }

  lemma GreedyFails(rules: Rules, u: Utxos, bits: u32)
    ensures ConnectBlock(rules, u, GreedyBlock(bits).txs, 2).Err?
  {
    var tx := GreedyBlock(bits).txs[0];
    assert [tx][1..] == [] && tx.vout[1..] == [];
    assert SumOutputs(0, tx.vout) == Some(INITIAL_SUBSIDY + 1);
    assert Subsidy(2) == INITIAL_SUBSIDY by {
      assert Arith.Pow2(0) == 1;
    }
    assert ConnectTxs(rules, Progress(u, [], 0), [tx], 2) == Ok(Progress(u + NewCoins(tx, 2), [], 0));
  }

  function LineWorld(rules: Rules, bits: u32): World {
    World(rules, 1, LineTree(bits), map[2 := RewardBlock(2, 1, bits, 7), 3 := GreedyBlock(bits)])
  }

  lemma LineFacts(rules: Rules, bits: u32)
    ensures var w := LineWorld(rules, bits);
            && HT.AncestorAt(w.tree, 2, 1) == 2 && HT.AncestorAt(w.tree, 3, 2) == 3 && HT.AncestorAt(w.tree, 3, 1) == 2
            && HT.AncestorAt(w.tree, 2, 0) == 1
            && Held(w, 2, 1) && Branch(w, 2, 1) == [RewardBlock(2, 1, bits, 7)]
            && Held(w, 3, 1) && Branch(w, 3, 1) == [RewardBlock(2, 1, bits, 7)]
            && Held(w, 3, 2) && Branch(w, 3, 2) == [RewardBlock(2, 1, bits, 7), GreedyBlock(bits)]
            && w.tree[2].height == 1 && w.tree[3].height == 2
  {
    hide Compact.WorkFromBits;
    var t := LineTree(bits);
    assert HT.Walk(t, 3, 1) == 2 && HT.Walk(t, 2, 1) == 1;
  }

  /** After block 2 there is one coin, and block 3 does not connect. */
  lemma LineReplays(rules: Rules, bits: u32)
    ensures ReplayUtxos(rules, [RewardBlock(2, 1, bits, 7)]) == Ok(map[OutPoint(7, 0) := RewardCoin(1)])
    ensures ReplayUtxos(rules, [RewardBlock(2, 1, bits, 7), GreedyBlock(bits)]).Err?
  {
    var first, both := [RewardBlock(2, 1, bits, 7)], [RewardBlock(2, 1, bits, 7), GreedyBlock(bits)];
    assert first[..0] == [] && both[..1] == first;
    RewardConnects(rules, EMPTY, 2, 1, bits, 7);
    assert ReplayUtxos(rules, []) == Ok(map[]);
    GreedyFails(rules, map[OutPoint(7, 0) := RewardCoin(1)], bits);
  }

  lemma LineSafe(rules: Rules, bits: u32)
    requires HT.WellFormed(LineTree(bits), 1)
    ensures var w := LineWorld(rules, bits); Honest(w) && SafeBranch(w, 3)
  {
    hide Compact.WorkFromBits, HT.WellFormed, HT.AncestorAt, CheckedBlock;
    var w := LineWorld(rules, bits);
    RewardChecked(2, 1, bits, 7);
    GreedyChecked(bits);
    LineFacts(rules, bits);
    LineReplays(rules, bits);
    forall n: nat | Held(w, 3, n + 1) && Held(w, 3, n) && ReplayUtxos(w.rules, Branch(w, 3, n)).Ok?
      ensures NoOverwrite(ReplayUtxos(w.rules, Branch(w, 3, n)).value, w.known[HT.AncestorAt(w.tree, 3, n + 1)].txs)
    {
      if n == 0 {
        assert Branch(w, 3, n) == [];
      } else {
        GreedyElsewhere(bits);
      }
    }
  }

  lemma GreedyElsewhere(bits: u32)
    ensures NoOverwrite(map[OutPoint(7, 0) := RewardCoin(1)], GreedyBlock(bits).txs)
  {
    var txs := GreedyBlock(bits).txs;
    assert txs[..0] == [] && FirstTouch([], OutPoint(7, 0)) == Untouched;
  }

  lemma LineStands(rules: Rules, bits: u32, s: State)
    requires s == State(map[OutPoint(7, 0) := RewardCoin(1)], map[], 2, 1)
    ensures Stands(LineWorld(rules, bits), s, 2, 1)
  {
    hide Compact.WorkFromBits, HT.AncestorAt, Represents, CheckedBlock, Connect;
    var b := RewardBlock(2, 1, bits, 7);
    LineFacts(rules, bits);
    EmptyRepresents(rules, 1);
    RewardChecked(2, 1, bits, 7);
    RewardConnects(rules, EMPTY, 2, 1, bits, 7);
    assert Connectable(1, EMPTY, [], b);
    ConnectExtends(rules, 1, EMPTY, [], b);
    assert [] + [b] == [b];
  }

  /** Every plan is to move, both branches can be read, and branch 3 has no replay. */
  lemma LineOutcome(rules: Rules, bits: u32, store: BlockStore, r: ActivateResult, s: State)
    requires store == BlockStore({2, 3}, LineWorld(rules, bits).known)
    ensures var w := LineWorld(rules, bits);
            && BothReadable(w, store, 2, 3) && !AtTipOf(w, s, 3)
            && (PlanOk(w.tree, store.index, 2, 3, Stop(r)) ==> r.AlreadyBest?)
  {
    hide Compact.WorkFromBits, HT.AncestorAt, Missing, GoodChain;
    var w := LineWorld(rules, bits);
    LineFacts(rules, bits);
    LineReplays(rules, bits);
    forall fork | HT.IsForkPoint(w.tree, 2, 3, fork)
      ensures Missing(store.index, HT.PathAbove(w.tree, 3, w.tree[fork].height)) == []
    {
      NothingMissing(store.index, HT.PathAbove(w.tree, 3, w.tree[fork].height));
    }
  }

  /** Headers 1, 2, 3 are active, the chain state stands on 2, and block 3 takes too much. The
      reorganization rejects block 3 and marks it invalid, but it is the active tip and stays
      the best: every further call tries it again. */
  method RetriedForever(bits: u32, calls: nat) returns (headers: HeaderStore, results: seq<ActivateResult>)
    requires Compact.WorkFromBits(bits) > 0
    ensures |results| == calls && forall i :: 0 <= i < calls ==> results[i].Failed? && results[i].error.ConnectFailed?
    ensures headers.best.hash == 3 && (calls > 0 ==> 3 in headers.invalidTips)
  {
    hide Compact.WorkFromBits, HS.Inv, HT.WellFormed, Honest, SafeBranch, Stands, HT.AncestorAt, Unreplayable, Connect,
         HT.IsForkPoint, Reoffered, OldTxsReadded, PoolStopped, ReadableTo, Missing, MempoolSpec.Inv, LineTree, BothReadable,
         AtTipOf, PlanOk, HB.LeavesKnown;
    var rules, b := Rules(ACCEPT, 0), RewardBlock(2, 1, bits, 7);
    headers := LineHeaders(bits);
    var cs := new ChainState(rules);
    var pool := new Mempool(1000, ACCEPT);
    RewardConnects(rules, EMPTY, 2, 1, bits, 7);
    var err := cs.ConnectBlockAt(b, 1, 2);
    var store := BlockStore({2, 3}, map[2 := b, 3 := GreedyBlock(bits)]);
    ghost var w := LineWorld(rules, bits);
    StoreShape(headers.Value(), headers.genesis);
    LineSafe(rules, bits);
    LineStands(rules, bits, cs.Value());
    LineFacts(rules, bits);
    results := [];
    while |results| < calls
      invariant |results| <= calls && forall i :: 0 <= i < |results| ==> results[i].Failed? && results[i].error.ConnectFailed?
      invariant headers.byHash == LineTree(bits) && headers.best.hash == 3 && headers.activeChain == [1, 2, 3]
      invariant cs.tip == 2 && Consistent(headers, cs, store, w.known) && MempoolSpec.Inv(pool.Value())
      invariant results != [] ==> 3 in headers.invalidTips
    {
      ghost var trace;
      var r;
      r, trace := ActivateBestChain(headers, cs, store, pool, w.known);
      assert WorldOf(headers, cs, w.known) == w;
      LineOutcome(rules, bits, store, r, cs.Value());
      assert r.Failed? && r.error.ConnectFailed?;
      results := results + [r];
    }
  }
}
