/** Whole runs of the pool: transactions offered to it and blocks connected, in any order. */
module MempoolRuns {
  import opened Basics
  import opened Types
  import opened Utxo
  import opened UndoTheorems
  import opened Supply
  import opened MempoolSpec
  import opened MempoolRules
  import opened MempoolBlocks
  import opened MempoolOrder
  import opened MempoolTemplate
  import opened MempoolClass

  datatype Event = Offered(tx: Tx) | Confirmed(txs: seq<Tx>, height: nat)

  datatype Node = Node(pool: Pool, coins: Utxos)

  datatype Policy = Policy(verify: Verifier, maxSize: nat, rules: Rules)

  /** One event: an offer is rejected without a trace, or inserted and the pool cut to its limit;
      a block that connects leaves what it does not confirm or conflict with. */
  ghost predicate Moves(c: Policy, n: Node, e: Event, m: Node) {
    match e
    case Offered(tx) =>
      && tx.size > 0 && m.coins == n.coins
      && (match Evaluate(c.verify, n.pool, n.coins, tx)
          case Err(_) => m.pool == n.pool
          case Ok(fee) => Inv(m.pool) && exists victims :: Evicts(c.maxSize, Inserted(n.pool, tx, fee).txs, victims, m.pool.txs))
    case Confirmed(txs, height) =>
      && ConnectTxs(c.rules, Start(n.coins), txs, height).Ok?
      && m.coins == ConnectTxs(c.rules, Start(n.coins), txs, height).value.utxos
      && Inv(m.pool) && m.pool.txs == AfterBlock(n.pool.txs, txs)
  }

  /** Ids name transactions: no output of an offered transaction is a coin already, and a block
      transaction with a known id is the known one. */
  ghost predicate Honest(n: Node, e: Event) {
    match e
    case Offered(tx) => forall i :: 0 <= i < |tx.vout| ==> OutPoint(tx.txid, i) !in n.coins
    case Confirmed(txs, height) => IdsHonest(n.pool.txs, n.coins, txs)
  }

  /** What the pool promises about itself and the coins. */
  ghost predicate Good(c: Policy, n: Node) {
    Inv(n.pool) && Sound(c.verify, n.pool.txs, n.coins) && Orderable(n.pool.txs, n.coins) && Unconfirmed(n.pool.txs, n.coins)
  }

  // ---------- Unconfirmed transactions stay unconfirmed ----------

  lemma InsertedUnconfirmed(pool: Pool, u: Utxos, tx: Tx, fee: nat)
    requires Unconfirmed(pool.txs, u) && forall i :: 0 <= i < |tx.vout| ==> OutPoint(tx.txid, i) !in u
    ensures Unconfirmed(Inserted(pool, tx, fee).txs, u)
  {
    var txs := Inserted(pool, tx, fee).txs;
    forall p | p in u && p.txid in txs
      ensures p.index >= |txs[p.txid].tx.vout|
    {
      assert p == OutPoint(p.txid, p.index);
    }
  }

  lemma KeptUnconfirmed(txs: Txs, kept: Txs, u: Utxos)
    requires Unconfirmed(txs, u) && KeepsParents(txs, kept)
    ensures Unconfirmed(kept, u)
  {
  }

  /** A coin of an entry that survives a block would be an old one or the entry confirmed. */
  lemma {:induction false} BlockUnconfirmed(rules: Rules, txs: Txs, u: Utxos, block: seq<Tx>, height: nat)
    requires Unconfirmed(txs, u) && ConnectTxs(rules, Start(u), block, height).Ok?
    ensures Unconfirmed(AfterBlock(txs, block), ConnectTxs(rules, Start(u), block, height).value.utxos)
  {
    hide ConnectTxs, AfterBlock;
    var after, v := AfterBlock(txs, block), ConnectTxs(rules, Start(u), block, height).value.utxos;
    forall p | p in v && p.txid in after
      ensures p.index >= |after[p.txid].tx.vout|
    {
      SurvivorFacts(txs, block, p.txid);
      BlockCoins(rules, u, block, height, p);
    }
  }

  // ---------- One event ----------

  lemma OfferedGood(c: Policy, n: Node, tx: Tx, m: Node)
    requires Good(c, n) && Moves(c, n, Offered(tx), m) && Honest(n, Offered(tx))
    ensures Good(c, m)
  {
    hide Inv, Sound, Orderable, Unconfirmed, Evaluate, Evicts, KeepsParents;
    match Evaluate(c.verify, n.pool, n.coins, tx)
    case Err(_) =>
    case Ok(fee) =>
      var inserted := Inserted(n.pool, tx, fee);
      var victims :| Evicts(c.maxSize, inserted.txs, victims, m.pool.txs);
      AcceptedSound(c.verify, n.pool, n.coins, tx);
      AcceptedOrderable(c.verify, n.pool, n.coins, tx);
      InsertedUnconfirmed(n.pool, n.coins, tx, fee);
      EvictsRun(c.maxSize, inserted.txs, victims, m.pool.txs);
      KeptSound(c.verify, inserted.txs, m.pool.txs, n.coins);
      KeptOrderable(c.verify, inserted.txs, m.pool.txs, n.coins);
      KeptUnconfirmed(inserted.txs, m.pool.txs, n.coins);
  }

  lemma EvictsRun(maxSize: nat, txs: Txs, victims: seq<Hash>, kept: Txs)
    requires Evicts(maxSize, txs, victims, kept)
    ensures KeepsParents(txs, kept)
  {
    hide EvictsTo, KeepsParents;
    EvictionKeepsParents(maxSize, txs, victims, kept);
  }

  lemma ConfirmedGood(c: Policy, n: Node, txs: seq<Tx>, height: nat, m: Node)
    requires Good(c, n) && Moves(c, n, Confirmed(txs, height), m) && Honest(n, Confirmed(txs, height))
    ensures Good(c, m)
  {
    hide Inv, Sound, Orderable, Unconfirmed, AfterBlock, ConnectTxs, IdsHonest;
    BlockKeepsSound(c.verify, c.rules, n.pool.txs, n.coins, txs, height);
    BlockOrderable(c.verify, c.rules, n.pool.txs, n.coins, txs, height);
    BlockUnconfirmed(c.rules, n.pool.txs, n.coins, txs, height);
  }

  // ---------- Runs ----------

  /** `nodes` are the states along `events`. */
  ghost predicate IsRun(c: Policy, nodes: seq<Node>, events: seq<Event>) {
    && |nodes| == |events| + 1
    && forall i :: 0 <= i < |events| ==> StepAt(c, nodes, events, i)
  }

  ghost predicate StepAt(c: Policy, nodes: seq<Node>, events: seq<Event>, i: nat)
    requires i < |events| && i + 1 < |nodes|
  {
    Moves(c, nodes[i], events[i], nodes[i + 1]) && Honest(nodes[i], events[i])
  }

  lemma EmptyGood(c: Policy, u: Utxos)
    ensures Good(c, Node(Pool(map[], map[], 0), u))
  {
    EmptyOrderable(u);
  }

  /** After any run from an empty pool the index and the sizes are exact, every entry is payable
      from the current coins, a parents-first order exists, and no entry is confirmed. */
  lemma {:induction false} RunGood(c: Policy, nodes: seq<Node>, events: seq<Event>, k: nat)
    requires IsRun(c, nodes, events) && nodes[0].pool == Pool(map[], map[], 0) && k < |nodes|
    ensures Good(c, nodes[k])
    decreases k
  {
    hide Good, Moves, Honest;
    if k == 0 {
      EmptyGood(c, nodes[0].coins);
    } else {
      RunGood(c, nodes, events, k - 1);
      assert StepAt(c, nodes, events, k - 1);
      match events[k - 1]
      case Offered(tx) => OfferedGood(c, nodes[k - 1], tx, nodes[k]);
      case Confirmed(txs, height) => ConfirmedGood(c, nodes[k - 1], txs, height, nodes[k]);
    }
  }

  /** So after any run the whole pool can be the body of the next block, in some order and with
      all its fees, exactly if no transaction of it spends a coinbase that is too young. */
  lemma {:induction false} RunConnects(c: Policy, nodes: seq<Node>, events: seq<Event>,
      height: nat) returns (order: seq<Hash>)
    requires IsRun(c, nodes, events) && nodes[0].pool == Pool(map[], map[], 0) && c.verify == c.rules.verify
    requires var u := nodes[|events|].coins; Nonneg(u) && Total(u) <= MAX_I64
    ensures var n := nodes[|events|];
            && Orders(n.pool.txs, n.coins, order) && (forall id :: id in order ==> id in n.pool.txs)
            && var body := ConnectTxs(c.rules, Start(n.coins), Listed(n.pool.txs, order), height);
            && (body.Ok? <==> forall id :: id in n.pool.txs ==> Mature(n.coins, n.pool.txs[id].tx, height))
            && (body.Ok? ==> body.value.fees == FeeTotal(n.pool.txs, order))
  {
    hide Inv, Sound, Orderable, Unconfirmed, ConnectTxs, Mature, StepAt, Total, Nonneg, Orders;
    RunGood(c, nodes, events, |events|);
    var n := nodes[|events|];
    order := WholePoolConnects(c.rules, n.pool, n.coins, height);
  }
}
