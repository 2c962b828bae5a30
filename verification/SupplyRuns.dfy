/** The supply cap over every run of the chain state, whether or not blocks overwrite coins
    that are still unspent. */
module SupplyRuns {
  import opened Basics
  import opened Types
  import opened UndoCodec
  import opened Utxo
  import opened UndoTheorems
  import opened ChainSpec
  import opened Supply
  import opened Replay

  // ---------- Fewer coins ----------

  /** Every coin of `a` is a coin of `b`. */
  ghost predicate Within(a: Utxos, b: Utxos) {
    forall p :: p in a ==> p in b && a[p] == b[p]
  }

  lemma {:induction false} WithinTotal(a: Utxos, b: Utxos)
    requires Within(a, b) && Nonneg(b)
    ensures Nonneg(a) && Total(a) <= Total(b)
    decreases |b|
  {
    if b == map[] {
      assert a == map[];
    } else {
      var p :| p in b;
      TotalRemove(b, p);
      WithinTotal(a - {p}, b - {p});
      if p in a {
        TotalRemove(a, p);
      } else {
        assert a - {p} == a;
      }
    }
  }

  lemma WithinValid(a: Utxos, b: Utxos)
    requires Within(a, b) && ValidUtxos(b)
    ensures ValidUtxos(a)
  {
  }

  // ---------- Connected blocks and what they were connected on ----------

  /** A connected block with the coins it was connected on. */
  datatype Layer = Layer(block: Block, base: Utxos)

  ghost function Result(rules: Rules, layer: Layer, height: nat): Utxos
    requires ConnectBlock(rules, layer.base, layer.block.txs, height).Ok?
  {
    ConnectBlock(rules, layer.base, layer.block.txs, height).value.utxos
  }

  /** Layer `k` is a checked block that connects, and its undo record is stored. */
  ghost predicate LayerOk(rules: Rules, undo: map<Hash, Bytes>, layers: seq<Layer>, k: nat)
    requires k < |layers|
  {
    var l, h := layers[k], layers[k].block.header.hash;
    && CheckedBlock(l.block) && ConnectBlock(rules, l.base, l.block.txs, k + 1).Ok?
    && (NonCoinbase(l.block.txs) > 0 ==>
          h in undo && undo[h] == BlockUndoBytes(UndoOf(rules, l.base, l.block, k + 1)))
  }

  /** What is left of the coins below layer `k`. */
  ghost predicate BaseOk(rules: Rules, layers: seq<Layer>, k: nat, coins: Utxos)
    requires k <= |layers|
  {
    if k == 0 then coins == map[]
    else
      ConnectBlock(rules, layers[k - 1].base, layers[k - 1].block.txs, k).Ok? &&
      Within(coins, Result(rules, layers[k - 1], k))
  }

  function BlocksOf(layers: seq<Layer>): (r: seq<Block>)
    ensures |r| == |layers|
    ensures forall k :: 0 <= k < |layers| ==> r[k] == layers[k].block
  {
    seq(|layers|, k requires 0 <= k < |layers| => layers[k].block)
  }

  /** Every block names the one below as its parent, and none appears twice. */
  ghost predicate Linked(genesis: Hash, chain: seq<Block>) {
    DistinctHashes(chain) && forall k :: 0 <= k < |chain| ==> LinkAt(genesis, chain, k)
  }

  ghost predicate LinkAt(genesis: Hash, chain: seq<Block>, k: nat)
    requires k < |chain|
  {
    chain[k].header.prevHash == if k == 0 then genesis else chain[k - 1].header.hash
  }

  ghost predicate Layered(rules: Rules, undo: map<Hash, Bytes>, layers: seq<Layer>) {
    && (forall k :: 0 <= k < |layers| ==> LayerOk(rules, undo, layers, k))
    && forall k :: 0 <= k < |layers| ==> BaseAt(rules, layers, k)
  }

  ghost predicate BaseAt(rules: Rules, layers: seq<Layer>, k: nat)
    requires k < |layers|
  {
    BaseOk(rules, layers, k, layers[k].base)
  }

  /** The chain state sits on its layers: each block was connected on coins that its parent
      left, and so are the coins of the state. */
  ghost predicate Sits(rules: Rules, genesis: Hash, s: State, layers: seq<Layer>) {
    && |layers| < MAX_U32 && s.height == |layers|
    && TipMatches(genesis, s.tip, BlocksOf(layers)) && Linked(genesis, BlocksOf(layers))
    && Layered(rules, s.undo, layers) && BaseOk(rules, layers, |layers|, s.utxos)
  }

  /** Coins on top of `k` layers total at most what `k` blocks issued. */
  lemma {:induction false} LayerMoney(rules: Rules, genesis: Hash, s: State, layers: seq<Layer>, k: nat, coins: Utxos)
    requires Sits(rules, genesis, s, layers) && k <= |layers| && BaseOk(rules, layers, k, coins)
    ensures ValidUtxos(coins) && Nonneg(coins) && Total(coins) <= Issued(k)
    decreases k
  {
    hide CheckedBlock, ConnectBlock, Linked, TipMatches;
    if k > 0 {
      var l := layers[k - 1];
      assert LayerOk(rules, s.undo, layers, k - 1);
      assert BaseAt(rules, layers, k - 1);
      LayerMoney(rules, genesis, s, layers, k - 1, l.base);
      BlockMoney(rules, l.base, l.block, k);
      WithinTotal(coins, Result(rules, l, k));
      WithinValid(coins, Result(rules, l, k));
    }
  }

  // ---------- One call ----------

  function Push(rules: Rules, s: State, layers: seq<Layer>, op: Op): seq<Layer> {
    match op
    case ConnectOp(b, h) => if Connect(rules, s, b, h, b.header.hash).Ok? then layers + [Layer(b, s.utxos)] else layers
    case DisconnectOp(b, h) =>
      if Disconnect(s, b, h, b.header.hash).Ok? && layers != [] then layers[..|layers| - 1] else layers
  }

  /** Blocks to connect fit on the chain; a block with the tip's hash is the tip block. */
  ghost predicate Allowed(genesis: Hash, s: State, chain: seq<Block>, op: Op) {
    match op
    case ConnectOp(b, h) => Fits(genesis, chain, b)
    case DisconnectOp(b, h) => chain != [] && b.header.hash == s.tip ==> b == chain[|chain| - 1]
  }

  lemma LinkedNext(genesis: Hash, chain: seq<Block>, b: Block)
    requires Linked(genesis, chain) && Fits(genesis, chain, b)
    ensures Linked(genesis, chain + [b])
  {
    hide CheckedBlock;
    var longer := chain + [b];
    forall k | 0 <= k < |longer|
      ensures LinkAt(genesis, longer, k)
    {
      assert k < |chain| ==> LinkAt(genesis, chain, k);
    }
  }

  lemma LinkedInit(genesis: Hash, chain: seq<Block>)
    requires Linked(genesis, chain) && chain != []
    ensures Linked(genesis, chain[..|chain| - 1])
    ensures chain[|chain| - 1].header.prevHash == TipOf(genesis, chain[..|chain| - 1])
  {
    var init := chain[..|chain| - 1];
    forall k | 0 <= k < |init|
      ensures LinkAt(genesis, init, k)
    {
      assert LinkAt(genesis, chain, k);
    }
    assert LinkAt(genesis, chain, |chain| - 1);
  }

  lemma LayeredNext(rules: Rules, undo: map<Hash, Bytes>, more: map<Hash, Bytes>, layers: seq<Layer>, l: Layer)
    requires Layered(rules, undo, layers) && BaseOk(rules, layers, |layers|, l.base)
    requires forall k :: 0 <= k < |layers| ==> layers[k].block.header.hash != l.block.header.hash
    requires forall h :: h in undo && h != l.block.header.hash ==> h in more && more[h] == undo[h]
    requires LayerOk(rules, more, layers + [l], |layers|)
    ensures Layered(rules, more, layers + [l])
  {
    hide CheckedBlock, ConnectBlock, BlockUndoBytes, NonCoinbase, Within, UndoOf;
    var longer := layers + [l];
    forall k | 0 <= k < |longer|
      ensures LayerOk(rules, more, longer, k) && BaseAt(rules, longer, k)
    {
      if k < |layers| {
        assert LayerOk(rules, undo, layers, k) && BaseAt(rules, layers, k);
      }
    }
  }

  lemma LayeredInit(rules: Rules, undo: map<Hash, Bytes>, layers: seq<Layer>)
    requires Layered(rules, undo, layers) && layers != []
    ensures Layered(rules, undo, layers[..|layers| - 1])
  {
    hide CheckedBlock, ConnectBlock, BlockUndoBytes, NonCoinbase, Within, UndoOf;
    var init := layers[..|layers| - 1];
    forall k | 0 <= k < |init|
      ensures LayerOk(rules, undo, init, k) && BaseAt(rules, init, k)
    {
      assert LayerOk(rules, undo, layers, k) && BaseAt(rules, layers, k);
    }
  }

  lemma ConnectFields(rules: Rules, s: State, b: Block, height: nat)
    requires Connect(rules, s, b, height, b.header.hash).Ok?
    ensures var s' := Connect(rules, s, b, height, b.header.hash).value;
            && ConnectBlock(rules, s.utxos, b.txs, height).Ok?
            && s'.utxos == ConnectBlock(rules, s.utxos, b.txs, height).value.utxos
            && s'.tip == b.header.hash && s'.height == height
            && forall h :: h in s.undo && h != b.header.hash ==> h in s'.undo && s'.undo[h] == s.undo[h]
  {
    hide ConnectBlock, BlockUndoBytes;
  }

  lemma ConnectSits(rules: Rules, genesis: Hash, s: State, layers: seq<Layer>, b: Block)
    requires Sits(rules, genesis, s, layers) && Fits(genesis, BlocksOf(layers), b)
    requires Connect(rules, s, b, |layers| + 1, b.header.hash).Ok?
    ensures Sits(rules, genesis, Connect(rules, s, b, |layers| + 1, b.header.hash).value, layers + [Layer(b, s.utxos)])
  {
    hide CheckedBlock, ConnectBlock, Connect, BlockUndoBytes, NonCoinbase, Within, Linked, Layered, UndoOf;
    var n, l := |layers|, Layer(b, s.utxos);
    var longer, s' := layers + [l], Connect(rules, s, b, n + 1, b.header.hash).value;
    ConnectFields(rules, s, b, n + 1);
    UndoWritten(rules, s, b, n + 1, b.header.hash);
    assert BlocksOf(longer) == BlocksOf(layers) + [b];
    LinkedNext(genesis, BlocksOf(layers), b);
    assert LayerOk(rules, s'.undo, longer, n);
    forall k | 0 <= k < n
      ensures layers[k].block.header.hash != b.header.hash
    {
      assert BlocksOf(layers)[k].header.hash != b.header.hash;
    }
    LayeredNext(rules, s.undo, s'.undo, layers, l);
    WithinSelf(s'.utxos);
  }

  lemma WithinSelf(u: Utxos)
    ensures Within(u, u)
  {
  }

  /** Undoing a block on fewer coins than it left gives fewer coins than it found. */
  lemma {:induction false} DisconnectWithin(rules: Rules, u: Utxos, b: Block, height: nat, w: Utxos)
    requires CheckedBlock(b) && ConnectBlock(rules, u, b.txs, height).Ok?
    requires Within(w, ConnectBlock(rules, u, b.txs, height).value.utxos)
    ensures DisconnectTxs(w, b.txs, UndoOf(rules, u, b, height)).Ok?
    ensures Within(DisconnectTxs(w, b.txs, UndoOf(rules, u, b, height)).value, u)
  {
    hide ConnectTxs, DisconnectTxs, CheckedTx, CheckCoinbase;
    var undo := UndoOf(rules, u, b, height);
    DisconnectPointwise(rules, u, b.txs, height, w, undo, COINBASE_OUTPOINT);
    var d := DisconnectTxs(w, b.txs, undo).value;
    forall q | q in d
      ensures q in u && d[q] == u[q]
    {
      DisconnectPointwise(rules, u, b.txs, height, w, undo, q);
      assert Lookup(d, q) == Some(d[q]);
      if FirstTouch(b.txs, q) == Untouched {
        UntouchedKept(rules, u, b.txs, height, q);
      }
    }
  }

  lemma DisconnectFields(s: State, b: Block, height: nat, undo: BlockUndo)
    requires s.tip == b.header.hash && s.height == height > 0 && LoadUndo(s, b.txs, b.header.hash) == Ok(undo)
    requires DisconnectTxs(s.utxos, b.txs, undo).Ok?
    ensures Disconnect(s, b, height, b.header.hash) ==
            Ok(State(DisconnectTxs(s.utxos, b.txs, undo).value, s.undo, b.header.prevHash, height - 1))
  {
    hide LoadUndo, DisconnectTxs;
  }

  lemma DisconnectSits(rules: Rules, genesis: Hash, s: State, layers: seq<Layer>)
    requires Sits(rules, genesis, s, layers) && layers != []
    ensures var b := layers[|layers| - 1].block;
            && Disconnect(s, b, |layers|, b.header.hash).Ok?
            && Sits(rules, genesis, Disconnect(s, b, |layers|, b.header.hash).value, layers[..|layers| - 1])
  {
    hide CheckedBlock, ConnectBlock, Disconnect, BlockUndoBytes, NonCoinbase, DisconnectTxs, LoadUndo, UndoOf,
         Within, Linked;
    var n := |layers| - 1;
    var init, l := layers[..n], layers[n];
    assert LayerOk(rules, s.undo, layers, n) && BaseAt(rules, layers, n);
    LayerMoney(rules, genesis, s, layers, n, l.base);
    LayerLoads(rules, l, n + 1, s);
    DisconnectWithin(rules, l.base, l.block, n + 1, s.utxos);
    DisconnectFields(s, l.block, n + 1, UndoOf(rules, l.base, l.block, n + 1));
    assert BlocksOf(init) == BlocksOf(layers)[..n];
    LinkedInit(genesis, BlocksOf(layers));
    LayeredInit(rules, s.undo, layers);
    BelowWithin(rules, layers, n, Disconnect(s, l.block, n + 1, l.block.header.hash).value.utxos);
  }

  lemma LayerLoads(rules: Rules, l: Layer, height: nat, s: State)
    requires CheckedBlock(l.block) && ConnectBlock(rules, l.base, l.block.txs, height).Ok? && ValidUtxos(l.base)
    requires height <= MAX_U32
    requires NonCoinbase(l.block.txs) > 0 ==>
               && l.block.header.hash in s.undo
               && s.undo[l.block.header.hash] == BlockUndoBytes(UndoOf(rules, l.base, l.block, height))
    ensures LoadUndo(s, l.block.txs, l.block.header.hash) == Ok(UndoOf(rules, l.base, l.block, height))
  {
    hide CheckedBlock, ConnectTxs, BlockUndoBytes, NonCoinbase, LoadUndo, UndoOf;
    UndoLoads(rules, l.base, l.block, height, l.block.header.hash, s);
  }

  /** Fewer coins than a layer was connected on are still coins the layer below left. */
  lemma BelowWithin(rules: Rules, layers: seq<Layer>, k: nat, coins: Utxos)
    requires k < |layers| && BaseOk(rules, layers, k, layers[k].base) && Within(coins, layers[k].base)
    ensures BaseOk(rules, layers, k, coins)
  {
    hide ConnectBlock;
    if k == 0 {
      assert coins == map[];
    }
  }

  lemma {:induction false} StepSits(rules: Rules, genesis: Hash, s: State, layers: seq<Layer>, op: Op)
    requires Sits(rules, genesis, s, layers) && Allowed(genesis, s, BlocksOf(layers), op)
    ensures Sits(rules, genesis, Apply(rules, s, op), Push(rules, s, layers, op))
  {
    hide Sits, ConnectBlock, DisconnectTxs, LoadUndo, CheckedBlock;
    SitsHeight(rules, genesis, s, layers);
    match op
    case ConnectOp(b, h) =>
      if Connect(rules, s, b, h, b.header.hash).Ok? {
        ConnectSits(rules, genesis, s, layers, b);
      }
    case DisconnectOp(b, h) =>
      if Disconnect(s, b, h, b.header.hash).Ok? {
        DisconnectSits(rules, genesis, s, layers);
      }
  }

  lemma SitsHeight(rules: Rules, genesis: Hash, s: State, layers: seq<Layer>)
    requires Sits(rules, genesis, s, layers)
    ensures s.height == |layers| < MAX_U32
  {
  }

  // ---------- Whole runs ----------

  ghost predicate AllowedRun(rules: Rules, genesis: Hash, s: State, layers: seq<Layer>, ops: seq<Op>)
    decreases |ops|
  {
    ops == [] ||
    (Allowed(genesis, s, BlocksOf(layers), ops[0]) &&
     AllowedRun(rules, genesis, Apply(rules, s, ops[0]), Push(rules, s, layers, ops[0]), ops[1..]))
  }

  lemma {:induction false} RunSits(rules: Rules, genesis: Hash, s: State, layers: seq<Layer>, ops: seq<Op>)
    returns (final: seq<Layer>)
    requires Sits(rules, genesis, s, layers) && AllowedRun(rules, genesis, s, layers, ops)
    ensures Sits(rules, genesis, Run(rules, s, ops), final)
    decreases |ops|
  {
    hide Sits, Apply, Push, Allowed;
    if ops == [] {
      final := layers;
    } else {
      StepSits(rules, genesis, s, layers, ops[0]);
      final := RunSits(rules, genesis, Apply(rules, s, ops[0]), Push(rules, s, layers, ops[0]), ops[1..]);
    }
  }

  lemma EmptySits(rules: Rules, genesis: Hash)
    ensures Sits(rules, genesis, EMPTY, [])
  {
  }

  /** Supply cap: in every state any run can reach from the empty set of coins, the unspent
      value is at most the subsidies of the blocks on the chain, which is below the cap. */
  lemma {:induction false} SupplyCap(rules: Rules, genesis: Hash, ops: seq<Op>)
    requires AllowedRun(rules, genesis, EMPTY, [], ops)
    ensures var s := Run(rules, EMPTY, ops); Nonneg(s.utxos) && Total(s.utxos) <= Issued(s.height) < MAX_MONEY
  {
    hide Run, AllowedRun, Total, Issued, Nonneg;
    EmptySits(rules, genesis);
    var layers := RunSits(rules, genesis, EMPTY, [], ops);
    var s := Run(rules, EMPTY, ops);
    LayerMoney(rules, genesis, s, layers, |layers|, s.utxos);
    IssuedBelowMaxMoney(|layers|);
  }
}
