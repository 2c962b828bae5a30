/** Chain states as replays of chains of blocks. */
module Replay {
  import opened Basics
  import opened Types
  import opened UndoCodec
  import opened Utxo
  import opened UndoTheorems
  import opened ChainSpec
  import opened Supply

  /** Connecting every block in order from no coins at all; block `k` has height `k + 1`. */
  function ReplayUtxos(rules: Rules, chain: seq<Block>): Result<Utxos, ConnectError> {
    if chain == [] then Ok(map[])
    else
      match ReplayUtxos(rules, chain[..|chain| - 1])
      case Err(e) => Err(e)
      case Ok(u) =>
        match ConnectBlock(rules, u, chain[|chain| - 1].txs, |chain|)
        case Err(e) => Err(e)
        case Ok(p) => Ok(p.utxos)
  }

  /** Hash of the last block, or of the genesis block. */
  function TipOf(genesis: Hash, chain: seq<Block>): Hash {
    if chain == [] then genesis else chain[|chain| - 1].header.hash
  }

  /** Block `k` of a chain follows the first `k` blocks: it is well-formed, names its parent,
      connects, and overwrites no unspent coin. */
  ghost predicate Follows(rules: Rules, genesis: Hash, chain: seq<Block>, k: nat)
    requires k < |chain|
  {
    && CheckedBlock(chain[k])
    && chain[k].header.prevHash == TipOf(genesis, chain[..k])
    && ReplayUtxos(rules, chain[..k]).Ok?
    && ConnectBlock(rules, ReplayUtxos(rules, chain[..k]).value, chain[k].txs, k + 1).Ok?
    && NoOverwrite(ReplayUtxos(rules, chain[..k]).value, chain[k].txs)
  }

  ghost predicate DistinctHashes(chain: seq<Block>) {
    forall i, j :: 0 <= i < j < |chain| ==> chain[i].header.hash != chain[j].header.hash
  }

  ghost predicate GoodChain(rules: Rules, genesis: Hash, chain: seq<Block>) {
    && |chain| < MAX_U32
    && DistinctHashes(chain)
    && forall k :: 0 <= k < |chain| ==> Follows(rules, genesis, chain, k)
  }

  /** The undo record of block `k` is stored as written when it was connected. */
  ghost predicate UndoStored(rules: Rules, undo: map<Hash, Bytes>, chain: seq<Block>, k: nat)
    requires k < |chain|
  {
    ReplayUtxos(rules, chain[..k]).Ok? &&
    (NonCoinbase(chain[k].txs) > 0 ==>
       && chain[k].header.hash in undo
       && undo[chain[k].header.hash] ==
          BlockUndoBytes(UndoOf(rules, ReplayUtxos(rules, chain[..k]).value, chain[k], k + 1)))
  }

  /** The tip is the last block; a database without blocks starts from the zero hash. */
  predicate TipMatches(genesis: Hash, tip: Hash, chain: seq<Block>) {
    tip == TipOf(genesis, chain) || (chain == [] && tip == ZERO_HASH)
  }

  /** A chain state is the replay of `chain`, with every block of it ready to be undone. */
  ghost predicate Represents(rules: Rules, genesis: Hash, s: State, chain: seq<Block>) {
    && GoodChain(rules, genesis, chain)
    && ReplayUtxos(rules, chain) == Ok(s.utxos)
    && s.height == |chain| && TipMatches(genesis, s.tip, chain)
    && forall k :: 0 <= k < |chain| ==> UndoStored(rules, s.undo, chain, k)
  }

  // ---------- Prefixes ----------

  lemma FollowsPrefix(rules: Rules, genesis: Hash, chain: seq<Block>, n: nat, k: nat)
    requires k < n <= |chain|
    ensures Follows(rules, genesis, chain[..n], k) <==> Follows(rules, genesis, chain, k)
  {
    assert chain[..n][..k] == chain[..k];
  }

  lemma GoodPrefix(rules: Rules, genesis: Hash, chain: seq<Block>, n: nat)
    requires GoodChain(rules, genesis, chain) && n <= |chain|
    ensures GoodChain(rules, genesis, chain[..n])
  {
    hide Follows;
    forall k | 0 <= k < n
      ensures Follows(rules, genesis, chain[..n], k)
    {
      FollowsPrefix(rules, genesis, chain, n, k);
    }
  }

  lemma ExtendGood(rules: Rules, genesis: Hash, chain: seq<Block>, b: Block)
    requires GoodChain(rules, genesis, chain) && |chain| + 1 < MAX_U32
    requires forall k :: 0 <= k < |chain| ==> chain[k].header.hash != b.header.hash
    requires Follows(rules, genesis, chain + [b], |chain|)
    ensures GoodChain(rules, genesis, chain + [b])
  {
    hide Follows;
    var longer := chain + [b];
    assert longer[..|chain|] == chain;
    forall k | 0 <= k < |longer|
      ensures Follows(rules, genesis, longer, k)
    {
      if k < |chain| {
        FollowsPrefix(rules, genesis, longer, |chain|, k);
      }
    }
  }

  // ---------- Coins along a chain ----------

  /** Coins of a replay of checked blocks are well-formed, and their total is at most what
      was issued. Overwritten coins included: they only lower the total. */
  lemma {:induction false} ReplayMoney(rules: Rules, chain: seq<Block>)
    requires ReplayUtxos(rules, chain).Ok? && |chain| <= MAX_U32
    requires forall k :: 0 <= k < |chain| ==> CheckedBlock(chain[k])
    ensures var u := ReplayUtxos(rules, chain).value;
            ValidUtxos(u) && Nonneg(u) && Total(u) <= Issued(|chain|)
    decreases |chain|
  {
    hide CheckedTx, ConnectTxs, CheckCoinbase;
    if chain != [] {
      var n := |chain| - 1;
      var init, b := chain[..n], chain[n];
      ReplayMoney(rules, init);
      BlockMoney(rules, ReplayUtxos(rules, init).value, b, n + 1);
    }
  }

  /** A checked block keeps coins well-formed and adds at most its subsidy. */
  lemma BlockMoney(rules: Rules, u: Utxos, b: Block, height: nat)
    requires CheckedBlock(b) && ConnectBlock(rules, u, b.txs, height).Ok? && 0 < height <= MAX_U32
    requires ValidUtxos(u) && Nonneg(u)
    ensures var v := ConnectBlock(rules, u, b.txs, height).value.utxos;
            ValidUtxos(v) && Nonneg(v) && Total(v) <= Total(u) + Subsidy(height)
  {
    hide CheckedTx, ConnectTxs, CheckCoinbase;
    CheckedNonneg(b);
    BlockConserves(rules, u, b.txs, height);
    ConnectValid(rules, u, b.txs, height);
  }

  lemma CheckedNonneg(b: Block)
    requires CheckedBlock(b)
    ensures forall i :: 0 <= i < |b.txs| ==> NonnegOutputs(b.txs[i])
  {
    forall i | 0 <= i < |b.txs|
      ensures NonnegOutputs(b.txs[i])
    {
      assert CheckedTx(b.txs[i]);
    }
  }

  // ---------- The two operations on represented states ----------

  /** What the caller of `connect_block` guarantees: a well-formed block on the last one, not
      yet on the chain. */
  ghost predicate Fits(genesis: Hash, chain: seq<Block>, b: Block) {
    && |chain| + 1 < MAX_U32
    && CheckedBlock(b) && b.header.prevHash == TipOf(genesis, chain)
    && forall k :: 0 <= k < |chain| ==> chain[k].header.hash != b.header.hash
  }

  /** The same, for a block that also overwrites no unspent coin. */
  ghost predicate Connectable(genesis: Hash, s: State, chain: seq<Block>, b: Block) {
    Fits(genesis, chain, b) && NoOverwrite(s.utxos, b.txs)
  }

  /** A successful connect represents the longer chain. */
  lemma {:induction false} ConnectExtends(rules: Rules, genesis: Hash, s: State, chain: seq<Block>, b: Block)
    requires Represents(rules, genesis, s, chain) && Connectable(genesis, s, chain, b)
    requires Connect(rules, s, b, |chain| + 1, b.header.hash).Ok?
    ensures Represents(rules, genesis, Connect(rules, s, b, |chain| + 1, b.header.hash).value, chain + [b])
  {
    hide ConnectTxs, CheckCoinbase, CheckedTx, BlockUndoBytes, NoOverwrite, NonCoinbase;
    var n, longer := |chain|, chain + [b];
    var s' := Connect(rules, s, b, n + 1, b.header.hash).value;
    assert longer[..n] == chain;
    assert Follows(rules, genesis, longer, n);
    ExtendGood(rules, genesis, chain, b);
    UndoWritten(rules, s, b, n + 1, b.header.hash);
    forall k | 0 <= k < |longer|
      ensures UndoStored(rules, s'.undo, longer, k)
    {
      if k < n {
        assert longer[..k] == chain[..k];
        assert UndoStored(rules, s.undo, chain, k);
      }
    }
  }

  lemma TipConnected(rules: Rules, genesis: Hash, s: State, chain: seq<Block>)
    requires Represents(rules, genesis, s, chain) && chain != []
    ensures var n := |chain| - 1;
            && ReplayUtxos(rules, chain[..n]).Ok?
            && CheckedBlock(chain[n]) && chain[n].header.prevHash == TipOf(genesis, chain[..n])
            && NoOverwrite(ReplayUtxos(rules, chain[..n]).value, chain[n].txs)
            && ValidUtxos(ReplayUtxos(rules, chain[..n]).value)
            && ConnectTxs(rules, Start(ReplayUtxos(rules, chain[..n]).value), chain[n].txs, n + 1).Ok?
            && s.utxos == ConnectTxs(rules, Start(ReplayUtxos(rules, chain[..n]).value), chain[n].txs, n + 1).value.utxos
  {
    hide ConnectTxs, CheckCoinbase, CheckedTx, NoOverwrite, ValidUtxos, Nonneg, Total, Issued;
    var n := |chain| - 1;
    assert Follows(rules, genesis, chain, n);
    PrefixChecked(rules, genesis, chain);
    ReplayMoney(rules, chain[..n]);
  }

  lemma PrefixChecked(rules: Rules, genesis: Hash, chain: seq<Block>)
    requires GoodChain(rules, genesis, chain)
    ensures forall k :: 0 <= k < |chain| ==> CheckedBlock(chain[k])
  {
    hide CheckedBlock, NoOverwrite, ConnectBlock;
    forall k | 0 <= k < |chain|
      ensures CheckedBlock(chain[k])
    {
      assert Follows(rules, genesis, chain, k);
    }
  }

  /** Disconnecting the tip block always succeeds and represents the shorter chain. */
  lemma {:induction false} DisconnectShrinks(rules: Rules, genesis: Hash, s: State, chain: seq<Block>)
    requires Represents(rules, genesis, s, chain) && chain != []
    ensures var b := chain[|chain| - 1];
            && Disconnect(s, b, |chain|, b.header.hash).Ok?
            && Disconnect(s, b, |chain|, b.header.hash).value.undo == s.undo
            && Represents(rules, genesis, Disconnect(s, b, |chain|, b.header.hash).value, chain[..|chain| - 1])
  {
    hide ConnectTxs, CheckCoinbase, CheckedTx, NoOverwrite, DisconnectTxs, BlockUndoFrom, BlockUndoBytes,
         NonCoinbase, ReplayUtxos, Follows, ValidUtxos, CheckedBlock;
    var n := |chain| - 1;
    var init, b := chain[..n], chain[n];
    TipConnected(rules, genesis, s, chain);
    var u := ReplayUtxos(rules, init).value;
    assert UndoStored(rules, s.undo, chain, n);
    UndoLoads(rules, u, b, n + 1, b.header.hash, s);
    CheckedShape(b);
    DisconnectUndoesConnect(rules, u, b.txs, n + 1);
    GoodPrefix(rules, genesis, chain, n);
    forall k | 0 <= k < n
      ensures UndoStored(rules, s.undo, init, k)
    {
      assert init[..k] == chain[..k];
      assert UndoStored(rules, s.undo, chain, k);
    }
  }

  lemma CheckedShape(b: Block)
    requires CheckedBlock(b)
    ensures CoinbaseFirst(b.txs)
  {
  }

  // ---------- Whole runs ----------

  datatype Op = ConnectOp(block: Block, height: nat) | DisconnectOp(block: Block, height: nat)

  /** One call; a failed call changes nothing. */
  function Apply(rules: Rules, s: State, op: Op): State {
    match op
    case ConnectOp(b, h) => (match Connect(rules, s, b, h, b.header.hash) case Ok(s') => s' case Err(_) => s)
    case DisconnectOp(b, h) => (match Disconnect(s, b, h, b.header.hash) case Ok(s') => s' case Err(_) => s)
  }

  function Track(rules: Rules, s: State, chain: seq<Block>, op: Op): seq<Block> {
    match op
    case ConnectOp(b, h) => if Connect(rules, s, b, h, b.header.hash).Ok? then chain + [b] else chain
    case DisconnectOp(b, h) =>
      if Disconnect(s, b, h, b.header.hash).Ok? && chain != [] then chain[..|chain| - 1] else chain
  }

  /** Blocks to connect follow the chain; a block with the tip's hash is the tip block. */
  ghost predicate Admissible(genesis: Hash, s: State, chain: seq<Block>, op: Op) {
    match op
    case ConnectOp(b, h) => Connectable(genesis, s, chain, b)
    case DisconnectOp(b, h) => chain != [] && b.header.hash == s.tip ==> b == chain[|chain| - 1]
  }

  lemma {:induction false} StepRepresents(rules: Rules, genesis: Hash, s: State, chain: seq<Block>, op: Op)
    requires Represents(rules, genesis, s, chain) && Admissible(genesis, s, chain, op)
    ensures Represents(rules, genesis, Apply(rules, s, op), Track(rules, s, chain, op))
  {
    hide Represents, ConnectBlock, DisconnectTxs, LoadUndo, NoOverwrite, CheckedBlock;
    assert s.height == |chain| && |chain| < MAX_U32 by {
      RepresentsHeight(rules, genesis, s, chain);
    }
    match op
    case ConnectOp(b, h) =>
      if Connect(rules, s, b, h, b.header.hash).Ok? {
        ConnectExtends(rules, genesis, s, chain, b);
      }
    case DisconnectOp(b, h) =>
      if Disconnect(s, b, h, b.header.hash).Ok? {
        DisconnectShrinks(rules, genesis, s, chain);
      }
  }

  lemma RepresentsHeight(rules: Rules, genesis: Hash, s: State, chain: seq<Block>)
    requires Represents(rules, genesis, s, chain)
    ensures s.height == |chain| && |chain| < MAX_U32
  {
  }

  function Run(rules: Rules, s: State, ops: seq<Op>): State
    decreases |ops|
  {
    if ops == [] then s else Run(rules, Apply(rules, s, ops[0]), ops[1..])
  }

  ghost predicate AdmissibleRun(rules: Rules, genesis: Hash, s: State, chain: seq<Block>, ops: seq<Op>)
    decreases |ops|
  {
    ops == [] ||
    (Admissible(genesis, s, chain, ops[0]) &&
     AdmissibleRun(rules, genesis, Apply(rules, s, ops[0]), Track(rules, s, chain, ops[0]), ops[1..]))
  }

  /** After any run of connects and disconnects the state is the replay of some chain. */
  lemma {:induction false} RunRepresents(rules: Rules, genesis: Hash, s: State, chain: seq<Block>, ops: seq<Op>)
    returns (final: seq<Block>)
    requires Represents(rules, genesis, s, chain) && AdmissibleRun(rules, genesis, s, chain, ops)
    ensures Represents(rules, genesis, Run(rules, s, ops), final)
    decreases |ops|
  {
    hide Represents, Apply, Track, Admissible;
    if ops == [] {
      final := chain;
    } else {
      StepRepresents(rules, genesis, s, chain, ops[0]);
      final := RunRepresents(rules, genesis, Apply(rules, s, ops[0]), Track(rules, s, chain, ops[0]), ops[1..]);
    }
  }

  const EMPTY := State(map[], map[], ZERO_HASH, 0)

  lemma EmptyRepresents(rules: Rules, genesis: Hash)
    ensures Represents(rules, genesis, EMPTY, [])
  {
  }
}
