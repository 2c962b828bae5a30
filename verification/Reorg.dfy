/** The reorganization coordinator: leave the old branch down to the fork point, follow the
    branch with the most work, and go back if one of its blocks is invalid. */
module Reorg {
  import opened Basics
  import opened Types
  import opened Utxo
  import opened ChainSpec
  import opened Replay
  import opened ReorgSpec
  import HT = HeaderTree
  import HS = HeaderSpec
  import HF = HeaderForks
  import HW = HeaderWork
  import HB = HeaderBest
  import opened HeaderStoreClass
  import opened ChainStateClass
  import MS = MempoolSpec
  import opened MempoolClass
  import opened MempoolRules
  import opened MempoolBlocks

  const MAX_REORG_DEPTH := 1_000

  /** The index says which blocks should be there; reading one back can still fail. */
  datatype BlockStore = BlockStore(index: set<Hash>, files: map<Hash, Block>)

  datatype ReorgError =
    | UnknownTip
    | DisconnectTooDeep(depth: nat)
    | ConnectTooDeep(depth: nat)
    | LoadFailed(hash: Hash)
    | ConnectFailed(height: nat, error: ConnectError)

  datatype ActivateResult =
    | AlreadyBest
    | Reorganized(oldTip: Hash, newTip: Hash, disconnected: nat, connected: nat)
    | NeedBlocks(missing: seq<Hash>)
    | Failed(error: ReorgError)

  ghost predicate Agrees(store: BlockStore, w: World) {
    forall h :: h in store.files ==> h in w.known && w.known[h] == store.files[h]
  }

  /** Every block of a path can be read. */
  predicate Readable(store: BlockStore, path: seq<HT.Entry>) {
    forall i :: 0 <= i < |path| ==> path[i].hash in store.files
  }

  lemma NothingToRead(store: BlockStore)
    ensures Readable(store, [])
  {
  }

  lemma ReadableNext(store: BlockStore, path: seq<HT.Entry>, k: nat)
    requires k < |path| && Readable(store, path[..k]) && path[k].hash in store.files
    ensures Readable(store, path[..k + 1])
  {
    assert path[..k + 1] == path[..k] + [path[k]];
  }

  // ---------- Down ----------

  /** Non-coinbase transactions of the blocks above height `n`, highest block first. */
  ghost function TxsAbove(w: World, tip: Hash, n: nat, top: nat): seq<Tx>
    requires Held(w, tip, top) && n <= top
    decreases top - n
  {
    if n == top then [] else TxsAbove(w, tip, n + 1, top) + NonCoinbases(w.known[HT.AncestorAt(w.tree, tip, n + 1)].txs)
  }

  predicate Sized(txs: seq<Tx>) {
    forall t :: t in txs ==> t.size > 0
  }

  lemma CheckedSized(b: Block)
    requires CheckedBlock(b)
    ensures Sized(b.txs)
  {
    forall t | t in b.txs
      ensures t.size > 0
    {
      var i :| 0 <= i < |b.txs| && b.txs[i] == t;
      assert CheckedTx(b.txs[i]);
    }
  }

  /** Disconnects the blocks of `path`, highest first. It stops early only at a block that
      cannot be loaded. */
  method DisconnectDown(cs: ChainState, store: BlockStore, path: seq<HT.Entry>, ghost w: World, ghost tip: Hash,
      ghost base: nat)
    returns (failed: Option<Hash>, txs: seq<Tx>, done: seq<HT.Entry>, ghost n: nat)
    requires Honest(w) && Agrees(store, w) && cs.rules == w.rules
    requires tip in w.tree && base <= w.tree[tip].height && path == HT.PathAbove(w.tree, tip, base)
    requires Stands(w, cs.Value(), tip, w.tree[tip].height)
    modifies cs
    ensures base <= n <= w.tree[tip].height && Stands(w, cs.Value(), tip, n) && Held(w, tip, w.tree[tip].height)
    ensures failed.None? ==> n == base && txs == TxsAbove(w, tip, base, w.tree[tip].height) && Readable(store, path)
    ensures failed.None? ==> |done| == |path| && forall i :: 0 <= i < |path| ==> done[i] == path[|path| - 1 - i]
    ensures failed.Some? ==> n > base && failed.value == HT.AncestorAt(w.tree, tip, n) && failed.value !in store.files
    ensures Sized(txs)
  {
    hide Honest, Stands, HT.AncestorAt, Disconnect, CheckedBlock, NonCoinbases, Agrees;
    txs, done := [], [];
    failed := None;
    ghost var top: nat := w.tree[tip].height;
    StandsHeld(w, cs.Value(), tip, top);
    n := top;
    var i := |path|;
    while i > 0
      invariant 0 <= i <= |path| && n == base + i && Stands(w, cs.Value(), tip, n)
      invariant txs == TxsAbove(w, tip, n, top) && Sized(txs)
      invariant |done| == |path| - i && forall j :: 0 <= j < |done| ==> done[j] == path[|path| - 1 - j]
      invariant Readable(store, path[i..])
    {
      var entry := path[i - 1];
      assert path[i - 1..] == [entry] + path[i..];
      assert entry == HT.Entry(HT.AncestorAt(w.tree, tip, n), n);
      if entry.hash !in store.files {
        return Some(entry.hash), txs, done, n;
      }
      var block := store.files[entry.hash];
      FileKnown(store, w, entry.hash);
      StepDown(w, cs.Value(), tip, n);
      var err := cs.DisconnectBlockAt(block, entry.height, entry.hash);
      if err.Some? {
        assert false;
      }
      BlockChecked(w, tip, n);
      CheckedSized(block);
      var more := DropCoinbases(block.txs);
      txs, done := txs + more, done + [entry];
      i, n := i - 1, n - 1;
    }
    assert path[0..] == path;
  }

  lemma StandsHeld(w: World, s: State, tip: Hash, n: nat)
    requires Stands(w, s, tip, n)
    ensures Held(w, tip, n) && s.height == n && s.tip == HT.AncestorAt(w.tree, tip, n)
  {
  }

  lemma FileKnown(store: BlockStore, w: World, h: Hash)
    requires Agrees(store, w) && h in store.files
    ensures h in w.known && w.known[h] == store.files[h]
  {
  }

  lemma BlockChecked(w: World, tip: Hash, k: nat)
    requires Honest(w) && tip in w.tree && 1 <= k <= w.tree[tip].height && HT.AncestorAt(w.tree, tip, k) in w.known
    ensures CheckedBlock(w.known[HT.AncestorAt(w.tree, tip, k)])
  {
    hide HT.AncestorAt;
    BranchHeader(w, tip, k);
  }

  // ---------- Up ----------

  /** The first `k` blocks of a branch are known, and they do not connect one after the other;
      so neither do any more of it. */
  ghost predicate Unreplayable(w: World, tip: Hash, k: nat) {
    Held(w, tip, k) && forall n :: k <= n && Held(w, tip, n) ==> ReplayUtxos(w.rules, Branch(w, tip, n)).Err?
  }

  lemma {:induction false} NeverReplays(w: World, tip: Hash, k: nat)
    requires Held(w, tip, k) && ReplayUtxos(w.rules, Branch(w, tip, k)).Err?
    ensures Unreplayable(w, tip, k)
  {
    hide Held, ReplayUtxos, Branch;
    forall n | k <= n && Held(w, tip, n)
      ensures ReplayUtxos(w.rules, Branch(w, tip, n)).Err?
    {
      if ReplayUtxos(w.rules, Branch(w, tip, n)).Ok? {
        ReplayPrefix(w, tip, n, k);
      }
    }
  }

  // ---------- The pool along a branch ----------

  /** The blocks of a branch above height `base`, up to height `n`. */
  ghost function Above(w: World, tip: Hash, base: nat, n: nat): seq<Block>
    requires Held(w, tip, n) && base <= n
  {
    Branch(w, tip, n)[base..]
  }

  /** What blocks leave of a pool, one after the other. */
  ghost function PoolAfter(txs: MS.Txs, blocks: seq<Block>): MS.Txs {
    if blocks == [] then txs else AfterBlock(PoolAfter(txs, blocks[..|blocks| - 1]), blocks[|blocks| - 1].txs)
  }

  /** The pool transactions that blocks confirm, one block after the other. */
  ghost function SetAside(txs: MS.Txs, blocks: seq<Block>): seq<Tx> {
    if blocks == [] then []
    else
      var init := blocks[..|blocks| - 1];
      SetAside(txs, init) + InPool(PoolAfter(txs, init).Keys, blocks[|blocks| - 1].txs)
  }

  /** The pool has followed a branch from height `base` to height `n`. */
  ghost predicate Followed(w: World, tip: Hash, base: nat, n: nat, before: MS.Txs, now: MS.Txs) {
    base <= n && Held(w, tip, n) && now == PoolAfter(before, Above(w, tip, base, n))
  }

  ghost predicate Aside(w: World, tip: Hash, base: nat, n: nat, before: MS.Txs, txs: seq<Tx>) {
    base <= n && Held(w, tip, n) && txs == SetAside(before, Above(w, tip, base, n))
  }

  lemma FollowedStart(w: World, tip: Hash, base: nat, txs: MS.Txs)
    requires Held(w, tip, base)
    ensures Followed(w, tip, base, base, txs, txs) && Aside(w, tip, base, base, txs, [])
  {
    assert Above(w, tip, base, base) == [];
  }

  lemma {:induction false} FollowedNext(w: World, tip: Hash, base: nat, n: nat, before: MS.Txs, mid: MS.Txs,
      txs: seq<Tx>, block: Block)
    requires Followed(w, tip, base, n, before, mid) && Aside(w, tip, base, n, before, txs)
    requires Held(w, tip, n + 1) && block == w.known[HT.AncestorAt(w.tree, tip, n + 1)]
    ensures Followed(w, tip, base, n + 1, before, AfterBlock(mid, block.txs))
    ensures Aside(w, tip, base, n + 1, before, txs + InPool(mid.Keys, block.txs))
  {
    hide AfterBlock, InPool, HT.AncestorAt;
    BranchNext(w, tip, n);
    var more, less := Above(w, tip, base, n + 1), Above(w, tip, base, n);
    assert more == less + [block];
    assert more[..|more| - 1] == less;
  }

  datatype ConnectOutcome = AllConnected | CannotLoad(hash: Hash) | Rejected(height: nat, why: ConnectError)

  lemma HeldNext(w: World, tip: Hash, n: nat)
    requires Held(w, tip, n) && n < w.tree[tip].height && HT.AncestorAt(w.tree, tip, n + 1) in w.known
    ensures Held(w, tip, n + 1)
  {
  }

  /** The non-coinbase transactions of a list that are in the pool, in order. */
  function InPool(ids: set<Hash>, txs: seq<Tx>): seq<Tx> {
    if txs == [] then []
    else
      var init, last := InPool(ids, txs[..|txs| - 1]), txs[|txs| - 1];
      if !last.IsCoinbase() && last.txid in ids then init + [last] else init
  }

  /** Pool transactions that the block confirms, kept for the case of a rollback. */
  method PoolTxsOf(pool: Mempool, txs: seq<Tx>) returns (r: seq<Tx>)
    requires Sized(txs)
    ensures r == InPool(pool.txs.Keys, txs)
    ensures forall t :: t in r <==> t in txs && !t.IsCoinbase() && t.txid in pool.txs
    ensures Sized(r)
  {
    r := [];
    var i := 0;
    while i < |txs|
      invariant 0 <= i <= |txs| && r == InPool(pool.txs.Keys, txs[..i])
      invariant forall t :: t in r <==> t in txs[..i] && !t.IsCoinbase() && t.txid in pool.txs
      invariant Sized(r)
    {
      assert txs[..i + 1][..i] == txs[..i];
      if !txs[i].IsCoinbase() && txs[i].txid in pool.txs {
        r := r + [txs[i]];
      }
      i := i + 1;
    }
    assert txs[..i] == txs;
  }

  /** Connects the blocks of `path`, lowest first, until one cannot be loaded or is invalid.
      A block is rejected only if the branch cannot be replayed. */
  method ConnectUp(cs: ChainState, pool: Mempool, store: BlockStore, path: seq<HT.Entry>, ghost w: World,
      ghost tip: Hash, ghost base: nat)
    returns (r: ConnectOutcome, connected: nat, removed: seq<Tx>)
    requires Honest(w) && Agrees(store, w) && cs.rules == w.rules && NoRepeats(w, tip)
    requires tip in w.tree && base <= w.tree[tip].height < MAX_U32 && path == HT.PathAbove(w.tree, tip, base)
    requires Stands(w, cs.Value(), tip, base) && MS.Inv(pool.Value())
    modifies cs, pool`txs, pool`spends, pool`totalSize
    ensures connected <= |path| && Stands(w, cs.Value(), tip, base + connected) && MS.Inv(pool.Value())
    ensures r.AllConnected? ==> connected == |path|
    ensures Readable(store, path[..connected])
    ensures r.CannotLoad? ==> connected < |path| && r.hash == path[connected].hash && r.hash !in store.files
    ensures r.Rejected? ==>
              && connected < |path| && r.height == base + connected + 1 && Unreplayable(w, tip, r.height)
              && path[connected].hash in store.files
    ensures Followed(w, tip, base, base + connected, old(pool.txs), pool.txs)
    ensures Aside(w, tip, base, base + connected, old(pool.txs), removed) && Sized(removed)
  {
    hide Honest, Stands, HT.AncestorAt, Connect, CheckedBlock, Agrees, NoRepeats, MS.Inv, Readable, Held,
         ReplayUtxos, InPool, Followed, Aside, AfterBlock, Unreplayable;
    connected, removed := 0, [];
    NothingToRead(store);
    StandsHeld(w, cs.Value(), tip, base);
    FollowedStart(w, tip, base, pool.txs);
    while connected < |path|
      invariant connected <= |path| && Stands(w, cs.Value(), tip, base + connected) && MS.Inv(pool.Value())
      invariant Sized(removed) && Readable(store, path[..connected])
      invariant Followed(w, tip, base, base + connected, old(pool.txs), pool.txs)
      invariant Aside(w, tip, base, base + connected, old(pool.txs), removed)
    {
      var entry := path[connected];
      ghost var n := base + connected;
      assert entry == HT.Entry(HT.AncestorAt(w.tree, tip, n + 1), n + 1);
      if entry.hash !in store.files {
        return CannotLoad(entry.hash), connected, removed;
      }
      var block := store.files[entry.hash];
      FileKnown(store, w, entry.hash);
      StandsHeld(w, cs.Value(), tip, n);
      HeldNext(w, tip, n);
      StepUp(w, cs.Value(), tip, n);
      RejectedEndsReplay(w, cs.Value(), tip, n);
      var err := cs.ConnectBlockAt(block, entry.height, entry.hash);
      if err.Some? {
        NeverReplays(w, tip, n + 1);
        return Rejected(entry.height, err.value), connected, removed;
      }
      BlockChecked(w, tip, n + 1);
      CheckedSized(block);
      var confirmed := PoolTxsOf(pool, block.txs);
      FollowedNext(w, tip, base, n, old(pool.txs), pool.txs, removed, block);
      removed := removed + confirmed;
      pool.RemoveBlockTxs(block.txs);
      ReadableNext(store, path, connected);
      connected := connected + 1;
    }
    r := AllConnected;
  }

  // ---------- Back ----------

  ghost predicate Lists(path: seq<HT.Entry>, h: Hash) {
    exists i :: 0 <= i < |path| && path[i].hash == h
  }

  /** Undoes a failed attempt. Neither of its two fatal exits can be reached. */
  method Rollback(cs: ChainState, store: BlockStore, connectedNew: seq<HT.Entry>, disconnectedOld: seq<HT.Entry>,
                  ghost w: World, ghost oldTip: Hash, ghost newTip: Hash, ghost fork: Hash)
    returns (failed: Option<Hash>, ghost on: Hash, ghost n: nat)
    requires Honest(w) && Agrees(store, w) && cs.rules == w.rules
    requires HT.IsAncestor(w.tree, fork, oldTip) && HT.IsAncestor(w.tree, fork, newTip)
    requires w.tree[oldTip].height < MAX_U32 && Held(w, oldTip, w.tree[oldTip].height)
    requires GoodChain(w.rules, w.genesis, Branch(w, oldTip, w.tree[oldTip].height))
    requires connectedNew <= HT.PathAbove(w.tree, newTip, w.tree[fork].height)
    requires Stands(w, cs.Value(), newTip, w.tree[fork].height + |connectedNew|)
    requires var path := HT.PathAbove(w.tree, oldTip, w.tree[fork].height);
             |disconnectedOld| == |path| && forall i :: 0 <= i < |path| ==> disconnectedOld[i] == path[|path| - 1 - i]
    modifies cs
    ensures Stands(w, cs.Value(), on, n) && on in {oldTip, newTip} && n >= w.tree[fork].height
    ensures failed.None? ==> on == oldTip && n == w.tree[oldTip].height
    ensures failed.Some? ==> failed.value !in store.files && (Lists(connectedNew, failed.value) || Lists(disconnectedOld, failed.value))
  {
    hide Honest, Stands, HT.AncestorAt, Connect, Disconnect, CheckedBlock, Agrees, NoRepeats, GoodChain, HT.IsForkPoint;
    ghost var base: nat := w.tree[fork].height;
    var i := |connectedNew|;
    while i > 0
      invariant 0 <= i <= |connectedNew| && Stands(w, cs.Value(), newTip, base + i)
    {
      var entry := connectedNew[i - 1];
      assert entry == HT.Entry(HT.AncestorAt(w.tree, newTip, base + i), base + i);
      if entry.hash !in store.files {
        return Some(entry.hash), newTip, base + i;
      }
      FileKnown(store, w, entry.hash);
      StepDown(w, cs.Value(), newTip, base + i);
      var err := cs.DisconnectBlockAt(store.files[entry.hash], entry.height, entry.hash);
      if err.Some? {
        assert false;
      }
      i := i - 1;
    }
    ChangeBranch(w, cs.Value(), newTip, oldTip, fork, base);
    failed, on, n := Reconnect(cs, store, disconnectedOld, w, oldTip, base);
  }

  method Reconnect(cs: ChainState, store: BlockStore, disconnectedOld: seq<HT.Entry>, ghost w: World,
      ghost tip: Hash, ghost base: nat)
    returns (failed: Option<Hash>, ghost on: Hash, ghost n: nat)
    requires Honest(w) && Agrees(store, w) && cs.rules == w.rules
    requires tip in w.tree && base <= w.tree[tip].height < MAX_U32 && Held(w, tip, w.tree[tip].height)
    requires GoodChain(w.rules, w.genesis, Branch(w, tip, w.tree[tip].height))
    requires Stands(w, cs.Value(), tip, base)
    requires var path := HT.PathAbove(w.tree, tip, base);
             |disconnectedOld| == |path| && forall i :: 0 <= i < |path| ==> disconnectedOld[i] == path[|path| - 1 - i]
    modifies cs
    ensures on == tip && base <= n <= w.tree[tip].height && Stands(w, cs.Value(), tip, n)
    ensures failed.None? ==> n == w.tree[tip].height
    ensures failed.Some? ==> failed.value !in store.files && Lists(disconnectedOld, failed.value)
  {
    hide Honest, Stands, HT.AncestorAt, Connect, CheckedBlock, Agrees, NoRepeats, GoodChain;
    ghost var top: nat := w.tree[tip].height;
    GoodNoRepeats(w, tip);
    var i := |disconnectedOld|;
    while i > 0
      invariant 0 <= i <= |disconnectedOld| && Stands(w, cs.Value(), tip, top - i)
    {
      var entry := disconnectedOld[i - 1];
      ghost var at: nat := top - i;
      assert entry == HT.PathAbove(w.tree, tip, base)[|disconnectedOld| - i] == HT.Entry(HT.AncestorAt(w.tree, tip, at + 1), at + 1);
      if entry.hash !in store.files {
        return Some(entry.hash), tip, at;
      }
      FileKnown(store, w, entry.hash);
      BranchPrefix(w, tip, top, at + 1);
      Reconnects(w, cs.Value(), tip, at, top);
      StepUp(w, cs.Value(), tip, at);
      var err := cs.ConnectBlockAt(store.files[entry.hash], entry.height, entry.hash);
      if err.Some? {
        assert false;
      }
      i := i - 1;
    }
    return None, tip, top;
  }

  // ---------- The whole operation ----------

  /** The hashes of a path that are not indexed, in order. */
  function Missing(index: set<Hash>, path: seq<HT.Entry>): seq<Hash> {
    if path == [] then []
    else
      var init, last := Missing(index, path[..|path| - 1]), path[|path| - 1].hash;
      if last in index then init else init + [last]
  }

  lemma {:induction false} NothingMissing(index: set<Hash>, path: seq<HT.Entry>)
    requires forall i :: 0 <= i < |path| ==> path[i].hash in index
    ensures Missing(index, path) == []
    decreases |path|
  {
    if path != [] {
      NothingMissing(index, path[..|path| - 1]);
    }
  }

  method MissingBlocks(index: set<Hash>, path: seq<HT.Entry>) returns (missing: seq<Hash>)
    ensures missing == Missing(index, path)
    ensures forall h :: h in missing <==> h !in index && Lists(path, h)
  {
    missing := [];
    var i := 0;
    while i < |path|
      invariant 0 <= i <= |path| && missing == Missing(index, path[..i])
      invariant forall h :: h in missing <==> h !in index && exists j :: 0 <= j < i && path[j].hash == h
    {
      assert path[..i + 1][..i] == path[..i];
      if path[i].hash !in index {
        missing := missing + [path[i].hash];
      }
      i := i + 1;
    }
    assert path[..i] == path;
  }

  ghost function WorldOf(headers: HeaderStore, cs: ChainState, known: map<Hash, Block>): World
    reads headers
  {
    World(cs.rules, headers.genesis, headers.byHash, known)
  }

  /** What the node guarantees between calls: stored blocks are checked and belong to their
      headers, the chain state is the replay of its branch, and along the best branch no block
      overwrites an unspent coin. */
  ghost predicate Consistent(headers: HeaderStore, cs: ChainState, store: BlockStore, known: map<Hash, Block>)
    reads headers, cs
  {
    var w := WorldOf(headers, cs, known);
    && headers.Valid() && Honest(w) && Agrees(store, w) && SafeBranch(w, headers.best.hash)
    && (cs.tip in headers.byHash ==> Stands(w, cs.Value(), cs.tip, headers.byHash[cs.tip].height))
  }

  ghost predicate SafeBranch(w: World, tip: Hash) {
    tip in w.tree && w.tree[tip].height < MAX_U32 && NoRepeats(w, tip)
  }

  /** Nothing changed. */
  twostate predicate Untouched(headers: HeaderStore, cs: ChainState, pool: Mempool)
    reads headers, cs, pool
  {
    headers.Value() == old(headers.Value()) && cs.Value() == old(cs.Value()) && pool.Value() == old(pool.Value())
  }

  /** The chain state is as before, up to leftover undo records. */
  twostate predicate Restored(cs: ChainState)
    reads cs
  {
    cs.utxos == old(cs.utxos) && cs.tip == old(cs.tip) && cs.tipHeight == old(cs.tipHeight)
  }

  datatype Plan = Stop(result: ActivateResult) | Go(fork: Hash, down: seq<HT.Entry>, up: seq<HT.Entry>)

  /** The two paths from the fork point, or the reason not to move. */
  ghost predicate PlanOk(tree: HT.Tree, index: set<Hash>, active: Hash, best: Hash, plan: Plan) {
    match plan
    case Stop(AlreadyBest) => active == best
    case Stop(Reorganized(_, _, _, _)) => false
    case Stop(NeedBlocks(missing)) =>
      && missing != [] && best in tree
      && exists fork :: HT.IsForkPoint(tree, active, best, fork) &&
           missing == Missing(index, HT.PathAbove(tree, best, tree[fork].height))
    case Stop(Failed(UnknownTip)) => active !in tree
    case Stop(Failed(DisconnectTooDeep(depth))) =>
      depth > MAX_REORG_DEPTH && exists fork :: HT.IsForkPoint(tree, active, best, fork) && depth == tree[active].height - tree[fork].height
    case Stop(Failed(ConnectTooDeep(depth))) =>
      depth > MAX_REORG_DEPTH && exists fork :: HT.IsForkPoint(tree, active, best, fork) && depth == tree[best].height - tree[fork].height
    case Stop(Failed(_)) => false
    case Go(fork, down, up) =>
      && active != best && HT.IsForkPoint(tree, active, best, fork)
      && down == HT.PathAbove(tree, active, tree[fork].height) && |down| <= MAX_REORG_DEPTH
      && up == HT.PathAbove(tree, best, tree[fork].height) && |up| <= MAX_REORG_DEPTH
      && forall i :: 0 <= i < |up| ==> up[i].hash in index
  }

  method MakePlan(headers: HeaderStore, activeHash: Hash, activeHeight: nat, store: BlockStore) returns (plan: Plan)
    requires HT.WellFormed(headers.byHash, headers.genesis) && headers.best.hash in headers.byHash
    requires activeHash in headers.byHash ==> headers.byHash[activeHash].height == activeHeight
    ensures PlanOk(headers.byHash, store.index, activeHash, headers.best.hash, plan)
  {
    hide HT.WellFormed, HT.Walk, Missing;
    var tree, best := headers.byHash, headers.best.hash;
    if best == activeHash {
      return Stop(AlreadyBest);
    }
    var fork := HT.FindForkPoint(tree, headers.genesis, activeHash, best);
    if fork.None? {
      return Stop(Failed(UnknownTip));
    }
    var forkHeight := tree[fork.value].height;
    var depth := if activeHeight >= forkHeight then activeHeight - forkHeight else 0;
    if depth > MAX_REORG_DEPTH {
      return Stop(Failed(DisconnectTooDeep(depth)));
    }
    var down := HT.GetPath(tree, headers.genesis, fork.value, activeHash);
    var up := HT.GetPath(tree, headers.genesis, fork.value, best);
    if |up.value| > MAX_REORG_DEPTH {
      return Stop(Failed(ConnectTooDeep(|up.value|)));
    }
    var missing := MissingBlocks(store.index, up.value);
    if missing != [] {
      return Stop(NeedBlocks(missing));
    }
    forall i | 0 <= i < |up.value|
      ensures up.value[i].hash in store.index
    {
      assert Lists(up.value, up.value[i].hash);
      assert up.value[i].hash !in missing;
    }
    return Go(fork.value, down.value, up.value);
  }

  /** Both branches and the chain state before the plan is carried out. */
  ghost predicate Planned(w: World, best: Hash, fork: Hash, down: seq<HT.Entry>, up: seq<HT.Entry>, s: State) {
    && Honest(w) && NoRepeats(w, best) && s.tip != best
    && HT.IsAncestor(w.tree, fork, s.tip) && HT.IsAncestor(w.tree, fork, best)
    && w.tree[best].height < MAX_U32 && Stands(w, s, s.tip, w.tree[s.tip].height)
    && down == HT.PathAbove(w.tree, s.tip, w.tree[fork].height)
    && up == HT.PathAbove(w.tree, best, w.tree[fork].height)
  }

  /** An unreadable block, and where it stopped the chain state: on the old branch it was the
      next block to disconnect, on the new one the next to connect. */
  ghost predicate StoppedBy(w: World, store: BlockStore, oldTip: Hash, best: Hash, fork: Hash, h: Hash, on: Hash,
      n: nat) {
    && h !in store.files && fork in w.tree && oldTip in w.tree && best in w.tree
    && ((on == oldTip && w.tree[fork].height < n <= w.tree[oldTip].height && HT.AncestorAt(w.tree, oldTip, n) == h) ||
        (on == best && w.tree[fork].height <= n < w.tree[best].height && HT.AncestorAt(w.tree, best, n + 1) == h))
  }

  /** The pool when the chain state stopped: untouched on the old branch, and on the new one it
      has followed as far as the chain state. */
  ghost predicate PoolStopped(w: World, oldTip: Hash, best: Hash, fork: Hash, on: Hash, n: nat, before: MS.Pool,
      now: MS.Pool) {
    && (on == oldTip ==> now == before)
    && (on == best ==> fork in w.tree && Followed(w, best, w.tree[fork].height, n, before.txs, now.txs))
  }

  /** The first `k` blocks of the new branch, from the fork point on, can be read. */
  ghost predicate ReadableTo(w: World, store: BlockStore, fork: Hash, best: Hash, k: nat) {
    && fork in w.tree && best in w.tree && k <= w.tree[best].height
    && forall j :: w.tree[fork].height < j <= k ==> HT.AncestorAt(w.tree, best, j) in store.files
  }

  /** Transactions offered to a pool, and what became of them. */
  datatype Offer = Offer(pool: MS.Pool, admitted: seq<Admission>, leftover: seq<Tx>)

  const NO_OFFER := Offer(MS.Pool(map[], map[], 0), [], [])

  /** After a rollback from height `k - 1` the pool is what the connected blocks left of it, with
      the transactions they had confirmed offered again. */
  ghost predicate Reoffered(verify: Verifier, maxSize: nat, w: World, best: Hash, base: nat, k: nat, before: MS.Txs,
                            utxos: Utxos, offer: Offer, after: MS.Pool) {
    && k > base && Followed(w, best, base, k - 1, before, offer.pool.txs) && MS.Inv(offer.pool)
    && exists txs :: Aside(w, best, base, k - 1, before, txs) &&
         Readded(verify, maxSize, utxos, offer.pool, txs, offer.admitted, offer.leftover, after)
  }

  /** The phases up to the point where the chain state is final. */
  method Move(cs: ChainState, pool: Mempool, store: BlockStore, best: Hash, fork: Hash, down: seq<HT.Entry>,
      up: seq<HT.Entry>, ghost w: World)
    returns (r: Option<ReorgError>, txs: seq<Tx>, ghost on: Hash, ghost n: nat, ghost offer: Offer)
    requires Agrees(store, w) && cs.rules == w.rules && MS.Inv(pool.Value())
    requires Planned(w, best, fork, down, up, cs.Value())
    modifies cs, pool`txs, pool`spends, pool`totalSize
    ensures MS.Inv(pool.Value()) && Sized(txs)
    ensures Stands(w, cs.Value(), on, n) && on in {old(cs.tip), best} && n >= w.tree[fork].height
    ensures match r
            case None =>
              && on == best && n == w.tree[best].height && Readable(store, down) && Readable(store, up)
              && Held(w, old(cs.tip), w.tree[old(cs.tip)].height)
              && txs == TxsAbove(w, old(cs.tip), w.tree[fork].height, w.tree[old(cs.tip)].height)
              && Followed(w, best, w.tree[fork].height, n, old(pool.txs), pool.txs)
            case Some(LoadFailed(h)) =>
              && StoppedBy(w, store, old(cs.tip), best, fork, h, on, n)
              && PoolStopped(w, old(cs.tip), best, fork, on, n, old(pool.Value()), pool.Value())
            case Some(ConnectFailed(k, _)) =>
              && on == old(cs.tip) && n == w.tree[old(cs.tip)].height && Unreplayable(w, best, k)
              && Readable(store, down) && ReadableTo(w, store, fork, best, k)
              && Reoffered(pool.verify, pool.maxSize, w, best, w.tree[fork].height, k, old(pool.txs), cs.utxos, offer, pool.Value())
            case Some(_) => false
  {
    hide Honest, Stands, HT.AncestorAt, Agrees, NoRepeats, MS.Inv, GoodChain, Unreplayable, Followed, Aside, Readded;
    offer := NO_OFFER;
    ghost var oldTip, base: nat := cs.tip, w.tree[fork].height;
    OldChainGood(w, cs.Value(), oldTip);
    var failed, removed, done, at := DisconnectDown(cs, store, down, w, oldTip, base);
    if failed.Some? {
      return Some(LoadFailed(failed.value)), [], oldTip, at, offer;
    }
    txs := removed;
    ChangeBranch(w, cs.Value(), oldTip, best, fork, base);
    var outcome, connected, confirmed := ConnectUp(cs, pool, store, up, w, best, base);
    match outcome
    case AllConnected =>
      assert up[..connected] == up;
      return None, txs, best, w.tree[best].height, offer;
    case CannotLoad(h) =>
      return Some(LoadFailed(h)), [], best, base + connected, offer;
    case Rejected(height, why) =>
      PathReadable(w, store, fork, best, connected);
      var lost, where, k := Rollback(cs, store, up[..connected], done, w, oldTip, best, fork);
      if lost.Some? {
        NothingUnread(store, down, done, up[..connected], lost.value);
        assert false;
      }
      ghost var mid := pool.Value();
      var restored, admitted, leftover := pool.ReaddDisconnectedTxs(confirmed, cs.utxos);
      offer := Offer(mid, admitted, leftover);
      return Some(ConnectFailed(height, why)), [], oldTip, w.tree[oldTip].height, offer;
  }

  /** Blocks that were read once are read again. */
  lemma NothingUnread(store: BlockStore, down: seq<HT.Entry>, done: seq<HT.Entry>, up: seq<HT.Entry>, h: Hash)
    requires Readable(store, down) && Readable(store, up)
    requires |done| == |down| && forall i :: 0 <= i < |down| ==> done[i] == down[|down| - 1 - i]
    ensures Lists(up, h) || Lists(done, h) ==> h in store.files
  {
    if Lists(done, h) {
      var i :| 0 <= i < |done| && done[i].hash == h;
      assert done[i] == down[|down| - 1 - i];
    }
  }

  lemma PathReadable(w: World, store: BlockStore, fork: Hash, best: Hash, n: nat)
    requires HT.IsAncestor(w.tree, fork, best)
    requires var up := HT.PathAbove(w.tree, best, w.tree[fork].height);
             n < |up| && Readable(store, up[..n]) && up[n].hash in store.files
    ensures ReadableTo(w, store, fork, best, w.tree[fork].height + n + 1)
  {
    hide HT.AncestorAt;
    var base, up := w.tree[fork].height, HT.PathAbove(w.tree, best, w.tree[fork].height);
    forall j | base < j <= base + n + 1
      ensures HT.AncestorAt(w.tree, best, j) in store.files
    {
      assert up[j - base - 1].hash == HT.AncestorAt(w.tree, best, j);
      assert j - base - 1 < n ==> up[..n][j - base - 1] == up[j - base - 1];
    }
  }

  lemma OldChainGood(w: World, s: State, tip: Hash)
    requires tip in w.tree && Stands(w, s, tip, w.tree[tip].height)
    ensures w.tree[tip].height < MAX_U32 && Held(w, tip, w.tree[tip].height)
    ensures GoodChain(w.rules, w.genesis, Branch(w, tip, w.tree[tip].height))
  {
    hide GoodChain, HT.AncestorAt;
    ReplayedUtxos(w.rules, w.genesis, s, Branch(w, tip, w.tree[tip].height));
    RepresentsHeight(w.rules, w.genesis, s, Branch(w, tip, w.tree[tip].height));
  }

  // ---------- Outcomes ----------

  /** The chain state is the replay of a whole branch. */
  ghost predicate AtTipOf(w: World, s: State, tip: Hash) {
    tip in w.tree && Stands(w, s, tip, w.tree[tip].height) && s.tip == tip
  }

  ghost predicate SwitchedTo(before: HS.Store, after: HS.Store, newTip: Hash) {
    && newTip in before.byHash && |before.activeChain| > 0
    && after == HF.Switched(before, newTip).(best := after.best)
    && HS.BestOk(after) && HS.Tip(after) == newTip
  }

  /** `down` and `up` count the blocks from the fork point to the two tips. */
  ghost predicate ShortPaths(tree: HT.Tree, oldTip: Hash, newTip: Hash, fork: Hash, down: nat, up: nat) {
    && down <= MAX_REORG_DEPTH && up <= MAX_REORG_DEPTH && oldTip in tree && newTip in tree
    && HT.IsForkPoint(tree, oldTip, newTip, fork)
    && tree[oldTip].height == tree[fork].height + down && tree[newTip].height == tree[fork].height + up
  }

  /** Every block from the fork point to the two tips can be read. */
  ghost predicate BothReadable(w: World, store: BlockStore, oldTip: Hash, newTip: Hash) {
    forall fork :: HT.IsForkPoint(w.tree, oldTip, newTip, fork) ==>
      && ReadableTo(w, store, fork, oldTip, w.tree[oldTip].height)
      && ReadableTo(w, store, fork, newTip, w.tree[newTip].height)
  }

  /** The pool has followed the new branch, and then the transactions of the old one were
      offered to it again. */
  ghost predicate OldTxsReadded(verify: Verifier, maxSize: nat, w: World, oldTip: Hash, best: Hash, fork: Hash,
      before: MS.Txs, utxos: Utxos, offer: Offer, after: MS.Pool) {
    && fork in w.tree && oldTip in w.tree && best in w.tree && Held(w, oldTip, w.tree[oldTip].height)
    && w.tree[fork].height <= w.tree[oldTip].height
    && Followed(w, best, w.tree[fork].height, w.tree[best].height, before, offer.pool.txs) && MS.Inv(offer.pool)
    && Readded(verify, maxSize, utxos, offer.pool, TxsAbove(w, oldTip, w.tree[fork].height, w.tree[oldTip].height),
               offer.admitted, offer.leftover, after)
  }

  /** What happened, for the contract: where the chain state stands, the fork point, and what
      became of the transactions of the old branch. */
  datatype Trace = Trace(on: Hash, n: nat, fork: Hash, offer: Offer)

  /** The header store follows, and the transactions of the old branch are offered again. */
  method Settle(headers: HeaderStore, pool: Mempool, utxos: Utxos, best: Hash, txs: seq<Tx>)
    returns (ghost admitted: seq<Admission>, ghost leftover: seq<Tx>)
    requires headers.Valid() && best == headers.best.hash && MS.Inv(pool.Value()) && Sized(txs)
    modifies headers, pool`txs, pool`spends, pool`totalSize
    ensures MS.Inv(pool.Value()) && headers.byHash == old(headers.byHash)
    ensures SwitchedTo(old(headers.Value()), headers.Value(), best) && headers.best.hash == best
    ensures headers.Valid() <==> Childless(old(headers.Value()), best)
    ensures old(HB.LeavesKnown(headers.Value())) ==> HB.LeavesKnown(headers.Value())
    ensures Readded(pool.verify, pool.maxSize, utxos, old(pool.Value()), txs, admitted, leftover, pool.Value())
  {
    hide MS.Inv, HS.Inv, HF.Switched, HS.BestOk, HS.HasChild, BestChosen, Readded, HW.Worked, HB.LeavesKnown;
    StoreShape(headers.Value(), headers.genesis);
    var ok := headers.SwitchActiveChain(best);
    SwitchedTip(old(headers.Value()), headers.Value(), best);
    SwitchedBest(old(headers.Value()), headers.Value(), headers.genesis);
    var readded;
    readded, admitted, leftover := pool.ReaddDisconnectedTxs(txs, utxos);
  }

  /** Switching to the best tip leaves it the best: no candidate has more work. */
  lemma {:induction false} SwitchedBest(s: HS.Store, t: HS.Store, genesis: Hash)
    requires HS.Inv(s, genesis) && s.best.hash in s.byHash && |s.activeChain| > 0
    requires t == HF.Switched(s, s.best.hash).(best := t.best) && HS.BestOk(t) && BestChosen(t)
    ensures t.best.hash == s.best.hash
  {
    hide HS.Shape;
    SwitchedTip(s, t, s.best.hash);
  }

  /** The active tip has no stored child, or is the new tip. */
  ghost predicate Childless(s: HS.Store, newTip: Hash) {
    |s.activeChain| > 0 && (HS.Tip(s) == newTip || !HS.HasChild(s.byHash, HS.Tip(s)))
  }

  /** The old branch can be read down to the fork point, the new one up to height `k`. */
  ghost predicate ReadableUntil(w: World, store: BlockStore, oldTip: Hash, newTip: Hash, fork: Hash, k: nat) {
    && HT.IsForkPoint(w.tree, oldTip, newTip, fork) && oldTip in w.tree
    && ReadableTo(w, store, fork, oldTip, w.tree[oldTip].height) && ReadableTo(w, store, fork, newTip, k)
  }

  /** `activate_best_chain`. Whatever happens, the chain state stands on one of the two
      branches. Success means it is the replay of the branch with the most work, and the
      header store's active chain ends at the same block. An invalid block leaves coins, tip
      and height as they were, and the branch given up cannot be replayed. Only a block of one
      of the two branches that cannot be read can leave the chain state part of the way, so
      with readable branches a failure is invisible. The next call finds everything consistent
      again, unless the header store was switched away from a tip with a stored child, or the
      branch that is best then overwrites unspent coins. */
  method ActivateBestChain(headers: HeaderStore, cs: ChainState, store: BlockStore, pool: Mempool,
      ghost known: map<Hash, Block>)
    returns (r: ActivateResult, ghost trace: Trace)
    requires Consistent(headers, cs, store, known) && MS.Inv(pool.Value())
    modifies headers, cs, pool`txs, pool`spends, pool`totalSize
    ensures MS.Inv(pool.Value()) && headers.byHash == old(headers.byHash)
    ensures Consistent(headers, cs, store, known) <==> headers.Valid() && SafeBranch(WorldOf(headers, cs, known), headers.best.hash)
    ensures headers.Valid() <==> (r.Reorganized? ==> Childless(old(headers.Value()), r.newTip))
    ensures old(HB.LeavesKnown(headers.Value())) ==> HB.LeavesKnown(headers.Value())
    ensures BothReadable(WorldOf(headers, cs, known), store, old(cs.tip), old(headers.best.hash)) ==>
              !(r.Failed? && r.error.LoadFailed?)
    ensures match r
            case AlreadyBest =>
              cs.tip == headers.best.hash && Untouched(headers, cs, pool)
            case NeedBlocks(_) =>
              PlanOk(headers.byHash, store.index, cs.tip, headers.best.hash, Stop(r)) && Untouched(headers, cs, pool)
            case Reorganized(oldTip, newTip, down, up) =>
              var w := WorldOf(headers, cs, known);
              && oldTip == old(cs.tip) && newTip == old(headers.best.hash) != oldTip
              && AtTipOf(w, cs.Value(), newTip)
              && SwitchedTo(old(headers.Value()), headers.Value(), newTip) && headers.best.hash == newTip
              && ShortPaths(headers.byHash, oldTip, newTip, trace.fork, down, up)
              && ReadableUntil(w, store, oldTip, newTip, trace.fork, headers.byHash[newTip].height)
              && OldTxsReadded(pool.verify, pool.maxSize, w, oldTip, newTip, trace.fork, old(pool.txs), cs.utxos, trace.offer, pool.Value())
            case Failed(ConnectFailed(k, _)) =>
              var w := WorldOf(headers, cs, known);
              && Restored(cs)
              && headers.activeChain == old(headers.activeChain) && headers.activeSet == old(headers.activeSet)
              && old(headers.best.hash) in headers.invalidTips && old(headers.best.hash) !in headers.tips
              && Unreplayable(w, old(headers.best.hash), k)
              && ReadableUntil(w, store, cs.tip, old(headers.best.hash), trace.fork, k)
              && |headers.activeChain| > 0
              && (headers.best.hash == old(headers.best.hash) <==> HS.Tip(headers.Value()) == old(headers.best.hash))
              && trace.fork in w.tree
              && Reoffered(pool.verify, pool.maxSize, w, old(headers.best.hash), w.tree[trace.fork].height, k, old(pool.txs), cs.utxos,
                           trace.offer, pool.Value())
            case Failed(LoadFailed(h)) =>
              var w := WorldOf(headers, cs, known);
              && headers.Value() == old(headers.Value())
              && HT.IsForkPoint(headers.byHash, old(cs.tip), headers.best.hash, trace.fork)
              && Stands(w, cs.Value(), trace.on, trace.n)
              && StoppedBy(w, store, old(cs.tip), headers.best.hash, trace.fork, h, trace.on, trace.n)
              && PoolStopped(w, old(cs.tip), headers.best.hash, trace.fork, trace.on, trace.n, old(pool.Value()), pool.Value())
            case Failed(_) =>
              PlanOk(headers.byHash, store.index, cs.tip, headers.best.hash, Stop(r)) && Untouched(headers, cs, pool)
  {
    hide Honest, Stands, HT.AncestorAt, Agrees, SafeBranch, MS.Inv, HS.Inv, Held, Unreplayable, HF.Switched, HS.BestOk,
         Missing, Readable, ReadableTo, StoppedBy, BothReadable, Reoffered, Childless, HT.IsForkPoint, Followed, Readded,
         PoolStopped, BestChosen, OldTxsReadded, HW.Worked, HB.LeavesKnown;
    ghost var w := WorldOf(headers, cs, known);
    trace := Trace(cs.tip, cs.tipHeight, cs.tip, NO_OFFER);
    var oldTip, best := cs.tip, headers.best.hash;
    StoreShape(headers.Value(), headers.genesis);
    if cs.tip in headers.byHash {
      StandsHeld(w, cs.Value(), cs.tip, headers.byHash[cs.tip].height);
    }
    var plan := MakePlan(headers, cs.tip, cs.tipHeight, store);
    if plan.Stop? {
      return plan.result, trace;
    }
    var Go(fork, down, up) := plan;
    GoPlanned(w, store, oldTip, best, fork, down, up, cs.Value());
    var err, txs;
    ghost var on, n, offer;
    err, txs, on, n, offer := Move(cs, pool, store, best, fork, down, up, w);
    StandsAtTip(w, cs.Value(), on, n);
    match err
    case None =>
      AtTip(w, cs.Value(), best);
      PathsReadable(w, store, fork, oldTip, down);
      PathsReadable(w, store, fork, best, up);
      ghost var mid := pool.Value();
      ghost var admitted, leftover := Settle(headers, pool, cs.utxos, best, txs);
      trace := Trace(on, n, fork, Offer(mid, admitted, leftover));
      assert OldTxsReadded(pool.verify, pool.maxSize, w, oldTip, best, fork, old(pool.txs), cs.utxos, trace.offer, pool.Value()) by {
        ReaddedOld(pool.verify, pool.maxSize, w, oldTip, best, fork, old(pool.txs), cs.utxos, trace.offer, pool.Value(), txs);
      }
      return Reorganized(oldTip, best, |down|, |up|), trace;
    case Some(LoadFailed(h)) =>
      StoppedUnreadable(w, store, oldTip, best, fork, h, on, n);
      trace := Trace(on, n, fork, offer);
      return Failed(LoadFailed(h)), trace;
    case Some(ConnectFailed(k, why)) =>
      PathsReadable(w, store, fork, oldTip, down);
      StandsUnique(w, old(cs.Value()), cs.Value(), oldTip, w.tree[oldTip].height);
      headers.MarkInvalid(best);
      trace := Trace(on, n, fork, offer);
      return Failed(ConnectFailed(k, why)), trace;
  }

  lemma ReaddedOld(verify: Verifier, maxSize: nat, w: World, oldTip: Hash, best: Hash, fork: Hash, before: MS.Txs,
      utxos: Utxos, offer: Offer, after: MS.Pool, txs: seq<Tx>)
    requires fork in w.tree && oldTip in w.tree && best in w.tree && Held(w, oldTip, w.tree[oldTip].height)
    requires w.tree[fork].height <= w.tree[oldTip].height
    requires txs == TxsAbove(w, oldTip, w.tree[fork].height, w.tree[oldTip].height)
    requires Followed(w, best, w.tree[fork].height, w.tree[best].height, before, offer.pool.txs) && MS.Inv(offer.pool)
    requires Readded(verify, maxSize, utxos, offer.pool, txs, offer.admitted, offer.leftover, after)
    ensures OldTxsReadded(verify, maxSize, w, oldTip, best, fork, before, utxos, offer, after)
  {
    hide Followed, Readded, MS.Inv, Held, TxsAbove;
  }

  /** A plan to move is one that can be carried out. */
  lemma GoPlanned(w: World, store: BlockStore, oldTip: Hash, best: Hash, fork: Hash, down: seq<HT.Entry>,
      up: seq<HT.Entry>, s: State)
    requires Honest(w) && SafeBranch(w, best) && PlanOk(w.tree, store.index, oldTip, best, Go(fork, down, up))
    requires s.tip == oldTip && (oldTip in w.tree ==> Stands(w, s, oldTip, w.tree[oldTip].height))
    ensures Planned(w, best, fork, down, up, s)
    ensures |down| == w.tree[oldTip].height - w.tree[fork].height && |up| == w.tree[best].height - w.tree[fork].height
    ensures |down| <= MAX_REORG_DEPTH && |up| <= MAX_REORG_DEPTH && HT.IsForkPoint(w.tree, oldTip, best, fork)
  {
    hide Honest, Stands, HT.Walk, NoRepeats;
  }

  lemma PathsReadable(w: World, store: BlockStore, fork: Hash, tip: Hash, path: seq<HT.Entry>)
    requires HT.IsAncestor(w.tree, fork, tip) && path == HT.PathAbove(w.tree, tip, w.tree[fork].height) && Readable(store, path)
    ensures ReadableTo(w, store, fork, tip, w.tree[tip].height)
  {
    hide HT.AncestorAt;
    var base := w.tree[fork].height;
    forall j | base < j <= w.tree[tip].height
      ensures HT.AncestorAt(w.tree, tip, j) in store.files
    {
      assert path[j - base - 1].hash == HT.AncestorAt(w.tree, tip, j);
    }
  }

  /** Whatever stopped the chain state is a block of one of the two branches. */
  lemma {:induction false} StoppedUnreadable(w: World, store: BlockStore, oldTip: Hash, best: Hash, fork: Hash,
      h: Hash, on: Hash, n: nat)
    requires StoppedBy(w, store, oldTip, best, fork, h, on, n) && HT.IsForkPoint(w.tree, oldTip, best, fork)
    ensures !BothReadable(w, store, oldTip, best)
  {
    hide HT.AncestorAt;
  }

  lemma StoreShape(s: HS.Store, genesis: Hash)
    requires HS.Inv(s, genesis)
    ensures HT.WellFormed(s.byHash, genesis) && |s.activeChain| > 0 && s.best.hash in s.byHash
  {
  }

  lemma AtTip(w: World, s: State, tip: Hash)
    requires tip in w.tree && Stands(w, s, tip, w.tree[tip].height)
    ensures s.tip == tip
  {
  }

  lemma SwitchedTip(s: HS.Store, t: HS.Store, newTip: Hash)
    requires newTip in s.byHash && |s.activeChain| > 0 && t == HF.Switched(s, newTip).(best := t.best)
    ensures t.byHash == s.byHash && |t.activeChain| > 0 && HS.Tip(t) == newTip
  {
  }
}
