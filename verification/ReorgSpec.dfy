/** The chain state against the header tree: standing at some height of a branch, and the
    single steps between such states. */
module ReorgSpec {
  import opened Basics
  import opened Types
  import opened Utxo
  import opened UndoTheorems
  import opened ChainSpec
  import opened Replay
  import HT = HeaderTree

  /** Everything that identifies blocks: the genesis hash, the header tree, and the block that
      belongs to each hash that was ever stored. */
  datatype World = World(rules: Rules, genesis: Hash, tree: HT.Tree, known: map<Hash, Block>)

  /** Stored blocks were checked and carry the header their hash names. */
  ghost predicate Honest(w: World) {
    && HT.WellFormed(w.tree, w.genesis)
    && forall h :: h in w.known && h in w.tree ==> w.known[h].header == w.tree[h].header && CheckedBlock(w.known[h])
  }

  /** The blocks of a branch up to height `n` are known. */
  ghost predicate Held(w: World, tip: Hash, n: nat) {
    && tip in w.tree && n <= w.tree[tip].height
    && forall k :: 1 <= k <= n ==> HT.AncestorAt(w.tree, tip, k) in w.known
  }

  /** The blocks of a branch at heights 1 to `n`. */
  ghost function Branch(w: World, tip: Hash, n: nat): (chain: seq<Block>)
    requires Held(w, tip, n)
    ensures |chain| == n
    ensures forall k :: 0 <= k < n ==> chain[k] == w.known[HT.AncestorAt(w.tree, tip, k + 1)]
  {
    seq(n, k requires 0 <= k < n => w.known[HT.AncestorAt(w.tree, tip, k + 1)])
  }

  /** Along a branch no block overwrites an unspent coin. */
  ghost predicate NoRepeats(w: World, tip: Hash) {
    forall n: nat :: Held(w, tip, n + 1) && Held(w, tip, n) && ReplayUtxos(w.rules, Branch(w, tip, n)).Ok? ==>
      NoOverwrite(ReplayUtxos(w.rules, Branch(w, tip, n)).value, w.known[HT.AncestorAt(w.tree, tip, n + 1)].txs)
  }

  /** The chain state is the replay of the first `n` blocks of a branch. */
  ghost predicate Stands(w: World, s: State, tip: Hash, n: nat) {
    && Held(w, tip, n)
    && Represents(w.rules, w.genesis, s, Branch(w, tip, n))
    && s.tip == HT.AncestorAt(w.tree, tip, n) && s.height == n
  }

  lemma BranchPrefix(w: World, tip: Hash, n: nat, m: nat)
    requires Held(w, tip, n) && m <= n
    ensures Held(w, tip, m) && Branch(w, tip, n)[..m] == Branch(w, tip, m)
  {
  }

  lemma BranchNext(w: World, tip: Hash, n: nat)
    requires Held(w, tip, n + 1)
    ensures Held(w, tip, n)
    ensures Branch(w, tip, n + 1) == Branch(w, tip, n) + [w.known[HT.AncestorAt(w.tree, tip, n + 1)]]
  {
  }

  /** The header of a known block of a branch. */
  lemma BranchHeader(w: World, tip: Hash, k: nat)
    requires Honest(w) && tip in w.tree && 1 <= k <= w.tree[tip].height && HT.AncestorAt(w.tree, tip, k) in w.known
    ensures var h := HT.AncestorAt(w.tree, tip, k);
            && w.known[h].header.hash == h && CheckedBlock(w.known[h])
            && w.known[h].header.prevHash == HT.AncestorAt(w.tree, tip, k - 1)
  {
    hide HT.AncestorAt, CheckedBlock;
    HT.AncestorStored(w.tree, w.genesis, tip, k);
  }

  lemma BranchTip(w: World, tip: Hash, n: nat)
    requires Honest(w) && Held(w, tip, n)
    ensures TipOf(w.genesis, Branch(w, tip, n)) == HT.AncestorAt(w.tree, tip, n)
  {
    hide HT.AncestorAt, CheckedBlock, HT.WellFormed;
    HT.AncestorStored(w.tree, w.genesis, tip, 0);
    if n > 0 {
      BranchHeader(w, tip, n);
    }
  }

  // ---------- One step ----------

  /** Disconnecting the top block of the branch succeeds and stands one lower. */
  lemma {:induction false} StepDown(w: World, s: State, tip: Hash, n: nat)
    requires Honest(w) && Stands(w, s, tip, n) && n > 0
    ensures var h := HT.AncestorAt(w.tree, tip, n);
            && h in w.known && Disconnect(s, w.known[h], n, h).Ok?
            && Stands(w, Disconnect(s, w.known[h], n, h).value, tip, n - 1)
  {
    hide Represents, Disconnect, HT.WellFormed, HT.AncestorAt, CheckedBlock;
    var h := HT.AncestorAt(w.tree, tip, n);
    BranchHeader(w, tip, n);
    BranchPrefix(w, tip, n, n - 1);
    DisconnectShrinks(w.rules, w.genesis, s, Branch(w, tip, n));
    DisconnectTip(s, w.known[h], n, h);
  }

  lemma DisconnectTip(s: State, b: Block, n: nat, h: Hash)
    requires Disconnect(s, b, n, h).Ok?
    ensures n > 0 && Disconnect(s, b, n, h).value.tip == b.header.prevHash && Disconnect(s, b, n, h).value.height == n - 1
  {
    hide LoadUndo, DisconnectTxs;
  }

  lemma ConnectTip(rules: Rules, s: State, b: Block, n: nat, h: Hash)
    requires Connect(rules, s, b, n, h).Ok?
    ensures Connect(rules, s, b, n, h).value.tip == h && Connect(rules, s, b, n, h).value.height == n
  {
    hide ConnectBlock;
  }

  /** A successful connect of the next block of the branch stands one higher. */
  lemma {:induction false} StepUp(w: World, s: State, tip: Hash, n: nat)
    requires Honest(w) && Stands(w, s, tip, n) && Held(w, tip, n + 1) && n + 1 < MAX_U32 && NoRepeats(w, tip)
    ensures var h := HT.AncestorAt(w.tree, tip, n + 1);
            Connect(w.rules, s, w.known[h], n + 1, h).Ok? ==>
              Stands(w, Connect(w.rules, s, w.known[h], n + 1, h).value, tip, n + 1)
  {
    hide Connect, HT.WellFormed, HT.AncestorAt, CheckedBlock, NoOverwrite, Represents;
    var h := HT.AncestorAt(w.tree, tip, n + 1);
    if Connect(w.rules, s, w.known[h], n + 1, h).Ok? {
      BranchHeader(w, tip, n + 1);
      BranchNext(w, tip, n);
      BranchTip(w, tip, n);
      NextConnectable(w, s, tip, n);
      ConnectExtends(w.rules, w.genesis, s, Branch(w, tip, n), w.known[h]);
      ConnectTip(w.rules, s, w.known[h], n + 1, h);
    }
  }

  lemma BranchHashes(w: World, tip: Hash, n: nat)
    requires Honest(w) && Held(w, tip, n + 1)
    ensures Held(w, tip, n)
    ensures forall k :: 0 <= k < n ==> Branch(w, tip, n)[k].header.hash != w.known[HT.AncestorAt(w.tree, tip, n + 1)].header.hash
  {
    hide HT.WellFormed, HT.AncestorAt, CheckedBlock;
    BranchHeader(w, tip, n + 1);
    HT.AncestorStored(w.tree, w.genesis, tip, n + 1);
    forall k | 0 <= k < n
      ensures Branch(w, tip, n)[k].header.hash != HT.AncestorAt(w.tree, tip, n + 1)
    {
      BranchHeader(w, tip, k + 1);
      HT.AncestorStored(w.tree, w.genesis, tip, k + 1);
    }
  }

  lemma NextConnectable(w: World, s: State, tip: Hash, n: nat)
    requires Honest(w) && Stands(w, s, tip, n) && Held(w, tip, n + 1) && n + 1 < MAX_U32 && NoRepeats(w, tip)
    ensures Connectable(w.genesis, s, Branch(w, tip, n), w.known[HT.AncestorAt(w.tree, tip, n + 1)])
  {
    hide Honest, HT.AncestorAt, CheckedBlock, NoOverwrite, Represents, ReplayUtxos, TipOf, Branch;
    BranchHeader(w, tip, n + 1);
    BranchTip(w, tip, n);
    BranchHashes(w, tip, n);
    ReplayedUtxos(w.rules, w.genesis, s, Branch(w, tip, n));
  }

  lemma ReplayedUtxos(rules: Rules, genesis: Hash, s: State, chain: seq<Block>)
    requires Represents(rules, genesis, s, chain)
    ensures ReplayUtxos(rules, chain) == Ok(s.utxos) && GoodChain(rules, genesis, chain)
  {
  }

  /** Blocks that were once connected connect again. */
  lemma {:induction false} Reconnects(w: World, s: State, tip: Hash, n: nat, top: nat)
    requires Honest(w) && Stands(w, s, tip, n) && n < top && Held(w, tip, top)
    requires GoodChain(w.rules, w.genesis, Branch(w, tip, top))
    ensures var h := HT.AncestorAt(w.tree, tip, n + 1); h in w.known && Connect(w.rules, s, w.known[h], n + 1, h).Ok?
  {
    hide HT.WellFormed, HT.AncestorAt, CheckedBlock, NoOverwrite, Represents, ReplayUtxos, ConnectBlock;
    BranchPrefix(w, tip, top, n);
    ReplayedUtxos(w.rules, w.genesis, s, Branch(w, tip, n));
    assert Follows(w.rules, w.genesis, Branch(w, tip, top), n);
  }

  /** A chain that was connected overwrote nothing. */
  lemma GoodNoRepeats(w: World, tip: Hash)
    requires tip in w.tree && Held(w, tip, w.tree[tip].height)
    requires GoodChain(w.rules, w.genesis, Branch(w, tip, w.tree[tip].height))
    ensures NoRepeats(w, tip)
  {
    hide HT.AncestorAt, CheckedBlock, NoOverwrite, ReplayUtxos, ConnectBlock;
    var top := w.tree[tip].height;
    forall n: nat | Held(w, tip, n + 1) && Held(w, tip, n) && ReplayUtxos(w.rules, Branch(w, tip, n)).Ok?
      ensures NoOverwrite(ReplayUtxos(w.rules, Branch(w, tip, n)).value, w.known[HT.AncestorAt(w.tree, tip, n + 1)].txs)
    {
      BranchPrefix(w, tip, top, n);
      assert Follows(w.rules, w.genesis, Branch(w, tip, top), n);
    }
  }

  // ---------- Changing branches ----------

  lemma SharedAncestors(w: World, a: Hash, b: Hash, f: Hash, k: nat)
    requires Honest(w) && HT.IsAncestor(w.tree, f, a) && HT.IsAncestor(w.tree, f, b) && k <= w.tree[f].height
    ensures HT.AncestorAt(w.tree, a, k) == HT.AncestorAt(w.tree, b, k)
  {
    hide HT.WellFormed, HT.Walk;
    var n := w.tree[f].height;
    HT.WalkAdd(w.tree, a, w.tree[a].height - n, n - k);
    HT.WalkAdd(w.tree, b, w.tree[b].height - n, n - k);
  }

  /** At or below a common ancestor, standing on one branch is standing on the other. */
  lemma {:induction false} ChangeBranch(w: World, s: State, a: Hash, b: Hash, f: Hash, n: nat)
    requires Honest(w) && HT.IsAncestor(w.tree, f, a) && HT.IsAncestor(w.tree, f, b) && n <= w.tree[f].height
    requires Stands(w, s, a, n)
    ensures Stands(w, s, b, n)
  {
    hide HT.WellFormed, HT.AncestorAt, Represents;
    forall k | 0 <= k <= n
      ensures HT.AncestorAt(w.tree, a, k) == HT.AncestorAt(w.tree, b, k)
    {
      SharedAncestors(w, a, b, f, k);
    }
    assert Branch(w, a, n) == Branch(w, b, n);
  }

  /** Two chain states at the same height of the same branch agree on everything but leftover
      undo records. */
  lemma {:induction false} StandsUnique(w: World, s: State, t: State, tip: Hash, n: nat)
    requires Stands(w, s, tip, n) && Stands(w, t, tip, n)
    ensures s.utxos == t.utxos && s.tip == t.tip && s.height == t.height
  {
  }

  /** A block of a branch that does not connect on its parent ends the replay of the branch. */
  lemma {:induction false} RejectedEndsReplay(w: World, s: State, tip: Hash, n: nat)
    requires Honest(w) && Stands(w, s, tip, n) && Held(w, tip, n + 1) && n + 1 < MAX_U32
    ensures var h := HT.AncestorAt(w.tree, tip, n + 1);
            Connect(w.rules, s, w.known[h], n + 1, h).Ok? <==> ReplayUtxos(w.rules, Branch(w, tip, n + 1)).Ok?
  {
    hide HT.WellFormed, HT.AncestorAt, CheckedBlock, Represents, ConnectBlock;
    BranchNext(w, tip, n);
    ReplayedUtxos(w.rules, w.genesis, s, Branch(w, tip, n));
    assert Branch(w, tip, n + 1)[..n] == Branch(w, tip, n);
  }

  /** A branch replays only if all its prefixes do. */
  lemma {:induction false} ReplayPrefix(w: World, tip: Hash, n: nat, m: nat)
    requires Held(w, tip, n) && m <= n && ReplayUtxos(w.rules, Branch(w, tip, n)).Ok?
    ensures Held(w, tip, m) && ReplayUtxos(w.rules, Branch(w, tip, m)).Ok?
    decreases n - m
  {
    hide HT.AncestorAt, ConnectBlock;
    BranchPrefix(w, tip, n, m);
    if m < n {
      BranchPrefix(w, tip, n, n - 1);
      ReplayPrefix(w, tip, n - 1, m);
    }
  }

  /** A state on a branch stands at the top of the branch of its own tip. */
  lemma {:induction false} StandsAtTip(w: World, s: State, on: Hash, n: nat)
    requires Honest(w) && Stands(w, s, on, n)
    ensures s.tip in w.tree && w.tree[s.tip].height == n && Stands(w, s, s.tip, n)
  {
    hide HT.WellFormed, HT.Walk, Represents, CheckedBlock;
    HT.AncestorStored(w.tree, w.genesis, on, n);
    HT.ZeroWalk(w.tree, s.tip);
    assert HT.IsAncestor(w.tree, s.tip, s.tip);
    ChangeBranch(w, s, on, s.tip, s.tip, n);
  }
}
