/** The pool of unconfirmed transactions: index, descendants, and its relation to the set of
    unspent coins. */
module MempoolSpec {
  import opened Types

  datatype Entry = Entry(tx: Tx, fee: nat, size: nat)

  type Txs = map<Hash, Entry>

  datatype Pool = Pool(txs: Txs, spends: map<OutPoint, Hash>, totalSize: nat)

  // ---------- Invariant ----------

  /** Summed size of all entries. */
  ghost function SizeSum(txs: Txs): nat
    decreases |txs|
  {
    if txs == map[] then 0
    else
      var id :| id in txs;
      txs[id].size + SizeSum(txs - {id})
  }

  lemma {:induction false} SizeSumRemove(txs: Txs, id: Hash)
    requires id in txs
    ensures SizeSum(txs) == txs[id].size + SizeSum(txs - {id})
    decreases |txs|
  {
    var j :| j in txs && SizeSum(txs) == txs[j].size + SizeSum(txs - {j});
    if j != id {
      SizeSumRemove(txs - {j}, id);
      SizeSumRemove(txs - {id}, j);
      assert txs - {j} - {id} == txs - {id} - {j};
    }
  }

  ghost predicate EntryOk(txs: Txs, id: Hash)
    requires id in txs
  {
    var e := txs[id];
    e.tx.txid == id && e.size == e.tx.size > 0 && !e.tx.IsCoinbase()
  }

  /** The spending index holds exactly the inputs of the pool, each with its one spender. */
  ghost predicate IndexExact(txs: Txs, spends: map<OutPoint, Hash>) {
    && (forall id, p :: id in txs && p in Prevs(txs[id].tx.vin) ==> p in spends && spends[p] == id)
    && (forall p :: p in spends ==> spends[p] in txs && p in Prevs(txs[spends[p]].tx.vin))
  }

  ghost predicate Inv(pool: Pool) {
    && (forall id :: id in pool.txs ==> EntryOk(pool.txs, id))
    && IndexExact(pool.txs, pool.spends)
    && pool.totalSize == SizeSum(pool.txs)
  }

  /** The pool without one entry. */
  function Without(pool: Pool, id: Hash): Pool
    requires id in pool.txs && pool.totalSize >= pool.txs[id].size
  {
    Pool(pool.txs - {id}, pool.spends - Prevs(pool.txs[id].tx.vin), pool.totalSize - pool.txs[id].size)
  }

  lemma {:induction false} WithoutInv(pool: Pool, id: Hash)
    requires Inv(pool) && id in pool.txs
    ensures pool.totalSize >= pool.txs[id].size && Inv(Without(pool, id))
  {
    SizeSumRemove(pool.txs, id);
    var r := Without(pool, id);
    forall j, p | j in r.txs && p in Prevs(r.txs[j].tx.vin)
      ensures p in r.spends && r.spends[p] == j
    {
      assert pool.spends[p] == j;
    }
    forall p | p in r.spends
      ensures r.spends[p] in r.txs && p in Prevs(r.txs[r.spends[p]].tx.vin)
    {
      assert pool.spends[p] != id;
    }
    forall j | j in r.txs
      ensures EntryOk(r.txs, j)
    {
      assert EntryOk(pool.txs, j);
    }
  }

  // ---------- Descendants ----------

  /** `child` spends an output of `parent`. */
  ghost predicate ChildOf(txs: Txs, parent: Hash, child: Hash) {
    parent in txs && child in txs &&
    exists i :: 0 <= i < |txs[parent].tx.vout| && OutPoint(parent, i) in Prevs(txs[child].tx.vin)
  }

  ghost predicate IsLineage(txs: Txs, path: seq<Hash>) {
    && path != [] && (forall i :: 0 <= i < |path| ==> path[i] in txs)
    && forall i :: 0 < i < |path| ==> ChildOf(txs, path[i - 1], path[i])
  }

  /** `x` is `root` or reached from it by spending outputs. */
  ghost predicate Descends(txs: Txs, root: Hash, x: Hash) {
    exists path :: IsLineage(txs, path) && path[0] == root && path[|path| - 1] == x
  }

  lemma DescendsSelf(txs: Txs, root: Hash)
    requires root in txs
    ensures Descends(txs, root, root)
  {
    assert IsLineage(txs, [root]);
  }

  lemma DescendsStep(txs: Txs, root: Hash, x: Hash, y: Hash)
    requires Descends(txs, root, x) && ChildOf(txs, x, y)
    ensures Descends(txs, root, y)
  {
    var path :| IsLineage(txs, path) && path[0] == root && path[|path| - 1] == x;
    var longer := path + [y];
    assert IsLineage(txs, longer) by {
      forall i | 0 < i < |longer|
        ensures ChildOf(txs, longer[i - 1], longer[i])
      {
        if i < |path| {
          assert ChildOf(txs, path[i - 1], path[i]);
        }
      }
    }
    assert longer[0] == root && longer[|longer| - 1] == y;
  }

  /** A set that holds the root and all children of its members holds all descendants. */
  lemma {:induction false} ClosedHoldsDescendants(txs: Txs, members: set<Hash>, path: seq<Hash>)
    requires IsLineage(txs, path) && path[0] in members
    requires forall x, y :: x in members && ChildOf(txs, x, y) ==> y in members
    ensures path[|path| - 1] in members
    decreases |path|
  {
    if |path| > 1 {
      var init := path[..|path| - 1];
      assert IsLineage(txs, init) by {
        forall i | 0 < i < |init|
          ensures ChildOf(txs, init[i - 1], init[i])
        {
          assert ChildOf(txs, path[i - 1], path[i]);
        }
      }
      ClosedHoldsDescendants(txs, members, init);
      assert ChildOf(txs, path[|path| - 2], path[|path| - 1]);
    }
  }

  /** The entries that do not descend from `root`. */
  ghost function Pruned(txs: Txs, root: Hash): Txs {
    map id | id in txs && !Descends(txs, root, id) :: txs[id]
  }

  /** No kept transaction spends an output of a dropped one. */
  ghost predicate KeepsParents(txs: Txs, kept: Txs) {
    && (forall id :: id in kept ==> id in txs && kept[id] == txs[id])
    && forall x, y :: y in kept && ChildOf(txs, x, y) ==> x in kept
  }

  lemma {:induction false} PrunedKeepsParents(txs: Txs, root: Hash)
    ensures KeepsParents(txs, Pruned(txs, root))
  {
    forall x, y | y in Pruned(txs, root) && ChildOf(txs, x, y)
      ensures x in Pruned(txs, root)
    {
      if Descends(txs, root, x) {
        DescendsStep(txs, root, x, y);
      }
    }
  }

  lemma KeepsParentsTrans(a: Txs, b: Txs, c: Txs)
    requires KeepsParents(a, b) && KeepsParents(b, c)
    ensures KeepsParents(a, c)
  {
    forall x, y | y in c && ChildOf(a, x, y)
      ensures x in c
    {
      assert x in b;
      assert ChildOf(b, x, y);
    }
  }
}
