/** The mempool object. */
module MempoolClass {
  import opened Basics
  import opened Types
  import opened Utxo
  import opened MempoolSpec
  import opened MempoolRules
  import opened MempoolBlocks
  import opened MempoolOrder

  // ---------- Eviction ----------

  /** No entry has a lower fee rate. */
  ghost predicate LowestRate(txs: Txs, id: Hash) {
    && id in txs && txs[id].size > 0
    && forall j :: j in txs && txs[j].size > 0 ==> Rate(txs[id].fee, txs[id].size) <= Rate(txs[j].fee, txs[j].size)
  }

  /** While the pool is too large, an entry with the lowest fee rate goes, with its descendants. */
  ghost predicate EvictsTo(maxSize: nat, txs: Txs, victims: seq<Hash>, kept: Txs)
    decreases |victims|
  {
    if victims == [] then kept == txs
    else SizeSum(txs) > maxSize && LowestRate(txs, victims[0]) && EvictsTo(maxSize, Pruned(txs, victims[0]), victims[1..], kept)
  }

  /** Eviction until the pool fits. */
  ghost predicate Evicts(maxSize: nat, txs: Txs, victims: seq<Hash>, kept: Txs) {
    EvictsTo(maxSize, txs, victims, kept) && SizeSum(kept) <= maxSize
  }

  /** Nothing is evicted exactly if everything fits. */
  lemma {:induction false} EvictsNothingIff(maxSize: nat, txs: Txs, victims: seq<Hash>, kept: Txs)
    requires Evicts(maxSize, txs, victims, kept)
    ensures victims == [] <==> SizeSum(txs) <= maxSize
    ensures victims == [] ==> kept == txs
  {
  }

  lemma {:induction false} EvictsWithin(maxSize: nat, txs: Txs, victims: seq<Hash>, kept: Txs)
    requires EvictsTo(maxSize, txs, victims, kept)
    ensures forall id :: id in kept ==> id in txs
    decreases |victims|
  {
    hide SizeSum, Descends, LowestRate;
    if victims != [] {
      EvictsWithin(maxSize, Pruned(txs, victims[0]), victims[1..], kept);
    }
  }

  /** In a pool that is too large, an entry whose fee rate is below all others does not stay. */
  lemma {:induction false} LowestEvicted(maxSize: nat, txs: Txs, victims: seq<Hash>, kept: Txs, id: Hash)
    requires Evicts(maxSize, txs, victims, kept) && SizeSum(txs) > maxSize
    requires id in txs && forall j :: j in txs ==> txs[j].size > 0
    requires forall j :: j in txs && j != id ==> Rate(txs[id].fee, txs[id].size) < Rate(txs[j].fee, txs[j].size)
    ensures id !in kept
  {
    hide SizeSum, Rate, Descends;
    var v := victims[0];
    assert v == id;
    DescendsSelf(txs, id);
    EvictsWithin(maxSize, Pruned(txs, v), victims[1..], kept);
  }

  /** No transaction that stays has lost a parent. */
  lemma {:induction false} EvictionKeepsParents(maxSize: nat, txs: Txs, victims: seq<Hash>, kept: Txs)
    requires EvictsTo(maxSize, txs, victims, kept)
    ensures KeepsParents(txs, kept)
    decreases |victims|
  {
    hide SizeSum, Pruned;
    if victims != [] {
      EvictionKeepsParents(maxSize, Pruned(txs, victims[0]), victims[1..], kept);
      PrunedKeepsParents(txs, victims[0]);
      KeepsParentsTrans(txs, Pruned(txs, victims[0]), kept);
    }
  }

  lemma {:induction false} EvictsSnoc(maxSize: nat, txs: Txs, victims: seq<Hash>, mid: Txs, last: Hash)
    requires EvictsTo(maxSize, txs, victims, mid) && SizeSum(mid) > maxSize && LowestRate(mid, last)
    ensures EvictsTo(maxSize, txs, victims + [last], Pruned(mid, last))
    decreases |victims|
  {
    hide SizeSum, Pruned, LowestRate;
    if victims != [] {
      EvictsSnoc(maxSize, Pruned(txs, victims[0]), victims[1..], mid, last);
      assert (victims + [last])[1..] == victims[1..] + [last];
    } else {
      assert (victims + [last])[1..] == [];
    }
  }

  class Mempool {
    var txs: Txs
    var spends: map<OutPoint, Hash>
    var totalSize: nat
    const maxSize: nat
    const verify: Verifier

    constructor (maxSize: nat, verify: Verifier)
      ensures this.maxSize == maxSize && this.verify == verify && Value() == Pool(map[], map[], 0) && Inv(Value())
    {
      txs, spends, totalSize := map[], map[], 0;
      this.maxSize, this.verify := maxSize, verify;
    }

    ghost function Value(): Pool
      reads this
    {
      Pool(txs, spends, totalSize)
    }

    method RemoveEntry(id: Hash)
      requires Inv(Value()) && id in txs
      modifies this`txs, this`spends, this`totalSize
      ensures Inv(Value()) && txs == old(txs) - {id}
      ensures spends == old(spends) - Prevs(old(txs)[id].tx.vin)
    {
      hide Inv;
      WithoutInv(Value(), id);
      var entry := txs[id];
      txs := txs - {id};
      totalSize := totalSize - entry.size;
      spends := RemoveKeys(spends, entry.tx.vin);
    }

    /** Pool transactions that spend one of the first `n` outputs of `id`. */
    method FindSpenders(id: Hash, n: nat) returns (found: seq<Hash>)
      ensures forall c :: c in found <==> exists i :: 0 <= i < n && OutPoint(id, i) in spends && spends[OutPoint(id, i)] == c
    {
      found := [];
      var i := 0;
      while i < n
        invariant 0 <= i <= n
        invariant forall c :: c in found <==> exists j :: 0 <= j < i && OutPoint(id, j) in spends && spends[OutPoint(id, j)] == c
      {
        var p := OutPoint(id, i);
        if p in spends {
          found := found + [spends[p]];
        }
        i := i + 1;
      }
    }

    /** The worklist removal: exactly the transaction and its descendants go. */
    method RemoveWithDescendants(txid: Hash)
      requires Inv(Value())
      modifies this`txs, this`spends, this`totalSize
      ensures Inv(Value()) && txs == Pruned(old(txs), txid)
    {
      hide Inv, Descends, ChildOf;
      ghost var all, gone := txs, {};
      var work := [txid];
      if txid in txs {
        DescendsSelf(all, txid);
      }
      while work != []
        invariant Inv(Value()) && gone <= all.Keys && txs == all - gone
        invariant forall r :: r in gone ==> Descends(all, txid, r)
        invariant forall w :: w in work && w in all ==> Descends(all, txid, w)
        invariant forall x, y :: x in gone && ChildOf(all, x, y) ==> y in gone || y in work
        invariant txid in gone || txid in work || txid !in all
        decreases |txs|, |work|
      {
        var current := work[|work| - 1];
        ghost var before := work;
        work := work[..|work| - 1];
        assert forall w :: w in before ==> w in work || w == current;
        if current in txs {
          var n := |txs[current].tx.vout|;
          RemoveEntry(current);
          var found := FindSpenders(current, n);
          ChildrenFound(all, gone + {current}, Value(), current, found);
          forall c | c in found
            ensures c in all ==> Descends(all, txid, c)
          {
            DescendsStep(all, txid, current, c);
          }
          gone := gone + {current};
          work := work + found;
        } else {
          ChildrenStored(all);
        }
      }
      WorklistDone(all, gone, txid);
    }

    // ---------- Eviction ----------

    method FindLowestRate() returns (best: Hash)
      requires Inv(Value()) && txs != map[]
      ensures LowestRate(txs, best)
    {
      hide SizeSum, IndexExact, Rate;
      assert forall id :: id in txs ==> EntryOk(txs, id);
      best :| best in txs;
      var rest := txs.Keys - {best};
      while rest != {}
        invariant rest <= txs.Keys && best in txs
        invariant forall j :: j in txs && j !in rest ==> Rate(txs[best].fee, txs[best].size) <= Rate(txs[j].fee, txs[j].size)
        decreases |rest|
      {
        var id :| id in rest;
        if Rate(txs[id].fee, txs[id].size) < Rate(txs[best].fee, txs[best].size) {
          best := id;
        }
        rest := rest - {id};
      }
    }

    method EvictIfNeeded() returns (ghost victims: seq<Hash>)
      requires Inv(Value())
      modifies this`txs, this`spends, this`totalSize
      ensures Inv(Value()) && Evicts(maxSize, old(txs), victims, txs)
    {
      hide Pruned, LowestRate, IndexExact;
      victims := [];
      while totalSize > maxSize
        invariant Inv(Value()) && EvictsTo(maxSize, old(txs), victims, txs)
        decreases |txs|
      {
        if txs == map[] {
          assert false;
        }
        var worst := FindLowestRate();
        ghost var before := txs;
        RemoveWithDescendants(worst);
        EvictsSnoc(maxSize, old(txs), victims, before, worst);
        VictimLeaves(before, worst);
        victims := victims + [worst];
      }
    }

    // ---------- Acceptance ----------

    method SumInputValues(tx: Tx, utxos: Utxos) returns (r: Result<int, Reject>)
      ensures r == SumInputs(Value(), utxos, 0, tx.vin)
    {
      hide Resolve;
      var sum, i := 0, 0;
      assert tx.vin[0..] == tx.vin;
      while i < |tx.vin|
        invariant 0 <= i <= |tx.vin|
        invariant SumInputs(Value(), utxos, sum, tx.vin[i..]) == SumInputs(Value(), utxos, 0, tx.vin)
      {
        var p := tx.vin[i].prev;
        assert tx.vin[i..][0] == tx.vin[i] && tx.vin[i..][1..] == tx.vin[i + 1..];
        if p in spends {
          return Err(AlreadySpent);
        }
        var out := Resolve(txs, utxos, p);
        if out.None? {
          return Err(UnknownInput);
        }
        var next := CheckedAdd(sum, out.value.value);
        if next.None? {
          return Err(Overflow);
        }
        sum, i := next.value, i + 1;
      }
      return Ok(sum);
    }

    method CheckScripts(tx: Tx, utxos: Utxos) returns (ok: bool)
      ensures ok <==> ScriptsOk(verify, txs, utxos, tx)
    {
      var i := 0;
      while i < |tx.vin|
        invariant 0 <= i <= |tx.vin|
        invariant forall j :: 0 <= j < i ==> ScriptOk(verify, txs, utxos, tx, j)
      {
        var out := Resolve(txs, utxos, tx.vin[i].prev);
        if out.None? || !verify(tx.vin[i].scriptSig, out.value.script, tx, i) {
          assert !ScriptOk(verify, txs, utxos, tx, i);
          return false;
        }
        i := i + 1;
      }
      return true;
    }

    method CheckAccept(tx: Tx, utxos: Utxos) returns (r: Result<nat, Reject>)
      requires tx.size > 0
      ensures r == Evaluate(verify, Value(), utxos, tx)
    {
      hide SumInputs, ScriptsOk, CheckTransaction, Rate;
      if !CheckTransaction(tx) { return Err(Malformed); }
      if tx.IsCoinbase() { return Err(Coinbase); }
      if tx.size > MAX_TX_SIZE { return Err(TooLarge); }
      if tx.txid in txs { return Err(Duplicate); }
      var sum := SumInputValues(tx, utxos);
      if sum.Err? { return Err(sum.error); }
      var fee := sum.value - OutTotal(tx.vout);
      if fee < 0 { return Err(SpendsTooMuch); }
      if Rate(fee, tx.size) < MIN_RELAY_FEE_RATE { return Err(FeeTooLow); }
      var ok := CheckScripts(tx, utxos);
      if !ok { return Err(BadScript); }
      return Ok(fee);
    }

    /** A rejection changes nothing. An accepted transaction is inserted, then the pool is cut
        to its size limit; the promise about every transaction is kept. */
    method AcceptTx(tx: Tx, utxos: Utxos) returns (r: Result<Hash, Reject>, ghost victims: seq<Hash>)
      requires Inv(Value()) && tx.size > 0
      modifies this`txs, this`spends, this`totalSize
      ensures Inv(Value())
      ensures match Evaluate(verify, old(Value()), utxos, tx)
              case Err(e) => r == Err(e) && Value() == old(Value())
              case Ok(fee) => r == Ok(tx.txid) && Evicts(maxSize, Inserted(old(Value()), tx, fee).txs, victims, txs)
      ensures r.Ok? ==> (victims == [] <==> old(totalSize) + tx.size <= maxSize) && (victims == [] ==> tx.txid in txs)
      ensures Sound(verify, old(txs), utxos) ==>
                Sound(verify, txs, utxos) && (Orderable(old(txs), utxos) ==> Orderable(txs, utxos))
    {
      hide Inv, Evaluate, Sound, EvictsTo, SizeSum, KeepsParents, Orderable;
      victims := [];
      var fee := CheckAccept(tx, utxos);
      if fee.Err? {
        return Err(fee.error), [];
      }
      AcceptedSound(verify, Value(), utxos, tx);
      ghost var wasOrderable := Orderable(txs, utxos);
      if wasOrderable {
        AcceptedOrderable(verify, Value(), utxos, tx);
      }
      ghost var inserted := Inserted(Value(), tx, fee.value);
      spends := AddKeys(spends, tx);
      totalSize := totalSize + tx.size;
      txs := txs[tx.txid := Entry(tx, fee.value, tx.size)];
      assert Value() == inserted;
      victims := EvictIfNeeded();
      EvictionKeepsParents(maxSize, inserted.txs, victims, txs);
      EvictsNothingIff(maxSize, inserted.txs, victims, txs);
      SizeIsTotal(inserted);
      if Sound(verify, inserted.txs, utxos) {
        KeptSound(verify, inserted.txs, txs, utxos);
        if wasOrderable {
          KeptOrderable(verify, inserted.txs, txs, utxos);
        }
      }
      r := Ok(tx.txid);
    }

    // ---------- Blocks ----------

    /** Pool transactions other than `tx` that spend one of its inputs. */
    method FindConflicts(tx: Tx) returns (found: seq<Hash>)
      ensures forall c :: c in found <==> c != tx.txid && exists p :: p in tx.Inputs() && p in spends && spends[p] == c
    {
      found := [];
      if !tx.IsCoinbase() {
        var i := 0;
        while i < |tx.vin|
          invariant 0 <= i <= |tx.vin|
          invariant forall c :: c in found <==>
            c != tx.txid && exists j :: 0 <= j < i && tx.vin[j].prev in spends && spends[tx.vin[j].prev] == c
        {
          var p := tx.vin[i].prev;
          if p in spends && spends[p] != tx.txid {
            found := found + [spends[p]];
          }
          i := i + 1;
        }
      }
    }

    /** Confirmed transactions leave, and everything that now conflicts, with its descendants. */
    method RemoveBlockTxs(block: seq<Tx>)
      requires Inv(Value())
      modifies this`txs, this`spends, this`totalSize
      ensures Inv(Value()) && txs == AfterBlock(old(txs), block)
    {
      hide Inv, PrunedAll, Pruned, Conflicts, SpentBy;
      ghost var all := txs;
      var conflicting, i := [], 0;
      assert txs == txs - Ids(block[..0]);
      ConflictsNone(all);
      while i < |block|
        invariant 0 <= i <= |block| && Inv(Value())
        invariant txs == all - Ids(block[..i])
        invariant Collected(all, txs, block[..i], conflicting)
      {
        ghost var before := txs;
        if block[i].txid in txs {
          RemoveEntry(block[i].txid);
        }
        IdsSnoc(block, i);
        assert txs == before - {block[i].txid};
        var found := FindConflicts(block[i]);
        CollectNext(all, before, Value(), block, i, conflicting, found);
        conflicting, i := conflicting + found, i + 1;
      }
      assert block[..i] == block;
      ghost var left := txs;
      CollectedRoots(all, left, block, conflicting);
      i := 0;
      assert conflicting[0..] == conflicting;
      while i < |conflicting|
        invariant 0 <= i <= |conflicting| && Inv(Value())
        invariant PrunedAll(txs, Members(conflicting[i..])) == PrunedAll(left, Members(conflicting))
      {
        MembersStep(conflicting, i);
        if conflicting[i] in txs {
          PruneNext(txs, conflicting[i], Members(conflicting[i + 1..]));
          RemoveWithDescendants(conflicting[i]);
        } else {
          PruneAbsent(txs, Members(conflicting[i..]), Members(conflicting[i + 1..]));
        }
        i := i + 1;
      }
      PruneNothing(txs);
      assert conflicting[i..] == [];
    }

    // ---------- Transactions of disconnected blocks ----------

    /** One pass. If nothing was accepted, nothing changed and everything was rejected. */
    method ReaddPass(pending: seq<Tx>, utxos: Utxos) returns (accepted: nat, remaining: seq<Tx>,
        ghost admitted: seq<Admission>)
      requires Inv(Value()) && forall t :: t in pending ==> t.size > 0
      modifies this`txs, this`spends, this`totalSize
      ensures Inv(Value()) && accepted == |admitted|
      ensures Admits(verify, maxSize, utxos, old(Value()), admitted, Value())
      ensures multiset(remaining) + multiset(TxsOf(admitted)) == multiset(pending)
      ensures accepted == 0 ==>
                Value() == old(Value()) && forall t :: t in remaining ==> t.size > 0 && Evaluate(verify, Value(), utxos, t).Err?
      ensures Sound(verify, old(txs), utxos) ==>
                Sound(verify, txs, utxos) && (Orderable(old(txs), utxos) ==> Orderable(txs, utxos))
    {
      hide Inv, Evaluate, Sound, Evicts, Orderable;
      accepted, remaining, admitted := 0, [], [];
      var i := 0;
      while i < |pending|
        invariant 0 <= i <= |pending| && Inv(Value()) && accepted == |admitted|
        invariant Admits(verify, maxSize, utxos, old(Value()), admitted, Value())
        invariant multiset(remaining) + multiset(TxsOf(admitted)) == multiset(pending[..i])
        invariant accepted == 0 ==>
          Value() == old(Value()) && forall t :: t in remaining ==> t.size > 0 && Evaluate(verify, old(Value()), utxos, t).Err?
        invariant Sound(verify, old(txs), utxos) ==>
          Sound(verify, txs, utxos) && (Orderable(old(txs), utxos) ==> Orderable(txs, utxos))
      {
        ghost var before := Value();
        assert pending[..i + 1] == pending[..i] + [pending[i]];
        var r, victims := AcceptTx(pending[i], utxos);
        if r.Ok? {
          accepted := accepted + 1;
          ghost var a := Admission(pending[i], before, victims);
          AdmitNext(verify, maxSize, utxos, old(Value()), admitted, a, Value());
          admitted := admitted + [a];
        } else {
          remaining := remaining + [pending[i]];
        }
        i := i + 1;
      }
      assert pending[..i] == pending;
    }

    /** Passes until one accepts nothing. The pool goes from what it was to what it is by the
        admissions alone, and every non-coinbase transaction was admitted, or is left over and
        rejected by the final pool. */
    method ReaddDisconnectedTxs(disconnected: seq<Tx>, utxos: Utxos)
      returns (added: nat, ghost admitted: seq<Admission>, ghost leftover: seq<Tx>)
      requires Inv(Value()) && forall t :: t in disconnected ==> t.size > 0
      modifies this`txs, this`spends, this`totalSize
      ensures Inv(Value())
      ensures Sound(verify, old(txs), utxos) ==>
                Sound(verify, txs, utxos) && (Orderable(old(txs), utxos) ==> Orderable(txs, utxos))
      ensures added == |admitted| && Readded(verify, maxSize, utxos, old(Value()), disconnected, admitted, leftover, Value())
    {
      hide Inv, Evaluate, Sound, Orderable, Admits;
      var pending := DropCoinbases(disconnected);
      added, admitted := 0, [];
      var progress := true;
      NothingAdmitted(verify, maxSize, utxos, Value());
      while progress && pending != []
        invariant Inv(Value()) && added == |admitted| && Admits(verify, maxSize, utxos, old(Value()), admitted, Value())
        invariant multiset(pending) + multiset(TxsOf(admitted)) == multiset(NonCoinbases(disconnected))
        invariant forall t :: t in pending ==> t.size > 0
        invariant Sound(verify, old(txs), utxos) ==>
          Sound(verify, txs, utxos) && (Orderable(old(txs), utxos) ==> Orderable(txs, utxos))
        invariant !progress ==> forall t :: t in pending ==> t.size > 0 && Evaluate(verify, Value(), utxos, t).Err?
        decreases progress, |pending|
      {
        ghost var mid := Value();
        var accepted, remaining, more := ReaddPass(pending, utxos);
        AdmitAll(verify, maxSize, utxos, old(Value()), admitted, mid, more, Value());
        RemainingShorter(pending, remaining, TxsOf(more));
        added, admitted, pending, progress := added + accepted, admitted + more, remaining, accepted > 0;
      }
      leftover := pending;
    }
  }

  // ---------- Admissions ----------

  /** A transaction, the pool that accepted it, and what was evicted to make room. */
  datatype Admission = Admission(tx: Tx, pool: Pool, victims: seq<Hash>)

  /** Accepting one transaction leads from its pool to `after`. */
  ghost predicate AdmitsOne(verify: Verifier, maxSize: nat, utxos: Utxos, a: Admission, after: Pool) {
    && a.tx.size > 0 && Evaluate(verify, a.pool, utxos, a.tx).Ok? && Inv(after)
    && Evicts(maxSize, Inserted(a.pool, a.tx, Evaluate(verify, a.pool, utxos, a.tx).value).txs, a.victims, after.txs)
  }

  /** The admissions lead, one after the other, from `before` to `after`. */
  ghost predicate Admits(verify: Verifier, maxSize: nat, utxos: Utxos, before: Pool, admitted: seq<Admission>,
      after: Pool)
    decreases |admitted|
  {
    if admitted == [] then before == after
    else
      var init, last := admitted[..|admitted| - 1], admitted[|admitted| - 1];
      Admits(verify, maxSize, utxos, before, init, last.pool) && AdmitsOne(verify, maxSize, utxos, last, after)
  }

  /** What became of a list of transactions that was offered again. */
  ghost predicate Readded(verify: Verifier, maxSize: nat, utxos: Utxos, before: Pool, txs: seq<Tx>,
                          admitted: seq<Admission>, leftover: seq<Tx>, after: Pool) {
    && Admits(verify, maxSize, utxos, before, admitted, after)
    && (forall t :: t in leftover ==> t.size > 0 && Evaluate(verify, after, utxos, t).Err?)
    && multiset(leftover) + multiset(TxsOf(admitted)) == multiset(NonCoinbases(txs))
  }

  function TxsOf(admitted: seq<Admission>): (r: seq<Tx>)
    ensures |r| == |admitted|
    ensures forall i :: 0 <= i < |r| ==> r[i] == admitted[i].tx
  {
    seq(|admitted|, i requires 0 <= i < |admitted| => admitted[i].tx)
  }

  lemma NothingAdmitted(verify: Verifier, maxSize: nat, utxos: Utxos, pool: Pool)
    ensures Admits(verify, maxSize, utxos, pool, [], pool)
  {
  }

  lemma AdmitNext(verify: Verifier, maxSize: nat, utxos: Utxos, before: Pool, admitted: seq<Admission>, a: Admission,
      after: Pool)
    requires Admits(verify, maxSize, utxos, before, admitted, a.pool) && AdmitsOne(verify, maxSize, utxos, a, after)
    ensures Admits(verify, maxSize, utxos, before, admitted + [a], after)
    ensures multiset(TxsOf(admitted + [a])) == multiset(TxsOf(admitted)) + multiset{a.tx}
  {
    hide AdmitsOne;
    assert (admitted + [a])[..|admitted|] == admitted;
    assert TxsOf(admitted + [a]) == TxsOf(admitted) + [a.tx];
  }

  lemma {:induction false} AdmitAll(verify: Verifier, maxSize: nat, utxos: Utxos, before: Pool,
      admitted: seq<Admission>, mid: Pool, more: seq<Admission>, after: Pool)
    requires Admits(verify, maxSize, utxos, before, admitted, mid) && Admits(verify, maxSize, utxos, mid, more, after)
    ensures Admits(verify, maxSize, utxos, before, admitted + more, after)
    ensures multiset(TxsOf(admitted + more)) == multiset(TxsOf(admitted)) + multiset(TxsOf(more))
    decreases |more|
  {
    hide AdmitsOne;
    assert TxsOf(admitted + more) == TxsOf(admitted) + TxsOf(more);
    if more == [] {
      assert admitted + more == admitted;
    } else {
      var init, last := more[..|more| - 1], more[|more| - 1];
      AdmitAll(verify, maxSize, utxos, before, admitted, mid, init, last.pool);
      AdmitNext(verify, maxSize, utxos, before, admitted + init, last, after);
      assert admitted + init + [last] == admitted + more;
    }
  }

  lemma RemainingShorter(pending: seq<Tx>, remaining: seq<Tx>, taken: seq<Tx>)
    requires multiset(remaining) + multiset(taken) == multiset(pending)
    ensures |remaining| + |taken| == |pending|
    ensures forall t :: t in remaining ==> t in pending
  {
    assert |multiset(remaining)| + |multiset(taken)| == |multiset(pending)|;
    forall t | t in remaining
      ensures t in pending
    {
      assert t in multiset(remaining);
      assert t in multiset(pending);
    }
  }

  lemma SizeIsTotal(pool: Pool)
    requires Inv(pool)
    ensures SizeSum(pool.txs) == pool.totalSize
  {
  }

  // ---------- Loops over values ----------

  function NonCoinbases(txs: seq<Tx>): seq<Tx> {
    if txs == [] then []
    else NonCoinbases(txs[..|txs| - 1]) + if txs[|txs| - 1].IsCoinbase() then [] else [txs[|txs| - 1]]
  }

  method DropCoinbases(txs: seq<Tx>) returns (r: seq<Tx>)
    ensures r == NonCoinbases(txs)
    ensures forall t :: t in r ==> t in txs
  {
    r := [];
    var i := 0;
    while i < |txs|
      invariant 0 <= i <= |txs| && r == NonCoinbases(txs[..i])
      invariant forall t :: t in r ==> t in txs
    {
      assert txs[..i + 1][..i] == txs[..i];
      if !txs[i].IsCoinbase() {
        r := r + [txs[i]];
      }
      i := i + 1;
    }
    assert txs[..i] == txs;
  }

  method AddKeys(m: map<OutPoint, Hash>, tx: Tx) returns (r: map<OutPoint, Hash>)
    ensures r == m + Spending(tx)
  {
    r := m;
    var i := 0;
    while i < |tx.vin|
      invariant 0 <= i <= |tx.vin|
      invariant r == m + map p | p in Prevs(tx.vin[..i]) :: tx.txid
    {
      PrevsSnoc(tx.vin, i);
      r := r[tx.vin[i].prev := tx.txid];
      i := i + 1;
    }
    assert tx.vin[..i] == tx.vin;
  }

  method RemoveKeys(m: map<OutPoint, Hash>, vin: seq<TxIn>) returns (r: map<OutPoint, Hash>)
    ensures r == m - Prevs(vin)
  {
    r := m;
    var i := 0;
    while i < |vin|
      invariant 0 <= i <= |vin|
      invariant r == m - Prevs(vin[..i])
    {
      assert Prevs(vin[..i + 1]) == Prevs(vin[..i]) + {vin[i].prev} by {
        PrevsSnoc(vin, i);
      }
      r := r - {vin[i].prev};
      i := i + 1;
    }
    assert vin[..i] == vin;
  }

  lemma PrevsSnoc(vin: seq<TxIn>, i: nat)
    requires i < |vin|
    ensures Prevs(vin[..i + 1]) == Prevs(vin[..i]) + {vin[i].prev}
  {
    var a, b := vin[..i + 1], vin[..i];
    forall q | q in Prevs(a)
      ensures q in Prevs(b) + {vin[i].prev}
    {
      var k :| 0 <= k < |a| && a[k].prev == q;
      if k < i {
        assert b[k].prev == q;
      }
    }
    forall q | q in Prevs(b)
      ensures q in Prevs(a)
    {
      var k :| 0 <= k < |b| && b[k].prev == q;
      assert a[k].prev == q;
    }
    assert a[i].prev == vin[i].prev;
  }

  /** The spenders found in the index are the children that are still in the pool. */
  lemma ChildrenFound(all: Txs, gone: set<Hash>, pool: Pool, current: Hash, found: seq<Hash>)
    requires Inv(pool) && pool.txs == all - gone && current in all && current in gone
    requires forall c :: c in found <==>
               exists i :: 0 <= i < |all[current].tx.vout| && OutPoint(current, i) in pool.spends && pool.spends[OutPoint(current, i)] == c
    ensures forall c :: c in found ==> ChildOf(all, current, c)
    ensures forall c :: ChildOf(all, current, c) ==> c in gone || c in found
  {
    forall c | c in found
      ensures ChildOf(all, current, c)
    {
      var i :| 0 <= i < |all[current].tx.vout| && OutPoint(current, i) in pool.spends && pool.spends[OutPoint(current, i)] == c;
      assert c in pool.txs;
    }
    forall c | ChildOf(all, current, c) && c !in gone
      ensures c in found
    {
      var i :| 0 <= i < |all[current].tx.vout| && OutPoint(current, i) in Prevs(all[c].tx.vin);
      assert c in pool.txs;
      assert pool.spends[OutPoint(current, i)] == c;
    }
  }

  lemma ChildrenStored(txs: Txs)
    ensures forall x, y :: ChildOf(txs, x, y) ==> y in txs
  {
  }

  lemma WorklistDone(all: Txs, gone: set<Hash>, txid: Hash)
    requires gone <= all.Keys
    requires forall r :: r in gone ==> Descends(all, txid, r)
    requires forall x, y :: x in gone && ChildOf(all, x, y) ==> y in gone
    requires txid in gone || txid !in all
    ensures all - gone == Pruned(all, txid)
  {
    hide ChildOf;
    forall x | Descends(all, txid, x)
      ensures x in gone
    {
      var path :| IsLineage(all, path) && path[0] == txid && path[|path| - 1] == x;
      assert path[0] in all;
      ClosedHoldsDescendants(all, gone, path);
    }
  }

  lemma VictimLeaves(txs: Txs, id: Hash)
    requires LowestRate(txs, id)
    ensures |Pruned(txs, id)| < |txs|
  {
    DescendsSelf(txs, id);
    var kept := Pruned(txs, id);
    assert kept.Keys <= txs.Keys - {id};
    SubsetSize(kept.Keys, txs.Keys - {id});
    assert |kept| == |kept.Keys| && |txs| == |txs.Keys|;
  }

  // ---------- Conflicts collected along a block ----------

  function Members(ids: seq<Hash>): set<Hash> {
    set id | id in ids
  }

  lemma MembersStep(ids: seq<Hash>, i: nat)
    requires i < |ids|
    ensures Members(ids[i..]) == {ids[i]} + Members(ids[i + 1..])
  {
    assert ids[i..] == [ids[i]] + ids[i + 1..];
  }

  lemma IdsSnoc(block: seq<Tx>, i: nat)
    requires i < |block|
    ensures Ids(block[..i + 1]) == Ids(block[..i]) + {block[i].txid}
  {
    var a, b := block[..i + 1], block[..i];
    forall x | x in Ids(a)
      ensures x in Ids(b) + {block[i].txid}
    {
      var k :| 0 <= k < |a| && a[k].txid == x;
      assert k < i ==> b[k].txid == x;
    }
    forall x | x in Ids(b)
      ensures x in Ids(a)
    {
      var k :| 0 <= k < |b| && b[k].txid == x;
      assert a[k].txid == x;
    }
    assert a[i].txid == block[i].txid;
  }

  /** Every remaining entry that spends what the block spent is on the list, and the list holds
      only entries that do. */
  ghost predicate Collected(all: Txs, txs: Txs, block: seq<Tx>, list: seq<Hash>) {
    && (forall c :: c in txs && c in all && Conflicts(all, SpentBy(block), c) ==> c in list)
    && forall c :: c in list ==> c in all && Conflicts(all, SpentBy(block), c)
  }

  lemma ConflictsNone(all: Txs)
    ensures Collected(all, all, [], [])
  {
  }

  lemma CollectNext(all: Txs, before: Txs, pool: Pool, block: seq<Tx>, i: nat, list: seq<Hash>, found: seq<Hash>)
    requires i < |block| && Collected(all, before, block[..i], list)
    requires Inv(pool) && pool.txs == before - {block[i].txid} && forall id :: id in before ==> id in all && before[id] == all[id]
    requires forall c :: c in found <==> c != block[i].txid && exists p :: p in block[i].Inputs() && p in pool.spends && pool.spends[p] == c
    ensures Collected(all, pool.txs, block[..i + 1], list + found)
  {
    hide SizeSum;
    var tx, spent := block[i], SpentBy(block[..i]);
    assert block[..i + 1][..i] == block[..i];
    assert SpentBy(block[..i + 1]) == spent + tx.Inputs();
    forall c | c in pool.txs && Conflicts(all, spent + tx.Inputs(), c)
      ensures c in list + found
    {
      var p :| p in Prevs(all[c].tx.vin) && p in spent + tx.Inputs();
      assert p in Prevs(pool.txs[c].tx.vin);
      assert pool.spends[p] == c;
      if p in spent {
        assert Conflicts(all, spent, c);
      }
    }
    forall c | c in list + found
      ensures c in all && Conflicts(all, spent + tx.Inputs(), c)
    {
      if c in list {
        var p :| p in Prevs(all[c].tx.vin) && p in spent;
      } else {
        var p :| p in tx.Inputs() && p in pool.spends && pool.spends[p] == c;
        assert p in Prevs(pool.txs[c].tx.vin);
      }
    }
  }

  lemma CollectedRoots(all: Txs, left: Txs, block: seq<Tx>, list: seq<Hash>)
    requires Collected(all, left, block, list) && left == all - Ids(block)
    ensures PrunedAll(left, Members(list)) == AfterBlock(all, block)
  {
    var roots := Conflicting(left, SpentBy(block));
    forall r | r in left
      ensures r in Members(list) <==> r in roots
    {
      assert Conflicts(all, SpentBy(block), r) <==> Conflicts(left, SpentBy(block), r);
    }
    PruneAbsent(left, Members(list), roots);
  }

  lemma PruneNothing(txs: Txs)
    ensures PrunedAll(txs, Members([])) == txs
  {
  }
}
