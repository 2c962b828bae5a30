/** Batch validation of headers against one-by-one insertion. */
module HeaderBatch {
  import opened Basics
  import opened Types
  import opened HeaderTree
  import opened HeaderSpec
  import Compact
  import D = Difficulty

  /** A header of the batch that has passed, with its place in the chain. */
  datatype Pending = Pending(header: Header, height: nat, chainwork: nat)

  /** Each header names the one before it as its parent. */
  predicate Continuous(headers: seq<Header>) {
    forall i :: 0 < i < |headers| ==> headers[i].prevHash == headers[i - 1].hash
  }

  /** `BatchLookup`: pending headers first, then the store. */
  function BatchHeadAt(s: Store, pending: seq<Pending>, height: nat): Option<D.Head> {
    if |pending| > 0 && height >= pending[0].height && height - pending[0].height < |pending| then
      var h := pending[height - pending[0].height].header;
      Some(D.Head(h.timestamp, h.bits))
    else if height in ActiveLookup(s) then Some(ActiveLookup(s)[height])
    else None
  }

  function BatchLookup(s: Store, pending: seq<Pending>): D.Lookup {
    map k: nat | 0 <= k < BatchEnd(s, pending) && BatchHeadAt(s, pending, k).Some? :: BatchHeadAt(s, pending, k).value
  }

  /** Above this height the overlay is empty. */
  function BatchEnd(s: Store, pending: seq<Pending>): nat {
    Max(|s.activeChain|, if pending == [] then 0 else pending[0].height + |pending|)
  }

  function ParentWork(s: Store, pending: seq<Pending>, prev: Hash): nat
    decreases |pending|
  {
    if prev in s.byHash then s.byHash[prev].chainwork
    else if pending == [] then 0
    else if pending[|pending| - 1].header.hash == prev then pending[|pending| - 1].chainwork
    else ParentWork(s, pending[..|pending| - 1], prev)
  }

  function ShadowTip(s: Store, pending: seq<Pending>): Hash
    requires |s.activeChain| > 0
  {
    if pending == [] then Tip(s) else pending[|pending| - 1].header.hash
  }

  function ShadowHeight(s: Store, pending: seq<Pending>): nat
    requires |s.activeChain| > 0
  {
    if pending == [] then |s.activeChain| - 1 else pending[|pending| - 1].height
  }

  /** Phase 1 for one header: linkage, difficulty, checkpoint. Known headers are skipped. */
  function CheckOne(rules: HeaderRules, s: Store, pending: seq<Pending>, header: Header): Result<seq<Pending>,
      HeaderError>
    requires |s.activeChain| > 0
  {
    if header.hash in s.byHash then Ok(pending)
    else if header.prevHash != ShadowTip(s, pending) then Err(if header.prevHash in s.byHash then NotOnTip else Orphan)
    else
      var height := ShadowHeight(s, pending) + 1;
      if height > MAX_U32 then Err(HeightOverflow)
      else
        match rules.nextBits(height, BatchLookup(s, pending))
        case None => Err(MissingAncestor)
        case Some(bits) =>
          if header.bits != bits then Err(WrongBits)
          else if rules.checkpoint(height).Some? && rules.checkpoint(height).value != header.hash then Err(CheckpointMismatch)
          else
            var work := ParentWork(s, pending, header.prevHash) + Compact.WorkFromBits(header.bits);
            Ok(pending + [Pending(header, height, work)])
  }

  function CheckAll(rules: HeaderRules, s: Store, pending: seq<Pending>, headers: seq<Header>): Result<seq<Pending>,
      HeaderError>
    requires |s.activeChain| > 0
    decreases |headers|
  {
    if headers == [] then Ok(pending)
    else
      match CheckOne(rules, s, pending, headers[0])
      case Err(e) => Err(e)
      case Ok(p) => CheckAll(rules, s, p, headers[1..])
  }

  /** Phase 2: proof of work above the last checkpoint. */
  predicate PowPasses(rules: HeaderRules, pending: seq<Pending>) {
    forall i :: 0 <= i < |pending| ==> pending[i].height > rules.lastCheckpoint ==> rules.pow(pending[i].header)
  }

  function ValidateBatch(rules: HeaderRules, s: Store, headers: seq<Header>): Result<seq<Pending>, HeaderError>
    requires |s.activeChain| > 0
  {
    if !Continuous(headers) then Err(BrokenContinuity)
    else
      match CheckAll(rules, s, [], headers)
      case Err(e) => Err(e)
      case Ok(pending) => if PowPasses(rules, pending) then Ok(pending) else Err(BadProofOfWork)
  }

  /** `commit_to_memory`. */
  function Commit(s: Store, p: Pending): Store {
    Store(s.byHash[p.header.hash := Stored(p.header, p.height, p.chainwork)],
          s.activeChain + [p.header.hash],
          s.activeSet + {p.header.hash},
          NewTips(s.tips, p.header),
          Better(s, p.header.hash, p.chainwork),
          s.invalidTips)
  }

  function CommitAll(s: Store, pending: seq<Pending>): Store {
    if pending == [] then s else Commit(CommitAll(s, pending[..|pending| - 1]), pending[|pending| - 1])
  }

  /** One-by-one insertion. */
  function AddAll(rules: HeaderRules, s: Store, headers: seq<Header>): Result<Store, HeaderError>
    requires |s.activeChain| > 0
    decreases |headers|
  {
    if headers == [] then Ok(s)
    else
      match AddHeader(rules, s, headers[0])
      case Err(e) => Err(e)
      case Ok(s') => AddAll(rules, s', headers[1..])
  }

  // ---------- The overlay is the store the batch would become ----------

  /** The pending headers sit on the active tip, one above the other, and are new. */
  ghost predicate Stacked(s: Store, genesis: Hash, pending: seq<Pending>)
    decreases |pending|
  {
    pending == [] ||
    (var p := pending[|pending| - 1];
     var c := CommitAll(s, pending[..|pending| - 1]);
     && Stacked(s, genesis, pending[..|pending| - 1])
     && FitsOn(c, genesis, p))
  }

  ghost predicate FitsOn(c: Store, genesis: Hash, p: Pending) {
    && |c.activeChain| > 0 && p.header.prevHash == Tip(c)
    && Addable(c.byHash, genesis, p.header)
    && p.height == |c.activeChain|
    && p.chainwork == c.byHash[p.header.prevHash].chainwork + Compact.WorkFromBits(p.header.bits)
  }

  lemma CommitIsInsertion(c: Store, genesis: Hash, p: Pending)
    requires Inv(c, genesis) && FitsOn(c, genesis, p)
    ensures Commit(c, p) == WithHeader(c, p.header, true)
    ensures Inv(Commit(c, p), genesis)
  {
    hide Compact.WorkFromBits, WellFormed, WorkSums, TipsChildless;
    assert ActiveAt(c.byHash, c.activeChain, |c.activeChain| - 1);
    WithHeaderInv(c, genesis, p.header, true);
  }

  lemma {:induction false} StackedInv(s: Store, genesis: Hash, pending: seq<Pending>)
    requires Inv(s, genesis) && Stacked(s, genesis, pending)
    ensures Inv(CommitAll(s, pending), genesis)
    decreases |pending|
  {
    hide Inv, FitsOn, Commit;
    if pending != [] {
      var init := pending[..|pending| - 1];
      StackedInv(s, genesis, init);
      CommitIsInsertion(CommitAll(s, init), genesis, pending[|pending| - 1]);
    }
  }

  /** The committed store, field by field. */
  lemma {:induction false} StackedFields(s: Store, genesis: Hash, pending: seq<Pending>)
    requires Stacked(s, genesis, pending) && |s.activeChain| > 0
    ensures var c := CommitAll(s, pending);
            && |c.activeChain| == |s.activeChain| + |pending|
            && s.activeChain <= c.activeChain
            && (forall i :: 0 <= i < |pending| ==>
                  pending[i].height == |s.activeChain| + i && c.activeChain[|s.activeChain| + i] == pending[i].header.hash)
            && (forall i :: 0 <= i < |pending| ==>
                  pending[i].header.hash in c.byHash
                  && c.byHash[pending[i].header.hash] == Stored(pending[i].header, pending[i].height, pending[i].chainwork))
            && (forall h :: h in s.byHash ==> h in c.byHash && c.byHash[h] == s.byHash[h])
    decreases |pending|
  {
    hide Compact.WorkFromBits;
    if pending != [] {
      var n := |pending| - 1;
      var init := pending[..n];
      StackedFields(s, genesis, init);
      var c0, c := CommitAll(s, init), CommitAll(s, pending);
      forall i | 0 <= i < |pending|
        ensures pending[i].height == |s.activeChain| + i && c.activeChain[|s.activeChain| + i] == pending[i].header.hash
        ensures pending[i].header.hash in c.byHash
        ensures c.byHash[pending[i].header.hash] == Stored(pending[i].header, pending[i].height, pending[i].chainwork)
      {
        if i < n {
          assert pending[i] == init[i];
          assert c0.activeChain[|s.activeChain| + i] == init[i].header.hash;
        }
      }
    }
  }

  /** The hashes of the committed store are the old ones and the pending ones. */
  lemma {:induction false} StackedKeys(s: Store, pending: seq<Pending>, h: Hash)
    ensures h in CommitAll(s, pending).byHash <==>
            h in s.byHash || exists i :: 0 <= i < |pending| && pending[i].header.hash == h
    decreases |pending|
  {
    if pending != [] {
      var n := |pending| - 1;
      var init := pending[..n];
      StackedKeys(s, init, h);
      if exists i :: 0 <= i < |init| && init[i].header.hash == h {
        var i :| 0 <= i < |init| && init[i].header.hash == h;
        assert pending[i].header.hash == h;
      }
      if exists i :: 0 <= i < |pending| && pending[i].header.hash == h {
        var i :| 0 <= i < |pending| && pending[i].header.hash == h;
        if i < n {
          assert init[i].header.hash == h;
        }
      }
    }
  }

  lemma OverlayAt(s: Store, genesis: Hash, pending: seq<Pending>, k: nat)
    requires Inv(s, genesis) && Stacked(s, genesis, pending)
    ensures var c := CommitAll(s, pending);
            BatchHeadAt(s, pending, k) == if k in ActiveLookup(c) then Some(ActiveLookup(c)[k]) else None
  {
    hide CommitAll, Stacked, WellFormed, WorkSums, TipsChildless, BestOk, Members;
    StackedFields(s, genesis, pending);
    var c := CommitAll(s, pending);
    var n := |s.activeChain|;
    if k < n {
      assert ActiveAt(s.byHash, s.activeChain, k);
      assert c.activeChain[k] == s.activeChain[k];
    } else if k < n + |pending| {
      assert c.activeChain[n + (k - n)] == pending[k - n].header.hash;
    }
  }

  /** The overlay shows exactly what the active chain would be after committing. */
  lemma {:induction false} OverlayIsCommitted(s: Store, genesis: Hash, pending: seq<Pending>)
    requires Inv(s, genesis) && Stacked(s, genesis, pending)
    ensures BatchLookup(s, pending) == ActiveLookup(CommitAll(s, pending))
  {
    hide CommitAll, Stacked, Inv, BatchHeadAt;
    var c := CommitAll(s, pending);
    InvNonempty(s, genesis);
    StackedFields(s, genesis, pending);
    forall k: nat
      ensures (k in BatchLookup(s, pending) <==> k in ActiveLookup(c))
      ensures k in ActiveLookup(c) ==> BatchLookup(s, pending)[k] == ActiveLookup(c)[k]
    {
      OverlayAt(s, genesis, pending, k);
    }
  }

  lemma InvNonempty(s: Store, genesis: Hash)
    requires Inv(s, genesis)
    ensures |s.activeChain| > 0 && Tip(s) in s.byHash && genesis in s.byHash
  {
  }

  // ---------- One header ----------

  lemma ShadowFacts(s: Store, genesis: Hash, pending: seq<Pending>)
    requires Inv(s, genesis) && Stacked(s, genesis, pending)
    ensures |s.activeChain| > 0
    ensures var c := CommitAll(s, pending);
            && |c.activeChain| > 0 && Tip(c) in c.byHash
            && ShadowTip(s, pending) == Tip(c) && ShadowHeight(s, pending) + 1 == |c.activeChain|
            && ParentWork(s, pending, Tip(c)) == c.byHash[Tip(c)].chainwork
  {
    hide Inv, Compact.WorkFromBits;
    InvNonempty(s, genesis);
    StackedFields(s, genesis, pending);
    if pending != [] {
      var n := |pending| - 1;
      StackedFields(s, genesis, pending[..n]);
      assert CommitAll(s, pending).activeChain[|s.activeChain| + n] == pending[n].header.hash;
    }
  }

  ghost predicate Unseen(s: Store, genesis: Hash, pending: seq<Pending>, header: Header) {
    && header.hash !in s.byHash
    && (forall i :: 0 <= i < |pending| ==> pending[i].header.hash != header.hash)
    && genesis in s.byHash && header.hash != s.byHash[genesis].header.prevHash
  }

  lemma UnseenAddable(s: Store, genesis: Hash, pending: seq<Pending>, header: Header)
    requires Inv(s, genesis) && Stacked(s, genesis, pending) && Unseen(s, genesis, pending, header)
    requires header.prevHash == ShadowTip(s, pending)
    ensures Addable(CommitAll(s, pending).byHash, genesis, header)
  {
    hide Inv, Stacked, CommitAll;
    InvNonempty(s, genesis);
    ShadowFacts(s, genesis, pending);
    StackedFields(s, genesis, pending);
    StackedKeys(s, pending, header.hash);
  }

  /** A header that passes phase 1 goes on top of the pending ones. */
  lemma CheckOneStacks(rules: HeaderRules, s: Store, genesis: Hash, pending: seq<Pending>, header: Header)
    requires Inv(s, genesis) && Stacked(s, genesis, pending) && Unseen(s, genesis, pending, header)
    requires |s.activeChain| > 0 && CheckOne(rules, s, pending, header).Ok?
    ensures var one := CheckOne(rules, s, pending, header).value;
            && |one| == |pending| + 1 && pending <= one && one[|pending|].header == header
            && FitsOn(CommitAll(s, pending), genesis, one[|pending|])
            && Stacked(s, genesis, one)
  {
    hide Inv, CommitAll, Compact.WorkFromBits, BatchLookup, Addable;
    ShadowFacts(s, genesis, pending);
    var one := CheckOne(rules, s, pending, header).value;
    assert one[..|pending|] == pending;
    UnseenAddable(s, genesis, pending, header);
  }

  /** Phase 1 and the check of `add_header` agree, but for the proof of work. */
  lemma ChecksAgree(rules: HeaderRules, s: Store, genesis: Hash, pending: seq<Pending>, header: Header)
    requires Inv(s, genesis) && Stacked(s, genesis, pending) && Unseen(s, genesis, pending, header)
    ensures |s.activeChain| > 0 && |CommitAll(s, pending).activeChain| > 0
    ensures var one, add := CheckOne(rules, s, pending, header), AddHeader(rules, CommitAll(s, pending), header);
            add.Ok? <==> one.Ok? && (ShadowHeight(s, pending) + 1 > rules.lastCheckpoint ==> rules.pow(header))
  {
    hide Inv, Stacked, CommitAll, Compact.WorkFromBits, BatchLookup, ActiveLookup, WithHeader;
    ShadowFacts(s, genesis, pending);
    StackedKeys(s, pending, header.hash);
    OverlayIsCommitted(s, genesis, pending);
  }

  /** Checking a new header against the overlay is adding it to the committed store, but for
      the proof of work, which the batch checks at the end. */
  lemma CheckOneIsAdd(rules: HeaderRules, s: Store, genesis: Hash, pending: seq<Pending>, header: Header)
    requires Inv(s, genesis) && Stacked(s, genesis, pending) && Unseen(s, genesis, pending, header)
    ensures |s.activeChain| > 0 && |CommitAll(s, pending).activeChain| > 0
    ensures var one, add := CheckOne(rules, s, pending, header), AddHeader(rules, CommitAll(s, pending), header);
            && (one.Ok? ==>
                  && |one.value| == |pending| + 1 && pending <= one.value && one.value[|pending|].header == header
                  && Stacked(s, genesis, one.value))
            && (add.Ok? <==> one.Ok? && PowPasses(rules, one.value[|pending|..]))
            && (add.Ok? ==> add.value == CommitAll(s, one.value))
  {
    hide Inv, Stacked, CommitAll, CheckOne, WithHeader, Commit, Unseen, CheckWork;
    ChecksAgree(rules, s, genesis, pending, header);
    ShadowFacts(s, genesis, pending);
    var c, one := CommitAll(s, pending), CheckOne(rules, s, pending, header);
    if one.Ok? {
      CheckOneStacks(rules, s, genesis, pending, header);
      var p := one.value[|pending|];
      assert one.value == pending + [p] && one.value[|pending|..] == [p];
      StackedInv(s, genesis, pending);
      CommitIsInsertion(c, genesis, p);
      CommitAllStep(s, pending, p);
    }
  }

  lemma CommitAllStep(s: Store, pending: seq<Pending>, p: Pending)
    ensures CommitAll(s, pending + [p]) == Commit(CommitAll(s, pending), p)
  {
    assert (pending + [p])[..|pending|] == pending;
  }

  // ---------- A whole batch ----------

  lemma {:induction false} CheckAllPrefix(rules: HeaderRules, s: Store, pending: seq<Pending>, headers: seq<Header>)
    requires |s.activeChain| > 0 && CheckAll(rules, s, pending, headers).Ok?
    ensures pending <= CheckAll(rules, s, pending, headers).value
    decreases |headers|
  {
    if headers != [] {
      CheckAllPrefix(rules, s, CheckOne(rules, s, pending, headers[0]).value, headers[1..]);
    }
  }

  /** New headers, pairwise different. */
  ghost predicate AllUnseen(s: Store, genesis: Hash, pending: seq<Pending>, headers: seq<Header>) {
    && (forall i :: 0 <= i < |headers| ==> Unseen(s, genesis, pending, headers[i]))
    && (forall i, j :: 0 <= i < j < |headers| ==> headers[i].hash != headers[j].hash)
  }

  lemma UnseenAfter(s: Store, genesis: Hash, pending: seq<Pending>, headers: seq<Header>, next: seq<Pending>)
    requires headers != [] && AllUnseen(s, genesis, pending, headers)
    requires |next| == |pending| + 1 && pending <= next && next[|pending|].header == headers[0]
    ensures AllUnseen(s, genesis, next, headers[1..])
  {
    var rest := headers[1..];
    forall i | 0 <= i < |rest|
      ensures Unseen(s, genesis, next, rest[i])
    {
      assert rest[i] == headers[i + 1];
      assert Unseen(s, genesis, pending, headers[i + 1]);
    }
  }

  lemma PowSplit(rules: HeaderRules, pending: seq<Pending>, next: seq<Pending>)
    requires pending <= next
    ensures PowPasses(rules, next) <==> PowPasses(rules, pending) && PowPasses(rules, next[|pending|..])
  {
    var tail := next[|pending|..];
    if PowPasses(rules, pending) && PowPasses(rules, tail) {
      forall i | 0 <= i < |next|
        ensures next[i].height > rules.lastCheckpoint ==> rules.pow(next[i].header)
      {
        if i >= |pending| {
          assert next[i] == tail[i - |pending|];
        }
      }
    }
  }

  /** Checking the rest of a batch is adding it header by header. */
  lemma {:induction false} CheckAllIsAddAll(rules: HeaderRules, s: Store, genesis: Hash, pending: seq<Pending>,
      headers: seq<Header>)
    requires Inv(s, genesis) && Stacked(s, genesis, pending) && AllUnseen(s, genesis, pending, headers)
    requires PowPasses(rules, pending)
    ensures |s.activeChain| > 0 && |CommitAll(s, pending).activeChain| > 0
    ensures var batch, adds := CheckAll(rules, s, pending, headers), AddAll(rules, CommitAll(s, pending), headers);
            && (adds.Ok? <==> batch.Ok? && PowPasses(rules, batch.value))
            && (adds.Ok? ==> adds.value == CommitAll(s, batch.value))
    decreases |headers|
  {
    hide Inv, Stacked, CommitAll, CheckOne, AddHeader, Unseen, PowPasses;
    ShadowFacts(s, genesis, pending);
    if headers != [] {
      CheckOneIsAdd(rules, s, genesis, pending, headers[0]);
      var one := CheckOne(rules, s, pending, headers[0]);
      if one.Ok? {
        UnseenAfter(s, genesis, pending, headers, one.value);
        PowSplit(rules, pending, one.value);
        if PowPasses(rules, one.value) {
          CheckAllIsAddAll(rules, s, genesis, one.value, headers[1..]);
        } else if CheckAll(rules, s, one.value, headers[1..]).Ok? {
          CheckAllPrefix(rules, s, one.value, headers[1..]);
          PowSplit(rules, one.value, CheckAll(rules, s, one.value, headers[1..]).value);
        }
      }
    }
  }

  /** Number of leading headers the store knows. */
  function KnownCount(s: Store, headers: seq<Header>): (k: nat)
    ensures k <= |headers|
    ensures forall i :: 0 <= i < k ==> headers[i].hash in s.byHash
    ensures k < |headers| ==> headers[k].hash !in s.byHash
    decreases |headers|
  {
    if headers == [] || headers[0].hash !in s.byHash then 0 else 1 + KnownCount(s, headers[1..])
  }

  /** A hash identifies its header, and no header hashes to the null parent of genesis. */
  ghost predicate Consistent(s: Store, genesis: Hash, headers: seq<Header>) {
    && genesis in s.byHash
    && forall i :: 0 <= i < |headers| ==>
         && headers[i].hash != s.byHash[genesis].header.prevHash
         && (headers[i].hash in s.byHash ==> s.byHash[headers[i].hash].header == headers[i])
  }

  /** In a continuous batch the known headers come first. */
  lemma {:induction false} KnownFirst(s: Store, genesis: Hash, headers: seq<Header>, i: nat)
    requires Inv(s, genesis) && Consistent(s, genesis, headers) && Continuous(headers)
    requires KnownCount(s, headers) <= i < |headers|
    ensures headers[i].hash !in s.byHash
    decreases i
  {
    hide KnownCount, WorkSums, TipsChildless, BestOk;
    if i > KnownCount(s, headers) {
      var h := headers[i].hash;
      assert h in s.byHash && h != genesis ==> ParentOk(s.byHash, h);
      assert headers[i - 1].hash != s.byHash[genesis].header.prevHash;
      assert headers[i].prevHash == headers[i - 1].hash;
      KnownFirst(s, genesis, headers, i - 1);
    }
  }

  lemma {:induction false} KnownSkipped(rules: HeaderRules, s: Store, headers: seq<Header>)
    requires |s.activeChain| > 0
    ensures CheckAll(rules, s, [], headers) == CheckAll(rules, s, [], headers[KnownCount(s, headers)..])
    decreases |headers|
  {
    if headers != [] && headers[0].hash in s.byHash {
      KnownSkipped(rules, s, headers[1..]);
      assert headers[1..][KnownCount(s, headers[1..])..] == headers[KnownCount(s, headers)..];
    } else {
      assert headers[0..] == headers;
    }
  }

  /** Batch validation refines one-by-one insertion: a continuous batch of different headers
      passes exactly when its unknown part can be added header by header, and committing it
      gives the same store. */
  lemma {:induction false} BatchRefinesAdds(rules: HeaderRules, s: Store, genesis: Hash, headers: seq<Header>)
    requires Inv(s, genesis) && Consistent(s, genesis, headers)
    requires forall i, j :: 0 <= i < j < |headers| ==> headers[i].hash != headers[j].hash
    ensures |s.activeChain| > 0
    ensures var k := KnownCount(s, headers);
            var batch, adds := ValidateBatch(rules, s, headers), AddAll(rules, s, headers[k..]);
            && (batch.Ok? <==> Continuous(headers) && adds.Ok?)
            && (batch.Ok? ==> adds.value == CommitAll(s, batch.value))
            && (Continuous(headers) ==> forall i :: 0 <= i < |headers| ==> (headers[i].hash in s.byHash <==> i < k))
  {
    hide Inv, CheckAll, AddAll, Consistent, KnownCount, PowPasses;
    InvNonempty(s, genesis);
    var k := KnownCount(s, headers);
    if Continuous(headers) {
      forall i | 0 <= i < |headers|
        ensures headers[i].hash in s.byHash <==> i < k
      {
        KnownIff(s, genesis, headers, i);
      }
      var rest := headers[k..];
      NewUnseen(s, genesis, headers, k);
      NoPow(rules);
      CheckAllIsAddAll(rules, s, genesis, [], rest);
      KnownSkipped(rules, s, headers);
    }
  }

  lemma NoPow(rules: HeaderRules)
    ensures PowPasses(rules, [])
  {
  }

  lemma KnownIff(s: Store, genesis: Hash, headers: seq<Header>, i: nat)
    requires Inv(s, genesis) && Consistent(s, genesis, headers) && Continuous(headers) && i < |headers|
    ensures headers[i].hash in s.byHash <==> i < KnownCount(s, headers)
  {
    hide Inv;
    if i >= KnownCount(s, headers) {
      KnownFirst(s, genesis, headers, i);
    }
  }

  lemma NewUnseen(s: Store, genesis: Hash, headers: seq<Header>, k: nat)
    requires Consistent(s, genesis, headers) && k <= |headers|
    requires forall i, j :: 0 <= i < j < |headers| ==> headers[i].hash != headers[j].hash
    requires forall i :: k <= i < |headers| ==> headers[i].hash !in s.byHash
    ensures AllUnseen(s, genesis, [], headers[k..])
  {
    var rest := headers[k..];
    forall i | 0 <= i < |rest|
      ensures Unseen(s, genesis, [], rest[i])
    {
      assert rest[i] == headers[k + i];
    }
  }
}
