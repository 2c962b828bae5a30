/** The header store object. */
module HeaderStoreClass {
  import opened Basics
  import opened Types
  import opened HeaderTree
  import opened HeaderSpec
  import opened HeaderBatch
  import opened HeaderForks
  import opened HeaderWork
  import opened HeaderBest
  import Compact
  import D = Difficulty

  const MAX_FORK_AGE := 1_000
  const MAX_FORK_HEADERS := 10_000

  class HeaderStore {
    const rules: HeaderRules
    const genesis: Hash
    var byHash: Tree
    var activeChain: seq<Hash>
    var activeSet: set<Hash>
    var tips: set<Hash>
    var best: Best
    var invalidTips: set<Hash>

    constructor (rules: HeaderRules, header: Header)
      requires header.prevHash != header.hash
      ensures Value() == Fresh(header) && this.rules == rules && genesis == header.hash && Valid() && Proven() && LeavesKnown(Value())
    {
      var work := Compact.WorkFromBits(header.bits);
      this.rules, genesis := rules, header.hash;
      byHash := map[header.hash := Stored(header, 0, work)];
      activeChain, activeSet, tips := [header.hash], {header.hash}, {header.hash};
      best, invalidTips := Best(header.hash, work), {};
      new;
      FreshInv(header);
      FreshLeaves(header);
    }

    ghost function Value(): Store
      reads this
    {
      Store(byHash, activeChain, activeSet, tips, best, invalidTips)
    }

    ghost predicate Valid()
      reads this
    {
      Inv(Value(), genesis)
    }

    /** Every header has the bits its ancestors require, and its proof of work. */
    ghost predicate Proven()
      reads this
    {
      Worked(rules, byHash, genesis)
    }

    /** A header that can be new: no header hashes to the null parent of genesis. */
    ghost predicate RealHash(h: Hash)
      reads this
    {
      genesis in byHash && h != byHash[genesis].header.prevHash
    }

    method InsertHeader(header: Header, height: nat, chainwork: nat, extend: bool)
      modifies this
      ensures Value() == Store(
        old(byHash)[header.hash := Stored(header, height, chainwork)],
        if extend then old(activeChain) + [header.hash] else old(activeChain),
        if extend then old(activeSet) + {header.hash} else old(activeSet),
        NewTips(old(tips), header), Better(old(Value()), header.hash, chainwork), old(invalidTips))
    {
      tips := tips - {header.prevHash} + {header.hash};
      byHash := byHash[header.hash := Stored(header, height, chainwork)];
      if extend {
        activeChain := activeChain + [header.hash];
        activeSet := activeSet + {header.hash};
      }
      if chainwork > best.work {
        best := Best(header.hash, chainwork);
      }
    }

    method Add(header: Header) returns (err: Option<HeaderError>)
      requires Valid() && RealHash(header.hash)
      modifies this
      ensures Valid()
      ensures LooksBack(rules) && old(Proven()) ==> Proven()
      ensures old(LeavesKnown(Value())) ==> LeavesKnown(Value())
      ensures match AddHeader(rules, old(Value()), header)
              case Err(e) => err == Some(e) && Value() == old(Value())
              case Ok(s) => err == None && Value() == s
    {
      hide Worked, LooksBack, LeavesKnown, WellFormed, WorkSums, TipsChildless, Compact.WorkFromBits;
      AddKeeps(rules, Value(), genesis, header);
      if header.hash in byHash {
        return Some(Duplicate);
      }
      var tip := activeChain[|activeChain| - 1];
      if header.prevHash != tip {
        return Some(if header.prevHash in byHash then NotOnTip else Orphan);
      }
      var height := |activeChain|;
      if height > MAX_U32 {
        return Some(HeightOverflow);
      }
      var e := CheckWork(rules, header, height, Lookup(), true);
      if e.Some? {
        return e;
      }
      var chainwork := byHash[tip].chainwork + Compact.WorkFromBits(header.bits);
      assert ActiveAt(byHash, activeChain, |activeChain| - 1);
      InsertHeader(header, height, chainwork, true);
      err := None;
    }

    function Lookup(): D.Lookup
      reads this
    {
      map i: nat | 0 <= i < |activeChain| && activeChain[i] in byHash :: HeadOf(byHash, activeChain[i])
    }

    /** The walk of `ForkLookup::build`. */
    method BuildForkLookup(start: Hash) returns (lookup: D.Lookup)
      requires Valid() && start in byHash
      ensures lookup == ForkLookup(Value(), start)
    {
      hide WellFormed, WorkSums, TipsChildless, Walk, BestOk, AncestorAt;
      var fork: D.Lookup := map[];
      var current := start;
      ghost var h: int := byHash[start].height;
      ZeroAncestor(byHash, start);
      while current !in activeSet
        invariant 0 <= h <= byHash[start].height
        invariant current == AncestorAt(byHash, start, h) && current in byHash
        invariant forall k: nat :: k in fork <==> h < k <= byHash[start].height
        invariant forall k: nat :: k in fork ==> HeadsAncestor(byHash, start, k, fork[k])
        decreases h
      {
        AncestorStored(byHash, genesis, start, h);
        GenesisActive(Value(), genesis);
        fork := fork[byHash[current].height := HeadOf(byHash, current)];
        current := byHash[current].header.prevHash;
        AncestorStored(byHash, genesis, start, h - 1);
        h := h - 1;
      }
      ForkHeadsAgree(Value(), genesis, start, h, fork);
      lookup := Lookup() + fork;
    }

    method Accept(header: Header) returns (r: Result<AcceptResult, HeaderError>)
      requires Valid() && RealHash(header.hash)
      modifies this
      ensures Valid()
      ensures LooksBack(rules) && old(Proven()) ==> Proven()
      ensures old(LeavesKnown(Value())) ==> LeavesKnown(Value())
      ensures match AcceptHeader(rules, old(Value()), header)
              case Err(e) => r == Err(e) && Value() == old(Value())
              case Ok((s, a)) => r == Ok(a) && Value() == s
    {
      hide Worked, LooksBack, LeavesKnown, Inv, Compact.WorkFromBits, ForkLookup, CheckWork;
      AcceptKeeps(rules, Value(), genesis, header);
      if header.hash in byHash {
        return Ok(AlreadyKnown);
      }
      if header.prevHash in invalidTips {
        return Err(ExtendsInvalid);
      }
      if header.prevHash !in byHash {
        return Err(Orphan);
      }
      var parent := byHash[header.prevHash];
      var height := parent.height + 1;
      if height > MAX_U32 {
        return Err(HeightOverflow);
      }
      var chainwork := parent.chainwork + Compact.WorkFromBits(header.bits);
      var lookup := BuildForkLookup(header.prevHash);
      var e := CheckWork(rules, header, height, lookup, false);
      if e.Some? {
        return Err(e.value);
      }
      var better := chainwork > best.work;
      var onTip := activeChain[|activeChain| - 1] == header.prevHash;
      InsertHeader(header, height, chainwork, better && onTip);
      return Ok(if better && !onTip then NeedReorg else Accepted);
    }

    // ---------- Batches ----------

    method IsContinuous(headers: seq<Header>) returns (ok: bool)
      ensures ok <==> Continuous(headers)
    {
      var i := 1;
      while i < |headers|
        invariant 1 <= i
        invariant forall j :: 0 < j < i && j < |headers| ==> headers[j].prevHash == headers[j - 1].hash
      {
        if headers[i].prevHash != headers[i - 1].hash {
          return false;
        }
        i := i + 1;
      }
      return true;
    }

    /** Phase 1: the sequential pass with the shadow tip. */
    method CheckSequence(headers: seq<Header>) returns (r: Result<seq<Pending>, HeaderError>)
      requires |activeChain| > 0
      ensures r == CheckAll(rules, Value(), [], headers)
    {
      hide CheckOne;
      var pending: seq<Pending> := [];
      var i := 0;
      while i < |headers|
        invariant 0 <= i <= |headers|
        invariant CheckAll(rules, Value(), pending, headers[i..]) == CheckAll(rules, Value(), [], headers)
      {
        assert headers[i..][1..] == headers[i + 1..];
        var one := CheckNext(pending, headers[i]);
        if one.Err? {
          return Err(one.error);
        }
        pending := one.value;
        i := i + 1;
      }
      return Ok(pending);
    }

    method CheckNext(pending: seq<Pending>, header: Header) returns (r: Result<seq<Pending>, HeaderError>)
      requires |activeChain| > 0
      ensures r == CheckOne(rules, Value(), pending, header)
    {
      hide BatchLookup, Compact.WorkFromBits;
      if header.hash in byHash {
        return Ok(pending);
      }
      var n := |pending|;
      var shadowHash := if n == 0 then activeChain[|activeChain| - 1] else pending[n - 1].header.hash;
      var shadowHeight := if n == 0 then |activeChain| - 1 else pending[n - 1].height;
      if header.prevHash != shadowHash {
        return Err(if header.prevHash in byHash then NotOnTip else Orphan);
      }
      var height := shadowHeight + 1;
      if height > MAX_U32 {
        return Err(HeightOverflow);
      }
      var s := Store(byHash, activeChain, activeSet, tips, best, invalidTips);
      var expected := rules.nextBits(height, BatchLookup(s, pending));
      if expected.None? {
        return Err(MissingAncestor);
      }
      if header.bits != expected.value {
        return Err(WrongBits);
      }
      var checkpoint := rules.checkpoint(height);
      if checkpoint.Some? && checkpoint.value != header.hash {
        return Err(CheckpointMismatch);
      }
      var parentWork := FindParentWork(pending, header.prevHash);
      return Ok(pending + [Pending(header, height, parentWork + Compact.WorkFromBits(header.bits))]);
    }

    method FindParentWork(pending: seq<Pending>, prev: Hash) returns (work: nat)
      ensures work == ParentWork(Value(), pending, prev)
    {
      if prev in byHash {
        return byHash[prev].chainwork;
      }
      var i := |pending|;
      assert pending[..i] == pending;
      while i > 0
        invariant 0 <= i <= |pending|
        invariant ParentWork(Value(), pending[..i], prev) == ParentWork(Value(), pending, prev)
      {
        i := i - 1;
        assert pending[..i + 1][..i] == pending[..i];
        if pending[i].header.hash == prev {
          return pending[i].chainwork;
        }
      }
      return 0;
    }

    /** `validate_and_commit`: a failing batch changes nothing. */
    method ValidateAndCommit(headers: seq<Header>) returns (r: Result<seq<Pending>, HeaderError>)
      requires Valid() && Consistent(Value(), genesis, headers)
      requires forall i, j :: 0 <= i < j < |headers| ==> headers[i].hash != headers[j].hash
      modifies this
      ensures Valid()
      ensures LooksBack(rules) && old(Proven()) ==> Proven()
      ensures old(LeavesKnown(Value())) ==> LeavesKnown(Value())
      ensures r == ValidateBatch(rules, old(Value()), headers)
      ensures Value() == if r.Ok? then CommitAll(old(Value()), r.value) else old(Value())
    {
      hide Worked, LooksBack, LeavesKnown, Inv, CheckAll, CommitAll, Consistent, Stacked;
      InvNonempty(Value(), genesis);
      var ok := IsContinuous(headers);
      if !ok {
        return Err(BrokenContinuity);
      }
      r := CheckSequence(headers);
      if r.Err? {
        return;
      }
      var pending := r.value;
      if !PowPasses(rules, pending) {
        return Err(BadProofOfWork);
      }
      BatchStacked(rules, Value(), genesis, headers);
      if LooksBack(rules) && Proven() {
        BatchWorked(rules, Value(), genesis, headers);
      }
      if LeavesKnown(Value()) {
        BatchLeaves(rules, Value(), genesis, headers);
      }
      CommitBatch(pending);
      StackedInv(old(Value()), genesis, pending);
    }

    method CommitBatch(pending: seq<Pending>)
      modifies this
      ensures Value() == CommitAll(old(Value()), pending)
    {
      ghost var s := Value();
      var i := 0;
      while i < |pending|
        invariant 0 <= i <= |pending|
        invariant Value() == CommitAll(s, pending[..i])
      {
        assert pending[..i + 1] == pending[..i] + [pending[i]];
        CommitAllStep(s, pending[..i], pending[i]);
        InsertHeader(pending[i].header, pending[i].height, pending[i].chainwork, true);
        i := i + 1;
      }
      assert pending[..i] == pending;
    }

    // ---------- Forks ----------

    /** `switch_active_chain`: it fails only on an unknown tip, and it keeps the invariant
        exactly when the old tip had no stored child. */
    method SwitchActiveChain(newTip: Hash) returns (ok: bool)
      requires Valid()
      modifies this
      ensures ok <==> newTip in old(byHash)
      ensures byHash == old(byHash) && (old(Proven()) ==> Proven())
      ensures old(LeavesKnown(Value())) ==> LeavesKnown(Value())
      ensures !ok ==> Value() == old(Value())
      ensures ok ==> Value() == Switched(old(Value()), newTip).(best := best) && BestOk(Value()) && BestChosen(Value())
      ensures ok ==> (Valid() <==> Tip(old(Value())) == newTip || !HasChild(old(byHash), Tip(old(Value()))))
    {
      hide WellFormed, WorkSums, HasChild, Walk, LeavesKnown;
      if newTip !in byHash {
        return false;
      }
      ghost var s := Value();
      SwitchKeepsShapeIff(s, genesis, newTip);
      var oldTip := activeChain[|activeChain| - 1];
      var chain := RebuildChain(newTip);
      activeSet := set i | 0 <= i < |chain| :: chain[i];
      activeChain := chain;
      tips := tips + {oldTip} - {newTip};
      ChainToActive(byHash, genesis, newTip);
      TipsStored(s, genesis);
      RecomputeBestTip();
      if LeavesKnown(s) {
        SwitchLeaves(s, genesis, newTip, best);
      }
      return true;
    }

    /** `recompute_best_tip`: the active tip, or a tip with more work, and none has more than it. */
    method RecomputeBestTip()
      requires |activeChain| > 0 && Tip(Value()) in byHash
      modifies this`best
      ensures BestOk(Value()) && BestChosen(Value())
    {
      var tip := activeChain[|activeChain| - 1];
      var b := Best(tip, byHash[tip].chainwork);
      var todo := tips;
      while todo != {}
        invariant todo <= tips
        invariant b.hash in byHash && b.work == byHash[b.hash].chainwork && byHash[tip].chainwork <= b.work
        invariant b.hash == tip || (b.hash in tips && b.work > byHash[tip].chainwork)
        invariant forall t :: t in tips - todo && t in byHash ==> byHash[t].chainwork <= b.work
        decreases |todo|
      {
        var t :| t in todo;
        if t in byHash && byHash[t].chainwork > b.work {
          b := Best(t, byHash[t].chainwork);
        }
        todo := todo - {t};
      }
      best := b;
    }

    method RebuildChain(newTip: Hash) returns (chain: seq<Hash>)
      requires Valid() && newTip in byHash
      ensures chain == ChainTo(byHash, newTip)
    {
      hide WellFormed, WorkSums, TipsChildless, Walk, BestOk, AncestorAt;
      var current := newTip;
      var top := byHash[newTip].height;
      chain := [newTip];
      ZeroAncestor(byHash, newTip);
      ghost var h: int := top;
      AncestorStored(byHash, genesis, newTip, h);
      while byHash[current].height > 0
        invariant 0 <= h <= top && current in byHash && byHash[current].height == h
        invariant current == AncestorAt(byHash, newTip, h)
        invariant |chain| == top - h + 1
        invariant forall j :: 0 <= j < |chain| ==> chain[j] == AncestorAt(byHash, newTip, h + j)
        decreases h
      {
        AncestorStored(byHash, genesis, newTip, h);
        AncestorStored(byHash, genesis, newTip, h - 1);
        current := byHash[current].header.prevHash;
        chain := [current] + chain;
        h := h - 1;
      }
      assert chain == ChainTo(byHash, newTip);
    }

    method DescendsFrom(tip: Hash, ancestor: Hash) returns (r: bool)
      requires Shape(Value(), genesis) && tip in byHash
      ensures r <==> IsAncestor(byHash, ancestor, tip)
    {
      hide WellFormed, WorkSums, TipsChildless, Walk, AncestorAt;
      var current := tip;
      ghost var h: int := byHash[tip].height;
      ZeroAncestor(byHash, tip);
      while current != ancestor
        invariant 0 <= h <= byHash[tip].height
        invariant current in byHash && byHash[current].height == h && current == AncestorAt(byHash, tip, h)
        invariant IsAncestor(byHash, ancestor, tip) ==> byHash[ancestor].height <= h
        decreases h
      {
        AncestorStored(byHash, genesis, tip, h);
        if byHash[current].height == 0 {
          return false;
        }
        AncestorStored(byHash, genesis, tip, h - 1);
        current := byHash[current].header.prevHash;
        h := h - 1;
      }
      return true;
    }

    /** `mark_invalid`: the header and every tip that descends from it stop being tips, and the
        best tip is chosen again. If the header was the best it is no longer, except when it is
        the active tip, which is always a candidate. */
    method MarkInvalid(hash: Hash)
      requires Valid()
      modifies this
      ensures Valid()
      ensures old(Proven()) ==> Proven()
      ensures old(LeavesKnown(Value())) ==> LeavesKnown(Value())
      ensures byHash == old(byHash) && activeChain == old(activeChain) && activeSet == old(activeSet)
      ensures forall t :: t in tips <==> t in old(tips) && t != hash && !IsAncestor(byHash, hash, t)
      ensures forall t :: t in invalidTips <==>
                t in old(invalidTips) || t == hash || (t in old(tips) && IsAncestor(byHash, hash, t))
      ensures BestChosen(Value())
      ensures old(best.hash) == hash ==> (best.hash == hash <==> Tip(Value()) == hash)
    {
      hide WellFormed, WorkSums, HasChild, IsAncestor;
      TipStored(Value(), genesis);
      SelfAncestor(byHash, hash);
      invalidTips := invalidTips + {hash};
      tips := tips - {hash};
      var dropped := DescendantTips(hash);
      tips := tips - dropped;
      invalidTips := invalidTips + dropped;
      RecomputeBestTip();
    }

    method DescendantTips(hash: Hash) returns (dropped: set<Hash>)
      requires Shape(Value(), genesis)
      ensures forall t :: t in dropped <==> t in tips && IsAncestor(byHash, hash, t)
    {
      hide WellFormed, WorkSums, HasChild, IsAncestor;
      TipsStored(Value(), genesis);
      dropped := {};
      var todo := tips;
      while todo != {}
        invariant todo <= tips
        invariant forall t :: t in dropped <==> t in tips - todo && IsAncestor(byHash, hash, t)
        decreases |todo|
      {
        var t :| t in todo;
        var descends := DescendsFrom(t, hash);
        if descends {
          dropped := dropped + {t};
        }
        todo := todo - {t};
      }
    }

    /** `remove_fork` from a childless tip: only headers of that fork go, up to the first one
        that is active or has another child, and the tree keeps its shape. */
    method RemoveFork(tip: Hash)
      requires Shape(Value(), genesis) && tip in tips
      modifies this`byHash, this`tips
      ensures Shape(Value(), genesis) && tips == old(tips) - {tip}
      ensures forall h :: h in byHash ==> h in old(byHash) && byHash[h] == old(byHash)[h]
      ensures forall h :: h in old(byHash) && h !in byHash ==> h !in activeSet && IsAncestor(old(byHash), h, tip)
      ensures tip !in activeSet ==> tip !in byHash
      ensures forall h :: h in byHash && HasChild(old(byHash), h) && !HasChild(byHash, h) ==> h in activeSet
    {
      hide WellFormed, WorkSums, Walk, AncestorAt;
      ghost var before := byHash;
      tips := tips - {tip};
      var current := tip;
      ZeroAncestor(byHash, tip);
      while current !in activeSet && current in byHash
        invariant Shape(Value(), genesis) && tips == old(tips) - {tip}
        invariant forall h :: h in byHash ==> h in before && byHash[h] == before[h]
        invariant forall h :: h in before && h !in byHash ==> h !in activeSet && IsAncestor(before, h, tip)
        invariant current in byHash && current !in tips && !HasChild(byHash, current) && IsAncestor(before, current, tip)
        invariant current == tip || tip !in byHash
        invariant forall h :: h in byHash && HasChild(before, h) && !HasChild(byHash, h) ==> h == current
        decreases |byHash|
      {
        var prev := byHash[current].header.prevHash;
        LeafRemoval(Value(), genesis, before, tip, current);
        byHash := byHash - {current};
        if exists c :: c in byHash && byHash[c].header.prevHash == prev {
          return;
        }
        current := prev;
      }
    }

    predicate IsStale(t: Hash, activeTipHeight: nat)
      reads this
    {
      t in byHash && activeTipHeight - byHash[t].height > MAX_FORK_AGE
    }

    ghost predicate PurgedFrom(before: Store)
      reads this
    {
      PurgedStore(before, Value(), genesis)
    }

    /** One fork less. */
    method DropFork(t: Hash, ghost before: Store)
      requires PurgedFrom(before) && t in tips
      modifies this`byHash, this`tips
      ensures PurgedFrom(before) && tips == old(tips) - {t}
      ensures forall h :: h in byHash ==> h in old(byHash) && byHash[h] == old(byHash)[h]
    {
      hide Shape, OfDroppedFork, HasChild, IsAncestor, NothingDangles;
      ghost var mid := Value();
      RemoveFork(t);
      DropNext(before, mid, Value(), genesis, t);
      DangleNext(before, mid, Value());
    }

    method RemoveForks(forks: set<Hash>, ghost before: Store)
      requires PurgedFrom(before) && forks <= tips
      modifies this`byHash, this`tips
      ensures PurgedFrom(before) && tips == old(tips) - forks
    {
      hide PurgedStore;
      var todo := forks;
      while todo != {}
        invariant PurgedFrom(before) && todo <= tips && todo <= forks && tips == old(tips) - (forks - todo)
        decreases |todo|
      {
        var t :| t in todo;
        DropFork(t, before);
        todo := todo - {t};
      }
    }

    lemma PurgedTips(before: Store)
      requires PurgedFrom(before)
      ensures forall t :: t in tips ==> t in byHash && t in before.byHash && byHash[t] == before.byHash[t]
    {
      hide WellFormed, WorkSums, ActivePath, OfDroppedFork, NothingDangles;
      TipsStored(Value(), genesis);
    }

    method LowestTip(todo: set<Hash>) returns (t: Hash)
      requires todo != {} && forall h :: h in todo ==> h in byHash
      ensures t in todo && forall h :: h in todo ==> byHash[t].height <= byHash[h].height
    {
      t :| t in todo;
      var rest := todo - {t};
      while rest != {}
        invariant t in todo && rest <= todo
        invariant forall h :: h in todo - rest ==> byHash[t].height <= byHash[h].height
        decreases |rest|
      {
        var u :| u in rest;
        if byHash[u].height < byHash[t].height {
          t := u;
        }
        rest := rest - {u};
      }
    }

    /** Headers off the active chain. */
    function ForkHeaders(): int
      reads this
    {
      |byHash| - |activeChain|
    }

    /** Lowest tips first, until few enough headers are left or no tip is. `prev` is the store
        before the last removal, when there were still too many. */
    method RemoveLowestForks(ghost before: Store) returns (ghost prev: Store)
      requires PurgedFrom(before)
      modifies this`byHash, this`tips
      ensures PurgedFrom(before) && tips <= old(tips) && (ForkHeaders() <= MAX_FORK_HEADERS || tips == {})
      ensures old(ForkHeaders()) <= MAX_FORK_HEADERS ==> tips == old(tips)
      ensures LowestGone(before, old(tips), tips)
      ensures tips != old(tips) ==> LastNeeded(before, prev, Value(), genesis)
    {
      hide PurgedStore, LowestGone;
      prev := Value();
      NoneGone(before, tips);
      while ForkHeaders() > MAX_FORK_HEADERS && tips != {}
        invariant PurgedFrom(before) && tips <= old(tips) && LowestGone(before, old(tips), tips)
        invariant old(ForkHeaders()) <= MAX_FORK_HEADERS ==> tips == old(tips) && byHash == old(byHash)
        invariant tips != old(tips) ==> LastNeeded(before, prev, Value(), genesis)
        decreases |tips|
      {
        prev := Value();
        PurgedTips(before);
        var t := LowestTip(tips);
        LowestNext(before, old(tips), Value(), t);
        DropFork(t, before);
      }
    }

    /** Stale forks, then the lowest ones. */
    method PurgeForks(activeTipHeight: nat) returns (ghost prev: Store)
      requires Valid()
      modifies this`byHash, this`tips
      ensures PurgedFrom(old(Value())) && Purged(old(Value()), prev, Value(), genesis, activeTipHeight)
    {
      hide Shape, LowestGone, BestOk, LastNeeded;
      ghost var before := Value();
      var stale := set t | t in tips && IsStale(t, activeTipHeight);
      assert tips - stale == Lasting(before, activeTipHeight);
      RemoveForks(stale, before);
      SubsetSize(byHash.Keys, before.byHash.Keys);
      prev := RemoveLowestForks(before);
    }

    /** `purge_stale_forks`: the active chain survives, no stale tip does, and at most
        `MAX_FORK_HEADERS` fork headers are left unless no fork tip is. Every other tip stays if
        there were few enough fork headers; otherwise one goes only if no tip that stays is
        lower, and only while there are too many. A header goes only with a tip that descends
        from it. */
    method PurgeStaleForks(activeTipHeight: nat) returns (ghost prev: Store)
      requires Valid()
      modifies this
      ensures Valid() && PurgedFrom(old(Value())) && Purged(old(Value()), prev, Value(), genesis, activeTipHeight)
      ensures old(Proven()) ==> Proven()
      ensures old(LeavesKnown(Value())) ==> LeavesKnown(Value())
      ensures BestChosen(Value())
    {
      hide Shape, Purged, BestOk, Worked, LeavesKnown;
      prev := PurgeForks(activeTipHeight);
      if old(Proven()) {
        PurgedWorked(rules, old(Value()), Value(), genesis);
      }
      if old(LeavesKnown(Value())) {
        PurgedLeaves(old(Value()), Value(), genesis);
      }
      TipStored(Value(), genesis);
      ghost var mid := Value();
      RecomputeBestTip();
      BestIrrelevant(old(Value()), prev, mid, Value(), genesis, activeTipHeight);
    }
  }

  lemma PurgedWorked(rules: HeaderRules, before: Store, now: Store, genesis: Hash)
    requires PurgedStore(before, now, genesis) && Worked(rules, before.byHash, genesis)
    ensures Worked(rules, now.byHash, genesis)
  {
    PartWorked(rules, now.byHash, before.byHash, genesis);
  }

  lemma PurgedLeaves(before: Store, now: Store, genesis: Hash)
    requires PurgedStore(before, now, genesis) && LeavesKnown(before)
    ensures LeavesKnown(now)
  {
    hide WellFormed, WorkSums, TipsChildless, HasChild, ActivePath;
    forall h | h in now.byHash && !HasChild(now.byHash, h)
      ensures h in now.tips || h in now.invalidTips || (|now.activeChain| > 0 && h == Tip(now))
    {
      if h in now.activeSet {
        ActiveLeaf(now, genesis, h);
      }
    }
  }

  /** The tips that are not too far behind. */
  ghost function Lasting(s: Store, activeTipHeight: nat): set<Hash> {
    set t | t in s.tips && !(t in s.byHash && activeTipHeight - s.byHash[t].height > MAX_FORK_AGE)
  }

  /** Which tips a purge leaves. */
  ghost predicate Purged(before: Store, prev: Store, after: Store, genesis: Hash, activeTipHeight: nat) {
    var fit := Lasting(before, activeTipHeight);
    && after.tips <= fit && LowestGone(before, fit, after.tips)
    && (|before.byHash| - |before.activeChain| <= MAX_FORK_HEADERS ==> after.tips == fit)
    && (|after.byHash| - |after.activeChain| <= MAX_FORK_HEADERS || after.tips == {})
    && (after.tips != fit ==> LastNeeded(before, prev, after, genesis))
  }

  /** With one more tip, and no header less, there were too many fork headers. */
  ghost predicate LastNeeded(before: Store, prev: Store, after: Store, genesis: Hash) {
    && PurgedStore(before, prev, genesis)
    && |prev.byHash| - |prev.activeChain| > MAX_FORK_HEADERS && prev.activeChain == after.activeChain
    && (exists t :: t in prev.tips && after.tips == prev.tips - {t})
    && forall h :: h in after.byHash ==> h in prev.byHash && after.byHash[h] == prev.byHash[h]
  }

  lemma BestIrrelevant(before: Store, prev: Store, mid: Store, after: Store, genesis: Hash, activeTipHeight: nat)
    requires after == mid.(best := after.best)
    ensures (Shape(mid, genesis) <==> Shape(after, genesis)) && (LeavesKnown(mid) <==> LeavesKnown(after))
    ensures Purged(before, prev, mid, genesis, activeTipHeight) <==> Purged(before, prev, after, genesis, activeTipHeight)
  {
    hide WellFormed, WorkSums, ActivePath, TipsChildless, LowestGone, Lasting, PurgedStore;
  }

  /** The best tip is the active tip, or another tip that has more work than it. */
  ghost predicate BestChosen(s: Store) {
    && |s.activeChain| > 0 && Tip(s) in s.byHash
    && (s.best.hash == Tip(s) || (s.best.hash in s.tips && s.best.work > s.byHash[Tip(s)].chainwork))
  }

  /** Some forks are gone, each as far as it was not shared; everything else is as it was. */
  ghost predicate PurgedStore(before: Store, now: Store, genesis: Hash) {
    && Shape(now, genesis)
    && now.activeChain == before.activeChain && now.activeSet == before.activeSet && now.invalidTips == before.invalidTips
    && now.tips <= before.tips
    && (forall h :: h in now.byHash ==> h in before.byHash && now.byHash[h] == before.byHash[h])
    && (forall h :: h in before.byHash && h !in now.byHash ==> h !in now.activeSet && OfDroppedFork(before, now.tips, h))
    && (forall t :: t in before.tips && t !in now.tips && t in now.byHash ==> t in now.activeSet)
    && NothingDangles(before, now)
  }

  /** No header was left behind whose children are all gone, except on the active chain. */
  ghost predicate NothingDangles(before: Store, now: Store) {
    forall h :: h in now.byHash && HasChild(before.byHash, h) && !HasChild(now.byHash, h) ==> h in now.activeSet
  }

  lemma DangleNext(before: Store, mid: Store, after: Store)
    requires NothingDangles(before, mid) && mid.activeSet == after.activeSet
    requires forall h :: h in after.byHash ==> h in mid.byHash
    requires forall h :: h in after.byHash && HasChild(mid.byHash, h) && !HasChild(after.byHash, h) ==> h in after.activeSet
    ensures NothingDangles(before, after)
  {
    hide HasChild;
  }

  /** `h` led to a tip that was dropped. */
  ghost predicate OfDroppedFork(before: Store, tips: set<Hash>, h: Hash) {
    exists t :: t in before.tips && t !in tips && IsAncestor(before.byHash, h, t)
  }

  /** No tip that is gone was higher than one that stays. */
  ghost predicate LowestGone(before: Store, from: set<Hash>, tips: set<Hash>) {
    forall t, k :: t in from && t !in tips && k in tips && t in before.byHash && k in before.byHash ==>
      before.byHash[t].height <= before.byHash[k].height
  }

  lemma NoneGone(before: Store, tips: set<Hash>)
    ensures LowestGone(before, tips, tips)
  {
  }

  lemma LowestNext(before: Store, from: set<Hash>, mid: Store, t: Hash)
    requires LowestGone(before, from, mid.tips) && t in mid.tips
    requires forall h :: h in mid.tips ==> h in mid.byHash && h in before.byHash && mid.byHash[h] == before.byHash[h]
    requires forall h :: h in mid.tips ==> mid.byHash[t].height <= mid.byHash[h].height
    ensures LowestGone(before, from, mid.tips - {t})
  {
  }

  /** Removing one more fork keeps track of whose headers are gone. */
  lemma DropNext(before: Store, mid: Store, after: Store, genesis: Hash, t: Hash)
    requires Shape(mid, genesis) && mid.tips <= before.tips && t in mid.tips && after.tips == mid.tips - {t}
    requires forall h :: h in mid.byHash ==> h in before.byHash && mid.byHash[h] == before.byHash[h]
    requires forall h :: h in before.byHash && h !in mid.byHash ==> OfDroppedFork(before, mid.tips, h)
    requires forall h :: h in mid.byHash && h !in after.byHash ==> IsAncestor(mid.byHash, h, t)
    ensures forall h :: h in before.byHash && h !in after.byHash ==> OfDroppedFork(before, after.tips, h)
  {
    hide WellFormed, WorkSums, ActivePath, TipsChildless, Walk;
    forall h | h in before.byHash && h !in after.byHash
      ensures OfDroppedFork(before, after.tips, h)
    {
      if h in mid.byHash {
        SubtreeWalk(mid.byHash, before.byHash, genesis, t, mid.byHash[t].height - mid.byHash[h].height);
        assert IsAncestor(before.byHash, h, t);
      } else {
        var k :| k in before.tips && k !in mid.tips && IsAncestor(before.byHash, h, k);
      }
    }
  }

  lemma ZeroAncestor(tree: Tree, h: Hash)
    requires h in tree
    ensures AncestorAt(tree, h, tree[h].height) == h
  {
  }

  lemma GenesisActive(s: Store, genesis: Hash)
    requires Shape(s, genesis)
    ensures genesis in s.activeSet
  {
    assert s.activeChain[0] == genesis;
  }

  lemma TipsStored(s: Store, genesis: Hash)
    requires Shape(s, genesis)
    ensures forall t :: t in s.tips ==> t in s.byHash
  {
  }

  lemma SelfAncestor(tree: Tree, h: Hash)
    ensures h in tree ==> IsAncestor(tree, h, h)
  {
  }

  /** A batch that passes phase 1 stacks up on the active tip. */
  lemma BatchStacked(rules: HeaderRules, s: Store, genesis: Hash, headers: seq<Header>)
    requires Inv(s, genesis) && Consistent(s, genesis, headers) && Continuous(headers) && |s.activeChain| > 0
    requires forall i, j :: 0 <= i < j < |headers| ==> headers[i].hash != headers[j].hash
    requires CheckAll(rules, s, [], headers).Ok?
    ensures Stacked(s, genesis, CheckAll(rules, s, [], headers).value)
  {
    hide Inv, CheckAll, Consistent, Continuous;
    var k := KnownCount(s, headers);
    forall i | k <= i < |headers|
      ensures headers[i].hash !in s.byHash
    {
      KnownIff(s, genesis, headers, i);
    }
    NewUnseen(s, genesis, headers, k);
    KnownSkipped(rules, s, headers);
    RestStacked(rules, s, genesis, [], headers[k..]);
  }

  lemma {:induction false} RestStacked(rules: HeaderRules, s: Store, genesis: Hash, pending: seq<Pending>,
      headers: seq<Header>)
    requires Inv(s, genesis) && Stacked(s, genesis, pending) && AllUnseen(s, genesis, pending, headers)
    requires |s.activeChain| > 0 && CheckAll(rules, s, pending, headers).Ok?
    ensures Stacked(s, genesis, CheckAll(rules, s, pending, headers).value)
    decreases |headers|
  {
    hide Inv, Stacked, CheckOne, Unseen;
    if headers != [] {
      var one := CheckOne(rules, s, pending, headers[0]).value;
      CheckOneStacks(rules, s, genesis, pending, headers[0]);
      UnseenAfter(s, genesis, pending, headers, one);
      RestStacked(rules, s, genesis, one, headers[1..]);
    }
  }

  lemma TipStored(s: Store, genesis: Hash)
    requires Shape(s, genesis)
    ensures |s.activeChain| > 0 && Tip(s) in s.byHash
  {
    assert ActiveAt(s.byHash, s.activeChain, |s.activeChain| - 1);
  }

  /** One turn of `remove_fork`. */
  lemma LeafRemoval(s: Store, genesis: Hash, before: Tree, tip: Hash, x: Hash)
    requires Shape(s, genesis) && WellFormed(before, genesis)
    requires x in s.byHash && x !in s.activeSet && x !in s.tips && !HasChild(s.byHash, x)
    requires forall h :: h in s.byHash ==> h in before && s.byHash[h] == before[h]
    requires IsAncestor(before, x, tip)
    ensures Shape(s.(byHash := s.byHash - {x}), genesis)
    ensures var prev := s.byHash[x].header.prevHash;
            && prev in s.byHash && prev != x && prev !in s.tips && IsAncestor(before, prev, tip)
            && forall h :: h in s.byHash && h != x && h != prev ==> (HasChild(s.byHash - {x}, h) <==> HasChild(s.byHash, h))
  {
    hide Walk, AncestorAt, WorkSums;
    RemoveLeafShape(s, genesis, x);
    GenesisActive(s, genesis);
    assert ParentOk(s.byHash, x);
    var prev := s.byHash[x].header.prevHash;
    assert HasChild(s.byHash, prev);
    AncestorStored(before, genesis, x, before[x].height);
    AncestorStored(before, genesis, x, before[x].height - 1);
    ZeroAncestor(before, x);
    AncestorTrans(before, genesis, prev, x, tip);
    var t := s.byHash - {x};
    forall h | h in s.byHash && h != x && h != prev
      ensures HasChild(t, h) <==> HasChild(s.byHash, h)
    {
      if HasChild(s.byHash, h) {
        var c :| c in s.byHash && s.byHash[c].header.prevHash == h;
        assert c in t && t[c].header.prevHash == h;
      }
    }
  }
}
