/** Which headers are accepted, what the store then holds as best, and the checkpoints. */
module HeaderBest {
  import opened Basics
  import opened Types
  import opened HeaderTree
  import opened HeaderSpec
  import opened HeaderBatch
  import opened HeaderForks
  import opened HeaderWork
  import Compact
  import D = Difficulty

  // ---------- Which headers are accepted ----------

  /** The bits that the ancestors up to `parent` require, and above the last checkpoint the
      proof of work. */
  ghost predicate WorkFits(rules: HeaderRules, tree: Tree, parent: Hash, header: Header)
    requires parent in tree
  {
    var height := tree[parent].height + 1;
    && rules.nextBits(height, AncestorHeads(tree, parent)) == Some(header.bits)
    && (height > rules.lastCheckpoint ==> rules.pow(header))
  }

  /** A header is accepted on any known parent that is not an invalid tip, exactly if its work
      fits the parent's own ancestors. */
  lemma {:induction false} AcceptIff(rules: HeaderRules, s: Store, genesis: Hash, header: Header)
    requires Inv(s, genesis) && LooksBack(rules)
    ensures |s.activeChain| > 0
    ensures AcceptHeader(rules, s, header).Ok? <==>
            || header.hash in s.byHash
            || (&& header.prevHash in s.byHash && header.prevHash !in s.invalidTips
                && s.byHash[header.prevHash].height < MAX_U32 && WorkFits(rules, s.byHash, header.prevHash, header))
  {
    hide AncestorHeads, ForkLookup, LooksBack, WellFormed, WorkSums, TipsChildless, WithHeader, Inserted;
    InvNonempty(s, genesis);
    if header.prevHash in s.byHash {
      ForkBelow(s, genesis, header.prevHash);
      SameBits(rules, s.byHash[header.prevHash].height + 1, ForkLookup(s, header.prevHash),
               AncestorHeads(s.byHash, header.prevHash));
    }
  }

  /** Linear extension: on the active tip only, and not against a checkpoint. */
  lemma {:induction false} AddIff(rules: HeaderRules, s: Store, genesis: Hash, header: Header)
    requires Inv(s, genesis) && LooksBack(rules)
    ensures |s.activeChain| > 0 && Tip(s) in s.byHash
    ensures AddHeader(rules, s, header).Ok? <==>
            && header.hash !in s.byHash && header.prevHash == Tip(s) && s.byHash[Tip(s)].height < MAX_U32
            && WorkFits(rules, s.byHash, Tip(s), header)
            && rules.checkpoint(s.byHash[Tip(s)].height + 1) in {None, Some(header.hash)}
    ensures var r := AddHeader(rules, s, header);
            r.Ok? ==> r.value.activeChain == s.activeChain + [header.hash] && header.hash in r.value.byHash
  {
    hide AncestorHeads, ActiveLookup, LooksBack, WellFormed, WorkSums, TipsChildless;
    ActiveBelow(s, genesis);
    SameBits(rules, |s.activeChain|, ActiveLookup(s), AncestorHeads(s.byHash, Tip(s)));
  }

  /** A header becomes the best exactly if it has more work than the best so far. A
      reorganization is asked for exactly if it did and is not the active tip. So
      whoever follows every request has the best header active. */
  lemma {:induction false} AcceptFollows(rules: HeaderRules, s: Store, genesis: Hash, header: Header)
    requires Inv(s, genesis) && header.hash != s.byHash[genesis].header.prevHash
    requires |s.activeChain| > 0 && AcceptHeader(rules, s, header).Ok?
    ensures var (t, a) := AcceptHeader(rules, s, header).value;
            && (a == AlreadyKnown <==> t == s)
            && header.hash in t.byHash && |t.activeChain| > 0
            && (a != AlreadyKnown ==>
                  var work := t.byHash[header.hash].chainwork;
                  t.best == if work > s.best.work then Best(header.hash, work) else s.best)
            && (a == NeedReorg <==> t.best != s.best && t.best.hash != Tip(t))
            && (Tip(s) == s.best.hash && a != NeedReorg ==> Tip(t) == t.best.hash)
  {
    hide ForkLookup, CheckWork, Shape, Compact.WorkFromBits;
    var (t, a) := AcceptHeader(rules, s, header).value;
    assert header.hash in t.byHash;
  }

  // ---------- The best header ----------

  /** Every header without children is a tip, an invalid one, or the active tip. */
  ghost predicate LeavesKnown(s: Store) {
    forall h :: h in s.byHash && !HasChild(s.byHash, h) ==>
      h in s.tips || h in s.invalidTips || (|s.activeChain| > 0 && h == Tip(s))
  }

  lemma FreshLeaves(header: Header)
    ensures LeavesKnown(Fresh(header))
  {
  }

  lemma WithHeaderLeaves(s: Store, genesis: Hash, header: Header, extend: bool)
    requires Inv(s, genesis) && LeavesKnown(s) && Addable(s.byHash, genesis, header)
    requires extend ==> header.prevHash == Tip(s)
    ensures LeavesKnown(WithHeader(s, header, extend))
  {
    hide WellFormed, WorkSums, TipsChildless, HasChild, BestOk, ActivePath, Compact.WorkFromBits;
    var t := WithHeader(s, header, extend);
    InvNonempty(s, genesis);
    forall h | h in t.byHash && !HasChild(t.byHash, h)
      ensures h in t.tips || h in t.invalidTips || (|t.activeChain| > 0 && h == Tip(t))
    {
      InsertChildren(s.byHash, genesis, header, h);
    }
  }

  lemma {:induction false} AddLeaves(rules: HeaderRules, s: Store, genesis: Hash, header: Header)
    requires Inv(s, genesis) && LeavesKnown(s) && header.hash != s.byHash[genesis].header.prevHash
    ensures |s.activeChain| > 0
    ensures var r := AddHeader(rules, s, header); r.Ok? ==> LeavesKnown(r.value)
  {
    hide LeavesKnown, Shape, BestOk, CheckWork, ActiveLookup, WithHeader;
    InvNonempty(s, genesis);
    GenesisStored(s, genesis);
    if AddHeader(rules, s, header).Ok? {
      WithHeaderLeaves(s, genesis, header, true);
    }
  }

  lemma {:induction false} AcceptLeaves(rules: HeaderRules, s: Store, genesis: Hash, header: Header)
    requires Inv(s, genesis) && LeavesKnown(s) && header.hash != s.byHash[genesis].header.prevHash
    ensures |s.activeChain| > 0
    ensures var r := AcceptHeader(rules, s, header); r.Ok? ==> LeavesKnown(r.value.0)
  {
    hide LeavesKnown, Shape, BestOk, CheckWork, ForkLookup, WithHeader, Inserted;
    InvNonempty(s, genesis);
    GenesisStored(s, genesis);
    if AcceptHeader(rules, s, header).Ok? && header.hash !in s.byHash {
      WithHeaderLeaves(s, genesis, header, true && header.prevHash == Tip(s));
      WithHeaderLeaves(s, genesis, header, false);
    }
  }

  /** Everything that accepting a header keeps. */
  lemma AcceptKeeps(rules: HeaderRules, s: Store, genesis: Hash, header: Header)
    requires Inv(s, genesis) && header.hash != s.byHash[genesis].header.prevHash
    ensures |s.activeChain| > 0
    ensures var r := AcceptHeader(rules, s, header);
            r.Ok? ==>
              && Inv(r.value.0, genesis) && (LeavesKnown(s) ==> LeavesKnown(r.value.0))
              && (LooksBack(rules) && Worked(rules, s.byHash, genesis) ==> Worked(rules, r.value.0.byHash, genesis))
  {
    hide LeavesKnown, Inv, LooksBack, Worked, AcceptHeader;
    InvNonempty(s, genesis);
    AcceptHeaderInv(rules, s, genesis, header);
    if LeavesKnown(s) {
      AcceptLeaves(rules, s, genesis, header);
    }
    if LooksBack(rules) && Worked(rules, s.byHash, genesis) {
      AcceptWorked(rules, s, genesis, header);
    }
  }

  lemma AddKeeps(rules: HeaderRules, s: Store, genesis: Hash, header: Header)
    requires Inv(s, genesis) && header.hash != s.byHash[genesis].header.prevHash
    ensures |s.activeChain| > 0
    ensures var r := AddHeader(rules, s, header);
            r.Ok? ==>
              && Inv(r.value, genesis) && (LeavesKnown(s) ==> LeavesKnown(r.value))
              && (LooksBack(rules) && Worked(rules, s.byHash, genesis) ==> Worked(rules, r.value.byHash, genesis))
  {
    hide LeavesKnown, Inv, LooksBack, Worked, AddHeader;
    InvNonempty(s, genesis);
    AddHeaderInv(rules, s, genesis, header);
    if LeavesKnown(s) {
      AddLeaves(rules, s, genesis, header);
    }
    if LooksBack(rules) && Worked(rules, s.byHash, genesis) {
      AddWorked(rules, s, genesis, header);
    }
  }

  lemma {:induction false} AddAllLeaves(rules: HeaderRules, s: Store, genesis: Hash, headers: seq<Header>)
    requires Inv(s, genesis) && |s.activeChain| > 0 && LeavesKnown(s)
    requires forall i :: 0 <= i < |headers| ==> headers[i].hash != s.byHash[genesis].header.prevHash
    ensures var r := AddAll(rules, s, headers); r.Ok? ==> LeavesKnown(r.value)
    decreases |headers|
  {
    hide LeavesKnown, AddHeader, Shape, BestOk;
    if headers != [] {
      var r := AddHeader(rules, s, headers[0]);
      if r.Ok? {
        GenesisStored(s, genesis);
        AddLeaves(rules, s, genesis, headers[0]);
        AddHeaderInv(rules, s, genesis, headers[0]);
        AddedGenesis(rules, s, genesis, headers[0]);
        AddAllLeaves(rules, r.value, genesis, headers[1..]);
      }
    }
  }

  lemma {:induction false} BatchLeaves(rules: HeaderRules, s: Store, genesis: Hash, headers: seq<Header>)
    requires Inv(s, genesis) && Consistent(s, genesis, headers) && LeavesKnown(s)
    requires forall i, j :: 0 <= i < j < |headers| ==> headers[i].hash != headers[j].hash
    ensures |s.activeChain| > 0
    ensures var r := ValidateBatch(rules, s, headers); r.Ok? ==> LeavesKnown(CommitAll(s, r.value))
  {
    hide LeavesKnown, Inv, AddAll, ValidateBatch, CommitAll, Continuous;
    BatchRefinesAdds(rules, s, genesis, headers);
    AddAllLeaves(rules, s, genesis, headers[KnownCount(s, headers)..]);
  }

  /** On the active chain only its end has no child. */
  lemma ActiveLeaf(s: Store, genesis: Hash, h: Hash)
    requires ActivePath(s.byHash, genesis, s.activeChain) && h in Members(s.activeChain) && !HasChild(s.byHash, h)
    ensures |s.activeChain| > 0 && h == Tip(s)
  {
    var i :| 0 <= i < |s.activeChain| && s.activeChain[i] == h;
    assert i + 1 < |s.activeChain| ==> ActiveAt(s.byHash, s.activeChain, i + 1);
  }

  lemma SwitchLeaves(s: Store, genesis: Hash, newTip: Hash, best: Best)
    requires Shape(s, genesis) && LeavesKnown(s) && newTip in s.byHash
    ensures |s.activeChain| > 0 && LeavesKnown(Switched(s, newTip).(best := best))
  {
    hide WellFormed, WorkSums, TipsChildless, HasChild;
    ChainToActive(s.byHash, genesis, newTip);
  }

  ghost function Above(tree: Tree, height: nat): set<Hash> {
    set x | x in tree && tree[x].height > height
  }

  /** From every header upwards there is one without children, of no less work. */
  lemma {:induction false} LeafAbove(tree: Tree, genesis: Hash, h: Hash) returns (t: Hash)
    requires WellFormed(tree, genesis) && WorkSums(tree, genesis) && h in tree
    ensures IsAncestor(tree, h, t) && !HasChild(tree, t) && tree[h].chainwork <= tree[t].chainwork
    decreases |Above(tree, tree[h].height)|
  {
    hide WellFormed, Walk, Compact.WorkFromBits;
    if HasChild(tree, h) {
      var c :| c in tree && tree[c].header.prevHash == h;
      ChildHeight(tree, genesis, c);
      SmallerSet(Above(tree, tree[c].height), Above(tree, tree[h].height), c);
      t := LeafAbove(tree, genesis, c);
      WalkIsAncestor(tree, genesis, c, 1);
      OneStep(tree, c);
      AncestorTrans(tree, genesis, h, c, t);
    } else {
      t := h;
      WalkIsAncestor(tree, genesis, h, 0);
      OneStep(tree, h);
    }
  }

  lemma OneStep(tree: Tree, h: Hash)
    requires h in tree
    ensures Walk(tree, h, 0) == h && Walk(tree, h, 1) == tree[h].header.prevHash
  {
  }

  lemma ChildHeight(tree: Tree, genesis: Hash, c: Hash)
    requires WellFormed(tree, genesis) && c in tree && tree[c].header.prevHash in tree
    ensures c != genesis && tree[c].height == tree[tree[c].header.prevHash].height + 1
  {
    assert c != genesis ==> ParentOk(tree, c);
  }

  lemma SmallerSet(a: set<Hash>, b: set<Hash>, x: Hash)
    requires a <= b && x in b && x !in a
    ensures |a| < |b|
  {
    SubsetSize(a, b - {x});
  }

  /** No stored header has more work than the best, unless an invalid tip descends from it. */
  lemma {:induction false} BestHeaviest(s: Store, genesis: Hash, h: Hash)
    requires Inv(s, genesis) && LeavesKnown(s) && h in s.byHash
    ensures s.byHash[h].chainwork <= s.best.work || exists t :: t in s.invalidTips && IsAncestor(s.byHash, h, t)
  {
    hide WellFormed, WorkSums, ActivePath, HasChild, IsAncestor;
    var t := LeafAbove(s.byHash, genesis, h);
    AncestorKnown(s.byHash, h, t);
  }

  lemma AncestorKnown(tree: Tree, a: Hash, h: Hash)
    requires IsAncestor(tree, a, h)
    ensures a in tree && h in tree
  {
  }

  // ---------- Checkpoints ----------

  /** At a checkpoint height only the checkpoint itself is stored. */
  ghost predicate Checkpointed(rules: HeaderRules, tree: Tree) {
    forall h :: h in tree ==> rules.checkpoint(tree[h].height) in {None, Some(h)}
  }

  lemma {:induction false} AddCheckpointed(rules: HeaderRules, s: Store, genesis: Hash, header: Header)
    requires Inv(s, genesis) && LooksBack(rules) && Checkpointed(rules, s.byHash)
    ensures |s.activeChain| > 0
    ensures var r := AddHeader(rules, s, header); r.Ok? ==> Checkpointed(rules, r.value.byHash)
  {
    hide Inv, LooksBack, CheckWork, WorkFits, ActiveLookup;
    AddIff(rules, s, genesis, header);
  }

  lemma {:induction false} AddAllCheckpointed(rules: HeaderRules, s: Store, genesis: Hash, headers: seq<Header>)
    requires Inv(s, genesis) && |s.activeChain| > 0 && LooksBack(rules) && Checkpointed(rules, s.byHash)
    requires forall i :: 0 <= i < |headers| ==> headers[i].hash != s.byHash[genesis].header.prevHash
    ensures var r := AddAll(rules, s, headers); r.Ok? ==> Checkpointed(rules, r.value.byHash)
    decreases |headers|
  {
    hide Checkpointed, LooksBack, AddHeader, Shape, BestOk;
    if headers != [] {
      var r := AddHeader(rules, s, headers[0]);
      if r.Ok? {
        GenesisStored(s, genesis);
        AddCheckpointed(rules, s, genesis, headers[0]);
        AddHeaderInv(rules, s, genesis, headers[0]);
        AddedGenesis(rules, s, genesis, headers[0]);
        AddAllCheckpointed(rules, r.value, genesis, headers[1..]);
      }
    }
  }

  lemma {:induction false} BatchCheckpointed(rules: HeaderRules, s: Store, genesis: Hash, headers: seq<Header>)
    requires Inv(s, genesis) && Consistent(s, genesis, headers)
    requires forall i, j :: 0 <= i < j < |headers| ==> headers[i].hash != headers[j].hash
    requires LooksBack(rules) && Checkpointed(rules, s.byHash)
    ensures |s.activeChain| > 0
    ensures var r := ValidateBatch(rules, s, headers);
            r.Ok? ==> Checkpointed(rules, CommitAll(s, r.value).byHash)
  {
    hide Checkpointed, LooksBack, Inv, AddAll, ValidateBatch, CommitAll, Continuous;
    BatchRefinesAdds(rules, s, genesis, headers);
    AddAllCheckpointed(rules, s, genesis, headers[KnownCount(s, headers)..]);
  }

  /** `accept_header` does not look at checkpoints, so it keeps the promise exactly if the
      height of the header has no checkpoint, or the header is the one. */
  lemma {:induction false} AcceptCheckpointedIff(rules: HeaderRules, s: Store, genesis: Hash, header: Header)
    requires Inv(s, genesis) && Checkpointed(rules, s.byHash) && |s.activeChain| > 0
    requires AcceptHeader(rules, s, header).Ok? && header.hash !in s.byHash
    ensures header.prevHash in s.byHash
    ensures Checkpointed(rules, AcceptHeader(rules, s, header).value.0.byHash) <==>
            rules.checkpoint(s.byHash[header.prevHash].height + 1) in {None, Some(header.hash)}
  {
    hide Inv, ForkLookup, CheckWork;
    var t := AcceptHeader(rules, s, header).value.0;
    assert t.byHash[header.hash].height == s.byHash[header.prevHash].height + 1;
  }

  /** The checkpoint at height 1 is header 9. Header 2 is rejected by `add_header` and stored
      by `accept_header`. */
  lemma {:induction false} CheckpointMissed(bits: u32)
    requires Compact.WorkFromBits(bits) > 0
    ensures var rules := Lenient(bits).(checkpoint := h => if h == 1 then Some(9) else None);
            var s, header := Fresh(Demo(1, 0, bits)), Demo(2, 1, bits);
            && LooksBack(rules) && Checkpointed(rules, s.byHash)
            && AddHeader(rules, s, header) == Err(CheckpointMismatch)
            && AcceptHeader(rules, s, header).Ok?
            && !Checkpointed(rules, AcceptHeader(rules, s, header).value.0.byHash)
  {
    hide Compact.WorkFromBits, ForkLookup;
    var rules := Lenient(bits).(checkpoint := h => if h == 1 then Some(9) else None);
    var s, header := Fresh(Demo(1, 0, bits)), Demo(2, 1, bits);
    FreshInv(Demo(1, 0, bits));
    AcceptCheckpointedIff(rules, s, 1, header);
  }
}
