/** Every stored header carries the bits that its own ancestors require, and above the last
    checkpoint its proof of work. */
module HeaderWork {
  import opened Basics
  import opened Types
  import opened HeaderTree
  import opened HeaderSpec
  import opened HeaderBatch
  import opened HeaderForks
  import D = Difficulty

  function Below(lookup: D.Lookup, height: nat): D.Lookup {
    map k | k in lookup && k < height :: lookup[k]
  }

  /** The difficulty rule looks only at heights below the one it decides. */
  ghost predicate LooksBack(rules: HeaderRules) {
    forall height: nat, lookup: D.Lookup ::
      rules.nextBits(height, lookup) == rules.nextBits(height, Below(lookup, height))
  }

  /** The rule gives the same on lookups that agree below the height. */
  lemma SameBits(rules: HeaderRules, height: nat, a: D.Lookup, b: D.Lookup)
    requires LooksBack(rules) && Below(a, height) == b
    ensures rules.nextBits(height, a) == rules.nextBits(height, b)
  {
  }

  ghost predicate HeaderOk(rules: HeaderRules, tree: Tree, h: Hash)
    requires h in tree
  {
    var x := tree[h];
    && x.header.prevHash in tree
    && rules.nextBits(x.height, AncestorHeads(tree, x.header.prevHash)) == Some(x.header.bits)
    && (x.height > rules.lastCheckpoint ==> rules.pow(x.header))
  }

  ghost predicate Worked(rules: HeaderRules, tree: Tree, genesis: Hash) {
    forall h :: h in tree && h != genesis ==> HeaderOk(rules, tree, h)
  }

  // ---------- Ancestors do not depend on the rest of the tree ----------

  ghost predicate PartOf(part: Tree, tree: Tree) {
    forall x :: x in part ==> x in tree && tree[x] == part[x]
  }

  lemma HeadsKept(part: Tree, tree: Tree, genesis: Hash, h: Hash)
    requires WellFormed(part, genesis) && PartOf(part, tree) && h in part
    ensures AncestorHeads(part, h) == AncestorHeads(tree, h)
  {
    hide WellFormed, Walk;
    forall k: nat | k <= part[h].height
      ensures AncestorAt(part, h, k) == AncestorAt(tree, h, k) && AncestorAt(part, h, k) in part
    {
      AncestorStored(part, genesis, h, k);
      SubtreeWalk(part, tree, genesis, h, part[h].height - k);
    }
    assert AncestorHeads(part, h) == AncestorHeads(tree, h);
  }

  /** Removing headers, whole forks at a time, keeps every other header in order. */
  lemma {:induction false} PartWorked(rules: HeaderRules, part: Tree, tree: Tree, genesis: Hash)
    requires WellFormed(part, genesis) && PartOf(part, tree) && Worked(rules, tree, genesis)
    ensures Worked(rules, part, genesis)
  {
    hide AncestorHeads;
    forall h | h in part && h != genesis
      ensures HeaderOk(rules, part, h)
    {
      assert ParentOk(part, h) && HeaderOk(rules, tree, h);
      HeadsKept(part, tree, genesis, part[h].header.prevHash);
    }
  }

  // ---------- One header ----------

  lemma GenesisStored(s: Store, genesis: Hash)
    requires Inv(s, genesis)
    ensures genesis in s.byHash
  {
  }

  /** The ancestors of a header are exactly the heights up to its own. */
  lemma HeadsDomain(tree: Tree, genesis: Hash, h: Hash, k: nat)
    requires WellFormed(tree, genesis) && h in tree
    ensures k in AncestorHeads(tree, h) <==> k <= tree[h].height
  {
    hide WellFormed, Walk;
    if k <= tree[h].height {
      AncestorStored(tree, genesis, h, k);
    }
  }

  lemma ForkBelow(s: Store, genesis: Hash, h: Hash)
    requires WellFormed(s.byHash, genesis) && h in s.byHash
    ensures Below(ForkLookup(s, h), s.byHash[h].height + 1) == AncestorHeads(s.byHash, h)
  {
    hide WellFormed, AncestorHeads, ActiveLookup;
    forall k: nat
      ensures k in AncestorHeads(s.byHash, h) <==> k <= s.byHash[h].height
    {
      HeadsDomain(s.byHash, genesis, h, k);
    }
  }

  lemma ActiveBelow(s: Store, genesis: Hash)
    requires Shape(s, genesis)
    ensures |s.activeChain| > 0 && Tip(s) in s.byHash && s.byHash[Tip(s)].height == |s.activeChain| - 1
    ensures Below(ActiveLookup(s), |s.activeChain|) == AncestorHeads(s.byHash, Tip(s))
  {
    hide WorkSums, TipsChildless, Walk, WellFormed;
    var n := |s.activeChain| - 1;
    assert ActiveAt(s.byHash, s.activeChain, n);
    forall k: nat | k <= n
      ensures s.activeChain[k] in s.byHash && AncestorAt(s.byHash, Tip(s), k) == s.activeChain[k]
    {
      ActiveAncestors(s.byHash, genesis, s.activeChain, n, k);
      ActiveAncestors(s.byHash, genesis, s.activeChain, k, k);
    }
  }

  /** A header with the bits its parent's ancestors require, and its work, joins the others. */
  lemma {:induction false} InsertWorked(rules: HeaderRules, tree: Tree, genesis: Hash, header: Header)
    requires WellFormed(tree, genesis) && Addable(tree, genesis, header) && Worked(rules, tree, genesis)
    requires rules.nextBits(tree[header.prevHash].height + 1, AncestorHeads(tree, header.prevHash)) == Some(header.bits)
    requires tree[header.prevHash].height + 1 > rules.lastCheckpoint ==> rules.pow(header)
    ensures Worked(rules, Inserted(tree, header), genesis)
  {
    hide AncestorHeads, WellFormed;
    var t := Inserted(tree, header);
    forall h | h in t && h != genesis
      ensures HeaderOk(rules, t, h)
    {
      var prev := t[h].header.prevHash;
      if h != header.hash {
        assert HeaderOk(rules, tree, h);
      }
      HeadsKept(tree, t, genesis, prev);
    }
  }

  lemma {:induction false} AcceptWorked(rules: HeaderRules, s: Store, genesis: Hash, header: Header)
    requires Inv(s, genesis) && header.hash != s.byHash[genesis].header.prevHash
    requires LooksBack(rules) && Worked(rules, s.byHash, genesis)
    ensures var r := AcceptHeader(rules, s, header); r.Ok? ==> Worked(rules, r.value.0.byHash, genesis)
  {
    hide Worked, AncestorHeads, ForkLookup, LooksBack, WellFormed, WorkSums, TipsChildless, ActivePath;
    var r := AcceptHeader(rules, s, header);
    if r.Ok? && header.hash !in s.byHash {
      GenesisStored(s, genesis);
      ForkBelow(s, genesis, header.prevHash);
      SameBits(rules, s.byHash[header.prevHash].height + 1, ForkLookup(s, header.prevHash),
               AncestorHeads(s.byHash, header.prevHash));
      InsertWorked(rules, s.byHash, genesis, header);
    }
  }

  lemma {:induction false} AddWorked(rules: HeaderRules, s: Store, genesis: Hash, header: Header)
    requires Inv(s, genesis) && header.hash != s.byHash[genesis].header.prevHash
    requires LooksBack(rules) && Worked(rules, s.byHash, genesis)
    ensures var r := AddHeader(rules, s, header); r.Ok? ==> Worked(rules, r.value.byHash, genesis)
  {
    hide Worked, AncestorHeads, ActiveLookup, LooksBack, WellFormed, WorkSums, TipsChildless, ActivePath;
    InvNonempty(s, genesis);
    var r := AddHeader(rules, s, header);
    if r.Ok? {
      GenesisStored(s, genesis);
      ActiveBelow(s, genesis);
      SameBits(rules, |s.activeChain|, ActiveLookup(s), AncestorHeads(s.byHash, Tip(s)));
      InsertWorked(rules, s.byHash, genesis, header);
    }
  }

  // ---------- A batch ----------

  lemma {:induction false} AddAllWorked(rules: HeaderRules, s: Store, genesis: Hash, headers: seq<Header>)
    requires Inv(s, genesis) && |s.activeChain| > 0 && LooksBack(rules) && Worked(rules, s.byHash, genesis)
    requires forall i :: 0 <= i < |headers| ==> headers[i].hash != s.byHash[genesis].header.prevHash
    ensures var r := AddAll(rules, s, headers); r.Ok? ==> Worked(rules, r.value.byHash, genesis)
    decreases |headers|
  {
    hide Worked, LooksBack, AddHeader, Shape, BestOk;
    if headers != [] {
      var r := AddHeader(rules, s, headers[0]);
      if r.Ok? {
        GenesisStored(s, genesis);
        AddWorked(rules, s, genesis, headers[0]);
        AddHeaderInv(rules, s, genesis, headers[0]);
        AddedGenesis(rules, s, genesis, headers[0]);
        AddAllWorked(rules, r.value, genesis, headers[1..]);
      }
    }
  }

  lemma AddedGenesis(rules: HeaderRules, s: Store, genesis: Hash, header: Header)
    requires genesis in s.byHash && |s.activeChain| > 0 && AddHeader(rules, s, header).Ok?
    ensures var t := AddHeader(rules, s, header).value;
            genesis in t.byHash && t.byHash[genesis] == s.byHash[genesis] && |t.activeChain| > 0
  {
  }

  /** A committed batch keeps every header in order: it is as if added header by header. */
  lemma {:induction false} BatchWorked(rules: HeaderRules, s: Store, genesis: Hash, headers: seq<Header>)
    requires Inv(s, genesis) && Consistent(s, genesis, headers)
    requires forall i, j :: 0 <= i < j < |headers| ==> headers[i].hash != headers[j].hash
    requires LooksBack(rules) && Worked(rules, s.byHash, genesis)
    ensures |s.activeChain| > 0
    ensures var r := ValidateBatch(rules, s, headers);
            r.Ok? ==> Worked(rules, CommitAll(s, r.value).byHash, genesis)
  {
    hide Worked, LooksBack, Inv, AddAll, ValidateBatch, CommitAll, Continuous;
    BatchRefinesAdds(rules, s, genesis, headers);
    var k := KnownCount(s, headers);
    AddAllWorked(rules, s, genesis, headers[k..]);
  }
}
