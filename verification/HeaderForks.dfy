/** Forks of the header tree: switching the active chain, removing a fork, and what a
    fork's own ancestry looks like. */
module HeaderForks {
  import opened Basics
  import opened Types
  import opened HeaderTree
  import opened HeaderSpec
  import Compact
  import D = Difficulty

  // ---------- The active chain is an ancestor walk ----------

  lemma {:induction false} ActiveAncestors(tree: Tree, genesis: Hash, chain: seq<Hash>, i: nat, k: nat)
    requires ActivePath(tree, genesis, chain) && k <= i < |chain|
    ensures chain[i] in tree && tree[chain[i]].height == i
    ensures Walk(tree, chain[i], i - k) == chain[k]
    decreases i - k
  {
    assert ActiveAt(tree, chain, i);
    if k < i {
      ActiveAncestors(tree, genesis, chain, i - 1, k);
    }
  }

  /** A stored header of the active set stands at its own height. */
  lemma MemberPosition(tree: Tree, genesis: Hash, chain: seq<Hash>, h: Hash)
    requires ActivePath(tree, genesis, chain) && h in Members(chain)
    ensures h in tree && tree[h].height < |chain| && chain[tree[h].height] == h
  {
    var i :| 0 <= i < |chain| && chain[i] == h;
    assert ActiveAt(tree, chain, i);
  }

  ghost predicate HeadsAncestor(tree: Tree, start: Hash, k: nat, head: D.Head) {
    && start in tree && k <= tree[start].height
    && AncestorAt(tree, start, k) in tree && head == HeadOf(tree, AncestorAt(tree, start, k))
  }

  /** `ForkLookup`: walking back from `start` to the active chain and falling back to the
      active chain below gives, at every height up to `start`, the head of the ancestor
      there. */
  lemma {:induction false} ForkHeadsAgree(s: Store, genesis: Hash, start: Hash, h: nat, fork: D.Lookup)
    requires Shape(s, genesis) && start in s.byHash && h <= s.byHash[start].height
    requires AncestorAt(s.byHash, start, h) in s.activeSet
    requires forall k: nat :: k in fork <==> h < k <= s.byHash[start].height
    requires forall k: nat :: k in fork ==> HeadsAncestor(s.byHash, start, k, fork[k])
    ensures ActiveLookup(s) + fork == ForkLookup(s, start)
  {
    hide WorkSums, TipsChildless, Walk;
    var tree, heads := s.byHash, AncestorHeads(s.byHash, start);
    var a, b := ActiveLookup(s) + fork, ForkLookup(s, start);
    forall k: nat
      ensures k in a <==> k in b
      ensures k in a ==> a[k] == b[k]
    {
      if k <= tree[start].height {
        AncestorStored(tree, genesis, start, k);
        if k <= h {
          SharedAncestor(s, genesis, start, h, k);
        }
      }
    }
    assert a == b;
  }

  lemma SharedAncestor(s: Store, genesis: Hash, start: Hash, h: nat, k: nat)
    requires Shape(s, genesis) && start in s.byHash && k <= h <= s.byHash[start].height
    requires AncestorAt(s.byHash, start, h) in s.activeSet
    ensures k < |s.activeChain| && AncestorAt(s.byHash, start, k) == s.activeChain[k]
  {
    hide WorkSums, TipsChildless, Walk, WellFormed;
    var tree, x := s.byHash, AncestorAt(s.byHash, start, h);
    AncestorStored(tree, genesis, start, h);
    MemberPosition(tree, genesis, s.activeChain, x);
    ActiveAncestors(tree, genesis, s.activeChain, h, k);
    WalkAdd(tree, start, tree[start].height - h, h - k);
  }

  // ---------- Switching ----------

  /** Genesis to `tip`, one header per height. */
  function ChainTo(tree: Tree, tip: Hash): (chain: seq<Hash>)
    requires tip in tree
    ensures |chain| == tree[tip].height + 1
    ensures forall k :: 0 <= k < |chain| ==> chain[k] == AncestorAt(tree, tip, k)
  {
    seq(tree[tip].height + 1, k requires 0 <= k < tree[tip].height + 1 => AncestorAt(tree, tip, k))
  }

  lemma {:induction false} ChainToActive(tree: Tree, genesis: Hash, tip: Hash)
    requires WellFormed(tree, genesis) && tip in tree
    ensures ActivePath(tree, genesis, ChainTo(tree, tip))
    ensures ChainTo(tree, tip)[tree[tip].height] == tip
  {
    hide WellFormed, Walk;
    var chain := ChainTo(tree, tip);
    forall i | 0 <= i < |chain|
      ensures ActiveAt(tree, chain, i)
    {
      AncestorStored(tree, genesis, tip, i);
    }
    AncestorStored(tree, genesis, tip, 0);
    ZeroWalk(tree, tip);
  }

  /** The store after `switch_active_chain`, before the best tip is recomputed. */
  function Switched(s: Store, newTip: Hash): Store
    requires newTip in s.byHash && |s.activeChain| > 0
  {
    var chain := ChainTo(s.byHash, newTip);
    s.(activeChain := chain, activeSet := Members(chain), tips := s.tips + {Tip(s)} - {newTip})
  }

  /** Switching keeps the shape of the store exactly when the old tip had no child (or is
      the new tip): it is put among the tips without looking. */
  lemma {:induction false} SwitchKeepsShapeIff(s: Store, genesis: Hash, newTip: Hash)
    requires Shape(s, genesis) && newTip in s.byHash
    ensures |s.activeChain| > 0 && Tip(s) in s.byHash
    ensures Shape(Switched(s, newTip), genesis) <==> Tip(s) == newTip || !HasChild(s.byHash, Tip(s))
  {
    hide WellFormed, WorkSums, HasChild, ChainTo;
    assert ActiveAt(s.byHash, s.activeChain, |s.activeChain| - 1);
    ChainToActive(s.byHash, genesis, newTip);
    var s' := Switched(s, newTip);
    if Tip(s) != newTip {
      assert Tip(s) in s'.tips;
    }
  }

  // ---------- Removing a leaf ----------

  lemma RemoveLeafTree(tree: Tree, genesis: Hash, x: Hash)
    requires WellFormed(tree, genesis) && WorkSums(tree, genesis) && x in tree && x != genesis && !HasChild(tree, x)
    ensures WellFormed(tree - {x}, genesis) && WorkSums(tree - {x}, genesis)
  {
    hide Compact.WorkFromBits;
    var t := tree - {x};
    forall h | h in t && h != genesis
      ensures ParentOk(t, h) && WorkOk(t, h)
    {
      assert ParentOk(tree, h) && WorkOk(tree, h);
      assert tree[h].header.prevHash != x;
    }
  }

  lemma RemoveLeafShape(s: Store, genesis: Hash, x: Hash)
    requires Shape(s, genesis) && x in s.byHash && x !in s.activeSet && x !in s.tips && !HasChild(s.byHash, x)
    ensures Shape(s.(byHash := s.byHash - {x}), genesis)
  {
    var t := s.byHash - {x};
    assert genesis in s.activeSet by {
      assert s.activeChain[0] == genesis;
    }
    RemoveLeafTree(s.byHash, genesis, x);
    hide WellFormed, WorkSums;
    forall i | 0 <= i < |s.activeChain|
      ensures ActiveAt(t, s.activeChain, i)
    {
      assert ActiveAt(s.byHash, s.activeChain, i);
      assert s.activeChain[i] in s.activeSet;
    }
    forall h | h in s.tips
      ensures h in t && !HasChild(t, h)
    {
    }
  }

  // ---------- A run that reaches the failing case ----------

  /** Rules that accept every header with the given bits. */
  function Lenient(bits: u32): HeaderRules {
    HeaderRules((h, l) => Some(bits), h => None, MAX_U32, x => true)
  }

  function Demo(hash: Hash, prev: Hash, bits: u32): Header {
    Header(hash, prev, 0, bits)
  }

  lemma AcceptNew(s: Store, header: Header, parent: Stored)
    requires |s.activeChain| > 0 && header.hash !in s.byHash && header.prevHash !in s.invalidTips
    requires header.prevHash in s.byHash && s.byHash[header.prevHash] == parent && parent.height < MAX_U32
    ensures var extend := parent.chainwork + Compact.WorkFromBits(header.bits) > s.best.work && header.prevHash == Tip(s);
            var r := AcceptHeader(Lenient(header.bits), s, header);
            r.Ok? && r.value.0 == WithHeader(s, header, extend)
  {
    hide ForkLookup, Compact.WorkFromBits;
  }

  /** Genesis 1, its children 2 (active) and 3, then 4 on 3, then 5 on 2. With equal work
      each, 4 becomes the best tip while the active tip 2 gets a child that is not appended.
      Switching to 4 makes 2 a tip although it has a child, and removing that tip's fork
      would leave 5 without its parent. */
  lemma {:induction false} SwitchFailsReachably(bits: u32)
    requires Compact.WorkFromBits(bits) > 0
    ensures var r := Lenient(bits);
            var s0 := Fresh(Demo(1, 0, bits));
            && AcceptHeader(r, s0, Demo(2, 1, bits)).Ok?
            && var s1 := AcceptHeader(r, s0, Demo(2, 1, bits)).value.0;
            && AcceptHeader(r, s1, Demo(3, 1, bits)).Ok?
            && var s2 := AcceptHeader(r, s1, Demo(3, 1, bits)).value.0;
            && AcceptHeader(r, s2, Demo(4, 3, bits)).Ok?
            && var s3 := AcceptHeader(r, s2, Demo(4, 3, bits)).value.0;
            && AcceptHeader(r, s3, Demo(5, 2, bits)).Ok?
            && var s4 := AcceptHeader(r, s3, Demo(5, 2, bits)).value.0;
            && Inv(s4, 1) && s4.best.hash == 4 && Tip(s4) == 2
            && !Shape(Switched(s4, 4), 1) && 2 in Switched(s4, 4).tips
            && !WellFormed(s4.byHash - {2}, 1)
  {
    hide Compact.WorkFromBits, AcceptHeader, Inv, Shape, WellFormed;
    var w := Compact.WorkFromBits(bits);
    var s0 := Fresh(Demo(1, 0, bits));
    FreshInv(Demo(1, 0, bits));
    AcceptNew(s0, Demo(2, 1, bits), Stored(Demo(1, 0, bits), 0, w));
    var s1 := WithHeader(s0, Demo(2, 1, bits), true);
    WithHeaderInv(s0, 1, Demo(2, 1, bits), true);
    AcceptNew(s1, Demo(3, 1, bits), Stored(Demo(1, 0, bits), 0, w));
    var s2 := WithHeader(s1, Demo(3, 1, bits), false);
    WithHeaderInv(s1, 1, Demo(3, 1, bits), false);
    AcceptNew(s2, Demo(4, 3, bits), Stored(Demo(3, 1, bits), 1, w + w));
    var s3 := WithHeader(s2, Demo(4, 3, bits), false);
    WithHeaderInv(s2, 1, Demo(4, 3, bits), false);
    AcceptNew(s3, Demo(5, 2, bits), Stored(Demo(2, 1, bits), 1, w + w));
    var s4 := WithHeader(s3, Demo(5, 2, bits), false);
    WithHeaderInv(s3, 1, Demo(5, 2, bits), false);
    assert s4.byHash[5].header.prevHash == 2;
    SwitchedBreaks(s4, 4);
    OrphanBreaks(s4.byHash - {2}, 1, 5);
  }

  lemma SwitchedBreaks(s: Store, newTip: Hash)
    requires Inv(s, 1) && newTip in s.byHash && Tip(s) != newTip && HasChild(s.byHash, Tip(s))
    ensures !Shape(Switched(s, newTip), 1) && Tip(s) in Switched(s, newTip).tips
  {
    SwitchKeepsShapeIff(s, 1, newTip);
  }

  lemma OrphanBreaks(tree: Tree, genesis: Hash, h: Hash)
    requires h in tree && h != genesis && tree[h].header.prevHash !in tree
    ensures !WellFormed(tree, genesis)
  {
  }
}
