/** The header store with the difficulty rules of the chain: they look back only, so every
    stored header follows them along its own ancestors. */
module HeaderDifficulty {
  import opened Basics
  import opened Types
  import opened HeaderTree
  import opened HeaderSpec
  import opened HeaderWork
  import Compact
  import D = Difficulty
  import T = DifficultyTheorems

  /** The bits the rules require; an error of theirs leaves none. */
  function RequiredBits(height: nat, lookup: D.Lookup, pid: int -> int): Option<u32> {
    match D.NextWorkRequired(height, lookup, pid)
    case Err(_) => None
    case Ok(bits) => Some(bits)
  }

  ghost predicate FollowsChainRules(rules: HeaderRules, pid: int -> int) {
    forall height: nat, lookup: D.Lookup :: rules.nextBits(height, lookup) == RequiredBits(height, lookup, pid)
  }

  lemma {:induction false} WindowBelow(chain: D.Lookup, height: nat, start: nat, j: nat)
    requires 0 < start && start + j <= height
    ensures D.Window(Below(chain, height), start, j) == D.Window(chain, start, j)
    decreases j
  {
    hide Compact.Target;
    if j > 0 {
      WindowBelow(chain, height, start, j - 1);
    }
  }

  /** No rule looks at the height it decides, or above. */
  lemma {:induction false} RulesLookBack(height: nat, chain: D.Lookup, pid: int -> int)
    ensures D.NextWorkRequired(height, Below(chain, height), pid) == D.NextWorkRequired(height, chain, pid)
  {
    hide Compact.Target, D.Encoded, D.Retarget, D.Moved, D.Halved, D.Floored, D.Window;
    if height > D.WINDOW {
      WindowBelow(chain, height, height - D.WINDOW, D.WINDOW);
    }
  }

  lemma {:induction false} ChainRulesLookBack(rules: HeaderRules, pid: int -> int)
    requires FollowsChainRules(rules, pid)
    ensures LooksBack(rules)
  {
    hide D.NextWorkRequired;
    forall height: nat, lookup: D.Lookup
      ensures rules.nextBits(height, lookup) == rules.nextBits(height, Below(lookup, height))
    {
      RulesLookBack(height, lookup, pid);
    }
  }

  /** The ancestors of a stored header, from genesis on, each carry the bits required of them. */
  lemma {:induction false} AncestorsFollow(rules: HeaderRules, tree: Tree, genesis: Hash, h: Hash, pid: int -> int,
      k: nat)
    requires WellFormed(tree, genesis) && Worked(rules, tree, genesis) && FollowsChainRules(rules, pid)
    requires h in tree && 0 < k <= tree[h].height
    ensures k in AncestorHeads(tree, h)
    ensures D.NextWorkRequired(k, AncestorHeads(tree, h), pid) == Ok(AncestorHeads(tree, h)[k].bits)
  {
    hide WellFormed, D.NextWorkRequired, Walk;
    var a := AncestorAt(tree, h, k);
    AncestorStored(tree, genesis, h, k);
    GenesisHeight(tree, genesis);
    assert HeaderOk(rules, tree, a);
    HeadsOf(tree, genesis, h, k);
    RulesLookBack(k, AncestorHeads(tree, h), pid);
  }

  lemma GenesisHeight(tree: Tree, genesis: Hash)
    requires WellFormed(tree, genesis)
    ensures genesis in tree && tree[genesis].height == 0
  {
  }

  /** Below height `k` a header shows the same as its ancestor at `k - 1`. */
  lemma HeadsOf(tree: Tree, genesis: Hash, h: Hash, k: nat)
    requires WellFormed(tree, genesis) && h in tree && 0 < k <= tree[h].height
    ensures AncestorAt(tree, h, k - 1) in tree
    ensures Below(AncestorHeads(tree, h), k) == AncestorHeads(tree, AncestorAt(tree, h, k - 1))
  {
    hide WellFormed, Walk;
    var p := AncestorAt(tree, h, k - 1);
    AncestorStored(tree, genesis, h, k - 1);
    forall i: nat | i < k
      ensures AncestorAt(tree, p, i) == AncestorAt(tree, h, i)
    {
      WalkAdd(tree, h, tree[h].height - (k - 1), (k - 1) - i);
    }
    assert Below(AncestorHeads(tree, h), k) == AncestorHeads(tree, p);
  }

  /** Every header the store holds, on any fork, has a target within the limit. */
  lemma {:induction false} StoredTargetsBounded(rules: HeaderRules, s: Store, genesis: Hash, h: Hash, pid: int -> int)
    requires Inv(s, genesis) && Worked(rules, s.byHash, genesis) && FollowsChainRules(rules, pid) && T.PidBounded(pid)
    requires Compact.Target(s.byHash[genesis].header.bits) <= D.POW_LIMIT && h in s.byHash
    ensures Compact.Target(s.byHash[h].header.bits) <= D.POW_LIMIT
  {
    hide Compact.Target, D.NextWorkRequired, T.PidBounded, Walk, FollowsChainRules;
    var tree, chain := s.byHash, AncestorHeads(s.byHash, h);
    var n := tree[h].height;
    forall k | 0 < k < n + 1
      ensures k in chain && D.NextWorkRequired(k, chain, pid) == Ok(chain[k].bits)
    {
      AncestorsFollow(rules, tree, genesis, h, pid, k);
    }
    AncestorStored(tree, genesis, h, 0);
    AncestorStored(tree, genesis, h, n);
    WalkNone(tree, h);
    T.ChainTargetsBounded(chain, n + 1, pid);
    assert chain[n] == HeadOf(tree, h);
  }

  lemma WalkNone(tree: Tree, h: Hash)
    ensures Walk(tree, h, 0) == h
  {
  }
}
