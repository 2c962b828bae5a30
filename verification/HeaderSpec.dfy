/** The header store as a value: the tree, the redundant indexes over it, and the rules for
    extending it. */
module HeaderSpec {
  import opened Basics
  import opened Types
  import opened HeaderTree
  import Compact
  import D = Difficulty

  datatype Best = Best(hash: Hash, work: nat)

  datatype Store = Store(
    byHash: Tree,
    activeChain: seq<Hash>,
    activeSet: set<Hash>,
    tips: set<Hash>,
    best: Best,
    invalidTips: set<Hash>)

  /** The difficulty rule, checkpoints and proof of work, as arbitrary functions. */
  datatype HeaderRules = HeaderRules(
    nextBits: (nat, D.Lookup) -> Option<u32>,
    checkpoint: nat -> Option<Hash>,
    lastCheckpoint: nat,
    pow: Header -> bool)

  datatype HeaderError =
    | Duplicate | NotOnTip | Orphan | HeightOverflow | MissingAncestor | WrongBits
    | CheckpointMismatch | BadProofOfWork | ExtendsInvalid | BrokenContinuity

  // ---------- Invariant ----------

  function Members(chain: seq<Hash>): set<Hash> {
    set i | 0 <= i < |chain| :: chain[i]
  }

  /** Position `h` of the active chain holds a header of height `h` on top of the one below. */
  ghost predicate ActiveAt(tree: Tree, chain: seq<Hash>, i: nat)
    requires i < |chain|
  {
    && chain[i] in tree && tree[chain[i]].height == i
    && (i > 0 ==> tree[chain[i]].header.prevHash == chain[i - 1])
  }

  ghost predicate ActivePath(tree: Tree, genesis: Hash, chain: seq<Hash>) {
    && |chain| > 0 && chain[0] == genesis
    && forall i :: 0 <= i < |chain| ==> ActiveAt(tree, chain, i)
  }

  ghost predicate HasChild(tree: Tree, h: Hash) {
    exists c :: c in tree && tree[c].header.prevHash == h
  }

  ghost predicate TipsChildless(tree: Tree, tips: set<Hash>) {
    forall t :: t in tips ==> t in tree && !HasChild(tree, t)
  }

  function Tip(s: Store): Hash
    requires |s.activeChain| > 0
  {
    s.activeChain[|s.activeChain| - 1]
  }

  /** The best tip is stored with its work, which no candidate exceeds. */
  ghost predicate BestOk(s: Store) {
    && s.best.hash in s.byHash && s.best.work == s.byHash[s.best.hash].chainwork
    && |s.activeChain| > 0 && Tip(s) in s.byHash && s.byHash[Tip(s)].chainwork <= s.best.work
    && forall t :: t in s.tips && t in s.byHash ==> s.byHash[t].chainwork <= s.best.work
  }

  /** Everything except the best tip. */
  ghost predicate Shape(s: Store, genesis: Hash) {
    && WellFormed(s.byHash, genesis) && WorkSums(s.byHash, genesis)
    && ActivePath(s.byHash, genesis, s.activeChain) && s.activeSet == Members(s.activeChain)
    && TipsChildless(s.byHash, s.tips)
  }

  ghost predicate Inv(s: Store, genesis: Hash) {
    Shape(s, genesis) && BestOk(s)
  }

  /** `make_fresh`. */
  function Fresh(header: Header): Store {
    var work := Compact.WorkFromBits(header.bits);
    Store(map[header.hash := Stored(header, 0, work)], [header.hash], {header.hash}, {header.hash},
          Best(header.hash, work), {})
  }

  lemma {:induction false} FreshInv(header: Header)
    requires header.prevHash != header.hash
    ensures Inv(Fresh(header), header.hash)
  {
    hide Compact.WorkFromBits;
    var s := Fresh(header);
    assert Members(s.activeChain) == {header.hash} by {
      assert s.activeChain[0] == header.hash;
    }
  }

  // ---------- Inserting a header ----------

  function Inserted(tree: Tree, header: Header): Tree
    requires header.prevHash in tree
  {
    var parent := tree[header.prevHash];
    tree[header.hash := Stored(header, parent.height + 1, parent.chainwork + Compact.WorkFromBits(header.bits))]
  }

  /** A header can be added: its parent is known, it is not, and it is not the null hash. */
  ghost predicate Addable(tree: Tree, genesis: Hash, header: Header) {
    && genesis in tree && header.prevHash in tree && header.hash !in tree
    && header.hash != tree[genesis].header.prevHash
  }

  lemma InsertWellFormed(tree: Tree, genesis: Hash, header: Header)
    requires WellFormed(tree, genesis) && WorkSums(tree, genesis) && Addable(tree, genesis, header)
    ensures WellFormed(Inserted(tree, header), genesis) && WorkSums(Inserted(tree, header), genesis)
  {
    hide Compact.WorkFromBits;
    var t := Inserted(tree, header);
    forall h | h in t && h != genesis
      ensures ParentOk(t, h) && WorkOk(t, h)
    {
      if h in tree {
        assert ParentOk(tree, h) && WorkOk(tree, h);
      }
    }
  }

  /** A new header has no child, and only its parent gains one. */
  lemma InsertChildren(tree: Tree, genesis: Hash, header: Header, h: Hash)
    requires WellFormed(tree, genesis) && Addable(tree, genesis, header)
    requires h in tree || h == header.hash
    ensures HasChild(Inserted(tree, header), h) <==> h == header.prevHash || (h in tree && HasChild(tree, h))
  {
    hide Compact.WorkFromBits;
    var t := Inserted(tree, header);
    assert t[header.hash].header.prevHash == header.prevHash;
    if h in tree && HasChild(tree, h) {
      var c :| c in tree && tree[c].header.prevHash == h;
      assert c in t && t[c].header.prevHash == h;
    }
    if HasChild(t, h) && h != header.prevHash {
      var c :| c in t && t[c].header.prevHash == h;
      assert c in tree;
      assert c != genesis ==> ParentOk(tree, c);
    }
  }

  function NewTips(tips: set<Hash>, header: Header): set<Hash> {
    tips - {header.prevHash} + {header.hash}
  }

  lemma InsertTips(tree: Tree, genesis: Hash, header: Header, tips: set<Hash>)
    requires WellFormed(tree, genesis) && Addable(tree, genesis, header) && TipsChildless(tree, tips)
    ensures TipsChildless(Inserted(tree, header), NewTips(tips, header))
  {
    hide Compact.WorkFromBits, WellFormed, HasChild;
    forall t | t in NewTips(tips, header)
      ensures t in Inserted(tree, header) && !HasChild(Inserted(tree, header), t)
    {
      InsertChildren(tree, genesis, header, t);
    }
  }

  lemma InsertActive(tree: Tree, genesis: Hash, header: Header, chain: seq<Hash>)
    requires ActivePath(tree, genesis, chain) && Addable(tree, genesis, header)
    ensures ActivePath(Inserted(tree, header), genesis, chain)
    ensures header.prevHash == chain[|chain| - 1] ==> ActivePath(Inserted(tree, header), genesis, chain + [header.hash])
  {
    hide Compact.WorkFromBits;
    var t := Inserted(tree, header);
    forall i | 0 <= i < |chain|
      ensures ActiveAt(t, chain, i)
    {
      assert ActiveAt(tree, chain, i);
    }
    if header.prevHash == chain[|chain| - 1] {
      var longer := chain + [header.hash];
      assert ActiveAt(tree, chain, |chain| - 1);
      forall i | 0 <= i < |longer|
        ensures ActiveAt(t, longer, i)
      {
        if i < |chain| {
          assert ActiveAt(t, chain, i);
        }
      }
    }
  }

  lemma MembersAppend(chain: seq<Hash>, h: Hash)
    ensures Members(chain + [h]) == Members(chain) + {h}
  {
    var longer := chain + [h];
    assert longer[|chain|] == h;
    forall x | x in Members(chain)
      ensures x in Members(longer)
    {
      var i :| 0 <= i < |chain| && chain[i] == x;
      assert longer[i] == x;
    }
  }

  // ---------- The two ways to add a header ----------

  function Better(s: Store, hash: Hash, work: nat): Best {
    if work > s.best.work then Best(hash, work) else s.best
  }

  /** The tree and tips with a new header; `extend` appends it to the active chain. */
  function WithHeader(s: Store, header: Header, extend: bool): Store
    requires header.prevHash in s.byHash
  {
    var tree := Inserted(s.byHash, header);
    Store(tree,
          if extend then s.activeChain + [header.hash] else s.activeChain,
          if extend then s.activeSet + {header.hash} else s.activeSet,
          NewTips(s.tips, header),
          Better(s, header.hash, tree[header.hash].chainwork),
          s.invalidTips)
  }

  lemma WithHeaderInv(s: Store, genesis: Hash, header: Header, extend: bool)
    requires Inv(s, genesis) && Addable(s.byHash, genesis, header)
    requires extend ==> header.prevHash == Tip(s)
    ensures Inv(WithHeader(s, header, extend), genesis)
  {
    hide WellFormed, WorkSums, TipsChildless, Compact.WorkFromBits;
    InsertWellFormed(s.byHash, genesis, header);
    InsertTips(s.byHash, genesis, header, s.tips);
    InsertActive(s.byHash, genesis, header, s.activeChain);
    MembersAppend(s.activeChain, header.hash);
    assert ActiveAt(s.byHash, s.activeChain, |s.activeChain| - 1);
  }

  /** `ChainLookup` of the store: the active chain. */
  function HeadOf(tree: Tree, h: Hash): D.Head
    requires h in tree
  {
    D.Head(tree[h].header.timestamp, tree[h].header.bits)
  }

  function ActiveLookup(s: Store): D.Lookup {
    map i: nat | 0 <= i < |s.activeChain| && s.activeChain[i] in s.byHash :: HeadOf(s.byHash, s.activeChain[i])
  }

  /** The checks that do not depend on the parent: bits, checkpoint, proof of work. */
  function CheckWork(rules: HeaderRules, header: Header, height: nat, lookup: D.Lookup,
      checkpoints: bool): Option<HeaderError> {
    match rules.nextBits(height, lookup)
    case None => Some(MissingAncestor)
    case Some(bits) =>
      if header.bits != bits then Some(WrongBits)
      else if checkpoints && rules.checkpoint(height).Some? && rules.checkpoint(height).value != header.hash then Some(CheckpointMismatch)
      else if height > rules.lastCheckpoint && !rules.pow(header) then Some(BadProofOfWork)
      else None
  }

  /** `add_header`: linear extension of the active chain. */
  function AddHeader(rules: HeaderRules, s: Store, header: Header): Result<Store, HeaderError>
    requires |s.activeChain| > 0
  {
    var height := |s.activeChain|;
    if header.hash in s.byHash then Err(Duplicate)
    else if header.prevHash != Tip(s) then Err(if header.prevHash in s.byHash then NotOnTip else Orphan)
    else if height > MAX_U32 then Err(HeightOverflow)
    else if header.prevHash !in s.byHash then Err(Orphan)
    else
      match CheckWork(rules, header, height, ActiveLookup(s), true)
      case Some(e) => Err(e)
      case None => Ok(WithHeader(s, header, true))
  }

  /** The heads of a header and its ancestors, by height. */
  function AncestorHeads(tree: Tree, h: Hash): D.Lookup
    requires h in tree
  {
    map k: nat | 0 <= k <= tree[h].height && AncestorAt(tree, h, k) in tree :: HeadOf(tree, AncestorAt(tree, h, k))
  }

  /** What `ForkLookup` shows: the ancestors, and above them the active chain. */
  function ForkLookup(s: Store, start: Hash): D.Lookup
    requires start in s.byHash
  {
    ActiveLookup(s) + AncestorHeads(s.byHash, start)
  }

  datatype AcceptResult = Accepted | NeedReorg | AlreadyKnown

  /** `accept_header`: extension of any known header. */
  function AcceptHeader(rules: HeaderRules, s: Store, header: Header): Result<(Store, AcceptResult), HeaderError>
    requires |s.activeChain| > 0
  {
    if header.hash in s.byHash then Ok((s, AlreadyKnown))
    else if header.prevHash in s.invalidTips then Err(ExtendsInvalid)
    else if header.prevHash !in s.byHash then Err(Orphan)
    else
      var height := s.byHash[header.prevHash].height + 1;
      if height > MAX_U32 then Err(HeightOverflow)
      else
        match CheckWork(rules, header, height, ForkLookup(s, header.prevHash), false)
        case Some(e) => Err(e)
        case None =>
          var better := Inserted(s.byHash, header)[header.hash].chainwork > s.best.work;
          var onTip := header.prevHash == Tip(s);
          Ok((WithHeader(s, header, better && onTip), if better && !onTip then NeedReorg else Accepted))
  }

  lemma {:induction false} AddHeaderInv(rules: HeaderRules, s: Store, genesis: Hash, header: Header)
    requires Inv(s, genesis) && header.hash != s.byHash[genesis].header.prevHash
    ensures var r := AddHeader(rules, s, header); r.Ok? ==> Inv(r.value, genesis)
  {
    hide Inserted, ActiveLookup, CheckWork;
    if AddHeader(rules, s, header).Ok? {
      WithHeaderInv(s, genesis, header, true);
    }
  }

  lemma {:induction false} AcceptHeaderInv(rules: HeaderRules, s: Store, genesis: Hash, header: Header)
    requires Inv(s, genesis) && header.hash != s.byHash[genesis].header.prevHash
    ensures var r := AcceptHeader(rules, s, header); r.Ok? ==> Inv(r.value.0, genesis)
  {
    hide Inserted, ForkLookup, CheckWork, WithHeader;
    var r := AcceptHeader(rules, s, header);
    if r.Ok? && header.hash !in s.byHash {
      WithHeaderInv(s, genesis, header, true && header.prevHash == Tip(s));
      WithHeaderInv(s, genesis, header, false);
    }
  }
}
