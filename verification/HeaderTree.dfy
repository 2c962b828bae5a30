/** The tree of block headers and walks along its parent links. */
module HeaderTree {
  import opened Basics
  import opened Types
  import Compact

  datatype Stored = Stored(header: Header, height: nat, chainwork: nat)

  type Tree = map<Hash, Stored>

  /** A non-genesis header has a stored parent one lower. */
  ghost predicate ParentOk(tree: Tree, h: Hash)
    requires h in tree
  {
    && tree[h].height > 0
    && tree[h].header.prevHash in tree
    && tree[tree[h].header.prevHash].height + 1 == tree[h].height
  }

  ghost predicate WellFormed(tree: Tree, genesis: Hash) {
    && genesis in tree && tree[genesis].height == 0 && tree[genesis].header.prevHash !in tree
    && (forall h :: h in tree ==> tree[h].header.hash == h)
    && (forall h :: h in tree && h != genesis ==> ParentOk(tree, h))
  }

  /** The cumulative work of a header is its parent's plus its own. */
  ghost predicate WorkOk(tree: Tree, h: Hash)
    requires h in tree
  {
    tree[h].header.prevHash in tree &&
    tree[h].chainwork == tree[tree[h].header.prevHash].chainwork + Compact.WorkFromBits(tree[h].header.bits)
  }

  ghost predicate WorkSums(tree: Tree, genesis: Hash) {
    forall h :: h in tree && h != genesis ==> WorkOk(tree, h)
  }

  /** The `n`-th ancestor. */
  function Walk(tree: Tree, h: Hash, n: nat): Hash
    decreases n
  {
    if n == 0 || h !in tree then h else Walk(tree, tree[h].header.prevHash, n - 1)
  }

  lemma {:induction false} WalkStored(tree: Tree, genesis: Hash, h: Hash, n: nat)
    requires WellFormed(tree, genesis) && h in tree && n <= tree[h].height
    ensures Walk(tree, h, n) in tree && tree[Walk(tree, h, n)].height == tree[h].height - n
    decreases n
  {
    if n > 0 {
      assert h != genesis;
      assert ParentOk(tree, h);
      WalkStored(tree, genesis, tree[h].header.prevHash, n - 1);
    }
  }

  lemma {:induction false} WalkAdd(tree: Tree, h: Hash, m: nat, n: nat)
    ensures Walk(tree, Walk(tree, h, m), n) == Walk(tree, h, m + n)
    decreases m
  {
    if m > 0 && h in tree {
      WalkAdd(tree, tree[h].header.prevHash, m - 1, n);
    } else if h !in tree {
      assert Walk(tree, h, n) == h;
    }
  }

  /** One more step. */
  lemma WalkNext(tree: Tree, genesis: Hash, h: Hash, n: nat)
    requires WellFormed(tree, genesis) && h in tree && n <= tree[h].height
    ensures Walk(tree, h, n) in tree
    ensures Walk(tree, h, n + 1) == tree[Walk(tree, h, n)].header.prevHash
  {
    WalkStored(tree, genesis, h, n);
    WalkAdd(tree, h, n, 1);
    assert Walk(tree, Walk(tree, h, n), 1) == tree[Walk(tree, h, n)].header.prevHash;
  }

  /** Every header descends from genesis. */
  lemma {:induction false} WalkToGenesis(tree: Tree, genesis: Hash, h: Hash)
    requires WellFormed(tree, genesis) && h in tree
    ensures Walk(tree, h, tree[h].height) == genesis
  {
    WalkStored(tree, genesis, h, tree[h].height);
    var w := Walk(tree, h, tree[h].height);
    assert w != genesis ==> ParentOk(tree, w);
  }

  /** A walk inside a part of the tree is a walk in the tree. */
  lemma {:induction false} SubtreeWalk(part: Tree, tree: Tree, genesis: Hash, h: Hash, n: nat)
    requires WellFormed(part, genesis) && forall x :: x in part ==> x in tree && tree[x] == part[x]
    requires h in part && n <= part[h].height
    ensures Walk(part, h, n) == Walk(tree, h, n)
    decreases n
  {
    if n > 0 {
      assert h != genesis;
      assert ParentOk(part, h);
      SubtreeWalk(part, tree, genesis, part[h].header.prevHash, n - 1);
    }
  }

  /** The ancestor at a given height. */
  function AncestorAt(tree: Tree, h: Hash, k: nat): Hash
    requires h in tree && k <= tree[h].height
  {
    Walk(tree, h, tree[h].height - k)
  }

  ghost predicate IsAncestor(tree: Tree, a: Hash, h: Hash) {
    a in tree && h in tree && tree[a].height <= tree[h].height && AncestorAt(tree, h, tree[a].height) == a
  }

  lemma {:induction false} AncestorTrans(tree: Tree, genesis: Hash, a: Hash, b: Hash, c: Hash)
    requires WellFormed(tree, genesis) && IsAncestor(tree, a, b) && IsAncestor(tree, b, c)
    ensures IsAncestor(tree, a, c)
  {
    hide WellFormed, Walk;
    WalkAdd(tree, c, tree[c].height - tree[b].height, tree[b].height - tree[a].height);
  }

  lemma WalkIsAncestor(tree: Tree, genesis: Hash, h: Hash, n: nat)
    requires WellFormed(tree, genesis) && h in tree && n <= tree[h].height
    ensures IsAncestor(tree, Walk(tree, h, n), h)
  {
    hide WellFormed, Walk;
    WalkStored(tree, genesis, h, n);
  }

  /** `f` is the highest header that both descend from. */
  ghost predicate IsForkPoint(tree: Tree, a: Hash, b: Hash, f: Hash) {
    && IsAncestor(tree, f, a) && IsAncestor(tree, f, b)
    && forall c :: IsAncestor(tree, c, a) && IsAncestor(tree, c, b) ==> tree[c].height <= tree[f].height
  }

  /** Two headers have one fork point. */
  lemma {:induction false} ForkPointUnique(tree: Tree, a: Hash, b: Hash, f: Hash, g: Hash)
    requires IsForkPoint(tree, a, b, f) && IsForkPoint(tree, a, b, g)
    ensures f == g
  {
    assert tree[f].height == tree[g].height;
  }

  /** Walking down to height `k`, as `find_fork_point` does on the higher side. */
  method WalkDown(tree: Tree, ghost genesis: Hash, h: Hash, k: nat) returns (a: Hash)
    requires WellFormed(tree, genesis) && h in tree && k <= tree[h].height
    ensures a == AncestorAt(tree, h, k)
  {
    hide WellFormed;
    a := h;
    var height := tree[h].height;
    while height > k
      invariant k <= height <= tree[h].height
      invariant a == Walk(tree, h, tree[h].height - height)
    {
      WalkNext(tree, genesis, h, tree[h].height - height);
      a := tree[a].header.prevHash;
      height := height - 1;
    }
  }

  lemma AncestorStored(tree: Tree, genesis: Hash, h: Hash, k: nat)
    requires WellFormed(tree, genesis) && h in tree && k <= tree[h].height
    ensures AncestorAt(tree, h, k) in tree && tree[AncestorAt(tree, h, k)].height == k
    ensures k > 0 ==> tree[AncestorAt(tree, h, k)].header.prevHash == AncestorAt(tree, h, k - 1)
    ensures k == 0 ==> AncestorAt(tree, h, k) == genesis
  {
    hide WellFormed, Walk;
    WalkStored(tree, genesis, h, tree[h].height - k);
    WalkNext(tree, genesis, h, tree[h].height - k);
    WalkToGenesis(tree, genesis, h);
  }

  /** Meeting at height `k`, with different ancestors at every height above, makes a fork point. */
  lemma {:induction false} MeetingIsForkPoint(tree: Tree, genesis: Hash, a: Hash, b: Hash, k: nat)
    requires WellFormed(tree, genesis) && a in tree && b in tree && k <= Min(tree[a].height, tree[b].height)
    requires AncestorAt(tree, a, k) == AncestorAt(tree, b, k)
    requires forall i :: k < i <= Min(tree[a].height, tree[b].height) ==> AncestorAt(tree, a, i) != AncestorAt(tree, b, i)
    ensures IsForkPoint(tree, a, b, AncestorAt(tree, a, k))
  {
    hide WellFormed, Walk;
    AncestorStored(tree, genesis, a, k);
    AncestorStored(tree, genesis, b, k);
    forall c | IsAncestor(tree, c, a) && IsAncestor(tree, c, b)
      ensures tree[c].height <= k
    {
      assert AncestorAt(tree, a, tree[c].height) == AncestorAt(tree, b, tree[c].height);
    }
  }

  /** `find_fork_point`: it fails only on an unknown hash, and finds the highest common
      ancestor. The bound on its steps is never reached. */
  method FindForkPoint(tree: Tree, ghost genesis: Hash, hashA: Hash, hashB: Hash) returns (r: Option<Hash>)
    requires WellFormed(tree, genesis)
    ensures r.Some? <==> hashA in tree && hashB in tree
    ensures r.Some? ==> IsForkPoint(tree, hashA, hashB, r.value)
  {
    hide WellFormed, Walk, IsForkPoint, AncestorAt;
    if hashA !in tree || hashB !in tree {
      return None;
    }
    var height := Min(tree[hashA].height, tree[hashB].height);
    var a := WalkDown(tree, genesis, hashA, height);
    var b := WalkDown(tree, genesis, hashB, height);
    var steps := 0;
    AncestorStored(tree, genesis, hashA, height);
    AncestorStored(tree, genesis, hashB, height);
    while a != b
      invariant 0 <= steps <= height
      invariant a == AncestorAt(tree, hashA, height - steps) && b == AncestorAt(tree, hashB, height - steps)
      invariant forall k :: height - steps < k <= height ==> AncestorAt(tree, hashA, k) != AncestorAt(tree, hashB, k)
      decreases height - steps
    {
      AncestorStored(tree, genesis, hashA, height - steps);
      AncestorStored(tree, genesis, hashB, height - steps);
      if steps > height {
        assert false;
      }
      a := tree[a].header.prevHash;
      b := tree[b].header.prevHash;
      steps := steps + 1;
    }
    MeetingIsForkPoint(tree, genesis, hashA, hashB, height - steps);
    return Some(a);
  }

  // ---------- Paths ----------

  datatype Entry = Entry(hash: Hash, height: nat)

  /** The ancestors of `to` above height `base`, lowest first. */
  function PathAbove(tree: Tree, to: Hash, base: nat): (path: seq<Entry>)
    requires to in tree && base <= tree[to].height
    ensures |path| == tree[to].height - base
    ensures forall i :: 0 <= i < |path| ==> path[i] == Entry(AncestorAt(tree, to, base + 1 + i), base + 1 + i)
  {
    seq(tree[to].height - base, i requires 0 <= i < tree[to].height - base =>
      Entry(AncestorAt(tree, to, base + 1 + i), base + 1 + i))
  }

  /** `hashes` leads from `from` (exclusive) to `to` (inclusive) along parent links. */
  ghost predicate Leads(tree: Tree, from: Hash, to: Hash, hashes: seq<Hash>) {
    && (forall i :: 0 <= i < |hashes| ==> LinkedAt(tree, from, hashes, i))
    && to == if hashes == [] then from else hashes[|hashes| - 1]
  }

  ghost predicate LinkedAt(tree: Tree, from: Hash, hashes: seq<Hash>, i: nat)
    requires i < |hashes|
  {
    hashes[i] in tree && tree[hashes[i]].header.prevHash == if i == 0 then from else hashes[i - 1]
  }

  lemma LeadsInit(tree: Tree, from: Hash, to: Hash, hashes: seq<Hash>)
    requires Leads(tree, from, to, hashes) && hashes != []
    ensures to in tree && Leads(tree, from, tree[to].header.prevHash, hashes[..|hashes| - 1])
  {
    var n := |hashes| - 1;
    assert LinkedAt(tree, from, hashes, n);
    forall i | 0 <= i < n
      ensures LinkedAt(tree, from, hashes[..n], i)
    {
      assert LinkedAt(tree, from, hashes, i);
    }
  }

  lemma {:induction false} LeadsIsWalk(tree: Tree, from: Hash, to: Hash, hashes: seq<Hash>)
    requires Leads(tree, from, to, hashes)
    ensures Walk(tree, to, |hashes|) == from
    ensures forall i :: 0 <= i < |hashes| ==> hashes[i] == Walk(tree, to, |hashes| - 1 - i)
    decreases |hashes|
  {
    if hashes != [] {
      var init := hashes[..|hashes| - 1];
      LeadsInit(tree, from, to, hashes);
      var parent := tree[to].header.prevHash;
      LeadsIsWalk(tree, from, parent, init);
      forall i | 0 <= i < |hashes|
        ensures hashes[i] == Walk(tree, to, |hashes| - 1 - i)
      {
        if i < |init| {
          assert hashes[i] == init[i] == Walk(tree, parent, |init| - 1 - i);
        }
      }
    }
  }

  /** There is only one path between two headers, and its heights are consecutive. */
  lemma {:induction false} PathUnique(tree: Tree, genesis: Hash, from: Hash, to: Hash, hashes: seq<Hash>)
    requires WellFormed(tree, genesis) && from in tree && to in tree
    ensures Leads(tree, from, to, hashes) <==>
            IsAncestor(tree, from, to) &&
            |hashes| == tree[to].height - tree[from].height &&
            forall i :: 0 <= i < |hashes| ==> hashes[i] == PathAbove(tree, to, tree[from].height)[i].hash
  {
    hide WellFormed, Walk, LinkedAt;
    var base := tree[from].height;
    if Leads(tree, from, to, hashes) {
      LeadsIsWalk(tree, from, to, hashes);
      LeadsHeight(tree, genesis, from, to, hashes);
      forall i | 0 <= i < |hashes|
        ensures hashes[i] == PathAbove(tree, to, base)[i].hash
      {
        assert hashes[i] == Walk(tree, to, |hashes| - 1 - i);
        assert PathAbove(tree, to, base)[i].hash == AncestorAt(tree, to, base + 1 + i);
      }
    }
    if IsAncestor(tree, from, to) && |hashes| == tree[to].height - base &&
       forall i :: 0 <= i < |hashes| ==> hashes[i] == PathAbove(tree, to, base)[i].hash {
      forall i | 0 <= i < |hashes|
        ensures LinkedAt(tree, from, hashes, i)
      {
        PathLinked(tree, genesis, from, to, hashes, i);
      }
      ZeroWalk(tree, to);
      if hashes != [] {
        assert hashes[|hashes| - 1] == AncestorAt(tree, to, base + |hashes|);
      }
    }
  }

  lemma PathLinked(tree: Tree, genesis: Hash, from: Hash, to: Hash, hashes: seq<Hash>, i: nat)
    requires WellFormed(tree, genesis) && IsAncestor(tree, from, to)
    requires |hashes| == tree[to].height - tree[from].height && i < |hashes|
    requires forall j :: 0 <= j < |hashes| ==> hashes[j] == PathAbove(tree, to, tree[from].height)[j].hash
    ensures LinkedAt(tree, from, hashes, i)
  {
    hide WellFormed, Walk;
    var base := tree[from].height;
    assert hashes[i] == AncestorAt(tree, to, base + 1 + i);
    AncestorStored(tree, genesis, to, base + 1 + i);
  }

  lemma ZeroWalk(tree: Tree, h: Hash)
    ensures Walk(tree, h, 0) == h
  {
  }

  lemma {:induction false} LeadsHeight(tree: Tree, genesis: Hash, from: Hash, to: Hash, hashes: seq<Hash>)
    requires WellFormed(tree, genesis) && from in tree && to in tree && Leads(tree, from, to, hashes)
    ensures tree[to].height == tree[from].height + |hashes|
    decreases |hashes|
  {
    if hashes != [] {
      var init := hashes[..|hashes| - 1];
      LeadsInit(tree, from, to, hashes);
      var parent := tree[to].header.prevHash;
      if init != [] {
        assert LinkedAt(tree, from, init, |init| - 1);
      }
      assert parent in tree && to != genesis;
      assert ParentOk(tree, to);
      LeadsHeight(tree, genesis, from, parent, init);
    }
  }

  /** What `get_path` returns: nothing for equal hashes, stored or not; the path to a
      descendant; and from the hash below genesis the path with genesis itself. */
  ghost predicate PathIs(tree: Tree, genesis: Hash, from: Hash, to: Hash, r: Option<seq<Entry>>) {
    if from == to then r == Some([])
    else if IsAncestor(tree, from, to) then r == Some(PathAbove(tree, to, tree[from].height))
    else if to in tree && genesis in tree && from == tree[genesis].header.prevHash then
      r == Some([Entry(genesis, 0)] + PathAbove(tree, to, 0))
    else r == None
  }

  /** `get_path`, for any two hashes. */
  method GetPath(tree: Tree, ghost genesis: Hash, from: Hash, to: Hash) returns (r: Option<seq<Entry>>)
    requires WellFormed(tree, genesis)
    ensures PathIs(tree, genesis, from, to, r)
  {
    hide WellFormed, Walk;
    var path: seq<Entry> := [];
    var current := to;
    ghost var n: int := 0;
    ghost var top: int := if to in tree then tree[to].height else 0;
    ZeroWalk(tree, to);
    BelowGenesis(tree, genesis);
    while current != from
      invariant to !in tree ==> current == to && path == []
      invariant to in tree ==> 0 <= n <= top + 1 && current == Walk(tree, to, n)
      invariant to in tree && n == top + 1 ==>
        current == tree[genesis].header.prevHash && path == [Entry(genesis, 0)] + PathAbove(tree, to, 0)
      invariant to in tree && n <= top ==> path == PathAbove(tree, to, top - n)
      invariant IsAncestor(tree, from, to) ==> tree[from].height <= top - n
      invariant n == 0 || from != to
      decreases top + 1 - n
    {
      if current !in tree {
        if to in tree {
          PastGenesis(tree, genesis, to, n);
        }
        return None;
      }
      WalkStored(tree, genesis, to, n);
      WalkNext(tree, genesis, to, n);
      assert AncestorAt(tree, to, top - n) == current;
      if n == top {
        WalkToGenesis(tree, genesis, to);
        NotAncestor(tree, genesis, from, to);
      }
      path := [Entry(current, tree[current].height)] + path;
      current := tree[current].header.prevHash;
      n := n + 1;
    }
    if to in tree && n <= top {
      WalkIsAncestor(tree, genesis, to, n);
      WalkStored(tree, genesis, to, n);
    }
    return Some(path);
  }

  /** Only genesis is an ancestor at height 0. */
  lemma NotAncestor(tree: Tree, genesis: Hash, from: Hash, to: Hash)
    requires WellFormed(tree, genesis) && from != genesis
    ensures IsAncestor(tree, from, to) ==> tree[from].height > 0
  {
    if from in tree {
      NotGenesis(tree, genesis, from);
    }
  }

  lemma PastGenesis(tree: Tree, genesis: Hash, to: Hash, n: nat)
    requires WellFormed(tree, genesis) && to in tree && Walk(tree, to, n) !in tree
    ensures n > tree[to].height
  {
    if n <= tree[to].height {
      WalkStored(tree, genesis, to, n);
    }
  }

  lemma BelowGenesis(tree: Tree, genesis: Hash)
    requires WellFormed(tree, genesis)
    ensures genesis in tree && tree[genesis].header.prevHash !in tree
  {
  }

  /** Only genesis has height 0. */
  lemma NotGenesis(tree: Tree, genesis: Hash, from: Hash)
    requires WellFormed(tree, genesis) && from in tree
    ensures tree[from].height == 0 ==> from == genesis
  {
    assert from != genesis ==> ParentOk(tree, from);
  }
}
