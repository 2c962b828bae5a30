/** The Bitcoin-style merkle root of a block, with the duplicate-pair flag.

    The double SHA-256 of a concatenated pair is an uninterpreted function
    `H` over an arbitrary type of hashes.
 */
module Merkle {

  /** An odd level is completed with a copy of its last hash. */
  function Padded<T>(level: seq<T>): (r: seq<T>)
    requires |level| > 0
    ensures |r| % 2 == 0 && level <= r && |r| <= |level| + 1
  {
    if |level| % 2 == 0 then level else level + [level[|level| - 1]]
  }

  /** The hashes of the adjacent pairs of a completed level. */
  function PairHashes<T>(H: (T, T) -> T, level: seq<T>): (r: seq<T>)
    requires |level| % 2 == 0
    ensures |r| == |level| / 2
    ensures forall k :: 0 <= k < |r| ==> r[k] == H(level[2 * k], level[2 * k + 1])
  {
    seq(|level| / 2, k requires 0 <= k < |level| / 2 => H(level[2 * k], level[2 * k + 1]))
  }

  function Next<T>(H: (T, T) -> T, level: seq<T>): (r: seq<T>)
    requires |level| > 0
    ensures |r| == (|level| + 1) / 2
  {
    PairHashes(H, Padded(level))
  }

  function Root<T>(H: (T, T) -> T, level: seq<T>): T
    requires |level| > 0
    decreases |level|
  {
    if |level| == 1 then level[0] else Root(H, Next(H, level))
  }

  /** Some complete pair of the level holds the same hash twice. */
  ghost predicate HasEqualPair<T>(level: seq<T>) {
    exists k :: 0 <= k < |level| / 2 && level[2 * k] == level[2 * k + 1]
  }

  /** The flag: an equal pair at any level of the tree. */
  ghost predicate Mutated<T>(H: (T, T) -> T, level: seq<T>)
    requires |level| > 0
    decreases |level|
  {
    |level| > 1 && (HasEqualPair(level) || Mutated(H, Next(H, level)))
  }

  /** The scan of the complete pairs of one level. */
  method FindEqualPair<T(==)>(level: seq<T>) returns (found: bool)
    ensures found <==> HasEqualPair(level)
  {
    found := false;
    var k := 0;
    while k < |level| / 2
      invariant 0 <= k <= |level| / 2
      invariant found <==> exists j :: 0 <= j < k && level[2 * j] == level[2 * j + 1]
    {
      if level[2 * k] == level[2 * k + 1] {
        found := true;
      }
      k := k + 1;
    }
  }

  method ComputeMerkleRoot<T(==)>(H: (T, T) -> T, txids: seq<T>) returns (root: T, mutated: bool)
    requires |txids| > 0
    ensures root == Root(H, txids)
    ensures mutated <==> Mutated(H, txids)
  {
    mutated := false;
    var level := txids;
    while |level| > 1
      invariant |level| > 0
      invariant Root(H, level) == Root(H, txids)
      invariant (mutated || Mutated(H, level)) <==> Mutated(H, txids)
      decreases |level|
    {
      var equalPair := FindEqualPair(level);
      if equalPair {
        mutated := true;
      }
      level := Next(H, level);
    }
    root := level[0];
  }

  // ---------- The tree ----------

  function Full(depth: nat): (n: nat)
    ensures n > 0
  {
    if depth == 0 then 1 else 2 * Full(depth - 1)
  }

  /** The hash of the tree of a given depth over the leaves, left half and right half. Where the
      leaves fill no more than the left half, the right half is a copy of it. */
  function TreeHash<T>(H: (T, T) -> T, leaves: seq<T>, depth: nat): T
    requires 0 < |leaves| <= Full(depth)
    decreases depth
  {
    if depth == 0 then leaves[0]
    else
      var half := Full(depth - 1);
      if |leaves| <= half then
        var left := TreeHash(H, leaves, depth - 1);
        H(left, left)
      else H(TreeHash(H, leaves[..half], depth - 1), TreeHash(H, leaves[half..], depth - 1))
  }

  lemma NextAppend<T>(H: (T, T) -> T, a: seq<T>, b: seq<T>)
    requires |a| > 0 && |a| % 2 == 0 && |b| > 0
    ensures Next(H, a + b) == Next(H, a) + Next(H, b)
  {
    assert Padded(a + b) == a + Padded(b);
    var whole, left, right := Next(H, a + b), Next(H, a), Next(H, b);
    forall k | 0 <= k < |whole|
      ensures whole[k] == (left + right)[k]
    {
      var i := if k < |left| then 0 else k - |left|;
      assert k >= |left| ==> Padded(a + b)[2 * k] == Padded(b)[2 * i] && Padded(a + b)[2 * k + 1] == Padded(b)[2 * i + 1];
    }
  }

  /** Hashing the pairs of the lowest level takes one level off the tree. */
  lemma {:induction false} LevelOff<T>(H: (T, T) -> T, leaves: seq<T>, depth: nat)
    requires depth > 0 && 0 < |leaves| <= Full(depth)
    ensures |Next(H, leaves)| <= Full(depth - 1)
    ensures TreeHash(H, Next(H, leaves), depth - 1) == TreeHash(H, leaves, depth)
    decreases depth
  {
    hide Next, Full;
    FullStep(depth);
    if depth == 1 {
      LevelOne(H, leaves);
    } else {
      FullStep(depth - 1);
      var half := Full(depth - 1);
      if |leaves| <= half {
        LevelOff(H, leaves, depth - 1);
      } else {
        var a, b := leaves[..half], leaves[half..];
        assert a + b == leaves;
        NextAppend(H, a, b);
        LevelOff(H, a, depth - 1);
        LevelOff(H, b, depth - 1);
        Halves(H, Next(H, a), Next(H, b), depth - 1);
      }
    }
  }

  lemma FullStep(depth: nat)
    requires depth > 0
    ensures Full(depth) == 2 * Full(depth - 1) && Full(0) == 1
  {
  }

  lemma LevelOne<T>(H: (T, T) -> T, leaves: seq<T>)
    requires 0 < |leaves| <= 2
    ensures Full(0) == 1 && Full(1) == 2
    ensures TreeHash(H, Next(H, leaves), 0) == TreeHash(H, leaves, 1)
  {
  }

  lemma Halves<T>(H: (T, T) -> T, a: seq<T>, b: seq<T>, depth: nat)
    requires depth > 0 && |a| == Full(depth - 1) && 0 < |b| <= Full(depth - 1)
    ensures |a + b| <= Full(depth)
    ensures TreeHash(H, a + b, depth) == H(TreeHash(H, a, depth - 1), TreeHash(H, b, depth - 1))
  {
    assert (a + b)[..|a|] == a && (a + b)[|a|..] == b;
  }

  /** The root computed level by level is the hash of the smallest tree that holds the leaves. */
  lemma {:induction false} RootIsTree<T>(H: (T, T) -> T, leaves: seq<T>, depth: nat)
    requires 0 < |leaves| <= Full(depth) && (depth > 0 ==> |leaves| > Full(depth - 1))
    ensures Root(H, leaves) == TreeHash(H, leaves, depth)
    decreases depth
  {
    hide Next, TreeHash;
    if depth > 0 {
      LevelOff(H, leaves, depth);
      RootIsTree(H, Next(H, leaves), depth - 1);
    } else {
      LeafTree(H, leaves);
    }
  }

  lemma LeafTree<T>(H: (T, T) -> T, leaves: seq<T>)
    requires |leaves| == 1
    ensures TreeHash(H, leaves, 0) == leaves[0]
  {
  }

  ghost predicate AllDifferent<T>(s: seq<T>) {
    forall i, j :: 0 <= i < j < |s| ==> s[i] != s[j]
  }

  /** Different leaves are never flagged. */
  lemma {:induction false} DifferentUnflagged<T(!new)>(H: (T, T) -> T, level: seq<T>)
    requires Injective(H) && |level| > 0 && AllDifferent(level)
    ensures !Mutated(H, level)
    decreases |level|
  {
    if |level| > 1 {
      var next, p := Next(H, level), Padded(level);
      forall i, j | 0 <= i < j < |next|
        ensures next[i] != next[j]
      {
        assert next[i] == H(p[2 * i], p[2 * i + 1]) && next[j] == H(p[2 * j], p[2 * j + 1]);
        assert p[2 * i] == level[2 * i] && p[2 * j] == level[2 * j];
      }
      DifferentUnflagged(H, next);
    }
  }

  // ---------- Binding ----------

  ghost predicate Injective<T(!new)>(H: (T, T) -> T) {
    forall a, b, c, d :: H(a, b) == H(c, d) ==> a == c && b == d
  }

  /** `x` is the hash of a complete tree of depth `k` whose leaves are not pair hashes. */
  ghost predicate Rank<T(!new)>(H: (T, T) -> T, k: nat, x: T) {
    if k == 0 then forall u, v :: H(u, v) != x
    else exists u, v :: H(u, v) == x && Rank(H, k - 1, u) && Rank(H, k - 1, v)
  }

  ghost predicate AllRank<T(!new)>(H: (T, T) -> T, k: nat, s: seq<T>) {
    forall i :: 0 <= i < |s| ==> Rank(H, k, s[i])
  }

  lemma {:induction false} RankUnique<T(!new)>(H: (T, T) -> T, j: nat, k: nat, x: T)
    requires Injective(H) && Rank(H, j, x) && Rank(H, k, x)
    ensures j == k
    decreases j
  {
    if j > 0 && k > 0 {
      var u, v :| H(u, v) == x && Rank(H, j - 1, u) && Rank(H, j - 1, v);
      var u', v' :| H(u', v') == x && Rank(H, k - 1, u') && Rank(H, k - 1, v');
      RankUnique(H, j - 1, k - 1, u);
    }
  }

  lemma NextRank<T(!new)>(H: (T, T) -> T, k: nat, s: seq<T>)
    requires |s| > 0 && AllRank(H, k, s)
    ensures AllRank(H, k + 1, Next(H, s))
  {
    var p := Padded(s);
    assert AllRank(H, k, p);
    forall i | 0 <= i < |Next(H, s)|
      ensures Rank(H, k + 1, Next(H, s)[i])
    {
      assert Rank(H, k, p[2 * i]) && Rank(H, k, p[2 * i + 1]);
      assert Next(H, s)[i] == H(p[2 * i], p[2 * i + 1]);
    }
  }

  /** The root of a longer level has a strictly greater rank. */
  lemma {:induction false} RootRank<T(!new)>(H: (T, T) -> T, k: nat, s: seq<T>) returns (r: nat)
    requires |s| > 0 && AllRank(H, k, s)
    ensures Rank(H, r, Root(H, s))
    ensures r >= k && (|s| > 1 ==> r > k)
    decreases |s|
  {
    if |s| == 1 {
      r := k;
    } else {
      NextRank(H, k, s);
      r := RootRank(H, k + 1, Next(H, s));
    }
  }

  /** Two unflagged levels with the same successor are the same level. */
  lemma {:induction false} NextBinding<T(!new)>(H: (T, T) -> T, a: seq<T>, b: seq<T>)
    requires Injective(H) && |a| > 1 && |b| > 1
    requires !HasEqualPair(a) && !HasEqualPair(b)
    requires Next(H, a) == Next(H, b)
    ensures a == b
  {
    var p, q := Padded(a), Padded(b);
    assert |p| == |q|;
    forall i | 0 <= i < |p|
      ensures p[i] == q[i]
    {
      var k := i / 2;
      assert Next(H, a)[k] == H(p[2 * k], p[2 * k + 1]);
      assert Next(H, b)[k] == H(q[2 * k], q[2 * k + 1]);
    }
    assert p == q;
    if |a| < |b| {
      EqualLastPair(a, b);
    } else if |b| < |a| {
      EqualLastPair(b, a);
    }
  }

  /** A level that is the completion of a shorter one ends in an equal pair. */
  lemma EqualLastPair<T>(a: seq<T>, b: seq<T>)
    requires 0 < |a| < |b| && Padded(a) == Padded(b)
    ensures HasEqualPair(b)
  {
    var k := |b| / 2 - 1;
    assert b == Padded(b) && b[2 * k] == b[2 * k + 1];
  }

  /** A single hash is never the root of a longer list of hashes of the same rank. */
  lemma SingletonRoot<T(!new)>(H: (T, T) -> T, k: nat, a: seq<T>, b: seq<T>)
    requires Injective(H) && |a| == 1 && |b| > 0
    requires AllRank(H, k, a) && AllRank(H, k, b)
    requires Root(H, a) == Root(H, b)
    ensures |b| == 1
  {
    var r := RootRank(H, k, b);
    assert Rank(H, k, a[0]);
    RankUnique(H, k, r, a[0]);
  }

  lemma {:induction false} LevelBinding<T(!new)>(H: (T, T) -> T, k: nat, a: seq<T>, b: seq<T>)
    requires Injective(H) && |a| > 0 && |b| > 0
    requires AllRank(H, k, a) && AllRank(H, k, b)
    requires Root(H, a) == Root(H, b)
    requires !Mutated(H, a) && !Mutated(H, b)
    ensures a == b
    decreases |a|
  {
    if |a| == 1 {
      SingletonRoot(H, k, a, b);
    } else if |b| == 1 {
      SingletonRoot(H, k, b, a);
    } else {
      NextRank(H, k, a);
      NextRank(H, k, b);
      LevelBinding(H, k + 1, Next(H, a), Next(H, b));
      NextBinding(H, a, b);
    }
  }

  /** An unflagged root commits to its transaction list, whatever the two lengths. */
  lemma {:induction false} MerkleBinding<T(!new)>(H: (T, T) -> T, a: seq<T>, b: seq<T>)
    requires Injective(H) && |a| > 0 && |b| > 0
    requires forall i, u, v :: 0 <= i < |a| ==> H(u, v) != a[i]
    requires forall i, u, v :: 0 <= i < |b| ==> H(u, v) != b[i]
    requires !Mutated(H, a) && !Mutated(H, b)
    ensures Root(H, a) == Root(H, b) <==> a == b
  {
    if Root(H, a) == Root(H, b) {
      LevelBinding(H, 0, a, b);
    }
  }

  /** Why the flag is needed: copying the last hash of an odd list keeps the root
      and is always flagged. */
  lemma {:induction false} OddCopyCollides<T>(H: (T, T) -> T, s: seq<T>)
    requires |s| > 1 && |s| % 2 == 1
    ensures Root(H, s + [s[|s| - 1]]) == Root(H, s)
    ensures Mutated(H, s + [s[|s| - 1]])
  {
    var t := s + [s[|s| - 1]];
    assert Padded(t) == t == Padded(s);
    assert t[2 * (|t| / 2 - 1)] == t[2 * (|t| / 2 - 1) + 1];
  }
}
