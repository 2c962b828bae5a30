/** Greedy matching of signatures to public keys, as OP_CHECKMULTISIG does it. */
module Multisig {

  /** `f` gives signature `i + j` the key `f[j]`: keys from `k` on, strictly increasing,
      and every signature verifies under its key. */
  ghost predicate IsAssignment<S, K>(V: (S, K) -> bool, sigs: seq<S>, keys: seq<K>, i: nat, k: nat, f: seq<nat>) {
    && i <= |sigs| && |f| == |sigs| - i
    && (forall j :: 0 <= j < |f| ==> k <= f[j] < |keys| && V(sigs[i + j], keys[f[j]]))
    && (forall j, l :: 0 <= j < l < |f| ==> f[j] < f[l])
  }

  ghost predicate AssignableFrom<S, K>(V: (S, K) -> bool, sigs: seq<S>, keys: seq<K>, i: nat, k: nat) {
    exists f: seq<nat> :: IsAssignment(V, sigs, keys, i, k, f)
  }

  /** Every signature can be given a key of its own, in order. */
  ghost predicate Assignable<S, K>(V: (S, K) -> bool, sigs: seq<S>, keys: seq<K>) {
    AssignableFrom(V, sigs, keys, 0, 0)
  }

  lemma NothingLeft<S, K>(V: (S, K) -> bool, sigs: seq<S>, keys: seq<K>, k: nat)
    ensures AssignableFrom(V, sigs, keys, |sigs|, k)
  {
    assert IsAssignment(V, sigs, keys, |sigs|, k, []);
  }

  lemma NoKeyLeft<S, K>(V: (S, K) -> bool, sigs: seq<S>, keys: seq<K>, i: nat, k: nat)
    requires i < |sigs| && k >= |keys|
    ensures !AssignableFrom(V, sigs, keys, i, k)
  {
    forall f: seq<nat>
      ensures !IsAssignment(V, sigs, keys, i, k, f)
    {
      if |f| > 0 {
        assert !(k <= f[0] < |keys|);
      }
    }
  }

  /** A key the signature does not verify under can be passed over. */
  lemma {:induction false} SkipKey<S, K>(V: (S, K) -> bool, sigs: seq<S>, keys: seq<K>, i: nat, k: nat)
    requires i < |sigs| && k < |keys| && !V(sigs[i], keys[k])
    ensures AssignableFrom(V, sigs, keys, i, k) <==> AssignableFrom(V, sigs, keys, i, k + 1)
  {
    if AssignableFrom(V, sigs, keys, i, k) {
      var f :| IsAssignment(V, sigs, keys, i, k, f);
      assert V(sigs[i + 0], keys[f[0]]);
      assert IsAssignment(V, sigs, keys, i, k + 1, f);
    }
    if AssignableFrom(V, sigs, keys, i, k + 1) {
      var f :| IsAssignment(V, sigs, keys, i, k + 1, f);
      assert IsAssignment(V, sigs, keys, i, k, f);
    }
  }

  /** The exchange step: taking the first key that fits never loses an assignment. */
  lemma {:induction false} TakeKey<S, K>(V: (S, K) -> bool, sigs: seq<S>, keys: seq<K>, i: nat, k: nat)
    requires i < |sigs| && k < |keys| && V(sigs[i], keys[k])
    ensures AssignableFrom(V, sigs, keys, i, k) <==> AssignableFrom(V, sigs, keys, i + 1, k + 1)
  {
    if AssignableFrom(V, sigs, keys, i, k) {
      var f :| IsAssignment(V, sigs, keys, i, k, f);
      var g := f[1..];
      forall j | 0 <= j < |g|
        ensures k + 1 <= g[j] < |keys| && V(sigs[i + 1 + j], keys[g[j]])
      {
        assert V(sigs[i + (j + 1)], keys[f[j + 1]]) && f[0] < f[j + 1];
      }
      assert IsAssignment(V, sigs, keys, i + 1, k + 1, g);
    }
    if AssignableFrom(V, sigs, keys, i + 1, k + 1) {
      var g :| IsAssignment(V, sigs, keys, i + 1, k + 1, g);
      var f := [k] + g;
      forall j | 0 <= j < |f|
        ensures k <= f[j] < |keys| && V(sigs[i + j], keys[f[j]])
      {
        if j > 0 {
          assert V(sigs[i + 1 + (j - 1)], keys[g[j - 1]]);
        }
      }
      assert IsAssignment(V, sigs, keys, i, k, f);
    }
  }

  /** The key-scanning loop. An empty signature never matches: `V` is false for it. */
  method MatchSignatures<S, K>(V: (S, K) -> bool, sigs: seq<S>, keys: seq<K>) returns (success: bool)
    ensures success <==> Assignable(V, sigs, keys)
  {
    var keyIdx := 0;
    success := true;
    var i := 0;
    while i < |sigs|
      invariant 0 <= i <= |sigs| && 0 <= keyIdx <= |keys| && success
      invariant AssignableFrom(V, sigs, keys, i, keyIdx) <==> Assignable(V, sigs, keys)
    {
      var matched := false;
      while keyIdx < |keys| && !matched
        invariant 0 <= keyIdx <= |keys|
        invariant AssignableFrom(V, sigs, keys, if matched then i + 1 else i, keyIdx) <==> Assignable(V, sigs, keys)
        decreases |keys| - keyIdx
      {
        if V(sigs[i], keys[keyIdx]) {
          TakeKey(V, sigs, keys, i, keyIdx);
          matched := true;
        } else {
          SkipKey(V, sigs, keys, i, keyIdx);
        }
        keyIdx := keyIdx + 1;
      }
      if !matched {
        NoKeyLeft(V, sigs, keys, i, keyIdx);
        return false;
      }
      i := i + 1;
    }
    NothingLeft(V, sigs, keys, keyIdx);
  }

  function Reversed<T>(s: seq<T>): seq<T> {
    seq(|s|, i requires 0 <= i < |s| => s[|s| - 1 - i])
  }

  lemma MirrorOne<S, K>(V: (S, K) -> bool, sigs: seq<S>, keys: seq<K>)
    requires Assignable(V, sigs, keys)
    ensures Assignable(V, Reversed(sigs), Reversed(keys))
  {
    var f: seq<nat> :| IsAssignment(V, sigs, keys, 0, 0, f);
    assert forall j :: 0 <= j < |f| ==> f[j] < |keys|;
    var g: seq<nat> := seq(|f|, j requires 0 <= j < |f| => |keys| - 1 - f[|f| - 1 - j]);
    forall j | 0 <= j < |g|
      ensures 0 <= g[j] < |keys| && V(Reversed(sigs)[0 + j], Reversed(keys)[g[j]])
    {
      assert V(sigs[0 + (|f| - 1 - j)], keys[f[|f| - 1 - j]]);
    }
    assert IsAssignment(V, Reversed(sigs), Reversed(keys), 0, 0, g);
  }

  /** An in-order assignment read from the other end is one too. */
  lemma {:induction false} Mirror<S, K>(V: (S, K) -> bool, sigs: seq<S>, keys: seq<K>)
    ensures Assignable(V, Reversed(sigs), Reversed(keys)) <==> Assignable(V, sigs, keys)
  {
    if Assignable(V, sigs, keys) {
      MirrorOne(V, sigs, keys);
    }
    if Assignable(V, Reversed(sigs), Reversed(keys)) {
      MirrorOne(V, Reversed(sigs), Reversed(keys));
      assert Reversed(Reversed(sigs)) == sigs && Reversed(Reversed(keys)) == keys;
    }
  }
}
