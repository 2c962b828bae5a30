/** What scripts decide: ordinary outputs, bare multisig, and conditionals. */
module ScriptRules {
  import opened Basics
  import opened LittleEndian
  import opened Script
  import opened ScriptEngine
  import opened ScriptTheorems
  import opened VerifyInput
  import Multisig

  // ---------- Ordinary outputs ----------

  /** Both scripts run, the second on what the first left, and end with a true item. */
  ghost predicate EndsTrue(sem: Semantics, scriptSig: Bytes, pk: Bytes) {
    && Execute(sem, scriptSig, []).Ok?
    && var s := Execute(sem, scriptSig, []).value.stack;
    && Execute(sem, pk, s).Ok? && TruthyTop(Execute(sem, pk, s).value.stack)
  }

  /** Whatever the output, an input verifies only if the output script ends with a true item;
      and if the output is not pay-to-script-hash, that is all it takes. */
  lemma {:induction false} OrdinaryRule(sem: Semantics, scriptSig: Bytes, pk: Bytes)
    ensures Verify(sem, scriptSig, pk).Ok? ==> EndsTrue(sem, scriptSig, pk)
    ensures !IsP2sh(pk) ==> (Verify(sem, scriptSig, pk).Ok? <==> EndsTrue(sem, scriptSig, pk))
  {
    hide Execute, TruthyTop;
  }

  // ---------- Items ----------

  /** An item is true exactly if it is a number other than zero; negative zero is false too. */
  lemma {:induction false} TruthyNumber(data: Bytes)
    requires |data| <= 4
    ensures DecodeNumber(data).Ok? && (Truthy(data) <==> DecodeNumber(data).value != 0)
  {
    hide LeValue, Limit;
    if data != [] {
      var n := |data| - 1;
      LastByte(data);
      ZeroBytes(data[..n]);
      LeBound(data[..n]);
      SignedZero(LeValue(data[..n]), Limit(n), data[n]);
      TruthyBytes(data);
    }
  }

  /** Some low byte is not zero, or the last one is neither zero nor a sign alone. */
  lemma TruthyBytes(data: Bytes)
    requires data != []
    ensures var n := |data| - 1;
            Truthy(data) <==> (exists i :: 0 <= i < n && data[..n][i] != 0) || data[n] !in {0, 0x80}
  {
    var n := |data| - 1;
    if Truthy(data) {
      var i :| 0 <= i < |data| && data[i] != 0 && !(i == n && data[i] == 0x80);
      assert i < n ==> data[..n][i] != 0;
    }
    if exists i :: 0 <= i < n && data[..n][i] != 0 {
      var i :| 0 <= i < n && data[..n][i] != 0;
      assert data[i] != 0;
    }
  }

  lemma SignedZero(low: nat, limit: nat, b: nat)
    requires low < limit
    ensures low + b * limit == 0 <==> low == 0 && b == 0
    ensures b >= 0x80 ==> (0x80 * limit - (low + b * limit) == 0 <==> low == 0 && b == 0x80)
  {
    assert b >= 0x80 ==> b * limit == 0x80 * limit + (b - 0x80) * limit;
  }

  lemma {:induction false} LastByte(data: Bytes)
    requires data != []
    ensures LeValue(data) == LeValue(data[..|data| - 1]) + data[|data| - 1] * Limit(|data| - 1)
    decreases |data|
  {
    if |data| > 1 {
      var tail, mid := data[1..], data[1..|data| - 1];
      LastByte(tail);
      assert tail[..|tail| - 1] == mid == data[..|data| - 1][1..];
      assert data[..|data| - 1][0] == data[0] && tail[|tail| - 1] == data[|data| - 1];
      Carry(LeValue(mid), data[|data| - 1], Limit(|data| - 2));
    } else {
      assert data[1..] == [] && data[..0] == [];
    }
  }

  lemma Carry(x: int, b: int, l: int)
    ensures 256 * (x + b * l) == 256 * x + b * (256 * l)
  {
  }

  lemma {:induction false} ZeroBytes(data: Bytes)
    ensures LeValue(data) == 0 <==> forall i :: 0 <= i < |data| ==> data[i] == 0
    decreases |data|
  {
    if data != [] {
      ZeroBytes(data[1..]);
      assert forall i :: 0 < i < |data| ==> data[i] == data[1..][i - 1];
    }
  }

  lemma {:induction false} LeBound(data: Bytes)
    ensures 0 <= LeValue(data) < Limit(|data|)
    decreases |data|
  {
    if data != [] {
      LeBound(data[1..]);
    }
  }

  /** OP_1 to OP_16 push their numbers, OP_1NEGATE minus one, OP_0 zero. */
  lemma {:induction false} SmallNumber(n: int)
    requires -1 <= n <= 16
    ensures var c: Bytes := [if n == 0 then 0 else 0x50 + n];
            Complete(c) && IsPush(c[0]) && DecodeNumber(PushedItem(c)) == Ok(n)
  {
    var c: Bytes := [if n == 0 then 0 else 0x50 + n];
    assert HeaderLen(c[0]) == 1 && PayloadLen(c) == 0;
    if n > 0 {
      OneByteNumber(n);
    } else if n < 0 {
      OneByteNumber(0x81);
    }
  }

  lemma OneByteNumber(b: byte)
    ensures DecodeNumber([b]) == Ok(if b >= 0x80 then 0x80 - b else b)
  {
    var item: Bytes := [b];
    assert item[1..] == [] && LeValue(item) == b && Limit(0) == 1;
  }

  // ---------- Limits ----------

  /** Instructions that count as operations. */
  ghost function Ops(cs: seq<Bytes>): nat {
    if cs == [] then 0
    else (if |cs[0]| > 0 && !IsPush(cs[0][0]) then 1 else 0) + Ops(cs[1..])
  }

  ghost predicate Forbidden(op: byte) {
    op in {0x7e, 0x7f, 0x80, 0x81, 0x83, 0x84, 0x85, 0x86, 0x8d, 0x8e, 0x95, 0x96, 0x97, 0x98, 0x99}
  }

  /** A run stands for its instructions: none of them is disabled, executed or not, and at most
      201 of them are operations. */
  lemma {:induction false} RunLimits(sem: Semantics, script: Bytes, m: Machine, pc: nat)
    requires pc <= |script| && Run(sem, script, m, pc).Ok? && m.opCount <= MAX_OPS
    ensures var cs := Chunks(script[pc..]);
            && m.opCount + Ops(cs) <= Run(sem, script, m, pc).value.opCount <= 201
            && (forall i :: 0 <= i < |cs| ==> |cs[i]| > 0 && !Forbidden(cs[i][0]))
    ensures pc < |script| && |m.stack| + |m.alt| <= MAX_STACK_SIZE ==>
              |Run(sem, script, m, pc).value.stack| + |Run(sem, script, m, pc).value.alt| <= 1000
    decreases |script| - pc
  {
    hide Chunks, ChunkLen, Perform, Skip;
    if pc < |script| {
      var (m', pc') := Step(sem, script, m, pc).value;
      StepBoundary(sem, script, m, pc);
      StepLimits(sem, script, m, pc);
      ChunksFrom(script, pc);
      var c, tail, cs := FirstChunk(script[pc..]), Chunks(script[pc'..]), Chunks(script[pc..]);
      assert c[0] == script[pc] && cs == [c] + tail && cs[1..] == tail;
      RunLimits(sem, script, m', pc');
      forall i | 0 <= i < |cs|
        ensures |cs[i]| > 0 && !Forbidden(cs[i][0])
      {
        assert i > 0 ==> cs[i] == tail[i - 1];
      }
    } else {
      EmptyChunks(script);
    }
  }

  lemma StepLimits(sem: Semantics, script: Bytes, m: Machine, pc: nat)
    requires pc < |script| && Step(sem, script, m, pc).Ok? && m.opCount <= MAX_OPS
    ensures !Forbidden(script[pc])
    ensures var m' := Step(sem, script, m, pc).value.0;
            && m.opCount + (if IsPush(script[pc]) then 0 else 1) <= m'.opCount <= MAX_OPS
            && (|m.stack| + |m.alt| <= MAX_STACK_SIZE ==> |m'.stack| + |m'.alt| <= MAX_STACK_SIZE)
  {
  }

  ghost predicate Reserved(op: byte) {
    op in {0x50, 0x62, 0x65, 0x66, 0x89, 0x8a} || op >= 0xba
  }

  /** A reserved opcode fails where it is executed. In a branch that is not, it only counts. */
  lemma {:induction false} ReservedFails(sem: Semantics, script: Bytes, m: Machine, pc: nat)
    requires pc < |script| && Reserved(script[pc])
    ensures Step(sem, script, m, pc) ==
            if m.opCount + 1 > MAX_OPS then Err(TooManyOps)
            else if Executing(m.conditions) then Err(InvalidOpcode(script[pc]))
            else Ok((m.(opCount := m.opCount + 1), pc + 1))
  {
    var rest := script[pc..];
    assert rest[0] == script[pc] && HeaderLen(rest[0]) == 1 && PayloadLen(rest) == 0;
  }

  // ---------- Running a part of a script ----------

  lemma FirstOfRest(script: Bytes, before: Bytes, c: Bytes, after: Bytes)
    requires script == before + c + after && Complete(c)
    ensures |before| < |script| && script[|before|] == c[0] && FirstChunk(script[|before|..]) == c
    ensures HeaderComplete(script[|before|..]) && ChunkLen(script[|before|..]) == |c|
  {
    assert script[|before|..] == c + after;
    FirstChunkOfConcat(c, after);
  }

  lemma FlattenSplit(before: Bytes, cs: seq<Bytes>, after: Bytes)
    requires cs != []
    ensures before + Flatten(cs) + after == before + cs[0] + (Flatten(cs[1..]) + after)
    ensures before + Flatten(cs) + after == (before + cs[0]) + Flatten(cs[1..]) + after
  {
  }

  /** Pushes in front of more code: they put their items on the stack, or the run fails. */
  lemma {:induction false} PushesRun(sem: Semantics, script: Bytes, before: Bytes, cs: seq<Bytes>, after: Bytes,
      m: Machine)
    requires script == before + Flatten(cs) + after && PushOnly(cs) && AllComplete(cs) && m.conditions == []
    ensures if FitsFrom(cs, |m.stack| + |m.alt|) then
              Run(sem, script, m, |before|) ==
              Run(sem, script, m.(stack := m.stack + Items(cs)), |before + Flatten(cs)|)
            else Run(sem, script, m, |before|).Err?
    decreases |cs|
  {
    hide Run, Step, Chunks, ChunkLen, FirstFits, Complete, PushedItem, FirstChunk, FitsFrom, Items, PushOnly, Flatten;
    if cs == [] {
      NoPushes(before, |m.stack| + |m.alt|);
      assert m.stack + [] == m.stack;
    } else {
      var c, tail := cs[0], cs[1..];
      FirstPush(cs, |m.stack| + |m.alt|);
      FlattenSplit(before, cs, after);
      FirstOfRest(script, before, c, Flatten(tail) + after);
      PushRunStep(sem, script, m, |before|);
      if FirstFits(c, |m.stack| + |m.alt|) {
        var m' := m.(stack := m.stack + [PushedItem(c)]);
        PushesRun(sem, script, before + c, tail, after, m');
        assert m'.stack + Items(tail) == m.stack + Items(cs);
        assert |before + c + Flatten(tail)| == |before + Flatten(cs)|;
      }
    }
  }

  lemma NoPushes(before: Bytes, used: nat)
    ensures before + Flatten([]) == before && Items([]) == [] && FitsFrom([], used)
  {
  }

  lemma FirstPush(cs: seq<Bytes>, used: nat)
    requires cs != [] && PushOnly(cs) && AllComplete(cs)
    ensures PushOnly(cs[1..]) && AllComplete(cs[1..]) && Complete(cs[0]) && HeaderComplete(cs[0]) && IsPush(cs[0][0])
    ensures Items(cs) == [PushedItem(cs[0])] + Items(cs[1..])
    ensures FitsFrom(cs, used) <==> FirstFits(cs[0], used) && FitsFrom(cs[1..], used + 1)
    ensures |Flatten(cs)| == |cs[0]| + |Flatten(cs[1..])|
  {
  }

  // ---------- Multisig ----------

  /** The script that is signed: the signatures are cut out of it, the last one first. */
  function SignedCode(sem: Semantics, code: Bytes, sigs: seq<Bytes>): Bytes {
    DeleteAll(sem, code, Multisig.Reversed(sigs))
  }

  /** The signatures can be given keys in order. */
  ghost predicate Signed(sem: Semantics, code: Bytes, sigs: seq<Bytes>, keys: seq<Bytes>) {
    var signedCode := SignedCode(sem, code, sigs);
    Multisig.Assignable((s, k) => Verifies(sem, signedCode, s, k), sigs, keys)
  }

  /** Every signature, none of them empty, verifies under a key of its own, the keys in the
      order of the signatures, over the hash its last byte asks for. */
  ghost predicate SignsInOrder(sem: Semantics, code: Bytes, sigs: seq<Bytes>, keys: seq<Bytes>, f: seq<nat>) {
    && |f| == |sigs|
    && (forall j :: 0 <= j < |f| ==>
          && f[j] < |keys| && sigs[j] != []
          && sem.ecdsa(sigs[j], keys[f[j]], sem.sighash(code, sigs[j][|sigs[j]| - 1])))
    && forall j, l :: 0 <= j < l < |f| ==> f[j] < f[l]
  }

  lemma {:induction false} SignedIff(sem: Semantics, code: Bytes, sigs: seq<Bytes>, keys: seq<Bytes>)
    ensures Signed(sem, code, sigs, keys) <==>
            exists f :: SignsInOrder(sem, SignedCode(sem, code, sigs), sigs, keys, f)
  {
    hide SignedCode, Multisig.Assignable, SignsInOrder, Verifies;
    var signedCode := SignedCode(sem, code, sigs);
    AssignmentSigns(sem, signedCode, sigs, keys, (s, k) => Verifies(sem, signedCode, s, k));
  }

  lemma AssignmentSigns(sem: Semantics, code: Bytes, sigs: seq<Bytes>, keys: seq<Bytes>, V: (Bytes, Bytes) -> bool)
    requires forall s, k :: V(s, k) == Verifies(sem, code, s, k)
    ensures Multisig.Assignable(V, sigs, keys) <==> exists f :: SignsInOrder(sem, code, sigs, keys, f)
  {
    if Multisig.Assignable(V, sigs, keys) {
      var f :| Multisig.IsAssignment(V, sigs, keys, 0, 0, f);
      forall j | 0 <= j < |f|
        ensures f[j] < |keys| && Verifies(sem, code, sigs[j], keys[f[j]])
      {
        assert V(sigs[0 + j], keys[f[j]]);
      }
      assert SignsInOrder(sem, code, sigs, keys, f);
    }
    if exists f :: SignsInOrder(sem, code, sigs, keys, f) {
      var f :| SignsInOrder(sem, code, sigs, keys, f);
      forall j | 0 <= j < |f|
        ensures f[j] < |keys| && V(sigs[0 + j], keys[f[j]])
      {
        assert Verifies(sem, code, sigs[j], keys[f[j]]);
      }
      assert Multisig.IsAssignment(V, sigs, keys, 0, 0, f);
    }
  }

  /** The signatures that are not empty. */
  function NonEmpty(sigs: seq<Bytes>): seq<Bytes> {
    if sigs == [] then []
    else if Last(sigs) == [] then NonEmpty(Init(sigs)) else NonEmpty(Init(sigs)) + [Last(sigs)]
  }

  /** They are cut out one after the other; empty ones are passed over. */
  lemma {:induction false} CutInOrder(sem: Semantics, code: Bytes, sigs: seq<Bytes>, sig: Bytes)
    ensures DeleteAll(sem, code, []) == code
    ensures DeleteAll(sem, code, sigs + [sig]) ==
            if sig == [] then DeleteAll(sem, code, sigs) else sem.findAndDelete(DeleteAll(sem, code, sigs), sig)
    ensures DeleteAll(sem, code, sigs) == DeleteAll(sem, code, NonEmpty(sigs))
    decreases |sigs|
  {
    CutAppend(sem, code, sigs, sig);
    if sigs != [] {
      CutInOrder(sem, code, Init(sigs), Last(sigs));
      assert Init(sigs) + [Last(sigs)] == sigs;
      CutAppend(sem, code, NonEmpty(Init(sigs)), Last(sigs));
    }
  }

  lemma {:induction false} CutAppend(sem: Semantics, code: Bytes, sigs: seq<Bytes>, sig: Bytes)
    ensures DeleteAll(sem, code, sigs + [sig]) ==
            if sig == [] then DeleteAll(sem, code, sigs) else sem.findAndDelete(DeleteAll(sem, code, sigs), sig)
    decreases |sigs|
  {
    if sigs == [] {
      assert [sig][1..] == [];
    } else {
      assert (sigs + [sig])[1..] == sigs[1..] + [sig];
      CutAppend(sem, if sigs[0] == [] then code else sem.findAndDelete(code, sigs[0]), sigs[1..], sig);
    }
  }

  lemma PoppedIs(s: Stack, front: Stack, back: Stack)
    requires s == front + back
    ensures Popped(s, |back|) == Multisig.Reversed(back) && s[..|s| - |back|] == front
  {
  }

  lemma SignedAsPopped(sem: Semantics, code: Bytes, sigs: seq<Bytes>, keys: seq<Bytes>)
    ensures var signedCode := DeleteAll(sem, code, Multisig.Reversed(sigs));
            Multisig.Assignable((s, k) => Verifies(sem, signedCode, s, k), Multisig.Reversed(sigs), Multisig.Reversed(keys))
            <==> Signed(sem, code, sigs, keys)
  {
    hide Verifies, Multisig.Assignable;
    var signedCode := DeleteAll(sem, code, Multisig.Reversed(sigs));
    Multisig.Mirror((s, k) => Verifies(sem, signedCode, s, k), sigs, keys);
  }

  /** OP_CHECKMULTISIG on a stack with the items it expects: below the signatures there must be
      one more item, which it takes too, and it leaves whether the signatures fit the keys. */
  lemma {:induction false} CheckMultiSigIs(sem: Semantics, code: Bytes, m: Machine, base: Stack, sigs: seq<Bytes>,
      a: Bytes, keys: seq<Bytes>, b: Bytes)
    requires m.stack == base + sigs + [a] + keys + [b] && m.opCount + |keys| <= MAX_OPS
    requires DecodeNumber(a) == Ok(|sigs|) && DecodeNumber(b) == Ok(|keys|) && |sigs| <= |keys| <= MAX_MULTISIG_KEYS
    ensures CheckMultiSig(sem, code, m, false).Ok? <==> base != [] && sem.hasSigContext
    ensures base != [] && sem.hasSigContext ==>
              CheckMultiSig(sem, code, m, false).value ==
              m.(opCount := m.opCount + |keys|,
                 stack := Init(base) + [if Signed(sem, code, sigs, keys) then [1] else []])
  {
    hide Verifies, Multisig.Assignable, DecodeNumber, DeleteAll, Signed, Popped;
    var s1, s2, s3 := base + sigs + [a] + keys, base + sigs + [a], base + sigs;
    assert Init(m.stack) == s1 && Last(m.stack) == b;
    PoppedIs(s1, s2, keys);
    assert Init(s2) == s3 && Last(s2) == a;
    PoppedIs(s3, base, sigs);
    SignedAsPopped(sem, code, sigs, keys);
  }

  /** Too few items below the counts. */
  lemma CheckMultiSigShort(sem: Semantics, code: Bytes, m: Machine, items: Stack, a: Bytes, keys: seq<Bytes>,
      b: Bytes, n: nat)
    requires m.stack == items + [a] + keys + [b] && |items| <= n
    requires DecodeNumber(a) == Ok(n) && DecodeNumber(b) == Ok(|keys|)
    ensures CheckMultiSig(sem, code, m, false).Err?
  {
    hide Verifies, Multisig.Assignable, DecodeNumber, DeleteAll, Popped;
    var s1, s2 := items + [a] + keys, items + [a];
    assert Init(m.stack) == s1 && Last(m.stack) == b;
    assert s1[..|s1| - |keys|] == s2;
    assert Init(s2) == items && Last(s2) == a;
  }

  /** The stack OP_CHECKMULTISIG needs: an extra item, the signatures and their number, the keys
      and theirs. */
  ghost predicate Laid(m: Machine, base: Stack, sigs: seq<Bytes>, a: Bytes, keys: seq<Bytes>, b: Bytes) {
    && m.stack == base + sigs + [a] + keys + [b] && base != [] && m.opCount + |keys| <= MAX_OPS
    && DecodeNumber(a) == Ok(|sigs|) && DecodeNumber(b) == Ok(|keys|) && |sigs| <= |keys| <= MAX_MULTISIG_KEYS
  }

  /** It succeeds only on such a stack. */
  lemma {:induction false} CheckMultiSigNeeds(sem: Semantics, code: Bytes, m: Machine, verify: bool)
    returns (base: Stack, sigs: seq<Bytes>, a: Bytes, keys: seq<Bytes>, b: Bytes)
    requires CheckMultiSig(sem, code, m, verify).Ok?
    ensures sem.hasSigContext && Laid(m, base, sigs, a, keys, b)
  {
    hide Verifies, Multisig.Assignable, DeleteAll, Popped, DecodeNumber;
    b := Last(m.stack);
    var s1, n := Init(m.stack), DecodeNumber(b).value;
    keys := s1[|s1| - n..];
    var s2 := s1[..|s1| - n];
    a := Last(s2);
    var s3, k := Init(s2), DecodeNumber(a).value;
    sigs := s3[|s3| - k..];
    base := s3[..|s3| - k];
    assert m.stack == s1 + [b] && s1 == s2 + keys && s2 == s3 + [a] && s3 == base + sigs;
  }

  /** OP_CHECKMULTISIGVERIFY is OP_CHECKMULTISIG whose result must be true and is taken off. */
  lemma {:induction false} VerifyVariant(sem: Semantics, code: Bytes, m: Machine)
    ensures var r := CheckMultiSig(sem, code, m, false);
            CheckMultiSig(sem, code, m, true) ==
            if r.Err? then r
            else if r.value.stack == [] || !Truthy(Last(r.value.stack)) then Err(CheckMultiSigFailed)
            else Ok(r.value.(stack := Init(r.value.stack)))
  {
    hide Verifies, Multisig.Assignable, DeleteAll, Popped, DecodeNumber, Truthy;
    BooleanItems();
    if CheckMultiSig(sem, code, m, false).Ok? {
      var s1, n := Init(m.stack), DecodeNumber(Last(m.stack)).value;
      var s2 := s1[..|s1| - n];
      var s3, k := Init(s2), DecodeNumber(Last(s2)).value;
      var rest := Init(s3[..|s3| - k]);
      assert Init(rest + [[1]]) == rest && rest + [] == rest;
    }
  }

  const CHECKMULTISIG: Bytes := [OP_CHECKMULTISIG]

  /** The last instruction of a bare multisig output. */
  lemma MultisigStep(sem: Semantics, before: Bytes, m: Machine)
    requires m.conditions == [] && m.codesep == 0 && m.opCount == 0 && m.alt == []
    ensures var pk := before + CHECKMULTISIG;
            var r := CheckMultiSig(sem, pk, m.(opCount := 1), false);
            && (Run(sem, pk, m, |before|).Ok? <==>
                r.Ok? && |r.value.stack| + |r.value.alt| <= MAX_STACK_SIZE && r.value.conditions == [])
            && (Run(sem, pk, m, |before|).Ok? ==> Run(sem, pk, m, |before|).value == r.value)
  {
    hide CheckMultiSig, Chunks;
    var pk := before + CHECKMULTISIG;
    FirstOfRest(pk, before, CHECKMULTISIG, []);
    assert pk[0..] == pk;
    var s := Step(sem, pk, m, |before|);
    if s.Ok? {
      assert s.value.1 == |pk|;
      assert Run(sem, pk, s.value.0, |pk|).Ok? <==> s.value.0.conditions == [];
    }
  }

  lemma TopIs(s: Stack, x: Bytes)
    ensures TruthyTop(s + [x]) <==> Truthy(x)
  {
  }

  lemma StackFits(cs: seq<Bytes>, used: nat)
    requires PushOnly(cs) && PushesFit(cs, used) && cs != []
    ensures used + |cs| <= MAX_STACK_SIZE
  {
  }

  /** The script of `n` of `|keys|` signatures. */
  ghost predicate IsMultisig(cs: seq<Bytes>, a: Bytes, keys: seq<Bytes>, b: Bytes, n: nat) {
    && PushOnly(cs) && AllComplete(cs) && Items(cs) == [a] + keys + [b]
    && DecodeNumber(a) == Ok(n) && DecodeNumber(b) == Ok(|keys|) && n <= |keys| <= MAX_MULTISIG_KEYS
  }

  /** The items a multisig script can be satisfied with. */
  ghost predicate Satisfies(sem: Semantics, cs: seq<Bytes>, keys: seq<Bytes>, n: nat, items: Stack)
    requires PushOnly(cs)
  {
    var script := Flatten(cs) + CHECKMULTISIG;
    && |script| <= MAX_SCRIPT_SIZE && PushesFit(cs, |items|)
    && sem.hasSigContext && |items| > n && Signed(sem, script, items[|items| - n..], keys)
  }

  /** A multisig script run on any items ends with a true one exactly if the last `n` of them
      are signatures for its keys, in order, with one more item below them. */
  lemma {:induction false} MultisigRun(sem: Semantics, cs: seq<Bytes>, a: Bytes, keys: seq<Bytes>, b: Bytes, n: nat,
      items: Stack)
    requires IsMultisig(cs, a, keys, b, n)
    ensures var r := Execute(sem, Flatten(cs) + CHECKMULTISIG, items);
            r.Ok? && TruthyTop(r.value.stack) <==> Satisfies(sem, cs, keys, n, items)
  {
    hide Run, Chunks, PushedItem, Signed, CheckMultiSig, DecodeNumber, PushesFit, FitsFrom, AllComplete;
    var before, script := Flatten(cs), Flatten(cs) + CHECKMULTISIG;
    FitsFromIff(cs, |items|);
    assert script == [] + Flatten(cs) + CHECKMULTISIG;
    PushesRun(sem, script, [], cs, CHECKMULTISIG, Start(items));
    assert |[] + Flatten(cs)| == |before|;
    var m := Start(items).(stack := items + Items(cs));
    assert m.stack == items + [a] + keys + [b];
    MultisigStep(sem, before, m);
    if |items| > n {
      var base, sigs := items[..|items| - n], items[|items| - n..];
      assert items == base + sigs;
      CheckMultiSigIs(sem, script, m.(opCount := 1), base, sigs, a, keys, b);
      BooleanItems();
      TopIs(Init(base), if Signed(sem, script, sigs, keys) then [1] else []);
      if PushesFit(cs, |items|) {
        StackFits(cs, |items|);
      }
    } else {
      CheckMultiSigShort(sem, script, m.(opCount := 1), items, a, keys, b, n);
    }
  }

  /** A bare multisig output, spent by a push-only script. */
  lemma {:induction false} MultisigRule(sem: Semantics, scriptSig: Bytes, cs: seq<Bytes>, a: Bytes, keys: seq<Bytes>,
      b: Bytes, n: nat)
    requires PushOnly(Chunks(scriptSig)) && IsMultisig(cs, a, keys, b, n)
    ensures Verify(sem, scriptSig, Flatten(cs) + CHECKMULTISIG).Ok? <==>
            && |scriptSig| <= MAX_SCRIPT_SIZE && PushesFit(Chunks(scriptSig), 0)
            && Satisfies(sem, cs, keys, n, Items(Chunks(scriptSig)))
  {
    hide Execute, Chunks, PushedItem, PushesFit, Satisfies, TruthyTop;
    var pk, items := Flatten(cs) + CHECKMULTISIG, Items(Chunks(scriptSig));
    assert !IsP2sh(pk);
    OrdinaryRule(sem, scriptSig, pk);
    PushOnlyExecutes(sem, scriptSig, []);
    assert [] + items == items;
    MultisigRun(sem, cs, a, keys, b, n, items);
  }

  /** The same script behind a hash: the last item of the input is the script itself. */
  lemma {:induction false} P2shMultisigRule(sem: Semantics, scriptSig: Bytes, pk: Bytes, cs: seq<Bytes>, a: Bytes,
      keys: seq<Bytes>, b: Bytes, n: nat)
    requires IsP2sh(pk) && PushOnly(Chunks(scriptSig)) && Chunks(scriptSig) != [] && IsMultisig(cs, a, keys, b, n)
    requires Last(Items(Chunks(scriptSig))) == Flatten(cs) + CHECKMULTISIG
    ensures Verify(sem, scriptSig, pk).Ok? <==>
            && |scriptSig| <= MAX_SCRIPT_SIZE && PushesFit(Chunks(scriptSig), 1)
            && sem.hash160(Flatten(cs) + CHECKMULTISIG) == pk[2..22]
            && Satisfies(sem, cs, keys, n, Init(Items(Chunks(scriptSig))))
  {
    hide Execute, Chunks, PushedItem, PushesFit, Satisfies, TruthyTop;
    P2shRule(sem, scriptSig, pk);
    MultisigRun(sem, cs, a, keys, b, n, Init(Items(Chunks(scriptSig))));
  }

  /** OP_CODESEPARATOR: from then on OP_CHECKMULTISIG signs only the code behind it. */
  lemma {:induction false} SeparatedRun(sem: Semantics, before: Bytes, after: Bytes, m: Machine)
    requires Executing(m.conditions) && m.opCount + 1 <= MAX_OPS && |m.stack| + |m.alt| <= MAX_STACK_SIZE
    ensures var script := before + SEPARATOR + after;
            var behind := m.(codesep := |before| + 1, opCount := m.opCount + 1);
            && Run(sem, script, m, |before|) == Run(sem, script, behind, |before| + 1)
            && forall n: Machine, pc ::
                 n.codesep == behind.codesep && 0 <= pc < |script| && script[pc] == OP_CHECKMULTISIG ==>
                 Apply(sem, script, n, pc) == CheckMultiSig(sem, after, n, false)
  {
    hide CheckMultiSig, Chunks;
    var script := before + SEPARATOR + after;
    OneByte(OP_CODESEPARATOR);
    FirstOfRest(script, before, SEPARATOR, after);
    assert script[|before| + 1..] == after;
    RunStep(sem, script, m, |before|);
  }

  // ---------- Conditionals ----------

  predicate Opens(op: byte) { op == OP_IF || op == OP_NOTIF }

  /** Whole instructions in which, `depth` levels down, every conditional that is opened is
      closed again, and no more. */
  ghost predicate Balanced(cs: seq<Bytes>, depth: nat) {
    if cs == [] then depth == 0
    else
      && Complete(cs[0]) && !IsDisabled(cs[0][0])
      && var op := cs[0][0];
      if Opens(op) then Balanced(cs[1..], depth + 1)
      else if op == OP_ELSE then depth > 0 && Balanced(cs[1..], depth)
      else if op == OP_ENDIF then depth > 0 && Balanced(cs[1..], depth - 1)
      else Balanced(cs[1..], depth)
  }

  /** One instruction of a branch that is not executed, `depth` levels further down. */
  lemma SkipStep(sem: Semantics, script: Bytes, before: Bytes, c: Bytes, after: Bytes, m: Machine, base: seq<bool>,
      depth: nat)
    requires script == before + c + after && Complete(c) && !IsDisabled(c[0])
    requires |m.conditions| == |base| + depth && base <= m.conditions && !Executing(base)
    requires c[0] == OP_ELSE || c[0] == OP_ENDIF ==> depth > 0
    ensures var op, r := c[0], Step(sem, script, m, |before|);
            if !IsPush(op) && m.opCount + 1 > MAX_OPS then r == Err(TooManyOps)
            else
              && r.Ok? && r.value.1 == |before + c|
              && var m' := r.value.0;
              && m' == m.(opCount := m.opCount + (if IsPush(op) then 0 else 1), conditions := m'.conditions)
              && base <= m'.conditions
              && |m'.conditions| == |base| + (if Opens(op) then depth + 1 else if op == OP_ENDIF then depth - 1 else depth)
  {
    FirstOfRest(script, before, c, after);
    assert !Executing(m.conditions);
  }

  /** A branch that is not executed changes nothing but the operation count. */
  lemma {:induction false} SkipRun(sem: Semantics, script: Bytes, before: Bytes, cs: seq<Bytes>, after: Bytes,
      m: Machine, base: seq<bool>, depth: nat)
    requires script == before + Flatten(cs) + after && Balanced(cs, depth)
    requires |m.conditions| == |base| + depth && base <= m.conditions && !Executing(base)
    ensures Run(sem, script, m, |before|) ==
            if Ops(cs) > 0 && m.opCount + Ops(cs) > MAX_OPS then Err(TooManyOps)
            else Run(sem, script, m.(opCount := m.opCount + Ops(cs), conditions := base), |before + Flatten(cs)|)
    decreases |cs|
  {
    hide Step, Executing, Chunks, ChunkLen, Complete, IsDisabled;
    if cs == [] {
      assert before + Flatten(cs) == before && m.conditions == base;
    } else {
      var c, tail := cs[0], cs[1..];
      FlattenSplit(before, cs, after);
      SkipStep(sem, script, before, c, Flatten(tail) + after, m, base, depth);
      FirstOfRest(script, before, c, Flatten(tail) + after);
      var r := Step(sem, script, m, |before|);
      if r.Ok? {
        var op := c[0];
        var below := if Opens(op) then depth + 1 else if op == OP_ENDIF then depth - 1 else depth;
        SkipRun(sem, script, before + c, tail, after, r.value.0, base, below);
        assert |before + c + Flatten(tail)| == |before + Flatten(cs)|;
      }
    }
  }

  /** A conditional opened by `op` is entered: its first part for a true item under OP_IF or a
      false one under OP_NOTIF. */
  ghost predicate Taken(op: byte, item: Bytes) {
    Truthy(item) == (op == OP_IF)
  }

  lemma OneByte(op: byte)
    requires op > 0x4e
    ensures Complete([op]) && Flatten([[op]]) == [op]
  {
    var c: Bytes := [op];
    assert HeaderLen(c[0]) == 1 && PayloadLen(c) == 0;
    assert Flatten([c]) == c + Flatten([c][1..]);
  }

  /** OP_IF and OP_NOTIF take the top item. If the first part is taken, the run goes on in it;
      otherwise it goes on behind the OP_ELSE, and the first part has only been counted. */
  lemma {:induction false} IfRun(sem: Semantics, script: Bytes, before: Bytes, op: byte, yes: seq<Bytes>, after: Bytes,
      m: Machine)
    requires script == before + [op] + Flatten(yes) + [OP_ELSE] + after && Opens(op) && Balanced(yes, 0)
    requires Executing(m.conditions) && m.stack != [] && |m.stack| + |m.alt| <= MAX_STACK_SIZE
    requires m.opCount + 2 + Ops(yes) <= MAX_OPS
    ensures var inside := m.(stack := Init(m.stack), conditions := m.conditions + [true]);
            Run(sem, script, m, |before|) ==
            if Taken(op, Last(m.stack)) then
              Run(sem, script, inside.(opCount := m.opCount + 1), |before| + 1)
            else
              Run(sem, script, inside.(opCount := m.opCount + 2 + Ops(yes)), |before| + 1 + |Flatten(yes)| + 1)
  {
    hide Chunks, ChunkLen, Balanced, Ops, Truthy, Run;
    OneByte(op);
    var body := Flatten(yes);
    assert script == before + [op] + (body + [OP_ELSE] + after);
    FirstOfRest(script, before, [op], body + [OP_ELSE] + after);
    IfStep(sem, script, m, |before|);
    var taken := Taken(op, Last(m.stack));
    var m1 := m.(stack := Init(m.stack), conditions := m.conditions + [taken], opCount := m.opCount + 1);
    RunStep(sem, script, m, |before|);
    if !taken {
      NotExecuting(m.conditions);
      assert script == (before + [op]) + body + ([OP_ELSE] + after);
      SkipRun(sem, script, before + [op], yes, [OP_ELSE] + after, m1, m1.conditions, 0);
      var m2, pc := m1.(opCount := m1.opCount + Ops(yes)), |before + [op] + body|;
      OneByte(OP_ELSE);
      FirstOfRest(script, before + [op] + body, [OP_ELSE], after);
      ElseStep(sem, script, m2, pc, m.conditions, false);
      RunStep(sem, script, m2, pc);
    }
  }

  lemma NotExecuting(conditions: seq<bool>)
    ensures !Executing(conditions + [false])
  {
    assert !(conditions + [false])[|conditions|];
  }

  lemma RunStep(sem: Semantics, script: Bytes, m: Machine, pc: nat)
    requires pc < |script| && Step(sem, script, m, pc).Ok?
    ensures var (m', pc') := Step(sem, script, m, pc).value;
            pc' <= |script| && Run(sem, script, m, pc) == Run(sem, script, m', pc')
  {
    StepBoundary(sem, script, m, pc);
  }

  lemma IfStep(sem: Semantics, script: Bytes, m: Machine, pc: nat)
    requires pc < |script| && Opens(script[pc]) && Executing(m.conditions) && m.stack != []
    requires |m.stack| + |m.alt| <= MAX_STACK_SIZE && m.opCount + 1 <= MAX_OPS
    ensures Step(sem, script, m, pc) ==
            Ok((m.(stack := Init(m.stack), conditions := m.conditions + [Taken(script[pc], Last(m.stack))],
                   opCount := m.opCount + 1), pc + 1))
  {
    hide Truthy;
  }

  lemma ElseStep(sem: Semantics, script: Bytes, m: Machine, pc: nat, outer: seq<bool>, inner: bool)
    requires pc < |script| && script[pc] == OP_ELSE && m.conditions == outer + [inner]
    requires |m.stack| + |m.alt| <= MAX_STACK_SIZE && m.opCount + 1 <= MAX_OPS
    ensures Step(sem, script, m, pc) == Ok((m.(conditions := outer + [!inner], opCount := m.opCount + 1), pc + 1))
  {
  }

  lemma EndifStep(sem: Semantics, script: Bytes, m: Machine, pc: nat, outer: seq<bool>, inner: bool)
    requires pc < |script| && script[pc] == OP_ENDIF && m.conditions == outer + [inner]
    requires |m.stack| + |m.alt| <= MAX_STACK_SIZE && m.opCount + 1 <= MAX_OPS
    ensures Step(sem, script, m, pc) == Ok((m.(conditions := outer, opCount := m.opCount + 1), pc + 1))
  {
  }

  /** The end of a part that was executed: the other part is only counted, and the run goes on
      behind the OP_ENDIF, outside the conditional. */
  lemma {:induction false} ElseRun(sem: Semantics, script: Bytes, before: Bytes, no: seq<Bytes>, after: Bytes,
      m: Machine, outer: seq<bool>)
    requires script == before + [OP_ELSE] + Flatten(no) + [OP_ENDIF] + after && Balanced(no, 0)
    requires m.conditions == outer + [true] && |m.stack| + |m.alt| <= MAX_STACK_SIZE
    requires m.opCount + 2 + Ops(no) <= MAX_OPS
    ensures Run(sem, script, m, |before|) ==
            Run(sem, script, m.(conditions := outer, opCount := m.opCount + 2 + Ops(no)),
                |before| + 1 + |Flatten(no)| + 1)
  {
    hide Chunks, ChunkLen, Balanced, Ops, Run, Step;
    var body := Flatten(no);
    OneByte(OP_ELSE);
    assert script == before + [OP_ELSE] + (body + [OP_ENDIF] + after);
    FirstOfRest(script, before, [OP_ELSE], body + [OP_ENDIF] + after);
    ElseStep(sem, script, m, |before|, outer, true);
    RunStep(sem, script, m, |before|);
    var m1 := m.(conditions := outer + [false], opCount := m.opCount + 1);
    NotExecuting(outer);
    assert script == (before + [OP_ELSE]) + body + ([OP_ENDIF] + after);
    SkipRun(sem, script, before + [OP_ELSE], no, [OP_ENDIF] + after, m1, m1.conditions, 0);
    var m2, pc := m1.(opCount := m1.opCount + Ops(no)), |before + [OP_ELSE] + body|;
    OneByte(OP_ENDIF);
    FirstOfRest(script, before + [OP_ELSE] + body, [OP_ENDIF], after);
    EndifStep(sem, script, m2, pc, outer, false);
    RunStep(sem, script, m2, pc);
  }
}
