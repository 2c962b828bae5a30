/** What every successful run of the interpreter says about the other two walkers. */
module ScriptTheorems {
  import opened Basics
  import opened Script
  import opened ScriptEngine

  ghost predicate AllComplete(cs: seq<Bytes>) {
    forall i :: 0 <= i < |cs| ==> Complete(cs[i])
  }

  function Items(cs: seq<Bytes>): (r: Stack)
    requires PushOnly(cs)
    ensures |r| == |cs|
  {
    if cs == [] then [] else [PushedItem(cs[0])] + Items(cs[1..])
  }

  lemma ChunksFrom(script: Bytes, pc: nat)
    requires pc < |script|
    ensures Chunks(script[pc..]) == [FirstChunk(script[pc..])] + Chunks(script[pc + ChunkLen(script[pc..])..])
  {
    assert Rest(script[pc..]) == script[pc + ChunkLen(script[pc..])..];
  }

  /** A push leaves the operation count alone; every other instruction raises it. */
  lemma StepCounts(sem: Semantics, script: Bytes, m: Machine, pc: nat)
    requires pc < |script| && Step(sem, script, m, pc).Ok?
    ensures IsPush(script[pc]) ==> Step(sem, script, m, pc).value.0.opCount == m.opCount
    ensures !IsPush(script[pc]) ==> Step(sem, script, m, pc).value.0.opCount > m.opCount
  {
  }

  /** A successful run from any state visits exactly the instructions of the disassembly:
      they are all whole, and the operation count stays put exactly on push-only code. */
  lemma {:induction false} RunBoundaries(sem: Semantics, script: Bytes, m: Machine, pc: nat)
    requires pc <= |script| && Run(sem, script, m, pc).Ok?
    ensures AllComplete(Chunks(script[pc..]))
    ensures Run(sem, script, m, pc).value.opCount >= m.opCount
    ensures Run(sem, script, m, pc).value.opCount == m.opCount <==> PushOnly(Chunks(script[pc..]))
    decreases |script| - pc
  {
    if pc < |script| {
      var (m', pc') := Step(sem, script, m, pc).value;
      StepBoundary(sem, script, m, pc);
      RunBoundaries(sem, script, m', pc');
      ChunksFrom(script, pc);
      StepCounts(sem, script, m, pc);
      PushOnlyStep(script[pc..]);
      assert Rest(script[pc..]) == script[pc'..];
    } else {
      assert script[pc..] == [];
    }
  }

  /** Push-only code: what has to hold for a run to succeed. */
  ghost predicate PushesFit(cs: seq<Bytes>, used: nat)
    requires PushOnly(cs)
  {
    && AllComplete(cs)
    && (forall i :: 0 <= i < |cs| ==> |PushedItem(cs[i])| <= MAX_PUSH_SIZE)
    && (cs != [] ==> used + |cs| <= MAX_STACK_SIZE)
  }

  /** The same, one instruction at a time. */
  ghost predicate FitsFrom(cs: seq<Bytes>, used: nat)
    requires PushOnly(cs)
  {
    cs == [] || (FirstFits(cs[0], used) && FitsFrom(cs[1..], used + 1))
  }

  lemma PushStep(sem: Semantics, script: Bytes, m: Machine, pc: nat)
    requires pc < |script| && IsPush(script[pc]) && m.conditions == []
    ensures var c := FirstChunk(script[pc..]);
            Step(sem, script, m, pc).Ok? <==>
              Complete(c) && |PushedItem(c)| <= MAX_PUSH_SIZE && |m.stack| + |m.alt| + 1 <= MAX_STACK_SIZE
    ensures Step(sem, script, m, pc).Ok? ==>
              Step(sem, script, m, pc).value.0 == m.(stack := m.stack + [PushedItem(FirstChunk(script[pc..]))])
  {
  }

  predicate FirstFits(c: Bytes, used: nat)
    requires HeaderComplete(c) && IsPush(c[0])
  {
    Complete(c) && |PushedItem(c)| <= MAX_PUSH_SIZE && used + 1 <= MAX_STACK_SIZE
  }

  lemma PushRunStep(sem: Semantics, script: Bytes, m: Machine, pc: nat)
    requires pc < |script| && HeaderComplete(script[pc..]) && IsPush(script[pc]) && m.conditions == []
    ensures var c := FirstChunk(script[pc..]);
            Run(sem, script, m, pc) ==
            if FirstFits(c, |m.stack| + |m.alt|) then
              Run(sem, script, m.(stack := m.stack + [PushedItem(c)]), pc + |c|)
            else Err(Step(sem, script, m, pc).error)
  {
    PushStep(sem, script, m, pc);
    if Step(sem, script, m, pc).Ok? {
      StepBoundary(sem, script, m, pc);
    }
  }

  /** The run of push-only code, in full: when it succeeds, and with which result. */
  lemma {:induction false} PushOnlyRun(sem: Semantics, script: Bytes, m: Machine, pc: nat)
    requires pc <= |script| && m.conditions == [] && PushOnly(Chunks(script[pc..]))
    ensures Run(sem, script, m, pc).Ok? <==> FitsFrom(Chunks(script[pc..]), |m.stack| + |m.alt|)
    ensures Run(sem, script, m, pc).Ok? ==>
              Run(sem, script, m, pc).value == m.(stack := m.stack + Items(Chunks(script[pc..])))
    decreases |script| - pc
  {
    hide Step, Chunks, FirstChunk, ChunkLen, PushOnly, FirstFits;
    if pc == |script| {
      EmptyChunks(script);
      assert m.stack + [] == m.stack;
    } else {
      PushOnlySplit(script, pc);
      var cs, c := Chunks(script[pc..]), FirstChunk(script[pc..]);
      PushRunStep(sem, script, m, pc);
      if FirstFits(c, |m.stack| + |m.alt|) {
        var m' := m.(stack := m.stack + [PushedItem(c)]);
        PushOnlyRun(sem, script, m', pc + |c|);
        assert m'.stack + Items(cs[1..]) == m.stack + Items(cs);
      }
    }
  }

  lemma EmptyChunks(script: Bytes)
    ensures Chunks(script[|script|..]) == []
  {
  }

  lemma PushOnlySplit(script: Bytes, pc: nat)
    requires pc < |script| && PushOnly(Chunks(script[pc..]))
    ensures IsPush(script[pc])
    ensures Chunks(script[pc..]) != []
    ensures Chunks(script[pc..])[0] == FirstChunk(script[pc..])
    ensures var n := |FirstChunk(script[pc..])|;
            0 < n <= |script| - pc && Chunks(script[pc..])[1..] == Chunks(script[pc + n..]) && PushOnly(Chunks(script[pc + n..]))
    ensures HeaderComplete(script[pc..])
    ensures HeaderComplete(FirstChunk(script[pc..])) && IsPush(FirstChunk(script[pc..])[0])
  {
    PushOnlyStep(script[pc..]);
    ChunksFrom(script, pc);
    assert Rest(script[pc..]) == script[pc + ChunkLen(script[pc..])..];
  }

  lemma {:induction false} FitsFromIff(cs: seq<Bytes>, used: nat)
    requires PushOnly(cs)
    ensures FitsFrom(cs, used) <==> PushesFit(cs, used)
    decreases |cs|
  {
    if cs != [] {
      var tail := cs[1..];
      FitsFromIff(tail, used + 1);
      if FitsFrom(cs, used) {
        forall i | 0 <= i < |cs|
          ensures Complete(cs[i]) && |PushedItem(cs[i])| <= MAX_PUSH_SIZE
        {
          if i > 0 {
            assert cs[i] == tail[i - 1];
          }
        }
      }
    }
  }

  /** Exactly when push-only code executes. */
  lemma {:induction false} PushOnlyExecutes(sem: Semantics, script: Bytes, stack: Stack)
    requires PushOnly(Chunks(script))
    ensures Execute(sem, script, stack).Ok? <==> |script| <= MAX_SCRIPT_SIZE && PushesFit(Chunks(script), |stack|)
    ensures Execute(sem, script, stack).Ok? ==> Execute(sem, script, stack).value.stack == stack + Items(Chunks(script))
  {
    hide Run, Chunks, PushOnly, PushesFit;
    assert script[0..] == script;
    PushOnlyRun(sem, script, Start(stack), 0);
    FitsFromIff(Chunks(script), |stack|);
  }

  /** The three walkers agree: when `execute` succeeds, `is_push_only` holds exactly when no
      operation was counted, and then the final stack is the initial one plus the pushed
      items in order. */
  lemma {:induction false} WalkersAgree(sem: Semantics, script: Bytes, stack: Stack)
    requires Execute(sem, script, stack).Ok?
    ensures AllComplete(Chunks(script))
    ensures PushOnly(Chunks(script)) <==> Execute(sem, script, stack).value.opCount == 0
    ensures PushOnly(Chunks(script)) ==> Execute(sem, script, stack).value.stack == stack + Items(Chunks(script))
  {
    assert script[0..] == script;
    RunBoundaries(sem, script, Start(stack), 0);
    if PushOnly(Chunks(script)) {
      PushOnlyRun(sem, script, Start(stack), 0);
    }
  }
}
