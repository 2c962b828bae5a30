/** Instruction boundaries of a script, and the two byte walkers that rely on them:
    `remove_codeseparators` and `is_push_only`. */
module Script {
  import opened Basics

  const OP_PUSHDATA1: byte := 0x4c
  const OP_PUSHDATA2: byte := 0x4d
  const OP_PUSHDATA4: byte := 0x4e
  const OP_1NEGATE: byte := 0x4f
  const OP_CODESEPARATOR: byte := 0xab

  // ---------- The reference disassembly ----------

  /** Opcode byte plus length bytes. */
  function HeaderLen(op: byte): nat {
    if op == OP_PUSHDATA1 then 2 else if op == OP_PUSHDATA2 then 3 else if op == OP_PUSHDATA4 then 5 else 1
  }

  function Le16(b0: int, b1: int): int { b0 + 0x100 * b1 }

  function Le32(b0: int, b1: int, b2: int, b3: int): int { b0 + 0x100 * b1 + 0x1_0000 * b2 + 0x100_0000 * b3 }

  /** Number of data bytes the instruction at the front of `s` announces. */
  function PayloadLen(s: Bytes): nat
    requires |s| > 0 && |s| >= HeaderLen(s[0])
  {
    var op := s[0];
    if op <= 0x4b then op
    else if op == OP_PUSHDATA1 then s[1]
    else if op == OP_PUSHDATA2 then Le16(s[1], s[2])
    else if op == OP_PUSHDATA4 then Le32(s[1], s[2], s[3], s[4])
    else 0
  }

  predicate HeaderComplete(s: Bytes) {
    |s| > 0 && |s| >= HeaderLen(s[0])
  }

  /** `c` is one whole instruction. */
  predicate Complete(c: Bytes) {
    HeaderComplete(c) && |c| == HeaderLen(c[0]) + PayloadLen(c)
  }

  /** Length of the first instruction, cut off where the script ends. */
  function ChunkLen(s: Bytes): (n: nat)
    requires |s| > 0
    ensures 1 <= n <= |s|
  {
    if HeaderComplete(s) then Min(HeaderLen(s[0]) + PayloadLen(s), |s|) else |s|
  }

  function FirstChunk(s: Bytes): Bytes
    requires |s| > 0
  {
    s[..ChunkLen(s)]
  }

  function Rest(s: Bytes): Bytes
    requires |s| > 0
  {
    s[ChunkLen(s)..]
  }

  /** The script as its sequence of instructions. */
  function Chunks(s: Bytes): (r: seq<Bytes>)
    decreases |s|
  {
    if s == [] then [] else [FirstChunk(s)] + Chunks(Rest(s))
  }

  lemma {:induction false} FlattenChunks(s: Bytes)
    ensures Flatten(Chunks(s)) == s
    decreases |s|
  {
    if s != [] {
      FlattenChunks(Rest(s));
      assert Chunks(s)[1..] == Chunks(Rest(s));
      assert s == FirstChunk(s) + Rest(s);
    }
  }

  /** A first instruction stays the first instruction whatever follows it. */
  lemma FirstChunkOfConcat(c: Bytes, rest: Bytes)
    requires Complete(c)
    ensures FirstChunk(c + rest) == c && Rest(c + rest) == rest
  {
    assert (c + rest)[0] == c[0];
    assert PayloadLen(c + rest) == PayloadLen(c);
  }

  /** What `Chunks` can return: whole instructions, except that the last may be cut off. */
  ghost predicate IsChunkList(cs: seq<Bytes>) {
    && (forall i :: 0 <= i < |cs| - 1 ==> Complete(cs[i]))
    && (|cs| > 0 ==> |cs[|cs| - 1]| > 0 && FirstChunk(cs[|cs| - 1]) == cs[|cs| - 1])
  }

  lemma {:induction false} ChunksAreChunkList(s: Bytes)
    ensures IsChunkList(Chunks(s))
    decreases |s|
  {
    if s != [] {
      ChunksAreChunkList(Rest(s));
      var c, tail := FirstChunk(s), Chunks(Rest(s));
      if Rest(s) != [] {
        assert PayloadLen(s) == PayloadLen(c);
        assert tail != [];
        assert Chunks(s)[|Chunks(s)| - 1] == tail[|tail| - 1];
        forall i | 0 <= i < |Chunks(s)| - 1
          ensures Complete(Chunks(s)[i])
        {
          if i > 0 {
            assert Chunks(s)[i] == tail[i - 1];
          }
        }
      } else {
        assert c == s;
      }
    }
  }

  /** Reassembling a list of instructions and disassembling it again changes nothing. */
  lemma {:induction false} ChunksOfFlatten(cs: seq<Bytes>)
    requires IsChunkList(cs)
    ensures Chunks(Flatten(cs)) == cs
  {
    if |cs| == 1 {
      assert Flatten(cs) == cs[0] + Flatten(cs[1..]) == cs[0];
      assert Chunks(Rest(cs[0])) == [];
    } else if |cs| > 1 {
      assert IsChunkList(cs[1..]) by {
        assert cs[1..][|cs| - 2] == cs[|cs| - 1];
      }
      ChunksOfFlatten(cs[1..]);
      FirstChunkOfConcat(cs[0], Flatten(cs[1..]));
    }
  }

  // ---------- remove_codeseparators ----------

  const SEPARATOR: Bytes := [OP_CODESEPARATOR]

  /** The instructions other than OP_CODESEPARATOR, in order. */
  function DropSeparators(cs: seq<Bytes>): (r: seq<Bytes>) {
    if cs == [] then []
    else if cs[0] == SEPARATOR then DropSeparators(cs[1..])
    else [cs[0]] + DropSeparators(cs[1..])
  }

  function Stripped(s: Bytes): Bytes {
    Flatten(DropSeparators(Chunks(s)))
  }

  lemma StrippedStep(s: Bytes)
    requires s != []
    ensures FirstChunk(s) == SEPARATOR <==> s[0] == OP_CODESEPARATOR
    ensures Stripped(s) == if s[0] == OP_CODESEPARATOR then Stripped(s[1..]) else FirstChunk(s) + Stripped(Rest(s))
  {
    var cs := Chunks(s);
    assert cs[0] == FirstChunk(s) && cs[1..] == Chunks(Rest(s));
    if s[0] == OP_CODESEPARATOR {
      assert ChunkLen(s) == 1;
    } else {
      assert FirstChunk(s)[0] == s[0];
      var ds := DropSeparators(cs);
      assert ds == [cs[0]] + DropSeparators(cs[1..]);
      assert ds[1..] == DropSeparators(cs[1..]);
    }
  }

  /** Where the instruction at `i` ends, in any script, cut off or not. */
  method InstructionEnd(script: Bytes, i: nat) returns (end: nat)
    requires i < |script|
    ensures end == i + ChunkLen(script[i..]) && end <= |script|
  {
    var op := script[i];
    if op <= 0x4b {
      end := Min(i + 1 + op, |script|);
    } else if op == OP_PUSHDATA1 {
      end := if i + 1 >= |script| then |script| else Min(i + 2 + script[i + 1], |script|);
    } else if op == OP_PUSHDATA2 {
      end := if i + 3 > |script| then |script|
             else Min(i + 3 + Le16(script[i + 1], script[i + 2]), |script|);
    } else if op == OP_PUSHDATA4 {
      end := if i + 5 > |script| then |script|
             else Min(i + 5 + Le32(script[i + 1], script[i + 2], script[i + 3], script[i + 4]), |script|);
    } else {
      end := i + 1;
    }
  }

  /** The walk of `remove_codeseparators`. */
  method RemoveCodeseparators(script: Bytes) returns (result: Bytes)
    ensures result == Stripped(script)
  {
    hide Stripped, ChunkLen;
    result := [];
    var i := 0;
    StrippedNothing();
    while i < |script|
      invariant 0 <= i <= |script|
      invariant result + Stripped(script[i..]) == Stripped(script)
      decreases |script| - i
    {
      ghost var rest := script[i..];
      StrippedStep(rest);
      if script[i] == OP_CODESEPARATOR {
        assert rest[1..] == script[i + 1..];
        i := i + 1;
        continue;
      }
      var end := InstructionEnd(script, i);
      assert script[i..end] == FirstChunk(rest) && script[end..] == Rest(rest);
      result := result + script[i..end];
      i := end;
    }
    assert script[i..] == [];
  }

  lemma StrippedNothing()
    ensures Stripped([]) == []
  {
  }

  lemma {:induction false} DropSeparatorsElements(cs: seq<Bytes>)
    ensures SEPARATOR !in DropSeparators(cs)
    ensures forall c :: c in DropSeparators(cs) ==> c in cs
    ensures SEPARATOR !in cs ==> DropSeparators(cs) == cs
    ensures |cs| > 0 && cs[|cs| - 1] != SEPARATOR ==>
              |DropSeparators(cs)| > 0 && DropSeparators(cs)[|DropSeparators(cs)| - 1] == cs[|cs| - 1]
  {
    if cs != [] {
      DropSeparatorsElements(cs[1..]);
      assert cs == [cs[0]] + cs[1..];
    }
  }

  /** Dropping separators leaves a list of instructions. */
  lemma DropSeparatorsChunkList(cs: seq<Bytes>)
    requires IsChunkList(cs)
    ensures IsChunkList(DropSeparators(cs))
    decreases |cs|
  {
    if |cs| > 0 {
      var ds := DropSeparators(cs);
      DropSeparatorsElements(cs);
      var init := cs[..|cs| - 1];
      DropSeparatorsAppend(init, cs[|cs| - 1]);
      assert cs == init + [cs[|cs| - 1]];
      DropSeparatorsElements(init);
      assert forall c :: c in init ==> Complete(c);
      forall i | 0 <= i < |ds|
        ensures Complete(ds[i]) || (i == |ds| - 1 && ds[i] == cs[|cs| - 1])
      {
        if i < |DropSeparators(init)| {
          assert ds[i] in init;
        }
      }
      forall c | Complete(c)
        ensures FirstChunk(c) == c
      {
      }
    }
  }

  lemma {:induction false} DropSeparatorsAppend(cs: seq<Bytes>, c: Bytes)
    ensures DropSeparators(cs + [c]) == DropSeparators(cs) + (if c == SEPARATOR then [] else [c])
  {
    if cs == [] {
      assert [c][1..] == [];
    } else {
      DropSeparatorsAppend(cs[1..], c);
      assert (cs + [c])[1..] == cs[1..] + [c];
    }
  }

  /** Exactly the separators standing at instruction positions are dropped, every other
      instruction is kept in order, and doing it twice changes nothing more. */
  lemma {:induction false} SeparatorsRemovedExactly(s: Bytes)
    ensures Chunks(Stripped(s)) == DropSeparators(Chunks(s))
    ensures SEPARATOR !in Chunks(Stripped(s))
    ensures Stripped(Stripped(s)) == Stripped(s)
  {
    ChunksAreChunkList(s);
    DropSeparatorsChunkList(Chunks(s));
    ChunksOfFlatten(DropSeparators(Chunks(s)));
    DropSeparatorsElements(Chunks(s));
    DropSeparatorsElements(DropSeparators(Chunks(s)));
    FlattenChunks(Stripped(s));
  }

  // ---------- is_push_only ----------

  predicate IsPush(op: byte) {
    op <= 0x4f || 0x51 <= op <= 0x60
  }

  /** Every instruction is a push whose length bytes are all there. */
  ghost predicate PushOnly(cs: seq<Bytes>) {
    forall i :: 0 <= i < |cs| ==> HeaderComplete(cs[i]) && IsPush(cs[i][0])
  }

  lemma PushOnlyStep(s: Bytes)
    requires s != []
    ensures PushOnly(Chunks(s)) <==> HeaderComplete(s) && IsPush(s[0]) && PushOnly(Chunks(Rest(s)))
  {
    var cs, tail := Chunks(s), Chunks(Rest(s));
    assert cs == [FirstChunk(s)] + tail;
    assert FirstChunk(s)[0] == s[0];
    if PushOnly(cs) {
      assert HeaderComplete(cs[0]);
      forall i | 0 <= i < |tail|
        ensures HeaderComplete(tail[i]) && IsPush(tail[i][0])
      {
        assert tail[i] == cs[i + 1];
      }
    }
  }

  /** The walk of `is_push_only`: it may run past the end of a cut-off push. */
  method IsPushOnly(script: Bytes) returns (r: bool)
    ensures r <==> PushOnly(Chunks(script))
  {
    var i := 0;
    while i < |script|
      invariant 0 <= i
      invariant PushOnly(Chunks(script)) <==> PushOnly(Chunks(script[Min(i, |script|)..]))
      decreases |script| - i
    {
      ghost var rest, start := script[i..], i;
      PushOnlyStep(rest);
      var op := script[i];
      if op == 0 || op == OP_1NEGATE || 0x51 <= op <= 0x60 {
        i := i + 1;
      } else if op <= 0x4b {
        i := i + 1 + op;
      } else if op == OP_PUSHDATA1 {
        if i + 1 >= |script| {
          return false;
        }
        i := i + 2 + script[i + 1];
      } else if op == OP_PUSHDATA2 {
        if i + 3 > |script| {
          return false;
        }
        i := i + 3 + Le16(script[i + 1], script[i + 2]);
      } else if op == OP_PUSHDATA4 {
        if i + 5 > |script| {
          return false;
        }
        i := i + 5 + Le32(script[i + 1], script[i + 2], script[i + 3], script[i + 4]);
      } else {
        return false;
      }
      assert Min(i, |script|) == start + ChunkLen(rest);
      assert script[Min(i, |script|)..] == Rest(rest);
    }
    assert script[Min(i, |script|)..] == [];
    return true;
  }
}
