/** The interpreter as the object it is: fields updated instruction by instruction,
    proved to compute `Run`. */
module EngineClass {
  import opened Basics
  import opened Script
  import opened ScriptEngine
  import Multisig

  class Engine {
    const sem: Semantics
    const script: Bytes
    var stack: Stack
    var altStack: Stack
    var pc: nat
    var opCount: nat
    var conditions: seq<bool>
    var codesepPos: nat

    constructor (sem: Semantics, script: Bytes, stack: Stack)
      ensures this.sem == sem && this.script == script && pc == 0 && State() == Start(stack)
    {
      this.sem, this.script, this.stack := sem, script, stack;
      altStack, pc, opCount, conditions, codesepPos := [], 0, 0, [], 0;
    }

    ghost function State(): Machine
      reads this
    {
      Machine(stack, altStack, opCount, conditions, codesepPos)
    }

    method ReadByte() returns (r: ScriptResult<byte>)
      modifies this`pc
      ensures if old(pc) < |script| then r == Ok(script[old(pc)]) && pc == old(pc) + 1 else r == Err(InvalidPushSize)
    {
      if pc >= |script| {
        return Err(InvalidPushSize);
      }
      r := Ok(script[pc]);
      pc := pc + 1;
    }

    /** The number of data bytes of the push `op`, read from the bytes after it. */
    method ReadLength(op: byte) returns (r: ScriptResult<nat>)
      requires 0 < pc <= |script| && script[pc - 1] == op && op <= 0x4e
      modifies this`pc
      ensures var s := script[old(pc) - 1..];
              if HeaderComplete(s) then r == Ok(PayloadLen(s)) && pc == old(pc) - 1 + HeaderLen(op)
              else r == Err(InvalidPushSize)
    {
      if op <= 0x4b {
        return Ok(op);
      }
      var b0 := ReadByte();
      if b0.Err? {
        return Err(b0.error);
      }
      if op == OP_PUSHDATA1 {
        return Ok(b0.value);
      }
      var b1 := ReadByte();
      if b1.Err? {
        return Err(b1.error);
      }
      if op == OP_PUSHDATA2 {
        return Ok(Le16(b0.value, b1.value));
      }
      var b2 := ReadByte();
      if b2.Err? {
        return Err(b2.error);
      }
      var b3 := ReadByte();
      if b3.Err? {
        return Err(b3.error);
      }
      return Ok(Le32(b0.value, b1.value, b2.value, b3.value));
    }

    method Pop() returns (r: ScriptResult<Bytes>)
      modifies this`stack
      ensures if old(stack) == [] then r == Err(StackUnderflow) && stack == old(stack)
              else r == Ok(Last(old(stack))) && stack == Init(old(stack))
    {
      if stack == [] {
        return Err(StackUnderflow);
      }
      r := Ok(Last(stack));
      stack := Init(stack);
    }

    method PopNumberTop() returns (r: ScriptResult<int>)
      modifies this`stack
      ensures r == PopNumber(old(stack))
      ensures r.Ok? ==> stack == Init(old(stack))
    {
      var v := Pop();
      if v.Err? {
        return Err(v.error);
      }
      r := DecodeNumber(v.value);
    }

    method PopMany(n: nat) returns (items: seq<Bytes>)
      requires n <= |stack|
      modifies this`stack
      ensures items == Popped(old(stack), n) && stack == old(stack)[..|old(stack)| - n]
    {
      items := [];
      ghost var s := stack;
      while |items| < n
        invariant |items| <= n
        invariant stack == s[..|s| - |items|]
        invariant items == Popped(s, |items|)
      {
        items := items + [Last(stack)];
        stack := Init(stack);
      }
    }

    method OpElse() returns (ok: bool)
      modifies this`conditions
      ensures ok == (old(conditions) != [])
      ensures ok ==> conditions == Init(old(conditions)) + [!Last(old(conditions))]
    {
      ok := conditions != [];
      if ok {
        conditions := conditions[|conditions| - 1 := !Last(conditions)];
      }
    }

    method OpEndIf() returns (ok: bool)
      modifies this`conditions
      ensures ok == (old(conditions) != [])
      ensures ok ==> conditions == Init(old(conditions))
    {
      ok := conditions != [];
      if ok {
        conditions := Init(conditions);
      }
    }

    method DeleteSignatures(code: Bytes, sigs: seq<Bytes>) returns (r: Bytes)
      ensures r == DeleteAll(sem, code, sigs)
    {
      r := code;
      var i := 0;
      while i < |sigs|
        invariant 0 <= i <= |sigs|
        invariant DeleteAll(sem, r, sigs[i..]) == DeleteAll(sem, code, sigs)
      {
        if sigs[i] != [] {
          r := sem.findAndDelete(r, sigs[i]);
        }
        i := i + 1;
      }
    }

    /** OP_CHECKMULTISIG and OP_CHECKMULTISIGVERIFY. */
    method OpCheckMultiSig(code: Bytes, verify: bool) returns (err: Option<ScriptError>)
      modifies this`stack, this`opCount
      ensures match CheckMultiSig(sem, code, old(State()), verify)
              case Err(e) => err == Some(e)
              case Ok(m) => err == None && State() == m
    {
      hide DecodeNumber, DeleteAll, Verifies, Multisig.Assignable;
      var nKeys := PopNumberTop();
      if nKeys.Err? {
        return Some(nKeys.error);
      }
      if !(0 <= nKeys.value <= MAX_MULTISIG_KEYS) {
        return Some(MultisigKeyCount);
      }
      if |stack| < nKeys.value {
        return Some(StackUnderflow);
      }
      var keys := PopMany(nKeys.value);
      opCount := opCount + nKeys.value;
      if opCount > MAX_OPS {
        return Some(TooManyOps);
      }
      var nSigs := PopNumberTop();
      if nSigs.Err? {
        return Some(nSigs.error);
      }
      if !(0 <= nSigs.value <= nKeys.value) {
        return Some(MultisigSigCount);
      }
      if |stack| < nSigs.value {
        return Some(StackUnderflow);
      }
      var sigs := PopMany(nSigs.value);
      var dummy := Pop();
      if dummy.Err? {
        return Some(dummy.error);
      }
      if !sem.hasSigContext {
        return Some(CheckMultiSigFailed);
      }
      var code' := DeleteSignatures(code, sigs);
      var V := (s: Bytes, k: Bytes) => Verifies(sem, code', s, k);
      var success := Multisig.MatchSignatures(V, sigs, keys);
      if verify && !success {
        return Some(CheckMultiSigFailed);
      }
      if !verify {
        stack := stack + [if success then [1] else []];
      }
      err := None;
    }

    /** A push: read its length, then take that many bytes. */
    method OpPush(op: byte) returns (err: Option<ScriptError>)
      requires 0 < pc <= |script| && script[pc - 1] == op && IsPush(op)
      modifies this`pc, this`stack
      ensures match Perform(sem, script, old(State()), old(pc) - 1)
              case Err(e) => err == Some(e)
              case Ok((m, p)) => err == None && State() == m && pc == p
    {
      ghost var rest := script[pc - 1..];
      if op == OP_1NEGATE || op >= 0x51 {
        stack := stack + [if op == OP_1NEGATE then [0x81] else [op - 0x50]];
        return None;
      }
      var n := ReadLength(op);
      if n.Err? {
        return Some(n.error);
      }
      if n.value > MAX_PUSH_SIZE || pc + n.value > |script| {
        PushFails(rest);
        return Some(InvalidPushSize);
      }
      PushSucceeds(script, old(pc) - 1);
      stack := stack + [script[pc..pc + n.value]];
      pc := pc + n.value;
      err := None;
    }

    /** An instruction of an executing branch, other than a push. */
    method OpApply(op: byte) returns (err: Option<ScriptError>)
      requires 0 < pc <= |script| && script[pc - 1] == op && !IsPush(op)
      modifies this`stack, this`altStack, this`opCount, this`conditions, this`codesepPos
      ensures match Apply(sem, script, old(State()), old(pc) - 1)
              case Err(e) => err == Some(e)
              case Ok(m) => err == None && State() == m
    {
      if op == OP_IF || op == OP_NOTIF {
        var top := Pop();
        if top.Err? {
          return Some(top.error);
        }
        var t := IsTruthy(top.value);
        conditions := conditions + [if op == OP_IF then t else !t];
        return None;
      }
      if op == OP_ELSE {
        var ok := OpElse();
        return if ok then None else Some(UnbalancedConditional);
      }
      if op == OP_ENDIF {
        var ok := OpEndIf();
        return if ok then None else Some(UnbalancedConditional);
      }
      if op == OP_CODESEPARATOR {
        codesepPos := pc;
        return None;
      }
      if op == OP_EQUAL {
        if |stack| < 2 {
          return Some(StackUnderflow);
        }
        var b := Pop();
        var a := Pop();
        stack := stack + [if a.value == b.value then [1] else []];
        return None;
      }
      if op == OP_HASH160 {
        var data := Pop();
        if data.Err? {
          return Some(data.error);
        }
        stack := stack + [sem.hash160(data.value)];
        return None;
      }
      var code := if codesepPos <= |script| then script[codesepPos..] else [];
      if op == OP_CHECKMULTISIG || op == OP_CHECKMULTISIGVERIFY {
        err := OpCheckMultiSig(code, op == OP_CHECKMULTISIGVERIFY);
        return;
      }
      if IsInvalid(op) {
        return Some(InvalidOpcode(op));
      }
      var r := sem.other(op, stack, altStack, code);
      if r.Err? {
        return Some(r.error);
      }
      stack, altStack := r.value.0, r.value.1;
      err := None;
    }

    /** An instruction of a branch that is not executed. */
    method OpSkip(op: byte) returns (err: Option<ScriptError>)
      requires 0 < pc <= |script| && script[pc - 1] == op
      modifies this`pc, this`conditions
      ensures match Skip(script, old(State()), old(pc) - 1)
              case Err(e) => err == Some(e)
              case Ok((m, p)) => err == None && State() == m && pc == p
    {
      ghost var rest := script[pc - 1..];
      if op == OP_IF || op == OP_NOTIF {
        conditions := conditions + [false];
        return None;
      }
      if op == OP_ELSE {
        var ok := OpElse();
        return if ok then None else Some(UnbalancedConditional);
      }
      if op == OP_ENDIF {
        var ok := OpEndIf();
        return if ok then None else Some(UnbalancedConditional);
      }
      if op == 0 || op > 0x4e {
        return None;
      }
      var n := ReadLength(op);
      if n.Err? {
        return Some(n.error);
      }
      pc := pc + n.value;
      if pc > |script| {
        return Some(InvalidPushSize);
      }
      err := None;
    }

    /** One turn of the loop. */
    method Turn() returns (err: Option<ScriptError>)
      requires pc < |script|
      modifies this
      ensures match Step(sem, script, old(State()), old(pc))
              case Err(e) => err == Some(e)
              case Ok((m, p)) => err == None && State() == m && pc == p
    {
      hide Perform, Apply, Skip, IsPush, IsDisabled, Executing;
      PerformApplies(sem, script, pc);
      var op := script[pc];
      pc := pc + 1;
      if IsDisabled(op) {
        return Some(DisabledOpcode(op));
      }
      if !IsPush(op) {
        opCount := opCount + 1;
        if opCount > MAX_OPS {
          return Some(TooManyOps);
        }
      }
      if !Executing(conditions) {
        err := OpSkip(op);
        return;
      }
      if IsPush(op) {
        err := OpPush(op);
      } else {
        err := OpApply(op);
      }
      if err.None? && |stack| + |altStack| > MAX_STACK_SIZE {
        err := Some(StackOverflow);
      }
    }

    method ExecuteScript() returns (r: ScriptResult<Stack>)
      requires pc == 0
      modifies this
      ensures match (if |script| > MAX_SCRIPT_SIZE then Err(ScriptTooLarge) else Run(sem, script, old(State()), 0))
              case Err(e) => r == Err(e)
              case Ok(m) => r == Ok(m.stack) && State() == m
    {
      hide Step;
      if |script| > MAX_SCRIPT_SIZE {
        return Err(ScriptTooLarge);
      }
      while pc < |script|
        invariant pc <= |script|
        invariant Run(sem, script, State(), pc) == Run(sem, script, old(State()), 0)
        decreases |script| - pc
      {
        ghost var m, p := State(), pc;
        var err := Turn();
        if err.Some? {
          return Err(err.value);
        }
        StepBoundary(sem, script, m, p);
      }
      if conditions != [] {
        return Err(UnbalancedConditional);
      }
      return Ok(stack);
    }
  }

  function OneByte(r: ScriptResult<Machine>, pc: nat): ScriptResult<(Machine, nat)> {
    match r
    case Err(e) => Err(e)
    case Ok(m) => Ok((m, pc + 1))
  }

  /** An instruction other than a push has the effect of `Apply` and one byte. */
  lemma PerformApplies(sem: Semantics, script: Bytes, pc: nat)
    requires pc < |script|
    ensures !IsPush(script[pc]) ==> forall m :: Perform(sem, script, m, pc) == OneByte(Apply(sem, script, m, pc), pc)
  {
    hide Apply, FirstChunk, Complete, IsPush;
  }

  lemma PushFails(rest: Bytes)
    requires HeaderComplete(rest) && rest[0] <= 0x4e
    requires PayloadLen(rest) > MAX_PUSH_SIZE || HeaderLen(rest[0]) + PayloadLen(rest) > |rest|
    ensures var c := FirstChunk(rest); !Complete(c) || |PushedItem(c)| > MAX_PUSH_SIZE
  {
    var c := FirstChunk(rest);
    assert HeaderComplete(c) && PayloadLen(c) == PayloadLen(rest);
  }

  lemma PushSucceeds(script: Bytes, p: nat)
    requires p < |script| && HeaderComplete(script[p..]) && script[p] <= 0x4e
    requires var s := script[p..]; HeaderLen(s[0]) + PayloadLen(s) <= |s|
    ensures var s := script[p..];
            var start := p + HeaderLen(s[0]);
            && Complete(FirstChunk(s)) && |FirstChunk(s)| == HeaderLen(s[0]) + PayloadLen(s)
            && PushedItem(FirstChunk(s)) == script[start..start + PayloadLen(s)]
  {
    var s := script[p..];
    assert PayloadLen(FirstChunk(s)) == PayloadLen(s);
  }
}
