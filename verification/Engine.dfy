/** The script interpreter: its loop, pushes, conditionals, OP_CODESEPARATOR, OP_EQUAL,
    OP_HASH160 and OP_CHECKMULTISIG. The remaining opcodes are an arbitrary function of
    the two stacks and the script code, since none of them moves the program counter,
    the operation count or the conditions. */
module ScriptEngine {
  import opened Basics
  import opened LittleEndian
  import opened Script
  import Multisig

  const MAX_SCRIPT_SIZE := 10_000
  const MAX_OPS := 201
  const MAX_STACK_SIZE := 1000
  const MAX_PUSH_SIZE := 520
  const MAX_MULTISIG_KEYS := 20

  const OP_IF: byte := 0x63
  const OP_NOTIF: byte := 0x64
  const OP_ELSE: byte := 0x67
  const OP_ENDIF: byte := 0x68
  const OP_EQUAL: byte := 0x87
  const OP_HASH160: byte := 0xa9
  const OP_CHECKMULTISIG: byte := 0xae
  const OP_CHECKMULTISIGVERIFY: byte := 0xaf

  datatype ScriptError =
    | InvalidOpcode(op: byte) | DisabledOpcode(op: byte)
    | StackUnderflow | StackOverflow | ScriptTooLarge | TooManyOps | InvalidPushSize
    | UnbalancedConditional | NumericOverflow | MultisigKeyCount | MultisigSigCount
    | CheckMultiSigFailed | FalseReturned | InvalidRedeemScript | OtherFailure

  type Stack = seq<Bytes>

  type ScriptResult<T> = Result<T, ScriptError>

  /** Hashing, signatures and the opcodes not modelled one by one. */
  datatype Semantics = Semantics(
    hash160: Bytes -> Bytes,
    sighash: (Bytes, byte) -> Bytes,
    ecdsa: (Bytes, Bytes, Bytes) -> bool,
    findAndDelete: (Bytes, Bytes) -> Bytes,
    other: (byte, Stack, Stack, Bytes) -> ScriptResult<(Stack, Stack)>,
    hasSigContext: bool)

  predicate IsDisabled(op: byte) {
    0x7e <= op <= 0x81 || 0x83 <= op <= 0x86 || op == 0x8d || op == 0x8e || 0x95 <= op <= 0x99
  }

  predicate IsInvalid(op: byte) {
    op == 0x50 || op == 0x62 || op == 0x65 || op == 0x66 || op == 0x89 || op == 0x8a || op >= 0xba
  }

  /** A non-zero byte, other than a sign bit alone in the last byte. */
  ghost predicate Truthy(data: Bytes) {
    exists i :: 0 <= i < |data| && data[i] != 0 && !(i == |data| - 1 && data[i] == 0x80)
  }

  method IsTruthy(data: Bytes) returns (r: bool)
    ensures r <==> Truthy(data)
  {
    var i := 0;
    while i < |data|
      invariant 0 <= i <= |data|
      invariant forall j :: 0 <= j < i ==> data[j] == 0 || (j == |data| - 1 && data[j] == 0x80)
    {
      if i == |data| - 1 {
        if data[i] != 0 && data[i] != 0x80 {
          return true;
        }
      } else if data[i] != 0 {
        return true;
      }
      i := i + 1;
    }
    return false;
  }

  // ---------- Script numbers ----------

  /** Sign and magnitude, at most four bytes. */
  function DecodeNumber(data: Bytes): ScriptResult<int> {
    if data == [] then Ok(0)
    else if |data| > 4 then Err(NumericOverflow)
    else
      var v := LeValue(data);
      Ok(if data[|data| - 1] >= 0x80 then 0x80 * Limit(|data| - 1) - v else v)
  }

  // ---------- One instruction ----------

  datatype Machine = Machine(stack: Stack, alt: Stack, opCount: nat, conditions: seq<bool>, codesep: nat)

  predicate Executing(conditions: seq<bool>) {
    forall i :: 0 <= i < |conditions| ==> conditions[i]
  }

  /** What a push instruction leaves on the stack. */
  function PushedItem(c: Bytes): Bytes
    requires HeaderComplete(c) && IsPush(c[0])
  {
    if c[0] == OP_1NEGATE then [0x81]
    else if c[0] >= 0x51 then [c[0] - 0x50]
    else c[HeaderLen(c[0])..]
  }

  function Last<T>(s: seq<T>): T
    requires |s| > 0
  {
    s[|s| - 1]
  }

  function Init<T>(s: seq<T>): seq<T>
    requires |s| > 0
  {
    s[..|s| - 1]
  }

  /** The top `n` items, top first. */
  function Popped(s: Stack, n: nat): seq<Bytes>
    requires n <= |s|
  {
    seq(n, i requires 0 <= i < n => s[|s| - 1 - i])
  }

  function DeleteAll(sem: Semantics, code: Bytes, sigs: seq<Bytes>): Bytes
    decreases |sigs|
  {
    if sigs == [] then code
    else DeleteAll(sem, if sigs[0] == [] then code else sem.findAndDelete(code, sigs[0]), sigs[1..])
  }

  /** Whether a signature verifies under a key; an empty signature never does. */
  predicate Verifies(sem: Semantics, code: Bytes, sig: Bytes, key: Bytes) {
    sig != [] && sem.ecdsa(sig, key, sem.sighash(code, Last(sig)))
  }

  function PopNumber(s: Stack): ScriptResult<int> {
    if s == [] then Err(StackUnderflow) else DecodeNumber(Last(s))
  }

  /** OP_CHECKMULTISIG, its outcome given by the existence of an in-order assignment. */
  ghost function CheckMultiSig(sem: Semantics, code: Bytes, m: Machine, verify: bool): ScriptResult<Machine> {
    match PopNumber(m.stack)
    case Err(e) => Err(e)
    case Ok(nKeys) =>
      var s1 := Init(m.stack);
      if !(0 <= nKeys <= MAX_MULTISIG_KEYS) then Err(MultisigKeyCount)
      else if |s1| < nKeys then Err(StackUnderflow)
      else if m.opCount + nKeys > MAX_OPS then Err(TooManyOps)
      else
        var s2 := s1[..|s1| - nKeys];
        match PopNumber(s2)
        case Err(e) => Err(e)
        case Ok(nSigs) =>
          var s3 := Init(s2);
          if !(0 <= nSigs <= nKeys) then Err(MultisigSigCount)
          else if |s3| < nSigs then Err(StackUnderflow)
          else
            var s4 := s3[..|s3| - nSigs];
            if s4 == [] then Err(StackUnderflow)
            else if !sem.hasSigContext then Err(CheckMultiSigFailed)
            else
              var sigs := Popped(s3, nSigs);
              var code' := DeleteAll(sem, code, sigs);
              var success := Multisig.Assignable((s, k) => Verifies(sem, code', s, k), sigs, Popped(s1, nKeys));
              if verify && !success then Err(CheckMultiSigFailed)
              else Ok(m.(opCount := m.opCount + nKeys,
                         stack := Init(s4) + (if verify then [] else if success then [[1]] else [[]])))
  }

  /** An instruction in a branch that is not executed. */
  function Skip(script: Bytes, m: Machine, pc: nat): ScriptResult<(Machine, nat)>
    requires pc < |script|
  {
    var op, c := script[pc], FirstChunk(script[pc..]);
    if op == OP_IF || op == OP_NOTIF then Ok((m.(conditions := m.conditions + [false]), pc + 1))
    else if op == OP_ELSE then
      if m.conditions == [] then Err(UnbalancedConditional)
      else Ok((m.(conditions := Init(m.conditions) + [!Last(m.conditions)]), pc + 1))
    else if op == OP_ENDIF then
      if m.conditions == [] then Err(UnbalancedConditional) else Ok((m.(conditions := Init(m.conditions)), pc + 1))
    else if !Complete(c) then Err(InvalidPushSize)
    else Ok((m, pc + |c|))
  }

  /** The effect of an instruction other than a push. */
  ghost function Apply(sem: Semantics, script: Bytes, m: Machine, pc: nat): ScriptResult<Machine>
    requires pc < |script|
  {
    var op := script[pc];
    if op == OP_IF || op == OP_NOTIF then
      if m.stack == [] then Err(StackUnderflow)
      else Ok(m.(stack := Init(m.stack), conditions := m.conditions + [Truthy(Last(m.stack)) == (op == OP_IF)]))
    else if op == OP_ELSE then
      if m.conditions == [] then Err(UnbalancedConditional)
      else Ok(m.(conditions := Init(m.conditions) + [!Last(m.conditions)]))
    else if op == OP_ENDIF then
      if m.conditions == [] then Err(UnbalancedConditional) else Ok(m.(conditions := Init(m.conditions)))
    else if op == OP_CODESEPARATOR then Ok(m.(codesep := pc + 1))
    else if op == OP_EQUAL then
      if |m.stack| < 2 then Err(StackUnderflow)
      else
        var rest := m.stack[..|m.stack| - 2];
        Ok(m.(stack := rest + [if m.stack[|m.stack| - 2] == Last(m.stack) then [1] else []]))
    else if op == OP_HASH160 then
      if m.stack == [] then Err(StackUnderflow)
      else Ok(m.(stack := Init(m.stack) + [sem.hash160(Last(m.stack))]))
    else if op == OP_CHECKMULTISIG || op == OP_CHECKMULTISIGVERIFY then
      CheckMultiSig(sem, if m.codesep <= |script| then script[m.codesep..] else [], m, op == OP_CHECKMULTISIGVERIFY)
    else if IsInvalid(op) then Err(InvalidOpcode(op))
    else
      match sem.other(op, m.stack, m.alt, if m.codesep <= |script| then script[m.codesep..] else [])
      case Err(e) => Err(e)
      case Ok((s, a)) => Ok(m.(stack := s, alt := a))
  }

  /** An instruction in a branch that is executed, without the stack limit. */
  ghost function Perform(sem: Semantics, script: Bytes, m: Machine, pc: nat): ScriptResult<(Machine, nat)>
    requires pc < |script|
  {
    var op, c := script[pc], FirstChunk(script[pc..]);
    if IsPush(op) then
      if !Complete(c) || |PushedItem(c)| > MAX_PUSH_SIZE then Err(InvalidPushSize)
      else Ok((m.(stack := m.stack + [PushedItem(c)]), pc + |c|))
    else
      match Apply(sem, script, m, pc)
      case Err(e) => Err(e)
      case Ok(m') => Ok((m', pc + 1))
  }

  /** One turn of the interpreter loop. */
  ghost function Step(sem: Semantics, script: Bytes, m: Machine, pc: nat): ScriptResult<(Machine, nat)>
    requires pc < |script|
  {
    var op := script[pc];
    if IsDisabled(op) then Err(DisabledOpcode(op))
    else if !IsPush(op) && m.opCount + 1 > MAX_OPS then Err(TooManyOps)
    else
      var m1 := if IsPush(op) then m else m.(opCount := m.opCount + 1);
      if !Executing(m.conditions) then Skip(script, m1, pc)
      else
        match Perform(sem, script, m1, pc)
        case Err(e) => Err(e)
        case Ok((m2, pc')) => if |m2.stack| + |m2.alt| > MAX_STACK_SIZE then Err(StackOverflow) else Ok((m2, pc'))
  }

  /** Every successful turn consumes exactly one whole instruction. */
  lemma {:induction false} StepBoundary(sem: Semantics, script: Bytes, m: Machine, pc: nat)
    requires pc < |script| && Step(sem, script, m, pc).Ok?
    ensures Complete(FirstChunk(script[pc..]))
    ensures Step(sem, script, m, pc).value.1 == pc + ChunkLen(script[pc..]) <= |script|
  {
    var rest := script[pc..];
    assert rest[0] == script[pc];
    if !IsPush(rest[0]) {
      assert HeaderLen(rest[0]) == 1 && PayloadLen(rest) == 0;
      assert FirstChunk(rest) == [rest[0]];
    }
  }

  /** The whole loop, from the program counter on. */
  ghost function Run(sem: Semantics, script: Bytes, m: Machine, pc: nat): ScriptResult<Machine>
    requires pc <= |script|
    decreases |script| - pc
  {
    if pc == |script| then
      if m.conditions != [] then Err(UnbalancedConditional) else Ok(m)
    else
      match Step(sem, script, m, pc)
      case Err(e) => Err(e)
      case Ok((m', pc')) =>
        StepBoundary(sem, script, m, pc);
        Run(sem, script, m', pc')
  }

  function Start(stack: Stack): Machine {
    Machine(stack, [], 0, [], 0)
  }

  ghost function Execute(sem: Semantics, script: Bytes, stack: Stack): ScriptResult<Machine> {
    if |script| > MAX_SCRIPT_SIZE then Err(ScriptTooLarge) else Run(sem, script, Start(stack), 0)
  }
}
