/** Verification of one transaction input, and the exact meaning of a
    pay-to-script-hash spend. */
module VerifyInput {
  import opened Basics
  import opened Script
  import opened ScriptEngine
  import opened ScriptTheorems
  import opened EngineClass

  /** OP_HASH160, a push of 20 bytes, OP_EQUAL. */
  predicate IsP2sh(s: Bytes) {
    |s| == 23 && s[0] == 0xa9 && s[1] == 0x14 && s[22] == 0x87
  }

  ghost predicate TruthyTop(s: Stack) {
    s != [] && Truthy(Last(s))
  }

  ghost function Verify(sem: Semantics, scriptSig: Bytes, scriptPubkey: Bytes): ScriptResult<()> {
    match Execute(sem, scriptSig, [])
    case Err(e) => Err(e)
    case Ok(m1) =>
      match Execute(sem, scriptPubkey, m1.stack)
      case Err(e) => Err(e)
      case Ok(m2) =>
        if !TruthyTop(m2.stack) then Err(FalseReturned)
        else if !IsP2sh(scriptPubkey) then Ok(())
        else if !PushOnly(Chunks(scriptSig)) || m1.stack == [] then Err(InvalidRedeemScript)
        else
          match Execute(sem, Last(m1.stack), Init(m1.stack))
          case Err(e) => Err(e)
          case Ok(m3) => if TruthyTop(m3.stack) then Ok(()) else Err(FalseReturned)
  }

  method RequireTruthyTop(s: Stack) returns (ok: bool)
    ensures ok <==> TruthyTop(s)
  {
    if s == [] {
      return false;
    }
    ok := IsTruthy(Last(s));
  }

  method ExecuteOn(sem: Semantics, script: Bytes, stack: Stack) returns (r: ScriptResult<Stack>)
    ensures match Execute(sem, script, stack)
            case Err(e) => r == Err(e)
            case Ok(m) => r == Ok(m.stack)
  {
    var engine := new Engine(sem, script, stack);
    r := engine.ExecuteScript();
  }

  method VerifyScript(sem: Semantics, scriptSig: Bytes, scriptPubkey: Bytes) returns (r: ScriptResult<()>)
    ensures r == Verify(sem, scriptSig, scriptPubkey)
  {
    hide Execute;
    var sigStack := ExecuteOn(sem, scriptSig, []);
    if sigStack.Err? {
      return Err(sigStack.error);
    }
    var p2shStack := sigStack.value;
    var finalStack := ExecuteOn(sem, scriptPubkey, sigStack.value);
    if finalStack.Err? {
      return Err(finalStack.error);
    }
    var ok := RequireTruthyTop(finalStack.value);
    if !ok {
      return Err(FalseReturned);
    }
    if IsP2sh(scriptPubkey) {
      var pushOnly := IsPushOnly(scriptSig);
      if !pushOnly || p2shStack == [] {
        return Err(InvalidRedeemScript);
      }
      var redeemResult := ExecuteOn(sem, Last(p2shStack), Init(p2shStack));
      if redeemResult.Err? {
        return Err(redeemResult.error);
      }
      ok := RequireTruthyTop(redeemResult.value);
      if !ok {
        return Err(FalseReturned);
      }
    }
    return Ok(());
  }

  // ---------- The pay-to-script-hash rule ----------

  lemma P2shHash(sem: Semantics, pk: Bytes, s: Stack)
    requires IsP2sh(pk)
    ensures var r := Step(sem, pk, Start(s), 0);
            r.Ok? <==> s != [] && |s| <= MAX_STACK_SIZE
    ensures s != [] && |s| <= MAX_STACK_SIZE ==>
              Step(sem, pk, Start(s), 0) == Ok((Machine(Init(s) + [sem.hash160(Last(s))], [], 1, [], 0), 1))
  {
  }

  lemma P2shPush(sem: Semantics, pk: Bytes, m: Machine)
    requires IsP2sh(pk) && m.conditions == []
    ensures var r := Step(sem, pk, m, 1);
            && (r.Ok? <==> |m.stack| + |m.alt| + 1 <= MAX_STACK_SIZE)
            && (r.Ok? ==> r.value == (m.(stack := m.stack + [pk[2..22]]), 22))
  {
    var rest := pk[1..];
    assert rest[0] == 0x14 && ChunkLen(rest) == 21;
    assert FirstChunk(rest) == rest[..21];
    assert PushedItem(FirstChunk(rest)) == pk[2..22];
  }

  lemma P2shEqual(sem: Semantics, pk: Bytes, base: Stack, a: Bytes, b: Bytes)
    requires IsP2sh(pk) && |base| + 2 <= MAX_STACK_SIZE
    ensures Step(sem, pk, Machine(base + [a] + [b], [], 1, [], 0), 22) ==
            Ok((Machine(base + [if a == b then [1] else []], [], 2, [], 0), 23))
  {
    var s := base + [a] + [b];
    assert s[|s| - 2] == a && Last(s) == b && s[..|s| - 2] == base;
  }

  /** Running the output script compares the hash of the top item and leaves the rest. */
  lemma {:induction false} P2shRun(sem: Semantics, pk: Bytes, s: Stack)
    requires IsP2sh(pk)
    ensures Execute(sem, pk, s).Ok? <==> s != [] && |s| + 1 <= MAX_STACK_SIZE
    ensures s != [] && |s| + 1 <= MAX_STACK_SIZE ==>
              Execute(sem, pk, s).value.stack == Init(s) + [if sem.hash160(Last(s)) == pk[2..22] then [1] else []]
  {
    hide Step;
    P2shHash(sem, pk, s);
    if s != [] && |s| <= MAX_STACK_SIZE {
      var m1 := Machine(Init(s) + [sem.hash160(Last(s))], [], 1, [], 0);
      P2shPush(sem, pk, m1);
      assert Run(sem, pk, Start(s), 0) == Run(sem, pk, m1, 1);
      if |s| + 1 <= MAX_STACK_SIZE {
        P2shEqual(sem, pk, Init(s), sem.hash160(Last(s)), pk[2..22]);
        var m2 := m1.(stack := m1.stack + [pk[2..22]]);
        assert Run(sem, pk, m1, 1) == Run(sem, pk, m2, 22);
        var m3 := Machine(Init(s) + [if sem.hash160(Last(s)) == pk[2..22] then [1] else []], [], 2, [], 0);
        assert Run(sem, pk, m2, 22) == Run(sem, pk, m3, 23) == Ok(m3);
      }
    }
  }

  lemma BooleanItems()
    ensures Truthy([1]) && !Truthy([])
  {
    var one: Bytes := [1];
    assert one[0] != 0;
  }

  /** A pay-to-script-hash input verifies exactly when its scriptSig is push-only and runs,
      its last item hashes to the committed hash, and that item, run as a script on the
      other items, leaves a true value; one stack slot must be left for the committed hash. */
  lemma {:induction false} P2shRule(sem: Semantics, scriptSig: Bytes, pk: Bytes)
    requires IsP2sh(pk)
    ensures Verify(sem, scriptSig, pk).Ok? <==>
            && PushOnly(Chunks(scriptSig)) && Chunks(scriptSig) != []
            && |scriptSig| <= MAX_SCRIPT_SIZE && PushesFit(Chunks(scriptSig), 1)
            && var items := Items(Chunks(scriptSig));
               && sem.hash160(Last(items)) == pk[2..22]
               && Execute(sem, Last(items), Init(items)).Ok?
               && TruthyTop(Execute(sem, Last(items), Init(items)).value.stack)
  {
    hide Execute, PushedItem, Chunks;
    if PushOnly(Chunks(scriptSig)) {
      var items := Items(Chunks(scriptSig));
      PushOnlyExecutes(sem, scriptSig, []);
      assert [] + items == items;
      P2shRun(sem, pk, items);
      BooleanItems();
    }
  }
}
