/** ContextMenuOpenPatch: every instruction whose operand is a method named
    `set_Target` is replaced by a call to `SafeSetTarget`, which assigns the
    driver's target only when the target is not already linked. */
module ContextMenuOpenPatch {
  import opened Cil

  const SetTargetName := "set_Target"

  /** The stand-in the rewritten call sites call. */
  const SafeSetTargetMethod :=
    MethodInfo("LogCleaner.LogCleaner+ContextMenuOpenPatch", "SafeSetTarget",
               ["FrooxEngine.ISyncRef", "FrooxEngine.ISyncRef"])

  /** A freshly built `call SafeSetTarget` instruction: it carries no labels
      and no exception blocks. */
  const SafeSetTargetCall := Instr(Call, MethodRef(SafeSetTargetMethod), [], [])

  /** The operand refers to a method named `set_Target`, whatever the opcode. */
  predicate CallsSetTarget(code: Instr) {
    code.operand.MethodRef? && code.operand.target.name == SetTargetName
  }

  /** The streaming map over the instruction list, element by element in order. */
  function Transpiler(codes: seq<Instr>): (r: seq<Instr>)
    ensures |r| == |codes|
    ensures forall k :: 0 <= k < |codes| ==>
              r[k] == if CallsSetTarget(codes[k]) then SafeSetTargetCall else codes[k]
  {
    if codes == [] then []
    else [if CallsSetTarget(codes[0]) then SafeSetTargetCall else codes[0]] + Transpiler(codes[1..])
  }

  /** No instruction of the output refers to a `set_Target` method. */
  lemma {:induction false} NoSetTargetLeft(codes: seq<Instr>)
    ensures forall k :: 0 <= k < |Transpiler(codes)| ==> !CallsSetTarget(Transpiler(codes)[k])
  {
    assert !CallsSetTarget(SafeSetTargetCall);
  }

  /** The map is idempotent: the stand-in is not named `set_Target`. */
  lemma TranspilerIdempotent(codes: seq<Instr>)
    ensures Transpiler(Transpiler(codes)) == Transpiler(codes)
  {
    NoSetTargetLeft(codes);
  }

  /** A body with no `set_Target` reference comes back unchanged. */
  lemma TranspilerUnchanged(codes: seq<Instr>)
    requires forall k :: 0 <= k < |codes| ==> !CallsSetTarget(codes[k])
    ensures Transpiler(codes) == codes
  {
  }

  /** The map is a per-instruction rewrite: it distributes over
      concatenation, so how the stream is split does not matter. */
  lemma TranspilerAppend(a: seq<Instr>, b: seq<Instr>)
    ensures Transpiler(a + b) == Transpiler(a) + Transpiler(b)
  {
    var whole, parts := Transpiler(a + b), Transpiler(a) + Transpiler(b);
    forall k | 0 <= k < |whole|
      ensures whole[k] == parts[k]
    {
      if k < |a| {
        assert (a + b)[k] == a[k];
      } else {
        assert (a + b)[k] == b[k - |a|];
      }
    }
  }

  /** `ISyncRef`: whether the reference is already linked (driven), and its
      target. */
  class SyncRef {
    var isLinked: bool
    var target: SyncRef?

    constructor (linked: bool, t: SyncRef?)
      ensures isLinked == linked && target == t
    {
      isLinked := linked;
      target := t;
    }
  }

  /** Assigns `target` as the driver's target, unless `target` is already linked. */
  method SafeSetTarget(driver: SyncRef, target: SyncRef)
    modifies driver
    ensures driver.target == if old(target.isLinked) then old(driver.target) else target
    ensures driver.isLinked == old(driver.isLinked)
  {
    if !target.isLinked {
      driver.target := target;
    }
  }
}
