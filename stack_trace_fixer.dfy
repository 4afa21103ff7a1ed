/** StackTraceFixerPatch: wherever `ldc.i4.1` (true) directly precedes a call
    to a log sink, the literal becomes `ldc.i4.0` (false), so the sink does not
    print a stack trace. */
module StackTraceFixerPatch {
  import opened Cil
  import opened LogCleaner

  /** Position i is a trace-flag site: a `true` literal directly followed by a
      sink call (the window of two never reaches past the end). */
  predicate TraceSite(s: seq<Instr>, i: int) {
    0 <= i && i + 1 < |s| && s[i].opcode == Ldc_I4_1 && IsSinkCall(s[i + 1])
  }

  /** The rewrite of one instruction, given the one after it. */
  function Strip(head: Instr, next: Instr): Instr {
    if head.opcode == Ldc_I4_1 && IsSinkCall(next) then WithOpcode(head, Ldc_I4_0) else head
  }

  /** Reference definition of the rewrite, by recursion over the list: each
      instruction that has a successor is rewritten against that successor,
      the last one is kept. */
  function Stripped(s: seq<Instr>): seq<Instr> {
    if |s| < 2 then s else [Strip(s[0], s[1])] + Stripped(s[1..])
  }

  /** The transpiler: copy the instructions, then for i < Count - 1 rewrite the
      opcode of instruction i in place. */
  method Transpiler(codes: seq<Instr>) returns (r: seq<Instr>)
    ensures r == Stripped(codes)
  {
    var instructions := new Instr[|codes|](k requires 0 <= k < |codes| => codes[k]);
    StrippedLength(codes);
    var i := 0;
    while i < instructions.Length - 1
      invariant 0 <= i <= |codes|
      invariant |codes| > 0 ==> i <= |codes| - 1
      invariant forall k :: 0 <= k < i ==> instructions[k] == Stripped(codes)[k]
      invariant forall k :: i <= k < |codes| ==> instructions[k] == codes[k]
    {
      StrippedAt(codes, i);
      if instructions[i].opcode == Ldc_I4_1 && instructions[i + 1].opcode == Call {
        if IsLogMethod(instructions[i + 1].operand) {
          instructions[i] := WithOpcode(instructions[i], Ldc_I4_0);
        }
      }
      i := i + 1;
    }
    if |codes| > 0 {
      StrippedAt(codes, |codes| - 1);
    }
    r := instructions[..];
  }

  lemma {:induction false} StrippedLength(s: seq<Instr>)
    ensures |Stripped(s)| == |s|
  {
    if |s| >= 2 {
      StrippedLength(s[1..]);
    }
  }

  /** Position i of the output: the `false` literal exactly at a trace-flag
      site, the input instruction everywhere else. */
  lemma {:induction false} StrippedAt(s: seq<Instr>, i: nat)
    requires i < |s|
    ensures |Stripped(s)| == |s|
    ensures Stripped(s)[i] == if TraceSite(s, i) then WithOpcode(s[i], Ldc_I4_0) else s[i]
  {
    StrippedLength(s);
    if |s| >= 2 && i > 0 {
      StrippedAt(s[1..], i - 1);
      assert TraceSite(s[1..], i - 1) == TraceSite(s, i);
    }
  }

  /** The output has the input's length, each position keeps its operand,
      labels and blocks, and a position changes if and only if it is a
      trace-flag site, where it becomes `ldc.i4.0`. */
  lemma {:induction false} StrippedSpec(s: seq<Instr>)
    ensures |Stripped(s)| == |s|
    ensures forall i :: 0 <= i < |s| ==> SameButOpcode(Stripped(s)[i], s[i])
    ensures forall i :: 0 <= i < |s| ==> (Stripped(s)[i] != s[i] <==> TraceSite(s, i))
    ensures forall i :: 0 <= i < |s| && TraceSite(s, i) ==> Stripped(s)[i].opcode == Ldc_I4_0
  {
    StrippedLength(s);
    forall i | 0 <= i < |s|
      ensures SameButOpcode(Stripped(s)[i], s[i])
      ensures Stripped(s)[i] != s[i] <==> TraceSite(s, i)
      ensures TraceSite(s, i) ==> Stripped(s)[i].opcode == Ldc_I4_0
    {
      StrippedAt(s, i);
    }
  }

  /** The last instruction is never rewritten; a body of fewer than two
      instructions comes back unchanged. */
  lemma {:induction false} StrippedKeepsLast(s: seq<Instr>)
    ensures |s| > 0 ==> |Stripped(s)| == |s| && Stripped(s)[|s| - 1] == s[|s| - 1]
    ensures |s| < 2 ==> Stripped(s) == s
  {
    if |s| > 0 {
      StrippedAt(s, |s| - 1);
    }
  }

  /** A body with no trace-flag site comes back unchanged: a sink call whose
      flag is not a `true` literal is left alone. */
  lemma {:induction false} StrippedNoSiteUnchanged(s: seq<Instr>)
    requires forall i :: 0 <= i < |s| ==> !TraceSite(s, i)
    ensures Stripped(s) == s
  {
    if |s| >= 2 {
      assert !TraceSite(s, 0);
      forall i | 0 <= i < |s| - 1
        ensures !TraceSite(s[1..], i)
      {
        assert !TraceSite(s, i + 1);
      }
      StrippedNoSiteUnchanged(s[1..]);
    }
  }

  /** Running the rewrite twice is running it once: a rewritten literal is no
      longer `true`, and sink calls are never rewritten, so no site is left. */
  lemma {:induction false} StrippedIdempotent(s: seq<Instr>)
    ensures Stripped(Stripped(s)) == Stripped(s)
  {
    var t := Stripped(s);
    StrippedSpec(s);
    forall i | 0 <= i < |t|
      ensures !TraceSite(t, i)
    {
      // a sink call is never rewritten, and a literal that was rewritten is
      // no longer `true`: a site of t at i would be a site of s at i
      StrippedAt(s, i);
      if i + 1 < |s| {
        StrippedAt(s, i + 1);
      }
    }
    StrippedNoSiteUnchanged(t);
  }

  /** `[ldc.i4.1; call Log(string, bool)]` becomes `[ldc.i4.0; call Log(string, bool)]`. */
  lemma ExampleLogCall()
    ensures
      var log := MethodRef(MethodInfo(UniLog, "Log", ["System.String", "System.Boolean"]));
      Stripped([Instr(Ldc_I4_1, NoOperand, [], []), Instr(Call, log, [], [])])
      == [Instr(Ldc_I4_0, NoOperand, [], []), Instr(Call, log, [], [])]
  {
  }
}
