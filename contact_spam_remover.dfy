/** ContactSpamRemoverPatch: a single pass with a `skip` flag. A `ldstr` of one
    of the marker strings turns skipping on; every instruction seen while
    skipping becomes `nop`; a call to a log sink turns skipping off again and
    is itself turned into `nop`. */
module ContactSpamRemoverPatch {
  import opened Cil
  import opened LogCleaner

  /** `strList`: the format strings of the contact-status log statements. */
  const StrList: seq<string> := [
    "Clearing expired status for contact {0}.\nStatus: {1}\nTotal statuses: {2}",
    "Status before clearing: {0}",
    "Status after clearing: {0}",
    "Received status update that's already expired:\n"
  ]

  /** A `ldstr` whose string is in the list (exact match, not a substring). */
  predicate IsMarker(c: Instr) {
    c.opcode == Ldstr && c.operand.Str? && c.operand.s in StrList
  }

  /** Whether instruction c is blanked when the pass reaches it with flag `skip`. */
  predicate Blanked(skip: bool, c: Instr) {
    skip || IsMarker(c)
  }

  /** The flag after instruction c. */
  predicate SkipAfter(skip: bool, c: Instr) {
    Blanked(skip, c) && !IsSinkCall(c)
  }

  /** The flag as the pass reaches position i. */
  function SkipBefore(s: seq<Instr>, i: nat): bool
    requires i <= |s|
  {
    if i == 0 then false else SkipAfter(SkipBefore(s, i - 1), s[i - 1])
  }

  /** Instruction k after the pass. */
  function RemovedAt(s: seq<Instr>, k: nat): Instr
    requires k < |s|
  {
    if Blanked(SkipBefore(s, k), s[k]) then WithOpcode(s[k], Nop) else s[k]
  }

  /** The rewritten body, position by position. */
  function Removed(s: seq<Instr>): seq<Instr> {
    seq(|s|, k requires 0 <= k < |s| => RemovedAt(s, k))
  }

  /** The transpiler: copy the instructions, then run the flag over them,
      overwriting opcodes in place. */
  method Transpiler(instructions: seq<Instr>) returns (r: seq<Instr>)
    ensures r == Removed(instructions)
  {
    var skip := false;
    var codes := new Instr[|instructions|](k requires 0 <= k < |instructions| => instructions[k]);
    for i := 0 to codes.Length
      invariant skip == SkipBefore(instructions, i)
      invariant forall k :: 0 <= k < i ==> codes[k] == RemovedAt(instructions, k)
      invariant forall k :: i <= k < |instructions| ==> codes[k] == instructions[k]
    {
      if !skip && codes[i].opcode == Ldstr && codes[i].operand.Str? && codes[i].operand.s in StrList {
        skip := true;
      }
      if skip {
        if codes[i].opcode == Call && IsLogMethod(codes[i].operand) {
          skip := false;
        }
        codes[i] := WithOpcode(codes[i], Nop);
      }
    }
    r := codes[..];
  }

  /** No sink call among s[j], ..., s[k - 1]. */
  ghost predicate NoSinkCallBetween(s: seq<Instr>, j: int, k: int)
    requires 0 <= j <= k <= |s|
  {
    forall m :: j <= m < k ==> !IsSinkCall(s[m])
  }

  /** Position k lies in a skipped region: some marker at j <= k is not
      followed by a sink call before k. The region thus runs from a marker
      through the next sink call, inclusive. */
  ghost predicate InRegion(s: seq<Instr>, k: int)
    requires 0 <= k < |s|
  {
    exists j :: 0 <= j <= k && IsMarker(s[j]) && NoSinkCallBetween(s, j, k)
  }

  /** A region reaches k + 1 exactly when k + 1 is a marker or the region at
      k is not closed by a sink call at k. */
  lemma {:induction false} RegionStep(s: seq<Instr>, k: nat)
    requires k + 1 < |s|
    ensures InRegion(s, k + 1) <==> IsMarker(s[k + 1]) || (InRegion(s, k) && !IsSinkCall(s[k]))
  {
    if IsMarker(s[k + 1]) {
      assert NoSinkCallBetween(s, k + 1, k + 1);
    }
    if InRegion(s, k) && !IsSinkCall(s[k]) {
      var j :| 0 <= j <= k && IsMarker(s[j]) && NoSinkCallBetween(s, j, k);
      assert NoSinkCallBetween(s, j, k + 1);
    }
    if InRegion(s, k + 1) && !IsMarker(s[k + 1]) {
      var j :| 0 <= j <= k + 1 && IsMarker(s[j]) && NoSinkCallBetween(s, j, k + 1);
      assert j <= k && NoSinkCallBetween(s, j, k);
    }
  }

  /** The flag of the pass is the region characterisation: instruction k is
      blanked exactly when it lies in a region. */
  lemma {:induction false} BlankedIffInRegion(s: seq<Instr>, k: nat)
    requires k < |s|
    ensures Blanked(SkipBefore(s, k), s[k]) <==> InRegion(s, k)
  {
    if k == 0 {
      if IsMarker(s[0]) {
        assert NoSinkCallBetween(s, 0, 0);
      }
    } else {
      BlankedIffInRegion(s, k - 1);
      RegionStep(s, k - 1);
    }
  }

  /** Position k of the rewritten body: `nop` exactly inside a region, the
      input instruction everywhere else. */
  lemma RemovedInRegion(s: seq<Instr>, k: nat)
    requires k < |s|
    ensures |Removed(s)| == |s|
    ensures Removed(s)[k] == if InRegion(s, k) then WithOpcode(s[k], Nop) else s[k]
  {
    BlankedIffInRegion(s, k);
  }

  /** The output has the input's length, and only opcodes change, each to `nop`. */
  lemma {:induction false} RemovedPreserves(s: seq<Instr>)
    ensures |Removed(s)| == |s|
    ensures forall k :: 0 <= k < |s| ==> SameButOpcode(Removed(s)[k], s[k])
    ensures forall k :: 0 <= k < |s| ==> Removed(s)[k] == s[k] || Removed(s)[k].opcode == Nop
  {
    forall k | 0 <= k < |s|
      ensures SameButOpcode(Removed(s)[k], s[k])
      ensures Removed(s)[k] == s[k] || Removed(s)[k].opcode == Nop
    {
      RemovedInRegion(s, k);
    }
  }

  /** A body without any marker string comes back unchanged. */
  lemma RemovedNoMarkerUnchanged(s: seq<Instr>)
    requires forall k :: 0 <= k < |s| ==> !IsMarker(s[k])
    ensures Removed(s) == s
  {
    forall k | 0 <= k < |s|
      ensures Removed(s)[k] == s[k]
    {
      RemovedInRegion(s, k);
    }
  }

  /** Everything before the first marker is unchanged, and the marker
      itself is blanked, since the flag is set before it is tested. */
  lemma RemovedBeforeFirstMarker(s: seq<Instr>, f: nat)
    requires f < |s| && IsMarker(s[f])
    requires forall j :: 0 <= j < f ==> !IsMarker(s[j])
    ensures |Removed(s)| == |s|
    ensures Removed(s)[..f] == s[..f]
    ensures Removed(s)[f] == WithOpcode(s[f], Nop)
  {
    forall k | 0 <= k < f
      ensures Removed(s)[k] == s[k]
    {
      RemovedInRegion(s, k);
    }
    RemovedInRegion(s, f);
    assert NoSinkCallBetween(s, f, f);
  }

  /** From a marker through the next sink call, inclusive, and to the end of
      the body if no sink call follows, every instruction becomes `nop`. */
  lemma RemovedRegionBlanked(s: seq<Instr>, j: nat, k: nat)
    requires j <= k < |s| && IsMarker(s[j])
    requires forall m :: j <= m < k ==> !IsSinkCall(s[m])
    ensures |Removed(s)| == |s|
    ensures Removed(s)[k] == WithOpcode(s[k], Nop)
  {
    assert NoSinkCallBetween(s, j, k);
    RemovedInRegion(s, k);
  }

  /** A marker that no sink call follows blanks the rest of the body. */
  lemma RemovedUnclosedRegion(s: seq<Instr>, j: nat)
    requires j < |s| && IsMarker(s[j])
    requires forall m :: j <= m < |s| ==> !IsSinkCall(s[m])
    ensures |Removed(s)| == |s|
    ensures Removed(s)[j..] == seq(|s| - j, k requires 0 <= k < |s| - j => WithOpcode(s[j + k], Nop))
  {
    forall k | j <= k < |s|
      ensures Removed(s)[k] == WithOpcode(s[k], Nop)
    {
      RemovedRegionBlanked(s, j, k);
    }
  }

  /** After a sink call, the flag is off again: an instruction with no marker
      between that call and itself is unchanged, until a later marker opens
      a new region. */
  lemma RemovedAfterSinkCall(s: seq<Instr>, c: nat, k: nat)
    requires c < k < |s| && IsSinkCall(s[c])
    requires forall m :: c < m <= k ==> !IsMarker(s[m])
    ensures |Removed(s)| == |s|
    ensures Removed(s)[k] == s[k]
  {
    RemovedInRegion(s, k);
    forall j | 0 <= j <= k && IsMarker(s[j])
      ensures !NoSinkCallBetween(s, j, k)
    {
      // a marker at or before k lies at or before the sink call
      assert j <= c;
    }
  }

  /** Running the pass twice is running it once: every marker of the input is
      blanked, so the output has no marker left. */
  lemma RemovedIdempotent(s: seq<Instr>)
    ensures Removed(Removed(s)) == Removed(s)
  {
    var t := Removed(s);
    forall k | 0 <= k < |t|
      ensures !IsMarker(t[k])
    {
      RemovedInRegion(s, k);
      if IsMarker(s[k]) {
        assert NoSinkCallBetween(s, k, k);
      }
    }
    RemovedNoMarkerUnchanged(t);
  }

  /** The shape of `ContactData.ClearExpired`'s log statement: load the format
      string, the argument, `false`, call the sink; then unrelated code. */
  lemma ExampleClearingStatement()
    ensures
      var log := MethodRef(MethodInfo(UniLog, "Log", ["System.String", "System.Boolean"]));
      var body := [Instr(Ldstr, Str("Status before clearing: {0}"), [], []),
                   Instr(Other(2), NoOperand, [], []),
                   Instr(Ldc_I4_0, NoOperand, [], []),
                   Instr(Call, log, [], []),
                   Instr(Other(3), NoOperand, [7], [])];
      Removed(body) == [Instr(Nop, Str("Status before clearing: {0}"), [], []),
                        Instr(Nop, NoOperand, [], []),
                        Instr(Nop, NoOperand, [], []),
                        Instr(Nop, log, [], []),
                        Instr(Other(3), NoOperand, [7], [])]
  {
    var log := MethodRef(MethodInfo(UniLog, "Log", ["System.String", "System.Boolean"]));
    var body := [Instr(Ldstr, Str("Status before clearing: {0}"), [], []),
                 Instr(Other(2), NoOperand, [], []),
                 Instr(Ldc_I4_0, NoOperand, [], []),
                 Instr(Call, log, [], []),
                 Instr(Other(3), NoOperand, [7], [])];
    assert IsMarker(body[0]) && IsSinkCall(body[3]);
    RemovedRegionBlanked(body, 0, 0);
    RemovedRegionBlanked(body, 0, 1);
    RemovedRegionBlanked(body, 0, 2);
    RemovedRegionBlanked(body, 0, 3);
    RemovedAfterSinkCall(body, 3, 4);
  }
}
