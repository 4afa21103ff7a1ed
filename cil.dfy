/** An abstract view of a method body as the code-patching framework hands it to
    a transpiler: a list of instructions, each an opcode, an operand, and the
    branch labels and exception blocks attached to it. Only the opcodes the
    three transpilers look at are named; every other opcode is `Other`. */
module Cil {

  /** A method identity: declaring type, name and parameter types. Two
      overloads with the same name differ in their parameter list. */
  datatype MethodInfo = MethodInfo(declaringType: string, name: string, parameters: seq<string>)

  datatype Opcode =
    | Ldc_I4_0      // push the integer 0 (false)
    | Ldc_I4_1      // push the integer 1 (true)
    | Call
    | Callvirt
    | Ldstr
    | Nop
    | Other(code: nat)

  datatype Operand =
    | MethodRef(target: MethodInfo)
    | Str(s: string)
    | Opaque(id: nat)   // a field, type, label target, number, ...
    | NoOperand

  datatype Instr = Instr(opcode: Opcode, operand: Operand, labels: seq<nat>, blocks: seq<nat>)

  /** The same instruction with only its opcode replaced. */
  function WithOpcode(c: Instr, op: Opcode): Instr {
    c.(opcode := op)
  }

  /** Everything about an instruction except its opcode is the same. */
  predicate SameButOpcode(a: Instr, b: Instr) {
    a.operand == b.operand && a.labels == b.labels && a.blocks == b.blocks
  }
}

/** The fixed table of the mod: the four log sinks of the host's logging facade. */
module LogCleaner {
  import opened Cil

  const UniLog := "Elements.Core.UniLog"

  /** `logMethods`: Log(string, bool), Log(object, bool), Warning(string, bool)
      and Error(string, bool) of UniLog; the bool is the stack-trace flag. */
  const LogMethods: set<MethodInfo> := {
    MethodInfo(UniLog, "Log", ["System.String", "System.Boolean"]),
    MethodInfo(UniLog, "Log", ["System.Object", "System.Boolean"]),
    MethodInfo(UniLog, "Warning", ["System.String", "System.Boolean"]),
    MethodInfo(UniLog, "Error", ["System.String", "System.Boolean"])
  }

  /** The operand is a method reference to one of the four sink identities. */
  predicate IsLogMethod(op: Operand) {
    op.MethodRef? && op.target in LogMethods
  }

  /** A `call` whose operand is a log sink. */
  predicate IsSinkCall(c: Instr) {
    c.opcode == Call && IsLogMethod(c.operand)
  }

  lemma SinksAreIdentifiedBySignature()
    ensures |LogMethods| == 4
    ensures !IsLogMethod(MethodRef(MethodInfo(UniLog, "Log", ["System.String"])))
  {
    var log1 := MethodInfo(UniLog, "Log", ["System.String", "System.Boolean"]);
    var log2 := MethodInfo(UniLog, "Log", ["System.Object", "System.Boolean"]);
    var warn := MethodInfo(UniLog, "Warning", ["System.String", "System.Boolean"]);
    var err := MethodInfo(UniLog, "Error", ["System.String", "System.Boolean"]);
    assert log1.parameters[0] != log2.parameters[0];
    assert log1.name != warn.name && log1.name != err.name && warn.name != err.name;
    assert LogMethods == {log1} + {log2} + {warn} + {err};
  }
}
