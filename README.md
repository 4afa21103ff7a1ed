# LogCleaner: a Dafny model of its instruction rewriters

LogCleaner is a Resonite mod that silences noisy log output of the host by
rewriting the instruction streams of a few host methods before they run
(Harmony "transpilers"). This project models the three rewriters and the
guarded setter one of them installs. The rewriters work over an abstract
method body: a list of instructions, each an opcode, an operand, and the
branch labels and exception blocks attached to it.

- `Cil` (`cil.dfy`): instructions, opcodes (`Ldc_I4_0`, `Ldc_I4_1`, `Call`,
  `Callvirt`, `Ldstr`, `Nop`, `Other`), operands (a method identity, a
  string, an opaque operand, none). Method identity is a value: declaring
  type, name and parameter types, so the two `Log` overloads differ.
- `LogCleaner` (`cil.dfy`): the fixed `logMethods` table of the four
  `UniLog` sinks and the sink-call test.
- `StackTraceFixerPatch` (`stack_trace_fixer.dfy`): a `true` literal
  directly before a sink call becomes `false`. The transpiler is a method
  that copies the list into an array and rewrites it in place with an index
  loop. It is proved equal to `Stripped`, a recursive reference definition.
  Lemmas about `Stripped` give the exact positions that change, preservation
  of operands, labels and blocks, and idempotence.
- `ContextMenuOpenPatch` (`context_menu_open.dfy`): the streaming map that
  replaces every instruction whose operand is a method named `set_Target`
  by a fresh `call SafeSetTarget`. `SafeSetTarget` is a method on a small
  `SyncRef` class.
- `ContactSpamRemoverPatch` (`contact_spam_remover.dfy`): the single pass
  with a `skip` flag. A marker `ldstr` turns skipping on, skipped
  instructions become `nop`, and a sink call turns skipping off and is
  blanked itself. A marker must equal an entry of `strList`
  (`List.Contains`, LogCleaner/LogCleaner.cs:158); a substring does not
  match. The transpiler is an in-place array loop proved equal to
  `Removed`, the state machine written position by position. `Removed` is
  proved equal to the region characterisation `InRegion`: position k is
  blanked exactly when some marker at or before k has no sink call between
  it and k.

## Model

| member | source | states |
|---|---|---|
| `LogCleaner.SinksAreIdentifiedBySignature` | LogCleaner/LogCleaner.cs:20-26 | the sink table has four distinct identities; a `Log` overload with another parameter list is not a sink |
| `StackTraceFixerPatch.Transpiler` | LogCleaner/LogCleaner.cs:93-114 | the copy-and-rewrite-in-place loop returns exactly `Stripped` of the input: iteration i writes only index i, from the original i and i+1 |
| `StackTraceFixerPatch.StrippedLength` | LogCleaner/LogCleaner.cs:95-113 | the output has the input's length |
| `StackTraceFixerPatch.StrippedAt` | LogCleaner/LogCleaner.cs:96-107 | output position i is `ldc.i4.0` with the same operand if i is a trace-flag site (`ldc.i4.1` at i, i+1 < n, sink call at i+1), else the input instruction |
| `StackTraceFixerPatch.StrippedSpec` | LogCleaner/LogCleaner.cs:95-113 | same length; operand, labels and blocks kept everywhere; position i changes if and only if it is a trace-flag site, and then becomes `ldc.i4.0` |
| `StackTraceFixerPatch.StrippedKeepsLast` | LogCleaner/LogCleaner.cs:96 | the last instruction is never changed; an empty or one-instruction body is returned unchanged |
| `StackTraceFixerPatch.StrippedNoSiteUnchanged` | LogCleaner/LogCleaner.cs:99-107 | a body with no `true` literal directly before a sink call is returned unchanged |
| `StackTraceFixerPatch.StrippedIdempotent` | LogCleaner/LogCleaner.cs:99-106 | running the rewrite on its own output changes nothing |
| `StackTraceFixerPatch.ExampleLogCall` | LogCleaner/LogCleaner.cs:99-106 | `[ldc.i4.1; call Log(string,bool)]` becomes `[ldc.i4.0; call Log(string,bool)]` |
| `ContextMenuOpenPatch.Transpiler` | LogCleaner/LogCleaner.cs:124-137 | same length and order; element k is a fresh `call SafeSetTarget` (no labels, no blocks) if input k's operand is a method named `set_Target`, whatever its opcode, else input k itself |
| `ContextMenuOpenPatch.NoSetTargetLeft` | LogCleaner/LogCleaner.cs:128-130 | no output instruction refers to a method named `set_Target` |
| `ContextMenuOpenPatch.TranspilerIdempotent` | LogCleaner/LogCleaner.cs:128-130 | the map applied to its own output changes nothing |
| `ContextMenuOpenPatch.TranspilerUnchanged` | LogCleaner/LogCleaner.cs:132-135 | a body without `set_Target` references is returned unchanged |
| `ContextMenuOpenPatch.TranspilerAppend` | LogCleaner/LogCleaner.cs:126-136 | the map distributes over concatenation: it rewrites each element independently of the others |
| `ContextMenuOpenPatch.SafeSetTarget` | LogCleaner/LogCleaner.cs:119-122 | the driver's target becomes `target` if `target` is not linked, and stays what it was otherwise; nothing else changes |
| `ContactSpamRemoverPatch.Transpiler` | LogCleaner/LogCleaner.cs:149-175 | the copy-and-blank-in-place loop with its `skip` flag returns exactly `Removed` of the input |
| `ContactSpamRemoverPatch.RegionStep` | LogCleaner/LogCleaner.cs:158-171 | a region reaches k+1 exactly when k+1 is a marker or the region at k is not closed by a sink call at k |
| `ContactSpamRemoverPatch.BlankedIffInRegion` | LogCleaner/LogCleaner.cs:158-171 | the pass blanks position k if and only if some marker at j <= k has no sink call at j..k-1 |
| `ContactSpamRemoverPatch.RemovedInRegion` | LogCleaner/LogCleaner.cs:158-171 | output position k is the input with opcode `nop` inside a region, the input itself outside |
| `ContactSpamRemoverPatch.RemovedPreserves` | LogCleaner/LogCleaner.cs:152-174 | same length; operands, labels and blocks kept; each opcode is either kept or `nop` |
| `ContactSpamRemoverPatch.RemovedNoMarkerUnchanged` | LogCleaner/LogCleaner.cs:158-171 | a body in which no `ldstr` string is in the list is returned unchanged |
| `ContactSpamRemoverPatch.RemovedBeforeFirstMarker` | LogCleaner/LogCleaner.cs:158-170 | everything before the first marker is unchanged and the marker `ldstr` itself becomes `nop`, since `skip` is set before it is tested |
| `ContactSpamRemoverPatch.RemovedRegionBlanked` | LogCleaner/LogCleaner.cs:163-171 | from a marker through the next sink call, inclusive, every instruction becomes `nop` |
| `ContactSpamRemoverPatch.RemovedUnclosedRegion` | LogCleaner/LogCleaner.cs:163-171 | a marker with no sink call after it blanks everything from the marker to the end |
| `ContactSpamRemoverPatch.RemovedAfterSinkCall` | LogCleaner/LogCleaner.cs:163-171 | after a sink call skipping is off: an instruction with no marker between that call and itself is unchanged, so only a later marker opens a new region |
| `ContactSpamRemoverPatch.RemovedIdempotent` | LogCleaner/LogCleaner.cs:158-170 | running the pass on its own output changes nothing, because every marker of the input ends up `nop` |
| `ContactSpamRemoverPatch.ExampleClearingStatement` | LogCleaner/LogCleaner.cs:142-171 | a `ClearExpired`-style statement (marker, argument, flag, sink call) is blanked whole; the instruction after it keeps its opcode and labels |

## Left out

- `OnEngineInit` (installing the patches with Harmony, the reflection lookups, `MakeGenericMethod` over the context-menu types, the per-method `try`/`catch`): foreign library calls whose behaviour is not visible. The type table lists `AssetToolReplacementMode` twice, which only installs that patch twice.
- The `Debug(...)` calls inside the transpilers: output only, with no effect on the returned list.
- The mod's name, author, version and link properties: display strings for the mod loader.
- Aliasing of `CodeInstruction` objects: the source copies references into a new list and assigns `.opcode` on the shared objects. The model copies values into an array and updates array slots, so it does not capture that the caller's instructions change with them.
- The laziness of `yield return` in the `set_Target` rewrite: it is modelled as a function over the whole list.
- The sink table assumes the four `GetMethod` lookups succeed. A failed lookup would put `null` into the set, and that case is not modelled.
- `ContextMenuOpenPatch.SafeSetTarget`: a null `target` (or `driver`) throws a NullReferenceException in the source; both parameters are non-null references here, so that error path is not modelled.
- `ISyncRef`: only `IsLinked` and `Target`, as two plain fields. In the host, assigning `Target` also links the target; that host behaviour is not modelled.
- CIL stack behaviour: the model does not track stack effects. One reason is that blanking a marker `ldstr` with `nop` changes the stack effect of that single instruction; the blanked statement as a whole stays balanced only because of how the host compiles its log statements.
