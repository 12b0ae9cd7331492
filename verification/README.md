# Verified models of the Dachs compiler

Dachs is a compiler in two generations: a C++ compiler (`src/`) and a front end rewritten in Go
(`next/`). This project models the parts of both whose correctness is a matter of meaning - the
transformations that must not change what a program does, and the state machines and graph walks
around them - and proves what each of them promises.

`dafny verify dfyconfig.toml` checks everything.

## What is modelled

**Control flow.** `Structured` gives Dachs statements (`ret`, `if`/`unless`/`case`, `switch`, `for`
with a condition, postfix `if`, nested blocks) a meaning with effects. Expressions are opaque: their
values may depend on everything that happened before, so a statement about all worlds is a statement
about all expressions. `BasicBlocks` is the target, a machine over basic blocks, together with the
state of the emitting builder: blocks, layout, insert point. `Emitter` is the emitter as it works, a
class that moves the insert point and closes blocks; `Lowering` is the function it computes.
`StatementLaws` says what the statements mean in terms of each other. `LoweringShape` proves the
invariant of the builder, `LoweringMeaning` the simulation and the results for whole functions, and
`TerminationCheck` is the check that a function always returns.

**Closure conversion.** `Closures` evaluates functions with lambdas, once in lexical scopes and once
converted, where a lambda sees its parameters and its receiver only. `CaptureResolution` finds
captures and rewrites bodies, `LambdaResolver` does it in the original's stateful form, and
`ClosureMeaning` proves that nothing changes.

**Deep copy.** `DeepCopy` models the heap that the emitted code works on, cell by cell;
`AllocationHelper` runs allocation and copying step by step.

**Lexer.** `Scanning` says what each state of the Go lexer does at a position of the source, `Lexer`
is the machine with one rune of look-ahead, `ScanningTheorems` proves tiling, positions and the
re-lexing round trip, `Spellings` defines the words of each kind of token, apart from the tables of
the lexer, and proves that tokens are the longest words, and `TokenChannel` is the protocol between
the lexer goroutine and the driver.

**Binary operators.** `PrecedenceLadder` has the ten rules from `mult_expr` to `logical_or_expr`.

**Imports.** `Importer` and `ImportTheorems` are the C++ importer; `ImportResolver` is the Go one.

**Statements as expressions.** `BlockPromotion` turns blocks into expressions and back.

**Types and overloads.** `TypeRelations` has equality, fuzzy match and instantiation of types,
`TypeTheorems` their laws. `Overloads` scores and narrows the candidates of a call, and
`OverloadTheorems` says who wins.

## What turned out to be false

- For every arity above 40, the product of overload scores can wrap around its 64 bits so that the better
  of two candidates loses; up to 40 it never does: `OverloadTheorems.DominationDecidesExactly`. A candidate
  with 64 or more parameters that match as instances of class templates is dropped altogether:
  `OverloadTheorems.EligibleExactly`.
- Two empty types are equal but do not match each other, and a template equals nothing, not even itself:
  `TypeTheorems.EqualMatchesExactly`, `TypeTheorems.EqualIsReflexiveExactly`. Matching is not transitive;
  `TypeTheorems.FuzzyIsTransitiveExactly` says through which types it is.
- A string does not always end at the first quote that is not escaped: behind an escape, the next rune is
  not looked at for a backslash. `ScanningTheorems.StringEndsAsUsualExactly` says when the string ends as
  usual.
- Tokens cannot be read back if there are comments or single quotes among them: `ScanningTheorems.Relexing`.
- Demotion of a promoted block gives the block back only where no wrapped expression was unwrapped:
  `BlockPromotion.DemotionRestoresExactly`.
- A nested template counts as one level of template depth, not as none, since the case for templates is not
  callable from the recursion. `OverloadTheorems.DepthExceedsIntentExactly` says which types this makes too
  deep, and `OverloadTheorems.PointersTie` has two candidates that tie because of it.
- The check for missing returns rejects some bodies that never fall through. Which bodies can fall through
  is `TerminationCheck.FallingThroughExactly`; the check is wrong exactly about those it rejects among the
  others, `TerminationCheck.CheckIsExact`. It errs about literal conditions and `for true` only:
  `TerminationCheck.CheckDecidesUndecided`.
- The capture search goes by name and sees a block's variables in all of the block, so it misses a variable
  that is read only before the block declares one of its name: `CaptureResolution.CapturesAreSeen`,
  `ClosureMeaning.ShadowingLosesCapture`. Other shadowing does no harm. The converted body is closed exactly
  when no capture is missed; a missed one makes the converted code stuck at worst: `ClosureMeaning.ConversionIsNeverWrong`.
- Deep copying fails for arrays of pointers, where one load too many follows the element;
  `DeepCopy.DeepCopyIsolates` says for exactly which types it succeeds.

## Model

| member | source | states |
|---|---|---|
| LoweringMeaning.LoweringPreservesResults | src/dachs/codegen/llvmir/ir_emitter.cpp:1007-1081 | the emitted blocks return a value with a history of effects exactly when the structured body does, falling off the end of a unit function included |
| LoweringMeaning.LoweringPreservesDivergence | src/dachs/codegen/llvmir/ir_emitter.cpp:1007-1081 | the emitted blocks run forever exactly when the structured body does |
| LoweringMeaning.LoweringPreservesEffects | src/dachs/codegen/llvmir/ir_emitter.cpp:1007-1081 | at any moment of any run, terminating or not, the effects of the blocks are a prefix of those of the body |
| LoweringMeaning.CheckedFunctionNeverTraps | src/dachs/codegen/llvmir/ir_emitter.cpp:1036-1055 | if the return check accepts the body or the function returns `()`, the trailing `unreachable` is never executed |
| LoweringMeaning.RunAgrees | src/dachs/codegen/llvmir/ir_emitter.cpp:1007-1056 | after any number of steps the machine either still runs or is in the state the body's outcome dictates |
| LoweringMeaning.FunctionRuns | src/dachs/codegen/llvmir/ir_emitter.cpp:1007-1056 | the entry block leads to the halt, trap or still-running state that matches the body's outcome |
| LoweringShape.FunctionIsComplete | src/dachs/codegen/llvmir/ir_emitter.cpp:1007-1056 | in every lowered function each block is attached exactly once and has exactly one terminator, at its end; branches go to its blocks; the entry is first |
| LoweringShape.BlockGrows | src/dachs/codegen/llvmir/ir_emitter.cpp:1058-1081 | lowering a block never writes behind a terminator, keeps all earlier code, and leaves no block detached or unterminated but the insert block |
| LoweringShape.StmtGrows | src/dachs/codegen/llvmir/ir_emitter.cpp:1062-1071 | the same for every statement; only `ret` and nested blocks can leave the insert block closed |
| LoweringShape.ClausesGrow | src/dachs/codegen/llvmir/ir_emitter.cpp:1243-1282 | the same across the clauses of `if`, while the blocks of the later clauses are pending |
| LoweringShape.WhensGrow | src/dachs/codegen/llvmir/ir_emitter.cpp:2112-2173 | the same across the `when`s of `switch` |
| LoweringShape.IfGrows | src/dachs/codegen/llvmir/ir_emitter.cpp:1243-1282 | the same for a whole `if`, which attaches its end block last and leaves it open |
| LoweringShape.SwitchGrows | src/dachs/codegen/llvmir/ir_emitter.cpp:2112-2173 | the same for a whole `switch` |
| LoweringShape.WhileGrows | src/dachs/codegen/llvmir/ir_emitter.cpp:1701-1718 | the same for loops: condition, body and exit blocks are all attached and closed |
| LoweringShape.PostfixIfGrows | src/dachs/codegen/llvmir/ir_emitter.cpp:2180-2195 | the same for postfix `if`, which leaves an open insert block |
| LoweringShape.ReturnGrows | src/dachs/codegen/llvmir/ir_emitter.cpp:1284-1307 | a `ret` closes the insert block and touches nothing if it is closed already |
| LoweringShape.AppendStep | src/dachs/codegen/llvmir/ir_builder_helper.hpp:85-107 | attaching a detached block when the insert block is closed keeps the invariant and leaves the block empty and open |
| LoweringShape.CloseAndMove | src/dachs/codegen/llvmir/ir_builder_helper.hpp:71-83 | terminating and moving to the one pending block settles all that was pending |
| LoweringShape.BranchStep | src/dachs/codegen/llvmir/ir_builder_helper.hpp:125-139 | a conditional branch closes the insert block once |
| BasicBlocks.InsertAfterContents | src/dachs/codegen/llvmir/ir_builder_helper.hpp:85-94 | inserting behind the insert block adds exactly that block to the layout and never moves the entry |
| BasicBlocks.InsertedBehind | src/dachs/codegen/llvmir/ir_builder_helper.hpp:85-94 | the block is put right behind the insert block |
| LoweringMeaning.StmtRuns | src/dachs/codegen/llvmir/ir_emitter.cpp:1062-1071 | the code of a statement, run from its start with any registers, simulates the statement: same effects, same outcome, at least as many steps as fuel when it does not end |
| LoweringMeaning.BlockRuns | src/dachs/codegen/llvmir/ir_emitter.cpp:1058-1081 | the code of a block simulates the block, statements behind a terminator being dropped |
| LoweringMeaning.IfRuns | src/dachs/codegen/llvmir/ir_emitter.cpp:1243-1282 | the code of `if`, `unless` and `case` simulates the statement |
| LoweringMeaning.ClausesRun | src/dachs/codegen/llvmir/ir_emitter.cpp:1251-1280 | from clause i on, the first clause whose condition holds is run, else the else clause |
| LoweringMeaning.SwitchRuns | src/dachs/codegen/llvmir/ir_emitter.cpp:2112-2173 | the code of `switch` simulates the statement, the target being evaluated once |
| LoweringMeaning.WhensRun | src/dachs/codegen/llvmir/ir_emitter.cpp:2119-2171 | from `when` i on, the first `when` with an equal value is run, else the else clause |
| LoweringMeaning.TestsRun | src/dachs/codegen/llvmir/ir_emitter.cpp:2129-2157 | the comparisons of a `when` are made in order up to the first that holds |
| LoweringMeaning.WhileRuns | src/dachs/codegen/llvmir/ir_emitter.cpp:1701-1718 | the code of a loop simulates the loop, divergence included |
| LoweringMeaning.LoopRuns | src/dachs/codegen/llvmir/ir_emitter.cpp:1701-1718 | each pass through the condition block simulates one unfolding of the loop |
| LoweringMeaning.PassRuns | src/dachs/codegen/llvmir/ir_emitter.cpp:1716-1717 | the body, the branch back and the passes after it simulate the rest of the loop |
| LoweringMeaning.PostfixIfRuns | src/dachs/codegen/llvmir/ir_emitter.cpp:2180-2195 | the code of postfix `if` and `unless` simulates the statement |
| LoweringMeaning.ExitRuns | src/dachs/codegen/llvmir/ir_builder_helper.hpp:71-83 | a body followed by a branch to `end` arrives at `end` exactly when the body ends |
| LoweringMeaning.ReturnRuns | src/dachs/codegen/llvmir/ir_emitter.cpp:1284-1307 | `ret` halts with the unit, the single value or the tuple of the values, evaluated from left to right |
| LoweringMeaning.ConditionRuns | src/dachs/codegen/llvmir/ir_emitter.cpp:1252-1264 | a condition is evaluated once, and inverted for `unless` |
| LoweringMeaning.ClosedBlockNeverEnds | src/dachs/codegen/llvmir/ir_emitter.cpp:1064-1071 | a block whose code leaves the insert block closed never ends normally in the source |
| StatementLaws.LiteralDecides | src/dachs/codegen/llvmir/ir_emitter.cpp:1249-1270 | a condition that is literally true enters the clause of an `if` and passes that of an `unless`, and the other way round |
| StatementLaws.UnlessElseExchanges | src/dachs/codegen/llvmir/ir_emitter.cpp:1254-1263 | `unless` with an else clause runs, in every world, like `if` with the two bodies exchanged |
| StatementLaws.UnlessExchanges | src/dachs/codegen/llvmir/ir_emitter.cpp:1250-1272 | `unless` with any further clauses runs like `if` with its first body and all that follows exchanged, so only the first condition is inverted |
| StatementLaws.ElseIfNests | src/dachs/codegen/llvmir/ir_emitter.cpp:1251-1280 | a further clause of an `if` is an `if` in the else clause of the first |
| StatementLaws.CaseIsIf | src/dachs/codegen/llvmir/ir_emitter.cpp:1243-1282 | a `case` without a target runs like an `if` with the same clauses |
| StatementLaws.PostfixIfIsIf | src/dachs/codegen/llvmir/ir_emitter.cpp:2180-2195 | postfix `if` and `unless` run like the statements of the same name around their one statement |
| StatementLaws.LoopUnfolds | src/dachs/codegen/llvmir/ir_emitter.cpp:1701-1718 | a loop runs like an `if` around its body and the loop itself |
| StatementLaws.NestedIsInlined | src/dachs/codegen/llvmir/ir_emitter.cpp:1062-1071 | a nested block runs like its statements in its place |
| StatementLaws.ReturnEndsBlock | src/dachs/codegen/llvmir/ir_emitter.cpp:1284-1307 | `ret` ends the block with its one value, or with a tuple of its values in order, each evaluated after those before it |
| StatementLaws.WhenSplits | src/dachs/codegen/llvmir/ir_emitter.cpp:2127-2151 | a `when` with several tests runs like as many `when`s with the same body, wherever it stands |
| StatementLaws.FirstTestDecides | src/dachs/codegen/llvmir/ir_emitter.cpp:2129-2157 | a first test with an equal value enters its `when`; else the remaining ones are tried with the target as it was, on the left of `==` |
| Emitter.EmitFunction | src/dachs/codegen/llvmir/ir_emitter.cpp:1007-1056 | the emitter, moving its insert point, produces the specified blocks and layout |
| Emitter.IrEmitter.EmitStmt | src/dachs/codegen/llvmir/ir_emitter.cpp:1062-1071 | whole builder state after a statement of any kind |
| Emitter.IrEmitter.EmitBlock | src/dachs/codegen/llvmir/ir_emitter.cpp:1058-1081 | whole builder state after a block; the loop stops emitting at the first terminator |
| Emitter.IrEmitter.EmitIf | src/dachs/codegen/llvmir/ir_emitter.cpp:1243-1282 | whole builder state after an `if`; the loop over clauses runs with the else block of the last one pending |
| Emitter.IrEmitter.EmitSwitch | src/dachs/codegen/llvmir/ir_emitter.cpp:2112-2173 | whole builder state after a `switch` |
| Emitter.IrEmitter.EmitWhile | src/dachs/codegen/llvmir/ir_emitter.cpp:1701-1718 | whole builder state after a loop |
| Emitter.IrEmitter.EmitPostfixIf | src/dachs/codegen/llvmir/ir_emitter.cpp:2180-2195 | whole builder state after a postfix `if` |
| Emitter.IrEmitter.EmitReturn | src/dachs/codegen/llvmir/ir_emitter.cpp:1284-1307 | whole builder state after a `ret` |
| Emitter.IrEmitter.CloseWithBr | src/dachs/codegen/llvmir/ir_builder_helper.hpp:71-83 | a branch is added unless the block is terminated |
| Emitter.IrEmitter.AppendBlock | src/dachs/codegen/llvmir/ir_builder_helper.hpp:85-94 | a block goes behind the insert block, which it becomes |
| TerminationCheck.CheckBlock | src/dachs/semantics/analyzer.cpp:104-113 | the loop over the statements computes whether the block always returns |
| TerminationCheck.CheckStmt | src/dachs/semantics/analyzer.cpp:115-181 | the recursion over statements computes whether the statement always returns |
| TerminationCheck.ReturningBlockNeverEnds | src/dachs/semantics/analyzer.cpp:104-181 | no execution of an accepted body, in any world, ends without returning |
| TerminationCheck.CheckIsExact | src/dachs/semantics/analyzer.cpp:91-182 | for every body: an accepted body falls through in no run of any world, and the check is right about a body exactly when it accepts it or the body can end, literal conditions being decided |
| TerminationCheck.CheckDecidesDirectBodies | src/dachs/semantics/analyzer.cpp:104-181 | where no condition is literal and every `when` has a test, a body is accepted exactly when no run of it, in any world, falls through |
| TerminationCheck.CheckDecidesUndecided | src/dachs/semantics/analyzer.cpp:104-181 | every body is accepted exactly when none falls through of the runs in which literal conditions too go either way and a `for true` loop is its body |
| TerminationCheck.FallingThroughExactly | src/dachs/semantics/analyzer.cpp:104-181 | a body has a run that ends without returning, in some world, exactly when it can end by its syntax |
| TerminationCheck.BlockEscapes | src/dachs/semantics/analyzer.cpp:104-113 | for a body that can end, a world that answers by a computed script runs it to its end |
| TerminationCheck.BlockNeverEnds | src/dachs/semantics/analyzer.cpp:104-113 | a body that cannot end ends in no run, `for true` loops included |
| TerminationCheck.CheckIsConservative | src/dachs/semantics/analyzer.cpp:115-167 | two families outside the exact condition: a lone `if true` is always rejected, wrongly exactly when its body cannot end, and a `for true` loop never falls through but is accepted only if its body returns |
| ClosureMeaning.FunctionConversionPreserves | src/dachs/semantics/lambda_capture_resolver.hpp:397-418 | a function with lambdas nested to any depth, and with shadowing, evaluates to the converted value of the original, for every environment and fuel, if the search sees the free variables of each lambda |
| ClosureMeaning.ConversionIsNeverWrong | src/dachs/semantics/lambda_capture_resolver.hpp:397-418 | for every function, with any shadowing, the converted function yields the converted result or is stuck on a variable that was not captured, never another result |
| ClosureMeaning.TidyFunctionConverts | src/dachs/semantics/lambda_capture_resolver.hpp:397-418 | so it does if no variable from outside a block is read in it before the block declares one of its name |
| ClosureMeaning.ConversionPreservesBody | src/dachs/semantics/lambda_capture_resolver.hpp:203-297 | the converted body with the receiver built at the definition gives the value of the original body in its defining scope |
| ClosureMeaning.ConversionPreserves | src/dachs/semantics/lambda_capture_resolver.hpp:250-297 | inside any enclosing lambda, the rewritten expression evaluates like the original |
| ClosureMeaning.LambdaConverts | src/dachs/semantics/lambda_capture_resolver.hpp:327-360 | a lambda object carries the values its captures have where it is defined, taken from the outer receiver if they are captures there |
| ClosureMeaning.CallAgrees | src/dachs/semantics/lambda_capture_resolver.hpp:362-382 | on entry of a converted lambda every free variable is a parameter or a field of the receiver with the right value |
| ClosureMeaning.ShadowingLosesCapture | src/dachs/semantics/lambda_capture_resolver.hpp:46-56 | a lambda that reads a variable only to initialize one of the same name has no capture, and its converted call has no value |
| CaptureResolution.CapturesAreSeen | src/dachs/semantics/lambda_capture_resolver.hpp:213-231 | for every unconverted lambda, the captures are exactly the variables that are free somewhere outside the blocks that declare their name, each once; these are the free variables exactly when none is read only where its block hides it |
| CaptureResolution.TidyIsConvertible | src/dachs/semantics/lambda_capture_resolver.hpp:46-72 | shadowing does no harm where no block reads an outer variable before it declares one of that name |
| CaptureResolution.CollectsSeen | src/dachs/semantics/lambda_capture_resolver.hpp:186-240 | visiting an expression adds exactly its visible free variables not bound inside the lambda and keeps earlier offsets |
| CaptureResolution.CapturedIsUnbound | src/dachs/semantics/lambda_capture_resolver.hpp:30-85 | the search up the scopes answers yes exactly for variables declared in none of the scopes up to the lambda |
| CaptureResolution.ReceiverHoldsCaptures | src/dachs/semantics/lambda_capture_resolver.hpp:349-359 | offsets are 0 to n-1, receiver element i is the variable with offset i, and each reference to a capture is rewritten to that element |
| CaptureResolution.ReplaceRemovesCaptures | src/dachs/semantics/lambda_capture_resolver.hpp:250-290 | rewriting removes the captured symbols, and nothing else, from what the body mentions, variables of the same name declared inside being left alone |
| CaptureResolution.ConvertedBodyIsClosedExactly | src/dachs/semantics/lambda_capture_resolver.hpp:375-395 | a converted body mentions only its own parameters exactly when the search saw all free variables of the lambda |
| LambdaResolver.CaptureVisitor.VisitRef | src/dachs/semantics/lambda_capture_resolver.hpp:213-231 | a reference to an outer variable is captured once, and the next offset is one higher exactly then |
| LambdaResolver.CaptureVisitor.Visit | src/dachs/semantics/lambda_capture_resolver.hpp:186-240 | the visitor collects the specified captures and restores its scope |
| LambdaResolver.CaptureVisitor.VisitAll | src/dachs/semantics/lambda_capture_resolver.hpp:203-212 | the same over the arguments of a call and over the receiver of a nested lambda |
| LambdaResolver.ResolveLambdas | src/dachs/semantics/lambda_capture_resolver.hpp:397-418 | inside-out resolution computes the specified conversion |
| DeepCopy.DeepCopyIsolates | src/dachs/codegen/llvmir/ir_builder_helper.hpp:477-490 | for every type: a deep copy succeeds exactly unless there are arrays of pointers in it; the copy of a record or array is structurally equal and laid out in new cells only, that of any other value is one new cell with the value; every old cell is unchanged |
| DeepCopy.CopyOwnsFreshCells | src/dachs/codegen/llvmir/ir_builder_helper.hpp:477-490 | each cell of a copy belongs to one part of it and did not exist before |
| DeepCopy.CopyWorks | src/dachs/codegen/llvmir/ir_builder_helper.hpp:544-653 | copying into allocated cells succeeds exactly for copyable types, gives an equal tree and writes nothing else |
| DeepCopy.CopyFromWorks | src/dachs/codegen/llvmir/ir_builder_helper.hpp:544-642 | the same from part i of a record or array on |
| DeepCopy.AllocLays | src/dachs/codegen/llvmir/ir_builder_helper.hpp:393-475 | an allocation is one cell with a cell of its own, recursively, for each aggregate part, and as large as the type says |
| DeepCopy.LaidOwnsInterval | src/dachs/codegen/llvmir/ir_builder_helper.hpp:393-475 | an allocated value reaches each of its cells exactly once and no other |
| AllocationHelper.Memory.CreateAlloca | src/dachs/codegen/llvmir/ir_builder_helper.hpp:393-475 | the loops over the parts reach the specified heap |
| AllocationHelper.Memory.CreateDeepCopy | src/dachs/codegen/llvmir/ir_builder_helper.hpp:527-653 | the loops over the parts succeed or fail, and change the heap, as specified |
| AllocationHelper.Memory.AllocAndCopy | src/dachs/codegen/llvmir/ir_builder_helper.hpp:477-490 | allocation and copy together reach the specified heap, for aggregates and for other values |
| ScanningTheorems.LexingRebuildsSource | next/compiler/syntax/lexer.go:396-509 | in a run that ends in `EOF`, token texts and the skipped spaces between them rebuild the source |
| ScanningTheorems.LexTiles | next/compiler/syntax/lexer.go:396-509 | in every run tokens follow each other with only spaces that are no newlines in between; only a final `Illegal` may reach over the end |
| ScanningTheorems.PositionMeaning | next/compiler/syntax/lexer.go:83-96 | offset is the number of bytes eaten, line is one more than the newlines, column one more than the bytes since the last newline |
| ScanningTheorems.PositionOverrun | next/compiler/syntax/lexer.go:83-96 | behind the end each `eat` adds one to offset and column |
| ScanningTheorems.RuneLenIsLeast | next/compiler/syntax/lexer.go:83-85 | a rune counts for the least number of bytes whose free bits hold its code point |
| ScanningTheorems.Relexing | next/compiler/syntax/lexer.go:123-509 | the tokens of a successful run, joined by single spaces, lex to the same kinds and texts exactly when there are no comments and no single quotes among them |
| ScanningTheorems.StepRepeats | next/compiler/syntax/lexer.go:210-509 | which token starts at a rune depends on the token's own runes only, if a space follows |
| ScanningTheorems.StringEndsAsUsualExactly | next/compiler/syntax/lexer.go:225-242 | for every source, a string ends where the usual reading of escapes ends it exactly when the count of backslashes modulo 6 keeps the two readings in step at each quote |
| ScanningTheorems.EscapesApart | next/compiler/syntax/lexer.go:225-242 | so it does if no escaped rune is directly followed by a backslash |
| ScanningTheorems.BackslashBehindEscape | next/compiler/syntax/lexer.go:225-242 | an escape directly followed by a backslash and a quote always ends the string there, which the usual reading never does |
| Spellings.TokensAreLongestWords | next/compiler/syntax/lexer.go:123-509 | every token but the last is a word of its kind: a fixed spelling, a name that is no keyword, a number, a string or a comment; and unless it is a string, no word of any kind that starts there is longer |
| Spellings.KindIsUnique | next/compiler/syntax/token.go:8-72 | a text is a word of one kind at most |
| Spellings.StepFailsExactly | next/compiler/syntax/lexer.go:210-509 | in front of a rune that is no space to skip, the lexer fails exactly if no word starts there, a prefix or an exponent has no digit, two dots have no third, or a string is not closed |
| Spellings.NameKindMeaning | next/compiler/syntax/lexer.go:184-223 | a name is sent with the kind of the keyword it is, and as an identifier exactly if it is none |
| Spellings.StepMunches | next/compiler/syntax/lexer.go:123-509 | each state that sends a token takes a word of its kind, the longest one |
| Spellings.RuneClasses | next/compiler/syntax/lexer.go:105-121 | the classes of letters, digits and hexadecimal digits, rune by rune |
| Scanning.StepProgress | next/compiler/syntax/lexer.go:276-509 | every state that sends a token advances, inside the source; only an unclosed string runs over the end, by at most two |
| Scanning.StringProgress | next/compiler/syntax/lexer.go:225-242 | a string literal ends inside the source or is `Illegal` and overruns by at most two |
| Scanning.MarksProgress | next/compiler/syntax/lexer.go:402-494 | each operator mark is one or two runes, never behind the end |
| Lexer.Machine.Lex | next/compiler/syntax/lexer.go:51-58 | the machine sends exactly the specified tokens with their positions, and reports an error exactly when the last one is `Illegal`; it terminates |
| Lexer.Machine.RunMain | next/compiler/syntax/lexer.go:396-509 | the main loop keeps sent and outstanding tokens together the same, and consumes or goes to a state of lower rank |
| Lexer.Machine.RunState | next/compiler/syntax/lexer.go:55-57 | the same for every state function, some of which consume nothing |
| Lexer.Machine.RunString | next/compiler/syntax/lexer.go:225-242 | the loop over a string, with its two-rune escapes, sends the specified token |
| Lexer.Machine.RunDigit | next/compiler/syntax/lexer.go:276-317 | integer, fraction, exponent and suffix are sent as the specified token |
| Lexer.Machine.RunBase | next/compiler/syntax/lexer.go:319-355 | hexadecimal and binary numbers are sent as the specified token |
| Lexer.Machine.RunNumber | next/compiler/syntax/lexer.go:357-374 | the prefix of a number is eaten and the state it selects still lexes the same token |
| Lexer.Machine.RunIdent | next/compiler/syntax/lexer.go:123-134 | a name is sent as keyword or identifier, or fails without a letter |
| Lexer.Machine.RunDot | next/compiler/syntax/lexer.go:376-394 | one dot, three dots, or a failure on two |
| Lexer.Machine.RunExclamation | next/compiler/syntax/lexer.go:162-182 | `!`, `!=` or a comment are sent as the specified token |
| Lexer.Machine.RunMark | next/compiler/syntax/lexer.go:405-494 | a token of one or two marks is sent, or its missing second mark is reported, as specified |
| Lexer.Machine.EatWhile | next/compiler/syntax/lexer.go:130-132 | the loop stops at the end of the longest run |
| TokenChannel.HandshakeIsSafeAndLive | next/compiler/driver/mediator.go:56-77 | in every interleaving the collected tokens are a prefix of those sent, no side blocks before both are done, and the result has all tokens and an error exactly for a final `Illegal` |
| TokenChannel.StepKeepsInvariant | next/compiler/syntax/lexer.go:136-152 | each step of either side keeps the state of both sides in accord |
| TokenChannel.RunInvariant | next/compiler/driver/mediator.go:65-76 | every state of a run satisfies the invariant, and the steps left decrease |
| TokenChannel.LexingEndsWell | next/compiler/syntax/lexer.go:147-152 | every run sends finitely many ordinary tokens and then exactly one `EOF` or `Illegal` |
| TokenChannel.DriverLex | next/compiler/driver/mediator.go:56-77 | the driver's loop returns all tokens, and an error exactly when the last is `Illegal` |
| TokenChannel.SentPositions | next/compiler/syntax/lexer.go:136-145 | start and end of every token sent are the byte offset, line and column of its bounds in the source |
| PrecedenceLadder.LadderMeaning | src/dachs/parser/parser.cpp:784-905 | the rules consume every operator up to a `+` or `-` at the start of a line; the tree reads exactly the consumed input and respects levels and left association |
| PrecedenceLadder.LadderIsExact | src/dachs/parser/parser.cpp:784-905 | over a chain without such a newline, the ladder returns a tree exactly if it reads the chain and respects levels and left association |
| PrecedenceLadder.RespectingTreeIsUnique | src/dachs/parser/parser.cpp:784-905 | two trees that respect levels and left association and read the same are the same |
| PrecedenceLadder.ParseMeaning | src/dachs/parser/parser.cpp:784-905 | each rule takes the longest prefix of its own and tighter operators |
| PrecedenceLadder.RootPosition | src/dachs/parser/parser.cpp:784-905 | the root is the last of the loosest operators |
| PrecedenceLadder.ParseRule | src/dachs/parser/parser.cpp:784-905 | the repetition that assigns the value anew folds to the left as specified |
| PrecedenceLadder.TwoOperators | src/dachs/parser/parser.cpp:784-905 | of two operators, by the rules that list them, the first is applied first unless the rule of the second is a tighter one |
| PrecedenceLadder.NewlineStopsSigns | src/dachs/parser/parser.cpp:795-811 | an operator at the start of a line continues the expression unless it is `+` or `-` |
| PrecedenceLadder.LevelsFollowRules | src/dachs/parser/parser.cpp:784-905 | the operators of each level are those that its rule lists |
| ImportTheorems.ImportIsClosure | src/dachs/parser/importer.cpp:169-188 | on success the imported files are exactly those reachable from the root, each once and never the root, however circular the imports |
| ImportTheorems.ImportSucceedsExactly | src/dachs/parser/importer.cpp:139-188 | importing succeeds exactly when every import of every reachable file can be found, read and parsed |
| ImportTheorems.ImportConserves | src/dachs/parser/importer.cpp:62-84 | the merged program has the definitions of the importing program and, behind them and in the order of the files, those of every imported file; each function occurs as often as in the files, except that no imported function named `main` does |
| ImportTheorems.FilterKeepsOrder | src/dachs/parser/importer.cpp:77-81 | of the functions of a file exactly those not named `main` are kept, each behind as many of the others as before |
| ImportTheorems.FilterKeepsMultiplicity | src/dachs/parser/importer.cpp:77-81 | a function is kept as often as it occurs, unless its name is `main` |
| ImportTheorems.FollowExplores | src/dachs/parser/importer.cpp:169-188 | a walk from any visited set adds exactly unvisited files and leaves nothing behind unfollowed |
| Importer.ImporterImpl.Import | src/dachs/parser/importer.cpp:169-188 | the walk with its visited set and its merging computes the specified program and order, or fails |
| ImportResolver.ResolutionIsComplete | next/compiler/syntax/import.go:163-181 | on success the cached files are exactly the root and those that a chain of imports leads to, each parsed once, and every program has exactly one module for each import, in order, with the names that the import asks for and pointing at the cached program of its file |
| ImportResolver.ResolutionSucceedsExactly | next/compiler/syntax/import.go:51-99 | resolution succeeds exactly when every import of the root and of every reachable file means another file that can be read and parsed or is the root |
| ImportResolver.CachedIsImported | next/compiler/syntax/import.go:84-95 | only files that a chain of imports leads to are cached |
| ImportResolver.ResolveAchieves | next/compiler/syntax/import.go:51-99 | resolution from import k on completes the program and all programs it parses, and leaves the others as they are |
| ImportResolver.ChainIsCached | next/compiler/syntax/import.go:84-95 | a file at the end of any chain of imports is in the cache |
| ImportResolver.TextsStay | next/compiler/syntax/import.go:75-95 | each new program is the parse of its file |
| ImportResolver.Resolver.Resolve | next/compiler/syntax/import.go:132-181 | the loop with the cache filled before recursion succeeds as specified and reaches the specified cache and programs; it terminates on cycles |
| BlockPromotion.PromotionSucceedsExactly | next/compiler/syntax/block_expr.go:99-132 | a block is promoted exactly when it ends, through every branch, in an expression |
| BlockPromotion.PromotionReportsFirst | next/compiler/syntax/block_expr.go:26-132 | a failed promotion reports the first block, in the order of the source, that should end in a value and is empty or ends in a statement without one |
| BlockPromotion.PromotionPreserves | next/compiler/syntax/block_expr.go:99-132 | the expression has the effects of the block, jumps included, and the value of its last expression |
| BlockPromotion.StmtPromotionPreserves | next/compiler/syntax/block_expr.go:99-112 | the same for the promoted statement |
| BlockPromotion.CasesPreserve | next/compiler/syntax/block_expr.go:46-70 | from case i on, the promoted switch chooses and runs the same branch |
| BlockPromotion.ArmsPreserve | next/compiler/syntax/block_expr.go:72-97 | from arm i on, the promoted match chooses and runs the same branch |
| BlockPromotion.DemotionRestoresExactly | next/compiler/syntax/block_expr.go:26-132 | demoting the result gives the original statements exactly when no expression statement wraps a promoted form |
| BlockPromotion.PromoteBlock | next/compiler/syntax/block_expr.go:114-132 | the recursion over blocks computes the specified expression or error |
| BlockPromotion.PromoteIf | next/compiler/syntax/block_expr.go:26-44 | both branches are promoted, the first failure being reported |
| BlockPromotion.PromoteSwitch | next/compiler/syntax/block_expr.go:46-70 | the loop over the cases computes the specified branches or the first error |
| BlockPromotion.PromoteMatch | next/compiler/syntax/block_expr.go:72-97 | the loop over the arms computes the specified branches or the first error |
| TypeTheorems.EqualIsSymmetric | src/dachs/semantics/type.hpp:306-670 | equality of types is symmetric |
| TypeTheorems.EqualIsTransitive | src/dachs/semantics/type.hpp:306-670 | equal types are equal to the same types, members of classes that are templates on both sides being skipped |
| TypeTheorems.EqualIsReflexiveExactly | src/dachs/semantics/type.cpp:556-585 | a type equals itself exactly when its only templates are direct members of classes and its classes have matching parameters |
| TypeTheorems.EqualIsReflexive | src/dachs/semantics/type.cpp:386-398 | a type without templates equals itself |
| TypeTheorems.EqualIsIdentity | src/dachs/semantics/type.hpp:306-670 | types without templates are equal exactly when they are identical with each class given by its name and members and the mark of a callable template left out |
| TypeTheorems.FuzzyIsReflexiveExactly | src/dachs/semantics/type.cpp:729-840 | a type matches itself exactly when nothing in it is empty and its classes have matching parameters |
| TypeTheorems.FuzzyIsSymmetric | src/dachs/semantics/type.cpp:729-840 | the fuzzy match is symmetric |
| TypeTheorems.EqualMatchesExactly | src/dachs/semantics/type.cpp:729-840 | equal types match exactly when nothing in them is empty |
| TypeTheorems.ConcreteMatchIsEquality | src/dachs/semantics/type.cpp:729-840 | without templates, types match exactly when they are equal and nothing in them is empty |
| TypeTheorems.FuzzyMeansCommonInstance | src/dachs/semantics/type.cpp:836-840 | two known types match exactly when some type without templates is an instance of both |
| TypeTheorems.FuzzyIsTransitiveExactly | src/dachs/semantics/type.cpp:729-840 | matching through a type in the middle is transitive exactly when that type is rigid, which for a type without empty parts means that it has no template |
| TypeTheorems.EqualToConcreteIsNoTemplate | src/dachs/semantics/type.cpp:405-418 | what equals a type without templates is no template, so instantiation and equality exclude each other |
| TypeTheorems.InstantiationIsInstance | src/dachs/semantics/type.cpp:210-303 | where no tuples or functions face each other, and array sizes and member counts agree, a concrete argument is instantiated from a parameter exactly when that is a class, array or pointer template and the argument is an instance of it |
| TypeTheorems.TemplateHoldsTemplate | src/dachs/semantics/type.cpp:405-418 | a type composed of classes, arrays, pointers and builtin types is a template exactly when there is a template somewhere in it |
| TypeRelations.Fill | src/dachs/semantics/type.cpp:55-71 | parameters fill the template members in order, which works exactly when there are as many of them |
| TypeRelations.FillsInOrder | src/dachs/semantics/type.cpp:55-71 | the k-th template among the members gets the k-th parameter |
| TypeRelations.InstanceVarTypesOf | src/dachs/semantics/type.cpp:42-73 | the loop with the advancing iterator computes the specified members or none |
| TypeRelations.TypeEquals | src/dachs/semantics/type.cpp:386-398 | the recursion over both types decides equality |
| TypeRelations.ClassEquals | src/dachs/semantics/type.cpp:556-585 | the early-exit loop over members decides equality of classes |
| TypeRelations.FuzzyMatch | src/dachs/semantics/type.cpp:729-840 | the recursion over both types decides the fuzzy match |
| TypeRelations.FuzzyMatchAll | src/dachs/semantics/type.cpp:738-745 | the early-exit comparison decides whether two lists match pairwise |
| Overloads.GenerateOverloadSet | src/dachs/semantics/scope.cpp:262-284 | the running maximum and the two narrowing passes give exactly the eligible candidates that no eligible candidate beats lexicographically, for any order of declaration |
| Overloads.FirstOverloadSet | src/dachs/semantics/scope.cpp:209-244 | the running maximum and the erasure leave exactly the eligible candidates of highest product |
| Overloads.NarrowDownScoreBy | src/dachs/semantics/scope.cpp:246-260 | exactly the candidates with the maximum of one component are left, and at least one |
| Overloads.NarrowedIsBest | src/dachs/semantics/scope.cpp:262-284 | three maxima one after the other are the one lexicographic maximum |
| Overloads.OverloadedFunctionScore | src/dachs/semantics/scope.cpp:180-207 | the loop over the parameters computes the product modulo 2^64 and the two sums |
| Overloads.CalculateDepths | src/dachs/semantics/scope.cpp:73-109 | the running maximum is one more than the deepest of the parameters |
| Overloads.Deepest | src/dachs/semantics/scope.cpp:73-109 | the deepest of a list of types bounds all of them and is reached by one |
| OverloadTheorems.ProductIsExact | src/dachs/semantics/scope.cpp:180-207 | up to 40 parameters the 64-bit product is the product |
| OverloadTheorems.EligibleExactly | src/dachs/semantics/scope.cpp:220-228 | a candidate of the right name and arity counts exactly when every parameter matches and fewer than 64 match as instances |
| OverloadTheorems.DominatedCandidateLoses | src/dachs/semantics/scope.cpp:262-284 | up to 40 parameters, a candidate at least as good everywhere and better somewhere shuts the other out |
| OverloadTheorems.DominatingCandidateWins | src/dachs/semantics/scope.cpp:262-284 | a candidate that dominates all others is the whole result |
| OverloadTheorems.StrongerMatchWins | src/dachs/semantics/scope.cpp:122-178 | of two candidates that differ in one parameter the stronger match wins: a perfect one before a class template, the deeper of these first, before a parameter without a type |
| OverloadTheorems.DominationAddsUp | src/dachs/semantics/scope.cpp:180-207 | domination parameter by parameter carries over to the lexicographic order of scores |
| OverloadTheorems.DominationDecidesExactly | src/dachs/semantics/scope.cpp:180-284 | for arities up to 40, and for no others, the better of two matching candidates never loses to the other |
| OverloadTheorems.DominationFailsBeyond40 | src/dachs/semantics/scope.cpp:180-207 | for every arity above 40 there are two matching candidates of which the better one loses |
| OverloadTheorems.DepthExceedsIntentExactly | src/dachs/semantics/scope.cpp:68-117 | for every type, the depth is one more than the case for templates asks for exactly when all deepest paths into the type end in templates, and else the same |
| OverloadTheorems.ScoreExceedsIntentExactly | src/dachs/semantics/scope.cpp:180-207 | a score differs from the intended one in its depth only, by one for each parameter that matches as an instance and whose deepest paths end in templates |
| OverloadTheorems.EqualExcessKeepsIntent | src/dachs/semantics/scope.cpp:262-284 | the result is the intended one if all eligible candidates have equally many such parameters |
| OverloadTheorems.PointersTie | src/dachs/semantics/scope.cpp:105-109 | a pointer without a pointee ties with a pointer to a class template, which alone is meant to be picked |
| OverloadTheorems.PerfectMatchWins | src/dachs/semantics/scope.cpp:122-178 | with arguments free of templates, a perfect match is in the result and everything else there has the same signature |
| OverloadTheorems.PerfectsAgree | src/dachs/semantics/scope.cpp:402-433 | candidates that match the arguments perfectly are duplicates under the equality of function scopes |

## Left out

- Code generation proper: LLVM, object emission, linking, garbage-collector calls, debug output. Values and
  comparisons are opaque in the lowering.
- `emit_skipper`, and with it expressions that contain `ret`; values of `if` and `switch` expressions, which
  need phi nodes; `for` over ranges, which stores and branches behind a body whether or not it is closed.
- `LoweringMeaning.CheckedFunctionNeverTraps`: the location that the checker reports for a rejected body is
  not modelled.
- `ClosureMeaning.FunctionConversionPreserves`: captures are read and not assigned, and template lambdas are not
  modelled; with a missed capture it is not said which runs get stuck.
- `LambdaResolver.ResolveLambdas`: the original rewrites the nodes of the tree in place; here a new tree is
  returned, so sharing of nodes between two parents is not modelled.
- `DeepCopy.DeepCopyIsolates`: copiers written by the user, zero initialization and fields
  of function type are not modelled, and class tables are acyclic.
- Failed copies: what was emitted before a copy turned out to be impossible is discarded.
- `Lexer.Machine.Lex`: the source is valid UTF-8, so `forward` never reports an invalid rune, and the classes
  `unicode.IsLetter` and `unicode.IsSpace` outside ASCII are a parameter and the listed spaces; the text of a
  token is cut out by runes and not by bytes.
- `TokenChannel.HandshakeIsSafeAndLive`: the channel is unbuffered and has one reader, as in `Driver.Lex`; the
  parser as a reader is not modelled.
- `TokenChannel.DriverLex`: runs the lexer to its end before the reading loop; interleavings are the subject of
  `TokenChannel.HandshakeIsSafeAndLive` only.
- `PrecedenceLadder.LadderMeaning`: casts, unary and postfix operators are operands here, and `range_expr` and
  `if_expr` above the ladder are not modelled.
- `Importer.ImporterImpl.Import`: the search for a file is a map from the import text to a path, as it starts
  from the root file whichever file imports; what is left in the program when an import throws is not stated.
- `ImportResolver.Resolver.Resolve`: there is one library path, and the path arithmetic of relative imports is a
  parameter; the half-resolved programs left in the cache when an import fails are not stated.
- `BlockPromotion.PromotionPreserves`: conditions and patterns are opaque, and statements other than the last
  ones are opaque actions that end or jump.
- `TypeRelations.FuzzyMatch`: the qualifier of a qualified type is left out, because it has one value and is
  never compared; class scopes are values, so class tables are acyclic.
- `TypeRelations.IsInstantiatedFrom`: pairs of lists of different length are cut to the shorter one, where the
  original zips past the end. On tuples and functions it asks for one matching pair only, so
  `TypeTheorems.InstantiationIsInstance` leaves them out.
- `Overloads.OverloadedFunctionScore`: sums of perfect matches and of template depths have no width, since no
  program reaches their limit.
- Cast functions, constructors, class-template inference, const checking, tuple comparison: many cases with
  little to say about each.
- The grammars outside the binary operators, AST printing and copying, command line, logging, file input.
