# Proofs about the bignums and the Forth compiler of NewFactor

This project models three parts of the repository and proves what they are meant to guarantee.

- **Bignums** (`vm-build/vm/bignum.cpp`): signed magnitude numbers as arrays of 64-bit digits in radix
  2^62, worked on in place with 31-bit halves.  Digits have a 64-bit type, so every proof includes that no
  intermediate overflows.  Multiplication, Algorithm D, shifts, two's-complement operations, conversions and
  gcd are proved against integer arithmetic.  Modules `Digits`, `Bignums`, `Additive`, `Multiply`,
  `DigitDivide`, `LongDivide`, `Division`, `Gcd`, `Fixnum`, `Bits`, `Bitwise`, `Shift`.
- **The compiler's middle end**: a semantics of Forth bodies with fuel (`Forth`), the desugarings of
  `?DUP IF` and `RECURSE`, the removal of `EXIT`, emission into Factor quotations with their own semantics
  (`Factor`), inference of stack effects, and the analysis that turns variables into globals.  Each pass is
  proved to preserve runs; `Compiler.CompilerCorrect` and `Compiler.GlobalsCorrect` compose them.  What the
  Factor runtime does differently is part of the semantics: EXIT restores the stack, a definition whose locals all
  stand inside its body binds its inputs on entry (`Runtimes`), and a quotation ends the scope of its locals
  (`Scopes`).  In front of it, the parser, the reader of integers and the expansion of `NEEDS`.
- **The session hand-off** (`src/session.rs`) as a transition system of host, dispatcher and listener.

Fuel bounds the turns of a loop and the depth of calls and nothing else, so the passes are shown to keep
every run, and every timeout, at the same fuel; `Compiler.CompiledEnds` says the same of runs that end,
without fuel.  A stack item is a number, an address or the token of a ticked word.  Builtins are arbitrary
functions of the stack and the rest of the world; where a property needs something of them, the property says
what.

`dafny verify dfyconfig.toml` checks the project with the options that the file sets.

## What the proofs found

- The add-back in the two-by-one digit division is never reached, so the wrong constant added there (the radix
  instead of its root) does no harm (`DigitDivide.DigitDivideSubtract`, `DigitDivide.BddStep`).
- The exclusive-or of numbers of opposite sign is zero when its magnitude needs one digit more than is
  allotted (`Bitwise.BignumBitwiseXor`).
- Lowering `EXIT` inside a `CASE` is right only if nothing runs after it and its default holds no `EXIT`
  (`LowerExitLimits`).
- The comment in `src/compiler/lower_exit.rs` speaks of correctness for `EXIT` in loops by the `with-return`
  wrap; the runtime restores the data stack there, which `factor/forth/runtime/runtime.factor:275-283`
  describes, so such an `EXIT` agrees with the standard only if the stack is level.  `Exits` decides this from
  inferred effects; after straight-line code the condition is exact (`ExitMeaning.LoopExitExactly`).
- An `EXIT` in a match expression leaks into the caller, exactly if the definition has no other
  (`Returns.LeakExactly`).
- A match expression that uses the selector is run on a copy of it, and means something else then
  (`EmitMatch.MatchExactly`, `EmitMatch.DropMatchExample`); the inferred effect is that of the emitted code
  (`EmitSound.SoundQ`) and can be wrong under the standard (`EffectLimits.CaseExactly`).
- Emitted code uses bare words, which locals hide: `f`, `dup`, `drop` and `=`, but also `neg`, `/i` and `bitand`
  for `NEGATE`, `/` and `AND`, `z-w` for the word `W`, and `+` for `+!` on a narrow variable; and a local with a
  dot is bound under another name than it is read by (`EmitLimits.EmissionExactly`).  The words `->` and `arrow`
  are written alike (`Emit.MangleExactly`).
- A definition with locals in the middle of its body only binds its declared inputs as locals, too: two inputs of
  one name, as `( n n -- )`, start it with a wrong stack (`Preamble.PreambleExactly`), an input hides words as a
  local does, so that a WHILE behind an input called `f` never ends (`EmitInputs.FalseInputHangs`), and a call
  needs all inputs that are declared, used or not (`EmitInputs.ShallowExactly`).
- A local bound inside a branch or a loop is gone behind it in emitted code, where the standard keeps it
  (`ScopeLimits.BranchExactly`).
- A builtin that sees the whole stack, as DEPTH does, sees a copy of the selector in a match expression
  (`EmitMatch.DepthMatchExample`).
- Removing `EXIT` can put `?DUP` before an `IF` again, after the pass that desugars the pair
  (`PipelineComplete.PairFromTail`).
- A WHILE whose test ends in a literal zero never runs its body, whose inputs are inferred all the same
  (`EffectTight.WhileExactly`).
- A `+LOOP` that counts down ends after its first turn if it starts above its limit, and never if it does not
  (`CountedLoops.DownExactly`): the runtime tests for `>=`, where section 6.1.0140 of
  ANS X3.215-1994 asks whether the boundary below the limit is crossed.
- A comment between a tick or `TO` and its name is a syntax error (`ParseComments.GapExactly`).
- Inferred effects are wrong for `+LOOP`, for `UNTIL` bodies that leave more than the flag, and for some
  definitions with parameters (`EffectLimits`).
- `C@` and `C!` on a narrow variable fetch and store the whole value (`GlobalsLimits.FetchByteExactly`,
  `GlobalsLimits.StoreByteExactly`).  A local called like a narrow variable, or anything called like a sink, is
  passed over by the replacement (`GlobalsLimits.ClearExactly`), and a ticked variable can be narrow
  (`GlobalsLimits.TickedVariable`).
- A text with a NUL stops the session for good (`Session.NulStops`).
- The comment of `parse_block_until` calls `:` and `;` hard stops; the code stops at `;` only, and the model
  follows the code.

## Model

| member | source | states |
|---|---|---|
| Digits.NormalUnique | vm-build/vm/bignumint.hpp:64-80 | two normal digit arrays with the same integer value are the same array, sign word included |
| Bits.HdConsIsOr | vm-build/vm/bignumint.hpp:88-90 | joining two half digits by a shift and an or is the sum with which every digit proof computes |
| Digits.VUnique | vm-build/vm/bignumint.hpp:64-71 | a magnitude has one digit expansion of a given length |
| Bignums.BignumEqualP | vm-build/vm/bignum.cpp:55-62 | the answer is exactly integer equality |
| Bignums.BignumCompare | vm-build/vm/bignum.cpp:64-77 | the answer is the ordering of the two integers, for all sign pairs |
| Bignums.BignumCompareUnsigned | vm-build/vm/bignum.cpp:523-545 | the answer is the ordering of the two magnitudes |
| Bignums.BignumTrim | vm-build/vm/bignum.cpp:1323-1336 | drops exactly the leading zero digits: same integer, normal form, zero never negative |
| Bignums.BignumNewSign | vm-build/vm/bignum.cpp:1341-1346 | same magnitude, the given sign, a fresh array |
| Additive.BignumAddUnsigned | vm-build/vm/bignum.cpp:550-601 | the result is normal and its magnitude is the sum; a carry out of the top gets its own digit |
| Additive.BignumSubtractUnsigned | vm-build/vm/bignum.cpp:606-665 | the result is normal and is the signed difference of the magnitudes, zero without sign |
| Additive.NoBorrow | vm-build/vm/bignum.cpp:635-664 | subtracting the smaller magnitude leaves no borrow at the top |
| Additive.BignumAdd | vm-build/vm/bignum.cpp:80-89 | the result is normal and is the integer sum for every sign pair |
| Additive.BignumSubtract | vm-build/vm/bignum.cpp:92-105 | the result is normal and is the integer difference for every sign pair |
| Multiply.StepIdentity | vm-build/vm/bignum.cpp:676-724 | the two half products and the carry stay below the stated maxima, and the digit and carry out of the step are those of r + x*y + c |
| Multiply.MultiplyStep | vm-build/vm/bignum.cpp:700-724 | one inner step in 64-bit integers, without overflow: digit + carry*radix = r + x*y + carry in |
| Multiply.NextRow | vm-build/vm/bignum.cpp:693-728 | one more row: the digits hold the product with one digit more, and its last carry is stored where a zero was |
| Multiply.MultiplyRows | vm-build/vm/bignum.cpp:674-731 | after all rows the digits hold the full product of the two operands |
| Multiply.BignumMultiplyUnsigned | vm-build/vm/bignum.cpp:674-731 | the result is normal and its magnitude is exactly the product of the magnitudes |
| Multiply.DestructiveScaleUp | vm-build/vm/bignum.cpp:768-791 | multiplies the digits in place by a half digit, given a zero top digit |
| Multiply.BignumMultiplyUnsignedSmallFactor | vm-build/vm/bignum.cpp:734-747 | the product with a half digit, with the given sign |
| Multiply.BignumMultiply | vm-build/vm/bignum.cpp:158-189 | the result is normal and is the integer product, through every dispatch path |
| DigitDivide.Guess | vm-build/vm/bignum.cpp:1102-1120 | the corrected half-digit guess is exact: the guess times the divisor is at most the three half digits, and less than one divisor below them |
| DigitDivide.DigitDivideSubtract | vm-build/vm/bignum.cpp:1183-1211 | quotient and remainder of three half digits; the add-back leaves the radix in the top half digit instead of zero, and is needed exactly if the guess is one too large |
| DigitDivide.BddStep | vm-build/vm/bignum.cpp:1102-1120 | one half-digit step leaves the remainder below the divisor, top half digit zero: the add-back never happens |
| DigitDivide.BignumDigitDivide | vm-build/vm/bignum.cpp:1122-1154 | exact quotient and remainder of two digits by a normalised digit, every intermediate inside signed 64 bits |
| LongDivide.TrialDigit | vm-build/vm/bignum.cpp:896-930 | the trial digit from the two leading divisor digits satisfies the bounds of Algorithm D |
| LongDivide.TrialIsClose | vm-build/vm/bignum.cpp:896-930 | a trial digit that is right for three by two leading digits is never too small and at most one too large for the whole window |
| LongDivide.GuessDigit | vm-build/vm/bignum.cpp:885-935 | every guess of the digit loop is at most one too large and never too small |
| LongDivide.BignumDivideSubtract | vm-build/vm/bignum.cpp:943-1008 | multiply, subtract and at most one add-back in place: the window becomes its remainder, all other digits stay, and the digit returned is the exact one |
| LongDivide.SettleWindow | vm-build/vm/bignum.cpp:975-1008 | the window is settled by one add-back exactly if the subtraction borrowed out of the top |
| LongDivide.QuotientDigit | vm-build/vm/bignum.cpp:885-935 | one turn of the digit loop: window = divisor times digit plus remainder, remainder below the divisor |
| LongDivide.BignumDivideUnsignedNormalized | vm-build/vm/bignum.cpp:874-941 | for every numerator window and normalised divisor: u = q*v + r, 0 <= r < v, all digits in range, the digits of q stored in order |
| Division.DestructiveScaleDown | vm-build/vm/bignum.cpp:1241-1260 | divides the digits in place by a half digit and returns the exact remainder |
| Division.DivideUnsignedSmallDenominator | vm-build/vm/bignum.cpp:1217-1235 | quotient and remainder by a half digit, normal, with the given signs |
| Division.RemainderUnsignedSmallDenominator | vm-build/vm/bignum.cpp:1263-1277 | the remainder by a half digit, with the given sign |
| Division.DestructiveNormalization | vm-build/vm/bignum.cpp:1059-1079 | the target holds the source shifted left; nothing is lost when it fits |
| Division.DestructiveUnnormalization | vm-build/vm/bignum.cpp:1081-1096 | undoes the normalising shift exactly, given that the value is a multiple of it |
| Division.ScaledDivision | vm-build/vm/bignum.cpp:801-872 | dividing scaled numbers gives the true quotient and the scaled remainder, so that normalising and unnormalising cancel |
| Division.DivideUnsignedMediumDenominator | vm-build/vm/bignum.cpp:1011-1057 | quotient and remainder by one digit of any size |
| Division.DivideUnsignedLargeDenominator | vm-build/vm/bignum.cpp:801-872 | quotient and remainder by two or more digits, whichever of the two is asked for |
| Division.TruncatedDivision | vm-build/vm/bignum.cpp:192-321 | q and r are the results if and only if n = q*d + r, r is smaller than d in magnitude, and r is zero or has the sign of n |
| Division.QuotRemTruncated | vm-build/vm/bignum.cpp:192-321 | the results satisfy that specification for all n and d other than zero |
| Division.BignumDivide | vm-build/vm/bignum.cpp:192-244 | both results are normal and are truncated quotient and remainder on every path; zero denominators are reported |
| Division.BignumQuotient | vm-build/vm/bignum.cpp:247-285 | the truncated quotient on every path; zero denominators are reported |
| Division.BignumRemainder | vm-build/vm/bignum.cpp:288-321 | the remainder with the sign of the numerator on every path; zero denominators are reported |
| Gcd.GcdStep | vm-build/vm/bignum.cpp:1756-1763 | a pair and its successor in the loop have the same greatest common divisors |
| Gcd.BignumGcd | vm-build/vm/bignum.cpp:1742-1764 | terminates with the non-negative greatest common divisor of any two integers, zero included |
| Fixnum.FixnumToBignum | vm-build/vm/bignum.cpp:326-361 | every 64-bit integer, the smallest one included, becomes a normal bignum of the same value |
| Fixnum.BignumToFixnum | vm-build/vm/bignum.cpp:409-431 | the low 64 bits of the integer, as a signed number |
| Fixnum.BignumFitsFixnumP | vm-build/vm/bignum.cpp:433-442 | true exactly if the integer is within the fixnum range |
| Fixnum.BignumToFixnumStrict | vm-build/vm/bignum.cpp:451-459 | the fixnum if it fits, and the out-of-range error otherwise |
| Fixnum.RoundTrip | vm-build/vm/bignum.cpp:326-431 | converting any 64-bit integer to a bignum and back gives it back |
| Bits.BitsDetermine | vm-build/vm/bignum.cpp:1369-1694 | an integer is determined by the bits of its infinite two's complement |
| Bits.NotBits | vm-build/vm/bignum.cpp:1369-1418 | -x - 1 has every bit of x inverted |
| Bits.PatternOp | vm-build/vm/bignum.cpp:1562-1669 | combining patterns modulo a power of two and restoring the sign is the bitwise operation on infinite two's complement |
| Bitwise.BignumBitwiseNot | vm-build/vm/bignum.cpp:1369-1418 | the result is normal and is -x - 1, with a new digit exactly when the carry needs one |
| Bitwise.BitwiseOp | vm-build/vm/bignum.cpp:1527-1669 | for every pair of signs the result is the infinite two's-complement operation, unless the exclusive-or overflows the digits allotted |
| Bitwise.BignumBitwiseAnd | vm-build/vm/bignum.cpp:1434-1441 | conjunction of the infinite two's complements, for all operands |
| Bitwise.BignumBitwiseIor | vm-build/vm/bignum.cpp:1444-1451 | disjunction of the infinite two's complements, for all operands |
| Bitwise.BignumBitwiseXor | vm-build/vm/bignum.cpp:1454-1461 | exclusive-or of the infinite two's complements if and only if the allotted digits can hold the negated magnitude; otherwise the result is zero |
| Bitwise.ZeroIsWrong | vm-build/vm/bignum.cpp:1562-1610 | zero is not the exclusive-or of numbers of opposite sign |
| Bitwise.XorOverflowExample | vm-build/vm/bignum.cpp:1562-1610 | a concrete pair on which the exclusive-or overflows: the largest two-digit number and -1 |
| Shift.BignumMagnitudeAsh | vm-build/vm/bignum.cpp:1466-1524 | the magnitude times two to the n, or its quotient by it, with the sign kept |
| Shift.BignumArithmeticShift | vm-build/vm/bignum.cpp:1421-1427 | the floor of x times two to the n, for every x and n |
| Shift.ShiftRoundTrip | vm-build/vm/bignum.cpp:1421-1427 | shifting left and back is the identity; shifting right and back loses less than two to the n |
| LowerExit.LowerSeqLoop | src/compiler/lower_exit.rs:93-207 | the early-returning loop computes the lowered body and its terminates flag |
| LowerExitMeaning.LowerPreserves | src/compiler/lower_exit.rs:83-207 | for every body whose exiting CASEs end the definition, every machine, state and fuel: the lowered body ends as the original does under EXIT-returns-now, loops that hold EXIT included |
| LowerExitMeaning.SeqExact | src/compiler/lower_exit.rs:93-207 | if no EXIT is stripped the runs are identical, even in whether they end by EXIT |
| LowerExitMeaning.InertTail | src/compiler/lower_exit.rs:93-101 | code behind an EXIT contributes nothing to the lowered body |
| LowerExitMeaning.LowerProgramPreserves | src/compiler/sema.rs:300-304 | lowering all definitions of a program changes no run of any body, calls of any depth included |
| LowerExitLimits.CaseTailExactly | src/compiler/lower_exit.rs:136-190 | a CASE without default that holds EXIT is lowered rightly on every machine if and only if nothing of the straight-line code after it runs |
| LowerExitLimits.CaseDefaultExactly | src/compiler/lower_exit.rs:136-190 | with a straight-line default the lowering is right on every machine if and only if the default holds no EXIT |
| LowerExitLimits.CaseTailExample | src/compiler/lower_exit.rs:136-190 | 1 OF EXIT ENDOF ENDCASE 7 on the selector 5: seven originally, five after lowering |
| LowerExitNormal.LowerSettles | src/compiler/lower_exit.rs:93-207 | the result is in normal form: a branch or CASE that still holds EXIT is last in its body, at every depth |
| LowerExitNormal.SettledStripped | src/compiler/lower_exit.rs:71-86 | in normal form the only EXITs are in loops and match expressions |
| LowerExitNormal.FixedIffSettled | src/compiler/lower_exit.rs:93-207 | a body is unchanged by lowering if and only if it is in normal form |
| LowerExitNormal.LowerTwice | src/compiler/emit.rs:1236-1241 | a second lowering changes nothing |
| LowerExitNormal.CleanLosesExit | src/compiler/lower_exit.rs:93-207 | if no loop and no match expression holds EXIT, no EXIT at all is left, at any depth |
| LowerExitNormal.TerminatesConcat | src/compiler/lower_exit.rs:88-207 | a concatenation has the flag if and only if one of its parts does |
| LowerExitNormal.TerminatesExactly | src/compiler/lower_exit.rs:88-207 | the flag is set if and only if every path through the body meets an EXIT outside loops and match expressions |
| LowerExitNormal.TerminatesNeverFalls | src/compiler/lower_exit.rs:88-207 | if the flag is set no run of the original falls off its end |
| LowerQdup.LowerSeq | src/compiler/lower_qdup.rs:120-169 | the look-ahead loop computes the desugared body |
| LowerQdup.QdupPreserves | src/compiler/lower_qdup.rs:120-214 | the desugared body runs exactly like the original at every nesting depth |
| LowerQdup.QdupExactly | src/compiler/lower_qdup.rs:120-176 | the desugaring is right for every body and machine if and only if neither dup, drop nor ?dup is hidden by a local or a definition |
| LowerQdup.QdupLeavesNoPair | src/compiler/lower_qdup.rs:120-169 | no ?dup is left immediately before an IF, at any depth |
| LowerRecurse.LowerProgram | src/compiler/lower_recurse.rs:62-87 | every definition keeps its name, scope and declaration; its body does not say RECURSE any more, unless the definition has that name, and runs as before on every machine where neither name is hidden; reported are, by their places in order, exactly the definitions that said RECURSE and declare no effect |
| LowerRecurse.RewriteDef | src/compiler/lower_recurse.rs:78-87 | one definition is rewritten in place and nothing else is touched; the flag tells whether it said RECURSE |
| LowerRecurse.NothingMissing | src/compiler/lower_recurse.rs:62-76 | nothing is reported if and only if every definition that uses RECURSE declares its effect |
| LowerRecurse.RecursePreserves | src/compiler/lower_recurse.rs:89-138 | binding RECURSE to the definition's name leaves every run as it was |
| LowerRecurse.RecurseExactly | src/compiler/lower_recurse.rs:89-100 | it is right for every body and machine if and only if no local hides either name and no definition is called recurse |
| LowerRecurse.RecurseLeavesNone | src/compiler/lower_recurse.rs:89-138 | no RECURSE is left, unless the definition has that name |
| RecurseGone.SawExactly | src/compiler/lower_recurse.rs:89-138 | the flag is set if and only if the pass changes the body |
| RecurseGone.SelfIgnored | src/compiler/lower_recurse.rs:89-138 | a body in which the flag is not set runs alike in every definition: nothing in it means the definition it stands in |
| RecurseGone.RewrittenAnywhere | src/compiler/lower_recurse.rs:89-138 | the rewritten body does anywhere what the original does in its own definition |
| Pipeline.CompileBodyPreserves | src/compiler/sema.rs:244-304 | one body through all three passes in their order ends as before |
| Pipeline.CompilePreserves | src/compiler/sema.rs:244-304 | a whole program through all three passes: every run of every body is unchanged |
| Pipeline.DesugarComplete | src/compiler/sema.rs:244-260 | after both desugarings there is no ?dup before an IF and no RECURSE |
| Pipeline.PairComesBack | src/compiler/sema.rs:244-260 | in a definition called ?dup the pair comes back |
| PipelineComplete.LowerProgramSettles | src/compiler/sema.rs:300-304 | lowering all definitions changes bodies only, leaves each of them in normal form, and has no more to do afterwards |
| PipelineComplete.CompiledComplete | src/compiler/sema.rs:244-304 | every definition goes through all passes and keeps everything but its body, which ends in normal form, without RECURSE, and without ?dup before an IF where no EXIT had to be removed |
| PipelineComplete.PairFromTail | src/compiler/sema.rs:244-304 | IF ?DUP ELSE EXIT THEN IF THEN has no ?dup before an IF, and gets one when the tail is inlined |
| Emit.EmitExprs | src/compiler/emit.rs:1446-1512 | the loop emits the whole quotation, a narrow variable and the sink behind it in one step |
| Emit.MangleExactly | src/compiler/resolve.rs:946-954 | two words of a program are written alike if and only if they are the same or one is a replaced token and the other its replacement |
| Emit.SanitizedExactly | src/compiler/emit.rs:1775-1790 | a local is bound under the name by which it is referred to if and only if that name has no dot |
| EmitSim.SimSeq | src/compiler/emit.rs:1514-1792 | with one frame of locals for each word the emitted quotation has the same outcome, stack, locals and world as the body on the Factor runtime, for every state and fuel; builtins that see the whole stack are barred from match expressions only |
| EmitSim.SimArms | src/compiler/emit.rs:1798-1824 | the chain of tests on copies of the selector is CASE |
| EmitSim.SimBody | src/compiler/emit.rs:1242-1249 | a body with a surviving EXIT, wrapped in with-return, ends a call as EXIT does on the runtime |
| EmitSim.SimStart | src/compiler/emit.rs:1356-1427 | an emitted definition starts as a call does: it binds its parameters, or, where all its locals stand inside the body, binds its inputs and pushes them back, and underflows alike |
| EmitSim.SimCall | src/compiler/emit.rs:1111-1249 | calling any emitted definition does what the call does, preamble and with-return included |
| EmitSim.SimBinds | src/compiler/emit.rs:1775-1790 | binding names from the rightmost is binding them to the top of the stack |
| EmitSim.MatchRuns | src/compiler/emit.rs:1798-1824 | a match expression with inferred effect ( -- x ), or one that copies the selector and works on the copy, does on any stack what it does on the selector alone, if neither it nor a word it calls reaches a builtin that sees the whole stack |
| Frame.FrameSeq | src/compiler/resolve.rs:146 | a body that reaches no builtin that sees the whole stack, as DEPTH and .S do, and does not underflow, runs the same way on top of anything |
| Exits.SeqNeverExits | src/compiler/lower_exit.rs:223-244 | a body that holds no EXIT never exits, whatever it calls: a fact about its structure alone |
| Exits.EvenLevel | factor/forth/runtime/runtime.factor:275-283 | a body that the height analysis accepts exits only with the stack it was entered with |
| Runtimes.RestoringAgrees | src/compiler/emit.rs:1242-1249 | if the height analysis accepts every body, a run on the Factor runtime is the run under the standard, unless a call finds fewer items than the inputs it binds on entry, or an unbound local is read that has the name of such an input |
| Runtimes.SeqAgree | src/compiler/emit.rs:1356-1427 | inputs bound on entry are further locals that change no run which reads bound locals only |
| EmitInputs.ShallowExactly | src/compiler/emit.rs:1356-1427 | a straight-line definition underflows from the same stacks under the standard and on the Factor runtime if and only if it does not declare more inputs than it takes |
| Compiler.CompilerCorrect | src/compiler/sema.rs:244-304 | desugaring, lowering, emission and the scopes of quotations together: the emitted program ends as the source does under the standard, with the same stack and world; the two exceptions of RestoringAgrees arise only in programs with definitions that bind inputs on entry |
| Compiler.CallCorrect | src/compiler/emit.rs:1111-1249 | the same for calls of definitions, with their parameters or the preamble of their inputs |
| Compiler.KnownCorrect | src/compiler/sema.rs:244-304 | the same for bodies with a known effect from stacks that are deep enough: no call is too shallow then |
| Compiler.KnownCallCorrect | src/compiler/emit.rs:1356-1427 | the same for calls with a known effect |
| Compiler.CleanCorrect | src/compiler/emit.rs:1225-1241 | the same without any condition on exits, if loops and match expressions hold no EXIT |
| Compiler.EndsOnce | src/compiler/sema.rs:244-304 | a run that ends with some fuel ends in the same way with all others: the meaning of a body does not depend on fuel |
| Compiler.CompiledEnds | src/compiler/sema.rs:244-304 | the emitted program ends when the source program does and the other way round, in the corresponding way, but for those two exceptions |
| Compiler.GlobalsCorrect | src/compiler/emit.rs:1446-1512 | with the narrow variables made into globals as well: the emitted program does on globals what the source means on addresses and memory |
| CompiledShape.CompiledDefs | src/compiler/sema.rs:244-304 | what is emitted is the program with every definition gone through all passes, and nothing else changed |
| CompiledShape.CleanUncaught | src/compiler/emit.rs:1225-1249 | a definition whose EXITs lie outside loops and match expressions is emitted without any return, and without catching one |
| ExitMeaning.CleanEven | src/compiler/emit.rs:1225-1241 | a program whose loops and match expressions hold no EXIT is accepted once compiled, whatever is known of its effects |
| ExitMeaning.LoopExitExactly | src/compiler/emit.rs:1236-1249 | for straight-line code before an EXIT in a loop: both readings agree on every machine whose builtins meet the table if and only if that code has the effect ( -- ) |
| Factor.GuardedStays | src/compiler/emit.rs:1242-1249 | in every program all of whose returns lie in a with-return, no such quotation returns, whatever it calls |
| Returns.BodyGuarded | src/compiler/lower_exit.rs:223-244 | a definition catches all its returns if and only if it has an EXIT that the wrap test sees, or none at all |
| Returns.ProgramGuarded | src/compiler/emit.rs:1242-1249 | an emitted program catches every return where it starts if and only if no definition has its only EXITs in match expressions |
| Returns.NoReturnLeaks | src/compiler/emit.rs:1242-1249 | in such a program no word lets a return out, from any state |
| Returns.LeakExactly | src/compiler/lower_exit.rs:236-241 | a definition that meets EXIT in its first match expression ends its caller, from every stack that holds a selector, if and only if the wrap test sees no other EXIT in it |
| ExitMeaning.LoopExitLosesStack | src/compiler/emit.rs:1242-1249 | BEGIN 7 EXIT AGAIN returns seven under the standard and nothing on the runtime |
| EmitLimits.EmissionExactly | src/compiler/emit.rs:1111-1140 | what is emitted for a body, behind the preamble of its inputs, is right for every program, every body in a context that reads its locals where they are bound, and every stack that holds the inputs, if and only if the inputs have different names, and no input and no local has the name of a word that can be emitted there: f, dup, drop and =, the bare names of builtins (neg for NEGATE), the mangled names of words, and the words that work on globals; and no local is written with a dot |
| EmitInputs.FalseInputHangs | src/compiler/emit.rs:1356-1427 | : w ( f -- n ) 1 DROP {: x :} BEGIN 0 WHILE REPEAT x ; ends under the standard and never ends when emitted: its input hides the word f |
| Scopes.ScopesRun | src/compiler/emit.rs:1775-1790 | in every Factor program that reads each local where it is bound, locals that end with their quotation and one frame of locals for each word give runs with the same stack, world and visible locals |
| ScopeLimits.BranchExactly | src/compiler/emit.rs:1775-1790 | a local read behind a branch that binds locals is right in emitted code, on every stack, if and only if the branch leaves it with the value it had |
| ScopeLimits.BranchExample | src/compiler/emit.rs:1775-1790 | 1 {: x :} IF 2 {: x :} THEN x: two under the standard, one in emitted code |
| EmitMatch.MatchExactly | src/compiler/emit.rs:1798-1824 | a match expression of literals and builtins that ends in a builtin is emitted rightly on every machine that meets the table if and only if its inferred effect is ( -- x ) and no builtin in it sees the whole stack |
| EmitMatch.DepthMatchExample | src/compiler/effect.rs:269 | CASE DEPTH OF 9 ENDOF 0 ENDCASE on the item 1: nine under the standard, the default from the emitted chain, although DEPTH has the effect ( -- x ) |
| EmitMatch.DropMatchExample | src/compiler/emit.rs:1798-1824 | CASE DROP 5 OF 9 ENDOF ENDCASE on 5 1: nine under the standard, nothing from the emitted chain |
| EmitSound.SoundQ | src/compiler/effect.rs:632-652 | the emitted quotation of any body with regular loops keeps the promise of the inferred effect, whatever its match expressions are |
| EmitSound.SoundCallQ | src/compiler/effect.rs:550-577 | the same for calling an emitted definition with a known effect |
| Preamble.PreambleExactly | src/compiler/emit.rs:1356-1427 | binding the inputs of a definition and pushing them back restores every stack, or underflows, as a call that binds its inputs does, if and only if no two inputs have the same name |
| Preamble.NumberedDistinct | src/compiler/emit.rs:1370-1371 | inputs that inference has counted are given different names |
| Occurrences.BindsExactly | src/compiler/emit.rs:166-183 | a definition counts as one with locals inside if and only if a locals block stands somewhere in its body, at any depth |
| Occurrences.InputsCounted | src/compiler/emit.rs:1356-1388 | inputs are bound on entry exactly by definitions without parameters that bind locals inside: as many as are declared, or else as inference has counted |
| Occurrences.InputsNamed | src/compiler/emit.rs:1357-1372 | each is named as it is declared, in lower case or, if it has a dot, with underscores for dots; those that were counted are numbered |
| Effects.InferBlockLoop | src/compiler/effect.rs:591-599 | the loop that stops at the first unknown effect gives the composition of all, whose inputs the rows of EffectTight show to be the least |
| Effects.InferConcat | src/compiler/effect.rs:591-599 | the effect of a concatenation is the composition of the effects |
| Effects.InferStable | src/compiler/effect.rs:550-577 | an effect known once does not change when more definitions become known |
| EffectSound.SoundSeq | src/compiler/effect.rs:700-855 | from a stack as deep as its inferred inputs a body never underflows, leaves deeper items untouched and changes the depth as inferred |
| EffectSound.SoundCall | src/compiler/effect.rs:550-577 | the same for calling any definition with a known effect, recursive ones included |
| EffectSound.SoundArms | src/compiler/effect.rs:632-652 | the same for CASE chains |
| EffectSound.SoundLoop | src/compiler/effect.rs:771-831 | the same for UNTIL, WHILE and LOOP, for any number of turns |
| EffectInfer.InferWithPrior | src/compiler/effect.rs:447-581 | both passes over the items, with maps and errors updated in place, give the inference result, which the rows of EffectTight and EffectReports determine |
| EffectInfer.WalkSettles | src/compiler/effect.rs:550-580 | at the end every definition's body effect is the one inferred with all that is known, callers see the declared or inferred one, and a mismatch has been reported if there is one |
| EffectInfer.InferencePassed | src/compiler/effect.rs:447-581 | if all bodies are known and no mismatch is reported, what inference says of each definition is the effect of calling it: the condition under which the later results take its effects |
| EffectInfer.InferenceSound | src/compiler/effect.rs:447-581 | if all bodies are known and no mismatch is reported, every definition does what its effect says |
| EffectInfer.KnownNotWarned | src/compiler/effect.rs:654-698 | a body with a known effect whose match expressions add one item draws no CASE warning |
| EffectReports.WarnedExactly | src/compiler/effect.rs:654-698 | a body is warned of if and only if in it, at any depth, stands a CASE without default one of whose arms is known to change the stack; and of nothing else |
| EffectReports.UnknownWarned | src/compiler/effect.rs:632-661 | a CASE without default, whose parts are known and whose matches add one item, has a known effect if and only if it draws no warning |
| EffectReports.WarningsExactly | src/compiler/effect.rs:550-581 | over a whole program, a name is warned of if and only if a definition of that name has such a CASE, by what is known when its turn comes |
| EffectReports.CheckReports | src/compiler/effect.rs:874-899 | a declaration is reported, once and with both effects, exactly if it and the known effect differ; with parameters, exactly if the outputs do |
| EffectReports.CheckLeast | src/compiler/effect.rs:874-899 | for straight-line code without parameters nothing is reported if and only if calls do what is declared, and do it with no fewer inputs |
| EffectReports.MismatchesExactly | src/compiler/effect.rs:447-581 | the mismatches returned are those of the definitions, each compared with the effect recorded for its body: none is missing and none made up |
| EffectReports.FixedKept | src/compiler/effect.rs:456-545 | words with a fixed effect keep it, and names that the program does not define keep what was known of them before |
| EffectLimits.StraightExactly | src/compiler/effect.rs:591-599 | the effect of straight-line code is known, and on every machine whose builtins take just what the table says a run underflows if and only if the stack is shallower than its inputs, and else ends at the inferred depth |
| EffectTight.ConstructsKnown | src/compiler/effect.rs:738-832 | for IF, WHILE, UNTIL, AGAIN and DO with any parts: the effect is known if and only if those of the parts are and change the depth as is needed, and then it changes the depth as they do |
| EffectTight.IfTight | src/compiler/effect.rs:738-769 | an IF with balanced branch, or with two branches of equal effect, has a known effect; a number of items keeps every run on every such machine from underflow if and only if it is at least the inferred inputs |
| EffectTight.WhileTight | src/compiler/effect.rs:793-810 | the same for a WHILE whose test adds the flag and whose body is balanced, if the flag can be true |
| EffectTight.WhileExactly | src/compiler/effect.rs:793-810 | the inputs inferred for such a WHILE are the least that suffice if and only if its flag can be true, which the text of the test decides, or its body takes no more than its test |
| EffectTight.WhileNever | src/compiler/effect.rs:793-810 | where the flag cannot be true, what the test takes is the least that suffices |
| EffectTight.WhileExample | src/compiler/effect.rs:793-810 | BEGIN 0 WHILE SWAP REPEAT is inferred to need two items, and needs none |
| FlagOrigin.RunTracks | src/compiler/effect.rs:793-810 | along every run of straight-line code an item can be a true flag only if its origin allows it, and is one where all else is true |
| EffectTight.UntilTight | src/compiler/effect.rs:771-791 | the same for an UNTIL whose body leaves just the flag |
| EffectTight.DoTight | src/compiler/effect.rs:819-832 | the same for DO and ?DO with a balanced body and LOOP: the bounds and what the body takes |
| EffectTight.CaseTight | src/compiler/effect.rs:632-652 | what is inferred for a CASE of straight-line parts is never more than it needs, and is the least that suffices if and only if it covers a test on the selector itself |
| EffectTight.ReferenceExactly | src/compiler/effect.rs:717-731 | a reference to a straight-line definition underflows if and only if the stack is shallower than the effect its callers were told, where that is the effect of its body |
| EffectTight.GlobalExactly | src/compiler/emit.rs:1467-1512 | an access to a global that exists has the effect of what it replaces, exactly |
| EffectLimits.UntilExactly | src/compiler/effect.rs:771-791 | for one run: the effect inferred for an UNTIL is right if and only if the body leaves just the flag or the loop takes one turn |
| UntilLimits.UntilAlways | src/compiler/effect.rs:771-791 | for a body of literals and builtins that ends in a builtin: the claimed effect is right on every machine that meets the table and from every stack if and only if the body leaves just the flag |
| EffectLimits.PlusLoopNeverFits | src/compiler/effect.rs:819-831 | a +LOOP with a known effect never keeps the promise of that effect |
| EffectLimits.ParametersUnchecked | src/compiler/effect.rs:874-899 | a definition with a parameter that passes the check and underflows |
| EffectLimits.CallExactly | src/compiler/effect.rs:550-581 | a call of a straight-line definition underflows if and only if the stack is shallower than its parameters and what its body takes, together, or than the inputs it binds on entry |
| EffectLimits.CheckExactly | src/compiler/effect.rs:874-899 | the calls of a definition with a passed declaration do what it declares if and only if its inputs count the parameters and what the body takes besides |
| EffectLimits.UndeclaredExactly | src/compiler/effect.rs:574-576 | the calls of a definition do what the effect of its body says if and only if it has no parameters and binds no more inputs than that effect takes, which holds where inference has counted them |
| EffectLimits.CaseExactly | src/compiler/effect.rs:632-652 | the inputs inferred for a CASE of straight-line parts suffice under the standard, on every stack, if and only if they cover a test on the selector itself |
| EffectLimits.TuckUnderflows | src/compiler/effect.rs:632-652 | CASE TUCK OF ENDOF ENDCASE is inferred as ( x -- ) and underflows on a single item |
| Narrowing.Sema.WalkBlock | src/compiler/sema.rs:775-836 | a variable is wide afterwards if and only if it was before, or a bare reference to it would be left in the block if it alone became a global |
| Narrowing.EscapesExactly | src/compiler/sema.rs:813-834 | a variable escapes from a body among others if and only if making a global of it alone would leave a bare reference |
| Narrowing.EscapesWhere | src/compiler/sema.rs:775-836 | and if and only if in some list of the body, at any depth, stands a reference to it that none of @ ! +! c@ c! follows |
| Narrowing.Sema.AnalyseEscape | src/compiler/sema.rs:727-773 | a variable is wide if and only if in some body, at any depth, stands a reference that no access follows, and if and only if as a global it would be left bare in some body; making globals of all that stay narrow leaves no bare reference in any body |
| Globals.EmitNarrow | src/compiler/emit.rs:1446-1464 | the loop that consumes two expressions for an access makes the replaced body |
| Globals.GlobLeavesNoBare | src/compiler/emit.rs:1446-1512 | if no reference escapes, no bare reference to a narrow variable is emitted, at any depth |
| Globals.NoBareExactly | src/compiler/sema.rs:775-836 | no bare reference is emitted if and only if the analysis finds none that escapes |
| GlobalsMeaning.GlobSeqRuns | src/compiler/emit.rs:1446-1512 | on corresponding runtimes the program with globals runs like the program with memory, or the latter has stopped at a store that does not fit |
| GlobalsMemory.MemoryMirrors | src/compiler/emit.rs:1467-1512 | with the same builtins on both sides: each sink on a variable's address does what the access to its global does, and every builtin that is not given a narrow variable does the same |
| GlobalsMemory.SinksDiscreet | factor/forth/runtime/runtime.factor:91-104 | the memory words themselves meet what is asked of builtins |
| GlobalsMemory.GlobalsPreserve | src/compiler/emit.rs:1446-1512 | with byte accesses: the same outcome, stack, output and world, unless a value that is no byte is stored to a variable that is accessed by bytes |
| GlobalsMemory.CellsPreserve | src/compiler/emit.rs:1446-1512 | without byte accesses to narrow variables: the same run always, failures included |
| GlobalsLimits.StartsFromZero | src/compiler/emit.rs:377-398 | the emitted declarations leave the stack alone and lead to a world in which every variable's cell holds zero |
| GlobalsLimits.FetchByteExactly | src/compiler/emit.rs:1493-1496 | C@ emitted as a fetch of the whole value is right if and only if the value is a byte |
| GlobalsLimits.StoreByteExactly | src/compiler/emit.rs:1497-1500 | C! emitted as a store of the whole value is right if and only if old and new value differ in their low bytes only |
| GlobalsLimits.ClearExactly | src/compiler/emit.rs:1467-1512 | once a variable is narrow the replacement is right for every program and body in a context if and only if no local hides a narrow variable and no local or definition hides a sink |
| GlobalsLimits.TickedIsNarrow | src/compiler/sema.rs:775-836 | a tick is not seen by the analysis |
| GlobalsLimits.TickedVariable | src/compiler/emit.rs:1726-1733 | ticking a narrow variable and executing the token fails where the variable would have pushed its address |
| CountedLoops.CountExactly | factor/forth/runtime/runtime.factor:265-273 | a loop without LEAVE turns once for each number from the start up to the limit, but at least once, drops its frame, and is done if and only if the fuel is enough for that |
| CountedLoops.DoCounts | factor/forth/runtime/runtime.factor:318-328 | the same from DO and ?DO, which does nothing if limit and start are equal |
| CountedLoops.DownExactly | factor/forth/runtime/runtime.factor:265-273 | a +LOOP that counts down by one ends after one turn if it starts above its limit, and otherwise never |
| Session.StepKeeps | src/session.rs:1127-1192 | every step of host, dispatcher and listener keeps the invariant that ties slots, threads and histories together |
| Session.ReachableInv | src/session.rs:1127-1192 | the invariant holds in every reachable state |
| Session.OneInFlight | src/session.rs:1127-1192 | at most one command is received and not answered |
| Session.InOrderOnce | src/session.rs:1127-1192 | commands run in channel order, each exactly once: in every reachable state the i-th text begun is the preamble, written out, and the source of the i-th command sent, which holds no NUL, and all but at most the last have ended |
| Session.ReplyBetween | src/session.rs:1146-1172 | a reply is sent only after its own command has ended and before the next one is posted |
| Session.NeverMarker | src/session.rs:1136-1138 | no user text is read as the exit marker |
| Session.ExitOnly | src/session.rs:1471-1512 | the listener leaves its loop only for a shutdown or for a text with a NUL |
| Session.DeadlockExactly | src/session.rs:1146-1157 | a deadlock means that a text with a NUL was received, and once the threads come to rest every such text has led to one |
| Session.NulStops | src/session.rs:1485-1495 | from rest, the next text deadlocks the threads if and only if it holds a NUL |
| Session.DeadlockStays | src/session.rs:1146-1157 | a deadlock is for ever: no later command is answered |
| Session.AllAnswered | src/session.rs:1127-1192 | without NULs, when the threads come to rest every evaluation sent has been answered |
| Session.Progress | src/session.rs:1127-1192 | every step of the two threads uses up a measure, so that they come to rest |
| Session.IoState.ClearDone | src/session.rs:1142-1145 | one critical section is one step of the system: the command is marked not done |
| Session.IoState.PostPending | src/session.rs:1136-1150 | the slot is free whenever the dispatcher posts, so that no text is lost, and then holds the preamble and the source, or the exit marker |
| Session.IoState.NextCommand | src/session.rs:1471-1512 | the text taken is the one posted; the null pointer stands exactly for the marker and for texts with a NUL |
| Session.IoState.CommandDone | src/session.rs:1517-1526 | the listener's signal |
| Session.IoState.Elsewhere | src/session.rs:1127-1192 | every other step of host, dispatcher and listener touches neither slot, and the slots go on to agree with the system |
| Needs.ExpandNeeds | src/compiler/mod.rs:387-431 | the loop with the shared set of included keys computes the expansion, and terminates on every finite file system, cycles included |
| Needs.ExpandIsSplice | src/compiler/mod.rs:365-431 | expanding is splicing: each file stands where its first directive stood and nowhere else, errors included |
| Needs.ExpandReadsOnce | src/compiler/mod.rs:403-411 | every file is read at most once, and the keys included grow by exactly the files read |
| Needs.ExpandConserves | src/compiler/mod.rs:387-431 | on success no directive is left and the result holds the own items of the program and of each file read, each exactly once |
| Needs.ExpandCovers | src/compiler/mod.rs:387-431 | on success everything that was asked for is included |
| Needs.NothingTwice | src/compiler/mod.rs:408-411 | a program whose files are all included contributes its own items and reads nothing |
| Parse.Parser.ExprOne | src/compiler/parse.rs:886-1024 | the cursor form reads integers, words, control flow, ticks, TO and locals as the grammar function says and stops where it says; the tokens of floats, strings, LET and SEE are left out |
| Parse.Parser.BlockUntil | src/compiler/parse.rs:1157-1197 | the loop up to a terminator, errors included |
| Parse.Parser.CaseBlock | src/compiler/parse.rs:1111-1150 | the loop over the arms, with explicit, implicit and missing defaults |
| Parse.Parser.LocalsBlock | src/compiler/parse.rs:856-879 | the names up to the closing bracket, and what is rejected |
| ParsePrint.RoundBlock | src/compiler/parse.rs:886-1197 | printing any control-flow tree, with either form of default, and parsing it gives the tree back and stops at its end |
| ParsePrint.ParsedBlockPrintable | src/compiler/parse.rs:1157-1197 | whatever the parser returns can be printed |
| ParsePrint.ParsePrintParse | src/compiler/parse.rs:886-1197 | parsing, printing and parsing again changes nothing |
| ParsePrint.Refused | src/compiler/parse.rs:1161-1197 | behind any body, the end of the text and a semicolon leave the construct unterminated, and a control word of another construct is a stray |
| ParseSpelling.SpellBlock | src/compiler/parse.rs:886-1197 | parsing tokens whose keywords have been respelled gives the respelled result, errors included |
| ParseSpelling.SpellingIgnored | src/compiler/parse.rs:886-1197 | tokens that differ only in the case of keywords, or in OTHER for DEFAULT, give the same body or the same error, if no name is spelled like a keyword |
| ParseSpelling.CapitalsIgnored | src/compiler/parse.rs:919-924 | keywords in capitals are the same keywords |
| ParseComments.CommentsIgnored | src/compiler/parse.rs:1019-1023 | taking out the comments changes no result, if none stands behind a tick or TO; and what is parsed at all is parsed the same without them |
| ParseComments.GapExactly | src/compiler/parse.rs:925-960 | behind a tick or TO a comment is an error, and makes a difference if and only if a name follows it |
| Lex.ParseIntWithBase | src/compiler/lex.rs:712-742 | a token is a number exactly if its characters are digits of the base or underscores, and its value is the number written, wrapped to 64 bits; else the first character that is neither decides the reason |
| Lex.WrapStep | src/compiler/lex.rs:725-740 | wrapping at every digit is wrapping once at the end |
| Lex.DecimalRead | src/compiler/lex.rs:569-660 | an integer of any size printed in decimal is read as its 64-bit value, never as a float or a word |
| Lex.RoundTrip | src/compiler/lex.rs:569-660 | printing and reading gives the integer back if and only if it fits 64 bits, the smallest one included |
| Lex.PrefixedRead | src/compiler/lex.rs:601-624 | the prefixed forms in bases sixteen, two and ten write any 64-bit pattern |
| LexForms.ClassifyExactly | src/compiler/lex.rs:569-657 | by the characters of a token alone: it is a float if and only if it is shaped like one, refused if and only if it begins with 0x and spoils the digits, and a word with the same text if and only if it is none of these and none of the forms of an integer |
| LexForms.IntegerExactly | src/compiler/lex.rs:601-654 | a token is the integer v if and only if it is decimal digits, or digits behind $ % # or 0x, or one of these behind a minus, and v is what they write, wrapped |
| LexForms.TidyNumber | src/compiler/lex.rs:722-741 | underscores and the case of digits do not change the number |
| LexForms.NumberPrinted | src/compiler/lex.rs:721-741 | digits without a leading zero are the only ones that print the number they write |
| LexForms.FloatRead | src/compiler/lex.rs:663-695 | digits around a dot are a float whatever follows, and digits before an exponent are, with or without a sign |

## Left out

- The non-Win64 square and gcd, conversion from floating point, integer length and bit test of bignums:
  other platforms, floating point, or easy members.
- Reallocation in place and the shared constants zero and one: results are fresh arrays, and the garbage
  collector's roots are ignored.
- LowerExitMeaning.LowerPreserves: requires that a CASE that holds EXIT ends its definition and that no EXIT
  of its default is stripped, because otherwise it is false; `LowerExitLimits` proves exactly when for literal
  matches and straight-line code.
- EmitSim.SimSeq: requires match expressions with the inferred effect ( -- x ), or that start with DUP and work
  on the copy, and that reach no builtin that sees the whole stack, because otherwise it is false in general
  (`EmitMatch.MatchExactly`).  Those builtins are DEPTH, .S, INCLUDED and the words that run a token.
- The test of a CASE compares stack items; Factor's `=` compares what two address tuples hold, so that two
  addresses that are different tuples with the same contents match there and are distinct cells here.
- EmitMatch.MatchExactly: is about match expressions of literals and builtins, because two equal literals are
  right by accident.
- Compiler.CompilerCorrect: requires bodies that the height analysis accepts, because the runtime's continuation
  restores the stack; the analysis gives up where an IF or CASE with EXIT takes its flag or selector from the
  caller's items.  And it requires that every local is read where it is bound and not behind a quotation that binds
  it again, because otherwise it is false (`ScopeLimits.BranchExactly`); where a name is not bound at all Factor
  rejects the program, which in the model fails when it gets there.  A local called `t` that is bound in a branch
  is excluded together with loops outside the branch, although it does no harm.
- Factor checks stack effects when it loads a word and can reject emitted code; that is not part of this model.
- EffectSound.SoundSeq: requires regular bodies (no +LOOP, UNTIL bodies that leave just the flag, match
  expressions within the claimed inputs), because otherwise it is false; `EffectLimits` says how.
- GlobalsMemory.GlobalsPreserve: requires that builtins come to a narrow variable by its address only, and that
  no narrow variable is ticked; a forged address is excluded.
- Memory cells hold any stack item under the exact address of the store.  The runtime's `@` and `!` read and
  write 64 bits without sign (`factor/forth/runtime/runtime.factor:91-104`), so that a variable that is not
  narrow gives back 2^64 - 1 for -1; overlapping cells and bytes at other offsets are not modelled.
- Reading a global that was never set is a failure in the model, where Factor gives f; every declaration sets it.
- A captured word in the quotation of a tick is a failure in the model, where another quotation is pushed.
- The names made up for discarded locals (`_d1`, `_d2`): a user's local of such a name is not considered.
- The emitted text: vocabularies, `USING:` lines and spacing are not part of this model; a quotation is a tree, and
  a combinator stands together with its literal quotations.  Locals called like Factor's own syntax (`[`, `:>`) or
  like a word with its vocabulary (`kernel:drop`) would change how the text is read.
- Under the standard a local's scope is that of the whole body, and reading it before it is bound is a failure.
- Word targets are looked up by name, not by the span of the reference, as if there were one source text.
- EffectTight.IfTight: and its fellows for WHILE, UNTIL, DO and CASE are about constructs whose parts are
  straight-line code, because inside others a flag can be fixed by what went before.
- Parse.Parser.ExprOne: leaves out the tokens of floats and strings, LET and SEE, which are errors in the model.
- Floats, strings, LET, SEE, classes, generics, methods, templates and collections.  VARIABLE, CONSTANT
  and the like enter inference as words with a fixed effect.
- The runtime's words other than the loop words, the return stack and the output are in the builtins.  EXECUTE is
  one of them: that the word it runs does the same before and after a pass is taken for granted.
- Stack effect counts are unbounded naturals rather than 32-bit.
- The CURRENT mutex, a second session, timeouts and interrupts of an evaluation, and a panic of the worker: the
  host sends commands and closes the channel, and a command always ends.
- In NEEDS expansion, the SEE records and the distinction between failures to read, to lex and to parse.
- Value of floating-point tokens, and the failure of a token that looks like a float but is none.
