# Classic Forum: models and proofs

This project models the parts of the forum software where a mistake is hard to see, and
proves what they are for. Everything is plain Dafny; `dafny verify dfyconfig.toml` checks
all of it.

- **Punycode** (`Punycode.dfy`): the codec of RFC 3492 in `scripts/punycode.js`. A reference
  encoder walks every state <n, i>; the source's encoder is shown to write the same, the
  decoder to follow it. Decoding an encoded string gives the string back exactly if no
  overflow guard of the decoder is hit, and every canonical spelling is the only one.
  `PunycodeLaws` gives bias, thresholds and digits in the standard's numbers, without the
  source's loop, and `PunycodeSamples` strings with their spellings.
- **The config compiler** (`Cfg*.dfy`): the parser `cfgcomp_parser.c` (`CfgParser`), the code
  generator `cfgcomp_codegenerator.c` (`CfgTrees`, `CfgCodegen`, `CfgStatements`, `CfgLabels`,
  `CfgRuns`, `CfgListing`), the assembler `cfgcomp_assembler.c` (`CfgText`, `CfgTokens`,
  `CfgBytes`, `CfgAssembler`, `CfgReading`) and the virtual machine `cfgcomp_vm.c`
  (`CfgMachine`, `CfgAssembly`, `CfgVm`, `CfgInterpreter`). `CfgRuns.ProgramRun` says what the
  symbolic program of any list of statements does, `CfgVm.BytecodeRuns` that the assembled
  bytecode does the same step for step, `CfgVm.SourceRound` joins the two, and
  `CfgSource.TokensToRun` starts from the tokens the parser reads. `CfgMeaning` says what
  config programs are meant to do, names having values, and proves that the repaired machine
  does it; `CfgProducts` and `CfgWritten` say what the machine does with one defect left and
  as it is written, and for which programs that is what is meant; `CfgOpenChains` has
  programs whose `elseif` lacks an `else`. `CfgLaws` states what the operations that machine
  and meaning share compute on numbers and printed numbers; `CfgSample` follows a small
  program from its tree to its text and its bytes.
- **Unicode normalization** (`Normalizer.dfy`): `nfkd` of `scripts/nameprep_normalizer.js` is a
  stable sort by combining class between starters, canonical and (exactly on sane tables)
  idempotent; Hangul syllables survive decomposing and composing. `NormalizerLaws` gives the
  decomposed form by the entries of the table alone, the composed form of any ordered string
  by Unicode's notion of a blocked mark, and the texts that are their own NFKC form.
- **Inversion lists** (`Inversions.dfy`), **UTF-8** (`Utf8.dfy`, and against the standard's
  table `Utf8Laws.dfy`), **CDATA sections** (`Cdata.dfy`), **replay of backed-up postings**
  (`Recovery.dfy`, and who answers whom behind it `RecoveryLaws.dfy`) and the **archiver's
  selection loop** (`Archiver.dfy`). `Lists.dfy` holds what the two linked lists share,
  `Traces.dfy` how two traces are compared.

Each source loop is a method with invariants, proved equal to a function (or, in
`Inversions`, to a defining property); the theorems are lemmas about those functions. Objects
that the sources update in place are classes: the generator's state, the replacement table,
the virtual machine with its array of registers, the token tree, the thread and posting lists.

## How the sources are read

- **Punycode.** `base` at `scripts/punycode.js:53` means `this.base`, and `toUint32` is
  conversion to an unsigned number. Strings are sequences of 16-bit units. JavaScript numbers
  are integers here, and comparisons with a quotient are written as products; a bias of
  -Infinity (a division by a delta of -38, which only junk digits give) is a number that
  compares the same way. `>> 1` is the signed 32-bit shift.
- **Five switches.** `CfgMachine.Build` has a switch for each of five places where the sources
  taken literally cannot do what they are for: `cpyTags`, `CPY` leaves the type of a register
  empty (`src/cfgcomp_vm.c:592-593`); `jmpOpcode`, the assembler emits the opcode of `CPY` for
  `JMP` (`src/cfgcomp_assembler.c:367`); `setTags`, `SET` replaces the payload of a config value
  and not its type (`src/cfgcomp_vm.c:102-123`), which is none from its allocation on
  (`src/cfgcomp_vm.c:557`); `ownNames`, copying a config value copies its name too
  (`src/cfgcomp_vm.c:116`), so a later `SET` looks for that name
  (`src/cfgcomp_vm.c:470`, `src/cfgcomp_vm.c:499-502`); `subSubtracts`, `SUB` of a number and a
  config value multiplies (`src/cfgcomp_vm.c:1126`). All false is the code as written, all true
  the code as intended. The theorems from statements to bytecode hold for all settings, what
  statements do (`CfgStatements.ExecStmts`) following the switches.
- **What is meant.** `CfgMeaning.MeanStmts` knows only values by name.
  `CfgMeaning.SourceMeans`: with all five repaired a run computes it.
- **Number minus name.** With only the product left, a run computes what is meant exactly if no
  subtraction it gets to takes a name from a computed number n with n * m other than n - m in
  32 bits (`CfgProducts.ProductsExactly`, operation by operation; `CfgMeaning.HarmlessStmts`
  is the condition, read off the text and the values at the start). A program in which nothing
  but names is a minuend of names is safe whatever the values (`CfgProducts.TextHarmless`).
  `CfgProducts.SevenMinusX` is a program that goes wrong.
- **As written** no config value ever gets a type (`CfgWritten.UntaggedRun`), so every assigned
  name is false as a condition and an error as an operand of `+ - * /`. `CfgWritten.AsWrittenRuns`
  says which expressions run at all, `CfgWritten.AgreesExactly` which programs do what they
  mean: those that `CfgWritten.CheckStmts`, which reads the program text alone, does not
  reject. No program that ends and is meant to give a name a value is among them
  (`CfgWritten.AgreeingStoreNothing`). Agreement is of what a run shows: the values by name
  behind every assignment, the branch taken at every condition, the end of a branch, where
  and why it stops. `NumberLosesType`, `BranchNotTaken` and `NameIsCopied` are small programs
  that go wrong.
- **Argument descriptor.** `*me->pos << 8 | *++me->pos` (`src/cfgcomp_vm.c:62`) reads and changes
  `me->pos` without a sequence point; it is read from left to right, high byte first.
- **`!`** is accepted at the start of an expression or behind an operand, and the code generator
  looks at the operand on its left link: that behind a first `!`, that before any other, whose
  second operand is dropped (`CfgSource.NotBetween`).
- **`elseif` without a final `else`** leaves labels undefined; `CfgLabels.LabelsDefined` shows
  that this is the only way. An undefined label has the address of the first line, at both
  levels, so such a program can start anew: `CfgRuns.RoundStmts` says what one round does. If
  the last condition is false (or the first, with one `elseif`) the next round begins with the
  config as it is; a first branch that is taken runs into the next test.
  `CfgOpenChains.NeverEnds` and `CfgOpenChains.TrueFallsThrough` are programs for both.
- **Precedences.** A higher number binds tighter (`src/cfgcomp.h:65-75`), so `+` binds tighter
  than `*`, and ties group to the right: `CfgParser.ThreeOperands`. `CfgParser.Class` names the
  classes from the tightest on; `CfgParser.BuildGroups` says by it what stands where in a tree.
- **Tokens that bind equally tight** one behind the other below the root give a cycle of
  parents (`CfgParser.Trees.InsertNode`). With the tokens of `CfgParser.Type` the sequences
  `cf_cfg_parser` accepts never have them; but an array is inserted without a look at the token
  before it (`src/cfgcomp_parser.c:398-422`), so `x = 1 (2);` is accepted and does.
- **`compose`** sets the length of a JavaScript string, which has no effect, so marks are
  written out again at every later starter: `Normalizer.ComposeUnchanged` says exactly when,
  `NormalizerLaws.ComposedBlocked` what is written for any string in canonical order.
- **Digits of the decoder.** Units below "0" and between the ranges of digits have values too,
  the latter negative ones, and decode to something: `PunycodeLaws.NegativeDigit`.
- **Tables** of Unicode data are parameters; hypotheses about them are named
  (`FullyDecomposed`, `HangulByArithmetic`, `NothingComposes`, `ByteClasses`, `NoJamo`, `Precomposed`, `Apart`).
- **The archiver** sees plugins and the cache length through `World`; a plugin is asked at most
  once about a thread, so its answer may be any function of the thread.
- **Recovery** assumes what the backup writes: a new posting answers a posting of its thread
  and its level is one more (`Recovery.Playable`).
- **The virtual machine** runs for a given number of turns (`CfgInterpreter.Interpreter.Start`),
  since config programs need not end; the theorems name how many turns are enough.

## Model

| member | source | states |
|---|---|---|
| Punycode.RoundTrip | scripts/punycode.js:60-208 | whenever encoding succeeds, decoding the result gives the string back exactly if no emitted delta hits one of the decoder's two overflow guards, and fails otherwise |
| Punycode.RoundTripSmallDeltas | scripts/punycode.js:60-208 | a string of any length below 2^32 - maxint/35 on which no delta exceeds maxint/35 is encoded and decodes to itself |
| Punycode.RoundTripShort | scripts/punycode.js:60-208 | every string of at most 1876 units is encoded and decodes to itself |
| Punycode.SpellingUnique | scripts/punycode.js:104-205 | of all spellings that decode, encoding what they decode to gives them back exactly if they are canonical: lower-case digits behind the last delimiter and only 16-bit code points inserted |
| Punycode.Simulation | scripts/punycode.js:88-205 | from any state of the encoder, the decoder in the matching state reads off the rest of the string, or stops at a guard exactly when a delta is not representable |
| Punycode.DecodeStep | scripts/punycode.js:161-205 | one decoded delta puts the decoder at the encoder's row and position, with the same bias; the decoder's position is 0 exactly when the encoder has handled only basic units |
| Punycode.ReadDigits | scripts/punycode.js:112-122 | the digits of a number, read as a variable-length integer, add the number to the start value if all weights stay below maxint, and fail otherwise |
| Punycode.ReadIsCanonical | scripts/punycode.js:167-181 | what is read as a variable-length integer from lower-case digits is spelled as its digits and no other way |
| Punycode.KeptInsert | scripts/punycode.js:199-204 | handling a unit inserts it at the decoder's position |
| Punycode.WalkTo | scripts/punycode.js:92-102 | where no unit is met the encoder's delta grows by h + 1 for every row skipped |
| Punycode.OneHighUnit | scripts/punycode.js:97-102 | with one unit behind basic ones, encoding fails exactly if the delta to it exceeds maxint |
| Punycode.TwoHighUnits | scripts/punycode.js:97-181 | with U+0080 and c behind basic units, when encoding fails, and when it succeeds and decoding the result fails at a guard |
| Punycode.GuardHit | scripts/punycode.js:167-181 | 65663 letters, U+0080 and U+FFFF are encoded to a string that does not decode |
| Punycode.Respell | scripts/punycode.js:104-205 | decoding a canonical rest and walking its output writes that rest again |
| Punycode.Adapt | scripts/punycode.js:47-56 | the loop computes the adapted bias of section 6.1 of RFC 3492 |
| Punycode.EmitDigits | scripts/punycode.js:112-122 | the loop writes the digits of delta |
| Punycode.NextCodePoint | scripts/punycode.js:92-95 | the least unit that is at least n |
| Punycode.EncodeRow | scripts/punycode.js:104-127 | one pass over the string does what the reference walk does on that row, or fails where it fails |
| Punycode.Encode | scripts/punycode.js:60-133 | the source's loops return what the reference encoder returns |
| Punycode.ReadDelta | scripts/punycode.js:167-181 | the loop reads one variable-length integer, with the same failures |
| Punycode.FindDelimiter | scripts/punycode.js:147-147 | the index of the last delimiter, or 0 |
| Punycode.CopyBasics | scripts/punycode.js:149-156 | the basic units before the delimiter, or failure on one that is not basic |
| Punycode.Decode | scripts/punycode.js:135-208 | the source's loops return what the decoding function returns |
| PunycodeLaws.BiasClosed | scripts/punycode.js:47-56 | the bias is 36 * k + 36 * q / (q + 38): d is delta / 700 or delta / 2 plus its numPoints-th part, and q is d divided by 35^k for the least k that brings it down to 455 |
| PunycodeLaws.BiasOfNegative | scripts/punycode.js:50-55 | only a delta of 2^31 or more, by `>> 1`, makes d negative; the bias is then the quotient rounded down, or -Infinity for d = -38 |
| PunycodeLaws.ThresholdNearest | scripts/punycode.js:114-114 | the threshold is the number from 1 to 26 nearest to k - bias |
| PunycodeLaws.DigitValues | scripts/punycode.js:26-36 | which digit each unit stands for, and how digits are written |
| PunycodeLaws.DecodedUpper | scripts/punycode.js:26-29 | digits in upper case decode to the same string as in lower case |
| PunycodeLaws.NegativeDigit | scripts/punycode.js:167-202 | a colon counts as -7: alone it decodes to y, behind a- to a bar before the a |
| PunycodeSamples.TeacherSpelled | scripts/punycode.js:60-133 | sample (L) of section 7.1 of RFC 3492, with six units above basic ones, is spelled 3B-ww4c5e180e575a65lsy2b |
| PunycodeSamples.TeacherReadBack | scripts/punycode.js:135-208 | and that decodes to it |
| PunycodeSamples.Dollar | scripts/punycode.js:60-208 | sample (S), basic units alone, both ways |
| PunycodeSamples.Astral | scripts/punycode.js:199-202 | e28h, which stands for U+1F600, decodes to the unit F600 |
| CfgParser.Trees.InsertNode | src/cfgcomp_parser.c:70-165 | a token that continues the tree is added to it, all child and parent links staying consistent; a token that binds as tight as the one before, below the root, makes a cycle of parents |
| CfgParser.Trees.Climb | src/cfgcomp_parser.c:148-148 | the climb stops at the innermost of the last operands' operators that does not bind tighter than the new one |
| CfgParser.Trees.Splice | src/cfgcomp_parser.c:153-183 | the operator takes the place of the operand below, with all links as in the new tree |
| CfgParser.Trees.Append | src/cfgcomp_parser.c:101-116 | an atom becomes the missing operand of the token before |
| CfgParser.Trees.Replace | src/cfgcomp_parser.c:117-139 | what the branch for equal precedence leaves behind: below the root the old parent's child link at the new token and the two tokens each other's parent, at the root a new root |
| CfgParser.AddOpLinks | src/cfgcomp_parser.c:148-183 | exactly which links change when an operator is inserted, and to what |
| CfgParser.AddAtomLinks | src/cfgcomp_parser.c:101-116 | exactly which links change when an atom is inserted |
| CfgParser.NeverEqual | src/cfgcomp_parser.c:101-139 | on alternating tokens the branch for equal precedence is never taken |
| CfgParser.AddCorrect | src/cfgcomp_parser.c:70-188 | each insertion keeps: in-order walk is the tokens so far, what is left of an operator binds strictly tighter, what is right of it at least as tight |
| CfgParser.BuildCorrect | src/cfgcomp_parser.c:70-188 | the same for every alternating sequence; nothing is missing exactly if it ends in an atom |
| CfgParser.BuildUnique | src/cfgcomp_parser.c:70-188 | the tree is the only complete tree of this order over these tokens |
| CfgParser.TreeUnique | src/cfgcomp.h:65-75 | two complete ordered trees with the same in-order walk are equal |
| CfgParser.ThreeOperands | src/cfgcomp.h:65-75 | by token types alone: of two operators the first groups first only if its class comes before the other's in the chain dot, not, equality, order, sum, product, and, or, assignment |
| CfgParser.BuildGroups | src/cfgcomp.h:65-75 | in the tree of any alternating sequence the operators in a left operand are of earlier classes than their operator, and none in a right operand is of a later class |
| CfgParser.Parse | src/cfgcomp_parser.c:458-601 | exactly the sequences in which operators and atoms alternate are accepted, and leave their ordered tree in memory, which groups by the classes of the token types |
| CfgCodegen.RegisterBound | src/cfgcomp_codegenerator.c:41-341 | generating an expression succeeds exactly if its need is at most the number of free registers, and then marks one more register and no other |
| CfgSource.ExprParsed | src/cfgcomp_codegenerator.c:79-422 | the operator and atom tokens of a condition are read as an expression exactly if they spell it and it can be spelled: left operands bind strictly tighter, right ones at least as tight |
| CfgSource.AssignParsed | src/cfgcomp_codegenerator.c:216-230 | the tokens of a statement are read as an assignment exactly if they spell it |
| CfgSource.SpelledBack | src/cfgcomp.h:65-75 | what the code generator sees in an ordered tree is what the tree's tokens spell |
| CfgSource.ProgramParsed | src/cfgcomp_codegenerator.c:427-555 | the token trees of a whole program, conditions, bodies and chains, are read as a program if they spell it, and if `!` comes at most at the start of a condition only then |
| CfgTrees.LinkedChildren | src/cfgcomp_parser.c:70-188 | in the trees the parser leaves in memory every token's child links lead to its operands |
| CfgSource.NotBetween | src/cfgcomp_codegenerator.c:232-238 | a `!` between two operands negates the first and drops the second |
| CfgSource.TwoNumbers | src/cfgcomp_codegenerator.c:111-341 | two numbers with an operator between them are read as the operation of that token, which comes to the sum, difference or product modulo 2^32, the quotient cut off, or the comparison or connective as 1 or 0 |
| CfgSource.TokensToRun | src/cfgcomp_vm.c:369-1539 | from the tokens of a program to the end of its run: the VM gets to the end of the bytecode with the config the statements leave, or stops for the reason they stop |
| CfgCodegen.ExprCorrect | src/cfgcomp_codegenerator.c:79-422 | running the lines of an expression leaves its value in the returned register, keeps every register marked on entry and the values of all keys, or stops for the reason the expression stops |
| CfgRuns.StmtsRun | src/cfgcomp_codegenerator.c:427-555 | running the lines of statements placed in a program gets through their round: behind them with the config, its values, types and names, that the statements leave on this machine, stopped for their reason, or at the first line again where a chain without `else` jumps to its undefined label |
| CfgRuns.IfRun | src/cfgcomp_codegenerator.c:447-514 | the compiled `if` runs exactly the branch the conditions select and then reaches the closing label; without a final `else` a taken first branch runs on into the next test, and a condition without a place to go starts the program anew |
| CfgRuns.ChainRun | src/cfgcomp_codegenerator.c:455-510 | the same for the `elseif` and `else` part, entered at its label |
| CfgRuns.ClosedRound | src/cfgcomp_codegenerator.c:447-514 | if every `elseif` chain ends in `else` there is one round, and it does what the statements do |
| CfgRuns.ProgramRun | src/cfgcomp_codegenerator.c:427-555 | every program whose expressions fit, run from its first line, gets through its round |
| CfgLabels.LabelsDefined | src/cfgcomp_codegenerator.c:447-514 | every label is defined once in the whole program; every label used is defined exactly if each chain with `elseif` ends in `else` |
| CfgLabels.ProgramFits | src/cfgcomp_codegenerator.c:41-555 | between statements no register is marked, and generation succeeds exactly if every expression fits into eight registers |
| CfgRuns.ProgramCorrect | src/cfgcomp_codegenerator.c:427-555 | with closed chains it ends behind its last line with the config its statements leave on this machine |
| CfgOpenChains.NeverEnds | src/cfgcomp_codegenerator.c:455-488 | if (x) y = 1; elseif (x) y = 2; end; never ends where x has no value |
| CfgOpenChains.TrueFallsThrough | src/cfgcomp_codegenerator.c:455-488 | where x is 1 it runs both branches and leaves 2 in y |
| CfgOpenChains.OnlyFirstMeant | src/cfgcomp_codegenerator.c:455-488 | where 1 in y is meant |
| CfgLabels.EvalIsValue | src/cfgcomp_vm.c:569-1411 | once CPY stores the type, a tree over numbers means its value in integer arithmetic as long as that stays within 32 bits; a quotient is the number whose remainder is smaller than the divisor and has the dividend's sign |
| CfgLaws.DivisionTruncates | src/cfgcomp_vm.c:1184-1191 | DIV of two numbers leaves q where n = q * m + r, the remainder r smaller than m and 0 or of the sign of n |
| CfgLaws.DivisionStops | src/cfgcomp_vm.c:1184-1191 | it traps exactly for m = 0 and for -2^31 / -1 |
| CfgLaws.ArithmeticWraps | src/cfgcomp_vm.c:850-1250 | ADD, SUB and MUL of numbers are right modulo 2^32 and within 32 bits |
| CfgLaws.PrintedRight | src/cfgcomp_vm.c:850-1078 | behind a number a printed number is the number itself for ADD, EQ and NE |
| CfgLaws.PrintedEqual | src/cfgcomp_vm.c:186-300 | however two numbers are written, EQ and NE compare them |
| CfgLaws.StringsAppend | src/cfgcomp_vm.c:850-1078 | behind a string ADD appends the other string, or the number as it is printed |
| CfgLaws.StringsCompare | src/cfgcomp_vm.c:186-300 | two strings are equal exactly if they are spelled alike |
| CfgLaws.LeftDecides | src/cfgcomp_vm.c:186-300 | 1 equals "01" but "01" does not equal 1 |
| CfgLaws.TruthLaws | src/cfgcomp_vm.c:153-183 | true are the numbers other than 0 and the strings other than the empty one |
| CfgLaws.NoValue | src/cfgcomp_vm.c:169-300 | a register without a type is false, equal to nothing and an error in arithmetic |
| CfgLaws.LeadingNumber | src/cfgcomp_vm.c:210-223 | a string read as a number: white space, a sign, decimal digits, then anything; saturated at 64 bits |
| CfgLaws.DecimalPlaces | src/cfgcomp_vm.c:210-223 | the first of n + 1 digits counts 10^n |
| CfgLaws.NoLeadingZero | src/cfgcomp_codegenerator.c:332-332 | a number is printed without leading zeros |
| CfgLaws.CopiesWhole | src/cfgcomp_vm.c:102-123 | SET from a config value passes on its value and its truth, and its name unless that is repaired |
| CfgLaws.StoresValue | src/cfgcomp_vm.c:102-123 | SET of a number or string stores it as such once types are stored |
| CfgLaws.SelfCompared | src/cfgcomp_vm.c:597-665 | EQ and NE with three arguments compare a register in front with itself |
| CfgMeaning.ExprMeans | src/cfgcomp_vm.c:595-1411 | on the repaired machine an expression has the value it means by the values of the names, and changes no name's value; so it does while SUB multiplies, where no product shows |
| CfgMeaning.AssignedMeans | src/cfgcomp_vm.c:463-505 | the repaired SET gives its name the value and leaves all other names theirs; every key stays with the config value of its name |
| CfgMeaning.StmtsMean | src/cfgcomp_codegenerator.c:427-555 | on the repaired machine statements leave the names with the values they mean, or stop for the reason they stop |
| CfgMeaning.SourceMeans | src/cfgcomp_vm.c:369-1539 | the repaired VM gets to the end of a program's bytecode with the names having the values the program means, or stops for its reason; so does the one that multiplies, for programs in which no product shows |
| CfgProducts.ExprExactly | src/cfgcomp_vm.c:1080-1132 | with only the product left, every operation of an expression leaves what is meant exactly if no subtraction it gets to takes a name from a computed number with another product than difference |
| CfgProducts.ProductsExactly | src/cfgcomp_vm.c:1080-1132 | the same for programs: operations, stored values and conditions |
| CfgProducts.TextHarmless | src/cfgcomp_vm.c:1122-1130 | a program that takes names only from names is among them, whatever values the names have |
| CfgProducts.SevenMinusX | src/cfgcomp_vm.c:1126-1126 | x = 5; y = 7 - x; leaves 35 in y, where 2 is meant |
| CfgWritten.UntaggedExec | src/cfgcomp_vm.c:102-123 | unless SET is repaired no command gives a config value a type |
| CfgWritten.UntaggedRun | src/cfgcomp_vm.c:369-1539 | so in every run of every bytecode, from a config without types, no config value ever has one |
| CfgWritten.EvalWritten | src/cfgcomp_vm.c:569-1411 | as written the value of any expression, a number or nothing, follows from its text; no name's value changes |
| CfgWritten.AsWrittenRuns | src/cfgcomp_vm.c:569-1411 | as written an expression runs to its end exactly if no + - * / has a literal or a name as an operand and no division is by 0 or leaves 32 bits |
| CfgWritten.OnePlusTwo | src/cfgcomp_vm.c:592-593 | 1 + 2 is an error as written and 3 once CPY stores the type |
| CfgWritten.CopyRight | src/cfgcomp_vm.c:463-505 | as written a copied name puts its config value under the name that value carries, and takes over the other's |
| CfgWritten.StmtsRight | src/cfgcomp_vm.c:369-1539 | the check of a program's text tells of every program whether its run as written differs from its meaning at some place, stops as it is meant to, or ends with the config the check follows |
| CfgWritten.AgreesExactly | src/cfgcomp_vm.c:369-1539 | what the run as written shows is what is meant exactly if the check does not reject the text; then both end alike |
| CfgWritten.AgreesFromStart | src/cfgcomp_vm.c:369-1539 | so a program run from an empty config shows as written what is meant exactly if the check of its text, with no names known, does not reject it |
| CfgWritten.AgreeingStoreNothing | src/cfgcomp_vm.c:102-123 | a program that ends and whose run as written shows what is meant is meant to give no name a value |
| CfgWritten.SourceAgrees | src/cfgcomp_vm.c:369-1539 | the VM as written ends as meant on the bytecode of every program that passes the check |
| CfgWritten.NumberLosesType | src/cfgcomp_vm.c:112-113 | x = 1 != 1; if (x) y = 1 != 1; end; never sets y as written |
| CfgWritten.BranchNotTaken | src/cfgcomp_vm.c:154-165 | x = 1; if (x) y = 2; end; does not set y even once CPY and JMP are repaired |
| CfgWritten.NameIsCopied | src/cfgcomp_vm.c:116-116 | x = y; x = 1 != 1; puts the config value of x under the key y |
| CfgListing.Generator.NextUnusedRegister | src/cfgcomp_codegenerator.c:41-52 | the loop to 1 << 8 finds the first unmarked register of eight, or -1 |
| CfgListing.Generator.Tokens | src/cfgcomp_codegenerator.c:79-422 | walking a token tree by its child links, the generator marks registers and appends lines exactly as the function on the expression of that tree says |
| CfgListing.Generator.Assignment | src/cfgcomp_codegenerator.c:216-230 | the same for an assignment |
| CfgListing.Generator.IfStatement | src/cfgcomp_codegenerator.c:447-514 | the same for `if`, with the labels it takes |
| CfgListing.Generator.ChainParts | src/cfgcomp_codegenerator.c:470-508 | the same for the loop over `elseif` and the `else` part |
| CfgListing.Generator.Trees | src/cfgcomp_codegenerator.c:427-555 | the same for the loop over statements |
| CfgText.DecRoundTrip | src/cfgcomp_assembler.c:492-493 | a printed 32-bit number is read back as itself |
| CfgText.EscapeRoundTrip | src/cfgcomp_assembler.c:57-91 | a string escaped by the generator and read by the assembler is the string |
| CfgText.EscapeHasNoNewline | src/cfgcomp_codegenerator.c:56-75 | an escaped string spans no line break |
| CfgText.AppendStr | src/cfgcomp_codegenerator.c:56-75 | the loop appends the escaped string |
| CfgText.AsmReadStr | src/cfgcomp_assembler.c:57-91 | the loop reads a literal up to its closing quote, or reports that there is none |
| CfgTokens.AsmLine | src/cfgcomp_assembler.c:35-54 | the next line and where the one behind it starts; the whole input if there is no line break left |
| CfgTokens.Tokenizer | src/cfgcomp_assembler.c:94-144 | the loops find the tokens of the line |
| CfgTokens.NextArgument | src/cfgcomp_assembler.c:116-139 | one turn finds the next token and leaves the others |
| CfgTokens.TokenizeLine | src/cfgcomp_assembler.c:94-144 | tokenizing a generated line recovers its directive or label and all its operands |
| CfgTokens.SplitText | src/cfgcomp_assembler.c:35-54 | splitting a generated text returns the generated lines one after the other |
| CfgBytes.LayoutFetch | src/cfgcomp_vm.c:47-92 | fetching at the address of a line yields its command, strings read from the pool and jump targets the addresses of their labels, and ends exactly where the next line starts |
| CfgBytes.PrologueFetch | src/cfgcomp_assembler.c:208-215 | the first command jumps over the string pool to the first line |
| CfgBytes.LayoutSize | src/cfgcomp_assembler.c:525-532 | the size of the bytecode; every label address lies inside it or at its end |
| CfgBytes.DescriptorFields | src/cfgcomp_vm.c:62-70 | the 16-bit argument description reads back as count and types |
| CfgBytes.ReadBack | src/cfgcomp_vm.c:77-79 | a 32-bit number stored in four bytes is read back |
| CfgAssembler.Replacements.Register | src/cfgcomp_assembler.c:147-177 | the entry of the label is updated in place, or added |
| CfgAssembler.TabledSnoc | src/cfgcomp_assembler.c:147-177 | registering what a line defines or uses keeps the table complete and right for all lines so far |
| CfgAssembler.EncodeArgs | src/cfgcomp_assembler.c:485-505 | arguments go to the code, strings to the pool, with their addresses |
| CfgAssembler.EncodeCommand | src/cfgcomp_assembler.c:470-505 | one command is appended as the layout has it, a jump's address still open |
| CfgAssembler.AllPatched | src/cfgcomp_assembler.c:514-523 | code whose open addresses are all filled in, and nothing else changed, is the final code |
| CfgAssembler.Patch | src/cfgcomp_assembler.c:514-523 | the second phase fills in every label address, wherever the label is defined and however often it is used |
| CfgAssembler.Assemble | src/cfgcomp_assembler.c:187-541 | the assembler returns the declarative layout of the lines it reads, or the error of the first bad line |
| CfgReading.DirectiveFound | src/cfgcomp_assembler.c:226-456 | a directive is recognized exactly by its name |
| CfgReading.LineRead | src/cfgcomp_assembler.c:220-512 | a generated line is parsed as the line it was written for |
| CfgReading.ProgramRead | src/cfgcomp_assembler.c:217-512 | the text of a whole program is read back as the program |
| CfgReading.StmtsFormed | src/cfgcomp_codegenerator.c:427-555 | all lines the generator writes have their directive's arguments and registers of one digit |
| CfgReading.CompileProgram | src/cfgcomp_assembler.c:577-595 | from token trees in memory that stand for statements, generating and assembling succeeds exactly if the expressions fit and there is a statement at all, and then yields the layout of the program |
| CfgSample.Generated | src/cfgcomp_codegenerator.c:447-514 | the lines for if (a) b = 1; end |
| CfgSample.Printed | src/cfgcomp_codegenerator.c:56-75 | and their text |
| CfgSample.SampleBytes | src/cfgcomp_assembler.c:187-541 | and the bytecode: a jump over the pool, four pool entries, five commands with descriptors, pool and label addresses |
| CfgSample.Opcodes | src/cfgcomp.h:85-109 | the number of each opcode |
| CfgVm.LabelAddress | src/cfgcomp_assembler.c:519-520 | the patched address of a label is that of the line symbolic jumps go to |
| CfgVm.InstrSimulated | src/cfgcomp_vm.c:384-1535 | one turn of the VM at a line's bytes ends where the symbolic step ends |
| CfgVm.RunSimulated | src/cfgcomp_vm.c:384-1535 | byte-level and symbolic runs agree step for step from any line, labels taking no turn |
| CfgVm.BytecodeRuns | src/cfgcomp_vm.c:369-1539 | running the bytecode from its first byte is running the lines from the first |
| CfgVm.SourceRound | src/cfgcomp_vm.c:369-1539 | the VM gets through a round of any program's bytecode: to its end, stopped, or back at its first line |
| CfgVm.SourceToRun | src/cfgcomp_vm.c:369-1539 | with closed chains it gets to the end with the config the program's statements leave on this machine, or stops for the reason they stop |
| CfgInterpreter.Interpreter.FetchCommand | src/cfgcomp_vm.c:47-92 | the fetch loop reads one command and moves the position behind it |
| CfgInterpreter.Interpreter.Execute | src/cfgcomp_vm.c:388-1531 | the switch updates registers, config and position in place as the command's meaning says |
| CfgInterpreter.Interpreter.Start | src/cfgcomp_vm.c:369-1539 | the loop from the first byte with cleared registers reaches the state of the byte-level run |
| Normalizer.ReorderedCorrect | scripts/nameprep_normalizer.js:62-77 | reordering keeps the starters and, class by class, the marks in their order between them; no mark ends up behind one of higher class; nothing is lost |
| Normalizer.OrderUnique | scripts/nameprep_normalizer.js:62-77 | an ordered string is determined by its starters and its marks class by class |
| Normalizer.DecomposedEqual | scripts/nameprep_normalizer.js:51-81 | two strings have the same decomposed form exactly if their raw decompositions have the same starters and the same marks class by class |
| Normalizer.DecomposedIdempotent | scripts/nameprep_normalizer.js:51-81 | decomposing twice is decomposing once when table values are fully decomposed |
| Normalizer.IdempotentExactly | scripts/nameprep_normalizer.js:51-137 | it is so for every string exactly if no unit of a decomposition decomposes further |
| Normalizer.SwappedMarks | scripts/nameprep_normalizer.js:71-76 | swapping neighbouring marks of different classes changes nothing |
| Normalizer.Place | scripts/nameprep_normalizer.js:63-76 | the inner loop puts the character where insertion puts it |
| Normalizer.Nfkd | scripts/nameprep_normalizer.js:51-81 | the loops compute the reordered raw decomposition |
| NormalizerLaws.DecomposedSingle | scripts/nameprep_normalizer.js:51-137 | a unit that is no syllable decomposes to the starters, marks and units of its table entry, or to itself if it has none |
| NormalizerLaws.DecomposedEntries | scripts/nameprep_normalizer.js:51-205 | any string decomposes to an ordered string with the starters, marks and units of the entries of its units one after the other, jamo for syllables |
| Normalizer.DecomposedJamo | scripts/nameprep_normalizer.js:196-205 | the floating point divisions, cut off, give the jamo of the syllable's indices |
| Normalizer.JamoCompose | scripts/nameprep_normalizer.js:213-221 | the jamo compose to the syllable again, and nothing joins the next syllable |
| NormalizerLaws.HangulInverse | scripts/nameprep_normalizer.js:213-221 | two units join to a syllable exactly if it decomposes into them, or into the first one's jamo and the second; and U+11A7 joins a syllable without changing it |
| Normalizer.Compose | scripts/nameprep_normalizer.js:97-127 | the loop computes the composing function, with undefined for the empty string |
| NormalizerLaws.ComposedBlocked | scripts/nameprep_normalizer.js:97-127 | in the composed form of an ordered string a unit is taken up into the last starter kept exactly if the table composes the two and no mark kept behind that starter has a class as high; at every later starter the marks kept so far are written again |
| NormalizerLaws.NfkcKeepsPrecomposed | scripts/nameprep_normalizer.js:88-90 | text of starters without entry and of composites of a starter and a mark comes back from decomposing and composing |
| NormalizerLaws.DotsExample | scripts/nameprep_normalizer.js:51-127 | d with a dot above and then a dot below: decomposed the lower dot comes first, composed it joins the d |
| Normalizer.HangulRoundTrip | scripts/nameprep_normalizer.js:97-221 | composing the decomposed form of syllables gives the syllables back |
| Normalizer.ComposeUnchanged | scripts/nameprep_normalizer.js:115-123 | where nothing composes, a string is left alone exactly if behind its first character no starter follows a mark |
| Normalizer.AcuteRepeated | scripts/nameprep_normalizer.js:117-117 | a concrete string whose mark is repeated |
| Inversions.Inversion.constructor | scripts/nameprep_inversions.js:59-66 | elided bounds are filled in place when the filled list increases |
| Inversions.Inversion.GetLeast | scripts/nameprep_inversions.js:94-111 | the largest index whose bound is not above the value, or -1 |
| Inversions.Inversion.GetLeast2 | scripts/nameprep_inversions.js:118-128 | the same by the simple loop |
| Inversions.LeastUnique | scripts/nameprep_inversions.js:94-128 | so both lookups agree |
| Inversions.RangesByIndex | scripts/nameprep_inversions.js:85-87 | a value lies in one of the half-open ranges exactly if that index is even |
| Inversions.Inversion.Contains | scripts/nameprep_inversions.js:85-87 | membership in the union of the ranges, or in its complement |
| Inversions.Inversion.MakeOpposite | scripts/nameprep_inversions.js:72-76 | the same bounds, exactly the complement |
| Recovery.AddChildFlat | src/cf-recovery.c:396-421 | inserting an answer into the list of a tree gives the list of the tree with the answer added as first or last child |
| Recovery.FlattenInjective | src/cf-recovery.c:396-421 | a level list denotes one tree only |
| Recovery.Thread.Insert | src/cf-recovery.c:396-421 | the doubly linked list stays valid and denotes the tree with the posting added; the pointer to the last posting goes stale exactly when the posting ends the list without being directly behind its parent in ascending order |
| Recovery.Thread.FindEnd | src/cf-recovery.c:409-409 | the search stops at the end of the subtree |
| Recovery.Thread.GetPosting | src/serverlib.c:904-914 | the first posting with the id, or none |
| Recovery.Thread.Replay | src/cf-recovery.c:365-431 | a sequence of records gives the tree with all new postings added in order, known ones skipped |
| RecoveryLaws.AddChildAnswers | src/cf-recovery.c:396-421 | a new posting becomes the first or last answer to its parent, has no answers, and all other postings keep theirs |
| RecoveryLaws.ReplayedAnswers | src/cf-recovery.c:365-431 | behind a replay every posting has the answers it had and behind them those of the records that answer it, in their order, or before them in the opposite order; nothing else is in the tree |
| Archiver.RunConserves | src/archiver.c:84-187 | each thread ends in exactly one of kept, archived and discarded |
| Archiver.RunWithinLimits | src/archiver.c:120-187 | at the end the list is empty or bytes, postings and threads are each at most their maximum |
| Archiver.RunOldestFirst | src/archiver.c:109-183 | the archived are in order of date and no newer than the kept; discarded are exactly the threads for which some plugin returns FLT_EXIT and all before it return FLT_OK or FLT_DECLINE |
| Archiver.RunRemovesNoMore | src/archiver.c:120-143 | before every removal bytes, postings or threads exceeded their maximum |
| Archiver.RunKeepsOrder | src/serverlib.c:600-627 | the kept threads stay in their order |
| Archiver.RunSize | src/archiver.c:120-187 | the cached length is measured anew only while it exceeds the byte limit |
| Archiver.VerdictIs | src/archiver.c:159-170 | the verdict is the answer of the first plugin that returns neither FLT_OK nor FLT_DECLINE, without one that of the last plugin, without plugins FLT_OK |
| Archiver.PostsAdd | src/archiver.c:102-115 | the postings of a thread list are those of its threads together |
| Archiver.Forum.Scan | src/archiver.c:102-115 | the scan counts threads and postings and finds the first thread of the oldest date |
| Archiver.Forum.RemoveThread | src/serverlib.c:600-627 | the thread leaves the doubly linked list, all other links staying right |
| Archiver.Forum.AskPlugins | src/archiver.c:159-167 | the loop returns the answer of the first plugin that neither passes nor declines, else that of the last one, else FLT_OK |
| Archiver.Forum.RunArchiver | src/archiver.c:84-205 | the loop leaves the kept list, the threads to archive and the cache of the run on values |
| Utf8.DecodeEncode | src/charconvert.c:35-123 | decoding an encoded code point gives it back, whatever follows |
| Utf8.EncodeDecode | src/charconvert.c:35-123 | whatever is decoded encodes to exactly the bytes read, so no overlong form is accepted |
| Utf8.FallenEncode | src/charconvert.c:97-120 | falling through the cases leaves the bytes of section 2 of RFC 2279 |
| Utf8Laws.EncodeByTable | src/charconvert.c:84-123 | a code point is encoded as exactly the bytes that the table in section 2 of RFC 2279 gives for it, in sums and masks |
| Utf8Laws.DecodeByTable | src/charconvert.c:35-80 | the decoder returns a number and a length exactly if the table gives the first bytes for that number |
| Utf8Laws.SampleAlpha | src/charconvert.c:84-123 | the first sample of section 4 of RFC 2279 |
| Utf8Laws.SampleKorean | src/charconvert.c:84-123 | the second |
| Utf8Laws.SampleJapanese | src/charconvert.c:84-123 | the third |
| Utf8.UnicodeToUtf8 | src/charconvert.c:84-123 | the encoding in the buffer, or EINVAL and an untouched buffer |
| Utf8.EncodeAllInjective | src/charconvert.c:127-142 | a string is the encoding of at most one sequence of code points |
| Utf8.ValidExactly | src/charconvert.c:127-142 | a NUL-free string is accepted exactly if it is the encoding of a sequence of code points |
| Utf8.IsValidUtf8String | src/charconvert.c:127-142 | the loop returns 0 exactly on the strings accepted |
| Cdata.CdataRoundTrip | src/fo_feeds.c:123-135 | reading the text as consecutive CDATA sections consumes it all and gives the source back |
| Cdata.SectionsFrom | src/fo_feeds.c:128-134 | the same behind the rest of a split "]]>" |
| Cdata.Splits | src/fo_feeds.c:128-134 | the first "]]>" of a text is split behind its first bracket |
| Cdata.AppendCdata | src/fo_feeds.c:123-135 | the loop appends the text with every "]]>" split |

## Left out

- Punycode: `case_flags`. Junk digits have no theorem beyond their values and two examples.
- RoundTripSmallDeltas: needs a string shorter than 2^32 - maxint/35 units; longer ones are covered by RoundTrip alone.
- Config compiler: array literals and subscripts, unary minus, `with` namespaces, `Load` and module loading, `< <= > >= %` (wrong or unknown instructions), SET and LOAD into namespaces; these are instructions outside the model, and running one stops as unmodelled.
- Config compiler: statements that are an expression without assignment, which keep their register marked.
- Config compiler: config values are records in the order of their allocation and the config tree is a map from keys to them; string lengths are unbounded where the source has 32 bits; undefined behaviour (fetching outside the bytecode, jumping outside it) stops as unmodelled.
- CfgParser.Parse: handles the operators and atoms of one statement; array literals, subscripts and `$`, which the same loop inserts without looking at the token before, `if` and `with` keywords and the lexer are not part of this model.
- TokensToRun: starts from the trees that the keywords and semicolons of a program have made, each with its tokens; statements other than assignments and `if` have no reading. CompileProgram and the generator's methods take the same trees.
- Assemble: requires text on which the tokenizer stays inside each line, which all generated text satisfies (ProgramRead).
- ComposedBlocked: is about strings in canonical order, as `nfkc` composes them, without jamo behind the first unit; syllables have HangulRoundTrip and HangulInverse.
- Recovery.Thread.Insert: upkeep of the pointer to the last posting is stated as it is, not as it should be; brand-new threads, records whose parent is missing and file reading are not modelled.
- Archiver: locks, the outer loop over forums (its index is reused by the plugin loop), and writing the archived threads.
- RunArchiver: counts are unbounded integers; `long` overflow of the posting count is not modelled.
- Character set conversion by `iconv`, named entities, templates, sockets, shared memory, storage and the user interface.
