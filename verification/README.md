# Verified models of the LFSC checker and its utility layer

Dafny models of the hard parts of the LFSC proof checker (`lfsc/checker`) that Kind 2 uses to
check proof certificates, and of two text formats and a tree from the vendored CZMQ library.
`dafny verify dfyconfig.toml` checks the whole project.

What is modelled, by module:

- `Marks`, `Clauses`, `Resolution`: the compiled side condition that evaluates deferred
  resolution steps by toggling four mark bits per variable, against a reading of clause trees as
  sets of literals; and why a simplified conclusion follows from the leaves of a proof.
- `KInduction`, `Obligations`: the obligations of k-induction, their exact meaning over sequences
  of states, the soundness of the rule, and the side conditions of `kind.plf` as programs that
  build these obligations.
- `SideCode`, `Slots`, `Interpreter`: the side-condition language, with an evaluator that passes
  environments, and the interpreter that overwrites and restores the `val` slots of symbols.
  `Numbers`: the laws of its arithmetic.
- `Typing`, `Checker`, `Rules`: the type checker of that language over its shared symbol table, type
  preservation, when acceptance rules out failures of number classes, and the typing rules that
  say exactly what is accepted.
- `Identifiers`, `Compiler`, `Writer`: the compiler of that language to C++, the names it uses, and
  the writer that emits statements. `Blocks`, `Remembered`, `Scoping`, `Building`: when names in the
  emitted text are declared once in a block, and before they are used. `Conditions`,
  `CompilerProof`, `FirstDefaults`, `Divisions`, `Quotients`: when the emitted code computes what the
  interpreter computes. `Frames`, `Failures`: what emitted code leaves alone, and when it fails.
  `Confusions`: symbols that are taken for something else.
- `Terms`, `Cloning`, `DefEq`: LF terms whose binders are objects with slots; copying and
  comparing them by pointing binders at each other, against de Bruijn's notation.
- `Trie`: the symbol table that stores a key at the first free node, against a map.
- `Printer`, `Meaning`: the SMT-LIB printer that flattens connectives and applications, and why
  the printed text means what the formula means.
- `Allocator`: the chunking allocator, its free list and the blocks it hands out.
- `ConfigTree`, `ConfigText`, `RoundTrip`, `Handwritten`, `Config`: configuration trees, their paths
  and their ZPL text (rfc.zeromq.org/spec:4), as values and as linked objects that are updated, saved
  and loaded; which trees are read back, and what is loaded from lines as people write them.
- `Sizes`, `Grouping`, `Digits`, `Bits`, `Alphabets`, `Wrapping`, `Armour`, `Codec`: base64, base32
  and base16 text (RFC 4648, sections 4 to 8) with padding and line breaks.
- `Options`, `Collections`, `Strings`: options, sequences as sets, and searching in strings.

Where code and documentation disagree, the code is followed. In particular:

- The entries of a pattern's variables in the symbol table are put back in the order in which they
  were replaced. The table is keyed by names, and a pattern may repeat one: the table is as before,
  for every table, exactly if none is repeated (`Slots.RestoreNeedsDistinct`), and for one table
  exactly if each repeated name already had the type given to it at its last place but one
  (`Slots.RestoreExact`, `Checker.CaseTable`). `Checker.TableLeft` gives code that is accepted only
  because an entry is left behind. The `val` slots of variables and parameters are restored in the
  same order; there it is harmless, because each variable is an object of its own.
- A constant may have the type of a number, or compute one. Code that uses it is accepted and fails
  (`Typing.ConstantFails`). Acceptance rules such failures out exactly if no constant is a number
  or computes one from arguments that exist (`Typing.ClassesExact`).
- A default that is the first case of a match and is not a symbol is compiled twice, before the
  match and in it. Its code runs twice, which is right exactly if running it again changes nothing
  (`FirstDefaults.FirstDefault`); a mark that it flips is flipped back
  (`FirstDefaults.MarkFlippedTwice`).
- The compiler keeps one list of strings for variables and for its temporaries `e0`, `e1`, and so
  on. A constant spelled like a temporary is read as its value exactly if the temporary has been
  handed out (`Confusions.TakenForTemporary`, `Confusions.TemporaryRead`);
  `Confusions.MisreadConstant` is a program that is compiled to return an application in place of a
  constant. A variable spelled like a temporary may be declared twice (`Blocks.TempDeclaredTwice`).
- Constants are read from globals `e_c`, whose names lose special characters. What is read is the
  constant exactly if it has none and no variable has the name of the global
  (`Confusions.ConstantRead`, `Confusions.HiddenGlobal`); different symbols may become the same name
  (`Identifiers.MangledAlike`).
- The compiler declares a variable in the block in which it is bound and remembers it for good. No
  name is declared twice in a block exactly if none is bound twice in one (`Blocks.CodeDeclares`).
  Each name is declared before it is used, and nothing is written that is no statement, exactly if
  the program is sound: a scoping condition on its source (`Scoping.CodeResolves`,
  `Building.FunctionWellFormed`). It excludes marks on constants (`Building.MarkedConstant`),
  constants named like a variable of an earlier branch (`Building.RememberedBranch`), a constant as
  the first case of a match (`Building.ReleasedConstant`), and the literal 0, for which C++ finds
  two constructors (`Building.LiteralZero`). Programs that meet `Conditions.Compilable` are sound
  (`Building.ProgramBuilds`).
- Division of integers is compiled to a product. `Divisions.DivisionCompiled` says for which
  operands that makes no difference, and `Divisions.CompiledIsChecked` that it makes none in
  programs in which types say that only rationals are divided.
- FAIL is compiled to a null pointer, and the emitted code does not test for one. Where it comes to
  use one it stops, so a compiled function returns a value exactly if the program has one, as long
  as no operand and no argument of an application may be null (`Failures.FunctionExact`,
  `Failures.TypedExact`). The variable of a LET is released after its body, which stops a run in
  which it is null.
- Putting a configuration value passes the rest of the path on without its slash to an item that
  exists, but with its slash to one that is created. A value that was put is found again exactly
  if no empty segment follows an existing item (`ConfigTree.PutLocateLaw`); where one does, the put
  leaves the path as it was (`ConfigTree.PutLost`, `ConfigTree.EmptySegmentLost`).
- A saved configuration is read back exactly if names, values, comments and the lengths of lines are
  legal and only the root has comments (`RoundTrip.SaveThenLoad`). A comment sign gets into an
  unquoted value exactly if the value would start with it after a blank
  (`ConfigText.CommentTaken`).
- A line break may fall into the padding of armoured text, and the padding character may be a digit
  or a newline. The bytes come back exactly if there is no padding, or neither is the case
  (`Armour.RoundTrip`); `Armour.PaddingBroken` gives an input for which a break does.
- A line of more than 1024 characters of a configuration is cut, and makes the loader read past the
  end of the text unless it finds an invalid line before (`ConfigText.LoadText`).

In `Clauses` and `KInduction`, a failed inner call of a compiled side condition is taken to fail the
outer call, as the interpreter does; the generated C++ does not test for it.

## Model

| member | source | states |
|---|---|---|
| Marks.MarkMap.SetMark | lfsc/checker/expr.h:308-310 | exactly the given bit of the given symbol becomes set; the words in the map and the abstract set of marks stay in step |
| Marks.MarkMap.ClearMark | lfsc/checker/expr.h:308-310 | exactly the given bit of the given symbol becomes clear |
| Marks.MarkMap.GetMark | lfsc/checker/expr.h:308 | tells whether the bit is set; reading a symbol without a word adds a word but no mark |
| Marks.MarkMap.Mark | lfsc/checker/expr.cpp:953-961 | gives the word of a symbol, making an empty one if there is none, without changing any mark |
| Clauses.Append | lfsc/checker/scccode.cpp:63-100 | appending plain clauses gives a plain clause whose literals are the union |
| Clauses.Simplify | lfsc/checker/scccode.cpp:102-623 | the reference without marks: defined exactly if every `clr l` finds l in its body, and then a plain clause whose literals are those of the tree that are not to be removed |
| Clauses.AppendListed | lfsc/checker/scccode.cpp:63-100 | the literals of the first clause come before those of the second, in order |
| Clauses.SimplifyListed | lfsc/checker/scccode.cpp:102-623 | simplifying keeps literals in their order, and keeps each literal of a clause without pending steps once |
| Clauses.SimplifyClause | lfsc/checker/scccode.cpp:102-623 | for every clause tree and mark state in which only literals asked for are recorded as removed, the marking algorithm computes the reference; on success the removal marks are as found, the literals removed are recorded, and no other mark changes; on failure the literals asked for are those asked for before and those on the way to the `clr` that fails |
| Clauses.SimplifyCons | lfsc/checker/scccode.cpp:121-338 | the `clc` case: a literal already asked for is recorded and dropped, another is kept and its marks are as found |
| Clauses.SimplifyRemove | lfsc/checker/scccode.cpp:353-610 | the `clr` case: fails exactly if the literal does not occur in the body, and restores both marks otherwise |
| Clauses.Enter | lfsc/checker/scccode.cpp:364-405 | setting the removal mark of a literal and clearing its record keeps the invariant that only literals asked for are recorded |
| Clauses.Leave | lfsc/checker/scccode.cpp:406-600 | after the recursion the record tells whether the literal occurred, and undoing what was toggled on entry leaves the state the outer scope expects |
| Resolution.ConclusionHolds | lfsc/signatures/sat.plf:80-102 | every assignment that satisfies the leaves of a resolution proof satisfies some literal of its deferred conclusion |
| Resolution.ResolutionSound | lfsc/checker/scccode.cpp:339-610 | every assignment that satisfies the leaves satisfies the clause that the side condition computes |
| Resolution.Refutation | lfsc/checker/scccode.cpp:339-610 | a proof whose conclusion simplifies to the empty clause has leaves that no assignment satisfies |
| KInduction.UnrollFromMeaning | lfsc/checker/scccode.cpp:625-677 | for every k >= 0 the unrolling holds on a sequence of states exactly if its first k+1 states are a run from the initial states |
| KInduction.BaseUpToMeaning | lfsc/checker/scccode.cpp:829-920 | for every k >= 0 the base formula holds exactly if some position up to k is reached by such a run and violates the property |
| KInduction.UnrollWithMeaning | lfsc/checker/scccode.cpp:1220-1303 | for every k >= 1 it holds exactly if property and transition hold at every position below k |
| KInduction.Base | lfsc/checker/scccode.cpp:1189-1218 | the base obligation exists exactly for k >= 1 |
| KInduction.Step | lfsc/checker/scccode.cpp:1760-1784 | the step obligation exists exactly for k >= 0 |
| KInduction.StepMeaning | lfsc/checker/scccode.cpp:1760-1784 | for every k >= 1 it holds on a sequence of states exactly if property and transition hold at every position below k and the property does not hold at k; for k = 0 it holds on none |
| Obligations.UnrollFromBuilt | lfsc/signatures/kind.plf:92-98 | for every integer k and every system, the interpreter's call of the program `unroll_from` builds the term of the unrolling for k, or fails if there is none, and leaves the marks |
| Obligations.BaseUpToBuilt | lfsc/signatures/kind.plf:103-109 | the same for `base_k` and the base formula |
| Obligations.BaseBuilt | lfsc/signatures/kind.plf:113-114 | the same for `base` and the base obligation |
| Obligations.UnrollWithBuilt | lfsc/signatures/kind.plf:118-126 | the same for `unroll_with` and the good steps |
| Obligations.StepBuilt | lfsc/signatures/kind.plf:130-131 | the same for `step` and the step obligation |
| KInduction.KInductionSound | lfsc/checker/scccode.cpp:1189-1784 | if no sequence satisfies the base and the step obligation, the property holds after every finite run |
| KInduction.PropertyReached | lfsc/checker/scccode.cpp:1189-1784 | under these obligations every state of every run has the property |
| KInduction.StepMonotone | lfsc/checker/scccode.cpp:1760-1784 | if no sequence satisfies the step obligation for k >= 1, none satisfies that for k+1 |
| KInduction.BaseComplete | lfsc/checker/scccode.cpp:829-920 | the property is invariant exactly if no base obligation can be satisfied for any k |
| Slots.RestoreUndoes | lfsc/checker/code.cpp:1264-1277 | restoring distinct symbols in the order of binding gives back the slots as they were |
| Slots.RestoreNeedsDistinct | lfsc/checker/code.cpp:940-967 | restoring entries of the symbol table in the order of replacement undoes every replacement exactly if the names are distinct |
| Slots.RepeatedNotRestored | lfsc/checker/code.cpp:940-967 | for every list with a repeated name, a table that is left changed |
| Slots.RestoreExact | lfsc/checker/code.cpp:940-967 | a table is restored exactly if each repeated name already had the value given to it at its last place but one |
| Interpreter.Interpreter.Run | lfsc/checker/code.cpp:1005-1370 | the interpreter that overwrites slots gives the outcome and the marks of evaluation in an environment, and leaves every slot as found on every exit |
| Interpreter.Interpreter.RunLet | lfsc/checker/code.cpp:1053-1064 | LET: the slot of the variable is restored whether or not the body succeeds |
| Interpreter.Interpreter.RunCases | lfsc/checker/code.cpp:1240-1282 | MATCH: the first case whose head matches is run with its variables bound, and they are restored |
| Interpreter.Interpreter.RunProgram | lfsc/checker/code.cpp:1283-1365 | a call of a possibly recursive program binds its parameters, and restores them |
| Interpreter.Interpreter.RunArgs | lfsc/checker/code.cpp:1283-1340 | arguments are evaluated from left to right and the first failure ends the evaluation |
| Interpreter.Interpreter.RunIfSign | lfsc/checker/code.cpp:1138-1170 | IFNEG and IFZERO take the branch the sign tells, for integers and rationals |
| Interpreter.Interpreter.Calculate | lfsc/checker/code.cpp:1065-1110 | ADD, MUL and DIV of two integers or two rationals give the value that evaluation gives, and fail on numbers of different classes |
| Interpreter.Interpreter.RunNegate | lfsc/checker/code.cpp:1111-1137 | NEG of an integer or a rational, and failure on what is not a number |
| Numbers.SumLaws | lfsc/checker/code.cpp:1065-1110 | a sum of integers counts on from the first, forward and backward |
| Numbers.ProductLaws | lfsc/checker/code.cpp:1065-1110 | a product of integers is a repeated sum |
| Numbers.NegationLaws | lfsc/checker/code.cpp:1111-1170 | a number and its negation cancel; unless they are zero exactly one of them is tested as negative |
| Numbers.FractionLaws | lfsc/checker/code.cpp:1065-1170 | sums, products, negations and signs of fractions are those that arithmetic on numerators and denominators gives |
| Numbers.DivisionLaws | lfsc/checker/code.cpp:1088-1102 | division of rationals undoes multiplication and has no value for zero |
| Numbers.QuotientLaws | lfsc/checker/code.cpp:1075-1087 | quotients of integers are rounded up |
| Interpreter.Interpreter.RunIfMarked | lfsc/checker/code.cpp:1171-1192 | IFMARKED takes the branch the mark tells and fails on what is not a symbol |
| Interpreter.Interpreter.RunCompare | lfsc/checker/code.cpp:1193-1218 | COMPARE takes the branch that the order of two symbols tells and fails on what is not a symbol |
| Interpreter.Interpreter.BindSlots | lfsc/checker/code.cpp:1333-1336 | binds symbols in order and returns what each slot held at that time |
| Interpreter.Interpreter.RestoreSlots | lfsc/checker/code.cpp:1359-1364 | puts slots back in order |
| Interpreter.FollowDefs | lfsc/checker/expr.h:346-364 | following slots from a value that mentions no bound variable follows definitions only |
| Interpreter.SlotIsLookup | lfsc/checker/expr.h:346-364 | following the slot of a variable is looking it up in the environment the slots hold |
| Interpreter.LookupNeedsScope | lfsc/checker/code.cpp:1264-1271 | this holds, whatever else the slots hold, exactly for constants and for variables that are bound: a pattern variable without an argument keeps what its slot held |
| SideCode.MoreFuel | lfsc/checker/code.cpp:1005-1370 | an outcome reached within some number of nested calls is the outcome with any larger number |
| Checker.Checker.Check | lfsc/checker/code.cpp:574-994 | the checker that edits the shared table computes the type of the code or rejects it, and leaves the table that checking gives, for all code |
| Checker.Checker.CheckLet | lfsc/checker/code.cpp:708-730 | LET: the variable has its type in the body only |
| Checker.Checker.CheckCases | lfsc/checker/code.cpp:888-990 | MATCH: all cases must have one type |
| Checker.Checker.CheckCase | lfsc/checker/code.cpp:919-968 | the variables of a pattern get the argument types of the constructor, and the entries they replace are put back in the order of replacement |
| Checker.TableKept | lfsc/checker/code.cpp:574-994 | code whose patterns name no variable twice gets the type that does not depend on the table's history, and leaves the table as found |
| Checker.CaseTable | lfsc/checker/code.cpp:919-968 | after a case whose body leaves the table, the table is as before exactly if each repeated variable of the pattern already had the type given to it at its last place but one |
| Checker.TableLeft | lfsc/checker/code.cpp:961-967 | for every type, code with a repeated pattern variable that leaves an entry of that type behind and is accepted because of it |
| Rules.RulesExact | lfsc/checker/code.cpp:574-994 | for all code and all types, the checker computes a type exactly if the typing rules give it: one rule per construct, with function types taken apart by applying them |
| Rules.CheckedExact | lfsc/checker/code.cpp:574-994 | for code whose patterns name no variable twice, the checker that passes the table through accepts exactly what has a type, with that type and the table as it was |
| Rules.MatchExact | lfsc/checker/code.cpp:888-990 | MATCH: exactly if the type of the scrutinee is a declared datatype, there is a case, and every case has the type |
| Rules.CaseExact | lfsc/checker/code.cpp:919-968 | a case with variables: exactly if its constructor takes that many arguments and the body has the type where the variables have the argument types; a case without variables is checked by its body alone |
| Rules.BranchesExact | lfsc/checker/code.cpp:819-887 | the branches of a test: exactly if both have the same type, which is a datatype |
| Typing.Preservation | lfsc/checker/code.cpp:574-1370 | any value that accepted code returns has the computed type; accepted code never reads past pattern variables or arguments and, where numbers are literals, does not fail for reasons of number classes |
| Typing.PreservationArith | lfsc/checker/code.cpp:1065-1110 | the same for arithmetic, whose branch for mixed classes is not taken where numbers are literals |
| Typing.ClassesExact | lfsc/checker/code.cpp:732-792 | no code accepted over a signature, in any setting, fails for reasons of number classes exactly if no constant is a number or computes one from arguments that exist |
| Typing.ConstantFails | lfsc/checker/code.cpp:1065-1110 | every constant of number type without definition is accepted as an operand and takes the branch for mixed classes |
| Typing.ConstantNotNegated | lfsc/checker/code.cpp:1111-1137 | and is accepted and fails in a negation |
| Typing.HeadConstant | lfsc/checker/code.cpp:732-754 | a value that is no literal is built by a constant whose arguments exist and which computes the type of the value |
| Typing.PreservationCall | lfsc/checker/code.cpp:1283-1365 | a call yields a value of the declared result type, given that bodies have their declared types |
| Typing.PreservationCase | lfsc/checker/code.cpp:1240-1282 | the body of the case that is taken yields a value of the type of the match |
| Typing.FollowKeepsType | lfsc/checker/expr.h:346-364 | following definitions of declared types keeps the type |
| Identifiers.IdentApart | lfsc/checker/sccwriter.cpp:31-39 | the names of two strings are the same exactly if the strings are |
| Identifiers.TakenForTemp | lfsc/checker/sccwriter.cpp:834-837 | a string is a temporary exactly if it is the letter e and the digits of its number |
| Identifiers.MangleFixed | lfsc/checker/sccwriter.cpp:120-134 | a symbol is written as it is exactly if it consists of letters, digits and underscores |
| Identifiers.MangledWord | lfsc/checker/sccwriter.cpp:120-134 | printable symbols become letters, digits and underscores |
| Identifiers.MangledAlike | lfsc/checker/sccwriter.cpp:120-134 | different symbols may become the same name |
| Compiler.ComputedRight | lfsc/checker/sccwriter.cpp:660-711 | what the calls of GMP that are written compute is what evaluation computes, for all operations but quotients of integers |
| Compiler.NegatedRight | lfsc/checker/sccwriter.cpp:712-745 | the same for negation |
| Compiler.SgnRight | lfsc/checker/sccwriter.cpp:746-790 | tests of `mpz_sgn` and `mpq_sgn` tell the sign that evaluation tests |
| Compiler.GetSiExact | lfsc/checker/sccwriter.cpp:285-306 | an integer is written exactly if it fits a signed long |
| Blocks.CodeDeclares | lfsc/checker/sccwriter.cpp:272-795 | for all code whose variables are not spelled like temporaries, the block written declares the names of the variables that the code binds in it, and no name is declared twice in a block exactly if none is bound twice in one |
| Blocks.FunctionDeclares | lfsc/checker/sccwriter.cpp:175-203 | the same for a whole function, whose parameters are declared as well |
| Blocks.TempDeclaredTwice | lfsc/checker/sccwriter.cpp:525-542 | every program that is a LET of a variable spelled `e0` is compiled to a function that declares it twice |
| Remembered.CodeRemembers | lfsc/checker/sccwriter.cpp:525-542 | for all code, writing it adds to the list of variables those that it binds anywhere, and otherwise only temporaries |
| Scoping.CodeResolves | lfsc/checker/sccwriter.cpp:272-795 | for all code none of whose symbols is spelled like a temporary, wherever it is written: each name in the statements is declared before it is used, calls have the right number of arguments, and nothing is written that is no statement, exactly if the code is sound for the variables remembered and the names declared so far |
| Scoping.ExprThen | lfsc/checker/sccwriter.cpp:825-867 | the same for an expression whose value is used next |
| Scoping.LetResolves | lfsc/checker/sccwriter.cpp:525-542 | LET, after which the variable is remembered for good |
| Scoping.IfSignResolves | lfsc/checker/sccwriter.cpp:746-790 | IFNEG and IFZERO: each branch must be sound also where the variables of both are remembered |
| Scoping.IfMarkedResolves | lfsc/checker/sccwriter.cpp:639-659 | IFMARKED: what is tested must be a variable |
| Scoping.CompareResolves | lfsc/checker/sccwriter.cpp:621-638 | COMPARE: what is compared must be variables |
| Scoping.MatchResolves | lfsc/checker/sccwriter.cpp:407-492 | MATCH: a default must come last, and a symbol that is the first case must be declared under its own spelling |
| Building.FunctionWellFormed | lfsc/checker/sccwriter.cpp:175-203 | for every program without symbols spelled like temporaries, its function declares each name once in a block and before its use exactly if the program binds no name twice in a block and is sound |
| Building.CompilableSound | lfsc/checker/sccwriter.cpp:272-795 | code that the compiler is meant for is sound, and none of its symbols is spelled like a temporary |
| Building.MarkedConstant | lfsc/checker/sccwriter.cpp:594-620 | a program that marks a constant is compiled to text that is not C++ |
| Building.RememberedBranch | lfsc/checker/sccwriter.cpp:639-659 | a constant named like a variable of the first branch is written as that variable, which is not declared in the second |
| Building.ReleasedConstant | lfsc/checker/sccwriter.cpp:802-823 | a constant that is the first case of a match is released under a name that is not declared |
| Building.LiteralZero | lfsc/checker/sccwriter.cpp:283-293 | the literal 0 is compiled to text that is not C++ |
| Conditions.CompilableOnce | lfsc/checker/sccwriter.cpp:272-795 | code that the compiler is meant for binds no name twice in a block and none that is taken, and no variable spelled like a temporary |
| Confusions.TakenForTemporary | lfsc/checker/sccwriter.cpp:308-327 | a symbol that is no variable is read as a constant exactly if it is not spelled like a temporary that was handed out |
| Confusions.TemporaryRead | lfsc/checker/sccwriter.cpp:504-524 | after any code whose value is put in a temporary, the symbol spelled like it is written as that temporary |
| Confusions.MisreadConstant | lfsc/checker/sccwriter.cpp:504-524 | for every constant c, a program that evaluates to the constant `e1` and whose function returns an application of c |
| Confusions.ConstantRead | lfsc/checker/sccwriter.cpp:317-325 | reading the global of a constant gives the constant exactly if its name has no special characters and no local has the name of the global, or the local holds the constant |
| Confusions.HiddenGlobal | lfsc/checker/sccwriter.cpp:317-325 | the variable `e_c` is written like the global of the constant c |
| Writer.Writer.WriteCode | lfsc/checker/sccwriter.cpp:272-795 | the writer that pushes onto its list of variables and bumps its counter emits the statements that the function of the code gives |
| Writer.Writer.WriteExpr | lfsc/checker/sccwriter.cpp:825-867 | an expression is a variable it knows or a new temporary that is declared first |
| Writer.Writer.WriteExprs | lfsc/checker/sccwriter.cpp:333-400 | arguments are written in order, each under a name of its own |
| Writer.Writer.WriteArgs | lfsc/checker/sccwriter.cpp:802-823 | the constructors of the patterns are put in temporaries up to a default, and a default that comes first is written out |
| Writer.Writer.WriteCases | lfsc/checker/sccwriter.cpp:422-503 | cases become a chain of comparisons of the head |
| Writer.WriteProgram | lfsc/checker/sccwriter.cpp:175-203 | the function written for a program of a valid batch declares each name once in a block and before its use and, run on the arguments of any call that has a value, returns it and leaves the same marks; where failures are well placed it returns no value for a call that fails |
| CompilerProof.CodeCorrect | lfsc/checker/sccwriter.cpp:272-795 | whenever evaluation, with products for quotients of integers, returns a value, the emitted statements leave it in the result variable, keep every other name in use, and leave the same marks |
| CompilerProof.BlockCorrect | lfsc/checker/sccwriter.cpp:639-659 | the same for code in a block of its own, whose declarations end with it |
| CompilerProof.ExprCorrect | lfsc/checker/sccwriter.cpp:825-867 | the same for an expression and the name it is written under |
| CompilerProof.LetCorrect | lfsc/checker/sccwriter.cpp:525-542 | LET, where the variable is declared before its value is computed |
| CompilerProof.DoCorrect | lfsc/checker/sccwriter.cpp:504-524 | DO |
| CompilerProof.ArithCorrect | lfsc/checker/sccwriter.cpp:660-711 | ADD, MUL and DIV test the class of the first operand only |
| CompilerProof.NegateCorrect | lfsc/checker/sccwriter.cpp:712-745 | NEG |
| CompilerProof.IfSignCorrect | lfsc/checker/sccwriter.cpp:746-790 | IFNEG and IFZERO, whose branches are written twice, for integers and for rationals |
| CompilerProof.MarkVarCorrect | lfsc/checker/sccwriter.cpp:594-620 | MARKVAR toggles the mark |
| CompilerProof.IfMarkedCorrect | lfsc/checker/sccwriter.cpp:639-659 | IFMARKED |
| CompilerProof.CompareCorrect | lfsc/checker/sccwriter.cpp:621-638 | COMPARE |
| CompilerProof.ApplyCorrect | lfsc/checker/sccwriter.cpp:333-406 | applications of constants build the term the interpreter builds |
| CompilerProof.CallCorrect | lfsc/checker/sccwriter.cpp:333-406 | calls of programs run the compiled function |
| CompilerProof.FunctionCorrect | lfsc/checker/sccwriter.cpp:175-203 | whenever a call of a program has a value, the compiled function returns it and leaves the same marks |
| Building.ProgramBuilds | lfsc/checker/sccwriter.cpp:175-203 | that function declares each name once in a block and before its use |
| CompilerProof.MatchCorrect | lfsc/checker/sccwriter.cpp:407-503 | MATCH, where a default comes last |
| FirstDefaults.FirstDefault | lfsc/checker/sccwriter.cpp:802-823 | a match whose only case is a default that is no symbol yields what running the default a second time yields, which is right exactly if that is what the first run yields |
| FirstDefaults.MarkFlippedTwice | lfsc/checker/sccwriter.cpp:802-823 | a default that flips a mark leaves it as it was in compiled code, and flipped in the interpreter |
| CompilerProof.CasesCorrect | lfsc/checker/sccwriter.cpp:422-503 | the chain of comparisons runs the case that the interpreter takes |
| Frames.CodeSets | lfsc/checker/sccwriter.cpp:272-795 | the statements for any code set only its target, temporaries that are new, and variables that the code binds |
| Frames.Keeps | lfsc/checker/sccwriter.cpp:272-795 | however a run goes, a name that statements do not set is as before |
| Frames.BoundFresh | lfsc/checker/sccwriter.cpp:525-542 | code that is compiled as it is meant binds no name that is taken, in any block |
| Failures.CodeFails | lfsc/checker/sccwriter.cpp:272-795 | whenever evaluation has no value for a reason that typing does not rule out, the emitted statements stop or, where the code may end with FAIL, leave the result variable null |
| Failures.LetFails | lfsc/checker/sccwriter.cpp:525-542 | LET, whose bound part may fail: the body does not set the variable, and its release stops the run |
| Failures.ExprsFail | lfsc/checker/sccwriter.cpp:333-346 | arguments of which one fails: the run stops, or the name of one is null when they are used |
| Failures.CasesFail | lfsc/checker/sccwriter.cpp:422-503 | the cases of a match fail where the case that is taken fails, or where none matches |
| Failures.FunctionFails | lfsc/checker/sccwriter.cpp:175-203 | whenever a call of a program fails, divides by zero or does not end, the compiled function returns no value, and returns null only if the program may end with FAIL |
| Failures.FunctionExact | lfsc/checker/sccwriter.cpp:175-203 | so the compiled function returns a value exactly if the program has one, and then the same |
| Failures.TypedExact | lfsc/checker/sccwriter.cpp:175-203 | for well-typed programs that divide rationals only, this holds against the checker for every call and every outcome |
| Divisions.DivisionCompiled | lfsc/checker/sccwriter.cpp:660-711 | for all operands that are compiled right: a quotient of rationals is right; for a quotient of integers the product comes out, which is right exactly if the dividend is 0 or the divisor 1 or -1 |
| Divisions.SameQuotients | lfsc/checker/code.cpp:1065-1110 | typed code that divides rationals only, and any code that divides nothing, has the same outcome and marks with quotients and with products |
| Divisions.CompiledIsChecked | lfsc/checker/sccwriter.cpp:175-203 | for such programs, whenever the interpreter's call returns a value, the compiled function returns it and leaves the same marks |
| Divisions.UndividedIsChecked | lfsc/checker/sccwriter.cpp:175-203 | for programs without division this needs no types |
| Quotients.CeilDivRounds | lfsc/checker/code.cpp:1083-1084 | the interpreter's quotient is rounded up |
| Quotients.QuotientIsProduct | lfsc/checker/code.cpp:1083-1084 | a quotient rounded up is the product exactly if the dividend is 0 or the divisor 1 or -1 |
| Cloning.TermStore.Clone | lfsc/checker/expr.cpp:108-194 | for acyclic slots the copy reads, without slots, as the term does with all slots followed, and as the term itself if none of its objects has a slot; its binders are new objects used once; every slot is as found |
| Cloning.TermStore.CloneIn | lfsc/checker/expr.cpp:108-194 | the same below binders that point to their copies; a variable of the copy is left as it is |
| Cloning.TermStore.CloneBody | lfsc/checker/expr.cpp:137-165 | while a body is copied the slot of the binder points to the new binder, and is then restored |
| Cloning.RankIrrelevant | lfsc/checker/expr.cpp:108-126 | what a term reads as does not depend on how acyclicity of the slots is witnessed |
| DefEq.Comparer.DefEq | lfsc/checker/expr.cpp:389-595 | on terms without holes, definitions and redexes whose binders are apart, comparison is true exactly if the terms are equal in de Bruijn's notation, and every slot is restored |
| DefEq.Comparer.DefEqBodies | lfsc/checker/expr.cpp:553-573 | two bodies are compared with the first binder pointing to the second |
| DefEq.Comparer.DefEqKids | lfsc/checker/expr.cpp:574-589 | flat applications are equal exactly if they have as many kids and these are equal |
| DefEq.SymbolCompared | lfsc/checker/expr.cpp:389-398 | following the slot of a symbol and comparing objects decides equality in de Bruijn's notation |
| DefEq.PassLinked | lfsc/checker/expr.cpp:566-570 | pointing one binder at the other keeps the slots of the binders passed in step |
| Trie.Trie.Get | lfsc/checker/trie.h:62-70 | looking a key up gives what the map has, or the default |
| Trie.Trie.Insert | lfsc/checker/trie.h:72-110 | inserting updates the map at the key only and returns what was there; a node that holds a non-empty key never has children |
| Trie.Trie.InsertNext | lfsc/checker/trie.h:17-28 | inserting below a node changes the map of the child for the first character only |
| Trie.Trie.GetNext | lfsc/checker/trie.h:31-39 | looking up below a node |
| Trie.InsertAll | lfsc/checker/code.cpp:940-957 | after any sequence of inserts the trie agrees with the map of them, and each insert returned the value before it |
| Trie.ScopeRestored | lfsc/checker/code.cpp:961-967 | inserting the returned values restores every lookup if no key is repeated |
| Trie.Scope | lfsc/checker/code.cpp:940-967 | entering the scope of distinct pattern variables and leaving it leaves every lookup as it was |
| Printer.Printer.Print | lfsc/checker/print_smt2.cpp:5-91 | prints, with single gaps between them, exactly the S-expressions that the term is flattened to in the mode |
| Printer.Printer.PrintAll | lfsc/checker/print_smt2.cpp:46-61 | prints all arguments with gaps between them and none after the last |
| Printer.Printer.PrintApply | lfsc/checker/print_smt2.cpp:34-45 | curried applications share one pair of parentheses |
| Printer.ItemsFlat | lfsc/checker/print_smt2.cpp:28-33 | in every mode, what is printed has no conjunction as an argument of a conjunction and no disjunction as one of a disjunction, as long as no symbol has their names |
| Printer.ReadRender | lfsc/checker/print_smt2.cpp:5-91 | what is printed for an S-expression is read back as that S-expression |
| Meaning.PrintFaithful | lfsc/checker/print_smt2.cpp:5-91 | in every mode, the S-expressions that a term is flattened to, taken together from the left, have the value of the term |
| Meaning.ConnectiveFaithful | lfsc/checker/print_smt2.cpp:28-33 | conjunctions and disjunctions nested on either side may be flattened |
| Meaning.ApplyFaithful | lfsc/checker/print_smt2.cpp:34-45 | an application to several arguments means the curried application |
| Meaning.PrintedMeaning | lfsc/checker/print_smt2.cpp:5-120 | the printed text of every well-formed term can be read, and evaluates to the value of the term under every interpretation |
| Allocator.Allocator.New | lfsc/checker/chunking_memory_management.h:122-147 | returns the memory it is given, or a block that is not in use: the first of the free list, else the next of the chunk, else the first of a new chunk; nothing else moves |
| Allocator.Allocator.Delete | lfsc/checker/chunking_memory_management.h:149-154 | a block in use becomes the first of the free list; all other blocks stay where they are |
| Allocator.Allocator.AllocateNewChunk | lfsc/checker/chunking_memory_management.h:108-119 | the blocks of a chunk are added to those obtained, and do not overlap others |
| Allocator.Obtain | lfsc/checker/chunking_memory_management.h:108-119 | blocks of a chunk that meets no other are spaced by the size of a block |
| Allocator.Run | lfsc/checker/chunking_memory_management.h:108-154 | after every sequence of steps, blocks in use, free list and unused tail are disjoint and are together all blocks obtained; the blocks a client holds are different and are those in use |
| ConfigTree.LocateSegments | ocamlczmq/czmq/src/zconfig.c:281-307 | locating follows the segments of the path |
| ConfigTree.PutSegments | ocamlczmq/czmq/src/zconfig.c:168-202 | putting follows the segments without the empty ones that follow an existing item |
| ConfigTree.PutThenLocate | ocamlczmq/czmq/src/zconfig.c:168-307 | after putting, the path has the value, and every other path has what it had, except that missing items on the way now exist without a value; also with siblings of one name |
| ConfigTree.PutLocateLaw | ocamlczmq/czmq/src/zconfig.c:168-307 | every value put at a path is located there exactly if no empty segment, other than the last, follows an existing item |
| ConfigTree.PutLost | ocamlczmq/czmq/src/zconfig.c:168-307 | where an empty segment is lost, the path has after the put what it had before |
| ConfigTree.EmptySegmentLost | ocamlczmq/czmq/src/zconfig.c:168-307 | so a new value put after an empty segment below an item that exists is not found, for every tree and path of that form |
| ConfigTree.LostBelowItem | ocamlczmq/czmq/src/zconfig.c:168-307 | no value put at `a//b` below an item `a` without children is found |
| ConfigTree.FindKid | ocamlczmq/czmq/src/zconfig.c:180-192 | the first child of a name |
| Config.Config.Put | ocamlczmq/czmq/src/zconfig.c:168-202 | the linked items become those of the tree after putting |
| Config.Config.Locate | ocamlczmq/czmq/src/zconfig.c:281-307 | returns the item that the tree has at the path, or none |
| Config.Config.Attach | ocamlczmq/czmq/src/zconfig.c:92-114 | a new item becomes the last child |
| Config.Config.AddAtDepth | ocamlczmq/czmq/src/zconfig.c:330-346 | an item is added below the latest item at a depth, if there is one |
| Config.Config.Save | ocamlczmq/czmq/src/zconfig.c:476-502 | comments, then the item indented by its level; returns the length of that text |
| Config.Config.Execute | ocamlczmq/czmq/src/zconfig.c:364-382 | saves the item and all below it in order, and returns the length of the text whether or not there is a chunk |
| Config.Config.ChunkSave | ocamlczmq/czmq/src/zconfig.c:825-839 | the size found by the first pass is what the second pass appends: the chunk holds the whole text and a zero character |
| Config.Chunk.Append | ocamlczmq/czmq/src/zchunk.c:192-205 | what fits is appended and the rest is dropped |
| Config.Config.AddLine | ocamlczmq/czmq/src/zconfig.c:606-670 | one line adds a comment, an item or nothing, or is rejected |
| Config.Config.ChunkLoad | ocamlczmq/czmq/src/zconfig.c:589-679 | loads the tree that the lines of the text give, or none if a line, cut to 1024 characters, is not valid; tells exactly when the loader reads past the end of the text |
| Config.Config.LoadAll | ocamlczmq/czmq/src/zconfig.c:602-675 | the loop, which subtracts the length of the cut line from what remains |
| ConfigText.LoadedSame | ocamlczmq/czmq/src/zconfig.c:602-624 | a text is loaded exactly if its lines have at most 1024 characters and all are valid |
| Config.CollectLevel | ocamlczmq/czmq/src/zconfig.c:684-700 | indentation must be by four blanks |
| Config.CollectName | ocamlczmq/czmq/src/zconfig.c:718-742 | a name is as long as possible and has no slash at its ends |
| Config.VerifyEoln | ocamlczmq/czmq/src/zconfig.c:745-761 | nothing but blanks may precede a comment |
| Config.CollectUnquoted | ocamlczmq/czmq/src/zconfig.c:797-808 | the backward scan from a comment gives the value without the blanks before it |
| Handwritten.UsualLine | ocamlczmq/czmq/src/zconfig.c:682-819 | for every level, legal name and value that needs no quotes, a line with or without a comment is read as that level, name and value |
| Handwritten.PropertyRead | ocamlczmq/czmq/src/zconfig.c:682-819 | the same for every form of a value, with any blanks: none, plain, in either quotes, or a comment in its place |
| Handwritten.WrittenLoads | ocamlczmq/czmq/src/zconfig.c:589-679 | every text of legal lines is loaded as the tree that its lines say, or rejected exactly if one is indented too far |
| Handwritten.ZeroEnds | ocamlczmq/czmq/src/zconfig.c:612-624 | a zero character ends a line, whatever follows it |
| Handwritten.FlawRead | ocamlczmq/czmq/src/zconfig.c:682-819 | a line with bad indentation, without a name, with a slash at the end of one, with stray text, with an open quote or with text after quotes is malformed |
| Handwritten.FlawedLoads | ocamlczmq/czmq/src/zconfig.c:589-679 | legal lines and then such a line are rejected, whatever follows |
| Config.CollectValue | ocamlczmq/czmq/src/zconfig.c:765-819 | quoted and unquoted values, and the errors in them |
| ConfigText.CommentTaken | ocamlczmq/czmq/src/zconfig.c:799-808 | an unquoted value contains a comment sign exactly if it starts with it after a blank |
| RoundTrip.LegalReads | ocamlczmq/czmq/src/zconfig.c:589-819 | the line saved for a legal item is read as that item at its level |
| RoundTrip.LinesBack | ocamlczmq/czmq/src/zconfig.c:476-819 | the lines saved for an item and all below it attach that item, as its lines are read, to its parent |
| RoundTrip.TextSplit | ocamlczmq/czmq/src/zconfig.c:604-624 | text is split into the lines it was made of |
| RoundTrip.LoadLoadable | ocamlczmq/czmq/src/zconfig.c:589-679 | whatever is loaded has legal names, values without line ends, and legal comments |
| RoundTrip.LoadedAccepted | ocamlczmq/czmq/src/zconfig.c:602-624 | where a text is loaded, each of its lines is well-formed and has at most 1024 characters |
| RoundTrip.HashesAdd | ocamlczmq/czmq/src/zconfig.c:627-635 | every line that starts with a comment sign adds a comment to the root |
| RoundTrip.SaveThenLoad | ocamlczmq/czmq/src/zconfig.c:476-839 | for every tree, loading the saved text gives the tree back, with absent values read as empty, exactly if its names and values are legal, its lines have at most 1024 characters, and only the root has comments, which are legal |
| Digits.Split64Regroups | ocamlczmq/czmq/src/zarmour.c:172-186 | four digits are the 24 bits of three bytes, cut into sixes (RFC 4648, section 4) |
| Digits.Split32Regroups | ocamlczmq/czmq/src/zarmour.c:253-279 | eight digits are the 40 bits of five bytes, cut into fives (RFC 4648, section 6) |
| Digits.Decode64Inverts | ocamlczmq/czmq/src/zarmour.c:160-221 | decoding the base64 digits of any bytes gives back the bytes |
| Digits.Decode32Inverts | ocamlczmq/czmq/src/zarmour.c:235-331 | decoding the base32 digits of any bytes gives back the bytes |
| Digits.Decode16Inverts | ocamlczmq/czmq/src/zarmour.c:339-377 | decoding the base16 digits of any bytes gives back the bytes |
| Bits.Encode64Bits | ocamlczmq/czmq/src/zarmour.c:160-190 | for all data, bit j of the base64 digits is bit j of the data, most significant first, and zero after its end |
| Bits.Encode32Bits | ocamlczmq/czmq/src/zarmour.c:235-283 | the same for base32 |
| Bits.Encode16Bits | ocamlczmq/czmq/src/zarmour.c:340-354 | the same for base16, whose digits end with the data |
| Wrapping.WrapAt | ocamlczmq/czmq/src/zarmour.c:453-484 | the character in every line and column of broken text: a line break after every full line, and else the characters of the text in order |
| Wrapping.BreaksAre | ocamlczmq/czmq/src/zarmour.c:459-465 | there is a line break before every further line and none at the end |
| Alphabets.AlphabetIs | ocamlczmq/czmq/src/zarmour.c:153-337 | the character of every digit in every mode: letters, then digits and signs, as RFC 4648 lists them |
| Alphabets.LookUpExact | ocamlczmq/czmq/src/zarmour.c:141-157 | a character is looked up as a digit exactly if it is its character or, in a mode with fewer than 64 digits, the lower case of it |
| Alphabets.LookedUp | ocamlczmq/czmq/src/zarmour.c:141-157 | every character of an alphabet is looked up as its own position |
| Wrapping.WrapFound | ocamlczmq/czmq/src/zarmour.c:453-484 | whatever breaks and padding are added, the digits found are those written |
| Wrapping.WrapLengthFound | ocamlczmq/czmq/src/zarmour.c:194-203 | the length the decoder computes is off by the breaks that fall into the padding |
| Sizes.Size64Exact | ocamlczmq/czmq/src/zarmour.c:199-200 | the buffer has the size of the bytes and a zero byte exactly if the length is not off |
| Sizes.Size32Exact | ocamlczmq/czmq/src/zarmour.c:290-303 | the same for base32, where some lengths fail an assertion and a negative one wraps around |
| Armour.RoundTrip | ocamlczmq/czmq/src/zarmour.c:424-517 | for every mode, setting and byte string: decoding what was encoded gives the bytes, with a size of one more, exactly if there is no padding, or the padding character is neither a digit nor a newline and no line break falls into the padding |
| Armour.PadTaken | ocamlczmq/czmq/src/zarmour.c:184-221 | padding by a digit or by newlines is never decoded to the bytes |
| Armour.NeverBroken | ocamlczmq/czmq/src/zarmour.c:453-484 | without line breaks, without padding, or with lines of whole groups of four or eight, none does |
| Armour.PaddingBroken | ocamlczmq/czmq/src/zarmour.c:197-200 | one padded byte in lines of three characters is not decoded |
| Codec.EncodeBase64 | ocamlczmq/czmq/src/zarmour.c:160-190 | the loop writes the characters of the digits, and padding up to the length computed for the buffer |
| Codec.EncodeBase32 | ocamlczmq/czmq/src/zarmour.c:235-283 | the same for base32 |
| Codec.EncodeBase16 | ocamlczmq/czmq/src/zarmour.c:340-354 | the same for base16 |
| Codec.NextChar | ocamlczmq/czmq/src/zarmour.c:144-148 | skips unknown characters and gives the next digit, or none at the ceiling |
| Codec.DecodeBase64 | ocamlczmq/czmq/src/zarmour.c:194-221 | the loop gives the bytes of the digits found, in a buffer of the computed size |
| Codec.DecodeBase32 | ocamlczmq/czmq/src/zarmour.c:287-331 | the same for base32, after the assertion on the length |
| Codec.DecodeBase16 | ocamlczmq/czmq/src/zarmour.c:357-377 | the same for base16 |
| Codec.BreakLines | ocamlczmq/czmq/src/zarmour.c:453-484 | the copying loop breaks the text into lines, with no break at the end |
| Codec.LinesFit | ocamlczmq/czmq/src/zarmour.c:459-465 | the buffer for the lines is large enough |
| Codec.CountBreaks | ocamlczmq/czmq/src/zarmour.c:494-500 | counts the line breaks in the text |
| Codec.Armour.Encode | ocamlczmq/czmq/src/zarmour.c:424-485 | the object's encoding for its settings |
| Codec.Armour.Decode | ocamlczmq/czmq/src/zarmour.c:488-517 | the object's decoding for its mode |

## Left out

- Interpreter.Interpreter.Run: nesting of program calls is bounded by a fuel argument; an outcome within the bound is final (`SideCode.MoreFuel`), and code that never ends has no outcome. Variables of a pattern and parameters are distinct, and code is taken to be in weak head normal form. The order of addresses that COMPARE uses is a parameter. Rational literals with denominator zero are excluded.
- Interpreter.Interpreter.RunCases: a pattern with more variables than the value has arguments is an outcome of its own, because the code then runs with variables that keep what their slots held, which no environment tells (`Interpreter.LookupNeedsScope`).
- Checker.Checker.Check: types are compared by their structure, where the code compares pointers to types that are shared.
- Typing.Preservation: that the body of a program has its declared type is a hypothesis, because the checker computes that type and does not compare it (`lfsc/checker/check.cpp:1254`); patterns are fully applied.
- CompilerProof.CodeCorrect: definitions, application of variables and patterns that do not name every argument are excluded, as is whatever `Conditions.Compilable` excludes because it is compiled to something else. `FirstDefaults.FirstDefault` supposes that the second run of a first default has a value.
- Failures.CodeFails: an operand or an argument of an application that may be null is excluded (`Failures.WellPlaced`): the code would build a term around a null pointer, which terms here do not have. Failures of number classes, which typing rules out, leave the result variable as it was and are excluded too.
- Scoping.CodeResolves: types, and what else C++ asks of a text, are not modelled; key words and other names that variables must not have are a parameter (`Batch.words`), as are the headers. The globals of constants and of programs are taken to be declared once.
- Identifiers.MangleFixed: characters beyond seven bits are left alone, where the code shifts them.
- Compiler.WriteCases: what is written after a default that is not the last case, and the test for a marked expression that is not a variable, are not C++; they are one statement that does not run. A local with the name of the global of a constant hides it only once it is set.
- DefEq.Comparer.DefEq: holes, beta reduction, definitions and numbers are excluded, as is the comparison of applications whose head is an application.
- Cloning.TermStore.Clone: holes and rational numbers are not modelled.
- Marks.MarkMap.SetMark: a mark word is a set of bits rather than a machine integer.
- Config.Config.Attach: children are a sequence rather than a chain of siblings that point to their parent.
- Config.Config.AddAtDepth: walks down by recursion and adds the item at the end of the walk, where the code first returns the parent.
- Config.Config.Execute: the failure of a handler and sizes beyond an `int` are not modelled.
- Codec.DecodeBase64: a buffer is a growing sequence, as in the other loops of the codec; a decoder that would write past its buffer has the outcome `Overflow`.
- Armour.RoundTrip: a zero padding character, which ends the text early, and failing allocations are not modelled.
- Allocator.Allocator.New: where the system finds memory is a parameter, and that it is found is assumed.
- Printer.Printer.Print: output is a sequence of parentheses, names and gaps rather than of characters; holes without a value and terms of other classes are not printed.
- Reference counts: terms are values, so when they are freed is not modelled. Of the releases in compiled code those are kept that may be the first to read a name.
- Rational copies of the branches that the compiler generates in `scccode.cpp`.
- The LF checking routine `check` with its parser, input and error reporting.
- Writing of files by the compiler, and `libwriter.cpp`.
- The Z85 mode of `zarmour`, which calls a library.
- Files, sockets, threads and the other CZMQ classes, which would only add easy members or input and output.
