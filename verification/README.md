# Verified models of Condor's ClassAds and Connection Broker

This project models, in Dafny 4.11, the parts of the Condor source tree whose behaviour is hardest to see
from the code, and proves what that code is meant to guarantee. `dafny verify dfyconfig.toml` checks all of it.

Four parts of the system are modelled.

**The old ClassAd expression language** (`src/.deprecate_classad.old`). `Lexer` and `ClassAdParser` give the
scanner and the recursive-descent parser as functions of the remaining text; `ScannerImpl` and `ParserImpl` are
the same code with its moving input pointer, look-ahead token and string buffer, proved to compute those
functions. `ClassAdPrinter` and `PrinterImpl` do the same for printing, which first counts and then fills a buffer
of exactly that size. The main results are `ParserExact.RoundTripIff` (printing and parsing back is the identity
exactly on trees of the parser's shape with no string that swallows what follows it) and
`ParserExact.AcceptedReparsesIff` (on which accepted texts it is).
The parser's unary minus takes in a whole expression, parentheses are nodes, and negative numbers are folded, so the shape of those trees is not the
usual one: `RoundTrip.Shape` defines it. `Precedence` says without the parser's ladder how a chain of operators is
grouped, `SourceTexts` covers text that the printer never writes, and `ClassAdValues` goes from text to value:
what each symbol and word of the language comes to. `ClassAdOperators`, `ClassAdEval` and `ClassAdEvalImpl` model evaluation
over a MY/TARGET pair, with the flag each node carries while it is being evaluated; `ClassAdEvalFlags` proves
when those flags can be forgotten and what happens on circular definitions.

**AttrList** (`attrlist.cpp`). `AttrListModel` says what insertion, deletion, clearing and collapsing a chain do to
the sequence of attributes; `AttrListImpl` is the linked list with its tail pointer and its hash index, with one ad
chained to another. `AttrHash` and `AttrHashImpl` are the hash table behind the index, growing included. `AttrListText`
and `AttrListIO` print a chained ad and read it back.

**New ClassAds** (`src/classad`). `ScopedAds` models ads in nested scopes and chains and the search for a name;
`ScopedEval` and `ScopedEvalImpl` model evaluation with a budget for nested references; `ScopedEvalLaws` proves
what evaluation restores and that more budget changes no success, `ScopedRootless` and `ScopedDepth` say exactly when
this holds without a root; `ScopedReferences` proves external references sound; `ScopedUpdates` and `ScopedUpdatesImpl` model deletion and the flattening of chains. Ads are values named by
numbers; operators are an arbitrary function of their operands' values, so every result holds whatever they compute.

**The Condor Connection Broker** (`src/ccb`). `CcbTables` gives each handler of the server as a function on its
tables, `CcbInvariants` the invariant every handler keeps, `CcbEffects` what each message changes and what it leaves
alone, `CcbServer` the objects and loops, proved to take those
steps. `CcbReconnectFile` and `CcbDurable` add the reconnect file and restarts. `CcbClient` and `CcbListener`
model the non-blocking client and the target daemon, as functions and as objects. `CcbProtocol` puts any number of
brokers with their files, listeners and clients together, each taking the steps of its own model, and proves the
property the protocol exists for; `CcbProgress` proves that a connection stays possible at every point of every run.

In every part a class states in its `ensures` that its new state is the function of its old state given by the model, and
the properties are proved of those functions, for all inputs and over all runs.

## What turned out differently

- Integer literals are read as `long` and kept as `int`, so a literal can become negative without a minus sign in the
  text. If an operator follows it, the text is accepted but the printed tree parses to something else:
  `RoundTripLimits.WrappedLiteralReparsesIff` and, with a concrete text, `RoundTripLimits.AcceptedTextThatChanges`.
- A backslash is an ordinary character at the end of a string only if the line ends behind the closing quote. Such a
  string, printed with more text behind it, takes in its closing quote: `RoundTripLimits.StringReparsesIff` and, with a
  concrete text, `RoundTripLimits.BackslashThatChanges`. `ParserExact.AcceptedReparsesIff` shows that nothing but this
  and a wrapped literal spoils re-parsing. Its condition that no argument list is broken off is needed:
  `RoundTripLimits.BrokenOffForgets`.
- The flag that a tree node carries to detect circular definitions is cleared on detection, so evaluation can enter the
  circle again. It ends if each right-hand side that can be reached has at most one variable
  (`ClassAdEvalFlags.OneVariableLeavesNoFlags`), but an attribute defined as the sum of three references to itself is
  evaluated without end: `ClassAdEvalFlags.FlagsMissCircle`.
- A call whose argument list does not parse is still a call: the failure is ignored and the parser carries on
  (`parser.cpp:103-152`). The model does the same, so text such as `f(1` is accepted, here as there.
- In new ClassAds a ternary whose chosen branch fails evaluates that branch a second time, and a search for the root
  that fails leaves the scope moved. With ads nested in a circle, so that there is no root, an evaluation can succeed
  and yet not restore its scope, and a larger depth budget can give another value: `ScopedEvalQuirks.ScopeNotRestored` and
  `ScopedEvalQuirks.DepthChangesValue`. `ScopedEvalLaws` proves both laws wherever there is a root, and without one
  for expressions that avoid ternaries or avoid references that ask a scope for `root` or `toplevel`. For all
  expressions together the condition is exact. From an ad that does not define `self`, every expression restores its
  scope if and only if the path of scopes does not loop: `ScopedRootless.RestoresIffRooted`. Without a root every
  success at one depth is the same success at another if and only if every attribute comes out the same at both:
  `ScopedDepth.DeeperIffSettled`.
- `CopyFromChain` empties the destination before it reads the source. If the source is chained to the destination the
  result is right exactly when nothing of the destination showed through: `ScopedUpdates.CopyKeepsLookupIff`, with
  `ScopedUpdates.CopyLosesInherited` for a case where it is not.
- Deleting a chained attribute hides it only if its name parses to itself: `AttrListModel.DeleteHides`, and
  `AttrListModel.KeywordNotHidden` for a name that does not.
- A malformed broker contact makes the client enter the waiting table twice and trip its own assertion:
  `CcbClient.TryNextOk`, `CcbClient.HandleOk`.
- A reverse-connect result that cannot be sent while the listener is connecting leaves it in two modes at once, and the connect
  callback then trips an assertion: `CcbListener.StepKeeps`, `CcbListener.SpoiledAborts`.
- A negative sweep interval, which the configuration accepts, drops the records of all live targets:
  `CcbInvariants.SweepKeepsIff`, `CcbInvariants.NegativeIntervalBreaks`.
- A rewrite of the reconnect file that is aborted leaves its lines behind, and the next one appends to them. Pruned
  records come back with the next restart exactly when such a leftover names one: `CcbReconnectFile.SaveAllPrunesIff`,
  with `CcbReconnectFile.LeftoverReturns` for a case.
- `&&` evaluated lazily is not `&&` of both values: `ClassAdOperators.LazyVersusStrict` says exactly where they differ.

## Model
| member | source | states |
|---|---|---|
| RoundTrip.PrintThenParse | src/.deprecate_classad.old/parser.cpp:154-660 | for every tree of the parser's shape within the lexical limits, parsing its printed text gives exactly that tree |
| RoundTrip.Reads | src/.deprecate_classad.old/parser.cpp:284-635 | the same in context: printed text followed by anything a rung may meet leaves the rung with that tree and that rest |
| RoundTrip.ReadsNeg | src/.deprecate_classad.old/parser.cpp:250-271 | a printed unary minus takes in the whole expression behind it and gives back the same node |
| RoundTrip.ReadsCall | src/.deprecate_classad.old/parser.cpp:102-152 | a printed function call parses back with all its arguments in order |
| RoundTrip.ReadsInteger | src/.deprecate_classad.old/parser.cpp:154-283 | every 32-bit integer, printed, parses back to itself, the smallest and folded negatives included |
| RoundTrip.StringBodyReads | src/.deprecate_classad.old/scanner.cpp:256-324 | an escaped string scans back to the string, if it does not end in a backslash or the line or the text ends behind it |
| RoundTrip.StringBodyRunsOn | src/.deprecate_classad.old/scanner.cpp:256-324 | conversely a string that ends in a backslash with more text on its line behind it never scans back to itself |
| ParserExact.RoundTripIff | src/.deprecate_classad.old/parser.cpp:154-660 | for every tree with sound leaves and no floats the round trip gives the same tree if and only if the tree has the parser's shape and no string in it ends in a backslash, except at the very end |
| ParserExact.Mirrors | src/.deprecate_classad.old/parser.cpp:284-635 | a rung that makes of printed text the very tree it was printed from stops exactly where the print stopped; the tree then has the rung's shape, and a string in it that ends in a backslash stands at the end of the text |
| ParserShape.LevelBuilds | src/.deprecate_classad.old/parser.cpp:284-635 | whatever text a rung accepts, the tree's leaves are lexically sound; if no literal that wraps to a negative stands directly before an operator, the tree has the rung's shape and no operator of that rung or tighter follows |
| ParserShape.FactorBuilds | src/.deprecate_classad.old/parser.cpp:154-283 | the same for factors |
| ParserShape.FunctionBuilds | src/.deprecate_classad.old/parser.cpp:102-152 | the same for the arguments of a call, also where the list is broken off |
| ParserShape.ScanOk | src/.deprecate_classad.old/scanner.cpp:124-150 | every token of every text is lexically sound: names are no keywords, strings hold no NUL and no quote before a line end |
| ParserExact.AcceptedReparses | src/.deprecate_classad.old/parser.cpp:637-660 | a tree from any accepted text in which no wrapped literal stands directly before an operator, and no string that ends in a backslash before the end, prints to text that parses to the same tree |
| ParserExact.AcceptedReparsesIff | src/.deprecate_classad.old/parser.cpp:637-660 | for accepted text whose argument lists are not broken off: it does so if and only if no wrapped literal stands directly before an operator and no string ends in a backslash, except at the very end |
| ParserExact.AcceptedShape | src/.deprecate_classad.old/parser.cpp:637-660 | for every accepted text: it does so if and only if the tree has the parser's shape and no string ends in a backslash, except at the very end |
| ParserExact.LevelTraces | src/.deprecate_classad.old/parser.cpp:284-635 | from the shape of a tree back to its text: a rung that succeeds on unbroken text with a tree of the right shape took in no wrapped literal before an operator |
| RoundTripLimits.AssignmentRoundTrip | src/.deprecate_classad.old/parser.cpp:662-694 | `name = expression`, printed, parses back to that name and that tree |
| RoundTripLimits.WrappedLiteralReparsesIff | src/.deprecate_classad.old/scanner.cpp:222-254 | literals up to the largest `long`, in front of an operator, are accepted and wrap; the tree re-parses if and only if the kept value is not negative |
| RoundTripLimits.AcceptedTextThatChanges | src/.deprecate_classad.old/scanner.cpp:222-254 | 2147483648, the first literal that wraps, in an accepted text whose printed tree parses to another tree |
| RoundTripLimits.StringReparsesIff | src/.deprecate_classad.old/scanner.cpp:256-324 | a sum that starts with any string, at the end of a line, is accepted; its tree re-parses if and only if the string does not end in a backslash |
| RoundTripLimits.BackslashThatChanges | src/.deprecate_classad.old/scanner.cpp:256-324 | one such string, in an accepted text whose printed tree does not parse to the same tree |
| RoundTripLimits.BrokenOffForgets | src/.deprecate_classad.old/parser.cpp:102-152 | a wrapped literal before an operator in an argument list that is broken off leaves no trace: the text is accepted and its tree re-parses |
| Precedence.ChainGroups | src/.deprecate_classad.old/parser.cpp:284-635 | every chain of operands and operators without parentheses parses to the tree that the six groups of operators and association to the left demand, which is the only tree respecting them with that text |
| Precedence.ThreeOperands | src/.deprecate_classad.old/parser.cpp:284-635 | of two operators the second takes the middle operand if and only if it is of a tighter group; the groups are listed by operator |
| Precedence.RespectsIsShape | src/.deprecate_classad.old/parser.cpp:284-635 | the trees of the parser's shape are exactly those in which every operator to the left is of the same or a tighter group and every one to the right of a tighter group |
| SourceTexts.SkipWhite | src/.deprecate_classad.old/scanner.cpp:124-150 | white space of any of the six kinds, however much, in front of a token does not matter |
| SourceTexts.FloatScans | src/.deprecate_classad.old/scanner.cpp:222-254 | digits, a point and digits or none are one real number |
| SourceTexts.ExponentScans | src/.deprecate_classad.old/scanner.cpp:222-254 | an exponent with or without a sign is part of it |
| SourceTexts.FloatParses | src/.deprecate_classad.old/parser.cpp:154-283 | a real number is an expression, and a minus sign in front turns its sign |
| SourceTexts.HugeIsMinusOne | src/.deprecate_classad.old/scanner.cpp:222-254 | every literal beyond the largest `long` is kept as -1 |
| SourceTexts.UnclosedIsError | src/.deprecate_classad.old/scanner.cpp:256-377 | a string or time without its closing quote is an error token that takes the opening quote only |
| SourceTexts.AssignmentIs | src/.deprecate_classad.old/parser.cpp:662-694 | a name followed by anything is an assignment if and only if an equals sign and a whole expression follow, and then of that name and that expression |
| SourceTexts.SemicolonsSeparate | src/.deprecate_classad.old/parser.cpp:102-152 | a call with its arguments separated by commas and semicolons in any mixture parses to the call with those arguments in order |
| SourceTexts.StrayCharacters | src/.deprecate_classad.old/scanner.cpp:379-526 | half of an operator is an error token that takes the character, a character without meaning one that takes nothing |
| SourceTexts.PrintedForms | src/.deprecate_classad.old/ast.cpp:944-1142 | how parentheses, minus signs, operators and words are written |
| SourceTexts.PrintedCall | src/.deprecate_classad.old/ast.cpp:1526-1546 | how a call is written |
| ClassAdValues.SymbolMeans | src/.deprecate_classad.old/operators.cpp:107-304 | the text of two operands worth integers with any of the fourteen symbols between them parses, and evaluates to what the symbol says: sums, differences and products in 32 bits, truncated quotients, the six comparisons, identity, and, or |
| ClassAdValues.UnaryMeans | src/.deprecate_classad.old/ast.cpp:338-460 | parentheses around an operand worth an integer change nothing, and a minus sign in front negates in 32 bits |
| ClassAdValues.UnaryElsewhere | src/.deprecate_classad.old/operators.cpp:107-304 | parentheses keep any value but a time; a minus sign makes everything but integers and UNDEFINED an error |
| ClassAdValues.WordsMean | src/.deprecate_classad.old/scanner.cpp:152-185 | TRUE, T, FALSE, F, UNDEFINED and ERROR, in any mixture of cases, parse and evaluate to 1, 1, 0, 0, UNDEFINED and ERROR |
| ClassAdValues.LiteralEvaluates | src/.deprecate_classad.old/ast.cpp:338-355 | every literal evaluates to itself and leaves the flags as they were |
| ScannerImpl.Scanner.Scan | src/.deprecate_classad.old/scanner.cpp:124-150 | the scanning loop yields the token and the rest of the scanner function and stays inside its buffer |
| ScannerImpl.Scanner.ScanKeyword | src/.deprecate_classad.old/scanner.cpp:152-185 | a keyword is recognised, in any case, exactly when the whole word is one |
| ScannerImpl.Scanner.ScanVariable | src/.deprecate_classad.old/scanner.cpp:187-220 | the longest run of name characters, copied to the buffer |
| ScannerImpl.Scanner.ScanNumber | src/.deprecate_classad.old/scanner.cpp:222-254 | integers and reals are told apart by a decimal point; an integer is converted as the C library does, wrapping to 32 bits |
| ScannerImpl.Scanner.CountString | src/.deprecate_classad.old/scanner.cpp:256-324 | the counting pass gives exactly the length of the string the copying pass will write, or finds it unterminated |
| ScannerImpl.Scanner.CopyString | src/.deprecate_classad.old/scanner.cpp:256-324 | the copying pass writes exactly the counted characters, and with the terminator stays inside the buffer |
| ScannerImpl.Scanner.ScanString | src/.deprecate_classad.old/scanner.cpp:256-324 | both passes together give the token of the scanner function |
| ScannerImpl.Scanner.ScanTime | src/.deprecate_classad.old/scanner.cpp:326-377 | likewise for times in single quotes |
| ParserImpl.Parser.LookToken | src/.deprecate_classad.old/parser.cpp:65-81 | looking ahead returns the next token and consumes nothing |
| ParserImpl.Parser.ReadToken | src/.deprecate_classad.old/parser.cpp:49-63 | reading returns the next token and moves behind it |
| ParserImpl.Parser.ParseFactor | src/.deprecate_classad.old/parser.cpp:154-283 | the imperative factor parser returns what the parser function returns and leaves the input where it says, failures included |
| ParserImpl.Parser.ParseFunction | src/.deprecate_classad.old/parser.cpp:102-152 | the loop over arguments collects what the function collects, up to a closing parenthesis or a failure |
| ParserImpl.Parser.ParseLevel | src/.deprecate_classad.old/parser.cpp:284-635 | each rung of the precedence ladder refines the parser function |
| ParserImpl.Parser.ParseMore | src/.deprecate_classad.old/parser.cpp:284-329 | the left-associative tail of a rung refines the parser function |
| ParserImpl.Parser.ParseRval | src/.deprecate_classad.old/parser.cpp:637-660 | parsing a whole expression ends on every input and refines the parser function |
| ParserImpl.Parser.ParseAssign | src/.deprecate_classad.old/parser.cpp:662-694 | parsing a whole assignment ends on every input and refines the parser function |
| PrinterImpl.CalcPrintToStr | src/.deprecate_classad.old/ast.cpp:729-936 | the counting pass gives exactly the length of the printed text |
| PrinterImpl.CountString | src/.deprecate_classad.old/ast.cpp:755-772 | a string counts its characters, its quotes twice, and two delimiters |
| PrinterImpl.CountArgs | src/.deprecate_classad.old/ast.cpp:1500-1524 | the arguments of a call count with their separators |
| PrinterImpl.IntegerFits | src/.deprecate_classad.old/ast.cpp:735-743 | no `int` needs more than eleven characters, so the buffer it is measured in is large enough |
| PrinterImpl.PrintToStr | src/.deprecate_classad.old/ast.cpp:944-1142 | printing appends exactly the printed text and a terminator, inside a buffer of the counted size |
| PrinterImpl.PrintArgsToStr | src/.deprecate_classad.old/ast.cpp:1526-1546 | likewise for the arguments of a call |
| PrinterImpl.PrintToNewStr | src/.deprecate_classad.old/astbase.cpp:468-493 | counting, allocating and printing fill the new buffer exactly, so its sanity check cannot fail |
| ClassAdOperators.NeverExcept | src/.deprecate_classad.old/operators.cpp:107-304 | on the values of any two expressions no operator, evaluated strictly or lazily, and no unary minus reaches an internal-error exit |
| ClassAdOperators.MetaEqualIsEquality | src/.deprecate_classad.old/operators.cpp:221-304 | `=?=` is always 0 or 1 and is equality of values, hence an equivalence; `=!=` is its negation |
| ClassAdOperators.LazyVersusStrict | src/.deprecate_classad.old/operators.cpp:383-540 | for logical or lazy evaluation equals evaluating both sides; for `&&` they differ exactly when the left is a string, ERROR or UNDEFINED and the right is false, or the left is UNDEFINED and the right a string or ERROR |
| ClassAdOperators.AndTable | src/.deprecate_classad.old/operators.cpp:452-540 | `&&` of two values is 0 if and only if one is false, 1 if and only if both are true, ERROR if and only if neither is false and one is an error or a string, and UNDEFINED otherwise |
| ClassAdOperators.OrTable | src/.deprecate_classad.old/operators.cpp:452-540 | the dual for the logical or |
| ClassAdOperators.LazyAndTable | src/.deprecate_classad.old/operators.cpp:383-450 | as it is evaluated, a left side that is not true decides `&&`, and a true one leaves it to the right side |
| ClassAdOperators.StrictElsewhere | src/.deprecate_classad.old/operators.cpp:107-304 | exactly when any operator but the logical and the meta ones gives ERROR, and exactly when UNDEFINED |
| ClassAdOperators.OrderLaws | src/.deprecate_classad.old/operators.cpp:702-775 | comparisons of two integers or two strings are the six relations of one order, in which any two compare, and which for strings ignores case |
| ClassAdOperators.OrderIsTransitive | src/.deprecate_classad.old/operators.cpp:702-775 | that order is transitive, and strictly so where one of the steps is strict |
| ClassAdOperators.StringOrder | src/.deprecate_classad.old/operators.cpp:702-775 | for strings it is the order of dictionaries on lower-case letters |
| ClassAdOperators.ArithmeticLaws | src/.deprecate_classad.old/operators.cpp:307-381 | in 32 bits addition and multiplication commute, subtraction undoes addition, and unary minus is subtraction from zero |
| ClassAdOperators.DivisionTruncates | src/.deprecate_classad.old/operators.cpp:307-381 | the remainder left by division is smaller than the divisor and has the dividend's sign, for every division that does not overflow |
| ClassAdEval.PrefixSwitches | src/.deprecate_classad.old/ast.cpp:390-427 | a MY prefix, in any case, restricts a name to the ad itself, a TARGET prefix to the other ad, whose own point of view is then taken |
| ClassAdEval.PlainNameResolves | src/.deprecate_classad.old/ast.cpp:428-460 | a name without a prefix is MY's definition seen from MY, else TARGET's seen from TARGET unless the search is restricted, else the clock or UNDEFINED |
| ClassAdEval.PrefixedNameResolves | src/.deprecate_classad.old/ast.cpp:390-460 | with a MY or TARGET prefix it is the definition of just that ad, seen from that ad, else the clock or UNDEFINED |
| ClassAdEval.UnknownPrefix | src/.deprecate_classad.old/ast.cpp:390-427 | with any other prefix it is UNDEFINED |
| ClassAdEval.TargetOfTarget | src/.deprecate_classad.old/ast.cpp:390-427 | the TARGET of the other ad is this ad again |
| ClassAdEval.ResolveCloses | src/.deprecate_classad.old/ast.cpp:390-460 | every name, with any prefix, resolves to a tree that exists |
| ClassAdEvalFlags.FlagsAreInvisible | src/.deprecate_classad.old/ast.cpp:338-460 | where references are acyclic, evaluation with flags gives exactly the flag-free meaning and leaves every flag as it was, wherever it starts |
| ClassAdEvalFlags.AcyclicEvaluates | src/.deprecate_classad.old/ast.cpp:338-460 | so a top-level evaluation gives the meaning and leaves every flag clear |
| ClassAdEvalFlags.OneVariableEnds | src/.deprecate_classad.old/ast.cpp:338-460 | if each right-hand side that the expression can reach has at most one variable, evaluation ends even on cycles, within as many nested references as there are trees to reach, and sets no flag for good, whatever the rest of the ads |
| ClassAdEvalFlags.OneVariableLeavesNoFlags | src/.deprecate_classad.old/ast.cpp:338-460 | so a top-level evaluation ends with every flag clear |
| ClassAdEvalFlags.FlagsMissCircle | src/.deprecate_classad.old/ast.cpp:338-460 | an attribute defined as the sum of three references to itself is never evaluated to an end, starting with every flag clear |
| ClassAdEvalFlags.CircularNameIsError | src/.deprecate_classad.old/ast.cpp:338-460 | a name that leads into a circle of names is ERROR whenever its evaluation ends |
| ClassAdEvalFlags.CircleEnds | src/.deprecate_classad.old/ast.cpp:338-460 | evaluation of a name that leads into a circle of names ends, within as many references as the circle has trees, and sets no flag for good, whatever the rest of the ads |
| ClassAdEvalFlags.CircularDefinitionIsError | src/.deprecate_classad.old/ast.cpp:338-460 | a top-level evaluation of such a name ends with ERROR and every flag clear, whatever else the ads define |
| ClassAdEvalFlags.SelfDefinitionIsError | src/.deprecate_classad.old/ast.cpp:338-460 | an attribute defined as itself is ERROR, and every flag is clear afterwards |
| ClassAdEvalFlags.MoreFuel | src/.deprecate_classad.old/ast.cpp:338-460 | the bound on nested references is only a bound: once it suffices, a larger one gives the same value and flags |
| ClassAdEvalImpl.Evaluator.EvalTree | src/.deprecate_classad.old/ast.cpp:338-355 | the evaluator that sets and clears flags in place computes the evaluation function's value and flags |
| ClassAdEvalImpl.Evaluator.EvalNode | src/.deprecate_classad.old/evaluateOperators.cpp:35-80 | likewise for a node's own evaluation, left operand first |
| AttrListModel.InsertSets | src/.deprecate_classad.old/attrlist.cpp:595-631 | a duplicate-checked insertion sets one name, in any case, and changes no other lookup |
| AttrListModel.InsertIsLast | src/.deprecate_classad.old/attrlist.cpp:595-631 | the inserted attribute is last, and the others keep their places, but for the first of the same name |
| AttrListModel.DeleteHides | src/.deprecate_classad.old/attrlist.cpp:637-704 | after a deletion the name is absent or UNDEFINED if and only if the parent does not have it, or its name parses to itself, or it was UNDEFINED there |
| AttrListModel.ScannedNamesHide | src/.deprecate_classad.old/attrlist.cpp:637-704 | every name the scanner can produce parses to itself, so deletion hides it |
| AttrListModel.DeleteKeepsOthers | src/.deprecate_classad.old/attrlist.cpp:637-704 | deletion changes another lookup if and only if that is the name its UNDEFINED entry is filed under and it was not that entry already; never for a name that parses to itself |
| AttrListModel.KeywordNotHidden | src/.deprecate_classad.old/attrlist.cpp:637-704 | a parent's attribute named `T`, which is a keyword, stays visible after its deletion |
| AttrListModel.CollapseKeepsLookup | src/.deprecate_classad.old/attrlist.cpp:757-785 | collapsing a chain changes no lookup |
| AttrListModel.CollapseAppends | src/.deprecate_classad.old/attrlist.cpp:757-785 | the ad's own attributes stay in front and the parent's that it lacked follow in order |
| AttrListModel.AlwaysUnique | src/.deprecate_classad.old/attrlist.cpp:595-704 | over every sequence of operations the names stay unique, ignoring case |
| AttrHash.HashAgrees | src/.deprecate_classad.old/attrlist.cpp:43-53 | names that differ only in case have the same hash |
| AttrHash.AddSets | src/condor_utils/HashTable.h:256-318 | adding a new key makes it found and changes no other lookup, whether or not the table grows |
| AttrHash.RemoveSets | src/condor_utils/HashTable.h:456-505 | removing a key makes it absent and changes no other lookup |
| AttrHash.GrowKeeps | src/condor_utils/HashTable.h:650-688 | growing the table changes no lookup |
| AttrHash.LoadStays | src/condor_utils/HashTable.h:256-318 | the table grows, to twice its size and one, if and only if an addition would fill four fifths of it, so it never stays that full |
| AttrHash.HashOfTwo | src/.deprecate_classad.old/attrlist.cpp:43-53 | the hash of one name worked out |
| AttrHashImpl.HashTable.Lookup | src/condor_utils/HashTable.h:323-349 | walking a chain finds what the table holds under the key |
| AttrHashImpl.HashTable.Insert | src/condor_utils/HashTable.h:256-318 | the new table is the old one with an entry added, grown when four fifths full, and its count of entries stays right; a new key is then found and no other lookup changes |
| AttrHashImpl.HashTable.Resize | src/condor_utils/HashTable.h:650-688 | the loops that move every entry build exactly the grown table |
| AttrHashImpl.HashTable.Remove | src/condor_utils/HashTable.h:456-505 | the new table is the old one without the key, and its count stays right |
| AttrHashImpl.HashTable.Clear | src/condor_utils/HashTable.h:510-524 | no key is found any more and the count is zero |
| AttrListImpl.AttrList.Lookup | src/.deprecate_classad.old/attrlist.cpp:928-947 | the hash index finds what a linear search of the ad and then of its parent finds; while inserting, of the ad alone |
| AttrListImpl.AttrList.Insert | src/.deprecate_classad.old/attrlist.cpp:595-631 | an attribute of that name goes, the new one is last, and list, tail and index stay consistent |
| AttrListImpl.AttrList.Unlink | src/.deprecate_classad.old/attrlist.cpp:637-687 | exactly the first node of that name is taken out, and list, tail and index stay consistent |
| AttrListImpl.AttrList.Delete | src/.deprecate_classad.old/attrlist.cpp:637-704 | the ad becomes the model's ad after deletion, with UNDEFINED in front of a parent's attribute; the result says whether there was one |
| AttrListImpl.AttrList.Clear | src/.deprecate_classad.old/attrlist.cpp:2037-2062 | the ad is empty and unchained, and consistent |
| AttrListImpl.AttrList.ChainToAd | src/.deprecate_classad.old/attrlist.cpp:2264-2272 | the other ad becomes the parent, and if it shares nothing with this one the two are properly chained |
| AttrListImpl.AttrList.ChainCollapse | src/.deprecate_classad.old/attrlist.cpp:757-785 | the ad becomes the collapsed ad, unchained and consistent |
| AttrListText.ReadsBack | src/.deprecate_classad.old/attrlist.cpp:1497-1535 | reading the printed text of a chained ad succeeds, and lookups in the result find what the printed attributes of ad and parent give |
| AttrListText.ReadsBackWhole | src/.deprecate_classad.old/attrlist.cpp:2216-2261 | with no attribute invisible, the ad read back agrees with the chained ad on every name |
| AttrListText.VisibleInPlace | src/.deprecate_classad.old/attrlist.cpp:1497-1535 | wherever an attribute stands it is printed in its place if and only if it is not invisible |
| AttrListText.ReadsBackVisible | src/.deprecate_classad.old/attrlist.cpp:1497-1535 | what comes back under a name is the ad's own attribute unless it is invisible, else the parent's unless invisible |
| AttrListText.TrailingSpaceFails | src/.deprecate_classad.old/attrlist.cpp:2216-2261 | white space behind the last line of a printed ad makes reading fail |
| AttrListText.EmptyLineIsNoAssignment | src/.deprecate_classad.old/parser.cpp:662-694 | an empty line is no assignment, so reading makes progress with every line it accepts |
| AttrListIO.SPrint | src/.deprecate_classad.old/attrlist.cpp:1497-1535 | the loops over parent and ad produce exactly the model's text, invisible attributes left out |
| AttrListIO.InitFromString | src/.deprecate_classad.old/attrlist.cpp:2216-2261 | the reading loop clears the ad, inserts line by line, stops at the first bad line, and ends as the reading function says |
| ScopedAds.UpwardFails | src/classad/classad.cpp:439-485 | the search of the scopes fails only for want of a root and only for its two names |
| ScopedAds.FindsNearest | src/classad/classad.cpp:439-485 | a search finds a name in the nearest enclosing scope that has it, and stops there |
| ScopedAds.FindsNothing | src/classad/classad.cpp:439-485 | a search that finds nothing means that no enclosing scope, however far up or around, has the name |
| ScopedAds.RootIsTop | src/classad/exprTree.cpp:173-195 | the root is an enclosing scope without a parent; there is none if and only if the path of scopes returns to its start |
| ScopedEval.Eval | src/classad/attrrefs.cpp:153-199 | evaluation ends on every ad, circular or not, and the depth is afterwards what it was before |
| ScopedEval.FindExpr | src/classad/attrrefs.cpp:349-445 | a failed search leaves the depth what it was |
| ScopedEvalLaws.Restores | src/classad/attrrefs.cpp:153-199 | a successful evaluation ends in the scope it started in; with a root, or where no reference asks a scope for the root, a failed one does too |
| ScopedEvalLaws.Deeper | src/classad/attrrefs.cpp:153-199 | a success at one depth gives the same value in the same scope at every larger depth |
| ScopedRootless.LeavesScope | src/classad/operators.cpp:322-405 | without a root, for any two ads of which neither defines `self` and the second does not define `root`, at any depth above 0: some operators and some expression succeed in the first and end in the second |
| ScopedRootless.RestoresIffRooted | src/classad/exprTree.cpp:141-195 | from an ad that does not define `self`, with the root that it has, every expression restores its scope under all operators and at every depth if and only if the path of scopes does not loop |
| ScopedDepth.SettledAgrees | src/classad/attrrefs.cpp:153-199 | if every attribute comes out the same one reference below two depths, so does every expression at those depths, failures and the scope they leave included |
| ScopedDepth.TellsOutcome | src/classad/operators.cpp:322-405 | without a root a ternary tried twice succeeds with one value if a given expression succeeds and with another if it fails |
| ScopedDepth.DeeperIffSettled | src/classad/attrrefs.cpp:153-199 | without a root, with operators that tell ads apart: every success at one depth is the same success at another if and only if every attribute comes out the same at both |
| ScopedEvalLaws.NameMeansNearest | src/classad/attrrefs.cpp:349-445 | a plain name is worth what the nearest scope that defines it says, evaluated in that scope one reference deeper |
| ScopedEvalLaws.NameMeansAlternate | src/classad/attrrefs.cpp:349-445 | a plain name that no enclosing scope defines is worth what the nearest scope on the alternate scope's path says, evaluated there one reference deeper |
| ScopedEvalLaws.NameMeansUndefined | src/classad/attrrefs.cpp:349-445 | a plain name that neither path defines is UNDEFINED |
| ScopedEvalLaws.ScopedNameMeans | src/classad/attrrefs.cpp:349-445 | a name behind an ad is worth what the nearest scope from that ad up says, and UNDEFINED if there is none, whatever the alternate scopes define |
| ScopedEvalLaws.ScopedNameElsewhere | src/classad/attrrefs.cpp:349-445 | behind UNDEFINED a name is UNDEFINED, and behind any value but an ad an error |
| ScopedEvalLaws.AbsoluteNameMeans | src/classad/attrrefs.cpp:349-445 | an absolute name is worth what it is worth in the root, wherever evaluation stands; without a root it fails |
| ScopedEvalLaws.ReservedNamesMean | src/classad/classad.cpp:439-485 | `self`, `parent`, `root` and `toplevel`, where they are not defined, are the scope, its parent and the root |
| ScopedEvalLaws.ReservedNamesMissing | src/classad/classad.cpp:439-485 | without a parent and an alternate scope `parent` is UNDEFINED; without a root its names fail |
| ScopedEvalLaws.NameNeedsDepth | src/classad/attrrefs.cpp:153-199 | a defined name fails when no reference is left to spend |
| ScopedEvalLaws.TernaryIsBranch | src/classad/operators.cpp:322-405 | a ternary with a decided condition is its chosen branch, succeeding exactly when that does, whatever the other branch is |
| ScopedEvalLaws.LogicalDecided | src/classad/operators.cpp:322-405 | a first operand that decides a logical operation makes the others irrelevant, even if they would fail |
| ScopedEvalLaws.OperationCombines | src/classad/operators.cpp:322-362 | any other operation, with however many operands, is what the operator makes of their values, each evaluated in the scope the whole started in |
| ScopedEvalQuirks.ScopeNotRestored | src/classad/operators.cpp:322-405 | without a root a ternary can succeed and leave another scope |
| ScopedEvalQuirks.DepthChangesValue | src/classad/operators.cpp:322-405 | without a root nested ternaries can succeed with different values at different depths |
| ScopedReferences.ExternalReferencesSuffice | src/classad/classad.cpp:917-1021 | adding attributes outside the external references and the four reserved names changes the value at no depth, whatever attributes the ad has that the expression does not reach |
| ScopedReferences.ExternalUndefined | src/classad/classad.cpp:917-1021 | conversely every external reference is a name the ad does not define |
| ScopedEvalImpl.EvalState.constructor | src/classad/exprTree.cpp:141-171 | a fresh state has the full depth, the given scope, and the root of that scope |
| ScopedEvalImpl.EvalState.SetRootScope | src/classad/exprTree.cpp:173-195 | the loop finds the topmost scope, or none if the path returns to its start |
| ScopedEvalImpl.EvalState.LookupInScope | src/classad/classad.cpp:439-485 | the loop over scopes finds what the search function finds and leaves the state in the scope it stopped in |
| ScopedEvalImpl.EvalState.FindExpr | src/classad/attrrefs.cpp:349-445 | the search of a reference with its scope expression and alternate scope, and the state it leaves, are the function's |
| ScopedEvalImpl.EvalState.Evaluate | src/classad/exprTree.cpp:56-60 | evaluation with a scope and depth that change in place computes the evaluation function |
| ScopedEvalImpl.EvalState.EvaluateReference | src/classad/attrrefs.cpp:153-199 | likewise for a reference, whose depth is counted down and up and whose scope is put back |
| ScopedEvalImpl.EvalState.EvaluateOperation | src/classad/operators.cpp:322-405 | likewise for an operation with its short circuits and the second try of a failed ternary branch |
| ScopedEvalImpl.EvalState.CollectReferences | src/classad/classad.cpp:917-1021 | the collected set is exactly the external references, and the scope is put back |
| ScopedUpdates.FlattenLookup | src/classad/classad.cpp:402-417 | looking a name up along a chain finds what the flattened chain holds |
| ScopedUpdates.CopyKeepsLookup | src/classad/classad.cpp:117-137 | flattening a chain of any depth into an ad outside it changes no lookup |
| ScopedUpdates.CopyKeepsLookupIff | src/classad/classad.cpp:117-137 | in general it changes none if and only if nothing of the destination showed through in the source |
| ScopedUpdates.CopyLosesInherited | src/classad/classad.cpp:117-137 | a source that has its one attribute from the destination loses it in the copy |
| ScopedUpdates.InsertSets | src/classad/classad.cpp:344-375 | insertion sets one name of one ad and changes no other name of it and no other ad |
| ScopedUpdates.CopyStandsAlone | src/classad/classad.cpp:117-137 | a copy is unchained, stands in the scope of its source, and no other ad changes |
| ScopedUpdates.DeleteHides | src/classad/classad.cpp:491-522 | a deleted name is absent, or UNDEFINED if and only if the chain has it |
| ScopedUpdates.DeleteKeepsOthers | src/classad/classad.cpp:491-522 | deletion changes no other lookup |
| ScopedUpdatesImpl.ClassAds.Insert | src/classad/classad.cpp:344-375 | an attribute without a name is refused, any other is set |
| ScopedUpdatesImpl.ClassAds.Lookup | src/classad/classad.cpp:402-417 | the recursion along the chain finds what the lookup function finds |
| ScopedUpdatesImpl.ClassAds.Delete | src/classad/classad.cpp:491-522 | the ads become the model's ads after deletion; the result says whether the name was found |
| ScopedUpdatesImpl.ClassAds.Update | src/classad/classad.cpp:585-595 | the loop over the source's attributes overrides the destination's with them |
| ScopedUpdatesImpl.ClassAds.UpdateFromChain | src/classad/classad.cpp:117-127 | the destination gets the whole flattened chain, nearer ads overriding farther ones |
| ScopedUpdatesImpl.ClassAds.CopyFromChain | src/classad/classad.cpp:129-137 | copying an ad to itself is refused; otherwise the ads become the model's ads after the copy, whether or not the destination is in the chain |
| CcbProtocol.AttachedToRequestedTarget | src/ccb/ccb_client.cpp:746-827 | in every run of brokers, listeners and clients, restarts included, a connection attached to a client presented that client's connect id and came from a daemon registered, when the request was forwarded, with the broker and under the identifier of one of the client's contacts |
| CcbProtocol.AttachedOnce | src/ccb/ccb_client.cpp:746-827 | in every run a client gets at most one connection, and none while it holds its socket or is in the waiting table |
| CcbProtocol.BrokersStayConsistent | src/ccb/ccb_server.cpp:197-517 | in every run each broker's tables stay consistent and its file reproduces its records |
| CcbProtocol.AlwaysHonest | src/ccb/ccb_listener.cpp:402-534 | at every point of every run each forwarded request, pending reverse connect and greeting goes back to a request of the client whose connect id it carries |
| CcbProgress.RequestCanComplete | src/ccb/ccb_listener.cpp:402-534 | wherever a run has come, a request under way to a registered daemon that reads its socket can complete and attach that daemon's connection to the client, if the broker has room for the request |
| CcbProgress.ConnectionStaysPossible | src/ccb/ccb_client.cpp:481-827 | from every point of every run a daemon can register with a broker that has room, and a new client with any new connect id can then get a connection from just that daemon |
| CcbProgress.SomeRunConnects | src/ccb/ccb_client.cpp:746-827 | so there is a run from one fresh broker that connects a client |
| CcbInvariants.RunKeeps | src/ccb/ccb_server.cpp:197-517 | after every sequence of events global and per-target request tables index each other exactly, every live target has a record, and no client socket is answered twice |
| CcbInvariants.StepKeeps | src/ccb/ccb_server.cpp:197-517 | every single event keeps that invariant |
| CcbInvariants.RegistrationKeeps | src/ccb/ccb_server.cpp:223-294 | so does a registration, new or reconnecting, whether or not its reply can be sent |
| CcbInvariants.HandleRequestKeeps | src/ccb/ccb_server.cpp:306-394 | so does a client's request, forwarded or not |
| CcbInvariants.HandleResultKeeps | src/ccb/ccb_server.cpp:404-517 | so does every message of a target, matching its request or not |
| CcbInvariants.RemoveTargetKeeps | src/ccb/ccb_server.cpp:756-784 | so does the removal of a target with its pending requests |
| CcbInvariants.RemoveRequestKeeps | src/ccb/ccb_server.cpp:833-858 | so does the removal of a request |
| CcbInvariants.SweepDrops | src/ccb/ccb_server.cpp:1157-1202 | a sweep drops the record of a live target if and only if the interval is negative, and any other if and only if more than two intervals have passed since it was last marked |
| CcbInvariants.SweepKeepsIff | src/ccb/ccb_server.cpp:1157-1202 | a sweep keeps the records of live targets, and with them the whole invariant, if and only if the interval is not negative or there are none |
| CcbInvariants.SuccessNeedsReport | src/ccb/ccb_server.cpp:404-517 | a client is told of success only when a target reports it for that request with its connect id; every reply goes to the socket that asked |
| CcbInvariants.NegativeIntervalBreaks | src/ccb/ccb_server.cpp:1157-1202 | one target and the interval -1 |
| CcbInvariants.OwnershipNeedsCookie | src/ccb/ccb_server.cpp:652-754 | no registration takes over a recorded identifier without its cookie and address, or changes whose it is |
| CcbEffects.ResultEffects | src/ccb/ccb_server.cpp:404-517 | a message of a target drops it if and only if it is a hang-up, a bad result, a heartbeat that cannot be answered, or a report with the wrong connect id for a pending request of a client that is there; the requests that end are those of a dropped target, else the one reported on; an answered heartbeat changes nothing, and no message changes another target or a record |
| CcbEffects.RequestEffects | src/ccb/ccb_server.cpp:306-394 | a request becomes exactly one more pending request under the first free identifier if its target is registered and it can be forwarded; else it is refused and no table of requests changes |
| CcbEffects.RegistrationEffects | src/ccb/ccb_server.cpp:223-294 | a rightful claim gets its identifier, any other registration the first free one; if the reply goes out the socket is registered there without requests, else nothing is; only requests of an older socket there end |
| CcbEffects.RemovalEffects | src/ccb/ccb_server.cpp:833-858 | removing a request changes no other request and no target |
| CcbTables.NextFree | src/ccb/ccb_server.cpp:712-754 | the identifier handed out is the first one not in use, counting up with wrap-around |
| CcbTables.FirstFreeUnique | src/ccb/ccb_server.cpp:712-754 | there is only one such identifier |
| CcbServer.CCBServer.AddRequest | src/ccb/ccb_server.cpp:786-822 | the request enters both tables under a new identifier; that the tables index each other makes the target's table take it, as its assertion demands |
| CcbServer.CCBServer.RemoveRequest | src/ccb/ccb_server.cpp:833-858 | the request leaves both tables; the internal-error exits are unreachable |
| CcbServer.CCBServer.RequestFinished | src/ccb/ccb_server.cpp:577-630 | one reply on the client's socket, none if the news is good and the client has hung up, then the request is gone |
| CcbServer.CCBServer.RemoveTarget | src/ccb/ccb_server.cpp:756-784 | the drain loop ends, all the target's requests are gone, and the internal-error exit is unreachable |
| CcbServer.CCBServer.AddTarget | src/ccb/ccb_server.cpp:712-754 | a new target gets the next free identifier and a record, which is appended to the file |
| CcbServer.CCBServer.ReconnectTarget | src/ccb/ccb_server.cpp:652-709 | a claim succeeds exactly with the recorded cookie and address, and displaces the old target |
| CcbServer.CCBServer.HandleRegistration | src/ccb/ccb_server.cpp:223-294 | registration takes the model's step |
| CcbServer.CCBServer.HandleRequest | src/ccb/ccb_server.cpp:306-394 | a client's request takes the model's step and leaves the reconnect file as it was |
| CcbServer.CCBServer.HandleRequestResultsMsg | src/ccb/ccb_server.cpp:404-517 | a target's message takes the model's step |
| CcbServer.CCBServer.HandleRequestDisconnect | src/ccb/ccb_server.cpp:824-830 | a client that hangs up takes its request with it; the reconnect file stays as it was |
| CcbServer.CCBServer.PollSockets | src/ccb/ccb_server.cpp:201-221 | every readable target is handled exactly once by the model's step, while targets come and go, and then a sweep that is due takes its step and rewrites the file if it dropped a record |
| CcbServer.CCBServer.PollTargets | src/ccb/ccb_server.cpp:209-217 | the loop over targets alone, with the invariant it keeps |
| CcbServer.CCBServer.SweepReconnectInfo | src/ccb/ccb_server.cpp:1157-1202 | a sweep takes the model's step, does nothing before its time, rewrites the file if it dropped a record, and keeps the invariant if and only if the interval is not negative, it was not due, or no target is live |
| CcbServer.CCBServer.SaveAllReconnectInfo | src/ccb/ccb_server.cpp:1114-1155 | a rewrite replaces the file by all records, or leaves the old file if it is aborted |
| CcbServer.CCBServer.LoadReconnectInfo | src/ccb/ccb_server.cpp:1044-1085 | loading restores the records of the file and sets the next identifier; if there is no file nothing changes |
| CcbReconnectFile.AppendKeeps | src/ccb/ccb_server.cpp:986-995 | appending a new record keeps the file faithful to the table |
| CcbReconnectFile.SaveAllKeeps | src/ccb/ccb_server.cpp:1114-1155 | so does a rewrite, finished or aborted at any point |
| CcbReconnectFile.SaveAllLeaves | src/ccb/ccb_server.cpp:1114-1155 | with no record the file is removed; a rewrite that is not rotated in leaves it as it was |
| CcbReconnectFile.SaveAllPrunesIff | src/ccb/ccb_server.cpp:1114-1155 | after a rewrite that is rotated in a replay has exactly the identifiers of the records if and only if no earlier rewrite left others behind |
| CcbReconnectFile.LeftoverReturns | src/ccb/ccb_server.cpp:1020-1042 | one line left behind by an aborted rewrite brings its record back |
| CcbReconnectFile.SweepStaysFaithful | src/ccb/ccb_server.cpp:1157-1202 | a file faithful before a sweep still reproduces every record after it |
| CcbReconnectFile.LoadRestores | src/ccb/ccb_server.cpp:1044-1085 | loading a faithful file, or none if there are no records, gives back every record; without wrap-around the next identifier is at least 100 above every loaded one |
| CcbReconnectFile.LoadNextAbove | src/ccb/ccb_server.cpp:1044-1085 | the next identifier is below no identifier read |
| CcbReconnectFile.ReplayIsLast | src/ccb/ccb_server.cpp:1044-1085 | a replay has exactly the identifiers of the valid lines, each with what its last line says |
| CcbReconnectFile.LoadIsFile | src/ccb/ccb_server.cpp:1044-1085 | so the records loaded are exactly those, marked alive; without a file nothing is loaded |
| CcbReconnectFile.LoadNextIs | src/ccb/ccb_server.cpp:1044-1085 | the next identifier is 100 above the first one or 101 above one of the file |
| CcbReconnectFile.LoadNextLags | src/ccb/ccb_server.cpp:1070-1072 | of two consecutive identifiers only the first moves the counter |
| CcbDurable.DRunKeeps | src/ccb/ccb_server.cpp:986-1202 | at every point of every run, restarts, rewrites and aborted rewrites included, the file reproduces the table of records |
| CcbDurable.ReservationStays | src/ccb/ccb_server.cpp:986-1202 | a reserved identifier keeps its owner over every step and every restart, if and only if the step is not the pruning of its record |
| CcbClient.TryNextOk | src/ccb/ccb_client.cpp:481-591 | asking the next broker works, and leaves the client quiescent, if and only if its contact is well-formed |
| CcbClient.HandleOk | src/ccb/ccb_client.cpp:593-827 | every event leaves the client quiescent: in the table exactly while it holds the socket, reference counts balanced, timer and callback accounted for; it aborts if and only if it asks a malformed contact |
| CcbClient.AsksNext | src/ccb/ccb_client.cpp:481-650 | the first contact is asked at the start, and after each failure the one right behind the last, and no other event asks |
| CcbClient.CompletesIff | src/ccb/ccb_client.cpp:593-827 | a client hands its socket back on a connection, at the deadline, when cancelled and on a failure with no contact left, and on nothing else; on such a failure every contact has been asked |
| CcbClient.RunOk | src/ccb/ccb_client.cpp:481-827 | with well-formed contacts no run trips an assertion and the client is quiescent after every event |
| CcbClient.LifeOk | src/ccb/ccb_client.cpp:481-827 | from its creation the client completes at most once, has at every point asked exactly the contacts before the next one, in order and skipping none, and after completion no timer, table entry, live callback or reference of its own is left |
| CcbClient.CCBClient.TryNextCcb | src/ccb/ccb_client.cpp:481-591 | the object asks the next broker as the model does, and trips its assertion exactly where the model aborts, on a malformed contact |
| CcbClient.CCBClient.CCBResultsCallback | src/ccb/ccb_client.cpp:601-650 | a quiescent client stays quiescent, or trips its assertion if and only if it has to go on to a malformed contact |
| CcbClient.CCBClient.RegisterReverseConnectCallback | src/ccb/ccb_client.cpp:652-718 | the client enters the table under its connect id and has a deadline timer |
| CcbClient.CCBClient.UnregisterReverseConnectCallback | src/ccb/ccb_client.cpp:731-743 | the client leaves the table and its timer is cancelled |
| CcbClient.CCBClient.ReverseConnectCallback | src/ccb/ccb_client.cpp:780-827 | the socket is handed back once and a pending request is cancelled; a quiescent client stays quiescent and is out of the table |
| CcbClient.CCBClient.CancelReverseConnect | src/ccb/ccb_client.cpp:593-599 | a client that still holds its socket completes, a quiescent one stays quiescent |
| CcbClient.CCBClient.DeadlineExpired | src/ccb/ccb_client.cpp:720-728 | a quiescent client completes and stays quiescent |
| CcbClient.Dispatch | src/ccb/ccb_client.cpp:593-827 | one event of one of several clients that share the waiting table: its own step or its assertion, no other client changes, and the table still holds each waiting client under its own connect id and nobody else |
| CcbClient.Deliver | src/ccb/ccb_client.cpp:481-827 | over any interleaving of events of any number of clients nothing trips, the shared table stays right, and each client ends as if its events had come alone |
| CcbClient.ReverseConnectCommandHandler | src/ccb/ccb_client.cpp:746-777 | the connection goes to the client waiting under the presented connect id, and to nobody if there is none; no other client changes, and the shared table stays right |
| CcbListener.StepKeeps | src/ccb/ccb_listener.cpp:74-253 | every event leaves the listener in exactly one of its four modes if and only if it is not a failed result while connecting |
| CcbListener.Moves | src/ccb/ccb_listener.cpp:74-400 | which mode every event leads to: a lost connection to the reconnect timer, the timer to a new connect, a connect to awaiting the reply, the reply to registered; nothing else changes the mode |
| CcbListener.SpoiledAborts | src/ccb/ccb_listener.cpp:174-195 | after that one event the connect callback trips its assertion |
| CcbListener.NeverStuck | src/ccb/ccb_listener.cpp:74-253 | after every other run the listener is in exactly one mode, and an event that moves it on is still to come |
| CcbListener.StartOk | src/ccb/ccb_listener.cpp:74-108 | a new listener that registers without blocking is in a mode |
| CcbListener.ContactRestarts | src/ccb/ccb_listener.cpp:264-313 | every message from the broker restarts the heartbeat |
| CcbListener.RescheduleTimer | src/ccb/ccb_listener.cpp:264-313 | with a socket the heartbeat timer is set if and only if the interval is positive and the broker was not found too old at the first contact, to expire within one interval, and after exactly one if the broker was heard just now |
| CcbListener.RescheduleDue | src/ccb/ccb_listener.cpp:264-313 | the timer runs out one interval after the last contact, or at once if that has passed |
| CcbListener.RescheduleLater | src/ccb/ccb_listener.cpp:264-313 | without a socket no timer is set, and one that runs stays only if heartbeats are on |
| CcbListener.DroppedAtFourth | src/ccb/ccb_listener.cpp:264-331 | a silent broker is tolerated for three heartbeats and dropped at the fourth |
| CcbListener.CCBListener.RegisterWithCCBServer | src/ccb/ccb_listener.cpp:74-157 | from no mode the listener gets into exactly one, connecting without a socket and otherwise awaiting the reply or the reconnect; in a mode nothing happens |
| CcbListener.CCBListener.CCBConnectCallback | src/ccb/ccb_listener.cpp:174-219 | from connecting the listener gets into exactly one mode: awaiting the registration reply if it connected and could write, else waiting to reconnect |
| CcbListener.CCBListener.Disconnect | src/ccb/ccb_listener.cpp:221-253 | whatever the mode, the listener then waits to reconnect, and that is its only mode if and only if no connect is pending |
| CcbListener.CCBListener.Reschedule | src/ccb/ccb_listener.cpp:264-313 | the mode and the socket stay; a timer is set if and only if heartbeats are on, to expire within one interval from now |
| CcbListener.CCBListener.ReadMsgFromCCB | src/ccb/ccb_listener.cpp:340-400 | the listener stays in exactly one mode: a reply registers it, an unreadable message makes it reconnect, any other restarts the heartbeat |
| CcbListener.CCBListener.Heartbeat | src/ccb/ccb_listener.cpp:315-331 | the listener stays in exactly one mode, and reconnects if and only if the broker has been silent for more than three intervals or the heartbeat cannot be sent |

## Left out
- ParserShape.LevelBuilds: the six functions of the precedence ladder and their tails are one function with the rung as a parameter.
- ClassAdEval.ResolveCloses: the clock is one fixed value and other names of the environment are UNDEFINED.
- ClassAdEvalImpl.Evaluator.EvalTree: stated for evaluations that end; which circles with several variables on one right-hand side do not is shown for one family only.
- ClassAdValues.SymbolMeans: for integers; the quotient of the smallest `int` by -1 is not described.
- ClassAdOperators.DivisionTruncates: the one division that overflows, of the smallest `int` by -1, is excluded.
- PrinterImpl.PrintToStr: the end of the text in the buffer is passed on instead of searched for.
- AttrHashImpl.HashTable.Insert: lookups after a key is added that is there already are not described, because growing the table can change which entry is found; nothing in this model of AttrList adds one.
- AttrListImpl.AttrList.Insert: insertion without the check for duplicates, dirty flags beyond being set, and the iteration pointers are not modelled.
- AttrListImpl.AttrList.Unlink: deletion while inserting and the first half of a deletion are this one method, so that insertion and deletion do not call each other.
- AttrListImpl.AttrList.ChainToAd: lookups and deletions are described only for a parent that is another ad and shares no nodes.
- ScopedEval.FindExpr: an attribute of a list, which starts evaluations of its own, is an error here as for any other value that is no ad.
- ScopedAds.UpwardFails: chains of parent ads are acyclic and each path of scopes ends or returns to its start; otherwise the source's loops do not end.
- ScopedUpdatesImpl.ClassAds.Insert: the parent scope of an inserted tree and the identity of copied nested ads are not modelled, nor dirty tracking.
- ScopedReferences.ExternalReferencesSuffice: for literals, plain names and operations; prefixed names, nested ads, lists and calls are not covered, nor full names.
- ParserExact.AcceptedReparsesIff: for trees without floats.
- ScopedEvalLaws.Deeper: without a root, for expressions that avoid ternaries or avoid asking a scope for the root, in themselves and in the attributes they can reach; this condition on a single expression is one way.
- ScopedEvalLaws.Restores: likewise.
- ScopedDepth.DeeperIffSettled: operators that tell one ad from others are assumed to be among those of the language; depth 0, at which no attribute can be read, is excluded.
- CcbInvariants.RunKeeps: sweep intervals are not negative.
- CcbTables.NextFree: the tables are assumed to hold fewer than 2^64 identifiers, since otherwise the search for a free one does not end.
- CcbServer.CCBServer.AddTarget: request and record objects are values in the tables; only targets are objects.
- CcbReconnectFile.LoadRestores: a line is its three fields; its text format, malformed lines and buffering are not modelled.
- CcbClient.LifeOk: for the non-blocking path; the blocking path and shared-port endpoints are not modelled.
- CcbListener.NeverStuck: reconfiguration and blocking registration are not modelled.
- CcbProtocol.AttachedToRequestedTarget: all parties follow the protocol, connect ids are distinct and contacts well-formed; brokers' replies reach clients as arbitrary events, and authentication is not modelled.
- Sockets, selectors, DaemonCore registration, buffers and file-system calls are events that succeed or fail.
- Floating-point literals are scanned and parsed but not printed or evaluated, because `%f` loses digits.
- Built-in functions are parsed and printed but not evaluated.
- The optional `k` unit of numbers, which the parser never sets, is not modelled.
- The scanner's count of consumed characters and the positions of parse errors are not modelled.
- The scanner for builds without the new scanner is not modelled.
- AttrListList and replicated lists, Flatten, collections, the compressed and command-line interfaces and all of Stork are not modelled.
