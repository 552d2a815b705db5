# Primi evaluation core in Dafny

This project models the evaluation core of Primi, a scripting language
interpreter written in PHP. It covers these parts:

- **Interned.** The value factory. It builds the `null`, `true`, `false` and
  `NotImplemented` singletons. It also shares one object per short number,
  string, bytes or regex payload.
- **ArithmeticLTR.** Left-to-right evaluation of `+ - * /` chains. A value that
  declines an operation gets a second try with the operands swapped.
- **HandlerFactory.** Maps an AST node kind to its handler class and caches
  the result.
- **WhileStatement.** The `while` loop. It ticks the task queue on every second
  iteration and obeys `break` and `continue`.
- **Vector.** Resolves an index chain `a[k1]...[kn]` in write context.
- **RegexValue** and **RegexTypeExtension.** The regex value and the
  `regex()` constructor.
- **AnonymousFunction.** The `reduce` pass that normalises a function
  literal's parameter list.
- **Repl.** Decides when a line is incomplete and gathers multi-line input.

Each source file becomes one module:

- Code that mutates state is modelled imperatively:
  - the interner is a class whose cache maps the methods update;
  - the handler cache is a class field;
  - the task queue is a class with a tick counter;
  - `evaluate`, `handle`, `reduce` and `gatherLines` are loops proved against
    specification functions.
- Structurally recursive or expression-only code becomes functions: the chain
  resolver, the regex value and `isIncompleteInput`.
- Exceptions become `Result` values.
- Collaborators the core only calls are function parameters: value
  capabilities, condition and body handlers, container access, and
  `preg_match`.

## Model

| member | source | states |
|---|---|---|
| Values.Utf8Length | src/Helpers/Interned.php:140 | the byte length `strlen` measures lies between the character count and four times it |
| Values.AsciiUtf8Length | src/Helpers/Interned.php:140 | for ASCII text the byte length equals the character count |
| RegexValue.New | src/Values/RegexValue.php:25-31 | the stored value is the bell delimiter, the pattern, the bell delimiter and `u`, so it is three characters longer than the pattern |
| RegexValue.StringValue | src/Values/RegexValue.php:51-56 | the string value is three characters shorter than the stored value, which is exactly the bell delimiter, the string value, the bell delimiter and `u` |
| RegexValue.IsTruthy | src/Values/RegexValue.php:37-39 | a regex built by the constructor is truthy exactly when its string value is non-empty |
| RegexValue.StringRepr | src/Values/RegexValue.php:41-49 | the representation is `rx"` followed by the string value and `"` |
| RegexValue.IsEqualTo | src/Values/RegexValue.php:59-71 | not comparable (None) exactly when the right operand is neither a string nor a regex; two regexes compare their stored values; a string is matched with `preg_match` |
| RegexValue.StringValueOfNew | src/Values/RegexValue.php:51-56 | `getStringValue` gives back exactly the pattern passed to the constructor |
| RegexValue.NewOfStringValue | src/Values/RegexValue.php:51-56 | every regex value is rebuilt by the constructor from its string value |
| RegexValue.StringReprOfNew | src/Values/RegexValue.php:41-49 | the representation of `new RegexValue(p)` is `rx"p"` |
| RegexValue.TruthyIffPatternNonEmpty | src/Values/RegexValue.php:37-39 | a regex is truthy exactly when its pattern is non-empty |
| RegexValue.EqualIffSamePattern | src/Values/RegexValue.php:65-67 | two regexes are equal exactly when their patterns are equal |
| Interned.Interner.Init | src/Helpers/Interned.php:105-112 | four fresh singletons hold null, false, true and NotImplemented; the caches start empty |
| Interned.Interner.GetNull | src/Helpers/Interned.php:117-119 | always the null singleton |
| Interned.Interner.GetBool | src/Helpers/Interned.php:124-132 | the true singleton for true, the false singleton for false, and the two are distinct objects |
| Interned.Interner.GetNotImplemented | src/Helpers/Interned.php:197-199 | always the NotImplemented singleton |
| Interned.Interner.GetNumber | src/Helpers/Interned.php:137-147 | a short payload (at most 8 bytes) returns the cached object, or caches a fresh one; a long payload returns a fresh object and leaves the cache alone; the cache invariant is kept |
| Interned.Interner.GetString | src/Helpers/Interned.php:152-162 | the same rule for strings |
| Interned.Interner.GetBytes | src/Helpers/Interned.php:167-177 | the same rule for bytes, with an 8-byte limit |
| Interned.Interner.GetRegex | src/Helpers/Interned.php:182-192 | the same rule for regex patterns; the object is the regex built from the pattern |
| Interned.NumberTwice | src/Helpers/Interned.php:137-147 | two requests for one number give the same object exactly when the payload is short |
| Interned.KindsNeverShare | src/Helpers/Interned.php:70-76 | a number and a string with the same payload are never the same object |
| ArithmeticLTR.CapabilityFor | src/Helpers/ArithmeticLTR.php:67-80 | each of `+ - * /` selects its capability; any other operator selects none |
| ArithmeticLTR.Apply | src/Helpers/ArithmeticLTR.php:49-96 | an error carries the operator and both original operands; an unknown operator fails; the left operand's answer wins; otherwise the swapped call decides |
| ArithmeticLTR.Evaluate | src/Helpers/ArithmeticLTR.php:55-94 | the two-attempt loop with the swap computes exactly `Apply` |
| ArithmeticLTR.Handle | src/Helpers/ArithmeticLTR.php:22-47 | the loop over (operator, operand) pairs computes the left fold seeded with null |
| ArithmeticLTR.FoldAppend | src/Helpers/ArithmeticLTR.php:33-42 | folding a concatenation is folding the second part from the first part's result, and an error stops the fold |
| ArithmeticLTR.FoldLastStep | src/Helpers/ArithmeticLTR.php:33-42 | a chain's last operator applies to the result of everything before it, so evaluation is left-associative |
| ArithmeticLTR.SeedIsOverwritten | src/Helpers/ArithmeticLTR.php:27-37 | when the first pair has no operator, the null seed has no effect on the result |
| ArithmeticLTR.UnknownOperatorFails | src/Helpers/ArithmeticLTR.php:82-91 | an operator outside `+ - * /` ends the chain with a binary operation error |
| ArithmeticLTR.FoldExamples | src/Helpers/ArithmeticLTR.php:33-42 | `2 + 3 - 4` is 1 and `"a" + "b"` is `"ab"` |
| ArithmeticLTR.SwapExamples | src/Helpers/ArithmeticLTR.php:59-91 | a right operand that knows the operation answers after the swap; when both decline, or the operator is unknown, the error names the original operands |
| HandlerFactory.ClassName | src/Handlers/HandlerFactory.php:28-30 | the class name is the prefix, a backslash and the node name |
| HandlerFactory.ClassNameInjective | src/Handlers/HandlerFactory.php:28-30 | different node names give different class names |
| HandlerFactory.Resolve | src/Handlers/HandlerFactory.php:43-63 | a known class is found; an unknown one fails with "Handler type '…' not found" exactly in strict mode, and gives no handler otherwise |
| HandlerFactory.StrictNeverEmpty | src/Handlers/HandlerFactory.php:51-57 | in strict mode a successful lookup always yields a handler |
| HandlerFactory.HandlerFactory.constructor | src/Handlers/HandlerFactory.php:21 | the handler cache starts empty |
| HandlerFactory.HandlerFactory.GetFor | src/Handlers/HandlerFactory.php:43-63 | the answer is `Resolve`, whatever the cache holds; only found classes enter the cache; a cached name leaves the cache unchanged |
| HandlerFactory.HandlerFactory.RunNode | src/Handlers/HandlerFactory.php:72-74 | runs the handler for the node's text `name` in strict mode, or fails with not-found; the cache afterwards is the old cache, plus the node's name when its class was found |
| WhileStatement.TaskQueue.Tick | src/Handlers/Types/WhileStatement.php:31 | a tick adds one to the queue's counter |
| WhileStatement.Handle | src/Handlers/Types/WhileStatement.php:13-44 | the loop's final state and exit reason are those of the `Loop` specification, and the queue ticks once per tick event of its trace |
| WhileStatement.IterationFacts | src/Handlers/Types/WhileStatement.php:25-40 | one iteration checks a truthy condition, may tick, and runs the body once; it ticks exactly when the flipped bit is 1 |
| WhileStatement.TickCadence | src/Handlers/Types/WhileStatement.php:22-32 | from the starting bit 1, n body runs tick the queue n / 2 times |
| WhileStatement.OrderedAppend | src/Handlers/Types/WhileStatement.php:25-42 | iterations that end in a non-break body run join into a well-ordered trace |
| WhileStatement.EventOrder | src/Handlers/Types/WhileStatement.php:25-42 | every body run follows a truthy check, possibly through a tick; a non-break body returns to the condition; a falsy check is the last event |
| WhileStatement.ExitReason | src/Handlers/Types/WhileStatement.php:25-40 | the loop stops by `break` exactly when its last event is a body that broke, and by the condition exactly when its last event is a falsy check |
| WhileStatement.CountedLoop | src/Handlers/Types/WhileStatement.php:25-42 | a counter loop below `limit` runs its body `limit - n` times and stops on the condition |
| WhileStatement.FiveIterationsTickTwice | src/Handlers/Types/WhileStatement.php:22-32 | five iterations tick the queue twice |
| WhileStatement.BreakStopsLoop | src/Handlers/Types/WhileStatement.php:34-40 | a counter loop whose body raises `break` when the counter reaches `at` runs the body `at - n + 1` times and exits by `break`, leaving the counter at `at + 1` |
| WhileStatement.BreakInThirdIteration | src/Handlers/Types/WhileStatement.php:34-40 | a `break` in the third body run ends the loop after three runs and one tick |
| Vector.Chain | src/handlers/Vector.php:21-62 | a failure while fetching down to the last segment is the chain's failure; a success means every fetch succeeded and the last segment's subject has keyed access |
| Vector.ChainIsDescentThenLeaf | src/handlers/Vector.php:40-60 | resolving a chain is fetching down to the leaf's subject, then resolving the leaf alone, so only the leaf asks for an insertion proxy |
| Vector.ErrorsCarryChainPosition | src/handlers/Vector.php:27-55 | a type error or undefined-index error raised by the resolver carries the position of one of the chain's segments |
| Vector.NonKeyedSubjectFailsFirst | src/handlers/Vector.php:27-32 | a subject without keyed access fails with "Cannot insert into '<type>'" before its index expression is evaluated |
| Vector.LeafNeverFetches | src/handlers/Vector.php:43-46 | a leaf segment's result does not depend on `arrayGet` |
| Vector.ChildWithoutKeyedAccess | src/handlers/Vector.php:51-60 | a fetched child without keyed access fails at the next segment's position |
| Vector.MissingLeafKey | src/handlers/Vector.php:43-55 | a missing key at the leaf is an undefined-index error at the leaf's position, with the proxy's message |
| RegexTypeExtension.PatternFor | src/Stdlib/TypeExtensions/RegexTypeExtension.php:21-37 | a wrong type object fails with "Passed invalid type object"; a missing argument is the empty pattern; the argument fails with "Invalid argument passed to regex()" exactly when it is neither a string nor a regex |
| RegexTypeExtension.RegexArgumentKeepsPattern | src/Stdlib/TypeExtensions/RegexTypeExtension.php:36 | `regex(rx)` builds a regex equal to `rx` |
| RegexTypeExtension.StringArgumentBecomesPattern | src/Stdlib/TypeExtensions/RegexTypeExtension.php:32-36 | `regex(s)` builds a regex whose string value is `s` |
| RegexTypeExtension.DefaultIsEmptyFalsyRegex | src/Stdlib/TypeExtensions/RegexTypeExtension.php:30 | `regex()` is the empty regex, which is falsy |
| RegexTypeExtension.TypeCheckedFirst | src/Stdlib/TypeExtensions/RegexTypeExtension.php:26-28 | a wrong type object is refused whatever the argument |
| RegexTypeExtension.Argument | src/Stdlib/TypeExtensions/RegexTypeExtension.php:30 | the argument, or the interned empty string when there is none; the string cache gains at most the entry for `""`, and is unchanged when an argument is given or `""` was already cached |
| RegexTypeExtension.New | src/Stdlib/TypeExtensions/RegexTypeExtension.php:21-37 | fails exactly when `PatternFor` does, and leaves the interner alone on failure; on success returns the interned regex for the pattern: the cached object for a short cached pattern, a fresh object stored in the cache for a short new pattern, a fresh uncached object for a long one; the string cache changes only by the default `""` |
| RegexTypeExtension.NewTwice | src/Stdlib/TypeExtensions/RegexTypeExtension.php:36 | two `regex(s)` calls with a short pattern return the identical object |
| AnonymousFunction.EnsureIndexedIsNormalForm | src/handlers/AnonymousFunction.php:26-27 | for anything but null, the indexed list starts with a non-null element and passes through the indexing step again unchanged |
| AnonymousFunction.Reduce | src/handlers/AnonymousFunction.php:21-35 | only `params` is written; it becomes a list with one entry per indexed parameter node holding that node's `text`, in order |
| AnonymousFunction.ParamsBecomeNames | src/handlers/AnonymousFunction.php:24-33 | when every parameter node has text, `params` becomes a list of strings of the same length |
| AnonymousFunction.NoParamsGiveEmptyList | src/handlers/AnonymousFunction.php:24-33 | without parameters, `params` becomes the empty list |
| AnonymousFunction.SingleParamIsWrapped | src/handlers/AnonymousFunction.php:26-30 | a single, non-indexed parameter node becomes a one-element list |
| AnonymousFunction.ReduceNotIdempotent | src/handlers/AnonymousFunction.php:21-35 | run twice on a literal without parameters, `reduce` gives `[]` and then `[null]` |
| Repl.IsIncompleteInput | src/Repl.php:355-379 | a line is incomplete exactly when it is non-empty and ends in `{` or `\`, or starts with a space or a tab; the trim is 1 exactly when the line ends in `\`, and never exceeds the line's length |
| Repl.Chop | src/Repl.php:306 | the line without its last `trim` characters, as a prefix of the line |
| Repl.GatherLines | src/Repl.php:279-321 | the loop returns the `Gather` buffer and line count; the first prompt is `>>> ` and the following ones are `... ` |
| Repl.GatherStopsAtFirstComplete | src/Repl.php:299-316 | gathering reads up to and including the first complete line, and every earlier line is incomplete; with no complete line there is no result |
| Repl.OneNewlinePerContinuation | src/Repl.php:301-315 | the buffer holds one `"\n"` per incomplete line read |
| Repl.BlockIsGathered | src/Repl.php:279-321 | `if (x) {`, `  y = 1`, `}` are gathered into one three-line input |
| Repl.BackslashIsDropped | src/Repl.php:366-370 | a trailing backslash continues the line and is dropped from the buffer |

## Left out

- WhileStatement.Handle: the PHP loop has no bound. The model runs at most `fuel` iterations and reports `FuelExhausted` when the fuel runs out. Errors raised by the condition or the body, other than `break` and `continue`, are not modelled.
- WhileStatement.Handle: the two strict `getFor` lookups of the condition and body handlers (src/Handlers/Types/WhileStatement.php:19-20), which can raise `EngineInternalError` before the loop starts, are not modelled; the handlers are given as functions.
- WhileStatement.Handle: a tick only counts; it runs no cooperative tasks, so no task can change the variables the condition reads between iterations (in PHP a task may end the loop that way). The condition and the body cannot reach the task queue either, so `ticks` counts this loop's own ticks only and leaves out the ticks of a `while` nested in the body.
- WhileStatement.Handle: the condition handler returns a truthiness and the next state directly. Calling `isTruthy()` on the returned value is folded into that function.
- Repl.GatherLines: the lines typed by the user are a finite sequence. When it runs out before a complete line, the model returns no input, where the program would wait for more.
- Repl.GatherLines: the stack-depth banner printed before each prompt is not modelled. The rest of the REPL (`loop`, history, printing, autocomplete, `die`) is terminal and file I/O and is not modelled either.
- AnonymousFunction.Reduce: it requires the parameters to be absent, null, one parameter node, or a list of parameter nodes. PHP accepts text in their place with warnings, and its outcome there depends on the PHP version. The parser never produces such input.
- AnonymousFunction.EnsureIndexed: `ensure_indexed` lives in a helpers file that is not part of this model; the only description at hand is the comment "Make sure this is always list, even with one item" (src/handlers/AnonymousFunction.php:26). The rule modelled here, that an array whose element 0 is set (`isset`) is kept and anything else is wrapped, is a reconstruction of that helper. `AnonymousFunction.ReduceNotIdempotent` and `AnonymousFunction.EnsureIndexedIsNormalForm` depend on it.
- `AnonymousFunction::handle` builds closures through `FnContainer` and `FuncValue`, which are not part of this model.
- RegexValue.IsEqualTo: PCRE matching of a regex against a string is a parameter (`pregMatch`). `RegexTypeExtension::match` is not modelled, because it is a `preg_match` call.
- HandlerFactory.RunNode: it requires the node to carry its kind as text under `name`. The parser always sets it; for a node without one, PHP passes null to `getClassName(string ...)` under `strict_types` and raises a `TypeError` (src/Handlers/HandlerFactory.php:28, 73). That error is not modelled.
- HandlerFactory.Resolve: `class_exists` is a fixed set of known class names. The set is given when the factory is built.
- ArithmeticLTR.Handle: the operand generator `yield_left_to_right` and its `send(true)` are a finite sequence of (operator or none, operand) pairs.
- ArithmeticLTR.Handle: value capabilities are one dispatch function that returns None when a value declines an operation. Errors raised by a capability method (`doAddition` … `doDivision`, src/Helpers/ArithmeticLTR.php:69-78) are not modelled; in PHP such an error is not caught and ends the chain at that step.
- Vector.Chain: the index handler is `keyOf`, which covers `HandlerFactory::get`, `handle` and `getInternalValue`. The deeper node's handler is looked up by its name (src/handlers/Vector.php:59). The model assumes that handler is `Vector` again; other chained handlers, such as attribute access, are not modelled.
- Interned: `Interned::init()` runs once when the file loads; in the model that is the `Init` constructor. Value classes other than the interned kinds are opaque (`Other`).
- Values: PHP strings are byte strings, while payloads, patterns, node texts and REPL lines are modelled as sequences of Unicode characters (bytes payloads excepted, which are `seq<byte>`). Text that is not valid UTF-8 cannot be represented, and byte-level indexing is modelled at character level.
- `src/extensions/psl/NumberExtension.php` (floating point and PHP integer casts) and the `StdIoDriverInterface` I/O interface are not modelled.

## Notes on the code

Where a comment and the code disagree, the model follows the code.

- `reduce` is not idempotent: run again on its own output, a literal without parameters goes from `[]` to `[null]`, which `AnonymousFunction.ReduceNotIdempotent` proves under the reconstructed `ensure_indexed` rule. A normalisation pass could be expected to leave already-normalised nodes alone; this one does not.
- The comment on `EMPTY_REGEX` says a regex is truthy when its pattern is empty. In the code a regex is truthy exactly when its pattern is non-empty (`RegexValue.TruthyIffPatternNonEmpty`).
- The comments in `Interned::bytes` and `Interned::regex` give a limit of 32, and the comments on numbers and strings speak of characters. Every kind actually uses `strlen(...) <= 8`, which counts bytes (`Interned.InternLimit`, `Values.Utf8Length`).
