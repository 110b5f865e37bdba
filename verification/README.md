# Lattice: verified models

Dafny models of the parts of the Lattice C++ library whose behaviour is hardest to see from the code, with proofs of what they promise.
`dafny verify dfyconfig.toml` checks everything.

- **JSON reader and printer** (`JsonStrings`, `JsonNumbers`, `JsonReader`, `JsonGrammar`, `JsonAccepts`, `JsonDerives`, `JsonLanguage`,
  `JsonPrinter`, `JsonBackslashes`, `JsonExact`, `JsonRoundTrip`, `JsonNodes`, `JsonNodeRoundTrip`; `JsonNumberLaws`, `JsonStringLaws`,
  `JsonLayout`). The loops with their flags are functions over loop states (`JsonReader`) that the methods of the class `JsonNode` refine
  in place, children on the heap included. The accepted language is given a second time, as a grammar of derivation trees, and the two are
  proved equal. It is not the language of RFC 8259: extra commas, keys standing alone, optional colons, junk literals and `]` without `[`
  are accepted, while negative numbers, repeated keys and empty keys with a value are not. The printer is a function of an *ordered* tree,
  so that a statement about every ordered tree is one about every iteration order of the unordered maps. The three modules of laws say what
  numerals, escapes and layouts are, over digits, characters and lines.
- **Thread pool executor** (`ExecutorModel`, `ExecutorInvariants`, `ExecutorTheorems`, `ExecutorFairness`, `ExecutorStop`,
  `ExecutorLiveness`, `ExecutorSubmissions`, `Executors`). Any number of workers, submitters and callers of `stop`, as a transition system:
  a critical section is one step, the unlocked reads of `stop_` and of the queue are steps of their own, notifications pick any sleeper,
  and sleepers may wake by themselves. The classes of `Executors` hold the same state in the fields of the source and take the same steps.
- **HTTP requests and the tokenizer** (`Tokenizer`, `TokenizerLaws`, `HttpMessages`, `HttpRoundTrip`, `HttpReading`). The fused loop of
  `tokenize` is split, then trim, then filter; the request reader reads every message of three words, and restores what the printers write,
  exactly under the condition stated. The message around the two printers is that of section 2.1 of RFC 9112, with the request line of its
  section 3 and the repeated fields of section 5.3 of RFC 9110.
- **Closing of connections** (`Connections`). The callback chain of a TCP handler, and how often it closes the descriptor.

`Texts` holds what is common: what stands where in a text.

## How to read the model

- Characters stand for bytes, texts are finite sequences of them, and positions are unbounded.
- A key is moved from only when it is new to the map; a string that is moved from is taken to be empty.
- Numbers are exact: `std::to_string` prints the nearest six decimals, ties to even, and `std::stod` reads the longest decimal prefix.
- The executor's steps are sequentially consistent, and tasks return.
- A constructor of a class with a field the source leaves uninitialised takes its value as a parameter.
- Where a condition is proved necessary and sufficient, it is stated over the inputs of the call: the characters of strings and names, the
  sign and decimals of numbers, the phase and program counters of the executor.

## Model

| member | source | states |
|---|---|---|
| `JsonRoundTrip.ObjectRoundTrip` | src/main/cpp/lattice/util/json.cpp:194-339 | For an object with distinct keys, every order of members at every depth, both layouts and any indentation: a fresh parse of the print consumes exactly the print and rebuilds the same tree if and only if no key is empty, every key and string has no `\b` and every backslash in it stands before `u` or `/`, and every number is non-negative with six decimals. The "only if" half rules out that a tree is rebuilt by accident, with the text of one string read as another |
| `JsonRoundTrip.ArrayRoundTrip` | src/main/cpp/lattice/util/json.cpp:353-471 | The same equivalence for arrays |
| `JsonRoundTrip.SingleRoundTrip` | src/main/cpp/lattice/util/json.cpp:136-173 | The round trip of an array of one number or string holds exactly for a non-negative six-decimal number or a string of the domain |
| `JsonRoundTrip.LostInPrint` | src/main/cpp/lattice/util/json.cpp:147 | Concrete trees that do not come back in any layout: a negative number, a number with a seventh decimal, a lone backslash |
| `JsonNodeRoundTrip.PrintedObjectIsRead` | src/main/cpp/lattice/util/json.cpp:194-339 | The round trip without mention of an order: any text that an object node may print is read back to its end as the same tree if and only if the strings, keys and numbers of the tree survive; so no iteration order is better or worse than another |
| `JsonNodeRoundTrip.PrintedArrayIsRead` | src/main/cpp/lattice/util/json.cpp:353-471 | The same for arrays |
| `JsonNodeRoundTrip.Copied` | src/main/cpp/lattice/util/json.cpp:312-314 | On the objects: printing a node and building a node from the text gives fresh nodes, valid at all depths, with the same tree |
| `JsonRoundTrip.FaithfulIsDurable` | src/main/cpp/lattice/util/json.cpp:316-339 | Whether a tree survives is the same for all orders of its members |
| `JsonLanguage.ObjectLanguage` | src/main/cpp/lattice/util/json.cpp:194-306 | Grammar equivalence: the object loop accepts from `b` to `r` with members `m` if and only if the slice is blanks followed by a text that the lenient grammar derives, and the derivation denotes `m` |
| `JsonLanguage.ArrayLanguage` | src/main/cpp/lattice/util/json.cpp:353-448 | The same for arrays, and for a closing bracket without an opening one |
| `JsonLanguage.ObjectLocality` | src/main/cpp/lattice/util/json.cpp:194-306 | If parsing at `b` gives `r` and a tree, every other text that agrees on `[b, r)` gives the same, whatever follows |
| `JsonLanguage.ArrayLocality` | src/main/cpp/lattice/util/json.cpp:353-448 | Locality for arrays |
| `JsonLanguage.PrefixFree` | src/main/cpp/lattice/util/json.cpp:194-448 | No completely consumed text is a proper prefix of another completely consumed text |
| `JsonLanguage.AcceptedShape` | src/main/cpp/lattice/util/json.cpp:194-306 | An accepted object has a derivation in which, at every depth, keys are distinct and non-empty and the map is as large as its member list; its nodes number at most the characters consumed and its depth at most half of them |
| `JsonLanguage.AcceptedArrayShape` | src/main/cpp/lattice/util/json.cpp:353-448 | The same for an accepted array |
| `JsonLanguage.KeysStored` | src/main/cpp/lattice/util/json.cpp:201-303 | The members of a derived object go to keys that are new, distinct and non-empty, and the map grows by exactly their number |
| `JsonLanguage.DerivedKeysKept` | src/main/cpp/lattice/util/json.cpp:201-303 | No repeated or empty key at any depth of a derived value |
| `JsonLanguage.SizeBounds` | src/main/cpp/lattice/util/json.cpp:194-448 | Nodes and twice the container depth are bounded by the length of the text |
| `JsonDerives.RepeatFails` | src/main/cpp/lattice/util/json.cpp:212-249 | Once a repeated key has left `attr` non-empty, no continuation of the text makes the object valid |
| `JsonDerives.BodyFound` | src/main/cpp/lattice/util/json.cpp:201-303 | Soundness: from any loop state without a pending key, an accepting run of the object loop yields a derivation of exactly the text it consumed and of the members it added |
| `JsonDerives.TailFound` | src/main/cpp/lattice/util/json.cpp:231-298 | Soundness from a state with a pending key: separators, then a value, then the rest of the body |
| `JsonDerives.ElemsFound` | src/main/cpp/lattice/util/json.cpp:358-444 | Soundness of the array loop from any state |
| `JsonDerives.ValueFound` | src/main/cpp/lattice/util/json.cpp:207-298 | A value that is taken has a derivation of the consumed text that denotes it |
| `JsonAccepts.BodyAccepts` | src/main/cpp/lattice/util/json.cpp:201-305 | Completeness: from any loop state that the flags of a derivation allow, the loop accepts the derived body, ends just behind it and stores what it denotes |
| `JsonAccepts.ElemsAccept` | src/main/cpp/lattice/util/json.cpp:358-447 | Completeness of the array loop |
| `JsonAccepts.ValueAccepts` | src/main/cpp/lattice/util/json.cpp:207-298 | A derived value that is not at the end of the text is taken as what it denotes |
| `JsonReader.ReadObject` | src/main/cpp/lattice/util/json.cpp:194-306 | The object loop as a function of its flags, map and index; a success lies strictly behind its start and within the text |
| `JsonReader.ReadArray` | src/main/cpp/lattice/util/json.cpp:353-448 | The array loop likewise |
| `JsonReader.ReadValue` | src/main/cpp/lattice/util/json.cpp:207-298 | Which reader a character in value position calls; a taken value ends strictly later |
| `JsonReader.ReadLeaf` | src/main/cpp/lattice/util/json.cpp:265-298 | Strings, numbers and literals, with any five characters after `f` and any four after `n` taken; a taken leaf ends strictly later |
| `JsonStrings.ScanByParity` | src/main/cpp/lattice/util/json.cpp:53-87 | The scan by flag is the scan by parity: it stops at the first quote with an even run of backslashes before it, and fails exactly when there is none |
| `JsonStrings.ScanRaw` | src/main/cpp/lattice/util/json.cpp:63-79 | The scan ends at `q` if and only if the slice before is a complete raw content and `q` is a quote |
| `JsonStrings.QuotedAt` | src/main/cpp/lattice/util/json.cpp:53-87 | Standing on an opening quote, a raw content and a closing quote are read and decoded |
| `JsonStrings.QuotedOnly` | src/main/cpp/lattice/util/json.cpp:53-87 | Whatever is read from an opening quote is a raw content between quotes |
| `JsonStrings.StringDomain` | src/main/cpp/lattice/util/json.cpp:89-173 | `processString(jsonizeString(x)) == x` if and only if `x` has no `\b` and every backslash in it stands before `u`, `/` or `"` |
| `JsonStrings.RawDomain` | src/main/cpp/lattice/util/json.cpp:53-173 | Of the strings that `processString` restores, exactly those of the quoted domain print without an escape left open and without a bare quote |
| `JsonStrings.QuotedDomain` | src/main/cpp/lattice/util/json.cpp:53-173 | Through `parseQuoted` with added quotes the exact domain loses the `"` case |
| `JsonStrings.ReadBackNotLonger` | src/main/cpp/lattice/util/json.cpp:89-173 | The string read back is never longer than the string printed, for all strings |
| `JsonStrings.ParseQuotedText` | src/main/cpp/lattice/util/json.cpp:53-87 | The loop with `openQuote`, `escape` and `attrBegin` finds the two quotes and decodes what is between, or loses the position |
| `JsonStrings.UnescapeChar` | src/main/cpp/lattice/util/json.cpp:104-129 | The switch of `processString`: `\b` becomes a space, `\u` keeps its backslash, unknown escapes vanish |
| `JsonStrings.ProcessString` | src/main/cpp/lattice/util/json.cpp:89-133 | The loop with the `escape` flag computes the decoding |
| `JsonStrings.JsonizeString` | src/main/cpp/lattice/util/json.cpp:136-173 | The loop over the switch computes the escaping; a backslash is not escaped |
| `JsonNumbers.MillionthsRoundTrip` | src/inc/lattice/util/json.hpp:202 | Reading a six-decimal print gives back the number of millionths |
| `JsonNumbers.PrintError` | src/inc/lattice/util/json.hpp:202 | For non-negative `x`, the print reads back within half a millionth of `x`, and printing that again gives the same text |
| `JsonNumbers.ReadBackExact` | src/inc/lattice/util/json.hpp:202 | The number comes back unchanged if and only if it has six decimals |
| `JsonNumberLaws.DigitsAlone` | src/main/cpp/lattice/util/json.cpp:495 | Digits alone are read as the number they spell |
| `JsonNumberLaws.PlainNumeral` | src/main/cpp/lattice/util/json.cpp:495 | A sign and a mantissa, with or without a point, are read as the digits as one number divided by ten for each digit behind the point, negated behind a minus; characters behind that are no complete exponent change nothing |
| `JsonNumberLaws.ScaledNumeral` | src/main/cpp/lattice/util/json.cpp:495 | With `e` or `E`, an optional sign and digits behind it, the value is that of the mantissa times, or divided by, that power of ten |
| `JsonNumberLaws.LeadingSign` | src/main/cpp/lattice/util/json.cpp:495 | A leading plus changes nothing, a leading minus negates, for every text |
| `JsonNumberLaws.NoDigits` | src/main/cpp/lattice/util/json.cpp:495 | Without a digit where the mantissa should be the conversion throws |
| `JsonNumberLaws.NumberTaken` | src/main/cpp/lattice/util/json.cpp:484-497 | Blanks are stepped over, all of `0`-`9`, `+`, `-`, `.`, `e`, `E` that stand there are taken and converted, and the position is the one behind them |
| `JsonNumberLaws.NumberMissing` | src/main/cpp/lattice/util/json.cpp:484-494 | With no such character there is no number |
| `JsonNumberLaws.NumeralInArray` | src/main/cpp/lattice/util/json.cpp:353-448 | A numeral alone in an array gives an array of its value |
| `JsonNumberLaws.DigitsInArray` | src/main/cpp/lattice/util/json.cpp:353-448 | An array of digits alone holds the number they spell |
| `JsonNumberLaws.PrintShape` | src/inc/lattice/util/json.hpp:202 | Every number, negative or not, is printed as a minus exactly if it is negative, digits without a leading zero, a point and six digits, which are the nearest number of millionths, the even one of two equally near |
| `JsonNumberLaws.PrintedValue` | src/inc/lattice/util/json.hpp:202 | For every number: the print is converted to a value within half a millionth, and starts with a minus exactly if the number is negative |
| `JsonLayout.PrintedLines` | src/main/cpp/lattice/util/json.cpp:316-339 | For every tree, order and level, the print that is not compact, cut at its line ends, is: the opening bracket; each member or element on lines of its own behind four spaces a level, one level deeper, a member behind its quoted key, a colon and a space, with commas between; the closing bracket behind four spaces a level |
| `JsonLayout.PrintIsLines` | src/main/cpp/lattice/util/json.cpp:450-471 | So the text is these lines with line ends between them, for arrays and objects |
| `JsonLayout.CompactIsDense` | src/main/cpp/lattice/util/json.cpp:316-339 | A compact print is brackets, quoted keys, colons, values and commas with nothing between, whatever the level |
| `JsonLayout.CompactBlanks` | src/main/cpp/lattice/util/json.cpp:316-339 | A compact print has no line end and no tab, and exactly the spaces of its strings and keys |
| `JsonStringLaws.EncodeOne` | src/main/cpp/lattice/util/json.cpp:145-170 | The seven characters that are escaped, with their letters; every other character, a backslash too, is printed as it is |
| `JsonStringLaws.EncodeConcat` | src/main/cpp/lattice/util/json.cpp:136-173 | Strings are escaped character by character |
| `JsonStringLaws.EncodeShape` | src/main/cpp/lattice/util/json.cpp:136-173 | No control character of the table is printed, and a quote or a slash only behind a backslash |
| `JsonStringLaws.DecodeEscape` | src/main/cpp/lattice/util/json.cpp:104-129 | Behind a complete part an escape is decoded as the table says, `b` to a space, `u` to itself with its backslash, an unknown letter to nothing |
| `JsonStringLaws.DecodePlainChar` | src/main/cpp/lattice/util/json.cpp:97-103 | Every character but the backslash stands for itself |
| `JsonStringLaws.DecodeOpen` | src/main/cpp/lattice/util/json.cpp:97-103 | A backslash at the end stands for nothing |
| `JsonStringLaws.OpeningQuote` | src/main/cpp/lattice/util/json.cpp:63-79 | Before the opening quote the scan steps over exactly blanks, and backslashes with any character behind them |
| `JsonLanguage.BlanksAreSkipped` | src/main/cpp/lattice/util/json.cpp:38-41 | The four blanks, before and inside the brackets |
| `JsonLanguage.OthersAreRefused` | src/main/cpp/lattice/util/json.cpp:201-221 | Any other first character makes the node invalid |
| `JsonLanguage.BehindText` | src/main/cpp/lattice/util/json.cpp:303-305 | A position behind the text is taken for the end of an object or array |
| `JsonNumbers.DigitConverts` | src/main/cpp/lattice/util/json.cpp:265 | A text that starts with a digit converts, so a number in value position never throws for want of digits |
| `JsonNumbers.ParseNumberText` | src/main/cpp/lattice/util/json.cpp:484-497 | The two loops find the numeric characters; nothing found, a text that does not convert, and a number are told apart |
| `JsonPrinter.PrintFollows` | src/main/cpp/lattice/util/json.cpp:316-339 | The print of a tree, in any order and layout, is the text of a derivation of the reader's grammar |
| `JsonPrinter.PrintDerives` | src/main/cpp/lattice/util/json.cpp:316-339 | For a readable tree that derivation is well-formed and denotes the tree with its numbers rounded |
| `JsonPrinter.ReadableObjectIsRead` | src/main/cpp/lattice/util/json.cpp:194-339 | The print of a readable object, inside any text, is read as the object with its numbers rounded |
| `JsonPrinter.ReadableArrayIsRead` | src/main/cpp/lattice/util/json.cpp:353-471 | The same for arrays |
| `JsonPrinter.FaithfulReread` | src/inc/lattice/util/json.hpp:202 | Rounding leaves a tree of non-negative six-decimal numbers as it is |
| `JsonBackslashes.DecodeCluster` | src/main/cpp/lattice/util/json.cpp:95-132 | A stretch of a decoded string with n backslashes comes from a stretch of the raw text with about twice as many |
| `JsonBackslashes.EncodeCluster` | src/main/cpp/lattice/util/json.cpp:137-172 | A stretch of a print without added escapes comes from a stretch of the string printed with at most one backslash less |
| `JsonExact.SelfPrintedSpelled` | src/main/cpp/lattice/util/json.cpp:53-173 | In a text whose quotes all stem from a printed set of strings, and from which every string of the set is read, every string of the set is in the exact domain |
| `JsonRoundTrip.DerivedWithin` | src/main/cpp/lattice/util/json.cpp:194-448 | Every string and key of a tree that is read is the decoding of a slice of the text, no key is empty and no number negative |
| `JsonRoundTrip.RereadFaithful` | src/inc/lattice/util/json.hpp:202 | If the tree with its numbers rounded is the tree, all its numbers have six decimals |
| `JsonNodes.JsonNode.constructor` | src/inc/lattice/util/json.hpp:109-235 | A fresh node of each kind is valid and holds the initial tree |
| `JsonNodes.JsonNode.FromBool` | src/inc/lattice/util/json.hpp:216-219 | A boolean node holding the given value |
| `JsonNodes.JsonNode.ObjectFrom` | src/inc/lattice/util/json.hpp:116 | An object built from a text holds what parsing the text stores, and is valid exactly when parsing succeeds |
| `JsonNodes.JsonNode.Invalid` | src/inc/lattice/util/json.hpp:91-94 | Clears `valid_` and gives no position; the tree stays |
| `JsonNodes.JsonNode.Store` | src/inc/lattice/util/json.hpp:131-133 | A child is stored under its key, the other members stay; validity of all nodes below is kept if the child's holds |
| `JsonNodes.JsonNode.Append` | src/inc/lattice/util/json.hpp:156-158 | A child is appended, the others stay |
| `JsonNodes.JsonNode.ParseObject` | src/main/cpp/lattice/util/json.cpp:194-306 | The loop in place refines `ReadObject` from the members already there; for a fresh node `parse` fails exactly when `valid_` ends false; success means that every node below, at all depths, is valid; a node that is invalid reads nothing |
| `JsonNodes.JsonNode.ReadMember` | src/main/cpp/lattice/util/json.cpp:207-298 | The branches that store a child: what is stored when nothing starts here, when the child fails, when it is read; and whether the key was repeated |
| `JsonNodes.JsonNode.ParseArray` | src/main/cpp/lattice/util/json.cpp:353-448 | The array loop in place refines `ReadArray`; validity as for objects |
| `JsonNodes.JsonNode.ReadElement` | src/main/cpp/lattice/util/json.cpp:371-441 | The branches that append a child |
| `JsonNodes.JsonNode.ParseString` | src/main/cpp/lattice/util/json.cpp:473-477 | The string is decoded and kept even on failure; the position behind the closing quote must be below `end`, so a string that ends the text is valid with the default end and not inside a container |
| `JsonNodes.JsonNode.ParseNumber` | src/main/cpp/lattice/util/json.cpp:484-497 | The number is assigned when it converts; an empty number invalidates the node; a throw leaves it as it was |
| `JsonNodes.JsonNode.ReadChild` | src/main/cpp/lattice/util/json.cpp:207-298 | A fresh node of the kind the character calls for, holding what `ReadValue` says, valid at all depths on success |
| `JsonNodes.JsonNode.ReadLeafChild` | src/main/cpp/lattice/util/json.cpp:265-298 | The same for strings, numbers, booleans and null |
| `JsonNodes.JsonNode.Serialize` | src/main/cpp/lattice/util/json.cpp:316-339 | The text is the print of the node's own tree in some order of its members |
| `JsonNodes.JsonNode.SerializeObject` | src/main/cpp/lattice/util/json.cpp:316-339 | The loop over the map in an arbitrary order prints each member once, with commas between |
| `JsonNodes.JsonNode.SerializeMember` | src/main/cpp/lattice/util/json.cpp:330 | Key, colon and value of one member |
| `JsonNodes.JsonNode.SerializeArray` | src/main/cpp/lattice/util/json.cpp:450-471 | The loop over the items prints them in order, with commas between |
| `JsonNodes.JsonNode.MakeIndentation` | src/main/cpp/lattice/util/json.cpp:318-321 | Four spaces a level; none when compact or when the level is not positive |
| `ExecutorStop.StopIsSafe` | src/main/cpp/lattice/util/thread_pool_exec.cpp:24-32 | When `stop` is safe, exactly: for any number of workers and submitters and after any run before it, the call that sets `stop_` can return from every state that can follow if and only if, when it sets `stop_`, no submitter is between its read of `stop_` and its push (and, for an executor that was never started, nothing is queued) |
| `ExecutorStop.StopReturns` | src/main/cpp/lattice/util/thread_pool_exec.cpp:24-32 | The same condition is exact for termination: if and only if it holds, every fair run of more rounds than the rank of the state in which termination is announced returns from `stop` |
| `ExecutorStop.ShutdownSettled` | src/main/cpp/lattice/util/thread_pool_exec.cpp:24-32 | The exact condition at any later point: after `terminate_` is set, the call can return from every state that can follow if and only if it is not stuck and either nobody is about to push or the call is done with the queue |
| `ExecutorStop.LatePush` | src/main/cpp/lattice/util/thread_pool_exec.hpp:41-45 | Every submission under way can hang `stop` while it looks at the queue, for every number of workers and every state: the workers leave, then the task is pushed |
| `ExecutorTheorems.NoLostWakeUp` | src/main/cpp/lattice/util/task_queue.cpp:12-40 | In every state that any number W >= 1 of started workers and any submitters can reach: if tasks are queued and `terminate_` is unset, some worker is awake, a notification is pending, or a stopper has set `stop_` and is about to set `terminate_` |
| `ExecutorTheorems.NeverStuckBeforeTermination` | src/main/cpp/lattice/util/thread_pool_exec.cpp:38-54 | So in each such state a step of one of these is enabled; that queued tasks are then taken is `ExecutorLiveness.EveryTaskIsFetched` |
| `ExecutorLiveness.FrontIsFetched` | src/main/cpp/lattice/util/task_queue.cpp:25-49 | Liveness: from every reachable state before `stop_` is set in which tasks are queued, five rounds in which every worker awake at their start takes a step and every pending notification is given fetch the front of the queue, whatever else happens in them, `stop` included |
| `ExecutorLiveness.EveryTaskIsFetched` | src/main/cpp/lattice/util/task_queue.cpp:25-49 | No starvation: as long as `stop_` is not set, the task pushed as number m is the one fetched as number m, within five such rounds for itself and each task before it in the queue |
| `ExecutorLiveness.ServingRoundExists` | src/main/cpp/lattice/util/thread_pool_exec.cpp:38-54 | Such a round can be run from every reachable state |
| `ExecutorSubmissions.Refused` | src/main/cpp/lattice/util/thread_pool_exec.hpp:41-45 | A submission is refused, nothing changing, if and only if `stop_` is set |
| `ExecutorSubmissions.SubmissionIsAccepted` | src/main/cpp/lattice/util/thread_pool_exec.hpp:41-45 | From every reachable state in which `stop_` is not set, whatever is queued and whatever others do before the push, `stop` included: the submission pushes exactly one task, never pushed before, behind everything that is queued, and changes nothing else |
| `ExecutorSubmissions.SubmitThenPush` | src/main/cpp/lattice/util/task_queue.hpp:47-65 | The two steps one after the other |
| `ExecutorSubmissions.SubmissionIsFetched` | src/main/cpp/lattice/util/thread_pool_exec.hpp:41-45 | What is submitted is fetched, in its place, within five serving rounds for it and each task queued before it, as long as `stop_` is not set |
| `ExecutorSubmissions.StopDrains` | src/main/cpp/lattice/util/thread_pool_exec.cpp:24-56 | Everything that had been pushed when the first call of `stop` set `stop_` has been run exactly once when it returns |
| `ExecutorSubmissions.LoopHead` | src/main/cpp/lattice/util/thread_pool_exec.cpp:40-42 | A worker left to itself at the head of its loop leaves in two steps exactly if `stop_` is set and nothing is queued, and otherwise comes to fetch |
| `ExecutorSubmissions.FetchAndRun` | src/main/cpp/lattice/util/thread_pool_exec.cpp:42-51 | A worker left to itself at its fetch runs the front of the queue to completion and is back at the head of its loop; with an empty queue it runs the no-op if terminated and sleeps if not |
| `ExecutorTheorems.InOrderAndOnce` | src/main/cpp/lattice/util/task_queue.cpp:25-49 | In every run the pushes are the fetches followed by the queue, and each fetched task is either finished once or in the hands of exactly one worker |
| `ExecutorTheorems.ShutdownDrains` | src/main/cpp/lattice/util/thread_pool_exec.cpp:24-56 | When the call of `stop` that set `stop_` returns, all workers have left, every task pushed before `stop_` was set has been run to completion exactly once, and nothing fetched is unfinished, however late submitters interleave with the separate reads of `stop_` and `empty()` |
| `ExecutorTheorems.WorkerStepFalls` | src/main/cpp/lattice/util/task_queue.cpp:34-49 | With `terminate_` set, a measure over queue length and program counters falls on every step of every worker, spurious wake-ups included |
| `ExecutorTheorems.NoStepRises` | src/main/cpp/lattice/util/task_queue.cpp:12-23 | With nobody about to push, no step of any other thread makes the measure larger |
| `ExecutorTheorems.WorkerStepsBounded` | src/main/cpp/lattice/util/thread_pool_exec.cpp:38-54 | In every run from there the workers take at most as many steps as the measure says |
| `ExecutorTheorems.DrainedForGood` | src/main/cpp/lattice/util/task_queue.cpp:34-49 | In every run from there no worker falls asleep, and a queue once empty stays empty |
| `ExecutorTheorems.ShutdownEnds` | src/main/cpp/lattice/util/thread_pool_exec.cpp:24-32 | From every such state, submissions under way or not, the stopping call can return if and only if it is not waiting on a non-empty queue with all workers gone; and once nobody is about to push, or the call is done with the queue, it can still return after any further steps of anyone |
| `ExecutorTheorems.SettledAlways` | src/main/cpp/lattice/util/thread_pool_exec.cpp:24-56 | A shutdown that is not stuck, with nobody about to push or the queue behind it, never gets stuck |
| `ExecutorTheorems.EndingAlways` | src/main/cpp/lattice/util/thread_pool_exec.cpp:24-56 | With nobody about to push, a shutdown that is not stuck never gets stuck |
| `ExecutorTheorems.StuckForever` | src/main/cpp/lattice/util/task_queue.cpp:19-21 | A shutdown that is stuck stays stuck in every run: the loop notifies for ever |
| `ExecutorTheorems.QuietStopEnds` | src/main/cpp/lattice/util/thread_pool_exec.cpp:24-53 | If nobody was between reading `stop_` and pushing when `stop_` was set, the call of `stop` can return from every later state, it is never stuck, and each worker fetches at most one no-op; notifications may still be pending |
| `ExecutorFairness.QuietStopReturns` | src/main/cpp/lattice/util/thread_pool_exec.cpp:24-53 | Termination under the same premise: every fair run from any point after `terminate_` is set returns from `stop`, within a number of rounds given by the state at that point. A round is fair if a worker steps in it, or no worker was awake and the stopping call takes two steps |
| `ExecutorFairness.FairRunReturns` | src/main/cpp/lattice/util/thread_pool_exec.cpp:24-53 | The same from every state of a shutdown that is not stuck |
| `ExecutorFairness.FairRoundFalls` | src/main/cpp/lattice/util/task_queue.cpp:12-23 | Every fair round brings workers and the stopping call nearer to their end: the measure falls, or the phase of the call advances |
| `ExecutorFairness.RankNoRise` | src/main/cpp/lattice/util/task_queue.cpp:12-49 | No step of any thread undoes this progress |
| `ExecutorTheorems.LateSubmissionHangs` | src/main/cpp/lattice/util/thread_pool_exec.hpp:41-45 | An illustration of the half of `StopIsSafe` that hangs: a run of one worker and one late submission |
| `ExecutorTheorems.StartedLate` | src/main/cpp/lattice/util/thread_pool_exec.cpp:20-22 | Tasks may be submitted before `start`: the state once the workers are started is one that an executor started at once reaches by the same steps, so everything said of started executors holds from there |
| `ExecutorInvariants.AlwaysInv` | src/main/cpp/lattice/util/thread_pool_exec.cpp:34-56 | Every state that a started executor can reach satisfies the whole invariant |
| `ExecutorInvariants.InvKept` | src/main/cpp/lattice/util/thread_pool_exec.cpp:34-56 | Every step of every thread keeps the invariant |
| `ExecutorInvariants.FifoKept` | src/main/cpp/lattice/util/task_queue.cpp:25-49 | Every step keeps: pushed == fetched + queued |
| `ExecutorInvariants.FreshKept` | src/main/cpp/lattice/util/task_queue.hpp:47-65 | Every step keeps: no task is pushed twice, and admitted tasks are not pushed yet |
| `ExecutorInvariants.RanKept` | src/main/cpp/lattice/util/thread_pool_exec.cpp:42-51 | Every step keeps: the fetched tasks are, as a multiset, those finished and those in the hands of workers |
| `ExecutorInvariants.NoNeedlessSleepKept` | src/main/cpp/lattice/util/task_queue.cpp:34-40 | Every step keeps: while a worker sleeps, queued tasks are covered by workers on their way and pending notifications |
| `ExecutorInvariants.ExitsKept` | src/main/cpp/lattice/util/thread_pool_exec.cpp:41 | Every step keeps: a worker leaves only after all tasks pushed before `stop_` was set have been fetched, and the no-op is in hand only when terminated |
| `ExecutorInvariants.QuietKept` | src/main/cpp/lattice/util/thread_pool_exec.cpp:24-53 | Every step keeps: if nobody was admitted when `stop_` was set, the queue is empty once a worker has left, and no worker gets a second no-op |
| `ExecutorInvariants.JoinedKept` | src/main/cpp/lattice/util/thread_pool.cpp:15-25 | Every step keeps: after the broadcast nobody sleeps, and the workers joined so far have left |
| `Executors.TaskQueue.Add` | src/main/cpp/lattice/util/task_queue.cpp:25-32 | The task goes to the end of the queue |
| `Executors.TaskQueue.Next` | src/main/cpp/lattice/util/task_queue.cpp:42-49 | The front is taken off, or the no-op is given and the queue stays empty |
| `Executors.TaskQueue.Fetch` | src/main/cpp/lattice/util/task_queue.cpp:34-40 | The critical section: sleep exactly when not terminated and empty; the no-op exactly when terminated and empty; else the front |
| `Executors.TaskQueue.Terminate` | src/main/cpp/lattice/util/task_queue.cpp:12-17 | Only the first call goes on |
| `Executors.ThreadPool.Add` | src/main/cpp/lattice/util/thread_pool.cpp:27-29 | The worker goes to the end of the vector |
| `Executors.ThreadPool.NotifyOne` | src/main/cpp/lattice/util/task_queue.cpp:31 | One sleeping worker, whichever, looks again; nothing happens when none sleeps |
| `Executors.ThreadPool.NotifyAll` | src/main/cpp/lattice/util/task_queue.cpp:22 | Every sleeping worker looks again, the others stay where they are |
| `Executors.ThreadPoolExecutor.constructor` | src/main/cpp/lattice/util/thread_pool_exec.cpp:7-14 | A new executor is in the initial state of the transition system, started if asked to |
| `Executors.ThreadPoolExecutor.Start` | src/main/cpp/lattice/util/thread_pool_exec.cpp:34-56 | The first call starts `maxWorkers` workers, every later call changes nothing |
| `Executors.ThreadPoolExecutor.Submit` | src/main/cpp/lattice/util/thread_pool_exec.hpp:41-45 | Reading `stop_`: refused, or admitted to push |
| `Executors.ThreadPoolExecutor.Push` | src/main/cpp/lattice/util/task_queue.hpp:47-65 | The push under the lock, as in the transition system |
| `Executors.ThreadPoolExecutor.Fetch` | src/main/cpp/lattice/util/task_queue.cpp:34-40 | The fetch of a worker, as in the transition system |
| `Executors.ThreadPoolExecutor.Stop` | src/main/cpp/lattice/util/thread_pool_exec.cpp:24-28 | Only the first call sets `stop_` |
| `Executors.ThreadPoolExecutor.EnterPool` | src/main/cpp/lattice/util/thread_pool.cpp:15-20 | The pool is terminated once |
| `Executors.ThreadPoolExecutor.Step` | src/main/cpp/lattice/util/thread_pool_exec.cpp:24-56 | Every stretch of code between two points where another thread can come in takes the objects where the transition system goes |
| `Executors.ThreadPoolExecutor.Run` | src/main/cpp/lattice/util/thread_pool_exec.cpp:24-56 | So does every schedule, which carries the theorems on runs over to the objects |
| `Tokenizer.Tokenize` | src/main/cpp/lattice/util/string_util.hpp:11-49 | The fused loop computes: split, then trim if asked, then drop the empty pieces unless they are allowed; for any begin and end |
| `Tokenizer.Narrow` | src/main/cpp/lattice/util/string_util.hpp:25-29 | The two inner loops move the bounds in to the trimmed piece |
| `Tokenizer.PiecesAreClean` | src/main/cpp/lattice/util/string_util.hpp:24-49 | Every raw piece is a slice of the text and contains no delimiter, with or without an explicit end |
| `Tokenizer.SplitJoined` | src/main/cpp/lattice/util/string_util.hpp:24-49 | With no explicit end, joining the raw pieces gives the text back, apart from one trailing delimiter exactly when the last match ends the text |
| `Tokenizer.SplitOfJoined` | src/main/cpp/lattice/util/string_util.hpp:24-49 | Splitting undoes joining, for pieces in which no delimiter starts and a last piece that is not empty |
| `TokenizerLaws.NoDelimiter` | src/main/cpp/lattice/util/string_util.hpp:17 | An empty delimiter gives the text as the only token |
| `TokenizerLaws.AllTokens` | src/main/cpp/lattice/util/string_util.hpp:24-46 | With empty tokens allowed, the tokens are the raw pieces one by one, trimmed if asked |
| `TokenizerLaws.FullTokens` | src/main/cpp/lattice/util/string_util.hpp:24-46 | Without, they are exactly those that are not empty, in their order |
| `TokenizerLaws.SplitUpTo` | src/main/cpp/lattice/util/string_util.hpp:24-46 | With an explicit end: joining the raw pieces gives the text up to the end, and a delimiter that starts before the end counts whole |
| `Tokenizer.TrimmedMeans` | src/main/cpp/lattice/util/string_util.hpp:26-29 | Trimming takes off spaces at both ends and nothing else |
| `Tokenizer.TokensAreTight` | src/main/cpp/lattice/util/string_util.hpp:24-49 | Every token that is trimmed and kept is a non-empty slice of the text without outer spaces and without the delimiter |
| `HttpRoundTrip.RequestRoundTrip` | src/main/cpp/lattice/http/http_request.cpp:30-70 | A fresh request that reads the message of a request, printed in any order of the header map and with any payload, has the same method, path and payload and under every name the same values in the same order, if and only if: the path has no space and no CRLF, names have no colon, CRLF or leading space, values have no CRLF or outer spaces, no name and value are both empty; or the path is empty and there is nothing to restore. Then `parse` does not throw |
| `HttpRoundTrip.Resent` | src/main/cpp/lattice/http/http_request.cpp:30-70 | On the objects: the message put together by `toString` and `HeaderList::str` and read by a fresh request restores it under exactly that condition |
| `HttpReading.MessageIsRead` | src/main/cpp/lattice/http/http_request.cpp:30-66 | Every message whose request line has three words, whatever the third is, is read into every request: method by the first word, path, the value of every header line added under its name, names without a colon included, up to a line of one character, and the payload |
| `HttpReading.SpacedMessageIsRead` | src/main/cpp/lattice/http/http_request.cpp:39-42 | More than one space between the words makes no difference |
| `HttpReading.PaddingIsIgnored` | src/main/cpp/lattice/http/http_request.cpp:36 | Spaces around the lines of the head, and lines of spaces alone, make no difference |
| `HttpReading.MessageValues` | src/main/cpp/lattice/http/http_request.cpp:47-63 | Per name: the values the request had, then those of its lines in order |
| `HttpReading.OtherwiseUnread` | src/main/cpp/lattice/http/http_request.cpp:37-40 | A request line of one, two, four or more words leaves the request as it was, whatever stands behind it |
| `HttpReading.EmptyHeadUnread` | src/main/cpp/lattice/http/http_request.cpp:36-37 | So does a text that starts with a blank line |
| `HttpReading.MethodTable` | src/inc/lattice/http/http_request.hpp:43-53 | The ten names give their methods, every other word is undefined |
| `HttpReading.HeaderLineIsRead` | src/main/cpp/lattice/http/http_request.cpp:49-61 | A header line is a name alone, or a name, a colon, any spaces and a value |
| `HttpReading.LineFeedsLoseTwo` | src/main/cpp/lattice/http/http_request.cpp:31-34 | With two line feeds instead of a blank line of two CRLF, the first two characters of the payload are lost, and the reader throws if there are not two |
| `HttpReading.NoSeparator` | src/main/cpp/lattice/http/http_request.cpp:31-34 | With no separator the payload is the request line from its fourth character on |
| `HttpReading.RequestLineText` | src/main/cpp/lattice/http/http_request.cpp:68-70 | The request line as printed, for each of the ten methods |
| `HttpReading.HeaderTextOfOne` | src/main/cpp/lattice/http/http_header.cpp:24-31 | A header field as printed: name, colon, space, value, line end |
| `HttpRoundTrip.EmptyPathIsNotRead` | src/main/cpp/lattice/http/http_request.cpp:39-40 | The message of a request without a path changes nothing |
| `HttpRoundTrip.ReadIsSafe` | src/main/cpp/lattice/http/http_request.cpp:36-63 | Whatever text is read into a fresh request, the path, names and values it then holds satisfy those conditions |
| `HttpRoundTrip.FieldIsSafe` | src/main/cpp/lattice/http/http_request.cpp:51-60 | The same for one header line |
| `HttpRoundTrip.SafeIsRead` | src/main/cpp/lattice/http/http_request.cpp:30-66 | What exactly is read from the message of a safe request |
| `HttpRoundTrip.LinesAreFound` | src/main/cpp/lattice/http/http_request.cpp:31-36 | The blank line found is the one after the head, and the lines are those printed |
| `HttpRoundTrip.FieldsReadBack` | src/main/cpp/lattice/http/http_request.cpp:48-63 | The header lines printed are read as the fields they were printed from, in order |
| `HttpRoundTrip.HeadWords` | src/main/cpp/lattice/http/http_request.cpp:39-42 | The request line has exactly its three words |
| `HttpRoundTrip.CollectedValues` | src/main/cpp/lattice/http/http_header.cpp:7-10 | Reading fields adds to every name its values in the order of the fields |
| `HttpRoundTrip.ValuesOfFields` | src/main/cpp/lattice/http/http_header.cpp:24-31 | For every order of the walk, the fields printed give every name its own values in order |
| `HttpMessages.HeaderList.Set` | src/main/cpp/lattice/http/http_header.cpp:20-22 | Assignment appends to the values of the name and leaves other names alone |
| `HttpMessages.HeaderList.Str` | src/main/cpp/lattice/http/http_header.cpp:24-31 | The nested loops print one line for each value, in the given order of the map |
| `HttpMessages.HttpRequest.Parse` | src/main/cpp/lattice/http/http_request.cpp:30-66 | The in-place reader gives the object the contents that the reading function says, early returns included, and fails exactly when the payload would start behind the end of the text |
| `HttpMessages.HttpRequest.ReadHeaders` | src/main/cpp/lattice/http/http_request.cpp:44-63 | The header loop appends the fields of the lines up to the first line of one character |
| `HttpMessages.HttpRequest.ToString` | src/main/cpp/lattice/http/http_request.cpp:68-70 | Method name, space, path |
| `HttpMessages.HttpRequest.Clear` | src/main/cpp/lattice/http/http_request.cpp:72-76 | Everything but the method is cleared |
| `Connections.ClosedOnce` | src/main/cpp/lattice/tcp/tcp_handler.cpp:16-59 | Over every chain of callbacks that leave the close state alone, the descriptor is closed exactly once, or not at all if the first non-zero code is `INTERRUPT_WO_CLOSE` |
| `Connections.CloseCount` | src/main/cpp/lattice/tcp/tcp_handler.cpp:37-59 | For chains of callbacks that also close the connection or switch automatic closing: exactly how often the descriptor is closed |
| `Connections.ClosedTwice` | src/main/cpp/lattice/tcp/tcp_handler.cpp:49-53 | A callback that closes the connection and asks for closing has the descriptor closed twice |
| `Connections.TcpHandler.RunCbFunc` | src/main/cpp/lattice/tcp/tcp_handler.cpp:37-59 | The loop runs the callbacks up to and with the first non-zero code and none after it, and leaves the close state that the chain says |
| `Connections.TcpHandler.DoHandle` | src/main/cpp/lattice/tcp/tcp_handler.cpp:16-35 | The normal path: built, run, destroyed |
| `Connections.Connection.Finish` | src/main/cpp/lattice/tcp/tcp_connection.cpp:66-69 | Marks the connection closed and closes the descriptor, each time it is called |
| `Connections.Connection.Destroy` | src/main/cpp/lattice/tcp/tcp_connection.cpp:22-24 | Closes only what is open and left to automatic closing |
| `Connections.Connection.SwitchAutoClose` | src/main/cpp/lattice/tcp/tcp_connection.hpp:20 | Sets the flag and nothing else |

## Left out

- Explicit `end` arguments smaller than the text in JSON parsing: the scanning of quotes and literals looks at the size instead.
- JsonNodes.JsonNode.Store: children are stored after they are read, while the source stores them before; the map is the same at every return, and no one else sees it meanwhile.
- Texts of 2^31 characters and more, for which `attrBegin`, `found`, `cutoff` and `splitPt` do not fit an `int`.
- The class hierarchy of JSON nodes: one class with a tag; shared ownership and virtual dispatch are not modelled.
- `std::stod` beyond exact decimals: rounding, infinities, hexadecimal and named numbers (their letters never reach it) and range exceptions.
- JSON `at`, `operator[]`, `toString` and `serialize` without conversion: lookup, and a display form that is not meant to be read back.
- ExecutorTheorems.ShutdownEnds: speaks of what can happen from every state; that it does happen under a fair schedule is `ExecutorFairness.FairRunReturns`, and schedules that pass a waiting thread over for ever are left out.
- The C++ memory model of the unlocked reads, the futures of tasks, tasks that throw, and `maxQueueSize_`, which is stored and never enforced.
- Calls of `stop` other than the one that sets `stop_`: they return at once, also while the shutdown is under way.
- A `start` that overlaps or follows a `stop`, and destroying an executor while a thread still uses it. Submissions before `start` are covered by `ExecutorTheorems.StartedLate`, and `stop` on an executor that is never started by `ExecutorStop.StopIsSafe` with no workers.
- HTTP messages are printed here by composing the two printers; the repository prints requests nowhere else. Responses, `thread_local` requests and the reading of the socket are left out.
- The index argument of header values, and `HeaderList.get` and `exist`: lookups.
- Connections: callbacks that throw and the second close in the handler of the exception; descriptors that the system reuses.
- Sockets, `HttpServer`, `AppImpl`, the REST registry, `URL`, `Log`, `ftrim` and the hexadecimal converter: input and output, ownership, or easy additions.
