# Proofs about the bundled libraries

The server of this repository ships jQuery 3.5.1, mustache.js and the `org.json` package. This
project models the parts of them that carry state, order or text formats, and proves what those
parts are for. `dafny verify dfyconfig.toml` checks everything.

- **Sizzle** (in jQuery): `Dom`, `Combinator`, `NthChild`, `DocumentOrder`. Nodes are paths in a
  rose tree. The memoised combinators and the `:nth-child` index cache are proved equal to the
  loops without a cache, for every sequence of queries; the fallback comparator is proved equal to
  preorder, and `uniqueSort` to sort by it.
- **Callbacks, Deferred, when** (in jQuery): `Callbacks`, `CallbackRuns`,
  `CallbackDelivery`, `Deferred`, `DeferredRuns`, `DeferredOutcome`, `DeferredProgress`,
  `When`. A list that is firing
  is a state with a position; whatever a callback does before it returns is a sequence of further
  events. So a run is a sequence of events, and re-entrant calls need nothing special. A Deferred is
  six such lists and a call stack, on values: each list is the state that the class `CallbackList` is
  proved to implement.
- **mustache**: `Template` (scanner and tokens), `TemplateSyntax` (what they say), `Standalone`
  (stripping), `Squashing`, `Nesting`,
  `Mustache` (the parser).
- **org.json**: `Kim`, `JsonWriter` (with `JSONStringer`), `JsonGrammar`, `Tokener`, `Cdl`, `Cookies` (`Cookie` and
  `CookieList`), `Pointer`.

Classes whose methods update fields are classes here, and each method is tied to a function on the
old state; the properties are lemmas about those functions.

Where the code and its documentation differ, the model follows the code:

- `JSONWriter` says 20 levels in its comments; `maxdepth` is 200.
- The cached branch for `:nth-last-child` numbers siblings wrongly if a later sibling was asked
  first. `NthChild.BackwardRightIff` says exactly when, `NthChild.BackwardGoesWrong` gives a case.
- In a tree that is not in the document, `sortOrder` puts the root behind its descendants.
  `DocumentOrder.DetachedIff` says exactly when the order is document order.
- `lock` keeps the memory, so a progress callback added after settlement still gets the last
  notification; `DeferredRuns.OneOutcome` allows this and excludes notifications issued later.
- `object()` writes its brace before `push` refuses to nest deeper. The text guarantees are
  therefore about runs without exceptions, those about mode and stack about all runs.
- mustache strips a line only at its newline, so a standalone last line keeps its whitespace.
- `String.split` drops trailing empty pieces, so a pointer that ends in empty tokens is not
  restored by its own text (`Pointer.PointerRoundTripIff`).

## Model

| member | source | states |
|---|---|---|
| `Combinator.Run.Eval` | src/main/config/var/html/jquery-3.5.1.js:2393-2458 | for every matcher, node and earlier cache contents of the same run, the answer is what the plain search says; only this matcher's cells are written, and every finished cell still says whether its node or anything further along matches |
| `Combinator.Run.EvalAll` | src/main/config/var/html/jquery-3.5.1.js:2393-2458 | any sequence of queries with any set of combinators competing for the same slots of the nodes: every answer is the uncached one |
| `Combinator.Run.SearchCached` | src/main/config/var/html/jquery-3.5.1.js:2427-2454 | the memoising loop, answering from a finished cell on the way included, gives the same answer as the loop without a cache |
| `Combinator.Run.SearchPlain` | src/main/config/var/html/jquery-3.5.1.js:2419-2425 | the loop for XML documents finds a match exactly if a counted node along the direction matches |
| `Combinator.Run.SearchClosest` | src/main/config/var/html/jquery-3.5.1.js:2403-2411 | the `first` form looks at the closest counted node only |
| `Combinator.Run.EvalEvery` | src/main/config/var/html/jquery-3.5.1.js:2460-2472 | a conjunction is tried from its last part on and holds if all parts do |
| `Combinator.FurtherIsExists` | src/main/config/var/html/jquery-3.5.1.js:2419-2425 | searching along a direction is existential: some node on the way counts and matches, unless a node is skipped by the `next` option |
| `Combinator.ClosestIsFirst` | src/main/config/var/html/jquery-3.5.1.js:2403-2410 | the `first` form holds if and only if the first node along the walk that counts matches; no other node is asked |
| `Combinator.FurtherIsAsked` | src/main/config/var/html/jquery-3.5.1.js:2427-2454 | the other form, `next` included: it holds if and only if some node on the walk matches that counts, does not bear the name to skip, and comes after an even number of nodes in a row that do |
| `Combinator.WalkUp` | src/main/config/var/html/jquery-3.5.1.js:2403-2454 | the walk along `parentNode` is the ancestors, nearest first |
| `Combinator.WalkBack` | src/main/config/var/html/jquery-3.5.1.js:2403-2454 | the walk along `previousSibling` is the siblings before, nearest first |
| `Combinator.NonElementsIff` | src/main/config/var/html/jquery-3.5.1.js:2394-2405 | a node that is no element counts if and only if the combinator is a leading one whose key is "parentNode" |
| `Combinator.SameInXml` | src/main/config/var/html/jquery-3.5.1.js:2419-2454 | without the `next` option the two loops are specified alike, so the cached answer is the plain loop's answer |
| `NthChild.Seek` | src/main/config/var/html/jquery-3.5.1.js:1953-1984 | from whatever sibling the cached index points at, the loop ends (starting over at the first child at most once) with the 1-based position among the element children |
| `NthChild.ChildRun.SeekForward` | src/main/config/var/html/jquery-3.5.1.js:1953-1984 | the same with the cache on the parent, for siblings asked in any order; the cache stays truthful |
| `NthChild.FinalTestIsFormula` | src/main/config/var/html/jquery-3.5.1.js:2040-2041 | the remainder-and-quotient test holds if and only if some n >= 0 has first*n + last equal to the position, for all integers, zero and negative steps included (section 6.6.5.2 of Selectors Level 3) |
| `NthChild.ChildRun.MatchesNthChild` | src/main/config/var/html/jquery-3.5.1.js:1917-2041 | an element matches if and only if it has a parent and its position satisfies the formula |
| `NthChild.SeekBack` | src/main/config/var/html/jquery-3.5.1.js:1986-2036 | the uncached backward loop counts the position from the end, and notes on every element child exactly what the cached branch will later read |
| `NthChild.ChildRun.SeekBackward` | src/main/config/var/html/jquery-3.5.1.js:1986-2036 | the cached backward branch is right if and only if no later sibling was asked first |
| `NthChild.BackwardRightIff` | src/main/config/var/html/jquery-3.5.1.js:2007-2036 | the number noted on a child is its position from the end if and only if it does not precede the child that was asked first |
| `NthChild.BackwardGoesWrong` | src/main/config/var/html/jquery-3.5.1.js:2007-2036 | a concrete pair of siblings for which the noted number is wrong |
| `DocumentOrder.BeforeIsPreorder` | src/main/config/var/html/jquery-3.5.1.js:1531-1596 | comparing paths is comparing positions in the preorder listing of the tree |
| `DocumentOrder.Sizzle.SiblingCheck` | src/main/config/var/html/jquery-3.5.1.js:971-991 | for two children of one parent, or one child and nothing, the sign is that of the child positions; a missing first argument sorts first |
| `DocumentOrder.Sizzle.SortOrder` | src/main/config/var/html/jquery-3.5.1.js:1531-1596 | the comparator over ancestor lists, its shortcut for siblings included, gives the verdict specified on paths and raises the duplicate flag exactly for equal nodes |
| `DocumentOrder.VerdictIsPreorder` | src/main/config/var/html/jquery-3.5.1.js:1531-1596 | for any two nodes of the document the verdict is negative if and only if the first comes before the second in preorder, positive if and only if it comes after |
| `DocumentOrder.DetachedIff` | src/main/config/var/html/jquery-3.5.1.js:1546-1563 | in a detached tree the verdict is document order if and only if neither node is the root of that tree |
| `DocumentOrder.DifferentTrees` | src/main/config/var/html/jquery-3.5.1.js:1582-1595 | nodes of different trees: the preferred document first, otherwise undecided |
| `DocumentOrder.ParentlessNodes` | src/main/config/var/html/jquery-3.5.1.js:1546-1560 | parentless nodes: the document first, then what has a parent, then the order of the list being sorted |
| `DocumentOrder.VerdictTurns` | src/main/config/var/html/jquery-3.5.1.js:1531-1596 | exchanging the arguments turns the sign |
| `DocumentOrder.Ancestors` | src/main/config/var/html/jquery-3.5.1.js:1566-1576 | the list of a node and its ancestors, root first |
| `DocumentOrder.Sizzle.Sort` | src/main/config/var/html/jquery-3.5.1.js:1693 | a sort by the comparator: the same nodes as often, in document order, and the flag is up unless all were different |
| `DocumentOrder.Sizzle.UniqueSort` | src/main/config/var/html/jquery-3.5.1.js:1684-1711 | the result has the same nodes, no duplicates, in strictly increasing document order; the sort input is released |
| `DocumentOrder.DropDuplicates` | src/main/config/var/html/jquery-3.5.1.js:1695-1704 | noting repeats and splicing them out from the back removes exactly the elements equal to their predecessor |
| `DocumentOrder.OrderedDedup` | src/main/config/var/html/jquery-3.5.1.js:1684-1711 | on a sorted list that pass keeps every node once and the order strict |
| `Callbacks.CallbackList.RunToNextCallback` | src/main/config/var/html/jquery-3.5.1.js:3491-3524 | from one callback's return to the next call or to the end of firing, the fields change as the step function says |
| `Callbacks.CallbackList.Fire` | src/main/config/var/html/jquery-3.5.1.js:3483-3525 | locking for `once`, passes over the queue, clean-up |
| `Callbacks.CallbackList.AddCallbacks` | src/main/config/var/html/jquery-3.5.1.js:3531-3559 | pushes, `unique`, and the re-fire of remembered arguments for what was just added |
| `Callbacks.CallbackList.RemoveCallback` | src/main/config/var/html/jquery-3.5.1.js:3562-3575 | all occurrences go and the firing index follows |
| `Callbacks.CallbackList.DisableList` | src/main/config/var/html/jquery-3.5.1.js:3596-3601 | the list and its memory are gone, the list is locked and its queue empty |
| `Callbacks.CallbackList.LockList` | src/main/config/var/html/jquery-3.5.1.js:3608-3614 | locks; without memory and outside firing also forgets the list |
| `Callbacks.CallbackList.FireListWith` | src/main/config/var/html/jquery-3.5.1.js:3620-3631 | queues the arguments unless locked, and fires unless already firing |
| `Callbacks.CallbackList.EmptyList` | src/main/config/var/html/jquery-3.5.1.js:3586-3591 | drops all entries, unless the list is gone |
| `Callbacks.CallbackList.CallbackReturns` | src/main/config/var/html/jquery-3.5.1.js:3494-3504 | a callback that returns false under `stopOnFalse` ends the pass and the memory; otherwise the next one is due |
| `Callbacks.EveryRunWellFormed` | src/main/config/var/html/jquery-3.5.1.js:3453-3640 | after every run of calls and returns, re-entrant ones included, the firing index is at least -1 and a list that is firing has its arguments |
| `CallbackRuns.OnceMemoryRuns` | src/main/config/var/html/jquery-3.5.1.js:3483-3559 | "once memory" lists under any interleaving of `add`, `fireWith` and returns: what was invoked is a prefix of what was added, all of it whenever the list is idle after firing, each time with the arguments of the first `fireWith` |
| `CallbackRuns.RemoveFromFilters` | src/main/config/var/html/jquery-3.5.1.js:3562-3575 | the removal loop is a filter, and the new firing index is the number of survivors at or before the old one, minus one |
| `CallbackRuns.PassRuns` | src/main/config/var/html/jquery-3.5.1.js:3491-3575 | re-entrant `add`, `remove`, `lock` and `fireWith`: the list up to the firing index is always exactly the handled occurrences still present; no pass starts an occurrence twice or ends with one unhandled |
| `CallbackDelivery.EveryFireDelivered` | src/main/config/var/html/jquery-3.5.1.js:3483-3631 | every list without `once`, `lock` and `disable`, whatever its callbacks do: the arguments of the passes are, in order, those of the `fireWith` calls and of the `add` calls that fire again; every call gets those of its pass; at rest nothing is left in line; `add` fires again only with `memory`, the last arguments |
| `CallbackDelivery.HandledIsCalled` | src/main/config/var/html/jquery-3.5.1.js:3491-3504 | what a pass has handled is what it called, and for a pass begun by `add` what was there before |
| `CallbackDelivery.EntriesGetTheFire` | src/main/config/var/html/jquery-3.5.1.js:3491-3575 | when the pass of a `fireWith` is over it has called every entry that was there then and still is, under any `add` and `remove` |
| `CallbackDelivery.FireReachesAll` | src/main/config/var/html/jquery-3.5.1.js:3483-3631 | a list that only grows has called every function added before a `fireWith` with its arguments once it is at rest |
| `CallbackDelivery.FireCallsAll` | src/main/config/var/html/jquery-3.5.1.js:3483-3525 | undisturbed, `fireWith` calls the entries one after the other with its arguments, then rests with its memory, and emptied or gone if it was for `once` |
| `CallbackDelivery.FalseStops` | src/main/config/var/html/jquery-3.5.1.js:3494-3504 | a false return under `stopOnFalse` ends the pass: the next call belongs to a later one, or the list rests without memory |
| `CallbackDelivery.OtherwiseGoesOn` | src/main/config/var/html/jquery-3.5.1.js:3494-3504 | any other return goes on with the next entry of the same pass |
| `CallbackDelivery.EmptyEnds` | src/main/config/var/html/jquery-3.5.1.js:3586-3591 | after `empty` the running callback is the last one, unless more are added |
| `CallbackDelivery.PushAllHas` | src/main/config/var/html/jquery-3.5.1.js:3531-3559 | `add` appends: afterwards exactly the old and the given functions are there; with `unique` none twice, without it one entry each |
| `CallbackDelivery.OnlyAddedIsCalled` | src/main/config/var/html/jquery-3.5.1.js:3453-3640 | in every run only added functions are listed or called, and a `unique` list never repeats one |
| `CallbackDelivery.OnceCallsOnce` | src/main/config/var/html/jquery-3.5.1.js:3483-3489 | a `once` list calls only with the arguments of the first `fireWith`, whatever else happens |
| `CallbackDelivery.LockEndsFiring` | src/main/config/var/html/jquery-3.5.1.js:3608-3614 | after `lock` every call gets the arguments that were current or remembered then |
| `CallbackDelivery.DisableEndsAll` | src/main/config/var/html/jquery-3.5.1.js:3596-3601 | after `disable` nothing is called any more, whatever follows |
| `Deferred.StepKeepsInv` | src/main/config/var/html/jquery-3.5.1.js:3690-3702 | every move of a user, the wiring callbacks or a returning callback keeps the invariant that ties the six lists, the call stack and the log to one of three phases: idle, settling, done |
| `DeferredRuns.EveryRunKeepsInv` | src/main/config/var/html/jquery-3.5.1.js:3920-3972 | so it holds after every run from a new Deferred |
| `DeferredRuns.SettlesAtMostOnce` | src/main/config/var/html/jquery-3.5.1.js:3920-3972 | once the state has left "pending" it never changes again, in any run |
| `DeferredRuns.OneOutcome` | src/main/config/var/html/jquery-3.5.1.js:3920-3972 | no run calls both done and fail callbacks, all of them get the same arguments, and every progress callback is called with arguments notified before settlement |
| `DeferredRuns.FirstSettleWins` | src/main/config/var/html/jquery-3.5.1.js:3920-3948 | a resolve or reject on a pending Deferred settles it to that side, as the first thing its firing does |
| `DeferredRuns.LaterSettleIgnored` | src/main/config/var/html/jquery-3.5.1.js:3596-3631 | every later resolve or reject changes nothing at all |
| `DeferredOutcome.ListIsRun` | src/main/config/var/html/jquery-3.5.1.js:3690-3702 | in every run each of the six lists is in the state that its own events lead to, and has made exactly the calls that those make |
| `DeferredOutcome.CalledWasAdded` | src/main/config/var/html/jquery-3.5.1.js:3920-3958 | every user function that a list called was added to that very list before |
| `DeferredOutcome.Outcome` | src/main/config/var/html/jquery-3.5.1.js:3920-3972 | once everything has returned, the first resolve or reject has decided: its list has called the wiring and then exactly the functions added to it, in order, before or after settling, each once and with its arguments; its handler list likewise; the other side nothing |
| `DeferredOutcome.SideSoFar` | src/main/config/var/html/jquery-3.5.1.js:3920-3972 | before everything has returned, the calls are a prefix of that |
| `DeferredOutcome.PendingOutcome` | src/main/config/var/html/jquery-3.5.1.js:3920-3972 | without a resolve or reject the state is pending and no done or fail function has been called |
| `DeferredOutcome.NotifyReachesAll` | src/main/config/var/html/jquery-3.5.1.js:3920-3972 | while pending, every notify has reached every progress function added before it, once everything has returned |
| `DeferredProgress.HandlersGetAll` | src/main/config/var/html/jquery-3.5.1.js:3955-3958 | while pending, once everything has returned, the handler list behind progress has been fired with exactly the notifications, in order, each once |
| `When.Aggregate.Settled` | src/main/config/var/html/jquery-3.5.1.js:4003-4012 | one argument's report changes the counters, slots and master as the update function says; a resolved slot holds the array of several arguments, the one argument, or nothing |
| `When.Aggregate.Adopt` | src/main/config/var/html/jquery-3.5.1.js:4027-4030 | arguments that are settled already report during the adopting loop, from the last to the first |
| `When.Bookkeeping` | src/main/config/var/html/jquery-3.5.1.js:4003-4012 | in every completion order the count is the number of arguments not yet resolved, a resolved slot holds its context and the array of all arguments if there were several, the argument if there was one, nothing if none; the others hold what was passed in |
| `When.AllResolveOutcome` | src/main/config/var/html/jquery-3.5.1.js:3987-4033 | without rejections the master is pending until the last argument resolves and then resolves with contexts and values in argument order |
| `When.FirstRejectWins` | src/main/config/var/html/jquery-3.5.1.js:3987-4033 | with a rejection the master rejects with the first one, whatever comes before and after |
| `When.MasterIff` | src/main/config/var/html/jquery-3.5.1.js:3987-4033 | the master is resolved if and only if every argument has resolved, and rejected if and only if one has rejected |
| `Kim.EncodesIff` | src/main/java/org/json/Kim.java:153-230 | exactly the well-formed UTF-16 strings (section 2 of RFC 2781) are accepted |
| `Kim.DecodeEncode` | src/main/java/org/json/Kim.java:153-230 | decoding the encoding of such a string gives it back |
| `Kim.EncodeDecode` | src/main/java/org/json/Kim.java:351-371 | encoding what was decoded from any accepted byte sequence gives the same bytes |
| `Kim.ReadBack` | src/main/java/org/json/Kim.java:243-264 | the bytes of a character, in front of anything, are read as that character, and its size is their number |
| `Kim.Canonical` | src/main/java/org/json/Kim.java:243-264 | a character that was read stands there in its only encoding |
| `Kim.BytesAreDigits` | src/main/java/org/json/Kim.java:183-227 | the bytes of a character are its base-128 digits, the most significant first, without leading zeros, the top bit set on all but the last |
| `Kim.PairIsStandard` | src/main/java/org/json/Kim.java:200-206 | a surrogate pair is read as section 2 of RFC 2781 has it |
| `Kim.LengthByUtf8` | src/main/java/org/json/Kim.java:161-181 | the length is the UTF-8 length (section 3 of RFC 3629) minus the number of code points in U+0800..U+3FFF and U+10000..U+10FFFF |
| `Kim.Measure` | src/main/java/org/json/Kim.java:161-181 | the first pass computes the length of the encoding, or its error |
| `Kim.Fill` | src/main/java/org/json/Kim.java:183-227 | the second pass fills exactly that many bytes with the encoding and keeps the running sum and hash modulo 2^32 |
| `Kim.FromString` | src/main/java/org/json/Kim.java:153-230 | the string constructor succeeds if and only if the string is well-formed; its bytes and hash are those of the encoding |
| `Kim.Kim.FromBytes` | src/main/java/org/json/Kim.java:97-116 | the byte-array constructor holds the stretch it was given, with the same hash for the same bytes; an empty stretch gives the empty kim |
| `Kim.HashClosedForm` | src/main/java/org/json/Kim.java:97-116 | the hash is length plus weighted byte sum plus 2^16 times the total, modulo 2^32 |
| `Kim.Kim.Equals` | src/main/java/org/json/Kim.java:306-318 | equality with its hash shortcut is equality of the byte sequences |
| `Kim.Kim.ToString` | src/main/java/org/json/Kim.java:351-371 | the string, memoised or not, is the decoding of the bytes |
| `Kim.DecodeBytes` | src/main/java/org/json/Kim.java:351-371 | the buffer of as many units as bytes never overflows, and holds the decoding |
| `JsonWriter.Writer.AppendText` | src/main/java/org/json/JSONWriter.java:110-130 | the method changes comma, mode, stack and output exactly as the call's function says, or throws and says so |
| `JsonWriter.Writer.BeginArray` | src/main/java/org/json/JSONWriter.java:141-149 | as above, for `array` |
| `JsonWriter.Writer.BeginObject` | src/main/java/org/json/JSONWriter.java:234-246 | as above, for `object`, which writes its brace before it finds the nesting too deep |
| `JsonWriter.Writer.EndScope` | src/main/java/org/json/JSONWriter.java:158-172 | as above, for `end` |
| `JsonWriter.Writer.PutKey` | src/main/java/org/json/JSONWriter.java:202-222 | as above, for `key`, including the refusal of a key the object already has |
| `JsonWriter.Writer.PushScope` | src/main/java/org/json/JSONWriter.java:275-282 | as above, for `push`, which refuses at 200 |
| `JsonWriter.Writer.PopScope` | src/main/java/org/json/JSONWriter.java:254-268 | as above, for `pop` |
| `JsonWriter.AllRunsAgree` | src/main/java/org/json/JSONWriter.java:110-282 | over all runs, exceptions caught or not, the mode agrees with the top of the stack |
| `JsonWriter.NoNestingError` | src/main/java/org/json/JSONWriter.java:254-268 | hence neither "Nesting error" can be thrown: an `end` that passes its own test finds the scope it expects |
| `JsonWriter.FrozenWhenDone` | src/main/java/org/json/JSONWriter.java:110-282 | after the outermost end every call throws and changes nothing |
| `JsonWriter.WriterRefinesPrinter` | src/main/java/org/json/JSONWriter.java:60-282 | the canonical calls for an array or object never throw and write exactly its recursive print, if and only if it is at most 200 deep with distinct keys in every object |
| `JsonWriter.RunMatches` | src/main/java/org/json/JSONWriter.java:110-282 | after every run without an exception the output is what the open arrays and objects on the stack say, or one complete value |
| `JsonWriter.WriterSound` | src/main/java/org/json/JSONStringer.java:75-77 | `toString` gives a text only when it is the print of one array or object (the grammar of section 2 of RFC 8259) with distinct keys; otherwise the output is a proper prefix of such a print |
| `JsonGrammar.GrammarIff` | src/main/java/org/json/JSONWriter.java:110-282 | a sequence of tokens is parsed by the grammar (sections 2, 4 and 5 of RFC 8259) as a value if and only if it is the print of that value: commas, colons and brackets are where they have to be |
| `JsonGrammar.WriterWritesGrammar` | src/main/java/org/json/JSONStringer.java:75-77 | whenever `toString` gives a text, the grammar parses all of it as one array or object with distinct keys |
| `JsonGrammar.DistinctIff` | src/main/java/org/json/JSONWriter.java:202-222 | distinct keys means: no two members of one object have the same key, at any depth |
| `Tokener.JSONTokener.Next` | src/main/java/org/json/JSONTokener.java:149-178 | delivers the text to come, one character at a time, NUL after its end |
| `Tokener.JSONTokener.Back` | src/main/java/org/json/JSONTokener.java:94-102 | puts the last character back in front, once; twice in a row throws |
| `Tokener.JSONTokener.More` | src/main/java/org/json/JSONTokener.java:134-141 | true exactly if the next character is not NUL and the end has not been met, and then nothing is consumed |
| `Tokener.JSONTokener.ReadTo` | src/main/java/org/json/JSONTokener.java:313-325 | the trimmed text up to the delimiter, NUL or end of line; a NUL is consumed, any other stopping character is not |
| `Tokener.NextToAll` | src/main/java/org/json/JSONTokener.java:313-325 | text without stopping characters is taken whole and trimmed, and reading stops right before the delimiter |
| `Tokener.NextToIs` | src/main/java/org/json/JSONTokener.java:313-325 | for every text: it is taken up to the first stopping character and trimmed; a NUL is taken too |
| `Tokener.TrimIs` | src/main/java/org/json/JSONTokener.java:313-325 | trimming takes only characters up to the space, and only from the ends |
| `Tokener.DehexcharIff` | src/main/java/org/json/JSONTokener.java:111-122 | digits of either case have their value, and nothing else is a digit |
| `Tokener.HexDigit` | src/main/java/org/json/JSONTokener.java:111-122 | `dehexchar` undoes the printing of a digit, and no hex digit is a separator |
| `Cdl.PrintRow` | src/main/java/org/json/CDL.java:149-177 | the printing loop prints the row its function describes |
| `Cdl.NextValue` | src/main/java/org/json/CDL.java:55-92 | reading a value from the tokener: the value, null, or the missing quote, and what is left |
| `Cdl.QuotedValueOf` | src/main/java/org/json/CDL.java:66-84 | the text between quotes, a quote before a double quote standing for itself, or the missing close quote |
| `Cdl.RowToJSONArray` | src/main/java/org/json/CDL.java:100-124 | reading a row: the row, null or a syntax error, and what is left |
| `Cdl.RowsOf` | src/main/java/org/json/CDL.java:222-239 | rows until there is none |
| `Cdl.CellRoundTripIff` | src/main/java/org/json/CDL.java:55-177 | a printed value is read back, with reading stopped right after it, exactly if it is clean: when quoted, without quotes and control characters, else trimmed and not starting with a single quote; an unclean one never comes back, whatever follows it |
| `Cdl.DoubledValue` | src/main/java/org/json/CDL.java:66-84 | a value in quotes, with every such quote in it followed by a double quote, is read as the value, and reading stops behind the closing quote |
| `Cdl.UnclosedQuote` | src/main/java/org/json/CDL.java:66-84 | if the line ends before the closing quote, that is an error |
| `Cdl.BlanksSkipped` | src/main/java/org/json/CDL.java:59-61 | blanks before a value do not matter |
| `Cdl.SeparatorIs` | src/main/java/org/json/CDL.java:109-122 | after a value: spaces and then a comma, the end of the line, or an error |
| `Cdl.PrintedCell` | src/main/java/org/json/CDL.java:149-177 | a value is printed as it is unless it holds a comma, a line end or a NUL or starts with a quote; then in quotes |
| `Cdl.SurvivorsCount` | src/main/java/org/json/CDL.java:149-177 | of a quoted value exactly the quotes and the characters below the space are dropped |
| `Cdl.TableRoundTripIff` | src/main/java/org/json/CDL.java:55-239 | reading a printed table gives its rows and then null if and only if every row is clean, not empty and not a single empty string |
| `Cookies.Escape` | src/main/java/org/json/Cookie.java:47-63 | the loop trims and then escapes character by character |
| `Cookies.Unescape` | src/main/java/org/json/Cookie.java:150-168 | the loop decodes `+` and complete `%hh` groups from left to right and leaves everything else alone |
| `Cookies.EscapeRoundTrip` | src/main/java/org/json/Cookie.java:47-168 | unescape(escape(s)) is trim(s) for every string, and s itself exactly if it is trimmed |
| `Cookies.EscapeSafe` | src/main/java/org/json/Cookie.java:47-63 | escaped text holds no separator, plus or control character and stays trimmed |
| `Cookies.EscapeCharIs` | src/main/java/org/json/Cookie.java:47-63 | which characters become a percent sign and two lower-case digits; all others stay |
| `Cookies.PlusIsSpace` | src/main/java/org/json/Cookie.java:150-168 | a plus is a space wherever it stands |
| `Cookies.GroupIsOne` | src/main/java/org/json/Cookie.java:150-168 | a percent sign and two digits of either case are one character |
| `Cookies.OthersStay` | src/main/java/org/json/Cookie.java:150-168 | a percent sign without two digits and every other character stay |
| `Cookies.MissingEquals` | src/main/java/org/json/CookieList.java:49-60 | text that goes on without an equals sign is an error |
| `Cookies.ToText` | src/main/java/org/json/CookieList.java:70-88 | entries in iteration order, nulls left out, joined by semicolons |
| `Cookies.ToJSONObject` | src/main/java/org/json/CookieList.java:49-60 | the parsing loop over the tokener, NULs in the text included |
| `Cookies.ListReads` | src/main/java/org/json/CookieList.java:49-88 | parsing any printed list puts its trimmed entries one after the other |
| `Cookies.CookieListRoundTrip` | src/main/java/org/json/CookieList.java:49-88 | parsing the printed form of any object always succeeds and gives the object trimmed if and only if names that trimming makes equal have values that it makes equal |
| `Cookies.OrderDoesNotMatter` | src/main/java/org/json/CookieList.java:49-88 | and then the order in which the keys were printed makes no difference |
| `Pointer.EscapeIsCoded` | src/main/java/org/json/JSONPointer.java:244-249 | the four chained replacements code every character by itself |
| `Pointer.UnescapeIsOnePass` | src/main/java/org/json/JSONPointer.java:167-171 | the four chained replacements are one left-to-right pass over the four pairs, on every string (so "~01" gives "~1", as section 4 of RFC 6901 asks) |
| `Pointer.UnescapeEscape` | src/main/java/org/json/JSONPointer.java:167-249 | unescape(escape(t)) == t for every token |
| `Pointer.EscapeUnescapeIff` | src/main/java/org/json/JSONPointer.java:167-249 | the other way round: exactly the texts in which every special character is part of a pair come back |
| `Pointer.ParsePointer` | src/main/java/org/json/JSONPointer.java:137-161 | the constructor: empty text, "/" form, "#/" form and refusal, tokens unescaped in a loop |
| `Pointer.ParseForms` | src/main/java/org/json/JSONPointer.java:137-161 | exactly which texts are refused, and that the "#/" form is the "/" form on the decoded text |
| `Pointer.PrintPointer` | src/main/java/org/json/JSONPointer.java:228-234 | the loop of `toString` |
| `Pointer.PointerReads` | src/main/java/org/json/JSONPointer.java:137-234 | parsing a printed pointer loses exactly the trailing empty tokens, and not even those if there is only one token |
| `Pointer.PointerRoundTripIff` | src/main/java/org/json/JSONPointer.java:137-234 | parse(toString(ts)) == ts if and only if ts is empty, is [""] or ends in a non-empty token |
| `Template.Scanner.Scan` | src/main/config/var/html/mustache.js:287-299 | moves past a match at the front and returns it, else nothing |
| `Template.Scanner.ScanUntil` | src/main/config/var/html/mustache.js:305-324 | moves to the leftmost match, or to the end, and returns what was skipped |
| `Template.ScanTag` | src/main/config/var/html/mustache.js:153-175 | symbol, value and closing of a tag, in the three forms of value, or where the closing is missing |
| `Template.TokensTile` | src/main/config/var/html/mustache.js:122-176 | before stripping, the tokens of a template tile it if the opening tag is not empty: no gap, no overlap, one text token per character |
| `TemplateSyntax.TokensSay` | src/main/config/var/html/mustache.js:126-176 | every tag token is spelled out in the template with the delimiters in force there: opening, spaces, symbol, spaces, value, spaces and closing, with the forms of "=" and "{"; the kind is the symbol, the value has no spaces around it and holds nothing that ends it; and no text character starts a tag |
| `TemplateSyntax.TwoWords` | src/main/config/var/html/mustache.js:105-115 | the delimiters that a tag sets are its first two words |
| `TemplateSyntax.OneWord` | src/main/config/var/html/mustache.js:105-110 | a single word sets none and is an error |
| `TemplateSyntax.ErrorsHavePlaces` | src/main/config/var/html/mustache.js:172-201 | every error has its place: up to there the tokens tile the template and are spelled out, and there is the unclosed opening, the misfitting tag or the end that the error names |
| `TemplateSyntax.UnclosedMeans` | src/main/config/var/html/mustache.js:158-173 | a tag is unclosed only if what has to follow its value does not occur in the rest of the template |
| `Template.EmptyOpeningDropsText` | src/main/config/var/html/mustache.js:147-149 | without that condition it fails: with an empty opening tag, any template that does not start with a space yields no tokens and no error |
| `Template.TokensBalanced` | src/main/config/var/html/mustache.js:178-201 | tokens that pass the section check close every section they open, each by its own name |
| `Standalone.Buffer.PushLetter` | src/main/config/var/html/mustache.js:129-144 | keeps the parser's flags and indices true of the current line, and at a newline deletes what the definition of a standalone line says |
| `Standalone.Buffer.StripSpace` | src/main/config/var/html/mustache.js:92-102 | at the end of a line exactly its whitespace goes if it holds a tag and nothing solid, else nothing goes |
| `Standalone.StrippedOnLine` | src/main/config/var/html/mustache.js:92-102 | on a line, whitespace is stripped if and only if the line is standalone |
| `Standalone.AloneIff` | src/main/config/var/html/mustache.js:92-102 | a line is standalone if and only if it holds single whitespace characters and section, partial, delimiter or comment tags only, and at least one of these |
| `TemplateSyntax.KindsKnown` | src/main/config/var/html/mustache.js:153-175 | no other kinds of tags occur |
| `Standalone.SurvivorsContiguous` | src/main/config/var/html/mustache.js:92-144 | nothing is stripped from between two surviving characters without a tag between them |
| `Standalone.LastLineStays` | src/main/config/var/html/mustache.js:141-144 | a last line without newline is never stripped |
| `Squashing.SquashTokens` | src/main/config/var/html/mustache.js:210-229 | the in-place merging loop computes the squashed tokens |
| `Squashing.SquashSeparates` | src/main/config/var/html/mustache.js:210-229 | no two text tokens are next to each other |
| `Squashing.SquashKeepsUnits` | src/main/config/var/html/mustache.js:210-229 | the characters between consecutive tags, and the tags, are what they were |
| `Squashing.SquashKeepsStack` | src/main/config/var/html/mustache.js:210-229 | sections are not affected |
| `Squashing.CleanedCovers` | src/main/config/var/html/mustache.js:80-229 | after stripping and squashing every text token holds exactly the template from its start to its end, and between tokens only whitespace is missing |
| `Nesting.NeverPopsEmpty` | src/main/config/var/html/mustache.js:237-262 | on tokens that passed the section check the nesting never pops an empty stack, and pops the section of that name |
| `Nesting.NestTokens` | src/main/config/var/html/mustache.js:237-264 | every token lands in the list of exactly the innermost section open at it, in order, and every section gets the position of its own close tag |
| `Nesting.NestedExactly` | src/main/config/var/html/mustache.js:237-264 | the tokens nested in a section at any depth are exactly those up to its close tag |
| `Nesting.SectionSpan` | src/main/config/var/html/mustache.js:237-264 | every section is closed exactly once, by a tag of its name, and its tokens cover exactly the source between the two tags |
| `Mustache.Round` | src/main/config/var/html/mustache.js:122-195 | one round of the loop, text and tag, takes the scanner and the tokens from one point of the template to the next, or to the error |
| `Mustache.ParseTemplate` | src/main/config/var/html/mustache.js:80-204 | the whole parser: an error exactly when, and as, the tokens of the template say; otherwise the stripped, squashed and nested tokens |
| `Mustache.SourceKept` | src/main/config/var/html/mustache.js:80-264 | for every template that parses: tiling before, covering up to whitespace after, no adjacent texts, the same characters between tags, balanced sections |
| `Mustache.SectionsExact` | src/main/config/var/html/mustache.js:80-264 | every section [token[3], token[5]) of the result is exactly the source of the tokens nested in it |

## Left out

- DOM, CSS, animation, ajax, events, selector regular expressions and `setMatcher`: browser objects and engines whose behaviour is not in this repository.
- The `sourceIndex` branch of `siblingCheck` and the `uniqueID` level of the caches: only for old versions of Internet Explorer. A cache slot is keyed by node and key.
- Of `CHILD`, the uncached branch for `:first-child` and `:last-child`, the `-of-type` forms and XML documents.
- The sort engine behind `results.sort`: `DocumentOrder.Sizzle.Sort` inserts element by element; any sort that is given the proved total order gives the same list. `sortStable` and `detectDuplicates` are taken as the browser reports them.
- `then` and `pipe`: their handlers appear as callbacks of the six lists, their own bodies (nested Deferreds and timers) do not. Callbacks that throw are not modelled.
- `when` with fewer than two arguments, and arguments that are thenables other than Deferreds.
- `Kim.Kim.FromBytes`: a range outside the array is required away; the original throws on it.
- `Kim.get` at the position right behind the last byte passes its own test and misses the array; the model returns the error.
- JSONWriter: a key or scalar is one token; its quoting is `JSONObject.quote`, which is not part of this model. Exceptions of the underlying writer are not modelled.
- JSONTokener: the `line` and `character` counters, `skipTo`, `nextString`, `nextValue` and readers that fail.
- CDL: values are strings (an array element that is null prints as nothing), and rows are not turned into objects.
- CookieList: values are strings or null; a value of another type makes the original throw.
- Strings are sequences of Dafny characters, so lone surrogates occur only in `Kim`, which works on 16-bit units. Java's limit on lengths is not modelled.
- `Pointer.ParsePointer`: `URLDecoder.decode` is a parameter. `queryFrom` and `toURIFragment` are not modelled.
- mustache's regular expressions: the tags stand for themselves (`escapeRegExp` is taken to do its job), `\s` is spelled out, matching looks only ahead.
- `Template.TokensTile`: needs an opening tag that is not empty. With an empty one the original breaks off at the first round whose text does not start with a space, and the rest of the template is dropped. Tags set inside a template are never empty.
- `Nesting.NestTokens`: token objects live in a sequence and refer to each other by index, in place of references between arrays.
- The template cache, partials, lambdas and rendering of mustache.
- `HTTP`, `HTTPTokener`, `JSONML`, `XML` and the plain accessors of `org.json`: they would only add easy members.
