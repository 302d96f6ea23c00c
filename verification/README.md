# Verified models of jQuery 1.7.2 and Underscore 1.4.3

The manager web application ships with jQuery 1.7.2 (with its selector engine Sizzle) and Underscore 1.4.3. The
repository's own classes only delegate; what is hard in it is in these two libraries. This project models their most
intricate parts in Dafny and proves what their documentation promises of them, or, where that is false, exactly when
it holds. `dafny verify dfyconfig.toml` checks everything.

## What is modelled

- **Callback lists** (`CallbackMachine`, `RegistrationLists`, `CallbackPasses`, `RepeatableLists`, `ClosedLists`,
  `OnceMemory`, `CallbackList`).
  A running callback may add, remove, fire, lock or disable the list that is calling it. `CallbackMachine` has one step
  for each thing the environment can do, the return of the running callback included, so a run is any behaviour of any
  callbacks, cut off anywhere. The class `CallbackList` has the eight variables of the source and really recurses into
  scripted callbacks; `Play` shows it to be the machine. Ghost ids name registrations.
- **Deferred, when and ajax** (`Deferred`, `DeferredRuns`, `ProgressRuns`, `WhenJoin`, `WhenMaster`,
  `WhenNotifications`, `AjaxLifeCycle`). Three such lists wired together settle once; a counting join over many of
  them; and a global counter over interleaved requests.
- **Selectors** (`Dom`, `Selectors`, `SelectorLists`, `SelectorLimits`, `SelectorEngine`, `DocumentOrder`,
  `NthFormula`, `NthChild`).
  A document is a finite tree whose nodes are numbered in document order; a compound selector is any test on nodes.
  The meaning of a chain of combinators is set against the right-to-left evaluation without backtracking, and that
  against the code that overwrites `checkSet` and memoises on marked nodes.
- **Events** (`Namespaces`, `EventHandlers`, `EventDispatch`, `EventElement`). The handler list in two segments, the
  dispatch over a snapshot of it, and the regular expression on sorted names, with its operators given their meaning by
  section 15.10 of ECMAScript 5.1.
- **Underscore** (`ObjectGraph`, `DeepEquality`, `DeepComparer`, `HtmlEscape`, `TemplateText`, `TemplateProgram`,
  `Templates`, `TemplateMeaning`, `Timing`, `Limiters`, `Shuffling`). Deep comparison of cyclic graphs, escaping, the
  template compiler together with an evaluator for the programs it writes, throttle and debounce as timed machines, and
  shuffling.

Code that changes variables step by step is a class or a method with loops; its contract ties it to a function on
values, and the theorems are about that function. I/O, clocks, timers, random numbers and user callbacks are
parameters: scripts, delays, reactions, or arbitrary functions.

## Where the code does not do what it promises

Each of these is a lemma with a concrete input, beside the exact condition under which the code is right:

- `a > b c` and other sequences with an incompatible pair can lose matches (`PairLosesMatch`, `ExactlyTheMonotone`).
- A candidate that comes to the document at an operand of `>`, with another `>` to its left, takes the candidates behind
  it out of the results, or makes the query throw (`MatchIsLost`, `NameOfNoParent`, `SelectionIsRight`,
  `RightForAllCandidates`).
- A request aborted from a transport factory, from an ajaxSend handler, or, without a beforeSend option, from an
  ajaxStart handler is finished a second time (`AbortedWhileStarting`, `SentAfterDone`, `SendIsSafe`).
- Progress callbacks of `when` can see notifications that were not delivered yet, or never are (`LateCallbackSees`,
  `NestedNoteOverwrites`, `ShownToCallbacks`).
- A delegated handler whose selector is a name that objects inherit is called for every element on the way up
  (`UnselectedIsCalled`, `MemoIsRight`).
- `isEqual` answers false on cycles of different lengths (`CyclesOfTwoLengths`, `EqualExactly`), true on some hidden
  properties (`HiddenKey`), and true for zero against a tiny number (`ZeroTakenForTiny`). Own properties that are named
  `constructor` make it answer false on equal objects, or true on objects of different constructors
  (`OwnConstructorIsCompared`, `MaskedConstructor`).
- A template goes wrong for data with values named `__p`, `_` or `__t` (`NothingReturned`, `HiddenEscape`,
  `StaleValue`, `CompiledExactly`, `RightForAllTexts`).

## Model

| member | source | states |
|---|---|---|
| `CallbackPasses.RunInv` | manager/webapp/components/jquery/jquery.js:1045-1197 | Over every run of add, remove, fireWith, lock, disable and callback returns, from anywhere inside or outside callbacks: while firing `firingLength` is the length of the list, `firingIndex >= -1`, and what the current pass still owes is the list from `firingIndex + 1` on; memory, stack and the finished passes agree |
| `CallbackPasses.PassesExact` | manager/webapp/components/jquery/jquery.js:1066-1093 | Each pass of `fire` calls a prefix of the calls due (one for each registration present at the start or added during the pass and not removed before its turn, in order), a completed one exactly those; only the newest pass can be running; a pass ends early only on a false return of a stopOnFalse list, or for a disabled list |
| `CallbackPasses.ExactlyOnce` | manager/webapp/components/jquery/jquery.js:1074-1079 | In every completed pass, of whatever list, a registration is called once if it was present at the start or added and not removed before its turn, and no time otherwise; in any pass at most once; on a list that is neither disabled nor stops on false all passes but the running one are completed |
| `CallbackPasses.NestedFiresInOrder` | manager/webapp/components/jquery/jquery.js:1186-1197 | Nested fires are first in, first out: passes started by fireWith carry the accepted values in order, and at rest, neither locked nor disabled, all of them have run |
| `CallbackPasses.AddInv` | manager/webapp/components/jquery/jquery.js:1097-1114 | `add` keeps the invariant: into the running pass, or with memory by a new pass over just what was added |
| `CallbackPasses.RemoveInv` | manager/webapp/components/jquery/jquery.js:1116-1145 | `remove` keeps it: the running pass goes on with what is left and skips nothing |
| `CallbackPasses.FireInv` | manager/webapp/components/jquery/jquery.js:1186-1197 | `fireWith` keeps it: at once, queued, or ignored |
| `CallbackPasses.ReturnInv` | manager/webapp/components/jquery/jquery.js:1074-1093 | The return of a callback, and everything after the loop up to the next callback, keeps it |
| `OnceMemory.SingleAssignment` | manager/webapp/components/jquery/jquery.js:1066-1114 | A list with once and memory: over every run the calls are those of the registrations not withdrawn before their turn, in registration order, all with the value of the first fireWith; at rest after a fire they are all of them |
| `OnceMemory.CalledAtMostOnce` | manager/webapp/components/jquery/jquery.js:1066-1114 | Over a whole run every registration of such a list is called at most once |
| `OnceMemory.FirstFireWins` | manager/webapp/components/jquery/jquery.js:1186-1197 | The value such a list settles on is that of the first fireWith made before any lock or disable; later ones are ignored |
| `RepeatableLists.NoFireLost` | manager/webapp/components/jquery/jquery.js:1082-1090 | Of every run of a list without once: the fires before the first lock or disable are accepted and no other, the passes started by fires are theirs, in order, and all of them if the list was at rest by then; until then the list is what adding and removing have made of it |
| `RepeatableLists.FireStarts` | manager/webapp/components/jquery/jquery.js:1186-1197 | A fire at rest begins a pass over the whole list that adding and removing have made, its first callback called |
| `RepeatableLists.AddReplays` | manager/webapp/components/jquery/jquery.js:1105-1111 | With memory, adding at rest begins a pass over just what was added, with the last value |
| `RegistrationLists.FreshMembers` | manager/webapp/components/jquery/jquery.js:1051-1063 | After adding, unique or not, a function is in the list iff it was there or is among those added |
| `ClosedLists.DisableIsForGood` | manager/webapp/components/jquery/jquery.js:1155-1159 | After disable, called from anywhere, no callback is called, registered or given a value any more, whatever follows |
| `ClosedLists.LockIsForGood` | manager/webapp/components/jquery/jquery.js:1164-1171 | After lock no fire is accepted any more; a list without memory, not fired yet, or stopped by a callback is closed for good, and any other keeps its callbacks and its last value for those added later |
| `ClosedLists.FalseStops` | manager/webapp/components/jquery/jquery.js:1074-1079 | On a stopOnFalse list a callback that returns false ends its pass, which makes no call more; unless another pass has begun, nothing is remembered for callbacks added later |
| `ClosedLists.FalseIsIgnored` | manager/webapp/components/jquery/jquery.js:1074-1079 | On any other list it makes no difference what a callback returns |
| `CallbackObject.CallbackList.constructor` | manager/webapp/components/jquery/jquery.js:1022-1043 | A new list is the initial machine state |
| `CallbackObject.CallbackList.AddItem` | manager/webapp/components/jquery/jquery.js:1051-1063 | The recursive inner `add`: arrays are gone into, functions pushed unless the list is unique and has them |
| `CallbackObject.CallbackList.AddAll` | manager/webapp/components/jquery/jquery.js:1045-1064 | The loop over the arguments pushes what the specification appends |
| `CallbackObject.CallbackList.RemoveOccurrences` | manager/webapp/components/jquery/jquery.js:1122-1142 | The splicing loop with `i--`, moving `firingLength` and `firingIndex`, removes exactly the occurrences of one function, and counts those up to `firingIndex` |
| `CallbackObject.CallbackList.Remove` | manager/webapp/components/jquery/jquery.js:1116-1145 | The loop over the arguments of `remove` |
| `CallbackObject.CallbackList.Add` | manager/webapp/components/jquery/jquery.js:1097-1114 | `self.add`, with the replay that memory asks for |
| `CallbackObject.CallbackList.FireWith` | manager/webapp/components/jquery/jquery.js:1186-1197 | `self.fireWith` with its guards and queue |
| `CallbackObject.CallbackList.Fire` | manager/webapp/components/jquery/jquery.js:1066-1093 | The inner `fire`: set-up, loop, and what follows the loop |
| `CallbackObject.CallbackList.Loop` | manager/webapp/components/jquery/jquery.js:1074-1079 | The loop runs real callbacks that re-enter the same object, and is the machine's steps between returns |
| `CallbackObject.CallbackList.Leave` | manager/webapp/components/jquery/jquery.js:1080-1092 | What happens after the loop: pending fires, disable, or an emptied list |
| `CallbackObject.CallbackList.RunCallback` | manager/webapp/components/jquery/jquery.js:1075-1075 | A callback plays any further actions on the list that is calling it, then returns |
| `CallbackObject.CallbackList.Play` | manager/webapp/components/jquery/jquery.js:1034-1210 | The object with its eight variables, driven by any script of actions, ends in the state of the machine's run of that script |
| `DeferredRuns.SettlesOnce` | manager/webapp/components/jquery/jquery.js:1220-1311 | Over every run of resolve, reject, notify, registrations and returns, nested or not: the state is decided by the first resolve or reject and never changes; only the winner's callbacks run, in registration order with the settling value, and at rest all of them have run |
| `DeferredRuns.CallsWhatUsersRegister` | manager/webapp/components/jquery/jquery.js:1226-1302 | Over every run that settles: the functions called on the settling side, with the settling value, are the constructor's three and then, in order, those that done or fail registered there in the course of the run, before or after settling; whenever no callback is running, all of them |
| `DeferredRuns.NoNotifyAfterSettling` | manager/webapp/components/jquery/jquery.js:1298-1302 | After settling nothing later changes the state, the settling value, or what progress callbacks are notified of |
| `DeferredRuns.LateProgress` | manager/webapp/components/jquery/jquery.js:1298-1302 | A progress callback added after settling gets the last value notified, or nothing if there was none |
| `DeferredRuns.MoveInv` | manager/webapp/components/jquery/jquery.js:1292-1302 | What every move keeps about the three lists together, through the three built-in callbacks that set the state, disable the other list and lock progress; what it registers on done and fail, and what it makes of the progress list |
| `DeferredRuns.SettlesByFirst` | manager/webapp/components/jquery/jquery.js:1292-1302 | The first settling move of a run decides, whatever comes before and after it |
| `ProgressRuns.ProgressIsRun` | manager/webapp/components/jquery/jquery.js:1220-1311 | Whatever happens to a Deferred, its progress list goes through a run of a callback list of its own |
| `ProgressRuns.DeliveredIsNotified` | manager/webapp/components/jquery/jquery.js:1220-1311 | What progress callbacks are notified of are the first notifications before the settling, in order; a pass started by adding repeats the last one |
| `WhenJoin.JoinIsCorrect` | manager/webapp/components/jquery/jquery.js:1314-1354 | For two or more arguments, plain or deferred, settled before or after the call in any order: the counter is the number of arguments not accounted for; the master is rejected with the first rejection's arguments, else resolved with the values in argument order when all are accounted for, else pending; a second resolveWith says the same as the first; a slot holds the one value, an array of several, or nothing; and notifyWith is called once for each notification with the last values of all inputs by then |
| `WhenJoin.JoinOutcome` | manager/webapp/components/jquery/jquery.js:1314-1354 | The same in terms of the arguments and what happens to them later: rejected by the first argument in order that is rejected already, or else the first one rejected later; resolved iff every argument is plain, resolved already or resolved later, each slot showing what that argument supplies |
| `WhenJoin.HistoryTells` | manager/webapp/components/jquery/jquery.js:1337-1348 | What the join is told of: what `then` finds in each argument, the end of the loop, and what happens later, and nothing else |
| `WhenJoin.HistoryWellFormed` | manager/webapp/components/jquery/jquery.js:1337-1348 | Every possible history of a join has each argument settle once and the test after the loop come once |
| `WhenJoin.CountsAll` | manager/webapp/components/jquery/jquery.js:1318-1330 | The counter is the number of arguments less those accounted for, after every event |
| `WhenMaster.MasterFollowsJoin` | manager/webapp/components/jquery/jquery.js:1321-1354 | The join on top of a Deferred: it resolves iff no input rejects and all are accounted for, its done callbacks then get the values; it rejects iff some input rejects, its fail callbacks then get the first rejection's arguments |
| `WhenNotifications.ShownToCallbacks` | manager/webapp/components/jquery/jquery.js:1331-1336 | `pValues` is handed out by reference. At any time the newest pass of the master's progress callbacks is for some notifying call of the join, and the array its callbacks are handed holds what was delivered by that call iff no input has notified of anything else since |
| `WhenNotifications.LateCallbackSees` | manager/webapp/components/jquery/jquery.js:1331-1336 | A progress callback added after the master was settled is in a pass for the last call delivered, or not called if there was none; the array it is handed holds what was delivered iff no input has notified of anything else since |
| `WhenNotifications.NestedNoteOverwrites` | manager/webapp/components/jquery/jquery.js:1331-1336 | If a progress callback has an input notify, the next callback of the same pass is called for the same call, with the array that the notification has overwritten |
| `WhenNotifications.RememberedArrayCanChange` | manager/webapp/components/jquery/jquery.js:1331-1336 | A concrete run in which a late callback is called for a delivered notification with an array that holds a later one, which was not delivered |
| `WhenMaster.When.constructor` | manager/webapp/components/jquery/jquery.js:1314-1348 | The call of `when` |
| `WhenMaster.When.Attach` | manager/webapp/components/jquery/jquery.js:1337-1348 | The loop over the arguments and the test after it give the specified history |
| `WhenMaster.When.Then` | manager/webapp/components/jquery/jquery.js:1338-1343 | What `then` makes happen at once for one argument |
| `WhenMaster.When.ResolveFunc` | manager/webapp/components/jquery/jquery.js:1323-1330 | An input resolves: its slot is written, the counter goes down, and at zero the master is resolved |
| `WhenMaster.When.RejectFunc` | manager/webapp/components/jquery/jquery.js:1340-1340 | An input rejects: so does the master |
| `WhenMaster.When.ProgressFunc` | manager/webapp/components/jquery/jquery.js:1331-1336 | An input notifies: its slot is overwritten and the whole array handed on |
| `AjaxLifeCycle.LifeCycle` | manager/webapp/components/jquery/jquery.js:7454-7562 | Over every interleaving of any number of requests in which none that is done already is sent: `done` takes effect at most once per request, `jQuery.active` is the number of announced unfinished requests, and ajaxStart and ajaxStop alternate, on 0 to 1 and 1 to 0 |
| `AjaxLifeCycle.CleanExactly` | manager/webapp/components/jquery/jquery.js:7717-7719 | The runs in which none is sent that is done already are exactly those after which no request has been set back from done to sent |
| `AjaxLifeCycle.CounterInGeneral` | manager/webapp/components/jquery/jquery.js:7454-7562 | Without that condition the counter is off by exactly the surplus ends of `done`, of which a request has at most one |
| `AjaxLifeCycle.SendIsSafe` | manager/webapp/components/jquery/jquery.js:7717-7719 | The condition is exact: a request about to be sent has one `done` body whatever happens iff its state is not 2 when `state = 1` is executed |
| `AjaxLifeCycle.AbortedWhileSending` | manager/webapp/components/jquery/jquery.js:7705-7719 | An abort from an ajaxSend handler brings a request to that point |
| `AjaxLifeCycle.AbortedWhileStarting` | manager/webapp/components/jquery/jquery.js:7627-7691 | So does an abort from an ajaxStart handler, if the request has no beforeSend option, since only with that option its state is looked at |
| `AjaxLifeCycle.SentAfterDone` | manager/webapp/components/jquery/jquery.js:7717-7719 | Then `done` runs twice, the counter goes to -1, and the next request is announced without ajaxStart |
| `AjaxLifeCycle.RefusedIsOver` | manager/webapp/components/jquery/jquery.js:7609-7703 | In every run: a request aborted in a prefilter, refused by its beforeSend or aborted before that has returned, or left without a transport is over from then on, with one body of `done`, and once that has ended it is not counted as active |
| `AjaxLifeCycle.RefusedExactly` | manager/webapp/components/jquery/jquery.js:7609-7719 | At these three points the request can still be sent iff none of this is so |
| `AjaxLifeCycle.AnnouncedCounts` | manager/webapp/components/jquery/jquery.js:7623-7629 | A request counts as active, from its announcement on and over the whole run, iff its own `global` option says so and it was not aborted before |
| `AjaxLifeCycle.Ajax.AnnounceRequest` | manager/webapp/components/jquery/jquery.js:7609-7629 | After the prefilters: stop if aborted, else count and maybe signal |
| `AjaxLifeCycle.Ajax.BeforeSendReturned` | manager/webapp/components/jquery/jquery.js:7685-7691 | With a beforeSend option refused or aborted requests are done at once; without it nothing is asked |
| `AjaxLifeCycle.Ajax.TransportChosen` | manager/webapp/components/jquery/jquery.js:7698-7703 | No transport: done |
| `AjaxLifeCycle.Ajax.SendRequest` | manager/webapp/components/jquery/jquery.js:7717-7719 | `state = 1`, whatever it was |
| `AjaxLifeCycle.Ajax.EnterDone` | manager/webapp/components/jquery/jquery.js:7454-7462 | The guard and the state change of `done` |
| `AjaxLifeCycle.Ajax.EndDone` | manager/webapp/components/jquery/jquery.js:7555-7561 | The counter and ajaxStop |
| `Selectors.Sound` | manager/webapp/components/jquery/jquery.js:4037-4100 | For any chain of the four combinators, every candidate whose entry, evaluated by itself from right to left, is accepted at the end matches the chain; operands of > are put to the document node too, and entries may become null |
| `Selectors.Complete` | manager/webapp/components/jquery/jquery.js:4053-4068 | For chains without an incompatible pair the entry of every element that matches, evaluated by itself, is accepted: taking the nearest ancestor or sibling loses nothing |
| `Selectors.NearestIsFirst` | manager/webapp/components/jquery/jquery.js:5260-5332 | The node a walk stops at satisfies the part, and every other node on the way that does lies beyond it |
| `SelectorLimits.ExactlyTheMonotone` | manager/webapp/components/jquery/jquery.js:4037-4100 | A sequence of combinators returns exactly the candidates that match, in any document, for any compound selectors and any candidates of which none strays to the document, if and only if it has no incompatible adjacent pair; descendant-only chains and chains of > and + have none |
| `SelectorLists.SelectedMatch` | manager/webapp/components/jquery/jquery.js:4037-4100 | For any chain and any list of candidates: what is returned matches, and is among the candidates |
| `SelectorLists.SelectionIsRight` | manager/webapp/components/jquery/jquery.js:4037-4100 | For chains without an incompatible pair and any list of candidates: the results are the candidates that match, all of them and in order, iff nothing is thrown and no candidate that matches comes after one that strays, that is, comes to the document at a > operand that accepts it and has another > to its left |
| `SelectorLists.RightForAllCandidates` | manager/webapp/components/jquery/jquery.js:4037-4100 | If such a chain matches some element of the document, then its results are right for every list of candidates iff no element strays |
| `SelectorLists.RightUnlessStray` | manager/webapp/components/jquery/jquery.js:4037-4100 | Where no candidate strays nothing is thrown and the results of such a chain are right |
| `SelectorLists.WardedOff` | manager/webapp/components/jquery/jquery.js:4363-4397 | Nothing strays if no > operand with another > to its left accepts the document node |
| `SelectorLists.EvaluateAsAlone` | manager/webapp/components/jquery/jquery.js:4053-4068 | If nothing is thrown, the entries up to the first null are what the candidates give by themselves, although the filtering loops leave the entries after it unfiltered |
| `SelectorLists.MatchIsLost` | manager/webapp/components/jquery/jquery.js:4213-4229 | `* > :has(p) > *` on a document, html, body and p returns nothing, although the p matches |
| `SelectorLists.NameOfNoParent` | manager/webapp/components/jquery/jquery.js:4373-4380 | `div > :has(p) > *` throws there, since the name of the parent of the document is asked for |
| `SelectorLists.UnfilteredThrows` | manager/webapp/components/jquery/jquery.js:4213-4229 | `div > .a > :has(p) > *` throws too, though the document is not of class a: entries after a null are not filtered |
| `SelectorLimits.PairLosesMatch` | manager/webapp/components/jquery/jquery.js:4053-4068 | For every sequence with an incompatible pair a document and a chain in which an element that matches is lost, such as `a > b c` |
| `SelectorEngine.OutcomeIsRel` | manager/webapp/components/jquery/jquery.js:5260-5332 | An unmemoised walk along parentNode or previousSibling gives the nearest node that satisfies the part |
| `SelectorEngine.Engine.Filter` | manager/webapp/components/jquery/jquery.js:4399-4425 | The answer is that of the test, on any node, the document included; a nested query made by it uses names of its own, so it can only take marks of the running query away |
| `SelectorEngine.Engine.Walk` | manager/webapp/components/jquery/jquery.js:5293-5332 | One iteration of dirCheck or dirNodeCheck, marks included, leaves in the entry what an unmarked walk comes to |
| `SelectorEngine.Engine.WalkAll` | manager/webapp/components/jquery/jquery.js:5260-5332 | The memoised walks over all of checkSet, in place, equal the simple ones, whatever marks earlier and nested queries left |
| `SelectorEngine.Engine.FilterInPlace` | manager/webapp/components/jquery/jquery.js:4213-4229 | Filtering in place: the entries before the first null are tested, those after it stay |
| `SelectorEngine.Engine.StepAll` | manager/webapp/components/jquery/jquery.js:4339-4397 | The functions for + and >: the loop fails iff the name of a parent that is not there is asked for, and otherwise checkSet is what the moves and the filtering up to the first null make of it |
| `SelectorEngine.Engine.Select` | manager/webapp/components/jquery/jquery.js:4046-4100 | The main loop from the last part to the first, and the pruning, return what the specified evaluation of the whole list gives, or throw where it does |
| `SelectorEngine.Engine.Prune` | manager/webapp/components/jquery/jquery.js:4087-4100 | The pruning loop, which ends at the first null, keeps the candidates whose entries are accepted |
| `DocumentOrder.Sorter.SiblingCheck` | manager/webapp/components/jquery/jquery.js:4974-4990 | Following nextSibling decides the order of two siblings |
| `DocumentOrder.Sorter.SortOrder` | manager/webapp/components/jquery/jquery.js:4914-4972 | The comparison of ancestor paths is -1 iff the first node precedes the second in document order, 1 iff it follows, 0 iff they are the same, and notes duplicates |
| `DocumentOrder.ChainsPart` | manager/webapp/components/jquery/jquery.js:4961-4971 | Where two ancestor paths part they part at siblings, and the order of these is that of the nodes |
| `DocumentOrder.SubtreeIsInterval` | manager/webapp/components/jquery/jquery.js:4974-4990 | The nodes of a subtree are consecutive in document order |
| `DocumentOrder.NumberingIsPreOrder` | manager/webapp/components/jquery/jquery.js:4914-4972 | The numbers that stand for document order are the order of a traversal by first children and next siblings, so the comparison is pre-order |
| `DocumentOrder.UniqueSort` | manager/webapp/components/jquery/jquery.js:4114-4129 | After any native sort with that comparison the adjacent removal leaves a strictly increasing sequence with the same elements |
| `NthFormula.NthChildIsRight` | manager/webapp/components/jquery/jquery.js:4491-4507 | For every accepted formula text and every index, parsing and test answer true iff the index is a*n + b for some n >= 0, with a and b as the text says; zero and negative a included |
| `NthFormula.TestIsMeaning` | manager/webapp/components/jquery/jquery.js:4746-4776 | The test with % and / that truncate is that meaning, for all numbers a and b |
| `NthFormula.ParseLinear` | manager/webapp/components/jquery/jquery.js:4497-4506 | A linear formula with its optional sign, coefficient, blanks and offset parses to its two numbers |
| `NthFormula.WrittenFormula` | manager/webapp/components/jquery/jquery.js:4497-4506 | The formula written with the decimal numerals of a and b, with or without a minus sign, means a and b |
| `NthFormula.ParseNegative` | manager/webapp/components/jquery/jquery.js:4499-4506 | A negative integer parses to a constant that is not a number, which no index equals |
| `NthChild.Filter.NumberChildren` | manager/webapp/components/jquery/jquery.js:4757-4767 | Numbering gives every element child its index among the element children |
| `NthChild.IndexIsCardinality` | manager/webapp/components/jquery/jquery.js:4757-4767 | That index is the number of elements among the node and its earlier siblings |
| `NthChild.Filter.OtherQuery` | manager/webapp/components/jquery/jquery.js:4512-4513 | Other queries on the unchanged document, under fresh names, leave the numbers of this one right |
| `NthChild.Filter.Passes` | manager/webapp/components/jquery/jquery.js:4746-4776 | The answer with cached numbers is the answer with a fresh count |
| `NthChild.NthChild` | manager/webapp/components/jquery/jquery.js:4746-4776 | Text, parsing, cache and test together: an element passes iff its index is a*n + b for some n >= 0 |
| `Namespaces.PatternIsInclusion` | manager/webapp/components/jquery/jquery.js:3126-3151 | For plain event namespaces the expression made of them, sorted, is found in the handler's sorted and joined ones iff they are contained in them, with multiplicity |
| `Namespaces.PatternIsSubsequence` | manager/webapp/components/jquery/jquery.js:3059-3059 | The expression, by the meaning of its operators, finds exactly lists of which its names are a subsequence, as whole names |
| `Namespaces.IncludedIsSubsequence` | manager/webapp/components/jquery/jquery.js:3059-3059 | Of two sorted lists, inclusion with multiplicity is being a subsequence |
| `Namespaces.UnsortedMisses` | manager/webapp/components/jquery/jquery.js:2955-2955 | Without sorting the expression would miss contained namespaces |
| `EventHandlers.RegisteredExactly` | manager/webapp/components/jquery/jquery.js:2999-3009 | After every run of adding and removing the list holds exactly the registrations that no later removal asked for |
| `EventHandlers.HitMeans` | manager/webapp/components/jquery/jquery.js:3061-3068 | A removal hits a handler iff type, function, selector and, by inclusion, namespaces fit |
| `EventHandlers.RunNumbered` | manager/webapp/components/jquery/jquery.js:2999-3009 | In every run the order of the list is the order of registration |
| `EventHandlers.SegmentsAdd` | manager/webapp/components/jquery/jquery.js:2999-3004 | Splicing at `delegateCount` or pushing keeps delegated handlers in front, both kinds in registration order |
| `EventHandlers.SegmentsRemove` | manager/webapp/components/jquery/jquery.js:3061-3080 | Removing keeps the split and the order |
| `EventElement.HandlerList.AddHandler` | manager/webapp/components/jquery/jquery.js:2999-3004 | `add` on the list in place: afterwards the list is the two segments of the registrations |
| `EventElement.HandlerList.SpliceHits` | manager/webapp/components/jquery/jquery.js:3061-3080 | The loop with `splice( j--, 1 )` and `delegateCount--` removes exactly the hits and keeps the count |
| `EventElement.HandlerList.RemoveHandlers` | manager/webapp/components/jquery/jquery.js:3061-3080 | `remove` on the list: the two segments of what is left |
| `EventElement.HandlerList.MatchesFor` | manager/webapp/components/jquery/jquery.js:3287-3306 | The inner loop with its memo collects the delegated handlers whose selectors select the element |
| `EventElement.HandlerList.CollectQueue` | manager/webapp/components/jquery/jquery.js:3277-3314 | The queue built in place is the specified one |
| `EventElement.HandlerList.Dispatch` | manager/webapp/components/jquery/jquery.js:3259-3343 | A dispatch with handlers that change the event and the list: what is called is the specified run over the queue of the list as it was at the beginning, and the list ends as the edits of the called handlers make it |
| `EventElement.EventObject.StopImmediatePropagation` | manager/webapp/components/jquery/jquery.js:3587-3590 | Stopping at once also stops propagation |
| `EventDispatch.QueuedExactly` | manager/webapp/components/jquery/jquery.js:3277-3314 | A handler is queued for an element iff it is bound directly to the dispatching element, or delegated to an enabled element from the target up to below the dispatching one that its selector selects, and the event is not a click with another button |
| `EventDispatch.QueueOrder` | manager/webapp/components/jquery/jquery.js:3287-3314 | The queue goes from the target outward, direct handlers last, and on one element in registration order; no entry is without handlers |
| `EventDispatch.CalledExactly` | manager/webapp/components/jquery/jquery.js:3316-3343 | Of all places in the queue exactly those are called, once and in order, whose namespaces fit and before which no call in an earlier entry stopped propagation and none in the same entry stopped it at once; returning false stops. Afterwards the event is stopped, stopped at once and prevented iff some call made it so, and its result is the last return that was not undefined |
| `EventDispatch.EligibleMeans` | manager/webapp/components/jquery/jquery.js:3323-3326 | For plain namespaces: an event without any fits every handler, an exclusive one those without namespaces; an event with namespaces fits the handlers that have them all, with multiplicity |
| `EventDispatch.CalledIfFits` | manager/webapp/components/jquery/jquery.js:3316-3343 | A place is called iff its registration has the event's namespaces in that sense and nothing before it stopped the event |
| `EventDispatch.MemoIsRight` | manager/webapp/components/jquery/jquery.js:3290-3301 | The memo of selectors is a plain object. For given handlers, what is queued is on every page, for every target and event, what asking for each selector would queue, iff no handler delegates by a name that objects inherit |
| `EventDispatch.UnselectedIsCalled` | manager/webapp/components/jquery/jquery.js:3290-3343 | A page on which a handler that delegates to `constructor` is queued and called for an element that no selector selects |
| `DeepEquality.EqualExactly` | manager/webapp/components/underscore/underscore.js:821-914 | On every finite graph, cyclic ones included: a true answer is right (the values are bisimilar) iff no walk is misled by a hidden key, a tiny number, or own properties `constructor` that hide different inherited ones; and bisimilar values are answered true iff no walk comes back to an object of the first graph while reaching another one of the second, and none reaches objects whose properties `constructor`, own or inherited, are neither identical nor functions that are instances of themselves |
| `DeepEquality.EqualIsBisimilar` | manager/webapp/components/underscore/underscore.js:821-914 | A true answer that was not misled is right: the pairs that the walks reach form a bisimulation |
| `DeepEquality.BisimilarIsNotMisled` | manager/webapp/components/underscore/underscore.js:821-914 | Between bisimilar values no walk reaches a pair of which the second hides a key of the first, or which hides that different constructors are inherited, or sets a zero against a tiny number of its sign |
| `DeepEquality.OrdinaryIsNotMisled` | manager/webapp/components/underscore/underscore.js:821-914 | Graphs without hidden own properties, own properties `constructor` and tiny numbers mislead no walk |
| `DeepEquality.OrdinaryExactly` | manager/webapp/components/underscore/underscore.js:821-914 | In such graphs the answer is true iff the values are bisimilar and no walk clashes |
| `DeepEquality.EqualWithoutCycles` | manager/webapp/components/underscore/underscore.js:821-914 | If the first value has no cycles: it is bisimilar to the second, and no walk reaches objects whose properties `constructor` disagree, iff the answer is true and was not misled |
| `DeepEquality.OwnConstructorIsCompared` | manager/webapp/components/underscore/underscore.js:881-887 | Two alike objects with alike, but not identical, members named `constructor` are answered false |
| `DeepEquality.MaskedConstructor` | manager/webapp/components/underscore/underscore.js:881-887 | Two objects that inherit different constructors are answered true if they own the same property of that name |
| `DeepEquality.ConstructorsDecide` | manager/webapp/components/underscore/underscore.js:881-887 | Objects without members are equal iff their constructors are the same or both functions that are instances of themselves, as `Object` is in every frame; numbers in their place are compared with the zeros as one and NaN unlike itself |
| `DeepEquality.CyclesOfTwoLengths` | manager/webapp/components/underscore/underscore.js:859-864 | An object that contains itself and two that contain each other are bisimilar, but the answer is false |
| `DeepEquality.KeyTest` | manager/webapp/components/underscore/underscore.js:888-903 | Counting keys up and down: the keys are the same iff the test succeeds and no key of the first is hidden in the second |
| `DeepEquality.HiddenKey` | manager/webapp/components/underscore/underscore.js:888-903 | Two objects with different keys for which the answer is true |
| `DeepEquality.ZeroTakenForTiny` | manager/webapp/components/underscore/underscore.js:842-842 | Zero and a certain tiny number, which are not bisimilar, are answered true |
| `DeepEquality.DecidesLeaves` | manager/webapp/components/underscore/underscore.js:822-856 | Primitives, their wrappers, dates, regular expressions and functions are equal as documented, for all of them but a zero against a tiny number of its sign; the two zeros differ, NaN equals NaN, invalid dates do not |
| `ObjectGraph.NumberTest` | manager/webapp/components/underscore/underscore.js:842-842 | The comparison of numbers is right exactly unless a zero meets a number of its sign so small that its reciprocal overflows |
| `ObjectGraph.ZeroEqualsTiny` | manager/webapp/components/underscore/underscore.js:842-842 | Such a number exists, and in the other order the answer is false |
| `ObjectGraph.TinyBounds` | manager/webapp/components/underscore/underscore.js:842-842 | How small: a positive number is taken for zero only if it is at most 2^-1023, and always from 2^-1024 on |
| `DeepComparer.Comparer.Compare` | manager/webapp/components/underscore/underscore.js:821-909 | The recursive comparison with its two stacks terminates on every graph and gives the specified answer; a difference may leave objects on the stacks, which nothing looks at then |
| `DeepComparer.Comparer.CompareElements` | manager/webapp/components/underscore/underscore.js:870-879 | Arrays, from the last element to the first |
| `DeepComparer.Comparer.CompareProperties` | manager/webapp/components/underscore/underscore.js:888-903 | Properties, with the key count |
| `DeepComparer.IsEqual` | manager/webapp/components/underscore/underscore.js:912-914 | With empty stacks: a true answer is right iff not misled, and bisimilar values are answered true iff no walk clashes or reaches objects whose properties `constructor` disagree |
| `HtmlEscape.UnescapeEscape` | manager/webapp/components/underscore/underscore.js:1045-1052 | Unescaping an escaped text gives the text back, for every text |
| `HtmlEscape.EscapeIsSafe` | manager/webapp/components/underscore/underscore.js:1026-1052 | An escaped text has none of < > double quote, quote and slash, and every ampersand in it begins one of the six entities |
| `HtmlEscape.EscapeReadsBack` | manager/webapp/components/underscore/underscore.js:1025-1041 | Read as HTML, by the names and hexadecimal numbers of character references, an escaped text is the text, for every text |
| `HtmlEscape.UnescapeReads` | manager/webapp/components/underscore/underscore.js:1045-1052 | Unescaping any text, safe or not, reads the references of the six names and leaves everything else |
| `HtmlEscape.EscapeUnescape` | manager/webapp/components/underscore/underscore.js:1036-1052 | Exactly the texts with that property are escapes of what they unescape to |
| `TemplateText.PiecesTile` | manager/webapp/components/underscore/underscore.js:1115-1140 | The literal pieces and the tags, put together, are the template text, without gap or overlap |
| `TemplateText.FirstAlternative` | manager/webapp/components/underscore/underscore.js:1115-1125 | At every place the matcher finds a tag that stands there, of the first kind possible and with the shortest body, and nothing only if no tag stands there |
| `Templates.LiteralIsText` | manager/webapp/components/underscore/underscore.js:1095-1127 | A quoted piece holds no quote or line terminator that would end the literal, and read by section 7.8.4 of ECMAScript 5.1 it is the piece |
| `Templates.QuoteIsOneLine` | manager/webapp/components/underscore/underscore.js:1095-1127 | A quoted piece holds no line terminator, whatever the text |
| `Templates.Compile` | manager/webapp/components/underscore/underscore.js:1122-1148 | The loop over the matches with `source` and `index` produces the program of the parsed template, character by character |
| `Templates.CodeIsCopied` | manager/webapp/components/underscore/underscore.js:1135-1137 | The code of an evaluate tag is copied as it stands between two statements |
| `TemplateMeaning.RunIsWeave` | manager/webapp/components/underscore/underscore.js:1143-1148 | For all data: running the program of a template of interpolations and escapes of bound identifiers yields the texts with what the tags show in their order, where each tag stores its value in `__t`, which may be the data's; nothing if the data have `__p`; and it fails where an escape tag with something to show meets data that have `_` |
| `TemplateMeaning.TagsShow` | manager/webapp/components/underscore/underscore.js:1112-1148 | From text to result, for every value: `<%-x%>` shows the escaped text, `<%=x%>` the text, and neither shows null or undefined |
| `TemplateMeaning.ProgramIsMeaning` | manager/webapp/components/underscore/underscore.js:1112-1148 | If no tag is disturbed by such names, that is the text with every tag replaced by what its identifier shows |
| `TemplateMeaning.CompiledExactly` | manager/webapp/components/underscore/underscore.js:1143-1148 | For all data, on a template without a tag that shows `__t`: the result is right iff the data do not have `__p` (or there is nothing to show) and no escape tag with something to show meets data that have `_` |
| `TemplateMeaning.RightForAllTexts` | manager/webapp/components/underscore/underscore.js:1112-1148 | For all data and any template text: the result is right for every text with the same tags iff the data do not have `__p`, no escape tag with something to show meets data that have `_`, and no tag that shows `__t` comes after one that stored another text |
| `TemplateText.ParsesBack` | manager/webapp/components/underscore/underscore.js:1115-1140 | A template whose tags are escape or interpolate tags that do not end earlier, between pieces in which no tag can begin, is read back from the text it stands for |
| `TemplateMeaning.NothingReturned` | manager/webapp/components/underscore/underscore.js:1143-1148 | Data with `__p`: nothing is returned |
| `TemplateMeaning.HiddenEscape` | manager/webapp/components/underscore/underscore.js:1130-1130 | Data with `_`: an escape tag looks for its function there |
| `TemplateMeaning.StaleValue` | manager/webapp/components/underscore/underscore.js:1133-1133 | Data with `__t`: a tag shows what the tag before it stored |
| `Timing.ThrottleIsRight` | manager/webapp/components/underscore/underscore.js:627-650 | Over every run of calls and timers: invocations are at least `wait` apart, any number of them as many waits; with no timer pending the last call's arguments have been delivered; a pending timer is due exactly one wait after the last invocation |
| `Timing.ThrottleDelivers` | manager/webapp/components/underscore/underscore.js:635-649 | A call invokes at once iff a wait has passed since the last invocation, a timer always; what is delivered is always the latest call's |
| `Timing.TrailingIsRight` | manager/webapp/components/underscore/underscore.js:656-670 | Trailing debounce: one invocation for each burst that is over, in order, with the arguments of its last call, and at least `wait` after that call |
| `Timing.LeadingIsRight` | manager/webapp/components/underscore/underscore.js:656-670 | Immediate debounce: one invocation for each call that opens a burst, and no other |
| `Timing.NoTimerBetween` | manager/webapp/components/underscore/underscore.js:659-666 | Calls less than `wait` apart are in one burst: no timer fires between them |
| `Timing.LeadingAfterQuiet` | manager/webapp/components/underscore/underscore.js:664-667 | An immediate invocation happens in a call, at least `wait` after every earlier call |
| `Limiters.Throttled.Invoke` | manager/webapp/components/underscore/underscore.js:635-649 | The closure of `throttle`, called from outside or by the function it limits: its variables follow the machine, and the result is that of the outermost run |
| `Limiters.Throttled.Later` | manager/webapp/components/underscore/underscore.js:630-634 | Its timer |
| `Limiters.Debounced.Invoke` | manager/webapp/components/underscore/underscore.js:658-669 | The closure of `debounce`, re-entrant calls included |
| `Limiters.Debounced.Later` | manager/webapp/components/underscore/underscore.js:660-663 | Its timer |
| `Shuffling.ShuffleIsBijective` | manager/webapp/components/underscore/underscore.js:280-290 | For distinct values the permutations are exactly the results, each from one sequence of choices |
| `Shuffling.EveryPermutation` | manager/webapp/components/underscore/underscore.js:280-290 | Every permutation, of distinct or equal values, is the result of some choices |
| `Shuffling.ChoicesUnique` | manager/webapp/components/underscore/underscore.js:280-290 | Distinct values: equal results come from equal choices |
| `Shuffling.ShuffleValues` | manager/webapp/components/underscore/underscore.js:280-290 | The loop with its two writes computes the specified result, a permutation of the input, for any random numbers |
| `Shuffling.RandomIsUniform` | manager/webapp/components/underscore/underscore.js:1017-1023 | Each choice is made on an interval of the same length |

## Left out

- `Callbacks.empty`: it does not reset `firingLength` when called while firing, and `Deferred` does not expose it.
- Exceptions thrown by callbacks, handlers and limited functions, everywhere.
- `Deferred`: `pipe`, `always` and `promise( obj )`, which build on the modelled operations; the three lists are
  composed as values, one machine each, not as three objects that call each other.
- `when` with fewer than two arguments, which only forwards.
- AjaxLifeCycle.LifeCycle: does not cover callbacks that throw, and requests that are sent although they are done
  already; `AbortedWhileSending` and `AbortedWhileStarting` say how they come about, `CounterInGeneral` and `SendIsSafe`
  what happens then.
- Ajax headers, conversions, status codes, timeouts as such, and real transports; these are events that may happen at
  any time.
- Sizzle: `querySelectorAll`, the shortcut for ids, positional selectors, XML documents and the expressions that split
  selector texts; chains come as parsed parts. Compound selectors mean elements only, whatever else the code
  puts to their tests. Detached trees are not covered, only the document and elements have children, and a leading
  combinator starts at an element.
- Candidate elements come from `Sizzle.find` as a parameter; for chains that begin with `~` or `+` they are what the
  source restricts them to.
- The `sourceIndex` shortcut of `sortOrder`, and nodes of different trees. The native sort is a parameter: any sorted
  permutation, with the duplicate flag set if equal nodes were compared.
- `NthFormula`: numbers are unbounded, without the rounding of very long digit strings.
- Namespaces.PatternIsInclusion: does not cover event namespaces with characters that are special in expressions, nor
  the empty names of a type such as `click..a`, because for these the code itself does not ask for inclusion; the
  model of the expression reads special characters as themselves. The names of handlers hold no line terminators, since
  the expression that takes them from a type does not match across them. Characters are code points.
- Events: special event types and their hooks, `event.fix`, one list for each type (the map of types, and the removal
  of an emptied list, only forward to it), default actions and `trigger`'s own path. Selectors and the quick test for
  them are one function of element and selector. Handlers do not change the namespaces of the event.
- `isEqual`: wrapped Underscore objects, and objects with their own `valueOf` or `toString`. Numbers are not rounded
  except where a reciprocal overflows.
- TemplateMeaning.RunIsWeave: does not cover `<% %>` blocks, whose code is arbitrary (they are compiled, but not
  evaluated), and bodies other than an identifier with blanks around it. What a function `escape` of the data's own `_`
  would do is not followed.
- Custom template delimiters, the `variable` setting, and inherited properties of the data object.
- Throttle and debounce: the value of `this`, which is passed on like the arguments; clocks that go back.
- `Random`: whole numbers beyond 32 bits, which the source truncates.
- Easy members of both libraries, DOM manipulation, CSS, animation, and the second copies of both libraries.
