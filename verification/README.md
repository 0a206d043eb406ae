# A verified model of command_stats

`command_stats` parses a shell-like command into a tree, removes its `cd` commands, wires the streams of
all processes, runs the tree asynchronously, and hands a report to a daemon through a FIFO that all runs
share. This project models these parts in Dafny and proves what they promise.

* **Parser** (`splitting.dfy`, `brackets.dfy`, `parse.dfy`, `printer.dfy`, `precedence.dfy`): masking brackets,
  splitting by operator priority, stripping one layer of brackets, recursion. The fixed regular expressions
  are specified by hand as leftmost searches. Main results: reading back what a precedence-aware printer
  writes gives the same command; the root of every text is given by the characters outside its brackets.
* **Rewriting and wiring** (`cd.dfy`, `wiring.dfy`, `builtin.dfy`, `plumbing.dfy`): `cd` elimination edits
  operand lists while iterating over them; wiring allocates pipes and appenders over the whole tree. Main result: a
  conservation law for pipe ends, from which every pipe has exactly one reader and one writer.
* **Execution** (`nodes.dfy`, `semantics.dfy`, `operators.dfy`, `climb.dfy`, `streams.dfy`, `lookups.dfy`,
  `accounting.dfy`, `engine.dfy`, `held.dfy`, `hanging.dfy`): the event loop that reacts to exits in any order.
  Main result: whatever the order, the final results are those of a small recursive evaluator of the operators
  (sections 2.9.2 and 2.9.3 of the POSIX Shell Command Language, IEEE Std 1003.1); on the way the pipe ends, the
  table of appender descriptors, `to_wait` and the pids are accounted for in every reachable state, and the pipe
  ends the parent holds are determined exactly.
* **A whole command** (`end_to_end.dfy`): parsing, elimination of `cd`, wiring and execution together.
* **Report delivery** (`transfer.dfy`, `message.dfy`, `booking.dfy`): copying in chunks, the appender's loop, and the
  booking protocol as a step system with unboundedly many runs. Main results: mutual exclusion and log
  integrity over all runs, and progress: no deadlock, and every run without new arrivals ends with all
  reports delivered.

## How the model is laid out

A node is identified by its address (`id`). The parts of a C node that do not change while a tree is wired
and executed form the datatype `Node`; the fields that do change (`result`, `pid`, `std_in`, `std_out`,
`appender`, `operands->nodes`, `cd`) are fields of the classes `Engine`, `Wirer` and `CommandTree`, as maps
keyed by address, where a missing key is a null pointer. The kernel appears as parameters: `schedule`
chooses which child `wait3` reports next (a child that does not exist or was reported before stands for an
interrupted call), `forkPid` gives the pid of each forked process, `status` the wait status each executable
ends with, `chunks` the number of bytes each `read` returns.

The engine's invariant is stated by one set: `reaped`, the executables whose exit has been handled. The
predicate `State` says what every `node->result` is once exactly these have exited. Each turn of the loop that
handles an exit adds one executable to the set (`Turn`, `Follows`), and the climb from a finished operand to its
father, its father's father and so on goes through the intermediate states described by `Midway`.

Assumptions of the execution model: every operator has at least one operand and all nodes are different
objects (proved for trees the parser builds); `fork` succeeds; each fork gives a pid different from all
others and from whatever an unstarted node's `pid` field holds; that is never -1, what an interrupted
`wait3` returns; each executable may exit with any status, but has only one.

## Findings

* `a|b|c`, without spaces, loses its last command: the loop that counts separators consumes the character
  behind a matched `|`, the loop that cuts does not (`src/common/my_regex.c:35`, `83`). `Splitting.LostPiece`
  shows the input, `Splitting.SplitReassembles` that this happens exactly when two single bars outside
  brackets have one character between them.
* An appender whose output is a pipe closes the pipe's write end twice in the parent
  (`src/execute/execute.c:363-368`); the second call is on a descriptor that is no longer open.
  `Execution.Engine.InitAppender` counts the failing call, `HeldEnds.PipedAppender` says for which operators
  of a tree it happens, and `HeldEnds.DoubleClose` shows it for `(a && b) | c`.
* The parent opens both ends of the pipe of every operand when an And, Or or Semicolon starts, and closes
  the write end only when the operand starts (`src/execute/execute.c:345-381`, `210-215`). For an operand that
  is skipped it never does: `HeldEnds.HeldExactly` and `HeldEnds.HeldAtEnd` give the exact sets,
  `Hanging.SkippedIsHeld` that this is so from the start. The operator's appender therefore waits for an end of
  file that cannot come while the parent lives, and so does every appender it feeds. `Hanging.FedExactly` says
  for every tree which commands read what such an appender writes; as long as one of them waits for its end of
  file, the parent waits for it (`Hanging.FedKeepsWaiting`). An input is `(false && a) | cat`
  (`Hanging.GroupFeedsCat`, `HeldEnds.GroupThatHangs`).
* A booking stores the directory and the path of the log in a field of 4098 characters without looking at
  their lengths or at the result of `getcwd` (`src/daemon/daemon_socket.c:91-95`). With their ends they leave
  the field exactly if they need more than 4098 characters (`BookingMessage.OverflowExactly`). The daemon
  still finds both as long as they end in what is sent; with the usual layout that includes two bytes of
  padding behind the field, so up to 4100 (`BookingMessage.DeliveredExactly`, whose `room` is 4098 for the
  field alone). `BookingMessage.TwoLongPaths` and `BookingMessage.DeepDirectory` are inputs.
* The semicolon binds tighter than the bar and both tighter than `||` and `&&`: `a ; b && c` is an And whose
  first operand is `a ; b`, unlike in the POSIX Shell Command Language (section 2.10.2). `Precedence` states
  it for all plain words; `Precedence.RootOperator` for all texts.

## Model

| member | source | states |
|---|---|---|
| Semantics.EvalFromLast | src/execute/execute.c:466-537 | the evaluator's code of an operator is the code of the last operand that runs, except that And and Or turn success into 0 |
| Operators.OkExactly | src/execute/execute.c:472 | of all ways a process can end, with any exit code or by any signal, exactly the exit with 0 counts as success |
| Operators.AndRuns | src/execute/execute.c:477-489 | And: an operand runs exactly if all before it succeed; the code is that of the first operand that fails, 0 if none does |
| Operators.OrRuns | src/execute/execute.c:491-503 | Or: an operand runs exactly if all before it fail; the code is 0 if some operand succeeds, otherwise that of the last |
| Operators.AllRun | src/execute/execute.c:505-519 | Semicolon and Pipe: all operands run; the code is that of the last |
| Semantics.OneOperandRuns | src/execute/execute.c:466-537 | in every reachable state a started And, Or or Semicolon has a current operand: all before it are finished, none after it has been started, and it is unfinished as long as the operator is |
| Semantics.ConsistentStep | src/execute/execute.c:425-447 | the exit of a live executable leads to a state that is again reachable |
| Semantics.QuiescentResults | src/execute/execute.c:425-537 | refinement: when no started executable is left, exactly the nodes the evaluator reaches have a result, each with the code the evaluator computes |
| Semantics.LiveIsStarted | src/execute/execute.c:186-220 | the executables still to be waited for are those with a result that have not exited |
| Semantics.StateDetermined | src/execute/execute.c:425-537 | all results in a reachable state are determined by the set of exits, not by their order |
| Semantics.OperatorShape | src/execute/execute.c:315-537 | at every loop head, anywhere in the tree: a started sequence operator has started exactly a prefix of its operands and finished all of it but possibly the last; a started Pipe has started every operand and is finished exactly when its last operand is |
| Climb.MidwayUp | src/execute/execute.c:466-537 | when an operator has ended, the results are at the midpoint one level higher, so the notification may go on to its father |
| Climb.MidwaySettled | src/execute/execute.c:466-537 | when an operator does not end, or is the root, the climb is over and the whole tree is in the state that belongs to the new set of exits |
| Climb.ExitIsMidway | src/execute/execute.c:452-458 | recording the exit code of a started executable is the first midpoint of the climb |
| Climb.NextOperandStarted | src/execute/execute.c:466-537 | starting the next operand after one that did not stop the operator gives the operator's state for the new set of exits |
| Climb.OperatorEnded | src/execute/execute.c:466-537 | setting an operator's exit code at its last or stopping operand gives its state for the new set of exits, in which it is finished and before which it was not: it reports completion once |
| Climb.PipeGoesOn | src/execute/execute.c:466-537 | an operand of a Pipe other than the last changes nothing when it ends, even while earlier ones still run |
| Climb.FatherIsTold | src/execute/execute.c:466-537 | an ended operator is an operand that has just finished, of a father that has been started |
| Execution.Engine.ExecuteAsync | src/execute/execute.c:162-179 | starting an untouched node gives the state in which nothing below it has exited, changes no result outside it, keeps all accounts, and starts exactly the nodes, and forks exactly the processes, that start at once, in order |
| Execution.Engine.ExecuteExecutableAsync | src/execute/execute.c:186-220 | one child is forked for an executable that has none; its result is created without a code and the accounts include it |
| Execution.Engine.OpenPipeIfNeeded | src/execute/execute.c:229-245 | a pipe is opened unless it has been; no pipe is ever opened twice |
| Execution.Engine.ExecutePipeAsync | src/execute/execute.c:315-325 | all operands of a Pipe are started, each with what starts below it and the processes that takes, in operand order |
| Execution.Engine.ExecuteFirstOperandAsyncAndStartAppender | src/execute/execute.c:333-342 | the operator and its first operand are started, and no other operand; the appender is forked before the processes of that operand |
| Execution.Engine.InitAppender | src/execute/execute.c:345-385 | the appender's pipes are opened, its own ends closed, its operands' write ends recorded; exactly one close is on an end that is not open if it writes a pipe, otherwise none |
| Execution.Engine.TellOperator | src/execute/execute.c:466-537 | told of a finished operand, an operator starts the next one, ends, or does nothing; it ends, and reports, exactly if it becomes finished |
| Execution.Engine.HandleOperandsNodeExecutionCompleted | src/execute/execute.c:466-537 | the chain of notifications ends (each goes one level up) with the whole tree in the state for the new set of exits |
| Execution.Engine.WaitOnce | src/execute/execute.c:425-447 | one turn of the loop keeps the invariant: an exit of an executable of the tree adds it to the set of handled exits, for the first time; any other wake-up (an appender, an interrupted wait) changes nothing |
| Execution.Engine.ManageRunningNodesAndCollectData | src/execute/execute.c:425-447 | the states at the loop heads follow the schedule for as long as there is something to wait for: the whole tree is in the right state at each, and each turn handles exactly the exit of the executable that the choice names, if that child exists and was not reported before; every executable the schedule names among the children there are at first is reported; the run ends after at most as many turns as there are executables left, and the turns that handle no exit; at its end the results are the evaluator's |
| Execution.Engine.RunToEnd | src/execute/execute.c:425-447 | from every reachable state some schedule without a wasted turn ends the run |
| Execution.Engine.AtMostAllReaped | src/execute/execute.c:425-447 | to_wait is never negative, is 0 only when the evaluator's results are there, and is positive only while an executable is unreported and not all have been reaped |
| Execution.Engine.StartOnceEndOnce | src/execute/execute.c:162-179 | over a whole run no node is started twice and no operator reports its end twice; at the end exactly the nodes the evaluator reaches have been started, and exactly its operators have reported |
| Execution.Engine.Execute | src/execute/execute.c:109-119 | the whole run: for every wired tree, every assignment of statuses and every schedule, a finished run has exactly the evaluator's results, and an unfinished one waits for a started executable; the schedule is followed turn by turn from the processes that starting the root forks, and every executable among them that it names is reported; the run finishes after at most as many turns as the tree has executables, and the turns that handle no exit |
| Execution.WokenUp | src/structs/node.c:82-112 | the lookup finds an executable exactly if wait3 reported the exit of an executable's process, and then that executable, started and not yet handled |
| Execution.RunOutcome | src/execute/execute.c:425-447 | to_wait == 0 implies that the root has finished, that the handled exits are the executables the evaluator reaches, and that the results are the evaluator's |
| Execution.ScheduleIndependence | src/execute/execute.c:425-537 | two finished runs of one tree with the same statuses have the same results, whatever pids and orders of exits they saw |
| Execution.StillRunning | src/execute/execute.c:425-447 | while to_wait is positive the kernel has an executable's exit to report |
| Accounting.ExecutableStarted | src/execute/execute.c:186-220 | starting an executable keeps all accounts: pipes, appender table, children, pids, to_wait |
| Accounting.AppenderStarted | src/execute/execute.c:345-385 | starting an appender whose ends were opened and settled as needed keeps all accounts |
| Accounting.PipeStarted | src/execute/execute.c:315-325 | a Pipe node starts no process and keeps all accounts |
| Accounting.AppenderReady | src/execute/execute.c:345-385 | before an appender is started its ends are still open or unopened, and its entries fit into the table |
| Accounting.PipeForks | src/execute/execute.c:315-325 | a Pipe forks what its operands fork, operand after operand, and has no process of its own |
| Accounting.ForkedAtOnce | src/execute/execute.c:315-342 | starting a node forks exactly the executables on whose path every step goes to an operand of a Pipe or to a first operand |
| Accounting.PidMeans | src/structs/node.c:90-112 | a reported pid equals an executable's pid field exactly if the child was forked for it; -1 equals none |
| Accounting.OneLessToWait | src/execute/execute.c:425-447 | to_wait stays the number of started executables whose exit has not been handled |
| Streams.StartKeepsAccounts | src/execute/execute.c:186-245 | pipe-end accounting: a pipe is initialised exactly when one of its users has started, the parent holds an end exactly while this end's user has not |
| Streams.OwnEndsUntouched | src/execute/execute.c:186-245 | with linear wiring nobody has used the ends of a process that is about to start |
| Streams.TableFits | src/structs/node.c:64-80 | the number of recorded descriptors is the sum of the operand counts of the started non-Pipe operators and at most the bound the table was allocated with |
| Streams.TableSize | src/structs/node.c:64-80 | the bound is exactly twice the number of all entries that the operators of the tree can make, and two for each of these operators |
| Lookups.FindNextNodeInOperands | src/structs/node.c:134-146 | the operand after the first one with the given address |
| Lookups.NextOperand | src/structs/node.c:134-146 | among distinct nodes: operand k + 1 after operand k, nothing after the last |
| Lookups.FindNodeInTreeWithPid | src/structs/node.c:82-112 | finds an executable with the pid exactly if there is one, and its direct father, none only for the root, although the recursion goes through the wrapper that clears its outputs |
| Lookups.FindFatherOfNodeInTree | src/structs/node.c:114-131 | finds an operator that has the child among its operands exactly if there is one |
| Lookups.FatherFound | src/structs/node.c:114-131 | in a tree of distinct nodes the search returns the operator at the parent position, none only for the root |
| Lookups.LookUpTwice | src/structs/node.c:82-131 | for an executable found by its pid, the father that comes with it and the father the search finds are the same operator, none only for the root |
| Lookups.CountExecutablesInTree | src/structs/node.c:42-54 | the number of executables of a tree of distinct nodes |
| Lookups.CountMaxAppenderFileDescriptors | src/structs/node.c:64-80 | the bound used by the appender table |
| Wire.ConservedIsLinear | src/parse/builtin.c:79-187 | linear wiring: each created pipe has exactly one reading and exactly one writing process, no other pipe has any |
| Wire.ConnectedIsWired | src/parse/builtin.c:79-187 | a connected tree has everything the engine needs |
| Plumbing.OperandsChained | src/parse/builtin.c:121-161 | at every depth: each operand of a Pipe but the first reads the pipe that the one before it writes; the outer ones use the Pipe's own streams |
| Plumbing.OperandsCollected | src/parse/builtin.c:164-187 | at every depth: the appender of an And, Or or Semicolon reads from pipes what the operands write, in their order, and writes where the operator writes; all operands but the first read descriptor 0 |
| Plumbing.OneReaderOneWriter | src/parse/builtin.c:79-187 | every pipe of a wired tree is read by exactly one process and written by exactly one: an executable through its own stream or an appender |
| Wire.PipePartNext | src/parse/builtin.c:121-161 | one turn of the loop over a Pipe's operands keeps chaining and conservation |
| Wire.AppendPartNext | src/parse/builtin.c:164-187 | one turn of the loop over another operator's operands keeps collecting and conservation |
| Builtin.Wirer.WireRedirects | src/parse/builtin.c:79-83 | the wired root uses its own redirects or the standard streams, descriptors 0 and 1; the tree is connected, linear, and the number of pipes is the sum of count - 1 over Pipe nodes and count over the others |
| Builtin.Wirer.WireRedirectsR | src/parse/builtin.c:85-112 | the node gets the given streams; the processes below it use its input once, its output once, both ends of every new pipe once, and besides only read the standard input; nothing outside changes |
| Builtin.Wirer.WirePipeNodes | src/parse/builtin.c:121-161 | each operand reads what the one before it writes, the outer ones use the Pipe's own streams |
| Builtin.Wirer.WireOperandNodes | src/parse/builtin.c:164-187 | each operand writes a pipe of its own to the appender, in operand order; all but the first read the standard input |
| CdBuiltin.CommandTree.RemoveNodeFromOperands | src/structs/node.c:157-172 | exactly the given operand is removed, the others keep their order |
| CdBuiltin.CommandTree.ApplyToOperands | src/parse/builtin.c:38-70 | the loop that edits the list it iterates over visits every operand once: at every depth the operands that stay are those that do not say cd and one directory, in order, and each executable gets the directories of all those before it; a Pipe keeps its operands |
| CdBuiltin.CommandTree.ApplyCdBuiltinR | src/parse/builtin.c:38-70 | the same for an operator; an executable that says cd and one directory leaves its father's list and gives the directory to its brothers behind it, in a Pipe or without a father it stays and gets it itself; any other changes nothing |
| CdBuiltin.CommandTree.ApplyCdBuiltin | src/parse/builtin.c:34-36 | the same for the root, which has no father: a lone cd stays and gets its own directory |
| CdBuiltin.AppliedMeans | src/parse/builtin.c:38-70 | by positions: in every And, Or and Semicolon the list keeps the operands at exactly the positions without a cd and one directory, and operand k gets the directories at exactly the positions before k with one; in every Pipe nothing is removed and each cd gets its own |
| CdBuiltin.AppliedReads | src/parse/builtin.c:38-70 | the operand lists in memory after the elimination spell out the rewritten tree, at every depth |
| CdBuiltin.CommandTree.CurrentTree | src/structs/node.h:30-34 | the tree read from the operand lists as they are now |
| CdBuiltin.RewrittenReady | src/parse/builtin.c:29-32 | the tree without its cds can be wired and executed |
| HeldEnds.Partner | src/parse/builtin.c:121-187 | each pipe end of a started process leads out of the node, or its other end is used by a started process too, or belongs to an operand its operator has not started |
| HeldEnds.HeldExactly | src/execute/execute.c:186-245 | the parent holds exactly the write ends of the operands that a started And, Or or Semicolon has not started |
| HeldEnds.HeldInRun | src/execute/execute.c:425-447 | the same at every head of the waiting loop |
| HeldEnds.HeldAtEnd | src/execute/execute.c:425-447 | when nothing is left to wait for, the ends still held are the write ends of the operands behind the one that ended their operator |
| HeldEnds.TableEntries | src/execute/execute.c:345-385 | in every reachable state the table of appender descriptors holds exactly the write ends of the pipes that the appenders of the started operators read |
| HeldEnds.OpenedAtMostOnce | src/execute/execute.c:229-245 | in every reachable state each pipe has been opened at most once, and exactly if a process that uses it has been started |
| HeldEnds.PipedAppender | src/execute/execute.c:345-368 | an appender writes a pipe, and closes it twice, exactly if the path to its operator goes to an operand of an And, Or or Semicolon or to one of a Pipe that is not the last |
| HeldEnds.DoubleClose | src/execute/execute.c:363-368 | running (a && b) \| c, exactly one close fails, as soon as the root has been started |
| HeldEnds.GroupThatHangs | src/execute/execute.c:425-537 | running (false && a) \| cat, after the failure the parent still holds the write end the group's appender reads, and cat is still to be waited for |
| Hanging.SkippedIsHeld | src/execute/execute.c:345-381 | from the start of an And, Or or Semicolon on, the parent holds the write ends of the operands that will be skipped |
| Hanging.WhyItHangs | src/execute/execute.c:404-411 | a started appender whose input never ends reads a pipe whose write end the parent holds, or one that an appender of the same kind writes |
| Hanging.HangsExactly | src/execute/execute.c:345-411 | for every tree: the input of an appender never ends exactly if some operand of its operator is skipped or an appender of the same kind writes one of the pipes it reads |
| Hanging.FedExactly | src/execute/execute.c:345-411 | for every tree: an executable reads from a pipe that such an appender writes exactly if a condition on its path and the statuses says so |
| Hanging.FedKeepsWaiting | src/execute/execute.c:425-447 | until an executable fed in this way exits without having seen the end of its input, the run does not end, and the executable is live once started |
| Hanging.GroupFeedsCat | src/execute/execute.c:425-537 | in (false && a) \| cat, cat is fed in this way |
| EndToEnd.ApplyBuiltinAndExecute | src/parse/builtin.c:29-32 | elimination, wiring and execution end to end: the tree wired and executed is the one the operand lists hold after the elimination; every command in it has the directories of the cds before it; the schedule is followed turn by turn with the bound of Execute; a finished run has the evaluator's results |
| EndToEnd.WireAndExecute | src/main.c:53-59 | wiring and execution over one tree: the schedule is followed, the results are the evaluator's, and the parent holds exactly the write ends of the operands that have not been started |
| EndToEnd.RunCommand | src/main.c:53-59 | from a command's text to its results: it fails exactly if the text cannot be parsed; otherwise every command starts with the directories of the cds before it and no others, and for every status assignment and schedule the schedule is followed turn by turn, the run ends within the bound of Execute, and a finished run has the evaluator's results for the tree the elimination leaves of what the text describes |
| EndToEnd.GroupInPipeText | src/parse/parse.c:125-161 | the text (a && b) \| c parses to the tree of HeldEnds.DoubleClose |
| Splitting.ObfuscateBracketsInString | src/parse/parse.c:347-364 | character i is masked exactly if the bracket depth there is positive |
| Splitting.CountOccurrencesOfRegex | src/common/my_regex.c:25-44 | counts the matches, each search starting behind the whole last match |
| Splitting.SplitObfuscatedString | src/common/my_regex.c:50-88 | one piece more than was counted, cut at the masked text's separators; no piece but the last is without a match |
| Splitting.EnoughPieces | src/common/my_regex.c:25-88 | the counting loop never counts more separators than the cutting loop finds, and as many exactly if no two single bars have one character between them |
| Splitting.SplitReassembles | src/common/my_regex.c:25-88 | joining the pieces with the separator gives back the text, for every operator and text, except exactly for two single bars with one character between them |
| Splitting.LostPiece | src/common/my_regex.c:50-88 | a\|b\|c is cut into a and b only |
| Splitting.HitBalanced | src/parse/parse.c:366-372 | every cut of a balanced text is at bracket depth 0, and both sides are balanced |
| Splitting.AllPiecesBalanced | src/parse/parse.c:366-372 | all pieces of a balanced text are balanced |
| Brackets.RemoveBracketsIfAlone | src/parse/parse.c:173-217 | computes WithoutBrackets, the scan with its backslash rule included |
| Brackets.OnlyMatch | src/parse/parse.c:174 | the expression for enclosed texts has at most one way to match, the one the model uses |
| Brackets.StripsExactly | src/parse/parse.c:173-217 | for a balanced text without backslashes: brackets are removed exactly if the first visible character opens a bracket that the last visible one closes; what is left is balanced |
| Brackets.ScanIgnoresHidden | src/parse/parse.c:192-206 | for every text: the scan breaks off exactly if, without the backslashes and the characters they hide, some part from the start on closes more brackets than it opens |
| Parse.LongestWord | src/parse/parse.c:401 | the word taken is the leftmost longest match of the expression for unquoted arguments |
| Parse.CreateArguments | src/parse/parse.c:400-465 | argv holds the words of the text, in order; it fails exactly if there are none |
| Parse.CreateSplitForOperator | src/parse/parse.c:366-372 | the pieces of the masked text; if there are several, each is shorter than the text |
| Parse.Parser.CreateNodeFromString | src/parse/parse.c:131-161 | builds the tree that ParseText describes from new nodes, or fails exactly if it fails; terminates on every text |
| Parse.Parser.CreateOperandsFromString | src/parse/parse.c:468-497 | one operand for each piece, in order, no two sharing a node |
| Parse.Parser.CreateTreeFromString | src/parse/parse.c:125-129 | a parsed tree meets the assumptions of the later phases: distinct nodes, at least two operands in every operator |
| Parse.ParsedOperator | src/parse/parse.c:131-161 | an operator node comes from the loosest separator outside brackets and has one operand more than there are separators; every recursive call gets a balanced, strictly shorter text |
| Parse.ParsedIsWide | src/parse/parse.c:145-147 | every parsed operator has at least two operands |
| Precedence.RootOperator | src/parse/parse.c:55-86 | the root of every text that can be parsed, by the characters outside its brackets: And exactly if there is a double ampersand, Or if there is none but a double bar, Pipe if there is neither but a single bar, Semicolon if there is only a semicolon, an executable if there is none of them |
| Precedence.NoOperator | src/parse/parse.c:400-465 | a text without operators outside its brackets is the command of its words; an error exactly if it is empty |
| Precedence.AndIsLoosest | src/parse/parse.c:55-86 | for all plain words: a text with && and another operator, in either order, has And at the root |
| Precedence.OrIsNext | src/parse/parse.c:55-86 | the same for a double bar and a single bar or semicolon |
| Precedence.SemicolonIsTightest | src/parse/parse.c:55-86 | the same for a bar and a semicolon; the same operator twice makes one node |
| Printer.PaddedSplit | src/common/my_regex.c:50-88 | a text joined with a space-padded separator is cut exactly where it was joined, and all separators are counted |
| Printer.TextFree | src/parse/parse.c:55-86 | outside its brackets a printed command contains no separator of a looser operator |
| Printer.NotStripped | src/parse/parse.c:173-217 | a printed command, with any spaces around it, does not lose brackets it needs |
| Printer.WordsJoin | src/parse/parse.c:400-465 | plain words written with single spaces are read back, with any spaces around them |
| Printer.RoundTrip | src/parse/parse.c:125-161 | parsing what the printer writes gives back the command, for every command whose operators have two or more operands and whose executables are lists of plain words |
| Transfer.CopyStream | src/common/common.c:18-27 | everything is copied in order, however the reads split it |
| Transfer.RunAppenderMain | src/execute/execute.c:403-411 | the output is the concatenation of the inputs in operand order, for every way the reads split them |
| Transfer.ConcatJoins | src/execute/execute.c:403-411 | the concatenation named there: nothing for no part, a part for itself, and lists side by side give their outputs side by side, in order |
| BookingMessage.PackPaths | src/daemon/daemon_socket.c:91-95 | both strings are stored one behind the other, for all strings, also behind the end of the field |
| BookingMessage.UnpackPaths | src/daemon/daemon.c:131-133 | the daemon reads the directory and, behind it, the path, if they end in what it has received |
| BookingMessage.OverflowExactly | src/daemon/daemon_socket.c:91-95 | what lies behind the field can be damaged exactly if the two strings and their ends need more than 4098 characters |
| BookingMessage.DeliveredExactly | src/daemon/daemon_socket.c:91-95 | the daemon finds both strings in what is sent from the start of the field on exactly if the directory fits the field and they end there; otherwise the path has no end in it, or the directory is read as empty |
| BookingMessage.TwoLongPaths | src/daemon/daemon_socket.c:95 | any directory and any path of 2100 characters each: the last 103 characters of the path and its end are stored behind the field |
| BookingMessage.DeepDirectory | src/daemon/daemon_socket.c:91 | any directory of 4098 or more characters: getcwd fails unnoticed, and the daemon reads the empty directory |
| Booking.InvKept | src/daemon/daemon.c:60-166 | every step of every interleaving keeps the protocol's invariant |
| Booking.OneInService | src/daemon/daemon_socket.c:104-144 | at most one run is between its OK signal and closing the FIFO, and it never writes without a reader |
| Booking.LogContents | src/daemon/daemon.c:129-166 | each log is its old content, the complete reports of the runs served for it in order, and a prefix of the report being delivered to it |
| Booking.SafeTraces | src/daemon/daemon.c:60-166 | in every state of every run of the protocol: mutual exclusion, log integrity, answers in booking order; a run told of a new file has a log that was not there at first and that no accepted run has, one told that the file exists has a log that was there or that an accepted run has |
| Booking.AnswersInTraces | src/daemon/daemon.c:137-166 | in every state of every run the logs are those that were there, those of the accepted runs, and the one in the daemon's hands |
| Booking.OnlyRefusedFail | src/daemon/daemon.c:144-147 | a run fails only if the daemon could not open its log |
| Booking.Backlog | src/daemon/daemon_socket.c:53-62 | for any runs with any logs and reports there is a run of the protocol in which all have booked, in the given order, before the first booking is received |
| Booking.NoDeadlock | src/daemon/daemon_socket.c:53-62 | as long as a run is not over, a step of the protocol is possible |
| Booking.StepsDecrease | src/daemon/daemon.c:60-82 | every step but the arrival of a new run decreases the work left |
| Booking.TracesEnd | src/daemon/daemon.c:60-82 | without further arrivals the protocol ends, with an explicit bound on its steps |
| Booking.AllDelivered | src/daemon/daemon.c:60-166 | when no step is left, every booking has been answered, in order, each log holds exactly the reports of the accepted runs, and the accepted ones are exactly those that have written their whole report |

## Left out

- Execution.Engine.ExecuteExecutableAsync: assumes that `fork` succeeds; in the code `to_wait` is
  incremented before the fork and not decremented when it fails (`src/execute/execute.c:190-205`).
- Execution.Engine.InitAppender: identifies a pipe end by its pipe, not by a descriptor number, so it shows
  that the second close is on a closed end, but not what happens if the number has been reused.
- Execution.Engine.Execute: claims nothing about real processes getting to their end; a schedule may stop
  while executables are running, then the engine is blocked in `wait3`. The signal handler for executables
  that cannot be invoked (`src/execute/execute.c:91-100`), which races with the assignment of the pid, is
  not modelled.
- Execution.Engine.OpenPipeIfNeeded: the descriptor number that a stream gets according to its direction is
  not represented; which end a process uses is part of the tap.
- Builtin.Wirer.WireRedirects: file redirects only at the root. Inside the tree the first operand's standard
  input is overwritten (`src/parse/builtin.c:165`) and nested groups do not pass on their own redirects.
- Builtin.Wirer.WireRedirectsR: requires, for the same reason, that nothing below the node has streams yet.
- Builtin.Wirer.WirePipeNodes: the same.
- Builtin.Wirer.WireOperandNodes: the same.
- CdBuiltin.CommandTree.ApplyCdBuiltinR: requires that the siblings after a removed `cd` are executables
  (`CdSafe`); for an operator the code writes into the wrong member of a union
  (`src/parse/builtin.c:57-64`).
- CdBuiltin.CommandTree.ApplyToOperands: the same.
- CdBuiltin.CommandTree.ApplyCdBuiltin: the same.
- CdBuiltin.RewrittenReady: requires that no operator loses all its operands (`NoneEmptied`); the later
  phases assume operators with operands.
- EndToEnd.ApplyBuiltinAndExecute: requires both, and no file redirects.
- EndToEnd.RunCommand: requires both of the parsed command (`CdReady`), and a text as the parser's.
- Parse.Parser.CreateNodeFromString: only for texts without `"`, `\`, `<` and `>` (`Plain`): the parsing of
  redirects, which are accepted only at the very end of a text, is not modelled.
- Parse.Parser.CreateOperandsFromString: the same for its pieces.
- Parse.Parser.CreateTreeFromString: the same.
- Parse.CreateArguments: only unquoted arguments; quoted, joined and escaped ones are not modelled. The
  closing null pointer of argv is not represented.
- Parse.CreateSplitForOperator: not for the executable entry of the priority map, whose expression `($)`
  makes the counting loop step over the end of the text (`src/common/my_regex.c:37-39`); the constructor of
  executables gets the whole text, which is that split's first piece.
- BookingMessage.PackPaths: POSIX leaves open what is in the buffer after a failed `getcwd`; here it is as
  before, zeroed.
- Hanging.WhyItHangs: says which ends are held and who writes what; that a reader of a pipe sees no end of file
  while a write end is open is the kernel's part, and so is what a command does until then.
- Booking.SafeTraces: one serving daemon that is not stopped (no double fork, lock file, pid discovery or
  retries), no crashes, no partial writes, no reuse of pids, a message
  queue that is never full (a full one makes the sender wait), and a log is the file its path resolves to.
- Operand arrays of the wired and executed tree are sequences inside the datatype `Node`, so two nodes
  sharing one array cannot be expressed.
- Kernel behaviour behind `fork`, `execvp`, `dup2` and `wait3` (they are events), `rusage` and clock values.
- Closing descriptors in child processes: it uses stored descriptor numbers that may have been reused
  (`src/execute/execute.c:392`); the accounts are those of the parent.
- Output formats, attribute keywords, argument parsing, logging, release of memory: input and output, or
  easy members.
