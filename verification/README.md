# A model of Tornado's runtime and protocol code

This project models the single-threaded, callback-driven core of Tornado and the protocol code that stands on it,
and proves what each part promises over every run. To verify it, run `dafny verify dfyconfig.toml`.

* **Byte streams** (`Bytes`, `ChunkDeque`, `ReadSpec`, `IOStream`): a stream over a socket that may hand out and take
  any segments. Reads depend only on the bytes received, not on how they arrived, and each gives its callbacks exactly
  what it asked for; writes lose, repeat and reorder nothing, and their callbacks run once all has been sent; a close
  callback runs at most once, and the last one registered before closing is never lost.
* **Event loop** (`WakeUp`, `Timeouts`): the callback queue and the waker pipe under any interleaving with other
  threads; timeouts in a heap from which cancelled entries are dropped lazily.
* **Coroutines** (`Runner`, `RunnerResults`): a generator driven by callbacks that arrive in any order, or while it is
  running. What it is sent is determined by what each callback is given, and said for each kind of yield point.
* **Stack contexts** (`StackContext`): captured chains share nodes whose parent links are spliced in place; a wrapped
  call enters and leaves the contexts of its chain.
* **Templates** (`TemplateAst`, `TemplateParser`, `TemplatePrinter`, `TemplateDirectives`, `PythonCode`, `Control`,
  `ControlTraces`, `TemplateCompiler`, `TemplateInheritance`, `TemplateLoops`, `TemplateMeaning`, `TemplateOutputs`,
  `TemplateDepth`, `TemplateGrounded`): parser, block inheritance, the writer of indented Python, and a proof that
  running the lines, nested by their indentation alone, gives what rendering the tree gives; and what each construct
  puts out.
* **WebSocket** (`WebSocketFrames`, `WebSocketRules`, `WebSocket`): the frame format both ways, assembly of messages,
  which frames end the connection, the closing handshake; sections 5.2 to 5.7 of RFC 6455.
* **HTTP** (`ChunkedFraming`, `ResponseBody`, `KeepAlive`, `ClientQueue`, `HeaderText`, `HTTPHeaders`, `Entities`,
  `Ranges`): from the writes of a handler to the body the client hands over (section 3.6.1 of RFC 2616), one response at
  a time on a kept-alive connection, the client's bounded scheduler, the header store, HTML escaping, byte ranges
  (section 14.35 of RFC 2616).

Where the source updates an object, the model is a class whose methods are proved against functions of the old state.
Sockets, clocks, user callbacks and the embedded Python of templates are the environment: they do anything their
interface allows. Two cores in which properties span several objects keep their bookkeeping in ghost fields.

## What turned out to be weaker than it looks

* A stack context that is deactivated while the wrapped function runs, and pruned by another wrapped call on the same
  chain, is entered but never left when the function then raises (`SkippedExit`). `Balanced` says exactly when every
  context is left: if nothing raises, or if none of those entered has been spliced out of the parent links by the time
  that the exception gets there.
* The parser lets `break` and `continue` stand in the else clause of a loop, and in a block that stands in a loop of its
  own template; Python refuses either when no loop is around it in the generated code. `CompiledLoops` says exactly
  which jumps Python accepts.
* A suffix range longer than the file raises, and a range that ends before it starts is served as something else than
  the standard asks for; `ServedAsAsked` says that these are the only cases.
* A 204 that the handler flushes before it finishes is sent in chunks, and the client refuses it; `NoContent` says that
  one without a body that is sent at once is the only kind it accepts.
* `_cancellations` may exceed the number of cancelled entries in the heap, since `remove_timeout` counts handles that
  have fired or were cancelled before; it is never less.
* `_double_prefix` would not make progress on two empty chunks (`DoublePrefixStalls`); no buffered chunk is ever empty.
* `_parse_request_range`, `HTTPHeaders` and the parser treat white space as Python does, which is more than the ASCII
  white space their documentation speaks of.

## Model

| member | source | states |
|---|---|---|
| ChunkDeques.ChunkDeque.MergePrefix | tornado/iostream.py:1185-1223 | the deque is re-cut so that its first chunk is the first `size` bytes, or everything; the bytes and their order stay, and no empty chunk appears |
| ChunkDeques.ChunkDeque.PopUpTo | tornado/iostream.py:1211-1216 | one step of the merge takes at most what is wanted and leaves the rest in front |
| ChunkDeques.ChunkDeque.DoublePrefix | tornado/iostream.py:1176-1182 | without empty chunks the first chunk grows strictly, so the search for a delimiter ends |
| ChunkDeques.DoublePrefixStalls | tornado/iostream.py:1176-1182 | with two empty chunks in front nothing changes |
| ReadSpec.ServeMore | tornado/iostream.py:579-659 | more input never changes an answer that plain reads have been given |
| ReadSpec.ServeSnoc | tornado/iostream.py:579-659 | serving one request more starts where the earlier ones stopped |
| ReadSpec.TakeMeans | tornado/iostream.py:579-659 | a plain read takes the bytes up to and including the first occurrence of its delimiter, or exactly as many as it asks for |
| IOStreams.BaseIOStream.RunCallback | tornado/iostream.py:395-427 | a read or streaming callback is queued last, one more callback is pending, and what it is given counts as delivered |
| IOStreams.BaseIOStream.RunWriteCallback | tornado/iostream.py:395-427 | the same for a write callback |
| IOStreams.BaseIOStream.RunCloseCallback | tornado/iostream.py:297-304 | the close callback is queued only when nothing is pending, and counts as scheduled for the registration that gave it |
| IOStreams.BaseIOStream.Consume | tornado/iostream.py:715-728 | exactly the first bytes leave the buffer, to be given to a callback |
| IOStreams.BaseIOStream.MaybeRunCloseCallback | tornado/iostream.py:297-306 | the close callback is scheduled exactly when the stream is closed and nothing is pending, and then forgotten |
| IOStreams.BaseIOStream.FinishReadUntilClose | tornado/iostream.py:280-289 | what is buffered goes to the streaming and read callbacks, in that order, before the stream closes |
| IOStreams.BaseIOStream.Close | tornado/iostream.py:267-295 | the stream is closed; a close callback is kept if callbacks are pending and scheduled otherwise; a plain stream keeps what is buffered |
| IOStreams.BaseIOStream.ReadToBuffer | tornado/iostream.py:542-577 | one receive: bytes are appended to the buffer, or the stream closes at end of file, reset, error or overflow |
| IOStreams.BaseIOStream.FillBuffer | tornado/iostream.py:509-530 | reading goes on until the socket has nothing more, and no close callback is scheduled meanwhile |
| IOStreams.BaseIOStream.SearchBuffer | tornado/iostream.py:621-644 | the first occurrence of the delimiter in all that is buffered is found across chunks |
| IOStreams.BaseIOStream.Stream | tornado/iostream.py:601-610 | streaming gives what is buffered, up to what the read still wants |
| IOStreams.BaseIOStream.Complete | tornado/iostream.py:611-618 | a completed read is given exactly its bytes and its mode is reset |
| IOStreams.BaseIOStream.ReadFromBuffer | tornado/iostream.py:579-659 | the pending read is answered if the buffer allows it, and otherwise cannot be answered from it |
| IOStreams.BaseIOStream.MaybeAddErrorListener | tornado/iostream.py:734-741 | an idle open stream is registered with the loop; an idle closed one schedules its close callback |
| IOStreams.BaseIOStream.AddIoState | tornado/iostream.py:743-782 | the wanted events are added to the registered ones |
| IOStreams.BaseIOStream.TryInlineRead | tornado/iostream.py:478-540 | a read is answered at once, or waits registered or with a callback to come |
| IOStreams.BaseIOStream.ReadUntil | tornado/iostream.py:163-179 | a second read is refused without effect; otherwise the request joins the sequence that is served from one byte string, and this callback is the one that waits for it |
| IOStreams.BaseIOStream.ReadBytes | tornado/iostream.py:181-193 | the same for a fixed count |
| IOStreams.BaseIOStream.Drain | tornado/iostream.py:214-222 | on a closed stream everything buffered goes to its callbacks |
| IOStreams.BaseIOStream.ReadUntilClose | tornado/iostream.py:195-225 | a second read is refused without effect; an open stream afterwards holds exactly these two callbacks, or has been closed and has given them everything; a closed one gives them everything at once |
| IOStreams.BaseIOStream.BufferWrite | tornado/iostream.py:239-251 | data is buffered in order, never as an empty piece |
| IOStreams.BaseIOStream.WriteToFd | tornado/iostream.py:899-900 | an attempt is non-empty, at most 128 KB, and the same bytes as before while the buffer is frozen |
| IOStreams.BaseIOStream.SendOnce | tornado/iostream.py:661-706 | what was sent leaves the buffer; an attempt without progress freezes it |
| IOStreams.BaseIOStream.HandleWrite | tornado/iostream.py:661-713 | bytes accepted are bytes sent followed by the buffer; the write callback is scheduled exactly when that is empty, and held otherwise |
| IOStreams.BaseIOStream.Write | tornado/iostream.py:227-261 | an open stream accepts all the data and stays registered for writing while some is left; its callback is held as long, and scheduled if nothing is left; a closed one raises without effect |
| IOStreams.BaseIOStream.HandleRead | tornado/iostream.py:429-471 | readiness to read keeps every invariant |
| IOStreams.BaseIOStream.HandleEvents | tornado/iostream.py:335-393 | afterwards an open stream is registered for exactly what it waits for, or has its close queued after an error; a write callback is scheduled exactly if everything has been sent |
| IOStreams.BaseIOStream.SetCloseCallback | tornado/iostream.py:263-265 | a new registration replaces the old |
| IOStreams.BaseIOStream.CloseNow | tornado/iostream.py:267-295 | a close callback that is held is scheduled now or kept, with a callback pending to wait for |
| IOStreams.BaseIOStream.BeginTask | tornado/iostream.py:396-399 | a wrapper taken off the loop's queue is no longer pending |
| IOStreams.BaseIOStream.EndTask | tornado/iostream.py:398-411 | an exception of the callback closes the stream; otherwise it is registered again or its close callback scheduled |
| IOStreams.SegmentationIndependence | tornado/iostream.py:542-659 | two streams with the same plain reads give the same answers and hold the same rest after the same bytes, in whatever segments these came; the read callbacks run and queued are given just these answers |
| IOStreams.ServedInFull | tornado/iostream.py:579-659 | results and buffer of an open stream are those of serving its requests from one byte string, and each result is given to the callback of its request |
| IOStreams.AllIsDelivered | tornado/iostream.py:715-728 | for any kind of read: what callbacks have been given, run or queued, followed by what is buffered, is what came in |
| IOStreams.UntilCloseGetsAll | tornado/iostream.py:280-289 | in every state: a read until close is pending with its own callbacks while the stream is open; once it is closed they have been given, the streaming one first and the other last and once, all that had not been delivered before the read and all that came after |
| IOStreams.CountedGetsAll | tornado/iostream.py:601-618 | a read of so many bytes that has been answered, streaming or not, has given its own callbacks exactly the next so many bytes |
| IOStreams.UptoGetsThat | tornado/iostream.py:621-644 | a read up to a delimiter that has been answered, after reads of any kind, has given its own callback exactly the next bytes up to the first delimiter |
| IOStreams.ReadToTheEnd | tornado/iostream.py:195-225 | a read until close, and then anything that may happen to the stream: once it is closed its callbacks have been given everything that was buffered at the call and everything received after it |
| IOStreams.WriteToTheEnd | tornado/iostream.py:661-713 | a write, and then anything but another write: on an open stream its callback is held until all that was accepted has been sent, and has then been scheduled, once |
| IOStreams.QuiescentCloseRan | tornado/iostream.py:297-306 | once a closed stream has no callback left on the loop, the close callback registered last before has been scheduled and run |
| WakeUp.WakeUpKept | tornado/ioloop.py:733-834 | each step of the loop or of another thread keeps: a loop about to sleep with callbacks queued, or stopped, has a byte in the pipe or a thread about to write one |
| WakeUp.OrderKept | tornado/ioloop.py:745-754 | each step keeps the order of callbacks and the iteration in which each is to run |
| WakeUp.Safety | tornado/ioloop.py:889-903 | both hold in every state of every run, with any number of threads |
| WakeUp.QuietPollReturns | tornado/ioloop.py:784-810 | with no thread inside `add_callback` or `stop`, a loop that sleeps with work to do has a byte to read |
| WakeUp.HistoriesAreCalls | tornado/ioloop.py:889-903 | over every run: what has been queued are the callbacks of the calls made while the loop was not closing, each in the iteration of its call, and what has been run are the callbacks of the steps that run one |
| WakeUp.ExecutedIsPrefix | tornado/ioloop.py:740-754 | the callbacks run are the first of those that calls have added, in that order, each in the iteration after its call |
| WakeUp.NoCallLost | tornado/ioloop.py:745-754 | a callback added by a call has been run or waits, in the order of the calls; once the loop is in the iteration after the next it has been run |
| WakeUp.LoopGoesOn | tornado/ioloop.py:733-834 | the loop's own thread has a step to take in every phase |
| Timeouts.RootIsLeast | tornado/ioloop.py:948-954 | the first entry of a heap has the least deadline, and the least identity among those with the same |
| Timeouts.TimeoutQueue.AddTimeout | tornado/ioloop.py:875-878 | a new live timeout is queued |
| Timeouts.TimeoutQueue.RemoveTimeout | tornado/ioloop.py:880-887 | the timeout is no longer live; any handle may be removed, even twice |
| Timeouts.TimeoutQueue.DropRoot | tornado/ioloop.py:762-765 | a cancelled entry leaves the heap without running, and the counter stays at least the number of those left |
| Timeouts.TimeoutQueue.FireRoot | tornado/ioloop.py:767-769 | what fires is live, due, and least of all that is queued |
| Timeouts.TimeoutQueue.Compact | tornado/ioloop.py:774-781 | compaction keeps the live timeouts and the heap order |
| Timeouts.TimeoutQueue.RunTimeouts | tornado/ioloop.py:758-781 | none fires before its deadline or twice; what was withdrawn stays so; none is lost; the poll timeout is exactly the time to the earliest live deadline, at most an hour; it goes on while entries are due or cancelled, up to the given number |
| Timeouts.RemovedNeverFires | tornado/ioloop.py:758-765 | a live timeout that is removed never fires, over any number of later iterations |
| Runners.ListOrder | tornado/gen.py:425-426 | the results of a list are those of its children, in their order |
| Runners.LogGrows | tornado/gen.py:483-540 | a longer run extends what was sent before, and a finished one stays as it is |
| Runners.Runner.RegisterCallback | tornado/gen.py:461-465 | a pending key is refused, any other becomes pending |
| Runners.Runner.IsReady | tornado/gen.py:467-471 | the keys of a yield point are looked at in order, up to an unknown or missing one |
| Runners.Runner.PointIsReady | tornado/gen.py:398-424 | a list is ready exactly when all its children are, in whatever order they are looked at |
| Runners.Runner.PopResult | tornado/gen.py:478-481 | the answer is handed out once and its key forgotten |
| Runners.Runner.PointResult | tornado/gen.py:305-343 | the value of the yield expression depends on the answers only |
| Runners.Runner.StartYielded | tornado/gen.py:523-535 | what was yielded is started; an error is kept for the generator |
| Runners.Runner.Resume | tornado/gen.py:498-522 | one pass of the generator is one step of the run in which every answer is there when needed |
| Runners.Runner.Turn | tornado/gen.py:488-535 | a pass either waits for a missing answer or takes that step |
| Runners.Runner.Run | tornado/gen.py:483-540 | when `run` returns with the generator unfinished, an answer it needs is missing: no resume is lost; a pending exception is thrown first |
| Runners.Runner.SetResult | tornado/gen.py:473-476 | a callback that arrives while the generator runs is only stored; otherwise it goes on as far as it can |
| Runners.Runner.HandleException | tornado/gen.py:553-559 | an exception from outside is thrown into a generator that waits, before anything else, and refused otherwise |
| Runners.Confluence | tornado/gen.py:443-559 | two runs with the same answers, in whatever order these came, send the same to the generator and finish alike |
| RunnerResults.NextIsSent | tornado/gen.py:488-511 | after a yield, what the following lemmas say is sent or thrown is what the generator is resumed with |
| RunnerResults.CallbackIsGiven | tornado/gen.py:298-307 | a `Callback` gives the callback of its key, or an error if the key is pending |
| RunnerResults.WaitGetsItsAnswer | tornado/gen.py:309-321 | a `Wait` is sent the answer of its own registration, whose key is forgotten; an unknown key is an error |
| RunnerResults.TaskGetsItsAnswer | tornado/gen.py:366-377 | a `Task` is sent what its own callback was called with; what starting it raises is thrown |
| RunnerResults.FutureGetsItsAnswer | tornado/gen.py:385-395 | a future gives its result or throws its exception |
| RunnerResults.PopInOrder | tornado/gen.py:341-342 | popping keys gives the answer of each in their order, exactly if all are there and none is listed twice |
| RunnerResults.WaitAllInOrder | tornado/gen.py:324-342 | `WaitAll` is sent the answers of its keys, one for each and in their order |
| RunnerResults.WaitAllIsListOfWaits | tornado/gen.py:327-330 | it is sent what the list of the `Wait`s for the same keys is sent, errors included |
| RunnerResults.TasksInOrder | tornado/gen.py:415-426 | a list of tasks is sent their answers in order |
| RunnerResults.FuturesInOrder | tornado/gen.py:415-426 | a list of futures is sent their results in order, or the exception of the first that failed is thrown |
| RunnerResults.ListStopsAtError | tornado/gen.py:415-417 | if starting a child raises, that is thrown and no later child is started |
| RunnerResults.OtherIsAnError | tornado/gen.py:533-535 | anything else that is yielded is an error thrown into the generator |
| RunnerResults.HowItEnds | tornado/gen.py:506-522 | a generator that returns is done, unless callbacks are left over and nothing was ever thrown into it; one that raises has failed with that |
| StackContexts.Splice | tornado/stack_context.py:237-248 | letting a node skip a dead parent only takes dead nodes out of any chain, and keeps chains acyclic |
| StackContexts.State.SkipParents | tornado/stack_context.py:241-246 | a node's parent is active or none afterwards |
| StackContexts.State.PruneChain | tornado/stack_context.py:237-248 | every node of the chain is active afterwards |
| StackContexts.State.RemoveDeactivated | tornado/stack_context.py:227-250 | the new chain is the active part of the captured one, the stack agrees with it, and no other chain loses an active context |
| StackContexts.State.Deactivate | tornado/stack_context.py:113-114 | a context becomes inactive and nothing else changes |
| StackContexts.State.Enter | tornado/stack_context.py:129-140 | the new context is on top of the current ones |
| StackContexts.State.Leave | tornado/stack_context.py:142-150 | the contexts of before are back |
| StackContexts.State.EnterNull | tornado/stack_context.py:219-221 | there are no contexts |
| StackContexts.State.Wrap | tornado/stack_context.py:253-267 | the callable captures the current contexts |
| StackContexts.State.HandleException | tornado/stack_context.py:351-361 | from the tail outwards each context is left or asked in turn, with the exception its predecessor let out |
| StackContexts.State.ExitStack | tornado/stack_context.py:321-338 | contexts are left in reverse order; if one raises, the rest of the chain handles that |
| StackContexts.State.Call | tornado/stack_context.py:269-346 | the active contexts of the captured chain are entered in order and unwound outwards, along the tuple unless something raises and from there on along the parent links as they are during the call; the caller's contexts are back afterwards |
| StackContexts.UnwindsExits | tornado/stack_context.py:351-361 | each stack context that is passed is left exactly once, in the order of the chain |
| StackContexts.UnwindsThread | tornado/stack_context.py:351-361 | once a handler returns true no outer one sees the exception; one that a handler raises carries on outwards |
| StackContexts.UnwindsAt | tornado/stack_context.py:351-361 | at each context of the chain: a stack context is left and told of the exception that came up to it, a handler is asked about it, and passed over if there is none; an exception is replaced by one that is raised and stopped by a handler that returns true |
| StackContexts.Balanced | tornado/stack_context.py:296-340 | all contexts entered are left once, in reverse order, if and only if nothing raises or none of them has been spliced out of the links that the exception follows |
| StackContexts.LeftUnlessSplicedOut | tornado/stack_context.py:318-338 | the same for each context: it is skipped exactly if it was spliced out |
| StackContexts.WalkVisits | tornado/stack_context.py:351-359 | on the exception path exactly the contexts are left that can be reached when it starts and are not cut off while others are being left |
| StackContexts.BalancedIfNothingRaises | tornado/stack_context.py:321-334 | a call in which nothing raises leaves every context it entered, even one deactivated meanwhile |
| StackContexts.BalancedIfActive | tornado/stack_context.py:296-340 | so does any call at whose end all contexts entered are still active |
| StackContexts.BalancedCall | tornado/stack_context.py:269-346 | `Balanced` and `BalancedIfNothingRaises` for any wrapped call in any state, with the contexts and links of that call |
| StackContexts.ActiveAreLeft | tornado/stack_context.py:296-340 | in any case those still active are left, once, in reverse order, and none that was not entered |
| StackContexts.SkippedExit | tornado/stack_context.py:308-316 | a context deactivated and spliced out during the call is not left when the function raises: a run in which the condition of `Balanced` fails |
| TemplateParser.TemplateReader.Find | tornado/template.py:638-650 | positions are relative to the reader's |
| TemplateParser.TemplateReader.Consume | tornado/template.py:652-659 | text is taken in order and the line is always one plus the newlines before the position |
| TemplateParser.TemplateReader.SeekTag | tornado/template.py:697-719 | the next directive is found; of several braces the innermost count |
| TemplateParser.TemplateReader.ReadDirective | tornado/template.py:721-828 | one directive is read, the position moves past its opening tag |
| TemplateParser.TemplateReader.ParseDirective | tornado/template.py:721-861 | one pass of the loop agrees with the grammar, and the position strictly increases |
| TemplateParser.TemplateReader.ParseChunks | tornado/template.py:693-861 | the parser with its position and lists computes the grammar on what is left of the text |
| TemplatePrinter.ParsePrint | tornado/template.py:693-861 | parsing a printed list of nodes gives the nodes back and goes on with what follows |
| TemplatePrinter.RoundTrip | tornado/template.py:693-861 | parsing a printed template gives its chunks and its autoescape setting |
| TemplatePrinter.EscapedIsLiteral | tornado/template.py:729-736 | any text, with `!` after each opening tag in it, parses to text chunks that together are the text |
| TemplatePrinter.ParsedIsPlaced | tornado/template.py:772-787 | the parser puts intermediate statements only directly inside control blocks that may have them |
| TemplatePrinter.ParsedIsWellFormed | tornado/template.py:772-787 | what it returns is well formed exactly when the clauses are in an order Python accepts |
| TemplateDirectives.LeafDirective | tornado/template.py:772-830 | word by word, in any block and loop: which clauses attach to which blocks, what end, comment, import, from, set, raw, module, break and continue give, and when they are errors |
| TemplateDirectives.NamingDirective | tornado/template.py:799-813 | include and extends name a template, in quotes or not; without a name they are errors |
| TemplateDirectives.BlockDirective | tornado/template.py:832-852 | a block holds what is parsed up to its end, with break and continue allowed in loops and not in apply; apply and block need a name |
| TemplateDirectives.AutoescapeDirective | tornado/template.py:818-823 | the setting is the word given, or none for None; of several the last is the template's |
| TemplateDirectives.UnknownDirective | tornado/template.py:860-861 | any other word is an error |
| TemplateDirectives.CommentAndExpression | tornado/template.py:739-763 | a comment is left out; an expression between double braces is kept, to be escaped |
| PythonCode.ParseLayout | tornado/template.py:592-628 | code laid out by indentation is read back as it was, whatever dedented lines follow |
| PythonCode.ParseLayoutClauses | tornado/template.py:503-519 | each clause of a compound statement goes back to its own header |
| TemplateCompiler.LinesOfSuite | tornado/template.py:419-428 | the lines written chunk by chunk are the layout of the statements they mean |
| TemplateCompiler.LinesOfControl | tornado/template.py:494-519 | a control block with its intermediate statements written one level back is the layout of one compound statement |
| TemplateCompiler.CodeWriter.GenerateAll | tornado/template.py:423-425 | writing a chunk list appends exactly its lines, and indentation and nesting are as before |
| TemplateCompiler.CodeWriter.GenerateNode | tornado/template.py:441-571 | the same for each kind of node |
| TemplateCompiler.CodeWriter.GenerateControl | tornado/template.py:503-509 | header, indented body, and a pass so that no suite is empty |
| TemplateCompiler.CodeWriter.GenerateExpression | tornado/template.py:537-547 | value, coercion to text, escaping unless raw or switched off, append |
| TemplateCompiler.CodeWriter.GenerateIncluded | tornado/template.py:466-469 | an include is written under the included template and the writer's template is restored |
| TemplateCompiler.CodeWriter.GenerateApply | tornado/template.py:481-491 | an apply block becomes a function with its own number and a call of the filter on its text |
| TemplateInheritance.DefineLooksUpLast | tornado/template.py:446-448 | the table of blocks holds the last definition of each name |
| TemplateInheritance.NamedBlocks.FindAll | tornado/template.py:396-398 | the table is filled in the order of the visit |
| TemplateInheritance.NamedBlocks.FindIn | tornado/template.py:446-464 | the same for each node, through includes |
| TemplateInheritance.GetAncestors | tornado/template.py:291-300 | a template followed by all it extends, nearest first |
| TemplateInheritance.BlocksResolveToNearest | tornado/template.py:275-287 | a block comes from the nearest template of the chain that defines it |
| TemplateInheritance.GeneratePython | tornado/template.py:275-289 | the lines are the layout of the module that the chain of templates compiles to |
| TemplateInheritance.GenerateFile | tornado/template.py:407-413 | they define `_tt_execute` around the frame of the farthest ancestor |
| TemplateMeaning.CompiledParses | tornado/template.py:407-547 | the indentation of the lines is legal and alone gives back the module: no suite empty, each clause with its own header; jumps are legal exactly if they are in loops once blocks are resolved |
| TemplateMeaning.CompilerCorrect | tornado/template.py:407-547 | running the lines gives exactly what rendering the tree gives, for every template and every behaviour of the embedded Python, unless resolving blocks puts a jump outside of all loops, which Python refuses |
| TemplateLoops.CompiledLoops | tornado/template.py:830-858 | Python accepts the jumps of the module if and only if they stand in loops of the template with its blocks resolved |
| TemplateLoops.JumpInElse | tornado/template.py:854-858 | a break in the else clause of a loop is refused by Python |
| TemplateLoops.JumpInBlock | tornado/template.py:441-444 | so is one in a block that the child of two templates puts into a frame outside of any loop |
| TemplateLoops.ChildResolves | tornado/template.py:275-300 | the child's block goes into the frame of the base |
| TemplatePrinter.BreakInElseParses | tornado/template.py:832-858 | the parser accepts a break in the else clause of a loop |
| TemplatePrinter.BreakInBlockParses | tornado/template.py:838-858 | and one in a block inside a loop |
| TemplateMeaning.SuiteSame | tornado/template.py:419-428 | the same for any chunk list, in any state of the run |
| TemplateMeaning.ControlSame | tornado/template.py:494-519 | the same for if, for, while and try with their clauses, including break, continue and exceptions |
| TemplateMeaning.ApplySame | tornado/template.py:472-491 | the same for a filter applied to a block |
| ControlFlow.SameControl | tornado/template.py:494-519 | compound statements with bodies of the same effect have the same effect |
| ControlTraces.IfClauses | tornado/template.py:773-778 | if may be followed by elif clauses and at most one else, last |
| ControlTraces.LoopClauses | tornado/template.py:773-778 | a loop by at most an else |
| ControlTraces.TryClauses | tornado/template.py:773-778 | try by except clauses, after at least one of them else, and then finally |
| ControlTraces.IfRuns | tornado/template.py:503-509 | the clause of an if that runs is the first whose condition holds, tested in order |
| ControlTraces.ForRuns | tornado/template.py:503-509 | after any number of rounds a for loop ends by its else clause when the elements are used up, by break without it, by an error or a return with that |
| ControlTraces.WhileRuns | tornado/template.py:503-509 | the same for while |
| ControlTraces.TryElse | tornado/template.py:503-509 | a try whose body ends normally goes on with its else clause; a jump or return goes on outwards |
| ControlTraces.TryExcept | tornado/template.py:503-509 | if its body raises, the first except clause that takes the error runs, and otherwise the error goes on |
| ControlTraces.FinallyRuns | tornado/template.py:503-509 | with finally: the same as without it, and then that clause in any case, whose own signal prevails |
| TemplateOutputs.OneExpression | tornado/template.py:537-547 | for every expression, filter and behaviour of the embedded Python: a template that is one expression puts out the shown value, through the filter of its own setting unless it is raw or the setting is None |
| TemplateOutputs.IncludeRunsIt | tornado/template.py:466-469 | a template that only includes another compiles to the same module as that one |
| TemplateOutputs.IncludedExpression | tornado/template.py:466-469 | an expression in an included template follows the setting of that template |
| TemplateOutputs.ExtendsIsTheBase | tornado/template.py:275-300 | a template that only extends another compiles to the same module as that one |
| TemplateOutputs.OverridingExpression | tornado/template.py:441-444 | an expression in a block that a child puts into its base follows the setting of the child |
| TemplateOutputs.InheritedExpression | tornado/template.py:441-444 | one in a block that nothing overrides follows the setting of the base, also when a child extends it |
| TemplateOutputs.InOrder | tornado/template.py:423-425 | text and an expression come out in the order in which they stand |
| TemplateOutputs.OneStatement | tornado/template.py:527-528 | a statement runs and puts nothing out; break and continue outside of a loop are refused |
| TemplateOutputs.ApplyFilters | tornado/template.py:481-491 | an apply block looks its filter up, runs its content, any template, in a scope of its own, and puts out what the filter makes of that text |
| TemplateOutputs.IfElifElse | tornado/template.py:503-519 | if, elif and else: the conditions are tested in order, and the expression under the first that holds is shown |
| TemplateOutputs.ForRepeats | tornado/template.py:503-509 | text in a for loop comes out once for each element |
| TemplateDepth.CompiledMore | tornado/template.py:275-289 | the bound on nesting only cuts off; what a template compiles to does not depend on it |
| TemplateGrounded.AcyclicCompiles | tornado/template.py:275-300 | with acyclic references, all templates present and nothing extended below the top level, compilation succeeds within a bound given by the ranks |
| TemplateGrounded.ChainCovers | tornado/template.py:282-283 | every block that can be reached while writing is in the table: no lookup of a block fails |
| WebSocketFrames.ApplyMask | tornado/websocket.py:665-676 | the loop over the array computes the mask |
| WebSocketFrames.MaskedTwice | tornado/websocket.py:665-676 | masking twice gives the data back |
| WebSocketFrames.NumberOfBigEndian | tornado/websocket.py:571-577 | lengths of two and eight bytes are read as they were written |
| WebSocketFrames.FrameRoundTrip | tornado/websocket.py:561-582 | reading a written frame gives opcode, fin bit and payload back, for every length below 2^64 and with or without a mask |
| WebSocketFrames.ReadFramePrefix | tornado/websocket.py:608-679 | a frame is read off the front whatever follows |
| WebSocketFrames.CutIsUnique | tornado/websocket.py:602-606 | bytes that are written frames can be cut in one way, into those frames |
| WebSocketFrames.CutIsPrefix | tornado/websocket.py:602-606 | the beginning of written frames is cut into the first of them, and the rest belongs to the others |
| WebSocketFrames.Reassembly | tornado/websocket.py:681-713 | however a message is fragmented, with pings and pongs between, exactly its payload is handed over under the first opcode |
| WebSocketRules.WhatFramesAmountTo | tornado/websocket.py:681-744 | whatever the frames are: the connection is over exactly if one of them is a close frame, a fragmented or reserved control frame, a continuation of nothing, a new message inside another, or completes a message that is no UTF-8 text or of a reserved kind; handed over are the messages and pongs complete before the first such frame |
| WebSocketRules.NothingAfter | tornado/websocket.py:681-744 | after such a frame nothing more is handed over, whatever follows |
| WebSocketRules.NothingAfterClose | tornado/websocket.py:733-736 | in particular after a close frame |
| WebSocketRules.RefusedHeaders | tornado/websocket.py:608-622 | a header is refused exactly for a reserved bit or for a control frame with an extended length |
| WebSocketRules.BigEndianBytes | tornado/websocket.py:571-577 | lengths are written with the highest byte first |
| WebSocketRules.HelloPlain | tornado/websocket.py:561-582 | the unmasked examples of section 5.7 of RFC 6455, byte by byte |
| WebSocketRules.HelloMasked | tornado/websocket.py:665-676 | the masked one |
| WebSocketRules.LongHeaders | tornado/websocket.py:571-577 | those of 256 bytes and of 64 KiB |
| WebSockets.WebSocketProtocol13.Pack | tornado/websocket.py:561-581 | the bytes built step by step are those of the frame |
| WebSockets.WebSocketProtocol13.WriteFrame | tornado/websocket.py:561-582 | a closed stream refuses the frame, an open one takes exactly its bytes |
| WebSockets.WebSocketProtocol13.WriteMessage | tornado/websocket.py:584-595 | on an open stream the message is written as one frame; on a closed one the connection is aborted |
| WebSockets.WebSocketProtocol13.WritePing | tornado/websocket.py:597-600 | on an open stream the ping is written as one frame; on a closed one it raises |
| WebSockets.WebSocketProtocol13.Abort | tornado/websocket.py:313-318 | both sides are done, the stream is closed, no timer is held, and nothing more is written |
| WebSockets.WebSocketProtocol13.Close | tornado/websocket.py:746-761 | a close frame goes out the first time only; then the connection is gone or a timer is held |
| WebSockets.WebSocketProtocol13.Received | tornado/websocket.py:602-679 | whatever the stream delivers becomes part of the frames or of the next one; nothing is handed over or written after the client is done |
| WebSockets.WebSocketProtocol13.HandleFrameStart | tornado/websocket.py:608-636 | exactly reserved bits and long control frames abort; otherwise the next part of the frame is read |
| WebSockets.WebSocketProtocol13.HandleLength | tornado/websocket.py:638-656 | the extended length is taken and the key or the payload is read next |
| WebSockets.WebSocketProtocol13.HandleMaskingKey | tornado/websocket.py:658-663 | the key is kept and the payload is read next |
| WebSockets.WebSocketProtocol13.HandleFrameData | tornado/websocket.py:681-716 | the frame read is exactly the one on the wire; it is added to what came before, and the next is awaited, unless it ends the connection or that is given up |
| WebSockets.WebSocketProtocol13.Collect | tornado/websocket.py:681-710 | fragments are kept apart from control frames; a misplaced frame is refused |
| WebSockets.WebSocketProtocol13.HandleMessage | tornado/websocket.py:718-744 | messages and pongs are handed over, a ping is answered with its own data, a close ends the connection, bad text and unknown opcodes abort |
| WebSockets.MessageDelivered | tornado/websocket.py:561-744 | if what came in is a peer's fragmented message, with pings and pongs between, exactly that is handed over |
| WebSockets.EndToEnd | tornado/websocket.py:561-744 | such a message, written to the wire and arriving in any pieces, is handed over and the connection stays open, unless the stream fails or the application gives up |
| WebSockets.NotDone | tornado/websocket.py:608-622 | a peer that keeps to the rules gives no reason to end the connection |
| WebSockets.EndedIsGone | tornado/websocket.py:733-761 | once a frame that ends the connection has been read, both sides are done, the stream is closed and no timer is held |
| WebSockets.Conversation | tornado/websocket.py:561-761 | any frames of a peer, in any pieces: unless the stream fails or the application gives up, exactly the messages and pongs before the first frame that ends the connection are handed over, and the connection is gone exactly if there is one |
| ChunkedFraming.HexRoundTrip | tornado/web.py:2477 | a length written in hexadecimal is read back |
| ChunkedFraming.HexDigits | tornado/simple_httpclient.py:461 | the digits, in either case, and nothing else |
| ChunkedFraming.ParseHexAnyCase | tornado/simple_httpclient.py:461 | a length may be written in either case and with leading zeros |
| ChunkedFraming.DecodeChunks | tornado/simple_httpclient.py:459-492 | whatever blocks were written, the reader of chunks recovers their concatenation |
| ResponseBody.RequestHandler.Write | tornado/web.py:549-572 | data is appended, or refused after finish |
| ResponseBody.RequestHandler.Flush | tornado/web.py:725-763 | headers go out once; the body sent stays framed as they say |
| ResponseBody.RequestHandler.TransformFirstChunk | tornado/web.py:2460-2470 | chunking starts exactly without a length, another coding or a 304 |
| ResponseBody.RequestHandler.TransformChunk | tornado/web.py:2472-2480 | a block becomes one chunk, an empty one none, the end the last chunk |
| ResponseBody.RequestHandler.Finish | tornado/web.py:765-818 | a second finish raises; otherwise exactly one head has gone out and the response has ended, without a body for a 304 that is sent at once |
| ResponseBody.HTTPConnection.OnHeaders | tornado/simple_httpclient.py:339-398 | the head decides what is read: nothing, chunks, a length, or until close |
| ResponseBody.HTTPConnection.OnChunkLength | tornado/simple_httpclient.py:459-481 | a zero ends the body, a bad number fails, any other asks for that many bytes |
| ResponseBody.HTTPConnection.OnChunkData | tornado/simple_httpclient.py:483-492 | a chunk without its line end fails, any other is kept |
| ResponseBody.HTTPConnection.Receive | tornado/simple_httpclient.py:353-492 | reading step by step, as the stream answers, gives what the head says the bytes are; what arrives later is dealt with as if it had arrived together |
| ResponseBody.HTTPConnection.ReceiveAll | tornado/simple_httpclient.py:353-492 | however the bytes are cut into pieces, the result is that of all of them at once |
| ResponseBody.BodyArrives | tornado/web.py:725-818 | for any writes and flushes, what was sent decodes to the concatenation of all writes |
| ResponseBody.HeadHasNoBody | tornado/simple_httpclient.py:374-378 | the answer to HEAD has no body, whatever was written, and takes nothing of what follows |
| ResponseBody.NotModifiedHasNoBody | tornado/simple_httpclient.py:374-378 | a 304 is read as one without a body |
| ResponseBody.NoContent | tornado/simple_httpclient.py:379-389 | a 204 is accepted exactly if nothing was written and it was sent at once; one in chunks is refused |
| ResponseBody.EndToEnd | tornado/simple_httpclient.py:353-492 | server and client together, with the bytes arriving in any pieces: the body handed over is what the handler wrote |
| KeepAlive.HTTPConnection.Write | tornado/httpserver.py:296-301 | what is written is sent or waits with a run of `_on_write_complete` to come |
| KeepAlive.HTTPConnection.Finish | tornado/httpserver.py:303-310 | the request is concluded at once only with an empty write buffer |
| KeepAlive.HTTPConnection.OnWriteComplete | tornado/httpserver.py:312-326 | however old the callback, with an empty buffer all finished requests are concluded afterwards; the connection is closed only if sending fails or the request's headers say so |
| KeepAlive.HTTPConnection.FinishRequest | tornado/httpserver.py:328-360 | the next request is read, or the connection ends, exactly as the request asks: on HTTP/1.1 it ends on `Connection: close` only, on HTTP/1.0 it is kept on `Connection: keep-alive` only and if the end of the request could be told |
| KeepAlive.WhenItEnds | tornado/httpserver.py:328-345 | these cases on their own |
| KeepAlive.HTTPConnection.OnHeaders | tornado/httpserver.py:364-475 | a bad request ends the connection; a request with a body waits for it; any other is handed over |
| KeepAlive.HTTPConnection.OnRequestBody | tornado/httpserver.py:475-482 | the request is handed over once its body is there |
| KeepAlive.HTTPConnection.RunScheduled | tornado/iostream.py:708-713 | stale and current callbacks, in any order, conclude each finished request exactly once, and close the connection only for these reasons |
| KeepAlive.AtRest | tornado/httpserver.py:303-326 | with nothing left to send or to run, every finish has had its one `_finish_request` |
| KeepAlive.OneAtATime | tornado/httpserver.py:328-360 | the next headers are read only when all requests are concluded and the buffer is empty |
| ClientQueue.SimpleAsyncHTTPClient.Fetch | tornado/simple_httpclient.py:91-97 | a request is queued last; it waits only when all slots are in use |
| ClientQueue.SimpleAsyncHTTPClient.ProcessQueue | tornado/simple_httpclient.py:99-106 | requests start in order, at most `max_clients` at a time, even when connections fail at once |
| ClientQueue.SimpleAsyncHTTPClient.StartNext | tornado/simple_httpclient.py:108-110 | the request that waited longest is started |
| ClientQueue.SimpleAsyncHTTPClient.Release | tornado/simple_httpclient.py:299-303 | a slot is given back once, and the queue goes on |
| ClientQueue.SimpleAsyncHTTPClient.RunCallback | tornado/simple_httpclient.py:305-310 | the final callback is handed off, once |
| ClientQueue.SimpleAsyncHTTPClient.HandleException | tornado/simple_httpclient.py:312-327 | an error goes to the final callback unless that has been handed off |
| ClientQueue.SimpleAsyncHTTPClient.OnBody | tornado/simple_httpclient.py:400-454 | a redirect passes the final callback on with one redirect fewer; the count never passes the limit |
| HeaderText.NormalizedTwice | tornado/httputil.py:63-64 | normalization is idempotent |
| HeaderText.NormalizedIgnoresCase | tornado/httputil.py:63-64 | names that differ only in ASCII case have one normal form |
| HeaderText.NormalizedIsCased | tornado/httputil.py:63-64 | splitting, capitalizing and joining is the same as casing letter by letter |
| HeaderText.NameExample | tornado/httputil.py:63-64 | words start with a capital letter and go on in lower case |
| HeaderText.SplitFirst | tornado/httputil.py:189-191 | text is cut into lines at each line end |
| Headers.NormalizedHeaderCache.Get | tornado/httputil.py:58-73 | a bounded cache that always agrees with plain normalization |
| Headers.HTTPHeaders.Add | tornado/httputil.py:127-138 | one more value for the name; both maps stay in step |
| Headers.HTTPHeaders.SetItem | tornado/httputil.py:197-200 | the name has this value only |
| Headers.HTTPHeaders.DelItem | tornado/httputil.py:205-208 | the name leaves both maps, or the call raises |
| Headers.HTTPHeaders.GetItem | tornado/httputil.py:202-203 | in whatever case it is asked for, the value is the comma-join of the list |
| Headers.HTTPHeaders.GetList | tornado/httputil.py:140-143 | all values of the name |
| Headers.HTTPHeaders.ParseLine | tornado/httputil.py:155-176 | a line adds a value or continues the last one; errors change nothing |
| Headers.HTTPHeaders.Parse | tornado/httputil.py:178-193 | the lines of a text take effect in order |
| Headers.ContinuationLine | tornado/httputil.py:155-170 | a line that starts with white space goes on with the value before it, after one space |
| Headers.BadLines | tornado/httputil.py:155-176 | a first line that starts with white space, and a line without a colon, are errors |
| Headers.JoinedValues | tornado/httputil.py:131-134 | values of one name are joined by commas |
| Headers.RoundTrip | tornado/httputil.py:145-193 | printing all values, in any order of the names, and parsing restores every list |
| Entities.RoundTrip | tornado/escape.py:52-64 | unescaping undoes escaping, for every string |
| Entities.EscapedIsInert | tornado/escape.py:52-59 | escaped text holds no angle bracket and no double quote, and no ampersand but at the start of one of the four references |
| Entities.EscapedPieces | tornado/escape.py:52-59 | text without these four characters stays as it is, and pieces are escaped on their own |
| Entities.EscapedMark | tornado/escape.py:52-53 | each of the four characters becomes its own reference |
| Entities.ReferenceReads | tornado/escape.py:362-371 | a reference by number or name gives its character; one that stands for none is left as it is |
| Ranges.GetContent | tornado/web.py:2195-2214 | reading in chunks yields exactly the slice, or raises |
| Ranges.ServedAsAsked | tornado/web.py:2024-2062 | slice, status and Content-Range are those of the standard if and only if the range does not end before it starts and a suffix is not longer than the file |
| Ranges.Refuted | tornado/httputil.py:283-315 | a suffix longer than the file raises; a range that ends just before it starts is served as an empty part |

## Left out

- Real sockets, connecting, TLS, epoll and kqueue, signals, forking and the thread of `add_callback_from_signal`: the environment stands for them.
- `read_until_regex` and every other use of regular expressions for framing: a match on a prefix need not be the match on the whole.
- Negative counts for `read_bytes`, and pipes: they add nothing to the state machine of a stream.
- Timeouts.HeapPush: stands for the library's heap functions by their contracts; how they arrange the list is not modelled.
- Runners.Runner.Run: takes a number of rounds, since a generator may go on forever without waiting; every state inside such a run is covered, and `running` is still set there.
- Timeouts.TimeoutQueue.RunTimeouts: takes a number of rounds for the same reason, as callbacks may go on adding timeouts that are due.
- Runners.Runner.SetResult: assumes that each callback is called once for each registration, which the source does not check.
- Lists of yield points inside lists, and lists that hold something else than yield points: an assertion of `Multi` fails outside of the runner's own handling.
- StackContexts.State.Call: assumes that entering a context does not raise; nested wrapped calls appear as what they do to the shared chains.
- `StackContextInconsistentError`: leaving a context restores the contexts of before whether or not it is raised.
- TemplateMeaning.CompilerCorrect: rounds of loops, depth of calls and depth of nesting are bounded on both sides alike and for all bounds; `CompiledMore` and `AcyclicCompiles` show that the last does not matter for what is compiled.
- TemplateGrounded.AcyclicCompiles: a ranking of the references is enough; that every template that compiles has one is not stated.
- TemplateLoops.CompiledLoops: `continue` in a finally clause, which older versions of Python refuse, is taken to be accepted in a loop.
- TemplateInheritance.Compiled: loading a template also compiles that template by itself (tornado/template.py:213-243), so that one which Python refuses alone makes every use of it fail; only the compilation of the template asked for is modelled.
- Line comments in generated code, whitespace compression, module names and paths of loaders: they do not change what a template renders.
- The Unicode white space that `strip` removes in templates beyond ASCII; header lines do use Python's line breaks and white space.
- WebSockets.WebSocketProtocol13.WriteFrame: masks are arbitrary; how random they are is not modelled.
- The handshake and the older protocol of WebSockets; UTF-8 is a predicate on byte strings.
- ResponseBody.BodyArrives: needs HTTP/1.1, a method other than HEAD, no status 204 or 304 (see `HeadHasNoBody`, `NoContent` and `NotModifiedHasNoBody`), and no framing header or ETag match that the application brings in; gzip, HTTP/1.0 and reading until close are outside.
- The bytes of response heads: a head is a value with its code, length and coding.
- ChunkedFraming.DecodeChunks: lengths with signs, prefixes or underscores, which `int` also takes, are not modelled.
- KeepAlive.HTTPConnection.Finish: assumes that a response was written before, as a finish after nothing but a 100 (Continue) line that is still being sent would wait for ever.
- ClientQueue.SimpleAsyncHTTPClient.OnBody: what a redirected request asks for is not modelled, only its callback and its count.
- `HTTPHeaders.clear`, `pop` and the other inherited methods that do not keep both maps in step; letters with case outside ASCII.
- `_parse_header`, `url_concat`, multipart bodies, cookies, authentication, locales, options, logging and the other HTTP clients: only easy members, or foreign libraries.
