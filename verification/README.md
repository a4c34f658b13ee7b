# syslog-ng 2.0.10: message pipeline, reader, wire format and helpers

A Dafny model of the core of syslog-ng 2.0.10 and proofs about it. Objects that
the C code updates in place are classes whose methods are proved against pure
specification functions; what is proved about those functions, and about whole
runs of them, is stated as lemmas. Run `dafny verify dfyconfig.toml`.

Automatic induction is switched off for the lemmas, so each proof shows the
induction it needs.

## The message pipeline

A reader hands a message to its source, the source to the center, the center to
destination groups, a group to queue writers. Each of source, center and
flow-controlled group pushes an acknowledgement block on the message; writers
acknowledge later, when they flush. `AckStack` models one message: increments
and acknowledgements always act on the top block, which may belong to another
stage, and the proofs show by a token argument that this is right. `Writers`
models the FIFO and its descriptor, `Routing` the choice of destinations,
`Pipeline` the state machine over messages, writers and windows, whose events
are a reader's dispatch, a flush with arbitrary write results, a broken and a
replaced descriptor. `Tokens` proves what every run keeps, `Delivery` that the
bytes at a writer are the messages routed to it, `WindowFloor` how far windows
close, `NoLoss` and `NoLossExact` exactly when nothing is dropped. `Daemon` runs
the same events on message, writer and center objects. `ReaderRuns` shows that
every run of the state machine is a run of readers.

A message is its text and a context: everything else that filters and templates
look at, such as its sender and its time. Filters and templates are part of the
configuration, as functions of the message: `accepts` gives the filters it passes,
`format` its line at a writer. `possible` says which messages a source can read;
only these are dispatched, so filters that depend on each other are taken as they
are (`NoLossExact.ExclusiveFiltersNeverDrop`). What is said about readers is for
sources whose possible messages are lines: `ReaderRuns.ReadsLinesOnly`.

What the runs assume, all of it about this daemon between two reloads:

- The path flags at the center are 0, as the source passes them.
- Every source is a log reader with options of its own, so a window belongs to
  one reader; the internal source, which ignores the window, is not one of them.
- `fetch_limit` is at least 1 (`ConfigOk`), and counters do not overflow their C
  types (the 16-bit reference count in particular).
- The configuration is not reloaded and no writer is freed.
- A dispatch obeys the gate of `Pipeline.GateOk`. `Reader.LogReader.FetchLog`
  proves that gate of the reader, and `ReaderRuns` that readers do everything
  the gate allows.

`Guarded` is the hypothesis of the no-loss theorem: every log statement that
names a group with the writer is flow controlled. A message may reach the writer
several times; `Most` is how often at most, over the messages that a source can
read.

## The stream reader

`Reading` says what a dispatch does, as a function of the bytes, the sizes of
the reads and the acknowledgements; `Reader` does it on the buffer as an array,
cut in place. `EndOfStream` is about one dispatch that meets the end of a
stream, `ReaderStops` about what makes a dispatch go on, stop or end,
`ReaderTurns` about all the dispatches of a reader. `Framing` defines the greedy
cut it is compared with: at each line feed, or after `msg_size` bytes without
one, dropping CR, LF and NUL at the end of a line and dropping empty lines. The
statements about framing are for streams without NUL bytes. Reading starts at
`origin`; `file` stands for all bytes the descriptor will ever deliver, and
`fd_read` delivers any number of the next ones, EAGAIN or an error. `acks` says
how many acknowledgements arrive while each message is handed on.

## The wire format

`Wire` has the default protocol line and the parser as functions, `WireParser`
the parser's loops, `WireLaws` what the parser makes of a line branch by branch,
`WireRoundTrip` the exact condition for the round trip, `RelayStream` the stream
of such lines, and `RelayRuns` two daemons in a row: a run of the pipeline at
one end and a reader at the other. Time stamps stay text. `RelaySafe` is the
condition: a host has at most 255 characters, none of them a space, a colon or
an opening bracket (and only host characters if host names are checked), is not
a bad host name and does not start with four digits; the text has no CR or LF
and does not start with a space; host and text together do not start like an
AIX-forwarded line or a repeat line. With an empty host the text must not start
like a forwarded line, nor, unless it is a repeat line, with a word that would
be read as a host.

## The helpers

`DnsCache` and `DnsList` model the DNS cache as values and as linked objects,
`MemTrace` the memory tracer's one array threaded into lists, `Template` template
compilation, `Filter` filter rules, `Persist` the persistent configuration file.

## Where code and promise differ

- The comment at logwriter.c:195-199 says that a queue only overflows if the sum
  of the window sizes exceeds `log_fifo_size` or flow control is off. A reader
  that reads more than once per dispatch goes on after its window closed, so the
  windows overshoot; `NoLossExact.NoLossExactly` gives the exact size and
  `NoLossExact.InitialWindowsNotEnough` a configuration with a drop.
- At the end of a file, or on a read error, the buffer is handed on as one
  message even if whole lines are in it. `EndOfStream.EndsRightExactly` says
  when this can merge lines: if the reader reads several times per dispatch and
  its window is smaller than the fetch limit (and the buffer holds three bytes).
  `EndOfStream.MergesLines` is such a dispatch for every such window, and
  `ReaderTurns.NeverEndsWronglyExactly` says what that means for a
  configuration: a larger initial window does not help. File and pipe sources
  read once per dispatch (affile.c:141, affile.c:187) and always end right.
- `dns_cache_persistent_count` is not corrected when a store replaces an entry of
  the other kind (`DnsCache.DriftLaw`, `DnsCache.DriftHappens`,
  `DnsCache.CapacityExceeded`); `DnsCache.RunKeepsSound` says exactly when it stays
  right. In the order in which the resolver uses the cache the capacity is never
  exceeded, but it can be too small. A capacity that is lowered while entries are
  stored can let the cache evict from an empty list and so abort;
  `DnsCache.NeverAbortsExactly` says for which new capacities.

## Model

| member | source | states |
|---|---|---|
| AckStack.UnfinishedOwes | tools-n-scripts/sysadm/syslog-ng-2.0.10/src/syslog-ng-2.0.10/src/logmsg.c:739-752 | A stack of unfinished blocks misses at least one acknowledgement per block, so it owes nothing exactly when it is empty, however the counts are spread over the blocks |
| AckStack.AckPaysOne | tools-n-scripts/sysadm/syslog-ng-2.0.10/src/syslog-ng-2.0.10/src/logmsg.c:739-752 | One acknowledgement, with all the callbacks it sets off, pays exactly one owed acknowledgement; the stack empties, and the source is told, exactly if one was owed; only the popped blocks' references are given back |
| AckStack.IncOwesOne | tools-n-scripts/sysadm/syslog-ng-2.0.10/src/syslog-ng-2.0.10/src/logmsg.c:677-686 | An increment owes one more acknowledgement, no matter whose block is on top |
| AckStack.StartOwesSame | tools-n-scripts/sysadm/syslog-ng-2.0.10/src/syslog-ng-2.0.10/src/logmsg.c:701-711 | Pushing a block on a non-empty stack leaves what is owed unchanged; the first block owes one |
| AckStack.AckKeepsOk | tools-n-scripts/sysadm/syslog-ng-2.0.10/src/syslog-ng-2.0.10/src/center.c:295-301 | An acknowledgement by a running call keeps the message's token and reference equations, with one own acknowledgement less |
| AckStack.RefKeepsOk | tools-n-scripts/sysadm/syslog-ng-2.0.10/src/syslog-ng-2.0.10/src/logmsg.c:572-578 | A reference taken while an acknowledgement is owed never touches a freed message and is accounted for |
| AckStack.UnrefKeepsOk | tools-n-scripts/sysadm/syslog-ng-2.0.10/src/syslog-ng-2.0.10/src/logmsg.c:586-594 | Releasing a held reference keeps the equations and frees the message exactly when it was the last |
| AckStack.DropKeepsOk | tools-n-scripts/sysadm/syslog-ng-2.0.10/src/syslog-ng-2.0.10/src/logmsg.c:762-768 | A copy that is given up keeps the equations and pays its reference, and its acknowledgement if its route is flow controlled |
| AckStack.IncKeepsOk | tools-n-scripts/sysadm/syslog-ng-2.0.10/src/syslog-ng-2.0.10/src/logmsg.c:677-686 | An increment keeps the equations, with one own acknowledgement more |
| AckStack.StartKeepsOk | tools-n-scripts/sysadm/syslog-ng-2.0.10/src/syslog-ng-2.0.10/src/logmsg.c:701-711 | A pushed center or group block keeps the equations and takes over one held reference |
| AckStack.SettledMeans | tools-n-scripts/sysadm/syslog-ng-2.0.10/src/syslog-ng-2.0.10/src/logsource.c:28-40 | With no call running: the source was told once, exactly if no flow-controlled copy is queued; the message was freed once, exactly if no copy is |
| AckStack.LogMessage.Ref | tools-n-scripts/sysadm/syslog-ng-2.0.10/src/syslog-ng-2.0.10/src/logmsg.c:572-578 | The object's new state is the specified one; use after the count reached zero is recorded as a fault |
| AckStack.LogMessage.Unref | tools-n-scripts/sysadm/syslog-ng-2.0.10/src/syslog-ng-2.0.10/src/logmsg.c:586-594 | The reference count falls by one, and reaching zero frees; use after that is recorded as a fault |
| AckStack.LogMessage.AckBlockInc | tools-n-scripts/sysadm/syslog-ng-2.0.10/src/syslog-ng-2.0.10/src/logmsg.c:677-686 | The top block requires one acknowledgement more; without a block nothing changes |
| AckStack.LogMessage.AckBlockStart | tools-n-scripts/sysadm/syslog-ng-2.0.10/src/syslog-ng-2.0.10/src/logmsg.c:701-711 | A block that requires one acknowledgement is pushed on top |
| AckStack.LogMessage.AckBlockEnd | tools-n-scripts/sysadm/syslog-ng-2.0.10/src/syslog-ng-2.0.10/src/logmsg.c:721-730 | The top block is removed; without a block nothing changes |
| AckStack.LogMessage.Ack | tools-n-scripts/sysadm/syslog-ng-2.0.10/src/syslog-ng-2.0.10/src/logmsg.c:739-752 | Counts on the top block and, through the recursion over the callbacks, reaches the specified state; says whether the source's callback ran |
| AckStack.LogMessage.Drop | tools-n-scripts/sysadm/syslog-ng-2.0.10/src/syslog-ng-2.0.10/src/logmsg.c:762-768 | A dropped copy is acknowledged if its route is flow controlled, and released |
| Writers.QueueKeepsValid | tools-n-scripts/sysadm/syslog-ng-2.0.10/src/syslog-ng-2.0.10/src/logwriter.c:188-214 | Offering a copy keeps the queue and the written bytes consistent with what was accepted |
| Writers.HeadOutKeepsValid | tools-n-scripts/sysadm/syslog-ng-2.0.10/src/syslog-ng-2.0.10/src/logwriter.c:319-357 | Taking the head off the queue and writing any beginning of its line keeps queue, partial line and written bytes consistent with what was accepted |
| Writers.PartialOutKeepsValid | tools-n-scripts/sysadm/syslog-ng-2.0.10/src/syslog-ng-2.0.10/src/logwriter.c:290-312 | Writing any further part of the partial line keeps queue, partial line and written bytes consistent with what was accepted |
| Writers.DrainKeepsValid | tools-n-scripts/sysadm/syslog-ng-2.0.10/src/syslog-ng-2.0.10/src/logwriter.c:317-358 | The popping loop keeps queue and written bytes consistent with what was accepted, for every sequence of short writes, refusals and errors, and neither accepts nor drops anything |
| Writers.FlushKeepsValid | tools-n-scripts/sysadm/syslog-ng-2.0.10/src/syslog-ng-2.0.10/src/logwriter.c:284-380 | A whole flush keeps queue and written bytes consistent with what was accepted, for every sequence of write results, and neither accepts nor drops anything |
| Writers.FlushPopsHead | tools-n-scripts/sysadm/syslog-ng-2.0.10/src/syslog-ng-2.0.10/src/logwriter.c:317-331 | What a flush pops, and so acknowledges, is the beginning of the queue; what it leaves is the rest |
| Writers.StreamConserved | tools-n-scripts/sysadm/syslog-ng-2.0.10/src/syslog-ng-2.0.10/src/logwriter.c:284-380 | Bytes written, then the unsent tail of the partial line, then the queued lines are the accepted lines in order |
| Writers.AtMostOneUnwritten | tools-n-scripts/sysadm/syslog-ng-2.0.10/src/syslog-ng-2.0.10/src/logwriter.c:327-356 | Of the messages taken off the queue, and so acknowledged, all but the last are completely written; the last one up to the partial position, which is inside its line |
| Writers.FlushWrites | tools-n-scripts/sysadm/syslog-ng-2.0.10/src/syslog-ng-2.0.10/src/logwriter.c:284-380 | A flush offers the rest of the partial line and then the queued lines one by one; it writes all of them up to the first that is not taken as a whole, of that one as many bytes as the answer says, and keeps the rest; the descriptor is given up exactly if that answer is an error other than EAGAIN and EINTR |
| Writers.FlushEmptiesOrStalls | tools-n-scripts/sysadm/syslog-ng-2.0.10/src/syslog-ng-2.0.10/src/logwriter.c:317-358 | A flush that leaves no partial line has emptied the queue and written every accepted line |
| Writers.FlushWritesAll | tools-n-scripts/sysadm/syslog-ng-2.0.10/src/syslog-ng-2.0.10/src/logwriter.c:317-358 | If every offered line is taken, the queue is empty, no partial line is left, everything accepted is written and the descriptor stays |
| Writers.LogWriter.constructor | tools-n-scripts/sysadm/syslog-ng-2.0.10/src/syslog-ng-2.0.10/src/logwriter.c:457-473 | An empty writer |
| Writers.LogWriter.Queue | tools-n-scripts/sysadm/syslog-ng-2.0.10/src/syslog-ng-2.0.10/src/logwriter.c:188-214 | The new state is the specified one; the copy is put at the end exactly if the queue is not at its limit |
| Writers.LogWriter.WritePartial | tools-n-scripts/sysadm/syslog-ng-2.0.10/src/syslog-ng-2.0.10/src/logwriter.c:290-312 | The rest of the partial line is offered; a short write, EAGAIN, EINTR and other errors each leave the specified state |
| Writers.LogWriter.WriteHead | tools-n-scripts/sysadm/syslog-ng-2.0.10/src/syslog-ng-2.0.10/src/logwriter.c:319-357 | The head is popped and offered; what is not taken becomes the partial line |
| Writers.LogWriter.Drain | tools-n-scripts/sysadm/syslog-ng-2.0.10/src/syslog-ng-2.0.10/src/logwriter.c:317-358 | The loop computes the specified state, and reports exactly the entries it popped, in order |
| Writers.LogWriter.FlushLog | tools-n-scripts/sysadm/syslog-ng-2.0.10/src/syslog-ng-2.0.10/src/logwriter.c:284-380 | A flush computes the specified state, reports exactly the entries it popped, in order, and leaves entries queued only behind a partial line |
| Writers.LogWriter.Broken | tools-n-scripts/sysadm/syslog-ng-2.0.10/src/syslog-ng-2.0.10/src/logwriter.c:273-282 | A broken descriptor leaves queue and partial line untouched |
| Writers.LogWriter.Reopen | tools-n-scripts/sysadm/syslog-ng-2.0.10/src/syslog-ng-2.0.10/src/logwriter.c:428-448 | Reopening, with a descriptor or without, leaves queue and partial line untouched |
| Routing.FinalStops | tools-n-scripts/sysadm/syslog-ng-2.0.10/src/syslog-ng-2.0.10/src/center.c:375-378 | Nothing behind a served final connection is served |
| Routing.NoneServed | tools-n-scripts/sysadm/syslog-ng-2.0.10/src/syslog-ng-2.0.10/src/center.c:317-382 | Without a served connection there are no routes |
| Routing.RouteHasOrigin | tools-n-scripts/sysadm/syslog-ng-2.0.10/src/syslog-ng-2.0.10/src/center.c:335-373 | Every route stems from a served connection and carries that connection's flow-control flag |
| Routing.RoutesListServed | tools-n-scripts/sysadm/syslog-ng-2.0.10/src/syslog-ng-2.0.10/src/center.c:335-381 | The routes are those of all destinations of all served connections, in the order of connections and destinations, each once and no others |
| Routing.WhoMatches | tools-n-scripts/sysadm/syslog-ng-2.0.10/src/syslog-ng-2.0.10/src/center.c:335-354 | A connection matches if and only if it is a catch-all or names the source, and every one of its filters accepts |
| Routing.DestinationIsRouted | tools-n-scripts/sysadm/syslog-ng-2.0.10/src/syslog-ng-2.0.10/src/center.c:335-381 | Every destination of a connection that matches gets the message, unless a final one of its kind that matches comes before, or it is a fallback and a normal one matches |
| Routing.NotServed | tools-n-scripts/sysadm/syslog-ng-2.0.10/src/syslog-ng-2.0.10/src/center.c:323-378 | A fallback connection gets nothing when a normal one matches, and no connection behind a matching final one of its kind does |
| Routing.Pass | tools-n-scripts/sysadm/syslog-ng-2.0.10/src/syslog-ng-2.0.10/src/center.c:321-381 | One pass finds out whether a connection of its kind matches and whether fallback ones exist, and if its kind is the one in use collects exactly the declared routes |
| Routing.Select | tools-n-scripts/sysadm/syslog-ng-2.0.10/src/syslog-ng-2.0.10/src/center.c:317-382 | The two-pass loop yields exactly the declared routes for every connection list: those of all destinations of the matching non-fallback connections up to the first final one, or, if none matches, of the fallback ones; in order and once each |
| Tokens.EmitKeepsInv | tools-n-scripts/sysadm/syslog-ng-2.0.10/src/syslog-ng-2.0.10/src/center.c:303-386 | A message entering through source and center keeps tokens, references and windows conserved, for every set of routes and every mix of kept and dropped copies |
| Tokens.GroupKeepsInv | tools-n-scripts/sysadm/syslog-ng-2.0.10/src/syslog-ng-2.0.10/src/dgroup.c:80-101 | A delivery to a destination group, with flow control or without, keeps tokens, references and windows conserved |
| Tokens.DeliverKeepsInv | tools-n-scripts/sysadm/syslog-ng-2.0.10/src/syslog-ng-2.0.10/src/logwriter.c:188-214 | A delivery to a writer keeps tokens, references and windows conserved, whether the copy is kept or dropped |
| Tokens.FlushKeepsInv | tools-n-scripts/sysadm/syslog-ng-2.0.10/src/syslog-ng-2.0.10/src/logwriter.c:317-331 | A flush, with the acknowledgements of all it pops, keeps tokens, references and windows conserved |
| Tokens.StepKeepsInv | tools-n-scripts/sysadm/syslog-ng-2.0.10/src/syslog-ng-2.0.10/src/logsource.c:42-50 | Every event (dispatch, flush, broken or replaced descriptor) keeps tokens, references and windows conserved |
| Tokens.RunKeepsInv | tools-n-scripts/sysadm/syslog-ng-2.0.10/src/syslog-ng-2.0.10/src/logmsg.c:670-768 | In every reachable state: per message the missing acknowledgements minus the number of blocks but one are the queued flow-controlled copies; the reference count is blocks plus queued copies; every block is unfinished; every window is conserved |
| Tokens.MessagesAccounted | tools-n-scripts/sysadm/syslog-ng-2.0.10/src/syslog-ng-2.0.10/src/logmsg.c:572-594 | In every reachable state no message was touched after it was freed, it was freed once exactly if no copy is queued, and its source was told once exactly if no flow-controlled copy is queued |
| Tokens.WindowsConserved | tools-n-scripts/sysadm/syslog-ng-2.0.10/src/syslog-ng-2.0.10/src/logsource.c:28-50 | In every reachable state a window plus its source's unacknowledged messages is the initial window |
| Delivery.RunTallies | tools-n-scripts/sysadm/syslog-ng-2.0.10/src/syslog-ng-2.0.10/src/logwriter.c:188-214 | In every run each delivery to a writer is accepted or counted as dropped; without drops the accepted copies are the delivered ones in order, each with its line and the flow control of its route |
| Delivery.CopyIsOffered | tools-n-scripts/sysadm/syslog-ng-2.0.10/src/syslog-ng-2.0.10/src/center.c:335-381 | A writer in a destination of a log statement that names the source and whose filters accept the message is offered a copy, with its line and the statement's flow control, unless a final statement of that kind comes before or the statement is a fallback and another one takes the message |
| Delivery.OfferedHasOrigin | tools-n-scripts/sysadm/syslog-ng-2.0.10/src/syslog-ng-2.0.10/src/center.c:335-373 | Whatever a writer is offered comes from a log statement that takes the message and has the writer in one of its destinations |
| Pipeline.BrokenWaits | tools-n-scripts/sysadm/syslog-ng-2.0.10/src/syslog-ng-2.0.10/src/logwriter.c:273-282 | A writer whose descriptor broke is not flushed; its queue and partial line wait |
| Pipeline.ReopenedGoesOn | tools-n-scripts/sysadm/syslog-ng-2.0.10/src/syslog-ng-2.0.10/src/logwriter.c:428-448 | It is flushed again exactly if it got a new descriptor, with the same queue and partial line |
| Delivery.StreamIsOffered | tools-n-scripts/sysadm/syslog-ng-2.0.10/src/syslog-ng-2.0.10/src/logwriter.c:284-380 | As long as a writer dropped nothing, bytes written, partial tail and queued lines are the lines of all messages routed to it, in the order of emission |
| WindowFloor.EmitClosesOne | tools-n-scripts/sysadm/syslog-ng-2.0.10/src/syslog-ng-2.0.10/src/logsource.c:42-50 | One emission closes its source's window by at most one and closes no other, whatever is acknowledged meanwhile |
| WindowFloor.FlushOpens | tools-n-scripts/sysadm/syslog-ng-2.0.10/src/syslog-ng-2.0.10/src/logsource.c:28-40 | A flush, with the acknowledgements of all it pops, closes no window |
| WindowFloor.RunKeepsFloor | tools-n-scripts/sysadm/syslog-ng-2.0.10/src/syslog-ng-2.0.10/src/logreader.c:319-408 | Every run keeps every window at or above the initial window minus the budget |
| WindowFloor.WindowBounded | tools-n-scripts/sysadm/syslog-ng-2.0.10/src/syslog-ng-2.0.10/src/logreader.c:319-408 | In every reachable state a window that started open is at least 1 - fetch_limit, and at least 0 for a single-read reader; the unacknowledged messages stay within the budget |
| NoLoss.QueuedIsOpen | tools-n-scripts/sysadm/syslog-ng-2.0.10/src/syslog-ng-2.0.10/src/logwriter.c:193-213 | A message with a queued flow-controlled copy has not been acknowledged to its source |
| NoLoss.RoomForOne | tools-n-scripts/sysadm/syslog-ng-2.0.10/src/syslog-ng-2.0.10/src/logwriter.c:193-213 | While a message that can still get a copy at a guarded writer is being delivered, its queue is strictly shorter than the total budget |
| NoLoss.MostIsMaximum | tools-n-scripts/sysadm/syslog-ng-2.0.10/src/syslog-ng-2.0.10/src/center.c:362-373 | No message that a source can read is delivered to a writer more often than the weight of the source there |
| NoLoss.MostIsReached | tools-n-scripts/sysadm/syslog-ng-2.0.10/src/syslog-ng-2.0.10/src/center.c:362-373 | If the weight of a source at a writer is not zero, a message that the source can read is delivered there so often |
| NoLoss.EmitKeepsSafe | tools-n-scripts/sysadm/syslog-ng-2.0.10/src/syslog-ng-2.0.10/src/center.c:303-386 | An emission allowed by the window drops nothing at a guarded writer whose queue holds the budgets |
| NoLoss.GateAllows | tools-n-scripts/sysadm/syslog-ng-2.0.10/src/syslog-ng-2.0.10/src/logreader.c:280-302 | The readers' gate keeps the window of the emitting source above its floor before every message of a dispatch |
| NoLoss.RunKeepsSafe | tools-n-scripts/sysadm/syslog-ng-2.0.10/src/syslog-ng-2.0.10/src/logwriter.c:193-213 | In no run does a guarded writer whose queue holds the budgets drop anything |
| NoLossExact.EmitHolds | tools-n-scripts/sysadm/syslog-ng-2.0.10/src/syslog-ng-2.0.10/src/logsource.c:42-50 | A message whose copies a guarded writer all keeps lengthens the queue by its deliveries and closes its source's window by exactly one |
| NoLossExact.Overfill | tools-n-scripts/sysadm/syslog-ng-2.0.10/src/syslog-ng-2.0.10/src/logwriter.c:193-213 | With a shorter queue a run of dispatches, each allowed by the gate and of messages the sources can read, with one message each for single-read readers, leads to a drop |
| NoLossExact.NoLossExactly | tools-n-scripts/sysadm/syslog-ng-2.0.10/src/syslog-ng-2.0.10/src/logwriter.c:193-213 | A guarded writer drops nothing in any run if and only if its queue holds the sum, over all sources, of the most deliveries to it of one message that the source can read, times the initial window plus overshoot (0 for single-read readers, fetch_limit - 1 for the others) |
| NoLossExact.NothingLost | tools-n-scripts/sysadm/syslog-ng-2.0.10/src/syslog-ng-2.0.10/src/logwriter.c:193-213 | With such a queue nothing is lost end to end: written bytes, partial tail and queued lines are all the lines routed to the writer, in order |
| NoLossExact.InitialWindowsNotEnough | tools-n-scripts/sysadm/syslog-ng-2.0.10/src/syslog-ng-2.0.10/src/logwriter.c:195-199 | A queue as long as the sum of the initial windows does not rule out a drop, although flow control is on |
| NoLossExact.ExclusiveFiltersNeverDrop | tools-n-scripts/sysadm/syslog-ng-2.0.10/src/syslog-ng-2.0.10/src/center.c:335-373 | With two flow-controlled statements to one group, the second with the negated filter of the first, a window of one and a single read, a queue of one never overflows: no message passes both filters |
| Daemon.LogCenter.Ack | tools-n-scripts/sysadm/syslog-ng-2.0.10/src/syslog-ng-2.0.10/src/logsource.c:28-40 | The object-level acknowledgement, with the window opened by the source's callback, is the specified step |
| Daemon.LogCenter.Deliver | tools-n-scripts/sysadm/syslog-ng-2.0.10/src/syslog-ng-2.0.10/src/logwriter.c:188-214 | Queueing, or dropping with acknowledgement and release, is the specified step |
| Daemon.LogCenter.SettleEntry | tools-n-scripts/sysadm/syslog-ng-2.0.10/src/syslog-ng-2.0.10/src/logmsg.c:762-768 | Giving up one copy is the specified step |
| Daemon.LogCenter.ToOneDriver | tools-n-scripts/sysadm/syslog-ng-2.0.10/src/syslog-ng-2.0.10/src/dgroup.c:91-96 | One round of the driver loop is the specified step |
| Daemon.LogCenter.QueueDrivers | tools-n-scripts/sysadm/syslog-ng-2.0.10/src/syslog-ng-2.0.10/src/dgroup.c:91-96 | The driver loop over the shared message object computes the specified state |
| Daemon.LogCenter.GroupQueue | tools-n-scripts/sysadm/syslog-ng-2.0.10/src/syslog-ng-2.0.10/src/dgroup.c:80-101 | The whole call of a group, with its own block under flow control, computes the specified state |
| Daemon.LogCenter.DeliverRoute | tools-n-scripts/sysadm/syslog-ng-2.0.10/src/syslog-ng-2.0.10/src/center.c:362-373 | One delivery of the center is the specified step |
| Daemon.LogCenter.DeliverAll | tools-n-scripts/sysadm/syslog-ng-2.0.10/src/syslog-ng-2.0.10/src/center.c:362-373 | All deliveries together compute the specified state |
| Daemon.LogCenter.NewMessage | tools-n-scripts/sysadm/syslog-ng-2.0.10/src/syslog-ng-2.0.10/src/logsource.c:42-50 | A new message with the source's block, and the window closed by one |
| Daemon.LogCenter.CenterQueue | tools-n-scripts/sysadm/syslog-ng-2.0.10/src/syslog-ng-2.0.10/src/center.c:317-382 | Routing and delivering compute the specified state |
| Daemon.LogCenter.SourceQueue | tools-n-scripts/sysadm/syslog-ng-2.0.10/src/syslog-ng-2.0.10/src/logsource.c:42-50 | A message passed on by a source leaves the specified state, synchronous drops and all |
| Daemon.LogCenter.FlushLog | tools-n-scripts/sysadm/syslog-ng-2.0.10/src/syslog-ng-2.0.10/src/logwriter.c:284-380 | A flush with its acknowledgements leaves the specified state |
| Daemon.LogCenter.Dispatch | tools-n-scripts/sysadm/syslog-ng-2.0.10/src/syslog-ng-2.0.10/src/logreader.c:319-408 | The messages of one dispatch leave the specified state |
| Daemon.LogCenter.Perform | tools-n-scripts/sysadm/syslog-ng-2.0.10/src/syslog-ng-2.0.10/src/logwriter.c:428-448 | Every event on the objects is the event of the state machine |
| Daemon.LogCenter.Execute | tools-n-scripts/sysadm/syslog-ng-2.0.10/src/syslog-ng-2.0.10/src/center.c:303-386 | A whole run on the objects, from new writers and open windows, reaches the state the run specifies, so what is proved of runs holds of the objects |
| Framing.CutAnywhere | tools-n-scripts/sysadm/syslog-ng-2.0.10/src/syslog-ng-2.0.10/src/logreader.c:279-313 | The greedy cut of a stream does not depend on where it is interrupted: cut a beginning, then its leftover with the rest |
| Framing.FramesHaveNoLf | tools-n-scripts/sysadm/syslog-ng-2.0.10/src/syslog-ng-2.0.10/src/logreader.c:280-302 | No message of the cut contains a line feed |
| Framing.LineCut | tools-n-scripts/sysadm/syslog-ng-2.0.10/src/syslog-ng-2.0.10/src/logreader.c:280-302 | After a cleanly cut stream, a line shorter than the buffer adds exactly its trimmed text |
| Framing.EndingDropped | tools-n-scripts/sysadm/syslog-ng-2.0.10/src/syslog-ng-2.0.10/src/logreader.c:280-302 | A line ended by LF, by CR and LF, or with NULs before the LF gives the same message; an ending alone gives none |
| Framing.FullCut | tools-n-scripts/sysadm/syslog-ng-2.0.10/src/syslog-ng-2.0.10/src/logreader.c:250-266 | A full buffer without a line feed adds exactly its bytes |
| Framing.FlushExact | tools-n-scripts/sysadm/syslog-ng-2.0.10/src/syslog-ng-2.0.10/src/logreader.c:250-266 | Taking the whole buffer as one last message gives the messages of the ended stream if and only if no line feed is buffered |
| Framing.DrainedIsSpec | tools-n-scripts/sysadm/syslog-ng-2.0.10/src/syslog-ng-2.0.10/src/logreader.c:304-313 | With no line feed buffered, the messages so far are those of all bytes read |
| Framing.RestartIsSeamless | tools-n-scripts/sysadm/syslog-ng-2.0.10/src/syslog-ng-2.0.10/src/logreader.c:480-511 | Stopping after a clean cut and starting there again loses and repeats nothing |
| Reading.LineTakenKeeps | tools-n-scripts/sysadm/syslog-ng-2.0.10/src/syslog-ng-2.0.10/src/logreader.c:280-302 | Taking a line keeps the messages exactly those of the bytes taken, and loses or repeats no byte of the stream |
| Reading.ScannedKeeps | tools-n-scripts/sysadm/syslog-ng-2.0.10/src/syslog-ng-2.0.10/src/logreader.c:279-313 | The scanning loop keeps the messages exact, eats whole lines from the front, notes exactly whether one is left, and takes at least one if it may |
| Reading.FullTakenKeeps | tools-n-scripts/sysadm/syslog-ng-2.0.10/src/syslog-ng-2.0.10/src/logreader.c:250-266 | Cutting off a full buffer without a line keeps the messages exact |
| Reading.IteratedKeeps | tools-n-scripts/sysadm/syslog-ng-2.0.10/src/syslog-ng-2.0.10/src/logreader.c:223-316 | One pass leaves the buffer not full, the flag right and the messages exact, and shrinks a buffer that held a line |
| Reading.ScannedPasses | tools-n-scripts/sysadm/syslog-ng-2.0.10/src/syslog-ng-2.0.10/src/logreader.c:192-213 | Each message is noted with the window before it: the first with that at the beginning, each other one with the one before, less one, plus the acknowledgements in between; with an open window at the beginning every one of a scan sees an open window |
| Reading.DispatchKeepsReady | tools-n-scripts/sysadm/syslog-ng-2.0.10/src/syslog-ng-2.0.10/src/logreader.c:319-408 | A dispatch keeps messages, flag and stream right for all reads and acknowledgements, and strictly shrinks the waiting bytes if it began with a whole line |
| Reading.DispatchObeysGate | tools-n-scripts/sysadm/syslog-ng-2.0.10/src/syslog-ng-2.0.10/src/logreader.c:319-408 | A dispatch that begins with an open window emits at most fetch_limit messages, the first with an open window, each with an open window for a single-read reader; each message closes the window by one and opens it by what is acknowledged meanwhile |
| Reading.Drained | tools-n-scripts/sysadm/syslog-ng-2.0.10/src/syslog-ng-2.0.10/src/logreader.c:223-316 | With no whole line buffered, the messages handed on are the greedy cut of all bytes read, whatever the read sizes, fetch limits and window stalls were |
| Reading.StoppedByWindow | tools-n-scripts/sysadm/syslog-ng-2.0.10/src/syslog-ng-2.0.10/src/logreader.c:280-302 | A scan that leaves a whole line short of the fetch limit was stopped by a window that closed |
| Reading.EndExactly | tools-n-scripts/sysadm/syslog-ng-2.0.10/src/syslog-ng-2.0.10/src/logreader.c:370-381 | The end of a stream is right exactly if no whole line is buffered at that moment, and one can only be if the reader reads several times per dispatch and its window is not open at that moment |
| ReaderStops.FollowedNeverEnds | tools-n-scripts/sysadm/syslog-ng-2.0.10/src/syslog-ng-2.0.10/src/logreader.c:375 | A dispatch of a followed file ends only on an error |
| ReaderStops.FollowedEofWaits | tools-n-scripts/sysadm/syslog-ng-2.0.10/src/syslog-ng-2.0.10/src/logreader.c:375 | A followed file at its end leaves the reader as it is, with what is buffered |
| ReaderStops.EndsExactly | tools-n-scripts/sysadm/syslog-ng-2.0.10/src/syslog-ng-2.0.10/src/logreader.c:354-381 | Below the fetch limit, with room in the buffer, an error ends the dispatch, and a read of nothing does unless the file is followed; EAGAIN stops it without ending it; nothing else ends it |
| ReaderStops.OneReadOnly | tools-n-scripts/sysadm/syslog-ng-2.0.10/src/syslog-ng-2.0.10/src/logreader.c:330-331 | A reader with one read per dispatch uses one answer, and none when it begins with a whole line |
| ReaderStops.WindowStops | tools-n-scripts/sysadm/syslog-ng-2.0.10/src/syslog-ng-2.0.10/src/logreader.c:280-302 | Of buffered lines a dispatch hands on as many as window and fetch limit allow; what is behind them stays buffered, nothing is read, and the next dispatch begins with it |
| ReaderStops.GoesOnReading | tools-n-scripts/sysadm/syslog-ng-2.0.10/src/syslog-ng-2.0.10/src/logreader.c:324-406 | A reader with several reads that begins with whole lines hands them on and then reads on, line by line, until EAGAIN, an error or the end of a file that is not followed |
| ReaderStops.NulEndsFirst | tools-n-scripts/sysadm/syslog-ng-2.0.10/src/syslog-ng-2.0.10/src/logreader.c:232-237 | A NUL in the buffer ends the first line, whether line feeds come before it or not |
| EndOfStream.DispatchDrains | tools-n-scripts/sysadm/syslog-ng-2.0.10/src/syslog-ng-2.0.10/src/logreader.c:319-408 | With a window of at least the fetch limit, or a buffer of less than three bytes, a dispatch never meets the end with a whole line buffered |
| EndOfStream.MergesLines | tools-n-scripts/sysadm/syslog-ng-2.0.10/src/syslog-ng-2.0.10/src/logreader.c:370-381 | For every smaller window a stream and reads with which a dispatch ends wrongly: several reads, the window closes with a line feed buffered, the stream ends |
| EndOfStream.EndsRightExactly | tools-n-scripts/sysadm/syslog-ng-2.0.10/src/syslog-ng-2.0.10/src/logreader.c:319-408 | Whatever bytes, reads and acknowledgements come, a dispatch ends streams right if and only if the reader reads once per dispatch, or its window is at least fetch_limit beforehand, or its buffer has less than three bytes |
| EndOfStream.ReadsLines | tools-n-scripts/sysadm/syslog-ng-2.0.10/src/syslog-ng-2.0.10/src/logreader.c:343-406 | A reader with several reads per dispatch hands on one message for each read that delivers a line, up to the fetch limit, even when the window has closed |
| EndOfStream.ReadsAtOnce | tools-n-scripts/sysadm/syslog-ng-2.0.10/src/syslog-ng-2.0.10/src/logreader.c:280-302 | A reader with one read per dispatch hands on all the lines of that read as long as the window stays open |
| EndOfStream.GateIsReached | tools-n-scripts/sysadm/syslog-ng-2.0.10/src/syslog-ng-2.0.10/src/logreader.c:319-408 | Every sequence of windows that the gate allows is gone through by one dispatch, with the lines that come and the acknowledgements that arrive |
| ReaderTurns.TurnsKeepReady | tools-n-scripts/sysadm/syslog-ng-2.0.10/src/syslog-ng-2.0.10/src/logreader.c:319-408 | In every order of arrivals, acknowledgements and dispatches the messages stay exactly those of the bytes eaten, the buffer is not full, the flag is right, and the bytes that arrived are neither lost, repeated nor reordered |
| ReaderTurns.ClosesToOne | tools-n-scripts/sysadm/syslog-ng-2.0.10/src/syslog-ng-2.0.10/src/logreader.c:343-406 | Without acknowledgements, a reader with several reads per dispatch closes every initial window down to one, line by line |
| ReaderTurns.NeverEndsWronglyExactly | tools-n-scripts/sysadm/syslog-ng-2.0.10/src/syslog-ng-2.0.10/src/logreader.c:319-408 | A matter of the configuration: over all arrivals, acknowledgements and dispatches, from any open initial window, no stream ends wrongly if and only if the reader reads once per dispatch, or fetch_limit is one, or the buffer has less than three bytes |
| ReaderRuns.DispatchIsReached | tools-n-scripts/sysadm/syslog-ng-2.0.10/src/syslog-ng-2.0.10/src/logreader.c:319-408 | Every dispatch that the state machine lets happen is one of a reader, with the same windows |
| ReaderRuns.RunIsReached | tools-n-scripts/sysadm/syslog-ng-2.0.10/src/syslog-ng-2.0.10/src/logreader.c:319-408 | In every run the reader of each source, given its lines and acknowledgements, hands on exactly the messages of the run with exactly its windows; between dispatches its window is never above that of the source, so that acknowledgements make up the difference |
| ReaderRuns.EveryRunIsReached | tools-n-scripts/sysadm/syslog-ng-2.0.10/src/syslog-ng-2.0.10/src/logreader.c:319-408 | For every run and every source that reads lines there is a reader, with some size of its buffer, that hands on exactly the messages of the run |
| ReaderRuns.WindowOnlyOpens | tools-n-scripts/sysadm/syslog-ng-2.0.10/src/syslog-ng-2.0.10/src/logsource.c:28-50 | Between two dispatches of a source no event closes its window |
| ReaderRuns.ReadersOverfill | tools-n-scripts/sysadm/syslog-ng-2.0.10/src/syslog-ng-2.0.10/src/logwriter.c:193-213 | A guarded writer whose queue is too short drops a message in a run that all the readers whose lines fit their buffers go through, with the buffers they have |
| Reader.LogReader.constructor | tools-n-scripts/sysadm/syslog-ng-2.0.10/src/syslog-ng-2.0.10/src/logreader.c:513-533 | A reader before its first byte |
| Reader.LogReader.Acknowledge | tools-n-scripts/sysadm/syslog-ng-2.0.10/src/syslog-ng-2.0.10/src/logsource.c:28-40 | Acknowledgements between dispatches open the window and change nothing else |
| Reader.LogReader.MemChr | tools-n-scripts/sysadm/syslog-ng-2.0.10/src/syslog-ng-2.0.10/src/logreader.c:232-234 | The first occurrence in the range, or its end |
| Reader.LogReader.FindEol | tools-n-scripts/sysadm/syslog-ng-2.0.10/src/syslog-ng-2.0.10/src/logreader.c:299-301 | The first NUL if there is one, otherwise the first line feed, otherwise the end |
| Reader.LogReader.LineEnd | tools-n-scripts/sysadm/syslog-ng-2.0.10/src/syslog-ng-2.0.10/src/logreader.c:289-292 | The line without the line-ending characters at its end |
| Reader.LogReader.HandleLine | tools-n-scripts/sysadm/syslog-ng-2.0.10/src/syslog-ng-2.0.10/src/logreader.c:192-213 | One message is handed on, the window closes by one and opens by what is acknowledged meanwhile, and the result says whether it is open |
| Reader.LogReader.TakeLine | tools-n-scripts/sysadm/syslog-ng-2.0.10/src/syslog-ng-2.0.10/src/logreader.c:280-297 | One round of the loop takes the specified line from the array |
| Reader.LogReader.ScanLoop | tools-n-scripts/sysadm/syslog-ng-2.0.10/src/syslog-ng-2.0.10/src/logreader.c:279-302 | The loop over the array computes the specified scan |
| Reader.LogReader.Compact | tools-n-scripts/sysadm/syslog-ng-2.0.10/src/syslog-ng-2.0.10/src/logreader.c:304-313 | The unconsumed bytes move to the front |
| Reader.LogReader.TakeAll | tools-n-scripts/sysadm/syslog-ng-2.0.10/src/syslog-ng-2.0.10/src/logreader.c:250-266 | The whole buffer is one message, unless it is empty |
| Reader.LogReader.IterateBuf | tools-n-scripts/sysadm/syslog-ng-2.0.10/src/syslog-ng-2.0.10/src/logreader.c:223-316 | The pass over the array computes the specified one, count included |
| Reader.LogReader.FdRead | tools-n-scripts/sysadm/syslog-ng-2.0.10/src/syslog-ng-2.0.10/src/logreader.c:347-353 | The bytes asked for fill the buffer, are more than none if it is not full, and what is delivered is appended |
| Reader.LogReader.ReadOnce | tools-n-scripts/sysadm/syslog-ng-2.0.10/src/syslog-ng-2.0.10/src/logreader.c:343-406 | One read: an error, and a read of nothing unless the file is followed, hand on what is buffered; anything else is followed by the specified pass |
| Reader.LogReader.ReadLoop | tools-n-scripts/sysadm/syslog-ng-2.0.10/src/syslog-ng-2.0.10/src/logreader.c:343-406 | The reading loop computes the specified one |
| Reader.LogReader.Fetch | tools-n-scripts/sysadm/syslog-ng-2.0.10/src/syslog-ng-2.0.10/src/logreader.c:319-408 | A dispatch on the array and the fields computes the specified dispatch |
| Reader.LogReader.FetchLog | tools-n-scripts/sysadm/syslog-ng-2.0.10/src/syslog-ng-2.0.10/src/logreader.c:319-408 | A dispatch obeys the gate, keeps the reader right, shrinks the waiting bytes if it began with a line, and ends as specified; a followed file ends only on an error, any file on an error or a read of nothing; for a single-read reader, or with a window of at least fetch_limit, it ends with exactly the messages of the stream |
| Reader.LogReader.GetPos | tools-n-scripts/sysadm/syslog-ng-2.0.10/src/syslog-ng-2.0.10/src/logreader.c:501-511 | The position of the first byte that is not part of a message; the messages so far are the clean cut up to it |
| Reader.LogReader.SetPos | tools-n-scripts/sysadm/syslog-ng-2.0.10/src/syslog-ng-2.0.10/src/logreader.c:480-490 | Reading starts at the position, or at the end of a file that has become shorter |
| Reader.RestartLosesNothing | tools-n-scripts/sysadm/syslog-ng-2.0.10/src/syslog-ng-2.0.10/src/logreader.c:480-511 | A reader started where another stopped hands on, together with it, exactly the messages of the whole stretch |
| Reader.ChunksDoNotMatter | tools-n-scripts/sysadm/syslog-ng-2.0.10/src/syslog-ng-2.0.10/src/logreader.c:223-316 | Two readers of the same bytes with no whole line buffered have handed on the same messages and buffer the same rest |
| WireRoundTrip.PrintedLine | tools-n-scripts/sysadm/syslog-ng-2.0.10/src/syslog-ng-2.0.10/src/logwriter.c:263-268 | The printed line without its end is priority, stamp and the text without its end |
| WireRoundTrip.PrintedStamp | tools-n-scripts/sysadm/syslog-ng-2.0.10/src/syslog-ng-2.0.10/src/logmsg.c:299-356 | The printed time stamp is recognised, unless the host starts like the year of another stamp format |
| WireRoundTrip.ParseBehindPri | tools-n-scripts/sysadm/syslog-ng-2.0.10/src/syslog-ng-2.0.10/src/logmsg.c:154-181 | A bracketed decimal priority of 16 bits reads back as itself |
| WireRoundTrip.SafeRoundTrips | tools-n-scripts/sysadm/syslog-ng-2.0.10/src/syslog-ng-2.0.10/src/logmsg.c:376-530 | A safe message comes back with priority, stamp, host, text, and the program name (none for a repeat line without host) |
| WireRoundTrip.ReturnedWithoutHost | tools-n-scripts/sysadm/syslog-ng-2.0.10/src/syslog-ng-2.0.10/src/logmsg.c:376-488 | Without a host, a text that comes back is not a forwarded one and does not start with a space or with a word that is read as a host |
| WireRoundTrip.ReturnedIsSafe | tools-n-scripts/sysadm/syslog-ng-2.0.10/src/syslog-ng-2.0.10/src/logmsg.c:376-530 | A message that comes back was safe |
| WireRoundTrip.RelayRoundTrip | tools-n-scripts/sysadm/syslog-ng-2.0.10/src/syslog-ng-2.0.10/src/logwriter.c:263-268 | Priority, stamp, host and text survive printing and parsing if and only if the stated conditions on host and text hold, for an empty host too (section 4.1 of RFC 3164) |
| WireLaws.EndsIgnored | tools-n-scripts/sysadm/syslog-ng-2.0.10/src/syslog-ng-2.0.10/src/logmsg.c:137-144 | Line feeds and NULs at the end do not matter; unparsed, the text is the rest |
| WireLaws.DecimalDigits | tools-n-scripts/sysadm/syslog-ng-2.0.10/src/syslog-ng-2.0.10/src/logwriter.c:263-268 | Numbers are written in decimal, the highest digit first |
| WireLaws.SpaceBehindPriority | tools-n-scripts/sysadm/syslog-ng-2.0.10/src/syslog-ng-2.0.10/src/logmsg.c:193-197 | Spaces behind the priority do not matter |
| WireLaws.DefaultPriority | tools-n-scripts/sysadm/syslog-ng-2.0.10/src/syslog-ng-2.0.10/src/logmsg.c:182-190 | Without a bracket the line is read as with priority 5 for a kernel source and 13 for any other |
| WireLaws.PriorityWraps | tools-n-scripts/sysadm/syslog-ng-2.0.10/src/syslog-ng-2.0.10/src/logmsg.c:160-176 | A decimal priority in brackets is read modulo 65536 |
| WireLaws.EmptyPriority | tools-n-scripts/sysadm/syslog-ng-2.0.10/src/syslog-ng-2.0.10/src/logmsg.c:154-181 | Empty brackets mean priority 0 |
| WireLaws.UnclosedPriority | tools-n-scripts/sysadm/syslog-ng-2.0.10/src/syslog-ng-2.0.10/src/logmsg.c:160-181 | A priority without a closing bracket is the end of the line |
| WireLaws.UnparseablePriority | tools-n-scripts/sysadm/syslog-ng-2.0.10/src/syslog-ng-2.0.10/src/logmsg.c:166-172 | Anything but digits in the brackets makes the whole line, up to the first NUL, the text of a message with priority 43 |
| WireLaws.NoStamp | tools-n-scripts/sysadm/syslog-ng-2.0.10/src/syslog-ng-2.0.10/src/logmsg.c:493-530 | Without a time stamp host and date are empty, the program is the kernel exactly if the facility bits are zero and otherwise the first word if something ends it, and all of the line is the text |
| WireLaws.AnyStamp | tools-n-scripts/sysadm/syslog-ng-2.0.10/src/syslog-ng-2.0.10/src/logmsg.c:199-371 | Behind a time stamp of any of the four formats the line is read in the same way, and its date is the stamp, without the fraction of a BSD stamp |
| WireLaws.SixDigits | tools-n-scripts/sysadm/syslog-ng-2.0.10/src/syslog-ng-2.0.10/src/logmsg.c:339-356 | Six digits of a fraction are skipped and no more |
| WireLaws.HostIsFirstWord | tools-n-scripts/sysadm/syslog-ng-2.0.10/src/syslog-ng-2.0.10/src/logmsg.c:426-487 | A first word of at most 255 characters, with host characters only if they are checked, not a bad name, and followed by a space, is the host; what is behind the spaces is the text, its first word the program |
| WireLaws.NoHost | tools-n-scripts/sysadm/syslog-ng-2.0.10/src/syslog-ng-2.0.10/src/logmsg.c:426-487 | With any other first word there is no host, and it begins the text |
| WireLaws.RepeatLine | tools-n-scripts/sysadm/syslog-ng-2.0.10/src/syslog-ng-2.0.10/src/logmsg.c:413-419 | A line that says how often the last one was repeated has no host and no program |
| WireLaws.ForwardedLine | tools-n-scripts/sysadm/syslog-ng-2.0.10/src/syslog-ng-2.0.10/src/logmsg.c:389-411 | A line forwarded by AIX is read as the line behind the prefix, except that the host it came from stands in for a missing one |
| RelayStream.RelayPreserves | tools-n-scripts/sysadm/syslog-ng-2.0.10/src/syslog-ng-2.0.10/src/logwriter.c:263-268 | A stream of printed lines that have at most one byte more than the buffer, the line feed included, cut greedily, parses back into all the messages in order |
| RelayStream.LinePieces | tools-n-scripts/sysadm/syslog-ng-2.0.10/src/syslog-ng-2.0.10/src/logreader.c:223-316 | A printed line is cut as itself if it fits into the buffer without its line feed, and into several pieces otherwise |
| RelayStream.TooLongGivesMore | tools-n-scripts/sysadm/syslog-ng-2.0.10/src/syslog-ng-2.0.10/src/logreader.c:250-266 | A stream with a line that does not fit gives more messages than there were |
| RelayStream.RelayPreservesExactly | tools-n-scripts/sysadm/syslog-ng-2.0.10/src/syslog-ng-2.0.10/src/logreader.c:223-316 | Of messages that meet the round-trip condition, the stream gives back each one in its place and nothing else if and only if every line has at most one byte more than the buffer |
| RelayRuns.ReadComesBack | tools-n-scripts/sysadm/syslog-ng-2.0.10/src/syslog-ng-2.0.10/src/logreader.c:319-408 | What a reader has handed on of a beginning of such a stream parses back into the first messages, and into all of them when the stream has arrived and is read |
| RelayRuns.RelayEndToEnd | tools-n-scripts/sysadm/syslog-ng-2.0.10/src/syslog-ng-2.0.10/src/logwriter.c:284-380 | In every run of the pipeline, and whatever reads, dispatches and window stalls the reader of what a guarded writer with enough room has sent goes through, its messages parse back one by one into the first messages routed to that writer, and into all of them when all is written, arrived and read |
| WireParser.StrippedLength | tools-n-scripts/sysadm/syslog-ng-2.0.10/src/syslog-ng-2.0.10/src/logmsg.c:137-138 | The length without line feeds and NULs at the end |
| WireParser.SkipBlanks | tools-n-scripts/sysadm/syslog-ng-2.0.10/src/syslog-ng-2.0.10/src/logmsg.c:406-410 | Moves past exactly the blanks (and colons) |
| WireParser.ReadPriority | tools-n-scripts/sysadm/syslog-ng-2.0.10/src/syslog-ng-2.0.10/src/logmsg.c:154-181 | Reads the number up to the bracket, or fails on a non-digit |
| WireParser.Find | tools-n-scripts/sysadm/syslog-ng-2.0.10/src/syslog-ng-2.0.10/src/logmsg.c:400-405 | The next occurrence or the end |
| WireParser.SkipFraction | tools-n-scripts/sysadm/syslog-ng-2.0.10/src/syslog-ng-2.0.10/src/logmsg.c:339-356 | Moves past at most six digits of a fraction |
| WireParser.TakeStamp | tools-n-scripts/sysadm/syslog-ng-2.0.10/src/syslog-ng-2.0.10/src/logmsg.c:199-371 | Recognises the same one of the four stamp formats, in the same order |
| WireParser.ScanWord | tools-n-scripts/sysadm/syslog-ng-2.0.10/src/syslog-ng-2.0.10/src/logmsg.c:432-447 | The end of a word under length limit and character check |
| WireParser.TakeProgram | tools-n-scripts/sysadm/syslog-ng-2.0.10/src/syslog-ng-2.0.10/src/logmsg.c:473-487 | The program name, if something ends it |
| WireParser.TakeHostName | tools-n-scripts/sysadm/syslog-ng-2.0.10/src/syslog-ng-2.0.10/src/logmsg.c:426-465 | The host before a blank, unless it is a bad host name; otherwise the fallback, and nothing is consumed |
| WireParser.TakeHost | tools-n-scripts/sysadm/syslog-ng-2.0.10/src/syslog-ng-2.0.10/src/logmsg.c:413-492 | Host, program and text, with the repeat and bad-hostname cases |
| WireParser.TakeBsdStamp | tools-n-scripts/sysadm/syslog-ng-2.0.10/src/syslog-ng-2.0.10/src/logmsg.c:325-356 | The position behind a BSD stamp and its fraction |
| WireParser.TakeForwarder | tools-n-scripts/sysadm/syslog-ng-2.0.10/src/syslog-ng-2.0.10/src/logmsg.c:389-411 | The forwarding host and the position behind it |
| WireParser.TakeBody | tools-n-scripts/sysadm/syslog-ng-2.0.10/src/syslog-ng-2.0.10/src/logmsg.c:376-411 | Host, program and text behind the time stamp, with the AIX forwarding prefix |
| WireParser.ReplaceBreaks | tools-n-scripts/sysadm/syslog-ng-2.0.10/src/syslog-ng-2.0.10/src/logmsg.c:525-530 | Line breaks become spaces |
| WireParser.LogMsgParse | tools-n-scripts/sysadm/syslog-ng-2.0.10/src/syslog-ng-2.0.10/src/logmsg.c:127-531 | The loops compute the specified parse for every input and every flag |
| DnsCache.StoreKeepsValid | tools-n-scripts/sysadm/syslog-ng-2.0.10/src/syslog-ng-2.0.10/src/dnscache.c:256-288 | Every store keeps keys distinct within and across the two lists |
| DnsCache.DriftLaw | tools-n-scripts/sysadm/syslog-ng-2.0.10/src/syslog-ng-2.0.10/src/dnscache.c:276-280 | The persistent count drifts by one exactly when a store replaces an entry of the other kind |
| DnsCache.StoreWithinCapacity | tools-n-scripts/sysadm/syslog-ng-2.0.10/src/syslog-ng-2.0.10/src/dnscache.c:256-288 | While the dynamic entries exceed the capacity by at most what the count is off, no store aborts and the bound is kept; the entry stored longest ago is evicted exactly if a key that is new to the cache is stored as a dynamic one when the bound is reached |
| DnsCache.RunKeepsBounded | tools-n-scripts/sysadm/syslog-ng-2.0.10/src/syslog-ng-2.0.10/src/dnscache.c:256-288 | While the dynamic entries exceed the capacity by at most what the count is off, no run of stores and clean-ups aborts, and every run keeps that bound |
| DnsCache.LoweredCapacityAborts | tools-n-scripts/sysadm/syslog-ng-2.0.10/src/syslog-ng-2.0.10/src/dnscache.c:290-300 | An example: with one dynamic entry and the capacity lowered from one to zero, a hosts-file line for the same address evicts from an empty list, which aborts |
| DnsCache.ListingAborts | tools-n-scripts/sysadm/syslog-ng-2.0.10/src/syslog-ng-2.0.10/src/dnscache.c:282-287 | With more dynamic entries than twice what there is room for, lines of the hosts file alone, each for the oldest dynamic address, lead to an abort |
| DnsCache.NeverAbortsExactly | tools-n-scripts/sysadm/syslog-ng-2.0.10/src/syslog-ng-2.0.10/src/dnscache.c:256-300 | From a new capacity on no run of stores and clean-ups, and just as well no run in the order of the resolver, aborts if and only if the dynamic entries that are there are at most twice the new capacity plus what the count is off |
| DnsCache.DriftHappens | tools-n-scripts/sysadm/syslog-ng-2.0.10/src/syslog-ng-2.0.10/src/dnscache.c:276-287 | A resolved address that is then listed in the hosts file breaks the count, and with a capacity of one the next address that is resolved is not kept |
| DnsCache.CapacityExceeded | tools-n-scripts/sysadm/syslog-ng-2.0.10/src/syslog-ng-2.0.10/src/dnscache.c:276-287 | A listed address that is stored as a dynamic one, which the resolver never does (UnansweredIsNotListed), breaks the count the other way, and a capacity of one then holds two dynamic entries |
| DnsCache.EmptyInUse | tools-n-scripts/sysadm/syslog-ng-2.0.10/src/syslog-ng-2.0.10/src/dnscache.c:60-67 | The empty cache satisfies what the theorems about runs start from |
| DnsCache.FoundExactly | tools-n-scripts/sysadm/syslog-ng-2.0.10/src/syslog-ng-2.0.10/src/dnscache.c:236-253 | A lookup answers a host exactly if either list holds an entry with it for the key that is persistent or not older than the positive lifetime, for a failure the negative one |
| DnsCache.StoredAnswers | tools-n-scripts/sysadm/syslog-ng-2.0.10/src/syslog-ng-2.0.10/src/dnscache.c:236-253 | A stored name answers until it is older than the positive lifetime, a stored failure until it is older than the negative one, an entry with time zero always |
| DnsCache.UnknownNotCached | tools-n-scripts/sysadm/syslog-ng-2.0.10/src/syslog-ng-2.0.10/src/dnscache.c:236-253 | A key on neither list is not answered |
| DnsCache.CleanupForgetsListed | tools-n-scripts/sysadm/syslog-ng-2.0.10/src/syslog-ng-2.0.10/src/dnscache.c:144-152 | Dropping the listed entries leaves resolved addresses their answers and all others none |
| DnsCache.StoreUpdatesMap | tools-n-scripts/sysadm/syslog-ng-2.0.10/src/syslog-ng-2.0.10/src/dnscache.c:256-288 | The cache refines a time-stamped map: a store sets its key, and changes no other entry but the evicted one |
| DnsCache.EvictsOldest | tools-n-scripts/sysadm/syslog-ng-2.0.10/src/syslog-ng-2.0.10/src/dnscache.c:282-287 | While the clock does not go back, the evicted entry is one that no remaining dynamic entry is older than |
| DnsCache.RunKeepsSound | tools-n-scripts/sysadm/syslog-ng-2.0.10/src/syslog-ng-2.0.10/src/dnscache.c:276-287 | The persistent count is right and the capacity respected after every beginning of a run if and only if the run never stores an address over an entry of the other kind |
| DnsCache.UnansweredIsNotListed | tools-n-scripts/sysadm/syslog-ng-2.0.10/src/syslog-ng-2.0.10/src/dnscache.c:236-253 | An address that the cache does not answer is not a listed one |
| DnsCache.ResolverKeepsCapacity | tools-n-scripts/sysadm/syslog-ng-2.0.10/src/syslog-ng-2.0.10/src/misc.c:162-172 | Used as the resolver does (look up, store what was not answered) together with the hosts file, the cache never aborts and never holds more dynamic entries than its capacity |
| DnsCache.ResolveStores | tools-n-scripts/sysadm/syslog-ng-2.0.10/src/syslog-ng-2.0.10/src/misc.c:162-172 | An address that the cache answers changes nothing; any other is in the cache afterwards with the outcome and time of its resolution, if there is room for one entry |
| DnsList.EntryList.Append | tools-n-scripts/sysadm/syslog-ng-2.0.10/src/syslog-ng-2.0.10/src/dnscache.c:105-112 | The new entry is last on the doubly linked list, which stays well formed |
| DnsList.FreeEntry | tools-n-scripts/sysadm/syslog-ng-2.0.10/src/syslog-ng-2.0.10/src/dnscache.c:114-122 | The entry is unlinked; the list stays well formed and keeps the others in order |
| DnsList.EntryList.Oldest | tools-n-scripts/sysadm/syslog-ng-2.0.10/src/syslog-ng-2.0.10/src/dnscache.c:282-287 | The first entry between the markers, if there is one |
| DnsList.DnsTable.Replace | tools-n-scripts/sysadm/syslog-ng-2.0.10/src/syslog-ng-2.0.10/src/dnscache.c:262-280 | Table and lists are updated to the specified cache, whichever list the replaced entry was on |
| DnsList.DnsTable.Evict | tools-n-scripts/sysadm/syslog-ng-2.0.10/src/syslog-ng-2.0.10/src/dnscache.c:282-287 | The specified eviction, or the specified abort |
| DnsList.DnsTable.Store | tools-n-scripts/sysadm/syslog-ng-2.0.10/src/syslog-ng-2.0.10/src/dnscache.c:256-288 | A store leaves the specified cache and does not abort within the bound; the table is exactly the entries of both lists by key |
| DnsList.DnsTable.CleanupPersistent | tools-n-scripts/sysadm/syslog-ng-2.0.10/src/syslog-ng-2.0.10/src/dnscache.c:144-152 | Every persistent entry goes, from table, list and count |
| DnsList.DnsTable.LookUp | tools-n-scripts/sysadm/syslog-ng-2.0.10/src/syslog-ng-2.0.10/src/dnscache.c:236-253 | The hash lookup answers as the specified cache does: with the entry of the key, as long as it is not older than the lifetime of its kind |
| MemTrace.SlotsPartitioned | tools-n-scripts/sysadm/syslog-ng-2.0.10/src/syslog-ng-2.0.10/src/memtrace.c:302-406 | Every slot is on the free list or on exactly one chain, the one its pointer hashes to |
| MemTrace.HashBits | tools-n-scripts/sysadm/syslog-ng-2.0.10/src/syslog-ng-2.0.10/src/memtrace.c:132-136 | The hash of a pointer is its fifteen bits above the lowest three |
| MemTrace.AddKeepsSound | tools-n-scripts/sysadm/syslog-ng-2.0.10/src/syslog-ng-2.0.10/src/memtrace.c:302-345 | Adding a block keeps all lists ended and disjoint, chains right by hash, and the counters equal to what is chained |
| MemTrace.DelKeepsSound | tools-n-scripts/sysadm/syslog-ng-2.0.10/src/syslog-ng-2.0.10/src/memtrace.c:347-392 | Deleting any slot of any chain keeps all lists ended and disjoint, chains right by hash, and the counters equal to what is chained |
| MemTrace.AddRecords | tools-n-scripts/sysadm/syslog-ng-2.0.10/src/syslog-ng-2.0.10/src/memtrace.c:302-345 | An added block is recorded with its size; no other pointer's size changes |
| MemTrace.DelRecords | tools-n-scripts/sysadm/syslog-ng-2.0.10/src/syslog-ng-2.0.10/src/memtrace.c:347-392 | A deletion changes no other pointer's size |
| MemTrace.DelUncovers | tools-n-scripts/sysadm/syslog-ng-2.0.10/src/syslog-ng-2.0.10/src/memtrace.c:347-392 | A deletion of the first slot with the pointer brings back the size in the next one that holds it, or none |
| MemTrace.AddThenDel | tools-n-scripts/sysadm/syslog-ng-2.0.10/src/syslog-ng-2.0.10/src/memtrace.c:302-392 | Deleting a pointer that was just added takes the same slot off again: lists, chains and counters are as before, and so is the recorded size of every pointer, an older block with the same pointer included |
| MemTrace.InitialIsSound | tools-n-scripts/sysadm/syslog-ng-2.0.10/src/syslog-ng-2.0.10/src/memtrace.c:104-115 | The initial arrays are sound |
| MemTrace.MemTracer.constructor | tools-n-scripts/sysadm/syslog-ng-2.0.10/src/syslog-ng-2.0.10/src/memtrace.c:95-130 | All slots are free and all chains empty |
| MemTrace.MemTracer.Add | tools-n-scripts/sysadm/syslog-ng-2.0.10/src/syslog-ng-2.0.10/src/memtrace.c:302-345 | A block is recorded exactly if a slot is free; otherwise nothing changes |
| MemTrace.MemTracer.Walk | tools-n-scripts/sysadm/syslog-ng-2.0.10/src/syslog-ng-2.0.10/src/memtrace.c:360-373 | The chain walk ends at the first slot with the pointer, no earlier one on the chain holding it, with its predecessor; or at the end, if none does |
| MemTrace.MemTracer.Del | tools-n-scripts/sysadm/syslog-ng-2.0.10/src/syslog-ng-2.0.10/src/memtrace.c:347-392 | Removes the first slot with the pointer from its chain, which is the block added last for it, and reports whether there was one |
| MemTrace.MemTracer.GetSize | tools-n-scripts/sysadm/syslog-ng-2.0.10/src/syslog-ng-2.0.10/src/memtrace.c:408-433 | The size recorded last, or -1 |
| Template.CompileMeans | tools-n-scripts/sysadm/syslog-ng-2.0.10/src/syslog-ng-2.0.10/src/templates.c:44-123 | Rendering the compiled elements is direct left-to-right substitution, for every template and every pending text |
| Template.TextExpands | tools-n-scripts/sysadm/syslog-ng-2.0.10/src/syslog-ng-2.0.10/src/templates.c:107-113 | Text without a dollar sign stands for itself |
| Template.DigitExpands | tools-n-scripts/sysadm/syslog-ng-2.0.10/src/syslog-ng-2.0.10/src/templates.c:60-64 | A dollar sign and a digit are the capture of that number, whatever follows |
| Template.NumberExpands | tools-n-scripts/sysadm/syslog-ng-2.0.10/src/syslog-ng-2.0.10/src/templates.c:65-83 | A number in braces is the capture of that number |
| Template.NameExpands | tools-n-scripts/sysadm/syslog-ng-2.0.10/src/syslog-ng-2.0.10/src/templates.c:65-86 | A name in braces is its macro; an unknown one is nothing |
| Template.PlainNameExpands | tools-n-scripts/sysadm/syslog-ng-2.0.10/src/syslog-ng-2.0.10/src/templates.c:87-95 | A name reaches as far as capitals and underscores go and is its macro; a dollar sign before anything else is dropped |
| Template.LogTemplate.ReadBraced | tools-n-scripts/sysadm/syslog-ng-2.0.10/src/syslog-ng-2.0.10/src/templates.c:65-86 | A braced reference: a number if all its characters are digits, otherwise a name; and where it ends |
| Template.LogTemplate.ReadName | tools-n-scripts/sysadm/syslog-ng-2.0.10/src/syslog-ng-2.0.10/src/templates.c:87-95 | A name of capitals and underscores |
| Template.LogTemplate.TakeRef | tools-n-scripts/sysadm/syslog-ng-2.0.10/src/syslog-ng-2.0.10/src/templates.c:56-106 | A reference becomes an element with the text before it, unless it names no macro |
| Template.LogTemplate.Compile | tools-n-scripts/sysadm/syslog-ng-2.0.10/src/syslog-ng-2.0.10/src/templates.c:44-123 | The scan computes the specified element list |
| Template.LogTemplate.Format | tools-n-scripts/sysadm/syslog-ng-2.0.10/src/syslog-ng-2.0.10/src/templates.c:125-153 | Formatting, compiled before or not, is direct substitution |
| Filter.FlipFlips | tools-n-scripts/sysadm/syslog-ng-2.0.10/src/syslog-ng-2.0.10/src/cfg-grammar.y:792 | Flipping the flag of any node flips its result and nothing else |
| Filter.EvalIsMeaning | tools-n-scripts/sysadm/syslog-ng-2.0.10/src/syslog-ng-2.0.10/src/filter.c:129-156 | For every acyclic set of rules, evaluation is the truth value of the expression as written, a missing rule counting as true; the captures left are those of the last regular expression tried |
| Filter.CapturesAre | tools-n-scripts/sysadm/syslog-ng-2.0.10/src/syslog-ng-2.0.10/src/filter.c:280-302 | Stored are the groups before the first unset one, group 0 included, up to 255; of 256 none |
| Filter.LeavesMean | tools-n-scripts/sysadm/syslog-ng-2.0.10/src/syslog-ng-2.0.10/src/filter.c:280-304 | A regular expression holds exactly if it matches and leaves its groups, other tests leave the captures as they are, and a rule that is not there holds |
| Persist.StringReadBack | tools-n-scripts/sysadm/syslog-ng-2.0.10/src/syslog-ng-2.0.10/src/cfg.c:494-526 | A written string reads back exactly if it has at most 4096 bytes |
| Persist.LengthBytes | tools-n-scripts/sysadm/syslog-ng-2.0.10/src/syslog-ng-2.0.10/src/cfg.c:494-526 | Lengths are written with the highest byte first |
| Persist.LoadKeepsPresent | tools-n-scripts/sysadm/syslog-ng-2.0.10/src/syslog-ng-2.0.10/src/cfg.c:565-608 | Loading leaves names that are there their values, and a file without the magic bytes adds nothing |
| Persist.FirstValueLoaded | tools-n-scripts/sysadm/syslog-ng-2.0.10/src/syslog-ng-2.0.10/src/cfg.c:424-472 | Of two values for a name the first one is loaded |
| Persist.SaveLoadExact | tools-n-scripts/sysadm/syslog-ng-2.0.10/src/syslog-ng-2.0.10/src/cfg.c:541-608 | Loading a saved store gives exactly its surviving entries if and only if all their strings have at most 4096 bytes, in whatever order they were written |
| Persist.SecondSaveIsEmpty | tools-n-scripts/sysadm/syslog-ng-2.0.10/src/syslog-ng-2.0.10/src/cfg.c:588-604 | What was loaded and not added again is not saved again |
| Persist.PersistentConfig.Add | tools-n-scripts/sysadm/syslog-ng-2.0.10/src/syslog-ng-2.0.10/src/cfg.c:424-472 | A name that is present keeps its value, a new one gets it, and no other name changes |
| Persist.PersistentConfig.Fetch | tools-n-scripts/sysadm/syslog-ng-2.0.10/src/syslog-ng-2.0.10/src/cfg.c:474-492 | A value is handed out once |
| Persist.PersistentConfig.Save | tools-n-scripts/sysadm/syslog-ng-2.0.10/src/syslog-ng-2.0.10/src/cfg.c:528-563 | The file is the magic and the surviving pairs in the order of the walk |
| Persist.PersistentConfig.Load | tools-n-scripts/sysadm/syslog-ng-2.0.10/src/syslog-ng-2.0.10/src/cfg.c:565-608 | The reading loop, with its early ends, adds exactly what the specification reads |

## Left out

- Sockets, files, signals, timers and the GLib main loop: reads and writes are arbitrary results, the scheduler is an arbitrary order of enabled events.
- Configuration reload, options swapped under a running source, and `log_writer_free`, which releases queued messages without acknowledging them.
- The internal() source, which dispatches without looking at the window.
- Sources that share one options record, and so one window.
- Overflow of counters: reference count (16 bits), acknowledgement counts, windows, `msg_count`, positions; priorities are read as unbounded numbers and then kept in 16 bits.
- Daemon.LogCenter.FlushLog: acknowledges after the writes of a flush, not between them; acknowledgements touch only messages and windows, so the final state is the same, but a state in the middle of a flush is not shown.
- Daemon.LogCenter.Dispatch: hands on the messages of a dispatch as they come out of the reader, whose loop is `Reader.LogReader.FetchLog`; the parser, the filters and the templates are functions of the message here and are not run inside the pipeline.
- A writer with neither a template nor a file or protocol flag, for which the line buffer is not overwritten; the formats other than the default protocol line; flush_lines and flush_timeout, which only delay flushes.
- Calendar conversion: the time stamp is its text, `keep_timestamp` and zones are not modelled.
- A line that differs between the copies of one message at the same writer: a template that names a capture can, because the filters of later connections run between the deliveries (center.c:335-373); `Config.format` gives one line per message and writer.
- Regular expressions, facility, level and netmask tests, bad_hostname and macro expansion are arbitrary functions of their input.
- WireParser.LogMsgParse: copies the line where the C code writes spaces over line breaks in the reader's buffer, one byte past the line included; the flags for internal and local messages are not modelled.
- Packet-terminated and padded modes of the reader, `prev_addr`, and NUL bytes as line terminators in the framing statements (the model keeps them, the statements are for streams without them).
- Reader.LogReader.SetPos: a failing lseek is not modelled.
- WireRoundTrip.RelayRoundTrip: NUL bytes in host or text, at which the C formatting stops.
- Filter.EvalIsMeaning: evaluation is a function that passes the message's captures along as a value; when all 256 groups match, their number wraps to zero and the C code copies them into an empty allocation (filter.c:297-301), of which the model has only the zero; the flag that a missing rule was reported once is not modelled.
- Template.LogTemplate.Compile: templates with a `${` that is never closed, where the C code reads past the end of the template.
- Template.LogTemplate.ReadBraced: a `${` that is never closed, as above, and reference numbers that overflow a C int (templates.c:65-83).
- Template.LogTemplate.TakeRef: a `${` that is never closed, as above.
- Template.LogTemplate.Format: templates with a `${` that is never closed, as above.
- Writers.LogWriter.Broken: the notification of the control object, whose answer (a new descriptor) is an event of its own.
- Persist.PersistentConfig.Save: write errors, strings that do not fit a 32-bit length, and strings with NUL bytes, of which the C code writes only the beginning (`strlen`).
- Parsing the hosts file; a change of the capacity of the DNS cache in the middle of a run (`DnsCache.NeverAbortsExactly` is about the runs from the change on).
- MemTrace.MemTracer.Add: does not model that the C code returns with the lock held when no slot is free.
- The tracer's locks, backtraces, canaries and periodic statistics; it is modelled sequentially.
- Statistics counters other than the dropped messages of a writer.
- Characters stand for bytes.
- Destination drivers other than the queue writer, Bison tables, and the rest of the repository.
