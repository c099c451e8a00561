# dinix, modelled and verified in Dafny

`dafny verify dfyconfig.toml` checks the whole project. It models three parts of dinix.

**The dinit control client** (`dinit-client`). Many tasks share one byte stream to the daemon.
Replies carry no request number, and information packets can come between any two reply packets,
also in the middle of a service listing. The client gets by with a lock, one pending slot and one
reader task.

- `Protocol`, `Requests`: the packet layouts as bytes, both ways.
- `Wire`: the reader task as a machine that moves from one call of `exactly` to the next.
  `Feed` runs it over any bytes.
- `Answers`, `Framing`: what the daemon may answer to each request, and how the machine takes it.
- `Session`: requesters, lock, slot, reader, daemon and transport as one step system. An action is
  what one party does between two await points; a run is any sequence of possible actions.
- `Synchrony`: what every step of a run keeps. `Matching`, `Progress`, `Events`, `Negotiation`: what
  follows for whole runs. `Cancellation`: what does not, once a task is cancelled inside a request.
  `Faults`: what a daemon that breaks the protocol can do.
- `Connection`: the client's own methods, with their loops, proved against the machine.

**The init pipeline** (`options.nix`, `dinix-init`). Nix writes `init.spec`, Rust reads it, expands
variables in its paths, and makes directories.

- `Expand`: variable substitution, `ExpandForms`: what each form gives. `InitSpec`, `InitSpecText`:
  reader and writer of the file, `SpecLines`: what the reader makes of text anybody wrote.
  `Attrs`: attribute sets in the order of their names.
- `FileTree`, `InitRun`: a file tree with symbolic links, modes and owners; the steps; the program.
  `RootRun`: what root can always make of a spec, and inputs at which a run falls short.

**Generation in Nix** (`modular.nix`, `options.nix`).

- `CommandLine`: quoting of argument vectors, and what becomes of them. `Modular`: the tree of
  modular services, its names, state directories and configuration files. `Boot`: the ordering edges
  dinix adds.

Where the source changes things step by step (the client's handlers and decoders, the expander, the
spec reader, dinix-init), the model has methods and classes with the same loops, each tied by its
`ensures` to a function; the results are lemmas about those functions.

## What holds, and what does not

- In every run each request ends with the decoding of the answer to that very request, or with
  "connection closed", and with the latter only once the reader has ended or a send has failed. An
  answer that has arrived is never lost. However far a run has come, there are steps that bring
  every request to its end, and such steps cannot go on for ever (`Progress.EveryRequestIsAnswered`,
  `Progress.NoWayLeadsElsewhere`). For every version a daemon may name there is a run in which the
  client learns it, and the connection opens exactly when the versions overlap
  (`Negotiation.NegotiationRuns`).
- This holds of runs in which no task is cancelled inside a request. A cancelled task leaves its
  `_Pending` in the slot: the next request gets the answer to the cancelled one, or is swallowed by
  it (`Cancellation.CancelledWaitMisleads`, `Cancellation.CancelledSendSwallows`).
- `list_services` returns the daemon's list *unless it is empty*: LISTDONE as the first reply is
  taken for an unexpected reply. `Answers.ListingReturned` has the exact condition,
  `Answers.EmptyListingIsRejected` the packet.
- A `dir` step refuses a path that ends in a symbolic link *unless the path is written with a
  trailing slash or dot*: `lstat` then follows the link, and mode and owner of its target are set.
  The comment at `dinix-init/src/main.rs:80-83` promises refusal. `InitRun.LinkIsRefusedExactly`
  has the exact condition, `RootRun.SlashReachesThroughLink` a tree and a path.
- A successful run of dinix-init, by any account, leaves what it was asked for exactly when, in the
  tree it starts from, steps whose paths lead to one place agree and no mode is above 0o7777
  (`InitRun.SuccessMeansAllHold`). Then a second run, by any account, succeeds and changes nothing;
  otherwise it fails for some account (`InitRun.SecondRunDoesNothing`). The mode is parsed as any
  32-bit number, and one above 0o7777 never compares equal (`InitRun.RepeatableExactly`).
  `RootRun.RootRunsSpec` says when root succeeds. `RootRun.TooManyModeBits` and
  `RootRun.LaterStepWins` are inputs that fail.
- Taking a rendered command apart gives the argument vector exactly when no argument holds a newline
  (`CommandLine.CommandRoundTrip`, `CommandLine.NewlineIsLost`). Each word then arrives as its
  expansion, so the vector arrives as written exactly when every argument is one line and expands to
  itself (`CommandLine.ArrivesUnchanged`); a state directory arrives as the base the operator chose.
- Flattening the service tree keeps every service exactly when the dashed names are distinct;
  `a.services."b-c"` and `"a-b".services.c` are one name (`Modular.DashesCanCollide`). Without
  slashes in them, and with no two files of one service named alike, no file is written over
  another one (`Modular.PlainFilesAreEnough`).
- The container stops with a critical service and not with one that may fail
  (`Boot.BootFallsWith`, `Boot.MayFailAlone`). The generated ordering is without cycles exactly when the user's own is, dinix-init leads to no
  service in it, and no attached service leads to boot (`Boot.GenerationKeepsAcyclic`).

## Assumptions

- No task is cancelled inside a request, neither while it sends nor while it waits for its reply:
  `dinit-client/src/dinit_client/client.py:366-374` has no cleanup for that. What then can happen is
  in `Cancellation`.
- Requests are made only after the version query has been answered and accepted, and a query is
  made once.
- A stream on which a send failed once does not send again. A failed send may have sent part of its
  packet; from then on nothing but "closed" is promised to later requests.
- A send on an open stream comes to its end: the transport takes the bytes, or the send fails. A
  daemon that never reads can hold up a send, and with it the lock, also after the reader has ended;
  that requests end on a closed connection rests on this.
- The subscriber does not close its end of the event buffer.
- Integers are little-endian, `int` has 4 bytes, `long` and `size_t` have 8. Text is bytes on the
  wire and characters elsewhere; decoding of UTF-8 never fails.
- `mod_time` is a pair of seconds and nanoseconds.
- Letters and digits outside ASCII are whatever Unicode says they are: any two properties that are
  right on ASCII.
- The file tree changes only through dinix-init. Who may add to a directory is any rule; a new
  directory gets any fixed mode and the account's owner and group; chmod needs the owner or root,
  chown needs root; searching a directory needs no permission.
- dinit reads a setting's value up to the end of its line, takes it apart, and then substitutes
  variables word by word, by the rules dinix-init follows for its own spec.

## Model

| member | source | states |
|---|---|---|
| Protocol.VersionRoundTrip | dinit-client/src/dinit_client/protocol.py:336-338 | a version reply decodes to the version it was made of |
| Protocol.ServiceRecordRoundTrip | dinit-client/src/dinit_client/protocol.py:341-346 | a service record decodes to what it was made of, for every state and 32-bit handle |
| Protocol.DecodedStatusIsCoherent | dinit-client/src/dinit_client/protocol.py:349-384 | whatever bytes are decoded, exactly one of exec failure, pid, signal information and exit status is there, as stop reason, flags and version demand |
| Protocol.StatusMeans | dinit-client/src/dinit_client/protocol.py:349-384 | by the bits of the flag byte, of which the one of weight 16 says that there is a pid, the stop reason and the version: which fields a status has, and from which bytes each is read |
| Protocol.FlagByteOf | dinit-client/src/dinit_client/protocol.py:174-179 | every flag byte is a sum of the five flags and three bits without meaning |
| Protocol.StatusSizeCoversDecoder | dinit-client/src/dinit_client/protocol.py:29-31 | on as many bytes as the client reads for a status, the decoder finds every field it looks for and depends on nothing behind them |
| Protocol.ListStatusSizeIsStatusSize | dinit-client/src/dinit_client/client.py:342-344 | what is read for a status in a listing is what a status has at the version it is decoded at |
| Protocol.StatusRoundTrip | dinit-client/src/dinit_client/protocol.py:355-384 | every status comes back from its bytes, whatever the daemon leaves in the unused ones |
| Protocol.ServiceEventRoundTrip | dinit-client/src/dinit_client/protocol.py:424-435 | both forms of service event come back from their bytes |
| Protocol.EnvEventRoundTrip | dinit-client/src/dinit_client/protocol.py:446-450 | the event of a changed variable comes back with its name, without the NULs behind it, and whether it is overridden |
| Protocol.LoaderRoundTrip | dinit-client/src/dinit_client/protocol.py:387-398 | every loader record comes back from its packet, and the packet's size field counts the whole packet |
| Protocol.EnvRoundTrip | dinit-client/src/dinit_client/protocol.py:407-416 | a block of variables, in which `=` may occur in values, decodes to the map it lists, later ones winning |
| Protocol.EntryInFront | dinit-client/src/dinit_client/protocol.py:410-415 | of each entry the name ends at the first `=`, one without holds nothing, and an empty one is skipped |
| Protocol.EnvironmentRoundTrip | dinit-client/src/dinit_client/client.py:307-315 | every environment comes back, in whatever order its variables are sent |
| Requests.ParseOfEncode | dinit-client/src/dinit_client/protocol.py:256-329 | a reader of requests exists that takes each packet off the front of any stream and gives back the request |
| Requests.ParseAllOfEncodeAll | dinit-client/src/dinit_client/protocol.py:247-333 | any concatenation of requests is read as exactly the requests sent |
| Requests.ParseOfPrefix | dinit-client/src/dinit_client/protocol.py:256-329 | no proper prefix of a request is taken for a request |
| Requests.TextsThatFit | dinit-client/src/dinit_client/protocol.py:247-254 | a request with a text is made exactly when the text is not empty and the packet has at most 1024 bytes |
| Wire.FeedCompose | dinit-client/src/dinit_client/client.py:130-137 | reading bytes in two portions is reading them at once, at every point of every handler |
| Wire.ChunkIndependence | dinit-client/src/dinit_client/client.py:130-137 | however the stream is cut into chunks, results, events and the next point are the same |
| Wire.NothingBeyond | dinit-client/src/dinit_client/client.py:130-137 | a chunk no longer than asked for leaves no byte of a later packet in the client's hands |
| Answers.ServeLoader | dinit-client/src/dinit_client/client.py:319-328 | with `size - 6` the handler takes exactly the loader packet and returns its record |
| Answers.ServeEnv | dinit-client/src/dinit_client/client.py:307-315 | the handler takes exactly the environment packet and returns its map |
| Answers.ServeLog | dinit-client/src/dinit_client/client.py:287-294 | the handler takes exactly the log packet and returns its data |
| Answers.ServeDependents | dinit-client/src/dinit_client/client.py:402-409 | the handler takes exactly the counted handles and raises with all of them in order |
| Answers.ServeFixed | dinit-client/src/dinit_client/client.py:270-280 | version, record and status replies are taken to the byte and returned decoded |
| Answers.ServeCode | dinit-client/src/dinit_client/client.py:379-383 | each refusal of the daemon raises the error of its meaning, and a code that is no answer to the request raises an unexpected reply |
| Answers.UndefinedCodeEndsReader | dinit-client/src/dinit_client/client.py:379-383 | a reply code that is not defined ends the reader |
| Answers.ListCutShort | dinit-client/src/dinit_client/client.py:209-216 | a refusal between two entries ends the listing with its error |
| Answers.ListTaken | dinit-client/src/dinit_client/client.py:201-216 | the listing loop collects all services and offers the events between them in order, or ends the reader on an undecodable one |
| Answers.ServeAnswer | dinit-client/src/dinit_client/client.py:196-330 | every answer the daemon may give, with any events between its packets, finishes its request with its own decoding and leaves what follows |
| Answers.EmptyListingIsRejected | dinit-client/src/dinit_client/client.py:198-200 | LISTDONE as the first reply raises an unexpected-reply error |
| Answers.ListingReturned | dinit-client/src/dinit_client/client.py:196-218 | the daemon's list is returned, the last entry for a name winning, if and only if it is not empty |
| Framing.HandlerProgress | dinit-client/src/dinit_client/client.py:411-419 | a handler that has part of the bytes of its answer has not finished, has raised, or has finished with the answer, offered the events before its end and left only information packets |
| Framing.FullAnswerStops | dinit-client/src/dinit_client/client.py:411-419 | a handler given all packets of its answer, with or without information packets behind it, does not wait for more |
| Framing.TopChunk | dinit-client/src/dinit_client/client.py:433-441 | a chunk at the top of the read loop leaves it inside the packet, ends an information packet and offers its event, or is the header of a reply |
| Framing.BodiesNeverReadHeaders | dinit-client/src/dinit_client/client.py:270-330 | no handler but that of listings ever waits for a header or offers an event |
| Framing.HandlerStands | dinit-client/src/dinit_client/client.py:196-218 | a handler that waits stands in the packet behind those it has taken, at its beginning if it waits for a header, and has offered just their events |
| Session.StructureKept | dinit-client/src/dinit_client/client.py:358-377 | every step keeps lock, slot and waiters in agreement: at most one request is in flight |
| Session.EveryRequestCanEnd | dinit-client/src/dinit_client/client.py:358-377 | after the reader has ended, every request in progress can come to its end by steps of the requesters alone |
| Session.EveryRequestEnds | dinit-client/src/dinit_client/client.py:358-377 | and however they are scheduled they take a bounded number of steps, and where none can take another, no request is left |
| Session.NoLostWakeUp | dinit-client/src/dinit_client/client.py:411-431 | in every run, against any bytes: on a closed connection every waiter can resume, no later request waits, and it stays closed |
| Faults.StrayReplyEnds | dinit-client/src/dinit_client/client.py:415-418 | a reply when no request is in progress closes the connection |
| Faults.ShortPacketEnds | dinit-client/src/dinit_client/client.py:438-440 | so does an information packet shorter than its header |
| Faults.UndecodableEventEnds | dinit-client/src/dinit_client/client.py:443-453 | and one that cannot be decoded |
| Faults.UndefinedCodeEnds | dinit-client/src/dinit_client/client.py:379-383 | and an undefined reply code, and each time the request in the slot ends with closed |
| Negotiation.NegotiationRuns | dinit-client/src/dinit_client/client.py:346-356 | for every daemon version there is a run that returns it, and the connection opens at it exactly when the versions overlap |
| Synchrony.MatchedKept | dinit-client/src/dinit_client/client.py:358-441 | every step keeps requests, answers, reader, events offered and the bytes in flight in step with each other |
| Matching.EveryRequestGetsItsOwnAnswer | dinit-client/src/dinit_client/client.py:358-377 | in every run each request returns the decoding of its own answer or closed, closed only after the reader has ended or a send has failed, and at most one is unanswered |
| Matching.NoAnswerIsLost | dinit-client/src/dinit_client/client.py:411-431 | in every run an answer that has been sent and delivered has finished its request, whatever information packets are still under way |
| Matching.ReaderIsNeverStuck | dinit-client/src/dinit_client/client.py:130-137 | in every run, while the connection works, bytes under way can be received |
| Progress.EveryRequestIsAnswered | dinit-client/src/dinit_client/client.py:358-377 | from every run there are steps of requesters, daemon and transport after which every request has returned, each with its own answer while the connection works |
| Progress.NoWayLeadsElsewhere | dinit-client/src/dinit_client/client.py:358-377 | however such steps are taken they leave less to do, and where none can be taken no request is left |
| Progress.StepShrinks | dinit-client/src/dinit_client/client.py:358-441 | each such step gets nearer to the end |
| Cancellation.CancelledWaitMisleads | dinit-client/src/dinit_client/client.py:358-377 | a request cancelled while it waits leaves the next one with the answer to itself |
| Cancellation.CancelledSendSwallows | dinit-client/src/dinit_client/client.py:366-372 | a request cancelled while it sends can make the daemon take the next one for a part of it |
| Matching.NoPayloadReadAsHeader | dinit-client/src/dinit_client/client.py:433-441 | in every run, when a header is read, the bytes on the wire are whole packets |
| Events.OfferKeepsEarliest | dinit-client/src/dinit_client/client.py:30-33 | the buffer keeps exactly the earliest events that fit: one is dropped only while 64 wait |
| Events.EventStream | dinit-client/src/dinit_client/client.py:443-453 | in every run what is received and buffered is an in-order subsequence of the events offered, and at most 64 are buffered |
| Events.NothingDropped | dinit-client/src/dinit_client/client.py:452-453 | in every run in which the buffer has never been full, what is received and buffered is all that was offered |
| Matching.EventsAreHeard | dinit-client/src/dinit_client/client.py:443-453 | in every run, wherever the reader stands while the connection works, what is offered is the decoding of the information packets taken whole, in order |
| Events.SubscriberHears | dinit-client/src/dinit_client/client.py:190-192 | so, short of a full buffer, a subscriber gets exactly those events |
| Events.InfosTaken | dinit-client/src/dinit_client/client.py:433-441 | the read loop takes any run of information packets whole and offers their events in order |
| Events.AnnouncedOnce | dinit-client/src/dinit_client/client.py:443-453 | at every version changes of services, announced in the old form, or in both from version 5 on, and of variables are offered once each, in order, as they were announced, and what is unknown is passed over |
| Connection.DecodeLoaderMech | dinit-client/src/dinit_client/protocol.py:387-398 | the decoding loop computes the record the round trip is about |
| Connection.DecodeAllEnv | dinit-client/src/dinit_client/protocol.py:407-416 | the decoding loop computes the map the round trip is about |
| Connection.Connection.Exactly | dinit-client/src/dinit_client/client.py:130-137 | exactly `count` bytes are taken off the stream, however they come, or the stream has ended |
| Connection.Connection.DispatchInfo | dinit-client/src/dinit_client/client.py:443-453 | the event of the packet is offered to the buffer, or the packet is undecodable |
| Connection.Connection.NextReply | dinit-client/src/dinit_client/client.py:433-441 | the loop runs the reader machine up to the next reply and offers the events on the way |
| Connection.Connection.AckHandler | dinit-client/src/dinit_client/client.py:395-400 | runs the machine's acknowledgement handler |
| Connection.Connection.Rejected | dinit-client/src/dinit_client/client.py:379-383 | runs the machine's rejection, which raises on an undefined reply code |
| Connection.Connection.VersionHandler | dinit-client/src/dinit_client/client.py:456-462 | runs the machine's version handler |
| Connection.Connection.RecordHandler | dinit-client/src/dinit_client/client.py:385-393 | runs the machine's record handler |
| Connection.Connection.StatusHandler | dinit-client/src/dinit_client/client.py:274-280 | runs the machine's status handler |
| Connection.Connection.LogHandler | dinit-client/src/dinit_client/client.py:287-294 | runs the machine's log handler |
| Connection.Connection.EnvHandler | dinit-client/src/dinit_client/client.py:308-315 | runs the machine's environment handler |
| Connection.Connection.EnvBody | dinit-client/src/dinit_client/client.py:314-315 | its second half, for any length |
| Connection.Connection.LoaderHandler | dinit-client/src/dinit_client/client.py:320-328 | runs the machine's loader handler |
| Connection.Connection.LoaderRest | dinit-client/src/dinit_client/client.py:326-328 | its second half, for any size, even one too small for itself |
| Connection.Connection.StopHandler | dinit-client/src/dinit_client/client.py:402-409 | runs the machine's stop handler |
| Connection.Connection.Collect | dinit-client/src/dinit_client/client.py:407-409 | the loop over the handles runs the machine's own |
| Connection.Connection.ListHandler | dinit-client/src/dinit_client/client.py:197-216 | its loop over services and replies runs the machine's listing handler and offers the events in between |
| Connection.Connection.ReadEntry | dinit-client/src/dinit_client/client.py:203-208 | one entry of a listing is read as the machine reads it |
| Connection.Connection.ServeNext | dinit-client/src/dinit_client/client.py:411-419 | one turn of the read loop is one turn of the machine |
| Connection.TurnAnswers | dinit-client/src/dinit_client/client.py:411-419 | on information packets followed by an answer, one turn gives that answer, offers all events in order and leaves what follows |
| Expand.ExpandBraced | dinix-init/src/expand.rs:104-170 | the value of the braced token, or why there is none |
| Expand.TakeInner | dinix-init/src/expand.rs:67-82 | the text up to the first closing brace, which is taken too |
| Expand.TakeName | dinix-init/src/expand.rs:85-95 | the longest run of name characters |
| Expand.ExpandDollar | dinix-init/src/expand.rs:61-98 | the value of the token that a dollar sign begins, and where it ends, or why there is none |
| Expand.Expand | dinix-init/src/expand.rs:51-102 | the loop over characters computes the values of the tokens |
| Expand.ExpansionRefinesGrammar | dinix-init/src/expand.rs:51-170 | expansion succeeds exactly on the texts the grammar derives, whatever is set, and is then the values of the tokens of the only reading |
| ExpandForms.WhenUnset | dinix-init/src/expand.rs:135-169 | what the five forms in braces give in any text for a variable that is not set |
| ExpandForms.WhenEmpty | dinix-init/src/expand.rs:135-169 | what they give for one that is empty, which counts as not set in the forms with a colon |
| ExpandForms.WhenFilled | dinix-init/src/expand.rs:135-169 | what they give for one that holds something |
| ExpandForms.WhenBare | dinix-init/src/expand.rs:85-95 | a bare name gives its value or nothing |
| ExpandForms.WhenDollar | dinix-init/src/expand.rs:61-98 | two dollar signs give one, and so does one that begins no substitution |
| ExpandForms.WhenPlain | dinix-init/src/expand.rs:55-59 | any other character stays |
| ExpandForms.NamesInAscii | dinix-init/src/expand.rs:39-45 | of ASCII texts the names are the identifiers |
| ExpandForms.Unclosed | dinix-init/src/expand.rs:77-81 | an open brace that is never closed is refused |
| ExpandForms.NotNamed | dinix-init/src/expand.rs:131-133 | what is no name is refused, with every operator |
| ExpandForms.NoOperator | dinix-init/src/expand.rs:124-126 | a colon with neither sign behind it is refused |
| Expand.ExpansionDependsOnNamed | dinix-init/src/expand.rs:51-170 | environments that agree on the variables named give the same result |
| Expand.ExpansionComposes | dinix-init/src/expand.rs:51-102 | at a token boundary expansion distributes over concatenation |
| Expand.EscapeInverse | dinix-init/src/expand.rs:61-66 | doubling every dollar sign is undone by expansion, for every text |
| Expand.StateDirExpands | service-lib.nix:30 | the state directory of any name without a dollar sign expands to the chosen base, or /var/lib, and that name |
| InitSpec.ParseWith | dinix-init/src/spec.rs:69-142 | the loop with its early returns gives the steps of all lines, or the first line at fault |
| SpecLines.TextIsRead | dinix-init/src/spec.rs:69-142 | any text of blank lines, comments and fields, with carriage returns or without, is accepted exactly when all lines ask for something by the rules of the format, and is then what they ask for; otherwise the complaint is about the first that does not and says what is wrong with it |
| SpecLines.NumbersExactly | dinix-init/src/spec.rs:109-110 | digits of the radix with an optional plus sign, worth less than 2^32, are read as what they are worth, and nothing else is |
| InitSpecText.CheckLines | options.nix:1048-1055 | how the three kinds of check are written |
| InitSpecText.ModeRecovered | dinix-init/src/spec.rs:109-110 | every 32-bit mode written in octal, with any leading zeros, is read back |
| InitSpecText.IdRecovered | dinix-init/src/spec.rs:144-152 | a null owner is `-` and stays null, an owner below 2^32 is read back, and any other is refused |
| InitSpecText.RenderedIsUnderstood | options.nix:1044-1066 | reading the written entries gives what each asks for, in order, or the first complaint with its line |
| InitSpecText.RoundTrip | options.nix:1044-1066 | the generated spec is accepted exactly when all entries are good, and is then the checks followed by the directories in the order of their names |
| Attrs.AttrNames | options.nix:1048-1065 | the names of an attribute set, each once, in ascending order |
| Attrs.BelowMeans | options.nix:1048-1065 | ascending is the order of dictionaries |
| Attrs.SortedListingIsUnique | options.nix:1048-1065 | there is only one such listing |
| FileTree.WalkIsStable | dinix-init/src/main.rs:84-97 | a path that leads somewhere leads there in every tree that only has more |
| InitRun.CheckMeans | dinix-init/src/main.rs:120-148 | a check passes exactly when its path leads to anything, a directory or a plain file, as it asks, and says otherwise which of three things is wrong |
| InitRun.DirMeans | dinix-init/src/main.rs:76-117 | what a successful `dir` step leaves at its path, said of mode, owner and group |
| InitRun.DirOnExisting | dinix-init/src/main.rs:96-115 | what a `dir` step does to a directory that is there: a mode is set by root or the owner, an owner by root, anybody else fails with the error that says which, and what is right is not touched |
| InitRun.FileInTheWay | dinix-init/src/main.rs:78 | on a plain file the step fails before anything is touched |
| InitRun.HoldsMeans | dinix-init/src/main.rs:76-148 | what it is for a tree to be what a step asks for, said of its nodes |
| InitRun.ApplyExtends | dinix-init/src/main.rs:68-149 | a step, failed or not, takes nothing away and adds only directories |
| InitRun.ApplyFrame | dinix-init/src/main.rs:96-115 | what a step changes of what was there is the mode and owner of the one directory that lstat finds at its path |
| InitRun.RunFrame | dinix-init/src/main.rs:46-51 | of a whole run, finished or aborted: nothing goes away, only directories are added, and what changes is a directory that a step the run came to names |
| InitRun.RunStops | dinix-init/src/main.rs:46-51 | a run stops at the first failing step and leaves what that step left |
| InitRun.RunKeepsForm | dinix-init/src/main.rs:46-51 | every node stays inside a directory |
| InitRun.ApplyEstablishes | dinix-init/src/main.rs:76-117 | a step that succeeds has what it asks for, exactly when its mode has at most twelve bits |
| InitRun.NoOpExactly | dinix-init/src/main.rs:99-115 | a step succeeds and does nothing for every account exactly when the tree already is what it asks for |
| InitRun.RepeatableExactly | dinix-init/src/main.rs:106-109 | a step that succeeded can be repeated by anyone as a no-op exactly when its mode has at most twelve bits |
| InitRun.SuccessMeansAllHold | dinix-init/src/main.rs:46-51 | after a successful run of any spec by any account every path is a real directory with the mode and owner asked for and every check holds, exactly when, in the tree it started from, steps whose paths lead to one place agree and modes have at most twelve bits |
| InitRun.SecondRunDoesNothing | dinix-init/src/main.rs:99-105 | on the same condition the same spec run again by any account succeeds and changes nothing; without it, it fails for some account |
| FileTree.DestinationComesTrue | dinix-init/src/main.rs:78-84 | where lstat finds a path once directories have been made is where the path led before |
| InitRun.CreateDirAllMakes | dinix-init/src/main.rs:78 | where making a path succeeds there is a directory at its end |
| RootRun.RootRunsSpec | dinix-init/src/main.rs:46-51 | by the tree a run starts from: root, with checks that pass and paths, absolute or relative and through links, that nothing is in the way of, succeeds; everything holds afterwards exactly when the spec is compatible with that tree; and then anyone's second run does nothing |
| RootRun.RootSucceeds | dinix-init/src/main.rs:76-118 | where a path leads through links to a directory and on by names with nothing but directories in the way, root gets it made, with all directories on the way, and set as asked |
| RootRun.DestinationIsForeseen | dinix-init/src/main.rs:78-84 | such a path leads to that directory and those names below it |
| RootRun.NamesAreReachable | dinix-init/src/main.rs:78 | an absolute path of names with nothing but directories in its way is one of these |
| RootRun.NobodyMayAdd | dinix-init/src/main.rs:78 | and an account that may not add to the directory above fails with the tree as it was |
| RootRun.ParentOfNames | dinix-init/src/main.rs:78 | the directory to make before a path is the path without its last name; none before the root |
| RootRun.PathOfNames | dinix-init/src/main.rs:78 | an absolute path of names is walked name by name |
| RootRun.PathOfNamesWithSlash | dinix-init/src/main.rs:84 | with a slash at its end it asks for a directory there |
| RootRun.PathOfNamesWithDot | dinix-init/src/main.rs:84 | so does a dot |
| RootRun.PathOfNamesWithDotSlash | dinix-init/src/main.rs:84 | and a dot with a slash behind it |
| RootRun.LoopIsNotMissing | dinix-init/src/main.rs:126-136 | a check on a link that leads to itself complains of the loop, not that something is missing |
| InitRun.LinkIsRefused | dinix-init/src/main.rs:80-91 | a path that ends in the name of a link, dangling or not, fails and nothing is touched |
| InitRun.LinkIsRefusedExactly | dinix-init/src/main.rs:80-91 | a link to a directory is refused if and only if the path has no trailing slash or dot; with one, its target's mode and owner are set |
| RootRun.SlashReachesThroughLink | dinix-init/src/main.rs:80-91 | `dir /l/` as root, where /l is a link to /d, sets the mode of /d |
| RootRun.TooManyModeBits | dinix-init/src/main.rs:106-109 | a step with mode 0o10755 succeeds and does not hold |
| RootRun.LaterStepWins | dinix-init/src/main.rs:46-51 | of two steps that disagree about one directory both succeed and the first does not hold |
| InitRun.FailsBeforeChange | options.nix:1046-1055 | when what a configured check names is not there or not of its kind, the run of the generated spec fails and leaves the tree as it was |
| InitRun.Machine.CreateAll | dinix-init/src/main.rs:78 | the recursion over parents computes the tree the lemmas are about |
| InitRun.Machine.EnsureDirectory | dinix-init/src/main.rs:70-118 | the sequence of calls, each finding the path anew, has the effect the lemmas are about |
| InitRun.Machine.ApplyStep | dinix-init/src/main.rs:68-149 | both kinds of step have that effect |
| InitRun.Machine.RunSteps | dinix-init/src/main.rs:46-53 | the loop has the effect of the run, and succeeds exactly when all steps do |
| InitRun.Machine.Start | dinix-init/src/main.rs:18-54 | with wrong arguments, an unreadable or a malformed spec the tree is untouched and the exit code is failure |
| CommandLine.CommandRoundTrip | modular.nix:188-203 | by the rule of double quotes and backslashes a rendered command is taken apart into its argument vector, exactly when no argument holds a newline |
| CommandLine.NewlineIsLost | modular.nix:203 | an argument that is a newline leaves a quote open |
| CommandLine.ArgumentsArrive | PORTING.md:233-240 | after substitution each argument arrives as its expansion, exactly when all are one line and expand |
| CommandLine.ArrivesUnchanged | PORTING.md:233-240 | a vector arrives as written exactly when each argument is one line and expands to itself |
| CommandLine.PlainArguments | modular.nix:203 | as vectors of lines without dollar signs do |
| CommandLine.EscapedArgumentsArrive | dinix-init/src/expand.rs:61-66 | any vector of lines arrives if its dollar signs are doubled |
| CommandLine.StateDirArrives | service-lib.nix:9-20 | a path below the state directory arrives below the base the operator chose |
| Modular.RenderedAsPlaced | modular.nix:184-199 | the rendered services are one description for each service of the tree under its dashed path, later ones winning |
| Modular.OptionsAsPlaced | modular.nix:41-70 | the options of every service are made with its own dashed path |
| Modular.DataAsPlaced | modular.nix:215-225 | the files written are the enabled ones of every service under its dashed path |
| Modular.NamesAgree | modular.nix:41-46 | at every depth the rendered name, the state directory and the configuration paths agree, and each file is read from where it is written |
| Modular.MarkedPath | options.nix:1157-1163 | once the marker is replaced, the path of a file is where it lies in the output directory |
| Modular.SettingsOf | modular.nix:184-196 | what a module writes stands in the description of its service; the rest is the type and a command line that is taken apart into the argument vector |
| Modular.FilesInPlace | modular.nix:41-70 | without consolidation a service reads each file from its source |
| Modular.OnlyFiles | modular.nix:215-225 | no other files are written than enabled ones of services |
| Modular.OneServiceEach | modular.nix:261 | there is one rendered service for each service of the tree exactly when the dashed names are distinct, each with its own description |
| Modular.PlainNamesAreEnough | modular.nix:245-246 | names without dashes are enough for that |
| Modular.PlainFilesAreEnough | modular.nix:215-225 | without dashes and slashes in names of services, and with no two files of a service named alike, every file has a place of its own |
| Modular.DashesCanCollide | modular.nix:196-199 | with dashes two services can share a name, and one is lost |
| Modular.StateDirOfService | modular.nix:98-101 | every service's state directory expands to the chosen base and its name |
| Boot.GeneratedEdges | options.nix:435-443 | generation adds exactly the edges to dinix-init and from boot, and drops none |
| Boot.BootWires | options.nix:1021-1025 | boot depends on exactly the critical services and dinix-init, and waits for exactly those that may fail, besides what the user wrote |
| Boot.OthersKeepSettings | options.nix:433-443 | nothing else changes but that other services come after dinix-init |
| Boot.BootFallsWith | options.nix:1021-1025 | boot stops with a service exactly when that is critical, dinix-init, or what these or the user's boot depend on |
| Boot.MayFailAlone | options.nix:1021-1025 | a service that may fail, and on which nothing depends, does not take boot down |
| Boot.GenerationKeepsAcyclic | options.nix:1009-1029 | the generated graph is without cycles exactly when the user's is and two reachability conditions hold |
| Boot.OrdinaryGraphs | options.nix:435-443 | it is so whenever nothing is ordered after boot and dinix-init is ordered after nothing |
| Boot.InitComesFirst | options.nix:433-443 | any start order that respects the graph has dinix-init first and boot after all attached services |

## Left out

- Matching.EveryRequestGetsItsOwnAnswer: is about runs without cancelled tasks, `Cancellation` has runs with one; nothing is promised but "closed" after a failed send.
- Matching.NoPayloadReadAsHeader: is about daemons that send well-formed packets; for arbitrary bytes only the results of `Session` and `Events` hold.
- Session.EveryRequestEnds: is about the requesters' own steps; that a task which can go on is scheduled at all is not part of the model.
- RootRun.RootRunsSpec: says when root succeeds, not when it fails; a path that goes up again behind what it has to make is not covered.
- Boot.GenerationKeepsAcyclic: edges from directories of dependencies (`depends-on.d` and its like) are not part of the graph.
- InitRun.SecondRunDoesNothing: the second run starts from the tree the first one left; other processes do not change it in between.
- FileTree.Walk: permission to search directories, name length limits, mount points and NUL in paths are not modelled.
- FileTree.Chmod: set-group-ID bits that the kernel drops for accounts outside the group are kept.
- The Textual TUI, `dinix-unless`, the modules in `services/`, users, certificates, wrappers and docs.
- dinit itself: restarts, smooth recovery, shutdown. It is an in-order answerer here that may send events, or any source of bytes.
- Client calls made of several requests (`start`, `stop`, `reload`): each is a chain of requests that are modelled one by one.
- Encoders and decoders that the client never calls (`decode_log`, `decode_service_name`).
- The texts of error messages; errors are told apart by their cause.
- The Nix module system: priorities, laziness and types; configurations are taken as evaluated.
- `dinit.dirs`, `dinit.users` and the like collected over the tree, which are plain merges.
- CommandLine.Arrives: `$/NAME` and `${/NAME}`, which dinit splits into several words and dinix-init does not know.
- The env-file, log directories and the split (not consolidated) placement of generated files, beyond the path of a configuration file.
