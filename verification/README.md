# LOOPZE edge runtime: a verified model

LOOPZE is a flow runtime written in Go.  This project models the parts of it
whose behaviour is hardest to see from one function at a time, and proves what
they guarantee over every input and every run.  To verify the whole project, run
`dafny verify dfyconfig.toml`.

| file | models | main results |
|---|---|---|
| `Json.dfy` | JSON values and dotted paths | lens laws of Get, Set and Delete, over keys and over path strings |
| `Workspace.dfy` | workspaces, their indexes and their difference | the loops of diff.go compute the difference as defined on sets |
| `Deployment.dfy` | what a deploy must leave running | a `nodes` deploy equals a full deploy if and only if `Faithful` holds |
| `Engine.dfy` | the engine's in-place deploys | both deploys reach those views; untouched nodes keep their instance |
| `Channels.dfy` | node loops, senders and teardown, interleaved | no send on a closed channel, no channel closed twice, no deploy stuck |
| `Messages.dfy`, `MessageStore.dfy` | copy-on-write messages on a heap of shared maps | every run means what eager deep copies would mean |
| `Responses.dfy` | the response registry, interleaved | no request answered twice or stranded, no call stuck |
| `Sessions.dfy` | the two-index session registry, interleaved closes | indexes agree; each session torn down once |
| `Hub.dfy` | the WebSocket hub | a client's channel is open exactly while it is registered; no gaps |
| `Csv.dfy` | the CSV reader and printer | print then read, exactly |
| `CsvIdentity.dfy` | the same | print then read is the identity if and only if no row is skipped or holds CRLF and no byte order mark leads |
| `CsvObjects.dfy` | objects to CSV and back | objects come back, cut to the columns |
| `CsvStream.dfy` | the csv node's parse and its streaming path | chunk invariance, and exactly when the header breaks it |
| `CsvCuts.dfy` | the cuts of a streamed text | exactly which cuttings make a chunk fail, and which texts stand every cutting |
| `CsvResets.dfy` | streams over truncated and rotated files | chunk invariance since the last reset, whatever was stored before |
| `CsvRows.dfy` | records to rows | what one parse yields, record by record and cell by cell |
| `Tail.dfy` | incremental file reading | exactly-once tailing; exactly when a truncation loses bytes |
| `Throttle.dfy` | the login throttle | at most eight failures in fifteen minutes, attained |
| `StateMachine.dfy` | the state machine engine and node | how every event ends, well-formed runs |
| `Delay.dfy` | the delay node | conservation and order of the queue, spacing of the gate |
| `DelayRuns.dfy` | the same, from the actions alone | nothing is lost if and only if the queue never overflowed or was reset; what becomes of every message |
| `Buffers.dfy` | integer codec and byte swaps | round trips exactly for values that fit |
| `Modbus.dfy` | the Modbus demo server | store refinement, frame size |
| `FileStore.dfy` | the user store | last admin, index, persistence |

Conventions.  Code that updates state in place is a class whose methods are
proved equal to a function of the old state; the theorems are about those
functions.  Where the question is one of interleaving, the source is a state
machine over its atomic steps (one critical section, one channel operation),
a panic is a flag that no step guards against, and disabled actions do nothing,
so that every sequence of actions is a run.  Factories, guards, actions, clocks,
storage and the file system are parameters and may fail at will.

## What the proofs found

- A `nodes` deploy does not look at a flow's disabled flag, at a node's type or
  flow, or at a config node's type or name.  `Deployment.Faithful` says exactly
  when that matters; `MovedNodeIsMissed`, `DisabledFlowIsMissed` and
  `RenamedConfigIsMissed` give the families of workspaces where it does.
- Without `fromStart` and without a stored cursor an incremental reader never
  emits anything: each read starts at the end of the file again
  (`Tails.NeverStarts`).  After a truncation the old cursor stays stored until
  a read emits something; if the file has grown past it by then, the bytes
  before it never come out, and otherwise none are lost
  (`Tails.TruncationLosesWhen`).
- The csv node takes a configured-columns header for data when its first
  complete lines hold no record (`CsvStreams.HeaderMissed`,
  `CsvCuts.BlankLineHidesHeader`).  A chunk fails exactly when the complete
  lines up to it do not parse (`CsvCuts.FailsExactlyWhen`), so of the texts that
  parse exactly those with a line break in a cell have a cut that fails
  (`CsvCuts.EveryCutting`).
- A reset chunk whose lines do not parse leaves the old file's residue and
  columns stored, and the next chunk is read behind them
  (`CsvResets.ResetForgets`, `CsvResets.FailedResetIsIgnored`).
- A row printed as a comment line is not skipped whole if a later cell holds a
  line break; the reader resumes inside the cell
  (`CsvIdentity.MultiLineCommentFails`).
- The compare-and-swap in the session teardown never fails, and a registered
  session is never flagged closed: `Resolve` answers ErrSessionClosed only when
  the session is taken out between its lookup and its flag test
  (`Sessions.ResolvedIsOpen`), where its comment says the slot is still
  registered.
- The throttle admits eight failures in a window, not five.
- `stopAllNodes` returns early when no node runs, which leaves config nodes
  running (`Engines.Engine.StopAllNodes`).
- Coil and register reads of the Modbus server answer a bad quantity with exception 2
  (illegal data address) where sections 6.1 to 6.4 of the MODBUS Application
  Protocol Specification V1.1b3 ask for 3; the model follows the code
  (`Modbus.ReadsRefusedWith`).
- A `maxQueueLength` between 0 and 1 truncates to a queue without room, which
  silently takes no message (`Delays.AllOfferedAccepted`).

## Model

| member | source | states |
|---|---|---|
| JsonValues.ProtectedIsFirstKey | internal/flow/types.go:171-174 | the guard of Set and Delete protects exactly the paths whose first key is `_id` |
| JsonValues.GetSet | internal/flow/types.go:171-201 | after Set(p, v), Get(p) is v, whatever intermediates had to be created or replaced |
| JsonValues.GetDelete | internal/flow/types.go:204-223 | after Delete(p), Get(p) is nil |
| JsonValues.SetElsewhere | internal/flow/types.go:171-201 | Set(p, v) changes nothing at a path that is neither a prefix nor an extension of p |
| JsonValues.DeleteElsewhere | internal/flow/types.go:204-223 | Delete(p) changes nothing at such a path |
| JsonValues.SetSet | internal/flow/types.go:171-201 | the later of two Sets at one path wins |
| JsonValues.SetAfterDelete | internal/flow/types.go:171-223 | a Set undoes a Delete at the same path |
| JsonValues.SplitJoined | internal/flow/types.go:154 | the keys of a path, joined with dots, are the path |
| JsonValues.JoinedSplit | internal/flow/types.go:176 | splitting joined keys without dots gives the keys back, so the split is determined |
| JsonValues.UnderIsPrefix | internal/flow/types.go:209 | one path lies below another as a string exactly when its keys extend the other's |
| JsonValues.ReadWalks | internal/flow/types.go:150-167 | reading key.rest is reading rest inside what key holds |
| JsonValues.WriteLaws | internal/flow/types.go:171-201 | over path strings: a Set is read back at its path and below it, changes no unrelated path, and never the id |
| JsonValues.RemoveLaws | internal/flow/types.go:204-223 | over path strings: a deleted path reads nil, unrelated paths and the id keep their values |
| JsonValues.WritesAtOnePath | internal/flow/types.go:171-223 | over path strings: the later Set wins, and a Set undoes a Delete |
| JsonValues.DeletedIsGone | internal/flow/types.go:204-223 | a deleted key is not in its map any more, rather than there with nil |
| Workspaces.IndexNodes | internal/flow/diff.go:289-297 | the index loop yields, per id, the last node that carries it |
| Workspaces.IndexFlows | internal/flow/diff.go:281-287 | per id, the last flow that carries it |
| Workspaces.IndexConfigs | internal/flow/diff.go:299-305 | per id, the last config node that carries it |
| Workspaces.WiresEqual | internal/flow/diff.go:246-262 | the element-wise comparison of wires is equality |
| Workspaces.DiffWorkspaces | internal/flow/diff.go:57-138 | the computed lists are the sets of added, removed and changed flows, nodes and configs |
| Workspaces.ExpandConfigDependents | internal/flow/diff.go:143-172 | exactly the nodes that reference a modified config are added to the modified ones |
| Workspaces.ExpandedExactly | internal/flow/diff.go:143-183 | in fields: a node is added exactly if the value under some key of its config is the id of a modified config |
| Workspaces.DiffExactly | internal/flow/diff.go:57-243 | in fields: what every list of the difference holds, for flows, nodes and configs |
| Workspaces.AllNodesAre | internal/flow/diff.go:289-297 | the nodes indexed are all nodes of all flows and no others |
| Workspaces.IndexIsLast | internal/flow/diff.go:289-297 | of several nodes with one id the last counts |
| Workspaces.FlowIndexIsLast | internal/flow/diff.go:281-287 | of several flows with one id the last counts |
| Workspaces.ConfigIndexIsLast | internal/flow/diff.go:299-305 | of several configs with one id the last counts |
| Deployment.NodesDeployRefinesFullDeploy | internal/flow/engine.go:457-548 | from the state of a full deploy of the old workspace, a `nodes` deploy of the new one leaves the same nodes, resolved targets, links and configs as a full deploy of it, if and only if Faithful holds |
| Deployment.StableIdentityIsFaithful | internal/flow/diff.go:187-243 | without disabled flows, and when an id keeps its type and flow and a config id its type and name, Faithful holds |
| Deployment.EveryRunOfDeploys | internal/flow/engine.go:299-325 | any number of faithful `nodes` deploys after a full one leaves what one full deploy of the last workspace leaves |
| Deployment.RestartedExactly | internal/flow/diff.go:143-201 | in fields: a node is rebuilt exactly when it is new, its disabled flag, name, wires or config differ, or the value under some key of its config is the id of a config whose properties differ |
| Deployment.FullViewExactly | internal/flow/engine.go:328-371 | in fields: a node runs after a full deploy exactly if neither its flow nor it is disabled and it can be built; its definition, wires, running targets and link entry are its own |
| Deployment.FullViewOnly | internal/flow/engine.go:328-371 | nothing else runs, and the configs are those that start |
| Deployment.DisabledNodesDoNotRun | internal/flow/engine.go:554-558 | after either deploy no running node is disabled in, or missing from, the new workspace |
| Deployment.EmptyDiffPatchesNothing | internal/flow/engine.go:467-474 | returning early on an empty difference is what the patch would have done |
| Deployment.MovedNodeIsMissed | internal/flow/diff.go:187-201 | in any two workspaces, a `nodes` deploy differs from a full one if a node that should run got another type or flow and is not rebuilt for another reason |
| Deployment.DisabledFlowIsMissed | internal/flow/engine.go:502-508 | the same if a node of a disabled flow was running or is rebuilt |
| Deployment.RenamedConfigIsMissed | internal/flow/diff.go:240-243 | the same if a config node that should start got another type or name and kept its properties |
| Deployment.DisablingAFlowIsMissed | internal/flow/engine.go:502-508 | for every node, disabling its flow is not carried out by a `nodes` deploy |
| Deployment.ChangingATypeIsMissed | internal/flow/diff.go:187-201 | for every node, changing only its type is not carried out either |
| Engines.Engine.DeployFull | internal/flow/engine.go:328-371 | leaves the view of a full deploy, on new instances only, each started once |
| Engines.Engine.DeployModifiedNodes | internal/flow/engine.go:457-548 | leaves the patched view; restarted nodes are new and started once, all others keep their very instance, unchanged configs theirs |
| Engines.Engine.WireAllNodes | internal/flow/engine.go:607-731 | every node's targets are its wires resolved against the running instances, links are the running link nodes |
| Engines.TargetsAreRunning | internal/flow/engine.go:607-731 | once wired, a node's targets are the very instances running under the ids its wires name, and the links those of the link nodes |
| Engines.Engine.InstantiateNode | internal/flow/engine.go:554-604 | a node that can be built replaces its id's instance under a new handle; any other changes nothing |
| Engines.Engine.StartNodeLoops | internal/flow/engine.go:775-799 | calls Start once on each named node and on nobody else; a node has a loop exactly if its call succeeded |
| Engines.Engine.StopAllNodes | internal/flow/engine.go:891-933 | no node is left; wires, links and config instances are emptied too, unless no node ran, which leaves them as they were |
| Engines.Engine.StopAndRemoveNodes | internal/flow/engine.go:814-871 | exactly the named nodes are gone and nobody holds a target among them |
| Engines.Engine.ApplyConfigDiff | internal/flow/engine.go:953-989 | config instances are the kept ones and the rebuilt ones |
| Engines.Engine.DeployConfigs | internal/flow/engine.go:938-949 | the configs that start, the last of each id |
| Channels.NoSendOnClosedChannel | internal/flow/engine.go:814-871 | over every interleaving of loops, background sends, link sends, triggers and deploys nothing panics: no send on a closed input, no channel of a node closed twice, and an input closes only after its loop has exited |
| Channels.StepKeepsInv | internal/flow/engine.go:891-933 | every step of every actor keeps the invariant behind it |
| Channels.SettledBetweenDeploys | internal/flow/engine.go:775-799 | between deploys a deployed node has been started and is open, any other node is completely torn down |
| Channels.SentIsQueued | internal/flow/engine.go:1037-1058 | over every interleaving a message sent is queued at its target, and dropped exactly when 64 are queued |
| Channels.DeployNeverStuck | internal/flow/engine.go:814-871 | in every reachable state a deploy under way can take its next step, or waits for a loop that is handling a message or can exit |
| Channels.ClosingInputsEarlyPanics | internal/flow/engine.go:1037-1058 | closing inputs before the loops have exited would let a busy loop hit a closed channel |
| Messages.StepRefinesEager | internal/flow/types.go:226-255 | one copy-on-write operation does to every message's meaning what eager copying does, and keeps ids |
| Messages.EveryRunRefinesEager | internal/flow/types.go:171-255 | after every run, each message holds what it would hold if every clone were a deep copy; unshared messages own their cells |
| Messages.SetCellsRefines | internal/flow/types.go:176-201 | the in-place walk of Set on shared-free cells changes the tree as the lens Set does and touches no other cell |
| Messages.DeleteCellsRefines | internal/flow/types.go:209-223 | the same for Delete |
| MessageStores.MessageStore.DeepCopyMap | internal/flow/types.go:331-358 | the recursive copy spells the same tree on new cells and leaves the source alone |
| MessageStores.MessageStore.DeepCopySlice | internal/flow/types.go:352-358 | the same for slices, element by element |
| MessageStores.MessageStore.NewMessage | internal/flow/types.go:116-123 | the new message holds its timestamp and shares nothing |
| MessageStores.MessageStore.EnsureUnique | internal/flow/types.go:236-241 | a shared message gets a private copy, an unshared one is left alone |
| MessageStores.MessageStore.COWClone | internal/flow/types.go:248-255 | the clone means what the original means; nothing is copied |
| MessageStores.MessageStore.Clone | internal/flow/types.go:226-232 | the clone means what the original means and owns its cells |
| MessageStores.MessageStore.GetPath | internal/flow/types.go:150-167 | the walk returns what ReadPath finds under the path string, and the id for `_id` |
| MessageStores.MessageStore.SetPath | internal/flow/types.go:171-201 | the message's meaning becomes WritePath of the path string, every other message's does not change |
| MessageStores.MessageStore.DeletePath | internal/flow/types.go:204-223 | the message's meaning becomes RemovePath of the path string, every other message's does not change |
| Responses.AnsweredAtMostOnce | internal/flow/response_registry.go:79-92 | over every interleaving each slot is written at most once and `done` closes at most once, exactly when completed; at most one Complete returns true |
| Responses.NoRequestStranded | internal/flow/response_registry.go:195-231 | every uncompleted slot is in the map or on the list of a drain or sweep under way |
| Responses.EndedCallsLeaveNothing | internal/flow/response_registry.go:276-308 | a drain or sweep that has ended completed all it took; a sweep took only expired slots |
| Responses.QuietMapIsExact | internal/flow/response_registry.go:195-210 | with no call under way the map holds exactly the unanswered requests |
| Responses.DrainTakesAll | internal/flow/response_registry.go:214-231 | after every run, when DrainAll begins, the map is emptied and every unanswered request is on some list |
| Responses.WhatCallsTake | internal/flow/response_registry.go:195-308 | over every run Complete finds exactly the requests in the map, a sweep takes exactly those past their deadline, a drain all |
| Responses.ResultsTellTheTruth | internal/flow/response_registry.go:195-210 | a finished Complete reports success exactly if it was the one that answered |
| Responses.CallsNeverStuck | internal/flow/response_registry.go:79-93 | every call under way can take its next step, or waits for a caller that can |
| Responses.TakeExpired | internal/flow/response_registry.go:283-303 | the two loops of the sweep take exactly the expired slots out of the map |
| Responses.TakeAll | internal/flow/response_registry.go:220-226 | the loop of DrainAll takes every slot |
| Responses.StepKeepsInv | internal/flow/response_registry.go:79-308 | every step keeps the invariant |
| Sessions.IndexesAgree | internal/flow/session_registry.go:103-226 | in every reachable state byOwner is slots grouped by owner, with no empty group |
| Sessions.ClosedExactlyOnce | internal/flow/session_registry.go:168-239 | under every interleaving of the closes a removed session has had `done` and its connection closed exactly once, or is on the list of exactly one close under way |
| Sessions.SwapNeverFails | internal/flow/session_registry.go:231-239 | the compare-and-swap of teardown always finds the flag clear |
| Sessions.CloseNeverStuck | internal/flow/session_registry.go:168-239 | every close under way with victims left can take its next step |
| Sessions.SessionRegistry.Register | internal/flow/session_registry.go:103-123 | both indexes gain the slot and stay in step |
| Sessions.ResolvedIsOpen | internal/flow/session_registry.go:132-143 | a session found by Resolve and not flagged at any later moment is the slot found, neither signalled nor hung up; a flagged one has left the registry |
| Sessions.SessionRegistry.Resolve | internal/flow/session_registry.go:132-143 | live, unknown and closed, exactly; closed never between complete calls |
| Sessions.SessionRegistry.SessionsByOwner | internal/flow/session_registry.go:151-163 | the snapshot through byOwner is the filter of all slots, each once |
| Sessions.SessionRegistry.Take | internal/flow/session_registry.go:168-182 | Close takes the one slot out of both indexes |
| Sessions.SessionRegistry.TakeOwner | internal/flow/session_registry.go:190-203 | CloseByOwner takes exactly the owner's slots out of both indexes |
| Sessions.SessionRegistry.TakeAll | internal/flow/session_registry.go:213-221 | CloseAll takes every slot |
| Sessions.SessionRegistry.Teardown | internal/flow/session_registry.go:231-239 | flags a session and closes its channel and connection, unless it was flagged |
| Sessions.SessionRegistry.Close | internal/flow/session_registry.go:168-185 | removes the session from both indexes and tears it down; an unknown id changes nothing |
| Sessions.SessionRegistry.CloseByOwner | internal/flow/session_registry.go:190-208 | removes exactly the owner's sessions and tears each down once |
| Sessions.SessionRegistry.CloseAll | internal/flow/session_registry.go:213-226 | removes all sessions and tears each down once |
| Hubs.SendOpenWhileRegistered | internal/ws/hub.go:188-242 | over every interleaving a registered client's send channel is open exactly while the client is in the map; nothing panics |
| Hubs.NoGaps | internal/ws/hub.go:209-229 | between events a client still in the map has been sent every broadcast since it registered, in order |
| Hubs.UserDisconnected | internal/ws/hub.go:345-363 | DisconnectUser leaves the user no open channel, at any point of a broadcast, and touches nobody else |
| Hubs.ClientsLeaveOnlyWhen | internal/ws/hub.go:188-242 | a client joins by registering and leaves only by unregistering, a disconnect of its user, the hub's stop, or as a slow client |
| Hubs.SlowMeansFull | internal/ws/hub.go:211-215 | a visited client gets the message exactly if fewer than 256 are queued, and is dropped otherwise |
| Hubs.HubNeverStuck | internal/ws/hub.go:188-242 | a broadcast under way can always go on |
| Hubs.DropEach | internal/ws/hub.go:234-237 | closing client by client comes to the same as closing all at once |
| Csv.WriteRow | internal/nodes/core/parser_csv.go:807-825 | appends the printed record, quoting and doubling as needed |
| Csv.WriteRows | internal/nodes/core/parser_csv.go:638-661 | the row loop prints all records in order |
| Csv.QuotedExactly | internal/nodes/core/parser_csv.go:812-822 | a cell is printed as it is exactly if quotes are not forced and it holds no delimiter, quote or line break |
| Csv.IgnoredLines | internal/nodes/core/parser_csv.go:471-473 | blank lines and comment lines yield no record, wherever they stand |
| Csv.UnclosedQuoteFails | internal/nodes/core/parser_csv.go:505-512 | a quote that is never closed makes the text fail |
| Csv.RoundTrip | internal/nodes/core/parser_csv.go:807-825 | for any n up to the first row printed as a comment of several lines: what was printed reads as those of the first n rows that are not skipped, with CRLF in cells as LF and without a leading byte order mark, followed by what the text of the other rows reads as |
| Csv.RoundTripWhole | internal/nodes/core/parser_csv.go:807-825 | without such a row, exactly the rows that are not skipped, so changed |
| CsvIdentity.RoundTripIdentity | internal/nodes/core/parser_csv.go:452-512 | for all rows, print then read is the identity if and only if no row is skipped, no cell holds CRLF and the text does not begin with a byte order mark |
| CsvIdentity.ForcedQuotesRoundTrip | internal/nodes/core/parser_csv.go:812-822 | with every cell quoted nothing but CRLF is lost |
| CsvIdentity.MultiLineCommentFails | internal/nodes/core/parser_csv.go:471-473 | a row printed as a comment line, with a cell a LF b behind its first cells, is a parse error for every a, and every b that is one line of text without quotes, not empty, not itself a comment and not ending in the delimiter, whatever rows stand before and behind |
| CsvObjects.Stringify | internal/nodes/core/parser_csv.go:638-651 | the cell and row loops print the header and every object's cells in column order |
| CsvObjects.ObjectsRoundTrip | internal/nodes/core/parser_csv.go:597-662 | objects written under a header and parsed again come back cut to the columns, missing cells empty |
| CsvStreams.ParseCsv | internal/nodes/core/parser_csv.go:452-575 | the record loop skips empties, takes the header and builds rows as the fold over records does |
| CsvRows.ParsedExactly | internal/nodes/core/parser_csv.go:488-575 | one parse in closed form: which records count, which is the header, which columns name the rows |
| CsvRows.KeptExactly | internal/nodes/core/parser_csv.go:514-516 | a record counts unless empty ones are skipped and it is one |
| CsvRows.ObjectRow | internal/nodes/core/parser_csv.go:540-555 | each column holds the cell of its last occurrence, or the missing value if the record is too short |
| CsvRows.ObjectKeys | internal/nodes/core/parser_csv.go:540-555 | the object's keys are exactly the columns |
| CsvRows.ArrayRow | internal/nodes/core/parser_csv.go:556-566 | without columns a row is the list of all its cells in order |
| CsvStreams.CsvNode.HandleStreaming | internal/nodes/core/parser_csv.go:308-394 | one chunk changes residue, offset and columns as specified; a load, parse or save error changes nothing |
| CsvStreams.ReadAppend | internal/nodes/core/parser_csv.go:325-337 | reading a text cut after a line feed is reading its two parts, if the first part reads |
| CsvStreams.ChunkInvariance | internal/nodes/core/parser_csv.go:308-394 | however the input is cut, lines plus residue are the input, offset plus residue is the position, the columns are those one parse of the complete lines finds, and the rows are those of that parse if and only if no configured header was missed |
| CsvResets.RunsStartOver | internal/nodes/core/parser_csv.go:316-394 | over every run with resets, from any stored state: if no chunk since the last reset failed, residue, offset, columns and the rows emitted since are those of the text since that reset |
| CsvResets.ResetForgets | internal/nodes/core/parser_csv.go:316-320 | a reset chunk answers as on a new file; it leaves what a new file leaves if and only if it parses or nothing was stored |
| CsvResets.FailedResetIsIgnored | internal/nodes/core/parser_csv.go:346-350 | after a reset chunk that does not parse, the next chunk is read behind the old residue and columns |
| CsvResets.FailureChangesNothing | internal/nodes/core/parser_csv.go:346-350 | over every run a chunk that fails changes neither state nor rows |
| CsvResets.EmittedWith | internal/nodes/core/parser_csv.go:340-391 | a chunk is emitted with the position of the last complete line's end and the columns one parse of all complete lines finds |
| CsvCuts.FailsExactlyWhen | internal/nodes/core/parser_csv.go:322-350 | for every cutting, no chunk fails if and only if the complete lines of every initial run of chunks parse |
| CsvCuts.EveryCutting | internal/nodes/core/parser_csv.go:322-350 | no cutting of a text makes a chunk fail if and only if its complete lines parse and no cell holds a line feed |
| CsvCuts.CutInCellFails | internal/nodes/core/parser_csv.go:325-337 | a text that parses into a cell with a line feed has a line feed after which cutting it makes a chunk fail |
| CsvCuts.NoChunkFails | internal/nodes/core/parser_csv.go:322-350 | if the complete lines parse and no cell holds a line feed, no chunk fails |
| CsvCuts.BlankLineHidesHeader | internal/nodes/core/parser_csv.go:341-364 | with configured columns and a header, an empty line in a first chunk of its own changes the rows of every text with a record |
| CsvStreams.HeaderTaken | internal/nodes/core/parser_csv.go:518-530 | the header is the first record that is not skipped |
| Tails.LastBoundaryLf | internal/nodes/filesystem/cursor.go:281-293 | the scan finds the last line feed and counts all |
| Tails.LastBoundaryCrLf | internal/nodes/filesystem/cursor.go:297-310 | the scan finds the last CRLF and counts all |
| Tails.Cursor.ReadIncremental | internal/nodes/filesystem/cursor.go:60-143 | result and stored cursor are those specified, in every error case too |
| Tails.ExactlyOnce | internal/nodes/filesystem/cursor.go:60-143 | over every run of appends and reads the emissions are the file from the starting to the stored cursor, which is just after a delimiter; the reported lines are the delimiters emitted |
| Tails.EachEvent | internal/nodes/filesystem/cursor.go:111-143 | the cursor never moves back, a failed read moves nothing, a successful one leaves no complete delimiter unread |
| Tails.ReadReports | internal/nodes/filesystem/cursor.go:60-143 | a read's position is where its data ends and the cursor it stores, except that a truncated file without a complete line reports 0; reset, skip and line count are exact |
| Tails.ReadFailsWhen | internal/nodes/filesystem/cursor.go:60-143 | a read fails exactly when a call it makes fails, the delimiter is unknown, or an unfinished line has reached the limit |
| Tails.NeverStarts | internal/nodes/filesystem/cursor.go:148-161 | without fromStart and a stored cursor nothing is ever emitted or stored |
| Tails.TruncationLosesWhen | internal/nodes/filesystem/cursor.go:75-143 | from a file shorter than the stored cursor c, over every run of appends and reads: until a read moves the cursor nothing is emitted; from then on the emissions are the file from 0 to the cursor if and only if that first read saw fewer than c bytes, and otherwise they start at c |
| Tails.ResetStoredWhen | internal/nodes/filesystem/cursor.go:75-133 | one read of a truncated file stores the new cursor unless the file holds only a partial line |
| Tails.TruncatedFileLosesItsStart | internal/nodes/filesystem/cursor.go:125-133 | for every c and every partial line, growing past c before the next read loses the bytes before c |
| Throttles.FailureRateBound | internal/auth/throttle.go:57-94 | every half-open interval of fifteen minutes holds at most eight recorded failures of a user that does not log in |
| Throttles.EightIsAttained | internal/auth/throttle.go:79-94 | some run records eight |
| Throttles.FifthInOneWindow | internal/auth/throttle.go:85-92 | in every run a recorded fifth failure comes within one window of the first of its five |
| Throttles.RefusedWhen | internal/auth/throttle.go:57-75 | an attempt is refused exactly when the last recorded failure was a fifth one less than a window ago |
| Throttles.NoneWhileLocked | internal/auth/throttle.go:66-74 | in every run, after a fifth failure none is recorded for a window |
| Throttles.OthersDoNotMatter | internal/auth/throttle.go:57-101 | what is known about a user after any attempts is what that user's own attempts leave |
| Throttles.SuccessStartsAfresh | internal/auth/throttle.go:97-101 | after a successful login nothing from before it matters |
| Throttles.LoginThrottle.Allow | internal/auth/throttle.go:57-75 | refuses exactly locked users and forgets expired locks |
| Throttles.LoginThrottle.RecordFailure | internal/auth/throttle.go:79-94 | counts in the running window or opens a new one, and locks at five |
| Throttles.LoginThrottle.RecordSuccess | internal/auth/throttle.go:97-101 | forgets the user |
| Throttles.LoginThrottle.Login | internal/api/auth_handlers.go:144-172 | Allow, then the record of the outcome, for no other user |
| StateMachines.Validate | internal/nodes/core/statemachine_engine.go:227-257 | accepts exactly the definitions whose initial state and all targets are declared |
| StateMachines.SMEngine.SendEvent | internal/nodes/core/statemachine_engine.go:126-168 | the candidate loop takes the first open transition and runs it |
| StateMachines.SMEngine.SendDelayed | internal/nodes/core/statemachine_engine.go:172-199 | the same for a delayed transition |
| StateMachines.SMEngine.ExecuteTransition | internal/nodes/core/statemachine_engine.go:278-314 | moves to a declared target and runs the three action loops; refuses any other |
| StateMachines.ActionsInOrder | internal/nodes/core/statemachine_engine.go:278-314 | a transition runs exit, transition and entry actions as one list |
| StateMachines.SendExactly | internal/nodes/core/statemachine_engine.go:126-168 | from the definition: an event takes the first open transition its entry stands for, runs exit, transition and entry actions in order and reports from and to; with all blocked it stays and says so; without an entry nothing happens |
| StateMachines.SendAfterExactly | internal/nodes/core/statemachine_engine.go:172-199 | the same for a delayed transition, which reports nothing when blocked |
| StateMachines.RestartContinues | internal/nodes/core/statemachine.go:568-602 | a persisted node goes on in its state and context with that state's timers, or at the initial state if its own is gone |
| StateMachines.FirstMatchWins | internal/nodes/core/statemachine_engine.go:152-168 | the transition taken is the first not blocked, each guard seeing the context the guards before it left; none exactly when all are blocked |
| StateMachines.RunsStayWellFormed | internal/nodes/core/statemachine.go:248-325 | over every run the state is declared, the timers are the state's delay keys, and the history is the last twenty of all changes, chained from the start to the current state |
| StateMachines.ValidDelayKeys | internal/nodes/core/statemachine.go:479-500 | in a valid machine those are all its delay keys that denote a duration |
| StateMachines.StateMachineNode.HandleMessage | internal/nodes/core/statemachine.go:248-325 | one message moves engine, timers and history as specified |
| StateMachines.StateMachineNode.HandleAfterTimer | internal/nodes/core/statemachine.go:504-556 | the same for a firing |
| StateMachines.StateMachineNode.RecordTransition | internal/nodes/core/statemachine.go:374-389 | the history keeps the newest twenty |
| StateMachines.StateMachineNode.StartDelayTimers | internal/nodes/core/statemachine.go:479-500 | a timer for every valid delay key of the current state, and for no other |
| StateMachines.StateMachineNode.RestoreState | internal/nodes/core/statemachine.go:579-602 | a persisted state is taken only if it is declared |
| Delays.QueueConservation | internal/nodes/core/delay.go:380-435 | over every run the k-th message into the queue is the k-th out of it, in one way, or in its place; the queue is bounded and holds the newest; pending is exact |
| Delays.AllOfferedAccepted | internal/nodes/core/delay.go:380-409 | every message offered is taken, or none if the queue has no room at all |
| Delays.SentInArrivalOrder | internal/nodes/core/delay.go:239-258 | the queued messages downstream are those that left the queue as sent, in that order, whatever delayed messages go in between |
| Delays.QueueKeepsArrivalOrder | internal/nodes/core/delay.go:380-435 | over every run the messages sent out of the queue are a subsequence of those offered to it, in the order offered |
| DelayRuns.NothingLostWhen | internal/nodes/core/delay.go:216-435 | over every run, what was sent out of the queue and what is in it are exactly what was offered if and only if every reset found it empty and every message found room |
| DelayRuns.TickSends | internal/nodes/core/delay.go:414-435 | over every run a tick of a running worker sends the oldest queued message, and otherwise changes nothing |
| DelayRuns.TicksDrain | internal/nodes/core/delay.go:414-435 | n ticks send the n oldest messages in order |
| DelayRuns.HowMessagesLeave | internal/nodes/core/delay.go:216-435 | a message leaves as sent only by a tick or flush, as discarded only by a reset, as evicted only when one is offered to the full queue |
| DelayRuns.GateForwardsExactly | internal/nodes/core/delay.go:360-376 | the gate forwards exactly the messages an interval or more after every earlier forward, at once and in order |
| DelayRuns.DelayedMessages | internal/nodes/core/delay.go:289-325 | each delayed message has its own timer and goes downstream once or never, by how that timer ended; a flush or reset ended it only if it came after the timer started |
| Delays.TimersEndOnce | internal/nodes/core/delay.go:289-325 | each delayed message is waiting or has ended in exactly one way |
| Delays.DelayedSentOnce | internal/nodes/core/delay.go:304-324 | a delayed message goes downstream exactly once if its timer ended by time or flush, and never if it was reset or the node stopped |
| Delays.SignalsReachRunningTimers | internal/nodes/core/delay.go:216-258 | flush and reset empty the queue and reach every running timer and no later one |
| Delays.ForwardsApart | internal/nodes/core/delay.go:360-376 | forwards i and j of the gate are at least j - i intervals apart |
| Delays.DelayNode.HandleRateQueue | internal/nodes/core/delay.go:380-409 | pushes, evicting the oldest when full |
| Delays.DelayNode.HandleRateDrop | internal/nodes/core/delay.go:360-376 | forwards exactly when the gate is open, and notes the time |
| Delays.DelayNode.RateTick | internal/nodes/core/delay.go:414-435 | one tick of the worker sends the oldest message or does nothing |
| Delays.DelayNode.ScheduleAfter | internal/nodes/core/delay.go:289-325 | sends at once or starts one timer with the current signals |
| Delays.DelayNode.ResetPending | internal/nodes/core/delay.go:216-234 | the drain loop discards the whole queue |
| Delays.DelayNode.FlushPending | internal/nodes/core/delay.go:239-258 | the drain loop sends the whole queue in order |
| Buffers.Buffer.ReadUIntBE | internal/buffer/buffer.go:172-184 | the big-endian value of the bytes, or an error out of range |
| Buffers.Buffer.ReadUIntLE | internal/buffer/buffer.go:187-199 | the little-endian value of the bytes, or an error out of range |
| Buffers.Buffer.ReadIntBE | internal/buffer/buffer.go:202-212 | its two's complement reading |
| Buffers.Buffer.ReadIntLE | internal/buffer/buffer.go:215-224 | its two's complement reading |
| Buffers.Buffer.WriteUIntBE | internal/buffer/buffer.go:347-359 | exactly the addressed bytes become the low bytes of the value, highest first |
| Buffers.Buffer.WriteUIntLE | internal/buffer/buffer.go:362-374 | the same, lowest first |
| Buffers.Buffer.WriteIntBE | internal/buffer/buffer.go:377-379 | the low bytes of the value's 64-bit two's complement, highest first |
| Buffers.Buffer.WriteIntLE | internal/buffer/buffer.go:382-384 | the same, lowest first |
| Buffers.WriteThenRead | internal/buffer/buffer.go:202-384 | a signed value comes back, in both orders, if and only if it fits the width; no other byte changes |
| Buffers.UnsignedWriteThenRead | internal/buffer/buffer.go:172-374 | an unsigned value comes back modulo the width |
| Buffers.PlaceValues | internal/buffer/buffer.go:172-199 | the first byte weighs most in big-endian order, the last in little-endian order |
| Buffers.Buffer.Swap16 | internal/buffer/buffer.go:407-415 | every pair is reversed, or an odd length is refused |
| Buffers.Buffer.Swap32 | internal/buffer/buffer.go:418-427 | every group of four is reversed |
| Buffers.Buffer.Swap64 | internal/buffer/buffer.go:430-441 | every group of eight is reversed |
| Buffers.SwapTwice | internal/buffer/buffer.go:407-441 | a swap undoes itself |
| Buffers.SwapExchangesByteOrders | internal/buffer/buffer.go:407-441 | an aligned read after a swap is the other-endian read of the original |
| Modbus.DataStore.HandleRequest | demo/modbus-server/main.go:188-347 | reply and regions are those specified, for every function code and any data |
| Modbus.DataStore.PackBits | demo/modbus-server/main.go:227-238 | the or-ing loop packs the bits eight to a byte, lowest first |
| Modbus.DataStore.RegsReply | demo/modbus-server/main.go:242-262 | the register loop lays out the words highest byte first, or the request is refused |
| Modbus.DataStore.SetCoils | demo/modbus-server/main.go:311-315 | the coil loop overwrites exactly the addressed coils with the sent bits |
| Modbus.DataStore.SetRegisters | demo/modbus-server/main.go:337-341 | the register loop overwrites exactly the addressed registers |
| Modbus.ExceptionsChangeNothing | demo/modbus-server/main.go:188-209 | an exception leaves every region as it was and carries one byte |
| Modbus.ReadsRefusedWith | demo/modbus-server/main.go:217-262 | a read of a wrong length gets exception 3, one with a bad quantity or range gets 2; it is refused exactly when the standard refuses it, and with the standard's code exactly when the quantity is within limits |
| Modbus.ReadsAnswer | demo/modbus-server/main.go:188-262 | an accepted read answers bit by bit or word by word from the addressed range of coils, discrete inputs, holding or input registers, with padding clear |
| Modbus.WritesRefusedWith | demo/modbus-server/main.go:297-347 | a write of several is taken exactly when its quantity and lengths agree and its range fits, echoing address and quantity; otherwise exception 3, or 2 for the range |
| Modbus.UnknownCodes | demo/modbus-server/main.go:188-209 | any other code is exception 1 and changes nothing |
| Modbus.WordsAreBigEndian | demo/modbus-server/main.go:217-262 | words travel highest byte first |
| Modbus.WritesStayInRange | demo/modbus-server/main.go:264-347 | a write changes nothing outside the addressed range of its region |
| Modbus.CoilsReadBack | demo/modbus-server/main.go:297-321 | written coils read back as the written bytes with padding bits cleared |
| Modbus.NoPadding | demo/modbus-server/main.go:227-238 | with a multiple of eight coils the bytes come back unchanged |
| Modbus.RegistersReadBack | demo/modbus-server/main.go:323-347 | written registers read back exactly |
| Modbus.RegisterReadsBack | demo/modbus-server/main.go:282-295 | a single register is written by every request of four bytes and reads back |
| Modbus.CoilReadsBack | demo/modbus-server/main.go:264-280 | a single coil takes 0x0000 and 0xFF00 and nothing else, and reads back |
| Modbus.FrameFits | demo/modbus-server/main.go:403-410 | every response frame has at most 260 bytes, a right length field, the request's transaction and unit, and carries the reply |
| FileStores.RunKeeps | internal/auth/filestore.go:111-189 | over every run, with saves failing at will, the index agrees with the users, loading the list last written to storage gives exactly the users and the index in memory, and an active admin once there stays |
| FileStores.LastAdminRefusedWhen | internal/auth/filestore.go:157-172 | the last-admin error is returned exactly when the update would leave no active admin |
| FileStores.CreateExactly | internal/auth/filestore.go:111-136 | from the users alone: every outcome of a create, and that only a saved one changes anything |
| FileStores.UpdateExactly | internal/auth/filestore.go:145-189 | the same for an update |
| FileStores.ReloadIsSame | internal/auth/filestore.go:42-67 | loading what a valid store saved gives the same store |
| FileStores.FileStore.constructor | internal/auth/filestore.go:42-67 | the load loop fills both maps; from users distinct in id and name the store is valid |
| FileStores.FileStore.CreateUser | internal/auth/filestore.go:111-136 | saves first, then changes memory; every refusal changes nothing |
| FileStores.FileStore.UpdateUser | internal/auth/filestore.go:145-189 | the same for an update |
| FileStores.FileStore.GetByUsername | internal/auth/filestore.go:83-95 | the index answers as a scan of all users would |
| FileStores.FileStore.CountActiveAdmins | internal/auth/filestore.go:193-204 | the number of active admins |

## Left out

- `flows` deploy mode: it does not tell a running node from a new one when it starts loops, so one loop per node does not hold there.
- HTTP mux rebuilding, status, debug and error fan-out of the engine: callback plumbing with no state of its own.
- In-place update of the response registry's and the hub's maps: there, and in Channels, a step maps one state value to the next, because the claims are about interleavings.
- Memory-model races finer than the atomic steps, such as a target read before a rewire and used after it.
- Goroutines an instance leaves running after its Stop returned: Channels takes Stop to end them.
- Map values handed out by `Data()` and values passed to Set that other messages still hold.
- A response writer that panics: the slot would count as answered with `done` left open.
- The session registry's and hub's network side, read and write pumps, origin checks.
- `trimSpaces` of the csv node, its `cast` rules (an arbitrary function here).
- Column order derived by sorting keys, input shapes other than objects and rows, and the once-only header of stringify.
- Text as characters: a chunk of the csv stream or of a tailed file cut inside a multi-byte character, whose residue JSON would not keep.
- Csv.RoundTrip: past a comment row that spans lines it gives only the reader's own answer, because the reader resumes inside a cell; CsvIdentity.RoundTripIdentity covers those rows too.
- Stored cursors above 2^53, which pass through a floating-point number.
- Throttles.FailureRateBound: counts runs in which the user does not log in; SuccessStartsAfresh says that a login resets the count.  Allow and its record at different times are not modelled.
- JSON decoding of machine definitions, ParseDelayMs, guards and actions as JavaScript, persistence failures of the state machine.
- Timer callbacks that are past their mutex when the node stops.
- Random and fixed delay values, unit parsing and the ticker of the rate worker: a tick may come at any time.
- Fixed-width and floating-point buffer accessors, which reduce to the integer codec.
- Modbus simulation of the demo values and reading frames off the socket.
- User normalisation rules (an arbitrary function here), password handling and the JSON file format.
- Log ring buffer, certificate store, route conflicts, switch and change nodes, REST handlers, the frontend and the other demo servers: easier members that would add nothing.
