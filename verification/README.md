# Verified model of linux-tcp-server

This project models the two state machines of the repository and the data structures they rest on, and proves
what they promise, in Dafny 4.11. `dafny verify dfyconfig.toml` checks everything.

**Message framing** (`Ring`, `Framing`, `Receiving`, `Demarcar`, `ServerModel`, `Service`, `Blocking`, `Sender`). A
wrap-around byte ring of 256 bytes sits between the socket and the message demarcar of each client. The service loop
asks `recv` for no more than the ring has room for, the demarcar stores the bytes and hands every complete message to the
application: a two-byte length in network order (Appendix B of RFC 791) and a payload, or a block of fixed size. The
ring, the demarcar and the service manager are classes with arrays and loops. Their methods are proved against
`Drain`, `Receive` and `RunServer`, functions of the byte stream, and the theorems are about those: `Drain` is *the*
parser of the wire format, and what is delivered depends neither on how TCP splits the stream nor on where the ring
wraps nor on what other clients do.

**Command modes** (`CommandTree`, `Walk`, `WalkMeaning`, `CliModel`, `CliShadow`, `CliRefinement`, `CliTheorems`,
`CliFeedback`, `CliExample`, `CliShortcuts`, `CliHandlers`, `CliModes`, `CliWords`, `CliRecords`, `Registration`,
`Negation`, `Cli`). The command parser walks a
tree of params token by token, appends one TLV per leaf to a buffer, and keeps that buffer in step with a cursor by
marking and restoring a checkpoint. Some commands feed further lines to the parser while they run (`repeat`,
`show history`, the test scripts), and these start on the unfinished command's buffer. `Cli` is the parser with its
cursor, buffer and value holders updated in place; each of its methods is proved equal to a function of `CliModel`. The
reference for the buffer is `PathTlvs`, read off the tree and the leaves' value holders with no regard to how the cursor
got where it is. `CliShadow` is the parser without buffers and values; `CliRefinement` proves that it follows the parser
exactly, and so says in advance, for every line and everything it feeds back, whether the buffer stays that of the path.
`WalkMeaning`, `CliWords` and `CliRecords` say what walk, line and handler view come to in words, tokens and records
alone, without the functions the rest is stated with.

**Structures** (`SerBuffer`, `Glthread`, `StableSort`, `Dump`). The doubling serialize buffer, the intrusive list with
its priority insert, and the depth-first command dump that prints from one shared token array.

## What turned out not to hold

* The last read of the fixed-size drain fails by design and returns with the ring's mutex locked
  (ByteCircularBuffer.cpp:74-78, TcpMsgFixedSizeDemarcar.cpp:36). The mutex is not recursive, so the next write waits
  for ever. `Receiving.FixedSizeBlocksAfterFirstFlush` says exactly when a fixed-size connection still behaves as
  framing promises: when no receive follows the one that completes the first block. One thread serves all clients, so
  `Blocking.IsolationUntilFatal` says the same of a whole server: every client gets its own bytes' parse exactly until
  some client that has had a block receives again, and then nobody is served.
* The mode-buffer invariant (the buffer of a mode holds its path's TLVs and nothing else) breaks in three ways.
  "/" applied to the config hook saves the hook's command code under the checkpoint, because the hook's own handler
  marks again (CommandParser/parser.c:249-251, CommandParser/clistd.c:321-328). "?" behind a `no` leaves the cursor on
  the `no`, and the next do-command takes it for a leaf when it rebuilds the buffer (CommandParser/cmd_hier.c:810-826).
  And a line that `show history` or a test script feeds back starts behind the TLVs and the command code of the command
  that feeds it back (CommandParser/clistd.c:277), so that entering a mode there keeps them.
  `CliTheorems.PlainLineKeepsInvariant` is the if-and-only-if for lines that feed nothing back,
  `CliFeedback.FedBackLineBreaks` for a line handed on once or more, `CliTheorems.ModeBufferInvariant` for all lines, and
  `CliTheorems.EveryRunIsExact` for all runs; `CliExample` has concrete runs.
* An assertion of the do-branch can fail (CommandParser/parser.c:328-336): not for a command that feeds nothing back
  (`CliShortcuts.DoLeavesConfig`), but for `do show history /` answered with a recorded `cd`
  (`CliExample.DoAssertionFails`). `CliShortcuts.DoAssertionExactly` is the if-and-only-if for a line handed on once or more,
  `CliShortcuts.DoAssertionByShadow` the one for all lines.
* `cd` from a `no` clears a value holder the `no` does not have (CommandParser/cmd_hier.c:700-709), where `cd..` is
  harmless (`CliShortcuts.JumpingFromNoHalts`).
* A mode forgets a `no` passed on the way in (CommandParser/parser.c:134 starts every line afresh).
  `CliModes.ModeSplitting` is exact about it.
* support_cmd_negation is meant to refuse a second `no`, but behind an ordinary command called "no" it adds one at each
  call (CommandParser/cmd_hier.c:536-542). `Negation.NegatingTwice` is the if-and-only-if.
* An announced payload of more than 254 bytes can never be completed in the ring. The readiness test only remarks on
  lengths over 8192 and goes on (TcpMsgVariabSizeDemarcar.cpp:23-26).
  `Receiving.GreedyOutcome` and `Receiving.OversizedHeaderIsForever` say what then happens.

## How the source is read

* A `param_t *` is an index into a table of params, numbered so that a parent precedes its children; null-terminated
  option arrays are the sequence of their filled slots, because matching stops at the first empty one.
* The serialize buffer is generic. At bytes it is the C buffer; the parser uses it at whole TLV records, the only unit
  it ever appends, rewinds or swaps.
* Failed assertions, crashes and writes past an object's end terminate the modelled process (`halted`): "/" at the
  root, ten or more candidates for one abbreviation, "?" directly after `do`, which dereferences the do-hook's missing
  parent, `cd` from a `no`, and `do`, `cd..` and `cd` fed back to the parser while it is at the do-hook.
* The lines a command feeds back are part of the command line that is given to the model (`Line.reruns`), as is what
  they feed back in their turn. A param says whether its handler feeds nothing back, one recorded line
  (`show history`, with or without its argument; `repeat`), or a test script (`run ut` through its handler; the
  intercepted form is recognized by its words). A script asserts that each of its lines completes; a script that cannot
  be opened ends the process like one whose first line has no words. What a `no` reads like when it is taken for a leaf
  is arbitrary (`Env.stray`).
* The answer a user gives when a token abbreviates several commands is part of the token. Leaf validation callbacks
  are arbitrary functions. Every other application handler is recorded with what it is shown and is taken not to call
  the parser.
* Sockets are queues of arbitrary segments, would-blocks, closes and failures; accepting and removing a client are
  atomic.
* A comparator's verdict "before" is the value -1 and no other, as in the source.
* A token has at most 63 characters and a line at most 16 tokens; beyond that the source writes past its arrays.

## Model

| member | source | states |
|---|---|---|
| ByteRing.ByteCircularBuffer.constructor | ByteCircularBuffer.cpp:6-26 | a new ring is empty and unlocked |
| ByteRing.ByteCircularBuffer.Write | ByteCircularBuffer.cpp:45-70 | appends all bytes to the stored sequence, across the wrap, or stores none when they do not fit |
| ByteRing.ByteCircularBuffer.Read | ByteCircularBuffer.cpp:72-97 | copies out the oldest bytes, dropping them or not; on failure nothing changes and the mutex stays held |
| ByteRing.ByteCircularBuffer.AvailableSize | ByteCircularBuffer.cpp:40-43 | the free space is capacity minus what is stored |
| ByteRing.ByteCircularBuffer.IsFull | ByteCircularBuffer.cpp:99-102 | full exactly when the stored sequence has the capacity's length |
| ByteRing.ByteCircularBuffer.Reset | ByteCircularBuffer.cpp:104-109 | forgets everything stored |
| Framing.DrainIsTheParser | TcpMsgVariabSizeDemarcar.cpp:34-50 | draining yields exactly the one division of a stream into encoded messages and an incomplete rest, both directions |
| Framing.HeaderAsRead | TcpMsgVariabSizeDemarcar.cpp:16-45 | in bytes: the first message is complete when `256 * s[0] + s[1]` bytes follow the first two, and is those bytes |
| Framing.OneByteMessage | TcpMsgVariabSizeDemarcar.cpp:34-50 | the three bytes 0, 1, x are the message x |
| Framing.DrainAppend | TcpMsgVariabSizeDemarcar.cpp:14-50 | draining in two goes, rest carried over, equals draining once |
| Framing.FixedBlockCount | TcpMsgFixedSizeDemarcar.cpp:15-42 | a stream of n bytes yields n / k blocks and keeps n mod k bytes |
| Framing.FixedBlockAt | TcpMsgFixedSizeDemarcar.cpp:29-42 | block i is the run of k bytes that starts at byte i * k (`Framing.BlockStartIs`) |
| Receiving.RunDrains | TcpClientServiceManager.cpp:77-90 | over every legal run the ring never overflows and never keeps a complete message |
| Receiving.ChunkingInvariance | TcpClientServiceManager.cpp:77-90 | after any receives the log is the complete messages of all bytes received and the ring their rest |
| Receiving.SplitsAgree | TcpMsgDemarcar.cpp:40-64 | two ways of splitting one stream deliver and hold the same |
| Receiving.RoundTrip | tcp_client_fix_sizestr_sender.cpp:21-37 | encoded messages arrive exactly, in order, leaving the ring empty, in any chunking |
| Receiving.StallDichotomy | TcpClientServiceManager.cpp:79-84 | after a drain there is no space exactly when the ring is full behind an oversized header |
| Receiving.FixedSizeNeverStalls | TcpMsgFixedSizeDemarcar.cpp:15-22 | back-pressure is impossible exactly for block sizes up to the ring's capacity |
| Receiving.GreedyOutcome | TcpClientServiceManager.cpp:77-111 | the outcome of the receive loop for any schedule: what is delivered, what ring and socket keep, and when the socket is emptied |
| Receiving.FittingStreamsNeverStall | TcpClientServiceManager.cpp:77-111 | when every message fits the ring all bytes are consumed and the log is the whole parse |
| Receiving.OversizedHeaderIsForever | TcpMsgVariabSizeDemarcar.cpp:16-31 | once an oversized header is at the front no later input is delivered |
| Receiving.OverflowIsForever | TcpMsgDemarcar.cpp:45-53 | a message beyond the free space fills the ring undrained, and every later one is dropped whole |
| Receiving.VariableSizeNeverBlocks | TcpMsgVariabSizeDemarcar.cpp:34-50 | the reads of the variable-size drain never fail, so the mutex they would keep makes no difference in any run |
| Receiving.FixedSizeBlocksAfterFirstFlush | TcpMsgFixedSizeDemarcar.cpp:29-42 | with the mutex as left by the code, a fixed-size run is right exactly when no receive follows the first completed block |
| Receiving.FixedSizeBlocksOnTheSecondByte | TcpMsgFixedSizeDemarcar.cpp:36-41 | the smallest run that goes wrong |
| Demarcar.TcpMsgDemarcar.IsBufferReadyToFlush | TcpMsgVariabSizeDemarcar.cpp:14-32 | true exactly when as many bytes are there as the first two announce, high byte first; peeking changes nothing |
| Demarcar.TcpMsgDemarcar.DeliverFrame | TcpMsgVariabSizeDemarcar.cpp:39-48 | one round delivers the first payload, drops header and payload, and both reads succeed |
| Demarcar.TcpMsgDemarcar.DrainFrames | TcpMsgVariabSizeDemarcar.cpp:34-50 | the loop delivers what the parser says and leaves the mutex free |
| Demarcar.TcpMsgDemarcar.DrainBlocks | TcpMsgFixedSizeDemarcar.cpp:29-42 | the loop delivers every complete block and leaves the mutex held exactly when it delivered any |
| Demarcar.TcpMsgDemarcar.ProcessMsg | TcpMsgDemarcar.cpp:40-64 | a message that fits is received in full, leaving ring, log and mutex as the model of a receive says; one that does not fit fills the ring and is otherwise dropped undrained |
| Demarcar.TcpMsgDemarcar.CanAcceptMoreData | TcpMsgDemarcar.cpp:66-69 | true exactly when there is free space |
| ServerModel.Isolation | TcpClientServiceManager.cpp:67-112 | over every interleaving a client's log and ring are the parse of its own bytes since it was accepted |
| ServerModel.StreamIsWhatCame | TcpClientServiceManager.cpp:67-112 | after an accept and until the next close, a client's bytes are those received on its descriptor, in order |
| ServerModel.OthersAreInvisible | TcpClientServiceManager.cpp:67-112 | deleting every other client's events changes nothing a client can observe |
| Service.TcpClient.Recv | TcpClientServiceManager.cpp:86 | between one and the asked-for number of the next bytes, the rest staying queued |
| Service.OfferedIs | TcpClientServiceManager.cpp:86-100 | a socket offers the segments up to the first other answer, which ends the connection unless it is "would block" |
| Service.TcpClientServiceManager.AddClient | TcpClientServiceManager.cpp:215-219 | a new client joins with an empty endpoint, the others untouched |
| Service.TcpClientServiceManager.GetClientByFd | TcpClientServiceManager.cpp:247-257 | finds the client of a registered descriptor and null for any other |
| Service.TcpClientServiceManager.ServiceClient | TcpClientServiceManager.cpp:77-111 | a legal run of receives that ends with the ring full or all available bytes received |
| Service.TcpClientServiceManager.RemoveClient | TcpClientServiceManager.cpp:278-282 | exactly that client leaves |
| Service.TcpClientServiceManager.HandleEvent | TcpClientServiceManager.cpp:70-111 | the manager follows the server model by steps of that descriptor only, receiving the next bytes of that client's own socket and touching no other; an unknown one does nothing; the served client, removed or not, gets all that fits; it is removed exactly when its connection ended and the ring did not fill first |
| Service.TcpClientServiceManager.HandleEvents | TcpClientServiceManager.cpp:67-112 | a whole round of events is a run of the server model by steps of the reported descriptors, in which every client receives the next bytes of its own socket, in order |
| Blocking.IsolationUntilFatal | TcpNewConnectionAcceptor.cpp:104-108 | with fixed-size demarcars every client's log and ring are the parse of its own bytes exactly until a client that has had a block receives again |
| Blocking.FrozenFromFatal | TcpClientServiceManager.cpp:67-112 | from the first such receive on every client keeps what it had, the parse of the bytes it had received by then, whatever arrives for whom |
| Sender.SendMsg | tcp_client_fix_sizestr_sender.cpp:21-37 | the bytes sent are the length, high byte first, and the payload, which is the encoding of the payload |
| Sender.SentIsDelivered | tcp_client_fix_sizestr_sender.cpp:21-37 | payloads of at most 254 bytes never stall the server and are delivered exactly |
| StableSort.InsertAllIsTheStableSort | CommandParser/gluethread/glthread.c:139-187 | inserting a list element by element gives its stable sort, and there is only one |
| StableSort.InsertIsStable | CommandParser/gluethread/glthread.c:168-187 | an inserted element goes behind its equals |
| GlthreadList.AddNext | CommandParser/gluethread/glthread.c:44-58 | links a node in behind another, keeping the chain well formed |
| GlthreadList.AddBefore | CommandParser/gluethread/glthread.c:60-75 | links a node in before another, which may be the head |
| GlthreadList.Remove | CommandParser/gluethread/glthread.c:77-98 | unlinks a node from any position and closes the gap |
| GlthreadList.DequeueFirst | CommandParser/gluethread/glthread.c:189-198 | returns the first data node unlinked, or null on an empty list |
| GlthreadList.AddLast | CommandParser/gluethread/glthread.c:110-124 | appends a node |
| GlthreadList.DeleteList | CommandParser/gluethread/glthread.c:100-108 | unlinks every node although each removal wipes the link followed |
| GlthreadList.FindPlace | CommandParser/gluethread/glthread.c:168-183 | the scan stops behind the last node before the first one for which `cmp` of the new node and it is -1 |
| GlthreadList.PriorityInsert | CommandParser/gluethread/glthread.c:139-187 | inserts a node before the first one for which `cmp` of the new node and it is -1, behind all others |
| GlthreadList.EnqueueAllThenDrain | CommandParser/gluethread/glthread.c:139-198 | enqueuing any nodes and dequeuing all empties the list and returns their stable sort; where `cmp` is a preorder, no node comes behind one it is before (verdict -1), and nodes neither of which is before the other keep their order |
| GlthreadList.SortedByVerdict | CommandParser/gluethread/glthread.c:158-184 | the stable sort, said in verdicts of `cmp` alone |
| SerBuffer.SerializedBuffer.Grow | CommandParser/serialize.c:277-290 | doubling makes room, keeps every element, and keeps `Valid`: all copying so far is at most the size gained, and a grown buffer is smaller than twice its peak use |
| SerBuffer.SerializedBuffer.SerializeString | CommandParser/serialize.c:271-294 | appends across any growth and keeps contents and saved contents |
| SerBuffer.SerializedBuffer.Skip | CommandParser/serialize.c:53-69 | moves the end forward, keeping what is stored, or rewinds it |
| SerBuffer.SerializedBuffer.MarkCheckpoint | CommandParser/serialize.c:78-83 | what a restore would bring back is the contents now |
| SerBuffer.SerializedBuffer.RestoreCheckpoint | CommandParser/serialize.c:71-76 | the contents are the saved ones again |
| SerBuffer.SerializedBuffer.Reset | CommandParser/serialize.c:346-349 | contents and saved contents are empty |
| SerBuffer.SerializedBuffer.DeSerializeString | CommandParser/serialize.c:321-328 | returns the next elements and moves past them |
| SerBuffer.SerializedBuffer.AppendAllThenRestore | CommandParser/serialize.c:71-83 | mark, any appends, restore: exactly the marked contents, and the growth bounds |
| CommandTree.FoundIsAnOption | CommandParser/parser.c:61-120 | whatever matches is one of the options, and a matched command is abbreviated by the token |
| CommandTree.ExactNameWins | CommandParser/parser.c:79-85 | an exact name wins over every abbreviation |
| CommandTree.UniqueAbbreviationWins | CommandParser/parser.c:86-99 | a token that abbreviates one command only means that command, whatever leaves there are |
| CommandTree.LeafTakesTheRest | CommandParser/parser.c:74-96 | a leaf takes a token exactly when it abbreviates no command, and then the last leaf does |
| CommandTree.MatchMeans | CommandParser/parser.c:61-120 | the whole rule by positions: ten abbreviated commands before the first exact name are too many; then the exact name, the single abbreviation, the one the user chose, or the last leaf |
| CommandTree.BranchMeans | CommandParser/cmd_hier.c:669-680 | the branch of a param is the one ancestor of it right below the root |
| CommandWalk.WalkAppend | CommandParser/parser.c:139-182 | a line walks as its two halves do one after the other |
| CommandWalk.WalkInBranch | CommandParser/parser.c:139-182 | a walk stays in its branch, writes leaves strictly below its start, and passes `no` in the config branch only |
| CommandWalk.WalkCollectsPath | CommandParser/parser.c:144-176 | the TLVs a complete walk collects extend its start's path TLVs to its end's |
| WalkMeaning.WalkMeans | CommandParser/parser.c:139-182 | each token is matched at the place the one before it led to, every leaf passed has satisfied both validations, and the first token that leads nowhere decides the status by the test it fails |
| WalkMeaning.TakenValuesAreValid | CommandParser/parser.c:145-164 | no value is taken that the library or the application rejects |
| WalkMeaning.TakenValuesAreTyped | CommandParser/parser.c:139-182 | the values taken are words of the line, in order, those of exactly the leaves passed |
| WalkMeaning.RecordsAre | CommandParser/parser.c:154-158 | record by record, what is collected has the type and the name of the leaf and the word |
| WalkMeaning.PathRecords | CommandParser/cmd_hier.c:797-849 | record by record, the reference buffer: the leaves among the ancestors, in order, each with its type, its name and its value holder's contents |
| WalkMeaning.HoldersAfterWalk | CommandParser/parser.c:156-157 | after a walk the leaves passed hold the words typed, and all others what they held |
| CliRefinement.ParseMirrors | CommandParser/parser.c:300-394 | one line, with everything it feeds back, changes cursor and status as its shadow says, and leaves buffer and checkpoint equal to the cursor path's TLVs or longer as its shadow says |
| CliTheorems.ShadowIsExact | CommandParser/parser.c:300-394 | from every reachable state the shadow of a line's outcome is computed without buffer, checkpoint and value holders |
| CliTheorems.ModeBufferInvariant | CommandParser/parser.c:300-394 | after any line, whatever it feeds back, buffer and checkpoint are the cursor path's TLVs exactly when the line's shadow is clean |
| CliTheorems.PlainLineKeepsInvariant | CommandParser/parser.c:300-394 | a line that feeds nothing back keeps the invariant exactly unless it is "/" at the config hook or a do-command that returns to a `no` |
| CliTheorems.SlashAtConfigBreaks | CommandParser/parser.c:234-252 | "/" at the config hook leaves its own command code in the mode's buffer |
| CliTheorems.DoBehindNoBreaks | CommandParser/cmd_hier.c:797-849 | a do-command that returns to a `no` leaves one stray TLV behind those of the path |
| CliTheorems.EveryRunIsExact | CommandParser/parser.c:411-453 | at the end of any run from the start the invariant holds exactly when the run's shadow is clean |
| CliTheorems.PlainRunIsConsistent | CommandParser/parser.c:411-453 | a run whose lines feed nothing back and are neither of the two failing kinds keeps the invariant |
| CliFeedback.FedBackLineBreaks | CommandParser/clistd.c:155-163 | a line handed on by any chain of `repeat` and history commands breaks the invariant exactly when it sets the checkpoint behind a history command's code ("?", "/" or `config` where complete, `cd..` out of a leaf, a do-command that returns to a `no`), or, with `repeat` alone, when it would break it typed |
| CliFeedback.FedBackModeHasForeignTlvs | CommandParser/clistd.c:238-281 | the buffer of a mode entered by a fed-back line begins with the TLVs and the code of the command that fed it back |
| CliExample.HistoryBreaks | CommandParser/clistd.c:276-277 | `show history` answered with `config tcp-server abc /` leaves the code of `show history` in the mode's buffer |
| CliExample.AskingBehindNoBreaks | CommandParser/parser.c:223-232 | `config no ?` keeps the invariant and `do show help` after it breaks it |
| CliShortcuts.DoIsAFrame | CommandParser/parser.c:312-343 | a do-command that stays, whatever it feeds back, leaves cursor and all config value holders as they were and the buffer of the path in place, so that it repairs a buffer that was off; a stray TLV is added when the cursor is on a `no` |
| CliShortcuts.DoSwitchesModeExactly | CommandParser/parser.c:326-343 | a do-command that feeds nothing back leaves its place exactly when it is complete and ends in "?" or "/" (or halts) |
| CliShortcuts.DoLeavesConfig | CommandParser/parser.c:332-336 | and then the "impossible case" assertion of the do-branch cannot fail |
| CliShortcuts.DoAssertionExactly | CommandParser/parser.c:328-336 | when a line is fed back, handed on by any chain of `repeat` and history commands, the do-branch's assertions fail exactly if the do-command entered a history command as a mode and the line is `cd`, or `cd..` in a mode right below the root |
| CliShortcuts.DoAssertionByShadow | CommandParser/parser.c:328-336 | whatever is fed back, the shadow says whether they fail, and the do-branch halts exactly when they do or the command did |
| CliExample.DoAssertionFails | CommandParser/parser.c:328-336 | the run `config`, `do show history /` answered with `cd` fails the assertion that the cursor is not at the root |
| CliShortcuts.ClimbingEqualsJumping | CommandParser/cmd_hier.c:686-748 | from every state between two lines, one `cd..` per level has the whole effect of one `cd` |
| CliShortcuts.JumpingFromNoHalts | CommandParser/cmd_hier.c:686-748 | from a `no`, `cd..` leads to the negated param and `cd` writes where there is no value holder |
| CliShortcuts.ClimbingIsConsistent | CommandParser/cmd_hier.c:716-748 | every intermediate level has the buffer of its own path |
| CliHandlers.AtoiOfDecimal | CommandParser/cmdtlv.h:37-38 | the command code read back from its TLV is the code written |
| CliHandlers.HandlerViewOfLine | CommandParser/parser.c:234-275 | a line, typed or fed back, first invokes the handler it ends at, with that code, CONFIG_DISABLE exactly after a `no`, and that path's leaf TLVs alone exactly when it was started on its path's buffer; and no other handler unless lines are fed back |
| CliHandlers.HandlerViewOfDo | CommandParser/parser.c:312-343 | through `do` the view is always that of the path alone |
| CliRecords.HandlerSees | CommandParser/parser.c:139-275 | any line without a word of its own: its handler is shown, behind what was in the buffer, for each leaf of the line its type, its name and the word typed, in order, and the code; no handler is shown anything when a token fails, by the status of that token |
| CliRecords.HandlerSeesThroughDo | CommandParser/parser.c:312-343 | the same through `do` in the config branch, on an empty buffer |
| CliWords.WordsDecide | CommandParser/parser.c:312-384 | which first words are handled how, each by an if-and-only-if; the order of the tests matters for `cd..` and `cd` only |
| CliWords.RepeatLine | CommandParser/parser.c:349-352 | `repeat`, in any mode, is the last command once more, and complete |
| CliWords.ClearLine | CommandParser/parser.c:361-362 | `cls` changes nothing but what the end of every line does: back to the checkpoint in a mode, to an empty buffer at the root |
| CliWords.ScriptLine | CommandParser/parser.c:364-374 | `run ut` is the first line of the script and then the same command with the rest; the first line that does not complete halts the parser |
| CliWords.ClimbLine | CommandParser/cmd_hier.c:716-748 | `cd..` moves to the parent; only a leaf left behind is cleared, and its record given up |
| CliWords.JumpLine | CommandParser/cmd_hier.c:686-714 | `cd` clears exactly the leaves among the cursor's ancestors and empties the buffer; from a `no` or the do-hook the parser halts |
| CliWords.DoInConfig | CommandParser/parser.c:316-344 | `do` in the config branch is one command on an empty buffer from the do-hook, after which the mode is as it was, or another branch's mode is entered |
| CliWords.DoElsewhere | CommandParser/parser.c:345-346 | `do` in any other mode does nothing; fed back at the do-hook it halts |
| CliWords.OtherLine | CommandParser/parser.c:383-393 | every other line is one command from the cursor: its walk decides status and leaves, and its last param what is done (`CliWords.CommandDone`) |
| CliModes.ModeSplitting | CommandParser/parser.c:234-275 | for lines that feed nothing back, `p /` then `q` means what `p q` means, except exactly when a `no` is left behind in `p` and a handler is invoked |
| CliModes.SplittingShowsTheSame | CommandParser/parser.c:234-275 | whatever is fed back afterwards, the handler's own call is the same in one piece or in two, with the same exception |
| Registration.RegisteringKeepsWellFormed | CommandParser/cmd_hier.c:591-625 | registering a param keeps the tree well formed |
| Registration.NegatingKeepsWellFormed | CommandParser/cmd_hier.c:528-568 | adding negation support keeps the tree well formed |
| Registration.BareIsWellFormed | CommandParser/cmd_hier.c:302-423 | capabilities, do-hook and the zero-level hooks, before anything is registered under them, are well formed |
| Registration.GrowthKeepsNoRepeats | CommandParser/cmd_hier.c:528-625 | registering and negating keep every param out of a second slot of one parent |
| Registration.CommandTable.RegisterParam | CommandParser/cmd_hier.c:591-625 | capability slots are filled first, then the child goes into the next slot |
| Registration.CommandTable.InitLibcli | CommandParser/cmd_hier.c:308-454 | registering every built-in command, under each parent in the order of the source, ends in the library's tree, which is well formed |
| Registration.CommandTable.SupportCmdNegation | CommandParser/cmd_hier.c:528-568 | a `no` with a copy of the children is added behind them unless there is one (`Negation.NegatingTwice`, `Negation.NotYetNegated`) |
| Negation.NegatedNegates | CommandParser/cmd_hier.c:543-566 | after negation support is added, the `no` offers the children the param had |
| Negation.NegatingTwice | CommandParser/cmd_hier.c:536-542 | a second call finds the `no` and changes nothing, exactly unless the first command called "no" is an ordinary one |
| Negation.NoOffersTheSameChild | CommandParser/cmd_hier.c:550-564 | a token that resolves to a copied child resolves to it behind `no` too |
| Negation.InsertingNo | CommandParser/parser.c:172-177 | inserting `no` reaches the same param through the same leaves, marked as negated |
| Negation.RegisteringKeepsNegation | CommandParser/cmd_hier.c:591-625 | registering more, behind the `no` or elsewhere, leaves the negation in place |
| CliParser.Cli.FindMatchingParam | CommandParser/parser.c:61-120 | the scan finds what the matching rule says |
| CliParser.Cli.TakeToken | CommandParser/parser.c:141-181 | one token: the status says which test it failed, and only a leaf's word that both validations accept is stored and collected, with the leaf's type and name |
| CliParser.Cli.WalkTokens | CommandParser/parser.c:139-182 | the loop leaves the walk's leaves in buffer and value holders, record by record and only validated ones, and returns where it ended |
| CliParser.Cli.InvokeHandler | CommandParser/parser.c:274 | a handler sees the live buffer, and what it feeds back happens before it returns |
| CliParser.Cli.FeedLinesBack | CommandParser/ut/utinfra/ut_parser.c:255-267 | lines fed back are whole command lines on the buffer as it is; a script stops at the first that does not complete |
| CliParser.Cli.BuildTlvBuffer | CommandParser/parser.c:125-291 | one command, all its cases, equals its model, which `CliWords.BuildIsDone` and `CliRecords.BuildOutcome` spell out |
| CliParser.Cli.GetCurrentBranchHook | CommandParser/cmd_hier.c:669-680 | the zero-level command of a param's branch: its one ancestor right below the root |
| CliParser.Cli.GoOneLevelUp | CommandParser/cmd_hier.c:716-748 | `cd..` equals its model: leaf cleared and rewound, buffer reset at the root |
| CliParser.Cli.GotoTop | CommandParser/cmd_hier.c:686-714 | `cd` equals its model: every leaf of the path cleared, buffer reset |
| CliParser.Cli.ReverseTlvs | CommandParser/cmd_hier.c:835-848 | the swaps reverse the buffer in place |
| CliParser.Cli.BuildCmdTreeLeavesData | CommandParser/cmd_hier.c:797-849 | from any ancestor, the upward walk, across any growth, and the reversal leave the TLVs that complete the ones above it to the path, in downward order |
| CliParser.Cli.DoFromConfig | CommandParser/parser.c:316-344 | the do-branch equals its model |
| CliParser.Cli.ParseInputCmd | CommandParser/parser.c:300-394 | a whole line equals its model, which the lemmas of `CliWords` tell from the words alone |
| CliParser.Cli.CommandParser | CommandParser/parser.c:411-453 | a run of lines equals its model, and ends with the invariant exactly when its shadow is clean |
| Dump.CommandDump.DumpAllCommands | CommandParser/clistd.c:38-67 | with one shared token array the output is the lines of the tree, and earlier slots survive |
| Dump.DumpIsComplete | CommandParser/clistd.c:38-67 | the dump prints exactly the params with a callback reachable without entering a `no` |
| Dump.DumpPrintsOnce | CommandParser/clistd.c:60-66 | no param is printed twice, in a tree where no param stands in two slots |
| Dump.OneAddress | CommandParser/clistd.c:38-67 | there is one way down to each param |
| Dump.LinesArePaths | CommandParser/clistd.c:38-67 | each line is the tokens from the start of the dump down to its param |
| Dump.TokensAre | CommandParser/clistd.c:47-57 | the tokens of a path are the names of the params on it, leaves in angle brackets |
| Dump.DumpIsInOrder | CommandParser/clistd.c:59-66 | a param is printed behind everything below it, and siblings in the order of their slots |

## Left out

- Sockets, epoll, threads, the select variant, starting and stopping: replaced by the answers of a socket queue and by steps.
- The database manager's client list: nothing is claimed about its agreement with the service manager's.
- Sender.SendMsg: payloads of 65534 bytes or more, for which the 16-bit frame length wraps around and the copy overruns the buffer, are excluded.
- `config load`: it hands the lines of a file to the tree walk past `parse_input_cmd`, on a buffer reset each time; the command lines that trigger it are outside `InScope`.
- An endless chain of lines that feed each other back: a line's `reruns` are finite.
- Dump.DumpPrintsOnce: one param registered twice under the same parent is printed twice; the registration functions do not forbid it, and the tables of this model never hold such a pair.
- CliShortcuts.DoAssertionExactly: lines fed back by a script, or by a history command that is entered as a mode on the way, are covered by `CliShortcuts.DoAssertionByShadow` only.
- CliParser.Cli.BuildTlvBuffer: the `brief` show extension, one param hung under several parents, is not modelled.
- Console names, colours, help texts, history, signal handling: no effect on buffer or cursor is modelled.
- Splitting a line into tokens, and trimming it: lines are given as their words.
- CliParser.Cli.GoOneLevelUp: the params are a table of values, so pointers into the tree are indices and only value holders, cursor and buffer are updated in place.
- Registration.RegisteringKeepsWellFormed: a child is registered after its parent; the other order is not modelled.
- Registration.CommandTable.RegisterParam: likewise, a param is registered after its parent.
- Registration.NegatingKeepsWellFormed: a `no` added to a param without children sits behind empty capability slots, where nothing finds it until a child is registered; this is not modelled.
- Registration.CommandTable.SupportCmdNegation: likewise, the param has children already.
- Service.TcpClientServiceManager.ServiceClient: the service loop's classes are proved for the variable-size demarcar; what a fixed-size one does to the loop is said on values, in `Blocking`.
- SerBuffer.SerializedBuffer.SerializeString: sizes are unbounded integers, and a buffer of initial size 0, which could not grow by doubling, is excluded; the per-type serializers, truncation and offset copies are left out.
- Bytes of a TLV record: leaf ids and values are strings, and the buffer at TLV records counts records.
- Validation callbacks' own logic, `grep`, `replaceSubstring` and `string_fetch_integer`.
