# LeForum, modelled and proved

LeForum is a forum server with a binary protocol and a matching client. The server keeps threads in memory, saves
them through background writers into a directory per thread, loads message histories only when a thread is first
looked up, and counts the references to every thread by hand. This project models those parts and proves what they
promise together.

The files build on each other in this order.

| file | what it holds |
|---|---|
| `Bytes.dfy` | bytes, little-endian integers, the C string calls the program uses |
| `Forum.dfy` | threads, messages, authors and tokens, as values and as the heap object `LeThread` |
| `ForumIo.dfy` | info file, append-only message log and author file; the class `Disk` that reads and writes them |
| `Wire.dfy` | requests and replies as byte grammars, both readers, and the round trips |
| `Api.dfy`, `ApiReplies.dfy` | the protocol of `docs/dev/api.md` in words, and that the server speaks exactly that, with two exceptions |
| `Store.dfy` | the server as a state machine: registry, counter, save queues, files; one handler or writer turn a step |
| `Eager.dfy` | the forum clients should see (no queues, no files, no lazy loading) and the simulation relation |
| `Runs.dfy` | whole runs: refinement, drained restarts, crashes at any moment, ids never reused |
| `Buffers.dfy`, `ServerReplies.dfy` | the builders: a moving pointer over a buffer that doubles |
| `Server.dfy` | the running server as a class, every method proved against a step of the state machine |
| `ClientQuery.dfy` | the client's generators and parsers, proved against the grammar |
| `EndToEnd.dfy` | client packet, server, client parser: what a client learns and what changes |
| `Queue.dfy`, `ThreadObject.dfy`, `SharedPtr.dfy`, `Cleanup.dfy` | on the heap: the linked queue, the thread that owns one, the shared counter, and `cleanup` down to the last message |
| `Ownership.dfy`, `HandleRuns.dfy` | who holds which thread in every interleaving; requests and writer turns carried through to their end |
| `MessageCleanup.dfy` | which messages die how often |
| `Teardown.dfy` | `cleanup` at the end of any run: what the counting promises is what the heap teardown needs |
| `Witnesses.dfy`, `HeapWitness.dfy` | inputs on which promises fail: short runs from the first start, and a heap |
| `Communication.dfy`, `Connection.dfy` | the transfer loops over an adversarial socket; one turn of each side |
| `LockStep.dfy` | client loop and handler on one connection, a few bytes at a time, in any interleaving |

The statements that everything else serves:

- **Refinement** (`Runs.ServerRefinesEagerForum`, `Runs.RunsFromTheFirstStart`). For every run of packets, writer
  turns and drained restarts, the server's replies are byte for byte those of a forum that keeps whole threads in
  memory and has no queues and no files. The relation behind it (`Eager.Simulates`) says of each thread that it is
  whole or wholly unloaded with nothing pending; that its log file followed by its queued messages is its history;
  that a stale info file is wrong about nothing but the message counter, and an author file is never wrong; and that
  a thread with a stale or missing file is still in the queue that will write it.
- **The imperative server is that state machine** (`Server.LeServer.QueryProcess` and the three writer loops); and on
  each path it takes, pushes and gives back exactly the handles of `Ownership.Program` for that request.
- **Crashes** (`Runs.CrashSparesExactlyTheSaved`, `Runs.IdsNeverReused`). A crash at any moment spares a thread if
  and only if both its files are there, the stored counter is current and none of its messages is queued; thread ids
  are never reused in any run.
- **Understanding** (`Api.UnderstandsExactly`, `Api.RestIsSyntaxError`). The server understands exactly the documented
  packets, each in exactly one way, and answers everything else with ISYN.
- **End to end** (`EndToEnd.GetEndToEnd`, `CreateAccepted`, `FindEndToEnd`, `PostEndToEnd`, `MetaEndToEnd`,
  `AnnouncedBoundsAreEnforced`, `GetAfterRestart`).
- **Ownership** (`Ownership.CountersCountHandles`, `HandleRuns.RequestIsServed`, `Teardown.CleanUpAfterRun`,
  `MessageCleanup.EachMessageOnceIffDrained`). In every interleaving each counter is exactly its handles; a request
  carried through leaves registry and queues as its handler does, and the counters grown by what was queued; when all
  agents are idle, `cleanup` runs through queues, shared pointers, threads and their own queues to each message, and
  the log of message destructor calls is the queued messages followed by those of each thread.
- **Transport** (`Connection.Exchange`, `LockStep.ResponsesMatchQueries`, `LockStep.LinkRefinesEagerForum`,
  `LockStep.SomeoneCanMove`). On a connection that moves a few bytes at a time, among other connections and writers,
  every packet is answered as the eager forum of that moment answers it.

Some promises do not hold as they stand, and are replaced by the exact condition under which they do:

- A thread survives a crash exactly when its info and author files are there, the stored counter is current and it
  has no queued message (`Runs.CrashSparesExactlyTheSaved`). `Witnesses.AcceptedThreadCanBeLost` is a run that loses
  a thread whose creation was answered, also with an orderly stop: `cleanup` drops the save queues unwritten.
- A token proves authorship exactly when the thread has its author (`EndToEnd.AuthorFlagExactly`). If the info file
  was written before a crash and the author file was not, the thread comes back without an author and then accepts
  every token (`Runs.LostAuthorTrustsEveryToken`), because `is_token_valid` answers a missing author with a negative
  status that counts as true (`src/lib/forum.c:159`). `Witnesses.EveryTokenCanPass` is such a run.
- A restart keeps a topic exactly when it is at most 64 bytes (`Runs.RestartKeepsThread`,
  `ForumIo.CutTopicExact`): CTHR checks the declared size but stores everything up to the NUL.
  `Witnesses.AcceptedTopicCanBeCut` is a run in which a longer topic is accepted and then cut.
- The client's author flag agrees with the server's exactly when the three bytes that the server leaves unwritten in
  the four-byte slot are zero (`Wire.FlagTruth`).
- `docs/dev/api.md:78` documents a flag of one byte; the code reserves four. A client by the documentation, as
  `src/test/test-server-queries.py:104` is, reads a history as it is if and only if there is none
  (`ApiReplies.DocumentedSlotReadsOnlyEmpty`). The CTHR reply is two bytes longer than documented
  (`ApiReplies.CreateReplyLayout`).
- `parse_response_CMSG` tells an accepted message from a refused one (`EndToEnd.PostEndToEnd`), but the client's menu
  hands the answer to the parser of GTHR replies (`src/client/client.c:757`), which accepts none of the answers
  (`EndToEnd.MenuMisreadsEveryAnswer`).
- `cleanup` destructs each message exactly once if and only if the message queue is drained
  (`MessageCleanup.EachMessageOnceIffDrained`). `Witnesses.MessageCanDieTwice` is a run that ends undrained, and
  `HeapWitness.QueuedMessageDiesTwice` builds the heap of that run and cleans it up.
- A client's LIVE probe keeps the connection exactly when its one `recv` brings the whole answer
  (`LockStep.GivesUpOnlyOnTornProbe`).
- A queue that has just been emptied keeps a dangling `last` (`LinkedQueue.Queue.Pop`); `Valid` therefore constrains
  `last` only while there is a first node, and that is enough for every later push.

## Model

| member | source | states |
|---|---|---|
| Bytes.FromLeThenLe | src/server/query.c:78-81 | a stored word read back and stored again is the same bytes, for every byte string |
| Bytes.U64RoundTrip | src/server/query.c:78-92 | an eight-byte store then load gives the number back, for every 64-bit number |
| Bytes.StrNEqExact | src/lib/forum.c:163 | comparing a NUL-free string over its whole length is equality with the other side's first bytes, in both directions |
| Bytes.ContainsMeansSubstring | src/server/server.c:149 | the topic search succeeds if and only if the part occurs at some position |
| Bytes.StrNCpyExact | src/client/query.c:61 | copying a NUL-free string with its own length takes exactly that string, whatever follows it |
| Forum.RandomToken | src/lib/security.c:13-33 | a token has 24 bytes, all in 0x21..0x7e, whatever the entropy |
| Forum.NewThreadIsEmpty | src/lib/forum.c:16-41 | a new thread has no messages and starts at the number drawn, 4294967295 excepted |
| Forum.PostKeepsHistory | src/lib/forum.c:73-104 | posting keeps ids consecutive from the first id and the announced count equal to the number of messages |
| Forum.CountIsLength | src/lib/forum.c:67-71 | on a well-numbered thread the 64-bit difference of the two counters is the length of the list |
| Forum.TokenTestIsExact | src/lib/forum.c:157-166 | with an author, the test answers 1 if the first 24 bytes are the author's token and 0 if not |
| Forum.LeThread.CreateMessage | src/lib/forum.c:73-104 | the heap object takes a text of 3..512 bytes as its next message under the old next id, and is unchanged otherwise |
| ForumIo.InfoRoundTrip | src/server/forum_io.c:45-108 | decoding a saved info file gives back every field, the topic cut to 64 bytes |
| ForumIo.CutTopicExact | src/server/forum_io.c:97-103 | a topic comes back as its first 64 bytes, unchanged if and only if it has no more |
| ForumIo.RecordRoundTrip | src/server/forum_io.c:150-204 | a log record reads back id, flag and text and leaves exactly what follows it |
| ForumIo.LogRoundTrip | src/server/forum_io.c:173-204 | loading n messages from a log that starts with n encoded messages gives them in order, whatever follows |
| ForumIo.ShortLogLeavesUnread | src/server/forum_io.c:173-204 | a log with fewer records than announced still gives the announced number of messages: those it holds, in order, and then messages without a text whose id and flag are whatever was in memory |
| ForumIo.AppendRefinesWholeSave | src/server/forum_io.c:110-171 | appending one record to a saved history gives the file of saving the longer history |
| ForumIo.HistoryRoundTrip | src/server/forum_io.c:110-204 | loading after a whole save reads back exactly the ids, flags and texts |
| ForumIo.AuthorRoundTrip | src/server/forum_io.c:206-248 | a saved author is read back whole |
| ForumIo.InfoLayout | src/server/forum_io.c:65-70 | id, author id, first id, next id and topic size in eight bytes each, then the topic |
| ForumIo.RecordLayout | src/server/forum_io.c:163-166 | id in eight bytes, flag in four, text size in eight, then the text |
| ForumIo.AuthorLayout | src/server/forum_io.c:242-243 | id in eight bytes, then the token |
| ForumIo.Disk.LethreadSave | src/server/forum_io.c:45-75 | rewrites one info file and nothing else; a thread without an author is refused with IDAT and changes no file |
| ForumIo.Disk.LemessageSave | src/server/forum_io.c:150-171 | appends exactly one encoded record to the log of one thread |
| ForumIo.Disk.LemessagesSave | src/server/forum_io.c:110-148 | the writing loop leaves the encoding of the whole history |
| ForumIo.Disk.LemessagesLoad | src/server/forum_io.c:173-204 | the reading loop pushes as many messages as announced, as the load specification says, short files included |
| ForumIo.Disk.LethreadLoad | src/server/forum_io.c:77-108 | a fresh unloaded thread with the file's fields, or none exactly when there is no readable info file |
| ForumIo.Disk.LeauthorSave | src/server/forum_io.c:227-248 | rewrites one author file and nothing else; without an author no file changes |
| ForumIo.Disk.LeauthorLoad | src/server/forum_io.c:206-225 | sets the author from the file, or leaves the thread alone |
| Wire.ReadsGet | src/server/query.c:40-54 | the server reads a client's GTHR packet as a request for that id |
| Wire.ReadsCreate | src/server/query.c:149-174 | it reads a CTHR packet as exactly the client's topic, or refuses it exactly when the size is not in 3..64 |
| Wire.ReadsFind | src/server/query.c:223-246 | it reads an FTHR packet as exactly the client's part, under the same bounds |
| Wire.ReadsPost | src/server/query.c:322-385 | it reads a CMSG packet as exactly the id, text and optional token, or refuses the text exactly when it is not 3..512 bytes |
| Wire.GetReplyRoundTrip | src/client/query.c:232-320 | the client parses the server's GTHR reply for every well-formed thread, any unwritten bytes and any client-side random base |
| Wire.ClientCopyAt | src/client/query.c:281-313 | the k-th message of the copy has the same text, an id moved by one constant, and the four-byte slot as its flag |
| Wire.ClientCopyShape | src/client/query.c:275-313 | the copy has the thread's id and topic and as many messages as its own counters announce |
| Wire.FlagTruth | src/server/query.c:110-111 | the client's flag is true if and only if the server's is, or a byte nobody wrote is not zero |
| Wire.CreateReplyRoundTrip | src/client/query.c:203-230 | the client recovers id and token from the CTHR reply, whatever the unfilled tail |
| Wire.FindReplyRoundTrip | src/client/query.c:322-379 | the client recovers the list of (id, topic) pairs in order; the reply is NFND if and only if the list is empty |
| Wire.HeaderConsumes | src/client/query.c:337-371 | each turn of the FTHR loop consumes at least the fixed part of a record, so the loop ends |
| Wire.MetaReplyRoundTrip | src/client/query.c:398-475 | the client reads 3, 64, 3 and 512, the number of threads and the version from the META reply |
| Api.Commands | src/server/query.c:15-22 | the command words |
| Api.RequestTags | docs/dev/api.md:55-270 | the words that tag the fields of requests |
| Api.ReplyTags | docs/dev/api.md:66-90 | the words that tag the fields of the GTHR reply |
| Api.MetaTags | docs/dev/api.md:234-242 | the words that tag the bounds in the META reply |
| Api.MetaCountTags | docs/dev/api.md:242-248 | the words that tag the number of threads and the version |
| Api.StatusWords | src/lib/status.c:5-14 | the word of each status |
| Api.StatusTextsDiffer | src/lib/status.c:5-14 | different statuses have different words |
| Api.UnderstandsExactly | src/server/query.c:478-502 | a packet is read as GTHR, CTHR, FTHR, CMSG, META, LIVE, as out of bounds or as undefined if and only if it has that documented form, with 3..64 and 3..512 for the bounds |
| Api.RestIsSyntaxError | src/server/query.c:496-499 | a packet is a syntax error if and only if it has no documented form |
| ApiReplies.ListingRoundTrip | docs/dev/api.md:66-90 | the GTHR reply lists id, topic and all messages with their ids on the server, texts and flags, in order |
| ApiReplies.DocumentedSlotReadsOnlyEmpty | docs/dev/api.md:78 | a reader of one-byte flags reads a history as it is if and only if it is empty |
| ApiReplies.CreateReplyLayout | src/server/query.c:182-195 | the CTHR reply is the documented 40 bytes and two more |
| Eager.TouchCompletes | src/server/server.c:130-133 | looking a thread up makes it whole from log and author file; nothing is lost or doubled |
| Eager.SimLookup | src/server/server.c:114-136 | a lookup finds the forum's thread, whole, and keeps the simulation |
| Eager.SimCreate | src/server/query.c:176-180 | CTHR gives the eager forum's reply and keeps the simulation |
| Eager.SimPost | src/server/query.c:337-389 | CMSG gives the eager forum's reply on every path and keeps the simulation |
| Eager.SimInfoWriter | src/server/server.c:50-63 | a turn of the info writer keeps the simulation, though it saves the thread as it is by then |
| Eager.SimAuthorWriter | src/server/server.c:90-103 | a turn of the author writer keeps the simulation |
| Eager.SimMessageWriter | src/server/server.c:80-88 | moving the first queued message to its log keeps "log, then queued, is the history" for every thread |
| Runs.SimRestart | src/server/server.c:233-303 | a restart with drained queues simulates the same forum, in directory order, topics cut |
| Runs.RestartKeepsThread | src/server/server.c:267-294 | every thread is there after such a restart, unchanged if and only if its topic has at most 64 bytes |
| Runs.RestartAddsNothing | src/server/server.c:267-294 | every thread after such a restart was there before, and there are equally many |
| Runs.DrainingDrains | src/server/server.c:50-103 | running the writers until their queues are empty ends with empty queues and the same forum |
| Runs.CrashSparesExactlyTheSaved | src/server/server.c:233-303 | a thread comes back whole after a crash, whatever a short load leaves in memory, if and only if both its files are there, the stored counter is current and none of its messages is queued |
| Runs.SavedThreadSurvivesCrash | src/server/server.c:157-183 | a thread in no save queue survives a crash at any moment |
| Runs.LostAuthorTrustsEveryToken | src/lib/forum.c:157-161 | after a crash between the info and the author save, every token yields the flag 2^32 - 7 and passes as the author's |
| Witnesses.EveryTokenCanPass | src/lib/forum.c:157-161 | for every topic a run from the first start ends with the info file there and the author file missing, and after a crash every token passes |
| Witnesses.AcceptedThreadCanBeLost | src/server/server.c:305-328 | a run after whose stop, orderly or not, an accepted thread is gone |
| Witnesses.AcceptedTopicCanBeCut | src/server/query.c:163-174 | a packet that declares 3..64 bytes and brings more is accepted whole, and a drained restart cuts the topic |
| Witnesses.MessageCanDieTwice | src/server/server.c:314-323 | a run that ends with a message both in its thread and in the message queue, to be destructed twice |
| Witnesses.IdsGoOnAfterACrash | src/server/server.c:335-345 | create, crash, create: the run gives out the ids 0 and 1 |
| Runs.LogIsPrefix | src/server/server.c:80-88 | in every simulated state the log holds the first messages of the history and the message queue the rest, in order |
| Runs.LogIsAlwaysPrefix | src/server/server.c:171-176 | the same after every run from the first start |
| Runs.ServerRefinesEagerForum | src/server/query.c:478-502 | for every run the replies are those of the eager forum, and the simulation holds at the end |
| Runs.RunsFromTheFirstStart | src/server/server.c:233-303 | the same from an empty directory |
| Runs.IdsNeverReused | src/server/server.c:335-345 | over every run with crashes anywhere, created ids strictly increase above every id in memory, queued or on disk |
| Runs.IdsFromTheFirstStart | src/server/server.c:335-345 | the same from the empty directory |
| Buffers.Put | src/server/query.c:75-76 | a write at the pointer advances it by its size and touches nothing else |
| Buffers.Grow | src/server/query.c:101-105 | the doubling loop ends with room for the record and keeps what was written |
| ServerReplies.BuildGetReply | src/server/query.c:64-136 | the GTHR builder never writes past its buffer and leaves exactly the grammar's reply, of exactly the returned size |
| ServerReplies.BuildFindReply | src/server/query.c:253-310 | the FTHR builder leaves exactly the grammar's reply, NFND included |
| ServerReplies.BuildCreateReply | src/server/query.c:182-205 | the CTHR builder declares 42 bytes and fills 40; the last two are whatever was there |
| ServerReplies.BuildMetaReply | src/server/query.c:404-467 | the META builder fills 111 of its 128 bytes with exactly the grammar's reply |
| ServerReplies.PutFlag | src/server/query.c:110-111 | one of the four bytes of the flag slot is written, the other three and all that follows stay |
| Server.LeServer.constructor | src/server/server.c:233-303 | startup: the object's state is the loaded directories, in listing order, and the stored counter |
| Server.LeServer.LethreadGetById | src/server/server.c:114-136 | returns the first thread with the id, completed from its files in place, with one more handle on it; or null and none |
| Server.LeServer.NextLethreadId | src/server/server.c:335-345 | returns the counter with its successor already on disk |
| Server.LeServer.SLethreadCreate | src/server/server.c:185-201 | one new thread at the end of the registry under a fresh id: its handle made and pushed, and another one returned |
| Server.LeServer.CmdLethreadGet | src/server/query.c:24-137 | GTHR on every path: new state and reply are those of the state machine, and the handle taken is given back |
| Server.LeServer.CmdLethreadCreate | src/server/query.c:139-205 | CTHR on every path, with the two handles queued and the third given back |
| Server.LeServer.CmdLethreadFind | src/server/query.c:207-310 | FTHR on every path, with one handle taken and given back for each thread found |
| Server.LeServer.CmdLemessageCreate | src/server/query.c:312-402 | CMSG on every path, the lookup before the remaining checks included; each of its error exits gives the handle back |
| Server.LeServer.LethreadFind | src/server/server.c:138-155 | exactly the threads whose topic contains the part, in registry order, with a handle on each |
| Server.LeServer.QueryProcess | src/server/query.c:478-502 | any packet at all: new state and reply are those of the state machine, and the operations on handles are those of `Ownership.Program` |
| Server.LeServer.InfoTurn | src/server/server.c:53-60 | pop one thread, save it as it is now, delete the popped handle |
| Server.LeServer.AuthorTurn | src/server/server.c:93-100 | pop one thread, save its author, delete the popped handle |
| Server.LeServer.MessageTurn | src/server/server.c:82-84 | pop one message and append it to the log of its thread |
| Server.LeServer.LethreadQueryManage | src/server/server.c:50-63 | the writer's inner loop drains its queue with the effect of that many turns, and deletes each popped handle |
| Server.LeServer.LeauthorQueryManage | src/server/server.c:90-103 | the same for authors |
| Server.LeServer.LemessageQueryManage | src/server/server.c:80-88 | the same for messages, in queue order |
| Server.LoadThreads | src/server/server.c:267-294 | the directory walk builds exactly the loadable threads, in listing order |
| ClientQuery.GenerateGet | src/client/query.c:67-89 | the GTHR packet, byte for byte |
| ClientQuery.GenerateCreate | src/client/query.c:37-65 | the CTHR packet for any topic buffer and size, padded as `strncpy` pads |
| ClientQuery.GenerateFind | src/client/query.c:91-119 | the FTHR packet, likewise |
| ClientQuery.GeneratePost | src/client/query.c:121-165 | the CMSG packet with and without a token |
| ClientQuery.GenerateMeta | src/client/query.c:167-183 | the META packet |
| ClientQuery.ParseStatusReply | src/client/query.c:381-396 | OK if and only if the reply starts with the two bytes of OK |
| ClientQuery.ParseMetaReply | src/client/query.c:398-475 | the parser is the grammar's reader, errors included |
| ClientQuery.ParseCreateReply | src/client/query.c:203-230 | the parser is the grammar's reader, errors included |
| ClientQuery.ParseGetReply | src/client/query.c:232-320 | the parser that mutates a thread message by message is the grammar's reader; it yields no thread on any error |
| ClientQuery.ParseFindReply | src/client/query.c:322-379 | the record loop is the grammar's reader |
| EndToEnd.GetEndToEnd | src/client/query.c:232-320 | GTHR: the client reads a faithful copy if and only if the thread exists, whether or not it was loaded before |
| EndToEnd.GetListing | src/server/query.c:64-136 | GTHR read by the documented layout: every message with its own id |
| EndToEnd.CreateAccepted | src/server/query.c:176-205 | CTHR of 3..64 bytes: one new empty thread with the client's topic and an unused id, and the client reads that id and that thread's token of 24 bytes |
| EndToEnd.CreateRefused | src/server/query.c:163-166 | CTHR outside 3..64 changes nothing, is answered IDAT, and the client reads no thread |
| EndToEnd.MatchesExactly | src/server/server.c:138-155 | the search result is exactly the threads in whose topic the part occurs, by increasing position |
| EndToEnd.FindEndToEnd | src/client/query.c:322-379 | FTHR: the client reads exactly those (id, topic) pairs in order; NFND if and only if there are none; nothing changes |
| EndToEnd.FindRefused | src/server/query.c:236-239 | FTHR outside 3..64 changes nothing, is answered IDAT, and the client reads no list |
| EndToEnd.AuthorFlagExactly | src/lib/forum.c:157-166 | a supplied token marks the author if and only if it is the author's token or the author is missing |
| EndToEnd.PostAccepted | src/server/query.c:312-402 | CMSG of 3..512 bytes: one message more, under the old next id, in that thread only, by the author if and only if the thread's token came along |
| EndToEnd.PostRefused | src/server/query.c:331-357 | CMSG to an unknown thread, or with a text outside 3..512, changes nothing a client can see and is answered NFND or IDAT |
| EndToEnd.BadBodyIsAnswered | src/server/query.c:331-370 | CMSG with a missing tag is answered ISYN and with a bad size IDAT, but NFND before either, and nothing changes |
| EndToEnd.PostEndToEnd | src/client/query.c:381-396 | the client's parser reads OK if and only if the thread exists and the text has 3..512 bytes |
| EndToEnd.MenuMisreadsEveryAnswer | src/client/client.c:757 | the parser that the menu uses takes no answer to CMSG |
| EndToEnd.MetaEndToEnd | src/client/client.c:156-175 | META: the client reads 3, 64, 3, 512, as many threads as the forum has, and the server's version |
| EndToEnd.AnnouncedBoundsAreEnforced | src/client/client.c:529-531 | a topic or text is taken if and only if it keeps to the bounds that META announced |
| EndToEnd.PlainAnswers | src/server/query.c:469-499 | LIVE is answered OK, sizes out of bounds IDAT, packets of no documented form ISYN, and nothing changes |
| EndToEnd.CleanPacketsExactly | src/server/query.c:207-385 | the packets that runs may hold: all but two kinds, on which C reads past the packet or a message is not made |
| EndToEnd.PostThenGet | src/server/query.c:387-389 | reading after posting gives the history that ends with the posted text |
| EndToEnd.GetAfterRestart | src/server/server.c:233-303 | after the writers drained and the server restarted, a client reads the same thread, topic cut to 64 bytes |
| EndToEnd.RunKeepsFlags | src/server/query.c:378-385 | in every run each stored author flag is plain true or false |
| EndToEnd.FlagsFromTheFirstStart | src/server/query.c:378-385 | in particular from the first start |
| LinkedQueue.ChainHasNoCycle | src/lib/queue.c:60-83 | a chain that ends in null visits no node twice |
| LinkedQueue.Queue.Push | src/lib/queue.c:60-83 | the datum goes to the end, also right after the pop that left `last` dangling; null is refused |
| LinkedQueue.Queue.Pop | src/lib/queue.c:85-112 | the first datum comes out and exactly its node is freed; after the last one `last` points to the freed node |
| LinkedQueue.Queue.Delete | src/lib/queue.c:30-58 | every remaining datum is destructed once, in order, and every node is freed |
| LinkedQueue.FirstInFirstOut | src/lib/queue.c:60-112 | over any mix: what the pops return, then what is left, is what was there, then what was pushed |
| LinkedQueue.RunAll | src/lib/queue.c:60-112 | the linked queue behaves as a sequence over any mix of pushes and pops from any valid state |
| ThreadObject.HeapThread.LethreadDelete | src/lib/forum.c:43-65 | the thread's own queue is deleted, and each of its messages destructed once, in order |
| SharedPointer.Create | src/lib/shared_ptr.c:9-30 | the first handle: its cell counts one; a null object or destructor is refused |
| SharedPointer.Add | src/lib/shared_ptr.c:32-45 | one more handle on the same object, and the cell counts exactly all of them |
| SharedPointer.Delete | src/lib/shared_ptr.c:47-67 | the thread dies, its messages with it, if and only if this was the last handle; otherwise the cell counts exactly the rest |
| Cleanup.DropQueue | src/lib/queue.c:30-58 | `queue_delete` on a save queue, node by node: all its nodes and handles go, and no thread that the registry keeps is destructed |
| Cleanup.DropRegistry | src/lib/queue.c:30-58 | `queue_delete` on the registry, alone left: every thread dies once, and the log grows by the messages of each in registry order |
| Cleanup.CleanUp | src/server/server.c:305-328 | with no handle elsewhere, every registered thread dies, and the message destructor calls are the queued messages, then those of each thread, whatever the save queues hold |
| Teardown.CountedIsShared | src/lib/shared_ptr.c:32-67 | counters that count the queued ids count exactly the handles in the heap queues |
| Teardown.IdleIsQueued | src/server/server.c:305-328 | when all agents are idle the counters are the ids in the four queues, and all of these are registered |
| Teardown.CleanUpAfterRun | src/server/server.c:305-328 | on any heap that a sound, idle world and a store describe, `cleanup` makes exactly the message destructor calls `Destructions`, in that order, and every thread dies |
| HeapWitness.QueuedMessageDiesTwice | src/server/server.c:314-323 | the heap at the end of the run `Witnesses.Posted`: the cleanup makes the calls `Destructions` of that run's store, which are two on its one message |
| MessageCleanup.DestructionCount | src/server/server.c:318-323 | a message is destructed once by its thread and once more for each time it is still queued |
| MessageCleanup.EachMessageOnceIffDrained | src/server/server.c:305-328 | every message in memory is destructed exactly once if and only if the message queue is empty |
| MessageCleanup.OnlyOwnedMessages | src/server/server.c:305-328 | nothing but messages of threads in memory is destructed |
| Ownership.ProgramsBalance | src/server/query.c:312-402 | every exit path of every handler adds only what it can reach and gives back or hands over all it takes |
| Ownership.ProgramsPushWhatHandlersQueue | src/server/server.c:157-201 | the handles a handler's path pushes are exactly those by which the state machine's registry and queues grow |
| Ownership.StepKeepsSound | src/lib/shared_ptr.c:32-67 | one queue operation or counter change of any agent keeps every counter equal to its handles and destroys no thread |
| Ownership.CountersCountHandles | src/server/server.c:114-201 | the same over every interleaving of any number of connections and writers |
| HandleRuns.RequestIsServed | src/server/query.c:24-402 | a connection that serves a request to its end is idle again, registry and queues are those the handler leaves, and the counters have grown by exactly the queued handles |
| HandleRuns.WriterTurnIsDone | src/server/server.c:53-60 | a writer's turn takes the first handle off its queue and one off its thread's count, and nothing else |
| HandleRuns.AgentAdvances | src/server/server.c:347-406 | among any moves of others, an agent that made n moves of its own has n operations less to do |
| HandleRuns.HeldWhileServed | src/server/server.c:114-136 | from its lookup to its exit a GTHR or CMSG handler holds a handle on the thread it works on |
| HandleRuns.FoundAreHeld | src/server/server.c:138-155 | FTHR takes one handle for each thread found and gives each back |
| HandleRuns.OneDeletionTooMany | src/lib/shared_ptr.c:47-67 | one unbalanced deletion destroys a thread that is still registered |
| Teardown.DeleteAsCounted | src/lib/shared_ptr.c:47-67 | heap and counting agree on a deletion: the id is recorded as destroyed if and only if the last handle went and the destructor ran |
| Ownership.StartupIsSound | src/server/server.c:267-294 | after startup each counter is its one handle, which the registry holds |
| Ownership.TurnsFollowPops | src/server/server.c:53-60 | a writer's trace until its queue is empty is its pops, each followed by the deletion it brings about |
| Ownership.IdleCounts | src/lib/shared_ptr.c:9-67 | when all agents have finished, each count is the registry's handle plus the queued ones |
| Communication.MovedExactly | src/lib/communication.c:12-49 | a loop moves what its leading positive answers add up to, capped at the size asked for |
| Communication.SSend | src/lib/communication.c:12-30 | a prefix goes out in order; less than all only if the last call returned zero or an error |
| Communication.SRecv | src/lib/communication.c:32-49 | a prefix of what arrived fills the front of the buffer, in order, and the rest of the buffer is untouched |
| Connection.IncomingFrame | src/server/server.c:361-376 | a whole size field and then bytes in any pieces: exactly one frame is taken off the wire |
| Connection.IncomingTooLarge | src/server/server.c:365-368 | a frame above the limit ends the connection before any of its bytes are read |
| Connection.OpenExactly | src/server/server.c:361-375 | after a whole size field the turn goes on if and only if the size is in 1..limit and a first byte of the body comes |
| Connection.IncomingCut | src/server/server.c:370-377 | a frame cut off after some bytes is handled as those bytes; before its first byte it ends the connection |
| Connection.IncomingNothing | src/server/server.c:372-375 | a client that is gone ends the connection |
| Connection.OutgoingFrame | src/server/server.c:381-395 | data in any pieces, size field and bare status whole: exactly one frame goes out |
| Connection.ReceivePacket | src/server/server.c:361-377 | size, limit 1048576 and bytes for any behaviour of the socket, and the NUL behind the packet; open if and only if there is a packet |
| Connection.HandleTurn | src/server/server.c:360-406 | one turn: close without touching the forum or sending, always when nothing is there; or handle exactly the received bytes and send that reply |
| Connection.NoReplyIsEmpty | src/server/query.c:24-502 | every reply on every branch of every handler has at least one byte |
| Connection.OneByteAtATimeFlows | src/lib/communication.c:12-49 | a socket that moves one byte a call after the size field is one of those that `Exchange` is about |
| Connection.Exchange | src/client/client.c:806-831 | one query on a quiet connection: for every cutting of the bytes in both directions the server handles exactly the query and the client gets exactly the reply |
| LockStep.MoveKeepsStep | src/client/client.c:806-867 | every move of client, handler or anyone else, probes included, keeps the two loops in step, with both sides connected |
| LockStep.GivesUpOnlyOnTornProbe | src/client/client.c:848-867 | the client disconnects if and only if the one `recv` of a probe brings part of the answer |
| LockStep.ResponsesMatchQueries | src/server/server.c:360-406 | in every interleaving at most one request is outstanding, each handled request got one non-empty frame, and the k-th response goes to the k-th query |
| LockStep.LinkRefinesEagerForum | src/server/server.c:360-406 | in every interleaving with clean events elsewhere, each packet of the connection is answered byte for byte as the eager forum that has seen every event so far |
| LockStep.ResponseIsTheThread | src/client/client.c:806-831 | the k-th response to a GTHR query is read as the thread asked for, as the eager forum was when the query was handled, if and only if it was there |
| LockStep.MovesBringTheResponseNearer | src/lib/communication.c:12-49 | every protocol move strictly decreases what is left to do until the response is complete |
| LockStep.SomeoneCanMove | src/client/client.c:806-831 | until the response is complete some side can move |
| LockStep.AnyQueryIsAnswered | src/client/client.c:806-867 | on a quiet connection every query of 1..1048576 bytes with a defined answer can be asked, handled and answered, LIVE probes included |
| LockStep.HeadAgreesWithTurn | src/server/server.c:361-376 | the handler hangs up on a size field exactly when a turn of `handle_client` ends the connection, outside 1..1048576 |
| LockStep.AnyCuttingIsSent | src/lib/communication.c:12-30 | a request can go out cut into any pieces, and arrives as it was |
| LockStep.AnyCuttingIsAnswered | src/lib/communication.c:12-30 | so can a reply |

## Left out

- Menus, prompts, argument parsing, server history and token files of the client: user interface. It holds message
  texts against the announced bounds of topics (`src/client/client.c:741`).
- Real sockets, `fopen`, `stat`, `readdir`, signals and thread start-up: replaced by pipes, a map of files and steps.
- Interleaving inside a handler or inside a writer's dequeue-and-save: each is one step of the state machine; only the
  handle and counter operations of `Ownership.dfy` and the byte transfers of `LockStep.dfy` interleave finely.
- A file write cut short by a crash: every save is one step.
- The writer for whole histories: nothing ever pushes to its queue, so only its place in `Ownership.dfy` and the save
  itself (`ForumIo.Disk.LemessagesSave`) are modelled.
- Packets on which C reads outside the packet or queues an uninitialised message (a CMSG text with a NUL among its
  first three bytes): the request reads as undefined, and runs that contain one are not claimed anything of.
- Info and author files shorter than their fixed part: read as absent (`docs/issues.md:3` says such loads crash).
- Allocation failure and null arguments other than to `queue_push`, `sharedptr_create`, `sharedptr_add` and
  `sharedptr_delete`.
- Counters that reach 2^64: runs are shorter than that (`Room`).
- How random ids and tokens are drawn: they are arbitrary values in the ranges the code gives.
- The errors that the LIVE branch's `send` and `recv` report: connections of `LockStep.dfy` stay up until the client
  gives up.
- The random message numbering of the threads that the FTHR reply parser builds: only their ids and topics are kept.
- Server.LeServer.QueryProcess: the object keeps thread ids in its save queues and no counters. Its ghost trace `ops`
  holds every operation on handles and is proved to be `Ownership.Program`; counters, cells and handles themselves are
  in `Ownership.dfy`, `SharedPtr.dfy` and `Cleanup.dfy`, joined by `Teardown.dfy`.
- Teardown.CleanUpAfterRun: says nothing of a `cleanup` that runs while a connection or a writer still holds a handle;
  a thread object there is its message queue only, without topic and author.
- Connection.Exchange: size fields, and status texts sent by a plain `send`, must be taken whole by the socket, because
  the code does not retry them; `Connection.HandleTurn` itself assumes nothing of the socket.
- LockStep.ResponsesMatchQueries: size fields and the answers to probes arrive whole, and queries have 1..1048576
  bytes, as the client's generators make them; a server restart ends the connection and is not a move.
- LockStep.SomeoneCanMove: assumes that the handler's answer to the packet is one that C defines.
