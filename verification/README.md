# A verified model of the sto profile store

sto samples the stacks of a running program, folds them on the client into a trie whose nodes are identified only by
chained hashes, posts the trie in batches to a server that merges it into three tables, and serves it back as a flame
graph. This project models that pipeline and proves that, as long as no batch has more than 16383 nodes or frames and no
two of its nodes or frames share an id, it is lossless: whatever the batches, the evictions from the id caches, the order
in which hash maps are walked, and the interleaving of the posts' transactions, the flame graph of an executable shows
every stack that the buffering thread hands on, as often as it was sampled, and nothing else. Of the messages received
that thread drops every 201st, and it keeps what has come since. Where a batch is larger, or ids do collide, the project
proves what still holds and exactly what is lost.

Run `dafny verify dfyconfig.toml` with Dafny 4.11.

## How it is built

| file | what it holds |
|---|---|
| Defs.dfy | the records that client and server exchange, machine integers, text as UTF-8 bytes |
| Ids.dfy, Hashing.dfy | content addressing: encodings, the hash as a parameter, when ids coincide and when nothing collides |
| Caches.dfy | the memoised id functions, as a class with evicting caches |
| Upserts.dfy | keyed tables with counters; the one upsert rule of hash maps and SQL statements; ledgers and sums |
| Paths.dfy | stacks as paths, chained path ids, what a tally of visits counts |
| Batches.dfy, Builder.dfy | the tables of a batch, and the loops that build them |
| Payloads.dfy | what a payload guarantees, batches add up, conservation |
| Receiver.dfy, Pipeline.dfy | the buffering thread, and the way from its messages to the answer |
| Store.dfy | the three transactions and the interleaving of posts, as functions on states |
| Protocol.dfy, Clients.dfy | what every interleaving keeps, for any posts and for clients' posts |
| Trie.dfy | flame graphs as tries: lookups, sums, reading the stacks back |
| Dag.dfy | the child map and build_dag, on any rows: that it ends, and which rows it shows |
| Readback.dfy | that build_dag rebuilds the trie from rows that store stacks |
| Present.dfy, Picture.dfy | names and the answer; what an answer says, read off it alone, of a graph, of stacks and of rows |
| EndToEnd.dfy, Lossless.dfy | from samples to stored rows to the flame graph |
| Counters.dfy | what the counters come to: frames, addresses, never zero |
| Independence.dfy, Outcomes.dfy | what depends on the order of transactions and on the batches, and what does not |
| Server.dfy | the server as a class: accepting, resuming posts, answering |
| Circles.dfy, Subtree.dfy, ForeignChildren.dfy | the SQL function subtree: when it ends, that it shows the graph, and when it does not |
| Regressions.dfy, Presences.dfy | the SQL function findRegressions, and what it computes in terms of the samples |

A hash is any function from bytes to 64-bit words. Collision-freedom is never an axiom: it is a hypothesis
(`Paths.CollisionFree`) about the nodes and frames that occur in the samples at hand; `Hashing.CollisionFreeExactly` says
what it asks of a hash. Integrity, conservation, closure,
commitment, the end of both recursions, and that a reader is answered with the rows of its first query hold with any
collisions.

Lemmas to which Dafny would add an induction hypothesis of its own carry `{:induction false}`: all inductions are written
out.

A post is modelled by how many of its three transactions it has committed, and whether the next one failed; a failed
transaction panics and ends the post. A schedule is any sequence of turns, so a post may also be abandoned at any point.
The reader's three queries may be separated by any turns of any posts.

### What turned out not to hold

- `executable.sample_count` is not always the number of sampled addresses. An insert without rows is no statement:
  `VALUES` is followed by nothing (src/bin/server.rs:84-95). So a batch whose addresses have no frames fails at its first
  transaction, and its addresses are lost. `Counters.AddressesCanBeLost` gives the smallest such batch and its payload,
  `Counters.FinallyCounted` says what the counter is instead, and `Counters.AddressesCountedExactly` says exactly when
  nothing is lost.
- A batch with more than 16383 nodes is not stored in full: `take` drops the rest silently (src/bin/server.rs:133). Each
  such post loses frames for ever (`Counters.TruncationLosesFrames`); in the end all frames are counted exactly if no post
  has more than 16383 nodes (`Counters.FramesCountedExactly`, which asks that no post has more frames than nodes unless
  they fit; `Counters.CollisionFreeFits` shows this without collisions), and `Counters.FramesCountedSoFar` says it of
  every reachable state of any clients' posts.
- Frames are hashed without separators, so different frames can have equal bytes under every hash:
  `Ids.FrameBytesAmbiguous`, and exactly when not in `Ids.FrameBytesFaithfulExactly`.
- The id of an executable leaves out the sampled event and does not separate name and version
  (`Ids.ProgramBytesAmbiguous`, and exactly when not in `Ids.ProgramBytesFaithfulExactly`). The row that comes first stays
  (`Independence.FirstStays`), so which event, version and name an executable shows may depend on the order of the posts.
  `Independence.OrderShowsExactly` says when: all complete interleavings end in the same executables exactly if no two
  different programs of batches with frames share an id. The counters never depend on the order
  (`Independence.CountersAgree`), nor do nodes and frames that do not collide (`Independence.NodesAndFramesAgree`). In
  general the final database does not depend on the order exactly if the posted rows that share an id agree on all that is
  not a counter (`Independence.OrderMattersExactly`).
- `subtree` does not always end. It ends exactly on the ids that are not on a circle of parent links
  (`Circles.SubtreeEndsExactly`), and in a reachable state on all ids exactly if every stored node is below a root
  (`Circles.SubtreeAlwaysEndsExactly`). The server checks that parents exist, not that they lead to a root: a post that no
  client sends can store a node that is its own parent (`Circles.StrangersMakeCircles`). Clients' posts never do this,
  even when ids collide (`Circles.SubtreeEnds`); and `build_dag`, which starts at roots, ends on any rows.
- With collisions `subtree` and `build_dag` can differ: if the roots of two executables share an id, the children of the
  later one hang below the row of the first, where only `subtree` finds them. Two posts of clients that do this are in
  `ForeignChildren.ForeignChildShowsInSubtreeOnly`.
- The final absolute value makes two ids equal also when one hash is the other's negation:
  `Ids.IdsCoincideExactly`. In a release build the least 64-bit integer is its own absolute value.
- The executable statement takes up to 16383 rows like the others, but has eight binds a row: it is refused from 8192
  rows on (`Store.StatementsFailExactly`). A client posts at most one row.

## Model

| member | source | states |
|---|---|---|
| Ids.IdsCoincideExactly | src/bin/cli.rs:192-193 | two ids are equal exactly when the 64-bit hashes are equal or negations of each other |
| Ids.IdValue | src/bin/cli.rs:192-193 | an id is its hash below 2^63, the distance to 2^64 above, and negative exactly where the hash is 2^63 |
| Ids.WordsRead | src/bin/cli.rs:204-209 | the bytes of a word, each in its place from the most significant on, stand for the number, or for what a negative one leaves to 2^64 or 2^32 |
| Ids.NodeBytesLayout | src/bin/cli.rs:204-209 | the words hashed for a node: its parent, if it has one, its data, its executable |
| Ids.NodeBytesInjective | src/bin/cli.rs:204-209 | the bytes hashed for a node determine the optional parent, the data and the executable, and are determined by them |
| Ids.NodeIdsClashExactly | src/bin/cli.rs:204-211 | different nodes share an id exactly when the hash itself clashes on their different encodings, directly or through the absolute value |
| Ids.FrameBytesAmbiguous | src/bin/cli.rs:224-233 | two concrete different frames that get one id under every hash |
| Ids.FrameBytesLayout | src/bin/cli.rs:224-231 | the bytes hashed for a frame: its symbol, its file, its line as a word |
| Ids.FrameBytesFaithfulExactly | src/bin/cli.rs:224-231 | frames with equal bytes are equal exactly when their symbols are equally long and both or neither have a line |
| Ids.ProgramBytesAmbiguous | src/bin/cli.rs:301-308 | a name with and a name without a version, and one name sampled on two events, whose id bytes are equal |
| Ids.ProgramBytesFaithfulExactly | src/bin/cli.rs:301-308 | programs with equal id bytes are equal exactly when their names are equally long, both or neither have a version, and they are sampled on one event |
| Ids.HashedIdsCoincideExactly | src/bin/cli.rs:186-240 | the ids that the caches return for two frames, nodes or programs are equal exactly when the hash clashes on their bytes, directly or through the absolute value |
| Hashing.CollisionFreeExactly | src/bin/cli.rs:186-240 | nothing collides among some stacks exactly when the hash does not clash on the different byte strings of their nodes and frames, and the bytes of their frames determine these |
| Caches.IdCaches.Interfere | src/bin/cli.rs:54-75 | any eviction, and any entries stored by other threads, keep every cache entry equal to the uncached id of its key |
| Caches.IdCaches.MiscId | src/bin/cli.rs:186-198 | through any evictions the memoised id is the uncached one: the id of the text's hash |
| Caches.IdCaches.IdStackNode | src/bin/cli.rs:200-218 | the memoised node id is the uncached one of parent, data and executable alone, the id of the hash of their bytes, though the cache key holds more; nothing but the id changes |
| Caches.IdCaches.IdData | src/bin/cli.rs:220-240 | the memoised frame id is the uncached one, the id of the hash of symbol, file and line; nothing but the id changes |
| Upserts.CollectEnumeration | src/defs.rs:118-134 | collecting the values of a map by their own ids, in whatever order, gives the map back |
| Upserts.Values | src/bin/cli.rs:369-373 | the values of a map are listed each once, in some order |
| Upserts.UpsertAllIsMerge | src/bin/server.rs:121 | upserting rows one by one into a table is merging their separate tally into it |
| Upserts.MergeSwaps | src/bin/server.rs:148 | two tables whose common rows agree outside the counters can be merged in either order |
| Upserts.LedgerPosts | src/bin/server.rs:79-152 | merging one more table has the same effect wherever it stands in the order of all tables |
| Paths.RootFirstOrder | src/bin/cli.rs:325-335 | later addresses stand nearer to the root, and the frames inlined at one address keep their order |
| Paths.RootFirstAt | src/bin/cli.rs:325-335 | frame j of an address stands behind all frames of later addresses and the j frames before it |
| Paths.PathIdInjective | src/bin/cli.rs:352-364 | without collisions among occurring nodes and frames, equal chained ids mean equal executables and equal whole paths; recursive calls never fold together |
| Paths.TallyCounts | src/bin/cli.rs:360-363 | collisions or not, a node's counter is the sum of the counters that arrived with its id |
| Paths.TallyIsTrie | src/bin/cli.rs:323-366 | the tally of the visits along stacks has a node exactly for each non-empty prefix of a stack, counting the stacks with that prefix |
| Builder.CountAddress | src/bin/cli.rs:327-333 | an address adds one sample and its raw size to its executable, creating it if need be |
| Builder.VisitFrame | src/bin/cli.rs:335-364 | one frame upserts its frame row and the node whose uncached id is chained from the parent; that node becomes the parent |
| Builder.ProcessStack | src/bin/cli.rs:335-365 | the frames inlined at one address extend the path in their own order |
| Builder.ProcessSample | src/bin/cli.rs:324-366 | after a sample the three maps are those of all rows visited so far, the sample taken from its root address to its leaf |
| Builder.ProcessAndSink | src/bin/cli.rs:291-379 | under any cache behaviour the payload enumerates, in any order, the tallies of all rows visited by the batch |
| Payloads.PayloadsClosed | src/bin/cli.rs:326-379 | collisions or not: payload rows have distinct ids, each node's parent, frame and executable are in the payload, frames carry the id of their content, and there is at most one executable |
| Payloads.SampleIsPosted | src/bin/cli.rs:323-366 | without collisions the payload holds a chain of nodes for each sample: each is the parent of the next, and frame j of address i is the one behind the frames of all later addresses and the j before it |
| Payloads.BatchesAddUp | src/bin/cli.rs:323-367 | the tables of two runs of samples, merged by the upsert rule, are the tables of the joined run |
| Payloads.PayloadConserves | src/bin/cli.rs:326-363 | collisions or not: node counters add up to the frames of the batch, and the executable's counter and raw size are the number and the raw sizes of the addresses, those without frames included |
| Receiver.BufferThread.Receive | src/bin/cli.rs:262-276 | each message brings the thread from the state after the messages before it to the state after all |
| Receiver.BufferAccounting | src/bin/cli.rs:257-276 | after n messages: n div 201 buffers handed off, the k-th with the 200 messages from 201k on; each message that found the buffer full is lost; the rest is still buffered |
| Pipeline.AnswersShowHandedOff | src/bin/cli.rs:257-276 | from messages to the answer: its names, values and children are a picture of exactly the stacks of the messages at positions below 201 (n div 201) that are not 200 modulo 201 |
| Store.BindArithmetic | src/bin/server.rs:84-146 | frame and node statements never exceed the bind limit and keep exactly the first 16383 rows; the executable statement fits exactly up to 8191 rows |
| Store.StatementsFailExactly | src/bin/server.rs:84-125 | the frame transaction fails exactly without rows; the executable transaction exactly without rows, with a repeated row, or with more than 8191 rows |
| Store.NodesFailExactly | src/bin/server.rs:128-152 | the node transaction fails exactly without rows, with a repeated row, or with a new row whose frame or executable is not stored, or whose parent is neither stored nor among the rows |
| Protocol.AlwaysIntegrity | migrations/20230305040305_init.up.sql:25-32 | in every reachable state, for any posts, each stored node's parent, frame and executable are stored |
| Protocol.AlwaysIndexed | migrations/20230305040305_init.up.sql:34 | in every reachable state, for any posts, no two stored frames have the same symbol, file and line, unless file or line is missing; and each frame that a post has committed is stored, or is refused for one with the same symbol, file and line |
| Protocol.RunsGrow | src/bin/server.rs:95-148 | later states keep every row: frames unchanged, nodes and executables unchanged but for their counters, so an executable keeps the event, version and name it came with |
| Protocol.AlwaysConserved | src/bin/server.rs:121-148 | in every reachable state, for any posts and any collisions, counters add up to those of the rows committed so far |
| Clients.InsertFramesIsUpsert | migrations/20230305040305_init.up.sql:34 | where ids are ids of contents, the unique index over symbol, file and line never drops a row that the primary key accepts |
| Clients.NodesCommit | src/bin/server.rs:128-152 | the node transaction of an untruncated client post commits, collisions or not |
| Clients.AlwaysHealthy | src/bin/server.rs:74-153 | in every interleaving what a client post has committed is there, and only a post without frames fails, at once |
| Clients.ProgressDecides | src/bin/server.rs:79-152 | given agreement outside the counters, the whole database depends only on how far each post has come |
| Clients.CanAlwaysFinish | src/bin/server.rs:74-153 | from any reachable state, whatever was posted, three turns for each post finish all of them |
| Clients.InterleavingsAgree | src/bin/server.rs:79-152 | every complete interleaving ends in the state of the posts carried out one after the other |
| Trie.TrieLookup | src/bin/server.rs:253-264 | a trie has a node at a path exactly when some stack starts with it, and the node's value is the number of those stacks |
| Trie.TrieSums | src/bin/server.rs:267-270 | sibling values add up to the number of non-empty stacks |
| Trie.TrieEnds | src/bin/server.rs:253-264 | at each node the value exceeds the children's sum by the number of stacks that end there |
| Trie.RoundTrip | src/bin/server.rs:220-267 | from a trie alone exactly the multiset of non-empty stacks is read back |
| Dag.InvertParents | src/bin/server.rs:213-217 | whatever the order of the rows, each row with a parent is listed once under it, and nothing else is |
| Dag.DepthBounded | src/bin/server.rs:258-267 | on any rows, circles included, a row below a root has one depth, and it is less than the number of rows; so the recursion from the roots ends |
| Dag.RootedRowsShownOnce | src/bin/server.rs:265-267 | on any rows, the trees from all roots show each row below a root exactly once, with its frame and count, and no other row |
| Dag.Rebuild | src/bin/server.rs:210-267 | the reader's thread, on any rows whose frames were fetched, ends with the trees that build_dag makes of all roots |
| Readback.TreeIsTrieNode | src/bin/server.rs:220-264 | the tree rebuilt from a row counts the stacks with the row's path as prefix and is, below, the trie of their rests |
| Readback.SiblingsAreTrie | src/bin/server.rs:258-267 | the trees rebuilt from all rows with one parent, or from all roots, are the trie of the stacks below it |
| Readback.EachRowOnce | src/bin/server.rs:265-267 | from rows that store stacks the trees from all roots contain each row exactly once, at its own path, and nothing else |
| Present.NamesReadBack | src/bin/server.rs:223-252 | the formatted name, with file and line, determines the symbol |
| Picture.BaseNameExactly | src/bin/server.rs:226-243 | the base name is the one part of the file name that has no slash and follows the last one |
| Picture.DecimalExactly | src/bin/server.rs:231-236 | the line is written with the one sequence of digits, without leading zeros, that reads back to it |
| Picture.NameExactly | src/bin/server.rs:223-252 | the name is the symbol, the base name where there is a file, and the line where there are both |
| Picture.PresentsAllExactly | src/bin/server.rs:253-264 | a list of answer nodes is made of a flame graph exactly if it shows it node by node: file, line and name of the frame, the value, and no list of children exactly where there are none |
| Picture.TriesAreDepicted | src/bin/server.rs:253-274 | the answer made of a trie of stacks is a picture of them: walked by file, line and symbol, a node exactly for each prefix of a stack, with the number of those stacks as its value and with children exactly where some stack goes on |
| Picture.PicturesReadBack | src/bin/server.rs:253-274 | an answer is a picture of only one multiset of non-empty stacks |
| Picture.RebuildsShowRows | src/bin/server.rs:220-274 | on any rows, the answer shows from the roots downwards exactly the rows with each parent, each once, with its frame and its count |
| Present.ShownAllReadsBack | src/bin/server.rs:253-264 | the answer determines the flame graph |
| Server.Server.Accept | src/bin/server.rs:73-78 | a new post joins with none of its transactions begun, and changes nothing for the others |
| Server.Server.StoreFrames | src/bin/server.rs:79-99 | the first transaction: inserts the rows that conflict with none, or fails and changes nothing |
| Server.Server.StoreExecutables | src/bin/server.rs:101-125 | the second transaction: adds the counters, or fails on too many binds, no rows or a repeated row and changes nothing |
| Server.Server.StoreNodes | src/bin/server.rs:128-152 | the third transaction: adds the counters, or fails on a dangling reference, no rows or a repeated row and changes nothing |
| Server.Server.Resume | src/bin/server.rs:74-153 | a turn of a post carries out its next transaction and leaves the server in the state after one more turn of the schedule |
| Server.Server.Dag | src/bin/server.rs:155-277 | for any posts and any turns between its queries: it ends, no lookup fails, there is an answer exactly when the executable is known at the last query, and it shows, node by node, the rows of the first; without collisions and truncation it is a picture of exactly the stacks committed by then |
| Independence.NodesAndFramesAgree | src/bin/server.rs:79-152 | without collisions among nodes and frames, all complete interleavings end in the same nodes and frames, whatever programs share an id |
| Independence.CountersAgree | src/bin/server.rs:101-125 | truncation and collisions or not, all complete interleavings end in the same executables with the same three counters |
| Independence.FirstStays | src/bin/server.rs:121 | the program whose post comes first is the one whose event, version and name its executable shows in the end |
| Independence.OrderShowsExactly | src/bin/server.rs:101-125 | truncation and collisions or not, all complete interleavings end in the same executables if and only if no two different programs of batches with frames share an id |
| Independence.OrderMattersExactly | src/bin/server.rs:79-152 | collisions or not, all complete interleavings of untruncated clients' posts end in one database if and only if posted rows that share an id agree on all that is not a counter |
| Independence.ProgramsDecideOrder | src/bin/server.rs:79-152 | so without collisions among nodes and frames if and only if no two different programs of batches with frames share an id |
| Outcomes.CutBatch | src/bin/cli.rs:257-276 | cutting a batch in two leaves the sampled stacks as they are |
| Outcomes.SamplesDecide | src/bin/server.rs:79-152 | without collisions, the same stacks in any order, cut into any batches and posted in any interleaving, end in the same nodes and frames |
| EndToEnd.StoredNodes | src/bin/server.rs:128-152 | in every reachable state the stored nodes are the tally of the visits of the committed stacks |
| EndToEnd.StoredFrames | src/bin/server.rs:79-99 | every frame of a post that has committed its frames is stored under its id, unaltered |
| EndToEnd.ReadersFindStacks | src/bin/server.rs:196-212 | selecting nodes in one reachable state and their frames in a later one finds exactly the stacks committed at the first |
| EndToEnd.FramesCanBeLookedUp | src/bin/server.rs:197-222 | for any posts, each selected node's frame is there at any later time |
| EndToEnd.AnswersDepict | src/bin/server.rs:196-275 | an answer made of the rows of a reachable state is a picture of exactly the stacks committed in it |
| Counters.AlwaysCounted | src/bin/cli.rs:326-363 | in every reachable state, collisions and truncation or not, an executable's counter and raw size are the number and the raw sizes of the addresses of the committed batches; and without truncation the node counters add up to their frames |
| Counters.FinallyCounted | src/bin/cli.rs:326-363 | with all posts finished every address is counted, with its raw size, of each batch that has a frame; and without truncation every frame |
| Counters.FramesCountedSoFar | src/bin/server.rs:128-148 | in every reachable state of clients' posts the node counters add up to at most the sampled frames, and to all of them exactly when each post with a frame has committed its nodes and has at most 16383 |
| Counters.TruncationLosesFrames | src/bin/server.rs:133 | a post with more than 16383 nodes makes them fall short under every schedule |
| Counters.FramesCountedExactly | src/bin/server.rs:84-133 | with all posts finished, and frames fitting, all frames are counted if and only if no post has more than 16383 nodes |
| Counters.CollisionFreeFits | src/bin/cli.rs:339-363 | without collisions no post has more frames than nodes, so frames fit |
| Counters.AddressesCountedExactly | src/bin/server.rs:84-99 | with all posts finished an executable's stored counter is the number of its sampled addresses exactly when no batch of it has addresses but no frame |
| Counters.AddressesCanBeLost | src/bin/server.rs:84-99 | a payload of a batch with one address and no frame: under every schedule it leaves the database empty |
| Lossless.FinishedGraphsAreLossless | src/bin/server.rs:210-275 | with all posts finished the flame graph has a node exactly at each prefix of a sampled stack, with its count, and gives back the multiset of non-empty samples |
| Lossless.FinishedAnswersAreLossless | src/bin/server.rs:253-274 | and the answer is a picture of all sampled stacks: names, values and children read off the answer itself |
| Circles.SubtreeEndsExactly | migrations/20230305040305_init.up.sql:98-117 | on any nodes, subtree ends on an id if and only if no parent steps lead from it back to it |
| Circles.SubtreeAlwaysEndsExactly | migrations/20230305040305_init.up.sql:98-117 | in every reachable state, for any posts, subtree ends on all ids if and only if every stored node is below a root |
| Circles.StoredNodesAreRooted | migrations/20230305040305_init.up.sql:25-32 | in every reachable state of clients' posts, with any collisions and truncation, every stored node is below a root |
| Circles.SubtreeEnds | migrations/20230305040305_init.up.sql:98-117 | so there the recursion of subtree ends, whatever it is called on |
| Circles.StrangersMakeCircles | migrations/20230305040305_init.up.sql:98-117 | a post that no client sends is stored and makes a node its own parent, and on that node subtree does not end |
| Circles.StoredNodesAreForest | migrations/20230305040305_init.up.sql:98-117 | without collisions, truncated or not, parent and child also share their executable |
| Subtree.SubtreeShowsReachableGraph | migrations/20230305040305_init.up.sql:98-117 | in every reachable state of clients' posts without collisions, truncated or not, subtree shows the graph of build_dag with its leaves cut off |
| ForeignChildren.ForeignChildShowsInSubtreeOnly | migrations/20230305040305_init.up.sql:98-117 | two clients' posts with colliding roots after which subtree shows a child that build_dag does not |
| Subtree.DistinctMergesLeavesOnly | migrations/20230305040305_init.up.sql:104-110 | DISTINCT keeps internal siblings apart, and null is a child exactly when some child is a leaf |
| Regressions.NeverDividesByZero | migrations/20230305040305_init.up.sql:73-82 | in every reachable state, truncation and collisions included, all counters are positive and so is each presence |
| Presences.PresencesSoFar | migrations/20230305040305_init.up.sql:73-82 | in every reachable state an executable has a group at a sampled frame exactly when the frame stands in one of its committed stacks, and its presence is how often it stands there, repeats included, by the addresses counted so far |
| Presences.PresencesCount | migrations/20230305040305_init.up.sql:73-82 | with all posts finished a presence is how often the frame stands in all sampled stacks, by the addresses of the batches with frames |
| Presences.GroupsAreSampled | migrations/20230305040305_init.up.sql:73-82 | no other frames have groups |
| Presences.ReportsExactly | migrations/20230305040305_init.up.sql:83-93 | a frame is reported of two versions exactly when both have it, the newer one more often for each address, they have one name, and both are young enough; and the change is that of these frequencies |
| Regressions.ReportsCompose | migrations/20230305040305_init.up.sql:83-93 | reports are positive, never go both ways, and compose multiplicatively along a chain of versions |
| Regressions.ReingestingChangesNothing | migrations/20230305040305_init.up.sql:73-82 | posting every batch k times, in any interleaving, leaves the groups and every presence as they were |
| Regressions.ReingestingKeepsReports | migrations/20230305040305_init.up.sql:73-93 | and so the reports and their changes, provided that programs of one id have one name |

## Left out

- The BPF program, ring buffer, perf events, symbolisation and demangling: samples are any stream of lists of frames.
- The trimming of paths and the narrowing of line numbers in src/bin/cli.rs:339-348: frames come normalised.
- Subtree.SubtreeShowsReachableGraph: is stated without collisions; ForeignChildren.ForeignChildShowsInSubtreeOnly shows
  that this is needed, but which collisions make a difference to the pruned graph is not characterised.
- EndToEnd.AnswersDepict: is stated for posts of clients without truncation and without collisions among what occurs;
  for all others Server.Server.Dag says which rows are shown, not which stacks they stand for.
- Clients.AlwaysHealthy: is stated for posts of at most 16383 frames and nodes; longer ones are covered by
  Clients.AlwaysUnderWay and by what Counters says of them.
- Independence.OrderMattersExactly: is stated for untruncated posts; which of the rows of longer ones arrive depends on
  the order in which hash maps are walked.
- The overflow of 64-bit counters: counters are unbounded integers.
- `processed_data_size` is an arbitrary number added by the client, and the raw size of an address is a given number.
- Timestamps: `created_at` is a given function in `Regressions.Reported`, `updated_at` and the search column are absent.
- The interleaving of statements inside a transaction, deadlocks between transactions, and lost connections: a
  transaction is one step, and a post that is never resumed stands for a lost one.
- The rounding of SQL numerics: presences are exact quotients.
- Hash maps and SQL results are walked in an arbitrary order; nothing is claimed about the order of siblings, nor about
  the order of the rows of findRegressions.
- The other routes, templates, JSON, migrations and logging.
