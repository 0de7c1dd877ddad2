# Agent coordination: message boards, registry and traversals

A Dafny model of the parts of the coding agent that coordinate many agents, with proofs
of what they promise.

- **Message boards.** Agents post to channels and threads of a shared board. `BoardRows`
  gives one board as rows of tables and every write as a transaction on them;
  `BoardRules` proves what all runs keep; `BoardQueries` reads the listings off the rows.
  `BoardPromises` and `ReadPromises` say what these transactions and queries do without
  their definitions, in terms of requests and stored posts alone; `BackendPromises`
  carries that to both backends.
  `InMemoryBoard` is the in-memory backend with its hand-maintained indexes and caches, a
  class proved to be those transactions and queries (`MemoryCaches`, `MemoryQueries`).
  `LocalBoards` is the SQLite backend, a class over the flat tables of all boards, proved
  to be the machine of `BoardStore` with tombstones and pinned templates.
  `BoardAgreement` drives both backends by the same calls: they hold the same board and
  answer alike, and a condition on the call says exactly when they do not.
  `PostProtocol` interleaves concurrent posts and upserts through their steps: check
  under the lock, release, ask the host, lock, check again, write. `ProtocolBackends`
  drives both backend classes by those steps: their boards follow the protocol.
- **Paging and budgets.** `Paging` has the cursor codec (section 5 of RFC 4648), page
  windows and slices of one post; `BoundedRead` the retry that halves limits.
- **Event stream.** `FrameScanner` validates UTF-8 (section 4 of RFC 3629, in `Utf8`) byte
  by byte and bounds the frames of an event stream (section 9.2.5 of the HTML Living
  Standard).
- **Tool responses.** `Delegation` is the wrapper printer and parser; `Response` is the
  compaction and truncation of a response as values, `ResponseObjects` the same in place
  on maps and lists held by reference, with the search for a truncation limit.
- **Agents.** `RegistryState` and `Registry` are the spawn registry as a value and as
  objects, with `Nicknames`; `RegistryPromises` writes out the effect of each call.
  `SpawnGraph`, `ThreadForest` and `Ancestry` are the traversals of the thread forest,
  `ForestAgreement` the listings on which two of them agree; `AgentPath` the path rules.

Conventions: a host callback is an argument of the call (`Host`): the caller's path, the
resolution of agents and the clock, each of which may fail. Times are nanoseconds and may
go backwards; orders use microseconds. Case folding is a parameter `fold`. New post ids
are assumed new to their board. Strings are sequences of characters.

Where the code does not do what one would expect of it, the contracts say exactly when:

- The two backends name different faults of one call iff it is a `CreateChannel` with a bad
  channel name and a bad description or failing host, or a `SearchPosts` with a bad cursor
  and a missing message.
- Nicknames are distinct iff no name of the pool is another name with an ordinal suffix.
- A request key joined of caller and request id names the pair iff no caller continues
  another one with the separator.
- The subtree fixpoint trims ids and parents, the walk up the records does not, and a later
  record without a parent hides an earlier one from the walk only. On trimmed listings the
  two agree iff no listed parent is hidden that way.
- Turn summaries list items newest first, while compaction keeps the last agent message
  listed: the oldest one. It is the latest iff the turn has at most one.

## Model

| member | source | states |
|---|---|---|
| BoardRules.RunKeeps | agentboard/inmemory.go:367-479 | After every run of create, upsert, post, append and subscription changes: post ids and (caller, request id) keys are unique, every reply has an earlier top-level root in its own channel, every post is in an existing channel, and subscriptions and opt-outs are disjoint |
| BoardRules.CommitKeeps | agentboard/local.go:556-618 | The writing transaction of a post keeps those rules, whatever the clock says |
| BoardRules.ApplyGrows | agentboard/inmemory.go:436-465 | No operation removes or changes a stored post, and a channel keeps its creation data; at most one post is added |
| BoardRules.CommitNotifies | agentboard/inmemory.go:419-428 | A committed discussion post is handed to exactly the named agents plus the subscribers of its destination minus the author; an append changes no subscription and notifies nobody; a retry or refusal changes nothing |
| BoardRules.CommitSubscribes | agentboard/local.go:604-609 | A discussion post subscribes its author to the thread, and to a channel it creates, unless opted out, and changes no other pair |
| BoardRules.OptOutStays | agentboard/local.go:1132-1141 | No operation but an explicit resubscription removes an opt-out or subscribes an opted-out agent |
| BoardRules.OptOutIsSticky | agentboard/inmemory.go:238-247 | An explicit unsubscribe survives every run without an explicit resubscription |
| BoardRules.ChangeTakesEffect | agentboard/local.go:714-735 | An explicit change puts the pair in exactly one of the two tables and leaves every other pair alone |
| BoardRules.UsedKey | agentboard/local.go:1184-1202 | A used key returns the stored metadata for the same request and behaviour, is refused for anything else, and changes nothing either way |
| BoardPromises.PostAnswers | agentboard/inmemory.go:367-418 | A post is stored iff its request fits the limits, the host knows caller, agents named and time, its key is unused and its destination exists; otherwise no row changes, and the answer is the first fault met or, for a repetition, the stored metadata |
| BoardPromises.PostDelivers | agentboard/inmemory.go:419-479 | The stored post has the id, author, time and text of the call; it starts a thread in the channel named or replies in the thread named, in the channel of its root; it is handed to exactly the agents that the named paths resolve to and the subscribers of that channel or thread, without the caller, and as an append to nobody |
| BoardPromises.CommitAnswers | agentboard/local.go:556-570 | The writing transaction stores the post iff the key is unused and the destination exists by then |
| BoardPromises.CommitDelivers | agentboard/local.go:571-618 | What the writing transaction stores is that post, handed to the agents resolved before and to the subscribers of that moment |
| BoardPromises.CreateAnswers | agentboard/local.go:386-425 | A channel is created iff its name and description fit, the host answers and the name is free; it has the data given and no posts, exactly the caller is subscribed if asked for and not opted out, and no other row changes |
| BoardPromises.UpsertAnswers | agentboard/inmemory.go:315-350 | After an upsert the channel has the description given, and nothing else of it if it was there before; no other channel and no other row changes; only a missing channel needs the clock |
| BoardPromises.SubscriptionAnswers | agentboard/local.go:661-746 | An explicit change puts the pair of target and resolved agent (the one named, else the caller) into one table and out of the other, leaves every other pair and row, and reports what it did; an error changes nothing |
| BoardPromises.NameFitsIff | agentboard/local.go:1319-1325 | Channel names have 1 to 128 bytes, no surrounding space and no control character |
| Common.TrimSpaceExact | agentboard/local.go:1321 | Trimming takes away space at both ends and nothing else |
| BackendPromises.PostBoth | agentboard/inmemory.go:367-479 | All that is said of a post above, on the in-memory board and on the database at once |
| BackendPromises.SearchBoth | agentboard/inmemory.go:793-860 | All that is said of a search below, on both backends, with the order in which each names two faults |
| BackendPromises.ConfigureAnswers | agentboard/configure_local_board.go:81-176 | A configuration succeeds iff the template fits and is the one pinned, or the board is unused; pinning creates exactly the channels of the template, by the root agent; nothing else changes in any case |
| BackendPromises.DeletedReports | agentboard/local.go:344-361 | A call that nothing else is wrong with gets the error of a deleted board |
| BackendPromises.RunStoreIndexes | agentboard/local.go:571-603 | After every run the search columns of every board hold the folded texts and names |
| PostProtocol.EveryInterleaving | agentboard/inmemory.go:315-445 | The invariant of concurrent calls (sound rows, every success reports a stored post of its own key and payload, writers differ, upserts hold what they validated) holds after every interleaving of the steps of posts and upserts with each other and with all other operations |
| PostProtocol.AtMostOnePost | agentboard/inmemory.go:401-408 | In every interleaving at most one post exists per caller and request id |
| PostProtocol.SameAnswer | agentboard/inmemory.go:186-197 | In every interleaving all successful calls with one key asked for the same thing and return the same metadata; at most one of them stored the post and only that one hands recipients to notification |
| PostProtocol.RefusedForAReason | agentboard/inmemory.go:191-194 | A call is refused for a reused key only where a stored post with that key has another request or behaviour |
| PostProtocol.UsedKeySteps | agentboard/inmemory.go:376-384 | Both locked checks answer a used key alike: stored metadata for a repetition, refusal for anything else, no row changed |
| PostProtocol.ReplyNames | agentboard/inmemory.go:385-400 | Between its locked sections a post goes on iff the host knows the time and all agents named, with exactly their ids |
| PostProtocol.CommitStepDelivers | agentboard/inmemory.go:401-445 | Whatever ran before, the commit stores the post iff its key is unused and its destination exists by then; it is the post asked for, handed to the agents resolved before and the subscribers of that moment, without the caller |
| PostProtocol.FailuresChangeNothing | agentboard/inmemory.go:402-418 | A step that ends a call without storing its post changes no row, and a finished call never changes again |
| PostProtocol.Uninterrupted | agentboard/inmemory.go:367-479 | A call whose steps run without interruption has the rows and the outcome of the whole transaction at once |
| PostProtocol.CommitReports | agentboard/inmemory.go:429-445 | What a commit reports is a stored post with the caller, request and behaviour of the call; an error leaves the rows as they were |
| PostProtocol.UpsertAtOnce | agentboard/inmemory.go:326-349 | Whatever runs between the steps of an upsert, the locked section that ends it is the whole upsert on the board of that moment, and succeeds, also when the channel appeared while the clock was asked |
| PostProtocol.UpsertWaits | agentboard/inmemory.go:335-340 | No other step of an upsert changes the board |
| PostProtocol.UpsertUninterrupted | agentboard/inmemory.go:315-350 | An upsert whose steps run without interruption is the whole operation |
| ProtocolBackends.StepMemory | agentboard/inmemory.go:315-479 | One step of any call, run on the in-memory board, takes board and calls from one state of the protocol to the next |
| ProtocolBackends.RunMemory | agentboard/inmemory.go:315-479 | After any interleaving of steps a new in-memory board and its calls are in the state that the protocol reaches |
| ProtocolBackends.StepStore | agentboard/local.go:430-618 | One step of any call, run on the flat tables, takes board and calls from one state of the protocol to the next |
| ProtocolBackends.RunOnStore | agentboard/local.go:430-618 | After any interleaving of steps a board in a new database and its calls are in the state that the protocol reaches |
| BoardTypes.RequestKeyIsPair | agentboard/inmemory.go:199-201 | Joined request keys name the pair of caller and request id wherever no caller contains the separator |
| BoardTypes.SharesKeyIff | agentboard/local.go:526 | Two callers have requests with one joined key between them iff one of them starts with the other followed by the separator |
| BoardTypes.KeysNamePairsIff | agentboard/local.go:526 | For a set of callers joined keys name the pair iff none of them starts with one of them followed by the separator |
| BoardTypes.RequestKeyCollides | agentboard/local.go:526 | With the separator inside a caller two pairs have one joined key |
| BoardTypes.ResolveAgents | agentboard/inmemory.go:386-395 | The loop over the agents to notify collects exactly the ids that the named paths resolve to, or fails iff one of them does not resolve |
| BoardTypes.Preview | agentboard/inmemory.go:551-563 | A preview is the first characters of the text, as many as the limit or all of them, with the length of the text and whether anything is missing |
| BoardQueries.SelectExact | agentboard/local.go:980-1000 | A selection holds exactly the positions of the rows its filter picks, in sequence order |
| BoardQueries.LatestIsMaximum | agentboard/local.go:1229 | The newest row of a selection is its maximum in (timestamp, sequence number), and exists iff the selection is not empty, for clocks that go backwards |
| BoardQueries.ThreadLatest | agentboard/local.go:703 | The newest row of a thread is the newer of its root and its newest reply |
| BoardQueries.ReplyAfterRoot | agentboard/inmemory.go:456-465 | A reply comes after the root of its thread, in the same channel |
| BoardQueries.ListingsExact | agentboard/local.go:886-897 | Thread and reply listings hold exactly the rows selected, strictly ordered by timestamp and sequence number in the direction asked for |
| BoardQueries.MatchingExact | agentboard/local.go:980-997 | A search selects exactly the rows that match it, each once, in sequence order |
| BoardQueries.RowOrderByPosition | agentboard/inmemory.go:182-184 | Ordering rows by (timestamp, sequence number) is ordering them by (timestamp, log index) |
| BoardQueries.ChannelListingUnique | agentboard/local.go:795-799 | Activity, then name, orders the channels strictly, so a channel listing is determined by the rows and the query |
| BoardQueries.ChannelPageUnique | agentboard/local.go:782-830 | A channel query has one answer |
| ReadPromises.SearchAnswers | agentboard/local.go:959-1014 | A search answers with a page of the listing of exactly the posts that have the channel and author asked for, contain the folded query in their folded text and are newer than the message given, from the newest to the oldest, each with its metadata and its first characters |
| ReadPromises.ThreadListAnswers | agentboard/local.go:871-957 | A thread query answers with a page of exactly the top-level posts of the channel, ordered by their time or the time of the newest post of the thread; each with the number of its replies, its newest reply, and the later of the two times |
| ReadPromises.ThreadReadAnswers | agentboard/local.go:1016-1051 | A thread is read with its first post and a page of exactly its replies, from the newest to the oldest |
| ReadPromises.PostReadAnswers | agentboard/local.go:749-780 | A post is read with its own metadata and text |
| ReadPromises.ChannelListAnswers | agentboard/local.go:782-830 | A channel query answers with a page of exactly the channels whose folded name contains the folded query, ordered by the time of their newest post or of their creation, then by name; each with its creation data, post count and newest message |
| ReadPromises.SubscriptionReports | agentboard/local.go:690-713 | A subscription change reports the newest message of its channel or thread |
| ReadPromises.FilterMeans | agentboard/local.go:1204-1235 | Counting and taking the newest of the rows that a filter picks are what they say: the size of the set of such posts, and the one that every other is older than |
| Sorting.LexLessIff | agentboard/inmemory.go:697-703 | Names are compared at the first character where they differ |
| MemoryCaches.AppendGood | agentboard/inmemory.go:436-465 | Appending a post keeps every index and cache equal to its recomputation from the log: id map, request map, channel posts, roots, count and last message, replies and latest reply of the root |
| MemoryCaches.NewerThan | agentboard/inmemory.go:481-492 | `keyGreater` decides by microsecond time, ties going to the newer post |
| MemoryCaches.ThreadLastIsLatest | agentboard/inmemory.go:598-607 | The cached latest reply gives the newest message of a thread |
| MemoryCaches.NoThreadYet | agentboard/inmemory.go:436-445 | No stored post refers to an id that is still new, so a new entry starts without replies |
| MemoryCaches.JoinGood | agentboard/inmemory.go:238-247 | The implicit subscription of the tri-state map is the guarded insertion into the subscription table |
| MemoryCaches.ChangeGood | agentboard/inmemory.go:611-616 | The explicit change of the tri-state map is the move between the two tables |
| MemoryCaches.InsertGood | agentboard/inmemory.go:218-236 | A new channel starts with the caches of an empty channel |
| MemoryCaches.DescribeGood | agentboard/inmemory.go:328-333 | Replacing a description keeps posts, authorship, creation time and caches |
| InMemoryBoard.MemoryBoard.PostInner | agentboard/inmemory.go:367-479 | A post or append without concurrent calls is the row-table transaction: same new board, same outcome |
| InMemoryBoard.MemoryBoard.CommitPost | agentboard/inmemory.go:401-478 | The second locked section is the row-table transaction: same new board, same metadata, same recipients, same error |
| InMemoryBoard.MemoryBoard.ExistingPost | agentboard/inmemory.go:186-197 | The request map answers as the query on the request column |
| InMemoryBoard.MemoryBoard.ResolveDestination | agentboard/inmemory.go:494-519 | Destinations resolve to channel, root and target as in the row tables, creating and subscribing to a new channel; an error changes nothing |
| InMemoryBoard.MemoryBoard.CreateChannel | agentboard/inmemory.go:287-310 | Creation is the row-table transaction: same new board; the outcome is the same iff the call has not two faults, and of two the one named first is fixed |
| InMemoryBoard.MemoryBoard.DescribePresent | agentboard/inmemory.go:326-334 | The first locked section of an upsert replaces the description of a channel that exists and otherwise changes nothing |
| InMemoryBoard.MemoryBoard.UpsertAgain | agentboard/inmemory.go:341-349 | The second one rechecks: the description is replaced if the channel exists by now, else the channel is created; it cannot fail |
| InMemoryBoard.MemoryBoard.UpsertChannel | agentboard/inmemory.go:315-350 | Both sections with the clock call in between and nothing else: creation or replacement of the description only, as in the row tables |
| InMemoryBoard.MemoryBoard.SetSubscription | agentboard/inmemory.go:566-624 | An explicit change is the row-table transaction, with the same reported channel, thread and last message |
| InMemoryBoard.MemoryBoard.ListChannels | agentboard/inmemory.go:666-714 | The answer is the one page of channel summaries that the query defines |
| InMemoryBoard.MemoryBoard.ListThreads | agentboard/inmemory.go:717-783 | The answer is that of the query over the rows: same threads, order, counts, activity and previews |
| InMemoryBoard.MemoryBoard.SearchPosts | agentboard/inmemory.go:793-860 | The answer is that of the query over the rows; a missing message to start after is reported before a bad cursor |
| InMemoryBoard.MemoryBoard.ReadThread | agentboard/inmemory.go:870-904 | The answer is that of the query over the rows |
| InMemoryBoard.MemoryBoard.ReadPost | agentboard/inmemory.go:627-662 | The answer is the clamped slice of the stored text |
| InMemoryBoard.Filtered | agentboard/inmemory.go:824-841 | The filter loop keeps, in order, exactly the candidates that pass the search conditions |
| InMemoryBoard.SummarizeThreads | agentboard/inmemory.go:761-781 | Thread summaries are computed from the cached replies and latest reply |
| MemoryQueries.RootsSorted | agentboard/inmemory.go:728-755 | Sorting the cached roots by the cached activity, then reversing for newest first, gives the thread listing of the query |
| MemoryQueries.NamesSorted | agentboard/inmemory.go:677-704 | Sorting the matching channels by cached activity and name gives the channel listing of the query |
| MemoryQueries.FilteredIsMatching | agentboard/inmemory.go:814-841 | The posts kept by the search loop are the rows the search query selects |
| MemoryQueries.KeepsMatches | agentboard/inmemory.go:825-840 | The test of one post agrees with the conditions of the query |
| MemoryQueries.ThreadsFromAgrees | agentboard/inmemory.go:756-782 | Cutting the page and summarising from the caches gives the answer of the query |
| BoardStore.RunKeepsStore | agentboard/local.go:344-361 | After every sequence of writes, deletions and configurations every board is sound, a tombstoned board has no row in any table, and a pinned template has all its channels |
| BoardStore.DeletedForever | agentboard/local.go:316-331 | A tombstoned board stays tombstoned and never again has a row or a template, over all later transactions |
| BoardStore.DeletedRefuses | agentboard/local.go:349-359 | Creating, upserting, posting and subscribing on a tombstoned board are errors that leave every table as it was |
| BoardStore.DeletedUnconfigurable | agentboard/configure_local_board.go:121-130 | Configuring a tombstoned board is an error that leaves every table as it was |
| BoardStore.DeletionTombstones | agentboard/local.go:257-337 | A deletion tombstones exactly the boards named, and none if the database does not exist; tombstoned boards have no rows and no template; other boards keep their rows and templates |
| BoardStore.WriteStep | agentboard/local.go:344-361 | A write changes the rows of its own board alone, and only while the board has no tombstone |
| BoardStore.PinnedStays | agentboard/configure_local_board.go:131-139 | A pinned template never changes before deletion, and all its channels remain present |
| BoardStore.PinnedWhenUnused | agentboard/configure_local_board.go:142-168 | Every pinned template was pinned by a transaction that found no channel on the board and created exactly its channels |
| BoardStore.ConfiguredAgain | agentboard/configure_local_board.go:131-139 | Any time before deletion, configuring the pinned template again succeeds and changes nothing, and any other template is refused |
| BoardStore.TemplateStep | agentboard/configure_local_board.go:121-169 | One transaction can change the template of a board only by deleting the board or by pinning on an unused one |
| LocalBoards.LocalStore.PostInner | agentboard/local.go:518-618 | Without concurrent calls a post or append on the flat tables is the transaction of its board, refused on a tombstone; all other boards keep their rows |
| LocalBoards.LocalStore.ExistingPost | agentboard/local.go:537-541 | The query before the host is asked answers as the request column of this board |
| LocalBoards.LocalStore.CommitPost | agentboard/local.go:556-618 | The writing transaction alone, on whatever the tables hold by then, is the commit on the rows of this board, refused on a tombstone |
| LocalBoards.LocalStore.WritePost | agentboard/local.go:556-618 | Between begin and commit the statements write exactly the rows of the post transaction, of this board only, numbered by the database |
| LocalBoards.LocalStore.ResolveDestination | agentboard/local.go:620-658 | Destinations resolve on the tables of this board only |
| LocalBoards.LocalStore.InsertChannel | agentboard/local.go:1111-1130 | The insertion happens iff the board has no channel of that name, and changes this board only |
| LocalBoards.LocalStore.Subscribe | agentboard/local.go:1132-1141 | The guarded insertion respects opt-outs and changes this board only |
| LocalBoards.LocalStore.CreateChannel | agentboard/local.go:386-425 | Creation as one transaction, refused on a tombstone |
| LocalBoards.LocalStore.UpsertChannel | agentboard/local.go:430-482 | Without concurrent calls an upsert is the transaction of its board, refused on a tombstone |
| LocalBoards.LocalStore.UpdateDescription | agentboard/local.go:448-457 | The UPDATE statement hits iff the board has the channel, and changes its description only |
| LocalBoards.LocalStore.InsertOrUpdate | agentboard/local.go:473-480 | The INSERT with its conflict clause creates the channel, or replaces the description of one created in the meantime |
| LocalBoards.LocalStore.UpdateChannel | agentboard/local.go:444-461 | The first transaction of an upsert keeps the tables sound and is refused on a tombstone |
| LocalBoards.LocalStore.InsertChannelAgain | agentboard/local.go:468-481 | The second one too, also when the board was deleted while the clock was asked |
| LocalBoards.LocalStore.SetSubscription | agentboard/local.go:661-746 | Explicit change as one transaction, refused on a tombstone |
| LocalBoards.LocalStore.DeleteBoards | agentboard/local.go:257-337 | The deletion statements over all tables are the deletion of the boards named |
| LocalBoards.LocalStore.Configure | agentboard/configure_local_board.go:81-176 | Configuration pins, accepts a retry or refuses, and its channel insertions cannot fail half-way |
| LocalBoards.LocalStore.ListThreads | agentboard/local.go:871-957 | The local read answers as the query over the rows of its board |
| LocalBoards.LocalStore.SearchPosts | agentboard/local.go:959-1014 | The local search answers as the query over the rows of its board |
| LocalBoards.LocalStore.ReadThread | agentboard/local.go:1016-1051 | The local thread read answers as the query over the rows of its board |
| LocalBoards.LocalStore.ListChannels | agentboard/local.go:782-830 | The local channel listing is the one page the query defines |
| LocalBoards.LocalStore.ReadPost | agentboard/local.go:749-780 | The local read of a post is the clamped slice of the stored text |
| LocalBoards.QueryThreads | agentboard/local.go:882-956 | Fetching one row more than the limit, previewing all fetched rows and then cutting gives the page of the listing |
| LocalBoards.QueryPosts | agentboard/local.go:963-1013 | The same for searches, with cursor errors reported before a missing message |
| LocalBoards.QueryThread | agentboard/local.go:1017-1050 | The same for the replies of a thread |
| LocalBoards.QueryChannels | agentboard/local.go:786-829 | The same for channels, in a strict order of activity and name |
| LocalBoards.FinishMapped | agentboard/local.go:1352-1367 | Computing results before the page is cut is cutting the page first |
| LocalBoards.SortedNames | agentboard/configure_local_board.go:203-210 | The channel names of a template, each once |
| BoardAgreement.RunBoth | agentboard/local.go:386-746 | Driven by any run of calls, with any transactions on other boards in between, both backends hold the same board; their reports are the same iff no call of the run on this board has two faults |
| BoardAgreement.ReadBoth | agentboard/inmemory.go:666-904 | After any such run both backends answer every list, thread and post read alike; their search answers are the same iff the search is not one with two faults |
| BoardAgreement.ApplyBoth | agentboard/inmemory.go:287-479 | One call on both backends: same new board; the reports are the same iff the call has not two faults, and where they differ both are errors |
| BoardAgreement.BackendsDiffer | agentboard/inmemory.go:287-296 | A call and a search, on an empty board, that get different answers from the two backends |
| Paging.CursorRoundTrip | agentboard/inmemory.go:936-953 | Encoding and decoding are inverse for every offset below 2^32 |
| Paging.ReadingIsExact | agentboard/local.go:1338-1367 | Following cursors from the start with any limits reads the ordered list exactly once, with nothing skipped or repeated, and a missing cursor means the end |
| Paging.ReadingStarts | agentboard/inmemory.go:925-934 | A reading can start with any limit |
| Paging.ReadingContinues | agentboard/inmemory.go:925-934 | A reading can go on from every cursor handed out, with any limit, so every listing is read to its end |
| Paging.QueryPageIsPageItems | agentboard/inmemory.go:925-934 | The page cut out of a list in memory is the page of LIMIT and OFFSET, errors included |
| Paging.EffectiveLimit | agentboard/local.go:1343-1346 | Limits in range are taken as they are, all others are brought into range |
| Paging.PageExact | agentboard/inmemory.go:925-934 | A page has the items from the offset of its cursor on, as many as the limit (20 by default, at most 50) or as are left, and a cursor for the next item iff there is one; a bad cursor and an offset beyond 32 bits are the only errors |
| Paging.CursorDigits | agentboard/inmemory.go:949-953 | A cursor is the offset times 16 in six digits to base 64 |
| Paging.DecodesDigits | agentboard/inmemory.go:938-947 | A string decodes iff six digits are left of it once space around it and line breaks are dropped, and then to their number without its last four bits |
| Paging.Alphabet | agentboard/inmemory.go:949-953 | The digits are letters, numerals, minus and underscore in the order of RFC 4648 |
| Paging.ReadOnReassembles | agentboard/inmemory.go:627-662 | Reading on from next_offset_chars with any limits ends, and reassembles exactly the original characters |
| Paging.SliceExact | agentboard/inmemory.go:639-660 | A slice starts at the offset brought into the text and has as many characters as asked for, 20000 if that is out of range, or as are left |
| Paging.SliceText | agentboard/inmemory.go:639-660 | The clamping steps compute the slice |
| BoundedRead.MessageBoardBoundedRead | agentboard/tools.go:714-734 | Settles on the first read of the halving sequence that fits the budget or fails, gives up only after a read that used up the largest limit, after at most logarithmically many reads |
| BoundedRead.SettlesOnce | agentboard/tools.go:714-734 | The reads determine the number of halvings and the answer |
| BoundedRead.AllLimitsOne | agentboard/tools.go:799-804 | Once the largest limit is used up, every limit was requested as one, at that and every later scale |
| BoundedRead.ReadListing | agentboard/tools.go:504-523 | A budgeted listing read returns the first read that fits: with the limits asked for if that fits, else with both halved again and again; the page is one at its cursor, so following cursors stays exact; it gives up only when one item with one preview character does not fit |
| FrameScanner.Scanner.Push | agentboard/remote.go:629-674 | A byte is accepted iff the stream stays extendable to valid UTF-8 and no frame exceeds the bound; encoding errors come first; a frame end is reported exactly at a blank line completed by LF; the accepted bytes minus at most three pending ones are valid UTF-8 |
| FrameScanner.Scanner.ScanRead | agentboard/remote.go:629-674 | However reads are chunked, a stream is refused exactly at the first byte that makes it unacceptable |
| FrameScanner.Scanner.PushUtf8 | agentboard/remote.go:630-646 | The incremental check accepts a byte iff the stream stays extendable to valid UTF-8, keeping at most three pending bytes |
| FrameScanner.BoundedIffCounts | agentboard/remote.go:653-656 | No frame exceeds the bound iff the count at every byte stays within it |
| FrameScanner.LastStartStep | agentboard/remote.go:647-664 | One more byte moves the start of the current frame as the flags say, for LF, CR and CRLF, a bare CR counting once the next byte shows it |
| FrameScanner.LineStep | agentboard/remote.go:657-673 | One more byte changes the empty-line and CR flags as the line endings say |
| FrameScanner.UnacceptableStays | agentboard/remote.go:629-674 | A refused stream stays refused whatever follows |
| Utf8.NextByte | agentboard/remote.go:636-645 | After a proper prefix of an encoding, the library predicates tell complete, incomplete and impossible apart |
| Utf8.CharsAreEncodings | agentboard/remote.go:636-639 | The grammar of UTF-8 derives exactly the encodings of characters by the table of section 3 of RFC 3629 |
| Utf8.ByteLenIsUtf8 | agentboard/local.go:1320-1322 | The lengths that limits are checked against are those of the UTF-8 encodings |
| Utf8.PartialShape | agentboard/remote.go:640-642 | The proper prefixes of encodings, byte by byte; they have at most three bytes |
| Utf8.ExtendableTail | agentboard/remote.go:636-645 | Whether a stream can be extended depends only on what follows its valid part |
| Utf8.CharsPrefixFree | agentboard/remote.go:636-639 | No encoding is a proper prefix of another, so completion is unambiguous |
| Utf8.SplitUnique | agentboard/remote.go:630-646 | A stream splits in at most one way into valid UTF-8 and a pending proper prefix |
| Delegation.ParsePrinted | app/dynamic_tools_helpers.go:26-52 | Parsing a printed wrapper returns exactly its source and input, for all strings |
| Delegation.PrintedText | app/dynamic_tools_helpers.go:26-30 | The wrapper is the two tags around the escaped source and input |
| Delegation.EscapeEach | app/dynamic_tools_helpers.go:27 | Escaping goes character by character and turns ampersand and angle brackets into entities, nothing else |
| Delegation.UnescapeEach | app/dynamic_tools_helpers.go:50 | Unescaping replaces the three entities from left to right and keeps every other character |
| Delegation.PrintParsed | app/dynamic_tools_helpers.go:34-52 | Printing what was parsed gives the text back iff its fields were escaped canonically |
| Delegation.SplitPrinted | app/dynamic_tools_helpers.go:39-49 | The first separator match in a printed wrapper is the printed one |
| Delegation.FieldsIff | app/dynamic_tools_helpers.go:34-50 | A text has given fields iff it is put together from them and no separator starts earlier |
| Delegation.UnescapeEscape | app/dynamic_tools_helpers.go:27-50 | Single-pass unescaping undoes single-pass escaping |
| Delegation.EscapeUnescape | app/dynamic_tools_helpers.go:50-51 | Escaping undoes unescaping on canonically escaped text |
| Response.ChosenIsLargest | app/dynamic_tools_helpers.go:380-398 | Whenever fitting is downward closed the chosen limit is the largest in range that fits |
| Response.TruncateTrims | app/dynamic_tools_helpers.go:503-528 | Truncation keeps list lengths and every field, cuts the strings under text, title, summary and message to the limit, and adds only the flag where something was cut |
| Response.TruncateKeeps | app/dynamic_tools_helpers.go:503-528 | At whatever depth, every scalar but the strings under those four names, so every id, status and cursor, is the same after truncation; each of those strings is its first characters |
| Response.TruncateTwice | app/dynamic_tools_helpers.go:377-385 | Cutting twice is cutting once at the smaller limit |
| Response.CompactKeeps | app/dynamic_tools_helpers.go:413-493 | Compaction keeps list lengths, all other top-level fields, the cursor among them, and of every entry its identifying fields and what is nested in them: the error message of a turn, and id, status and error message of the latest turn of a poll |
| Response.CompactTurnKeeps | app/dynamic_tools_helpers.go:417-445 | A compacted turn keeps id, status and error message, and exactly the last agent message of its list |
| Response.CompactPollKeeps | app/dynamic_tools_helpers.go:451-475 | A compacted poll keeps its thread, cursor, flag, latest message, and id, status and error message of its latest turn |
| Response.LastAnswerIsLast | app/dynamic_tools_helpers.go:423-433 | The answer kept is the last agent message of the list, or none if there is none |
| Response.SummaryItems | app/dynamic_tools_helpers.go:167-170 | A turn summary lists the items newest first |
| Response.SummaryKeepsOldest | app/dynamic_tools_helpers.go:424-433 | So compaction of a turn summary keeps the oldest agent message of the turn |
| Response.SummaryKeepsLatestIff | app/dynamic_tools_helpers.go:424-433 | It keeps the latest agent message iff the turn has at most one |
| ResponseObjects.Clone | app/dynamic_tools_helpers.go:530-547 | The deep copy has the same value and shares no map and no list with the original |
| ResponseObjects.TruncateContent | app/dynamic_tools_helpers.go:503-528 | Cutting in place, in whatever order fields are visited, is truncation of the value, and writes to no map or list outside it |
| ResponseObjects.TruncateFields | app/dynamic_tools_helpers.go:505-521 | The loop over the fields of one map, with the flag set once after it |
| ResponseObjects.KeepAnswer | app/dynamic_tools_helpers.go:423-437 | The backward loop finds the last agent message and lists it alone |
| ResponseObjects.CompactEntries | app/dynamic_tools_helpers.go:418-445 | The entries of a list are replaced one by one in place by their compacted forms |
| ResponseObjects.CompactMetadata | app/dynamic_tools_helpers.go:413-493 | Compaction in place is compaction of the value, and what it keeps by reference is still shared by no two places |
| ResponseObjects.SearchLimit | app/dynamic_tools_helpers.go:377-402 | The binary search ends at a limit that fits while the next one does not; it fails only when cutting all content is not enough or an attempt cannot be encoded; no attempt changes the value it starts from |
| ResponseObjects.SerializeToolResponse | app/dynamic_tools_helpers.go:360-403 | A result is within 8000 bytes and is the encoding of the value, else of the compacted value, else of the compacted value truncated at the chosen limit, with every id, status and cursor of the compacted value at its place; afterwards the value is untouched if it fitted and compacted, not truncated, otherwise |
| RegistryState.RunsKeep | agent/registry.go:58-134 | Over every disciplined run the path and thread maps are mutually inverse on live agents, TotalSpawned equals active reservations plus live non-root agents and never exceeds the limit, and nicknames are distinct |
| RegistryState.StepConsistent | agent/registry.go:217-330 | Each call keeps the inverse maps, the placeholders of reservations and the conserved count |
| RegistryState.StepDistinct | agent/registry.go:189-215 | Each call keeps the nicknames of live agents and active reservations distinct, through pool resets |
| RegistryState.DistinctIffUnambiguous | agent/registry.go:353-370 | Nicknames held are pairwise different over all disciplined runs iff no base name is another name with an ordinal suffix |
| RegistryState.AmbiguousClashes | agent/registry.go:189-215 | For any other pool, a run after which two reservations, both named, hold one nickname |
| Nicknames.FormatInjectiveIff | agent/registry.go:353-370 | Formatting is injective in name and generation exactly on unambiguous pools |
| Nicknames.SuffixInjective | agent/registry.go:357-369 | Name and generation can be read off a suffixed nickname |
| Nicknames.OrdinalsInEnglish | agent/registry.go:353-370 | A first use is the bare name; later ones carry the English ordinal, with the exceptions 11th to 13th |
| Nicknames.DecimalDenotes | agent/registry.go:369 | The number in it is in decimal digits without leading zeros |
| RegistryPromises.SlotGranted | agent/registry.go:58-71 | A slot is granted iff there is no limit or the count is below it |
| RegistryPromises.RootRegistered | agent/registry.go:73-89 | The root is entered once under its path, and its thread leads to it; nothing else changes |
| RegistryPromises.ThreadReleased | agent/registry.go:91-110 | A release forgets the thread; a live agent registered for it goes with its nickname, and is uncounted unless it is the root |
| RegistryPromises.ThreadRegistered | agent/registry.go:112-134 | The agent is entered as given under its path or its thread key, and the thread leads there; the earlier path of the thread and the earlier thread of the key are forgotten, all else stays |
| RegistryPromises.NoThreadNoAgent | agent/registry.go:112-115 | Without a thread id nothing is registered |
| RegistryPromises.MessageUpdated | agent/registry.go:170-183 | Only the last message of the live agent of the thread changes |
| RegistryPromises.NicknameReserved | agent/registry.go:189-215 | The preferred nickname, else the free name whose turn it is, else one of a new generation in which every name is free again |
| RegistryPromises.PathReserved | agent/registry.go:217-228 | A path is reserved iff nothing is registered there, with a placeholder without thread |
| RegistryPromises.SlotCancelled | agent/registry.go:314-330 | A cancellation frees the nickname and the placeholder, if it still is one, and returns the slot |
| RegistryPromises.CommitFills | agent/registry.go:298-306 | A commit registers what it is given, and what was reserved where nothing is given |
| Registry.AgentRegistry.ReserveSpawnSlot | agent/registry.go:58-71 | A slot is reserved iff the count is below a positive limit, and counted |
| Registry.AgentRegistry.RegisterRootThread | agent/registry.go:73-89 | The root is registered once; a second registration only restores its thread entry |
| Registry.AgentRegistry.ReleaseSpawnedThread | agent/registry.go:91-110 | Releasing removes both map entries and the nickname and, off the root, the count |
| Registry.AgentRegistry.RegisterSpawnedThread | agent/registry.go:112-134 | Registration updates both maps, displacing what they held |
| Registry.AgentRegistry.ReserveAgentNickname | agent/registry.go:189-215 | The candidate loops, the reset and the round-robin choice compute the reserved nickname |
| Registry.AgentRegistry.ReserveAgentPath | agent/registry.go:217-228 | A path is reserved iff it is free |
| Registry.AgentRegistry.UpdateLastTaskMessage | agent/registry.go:170-183 | Only the message of the live agent of that thread changes |
| Registry.AgentRegistry.AgentIDForPath | agent/registry.go:136-141 | The live agent registered at a path, if any |
| Registry.AgentRegistry.MetadataForThread | agent/registry.go:143-152 | The metadata of the live agent of a thread, if any |
| Registry.SpawnReservation.Commit | agent/registry.go:298-312 | A commit registers the agent under what was reserved and ends the reservation |
| Registry.SpawnReservation.CancelReservation | agent/registry.go:314-330 | A cancellation returns nickname, placeholder and slot, once |
| SpawnGraph.MemoryStore.ListThreadSpawnDescendants | agent/graph_store.go:78-110 | Terminates on any edge map, cycles included, and lists exactly the threads from which a chain of stored edges with the status asked for leads up to the root, each once, in non-decreasing distance with siblings in id order |
| SpawnGraph.BreadthFirst | agent/graph_store.go:96-109 | The queue loop, over any index of children |
| SpawnGraph.MemoryStore.ListThreadSpawnChildren | agent/graph_store.go:58-76 | Exactly the threads whose stored edge has that parent and the status asked for, in id order |
| SpawnGraph.MemoryStore.ChildrenByParent | agent/graph_store.go:84-95 | The index holds the children of every parent, each list sorted |
| SpawnGraph.MemoryStore.UpsertThreadSpawnEdge | agent/graph_store.go:30-41 | A child has one edge, the last one given; other edges stay |
| SpawnGraph.MemoryStore.SetThreadSpawnEdgeStatus | agent/graph_store.go:43-56 | Only the status of an existing edge changes |
| ThreadForest.KnownLocalThreadSubtree | app/agents_overview_embedded.go:196-226 | The fixpoint is exactly the root and the threads from which the upward walk finds it, in any iteration order, cycles included |
| ThreadForest.LocalAgentRecordDescendsFrom | app/agent_tui.go:149-166 | The walk finds the ancestor iff it is the parent or an ancestor of the parent, cycles included |
| ThreadForest.LocalAgentRecordsByID | app/agent_tui.go:108-116 | The records by id; of two with one id the later counts |
| ThreadForest.ByIdExact | app/agent_tui.go:108-116 | The record filed under an id is the last one with it |
| ThreadForest.ParentsOfExact | app/agents_overview_embedded.go:205-213 | A thread has the parent given by the last record that gives it one, both without blanks around them |
| ThreadForest.LinksExact | app/agent_tui.go:118-166 | The walks climb from a record to its parent field where that is not empty, and where the record is a subagent if only those count |
| ForestAgreement.WalkAgreesWithSubtree | app/agent_tui.go:149-166 | For any listing of records, cycles, blanks and repeated ids included: for every root without surrounding blanks the walk finds it from exactly the threads that the subtree fixpoint puts below it, iff every edge of either is a path of the other |
| ForestAgreement.TrimmedListing | app/agents_overview_embedded.go:205-213 | For listings without blanks the two agree iff every parent listed is still in the records by id |
| ForestAgreement.DistinctListing | app/agents_overview_embedded.go:205-213 | With distinct ids as well, both go over the same parents |
| ForestAgreement.BlankParentDisagrees | app/agents_overview_embedded.go:208-209 | A record whose parent has a leading blank is in the subtree but not found by the walk |
| ForestAgreement.DroppedParentDisagrees | app/agent_tui.go:108-116 | So is one repeated later without its parent |
| ForestAgreement.BothTraversals | app/agents_overview_embedded.go:196-226 | Run on one listing, the fixpoint returns the threads below the root, the walk those that find it; the two sets are equal where the listing agrees |
| ThreadForest.AgentsOverviewRootThread | app/agents_dashboard.go:251-264 | The walk terminates on any parent map and ends where the specification says |
| ThreadForest.LocalAgentPrimaryThreadID | app/agent_tui.go:118-132 | The walk over subagent records ends where the specification says |
| ThreadForest.RootIsNearestTop | app/agents_dashboard.go:251-264 | The walk ends at the nearest thread without a parent or on a cycle |
| ThreadForest.RootUnique | app/agents_dashboard.go:251-264 | On acyclic maps the end of the walk is the unique ancestor without a parent |
| ThreadForest.AgentsOverviewChildrenByRoot | app/agents_dashboard.go:228-249 | Every thread with a parent is listed once under the end of its walk, unless that is itself |
| ThreadForest.GroupsPartitionForest | app/agents_dashboard.go:228-249 | On acyclic maps grouping by root puts each non-root thread under exactly one root, whose subtree contains it |
| ThreadForest.GroupsWithinSubtrees | app/agents_dashboard.go:242-248 | On any map, whatever is listed under a root lies in its subtree |
| Ancestry.RepeatedChain | app/agents_dashboard.go:251-264 | Once an upward chain repeats, everything above has been visited, so a seen set loses nothing |
| Ancestry.DescendsByChain | agent/graph_store.go:96-109 | A thread descends from another iff a chain of parents leads up to it |
| AgentPath.ValidPathIff | agent/path.go:72-93 | The validator accepts the morpheus path and the renderings of valid name lists, nothing else |
| AgentPath.RenderInjective | agent/path.go:72-93 | Different name lists have different paths |
| AgentPath.NameAccepted | agent/path.go:96-116 | Names are non-empty, not the root segment, and use only the allowed characters |
| AgentPath.TopNames | agent/path.go:54-66 | The names of the root and of the morpheus path |
| AgentPath.MatchesPrefixIff | agent/path.go:42-52 | Prefix matching on path strings is prefix matching on name lists, never a sibling |
| AgentPath.MorpheusApart | agent/path.go:42-52 | The morpheus path is matched by no prefix but itself and the root, and is a prefix of no rooted path |
| AgentPath.JoinAppends | agent/path.go:126-132 | Joining appends one name and reads back as the agent name; it fails on invalid names and below the morpheus path |
| AgentPath.ResolveRelative | agent/path.go:138-165 | A relative reference resolves to the path of the appended names, and only if all are valid |
| AgentPath.ResolveSound | agent/path.go:138-152 | Whatever resolves is valid; a valid absolute path resolves to itself from anywhere |
| AgentPath.ResolveStaysBelow | agent/path.go:148-151 | Relative references never leave the subtree they are resolved from |

## Left out

- PostProtocol.EveryInterleaving: a board deleted in the middle of a call is not a step there; deletion between transactions is in `BoardStore`.
- ResponseObjects.SerializeToolResponse: responses are trees of maps and lists, as the tools build them; a response that holds one map in two places is not covered.
- BoardStore.PinnedStays: the encoded template is modelled by the template itself and the length of its encoding, so equality of templates stands for equality of their JSON.
- Request keys are pairs in the board model; for which callers joined keys do the same is `BoardTypes.KeysNamePairsIff`.
- `LiveAgents`, a sorted copy of the live entries of the registry.
- Error texts; which rule of a template was broken (one error stands for all); blank-identity errors other than on opening and configuring.
- Unset directions, destinations or targets, and destinations with unused fields set.
- Channel names, texts and requests that are not valid UTF-8, and the JSON columns that hold posts, requests and targets.
- Permissions and access modes of the local backend, `SubscribedChannels`, and the registry of open in-memory boards.
- The failure of a read whose caller has no path at the host.
- Delivery of notifications and their previews: the model ends at the set of recipients.
- SQL connections, busy retries and the backup of a corrupt database; each immediate transaction is one step.
- The library sorts are one stable sort function; what is used of it is the strict order and the elements of its result.
- Wrap-around of the nickname reset counter and of the log length.
- The subagent test of a session record is a field of the record.
- The parser of events behind the frame scanner, which splits at LF only.
- HTTP, MCP transport, remote client, agent identity, control and invocation, prompts, schemas and the terminal front end.
