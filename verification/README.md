# Feeds, threads, connections, conversations and queues: a Dafny model

This project models eight parts of a NestJS social backend and proves what they are for. Tables, Redis and Bull queues
are sequences, sets and maps; a service call is one atomic step on them, except where a property is about what happens
between two awaits. `dafny verify dfyconfig.toml` checks everything.

**Cursor paging** (`CursorPaging`, `Feeds`). A client follows `nextCursor` while other clients write. Whatever is
inserted, marked read or removed between two fetches, the walk is in listing order, returns no row twice, and returns
every row that matches throughout and shares its key with no other matching row; rows of other users and filters may
tie freely. On a table nobody writes to it returns exactly the matching rows if and only if no page boundary splits
rows of equal key, in whatever order the database returns those, anew at every fetch (`CursorTies`); then it takes
max(1, ceil(n / limit)) pages. A limit of zero is complete if and only if nothing matches.

**Threaded comments** (`CommentForest`, `ThreadTree`, `CommentService`). Over all runs parent links form a forest,
`rootId` is the topmost ancestor, and `replyCount` counts the live replies. The two-pass builder links shared objects
on the heap; reading them from the root downwards yields a recursively defined tree, which holds a reply exactly if
its parent chain through fetched rows reaches the root, once. Every page is the asked-for stretch of the thread's live
replies, oldest first. When the page covers the thread the tree holds all replies if and only if none answers a
deleted reply.

**Reactions and their cached counts** (`ReactionCache`). Every cached count equals a recount after any run, so the
guard in the decrement never suppresses a needed decrement. An update keeps the agreement exactly unless it writes an
empty type over another one while the counts are cached.

**Social connections** (`Connections`, `ConnectionSafety`, `ConnectionRules`, `ConnectionCoherence`,
`ConnectionService`). Safety over all runs (one row per unordered pair, none with oneself, none across a block,
decided statuses stay decided); consent: behind every accepted friendship of any run there is a call by which its
addressee agreed; who may do what, and what each call leaves, said about the rows themselves; and coherence of the
query cache by a frame argument: a write changes what two users see and invalidates both. The two-user key of mutual
connections is outside that argument: over any run its entry holds current friendships only, and is stale if and only
if the other user has, since the fill, gained or lost a friend who is a friend of this one. What the answers mean is
said apart from the queries (`ConnectionAnswers`); the two follow numbers both count follows in either direction, so
each is right only when the other direction is empty.

**Trending topics** (`TopicExtraction`, `TrendingStore`, `TrendingRanking`). The nested counting loops equal
declarative sums, in which a hashtag counts for the topic it spells. The decaying table obeys a closed form over any
number of runs. The comment above the cleanup (lines 183-187 of `src/services/trending.service.ts`) speaks of topics
that decayed below a threshold and are a week old; the decay re-dates every row whose score is not zero, so the
cleanup deletes only rows of score exactly zero, and with positive contributions none. The re-ranking of a window of
three times the limit is a 2-approximation, and the factor two is reached.

**Encrypted conversations** (`Crypto`, `Conversations`). A message can be sent exactly when both users have
registered, and either party reads exactly what was posted between the two, whoever opened the session. The shared key
is not symmetric in the public keys: the two orders agree exactly for repetitions of a common word, so not for the two
keys in the service's own test (`src/e2e-encryption/tests/crypto.service.spec.ts:26-34`), which expects equality.
Correctness rests on the session row, whose stored order decides. Where all is readable, changing a public key keeps
it so if and only if the new key is the old one; over any run a pair can read if and only if for every message both
public keys, one after the other, are the text they were when it was sent, which for keys of one length means the same
keys (`KeyChanges`). `CryptoExample` shows that the laws asked of the primitives can be met together.

**Gateway, presence and offline queue** (`Gateway`, `GatewayTimers`, `GatewayService`, `OfflineQueue`). Handlers
interleave at their awaits; the two socket maps stay inverse up to disconnects in flight, timers stay unique, and the
last presence write is right at every await point if and only if no heartbeat was handled for a user without a socket
(`GatewayPresence`). A timer entry of a dead socket is left behind if and only if some connect or heartbeat resumed
after its socket's disconnect was over. Queued jobs are conserved, and a job has failed exactly after three attempts
in vain, counted from the events; an attempt loses its message if and only if the user goes offline between its two
presence reads and the id under which publishing queues it again is taken, which for a message with an id of its own
is always so.

**Message statuses** (`StatusPipeline`), **transfer commands** (`Patterns`, `CommandParser`) and **recommendations**
(`Recommendations`, `RecommendationStore`). Statuses converge to the maximum under any order, repetition, retry and
crash; two overlapping workers converge exactly if the later save is not the lower one. Commands are matched by a
verified backtracking matcher; printing and parsing are inverse. Candidate assembly is exact, and storing candidates
succeeds exactly if none of them was dismissed before.

Text is `seq<char>`; scores are reals. Requirements on ids and keys are stated in the lemmas that need them.

## Model

| member | source | states |
|---|---|---|
| CursorPaging.Listing.PageOfIsPage | src/activity/services/feed.service.ts:34-83 | the page is cut from an answer ORDER BY allows: exactly the matching rows behind the cursor, sorted, each once |
| CursorPaging.Listing.PageFacts | src/activity/services/feed.service.ts:44-83 | on any legal page: items match, lie behind the cursor, are distinct and sorted, and the next cursor lies behind the old one and at or behind every item |
| CursorPaging.Listing.PageMisses | src/activity/services/feed.service.ts:60-77 | a matching row behind the cursor that ties with no other matching row is on the page or strictly behind the next cursor |
| CursorPaging.Listing.CursorBehind | src/activity/services/feed.service.ts:44-77 | in a walk over a changing table no later cursor falls before an item already returned |
| CursorPaging.Listing.WalkOrdered | src/activity/services/feed.service.ts:44-83 | items come in listing order over all pages of a changing table, strictly across page boundaries |
| CursorPaging.Listing.WalkNeverRepeats | src/activity/services/feed.service.ts:44-83 | no row is returned twice, tied keys or not, as long as a row keeps its key |
| CursorPaging.Listing.WalkComplete | src/activity/services/feed.service.ts:44-83 | a row that is present, matches and ties with no other matching row at every fetch is returned once the cursor is null |
| CursorPaging.Listing.RowsAreFilteredAll | src/activity/services/feed.service.ts:44-62 | the cursor condition selects a stretch of the one sorted list of the table |
| CursorPaging.Listing.NextPageContinues | src/activity/services/feed.service.ts:48-75 | the next page continues exactly where this one ends if the boundary does not split equal keys, and misses rows if it does |
| CursorPaging.Listing.RowsShrink | src/activity/services/feed.service.ts:44-77 | the rows behind the next cursor are fewer: following cursors ends |
| CursorPaging.Listing.FollowAllCuts | src/activity/services/feed.service.ts:44-83 | following the cursor over an unchanging table cuts the whole answer into consecutive pages, if no boundary splits a tie |
| CursorPaging.Listing.CutsCover | src/activity/services/feed.service.ts:60-83 | those pages hold every row once, in order, and their number is PageCount |
| CursorPaging.Listing.WalkIsFollowAll | src/activity/services/feed.service.ts:44-83 | any client walk over an unchanging table with distinct keys among the matching rows receives exactly those pages |
| CursorTies.WalkCompleteIff | src/activity/services/feed.service.ts:44-83 | any walk over an unchanging table, with the order among equal keys left to the database at every fetch, returns every matching row if and only if no page boundary splits rows of equal key; then in PageCount pages, otherwise fewer rows than match |
| CursorTies.SameKeys | src/activity/services/feed.service.ts:58-62 | two legal orders of the same rows show the same keys at the same places |
| CursorPaging.Listing.FollowAllCompleteIff | src/activity/services/feed.service.ts:44-83 | for one fixed order among equal keys the walk over an unchanging table returns exactly the matching rows, in order, if and only if no page boundary splits rows of equal key, and then in PageCount pages |
| CursorPaging.Listing.TieLosesRows | src/activity/services/feed.service.ts:48-75 | otherwise, in that order, it returns fewer rows than match |
| CursorPaging.Listing.FollowAllComplete | src/activity/services/feed.service.ts:44-83 | with distinct keys among the matching rows it is complete, in PageCount pages |
| CursorPaging.Listing.PageUnique | src/activity/services/feed.service.ts:58-62 | with distinct keys among the matching rows the database has only one page to answer with |
| CursorPaging.Listing.LimitZero | src/activity/services/feed.service.ts:68-77 | with limit 0 the walk is one empty page, complete if and only if nothing matches |
| CursorPaging.PageCountIsCeiling | src/activity/services/feed.service.ts:58-77 | the page count is max(1, ceil(n / limit)) |
| Feeds.FeedService.GenerateFeed | src/activity/services/feed.service.ts:28-84 | the page of the listing; in plain terms: some sorted list holds exactly the user's items behind the cursor that pass the read and type filters, the page is its first `limit` items, and hasMore and the next cursor tell whether it goes on and from where |
| Feeds.FeedMeans | src/activity/services/feed.service.ts:34-62 | the query's rows are exactly those items, best score first and newest first among equal scores, each once |
| Feeds.FeedService.Conditions | src/activity/services/feed.service.ts:34-56 | user, cursor, read and type conditions select the listing's matching rows behind the cursor |
| Feeds.FeedService.CutPage | src/activity/services/feed.service.ts:67-83 | hasMore, the kept items and the next cursor in terms of the rows found |
| Feeds.FeedService.MarkFeedItemAsRead | src/activity/services/feed.service.ts:167-178 | fails exactly without an own item of that id, and otherwise changes that item's flag and nothing else |
| Feeds.FeedChangesKeepKeys | src/activity/services/feed.service.ts:167-178 | marking read and inserting keep every key, so a walk tolerates them |
| Feeds.MessageRepository.FindMessages | src/messages/repositories/message.repository.ts:7-69 | the page and has-more flag of the room listing: exactly the room's messages that pass the deleted, sender, type and search filters on the far side of the cursor, in the order asked for, cut at the limit |
| Feeds.MessageRepository.FindThreadMessages | src/messages/repositories/message.repository.ts:71-107 | the same for the replies to one message |
| Feeds.MessagesMean | src/messages/repositories/message.repository.ts:44-69 | the page of a message listing in either direction is the first stretch of the sorted wanted messages, with 1 for more and 0 for none |
| Feeds.MessageRepository.AfterCursor | src/messages/repositories/message.repository.ts:44-51 | the cursor comparison in either direction is the listing's After |
| CommentForest.NoCycle | src/engagement-module/services/comment.service.ts:62-82 | an ancestor is an older row, so no parent chain closes |
| CommentForest.CreateKeepsForest | src/engagement-module/services/comment.service.ts:48-94 | creating keeps parents older, rootId topmost and replyCount exact |
| CommentForest.UpdateKeepsForest | src/engagement-module/services/comment.service.ts:222-257 | so does updating |
| CommentForest.RemoveKeepsForest | src/engagement-module/services/comment.service.ts:259-288 | so does soft-deleting, also below deleted parents |
| CommentForest.RunKeepsForest | src/engagement-module/services/comment.service.ts:48-288 | after any sequence of calls the forest invariant holds |
| CommentForest.RemoveUndoesCreate | src/engagement-module/services/comment.service.ts:62-82 | a reply can be created exactly under a live comment, and removing it restores every counter |
| CommentForest.CallRule | src/engagement-module/services/comment.service.ts:48-288 | a reply is allowed exactly under a comment that is not deleted, a change exactly to its author while it is not deleted; each allowed call changes exactly the named fields of exactly the named rows, any other call nothing |
| ThreadTree.ThreadMembers | src/engagement-module/services/comment.service.ts:179-204 | a comment is in the thread of a root exactly if it is the root or its parent chain through fetched rows reaches it |
| ThreadTree.ThreadOnce | src/engagement-module/services/comment.service.ts:179-204 | and it is there once |
| ThreadTree.ChainLinear | src/engagement-module/services/comment.service.ts:193-203 | of two ancestors of a row one is an ancestor of the other |
| ThreadTree.EveryReplyReaches | src/engagement-module/services/comment.service.ts:168-177 | with a covering page and no reply to a deleted reply every reply's chain reaches the root |
| ThreadTree.CompleteThreadIff | src/engagement-module/services/comment.service.ts:168-206 | for a covering page the flattened tree is a permutation of all replies if and only if every reply's parent is the root or not deleted |
| ThreadTree.CompleteThread | src/engagement-module/services/comment.service.ts:168-206 | in particular if no reply of the thread was deleted |
| CommentService.CreateDtos | src/engagement-module/services/comment.service.ts:179-190 | first pass: one fresh object per row with no replies |
| CommentService.LinkReply | src/engagement-module/services/comment.service.ts:192-204 | second pass, one row: only the list of its own parent grows, at the end |
| CommentService.BuildThread | src/engagement-module/services/comment.service.ts:179-206 | every object lists the objects of exactly its children, in fetch order |
| CommentService.UnfoldIsThread | src/engagement-module/services/comment.service.ts:179-206 | the pointer structure read from an object downwards is the recursive thread |
| CommentService.SiblingsOldestFirst | src/engagement-module/services/comment.service.ts:174-204 | every object lists its replies oldest first |
| CommentService.ThreadPageFacts | src/engagement-module/services/comment.service.ts:168-177 | some list holds exactly the live replies of the root, each once and oldest first, and the page shows its rows (page - 1) * limit to page * limit; a first page that is large enough covers the thread |
| CommentService.Service.CreateComment | src/engagement-module/services/comment.service.ts:48-94 | succeeds exactly without a parent or under one that is not deleted; then one row more with the given fields and one reply more at the parent, the forest kept |
| CommentService.Service.UpdateComment | src/engagement-module/services/comment.service.ts:222-257 | succeeds exactly for the author of a comment that is not deleted; then its text alone changes, the forest kept |
| CommentService.Service.RemoveComment | src/engagement-module/services/comment.service.ts:259-288 | succeeds exactly for the author of a comment that is not deleted; then it is marked and its parent counts one reply fewer, the forest kept |
| CommentService.Service.GetThreadedComments | src/engagement-module/services/comment.service.ts:152-207 | fails exactly without a live root; otherwise the objects returned unfold to the thread of the fetched page, which is the asked-for stretch of the live replies oldest first, and siblings are listed oldest first |
| ReactionCache.GroupedCountsExact | src/engagement-module/services/engagement-metrics.service.ts:57-77 | the grouped query counts live reactions per type, absent meaning 0 |
| ReactionCache.CreateAgrees | src/engagement-module/services/reaction.service.ts:32-73 | creating keeps cached counts equal to a recount |
| ReactionCache.RemoveAgrees | src/engagement-module/services/reaction.service.ts:163-184 | so does removing |
| ReactionCache.GuardNeverSuppresses | src/engagement-module/services/engagement-metrics.service.ts:139-155 | a live reaction's cached count is positive, so the guarded decrement always takes place |
| ReactionCache.UpdateAgreesIff | src/engagement-module/services/reaction.service.ts:126-161 | an update keeps the agreement if and only if it does not write an empty type over another while the counts are cached |
| ReactionCache.FillAgrees | src/engagement-module/services/engagement-metrics.service.ts:27-55 | filling the cache keeps the agreement |
| ReactionCache.RunAgrees | src/engagement-module/services/engagement-metrics.service.ts:27-155 | in any run of calls and evictions without empty types whatever is cached agrees with recounting |
| ReactionCache.CallRule | src/engagement-module/services/reaction.service.ts:32-184 | which calls succeed and exactly which row and field each changes; only reading fills the cache and only expiry empties it |
| ReactionCache.Reactions.CreateReaction | src/engagement-module/services/reaction.service.ts:32-73 | succeeds exactly if no row, deleted or not, has this content, author and type; then appends that row and keeps the agreement |
| ReactionCache.Reactions.UpdateReaction | src/engagement-module/services/reaction.service.ts:126-161 | succeeds exactly for the author of a live reaction whose new type is not taken; then that type alone changes; keeps the agreement for every non-empty type |
| ReactionCache.Reactions.RemoveReaction | src/engagement-module/services/reaction.service.ts:163-184 | succeeds exactly for the author of a live reaction; then marks it and keeps the agreement |
| ReactionCache.Reactions.GetMetrics | src/engagement-module/services/engagement-metrics.service.ts:27-55 | what is returned, cached or not, is the recount for every type |
| ReactionCache.Reactions.GetReactionCounts | src/engagement-module/services/engagement-metrics.service.ts:57-77 | the loop over the grouped rows builds the counts |
| ReactionCache.Reactions.IncrementReactionCount | src/engagement-module/services/engagement-metrics.service.ts:120-137 | raises the cached count of one type of one content by one, if that content is cached, and no other count |
| ReactionCache.Reactions.DecrementReactionCount | src/engagement-module/services/engagement-metrics.service.ts:139-155 | lowers the cached count of one type of one content by one, if it is positive, and no other count |
| ConnectionSafety.CreateSafe | src/connection/connection.service.ts:33-120 | creating keeps one row per pair, none with oneself, none across a block |
| ConnectionSafety.AutoAcceptSucceeds | src/connection/connection.service.ts:60-85 | accepting the opposite pending request passes every check of acceptConnection |
| ConnectionSafety.BlockSafe | src/connection/connection.service.ts:448-493 | blocking removes the pair's connection, so safety is kept |
| ConnectionSafety.UnblockSafe | src/connection/connection.service.ts:495-511 | unblocking keeps safety |
| ConnectionSafety.StepSafe | src/connection/connection.service.ts:33-588 | every call keeps safety |
| ConnectionSafety.RunSafe | src/connection/connection.service.ts:33-588 | after any run: one connection per unordered pair, none with oneself, none between a blocked pair, and a pending or rejected row is a friendship |
| ConnectionSafety.RunEvolves | src/connection/connection.service.ts:277-423 | every later row is new or a later value of an earlier one |
| ConnectionSafety.DecidedForever | src/connection/connection.service.ts:277-423 | an accepted or rejected row keeps its ends, type and status while it exists |
| ConnectionRules.Verdict | src/connection/connection.service.ts:33-588 | every call succeeds exactly when it is allowed, said about the rows and blocks themselves; then exactly the named row has exactly the new value (a new friendship request pending, a new follow accepted); a refusal names a reason that holds |
| ConnectionRules.StepConsent | src/connection/connection.service.ts:60-85 | an accepted friendship after a call was one before it, or the call is the addressee accepting it, updating it to accepted, or asking the requester in return |
| ConnectionRules.RunConsent | src/connection/connection.service.ts:33-423 | over any run: behind every accepted friendship there is a call by which its addressee agreed |
| ConnectionCoherence.AnswerFrame | src/connection/repositories/connection.repository.ts:18-125 | every query but the mutual one depends only on the rows its user sees |
| ConnectionCoherence.StepTouches | src/connection/connection.service.ts:33-588 | every writing call changes nothing, or what two users see, and then forgets exactly what was cached for those two |
| ConnectionCoherence.StepCoherent | src/connection/connection.service.ts:709-727 | a step keeps cached answers equal to their queries |
| ConnectionCoherence.RunCoherent | src/connection/connection.service.ts:122-727 | after any run every cached request, friend, follower, following, list, block and stats entry equals its query re-run now |
| ConnectionCoherence.MutualSymmetric | src/connection/connection.service.ts:619-662 | a fresh computation names exactly the common friends, the same for (u, o) and (o, u) |
| ConnectionCoherence.MutualProvenance | src/connection/connection.service.ts:619-662 | a cached mutual list was filled by the last read that missed the cache, and is the current friendships of u restricted to the friends o had then |
| ConnectionCoherence.MutualExactIff | src/connection/connection.service.ts:619-662 | over any run it holds current friendship rows only, and equals the query re-run now if and only if o's friends now and at the fill agree on the friends of u |
| ConnectionCoherence.MutualAfterRemoval | src/connection/connection.service.ts:425-446 | when o loses friend x, an exact entry of an uninvolved u stays exact if and only if x is no friend of u |
| ConnectionService.Service.constructor | src/connection/connection.service.ts:21-31 | the service starts in the empty state, which is valid |
| ConnectionService.Service.InvalidateConnectionCache | src/connection/connection.service.ts:709-727 | the loop over the eight patterns removes exactly the user's entries |
| ConnectionService.Service.CreateConnection | src/connection/connection.service.ts:33-120 | performs the step with the outcome of Verdict; between strangers the row returned has the asked kind and is pending exactly for a friendship, otherwise it is the request of the other side, now accepted |
| ConnectionService.Service.AcceptConnection | src/connection/connection.service.ts:277-319 | performs the step with the outcome of Verdict: only the addressee of a pending row; the returned row is the old one with status accepted |
| ConnectionService.Service.RejectConnection | src/connection/connection.service.ts:321-352 | performs the step with the outcome of Verdict: only the addressee of a pending row; the returned row is the old one with status rejected |
| ConnectionService.Service.UpdateConnection | src/connection/connection.service.ts:354-423 | performs the step with the outcome of Verdict; the returned row is the old one with the status, the favourite flag or both changed |
| ConnectionService.Service.RemoveConnection | src/connection/connection.service.ts:425-446 | performs the step with the outcome of Verdict: either end removes exactly that row |
| ConnectionService.Service.BlockUser | src/connection/connection.service.ts:448-493 | performs the step with the outcome of Verdict; afterwards the pair is blocked and unconnected |
| ConnectionService.Service.UnblockUser | src/connection/connection.service.ts:495-511 | succeeds exactly if the block exists, and takes exactly it away |
| ConnectionService.Service.UpdateConnectionStrength | src/connection/connection.service.ts:538-561 | performs the step; the returned row is the old one raised by a tenth of the interactions, to at most 100 |
| ConnectionService.Service.CalculateConnectionStrength | src/connection/connection.service.ts:563-588 | performs the step on the pair's connection and returns its new strength, 0 if there is none |
| ConnectionService.Service.Cached | src/connection/connection.service.ts:122-275 | a getter returns the current answer of its query, cached or not, and it means what AnswerMeans says |
| ConnectionAnswers.AnswerMeans | src/connection/repositories/connection.repository.ts:35-125 | each query's answer holds exactly the rows of the table it names, as often as the table does; a filtered page is a stretch of the rows of the asked kind, status and name, in the asked order, with the whole counted; mutual connections lead to exactly the common friends; friends are counted as people |
| ConnectionAnswers.FollowNumbersIff | src/connection/connection.service.ts:672-694 | totalFollowers is the number of followers if and only if the user follows nobody, and totalFollowing that of followed users if and only if nobody follows the user |
| Sequences.IncludesIff | src/services/trending.service.ts:70-73 | the case-insensitive test finds a text exactly where it stands, letter for letter or capital |
| ConnectionService.Service.RunQuery | src/connection/repositories/connection.repository.ts:18-125 | what each key's repository calls return means what AnswerMeans says |
| ConnectionService.Service.MutualConnections | src/connection/connection.service.ts:630-655 | two friend lists, the shared ids and the filter give the common friendships |
| TopicExtraction.AddRelated | src/services/trending.service.ts:229-238 | the innermost loop adds a topic's share to every co-occurring topic |
| TopicExtraction.AddHashtags | src/services/trending.service.ts:240-247 | the hashtag loop yields the union without duplicates |
| TopicExtraction.MentionTopic | src/services/trending.service.ts:218-247 | one mention changes all five columns by its own amounts |
| TopicExtraction.AddTopics | src/services/trending.service.ts:205-249 | one activity's topics change each record as often as the topic occurs |
| TopicExtraction.TopicIff | src/services/trending.service.ts:254 | a hashtag's topic is t exactly if the hashtag is t without any '#', or t with one '#' put in before any other |
| TopicExtraction.AddTags | src/services/trending.service.ts:251-276 | one activity's hashtags change each record as often as they spell it, spelling being said apart from the code's replacement |
| TopicExtraction.ExtractTopicMentions | src/services/trending.service.ts:197-280 | exactly the mentioned topics have a record, and every number, co-occurrence weight and hashtag list is its declarative sum |
| TopicExtraction.TagsJoinTopic | src/services/trending.service.ts:251-276 | one record counts a topic t together with every hashtag t and '#t' |
| TopicExtraction.OneActivity | src/services/trending.service.ts:205-276 | the numbers of a single activity: 1 or 1.5 for a topic, 1.2 for its hashtag, 0.5 for a co-occurring topic, times the age factor |
| TopicExtraction.RelatedSymmetric | src/services/trending.service.ts:228-238 | co-occurrence weights are symmetric and no topic relates to itself |
| TopicExtraction.EngagementsAreMentions | src/services/trending.service.ts:218-226 | engagements never exceed mentions |
| TopicExtraction.OrderIrrelevant | src/services/trending.service.ts:197-280 | permuting the activities changes no number |
| TrendingStore.TrendingService.DecayExistingTrendingTopics | src/services/trending.service.ts:285-294 | every row's score is multiplied by 0.75 and the row re-dated unless it is at zero |
| TrendingStore.TrendingService.Absorb | src/services/trending.service.ts:144-180 | one topic's row is updated or made, every other row stays |
| TrendingStore.TrendingService.PerformTrendingCalculation | src/services/trending.service.ts:124-192 | one run takes each topic's row, by itself and in whatever order the entries come, to its next value: three mentions or more add to every column and to three quarters of the score, fewer only fade it, and a row at zero for a week goes |
| TrendingStore.NextMeans | src/services/trending.service.ts:138-192 | the columns of one topic after one run, said in plain numbers |
| TrendingStore.MergeRelated | src/services/trending.service.ts:155-158 | the loop adds two weight records key by key |
| TrendingStore.TableIsAfter | src/services/trending.service.ts:124-192 | over any history of the table each topic's row is described by After |
| TrendingStore.ClosedForm | src/services/trending.service.ts:138-158 | the score is the sum over all runs of 0.75^(later runs) times the run's contribution, deletions notwithstanding |
| TrendingStore.ScoreBound | src/services/trending.service.ts:285-294 | contributions of at most M never lift a score above 4M |
| TrendingStore.SteadyScore | src/services/trending.service.ts:285-294 | under a constant contribution d the distance to 4d shrinks by a quarter per run, so the bound is tight |
| TrendingStore.DeletedIff | src/services/trending.service.ts:183-187 | a run deletes a row if and only if the topic was not counted, its score is exactly 0 and it was not saved for a week |
| TrendingStore.FadedTopicStays | src/services/trending.service.ts:183-187 | after any number of calculations that do not count a topic, at any spacing, its row is still there, faded and re-dated by the last |
| TrendingStore.FallsBelowThreshold | src/services/trending.service.ts:285-294 | and finitely many of them take any score below the cleanup's threshold |
| TrendingStore.NeverDeleted | src/services/trending.service.ts:124-192 | with positive contributions a topic has a row exactly if some run counted it, and its score stays positive |
| TrendingStore.LifeSums | src/services/trending.service.ts:150-177 | mention and engagement counts, weights and hashtags are the sums and union over the counted runs since the row was made |
| TrendingStore.AllRunsCount | src/services/trending.service.ts:150-177 | with positive contributions that is over all runs |
| TrendingStore.HashtagsDistinct | src/services/trending.service.ts:160-165 | stored hashtag lists have no duplicates |
| TrendingStore.FromActivitiesToTable | src/services/trending.service.ts:124-280 | from activities of positive age factor to the table: a topic has a row exactly if some run saw it mentioned three times, its columns are the sums over all runs and its score the closed form |
| TrendingRanking.MatchSumStep | src/services/trending.service.ts:75-82 | the reduced match score does not depend on the order of the keys |
| TrendingRanking.RelationLiftsIff | src/services/trending.service.ts:75-85 | without negative weights the 1.5 applies exactly if a matching related topic has positive weight |
| TrendingRanking.PersonalMeans | src/services/trending.service.ts:67-91 | a topic the interests touch counts twice, one they touch only through a related topic of positive weight half as much again, any other once |
| TrendingRanking.RankingSound | src/services/trending.service.ts:67-96 | returned topics are rows of the window with their own personalised scores, sorted |
| TrendingRanking.TwoApproximation | src/services/trending.service.ts:61-96 | a topic not returned scores at most twice each returned one, and at most as much if it is in the window or matches no interest |
| TrendingRanking.RankingLength | src/services/trending.service.ts:93-96 | min(limit, rows) topics come back |
| TrendingRanking.TwoIsReached | src/services/trending.service.ts:61-96 | a window that misses a topic of twice the score of all it holds |
| TrendingRanking.TrendingReader.GetTrendingTopics | src/services/trending.service.ts:35-43 | the best rows by score |
| TrendingRanking.TrendingReader.IsMatch | src/services/trending.service.ts:70-73 | the test over all interests, either text containing the other, ignoring case |
| TrendingRanking.TrendingReader.SumRelated | src/services/trending.service.ts:75-82 | the sum of the weights of matching related topics |
| TrendingRanking.TrendingReader.ScoreTopics | src/services/trending.service.ts:67-91 | every row of the window with its personalised score, in order |
| TrendingRanking.TrendingReader.GetPersonalizedTrendingTopics | src/services/trending.service.ts:48-97 | the general list without interests, otherwise a ranking of some legal window |
| Crypto.Primitives.EncryptWithSymmetricKey | src/e2e-encryption/services/crypto.service.ts:13-33 | the two base64 runs and the appended tag are one envelope, which decodes to the content followed by the tag |
| Crypto.Primitives.DecryptSeal | src/e2e-encryption/services/crypto.service.ts:35-52 | splitting off the tag undoes the framing: the text for its own key, refusal for any other |
| Crypto.Primitives.IdentifierSymmetric | src/e2e-encryption/services/crypto.service.ts:62-65 | the session identifier ignores the order of the users |
| Crypto.Primitives.IdentifierInjective | src/e2e-encryption/services/crypto.service.ts:62-65 | for ids without underscore it determines the pair |
| Crypto.Primitives.IdentifierCollision | src/e2e-encryption/services/crypto.service.ts:62-65 | the assumption on underscores is needed: with them two pairs can share an identifier (generated ids hold none) |
| Crypto.Primitives.SharedKeySymmetricIff | src/e2e-encryption/services/crypto.service.ts:54-60 | both orders give one key if and only if the public keys are repetitions of one word |
| Crypto.Primitives.SharedKeySymmetricIffEqual | src/e2e-encryption/services/crypto.service.ts:54-60 | for keys of one length: if and only if they are equal |
| Crypto.Primitives.SharedKeyTestKeys | src/e2e-encryption/tests/crypto.service.spec.ts:26-34 | the two keys of the service's test give different shared keys in the two orders |
| CryptoExample.LawsCanBeMet | src/e2e-encryption/services/crypto.service.ts:6-66 | the laws asked of hash, cipher and base64 are consistent: a toy instance meets them |
| Conversations.SessionStays | src/e2e-encryption/services/session.service.ts:18-53 | opening a session again, from either side, finds the same row and key |
| Conversations.RunInvariant | src/e2e-encryption/services/session.service.ts:18-53 | over any run stored rows correspond to what was sent and each pair's session row names that pair |
| Conversations.ReadExact | src/e2e-encryption/services/message.service.ts:38-69 | reading returns the pair's texts in order if all were sealed with the key derived now, and fails otherwise |
| Conversations.RunKeyStable | src/e2e-encryption/services/session.service.ts:18-53 | without a change of the pair's public keys everything was sealed with the key derived now |
| Conversations.SendIff | src/e2e-encryption/services/session.service.ts:18-53 | in any run a message can be sent exactly when both users have registered |
| Conversations.LogIsPosted | src/e2e-encryption/services/message.service.ts:20-36 | the log holds exactly what the calls posted: the sends between users registered by then |
| Conversations.BothRead | src/e2e-encryption/services/message.service.ts:20-69 | without a change of the pair's public keys both read exactly what was posted between them, told from the calls alone, in order and with the right sender mark, whoever opened the session |
| Conversations.TwoSides | src/e2e-encryption/services/message.service.ts:58-68 | both see the same texts, each marked as own for exactly one of them |
| KeyChanges.KeyChangeIff | src/e2e-encryption/services/session.service.ts:47-52 | where all exchanged is readable, changing the public key of either keeps it readable if and only if the new key is the old one |
| KeyChanges.FirstKeyChange | src/e2e-encryption/services/session.service.ts:47-52 | the same at the end of any run without an earlier change of the pair's keys |
| KeyChanges.ReadableJointIff | src/e2e-encryption/services/message.service.ts:38-69 | over any run a pair can read if and only if, for every message, both public keys one after the other in the session's order are the text they were when it was sent |
| KeyChanges.ReadableUnderOldKeys | src/e2e-encryption/services/message.service.ts:38-69 | so all can be read whenever both public keys are what they were at every message, of whatever lengths |
| KeyChanges.ReadableIff | src/e2e-encryption/services/message.service.ts:38-69 | over any run, for keys of one length, a pair can read if and only if for every message both public keys are what they were when it was sent |
| Conversations.Messenger.CreateUser | src/e2e-encryption/services/user.service.ts:30-37 | the new user has this public key, all others theirs |
| Conversations.Messenger.UpdatePublicKey | src/e2e-encryption/services/user.service.ts:39-43 | fails exactly for an unknown user and otherwise replaces that key alone |
| Conversations.Messenger.OpenSession | src/e2e-encryption/services/session.service.ts:18-53 | succeeds exactly for two known users; keeps the row of the two if there is one and otherwise adds it in the order asked; the key is the hash of both public keys in the order of the row |
| Conversations.Messenger.SendMessage | src/e2e-encryption/services/message.service.ts:20-36 | succeeds exactly for two known users; then appends one row of this sender and recipient that only the pair's key opens, to this text |
| Conversations.Messenger.GetMessages | src/e2e-encryption/services/message.service.ts:38-69 | returns what ReadResult specifies |
| Gateway.RunInvariant | src/websockets-impl/websockets.gateway.ts:68-153 | at every await point of every interleaving: maps inverse up to disconnects in flight, no empty set, at most one pending timer per socket, the mapped one |
| Gateway.PresenceKeeps | src/websockets-impl/websockets.gateway.ts:68-153 | each step keeps the last presence write right |
| Gateway.RunPresence | src/websockets-impl/websockets.gateway.ts:68-153 | with heartbeats from connected sockets only, the last presence write says online exactly if the user has a socket |
| GatewayPresence.PresenceStepIff | src/websockets-impl/websockets.gateway.ts:68-153 | from right presence a step of any handler goes wrong if and only if it is a heartbeat for a user without a socket |
| GatewayPresence.RunPresenceIff | src/websockets-impl/websockets.gateway.ts:68-153 | over any interleaving the last presence write is right at every await point if and only if no such heartbeat ran |
| Gateway.HeartbeatPresenceIff | src/websockets-impl/websockets.gateway.ts:381-393 | any heartbeat, late or not, leaves the presence right if and only if its user has a socket |
| Gateway.QuietPoint | src/websockets-impl/websockets.gateway.ts:120-153 | with nothing in flight the registered sockets are exactly the live ones |
| Gateway.OvertakenConnect | src/websockets-impl/websockets.gateway.ts:85-117 | a disconnect that overtakes a connect's presence write leaves a timer for a dead socket |
| GatewayTimers.DeadTimerIff | src/websockets-impl/websockets.gateway.ts:431-453 | a step leaves the first timer of a dead socket if and only if it resumes a connect or handles a heartbeat after the socket's disconnect is over |
| GatewayTimers.RunDeadTimerIff | src/websockets-impl/websockets.gateway.ts:68-153 | over any interleaving no entry of a dead socket is kept if and only if no such handler ran |
| GatewayTimers.RunOwnTimers | src/websockets-impl/websockets.gateway.ts:431-445 | over any interleaving no two sockets are mapped to one timer |
| GatewayService.WebsocketsGateway.constructor | src/websockets-impl/websockets.gateway.ts:38-53 | the gateway starts with empty maps |
| GatewayService.WebsocketsGateway.HandleConnection | src/websockets-impl/websockets.gateway.ts:68-100 | adds the socket to its user's sockets and no other, and issues the online write |
| GatewayService.WebsocketsGateway.ResumeConnection | src/websockets-impl/websockets.gateway.ts:100-117 | sets the socket's timer and writes nothing |
| GatewayService.WebsocketsGateway.HandleDisconnect | src/websockets-impl/websockets.gateway.ts:120-153 | takes the socket from its user and no other; with the last one issues the offline write, otherwise leaves nothing of the socket |
| GatewayService.WebsocketsGateway.ResumeDisconnection | src/websockets-impl/websockets.gateway.ts:138-153 | leaves nothing of the socket, no timer either, and writes nothing |
| GatewayService.WebsocketsGateway.HandleHeartbeat | src/websockets-impl/websockets.gateway.ts:381-393 | gives a known socket a new timer and issues the online write; does nothing for an unknown one |
| GatewayService.WebsocketsGateway.SetupTimeout | src/websockets-impl/websockets.gateway.ts:431-445 | afterwards the socket has exactly one pending timer, the mapped one, and every other socket those it had |
| GatewayService.WebsocketsGateway.ClearTimeout | src/websockets-impl/websockets.gateway.ts:447-453 | afterwards the socket has no pending timer, and every other socket those it had |
| GatewayService.WebsocketsGateway.UpdateUserPresence | src/websockets-impl/services/presence.service.ts:15-40 | afterwards the user's last write is this one, and every other user's is what it was |
| OfflineQueue.RunConserves | src/websockets-impl/services/message-queue.service.ts:14-86 | in any run each acceptance of an id ends in exactly one place, an id is occupied at most once, and pending jobs have used fewer than three attempts |
| OfflineQueue.ExactlyOnePlace | src/websockets-impl/services/message-queue.service.ts:14-86 | an id accepted once is pending, drained, published, completed unsent, failed or cleared, and only one of these |
| OfflineQueue.AcceptedAgainOnlyAfterClear | src/websockets-impl/services/message-queue.service.ts:68-86 | only clearing frees an id for another job |
| OfflineQueue.AttemptMeans | src/websockets-impl/processors/message-queue.processor.ts:18-55 | an attempt for an offline user leaves the job in its place with one attempt more, and at the third puts it with the failed ones; for a user online throughout it sends the message out; nothing else changes |
| OfflineQueue.RunTries | src/websockets-impl/services/message-queue.service.ts:28-40 | in any run a job has failed exactly after three attempts in vain since it was accepted, counted event by event, and a waiting one has met fewer |
| OfflineQueue.UnsentIff | src/websockets-impl/processors/message-queue.processor.ts:29-37 | an attempt completes its job without sending if and only if the user goes offline between its two presence reads |
| OfflineQueue.LostIff | src/websockets-impl/services/websockets.service.ts:53-60 | the message then is neither sent, nor waiting, nor failed if and only if the id under which it is queued again is taken; under a free id it waits with all its attempts |
| OfflineQueue.OwnIdLostIff | src/websockets-impl/services/message-queue.service.ts:22-26 | in any run a message with an id of its own is lost by an attempt exactly if the reads are split, its own job being in the way |
| OfflineQueue.RunUnsentIff | src/websockets-impl/processors/message-queue.processor.ts:18-55 | over any run every completed job was handed over if and only if no attempt had split reads |
| OfflineQueue.PrefixTestIff | src/websockets-impl/services/message-queue.service.ts:46-66 | when the id prefix test takes another user's job |
| OfflineQueue.PrefixTestMistakes | src/websockets-impl/services/message-queue.service.ts:46-66 | a pair of user ids for which it does |
| OfflineQueue.TakenExactly | src/websockets-impl/services/message-queue.service.ts:46-86 | with ids of one length a drain takes all and only the user's jobs, in order, and so does clearing |
| OfflineQueue.Queue.QueueMessageForOfflineUser | src/websockets-impl/services/message-queue.service.ts:14-44 | a message for nobody or under an id in the queue is dropped, any other waits at the end, untried, under the user's id, a dash and its own id or the time; conservation is kept |
| OfflineQueue.Queue.GetQueuedMessagesForUser | src/websockets-impl/services/message-queue.service.ts:46-66 | completes the user's pending jobs and returns their messages in order, with ids of one length all and only those |
| OfflineQueue.Queue.ClearQueuedMessagesForUser | src/websockets-impl/services/message-queue.service.ts:68-86 | removes them, with ids of one length all and only those, and returns how many |
| OfflineQueue.Queue.PublishMessage | src/websockets-impl/services/websockets.service.ts:43-68 | queues exactly a user's chat message while the user is offline and sends out any other; conservation is kept |
| OfflineQueue.Queue.ProcessOfflineMessage | src/websockets-impl/processors/message-queue.processor.ts:18-55 | an attempt does what AttemptMeans says; one with split reads completes its job without sending |
| StatusPipeline.Converges | src/status/status.processor.ts:24-91 | after any attempts the status is the highest of the initial one and all that settled |
| StatusPipeline.HighestIsMaximum | src/status/status.processor.ts:44-52 | that is the least upper bound under sent < delivered < read |
| StatusPipeline.FinalStatusIff | src/status/status.processor.ts:44-65 | the status ends at read exactly if it began there or some settled attempt said read, and stays at sent only if none said more |
| StatusPipeline.OrderIrrelevant | src/status/status.processor.ts:24-91 | runs that settle the same statuses, in any order and number, end the same |
| StatusPipeline.HistoryRises | src/status/status.processor.ts:54-65 | whatever crashes, each previousStatus is at least the preceding newStatus |
| StatusPipeline.HistoryChains | src/status/status.processor.ts:54-65 | without a crash between the saves the history is a chain ending at the current status |
| StatusPipeline.HistoryChainsIff | src/status/status.processor.ts:54-65 | over any run the history is a chain ending at the current status if and only if no job that raised the row's status crashed between its saves |
| StatusPipeline.FallsBehindIff | src/status/status.processor.ts:54-65 | the history falls behind if and only if a raising job crashes between its two saves |
| StatusPipeline.OverlappingWorkers | src/status/status.processor.ts:32-58 | two workers that both load first end at the maximum if and only if the later save is not the lower one |
| StatusPipeline.StatusProcessor.ProcessStatusUpdate | src/status/status.processor.ts:24-91 | one job: fails exactly without a row, otherwise the status becomes the maximum and a history row is added unless refused |
| StatusPipeline.MessagesService.CreateMessage | src/status/messages/messages.service.ts:21-54 | one sent row and one queued job per recipient, so every queued job finds its row |
| Patterns.ContinueSound | src/chats/utils/command-parser.ts:13-25 | what the backtracking matcher returns is a match |
| Patterns.ContinueComplete | src/chats/utils/command-parser.ts:13-25 | it finds a match whenever one extends the marks |
| Patterns.SearchCorrect | src/chats/utils/command-parser.ts:13-25 | the search returns a match at the first place that has one, and none only if no place has |
| Patterns.MatchUnique | src/chats/utils/command-parser.ts:13-25 | in an unambiguous pattern a place has at most one match |
| Patterns.ClassMembers | src/chats/utils/command-parser.ts:12-13 | the character classes, character by character |
| CommandParser.ParsedIsWellFormed | src/chats/utils/command-parser.ts:11-36 | whatever is parsed is a well-formed command |
| CommandParser.NoNftInside | src/chats/utils/command-parser.ts:13-22 | no printed ERC20 command matches the NFT pattern at any position, not even for a token called NFT |
| CommandParser.RoundTripErc20 | src/chats/utils/command-parser.ts:24-34 | printing and parsing an ERC20 command gives it back |
| CommandParser.RoundTripErc721 | src/chats/utils/command-parser.ts:13-22 | the same for ERC721 |
| CommandParser.RoundTrip | src/chats/utils/command-parser.ts:11-36 | parse(print(c)) = c for every well-formed command |
| CommandParser.ParseStable | src/chats/utils/command-parser.ts:11-36 | parse(print(parse(m))) = parse(m) for every message that parses |
| CommandParser.ParseDecides | src/chats/utils/command-parser.ts:11-36 | a message is refused exactly if neither form occurs anywhere, and is a token transfer exactly if only that form occurs |
| CommandParser.WrittenForms | src/chats/utils/command-parser.ts:11-36 | both forms as they are written, for any address |
| Recommendations.FirstOfFacts | src/services/recommendation.service.ts:340-440 | skipping what was seen leaves distinct ids and loses no unseen one |
| Recommendations.ContentPoolExact | src/services/recommendation.service.ts:326-447 | the content proposed is exactly that of connections and popular content the user has not interacted with, each once |
| Recommendations.ContentPoolScores | src/services/recommendation.service.ts:350-440 | each proposed piece of content is scored by its first activity and the number of connections engaged in it, or as popular content if there is no activity |
| Recommendations.AddUnseen | src/services/recommendation.service.ts:350-440 | the candidate loop proposes the first unseen element of each id and notes all ids |
| Recommendations.ContentCandidates | src/services/recommendation.service.ts:326-447 | the assembled candidates are the best fifty of the pool |
| Recommendations.ContentCandidatesFacts | src/services/recommendation.service.ts:326-447 | they are distinct and unseen, and what is cut off has fifty at least as good |
| Recommendations.CommunityPoolExact | src/services/recommendation.service.ts:449-562 | the communities proposed are exactly the unjoined ones of connections and interests, each once, with their exact multiplicity |
| Recommendations.CommunityPoolScores | src/services/recommendation.service.ts:462-555 | each proposed community is scored by how many memberships of connections name it, or by interest if none does |
| Recommendations.CountMembers | src/services/recommendation.service.ts:462-490 | the counting loop yields first occurrences and exact multiplicities |
| Recommendations.CommunityCandidates | src/services/recommendation.service.ts:449-562 | the assembled candidates are the best thirty of the pool |
| Recommendations.CommunityCandidatesFacts | src/services/recommendation.service.ts:449-562 | they are distinct, unjoined and carry their multiplicity, and what is cut off has thirty at least as good |
| Recommendations.CosineBound | src/services/recommendation.service.ts:564-583 | the shared number is at most the root of the product of the sizes, with equality for equal sets only |
| Recommendations.EqualInterestsIff | src/services/recommendation.service.ts:564-583 | two users count as having the same interests exactly if each interest of one is, letter case aside, one of the other |
| Recommendations.CalculateInterestSimilarity | src/services/recommendation.service.ts:564-583 | the result is the shared part over the root, between 0 and 1, and 1 exactly for the same non-empty interests |
| RecommendationStore.TextKeyInjective | src/services/recommendation.service.ts:171-178 | the text key determines target and type although target ids may contain dashes |
| RecommendationStore.KeyLookup | src/services/recommendation.service.ts:171-179 | looking a candidate up by its text finds its live row and only that |
| RecommendationStore.InsertableIff | src/services/recommendation.service.ts:158-218 | the insert respects the unique index if and only if no candidate was dismissed before |
| RecommendationStore.StoreExact | src/services/recommendation.service.ts:158-218 | then each candidate has exactly one row with its new score, other rows stay, nothing else is added |
| RecommendationStore.Repository.ExistingMap | src/services/recommendation.service.ts:162-173 | the map holds exactly the user's live rows of the candidates' targets |
| RecommendationStore.Repository.Prepare | src/services/recommendation.service.ts:175-208 | the loop refreshes the live rows and collects the missing ones |
| RecommendationStore.Repository.StoreRecommendations | src/services/recommendation.service.ts:158-218 | fails exactly if a candidate was dismissed before, having saved only the refreshed rows |

## Left out

- Feeds.FeedService.Conditions: the cursor condition at `src/activity/services/feed.service.ts:48-51` has no outer parentheses, so joined to the other conditions its text need not group as intended; the model takes it as one grouped disjunction, the intended reading. `encodeCursor` and `decodeCursor` are not part of this model and are taken to be inverses.
- The order of rows without ORDER BY is insertion order; a LIMIT of zero returns nothing; ILIKE is a case-insensitive substring test or a parameter, without wildcards.
- Comment and reaction ids are their insertion numbers; mentions, edit marks and notifications of comments are not modelled, nor is `findAll`.
- The comment and tip parts of the cached metrics: increments count replies where the fill counts roots, and tips ignore their status, so there is nothing for them to agree with.
- Concurrency inside one connection, reaction or comment call: each is one atomic step. The status processor and the gateway are modelled between their awaits and saves.
- User profiles are fixed during a run of the connection service; `updatedAt`, metadata and the viewer tag of connection rows, visibility checks and `BatchProcessingService` are left out. User ids contain no characters special to a key pattern.
- Floating point and decimal columns: scores are reals without rounding, and a stored score is read back as a number. `Math.exp` is an arbitrary age factor, positive where a lemma says so.
- Topics and reaction types that are names of built-in object properties, such as `constructor`, are treated like any other text.
- The clock: each trending calculation has one time, and a save that changes nothing writes nothing.
- AES-256-GCM (NIST SP 800-38D, sections 7.1 and 7.2), SHA-256 and base64 (RFC 4648, section 4) are parameters with laws; that a foreign key never opens a text and hashes never collide are idealisations.
- Crypto.Primitives.DecryptSeal: says nothing about envelopes that were not made by encrypting; those shorter than a tag are refused.
- Gateway: connects without a verified user, rooms, typing, receipts and explicit presence updates; presence entries do not expire, Redis writes take effect in the order issued, and a timer that fires only disappears, the forced disconnect being an ordinary later event.
- OfflineQueue: removal of old completed and failed jobs by retention counts, expiry clean-up, back-off times, and draining a job while an attempt at it is running.
- StatusPipeline: statuses outside the three of the enumeration and event emission. Jobs for a repeated recipient id all concern its first row.
- CommandParser: an address longer than forty digits is cut off after forty, as in the code; ERC1155 is in the type but never produced.
- Recommendations: relevance scores are abstract functions, metadata and reasons are not stored, people candidates depend on `analyzeSocialGraph`, which is not part of this model. The square root is a parameter.
- TrendingRanking.TrendingReader.GetPersonalizedTrendingTopics: the interests of the user are a parameter; the timeframe argument is unused in the code.
- Subscriptions and the distribution of activities to feeds, controllers, guards, validation, migrations, wallets, transactions, moderation, search and mail would only add single-branch checks.
