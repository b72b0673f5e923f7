# Verified model of the vLLM router core

A Dafny model of the router's stateful cores, with proofs about every input, every run or every
interleaving. `dafny verify dfyconfig.toml` checks the whole project.

**The radix tree** (`src/tree.rs`). One compressed trie shared by many tenants: nodes are split as
texts diverge, every node carries its owners with a recency stamp and a cached tenant, and each
tenant has a recorded size. `RadixNodes` holds the node store, its invariant and the language of a
tenant: all prefixes of the paths of the nodes it owns. `RadixSteps` gives the four elementary
changes, `RadixState` the whole state with its abstract view, `RadixStamps` where owners, stamps
and cached tenants come from, `RadixMatching` the walks, `RadixTraversal` the depth-first search,
`RadixEviction`, `RadixHeap` and `RadixRemoval` eviction and removal. `RadixOps` states each operation
as a step between whole states, `RadixTree` is the class whose methods are proved to make those steps,
and `RadixRuns` speaks about runs of them.
`TreeSpec` is what the tree stands for: a prefix-closed set of strings per tenant. `TreeRuns` speaks
about whole runs, whose steps are the abstract effects that the class methods are proved to have.
`CappedAdmission` interleaves capped inserts of many threads. `Utf8` shows that the byte-level
string helpers agree with the char-level ones on all valid UTF-8.

**The others.** `KvHash`: canonical CBOR and the block hash chain. `CircuitBreakers`: the timed state
machine. `StreamOutput`: first-output tracking between a producer and a consumer. `GrpcReplies`: the
streaming and the collecting reply loop over one worker stream. `GrpcTexts`: what their replies say,
read off the worker messages. `ConsistentHash`: hash ring and
rendezvous. `WasmAdmission`: semaphore, bounded queue and workers. `RequestMetrics`: reference-counted
activity and waiting guards. `TokenizerCache`: single-flight loading. `Options`, `Tenants`, `Bytes`,
`MapSums`, `Counting` and `Text` are small helpers.

Clocks, hashes, the incremental decoder, worker messages, the choice among equal stamps and among
several owners, and the order of thread steps are parameters or free choices, so the results hold
for all of them.

## What the proofs say about the code

- The recorded size of a tenant is always the number of its distinct non-empty strings, so the
  saturating subtraction during eviction never saturates. The recomputed sizes differ from the
  recorded ones in one case only: matching on a tree without owners can put the sentinel tenant
  `empty` on the root, with no recorded size. Eviction takes it away again, although a comment says
  that the root is never evicted (`TreeRuns.SentinelAppears`, `RadixTree.SentinelRecomputed`).
- Eviction is least recently stamped. Over one eviction: if the strings under all nodes of a tenant
  stamped since some tick fit the budget together, all of those nodes survive
  (`RadixEviction.LogKeepsRecent`). Over whole runs: a text stamped for a tenant, by an insert or a
  match, is still held after any further operations, as long as the tenant is not removed and every
  eviction has a budget for the texts stamped for the tenant since (`RadixRuns.StampedTextStays`).
- Being touched is not being stamped: a match stamps only on every eighth tick, so the text matched
  last can be the one evicted (`RadixRuns.UnstampedMatch`).
- The first-output signals of the two gRPC reply paths differ. Collecting signals the first message
  with tokens. Streaming flags a frame only if such a message also puts out a chunk
  (`GrpcReplies.StreamFlags`), so tokens that decode to no text may never be flagged
  (`GrpcReplies.SilentTokens`). `GrpcReplies.SignalsAgreeExactly` says when they agree.
- Streaming stops at the first finishing message, collecting reads on. They always agree on what the
  stream consumed, and on the whole sequence exactly if the rest is inert (`GrpcReplies.AgreeExactly`;
  `GrpcReplies.LateText` is a sequence where it is not).
- A decoder's held-back tail is part of the reply, except when the finishing message carries no token
  ids: its own text then takes the tail's place, although a comment says the tail cannot be dropped.
  `GrpcTexts.DecodedExactly` is the exact condition, `GrpcTexts.DroppedTail` an input with a lossless
  decoder.
- An open circuit's wait is not restarted by failures or forced openings, not even by those recorded
  after the timeout but before the next request (`CircuitBreakers.OpenWait`).
- A WASM caller that holds a permit can still be refused, exactly when the queued requests whose
  callers gave up are at least as many as the free permits and the permit holders outside the queue
  (`WasmAdmission.RefusedExactly`). Without callers giving up it never happens.
- The circuit breaker's comment speaks of limited requests while half-open; the code lets all of them
  through, and it never consults the failure window. The model follows the code.

## Model

| member | source | states |
|---|---|---|
| `RadixTree.Tree.constructor` | src/tree.rs:356-372 | a new tree is valid and stands for no tenant and no string |
| `RadixTree.Tree.Insert` | src/tree.rs:374-539 | the tenant's language grows by exactly the prefixes of the text and no other language changes; the node that ends the text gets the tenant's freshest stamp; every node that was there keeps its path, its cached tenant and all other owners and stamps, a split-off node has those of the one below, the tenant joining with stamp zero; a new leaf is owned and cached for the tenant alone |
| `RadixTree.Tree.InsertStep` | src/tree.rs:405-532 | one round either puts the rest of the text in a new leaf, completing the insert, or moves at least one char further with everything walked so far inserted |
| `RadixTree.Tree.Enrol` | src/tree.rs:381-389 | the tenant owns the root and has a recorded size; that alone adds only the empty string |
| `RadixTree.Tree.AppendLeaf` | src/tree.rs:410-435 | hanging the rest of the text as a leaf completes the insert |
| `RadixTree.Tree.SplitChild` | src/tree.rs:447-474 | a split leaves the insert where it was, languages, sizes and stamps included, and the new node holds the shared chars |
| `RadixTree.Tree.Descend` | src/tree.rs:476-517 | after stepping down, the tenant owns the child and its path is part of the tenant's language |
| `RadixTree.Tree.StampEnd` | src/tree.rs:534-538 | stamping the last node completes the insert of its path |
| `RadixTree.Tree.InsertCapped` | src/tree.rs:541-563 | admitted exactly if the recorded size, which is the number of distinct strings, is below the budget; a refused insert leaves the whole state alone |
| `RadixTree.Tree.PickTenant` | src/tree.rs:606-635 | the cached tenant if it still owns the node, else an owner, the sentinel only if there is none; a stale cache is replaced, nothing else changes |
| `RadixTree.Tree.Touch` | src/tree.rs:637-643 | every eighth tick renews the reported tenant's stamp on the node; no language changes, except that the sentinel appears in a tree without owners |
| `RadixTree.Tree.Report` | src/tree.rs:604-643 | cache and stamp together make the match step that the run results speak about |
| `RadixTree.Tree.PrefixMatchWithCounts` | src/tree.rs:567-655 | returns the length of the longest prefix of the input that any tenant holds, and a tenant that holds it |
| `RadixTree.Tree.PrefixMatch` | src/tree.rs:657-663 | the same as a string; the tenant is an owner also when nothing matched, the sentinel only in a tree without owners |
| `RadixTree.Tree.PrefixMatchTenantCharCount` | src/tree.rs:684-687 | the length of the longest prefix of the input that this tenant holds; changes nothing |
| `RadixTree.Tree.PrefixMatchTenant` | src/tree.rs:666-682 | the longest prefix this tenant holds; only the stamp of the matched node is renewed, and only if the tenant owns it |
| `RadixTree.Tree.EvictTenantBySize` | src/tree.rs:746-849 | terminates; the new state is the old one after a log of removals, each of the least recently stamped leaf of a tenant over budget; in the end every counted tenant fits, and those that fitted keep their strings |
| `RadixTree.Tree.EvictLeaf` | src/tree.rs:796-842 | one removal keeps the tree valid, keeps every leaf of every tenant over budget queued, and leaves fewer ownerships |
| `RadixTree.Tree.RemoveTenant` | src/tree.rs:851-922 | terminates; the tenant is gone from every node and from the recorded sizes; every other tenant keeps its language, and every node it owns keeps path, text, cached tenant and its other owners with their stamps |
| `RadixTree.Tree.TakeOff` | src/tree.rs:883-917 | one round keeps the queue equal to the tenant's leaves |
| `RadixTree.Tree.GetUsedSizePerTenant` | src/tree.rs:933-956 | recomputed sizes are the recorded ones, plus a zero for a sentinel without a record |
| `RadixTree.SentinelRecomputed` | src/tree.rs:933-956 | the tree a match at tick zero leaves of an empty one has a recomputed size that is not recorded |
| `RadixTree.ReportedOwner` | src/tree.rs:606-635 | what a match reports owns the node; the sentinel comes up only at the root of a tree without owners |
| `RadixOps.MatchIsSticky` | src/tree.rs:606-643 | the next match that ends on the same node reports the same tenant |
| `RadixOps.OneInEight` | src/tree.rs:637-643 | of any eight ticks in a row a match stamps at exactly one |
| `RadixTree.NewTextReportsInserter` | src/tree.rs:1129-1149 | right after inserting a text that no tenant held, a match of it reports the tenant it was inserted for |
| `RadixMatching.Walk` | src/tree.rs:568-600 | the walk ends where the matched prefix ends, and no tenant holds a longer one |
| `RadixMatching.WalkTenant` | src/tree.rs:689-721 | the walk restricted to one tenant's nodes ends on the longest prefix it holds |
| `RadixMatching.Round` | src/tree.rs:577-595 | one round of a walk moves on by the shared chars and ends where they end; if the node is not used up nothing longer is stored |
| `RadixMatching.StopsAtNode` | src/tree.rs:596-599 | without a child, or an owned child, for the next char nothing longer is stored |
| `RadixMatching.StopsInside` | src/tree.rs:590-595 | where the text ends or differs inside a node nothing longer is stored |
| `RadixNodes.PathsUnique` | src/tree.rs:238-251 | the root-to-node strings are determined by the nodes |
| `RadixNodes.OnUnique` | src/tree.rs:409-519 | in a well-formed tree a string ends on at most one node |
| `RadixNodes.LangCard` | src/tree.rs:933-956 | the chars of the nodes a tenant owns are as many as its distinct non-empty strings |
| `RadixNodes.LeafExists` | src/tree.rs:723-744 | a tenant that owns a node has a leaf at or below it |
| `RadixSteps.AddLeafWf` | src/tree.rs:410-433 | a new leaf keeps the structure invariant |
| `RadixSteps.AddLeafLang` | src/tree.rs:410-433 | a new leaf adds the prefixes of its path to its owner alone |
| `RadixSteps.AddLeafSize` | src/tree.rs:424-428 | a new leaf adds its text to its owner's size alone |
| `RadixSteps.SplitWf` | src/tree.rs:449-474 | a split keeps the structure invariant |
| `RadixSteps.SplitLang` | src/tree.rs:449-474 | a split leaves every language as it was |
| `RadixSteps.SplitSize` | src/tree.rs:449-474 | a split leaves every size as it was |
| `RadixSteps.StampWf` | src/tree.rs:500-511 | an owner of the parent may be added to a node |
| `RadixSteps.StampLang` | src/tree.rs:500-511 | adding an owner adds the prefixes of the node's path to it alone |
| `RadixSteps.StampSize` | src/tree.rs:500-511 | a new owner is charged the node's text, a renewed one nothing |
| `RadixSteps.DisownWf` | src/tree.rs:804-817 | taking an owner off a leaf, and an empty node out, keeps the structure invariant |
| `RadixSteps.DisownLang` | src/tree.rs:804-817 | only the strings that end on that leaf go, and only for that tenant |
| `RadixSteps.DisownSize` | src/tree.rs:796-805 | only that tenant's size goes down, by the leaf's text |
| `RadixState.CountIsSize` | src/tree.rs:256-257 | the recorded size is the number of distinct non-empty strings |
| `RadixState.ViewConsistent` | src/tree.rs:254-261 | every valid tree stands for prefix-closed languages, and only the sentinel may lack a recorded size, then holding no text |
| `RadixState.RememberInert` | src/tree.rs:612-633 | writing the cached tenant changes neither structure nor languages nor sizes |
| `RadixState.SentinelView` | src/tree.rs:637-643 | the sentinel recorded by a match sits on the root of a tree that holds nothing else |
| `RadixStamps.CarriedSplit` | src/tree.rs:456-474 | a split leaves owners, stamps and cached tenant of every node, and its new node takes over those of the node below |
| `RadixStamps.SplitReaches` | src/tree.rs:447-474 | after a split the insert stands where it stood, with nothing about the tree it has to keep disturbed |
| `RadixStamps.TakeReaches` | src/tree.rs:476-517 | after stepping down the insert stands on the child, whose path is now part of the language |
| `RadixStamps.SettledLeaf` | src/tree.rs:410-435 | completing an insert with a leaf leaves every other node alone; the leaf is owned and cached for the tenant alone |
| `RadixStamps.SettledStamp` | src/tree.rs:534-538 | completing an insert with a stamp changes one stamp on one node, the only one that ends the text |
| `RadixStamps.LeafDone` | src/tree.rs:410-435 | hanging up the rest as a leaf meets the whole specification of an insert |
| `RadixStamps.StampDone` | src/tree.rs:534-538 | so does stamping the node the walk ended on |
| `RadixTraversal.AllNodes` | src/tree.rs:746-754 | the stack traversal visits every node exactly once and ends |
| `RadixTraversal.GetUsedSizePerTenant` | src/tree.rs:933-956 | one entry per owner of anything, holding the text lengths of what it owns |
| `RadixTraversal.LeafOf` | src/tree.rs:723-744 | exactly the tenants that own the node and none of its children |
| `RadixHeap.PopMin` | src/tree.rs:774-775 | an entry with the least stamp, ties open |
| `RadixHeap.CollectLeaves` | src/tree.rs:746-766 | every leaf of every tenant is queued with its stamp |
| `RadixHeap.LeastIsDue` | src/tree.rs:774-794 | an entry that passes the checks is the tenant's least recently stamped leaf |
| `RadixHeap.EvictKeepsQueued` | src/tree.rs:804-842 | after a removal all leaves of tenants over budget are queued again |
| `RadixHeap.EvictStep` | src/tree.rs:796-842 | one round of eviction keeps the invariant and the queue, and leaves fewer ownerships |
| `RadixHeap.OwnershipsShrink` | src/tree.rs:804-805 | every removal leaves fewer ownerships, which bounds the loops |
| `RadixEviction.DueSize` | src/tree.rs:796-802 | the recorded size covers the text taken away, so the subtraction is exact |
| `RadixEviction.DueInv` | src/tree.rs:796-817 | a removal keeps the whole invariant; a counted tenant never loses the root |
| `RadixEviction.DueLang` | src/tree.rs:804-817 | a removal takes exactly the strings on the evicted leaf from that tenant |
| `RadixEviction.LogInv` | src/tree.rs:774-843 | every state of an eviction is valid, and no tenant loses its record |
| `RadixEviction.LogShrinks` | src/tree.rs:774-843 | eviction only shrinks languages |
| `RadixEviction.LogSpares` | src/tree.rs:777-781 | tenants within budget keep language and size |
| `RadixEviction.LogTrims` | src/tree.rs:777-802 | a trimmed tenant's final size plus its last evicted text exceeds the budget |
| `RadixEviction.LogEvicts` | src/tree.rs:774-843 | when the queue runs dry every counted tenant fits, and an uncounted sentinel is gone |
| `RadixEviction.RecentNotDue` | src/tree.rs:774-794 | if the strings under all nodes of a tenant stamped since some tick fit the budget together, none of those nodes is due |
| `RadixEviction.LogKeepsRecent` | src/tree.rs:774-817 | so a whole eviction leaves all those nodes with their stamps and paths, for every tick |
| `RadixEviction.RecentTextsSurvive` | src/tree.rs:774-817 | and the tenant still holds all those strings |
| `RadixEviction.LogKeepsFreshest` | src/tree.rs:774-817 | the freshest node of a tenant is never evicted if its path fits the budget |
| `RadixEviction.InsertThenEvict` | src/tree.rs:374-849 | a text inserted last and no longer than the budget is still held in full after eviction |
| `RadixRuns.RunKeepsRecent` | src/tree.rs:374-922 | in every run a node stamped since a tick stays, at its path and at least as recent, until its tenant is removed or an eviction finds that the strings stamped since do not fit |
| `RadixRuns.StepGrowth` | src/tree.rs:374-922 | an operation adds to the recent strings at most the text it stamps |
| `RadixRuns.CoverMeansSpares` | src/tree.rs:374-922 | budgets that cover the texts stamped since make every eviction of the run spare them, and bound what is recent |
| `RadixRuns.StampedTextStays` | src/tree.rs:374-922 | in every run, from any valid tree, a text stamped by an insert or a match is still held as long as the tenant is not removed and every eviction has a budget for the texts stamped for the tenant since |
| `RadixRuns.UnstampedMatch` | src/tree.rs:637-643 | a run in which the text matched last, without a stamp, is the one evicted, though it alone fits |
| `RadixEviction.LeavesAfter` | src/tree.rs:819-842 | a removal makes no leaf except possibly the parent |
| `RadixEviction.LeavesKept` | src/tree.rs:783-794 | a removal leaves every other leaf a leaf |
| `RadixRemoval.QueueStep` | src/tree.rs:883-917 | the queue is exactly the tenant's leaves after every round |
| `RadixRemoval.TenantLeaves` | src/tree.rs:855-880 | the traversal queues exactly the tenant's leaves |
| `RadixRemoval.RemovedView` | src/tree.rs:882-921 | with no leaf left the tenant is gone and all others are as before |
| `TreeSpec.MatchesAgree` | src/tree.rs:645-687 | the tenant a match reports gets the same length from the match restricted to it |
| `TreeSpec.InsertThenMatch` | src/tree.rs:374-721 | right after an insert both matches find the whole text |
| `TreeSpec.SizeGrowth` | src/tree.rs:541-550 | an insert grows a size by at most the length of its text |
| `TreeSpec.AdmitsExactly` | src/tree.rs:552-560 | admission is decided by the size alone, record or not, zero budget included |
| `TreeRuns.RunConsistent` | src/tree.rs:374-922 | every state of every run is consistent: prefix-closed languages, only the sentinel without a record |
| `TreeRuns.RunProvenance` | src/tree.rs:374-922 | every stored string is a prefix of a text added for that tenant since its last removal |
| `TreeRuns.RunRetains` | src/tree.rs:374-922 | an added text stays with all its prefixes until removal or eviction |
| `TreeRuns.CappedExactly` | src/tree.rs:551-563 | in every run a capped insert adds exactly the prefixes of its text if the tenant is below the budget, else it changes nothing |
| `TreeRuns.SentinelHoldsNoText` | src/tree.rs:612-643 | the sentinel holds no text in any run in which no caller inserts under its name |
| `TreeRuns.SentinelAppears` | src/tree.rs:612-643 | a run in which the sentinel appears without a recorded size and is evicted |
| `CappedAdmission.InsertSafe` | src/tree.rs:555-562 | the stripe keeps every other admission for the tenant away until the insert is done |
| `CappedAdmission.OtherStepSafe` | src/tree.rs:544-550 | eviction, removal and matching in the middle of an admission cannot invalidate it |
| `CappedAdmission.AdmissionBound` | src/tree.rs:541-563 | in every interleaving with eviction, removal and matching no tenant exceeds the budget less one plus the longest text |
| `Text.SharedPrefixCount` | src/tree.rs:320-327 | the chars before the count agree, the next ones differ or one string ends |
| `Utf8.CharsOfEncoded` | src/tree.rs:292-294 | decoding inverts encoding |
| `Utf8.SharedPrefixCountCorrect` | src/tree.rs:296-318 | the byte-level count is the char-level one, on both branches |
| `Utf8.NthCharIndexCorrect` | src/tree.rs:114-117 | hopping by first bytes finds exactly the boundary of the n-th char |
| `Utf8.AdvanceByCharsCorrect` | src/tree.rs:96-118 | drops exactly the first n chars, or all, on every branch |
| `Utf8.TakeCharsCorrect` | src/tree.rs:120-131 | keeps exactly the first n chars, or all |
| `Utf8.SplitAtCharCorrect` | src/tree.rs:172-200 | loses nothing, cuts between chars, both cached counts exact |
| `KvHash.ReadWritten` | src/kv_hash.rs:84-106 | every head is read back, whatever follows it |
| `KvHash.HeadsPrefixFree` | src/kv_hash.rs:84-106 | no head is a proper prefix of another |
| `KvHash.ShortestForm` | src/kv_hash.rs:84-106 | no head that reads as the same value is shorter (section 4.2.1 of RFC 8949) |
| `KvHash.ReadBlockWritten` | src/kv_hash.rs:68-82 | parent and tokens are recovered from every block message |
| `KvHash.DecimalReads` | src/kv_hash.rs:34-37 | the seed text is digits only, has no leading zero, and reads as the seed, first digit weighing most |
| `KvHash.ReadSeedWritten` | src/kv_hash.rs:34-42 | the seed is recovered from the message hashed at the root of every chain |
| `KvHash.SeedIsNoBlock` | src/kv_hash.rs:34-42 | the hashed seed text is never a block message |
| `KvHash.ChunksCount` | src/kv_hash.rs:51-60 | there are as many blocks as full block sizes, each full |
| `KvHash.ChainInjective` | src/kv_hash.rs:51-82 | equal chain digests mean equal block lists, or two distinct byte strings hashed along the chains collide |
| `KvHash.KeysSound` | src/kv_hash.rs:51-82 | equal keys of two token lists mean equal positions and equal tokens up to there, or such a collision |
| `KvHash.KeysStable` | src/kv_hash.rs:49-60 | appending tokens leaves the existing keys unchanged |
| `KvHash.Buffer.EncodeMajor` | src/kv_hash.rs:84-106 | appends the head of the value |
| `KvHash.HashBlock` | src/kv_hash.rs:68-82 | hashes the CBOR array of parent, tokens and null |
| `KvHash.NewGenerator` | src/kv_hash.rs:25-43 | refuses a zero block size and a seed above 32 bits, else starts from the digest of the message the seed is read back from |
| `KvHash.GenerateBlockKeys` | src/kv_hash.rs:49-60 | one key per complete block, key i being the chain digest of the first i + 1 blocks |
| `CircuitBreakers.OpenHolds` | src/core/circuit_breaker.rs:164-181 | without a reset, and until a call that looks at the clock finds the timeout passed, nothing moves an open circuit or restarts its wait; outcomes and forced openings may come at any time |
| `CircuitBreakers.OpenWait` | src/core/circuit_breaker.rs:84-95 | after any such calls, late failures and forced openings included, a request is let in exactly when the full timeout has passed since opening |
| `CircuitBreakers.NoEarlyRequest` | src/core/circuit_breaker.rs:170-181 | a permitted request after opening means the timeout has passed or a reset came |
| `CircuitBreakers.RefusesExactly` | src/core/circuit_breaker.rs:84-95 | a request is refused if and only if the circuit is open and its timeout has not passed |
| `CircuitBreakers.HealthyPermits` | src/core/circuit_breaker.rs:84-168 | in every run without forced openings whose trailing failures stay below the threshold every request is let in |
| `CircuitBreakers.HalfOpenFailureReopens` | src/core/circuit_breaker.rs:160-163 | one failure reopens a half-open circuit and restarts its wait |
| `CircuitBreakers.ForceOpenOpens` | src/core/circuit_breaker.rs:281-284 | a forced opening opens from every state and restarts the wait unless already open |
| `CircuitBreakers.OpenedThen` | src/core/circuit_breaker.rs:183-193 | in every run the clock of an open circuit is the instant it opened, read off the run |
| `CircuitBreakers.TestsCount` | src/core/circuit_breaker.rs:260-272 | a test outcome is a clock check followed by the outcome if that leaves the circuit half-open |
| `CircuitBreakers.TotalsCount` | src/core/circuit_breaker.rs:112-149 | totals and last failure are those of all outcomes of the run |
| `CircuitBreakers.HalfOpenCounts` | src/core/circuit_breaker.rs:183-208 | while half-open the success counter is the number of successes since that state was entered |
| `CircuitBreakers.ClosesOnlyAfter` | src/core/circuit_breaker.rs:112-136 | a call closes the circuit exactly by reset or by completing the required successes since half-open |
| `CircuitBreakers.ClosedCounts` | src/core/circuit_breaker.rs:138-168 | while closed the failure counter is the trailing failure run and below the threshold |
| `CircuitBreakers.OpensAtThreshold` | src/core/circuit_breaker.rs:153-159 | a closed circuit opens by itself exactly when the trailing failures reach the threshold |
| `CircuitBreakers.CircuitBreaker.constructor` | src/core/circuit_breaker.rs:70-82 | starts closed with all counters zero |
| `CircuitBreakers.CircuitBreaker.CanExecuteNow` | src/core/circuit_breaker.rs:84-95 | permits if and only if the circuit was not open or its timeout has passed, and makes the step of the run laws |
| `CircuitBreakers.CircuitBreaker.RecordSuccess` | src/core/circuit_breaker.rs:112-136 | makes the success step of the run laws |
| `CircuitBreakers.CircuitBreaker.RecordFailure` | src/core/circuit_breaker.rs:138-168 | makes the failure step of the run laws |
| `CircuitBreakers.CircuitBreaker.CheckAndUpdateState` | src/core/circuit_breaker.rs:170-181 | goes half-open exactly when open for the full timeout |
| `CircuitBreakers.CircuitBreaker.TransitionTo` | src/core/circuit_breaker.rs:183-223 | a change of state restarts the clock and the counters of the target, no change does nothing |
| `CircuitBreakers.CircuitBreaker.RecordTestSuccess` | src/core/circuit_breaker.rs:260-265 | counts as a success only while half-open |
| `CircuitBreakers.CircuitBreaker.RecordTestFailure` | src/core/circuit_breaker.rs:267-272 | counts as a failure only while half-open |
| `CircuitBreakers.CircuitBreaker.ResetNow` | src/core/circuit_breaker.rs:274-279 | makes the reset step of the run laws |
| `CircuitBreakers.CircuitBreaker.ForceOpenNow` | src/core/circuit_breaker.rs:281-284 | makes the forced-open step of the run laws |
| `StreamOutput.LoadRight` | src/backend/mod.rs:119-126 | a load after taking a frame answers right however far ahead the producer is |
| `StreamOutput.StepKeeps` | src/backend/mod.rs:79-126 | the published index is that of the first generated frame, at most one ahead, after every step |
| `StreamOutput.FirstOutputTracking` | src/backend/mod.rs:54-126 | in every interleaving the answer for a frame is true exactly if it or an earlier one carried generated output, also when a send fails after publishing |
| `StreamOutput.OutputFrames.Send` | src/backend/mod.rs:94-117 | publishes, then enqueues; fails only towards a dropped receiver, and keeps the invariant |
| `StreamOutput.OutputFrames.OnFrame` | src/backend/mod.rs:119-126 | answers whether this or an earlier frame carried generated output |
| `GrpcReplies.Collect` | src/backend/grpc.rs:507-609 | the loop returns the response the laws below speak about, and calls the first-output callback once if a message it gets to carries output, else never |
| `GrpcReplies.SendMessage` | src/backend/grpc.rs:389-448 | one message puts out its chunks in order: stages, content, usage, done, as far as the receiver takes them; it stops the loop only when the receiver is gone |
| `GrpcReplies.Stream` | src/backend/grpc.rs:337-470 | a receiver that goes away after any number of chunks has got exactly that many of the chunks the laws below speak about, one that stays has got all of them |
| `GrpcReplies.StreamEndsOnce` | src/backend/grpc.rs:345-470 | every stream has exactly one end, done or one error, and it is the last chunk |
| `GrpcReplies.StreamRoleOnce` | src/backend/grpc.rs:405-424 | the role is on the first content chunk and on no other |
| `GrpcReplies.PathsAgreeFrom` | src/backend/grpc.rs:345-587 | from any point on, streaming tells what collecting the consumed items tells |
| `GrpcReplies.PathsAgree` | src/backend/grpc.rs:345-587 | for every worker sequence the stream is well shaped and tells the text, finish reason and counts of collecting what it consumed, or an error if that is one |
| `GrpcReplies.WholeSequenceAgrees` | src/backend/grpc.rs:345-587 | for an error-free sequence whose only finishing message is last, the stream ends with done and tells the collected response |
| `GrpcReplies.AgreeExactly` | src/backend/grpc.rs:345-587 | streaming tells the whole collected response if and only if the items after the message it stopped at are readable and bring no text, no other last reason and no other counts |
| `GrpcReplies.InertExactly` | src/backend/grpc.rs:515-587 | collecting on changes nothing in the response if and only if those items are like that |
| `GrpcReplies.LateText` | src/backend/grpc.rs:425-448 | a worker sequence whose text after the finishing message is collected and not streamed |
| `GrpcReplies.StreamFlags` | src/backend/grpc.rs:388-424 | a frame is flagged exactly if some consumed message with output has text, or finishes, or is the first |
| `GrpcReplies.FlagImpliesSignal` | src/backend/grpc.rs:597-609 | a flagged stream means collecting the same items signals too |
| `GrpcReplies.SignalsAgreeExactly` | src/backend/grpc.rs:388-609 | the two signals agree on the consumed items if and only if output there, if any, also shows |
| `GrpcReplies.SilentTokens` | src/backend/grpc.rs:655-659 | a worker sequence for which collecting signals and a completed stream flags nothing |
| `GrpcTexts.WorkerTextReply` | src/backend/grpc.rs:616-653 | where the worker text is preferred or there is no decoder, a complete reply has the texts of all messages in order |
| `GrpcTexts.OwnText` | src/backend/grpc.rs:647-651 | a message without token ids contributes its own text |
| `GrpcTexts.DecoderReply` | src/backend/grpc.rs:624-653 | with a decoder, for outputs with ids up to the finishing message, the text is all that was emitted followed by what was held back, or by the own text of a finishing message without ids |
| `GrpcTexts.DecodedExactly` | src/backend/grpc.rs:634-653 | with a lossless decoder that is the decoding of all ids if and only if the finishing message has ids or its own text is what was held back |
| `GrpcTexts.DroppedTail` | src/backend/grpc.rs:634-651 | a lossless decoder and a sequence for which the tail is lost |
| `GrpcTexts.StreamedText` | src/backend/grpc.rs:388-424 | streaming such a sequence shows the collected text |
| `GrpcTexts.CountsReply` | src/backend/grpc.rs:512-570 | a complete reply counts all tokens up to the 32-bit limit and has the prompt size last named |
| `GrpcTexts.ReplyKind` | src/backend/grpc.rs:515-580 | complete if and only if all items can be read and a reason was named; else the first unreadable item decides between gateway timeout and bad gateway |
| `GrpcTexts.StreamStops` | src/backend/grpc.rs:345-470 | a stream ends with done exactly if a finishing message comes before anything unreadable, else with the error of that item or of the early end |
| `GrpcTexts.OutputMeans` | src/backend/grpc.rs:655-659 | exactly the messages without text, ids and tokens carry no output |
| `GrpcTexts.StagesOnce` | src/backend/grpc.rs:389-404 | the stage timings are shown once if they are wanted and there is text, else never |
| `ConsistentHash.BuildRing` | examples/simulate_consistent_hash.rs:84-94 | the nested loops build the ring the laws below speak about, in which a later colliding node wins |
| `ConsistentHash.RingPoints` | examples/simulate_consistent_hash.rs:87-92 | the points of the ring are exactly those of all virtual nodes of all workers |
| `ConsistentHash.RingOwner` | examples/simulate_consistent_hash.rs:87-92 | a point belongs to the last worker in the list with a virtual node there |
| `ConsistentHash.SelectOnRing` | examples/simulate_consistent_hash.rs:116-123 | the owner of the first point at or after the hash, wrapping around, none on an empty ring |
| `ConsistentHash.NextUnique` | examples/simulate_consistent_hash.rs:116-123 | that point is unique |
| `ConsistentHash.RingThinned` | examples/simulate_consistent_hash.rs:84-94 | without a worker the ring has no new points and keeps all points that were not its own |
| `ConsistentHash.RingDisruption` | examples/simulate_consistent_hash.rs:85-123 | removing a worker moves only the keys that were on it, for any hash and any collisions |
| `ConsistentHash.SelectByScore` | examples/simulate_consistent_hash.rs:124-134 | the loop picks the worker the laws below speak about |
| `ConsistentHash.RendezvousIsLastMaximum` | examples/simulate_consistent_hash.rs:124-134 | that worker has the highest score, and all listed after it score less |
| `ConsistentHash.RendezvousDisruption` | examples/simulate_consistent_hash.rs:124-134 | removing a worker moves only the keys that were on it |
| `WasmAdmission.StepConserves` | src/wasm_middleware.rs:386-405 | free permits plus holders is the capacity, and the queue respects its bound, after every step |
| `WasmAdmission.StepPlaces` | src/wasm_middleware.rs:439-461 | a sent request is in exactly one place: queued, with a worker, or answered once |
| `WasmAdmission.ArrivalExactly` | src/wasm_middleware.rs:386-391 | an arrival is refused if and only if all permits are held |
| `WasmAdmission.FirstInFirstOut` | src/wasm_middleware.rs:393-448 | in every interleaving workers take requests in the order they were sent |
| `WasmAdmission.RunKeeps` | src/wasm_middleware.rs:376-461 | both hold in every interleaving, with or without callers giving up |
| `WasmAdmission.SendAlwaysFits` | src/wasm_middleware.rs:386-400 | without callers giving up queued requests never outnumber holders, and a permit holder always finds room |
| `WasmAdmission.FullMeansCancelled` | src/wasm_middleware.rs:394-405 | a permit holder that finds the queue full finds a given-up request in it |
| `WasmAdmission.RefusedExactly` | src/wasm_middleware.rs:386-400 | a permit holder is refused if and only if the given-up requests in the queue are at least as many as the free permits and the holders outside the queue |
| `WasmAdmission.CancelCanBlockSend` | src/wasm_middleware.rs:386-400 | a run in which a permit holder is refused |
| `RequestMetrics.SubtractSucceeds` | src/metrics.rs:107-124 | the decrement for the last clone of an assigned request never fails |
| `RequestMetrics.GuardDropSucceeds` | src/metrics.rs:111-124 | the decrement of an active guard never fails |
| `RequestMetrics.SetUpOverwritesNothing` | src/metrics.rs:64-75 | enabling the waiting metric overwrites no guard's increment |
| `RequestMetrics.StepKeeps` | src/metrics.rs:35-178 | every atomic step keeps counters and gauges equal to the requests and guards at the matching points |
| `RequestMetrics.RunKeeps` | src/metrics.rs:35-178 | so in every interleaving |
| `RequestMetrics.CountersMeanWhatTheySay` | src/metrics.rs:92-100 | between calls running and waiting, and their gauges, are the assigned requests with a live clone and the active guards |
| `RequestMetrics.ActivityHistory` | src/metrics.rs:143-164 | a request is live with as many clones as were begun or cloned and not dropped, and assigned if and only if a mark has ended |
| `RequestMetrics.RunningMeans` | src/metrics.rs:92-164 | between calls the running counter is the number of requests with a handle and an ended mark, read off the actions |
| `RequestMetrics.MarkedOnce` | src/metrics.rs:149-155 | the counter is bumped at most once for a request |
| `RequestMetrics.MarkGoesThrough` | src/metrics.rs:102-155 | a mark on a live unmarked request can go through and then counts it once |
| `RequestMetrics.GuardHistory` | src/metrics.rs:77-90 | a guard is active until its drop exactly if waiting was enabled before it was made |
| `RequestMetrics.GuardGoesThrough` | src/metrics.rs:77-90 | a guard made while waiting is enabled ends up counted |
| `TokenizerCache.RunKeeps` | src/backend/preprocess.rs:83-104 | in every interleaving only the lock holder loads, and only a key that is not published |
| `TokenizerCache.PublishedStays` | src/backend/preprocess.rs:97-103 | a published frontend is never replaced |
| `TokenizerCache.LoadedAtMostOnce` | src/backend/preprocess.rs:91-103 | each key is loaded successfully at most once |
| `TokenizerCache.SameFrontendForAll` | src/backend/preprocess.rs:83-104 | all successful calls for a key return the same frontend |
| `TokenizerCache.HitReturns` | src/backend/preprocess.rs:88-96 | a check that finds the key published returns what is published |
| `TokenizerCache.NothingMeansFailed` | src/backend/preprocess.rs:83-104 | a call comes back empty only if its own load failed or it was given up |
| `TokenizerCache.LoaderReturns` | src/backend/preprocess.rs:97-103 | the caller whose load succeeded publishes that frontend and returns it |

## Left out

- Locks inside one tree operation: insert, match, eviction and removal are atomic here; only capped admission is stepped through.
- RadixTree.Tree.Insert: the clock belongs to the tree and is unbounded; the source shares one 64-bit counter among all trees.
- RadixTree.Tree.EvictTenantBySize: nodes unlinked from the tree leave the store; that queue entries may still point to them is kept, as stale entries.
- Machine widths of sizes, counters and frame numbers: all are unbounded, except the saturating 32-bit token count and the widths that CBOR depends on.
- Printing of the tree, and its hashing and shard counts: no effect on contents.
- CircuitBreakers.CircuitBreaker.RecordFailure: each call is one atomic step at one instant; the source reads the state before it takes the write lock.
- Chunk formatting, stage timings, response headers and the total token sum of the gRPC replies.
- What the decoder, SHA-256, the ring hash and WASM components compute: they are arbitrary functions here.
- WasmAdmission.RunKeeps: the input size check before admission and worker shutdown are not modelled.
- Model key resolution from environment variables, and pinned test frontends.
- Balance statistics of the hash simulation.
- Service discovery, configuration, token estimation, rate limiting, field-by-field request conversion and the HTTP server: they would only add easy members or depend on code outside these files.
