# Verified model of jj-mesh

jj-mesh replicates jj repositories between machines without a server. This
project models its three protocols in Dafny and proves what they are for:

- **Replication.** A fetcher pulls an operation-log delta, then a pruned git
  object closure, stages both and publishes op heads. Whatever a peer sends and
  wherever a transfer is cut, the stores stay closed and no operation is lost; a
  retry from an honest peer finishes the job; what is listed has its commits
  stored whole; and machines that are caught up agree.
- **Gossip.** Each machine keeps a copy of the mesh: versioned records of
  machines and repos, tombstones, caps, workspace claims. Merging converges
  whatever the order and repetition of messages, stops echoing, ends every fair
  run in agreement, never makes a machine ungossipable, and lets at most one
  machine automate a workspace.
- **Routing.** Announcements are latest-wins over lossy reordering streams, and
  two machines that connect to each other at once keep the same connection.

## Layout

| files | what they hold |
|---|---|
| `Collections`, `Totals`, `Sorted`, `Order`, `Dag` | lists and sets, sums over maps, key order, names, ancestry |
| `GitObjects`, `ClosureWalk`, `ServeGit`, `FetchGit` | the git phase: closure walk, pipelined loose writer |
| `Codec`, `Decoding`, `OpLog`, `ServeOps`, `Sampling` | the op phase: parsing, validation, serving, haves |
| `OpWalks`, `MissingHeads`, `Replica`, `ApplyBatch` | supersession, missing heads, staging, publication, runs with crashes |
| `Fetching`, `Convergence`, `Replication` | whole fetches, retries, and the way from publication to listing |
| `RefMerge`, `Mirror` | merged git refs and the compare-and-swap mirror |
| `Registers`, `Claims`, `MeshModel`, `MeshValid`, `MeshChanges`, `MeshState` | the gossiped state, its changes and its store |
| `RankMaps`, `GossipMerge`, `Remerge`, `EchoStops`, `Gossip`, `Quiescence`, `FairGossip`, `Workspaces` | convergence of the gossip |
| `Inbox`, `Orphans`, `Hub`, `LatestWins`, `Drains`, `Peers` | announcements and connections |

Code that works in place is modelled by classes and loops (`LooseReceiver`,
`RawWriteBatch`, `LocalRepo`, `MeshState`, `MeshStore`, `WorkspaceTasks`,
`Inbox`, `Outbox`, `SyncHub`, `PeerTask`, `GitRepo`, `IdSet`), each method tied
to a function of the old state; the theorems are about those functions.

## Hypotheses

These are stated as preconditions wherever they are used.

- Ids determine content. For git objects one map `u` tells what an id stands for;
  operations that two stores, or a store and what a peer sends it, hold under
  one id are the same (`Agree`, `KeepsIds`), and across several peers' answers one
  map `truth` tells what they are. Ids are numbers; the all-zero id is 0.
- Git ids are well typed (`WellTyped`): a commit names a tree and commits, no
  tree entry names a commit, and a gitlink's id is neither a blob's nor a
  tree's.
- The commit history and the op log have no cycle. For the op log of a replica
  this is an invariant, since operations are written after their parents; for
  the merge of git refs it is a precondition.
- jj answers `haves..wants` and the op walk with the exact range, parents first
  (`IsCommitRange`, `IsOpRange`), and closest common ancestors with the maximal
  common ones (`FindsClosest`).
- A stored object stays stored; a rename is atomic; a file raced into place has
  equivalent content.
- The local endpoint is never paired with itself.
- An honest server has a well-formed op log and index answers as above; that it
  holds what its op log references (`Whole`) is asked only where a fetch is to
  succeed.
- A gossip link is fair when something a machine held after any moment is
  eventually delivered (`Link`), and the caps leave room for both sides.
- The walk budgets and frame caps of the code bound the theorems that need them,
  as stated there.

Four places where the code does less than its wording suggests:

- Documentation calls announcements latest-wins per repo. When a sender forgets
  a repo and registers another one under its name before the retraction is
  sent, the receiver keeps the old heads (`LatestWins.StaleUnderNewId`);
  `LatestWins.UpToDate` gives the exact condition.
- A repeated membership changes nothing exactly when no claims record of another
  machine is wanted and fits the cap (`Remerge.RemergeExact`);
  `Remerge.RemergeChanges` is a state and a membership where one does.
- The fold of several op heads' refs follows the order of the heads: whatever the
  three-way merge of one ref does with equal sides, folding in an op that descends
  from all the ops folded so far need not give its refs
  (`RefMerge.OrderMatters`); `RefMerge.MergedTargets` says ref by ref what it
  gives. It gives them when the closest common ancestors merge to what was folded
  (`RefMerge.UnmovedTakesTheirs`), so always along one line of operations
  (`RefMerge.LineFolds`).
- An op may name the synthesized root view and still be accepted and stored, but
  the view cannot be read to be served (`ServeOps.RootViewUnserved`); an exchange
  succeeds exactly when no op of its range does (`ServeOps.HonestExchange`).

## Model

| member | source | states |
|---|---|---|
| ClosureWalk.ExpandTree | src/repo/transfer/serve.rs:464-509 | One visited tree: gitlinks are skipped, entries equal to some base at their path are skipped, other subtrees are stacked with their bases and unseen blobs are emitted; it succeeds when the server has what it must send |
| ClosureWalk.DiffersExact | src/repo/transfer/serve.rs:480-494 | In trees that name each entry once, an entry is sent or descended into exactly when it is no gitlink and no base holds its id under its name and kind |
| ClosureWalk.SamePathSkipped | src/repo/transfer/serve.rs:487-503 | The subtree of a base at the same path is a base further down, and what it holds there is not sent |
| ClosureWalk.ConflictSideShared | src/repo/transfer/serve.rs:495-503 | A conflict side that no base has at its path is compared with the bases of the whole walk, so what they hold at the same path below is not sent |
| ClosureWalk.NewSubtreeSent | src/repo/transfer/serve.rs:487-503 | A subtree that no base has at its path is compared with nothing, unless it is a conflict side: everything in it but gitlinks is sent |
| ClosureWalk.CarriedIsHeld | src/repo/transfer/serve.rs:487-494 | An entry found under the same id in a tree the fetcher holds is held by the fetcher |
| ClosureWalk.WalkTree | src/repo/transfer/serve.rs:452-512 | The walk ends, emits no id twice nor one already seen, only ids of the root's closure that differ from every base on some path, and afterwards held and emitted objects together are closed and hold the root; a root that is a base is skipped with all below it; it cannot fail on a server holding the closure |
| ServeGit.GatherBases | src/repo/transfer/serve.rs:391-411 | The bases are the first eight distinct trees of the parents, then of the change's other versions; it fails exactly when a parent is missing that is met before eight bases are collected |
| ServeGit.ParentsAreBases | src/repo/transfer/serve.rs:391-424 | Every parent's tree is a base unless a commit has more than eight parents |
| ServeGit.HaveVersions | src/repo/transfer/serve.rs:371-380 | The trees remembered for the haves are ones the fetcher holds completely, and are by change those of the readable haves that carry it, in order |
| ServeGit.VersionTreesExact | src/repo/transfer/serve.rs:371-380 | The trees of a change are exactly those of the commits read that carry its id |
| ServeGit.GatheredCompared | src/repo/transfer/serve.rs:391-411 | The bases of a commit hold its parents' trees and, as far as there is room for eight, the trees of the versions of its change the fetcher has or was sent |
| ServeGit.ServedOrHeld | src/repo/transfer/serve.rs:342-345 | Every ancestor of the wants is in the served range or complete at the fetcher |
| ServeGit.ParentHeld | src/repo/transfer/serve.rs:382-388 | The parent of a served commit is complete at the fetcher or was served earlier |
| ServeGit.WalkGitClosure | src/repo/transfer/serve.rs:354-419 | Every prefix of the stream leaves a complete fetcher store complete; no id twice, nothing outside the wants' closure, only commits of the range and objects that differ, on some path, from the trees of a served commit's parents and of the versions of its change met before; the whole stream brings the wants' full closure; on a complete server it fails exactly when a want is not in the op log |
| FetchGit.LooseReceiver.constructor | src/repo/transfer/fetch.rs:429-440 | A transfer starts with nothing received and the store as it was |
| FetchGit.LooseReceiver.WriteOne | src/repo/transfer/fetch.rs:594-609 | The background writer stores the next object of its chunk when its content hashes to the claimed id, and otherwise stops without storing it |
| FetchGit.LooseReceiver.Await | src/repo/transfer/fetch.rs:455-457 | Waiting for the writer succeeds exactly when the whole pending chunk is truthful, and then the chunk is stored |
| FetchGit.LooseReceiver.Receive | src/repo/transfer/fetch.rs:444-461 | One more object is taken into the chunk; exactly at the chunk limits the previous chunk is awaited first, which fails exactly when it holds a lie, and the chunk becomes the one being written |
| FetchGit.LooseReceiver.Done | src/repo/transfer/fetch.rs:462-470 | The transfer succeeds exactly when every outstanding object is truthful, and then the store holds everything received and nothing else new |
| FetchGit.StoreStaysComplete | src/repo/transfer/fetch.rs:436-458 | Wherever the background writer stands, a served stream leaves the store complete |
| FetchGit.SplitReferenced | src/repo/transfer/fetch.rs:101-121 | The commits requested are exactly the referenced ones the store lacks, the virtual root aside; the haves are the distinct view heads and held references, up to the cap |
| FetchGit.UniqueIsCapped | src/repo/transfer/fetch.rs:118-120 | Removing duplicates and then cutting gives the first distinct ids up to the cap |
| FetchGit.EnsureGitWantsArrived | src/repo/transfer/fetch.rs:226-251 | The check passes exactly when every requested commit is stored |
| FetchGit.ReceiveStream | src/repo/transfer/fetch.rs:424-477 | Whatever a peer sends, a prefix of it is stored; the transfer succeeds exactly when the stream ended and every object hashes to its id, and then all of it is stored |
| FetchGit.GitPhase | src/repo/transfer/fetch.rs:95-158 | A whole git phase with an honest server, cut at any object: the store stays complete, an accepted phase leaves every referenced commit with its whole closure, and an uncut one with a complete server is accepted |
| Codec.IdSet.Add | src/repo/codec.rs:168-172 | A non-empty id is collected, an empty one dropped |
| Codec.IdSet.AddTarget | src/repo/codec.rs:179-207 | A ref target is accepted exactly when it has a value and a native conflict has one more add than removes, and adds every side's commit in any encoding |
| Codec.IdSet.AddRemoteRef | src/repo/codec.rs:211-222 | A remote ref is accepted exactly with odd arity and a known state, and adds every term |
| Codec.IdSet.AddBookmarks | src/repo/codec.rs:91-104 | Bookmarks add their local target and every legacy remote one, each validated |
| Codec.IdSet.AddRemoteViews | src/repo/codec.rs:109-114 | Every bookmark and tag of every remote is collected and validated |
| Codec.IdSet.AddGitRefs | src/repo/codec.rs:115-125 | Git refs add their legacy id and their target; a ref named exactly refs/tags/ is refused |
| Codec.TagCollision | src/repo/codec.rs:131-146 | Tells exactly whether an unmigrated view has both tag refs and tags of the git remote |
| Codec.ParseView | src/repo/codec.rs:82-160 | A view is accepted exactly when jj can read it, and then its heads and references are exactly the non-empty ids it carries, old forms included |
| Codec.ViewIdsExact | src/repo/codec.rs:82-160 | Stated without the structure of the messages: the ids collected from a view are exactly the non-empty ones it names as a head, a working copy, a side of any ref target, a term of a remote ref or in a legacy field |
| Codec.ViewReadsExact | src/repo/codec.rs:82-222 | A view is readable exactly when no target lacks a value, native conflicts have one more add than removes, remote refs are odd and of known states, no git ref is the bare tag prefix and git tags do not collide |
| Codec.ParseOperation | src/repo/codec.rs:36-65 | An operation is accepted exactly with well-sized ids and at least one parent, with exactly the commits of its predecessor records |
| Codec.PredecessorIdsExact | src/repo/codec.rs:36-65 | The ids collected from predecessor records are exactly the non-empty ones they are about or name |
| OpLog.EnsureBatchReachable | src/repo/transfer/fetch.rs:379-405 | The check passes exactly when every op of the batch is an ancestor of a want through links inside the batch |
| OpLog.ReceiveOps | src/repo/transfer/fetch.rs:267-373 | A batch is returned exactly when some Done frame within the cap follows frames that all pass their checks, covers the wants and is reachable; the batch is what those frames carry |
| OpLog.Refused | src/repo/transfer/fetch.rs:286-372 | A frame that fails a check decides: no later Done can make the stream acceptable |
| OpLog.AcceptedOpsDistinct | src/repo/transfer/fetch.rs:332 | No op of an accepted batch appears twice |
| ServeOps.Serve | src/repo/transfer/serve.rs:76-124 | An unknown want is refused; otherwise the frames are Begin, the range with each view before its first op, and Done, unless an op names a view that is not stored: at the first such op the stream breaks off with an error |
| ServeOps.FetcherClosed | src/repo/open.rs:435-463 | What a server knows of a fetcher's ops is closed under parents |
| ServeOps.SentOrHeld | src/repo/open.rs:435-463 | Every ancestor of the wants is sent or stored at the fetcher |
| ServeOps.RangeReachable | src/repo/transfer/fetch.rs:375-378 | A served range passes the reachability check: every op lies on a want's ancestry inside the batch |
| ServeOps.DataAccepted | src/repo/transfer/fetch.rs:298-354 | Every data frame served for a range passes the receiver's checks in order |
| ServeOps.HonestAccepted | src/repo/transfer/fetch.rs:286-366 | The frames an honest server sends are accepted at their Done, and carry exactly the range |
| ServeOps.BrokenOff | src/repo/transfer/fetch.rs:286-372 | A stream a server breaks off is refused as a whole |
| ServeOps.HonestExchange | src/repo/transfer/serve.rs:50-124 | Serving and receiving between honest machines within the frame cap succeeds exactly when no op of the range names the synthesized root view, and the batch, which is the server's own ops and views, holds with the fetcher's store the wants' whole ancestry |
| ServeOps.RootViewUnserved | src/repo/transfer/serve.rs:98-108 | An op naming the root view that is accepted, well formed and cannot be served |
| Sampling.SampleHead | src/repo/transfer/fetch.rs:621-641 | The samples of a head are first-parent ancestors at powers of two only, all of them within the budget, and the walk goes exactly as far as the budget or the chain |
| Sampling.NthIsPath | src/repo/transfer/fetch.rs:625-634 | Following first parents d times arrives at the op the samples call the d-th |
| Sampling.SampleHaves | src/repo/transfer/fetch.rs:617-647 | Haves are sorted, capped, and only heads or samples of heads; with few enough heads all heads are there and each is sampled as far as the budget the heads before it left |
| Sampling.HavesOnChain | src/repo/transfer/fetch.rs:614-616 | Every have lies on the first-parent chain of a head |
| Sampling.ChainIsAncestry | src/repo/transfer/fetch.rs:614-616 | What lies on the first-parent chain of an op is the op or one of its ancestors |
| Sampling.ResentBound | src/repo/transfer/fetch.rs:614-647 | When a single head's first-parent chain meets the server's history at depth k, at most k-1 held ops of the chain are resent |
| OpWalks.SupersededBy | src/repo/transfer/apply.rs:150-182 | Only local heads that are strict ancestors of the want are returned; all of them when the heads are an antichain and the ancestry fits the budget |
| OpWalks.WalkedClosed | src/repo/transfer/apply.rs:167-178 | Skipping the ancestry of a found head misses no other head |
| MissingHeads.MissingHeads | src/repo/open.rs:136-183 | Reports no published head and every unstored one, in announced order, a stored one only after the whole published history was read; exactly the unpublished ones when the published history fits the budget |
| Replica.ApplyKeepsSound | src/repo/write.rs:107-117 | One rename whose references are stored keeps the store closed |
| Replica.AcceptedLands | src/repo/transfer/apply.rs:62-71 | The writes of an accepted batch, whatever peer sent it, can land one by one, each after what it references, if and only if the commits it newly references are stored and no view it adds claims the root's id |
| Replica.ArrivedCovers | src/repo/transfer/fetch.rs:220-251 | Once every commit a batch references is stored, only an object under the root's id keeps the batch from landing |
| Replica.PlanCovers | src/repo/transfer/apply.rs:76-89 | What a plan supersedes really descends to the want in the store |
| Replica.EnvironmentKeeps | src/repo/transfer/fetch.rs:178-184 | Whatever jj writes meanwhile, and any crash, keeps the invariant and every listed op |
| Replica.StepKeeps | src/repo/transfer/apply.rs:41-128 | Every single step of a fetch, of jj or of a crash keeps the stores closed and every listed op listed |
| Replica.NothingLost | src/repo/transfer/apply.rs:76-127 | Over any run of fetches from any peers, crashes and local operations, the ancestors of the op heads never shrink and the invariant holds throughout |
| ApplyBatch.LocalRepo.Rename | src/repo/write.rs:107-112 | One rename adds its object, leaving a stored one alone |
| ApplyBatch.LocalRepo.UpdateOpHeads | src/repo/open.rs:418-429 | An unstored op is refused; otherwise the want is added, then each covered head removed, one file operation at a time, stopping anywhere: once begun, the heads are the old ones and the want without the covered ones done so far |
| ApplyBatch.RawWriteBatch.constructor | src/repo/write.rs:36-41 | A batch starts with nothing staged |
| ApplyBatch.RawWriteBatch.WriteView | src/repo/write.rs:54-72 | A view is staged unless stored; the root view's id is refused |
| ApplyBatch.RawWriteBatch.WriteOp | src/repo/write.rs:47-72 | An op is staged unless stored; the root op's id is refused |
| ApplyBatch.RawWriteBatch.Persist | src/repo/write.rs:78-118 | The staged files are renamed in staging order, up to wherever a crash falls |
| ApplyBatch.WriteBatch | src/repo/transfer/apply.rs:62-71 | Exactly a prefix of the batch's writes, views then ops, lands: none of them exactly when an object claims the root's id, all of them unless a crash comes first |
| ApplyBatch.PrefixSound | src/repo/write.rs:107-117 | Wherever the renames stop, the store is closed |
| ApplyBatch.PlanWants | src/repo/transfer/apply.rs:81-89 | Each want that is not a local head is planned with what it supersedes through validated links |
| ApplyBatch.Stage | src/repo/transfer/apply.rs:41-102 | Staging touches no head; it yields a plan exactly when no object claims the root's id, no crash comes first and every want to publish can be read, and then everything is on disk; a refused batch leaves the stores as they were |
| ApplyBatch.Publish | src/repo/transfer/apply.rs:118-123 | Wants are published one after the other, adds before removals, stopping anywhere; a whole publication leaves exactly the old heads not covered by any want and the wants that no later one covers |
| ApplyBatch.StaysAntichain | src/repo/transfer/apply.rs:76-89 | Fetching keeps the op heads free of heads below others, when the wants are neither below a local head nor below each other and their ancestry fits the walk budget |
| ApplyBatch.OnePublication | src/repo/transfer/apply.rs:115-119 | However far one publication got, nothing listed is lost, and once begun its want is listed |
| ApplyBatch.WholePublication | src/repo/transfer/apply.rs:115-123 | A whole publication loses nothing and lists every want, even one a later want covers |
| ApplyBatch.PublicationKeeps | src/repo/transfer/apply.rs:115-123 | However far a publication of several wants got, nothing listed is lost |
| ApplyBatch.ApplyFetched | src/repo/transfer/fetch.rs:202-218 | A crash after any file operation leaves closed stores and every listed op listed, having written a prefix of the batch; without one the run succeeds exactly when no object claims the root's id and every want is stored or in the batch; then every new want is a head, only local heads below one are gone, and from an antichain within the budget all of them are |
| Fetching.AcceptedAppliable | src/repo/transfer/fetch.rs:158-216 | A batch accepted from any peer can be applied once its commits arrived, and covers the wants |
| Fetching.Fetch | src/repo/transfer/fetch.rs:63-216 | A fetch from any peer, whatever it sends: the stores stay closed, every listed op stays listed, only sent ops and sent objects land, and nothing but git objects lands unless the answer can be taken; without a crash it succeeds exactly when the op frames are accepted, no object claims the root's id, the git stream ends with every object hashing to its id and every referenced commit is then stored; a success replaces the heads below the wants by the wants |
| Fetching.StoredClosure | src/repo/transfer/fetch.rs:95-99 | In a closed store with a complete git store, every commit an op or its view references is stored with its ancestry, trees and blobs |
| Fetching.HavesStored | src/repo/transfer/fetch.rs:611-616 | Every have a fetch names is stored |
| Fetching.SoundExchange | src/repo/open.rs:136-183 | The invariant of a repo is what sampling, serving and the head walk need, so none of them can fail on a sound repo |
| Fetching.HonestFetch | src/repo/transfer/fetch.rs:63-216 | A fetch from an honest machine, its git stream cut at any object and a crash falling anywhere, keeps both stores closed and every listed op listed; uncut, from a server that has what its op log references, it succeeds, lists every want and replaces the heads below them |
| Convergence.CheckHeads | src/repo/open.rs:136-183 | On a sound repo the check never fails; within the budget every announced head it leaves out is listed, and when all are listed it reports none |
| Convergence.Retry | src/repo/transfer/fetch.rs:178-184 | A retry finishes the job: from any sound state, whatever earlier crashes left in it, handling an announcement of an honest peer with the fetch not cut short lists every announced head, and none is reported missing afterwards |
| Convergence.PublishedNotReported | src/repo/open.rs:152-176 | A published op is never reported again, whatever happens later |
| Convergence.SameAncestry | src/repo/transfer/mod.rs:1-20 | Two stores agree on the ancestry of an op both hold |
| Convergence.CaughtUpLists | src/daemon/repos/task.rs:470-488 | A machine that lists every head of another lists every op the other lists |
| Convergence.CaughtUpStays | src/repo/transfer/apply.rs:76-127 | A machine caught up with announced heads stays so over any run |
| Convergence.SameListing | src/daemon/repos/task.rs:433-488 | Two machines caught up with each other list the same operations |
| Convergence.Converged | src/daemon/repos/task.rs:292-323 | Machines joined by a chain of pairs caught up with each other list the same operations |
| Decoding.Decode | src/repo/transfer/fetch.rs:298-323 | A received payload becomes the frame the validation sees: malformed exactly when its id has the wrong length or jj cannot read it, else with its links and exactly the commits it names |
| Decoding.EveryIdArrived | src/repo/transfer/fetch.rs:407-419 | Once the commits of an accepted batch arrived, every id in every view of it, in every encoding, names a stored commit |
| Decoding.EveryPredecessorArrived | src/repo/transfer/fetch.rs:407-419 | And so does every id in the predecessor records of its operations |
| Replication.DrainedIsListed | src/daemon/repos/task.rs:433-450 | An announcement handed out in a pass that left its slot drained has all its heads listed |
| Replication.PublicationListed | src/daemon/hub/mod.rs:1-12 | From publication to listing: once a machine's last announcement of its heads arrived, was accepted, and a pass of the receiving task left nothing of it waiting, the receiver is caught up with those heads, and stays so whatever happens to its repo |
| Replication.HonestStepKeeps | src/repo/transfer/serve.rs:384-388 | Every step in which git objects arrive as a prefix of an honest stream keeps the git store complete and the op log referencing commits |
| Replication.NothingDangles | src/repo/transfer/serve.rs:384-388 | Over any run of honest fetches, cut and crashed at will, every listed operation is stored with its view, and every commit either references is stored with its ancestry, trees and blobs |
| Replication.RetriableAnywhere | src/repo/transfer/fetch.rs:178-184 | Wherever a run of fetches, crashes and local operations left a repo, a retry may start from it |
| RefMerge.ClosestSmaller | src/repo/transfer/mirror.rs:138-154 | Several closest common ancestors have strictly fewer ancestors than the ops being folded |
| RefMerge.Merge | src/repo/transfer/mirror.rs:143-175 | The recursive fold ends and computes the merged refs, each op against the merge of its closest common ancestors with those before it |
| RefMerge.MergedTargets | src/repo/transfer/mirror.rs:143-175 | Folding in one more op, each ref becomes the three-way merge of its targets in the refs so far, in the merged base and in the op; it fails exactly when the merge of the ops so far or of the closest common ancestors does |
| RefMerge.ClosestOfAncestor | src/repo/transfer/mirror.rs:151-152 | An op below one already folded is its own only closest common ancestor |
| RefMerge.AncestorAbsorbed | src/repo/transfer/mirror.rs:143-175 | Folding in an ancestor of an op already folded leaves the merged refs unchanged |
| RefMerge.UnmovedTakesTheirs | src/repo/transfer/mirror.rs:157-168 | When the closest common ancestors merge to what was folded so far, folding in the op gives its refs |
| RefMerge.DescendantWins | src/repo/transfer/mirror.rs:143-175 | Folding in a descendant of all that was folded gives its refs, when what was folded amounts to one of those ops, the top one |
| RefMerge.LineFolds | src/repo/transfer/mirror.rs:143-175 | Ops each descending from the one before fold to the refs of the last |
| RefMerge.OrderMatters | src/repo/transfer/mirror.rs:143-175 | A fork whose join, folded in after both sides, does not give its own refs, for a three-way merge that meets both laws |
| Mirror.GitRepo.EditReferences | src/repo/transfer/mirror.rs:288-291 | A transaction applies all its edits when every expectation holds and none otherwise |
| Mirror.GitRepo.UnpinHeads | src/repo/transfer/mirror.rs:321-374 | Every HEAD on the branch is detached at its commit or parked on the deleted placeholder; refused exactly when one cannot be resolved |
| Mirror.ApplyMoves | src/repo/transfer/mirror.rs:285-291 | The transaction moves the branch, the HEADs on it and the placeholder, and no other ref |
| Mirror.MoveKeepsHead | src/repo/transfer/mirror.rs:313-320 | A moved branch leaves what every HEAD resolves to, and an unborn HEAD unborn |
| Mirror.MoveExpected | src/repo/transfer/mirror.rs:376-394 | The stored form a swap expects matches exactly when the ref is at its before value |
| Mirror.GitRepo.SwapOne | src/repo/transfer/mirror.rs:264-294 | A ref moves exactly when its transaction does not fail, it is at its before value and its HEADs can be unpinned |
| Mirror.GitRepo.Swap | src/repo/transfer/mirror.rs:238-297 | The pass is one transaction per name in order, each moving its ref exactly when it does not fail, the ref is then at its before value and the HEADs on it can be taken off; nothing else moves but HEADs, which resolve to what they did: no conflict, no ref jj does not import, no invalid name; a ref that is not symbolic moved only from its before value at the start |
| Mirror.GitRepo.StoredRefs | src/repo/transfer/mirror.rs:202-228 | Every imported ref is read as stored when that is what the hint gives, peeled otherwise, skipped when it reaches no commit |
| Mirror.GitRepo.Heal | src/repo/transfer/mirror.rs:98-105 | On an owned repo one pass of transactions from the refs as stored to the merged view; of plain refs and without failures every resolved imported ref ends equal to the merged view; a repo already in line is not edited, so a second heal edits nothing |
| Mirror.GitRepo.Run | src/repo/transfer/mirror.rs:71-94 | A publication's pass: from the stored refs, or the merged refs of the heads as they were, to the merged refs of the heads not superseded and every want, transaction by transaction; it fails exactly when a merge of ops it needs does |
| Replication.MirrorsPublication | src/repo/transfer/mirror.rs:71-94 | The heads the mirror merges are the heads the publication leaves, when no want is covered by another one |
| Registers.RecordsRanked | src/config/state/membership.rs:124-134 | Version, then removal, then the smaller name or id is a strict total order |
| Registers.RecordTies | src/config/state/membership.rs:121-174 | Which record wins: the higher version, in a tie the removal, else the value first in string order |
| Registers.NextVersion | src/config/state/membership.rs:71-79 | The next version is one higher and below the ceiling, refused exactly next to it |
| Registers.BumpedVersion | src/config/state/membership.rs:58-65 | A record under the bumped version outranks the stored one whatever it says |
| Registers.ClaimsRanked | src/config/state/claims.rs:107-116 | Version, then the smaller claims is a strict total order: a listing determines its claims |
| Registers.ClaimTies | src/config/state/claims.rs:107-116 | Which claims win a tie: at the first difference the earlier repo, then the smaller list of names, then the shorter claims |
| Order.FirstDifference | src/config/state/membership.rs:121-129 | Strings compare at their first difference, a proper prefix first |
| Order.SortedAscending | src/config/state/membership.rs:40-46 | Ordered collections are read in ascending order |
| Order.PlainNames | src/config/name.rs:18-58 | A name of printable ASCII is valid exactly when it has 1 to 64 characters; one with a control character never is |
| Order.ByteLenAdds | src/config/name.rs:21-24 | The length of a name is counted in encoded bytes, character by character |
| Claims.Count | src/config/state/claims.rs:52-54 | The count is the sum of the sizes of the claims |
| Claims.Set | src/config/state/claims.rs:70-91 | The repo's claims become the given names, other repos keep theirs, and a changed record outranks the old one by one version |
| Claims.SetExact | src/config/state/claims.rs:70-91 | Claims are accepted exactly when nothing changes, or the changed record is valid and the version can rise; then the repo has exactly the names, others keep theirs and the version is one higher on change |
| Claims.SetKeepsValid | src/config/state/claims.rs:85-88 | A set record is valid and below the ceiling |
| Claims.ReleaseFails | src/config/state/claims.rs:70-91 | Releasing claims fails exactly when there are some and the version is next to the ceiling |
| Claims.Observe | src/config/state/claims.rs:96-103 | Our claims keep their content and, below the ceiling, equal or outversion the copy; a copy that agrees and is no newer changes nothing |
| MeshModel.ObserveMachine | src/config/state/machine.rs:54-61 | Our record keeps its name and, below the ceiling, equals or outversions an alive copy; a copy that agrees and is no newer changes nothing |
| MeshState.MeshState.From | src/config/state/mod.rs:50-66 | A state holds the given value |
| MeshState.MeshState.AddPeer | src/config/state/mod.rs:225-245 | Pairs a machine or changes nothing, as `MeshChanges.AddPeerEffect` states |
| MeshState.MeshState.RenameMachine | src/config/state/machine.rs:24-31 | Renames or changes nothing, as `MeshChanges.RenameEffect` states |
| MeshState.MatchesNamed | src/config/state/mod.rs:271-283 | The matches of a name are exactly the alive peers of that name, each once |
| MeshState.MeshState.ResolvePeer | src/config/state/mod.rs:270-294 | The peer is resolved exactly to the only alive peer of the name or, when no peer has it, to the alive endpoint of that id; an error otherwise |
| MeshState.MeshState.RemovePeer | src/config/state/mod.rs:255-265 | Tombstones the resolved alive peer and prunes its claims, exactly when one is resolved whose version can rise; changes nothing otherwise |
| MeshState.MeshState.PruneClaims | src/config/state/mod.rs:487-491 | Keeps exactly the claims of alive peers |
| MeshState.MeshState.AddRepo | src/config/state/mod.rs:300-324 | Registers a repo or changes nothing, as `MeshChanges.AddRepoEffect` states |
| MeshState.MeshState.UnregisterRepo | src/config/state/mod.rs:364-370 | Unregisters and releases claims; a failed release is ignored |
| MeshState.MeshState.RemoveRepo | src/config/state/mod.rs:331-351 | Tombstones the name and unregisters it here, or changes nothing; tells whether it was registered |
| MeshState.MeshState.ForgetRepo | src/config/state/mod.rs:356-361 | Unregisters here only |
| MeshState.MeshState.SetClaims | src/config/state/mod.rs:151-156 | Sets the claims of a registered repo or changes nothing, as `MeshChanges.SetClaimsEffect` states; an unregistered one is left unclaimed |
| MeshState.MeshState.RepoClaimsOf | src/config/state/mod.rs:127-147 | Our names, under each other name exactly the alive claimants in endpoint order, and a limit whose subtraction never underflows |
| MeshState.ClaimantsExact | src/config/state/mod.rs:127-138 | Under a name exactly the alive machines whose held record claims it on the repo are listed |
| MeshState.MeshState.MembershipDiffers | src/config/state/mod.rs:387-393 | The cheap comparison tells exactly whether the gossiped membership differs |
| MeshState.MeshState.MergePeerRecords | src/config/state/mod.rs:413-431 | Peer records merge in endpoint order as the model says |
| MeshState.MeshState.MergeRepoRecords | src/config/state/mod.rs:433-452 | Repo records merge in name order; the names returned are exactly those unregistered |
| MeshState.MeshState.MergeClaims | src/config/state/mod.rs:459-484 | Claims merge against a running count that never underflows, then prune |
| MeshState.MeshState.MergeMembership | src/config/state/mod.rs:411-455 | The merged state is the model's and valid, and the repos returned are exactly those unregistered |
| MeshState.MeshStore.constructor | src/daemon/store.rs:36-56 | A store starts with its state saved and nothing broadcast |
| MeshState.MeshStore.Commit | src/daemon/store.rs:104-124 | Nothing is committed when the save fails; a changed membership is broadcast, and nothing else |
| MeshState.MeshStore.MergeMembership | src/daemon/store.rs:77-83 | The merge is committed unless it changes something and the save fails; a merge that changes nothing is silent, and a broadcast happens exactly when the gossiped membership changed |
| MeshValid.MergeKeeps | src/config/state/mod.rs:411-484 | Whatever a peer sends, the merged state keeps the caps, the version ceiling, claims only of alive machines and registered names live |
| MeshValid.AddPeerKeeps | src/config/state/mod.rs:225-245 | Pairing keeps the state valid |
| MeshValid.RenameKeeps | src/config/state/machine.rs:24-31 | Renaming keeps the state valid |
| MeshValid.RemovePeerKeeps | src/config/state/mod.rs:255-265 | Removing a peer keeps the state valid |
| MeshValid.AddRepoKeeps | src/config/state/mod.rs:300-324 | Adding a repo keeps the state valid, ids and paths distinct |
| MeshValid.RemoveRepoKeeps | src/config/state/mod.rs:331-351 | Removing a repo keeps the state valid |
| MeshValid.ForgetRepoKeeps | src/config/state/mod.rs:356-361 | Forgetting a repo keeps the state valid |
| MeshValid.SetClaimsKeeps | src/config/state/mod.rs:151-156 | Setting claims keeps the state valid |
| MeshValid.ReachableValid | src/config/state/mod.rs:225-491 | Every state reachable from the default one by changes and merges is valid |
| MeshValid.Gossipable | src/net/sync.rs:108-136 | A valid state's membership passes all five counts every receiver checks |
| MeshValid.NoUnderflow | src/config/state/mod.rs:140-141 | In a valid state the subtractions of the claim limits never underflow |
| MeshValid.DiffersExactly | src/config/state/mod.rs:373-393 | Two valid states gossip the same membership exactly when the five compared fields agree |
| MeshChanges.AddPeerEffect | src/config/state/mod.rs:225-245 | When pairing is refused, exactly; the new record is alive, outranks any tombstone, and nothing else changes |
| MeshChanges.RenameEffect | src/config/state/machine.rs:24-31 | When a rename is refused, exactly; it carries the name under the next version, or the same version when nothing changes, and touches nothing else |
| MeshChanges.RemovePeerEffect | src/config/state/mod.rs:255-265 | The tombstone outranks the alive record, the claims go, nothing else changes; refused exactly next to the ceiling |
| MeshChanges.RemoveRepoRefused | src/config/state/mod.rs:331-340 | A removal is refused exactly when the name is not live or next to the ceiling |
| MeshChanges.RemoveRepoEffect | src/config/state/mod.rs:331-351 | The tombstone outranks the record, the repo is unregistered and its claims released below the ceiling, claims on others stay, nothing else changes |
| MeshChanges.AddRepoEffect | src/config/state/mod.rs:213-221 | When registering is refused, exactly; a live name keeps its id, paths and ids stay unique, the new record outranks any tombstone, and nothing else changes |
| MeshChanges.ForgetRepoEffect | src/config/state/mod.rs:353-361 | Forgetting is refused exactly for an unregistered name; it leaves the mesh list as it is, the name live, releases the claims on the repo below the ceiling and touches no others |
| MeshChanges.RemovalReaches | src/config/state/mod.rs:253-254 | A machine with no higher record drops a removed peer and its claims once it merges the remover's membership |
| MeshChanges.PairingReaches | src/config/state/mod.rs:223-224 | A re-paired machine is alive again wherever only the tombstone was held |
| MeshChanges.RenameReaches | src/config/state/mod.rs:247-251 | A rename replaces every copy no higher than the old own record |
| MeshChanges.RepoRemovalReaches | src/config/state/mod.rs:444-451 | A removed repo is unregistered wherever no higher record is held |
| MeshChanges.LimitExact | src/config/state/mod.rs:140-146 | The limit handed to a repo task is exactly how many valid names the store accepts on the repo |
| MeshChanges.SetClaimsEffect | src/config/state/mod.rs:151-156 | When claims on a registered repo are accepted, exactly: no change, or valid names that fit the machine's cap below the ceiling; the repo then has exactly those names, others keep theirs, the version rises by one on change |
| RankMaps.AdoptAllGrows | src/config/state/membership.rs:84-94 | Adopting only raises records or adds keys, each as held or as offered |
| RankMaps.AdoptAllAbsorbs | src/config/state/membership.rs:84-94 | Afterwards no offered record would be adopted |
| RankMaps.AdoptedIsJoin | src/config/state/mod.rs:400-404 | With room for all keys, adopting an offer is the pointwise rank maximum |
| RankMaps.JoinAlgebra | src/config/state/membership.rs:1-7 | The join is commutative, associative and idempotent |
| GossipMerge.MergeParts | src/config/state/mod.rs:411-455 | The peers, own record and mesh list of a merge, each from its own part of the membership |
| GossipMerge.DeliveriesBest | src/config/state/mod.rs:398-410 | Within the caps any run of deliveries ends in the rank maximum of what was held and delivered, and the highest own version needed |
| GossipMerge.OrderIrrelevant | src/config/state/mod.rs:398-410 | Within the caps the order and repetition of deliveries do not matter |
| GossipMerge.Relayed | src/config/state/mod.rs:398-410 | A membership carrying the join of two others is as good as both |
| Remerge.PeersSettled | src/config/state/mod.rs:411-452 | Merging the same membership again leaves peers, own record and mesh list |
| Remerge.FittingChanges | src/config/state/mod.rs:466-481 | A claims record that is wanted and fits changes the state |
| Remerge.RemergeExact | src/config/state/mod.rs:459-491 | A second merge of the same membership changes nothing if and only if no other machine's claims in it are wanted and fit |
| Remerge.RemergeChanges | src/config/state/mod.rs:459-491 | A valid state and a membership for which a second merge changes what the first one left: the claims are full when a lower endpoint's record is read, and a higher one then releases its own |
| Remerge.RemergeSilent | src/config/state/mod.rs:459-491 | A merge that refused no claims for lack of room changes nothing when repeated |
| EchoStops.MergeUses | src/daemon/store.rs:72-76 | Every merge that changes a state strictly uses up a bounded amount of change |
| Gossip.GossipStops | src/daemon/store.rs:72-124 | With no local change, every infinite run of deliveries and rebroadcasts, lost, repeated and reordered at will, stops changing any machine |
| Quiescence.QuietAbove | src/config/state/mod.rs:411-452 | A delivery that changes nothing means everything gossiped is held at least as high |
| Quiescence.SettledAgree | src/config/state/mod.rs:373-455 | Two settled machines hold the same mesh list and the same record of every third machine |
| Quiescence.PathAgreesOnRepos | src/config/state/mod.rs:373-455 | Machines joined by a settled path hold the same mesh list |
| Quiescence.PathAgreesOnPeer | src/config/state/mod.rs:373-455 | Machines joined by a settled path avoiding a third machine hold the same record of it |
| Quiescence.OwnRecordWins | src/config/state/machine.rs:39-61 | An alive copy at a settled neighbour is the machine's own record, below the version ceiling |
| Quiescence.OwnNameWins | src/config/state/machine.rs:39-61 | Wherever such a path reaches, an alive copy of a machine carries its own name and version |
| Quiescence.ClaimsAgree | src/config/state/mod.rs:459-484 | Two settled machines alive to each other, with room and below the ceiling, hold exactly each other's claims |
| FairGossip.LinkIsQuiet | src/daemon/store.rs:62-85 | Once a run changes nothing any more, what a link keeps delivering changes nothing |
| FairGossip.FairRunAgrees | src/daemon/store.rs:62-85 | With no local change, every run in which neighbours keep reaching each other comes to rest, and machines joined by such links then hold the same mesh list and the same record of every machine off the path |
| Workspaces.FindWorkspaces | src/daemon/repos/task.rs:667-715 | What is claimed keeps what was held and still named, adds only valid, unclaimed, main or current workspaces within the limit, and all of them unless the limit is reached; a peer's claim always shows, a held name is claimed otherwise, and the remaining states say why not |
| Workspaces.RequestedOnce | src/daemon/repos/task.rs:377-393 | The claims of a scan that are not the recorded ones are the last update; the same claims are not sent twice, none are sent when they are recorded, and a pending request counts as held |
| Workspaces.WorkspaceTasks.Start | src/daemon/repos/task.rs:409-427 | Every automated workspace gets a task, newly started; running ones keep theirs |
| Workspaces.WorkspaceTasks.Track | src/daemon/repos/task.rs:369-428 | After a scan exactly the workspaces on disk that this machine claims and no peer does have tasks, the unfinished ones the same tasks as before, others newly started; one update with the claims is sent exactly when they are neither recorded nor pending |
| Workspaces.AutomatedExact | src/daemon/repos/task.rs:395-428 | A workspace is automated exactly when it is on disk, recorded as ours and claimed by no peer |
| Workspaces.RunsOwn | src/daemon/repos/task.rs:395-408 | A running task's name is recorded as ours and claimed by no peer |
| Workspaces.ScanAccepted | src/daemon/repos/task.rs:377-393 | The store accepts and records a scan's claims on a registered repo exactly when they are the recorded ones or fit the limit below the version ceiling; they fit when no earlier request is pending |
| Workspaces.OneMachineAutomates | src/daemon/repos/task.rs:395-428 | Once claim gossip between two machines alive to each other has settled and both rescanned, they run no task for the same workspace name of a repo |
| Inbox.Inbox.constructor | src/daemon/hub/inbox.rs:22-28 | An inbox starts empty |
| Inbox.Inbox.Advance | src/daemon/hub/inbox.rs:76-83 | A slot is replaced exactly when the new sequence is higher |
| Inbox.Inbox.Offer | src/daemon/hub/inbox.rs:42-53 | An announcement is stored undrained and notified exactly when newer |
| Inbox.Inbox.Retract | src/daemon/hub/inbox.rs:63-72 | A retraction advances the watermark and clears the heads |
| Inbox.Inbox.Forget | src/daemon/hub/inbox.rs:56-58 | A lost connection drops the peer's slot |
| Inbox.Inbox.Drain | src/daemon/hub/inbox.rs:106-121 | Every undrained announcement is handed out once, watermarks kept |
| Inbox.WaitingExact | src/daemon/hub/inbox.rs:106-121 | What is handed out is exactly the undrained slots as they stand |
| Inbox.KnownExact | src/daemon/hub/inbox.rs:88-95 | Exactly the peers with announced heads are known, each once with its last ones |
| Inbox.Inbox.Requeue | src/daemon/hub/inbox.rs:128-137 | A failed announcement waits again only while its sequence is current and drained |
| Inbox.Inbox.Snapshot | src/daemon/hub/inbox.rs:88-95 | The known heads of every peer, drained or not, retractions left out |
| Inbox.RequeueYields | src/daemon/hub/inbox.rs:123-137 | A requeue never moves a watermark and never overrides a newer announcement |
| Hub.Outbox.PushAnnounce | src/daemon/hub/outbox.rs:39-46 | An announcement replaces the one pending for its name and nothing else |
| Hub.Outbox.PushMembership | src/daemon/hub/outbox.rs:48-51 | The pending membership is replaced |
| Hub.Outbox.PushStatus | src/daemon/hub/outbox.rs:53-56 | The pending status report is replaced |
| Hub.Outbox.Pop | src/daemon/hub/outbox.rs:61-74 | The membership goes first, then the status, then announcements by name; what is taken is removed and nothing else |
| Hub.NextIsDue | src/daemon/hub/outbox.rs:61-74 | Taking the next message takes the first one due and leaves the rest due, and nothing is taken exactly when nothing is due |
| Hub.DueExact | src/daemon/hub/outbox.rs:61-74 | What is due is exactly what is pending, each message once: membership, then status, then announcements by name |
| Hub.RunSender | src/daemon/hub/outbox.rs:78-90 | The sender sends everything due in order until nothing is pending; a connection that fails at one message loses that one and leaves the rest due |
| Hub.SyncHub.Broadcast | src/daemon/hub/mod.rs:86-90 | Every connected peer's queue gets the announcement, replacing the one pending for the name |
| Hub.SyncHub.RegisterRepo | src/daemon/hub/mod.rs:147-174 | A registration gets a fresh inbox and no published heads; the orphans of its name are taken, and exactly those under another id become its conflicts |
| Hub.SyncHub.Publish | src/daemon/hub/mod.rs:255-272 | Under the registered id only: the next shared sequence is stamped, cached and queued to every peer |
| Hub.SyncHub.UnregisterRepo | src/daemon/hub/mod.rs:222-249 | The last announcements of the peers become orphans of the name under its id, each peer's up to its cap of names, nothing else does; a published repo is retracted to every peer under the next sequence |
| Hub.SyncHub.ForgetPeer | src/daemon/hub/mod.rs:96-103 | A peer's slots and conflicts are dropped from every repo, its orphans everywhere, and nothing else changes |
| Hub.SyncHub.PeerConnected | src/daemon/hub/mod.rs:310-341 | A fresh queue replays the membership, status and exactly the published repos as last published; all the previous connection taught is dropped and nothing else |
| Hub.SyncHub.Route | src/daemon/hub/mod.rs:370-421 | A newer retraction always replaces the slot, a newer announcement only under the registered id; another id becomes the peer's conflict and any other announcement ends it; of an unregistered name an announcement becomes an orphan, within the peer's cap, and a retraction drops it |
| Hub.SyncHub.PeerDisconnected | src/daemon/hub/mod.rs:346-362 | A disconnected peer loses its queue and all it taught, and nothing else changes |
| Hub.SyncHub.CloneSources | src/daemon/hub/orphans.rs:97-135 | A clone resolves exactly when a connected peer announces the name and all that do agree on its id, to that id and each one's heads |
| Orphans.RememberedExact | src/daemon/hub/orphans.rs:41-56 | Remembering touches that peer's entry for that name only, is refused exactly for a new name of a peer at its cap, and keeps every peer within it |
| Orphans.DroppedExact | src/daemon/hub/orphans.rs:59-80 | Dropping an entry, a peer or a name touches nothing else and leaves no empty name |
| Orphans.KnownHeld | src/daemon/hub/mod.rs:222-236 | Of the announcements remembered in turn, each peer with room for the name has its own held |
| Orphans.Resolve | src/daemon/hub/orphans.rs:99-135 | The id every connected announcing peer agrees on, with each one's heads; an error when there is none or they disagree |
| Orphans.RejoinsUncontested | src/daemon/hub/mod.rs:147-174 | A repo unregistered and registered again under its id is contested by nobody |
| LatestWins.StepKeeps | src/daemon/hub/inbox.rs:42-137 | Every send, arrival, drain and requeue keeps the slot at the highest accepted announcement |
| LatestWins.LatestWins | src/daemon/hub/mod.rs:1-12 | At any point of a connection the slot is the highest-sequence accepted announcement that arrived, and drains hand out heads in sequence order |
| LatestWins.UpToDate | src/daemon/hub/mod.rs:255-421 | With everything sent and arrived the slot is the sender's last announcement if and only if the receiver accepts it |
| LatestWins.StaleUnderNewId | src/daemon/hub/outbox.rs:39-46 | A run in which a coalesced retraction leaves the heads of a forgotten repo in the slot |
| LatestWins.PushAnnounces | src/daemon/hub/mod.rs:237-271 | A publish or an unregistration announces its name under a higher sequence and leaves other names' queued announcements |
| LatestWins.PopSends | src/daemon/hub/outbox.rs:61-74 | Taking a message sends the name's queued announcement or leaves it |
| LatestWins.ReplayIsFresh | src/daemon/hub/mod.rs:310-341 | A new connection starts from the replayed announcements |
| Drains.HandleAnnounce | src/daemon/repos/task.rs:454-508 | A malformed announcement is dropped; otherwise what it names and the repo lacks is fetched, and unless that failed every announced head is listed; one whose heads are all listed is idle; it fails only when the check, the connection, the apply or the answer to a fetch of some of its heads did |
| Drains.DrainAnnouncements | src/daemon/repos/task.rs:433-450 | Every waiting announcement is handled in turn, as `Drains.HandleAnnounce` states of the repo as it then is, while others arrive, are retracted or forgotten; it tells whether one was fetched and whether one failed, which none did when nothing stood in the way; what did not fail has all its heads listed, within the walk budget |
| Drains.ListedIsIdle | src/daemon/repos/task.rs:433-488 | An announcement whose heads were all listed when the pass began is idle and leaves the repo alone, if the op log can be read |
| Drains.CleanPass | src/daemon/repos/task.rs:433-450 | When nothing stood in the way of any announcement, none failed and no retry is due |
| Drains.ReceivedLatest | src/daemon/hub/inbox.rs:42-83 | Of all that a peer's current connection brings while announcements are handled, the highest sequence stays |
| Drains.FailedWaitAgain | src/daemon/repos/task.rs:440-446 | While the peer's connection lasts, after a pass a failed announcement waits again and a handled one does not, unless a newer one of the same peer waits or a retraction came |
| Peers.PeerTask.constructor | src/daemon/peers.rs:214-232 | A task starts holding and awaiting nothing |
| Peers.PeerTask.RouteInbound | src/daemon/peers.rs:166-182 | An accepted connection is queued exactly when fewer than four wait |
| Peers.PeerTask.ResolveDuplicate | src/daemon/peers.rs:386-402 | The lower id keeps its own dial and closes the new connection; otherwise the held one is closed for the new one |
| Peers.PeerTask.Adopt | src/daemon/peers.rs:294-304 | A waiting connection is adopted as accepted |
| Peers.ConsumedHeldOrClosed | src/daemon/peers.rs:280-418 | Over every run, each connection a side consumed is the one it holds or is closed |
| Peers.TieBreakSparesLower | src/daemon/peers.rs:387-390 | A tie-break between connections dialed by opposite sides closes the higher id's, on either side, so never both |
| Peers.LowerKeepsItsDial | src/daemon/peers.rs:340-365 | The lower id never closes a live connection it dialed for one it accepted |
| Peers.BothHoldTheSame | src/daemon/peers.rs:387-402 | Live connections on both sides with nothing waiting or on its way are the same one |
| Peers.AgreementIsStable | src/daemon/peers.rs:370-418 | A connection both sides hold stays held by both, and open unless the network loses it, through every step of either side, while nothing else waits or is on its way |

## Left out

- Network and tasks (QUIC streams, timeouts, permits, tokio): deliveries, losses,
  closes and aborts are steps of the models or parameters of methods.
- Compression, protobuf decoding and packfiles: payloads are decoded records; a
  pack is ingested all or nothing by git, and only the loose transfer is
  modelled object by object.
- jj and gix internals: commit index answers, op walks, closest common ancestors
  and the three-way merge of one ref are given their contracts.
- The commit metadata import and the commit index build between staging and
  publication: best effort or jj's own, and visible to no property here.
- Id lengths and prefix lookups outside the codec: an id is a number.
- The order of orphan announcements: the code does not compare their sequences, so
  nothing latest-wins holds of them.
- Streams that outlive their connection, and requeues of announcements drained
  before a reconnect: sequences restart, so the theorems are per connection.
- Status reports, pairing tickets, control socket, file watchers, logging:
  input and output, or easy.
- A ref transaction reads and commits at once: a racing git command between the
  two is a failed transaction here; racing edits between transactions of one
  pass are not modelled in the HEAD theorem. Symbolic refs are followed to any
  depth.
- A mesh state file edited by hand: the gossip theorems start from states reached
  by the daemon itself.
- When a machine adopts a waiting connection: the two-sided model lets it do so
  whenever it holds none, while the code makes the lower id wait for a backoff.
- Canonical paths: the path given to `AddRepo` is taken as resolved.
- The inbox a repo task shares with the hub is one object; the locks around it
  are not modelled.
- Mirror.GitRepo.Heal: the equality is proved for repos whose imported refs are
  not symbolic and reach commits; what it does to others is what
  `Mirror.GitRepo.Swap` states.
- Peers.AgreementIsStable: one step from a moment when nothing waits or is on its
  way; a dial given up meanwhile may still reach the other side.
- Fetching.Fetch: the request it sends is not modelled, since the answer is
  arbitrary; `HonestFetch` models it, haves and missing commits included.
- Drains.HandleAnnounce: what a peer would answer is a function of the wants asked
  of it.
- Drains.FailedWaitAgain: a peer forgotten during the pass is not covered, since
  its sequences restart.
- Gossip.GossipStops: no local change happens during the run; a local change
  starts a new run.
- MeshState.MeshStore.Commit: the file format of the saved state is not
  modelled, only whether saving succeeded.
