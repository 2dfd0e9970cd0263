# Verified models of Harbor's stateful core

The project models the parts of Harbor that keep shared state or translate between
forms, and proves what they promise over whole graphs and whole runs.

- **The artifact store** (`Registry`, `Collection`, `Removal`, `Replay`, `ArtifactStore`,
  `DeleteExamples`, `Repository`, `RepositoryExamples`, `StoreRuns`, `TagRace`, `Walk`, `Scan`, `Copy`). Artifacts,
  reference rows, accessory rows and tags form a mutable graph. The recursive delete is proved
  to reach a least fixpoint over that graph, and to do what a recursive function of the store
  and the order of rows says; the backlog loop of the repository delete to leave what hangs on
  itself, and at most that and what hangs on tagged and listed accessories; the walk to visit exactly what is reached; the copy to keep the
  destination closed under references; and runs of operations never to lose an immutable tag.
- **The quota protocol** (`QuotaOps`, `QuotaProtocol`, `QuotaRequests`, `QuotaExamples`). Any number of
  callers update one row under an optimistic lock with retries. Every interleaving is
  linearizable; over requests, usage is conserved.
- **The proxy cache** (`ProxyCache`, `ProxyPush`). A step system of remote retags, cache
  fills and pulls, and the loops that push lists, manifests and blobs in the background.
- **The bounded runner** (`Runner`). A token protocol with cancellation.
- **Link headers and paging** (`Text`, `Links`, `Query`, `Paging`). A printer and a parser
  that undo each other exactly on well-formed links, and a paging server and client on top.

`Int64` holds 64-bit wrap-around, `Wrappers` the option type and `Sets` two facts about sets. Code that updates stored
rows or loops over variables is a class or a method with invariants; concurrent code is a
step system whose runs are sequences of states.

What the proofs found where a plain reading would expect more:

- The foreign key violation that `deleteDeeply` guards against never happens. A delete may
  fail with "not found" although its artifact exists: one accessory took another one of the
  same subject with it before the row of that one came
  (`DeleteExamples.SecondSignatureIsMissing`); the other order of rows succeeds
  (`BothSignaturesGo`). It fails so only if two accessories of something collected hang
  together in that order (`Tangled`), certainly if the first takes the second as the store
  stands (`Clash`), and exactly then when accessories of one artifact share nothing below them
  (`Separate`). Between the two the outcome depends on the schedule
  (`DeleteExamples.FailsWithoutClash`).
- What a successful delete removes lies between two least sets: the collectable set, and the
  set closed but for tagged children (`Surely`). They agree unless a tagged hard accessory is
  also listed by an index; there the order of rows decides
  (`DeleteExamples.TaggedSignatureStays`, `TaggedSignatureGoes`).
- Deleting a repository never ends when a listed artifact is in a knot, a set whose members
  hang on each other: an index whose subject is the tagged image it lists
  (`RepositoryExamples.DeleteKnotted`). Without the tag the call succeeds and both remain.
- It may also never end without any knot, on an acyclic store, when a tagged accessory is
  listed by an index and itself lists a tagged image; the order of two rows decides whether the
  repository is emptied or the loop repeats (`RepositoryExamples.DeleteTorn`).
- A reservation whose sum overflows 64 bits slips under a limit
  (`QuotaOps.OverflowingReserve`); non-negativity holds exactly when no sum overflows. Usage is conserved modulo 2^64 in every
  case, and exactly when the sum is a 64-bit number. After such an overflow a rollback can take
  usage far above the limit (`QuotaExamples.RollbackPassesTheLimit`).
- The version of a quota row comes back after 2^63 updates; a stale caller then matches it.
- `Wait` of the runner may return nil although a task never ran, after `Cancel(nil)`.
- The last page carries a "next" link exactly when the end of its range exceeds 64 bits; a
  client following it fails. On a path with a comma or a semicolon the header is lost and a
  client stops after the first page.
- A scan check counts accessories of the root only if the caller loaded them, and the answer
  can depend on that (`Scan.LoadedRootDecides`).
- The copy ensures tags at every level of the recursion; the comment in the source
  (src/controller/artifact/controller.go:646) says outermost only. The model follows the code.
- On a cycle of references and accessories among what is missing the copy never succeeds,
  however deep the recursion may go; without one it needs at most one level more than there
  are missing artifacts.

## Model

| member | source | states |
|---|---|---|
| Collection.CollectedFixpoint | src/controller/artifact/controller.go:427-489 | beside the root the least set holds exactly what becomes collectable once it is gone |
| Collection.SettledStep | src/controller/artifact/controller.go:455-489 | a further removal on a store where nothing but tagged children is left to collect leaves it so |
| Collection.ClosedTwice | src/controller/artifact/controller.go:417-514 | two removals, each leaving nothing to collect but tagged children, leave nothing else together |
| Collection.SurelyIsCollected | src/controller/artifact/controller.go:427-489 | the least set closed but for tagged children is closed so, lies inside the collectable set, and equals it where no hard accessory in that is both tagged and listed |
| ArtifactStore.Store.Delete | src/controller/artifact/controller.go:386-412 | all or nothing; on success exactly the rows of the removed artifacts go, each has a trash record, each was a child or hard accessory of a removed one, integrity stays, no immutable tag is lost, and the removed set lies between what surely goes and what is collectable, which agree unless a tagged accessory among it is listed; what stays although collectable is tagged and listed; it succeeds if nothing immutable is collected and no accessories are tangled, fails with not found on a clash, exactly then on separate stores, and always does what the replay over the row order says; it is refused for an attestation exactly when the artifact has an in-toto row whose subject is stored |
| ArtifactStore.Store.DeleteDeeply | src/controller/artifact/controller.go:417-447 | the recursion ends on every graph, skips missing, tagged and still referenced children, reports only an unreferenced root's failures, and agrees with the replay |
| ArtifactStore.Store.Remove | src/controller/artifact/controller.go:449-541 | past the early exits: success is a justified cascade from this artifact that leaves artifacts under removal further up alone; failure names an immutable tag the cascade would take |
| ArtifactStore.Store.DeleteHardAccessories | src/controller/artifact/controller.go:455-472 | after the loop every hard accessory is gone or still listed by an index, and what else went was due |
| ArtifactStore.Store.DeleteChildren | src/controller/artifact/controller.go:474-489 | after the loop all references of the index are cut and every child that lost its last parent is gone with its own cascade |
| ArtifactStore.Store.Erase | src/controller/artifact/controller.go:491-541 | tags first, then references and artifact row, then the trash record; stops only at an immutable tag, never at a foreign key |
| ArtifactStore.Store.DeleteArtifactRow | src/pkg/artifact/dao/dao.go:168-187 | the row goes with its reference rows, unless a reference, tag or accessory row still names it |
| ArtifactStore.Store.DeleteTag | src/controller/tag/controller.go:216-234 | a tag that is immutable, as seen through its artifact, is refused |
| ArtifactStore.Store.DeleteTags | src/controller/tag/controller.go:236-244 | removes exactly the given tags or stops at the first immutable one |
| Removal.JoinDerived | src/controller/artifact/controller.go:455-489 | a cascade made one level down joins the cascade of the caller, each member collectable in turn |
| Removal.DerivedIsJustified | src/controller/artifact/controller.go:417-541 | whatever was collected in turn hung directly on something removed |
| Removal.ChildSettled | src/controller/artifact/controller.go:474-489 | cutting one reference and deleting its child leaves nothing collectable |
| Removal.Finish | src/controller/artifact/controller.go:491-541 | the last writes turn the settled state into the store without the whole cascade |
| Removal.ClashKept | src/controller/artifact/controller.go:455-472 | a clash between two accessories of something still to be removed survives every removal that succeeds before it |
| Removal.TangledIsClash | src/controller/artifact/controller.go:455-472 | where accessories of one artifact share nothing below them, hanging together in row order is the same as one taking the other |
| Replay.RowsUnique | src/controller/artifact/controller.go:455-489 | an order that tells rows apart leaves one way to load them, so the replay is a function of store and order |
| DeleteExamples.SecondSignatureIsMissing | src/controller/artifact/controller.go:455-472 | two signatures, the first an index listing the second: in that row order the delete of the image fails with not found |
| DeleteExamples.BothSignaturesGo | src/controller/artifact/controller.go:455-472 | in the other row order all three artifacts go |
| DeleteExamples.TaggedSignatureStays | src/controller/artifact/controller.go:435-489 | an index lists an image and its tagged signature: image first leaves the signature behind |
| DeleteExamples.TaggedSignatureGoes | src/controller/artifact/controller.go:435-489 | signature first removes everything |
| DeleteExamples.FailsWithoutClash | src/controller/artifact/controller.go:455-489 | the delete can fail with not found although no accessory would take the other as the store stands |
| Repository.OthersWait | src/controller/repository/controller.go:153-178 | a delete takes no other waiting artifact |
| Repository.KnotStays | src/controller/repository/controller.go:153-178 | a delete collects inside the repository and nothing in a knot |
| Repository.NeverTangled | src/controller/repository/controller.go:153-178 | where no two accessories of one artifact outside every knot hang together no delete of the loop fails with not found |
| Repository.AfterDelete | src/controller/repository/controller.go:153-178 | after each delete nothing collectable is left but tagged children, no immutable tag is lost and nothing in a knot is gone |
| Repository.RestIsRetained | src/controller/repository/controller.go:153-178 | once every waiting artifact is listed, what remains holds the greatest knot and lies inside the greatest loose knot, in which torn accessories need no hold |
| Repository.BoundsMeet | src/controller/repository/controller.go:153-178 | what must stay and what may stay are the same if and only if every tagged and listed hard accessory is in a knot |
| Repository.Pass | src/controller/repository/controller.go:153-178 | a pass that removes nothing leaves the same rows and the same store, all rows listed; any other pass that does not fail removes an artifact |
| Repository.DeleteRepository | src/controller/repository/controller.go:144-180 | for every valid store the removed artifacts go with exactly their rows, without an immutable tag, by a sequence of replayed deletes; if no accessory row crosses the border of the repository, what remains lies between what must and what may stay, the loop ends when no listed artifact may stay and never ends when one must, an immutable tag on what surely goes makes it fail and, unless accessories hang together, only one on what can go does; in a smooth repository both bounds are one and the outcome is exact |
| Repository.PlainIsSmooth | src/controller/repository/controller.go:144-180 | unlisted accessories with one row each make a repository smooth |
| Repository.RankedHasNoKnot | src/controller/repository/controller.go:144-180 | references and accessories without a cycle leave no knot; then nothing may stay if and only if no hard accessory is both tagged and listed |
| Repository.NoKnotHasRank | src/controller/repository/controller.go:144-180 | without a knot references and accessories follow a rank |
| RepositoryExamples.DeleteKnotted | src/controller/repository/controller.go:153-178 | on an index whose subject is the image it lists the loop removes nothing and never ends when the image has a tag |
| RepositoryExamples.TornStoreHasNoKnot | src/controller/repository/controller.go:153-178 | a store without cycles and without a knot, with one tagged and listed accessory |
| RepositoryExamples.DeleteTorn | src/controller/repository/controller.go:153-178 | on that store the loop never ends when the row of the image comes first, and empties the repository when the row of its signature does |
| StoreRuns.EnsureTag | src/controller/tag/controller.go:81-146 | creates or repoints, refuses an invalid name or an immutable tag, and keeps every immutable tag |
| StoreRuns.EnsureArtifact | src/controller/artifact/controller.go:237-312 | creates the row with one reference per child and links every accessory candidate, exactly when it is new, its children are distinct and there, and the candidates are there; else nothing is written; keys stay unique and children older |
| StoreRuns.EnsureAccessory | src/pkg/accessory/manager.go:73-93 | the artifact becomes an accessory by one new row unless it is one; immutable tags and integrity stay |
| StoreRuns.Run | src/controller/tag/controller.go:216-275 | over every run of tag and artifact operations an immutable tag is neither repointed nor removed, store integrity holds, only a delete removes artifacts, and an attestation whose subject is stored goes only in a delete of another artifact on which it hung |
| TagRace.RunInv | src/controller/tag/controller.go:81-146 | in every interleaving of concurrent ensures there is at most one row, its target was asked for or original, and every call that returned got its ID |
| TagRace.SuccessIsTrue | src/controller/tag/controller.go:81-146 | in every interleaving, when a call returned success the row it returned named its artifact at some time since it arrived |
| TagRace.RowsAnswerCalls | src/controller/tag/controller.go:106-146 | a row appears or changes only to what a call returning at that moment asked for, and appears only under a valid name |
| TagRace.WhyFailed | src/controller/tag/controller.go:94-146 | a call fails only for an invalid name, a missing artifact, or a tag that named another artifact and was immutable since it arrived |
| TagRace.CallGoesOn | src/controller/tag/controller.go:81-146 | no call is stuck, whatever the others did |
| TagRace.ImmutableNameHasOneWinner | src/controller/tag/controller.go:94-113 | for an immutable name the first row stays for the rest of the run and only calls for its artifact succeed |
| ArtifactWalk.Expand | src/controller/artifact/controller.go:747-787 | queues exactly the successors whose digest was not walked |
| ArtifactWalk.VisitStep | src/controller/artifact/controller.go:730-788 | one visit keeps the frontier: what is reached is visited or behind the queue |
| ArtifactWalk.CloserToEnd | src/controller/artifact/controller.go:730-788 | each turn walks a new digest or drops a queue entry walked before |
| ArtifactWalk.Walk | src/controller/artifact/controller.go:724-791 | ends on cyclic graphs; visits only what is reached, all of it when it completes, and completes if and only if the callback neither breaks nor fails on anything reached |
| ArtifactWalk.ReachedIsPath | src/controller/artifact/controller.go:730-788 | what the walk reaches is what lies at the end of a path of reference and accessory rows along which the callback continued |
| Scan.Collect | src/controller/scan/base_controller.go:182-231 | reports scannable if and only if the tree, with the accessories loaded for the root, holds a supported artifact without unscannable layers; keeps exactly what is to be scanned at the end of a path of rows that passes through nothing scannable |
| Scan.CollectFinds | src/controller/scan/base_controller.go:182-231 | what the collection skips hides nothing scannable |
| Scan.CollectIsClear | src/controller/scan/base_controller.go:182-231 | the collection goes on below everything but what is scannable |
| Scan.TreeIsPaths | src/controller/scan/checker.go:66-124 | the tree a check looks at is what any path of rows leads to |
| Scan.CheckExact | src/controller/scan/checker.go:66-124 | the check breaks exactly when the tree holds something supported |
| Scan.Checker.IsScannable | src/controller/scan/checker.go:66-124 | the answer is that of a checker without caches |
| Scan.Checker.IsAccessory | src/controller/scan/checker.go:126-137 | the cached answer is the looked up one and the cache stays true |
| Scan.Checker.HasUnscannableLayer | src/controller/scan/checker.go:139-151 | the cached answer is the looked up one and the cache stays true |
| Scan.CheckAll | src/controller/scan/checker.go:66-149 | any sequence of calls answers each as if nothing were cached |
| Scan.CollectAndCheck | src/controller/scan/base_controller.go:182-231 | on one store, if the collection reports scannable so does the checker; they differ exactly when everything supported has an unscannable layer |
| Scan.LoadedRootDecides | src/controller/scan/checker.go:66-124 | accessories loaded with the root can change the answer of the checker |
| Copy.Target.CopyDeeply | src/controller/artifact/controller.go:574-663 | every registry copy is new and made after its children and accessories were there; a present artifact is not copied again; what is new was needed, and comes with what it needs and its tags; a failure is explained |
| Copy.Target.Copy | src/controller/artifact/controller.go:565-572 | on success exactly the missing part below the artifact is copied, each once, children and accessories first, and the artifact has its tags even if it was there before; a present artifact fails if and only if an immutable tag of it names something else; on failure the destination is still closed under references and a refused manifest or an immutable tag is the reason; a repeated copy makes no registry copy; on a cycle among what is missing it never succeeds, and without one a recursion deeper than the number of missing artifacts is never needed |
| Copy.Target.EnsureArtifact | src/controller/artifact/manifest/index.go:83-99 | a row is created only when every child is in the destination |
| Copy.Target.EnsureTags | src/controller/tag/controller.go:81-146 | all tags end up on the artifact, or an immutable tag names something else; no other tag moves |
| Copy.NoCycleHasRank | src/controller/artifact/controller.go:593-634 | without a cycle among what is missing the recursion has a measure |
| Copy.CycleNeverCopied | src/controller/artifact/controller.go:593-634 | nothing of a cycle that was missing is ever copied |
| Copy.CycleHasNoRank | src/controller/artifact/controller.go:593-634 | with such a cycle it has none |
| QuotaOps.ReserveStaysNonNegative | src/controller/quota/controller.go:485-495 | an accepted reservation leaves no negative amount if and only if no sum overflows |
| QuotaOps.OverflowingReserve | src/pkg/quota/types/resources.go:92-107 | a request that overflows is accepted far above the limit |
| QuotaOps.ApplySafe | src/controller/quota/controller.go:485-527 | no operation leaves negative usage, and only a refresh that ignores limits lifts usage above a limited value |
| QuotaOps.RollbackUndoesReserve | src/controller/quota/controller.go:485-507 | rolling back a reservation is never refused and restores every amount |
| QuotaOps.ReserveOutcome | src/controller/quota/controller.go:485-495 | resource by resource, when a reservation is accepted and what is then stored, unlimited resources included |
| QuotaOps.RollbackOutcome | src/controller/quota/controller.go:497-507 | resource by resource, when a rollback is accepted and what is then stored |
| QuotaProtocol.EnteredIsStored | src/controller/quota/controller.go:485-527 | one accepted operation keeps the stored amount equal to the booked one modulo 2^64; a refresh stores its count |
| QuotaProtocol.VersionsRepeat | src/pkg/quota/dao/dao.go:290-296 | a version read earlier matches again if and only if the writes since are a multiple of 2^63 |
| QuotaProtocol.WriteStep | src/pkg/quota/dao/dao.go:173-227 | a write that matches its version applies the operation to the usage as stored, so no update is lost |
| QuotaProtocol.RunInv | src/controller/quota/controller.go:219-255 | along every run the stored usage is the last of the written ones and every caller's copy is one of them |
| QuotaProtocol.Linearizable | src/controller/quota/controller.go:219-361 | in every interleaving in which no write comes 2^63 writes after its read, the acknowledged operations, each once, applied one at a time in an order that respects real time give the stored usage |
| QuotaProtocol.UsageIsBooked | src/controller/quota/controller.go:219-527 | in every run, refreshes included, the stored amount of each resource is, modulo 2^64, what the acknowledged operations add up to |
| QuotaProtocol.BookedSinceRefresh | src/controller/quota/controller.go:363-383 | of these only the count of the last refresh and the reservations and rollbacks after it matter |
| QuotaProtocol.AckedIsReal | src/controller/quota/controller.go:219-255 | every acknowledgement is one call of that client, which asked for the operation, began and ended when it says |
| QuotaProtocol.CallGoesOn | src/controller/quota/controller.go:219-361 | no call is stuck: it can go on without giving up, whatever the others do |
| QuotaProtocol.ShortRunIsFresh | src/pkg/quota/dao/dao.go:290-296 | in a run of at most 2^63 steps no write comes 2^63 writes after its read |
| QuotaProtocol.UsageStaysSafe | src/controller/quota/controller.go:363-527 | in every interleaving of reserve, rollback and refresh without an overflowing reservation stored usage is never negative, and only a refresh that ignores limits lifts it above a limited value |
| QuotaProtocol.NeverNegative | src/controller/quota/controller.go:363-527 | in every interleaving of non-negative operations no stored usage was ever negative if and only if no reservation overflowed 64 bits |
| QuotaProtocol.RefusalIsRight | src/controller/quota/controller.go:219-255 | a refused call was refused rightly for a usage that was stored during the call |
| QuotaRequests.UsageIsConserved | src/controller/quota/controller.go:385-406 | in every interleaving of requests usage is the starting usage plus the reservations of calls in progress, succeeded, or with a failed rollback, modulo 2^64, and equals the plain sum if and only if that is a 64-bit number |
| QuotaRequests.RollbackIsNeverRefused | src/controller/quota/controller.go:497-507 | while what is held fits in 64 bits the negative check of a rollback never fires |
| QuotaRequests.RollbackRefused | src/controller/quota/controller.go:497-507 | a rollback is refused if and only if, when it read, the wrapped usage without its request was negative for some resource |
| QuotaRequests.UsageStaysBelow | src/controller/quota/controller.go:385-495 | while what is held fits in 64 bits requests never take usage above a limited hard value |
| QuotaRequests.UsageIsAbove | src/controller/quota/controller.go:385-495 | in every run, overflowing or not, usage is within the hard values if and only if the wrapped sums of what is held are |
| QuotaExamples.RollbackPassesTheLimit | src/controller/quota/controller.go:385-507 | a run in which a reservation overflows and a rollback then takes usage far above the limit, without a refresh |
| Runner.NeverAboveTheLimit | src/common/utils/passports.go:50-123 | in every interleaving no more tasks run than the limit, although a revoke may leave its token behind, and each runs at most once |
| Runner.WaitTellsTheTruth | src/common/utils/passports.go:102-139 | without an outside Cancel(nil) nil means that every task ran and returned no error; without outside errors their success means nil; an error is what a task that ran returned, or an outside caller's |
| Runner.LastErrorStands | src/common/utils/passports.go:130-139 | the error kept is the last one recorded, by the task that failed with it or a caller |
| Runner.FailureCancels | src/common/utils/passports.go:102-139 | before a cancel no passport is lost; a task that failed and left and a caller that returned have cancelled the rest |
| Runner.NeverStuck | src/common/utils/passports.go:50-123 | until every task is through some task can move, or a caller inside Cancel has the lock, although passports may be left behind |
| Runner.SilentCancelHidesSkippedTask | src/common/utils/passports.go:132-139 | after Cancel(nil) Wait may return nil although a task never ran |
| Text.SplitJoin | src/lib/link.go:50-61 | splitting undoes joining up to white space around the separator |
| Links.LinkToString | src/lib/link.go:30-39 | the loop over the attributes, in any order, joins the parts of the link |
| Links.LinksToString | src/lib/link.go:45-51 | the loop over links joins their strings |
| Links.ParseLinks | src/lib/link.go:55-89 | the nested loops compute the parse of the header piece by piece, dropping links without URL |
| Links.ParseYieldsGoodLinks | src/lib/link.go:55-89 | whatever the header, parsed links have a URL, no separators in any part, bare keys other than rel, and values without outer quotes |
| Links.ParsesNothing | src/lib/link.go:55-89 | a header in which no piece is bracketed yields no link |
| Links.RoundTrip | src/lib/link.go:30-89 | parsing undoes printing, for every attribute order, if and only if the links are of that kind |
| Links.UnquotedIsRead | src/lib/link.go:55-89 | a relation without quotes and with any white space before it is read |
| Links.TakeToken | src/lib/link.go:68-82 | quotes around a value make no difference |
| Links.LastValueCounts | src/lib/link.go:68-82 | of two attributes with one key the later counts |
| Links.ParseIsStable | src/lib/link.go:30-89 | printing what was parsed from any header and parsing again changes nothing |
| Query.FormatRoundTrip | src/common/api/base.go:155-165 | a formatted 64-bit number is parsed back |
| Query.PageUrlIsRead | src/common/api/base.go:150-184 | the server reads from a page's URL the page and the page size that were written into it |
| Query.LookupIsFirst | src/common/api/base.go:150-184 | the first parameter with a key decides its value |
| Query.ParseRefuses | src/common/api/base.go:175-184 | only an optional sign and digits are read as a number |
| Query.OverflowIsRefused | src/common/api/base.go:175-184 | a number beyond 64 bits is refused |
| Paging.GetPaginationParams | src/common/api/base.go:175-192 | accepted parameters are a positive page and a size between 1 and 500 |
| Paging.SetPaginationHeader | src/common/api/base.go:143-173 | the header built step by step is the join of the offered links |
| Paging.HeaderIsRead | src/common/api/base.go:147-172 | a client parses the offered links back if and only if no URL holds a comma or a semicolon |
| Paging.HeaderIsLost | src/common/api/base.go:147-172 | with a comma or semicolon in the path nothing is parsed from the header |
| Paging.OfferedIsRead | src/common/http/client.go:222-237 | the client finds the address of the following page in the header exactly when one is offered and the path survives |
| Paging.NextIsOfferedUntilTheLast | src/common/api/base.go:158-168 | every page but the last leads on; the last does not, if and only if the end of its range is a 64-bit number |
| Paging.NextInPages | src/common/api/base.go:158-168 | a page leads on exactly before the last page or beyond 64 bits, and then to a page whose range cannot be served |
| Paging.PreviousIsOffered | src/common/api/base.go:147-156 | every page but the first leads back, as far as the page right after the last item |
| Paging.PreviousIsRead | src/common/api/base.go:147-156 | a client finds the page before among the parsed links exactly when there is one |
| Paging.FirstNext | src/common/http/client.go:222-237 | the loop finds the first link with relation next, or nothing |
| Paging.Fetch | src/common/http/client.go:195-237 | one request gives the items of its page, or an error beyond 64 bits, and the address of the next page exactly when it is offered and survives the header |
| Paging.GetAndIteratePagination | src/common/http/client.go:194-241 | following next links from page 1 ends and collects every item once and in order, for every page size after clamping; only the first page when the path breaks the header, an error when the last range exceeds 64 bits or the size is invalid |
| Paging.Iterator | src/controller/artifact/helper.go:31-57 | sends the whole list once for every chunk size of at least 1; or the part taken before the context is done; or the pages before the first failing query |
| Paging.ListAll | src/controller/project/util.go:38-59 | sends the pages before the first failing query and its error, or the whole list once |
| ProxyCache.KeysAreApart | src/controller/proxy/controller.go:210-217 | list keys agree only for the same repository and digest, and never with a content type key |
| ProxyCache.SavedList | src/controller/proxy/manifestcache.go:67-92 | caching a payload under its digest keeps every cached list true to its digest |
| ProxyCache.SavedType | src/controller/proxy/manifestcache.go:81-85 | caching a content type overwrites no list |
| ProxyCache.RunInv | src/controller/proxy/controller.go:156-250 | along every run of retags, evictions, fills and pulls the cache stays true and every pull's descriptor was current |
| ProxyCache.ServedIsCurrent | src/controller/proxy/controller.go:156-208 | when the remote answered with a descriptor, a local artifact served has that digest, a cached list hashes to the digest reported with it and has the content type of a manifest with it, and for a tag that digest was the remote's at some time of the pull |
| ProxyCache.PullIsExact | src/controller/proxy/controller.go:183-208 | with a descriptor: the list is served if and only if it and its content type were found in the cache, the local artifact if and only if no list was found and it has the descriptor's digest, else the remote; what was found or missing was so during the pull |
| ProxyCache.WithoutDescriptor | src/controller/proxy/controller.go:156-181 | without one: the local artifact is served if it was asked for by digest, on a rate limit, or when the remote had nothing and the project allows it, and nothing else |
| ProxyCache.FilledIsServed | src/controller/proxy/manifestcache.go:67-92 | a pull after a list was filled in, under the digest the remote answers, is served that list unless it was evicted or the cache could not be read |
| ProxyCache.PullGoesOn | src/controller/proxy/controller.go:156-208 | no pull is stuck |
| ProxyPush.LengthTest | src/controller/proxy/manifestcache.go:141-143 | the trimmed list is as long as the original if and only if nothing was dropped |
| ProxyPush.FoundIsPresent | src/controller/proxy/manifestcache.go:113-123 | a trimmed list names only what the registry has |
| ProxyPush.UpdateManifestList | src/controller/proxy/manifestcache.go:109-126 | the result is the subsequence of manifests found locally, or an error if a lookup failed |
| ProxyPush.WaitForList | src/controller/proxy/manifestcache.go:128-150 | waits until a round finds the whole list or the rounds are over, and returns what that round found |
| ProxyPush.Push | src/controller/proxy/local.go:104-132 | the push is left to another if and only if its key is under way, and the in-flight set is as before |
| ProxyPush.KeysAreApart | src/controller/proxy/local.go:104-119 | in-flight keys tell repositories and references apart |
| ProxyPush.PushList | src/controller/proxy/manifestcache.go:128-174 | a list is pushed only if it holds exactly the manifests found in the last round, is not empty and is not stored under its digest; it is whole if and only if that round found them all; a failed lookup ends the call |
| ProxyPush.CheckDependencies | src/controller/proxy/local.go:143-157 | returns exactly the blobs not found, in order |
| ProxyPush.SettleBlobs | src/controller/proxy/manifestcache.go:194-218 | waits for the blobs and pushes the missing ones until one cannot be read or pushed |
| ProxyPush.CacheManifest | src/controller/proxy/manifestcache.go:194-240 | the manifest is pushed by digest and by tag, each guarded by the in-flight set, if and only if each blob was found in the last round, pushed by this call, or its key was under way when it was tried |
| ProxyPush.InflightRequest.AddRequest | src/controller/proxy/inflight.go:30-40 | succeeds if and only if the key was not under way, and marks it |
| ProxyPush.InflightRequest.RemoveRequest | src/controller/proxy/inflight.go:42-46 | unmarks the key and no other |
| ProxyPush.OnePushPerKey | src/controller/proxy/local.go:104-132 | in every interleaving at most one push per key is under way and the set names just these |

## Left out

- Labels, blob associations, events, icons and repository touch times of artifact operations: they do not touch the graph.
- The classification of attestation manifests when an index is created: its children and accessory candidates are given.
- Errors of lookups in the store: a lookup answers; transactions are serial.
- The accessory rows written by a copy, and their identity across the shared list in the recursion.
- ArtifactStore.Store.Delete: between `Tangled` and `Clash`, and between `Surely` and `Collected`, the order of rows decides; there the replay gives the outcome and no condition on the store alone is stated.
- Repository.DeleteRepository: says what remains when no accessory row crosses the border of the repository; between what must and what may stay the order of rows decides, and the sequence of replayed deletes gives the outcome. A loop that never ends is reported as `Repeats` after the first pass that removes nothing.
- Copy.Target.Copy: an unbounded recursion is given by its behaviour at every depth.
- ArtifactWalk.Walk: references and accessories stay inside one repository, where digests are unique; the callback is a function of the artifact; a callback with state is replayed over the visits.
- The Redis provider of quota updates, changes of hard limits during a run, and the timing of retries: a retry may give up at any step.
- Requests with an empty resource list: they bypass the protocol.
- QuotaProtocol.Linearizable: asks that no write comes 2^63 or more writes after its read, because versions repeat after that many.
- Invalid UTF-8 in link headers: strings are sequences of characters.
- Links.RoundTrip: the result is compared with empty rather than missing attribute maps, which the parser always creates.
- Query parameters other than page and page_size, percent encoding, and the scheme and host that the paging client puts before a URL.
- Paging.GetAndIteratePagination: asks for a path without '?', '<' and '>', which a URL path does not hold unescaped.
- The content a proxied remote serves when its digests do not match it, expiry times, and the limit on background cache fills.
- The digest map of trimmed lists, pull times, and the tag ensured after a proxied pull.
- Job service, sessions, identity providers, health checks, configuration, cryptography, and controllers that only forward to managers.
