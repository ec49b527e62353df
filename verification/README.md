# Verified model of pulsys

Pulsys is a pull-through cache for model files with a hand-written HTTP/1.1 front end. This project models its hard parts
in Dafny and proves what they promise, over all inputs, all interleavings and all reachable states.

`dafny verify dfyconfig.toml` checks everything.

## What is modelled

- **Disk cache** (`Spans`, `Lru`, `Owners`, `Store`, `StoreClasses`, `StoreRuns`, `Durability`, `StoreAccounting`,
  `Purge`, `Races`, `Serve`, `Inflight`, `BodyHandles`, `Hits`). `Store` states each atomic piece of an operation as a
  function of the disk, the caches and the counters. `StoreClasses` runs those pieces in the order the source does, on
  fields updated in place, and is proved equal to them. `StoreRuns` interleaves them freely, process crashes included. The
  safety modules prove what every run keeps: content, cache coherence, exact counters, the hard quota, owners. `Hits` joins
  the store, the handle table and the files behind removed names, and follows a hit through its three moments. `Races`
  takes LoadMeta and a purge apart where the source reads outside the lock.
- **HTTP engine** (`HttpSyntax`, `HttpFraming`, `HttpRequest`, `Chunked`, `Sendfile`, `Ring`). Both request parsers are
  related to one grammar and so to each other. How input is cut into lines (`HttpFraming`) is proved for any meaning of a
  line; `HttpRequest` supplies the meaning. Kernel behaviour appears as an arbitrary sequence of replies.
- **Registry** (`Registry`). Tables are maps and a commit is one step; the name drawn for a commit and the database's
  consent are inputs.
- **Round trips** (`Text`, `Ranges`, `Origin`). Ranges, Content-Range, download planning and the origin marker.

Octet strings are `string`, one char per byte. 64-bit and 32-bit wrap-around is written out where the source can reach it.

## Conditions

- Quota counters and the quota bound are stated for a positive quota; `NoQuotaNoCount` shows what happens without one.
- `reserveQuota` is a single step because it is atomic, and each meta rewrite with its accounting because it holds the lock.
  A remove takes no lock, so it can still fall between the read and the write of a rewrite: `RewriteDrift` and
  `RewritePublishes` say exactly what that costs, `RemovedUnderRedirect` shows it.
- A hit happens in three moments: the meta is loaded, a handle is acquired, the file is read. `HitDelivers` allows any steps
  between the first two except a remove of the key, and any steps short of a crash between the last two, removes included.
  `RemovedInBetween` shows that a remove before the handle is acquired may deliver zeros. `HitIsUpstream` and the other
  lemmas of `HitSafety` take the three moments as one.
- A handle that is published is on the current file of its key, or loses the race for the key; `StaleHitHappens` shows a
  later hit that reads the removed file otherwise. `StepLive` says that this is exactly what the LRU needs.
- Body handles: lookup, evicted test and increment are one step, and so are removal from the LRU and marking. The two halves
  of `Close` are separate steps. A handle may leave the LRU unless a Close of it is half done, and then only if it is the one
  such Close and nobody holds the handle; `StepExact` and `RunExact` show that this is exactly what safety needs, and
  `UnquietCloses` what happens otherwise.
- LoadMeta is a single step of the runs, although the source reads the file and fills the cache outside the lock. `LoadApart`
  says exactly when the two halves may come apart, `CommitBetween` which commits must not fall between them.
- So is the purge of one entry, although its meta is read without the lock; a trim takes the lock for its write only, a
  remove not at all. `PurgeApart` and `TrimPublishes` say exactly what a run in between costs.
- The content claims exclude that a writer publishes after its file was removed (`OrphanExact` says exactly when that is
  right, `OrphanPublishesZeros` shows it wrong) and a removal that fails after the body and before the meta (`PartPublished`
  and `PartPublishesZeros`).
- The quota bound excludes lowering a recorded total under a writer that then needs more than it holds, be it by a remove, an
  alias, or a response that states or reaches less. Responses may otherwise state any totals and close early. `StepBounded`
  shows that the condition is exact, `IrregularOverruns` that every step that breaks it can exceed the quota.
- A directory-sync failure after the rename is a step of its own outcome; two lemmas say exactly when it does no harm.
- Hits are claimed for non-empty ranges; inverted ones are shown to be hits with a negative length.

## Where code and comments differ

The model follows the code.

- `isSortedAndDisjoint` (internal/cache/key.go:177-187) says spans have gaps between them but accepts touching ones.
- The comment on commits (internal/registry/store.go:239-241) promises no double counting when a blob returns; the code
  compares with the parent only and counts again (`CountRises`, `ReturnCountsTwice`).
- parseDecimalInt64 (internal/coreserver/server.go:1157-1172) marks its sign test as the overflow check; it misses every
  overflow that comes out positive (`RightExactly`).
- The comment on PurgeResult (internal/cache/store.go:1012-1015) says BytesFreed sums removed entries only; an entry whose
  removal fails is counted too (`WalkCounted`).
- The comment in readRequest (internal/coreserver/server.go:838-843) says a bare LF ends the header block; the reader stops
  there and then refuses the request (`BareLfRefused`).
- For HTTP/1.0 the comment (internal/coreserver/server.go:938-941) speaks of keep-alive; any Connection header without
  close keeps the connection.

## Model

| member | source | states |
|---|---|---|
| `Spans.CompactCopy` | internal/cache/key.go:157-174 | Compacting into the array that is still being read gives the fold over the sorted copy, nothing lost or read twice. |
| `Spans.MergeSpans` | internal/cache/key.go:146-175 | The merged list of the input; an input already sorted and disjoint comes back as it is. |
| `Spans.MergeKeepsOffsets` | internal/cache/key.go:146-175 | For every list: exactly the same offsets are covered, the result is sorted without overlap, no span becomes inverted, and merging again changes nothing. |
| `Spans.MergeAppended` | internal/cache/key.go:146-175 | Appending a span and merging covers the old offsets and the new span, nothing else. |
| `Spans.Covers` | internal/cache/key.go:193-221 | Both directions: true if and only if every offset of [start,end) lies in some span, with and without the single-span shortcut. |
| `Recency.AddKeeps` | internal/cache/lru.go:69-97 | Adding keeps keys distinct and within capacity, puts the key first, changes no other value, and evicts at most the last key, never the one just added. |
| `Recency.RunKeeps` | internal/cache/lru.go:54-163 | In every run of Get, Add, GetOrAdd and Delete the contents stay distinct, indexed and within capacity. |
| `Recency.MostRecentSurvive` | internal/cache/lru.go:54-163 | In every run the cached keys are a prefix of the keys ordered by last use, where a lookup counts as a use if it finds the key. |
| `Lru.Cache.constructor` | internal/cache/lru.go:38-47 | An empty valid list; a capacity below one becomes one. |
| `Lru.Cache.PushFront` | internal/cache/lru.go:165-175 | The pointer surgery keeps one list readable in both directions, with the node in front. |
| `Lru.Cache.Unlink` | internal/cache/lru.go:177-189 | The node leaves the list; forward and backward links describe the remaining sequence. |
| `Lru.Cache.MoveToFront` | internal/cache/lru.go:191-197 | The node moves to the front, the rest keeps its order. |
| `Lru.Cache.Get` | internal/cache/lru.go:54-65 | Returns the value held and moves the key to the front of the recency order. |
| `Lru.Cache.Add` | internal/cache/lru.go:69-97 | The linked list and map move to exactly the specified contents, and onEvict is called with exactly what left. |
| `Lru.Cache.GetOrAdd` | internal/cache/lru.go:107-136 | An existing key is promoted and wins; otherwise the new value is installed, with the same eviction report. |
| `Lru.Cache.Delete` | internal/cache/lru.go:148-163 | Exactly the key leaves and is reported; an absent key changes nothing. |
| `Owners.AppendOwner` | internal/cache/store.go:113-131 | The binary search inserts at the place the sorted list prescribes, refuses empty names, duplicates and a 65th owner. |
| `Owners.WithOwnerKeeps` | internal/cache/store.go:113-131 | Owner lists stay sorted, duplicate-free and at most 64 long; no owner is lost and the new one is recorded unless the list is full. |
| `Owners.RemoveOwner` | internal/admin/models/cache.go:137-158 | The filter loop removes exactly the matching owners and promotes the first survivor. |
| `Owners.DecideIsRight` | internal/admin/api/handler.go:596-605 | Remove if and only if the entry is owned and names nobody else; a trimmed entry no longer names the owner and differs in its owner fields only. |
| `Owners.StillOwnedThroughPath` | internal/admin/models/cache.go:99-112 | A trimmed entry still counts as owned if and only if its own path names the model. |
| `StoreClasses.DiskStore.ReserveQuota` | internal/cache/store.go:313-327 | The counters move as the atomic reservation step says; a refusal changes nothing. |
| `StoreClasses.DiskStore.BeginSegment` | internal/cache/store.go:457-496 | Reservation, body creation, sizing and every failure path, each giving back what it took; on success the new writer is on the key's file. |
| `StoreClasses.DiskStore.LoadMeta` | internal/cache/store.go:391-408 | From the bounded metadata cache or from disk into it; a file that cannot be read or parsed is an error that changes nothing. |
| `StoreClasses.DiskStore.StoreAlias` | internal/cache/store.go:869-902 | A concrete entry wins over an alias; otherwise the alias entry is written, cached and accounted. |
| `StoreClasses.DiskStore.StoreRedirect` | internal/cache/store.go:904-943 | Only redirect statuses with a Location are stored, merged over what the entry already had. |
| `StoreClasses.DiskStore.PurgeOrTrim` | internal/cache/store.go:1029-1099 | The walk leaves the disk, the caches, the counters, the report and the error that entry-by-entry visiting specifies, whichever entries cannot be read, written or removed. |
| `StoreClasses.DiskStore.RemoveEntry` | internal/cache/store.go:1073-1093 | Meta, body and cache entry go, and the counters drop by the recorded total. |
| `StoreClasses.DiskStore.RemovePart` | internal/cache/store.go:1079-1082 | A removal that fails part way may have taken the meta, the body, both or neither, and touches nothing else. |
| `StoreClasses.SegmentWriter.Write` | internal/cache/store.go:559-584 | Quota for unknown lengths, the positioned write, give-back after a short write, and a checkpoint when the interval is reached. |
| `StoreClasses.SegmentWriter.Checkpoint` | internal/cache/store.go:595-639 | Publishes the span written so far and releases what the growth of the total used up. |
| `StoreClasses.SegmentWriter.Commit` | internal/cache/store.go:707-777 | Publishes the final meta with each I/O outcome and releases the growth. |
| `StoreClasses.SegmentWriter.Close` | internal/cache/store.go:668-687 | The deferred release with its early-evaluated argument, after commit; a second Close does nothing. |
| `ContentSafety.StepSafe` | internal/cache/store.go:457-777 | One step of any operation, or a crash, keeps: every published offset, and every offset a writer has written to the key's file, holds the upstream byte. |
| `ContentSafety.RunSafe` | internal/cache/store.go:457-777 | So does every interleaving, removes under open writers included, as long as responses carry the object's bytes and a writer whose file was removed publishes nothing any more. |
| `ContentSafety.OrphanExact` | internal/cache/store.go:595-777 | That condition is exact: what a writer publishes after its file was removed is right if and only if those very bytes are in the key's new file. |
| `Durability.RunKeepsPublished` | internal/cache/store.go:595-777 | Over every run that neither removes nor replaces the entry, an offset once published stays published and right, through later segments, redirects, trims and crashes. |
| `ContentSafety.OrphanPublishesZeros` | internal/cache/store.go:1080-1092 | How it goes wrong: from every safe state with a writer that has written something, a remove, its close and any next fetch that is admitted publish a span over zero bytes. |
| `MetaCoherence.LoadReadsDisk` | internal/cache/store.go:391-408 | With a coherent cache LoadMeta answers what a plain disk read would. |
| `MetaCoherence.RunCoherent` | internal/cache/store.go:628-632 | In every run without a failed directory sync every cached meta equals the one on disk, whatever was evicted. |
| `MetaCoherence.UnsyncedRewrite` | internal/cache/store.go:767-773 | After a failed directory sync the cache is still coherent if and only if the key was not cached or nothing changed. |
| `QuotaCounters.FinishGivesBackAll` | internal/cache/store.go:668-705 | Close gives back exactly what the writer still holds although its argument predates the release inside commit. |
| `QuotaCounters.StepCounted` | internal/cache/store.go:306-361 | Every step keeps: usedBytes is the sum of the totals on disk, entryCount their number, reservedBytes the sum of the writers' remaining reservations. |
| `QuotaCounters.RunCounted` | internal/cache/store.go:306-361 | The same over every run under a quota, purges and crashes included. |
| `QuotaCounters.NoQuotaNoCount` | internal/cache/store.go:313-334 | Reservations are counted if and only if there is a quota or nothing to reserve; without a quota opening and closing a segment drives the counter below zero. |
| `QuotaCounters.UnsyncedCount` | internal/cache/store.go:767-773 | After a failed directory sync the counters are exact if and only if no entry and no total changed. |
| `QuotaSafety.PaidFor` | internal/cache/store.go:346-361 | Publishing a total the writer has covered moves bytes from reserved to used and adds none; a lower one gives back the difference. |
| `QuotaSafety.StepBounded` | internal/cache/store.go:457-777 | A step keeps used + reserved within the quota and every open writer covered if and only if it does not lower a total under a writer that then needs more than it holds. |
| `QuotaSafety.RunBounded` | internal/cache/store.go:457-777 | In every run of such steps used + reserved is at most MaxBytes, whatever totals responses state and however early they close. |
| `QuotaSafety.StartBounded` | internal/cache/store.go:267-304 | A store warmed up within its quota satisfies both invariants. |
| `QuotaSafety.NeedyCommitAdds` | internal/cache/store.go:346-361 | Committing a writer that needs more than it holds adds exactly the difference to used + reserved. |
| `QuotaSafety.IrregularOverruns` | internal/cache/store.go:457-777 | After every step that breaks the condition, another fetch may take the room that is left, and committing the writer left needy exceeds the quota. |
| `QuotaSafety.RemoveUnderWriterOverruns` | internal/cache/store.go:1073-1093 | Such a step is a remove under an open writer. |
| `QuotaSafety.AliasUnderWriterOverruns` | internal/cache/store.go:869-902 | So is an alias written over an entry under an open writer. |
| `QuotaSafety.EarlyCloseUnderWriterOverruns` | internal/cache/store.go:707-777 | And so is a response of unknown length that closes with less than is recorded while a writer depends on the record. |
| `PurgeSafety.PurgeIsExact` | internal/cache/store.go:1029-1099 | After a purge no surviving entry names the owner; an entry with another owner keeps spans, total, headers and body; an owned entry without one is gone; the rest is untouched. |
| `PurgeSafety.FreedIsTheDrop` | internal/cache/store.go:1073-1093 | Reported bytes freed equal the drop in usedBytes. |
| `PurgeSafety.WalkRanThrough` | internal/cache/store.go:1043-1099 | A walk that meets no failed action purges exactly the entries it can read and skips the others. |
| `PurgeSafety.WalkCounted` | internal/cache/store.go:1073-1093 | Whatever fails, the report exceeds the drop of usedBytes by exactly the total of the entry whose removal failed, and the counters describe the disk if and only if no failed removal took an entry's meta. |
| `PurgeSafety.PartPublished` | internal/cache/store.go:1079-1082 | After a failed removal what is published is right if and only if the meta is gone, the body is not, or nothing was published. |
| `PurgeSafety.PartPublishesZeros` | internal/cache/store.go:1079-1082 | Otherwise the next fetch of the object makes every offset that was published read as zero. |
| `OwnerSafety.RunKeepsOwners` | internal/cache/store.go:113-131 | In every run all owner lists stay sorted, duplicate-free and at most 64 long. |
| `Races.FillIsLoad` | internal/cache/store.go:391-408 | The two halves of LoadMeta with nothing in between are the single step. |
| `Races.LoadApart` | internal/cache/store.go:391-408 | A LoadMeta that reads before a run and fills the cache after it leaves the cache coherent if and only if the run left that entry as it was; from then on the cache answers with what was read. |
| `Races.CommitBetween` | internal/cache/store.go:391-408 | Every commit that changes the entry, falling between the halves, leaves the old meta cached over the new one. |
| `Races.RewrittenAsRead` | internal/cache/store.go:904-943 | The two halves of a meta rewrite with nothing in between are the single step. |
| `Races.RewriteDrift` | internal/cache/store.go:904-943 | A rewrite that accounts against a meta read earlier leaves both counters off by exactly what the entry changed by since. |
| `Races.RewritePublishes` | internal/cache/store.go:904-943 | Published bytes stay right if and only if the spans it writes are right in the body as it is now. |
| `Races.RemovedUnderRedirect` | internal/cache/store.go:914-941 | A remove between the read and the write of StoreRedirect: the entry comes back with spans and without a body, uncounted. |
| `Races.PurgedAsRead` | internal/cache/store.go:1047-1093 | The two halves of a purge with nothing in between are the single step. |
| `Races.PurgeApart` | internal/cache/store.go:1047-1093 | A purge that reads an entry before a run and acts on it after it leaves usedBytes off by exactly the change of the total in between and entryCount by one if the entry is gone; nothing drifts if and only if the entry is there with the total it had. |
| `Races.TotalBetween` | internal/cache/store.go:1047-1093 | A commit in between is such a run: usedBytes stays off by the growth it recorded. |
| `Races.TrimPublishes` | internal/cache/store.go:1061-1071 | The trimmed entry publishes the spans read before; published bytes stay right if and only if those spans are right in the body as it is now. |
| `Races.RemovedBetween` | internal/cache/store.go:1061-1071 | After a remove in between they are not: the entry comes back with spans and without a body. |
| `Serving.TryServeFromCache` | internal/proxy/handler.go:462-562 | Alias hop, redirect replay, HEAD, and the coverage test decide the reply as specified. |
| `HitSafety.HitIsUpstream` | internal/proxy/handler.go:505-559 | In a safe and coherent state a hit on a non-empty range, decided and read in that state, delivers exactly upstream[start..end). |
| `HitSafety.LengthDeclared` | internal/proxy/handler.go:537-559 | The declared length is the delivered one if and only if the range the request asks of the entry is not inverted. |
| `HitSafety.InvertedIsHit` | internal/cache/key.go:193-197 | Every inverted range is a hit with a negative length on every entry that has a span and a body. |
| `HitSafety.RangeDescribed` | internal/proxy/handler.go:548-551 | The Content-Range of a hit parses back to the range and total served. |
| `HitSafety.WholeHit` | internal/proxy/handler.go:514-520 | A request without Range gets the first total bytes of the object, total being what the entry records, and so the whole object if and only if that is the object's size. |
| `HitSafety.EarlyCloseTruncates` | internal/cache/store.go:707-777 | A response of unknown length that closes early is recorded with the length it reached and then served as the whole object. |
| `HitRuns.StepLive` | internal/cache/bodyhandle.go:141-178 | A step of the store or of the handle table keeps the table safe and the LRU on the current files if and only if the handle that leaves may leave and the one published is current or loses the race. |
| `HitDelivery.RunGood` | internal/cache/bodyhandle.go:141-178 | So does every run, together with the safety of the store. |
| `HitDelivery.StartGood` | internal/cache/store.go:267-304 | A process that has just come up over a safe disk is where such runs begin. |
| `HitDelivery.HitDelivers` | internal/proxy/handler.go:505-559 | The meta loaded in one state, the handle acquired after any steps that do not remove the key, the file read after any further ones, removes of the key included: short of a crash exactly upstream[start..end) is read, from an open file. |
| `HitDelivery.RemovedInBetween` | internal/proxy/handler.go:505-559 | From every safe state: a remove and the opening of the next fetch, both faithful, make the range decided before deliver zeros. |
| `HitDelivery.StalePublished` | internal/cache/bodyhandle.go:150-164 | From every good state: a handle opened before a remove and published after it stays in the LRU, on the removed file. |
| `HitDelivery.StaleHandleMisreads` | internal/cache/bodyhandle.go:141-164 | Whatever follows short of a crash, reading through it gives the removed file, wrong wherever that was wrong. |
| `HitDelivery.StaleHitHappens` | internal/cache/bodyhandle.go:141-164 | It happens: one fetch of an upstream byte publishes it, the LRU answers with the stale handle, and what is read there is another byte. |
| `HitDelivery.StaleRunFaithful` | internal/cache/bodyhandle.go:141-164 | Every step of that run is faithful: the fetch brings the object's bytes and keeps its file. |
| `Inflight.InflightSet.SpansOverlap` | internal/cache/inflight.go:143-150 | True if and only if some held span overlaps the range. |
| `Inflight.InflightSet.Acquire` | internal/cache/inflight.go:47-125 | Granted if and only if nothing overlaps, then appended; a refusal changes nothing. |
| `Inflight.InflightSet.Release` | internal/cache/inflight.go:127-139 | The first equal span goes, the others keep their order. |
| `Inflight.OverlapsIsShare` | internal/cache/inflight.go:141-150 | For non-empty ranges overlapping is sharing an offset, both ways. |
| `Inflight.RunSafe` | internal/cache/inflight.go:47-139 | In every run held spans are pairwise disjoint and are exactly those of the unreleased tickets. |
| `Inflight.OneFetchPerOffset` | internal/cache/inflight.go:24-32 | No offset lies in two held ranges. |
| `Inflight.OneTicket` | internal/cache/inflight.go:47-139 | A non-empty range is held by at most one ticket. |
| `Inflight.ReleaseIsExact` | internal/cache/inflight.go:127-139 | Release frees its own range and no other; taking it again restores the tickets. |
| `Inflight.GrantedAtOnce` | internal/cache/inflight.go:68-76 | A request is granted at once if and only if it shares no offset with a held range. |
| `BodyHandles.StepSafe` | internal/cache/bodyhandle.go:119-178 | Acquire, publish, release, settle, evict and purge keep, when the handle that leaves the LRU may leave: refs counts the borrowers, LRU handles are live, a closed file has no borrower and is closed once. |
| `BodyHandles.StepExact` | internal/cache/bodyhandle.go:112-124 | The condition is exact: a step keeps the table safe if and only if the handle that leaves has no half-done Close, or one only and no borrower. |
| `BodyHandles.RunSafe` | internal/cache/bodyhandle.go:119-178 | The same over every run in which each handle that leaves may leave. |
| `BodyHandles.RunExact` | internal/cache/bodyhandle.go:112-178 | A run is safe at every point if and only if every handle that leaves may leave. |
| `BodyHandles.UnquietCloses` | internal/cache/bodyhandle.go:112-124 | When it may not, finishing the half-done Closes closes the file under a borrower or closes it twice. |
| `BodyHandles.SafeMeans` | internal/cache/bodyhandle.go:141-178 | A borrowed file is open, no file is closed twice, and AcquireBody never meets an evicted handle in the LRU, so it does not retry. |
| `BodyHandles.ClosedOnlyWhenIdle` | internal/cache/bodyhandle.go:119-124 | A file is closed only by the last borrower of an evicted handle, or by the opener that lost the race for it. |
| `BodyHandles.RaceClosesBorrowed` | internal/cache/bodyhandle.go:119-124 | From every state with a half-done Close a borrow and an eviction let it close the file under the borrower. |
| `BodyHandles.LeakedStays` | internal/cache/store.go:220-232 | A handle idle at eviction is never closed by any later step. |
| `BodyHandles.IdlePurgeLeaks` | internal/cache/bodyhandle.go:112-124 | Purging a key whose handle nobody holds leaves such a handle. |
| `BodyTable.AcquiredIsSteps` | internal/cache/bodyhandle.go:141-178 | An uninterrupted AcquireBody is a hit, or an open followed by a publish. |
| `BodyTable.Table.AcquireBody` | internal/cache/bodyhandle.go:141-178 | Borrows the cached handle, or opens and publishes one and marks what the LRU evicts; a file that cannot be opened changes nothing. |
| `BodyTable.Table.Close` | internal/cache/bodyhandle.go:119-124 | Decrement and test: the file is closed when the count reaches zero on an evicted handle. |
| `HttpSyntax.TrimSpace` | internal/coreserver/server.go:1577-1587 | The two index loops cut exactly the leading and trailing spaces and tabs. |
| `HttpSyntax.ContainsTokenFold` | internal/coreserver/server.go:1609-1625 | True if and only if some whole token, bounded by separators, equals the token up to ASCII case. |
| `HttpSyntax.ParseDecimalInt64` | internal/coreserver/server.go:1157-1172 | The 64-bit accumulator loop computes the specified wrapping fold. |
| `HttpSyntax.AccumulatedExactly` | internal/coreserver/server.go:1157-1172 | A digit string is accepted if and only if every prefix is at most 2^63 - 1 modulo 2^64, and then it is read as its number modulo 2^64. |
| `HttpSyntax.RightExactly` | internal/coreserver/server.go:1157-1172 | The answer is right if and only if the number fits int64 or some prefix exceeds 2^63 - 1 modulo 2^64; anything but digits is refused. |
| `HttpSyntax.LastDigitDecides` | internal/coreserver/server.go:1157-1172 | When all shorter prefixes fit, the last digit decides: the number modulo 2^64 if that is positive, so that 2^64 and 2^65 read as 0. |
| `HttpFraming.ReadRequest` | internal/coreserver/server.go:814-858 | Line copying into the scratch buffer and the block parse give the specified result; the accepted bytes are in the buffer. |
| `HttpFraming.ParseHeaders` | internal/coreserver/server.go:860-963 | The header loop computes the fold over the lines of the block, stopping at the first error. |
| `HttpFraming.ParseRequestFromBuf` | internal/coreserver/iouring_parser_linux.go:48-145 | The buffer parser gives the specified result, asking for more data when there is no blank line. |
| `HttpGrammar.ReaderComplete` | internal/coreserver/server.go:814-963 | Rendered lines followed by anything get their meaning from the line reader, errors included. |
| `HttpGrammar.BufferComplete` | internal/coreserver/iouring_parser_linux.go:48-145 | And from the buffer parser. |
| `HttpGrammar.ReaderAccepts` | internal/coreserver/server.go:814-963 | The line reader accepts n bytes if and only if they are a rendered list of clean lines with that meaning, within 16 KiB. |
| `HttpGrammar.BufferAccepts` | internal/coreserver/iouring_parser_linux.go:48-145 | The buffer parser accepts n bytes if and only if they are a rendered list of clean lines with that meaning. |
| `HttpGrammar.BufferStable` | internal/coreserver/iouring_parser_linux.go:48-60 | Any answer but the request for more data stays the same when bytes are appended. |
| `HttpGrammar.BareLfRefused` | internal/coreserver/server.go:838-848 | Complete lines and a bare LF are refused by the line reader, with the error of the first bad line or as a bad request, whatever follows; the buffer parser asks for more data. |
| `HttpSafety.RequestLineForm` | internal/coreserver/server.go:978-1014 | An accepted request line is METHOD SP target SP version, and nothing else is in the request yet. |
| `HttpSafety.RequestLineAccepted` | internal/coreserver/server.go:978-1014 | Every line of that form is accepted with those parts. |
| `HttpSafety.TargetForm` | internal/coreserver/server.go:1004-1012 | Path and query are the target cut at its first question mark. |
| `HttpSafety.FieldsAccepted` | internal/coreserver/server.go:878-944 | Header lines are accepted if and only if each is well formed, Host and Content-Length occur at most once, lengths are decimal and encodings identity. |
| `HttpSafety.RefusalExplained` | internal/coreserver/server.go:866-962 | A list of lines is refused with an error if and only if that is the error of its request line, of the first offending header line, or of the framing as a whole, in this order. |
| `HttpSafety.FieldsValues` | internal/coreserver/server.go:900-912 | Host, Range and Authorization hold the last value given; the request line's parts are untouched. |
| `HttpSafety.ContentLengthValue` | internal/coreserver/server.go:913-921 | The content length is the number in the one Content-Length line if and only if that fits int64, otherwise that number modulo 2^64; without such a line it is unchanged. |
| `HttpSafety.KeepAlive11` | internal/coreserver/server.go:934-942 | HTTP/1.1 keeps the connection if and only if no Connection header has the token close. |
| `HttpSafety.KeepAlive10` | internal/coreserver/server.go:934-942 | HTTP/1.0 keeps it if and only if there is a Connection header and the last one lacks the token close. |
| `HttpSafety.MeaningAccepted` | internal/coreserver/server.go:946-962 | A request is accepted if and only if it has a valid request line, well-formed headers, exactly one Host, at most one Content-Length and not both framings. |
| `HttpSafety.RulesStrict` | internal/coreserver/server.go:1024-1149 | No accepted line holds a CR or an LF. |
| `HttpSafety.ParsersAgree` | internal/coreserver/iouring_parser_linux.go:48-145 | For every byte stream: the line reader accepts a request after n bytes if and only if n is at most 16384 and the buffer parser accepts the same request after n bytes. |
| `HttpSafety.ParsersRefuseAlike` | internal/coreserver/iouring_parser_linux.go:48-145 | On complete lines and a blank one both give the same answer, and refuse with an error if and only if the lines are refused for it. |
| `HttpSafety.AcceptedIsFramed` | internal/coreserver/server.go:814-963 | An accepted request is the rendering of acceptable lines, and method, path, query, version, host, range, authorization, content length and keep-alive are what those lines say. |
| `RingIndex.PowerTest` | internal/coreserver/iouring_ring_linux.go:177-180 | entries & (entries - 1) is zero if and only if entries is a power of two. |
| `RingIndex.SlotIsMod` | internal/coreserver/iouring_ring_linux.go:268-276 | Masking a wrapped counter is the unwrapped counter modulo the ring size. |
| `SubmissionRing.Counts` | internal/coreserver/iouring_ring_linux.go:262-266 | sqSpace and sqPending are the free and the outstanding entries, across every wrap. |
| `SubmissionRing.RunIsFifo` | internal/coreserver/iouring_ring_linux.go:262-281 | In every run of prep, commit and kernel reads from any counter value the kernel reads the committed entries once each, in order, and at most the ring size is outstanding. |
| `SubmissionRing.StagedIsCommitted` | internal/coreserver/iouring_ring_linux.go:268-281 | What prep put in the slot is what commit submits, though the kernel reads in between. |
| `SubmissionRing.Ring.PrepSqe` | internal/coreserver/iouring_ring_linux.go:268-276 | A full ring refuses and changes nothing; otherwise only the slot at tail changes. |
| `SubmissionRing.Ring.SqCommit` | internal/coreserver/iouring_ring_linux.go:278-281 | The tail advances by one, wrapping, and the staged entry becomes pending. |
| `CompletionRing.Queue.DeliverReady` | internal/coreserver/iouring_ring_linux.go:403-413 | Everything up to the tail that was read is delivered, in order, whatever batches the kernel posts before each callback. |
| `CompletionRing.Queue.DrainCQ` | internal/coreserver/iouring_ring_linux.go:396-415 | Each posted completion is delivered exactly once, in order, whatever batches the kernel posts when; on return nothing posted is undelivered. |
| `Sendfile.FusedSend.Write` | internal/coreserver/sendfile_darwin.go:160-228 | One invocation against any kernel replies moves counters and socket as the round function says and ends with the same signal. |
| `Sendfile.SendsPrefix` | internal/coreserver/sendfile_darwin.go:160-228 | Over any number of invocations and any replies the socket holds a prefix of header ++ file[off..off+n], of the length the counters say, and all of it if and only if both counters are complete. |
| `Sendfile.Finishes` | internal/coreserver/sendfile_darwin.go:160-228 | A kernel that always ships something completes the payload within as many calls as bytes. |
| `Sendfile.MaxSlice` | internal/coreserver/sendfile_unix.go:139-154 | A batch is at least one byte and at most what remains; small bodies go in one, large ones in at most 32 MiB. |
| `Sendfile.BodySend.Write` | internal/coreserver/sendfile_unix.go:159-190 | The body-only loop against any kernel replies. |
| `Sendfile.BodySendsPrefix` | internal/coreserver/sendfile_unix.go:159-190 | It sends a prefix of file[off..off+n] without gaps or repeats, and all of it if and only if the counter says so. |
| `Responses.RespWriter.WriteHeader` | internal/coreserver/bridge.go:209-252 | The header block is written once, with one line per value; if the first Content-Length parses the Content-Length values are kept, otherwise chunked is announced and they are dropped. |
| `Responses.RespWriter.Write` | internal/coreserver/bridge.go:256-282 | Each write is appended as it is or as one chunk, an empty one as nothing. |
| `Responses.RespWriter.ReadFrom` | internal/coreserver/bridge.go:294-338 | Copying a source is writing its blocks. |
| `Responses.RespWriter.Finalize` | internal/coreserver/bridge.go:348-363 | In chunked mode the buffer ends as header plus the encoding of all writes; a silent handler yields an empty sized response. |
| `Responses.ChunksEncode` | internal/coreserver/bridge.go:266-282 | Chunk after chunk and the terminator is the encoding of the writes. |
| `Chunked.DecodeEncoded` | internal/coreserver/bridge.go:256-282 | Decoding by section 4.1 of RFC 7230 yields the concatenation of the writes and ends right behind the terminator, whatever follows. |
| `Chunked.DrainEncoded` | cmd/bench-ttfb/main.go:272-302 | drainChunked consumes exactly the encoded body. |
| `Chunked.DrainChunked` | cmd/bench-ttfb/main.go:272-302 | The loop stops where the specified reader stops, or fails where it fails, a line longer than its buffer included. |
| `Registry.BuildTree` | internal/registry/store.go:285-306 | Deletes, inline files and LFS pointers in that order; refused if and only if some path is invalid. |
| `Registry.CheckBlobs` | internal/registry/store.go:317-336 | A size mismatch is found wherever it is and wins over missing blobs. |
| `Registry.CollectAdded` | internal/registry/store.go:370-382 | Exactly the blobs some path newly holds, each once. |
| `Registry.Store.UpsertBlob` | internal/registry/store.go:218-228 | A new blob starts uncounted; an existing one is not touched. |
| `Registry.Store.CommitTx` | internal/registry/store.go:243-411 | The transaction ends in the specified state with the specified result, or changes nothing. |
| `RegistrySafety.CommitTree` | internal/registry/store.go:281-306 | Path by path the new tree is the parent minus deletes, overridden by inline files, overridden by LFS pointers. |
| `RegistrySafety.CommitFrame` | internal/registry/store.go:243-411 | A refused commit changes nothing; an accepted one adds one commit, moves one branch and counts each blob at most once more. |
| `RegistrySafety.RunSafe` | internal/registry/store.go:218-411 | In every run each file points at a blob with 1 <= refcount, and no refcount exceeds the number of commits whose tree contains the blob. |
| `RegistrySafety.ReachableSafe` | internal/registry/store.go:218-411 | The same for every state reachable from empty tables. |
| `RegistrySafety.HistoryFixed` | internal/registry/store.go:134-164 | The files listed at an existing sha, their blobs and their sizes never change. |
| `RegistrySafety.LookupAfterCommit` | internal/registry/store.go:169-196 | Right after a commit the branch shows the expected entry at every path. |
| `RegistrySafety.CountRises` | internal/registry/store.go:369-390 | An accepted commit raises the count of a blob by one if and only if some path of the new tree holds it where the parent did not, and otherwise leaves it. |
| `RegistrySafety.RunCountsExact` | internal/registry/store.go:338-390 | In every run from empty tables a blob's count is the number of commits that newly hold it against their recorded parents. |
| `RegistrySafety.ReturnCountsTwice` | internal/registry/store.go:369-390 | So a blob that an older commit holds and the branch does not is counted a second time when it is pushed again. |
| `Decimals.WriteUint` | internal/coreserver/server.go:1553-1558 | Appends the decimal digits of the number. |
| `Decimals.ParsePrint` | internal/coreserver/server.go:1544-1558 | Parsing a printed number gives it back if and only if it is an int64. |
| `Ranges.RangeRoundTrip` | internal/cache/store.go:824-851 | A printed Range parses to the half-open range it stands for, whatever the total. |
| `Ranges.ContentRangeRoundTrip` | internal/proxy/util.go:13-46 | Parsing a formatted Content-Range gives start, end and total back, unknown totals included. |
| `Download.Plan` | internal/hfhub/client.go:391-398 | The planning loop always ends; its tasks are the fetches at k chunks modulo 2^64 up to the first that ends the file, and they are the tiles if and only if the last chunk's nominal end fits int64. |
| `Download.PlanWrong` | internal/hfhub/client.go:391-398 | When it does not fit, the fetch planned for the last tile ends below zero. |
| `Download.PlanFile` | internal/hfhub/client.go:387-398 | A file within one chunk is one task without a Range header; a larger one is planned by the loop, in tiles if and only if its sums fit. |
| `Download.PlanExact` | internal/hfhub/client.go:391-398 | Every step of the loop is right if and only if the last chunk's nominal end fits int64. |
| `Download.PlanOverflows` | internal/hfhub/client.go:392-392 | A size and a chunk for which a task ends below zero. |
| `Download.TilesCover` | internal/hfhub/client.go:387-398 | The tiles cover the bytes of the file and no others. |
| `Download.TilesTouch` | internal/hfhub/client.go:391-398 | Each tile begins where the one before it ends. |
| `Download.TilesDisjoint` | internal/hfhub/client.go:387-398 | No two tiles overlap. |
| `Download.TaskOnTheWire` | internal/proxy/handler.go:693-700 | The header printed for each task parses back to its tile, and that tile is what the proxy claims in flight. |
| `Download.AllInFlight` | internal/cache/inflight.go:47-56 | All tiles can be held in flight at the same time. |
| `Origin.ExtractAndStripOrigin` | internal/rewrite/rewrite.go:80-101 | The segment loop drops the marker segments, keeps the others in order and takes the first origin that decodes. |
| `Origin.UnescapeEscape` | internal/rewrite/rewrite.go:61-61 | Unescaping an escaped origin gives it back. |
| `Origin.RoundTrip` | internal/rewrite/rewrite.go:59-101 | Appending the marker and stripping it returns the origin and the query byte for byte if and only if no segment of the query is a marker. |
| `Origin.UnmarkedUntouched` | internal/rewrite/rewrite.go:80-83 | A query without markers comes back as it is. |

## Left out

- Warm path of the core server (tryServeWarm): the same hit decision as tryServeFromCache over pre-rendered headers.
- Reactor, event loop, deadlines, sockets, mmap and system calls: only their replies and the ring's indices appear.
- Upstream client, OIDC, database pool, migrations, job queue: foreign code; a transaction either happens or does not.
- sha256 keys, JSON encoding and file names: a key is its object, a meta file its record, a rename one step.
- Condition-variable wake-ups and timers in acquireCtx: waiting is a step that is not taken.
- Telemetry, logging, configuration, auth, host allow-lists, the admin interface: short branches without a hard property.
- Short-sha resolution in ResolveBranch, repositories and mirrors: lookups that would only add easy members.
- copyToWriterAt and the retry loop of the downloader: sequential copying of one range.
- Host crashes: a crash loses memory, not what was written to disk.
- White space and case are ASCII; Unicode spaces and letters in header values are not trimmed or folded.
- StoreClasses.DiskStore.PurgeOrTrim: the read of an entry and the action on it are one step of the walk; the lemmas of Races take them apart.
- Responses.RespWriter.WriteHeader: the buffer does not fail; the source ignores its errors here.
- HttpFraming.ReadRequest: a failed parse leaves the request partly filled in the source; the model returns only the error.
- BodyTable.Table.AcquireBody: a failed Stat counts as a failed open, and the retry on an evicted handle appears only in the protocol's Publish step, since an uninterrupted call never meets one.
- Chunked.DecodeEncoded: the reference reader takes neither chunk extensions nor trailers, which the writer never emits.
