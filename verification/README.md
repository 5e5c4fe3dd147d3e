# Swarmbase core: a verified model

Swarmbase is a peer-to-peer encrypted CRDT store. This project models the algorithms in it that carry
invariants of their own and proves what they promise, for all inputs, all runs and all interleavings.

| file | models |
|---|---|
| `Collections.dfy`, `Bytes.dfy`, `AclEncoding.dfy` | options and distinct sequences, byte fields, the canonical payload of an ACL entry, the payload of a snapshot signature |
| `AclChain.dfy`, `AclTrust.dfy`, `AclQueue.dfy` | the ACL chain: its gates and its object, what every run guarantees, its mutation queue |
| `WriterKeyCache.dfy` | the writer-key cache with its version and in-flight counters |
| `ChangeTree.dfy`, `Compaction.dfy` | pruning the change tree, and the garbage-collection filter behind it |
| `AclSurvival.dfy`, `LocalHistory.dfy` | which ACL changes and how many document changes stay when cross-links repeat CIDs |
| `JsValue.dfy`, `IndexQuery.dfy`, `FilterMeaning.dfy` | JavaScript values and comparison, the full scan, the IndexedDB query planner, what each filter means |
| `RowFields.dfy`, `IndexManager.dfy` | rows of a materialized index, and the index as a function of its history |
| `BloomFilter.dfy`, `BloomProbes.dfy`, `BloomGossip.dfy` | the Bloom filter as a join-semilattice, which bits a term stands for, and replication by gossip |
| `PinScheduler.dfy` | the pin semaphore with slot hand-off |
| `Snapshots.dfy`, `Transactions.dfy`, `ChangeBatches.dfy`, `LoadCohort.dfy` | snapshot adoption in every interleaving, the document object with its transactions, what becomes of their changes, the load loop over the agreeing cohort |

## How it is modelled

Objects are classes whose methods are the code between two awaits; each method is proved equal to a
function on the values of the fields, and the theorems are about those functions. Concurrency is a
transition system whose steps are those functions, and a theorem about it ranges over every sequence of
steps. Hashing, signing, verification, key resolution, the ACL backend and the document extractor are
function parameters; a call that may throw returns an option. Collision-freedom, "verification accepts
what signing made" and "keys with equal octets are the same signer" are stated as hypotheses where they
are used, and nowhere else; collision-freedom is asked of the payloads at hand only. Object identity is a
parameter too: where it matters, all that is asked is that one object is one value.

## What turned out false of the code

* **Range acceleration.** The fast query path agrees with the full scan exactly when no matching record
  holds, at the accelerated field, a boolean, a big integer, a wrapper object or an array that is not a
  valid key, and no record is found under a string's length (`AcceleratedAgreesIff`). `BooleanIsMissed`,
  `BigIntIsMissed` and `LengthIsAPhantom` give the records.
* **Field paths.** A definition gives rows that read back the snapshot exactly when no field path is
  followed by a longer one that a later prefix does not overwrite (`FaithfulIffOrderly`).
* **The skip test.** `_fieldsEqual` passes on values that differ (`DifferentObjectsPass`), so an update can
  be lost (`UpdateIsLost`). It is exact if and only if it can tell the leaves apart (`SkipIsExactIff`), which
  it can for scalars, dates and, more generally, leaves of the same form (`SameFormPassesIfEqual`).
* **ACL changes under pruning.** "ACL nodes are always preserved" holds for their CIDs, not for their
  changes: a cross-link repeats a CID without its change, and of all copies below a cut node the last one
  stays (`CrossLinkLosesAclChange`). `EntrySurvivesIff` says exactly what stays.
* **The limit of a pruning** counts cross-links like changes, so fewer changes stay than asked for
  (`LinksUseUpTheLimit`, `LimitHonouredIff`).
* **Overlapping snapshot calls.** `sync` and `snapshot` do not look at the latest snapshot again after
  awaiting a signature, so an older one can replace a newer one (`OverlapLosesNewer`), exactly when a more
  compacted one was written last since the call began (`CountDropsIff`); with one call at a time and no
  failed commit it cannot happen (`AdoptedCountNeverDecreases`).
* **Failed commits** restore the change count but not the adopted snapshot. The count covers the snapshot
  afterwards exactly if no snapshot above the noted count was the last one written meanwhile
  (`FailedCommitCoversIff`, `FailedCommitUncovers`). They restore the reference to the last message but
  not the tree behind it, which a snapshot may have pruned (`RollbackRestoresTreeIff`, `RollbackKeepsPruning`).

Two points where documentation and code differ: the comment on `endChange` says `_hashes` may retain CIDs
of a rolled-back change, but its code removes them, which `RollbackRestoresEntry` proves; and the final
payload size gate of `_ingestEntryInternal` can never fire (`PayloadFits`).

## Model

| member | source | states |
|---|---|---|
| Bytes.BytesEqual | packages/collabswarm/src/acl-chain.ts:330-337 | the exclusive-or loop returns true exactly for equal octet strings |
| AclEncoding.EncodeIntoBuffer | packages/collabswarm/src/acl-chain.ts:268-317 | the encoder that fills one buffer at a moving offset produces the payload, octet for octet as laid out below |
| Bytes.U32Digits | packages/collabswarm/src/acl-chain.ts:284-301 | an integer field is its number to base 256 in four octets, the most significant first |
| AclEncoding.EncodeIsLaidOut | packages/collabswarm/src/acl-chain.ts:268-317 | a payload is the one octet string with the sequence number at 0, the high and the low half of the timestamp at 4 and 8, then parent hash, signer key and change behind four-octet lengths, and nothing else |
| AclEncoding.EncodeEqualIff | packages/collabswarm/src/acl-chain.ts:268-317 | two payloads encode alike exactly when they are equal up to wrap-around modulo 2^32 and 2^64 and up to an empty parent hash |
| AclEncoding.EncodeInjective | packages/collabswarm/src/acl-chain.ts:372-438 | on everything shape validation lets through, equal encodings mean equal payloads |
| AclEncoding.EncodingWraps | packages/collabswarm/src/acl-chain.ts:268-317 | what the encoding forgets: sequence numbers 2^32 apart (the bound of shape validation), timestamps 2^64 apart (far past its bound of 2^53 - 1), and whether an empty parent hash was given |
| AclEncoding.BuildSnapshotPayload | packages/collabswarm/src/collabswarm-document.ts:2423-2475 | the snapshot payload builder accepts and lays out exactly as said below |
| AclEncoding.SnapshotPayloadIsLaidOut | packages/collabswarm/src/collabswarm-document.ts:2411-2475 | it accepts exactly safe timestamps, 32-bit counts and 32-bit lengths, and builds the one octet string with version 1 at 0, the timestamp's halves at 1 and 5, the count at 9, then CID and state behind their lengths |
| AclEncoding.SnapshotPayloadInjective | packages/collabswarm/src/collabswarm-document.ts:2423-2475 | whatever two inputs the builder accepts, equal payloads mean equal inputs |
| AclChain.ValidateShape | packages/collabswarm/src/acl-chain.ts:372-438 | succeeds exactly on the wire forms of entries within all bounds, and returns that entry |
| AclChain.ShapeBounds | packages/collabswarm/src/acl-chain.ts:372-438 | in numbers: sequence numbers up to 4294967295, timestamps up to 9007199254740991, keys of 1 to 256, signatures of 1 to 1024 and parent hashes of 1 to 64 octets |
| AclChain.ACLChain.IsInBootstrapSet | packages/collabswarm/src/acl-chain.ts:1044-1053 | the loop finds the candidate, or throws at the first key that cannot be serialized before it |
| AclChain.ACLChain.CommitSigned | packages/collabswarm/src/acl-chain.ts:830-943 | signature, authorization against the prior state and application, in that order; a refusal changes nothing |
| AclChain.ACLChain.IngestEntryInternal | packages/collabswarm/src/acl-chain.ts:633-943 | the whole gate sequence equals `Ingest`, with its reason and index |
| AclChain.ACLChain.AuthorAndAppend | packages/collabswarm/src/acl-chain.ts:566-598 | composes, signs and ingests the next entry, or leaves the chain as it was |
| AclChain.ACLChain.ReplayEntries | packages/collabswarm/src/acl-chain.ts:971-1029 | empties the chain and ingests until the first refusal |
| AclTrust.CommitKeepsTrust | packages/collabswarm/src/acl-chain.ts:899-943 | an accepted entry extends a chain of trust to a chain of trust |
| AclTrust.EveryRunIsTrusted | packages/collabswarm/src/acl-chain.ts:633-943 | after every list of calls, failing ones included: entry i is numbered i, linked to the hash of entry i-1, hashed, signed by the key it declares, and signed by a founding member or by a writer of the fold of the first i changes; and the state is the fold of all changes |
| AclTrust.EqualHashEqualHistory | packages/collabswarm/src/acl-chain.ts:690-718 | where the hash has no collision among the payloads of two chains, equal hashes at one position mean equal payloads at all earlier ones |
| AclTrust.HeadHashDeterminesChain | packages/collabswarm/src/acl-chain.ts:680-718 | two non-empty chains of any two runs with equal head hashes, and no collision among their payloads, have the same length, payloads and, if their changes serialize differently when they differ, ACL state: no reorder, fork or insertion |
| AclTrust.ReplayKeepsLongestPrefix | packages/collabswarm/src/acl-chain.ts:945-970 | replay keeps exactly the longest acceptable prefix, with the hashes and state that replaying that prefix alone gives, and reports the index and reason of the first refused entry |
| AclTrust.ReplayRefusalNames | packages/collabswarm/src/acl-chain.ts:976-1027 | the reason of a refused replay: a bad shape, a key that is not found, or what ingesting the entry on top of what was kept reports |
| AclTrust.ReplayRebuildsChain | packages/collabswarm/src/acl-chain.ts:945-1029 | a fresh replica with a resolver that knows the signers accepts the history of any run in full and ends with the same entries, hashes and state |
| AclTrust.PayloadFits | packages/collabswarm/src/acl-chain.ts:807-817 | a shaped and size-gated entry never exceeds the final payload gate |
| AclTrust.BootstrapFound | packages/collabswarm/src/acl-chain.ts:1044-1053 | the bootstrap loop finds a key exactly if some genesis key has its octets and all genesis keys before that one serialize, and throws only at one that does not |
| AclTrust.IngestAcceptsIff | packages/collabswarm/src/acl-chain.ts:440-452 | on the chain of any run and with any genesis keys an entry is accepted if and only if it is well shaped, next in sequence, linked to the head, within size, signed, authorized and applicable; otherwise nothing changes |
| AclTrust.RefusalNamesTheFailure | packages/collabswarm/src/acl-chain.ts:653-897 | on the chain of any run an entry of bad shape is malformed, and any other entry is refused with the reason of the first of ten gates, in their order, that it does not pass, and accepted if it passes all |
| AclTrust.AuthorSucceedsIff | packages/collabswarm/src/acl-chain.ts:545-598 | on the chain of any run authoring returns exactly the entry that has the next number, the given timestamp and change, the head hash, the key's octets and the signature of the canonical payload of just these, if and only if that entry is next in every respect; then the chain grows by it, else nothing changes; with a key pair whose signatures verify, shape, size, hash, authorization and application decide |
| AclQueue.CallsRunOneByOne | packages/collabswarm/src/acl-chain.ts:528-543 | from the chaining of promises alone: in every interleaving at most one task runs, and none begins before every call made earlier has ended, by success or failure, and released the queue |
| AclQueue.QueueSerializesCalls | packages/collabswarm/src/acl-chain.ts:528-543 | in every interleaving of queued calls, which read the chain at each of their awaits, the chain of trust holds at every moment, what a running call has read is still so, and when all calls have ended the chain is what they produce one by one in the order in which they were made |
| AclQueue.QueueNeverStalls | packages/collabswarm/src/acl-chain.ts:532-542 | while some call has not ended some handler can run, so a failing call poisons nothing |
| WriterKeyCache.WriterKeys.BeginRead | packages/collabswarm/src/collabswarm-document.ts:1391-1400 | returns the cache only when no mutation is in flight, else notes the version |
| WriterKeyCache.WriterKeys.ResumeRead | packages/collabswarm/src/collabswarm-document.ts:1400-1426 | fills the cache, retries or returns uncached, by version and in-flight count |
| WriterKeyCache.WriterKeys.BeginMutation | packages/collabswarm/src/collabswarm-document.ts:1445-1449 | counts the mutation and invalidates before it runs |
| WriterKeyCache.WriterKeys.EndMutation | packages/collabswarm/src/collabswarm-document.ts:1450-1457 | uncounts and invalidates again, after success and failure alike |
| WriterKeyCache.StepKeepsInv | packages/collabswarm/src/collabswarm-document.ts:1391-1473 | every step of every read and mutation keeps the invariant below |
| WriterKeyCache.EveryInterleavingIsSafe | packages/collabswarm/src/collabswarm-document.ts:1369-1473 | in every interleaving a cached list is current and no mutation is in flight; every read returned a value the list had between its call and its return; no read retried more often than the cache was invalidated while it ran |
| WriterKeyCache.QuietReadIsExact | packages/collabswarm/src/collabswarm-document.ts:1406-1412 | a read that returns with no mutation in flight returns exactly the current list and leaves it cached for the next read |
| WriterKeyCache.RetryCatchesUp | packages/collabswarm/src/collabswarm-document.ts:1413-1419 | a retry happens only after an invalidation and has then noted the current version |
| WriterKeyCache.ResumeRetriesIff | packages/collabswarm/src/collabswarm-document.ts:1406-1424 | a read that resumes goes round again exactly if the cache was invalidated since its fetch began and has not been filled since; otherwise it returns |
| ChangeTree.PruneChanges | packages/collabswarm/src/collabswarm-document.ts:1838-1933 | the queue loop with its cursor and counter computes the recursive pruning, tree and reported CIDs alike |
| Compaction.CollectAclCollects | packages/collabswarm/src/collabswarm-document.ts:1849-1876 | collecting a subtree adds exactly its ACL CIDs as leaves and reports exactly its document CIDs |
| Compaction.PruneConserves | packages/collabswarm/src/collabswarm-document.ts:1853-1926 | for every tree and limit the CIDs before are those kept plus those reported, every ACL CID stays reachable, nothing is made up, and only document CIDs are reported |
| Compaction.PruneReportsNoAclCid | packages/collabswarm/src/collabswarm-document.ts:1853-1876 | where a CID names nodes of one kind, no ACL CID is reported, however many copies the tree holds |
| AclSurvival.CutKeepsLast | packages/collabswarm/src/collabswarm-document.ts:1853-1876 | a boundary node keeps of its subtree exactly the last copy, in order of traversal, of each ACL node |
| AclSurvival.EntrySurvivesIff | packages/collabswarm/src/collabswarm-document.ts:1878-1926 | for every tree and limit, an entry survives exactly if it hangs from a node left open or is the last copy of an ACL node below some node that is cut |
| AclSurvival.EveryAclChangeSurvives | packages/collabswarm/src/collabswarm-document.ts:1878-1887 | an ACL node whose copies all have one content survives with its kind and change, however deep it sat |
| AclSurvival.CrossLinkLosesAclChange | packages/collabswarm/src/collabswarm-document.ts:1641-1662 | a later cross-link to an ACL change, which carries no change, replaces the ACL change when the tree is pruned |
| Compaction.PruneKeepsEnough | packages/collabswarm/src/collabswarm-document.ts:1827-1837 | a positive limit leaves at least that many document nodes, or all, in every branching tree |
| LocalHistory.MakeChangeStaysLocal | packages/collabswarm/src/collabswarm-document.ts:1630-1665 | a local change on a history of local changes puts one change on top, with the old head as first child and cross-links behind it |
| LocalHistory.MakeChangeLinks | packages/collabswarm/src/collabswarm-document.ts:1637-1662 | the children of a new change are the old head as it was and one node for every other CID linked to, each once |
| LocalHistory.PruneKeepsByPlace | packages/collabswarm/src/collabswarm-document.ts:1838-1933 | on every such history pruning keeps the shape and a newest part of the document changes: the change before change j stays exactly if the place of j in breadth-first order, cross-links counted, is below the limit |
| LocalHistory.LimitHonouredIff | packages/collabswarm/src/collabswarm-document.ts:1827-1837 | never more changes stay than asked for, and exactly as many if and only if the last but one of them has a place below the limit |
| LocalHistory.WithoutLinksKeepsExactly | packages/collabswarm/src/collabswarm-document.ts:1827-1837 | in a history without cross-links exactly that many changes stay, or all if there are fewer |
| LocalHistory.LinksUseUpTheLimit | packages/collabswarm/src/merkle-cross-links.ts:52-70 | four changes made one after the other: cross-links use up a limit of four, and three changes stay |
| Compaction.PrunedTreeIsBounded | packages/collabswarm/src/collabswarm-document.ts:1885-1924 | in breadth-first order, document nodes at or past the limit are left with no children but ACL leaves |
| Compaction.PruneTwice | packages/collabswarm/src/collabswarm-document.ts:1888-1932 | a second prune with the same limit changes nothing and reports nothing |
| Compaction.CollectTreeCids | packages/collabswarm/src/blockstore-gc.ts:29-53 | the queue loop finds exactly the recursively reachable CIDs, stopping at deferred children |
| Compaction.FilterDeletableCids | packages/collabswarm/src/blockstore-gc.ts:73-91 | keeps exactly the candidates that are neither reachable nor protected |
| Compaction.PruneAndCollect | packages/collabswarm/src/collabswarm-document.ts:4470-4535 | the set handed to block deletion is exactly the CIDs that left the tree, without the boundary captured before signing; it holds no reachable CID, not the root's, and no ACL CID; without a root CID nothing happens |
| Compaction.OldHeadNeedsProtection | packages/collabswarm/src/collabswarm-document.ts:4514-4528 | when a sync has put another root above the boundary, pruning to one node takes the boundary out of the tree, and only its protection keeps the block |
| Compaction.PruneQueueShrinks | packages/collabswarm/src/collabswarm-document.ts:1888-1924 | wherever a node stands in the queue, the loop leaves it as it was or strictly smaller |
| JsValue.ExtractField | packages/collabswarm-index/src/field-extractor.ts:9-22 | the loop resolves the path segment by segment, `undefined` at anything missing |
| JsValue.ResolveReads | packages/collabswarm-index/src/field-extractor.ts:9-22 | a path reads the property that its last segment names in what the rest reads, the length of an array or a wrapped string, and nothing elsewhere |
| JsValue.TextLessIff | packages/collabswarm-index/src/memory-index-storage.ts:135-143 | a string is less exactly if it is a shorter beginning of the other or has the smaller code unit where they first differ |
| IndexQuery.LexicographicSuccessor | packages/collabswarm-index/src/idb-index-storage.ts:424-432 | the backward loop computes the successor |
| IndexQuery.SuccessorBoundsPrefix | packages/collabswarm-index/src/idb-index-storage.ts:409-432 | a string lies in [prefix, successor) exactly when it starts with the prefix; with no successor, from the prefix on exactly those that start with it |
| IndexQuery.PickStrategy | packages/collabswarm-index/src/idb-index-storage.ts:255-347 | the first indexed and acceleratable filter decides; none if there is none |
| IndexQuery.VisitedIfSatisfied | packages/collabswarm-index/src/idb-index-storage.ts:368-407 | the key range of an accelerated filter covers every keyed value that satisfies it, and for an equality no other |
| IndexQuery.RecordAgreesIff | packages/collabswarm-index/src/idb-index-storage.ts:170-191 | one record is treated alike by both paths exactly when it is not missed and not a phantom |
| IndexQuery.AcceleratedAgreesIff | packages/collabswarm-index/src/idb-index-storage.ts:164-191 | for every store and filter list the accelerated answer equals the full scan if and only if no record is missed and none is a phantom |
| IndexQuery.IndexableNeverDiffers | packages/collabswarm-index/src/memory-index-storage.ts:61-65 | with numbers, strings, dates, valid array keys, plain objects, null or nothing at the field, the two answers are the same set |
| IndexQuery.BooleanIsMissed | packages/collabswarm-index/src/idb-index-storage.ts:386-388 | a stored `true` passes `gt 0` in the scan and is not in the index |
| IndexQuery.BigIntIsMissed | packages/collabswarm-index/src/idb-index-storage.ts:386-388 | so do a stored big integer and a stored wrapped number |
| IndexQuery.LengthIsAPhantom | packages/collabswarm-index/src/idb-index-storage.ts:90-94 | an index on the length of a string field answers an equality that the filter rejects |
| IndexQuery.FilterVisited | packages/collabswarm-index/src/idb-index-storage.ts:173-190 | a cursor loop returns each visited record that passes, once, with its fields |
| IndexQuery.Query | packages/collabswarm-index/src/idb-index-storage.ts:143-191 | returns the rows of the chosen strategy, and those of the full scan whenever the indexed fields are indexable |
| FilterMeaning.NumberFilters | packages/collabswarm-index/src/memory-index-storage.ts:118-143 | on finite numbers `lt`, `lte`, `gt`, `gte` and `eq` are the comparisons of numbers |
| FilterMeaning.TimeFilters | packages/collabswarm-index/src/memory-index-storage.ts:187-196 | dates and ISO date strings compare by their times, with each other and with numbers |
| FilterMeaning.TextFilters | packages/collabswarm-index/src/memory-index-storage.ts:125-143 | strings that are no ISO dates compare by code units |
| FilterMeaning.TextTests | packages/collabswarm-index/src/memory-index-storage.ts:118-153 | strings are equal, start with and contain one another as texts do |
| FilterMeaning.OnlyTextsHaveParts | packages/collabswarm-index/src/memory-index-storage.ts:145-152 | anything but two strings neither starts with nor contains |
| FilterMeaning.MixedFilters | packages/collabswarm-index/src/memory-index-storage.ts:125-143 | beside a number, strings, booleans and big integers count as the number they read as, and pass nothing if they read as none |
| FilterMeaning.ObjectFilters | packages/collabswarm-index/src/memory-index-storage.ts:125-143 | beside a number an array counts as the number its text reads as, a wrapper as what it wraps, and a plain object passes nothing |
| FilterMeaning.NothingCompares | packages/collabswarm-index/src/memory-index-storage.ts:125-143 | a missing value or null passes no comparison |
| FilterMeaning.EqualFilter | packages/collabswarm-index/src/memory-index-storage.ts:119-123 | `eq` is being the same value, NaN excepted, and for objects being the same object |
| FilterMeaning.ListFilters | packages/collabswarm-index/src/memory-index-storage.ts:122-156 | `neq` is the opposite of `eq`, `in` is `eq` with some listed value except that it finds NaN, and an unknown operator passes nothing |
| FilterMeaning.NumericScan | packages/collabswarm-index/src/memory-index-storage.ts:61-65 | where every record holds a finite number at a field, a query with a numeric filter finds exactly the records whose number is as asked |
| FilterMeaning.NumericAccelerated | packages/collabswarm-index/src/idb-index-storage.ts:164-191 | and so does its accelerated form |
| FilterMeaning.ScanNarrows | packages/collabswarm-index/src/memory-index-storage.ts:111-113 | a list of filters finds what each of its filters finds |
| FilterMeaning.WhatIsAccelerated | packages/collabswarm-index/src/idb-index-storage.ts:368-407 | looked up in an index are equality with a finite number or a string, `gt` and `gte` with a finite number, and prefixes, and none of the others |
| RowFields.BuildRow | packages/collabswarm-index/src/index-manager.ts:85-88 | sets every field path in turn to the snapshot's value |
| RowFields.ReadBelowSet | packages/collabswarm-index/src/index-manager.ts:247-258 | reading at or below a path that was set gives the value or what is below it |
| RowFields.ReadApartFromSet | packages/collabswarm-index/src/index-manager.ts:247-258 | setting a path disturbs no path apart from it |
| RowFields.FaithfulIffOrderly | packages/collabswarm-index/src/index-manager.ts:85-88 | a definition gives rows that read back every snapshot if and only if its paths are orderly, and the empty snapshot already tells |
| RowFields.SkipTestIff | packages/collabswarm-index/src/index-manager.ts:216-241 | for prefix-free paths, any leaves and any sharing of objects the skip test passes on two rows exactly if at every path it meets a shared object or passes at the leaf |
| RowFields.FreshSkipTestIff | packages/collabswarm-index/src/index-manager.ts:216-241 | rows that share no object on the way pass exactly if all leaves of the two snapshots do |
| RowFields.SkipIsExactIff | packages/collabswarm-index/src/index-manager.ts:216-241 | for prefix-free paths a row that passes is the row that would be written, if and only if the test can tell the leaves of the two snapshots apart |
| RowFields.SameFormPassesIfEqual | packages/collabswarm-index/src/index-manager.ts:216-241 | values of the same form pass only if they are equal: scalars, dates, and objects and arrays of one class without `undefined` properties, at any depth |
| RowFields.SkippedRowIsEqual | packages/collabswarm-index/src/index-manager.ts:216-241 | with leaves of the same form, or scalars and dates, rows that pass are equal, whatever objects they share |
| RowFields.EqualValuesPass | packages/collabswarm-index/src/index-manager.ts:216-241 | a value without NaN passes against itself, at any depth and however its objects are shared |
| RowFields.DifferentObjectsPass | packages/collabswarm-index/src/index-manager.ts:216-241 | a date and an empty object, objects with different keys one of which holds `undefined`, an array and an object, two wrapped numbers: all pass though they differ |
| IndexManager.Manager.Define | packages/collabswarm-index/src/index-manager.ts:39-53 | registers a new definition, ignores an identical one, refuses one with another prefix, path, field type or order, and never touches rows |
| IndexManager.Manager.Remove | packages/collabswarm-index/src/index-manager.ts:58-61 | drops the definition and clears the rows of that index only |
| IndexManager.Manager.Update | packages/collabswarm-index/src/index-manager.ts:76-103 | rows change in matching indexes only and only where the skip test fails; subscribers are notified exactly if one did |
| IndexManager.Manager.UpdateOne | packages/collabswarm-index/src/index-manager.ts:85-97 | builds, compares and writes one row |
| IndexManager.Manager.RemoveDocument | packages/collabswarm-index/src/index-manager.ts:108-113 | removes the document's row from every defined index and nothing else, and always notifies |
| IndexManager.Manager.Rebuild | packages/collabswarm-index/src/index-manager.ts:172-193 | leaves one fresh row per matching document and notifies; for an undefined index it does neither |
| IndexManager.DefinedIff | packages/collabswarm-index/src/index-manager.ts:39-61 | after any history an index is defined exactly if it was defined and not removed since, with the first definition since then |
| IndexManager.UnchangedIsSkipped | packages/collabswarm-index/src/index-manager.ts:90-94 | a document whose leaves hold no NaN and whose row is up to date is never written again |
| IndexManager.UpdateKeptIff | packages/collabswarm-index/src/index-manager.ts:85-97 | where an index held the latest document and covers the next update, it holds the latest afterwards exactly if there was no row or the skip test can tell the two snapshots apart at the paths of that index |
| IndexManager.SameFormUpdateIsKept | packages/collabswarm-index/src/index-manager.ts:90-94 | where an index held the latest document, leaves of the same form at its paths, or scalars and dates, are enough for the next update to be kept |
| IndexManager.UpdateIsLost | packages/collabswarm-index/src/index-manager.ts:90-94 | a history of two updates after which the index still holds the first |
| IndexManager.IndexReflectsHistory | packages/collabswarm-index/src/index-manager.ts:76-193 | the general form: after every list of calls from empty storage in which accepted definitions of the index have prefix-free paths and the skip test can tell each update that it covers from the document before, the index holds exactly the rows of the latest matching documents since its last clear and not removed since, each built from the latest snapshot and reading back every field path |
| IndexManager.CheckedIndexReflectsHistory | packages/collabswarm-index/src/index-manager.ts:76-193 | the same after every list of calls in which each such update and the document before it have, at the paths in force, leaves of the same form, or scalars and dates |
| IndexManager.CheckedHistoryIsExact | packages/collabswarm-index/src/index-manager.ts:216-241 | in a history that can be checked so the skip test tells every update apart, which is what the general results ask for |
| IndexManager.SameLatestSameRows | packages/collabswarm-index/src/index-manager.ts:76-193 | histories with the same definition and latest documents leave the same rows |
| IndexManager.RebuildEqualsUpdates | packages/collabswarm-index/src/index-manager.ts:169-193 | after every history, for all paths and leaves, rebuilding equals clearing and updating the same documents one by one in any order, repetitions included |
| BloomFilter.JoinIdempotent | packages/collabswarm-index/src/bloom-filter-crdt.ts:1-11 | merging a filter with itself changes nothing |
| BloomFilter.JoinCommutative | packages/collabswarm-index/src/bloom-filter-crdt.ts:1-11 | merging does not depend on the order of two filters |
| BloomFilter.JoinAssociative | packages/collabswarm-index/src/bloom-filter-crdt.ts:1-11 | merging does not depend on the grouping of three filters |
| BloomFilter.JoinIsLeastUpperBound | packages/collabswarm-index/src/bloom-filter-crdt.ts:65-80 | the merge is the least filter above both |
| BloomFilter.JoinIsUnion | packages/collabswarm-index/src/bloom-filter-crdt.ts:65-80 | the bits set by a merge are the union of the bits set |
| BloomFilter.AddSetsExactlyProbes | packages/collabswarm-index/src/bloom-filter-crdt.ts:42-48 | adding a term sets exactly the bits its hash functions pick |
| BloomFilter.AddMakesPresent | packages/collabswarm-index/src/bloom-filter-crdt.ts:50-63 | an added term is found, and so is every term found before: no false negatives |
| BloomProbes.HashRounds | packages/collabswarm-index/src/bloom-filter-crdt.ts:135-153 | the hashes start from 0x811c9dc5 and 0x6c62272e, each code unit is an exclusive or and a multiplication by 0x01000193 in 32 bits, and the second gets its lowest bit set |
| BloomProbes.Hash2IsOdd | packages/collabswarm-index/src/bloom-filter-crdt.ts:148-150 | the second hash is odd for every term |
| BloomProbes.ProbeIsRemainder | packages/collabswarm-index/src/bloom-filter-crdt.ts:42-48 | the i-th bit of a term is the remainder by the size of the first hash plus i times the second |
| BloomProbes.BitPlaces | packages/collabswarm-index/src/bloom-filter-crdt.ts:119-129 | bit k of a byte is worth 2 to the power of k, and there are just enough bytes |
| BloomProbes.FoundIffProbesAmong | packages/collabswarm-index/src/bloom-filter-crdt.ts:42-63 | a filter that holds one term finds exactly the terms all of whose bits are among that term's |
| BloomProbes.TellsTermsApart | packages/collabswarm-index/src/bloom-filter-crdt.ts:42-63 | two terms, with their hashes, that a filter tells apart |
| BloomFilter.BloomFilterCRDT.AddTerm | packages/collabswarm-index/src/bloom-filter-crdt.ts:42-48 | the loop on the byte array computes the addition |
| BloomFilter.BloomFilterCRDT.HasTerm | packages/collabswarm-index/src/bloom-filter-crdt.ts:54-63 | true exactly when all probed bits are set |
| BloomFilter.BloomFilterCRDT.Merge | packages/collabswarm-index/src/bloom-filter-crdt.ts:70-80 | refuses a filter of another size or hash count, else joins in place, also with itself |
| BloomFilter.BloomFilterCRDT.BaseHashes | packages/collabswarm-index/src/bloom-filter-crdt.ts:135-153 | the two loops compute the two FNV-1a variants in 32-bit arithmetic, the second made odd |
| BloomFilter.BloomFilterCRDT.SetBit | packages/collabswarm-index/src/bloom-filter-crdt.ts:119-123 | sets that bit of that byte |
| BloomFilter.BloomFilterCRDT.GetBit | packages/collabswarm-index/src/bloom-filter-crdt.ts:125-129 | reads that bit of that byte |
| BloomGossip.Gossip.AddLocalTerm | packages/collabswarm-index/src/bloom-filter-gossip.ts:131-136 | the term is found in the own filter from then on, and so is every term that was; filters of peers stay |
| BloomGossip.Gossip.OnReceiveFilter | packages/collabswarm-index/src/bloom-filter-gossip.ts:151-175 | ignores data of the wrong length, merges the rest into the sender's filter only |
| BloomGossip.Gossip.QueryPeers | packages/collabswarm-index/src/bloom-filter-gossip.ts:181-190 | exactly the peers whose tracked filter has all terms, each once |
| BloomGossip.Gossip.GetMergedFilter | packages/collabswarm-index/src/bloom-filter-gossip.ts:196-206 | the least filter above the local one and every tracked one |
| BloomGossip.EveryRunKeepsInv | packages/collabswarm-index/src/bloom-filter-gossip.ts:141-175 | in every run with loss, reordering and duplication what a peer tracks is the join of what was delivered to it |
| BloomGossip.TrackedFilterIsSandwiched | packages/collabswarm-index/src/bloom-filter-gossip.ts:147-175 | a tracked filter never exceeds the sender's own filter and has every term the sender added before any publication that arrived |
| BloomGossip.QueryNeverMisses | packages/collabswarm-index/src/bloom-filter-gossip.ts:177-190 | a peer that added all terms before a publication that arrived is found for them, and its own filter has them |
| BloomGossip.SameMessagesSameFilter | packages/collabswarm-index/src/bloom-filter-gossip.ts:164-174 | the same set of delivered filters gives the same tracked filter, whatever the order and the number of deliveries |
| PinScheduler.Node.AcquirePinSlot | packages/collabswarm/src/collabswarm-node.ts:236-244 | a slot at once below the limit, else the end of the queue |
| PinScheduler.Node.ReleasePinSlot | packages/collabswarm/src/collabswarm-node.ts:246-253 | the first waiter takes the slot over, or it is freed |
| PinScheduler.Node.BeginPin | packages/collabswarm/src/collabswarm-node.ts:258-270 | seen, running and malformed CIDs are ignored, others are marked and admitted |
| PinScheduler.Node.EndPin | packages/collabswarm/src/collabswarm-node.ts:271-279 | marks a success as seen, unmarks the CID and releases the slot |
| PinScheduler.EveryInterleavingIsSafe | packages/collabswarm/src/collabswarm-node.ts:236-280 | at most ten active, exactly ten while one waits, in-progress CIDs are the active and waiting ones and disjoint from those pinned, slots granted in order of arrival with none lost |
| PinScheduler.RequestGoesOnIff | packages/collabswarm/src/collabswarm-node.ts:258-270 | in every interleaving a request goes on exactly if its CID is well-formed, not pinned successfully, not running and not waiting; with a slot at once below ten, else at the end of the queue |
| PinScheduler.PinnedIffSucceeded | packages/collabswarm/src/collabswarm-node.ts:271-279 | a CID counts as pinned exactly if a pin of it has succeeded, so a failed one can be requested again |
| PinScheduler.WaiterIsServed | packages/collabswarm/src/collabswarm-node.ts:246-253 | the waiter at position k has its slot after at most k+1 completions, whatever is requested meanwhile |
| Snapshots.DeliverTakesMaximum | packages/collabswarm/src/collabswarm-document.ts:4023-4068 | snapshots delivered one at a time leave one of them that none exceeds |
| Snapshots.DeliverTakesGreatestKey | packages/collabswarm/src/collabswarm-document.ts:4025-4031 | that one is the greatest by compacted count, then by the code units of the boundary CID |
| Snapshots.DeliveryOrderDoesNotMatter | packages/collabswarm/src/collabswarm-document.ts:4023-4089 | any order and multiplicity of the same snapshots ends with the same greatest key |
| Transactions.Document.ReceiveSnapshot | packages/collabswarm/src/collabswarm-document.ts:4023-4090 | undisturbed, a validly signed snapshot leaves the newer of the two, an older or invalid one changes nothing, and a covered count stays covered |
| Transactions.Document.ApplySnapshot | packages/collabswarm/src/collabswarm-document.ts:4061-4088 | sets document and snapshot, raises the change count to the compacted count and marks the boundary CID as seen |
| Transactions.Document.TakeSnapshot | packages/collabswarm/src/collabswarm-document.ts:4490-4500 | writes the captured snapshot without looking at the latest one again |
| Transactions.Document.CountChange | packages/collabswarm/src/collabswarm-document.ts:1711-1713 | counts one document change |
| Transactions.Document.PruneLastMessage | packages/collabswarm/src/collabswarm-document.ts:1838-1933 | prunes the tree of the last message in place and reports the CIDs |
| Snapshots.CountAlwaysCovers | packages/collabswarm/src/collabswarm-document.ts:4069-4075 | in every interleaving without a failed commit the change count never decreases and never falls below the adopted compacted count |
| Snapshots.AdoptedCountNeverDecreases | packages/collabswarm/src/collabswarm-document.ts:4478-4500 | with one call at a time the adopted count never decreases and a remote snapshot never replaces a newer one |
| Snapshots.LatestIsLastWritten | packages/collabswarm/src/collabswarm-document.ts:4061-4068 | in every run the snapshot in force is the one written last |
| Snapshots.WritesWhatItBeganWith | packages/collabswarm/src/collabswarm-document.ts:4470-4500 | a call writes the snapshot it received, or one of the count it found when it began |
| Snapshots.SinceCountsChanges | packages/collabswarm/src/collabswarm-document.ts:1711-1713 | in every run without a failed commit the second counter is the number of document changes since the last write |
| Snapshots.CountIsTheGreatest | packages/collabswarm/src/collabswarm-document.ts:4069-4075 | and the first is the greatest of all changes and, for each snapshot adopted from a peer, its count and the changes since |
| Snapshots.CountDropsIff | packages/collabswarm/src/collabswarm-document.ts:4047-4068 | in every run without a failed commit the adopted count drops in a step exactly if that step ends a writing call and the last write since that call began was of a more compacted snapshot |
| Snapshots.OverlapLosesNewer | packages/collabswarm/src/collabswarm-document.ts:4025-4068 | two overlapping deliveries can end with the older snapshot |
| Snapshots.FailedCommitCoversIff | packages/collabswarm/src/collabswarm-document.ts:4346-4349 | in every run, after a failed commit the count covers the snapshot exactly if the last snapshot written since its begin is no more compacted than the count noted then, or none was written and it covered then |
| Snapshots.FailedCommitUncovers | packages/collabswarm/src/collabswarm-document.ts:4303-4355 | a run that begins covered, adopts a snapshot of five during a commit, fails back to a count of zero, and whose next snapshot replaces five by zero without any overlap |
| Transactions.Document.StartChange | packages/collabswarm/src/collabswarm-document.ts:4154-4160 | opens a transaction with an empty batch unless one is open |
| Transactions.Document.AddChange | packages/collabswarm/src/collabswarm-document.ts:4166-4174 | adds to the batch of an open transaction that is not committing |
| Transactions.Document.BeginCommit | packages/collabswarm/src/collabswarm-document.ts:4245-4275 | refuses, closes an empty transaction, or notes the entry state and commits |
| ChangeBatches.EveryHistoryIsInPhase | packages/collabswarm/src/collabswarm-document.ts:4154-4275 | after every history of calls and other events the pending batch is exactly the changes accepted since the transaction was opened, in order |
| ChangeBatches.EndAnswers | packages/collabswarm/src/collabswarm-document.ts:4245-4275 | `endChange` throws exactly without an open transaction or during a commit, has nothing to do exactly for an empty batch, and otherwise goes on with exactly the accepted changes |
| ChangeBatches.StartAndAdd | packages/collabswarm/src/collabswarm-document.ts:4154-4174 | after a start and any additions the batch is just these, in order |
| ChangeBatches.NoChangeIsLost | packages/collabswarm/src/collabswarm-document.ts:4256-4355 | an accepted change stays at its place in the batch until a commit of that batch has ended |
| Transactions.Document.FinishCommit | packages/collabswarm/src/collabswarm-document.ts:4300-4302 | closes the transaction and changes nothing else |
| Transactions.Document.Truncate | packages/collabswarm/src/collabswarm-document.ts:4315-4327 | collecting and deleting the entries past a size leaves exactly the first ones |
| Transactions.Document.RollBack | packages/collabswarm/src/collabswarm-document.ts:4303-4355 | both sets cut to their noted sizes, flags cleared, everything else restored but the adopted snapshot and the contents of trees |
| Transactions.RollbackRestoresEntry | packages/collabswarm/src/collabswarm-document.ts:4227-4241 | wherever a commit fails and whatever was appended, set, adopted or pruned meanwhile, the rollback gives back the state at its entry with the transaction closed, except the adopted snapshot and the contents of trees |
| Transactions.TreeUnchangedIff | packages/collabswarm/src/collabswarm-document.ts:1885-1924 | a tree comes out of any events as it was exactly if every pruning that reached it had nothing to take from it |
| Transactions.RollbackRestoresTreeIff | packages/collabswarm/src/collabswarm-document.ts:4346-4346 | after the rollback the last message has the tree it had at the entry exactly if no pruning meanwhile took anything from it |
| Transactions.SnapshotPrunesRoot | packages/collabswarm/src/collabswarm-document.ts:4506-4507 | the pruning of a snapshot is one of the events that can happen during a commit |
| Transactions.RollbackKeepsPruning | packages/collabswarm/src/collabswarm-document.ts:4303-4355 | whatever the tree and the limit, a snapshot during a commit that then fails leaves the message of the entry with the pruned tree, and all else as it was |
| Transactions.PruningTakesAChild | packages/collabswarm/src/collabswarm-document.ts:1899-1918 | a root with one document child is such a tree that gets smaller |
| Transactions.CommitRunsAlone | packages/collabswarm/src/collabswarm-document.ts:4249-4255 | until a commit ends no other can begin and its batch cannot change |
| LoadCohort.Load | packages/collabswarm/src/collabswarm-document.ts:3503-3698 | after a quorum never returns false; returns true exactly when some peer serves; blames all agreeing peers exactly when a non-empty cohort of distinct ids equivocated in full; attempts are exactly those on the peers up to the first that serves, in order, none after a success; records exactly the equivocating peers reached, with the hash each served |
| LoadCohort.AttemptsAreFew | packages/collabswarm/src/collabswarm-document.ts:3552-3636 | each attempt on peers of distinct ids is made once or not at all: a snapshot-load if compaction is enabled, a doc-load unless that loaded or failed the bind check |
| LoadCohort.AttemptsDecide | packages/collabswarm/src/collabswarm-document.ts:3553-3636 | a peer serves if an attempt on it loads, equivocates if one fails the bind check, and the hash recorded is of what it served then; a doc-load follows only a snapshot-load that was empty or failed otherwise |

## Left out

- Networking, stream handlers, pubsub, dialing, timers and WebCrypto: plumbing without invariants of its own; what they return is a parameter.
- BeeKEM, the choice of cross-links among recent tips, tips hashing, the load quorum itself, the LRU cache, Yjs and Automerge internals.
- Sync-message and welcome (de)serializers, relay policy, capabilities, React, Redux, examples and tooling: only easy members.
- IndexQuery.Query: does not sort or page, because the comparator is no total preorder on mixed columns and depends on the locale; results are compared as sets without repetition. Key ranges that the browser refuses to build are not modelled.
- `initialize` of the IndexedDB storage, its version retries and `close`: browser plumbing.
- Splitting a dotted path at its dots, inherited properties such as `toString`, binary IndexedDB keys, and objects other than plain ones, arrays, dates and wrappers: paths are lists of segments, objects have own properties only.
- Object identity of nested values: `_setNestedField` is modelled on values, so writing into an object shared with the snapshot is not captured; index calls run one at a time.
- BloomGossip.Gossip.QueryPeers: the order of the result, which is the insertion order of the peer map.
- Filters held by the gossip object are modelled by the contents of their arrays, `lastUpdated` and the republish timer not at all.
- `fillRatio`, `serialize` and `deserialize` as copies: a count and two copies. The probe index is exact integer arithmetic, while the source uses doubles, which are exact up to 2^53.
- ChangeTree.PruneChanges: the mutated tree is returned as a value; a node object shared between two parents of one tree is not captured.
- Transactions.RollbackRestoresTreeIff: follows one tree object; that pruning a tree also prunes the older tree embedded in it enters as an event of its own.
- Rolling back a document that its provider mutates in place: documents are values.
- WriterKeyCache.EveryInterleavingIsSafe: takes from the source's documentation that the writer list changes only inside the guarded mutation paths, and that `users()` reads it at one moment of its await.
- IndexManager.IndexReflectsHistory: asks for prefix-free paths of the index and for updates that the skip test can tell apart, because outside them the row or the skip test is not exact, as shown above.
- IndexManager.Manager.Define: definitions are compared by equality instead of their JSON text, which also depends on the order of keys.
- AclQueue.QueueSerializesCalls: a call is split where it reads the chain; awaits between which it reads nothing of the chain are taken together.
- Human-readable messages of rejections, and the logging.
