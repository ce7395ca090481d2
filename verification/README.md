# A verified model of the Jeeves op-log server

Every Workspace of a Jeeves user is a log of signed ops to which devices only append. The server stores envelopes, decides which ops may
enter, keeps an index of Grants, key epochs and key wraps derived from the control ops, hides pruned ops, and pokes
subscribers. This project models that server in Dafny, together with the codecs it relies on and the Base58 encoder of
the wallet plugin, and proves what their code and documentation promise.

`dafny verify dfyconfig.toml` checks everything.

## How it is organised

| files | content |
|---|---|
| `Wrappers`, `ByteStrings`, `JsonText` | results, bytes, big-endian numbers, JSON values, hex, base64, UUID text |
| `Envelope`, `Payloads`, `PruneCodec`, `ControlCodec`, `CodecExactly`, `Intake`, `IntakeExactly` | envelope and payload formats, and the parsing loop of a POST |
| `OpLog`, `OpLogFacts` | the tables and one `POST /ops` as functions: walk, append plan, materialisation, stamps |
| `Server` | the same routes as loops over mutable fields, each proved equal to those functions |
| `Admission`, `Acceptance` | exactly which ops the walk lets through, and which POSTs are answered |
| `Serial`, `GrantWalk`, `Authority`, `Certification`, `EpochWindow`, `SerialPosts`, `SerialRuns`, `ReentryRequests`, `Reentry` | POSTs that do not overlap: positional authority, owners, key epochs, what can refuse |
| `LogInvariant`, `PruneRaces`, `Interleaving`, `Races`, `PruneCompactions`, `Anchors`, `Founding`, `Paging` | requests that overlap: chains, replays, prunes and stamps, epochs, genesis, paging clients |
| `KeyWraps`, `KeyPlane` | HKDF, the wrap-set digest, and the upload of one epoch's wraps |
| `EscrowSlot`, `SignalHub`, `SignalProtocol`, `Base58` | the recovery slot, the signal fan-out, and the encoder |

**Two levels.** A serial POST reads and writes one state. An overlapping run is a history of committed states: each
transaction reads earlier ones, one per statement, and commits on the latest under the uniqueness constraints, with
the one retry the route has. Chain, stamp, epoch, genesis and key-wrap safety hold of every such run. Authority is
claimed of serial POSTs only, because verification reads a snapshot and the retry does not verify again.

**Assumptions.** Transport seqs are fresh, increase in batch order with gaps allowed, and become visible in commit
order. Signature checks and hashes are parameters. Only the key-plane results (`KeyPlane`,
`Races.KeysAreTheCommittedSet`, `Races.AcknowledgedUploadIsStored`) need the hash to be 32 bytes wide and free of
collisions among the strings actually hashed.

**Op ids.** The code keys a replay on author and op id alone (`backend/app/sync/routes.py:1039-1051, 1168, 1863-1870`).
Most results assume that one author never puts one op id on two envelopes (`Book`, `OpIdsAreNames`, `NoReuse`). What
that leaves out: a new envelope under an old op id is walked as a replay, so a Root-signed Grant certificate in it
re-enters a revoked Grant in the index, or lowers its role there, and is answered as a duplicate without being stored.
`GrantWalk.IndexMatchesRowsExactly`, `AuthorityProofs.PositionExactly`, `AuthorityProofs.AuthorityExactly`,
`AuthorityProofs.NewBoundariesAreSigned`, `AuthorityProofs.NewGrantsAreSigned` and `SerialRuns.AuthorisedExactly` make
no such assumption and say what such an envelope does.

**Where the code does not keep its promise.** `models.py:159-164` promises that every op is authorised at its seq. A
Device that posts its own revoked Grant again re-enters it as live in the in-memory index
(`backend/app/sync/routes.py:1168`) while the row stays revoked, so a content op behind it in the same POST is stored
above the boundary. `Reentry.ReentryBreaksAuthority` is such a run, from the request bodies on.
`AuthorityProofs.AuthorityExactly` says of each POST, and `SerialRuns.AuthorisedExactly` of each run, exactly when the
promise is kept; `GrantWalk.IndexMatchesRowsExactly` says when index and rows agree.

## Model

| member | source | states |
|---|---|---|
| Admission.GrantAdmitted | backend/app/sync/routes.py:1572-1640 | in a founded Workspace a well-linked grant op passes the walk if and only if its certificate names the Workspace and the payload's authority; verifies under Root's key, or under the caller's when it names its author; names an author only if that author owns the Workspace, and then makes no owner; grants to a certified Member of the caller's User, in preferences a device; and has a new id unless replayed |
| Admission.RevokeAdmitted | backend/app/sync/routes.py:1643-1718 | and a revoke op if and only if its certificate is named and signed the same way, by Root when the Grant is an owner's, and the Grant is known and open unless replayed |
| Admission.RotateAdmitted | backend/app/sync/routes.py:1420-1456 | and a rotate if and only if an owner authored it for this Workspace from the current epoch |
| Admission.LostRotateLearnsTheEpoch | backend/app/sync/routes.py:1449-1455 | a rotate from another epoch is told the current one |
| Admission.ControlAdmitted | backend/app/sync/routes.py:1123-1204 | any control op passes if and only if its type's conditions hold, genesis and registration included: Root's signature, the author's own keys, its first position, and, of a genesis only, an all-zero link and no Workspace yet |
| Admission.RoleTableTransposed | backend/app/sync/control_payload.py:144-150 | the role table read by role: owners author every class, participants content and suggestions, compactors all but content and control, suggesters suggestions |
| Admission.RoleExactly | backend/app/sync/routes.py:1459-1472 | the role check passes if and only if some open Grant of the author has a role for the class |
| Admission.RoleRefusal | backend/app/sync/routes.py:1459-1472 | a refused author is told whether it has an open Grant, and if not whether it ever had one |
| Admission.EpochAdmitted | backend/app/sync/routes.py:1382-1417 | the freshness check passes if and only if the epoch is the current one or the one before, or there is none; otherwise it says on which side of which epoch |
| Admission.PruneAdmitted | backend/app/sync/routes.py:1207-1314 | a prune passes if and only if a Compaction of its author under the op id it names is stored or staged, and each target attests a stored content row other than that, unstamped and unclaimed unless replayed |
| Admission.ContentAdmitted | backend/app/sync/routes.py:1092-1122 | an op outside the control class passes if and only if the Workspace exists, its author has the role, its epoch is in the window and, of a prune, those conditions hold |
| Admission.WalkExactly | backend/app/sync/routes.py:1003-1204 | the walk succeeds if and only if every op stands on what was read and what the batch says before it, which is then the walk's state; otherwise it names the first op that does not |
| Acceptance.PlanExactly | backend/app/sync/routes.py:1862-1905 | the append goes through if and only if each op that is neither stored nor earlier in the batch takes the next position of its author |
| Acceptance.PlanNamesTheGap | backend/app/sync/routes.py:1871-1884 | otherwise the first op that does not is named, with the position expected of it |
| Acceptance.AnsweredExactly | backend/app/sync/routes.py:798-919 | in every reachable serial state a POST is answered if and only if each op stands and each new op is its author's next |
| PruneCompactions.AdmittedPruneHasItsCompaction | backend/app/sync/routes.py:1241-1257 | each prune of a batch that passes has a Compaction of its author under the op id it names, in the rows read for it or earlier in the batch, and none of its targets is that one |
| PruneCompactions.EveryPruneHasItsCompaction | backend/app/sync/routes.py:1241-1310 | in every state of every run each stored prune has that Compaction at a lower seq, and attests only content rows at lower seqs, never that one |
| Anchors.StampedExactly | backend/app/sync/routes.py:1317-1359 | in every state of every run a row carries a stored prune's seq if and only if that prune attests it |
| Anchors.EpochDigestIsTheRotates | backend/app/sync/routes.py:1762-1784 | in every state of every run the row of an epoch past 0 has the digest and the seq of a stored rotate to it |
| GrantWalk.IndexMatchesRowsExactly | backend/app/sync/routes.py:1003-1204 | whatever op ids are used, the walk's grant index equals, before every op of the batch, the rows materialised from the ops before it, if and only if no repeat among them asserts a Grant or a revocation that the index built without repeats does not hold |
| GrantWalk.AgreementSurvives | backend/app/sync/routes.py:1168 | from agreement, one op keeps index and rows equal exactly when it is not such a repeat |
| GrantWalk.IndexMatchesRowsWithoutReentry | backend/app/sync/routes.py:1168 | where op ids are not reused, they agree throughout the batch if and only if no stored Grant is posted again after its Grant was revoked |
| GrantWalk.DisturbingIsReentering | backend/app/sync/routes.py:1039-1051 | where op ids are not reused, the repeats that disturb the index are exactly those |
| GrantWalk.WalkAgreesWithRows | backend/app/sync/routes.py:300-341 | without that hypothesis, where op ids are not reused, index and rows always name the same grants, members and roles, and a grant live in the rows is live in the index |
| GrantWalk.RevokedExactly | backend/app/sync/routes.py:1805-1815 | a grant is revoked at an index exactly when the tables had it revoked or an earlier op of the batch revokes it |
| AuthorityProofs.PositionExactly | backend/app/sync/models.py:159-164 | whatever op ids are used, a new op lies strictly inside the window of a grant of its author with an admitting role, in the rows written afterwards, if and only if its role is admitted at its index with repeats left out |
| AuthorityProofs.AuthorityExactly | backend/app/sync/models.py:159-164 | whatever op ids are used, after an answered POST the whole log is positionally authorised if and only if it was before and each new op is admitted with repeats left out |
| AuthorityProofs.AuthorityHolds | backend/app/sync/routes.py:1003-1204 | a POST in which no repeat disturbs the index keeps the whole log positionally authorised |
| AuthorityProofs.PostKeepsGrants | backend/app/sync/routes.py:1721-1815 | after a POST every grant row stands on exactly the stored op that made it, at its seq, every stored revoke is reflected, and boundaries are ordered and never move |
| AuthorityProofs.NewGrantsAreSigned | backend/app/sync/routes.py:1572-1640 | each grant row a POST adds rests on a certificate signed by the granter it names, Root or its own author |
| AuthorityProofs.NewBoundariesAreSigned | backend/app/sync/routes.py:1643-1718 | whatever op ids are used, each revocation a POST stamps rests on a signature of its revoker, and on Root's for an owner Grant, unless an earlier repeat in the batch carries that Grant id for a lesser role |
| AuthorityProofs.OwnersFixedByPost | backend/app/sync/control_payload.py:493-511 | a POST with no root-signed control op changes no live owner and mints only lesser Grants, each granted by its author, who owned the Workspace |
| Certification.NewlyChainedCertifyThemselves | backend/app/sync/routes.py:1493-1569 | a Member certified by a POST authored the certifying op itself, as its first, with its token's key, under Root's signature |
| Certification.NewGrantsNameCertifiedMembers | backend/app/sync/routes.py:1601-1640 | each grant row a POST adds names a Member of the caller's User certified before it, and in preferences a device |
| Certification.MembersExactly | backend/app/sync/routes.py:1735-1760 | a POST adds and removes no Member, and certifies exactly those its new ops register, with the kind the last of them says |
| SerialRuns.SerialPostIsATransaction | backend/app/sync/routes.py:861-919 | a POST nothing overlaps is the overlapping-run transaction whose reads are all current, with the same tables and answer |
| SerialRuns.AuthorisedExactly | backend/app/sync/models.py:159-164 | in every state of every serial run, whatever op ids are used, the log is positionally authorised if and only if every answered POST so far had its new ops admitted with repeats left out |
| SerialRuns.EveryOpIsAuthorised | backend/app/sync/models.py:159-164 | over every serial run that posts no revoked Grant again and reuses no op id, every stored op that is not Root's is positionally authorised |
| SerialRuns.OwnersAreConstant | backend/app/sync/routes.py:1134-1135 | over every run segment without root-signed control ops the live owners are constant, and each Grant added is a lesser one made by an owner |
| SerialRuns.EveryContentOpIsFresh | backend/app/sync/routes.py:1382-1417 | in every reachable state each content op is sealed under the epoch of the last rotate before it or the one before that |
| SerialRuns.EveryAdmittedOpIsInWindow | backend/app/sync/routes.py:1382-1417 | in every answered POST of every serial run, each op outside the control class carries the epoch in force at its index or the one before, counting epochs keyed by an upload |
| SerialRuns.NothingRefusesLate | backend/app/sync/routes.py:861-889 | without overlap a POST is answered if and only if its walk and its chain check pass: no constraint or guarded update fires |
| SerialRuns.SerialRunIsSound | backend/app/sync/routes.py:798-919 | every reachable state keeps chains, stamps, grant anchors, rotate order and epoch windows |
| Reentry.ReentryBreaksAuthority | backend/app/sync/routes.py:1168 | on every site where Root's three signatures verify, three request bodies that the parsing loop takes are answered one after another and end with an op stored above its author's revocation boundary |
| ReentryRequests.BodiesAreTaken | backend/app/sync/routes.py:806-852 | the parsing loop reads those bodies, real headers, framed payloads and signatures in base64, as exactly the ops of that run |
| EpochWindow.WalkEpochIsCurrent | backend/app/sync/routes.py:1362-1379 | the epoch the walk carries is the maximum of the epoch rows at every batch index |
| EpochWindow.RotateIsNew | backend/app/sync/routes.py:1447-1456 | a rotate that passes is never a replay or a repeat, and goes one past the current epoch |
| EpochWindow.AdmittedInWindow | backend/app/sync/routes.py:1382-1417 | an admitted content op has key_epoch in {current - 1, current} for the epoch in force at its own index; `Admission.EpochAdmitted` is the converse |
| EpochWindow.PostKeepsFresh | backend/app/sync/routes.py:1762-1784 | afterwards every stored content op, old or new, lies in the window of the rotates before its seq, and rotates lie in transport order |
| SerialPosts.WalkedAndPlannedIsAnswered | backend/app/sync/routes.py:861-889 | with current reads, walk and plan success is enough to be answered |
| SerialPosts.CurrentReadsNeverCollide | backend/app/sync/routes.py:1843-1905 | with current reads the uniqueness constraints cannot fire |
| Serial.AnsweredIsRecorded | backend/app/sync/routes.py:798-919 | whatever op ids are used, an answered POST calls an op a duplicate exactly when its op id is stored or earlier in the batch, numbers its new ops in batch order above all stored ones, and stores exactly one row for each |
| Serial.AnsweredKeepsLog | backend/app/sync/routes.py:798-919 | where op ids are not reused it keeps the log's invariants, and every answer names the row of the very op posted |
| OpLogFacts.WalkAdmits | backend/app/sync/routes.py:1003-1204 | the admissions of a successful walk are exactly the control and prune ops of the batch, in order |
| LogInvariant.CommitKeepsLog | backend/app/sync/routes.py:861-919 | a commit decided on stale reads keeps chains gapless, op ids unique, stamps true and epochs contiguous, deletes nothing, and accounts for every answer |
| LogInvariant.StaleHeadIsCurrent | backend/app/sync/routes.py:1868-1884 | the next slot after a stale maximum, when the constraint lets it in, is the next slot now |
| Races.AuthorChainsNeverForkOrGap | backend/app/sync/routes.py:861-881 | in every state of every run each author's positions are 1 to n, once each, increasing with seq |
| Races.CopiesAreOneOp | backend/app/sync/routes.py:1863-1870 | however often an op is posted, one row stores it, every answer names its seq, and at most one answer calls it new |
| Races.LaterCopyChangesNothing | backend/app/sync/routes.py:1736-1741 | a second answered POST of a batch returns the same seqs, all duplicates, and changes no table |
| Races.PureReplayChangesNothing | backend/app/sync/routes.py:1339-1342 | an answer of duplicates only leaves every table as it was |
| Races.RetriedReplayIsAnswered | backend/app/sync/routes.py:861-871 | the one retry suffices: a walked batch the append sees stored is answered as duplicates |
| Races.StampsAreSoundAndFinal | backend/app/sync/routes.py:1317-1359 | compacted_by is written at most once, with the later seq of a stored unstamped prune attesting that row's seq, position and hash; control and prune rows are never stamped |
| Races.PruneRefusedOnlyByARace | backend/app/sync/routes.py:1331-1337 | a short rowcount means a transaction between verification and commit stamped a target of that very prune |
| PruneRaces.RowcountExactly | backend/app/sync/prune_payload.py:203-216 | the rowcount equals the target count if and only if every target has an unstamped row |
| PruneRaces.RowcountMismatchMeansRace | backend/app/sync/routes.py:1207-1314 | no collision inside one batch reaches the guarded update |
| Races.EpochsAreContiguous | backend/app/sync/routes.py:1762-1784 | in every state of every run the epoch rows are a contiguous range from 0 or 1 |
| Races.KeysAreTheCommittedSet | backend/app/sync/routes.py:2025-2136 | in every state each epoch holds no wraps, or exactly the wraps and escrow wrap its digest commits to |
| Races.AcknowledgedUploadIsStored | backend/app/sync/routes.py:2111-2135 | an acknowledged upload, by its own commit or after a lost one, finds its own set stored |
| Races.AcknowledgedUploadStands | backend/app/sync/routes.py:2007-2080 | every acknowledged upload of every run was an owner's and wrapped to registered keys, by the Grants and Members it read; one that created an epoch created epoch 0 and named the digest of its own set |
| Races.NextUploadExactly | backend/app/sync/routes.py:1975-2136 | in every state of every run an upload nothing overlaps is stored if and only if it stands so and its set fits: the set held, or the one the epoch's row or, for a new epoch 0, the caller commits to |
| Founding.TheLogOpensWithItsOnlyGenesis | backend/app/sync/routes.py:923-953 | in every state of every run the log is empty or opens with its genesis, at the Workspace's genesis seq, and holds no other |
| Founding.LateGenesisIsTold | backend/app/sync/routes.py:923-953 | a Device whose new genesis finds the Workspace founded at its commit is told so, at its genesis, unless the chain or a prune refuses the batch first |
| Paging.FinishedClientHoldsEverything | backend/app/sync/routes.py:1919-1957 | a client whose last page had no more holds every row, or on the default pull a prune attesting it |
| Paging.PagingLosesNothing | backend/app/sync/routes.py:1919-1957 | whatever commits between pages, each author position up to the head is known by the op or by a pulled attestation with the right hash |
| Paging.PagingEnds | backend/app/sync/routes.py:1944-1957 | whatever a client pulled before, once the log stands still it is done within its length over the page size, plus one, pages |
| Paging.PageIsComplete | backend/app/sync/routes.py:1944-1957 | a page holds every selected row up to its last one, a final page all of them |
| Paging.PullExactly | backend/app/sync/routes.py:1942-1957 | a row is on the page if and only if it is stored past the cursor, not hidden by a prune unless those are asked for, and has fewer than `limit` such rows below it; the page is in order, and announces more exactly when it leaves such a row out |
| KeyPlane.ValidateExactly | backend/app/sync/routes.py:2007-2049 | validation passes if and only if the epoch is in range, some open Grant row of the caller is an owner's, the escrow wrap has its width, and each entry has its width and names a Member of the caller's User under the id of its registered key, no Member twice; it hands on the digest of the set |
| KeyPlane.UploadExactly | backend/app/sync/routes.py:1975-2136 | an upload that no other request overlaps is stored if and only if it passes and its set fits |
| KeyPlane.CreatorNamesItsSet | backend/app/sync/routes.py:2051-2080 | an upload creates no epoch row but that of epoch 0, with the digest the caller claimed |
| KeyPlane.UploadKeepsKeys | backend/app/sync/routes.py:2025-2136 | an upload decided on stale reads that commits leaves its epoch holding exactly its set |
| KeyPlane.FilledUploadIsIdle | backend/app/sync/routes.py:2066-2109 | uploading the stored set again changes nothing |
| KeyPlane.FilledAcceptsOnlyItsSet | backend/app/sync/routes.py:2066-2109 | once an epoch is filled any other set is refused |
| KeyPlane.RecheckAcceptsOnlyItsSet | backend/app/sync/routes.py:2111-2135 | so is it on the path after a lost commit |
| KeyPlane.LostUploadFindsTheEpochFilled | backend/app/sync/routes.py:2111-2119 | an upload loses its commit only to one that filled the epoch |
| KeyWraps.HkdfSha256 | backend/app/sync/key_wraps.py:121-142 | for every length to 255 x 32 the loop returns exactly that prefix of T(1), T(2), ... of sections 2.2 and 2.3 of RFC 5869 |
| KeyWraps.BlockEquations | backend/app/sync/key_wraps.py:121-142 | each 32 bytes of the output are the HMAC, under the extracted key, of the 32 before them, the info and their number, the last cut off (sections 2.2 and 2.3 of RFC 5869) |
| KeyWraps.OkmPrefix | backend/app/sync/key_wraps.py:121-142 | a shorter output is a prefix of a longer one |
| KeyWraps.KeywrapInfoIsInjective | backend/app/sync/key_wraps.py:151-171 | the info string determines its inputs |
| KeyWraps.KeywrapInfoLayout | backend/app/sync/key_wraps.py:151-171 | the info string byte by byte, and when there is one |
| KeyWraps.KeywrapDigest | backend/app/sync/key_wraps.py:313-345 | the running digest over the sorted wraps hashes the canonical preimage, and fails exactly on a malformed set |
| KeyWraps.PreimageIgnoresOrder | backend/app/sync/key_wraps.py:313-345 | the preimage is the same for every permutation of wraps with distinct keys |
| KeyWraps.PreimageIsInjective | backend/app/sync/key_wraps.py:313-345 | equal preimages mean equal epoch, wrap set and escrow wrap |
| KeyWraps.PreimageLayout | backend/app/sync/key_wraps.py:313-345 | the preimage byte by byte: domain, epoch, count, 56 bytes an entry in order of Member id and key id, hash of the escrow wrap |
| KeyWraps.BytesLeExactly | backend/app/sync/key_wraps.py:334-336 | that order is the lexicographic one |
| EscrowSlot.SlotKeepsItsRoot | backend/app/sync/routes.py:636-715 | under any interleaving of writers versions only grow, the key never changes and each record verifies under the first key |
| EscrowSlot.FirstVersionIsOne | backend/app/sync/routes.py:660-690 | the first record has version 1 |
| EscrowSlot.OneWriterPerVersion | backend/app/sync/routes.py:693-714 | of two writers decided on one version, or both on an empty slot, at most one lands |
| EscrowSlot.LandedRecordIsTheRequest | backend/app/sync/routes.py:693-715 | what lands is the request, under the slot's key |
| EscrowSlot.PutExactly | backend/app/sync/routes.py:620-715 | a request is stored if and only if it is of the right widths, signed under the key of the record it read, or its own key on an empty slot, has version 1 there or any higher one, and that record is still in place; a signed one that is not is told the version it was decided against |
| EscrowSlot.LandsExactly | backend/app/sync/routes.py:636-715 | so under any interleaving of writers |
| EscrowSlot.SigningInputIsInjective | backend/app/sync/escrow.py:105-106 | a signed input names one Workspace, version and blob |
| EscrowSlot.DomainsAreApart | backend/app/sync/control_payload.py:90-94 | no string signed under one of the five domains is one signed under another |
| SignalProtocol.NoLostWakeUp | backend/app/sync/routes.py:2357-2402 | in every reachable state news past a socket's last poke is flagged, or a poster is before its notify, or the pump between clear and send, or the handshake before its first frame, or a poster died between commit and notify |
| SignalProtocol.QuietMeansCurrent | backend/app/sync/signal_hub.py:1-9 | a socket at rest with nothing flagged or pending has been poked for the whole log if and only if no poster that committed past its last poke died before its notify |
| SignalProtocol.DeathLosesAPoke | backend/app/sync/routes.py:891-919 | a run in which such a death leaves a socket at rest behind the log |
| SignalProtocol.SignalsStayHome | backend/app/sync/signal_hub.py:112-128 | pokes and revocations never reach another Workspace or Member, and a revocation is never undone |
| SignalProtocol.RevokedSendsOneFrameAtMost | backend/app/sync/routes.py:2371-2402 | after a revocation at most one more frame goes out |
| Signals.SignalHub.Notify | backend/app/sync/signal_hub.py:112-115 | flags every subscription of that Workspace and writes nothing else |
| Signals.SignalHub.Revoke | backend/app/sync/signal_hub.py:117-128 | trips exactly that Member's subscriptions there, and returns how many they are |
| Signals.SignalHub.Subscribe | backend/app/sync/signal_hub.py:99-102 | adds one fresh, unflagged subscription to that Workspace only |
| Signals.SignalHub.Unsubscribe | backend/app/sync/signal_hub.py:104-110 | removes it, and the Workspace's entry with its last one |
| Signals.PumpTurn | backend/app/sync/routes.py:2389-2402 | a turn forgets news exactly when it sends the poke for it; a revocation is reported before a disconnect, and both before news |
| Server.VerifyAndAuthorize | backend/app/sync/routes.py:1003-1204 | the loop over the batch, updating its index in place, computes the walk the authority results are about |
| Server.BatchWalk.AuthorizeContent | backend/app/sync/routes.py:1092-1122 | one op that is not control: verdict and next walk state |
| Server.BatchWalk.AuthorizeControl | backend/app/sync/routes.py:1123-1204 | the verdict and next state for one control op are `ControlStep`'s, which `Admission.ControlAdmitted` characterises |
| Server.VerifyPruneOp | backend/app/sync/routes.py:1207-1314 | the target loop finds the first refusal, if any; `Admission.PruneAdmitted` says when there is none |
| Server.PlanBatch | backend/app/sync/routes.py:1862-1905 | the append loop computes the plan the chain results are about |
| Server.Server.MaterialiseControl | backend/app/sync/routes.py:1721-1815 | the loop writes the rows of the specification, and returns exactly the Members of which a Grant was closed by it and every Grant is closed after |
| Server.Server.StampTargets | backend/app/sync/routes.py:1345-1358 | one guarded update stamps exactly the unstamped targets, and its rowcount counts them |
| Server.Server.MaterialisePrunes | backend/app/sync/routes.py:1317-1359 | stamps the targets of every new prune, or names the prune that came up short |
| Server.Server.WriteRows | backend/app/sync/routes.py:861-889 | inserts, index rows and stamps land together as `Finish` says, or every table is as it was |
| Server.Server.PostOps | backend/app/sync/routes.py:798-919 | the route does what `PostSerially` says, leaves every table untouched on refusal, pokes exactly when the log grew, and shuts out exactly the Members of which it closed a Grant and left none open |
| Server.Server.Post | backend/app/sync/routes.py:798-860 | the same from the encoded body on |
| Server.Server.PullOps | backend/app/sync/routes.py:1919-1957 | the page of `Paging.PullExactly`, refused exactly on a Workspace not derivable or to a Member whose every Grant is closed |
| Server.Server.PutKeywraps | backend/app/sync/routes.py:1975-2136 | the upload of `KeyPlane.UploadExactly`, behind the same two gates, with all tables untouched on refusal |
| Server.Server.PutRecoveryEscrow | backend/app/sync/routes.py:599-715 | the write of `EscrowSlot` against the slot's current row |
| Base58.Encode | app/android/app/src/main/kotlin/loonyb/in/jeeves/MwaPlugin.kt:202-227 | for every byte array: one '1' per leading zero byte, then the base-58 digits of the rest; every index stays in bounds |
| Base58.DivideInPlace | app/android/app/src/main/kotlin/loonyb/in/jeeves/MwaPlugin.kt:214-221 | one pass divides the big-endian number by 58 in place, every quotient fits a byte, and the byte after a vanished leading one is not zero |
| Base58.WriteDigits | app/android/app/src/main/kotlin/loonyb/in/jeeves/MwaPlugin.kt:209-222 | the digits take at most two places a byte, so the buffer has room left for the leading '1's |
| Base58.DecodedOfEncoded | app/android/app/src/main/kotlin/loonyb/in/jeeves/MwaPlugin.kt:202-227 | decoding an encoding returns the bytes |
| Base58.EncodedOfDecoded | app/android/app/src/main/kotlin/loonyb/in/jeeves/MwaPlugin.kt:200-227 | every string over the alphabet is the encoding of what it decodes to |
| Base58.EncodingIsInjective | app/android/app/src/main/kotlin/loonyb/in/jeeves/MwaPlugin.kt:202-227 | no two byte arrays share an encoding |
| Envelope.ParseInvertsSerialize | backend/app/sync/envelope.py:354-408 | parsing a serialised header returns it, whatever follows |
| Envelope.SerializeInvertsParse | backend/app/sync/envelope.py:378-408 | serialising a parsed header returns its bytes |
| Envelope.PaddedIsLeastLegal | backend/app/sync/envelope.py:426-442 | the padded length is the least legal length that is large enough |
| Envelope.PaddedIsMonotone | backend/app/sync/envelope.py:426-432 | and it is monotone |
| Envelope.NoLengthIsLegalForBothSuites | backend/app/sync/envelope.py:445-456 | no body length is legal for both suites |
| Envelope.FloorIsTight | backend/app/sync/envelope.py:212-221 | every legal envelope reaches its suite's floor, and the floor is attained |
| Envelope.ParseBodyExactly | backend/app/sync/envelope.py:466-488 | unframing accepts exactly u32 length, payload, zeros at a legal length, and returns that payload |
| Envelope.ParseBodyInvertsFrameBody | backend/app/sync/envelope.py:459-488 | it inverts framing |
| Envelope.SplitExactly | backend/app/sync/envelope.py:504-514 | splitting cuts an envelope into exactly the parts it was built from |
| JsonText.ParseBase64OfText | backend/app/sync/control_payload.py:224-230 | base64 (section 4 of RFC 4648) decodes what it encodes |
| JsonText.TextOfParsedBase64 | backend/app/sync/control_payload.py:224-230 | an accepted text is the text of its bytes if and only if the bits that its padding leaves spare are zero |
| JsonText.SpareBitsAreIgnored | backend/app/sync/control_payload.py:224-230 | two texts of one byte, of which only one is canonical |
| JsonText.Base64CharsAreTabled | backend/app/sync/control_payload.py:224-230 | the alphabet is that of table 1 of RFC 4648 |
| JsonText.ParseUuidOfText | backend/app/sync/control_payload.py:240-243 | so does the canonical UUID text |
| JsonText.TextOfParsedUuid | backend/app/sync/control_payload.py:240-243 | and whatever parses is the canonical text of its id |
| JsonText.TextOfParsedHex | backend/app/sync/prune_payload.py:140-152 | lowercase hex is canonical: what parses is the text of its bytes |
| PruneCodec.PruneShapeExactly | backend/app/sync/prune_payload.py:203-216 | the size comparisons accept exactly the non-empty, bounded lists without a repeated seq or position |
| PruneCodec.DecodePruneInverts | backend/app/sync/prune_payload.py:161-200 | decoding an encoded prune returns it if and only if its shape and its numbers are legal |
| PruneCodec.DecodedPruneIsShaped | backend/app/sync/prune_payload.py:178-200 | whatever decodes has that shape |
| CodecExactly.PruneExactly | backend/app/sync/prune_payload.py:161-200 | a JSON value decodes to a prune if and only if it spells that prune field by field and its shape and numbers are legal |
| ControlCodec.DecodeControlInverts | backend/app/sync/control_payload.py:675-757 | for all five types an encoded payload decodes to its normal form, authority Root for the Root-only types, exactly when it is well shaped |
| ControlCodec.DecodedControlIsSound | backend/app/sync/control_payload.py:699-757 | whatever decodes is well shaped and in normal form; a rotate is one step |
| ControlCodec.DecodeGrantInverts | backend/app/sync/control_payload.py:480-511 | an encoded Grant decodes to itself or to the refusal its shape earns |
| ControlCodec.DecodedGrantIsSound | backend/app/sync/control_payload.py:493-511 | an owner Grant read from anything names Root |
| ControlCodec.DecodeRevokeInverts | backend/app/sync/control_payload.py:532-554 | the same law for revokes |
| ControlCodec.DecodeRotateInverts | backend/app/sync/control_payload.py:592-629 | the same law for rotates |
| ControlCodec.DecodeRegistrationInverts | backend/app/sync/control_payload.py:362-390 | the same law for registrations, key ids derived |
| ControlCodec.DecodeGenesisInverts | backend/app/sync/control_payload.py:423-442 | the same law for genesis |
| CodecExactly.GrantExactly | backend/app/sync/control_payload.py:480-511 | a JSON value decodes to a Grant if and only if it spells it field by field and the Grant is well formed |
| CodecExactly.RevokeExactly | backend/app/sync/control_payload.py:532-554 | the same of revokes |
| CodecExactly.DecodedRegistrationIsCarried | backend/app/sync/control_payload.py:305-390 | whatever decodes to a registration carries every field of it, the ids of both keys included, base64 up to spare bits |
| CodecExactly.DecodedGenesisIsCarried | backend/app/sync/control_payload.py:423-442 | the same of genesis |
| CodecExactly.DecodedRotateIsCarried | backend/app/sync/control_payload.py:592-629 | the same of rotates |
| CodecExactly.DecodedControlIsCarried | backend/app/sync/control_payload.py:699-757 | the same of payloads: type and link verbatim, certificate, signature and authority |
| Intake.TakeBatch | backend/app/sync/routes.py:806-852 | the parsing loop stops at the first refusal, behind the two gates on the request |
| Intake.TakenBatchIsSound | backend/app/sync/routes.py:813-852 | parsed ops are the caller's, functions of their envelopes, and satisfy every shape rule the walk relies on |
| Intake.EnvelopesNameOps | backend/app/sync/routes.py:1039-1051 | if one author never reuses an op id for another envelope, author and op id tell ops apart |
| IntakeExactly.TakeExactly | backend/app/sync/routes.py:813-852 | a text is taken if and only if it is base64 of a header and enough bytes behind it, of a served suite and class, this Workspace and this caller, and then as the op of that envelope |
| IntakeExactly.BatchExactly | backend/app/sync/routes.py:813-852 | a batch is taken if and only if each text is, in order; otherwise the first that is not is named |
| IntakeExactly.ControlReadsBack | backend/app/sync/routes.py:1475-1490 | an encodable control payload of any length, framed, signed and sent, is read back as that payload |
| IntakeExactly.CertificateReadsBack | backend/app/sync/control_payload.py:362-554 | a well-formed certificate of any of the four kinds is read back from its bytes |
| IntakeExactly.PruneReadsBack | backend/app/sync/routes.py:1227-1239 | and so is a legal prune |

## Left out

- SerialRuns.EveryOpIsAuthorised: claims authority of POSTs that do not overlap, like `SerialRuns.AuthorisedExactly`; verification reads an earlier snapshot and the retry does not verify again, so an op may commit just after a revocation it did not see.
- Races.PruneRefusedOnlyByARace: is about POSTs that passed their walk; a walk refuses a stamped target with the same code and the target's seq.
- SignalProtocol.NoLostWakeUp: a poster may die between its commit and its `notify`; a restart of the whole server, which ends every socket, is not a step of its own.
- Races.CopiesAreOneOp: holds of answered copies; a replayed genesis or rotate is refused by its walk, so not every stored batch can be posted again.
- Which code a refused op earns when several of its conditions fail follows the order of the source's checks in the functions; theorems say when an op is refused, and name the code only where a client acts on it.
- Overlapping runs let other transactions set the grant, member and escrow tables to anything, so nothing about authority is concluded from them.
- Each statement of a walk reads one committed state; the two lookups a prune makes for its compaction and its targets share one.
- Flush and commit are one step: the locks of an insert or update are taken to be held to the commit. A primary key lost at an automatic flush in the middle of materialisation is answered as one lost at the commit.
- The Workspace id is fixed: every statement filters on it, so one Workspace's rows are modelled.
- Column widths (a 32-bit `key_epoch`, 64-bit seqs), timestamps and the order of rows inside one flush.
- JSON text and regular expressions: payloads are JSON values with field names as symbols; the newline a `$` lets through is not modelled.
- UUID derivation from user ids is a set of user ids a Workspace is derived by.
- Ed25519, SHA-256, HMAC, X25519 and the AEAD; sealing, opening, wrapping and unwrapping.
- Which wraps a route returns to a Member (`get_my_keywraps`, `get_epoch_keys`), the member registry, tokens and challenges, recovery fetch limits and audits.
- Closing sockets and revoking refresh tokens: `Server.PostOps` returns the Members concerned.
- The server never checks `prev_author_hash`, so no result uses it.
- An input array of more than 2^30 bytes, whose doubled size overflows the platform's integer.
