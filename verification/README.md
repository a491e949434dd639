# Verified models of the event-sourcing, CQRS and auth protocols

This project models the hardest parts of the framework and proves what they promise: concurrent
protocols over atomic store operations, and the self-contained algorithms beside them. Each
`.dfy` file covers one component.

| component | files |
|---|---|
| OAuth refresh rotation with family sweeps (section 4.14.2 of RFC 9700) | `OAuth.dfy`, `OAuthProtocol.dfy` |
| PostgreSQL event store: appends, erasures, polls | `EventTable.dfy`, `EventFeed.dfy` |
| Aggregate runtime with snapshots and retries | `AggregateStore.dfy` |
| Policy compiler and decisions | `PolicyGraph.dfy`, `Policy.dfy`, `PolicyMake.dfy` |
| Resumable history import with a hash-chained token | `CanonicalJson.dfy`, `HistoryImport.dfy`, `HistoryImportRuns.dfy` |
| Command idempotency, in memory and expiring | `Idempotency.dfy` |
| Outbox claims, leases and fenced settlements | `Outbox.dfy` |
| CBOR decoder (section 3 of RFC 8949) | `Bytes.dfy`, `Cbor.dfy` |
| ECDSA signature converters (section 2.2.3 of RFC 3279, section 3.4 of RFC 7518) | `Bytes.dfy`, `Ecdsa.dfy` |
| Base32 on a 32-bit accumulator (section 6 of RFC 4648) | `Base32.dfy` |
| Second factor: lockout, single-use steps, recovery codes (section 5.2 of RFC 6238) | `Totp.dfy`, `RecoveryCodes.dfy` |
| Dotenv expander, parser and printer | `Expand.dfy`, `DotenvDocument.dfy`, `DotenvWriter.dfy`, `DotenvEntry.dfy`, `DotenvRoundTrip.dfy`, `DotenvReadsBack.dfy` |

How the models are built:

- Each in-memory operation and each SQL statement is one atomic step. A store is a class whose
  methods state the whole new state; a protocol is a state machine over those steps, and its
  theorems quantify over every run, so over every interleaving.
- Loops and recursions of the program are methods or recursive functions proved against a
  specification that does not mention them: reachability for the policy compiler, bit strings for
  base32, encoding trees for CBOR, reference equations for the expander.
- Hashes are collision-free and random ids are fresh. Clocks, signature checks, rate limits, audit
  sinks and foreign decoders are inputs or absent.

Where the code and its documentation disagree, the model follows the code, and the disagreement is
a lemma with a concrete input together with the exact condition:

- A reuse is not audited only once while refreshes are in flight (`OAuthProtocol.AuditedTwice`): one
  more audit can follow exactly when something of the family is live or a call is about to store a
  token in it (`OAuthProtocol.AuditedAgainIff`).
- A grant may name a condition or a wildcard resource that is declared nowhere, if every object
  inherits that name (`PolicyMake.ToStringIsAccepted`); accepted definitions are consistent in their
  own names exactly when no grant does (`PolicyMake.DeclaredIffNoneInherited`).
- `canonical` loses a member named `__proto__` (`CanonicalJson.ProtoMemberIsLost`), and nothing else:
  a form is whole exactly when there is none (`CanonicalJson.FormIsWholeIffNoProto`).
- Different values can have the same JSON text and so the same checksum (`CanonicalJson.TextsCollide`,
  `HistoryImport.ChecksumsCollide`); a value prints as itself exactly when it holds no big integer, no
  undefined item and no non-finite number (`CanonicalJson.PrintedAsItIsIff`).
- The composite idempotency key separates scopes only without NUL characters, and an anonymous
  dispatch shares the scope of the actor with the empty name (`IdempotencyKeys`).
- Completion in the expiring idempotency store is not fenced (`IdempotencyPg.ExpiryBreaksIt`): a key
  keeps its guarantee exactly as long as no claim or purge takes its expired row while a run of it is
  unsettled or its success is recorded (`IdempotencyPg.SameGuarantee`).
- A recovery code can be refused although its entry was never spent
  (`RecoveryCodes.RefusedThoughUnspent`), exactly when the list holds at least three other entries
  (`RecoveryCodes.RefusableIffThreeOthers`).
- A DER signature with a long-form length is accepted and not reproduced
  (`Ecdsa.ReproducedIffShort`).
- A reference to an undeclared variable such as `$constructor` expands to what the environment record
  inherits under that name (`Expand.ConstructorShows`, `Expand.ReferenceAgreesIff`).
- `render` gives a file with CRLF back exactly when a carriage return stands before every line feed
  between items and at the end, and before none inside an item (`DotenvDocument.RenderedIffSeams`).
- `formatValue` writes values that are not read back. Alone in a file a value comes back exactly when
  it has no CRLF and, if it ends in a backslash, neither a line end nor a comment sign
  (`DotenvReadsBack.WrittenReadsBackIff`); among other entries, also no later quote may close it
  (`DotenvRoundTrip.FileReadsBackIff`, `DotenvReadsBack.LaterQuoteClosesIt`).

## Model

| member | source | states |
|---|---|---|
| `OAuthStore.TokenStore.PutToken` | packages/auth/src/oauth-server.ts:283-286 | the token is stored under its id and nothing else changes |
| `OAuthStore.TokenStore.RevokeToken` | packages/auth/src/oauth-server.ts:295-300 | a known token is stamped revoked, an unknown one changes nothing |
| `OAuthStore.TokenStore.RotateToken` | packages/auth/src/oauth-server.ts:301-308 | lands exactly on a live token, stamping it rotated and revoked; otherwise nothing is written |
| `OAuthStore.TokenStore.RevokeFamily` | packages/auth/src/oauth-server.ts:309-323 | the loop leaves the family without a live token, touches nothing else and counts exactly the tokens that were live |
| `OAuthStore.RefreshAlone` | packages/auth/src/oauth-server.ts:852-940 | a refresh that runs alone: which presentations are accepted, what is minted and rotated, and that a replay sweeps the family |
| `OAuthProtocol.KeepsInv` | packages/auth/src/oauth-server.ts:852-940 | every store step of refresh, code exchange, revocation and cleanup keeps the invariant; its core: a live token of a swept family means a refresh in flight that must still sweep |
| `OAuthProtocol.MinterIsGuarded` | packages/auth/src/oauth-server.ts:893-937 | a refresh still minting in a swept family must itself sweep later, or another call must |
| `OAuthProtocol.SweeperStays` | packages/auth/src/oauth-server.ts:907-937 | a call that must sweep stays obliged through every step of the others, until it sweeps |
| `OAuthProtocol.RunsKeepInv` | packages/auth/src/oauth-server.ts:852-940 | the invariant holds in every state of every interleaving |
| `OAuthProtocol.SweptFamilyIsDead` | packages/auth/src/oauth-server.ts:870-937 | once a family has been swept, or a replay or lost rotation was seen in it, it holds no live token whenever no refresh is in flight |
| `OAuthProtocol.RotatedAtMostOnce` | packages/auth/src/oauth-server.ts:893-908 | over a whole run a refresh token is rotated by at most one presenter |
| `OAuthProtocol.CodeSpentAtMostOnce` | packages/auth/src/oauth-server.ts:813-836 | over a whole run an authorization code is consumed by at most one exchange |
| `OAuthProtocol.AnswersLivePair` | packages/auth/src/oauth-server.ts:924-939 | a refresh answers only with a live refresh token, and with a live access token unless a client revoked it or a cleanup removed it |
| `OAuthProtocol.NeverBlocked` | packages/auth/src/oauth-server.ts:852-940 | a call in flight can always take its next step, and each step brings it closer to its end |
| `OAuthProtocol.AuditedNoMore` | packages/auth/src/oauth-server.ts:870-887 | after a sweep or a replay, from any state without a refresh in flight on, no further reuse is ever audited for the family |
| `OAuthProtocol.QuietForever` | packages/auth/src/oauth-server.ts:870-887 | a family with nothing live and no call about to store a token in it stays so in every run, and its audits stay the same |
| `OAuthProtocol.AuditedAgainIff` | packages/auth/src/oauth-server.ts:870-923 | while a rotated-away token of the family is stored, one more audit can follow exactly when something of the family is live or a call is about to store a token |
| `OAuthProtocol.AuditedTwice` | packages/auth/src/oauth-server.ts:870-923 | a concrete run of three calls with one token that audits its family twice |
| `EventTable.VersionsAreExactly` | packages/eventsourcing-pg/src/EventStore.ts:244-294 | in a numbered table a stream holds a version exactly when it lies between one and the number of its rows |
| `EventTable.AppendKeepsNumbering` | packages/eventsourcing-pg/src/EventStore.ts:164-204 | adding rows that follow the expected version keeps every stream numbered without gaps |
| `EventTable.RewritingAllLeavesTombstones` | packages/eventsourcing-pg/src/EventStore.ts:597-615 | rewriting every version up to the stream's last leaves tombstones only |
| `EventTable.Stage` | packages/eventsourcing-pg/src/EventStore.ts:164-204 | one insert per event, at consecutive versions and drawn positions |
| `EventTable.Store.Append` | packages/eventsourcing-pg/src/EventStore.ts:244-294 | a conflict on an erased stream or a stale version writes nothing; otherwise exactly the events are added, in order, after the expected version |
| `EventTable.Store.EraseStream` | packages/eventsourcing-pg/src/EventStore.ts:556-632 | erasure tombstones every row of the stream, pins its version and leaves other streams alone; a repeat changes nothing |
| `EventFeed.OnlyCommitsWrite` | packages/eventsourcing-pg/src/EventStore.ts:244-294 | no step but a commit changes the table or the ledger |
| `EventFeed.RunsKeepInv` | packages/eventsourcing-pg/src/EventStore.ts:148-294 | numbering, commit order, lock discipline and consumer progress hold in every state of every interleaving of appends, erasures and polls, for every lock-key hash |
| `EventFeed.NothingCommitsBelow` | packages/eventsourcing-pg/src/EventStore.ts:223-243 | whatever commits later lies above every position visible now |
| `EventFeed.ExactlyOnceInOrder` | packages/eventsourcing/src/EventStore.ts:104-107 | what a checkpointing consumer has received is at any time an initial segment of everything ever committed, strictly ascending, so nothing twice and nothing skipped |
| `EventFeed.PollCatchesUp` | packages/eventsourcing-pg/src/EventStore.ts:329-364 | a poll hands over everything committed so far, or exactly the next `limit` events of it |
| `EventFeed.PollKeepsUpToDate` | packages/eventsourcing-pg/src/EventStore.ts:329-364 | reading from the checkpoint in position order continues exactly where the consumer stopped |
| `EventFeed.BackstopNeverFires` | packages/eventsourcing-pg/src/EventStore.ts:148-162 | under the stream lock the unique (stream, version) constraint is never violated, also when two streams hash to one lock key |
| `EventFeed.CommittedAppend` | packages/eventsourcing-pg/src/EventStore.ts:244-294 | a committed append added exactly its events right after the version it expected |
| `EventFeed.ErasedForever` | packages/eventsourcing-pg/src/EventStore.ts:556-632 | once erased, a stream's rows are tombstones and its version never changes again |
| `EventFeed.StreamsGapFree` | packages/eventsourcing-pg/src/EventStore.ts:244-294 | in every reachable state each stream holds exactly the versions 1..k, once each and in order |
| `AggregateStore.Rehydrate` | packages/domain/src/Aggregate.ts:25-35 | the loop computes the fold of the events from the given state |
| `AggregateStore.Runtime.LoadFrom` | packages/eventsourcing/src/AggregateStore.ts:111-134 | with or without a snapshot, loading answers the plain fold of the whole stream and its version |
| `AggregateStore.Runtime.Execute` | packages/eventsourcing/src/AggregateStore.ts:138-194 | run alone, a command appends exactly what `decide` answers on the fold, answers the new fold, and leaves every snapshot agreeing with the stream |
| `AggregateProtocol.RunsKeepInv` | packages/eventsourcing/src/AggregateStore.ts:138-210 | the invariant holds in every interleaving of commands, retries and late snapshot saves |
| `AggregateProtocol.StreamIsDecidedBlocks` | packages/eventsourcing/src/AggregateStore.ts:138-194 | the stream is a concatenation of blocks, each what `decide` answers on the fold of the stream before it, at most one block per command |
| `AggregateProtocol.StoredSnapshotAgrees` | packages/eventsourcing/src/AggregateStore.ts:183-193 | any stored snapshot, an older one saved late included, is the fold of its prefix, and loading through it gives the plain fold |
| `AggregateProtocol.SnapshotLoadIsPlainLoad` | packages/eventsourcing/src/AggregateStore.ts:111-134 | folding the tail from a faithful snapshot is folding everything from the initial state |
| `AggregateProtocol.AnswerIsInStream` | packages/eventsourcing/src/AggregateStore.ts:160-194 | a finished command's events stand in the stream at its version, and its answered state is the fold up to there |
| `AggregateProtocol.ReadNeverBlocked` | packages/eventsourcing/src/AggregateStore.ts:111-134 | no loading call finds its snapshot ahead of the stream |
| `PolicyGraph.CycleSearch.Visit` | packages/authorization/src/policy.ts:243-258 | the depth-first visit pushes only real cycles and keeps the finishing order topological while none is found |
| `PolicyGraph.FindCycles` | packages/authorization/src/policy.ts:243-260 | a cycle is reported exactly when the inheritance graph has one, everything reported is one, and otherwise a topological order exists |
| `PolicyGraph.OrderedIsAcyclic` | packages/authorization/src/policy.ts:243-260 | a topological order of all roles excludes every cycle |
| `Policy.GrantedUnfolds` | packages/authorization/src/policy.ts:292-313 | what a role is granted by reachability is what it declares and what its direct parents are granted |
| `Policy.MergeRepresents` | packages/authorization/src/policy.ts:282-291 | merging one grant keeps a table an exact picture of a set of facts, unconditional grants absorbing conditional ones |
| `Policy.Resolver.Resolve` | packages/authorization/src/policy.ts:292-313 | the memoised recursion terminates and answers a table that represents exactly what the role is granted |
| `Policy.Resolver.MergeParents` | packages/authorization/src/policy.ts:298-303 | the parents' tables merged represent exactly the inherited facts |
| `Policy.MergeTable` | packages/authorization/src/policy.ts:299-302 | copying a parent's table loses and adds nothing |
| `Policy.MergeGrants` | packages/authorization/src/policy.ts:304-310 | the declared grants merged, wildcards expanded, represent exactly the declared facts |
| `Policy.ResolveRoles` | packages/authorization/src/policy.ts:277-316 | every role has a table and each represents exactly what the role is granted |
| `Policy.RolesIn` | packages/authorization/src/principal.ts:47-61 | the roles held in a scope, each once |
| `Policy.Decide` | packages/authorization/src/policy.ts:342-395 | unless a condition throws, allows exactly when some held role reaches a grant of the permission that is unconditional or whose condition holds, and names such a role and condition; a refusal lists exactly the held roles with conditional grants; a throw comes from a condition of a held role |
| `Policy.DecideHeld` | packages/authorization/src/policy.ts:347-394 | the loop over held roles allows exactly when one of their tables does, explains itself from the tables, and a refusal lists exactly the held roles with an entry |
| `Policy.AllowedPermissions` | packages/authorization/src/policy.ts:399-403 | exactly the declared permissions the principal may exercise, in declaration order, unless a condition throws |
| `Policy.Matrix` | packages/authorization/src/policy.ts:466-483 | every role but one named __proto__, and every permission, has a cell that agrees with the meaning of the definition |
| `Policy.CellIsRight` | packages/authorization/src/policy.ts:466-483 | granted, conditional with exactly these conditions, or denied, as the definition means it |
| `PolicyMake.CheckNames` | packages/authorization/src/policy.ts:187-241 | no issue exactly when resources, actions, roles, parents, grants and conditions are all well named and known, where an inherited name counts as known to `in` |
| `PolicyMake.Validate` | packages/authorization/src/policy.ts:187-262 | no issue exactly for a consistent definition, inherited names included as `in` sees them; a cycle issue exactly when there is a cycle, and each names a real one |
| `PolicyMake.GrantedIsDeclared` | packages/authorization/src/policy.ts:218-241 | in an accepted definition nothing granted falls outside the declared permissions and conditions |
| `PolicyMake.PermissionNameUnambiguous` | packages/authorization/src/policy.ts:322-326 | resource names without a colon make permission names unambiguous |
| `PolicyMake.GrantsOf` | packages/authorization/src/policy.ts:332-341 | one line per permission the role is granted, in declaration order, with its exact conditions, and no other line |
| `PolicyMake.Make` | packages/authorization/src/policy.ts:525-533 | refuses exactly the inconsistent definitions, throws exactly on a wildcard for an inherited resource name, and otherwise compiles tables that mean what the definition means |
| `PolicyMake.DeclaredIffNoneInherited` | packages/authorization/src/policy.ts:221-240 | a definition is consistent in its own names exactly when it is accepted and no grant names an inherited key |
| `PolicyMake.ToStringIsAccepted` | packages/authorization/src/policy.ts:235-239 | a grant under the undeclared condition toString is accepted |
| `PolicyMake.FindCrash` | packages/authorization/src/policy.ts:304-310 | found exactly when some grant is a wildcard for an undeclared resource |
| `CanonicalJson.SameFormIffSameMeaning` | packages/eventsourcing/src/HistoryImport.ts:85-95 | two values have the same canonical form exactly when they mean the same with __proto__ members left aside: member order and undefined members do not matter, all else does |
| `CanonicalJson.FormKeepsMeaning` | packages/eventsourcing/src/HistoryImport.ts:85-95 | the canonical form means what the value means with __proto__ members left aside |
| `CanonicalJson.SameMeaningSameForm` | packages/eventsourcing/src/HistoryImport.ts:85-95 | equal meanings sort to the identical form |
| `CanonicalJson.ProtoMemberIsLost` | packages/eventsourcing/src/HistoryImport.ts:89-93 | a member named __proto__ never reaches the form, whatever it holds |
| `CanonicalJson.FormIsWholeIffNoProto` | packages/eventsourcing/src/HistoryImport.ts:85-95 | the form keeps the whole meaning exactly when no defined member anywhere is named __proto__ |
| `CanonicalJson.SameFormIffSameValue` | packages/eventsourcing/src/HistoryImport.ts:85-95 | for values without such members, the same form exactly when the same value up to member order and undefined members |
| `CanonicalJson.PrintedAsItIsIff` | packages/eventsourcing/src/HistoryImport.ts:97-100 | printing changes nothing exactly when there is no big integer, no undefined item and no non-finite number |
| `CanonicalJson.SameTextIffSameValue` | packages/eventsourcing/src/HistoryImport.ts:85-100 | values whose forms print as themselves have the same text exactly when they are the same value |
| `CanonicalJson.OtherwiseSharesItsText` | packages/eventsourcing/src/HistoryImport.ts:97-100 | any other value shares its text with a different one, the one it prints as |
| `CanonicalJson.TextsCollide` | packages/eventsourcing/src/HistoryImport.ts:97-100 | an array of undefined prints as an array of null, and a big integer as its digits |
| `HistoryImport.CheckNext` | packages/eventsourcing/src/HistoryImport.ts:142-210 | an event is accepted exactly when it is sound in itself and follows the ones before it |
| `HistoryImport.Prepare` | packages/eventsourcing/src/HistoryImport.ts:117-212 | accepts exactly the batches that are named, non-empty, match their checksum and are coherent, and answers their event ids |
| `HistoryImport.CoherentPairs` | packages/eventsourcing/src/HistoryImport.ts:142-210 | in a coherent batch positions count up by one, ids differ and each stream's next event has the next version |
| `HistoryImport.ChecksumsCollide` | packages/eventsourcing/src/HistoryImport.ts:109-110 | two events with different payloads and the same checksum |
| `HistoryImportRuns.ValidateContinuation` | packages/eventsourcing/src/HistoryImport.ts:233-263 | no fault exactly when the events continue the target's position, versions and ids |
| `HistoryImportRuns.Importer.ImportBatch` | packages/eventsourcing-pg/src/EventStore.ts:368-530 | the whole transaction: the new target and the answer, and which refusal it is: an erased target, a divergent repeat, then the session |
| `HistoryImportRuns.RunReflects` | packages/eventsourcing-pg/src/EventStore.ts:368-530 | every store reached by imports mirrors one chain of written batches |
| `HistoryImportRuns.ImportedStoreIsExact` | packages/eventsourcing-pg/src/EventStore.ts:368-530 | positions are exactly 1..n, versions exactly 1..k per stream, ids distinct, and at most one session, at position n |
| `HistoryImportRuns.ResendIsUnchanged` | packages/eventsourcing-pg/src/EventStore.ts:395-421 | re-sending a written batch, however much came after, changes nothing and answers the same fields marked unchanged |
| `HistoryImportRuns.SameTokenSameChain` | packages/eventsourcing/src/HistoryImport.ts:275-288 | chains ending in the same token wrote the same batches, so the same events as they print |
| `HistoryImportRuns.SameTokenIffSameBatches` | packages/eventsourcing/src/HistoryImport.ts:275-288 | two chains end in the same token exactly when they have the same batches, events compared as they print |
| `HistoryImportRuns.SameTokenSameStore` | packages/eventsourcing-pg/src/EventStore.ts:453-521 | two imported stores whose sessions carry the same token hold the same rows as they print |
| `IdempotencyKeys.SeparatedIffClean` | packages/cqrs/src/bus.ts:158-159 | no other (tag, actor, key) shares a composite key exactly when none of the three holds a NUL |
| `IdempotencyKeys.NoCollision` | packages/cqrs/src/bus.ts:158-159 | without NUL in tag and actor the composite key determines the scope |
| `IdempotencyKeys.NulCollides` | packages/cqrs/src/bus.ts:158-159 | any NUL gives a scope a twin with the same composite key |
| `IdempotencyKeys.AnonymousIsEmptyActor` | packages/cqrs/src/bus.ts:158-159 | two actors share a key under one tag and key exactly when they are the same, or one is anonymous and the other has the empty name |
| `IdempotencyStore.InMemory.Begin` | packages/cqrs/src/bus.ts:161-173 | claims a free key, replays or refuses a taken one, and writes only when it claims |
| `IdempotencyStore.InMemory.Complete` | packages/cqrs/src/bus.ts:174-182 | the key's record becomes the completed result |
| `IdempotencyStore.InMemory.Release` | packages/cqrs/src/bus.ts:183-187 | only a claimed record is removed |
| `IdempotencyProtocol.RunsKeepInv` | packages/cqrs/src/bus.ts:234-289 | one holder per key and successes recorded as they were, in every interleaving, failures and crashes included |
| `IdempotencyProtocol.OneRunInFlight` | packages/cqrs/src/bus.ts:234-289 | at most one handler run per key is in flight |
| `IdempotencyProtocol.OneSuccessPerKey` | packages/cqrs/src/bus.ts:234-289 | at most one success is ever recorded per key |
| `IdempotencyProtocol.ReplaysAnswerTheSuccess` | packages/cqrs/src/bus.ts:234-289 | after a success the same payload hash is answered with it forever, any other is refused |
| `IdempotencyPg.Refines` | packages/eventsourcing-pg/src/IdempotencyStore.ts:58-133 | every statement of the expiring store first forgets the rows it takes for expired and then is a step of the protocol or invisible to it; only a completion needs its own key in order |
| `IdempotencyPg.SameGuarantee` | packages/eventsourcing-pg/src/IdempotencyStore.ts:58-133 | from any state in which a key is in order it stays so exactly as long as no claim or purge takes its row while a run of it is unsettled or its success is recorded, whatever happens to other keys |
| `IdempotencyPg.ExpiringStoreReplays` | packages/eventsourcing-pg/src/IdempotencyStore.ts:82-106 | as long as the key's row is not taken, a replay reads its recorded success and another hash is refused |
| `IdempotencyPg.KeyOkMeans` | packages/eventsourcing-pg/src/IdempotencyStore.ts:82-106 | a key in order has one unsettled run or one success and not both, and is read as that success |
| `IdempotencyPg.StepKeepsKey` | packages/eventsourcing-pg/src/IdempotencyStore.ts:58-133 | a step keeps a key in order unless it takes the key's busy row |
| `IdempotencyPg.BrokenStep` | packages/eventsourcing-pg/src/IdempotencyStore.ts:58-133 | a step that takes the busy row of a key in order puts it out of order |
| `IdempotencyPg.BreakShows` | packages/eventsourcing-pg/src/IdempotencyStore.ts:58-81 | taking a busy row puts a second run in flight, at once or with the next dispatch of the key |
| `IdempotencyPg.ExpiryBreaksIt` | packages/eventsourcing-pg/src/IdempotencyStore.ts:107-122 | a run that outlives its claim completes over the next holder, whose payload is then answered with the wrong result |
| `OutboxTable.Table.Enqueue` | packages/eventsourcing-pg/src/Outbox.ts:101-122 | a known id is left as it is, a new one is added pending at the end |
| `OutboxTable.Table.Pick` | packages/eventsourcing-pg/src/Outbox.ts:123-160 | exactly the first `limit` due and unlocked entries, in enqueue order |
| `OutboxTable.Table.Claim` | packages/eventsourcing-pg/src/Outbox.ts:143-175 | picks exactly the first `limit` due and unlocked entries in enqueue order, and exactly these carry the new token and lease |
| `OutboxTable.Table.MarkPublished` | packages/eventsourcing-pg/src/Outbox.ts:176-191 | settles exactly the pending entries under the claim and says whether there were any |
| `OutboxTable.Table.MarkFailed` | packages/eventsourcing-pg/src/Outbox.ts:192-203 | attempts and retry time change under the claim, the claim itself stays |
| `OutboxTable.Table.MarkDead` | packages/eventsourcing-pg/src/Outbox.ts:204-215 | a pending entry under the claim is dead-lettered and its claim dropped |
| `OutboxTable.Table.Replay` | packages/eventsourcing-pg/src/Outbox.ts:216-227 | dead entries become pending afresh, others do not change |
| `OutboxProtocol.RunsKeepInv` | packages/eventsourcing-pg/src/Outbox.ts:101-227 | leases cover, claims are owned by their last claimer and published entries are final, in every run |
| `OutboxProtocol.LeasesNeverOverlap` | packages/eventsourcing-pg/src/Outbox.ts:143-175 | two claims share an entry only if the first lease was over by the second claimer's clock or the entry was dead-lettered and replayed between |
| `OutboxProtocol.OnlyLatestClaimerSettles` | packages/eventsourcing-pg/src/Outbox.ts:176-215 | a settlement under a token changes only entries that token claimed last |
| `OutboxProtocol.StrangerSettlesNothing` | packages/eventsourcing-pg/src/Outbox.ts:176-215 | a token no claim answered settles nothing |
| `OutboxProtocol.PublishedOnce` | packages/eventsourcing-pg/src/Outbox.ts:176-191 | over a whole run each entry is marked published at most once |
| `OutboxProtocol.PublishedForever` | packages/eventsourcing-pg/src/Outbox.ts:176-227 | a published row stays published, so it turns published in at most one step |
| `Cbor.DecodeCbor` | packages/auth/src/cbor.ts:51-99 | the recursive decoder with its loops computes the specification, for any declared element count |
| `Cbor.RoundTrip` | packages/auth/src/cbor.ts:51-99 | the encoding of a good tree, wherever it stands and whatever follows, decodes to its value and exactly its length |
| `Cbor.AcceptsExactlyEncodings` | packages/auth/src/cbor.ts:51-99 | a decode succeeds with a value and an end exactly when the bytes there are the encoding of a good tree with that value and length |
| `Cbor.ConsumedBytesDecide` | packages/auth/src/cbor.ts:51-99 | a successful decode advances, stays in bounds and depends only on the bytes it consumed |
| `Cbor.HeadFor` | packages/auth/src/cbor.ts:16-49 | every safe integer has a head |
| `Cbor.HeadReadsBack` | packages/auth/src/cbor.ts:16-57 | an encoded head of any width is read as its major type, its argument and its length |
| `Cbor.DecodesPairs` | packages/auth/src/cbor.ts:80-91 | the map loop returns the pairs of good entries with distinct scalar keys |
| `Cbor.DecodedArePairs` | packages/auth/src/cbor.ts:80-91 | whatever the map loop returns has distinct scalar keys and consists of encodings |
| `Ecdsa.Trim` | packages/auth/src/oidc.ts:136-141 | leading zeros are dropped, the last byte kept, and a set sign bit noted |
| `Ecdsa.JwsSignatureToDer` | packages/auth/src/oidc.ts:132-171 | the array filled at a moving offset is the DER form, for any input length |
| `Ecdsa.NormalizeBytes` | packages/auth/src/webauthn.ts:372-383 | accepts exactly minimal non-negative integers of at most 32 bytes and pads them to 32 |
| `Ecdsa.DerEcdsaToRaw` | packages/auth/src/webauthn.ts:347-388 | the advancing parser computes the specification |
| `Ecdsa.IntegerNormalizes` | packages/auth/src/oidc.ts:136-144 | every 32-byte half survives the trip through its DER integer |
| `Ecdsa.NormalizedIsInteger` | packages/auth/src/webauthn.ts:372-383 | every accepted DER integer is the one written for its normalisation |
| `Ecdsa.RawRoundTrip` | packages/auth/src/webauthn.ts:347-388 | DER and back gives every 64-byte signature again |
| `Ecdsa.AcceptsExactly` | packages/auth/src/webauthn.ts:347-388 | the parser accepts exactly the short and the one-byte long spelling of a 64-byte signature, with that signature as the answer |
| `Ecdsa.ReproducedIffShort` | packages/auth/src/webauthn.ts:347-365 | an accepted signature is reproduced byte for byte exactly when its length is in the short form |
| `Ecdsa.LongFormIsNotReproduced` | packages/auth/src/webauthn.ts:353-360 | a concrete long-form signature is accepted and not reproduced |
| `Base32.WrappedAgrees` | packages/auth/src/totp.ts:7-23 | the 32-bit accumulator agrees with the unbounded one on every bit still to be read |
| `Base32.Base32Encode` | packages/auth/src/totp.ts:7-23 | the accumulator loop spells the whole bit string in groups of five, the last filled with zeros |
| `Base32.Base32Decode` | packages/auth/src/totp.ts:25-44 | the accumulator loop cuts the symbols' bits into groups of eight, or fails exactly on a foreign symbol |
| `Base32.RoundTrip` | packages/auth/src/totp.ts:7-44 | decoding an encoding gives the bytes again, and the encoding has ceil(8n/5) characters |
| `Base32.TolerantRoundTrip` | packages/auth/src/totp.ts:26-29 | anything that cleans up to an encoding decodes to the bytes |
| `Base32.AlphabetIs` | packages/auth/src/totp.ts:4-4 | the symbols by arithmetic are those of the alphabet string |
| `Expand.Resolver.FromEntries` | packages/dotenv/src/expand.ts:46-63 | resolves a name under a growing partial solution, or fails with a chain of names each waiting for the next that returns to one being resolved; always terminates |
| `Expand.Resolver.Lookup` | packages/dotenv/src/expand.ts:65-68 | the precedence of environment and entries, an environment hit, inherited names included, evaluating nothing |
| `Expand.Resolver.Interpolate` | packages/dotenv/src/expand.ts:70-91 | the text's meaning under the solution reached, or the name it waits for |
| `Expand.Resolver.EvaluatePiece` | packages/dotenv/src/expand.ts:73-90 | one reference with its operator; a fallback is evaluated only when chosen |
| `Expand.ExpandAll` | packages/dotenv/src/expand.ts:35-101 | succeeds exactly when the names can be resolved one after another, fails exactly on a real evaluated cycle, and the answer is the unique solution of the reference equations |
| `Expand.TextGrows` | packages/dotenv/src/expand.ts:70-91 | what is known keeps its meaning as the solution grows, and what waits for a name waits until it is known |
| `Expand.DerivedIsTheSolution` | packages/dotenv/src/expand.ts:46-63 | a complete derivation solves every equation and is the only solution |
| `Expand.NotBoth` | packages/dotenv/src/expand.ts:51-57 | no setting is both resolvable and cyclic |
| `Expand.OrderDoesNotMatter` | packages/dotenv/src/expand.ts:41-42 | entries with distinct keys make the same setting in any order |
| `Expand.OneAnswer` | packages/dotenv/src/expand.ts:35-101 | what a setting can be resolved to is one map |
| `Expand.InheritedNamesDoNotMatter` | packages/dotenv/src/expand.ts:65-68 | if no text mentions a name whose lookup ends at an inherited property, the answer is that of the environment's own entries |
| `Expand.ReferenceAgreesIff` | packages/dotenv/src/expand.ts:65-68 | a reference to a name that is no entry means what the environment's own entries give exactly when its lookup does not end at an inherited property |
| `Expand.ConstructorShows` | packages/dotenv/src/expand.ts:65-68 | under an environment without entries, $constructor expands to what is inherited under that name instead of nothing |
| `TotpStore.Enrollment.RecordFailure` | packages/auth/src/store.ts:483-499 | counts the failure and, from the threshold on, locks for the cooldown |
| `TotpStore.Enrollment.ResetFailures` | packages/auth/src/store.ts:500-508 | counter and lock are cleared, the rest kept |
| `TotpStore.Enrollment.MarkStepUsed` | packages/auth/src/store.ts:509-517 | claims a step exactly when it lies above the last one used |
| `TotpStore.Enrollment.ConsumeRecoveryCode` | packages/auth/src/store.ts:518-530 | removes a present entry, or answers false and changes nothing |
| `TotpStore.Enrollment.Attempted` | packages/auth/src/twofactor.ts:282-381 | verify and unenroll to their end: locked out, accepted by step or recovery code, or a recorded failure |
| `TotpLockout.Accounting` | packages/auth/src/twofactor.ts:282-381 | without a success the counter counts the wrong codes, the lock starts at the tripping one, and from there wrong codes lie a cooldown apart |
| `TotpLockout.RateBound` | packages/auth/src/twofactor.ts:282-381 | after the lockout tripped at T, at most threshold + floor((t - T) / cooldown) wrong codes are evaluated by time t |
| `TotpLockout.BoundIsReached` | packages/auth/src/twofactor.ts:291-297 | the bound is attained: a wrong code at every cooldown is evaluated each time |
| `TotpSteps.StepsIncrease` | packages/auth/src/store.ts:509-517 | under any interleaving the accepted steps strictly increase, so none is accepted twice |
| `RecoveryCodes.RunsKeepInv` | packages/auth-pg/src/store.ts:661-683 | conservation and what each call has seen hold in every interleaving of selects and conditional updates |
| `RecoveryCodes.EntriesAreConserved` | packages/auth-pg/src/store.ts:661-683 | consumed and remaining entries are disjoint, make up the initial ones, and no entry is consumed twice |
| `RecoveryCodes.FalseMeans` | packages/auth/src/twofactor.ts:165-182 | a refused code matches no remaining entry, or its entry was consumed, or three consumptions happened while it ran |
| `RecoveryCodes.ThreeRaces` | packages/auth/src/twofactor.ts:165-182 | any three other entries, each consumed by its own code, can make a call fail although its entry was never spent |
| `RecoveryCodes.RefusableIffThreeOthers` | packages/auth/src/twofactor.ts:158-182 | a call for an entry can be refused while the entry is unspent exactly when the initial list holds at least three other entries |
| `RecoveryCodes.RefusedThoughUnspent` | packages/auth/src/twofactor.ts:158-164 | a concrete such run: the documented reasons for a refusal are not all of them |
| `DotenvDocument.FindClosingQuote` | packages/dotenv/src/document.ts:67-90 | the two loops find the first unescaped quote, line by line |
| `DotenvDocument.FindQuotedEnd` | packages/dotenv/src/document.ts:124-130 | the closing quote counts exactly when nothing but a comment follows it |
| `DotenvDocument.ParseItem` | packages/dotenv/src/document.ts:109-168 | one line, or a quoted value over several, becomes one item |
| `DotenvDocument.Parse` | packages/dotenv/src/document.ts:100-170 | the loop over lines computes the specification |
| `DotenvDocument.TextsCoverLines` | packages/dotenv/src/document.ts:107-170 | the items' texts joined are the lines joined: nothing is lost, added or moved |
| `DotenvDocument.RenderOfParse` | packages/dotenv/src/document.ts:184-188 | without CRLF and byte order mark, rendering a parsed file gives it back |
| `DotenvDocument.RenderedIffSeams` | packages/dotenv/src/document.ts:184-188 | for every file: rendering gives it back, byte order mark aside, exactly when it has no CRLF, or a carriage return stands before a line feed exactly at the seams between items and at the end |
| `DotenvDocument.RestoredDetermines` | packages/dotenv/src/document.ts:103-104 | the line ends can be read off the text, so two different markings never restore the same file |
| `DotenvDocument.CrlfRenderedIffOneLine` | packages/dotenv/src/document.ts:184-188 | a file with CRLF at every line end is rendered back exactly when no item spans lines |
| `DotenvRoundTrip.WrittenMapReadsBack` | packages/dotenv/src/document.ts:268-273 | for valid distinct keys and values without CRLF and trailing backslash, stringify, parse and expand give the map back under any environment and precedence, as the one solution |
| `DotenvRoundTrip.FileReadsBackIff` | packages/dotenv/src/document.ts:109-168 | a written file is read as one assignment per pair, in order, each expanding to its value whatever else is known, exactly when no value has a CRLF, and every value ending in a backslash has no line end, no comment sign and no later quote that closes it |
| `DotenvRoundTrip.LegibleFileExpands` | packages/dotenv/src/document.ts:268-273 | under that condition distinct keys expand to the map, with any environment and precedence |
| `DotenvRoundTrip.EntryReadsIff` | packages/dotenv/src/document.ts:119-168 | the same for one entry at its place among the lines of any file |
| `DotenvRoundTrip.NormalizedWritten` | packages/dotenv/src/document.ts:102-104 | normalising a written line writes the normalised value |
| `DotenvReadsBack.WrittenReadsBackIff` | packages/dotenv/src/document.ts:193-210 | for every value that can be written: alone in a file it expands to itself, under the empty environment or under all, exactly when it has no CRLF and, if it ends in a backslash, neither a line end nor a comment sign |
| `DotenvReadsBack.LaterItemsAreLight` | packages/dotenv/src/document.ts:109-168 | no assignment read from the lines after the first holds enough characters to be the lost value |
| `DotenvReadsBack.HashAndBackslashAreLost` | packages/dotenv/src/document.ts:193-210 | a concrete value that is written and expands to something else |
| `DotenvReadsBack.LaterQuoteClosesIt` | packages/dotenv/src/document.ts:193-210 | two values that come back alone; together the file is read as one assignment and the second key is gone |
| `DotenvReadsBack.CrlfValueIsChanged` | packages/dotenv/src/document.ts:184-188 | any one-assignment CRLF file whose value spans lines comes back changed |
| `DotenvWriter.WrittenParses` | packages/dotenv/src/document.ts:199-218 | a written line is read, wherever it stands, as its key and a value that expands to the original |
| `DotenvWriter.EscapedMeans` | packages/dotenv/src/expand.ts:70-91 | a text with escaped dollars expands to the original, whatever is known |
| `DotenvWriter.DecodesQuoted` | packages/dotenv/src/document.ts:54-64 | a quoted text without escapes decodes to what stands between the quotes |
| `DotenvEntry.OpenEntry` | packages/dotenv/src/document.ts:119-168 | a value ending in a backslash whose quote stays open is read back if it is on one line without a comment sign, and otherwise as something that shows the quote |
| `DotenvEntry.SwallowedEntry` | packages/dotenv/src/document.ts:67-90 | a value ending in a backslash that a later quote closes is read as something that shows the quote |

## Left out

- WebCrypto, HMAC, SHA-256, Argon2, AES-GCM, key import and signature verification: foreign calls; digests are identified with what they were taken over.
- HTTP handlers, cookies, the OIDC fetch flow, AI providers, command line, tracing and metrics: plumbing around the modelled logic.
- SQL text, schemas, migrations and LISTEN/NOTIFY: only the effect of each statement on the tables is modelled.
- packages/eventsourcing-sqlite, packages/auth-sqlite and packages/eventsourcing-nisshi: adapters for other databases.
- Tenants: a tenant and an id together are one opaque key.
- OAuth records from before token families, and the lookup by hash as a scan: a presented token is named by its record's id.
- Erasure in the aggregate and import models, the sequence reset after an import, and outbox messages written inside an append: imports end before appends begin.
- The partition filter of the event feed and the JSON columns of a tombstone: only positions, streams, versions and erasure matter to the properties.
- The aggregate model has one stream, since commands on different streams share nothing.
- The sort order of conditions in `grantsOf` and `matrix`, the markdown rendering of the matrix and `Policy.define`: presentation.
- Integer-like keys, which JavaScript orders first in an object: equality of canonical forms does not depend on it. Floating-point values in JSON are opaque atoms.
- UTF-8 decoding in the CBOR decoder and upper-casing in the base32 decoder are parameters; every statement holds for any such function, the base32 round trip for those that keep the alphabet.
- `counterBytes`, `matchTotpCode` and the enrollment endpoints: which step or stored entry a code matches is an input of the model.
- `set` and `unset` on a dotenv document: they would only add easy members.
- DotenvRoundTrip.FileReadsBackIff: compares a file of several entries assignment by assignment; whether lines left over from a lost entry could happen to assign the same map again is not stated, because the answer is about coincidences of the text and not about the printer. For one entry `DotenvReadsBack.WrittenReadsBackIff` excludes it.
- The text of error messages: an error is its kind.
