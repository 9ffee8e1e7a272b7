# Verified model of gedis

Gedis is a Redis-compatible server. This project models the parts of it whose
correctness cannot be read off one function body, and proves what they promise over all
inputs, all runs or all reachable states. `dafny verify dfyconfig.toml` checks
everything.

One command is one atomic step. Objects that the server updates in place are classes
(`Topology`, `Stream`, `GroupObject`, `TxnRegistry`, `FunctionRegistry`, `Backlog`,
`AskRegistry`, the sentinel `Registry`), and packed registers, the LCS table and the
owner tables are arrays. Each such method is tied to a function on values, and the laws
are proved about those functions and about the runs built from them.

| files | subject | main results |
|---|---|---|
| `Election`, `ElectionProtocol`, `ElectionSplit` | sentinel leader election | at most one leader per epoch under loss, delay, duplication and reordering, whenever the member lists of the candidates overlap enough; some run has two leaders exactly when they do not and both quorums are within reach |
| `Topology`, `Redirect`, `SlotMigration`, `Snapshot` | cluster slots | the table stays coherent in every run; a moving slot is invisible to clients, who need at most two redirects, and the move can always be ended; a restart from the snapshot file restores the node |
| `StreamLog`, `StreamGroup`, `StreamGroupObject`, `StreamReads`, `StreamClaims`, `StreamRun`, `StreamLag`, `StreamSweep`, `StreamCodec` | streams and consumer groups | order and ownership in every run, exactly which records a read, a claim or a sweep hands out and changes, exactly-once delivery, how long a delivered id stays pending, the exact lag, complete sweeps, the stored form |
| `Glob`, `GlobSyntax`, `Lcs` | matching and subsequences | the one-star backtracking matcher equals the definition by tokens, and every spelling of a token list reads back as that list; the table, the backtrack and the ranges are optimal, exact and maximal |
| `Resp`, `Msgpack`, `Bytes`, `Text` | wire and storage formats | round trips at every nesting, what is left of tables nested too deep, prefix freedom, pipelines |
| `Hll`, `Bitfield`, `Powers` | packed arithmetic | a register write changes one register; sketches do not depend on order; fields, sign extension and overflow |
| `Txn`, `Backlog` | WATCH and EXEC | exactly when EXEC replays, and what; exactly when that is what WATCH promises |
| `FunctionStore`, `FunctionEffects` | function libraries | three indexes agree; each command has exactly its effect; dumps and restarts give the store back |

Some properties that the code suggests hold only under a condition. Each is stated with
its exact condition, over all inputs or all runs; where the failure takes a run, a lemma
exhibits one:

- The majority test counts the peers that a sentinel knows of, not all sentinels. Two
  sentinels can win the same epoch exactly when their member lists have majorities that
  share nobody and each list is as long as its owner's quorum (`TwoLeadersExactly`).
  Two that have never met can do so exactly when both quorums are at most 1
  (`TwoLeadersWhenStrangers`).
- EXEC compares against everything written since the *first* WATCH. It keeps the promise
  of WATCH exactly unless the backlog slid, or a watched key was written between the
  first WATCH and its own and none since its own (`AbortsTooOften`, `PromiseExactly`).
- Once a group has read something, its lag also counts the entries at or before its start
  and the removed entries it was never handed (`LagTooLarge`, `LagCountsDeleted`,
  `LagExact`).
- FUNCTION RESTORE checks each library of the payload against the store but not against
  the others, so the indexes agree afterwards exactly when the libraries of the payload
  share no function (`ClashRestored`, `RestoreExact`).
- A write that the source serves while its key is in transit survives exactly when it is
  a SET of the value already sent; a DEL never does (`WriteInTransitIsLost`).
- A sweep by XAUTOCLAIM misses a pending record with the greatest id exactly when that
  record would be alone in its last call (`StuckReached`, `FullSweep`).
- Unpacking gives back what was packed exactly when no table is nested deeper than 16;
  otherwise the deeper tables are missing (`UnpackPack`, `UnpackPackSame`).
- The overflow test of BITFIELD INCRBY is blind exactly for unsigned fields and the
  increment -2^63 (`FlaggedExact`).
- The snapshot file can be read back exactly when every line fits into the scanner's
  buffer (`UnmarshalMarshal`).

Lemmas carry `{:induction false}`: every induction is spelled out in its body.

## Model

| member | source | states |
|---|---|---|
| `Election.Registry.HandleVote` | internal/sentinel/election.go:18-40 | an unknown master grants nothing and changes nothing; otherwise the vote is granted for a newer epoch, as the first one in the current epoch, or again to the same candidate, the epochs move only with a grant and only this master's entry changes |
| `Election.Registry.IsMasterDownByAddr` | internal/commands/sentinel.go:451-496 | the first master at the asked address is the one voted on; the answer names whoever this sentinel voted for, with its epoch, or nobody with epoch 0; an unknown address changes nothing |
| `Election.PeersExceptSelf` | cmd/gedis/sentinel_auto.go:65-77 | the peer list has no duplicates and is the normalised addresses without the sentinel's own one, in first-seen order |
| `Election.FirstUnseenIsTheRest` | cmd/gedis/sentinel_auto.go:65-77 | as a set, the peers are all normalised addresses minus those already seen, each once |
| `Election.HasMajority` | internal/sentinel/election.go:4 | a majority is strictly more than half |
| `Election.CountRound` | cmd/gedis/sentinel_auto.go:29-62 | the two counters of a round are the number of arrivals that name the candidate, plus its own vote, and the number that report the master down |
| `Election.CountedIsVoters` | cmd/gedis/sentinel_auto.go:29-62 | with one arrival per peer, counting arrivals counts distinct voters |
| `Election.QuorumReachable` | internal/sentinel/odown.go:17-34 | with one answer per peer, a master is found objectively down only if the quorum is at most the number of peers plus one |
| `ElectionProtocol.CastKeepsBallots` | internal/sentinel/election.go:18-40 | handling a request never lowers the epoch, casts at most one ballot per epoch, and an answer naming the candidate is backed by a ballot of this or of a later epoch |
| `ElectionProtocol.HandleKeeps` | internal/commands/sentinel.go:488-495 | a delayed or duplicated request keeps the protocol invariant, also when its answer names the candidate without a fresh grant |
| `ElectionProtocol.TestMeansMajority` | cmd/gedis/sentinel_auto.go:120-164 | passing the test means that a majority of the candidate's members cast this epoch's ballot for it |
| `ElectionProtocol.StepKeeps` | cmd/gedis/sentinel_auto.go:29-62 | every step of every sentinel, and every request of an outsider, keeps the invariant |
| `ElectionProtocol.AfterKeeps` | cmd/gedis/sentinel_auto.go:120-164 | so does every run |
| `ElectionProtocol.OneLeaderPerEpoch` | cmd/gedis/sentinel_auto.go:126-154 | in every run, two candidates that pass the test in the same epoch over overlapping member lists are the same sentinel |
| `ElectionProtocol.OneLeaderWhenAllKnown` | cmd/gedis/sentinel_auto.go:126-154 | when everyone knows the whole roster, an epoch has at most one leader |
| `ElectionProtocol.WinnersReachQuorum` | cmd/gedis/sentinel_auto.go:147-154 | in every run, whoever passes both the gate and the test has its quorum within its own member list |
| `ElectionProtocol.MajoritiesMeet` | internal/sentinel/election.go:4 | majorities of overlapping member lists share a voter |
| `ElectionProtocol.OverlapIsExact` | internal/sentinel/election.go:4 | the overlap condition is equivalent to any two majorities sharing a voter |
| `ElectionSplit.FinishWins` | cmd/gedis/sentinel_auto.go:147-154 | a second round that finds the master down and has a majority makes a leader |
| `ElectionSplit.CountedAreBackers` | cmd/gedis/sentinel_auto.go:29-62 | when all peers answer as they voted, the grants counted are exactly the members that voted for the candidate |
| `ElectionSplit.BecomesLeader` | cmd/gedis/sentinel_auto.go:120-164 | from the requests of its first round, a candidate with a majority of votes and enough members can win |
| `ElectionSplit.TwoLeadersExactly` | cmd/gedis/sentinel_auto.go:120-164 | for any two sentinels and any member lists within the roster, some run has both win one epoch if and only if the lists have majorities that share nobody and each reaches its owner's quorum |
| `ElectionSplit.TwoLeadersWhenStrangers` | cmd/gedis/sentinel_auto.go:144-154 | two sentinels that know nobody can both win one epoch if and only if both quorums are at most 1 |
| `Topology.IndexOf` | internal/cluster/topo.go:259-281 | the first node with the id, or none |
| `Topology.Topology.constructor` | internal/cluster/topo.go:82-136 | a table with a given content, in arrays of its own |
| `Topology.Topology.SetMigrating` | internal/cluster/topo.go:209-227 | the new table, or an error that changes nothing |
| `Topology.Topology.SetImporting` | internal/cluster/topo.go:229-247 | the new table, or an error that changes nothing |
| `Topology.Topology.SetStable` | internal/cluster/topo.go:249-257 | both marks of the slot go away, everything else stays |
| `Topology.Topology.SetNode` | internal/cluster/topo.go:259-281 | owner, owned flag, marks and epoch after an assignment, or an error that changes nothing |
| `Topology.Topology.LoadSnapshot` | internal/cluster/topo.go:333-361 | owners, flags, marks and epoch become those of the snapshot; one with an older epoch is refused and changes nothing |
| `Topology.ClaimRange` | internal/cluster/topo.go:82-136 | claiming a range extends the owner table by exactly its slots, or shows a slot claimed twice |
| `Topology.ClaimRanges` | internal/cluster/topo.go:82-136 | the same for all ranges of one node |
| `Topology.Build` | internal/cluster/topo.go:82-136 | a configuration is accepted if and only if all addresses are valid, no slot is claimed twice and some node is this server; the table is then coherent, owns exactly what was claimed and picks the first matching node as itself |
| `Topology.AppliedKeeps` | internal/cluster/topo.go:209-281 | an accepted step keeps coherence, the node list and itself, and lowers the epoch only by 64-bit wrap-around |
| `Topology.EveryRunCoherent` | internal/cluster/topo.go:209-281 | in every run: a migrating slot is owned here, an importing one is not, the owned flags mirror the owners, and every saved snapshot can be loaded again |
| `Topology.EpochNeverDecreases` | internal/cluster/topo.go:259-281 | the epoch never decreases, and grows at most by one a step, in runs shorter than the 64-bit counter |
| `Topology.RestartRestores` | internal/cluster/topo.go:314-361 | a freshly built node that loads its last snapshot is back in the saved state |
| `Topology.MarksExactly` | internal/cluster/topo.go:209-247 | MIGRATING is accepted exactly for a slot owned here and IMPORTING exactly for one that is not; an accepted one sets that mark of that slot, counts the epoch up if the mark is new, and changes nothing else |
| `Topology.StableExactly` | internal/cluster/topo.go:249-257 | STABLE leaves neither mark on the slot and changes no other mark, owner, flag or epoch |
| `Topology.AssignedExactly` | internal/cluster/topo.go:259-281 | NODE is accepted exactly for a known node; the slot then belongs to the first node with the id and bears no mark, the epoch goes up by one, and no other slot changes |
| `Redirect.AskRegistry.Set` | internal/commands/cluster.go:50-59 | marks this connection and no other |
| `Redirect.AskRegistry.Consume` | internal/commands/cluster.go:62-72 | the mark is used up by one command |
| `Redirect.AskRegistry.Intercept` | internal/commands/cluster.go:495-564 | who passes unseen, who uses the mark up, CROSSSLOT exactly for keys of several slots, and otherwise the routing decision |
| `Redirect.RouteExactly` | internal/commands/cluster.go:522-563 | the owner serves, except a key that left with a migration; anyone else serves only after ASKING, a slot it imports or a key it has; CLUSTERDOWN exactly for a slot of nobody that is not imported under ASKING; MOVED names the owner, ASK the target of the migration or the owner, at a real address |
| `SlotMigration.GateFollowsPhase` | internal/commands/cluster.go:495-564 | during a move, where each node sends a client is determined by the phase, the key's place and the ASKING mark |
| `SlotMigration.OperatorKeeps` | internal/commands/migrate.go:104-133 | the four table changes and both halves of moving a key keep the invariant and the content of the slot |
| `SlotMigration.ServedWhereHeld` | internal/commands/cluster.go:495-564 | the node that serves a command has the slot's content for its key, and no second copy is left behind by a write |
| `SlotMigration.ServedActsOnHeld` | internal/commands/cluster.go:495-564 | a served command acts on the slot as on a single store |
| `SlotMigration.AtMostTwoRedirects` | internal/commands/cluster.go:495-564 | in every interleaving, no client is turned away and none is redirected more than twice |
| `SlotMigration.ServedInThree` | internal/commands/cluster.go:495-564 | in every reachable state, a client that keeps following redirects is served at its third attempt at the latest |
| `SlotMigration.MoveIsInvisible` | internal/commands/migrate.go:104-133 | in every interleaving, what clients saw and what both nodes hold is what one store would have given |
| `SlotMigration.FinishedMeansMoved` | internal/cluster/topo.go:259-281 | once the move is over the source holds no key of the slot and the target holds all of it |
| `SlotMigration.MoveCanEnd` | internal/commands/migrate.go:104-133 | from every reachable state, steps of the operator alone end the move: no node refuses a table change made in order, and every key can be moved |
| `SlotMigration.WriteInTransitIsLost` | internal/commands/migrate.go:104-133 | a write on the source between restore and delete is served; it is still there afterwards if and only if it is a SET of the restored value, and otherwise the restored value is |
| `Snapshot.MarshalSnapshot` | internal/cluster/snapshot.go:11-32 | the text is the specified list of lines, for every order of walking the two maps |
| `Snapshot.UnmarshalSnapshot` | internal/cluster/snapshot.go:34-103 | the line loop computes the parse of the text, with every error case |
| `Snapshot.UnmarshalMarshal` | internal/cluster/snapshot.go:11-103 | for every map order and node ids that are distinct, free of blanks and not "-": parsing a marshalled snapshot gives it back if every line fits into the scanner's buffer, and fails otherwise |
| `Snapshot.RestartFromFile` | internal/cluster/topo.go:314-361 | building, reading the file back and loading it restores the node's state, exactly when every line fits |
| `Glob.ScanClassEnd` | internal/commands/pattern.go:72-88 | finds the bracket that closes a class, skipping escapes and a leading bracket |
| `Glob.ClassMatch` | internal/commands/pattern.go:91-120 | decides membership in the set that the class body denotes: negation, escapes, ranges (a reversed one is empty) |
| `Glob.TokenHit` | internal/commands/pattern.go:13-68 | whether the next token takes a character, and where the token after it starts |
| `Glob.StarFreePrefix` | internal/commands/pattern.go:13-68 | tokens without a star take exactly one character each |
| `Glob.NewStar` | internal/commands/pattern.go:13-68 | at a later star, earlier backtracking points may be forgotten |
| `Glob.MatchesByPosition` | internal/commands/pattern.go:13-68 | matching by positions is matching of the token list |
| `Glob.MatchBytes` | internal/commands/pattern.go:13-68 | terminates, and says yes if and only if the pattern's tokens match the whole string by the recursive definition |
| `GlobSyntax.ReadsBack` | internal/commands/pattern.go:13-120 | every spelling of a token list (stars, question marks, escaped and plain literals, classes with escapes, ranges, a caret or a leading bracket) reads back as exactly that list |
| `GlobSyntax.ClassForm` | internal/commands/pattern.go:91-120 | a class takes exactly one character, one within its ranges, or one within none after a caret; a leading bracket is a member |
| `GlobSyntax.SimpleForms` | internal/commands/pattern.go:13-68 | a star takes everything, a question mark any one character, an escaped or plain literal itself only |
| `GlobSyntax.LeftoversAreLiteral` | internal/commands/pattern.go:34-57 | an opening bracket that nothing closes and a backslash at the end are literals |
| `GlobSyntax.MatchesParts` | internal/commands/pattern.go:13-68 | a joined pattern matches exactly the joins of what its parts match |
| `Lcs.LenIsUpperBound` | internal/commands/lcs.go:126-145 | no common subsequence of two prefixes is longer than the recurrence |
| `Lcs.LcsTable` | internal/commands/lcs.go:126-145 | refused exactly above the cell limit; otherwise every cell holds its recurrence value |
| `Lcs.FillCell` | internal/commands/lcs.go:126-145 | the inner loop body writes one cell, with the right value |
| `Lcs.LcsBacktrack` | internal/commands/lcs.go:148-164 | strictly decreasing pairs of equal bytes, as many as the longest length |
| `Lcs.TextIsCommon` | internal/commands/lcs.go:148-164 | aligned pairs spell a common subsequence of their number |
| `Lcs.LcsString` | internal/commands/lcs.go:93-99 | the reply is a common subsequence and none is longer |
| `Lcs.RunFrom` | internal/commands/lcs.go:167-197 | the longest diagonal run from a pair |
| `Lcs.LcsRanges` | internal/commands/lcs.go:167-197 | the ranges are those runs, of a split of the pairs into maximal diagonal runs, that reach MINMATCHLEN; all of them when it is at most 1 |
| `StreamLog.LeastAdmissible` | internal/commands/stream.go:118-165 | the chosen id is the least admissible one for the request, and a request is refused only when there is none |
| `StreamLog.XAddKeeps` | internal/commands/stream.go:71-114 | XADD keeps the log in order and appends one entry under the new last id |
| `StreamLog.MaxDroppedIsGreatest` | internal/commands/stream.go:404-416 | the deletion mark becomes the greatest of itself and the ids deleted, and is raised only to one of them |
| `StreamLog.XDelKeeps` | internal/commands/stream.go:376-424 | XDEL keeps the log in order and the mark at most the last id |
| `StreamLog.Stream.constructor` | internal/datastruct/stream.go:176 | a new stream is empty |
| `StreamLog.Stream.Add` | internal/commands/stream.go:71-114 | the new log and the id in the reply, or an error that changes nothing |
| `StreamLog.Stream.Delete` | internal/commands/stream.go:404-416 | the new log; length plus reply is the old length |
| `StreamLog.Stream.Trim` | internal/commands/stream_trim.go:108-130 | the new log by MAXLEN or MINID and LIMIT; length plus reply is the old length |
| `StreamLog.XTrimExactly` | internal/commands/stream_trim.go:108-130 | without LIMIT, MAXLEN leaves exactly the newest entries and MINID exactly those at or past the id; with LIMIT at most that many go, from the front; nothing else changes |
| `StreamGroup.FreshIsPast` | internal/commands/stream_group.go:254-273 | what a ">" read hands out is ordered and past the cursor |
| `StreamGroup.FreshSkipsNothing` | internal/commands/stream_group.go:254-273 | nothing between the cursor and the last entry handed out is skipped |
| `StreamGroup.ReadNewKeeps` | internal/commands/stream_group.go:187-222 | a ">" read keeps the group in order and adds exactly the delivered ids to the pending ones, none with NOACK |
| `StreamGroup.ReadOldKeeps` | internal/commands/stream_group.go:276-300 | a history read keeps the group in order and the pending ids as they were |
| `StreamGroup.ClaimKeeps` | internal/commands/stream_xclaim.go:123-165 | XCLAIM keeps the group in order, drops no pending id, adds only ids of existing entries and changes nothing else |
| `StreamGroup.ClaimedAreOwned` | internal/commands/stream_xclaim.go:123-165 | every id that the reply of XCLAIM lists was asked for and belongs to the consumer afterwards |
| `StreamGroup.SweepAllLaw` | internal/commands/stream_xclaim.go:251-300 | of the visited records exactly those with an existing entry remain, in order |
| `StreamGroup.AutoClaimKeeps` | internal/commands/stream_xclaim.go:245-313 | XAUTOCLAIM keeps the group in order and takes out exactly the visited orphans |
| `StreamGroup.ConsumerDroppedKeeps` | internal/commands/stream_info.go:615-636 | DELCONSUMER drops exactly the records of an existing consumer |
| `StreamGroup.AckedKeeps` | internal/commands/stream_claim.go:79-84 | XACK drops exactly the named ids |
| `StreamReads.MarkedExactly` | internal/commands/stream_group.go:187-222 | the consumer is there once, seen now and active now if it got records; everyone else is as before and in the same place |
| `StreamReads.EnsuredExactly` | internal/datastruct/stream.go:109-125 | a missing consumer is added at the end, seen now and never active; an existing one stays |
| `StreamReads.FreshExactly` | internal/commands/stream_group.go:254-273 | a ">" read hands out, in order, the first COUNT entries past the cursor, or all of them |
| `StreamReads.ReadNewExactly` | internal/commands/stream_group.go:187-273 | a read that hands out nothing changes nothing; otherwise the cursor is the last entry handed out and the counter grows by their number |
| `StreamReads.ReadNewRecords` | internal/commands/stream_group.go:254-273 | each entry handed out is pending for this consumer, delivered once and now, and every other record is as before |
| `StreamReads.ReadOldExactly` | internal/commands/stream_group.go:276-300 | a history read hands out, in order, the first COUNT or all of the consumer's own records past the id whose entry exists; exactly those get the time and one more delivery, and every other record is as before |
| `StreamClaims.IdleMeans` | internal/commands/stream_xclaim.go:137 | where no 64-bit difference wraps around, a record is idle enough exactly when now minus its time is at least the minimum |
| `StreamClaims.ClaimExactly` | internal/commands/stream_xclaim.go:123-165 | an id is listed exactly when its record is idle for the minimum, or there is none, FORCE is given and the entry exists; then its record is the consumer's with the time and count that JUSTID, IDLE, TIME and RETRYCOUNT say, and otherwise nothing changes; no other record changes |
| `StreamClaims.ClaimStaysInRange` | internal/commands/stream_xclaim.go:123-165 | claims leave times in range if the options ask for none outside it |
| `StreamClaims.ClaimDistinct` | internal/commands/stream_xclaim.go:123-165 | of distinct ids, the reply lists exactly those that were due before the command |
| `StreamClaims.AutoClaimExactly` | internal/commands/stream_xclaim.go:251-300 | of the first COUNT records from the start on, one without an entry goes, one not idle for the minimum stays as it is, and any other becomes the consumer's, with JUSTID keeping time and count; all other records stay |
| `StreamClaims.TakenExactly` | internal/commands/stream_xclaim.go:251-287 | the reply of XAUTOCLAIM lists, in order, exactly the visited records taken over |
| `StreamClaims.AutoClaimConsumers` | internal/commands/stream_xclaim.go:267-275 | the consumer becomes active exactly when a record is taken over |
| `StreamClaims.ConsumerDroppedExactly` | internal/commands/stream_info.go:615-636 | the consumer and its records go, and every other consumer and record stays |
| `StreamGroupObject.GroupObject.EnsureConsumer` | internal/datastruct/stream.go:109-125 | the consumer exists afterwards, once, at the returned place |
| `StreamGroupObject.GroupObject.Touch` | internal/commands/stream_group.go:187-222 | the consumer's seen time, and its active time if it was handed something |
| `StreamGroupObject.GroupObject.FindPel` | internal/datastruct/stream.go:128-152 | the place of a pending id |
| `StreamGroupObject.GroupObject.UpsertPel` | internal/datastruct/stream.go:128-152 | replaces or inserts a record and keeps the order |
| `StreamGroupObject.GroupObject.DelPel` | internal/datastruct/stream.go:155-163 | removes the record, and says whether there was one |
| `StreamGroupObject.GroupObject.Ack` | internal/commands/stream_claim.go:79-84 | the new group; the reply counts what went away |
| `StreamGroupObject.GroupObject.DeliverNew` | internal/commands/stream_group.go:254-273 | the delivery loop hands out the fresh entries, moves the cursor to the last one and records each |
| `StreamGroupObject.GroupObject.ReadGroupNew` | internal/commands/stream_group.go:187-222 | a ">" read as specified, including counters and times |
| `StreamGroupObject.GroupObject.Redeliver` | internal/commands/stream_group.go:276-300 | the history loop hands out the consumer's own records and bumps them |
| `StreamGroupObject.GroupObject.ReadGroupHistory` | internal/commands/stream_group.go:187-222 | a history read as specified |
| `StreamGroupObject.GroupObject.DelConsumer` | internal/commands/stream_info.go:615-636 | the new group; the reply counts the records dropped |
| `StreamGroupObject.GroupObject.ClaimStep` | internal/commands/stream_xclaim.go:123-165 | one id of XCLAIM: taken over when it is pending long enough, or forced, and otherwise left alone |
| `StreamGroupObject.GroupObject.XClaim` | internal/commands/stream_xclaim.go:123-165 | all ids in turn; the reply lists those that could be claimed when their turn came; failure exactly when it needs an entry that is gone |
| `StreamGroupObject.GroupObject.TakeOver` | internal/commands/stream_xclaim.go:251-287 | one visited record is taken over, left alone or reported gone |
| `StreamGroupObject.GroupObject.VisitRecords` | internal/commands/stream_xclaim.go:251-287 | the visiting loop treats the first COUNT records from the start on, and no others |
| `StreamGroupObject.GroupObject.TakeOut` | internal/commands/stream_xclaim.go:289-300 | the filter keeps everything but the orphans, in order |
| `StreamGroupObject.GroupObject.TakenReply` | internal/commands/stream_xclaim.go:251-287 | the ids of the visited records that are taken over |
| `StreamGroupObject.GroupObject.NextCursor` | internal/commands/stream_xclaim.go:301-313 | the first pending id past the last visited one, or the end of the sweep |
| `StreamGroupObject.GroupObject.XAutoClaim` | internal/commands/stream_xclaim.go:245-313 | the new group, the claimed ids, the cursor and the orphans as specified |
| `StreamGroupObject.VisitingIsAutoClaim` | internal/commands/stream_xclaim.go:251-300 | updating in place and filtering afterwards is the sweep on values |
| `StreamGroupObject.VisitingCursor` | internal/commands/stream_xclaim.go:301-313 | the cursor is the first record not visited, also after orphans were taken out |
| `StreamRun.StepOk` | internal/datastruct/stream.go:109-163 | every command keeps the stream invariant |
| `StreamRun.EveryRunOk` | internal/commands/stream.go:71-165 | over every run: ids strictly increasing and at most the last id, the mark at most the last id, pending ids strictly increasing, consumer names distinct, pending owners known, entries-added equal to length plus removals |
| `StreamRun.StepDelivers` | internal/commands/stream_group.go:187-273 | every command keeps the delivery invariant |
| `StreamRun.DeliveredOnce` | internal/commands/stream_group.go:187-273 | over every run, for every group not moved by SETID: ids handed out by ">" are strictly increasing over all consumers, every present entry between start and cursor was handed out, and whatever was delivered without NOACK is pending or was released |
| `StreamRun.EveryStream` | internal/commands/stream_info.go:442-454 | both invariants hold for every run from the empty stream |
| `StreamRun.GroupReleases` | internal/commands/stream_xclaim.go:288-300 | within a group, exactly which commands release a pending record |
| `StreamRun.ReleasedOnlyBy` | internal/commands/stream_info.go:541-550 | a pending record goes away in a step if and only if it is acknowledged, its consumer or group is deleted, or a sweep visits it after its entry was deleted |
| `StreamRun.PendingUntilReleased` | internal/commands/stream_claim.go:79-84 | over every run, a pending id stays pending until the first command that releases the record it has at that point, and goes away with it |
| `StreamRun.DeliveredStaysPending` | internal/commands/stream_group.go:254-273 | an id delivered without NOACK is pending from then on, until the first such command |
| `StreamLag.GroupLag` | internal/commands/stream_info.go:33-44 | the computed lag: the difference of the counters, or a count when the group has not read |
| `StreamLag.CountAfterIsRest` | internal/commands/stream_info.go:33-44 | the counting loop gives the number of entries past the cursor |
| `StreamLag.EveryRunCounts` | internal/commands/stream_group.go:189-198 | over every run the read counter is the number of entries handed out, and as many of these are gone as were removed, at most |
| `StreamLag.LagExact` | internal/commands/stream_info.go:33-44 | once the group has read, the lag exceeds the entries past the cursor by those at or before its start and by the removed ones it was never handed; so it is right if and only if the group has not read, or both are none |
| `StreamLag.LagInEveryRun` | internal/commands/stream_info.go:33-44 | the same over every run from the empty stream, deletions and trims included |
| `StreamLag.LagTooLarge` | internal/commands/stream_info.go:33-44 | a run in which a group created at the first of two entries has read everything and reports a lag of one |
| `StreamLag.LagCountsDeleted` | internal/commands/stream_info.go:33-44 | a run in which a group started at 0-0 has nothing left to read and reports a lag of one, for an entry deleted unread |
| `StreamLag.LagFromZero` | internal/commands/stream_info.go:33-44 | over every run without removals, a group started at 0-0 reports the number of entries past its cursor |
| `StreamSweep.OneCall` | internal/commands/stream_xclaim.go:245-313 | one call replaces the stretch it visits, and the next one starts right behind it |
| `StreamSweep.CallsIsCeiling` | internal/commands/stream_xclaim.go:245-313 | the number of calls is n / COUNT rounded up, at least one |
| `StreamSweep.SweepVisitsAll` | internal/commands/stream_xclaim.go:245-313 | following the cursors from any start, each call at its own time, visits each record within reach once and leaves those whose entry exists |
| `StreamSweep.KeepsSurvivors` | internal/commands/stream_xclaim.go:251-300 | what a call keeps does not depend on when it happens |
| `StreamSweep.FullSweep` | internal/commands/stream_xclaim.go:245-313 | from 0-0, whenever the calls happen: every pending id within reach is visited exactly once, in that many calls, leaving exactly those whose entries exist; out of reach is only the greatest id, when it would be alone in its call |
| `StreamSweep.StuckReached` | internal/commands/stream_xclaim.go:301-313 | a run that leaves two ids pending, the second the greatest: with COUNT 1 the sweep ends after one call without visiting it |
| `StreamCodec.EntryPut` | internal/datastruct/stream.go:191-409 | an entry with an even number of fields reads back, whatever follows |
| `StreamCodec.ConsumerPut` | internal/datastruct/stream.go:191-409 | a consumer reads back, whatever follows |
| `StreamCodec.PendingPut` | internal/datastruct/stream.go:191-409 | a pending record reads back, whatever follows |
| `StreamCodec.GroupPut` | internal/datastruct/stream.go:191-409 | a group with any number of consumers and records reads back, whatever follows |
| `StreamCodec.CountersPut` | internal/datastruct/stream.go:191-409 | the trailing counters read back |
| `StreamCodec.DecodeEncode` | internal/datastruct/stream.go:191-409 | reading back what was stored gives the same stream |
| `Resp.DecodeEncode` | internal/protocol/decode.go:12-310 | decoding the encoding of any well-formed value, however nested, followed by anything, gives that value and leaves exactly the rest |
| `Resp.DecodeEncodeAll` | internal/protocol/encode.go:55-94 | the same for a list of values |
| `Resp.DecodeEncodePairs` | internal/protocol/encode.go:55-94 | the same for maps and attributes |
| `Resp.PrefixFree` | internal/protocol/encode.go:10-53 | no encoding is the beginning of another |
| `Resp.Split` | internal/protocol/decode.go:12-46 | decoding in a loop takes a pipeline apart as it was put together |
| `Resp.InlineReads` | internal/protocol/decode.go:12-46 | words joined by blanks and ended by CRLF decode to those words, if the line does not start with a type byte |
| `Resp.KnownLines` | internal/protocol/encode.go:10-53 | the bytes of line replies, nils and booleans |
| `Resp.KnownSized` | internal/protocol/encode.go:10-53 | the bytes of a bulk string, and which type bytes sized values carry |
| `Resp.KnownLists` | internal/protocol/encode.go:10-94 | the bytes of arrays, sets, pushes, maps and attributes |
| `Hll.DenseGet` | internal/datastruct/hll.go:92-101 | reads the six bits of a register |
| `Hll.DenseSet` | internal/datastruct/hll.go:103-114 | writes the six bits of a register |
| `Hll.GetSet` | internal/datastruct/hll.go:92-114 | a write changes that register and no other, at every byte alignment |
| `Hll.RegisterBits` | internal/datastruct/hll.go:92-101 | register n is the six bits from bit 6n on, least significant first |
| `Hll.PlaceExactly` | internal/datastruct/hll.go:78-90 | the low 14 bits choose the register, and the rank is one more than the number of trailing zeros of the other 50, or 51 |
| `Hll.PatLen` | internal/datastruct/hll.go:78-90 | the register index and the rank of a hash, the rank at most 51 |
| `Hll.PlaceBounded` | internal/datastruct/hll.go:78-90 | ranks fit into a register, for every hash |
| `Hll.DenseAdd` | internal/datastruct/hll.go:117-124 | one register is raised to the rank; changed if and only if some register differs |
| `Hll.PfAdd` | internal/commands/hll.go:59-93 | every register becomes the greatest of its old value and the ranks of the elements that fall into it, a missing key being an empty sketch; the reply is 1 if and only if a register changed or the key is new |
| `Hll.DenseMerge` | internal/datastruct/hll.go:127-137 | register-wise maximum; changed if and only if some register differs |
| `Hll.MaxRankIsMax` | internal/datastruct/hll.go:117-124 | the specified value is an upper bound and is reached |
| `Hll.OrderDoesNotMatter` | internal/commands/hll.go:59-93 | only which elements were added matters, not order or repeats |
| `Hll.AddHolds` | internal/commands/hll.go:59-93 | adding extends the sequence that a sketch stands for |
| `Hll.MergeHolds` | internal/commands/hll.go:136-182 | merging two sketches gives the sketch of the combined sequences |
| `Hll.SameElementsSameSketch` | internal/commands/hll.go:59-93 | sequences with the same elements have the same registers |
| `Hll.PfMerge` | internal/commands/hll.go:136-182 | PFMERGE of any number of sketches stands for all their elements |
| `Hll.EncodeHll` | internal/datastruct/hll.go:194-207 | header and registers of the stored form |
| `Hll.DecodeEncode` | internal/datastruct/hll.go:194-223 | a stored sketch stands for the same elements when read back |
| `Bitfield.GetBitAt` | internal/commands/bit_base.go:66-75 | the bit, zero outside the buffer |
| `Bitfield.SetBitAt` | internal/commands/bit_base.go:78-90 | the old bit, and a buffer that differs in that bit only |
| `Bitfield.BitfieldRaw` | internal/commands/bitfield.go:105-115 | the number written in the bits of a field |
| `Bitfield.BitfieldGet` | internal/commands/bitfield.go:117-126 | the signed or unsigned value, within the bounds of its type |
| `Bitfield.WriteBits` | internal/commands/bitfield.go:129-145 | the field reads as the number, no other bit changes, and a one-bit field is SETBIT |
| `Bitfield.BitfieldSet` | internal/commands/bitfield.go:129-145 | the old value; the field afterwards is the number cut down to its type; no other bit changes |
| `Bitfield.ReducedLaw` | internal/commands/bitfield.go:86-102 | cutting down keeps what fits and otherwise agrees modulo the size of the field |
| `Bitfield.FlaggedExact` | internal/commands/bitfield.go:148-176 | the int64 overflow test is right if and only if the type is signed or the increment is not -2^63 |
| `Bitfield.BitfieldIncrby` | internal/commands/bitfield.go:148-176 | the exact sum when in range, otherwise the wrapped, saturated or refused result; a refusal changes nothing and no other bit changes |
| `Bitfield.IncrementExactly` | internal/commands/bitfield.go:148-176 | an overflowing sum saturates to the value in range nearest to it, wraps to the one that differs by a multiple of the field's size, or is refused |
| `Bitfield.RawJoins` | internal/commands/bitfield.go:105-115 | a field is its first bits followed by the rest, at every offset and width |
| `Bitfield.RawByte` | internal/commands/bitfield.go:105-115 | eight bits at a byte border are that byte |
| `Backlog.Backlog.constructor` | internal/replication/backlog.go:32-37 | an empty log with the default size for a size that is not positive |
| `Backlog.Backlog.Append` | internal/replication/backlog.go:40-54 | one more operation, under the next offset |
| `Backlog.Backlog.Since` | internal/replication/backlog.go:57-73 | everything after the offset, refused exactly when some of it has slid out |
| `Txn.StripUndoesPrefix` | internal/commands/userkey.go:7-17 | stripping inverts prefixing for each of the seven types |
| `Txn.PrefixFree` | internal/commands/userkey.go:7-17 | no prefix starts a key stored under another prefix |
| `Txn.TxnRegistry.HandleMulti` | internal/commands/txn.go:146-163 | the new session, an error exactly for a nested MULTI, no other connection touched |
| `Txn.TxnRegistry.HandleDiscard` | internal/commands/txn.go:165-178 | the session is gone, an error exactly without MULTI |
| `Txn.TxnRegistry.HandleWatch` | internal/commands/txn.go:218-246 | keys are added, the mark is taken at the first WATCH only, refused inside MULTI |
| `Txn.TxnRegistry.HandleUnwatch` | internal/commands/txn.go:248-265 | nothing is watched any more, an empty session is gone |
| `Txn.TxnRegistry.Intercept` | internal/commands/txn.go:77-111 | a command is queued, or makes the session dirty, exactly when the connection has a session |
| `Txn.TxnRegistry.CatchupDirty` | internal/commands/txn.go:130-144 | dirty if and only if the log slid past the mark or holds an operation on a watched key after it |
| `Txn.TxnRegistry.HandleExec` | internal/commands/txn.go:180-216 | the answer, and the session is gone in every case |
| `Txn.SessionMeansRun` | internal/commands/txn.go:218-265 | after every run the session says what the run says: MULTI open, keys watched, commands that wait, whether one was refused, and the log after the mark is what was written since the first WATCH |
| `Txn.ReplaysExactly` | internal/commands/txn.go:180-216 | in every run, the answer to EXEC as a function of the run: it replays exactly the commands queued since the first WATCH or MULTI if and only if a MULTI is open, none was refused, the check passes, and the log holds everything since the first WATCH with no watched key in it |
| `Txn.EarlyCommandsWait` | internal/commands/txn.go:94-110 | commands sent after WATCH and before MULTI are part of the transaction, and a refused one aborts it |
| `Txn.UnwatchForgets` | internal/commands/txn.go:248-265 | outside MULTI, UNWATCH forgets a refusal if and only if no command waits |
| `Txn.PromiseExactly` | internal/commands/txn.go:130-144 | EXEC replays exactly when no watched key was written since its own WATCH, if and only if one was, or the log holds everything since the first WATCH and no watched key was written between that and its own |
| `Txn.NeverStale` | internal/commands/txn.go:130-144 | a replay never follows a write to a watched key since that key's WATCH |
| `Txn.AbortsTooOften` | internal/commands/txn.go:218-246 | a run that aborts although no watched key was written since its own WATCH |
| `Txn.QueuesWithoutMulti` | internal/commands/txn.go:94-110 | after WATCH alone, commands are queued without MULTI |
| `FunctionStore.IndexIsUnique` | internal/commands/function.go:409-427 | the libraries determine the function index |
| `FunctionStore.CommitKeeps` | internal/commands/function.go:409-427 | committing a library that fits keeps the three indexes in agreement |
| `FunctionStore.LoadKeeps` | internal/commands/function.go:485-504 | LOAD, with or without REPLACE, keeps them in agreement |
| `FunctionStore.DeleteKeeps` | internal/commands/function.go:556-579 | DELETE keeps them in agreement |
| `FunctionStore.DecodeEncodeDump` | internal/commands/function.go:638-705 | decoding a dump gives back its libraries |
| `FunctionStore.RestoreExact` | internal/commands/function.go:728-764 | a refused RESTORE changes nothing; an accepted one leaves the indexes in agreement if and only if the libraries of the payload share no function |
| `FunctionStore.ClashRestored` | internal/commands/function.go:728-764 | a payload of two libraries that share a function passes the checks and leaves the indexes in disagreement |
| `FunctionStore.OverlapDisagrees` | internal/commands/function.go:728-764 | libraries that share a function cannot be indexed |
| `FunctionStore.DumpRestores` | internal/commands/function.go:638-764 | restoring a store's dump with FLUSH gives that store, whatever was there |
| `FunctionStore.DumpsAreConsistent` | internal/commands/function.go:638-654 | the libraries of a dump share no function |
| `FunctionStore.RestartRebuilds` | internal/commands/function.go:430-451 | rebuilding from the persisted sources in any order gives the store back |
| `FunctionStore.EveryRunAgrees` | internal/commands/function.go:485-764 | the indexes agree after every run of LOAD, DELETE, FLUSH and RESTORE of consistent payloads |
| `FunctionStore.FunctionRegistry.constructor` | internal/commands/function.go:430-451 | an empty store |
| `FunctionStore.FunctionRegistry.Forget` | internal/commands/function.go:409-427 | takes out exactly the functions that the index has under this library |
| `FunctionStore.FunctionRegistry.CommitLocked` | internal/commands/function.go:409-427 | all three indexes after a commit |
| `FunctionStore.FunctionRegistry.Collides` | internal/commands/function.go:485-504 | whether a library is in the way, by name or by function |
| `FunctionStore.FunctionRegistry.LoadLibrary` | internal/commands/function.go:485-504 | the new store, or an error that changes nothing |
| `FunctionStore.FunctionRegistry.DeleteLibrary` | internal/commands/function.go:556-579 | the new store, or an error that changes nothing |
| `FunctionStore.FunctionRegistry.Flush` | internal/commands/function.go:582-614 | all three indexes are empty |
| `FunctionStore.FunctionRegistry.AnyCollides` | internal/commands/function.go:728-764 | whether some library of a payload is in the way |
| `FunctionStore.FunctionRegistry.CommitMany` | internal/commands/function.go:728-764 | the libraries are committed in turn |
| `FunctionStore.FunctionRegistry.RestoreFn` | internal/commands/function.go:728-764 | the new store under FLUSH, APPEND or REPLACE, or an error that changes nothing |
| `FunctionEffects.LowerFolds` | internal/commands/function.go:409-427 | two function names are the same exactly when they differ in letter case only |
| `FunctionEffects.DeleteExactly` | internal/commands/function.go:556-579 | the name is gone from the libraries and the persisted sources, no function refers to it, and everything else is as before |
| `FunctionEffects.LoadExactly` | internal/commands/function.go:485-504 | LOAD is accepted exactly when the source compiles, the name is free or replaced, and no other library has one of its functions; then the library, its source and its functions are in and the others are as before, and otherwise nothing changes |
| `FunctionEffects.ConflictsMeans` | internal/commands/function.go:490-501 | the conflict test on the function index is that test on the libraries |
| `FunctionEffects.WantedExactly` | internal/commands/function.go:728-757 | RESTORE is accepted exactly for a dump whose sources compile to the libraries they are named after, each of which may enter unless everything is flushed |
| `FunctionEffects.RestoreExactly` | internal/commands/function.go:728-764 | afterwards every library of the payload is in, the others are as before or, under FLUSH, gone, and the persisted sources follow; a refusal changes nothing |
| `Msgpack.IntPut` | internal/commands/lua_cmsgpack.go:268-321 | every int64 reads back from its shortest form |
| `Msgpack.StrPut` | internal/commands/lua_cmsgpack.go:323-340 | every string of 32-bit length reads back |
| `Msgpack.KeyPut` | internal/commands/lua_cmsgpack.go:344-374 | a table key reads back as the same key |
| `Msgpack.IntForms` | internal/commands/lua_cmsgpack.go:268-321 | every int64 takes the shortest form: one byte, or its type byte and the number modulo the size of the form, big-endian |
| `Msgpack.KnownSizes` | internal/commands/lua_cmsgpack.go:323-374 | the bytes before short strings, arrays and maps |
| `Msgpack.ArrayKeys` | internal/commands/lua_cmsgpack.go:344-374 | n distinct positive keys with maximum n are exactly 1 to n |
| `Msgpack.ScanTable` | internal/commands/lua_cmsgpack.go:344-374 | the scan, in any walking order, decides array or map and counts the pairs |
| `Msgpack.ItemsPut` | internal/commands/lua_cmsgpack.go:531-575 | the items of an array table read back, as far as they are not nested too deep |
| `Msgpack.PairsPut` | internal/commands/lua_cmsgpack.go:531-575 | the pairs of a map table read back in any walking order, as far as they are not nested too deep |
| `Msgpack.ValPut` | internal/commands/lua_cmsgpack.go:244-529 | every value, however nested, reads back without the tables beyond the limit, whatever follows |
| `Msgpack.SameExactly` | internal/commands/lua_cmsgpack.go:244-265 | nothing is lost if and only if tables are nested at most as deep as the limit leaves room |
| `Msgpack.Unpack` | internal/commands/lua_cmsgpack.go:46-64 | the unpack loop reads all values, or fails |
| `Msgpack.UnpackPack` | internal/commands/lua_cmsgpack.go:32-64 | unpacking a packed list gives what is left of each value, whatever order tables were walked in |
| `Msgpack.UnpackPackSame` | internal/commands/lua_cmsgpack.go:32-64 | unpacking gives the same list if and only if no table is nested more than 16 deep |
| `Msgpack.UnpackRange` | internal/commands/lua_cmsgpack.go:133-168 | the range loop: the values from an offset up to a limit, and the next offset or -1 |
| `Msgpack.OneByOneFrom` | internal/commands/lua_cmsgpack.go:68-78 | unpacking one by one from any value boundary gives the rest of the list, as far as it is left |
| `Msgpack.UnpackOneByOne` | internal/commands/lua_cmsgpack.go:68-168 | unpack_one from offset 0 until -1 gives the same list as unpacking all at once |

## Left out

- Sockets, TLS, timers, goroutines, locks, Pebble, the Lua VM, file I/O, metrics and configuration: the clock, the stored keys and the order of map iteration are parameters.
- Argument parsing and error texts: requests arrive parsed, and errors are a `None` or a flag.
- Plain string, hash, list, set and sorted-set commands, ACL, HELP, INFO: they would only add easy members.
- Address normalisation, address splitting, the hash slot of a key, MurmurHash and the compilation of a function library: arbitrary functions; of the compiler only that the functions of one library have distinct names.
- Election.Registry.IsMasterDownByAddr: asks only for masters with a non-empty name, as the caller's table holds.
- ElectionProtocol.OneLeaderPerEpoch: one master, no restarts, and no step past the greatest 64-bit epoch.
- ElectionSplit.TwoLeadersExactly: member lists are within the roster, and the cooldown after a failover and the search for an already promoted master never end a step early in the run it constructs.
- AdoptMaster, ObserveMaster and AutoTick: the failover that follows a won election is not part of this model.
- SlotMigration.MoveIsInvisible: one slot, two nodes, single-key commands, the documented order of steps, and no write to a key between its restore and its delete; MIGRATE with COPY, SETSLOT STABLE during a move, other orders and expiry times are not modelled.
- Topology.Topology.LoadSnapshot: the node list and slot listing replies of CLUSTER are not modelled.
- StreamRun.EveryRunOk: XSETID is not a step, because it accepts any last id and so does not keep the order.
- StreamRun.DeliveredOnce: one XREADGROUP names each key once; BLOCK only repeats a read later.
- StreamGroupObject.GroupObject.XClaim: a claim whose reply needs a deleted entry is a failed command that stores nothing, where the code dereferences a missing entry; the fields of the group object are unspecified then.
- StreamClaims.ClaimExactly: for clocks, record times and minimum idle times where no signed 64-bit difference wraps around; outside that range `IdleEnough` compares as the code does.
- StreamGroupObject.GroupObject.XAutoClaim: the claimed ids of the reply are collected in a loop of their own, over the same records as the loop that takes them over.
- XPENDING, XINFO, XRANGE and XREAD replies: they only read the state that is modelled here.
- The order of the groups of a stream: a map in the runs, a list in the stored form.
- StreamCodec.DecodeEncode: readers and writers are functions on byte sequences; the reused buffer and its aliasing are not modelled.
- Resp.DecodeEncode: doubles are not modelled, and neither is the failure to allocate a very long bulk string.
- Msgpack.UnpackPack: floats, numbers that are not integers and tables as keys are not modelled.
- StreamLag.LagExact: groups created with ENTRIESREAD or moved by SETID are left out, since their counter is whatever the caller says.
- Characters stand for bytes in `Glob`, `Lcs`, `Text`, `Resp` and `Snapshot`.
- Hll.PatLen: shifts the hash down where the code moves a mask bit up; the cardinality estimate is floating point and left out.
- Txn.ReplaysExactly: the check and the replay are one step, while the code holds no lock between them; WATCH on vector-set keys is left out, because their prefix is not in the table.
- FunctionStore.EveryRunAgrees: a payload that was not made by a dump may break the agreement, and `RestoreExact` says exactly when.
- LCS option WITHMATCHLEN and the reply texts of IDX.
