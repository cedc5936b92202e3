# KosDB verified models

Dafny models of the parts of KosDB whose correctness is hard to see from
reading the code, with proofs of what they promise. `dafny verify
dfyconfig.toml` checks everything. Code that works by changing state is a
class or a method with the source's loops, proved to have the effect of a
function; the theorems are about those functions, over every input and
every run.

| files | subject | source |
|---|---|---|
| RaftTypes, RaftCluster, RaftHistory, RaftElection, RaftReplication, RaftSafety, RaftProgress, RaftDelivery, RaftRecovery, RaftFindings, RaftNode | consensus as a cluster of nodes over a network that loses, delays, duplicates and reorders messages | failover.py |
| DbTypes, DbModel, DbKeys, DbTransactions, DbIndexes, DbUpdates, DbRuns, DbSelect, DbMeaning, DbFindings, Database | row store with secondary indexes, transactions and a binlog buffer | database.py |
| Geohash, GeohashOrder, GeohashNeighbors | geohash encoding, decoding and neighbours over reals | geospatial.py |
| KMeans | Lloyd's iteration over reals | gpu_vector_ops.py |
| SqlSplit, SqlDump, SqlPieces, SqlRoundTrip, SqlSchema, SqlImport | SQL dump, the statement splitter that reads it back, and what its columns and values are read as | export_import.py, parser.py, database.py |
| RefreshOrder | order in which materialized views are refreshed | batch_materialized_views.py |
| QueryCache, CacheRuns, CacheHits | query cache under the batch executor | batch_query_cache.py, batch_executor.py |
| Cdc, TokenBucket | change log, polling consumer that regroups batches, rate limiter | cdc_batch.py |
| Binlog | zero-padded keys, paging, truncation, and a polling replica | binlog.py |
| InvertedIndex, IndexSearch, SearchMeaning | full-text index and ranked search | fulltext_search.py |

## How the models are set up

**Raft.** The cluster is a transition system with one action per handler;
sent messages stay in a set from which any may be delivered at any time, any
number of times, or never. The safety proof carries a history beside the
state: who won which term with which log and electors, every ballot and
every acknowledgement, and every commit. The safety theorems are about the
protocol the handlers implement when elections can succeed at all. It differs
from the code in two places. `_election_timer` (failover.py:311-317) holds the
node's lock over the whole election, so no vote is counted before the check;
the protocol lets go of the lock while it waits, so that votes are counted as
they come and the check happens at any time. And `_request_vote`
(failover.py:357-368) counts any granted reply; the protocol counts one only
while the node is still in the term it asked for, and once per peer, so the
vote counter is the set of granters (`RaftCluster.Enabled`). The second change
is needed once the first is made: `RaftFindings.LateVoteElectsTwoLeaders` is a
run with the lock released and no comparison of terms that has two leaders in
one term. What the code's own elections reach is
`RaftFindings.LeaderReachableIffAlone`. `propose` holds the lock until it
commits or gives up, which the model keeps as a pending proposal that blocks
the node's other handlers. A reply names the request it answers by term and
last index, as the source's connection does.

**Row store.** Keys are structural (table and row; table, column, value and
row) where the source concatenates with `:` and NUL. `DbKeys` shows that
matching texts by prefix and suffix picks the same keys for table names
without `:` (and other than `_idx` and `_schema`) and for column names, UNIQUE
and indexed values and row keys without NUL; so much is assumed. JSON is the
identity; values are None, integers and text with Python's `str`; iterators
are snapshots in byte order of the row keys. `WellFormed` states what
`create_table` sets up: UNIQUE columns are indexed.

**Geohash and k-means** use reals: halving 90 and 180 is exact in doubles at
the precisions in use, and rounding is not the point of k-means. `math.sqrt`
and BM25's logarithm are parameters, both required to be strictly increasing
where order matters, the logarithm with log(1) = 0. The random initial
centroids are a parameter.

**SQL dump.** The source writes table, column and database names unquoted, so
a name can break up a statement; the round trip is stated for all names, types
and values, with that as part of its exact condition. Only the header line is
assumed to be one comment line, with its quotes closed and without a top-level
semicolon or an opening of a block comment (`SqlPieces.Header`); it holds the
database's name, and in a table dump the table's. String and JSON values are
arbitrary, numbers carry the text Python prints for them. Column types are
given as the text the source upper-cases. Reading back starts from one column
specification and from one VALUES list with its column names; the regular
expressions that cut these out of a statement are not modelled. `int` and
`float` are a parameter, as is `upper`, of which only its behaviour on capital
letters and blanks is used (`SqlSchema.UpperOk`). Columns are read back for
names and types that are single words, the types in capitals
(`SqlSchema.PlainColumn`).

**Query cache.** The parser, command execution, the digest and the textual
tests for SELECT, DML and table names are given functions. What coherence
rests on is stated as predicates about them: `ReadsCovered`, `WritesCovered`
and `KeysFaithful`, over the texts a run uses. The concrete runs use the answers
the source gives to their texts (parser.py:43-49 and 429-454, commands.py:602,
database.py:944-996), with the text itself as its digest.

**Clocks, threads and I/O.** Clock readings are parameters. A poll of the
change log, and each handler of a Raft node, is one step among arbitrary
interleavings.

## Findings

Where a promise fails the model keeps the code as it is, states when the code
does meet it, and gives an input or a run that breaks it.

- An election checks for a majority before any reply can be counted, so a
  leader is reachable if and only if the cluster has one member
  (`RaftFindings.LeaderReachableIffAlone`).
- An UPDATE stopped by a UNIQUE violation has already written the row but not
  its index entries. The UPDATE keeps the table in order if and only if it does
  not clash, which can be seen before the call
  (`DbUpdates.UpdateKeepsIffNoClash`; two rows that clash:
  `DbFindings.UniqueErrorBreaksTable`).
- Moving a row checks UNIQUE values under the new key while the old entries are
  still there, so a row clashes with itself over a value it keeps
  (`DbFindings.OwnEntriesClashIff`; `DbFindings.LoneRowClashesWithItself`).
- Moving a row rewrites `id` without the UNIQUE check when no UNIQUE column is
  set (`DbFindings.UncheckedUpdateKeepsIff`; `DbFindings.MovedIdBreaksUnique`).
- An INSERT that leaves out the primary key overwrites whatever row lies under
  the id counter (`DbFindings.InsertWithoutKeyAgreesIff`;
  `DbFindings.OverwriteBreaksIndex`).
- An indexed lookup of None misses rows that lack the column, which the scan
  reads as None (`DbSelect.SelectIsScanIff`; `DbFindings.SelectMissesRow`).
- The UNIQUE check takes a value for taken when another row holds one that
  continues it with a NUL (`DbKeys.TextTakenIff`; `DbKeys.NulValueRefused`).
- A string value containing a block comment loses it on import
  (`SqlRoundTrip.DatabaseRoundTripIff`, `SqlRoundTrip.CommentInValueIsLost`;
  `SqlRoundTrip.SpoiledIsLost`), and a name with a semicolon breaks up its
  statements (`SqlRoundTrip.SemicolonInNameIsLost`). Exporting an empty database
  reads `lines` before assigning it (export_import.py:52-56), although the
  comment there promises a valid dump.
- A single quote in a string is dumped doubled, but the VALUES reader ends the
  string there: it becomes several values and the rest of the row moves along.
  White space at the ends is stripped, NULL and number-like texts turn into
  NULL and numbers, and JSON comes back as text (`SqlImport.RowComesBackIff`,
  `SqlImport.QuoteSplitsString`; `SqlImport.ItsIsLost`).
- Marks are looked for anywhere in a column's text, so a name may add one, and
  an index on the primary key does not come back
  (`SqlSchema.ColumnComesBackIff`; `SqlSchema.NameMakesIndex`).
- An error answered from the query cache is reported as OK: statuses are right
  over all runs if and only if no SELECT can fail
  (`CacheRuns.StatusAgreesIff`, `CacheRuns.ReportedIffNoErrors`;
  `CacheRuns.CachedErrorReportedOk`).
- Queries that differ only in blanks inside a literal share a cache entry
  (`QueryCache.KeyIgnoresRepeatedBlanks`); all runs are answered right if and
  only if queries with one key have one answer
  (`CacheRuns.AnsweredIffKeysFaithful`; `CacheRuns.WrongLiteral`).
- Binlog key order is the order of positions below 10^12 and not beyond, where
  a reader misses an entry (`Binlogs.KeyOrderIsNumericIff`,
  `Binlogs.PagesInOrderIff`; `Binlogs.EntryAtLimitMissed`).
- Adding a document under an id in use leaves the old document's other tokens
  in the index (`InvertedIndices.ReaddAgreesIff`;
  `InvertedIndices.ReaddLeavesOldToken`).

## Model

| member | source | states |
|---|---|---|
| RaftSafety.StateMachineSafety | failover.py:444-454 | State Machine Safety: what one node has applied at one point of a run and what any node has applied then or later are prefixes of one another |
| RaftSafety.ApplyQueueIsLogPrefix | failover.py:444-454 | in every reachable state `_apply_queue` is exactly `log[..last_applied]` and `last_applied <= commit_index <= len(log)`, so the applier never indexes past the log |
| RaftSafety.LeaderHoldsCommitted | failover.py:235-289 | Leader Completeness: what a node knows to be committed is in the log of every leader, then or later, whose term is at least its own |
| RaftSafety.ElectionSafety | failover.py:319-355 | Election Safety: over a whole run a term has at most one leader |
| RaftSafety.LogMatching | failover.py:258-283 | Log Matching: two logs with entries of the same index and term are identical up to that index, for every interleaving of stale, duplicated and reordered messages |
| RaftSafety.CommitRuleIsRaft | failover.py:285-287 | every AppendEntries ever sent covers the commit index it announces, and a follower that accepts it ends with the commit index of Raft's own rule (min with the last new entry) without cutting off a committed entry |
| RaftSafety.StepKeeps | failover.py:191-202 | every step of any node, from any reachable state, keeps the whole cluster invariant, with a history that only grows |
| RaftSafety.RunHistories | failover.py:191-202 | every run has a growing history of elections, ballots, acknowledgements and commits that explains each of its states |
| RaftRecovery.MajorityMakesProgress | failover.py:191-511 | from every reachable state, whatever was lost, any majority can go on without the others: some run in which nobody else changes elects one of them and has it commit the given command at the end of its log, and ends with every node of the majority having applied exactly that log |
| RaftRecovery.Elect | failover.py:319-386 | from every reachable state any majority can elect a leader by itself, with none of it in a later term and no proposal pending |
| RaftProgress.LeaderCommits | failover.py:462-511 | a leader without a pending proposal, of whose majority nobody is in a later term, can get any command committed and applied: a run of proposing, exchanges, acknowledgements, committing and applying within that majority |
| RaftProgress.EndProposalCommitsIff | failover.py:502-511 | in every reachable state, ending a proposal moves `commit_index` to the end of the log if a strict majority acknowledged the entry, and leaves it alone if not |
| RaftProgress.ApplyAppliesAll | failover.py:444-454 | in every reachable state the applier leaves `last_applied` at `commit_index`, with exactly the log up to there applied |
| RaftProgress.CatchUp | failover.py:405-442 | a leader's whole log reaches a follower in no later term, with only these two nodes changing |
| RaftDelivery.MajorityApplies | failover.py:405-454 | what a leader has committed and applied, every follower in no later term can apply too: catching up, one more heartbeat that carries the commit index, and the applier, after which its queue is the leader's log |
| RaftElection.MajoritiesMeet | failover.py:354-355 | two strict majorities of one membership share a node |
| RaftElection.LeaderCompleteness | failover.py:221-231 | a committed prefix is in the log with which every later term's leader was elected |
| RaftElection.NoRival | failover.py:319-355 | a candidate with a majority of grants is the only node that can win its term |
| RaftElection.TimeoutKeeps | failover.py:319-324 | starting an election keeps the invariant |
| RaftElection.RequestVoteKeeps | failover.py:204-233 | answering RequestVote keeps the invariant, including one vote per term and what earlier acknowledgements promised |
| RaftElection.VoteReplyKeeps | failover.py:357-368 | counting a vote in the election it answers keeps the invariant |
| RaftElection.WinElectionKeeps | failover.py:353-378 | becoming leader with a strict majority keeps the invariant |
| RaftElection.SendAppendKeeps | failover.py:405-426 | sending AppendEntries, even from a stale `next_index`, keeps the invariant |
| RaftElection.AppendReplyKeeps | failover.py:430-442 | handling an AppendEntries reply keeps the invariant |
| RaftReplication.MergeWithoutConflict | failover.py:265-283 | the append loop without a conflict keeps the whole log and only extends it |
| RaftReplication.MergeAtConflict | failover.py:265-283 | at a conflict the append loop gives the log up to it followed by the remaining new entries, nothing else |
| RaftReplication.AppendKeeps | failover.py:235-289 | answering AppendEntries keeps the invariant whatever is truncated |
| RaftReplication.CommittedInLeader | failover.py:286-287 | a committed prefix agrees with the log of every term at or above the one it was committed in |
| RaftReplication.StartProposalKeeps | failover.py:462-481 | appending a client command keeps the invariant |
| RaftReplication.ProposalAckKeeps | failover.py:490-502 | counting an acknowledgement of the pending entry keeps the invariant |
| RaftReplication.EndProposalKeeps | failover.py:502-511 | committing on a strict majority keeps the invariant |
| RaftReplication.ApplyKeeps | failover.py:444-454 | applying committed entries keeps the invariant |
| RaftFindings.LeaderReachableIffAlone | failover.py:305-355 | elections as written, with the lock held from the timer to the counting of the votes: some run reaches a leader if and only if the cluster has one member |
| RaftFindings.LateVoteElectsTwoLeaders | failover.py:357-368 | with the lock released while votes come in, counting a reply without comparing terms leads to two leaders in one term: a concrete run, and the reason for the guard of the protocol |
| RaftFindings.ReplicationConverges | failover.py:405-442 | however stale `next_index` is and whatever the follower's log diverged into, at most `next_index` exchanges give the follower the leader's whole log |
| RaftFindings.LeaderRepairsFollower | failover.py:405-442 | in every reachable state a leader can so repair each peer that is not in a later term |
| RaftNodes.RaftNode.constructor | failover.py:60-98 | a new node's fields are the initial state of the protocol |
| RaftNodes.RaftNode.HandleRequestVote | failover.py:204-233 | reply and new fields are those of the protocol function |
| RaftNodes.RaftNode.HandleAppendEntries | failover.py:235-289 | reply and new fields are those of the protocol function, the append loop included |
| RaftNodes.RaftNode.AppendNewEntries | failover.py:265-283 | the loop over new entries computes the merged log the lemmas above describe |
| RaftNodes.RaftNode.LastLogTerm | failover.py:456-460 | term of the last entry, 0 for an empty log |
| RaftNodes.RaftNode.StartElection | failover.py:319-337 | fields and request are those of the protocol function |
| RaftNodes.RaftNode.ReceiveVote | failover.py:357-368 | fields after a reply are those of the protocol function |
| RaftNodes.RaftNode.BecomeLeader | failover.py:370-378 | fields after winning are those of the protocol function |
| RaftNodes.RaftNode.SendAppendEntries | failover.py:405-426 | the message is that of the protocol function |
| RaftNodes.RaftNode.ReceiveAppendReply | failover.py:430-442 | `match_index` and `next_index` after a reply are those of the protocol function |
| RaftNodes.RaftNode.Propose | failover.py:462-481 | refused unless leader; otherwise log and message are those of the protocol function |
| RaftNodes.RaftNode.FinishProposal | failover.py:502-511 | reports success exactly on a strict majority; the new fields are those of the protocol function, which commits exactly then (RaftProgress.EndProposalCommitsIff) |
| RaftNodes.RaftNode.ApplyCommitted | failover.py:444-454 | the applier's loop has the effect of the protocol function |
| DbTransactions.TransactionRefinesAutocommit | database.py:230-307 | begin; inserts; commit gives the answers, store, id counters and binlog of running the inserts one by one, rejected ones included; with rollback nothing changes |
| DbTransactions.ScriptRefinesAutocommit | database.py:230-291 | any sequence of transactions leaves the database as if only the committed ones' inserts had been issued, one by one |
| DbTransactions.InsertMirrors | database.py:506-553 | one insert inside a transaction and outside it answer alike and stay in correspondence |
| DbTransactions.InsertIsolated | database.py:506-553 | an insert inside a transaction touches neither the committed store nor the binlog |
| DbRuns.AgreementOverRuns | database.py:506-597 | over every run of INSERT, UPDATE and DELETE on any tables, where inserts supply the primary key if there is one and no UPDATE clashes (a condition on the table, the set clause and the filter before the call), the index entries are exactly the (column, str(value), row) triples of the rows and UNIQUE values are unique |
| DbIndexes.InsertKeeps | database.py:506-554 | an insert, accepted or rejected, keeps rows, entries and UNIQUE columns in order and touches no other table |
| DbIndexes.NextIdIsFresh | database.py:531-535 | the id counter of a table without a primary key has never been used as a row key |
| DbIndexes.CheckUniqueMeans | database.py:564-581 | the UNIQUE check reports a column exactly when another row's entry holds its value |
| DbIndexes.CheckIffFree | database.py:564-581 | in a table in order the check passes exactly when no other row has one of the row's UNIQUE values |
| DbIndexes.TakenMeans | database.py:570-580 | a value is taken exactly when an index entry holds it under another row key |
| DbUpdates.RejectedBreaks | database.py:866-871 | a row stopped by the UNIQUE check is already written and leaves index agreement broken |
| DbUpdates.UpdateRowKeepsIff | database.py:845-877 | one row of an UPDATE: it keeps the table in order if and only if its new values do not clash; the UNIQUE error and the duplicate-key error come exactly when stated on the table before; the latter changes nothing, an accepted row replaces itself and no other |
| DbUpdates.UnmovedClashIff | database.py:845-871 | a row that stays under its key clashes exactly when another row holds one of the UNIQUE values being set |
| DbUpdates.UpdateKeepsIffNoClash | database.py:809-890 | a whole UPDATE keeps the table in order if and only if it does not clash, and ends in the UNIQUE error if and only if it clashes and sets a UNIQUE column. With the primary key unset it clashes when a UNIQUE column is set while two rows match, or a matching row takes a UNIQUE value another row holds; with the primary key set, when the first matching row's new key is free or its own and one of its new UNIQUE values, `id` among them, is held under another key |
| DbUpdates.UnmovedRows | database.py:830-877 | the loop without the primary key: in order after all rows exactly when the list does not clash |
| DbUpdates.MovedRows | database.py:845-863 | the loop with the primary key set: only the first matching row can be written, the next one meets its new key |
| DbIndexes.DeleteKeeps | database.py:892-942 | DELETE keeps agreement |
| DbSelect.SelectIsScanIff | database.py:706-738 | the indexed SELECT returns the full scan's list in its order if and only if no matching row lacks the indexed column |
| DbSelect.SelectIsScan | database.py:599-646 | so it does for every lookup value other than "None" |
| DbMeaning.DeleteMeans | database.py:892-942 | DELETE on a table in order: a row stays exactly when some column of the filter has another text in it; whatever stays is unchanged, the answer is the number of rows removed, and the event logged lists them in key order, none if there are none |
| DbMeaning.UpdateMeans | database.py:809-890 | UPDATE with the primary key unset changes exactly the rows that meet the filter, each to itself with the set columns replaced, and answers and logs them in key order; if it clashes it ends in the UNIQUE error, after writing the first matching row, or the first two if the first takes no value another row holds, and logs nothing |
| DbMeaning.MoveMeans | database.py:809-890 | UPDATE that sets the primary key: with no match nothing happens; if another row has the new key nothing but the error; otherwise the first matching row moves there, and the answer is the UNIQUE error, one row updated and logged, or the duplicate-key error of the next match |
| DbMeaning.InsertMeans | database.py:506-554 | INSERT adds one row, the given values with its key as `id` unless that is given, and logs it; or answers that the key is taken, with nothing changed, or that a UNIQUE value is, with at most the id counter moved |
| DbMeaning.SelectMeans | database.py:599-646 | SELECT returns exactly the rows that meet the filter, in key order, unless it looks up None in an index |
| DbMeaning.DataMeans | database.py:516-519 | of the values paired with one column the last counts |
| DbMeaning.DecimalReads | database.py:531-535 | the text of the id counter is its decimal number |
| DbFindings.InsertWithoutKeyAgreesIff | database.py:522-554 | an insert that leaves out the primary key is accepted exactly when its UNIQUE values are free, overwrites whatever lies under the id counter, and keeps agreement if and only if the old row's entries are among the new row's |
| DbFindings.OverwriteBreaksIndex | database.py:522-554 | two INSERTs into a fresh table, the second without the key: the one row holds the new value and the index has an entry for each |
| DbFindings.UniqueErrorBreaksTable | database.py:866-871 | in a table of two inserted rows, an UPDATE that ends in the UNIQUE error with both rows holding the value and the old entry still there, so that neither uniqueness nor index agreement holds |
| DbFindings.MovedIdBreaksUnique | database.py:855-871 | in a table of two inserted rows, a whole UPDATE that answers one row updated and leaves both rows with the UNIQUE `id` x |
| DbFindings.UncheckedUpdateKeepsIff | database.py:855-871 | an UPDATE that sets no UNIQUE column never ends in the UNIQUE error, and keeps the table in order if and only if it does not move its first matching row to a key another row has as UNIQUE `id` |
| DbFindings.OwnEntriesClashIff | database.py:855-871 | a moved row whose new UNIQUE values no other row holds is stopped by the UNIQUE check if and only if it keeps one of its own, because its old entries are still there |
| DbFindings.LoneRowClashesWithItself | database.py:855-871 | an UPDATE of a one-row table that ends in the UNIQUE error over w, which it does not set, with the row moved and its entry left behind |
| DbFindings.SelectMissesRow | database.py:706-738 | an inserted row that the scan returns while the indexed SELECT returns nothing |
| DbKeys.TextInjective | database.py:555-562 | different keys have different texts |
| DbKeys.RowPrefixIff | database.py:799-802 | the scan over a table's prefix meets its rows and nothing else |
| DbKeys.EntryPrefixIff | database.py:559-562 | the scan for a value meets its own entries and those of values that continue it with a NUL, and nothing else |
| DbKeys.TextTakenIff | database.py:570-580 | whatever the values contain, the check on texts finds a value taken if and only if an entry of the column under another row is for it or continues it with a NUL |
| DbKeys.TakenIsTextual | database.py:570-580 | for values free of NUL that is exactly what the check on structural keys finds |
| DbKeys.CheckIsTextual | database.py:564-581 | so the whole UNIQUE check by texts, over pending and stored keys, answers as the structural one |
| DbKeys.NulValueRefused | database.py:564-581 | with a\0b stored the check refuses the value a, which no row holds |
| KeyOrder.ListsUnique | database.py:625-646 | a set of keys has one listing in key order, so scan and index results have a definite order |
| Databases.Database.constructor | database.py:25-86 | a new handle has no transaction and an empty binlog |
| Databases.Database.BeginTransaction | database.py:230-241 | refused while one is active; otherwise an empty overlay and buffer |
| Databases.Database.CommitTransaction | database.py:243-279 | the write batch leaves the overlaid store and publishes the buffered binlog |
| Databases.Database.RollbackTransaction | database.py:281-291 | drops overlay and buffer |
| Databases.Database.Read | database.py:214-218 | reads through the overlay |
| Databases.Database.TransactionPut | database.py:293-299 | writes to the overlay inside a transaction, to the store outside |
| Databases.Database.TransactionDelete | database.py:301-307 | marks a deletion in the overlay, or deletes from the store |
| Databases.Database.LogBinlog | database.py:155-169 | buffers inside a transaction, publishes outside |
| Databases.Database.CheckUniqueViolation | database.py:564-581 | the loop over UNIQUE columns has the effect of the model function |
| Databases.Database.UpdateIndexes | database.py:583-589 | writes the row's entries |
| Databases.Database.RemoveFromIndexes | database.py:591-597 | removes the row's entries |
| Databases.Database.Insert | database.py:506-554 | answer and new state are those of the model function the theorems are about |
| Databases.Database.UpdateOne | database.py:845-877 | one matching row of the UPDATE loop |
| Databases.Database.Update | database.py:809-890 | answer and new state of the whole UPDATE over a snapshot in key order |
| Databases.Database.Delete | database.py:892-942 | answer and new state of the whole DELETE over a snapshot in key order are those of the model function, which removes exactly the rows that meet the filter (DbMeaning.DeleteMeans) |
| Databases.Database.SelectRows | database.py:599-646 | the rows of the indexed or scanning SELECT |
| Geohash.DecodeContains | geospatial.py:265-315 | the box a point's geohash decodes to contains the point, for every precision |
| Geohash.EncodeIffInBox | geospatial.py:265-354 | a point encodes to g exactly when it lies in the box g decodes to |
| Geohash.EncodeCentre | geospatial.py:265-354 | encoding the centre of decode(g) at its length returns g, for every valid g |
| Geohash.ShorterIsPrefix | geospatial.py:265-315 | a shorter encoding is a prefix of a longer one |
| GeohashOrder.EncodeMonotone | geospatial.py:265-315 | of two points, the one further north or east or both never has the lexicographically smaller geohash |
| GeohashOrder.AlphabetIs | geospatial.py:277-277 | the alphabet is the digits and the lower-case letters other than a, i, l and o |
| Geohash.Base32Ascends | geospatial.py:277-277 | in ascending order |
| Geohash.DecodeSize | geospatial.py:318-354 | a geohash of length p names a box exactly 360/2^ceil(5p/2) wide and 180/2^floor(5p/2) high |
| Geohash.AddressIffInCell | geospatial.py:287-308 | a point lies in the cell of a bit string exactly when that is its address |
| Geohash.BitsOfChars | geospatial.py:307-313 | reading back the characters of a bit string gives the bits |
| Geohash.CharsOfBits | geospatial.py:318-354 | writing the bits of a geohash gives its characters |
| GeohashNeighbors.NeighborsExact | geospatial.py:357-385 | the neighbours of a non-empty geohash are exactly the existing same-size cells one step away in the eight directions, pairwise distinct and different from it |
| GeohashNeighbors.NeighborIsShift | geospatial.py:375-383 | a direction is dropped exactly when it leaves the latitude or longitude range, and otherwise leads to the shifted box |
| GeohashNeighbors.GeohashEncode | geospatial.py:265-315 | the halving loop computes the encoding the lemmas are about, in the alphabet of GeohashOrder.AlphabetIs |
| GeohashNeighbors.GeohashDecode | geospatial.py:318-354 | the decoding loops compute the decoded box, and fail exactly on a character outside that alphabet |
| GeohashNeighbors.GeohashNeighbors | geospatial.py:357-385 | the neighbour loop computes the neighbour list, and fails exactly where decoding does |
| KMeans.IterationDescends | gpu_vector_ops.py:389-409 | no iteration increases the total squared distance, for all equal-dimension vectors and initial centroids |
| KMeans.RunDescends | gpu_vector_ops.py:378-411 | running longer never costs more |
| KMeans.AssignmentIsBest | gpu_vector_ops.py:391-398 | nearest assignment costs least among all labellings |
| KMeans.UpdateIsBest | gpu_vector_ops.py:402-409 | the mean update costs least among all placements of the centroids |
| KMeans.NearestIsClosest | gpu_vector_ops.py:394-398 | the label is the first centroid at the smallest distance, whatever strictly increasing function stands for sqrt |
| KMeans.ReturnedMeans | gpu_vector_ops.py:402-411 | after at least one iteration every non-empty returned cluster has its mean as centroid |
| KMeans.CostByCluster | gpu_vector_ops.py:402-409 | the total over vectors is the total over clusters |
| KMeans.AssignLabels | gpu_vector_ops.py:391-400 | the assignment loop |
| KMeans.ClusterVectors | gpu_vector_ops.py:404-404 | the members of a cluster, in order |
| KMeans.MeanOf | gpu_vector_ops.py:405-409 | the coordinate-wise mean |
| KMeans.UpdateCentroids | gpu_vector_ops.py:402-409 | centroids are overwritten in turn; an empty cluster keeps its own |
| KMeans.KMeansCpu | gpu_vector_ops.py:378-411 | the nested loops return the iterates the lemmas are about, and fail exactly when there are vectors to assign and no centroid |
| SqlRoundTrip.DatabaseRoundTripIff | export_import.py:58-70 | splitting a database dump gives back its statements, in order, if and only if no block comment can be read in its text and every statement is trimmed, closes its quotes and has no semicolon or comment outside them |
| SqlRoundTrip.TableRoundTripIff | export_import.py:88-97 | the same for a table dump |
| SqlRoundTrip.PlainNamesAreGood | export_import.py:113-154 | with names free of quotes, semicolons, hash signs and double dashes every statement is so, whatever the string and JSON values |
| SqlRoundTrip.SemicolonInNameIsLost | export_import.py:125-126 | a table with a semicolon in its name never comes back, in whatever dump |
| SqlImport.RowComesBackIff | parser.py:293-365 | reading the VALUES of a dumped INSERT and pairing them with its column names gives the row, restricted to the table's columns, if and only if no value is JSON and every string is trimmed, has no single quote and reads neither as NULL, nor as a number, nor as text in double quotes |
| SqlImport.ValuesAreRestored | parser.py:293-365 | what a dumped value list is read as, for all values: numbers and NULL as themselves, a string as the pieces between its single quotes, each stripped and converted, with everything behind it moved along |
| SqlImport.RestoredIff | parser.py:293-365 | one value is read back as itself, alone, exactly under that condition |
| SqlImport.InsertListsPairs | export_import.py:147-152 | the INSERT of a row lists columns and values of equal number: exactly the table's columns the row has, in column order, each with the quoted value it has in the row |
| SqlImport.QuoteSplitsString | parser.py:320-325 | a string with one single quote before another value is read as two values and moves the other |
| SqlImport.ItsIsLost | parser.py:320-325 | for instance, it's before 1 is read as it, s and 1 |
| SqlImport.ParseValues | parser.py:293-365 | the character loop and the conversion loop compute the reader the lemmas are about |
| SqlSchema.ColumnComesBackIff | database.py:406-427 | creating a table from a dumped specification gives a column back with its name, type and marks if and only if, for the primary key, it is neither UNIQUE nor indexed besides; for any other, it is indexed if UNIQUE, and name and type contain no mark that the column lacks |
| SqlSchema.MarksFound | database.py:412-422 | where the marks, looked for anywhere in the specification, are found: in the name, in the type, or where the dump wrote them |
| SqlSchema.NameMakesIndex | database.py:422-425 | for instance, a plain column named index comes back indexed |
| SqlRoundTrip.TableHolds | export_import.py:101-154 | a table's statements are DROP and CREATE, the id counter if it matters, and one INSERT for every row in turn |
| SqlRoundTrip.TablesInOrder | export_import.py:58-70 | a database's tables are dumped one behind the other, none left out |
| SqlPieces.RoundTripIff | export_import.py:222-265 | for any lines under a header comment: they split back exactly when no block comment can be read and each statement is good |
| SqlPieces.SplitBackIsGood | export_import.py:230-265 | lines that split back into their statements hold good statements only: what one statement loses no other makes up for |
| SqlPieces.StripLoses | export_import.py:274-306 | comment stripping is the identity or takes a hash sign or two dashes with it |
| SqlRoundTrip.QuotedIsSafe | export_import.py:138-145 | no string value, whatever its quotes, backslashes, semicolons, dashes, hash signs or newlines, ends a statement early, opens a comment or leaves a quote open |
| SqlDump.QuotingInjective | export_import.py:145-145 | different strings are dumped differently |
| SqlDump.EscapeIsUnits | export_import.py:143-145 | the chained whole-string replacements act on each character separately |
| SqlRoundTrip.CommentInValueIsLost | export_import.py:229-229 | a string value that holds a block comment never comes back, in whatever table it is stored |
| SqlRoundTrip.SpoiledIsLost | export_import.py:229-229 | a concrete one-row table whose dump does not survive |
| SqlRoundTrip.InsertGood | export_import.py:147-152 | every dumped INSERT is one statement to the splitter and has no white space at its ends |
| SqlRoundTrip.TableGood | export_import.py:125-154 | so is every statement of a table's dump |
| SqlPieces.HeaderStripped | export_import.py:247-253 | the header comment glued to whatever text follows is stripped from it again |
| SqlPieces.RemovalTakesFour | export_import.py:229-229 | removing block comments takes away at least the four marks of each |
| SqlPieces.SplitTotal | export_import.py:230-265 | splitting never yields more non-blank characters than it is given |
| SqlSplit.RemovesIffComment | export_import.py:229-229 | block-comment removal changes exactly the texts that have a comment |
| SqlSplit.SplitTame | export_import.py:234-259 | a semicolon after text that closes its quotes ends the statement there and nowhere earlier |
| SqlSplit.StripTame | export_import.py:274-306 | comment stripping leaves text without top-level comment marks alone |
| SqlSplit.SplitStatements | export_import.py:222-265 | the character loop computes the split the lemmas are about |
| SqlSplit.StripLineComments | export_import.py:268-306 | the stripping loops compute the function the lemmas are about |
| SqlDump.DumpTable | export_import.py:101-154 | the dump lines are the statements the round trip is about, each with its semicolon |
| SqlDump.SpecOf | export_import.py:113-123 | one column's specification |
| SqlDump.InsertLine | export_import.py:147-152 | one row's INSERT, whose columns and values are those of SqlImport.InsertListsPairs |
| SqlDump.ExportDatabase | export_import.py:51-70 | the text of a database dump; none for a database without tables, where the source reads `lines` before assigning it |
| SqlDump.ExportTable | export_import.py:88-97 | the text of a table dump |
| RefreshOrder.ListsEachViewOnce | batch_materialized_views.py:284-314 | whatever cycles there are, each view is listed exactly once and nothing else is |
| RefreshOrder.DependencyBefore | batch_materialized_views.py:288-308 | in any graph a dependency that does not itself need the view comes before it |
| RefreshOrder.DependenciesFirstIffAcyclic | batch_materialized_views.py:270-314 | all dependencies come first if and only if the graph has no cycle |
| RefreshOrder.VisitContinues | batch_materialized_views.py:288-308 | a visit adds names once each, none of them on the path, and its own name unless that closes a cycle |
| RefreshOrder.VisitOrders | batch_materialized_views.py:288-308 | a visit keeps the order property |
| RefreshOrder.Sorter.VisitView | batch_materialized_views.py:288-308 | the recursive closure over shared state terminates and computes the visit |
| RefreshOrder.Sorter.SortViews | batch_materialized_views.py:310-314 | the outer loop |
| RefreshOrder.SortByDependencies | batch_materialized_views.py:270-314 | graph construction and sort |
| QueryCache.CacheRefinesDirect | batch_executor.py:347-463 | over every run of commands, cached execution gives the responses and the data of direct execution |
| CacheRuns.FreshCacheRefinesDirect | batch_executor.py:347-463 | so it does from the empty cache, whose size never exceeds max(1, max_size) |
| CacheRuns.AnsweredIffKeysFaithful | batch_executor.py:433-463 | given what the table tests cover, every run of these commands from the empty cache, from every data, is answered as without the cache if and only if queries that share a key have the same answers |
| CacheRuns.ReportedIffNoErrors | batch_executor.py:445-463 | and every run is reported with the statuses of direct execution if and only if none of its SELECTs can answer with an error |
| CacheHits.HitsAreExplained | batch_query_cache.py:116-181 | over every run from the empty cache, an answer from the cache was given by an earlier SELECT with the same key, is not expired, was not replaced since, and no command wrote to its tables in between |
| CacheHits.MissesAreExplained | batch_query_cache.py:116-181 | with room for every request, a cacheable SELECT that is not answered from the cache, although one with its key was stored, meets an expired entry or one dropped by a later write |
| CacheHits.SameKeyIff | batch_query_cache.py:82-84 | two texts have the same normal form, before hashing, if and only if they have the same words |
| QueryCache.ExecuteKeeps | batch_executor.py:375-423 | one command keeps the cache coherent and answers as direct execution |
| QueryCache.SelectKeeps | batch_executor.py:433-463 | a SELECT, hit or miss, answers as the database would now |
| QueryCache.WriteKeeps | batch_executor.py:410-416 | a command that writes drops every entry that could have seen the change |
| QueryCache.PutKeeps | batch_query_cache.py:134-169 | storing, with eviction and overwriting, keeps every entry filed under all its tables and the size bound |
| QueryCache.EvictKeeps | batch_query_cache.py:190-202 | eviction removes one entry, than which none is older, and keeps the rest filed |
| QueryCache.InvalidateKeeps | batch_query_cache.py:171-181 | invalidation leaves exactly entries that depend on none of the tables |
| CacheRuns.StatusAgreesIff | batch_executor.py:445-463 | one command: its reported status is that of direct execution if and only if it is not a cacheable SELECT with a live entry under its key while the direct answer is an error |
| CacheRuns.SharedKeyAnswers | batch_executor.py:433-463 | of two SELECTs in a row with one key the second gets the first one's answer and is reported OK |
| CacheRuns.BlankInLiteralAnsweredWrong | batch_query_cache.py:82-87 | any two SELECTs that differ by one blank and have different answers: asked in a row, the second is given the answer of the first, which is not its own |
| CacheRuns.WrongLiteral | batch_query_cache.py:82-87 | for instance, with x y in the table, SELECT v FROM t WHERE v = x  y after the same with one blank is answered with the row of x y, where direct execution answers Empty set |
| CacheRuns.LookupsCovered | batch_query_cache.py:89-103 | the example's texts name the one table they read and none writes, so only the shared key is at fault |
| CacheRuns.CachedErrorReportedOk | batch_executor.py:445-463 | SELECT of a bare literal, which does not parse, asked twice: ERROR: Unknown command is first reported as ERROR and then as OK |
| QueryCache.KeyIgnoresRepeatedBlanks | batch_query_cache.py:82-87 | texts that differ in the number of blanks at some place, even inside a literal, share their cache key |
| QueryCache.BatchQueryCache.Lookup | batch_query_cache.py:116-132 | a live entry's result, nothing for a missing or expired one |
| QueryCache.BatchQueryCache.Store | batch_query_cache.py:134-169 | the new cache is that of the model function |
| QueryCache.BatchQueryCache.EvictOldestEntry | batch_query_cache.py:190-202 | removes the first entry with the smallest timestamp and its index entries |
| QueryCache.BatchQueryCache.InvalidateTables | batch_query_cache.py:171-181 | the new cache is that of the model function |
| QueryCache.CommandCache.GetParsed | batch_executor.py:87-95 | a cached parse is what the parser gives, and becomes the most recently used |
| QueryCache.CommandCache.PutParsed | batch_executor.py:97-105 | a new text replaces the least recently used one; no room at all is an error |
| QueryCache.BatchExecutor.ParseCached | batch_executor.py:375-390 | the parse does not depend on whether it was cached |
| QueryCache.BatchExecutor.ExecuteSingleCommand | batch_executor.py:375-424 | outcome and new state are those of the model function |
| QueryCache.BatchExecutor.SelectCached | batch_executor.py:433-463 | outcome and new state of the SELECT path |
| Cdc.DeliveredOnceInOrder | cdc_batch.py:569-580 | for every interleaving of appends and polls and any filter: the event callback has seen exactly the accepted events up to the position, once and in order, and the batch callback one call per end marker with that batch's own events since its start |
| Cdc.UnfilteredSeesTheLog | cdc_batch.py:569-580 | without filters that is the log itself |
| Cdc.AcceptedAre | cdc_batch.py:631-639 | with any filter exactly those events are accepted whose table and operation are asked for, in order |
| Cdc.LogIsAppended | cdc_batch.py:306-311 | over every run the log holds every event appended, in order, unchanged but for its number, which is its place |
| Cdc.BracketedBatch | cdc_batch.py:592-629 | a bracketed batch, however interleaved, is delivered as exactly its events between start and end, in order |
| Cdc.PollAdvances | cdc_batch.py:569-580 | a consumer behind the log always fetches, and processing moves it on by one |
| Cdc.ProcessKeeps | cdc_batch.py:582-629 | one event keeps the regrouping buffer and the completed batches what the delivered events say |
| Cdc.FromIsSuffix | cdc_batch.py:452-454 | asking from the next sequence number gives exactly the rest of the log |
| Cdc.BatchCDCLog.AppendOne | cdc_batch.py:306-311 | the event is numbered by its place |
| Cdc.BatchCDCLog.Fetch | cdc_batch.py:441-454 | the filtering loop and the limit |
| Cdc.BatchCDCConsumer.ProcessBatchEvent | cdc_batch.py:592-629 | buffer and callbacks are those of the model function |
| Cdc.BatchCDCConsumer.ProcessPage | cdc_batch.py:569-580 | the loop over a page is a sequence of the model's processing steps |
| TokenBucket.StretchBound | cdc_batch.py:218-243 | in every stretch of every run at most burst plus rate times elapsed time is granted |
| TokenBucket.RefusedIff | cdc_batch.py:218-243 | from a full bucket, after any calls, a request is refused if and only if granting it would exceed burst plus rate times elapsed time in some stretch up to it |
| TokenBucket.LevelIsStretch | cdc_batch.py:228-238 | the level is what some stretch up to now leaves of the burst and of what was earned in it |
| TokenBucket.GrantedIsPaidFor | cdc_batch.py:218-243 | the level stays within 0 and the burst size, and grants are paid for by level and time |
| TokenBucket.RateLimiter.AcquireTokens | cdc_batch.py:218-243 | answer and new level are those of the model function |
| Binlogs.KeyOrderIsNumeric | binlog.py:78-78 | below 10^12 the byte order of keys is the order of positions |
| Binlogs.OrderBreaksAtLimit | binlog.py:78-78 | at 10^12 it is not |
| Binlogs.KeyOrderIsNumericIff | binlog.py:78-78 | up to position n key order is the order of positions if and only if n is below 10^12 |
| Binlogs.KeyInjective | binlog.py:78-78 | no two positions share a key, whatever their size |
| Binlogs.PagesInOrderIff | binlog.py:86-110 | with the positions from some floor up to 10^12 on retained, every call of `get_entries` returns the next retained entries in order if and only if fewer than 10^12 were written |
| Binlogs.EntryAtLimitMissed | binlog.py:86-110 | with 10^12 or more written, a reader at position 10^12 - 1 is not given the next entry |
| Binlogs.FetchIsPage | binlog.py:86-110 | below 10^12 a call returns the next retained entries after the position, up to the limit (one entry for a limit below one) |
| Binlogs.TruncatedIsInterval | binlog.py:124-138 | below 10^12 truncation removes exactly the positions below the given one |
| Binlogs.ServedAsPages | binlog.py:64-138 | below 10^12 every run of calls on the key/value store, reopening included, goes as the run over pages of positions |
| Binlogs.ReplicaIsFaithful | binlog.py:64-138 | over every interleaving of writes, truncations, reopenings and polls with any limits on the key/value store, at positions below 10^12: a replica has received what was written, in increasing position, each once, and everything up to its position that the store still has |
| Binlogs.NothingMissed | binlog.py:64-138 | a replica of the store that no truncation overtakes has received exactly the log up to its position |
| Binlogs.PollKeeps | binlog.py:86-110 | one poll keeps that, and advances whenever something is retained |
| Binlogs.SoughtListing | binlog.py:97-105 | seeking to a position sees the keys of the retained positions from there on, in order |
| Binlogs.Binlog.WriteEntry | binlog.py:64-84 | positions are given out in sequence, whatever their size, and the new one is kept beside all others |
| Binlogs.Binlog.Reload | binlog.py:37-43 | reopening resumes at the last position, so none is used twice, even after everything was truncated |
| Binlogs.Binlog.GetEntries | binlog.py:86-110 | the seek, the position filter and the limit, for every store and position |
| Binlogs.Binlog.TruncateBefore | binlog.py:124-138 | keeps exactly the entries whose key does not come before that of the position |
| InvertedIndices.RunAgrees | fulltext_search.py:257-336 | over every run of adds with fresh ids and removes, postings, term counts, lengths and average are those rebuilt from the stored documents |
| InvertedIndices.AddAgrees | fulltext_search.py:257-293 | adding under a fresh id is what a rebuild would do |
| InvertedIndices.RemoveAgrees | fulltext_search.py:295-336 | removing is what a rebuild would do |
| InvertedIndices.RemoveUndoesAdd | fulltext_search.py:257-336 | removing a freshly added document restores the index exactly |
| InvertedIndices.ReaddAgreesIff | fulltext_search.py:274-287 | adding under an id in use keeps agreement if and only if the new text has every token of the old one |
| InvertedIndices.ReaddLeavesOldToken | fulltext_search.py:274-287 | a document added twice under one id and still listed under its first token |
| IndexSearch.CandidatesMean | fulltext_search.py:355-374 | the documents ranked are those with every query token, or those with any if none has every one |
| IndexSearch.AverageIsPositive | fulltext_search.py:418-422 | scoring never divides by zero |
| SearchMeaning.OneTokenSearch | fulltext_search.py:325-424 | a search for one token over documents of equal length returns those with the most occurrences, most first; none left out has more than one returned |
| SearchMeaning.MoreOccurrencesScoreHigher | fulltext_search.py:398-424 | of two documents of equal length, if no query token occurs less often in one, it scores at least as high, and higher if and only if some token occurs more often in it |
| SearchMeaning.ShorterScoresHigher | fulltext_search.py:398-424 | with equal occurrences the shorter document scores at least as high, and higher if and only if one of the tokens occurs in it |
| SearchMeaning.RarerAddsMore | fulltext_search.py:414-422 | with equal length and occurrences, the token that fewer documents contain adds more |
| SearchMeaning.ScorePositiveIff | fulltext_search.py:398-424 | no score is negative, and a score is 0 exactly when the document has no query token |
| SearchMeaning.OnceAddsWeight | fulltext_search.py:414-422 | one occurrence in a document of average length adds the token's idf; no number of occurrences adds two and a half times that |
| SearchMeaning.TermScoreIs | fulltext_search.py:404-422 | the score of one token in terms of the documents: occurrences, length and the number of documents with the token |
| SearchMeaning.CountIsOccurrences | fulltext_search.py:284-290 | the term frequency is the number of occurrences |
| IndexSearch.SortedIsTopK | fulltext_search.py:376-384 | the first k of the sorted scores are the k best of all candidates |
| IndexSearch.InvertedIndex.Add | fulltext_search.py:257-293 | answer and new index are those of the model function |
| IndexSearch.InvertedIndex.Remove | fulltext_search.py:295-336 | answer and new index are those of the model function |
| IndexSearch.InvertedIndex.FindCandidates | fulltext_search.py:355-371 | the AND loop and the OR loop |
| IndexSearch.InvertedIndex.Bm25 | fulltext_search.py:386-424 | the scoring loop computes the score whose meaning SearchMeaning states |
| IndexSearch.InvertedIndex.Search | fulltext_search.py:338-384 | returns the k best-scored candidates, best first, each once with its score (for one token see SearchMeaning.OneTokenSearch) |

## Left out

- Raft: the `Heartbeat` RPC, which nothing sends and which would clear a vote inside a term; crash and restart, since term, vote and log live only in memory; that progress happens, and not only can, which is a matter of timeouts; timeouts as durations; the `committed` flag of log entries; `FailoverManager`.
- Raft: a heartbeat round is sent message by message, and two nodes never share an id.
- Row store: UPDATE and DELETE inside a transaction, which scan committed rows only, are modelled but nothing is claimed about them; the legacy `_index` blobs; ORDER BY, pagination and column projection; parsing in `create_table`; users and privileges; LevelDB failures; the background binlog writer.
- Row store: values other than None, integers and text; a primary key or column named by the empty string.
- Geohash: R-tree, trigonometry and polygons, and precisions at which doubles round. The R-tree's `insert` puts leaf tuples into an internal root after the first split (geospatial.py:460-478).
- k-means: the GPU path; vectors of unequal dimension, on which the source may raise IndexError.
- SQL dump: writing and reading the file, the database-exists checks, and the regular expressions and handlers through which the split statements are executed; a table without a schema, which `list_tables` never yields.
- SqlRoundTrip.DatabaseRoundTripIff: requires a header line that is one comment line; a database name with, say, a newline in it is not covered.
- SqlRoundTrip.TableRoundTripIff: likewise, for the database's and the table's name.
- SqlRoundTrip.CommentInValueIsLost: likewise.
- SqlImport.RowComesBackIff: requires column names that are pairwise different, and numbers printed without quotes and commas.
- SqlSchema.ColumnComesBackIff: requires a name and a type that are single words, the type in capitals; other texts are split into words differently.
- CacheHits.MissesAreExplained: requires room for every request, so it does not say which misses eviction causes.
- Refresh order: the regular expressions that extract dependencies (a parameter), and refreshing itself.
- Query cache: DDL, UPSERT, `USE`, `CACHE STATUS` and `WARM CACHE`, privileges, execution that raises, hit counters, explicit query parameters, per-entry TTL and dependencies; `BatchCacheManager._check_and_invalidate`, which misses INSERT and UPDATE tables.
- QueryCache.BatchExecutor.constructor: requires a command cache size above zero, because at size zero the source turns every command into a parse error.
- Change log: timestamps, encodings (a function applied to each delivered event), subscribers, `_active_batches`, and events the rate limiter drops, which never enter the log; blocking acquisition and Kafka.
- Binlog: entry metadata, which is one payload; truncation at positions from 10^12 on, about which nothing is claimed beyond what it keeps.
- DbIndexes.CheckUniqueMeans: the check on structural keys; a value continued by a NUL also matches in the source, and DbKeys.CheckIsTextual says when the two agree.
- DbIndexes.TakenMeans: likewise.
- Databases.Database.CheckUniqueViolation: likewise.
- Full-text search: the tokenizer (a parameter), hybrid and vector search; document metadata; rounding of scores.
- command_splitter.py, concurrent_index.py, batch_sharding.py, batch_cli_interactive.py, batch_vector_search.py and distributed_tx.py: not modelled.
- Metrics, configuration, backups, command parsers and handlers, connection pools: they would only add easy members.
