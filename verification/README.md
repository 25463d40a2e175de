# A verified model of graphitesql

graphitesql is a rewrite of SQLite. This project models the parts of it that keep data in an elaborate form
with a simple meaning, and proves that the meaning is kept.

**The index b-tree.** Pages refer to each other by number; the meaning is a sorted list of entries. Insertion
goes down to a leaf, hands an over-full leaf up, pools it with its siblings and their dividers, redistributes
them, and splits interior pages and the root. `IndexInsert.InsertIndex` proves that the list is the old one
with the new entry in order, on pages that fit and are not shared, and `IndexInsert.BuildIndex` follows whole
runs. `IndexScan` and the cursors prove that lookups, range scans and passes see exactly that list, and
`IndexLookup.BuildAndSeek` joins the two: what was inserted is found, and nothing else. `PageFormat` and
`Overflow` carry it down to the bytes of a page.

**Changesets.** The meaning of a changeset is a partial function on tables. `SessionEnd.RunAndSerialize`
proves that the changeset of any recorded run takes the starting tables to the final ones, exactly unless a
watched zero only changes its sign, `ConcatOut.ConcatChangesets` that a concatenation does what its parts do
one after the other, `Applying.InverseRestores` that an inverse undoes, and `SessionParse.RunThenParse` that
both formats parse back.

**The full-text store.** Documents are kept as segments of term and position lists, cut into pages. The
chain of results is: `Segment.WriteSegment` (pages of either writer read back), `SegMerge.MergeKeepsLive` and
`SegLevels.SegStructure.AppendLevel0` (merging and promoting keep the newest-wins view),
`SegStore.Replay` (after every history of batches, merges and rebuilds the pages say what the documents say),
and `SegRoute.MatchRowids` (whenever the index answers a query, it finds exactly the documents that a scan of
all documents accepts, with the exact condition for prefixes in one column).

**Order and proximity.** `Values` and `Records` prove that comparison is a total preorder, exact between
integers and doubles; `Near` proves the proximity sweeps against their existential definition.

Classes stand where the source updates objects in place (`SegWrite.SegWriter`, `SegLevels.SegStructure`,
`SegStore.Index`, `Concat.ConcatTable`, `Recorder.TableChanges`, `Session.SessionState`,
`Pager.WritePager` and both cursors). The database file, SQL and the `%_data` table are maps: pages by
number, leaf pages by segment.

The code that drives the full-text store is in src/exec/mod.rs: `SegDocs` and `SegStore.Index.FlushBatch` model
`fts5_flush_batch`, `MergeLevel` models `fts5_merge_level`, `IndexMerge`, `Automerge` and `Crisismerge` the three
functions after it, `Rebuild` models `fts5_rebuild_index`, and `SegRoute.MatchRowids` models
`fts5_index_match_rowids`.

`dafny verify dfyconfig.toml` checks the project.

## Model

| member | source | states |
|---|---|---|
| `Values.IntFloatExact` | src/value.rs:419-438 | comparing a 64-bit integer with a finite double gives the order of the two as real numbers, for every pair and also beyond 2^53 |
| `Values.ComparisonFollowsKeys` | src/value.rs:377-412 | every comparison of two values under a built-in collation is the comparison of two keys in an order that is total by construction |
| `Records.CmpRecordsIsTotalPreorder` | src/btree/index_writer.rs:901-923 | the record comparison of an index is reflexive, total and transitive for all collations and ASC/DESC directions |
| `Records.PrefixMonotone` | src/btree/index_writer.rs:409-423 | for records that have all columns of the key, going up the index takes the key from above the records to equal to below them |
| `Balance.Distribute` | src/btree/balance.rs:43-157 | the pooled cells are divided into non-empty pages that fit, with strictly rising boundaries ending at the cell count; no division has fewer pages, and where cells are promoted the page count is bounded by the bytes pooled |
| `Balance.ShedRight` | src/btree/balance.rs:83-101 | moving cells right until a page fits keeps the sizes of all pages equal to their cells and touches no page before it |
| `Balance.FillLeft` | src/btree/balance.rs:102-118 | after pulling cells from the right the page fits and its next cell would not |
| `Balance.GreedyPack` | src/btree/balance.rs:80-123 | after the greedy pass every page is filled to the brim and every page but the last ends before the last cell |
| `Balance.GreedyIsAhead` | src/btree/balance.rs:80-123 | no other division of the same cells has a boundary after the greedy one |
| `Balance.PagesAreEarned` | src/btree/balance.rs:80-123 | where boundary cells are promoted, each page with the cell after it accounts for more than a page of bytes |
| `Balance.ShiftPair` | src/btree/balance.rs:127-153 | shifting cells from a page to its right neighbour keeps both non-empty and fitting, and fills an empty last page |
| `Balance.Rebalance` | src/btree/balance.rs:124-156 | the right-to-left pass turns the greedy packing into a partition into good pages of the same number |
| `Balance.SiblingWindow` | src/btree/balance.rs:164-175 | the window holds the child, has three siblings if there are as many, and centres the child unless it is at an edge |
| `IndexTree.InsertMeaning` | src/btree/index_writer.rs:567-661 | ordered insertion keeps a sorted list sorted, adds exactly the entry at one place, and changes nothing if an equal record is there |
| `IndexTree.SpliceFlat` | src/btree/index_writer.rs:749-783 | replacing some children and the dividers among them replaces exactly their entries |
| `Pager.WritePager.AllocatePage` | src/pager/write.rs:1047-1070 | a page not in use is handed out and no other page changes |
| `Pager.WritePager.FreePage` | src/pager/write.rs:1125-1164 | only the freed page goes out of use, and it is free once |
| `Pager.WritePager.WriteNode` | src/btree/index_writer.rs:989-1064 | content that fits is written and no other page changes |
| `LeafBalance.BalanceLeafPooled` | src/btree/index_writer.rs:790-826 | the pool ends up on leaves that together with the promoted entries hold exactly the pool, each non-empty and fitting, none shared, on reused or fresh pages only |
| `LeafBalance.AssignPages` | src/btree/index_writer.rs:790-826 | the old pages are reused in page order, missing ones allocated and surplus ones freed, without touching any other page |
| `LeafBalance.WriteRow` | src/btree/index_writer.rs:790-826 | each slice of the pool is on its page, the promoted entries are the ones between, and no other page changes |
| `LeafBalance.RowFlat` | src/btree/index_writer.rs:790-826 | leaf by leaf with the promoted entries between them the row is the pool |
| `InteriorSplit.PackIndexInterior` | src/btree/index_writer.rs:943-987 | the parts with the promoted dividers between them are the page, each part fits and has a divider, and the number of parts is bounded by the bytes |
| `InteriorSplit.TakeWhileFits` | src/btree/index_writer.rs:943-987 | the greedy cut is the longest run that fits, and has three dividers if there are as many |
| `InteriorSplit.NodeRowFlat` | src/btree/index_writer.rs:943-987 | the trees of the parts hold in order what the page held |
| `IndexInsert.FinishInterior` | src/btree/index_writer.rs:693-740 | writing back or splitting an interior page gives a well-formed row with the same entries, and nothing outside the row and fresh pages changes |
| `IndexInsert.AdoptSplit` | src/btree/index_writer.rs:664-688 | the new siblings follow the split child and the promoted dividers stand between them |
| `IndexInsert.WriteParts` | src/btree/index_writer.rs:693-740 | the first part keeps the page, the others are on fresh distinct pages, and the siblings reported are those pages with the dividers before them |
| `IndexInsert.PoolSiblings` | src/btree/index_writer.rs:749-783 | the pool is the in-order content of the sibling window with the over-full leaf in it, and the boundaries are those of the old pages |
| `IndexInsert.BalanceLeafInto` | src/btree/index_writer.rs:749-783 | after rebalancing, the children and dividers of the parent hold in order what they held with the over-full leaf, all leaves fit, and the parent is at most twice full |
| `IndexInsert.FourPages` | src/btree/index_writer.rs:749-783 | three siblings, one over-full by an entry, become at most four pages |
| `IndexInsert.FindSlot` | src/btree/index_writer.rs:567-661 | the slot is that of an equal record, or the one with everything below before it and the next record above |
| `IndexInsert.InsertDescends` | src/btree/index_writer.rs:567-661 | between two dividers, inserting into the child is inserting into the whole page |
| `IndexInsert.EqualDivider` | src/btree/index_writer.rs:567-661 | an equal divider means that insertion changes nothing |
| `IndexInsert.InsertedBelow` | src/btree/index_writer.rs:567-661 | a child row with the entry inserted, put in place of the child, is the page with the entry inserted |
| `IndexInsert.AbsorbSplit` | src/btree/index_writer.rs:567-688 | a split child is adopted: the page or its parts hold the old entries with the new one in order |
| `IndexInsert.AbsorbOverfull` | src/btree/index_writer.rs:567-661 | an over-full child is rebalanced: the page or its parts hold the old entries with the new one in order |
| `IndexInsert.InsertRec` | src/btree/index_writer.rs:567-661 | below any page the old entries with the new one in order result, whether the page fits, splits or is handed up over-full; past the depth limit nothing has changed |
| `IndexInsert.DeepenLeafRoot` | src/btree/index_writer.rs:831-846 | an over-full root leaf becomes a tree of height two under the same page number with the same entries |
| `IndexInsert.GrowRoot` | src/btree/index_writer.rs:848-869 | a split root becomes a tree one higher under the same page number with the same entries |
| `IndexInsert.InsertIndex` | src/btree/index_writer.rs:445-461 | the root keeps its number, the tree stays ordered, of uniform depth, fitting and unshared, its entries are the old ones with the new one in order, no page outside it changes; failure only past the depth limit and then without change |
| `IndexInsert.BuildIndex` | src/btree/index_writer.rs:434-461 | any run of insertions into a fresh index gives a well-formed tree of exactly the entries inserted, each record once, until the depth limit |
| `IndexScan.RangeScan` | src/btree/index_writer.rs:192-265 | the traversal returns the records taken before the first one past the upper bound, and says whether one was past |
| `IndexScan.ScanIsFilter` | src/btree/index_writer.rs:192-265 | stopping at the first record past the bound loses nothing exactly if no record within the bounds comes after one past them |
| `IndexScan.IndexRangeRecords` | src/btree/index_writer.rs:124-187 | a range query returns the records taken before the first past the upper bound; these are all within the bounds exactly if none within comes after one past, and always if every record has the columns of the bounds, also with DESC columns |
| `IndexScan.SeekPrefix` | src/btree/index_writer.rs:268-335 | the seek returns, of every tree, exactly the records it can find by skipping subtrees and stopping: the leaf runs and dividers from the first divider not below the key |
| `IndexScan.IndexSeekRowids` | src/btree/index_writer.rs:56-68 | an equality lookup returns the rowids of exactly the matching entries, in order, if no match comes after a record above the key or before one below it, and so always if every record has the columns of the key |
| `IndexScan.SoughtFindable` | src/btree/index_writer.rs:268-335 | where no match comes after a record above the key or before one below it, the seek finds every match |
| `IndexScan.FoundIff` | src/btree/index_writer.rs:268-335 | the seek finds every match, whatever tree holds the entries, exactly if no match comes after a record above the key or before one below it |
| `IndexScan.ShortRecordIsLost` | src/btree/index_writer.rs:268-335 | on an ordered tree of two filled leaves with a record shorter than the key one entry matches and the lookup returns none |
| `IndexScan.ShortRecordEndsScan` | src/btree/index_writer.rs:192-265 | on the same tree a range query loses a record within its bounds |
| `IndexLookup.BuildAndSeek` | src/btree/index_writer.rs:445-461 | after any run of insertions in the order of an index, an equality lookup returns only rowids of matching inserted records, and for every inserted record that matches one with an equal record is found, if all records have the columns of the key |
| `IndexCursor.Step` | src/btree/cursor.rs:291-345 | one step yields the next entry, or descends or pops without losing any and with less left to do |
| `IndexCursor.Cursor.Next` | src/btree/cursor.rs:291-345 | each call returns the next entry in key order, and none at the end |
| `IndexCursor.CollectAll` | src/btree/cursor.rs:270-345 | a full pass yields exactly the in-order entries of the tree |
| `TableCursor.DescendLeft` | src/btree/cursor.rs:235-247 | descending to the left-most leaf puts all rows of the subtree before those pending |
| `TableCursor.NextLeaf` | src/btree/cursor.rs:116-145 | walking up and down to the next leaf keeps exactly the pending rows |
| `TableCursor.Settle` | src/btree/cursor.rs:116-145 | passing exhausted and empty leaves loses no row, and a row is found exactly if one is left |
| `TableCursor.Cursor.First` | src/btree/cursor.rs:104-111 | the cursor has all rows of the table to come and reports one exactly if there is one |
| `TableCursor.Cursor.Next` | src/btree/cursor.rs:173-184 | exactly the current row is passed; at the end the cursor stays there |
| `TableCursor.SeekLeaf` | src/btree/cursor.rs:188-232 | the descent lands where the rows from the target on begin and reports exactness |
| `TableCursor.FromRowidMeaning` | src/btree/cursor.rs:188-232 | on rows in order those from the target on are exactly the rows not below it |
| `TableCursor.Cursor.Seek` | src/btree/cursor.rs:188-232 | the rows to come are exactly those not below the target, and exact says whether the first is the target |
| `TableCursor.Cursor.Last` | src/btree/cursor.rs:79-100 | the last row of the table is current if the right-most leaf has one; if no leaf is empty, a row is reported exactly if the table has one |
| `TableCursor.LastIsRight` | src/btree/cursor.rs:79-100 | without empty leaves the right-most leaf has a row exactly if the table has |
| `TableCursor.LastMissesRow` | src/btree/cursor.rs:79-100 | a call on a table of one row whose right-most leaf is empty reports no row |
| `TableCursor.CollectAll` | src/btree/cursor.rs:104-184 | first and then next until the end gives every row once in tree order, whatever leaves are empty |
| `Varint.RoundTrip` | src/util/varint.rs:24-98 | every 64-bit value decodes from its encoding, whatever follows, and exactly its at most nine bytes are read |
| `Varint.DecodeLocal` | src/util/varint.rs:24-47 | decoding looks only at the bytes of the varint |
| `PageFormat.PayloadSplitBounds` | src/btree/page.rs:381-406 | a payload is local in full or between the two limits with a non-empty rest, and above the lower limit the rest fills its pages exactly |
| `PageFormat.RecordCellIsSmall` | src/btree/index_writer.rs:537-550 | a record cell takes at most a third of an interior page, for every record and page size |
| `PageFormat.PackCells` | src/btree/index_writer.rs:989-1064 | packing succeeds exactly if the cells stay clear of the pointers, and then every pointer leads to its cell and no cells overlap |
| `PageFormat.SerializeIndexLeaf` | src/btree/index_writer.rs:989-1025 | a leaf page is written exactly if its cells stay clear of the pointers, and holds header, pointers and cells |
| `PageFormat.SerializeIndexInterior` | src/btree/index_writer.rs:1027-1064 | an interior page likewise, with each child before its cell and the last in the header |
| `PageFormat.LeafFitsIsClear` | src/btree/index_writer.rs:925-928 | a leaf passes the fits test exactly if it is written without error |
| `PageFormat.InteriorFitsIsClear` | src/btree/index_writer.rs:930-933 | an interior page passes the fits test exactly if it is written without error |
| `PageFormat.LeafRoundTrip` | src/btree/page.rs:128-295 | reading a leaf page back gives its kind, its cell count and every cell |
| `PageFormat.InteriorRoundTrip` | src/btree/page.rs:128-295 | reading an interior page back gives every cell and every child |
| `Overflow.WriteOverflowChain` | src/btree/writer.rs:219-238 | the data lies on the chain in order, each page linked to the next, and no other page changes |
| `Overflow.ChainHolds` | src/btree/cursor.rs:19-48 | following the chain from any of its pages gives the data from there on |
| `Overflow.ReadPayload` | src/btree/cursor.rs:19-48 | the loop returns the local part followed by the chain, or the error of the chain |
| `Overflow.RecordReadBack` | src/btree/page.rs:357-375 | a record cell with its rest on a chain reads back as the record |
| `Overflow.IndexCellReadBack` | src/btree/page.rs:298-319 | the same through the reader of index cells, on leaf and interior pages |
| `Changeset.ParseThenUnparse` | src/session.rs:963-1047 | a changeset that can be read is written back byte for byte from its items |
| `Changeset.UnparseThenParse` | src/session.rs:963-1047 | items that are written are read back item for item |
| `Changeset.SerialLenLocal` | src/session.rs:963-990 | the length of a field depends on its own bytes only |
| `Invert.Invert` | src/session.rs:1061-1127 | the loop computes the inverse, or an error exactly where the bytes cannot be read |
| `Invert.InvertTwice` | src/session.rs:1061-1127 | inverting a readable changeset succeeds, and inverting again gives the same bytes exactly if no update gives a new value for a key column |
| `Applying.ApplyIsLeads` | src/session.rs:1505-1512 | with one change per row a changeset applies and reaches an end exactly if it leads there row by row |
| `Applying.UndoEffect` | src/session.rs:1061-1127 | on any row a canonical change and then its inverse restore the row |
| `Applying.InverseRestores` | src/session.rs:1587-1596 | applying a canonical changeset and then its inverse restores every database to which it applies |
| `RecordBytes.Hash` | src/session.rs:1171-1200 | walking the bytes of a record gives a bucket that depends on its key columns only |
| `RecordBytes.PkEqual` | src/session.rs:1204-1219 | two records compare equal exactly if their key columns are |
| `RecordBytes.MergeRecord` | src/session.rs:1362-1377 | field by field the right record where it is given, else the left |
| `RecordBytes.MergeValue` | src/session.rs:1439-1458 | one column of two parallel records is chosen and both cursors move to the next column |
| `RecordBytes.MergeUpdate` | src/session.rs:1382-1432 | the records of two changes fold to those of one update, or to nothing if no column differs |
| `Coalesce.FoldUpdateEffect` | src/session.rs:1382-1432 | the folded update leads from the row to the row with the new values |
| `Coalesce.MergeMeans` | src/session.rs:1272-1358 | the fold of two changes that take a row from one state over another to a third takes it from the first to the third, or is nothing if they are equal, for every pair of operations that can follow each other |
| `Buckets.Regrow` | src/session.rs:1224-1238 | redistributing over more buckets keeps the entries and puts each in its bucket |
| `Buckets.NotElsewhere` | src/session.rs:1242-1267 | a key that is not in its bucket is nowhere in the table |
| `Concat.MergeIntoInsert` | src/session.rs:1272-1358 | an insert and a later update become the insert of the updated row |
| `Concat.MergeIntoDelete` | src/session.rs:1272-1358 | a delete and an insert become the update from the one row to the other |
| `Concat.MergeUpdates` | src/session.rs:1272-1358 | two updates become the one with the old values of the first and the new ones of the second |
| `Concat.MergeUpdateDelete` | src/session.rs:1272-1358 | an update and a delete become the delete of the original row |
| `Concat.ConcatTable.MaybeGrow` | src/session.rs:1224-1238 | growing keeps the changes, one per row and each in its bucket |
| `Concat.ConcatTable.Add` | src/session.rs:1242-1267 | the change of a row is folded into the one the group has for it, or added, and no other changes |
| `Group.AddTracks` | src/session.rs:1242-1358 | a table that leads from the start to a state leads, after a change is added, to the state after that change |
| `Group.GroupTracks` | src/session.rs:1463-1503 | the same for the whole group of tables |
| `ConcatRun.ConcatAbsorb` | src/session.rs:1463-1503 | absorbing succeeds exactly if the changeset can be read, its changes stand under headers and its tables have known shapes, and then the group stands for both, for every database at once |
| `ConcatOut.GroupReadsBack` | src/session.rs:1513-1533 | the group as written is read back as its changes |
| `ConcatOut.GroupLeads` | src/session.rs:1513-1533 | the written changes lead from where the group started to where it stands |
| `ConcatOut.Emit` | src/session.rs:1513-1533 | exactly the tables with changes left are written |
| `ConcatOut.ConcatChangesets` | src/session.rs:1513-1533 | concatenation succeeds exactly on joinable changesets, has one change per row, and on every database on which the one and then the other apply it applies and reaches the same end |
| `ConcatOut.JoinableReadable` | src/session.rs:1505-1512 | of joinable changesets everything is read |
| `SessionValues.LengthReadsBack` | src/session.rs:423-455 | a length is read back exactly if it is below 2^56 |
| `SessionValues.AppendVarint` | src/session.rs:423-455 | the loops append the bytes of the length |
| `SessionValues.ValueReadsBack` | src/session.rs:459-482 | every value is read back and exactly its bytes are consumed |
| `Recorder.TableChanges.MaybeGrow` | src/session.rs:205-220 | growing keeps the recorded changes, one per key and each in its bucket |
| `Recorder.TableChanges.Record` | src/session.rs:225-250 | the first change of a key is kept with its original values, and a later direct one only makes it direct |
| `Session.MovesOn` | src/session.rs:310-347 | rows that are recorded or not watched may change without the session forgetting the start |
| `Session.RecordStep` | src/session.rs:310-347 | recording adds the row and keeps everything the session remembers |
| `Session.SessionState.Attach` | src/session.rs:376-380 | every table is watched and nothing recorded is lost |
| `Session.SessionState.AttachTable` | src/session.rs:387-393 | one table more is watched and nothing recorded is lost |
| `Session.SessionState.Record` | src/session.rs:310-347 | a watched row is recorded with its start, an unwatched one passed over, and the session still stands for the difference between start and now |
| `SessionRun.Execute` | src/session.rs:310-347 | every allowed insert, update or delete keeps the session standing for the difference, also when an update changes the key |
| `SessionRun.Run` | src/session.rs:310-347 | after any run of operations the session stands for the difference between start and end |
| `SessionOut.AppendDelete` | src/session.rs:595-615 | a delete is written with all old values, or with the key alone in a patchset |
| `SessionOut.AppendUpdate` | src/session.rs:625-670 | an update is written with keys and differing columns, and not at all if none differs |
| `SessionOut.AppendChange` | src/session.rs:512-588 | a recorded change is written against the current row |
| `SessionOut.Serialize` | src/session.rs:488-588 | the session is written table by table, tables without changes left out |
| `SessionMeaning.SameKeys` | src/session.rs:261-275 | two rows have the same key as values exactly if they have it as fields |
| `SessionMeaning.EmittedTakes` | src/session.rs:512-670 | what is written for a row takes it from its start to where it lands, which is its current state with a zero that only changed its sign as it was, and nothing is written exactly where it lands at the start |
| `SessionMeaning.SettlesIff` | src/session.rs:642 | a row lands at its current state exactly if no column goes from one zero to the other |
| `SessionMeaning.UpdateFaithful` | src/session.rs:625-670 | an update is faithful exactly if no column goes from one zero to the other |
| `SessionMeaning.SignedZeroIsLost` | src/session.rs:642 | an update from 0.0 to -0.0 writes nothing |
| `SessionMeaning.TableWrites` | src/session.rs:512-588 | the changes written for a table are exactly those of its recorded rows |
| `SessionEnd.ChangesetMeans` | src/session.rs:512-588 | the changeset of any run can be read, is canonical with one change per row, and takes the starting tables to the final ones exactly if no watched row has a column that goes from one zero to the other |
| `SessionEnd.ChangesetLands` | src/session.rs:512-588 | without any such condition it takes the starting tables to the final ones in which those zeros are as they were |
| `SessionEnd.RunAndSerialize` | src/session.rs:488-588 | the same as a method that runs the operations and serializes: applied to the start the changeset gives the end exactly if no watched row flips a zero |
| `SessionEnd.RunStored` | src/session.rs:488-588 | for every run without a condition on how rows are stored: serialized forms of start and landing exist and the changeset takes the one to the other |
| `SessionEnd.StoredDb` | src/session.rs:459-482 | every database of fitting rows has a database of serialized rows that stores it |
| `SessionEnd.StoredAt` | src/session.rs:261-275 | a stored row is found under the identity that any row with its key has |
| `ChangesetParse.ParseChangeset` | src/session.rs:838-946 | the reader loop computes the tables and changes, or the first error |
| `ChangesetParse.ChangeReadsBack` | src/session.rs:799-946 | a written change of either format is read back as its record and exactly its bytes are consumed |
| `ChangesetParse.TableHeaderReads` | src/session.rs:838-946 | table headers of both formats are read back |
| `SessionParse.WrittenSpells` | src/session.rs:512-670 | what is written for a change spells its record, key-only patchset deletes and single-record patchset updates included |
| `SessionParse.SerializeThenParse` | src/session.rs:838-946 | parsing the bytes of a session, as changeset or patchset, gives back exactly its tables and changes |
| `SessionParse.RunThenParse` | src/session.rs:838-946 | the same after every run of operations on tables with text names |
| `Near.NearMatches` | src/vtab.rs:2338-2366 | the sweep over K phrases returns true exactly if some choice of one occurrence each satisfies the distance rule |
| `Near.AdvanceIsSafe` | src/vtab.rs:2338-2366 | while the window is too wide, every satisfying choice lies past the pointer at the minimum |
| `Near.Window` | src/vtab.rs:2345-2356 | the smallest start, its phrase and the largest end of the current choice |
| `Near.NearWithinInColumn` | src/fts5_index.rs:2727-2743 | the two-pointer sweep decides whether two positions are at most n + 1 apart |
| `Near.TwoTokenAgreement` | src/fts5_index.rs:2718-2726 | for two single tokens the scan rule and the index rule agree |
| `Poslist.PoslistReadsBack` | src/fts5_index.rs:147-201 | every position list with its delete flag is read back up to empty columns at the end and exactly its bytes are consumed |
| `Poslist.NormKeeps` | src/fts5_index.rs:1378-1430 | of the columns only empty ones at the end are lost |
| `Poslist.WritePoslist` | src/fts5_index.rs:125-201 | the loops write size, column markers and position distances |
| `Poslist.DecodePoslist` | src/fts5_index.rs:2000-2036 | the loop reads columns, positions and delete flag, or an error |
| `Poslist.ContentWhole` | src/fts5_index.rs:207-218 | the content of a position list can be cut between any two varints |
| `SegLeaf.TermRecordReads` | src/fts5_index.rs:369-388 | a term record is read back with its full key, prefix-compressed or not |
| `SegLeaf.LeafReadsBack` | src/fts5_index.rs:1460-1531 | a written leaf is parsed back: both header offsets, every key in full, where each record and its doclist start |
| `SegRead.GatherReads` | src/fts5_index.rs:1610-1667 | gathering from the pages gives the runs of the term on its leaf and on the leaves it spills to |
| `SegRead.GatherIsFold` | src/fts5_index.rs:1610-1667 | term-by-term gathering finds the same doclists as one pass over the leaves |
| `SegRead.SegmentReads` | src/fts5_index.rs:2110-2131 | reading the pages of a segment gives the doclists its leaves hold, however they are cut |
| `Doclist.ChainReads` | src/fts5_index.rs:2042-2071 | decoding entries one after the other gives their postings, with absolute rowids at the marks and distances elsewhere |
| `Doclist.DoclistReadsBack` | src/fts5_index.rs:2042-2071 | a flattened doclist decodes to its postings |
| `SegBuild.AppendDocs` | src/fts5_index.rs:438-501 | bytes appended to a page are found at the end of the last doclist |
| `SegBuild.ResumeDocs` | src/fts5_index.rs:407-430 | a rowid that is first on a page is found as an absolute one |
| `SegBuild.FlushDocs` | src/fts5_index.rs:343-367 | turning the page changes no doclist |
| `SegWrite.PoslistPrefix` | src/fts5_index.rs:207-218 | the longest run of whole varints that fits, but at least the first varint |
| `SegWrite.VarintsUntil` | src/fts5_index.rs:444-455 | the shortest run of whole varints that reaches the size asked for, or all of them |
| `SegWrite.SegWriter.constructor` | src/fts5_index.rs:309-331 | a new writer has no pages and a page size of at least 16 |
| `SegWrite.SegWriter.Flush` | src/fts5_index.rs:333-367 | the page is finished, put away and a new one started, without a change to what has been written |
| `SegWrite.SegWriter.AppendRowid` | src/fts5_index.rs:407-430 | the rowid is at the end of the doclist, absolute at its start and on a fresh page and else as a distance, after a full page is turned when merging |
| `SegWrite.SegWriter.AppendPoslistBulk` | src/fts5_index.rs:477-500 | the data is at the end of the doclist wherever pages were turned, and the page is not over-full |
| `SegWrite.SegWriter.AppendPoslistMerge` | src/fts5_index.rs:440-476 | the same for the merge writer |
| `SegWrite.SegWriter.AppendPosting` | src/fts5_index.rs:551-574 | the doclist holds one entry more, with the posting |
| `SegWrite.SegWriter.BeginTerm` | src/fts5_index.rs:523-547 | a record of the term is on the page, or on a new one, with an empty doclist |
| `SegWrite.SegWriter.AddKey` | src/fts5_index.rs:514-576 | one doclist more, with the key, that decodes to exactly the postings |
| `Segment.WriteSegment` | src/fts5_index.rs:1167-1205 | in either mode and for every page size the pages read back as exactly the terms with their postings, equal up to empty columns at the end, and the index rows are those of the leaves |
| `SegIdx.SeparatorBetween` | src/fts5_index.rs:241-247 | a separator is above the last key before it and not above the first after it |
| `SegIdx.SeparatorsAscend` | src/fts5_index.rs:343-367 | the separators of a segment strictly ascend |
| `SegIdx.Routes` | src/fts5_index.rs:343-367 | the greatest separator not above a key is that of the leaf with its record |
| `Segment.SegmentRoutes` | src/fts5_index.rs:514-535 | for every term written with ascending keys the index rows lead to the leaf that holds it |
| `SegLevels.MoveDownKeeps` | src/fts5_index.rs:939-964 | moving the newest segment of a level to the front of a lower one keeps the order by age if the levels between are empty |
| `SegLevels.SegStructure.AllocateSegid` | src/fts5_index.rs:863-877 | the lowest positive id that no segment has |
| `SegLevels.SegStructure.PromoteTo` | src/fts5_index.rs:939-964 | segments no larger than the size are pulled down until one is larger or a level is being merged, and the order by age is kept |
| `SegLevels.SegStructure.Promote` | src/fts5_index.rs:911-934 | the level chosen is the next lower one in use if it has a segment as large, else the own one, nothing more can be pulled down to it unless it is being merged, and the order by age is kept |
| `SegLevels.SegStructure.PromoteAfterMerge` | src/fts5_index.rs:901-905 | as for a promotion: the level is the next lower one in use if it has a segment as large, else the own one, nothing more can be pulled down to it unless it is being merged, and the order by age is kept; a level out of range is left alone |
| `SegLevels.SegStructure.AppendLevel0` | src/fts5_index.rs:883-897 | the segments by age are the old ones and the new one at the end |
| `SegMerge.OverlayAllLookup` | src/fts5_index.rs:2144-2183 | inserting from the oldest segment to the newest leaves the newest posting of every term and document |
| `SegMerge.MergeLevelPostings` | src/fts5_index.rs:2144-2183 | for every term and document the newest posting is left unless it is dropped, in term and rowid order |
| `SegMerge.MergeKeepsLive` | src/fts5_index.rs:2133-2183 | replacing a run of segments by its merge changes no live posting, if markers are dropped only where no older segment is left and only markers have no positions |
| `SegDocs.MarkDeleted` | src/exec/mod.rs:35919-36131 | every term of the old document without a posting gets a delete marker, and nothing else changes |
| `SegDocs.CollectPositions` | src/exec/mod.rs:37418-37465 | the terms are those of the document, each with its positions in every column |
| `SegDocs.AddPostings` | src/exec/mod.rs:35919-36131 | the terms of the new document get its positions, keeping a delete flag that is there |
| `SegDocs.BuildTerms` | src/exec/mod.rs:35919-36131 | the terms of a batch have for each document the new positions, a marker for a term that is gone, and nothing else |
| `SegLive.MergedFrom` | src/fts5_index.rs:2144-2183 | every posting of a merged segment was in one of the segments under the same term |
| `SegLive.FlushReflects` | src/fts5_index.rs:1221-1249 | after the segment of a batch is added, the live postings are those of the changed documents |
| `SegLive.MergeReflects` | src/fts5_index.rs:2133-2198 | a merge keeps the live postings equal to those of the documents |
| `SegStore.FlushHolds` | src/fts5_index.rs:1221-1249 | the pages of a flush extend a store that says what the documents say |
| `SegStore.MergeHolds` | src/fts5_index.rs:2188-2217 | a run of stored segments can be replaced by the pages of its merge, or by none if nothing is left |
| `SegStore.Index.MergeLevel` | src/exec/mod.rs:36911-37030 | merging a level into the next keeps the store saying what the documents say and takes the segments of the level away; it is refused, without a change, exactly if they have more pages than allowed |
| `SegStore.Index.PickLevel` | src/exec/mod.rs:37041-37070 | the level picked is the first with a merge under way if that has more to merge than any before it has segments, else the first with the most segments before it |
| `SegStore.Index.IndexMerge` | src/exec/mod.rs:37041-37095 | merging keeps the store saying what the documents say, ends when the pages are spent or no level is left with the least number of segments, and gives up only at a level with more pages than are left |
| `SegStore.Index.Automerge` | src/exec/mod.rs:37105-37124 | the same for 64 pages on every level for every 64 pages that the last ones complete, and nothing at all if they complete none |
| `SegStore.Index.Crisismerge` | src/exec/mod.rs:37131-37153 | levels are merged from the lowest up while they have 16 segments or more: every merge takes at least 15 away, the first level left alone has fewer than 16, and the store says what the documents say |
| `SegStore.Index.Rebuild` | src/exec/mod.rs:37468-37528 | a rebuilt index says what the documents say |
| `SegStore.Index.FlushBatch` | src/exec/mod.rs:35919-36131 | after a batch the documents are the changed ones and the pages say what they say, whether segments were appended, promoted, merged or rebuilt |
| `SegStore.Replay` | src/exec/mod.rs:35893-35905 | after any history of batches the pages say what the documents say |
| `SegQuery.StrictReads` | src/fts5_index.rs:1856-1880 | a segment gives the postings of a term unless one of them is a delete marker |
| `SegQuery.FindStraddling` | src/fts5_index.rs:1918-1924 | sorting and comparing neighbours finds exactly whether a document is in two segments |
| `SegQuery.DecodeTerms` | src/fts5_index.rs:2639-2675 | there is no answer exactly if a term cannot be read or a document is in two segments; else the lists have all postings by rowid |
| `SegQuery.ListAscends` | src/fts5_index.rs:1925-1927 | without a document in two segments the rowids of a list strictly ascend |
| `SegMatch.ServedIndexed` | src/fts5_index.rs:1882-1899 | a posting that is served is what its document has for the term now |
| `SegMatch.IndexedServed` | src/fts5_index.rs:1882-1899 | a posting that a document has for a term now is served |
| `SegMatch.TermLists` | src/fts5_index.rs:2639-2675 | whenever there is an answer the lists are the postings of the documents, by rowid |
| `SegMatch.TermRowids` | src/fts5_index.rs:2395-2397 | whenever there is an answer it is the rowids, ascending, of exactly the documents with the term |
| `RowidSets.Intersect` | src/fts5_index.rs:2782-2797 | ascending, and exactly the rowids in both lists |
| `RowidSets.Union` | src/fts5_index.rs:2800-2823 | ascending, and exactly the rowids in one of the lists |
| `RowidSets.Difference` | src/fts5_index.rs:2826-2847 | ascending, and exactly the rowids in the first list and not in the second |
| `SegMatch.EvalTree` | src/fts5_index.rs:2866-2885 | no answer exactly if the index cannot tell about a term; else the rowids, ascending, of exactly the documents of which the tree holds |
| `Phrases.PhraseIntersect` | src/fts5_index.rs:2543-2612 | ascending, and exactly the rowids that all lists have with positions in a row |
| `SegMatch.PhraseRowids` | src/fts5_index.rs:2693-2716 | no answer exactly for fewer than two tokens or if the index cannot tell; else the rowids, ascending, of exactly the documents with the tokens in a row, in the column or in any |
| `SegScan.PhraseStarts` | src/vtab.rs:2310-2327 | the starts are ascending and exactly the places at which the tokens follow one another |
| `SegScan.TreeMeans` | src/vtab.rs:3276-3296 | the tree of a query of bare terms holds of exactly the documents that the scan accepts |
| `SegNear.NearIntersect` | src/fts5_index.rs:2503-2525 | ascending, and exactly the rowids in both lists with positions near each other |
| `SegNear.NearRowids` | src/fts5_index.rs:2768-2779 | whenever there is an answer it is the rowids, ascending, of the documents with the tokens within the distance as truncated |
| `SegNear.NearMeans` | src/vtab.rs:2820-2838 | for the scan two bare terms are near each other exactly if their tokens are within n + 1 in one column |
| `SegNear.TruncationIff` | src/fts5_index.rs:2768-2779 | truncating the distance to 32 bits changes no answer exactly if the tokens are the same, the distance has no more bits, or its low bits are as wide as any column |
| `SegNear.WideDistanceMisses` | src/fts5_index.rs:2768-2779 | at distance 2^32 the scan accepts a document that the index does not find |
| `SegPrefix.PrefixReads` | src/fts5_index.rs:1727-1751 | a segment gives the postings of all terms with a prefix, term after term, unless one of them is a delete marker |
| `SegPrefix.MergeSegments` | src/fts5_index.rs:1900-1928 | there is no answer exactly if a segment cannot be decoded or a document is in two; else the postings are sorted by rowid and of each document the first is kept |
| `SegPrefix.MergedFirst` | src/fts5_index.rs:1925-1927 | after stable sorting and dropping repeats the rowids strictly ascend and each document has the posting that came first |
| `SegPrefix.KeptIsLeast` | src/fts5_index.rs:1900-1928 | the posting kept for a document is the one it has now for its least term with the prefix |
| `SegPrefix.PrefixRowids` | src/fts5_index.rs:2434-2479 | whenever there is an answer it is the rowids, ascending, of exactly the documents with a term with the prefix; asked for one column, of exactly those whose least such term is in that column |
| `SegPrefix.TermRowidsInColumn` | src/fts5_index.rs:2410-2422 | whenever there is an answer it is the rowids, ascending, of exactly the documents with the term in the column |
| `SegPrefix.OneColumnTells` | src/fts5_index.rs:2470-2479 | in a table of one column the least term with the prefix is always in the column asked for |
| `SegPrefix.SecondColumnHides` | src/fts5_index.rs:2470-2479 | a document with ab in its first column and aa in its second has a term with prefix a in the first, but not its least |
| `SegRoute.RouteAsks` | src/vtab.rs:2951-3323 | the scan accepts a document exactly if it has what the route of the query asks for, for terms, phrases and prefixes anywhere or in one column, pairs near each other and trees of terms |
| `SegRoute.LookedForIff` | src/fts5_index.rs:2395-2911 | what the index looks for is what the query asks in every document exactly if, for a prefix in one column, no document has its least such term elsewhere |
| `SegRoute.LookUp` | src/fts5_index.rs:2395-2911 | no answer exactly if a delete marker or a document in two segments stands in the way of a term of the route; else the rowids, ascending, of exactly the documents that have what the index looks for |
| `SegRoute.MatchRowids` | src/exec/mod.rs:14594-14697 | for every store reached and every query of the kinds the index routes, also in one column, the answer is the rowids, ascending, of exactly the documents that the scan accepts; for a prefix in one column if and only if the least term tells; there is no answer exactly for queries of other kinds, unknown columns, or where a delete marker or a document in two segments stands in the way |

## Findings

Where the code does not keep what its documentation says, the model follows the code. Each finding has an
input on which it fails and the exact condition under which it holds.

- Prefixes in one column, as in `c : a*` (src/fts5_index.rs:1926-1927, 2470-2479): the postings of all terms with the
  prefix are merged and of one document only the first is kept, so only its least term is looked at. A document
  with `ab` in the column and `aa` in another is missed (`SegPrefix.SecondColumnHides`); the answer is right
  exactly if no document has its least term with the prefix only elsewhere (`SegRoute.MatchRowids`), as in
  tables of one column (`SegPrefix.OneColumnTells`).
- Distances from 2^32 in `NEAR` (src/exec/mod.rs:14644): the index is asked for the low 32 bits.
  `NEAR(a b, 4294967296)` misses a document with the tokens two apart (`SegNear.WideDistanceMisses`);
  `SegNear.TruncationIff` says when truncation does not matter.
- Updates from 0.0 to -0.0 (src/session.rs:642): the two are equal as reals, so the column counts as
  unchanged and the update is not written (`SessionMeaning.SignedZeroIsLost`); a changeset takes the start to the
  end exactly if no watched row does that (`SessionEnd.ChangesetMeans`).
- Lengths from 2^56 in changesets (src/session.rs:433-441): they are written as ten bytes and read back as
  something else; lengths are read back exactly if they are below (`SessionValues.LengthReadsBack`).
- Updates that give a new value for a key column under inversion (src/session.rs:1061-1127): the value is
  dropped, so inverting twice gives the same bytes exactly if there is none (`Invert.InvertTwice`).
- The last row of a table whose right-most leaf is empty (src/btree/cursor.rs:79-100): none is reported
  (`TableCursor.LastMissesRow`); `TableCursor.Cursor.Last` reports a row exactly if that leaf has one, which is
  right whenever no leaf is empty.
- Index records shorter than the search key (src/btree/index_writer.rs:409-423): a missing column counts as
  equal, so verdicts no longer follow the order and a match can be lost (`IndexScan.ShortRecordIsLost`,
  `IndexScan.ShortRecordEndsScan`). Every match is found, whatever the tree, exactly if none comes after a record
  above the key or before one below it (`IndexScan.FoundIff`), and a range scan is complete exactly if no record
  within comes after one past (`IndexScan.ScanIsFilter`); with all columns present both hold.

## Left out

- Doclist-index pages and the flag for them in the index rows (src/fts5_index.rs:589-707): a flush whose
  segment has one is rebuilt instead; the model lets `SegStore.Index.FlushBatch` choose freely whether it does.
- Segments with `detail=none` or `detail=column`, and prefix indexes.
- SegRoute.MatchRowids: of a table with two columns of one name, a filter on that name is answered for the first only,
  while the scan looks at both; the answer is stated for filters that name one column.
- The bytes of the structure record, and how segment and page numbers make up rowids: the model keeps
  the levels themselves and the leaf pages by segment.
- How a transaction's operations are grouped into batches: a batch has at most one change per document.
- Documents with negative rowids, tokens longer than 61445 bytes or more than 32768 columns.
- Tokenizing and stemming: tokens are opaque, and a query is a parsed tree; the lexer and parser of queries.
- Averages, document sizes, ranking, highlighting and snippets.
- Rebasing of changesets, and conflict handling when one is applied: applying is all or nothing.
- NaN and negative zero in the key columns of recorded runs (`SessionRun.RowOk` asks for neither).
- Table b-tree insertion, deletion from any b-tree, vacuuming, pointer maps, locking, journals and the cache.
- Freeing pages of an index, and custom collations.
- SQL: its parser, planner, executor, functions, window functions and virtual tables other than the above.
- Geometry (`geopoly`), decimal and regular-expression extensions, the C interface and WebAssembly glue.
