# GTID sets, the GTID sequence index and GTID replication

Every write transaction in this Redis has an id `uuid:gno`. A server keeps the ids it has executed and the ids it
has given up ("lost") as GTID sets, indexes its replication stream by id, and lets a replica continue from the first
id that is new to it. This project models that code and proves what it keeps. It has three layers.

- **GTID sets** (`Intervals`, `IntervalEdits`, `SkipNodes`, `SkipList`, `SkipListSets`, `Tables`, `UuidSets`,
  `GtidSets`, `GtidSetAlgebra`). The numbers of one uuid are sorted intervals that never touch, in a skip list of heap
  nodes that is changed in place. Its ghost state is the sequence of its nodes and of their intervals; its meaning is
  a finite set of numbers. A `GtidSet` is a linked list of such lists with a one-entry cache. Its meaning is a table
  from uuids to sets of numbers, and `Ids` of that table is the set of ids.
- **The sequence index** (`SeqLogs`, `SeqQueries`, `SeqRuns`, `SeqReplays`, `Segments`, `GtidSeqs`, `GtidSeqScans`). A
  doubly linked list of segments with 16-bit offsets and a list of spare segments. Its meaning is a log of
  (uuid, gno, offset).
- **Replication**. On the real data: `Numbering`, `NextGnos` and `OwnIds` (how a server numbers its own
  transactions), `ReplModes` and `Feeds` (which offsets belong to which mode, and what stays indexed), `Analysis`,
  `Answers` and `Replies` (the handshake, and what its answers mean), `Backlog` (the ring buffer). As a transition system over any number of servers:
  `Protocol`, `ProtocolSafety`, `ProtocolNumbering`, `ProtocolRuns`, `ProtocolOrder`, `ProtocolStreams`, with the set equations in `Handshake`.

`Numbers`, `Texts`, `Encoding`, `Decoding` and `RoundTrips` are the textual form.

Heights of skip-list nodes are any values from 1 to 32. Replication offsets, the bytes of a command, the size of the
backlog and what a peer has sent are parameters.

## Model

| member | source | states |
|---|---|---|
| SkipLists.SkipList.Add | gtid.c:175-256 | On a valid list, for any drawn heights, adding `[start, end]` leaves exactly the old numbers and the range, and returns by how much the counter grew. Valid means: every level links exactly the nodes that are tall enough, in order; intervals ascend with a gap between any two; tail, level, node counter and number counter agree with them. Both the tail path and the search path are covered, so by `SameSetSameForm` they give the same intervals. |
| SkipLists.SkipList.Remove | gtid.c:268-351 | Removing `[start, end]` leaves exactly the old numbers without the range, in a valid list, whether it splits one node or trims both ends and unlinks what is between; it returns by how much the counter fell. |
| SkipLists.SkipList.Contains | gtid.c:365-374 | The search finds a number exactly if it is in the list. |
| SkipLists.SkipList.Next | gtid.c:376-380 | The number after the last one, or 1; with "update" it is added and nothing else, without it nothing changes. |
| SkipLists.SkipList.Current | gtid.c:382-384 | The last number of the list, or 0 for an empty one. |
| SkipLists.SkipList.CountIsExact | gtid.c:170-256 | The counter of any valid list is the number of distinct numbers in it, so the differences that Add and Remove return are exact. |
| SkipListSets.SameSetSameForm | gtid.c:175-351 | Two valid lists hold the same numbers exactly if they have the same intervals, whatever their heights and histories; then both counters agree too. |
| SkipListSets.Merge | gtid.c:258-266 | Merging leaves the union, in a valid list, and returns by how much the counter grew. |
| SkipListSets.Diff | gtid.c:353-363 | Leaves the difference and returns by how much the counter fell; also for a list and itself, where the list being walked loses its nodes meanwhile. |
| SkipListSets.Dup | gtid.c:135-161 | A copy with nodes of its own has the same intervals and is valid. |
| UuidSets.UuidSet.Merge | gtid.c:542-548 | Takes in the numbers of the other set if the uuids are equal, else none, and returns how many were new. |
| UuidSets.UuidSet.Diff | gtid.c:550-555 | Loses the numbers of the other set if the uuids are equal, else none, and returns how many those were; also against itself. |
| GtidSets.GtidSet.Add | gtid.c:688-707 | Adds the range to the row of the uuid, which is put at the end of the list if it is new; an invalid range adds nothing, but the uuid is there then. Returns how many ids were new, and keeps the uuids of the list distinct. |
| GtidSets.GtidSet.Remove | gtid.c:709-732 | Takes the range out of the row of the uuid, and the row out of the list if that leaves it empty; cache and current uuid set never dangle. The result is the number of ids removed, reduced to 32 bits as the code does, so it is exact below 2^31. |
| Tables.RemovedIds | gtid.c:709-732 | What `GtidSet.Remove` does to the table is, on ids, the set difference. |
| GtidSets.GtidSet.Contains | gtid.c:799-804 | The answer, through cache or search, is whether the id is in the set. |
| GtidSets.GtidSet.CachedIsFound | gtid.c:676-686 | If the cached uuid set has the uuid, it is the only member of the list that has, so the short cut agrees with a full search. |
| GtidSets.GtidSet.GnosAreBounded | gtid.c:688-707 | Every number held is at least 1 and below the greatest 64-bit number, so that `end + 1` never overflows. |
| GtidSets.GtidSet.Next | gtid.c:776-789 | The number after the greatest one of the uuid, or 1; with "update" exactly that id is added. |
| GtidSets.GtidSet.Count | gtid.c:791-797 | The sum of the counters is the number of ids in the set. |
| GtidSets.GtidSet.CurrentUuidSetUpdate | gtid.c:861-869 | Makes a uuid current, with an empty row if it has none. |
| GtidSets.GtidSet.CurrentUuidSetSetNextGno | include/gtid.h:122-127 | Chooses the next number in advance, provided that it has not been passed. |
| GtidSets.GtidSet.CurrentUuidSetNext | include/gtid.h:128-140 | The chosen number, or else the one after the greatest; with "update" it is added and the choice is used up. |
| GtidSetAlgebra.Merge | gtid.c:734-749 | The table becomes the union, row by row, and the result is how many ids were new. A null set adds nothing. |
| GtidSetAlgebra.Diff | gtid.c:751-774 | The table becomes the difference without empty rows, and the result is how many ids went. |
| Tables.DifferenceIds | gtid.c:751-774 | The difference of tables is, on ids, the set difference. |
| GtidSetAlgebra.Dup | gtid.c:587-603 | A copy that shares no memory has the same rows in the same order. |
| GtidSetAlgebra.Equal | gtid.c:813-830 | True exactly if both sets hold the same ids, empty rows aside. |
| GtidSetAlgebra.Related | gtid.c:833-840 | True exactly if some uuid occurs in both. |
| Segments.Segment.Append | gtid.c:908-917 | One more offset fits 16 bits and goes to the end; a full array is replaced by one twice as long, and no entry changes. |
| Segments.Segment.Search | gtid.c:1043-1060 | The binary search finds the first entry at or beyond an offset, or the end. |
| GtidSeqs.GtidSeq.Append | gtid.c:993-1015 | The log gets exactly one entry more at its end. Both lists stay linked and apart, the four counters agree with them, every offset fits its segment, and no more segments are in use or spare than were ever in use at once. |
| GtidSeqs.GtidSeq.Trim | gtid.c:1017-1063 | The log keeps exactly its entries from the offset on, and the same holds of lists and counters. |
| SeqReplays.Replay | gtid.c:993-1063 | Any sequence of appends and trims, carried out on the segments, leaves the log that the same sequence leaves on paper; if no append goes below a cutoff that has been used, that is the history of appends from the largest cutoff on. |
| SeqRuns.RunKeepsSurvivors | gtid.c:993-1063 | After any run the log is exactly the entries appended that no later trim has cut off, in order. |
| SeqRuns.RunIsCutHistory | gtid.c:993-1063 | The log equals the history of appends from the largest cutoff on exactly if no entry below that cutoff outlives the run. |
| SeqRuns.NeverBelow | gtid.c:993-1063 | A caller that never appends below a cutoff it has used sees to that condition. |
| SeqRuns.LowAppendStays | gtid.c:993-1063 | One that does not: an entry at 50, appended after a trim up to 100, stays. |
| GtidSeqScans.Xsync | gtid.c:1112-1143 | The result is the first offset of the longest suffix of the log in which each number exceeds all that the request has of that uuid, or -1 if that is empty, and the ids of just that suffix. |
| SeqQueries.ContinueIsNew | gtid.c:1112-1143 | No id that Xsync returns is in the request. |
| GtidSeqScans.Psync | gtid.c:1145-1178 | The result is exactly the ids logged at the offset or later. |
| SeqQueries.QueriesAgree | gtid.c:1112-1178 | Where Xsync finds a suffix, its ids are those that Psync returns for its offset. |
| NextGnos.AheadIsFresh | include/gtid.h:128-140 | The numbering is "ahead" exactly if the next number exceeds every own number, executed or lost. |
| NextGnos.GeneratedKeepsAhead | xredis/xredis_gtid_rs.c:44-120 | Taking the next number leaves the numbering ahead. |
| NextGnos.AssertionFails | xredis/xredis_gtid.c:73-83 | The assertion made before a number is chosen fails exactly if the lost numbers have passed an earlier choice and the executed ones both; while the choice has not been passed it holds. |
| NextGnos.UpdatedIsAhead | xredis/xredis_gtid.c:73-83 | What is chosen there puts the numbering ahead of all executed and lost numbers. |
| NextGnos.ChoiceStays | xredis/xredis_gtid.c:73-83 | A number is chosen anew exactly if a lost one has reached the next one, and it is the one after the last lost one. |
| NextGnos.NoneIsChosen | xredis/xredis_gtid.c:73-83 | Where none was chosen before, none is exactly if no lost number lies beyond the executed ones. |
| NextGnos.OutsideGnoRepeats | include/gtid.h:128-140 | After a number from outside, the next one repeats a number in use exactly if it was that one that had been chosen. |
| NextGnos.OutsideGno | xredis/xredis_gtid.c:192-193 | A number from outside leaves the numbering ahead exactly if none has been chosen, or one beyond it. |
| Numbering.Server.Generate | xredis/xredis_gtid_rs.c:84-97 | The number of an own transaction is the next one, and is added to executed; it exceeds all own numbers, executed or lost, exactly if the numbering was ahead, and leaves it so. |
| Numbering.Server.ResetExecuted | xredis/xredis_gtid.c:85-91 | Other executed ids; the numbering is ahead afterwards, whatever it was. A number is chosen exactly if an own lost one lies beyond the executed ones, and it follows the last lost one. |
| Numbering.Server.ResetLost | xredis/xredis_gtid.c:93-97 | Other lost ids; the numbering stays ahead. The choice, or that there is none, stays exactly if no lost number has reached the next one; a new choice follows the last lost one. |
| Numbering.Server.AddLost | xredis/xredis_gtid.c:99-102 | More lost ids; with the assertion as precondition the numbering stays ahead if it was, and a number is chosen exactly as after ResetLost. |
| Numbering.Server.StaysAhead | xredis/xredis_gtid.c:73-102 | While the numbering is ahead, the assertion holds for any lost numbers. |
| Numbering.Server.RemoveLost | xredis/xredis_gtid.c:104-106 | Fewer lost ids; the numbering stays ahead. |
| Numbering.Server.Contains | xredis/xredis_gtid.c:68-71 | Whether the id is executed or lost. |
| Numbering.Server.GtidCommand | xredis/xredis_gtid.c:140-205 | Ignored exactly if the id is known; else rejected if its command is bad, and else noted as executed, unless its number is below 1, when the assertion at line 193 fails. Only an applied command changes the executed ids. A numbering that is ahead stays so exactly if the command is not applied, or not of the own uuid, or below the chosen number, or none is chosen. |
| OwnIds.CommandThenGenerate | xredis/xredis_gtid.c:123-205 | On a server: an unknown own id is sent to it, and then it runs a transaction. The number of that has been used already exactly if the command had the number that was chosen, and fails to exceed all that are in use exactly if it had that or a greater one. |
| OwnIds.CommandThenMany | include/gtid.h:128-140 | While none is chosen, an own id from outside is never given out again: all numbers that the server generates afterwards lie beyond it, ascend and are new. |
| OwnIds.TakesFour | xredis/xredis_gtid.c:73-91 | A server that takes over A:1-4 with nothing lost chooses no number; after the command A:5 its own transaction is A:6. |
| OwnIds.GivenOutTwice | include/gtid.h:128-140 | Such a server: 5 is chosen, A:5 arrives, and the next transaction is A:5 as well. |
| OwnIds.CannotLoseMore | xredis/xredis_gtid.c:73-102 | Another: 5 is chosen, A:9 arrives, and the assertion fails when A:5 and A:6 are to be counted as lost. |
| ReplModes.ReplStream.Locate | xredis/xredis_gtid_rs.c:296-348 | The answer depends on the modes and their first offsets as stated. If it is "current", every byte kept from there on was written in the mode asked for; if "previous", every byte up to the limit was, which ends at the switch, and all from there on in the current mode. A refused offset that is kept was written in the other mode or before the known stretches. |
| ReplModes.ReplStream.Feed | xredis/xredis_gtid_rs.c:393-411 | New bytes are in the current mode, old ones keep theirs, and the stretches of both modes stay what `Locate` relies on. |
| ReplModes.ReplStream.FreeBacklog | xredis/xredis_gtid_rs.c:368-374 | No byte is kept, and the stretches of both modes stay what `Locate` relies on. |
| ReplModes.ReplStream.ShiftMode | xredis/xredis_gtid_rs.c:158-183 | The current mode becomes the previous one with its first offset and ids, and the new one begins after the last byte. |
| ReplModes.ReplStream.GetMasterReploff | xredis/xredis_gtid_rs.c:186-276 | Whatever offset a replica continues at, it ends at the published offset of the master once it has the rest of the stream. |
| ReplModes.ReplStream.SwitchToPsync | xredis/xredis_gtid_rs.c:605-637 | The stream goes on in psync mode at the given offset; if that differs the kept bytes are dropped. Offsets of the previous mode are published as before exactly if there was no difference between published and real ones. |
| ReplModes.ReplStream.SwitchToXsync | xredis/xredis_gtid_rs.c:643-672 | The stream goes on in xsync mode with the given published offset; all kept bytes and all offsets of the previous mode stay. |
| ReplModes.ReplStream.ResetToPsync | xredis/xredis_gtid_rs.c:676-694 | No byte and no previous mode is left. |
| ReplModes.ReplStream.ResetToXsync | xredis/xredis_gtid_rs.c:699-728 | No byte and no previous mode is left; the difference between published and real offsets stays what it was. |
| Feeds.FeedIndexed | xredis/xredis_gtid_rs.c:393-411 | A command with a number is logged, fed, and the index trimmed: all that is indexed then lies in the backlog. |
| Feeds.PlainFeed | xredis/xredis_gtid_rs.c:395-402 | After a command without one, all that is indexed lies in the backlog exactly if the first entry does. |
| Feeds.PointIsInBacklog | xredis/xredis_gtid_repl.c:434-457 | In xsync mode the continue point of every request lies in the backlog, or at its end, exactly if all that is indexed does. |
| Feeds.PlainFeedLosesPoint | xredis/xredis_gtid_repl.c:434-457 | A stream and an index where it does not: a command without a number has driven A:2 out of the backlog, and a related request that has A:1 continues at A:2. |
| Handshake.MasterAdjusts | xredis/xredis_gtid_repl.c:475-495 | Once the master has counted as lost what only the replica has, it knows exactly what the replica asked with, what the reply tells it, and what is to be streamed; the stream holds nothing of the rest. |
| Handshake.GapsAreDifferences | xredis/xredis_gtid_repl.c:501-538 | The two gap sets are the differences between both executed sets once the stream is through. |
| Analysis.GetKnown | xredis/xredis_gtid.c:52-66 | A set of its own with all that the server has executed or lost. |
| Analysis.AnaXsyncRequest | xredis/xredis_gtid_repl.c:395-580 | An xsync request is refused exactly if full resynchronisation is wanted, no uuid is shared, the continue point is before the backlog (psync mode) or not in a stretch of xsync mode, or the gap is too large; what an accepted answer says is in the next four rows. |
| Analysis.AnswerIsSafe | xredis/xredis_gtid_repl.c:475-538 | If it is accepted, what follows holds no id that the replica knows or is told; what it is told and what follows is all that the master knows; the master counts as lost just what it does not know; and the gap is within the bound. |
| Answers.BeforeSwitch | xredis/xredis_gtid_repl.c:540-549 | An accepted point before the switch has a limit above 0 that reaches just to the switch; all bytes up to there were written in xsync mode, all later ones in psync mode; and the offset published for the byte before the point, with the limit, is the one of the last byte of that stretch, under its id. |
| Answers.AfterSwitch | xredis/xredis_gtid_repl.c:549-563 | One at or after the switch has no limit. Either all that follows was written in xsync mode, or psync mode begins just there; the id is the current one, and the published offset with the rest of the stream is that of the master. |
| Answers.PointIsFirstNew | xredis/xredis_gtid_repl.c:434-457 | The point is the offset of an indexed command from which on all are new to the request while the one before is not; if none is new it is the end of the stream in xsync mode and the switch in psync mode. The ids indexed from there on are exactly those that the answer counts as under way. |
| Answers.SwitchAndAskXsync | xredis/xredis_gtid_rs.c:605-637 | After the switch to psync mode at the same offset, an accepted request from before it is sent the rest of the xsync stretch under the old id; one at the switch goes on in psync mode under the new id. |
| Answers.ReadAndCatchUp | xredis/xredis_gtid_repl.c:1317-1345 | A replica that reads the answer of a master in xsync mode and then has the rest of the stream publishes the same offset under the same id as the master. |
| Analysis.AnaPsyncRequest | xredis/xredis_gtid_repl.c:304-393 | A psync request is left to Redis, refused, continued up to the switch, or made an xsync continuation at the switch; the next five rows say when and with what. |
| Answers.PsyncRefused | xredis/xredis_gtid_repl.c:309-386 | In xsync mode it is accepted exactly if it names the id of the psync stretch before, or the second id and an offset up to where that reaches, and an offset in the backlog from the beginning of that stretch up to the switch. |
| Answers.PsyncLeft | xredis/xredis_gtid_repl.c:309-392 | In psync mode it is left to Redis exactly if its offset is in the backlog and in the current stretch, and refused otherwise. |
| Answers.PsyncContinues | xredis/xredis_gtid_repl.c:334-379 | Before the switch the limit reaches just to it and all bytes up to there were written in psync mode. At the switch there is no limit, all that follows was written in xsync mode, the replica is told all that the master knows but what follows, and it ends at the master's published offset. |
| Answers.SwitchAndAskPsync | xredis/xredis_gtid_rs.c:643-672 | After the switch to xsync mode, a request with the replication id of before is continued: up to the switch under that id, and at the switch with the new id and the published offset of the byte before. The second id is as good as far as it reaches; any other is refused. |
| Answers.SameReplidIs | xredis/xredis_gtid_repl.c:341-342 | Replication ids are the same if they have the same letters, small or capital. |
| Replies.UpdateXsync | xredis/xredis_gtid_rs.c:490-553 | Counts ids as lost and takes over replication id and offset; others have to be disconnected exactly if anything of that has changed. The numbering stays ahead. |
| Replies.ReadXcontinue | xredis/xredis_gtid_repl.c:1317-1345 | A replica in xsync mode counts as lost exactly what the master names and it does not know, and takes over the replication id and the published offset if they were sent; its replicas have to be disconnected exactly if anything of that is new. |
| Replies.AdoptXcontinue | xredis/xredis_gtid_repl.c:1241-1280 | One in psync mode takes over the master's executed and lost ids; xsync mode begins with the id and the published offset that were sent. |
| Backlog.ReplBacklog.ConsumeLimited | xredis/xredis_gtid_repl.c:605-628 | For any position in the ring, the chunks passed on are together the bytes from the offset on, as many as the limit or the history allows, in at most two chunks, none empty. |
| Backlog.ReplBacklog.SlotsLeadToIdx | xredis/xredis_gtid_repl.c:610-614 | The history occupies successive slots of the ring, each one once, and ends where the next byte goes. |
| ProtocolSafety.StepKeepsOk | xredis/xredis_gtid_repl.c:709-781 | Each step of the protocol keeps, on all servers and links, what `Safety` says. |
| ProtocolNumbering.StepKeepsNumbered | xredis/xredis_gtid.c:73-102 | Each step keeps the numbering of all servers ahead, unless a server is sent its own id at or beyond the number it has chosen. |
| ProtocolNumbering.OutsideId | xredis/xredis_gtid.c:140-193 | Executing an id from outside keeps the numbering ahead exactly if it is not such an id, and makes the next own id a known one exactly if it is the one that had been chosen. |
| ProtocolNumbering.LosingChooses | xredis/xredis_gtid.c:73-102 | In the protocol too, more lost ids change the choice exactly if an own one has reached the next number. |
| ProtocolNumbering.ResetChooses | xredis/xredis_gtid.c:85-97 | After both sets are replaced a number is chosen exactly if an own lost one, of before or after, lies beyond all executed ones. |
| ProtocolRuns.Safety | xredis/xredis_gtid_repl.c:395-580 | Over every run with any number of servers on which no such id arrives: executed and lost are disjoint, all indexed ids are executed, no command was ever ignored, the next own id is new, and on an open link the master knows exactly what the replica knows and what is under way, of which the replica knows nothing. |
| ProtocolRuns.BoundedDivergence | xredis/xredis_gtid_repl.c:501-538 | On the same runs the executed sets of both ends of an open link differ, once the stream is through, by exactly the gap found when it was accepted, and by no more ids than asked for. |
| ProtocolRuns.GapStays | xredis/xredis_gtid_repl.c:501-538 | No step changes the gap of a link that goes on streaming. |
| ProtocolRuns.DrainConverges | xredis/xredis_gtid_repl.c:709-781 | A replica that takes all that is under way ends up with what it had executed and that, its lost set as it was, and the same ids as its master; with no gap allowed also the same executed and the same lost ids. |
| ProtocolStreams.Ordering | xredis/xredis_gtid_rs.c:393-411 | Over every run: what a replica has taken from a link and what is under way is, in order, the master's stream from where the link began, up to its end while the link is attached; the replica has passed it on in that order, and its index is the end of its stream. |
| ProtocolStreams.StreamIsInOrder | xredis/xredis_gtid_repl.c:434-563 | From an accepted request on, over any run that keeps the link: that stream is the master's index from the continue point on, followed by what has passed through the master since. |
| ProtocolStreams.AdoptedStreamIsInOrder | xredis/xredis_gtid_repl.c:350-379 | The same for a replica that takes over the master's sets, from the offset on that it was told. |
| ProtocolStreams.PassedIsExecuted | xredis/xredis_gtid.c:140-205 | What passes through a server is just what it executes at that step, and it did not know it. |
| ProtocolStreams.DrainIsInOrder | xredis/xredis_gtid_rs.c:404-410 | A replica that takes all that is under way puts just that, in order, at the end of its stream and of its index. |
| ProtocolOrder.StepKeepsOrder | xredis/xredis_gtid_rs.c:393-411 | Each step of the protocol keeps what `Ordering` says. |
| ProtocolStreams.AcceptCuts | xredis/xredis_gtid_rs.c:462-553 | A master that lacks ids of a request keeps no link but the one it answers; one that lacks none keeps all. |
| ProtocolStreams.ReplyCuts | xredis/xredis_gtid_rs.c:490-553 | A replica counts as lost just what it is told and does not know, and disconnects its own replicas exactly if that is anything or the reply changes what they must hear of. |
| ProtocolStreams.ModeCuts | xredis/xredis_gtid_rs.c:605-672 | A change of mode closes all links; into xsync mode the server begins with the sets given and an empty index. |
| ProtocolRuns.Aligned | xredis/xredis_gtid_repl.c:1241-1280 | A psync replica that takes over the master's sets at the switch and then takes the whole stream has executed and lost exactly what the master has. |
| ProtocolRuns.DisconnectionIsNeeded | xredis/xredis_gtid_rs.c:462-553 | If a master counted ids as lost and kept a link, that would keep its promise exactly if there were no such ids; `LinksExist` shows such a link. |
| ProtocolRuns.CommandRepeats | xredis/xredis_gtid.c:123-205 | A server that is sent its own next id by a client repeats an id with its next transaction exactly if that id had been chosen; its index then has it twice. |
| ProtocolRuns.DeliveryRepeats | xredis/xredis_gtid.c:123-205 | The same for an id that comes over the link, when the server is promoted and writes. |
| ProtocolRuns.RepeatIsIgnored | xredis/xredis_gtid.c:140-157 | A replica that has taken everything ignores the repeated id, so that transaction is missing there. |
| Numbers.Digits10IsLength | gtid_util.c:6-24 | digits10 is the number of decimal digits, for every natural number. |
| Numbers.Ll2String | gtid_util.c:26-78 | Any 64-bit number, the least one included, is written with sign and terminator and nothing else in the buffer changes; with too little room nothing is written and the result is 0. |
| Numbers.String2Ll | gtid_util.c:93-158 | Accepts exactly the texts that denote a 64-bit number, with that number, leading zeros included; unless the zeros run past the end of the text to another digit, where that digit is the result. |
| Numbers.OverrunIsWrong | gtid_util.c:113-130 | In that case the text denotes no number at all; it cannot happen if the character after the text is not a digit. |
| Numbers.OverrunExample | gtid_util.c:113-130 | It happens for the text 00 with a 5 behind it, which is read as 5. |
| Numbers.NumberRoundTrip | gtid_util.c:26-158 | Any 64-bit number fits into 21 characters, and what is written denotes it and no other. |
| Texts.IntervalTextReads | gtid.c:58-99 | The text of an interval reads as that interval and no other. |
| Texts.UuidTextIsCanonical | gtid.c:506-525 | Two uuid sets have the same text exactly if uuid and numbers are the same. |
| Encoding.EncodeInterval | gtid.c:87-99 | Writes the text of the interval, or fails exactly if 21 characters are not free for each number. |
| Encoding.EncodeUuidSet | gtid.c:501-525 | In the estimated room no error can occur, and the text of the uuid set is written. |
| Encoding.EncodeSet | gtid.c:642-673 | In the estimated room no error can occur, and the rows that are not empty are written, with commas between. |
| Encoding.SpellsOnce | gtid.c:653-673 | What is to be written is determined by the uuids and numbers of the set. |
| Encoding.Dump | xredis/xredis_gtid.c:39-45 | A buffer of the estimated size is enough, and the result is the text of the set. |
| Decoding.DecodeInterval | gtid.c:58-85 | Reads an interval exactly if the text denotes one, or a single number. |
| Decoding.DecodeUuidSet | gtid.c:449-498 | Fails exactly if the text is empty or a piece is no valid interval; otherwise uuid and numbers are those that the text says. Empty pieces are passed over. |
| Decoding.DecodeSet | gtid.c:617-640 | Fails exactly if a piece between commas is bad; otherwise the rows are those that the pieces say. |
| RoundTrips.RoundTrip | gtid.c:617-673 | What is read from the text of a set holds the same ids, and no empty row. |
| RoundTrips.Send | xredis/xredis_gtid.c:39-45 | A set whose uuids hold no colon or comma, dumped on one side and decoded on the other, is the same set of ids. |

## Findings

Properties that one would expect and that the code does not have. For each there is an input, and the condition under
which the property holds.

- **An id can be given out twice.** A server that has chosen its next number (after counting ids as lost) and is then
  sent that very id, by a client or by the server it replicates from, applies it and later gives it out again:
  `gtidSetCurrentUuidSetNext` returns the choice without looking at the executed set (include/gtid.h:133-138). This
  happens exactly if the id is the chosen one: `NextGnos.OutsideGnoRepeats`, `OwnIds.CommandThenGenerate`,
  `OwnIds.GivenOutTwice`, and in the protocol `CommandRepeats`, `DeliveryRepeats`. A replica then ignores the second
  transaction (`RepeatIsIgnored`).
- **The assertion about the next number can fail.** With an own id beyond the chosen number executed, counting lost
  ids that have passed the choice fails the assertion in `serverGtidSetCurrrentUuidSetUpdateNextGno`, exactly under the
  condition of `NextGnos.AssertionFails`; `OwnIds.CannotLoseMore` is an input.
- **A GTID command with a number below 1 stops the server.** Such an id passes `uuidGnoDecode` and is never known,
  `gtidSetAdd` ignores it and returns 0, and the assertion at xredis/xredis_gtid.c:193 fails: `Numbering.Server.GtidCommand`,
  for every unknown id exactly if its number is below 1 and its command is good.
- **A continue point can lie before the backlog.** The index is trimmed only by commands that carry a number, so others
  can drive an indexed command out of the backlog: `Feeds.PointIsInBacklog` and `Feeds.PlainFeedLosesPoint`. In psync
  mode the code refuses such a request (xredis/xredis_gtid_repl.c:458-465). In xsync mode it accepts it, and the
  assertion in `masterSetupPartialSynchronization` (xredis/xredis_gtid_repl.c:678) fails.
- **Leaving xsync mode forgets its offsets.** `serverReplStreamSwitch2Psync` clears the difference between published and
  real offsets before the previous mode is saved, so offsets of that mode are published as before exactly if there was
  none: `ReplModes.ReplStream.SwitchToPsync`.
- **An entry below a used cutoff stays in the index.** `gtidSeqTrim` has no memory: `SeqRuns.LowAppendStays`, with the
  exact condition in `SeqRuns.RunIsCutHistory` and one a caller can follow in `SeqRuns.NeverBelow`.
- **`string2ll` reads past its text.** Leading zeros are skipped without regard to the length (gtid_util.c:116-119):
  `Numbers.String2Ll`, `Numbers.OverrunIsWrong`, `Numbers.OverrunExample`.

## Left out

- SkipLists.SkipList.Add: ends are below the greatest 64-bit number, for the code computes `end + 1`.
- SkipLists.SkipList.Remove: the same.
- SkipLists.SkipList.Contains: the number is at least 1, which the code asserts and `UuidSets.UuidSet.Contains` sees to.
- SkipListSets.Merge: the two lists share no memory; merging a list into itself is not modelled.
- GtidSets.GtidSet.Add: ends are below the greatest 64-bit number.
- GtidSets.GtidSet.Remove: the same.
- Numbering.Server.GtidCommand: the same of the number of a command. The text of its id is decoded before.
- GtidSetAlgebra.Merge: the two sets share no memory; merging a set into itself is not modelled.
- GtidSetAlgebra.Diff: no uuid set of the first set is current, for the code clears the cache but not that pointer; the two sets share no memory.
- Encoding.EncodeSet: only for buffers of at least the estimated size, for the code compares unsigned lengths with 0 and would not notice an error.
- Decoding.DecodeSet: the uuids of the text are distinct, for the code puts what it reads at the end of the list without a search; no interval ends at the greatest 64-bit number, and the character after the text is not a digit.
- Decoding.DecodeUuidSet: the same of its text.
- RoundTrips.Send: uuids hold no colon or comma, which the code does not check.
- GtidSeqs.GtidSeq.Append: offsets ascend and numbers are from 1 up to below the greatest 64-bit number, as all callers see to.
- ReplModes.ReplStream.ResetToXsync: the difference between published and real offsets is kept, as in the code; nothing is promised about published offsets.
- Answers.PointIsFirstNew: the index belongs to the stream: offsets ascend, none lies beyond the end, and in psync mode none from where it began; the code keeps an index when it goes over to psync mode at another offset, and without an index the mode is xsync.
- Answers.ReadAndCatchUp: the offset sent is not negative, which would count as not sent, and the replica has a backlog.
- Answers.PsyncContinues: what is indexed is known, as `ProtocolRuns.Safety` has it.
- OwnIds.CommandThenMany: no ids are lost meanwhile; with any other steps between, `ProtocolRuns.Safety` says that the next id is new.
- Backlog.ReplBacklog.ConsumeLimited: the offset is not before the backlog, which the code asserts, and not behind it, which it does not; with an empty history nothing is copied.
- Numbering.Server.ResetExecuted: the new set has no number chosen, which is so for all sets that are decoded or copied.
- ProtocolRuns.Safety: runs on which a server is sent its own id at or beyond its chosen number are excluded; `CommandRepeats` and `DeliveryRepeats` say what happens on those.
- In the protocol a request is judged by its gap only: that a uuid has to be shared, the offsets of the stream and the
  backlog are in `Analysis`, `ReplModes` and `Feeds` and not in the transition system. A link in psync mode carries no
  ids and is not modelled, nor is an xsync request at a switch, which ends in one. A replica that adopts the master's
  sets in a full resynchronisation drops its own additional ids.
- A GTID command inside MULTI, and the rewriting of commands around the generated id.
- The clearing of the master's uuid, replica statistics, and the reconnection to the own master, except as disconnections.
- Sockets, client objects, the parsing of requests and replies, logging, INFO text and module events.
- The backlog and feed functions of Redis itself; how many bytes of a feed are kept is a parameter.
- The GTIDX commands, AOF rewriting, RDB fields, and statistics.
- `serverGtidSetAddExecuted` and `serverGtidSetRemoveExecuted`, `uuidSetRaise`, `gtidSeqEncode` and the text of a single id.
- Failure to allocate memory, the probabilities of node heights, `size_t` overflow, benchmark and test programs.
