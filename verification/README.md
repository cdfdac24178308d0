# Gluon: a verified model of its IMAP core

Gluon is an IMAP server library. Each session holds a *snapshot* of the selected mailbox. Changes made elsewhere reach
the session as *responders* that wait in a queue until the protocol lets the session talk about them; handling a
responder changes the snapshot and yields untagged responses, which are merged before they are sent. Around that core
stand the search compiler, UID and sequence sets, mailbox names, UIDVALIDITY generation and the byte-level RFC 822 code.
This project models those parts in Dafny and proves what they keep over every run.

`dafny verify dfyconfig.toml` checks the whole project.

## What is proved

**Sessions.** `State` is the session object, `SnapshotList` the message list with its index. Their methods are proved
against functions on values (`Responders`, `Snapshot`, `Deferral`), and the laws are proved about those functions for
all queues, snapshots and runs.

* EXPUNGE is held back while a client could misread it. Holding it back loses nothing: after any interleaving of
  pushes, flushes and idling, the messages, their UIDs and their sequence numbers are those of handling every responder
  in arrival order (`Deferral.DeferralIsInvisible`, `Deferral.ForeignRunsConverge`). Whether a run fails is decided by
  the order it hands the responders over, exactly (`Deferral.RunSucceedsIff`). The law is false on the strict insert
  that a session uses for its own arrivals: a deferred message that comes back can fail
  (`Deferral.StrictInsertCanFailAfterDeferral`).
* Flag changes are not held back with their message. One that stands behind a waiting re-arrival is handled too early,
  on the copy about to go, and is lost (`FlagFate.FlagChangeLost`). Otherwise the snapshots are equal, flags included
  (`FlagFate.FlagsSurvive`). A flush loses nothing exactly when the changes behind re-arrivals in its queue have no
  effect on what comes back (`FlagFate.SiftKeepsFlagsIff`). A whole run loses nothing exactly when, for every message,
  the changes handled too early since its last arrival make no difference to it (`FlagFate.RunKeepsFlagsIff`).
* A client that folds EXISTS, RECENT, FETCH and EXPUNGE stays right about the snapshot in every run in which arrivals
  are above what is listed or pending (`Protocol.ClientMirrors`), and what it knows of a message's flags stays current
  as long as that message is not changed silently (`Protocol.MessageFlagsCurrent`). Ascending arrivals alone are not
  enough, since a flush without EXPUNGE can let a later arrival overtake (`Protocol.OvertakingBreaksMirror`); they are
  enough when no message comes back while its EXPUNGE is pending (`Protocol.EventsAloneMirror`). A run keeps the client
  right after every handled responder exactly when each arrival that brings a message in has a UID above every UID the
  client then knows (`Protocol.RunMirrorsIff`).
* Merging means the same to every client (`Merge.MergePreserves`) and leaves one count of each kind per run
  (`Merge.MergeLeavesOne`). Two FETCH responses of one message are left only around an EXISTS or a response that never
  merges (`Merge.MergeLeavesOneFetch`); an EXISTS that came too early keeps them apart even if it ends up announcing
  enough to be skipped (`Merge.EarlyExistsParts`). Merging panics exactly on a regressing count
  (`Merge.MergePanicsIff`). Flushing never produces one (`Responders.FlushNeverPanics`), nor does any cutting into idle
  bulks (`Idle.BulksNeverPanic`), but in CLOSE, where EXPUNGE is not sent, a flush can (`Protocol.CloseCanPanic`,
  `Closing.CloseCanPanicOnRecent`): exactly when some arrival finds that two messages or more left since the arrival
  before it, or that fewer messages are \Recent than were last announced (`Closing.ClosePanicsIff`).
* `popResponders` says in a comment that it stops at the first expunge. The code does not stop: it holds back expunges
  and the re-arrival of an expunged message, and hands out everything else. The model follows the code.

**Search and selection.** A compiled search key, run on only the parts of a message that its needs bits load, answers as
direct evaluation (`Search.OpExact`, `Search.ApplyExact`), and the needs bits are exact (`Search.NeedsAreExact`).
Evaluation fails exactly when it reaches a SENT key while the Date field does not parse, and otherwise is a plain
condition on the message (`Search.EvalIsCondition`); SEARCH returns exactly the numbers, and UID SEARCH the UIDs, of the
messages that meet it (`Search.SearchIsExact`). Selecting by UID with two binary searches is filtering, as a set is what
SEARCH accepts, and takes exactly the messages between the bounds as written (`Selection.UidSetSelects`); by number, too
(`Selection.NumberSetPicks`). `n:*` with `n` above the last UID resolves to `n` alone (`Selection.OpenRangeAboveLast`),
where section 6.4.8 of RFC 3501 would include the last message; the range reaches the last message exactly when `n` is
not above its UID (`Selection.OpenRangeReachesLastIff`). The model follows the code. Choosing by sequence number goes
through the same 32-bit cut, so that a written multiple of 2^32 becomes number 0; `Selection.SeqRangePanicsIff` says
exactly when that indexes before the list.

**RFC 822 bytes.** `HeaderParser` and `Literal` model the header parser and the helpers that read, set and erase a field
of a message literal. Erase undoes Set byte for byte and Get reads the value back, exactly when a keyed field is
reached, or the header is empty, or its last line is complete and not blank (`HeaderLaws.SetEraseGet`); otherwise Set
writes the field behind the blank line or into an unfinished entry. Erase leaves the colon and the line break of an
empty field behind (`HeaderLaws.EraseLeavesIff`). Get and Erase act on the first entry whose name is the asked one up to
case (`HeaderFields.FieldByName`). Erase changes no field with another name (`HeaderFrame.EraseKeepsOthers`). Nor does
Set, except in a header without any field whose last line is a colon and a CR, where the new line makes parsing fail
(`HeaderFrame.SetKeepsOthers`).

For a one-line boundary, a multipart piece is closed exactly when a line that holds only the boundary follows, by the
first such line, and ends right before that line's line break, unless a boundary string directly follows another
(`Multipart.ClosedByFirstLine`). The scanner takes the place behind a rejected boundary string for the start of a line,
so that in mid-line the second of two closes a piece (`Multipart.DoubleCloses`). On every input the property holds
exactly when the search is never resumed right at a boundary string that ends its line (`Multipart.ClosedRightIff`);
what closes a piece is always a boundary line or such a double (`Multipart.ClosedByLineOrDouble`). The multipart scanner
reads back exactly what the writer wrote (`Multipart.MultipartRoundTrip`). On any input, every part that a boundary line
closes is the input at its offset (`Multipart.ScanLayout`). The rest of the input comes out whole exactly when the
boundary string does not occur in it (`Multipart.TailExactIff`); otherwise what no boundary line closes loses its front,
or all of it when a rejected boundary string ends the input (`Multipart.TailLosesFront`, `Multipart.TailLost`).

**Names and numbers.** Create and Rename keep mailbox names distinct and every superior of a name present, and a rename
changes exactly the prefix of the renamed mailbox and its inferiors (`Hierarchy.Mailboxes.Rename`). Delete keeps the
superiors only of a mailbox without inferiors (`Hierarchy.DeleteKeepsClosedIff`). After that a rename can meet a name
that is held: exactly when some inferior's new name belongs to a mailbox that does not move or moves later (the contract
of `Hierarchy.Mailboxes.Rename`). It can fail in this way although the renamed table would have distinct names, because
inferiors move in descending order (`Hierarchy.RenameBlockedByOrder`). Sequence sets round-trip through printer and
parser, written ranges with `*` in any place are read as they stand (`SeqParse.SpellReads`), and numbers wrap around at
64 bits. Concurrent UIDVALIDITY calls act as if they ran one after the other, under every interleaving of loads and
swaps (`UidValidity.RunsInTurn`), so that values are unique; a call that moves alone ends (`UidValidity.AloneFinishes`).

Clocks, the connector's answers, message storage and library functions (text decoding, date parsing, substring search)
are parameters. A Go panic is the value `None` or a failure status. A `seq` or `map` field stands for a slice or map
that the source updates in place.

## Model

| member | source | states |
|---|---|---|
| `Flags.SetOperationsIgnoreOrder` | imap/flags.go:148-215 | adding or removing a flag set gives the same set whatever order its values are ranged over |
| `Flags.LowerIff` | imap/flags.go:148-166 | two flags share a key exactly when they differ in the case of letters only |
| `Flags.AddListValue` | imap/flags.go:156-166 | adding flags one by one keeps the spelling already present and adds exactly the missing lower-case keys |
| `Flags.RemoveListKeys` | imap/flags.go:205-215 | removing flags one by one removes exactly their lower-case keys |
| `Snapshot.Rank` | internal/state/snapshot_messages.go:41-49 | the position a binary search for a UID ends at: all below it are smaller, the one at it is not |
| `Snapshot.RankSplits` | internal/state/snapshot_messages.go:41-49 | on ascending UIDs a position is before the rank exactly when its UID is smaller, and the UID is listed exactly when it stands at its rank |
| `Snapshot.InsertValid` | internal/state/snapshot_messages.go:70-86 | inserting at the rank keeps UIDs strictly ascending, IDs distinct and `toExpunge` equal to having \Deleted |
| `Snapshot.RemoveValid` | internal/state/snapshot_messages.go:88-107 | removing keeps the list invariant and the message is gone |
| `Snapshot.SetFlagsValid` | internal/state/snapshot.go:89-104 | setting flags keeps the list invariant, `toExpunge` included |
| `Snapshot.AppendIsInsert` | internal/state/snapshot_messages.go:51-68 | for a UID above the last one the strict append and the insert at the rank are the same |
| `SnapshotList.SnapMsgList.BinarySearchByUID` | internal/state/snapshot_messages.go:41-49 | returns the rank of the UID and whether it is listed |
| `SnapshotList.SnapMsgList.IndexedIffListed` | internal/state/snapshot_messages.go:24-32 | the index holds an ID exactly when it is listed, and leads to the object at its position |
| `SnapshotList.SnapMsgList.Insert` | internal/state/snapshot_messages.go:51-68 | succeeds exactly on a UID above the last one; the list then ends with the new message, and otherwise is unchanged |
| `SnapshotList.SnapMsgList.InsertOutOfOrder` | internal/state/snapshot_messages.go:70-86 | fails (the panic) exactly on a listed UID; otherwise the message stands at its rank and all others keep their order |
| `SnapshotList.SnapMsgList.Remove` | internal/state/snapshot_messages.go:88-107 | removes exactly the message with the ID, from list and index, or reports that it is not there |
| `SnapshotList.SnapMsgList.Update` | internal/state/snapshot_messages.go:109-118 | changes the remote ID of exactly that message |
| `SnapshotList.SnapMsgList.SetMessageFlags` | internal/state/snapshot.go:89-104 | sets the flags, keeping a \Recent already there, and `toExpunge` follows \Deleted |
| `SnapshotList.SnapMsgList.Get` | internal/state/snapshot_messages.go:168-183 | finds an ID exactly when listed and gives its sequence number: the inverse of the lookup by number |
| `SnapshotList.SnapMsgList.GetWithSeqID` | internal/state/snapshot_messages.go:256-268 | finds the message at a number exactly for 1 up to the length, and indexes out of range exactly for 0 on a non-empty list |
| `SnapshotList.SnapMsgList.RecentMessages` | internal/state/snapshot.go:216-222 | counts the messages with \Recent |
| `Merge.AppendOrMergeItem` | internal/response/merge.go:53-76 | replaces the first item of the same kind, or appends |
| `Merge.MergeFetchItems` | internal/response/fetch.go:58-69 | the loop that merges one FETCH's items into another's |
| `Merge.AppendOrMergeResponse` | internal/response/merge.go:24-51 | walks back over what may be skipped to the first response that merges, or appends; None is the panic |
| `Merge.MergeResponses` | internal/response/merge.go:3-22 | the loop over all responses, stopping at a panic |
| `Merge.SkipCommutes` | internal/response/fetch.go:39-56 | a response and one it may skip can be read in either order by every client, and both orders are legal |
| `Merge.FitFuses` | internal/response/exists.go:42-56 | two responses that merge mean the same to every client as their merge |
| `Merge.MergePreserves` | internal/response/merge.go:3-76 | for every client and every legal stream, the merged stream is legal, leaves the client in the same state, and keeps the responses that never merge in order |
| `Merge.MergeLeavesOne` | internal/response/merge.go:24-51 | between two responses that never merge at most one EXISTS and one RECENT are left, and the list does not grow |
| `Merge.MergeLeavesOneFetch` | internal/response/fetch.go:39-69 | two FETCH responses of one number are left only with an EXISTS or a response that never merges between them, and only with the latter when every EXISTS announces more than that number |
| `Merge.EarlyExistsParts` | internal/response/fetch.go:39-56 | two FETCH responses stay apart although what is left between them may be skipped, because the EXISTS was smaller when the second came |
| `Merge.MergePanicsIff` | internal/response/recent.go:40-54 | merging panics exactly when some EXISTS or RECENT count is smaller than the last of its kind in the same run of mergeable responses |
| `Responders.HandleAllConcat` | internal/state/state.go:756-769 | handling two batches one after the other is handling their concatenation, failures included |
| `Responders.HandleAllValid` | internal/state/responders.go:95-379 | every batch keeps the snapshot invariant, also when it fails midway |
| `Responders.HandleAllTracks` | internal/state/responders.go:95-379 | what a batch does to each message's presence and UID is decided by the responders for that message alone |
| `Responders.HandleAllSucceeds` | internal/state/responders.go:95-117 | when each UID belongs to one message and the session has no arrivals of its own, no batch fails |
| `Responders.HandleGrows` | internal/state/responders.go:314-379 | outside EXPUNGE no responder lowers the number of messages or of \Recent messages |
| `Responders.FlagChangeMeaning` | internal/state/responders.go:314-379 | a flag change alters only its message, each flag as add, remove or set says, except that \Recent is not lost and \Deleted not touched from another mailbox; it is told exactly unless silent or without effect |
| `Responders.ArrivalMeaning` | internal/state/responders.go:100-106 | a new message has the flags it came with, \Recent only in the target session |
| `Responders.FlushNeverPanics` | internal/state/responders.go:119-131 | outside CLOSE, merging the responses of any batch on any valid snapshot does not panic |
| `Responders.ExistsRise` | internal/state/responders.go:119-131 | outside CLOSE, EXISTS counts strictly increase between two EXPUNGE responses |
| `State.AnnounceArrival` | internal/state/responders.go:119-131 | EXISTS with the new length, and RECENT with its count when not zero |
| `State.InsertArrival` | internal/state/responders.go:95-117 | own arrivals take the strict insert and others the insert at the rank; only the target keeps \Recent; a failure changes nothing |
| `State.HandleTargetedExists` | internal/state/responders.go:95-135 | on the live list, does what the value-level handler says: snapshot, responses and failure |
| `State.HandleExpungeMsg` | internal/state/responders.go:255-275 | removes the message and reports its number before removal, silently in CLOSE; nothing for an unknown message |
| `State.HandleFetchFlags` | internal/state/responders.go:314-379 | applies add, remove or set, protects \Deleted across mailboxes, and reports only a change that is not silent |
| `State.HandleResponder` | internal/state/responders.go:95-379 | the three handlers on the live list agree with the value-level step |
| `State.State.QueueResponder` | internal/state/state.go:813-817 | appends to the pending queue |
| `State.State.PopResponders` | internal/state/state.go:824-854 | hands out and keeps exactly the two parts of the sift, each in order |
| `State.State.HandleEach` | internal/state/state.go:756-769 | handles in order up to the first failure and leaves the snapshot as it then is |
| `State.State.FlushResponses` | internal/state/state.go:744-784 | the popped responders are handled and the responses merged; outside CLOSE there is no panic, and a success is one step of the session's state machine |
| `State.State.PushResponder` | internal/state/state.go:786-811 | queues, or while idling handles at once and sends unmerged; a success is one step of the state machine |
| `State.State.BeginIdle` | internal/state/state.go:686-697 | flushes with EXPUNGE permitted and starts idling only if that succeeded |
| `State.State.EndIdle` | internal/state/state.go:699-703 | stops idling and changes nothing else |
| `Deferral.SiftLosesNothing` | internal/state/state.go:824-854 | for every message, handling the popped part and later the kept part ends as handling the queue in order |
| `Deferral.SiftParts` | internal/state/state.go:833-849 | the popped part holds no expunge, the kept part no FETCH, and nothing is invented |
| `Deferral.SiftIdempotent` | internal/state/state.go:824-854 | a second flush without EXPUNGE pops nothing and keeps the same queue |
| `Deferral.RunKeepsFate` | internal/state/state.go:744-811 | in every run, snapshot plus pending queue account for every responder that arrived |
| `Deferral.SameMembersSameList` | internal/state/snapshot_messages.go:41-86 | snapshots with the same members and UIDs are the same list, position by position |
| `Deferral.DeferralIsInvisible` | internal/state/state.go:824-854 | a run that has handled everything leaves the same messages with the same UIDs at the same numbers as handling all arrivals in order |
| `Deferral.RunSucceeds` | internal/state/responders.go:95-117 | with one message per UID and no own arrivals, every run succeeds |
| `Deferral.ForeignRunsConverge` | internal/state/state.go:744-854 | such runs, ended by a flush, always succeed and always equal in-order handling |
| `Deferral.StrictInsertCanFailAfterDeferral` | internal/state/responders.go:110-115 | own arrivals: a message expunged and put back, then another arrival, succeeds in order but fails after deferral |
| `Deferral.BatchSucceedsIff` | internal/state/snapshot_messages.go:51-86 | a batch succeeds exactly when each new arrival, at its turn, meets no equal UID (from others) or no equal or larger UID (its own) |
| `Deferral.RunFollowsPlan` | internal/state/state.go:744-854 | a run is the handling of one sequence of responders that the queue and the steps fix in advance |
| `Deferral.RunSucceedsIff` | internal/state/state.go:744-854 | a run succeeds exactly when every arrival fits at its turn in that sequence |
| `FlagFate.HandleAllTraces` | internal/state/responders.go:95-379 | what a batch makes of a whole message, flags included, is decided by the responders for that message alone |
| `FlagFate.SiftMissesBehind` | internal/state/state.go:824-854 | for every message, in-order handling is the popped part, then the kept part, then the flag changes that stood behind its waiting re-arrival |
| `FlagFate.SiftKeepsFlagsIff` | internal/state/state.go:824-854 | popping and keeping leave every message as in-order handling does, flags included, exactly when the changes behind re-arrivals have no effect on what comes back |
| `FlagFate.FlagsSurvive` | internal/state/state.go:744-854 | a run whose flushes without EXPUNGE all find such queues, and that has handled everything, leaves the very snapshot of in-order handling |
| `FlagFate.NothingBehindHarmless` | internal/state/state.go:824-854 | a queue with no flag change behind a re-arrival is such a queue |
| `FlagFate.RunKeepsFlagsIff` | internal/state/state.go:744-854 | every run that has handled everything leaves the very snapshot of in-order handling exactly when, for every message, the flag changes handled too early since its last arrival make no difference to it |
| `FlagFate.FlagsSurviveIff` | internal/state/state.go:744-854 | for one flush without EXPUNGE after harmless steps, with nothing pushed later, the queue it found decides this alone |
| `FlagFate.FlagChangeLost` | internal/state/state.go:846-848 | expunge, re-arrival and an effective flag change: the change lands on the copy about to go and the final flags differ |
| `Mirror.HandleAllSeen` | internal/state/responders.go:95-379 | outside CLOSE every batch yields responses that are legal for a client with the right count, and keeps the count right |
| `Mirror.HandleMirrors` | internal/state/responders.go:95-379 | a responder whose arrival lands at the end keeps every known UID at its number, and known flags current unless silent |
| `Mirror.HandleKeepsFlags` | internal/state/responders.go:95-379 | only a silent change of the message itself can leave the client with flags that are not current |
| `Mirror.ArrivalMirrorsIff` | internal/state/snapshot_messages.go:70-86 | an arrival keeps a right client right exactly when the client knows no UID at or above the insert position |
| `Mirror.BatchMirrorsIff` | internal/state/responders.go:95-379 | a batch keeps the client right after every responder exactly when each arrival that brings a message in has a UID above every UID the client then knows |
| `Protocol.NoExpungeWhenNotPermitted` | internal/state/state.go:744-784 | a flush without EXPUNGE never sends one, for any queue |
| `Protocol.NumbersKeptIff` | internal/state/state.go:744-854 | such a flush keeps every sequence number exactly when all messages it brings in have UIDs above the snapshot's |
| `Protocol.SentSaysAll` | internal/state/state.go:756-783 | the merged responses tell the client exactly what the handled responders said |
| `Protocol.AboveAppends` | internal/state/responders.go:95-117 | arrivals above everything listed never fail, whichever insert they take, and land at the end |
| `Protocol.FreshStep` | internal/state/state.go:744-811 | a step with fresh UIDs succeeds and leaves what is pending above the snapshot |
| `Protocol.ClientMirrors` | internal/state/state.go:744-811 | in every run with fresh UIDs nothing fails and every UID the client knows is at the number the client believes |
| `Protocol.MessageFlagsCurrent` | internal/state/responders.go:314-379 | in every run with fresh UIDs, the flags the client knows of a message are current as long as no silent change of that message arrives |
| `Protocol.ClientFlagsCurrent` | internal/state/responders.go:314-379 | if nothing was stored silently, every flag list the client knows is current |
| `Protocol.RunMirrorsIff` | internal/state/state.go:744-811 | in every run, with answers to FETCH in between, the client stays right after every handled responder exactly when each arrival that brings a message in is above every UID the client then knows |
| `Protocol.NoReturnNoOvertaking` | internal/state/state.go:833-849 | when no message arrives behind an EXPUNGE of it, only expunges are held back and no arrival overtakes another |
| `Protocol.EventsAloneMirror` | internal/state/state.go:744-854 | arrivals that ascend from above the snapshot, none of a message whose EXPUNGE is pending: nothing fails and the client is right |
| `Protocol.OvertakingBreaksMirror` | internal/state/state.go:833-849 | ascending arrivals are not enough: a run in which a deferred re-arrival is overtaken and the client ends up wrong |
| `Protocol.CloseCanPanic` | internal/state/responders.go:263-275 | in CLOSE, an arrival, two expunges and an arrival announce three messages and then two, and merging panics |
| `Closing.ClosePanicsIff` | internal/state/responders.go:255-275 | in CLOSE, merging panics exactly when, at an arrival that brings a message in, two messages or more left since the arrival before it, or the non-zero number of \Recent messages is below the last one announced; snapshot and queue decide this message by message |
| `Closing.CloseCanPanicOnRecent` | internal/state/responders.go:269-272 | one unannounced EXPUNGE of a \Recent message between two arrivals is enough |
| `Idle.SendInBulks` | internal/session/handle_idle.go:97-120 | wherever the ticker cuts, the merged bulks tell every client what the responses told, and do not panic when the whole stream would not |
| `Idle.PieceMerges` | internal/session/handle_idle.go:89-95 | a contiguous piece of a stream that merges without a panic merges without a panic |
| `Idle.BulksNeverPanic` | internal/session/handle_idle.go:89-120 | no bulk of what a session's responders produce makes Merge panic |
| `RecentTarget.ExistsStateUpdate.Apply` | internal/state/responders.go:199-225 | sets the target if there is none and hands the session one responder with it for each new message |
| `RecentTarget.TargetFixed` | internal/state/responders.go:174-225 | whatever order sessions apply the update in, the target is the origin or the first applier, for all of them |
| `RecentTarget.ShowsRecentIff` | internal/state/responders.go:100-117 | a session shows the new message as \Recent exactly when it is the target and the message has the flag |
| `RecentTarget.OnlyTargetSeesRecent` | internal/state/responders.go:95-225 | of all sessions that apply one update, exactly the target shows as \Recent those of its messages that came with the flag |
| `Selection.FilterIsRun` | internal/state/snapshot_messages.go:215-242 | filtering by a UID interval is the run of numbers between two ranks |
| `Selection.UidRange` | internal/state/snapshot_messages.go:215-242 | two binary searches give the numbers a filter gives; the slice panics exactly on bounds in the wrong order with a message between them |
| `Selection.GetWithUid` | internal/state/snapshot_messages.go:244-254 | the filter for a single UID |
| `Selection.ResolveUidInterval` | internal/state/snapshot_messages.go:324-370 | each range becomes an ordered interval; in an empty mailbox nothing resolves |
| `Selection.GetMessagesInUidRange` | internal/state/snapshot_messages.go:426-453 | the per-interval filters one after the other; nothing in an empty mailbox |
| `Selection.SelectionMatchesSearch` | internal/state/mailbox_search.go:704-721 | as a set, the selection is exactly what the SEARCH UID test accepts |
| `Selection.OpenRangeAboveLast` | internal/state/snapshot_messages.go:349-368 | `n:*` and `*:n` with n above the last UID resolve to n alone and select nothing |
| `Selection.OpenRangeReachesLastIff` | internal/state/snapshot_messages.go:343-359 | `n:*` selects the last message exactly when n is not above its UID |
| `Selection.GetMessagesInSeqRange` | internal/state/snapshot_messages.go:398-424 | the ranges one after the other, up to the first that names no message or indexes before the list |
| `Selection.PickRange` | internal/state/snapshot_messages.go:406-421 | a lookup for a single number and a slice otherwise, with the 32-bit lower index of the slice |
| `Selection.ResolveOneRange` | internal/state/snapshot_messages.go:277-322 | orders the bounds after cutting them to 32 bits, with the asterisk as the length |
| `Selection.PickAllStopsIff` | internal/state/snapshot_messages.go:406-421 | the outcome is that of the first range that picks nothing, and success means every range picks |
| `Selection.SeqRangePanicsIff` | internal/state/snapshot_messages.go:377-424 | choosing by number panics exactly when some range with a number that 32 bits cut to 0 ends inside a non-empty list and every range before it lies inside it |
| `Selection.PickedMatchesSearch` | internal/state/mailbox_search.go:773-790 | what is chosen by number is, as a set, what the SEARCH test for sequence numbers accepts |
| `Selection.UidBounds` | internal/state/snapshot_messages.go:324-396 | below 2^32, `n:m` holds the UIDs from the smaller to the larger in either order, `*` the last UID alone, and `n:*` and `*:n` n itself and those from n to the last |
| `Selection.NumberBounds` | internal/state/snapshot_messages.go:270-383 | the same for sequence numbers, with the number of messages for the asterisk |
| `Selection.RangeMeaning` | internal/state/snapshot_messages.go:324-396 | any range of UIDs contains exactly what lies between its written bounds, cut to 32 bits |
| `Selection.NumberRangeMeaning` | internal/state/snapshot_messages.go:270-383 | any range of sequence numbers, too |
| `Selection.UidSetSelects` | internal/state/snapshot_messages.go:426-453 | a UID set selects exactly the numbers of the messages whose UID lies between the written bounds of one of its ranges |
| `Selection.NumberSetPicks` | internal/state/snapshot_messages.go:398-424 | choosing by number succeeds exactly when every written range lies inside the list, and picks exactly the numbers between the written bounds |
| `Search.OpExact` | internal/state/mailbox_search.go:158-831 | for every key tree and message, the compiled operation on only what its needs bits load equals direct evaluation on the whole message, errors and short-circuits included |
| `Search.BuildFailsIff` | internal/state/mailbox_search.go:158-790 | a key tree fails to build exactly when it holds a text that cannot be decoded or, in an empty mailbox, a UID set |
| `Search.NeedsAreExact` | internal/state/mailbox_search.go:158-207 | the needs bits ask for a part exactly when some key of the tree reads it |
| `Search.EvalIsCondition` | internal/state/mailbox_search.go:343-831 | evaluation fails exactly when it reaches a SENT key while Date does not parse, and otherwise is the plain condition that each key stands for: flags, texts, dates, sizes, written ranges, AND, OR and NOT |
| `Search.LeafIsCondition` | internal/state/mailbox_search.go:343-790 | the same for each key that is not built from others |
| `Search.ListReachesIff` | internal/state/mailbox_search.go:811-827 | a list reaches a SENT key exactly when one of its keys does and all keys before that one matched |
| `Search.ApplyFailsIff` | internal/state/mailbox_search.go:86-137 | searching a message fails exactly when something its keys need cannot be loaded or evaluation reaches a SENT key without a Date |
| `Search.UidSetExact` | internal/state/mailbox_search.go:704-721 | the UID test accepts exactly the UIDs in some range of the set |
| `Search.ApplyExact` | internal/state/mailbox_search.go:86-137 | searching a message fails exactly when something its keys need cannot be loaded, and otherwise is direct evaluation |
| `Search.SearchMailbox` | internal/state/mailbox_search.go:26-84 | in whatever order messages are tried, the result is the numbers of the matches, or an error some message has |
| `Search.MatchingAscends` | internal/state/mailbox_search.go:57-83 | numbers and UIDs come out ascending |
| `Search.SearchIsExact` | internal/state/mailbox_search.go:26-137 | whenever no message makes the search fail, a non-zero n is returned exactly when the keys hold of some message that has n as its position, or as its UID in UID SEARCH |
| `SeqSet.NewSeqSet` | imap/seqset.go:36-54 | the loop builds the ranges of the sorted numbers |
| `SeqSet.BuildExpands` | imap/seqset.go:16-54 | the ranges stand for exactly the numbers put in, in order and with repetitions |
| `SeqSet.SeqSetCompact` | imap/seqset.go:36-54 | for distinct numbers in any order no two neighbouring ranges can be combined |
| `SeqSet.BuildCompact` | imap/seqset.go:16-54 | the same for numbers already strictly ascending, and the last range ends at the last number |
| `SeqParse.Parser.Advance` | rfcparser/parser.go:408-421 | moves one token on, and at the end of the input stays there |
| `SeqParse.Parser.Matches` | rfcparser/parser.go:397-406 | consumes the token exactly when it has the type |
| `SeqParse.Parser.ParseNumber` | rfcparser/parser.go:253-273 | reads the longest run of digits, accumulating in 64 bits, or fails without one |
| `SeqParse.DigitsWrap` | rfcparser/parser.go:258-268 | the accumulated value is the number the digits stand for, wrapped to 64 bits |
| `SeqParse.NumberExactIff` | rfcparser/parser.go:253-273 | the parsed number is the value of its digits exactly when that is below 2^63 |
| `SeqParse.Parser.ParseSeqNumber` | imap/command/seq_set.go:34-60 | reads `*` or a number that is positive after any wrap-around |
| `SeqParse.SeqNumberMeaning` | imap/command/seq_set.go:34-60 | parses exactly on `*`, which gives the asterisk value, and on digits whose value is positive after any wrap-around, which give that value |
| `SeqParse.Parser.ParseSeqRange` | imap/command/seq_set.go:62-86 | reads one number or two joined by a colon |
| `SeqParse.Parser.ParseSeqSet` | imap/command/seq_set.go:88-117 | reads the longest comma-separated list, failing on a comma without a range |
| `SeqParse.PrintSet` | imap/seqset.go:56-64 | joins the printed ranges with commas |
| `SeqParse.PrintReads` | imap/command/seq_set.go:34-117 | what was printed parses back to the same ranges, whatever text follows |
| `SeqParse.SpellReads` | imap/command/seq_set.go:9-117 | any set of asterisks and positive numbers below 2^63, alone or in pairs of either order, is read as exactly its ranges, whatever text follows |
| `SeqParse.SeqSetRoundTrip` | imap/seqset.go:16-64 | printing any non-empty list of numbers and parsing it gives ranges that stand for exactly the list, sorted, and as few as can be when the numbers are distinct |
| `UidValidity.EpochUIDValidityGenerator.Generate` | imap/uid_validity_generator.go:28-59 | alone it returns the larger of the time and the last value plus one, and fails without a change exactly when the time or the last value has no successor in 32 bits; the bump loop ends |
| `UidValidity.RunConsistent` | imap/uid_validity_generator.go:28-59 | under every interleaving of loads and swaps the committed values ascend strictly from above zero, inside 32 bits |
| `UidValidity.ValuesAreUnique` | imap/uid_validity_generator.go:28-59 | no two concurrent calls return the same value and none returns zero |
| `UidValidity.RunsInTurn` | imap/uid_validity_generator.go:28-59 | under every interleaving each committed value is the larger of that call's time and the value before it plus one, as if the calls ran one after the other, and a call fails only when its time or the cell is at the end |
| `UidValidity.AloneFinishes` | imap/uid_validity_generator.go:38-58 | from any state, a call that moves alone for 2^32 + 4 steps or more has returned or failed |
| `Multipart.ByteScanner.constructor` | rfc822/scanner.go:18-27 | skips everything up to the first boundary line |
| `Multipart.ByteScanner.ReadToBoundary` | rfc822/scanner.go:84-153 | finds the next boundary line from the current position, passing over rejected boundary strings |
| `Multipart.ByteScanner.ScanAll` | rfc822/scanner.go:29-45 | collects the parts with their offsets, and ends |
| `Multipart.ScanLayout` | rfc822/scanner.go:29-153 | on any bytes and boundary, parts are inside the input and in order, each ends before the next, and every part closed by a boundary line, the last one too, is the input at its offset |
| `Multipart.TailExactIff` | rfc822/scanner.go:91-98 | from any position, the rest of the input comes out as one part, whole and at its offset, exactly when the boundary string does not occur in it |
| `Multipart.TailLosesFront` | rfc822/scanner.go:92-110 | such a part for which it is not: its front is missing |
| `Multipart.TailLost` | rfc822/scanner.go:91-153 | nothing of it comes out when a rejected boundary string ends the input |
| `Multipart.ClosedByFirstLine` | rfc822/scanner.go:47-153 | unless a boundary string directly follows another, the next piece is closed exactly when a line with only the boundary follows, by the first such line; it ends right before that line's break, and reading goes on behind the line unless it has the closing dashes, which may end the input |
| `Multipart.ClosedRightIff` | rfc822/scanner.go:47-153 | on every input, with a one-line boundary, the piece is closed by the first boundary line, and only by one, exactly when the search is never resumed right at a boundary string that ends its line |
| `Multipart.ClosedByLineOrDouble` | rfc822/scanner.go:47-153 | for every input, a boundary line closes the piece there or earlier, and what else closes it directly follows a boundary string |
| `Multipart.DoubleCloses` | rfc822/scanner.go:47-81 | in mid-line the second of two boundary strings closes a piece although no line holds a boundary alone |
| `Multipart.MultipartWriter.AddPart` | rfc822/writer.go:18-30 | appends boundary line, part and line break, or nothing when the part cannot be produced |
| `Multipart.MultipartWriter.Done` | rfc822/writer.go:32-38 | completes the text of all parts added so far |
| `Multipart.MultipartRoundTrip` | rfc822/scanner.go:18-153 | for a one-line boundary that no part contains, scanning the written text returns exactly the parts, in order, each at its place |
| `HeaderParser.HeaderParser.FindValueEnd` | rfc822/header_parser.go:114-150 | finds the line break that no fold follows, the end of the header, or the broken line break |
| `HeaderParser.HeaderParser.CollectValue` | rfc822/header_parser.go:106-159 | skips blanks, takes the value up to its end and moves there |
| `HeaderParser.HeaderParser.AfterColon` | rfc822/header_parser.go:35-86 | the branches on what follows the colon: value, fold, empty field or error |
| `HeaderParser.HeaderParser.Next` | rfc822/header_parser.go:18-160 | the next entry, the end, or an error |
| `HeaderParser.NextAdvances` | rfc822/header_parser.go:18-160 | on any bytes, a successful step moves on, and its key and value are inside the header, in order, from where it started |
| `HeaderParser.EntriesInOrder` | rfc822/header.go:55-90 | all entries lie inside the header, ascend and do not overlap |
| `HeaderParser.NewHeader` | rfc822/header.go:47-93 | collects all entries or the first error, and the index leads from each lower-case key to exactly its entries, in order |
| `Literal.Split` | rfc822/parser.go:193-215 | header and body make up the literal and the header ends where the line scan stops |
| `Literal.SplitAtFirstBlankLine` | rfc822/parser.go:193-215 | the cut is right after the first blank line, or at the end when there is none, and nowhere else |
| `Literal.FindEntry` | rfc822/header.go:343-360 | the first entry that is wanted, the first error before it, or nothing |
| `Literal.MergeMultiline` | rfc822/header.go:461-493 | the loop that unfolds a value |
| `Literal.MergedOnOneLine` | rfc822/header.go:461-493 | an unfolded value has no line feed |
| `Literal.SetHeaderValue` | rfc822/header.go:333-377 | inserts the field before the first keyed entry, or after the header |
| `Literal.GetHeaderValue` | rfc822/header.go:380-407 | the unfolded value of the first entry with the key, or nothing |
| `Literal.EraseHeaderValue` | rfc822/header.go:410-453 | cuts out the first entry with the key, or returns the literal |
| `HeaderLaws.SameNext` | rfc822/header_parser.go:18-160 | an entry depends on the header only up to its end and on whether a fold follows |
| `HeaderLaws.InsertSplits` | rfc822/parser.go:193-215 | Split commutes with inserting a line before a field |
| `HeaderLaws.CanonicalFolds` | rfc822/header.go:362-363 | the canonical form of a key differs only in case, so Get and Erase find it |
| `HeaderLaws.SetEraseGet` | rfc822/header.go:333-453 | for a printable colon-free key and a value without line breaks, Erase undoes Set exactly on the settable literals; there Get returns the trimmed value, elsewhere nothing, or an error exactly when the header's last line is a colon and a CR |
| `HeaderLaws.SetOnHeaderlessMessage` | rfc822/header.go:365-367 | a message whose header is only the blank line: the field goes to the body and Get does not find it |
| `HeaderLaws.EntryCoversIff` | rfc822/header_parser.go:64-76 | an entry's recorded end is where parsing goes on exactly when the entry is not an empty field |
| `HeaderLaws.EraseLeavesIff` | rfc822/header.go:444-450 | Erase removes the whole field exactly when it is not an empty field |
| `HeaderFields.FieldBytes` | rfc822/header_parser.go:35-160 | a field read off its bytes: the key is printable ASCII up to the first colon, the value runs from the first byte that is not blank to the first line break that no blank follows, and each error has its exact cause |
| `HeaderFields.NoFieldBytes` | rfc822/header_parser.go:18-104 | a line without a colon is an entry without a key, and a header that ends at the colon or before it has no key |
| `HeaderFields.ValueEndIff` | rfc822/header_parser.go:114-150 | a value ends exactly behind the first line break that no blank follows, or at the end, when every CR in it has its line feed |
| `HeaderFields.ValueBrokenIff` | rfc822/header_parser.go:114-150 | a value is broken exactly when it holds a CR without a line feed, at the end of the header or before it |
| `HeaderFields.FieldByName` | rfc822/header.go:380-453 | Get is the unfolded value, and Erase the cut from key to value, of the entry at the least index whose non-empty key equals the asked one up to case; without one both fail with the header's parse error, or Get is empty and Erase changes nothing |
| `HeaderFields.SetPlace` | rfc822/header.go:333-377 | the new line goes right before the first entry with a key, or behind the header; without one a header that does not parse fails |
| `HeaderFields.CanonicalCase` | rfc822/header.go:362-363 | a canonical key of token bytes differs only in case and has capitals exactly at the start and behind each dash |
| `HeaderFields.UnfoldsLine` | rfc822/header.go:461-493 | each line of a value is trimmed and followed by one space unless it is the last, and an empty line leaves nothing, with either line break |
| `HeaderFields.TrimSpaceIs` | rfc822/header.go:461-493 | trimming keeps the text between its first and last byte that is not white space |
| `HeaderFrame.GetSameAhead` | rfc822/header_parser.go:18-160 | what Get finds from a position on depends only on the text from there on |
| `HeaderFrame.GetSameBefore` | rfc822/header_parser.go:18-160 | headers that agree up to an entry and read alike behind it read alike |
| `HeaderFrame.CutSplits` | rfc822/parser.go:193-215 | Split commutes with cutting out a field |
| `HeaderFrame.SetKeepsOthers` | rfc822/header.go:333-407 | Set leaves the value of every field with another name, exactly unless the header has no field and its last line is a colon and a CR; then reading fails |
| `HeaderFrame.EraseKeepsOthers` | rfc822/header.go:380-453 | Erase leaves the value of every field with another name, for every literal |
| `Hierarchy.ListSuperiors` | internal/state/paths.go:12-33 | exactly the names that the given name continues after a delimiter, shortest first |
| `Hierarchy.ListInferiors` | internal/state/paths.go:35-45 | exactly the inferiors, each once, in descending order and so before any of their own superiors |
| `Hierarchy.Mailboxes.MissingSuperiors` | internal/state/state.go:370-382 | the superiors that do not exist, or a stop when the renamed mailbox is one of the superiors |
| `Hierarchy.Mailboxes.Create` | internal/state/state.go:250-308 | its result for every name; on success exactly the mailbox and its missing superiors are new; names stay distinct and superiors present |
| `Hierarchy.Mailboxes.MoveInferiors` | internal/state/state.go:414-438 | moves exactly the inferiors, and meets a held name exactly when some inferior's new name belongs to a mailbox that does not move or moves later |
| `Hierarchy.Mailboxes.Rename` | internal/state/state.go:341-442 | its result for every pair of names, the exact condition for a name conflict included; the same mailboxes keep their identity and change exactly the prefix; INBOX stays and the new name is created; a failure changes nothing; names stay distinct and superiors present |
| `Hierarchy.GrownClosed` | internal/state/state.go:284-305 | adding a name with its superiors keeps every superior present |
| `Hierarchy.TrimmedIs` | internal/state/state.go:274-276 | the created name is the longest prefix that does not end in the delimiter, and only delimiters are cut off |
| `Hierarchy.HeldIff` | internal/state/state.go:423-438 | with inferiors moved in descending order, the next one's new name is held exactly when its holder does not move or moves later |
| `Hierarchy.ClosedNotBlocked` | internal/state/state.go:423-438 | when every superior exists, no inferior's new name is held |
| `Hierarchy.MovedClosed` | internal/state/state.go:402-438 | moving a subtree keeps every superior present |
| `Hierarchy.DeleteKeepsClosedIff` | internal/state/actions.go:63-74 | deleting keeps every superior present exactly when the mailbox has no inferiors |
| `Hierarchy.RenameBlockedByOrder` | internal/state/paths.go:40-42 | renaming "a/b" to "a" beside "a/b/b/a" and "a/b/a" meets a held name although the renamed table has distinct names |
| `Hierarchy.RenameOntoOrphan` | internal/state/state.go:423-438 | when an inferior's new name belongs to a mailbox that does not move, the superiors are incomplete and no renamed table has distinct names |

## Left out

- SnapshotList.SnapMsgList.Insert: is stated for an ID that is not listed; its callers ask first, and the list would hold the ID twice otherwise.
- SnapshotList.SnapMsgList.InsertOutOfOrder: the same.
- Search.SearchMailbox: which failing message's error is reported is left open, as it depends on the workers' order.
- Search keys: the loop over a key list builds closures and is modelled by recursion, because closures cannot be compared.
- Hierarchy: delimiters of several characters, under which splitting is not aligned with prefixes, mailbox limits, and connector errors, which roll the transaction back.
- Hierarchy.Mailboxes.Rename: moving INBOX's messages to the new mailbox; the reserved recovery name is compared up to ASCII case only, without Unicode folding.
- Hierarchy.Mailboxes.Create: the reserved recovery name is compared up to ASCII case only.
- Hierarchy.ListSuperiors: one-character delimiters only.
- Hierarchy.ListInferiors: is stated for names without repetitions, which the unique name column gives.
- Literal.MergeMultiline: trims ASCII white space only.
- Literal.GetHeaderValue: compares keys up to ASCII case only.
- Literal.EraseHeaderValue: compares keys up to ASCII case only.
- Selection.SeqRangePanicsIff: is stated for fewer than 2^32 - 1 messages, below which the 32-bit slice index cannot meet the end of the list.
- Selection.PickedMatchesSearch: the same.
- HeaderFields.FieldByName: names are compared up to ASCII case only.
- HeaderFrame.SetKeepsOthers: is stated for a printable colon-free key and a value without line breaks, as only those make one field; names are compared up to ASCII case only.
- HeaderFrame.EraseKeepsOthers: names are compared up to ASCII case only.
- Multipart.ClosedRightIff: boundaries that contain a line break byte, which section 5.1.1 of RFC 2046 does not allow, are not covered.
- Multipart.ClosedByFirstLine: the same.
- Multipart.ClosedByLineOrDouble: the same.
- HeaderLaws.SetEraseGet: keys are compared and trimmed as ASCII; Unicode case folding and white space are not modelled.
- HeaderParser.HeaderParser.Next: where the parser stands after an error is not stated; its callers stop there.
- Merge: a FETCH that absorbs another is updated in place in the source; the model returns a new value and does not capture other holders of the object. A FETCH that names its flags or UID twice is not a legal response.
- Responders: the database updates that clear \Recent, and context cancellation.
- Database, store and connector: SQL, migrations, on-disk messages; agreement of database and snapshot across sessions.
- COPYUID pairing, Header.Set and Header.Del on the entry list, LIST patterns, RFC 5322 addresses and dates, envelopes and body structures.
- Session input and output, TLS, timers, logging, metrics, limits.
