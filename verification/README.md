# Verified model of the Tnm and Tkined cores

This project models the stateful cores of scotty, a network management system made of the Tnm
library (maps of network items, a job scheduler, the SMX script interface, name services) and the
Tkined map editor, and proves what they promise.

| files | what they model |
|---|---|
| Vectors, TnmVector | sequences of pointers, and the growable vector of tnmUtil.c that implements them |
| Graph | the shape both object graphs share: parents, link ends and their reverse vectors, in an explicit heap |
| CNumbers | integer division of C |
| MapGraph, MapDelete, MapRuns, MapCreate, TnmMap | the item graph of a Tnm map: create, configure, destroy, and every run of these |
| MapDump | dumping a map and copying items |
| MapNames, MapScript, MapReplay, MapReplayCases | the names of items, the commands of a dump, and what loading a dump makes of them |
| MapHealth | messages and the health of an item |
| JobSpec, JobRuns, JobControl | the job scheduler |
| InedLines, InedProtocol | the line protocol between tools and the editor |
| SmxCodec, SmxBuffers, SmxReply | the strings and replies of the SMX protocol |
| TkiGraph, TkiTable | the editor's table of objects: groups, links and deletion |
| LinkEnd, Stripchart | where a link meets a network, and the value buffer of a stripchart |
| IpRange | the host addresses of an IPv4 network |

Structures that C links by pointers and frees are kept in a map from addresses to records, a field of
the object that owns them; freeing removes the address. Every read through a pointer is thereby
shown to meet a live record, which objects of the language itself could not express. Where the source
runs loops over lists and buffers, so do the methods here, each proved against a function or a
transition relation whose properties are the lemmas below.

Names that Tcl resolves to commands are given as the addresses behind them, except where a dump is
loaded and the names are the point. Times, script outcomes, the completeness test of Tcl commands and
the bytes a read delivers are parameters. Numbers are unbounded integers or reals except where the
width matters: addresses of IpRange, bytes and printed numbers of the SMX modules.

Seven properties one might expect do not hold of the code. For each there is the condition under which
it does hold, both ways, and an input for which it does not:

- A refused create leaves the map as it was if and only if one of its options is not in the table of the
  type, or those it set before the refusal give no end and end without a parent (`FailedCreateSound`,
  `UnknownOptionHarmless`); otherwise freed items stay mentioned (`FailedCreateDangles`).
- Loading a dump copies the map if and only if every item that is a parent or a destination is given
  its old name again and every port has a node (`DumpReplays`). Only sources are written as variables:
  one small map is refused (`ReplayRefused`), another is loaded with a port on the wrong node
  (`ReplayMisplaces`), and beside the original map no dump with a reference is accepted
  (`ReplayBesideOriginal`).
- A field survives encoding and decoding if and only if it is faithful or hex safe (`FieldRoundTrip`,
  `LostInTransit`).
- The editor reads the arguments of an ined call back if and only if none holds a newline or a carriage
  return and the braces of each match (`ArgumentsArrive`, `ArgumentsLost`).
- Deleting an editor object leaves nothing dangling if and only if every link that ends at one of the
  removed objects which are neither nodes nor networks is removed as well (`DanglesExactly`); a text with
  a link and a link that ends at a link are not such (`TextWithLink`, `LinkOnLink`), and creating links
  does not prevent them (`LinkCreateMatched`).
- Setting the members of a group keeps the groups a forest if and only if the outermost group around it
  is not among them (`RegroupForest`, `OwnMemberLoops`).
- A range lists the hosts of a network if and only if there is one host bit, or the address has no host
  bits and is not the last one (`RangeExact`, `NotExact`).

A comment in the SMX encoder promises to write a carriage return as `\r`; the code does so for a form
feed instead, and the model follows the code.

## Model

| member | source | states |
|---|---|---|
| `TnmVectors.TnmVector.constructor` | tnm/generic/tnmUtil.c:421-429 | a new vector is empty and NULL terminated |
| `TnmVectors.TnmVector.Add` | tnm/generic/tnmUtil.c:477-500 | appends, growing by eight slots when full, and keeps the terminator |
| `TnmVectors.TnmVector.Delete` | tnm/generic/tnmUtil.c:516-535 | removes the first occurrence only, in order, and moves the terminator down |
| `TnmVectors.TnmVector.Walk` | tnm/generic/tnmMap.c:510-513 | a walk up to the first NULL visits exactly the elements |
| `Graphs.SetParentForest` | tnm/generic/tnmMapUtil.c:702-713 | giving x the parent p keeps the forest if and only if x is neither p nor above p: the loop check is exactly right |
| `Graphs.PruneTwice` | tnm/generic/tnmMap.c:491-500 | removing one set and then another is removing both: what makes restarted deletion loops add up |
| `Graphs.PruneKeepsForest` | tnm/generic/tnmMap.c:502-514 | removing any set of entries and orphaning their members keeps the parents a forest |
| `MapGraph.SetParentWf` | tnm/generic/tnmMapUtil.c:714-719 | a typed parent change touches no other pointer and keeps every pointer matched by one vector entry |
| `MapGraph.SetSrcWf` | tnm/generic/tnmMapUtil.c:578-600 | moving the source of a link does the same for the link vectors, also when both ends are one item |
| `MapGraph.SetDstWf` | tnm/generic/tnmMapUtil.c:601-623 | likewise for the destination |
| `MapGraph.RemovedIsClosed` | tnm/generic/tnmMap.c:484-500 | no surviving link has an end among the items a destroy removes |
| `MapGraph.PruneKeepsWf` | tnm/generic/tnmMap.c:457-482 | removing a closed set keeps types, parents, ends and vectors matched, also while an item is half detached |
| `MapDelete.FinishDelete` | tnm/generic/tnmMap.c:461-527 | leaving the vectors, losing the links, orphaning the members and freeing the item amounts to removing it and its links from the graph |
| `MapRuns.ApplyKeeps` | tnm/generic/tnmMapUtil.c:578-723 | every accepted option keeps the graph sound and the groups a forest, and never unsets a link end |
| `MapRuns.AcceptsExactly` | tnm/generic/tnmMapUtil.c:578-723 | an option that sets a pointer is accepted if and only if the graph with the pointer set satisfies the invariant |
| `MapCreates.TakesFitting` | tnm/generic/tnmUtil.c:308-338 | a create with an option that is not in the table of the type sets none; any other sets the options that fit, up to the first that does not; these alone decide the pointers of the new item, and the rest of the map changes only where it mentions the item |
| `MapCreates.CreatesExactly` | tnm/generic/tnmMap.c:376-388 | a create succeeds if and only if every option fits, a port is given a node and a link both ends, whatever the order |
| `MapCreates.FailedCreateSound` | tnm/generic/tnmMap.c:376-388 | a refused create, which frees the item and undoes nothing, leaves the map as it was if the options set give no end and end without a parent, and unsound otherwise; all that is wrong then is that the freed item is still mentioned |
| `MapCreates.UnknownOptionHarmless` | tnm/generic/tnmUtil.c:308-321 | a node given a group and then a source is refused before the group is set |
| `MapCreates.FailedCreateDangles` | tnm/generic/tnmMap.c:376-380 | a port refused after its node was set stays named by that node |
| `MapRuns.StepKeepsInv` | tnm/generic/tnmMap.c:339-528 | each successful create, each configure and each destroy keeps the invariant |
| `MapRuns.RunsKeepInv` | tnm/generic/tnmMapUtil.c:679-723 | in every state of every run the parents are a forest of the declared types, each pointer has exactly one reverse entry, nothing dangles, and the item list holds every item once and agrees with numItems |
| `MapRuns.DestroyExact` | tnm/generic/tnmMap.c:426-528 | a destroy frees exactly the item, the ports of a node and the links with an end among these; survivors keep type and ends, lose a parent only if that was the item, and name no freed item |
| `TnmMaps.TnmMap.FindItem` | tnm/generic/tnmMapUtil.c:848-853 | finds an address if and only if it is in the item list |
| `TnmMaps.TnmMap.DetectLoop` | tnm/generic/tnmMapUtil.c:705-713 | the walk up the parents ends, and finds x if and only if x is p or above p |
| `TnmMaps.TnmMap.SetOption` | tnm/generic/tnmMapUtil.c:578-723 | accepts an option exactly when its target is listed, of the right type and makes no loop; a refused one changes nothing |
| `TnmMaps.TnmMap.SetOptions` | tnm/generic/tnmUtil.c:308-338 | first looks for an option the type does not have and then changes nothing; otherwise sets the options in order up to the first refused |
| `TnmMaps.TnmMap.Configure` | tnm/generic/tnmMapUtil.c:80-84 | a configure command with any options is a step of the transition relation, accepted, refused or half done, and keeps the invariant |
| `TnmMaps.TnmMap.Create` | tnm/generic/tnmMap.c:339-407 | succeeds exactly when all options are accepted and a port has its node, a link both ends; then it is a step, otherwise the invariant survives if and only if nothing stays attached |
| `TnmMaps.TnmMap.Unlist` | tnm/generic/tnmMap.c:440-447 | the item leaves the list, and numItems stays its length |
| `TnmMaps.TnmMap.DeleteItem` | tnm/generic/tnmMap.c:426-528 | terminates though it walks vectors that shrink under it, and removes exactly the item, its ports and their links from heap and list |
| `TnmMaps.TnmMap.NodeDelete` | tnm/generic/tnmMapNode.c:113-128 | deleting the first member over and over removes all ports of the node with their links |
| `TnmMaps.TnmMap.DeleteLinks` | tnm/generic/tnmMap.c:491-500 | deleting the first link over and over removes every link with this end, self links included |
| `TnmMaps.TnmMap.OrphanMembers` | tnm/generic/tnmMap.c:509-514 | exactly the members lose their parent |
| `TnmMaps.TnmMap.Destroy` | tnm/generic/tnmMapUtil.c:236-242 | the destroy command is a step of the transition relation and keeps the invariant |
| `TnmMaps.TnmMap.Clear` | tnm/generic/tnmMap.c:1172-1180 | terminates with no item left and numItems 0 |
| `MapDump.MapDumper.DumpItem` | tnm/generic/tnmMap.c:1044-1106 | the depth first walk ends, dumps parent, source and destination in this order and then the item, never twice, and nothing ranked after it |
| `MapDump.VisitEnds` | tnm/generic/tnmMap.c:1054-1062 | where a link brings in both its ends the source comes before the destination, and where it brings in its group that comes before both |
| `MapDump.MapDumper.Dump` | tnm/generic/tnmMap.c:1126-1154 | every item is dumped exactly once, after its parent, source and destination, in the order of the item list where no item up to the first brought in the second |
| `MapDump.VisitAllOrder` | tnm/generic/tnmMap.c:1146-1150 | of two listed items the first comes first, unless an item up to the first brought in the second; only links bring in ports and networks |
| `MapDump.MapDumper.Copy` | tnm/generic/tnmMap.c:1369-1430 | exactly the selected items are dumped, once each, a selected reference always first, in the order of the item list likewise |
| `MapNames.GetHandle` | tnm/generic/tnmUtil.c:1478-1492 | the loop ends with the first number from the counter on whose name is free |
| `MapNames.RunsKeepNames` | tnm/generic/tnmMap.c:395-399 | over every run, whatever other commands come and go, items of one type have different names |
| `MapScripts.OnlySourceRewritten` | tnm/generic/tnmMap.c:1077-1101 | of the references of a link only the source becomes a variable: the destination, listed before it, and the parent stay names |
| `MapScripts.NewProcessNames` | tnm/generic/tnmUtil.c:1484-1488 | in a new process the items of a type are numbered from 0 in the order of the dump |
| `MapReplay.ReplayExact` | tnm/generic/tnmMapUtil.c:833-855 | the commands of a dump are evaluated as long as each parent and destination is named like an item created before; the new item points to that one, and to its own source |
| `MapReplay.DumpReplays` | tnm/generic/tnmMap.c:1054-1106 | loading a dump makes a copy of the map if and only if every parent and every destination gets its old name again and every port has a node |
| `MapReplay.ReplayBesideOriginal` | tnm/generic/tnmMapUtil.c:841-853 | where the items of the dumped map exist, a dump is accepted if and only if none of them has a parent, an end or is a port |
| `MapReplayCases.RefusedDump` | tnm/generic/tnmMap.c:1146-1150 | the newest item is a port on node1, so node1 is dumped first, then the port, then node0 |
| `MapReplayCases.ReplayRefused` | tnm/generic/tnmMapUtil.c:485-488 | two nodes and a port on the second: the dump asks for node1 when only node0 exists |
| `MapReplayCases.MisplacedDump` | tnm/generic/tnmMap.c:1146-1150 | the newest item is node1, so it is dumped before node0 and its port |
| `MapReplayCases.ReplayMisplaces` | tnm/generic/tnmMapUtil.c:485-488 | a node, its port and another node: the dump is accepted and the port ends up on the copy of the other node |
| `MapHealth.ItemHealth.CreateMsg` | tnm/generic/tnmMapEvent.c:820-851 | a new message goes first and keeps the list newest first while the clock does not run back |
| `MapHealth.ItemHealth.DeleteMsg` | tnm/generic/tnmMapEvent.c:769-799 | unlinks one message and keeps the order |
| `MapHealth.ItemHealth.RecentHealth` | tnm/generic/tnmMap.c:220-231 | stopping at the first old message finds the least and the greatest health impact of all recent messages, or 0 where none is below or above it |
| `MapHealth.ItemHealth.Tick` | tnm/generic/tnmMap.c:212-248 | the score is full health plus the least impact, the greatest, or half their sum where there are both signs, kept between 0 and 100000, over all recent messages; ten times the new health is six times the score and four times the old health, rounded down |
| `MapHealth.TickBetween` | tnm/generic/tnmMap.c:233-248 | a score is between 0 and 100000 and a tick moves the health towards it, never past it |
| `MapHealth.QuietTick` | tnm/generic/tnmMap.c:213-248 | without recent messages health never falls and its deficit strictly shrinks until it is at most 1 |
| `MapHealth.RecoversInThirteen` | tnm/generic/tnmMap.c:213-248 | thirteen quiet ticks bring any item within 1 of full health; from the bottom twelve do not |
| `JobSpec.ChargeClose` | tnm/generic/tnmJob.c:452-466 | one clock adjustment with truncating division is off by less than a millisecond |
| `JobSpec.NoCharge` | tnm/generic/tnmJob.c:446-460 | nothing is charged on the first call or when the clock has not gone on |
| `JobSpec.DriftBound` | tnm/generic/tnmJob.c:440-473 | over n adjustments of a clock that does not run back the total charged is off by less than n ms |
| `JobSpec.RunAllAt` | tnm/generic/tnmJob.c:522-566 | a pass changes exactly the due jobs, each once, by its own outcome |
| `JobSpec.PassSettles` | tnm/generic/tnmJob.c:513-587 | after the run and sweep loops no job is due and none is expired |
| `JobSpec.TimerUnique` | tnm/generic/tnmJob.c:378-385 | the least clamped remaining time of the waiting and expired jobs is one value: what the timer must be set to |
| `JobRuns.RunsOnce` | tnm/generic/tnmJob.c:513-569 | a due job is evaluated exactly once in a pass, any other not at all |
| `JobRuns.PassExactly` | tnm/generic/tnmJob.c:522-587 | a due job is gone after a pass if and only if it had one iteration left or failed without an error script; otherwise it waits its interval less the time the pass took, with one iteration less if these are counted; a job not due is only charged |
| `JobRuns.StepKeepsGood` | tnm/generic/tnmJob.c:814-819 | unique jobs, positive intervals and no job left running hold through every event |
| `JobRuns.StepKeepsBudget` | tnm/generic/tnmJob.c:546-587 | every event keeps runs plus remaining iterations constant while the job is listed |
| `JobRuns.IterationsExact` | tnm/generic/tnmJob.c:546-587 | over every run a job with n iterations runs at most n times more, is gone after its last run, and has run exactly n times by then if none failed and it was not destroyed |
| `JobRuns.TimerFindsWork` | tnm/generic/tnmJob.c:371-393 | when the timer a pass has set runs out, the next pass finds a due or an expired job |
| `JobRuns.TimerInTime` | tnm/generic/tnmJob.c:371-393 | before the time of the timer is charged no job is due, and without a timer no job ever is |
| `JobRuns.ResumeCharges` | tnm/generic/tnmJob.c:826-842 | resuming charges a job the time since the last adjustment, suspended or not, and once more up to the end of the command |
| `JobRuns.SuspendedOverRuns` | tnm/generic/tnmJob.c:467-472 | over every run a suspended job stays exactly as it is until a command is given to it |
| `JobRuns.OptionReadsBack` | tnm/generic/tnmJob.c:812-843 | an accepted option reads back as it was given, running as waiting, and changes no other; a refused one changes nothing |
| `JobRuns.DefaultJob` | tnm/generic/tnmJob.c:616-665 | a job created without options is evaluated in the next pass, and then waits 1000 ms for the next time, for ever |
| `JobRuns.RunCharges` | tnm/generic/tnmJob.c:452-466 | over every run a job that stays listed, is not suspended and not evaluated has been charged for exactly the adjustments made by passes, commands and looks at the time, and the clock is never forgotten meanwhile |
| `JobRuns.DriftOverRuns` | tnm/generic/tnmJob.c:440-473 | over every such run the charge is never negative and differs from the time that passed by less than one ms for each adjustment |
| `JobControls.JobControl.AdjustTime` | tnm/generic/tnmJob.c:440-473 | subtracts the charge from every job that is not suspended, nothing on the first call or when the clock ran back |
| `JobControls.JobControl.RunJob` | tnm/generic/tnmJob.c:524-566 | one evaluation: the remaining time is the interval again, a counted job has one iteration less, and it expires with its last iteration or an error no script handles |
| `JobControls.JobControl.RunDue` | tnm/generic/tnmJob.c:513-569 | the restarted loop ends and evaluates every due job once, in list order |
| `JobControls.JobControl.RemoveExpired` | tnm/generic/tnmJob.c:577-587 | the restarted loop removes exactly the expired jobs |
| `JobControls.JobControl.NextSchedule` | tnm/generic/tnmJob.c:360-394 | the timer is the least clamped remaining time, or none, and then the clock is forgotten |
| `JobControls.JobControl.Schedule` | tnm/generic/tnmJob.c:495-596 | one pass is a step of the transition relation |
| `JobControls.JobControl.SetOption` | tnm/generic/tnmJob.c:812-843 | each option is a step: the status is written before the clock is adjusted, a bad interval or count is refused and changes nothing |
| `JobControls.JobControl.CreateJob` | tnm/generic/tnmJob.c:616-665 | sets the options up to the first refused, looks at the clock and appends the job; a refused one appends nothing, and each of these is a step in the order of the source |
| `JobControls.JobControl.Configure` | tnm/generic/tnmUtil.c:325-355 | sets the options in order up to the first refused and ends, if none is, with the adjustment made by listing them |
| `InedLines.AnyCutSameLines` | tkined/generic/tkiObjects.c:715-751 | however a stream is cut into reads, once the buffer is complete exactly its lines have been processed, in order |
| `InedLines.CallsArrive` | tnm/generic/tnmIned.c:714-743 | whatever the arguments contain and however the bytes are cut, each call is one line to the editor, in order, and its words are the arguments if and only if these hold no newline or carriage return and their braces match |
| `InedLines.ArgumentsArrive` | tnm/generic/tnmIned.c:714-739 | the words read from the line of a call are its arguments if and only if none holds a newline or a carriage return and the braces of each match |
| `InedLines.ArgumentsLost` | tnm/generic/tnmIned.c:719-733 | an argument that is a closing brace, and one that is a newline, are not read back |
| `InedLines.WordsArrive` | tnm/generic/tnmIned.c:714-739 | the words read are the arguments as they were escaped if and only if the braces of these match |
| `InedLines.Receiver.Receive` | tkined/generic/tkiObjects.c:698-751 | buffers until the command is complete and ends in a newline, then processes its lines, and deletes the interpreter at the end of the file only between commands |
| `InedLines.Receiver.ProcessLines` | tkined/generic/tkiObjects.c:757-816 | splits the buffer at its newlines and processes each piece once |
| `InedLines.EscapeAppend` | tnm/generic/tnmIned.c:719-733 | an argument is escaped character by character: a carriage return vanishes and a newline becomes a backslash and an n |
| `InedLines.WriteCall` | tnm/generic/tnmIned.c:714-739 | writes exactly one line: newlines become \n, carriage returns vanish |
| `InedProtocol.ParseText` | tnm/generic/tnmIned.c:757-773 | what the tool reads of a reply line is the code and the text of the reply, from the first character on that is not white space |
| `InedProtocol.ParseSays` | tnm/generic/tnmIned.c:757-773 | a line is read as a reply if and only if it starts with ined ok or ined error, and then as its code and what follows, from the first character on that is not white space |
| `InedProtocol.InedTool.AwaitReply` | tnm/generic/tnmIned.c:757-777 | takes lines up to the first that starts with ined ok or ined error, returns its code and what follows from the first character on that is not white space, and queues the pushes before it |
| `InedProtocol.InedTool.Flush` | tnm/generic/tnmIned.c:420-441 | evaluates the queue once, in order, and leaves it empty |
| `InedProtocol.AnsweredIdle` | tnm/generic/tnmIned.c:805-822 | when no call waits no reply is under way, so an idle tool never takes a reply for a command |
| `InedProtocol.StepKeepsInv` | tnm/generic/tnmIned.c:657-777 | every step of either party keeps calls matched with replies and pushes in order |
| `InedProtocol.CallsGetTheirReplies` | tkined/generic/tkiObjects.c:769-803 | over every interleaving the i-th finished call has returned the reply the editor made to that call, and to no other: its code, and its text without leading white space, unchanged where there is none |
| `InedProtocol.PushesInOrder` | tnm/generic/tnmIned.c:461-491 | over every interleaving pushes are evaluated in order of arrival, each once, and none is left when queue and line are empty |
| `InedProtocol.EditorKnowsQueue` | tnm/generic/tnmIned.c:349-366 | over every interleaving, once all messages of the tool have arrived the editor knows how many commands are queued, except that it takes a single one for none |
| `SmxCodec.QuotedRoundTrip` | tnm/generic/tnmSmx.c:1070-1112 | a quoted string parses back to its source and up to its own closing quote if and only if the source is faithful |
| `SmxCodec.HexRoundTrip` | tnm/generic/tnmSmx.c:772-785 | the hexadecimal form parses back if and only if every byte is below 128 or is 255 |
| `SmxCodec.FieldRoundTrip` | tnm/generic/tnmSmx.c:871-895 | a field parses back if and only if it is faithful where it is quoted and hex safe where it is not |
| `SmxCodec.FieldForm` | tnm/generic/tnmSmx.c:882-892 | a field starts with a quote if and only if all its bytes are printable, blanks, tabs, newlines or carriage returns |
| `SmxCodec.FeedReadsAsReturn` | tnm/generic/tnmSmx.c:836-838 | a form feed in front of a faithful string is read back as a carriage return |
| `SmxCodec.ReturnRefused` | tnm/generic/tnmSmx.c:1084-1105 | a quoted string that starts with a carriage return is refused |
| `SmxCodec.LostInTransit` | tnm/generic/tnmSmx.c:1084-1105 | a final backslash, a backslash before t, a carriage return and the byte 128 do not survive |
| `SmxBuffers.AppendQuoted` | tnm/generic/tnmSmx.c:805-850 | writes the quoted form behind the string in the buffer, terminated |
| `SmxBuffers.AppendHex` | tnm/generic/tnmSmx.c:771-785 | writes two digits a byte though a negative char prints as eight |
| `SmxBuffers.AppendField` | tnm/generic/tnmSmx.c:870-895 | writes the quoted or the hexadecimal form behind the string in the buffer, terminated |
| `SmxBuffers.ScanInPlace` | tnm/generic/tnmSmx.c:1082-1111 | decodes over its own input: the write position never passes the read position and the rest of the line is untouched |
| `SmxBuffers.ParseQuoted` | tnm/generic/tnmSmx.c:1070-1112 | result, length and remainder are those of the scan of the original line, or the line is rejected |
| `SmxBuffers.ParseHex` | tnm/generic/tnmSmx.c:1129-1155 | accepts exactly a non-empty even number of hex digits up to the end of the line, decoded in place |
| `SmxBuffers.HexScanReads` | tnm/generic/tnmSmx.c:1129-1155 | a string is read as hexadecimal if and only if it is a positive even number of digits, and each byte is the value of its two digits in either case |
| `SmxBuffers.ParseHexOrQuoted` | tnm/generic/tnmSmx.c:1174-1187 | the buffer holds the parsed field, terminated, or the line is rejected |
| `SmxReplies.HeadLength` | tnm/generic/tnmSmx.c:943-1001 | what precedes the message is at most 59 bytes, for all reply codes, ids and runs |
| `SmxReplies.DecReads` | tnm/generic/tnmSmx.c:945-997 | every number is read back from its decimal digits, which have no 0 in front |
| `SmxReplies.HeadReads` | tnm/generic/tnmSmx.c:943-1002 | split at its blanks, the head of each reply is the code, the id or 0, and the run id, run state or exit code that this reply carries, 0 without a run; an unknown code becomes a notice |
| `SmxReplies.BuildReply` | tnm/generic/tnmSmx.c:914-1002 | every store stays within 80 + 2 * msglen bytes; the head reads as the numbers of the reply, the text behind it is the message in the form of the reply, and CR LF follow |
| `SmxReplies.NothingCut` | tnm/generic/tnmSmx.c:961-965 | only a notice can be cut short, by a 0 byte in its message |
| `TkiGraph.GoneClosed` | tkined/generic/tkiMethods.c:3715-3768 | what a delete takes with it contains all members of its groups and all links at its objects |
| `TkiGraph.DroppedClosed` | tkined/generic/tkiMethods.c:3715-3768 | what a delete removes contains all members of its groups and all links at its nodes and networks, whatever links end at |
| `TkiGraph.NothingForgotten` | tkined/generic/tkiMethods.c:3803-3815 | where links connect nodes and networks only, a delete removes all links at the removed objects |
| `TkiGraph.FinishDelete` | tkined/generic/tkiMethods.c:3738-3747 | with its dependents gone, taking an object out of the lists of its ends and its group and freeing it completes the removal |
| `TkiGraph.DanglesExactly` | tkined/generic/tkiMethods.c:3803-3862 | after any delete no end dangles if and only if every link that ends at a removed object which is neither node nor network is removed as well |
| `TkiTables.ObjectTable.Delete` | tkined/generic/tkiMethods.c:3803-3862 | terminates on every tidy table and removes exactly the object, its members recursively and the links at the nodes and networks among these; looks at no freed object if the removed links are anchored; keeps a sound table sound, and there removes all links at the removed objects |
| `TkiTables.ObjectTable.DeleteLinks` | tkined/generic/tkiMethods.c:3715-3731 | going through a copy of the links deletes each once, self links included |
| `TkiTables.ObjectTable.DeleteMembers` | tkined/generic/tkiMethods.c:3755-3768 | deleting the first member until none is left ends and takes everything inside the group |
| `TkiTables.ObjectTable.UnhookObject` | tkined/generic/tkiMisc.c:221-244 | every mention of the object leaves the lists of its ends and its group |
| `TkiTables.ObjectTable.CreateLink` | tkined/generic/tkiMethods.c:903-938 | sets the ends found and appends the link to their lists |
| `TkiTables.ObjectTable.SetMembers` | tkined/generic/tkiMethods.c:3232-3284 | afterwards the members are exactly the listed objects that were in no group or in this one, once each, in the order of their first place in the list; former members not listed are in no group, all others unchanged |
| `TkiTables.ObjectTable.UngroupObject` | tkined/generic/tkiMethods.c:3480-3501 | removes the group alone, in every tidy table; its members survive without a parent |
| `TkiTables.LinkCreateMatched` | tkined/generic/tkiMethods.c:903-935 | whatever its ends are, a new link is listed once at each end it found, nothing dangles and the groups stay a forest |
| `TkiTables.TextWithLink` | tkined/generic/tkiMethods.c:915-930 | a link drawn from a text object outlives it and keeps pointing to it |
| `TkiTables.LinkOnLink` | tkined/generic/tkiMethods.c:915-930 | a link that ends at a link outlives the node below and keeps pointing to the removed link |
| `TkiTables.RegroupForest` | tkined/generic/tkiMethods.c:3245-3284 | setting members keeps the table consistent, and the groups a forest if and only if the outermost group around it is not among them |
| `TkiTables.RegroupMembers` | tkined/generic/tkiMethods.c:3245-3284 | who the members are after m_member, and what becomes of every other object, in terms of parents before and the list alone |
| `TkiTables.OwnMemberLoops` | tkined/generic/tkiMethods.c:3279-3284 | a group made its own member is inside itself |
| `TkiTables.RunsKeepSound` | tkined/generic/tkiMethods.c:3803-3862 | over every run of creates, regroupings, ungroupings and deletes group and member, link and end refer to each other exactly once and nothing dangles |
| `LinkEnd.NetworkLinkEnd` | tkined/generic/tkiMethods.c:527-610 | for horizontal and vertical segments the link end lies on the network and no point of the network is nearer; for any segments no corner is nearer |
| `LinkEnd.ReadPoints` | tkined/generic/tkiMethods.c:549-558 | coordinates are read in pairs relative to the network, a left over one is ignored |
| `Stripcharts.ShowsNewest` | tkined/generic/tkiStripchart.c:1186-1261 | over any series of appends, widenings and narrowings the chart holds the newest part of the clipped history, at most width - 1 values |
| `Stripcharts.ShowsHistory` | tkined/generic/tkiStripchart.c:1229-1261 | over any series of calls what is shown is the newest part of the history, value by value, and the last call dropped no more jumps than it needed |
| `Stripcharts.Stripchart.Resize` | tkined/generic/tkiStripchart.c:1186-1220 | within the arrays at hand, a wider chart keeps all values and a narrower one the newest |
| `Stripcharts.Stripchart.Scroll` | tkined/generic/tkiStripchart.c:1229-1244 | a full chart drops exactly the jump oldest values |
| `Stripcharts.Stripchart.Values` | tkined/generic/tkiStripchart.c:1151-1261 | resizes, appends up to the first value that is no number, clips and redraws; what is left is the newest part of the old and new values, those not negative unchanged and the others 0, after no more jumps than needed; a failed call keeps what came before, unclipped |
| `Stripcharts.Stripchart.Coordinates` | tkined/generic/tkiStripchart.c:1263-1278 | the polygon runs over the values and over 0 where there is none yet, within arrays that were sized when the chart was last widened |
| `IpRange.AndMask` | tnm/generic/tnmNetdb.c:450-451 | a contiguous mask clears exactly the host bits |
| `IpRange.Range` | tnm/generic/tnmNetdb.c:450-457 | the 32-bit loop ends without wrapping and lists consecutive addresses from first to before last |
| `IpRange.RangeExact` | tnm/generic/tnmNetdb.c:429-459 | the list is exactly the network without its network and broadcast address if and only if there is one host bit, or the address has no host bits and is not 255.255.255.255 with 32 mask bits |
| `IpRange.NotExact` | tnm/generic/tnmNetdb.c:450-453 | 255.255.255.255 with 32 mask bits and 10.0.0.5 with 24 are not listed exactly |

## Left out

- Re-entrancy: scripts bound to events, jobs or pushed commands do not call back into the structure that runs them, and no push is read while a queue is being flushed.
- Options of map items other than the parent and the link ends: only whether the type has them and their value is good; attributes, events and bindings: they do not touch the graph.
- The text of a dump: values of other options and the quoting by Tcl, so also an item whose own name contains the text of an option; the model keeps which items are written, in what order, and how they refer to each other.
- Loading into a map that has items already, and pasting, which is refused for any item because a dump sets the read-only time stamps; item counters do not wrap at 32 bits.
- TnmMapExpireMsgs: expiry deletes messages one at a time, which is DeleteMsg repeated; saving messages to files is not modelled.
- MapHealth.ItemHealth.Tick: the weighted mean is exact and then truncated, where the source computes it in floating point.
- JobSpec: remaining times do not wrap at 32 bits; calendar based jobs and tags are not modelled.
- InedLines.ArgumentsArrive: the reader knows words in braces, the only ones a call writes, and not the other forms of a Tcl list.
- InedLines.Receiver.Receive: what an ined command does in the editor is not modelled beyond its reply code and text.
- InedCompCmd: calls the tool answers from its own object lists never reach the wire.
- SMX commands other than the parsing of strings, running scripts, profiles and the log.
- SmxReplies.BuildReply: the identity reply is given a cookie; the source would print a null pointer without one.
- TkiTables.ObjectTable.Delete: that no freed object is looked at is shown under a condition that is sufficient only, because the order of the member lists decides the rest; where one is, the source has no defined behaviour, and the model records it in stale and goes on as if the edit had no effect.
- TkiTables.LinkCreateMatched: the address of a new link is not one an older link still points to.
- TkiTables.ObjectTable.UnhookObject: the list of link ids is a sequence of ids; the editing of its text in place, including the look at the byte before an emptied list, is not modelled.
- Interpreters, menus and logs of the editor, whose deletion cascades along the links string, and link lists rewritten by the raw links method.
- LinkEnd.NetworkLinkEnd: coordinates are exact reals, not floating point.
- Stripcharts: charts less than two pixels wide, and the scaling of the polygon to its height.
- IpRange: masks whose ones are not contiguous, and the parsing and printing of addresses.
- Drawing, PostScript, map files, the editor's user interface, and the DNS, NTP, ICMP, syslog and RPC clients.
