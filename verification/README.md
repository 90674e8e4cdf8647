# Snapper in Dafny

A model of snapper, the tool that manages snapshots of file systems, with proofs of what its parts promise. Verify
with `dafny verify dfyconfig.toml` (Dafny 4.11).

| file | what it models |
|---|---|
| `Order.dfy`, `Text.dfy`, `Wrappers.dfy` | byte order on names, sorting; characters, numbers and partial results of the text formats; option and result types |
| `FileStatus.dfy` | the status flags of a compared file and their text |
| `Trees.dfy`, `Compare.dfy`, `CompareDevices.dfy` | directory trees, the merge that compares two of them, and what it reports across devices |
| `Files.dfy`, `Undo.dfy`, `UndoPlan.dfy`, `UndoChange.dfy` | the list of changed files, the order of undo, the file operations that restore a file, whole undos of any selection, and the command that puts them together |
| `LineIO.dfy`, `Comparison.dfy` | buffered compressed line files, and comparisons with their cache |
| `SnapshotList.dfy` | snapshots and sorted lists of them |
| `Retention.dfy`, `Cleanup.dfy` | the number and timeline policies, and cleanup runs |
| `Daemon.dfy`, `DaemonEffects.dfy` | clients, configs, use counts, locks and background tasks of the server, and what requests bring about |
| `Trie.dfy` | the path trie of the btrfs stream processor |
| `Numbering.dfy` | snapshot numbers and pairs over creation, deletion and reload |
| `XAttributes.dfy` | the difference of extended attributes and its application |
| `Stomp.dfy`, `StompGrammar.dfy`, `Escape.dfy`, `FilePipe.dfy`, `Lvm.dfy` | STOMP frames and all that their reader takes or refuses, escaping on D-Bus, pipe and in PAM, the file list on the pipe, LVM device names |

The main results:

- **Undo restores.** `UndoChange.UndoSnapshots`: comparing two snapshots and undoing every difference, on a system
  equal to the second, never fails a step and gives back the first, in existence, type, content, owner and mode. A
  content is not restored exactly where it was changed under the same time stamp, or under the same inode at the same
  size.
- **Which selections can be undone.** `UndoChange.UndoSelected`, `UndoPlan.SelectionRuns`, `UndoPlan.TurnFails`: by a
  condition on the list and the second snapshot a selection runs without a failing step, with what every path holds
  afterwards, or is certain to fail. What is left between the two is exactly an unselected symbolic link in place of a
  directory above a selected deleted file (`UndoPlan.LinkLeavesOpen`), where it depends on where the link leads.
- **Comparison is exact, antisymmetric and cached soundly.** `Compare.CmpDirs` and `Compare.ReportsTell` flag by flag,
  `CompareDevices.ReportedExactly` for any devices, `Compare.DiffAntisymmetric`, `Comparison.CacheServesBothOrders`,
  `Comparison.CutCacheNeverServes`.
- **What a policy gives up**, snapshot by snapshot: `Retention.TimelineCandidates` by the six granularities and their
  periods, `Retention.NumberCandidates` by the newer snapshots.
- **Cleanup deletes what the upper limits give up and never what the lower limits keep**, and each conditional pass stops
  only with its own condition satisfied, with nothing left that may be deleted, or at a refused deletion.
  `Cleanup.Cleaner.Clean`, for every list, all limits and all answers of the clock, the quota, the free space and refused
  deletions; `Retention.KeptStable` is the stability behind it.
- **A round deletes one snapshot or one pair**, unless a candidate that it has passed becomes deletable while it is
  looking (`Cleanup.Cleaner.Round`). The candidates are filtered again and again, and each time the clock and the
  undeletable snapshots are asked anew; `Cleanup.RoundRule` states that over all policies and lists the rule holds
  exactly if nothing becomes deletable from one look to the next.
- **The daemon's use counts are exact in every reachable state.** `Daemon.RunsAreSafe`, `Daemon.LocksProtect`. Destroying
  a client is safe exactly if the configs of its mounts still exist (`Daemon.DestroyIsSafe`, `Daemon.MountCanBeLost`).
- **Requests to the daemon do what they say**, in every reachable state and however threads interleave:
  `DaemonEffects.SnapshotsDeleted`, `DaemonEffects.ConfigDeleted`, `DaemonEffects.ComparisonMade`,
  `DaemonEffects.TasksInOrder`.
- **Numbers go up over all runs**, exactly as long as no snapshot is created after the highest number was forgotten
  (`Numbering.NumbersIncrease`, on runs as functions of the requests, which `Numbering.Serve` computes). With unique
  numbers only a creation that fails half-way while the highest number is no longer in the list forgets it;
  `Numbering.NumberComesBack` is the example. Posts keep their pre snapshots as long (`Numbering.NeverRebound`), and the
  list holds what was created last with each number and not deleted since (`Numbering.ListIsLatest`).
- **Codecs.** Lines, frames, escapes, pipe lists and device names round-trip, each with its exact condition, and what the
  readers take of other input is exact too (`StompGrammar`, `Escape.UnescapeExact`, `FilePipe.ReceivedExactly`).

Conventions. What the outside decides (clock, quota, refused deletions, the sizes of chunks) is a parameter or an
arbitrary value. A proof that hands a predicate on as a whole says so with `hide`. A state between two steps of a loop is
described by a predicate such as `Merging` or `Underway`.

Where documentation and code differ, the code is followed: doc/unique-numbers.txt says that a number is never given
again, which holds with the exception above; the comment in the conditional cleanup says that taking more candidates is needed for
pairs, and the code may then delete unrelated snapshots together, as above.

## Model

| member | source | states |
|---|---|---|
| `FileStatus.StatusTextRoundTrip` | snapper/File.cc:771-847 | Writing a status as text and reading it back gives the same status if and only if at most one of created, deleted, type and content is set, since the four share the first letter. |
| `FileStatus.StatusTextLetters` | snapper/File.cc:771-797 | The text of any status has only its ten letters and never a space or newline, so it can be told from the name after it. |
| `FileStatus.StatusTextMeans` | snapper/File.cc:771-797 | Each flag can be told from the text: the five later ones by a place and letter of their own, the first four by their letters in the first place. |
| `FileStatus.InvertTwice` | snapper/File.cc:850-856 | Inverting twice is the identity on statuses that do not have both created and deleted, and inversion keeps a status writable. |
| `Order.SortByStrict` | snapper/File.cc:131-135 | Sorting a list with distinct names gives the strictly ascending list with the same members. |
| `Order.FirstDifference` | snapper/File.cc:131-135 | Of two names the one with the smaller byte at the first difference comes first. |
| `Order.StrictlySortedUnique` | snapper/File.cc:131-135 | There is only one strictly ascending list with given members, so a sorted list does not depend on the order in which it was filled. |
| `Trees.PathOfJoin` | snapper/Compare.cc:348-435 | The name built while descending determines the path of components, so distinct paths are reported under distinct names. |
| `Trees.AncestorComesFirst` | snapper/File.cc:131-135 | In name order a directory comes before everything below it. |
| `Compare.FilteredIff` | snapper/Compare.cc:261-268 | The only filtered path is .snapshots directly below the root, whatever other names look like. |
| `Compare.ListSubdirs` | snapper/Compare.cc:271-289 | Every path below a directory is reported exactly once, all with the given status, and nothing else. |
| `Compare.Lonesome` | snapper/Compare.cc:305-313 | The name itself and everything below it is reported once with the given status. |
| `Compare.Twosome` | snapper/Compare.cc:316-345 | Below a name that is on both sides exactly the declared difference is reported, over equal types, changed types with directories on either side, and foreign devices. |
| `Compare.SkipFirst` | snapper/Compare.cc:365-368 | Skipping a filtered name of the first listing keeps the output exact on the names passed, and the cursors in step. |
| `Compare.SkipSecond` | snapper/Compare.cc:369-372 | The same for a filtered name of the second listing. |
| `Compare.TakeSecond` | snapper/Compare.cc:373-405 | Taking the name under the second cursor, at the end of the first listing or below its name, keeps the output exact: the name cannot occur in the first listing at all. |
| `Compare.TakeFirst` | snapper/Compare.cc:384-416 | The mirror image: a name that is taken as deleted cannot occur in the second listing. |
| `Compare.TakeBoth` | snapper/Compare.cc:417-433 | Taking a name that both cursors stand on keeps the output exact on the names passed. |
| `Compare.CmpDirsWorker` | snapper/Compare.cc:348-435 | The merge of the two sorted listings reports every path of the declared difference of the two directories once, with its status, and no other path. |
| `Compare.CmpDirs` | snapper/Compare.cc:438-463 | The whole comparison is exact from the two roots, for the devices of the two roots. Whatever the devices, every report tells a real change: created or deleted for a path on one side only, and for a path on both sides each flag exactly if the type, content, mode, owner or group differs; a content is passed over only under the same time stamp, or under the same inode at the same size. No path with the same node on both sides is reported. |
| `Compare.DiffIsFlat` | snapper/Compare.cc:316-435 | On one device each, the recursive difference at a path depends on nothing but what the two trees have at that path. |
| `Compare.ComparisonExact` | snapper/Compare.cc:348-463 | On one device each, a path is in the output with a status if and only if it is visible (not at or below .snapshots) and the two trees differ there in exactly that way. |
| `Compare.CmpFilesContentReg` | snapper/Compare.cc:52-130 | Reading block by block up to the first difference finds two contents different if and only if they are, their times differ, and they are not one inode at one size. |
| `Compare.CmpFiles` | snapper/Compare.cc:179-233 | Each flag of the status is set if and only if that property of the two files differs, with the same exception for contents. |
| `Compare.ReportsTell` | snapper/Compare.cc:348-463 | On one device each, what is reported tells a change flag by flag, and of a visible path that is not reported there is nothing to tell. |
| `CompareDevices.DiffIsFlat` | snapper/Compare.cc:316-435 | For any devices: the difference at a path is what stands there on either side, if no foreign device is met on the way, and nothing otherwise; below a name on one side or of changed type no device is asked for. |
| `CompareDevices.ReportedExactly` | snapper/Compare.cc:348-463 | For any devices a path is reported with a status if and only if it is visible, no foreign device is met on the way, and the two trees differ there in exactly that way. |
| `Compare.ChangesSymmetric` | snapper/Compare.cc:179-233 | Comparing two files does not depend on their order. |
| `Compare.DiffAntisymmetric` | snapper/Compare.cc:316-435 | At every path, comparing in the other order gives the same status with created and deleted exchanged, or nothing in both orders. |
| `Compare.DiffWritable` | snapper/Compare.cc:179-345 | Every status that a comparison reports is one that its text form can hold. |
| `Files.LowerBound` | snapper/File.cc:145-158 | The position in a sorted list before which all names are smaller and from which none is. |
| `Files.FindExact` | snapper/File.cc:145-158 | Looking for a name in a sorted list finds the file if there is one, and nothing otherwise. |
| `Files.PlanIsGood` | snapper/File.cc:733-757 | The plan has exactly the selected files, first the ones to delete in descending and then the others in ascending name order. |
| `Files.GetUndoSteps` | snapper/File.cc:733-757 | The two loops give the steps of that plan, in that order: what was created is deleted, what was deleted is created, and the rest is modified. |
| `Undo.System.CreateParentDirectories` | snapper/File.cc:276-308 | Without a symbolic link above the path: succeeds if and only if everything that is there above the path is a directory, and then makes exactly the missing directories above it; otherwise it makes none. With one the outcome is open, but nothing that was there goes or changes its type. |
| `Undo.System.CreateDirectory` | snapper/File.cc:350-378 | Succeeds if and only if the path is a directory or free under a directory, and leaves there a directory with the mode and owner of the snapshot; otherwise nothing changes. Through a symbolic link above or at the path the outcome is open. |
| `Undo.System.CreateFile` | snapper/File.cc:381-428 | Succeeds if and only if the path is a file or free under a directory, and leaves there the owner, content and exact mode of the snapshot, although the change of owner before the change of mode may clear mode bits; otherwise nothing changes. Through a symbolic link above or at the path the outcome is open. |
| `Undo.System.CreateLink` | snapper/File.cc:431-452 | A symbolic link is made with the target and owner of the snapshot if and only if the path is free under a directory; through a link above the path the outcome is open. |
| `Undo.System.CreateAllTypes` | snapper/File.cc:311-347 | Without the node in the snapshot, or with a file in the way, nothing changes; on a free way the missing directories are made, and the node too if the path is free or a directory or file there can be taken over. In all states, also through symbolic links, nothing goes or changes its type. |
| `Undo.System.DeleteAllTypes` | snapper/File.cc:455-494 | Fails exactly on a directory that has entries; otherwise the path, unless it is a special file, is free afterwards; through a symbolic link above the path the outcome is open. |
| `Undo.System.ModifyAllTypes` | snapper/File.cc:497-558 | Where there is a node of the same type, exactly the reported attributes become those of the snapshot and the others stay. |
| `Undo.System.Replace` | snapper/File.cc:513-531 | A changed content is restored by putting the node of the snapshot in place of whatever is there, which fails, and changes nothing, exactly on a special file or a directory that has entries; directories are left alone. |
| `Undo.System.ModifyAttributes` | snapper/File.cc:533-555 | Owner and then mode are set, only where reported, whatever the change of owner does to the mode. |
| `Undo.System.DoUndo` | snapper/File.cc:651-697 | In every state in which the file can be undone the step succeeds, and only the one path changes, to what undoing the reported status means, and missing directories above it. It fails if a directory to remove has entries or a file is in the way of a deleted one. In all states a deleted file is restored without anything going or changing its type, and under a directory no other path does. |
| `UndoPlan.TurnIsReady` | snapper/File.cc:733-757 | When the turn of a file comes, the steps before it have left a state in which undoing it works, if the selection allows for it: whatever was created below a directory to remove is selected, and so is every replaced directory above a deleted file. |
| `UndoPlan.TurnAdvances` | snapper/File.cc:651-697 | Undoing the file at its turn brings its path to its goal, makes the missing directories above it and leaves every other path as it was. |
| `UndoPlan.PlanRuns` | snapper/File.cc:733-757 | From any point in the middle of the plan of such a selection, the rest of it runs to its end and brings every selected path to its goal. |
| `UndoPlan.SelectionRuns` | snapper/File.cc:651-757 | On a system equal to the post tree no step of such a selection fails; exactly the selected paths reach their goal, deleted directories above them that were not selected are made with default attributes, and every other path is untouched. |
| `UndoPlan.KeptNext` | snapper/File.cc:651-757 | Whatever steps failed before and wherever symbolic links led, a step removes or changes the type of no path of the post tree but its own. |
| `UndoPlan.TurnFails` | snapper/File.cc:276-494 | In any such state undoing a file fails if something created below it is not selected, or a directory above it that was replaced by a file is not; if it can neither be undone nor has to fail, a symbolic link stands above it. |
| `UndoPlan.NotBoth` | snapper/File.cc:651-757 | No selection both runs without a failing step and is certain to fail. |
| `UndoPlan.LinkLeavesOpen` | snapper/File.cc:276-308 | A selection of neither kind: a directory replaced by a symbolic link, with only the file that was in it selected; where the link leads decides, since stat follows it. |
| `UndoPlan.NothingMade` | snapper/File.cc:276-308 | Nothing but the selected paths changes if and only if with every selected deleted file the deleted directories above it are selected too. |
| `UndoPlan.Untrusted` | snapper/Compare.cc:179-233 | For any two different contents there are two trees, each with one file, that the comparison does not tell apart, so that undo cannot restore the file. |
| `UndoPlan.UndoRestores` | snapper/File.cc:651-757 | Undoing a complete comparison on a system equal to the post tree never fails; invisible paths are untouched; a visible path ends up as in the pre tree if and only if its content was not changed under the same time stamp, or under the same inode at the same size. |
| `UndoPlan.NowRestores` | snapper/File.cc:651-757 | What a selection leaves: each selected path is as in the pre tree, with the same exact exception; any other path is as before, or a directory that was missing above a selected one. |
| `UndoChange.MarkedIsList` | client/snapper/cmd-undochange.cc:95-101 | A fresh comparison with any marks is a list that undo starts from: each difference once and sorted. |
| `UndoChange.Mark` | client/snapper/MyFiles.cc:40-98 | Exactly the named files are marked, or all if none is named; it fails if and only if a name is not in the list. |
| `UndoChange.RunSteps` | client/snapper/cmd-undochange.cc:114-163 | Each step finds its file by name with the same action; if the plan is safe every step succeeds and the system ends as the plan says, and if some selected file is certain to fail a failure is reported. |
| `UndoChange.UndoSelected` | client/snapper/cmd-undochange.cc:95-163 | The whole command for any names: an unknown name ends it before anything is changed; of a selection that can be undone no step fails, the selected paths are as in the first snapshot (with the exception above), and the others as before but for missing directories above selected ones; of one with a file that is certain to fail some step fails. |
| `UndoChange.UndoSnapshots` | client/snapper/cmd-undochange.cc:95-163 | Comparing two snapshots and undoing all of it, on a system equal to the second, gives back the first: every visible path where equal times or equal inodes mean equal contents holds the node of the first snapshot, and the exact exception is the one above. |
| `LineIO.Writer.WriteBuffer` | snapper/AsciiFile.cc:634-649 | Flushing changes nothing about what has been written in total. |
| `LineIO.Writer.WriteLine` | snapper/AsciiFile.cc:652-674 | The line and a newline are appended to what has been written, however the line falls over the buffer; all buffer positions are in bounds and the loop ends. |
| `LineIO.Writer.Close` | snapper/AsciiFile.cc:617-631 | Everything written has reached the file. |
| `LineIO.Reader.ReadBuffer` | snapper/AsciiFile.cc:308-326 | Reading a chunk of any size neither loses nor adds text, and reports the end exactly when nothing is left. |
| `LineIO.Reader.ReadLine` | snapper/AsciiFile.cc:329-358 | The first line of the remaining text is taken off, wherever the chunks end; at the end of the text there is none. |
| `LineIO.ReadLines` | snapper/AsciiFile.cc:308-358 | Reading to the end gives the lines of the text, for every sequence of chunk sizes. |
| `LineIO.WriteLines` | snapper/AsciiFile.cc:617-674 | Any list of lines, written through a buffer of any size, gives the concatenation of the lines with newlines. |
| `LineIO.LinesRoundTrip` | snapper/AsciiFile.cc:329-358 | A written list of lines is read back as it was if and only if no line has a newline inside. |
| `LineIO.LinesExact` | snapper/AsciiFile.cc:329-358 | The lines of any text make up the text again, but for a newline that is missing at its end. |
| `Comparison.Create` | snapper/Comparison.cc:138-162 | A fresh comparison lists every difference of the two trees once, sorted by name. |
| `Comparison.ListsUnique` | snapper/Comparison.cc:138-162 | There is only one such list. |
| `Comparison.ListsInverted` | snapper/Comparison.cc:242-246 | Inverting each status of a list gives the list of the comparison in the other order. |
| `Comparison.TakeLine` | snapper/Comparison.cc:215-247 | One turn of the reading loop keeps what reading the rest will come to, over header, footer, data lines and both errors. |
| `Comparison.Load` | snapper/Comparison.cc:200-266 | The loop over lines, with its flags for header and footer, parses the lines between header and footer, or all lines of an old file, and fails on everything else; the list is sorted. |
| `Comparison.Save` | snapper/Comparison.cc:343-364 | The file has the header, a line for each entry, inverted if asked for, and the footer. |
| `Comparison.SavedLinesRead` | snapper/Comparison.cc:200-266 | The lines of a saved list are parsed to that list, whatever comes after the footer: no data line is taken for the footer. |
| `Comparison.ForeignRefused` | snapper/Comparison.cc:165-188 | A list under a header of another format or number is refused, whatever follows. |
| `Comparison.MarkIs` | snapper/Comparison.cc:165-197 | Only a line of the form snapper-VERSION-FORMAT-NUMBER-begin or -end is taken for a header or footer. |
| `Comparison.OldLinesRead` | snapper/Comparison.cc:182-187 | Lists without header and footer are still read. |
| `Comparison.CacheRoundTrip` | snapper/Comparison.cc:200-377 | A sorted list of writable entries survives saving and loading if and only if no name has a newline. |
| `Comparison.CacheServesBothOrders` | snapper/Comparison.cc:269-377 | A list saved for either order of the two snapshots loads to exactly what a fresh comparison in the requested order gives. |
| `Comparison.Initialize` | snapper/Comparison.cc:80-115 | With or without a cache that was saved for the two snapshots the list is that of a fresh comparison; for snapshots that cannot change the cache is used, or else written so that it serves both orders. |
| `Comparison.CutCacheNeverServes` | snapper/Comparison.cc:251-252 | A saved list cut off anywhere does not load, but for two exact exceptions: if only the last newline is missing it loads to the same list, and the empty file is an empty list of the old format. |
| `Retention.NewestSize` | client/cleanup.cc:524-565 | The newest few are as many as asked for, or all if there are fewer. |
| `Retention.NewestUnique` | client/cleanup.cc:524-565 | They are the only set of that size that lies above all others. |
| `Retention.KeptStable` | client/cleanup.cc:524-565 | Deleting snapshots that are not kept leaves the set of kept numbers unchanged, for the number and the timeline algorithm and either bound. |
| `Retention.MinKeepsLess` | client/cleanup.cc:341-360 | What the lower bounds keep is also kept by the upper bounds. |
| `Retention.NumberCandidates` | client/cleanup.cc:524-565 | The counting loop that erases from the list it walks leaves exactly the tagged snapshots that have at least the limit of newer tagged ones and, if important, at least the other limit of newer important ones. |
| `Retention.IsFirst` | client/cleanup.cc:654-681 | Looking only at the rest of the list, up to the first other period, decides whether a snapshot is the oldest of its period in that rest. |
| `Retention.KeepAny` | client/cleanup.cc:754-793 | One turn of the timeline loop keeps all six counters and the partly erased list right. |
| `Retention.TimelineCandidates` | client/cleanup.cc:733-798 | Six counters and erasing in place: with dates that go up with the numbers, a tagged snapshot is a candidate if and only if for each of the six granularities, with its own limit, it is not the oldest of its period or at least that many later periods have a snapshot. With dates that only do not go down the kept set is as defined without the loop; whatever the dates are, the result is a part of the list. |
| `Retention.SparedByPeriod` | client/cleanup.cc:733-798 | With dates that increase with the numbers, a granularity spares a snapshot if and only if it is the oldest of its period and fewer than the limit of later periods have a snapshot. |
| `Retention.CalculateCandidates` | client/cleanup.cc:524-565 | The candidates of either algorithm for either bound, in the same terms. |
| `Retention.NumberMeaning` | client/cleanup.cc:524-565 | The kept set of the number algorithm in terms of newer snapshots. |
| `Retention.TimelineMeaning` | client/cleanup.cc:733-798 | The kept set of the timeline in terms of periods, all six granularities written out. |
| `Retention.NoRangeNoMore` | client/cleanup.cc:499-503 | A policy is degenerate if and only if no limit has a range; then the lower bounds give no candidate more than the upper ones, so that the conditional passes it goes without would be in vain. |
| `Cleanup.PartnerMatches` | client/proxy/proxy.cc:176-212 | The search for the other half of a pair finds one if there is one. |
| `Cleanup.PartnersMutual` | client/proxy/proxy.cc:176-212 | With one post snapshot for each pre snapshot the other half of the other half is the snapshot itself. |
| `Cleanup.FilterUndeletables` | client/cleanup.cc:181-202 | Exactly the default and the active snapshot are taken out. |
| `Cleanup.FilterMinAge` | client/cleanup.cc:205-210 | Exactly the snapshots younger than the minimum age are taken out. |
| `Cleanup.FilterPrePost` | client/cleanup.cc:213-244 | Exactly the snapshots whose other half exists but is not in the list are taken out. |
| `Cleanup.Filter` | client/cleanup.cc:172-178 | The three filters leave exactly the snapshots that may be deleted together with their other half. |
| `Cleanup.FilterKeepsPairs` | client/cleanup.cc:172-244 | The result is unique, has nothing undeletable or too young, and has a snapshot of a pair if and only if it has the other half. |
| `Cleanup.FirstBatch` | client/cleanup.cc:374-399 | If no candidate that was passed has matured between the last two looks, the first part of the candidates that survives the filters is one unpaired snapshot or one pair. |
| `Cleanup.RoundRule` | client/cleanup.cc:374-399 | With the candidates that every policy has in every list, every round deletes one unpaired snapshot or one pair, if and only if no snapshot matures, that is becomes deletable between the two last looks at the clock and the undeletable snapshots. |
| `Cleanup.Matures` | client/cleanup.cc:374-399 | For every snapshot that matures between two looks there is a policy and a list, with that list as its candidates, in which the round deletes it together with an unrelated one. |
| `Cleanup.Cleaner.Remove` | client/cleanup.cc:247-254 | The batch is deleted one by one until the outside refuses a deletion; nothing else is deleted, and the number of deletions asked for is exact. |
| `Cleanup.Cleaner.CleanupOnce` | client/cleanup.cc:341-349 | Exactly what the filters leave of the candidates of the upper bound, at the next look of the outside, is deleted, unless a deletion is refused. |
| `Cleanup.Cleaner.Round` | client/cleanup.cc:374-399 | A round looks once at each longer part of the candidates, in order. Every part before the last had nothing deletable at its own look; the last is deleted as far as it survives the filters at its look, which makes the list shorter, or all parts were passed over. The batch is one unpaired snapshot or one pair unless a candidate that was passed matured between the last two looks. |
| `Cleanup.Cleaner.CleanupUntil` | client/cleanup.cc:352-404 | The loop ends. All questions but the last were answered with no, one for each batch, and each batch was the first part of the candidates of the lower bound that survived the filters. It ends with the condition satisfied, or with every part of the candidates passed over at the last looks, or with a refused deletion, and exactly then. |
| `Cleanup.Cleaner.CleanupConditions` | client/cleanup.cc:418-446 | The pass for the quota asks the quota, the one for free space asks for free space, in this order, and each that is asked for is run to its end. |
| `Cleanup.Cleaner.Cleanup` | client/cleanup.cc:407-447 | The pass without a condition always takes place: whatever the filters leave of the candidates of the upper bound at the first look is gone, and nothing else unless a conditional pass is run. A conditional pass is run exactly if it is asked for and some limit has a range, and has then ended as above. |
| `Cleanup.Cleaner.Clean` | client/cleanup.cc:407-447 | For every list and all answers of the outside, complete or cut short: what the lower bounds keep on the initial list and what has another tag is still there, and each deleted snapshot was deletable at one of the looks. A complete run has deleted all deletable candidates of the upper bound, exactly these if it had no conditional pass, has run every conditional pass that was asked for until its own condition was satisfied or no candidate was deletable, and leaves pairs whole. It is complete if and only if no deletion was refused. |
| `Cleanup.RunIsSafe` | client/cleanup.cc:341-447 | The same for every sequence of batches, as an invariant over the whole run. |
| `Cleanup.RunKeepsPairs` | client/cleanup.cc:341-447 | Batches that are complete leave or delete pairs as a whole, over the whole run. |
| `Cleanup.SecondPassIsIdle` | client/cleanup.cc:341-349 | A second unconditional pass with the same clock has nothing to delete. |
| `Daemon.NoUses` | server/RefCounter.cc:66-72 | A config has no use if and only if nothing holds it. |
| `Daemon.DecEqualIsDecUse` | server/Client.cc:112-127 | Looking for the Snapper of a comparison among all configs gives back the use of exactly the config it belongs to. |
| `Daemon.BeginComparisonKeepsInv` | server/Client.cc:1460-1486 | The uncounted stretch of CreateComparison is covered by its holder: counts and holders stay equal and everything held stays valid. |
| `Daemon.EndCallKeepsInv` | server/Client.cc:1486-1500 | When the method ends, with the comparison kept or given up, the use passes on or is given back, and what it held was valid until then. |
| `Daemon.DeleteComparisonKeepsInv` | server/Client.cc:1503-1529 | Deleting a comparison gives back its use and no other. |
| `Daemon.RemoveKeepsInv` | server/Client.cc:2195-2205 | Destroying a client gives back the use of each of its comparisons and the count never goes below zero, whether or not the lookup of its mounts throws. |
| `Daemon.CreatePostKeepsInv` | server/Client.cc:1058-1102 | A background task holds its config from the moment it is queued. |
| `Daemon.FinishTaskKeepsInv` | server/Background.cc:105-122 | The worker gives the use back once, although its entry stays queued a little longer. |
| `Daemon.DeleteSnapshotsKeepsInv` | server/Client.cc:1105-1141 | Deleting snapshots leaves every held iterator valid, wherever the loop stops. |
| `Daemon.DeleteConfigKeepsInv` | server/Client.cc:708-733 | Deleting a config leaves no dangling holder. |
| `Daemon.UnloadKeepsInv` | server/snapperd.cc:172-187 | Unloading a Snapper that is not in use leaves no dangling pointer. |
| `Daemon.StepKeepsInv` | server/Client.cc:1460-1529 | Every step of every thread keeps the balance of uses and holders and the validity of everything held. |
| `Daemon.RunsAreSafe` | server/Client.cc:1460-1529 | In every reachable state: the use count of each config is the number of comparisons, running methods and unfinished tasks that hold it; each of them holds a loaded Snapper and snapshots that are still listed; no count was ever lowered at zero. |
| `Daemon.NothingLeaks` | server/RefCounter.cc:43-54 | Once nothing holds a config its count is zero, in every reachable state. |
| `Daemon.DeleteNumsShrinks` | server/Client.cc:1127-1134 | Only listed, requested snapshots are deleted, and none that any client has mounted or that is refused. |
| `Daemon.RecordsAreCalls` | server/Client.cc:130-172 | In every run the recorded locks and mounts of a connected client are its calls of LockConfig and MountSnapshot less those of UnlockConfig and UmountSnapshot, never below zero. |
| `Daemon.LocksProtect` | server/Client.cc:485-530 | Whenever DeleteConfig or DeleteSnapshots changes anything, no other living client has called LockConfig more often than UnlockConfig on the config, and no client has mounted a deleted snapshot more often than unmounted it. |
| `Daemon.ThrowsExactly` | server/Client.cc:65-82 | In every run an exception leaves a destructor if and only if some client is destroyed that has a recorded mount of a config that is gone. |
| `Daemon.DestroyIsSafe` | server/Client.cc:65-82 | Destroying a client is safe if and only if every config still exists of which it has called MountSnapshot more often than UmountSnapshot. |
| `Daemon.MountCanBeLost` | server/Client.cc:65-82 | A run in which it is not safe: another client deletes the config while a snapshot of it is mounted. |
| `DaemonEffects.DeleteNumsExact` | server/Client.cc:1127-1134 | Exactly the numbers before the first one that is mounted, refused or no longer listed go. |
| `DaemonEffects.SnapshotsDeleted` | server/Client.cc:1105-1141 | DeleteSnapshots in every reachable state: if no other living client has locked the config and nothing holds it, exactly the snapshots before the first number that stops the deletion are gone; otherwise none is. Nothing else changes. |
| `DaemonEffects.RunDistinct` | server/Client.cc:1105-1141 | In every reachable state the listed snapshots of a config have different numbers. |
| `DaemonEffects.ConfigDeleted` | server/Client.cc:708-733 | DeleteConfig in every reachable state deletes the config if and only if no other living client has locked it and nothing holds it. |
| `DaemonEffects.ConfigUnloaded` | server/snapperd.cc:172-187 | An idle Snapper is unloaded if and only if no comparison, running method or unfinished task holds it. |
| `DaemonEffects.RequestsList` | server/Client.cc:1058-1102 | Which snapshots are listed after any other request: loading and creating add theirs, unloading and deleting a config take theirs, and no other request changes a list. |
| `DaemonEffects.HeldStays` | server/Client.cc:1460-1529 | While anything holds a config, no step of any thread unloads it or takes a snapshot from its list. |
| `DaemonEffects.BusyStays` | server/Client.cc:1460-1500 | No step of others touches a method that runs without the mutex, or the comparisons of its client. |
| `DaemonEffects.ComparisonMade` | server/Client.cc:1460-1500 | Whatever happens while CreateComparison has given the mutex back, in the end the client has a new comparison of the snapshots with the two numbers, which are still listed, if and only if both were listed and different and comparing did not fail. |
| `DaemonEffects.ComparisonDeleted` | server/Client.cc:1503-1529 | DeleteComparison takes one comparison of the two snapshots from the client if there is one, and otherwise changes nothing. |
| `DaemonEffects.UseIsHeld` | server/Client.cc:1298-1310 | Any other method that gives the mutex back holds its config from then on. |
| `DaemonEffects.TasksInOrder` | server/Background.cc:47-122 | In every run the background tasks are done in the order in which they were queued, each once. |
| `DaemonEffects.TaskCompares` | server/Client.cc:1058-1102 | A queued task compares the new post snapshot with its pre snapshot. |
| `DaemonEffects.ClientsComeAndGo` | server/Client.cc:2195-2205 | A client is connected from its first message until it has disconnected and none of its methods runs. |
| `DaemonEffects.LockedByCalls` | server/Client.cc:485-530 | A config is locked for a client if and only if some other living client has called LockConfig more often than UnlockConfig. |
| `DaemonEffects.MountedByCalls` | server/Client.cc:485-530 | A snapshot counts as mounted if and only if some client has called MountSnapshot more often than UmountSnapshot. |
| `Trie.SplitUnsplit` | snapper/Btrfs.cc:536-558 | Paths of components without slashes are the names and back. |
| `Trie.UnsplitSplit` | snapper/Btrfs.cc:536-558 | Taking components off a name at its slashes loses nothing, also with empty components. |
| `Trie.InsertFinds` | snapper/Btrfs.cc:561-583 | After an insertion every path finds what it found before, and the new path and those above it are there. |
| `Trie.InsertStatus` | snapper/Btrfs.cc:561-583 | Insertion alone changes nothing about the flat map. |
| `Trie.EraseStatus` | snapper/Btrfs.cc:586-618 | Erasing takes exactly one path from the flat map, although it prunes nodes on the way. |
| `Trie.EraseLean` | snapper/Btrfs.cc:586-618 | After erasing no leaf has status zero, whatever the erased node was like. |
| `Trie.EraseKeepsLean` | snapper/Btrfs.cc:586-618 | Erasing any path, found or not, leaves no leaf with status zero if there was none. |
| `Trie.PresentIff` | snapper/Btrfs.cc:536-558 | A path is found if and only if the flat map has a path at or below it. |
| `Trie.RenameStatus` | snapper/Btrfs.cc:621-638 | Renaming moves exactly the statuses at and below the old path to the new one, by swapping children and pruning. |
| `Trie.RenameLean` | snapper/Btrfs.cc:621-638 | Renaming leaves no leaf with status zero. |
| `Trie.Result` | snapper/Btrfs.cc:739-757 | Every path of the flat map is reported once with its status, and nothing else, in the order of the nested maps and under the name that the prefixes give. |
| `Trie.ReportsAreMap` | snapper/Btrfs.cc:738-757 | The reports of a whole trie are its flat map: each stands for a path with that status, and each path is reported under a slash and its name. |
| `Trie.NameExact` | snapper/Btrfs.cc:739-757 | The reported name is the path joined by slashes if and only if the first component is not empty or is the only one. |
| `Trie.ListsOnce` | snapper/Btrfs.cc:739-757 | A list in the order of the nested maps has no path twice. |
| `Trie.StreamProcessor.Created` | snapper/Btrfs.cc:789-803 | Only the one path changes: to created if nothing at or below it was reported, otherwise to neither created nor deleted but a change of content, permissions, owner, group and attributes. |
| `Trie.StreamProcessor.Deleted` | snapper/Btrfs.cc:806-819 | Only the one path changes: to deleted if nothing at or below it was reported, otherwise to nothing. |
| `Trie.StreamProcessor.Renamed` | snapper/Btrfs.cc:621-638 | The move succeeds if and only if something at or below the old path was reported and nothing at or below the new one, and then moves exactly the subtree. |
| `Numbering.Highest` | snapper/Snapshot.cc:501-503 | The highest of the last entry and all directories. |
| `Numbering.FreeNumber` | snapper/Snapshot.cc:508-522 | The first number above that is neither a snapshot of the file system nor a directory; the search ends. |
| `Numbering.RemoveStale` | snapper/Snapshot.cc:529-533 | Exactly the empty directories of the first look that belong to no entry are removed. |
| `Numbering.Snapshots.NextNumber` | snapper/Snapshot.cc:484-536 | The number is one above every entry and directory, and only the directories of entries and the new one are left. |
| `Numbering.Snapshots.Create` | snapper/Snapshot.cc:775-815 | A creation that succeeds gets the number one above everything in sight, and its entry and info file; one that fails leaves entries and info files alone, and one that fails half-way only the directories of entries. The highest number is remembered, or not, accordingly. |
| `Numbering.Snapshots.CreatePost` | snapper/Snapshot.cc:754-772 | Accepted if and only if there is a pre snapshot with the number and no post snapshot of it yet; then a creation as above. |
| `Numbering.Snapshots.Delete` | snapper/Snapshot.cc:845-880 | Refused exactly for missing, current and undeletable snapshots. Otherwise the entry, the info file and the file system snapshot of that number go, and its directory unless numbers are unique and it was the highest; nothing else goes. With unique numbers the memory of the highest number survives any deletion, and without them it is lost exactly with that number. |
| `Numbering.Snapshots.Reload` | snapper/Snapshot.cc:237-333 | Reading the directories in any order gives back exactly the list that was in memory. |
| `Numbering.NumbersIncrease` | snapper/Snapshot.cc:484-536 | Over every run of creations with any outcome, deletions and reloads the numbers strictly increase if and only if no snapshot is created after the highest number was forgotten: by a creation that failed half-way while the highest number was not in the list, or, without unique numbers, by its deletion. |
| `Numbering.ListIsLatest` | snapper/Snapshot.cc:775-880 | In every run the list holds, under each number, what was created last with it and not deleted since. |
| `Numbering.GoneUntilGiven` | snapper/Snapshot.cc:845-880 | In every run a deleted number is not listed until it is given again. |
| `Numbering.NoFailureNoRepeat` | snapper/Snapshot.cc:484-536 | With unique numbers and no creation that fails half-way the numbers strictly increase, whatever is deleted and reloaded. |
| `Numbering.RememberedUnlessForgotten` | snapper/Snapshot.cc:524-533 | As long as the numbers of a run increase, the highest has a directory if and only if it was never forgotten. |
| `Numbering.PostAfterPre` | snapper/Snapshot.cc:754-772 | In every run each post snapshot was created after a pre snapshot of its pre number. |
| `Numbering.Serve` | snapper/Snapshot.cc:484-536 | Serving any requests leaves the store, and gives the numbers, of the run as a function of the requests. |
| `Numbering.NeverRebound` | snapper/Snapshot.cc:448-481 | In every run in which no snapshot is created after the highest number was forgotten, what is found as the pre snapshot of a post snapshot is the one that it was made for, and it has no other post snapshot. |
| `Numbering.NumberComesBack` | snapper/Snapshot.cc:784-813 | The run in which it does: a snapshot is created and deleted, a creation fails half-way, and the next snapshot gets the same number again. |
| `XAttributes.MergeCommon` | snapper/XAttributes.cc:259-291 | The loop over both sorted lists keeps the three lists exact on the names passed. |
| `XAttributes.XAModification.constructor` | snapper/XAttributes.cc:254-305 | The lists hold exactly the attributes missing in the destination, missing in the source, and different, each once. |
| `XAttributes.InOrder` | snapper/XAttributes.cc:315-379 | Applying the lists in order never creates an existing name nor removes or replaces a missing one, and makes the file like the source in the picked names and leaves the others. |
| `XAttributes.XAModification.SerializeTo` | snapper/XAttributes.cc:315-379 | On the file that the difference was made for all calls succeed; the file ends with the attributes of the source in the names that were not filtered out, and with its own in the others. |
| `XAttributes.XAModification.FilterOutAcls` | snapper/XAttributes.cc:459-470 | The difference becomes exact on the names that are not access control lists, so that applying it leaves those alone. |
| `XAttributes.ModifyXattributes` | snapper/File.cc:562-589 | The whole undo of attributes: no call is refused, access control lists stay as they are, and all other attributes are those of the snapshot. |
| `Stomp.EscapeRoundTrip` | stomp/Stomp.cc:195-256 | Any string survives escaping and unescaping, and its escaped form has no colon, newline or carriage return. |
| `Stomp.EscapeHeader` | stomp/Stomp.cc:195-219 | The loop computes the escaped form. |
| `Stomp.UnescapeHeader` | stomp/Stomp.cc:222-256 | The loop computes the unescaped form, with an error for a lone or unknown escape. |
| `Stomp.WriteMessage` | stomp/Stomp.cc:157-166 | The frame of a message, with its headers in any given order. |
| `Stomp.ReadMessage` | stomp/Stomp.cc:67-154 | The state machine over lines and characters computes the declarative reading of a message, leaves the stream right behind it, and fails exactly where that fails. |
| `Stomp.TakeBody` | stomp/Stomp.cc:106-129 | The body ends at the announced length, with a NUL behind it, or at the first NUL. |
| `Stomp.FrameRoundTrip` | stomp/Stomp.cc:67-166 | A written message is read back, with whatever follows untouched, if and only if its command is a word and its content-length header, if it has one, is the length of the body, or else the body has no NUL; the one other case is the empty message at the end of the stream. |
| `Stomp.FramesRoundTrip` | stomp/Stomp.cc:67-166 | Any list of such messages is read back from the concatenation of its frames. |
| `StompGrammar.FrameIsRead` | stomp/Stomp.cc:67-154 | Any frame is read, whatever its lines end in, whatever empty lines come before it and however often a key comes; what follows is untouched. |
| `StompGrammar.CollectedIs` | stomp/Stomp.cc:143-144 | Of a repeated header the last one counts. |
| `StompGrammar.HeaderExact` | stomp/Stomp.cc:131-144 | A line is a header if and only if it is an escaped key, a colon and an escaped value, and a length in it is one. |
| `StompGrammar.UnescapeExact` | stomp/Stomp.cc:222-256 | A string is unescaped if and only if it is made of plain characters and the four escapes, and then to what they stand for. |
| `StompGrammar.LengthOfDecimal` | stomp/Stomp.cc:35-64 | A decimal length is taken if and only if a signed 64-bit number holds it. |
| `StompGrammar.BadCommand` | stomp/Stomp.cc:80-98 | A first line that is not a word is an error. |
| `StompGrammar.BadHeader` | stomp/Stomp.cc:131-154 | After any headers a line that is none, and the end of the stream in the middle of a line, is an error. |
| `StompGrammar.BadBody` | stomp/Stomp.cc:106-124 | With a length in the headers, a body that is too short or not followed by a NUL is an error. |
| `Escape.RoundTrip` | dbus/DBusMessage.cc:380-464 | Unescaping inverts the escaping for messages and the one for the pipe, on all byte strings. |
| `Escape.EscapedAlphabet` | dbus/DBusPipe.cc:120-144 | Escaped for a message a string is ASCII; escaped for the pipe it has no byte up to the space. |
| `Escape.PlainIsKept` | dbus/DBusMessage.cc:440-464 | A string without backslashes and bytes that its carrier does not take is not changed. |
| `Escape.UnescapeExact` | dbus/DBusMessage.cc:380-422 | A string is unescaped if and only if it is made of plain bytes, doubled backslashes and two-digit hexadecimal sequences, and then to what they stand for. |
| `Escape.EscapeString` | dbus/DBusMessage.cc:440-464 | The loop computes the escaped form for either carrier. |
| `Escape.UnescapeString` | dbus/DBusMessage.cc:380-422 | The loop with its moving iterator computes the unescaped form, with an error for every malformed sequence. |
| `Escape.CdbusEscape` | pam/pam_snapper.c:147-172 | The loop over a C string writes the same escaped form and its end into a buffer of four bytes for each byte and one more, never beyond it. |
| `FilePipe.LineRoundTrip` | client/proxy/commands.cc:581-592 | A line is parsed to the name and status it was made of, for all byte strings and all 32-bit statuses, and has neither a newline nor a NUL inside. |
| `FilePipe.PipeRoundTrip` | client/proxy/commands.cc:564-594 | Any list of files goes through the pipe unchanged. |
| `FilePipe.ShortLine` | server/FilesTransferTask.cc:42-43 | The check for short lines strikes if and only if the name is empty and the status has one digit. |
| `FilePipe.Send` | server/FilesTransferTask.cc:33-51 | The lines of all files are written, or an error is reported exactly for such a file. |
| `FilePipe.Receive` | client/proxy/commands.cc:564-594 | The loop over lines, each cut at its first NUL, reads the list, or fails on the first line that cannot be parsed. |
| `FilePipe.ParseExact` | client/proxy/commands.cc:581-592 | A line is taken if and only if it is an escaped name, a space and a number, up to its end or another space. |
| `FilePipe.ReceivedExactly` | client/proxy/commands.cc:564-594 | Lines are read if and only if each of them is a file, and then as these files. |
| `Lvm.NoneIsolated` | snapper/Lvm.cc:444-449 | In a name with doubled hyphens no hyphen stands alone. |
| `Lvm.OnePlace` | snapper/LvmUtils.cc:37-51 | The hyphen between the two names is the only place where a device name can be split, and it is one if and only if both names are non-empty, the first does not end and the second does not start with a hyphen. |
| `Lvm.SplitRoundTrip` | snapper/LvmUtils.cc:37-51 | Splitting a device name gives the names it was made of under that condition, and otherwise fails: it never gives other names. |
| `Lvm.SnapshotDevice` | snapper/Lvm.cc:247-251 | The device of a snapshot leads back to its volume group and volume under the same condition on the config's volume. |

## Left out

- Extended attributes and access control lists in comparison and undo: the trees are those of a build without them; they are modelled on their own in `XAttributes.dfy`.
- Modification times and special files are not restored by undo, and undo is proved for trees without special files; the comparison reports them.
- Undo across file systems: the comparison knows devices, the undo theorem takes one device for each tree.
- Contents that cannot be read, which the comparison reports as changed.
- Hard links: paths hold nodes of their own, so a step on one name of an inode does not show under another.
- Undo.System.CreateParentDirectories: leaves the outcome open with a symbolic link above the path, because it depends on where the link leads.
- Undo.System.CreateDirectory: leaves the outcome open with a symbolic link above or at the path, for the same reason.
- Undo.System.CreateFile: leaves the outcome open with a symbolic link above or at the path, for the same reason; writing is taken to leave the mode alone.
- Undo.System.CreateLink: leaves the outcome open with a symbolic link above the path, for the same reason.
- Undo.System.DeleteAllTypes: leaves the outcome open with a symbolic link above the path, for the same reason.
- Undo.System.CreateAllTypes: leaves the outcome open where one of these does.
- UndoPlan.TurnFails: decides nothing about a deleted file below an unselected symbolic link, where it depends on where the link leads.
- Undo.System.ModifyAllTypes: states the outcome only where a node of the same type is there, which is all that a modification is reported for; in other states that no other path is harmed.
- Undo.System.DoUndo: states the new tree only where undoing works, and where the two causes of failure apply only that it fails; otherwise only what stays.
- Races with other processes on the live system.
- The absolute names that the command takes: they are looked up as the names in the list.
- The root directory's own attributes, which the comparison does not look at.
- Ignore patterns and fnmatch, and locale collation of names, for which byte order stands.
- The mutation of the trie through pointers to nodes: the trie is a value that the stream processor reassigns.
- Trie.StreamProcessor.Renamed: excludes the rename of a reported path to an unreported one below itself, which the stream never asks for.
- The stream commands of btrfs send, among them the merge of a subtree, and the agreement of this way of comparing with the other.
- Error returns of zlib, read-only checks, mounting and the choice between compressed and plain cache files.
- Retention.TimelineCandidates: takes the calendar as six monotone functions from dates to periods and assumes dates that do not decrease with the numbers; the time zone is not modelled.
- The cleanup that looks for empty pairs, the parsing of limits, and the computation of quota and free space behind the conditions.
- The server's mutexes and queues themselves: each step is atomic, and steps of different threads interleave freely. The time after which a Snapper is unloaded is any time.
- Permissions of clients, changing a config while it is in use, the wrap-around of lock counts at 32 bits, the unmounting itself when a client is destroyed and the loading of Snappers for it, mounts at the user's own request, which are not recorded, and the counts of mounts in the snapshots.
- The daemon's own choice of numbers: a creation gets its number from outside, and one that is listed, like a list with a number twice, is not taken; `Numbering.dfy` shows why none is offered.
- Failing comparisons in the background worker, which end the process.
- Snapshot numbers do not wrap at 32 bits and nothing else edits the directories.
- Stomp.WriteMessage: takes the order of headers as a parameter, so that the round trip holds for every order and not only for that of the map.
- Lvm.SplitRoundTrip: takes the pattern's dot to match every character.
- D-Bus marshalling other than strings, sysconfig files, plugins, the PAM module beyond escaping, option parsing, tables, JSON and CSV output.
