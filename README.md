# btrfs-assistant: a Dafny model of the inventory and restore logic

This project models the core of `BtrfsAssistant` (btrfs-assistant.cpp). That core does two things:

- It reads the text output of btrfs, findmnt and snapper commands and fills the program's member maps:
  - `fsMap`, the file systems with their usage figures and subvolume id-to-path maps;
  - `snapperConfigs` and `snapperSnapshots`;
  - `snapperSubvolumes`, the restore-mode grouping;
  - the snapshot-boot flag `isSnapBoot`.
- It restores a snapper snapshot. The target subvolume is renamed to a backup, the snapshot is snapshotted into the target's place, and the nested subvolumes are moved back. An existence check follows every step.

How the world is represented:

- **Query commands.** Every query command is represented by its text output, fixed for one operation. The `Probe` datatype in `Environment` holds them: `findmnt`, `btrfs filesystem show`, `btrfs fi usage`, `btrfs subvolume list`, `snapper list-configs`, `snapper list`, `find ... -name info.xml` and `cat`.
- **Disk-changing commands.** The commands that change the disk (`mv`, `btrfs subvolume snapshot`, `mkdir`, `mount`) go to a `Host` object. The host logs them and applies an `Effect` oracle to an abstract set of existing paths, so every outcome the program's checks can meet is covered.
- **Qt behaviour.** The Qt behaviour the code relies on is modelled explicitly:
  - `QString::split` keeps empty parts;
  - `left`/`right` with an out-of-range count return the whole text;
  - `trimmed` uses `QChar::isSpace`;
  - `toLong`/`toInt` give 0 on a malformed or out-of-range numeral;
  - `QMap::key` returns the least key holding the value, or "";
  - `QMap::operator[]` inserts a zero-initialised record for a missing key.
- **Undefined column reads.** Reading a column a line does not have (`QList::at` out of range) is undefined in the program. The model states, as a precondition, which columns a text must have.

Modules, in dependency order:

| Module | What it holds |
|---|---|
| `Options` | the `Option` datatype |
| `Seqs` | generic sequence folds |
| `QtText` | Qt string operations |
| `QtNumbers` | numeral conversion |
| `QtMap` | `QMap::key` |
| `Environment` | `Probe`, `Command`, `Host` |
| `Classify` | `isSnapper` and `isTimeshift` |
| `Shell` | the list overload of `runCmd` |
| `MountOptions` | `findRootSubvol` and the snapshot-boot parse |
| `TopLevel` | `mountRoot` |
| `Inventory` | the usage report, the subvolume list, `findBtrfsChildren` and the file-system map of `loadBTRFS` |
| `Snapper` | `getSnapperMeta` and the snapper tables |
| `SnapperLoad` | `loadSnapper` |
| `Restore` | `restoreSnapshot` as a specification |
| `RestoreMode` | `loadSnapperRestoreMode` |
| `Assistant` | the `BtrfsAssistant` class: its member maps, its flag, and imperative methods proved against the specification functions above |

The model keeps these quirks of the code:

- **Leading slash.** `isSnapper` does not special-case a leading slash, so "/.snapshots/3/snapshot" is a snapper path (`Classify.LeadingSlashIsSnapper`).
- **Snapshot-boot detection.** The detection reads the options of the `findmnt` line for "/", not the kernel command line.
- **Nested-subvolume migration.** The migration stops at the first child that does not arrive. It does not carry on with the others.

## Model

| member | source | states |
|---|---|---|
| Classify.SnapshotPathIsSnapper | btrfs-assistant.cpp:449 | every `<prefix>.snapshots/<n>/snapshot` path is a snapper snapshot |
| Classify.SnapshotsDirIsNotSnapper | btrfs-assistant.cpp:449 | a path ending in the ".snapshots" directory itself is not a snapshot |
| Classify.LeadingSlashIsSnapper | btrfs-assistant.cpp:449 | a leading slash does not stop a root snapshot path from being classified as snapper |
| Classify.StripKeepsClass | btrfs-assistant.cpp:453-465 | removing one leading '/' changes neither the snapper nor the Timeshift classification |
| Classify.StripLeadingSlash | btrfs-assistant.cpp:454-455 | exactly one leading '/' is removed, and a path without one is unchanged |
| Shell.JoinCommands | btrfs-assistant.cpp:26-37 | the loop builds the command line that joins the commands from the first non-empty one on with "; ", keeping later empty ones |
| Shell.CommandLineSnoc | btrfs-assistant.cpp:28-33 | one more command is appended after "; ", or becomes the whole line while it is still empty |
| Shell.CommandLineEmpty | btrfs-assistant.cpp:28-33 | the command line is empty exactly when every command is empty |
| Shell.CommandLineSplits | btrfs-assistant.cpp:26-37 | the line splits back at "; " into the commands after the leading empty ones, when no command contains "; " |
| QtMap.Key | btrfs-assistant.cpp:468 | the lookup gives the least key holding the value, or "" when no key holds it |
| QtMap.KeyFound | btrfs-assistant.cpp:468-472 | a non-empty answer is a key that maps to the value; with no "" key, a value held by a non-empty key is always found |
| QtMap.LeastKeyUnique | btrfs-assistant.cpp:468 | the least key holding a value is unique |
| QtNumbers.ToLong | btrfs-assistant.cpp:205 | the conversion always lies in the 64-bit range |
| QtNumbers.ConvertsDecimal | btrfs-assistant.cpp:205 | toLong and toInt read back every numeral in their range, also with white space around it |
| QtNumbers.RejectsTrailingText | btrfs-assistant.cpp:205 | a numeral followed by another character converts to 0 |
| QtNumbers.DecimalValue | btrfs-assistant.cpp:205 | reading a number's numeral gives the number |
| QtText.Left | btrfs-assistant.cpp:483 | `left(n)` is a prefix of length n, or the whole text for n out of range |
| QtText.Right | btrfs-assistant.cpp:455 | `right(n)` is a suffix of length n, or the whole text for n out of range |
| QtText.Trimmed | btrfs-assistant.cpp:591 | the trimmed text neither starts nor ends with white space |
| QtText.TrimmedIsSlice | btrfs-assistant.cpp:591 | the trimmed text is a slice with only white space cut off on both sides |
| QtText.TrimmedPadded | btrfs-assistant.cpp:591 | trimming removes exactly the padding around a text without white space at its ends |
| QtText.JoinSplit | btrfs-assistant.cpp:588 | splitting and joining with the same separator gives the text back |
| QtText.SplitJoin | btrfs-assistant.cpp:588 | joining parts free of a self-delimiting separator and splitting again gives the parts back |
| QtText.SplitPartsFree | btrfs-assistant.cpp:588 | no part of a split contains the separator |
| QtText.SplitHead | btrfs-assistant.cpp:475 | the first part of a split is the text before the first occurrence of the separator |
| QtText.IndexOf | btrfs-assistant.cpp:475 | the result is the first occurrence, or -1 when there is none |
| QtText.FirstWord | btrfs-assistant.cpp:211 | the first run of non-space characters, and None exactly for an all-white-space text |
| MountOptions.ParseRootMount | btrfs-assistant.cpp:164-171 | empty output gives nothing; a parse always has a non-empty uuid and non-empty options |
| MountOptions.ParseRootMountFormatted | btrfs-assistant.cpp:168-169 | a "uuid options" line parses back into its uuid and options |
| MountOptions.OptionValueOf | btrfs-assistant.cpp:177 | `subvol=<v>` gives back v |
| MountOptions.LastSubvolIsLast | btrfs-assistant.cpp:174-178 | the last `subvol=` option wins, and "" results when there is none |
| MountOptions.SubvolOption | btrfs-assistant.cpp:174-178 | the options loop computes the last `subvol=` value |
| MountOptions.RootSubvol | btrfs-assistant.cpp:163-186 | "" when the output, uuid or options are empty; otherwise the last `subvol=` value minus one leading '/' |
| MountOptions.FindRootSubvol | btrfs-assistant.cpp:163-186 | findRootSubvol computes RootSubvol |
| MountOptions.RootSubvolFormatted | btrfs-assistant.cpp:163-186 | for a formatted findmnt line, the result is the last `subvol=` value without its leading '/' |
| MountOptions.SnapshotBoot | btrfs-assistant.cpp:1055-1072 | a detected boot has a uuid and a `subvol=` value containing ".snapshots", which stripped is the root subvolume |
| MountOptions.ReadSnapshotBoot | btrfs-assistant.cpp:1055-1072 | the detection code computes SnapshotBoot |
| MountOptions.SnapshotBootIffSnapshotRoot | btrfs-assistant.cpp:1064-1072 | a snapshot boot is detected exactly when the root subvolume contains ".snapshots" |
| TopLevel.FindTopLevelMount | btrfs-assistant.cpp:415-420 | the search loop ends with the target of the last line for the uuid, or "" |
| TopLevel.FoundMountNone | btrfs-assistant.cpp:415-420 | with no line for the uuid the search finds "" |
| TopLevel.FoundMountIsLast | btrfs-assistant.cpp:415-420 | the search finds the target of the last line for the uuid |
| TopLevel.MountPlanCases | btrfs-assistant.cpp:413-430 | the mount point is never empty; it is a listed top-level mount of the uuid with no command, or the fresh /tmp directory after exactly mkdir and mount |
| TopLevel.UnmountedGetsFreshDir | btrfs-assistant.cpp:422-427 | without a listed mount, the fresh directory is used and two commands are issued |
| TopLevel.WithTrailingSlash | btrfs-assistant.cpp:503-504 | the result ends with '/', extends the path and adds at most one character; a path already ending with '/' is left as it is, so adding the slash twice is adding it once |
| Inventory.Touch | btrfs-assistant.cpp:468 | operator[] adds the key with a zero record when missing and changes no existing record |
| Inventory.ApplyKeepsOtherFigures | btrfs-assistant.cpp:203-221 | a usage line leaves alone every figure its heading does not record |
| Inventory.ApplySetsOwnFigures | btrfs-assistant.cpp:203-221 | a usage line sets each figure its heading records to the value its columns give |
| Inventory.Apply | btrfs-assistant.cpp:203-221 | a usage line never changes the mount point or the subvolumes |
| Inventory.ApplyLine | btrfs-assistant.cpp:203-221 | the loop body tries the headings in the program's order and computes the line's update |
| Inventory.ParseUsageReport | btrfs-assistant.cpp:198-222 | the usage loop, from the zero record, computes UsageReport |
| Inventory.UsageFromLastSetter | btrfs-assistant.cpp:202-222 | each figure comes from the last line recording it, or keeps its start value; the mount point and subvolumes are untouched |
| Inventory.LastSetterIsLast | btrfs-assistant.cpp:202-222 | no line after the last setter records the figure |
| Inventory.UsageReportEmpty | btrfs-assistant.cpp:198-202 | an empty report leaves the zero record |
| Inventory.UsageReportBlank | btrfs-assistant.cpp:198-200 | a usage record keeps its mount point and has no subvolumes |
| Inventory.ParseSubvolumeList | btrfs-assistant.cpp:296-303 | the listing loop computes the id-to-path map |
| Inventory.SubvolMapLookup | btrfs-assistant.cpp:298-301 | an id is in the map exactly when a non-empty line has it, and maps to column 8 of the last such line |
| Inventory.LastWithId | btrfs-assistant.cpp:298-301 | the last non-empty line carrying the id, with no later line carrying it |
| Inventory.ListingLineParses | btrfs-assistant.cpp:298-301 | a printed listing line parses to exactly its id and path |
| Inventory.FindBtrfsChildren | btrfs-assistant.cpp:143-159 | the loop computes the children: none for empty output, otherwise column 2 of each line whose column 1 is the id |
| Inventory.ChildrenAppend | btrfs-assistant.cpp:151-156 | the children of two stretches of output are those of the first followed by those of the second, so output order is kept |
| Inventory.ChildrenMembers | btrfs-assistant.cpp:151-156 | every child comes from a line with the parent id, and every such line contributes its path |
| Inventory.FsMapFromEntries | btrfs-assistant.cpp:196-226 | a uuid is recorded exactly when listed with a mount point, with the usage record of that mount point and no subvolumes |
| Inventory.DeviceItems | btrfs-assistant.cpp:224 | every offered uuid is listed and has a mount point |
| Inventory.DeviceItemsAreRecorded | btrfs-assistant.cpp:196-226 | a uuid is offered exactly when listed with a mount point, exactly when it is recorded |
| Inventory.FirstMounted | btrfs-assistant.cpp:227-228 | a non-empty selection is a listed uuid with a mount point |
| Inventory.InventoryStep | btrfs-assistant.cpp:196-226 | one turn of the loop adds the uuid to the map and the items exactly when it has a mount point |
| Snapper.TagValueOf | btrfs-assistant.cpp:673-677 | a value without '<' or padding is read back from between its tags |
| Snapper.TagLine | btrfs-assistant.cpp:672-677 | an indented tag line trims to the tag and reads back its value |
| Snapper.NumLine | btrfs-assistant.cpp:672-673 | a `<num>` line sets the number to the value's conversion and nothing else |
| Snapper.DateLine | btrfs-assistant.cpp:674-675 | a `<date>` line sets the time and nothing else |
| Snapper.DescLine | btrfs-assistant.cpp:676-677 | a `<description>` line sets the description and nothing else |
| Snapper.TagsExclusive | btrfs-assistant.cpp:672-677 | a line starts with at most one of the three tags |
| Snapper.MetaLineFields | btrfs-assistant.cpp:671-678 | each field is set by a line with its tag and kept by every other line |
| Snapper.UntaggedKeeps | btrfs-assistant.cpp:671-678 | a line without a tag changes nothing |
| Snapper.MetaIgnoresUntagged | btrfs-assistant.cpp:671-678 | untagged lines change nothing wherever they are |
| Snapper.MetaTakesLastTags | btrfs-assistant.cpp:671-678 | each field comes from the last line carrying its tag, later lines winning |
| Snapper.MetaOfText | btrfs-assistant.cpp:663-681 | empty text gives number 0 and empty texts; otherwise each field is that of the last line with its tag |
| Snapper.GetSnapperMeta | btrfs-assistant.cpp:663-681 | the loop computes the metadata of the text |
| Snapper.RowsInOrder | btrfs-assistant.cpp:655-658 | one snapshot per row, in row order |
| Snapper.ParseSnapshotRows | btrfs-assistant.cpp:655-658 | the loop appends the rows' snapshots in order |
| Snapper.FormatRowSplits | btrfs-assistant.cpp:658 | a printed table row splits at '|' into cells that trim to its fields |
| Snapper.RowOfFormatted | btrfs-assistant.cpp:658 | a printed row reads back as the snapshot it describes |
| Snapper.CellTrims | btrfs-assistant.cpp:658 | a padded cell has no '|' and trims to its text |
| SnapperLoad.AppendAll | btrfs-assistant.cpp:649 | appending grows only the named list, by exactly the values, and creates it only when there is one |
| SnapperLoad.Unnumbered | btrfs-assistant.cpp:645-650 | the snapshot-boot branch keeps only records numbered 0 |
| SnapperLoad.UnnumberedFromFiles | btrfs-assistant.cpp:645-650 | every kept record is the metadata of a listed info.xml file |
| SnapperLoad.UnnumberedStep | btrfs-assistant.cpp:646-650 | one file appends its record exactly when its number is 0 |
| SnapperLoad.BootSnapshotsAppends | btrfs-assistant.cpp:597-650 | the snapshot-boot branch changes no configuration and only appends records numbered 0 under its own name |
| SnapperLoad.ConfigLineConfigs | btrfs-assistant.cpp:591-592 | every configuration line records its name and subvolume, whatever branch it takes |
| SnapperLoad.ConfigLineRootUnnumbered | btrfs-assistant.cpp:597-650 | after a snapshot boot a line keeps every "root" record unnumbered |
| SnapperLoad.ConfigLineNoBoot | btrfs-assistant.cpp:651-659 | without a snapshot boot a line issues nothing, leaves the file-system map alone and appends its listed rows |
| SnapperLoad.ConfigsLastWins | btrfs-assistant.cpp:588-592 | a configuration's subvolume comes from the last line naming it, and unnamed ones are untouched |
| SnapperLoad.LoadSnapperConfigs | btrfs-assistant.cpp:573-661 | after loadSnapper the configurations are exactly the names listed, each with its last subvolume |
| SnapperLoad.BootRootUnnumbered | btrfs-assistant.cpp:588-660 | after a snapshot boot every "root" record the load adds is numbered 0 |
| SnapperLoad.NoBootNoMount | btrfs-assistant.cpp:588-660 | without a snapshot boot nothing is mounted and the file-system map is untouched |
| SnapperLoad.SnapshotsListed | btrfs-assistant.cpp:651-659 | without a snapshot boot a configuration holds its `snapper list` rows, once per line naming it |
| SnapperLoad.ListedRowsSnoc | btrfs-assistant.cpp:651-659 | one more line adds its rows under its own name only |
| SnapperLoad.LoadConfigsStep | btrfs-assistant.cpp:588-660 | one more configuration line extends the load by that line's step |
| Restore.Validate | btrfs-assistant.cpp:453-491 | a refusal happens before any command and is never the confirmation's |
| Restore.ValidateRefusals | btrfs-assistant.cpp:453-472 | Timeshift paths are refused first, then non-snapper paths, then snapper paths no id maps to |
| Restore.ValidateGo | btrfs-assistant.cpp:467-491 | a restore past the checks has a snapper source held by an id, the resolved target and the least id holding it |
| Restore.TargetOfNested | btrfs-assistant.cpp:474-484 | a snapshot `<t>/.snapshots/<n>/snapshot` restores t |
| Restore.TargetOfRootSnapshot | btrfs-assistant.cpp:478-481 | a snapshot `.snapshots/<n>/snapshot` restores the subvolume mounted as "/" |
| Restore.Stamp | btrfs-assistant.cpp:507 | the time stamp is nine digits |
| Restore.StampRoundTrip | btrfs-assistant.cpp:507 | the stamp reads back as the time it was made from |
| Restore.StampInjective | btrfs-assistant.cpp:507 | different times give different stamps |
| Restore.BackupName | btrfs-assistant.cpp:507 | the backup name is "restore_backup_", the target and "_", then nine more characters |
| Restore.BackupNamePrefixed | btrfs-assistant.cpp:507 | every backup name starts with "restore_backup_" |
| Restore.BackupNameInjective | btrfs-assistant.cpp:507 | different targets or times give different backup names |
| Restore.RelocatedUnderBackup | btrfs-assistant.cpp:522-527 | a source below the target is, after the rename, the same path below the backup |
| Restore.ChildRelativeOf | btrfs-assistant.cpp:542-548 | a child `<target>/<rel>` is rel relative to the target |
| Restore.ChildRoundTrip | btrfs-assistant.cpp:541-550 | a child's move starts where the rename put it, and the check looks at its original path |
| Restore.MigrateStopsAtFirstFailure | btrfs-assistant.cpp:540-556 | either every child was moved in order and found, or the moves stop right after the first child not found |
| Restore.StoppedLater | btrfs-assistant.cpp:542-556 | a stop at child k of the rest is a stop at child k + 1 of the whole |
| Restore.ExecuteSteps | btrfs-assistant.cpp:514-556 | a failed rename issues nothing more; a missing snapshot issues exactly one rename back; otherwise the children's moves follow, and completion requires every child found |
| Restore.ExecuteIssues | btrfs-assistant.cpp:514-515 | the sequence always starts with the rename and never ends in a check's outcome |
| Restore.RestoreCommandsIffPastChecks | btrfs-assistant.cpp:452-562 | no command is issued exactly when a check refuses or the restore is declined |
| Restore.RestoredNamesBackup | btrfs-assistant.cpp:452-562 | a completed restore was confirmed and validated, and names the backup built from the target and the time |
| RestoreMode.GroupKey | btrfs-assistant.cpp:1158-1179 | the load stops only over empty root options; a root snapshot's key is never empty |
| RestoreMode.InfoFileOfRootSnapshot | btrfs-assistant.cpp:1144-1146 | a root snapshot's info.xml is read below "/" |
| RestoreMode.InfoFileOfNested | btrfs-assistant.cpp:1147-1148 | a nested subvolume's snapshot has its info.xml read below the top-level mount point |
| RestoreMode.NestedNotRoot | btrfs-assistant.cpp:1145 | a nested subvolume's path does not start with ".snapshots" |
| RestoreMode.GroupKeyOfNested | btrfs-assistant.cpp:1158-1179 | a snapshot of a nested subvolume t is filed under t |
| RestoreMode.GroupKeyOfRootSnapshot | btrfs-assistant.cpp:1160-1177 | a root snapshot stops the load exactly over empty options, and is filed under "root" when they name no subvolume |
| RestoreMode.GroupKeyOfRootSnapshotNamed | btrfs-assistant.cpp:1160-1177 | a root snapshot is filed under the value of the last `subvol=` root mount option with one leading '/' dropped, or under "root" when nothing is left of it |
| RestoreMode.FsListing | btrfs-assistant.cpp:1103-1117 | a non-empty listing is readable: its lines and the top-level mount lines have the columns the loop reads |
| RestoreMode.GroupFsSkips | btrfs-assistant.cpp:1103-1120 | a file system without a real mount, with an empty target column or with an empty listing leaves the grouping unchanged, as does a load that already stopped; otherwise its turn issues exactly the top-level mount commands |
| RestoreMode.GroupLineCases | btrfs-assistant.cpp:1127-1181 | skipped lines change nothing; a kept line stops the load or appends its record under its key only |
| RestoreMode.KeptBelongs | btrfs-assistant.cpp:1132-1181 | the record of a kept line belongs under the key it is filed under |
| RestoreMode.GroupLineSound | btrfs-assistant.cpp:1127-1181 | one line keeps the grouping invariant |
| RestoreMode.GroupLinesSound | btrfs-assistant.cpp:1126-1182 | a file system's listing keeps the grouping invariant |
| RestoreMode.GroupLinesKeepsCommands | btrfs-assistant.cpp:1126-1182 | the listing loop issues no command |
| RestoreMode.MountCommandsListed | btrfs-assistant.cpp:1120 | mountRoot's commands are for a listed file system |
| RestoreMode.GroupFsSound | btrfs-assistant.cpp:1101-1183 | a file system's turn keeps the grouping invariant |
| RestoreMode.GroupAllSound | btrfs-assistant.cpp:1101-1183 | the outer loop keeps the grouping invariant |
| RestoreMode.RestoreModeSound | btrfs-assistant.cpp:1093-1188 | every record is filed under its path's key, from a listed file system, numbered and with its info.xml's time and description; an early stop needs empty root options; only mountRoot commands are issued |
| RestoreMode.GroupLinesStopped | btrfs-assistant.cpp:1162-1163 | after the stop further lines change nothing |
| RestoreMode.GroupAllStopped | btrfs-assistant.cpp:1162-1163 | after the stop further file systems change nothing |
| RestoreMode.GroupLinesAppend | btrfs-assistant.cpp:1127-1182 | two runs of lines are grouped one after the other |
| RestoreMode.GroupAllAppend | btrfs-assistant.cpp:1101-1183 | two runs of file systems are grouped one after the other |
| RestoreMode.GroupLinesStep | btrfs-assistant.cpp:1127-1182 | one more line extends the grouping by that line's step |
| RestoreMode.GroupLinesRest | btrfs-assistant.cpp:1162-1163 | after a stop the remaining lines change nothing |
| RestoreMode.GroupAllStep | btrfs-assistant.cpp:1101-1183 | one more file system extends the grouping by its turn |
| RestoreMode.GroupAllRest | btrfs-assistant.cpp:1162-1163 | after a stop the remaining file systems change nothing |
| Assistant.LoadedRecords | btrfs-assistant.cpp:190-229 | after loadBTRFS the records are the mounted file systems (plus the blank record of an empty selection), with their mount points and usage, and only the selection has subvolumes |
| Assistant.LoadedSubvolumes | btrfs-assistant.cpp:288-306 | after loadBTRFS the selection's subvolume map holds exactly the listed ids, each with its last path |
| Assistant.CollectUnnumbered | btrfs-assistant.cpp:645-650 | the loop collects the records numbered 0 in order |
| Assistant.ReadListingLine | btrfs-assistant.cpp:1128-1153 | the line is kept exactly when it is a non-blank snapper snapshot with a numbered info.xml, and its record is built |
| Assistant.ReadGroupKey | btrfs-assistant.cpp:1158-1179 | the key computation matches GroupKey |
| Assistant.BtrfsAssistant.ReloadSubvolList | btrfs-assistant.cpp:288-306 | a recorded file system gets its map rebuilt from the listing; an unknown uuid leaves the map untouched |
| Assistant.BtrfsAssistant.LoadBtrfs | btrfs-assistant.cpp:190-229 | the new file-system map is the loaded one and the selection is the first mounted uuid |
| Assistant.BtrfsAssistant.ScanFilesystems | btrfs-assistant.cpp:196-226 | the loop builds the records of the mounted file systems and the combo items |
| Assistant.BtrfsAssistant.MountRoot | btrfs-assistant.cpp:413-430 | the mount point and the commands issued are those of the mount plan |
| Assistant.BtrfsAssistant.MoveChild | btrfs-assistant.cpp:549-550 | one move is issued, and the child counts as landed exactly when its original path now exists |
| Assistant.BtrfsAssistant.MigrateChildren | btrfs-assistant.cpp:540-556 | the loop issues exactly the migration's moves and ends with its outcome |
| Assistant.BtrfsAssistant.ExecuteRestore | btrfs-assistant.cpp:514-556 | the rename, snapshot, rollback and migration issue exactly Execute's commands |
| Assistant.BtrfsAssistant.CheckRestore | btrfs-assistant.cpp:453-491 | the checks give Validate's verdict, and the lookup adds a record only once it is reached |
| Assistant.BtrfsAssistant.RunRestore | btrfs-assistant.cpp:499-556 | mountRoot's commands, then the guarded sequence on the backup name and the children captured before the rename |
| Assistant.BtrfsAssistant.RestoreSnapshot | btrfs-assistant.cpp:452-562 | the outcome and the commands are those of the restore plan |
| Assistant.BtrfsAssistant.DetectSnapshotBoot | btrfs-assistant.cpp:1055-1075 | the flag is set exactly on a detected snapshot boot and otherwise left as it was |
| Assistant.BtrfsAssistant.HandleSnapshotBoot | btrfs-assistant.cpp:1054-1091 | the answer counts only for a detected boot in check-only mode; a restore runs only when asked, after a detected boot, and fsMap is touched only by it; outside check-only mode a detected boot ends with the restore-mode grouping of the query outputs seen afterwards, whose mount commands follow the restore's; otherwise the groups, the log and the paths are unchanged |
| Assistant.BtrfsAssistant.RestoreThenRegroup | btrfs-assistant.cpp:1082-1091 | the restore, when asked for, then loadSnapperRestoreMode with the restore check box set: the groups are RestoreModeGroups', the log is the restore's commands followed by the regrouping's, and fsMap changes only by the restore's touch |
| Assistant.BtrfsAssistant.LoadBootSnapshots | btrfs-assistant.cpp:597-650 | the snapshot-boot branch's new state is that of BootSnapshots |
| Assistant.BtrfsAssistant.LoadBootFrom | btrfs-assistant.cpp:602-650 | the branch, once the boot is known, reaches BootSnapshotsFrom's state |
| Assistant.BtrfsAssistant.LoadSnapshotDir | btrfs-assistant.cpp:636-650 | mountRoot's commands, then the records numbered 0 from the listed info.xml files |
| Assistant.BtrfsAssistant.AppendUnnumbered | btrfs-assistant.cpp:645-650 | the records numbered 0 are appended under the configuration |
| Assistant.BtrfsAssistant.LoadConfigLine | btrfs-assistant.cpp:589-660 | one configuration line reaches ConfigLine's state |
| Assistant.BtrfsAssistant.LoadConfigAt | btrfs-assistant.cpp:588-660 | line i extends the load over the lines before it |
| Assistant.BtrfsAssistant.LoadConfigLines | btrfs-assistant.cpp:588-660 | the loop reaches LoadConfigs' state |
| Assistant.BtrfsAssistant.LoadSnapper | btrfs-assistant.cpp:573-661 | without snapper nothing changes; with it the maps are cleared and refilled as LoadSnapper specifies |
| Assistant.BtrfsAssistant.FileListingLine | btrfs-assistant.cpp:1127-1181 | one restore-mode line reaches GroupLine's state |
| Assistant.BtrfsAssistant.FileListing | btrfs-assistant.cpp:1126-1182 | the line loop reaches GroupLines' state, stopping where it does |
| Assistant.BtrfsAssistant.GroupFilesystem | btrfs-assistant.cpp:1101-1183 | one file system's turn reaches GroupFs' state |
| Assistant.BtrfsAssistant.LoadSnapperRestoreMode | btrfs-assistant.cpp:1093-1188 | without restore mode nothing changes; with it the groups and commands are RestoreModeGroups' |
| Environment.RunAllAppend | btrfs-assistant.cpp:514-556 | running two command lists in turn is running their concatenation |
| Environment.Host.Run | btrfs-assistant.cpp:515 | a command is logged and its effect applied to the paths |

## Left out

- The Qt user interface is not modelled: the `populate*` functions (among them `populateSnapperGrid`), the `on_*` slots, combo and table filling, button and label updates, message boxes and tab switching. Confirmation answers are input flags.
- `enableRestoreMode` (btrfs-assistant.cpp:1006-1021) is modelled only where handleSnapshotBoot calls it with `true` (line 1089): its core, `loadSnapperRestoreMode` with the restore check box set, runs at the end of `HandleSnapshotBoot`. Its `false` branch, which reloads through `loadSnapper`, is reached only from the restore check-box slot (line 1001).
- Process spawning (`QProcess`, `pkexec` in setup) is not modelled. Query outputs are inputs held in `Probe`, and none of the modelled functions reads a command's exit code. The only reader, the delete-subvolume slot (btrfs-assistant.cpp:405), is UI code and is not modelled.
- The query outputs are fixed for one operation. A command that changes the disk does not change what a later query in the same operation prints.
- `QUuid::createUuid` and `QTime::currentTime` are parameters. In loadSnapper and restore mode, the fresh directory name is a function of the uuid.
- isMounted, the systemd unit handling, the snapper config builders, toHumanReadable and main.cpp are not modelled.
- RestoreMode.GroupKey: the `findmnt -no options /` output is one input per operation, not one query per root snapshot.
- The usage report's free-space figure reads the first white-space-separated word of column 2. `QRegExp` is modelled by `QChar::isSpace` runs.
- Snapper.MetaOfText: the round trip from a written info.xml to its metadata is stated tag by tag (NumLine, DateLine, DescLine, MetaTakesLastTags), not for a whole generated file.
- Assistant.LoadedRecords: of the usage figures it names the total size only; FsMapFromEntries states the whole usage record of every entry of the map before the selection's subvolumes are added.
- SnapperLoad.BootSnapshots: appending the collected records to the configuration's list is modelled as one append of the whole list, not one per record; the resulting list is the same.
