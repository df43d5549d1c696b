/** The BtrfsAssistant object: the member maps its loaders clear and
    refill, the snapshot-boot flag, and the machine its commands go to.
    Every method reads its query outputs from a `Probe` and is proved
    against the specification function of its module. */
module Assistant {

  import opened Options
  import opened QtText
  import opened Seqs
  import opened QtMap
  import opened Environment
  import opened Classify
  import opened MountOptions
  import opened Inventory
  import opened Snapper
  import opened TopLevel
  import opened SnapperLoad
  import opened Restore
  import opened RestoreMode

  /** The id-to-path map of a file system, empty when it has no record
      (what a lookup through operator[] sees). */
  function SubvolsOf(fsMap: map<string, Btrfs>, uuid: string): (subvolumes: map<string, string>)
    ensures subvolumes == Touch(fsMap, uuid)[uuid].subVolumes
  {
    if uuid in fsMap then fsMap[uuid].subVolumes else map[]
  }

  /** What `btrfs subvolume list` prints for a file system's mount point. */
  function SubvolumeListing(probe: Probe, uuid: string): string {
    Out(probe.subvolumeListOf, Out(probe.mountpointOf, uuid))
  }

  /** reloadSubvolList: a recorded file system gets its subvolume map
      rebuilt from the listing; an unrecorded one is left alone. */
  function Reloaded(probe: Probe, fsMap: map<string, Btrfs>, uuid: string): map<string, Btrfs>
    requires uuid in fsMap ==> ListingDefined(Split(SubvolumeListing(probe, uuid), "\n"))
  {
    if uuid !in fsMap then fsMap
    else fsMap[uuid := fsMap[uuid].(subVolumes := SubvolumeMap(SubvolumeListing(probe, uuid)))]
  }

  /** The file-system map loadBTRFS leaves: a record for every listed uuid
      with a mount point, the selected one (the first of them) with its
      subvolumes listed; with none mounted, the lookup of the empty
      selection adds a blank record under "". */
  function LoadedFsMap(probe: Probe): map<string, Btrfs>
    requires InventoryDefined(probe, Filesystems(probe))
    requires ListingDefined(Split(SubvolumeListing(probe, FirstMounted(probe, Filesystems(probe))), "\n"))
  {
    var selected := FirstMounted(probe, Filesystems(probe));
    Reloaded(probe, Touch(FsMapFrom(probe, Filesystems(probe)), selected), selected)
  }

  /** After loadBTRFS every mounted file system has its usage record and
      nothing else is recorded except the blank record of an empty
      selection; only the selected file system has subvolumes listed. */
  lemma LoadedRecords(probe: Probe, uuid: string)
    requires InventoryDefined(probe, Filesystems(probe))
    requires ListingDefined(Split(SubvolumeListing(probe, FirstMounted(probe, Filesystems(probe))), "\n"))
    ensures var m := LoadedFsMap(probe);
      var selected := FirstMounted(probe, Filesystems(probe));
      var mountpoint := Out(probe.mountpointOf, uuid);
      (uuid in m <==> uuid == selected || (uuid in Filesystems(probe) && mountpoint != "")) &&
      (uuid in m && uuid != "" ==>
        (m[uuid].mountPoint == mountpoint &&
         Get(m[uuid], TotalSize) == Get(UsageReport(mountpoint, Out(probe.usageOf, mountpoint)), TotalSize))) &&
      (uuid in m && uuid != selected ==> m[uuid].subVolumes == map[])
  {
    var uuids := Filesystems(probe);
    var selected := FirstMounted(probe, uuids);
    FsMapFromEntries(probe, uuids, uuid);
    if uuid == selected && uuid != "" {
      assert LoadedFsMap(probe)[uuid].mountPoint == FsMapFrom(probe, uuids)[uuid].mountPoint;
      assert Get(LoadedFsMap(probe)[uuid], TotalSize) == Get(FsMapFrom(probe, uuids)[uuid], TotalSize);
    }
  }

  /** After loadBTRFS the selected file system (the first mounted one)
      carries its subvolume map: an id is present exactly when a line of the
      listing has it, and maps to the path of the last such line. */
  lemma LoadedSubvolumes(probe: Probe, id: string)
    requires InventoryDefined(probe, Filesystems(probe))
    requires ListingDefined(Split(SubvolumeListing(probe, FirstMounted(probe, Filesystems(probe))), "\n"))
    ensures var m := LoadedFsMap(probe);
      var selected := FirstMounted(probe, Filesystems(probe));
      var lines := Split(SubvolumeListing(probe, selected), "\n");
      selected in m &&
      (id in m[selected].subVolumes <==> LastWithId(lines, id) >= 0) &&
      (id in m[selected].subVolumes ==> m[selected].subVolumes[id] == Columns(lines[LastWithId(lines, id)])[8])
  {
    var selected := FirstMounted(probe, Filesystems(probe));
    SubvolMapLookup(Split(SubvolumeListing(probe, selected), "\n"), id);
  }

  /** Whether a restore gets as far as looking the file system up (and so
      creating its record through operator[]). */
  predicate ReachesLookup(subvolume: string) {
    var source := StripLeadingSlash(subvolume);
    !IsTimeshift(source) && IsSnapper(source)
  }

  /** An outcome after the commands that led to it. */
  function Prefixed(cmds: seq<Command>, r: Run): Run {
    Run(r.outcome, cmds + r.cmds)
  }

  /** One turn of the migration loop: the move of child `i` either ends
      the migration or leaves the rest of it to the following children. */
  lemma MigrateStep(effect: Effect, paths: set<string>, mp: string, target: string, backup: string,
                    children: seq<string>, i: int, issued: seq<Command>, whole: Run)
    requires 0 <= i < |children|
    requires whole == Prefixed(issued, Migrate(effect, paths, mp, target, backup, children[i..]))
    ensures var c := ChildMove(mp, target, backup, children[i]);
      var after := effect(c, paths);
      (Landing(mp, target, children[i]) !in after ==>
        whole == Run(MigrationFailed(children[i]), issued + [c])) &&
      (Landing(mp, target, children[i]) in after ==>
        whole == Prefixed(issued + [c], Migrate(effect, after, mp, target, backup, children[i + 1..])))
  {
    var c := ChildMove(mp, target, backup, children[i]);
    assert children[i..][0] == children[i] && children[i..][1..] == children[i + 1..];
    var rest := Migrate(effect, effect(c, paths), mp, target, backup, children[i + 1..]);
    AppendRegroup(issued, [c], rest.cmds);
  }

  /** After the last child the migration has restored the target. */
  lemma MigrateDone(effect: Effect, paths: set<string>, mp: string, target: string, backup: string,
                    children: seq<string>, issued: seq<Command>, whole: Run)
    requires whole == Prefixed(issued, Migrate(effect, paths, mp, target, backup, children[|children|..]))
    ensures whole == Run(Restored(backup), issued)
  {
    assert children[|children|..] == [];
    assert issued + [] == issued;
  }

  /** The records numbered 0 among the info.xml files, in order. */
  method CollectUnnumbered(fileText: map<string, string>, files: seq<string>) returns (found: seq<SnapperSnapshot>)
    ensures found == Unnumbered(fileText, files)
  {
    found := [];
    var j := 0;
    while j < |files|
      invariant 0 <= j <= |files|
      invariant found == Unnumbered(fileText, files[..j])
    {
      UnnumberedStep(fileText, files, j);
      var snap := GetSnapperMeta(Out(fileText, files[j]));
      if snap.number == 0 {
        found := found + [snap];
      }
      j := j + 1;
    }
    assert files[..j] == files;
  }

  /** The listing line's snapshot: whether it is kept and, if so, its
      record. */
  method ReadListingLine(probe: Probe, uuid: string, mountpoint: string, line: string)
    returns (kept: bool, entry: SnapperSubvolume)
    requires line != "" ==> |Columns(line)| >= 9
    ensures kept == Kept(probe, mountpoint, line)
    ensures kept ==> entry == EntryOf(probe, uuid, mountpoint, line)
  {
    kept, entry := false, SnapperSubvolume("", "", "", "", uuid);
    if line == "" {
      return;
    }
    var subvolid := Trimmed(Split(line, " ")[1]);
    var subvol := Trimmed(Split(line, " ")[8]);
    if !Contains(subvol, SnapshotsDir) || EndsWith(subvol, SnapshotsDir) {
      return;
    }
    var filename: string;
    if StartsWith(subvol, SnapshotsDir) {
      filename := "/" + Left(subvol, |subvol| - |SnapshotLeaf|) + "info.xml";
    } else {
      filename := mountpoint + Left(subvol, |subvol| - |SnapshotLeaf|) + "info.xml";
    }
    assert filename == InfoFile(mountpoint, subvol);
    var snap := GetSnapperMeta(Out(probe.fileText, filename));
    if snap.number != 0 {
      kept, entry := true, SnapperSubvolume(subvol, subvolid, snap.time, snap.desc, uuid);
    }
  }

  /** The group a kept snapshot is filed under; None when the root's
      mount options are needed and empty. */
  method ReadGroupKey(subvol: string, rootOptions: string) returns (key: Option<string>)
    ensures key == GroupKey(subvol, rootOptions)
  {
    var prefix := Trimmed(Split(subvol, SnapshotsDir)[0]);
    if prefix != "" {
      return Some(Left(prefix, |prefix| - 1));
    }
    var options := Trimmed(rootOptions);
    if options == "" {
      return None;
    }
    var subvolOption := SubvolOption(options);
    if StartsWith(subvolOption, "/") {
      subvolOption := Right(subvolOption, |subvolOption| - 1);
    }
    if subvolOption == "" {
      return Some("root");
    }
    return Some(subvolOption);
  }

  class BtrfsAssistant {
    var fsMap: map<string, Btrfs>
    var snapperConfigs: map<string, string>
    var snapperSnapshots: map<string, seq<SnapperSnapshot>>
    var snapperSubvolumes: map<string, seq<SnapperSubvolume>>
    var isSnapBoot: bool
    /** Whether `which snapper` found snapper, decided once at setup. */
    const hasSnapper: bool
    const host: Host

    constructor (host0: Host, hasSnapper0: bool)
      ensures host == host0 && hasSnapper == hasSnapper0
      ensures fsMap == map[] && snapperConfigs == map[] && snapperSnapshots == map[] && snapperSubvolumes == map[]
      ensures !isSnapBoot
    {
      host := host0;
      hasSnapper := hasSnapper0;
      fsMap := map[];
      snapperConfigs := map[];
      snapperSnapshots := map[];
      snapperSubvolumes := map[];
      isSnapBoot := false;
    }

    // -------------------------------------------------------------------
    // Inventory

    /** reloadSubvolList. */
    method ReloadSubvolList(probe: Probe, uuid: string)
      requires uuid in fsMap ==> ListingDefined(Split(SubvolumeListing(probe, uuid), "\n"))
      modifies this`fsMap
      ensures fsMap == Reloaded(probe, old(fsMap), uuid)
    {
      if uuid !in fsMap {
        return;
      }
      var mountpoint := Out(probe.mountpointOf, uuid);
      var subvols := ParseSubvolumeList(Out(probe.subvolumeListOf, mountpoint));
      fsMap := fsMap[uuid := fsMap[uuid].(subVolumes := subvols)];
    }

    /** loadBTRFS: rebuild the file-system map, then show (populateBtrfsUi,
        whose operator[] lookup may add a record) and list the subvolumes
        of the combo box's current entry. */
    method LoadBtrfs(probe: Probe) returns (selected: string)
      requires InventoryDefined(probe, Filesystems(probe))
      requires ListingDefined(Split(SubvolumeListing(probe, FirstMounted(probe, Filesystems(probe))), "\n"))
      modifies this`fsMap
      ensures selected == FirstMounted(probe, Filesystems(probe))
      ensures fsMap == LoadedFsMap(probe)
    {
      var items := ScanFilesystems(probe);
      selected := if items == [] then "" else items[0];
      fsMap := Touch(fsMap, selected);
      ReloadSubvolList(probe, selected);
    }

    /** The loop of loadBTRFS: a usage record for every file system with a
        mount point, which is also offered in the combo box. */
    method ScanFilesystems(probe: Probe) returns (items: seq<string>)
      requires InventoryDefined(probe, Filesystems(probe))
      modifies this`fsMap
      ensures fsMap == FsMapFrom(probe, Filesystems(probe))
      ensures items == DeviceItems(probe, Filesystems(probe))
    {
      fsMap := map[];
      items := [];
      var uuids := Split(probe.filesystems, "\n");
      var i := 0;
      while i < |uuids|
        invariant 0 <= i <= |uuids|
        invariant InventoryDefined(probe, uuids[..i])
        invariant fsMap == FsMapFrom(probe, uuids[..i])
        invariant items == DeviceItems(probe, uuids[..i])
      {
        InventoryStep(probe, uuids, i);
        var uuid := uuids[i];
        var mountpoint := Out(probe.mountpointOf, uuid);
        if mountpoint != "" {
          var b := ParseUsageReport(mountpoint, Out(probe.usageOf, mountpoint));
          fsMap := fsMap[uuid := b];
          items := items + [uuid];
        }
        i := i + 1;
      }
      assert uuids[..i] == uuids;
    }

    /** mountRoot: reuse a top-level mount of the file system, or create
        the fresh directory and mount the top level there. */
    method MountRoot(probe: Probe, uuid: string, tmpName: string) returns (mountpoint: string)
      requires MountsDefined(uuid, Split(probe.topLevelMounts, "\n"))
      modifies host
      ensures var m := MountPlan(uuid, probe.topLevelMounts, tmpName);
        mountpoint == m.mountpoint && host.log == old(host.log) + m.cmds &&
        host.paths == RunAll(host.effect, old(host.paths), m.cmds)
    {
      mountpoint := FindTopLevelMount(uuid, probe.topLevelMounts);
      if mountpoint == "" {
        mountpoint := TmpMount(tmpName);
        ghost var p0 := host.paths;
        host.Run(MakeDir(mountpoint));
        host.Run(MountTopLevel(uuid, mountpoint));
        RunAllOne(host.effect, p0, MakeDir(mountpoint));
        RunAllSnoc(host.effect, p0, [MakeDir(mountpoint)], MountTopLevel(uuid, mountpoint));
        assert [MakeDir(mountpoint)] + [MountTopLevel(uuid, mountpoint)] == [MakeDir(mountpoint), MountTopLevel(uuid, mountpoint)];
        AppendRegroup(old(host.log), [MakeDir(mountpoint)], [MountTopLevel(uuid, mountpoint)]);
      } else {
        assert old(host.log) + [] == host.log;
      }
    }

    // -------------------------------------------------------------------
    // Restore

    /** Move one nested subvolume from the backup into the new target and
        look for it there. */
    method MoveChild(mp: string, target: string, backup: string, child: string) returns (landed: bool)
      modifies host
      ensures host.log == old(host.log) + [ChildMove(mp, target, backup, child)]
      ensures host.paths == host.effect(ChildMove(mp, target, backup, child), old(host.paths))
      ensures landed <==> Landing(mp, target, child) in host.paths
    {
      var rel: string;
      if StartsWith(child, target) {
        rel := Right(child, |child| - (|target| + 1));
      } else {
        rel := child;
      }
      host.Run(Move(mp + backup + "/" + rel, mp + target + "/."));
      landed := host.Exists(mp + target + "/" + rel);
    }

    /** The nested-subvolume loop of restoreSnapshot. */
    method MigrateChildren(mp: string, target: string, backup: string, children: seq<string>) returns (outcome: Outcome)
      modifies host
      ensures var r := Migrate(host.effect, old(host.paths), mp, target, backup, children);
        outcome == r.outcome && host.log == old(host.log) + r.cmds &&
        host.paths == RunAll(host.effect, old(host.paths), r.cmds)
    {
      ghost var p0 := host.paths;
      ghost var whole := Migrate(host.effect, p0, mp, target, backup, children);
      ghost var issued: seq<Command> := [];
      outcome := Restored(backup);
      var i := 0;
      while i < |children| && outcome.Restored?
        invariant 0 <= i <= |children|
        invariant host.log == old(host.log) + issued
        invariant host.paths == RunAll(host.effect, p0, issued)
        invariant outcome.Restored? ==>
          outcome == Restored(backup) &&
          whole == Prefixed(issued, Migrate(host.effect, host.paths, mp, target, backup, children[i..]))
        invariant !outcome.Restored? ==> whole == Run(outcome, issued)
        decreases |children| - i, outcome.Restored?
      {
        ghost var c := ChildMove(mp, target, backup, children[i]);
        MigrateStep(host.effect, host.paths, mp, target, backup, children, i, issued, whole);
        var landed := MoveChild(mp, target, backup, children[i]);
        RunAllSnoc(host.effect, p0, issued, c);
        AppendRegroup(old(host.log), issued, [c]);
        issued := issued + [c];
        if landed {
          i := i + 1;
        } else {
          outcome := MigrationFailed(children[i]);
        }
      }
      if outcome.Restored? {
        MigrateDone(host.effect, host.paths, mp, target, backup, children, issued, whole);
      }
    }

    /** The rename, the snapshot and its rollback, and the migration of
        restoreSnapshot, with the existence checks after each. */
    method ExecuteRestore(mp: string, source: string, target: string, backup: string, children: seq<string>)
      returns (outcome: Outcome)
      modifies host
      ensures var r := Execute(host.effect, old(host.paths), mp, source, target, backup, children);
        outcome == r.outcome && host.log == old(host.log) + r.cmds &&
        host.paths == RunAll(host.effect, old(host.paths), r.cmds)
    {
      ghost var p0 := host.paths;
      var rename := Move(mp + target, mp + backup);
      host.Run(rename);
      RunAllOne(host.effect, p0, rename);
      if !host.Exists(mp + backup) {
        return BackupFailed;
      }
      var relocated: string;
      if StartsWith(source, target) {
        relocated := backup + Right(source, |source| - |target|);
      } else {
        relocated := backup + "/" + source;
      }
      var snapshot := Snapshot(mp + relocated, mp + target);
      host.Run(snapshot);
      RunAllSnoc(host.effect, p0, [rename], snapshot);
      assert [rename] + [snapshot] == [rename, snapshot];
      AppendRegroup(old(host.log), [rename], [snapshot]);
      if !host.Exists(mp + target) {
        var back := Move(mp + backup, mp + target);
        host.Run(back);
        RunAllSnoc(host.effect, p0, [rename, snapshot], back);
        assert [rename, snapshot] + [back] == [rename, snapshot, back];
        AppendRegroup(old(host.log), [rename, snapshot], [back]);
        return RolledBack;
      }
      ghost var p2 := host.paths;
      outcome := MigrateChildren(mp, target, backup, children);
      ghost var m := Migrate(host.effect, p2, mp, target, backup, children);
      RunAllAppend(host.effect, p0, [rename, snapshot], m.cmds);
      AppendRegroup(old(host.log), [rename, snapshot], m.cmds);
    }

    /** The checks of restoreSnapshot; looking the file system up adds a
        blank record for an unknown uuid. */
    method CheckRestore(probe: Probe, uuid: string, subvolume: string) returns (check: Check)
      modifies this`fsMap
      ensures check == Validate(SubvolsOf(old(fsMap), uuid), probe.rootMount, subvolume)
      ensures fsMap == if ReachesLookup(subvolume) then Touch(old(fsMap), uuid) else old(fsMap)
    {
      var source := subvolume;
      if StartsWith(source, "/") {
        source := Right(source, |source| - 1);
      }
      if IsTimeshift(source) {
        return Stop(TimeshiftSnapshot);
      }
      if !IsSnapper(source) {
        return Stop(NotRestorable);
      }
      fsMap := Touch(fsMap, uuid);
      var subvolid := Key(fsMap[uuid].subVolumes, source);
      if subvolid == "" {
        return Stop(SnapshotNotFound);
      }
      var prefix := Split(source, SnapshotsDir)[0];
      var target: string;
      if prefix == "" {
        target := FindRootSubvol(probe.rootMount);
      } else {
        target := Left(prefix, |prefix| - 1);
      }
      var targetId := Key(fsMap[uuid].subVolumes, target);
      if targetId == "" {
        return Stop(TargetNotFound);
      }
      return Go(source, target, targetId);
    }

    /** What restoreSnapshot does once the checks have passed and the
        restore is confirmed. */
    method RunRestore(probe: Probe, uuid: string, source: string, target: string, targetId: string, tmpName: string,
                      time: TimeOfDay) returns (outcome: Outcome)
      requires ValidTime(time) && MountsDefined(uuid, Split(probe.topLevelMounts, "\n"))
      requires ChildrenDefined(targetId, Split(Out(probe.childrenOf, targetId), "\n"))
      modifies host
      ensures var m := MountPlan(uuid, probe.topLevelMounts, tmpName);
        var e := Execute(host.effect, RunAll(host.effect, old(host.paths), m.cmds), WithTrailingSlash(m.mountpoint),
                         source, target, BackupName(target, time), ChildrenOf(targetId, Out(probe.childrenOf, targetId)));
        outcome == e.outcome && host.log == old(host.log) + (m.cmds + e.cmds) &&
        host.paths == RunAll(host.effect, old(host.paths), m.cmds + e.cmds)
    {
      ghost var p0 := host.paths;
      ghost var m := MountPlan(uuid, probe.topLevelMounts, tmpName);
      var mountpoint := MountRoot(probe, uuid, tmpName);
      if Right(mountpoint, 1) != "/" {
        mountpoint := mountpoint + "/";
      }
      var backup := BackupName(target, time);
      var children := FindBtrfsChildren(targetId, Out(probe.childrenOf, targetId));
      ghost var p1 := host.paths;
      outcome := ExecuteRestore(mountpoint, source, target, backup, children);
      ghost var e := Execute(host.effect, p1, mountpoint, source, target, backup, children);
      RunAllAppend(host.effect, p0, m.cmds, e.cmds);
      AppendRegroup(old(host.log), m.cmds, e.cmds);
    }

    /** restoreSnapshot: the checks, the confirmation, mountRoot and the
        guarded command sequence. */
    method RestoreSnapshot(probe: Probe, uuid: string, subvolume: string, confirmed: bool, tmpName: string,
                           time: TimeOfDay) returns (outcome: Outcome)
      requires ValidTime(time) && RestoreDefined(SubvolsOf(fsMap, uuid), probe, uuid, subvolume)
      modifies this`fsMap, host
      ensures var r := RestorePlan(host.effect, old(host.paths), SubvolsOf(old(fsMap), uuid), probe, uuid, subvolume,
                                   confirmed, tmpName, time);
        outcome == r.outcome && host.log == old(host.log) + r.cmds &&
        host.paths == RunAll(host.effect, old(host.paths), r.cmds)
      ensures fsMap == if ReachesLookup(subvolume) then Touch(old(fsMap), uuid) else old(fsMap)
    {
      var check := CheckRestore(probe, uuid, subvolume);
      if check.Stop? {
        return check.outcome;
      }
      if !confirmed {
        return Declined;
      }
      outcome := RunRestore(probe, uuid, check.source, check.target, check.targetId, tmpName, time);
    }

    // -------------------------------------------------------------------
    // Snapshot boot

    /** The detection part of handleSnapshotBoot: a root mounted from a
        snapshot sets the snapshot-boot flag. */
    method DetectSnapshotBoot(probe: Probe) returns (boot: Option<BootSnapshot>)
      modifies this`isSnapBoot
      ensures boot == SnapshotBoot(probe.rootMount)
      ensures isSnapBoot == (old(isSnapBoot) || boot.Some?)
    {
      boot := ReadSnapshotBoot(probe.rootMount);
      if boot.Some? {
        isSnapBoot := true;
      }
    }

    /** handleSnapshotBoot: after the detection, either the answer to
        "restore it?" (checkOnly) or, when asked to, the restore of the
        booted snapshot, and then, outside check-only mode, restore mode
        switched on, which runs loadSnapperRestoreMode. `after` holds the
        query outputs that load reads, once the restore has changed the
        disk; `restored` is the outcome of the restore. */
    method HandleSnapshotBoot(probe: Probe, after: Probe, tmpNames: string -> string, checkOnly: bool, restore: bool,
                              answer: bool, confirmed: bool, tmpName: string, time: TimeOfDay)
      returns (accepted: bool, restored: Option<Outcome>)
      requires ValidTime(time)
      requires var boot := SnapshotBoot(probe.rootMount);
        boot.Some? && !checkOnly && restore ==>
          RestoreDefined(SubvolsOf(fsMap, boot.value.uuid), probe, boot.value.uuid, boot.value.subvol)
      requires SnapshotBoot(probe.rootMount).Some? && !checkOnly ==> AllFsDefined(after, Filesystems(after))
      modifies this`isSnapBoot, this`fsMap, this`snapperSubvolumes, host
      ensures var boot := SnapshotBoot(probe.rootMount);
        isSnapBoot == (old(isSnapBoot) || boot.Some?) &&
        accepted == (boot.Some? && checkOnly && answer) &&
        (restored.Some? <==> boot.Some? && !checkOnly && restore)
      ensures var boot := SnapshotBoot(probe.rootMount);
        fsMap == if restored.Some? && ReachesLookup(boot.value.subvol) then Touch(old(fsMap), boot.value.uuid)
                 else old(fsMap)
      ensures var boot := SnapshotBoot(probe.rootMount);
        boot.None? || checkOnly ==>
          snapperSubvolumes == old(snapperSubvolumes) && host.log == old(host.log) && host.paths == old(host.paths)
      ensures var boot := SnapshotBoot(probe.rootMount);
        boot.Some? && !checkOnly ==> snapperSubvolumes == RestoreModeGroups(after, tmpNames).groups
      ensures var boot := SnapshotBoot(probe.rootMount);
        boot.Some? && !checkOnly && !restore ==>
          var g := RestoreModeGroups(after, tmpNames);
          host.log == old(host.log) + g.cmds && host.paths == RunAll(host.effect, old(host.paths), g.cmds)
      ensures var boot := SnapshotBoot(probe.rootMount);
        boot.Some? && !checkOnly && restore ==>
          var r := RestorePlan(host.effect, old(host.paths), SubvolsOf(old(fsMap), boot.value.uuid), probe,
                               boot.value.uuid, boot.value.subvol, confirmed, tmpName, time);
          var g := RestoreModeGroups(after, tmpNames);
          restored.value == r.outcome && host.log == old(host.log) + r.cmds + g.cmds &&
          host.paths == RunAll(host.effect, old(host.paths), r.cmds + g.cmds)
    {
      accepted, restored := false, None;
      var boot := DetectSnapshotBoot(probe);
      if boot.None? {
        return;
      }
      if checkOnly {
        accepted := answer;
        return;
      }
      restored := RestoreThenRegroup(probe, after, tmpNames, boot.value, restore, confirmed, tmpName, time);
    }

    /** The rest of handleSnapshotBoot outside check-only mode: the restore
        of the booted snapshot when asked for, then restore mode switched
        on, which regroups the snapshots and may mount top levels. */
    method RestoreThenRegroup(probe: Probe, after: Probe, tmpNames: string -> string, boot: BootSnapshot, restore: bool,
                              confirmed: bool, tmpName: string, time: TimeOfDay) returns (restored: Option<Outcome>)
      requires ValidTime(time) && AllFsDefined(after, Filesystems(after))
      requires restore ==> RestoreDefined(SubvolsOf(fsMap, boot.uuid), probe, boot.uuid, boot.subvol)
      modifies this`fsMap, this`snapperSubvolumes, host
      ensures restored.Some? <==> restore
      ensures fsMap == if restore && ReachesLookup(boot.subvol) then Touch(old(fsMap), boot.uuid) else old(fsMap)
      ensures snapperSubvolumes == RestoreModeGroups(after, tmpNames).groups
      ensures !restore ==>
        var g := RestoreModeGroups(after, tmpNames);
        host.log == old(host.log) + g.cmds && host.paths == RunAll(host.effect, old(host.paths), g.cmds)
      ensures restore ==>
        var r := RestorePlan(host.effect, old(host.paths), SubvolsOf(old(fsMap), boot.uuid), probe,
                             boot.uuid, boot.subvol, confirmed, tmpName, time);
        var g := RestoreModeGroups(after, tmpNames);
        restored.value == r.outcome && host.log == old(host.log) + r.cmds + g.cmds &&
        host.paths == RunAll(host.effect, old(host.paths), r.cmds + g.cmds)
    {
      restored := None;
      ghost var cmds: seq<Command> := [];
      if restore {
        var outcome := RestoreSnapshot(probe, boot.uuid, boot.subvol, confirmed, tmpName, time);
        restored := Some(outcome);
        cmds := RestorePlan(host.effect, old(host.paths), SubvolsOf(old(fsMap), boot.uuid), probe,
                            boot.uuid, boot.subvol, confirmed, tmpName, time).cmds;
      }
      LoadSnapperRestoreMode(after, tmpNames, true);
      RunAllAppend(host.effect, old(host.paths), cmds, RestoreModeGroups(after, tmpNames).cmds);
    }

    // -------------------------------------------------------------------
    // Snapper

    /** The snapshot-boot branch of loadSnapper for configuration `name`. */
    method LoadBootSnapshots(probe: Probe, tmpNames: string -> string, name: string, ghost cmds: seq<Command>)
      returns (ghost issued: seq<Command>)
      requires BootDefined(probe)
      modifies this`snapperSnapshots, this`fsMap, host
      ensures BootSnapshots(probe, tmpNames, SnapperState(snapperConfigs, old(snapperSnapshots), old(fsMap), cmds), name)
        == SnapperState(snapperConfigs, snapperSnapshots, fsMap, cmds + issued)
      ensures host.log == old(host.log) + issued && host.paths == RunAll(host.effect, old(host.paths), issued)
    {
      var boot := ReadSnapshotBoot(probe.rootMount);
      if boot.Some? {
        issued := LoadBootFrom(probe, tmpNames, name, boot.value, cmds);
      } else {
        issued := [];
        assert cmds + [] == cmds;
      }
    }

    /** The snapshot-boot branch once the root mount is known to be the
        snapshot `b`. */
    method LoadBootFrom(probe: Probe, tmpNames: string -> string, name: string, b: BootSnapshot,
                        ghost cmds: seq<Command>) returns (ghost issued: seq<Command>)
      requires MountsDefined(b.uuid, Split(probe.topLevelMounts, "\n"))
      modifies this`snapperSnapshots, this`fsMap, host
      ensures BootSnapshotsFrom(probe, tmpNames, SnapperState(snapperConfigs, old(snapperSnapshots), old(fsMap), cmds), name, b)
        == SnapperState(snapperConfigs, snapperSnapshots, fsMap, cmds + issued)
      ensures host.log == old(host.log) + issued && host.paths == RunAll(host.effect, old(host.paths), issued)
    {
      issued := [];
      var uuid := b.uuid;
      var subvol := b.subvol;
      if StartsWith(subvol, "/") {
        subvol := Right(subvol, |subvol| - 1);
      }
      if IsSnapper(subvol) {
        fsMap := Touch(fsMap, uuid);
        var subvolid := Key(fsMap[uuid].subVolumes, subvol);
        var prefix := Split(subvol, SnapshotsDir)[0];
        if subvolid != "" && prefix != "" {
          issued := LoadSnapshotDir(probe, tmpNames, name, uuid, prefix);
        }
      }
      assert cmds + [] == cmds;
    }

    /** The part of the snapshot-boot branch that mounts the top level and
        reads the info.xml files under `<mountpoint><prefix>.snapshots`. */
    method LoadSnapshotDir(probe: Probe, tmpNames: string -> string, name: string, uuid: string, prefix: string)
      returns (ghost issued: seq<Command>)
      requires MountsDefined(uuid, Split(probe.topLevelMounts, "\n"))
      modifies this`snapperSnapshots, host
      ensures var m := MountPlan(uuid, probe.topLevelMounts, tmpNames(uuid));
        var files := Split(Out(probe.infoFilesUnder, WithTrailingSlash(m.mountpoint) + prefix + SnapshotsDir), "\n");
        issued == m.cmds &&
        snapperSnapshots == AppendAll(old(snapperSnapshots), name, Unnumbered(probe.fileText, files))
      ensures host.log == old(host.log) + issued && host.paths == RunAll(host.effect, old(host.paths), issued)
    {
      var mountpoint := MountRoot(probe, uuid, tmpNames(uuid));
      issued := MountPlan(uuid, probe.topLevelMounts, tmpNames(uuid)).cmds;
      if Right(mountpoint, 1) != "/" {
        mountpoint := mountpoint + "/";
      }
      var files := Split(Out(probe.infoFilesUnder, mountpoint + prefix + SnapshotsDir), "\n");
      AppendUnnumbered(probe, name, files);
    }

    /** The info.xml loop of the snapshot-boot branch: the records numbered
        0 are appended to configuration `name`'s list. */
    method AppendUnnumbered(probe: Probe, name: string, files: seq<string>)
      modifies this`snapperSnapshots
      ensures snapperSnapshots == AppendAll(old(snapperSnapshots), name, Unnumbered(probe.fileText, files))
    {
      var found := CollectUnnumbered(probe.fileText, files);
      snapperSnapshots := AppendAll(snapperSnapshots, name, found);
    }

    /** One line of `snapper list-configs`. */
    method LoadConfigLine(probe: Probe, tmpNames: string -> string, line: string, ghost cmds: seq<Command>)
      returns (ghost issued: seq<Command>)
      requires BootDefined(probe) && ConfigRowDefined(line)
      requires !ReadsInfoFiles(isSnapBoot, ConfigName(line)) ==> ListingRowsDefined(probe, ConfigName(line))
      modifies this`snapperConfigs, this`snapperSnapshots, this`fsMap, host
      ensures ConfigLine(probe, isSnapBoot, tmpNames, SnapperState(old(snapperConfigs), old(snapperSnapshots), old(fsMap), cmds), line)
        == SnapperState(snapperConfigs, snapperSnapshots, fsMap, cmds + issued)
      ensures host.log == old(host.log) + issued && host.paths == RunAll(host.effect, old(host.paths), issued)
    {
      var name := Trimmed(Split(line, "|")[0]);
      snapperConfigs := snapperConfigs[name := Trimmed(Split(line, "|")[1])];
      if name == "root" && isSnapBoot {
        issued := LoadBootSnapshots(probe, tmpNames, name, cmds);
      } else {
        issued := [];
        var list := Out(probe.snapshotListOf, name);
        if list != "" {
          var rows := ParseSnapshotRows(Split(list, "\n"));
          snapperSnapshots := AppendAll(snapperSnapshots, name, rows);
        }
        assert cmds + [] == cmds;
      }
    }

    /** Line `i` of the configuration list, taking the load over the lines
        before it to the load over the lines up to and including it. */
    method LoadConfigAt(probe: Probe, tmpNames: string -> string, lines: seq<string>, i: int,
                        ghost st0: SnapperState, ghost cmds: seq<Command>) returns (ghost issued: seq<Command>)
      requires ConfigLinesDefined(probe, isSnapBoot, lines) && 0 <= i < |lines|
      requires ConfigLinesDefined(probe, isSnapBoot, lines[..i])
      requires LoadConfigs(probe, isSnapBoot, tmpNames, st0, lines[..i]) ==
        SnapperState(snapperConfigs, snapperSnapshots, fsMap, cmds)
      modifies this`snapperConfigs, this`snapperSnapshots, this`fsMap, host
      ensures ConfigLinesDefined(probe, isSnapBoot, lines[..i + 1])
      ensures LoadConfigs(probe, isSnapBoot, tmpNames, st0, lines[..i + 1]) ==
        SnapperState(snapperConfigs, snapperSnapshots, fsMap, cmds + issued)
      ensures host.log == old(host.log) + issued && host.paths == RunAll(host.effect, old(host.paths), issued)
    {
      LoadConfigsStep(probe, isSnapBoot, tmpNames, st0, lines, i);
      issued := LoadConfigLine(probe, tmpNames, lines[i], cmds);
    }

    /** loadSnapper. */
    method LoadSnapper(probe: Probe, tmpNames: string -> string)
      requires LoadSnapperDefined(probe, isSnapBoot)
      modifies this`snapperConfigs, this`snapperSnapshots, this`fsMap, host
      ensures !hasSnapper ==>
        snapperConfigs == old(snapperConfigs) && snapperSnapshots == old(snapperSnapshots) && fsMap == old(fsMap) &&
        host.log == old(host.log) && host.paths == old(host.paths)
      ensures hasSnapper ==>
        var r := SnapperLoad.LoadSnapper(probe, isSnapBoot, tmpNames,
                                         SnapperState(old(snapperConfigs), old(snapperSnapshots), old(fsMap), []));
        snapperConfigs == r.configs && snapperSnapshots == r.snapshots && fsMap == r.fsMap &&
        host.log == old(host.log) + r.cmds && host.paths == RunAll(host.effect, old(host.paths), r.cmds)
    {
      if !hasSnapper {
        return;
      }
      snapperConfigs := map[];
      snapperSnapshots := map[];
      if probe.configList == "" {
        assert old(host.log) + [] == old(host.log);
        return;
      }
      ghost var issued := LoadConfigLines(probe, tmpNames, Split(probe.configList, "\n"));
    }

    /** The loop of loadSnapper over the lines of `snapper list-configs`. */
    method LoadConfigLines(probe: Probe, tmpNames: string -> string, lines: seq<string>) returns (ghost cmds: seq<Command>)
      requires ConfigLinesDefined(probe, isSnapBoot, lines)
      modifies this`snapperConfigs, this`snapperSnapshots, this`fsMap, host
      ensures LoadConfigs(probe, isSnapBoot, tmpNames, SnapperState(old(snapperConfigs), old(snapperSnapshots), old(fsMap), []), lines)
        == SnapperState(snapperConfigs, snapperSnapshots, fsMap, cmds)
      ensures host.log == old(host.log) + cmds && host.paths == RunAll(host.effect, old(host.paths), cmds)
    {
      ghost var st0 := SnapperState(snapperConfigs, snapperSnapshots, fsMap, []);
      cmds := [];
      var i := 0;
      while i < |lines|
        invariant 0 <= i <= |lines|
        invariant ConfigLinesDefined(probe, isSnapBoot, lines[..i])
        invariant LoadConfigs(probe, isSnapBoot, tmpNames, st0, lines[..i]) ==
          SnapperState(snapperConfigs, snapperSnapshots, fsMap, cmds)
        invariant host.log == old(host.log) + cmds && host.paths == RunAll(host.effect, old(host.paths), cmds)
      {
        ghost var issued := LoadConfigAt(probe, tmpNames, lines, i, st0, cmds);
        RunAllAppend(host.effect, old(host.paths), cmds, issued);
        AppendRegroup(old(host.log), cmds, issued);
        cmds := cmds + issued;
        i := i + 1;
      }
      assert lines[..i] == lines;
    }

    // -------------------------------------------------------------------
    // Restore mode

    /** One line of a file system's subvolume list in restore mode; `stop`
        when the root options were needed and empty. */
    method FileListingLine(probe: Probe, uuid: string, mountpoint: string, line: string, ghost cmds: seq<Command>)
      returns (stop: bool)
      requires line != "" ==> |Columns(line)| >= 9
      modifies this`snapperSubvolumes
      ensures GroupLine(probe, uuid, mountpoint, Grouping(old(snapperSubvolumes), false, cmds), line) ==
        Grouping(snapperSubvolumes, stop, cmds)
    {
      stop := false;
      var kept, entry := ReadListingLine(probe, uuid, mountpoint, line);
      if kept {
        var key := ReadGroupKey(entry.subvol, probe.rootOptions);
        if key.None? {
          stop := true;
        } else {
          snapperSubvolumes := snapperSubvolumes[key.value := Entries(snapperSubvolumes, key.value) + [entry]];
        }
      }
    }

    /** The line loop of one file system in restore mode. */
    method FileListing(probe: Probe, uuid: string, mountpoint: string, lines: seq<string>, ghost cmds: seq<Command>)
      returns (stop: bool)
      requires ListingDefined(lines)
      modifies this`snapperSubvolumes
      ensures GroupLines(probe, uuid, mountpoint, Grouping(old(snapperSubvolumes), false, cmds), lines) ==
        Grouping(snapperSubvolumes, stop, cmds)
    {
      ghost var g0 := Grouping(snapperSubvolumes, false, cmds);
      stop := false;
      var i := 0;
      while i < |lines| && !stop
        invariant 0 <= i <= |lines|
        invariant ListingDefined(lines[..i])
        invariant GroupLines(probe, uuid, mountpoint, g0, lines[..i]) == Grouping(snapperSubvolumes, stop, cmds)
      {
        GroupLinesStep(probe, uuid, mountpoint, g0, lines, i);
        stop := FileListingLine(probe, uuid, mountpoint, lines[i], cmds);
        i := i + 1;
      }
      if stop {
        GroupLinesRest(probe, uuid, mountpoint, g0, lines, i);
      } else {
        assert lines[..i] == lines;
      }
    }

    /** One file system's turn in restore mode: skipped without a real
        mount, a target or a listing; otherwise its top level is mounted
        and its listing grouped. */
    method GroupFilesystem(probe: Probe, tmpNames: string -> string, uuid: string, ghost cmds: seq<Command>)
      returns (stop: bool, ghost issued: seq<Command>)
      requires FsDefined(probe, uuid)
      modifies this`snapperSubvolumes, host
      ensures GroupFs(probe, tmpNames, Grouping(old(snapperSubvolumes), false, cmds), uuid) ==
        Grouping(snapperSubvolumes, stop, cmds + issued)
      ensures host.log == old(host.log) + issued && host.paths == RunAll(host.effect, old(host.paths), issued)
    {
      stop, issued := false, [];
      var realMount := Out(probe.realMountOf, uuid);
      var output := "";
      if realMount != "" {
        var target := Split(realMount, " ")[1];
        if target != "" {
          output := Out(probe.subvolumeListOf, target);
        }
      }
      assert output == FsListing(probe, uuid);
      if output != "" {
        var mountpoint := MountRoot(probe, uuid, tmpNames(uuid));
        issued := MountPlan(uuid, probe.topLevelMounts, tmpNames(uuid)).cmds;
        if Right(mountpoint, 1) != "/" {
          mountpoint := mountpoint + "/";
        }
        stop := FileListing(probe, uuid, mountpoint, Split(output, "\n"), cmds + issued);
      } else {
        assert cmds + [] == cmds;
      }
    }

    /** loadSnapperRestoreMode; `restoreMode` is the state of the restore
        check box, without which nothing happens. */
    method LoadSnapperRestoreMode(probe: Probe, tmpNames: string -> string, restoreMode: bool)
      requires AllFsDefined(probe, Filesystems(probe))
      modifies this`snapperSubvolumes, host
      ensures !restoreMode ==>
        snapperSubvolumes == old(snapperSubvolumes) && host.log == old(host.log) && host.paths == old(host.paths)
      ensures restoreMode ==>
        var g := RestoreModeGroups(probe, tmpNames);
        snapperSubvolumes == g.groups && host.log == old(host.log) + g.cmds &&
        host.paths == RunAll(host.effect, old(host.paths), g.cmds)
    {
      if !restoreMode {
        return;
      }
      snapperSubvolumes := map[];
      var uuids := Split(probe.filesystems, "\n");
      ghost var g0 := Grouping(map[], false, []);
      ghost var cmds: seq<Command> := [];
      var stop := false;
      var i := 0;
      while i < |uuids| && !stop
        invariant 0 <= i <= |uuids|
        invariant AllFsDefined(probe, uuids[..i])
        invariant GroupAll(probe, tmpNames, g0, uuids[..i]) == Grouping(snapperSubvolumes, stop, cmds)
        invariant host.log == old(host.log) + cmds && host.paths == RunAll(host.effect, old(host.paths), cmds)
      {
        GroupAllStep(probe, tmpNames, g0, uuids, i);
        ghost var issued;
        stop, issued := GroupFilesystem(probe, tmpNames, uuids[i], cmds);
        RunAllAppend(host.effect, old(host.paths), cmds, issued);
        AppendRegroup(old(host.log), cmds, issued);
        cmds := cmds + issued;
        i := i + 1;
      }
      if stop {
        GroupAllRest(probe, tmpNames, g0, uuids, i);
      } else {
        assert uuids[..i] == uuids;
      }
    }
  }
}
