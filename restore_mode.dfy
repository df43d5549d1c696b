/** loadSnapperRestoreMode: every snapper snapshot subvolume of every btrfs
    file system, grouped by the subvolume it is a snapshot of. For each
    file system with a real mount and a non-empty subvolume list, the top
    level is mounted (mountRoot) and each listed snapshot's info.xml is
    read; snapshots with metadata number 0 are skipped. A root snapshot
    (path starting ".snapshots") is filed under the subvolume mounted as
    "/"; when the root mount options cannot be read the whole load stops
    where it is. */
module RestoreMode {

  import opened Options
  import opened QtText
  import opened Seqs
  import opened Environment
  import opened Classify
  import opened MountOptions
  import opened Inventory
  import opened Snapper
  import opened TopLevel
  import opened SnapperLoad
  import Restore

  /** The last path component of a snapshot subvolume. */
  const SnapshotLeaf: string := "snapshot"

  /** The info.xml beside a snapshot: the path without its trailing
      "snapshot", rooted at "/" for the root's own snapshots (mounted at
      /.snapshots) and at the top-level mount point otherwise. */
  function InfoFile(mountpoint: string, subvol: string): string {
    (if StartsWith(subvol, SnapshotsDir) then "/" else mountpoint) + Left(subvol, |subvol| - |SnapshotLeaf|) + "info.xml"
  }

  /** The name a kept snapshot is filed under: the text before the first
      ".snapshots", trimmed and without its last character; for the root's
      own snapshots, the `subvol=` option of "/" without a leading slash, or
      "root" without one. None when the root options are needed and empty,
      which ends the load. */
  function GroupKey(subvol: string, rootOptions: string): (k: Option<string>)
    ensures k.None? ==> Trimmed(rootOptions) == ""
    ensures k.Some? && Trimmed(Split(subvol, SnapshotsDir)[0]) == "" ==> k.value != ""
  {
    var prefix := Trimmed(Split(subvol, SnapshotsDir)[0]);
    if prefix != "" then Some(Left(prefix, |prefix| - 1))
    else
      var options := Trimmed(rootOptions);
      if options == "" then None
      else
        var v := StripLeadingSlash(LastSubvol(Split(options, ",")));
        Some(if v == "" then "root" else v)
  }

  /** What a snapshot's info.xml says, for the file system mounted at
      `mountpoint`. */
  function InfoOf(probe: Probe, mountpoint: string, subvol: string): SnapperSnapshot {
    Meta(Out(probe.fileText, InfoFile(mountpoint, subvol)))
  }

  /** A listing line is kept when it is not blank, names a snapper snapshot
      and that snapshot's metadata number is not 0. */
  predicate Kept(probe: Probe, mountpoint: string, line: string)
    requires line != "" ==> |Columns(line)| >= 9
  {
    line != "" && IsSnapper(Trimmed(Columns(line)[8])) &&
    InfoOf(probe, mountpoint, Trimmed(Columns(line)[8])).number != 0
  }

  /** The record of a kept line. */
  function EntryOf(probe: Probe, uuid: string, mountpoint: string, line: string): SnapperSubvolume
    requires |Columns(line)| >= 9
  {
    var subvol := Trimmed(Columns(line)[8]);
    var snap := InfoOf(probe, mountpoint, subvol);
    SnapperSubvolume(subvol, Trimmed(Columns(line)[1]), snap.time, snap.desc, uuid)
  }

  /** The groups filled so far, whether the load has stopped, and the
      commands mountRoot issued. */
  datatype Grouping = Grouping(groups: map<string, seq<SnapperSubvolume>>, aborted: bool, cmds: seq<Command>)

  /** One line of a file system's subvolume list. */
  function GroupLine(probe: Probe, uuid: string, mountpoint: string, g: Grouping, line: string): Grouping
    requires line != "" ==> |Columns(line)| >= 9
  {
    if g.aborted || !Kept(probe, mountpoint, line) then g
    else
      var e := EntryOf(probe, uuid, mountpoint, line);
      match GroupKey(e.subvol, probe.rootOptions)
      case None => g.(aborted := true)
      case Some(k) => g.(groups := AppendAll(g.groups, k, [e]))
  }

  /** The inner loop, over a file system's listing lines. */
  function GroupLines(probe: Probe, uuid: string, mountpoint: string, g: Grouping, lines: seq<string>): Grouping
    requires ListingDefined(lines)
  {
    if lines == [] then g
    else GroupLine(probe, uuid, mountpoint, GroupLines(probe, uuid, mountpoint, g, lines[..|lines| - 1]), lines[|lines| - 1])
  }

  /** The target column of the real-mount line. */
  function RealTarget(realMount: string): string
    requires |Split(realMount, " ")| >= 2
  {
    Split(realMount, " ")[1]
  }

  /** The queries a file system's turn reads are defined. */
  predicate FsDefined(probe: Probe, uuid: string) {
    var realMount := Out(probe.realMountOf, uuid);
    realMount != "" ==>
      |Split(realMount, " ")| >= 2 &&
      var listing := Out(probe.subvolumeListOf, RealTarget(realMount));
      RealTarget(realMount) != "" && listing != "" ==>
        ListingDefined(Split(listing, "\n")) && MountsDefined(uuid, Split(probe.topLevelMounts, "\n"))
  }

  /** The file system's listing, or "" when its turn is skipped (no real
      mount, an empty target column, or nothing listed). */
  function FsListing(probe: Probe, uuid: string): (listing: string)
    requires FsDefined(probe, uuid)
    ensures listing != "" ==>
      ListingDefined(Split(listing, "\n")) && MountsDefined(uuid, Split(probe.topLevelMounts, "\n"))
  {
    var realMount := Out(probe.realMountOf, uuid);
    if realMount == "" || RealTarget(realMount) == "" then ""
    else Out(probe.subvolumeListOf, RealTarget(realMount))
  }

  /** The top level's mount point with a trailing slash, as the lines of
      this file system see it. */
  function FsMountpoint(probe: Probe, tmpNames: string -> string, uuid: string): string
    requires MountsDefined(uuid, Split(probe.topLevelMounts, "\n"))
  {
    WithTrailingSlash(MountPlan(uuid, probe.topLevelMounts, tmpNames(uuid)).mountpoint)
  }

  /** One file system's turn: unless skipped, mount the top level and go
      through its listing. */
  function GroupFs(probe: Probe, tmpNames: string -> string, g: Grouping, uuid: string): Grouping
    requires FsDefined(probe, uuid)
  {
    var listing := FsListing(probe, uuid);
    if g.aborted || listing == "" then g
    else
      var m := MountPlan(uuid, probe.topLevelMounts, tmpNames(uuid));
      GroupLines(probe, uuid, FsMountpoint(probe, tmpNames, uuid), g.(cmds := g.cmds + m.cmds), Split(listing, "\n"))
  }

  predicate AllFsDefined(probe: Probe, uuids: seq<string>) {
    forall j :: 0 <= j < |uuids| ==> FsDefined(probe, uuids[j])
  }

  /** The outer loop, over the file systems. */
  function GroupAll(probe: Probe, tmpNames: string -> string, g: Grouping, uuids: seq<string>): Grouping
    requires AllFsDefined(probe, uuids)
  {
    if uuids == [] then g
    else GroupFs(probe, tmpNames, GroupAll(probe, tmpNames, g, uuids[..|uuids| - 1]), uuids[|uuids| - 1])
  }

  /** The file systems `getBTRFSFilesystems` lists. */
  function Filesystems(probe: Probe): seq<string> {
    Split(probe.filesystems, "\n")
  }

  /** loadSnapperRestoreMode from empty groups. */
  function RestoreModeGroups(probe: Probe, tmpNames: string -> string): Grouping
    requires AllFsDefined(probe, Filesystems(probe))
  {
    GroupAll(probe, tmpNames, Grouping(map[], false, []), Filesystems(probe))
  }

  // ---------------------------------------------------------------------
  // Where the info.xml is read and where a snapshot is filed

  /** Removing the trailing "snapshot" from a path ending in it. */
  lemma LeftWithoutLeaf(x: string)
    ensures Left(x + SnapshotLeaf, |x + SnapshotLeaf| - |SnapshotLeaf|) == x
  {
    assert (x + SnapshotLeaf)[..|x|] == x;
  }

  /** A snapshot of the root, `.snapshots/<n>/snapshot`, has its info.xml
      read below "/", wherever the top level is mounted. */
  lemma InfoFileOfRootSnapshot(mountpoint: string, n: string)
    ensures InfoFile(mountpoint, SnapshotsDir + "/" + n + "/" + SnapshotLeaf) == "/" + SnapshotsDir + "/" + n + "/info.xml"
  {
    var x := SnapshotsDir + "/" + n + "/";
    var s := x + SnapshotLeaf;
    assert s[..|SnapshotsDir|] == SnapshotsDir;
    LeftWithoutLeaf(x);
  }

  /** A nested subvolume's path does not start with ".snapshots". */
  lemma NestedNotRoot(t: string, rest: string)
    requires t != "" && !Contains(t, SnapshotsDir)
    ensures !StartsWith(t + "/" + rest, SnapshotsDir)
  {
    var s := t + "/" + rest;
    var p := t + "/";
    Restore.NoSnapshotsBeforeSlash(t);
    if |p| >= |SnapshotsDir| {
      assert p[0..|SnapshotsDir|] == s[..|SnapshotsDir|];
      assert !OccursAt(p, SnapshotsDir, 0);
    } else {
      assert s[|t|] == '/';
      assert forall i :: 0 <= i < |SnapshotsDir| ==> SnapshotsDir[i] != '/';
    }
  }

  /** A snapshot `<t>/.snapshots/<n>/snapshot` of a nested subvolume has
      its info.xml read below the top-level mount point. */
  lemma InfoFileOfNested(mountpoint: string, t: string, n: string)
    requires t != "" && !Contains(t, SnapshotsDir)
    ensures InfoFile(mountpoint, t + "/" + SnapshotsDir + "/" + n + "/" + SnapshotLeaf) ==
      mountpoint + t + "/" + SnapshotsDir + "/" + n + "/info.xml"
  {
    var x1 := t + "/";
    var x2 := x1 + SnapshotsDir;
    var x3 := x2 + "/";
    var x4 := x3 + n;
    var x := x4 + "/";
    var rest := SnapshotsDir + "/" + n + "/" + SnapshotLeaf;
    AppendRegroup(x1, SnapshotsDir, "/");
    AppendRegroup(x1, SnapshotsDir + "/", n);
    AppendRegroup(x1, SnapshotsDir + "/" + n, "/");
    AppendRegroup(x1, SnapshotsDir + "/" + n + "/", SnapshotLeaf);
    assert x + SnapshotLeaf == x1 + rest;
    NestedNotRoot(t, rest);
    LeftWithoutLeaf(x);
    AppendRegroup(mountpoint, t, "/");
    AppendRegroup(mountpoint, x1, SnapshotsDir);
    AppendRegroup(mountpoint, x2, "/");
    AppendRegroup(mountpoint, x3, n);
    AppendRegroup(mountpoint, x4, "/");
    AppendRegroup(mountpoint + x4, "/", "info.xml");
    assert "/" + "info.xml" == "/info.xml";
  }

  /** A snapshot of a nested subvolume `t` is filed under `t`. */
  lemma GroupKeyOfNested(t: string, n: string, rootOptions: string)
    requires t != "" && !Contains(t, SnapshotsDir) && !IsSpace(t[0])
    ensures GroupKey(t + "/" + SnapshotsDir + "/" + n + "/" + SnapshotLeaf, rootOptions) == Some(t)
  {
    var s := t + "/" + SnapshotsDir + "/" + n + "/" + SnapshotLeaf;
    var p := t + "/";
    Restore.NoSnapshotsBeforeSlash(t);
    assert s == p + SnapshotsDir + ("/" + n + "/" + SnapshotLeaf);
    FirstOccurrenceAfterPart(p, SnapshotsDir, "/" + n + "/" + SnapshotLeaf);
    SplitHead(s, SnapshotsDir);
    assert Split(s, SnapshotsDir)[0] == p;
    TrimmedNoop(p);
    assert Left(p, |p| - 1) == t;
  }

  /** A snapshot of the root stops the load exactly when the root mount
      options are empty, and is filed under "root" when they name no
      subvolume. */
  lemma GroupKeyOfRootSnapshot(n: string, rootOptions: string)
    ensures GroupKey(SnapshotsDir + "/" + n + "/" + SnapshotLeaf, rootOptions).None? <==> Trimmed(rootOptions) == ""
    ensures Trimmed(rootOptions) != "" &&
      (forall j :: 0 <= j < |Split(Trimmed(rootOptions), ",")| ==> !StartsWith(Split(Trimmed(rootOptions), ",")[j], SubvolKey))
      ==> GroupKey(SnapshotsDir + "/" + n + "/" + SnapshotLeaf, rootOptions) == Some("root")
  {
    var s := SnapshotsDir + "/" + n + "/" + SnapshotLeaf;
    assert s[..|SnapshotsDir|] == SnapshotsDir;
    SplitLeading(s, SnapshotsDir);
    assert Trimmed("") == "";
    LastSubvolIsLast(Split(Trimmed(rootOptions), ","));
  }

  /** A snapshot of the root, with root mount options whose part `j` is the
      last `subvol=` option, is filed under that option's value without
      one leading '/', or under "root" when nothing is left of it. */
  lemma GroupKeyOfRootSnapshotNamed(n: string, rootOptions: string, j: int)
    requires var parts := Split(Trimmed(rootOptions), ",");
      0 <= j < |parts| && StartsWith(parts[j], SubvolKey) &&
      forall k :: j < k < |parts| ==> !StartsWith(parts[k], SubvolKey)
    ensures var v := StripLeadingSlash(OptionValue(Split(Trimmed(rootOptions), ",")[j]));
      GroupKey(SnapshotsDir + "/" + n + "/" + SnapshotLeaf, rootOptions) == Some(if v == "" then "root" else v)
  {
    var s := SnapshotsDir + "/" + n + "/" + SnapshotLeaf;
    assert s[..|SnapshotsDir|] == SnapshotsDir;
    SplitLeading(s, SnapshotsDir);
    assert Trimmed("") == "";
    var parts := Split(Trimmed(rootOptions), ",");
    LastSubvolIsLast(parts);
  }

  // ---------------------------------------------------------------------
  // What a line does

  /** A line that is blank, is no snapper snapshot, or has metadata number
      0 leaves everything as it was; so does any line once the load has
      stopped. A kept line either stops the load (its key needs the root
      options and they are empty) or appends its record to its key's list
      and to no other. */
  lemma GroupLineCases(probe: Probe, uuid: string, mountpoint: string, g: Grouping, line: string)
    requires line != "" ==> |Columns(line)| >= 9
    ensures var r := GroupLine(probe, uuid, mountpoint, g, line);
      r.cmds == g.cmds &&
      (g.aborted || !Kept(probe, mountpoint, line) ==> r == g) &&
      (!g.aborted && Kept(probe, mountpoint, line) ==>
        var e := EntryOf(probe, uuid, mountpoint, line);
        (r.aborted <==> GroupKey(e.subvol, probe.rootOptions).None?) &&
        (r.aborted ==> r.groups == g.groups) &&
        (!r.aborted ==>
          var k := GroupKey(e.subvol, probe.rootOptions).value;
          Entries(r.groups, k) == Entries(g.groups, k) + [e] &&
          forall k' :: k' != k ==> Entries(r.groups, k') == Entries(g.groups, k')))
  {
  }

  /** Every record filed under `k` is a snapper snapshot of a listed file
      system whose key is `k`, with a metadata number other than 0 and the
      time and description of its info.xml. */
  predicate Belongs(probe: Probe, tmpNames: string -> string, uuids: seq<string>, k: string, e: SnapperSubvolume) {
    e.uuid in uuids && MountsDefined(e.uuid, Split(probe.topLevelMounts, "\n")) &&
    IsSnapper(e.subvol) && GroupKey(e.subvol, probe.rootOptions) == Some(k) &&
    var snap := InfoOf(probe, FsMountpoint(probe, tmpNames, e.uuid), e.subvol);
    snap.number != 0 && e.time == snap.time && e.desc == snap.desc
  }

  /** `Belongs` as a test on a key and an entry. */
  function Belonging(probe: Probe, tmpNames: string -> string, uuids: seq<string>): (string, SnapperSubvolume) -> bool {
    (k, e) => Belongs(probe, tmpNames, uuids, k, e)
  }

  predicate Filed(probe: Probe, tmpNames: string -> string, uuids: seq<string>, groups: map<string, seq<SnapperSubvolume>>) {
    EveryEntry(Belonging(probe, tmpNames, uuids), groups)
  }

  /** Every entry of every list passes `p` with its key. */
  predicate EveryEntry<T>(p: (string, T) -> bool, groups: map<string, seq<T>>) {
    forall k, j :: k in groups && 0 <= j < |groups[k]| ==> p(k, groups[k][j])
  }

  /** The load stops only over empty root mount options. */
  predicate StopsOnlyWithoutOptions(probe: Probe, g: Grouping) {
    g.aborted ==> Trimmed(probe.rootOptions) == ""
  }

  /** Every command is the mkdir or the mount of mountRoot for a listed
      file system, on its fresh directory. */
  predicate MountsListed(tmpNames: string -> string, uuids: seq<string>, cmds: seq<Command>) {
    forall j :: 0 <= j < |cmds| ==>
      exists u :: u in uuids &&
        (cmds[j] == MakeDir(TmpMount(tmpNames(u))) || cmds[j] == MountTopLevel(u, TmpMount(tmpNames(u))))
  }

  /** The invariant of both loops. */
  predicate Sound(probe: Probe, tmpNames: string -> string, uuids: seq<string>, g: Grouping) {
    Filed(probe, tmpNames, uuids, g.groups) && StopsOnlyWithoutOptions(probe, g) && MountsListed(tmpNames, uuids, g.cmds)
  }

  lemma GroupLineSound(probe: Probe, tmpNames: string -> string, uuids: seq<string>, uuid: string, g: Grouping, line: string)
    requires line != "" ==> |Columns(line)| >= 9
    requires uuid in uuids && MountsDefined(uuid, Split(probe.topLevelMounts, "\n"))
    requires Sound(probe, tmpNames, uuids, g)
    ensures Sound(probe, tmpNames, uuids, GroupLine(probe, uuid, FsMountpoint(probe, tmpNames, uuid), g, line))
  {
    var mp := FsMountpoint(probe, tmpNames, uuid);
    var r := GroupLine(probe, uuid, mp, g, line);
    GroupLineCases(probe, uuid, mp, g, line);
    if !g.aborted && Kept(probe, mp, line) && !r.aborted {
      var e := EntryOf(probe, uuid, mp, line);
      var k := GroupKey(e.subvol, probe.rootOptions).value;
      KeptBelongs(probe, tmpNames, uuids, uuid, line, k);
      EveryEntryAppend(Belonging(probe, tmpNames, uuids), g.groups, r.groups, k, e);
    }
  }

  /** The record of a kept line of a listed file system belongs under the
      key it is filed under. */
  lemma KeptBelongs(probe: Probe, tmpNames: string -> string, uuids: seq<string>, uuid: string, line: string, k: string)
    requires line != "" && |Columns(line)| >= 9
    requires uuid in uuids && MountsDefined(uuid, Split(probe.topLevelMounts, "\n"))
    requires Kept(probe, FsMountpoint(probe, tmpNames, uuid), line)
    requires GroupKey(EntryOf(probe, uuid, FsMountpoint(probe, tmpNames, uuid), line).subvol, probe.rootOptions) == Some(k)
    ensures Belonging(probe, tmpNames, uuids)(k, EntryOf(probe, uuid, FsMountpoint(probe, tmpNames, uuid), line))
  {
  }

  /** Appending one more entry that passes the test under its key keeps
      every entry passing. */
  lemma EveryEntryAppend<T>(p: (string, T) -> bool, before: map<string, seq<T>>, after: map<string, seq<T>>,
                            k: string, e: T)
    requires EveryEntry(p, before) && p(k, e)
    requires Entries(after, k) == Entries(before, k) + [e]
    requires forall k' :: k' != k ==> Entries(after, k') == Entries(before, k')
    ensures EveryEntry(p, after)
  {
    forall k', j | k' in after && 0 <= j < |after[k']|
      ensures p(k', after[k'][j])
    {
      assert after[k'] == Entries(after, k');
      if k' == k {
        if j < |Entries(before, k)| {
          assert after[k'][j] == before[k][j];
        } else {
          assert after[k'][j] == e;
        }
      } else {
        assert after[k'][j] == before[k'][j];
      }
    }
  }

  lemma ListingInit(lines: seq<string>)
    requires lines != [] && ListingDefined(lines)
    ensures ListingDefined(lines[..|lines| - 1])
    ensures lines[|lines| - 1] != "" ==> |Columns(lines[|lines| - 1])| >= 9
  {
    var init := lines[..|lines| - 1];
    assert forall j :: 0 <= j < |init| ==> init[j] == lines[j];
  }

  lemma {:induction false} GroupLinesSound(probe: Probe, tmpNames: string -> string, uuids: seq<string>, uuid: string,
                                           g: Grouping, lines: seq<string>)
    requires ListingDefined(lines)
    requires uuid in uuids && MountsDefined(uuid, Split(probe.topLevelMounts, "\n"))
    requires Sound(probe, tmpNames, uuids, g)
    ensures Sound(probe, tmpNames, uuids, GroupLines(probe, uuid, FsMountpoint(probe, tmpNames, uuid), g, lines))
    decreases |lines|
  {
    if lines != [] {
      var init := lines[..|lines| - 1];
      ListingInit(lines);
      GroupLinesSound(probe, tmpNames, uuids, uuid, g, init);
      var before := GroupLines(probe, uuid, FsMountpoint(probe, tmpNames, uuid), g, init);
      GroupLineSound(probe, tmpNames, uuids, uuid, before, lines[|lines| - 1]);
    }
  }

  /** The commands of a file system's turn are those of mountRoot. */
  lemma {:induction false} GroupLinesKeepsCommands(probe: Probe, uuid: string, mountpoint: string, g: Grouping, lines: seq<string>)
    requires ListingDefined(lines)
    ensures GroupLines(probe, uuid, mountpoint, g, lines).cmds == g.cmds
    decreases |lines|
  {
    if lines != [] {
      ListingInit(lines);
      GroupLinesKeepsCommands(probe, uuid, mountpoint, g, lines[..|lines| - 1]);
      GroupLineCases(probe, uuid, mountpoint, GroupLines(probe, uuid, mountpoint, g, lines[..|lines| - 1]), lines[|lines| - 1]);
    }
  }

  /** A file system's turn is skipped, leaving the grouping as it was, when
      it has no real mount, its target column is empty or nothing is listed
      under it; otherwise, unless the load already stopped, it mounts the
      top level and issues nothing else. */
  lemma GroupFsSkips(probe: Probe, tmpNames: string -> string, g: Grouping, uuid: string)
    requires FsDefined(probe, uuid)
    ensures var realMount := Out(probe.realMountOf, uuid);
      var skipped := realMount == "" || RealTarget(realMount) == "" ||
        Out(probe.subvolumeListOf, RealTarget(realMount)) == "";
      (skipped || g.aborted ==> GroupFs(probe, tmpNames, g, uuid) == g) &&
      (!skipped && !g.aborted ==>
         GroupFs(probe, tmpNames, g, uuid).cmds == g.cmds + MountPlan(uuid, probe.topLevelMounts, tmpNames(uuid)).cmds)
  {
    var listing := FsListing(probe, uuid);
    if !g.aborted && listing != "" {
      var m := MountPlan(uuid, probe.topLevelMounts, tmpNames(uuid));
      GroupLinesKeepsCommands(probe, uuid, FsMountpoint(probe, tmpNames, uuid), g.(cmds := g.cmds + m.cmds), Split(listing, "\n"));
    }
  }

  lemma MountCommandsListed(probe: Probe, tmpNames: string -> string, uuids: seq<string>, uuid: string, cmds: seq<Command>)
    requires uuid in uuids && MountsDefined(uuid, Split(probe.topLevelMounts, "\n"))
    requires MountsListed(tmpNames, uuids, cmds)
    ensures MountsListed(tmpNames, uuids, cmds + MountPlan(uuid, probe.topLevelMounts, tmpNames(uuid)).cmds)
  {
    var m := MountPlan(uuid, probe.topLevelMounts, tmpNames(uuid));
    MountPlanCases(uuid, probe.topLevelMounts, tmpNames(uuid));
    var all := cmds + m.cmds;
    forall j | 0 <= j < |all|
      ensures exists u :: (u in uuids &&
        (all[j] == MakeDir(TmpMount(tmpNames(u))) || all[j] == MountTopLevel(u, TmpMount(tmpNames(u)))))
    {
      if j < |cmds| {
        assert all[j] == cmds[j];
      } else {
        assert all[j] == m.cmds[j - |cmds|];
        assert all[j] == MakeDir(TmpMount(tmpNames(uuid))) || all[j] == MountTopLevel(uuid, TmpMount(tmpNames(uuid)));
      }
    }
  }

  lemma GroupFsSound(probe: Probe, tmpNames: string -> string, uuids: seq<string>, g: Grouping, uuid: string)
    requires FsDefined(probe, uuid) && uuid in uuids
    requires Sound(probe, tmpNames, uuids, g)
    ensures Sound(probe, tmpNames, uuids, GroupFs(probe, tmpNames, g, uuid))
  {
    var listing := FsListing(probe, uuid);
    if !g.aborted && listing != "" {
      var m := MountPlan(uuid, probe.topLevelMounts, tmpNames(uuid));
      MountCommandsListed(probe, tmpNames, uuids, uuid, g.cmds);
      GroupLinesSound(probe, tmpNames, uuids, uuid, g.(cmds := g.cmds + m.cmds), Split(listing, "\n"));
    }
  }

  lemma AllFsInit(probe: Probe, uuids: seq<string>)
    requires uuids != [] && AllFsDefined(probe, uuids)
    ensures AllFsDefined(probe, uuids[..|uuids| - 1]) && FsDefined(probe, uuids[|uuids| - 1])
  {
    var init := uuids[..|uuids| - 1];
    assert forall j :: 0 <= j < |init| ==> init[j] == uuids[j];
  }

  lemma {:induction false} GroupAllSound(probe: Probe, tmpNames: string -> string, all: seq<string>, g: Grouping, uuids: seq<string>)
    requires AllFsDefined(probe, uuids)
    requires forall j :: 0 <= j < |uuids| ==> uuids[j] in all
    requires Sound(probe, tmpNames, all, g)
    ensures Sound(probe, tmpNames, all, GroupAll(probe, tmpNames, g, uuids))
    decreases |uuids|
  {
    if uuids != [] {
      var init := uuids[..|uuids| - 1];
      AllFsInit(probe, uuids);
      assert forall j :: 0 <= j < |init| ==> init[j] == uuids[j];
      GroupAllSound(probe, tmpNames, all, g, init);
      GroupFsSound(probe, tmpNames, all, GroupAll(probe, tmpNames, g, init), uuids[|uuids| - 1]);
    }
  }

  /** After the restore-mode load, every record is filed under the key of
      its own path, belongs to a listed file system, and carries the time
      and description of its info.xml, whose number is not 0; the load
      stopped early only if the root mount options were empty; and the only
      commands issued are mountRoot's mkdir and mount, for listed file
      systems. */
  lemma RestoreModeSound(probe: Probe, tmpNames: string -> string)
    requires AllFsDefined(probe, Filesystems(probe))
    ensures Sound(probe, tmpNames, Filesystems(probe), RestoreModeGroups(probe, tmpNames))
  {
    var uuids := Filesystems(probe);
    GroupAllSound(probe, tmpNames, uuids, Grouping(map[], false, []), uuids);
  }

  // ---------------------------------------------------------------------
  // Stopping

  /** Once stopped, further lines change nothing. */
  lemma {:induction false} GroupLinesStopped(probe: Probe, uuid: string, mountpoint: string, g: Grouping, lines: seq<string>)
    requires ListingDefined(lines) && g.aborted
    ensures GroupLines(probe, uuid, mountpoint, g, lines) == g
    decreases |lines|
  {
    if lines != [] {
      ListingInit(lines);
      GroupLinesStopped(probe, uuid, mountpoint, g, lines[..|lines| - 1]);
    }
  }

  /** Once stopped, further file systems change nothing. */
  lemma {:induction false} GroupAllStopped(probe: Probe, tmpNames: string -> string, g: Grouping, uuids: seq<string>)
    requires AllFsDefined(probe, uuids) && g.aborted
    ensures GroupAll(probe, tmpNames, g, uuids) == g
    decreases |uuids|
  {
    if uuids != [] {
      AllFsInit(probe, uuids);
      GroupAllStopped(probe, tmpNames, g, uuids[..|uuids| - 1]);
    }
  }

  /** Both parts of a well-formed listing are well-formed. */
  lemma ListingDefinedParts(a: seq<string>, b: seq<string>)
    requires ListingDefined(a + b)
    ensures ListingDefined(a) && ListingDefined(b)
  {
    forall j | 0 <= j < |a| ensures a[j] == (a + b)[j] {}
    forall j | 0 <= j < |b| ensures b[j] == (a + b)[|a| + j] {}
  }

  /** The query outputs of both parts of a run of file systems are defined. */
  lemma AllFsDefinedParts(probe: Probe, a: seq<string>, b: seq<string>)
    requires AllFsDefined(probe, a + b)
    ensures AllFsDefined(probe, a) && AllFsDefined(probe, b)
  {
    forall j | 0 <= j < |a| ensures a[j] == (a + b)[j] {}
    forall j | 0 <= j < |b| ensures b[j] == (a + b)[|a| + j] {}
  }

  /** Going through two runs of lines is going through them one after the
      other. */
  lemma {:induction false} GroupLinesAppend(probe: Probe, uuid: string, mountpoint: string, g: Grouping,
                                            a: seq<string>, b: seq<string>)
    requires ListingDefined(a + b)
    ensures ListingDefined(a) && ListingDefined(b)
    ensures GroupLines(probe, uuid, mountpoint, g, a + b) ==
      GroupLines(probe, uuid, mountpoint, GroupLines(probe, uuid, mountpoint, g, a), b)
    decreases |b|
  {
    ListingDefinedParts(a, b);
    if b == [] {
      assert a + b == a;
    } else {
      var ab, init, last := a + b, b[..|b| - 1], b[|b| - 1];
      assert ab[..|ab| - 1] == a + init;
      ListingDefinedParts(a + init, [last]);
      GroupLinesAppend(probe, uuid, mountpoint, g, a, init);
      var x := GroupLines(probe, uuid, mountpoint, g, ab[..|ab| - 1]);
      var y := GroupLines(probe, uuid, mountpoint, GroupLines(probe, uuid, mountpoint, g, a), init);
      assert x == y;
      assert GroupLines(probe, uuid, mountpoint, g, ab) == GroupLine(probe, uuid, mountpoint, x, last);
    }
  }

  /** Going through two runs of file systems is going through them one
      after the other. */
  lemma {:induction false} GroupAllAppend(probe: Probe, tmpNames: string -> string, g: Grouping, a: seq<string>, b: seq<string>)
    requires AllFsDefined(probe, a + b)
    ensures AllFsDefined(probe, a) && AllFsDefined(probe, b)
    ensures GroupAll(probe, tmpNames, g, a + b) == GroupAll(probe, tmpNames, GroupAll(probe, tmpNames, g, a), b)
    decreases |b|
  {
    AllFsDefinedParts(probe, a, b);
    if b == [] {
      assert a + b == a;
    } else {
      var ab, init, last := a + b, b[..|b| - 1], b[|b| - 1];
      assert ab[..|ab| - 1] == a + init;
      AllFsDefinedParts(probe, a + init, [last]);
      GroupAllAppend(probe, tmpNames, g, a, init);
      var x := GroupAll(probe, tmpNames, g, ab[..|ab| - 1]);
      var y := GroupAll(probe, tmpNames, GroupAll(probe, tmpNames, g, a), init);
      assert x == y;
      assert GroupAll(probe, tmpNames, g, ab) == GroupFs(probe, tmpNames, x, last);
    }
  }

  /** One more line of a file system's listing. */
  lemma GroupLinesStep(probe: Probe, uuid: string, mountpoint: string, g: Grouping, lines: seq<string>, i: int)
    requires ListingDefined(lines) && 0 <= i < |lines|
    ensures ListingDefined(lines[..i]) && ListingDefined(lines[..i + 1])
    ensures lines[i] != "" ==> |Columns(lines[i])| >= 9
    ensures GroupLines(probe, uuid, mountpoint, g, lines[..i + 1]) ==
      GroupLine(probe, uuid, mountpoint, GroupLines(probe, uuid, mountpoint, g, lines[..i]), lines[i])
  {
    assert lines[..i + 1][..i] == lines[..i];
    assert forall j :: 0 <= j < i + 1 ==> lines[..i + 1][j] == lines[j];
  }

  /** Once a line has aborted the grouping, the remaining lines change
      nothing. */
  lemma GroupLinesRest(probe: Probe, uuid: string, mountpoint: string, g: Grouping, lines: seq<string>, i: int)
    requires ListingDefined(lines) && 0 <= i <= |lines| && ListingDefined(lines[..i])
    requires GroupLines(probe, uuid, mountpoint, g, lines[..i]).aborted
    ensures GroupLines(probe, uuid, mountpoint, g, lines) == GroupLines(probe, uuid, mountpoint, g, lines[..i])
  {
    assert lines[..i] + lines[i..] == lines;
    GroupLinesAppend(probe, uuid, mountpoint, g, lines[..i], lines[i..]);
    GroupLinesStopped(probe, uuid, mountpoint, GroupLines(probe, uuid, mountpoint, g, lines[..i]), lines[i..]);
  }

  /** One more file system of restore mode's outer loop. */
  lemma GroupAllStep(probe: Probe, tmpNames: string -> string, g: Grouping, uuids: seq<string>, i: int)
    requires AllFsDefined(probe, uuids) && 0 <= i < |uuids|
    ensures AllFsDefined(probe, uuids[..i]) && AllFsDefined(probe, uuids[..i + 1]) && FsDefined(probe, uuids[i])
    ensures GroupAll(probe, tmpNames, g, uuids[..i + 1]) ==
      GroupFs(probe, tmpNames, GroupAll(probe, tmpNames, g, uuids[..i]), uuids[i])
  {
    assert uuids[..i + 1][..i] == uuids[..i];
    assert forall j :: 0 <= j < i + 1 ==> uuids[..i + 1][j] == uuids[j];
  }

  /** Once a file system has aborted the grouping, the remaining ones
      change nothing. */
  lemma GroupAllRest(probe: Probe, tmpNames: string -> string, g: Grouping, uuids: seq<string>, i: int)
    requires AllFsDefined(probe, uuids) && 0 <= i <= |uuids| && AllFsDefined(probe, uuids[..i])
    requires GroupAll(probe, tmpNames, g, uuids[..i]).aborted
    ensures GroupAll(probe, tmpNames, g, uuids) == GroupAll(probe, tmpNames, g, uuids[..i])
  {
    assert uuids[..i] + uuids[i..] == uuids;
    GroupAllAppend(probe, tmpNames, g, uuids[..i], uuids[i..]);
    GroupAllStopped(probe, tmpNames, GroupAll(probe, tmpNames, g, uuids[..i]), uuids[i..]);
  }
}
