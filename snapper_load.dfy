/** loadSnapper: the snapper configurations from `snapper list-configs`
    (name and subvolume, one per line) and the snapshots of each. A
    configuration's snapshots come from `snapper -c <name> list`, except for
    the "root" configuration after a boot into a snapshot: its snapshots are
    then read from the info.xml files under the root's ".snapshots"
    directory, which needs the top level mounted. */
module SnapperLoad {

  import opened Options
  import opened QtText
  import opened QtMap
  import opened Seqs
  import opened Environment
  import opened Classify
  import opened MountOptions
  import opened Inventory
  import opened Snapper
  import opened TopLevel

  /** The state loadSnapper changes: the two snapper maps, the file-system
      map (a lookup with operator[] inserts an empty record) and the
      commands issued. */
  datatype SnapperState = SnapperState(
    configs: map<string, string>,
    snapshots: map<string, seq<SnapperSnapshot>>,
    fsMap: map<string, Btrfs>,
    cmds: seq<Command>)

  /** The list a key holds, empty for a missing key. */
  function Entries<T>(m: map<string, seq<T>>, key: string): seq<T> {
    if key in m then m[key] else []
  }

  /** Appending `xs` one element at a time to the list under `key`, which
      comes into existence with the first element. */
  function AppendAll<T>(m: map<string, seq<T>>, key: string, xs: seq<T>): (r: map<string, seq<T>>)
    ensures Entries(r, key) == Entries(m, key) + xs
    ensures forall k :: k != key ==> Entries(r, k) == Entries(m, k)
    ensures forall k :: k in r <==> k in m || (k == key && xs != [])
  {
    if xs == [] then m else m[key := Entries(m, key) + xs]
  }

  /** Appending in two goes is appending once. */
  lemma AppendAllSnoc<T>(m: map<string, seq<T>>, key: string, xs: seq<T>, x: T)
    ensures AppendAll(m, key, xs + [x]) == AppendAll(m, key, xs)[key := Entries(AppendAll(m, key, xs), key) + [x]]
  {
    assert Entries(m, key) + (xs + [x]) == (Entries(m, key) + xs) + [x];
    if xs == [] {
      assert xs + [x] == [x];
    }
  }

  /** The info.xml records among `files` whose number is 0, in order:
      the snapshot-boot branch keeps exactly these. */
  function Unnumbered(fileText: map<string, string>, files: seq<string>): (r: seq<SnapperSnapshot>)
    ensures forall j :: 0 <= j < |r| ==> r[j].number == 0
    ensures |r| <= |files|
  {
    if files == [] then []
    else
      var snap := Meta(Out(fileText, files[|files| - 1]));
      Unnumbered(fileText, files[..|files| - 1]) + (if snap.number == 0 then [snap] else [])
  }

  /** Every kept record is the metadata of one of the files. */
  lemma {:induction false} UnnumberedFromFiles(fileText: map<string, string>, files: seq<string>)
    ensures forall x :: x in Unnumbered(fileText, files) ==>
      exists j :: 0 <= j < |files| && x == Meta(Out(fileText, files[j]))
    decreases |files|
  {
    if files != [] {
      var init := files[..|files| - 1];
      UnnumberedFromFiles(fileText, init);
      assert forall j :: 0 <= j < |init| ==> init[j] == files[j];
    }
  }

  /** The top-level mount lines can be read for the root's uuid. */
  predicate BootDefined(probe: Probe) {
    match SnapshotBoot(probe.rootMount)
    case None => true
    case Some(b) => MountsDefined(b.uuid, Split(probe.topLevelMounts, "\n"))
  }

  /** The snapshot-boot branch for configuration `name`: a root mount that
      is a snapshot with a known id and a non-empty prefix gets the top
      level mounted and the unnumbered info.xml records appended. */
  function BootSnapshots(probe: Probe, tmpNames: string -> string, st: SnapperState, name: string): SnapperState
    requires BootDefined(probe)
  {
    match SnapshotBoot(probe.rootMount)
    case None => st
    case Some(b) => BootSnapshotsFrom(probe, tmpNames, st, name, b)
  }

  /** The snapshot-boot branch once the root mount is known to be the
      snapshot `b`. */
  function BootSnapshotsFrom(probe: Probe, tmpNames: string -> string, st: SnapperState, name: string,
                             b: BootSnapshot): SnapperState
    requires MountsDefined(b.uuid, Split(probe.topLevelMounts, "\n"))
  {
    var subvol := StripLeadingSlash(b.subvol);
    if !IsSnapper(subvol) then st
    else
      var fs := Touch(st.fsMap, b.uuid);
      if Key(fs[b.uuid].subVolumes, subvol) == "" then st.(fsMap := fs)
      else
        var prefix := Split(subvol, SnapshotsDir)[0];
        if prefix == "" then st.(fsMap := fs)
        else
          var m := MountPlan(b.uuid, probe.topLevelMounts, tmpNames(b.uuid));
          var dir := WithTrailingSlash(m.mountpoint) + prefix + SnapshotsDir;
          var files := Split(Out(probe.infoFilesUnder, dir), "\n");
          SnapperState(st.configs, AppendAll(st.snapshots, name, Unnumbered(probe.fileText, files)), fs,
                       st.cmds + m.cmds)
  }

  /** A listed configuration's snapshot table can be read. */
  predicate ListingRowsDefined(probe: Probe, name: string) {
    var list := Out(probe.snapshotListOf, name);
    list != "" ==> RowsDefined(Split(list, "\n"))
  }

  /** The snapshots `snapper list` gives for a configuration. */
  function ListedSnapshots(probe: Probe, name: string): seq<SnapperSnapshot>
    requires ListingRowsDefined(probe, name)
  {
    var list := Out(probe.snapshotListOf, name);
    if list == "" then [] else Rows(Split(list, "\n"))
  }

  /** The branch a configuration line takes. */
  predicate ReadsInfoFiles(isSnapBoot: bool, name: string) {
    name == "root" && isSnapBoot
  }

  predicate ConfigLinesDefined(probe: Probe, isSnapBoot: bool, lines: seq<string>) {
    BootDefined(probe) &&
    forall j :: 0 <= j < |lines| ==>
      ConfigRowDefined(lines[j]) &&
      (!ReadsInfoFiles(isSnapBoot, ConfigName(lines[j])) ==> ListingRowsDefined(probe, ConfigName(lines[j])))
  }

  /** One configuration line: record the configuration, then append its
      snapshots. */
  function ConfigLine(probe: Probe, isSnapBoot: bool, tmpNames: string -> string, st: SnapperState, line: string): SnapperState
    requires BootDefined(probe) && ConfigRowDefined(line)
    requires !ReadsInfoFiles(isSnapBoot, ConfigName(line)) ==> ListingRowsDefined(probe, ConfigName(line))
  {
    var name := ConfigName(line);
    var st1 := st.(configs := st.configs[name := ConfigSubvolume(line)]);
    if ReadsInfoFiles(isSnapBoot, name) then BootSnapshots(probe, tmpNames, st1, name)
    else st1.(snapshots := AppendAll(st1.snapshots, name, ListedSnapshots(probe, name)))
  }

  /** The loop over the configuration lines. */
  function LoadConfigs(probe: Probe, isSnapBoot: bool, tmpNames: string -> string, st: SnapperState, lines: seq<string>): SnapperState
    requires ConfigLinesDefined(probe, isSnapBoot, lines)
  {
    if lines == [] then st
    else ConfigLine(probe, isSnapBoot, tmpNames, LoadConfigs(probe, isSnapBoot, tmpNames, st, lines[..|lines| - 1]), lines[|lines| - 1])
  }

  predicate LoadSnapperDefined(probe: Probe, isSnapBoot: bool) {
    BootDefined(probe) &&
    (probe.configList != "" ==> ConfigLinesDefined(probe, isSnapBoot, Split(probe.configList, "\n")))
  }

  /** loadSnapper with snapper installed: both snapper maps are cleared and
      refilled from the configuration list (nothing more when it is
      empty). */
  function LoadSnapper(probe: Probe, isSnapBoot: bool, tmpNames: string -> string, st: SnapperState): SnapperState
    requires LoadSnapperDefined(probe, isSnapBoot)
  {
    var cleared := st.(configs := map[], snapshots := map[]);
    if probe.configList == "" then cleared
    else LoadConfigs(probe, isSnapBoot, tmpNames, cleared, Split(probe.configList, "\n"))
  }

  // ---------------------------------------------------------------------
  // Properties

  /** The line names configuration `name`. */
  function Names(name: string): string -> bool {
    (line: string) => ConfigRowDefined(line) && ConfigName(line) == name
  }

  /** A configuration line records its configuration, whatever branch it
      takes. */
  lemma ConfigLineConfigs(probe: Probe, isSnapBoot: bool, tmpNames: string -> string, st: SnapperState, line: string)
    requires BootDefined(probe) && ConfigRowDefined(line)
    requires !ReadsInfoFiles(isSnapBoot, ConfigName(line)) ==> ListingRowsDefined(probe, ConfigName(line))
    ensures ConfigLine(probe, isSnapBoot, tmpNames, st, line).configs == st.configs[ConfigName(line) := ConfigSubvolume(line)]
  {
    var name := ConfigName(line);
    var st1 := st.(configs := st.configs[name := ConfigSubvolume(line)]);
    if ReadsInfoFiles(isSnapBoot, name) {
      BootSnapshotsAppends(probe, tmpNames, st1, name);
      assert ConfigLine(probe, isSnapBoot, tmpNames, st, line) == BootSnapshots(probe, tmpNames, st1, name);
    } else {
      assert ConfigLine(probe, isSnapBoot, tmpNames, st, line).configs == st1.configs;
    }
  }

  /** The snapshot-boot branch adds only records with number 0, and only
      under the configuration it handles. */
  lemma BootSnapshotsAppends(probe: Probe, tmpNames: string -> string, st: SnapperState, name: string)
    requires BootDefined(probe)
    ensures var r := BootSnapshots(probe, tmpNames, st, name);
      r.configs == st.configs &&
      (forall k :: k != name ==> Entries(r.snapshots, k) == Entries(st.snapshots, k)) &&
      exists xs: seq<SnapperSnapshot> :: Entries(r.snapshots, name) == Entries(st.snapshots, name) + xs &&
        forall j :: 0 <= j < |xs| ==> xs[j].number == 0
  {
    var r := BootSnapshots(probe, tmpNames, st, name);
    if r.snapshots == st.snapshots {
      assert Entries(r.snapshots, name) == Entries(st.snapshots, name) + [];
    }
  }

  /** Keeping "root" records unnumbered, one line at a time. */
  lemma ConfigLineRootUnnumbered(probe: Probe, tmpNames: string -> string, st: SnapperState, line: string)
    requires BootDefined(probe) && ConfigRowDefined(line)
    requires !ReadsInfoFiles(true, ConfigName(line)) ==> ListingRowsDefined(probe, ConfigName(line))
    requires RootUnnumbered(st.snapshots)
    ensures RootUnnumbered(ConfigLine(probe, true, tmpNames, st, line).snapshots)
  {
    var name := ConfigName(line);
    var st1 := st.(configs := st.configs[name := ConfigSubvolume(line)]);
    if name == "root" {
      BootSnapshotsAppends(probe, tmpNames, st1, name);
    }
  }

  /** Without a snapshot boot a line changes neither the commands nor the
      file-system map, and appends the configuration's listed rows. */
  lemma ConfigLineNoBoot(probe: Probe, tmpNames: string -> string, st: SnapperState, line: string, name: string)
    requires BootDefined(probe) && ConfigRowDefined(line) && ListingRowsDefined(probe, ConfigName(line))
    ensures var r := ConfigLine(probe, false, tmpNames, st, line);
      r.cmds == st.cmds && r.fsMap == st.fsMap &&
      Entries(r.snapshots, name) ==
        Entries(st.snapshots, name) + (if ConfigName(line) == name then ListedSnapshots(probe, name) else [])
  {
  }

  /** The definedness of a list carries over to the list without its last
      line, and covers that line. */
  lemma ConfigLinesInit(probe: Probe, isSnapBoot: bool, lines: seq<string>)
    requires lines != [] && ConfigLinesDefined(probe, isSnapBoot, lines)
    ensures ConfigLinesDefined(probe, isSnapBoot, lines[..|lines| - 1])
    ensures ConfigRowDefined(lines[|lines| - 1])
    ensures !ReadsInfoFiles(isSnapBoot, ConfigName(lines[|lines| - 1])) ==>
      ListingRowsDefined(probe, ConfigName(lines[|lines| - 1]))
  {
    var init := lines[..|lines| - 1];
    assert forall j :: 0 <= j < |init| ==> init[j] == lines[j];
  }

  /** A configuration's subvolume is the one on the last line naming it;
      names no line mentions keep what they had. */
  lemma {:induction false} ConfigsLastWins(probe: Probe, isSnapBoot: bool, tmpNames: string -> string, st: SnapperState,
                                           lines: seq<string>, name: string)
    requires ConfigLinesDefined(probe, isSnapBoot, lines)
    ensures var c := LoadConfigs(probe, isSnapBoot, tmpNames, st, lines).configs;
      var i := LastWhere(Names(name), lines);
      (i < 0 ==> (name in c <==> name in st.configs) && (name in c ==> c[name] == st.configs[name])) &&
      (i >= 0 ==> name in c && c[name] == ConfigSubvolume(lines[i]))
    decreases |lines|
  {
    if lines != [] {
      var init, last := lines[..|lines| - 1], lines[|lines| - 1];
      ConfigLinesInit(probe, isSnapBoot, lines);
      ConfigsLastWins(probe, isSnapBoot, tmpNames, st, init, name);
      var before := LoadConfigs(probe, isSnapBoot, tmpNames, st, init);
      ConfigLineConfigs(probe, isSnapBoot, tmpNames, before, last);
      var c := LoadConfigs(probe, isSnapBoot, tmpNames, st, lines).configs;
      assert c == before.configs[ConfigName(last) := ConfigSubvolume(last)];
      var i := LastWhere(Names(name), lines);
      if ConfigName(last) == name {
        assert i == |lines| - 1;
        assert c[name] == ConfigSubvolume(last);
      } else {
        assert i == LastWhere(Names(name), init);
        assert name in c <==> name in before.configs;
        assert name in c ==> c[name] == before.configs[name];
        assert i >= 0 ==> init[i] == lines[i];
      }
    }
  }

  /** After the whole load, the configurations are exactly the names
      listed, each with the subvolume of the last line naming it. */
  lemma LoadSnapperConfigs(probe: Probe, isSnapBoot: bool, tmpNames: string -> string, st: SnapperState, name: string)
    requires LoadSnapperDefined(probe, isSnapBoot) && probe.configList != ""
    ensures var c := LoadSnapper(probe, isSnapBoot, tmpNames, st).configs;
      var lines := Split(probe.configList, "\n");
      var i := LastWhere(Names(name), lines);
      (name in c <==> i >= 0) && (i >= 0 ==> c[name] == ConfigSubvolume(lines[i]))
  {
    var cleared := st.(configs := map[], snapshots := map[]);
    ConfigsLastWins(probe, isSnapBoot, tmpNames, cleared, Split(probe.configList, "\n"), name);
  }

  /** Records under "root" whose number is not 0 never come from the
      snapshot-boot branch: after a boot into a snapshot every "root"
      record the load adds has number 0. */
  predicate RootUnnumbered(snapshots: map<string, seq<SnapperSnapshot>>) {
    forall j :: 0 <= j < |Entries(snapshots, "root")| ==> Entries(snapshots, "root")[j].number == 0
  }

  lemma {:induction false} BootRootUnnumbered(probe: Probe, tmpNames: string -> string, st: SnapperState, lines: seq<string>)
    requires ConfigLinesDefined(probe, true, lines) && RootUnnumbered(st.snapshots)
    ensures RootUnnumbered(LoadConfigs(probe, true, tmpNames, st, lines).snapshots)
    decreases |lines|
  {
    if lines != [] {
      var init := lines[..|lines| - 1];
      ConfigLinesInit(probe, true, lines);
      BootRootUnnumbered(probe, tmpNames, st, init);
      ConfigLineRootUnnumbered(probe, tmpNames, LoadConfigs(probe, true, tmpNames, st, init), lines[|lines| - 1]);
    }
  }

  /** Without a snapshot boot nothing is mounted and the file-system map
      is left alone. */
  lemma {:induction false} NoBootNoMount(probe: Probe, tmpNames: string -> string, st: SnapperState, lines: seq<string>)
    requires ConfigLinesDefined(probe, false, lines)
    ensures LoadConfigs(probe, false, tmpNames, st, lines).cmds == st.cmds
    ensures LoadConfigs(probe, false, tmpNames, st, lines).fsMap == st.fsMap
    decreases |lines|
  {
    if lines != [] {
      var init := lines[..|lines| - 1];
      ConfigLinesInit(probe, false, lines);
      NoBootNoMount(probe, tmpNames, st, init);
      ConfigLineNoBoot(probe, tmpNames, LoadConfigs(probe, false, tmpNames, st, init), lines[|lines| - 1], "");
    }
  }

  /** The snapshot rows of every line naming `name`, in order: what a
      configuration's list holds without a snapshot boot. */
  function ListedRows(probe: Probe, lines: seq<string>, name: string): seq<SnapperSnapshot>
    requires ConfigLinesDefined(probe, false, lines)
  {
    if lines == [] then []
    else
      var last := lines[|lines| - 1];
      ListedRows(probe, lines[..|lines| - 1], name) + (if ConfigName(last) == name then ListedSnapshots(probe, name) else [])
  }

  /** Appending to a concatenation. */
  lemma AppendTwice<T>(a: seq<T>, e: seq<T>, r: seq<T>, x: seq<T>)
    requires a == e + r
    ensures a + x == e + (r + x)
  {
  }

  lemma ListedRowsSnoc(probe: Probe, lines: seq<string>, name: string)
    requires lines != [] && ConfigLinesDefined(probe, false, lines)
    ensures ConfigLinesDefined(probe, false, lines[..|lines| - 1])
    ensures ListedRows(probe, lines, name) == ListedRows(probe, lines[..|lines| - 1], name) +
      (if ConfigName(lines[|lines| - 1]) == name then ListedSnapshots(probe, name) else [])
  {
    ConfigLinesInit(probe, false, lines);
  }

  /** Without a snapshot boot, the snapshots listed under a configuration
      are its `snapper list` rows, once for every line naming it. */
  lemma {:induction false} SnapshotsListed(probe: Probe, tmpNames: string -> string, st: SnapperState, lines: seq<string>, name: string)
    requires ConfigLinesDefined(probe, false, lines)
    ensures Entries(LoadConfigs(probe, false, tmpNames, st, lines).snapshots, name) ==
      Entries(st.snapshots, name) + ListedRows(probe, lines, name)
    decreases |lines|
  {
    if lines == [] {
      assert Entries(st.snapshots, name) + [] == Entries(st.snapshots, name);
    } else {
      var init := lines[..|lines| - 1];
      ConfigLinesInit(probe, false, lines);
      var last := lines[|lines| - 1];
      var before := LoadConfigs(probe, false, tmpNames, st, init);
      SnapshotsListed(probe, tmpNames, st, init, name);
      ConfigLineNoBoot(probe, tmpNames, before, last, name);
      ListedRowsSnoc(probe, lines, name);
      var e0 := Entries(st.snapshots, name);
      var rows := ListedRows(probe, init, name);
      var added := if ConfigName(last) == name then ListedSnapshots(probe, name) else [];
      assert Entries(before.snapshots, name) == e0 + rows;
      assert Entries(ConfigLine(probe, false, tmpNames, before, last).snapshots, name) == e0 + rows + added;
      AppendTwice(Entries(before.snapshots, name), e0, rows, added);
    }
  }

  /** One more turn of loadSnapper's loop over the configuration lines. */
  lemma LoadConfigsStep(probe: Probe, isSnapBoot: bool, tmpNames: string -> string, st: SnapperState,
                        lines: seq<string>, i: int)
    requires ConfigLinesDefined(probe, isSnapBoot, lines) && 0 <= i < |lines|
    ensures ConfigLinesDefined(probe, isSnapBoot, lines[..i]) && ConfigLinesDefined(probe, isSnapBoot, lines[..i + 1])
    ensures ConfigRowDefined(lines[i])
    ensures !ReadsInfoFiles(isSnapBoot, ConfigName(lines[i])) ==> ListingRowsDefined(probe, ConfigName(lines[i]))
    ensures LoadConfigs(probe, isSnapBoot, tmpNames, st, lines[..i + 1]) ==
      ConfigLine(probe, isSnapBoot, tmpNames, LoadConfigs(probe, isSnapBoot, tmpNames, st, lines[..i]), lines[i])
  {
    assert lines[..i + 1][..i] == lines[..i];
    assert forall j :: 0 <= j < i + 1 ==> lines[..i + 1][j] == lines[j];
  }

  /** One more file of the snapshot-boot branch's info.xml loop. */
  lemma UnnumberedStep(fileText: map<string, string>, files: seq<string>, j: int)
    requires 0 <= j < |files|
    ensures var snap := Meta(Out(fileText, files[j]));
      (snap.number == 0 ==> Unnumbered(fileText, files[..j + 1]) == Unnumbered(fileText, files[..j]) + [snap]) &&
      (snap.number != 0 ==> Unnumbered(fileText, files[..j + 1]) == Unnumbered(fileText, files[..j]))
  {
    assert files[..j + 1][..j] == files[..j];
    assert Unnumbered(fileText, files[..j]) + [] == Unnumbered(fileText, files[..j]);
  }
}
