/** The file-system inventory: the usage figures `btrfs fi usage -b` prints
    for a mounted file system, the id-to-path map of its subvolumes from
    `btrfs subvolume list`, and the direct children of a subvolume. */
module Inventory {

  import opened Options
  import opened QtText
  import opened QtNumbers
  import opened Environment

  /** One btrfs file system: where it is mounted, its usage figures in
      bytes (64-bit `long`s) and its subvolumes, id to path. */
  datatype Btrfs = Btrfs(
    mountPoint: string,
    totalSize: int,
    allocatedSize: int,
    usedSize: int,
    freeSize: int,
    dataSize: int,
    dataUsed: int,
    metaSize: int,
    metaUsed: int,
    sysSize: int,
    sysUsed: int,
    subVolumes: map<string, string>
  )

  /** The zero-initialised record, with a mount point. */
  function Blank(mountPoint: string): Btrfs {
    Btrfs(mountPoint, 0, 0, 0, 0, 0, 0, 0, 0, 0, 0, map[])
  }

  /** `fsMap[uuid]` on a QMap: a missing key is first inserted with the
      zero-initialised record. */
  function Touch(fsMap: map<string, Btrfs>, uuid: string): (r: map<string, Btrfs>)
    ensures uuid in r && r.Keys == fsMap.Keys + {uuid}
    ensures forall u :: u in fsMap ==> r[u] == fsMap[u]
    ensures uuid !in fsMap ==> r[uuid] == Blank("")
  {
    if uuid in fsMap then fsMap else fsMap[uuid := Blank("")]
  }

  /** The usage figures of a record. */
  datatype Field =
    | TotalSize | AllocatedSize | UsedSize | FreeSize
    | DataSize | DataUsed | MetaSize | MetaUsed | SysSize | SysUsed

  function Get(b: Btrfs, f: Field): int {
    match f
    case TotalSize => b.totalSize
    case AllocatedSize => b.allocatedSize
    case UsedSize => b.usedSize
    case FreeSize => b.freeSize
    case DataSize => b.dataSize
    case DataUsed => b.dataUsed
    case MetaSize => b.metaSize
    case MetaUsed => b.metaUsed
    case SysSize => b.sysSize
    case SysUsed => b.sysUsed
  }

  // ---------------------------------------------------------------------
  // Usage report

  /** The heading of a usage line: the text before its first ':'. */
  function Heading(line: string): string {
    Trimmed(Split(line, ":")[0])
  }

  /** What a usage line reports, told by its heading. */
  datatype LineKind =
    | DeviceSizeLine | DeviceAllocatedLine | UsedLine | FreeLine
    | DataLine | MetadataLine | SystemLine | OtherLine

  /** The headings are tried in this order: four exact headings, then the
      three block-group prefixes. */
  function KindOf(heading: string): LineKind {
    if heading == "Device size" then DeviceSizeLine
    else if heading == "Device allocated" then DeviceAllocatedLine
    else if heading == "Used" then UsedLine
    else if heading == "Free (estimated)" then FreeLine
    else if StartsWith(heading, "Data,") then DataLine
    else if StartsWith(heading, "Metadata,") then MetadataLine
    else if StartsWith(heading, "System,") then SystemLine
    else OtherLine
  }

  /** The figures a line of this kind records. */
  function KindFields(k: LineKind): set<Field> {
    match k
    case DeviceSizeLine => {TotalSize}
    case DeviceAllocatedLine => {AllocatedSize}
    case UsedLine => {UsedSize}
    case FreeLine => {FreeSize}
    case DataLine => {DataSize, DataUsed}
    case MetadataLine => {MetaSize, MetaUsed}
    case SystemLine => {SysSize, SysUsed}
    case OtherLine => {}
  }

  /** The ':'-separated columns have every column the kind reads (and, for
      the free-space line, a word in the second column); reading a column a
      line does not have is undefined. */
  predicate ColumnsDefined(k: LineKind, cols: seq<string>) {
    match k
    case DeviceSizeLine | DeviceAllocatedLine | UsedLine => |cols| >= 2
    case FreeLine => |cols| >= 2 && FirstWord(cols[1]).Some?
    case DataLine | MetadataLine | SystemLine => |cols| >= 4
    case OtherLine => true
  }

  /** A block-group figure: the column up to its first `sep` (',' for the
      size in the third column, ' ' for the bytes used in the fourth),
      converted with toLong. */
  function PoolField(col: string, sep: string): (n: int)
    requires |sep| > 0
    ensures LongMin <= n <= LongMax
  {
    ToLong(Trimmed(Split(col, sep)[0]))
  }

  /** The value a line gives for one figure it records, read figure by
      figure. */
  function Reading(k: LineKind, cols: seq<string>, f: Field): (n: int)
    requires ColumnsDefined(k, cols) && f in KindFields(k)
    ensures LongMin <= n <= LongMax
  {
    match f
    case TotalSize | AllocatedSize | UsedSize => ToLong(Trimmed(cols[1]))
    case FreeSize => ToLong(Trimmed(FirstWord(cols[1]).value))
    case DataSize | MetaSize | SysSize => PoolField(cols[2], ",")
    case DataUsed | MetaUsed | SysUsed => PoolField(cols[3], " ")
  }

  /** One step of the usage loop, kind by kind: a line sets exactly the
      figures its kind records, to the values its columns give, and leaves
      the rest of the record alone. */
  function Apply(b: Btrfs, k: LineKind, cols: seq<string>): (r: Btrfs)
    requires ColumnsDefined(k, cols)
    ensures r.mountPoint == b.mountPoint && r.subVolumes == b.subVolumes
  {
    match k
    case DeviceSizeLine => b.(totalSize := ToLong(Trimmed(cols[1])))
    case DeviceAllocatedLine => b.(allocatedSize := ToLong(Trimmed(cols[1])))
    case UsedLine => b.(usedSize := ToLong(Trimmed(cols[1])))
    case FreeLine => b.(freeSize := ToLong(Trimmed(FirstWord(cols[1]).value)))
    case DataLine => b.(dataSize := PoolField(cols[2], ","), dataUsed := PoolField(cols[3], " "))
    case MetadataLine => b.(metaSize := PoolField(cols[2], ","), metaUsed := PoolField(cols[3], " "))
    case SystemLine => b.(sysSize := PoolField(cols[2], ","), sysUsed := PoolField(cols[3], " "))
    case OtherLine => b
  }

  /** A line leaves alone the figures its kind does not record. */
  lemma ApplyKeepsOtherFigures(b: Btrfs, k: LineKind, cols: seq<string>, f: Field)
    requires ColumnsDefined(k, cols) && f !in KindFields(k)
    ensures Get(Apply(b, k, cols), f) == Get(b, f)
  {
  }

  /** A line sets the figures its kind records to the values its columns
      give. */
  lemma ApplySetsOwnFigures(b: Btrfs, k: LineKind, cols: seq<string>, f: Field)
    requires ColumnsDefined(k, cols) && f in KindFields(k)
    ensures Get(Apply(b, k, cols), f) == Reading(k, cols, f)
  {
    match k
    case DeviceSizeLine => assert f == TotalSize;
    case DeviceAllocatedLine => assert f == AllocatedSize;
    case UsedLine => assert f == UsedSize;
    case FreeLine => assert f == FreeSize;
    case DataLine => assert f == DataSize || f == DataUsed;
    case MetadataLine => assert f == MetaSize || f == MetaUsed;
    case SystemLine => assert f == SysSize || f == SysUsed;
  }

  predicate UsageLineDefined(line: string) {
    ColumnsDefined(KindOf(Heading(line)), Split(line, ":"))
  }

  function ApplyUsageLine(b: Btrfs, line: string): Btrfs
    requires UsageLineDefined(line)
  {
    Apply(b, KindOf(Heading(line)), Split(line, ":"))
  }

  /** The body of the usage loop: the heading is compared with each known
      heading in turn and the matching branch assigns its figures. */
  method ApplyLine(b: Btrfs, line: string) returns (r: Btrfs)
    requires UsageLineDefined(line)
    ensures r == ApplyUsageLine(b, line)
  {
    var heading := Heading(line);
    var cols := Split(line, ":");
    r := b;
    if heading == "Device size" {
      r := r.(totalSize := ToLong(Trimmed(cols[1])));
    } else if heading == "Device allocated" {
      r := r.(allocatedSize := ToLong(Trimmed(cols[1])));
    } else if heading == "Used" {
      r := r.(usedSize := ToLong(Trimmed(cols[1])));
    } else if heading == "Free (estimated)" {
      r := r.(freeSize := ToLong(Trimmed(FirstWord(cols[1]).value)));
    } else if StartsWith(heading, "Data,") {
      r := r.(dataSize := PoolField(cols[2], ","));
      r := r.(dataUsed := PoolField(cols[3], " "));
    } else if StartsWith(heading, "Metadata,") {
      r := r.(metaSize := PoolField(cols[2], ","));
      r := r.(metaUsed := PoolField(cols[3], " "));
    } else if StartsWith(heading, "System,") {
      r := r.(sysSize := PoolField(cols[2], ","));
      r := r.(sysUsed := PoolField(cols[3], " "));
    }
  }

  predicate LinesDefined(lines: seq<string>) {
    forall j :: 0 <= j < |lines| ==> UsageLineDefined(lines[j])
  }

  /** The record after the loop has seen `lines`. */
  function UsageFrom(b: Btrfs, lines: seq<string>): Btrfs
    requires LinesDefined(lines)
  {
    if lines == [] then b
    else ApplyUsageLine(UsageFrom(b, lines[..|lines| - 1]), lines[|lines| - 1])
  }

  predicate UsageReportDefined(report: string) {
    LinesDefined(Split(report, "\n"))
  }

  /** The record loadBTRFS builds from a mount point and its usage report. */
  function UsageReport(mountPoint: string, report: string): Btrfs
    requires UsageReportDefined(report)
  {
    UsageFrom(Blank(mountPoint), Split(report, "\n"))
  }

  /** The usage loop of loadBTRFS, starting from the zero record. */
  method ParseUsageReport(mountPoint: string, report: string) returns (b: Btrfs)
    requires UsageReportDefined(report)
    ensures b == UsageReport(mountPoint, report)
  {
    var lines := Split(report, "\n");
    b := Blank(mountPoint);
    var i := 0;
    while i < |lines|
      invariant 0 <= i <= |lines|
      invariant b == UsageFrom(Blank(mountPoint), lines[..i])
    {
      assert lines[..i + 1][..i] == lines[..i];
      b := ApplyLine(b, lines[i]);
      i := i + 1;
    }
    assert lines[..i] == lines;
  }

  /** The index of the last line that records `f`, or -1. */
  function LastSetter(lines: seq<string>, f: Field): (k: int)
    ensures -1 <= k < |lines|
    ensures k >= 0 ==> f in KindFields(KindOf(Heading(lines[k])))
  {
    if lines == [] then -1
    else if f in KindFields(KindOf(Heading(lines[|lines| - 1]))) then |lines| - 1
    else LastSetter(lines[..|lines| - 1], f)
  }

  /** No line after the last setter records the figure. */
  lemma {:induction false} LastSetterIsLast(lines: seq<string>, f: Field, j: int)
    requires LastSetter(lines, f) < j < |lines|
    ensures f !in KindFields(KindOf(Heading(lines[j])))
    decreases |lines|
  {
    if j < |lines| - 1 {
      var init := lines[..|lines| - 1];
      assert lines[j] == init[j];
      LastSetterIsLast(init, f, j);
    }
  }

  /** Each figure comes from the last line that records it, and keeps its
      starting value when no line does; the mount point and the subvolumes
      are left alone. */
  lemma {:induction false} UsageFromLastSetter(b: Btrfs, lines: seq<string>, f: Field)
    requires LinesDefined(lines)
    ensures UsageFrom(b, lines).mountPoint == b.mountPoint
    ensures UsageFrom(b, lines).subVolumes == b.subVolumes
    ensures LastSetter(lines, f) < 0 ==> Get(UsageFrom(b, lines), f) == Get(b, f)
    ensures LastSetter(lines, f) >= 0 ==>
      Get(UsageFrom(b, lines), f) ==
        Reading(KindOf(Heading(lines[LastSetter(lines, f)])), Split(lines[LastSetter(lines, f)], ":"), f)
    decreases |lines|
  {
    if lines != [] {
      var init := lines[..|lines| - 1];
      assert LinesDefined(init) by {
        forall j | 0 <= j < |init| ensures UsageLineDefined(init[j]) {
          assert init[j] == lines[j];
        }
      }
      UsageFromLastSetter(b, init, f);
      var last := lines[|lines| - 1];
      var k := KindOf(Heading(last));
      if f in KindFields(k) {
        ApplySetsOwnFigures(UsageFrom(b, init), k, Split(last, ":"), f);
      } else {
        ApplyKeepsOtherFigures(UsageFrom(b, init), k, Split(last, ":"), f);
      }
    }
  }

  /** An empty report leaves the zero record. */
  lemma UsageReportEmpty(mountPoint: string)
    ensures UsageReportDefined("")
    ensures UsageReport(mountPoint, "") == Blank(mountPoint)
  {
    assert Split("", "\n") == [""];
    assert Split("", ":") == [""];
    assert Trimmed("") == "";
    assert KindOf("") == OtherLine;
    assert UsageLineDefined("");
    assert [""][..0] == [];
    assert UsageFrom(Blank(mountPoint), [""]) == Apply(Blank(mountPoint), OtherLine, [""]);
  }

  // ---------------------------------------------------------------------
  // Subvolume list

  /** The space-separated columns of a `btrfs subvolume list` line:
      "ID <id> gen <gen> top level <parent> path <path>". */
  function Columns(line: string): seq<string> {
    Split(line, " ")
  }

  /** A non-empty line has the nine columns the parse reads. */
  predicate ListingDefined(lines: seq<string>) {
    forall j :: 0 <= j < |lines| && lines[j] != "" ==> |Columns(lines[j])| >= 9
  }

  /** The id-to-path map after the loop has seen `lines`: column 1 to
      column 8 for every non-empty line, a later line overwriting an
      earlier one with the same id. */
  function SubvolMap(lines: seq<string>): map<string, string>
    requires ListingDefined(lines)
  {
    if lines == [] then map[]
    else
      var m := SubvolMap(lines[..|lines| - 1]);
      var line := lines[|lines| - 1];
      if line == "" then m else m[Columns(line)[1] := Columns(line)[8]]
  }

  function SubvolumeMap(listing: string): map<string, string>
    requires ListingDefined(Split(listing, "\n"))
  {
    SubvolMap(Split(listing, "\n"))
  }

  /** The loop of reloadSubvolList. */
  method ParseSubvolumeList(listing: string) returns (subvols: map<string, string>)
    requires ListingDefined(Split(listing, "\n"))
    ensures subvols == SubvolumeMap(listing)
  {
    var lines := Split(listing, "\n");
    subvols := map[];
    var i := 0;
    while i < |lines|
      invariant 0 <= i <= |lines|
      invariant subvols == SubvolMap(lines[..i])
    {
      assert lines[..i + 1][..i] == lines[..i];
      var line := lines[i];
      if line != "" {
        subvols := subvols[Columns(line)[1] := Columns(line)[8]];
      }
      i := i + 1;
    }
    assert lines[..i] == lines;
  }

  /** The index of the last non-empty line whose id column is `id`, or -1. */
  function LastWithId(lines: seq<string>, id: string): (k: int)
    requires ListingDefined(lines)
    ensures -1 <= k < |lines|
    ensures k >= 0 ==> lines[k] != "" && Columns(lines[k])[1] == id
    ensures forall j :: k < j < |lines| && lines[j] != "" ==> Columns(lines[j])[1] != id
  {
    if lines == [] then -1
    else
      var line := lines[|lines| - 1];
      if line != "" && Columns(line)[1] == id then |lines| - 1
      else LastWithId(lines[..|lines| - 1], id)
  }

  /** An id is in the map exactly when some non-empty line carries it, and
      it maps to the path of the last such line. */
  lemma {:induction false} SubvolMapLookup(lines: seq<string>, id: string)
    requires ListingDefined(lines)
    ensures id in SubvolMap(lines) <==> LastWithId(lines, id) >= 0
    ensures id in SubvolMap(lines) ==> SubvolMap(lines)[id] == Columns(lines[LastWithId(lines, id)])[8]
    decreases |lines|
  {
    if lines != [] {
      var init := lines[..|lines| - 1];
      assert ListingDefined(init) by {
        forall j | 0 <= j < |init| && init[j] != "" ensures |Columns(init[j])| >= 9 {
          assert init[j] == lines[j];
        }
      }
      SubvolMapLookup(init, id);
    }
  }

  /** The line `btrfs subvolume list` prints for one subvolume. */
  function ListingLine(id: string, gen: string, parent: string, path: string): string {
    Join(["ID", id, "gen", gen, "top", "level", parent, "path", path], " ")
  }

  /** A listing line whose fields have no space in them parses to its id
      and path. */
  lemma ListingLineParses(id: string, gen: string, parent: string, path: string)
    requires !Contains(id, " ") && !Contains(gen, " ") && !Contains(parent, " ") && !Contains(path, " ")
    ensures ListingDefined([ListingLine(id, gen, parent, path)])
    ensures SubvolMap([ListingLine(id, gen, parent, path)]) == map[id := path]
  {
    var parts := ["ID", id, "gen", gen, "top", "level", parent, "path", path];
    forall j | 0 <= j < |parts| ensures !Contains(parts[j], " ") {
      if j == 0 || j == 2 || j == 4 || j == 5 || j == 7 {
        AbsentFirstChar(parts[j], " ");
      }
    }
    SplitJoin(parts, " ");
    var line := ListingLine(id, gen, parent, path);
    assert line != "" by {
      assert |Join(parts, " ")| >= 2;
    }
    assert [line][..0] == [];
  }

  // ---------------------------------------------------------------------
  // Children of a subvolume

  /** Columns of a "<parent id> <path>" line. */
  function ChildColumns(line: string): seq<string> {
    Split(line, " ")
  }

  /** The line belongs to a child of `id`. */
  predicate IsChildLine(id: string, line: string) {
    line != "" && Trimmed(ChildColumns(line)[0]) == id
  }

  /** A child line has the path column the parse reads. */
  predicate ChildrenDefined(id: string, lines: seq<string>) {
    forall j :: 0 <= j < |lines| && IsChildLine(id, lines[j]) ==> |ChildColumns(lines[j])| >= 2
  }

  /** The paths of the children listed in `lines`, in order. */
  function Children(id: string, lines: seq<string>): seq<string>
    requires ChildrenDefined(id, lines)
  {
    if lines == [] then []
    else
      var line := lines[|lines| - 1];
      Children(id, lines[..|lines| - 1]) +
        (if IsChildLine(id, line) then [Trimmed(ChildColumns(line)[1])] else [])
  }

  /** findBtrfsChildren on the output of the listing (parent id and path of
      every subvolume of "/", filtered by a text search for the id). */
  function ChildrenOf(id: string, output: string): seq<string>
    requires ChildrenDefined(id, Split(output, "\n"))
  {
    if output == "" then [] else Children(id, Split(output, "\n"))
  }

  method FindBtrfsChildren(subvolid: string, output: string) returns (subvols: seq<string>)
    requires ChildrenDefined(subvolid, Split(output, "\n"))
    ensures subvols == ChildrenOf(subvolid, output)
  {
    if output == "" {
      return [];
    }
    var lines := Split(output, "\n");
    subvols := [];
    var i := 0;
    while i < |lines|
      invariant 0 <= i <= |lines|
      invariant subvols == Children(subvolid, lines[..i])
    {
      assert lines[..i + 1][..i] == lines[..i];
      var entry := lines[i];
      if entry != "" && Trimmed(Split(entry, " ")[0]) == subvolid {
        subvols := subvols + [Trimmed(Split(entry, " ")[1])];
      }
      i := i + 1;
    }
    assert lines[..i] == lines;
  }

  /** Both parts of a well-formed listing are well-formed. */
  lemma ChildrenDefinedParts(id: string, a: seq<string>, b: seq<string>)
    requires ChildrenDefined(id, a + b)
    ensures ChildrenDefined(id, a) && ChildrenDefined(id, b)
  {
    forall j | 0 <= j < |a| ensures a[j] == (a + b)[j] {}
    forall j | 0 <= j < |b| ensures b[j] == (a + b)[|a| + j] {}
  }

  /** The children of two consecutive stretches of output are the children
      of the first followed by those of the second. */
  lemma {:induction false} ChildrenAppend(id: string, a: seq<string>, b: seq<string>)
    requires ChildrenDefined(id, a + b)
    ensures ChildrenDefined(id, a) && ChildrenDefined(id, b)
    ensures Children(id, a + b) == Children(id, a) + Children(id, b)
    decreases |b|
  {
    ChildrenDefinedParts(id, a, b);
    if b != [] {
      var init := b[..|b| - 1];
      assert (a + b)[..|a + b| - 1] == a + init;
      assert (a + b)[|a + b| - 1] == b[|b| - 1];
      ChildrenDefinedParts(id, a + init, [b[|b| - 1]]);
      ChildrenAppend(id, a, init);
    } else {
      assert a + b == a;
    }
  }

  /** Every listed child is the path column of a line whose parent column
      is `id`, and every such line contributes its path. */
  lemma {:induction false} ChildrenMembers(id: string, lines: seq<string>)
    requires ChildrenDefined(id, lines)
    ensures forall x :: x in Children(id, lines) ==>
      exists j :: 0 <= j < |lines| && IsChildLine(id, lines[j]) && Trimmed(ChildColumns(lines[j])[1]) == x
    ensures forall j :: 0 <= j < |lines| && IsChildLine(id, lines[j]) ==>
      Trimmed(ChildColumns(lines[j])[1]) in Children(id, lines)
    decreases |lines|
  {
    if lines != [] {
      var init := lines[..|lines| - 1];
      var last := |lines| - 1;
      assert forall j :: 0 <= j < |init| ==> init[j] == lines[j];
      ChildrenMembers(id, init);
      forall x | x in Children(id, lines)
        ensures exists j :: 0 <= j < |lines| && IsChildLine(id, lines[j]) && Trimmed(ChildColumns(lines[j])[1]) == x
      {
        if x in Children(id, init) {
          var j :| 0 <= j < |init| && IsChildLine(id, init[j]) && Trimmed(ChildColumns(init[j])[1]) == x;
          assert lines[j] == init[j];
        } else {
          assert IsChildLine(id, lines[last]) && Trimmed(ChildColumns(lines[last])[1]) == x;
        }
      }
    }
  }

  // ---------------------------------------------------------------------
  // The file-system map

  /** The query outputs loadBTRFS reads are defined for every file system
      it records. */
  predicate InventoryDefined(probe: Probe, uuids: seq<string>) {
    forall j :: 0 <= j < |uuids| && Out(probe.mountpointOf, uuids[j]) != "" ==>
      UsageReportDefined(Out(probe.usageOf, Out(probe.mountpointOf, uuids[j])))
  }

  /** The file-system map after loadBTRFS's loop has seen `uuids`: a record
      for each uuid with a mount point, built from that mount point's usage
      report; a uuid listed twice keeps its last record. */
  function FsMapFrom(probe: Probe, uuids: seq<string>): map<string, Btrfs>
    requires InventoryDefined(probe, uuids)
  {
    if uuids == [] then map[]
    else
      var m := FsMapFrom(probe, uuids[..|uuids| - 1]);
      var uuid := uuids[|uuids| - 1];
      var mountpoint := Out(probe.mountpointOf, uuid);
      if mountpoint == "" then m
      else m[uuid := UsageReport(mountpoint, Out(probe.usageOf, mountpoint))]
  }

  /** A file system is recorded exactly when it is listed and has a mount
      point; its record carries that mount point and no subvolumes yet. */
  lemma {:induction false} FsMapFromEntries(probe: Probe, uuids: seq<string>, uuid: string)
    requires InventoryDefined(probe, uuids)
    ensures uuid in FsMapFrom(probe, uuids) <==> uuid in uuids && Out(probe.mountpointOf, uuid) != ""
    ensures uuid in FsMapFrom(probe, uuids) ==>
      FsMapFrom(probe, uuids)[uuid] == UsageReport(Out(probe.mountpointOf, uuid), Out(probe.usageOf, Out(probe.mountpointOf, uuid)))
    ensures uuid in FsMapFrom(probe, uuids) ==>
      FsMapFrom(probe, uuids)[uuid].mountPoint == Out(probe.mountpointOf, uuid) &&
      FsMapFrom(probe, uuids)[uuid].subVolumes == map[]
    decreases |uuids|
  {
    if uuids != [] {
      var init, last := uuids[..|uuids| - 1], uuids[|uuids| - 1];
      assert uuids == init + [last];
      assert (uuid in uuids) == (uuid in init || uuid == last);
      assert InventoryDefined(probe, init) by {
        forall j | 0 <= j < |init| ensures init[j] == uuids[j] {}
      }
      FsMapFromEntries(probe, init, uuid);
    }
    var mountpoint := Out(probe.mountpointOf, uuid);
    if uuid in FsMapFrom(probe, uuids) {
      UsageReportBlank(mountpoint, Out(probe.usageOf, mountpoint));
    }
  }

  /** A usage record keeps the mount point it starts from and has no
      subvolumes. */
  lemma UsageReportBlank(mountPoint: string, report: string)
    requires UsageReportDefined(report)
    ensures UsageReport(mountPoint, report).mountPoint == mountPoint
    ensures UsageReport(mountPoint, report).subVolumes == map[]
  {
    UsageFromLastSetter(Blank(mountPoint), Split(report, "\n"), TotalSize);
  }

  /** The entries of the device combo box: the listed uuids that have a
      mount point, in order. */
  function DeviceItems(probe: Probe, uuids: seq<string>): (items: seq<string>)
    ensures forall j :: 0 <= j < |items| ==> items[j] in uuids && Out(probe.mountpointOf, items[j]) != ""
    ensures |items| <= |uuids|
  {
    if uuids == [] then []
    else
      var init := DeviceItems(probe, uuids[..|uuids| - 1]);
      var uuid := uuids[|uuids| - 1];
      init + (if Out(probe.mountpointOf, uuid) != "" then [uuid] else [])
  }

  /** Every listed uuid with a mount point is offered, and every uuid
      offered is recorded in the file-system map. */
  lemma {:induction false} DeviceItemsAreRecorded(probe: Probe, uuids: seq<string>, uuid: string)
    requires InventoryDefined(probe, uuids)
    ensures uuid in DeviceItems(probe, uuids) <==> uuid in uuids && Out(probe.mountpointOf, uuid) != ""
    ensures uuid in DeviceItems(probe, uuids) <==> uuid in FsMapFrom(probe, uuids)
    decreases |uuids|
  {
    FsMapFromEntries(probe, uuids, uuid);
    if uuids != [] {
      var init := uuids[..|uuids| - 1];
      assert uuids == init + [uuids[|uuids| - 1]];
      assert InventoryDefined(probe, init) by {
        forall j | 0 <= j < |init| ensures init[j] == uuids[j] {}
      }
      DeviceItemsAreRecorded(probe, init, uuid);
      FsMapFromEntries(probe, init, uuid);
    }
  }

  /** The selected file system: the combo box's first entry, "" when it is
      empty. */
  function FirstMounted(probe: Probe, uuids: seq<string>): (u: string)
    ensures u != "" ==> u in uuids && Out(probe.mountpointOf, u) != ""
  {
    var items := DeviceItems(probe, uuids);
    if items == [] then "" else items[0]
  }

  /** One more turn of loadBTRFS's loop: the uuid at `i` is added to the
      map and to the offered items exactly when it has a mount point. */
  lemma InventoryStep(probe: Probe, uuids: seq<string>, i: int)
    requires InventoryDefined(probe, uuids) && 0 <= i < |uuids|
    ensures InventoryDefined(probe, uuids[..i]) && InventoryDefined(probe, uuids[..i + 1])
    ensures var mountpoint := Out(probe.mountpointOf, uuids[i]);
      (mountpoint != "" ==> UsageReportDefined(Out(probe.usageOf, mountpoint))) &&
      FsMapFrom(probe, uuids[..i + 1]) ==
        (if mountpoint == "" then FsMapFrom(probe, uuids[..i])
         else FsMapFrom(probe, uuids[..i])[uuids[i] := UsageReport(mountpoint, Out(probe.usageOf, mountpoint))]) &&
      DeviceItems(probe, uuids[..i + 1]) ==
        DeviceItems(probe, uuids[..i]) + (if mountpoint != "" then [uuids[i]] else [])
  {
    assert uuids[..i + 1][..i] == uuids[..i];
    assert uuids[..i + 1][i] == uuids[i];
  }
}
