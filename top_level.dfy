/** mountRoot: the top level (subvolid 5) of a btrfs file system must be
    mounted somewhere before subvolumes can be renamed or snapshotted.
    `findmnt -nO subvolid=5 -o uuid,target` lists such mounts as
    "<uuid> <target>" lines; a mount for the uuid is reused, otherwise a
    fresh directory under /tmp is created and the top level mounted there. */
module TopLevel {

  import opened QtText
  import opened Environment
  import opened Seqs

  /** Columns of a "<uuid> <target>" line. */
  function MountColumns(line: string): seq<string> {
    Split(line, " ")
  }

  /** The line describes a top-level mount of `uuid`. */
  predicate IsMountOf(uuid: string, line: string) {
    Trimmed(MountColumns(line)[0]) == uuid
  }

  /** A line for the uuid has the target column the loop reads. */
  predicate MountsDefined(uuid: string, lines: seq<string>) {
    forall j :: 0 <= j < |lines| && IsMountOf(uuid, lines[j]) ==> |MountColumns(lines[j])| >= 2
  }

  function MountTarget(line: string): string
    requires |MountColumns(line)| >= 2
  {
    Trimmed(MountColumns(line)[1])
  }

  /** The mount point the search loop ends with after `lines`: every line for
      the uuid overwrites the one before; "" when there is none. */
  function FoundMount(uuid: string, lines: seq<string>): string
    requires MountsDefined(uuid, lines)
  {
    if lines == [] then ""
    else if IsMountOf(uuid, lines[|lines| - 1]) then MountTarget(lines[|lines| - 1])
    else FoundMount(uuid, lines[..|lines| - 1])
  }

  /** The search ends with "" when no line is for the uuid. */
  lemma {:induction false} FoundMountNone(uuid: string, lines: seq<string>)
    requires MountsDefined(uuid, lines)
    requires forall j :: 0 <= j < |lines| ==> !IsMountOf(uuid, lines[j])
    ensures FoundMount(uuid, lines) == ""
    decreases |lines|
  {
    if lines != [] {
      var init := lines[..|lines| - 1];
      assert !IsMountOf(uuid, lines[|lines| - 1]);
      assert forall j :: 0 <= j < |init| ==> init[j] == lines[j];
      FoundMountNone(uuid, init);
    }
  }

  /** The search ends with the target of the last line for the uuid. */
  lemma {:induction false} FoundMountIsLast(uuid: string, lines: seq<string>, j: int)
    requires MountsDefined(uuid, lines)
    requires 0 <= j < |lines| && IsMountOf(uuid, lines[j])
    requires forall k :: j < k < |lines| ==> !IsMountOf(uuid, lines[k])
    ensures FoundMount(uuid, lines) == MountTarget(lines[j])
    decreases |lines|
  {
    if j < |lines| - 1 {
      var init := lines[..|lines| - 1];
      assert !IsMountOf(uuid, lines[|lines| - 1]);
      assert forall k :: 0 <= k < |init| ==> init[k] == lines[k];
      FoundMountIsLast(uuid, init, j);
    }
  }

  /** The search loop of mountRoot. */
  method FindTopLevelMount(uuid: string, output: string) returns (mountpoint: string)
    requires MountsDefined(uuid, Split(output, "\n"))
    ensures mountpoint == FoundMount(uuid, Split(output, "\n"))
  {
    var lines := Split(output, "\n");
    mountpoint := "";
    var i := 0;
    while i < |lines|
      invariant 0 <= i <= |lines|
      invariant mountpoint == FoundMount(uuid, lines[..i])
    {
      assert lines[..i + 1][..i] == lines[..i];
      if Trimmed(Split(lines[i], " ")[0]) == uuid {
        mountpoint := Trimmed(Split(lines[i], " ")[1]);
      }
      i := i + 1;
    }
    assert lines[..i] == lines;
  }

  /** Where the top level ends up, and the commands issued to get it there. */
  datatype Mounting = Mounting(mountpoint: string, cmds: seq<Command>)

  /** The directory a fresh mount goes to; `tmpName` stands for the
      generated QUuid text. */
  function TmpMount(tmpName: string): string {
    "/tmp/" + tmpName
  }

  /** mountRoot's decision: reuse the mount found, or mkdir and mount the
      top level on a fresh directory (neither result is checked). */
  function MountPlan(uuid: string, output: string, tmpName: string): Mounting
    requires MountsDefined(uuid, Split(output, "\n"))
  {
    var found := FoundMount(uuid, Split(output, "\n"));
    if found != "" then Mounting(found, [])
    else Mounting(TmpMount(tmpName), [MakeDir(TmpMount(tmpName)), MountTopLevel(uuid, TmpMount(tmpName))])
  }

  /** The mount point is never empty. It is either an existing top-level
      mount of this uuid, taken as it is and with no command issued, or the
      fresh directory, which is first created and then has exactly this
      uuid's top level mounted on it. */
  lemma MountPlanCases(uuid: string, output: string, tmpName: string)
    requires MountsDefined(uuid, Split(output, "\n"))
    ensures var m := MountPlan(uuid, output, tmpName);
      m.mountpoint != "" &&
      (m.cmds == [] ==>
        exists j :: 0 <= j < |Split(output, "\n")| && IsMountOf(uuid, Split(output, "\n")[j]) &&
          MountTarget(Split(output, "\n")[j]) == m.mountpoint) &&
      (m.cmds != [] ==>
        m.mountpoint == TmpMount(tmpName) &&
        m.cmds == [MakeDir(m.mountpoint), MountTopLevel(uuid, m.mountpoint)])
  {
    var lines := Split(output, "\n");
    var j := LastWhere((line: string) => IsMountOf(uuid, line), lines);
    if j >= 0 {
      FoundMountIsLast(uuid, lines, j);
    } else {
      FoundMountNone(uuid, lines);
    }
  }

  /** With no top-level mount of the uuid listed, the fresh directory is
      used whatever the other lines say. */
  lemma UnmountedGetsFreshDir(uuid: string, output: string, tmpName: string)
    requires MountsDefined(uuid, Split(output, "\n"))
    requires forall j :: 0 <= j < |Split(output, "\n")| ==> !IsMountOf(uuid, Split(output, "\n")[j])
    ensures MountPlan(uuid, output, tmpName).mountpoint == TmpMount(tmpName)
    ensures |MountPlan(uuid, output, tmpName).cmds| == 2
  {
    FoundMountNone(uuid, Split(output, "\n"));
  }

  /** Add a '/' unless the path already ends with one. */
  function WithTrailingSlash(path: string): (r: string)
    ensures EndsWith(r, "/") && StartsWith(r, path) && |r| <= |path| + 1
    ensures EndsWith(path, "/") ==> r == path
  {
    if Right(path, 1) != "/" then path + "/" else path
  }
}
