/** What `findmnt -no uuid,options /` says about the root file system: its
    uuid, then its comma-separated mount options, one of which may name the
    mounted subvolume as `subvol=<path>`. The same parse serves three
    callers: finding the subvolume mounted as "/", detecting a boot into a
    snapshot, and locating the root snapshots when booted into one. */
module MountOptions {

  import opened Options
  import opened QtText
  import opened Classify

  const SubvolKey: string := "subvol="

  datatype RootMount = RootMount(uuid: string, options: string)

  /** The uuid is the first space-separated field; the options are what
      follows it. Empty output, an empty uuid or empty options give None. */
  function ParseRootMount(output: string): (r: Option<RootMount>)
    ensures output == "" ==> r.None?
    ensures r.Some? ==> r.value.uuid != "" && r.value.options != ""
  {
    if output == "" then None
    else
      var uuid := Trimmed(Split(output, " ")[0]);
      var options := Trimmed(Right(output, |output| - |uuid|));
      if options == "" || uuid == "" then None else Some(RootMount(uuid, options))
  }

  /** A line made of a uuid, one space and the options parses back into
      them, provided the uuid has no space and neither part has white space
      at its ends. */
  lemma ParseRootMountFormatted(uuid: string, options: string)
    requires uuid != "" && !Contains(uuid, " ")
    requires !IsSpace(uuid[0]) && !IsSpace(uuid[|uuid| - 1])
    requires options != "" && !IsSpace(options[0]) && !IsSpace(options[|options| - 1])
    ensures ParseRootMount(uuid + " " + options) == Some(RootMount(uuid, options))
  {
    var output := uuid + " " + options;
    FirstOccurrenceAfterPart(uuid, " ", options);
    SplitHead(output, " ");
    assert output[..|uuid|] == uuid;
    TrimmedNoop(uuid);
    assert Right(output, |output| - |uuid|) == " " + options + "";
    TrimmedPadded(" ", options, "");
  }

  /** `option.split("subvol=").at(1)` for an option that starts with the
      key: the text after the key, up to a further "subvol=" if any. */
  function OptionValue(option: string): (v: string)
    requires StartsWith(option, SubvolKey)
    ensures v == Split(option[|SubvolKey|..], SubvolKey)[0]
  {
    SplitLeading(option, SubvolKey);
    Split(option, SubvolKey)[1]
  }

  /** The value of `subvol=<v>` is `v`. */
  lemma OptionValueOf(v: string)
    requires !Contains(v, SubvolKey)
    ensures OptionValue(SubvolKey + v) == v
  {
    assert (SubvolKey + v)[|SubvolKey|..] == v;
    SplitHead(v, SubvolKey);
  }

  /** The subvolume named by a list of options: every `subvol=` option
      overwrites the one before, so the last one counts; "" when there is
      none. */
  function LastSubvol(options: seq<string>): string {
    if options == [] then ""
    else if StartsWith(options[|options| - 1], SubvolKey) then OptionValue(options[|options| - 1])
    else LastSubvol(options[..|options| - 1])
  }

  /** LastSubvol is the value of the last `subvol=` option, and "" without
      one. */
  lemma {:induction false} LastSubvolIsLast(options: seq<string>)
    ensures (forall j :: 0 <= j < |options| ==> !StartsWith(options[j], SubvolKey)) ==>
      LastSubvol(options) == ""
    ensures forall j ::
      (0 <= j < |options| && StartsWith(options[j], SubvolKey) &&
       forall k :: j < k < |options| ==> !StartsWith(options[k], SubvolKey))
      ==> LastSubvol(options) == OptionValue(options[j])
    decreases |options|
  {
    if options != [] {
      var init := options[..|options| - 1];
      LastSubvolIsLast(init);
      assert forall j :: 0 <= j < |init| ==> init[j] == options[j];
    }
  }

  /** The loop over the comma-separated options. */
  method SubvolOption(options: string) returns (subvol: string)
    ensures subvol == LastSubvol(Split(options, ","))
  {
    var list := Split(options, ",");
    subvol := "";
    var i := 0;
    while i < |list|
      invariant 0 <= i <= |list|
      invariant subvol == LastSubvol(list[..i])
    {
      assert list[..i + 1][..i] == list[..i];
      if StartsWith(list[i], SubvolKey) {
        SplitLeading(list[i], SubvolKey);
        subvol := Split(list[i], SubvolKey)[1];
      }
      i := i + 1;
    }
    assert list[..i] == list;
  }

  /** findRootSubvol: the subvolume mounted as "/", without a leading
      slash, or "" when the output says nothing about one. */
  function RootSubvol(output: string): (r: string)
    ensures ParseRootMount(output).None? ==> r == ""
    ensures ParseRootMount(output).Some? ==>
      r == StripLeadingSlash(LastSubvol(Split(ParseRootMount(output).value.options, ",")))
  {
    match ParseRootMount(output)
    case None => ""
    case Some(m) => StripLeadingSlash(LastSubvol(Split(m.options, ",")))
  }

  method FindRootSubvol(output: string) returns (subvol: string)
    ensures subvol == RootSubvol(output)
  {
    if output == "" {
      return "";
    }
    var uuid := Trimmed(Split(output, " ")[0]);
    var options := Trimmed(Right(output, |output| - |uuid|));
    if options == "" || uuid == "" {
      return "";
    }
    subvol := SubvolOption(options);
    if StartsWith(subvol, "/") {
      subvol := Right(subvol, |subvol| - 1);
    }
  }

  /** For a findmnt line whose options are `options` joined by commas, the
      root subvolume is the last `subvol=` value with one leading slash
      removed. */
  lemma RootSubvolFormatted(uuid: string, options: seq<string>)
    requires uuid != "" && !Contains(uuid, " ")
    requires !IsSpace(uuid[0]) && !IsSpace(uuid[|uuid| - 1])
    requires |options| >= 1 && forall j :: 0 <= j < |options| ==> !Contains(options[j], ",")
    requires var text := Join(options, ",");
      text != "" && !IsSpace(text[0]) && !IsSpace(text[|text| - 1])
    ensures RootSubvol(uuid + " " + Join(options, ",")) == StripLeadingSlash(LastSubvol(options))
  {
    ParseRootMountFormatted(uuid, Join(options, ","));
    SplitJoin(options, ",");
  }

  datatype BootSnapshot = BootSnapshot(uuid: string, subvol: string)

  /** The snapshot-boot test: "/" is mounted from a subvolume whose
      `subvol=` value (leading slash kept) is non-empty and contains
      ".snapshots". */
  function SnapshotBoot(output: string): (r: Option<BootSnapshot>)
    ensures r.Some? ==> r.value.uuid != "" && Contains(r.value.subvol, SnapshotsDir)
    ensures r.Some? ==> StripLeadingSlash(r.value.subvol) == RootSubvol(output)
    ensures ParseRootMount(output).None? ==> r.None?
  {
    match ParseRootMount(output)
    case None => None
    case Some(m) =>
      var subvol := LastSubvol(Split(m.options, ","));
      if subvol == "" || !Contains(subvol, SnapshotsDir) then None
      else Some(BootSnapshot(m.uuid, subvol))
  }

  /** The parse handleSnapshotBoot and the snapshot-boot branch of
      loadSnapper run on `findmnt -no uuid,options /`. */
  method ReadSnapshotBoot(output: string) returns (boot: Option<BootSnapshot>)
    ensures boot == SnapshotBoot(output)
  {
    if output == "" {
      return None;
    }
    var uuid := Trimmed(Split(output, " ")[0]);
    var options := Trimmed(Right(output, |output| - |uuid|));
    if options == "" || uuid == "" {
      return None;
    }
    var subvol := SubvolOption(options);
    if subvol == "" || !Contains(subvol, SnapshotsDir) {
      return None;
    }
    return Some(BootSnapshot(uuid, subvol));
  }

  /** Booted into a snapshot exactly when the root subvolume lies inside a
      ".snapshots" directory, as long as the stripped slash is not what
      separates the two. */
  lemma SnapshotBootIffSnapshotRoot(output: string)
    requires ParseRootMount(output).Some?
    ensures SnapshotBoot(output).Some? <==> Contains(RootSubvol(output), SnapshotsDir)
  {
    var subvol := LastSubvol(Split(ParseRootMount(output).value.options, ","));
    if StartsWith(subvol, "/") {
      assert subvol == ['/'] + StripLeadingSlash(subvol);
      ContainsAfterChar('/', StripLeadingSlash(subvol), SnapshotsDir);
    }
    if subvol == "" {
      assert !Contains(subvol, SnapshotsDir);
    }
  }
}
