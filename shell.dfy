/** The list form of the command runner: several commands are run as one
    shell command line, joined with "; ". Commands before the first
    non-empty one are dropped, because the line being built is still empty
    when they are met; empty commands after it are kept. */
module Shell {

  import opened QtText

  const Separator: string := "; "

  /** The number of empty commands before the first non-empty one. */
  function LeadingEmpty(cmds: seq<string>): (k: nat)
    ensures k <= |cmds|
    ensures forall j :: 0 <= j < k ==> cmds[j] == ""
    ensures k < |cmds| ==> cmds[k] != ""
  {
    if cmds != [] && cmds[0] == "" then 1 + LeadingEmpty(cmds[1..]) else 0
  }

  /** `cmds` without its leading empty commands. */
  function DropLeadingEmpty(cmds: seq<string>): seq<string> {
    cmds[LeadingEmpty(cmds)..]
  }

  /** The command line the runner builds. */
  function CommandLine(cmds: seq<string>): string {
    Join(DropLeadingEmpty(cmds), Separator)
  }

  lemma {:induction false} JoinSnoc(parts: seq<string>, c: string, sep: string)
    requires parts != []
    ensures Join(parts + [c], sep) == Join(parts, sep) + sep + c
    decreases |parts|
  {
    if |parts| == 1 {
      assert (parts + [c])[1..] == [c];
    } else {
      assert (parts + [c])[1..] == parts[1..] + [c];
      JoinSnoc(parts[1..], c, sep);
    }
  }

  /** A joined list whose first part is not empty is not empty. */
  lemma JoinNonEmpty(parts: seq<string>, sep: string)
    requires parts != [] && parts[0] != ""
    ensures Join(parts, sep) != ""
  {
    assert |Join(parts, sep)| >= |parts[0]|;
  }

  /** One more command extends the command line as the runner's loop does. */
  lemma {:induction false} CommandLineSnoc(cmds: seq<string>, c: string)
    ensures CommandLine(cmds + [c]) ==
      if CommandLine(cmds) == "" then c else CommandLine(cmds) + Separator + c
    decreases |cmds|
  {
    if cmds == [] {
      assert [] + [c] == [c];
    } else if cmds[0] == "" {
      assert (cmds + [c])[1..] == cmds[1..] + [c];
      CommandLineSnoc(cmds[1..], c);
    } else {
      JoinSnoc(cmds, c, Separator);
      JoinNonEmpty(cmds, Separator);
    }
  }

  /** runCmd(QStringList): build the command line one command at a time. */
  method JoinCommands(cmds: seq<string>) returns (full: string)
    ensures full == CommandLine(cmds)
  {
    full := "";
    var i := 0;
    while i < |cmds|
      invariant 0 <= i <= |cmds|
      invariant full == CommandLine(cmds[..i])
    {
      CommandLineSnoc(cmds[..i], cmds[i]);
      assert cmds[..i + 1] == cmds[..i] + [cmds[i]];
      if full == "" {
        full := cmds[i];
      } else {
        full := full + Separator + cmds[i];
      }
      i := i + 1;
    }
    assert cmds[..i] == cmds;
  }

  /** The command line is empty exactly when every command is. */
  lemma CommandLineEmpty(cmds: seq<string>)
    ensures CommandLine(cmds) == "" <==> forall j :: 0 <= j < |cmds| ==> cmds[j] == ""
  {
    var k := LeadingEmpty(cmds);
    if k < |cmds| {
      JoinNonEmpty(cmds[k..], Separator);
    }
  }

  /** The shell splits the line back at "; " into the commands that were
      joined, provided no command contains "; " itself. */
  lemma CommandLineSplits(cmds: seq<string>)
    requires forall j :: 0 <= j < |cmds| ==> !Contains(cmds[j], Separator)
    requires exists j :: 0 <= j < |cmds| && cmds[j] != ""
    ensures Split(CommandLine(cmds), Separator) == DropLeadingEmpty(cmds)
  {
    var k := LeadingEmpty(cmds);
    var r := cmds[k..];
    assert r != [] by {
      var j :| 0 <= j < |cmds| && cmds[j] != "";
      assert k <= j;
    }
    assert forall j :: 0 <= j < |r| ==> !Contains(r[j], Separator) by {
      forall j | 0 <= j < |r| ensures !Contains(r[j], Separator) {
        assert r[j] == cmds[k + j];
      }
    }
    SplitJoin(r, Separator);
  }
}
