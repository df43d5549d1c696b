/** The world outside the program. Query commands (findmnt, btrfs
    subvolume list, snapper list, cat, ...) are represented by their text
    output, fixed for the duration of one operation; the commands that change
    the disk (mv, btrfs subvolume snapshot, mkdir, mount) are issued to a
    `Host`, which logs them and lets an oracle decide what they do to the set
    of paths that exist. */
module Environment {

  /** The commands that change the disk. */
  datatype Command =
    | Move(src: string, dst: string)               // mv src dst
    | Snapshot(src: string, dst: string)           // btrfs subvolume snapshot src dst
    | MakeDir(path: string)                        // mkdir path
    | MountTopLevel(uuid: string, target: string)  // mount -t btrfs -o subvolid=5 UUID=uuid target

  /** How a command changes the set of existing paths. */
  type Effect = (Command, set<string>) -> set<string>

  /** The output a query gave for `key`; a command with nothing to say
      prints nothing. */
  function Out(outputs: map<string, string>, key: string): string {
    if key in outputs then outputs[key] else ""
  }

  /** The text output of every query command, as the command runner returns
      it (trimmed), keyed by the argument the command line is built from. */
  datatype Probe = Probe(
    filesystems: string,                  // btrfs filesystem show -m | grep uuid | awk ...: one uuid per line
    mountpointOf: map<string, string>,    // findmnt --real -rno target,uuid | grep <uuid> | head -n 1 | awk '{print $1}'
    usageOf: map<string, string>,         // btrfs fi usage -b <mountpoint>
    subvolumeListOf: map<string, string>, // btrfs subvolume list <path>
    rootMount: string,                    // findmnt -no uuid,options /
    rootOptions: string,                  // findmnt -no options /
    topLevelMounts: string,               // findmnt -nO subvolid=5 -o uuid,target | head -n 1
    childrenOf: map<string, string>,      // btrfs subvolume list / | awk '{print $7, $9}' | grep <subvolid>
    realMountOf: map<string, string>,     // findmnt --real -nlo UUID,TARGET | grep <uuid> | head -n 1
    configList: string,                   // snapper list-configs | tail -n +3
    snapshotListOf: map<string, string>,  // snapper -c <name> list --columns number,date,description | tail -n +4
    infoFilesUnder: map<string, string>,  // find <dir> -maxdepth 2 -name info.xml
    fileText: map<string, string>         // cat <file>
  )

  /** The paths after running `cmds` in order. */
  function RunAll(effect: Effect, paths: set<string>, cmds: seq<Command>): set<string>
    decreases |cmds|
  {
    if cmds == [] then paths else RunAll(effect, effect(cmds[0], paths), cmds[1..])
  }

  /** Running one command is applying its effect. */
  lemma RunAllOne(effect: Effect, paths: set<string>, c: Command)
    ensures RunAll(effect, paths, [c]) == effect(c, paths)
  {
    assert [c][1..] == [];
    assert RunAll(effect, effect(c, paths), []) == effect(c, paths);
  }

  /** Running two command lists one after the other is running their
      concatenation. */
  lemma {:induction false} RunAllAppend(effect: Effect, paths: set<string>, a: seq<Command>, b: seq<Command>)
    ensures RunAll(effect, paths, a + b) == RunAll(effect, RunAll(effect, paths, a), b)
    decreases |a|
  {
    if a == [] {
      assert a + b == b;
    } else {
      assert (a + b)[1..] == a[1..] + b;
      RunAllAppend(effect, effect(a[0], paths), a[1..], b);
    }
  }

  /** Running one more command after a list. */
  lemma RunAllSnoc(effect: Effect, paths: set<string>, cmds: seq<Command>, c: Command)
    ensures RunAll(effect, paths, cmds + [c]) == effect(c, RunAll(effect, paths, cmds))
  {
    RunAllAppend(effect, paths, cmds, [c]);
    RunAllOne(effect, RunAll(effect, paths, cmds), c);
  }

  /** The machine the program runs on: which paths exist (what QDir::exists
      reports) and the commands issued so far. */
  class Host {
    var paths: set<string>
    var log: seq<Command>
    const effect: Effect

    constructor (paths0: set<string>, effect0: Effect)
      ensures paths == paths0 && log == [] && effect == effect0
    {
      paths := paths0;
      log := [];
      effect := effect0;
    }

    /** Issue one command; its exit status is never looked at. */
    method Run(c: Command)
      modifies this
      ensures paths == effect(c, old(paths))
      ensures log == old(log) + [c]
    {
      paths := effect(c, paths);
      log := log + [c];
    }

    /** QDir::exists. */
    predicate Exists(p: string)
      reads this
    {
      p in paths
    }
  }
}
