/** restoreSnapshot as a specification: the checks that come before any
    command, the naming of the target and of the backup, and the command
    sequence (rename the target away, snapshot the source in its place,
    move the nested subvolumes back in), each step followed by the existence
    check the program makes. What the commands do to the disk is left to the
    `Effect` oracle, so every outcome the checks allow is covered. */
module Restore {

  import opened QtText
  import opened Seqs
  import opened QtNumbers
  import opened QtMap
  import opened Environment
  import opened Classify
  import opened MountOptions
  import opened Inventory
  import opened TopLevel

  /** How a restore ends; each names the message the program shows. */
  datatype Outcome =
    | TimeshiftSnapshot          // a Timeshift snapshot: use Timeshift instead
    | NotRestorable              // not a snapper snapshot
    | SnapshotNotFound           // no subvolume id for the snapshot
    | TargetNotFound             // no subvolume id for the target
    | Declined                   // the confirmation was not answered "Yes"
    | BackupFailed               // the target could not be renamed to the backup
    | RolledBack                 // the snapshot did not appear; the backup was renamed back
    | MigrationFailed(child: string)  // a nested subvolume did not arrive
    | Restored(backup: string)   // done; the original is kept as `backup`

  /** The outcomes reached before any command is issued. */
  predicate BeforeCommands(o: Outcome) {
    o.TimeshiftSnapshot? || o.NotRestorable? || o.SnapshotNotFound? || o.TargetNotFound? || o.Declined?
  }

  /** An outcome and the commands issued on the way to it. */
  datatype Run = Run(outcome: Outcome, cmds: seq<Command>)

  // ---------------------------------------------------------------------
  // Validation

  /** The subvolume a snapshot restores: the part of its path before the
      first ".snapshots" without its last character (the '/'), or, for the
      snapshots of the subvolume mounted as "/" (nothing before
      ".snapshots"), that subvolume. */
  function RestoreTarget(source: string, rootSubvol: string): string {
    var prefix := Split(source, SnapshotsDir)[0];
    if prefix == "" then rootSubvol else Left(prefix, |prefix| - 1)
  }

  /** The result of the checks: stop with an outcome, or go on with the
      stripped source path, the target and the target's id. */
  datatype Check = Stop(outcome: Outcome) | Go(source: string, target: string, targetId: string)

  /** The checks, in the program's order, on the file system's id-to-path
      map and the root mount line. */
  function Validate(subvolumes: map<string, string>, rootMount: string, subvolume: string): (c: Check)
    ensures c.Stop? ==> BeforeCommands(c.outcome) && !c.outcome.Declined?
  {
    var source := StripLeadingSlash(subvolume);
    if IsTimeshift(source) then Stop(TimeshiftSnapshot)
    else if !IsSnapper(source) then Stop(NotRestorable)
    else if Key(subvolumes, source) == "" then Stop(SnapshotNotFound)
    else
      var target := RestoreTarget(source, RootSubvol(rootMount));
      var targetId := Key(subvolumes, target);
      if targetId == "" then Stop(TargetNotFound) else Go(source, target, targetId)
  }

  /** The classification is decided on the path as given, leading slash or
      not; a Timeshift path is refused before it is tested for snapper, and
      (ids being non-empty) a snapper path is refused as not found exactly
      when no id maps to it. */
  lemma ValidateRefusals(subvolumes: map<string, string>, rootMount: string, subvolume: string)
    ensures Validate(subvolumes, rootMount, subvolume) == Stop(TimeshiftSnapshot) <==> IsTimeshift(subvolume)
    ensures Validate(subvolumes, rootMount, subvolume) == Stop(NotRestorable) <==>
      !IsTimeshift(subvolume) && !IsSnapper(subvolume)
    ensures "" !in subvolumes ==>
      (Validate(subvolumes, rootMount, subvolume) == Stop(SnapshotNotFound) <==>
        !IsTimeshift(subvolume) && IsSnapper(subvolume) &&
        forall x :: x in subvolumes ==> subvolumes[x] != StripLeadingSlash(subvolume))
  {
    StripKeepsClass(subvolume);
    KeyFound(subvolumes, StripLeadingSlash(subvolume));
  }

  /** A restore that passes the checks has a snapper source that some id
      maps to, and its target id is the least id mapping to the target. */
  lemma ValidateGo(subvolumes: map<string, string>, rootMount: string, subvolume: string)
    requires Validate(subvolumes, rootMount, subvolume).Go?
    ensures var g := Validate(subvolumes, rootMount, subvolume);
      g.source == StripLeadingSlash(subvolume) && IsSnapper(g.source) && !IsTimeshift(g.source) &&
      (exists x :: x in subvolumes && subvolumes[x] == g.source) &&
      g.target == RestoreTarget(g.source, RootSubvol(rootMount)) &&
      IsLeastKey(subvolumes, g.target, g.targetId)
  {
    var source := StripLeadingSlash(subvolume);
    KeyFound(subvolumes, source);
    var target := RestoreTarget(source, RootSubvol(rootMount));
    KeyFound(subvolumes, target);
  }

  /** ".snapshots" cannot run on into a '/' appended to a path. */
  lemma NoSnapshotsBeforeSlash(t: string)
    requires !Contains(t, SnapshotsDir)
    ensures !Contains(t + "/", SnapshotsDir)
  {
    var s := t + "/";
    forall i | 0 <= i ensures !OccursAt(s, SnapshotsDir, i) {
      if i + |SnapshotsDir| <= |t| {
        assert s[i..i + |SnapshotsDir|] == t[i..i + |SnapshotsDir|];
        assert !OccursAt(t, SnapshotsDir, i);
      } else if i + |SnapshotsDir| == |s| {
        assert s[i..i + |SnapshotsDir|][|SnapshotsDir| - 1] == '/';
      }
    }
  }

  /** A snapshot `<t>/.snapshots/<n>/snapshot` of a nested subvolume `t`
      restores `t`. */
  lemma TargetOfNested(t: string, n: string, rootSubvol: string)
    requires t != "" && !Contains(t, SnapshotsDir)
    ensures RestoreTarget(t + "/" + SnapshotsDir + "/" + n + "/snapshot", rootSubvol) == t
  {
    var s := t + "/" + SnapshotsDir + "/" + n + "/snapshot";
    NoSnapshotsBeforeSlash(t);
    assert s == (t + "/") + SnapshotsDir + ("/" + n + "/snapshot");
    FirstOccurrenceAfterPart(t + "/", SnapshotsDir, "/" + n + "/snapshot");
    SplitHead(s, SnapshotsDir);
    assert Split(s, SnapshotsDir)[0] == t + "/";
  }

  /** A snapshot `.snapshots/<n>/snapshot` of the subvolume mounted as "/"
      restores that subvolume. */
  lemma TargetOfRootSnapshot(n: string, rootSubvol: string)
    ensures RestoreTarget(SnapshotsDir + "/" + n + "/snapshot", rootSubvol) == rootSubvol
  {
    var s := SnapshotsDir + "/" + n + "/snapshot";
    assert s[..|SnapshotsDir|] == SnapshotsDir;
    SplitLeading(s, SnapshotsDir);
  }

  // ---------------------------------------------------------------------
  // Names

  /** QTime::currentTime, passed in. */
  datatype TimeOfDay = TimeOfDay(hour: nat, minute: nat, second: nat, msec: nat)

  predicate ValidTime(t: TimeOfDay) {
    t.hour < 24 && t.minute < 60 && t.second < 60 && t.msec < 1000
  }

  function DigitChar(d: nat): (c: char)
    requires d < 10
    ensures IsDigit(c) && c as int - '0' as int == d
  {
    ('0' as int + d) as char
  }

  /** Two digits, zero-padded; they read back as `n`. */
  function Pad2(n: nat): (s: string)
    requires n < 100
    ensures |s| == 2 && AllDigits(s)
  {
    var s := [DigitChar(n / 10), DigitChar(n % 10)];
    AllDigitsEach(s);
    s
  }

  /** Three digits, zero-padded. */
  function Pad3(n: nat): (s: string)
    requires n < 1000
    ensures |s| == 3 && AllDigits(s)
  {
    var s := [DigitChar(n / 100), DigitChar(n / 10 % 10), DigitChar(n % 10)];
    AllDigitsEach(s);
    s
  }

  /** toString("HHmmsszzz"): nine digits. */
  function Stamp(t: TimeOfDay): (s: string)
    requires ValidTime(t)
    ensures |s| == 9 && AllDigits(s)
  {
    var s := Pad2(t.hour) + Pad2(t.minute) + Pad2(t.second) + Pad3(t.msec);
    AllDigitsEach(Pad2(t.hour));
    AllDigitsEach(Pad2(t.minute));
    AllDigitsEach(Pad2(t.second));
    AllDigitsEach(Pad3(t.msec));
    AllDigitsEach(s);
    s
  }

  lemma Pad2Value(n: nat)
    requires n < 100
    ensures DigitsValue(Pad2(n)) == n
  {
    var s := Pad2(n);
    assert DigitsValueIn(s, 0, 1) == n / 10;
  }

  lemma Pad3Value(n: nat)
    requires n < 1000
    ensures DigitsValue(Pad3(n)) == n
  {
    var s := Pad3(n);
    assert DigitsValueIn(s, 0, 1) == n / 100;
    assert DigitsValueIn(s, 0, 2) == n / 100 * 10 + n / 10 % 10;
    assert n / 100 == n / 10 / 10;
  }

  /** Reading a nine-digit stamp back as a time of day. */
  function Unstamp(s: string): TimeOfDay
    requires |s| == 9 && AllDigits(s)
  {
    AllDigitsEach(s);
    AllDigitsEach(s[0..2]);
    AllDigitsEach(s[2..4]);
    AllDigitsEach(s[4..6]);
    AllDigitsEach(s[6..9]);
    TimeOfDay(DigitsValue(s[0..2]), DigitsValue(s[2..4]), DigitsValue(s[4..6]), DigitsValue(s[6..9]))
  }

  /** The stamp reads back as the time it was made from. */
  lemma StampRoundTrip(t: TimeOfDay)
    requires ValidTime(t)
    ensures Unstamp(Stamp(t)) == t
  {
    var s := Stamp(t);
    assert s[0..2] == Pad2(t.hour);
    assert s[2..4] == Pad2(t.minute);
    assert s[4..6] == Pad2(t.second);
    assert s[6..9] == Pad3(t.msec);
    Pad2Value(t.hour);
    Pad2Value(t.minute);
    Pad2Value(t.second);
    Pad3Value(t.msec);
  }

  /** Different times of day give different stamps. */
  lemma StampInjective(a: TimeOfDay, b: TimeOfDay)
    requires ValidTime(a) && ValidTime(b) && Stamp(a) == Stamp(b)
    ensures a == b
  {
    StampRoundTrip(a);
    StampRoundTrip(b);
  }

  const BackupPrefix: string := "restore_backup_"

  /** The name the target is renamed to. */
  function BackupName(target: string, time: TimeOfDay): (name: string)
    requires ValidTime(time)
    ensures StartsWith(name, BackupPrefix + target + "_") && |name| == |BackupPrefix| + |target| + 10
  {
    BackupPrefix + target + "_" + Stamp(time)
  }

  /** Every backup name starts with the backup prefix. */
  lemma BackupNamePrefixed(target: string, time: TimeOfDay)
    requires ValidTime(time)
    ensures StartsWith(BackupName(target, time), BackupPrefix)
  {
    var name := BackupName(target, time);
    assert name[..|BackupPrefix|] == (BackupPrefix + target + "_")[..|BackupPrefix|];
  }

  /** Different targets, or the same target at different times, get
      different backup names. */
  lemma BackupNameInjective(t1: string, a: TimeOfDay, t2: string, b: TimeOfDay)
    requires ValidTime(a) && ValidTime(b)
    requires BackupName(t1, a) == BackupName(t2, b)
    ensures t1 == t2 && a == b
  {
    var n := BackupName(t1, a);
    assert |t1| == |t2|;
    assert t1 == n[|BackupPrefix|..|BackupPrefix| + |t1|];
    assert t2 == BackupName(t2, b)[|BackupPrefix|..|BackupPrefix| + |t2|];
    assert Stamp(a) == n[|n| - 9..];
    assert Stamp(b) == BackupName(t2, b)[|n| - 9..];
    StampInjective(a, b);
  }

  /** Where the source is once the target has been renamed to the backup. */
  function RelocatedSource(source: string, target: string, backup: string): string {
    if StartsWith(source, target) then backup + Right(source, |source| - |target|)
    else backup + "/" + source
  }

  /** A path below the target is, after the rename, the same path below
      the backup. */
  lemma RelocatedUnderBackup(target: string, rest: string, backup: string)
    ensures RelocatedSource(target + rest, target, backup) == backup + rest
  {
    var s := target + rest;
    assert s[..|target|] == target;
    assert Right(s, |s| - |target|) == s[|target|..];
    assert s[|target|..] == rest;
  }

  /** A nested subvolume's path relative to the target: the text after the
      target and one more character when the path starts with the target,
      the whole path otherwise. */
  function ChildRelative(child: string, target: string): string {
    if StartsWith(child, target) then Right(child, |child| - (|target| + 1)) else child
  }

  /** The move of a nested subvolume from the backup into the new target
      (mv to `<target>/.`, so only its last path component is kept). */
  function ChildMove(mp: string, target: string, backup: string, child: string): Command {
    Move(mp + backup + "/" + ChildRelative(child, target), mp + target + "/.")
  }

  /** Where the existence check looks for the moved child. */
  function Landing(mp: string, target: string, child: string): string {
    mp + target + "/" + ChildRelative(child, target)
  }

  /** A child `<target>/<rel>` is `<rel>` relative to the target. */
  lemma ChildRelativeOf(target: string, rel: string)
    ensures ChildRelative(target + "/" + rel, target) == rel
  {
    var child := target + "/" + rel;
    assert child[..|target|] == target;
    assert child[|child| - (|child| - (|target| + 1))..] == rel;
  }

  /** For a child `<target>/<rel>` the move takes it from where the rename
      put it, and the check looks for it at its original path. */
  lemma ChildRoundTrip(mp: string, target: string, backup: string, rel: string)
    ensures ChildMove(mp, target, backup, target + "/" + rel).src ==
      mp + RelocatedSource(target + "/" + rel, target, backup)
    ensures Landing(mp, target, target + "/" + rel) == mp + (target + "/" + rel)
  {
    ChildRelativeOf(target, rel);
    RelocatedUnderBackup(target, "/" + rel, backup);
    AppendRegroup(target, "/", rel);
    AppendRegroup(backup, "/", rel);
    AppendRegroup(mp + backup, "/", rel);
    AppendRegroup(mp, backup, "/" + rel);
    AppendRegroup(mp + target, "/", rel);
    AppendRegroup(mp, target, "/" + rel);
  }

  // ---------------------------------------------------------------------
  // The command sequence

  /** The moves of the children, in order. */
  function Moves(mp: string, target: string, backup: string, children: seq<string>): seq<Command> {
    if children == [] then []
    else Moves(mp, target, backup, children[..|children| - 1]) + [ChildMove(mp, target, backup, children[|children| - 1])]
  }

  lemma {:induction false} MovesCons(mp: string, target: string, backup: string, children: seq<string>)
    requires children != []
    ensures Moves(mp, target, backup, children) ==
      [ChildMove(mp, target, backup, children[0])] + Moves(mp, target, backup, children[1..])
    decreases |children|
  {
    if |children| > 1 {
      var init := children[..|children| - 1];
      MovesCons(mp, target, backup, init);
      assert init[1..] == children[1..][..|children[1..]| - 1];
    } else {
      assert children[1..] == [];
    }
  }

  /** Move the children back one by one, stopping at the first that does
      not arrive. */
  function Migrate(effect: Effect, paths: set<string>, mp: string, target: string, backup: string,
                   children: seq<string>): Run
    decreases |children|
  {
    if children == [] then Run(Restored(backup), [])
    else
      var c := ChildMove(mp, target, backup, children[0]);
      var after := effect(c, paths);
      if Landing(mp, target, children[0]) !in after then Run(MigrationFailed(children[0]), [c])
      else
        var r := Migrate(effect, after, mp, target, backup, children[1..]);
        Run(r.outcome, [c] + r.cmds)
  }

  /** Child `j` is found under the target after the moves up to and
      including its own. */
  predicate Landed(effect: Effect, paths: set<string>, mp: string, target: string, backup: string,
                   children: seq<string>, j: int)
    requires 0 <= j < |children|
  {
    Landing(mp, target, children[j]) in RunAll(effect, paths, Moves(mp, target, backup, children[..j + 1]))
  }

  /** The first child has landed exactly when the first move put it in
      place. */
  lemma LandedFirst(effect: Effect, paths: set<string>, mp: string, target: string, backup: string,
                    children: seq<string>)
    requires children != []
    ensures Moves(mp, target, backup, children[..1]) == [ChildMove(mp, target, backup, children[0])]
    ensures Landed(effect, paths, mp, target, backup, children, 0) <==>
      Landing(mp, target, children[0]) in effect(ChildMove(mp, target, backup, children[0]), paths)
  {
    assert children[..1][..0] == [];
    RunAllOne(effect, paths, ChildMove(mp, target, backup, children[0]));
  }

  /** The moves up to child `k + 1` are the first move followed by the
      moves of the remaining children up to `k`. */
  lemma MovesPrefixCons(mp: string, target: string, backup: string, children: seq<string>, k: int)
    requires 0 <= k < |children| - 1
    ensures Moves(mp, target, backup, children[..k + 2]) ==
      [ChildMove(mp, target, backup, children[0])] + Moves(mp, target, backup, children[1..][..k + 1])
  {
    var pre := children[..k + 2];
    MovesCons(mp, target, backup, pre);
    assert pre[1..] == children[1..][..k + 1];
  }

  /** Whether child `j + 1` has landed, counted from `paths`, is whether
      child `j` of the rest has landed, counted from after the first move. */
  lemma LandedShift(effect: Effect, paths: set<string>, mp: string, target: string, backup: string,
                    children: seq<string>)
    requires children != []
    ensures forall j :: 0 <= j < |children| - 1 ==>
      (Landed(effect, paths, mp, target, backup, children, j + 1) <==>
       Landed(effect, effect(ChildMove(mp, target, backup, children[0]), paths), mp, target, backup, children[1..], j))
  {
    forall j | 0 <= j < |children| - 1
      ensures Landed(effect, paths, mp, target, backup, children, j + 1) <==>
        Landed(effect, effect(ChildMove(mp, target, backup, children[0]), paths), mp, target, backup, children[1..], j)
    {
      MovesPrefixCons(mp, target, backup, children, j);
      assert children[1..][j] == children[j + 1];
    }
  }

  /** Every child has landed. */
  predicate AllLanded(effect: Effect, paths: set<string>, mp: string, target: string, backup: string,
                      children: seq<string>)
  {
    forall j :: 0 <= j < |children| ==> Landed(effect, paths, mp, target, backup, children, j)
  }

  /** The migration stopped at child `k`: exactly the moves up to it were
      issued, it did not land, and every child before it did. */
  predicate StoppedAt(effect: Effect, paths: set<string>, mp: string, target: string, backup: string,
                      children: seq<string>, r: Run, k: int)
  {
    0 <= k < |children| && r.outcome == MigrationFailed(children[k]) &&
    r.cmds == Moves(mp, target, backup, children[..k + 1]) &&
    !Landed(effect, paths, mp, target, backup, children, k) &&
    forall j :: 0 <= j < k ==> Landed(effect, paths, mp, target, backup, children, j)
  }

  /** The migration either restores every child, having moved each in
      order and found each under the target, or stops at the first child
      not found: the moves issued are exactly those up to that child and
      every child before it was found. */
  lemma {:induction false} MigrateStopsAtFirstFailure(effect: Effect, paths: set<string>, mp: string,
                                                     target: string, backup: string, children: seq<string>)
    ensures var r := Migrate(effect, paths, mp, target, backup, children);
      r.outcome == Restored(backup) || r.outcome.MigrationFailed?
    ensures var r := Migrate(effect, paths, mp, target, backup, children);
      r.outcome == Restored(backup) ==>
        r.cmds == Moves(mp, target, backup, children) && AllLanded(effect, paths, mp, target, backup, children)
    ensures var r := Migrate(effect, paths, mp, target, backup, children);
      r.outcome.MigrationFailed? ==> exists k :: StoppedAt(effect, paths, mp, target, backup, children, r, k)
    decreases |children|
  {
    if children != [] {
      var c := ChildMove(mp, target, backup, children[0]);
      var after := effect(c, paths);
      var rest := children[1..];
      LandedFirst(effect, paths, mp, target, backup, children);
      if Landing(mp, target, children[0]) in after {
        MigrateStopsAtFirstFailure(effect, after, mp, target, backup, rest);
        var r := Migrate(effect, after, mp, target, backup, rest);
        if r.outcome.MigrationFailed? {
          var k :| StoppedAt(effect, after, mp, target, backup, rest, r, k);
          StoppedLater(effect, paths, mp, target, backup, children, k);
        } else {
          LandedShift(effect, paths, mp, target, backup, children);
          MovesCons(mp, target, backup, children);
          forall j | 0 <= j < |children| ensures Landed(effect, paths, mp, target, backup, children, j) {
            if j > 0 {
              assert Landed(effect, after, mp, target, backup, rest, j - 1);
            }
          }
        }
      } else {
        assert StoppedAt(effect, paths, mp, target, backup, children, Migrate(effect, paths, mp, target, backup, children), 0);
      }
    }
  }

  /** A stop at child `k` of the rest, after the first child landed, is a
      stop at child `k + 1` of the whole migration. */
  lemma StoppedLater(effect: Effect, paths: set<string>, mp: string, target: string, backup: string,
                     children: seq<string>, k: int)
    requires children != []
    requires Landing(mp, target, children[0]) in effect(ChildMove(mp, target, backup, children[0]), paths)
    requires var after := effect(ChildMove(mp, target, backup, children[0]), paths);
      StoppedAt(effect, after, mp, target, backup, children[1..], Migrate(effect, after, mp, target, backup, children[1..]), k)
    ensures StoppedAt(effect, paths, mp, target, backup, children, Migrate(effect, paths, mp, target, backup, children), k + 1)
  {
    var c := ChildMove(mp, target, backup, children[0]);
    var after := effect(c, paths);
    var rest := children[1..];
    var r := Migrate(effect, after, mp, target, backup, rest);
    var whole := Migrate(effect, paths, mp, target, backup, children);
    assert whole == Run(r.outcome, [c] + r.cmds);
    MovesPrefixCons(mp, target, backup, children, k);
    assert whole.cmds == Moves(mp, target, backup, children[..k + 2]);
    assert rest[k] == children[k + 1];
    LandedFirst(effect, paths, mp, target, backup, children);
    LandedShift(effect, paths, mp, target, backup, children);
    forall j | 0 <= j < k + 1 ensures Landed(effect, paths, mp, target, backup, children, j) {
      if j > 0 {
        assert Landed(effect, after, mp, target, backup, rest, j - 1);
      }
    }
  }

  /** The rename, the snapshot and the migration, with their checks, once
      the top level is mounted at `mp`. */
  function Execute(effect: Effect, paths: set<string>, mp: string, source: string, target: string,
                   backup: string, children: seq<string>): Run
  {
    var rename := Move(mp + target, mp + backup);
    var renamed := effect(rename, paths);
    if mp + backup !in renamed then Run(BackupFailed, [rename])
    else
      var snapshot := Snapshot(mp + RelocatedSource(source, target, backup), mp + target);
      var snapshotted := effect(snapshot, renamed);
      if mp + target !in snapshotted then Run(RolledBack, [rename, snapshot, Move(mp + backup, mp + target)])
      else
        var m := Migrate(effect, snapshotted, mp, target, backup, children);
        Run(m.outcome, [rename, snapshot] + m.cmds)
  }

  /** What the sequence issues in each outcome: only the rename when the
      backup does not appear; the rename, the snapshot and one rename back
      when the target does not reappear; otherwise the rename, the snapshot
      and the children's moves up to the first one missing, ending
      `Restored(backup)` only when every child was found. */
  lemma ExecuteSteps(effect: Effect, paths: set<string>, mp: string, source: string, target: string,
                     backup: string, children: seq<string>)
    ensures var r := Execute(effect, paths, mp, source, target, backup, children);
      var rename := Move(mp + target, mp + backup);
      var snapshot := Snapshot(mp + RelocatedSource(source, target, backup), mp + target);
      var snapshotted := RunAll(effect, paths, [rename, snapshot]);
      (r.outcome == BackupFailed <==> mp + backup !in RunAll(effect, paths, [rename])) &&
      (r.outcome == BackupFailed ==> r.cmds == [rename]) &&
      (r.outcome == RolledBack ==>
        mp + target !in snapshotted && r.cmds == [rename, snapshot, Move(mp + backup, mp + target)]) &&
      (r.outcome == Restored(backup) ==>
        r.cmds == [rename, snapshot] + Moves(mp, target, backup, children) &&
        AllLanded(effect, snapshotted, mp, target, backup, children)) &&
      (r.outcome.MigrationFailed? ==>
        |r.cmds| >= 2 && r.cmds[..2] == [rename, snapshot] &&
        exists k :: StoppedAt(effect, snapshotted, mp, target, backup, children, Run(r.outcome, r.cmds[2..]), k)) &&
      (r.outcome == BackupFailed || r.outcome == RolledBack || r.outcome == Restored(backup) ||
       r.outcome.MigrationFailed?)
  {
    var rename := Move(mp + target, mp + backup);
    var snapshot := Snapshot(mp + RelocatedSource(source, target, backup), mp + target);
    RunAllOne(effect, paths, rename);
    RunAllOne(effect, effect(rename, paths), snapshot);
    RunAllAppend(effect, paths, [rename], [snapshot]);
    assert [rename] + [snapshot] == [rename, snapshot];
    var snapshotted := effect(snapshot, effect(rename, paths));
    MigrateStopsAtFirstFailure(effect, snapshotted, mp, target, backup, children);
    if mp + backup in effect(rename, paths) && mp + target in snapshotted {
      var m := Migrate(effect, snapshotted, mp, target, backup, children);
      assert ([rename, snapshot] + m.cmds)[2..] == m.cmds;
    }
  }

  /** The sequence always issues the rename first and never ends in an
      outcome of the checks. */
  lemma ExecuteIssues(effect: Effect, paths: set<string>, mp: string, source: string, target: string,
                      backup: string, children: seq<string>)
    ensures var r := Execute(effect, paths, mp, source, target, backup, children);
      r.cmds != [] && r.cmds[0] == Move(mp + target, mp + backup) && !BeforeCommands(r.outcome) &&
      (r.outcome.Restored? ==> r.outcome == Restored(backup))
  {
    var rename := Move(mp + target, mp + backup);
    var renamed := effect(rename, paths);
    var snapshot := Snapshot(mp + RelocatedSource(source, target, backup), mp + target);
    MigrateStopsAtFirstFailure(effect, effect(snapshot, renamed), mp, target, backup, children);
  }

  // ---------------------------------------------------------------------
  // The whole restore

  /** The query outputs the restore reads are defined: the top-level mount
      lines for the uuid, and the children listing of the target id. */
  predicate RestoreDefined(subvolumes: map<string, string>, probe: Probe, uuid: string, subvolume: string) {
    MountsDefined(uuid, Split(probe.topLevelMounts, "\n")) &&
    var c := Validate(subvolumes, probe.rootMount, subvolume);
    c.Go? ==> ChildrenDefined(c.targetId, Split(Out(probe.childrenOf, c.targetId), "\n"))
  }

  /** restoreSnapshot(uuid, subvolume) on the file system whose id-to-path
      map is `subvolumes`, with the confirmation answered `confirmed`, the
      generated directory name `tmpName` and the clock at `time`. */
  function RestorePlan(effect: Effect, paths: set<string>, subvolumes: map<string, string>, probe: Probe,
                       uuid: string, subvolume: string, confirmed: bool, tmpName: string, time: TimeOfDay): Run
    requires RestoreDefined(subvolumes, probe, uuid, subvolume) && ValidTime(time)
  {
    match Validate(subvolumes, probe.rootMount, subvolume)
    case Stop(o) => Run(o, [])
    case Go(source, target, targetId) =>
      if !confirmed then Run(Declined, [])
      else
        var m := MountPlan(uuid, probe.topLevelMounts, tmpName);
        var e := Execute(effect, RunAll(effect, paths, m.cmds), WithTrailingSlash(m.mountpoint), source, target,
                         BackupName(target, time), ChildrenOf(targetId, Out(probe.childrenOf, targetId)));
        Run(e.outcome, m.cmds + e.cmds)
  }

  /** No command is issued exactly when the restore stops at a check or is
      declined; a restore that gets past them always issues the rename. */
  lemma RestoreCommandsIffPastChecks(effect: Effect, paths: set<string>, subvolumes: map<string, string>,
                                     probe: Probe, uuid: string, subvolume: string, confirmed: bool,
                                     tmpName: string, time: TimeOfDay)
    requires RestoreDefined(subvolumes, probe, uuid, subvolume) && ValidTime(time)
    ensures var r := RestorePlan(effect, paths, subvolumes, probe, uuid, subvolume, confirmed, tmpName, time);
      r.cmds == [] <==> BeforeCommands(r.outcome)
  {
    var c := Validate(subvolumes, probe.rootMount, subvolume);
    if c.Go? && confirmed {
      var m := MountPlan(uuid, probe.topLevelMounts, tmpName);
      ExecuteIssues(effect, RunAll(effect, paths, m.cmds), WithTrailingSlash(m.mountpoint), c.source, c.target,
                    BackupName(c.target, time), ChildrenOf(c.targetId, Out(probe.childrenOf, c.targetId)));
    }
  }

  /** A restore reported as complete went through the checks and the
      confirmation, and names the backup built from the target and the
      clock. */
  lemma RestoredNamesBackup(effect: Effect, paths: set<string>, subvolumes: map<string, string>,
                            probe: Probe, uuid: string, subvolume: string, confirmed: bool,
                            tmpName: string, time: TimeOfDay)
    requires RestoreDefined(subvolumes, probe, uuid, subvolume) && ValidTime(time)
    ensures var r := RestorePlan(effect, paths, subvolumes, probe, uuid, subvolume, confirmed, tmpName, time);
      r.outcome.Restored? ==>
        confirmed && Validate(subvolumes, probe.rootMount, subvolume).Go? &&
        r.outcome.backup == BackupName(Validate(subvolumes, probe.rootMount, subvolume).target, time) &&
        StartsWith(r.outcome.backup, BackupPrefix)
  {
    var c := Validate(subvolumes, probe.rootMount, subvolume);
    if c.Go? && confirmed {
      var m := MountPlan(uuid, probe.topLevelMounts, tmpName);
      var backup := BackupName(c.target, time);
      ExecuteIssues(effect, RunAll(effect, paths, m.cmds), WithTrailingSlash(m.mountpoint), c.source, c.target,
                    backup, ChildrenOf(c.targetId, Out(probe.childrenOf, c.targetId)));
      BackupNamePrefixed(c.target, time);
    }
  }
}
