/** Classifying a subvolume path: a snapper snapshot lives below a
    ".snapshots" directory (the directory itself is not a snapshot), a
    Timeshift snapshot has "timeshift-btrfs" in its path. Paths given by
    `btrfs subvolume list` have no leading slash; paths from mount options
    may have one, which the restore strips. */
module Classify {

  import opened QtText

  const SnapshotsDir: string := ".snapshots"
  const TimeshiftMark: string := "timeshift-btrfs"

  /** isTimeshift. */
  predicate IsTimeshift(subvolume: string) {
    Contains(subvolume, TimeshiftMark)
  }

  /** isSnapper. */
  predicate IsSnapper(subvolume: string) {
    Contains(subvolume, SnapshotsDir) && !EndsWith(subvolume, SnapshotsDir)
  }

  /** Remove one leading '/', if there is one. */
  function StripLeadingSlash(s: string): (r: string)
    ensures StartsWith(s, "/") ==> s == "/" + r
    ensures !StartsWith(s, "/") ==> r == s
  {
    if StartsWith(s, "/") then Right(s, |s| - 1) else s
  }

  /** A snapshot directory `<prefix>.snapshots/<n>/snapshot` is a snapper
      snapshot, whatever the prefix and the number. */
  lemma SnapshotPathIsSnapper(prefix: string, n: string)
    ensures IsSnapper(prefix + SnapshotsDir + "/" + n + "/snapshot")
  {
    var s := prefix + SnapshotsDir + "/" + n + "/snapshot";
    assert s[|prefix|..|prefix| + |SnapshotsDir|] == SnapshotsDir;
    assert OccursAt(s, SnapshotsDir, |prefix|);
    assert s[|s| - 1] == 't';
  }

  /** The ".snapshots" directory itself is not a snapshot. */
  lemma SnapshotsDirIsNotSnapper(prefix: string)
    ensures !IsSnapper(prefix + SnapshotsDir)
  {
    var s := prefix + SnapshotsDir;
    assert s[|s| - |SnapshotsDir|..] == SnapshotsDir;
  }

  /** The classification takes a leading slash as part of the path: the
      root snapshot as a mount option names it is still a snapper path. */
  lemma LeadingSlashIsSnapper()
    ensures IsSnapper("/.snapshots/3/snapshot")
  {
    var s := "/.snapshots/3/snapshot";
    assert s[1..11] == SnapshotsDir;
    assert OccursAt(s, SnapshotsDir, 1);
    assert s[|s| - 1] == 't';
  }

  /** Putting a character that does not start `t` in front of a text does not
      create or remove an occurrence of `t`. */
  lemma ContainsAfterChar(c: char, s: string, t: string)
    requires |t| > 0 && t[0] != c
    ensures Contains([c] + s, t) <==> Contains(s, t)
  {
    var cs := [c] + s;
    if Contains(cs, t) {
      var i :| OccursAt(cs, t, i);
      assert cs[i] == t[0];
      assert cs[i..i + |t|] == s[i - 1..i - 1 + |t|];
      assert OccursAt(s, t, i - 1);
    }
    if Contains(s, t) {
      var i :| OccursAt(s, t, i);
      assert cs[i + 1..i + 1 + |t|] == s[i..i + |t|];
      assert OccursAt(cs, t, i + 1);
    }
  }

  /** Stripping the leading slash does not change how a path is classified,
      so the restore may classify the stripped path. */
  lemma StripKeepsClass(s: string)
    ensures IsSnapper(StripLeadingSlash(s)) <==> IsSnapper(s)
    ensures IsTimeshift(StripLeadingSlash(s)) <==> IsTimeshift(s)
  {
    if StartsWith(s, "/") {
      var r := StripLeadingSlash(s);
      assert s == ['/'] + r;
      ContainsAfterChar('/', r, SnapshotsDir);
      ContainsAfterChar('/', r, TimeshiftMark);
      EndsWithAfterChar('/', r, SnapshotsDir);
    }
  }

  /** Putting a character that does not start `t` in front of a text does not
      make it end, or stop it ending, with `t`. */
  lemma EndsWithAfterChar(c: char, s: string, t: string)
    requires |t| > 0 && t[0] != c
    ensures EndsWith([c] + s, t) <==> EndsWith(s, t)
  {
    var cs := [c] + s;
    if |t| <= |s| {
      assert cs[|cs| - |t|..] == s[|s| - |t|..];
    }
  }
}
