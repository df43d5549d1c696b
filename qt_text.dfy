/** The QString operations the inventory parsers rely on, with Qt's own edge
    cases: `split` keeps empty parts, `left`/`right` return the whole string
    for a count that is negative or at least the length, `trimmed` removes
    what QChar::isSpace calls white space. */
module QtText {

  import opened Options

  /** QChar::isSpace: the ASCII controls 9 to 13, the space, and the Unicode
      space, line and paragraph separators. */
  predicate IsSpace(c: char) {
    var n := c as int;
    (9 <= n <= 13) || n == 32 || n == 0x85 || n == 0xA0 || n == 0x1680 ||
    (0x2000 <= n <= 0x200A) || n == 0x2028 || n == 0x2029 || n == 0x202F ||
    n == 0x205F || n == 0x3000
  }

  predicate StartsWith(s: string, prefix: string) {
    |prefix| <= |s| && s[..|prefix|] == prefix
  }

  /** A text that differs from `prefix` at some index inside both does not
      start with it. */
  lemma DiffersAt(s: string, prefix: string, k: int)
    requires 0 <= k < |prefix| && k < |s| && s[k] != prefix[k]
    ensures !StartsWith(s, prefix)
  {
    if |prefix| <= |s| {
      assert s[..|prefix|][k] == s[k];
    }
  }

  predicate EndsWith(s: string, suffix: string) {
    |suffix| <= |s| && s[|s| - |suffix|..] == suffix
  }

  /** `t` occurs in `s` starting at index `i`. */
  predicate OccursAt(s: string, t: string, i: int) {
    0 <= i && i + |t| <= |s| && s[i..i + |t|] == t
  }

  /** QString::indexOf(t, from): the first occurrence at or after `from`, or -1. */
  function IndexFrom(s: string, t: string, from: nat): (r: int)
    requires from <= |s|
    ensures r == -1 || (from <= r && OccursAt(s, t, r))
    ensures r != -1 ==> forall j :: from <= j < r ==> !OccursAt(s, t, j)
    ensures r == -1 ==> forall j :: from <= j ==> !OccursAt(s, t, j)
    decreases |s| - from
  {
    if from + |t| > |s| then -1
    else if s[from..from + |t|] == t then from
    else IndexFrom(s, t, from + 1)
  }

  function IndexOf(s: string, t: string): (r: int)
    ensures r == -1 || OccursAt(s, t, r)
    ensures r != -1 ==> forall j :: 0 <= j < r ==> !OccursAt(s, t, j)
    ensures r == -1 ==> forall j :: !OccursAt(s, t, j)
  {
    IndexFrom(s, t, 0)
  }

  /** QString::contains. */
  function Contains(s: string, t: string): (b: bool)
    ensures b <==> exists i :: OccursAt(s, t, i)
  {
    IndexOf(s, t) >= 0
  }

  /** An occurrence inside a prefix of `s` is an occurrence in `s`. */
  lemma OccursInPrefix(p: string, s: string, t: string, i: int)
    requires StartsWith(s, p) && OccursAt(p, t, i)
    ensures OccursAt(s, t, i)
  {
    assert s[i..i + |t|] == p[i..i + |t|];
  }

  /** A text without the first character of `t` does not contain `t`. */
  lemma AbsentFirstChar(s: string, t: string)
    requires |t| > 0 && forall k :: 0 <= k < |s| ==> s[k] != t[0]
    ensures !Contains(s, t)
  {
    forall i | 0 <= i ensures !OccursAt(s, t, i) {
      if i + |t| <= |s| {
        assert s[i..i + |t|][0] == s[i];
      }
    }
  }

  /** Two texts that do not contain a self-delimiting `t` do not contain it
      once joined, when the second starts with the first character of `t`. */
  lemma NotContainsConcat(p: string, q: string, t: string)
    requires SelfDelimiting(t) && |q| > 0 && q[0] == t[0]
    requires !Contains(p, t) && !Contains(q, t)
    ensures !Contains(p + q, t)
  {
    var s := p + q;
    forall i | 0 <= i ensures !OccursAt(s, t, i) {
      if i + |t| <= |s| {
        if i + |t| <= |p| {
          assert s[i..i + |t|] == p[i..i + |t|];
          assert !OccursAt(p, t, i);
        } else if i < |p| {
          assert s[i..i + |t|][|p| - i] == q[0];
        } else {
          assert s[i..i + |t|] == q[i - |p|..i - |p| + |t|];
          assert !OccursAt(q, t, i - |p|);
        }
      }
    }
  }

  /** QString::left(n). */
  function Left(s: string, n: int): (r: string)
    ensures StartsWith(s, r)
    ensures 0 <= n <= |s| ==> |r| == n
    ensures (n < 0 || n >= |s|) ==> r == s
  {
    if n < 0 || n >= |s| then s else s[..n]
  }

  /** QString::right(n). */
  function Right(s: string, n: int): (r: string)
    ensures EndsWith(s, r)
    ensures 0 <= n <= |s| ==> |r| == n
    ensures (n < 0 || n >= |s|) ==> r == s
  {
    if n < 0 || n >= |s| then s else s[|s| - n..]
  }

  /** The number of white-space characters at the start of `s`. */
  function LeadingSpaces(s: string): (n: nat)
    ensures n <= |s|
    ensures n < |s| ==> !IsSpace(s[n])
  {
    if |s| > 0 && IsSpace(s[0]) then 1 + LeadingSpaces(s[1..]) else 0
  }

  lemma {:induction false} LeadingSpacesAll(s: string)
    ensures forall k :: 0 <= k < LeadingSpaces(s) ==> IsSpace(s[k])
    decreases |s|
  {
    if |s| > 0 && IsSpace(s[0]) {
      LeadingSpacesAll(s[1..]);
      forall k | 0 < k < LeadingSpaces(s) ensures IsSpace(s[k]) {
        assert s[k] == s[1..][k - 1];
      }
    }
  }

  /** The number of white-space characters at the end of `s`. */
  function TrailingSpaces(s: string): (n: nat)
    ensures n <= |s|
    ensures n < |s| ==> !IsSpace(s[|s| - n - 1])
  {
    if |s| > 0 && IsSpace(s[|s| - 1]) then 1 + TrailingSpaces(s[..|s| - 1]) else 0
  }

  lemma {:induction false} TrailingSpacesAll(s: string)
    ensures forall k :: |s| - TrailingSpaces(s) <= k < |s| ==> IsSpace(s[k])
    decreases |s|
  {
    if |s| > 0 && IsSpace(s[|s| - 1]) {
      var init := s[..|s| - 1];
      TrailingSpacesAll(init);
      forall k | |s| - TrailingSpaces(s) <= k < |s| - 1 ensures IsSpace(s[k]) {
        assert s[k] == init[k];
      }
    }
  }

  /** QString::trimmed: the text between its leading and trailing white
      space. */
  function Trimmed(s: string): (r: string)
    ensures |r| <= |s|
    ensures r == [] || (!IsSpace(r[0]) && !IsSpace(r[|r| - 1]))
  {
    var i := LeadingSpaces(s);
    if i == |s| then []
    else
      TrailingSpacesAll(s);
      s[i..|s| - TrailingSpaces(s)]
  }

  /** The trimmed text is a slice of the text with only white space around
      it. */
  lemma TrimmedIsSlice(s: string)
    ensures exists i, j :: (0 <= i <= j <= |s| && Trimmed(s) == s[i..j] &&
      (forall k :: 0 <= k < i ==> IsSpace(s[k])) &&
      (forall k :: j <= k < |s| ==> IsSpace(s[k])))
  {
    LeadingSpacesAll(s);
    TrailingSpacesAll(s);
    var i := LeadingSpaces(s);
    if i == |s| {
      assert Trimmed(s) == s[i..i];
    } else {
      var j := |s| - TrailingSpaces(s);
      assert Trimmed(s) == s[i..j];
    }
  }

  /** A string without white space at either end is its own trimmed form. */
  lemma TrimmedNoop(s: string)
    requires s == [] || (!IsSpace(s[0]) && !IsSpace(s[|s| - 1]))
    ensures Trimmed(s) == s
  {
  }

  /** Trimming removes exactly the white space around a text that neither
      starts nor ends with white space. */
  lemma TrimmedPadded(a: string, d: string, b: string)
    requires forall k :: 0 <= k < |a| ==> IsSpace(a[k])
    requires forall k :: 0 <= k < |b| ==> IsSpace(b[k])
    requires |d| > 0 && !IsSpace(d[0]) && !IsSpace(d[|d| - 1])
    ensures Trimmed(a + d + b) == d
  {
    var s := a + d + b;
    LeadingSpacesAll(s);
    TrailingSpacesAll(s);
    var i := LeadingSpaces(s);
    assert s[|a|] == d[0];
    assert i == |a|;
    var t := TrailingSpaces(s);
    assert s[|s| - |b| - 1] == d[|d| - 1];
    assert t == |b|;
    assert s[|a|..|s| - |b|] == d;
  }

  /** QString::split(sep) with empty parts kept. */
  function Split(s: string, sep: string): (parts: seq<string>)
    requires |sep| > 0
    ensures |parts| >= 1
    decreases |s|
  {
    var k := IndexOf(s, sep);
    if k < 0 then [s] else [s[..k]] + Split(s[k + |sep|..], sep)
  }

  /** QStringList::join(sep). */
  function Join(parts: seq<string>, sep: string): string {
    if |parts| == 0 then ""
    else if |parts| == 1 then parts[0]
    else parts[0] + sep + Join(parts[1..], sep)
  }

  /** No part of a split contains the separator. */
  lemma {:induction false} SplitPartsFree(s: string, sep: string)
    requires |sep| > 0
    ensures forall i :: 0 <= i < |Split(s, sep)| ==> !Contains(Split(s, sep)[i], sep)
    decreases |s|
  {
    var k := IndexOf(s, sep);
    if k >= 0 {
      var head := s[..k];
      if Contains(head, sep) {
        var i :| OccursAt(head, sep, i);
        OccursInPrefix(head, s, sep, i);
        assert false;
      }
      SplitPartsFree(s[k + |sep|..], sep);
    }
  }

  /** Splitting and joining with the same separator gives the text back. */
  lemma {:induction false} JoinSplit(s: string, sep: string)
    requires |sep| > 0
    ensures Join(Split(s, sep), sep) == s
    decreases |s|
  {
    var k := IndexOf(s, sep);
    if k >= 0 {
      var rest := s[k + |sep|..];
      var parts, tail := Split(s, sep), Split(rest, sep);
      JoinSplit(rest, sep);
      assert parts == [s[..k]] + tail;
      assert parts[0] == s[..k] && parts[1..] == tail;
      assert Join(parts, sep) == s[..k] + sep + Join(tail, sep);
      assert s[k..k + |sep|] == sep;
      assert s == s[..k] + s[k..k + |sep|] + rest;
    }
  }

  /** The separator's first character does not recur in it, so an occurrence
      cannot start inside a part and run on into the separator after it. */
  predicate SelfDelimiting(sep: string) {
    |sep| > 0 && forall i :: 1 <= i < |sep| ==> sep[i] != sep[0]
  }

  lemma FirstOccurrenceAfterPart(p: string, sep: string, rest: string)
    requires SelfDelimiting(sep) && !Contains(p, sep)
    ensures IndexOf(p + sep + rest, sep) == |p|
  {
    var s := p + sep + rest;
    assert s[|p|..|p| + |sep|] == sep;
    assert OccursAt(s, sep, |p|);
    forall j | 0 <= j < |p| ensures !OccursAt(s, sep, j) {
      if j + |sep| <= |p| {
        assert p[j..j + |sep|] == s[j..j + |sep|];
        assert !OccursAt(p, sep, j);
      } else {
        var d := |p| - j;
        assert s[|p|] == sep[0];
        assert sep[d] != sep[0];
        assert s[j..j + |sep|][d] == sep[0];
      }
    }
  }

  /** Joining parts that do not contain a self-delimiting separator and
      splitting again gives the parts back. */
  lemma {:induction false} SplitJoin(parts: seq<string>, sep: string)
    requires SelfDelimiting(sep) && |parts| >= 1
    requires forall i :: 0 <= i < |parts| ==> !Contains(parts[i], sep)
    ensures Split(Join(parts, sep), sep) == parts
    decreases |parts|
  {
    if |parts| == 1 {
      assert IndexOf(parts[0], sep) == -1;
    } else {
      var p := parts[0];
      var rest := Join(parts[1..], sep);
      var s := p + sep + rest;
      assert Join(parts, sep) == s;
      FirstOccurrenceAfterPart(p, sep, rest);
      assert s[..|p|] == p;
      assert s[|p| + |sep|..] == rest;
      assert Split(s, sep) == [p] + Split(rest, sep);
      SplitJoin(parts[1..], sep);
      assert parts == [p] + parts[1..];
    }
  }

  /** A text that starts with the separator splits into an empty first part
      and, as its second part, the text after the separator up to the next
      occurrence. */
  lemma SplitLeading(s: string, sep: string)
    requires |sep| > 0 && StartsWith(s, sep)
    ensures |Split(s, sep)| >= 2
    ensures Split(s, sep)[0] == ""
    ensures Split(s, sep)[1] == Split(s[|sep|..], sep)[0]
  {
    assert OccursAt(s, sep, 0);
    assert IndexOf(s, sep) == 0;
  }

  /** The first part of a split is the text before the first occurrence of
      the separator, or the whole text when there is none. */
  lemma SplitHead(s: string, sep: string)
    requires |sep| > 0
    ensures IndexOf(s, sep) < 0 ==> Split(s, sep)[0] == s
    ensures IndexOf(s, sep) >= 0 ==> Split(s, sep)[0] == s[..IndexOf(s, sep)]
    ensures StartsWith(s, Split(s, sep)[0])
  {
  }

  /** The longest prefix of `s` without white space. */
  function TakeWord(s: string): (w: string)
    ensures StartsWith(s, w)
    ensures forall k :: 0 <= k < |w| ==> !IsSpace(w[k])
    ensures |w| < |s| ==> IsSpace(s[|w|])
  {
    if |s| > 0 && !IsSpace(s[0]) then [s[0]] + TakeWord(s[1..]) else []
  }

  /** `split(QRegExp("\\s+"), Qt::SkipEmptyParts).at(0)`: the first run of
      non-space characters, or None when `s` is all white space (the list is
      then empty and `at(0)` has no element to give). */
  function FirstWord(s: string): (w: Option<string>)
    ensures w.None? <==> forall k :: 0 <= k < |s| ==> IsSpace(s[k])
    ensures w.Some? ==> |w.value| > 0 && forall k :: 0 <= k < |w.value| ==> !IsSpace(w.value[k])
  {
    var i := LeadingSpaces(s);
    LeadingSpacesAll(s);
    if i == |s| then None else Some(TakeWord(s[i..]))
  }
}
