/** Snapper's outputs: the `info.xml` metadata file of a snapshot, read line
    by line for three tags, and the '|'-separated tables of `snapper
    list-configs` and `snapper list`. */
module Snapper {

  import opened QtText
  import opened QtNumbers
  import opened Seqs

  /** A snapper snapshot as listed for a config. */
  datatype SnapperSnapshot = SnapperSnapshot(number: int, time: string, desc: string)

  /** A snapshot subvolume found in restore mode. */
  datatype SnapperSubvolume = SnapperSubvolume(
    subvol: string, subvolid: string, time: string, desc: string, uuid: string)

  /** The metadata before any line is read: number 0, empty texts. */
  const NoMeta: SnapperSnapshot := SnapperSnapshot(0, "", "")

  const NumOpen: string := "<num>"
  const NumClose: string := "</num>"
  const DateOpen: string := "<date>"
  const DateClose: string := "</date>"
  const DescOpen: string := "<description>"
  const DescClose: string := "</description>"

  /** `t.split(open).at(1).split(close).at(0).trimmed()` for a line that
      starts with `open`. */
  function TagValue(t: string, open: string, close: string): (v: string)
    requires |open| > 0 && |close| > 0 && StartsWith(t, open)
    ensures v == Trimmed(Split(Split(t[|open|..], open)[0], close)[0])
  {
    SplitLeading(t, open);
    Trimmed(Split(Split(t, open)[1], close)[0])
  }

  /** One line of info.xml: a trimmed line that starts with one of the three
      tags sets that field; any other line changes nothing. */
  function MetaLine(snap: SnapperSnapshot, line: string): SnapperSnapshot {
    var t := Trimmed(line);
    if StartsWith(t, NumOpen) then snap.(number := ToInt(TagValue(t, NumOpen, NumClose)))
    else if StartsWith(t, DateOpen) then snap.(time := TagValue(t, DateOpen, DateClose))
    else if StartsWith(t, DescOpen) then snap.(desc := TagValue(t, DescOpen, DescClose))
    else snap
  }

  /** The metadata after the loop has seen `lines`. */
  function MetaFrom(snap: SnapperSnapshot, lines: seq<string>): SnapperSnapshot {
    FoldSeq(MetaLine, snap, lines)
  }

  /** getSnapperMeta on the text of an info.xml file. */
  function Meta(text: string): SnapperSnapshot {
    if text == "" then NoMeta else MetaFrom(NoMeta, Split(text, "\n"))
  }

  method GetSnapperMeta(text: string) returns (snap: SnapperSnapshot)
    ensures snap == Meta(text)
  {
    snap := NoMeta;
    if text == "" {
      return;
    }
    var lines := Split(text, "\n");
    var i := 0;
    while i < |lines|
      invariant 0 <= i <= |lines|
      invariant snap == MetaFrom(NoMeta, lines[..i])
    {
      assert lines[..i + 1][..i] == lines[..i];
      var t := Trimmed(lines[i]);
      if StartsWith(t, NumOpen) {
        snap := snap.(number := ToInt(TagValue(t, NumOpen, NumClose)));
      } else if StartsWith(t, DateOpen) {
        snap := snap.(time := TagValue(t, DateOpen, DateClose));
      } else if StartsWith(t, DescOpen) {
        snap := snap.(desc := TagValue(t, DescOpen, DescClose));
      }
      i := i + 1;
    }
    assert lines[..i] == lines;
  }

  /** The line carries none of the three tags. */
  predicate Untagged(line: string) {
    var t := Trimmed(line);
    !StartsWith(t, NumOpen) && !StartsWith(t, DateOpen) && !StartsWith(t, DescOpen)
  }

  /** Lines without a tag do not change the metadata, wherever they are. */
  lemma {:induction false} MetaIgnoresUntagged(snap: SnapperSnapshot, a: seq<string>, b: seq<string>)
    requires forall j :: 0 <= j < |b| ==> Untagged(b[j])
    ensures MetaFrom(snap, a + b) == MetaFrom(snap, a)
    decreases |b|
  {
    if b == [] {
      assert a + b == a;
    } else {
      var init := b[..|b| - 1];
      assert (a + b)[..|a + b| - 1] == a + init;
      assert (a + b)[|a + b| - 1] == b[|b| - 1];
      MetaIgnoresUntagged(snap, a, init);
    }
  }

  /** The value between a tag and its closing tag is read back, when it
      holds no '<' and has no white space at its ends. */
  lemma TagValueOf(v: string, open: string, close: string)
    requires SelfDelimiting(open) && SelfDelimiting(close) && close[0] == open[0]
    requires !Contains(close, open)
    requires forall k :: 0 <= k < |v| ==> v[k] != open[0]
    requires v == [] || (!IsSpace(v[0]) && !IsSpace(v[|v| - 1]))
    ensures TagValue(open + v + close, open, close) == v
  {
    var t := open + v + close;
    assert t[..|open|] == open;
    assert t[|open|..] == v + close;
    AbsentFirstChar(v, open);
    AbsentFirstChar(v, close);
    NotContainsConcat(v, close, open);
    SplitHead(v + close, open);
    FirstOccurrenceAfterPart(v, close, "");
    assert v + close + "" == v + close;
    SplitHead(v + close, close);
    assert (v + close)[..|v|] == v;
    TrimmedNoop(v);
  }

  /** A value fit for a tag: no '<', no line break, no white space at its
      ends. */
  predicate CleanValue(v: string) {
    (forall k :: 0 <= k < |v| ==> v[k] != '<' && v[k] != '\n') &&
    (v == [] || (!IsSpace(v[0]) && !IsSpace(v[|v| - 1])))
  }

  /** An opening tag `<name>` and its closing tag `</name>` are each
      self-delimiting, and the closing tag does not contain the opening one. */
  lemma TagPair(name: string)
    requires forall k :: 0 <= k < |name| ==> name[k] != '<' && name[k] != '/'
    ensures SelfDelimiting("<" + name + ">") && SelfDelimiting("</" + name + ">")
    ensures !Contains("</" + name + ">", "<" + name + ">")
  {
    var open := "<" + name + ">";
    var close := "</" + name + ">";
    assert forall i :: 1 <= i < |open| ==> open[i] != '<' by {
      forall i | 1 <= i < |open| ensures open[i] != '<' {
        if i <= |name| {
          assert open[i] == name[i - 1];
        }
      }
    }
    assert forall i :: 1 <= i < |close| ==> close[i] != '<' by {
      forall i | 1 <= i < |close| ensures close[i] != '<' {
        if 2 <= i <= |name| + 1 {
          assert close[i] == name[i - 2];
        }
      }
    }
    forall i | 0 <= i ensures !OccursAt(close, open, i) {
      if i + |open| <= |close| {
        if i == 0 {
          assert close[i..i + |open|][1] == '/';
          if |name| > 0 {
            assert open[1] == name[0];
          }
        } else {
          assert close[i..i + |open|][0] == close[i];
        }
      }
    }
  }

  /** The three tags getSnapperMeta looks for. */
  lemma NumTags()
    ensures SelfDelimiting(NumOpen) && SelfDelimiting(NumClose) && !Contains(NumClose, NumOpen)
  {
    TagPair("num");
    assert NumOpen == "<" + "num" + ">" && NumClose == "</" + "num" + ">";
  }

  lemma DateTags()
    ensures SelfDelimiting(DateOpen) && SelfDelimiting(DateClose) && !Contains(DateClose, DateOpen)
  {
    TagPair("date");
    assert DateOpen == "<" + "date" + ">" && DateClose == "</" + "date" + ">";
  }

  lemma DescTags()
    ensures SelfDelimiting(DescOpen) && SelfDelimiting(DescClose) && !Contains(DescClose, DescOpen)
  {
    TagPair("description");
    assert DescOpen == "<" + "description" + ">" && DescClose == "</" + "description" + ">";
  }

  /** A tag line, indented, trims to the tag and reads back its value. */
  lemma TagLine(v: string, open: string, close: string)
    requires SelfDelimiting(open) && SelfDelimiting(close) && close[0] == open[0] == '<'
    requires !Contains(close, open) && close[|close| - 1] == '>'
    requires CleanValue(v)
    ensures Trimmed("  " + open + v + close) == open + v + close
    ensures TagValue(open + v + close, open, close) == v
  {
    var d := open + v + close;
    assert d[0] == '<' && d[|d| - 1] == '>';
    TrimmedPadded("  ", d, "");
    assert "  " + d + "" == "  " + d;
    AppendRegroup("  ", open + v, close);
    AppendRegroup("  ", open, v);
    TagValueOf(v, open, close);
  }

  /** The number line of info.xml sets the number. */
  lemma NumCase(snap: SnapperSnapshot, line: string, v: string)
    requires StartsWith(Trimmed(line), NumOpen)
    requires ToInt(TagValue(Trimmed(line), NumOpen, NumClose)) == ToInt(v)
    ensures MetaLine(snap, line) == snap.(number := ToInt(v))
  {
  }

  lemma NumTrims(v: string)
    requires CleanValue(v)
    ensures Trimmed("  " + NumOpen + v + NumClose) == NumOpen + v + NumClose
    ensures TagValue(NumOpen + v + NumClose, NumOpen, NumClose) == v
    ensures StartsWith(NumOpen + v + NumClose, NumOpen)
  {
    NumTags();
    TagLine(v, NumOpen, NumClose);
    var t := NumOpen + v + NumClose;
    assert t[..|NumOpen|] == NumOpen;
  }

  lemma NumLine(snap: SnapperSnapshot, v: string)
    requires CleanValue(v)
    ensures MetaLine(snap, "  " + NumOpen + v + NumClose) == snap.(number := ToInt(v))
  {
    NumTrims(v);
    NumCase(snap, "  " + NumOpen + v + NumClose, v);
  }

  /** The date line of info.xml sets the time. */
  lemma DateCase(snap: SnapperSnapshot, line: string, v: string)
    requires StartsWith(Trimmed(line), DateOpen) && !StartsWith(Trimmed(line), NumOpen)
    requires TagValue(Trimmed(line), DateOpen, DateClose) == v
    ensures MetaLine(snap, line) == snap.(time := v)
  {
  }

  lemma DateTrims(v: string)
    requires CleanValue(v)
    ensures Trimmed("  " + DateOpen + v + DateClose) == DateOpen + v + DateClose
    ensures TagValue(DateOpen + v + DateClose, DateOpen, DateClose) == v
  {
    DateTags();
    TagLine(v, DateOpen, DateClose);
  }

  lemma DateStarts(v: string)
    ensures StartsWith(DateOpen + v + DateClose, DateOpen)
    ensures !StartsWith(DateOpen + v + DateClose, NumOpen)
  {
    var t := DateOpen + v + DateClose;
    assert t[..|DateOpen|] == DateOpen;
    TagsExclusive(t);
  }

  lemma DateLine(snap: SnapperSnapshot, v: string)
    requires CleanValue(v)
    ensures MetaLine(snap, "  " + DateOpen + v + DateClose) == snap.(time := v)
  {
    DateTrims(v);
    DateStarts(v);
    DateCase(snap, "  " + DateOpen + v + DateClose, v);
  }

  /** A trimmed line that starts with the description tag, and with neither
      of the others, sets the description to the tag's value. */
  lemma DescCase(snap: SnapperSnapshot, line: string, v: string)
    requires StartsWith(Trimmed(line), DescOpen)
    requires !StartsWith(Trimmed(line), NumOpen) && !StartsWith(Trimmed(line), DateOpen)
    requires TagValue(Trimmed(line), DescOpen, DescClose) == v
    ensures MetaLine(snap, line) == snap.(desc := v)
  {
  }

  lemma DescTrims(v: string)
    requires CleanValue(v)
    ensures Trimmed("  " + DescOpen + v + DescClose) == DescOpen + v + DescClose
    ensures TagValue(DescOpen + v + DescClose, DescOpen, DescClose) == v
  {
    DescTags();
    TagLine(v, DescOpen, DescClose);
  }

  lemma DescStarts(v: string)
    ensures StartsWith(DescOpen + v + DescClose, DescOpen)
    ensures !StartsWith(DescOpen + v + DescClose, NumOpen)
    ensures !StartsWith(DescOpen + v + DescClose, DateOpen)
  {
    var t := DescOpen + v + DescClose;
    assert t[..|DescOpen|] == DescOpen;
    TagsExclusive(t);
  }

  /** The description line of info.xml sets the description. */
  lemma DescLine(snap: SnapperSnapshot, v: string)
    requires CleanValue(v)
    ensures MetaLine(snap, "  " + DescOpen + v + DescClose) == snap.(desc := v)
  {
    DescTrims(v);
    DescStarts(v);
    DescCase(snap, "  " + DescOpen + v + DescClose, v);
  }

  /** The three tags differ within their first three characters, so a
      line starts with at most one of them. */
  lemma TagsExclusive(t: string)
    ensures StartsWith(t, DescOpen) ==> !StartsWith(t, NumOpen) && !StartsWith(t, DateOpen)
    ensures StartsWith(t, DateOpen) ==> !StartsWith(t, NumOpen)
  {
    if StartsWith(t, DescOpen) {
      assert t[..|DescOpen|][1] == t[1] && t[..|DescOpen|][2] == t[2];
      DiffersAt(t, NumOpen, 1);
      DiffersAt(t, DateOpen, 2);
    }
    if StartsWith(t, DateOpen) {
      assert t[..|DateOpen|][1] == t[1];
      DiffersAt(t, NumOpen, 1);
    }
  }

  predicate IsNumLine(line: string) {
    StartsWith(Trimmed(line), NumOpen)
  }

  predicate IsDateLine(line: string) {
    StartsWith(Trimmed(line), DateOpen)
  }

  predicate IsDescLine(line: string) {
    StartsWith(Trimmed(line), DescOpen)
  }

  /** The number a `<num>` line gives. */
  function NumValue(line: string): int {
    if IsNumLine(line) then ToInt(TagValue(Trimmed(line), NumOpen, NumClose)) else 0
  }

  /** The text a `<date>` line gives. */
  function DateValue(line: string): string {
    if IsDateLine(line) then TagValue(Trimmed(line), DateOpen, DateClose) else ""
  }

  /** The text a `<description>` line gives. */
  function DescValue(line: string): string {
    if IsDescLine(line) then TagValue(Trimmed(line), DescOpen, DescClose) else ""
  }

  /** Each field is set by a line with its own tag and kept by every other
      line. */
  lemma MetaLineFields(snap: SnapperSnapshot, line: string)
    ensures MetaLine(snap, line).number == if IsNumLine(line) then NumValue(line) else snap.number
    ensures MetaLine(snap, line).time == if IsDateLine(line) then DateValue(line) else snap.time
    ensures MetaLine(snap, line).desc == if IsDescLine(line) then DescValue(line) else snap.desc
  {
    TagsExclusive(Trimmed(line));
  }

  /** Later lines win: each field comes from the last line carrying its
      tag, and keeps its starting value when no line does. */
  lemma MetaTakesLastTags(snap: SnapperSnapshot, lines: seq<string>)
    ensures var i := LastWhere(IsNumLine, lines);
      MetaFrom(snap, lines).number == if i < 0 then snap.number else NumValue(lines[i])
    ensures var i := LastWhere(IsDateLine, lines);
      MetaFrom(snap, lines).time == if i < 0 then snap.time else DateValue(lines[i])
    ensures var i := LastWhere(IsDescLine, lines);
      MetaFrom(snap, lines).desc == if i < 0 then snap.desc else DescValue(lines[i])
  {
    forall t, a ensures MetaLine(t, a).number == (if IsNumLine(a) then NumValue(a) else t.number)
      && MetaLine(t, a).time == (if IsDateLine(a) then DateValue(a) else t.time)
      && MetaLine(t, a).desc == (if IsDescLine(a) then DescValue(a) else t.desc)
    {
      MetaLineFields(t, a);
    }
    FoldLastWins(MetaLine, (t: SnapperSnapshot) => t.number, IsNumLine, NumValue, snap, lines);
    FoldLastWins(MetaLine, (t: SnapperSnapshot) => t.time, IsDateLine, DateValue, snap, lines);
    FoldLastWins(MetaLine, (t: SnapperSnapshot) => t.desc, IsDescLine, DescValue, snap, lines);
  }

  /** getSnapperMeta: empty text gives number 0 and empty texts; otherwise
      each field comes from the last line of the text carrying its tag. */
  lemma MetaOfText(text: string)
    ensures text == "" ==> Meta(text) == NoMeta
    ensures text != "" ==> var lines := Split(text, "\n"); var i := LastWhere(IsNumLine, lines);
      Meta(text).number == if i < 0 then 0 else NumValue(lines[i])
    ensures text != "" ==> var lines := Split(text, "\n"); var i := LastWhere(IsDateLine, lines);
      Meta(text).time == if i < 0 then "" else DateValue(lines[i])
    ensures text != "" ==> var lines := Split(text, "\n"); var i := LastWhere(IsDescLine, lines);
      Meta(text).desc == if i < 0 then "" else DescValue(lines[i])
  {
    if text != "" {
      MetaTakesLastTags(NoMeta, Split(text, "\n"));
    }
  }

  /** A line without a tag leaves the metadata as it is. */
  lemma UntaggedKeeps(snap: SnapperSnapshot, line: string)
    requires Untagged(line)
    ensures MetaLine(snap, line) == snap
  {
  }

  // ---------------------------------------------------------------------
  // Tables

  /** `snapper list --columns number,date,description` rows: number, date,
      description, separated by '|'. */
  predicate RowDefined(line: string) {
    |Split(line, "|")| >= 3
  }

  function Row(line: string): SnapperSnapshot
    requires RowDefined(line)
  {
    var cols := Split(line, "|");
    SnapperSnapshot(ToInt(Trimmed(cols[0])), Trimmed(cols[1]), Trimmed(cols[2]))
  }

  predicate RowsDefined(lines: seq<string>) {
    forall j :: 0 <= j < |lines| ==> RowDefined(lines[j])
  }

  /** The snapshots listed, one per line, in order. */
  function Rows(lines: seq<string>): seq<SnapperSnapshot>
    requires RowsDefined(lines)
  {
    MapSeq(Row, lines)
  }

  /** One snapshot per row, in the order of the rows. */
  lemma RowsInOrder(lines: seq<string>)
    requires RowsDefined(lines)
    ensures |Rows(lines)| == |lines|
    ensures forall j :: 0 <= j < |lines| ==> Rows(lines)[j] == Row(lines[j])
  {
    MapSeqAt(Row, lines);
  }

  /** The loop that appends one snapshot per listed row. */
  method ParseSnapshotRows(lines: seq<string>) returns (rows: seq<SnapperSnapshot>)
    requires RowsDefined(lines)
    ensures rows == Rows(lines)
  {
    rows := [];
    var i := 0;
    while i < |lines|
      invariant 0 <= i <= |lines|
      invariant rows == Rows(lines[..i])
    {
      assert lines[..i + 1][..i] == lines[..i];
      var cols := Split(lines[i], "|");
      rows := rows + [SnapperSnapshot(ToInt(Trimmed(cols[0])), Trimmed(cols[1]), Trimmed(cols[2]))];
      i := i + 1;
    }
    assert lines[..i] == lines;
  }

  /** A table row as snapper prints it. */
  function FormatRow(n: nat, date: string, desc: string): string {
    Join([" " + DecimalString(n) + " ", " " + date + " ", " " + desc], "|")
  }

  /** A field fit for a table cell: non-empty, no '|', no white space at
      its ends. */
  predicate CleanCell(v: string) {
    |v| > 0 && (forall k :: 0 <= k < |v| ==> v[k] != '|') && !IsSpace(v[0]) && !IsSpace(v[|v| - 1])
  }

  /** A cell padded with spaces trims back to its text. */
  lemma CellTrims(a: string, v: string, b: string)
    requires CleanCell(v)
    requires forall k :: 0 <= k < |a| ==> IsSpace(a[k])
    requires forall k :: 0 <= k < |b| ==> IsSpace(b[k])
    ensures !Contains(a + v + b, "|")
    ensures Trimmed(a + v + b) == v
  {
    var c := a + v + b;
    forall k | 0 <= k < |c| ensures c[k] != '|' {
      if k < |a| {
        assert IsSpace(c[k]);
      } else if k < |a| + |v| {
        assert c[k] == v[k - |a|];
      } else {
        assert IsSpace(c[k]);
      }
    }
    AbsentFirstChar(c, "|");
    TrimmedPadded(a, v, b);
  }

  /** The cells of a printed row. */
  function RowCells(n: nat, date: string, desc: string): seq<string> {
    [" " + DecimalString(n) + " ", " " + date + " ", " " + desc]
  }

  /** A printed row splits back into its cells. */
  lemma FormatRowSplits(n: nat, date: string, desc: string)
    requires CleanCell(date) && CleanCell(desc)
    ensures Split(FormatRow(n, date, desc), "|") == RowCells(n, date, desc)
    ensures Trimmed(RowCells(n, date, desc)[0]) == DecimalString(n)
    ensures Trimmed(RowCells(n, date, desc)[1]) == date
    ensures Trimmed(RowCells(n, date, desc)[2]) == desc
  {
    var d := DecimalString(n);
    assert CleanCell(d) by {
      AllDigitsEach(d);
    }
    CellTrims(" ", d, " ");
    CellTrims(" ", date, " ");
    CellTrims(" ", desc, "");
    assert " " + desc + "" == " " + desc;
    var cells := RowCells(n, date, desc);
    assert FormatRow(n, date, desc) == Join(cells, "|");
    SplitJoin(cells, "|");
  }

  /** A printed row reads back as the snapshot it describes. */
  lemma RowOfFormatted(n: nat, date: string, desc: string)
    requires n <= IntMax && CleanCell(date) && CleanCell(desc)
    ensures RowDefined(FormatRow(n, date, desc))
    ensures Row(FormatRow(n, date, desc)) == SnapperSnapshot(n, date, desc)
  {
    FormatRowSplits(n, date, desc);
    var d := DecimalString(n);
    ConvertsDecimal(n, "");
    assert "" + d + "" == d;
  }

  /** `snapper list-configs` rows: config name and subvolume, separated by
      '|'. */
  predicate ConfigRowDefined(line: string) {
    |Split(line, "|")| >= 2
  }

  function ConfigName(line: string): string
    requires ConfigRowDefined(line)
  {
    Trimmed(Split(line, "|")[0])
  }

  function ConfigSubvolume(line: string): string
    requires ConfigRowDefined(line)
  {
    Trimmed(Split(line, "|")[1])
  }
}
