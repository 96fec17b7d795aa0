/** The text `export_lrc` writes (main.py:323-330): one `[ts]lyric` line
    per table row, joined by newlines, without a trailing newline; and a
    reader for that text, used to state what the export preserves. */
module Lrc {
  import opened Options
  import opened Text
  import opened Timestamp
  import opened Lyrics

  /** What `export_lrc` writes and where. */
  datatype LrcFile = LrcFile(path: string, text: string)

  /** `f"[{ts}]{lyric}"`. */
  function LrcLine(row: Row): string
  {
    "[" + row.ts + "]" + row.lyric
  }

  /** The list the export loop builds, one line per row in table order. */
  function LrcLines(rows: seq<Row>): seq<string>
  {
    seq(|rows|, k requires 0 <= k < |rows| => LrcLine(rows[k]))
  }

  /** `"\n".join(lines)`. */
  function LrcText(rows: seq<Row>): string
  {
    Join(LrcLines(rows), '\n')
  }

  /** Reads one `[ts]lyric` line: the time runs to the first ']'. */
  function ParseLine(line: string): Option<Row>
  {
    if |line| > 0 && line[0] == '[' && ']' in line[1..] then
      var rest := line[1..];
      var i := IndexOf(rest, ']');
      Some(Row(rest[..i], rest[i + 1..]))
    else None
  }

  function ParseLines(lines: seq<string>): Option<seq<Row>>
  {
    if |lines| == 0 then Some([])
    else
      match (ParseLine(lines[0]), ParseLines(lines[1..]))
      case (Some(row), Some(rows)) => Some([row] + rows)
      case _ => None
  }

  /** Reads an exported text back into rows. */
  function ParseLrc(text: string): Option<seq<Row>>
  {
    ParseLines(Split(text, '\n'))
  }

  /** A row whose time holds no ']' reads back from its line. */
  lemma ParseLrcLine(row: Row)
    requires ']' !in row.ts
    ensures ParseLine(LrcLine(row)) == Some(row)
  {
    var line := LrcLine(row);
    assert line[1..] == row.ts + [']'] + row.lyric;
    IndexOfAfter(row.ts, ']', row.lyric);
    var rest := line[1..];
    assert rest[..|row.ts|] == row.ts && rest[|row.ts| + 1..] == row.lyric;
  }

  lemma {:induction false} ParseLrcLines(rows: seq<Row>)
    requires forall k :: 0 <= k < |rows| ==> ']' !in rows[k].ts
    ensures ParseLines(LrcLines(rows)) == Some(rows)
  {
    if |rows| > 0 {
      var lines := LrcLines(rows);
      assert lines[0] == LrcLine(rows[0]) && lines[1..] == LrcLines(rows[1..]);
      ParseLrcLine(rows[0]);
      ParseLrcLines(rows[1..]);
      assert ParseLines(lines) == Some([rows[0]] + rows[1..]);
      assert [rows[0]] + rows[1..] == rows;
    }
  }

  /** Export round trip: the exported text splits into exactly one line per
      row (so there is no trailing newline) and reads back to the rows,
      whenever no time holds ']' or a newline and no lyric holds a newline. */
  lemma ParseLrcText(rows: seq<Row>)
    requires |rows| > 0
    requires forall k :: 0 <= k < |rows| ==> ']' !in rows[k].ts && '\n' !in rows[k].ts && '\n' !in rows[k].lyric
    ensures Split(LrcText(rows), '\n') == LrcLines(rows)
    ensures ParseLrc(LrcText(rows)) == Some(rows)
  {
    var lines := LrcLines(rows);
    forall k | 0 <= k < |lines|
      ensures '\n' !in lines[k]
    {
      assert lines[k] == "[" + rows[k].ts + "]" + rows[k].lyric;
    }
    SplitJoin(lines, '\n');
    ParseLrcLines(rows);
  }

  /** The rows of the lyric table always satisfy the round trip: each time
      cell holds a formatted time (the unset text is the time zero), which
      has only digits, ':' and '.'. */
  lemma ParseStampedText(rows: seq<Row>, times: seq<nat>)
    requires |rows| > 0 && |times| == |rows|
    requires forall k :: 0 <= k < |rows| ==> rows[k].ts == Format(times[k]) && '\n' !in rows[k].lyric
    ensures ParseLrc(LrcText(rows)) == Some(rows)
  {
    forall k | 0 <= k < |rows|
      ensures ']' !in rows[k].ts && '\n' !in rows[k].ts
    {
      FormatCharacters(times[k]);
    }
    ParseLrcText(rows);
  }

  lemma ExampleLines(rows: seq<Row>)
    requires rows == [Row("00:00.00", "a"), Row("00:05.50", "b"), Row("01:02.30", "c")]
    ensures LrcLines(rows) == ["[00:00.00]a", "[00:05.50]b", "[01:02.30]c"]
  {
    var lines := LrcLines(rows);
    assert lines[0] == "[00:00.00]a";
    assert lines[1] == "[00:05.50]b";
    assert lines[2] == "[01:02.30]c";
  }

  /** Three rows export as three `[ts]lyric` lines. */
  lemma ExportExample(rows: seq<Row>)
    requires rows == [Row("00:00.00", "a"), Row("00:05.50", "b"), Row("01:02.30", "c")]
    ensures LrcText(rows) == "[00:00.00]a\n[00:05.50]b\n[01:02.30]c"
  {
    ExampleLines(rows);
    var lines := LrcLines(rows);
    assert lines[1..] == ["[00:05.50]b", "[01:02.30]c"];
    assert lines[1..][1..] == ["[01:02.30]c"];
    assert Join(lines[1..][1..], '\n') == "[01:02.30]c";
    assert Join(lines[1..], '\n') == "[00:05.50]b" + ['\n'] + "[01:02.30]c";
    assert Join(lines, '\n') == "[00:00.00]a" + ['\n'] + ("[00:05.50]b" + ['\n'] + "[01:02.30]c");
  }
}
