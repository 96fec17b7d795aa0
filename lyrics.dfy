/** Loading a lyric file into table rows (`load_txt`, main.py:172-186):
    every line is stripped, blank lines are dropped, and each remaining
    line becomes a row whose time cell holds the unset text. */
module Lyrics {
  import opened Text
  import opened Timestamp

  /** One row of the two-column table: the time cell and the lyric cell. */
  datatype Row = Row(ts: string, lyric: string)

  /** Python's `str.isspace` for one character. */
  predicate IsSpace(c: char)
  {
    var n := c as int;
    (9 <= n <= 13) || (28 <= n <= 32) || n == 0x85 || n == 0xA0 || n == 0x1680 ||
    (0x2000 <= n <= 0x200A) || n == 0x2028 || n == 0x2029 || n == 0x202F ||
    n == 0x205F || n == 0x3000
  }

  predicate AllSpace(s: string)
  {
    forall i :: 0 <= i < |s| ==> IsSpace(s[i])
  }

  /** `s.lstrip()`: drops the leading white space and nothing else. */
  function TrimStart(s: string): (r: string)
    ensures |r| <= |s| && r == s[|s| - |r|..]
    ensures AllSpace(s[..|s| - |r|])
    ensures |r| > 0 ==> !IsSpace(r[0])
    decreases |s|
  {
    if |s| > 0 && IsSpace(s[0]) then
      var r := TrimStart(s[1..]);
      assert s[..|s| - |r|] == [s[0]] + s[1..][..|s| - 1 - |r|];
      r
    else s
  }

  /** `s.rstrip()`: drops the trailing white space and nothing else. */
  function TrimEnd(s: string): (r: string)
    ensures r <= s
    ensures AllSpace(s[|r|..])
    ensures |r| > 0 ==> !IsSpace(r[|r| - 1])
    decreases |s|
  {
    if |s| > 0 && IsSpace(s[|s| - 1]) then
      var t := s[..|s| - 1];
      var r := TrimEnd(t);
      assert r <= s;
      assert s[|r|..] == t[|r|..] + [s[|s| - 1]];
      r
    else
      assert s[|s|..] == [];
      s
  }

  /** `s.strip()`. */
  function Strip(s: string): string
  {
    TrimEnd(TrimStart(s))
  }

  /** A line is dropped exactly when it is all white space. */
  lemma StripEmpty(s: string)
    ensures Strip(s) == "" <==> AllSpace(s)
  {
  }

  /** What one line contributes to the comprehension below: its stripped
      text, or nothing when that is empty. */
  function Kept(line: string): seq<string>
  {
    var lyric := Strip(line);
    if lyric == "" then [] else [lyric]
  }

  /** The list comprehension `[l.strip() for l in lines if l.strip()]`. */
  function NonBlankLines(lines: seq<string>): seq<string>
  {
    FlatMap(Kept, lines)
  }

  /** At most one lyric per line, and no kept lyric is empty. */
  lemma {:induction false} NonBlankLinesBounds(lines: seq<string>)
    ensures |NonBlankLines(lines)| <= |lines|
    ensures forall k :: 0 <= k < |NonBlankLines(lines)| ==> NonBlankLines(lines)[k] != ""
  {
    if |lines| > 0 {
      NonBlankLinesBounds(lines[1..]);
    }
  }

  /** The table the `setItem` loop fills: one row per lyric, in order, each
      with the unset time. */
  function SeedRows(lyrics: seq<string>): seq<Row>
  {
    seq(|lyrics|, k requires 0 <= k < |lyrics| => Row(Unset, lyrics[k]))
  }

  /** The rows `load_txt` leaves in the table for the lines of a file. */
  function LoadRows(lines: seq<string>): (rows: seq<Row>)
    ensures |rows| <= |lines|
    ensures forall k :: 0 <= k < |rows| ==> rows[k].ts == Unset && rows[k].lyric != ""
  {
    NonBlankLinesBounds(lines);
    SeedRows(NonBlankLines(lines))
  }

  /** Loading two pieces of a file one after the other gives the rows of
      the whole file: rows keep file order and do not interact. */
  lemma LoadRowsAppend(a: seq<string>, b: seq<string>)
    ensures LoadRows(a + b) == LoadRows(a) + LoadRows(b)
  {
    FlatMapAppend(Kept, a, b);
    SeedRowsAppend(NonBlankLines(a), NonBlankLines(b));
  }

  /** `load_txt` (main.py:172-186) for a file of the given lines: the
      stripped non-blank lines, then one table row per lyric. */
  method LoadTxt(lines: seq<string>) returns (table: seq<Row>)
    ensures table == LoadRows(lines)
  {
    var lyrics := NonBlankLines(lines);
    table := FillTable(lyrics);
  }

  /** The `setItem` loop of `load_txt` (main.py:176-179): row i gets the
      unset time and lyric i. */
  method FillTable(lyrics: seq<string>) returns (table: seq<Row>)
    ensures table == SeedRows(lyrics)
  {
    table := [];
    var i := 0;
    while i < |lyrics|
      invariant 0 <= i <= |lyrics|
      invariant |table| == i && forall k :: 0 <= k < i ==> table[k] == Row(Unset, lyrics[k])
    {
      table := table + [Row(Unset, lyrics[i])];
      i := i + 1;
    }
  }

  lemma SeedRowsAppend(x: seq<string>, y: seq<string>)
    ensures SeedRows(x + y) == SeedRows(x) + SeedRows(y)
  {
    var l, r := SeedRows(x + y), SeedRows(x) + SeedRows(y);
    assert |l| == |r|;
    forall k | 0 <= k < |l| ensures l[k] == r[k] {
      if k < |x| { assert (x + y)[k] == x[k]; } else { assert (x + y)[k] == y[k - |x|]; }
    }
  }

  /** A single line yields one row holding the stripped line, or none when
      the line is blank. */
  lemma LoadRowsLine(line: string)
    ensures LoadRows([line]) == if AllSpace(line) then [] else [Row(Unset, Strip(line))]
  {
    StripEmpty(line);
    assert [line][0] == line && [line][1..] == [];
    assert FlatMap(Kept, [line]) == Kept(line) + FlatMap(Kept, []);
  }

  /** A file of blank lines loads as an empty table, and only such a file. */
  lemma {:induction false} LoadRowsEmpty(lines: seq<string>)
    ensures LoadRows(lines) == [] <==> forall k :: 0 <= k < |lines| ==> AllSpace(lines[k])
  {
    if |lines| > 0 {
      LoadRowsEmpty(lines[1..]);
      StripEmpty(lines[0]);
      assert forall k :: 1 <= k < |lines| ==> lines[k] == lines[1..][k - 1];
    }
  }
}
