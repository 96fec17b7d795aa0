/** The timing state of the lyric window (`LyricWindow` in main.py) as a
    value: the table rows, the row pointer `current_row`, the
    `add_end_timestamp` switch and whether a player exists, with one
    function per command that says what the command leaves behind. The
    class in module Window runs the same commands in place. */
module Engine {
  import opened Options
  import opened Timestamp
  import opened Lyrics

  datatype Session = Session(rows: seq<Row>, currentRow: nat, addEndTimestamp: bool, hasPlayer: bool)

  /** The pointer stays within the table; it may sit just past the last
      row, where advancing stops. */
  predicate Valid(s: Session)
  {
    s.currentRow <= |s.rows|
  }

  /** `load_session` (main.py:128-152): the rows of the lyric file replace
      the table, a player is attached and the pointer returns to row 0. */
  function Loaded(s: Session, lines: seq<string>): (r: Session)
    ensures Valid(r)
    ensures r.rows == LoadRows(lines) && r.currentRow == 0
    ensures r.hasPlayer && r.addEndTimestamp == s.addEndTimestamp
  {
    s.(rows := LoadRows(lines), currentRow := 0, hasPlayer := true)
  }

  /** `advance_row` (main.py:256-271) once the player's time has been
      formatted into `stamp`: without a player or past the last row nothing
      happens; otherwise the current row's time cell gets the stamp and the
      pointer moves on. */
  function Advanced(s: Session, stamp: string): (r: Session)
    ensures Valid(s) ==> Valid(r)
    ensures r.addEndTimestamp == s.addEndTimestamp && r.hasPlayer == s.hasPlayer
    ensures |r.rows| == |s.rows| && forall k :: 0 <= k < |s.rows| ==> r.rows[k].lyric == s.rows[k].lyric
    ensures if s.hasPlayer && s.currentRow < |s.rows| then
        r.currentRow == s.currentRow + 1 && r.rows[s.currentRow].ts == stamp &&
        forall k :: 0 <= k < |s.rows| && k != s.currentRow ==> r.rows[k] == s.rows[k]
      else r == s
  {
    if !s.hasPlayer || s.currentRow >= |s.rows| then s
    else
      s.(rows := s.rows[s.currentRow := Row(stamp, s.rows[s.currentRow].lyric)],
         currentRow := s.currentRow + 1)
  }

  /** `retime_previous_row` (main.py:273-277): at row 0 nothing happens;
      otherwise the pointer steps back and that row's time cell is reset to
      the unset text. */
  function Retimed(s: Session): (r: Session)
    requires Valid(s)
    ensures Valid(r)
    ensures r.addEndTimestamp == s.addEndTimestamp && r.hasPlayer == s.hasPlayer
    ensures |r.rows| == |s.rows| && forall k :: 0 <= k < |s.rows| ==> r.rows[k].lyric == s.rows[k].lyric
    ensures if s.currentRow > 0 then
        r.currentRow == s.currentRow - 1 && r.rows[r.currentRow].ts == Unset &&
        forall k :: 0 <= k < |s.rows| && k != r.currentRow ==> r.rows[k] == s.rows[k]
      else r == s
  {
    if s.currentRow > 0 then
      var c := s.currentRow - 1;
      s.(rows := s.rows[c := Row(Unset, s.rows[c].lyric)], currentRow := c)
    else s
  }

  /** `set_current_row` (main.py:252-254): a click on a table cell moves the
      pointer to that row. */
  function WithCurrentRow(s: Session, row: nat): (r: Session)
    requires row < |s.rows|
    ensures Valid(r) && r.currentRow == row && r.currentRow < |r.rows|
    ensures r.rows == s.rows && r.addEndTimestamp == s.addEndTimestamp && r.hasPlayer == s.hasPlayer
  {
    s.(currentRow := row)
  }

  /** `toggle_end_timestamp` (main.py:224-227). */
  function Toggled(s: Session): (r: Session)
    ensures r.addEndTimestamp != s.addEndTimestamp
    ensures r.rows == s.rows && r.currentRow == s.currentRow && r.hasPlayer == s.hasPlayer
    ensures Valid(s) ==> Valid(r)
  {
    s.(addEndTimestamp := !s.addEndTimestamp)
  }

  /** `add_final_timestamp` (main.py:229-248) for a track of `length`
      milliseconds (0 or less when the player does not know it). It appends
      a row with the formatted length and no lyric, unless the length is
      unknown or the last row's time text already equals it. */
  function WithFinalTimestamp(s: Session, length: int): (r: Session)
    ensures Valid(s) ==> Valid(r)
    ensures r.currentRow == s.currentRow && r.addEndTimestamp == s.addEndTimestamp && r.hasPlayer == s.hasPlayer
    ensures r == s || (length > 0 && r.rows == s.rows + [Row(Format(length), "")])
    ensures r == s <==> length <= 0 || (|s.rows| > 0 && s.rows[|s.rows| - 1].ts == Format(length))
  {
    if length <= 0 then s
    else
      var timestamp := Format(length);
      if |s.rows| > 0 && s.rows[|s.rows| - 1].ts == timestamp then s
      else s.(rows := s.rows + [Row(timestamp, "")])
  }

  /** `song_finished` (main.py:302-310) as far as the table is concerned:
      without a player nothing happens, and with the switch on the final
      timestamp is added. */
  function Finished(s: Session, length: int): (r: Session)
    ensures Valid(s) ==> Valid(r)
    ensures !s.hasPlayer || !s.addEndTimestamp ==> r == s
    ensures s.hasPlayer && s.addEndTimestamp ==> r == WithFinalTimestamp(s, length)
    ensures r.currentRow == s.currentRow && |s.rows| <= |r.rows| <= |s.rows| + 1 && r.rows[..|s.rows|] == s.rows
  {
    if s.hasPlayer && s.addEndTimestamp then WithFinalTimestamp(s, length) else s
  }

  /** The seek target of `rewind_5s` (main.py:291): five seconds back, but
      not before the start. */
  function RewindTarget(time: int): (t: nat)
    ensures t >= time - 5000
    ensures t == 0 || t == time - 5000
  {
    if time - 5000 > 0 then time - 5000 else 0
  }

  /** What `replay_line` (main.py:293-300) does: nothing at the first row;
      otherwise it reads the previous row's time text with the `Parse`
      formula and seeks there, or raises where Python's `split`-and-unpack
      or `int()` fails. */
  datatype Replay = Stay | SeekTo(ms: nat) | Raises

  function ReplayTarget(s: Session): (t: Replay)
    requires Valid(s)
    ensures t == Stay <==> s.currentRow == 0
    ensures t.SeekTo? ==> Parse(s.rows[s.currentRow - 1].ts) == Some(t.ms) && t.ms % 10 == 0
    ensures t == Raises <==> s.currentRow > 0 && Parse(s.rows[s.currentRow - 1].ts).None?
  {
    if s.currentRow == 0 then Stay
    else
      match Parse(s.rows[s.currentRow - 1].ts)
      case None => Raises
      case Some(ms) => SeekTo(ms)
  }

  /** Undo: advancing and then retiming gives back the pointer and leaves
      the row just stamped at the unset time; nothing else changes. */
  lemma UndoAdvance(s: Session, stamp: string)
    requires s.hasPlayer && s.currentRow < |s.rows|
    ensures Retimed(Advanced(s, stamp)) == s.(rows := s.rows[s.currentRow := Row(Unset, s.rows[s.currentRow].lyric)])
  {
    var c := s.currentRow;
    var r := Retimed(Advanced(s, stamp));
    assert r.rows == s.rows[c := Row(Unset, s.rows[c].lyric)];
  }

  /** Replaying right after an advance at player time `ms` seeks to that
      time truncated to hundredths. */
  lemma ReplayAfterAdvance(s: Session, ms: nat)
    requires Valid(s) && s.hasPlayer && s.currentRow < |s.rows|
    ensures ReplayTarget(Advanced(s, Format(ms))) == SeekTo(ms - ms % 10)
  {
    ParseFormat(ms);
  }

  function Min(a: nat, b: nat): nat
  {
    if a < b then a else b
  }

  /** The session after a run of `advance_row` calls, the k-th writing
      `stamps[k]`. */
  function AdvancedAll(s: Session, stamps: seq<string>): (r: Session)
    requires Valid(s)
    ensures r.addEndTimestamp == s.addEndTimestamp && r.hasPlayer == s.hasPlayer
    ensures |r.rows| == |s.rows| && forall k :: 0 <= k < |s.rows| ==> r.rows[k].lyric == s.rows[k].lyric
    ensures r.currentRow == if s.hasPlayer then Min(s.currentRow + |stamps|, |s.rows|) else s.currentRow
    decreases |stamps|
  {
    if |stamps| == 0 then s else AdvancedAll(Advanced(s, stamps[0]), stamps[1..])
  }

  /** Advancing n times from row c stamps row c+k, for each k < n, with the
      k-th stamp: rows are stamped in order, one per advance. */
  lemma {:induction false} AdvanceRun(s: Session, stamps: seq<string>, k: nat)
    requires s.hasPlayer && s.currentRow + |stamps| <= |s.rows| && k < |stamps|
    ensures AdvancedAll(s, stamps).rows[s.currentRow + k].ts == stamps[k]
    decreases k
  {
    var next := Advanced(s, stamps[0]);
    var rest := stamps[1..];
    if k == 0 {
      AdvanceKeeps(next, rest);
      assert AdvancedAll(next, rest).rows[s.currentRow] == next.rows[s.currentRow];
    } else {
      AdvanceRun(next, rest, k - 1);
      assert rest[k - 1] == stamps[k];
    }
  }

  /** A run of advances leaves every row outside the rows it stamps as it
      was. */
  lemma {:induction false} AdvanceKeeps(s: Session, stamps: seq<string>)
    requires s.hasPlayer && s.currentRow + |stamps| <= |s.rows|
    ensures forall k :: 0 <= k < |s.rows| && !(s.currentRow <= k < s.currentRow + |stamps|) ==>
      AdvancedAll(s, stamps).rows[k] == s.rows[k]
    decreases |stamps|
  {
    if |stamps| > 0 {
      var c := s.currentRow;
      var next := Advanced(s, stamps[0]);
      var rest := stamps[1..];
      AdvanceKeeps(next, rest);
      var r := AdvancedAll(next, rest);
      assert AdvancedAll(s, stamps) == r;
      forall k | 0 <= k < |s.rows| && !(c <= k < c + |stamps|)
        ensures r.rows[k] == s.rows[k]
      {
        assert r.rows[k] == next.rows[k];
      }
    }
  }

  /** Advancing once per row from the first row stamps every row, in order,
      and leaves the pointer past the end, where a further advance changes
      nothing. */
  lemma AdvanceEveryRow(s: Session, stamps: seq<string>, stamp: string)
    requires s.hasPlayer && s.currentRow == 0 && |stamps| == |s.rows|
    ensures AdvancedAll(s, stamps).currentRow == |s.rows|
    ensures forall k :: 0 <= k < |s.rows| ==> AdvancedAll(s, stamps).rows[k].ts == stamps[k]
    ensures Advanced(AdvancedAll(s, stamps), stamp) == AdvancedAll(s, stamps)
  {
    forall k | 0 <= k < |s.rows|
      ensures AdvancedAll(s, stamps).rows[k].ts == stamps[k]
    {
      AdvanceRun(s, stamps, k);
    }
  }

  /** The final-timestamp guard: asking twice for the same length appends
      at most one row. */
  lemma FinalTimestampOnce(s: Session, length: int)
    ensures WithFinalTimestamp(WithFinalTimestamp(s, length), length) == WithFinalTimestamp(s, length)
  {
  }

  /** A repeated end-of-track signal adds nothing the first did not. */
  lemma FinishedOnce(s: Session, length: int)
    ensures Finished(Finished(s, length), length) == Finished(s, length)
  {
    FinalTimestampOnce(s, length);
  }

  /** Since the guard compares text, a last row stamped at player time `t`
      suppresses the marker exactly when `t` falls in the same hundredth of
      a second as the track length. */
  lemma FinalGuardByHundredths(s: Session, length: int, t: nat)
    requires |s.rows| > 0 && length > 0 && s.rows[|s.rows| - 1].ts == Format(t)
    ensures WithFinalTimestamp(s, length) == s <==> t / 10 == length / 10
  {
    FormatSameCentisecond(t, length);
  }
}
