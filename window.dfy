/** The lyric window (`LyricWindow`, main.py:18-330) as a class whose
    commands update its fields in place: the table rows, the row pointer
    `current_row`, the `add_end_timestamp` switch and whether a player is
    attached. Each command is proved to leave exactly the state the
    matching function of module Engine describes, so what is proved there
    about sessions holds for the window. The player's clock is a parameter
    and seeks are returned. */
module Window {
  import opened Options
  import opened Text
  import opened Timestamp
  import opened Lyrics
  import opened Engine
  import opened Lrc

  class LyricWindow {
    var rows: seq<Row>
    var currentRow: nat
    var addEndTimestamp: bool
    var hasPlayer: bool

    /** The window's timing state as a value. */
    function State(): Session
      reads this
    {
      Session(rows, currentRow, addEndTimestamp, hasPlayer)
    }

    /** The pointer stays within the table, and the table stays empty until
        a session (and with it a player) has been loaded. */
    predicate Valid()
      reads this
    {
      Engine.Valid(State()) && (!hasPlayer ==> rows == [])
    }

    /** `__init__` (main.py:19-93): an empty table, the pointer at row 0,
        the final timestamp switched on and no player. */
    constructor ()
      ensures Valid()
      ensures State() == Session([], 0, true, false)
    {
      rows := [];
      currentRow := 0;
      addEndTimestamp := true;
      hasPlayer := false;
    }

    /** `load_session` (main.py:128-152) with `load_txt` (main.py:172-186)
        for a lyric file of the given lines: the table is refilled row by
        row, a player is attached and the pointer returns to row 0. */
    method LoadSession(lines: seq<string>)
      modifies this
      ensures Valid()
      ensures State() == Loaded(old(State()), lines)
    {
      var table := LoadTxt(lines);
      rows := table;
      hasPlayer := true;
      currentRow := 0;
    }

    /** `set_current_row` (main.py:252-254): a click on a cell of row `row`. */
    method SetCurrentRow(row: nat)
      requires Valid() && row < |rows|
      modifies this
      ensures Valid()
      ensures State() == WithCurrentRow(old(State()), row)
    {
      currentRow := row;
    }

    /** `advance_row` (main.py:256-271) with the player at `time`
        milliseconds. */
    method AdvanceRow(time: nat)
      requires Valid()
      modifies this
      ensures Valid()
      ensures State() == Advanced(old(State()), Format(time))
    {
      if !hasPlayer || currentRow >= |rows| {
        return;
      }
      var timestamp := Format(time);
      rows := rows[currentRow := Row(timestamp, rows[currentRow].lyric)];
      currentRow := currentRow + 1;
    }

    /** `retime_previous_row` (main.py:273-277). */
    method RetimePreviousRow()
      requires Valid()
      modifies this
      ensures Valid()
      ensures State() == Retimed(old(State()))
    {
      if currentRow > 0 {
        currentRow := currentRow - 1;
        rows := rows[currentRow := Row(Unset, rows[currentRow].lyric)];
      }
    }

    /** `toggle_end_timestamp` (main.py:224-227). */
    method ToggleEndTimestamp()
      requires Valid()
      modifies this
      ensures Valid()
      ensures State() == Toggled(old(State()))
    {
      addEndTimestamp := !addEndTimestamp;
    }

    /** `add_final_timestamp` (main.py:229-248) for a track of `length`
        milliseconds; it asks the player for the length, so a player must
        be attached. */
    method AddFinalTimestamp(length: int)
      requires Valid() && hasPlayer
      modifies this
      ensures Valid()
      ensures State() == WithFinalTimestamp(old(State()), length)
    {
      if length <= 0 {
        return;
      }
      var timestamp := Format(length);
      var lastRow := |rows| - 1;
      if lastRow >= 0 && rows[lastRow].ts == timestamp {
        return;
      }
      rows := rows + [Row(timestamp, "")];
    }

    /** `song_finished` (main.py:302-310) at the end of a track of `length`
        milliseconds; with a player attached it ends by seeking to 0. */
    method SongFinished(length: int) returns (seek: Option<nat>)
      requires Valid()
      modifies this
      ensures Valid()
      ensures State() == Finished(old(State()), length)
      ensures seek == if old(hasPlayer) then Some(0) else None
    {
      if !hasPlayer {
        return None;
      }
      if addEndTimestamp {
        AddFinalTimestamp(length);
      }
      seek := Some(0);
    }

    /** `rewind_5s` (main.py:289-291) with the player at `time`: the seek it
        asks for, if a player is attached. */
    method Rewind5s(time: int) returns (seek: Option<nat>)
      ensures hasPlayer <==> seek.Some?
      ensures seek.Some? ==> seek.value == RewindTarget(time)
    {
      if hasPlayer {
        seek := Some(RewindTarget(time));
      } else {
        seek := None;
      }
    }

    /** `replay_line` (main.py:293-300): what it does to the player. Before
        any session is loaded the pointer is at row 0, so a seek always has
        a player to go to. */
    method ReplayLine() returns (r: Replay)
      requires Valid()
      ensures r == ReplayTarget(State())
      ensures r != Stay ==> hasPlayer
    {
      if currentRow == 0 {
        return Stay;
      }
      var ts := rows[currentRow - 1].ts;
      var ms := Parse(ts);
      if ms.None? {
        return Raises;
      }
      r := SeekTo(ms.value);
    }

    /** `export_lrc` (main.py:314-330) when the save dialog returns `path`
        (empty when cancelled): nothing for an empty table or a cancelled
        dialog, otherwise the `[ts]lyric` lines of the rows, in order,
        joined by newlines. */
    method ExportLrc(path: string) returns (file: Option<LrcFile>)
      ensures file.Some? <==> |rows| > 0 && path != ""
      ensures file.Some? ==> file.value == LrcFile(path, LrcText(rows))
    {
      if |rows| == 0 || path == "" {
        return None;
      }
      var lines: seq<string> := [];
      var row := 0;
      while row < |rows|
        invariant 0 <= row <= |rows|
        invariant |lines| == row && forall k :: 0 <= k < row ==> lines[k] == LrcLine(rows[k])
      {
        var ts := rows[row].ts;
        var lyric := rows[row].lyric;
        lines := lines + ["[" + ts + "]" + lyric];
        row := row + 1;
      }
      assert lines == LrcLines(rows);
      file := Some(LrcFile(path, Join(lines, '\n')));
    }
  }
}
