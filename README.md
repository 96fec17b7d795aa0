# LRC Maker timing core in Dafny

LRC Maker (`main.py`) is a desktop tool for timing song lyrics. You pick
a folder. It pairs each lyric text file with the audio files whose names
contain, or are contained in, the lyric file's name. It loads the
non-blank, stripped lines of the chosen lyric file into a two-column
table of (time, lyric) rows, each time starting at the unset text
`00:00.00`. While the song plays, a row pointer moves through the table:

- Space stamps the current row with the player's time as `MM:SS.CC` and
  moves the pointer down.
- Backspace steps back and resets that row's time.
- `,` seeks five seconds back.
- `.` replays from the previous row's time.

When the track ends, a row holding the track length can be appended.
The table exports as an LRC file made of `[MM:SS.CC]lyric` lines.

The model has these modules:

- `Text`: the Python string operations the program relies on
  (`split`, `join`, `in`, `endswith`, `lower`), and a generic
  concatenating map (`FlatMap`) for list-building loops.
- `Timestamp`: the `MM:SS.CC` formatting formula and the parsing formula
  of `replay_line`, with the round trip between them.
- `Lyrics`: `str.strip` and the loading of a lyric file into rows.
- `FolderScan`: `scan_folder` over a directory listing given as a
  sequence of names.
- `Lrc`: the text `export_lrc` writes, and a reader for it used to state
  what the export preserves.
- `Engine`: the window's timing state as a value (`Session`), with one
  function per command and the lemmas about command sequences.
- `Window`: the window as a class, `LyricWindow`. Its fields are updated
  in place. Each command is a method proved to leave exactly the state
  the matching `Engine` function gives.

The media player appears only as whether one is attached. Its clock and
track length are method parameters. The seeks it would be asked to make
are returned values.

The model follows the code in these behaviours:

- A lyric file of blank lines loads as an empty table; it is not
  rejected.
- "Unset" is the text `00:00.00` in the time cell, not a missing value.
  `Timestamp.UnsetIsZero` shows it is the formatted time zero.
- An export of an empty table does nothing. It does not fail.
- The replay parser does not check field ranges (seconds below 60,
  hundredths below 100). Where Python would raise, `Engine.ReplayTarget`
  yields `Raises`.

## Model

| member | source | states |
|---|---|---|
| Text.Split | main.py:297-298 | `str.split` with one separator gives at least one piece, and no piece contains the separator |
| Text.Join | main.py:330 | `"\n".join(lines)`; stated by SplitJoin and JoinSplit |
| Text.SplitJoin | main.py:330 | splitting the newline-joined text of separator-free lines gives back exactly those lines |
| Text.JoinSplit | main.py:297 | joining the pieces of a split restores the text |
| Text.Lower | main.py:157-164 | `lower()` maps each character on its own, keeping the length |
| Text.Contains | main.py:165 | Python's `in` on strings; stated by ContainsAt |
| Text.EndsWith | main.py:157-158 | `str.endswith`; the extension tests built on it are IsLyricName and IsAudioName |
| Text.ContainsAt | main.py:165 | the substring test holds exactly when the needle starts at some position of the text |
| Timestamp.Decimal | main.py:264 | `str(n)` is a run of digits that reads back as `n`; it is one digit exactly when `n < 10`, and starts with '0' only for `n == 0` |
| Timestamp.NumeralCanonical | main.py:264 | a numeral without a leading zero is exactly `str()` of its value, so the contracts of `Decimal` and `Pad2` fix their text |
| Timestamp.NumeralPositive | main.py:264 | a numeral not starting with '0' has a positive value |
| Timestamp.Pad2 | main.py:264 | `{n:02}` is a numeral reading back as `n`, at least two characters long, exactly two when `n < 100`; it starts with '0' exactly when `n < 10`, and from 10 on it is `str(n)` |
| Timestamp.Format | main.py:261-264 | `f"{minutes:02}:{seconds:02}.{hundredths:02}"` of the truncating field formulas; its meaning is stated by FormatFields, ParseFormat, FormatSameCentisecond and FormatCharacters |
| Timestamp.Parse | main.py:296-299 | the replay formula yields a whole number of hundredths (a multiple of 10 ms) when it succeeds |
| Timestamp.ParseShape | main.py:297-299 | the replay formula succeeds exactly on text made of three numerals separated by ':' and '.'; on any other text `replay_line` raises |
| Timestamp.FormatFields | main.py:261-264 | a formatted time is `m:s.h` with three numerals: minutes `ms / 60000` (at least two digits, with a leading '0' exactly when below 10), seconds `< 60` and hundredths `< 100` (exactly two digits each) |
| Timestamp.SplitFields | main.py:297-298 | a text shaped `m:s.h` with digit fields splits into `[m, s.h]` at ':' and into `[s, h]` at '.' |
| Timestamp.NumeralValue | main.py:299 | `int()` of a run of digits, read most significant digit first; stated by ParseFields, Decimal and NumeralCanonical |
| Timestamp.ParseFields | main.py:296-299 | the replay formula reads `m:s.h` as `(m * 60 + s) * 1000 + h * 10` |
| Timestamp.FieldsOfCentiseconds | main.py:261-263 | each of the three fields depends only on the time in whole hundredths (`ms / 10`) |
| Timestamp.CentisecondsOfFields | main.py:299 | recombining the three fields of `ms` gives `ms - ms % 10` |
| Timestamp.ParseFormat | main.py:296-299 | round trip: parsing the formatted time of `ms` gives `ms - ms % 10`, so only the sub-hundredth part is lost |
| Timestamp.FormatSameCentisecond | main.py:261-264 | two times format to the same text exactly when they fall in the same hundredth of a second |
| Timestamp.FormatTruncated | main.py:261-264 | formatting the time cut to whole hundredths gives the same text as formatting the time itself |
| Timestamp.Unset | main.py:178 | the unset time text `"00:00.00"` (also written by main.py:277); stated by UnsetIsZero |
| Timestamp.UnsetIsZero | main.py:178 | the unset text `00:00.00` is the formatted time 0 |
| Timestamp.FormatCharacters | main.py:264 | a formatted time holds only digits, ':' and '.' |
| Lyrics.IsSpace | main.py:174 | the white-space code points of `str.isspace` that `strip` removes; stated by TrimStart and TrimEnd |
| Lyrics.TrimStart | main.py:174 | `lstrip` returns a suffix of the line; everything it removes is white space, and what remains does not start with white space |
| Lyrics.TrimEnd | main.py:174 | `rstrip` returns a prefix of the line; everything it removes is white space, and what remains does not end with white space |
| Lyrics.Strip | main.py:174 | `l.strip()` is `rstrip` after `lstrip`; its meaning is stated by TrimStart, TrimEnd and StripEmpty |
| Lyrics.StripEmpty | main.py:174 | a stripped line is empty exactly when the line is all white space |
| Lyrics.NonBlankLines | main.py:174 | the comprehension `[l.strip() for l in lines if l.strip()]`; stated by NonBlankLinesBounds, LoadRowsLine and LoadRowsAppend |
| Lyrics.NonBlankLinesBounds | main.py:174 | the comprehension keeps at most one lyric per line, and no kept lyric is empty |
| Lyrics.LoadRows | main.py:174-179 | loading gives at most one row per line; every row has the unset time and a non-empty lyric |
| Lyrics.LoadTxt | main.py:172-179 | `load_txt` leaves exactly the rows `LoadRows` describes |
| Lyrics.FillTable | main.py:176-179 | the `setItem` loop makes row i hold the unset time and lyric i |
| Lyrics.SeedRows | main.py:176-179 | the table the `setItem` loop fills, one unset-time row per lyric; stated by FillTable and SeedRowsAppend |
| Lyrics.SeedRowsAppend | main.py:177-179 | seeding rows is done lyric by lyric: seeding two runs of lyrics concatenates their rows |
| Lyrics.LoadRowsAppend | main.py:174-179 | rows keep file order: loading two parts of a file gives the rows of the first followed by those of the second |
| Lyrics.LoadRowsLine | main.py:174-179 | a single line yields no row when it is blank, and otherwise one row holding the stripped line with the unset time |
| Lyrics.LoadRowsEmpty | main.py:174-176 | the table is empty exactly when every line of the file is blank |
| FolderScan.IsLyricName | main.py:157 | `f.lower().endswith(".txt")`; the filter it drives is stated by FilterMember and MatchesMember |
| FolderScan.IsAudioName | main.py:158 | `f.lower().endswith((".mp3", ".wav", ".flac"))`; the filter it drives is stated by FilterMember and MatchesMember |
| FolderScan.Filter | main.py:157-158 | the two filtering comprehensions; stated by FilterMember |
| FolderScan.FilterMember | main.py:157-158 | the extension filters keep exactly the listed names that pass the test |
| FolderScan.StripExtension | main.py:162 | `os.path.splitext(name)[0]`; stated by StripExtensionCut and StripExtensionOf |
| FolderScan.StripExtensionCut | main.py:162 | `splitext(name)[0]` is the whole name, or the text before its last '.' provided that text is not dots alone |
| FolderScan.StripExtensionOf | main.py:162 | a name `stem.ext` with a dot-free extension loses exactly `.ext`, unless the stem is dots alone (`.txt`), when nothing is removed |
| FolderScan.BaseKey | main.py:162 | `os.path.splitext(f)[0].lower()`; stated by BaseKeyOf |
| FolderScan.BaseKeyOf | main.py:162 | the key of `stem.ext` is the lower-cased stem |
| FolderScan.KeysRelated | main.py:165 | `txt_base in audio_base or audio_base in txt_base`; `in` is stated by Text.ContainsAt |
| FolderScan.Related | main.py:162-165 | the pairing test on two file names; stated by RelatedStems |
| FolderScan.RelatedStems | main.py:162-165 | two files `stem.ext` are paired exactly when one lower-cased stem contains the other, whatever the extensions |
| FolderScan.PathJoin | main.py:166 | POSIX `os.path.join(folder, name)`: the name alone when absolute, otherwise the folder, a '/' unless the folder is empty or already ends in one, then the name |
| FolderScan.ScanFolder | main.py:156-168 | the nested loops return exactly `Matches`: lyric-file-major, then audio-file order |
| FolderScan.PairAudioFiles | main.py:162-166 | the inner loop appends, in audio-file order, one joined pair per audio file whose base is related to the lyric file's |
| FolderScan.PairsForNext | main.py:164-166 | one more audio file adds its pair exactly when the two lower-cased bases contain one another |
| FolderScan.PairsForMember | main.py:163-166 | the inner loop yields a pair exactly when it joins the lyric file with a listed audio file related to it |
| FolderScan.AllPairsMember | main.py:161-166 | the two loops yield a pair exactly when it joins a listed lyric file and a listed audio file that are related |
| FolderScan.Matches | main.py:156-168 | what `scan_folder` returns; stated by MatchesMember, AllPairsAppend and PairsForAppend, and computed by ScanFolder |
| FolderScan.MatchesMember | main.py:156-168 | `scan_folder` returns a pair exactly when it joins a `.txt` entry and a `.mp3`/`.wav`/`.flac` entry (any case) whose extension-less, lower-cased names contain one another |
| FolderScan.AllPairsAppend | main.py:161-166 | lyric files contribute their pairs in listing order, with no reordering or removal of duplicates |
| FolderScan.PairsForAppend | main.py:163-166 | for one lyric file, audio files contribute their pairs in listing order |
| Lrc.LrcLine | main.py:327 | `f"[{ts}]{lyric}"`; stated by ParseLrcLine and ExampleLines |
| Lrc.LrcText | main.py:330 | `"\n".join(lines)` of the row lines; stated by ParseLrcText and ExportExample |
| Lrc.ParseLrcLine | main.py:327 | a `[ts]lyric` line whose time holds no ']' reads back to its row |
| Lrc.LrcLines | main.py:323-327 | the export loop's `lines` list, one `[ts]lyric` line per row; stated by ParseLrcLines |
| Lrc.ParseLrcLines | main.py:323-327 | the export lines, one per row in table order, read back to the rows |
| Lrc.ParseLrcText | main.py:323-330 | the exported text splits into exactly one line per row (so there is no trailing newline) and reads back to the rows |
| Lrc.ParseStampedText | main.py:323-330 | a table whose time cells hold formatted times exports to a text that reads back to the table |
| Lrc.ExampleLines | main.py:327 | three rows give the three lines `[00:00.00]a`, `[00:05.50]b`, `[01:02.30]c` |
| Lrc.ExportExample | main.py:330 | those three rows export to those lines joined by newlines, with no trailing newline |
| Engine.Loaded | main.py:128-152 | loading replaces the rows with those of the lyric file, attaches a player, and returns the pointer to row 0 |
| Engine.Advanced | main.py:256-267 | with a player and the pointer on a row, that row's time becomes the stamp and the pointer moves down by one; every other row and every lyric is unchanged; otherwise nothing changes; the pointer stays within the table |
| Engine.Retimed | main.py:273-277 | above row 0 the pointer moves up one row and that row's time becomes the unset text, and nothing else changes; at row 0 nothing changes |
| Engine.WithCurrentRow | main.py:252-254 | clicking a row moves the pointer there and changes nothing else |
| Engine.Toggled | main.py:224-227 | the final-timestamp switch flips and nothing else changes |
| Engine.WithFinalTimestamp | main.py:229-248 | it is a no-op exactly when the length is not positive or the last row's time text equals the formatted length; otherwise it appends exactly the row (formatted length, "") |
| Engine.Finished | main.py:302-307 | without a player or with the switch off nothing changes; otherwise the final timestamp is added; existing rows and the pointer are kept and at most one row is appended |
| Engine.RewindTarget | main.py:291 | the seek target is never negative and is `time - 5000` when that is positive, 0 otherwise |
| Engine.ReplayTarget | main.py:293-300 | at row 0 the command does nothing; otherwise it seeks to the parsed time of the previous row, a multiple of 10 ms, or raises exactly when that text does not parse |
| Engine.UndoAdvance | main.py:256-277 | advancing and then retiming restores the pointer and leaves the stamped row at the unset text; nothing else changes |
| Engine.ReplayAfterAdvance | main.py:293-300 | replaying right after an advance at player time `ms` seeks to `ms - ms % 10` |
| Engine.AdvancedAll | main.py:256-267 | a run of advances keeps the lyrics and the row count, and moves the pointer once per advance until it passes the last row |
| Engine.AdvanceRun | main.py:256-267 | advancing n times from row c stamps row c + k with the k-th stamp |
| Engine.AdvanceKeeps | main.py:256-267 | a run of advances leaves every row outside the stamped range unchanged |
| Engine.AdvanceEveryRow | main.py:256-267 | advancing once per row from row 0 stamps every row in order; a further advance changes nothing |
| Engine.FinalTimestampOnce | main.py:239-243 | adding the final timestamp twice for the same length appends at most one row |
| Engine.FinishedOnce | main.py:302-307 | a repeated end-of-track signal adds nothing the first did not |
| Engine.FinalGuardByHundredths | main.py:241-242 | a last row stamped at time t blocks the marker exactly when t and the length fall in the same hundredth of a second |
| Window.LyricWindow.constructor | main.py:19-88 | a new window has an empty table, the pointer at row 0, the final-timestamp switch on and no player |
| Window.LyricWindow.LoadSession | main.py:128-152 | the window's state becomes `Engine.Loaded` of its old state |
| Window.LyricWindow.SetCurrentRow | main.py:252-254 | the window's state becomes `Engine.WithCurrentRow` of its old state |
| Window.LyricWindow.AdvanceRow | main.py:256-271 | the window's state becomes `Engine.Advanced` of its old state with the formatted player time |
| Window.LyricWindow.RetimePreviousRow | main.py:273-277 | the window's state becomes `Engine.Retimed` of its old state |
| Window.LyricWindow.ToggleEndTimestamp | main.py:224-227 | the window's state becomes `Engine.Toggled` of its old state |
| Window.LyricWindow.AddFinalTimestamp | main.py:229-248 | the window's state becomes `Engine.WithFinalTimestamp` of its old state |
| Window.LyricWindow.SongFinished | main.py:302-310 | the window's state becomes `Engine.Finished` of its old state, and a seek to 0 is requested exactly when a player is attached |
| Window.LyricWindow.Rewind5s | main.py:289-291 | a seek is requested exactly when a player is attached, and it goes to `RewindTarget` of the player time |
| Window.LyricWindow.ReplayLine | main.py:293-300 | the command does what `Engine.ReplayTarget` says, and it seeks or raises only when a player is attached |
| Window.LyricWindow.ExportLrc | main.py:314-330 | nothing is written when the table is empty or no path was chosen; otherwise the newline-joined `[ts]lyric` lines of the rows are written to that path |

## Left out

- Widgets, layout, keyboard shortcuts, the seek slider, the time label and its timer (`update_time_label`, `seek_position`, main.py:18-93 and 196-222): screen plumbing with no effect on the table.
- Cell editing (`enter_edit_mode`, main.py:190-192): editing a lyric cell by hand is not modelled, so lyrics change only through loading.
- The VLC player (construction, `play`, `pause`, `stop`, `toggle_play`, the end-of-track event and its `QTimer.singleShot` redispatch; main.py:135-149, 281-287, 309): a foreign library and a thread hand-off. A player is modelled only as attached or not.
- The player's `get_time` and `get_length` are method parameters. `set_time` becomes a returned seek target.
- Window.LyricWindow.AdvanceRow: takes the player time as a `nat`; VLC's -1 for "no media" is not modelled.
- Window.LyricWindow.SongFinished: the player's `stop()` is not modelled; only the seek to 0 is returned.
- Window.LyricWindow.AddFinalTimestamp: requires an attached player, since the source asks the player for the length. Its only caller, `song_finished`, checks this first.
- Folder and song selection (`select_folder`, `select_song_from_current_folder`, main.py:97-125), and the `folder`, `base_name` and `cached_matches` fields: dialogs and bookkeeping. Window.LyricWindow.ExportLrc takes the save-dialog result as a parameter, an empty path meaning cancelled, so the default path built from `base_name` is not modelled.
- The window title set by `load_session` (main.py:131-133): display only.
- File and directory I/O (`open`, `readlines`, `os.listdir`, `write`): the lyric file is a sequence of lines, the listing a sequence of entry names, and the export a returned (path, text) value. I/O errors are not modelled.
- FolderScan.StripExtension: follows `os.path.splitext` for names without '/', which directory entries are.
- Text.Lower: lower-cases ASCII letters only; Python's full Unicode case mapping is not modelled.
- Timestamp.Parse: accepts only non-empty runs of ASCII digits as `int()` input. Python also accepts surrounding white space, a sign, '_' between digits and non-ASCII digits. Time cells cannot be edited by hand (only the lyric column is editable), so they only ever hold formatted times or the unset text, and those are plain digit runs.
- Engine.ReplayTarget: keeps a `Raises` outcome for texts that do not parse. The invariant that every time cell holds a formatted time is not carried through the class. It is instead stated by Lrc.ParseStampedText and Engine.ReplayAfterAdvance.
- Engine.Advanced: takes the time text already formatted. Window.LyricWindow.AdvanceRow passes `Format(time)`.
