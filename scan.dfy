/** `scan_folder` (main.py:156-168): from one directory listing, every
    (lyric file, audio file) pair whose extension-stripped, lower-cased
    names contain one another, lyric-file-major, with no ranking and no
    de-duplication. The listing is an input sequence of entry names. */
module FolderScan {
  import opened Text

  /** `f.lower().endswith(".txt")`. */
  predicate IsLyricName(name: string)
  {
    EndsWith(Lower(name), ".txt")
  }

  /** `f.lower().endswith((".mp3", ".wav", ".flac"))`. */
  predicate IsAudioName(name: string)
  {
    var lower := Lower(name);
    EndsWith(lower, ".mp3") || EndsWith(lower, ".wav") || EndsWith(lower, ".flac")
  }

  /** The list comprehension `[f for f in names if keep(f)]`. */
  function Filter(names: seq<string>, keep: string -> bool): (r: seq<string>)
    ensures |r| <= |names|
  {
    if |names| == 0 then []
    else (if keep(names[0]) then [names[0]] else []) + Filter(names[1..], keep)
  }

  /** Filter keeps exactly the names that pass the test. */
  lemma {:induction false} FilterMember(names: seq<string>, keep: string -> bool, x: string)
    ensures x in Filter(names, keep) <==> x in names && keep(x)
  {
    if |names| > 0 {
      FilterMember(names[1..], keep, x);
      assert names == [names[0]] + names[1..];
    }
  }

  /** Position of the last occurrence of `c` in `s`. */
  function LastIndexOf(s: string, c: char): (i: nat)
    requires c in s
    ensures i < |s| && s[i] == c && c !in s[i + 1..]
    decreases |s|
  {
    if s[|s| - 1] == c then |s| - 1
    else
      var i := LastIndexOf(s[..|s| - 1], c);
      assert s[i + 1..] == s[..|s| - 1][i + 1..] + [s[|s| - 1]];
      i
  }

  /** Every character of `s` is a '.'. */
  predicate AllDots(s: string)
  {
    |s| == 0 || (s[0] == '.' && AllDots(s[1..]))
  }

  /** `os.path.splitext(name)[0]` for a directory entry (which holds no
      '/'): the text before the last '.', unless only dots precede it, in
      which case the name has no extension. */
  function StripExtension(name: string): string
  {
    if '.' !in name then name
    else
      var d := LastIndexOf(name, '.');
      if AllDots(name[..d]) then name else name[..d]
  }

  /** Either the name has no extension and is kept whole, or the base is
      the name up to its last '.', and that part is not dots alone. */
  lemma StripExtensionCut(name: string)
    ensures var base := StripExtension(name);
      base <= name &&
      (base == name || (name[|base|] == '.' && '.' !in name[|base| + 1..] && !AllDots(base)))
  {
  }

  /** A name made of a stem, a '.' and a dot-free extension loses exactly
      the '.' and the extension, unless the stem is dots alone (".txt",
      "..txt"), in which case nothing is removed. */
  lemma StripExtensionOf(stem: string, ext: string)
    requires '.' !in ext
    ensures StripExtension(stem + "." + ext) == if AllDots(stem) then stem + "." + ext else stem
  {
    var name := stem + "." + ext;
    assert name[|stem|] == '.';
    var d := LastIndexOf(name, '.');
    forall j | |stem| < j < |name|
      ensures name[j] != '.'
    {
      assert name[j] == ext[j - |stem| - 1];
    }
    forall j | d < j < |name|
      ensures name[j] != '.'
    {
      assert name[j] == name[d + 1..][j - d - 1];
    }
    assert d == |stem|;
    assert name[..d] == stem;
  }

  /** The text `scan_folder` compares: `os.path.splitext(f)[0].lower()`. */
  function BaseKey(name: string): string
  {
    Lower(StripExtension(name))
  }

  /** `txt_base in audio_base or audio_base in txt_base`. */
  predicate KeysRelated(txtBase: string, audioBase: string)
  {
    Contains(audioBase, txtBase) || Contains(txtBase, audioBase)
  }

  /** Whether `scan_folder` pairs a lyric file with an audio file. */
  predicate Related(txt: string, audio: string)
  {
    KeysRelated(BaseKey(txt), BaseKey(audio))
  }

  /** The key of `stem.ext` is the lower-cased stem. */
  lemma BaseKeyOf(stem: string, ext: string)
    requires '.' !in ext && !AllDots(stem)
    ensures BaseKey(stem + "." + ext) == Lower(stem)
  {
    StripExtensionOf(stem, ext);
  }

  /** A lyric file and an audio file, each a stem with one extension, are
      paired exactly when one lower-cased stem contains the other; the
      extensions play no part. */
  lemma RelatedStems(txtStem: string, txtExt: string, audioStem: string, audioExt: string)
    requires '.' !in txtExt && !AllDots(txtStem)
    requires '.' !in audioExt && !AllDots(audioStem)
    ensures Related(txtStem + "." + txtExt, audioStem + "." + audioExt) <==>
      Contains(Lower(audioStem), Lower(txtStem)) || Contains(Lower(txtStem), Lower(audioStem))
  {
    BaseKeyOf(txtStem, txtExt);
    BaseKeyOf(audioStem, audioExt);
  }

  /** `os.path.join(folder, name)` (POSIX). */
  function PathJoin(folder: string, name: string): string
  {
    if |name| > 0 && name[0] == '/' then name
    else if folder == "" || folder[|folder| - 1] == '/' then folder + name
    else folder + "/" + name
  }

  /** The pair the inner loop appends for one audio file, if any. */
  function PairIfRelated(folder: string, txt: string): string -> seq<(string, string)>
  {
    audio => if Related(txt, audio) then [(PathJoin(folder, txt), PathJoin(folder, audio))] else []
  }

  /** The pairs the inner loop appends for one lyric file. */
  function PairsFor(folder: string, txt: string, audios: seq<string>): seq<(string, string)>
  {
    FlatMap(PairIfRelated(folder, txt), audios)
  }

  /** The inner loop, as a function of the lyric file. */
  function PairsWith(folder: string, audios: seq<string>): string -> seq<(string, string)>
  {
    txt => PairsFor(folder, txt, audios)
  }

  /** The pairs both loops append, lyric file by lyric file. */
  function AllPairs(folder: string, txts: seq<string>, audios: seq<string>): seq<(string, string)>
  {
    FlatMap(PairsWith(folder, audios), txts)
  }

  /** What `scan_folder` returns for a listing. */
  function Matches(folder: string, entries: seq<string>): seq<(string, string)>
  {
    AllPairs(folder, Filter(entries, IsLyricName), Filter(entries, IsAudioName))
  }

  method ScanFolder(folder: string, entries: seq<string>) returns (matches: seq<(string, string)>)
    ensures matches == Matches(folder, entries)
  {
    var txtFiles := Filter(entries, IsLyricName);
    var audioFiles := Filter(entries, IsAudioName);
    matches := [];
    var i := 0;
    while i < |txtFiles|
      invariant 0 <= i <= |txtFiles|
      invariant matches == AllPairs(folder, txtFiles[..i], audioFiles)
    {
      var pairs := PairAudioFiles(folder, txtFiles[i], audioFiles);
      assert pairs == PairsWith(folder, audioFiles)(txtFiles[i]);
      matches := matches + pairs;
      FlatMapStep(PairsWith(folder, audioFiles), txtFiles, i);
      i := i + 1;
    }
    assert txtFiles[..i] == txtFiles;
  }

  /** The inner loop of `scan_folder`: the pairs of one lyric file with the
      audio files, in audio-file order. */
  method PairAudioFiles(folder: string, txt: string, audioFiles: seq<string>) returns (pairs: seq<(string, string)>)
    ensures pairs == PairsFor(folder, txt, audioFiles)
  {
    var txtBase := BaseKey(txt);
    pairs := [];
    var j := 0;
    while j < |audioFiles|
      invariant 0 <= j <= |audioFiles|
      invariant pairs == PairsFor(folder, txt, audioFiles[..j])
    {
      var audio := audioFiles[j];
      var audioBase := BaseKey(audio);
      if KeysRelated(txtBase, audioBase) {
        pairs := pairs + [(PathJoin(folder, txt), PathJoin(folder, audio))];
      }
      PairsForNext(folder, txt, audioFiles, j);
      j := j + 1;
    }
    assert audioFiles[..j] == audioFiles;
  }

  /** One more audio file extends the inner loop's pairs by its pair, if
      the base names are related. */
  lemma PairsForNext(folder: string, txt: string, audios: seq<string>, j: nat)
    requires j < |audios|
    ensures PairsFor(folder, txt, audios[..j + 1]) == PairsFor(folder, txt, audios[..j]) +
      (if KeysRelated(BaseKey(txt), BaseKey(audios[j])) then [(PathJoin(folder, txt), PathJoin(folder, audios[j]))] else [])
  {
    FlatMapStep(PairIfRelated(folder, txt), audios, j);
  }

  /** The inner loop pairs one lyric file with exactly the related audio
      files. */
  lemma PairsForMember(folder: string, txt: string, audios: seq<string>, p: (string, string))
    ensures p in PairsFor(folder, txt, audios) <==>
      exists audio :: audio in audios && Related(txt, audio) && p == (PathJoin(folder, txt), PathJoin(folder, audio))
  {
    var f := PairIfRelated(folder, txt);
    FlatMapMember(f, audios, p);
    if p in PairsFor(folder, txt, audios) {
      var audio :| audio in audios && p in f(audio);
      assert Related(txt, audio) && p == (PathJoin(folder, txt), PathJoin(folder, audio));
    }
    if exists audio :: audio in audios && Related(txt, audio) && p == (PathJoin(folder, txt), PathJoin(folder, audio)) {
      var audio :| audio in audios && Related(txt, audio) && p == (PathJoin(folder, txt), PathJoin(folder, audio));
      assert p in f(audio);
    }
  }

  /** Both loops together pair exactly the related lyric and audio files. */
  lemma AllPairsMember(folder: string, txts: seq<string>, audios: seq<string>, p: (string, string))
    ensures p in AllPairs(folder, txts, audios) <==>
      exists txt, audio :: txt in txts && audio in audios && Related(txt, audio) &&
        p == (PathJoin(folder, txt), PathJoin(folder, audio))
  {
    var f := PairsWith(folder, audios);
    FlatMapMember(f, txts, p);
    if p in AllPairs(folder, txts, audios) {
      var txt :| txt in txts && p in f(txt);
      PairsForMember(folder, txt, audios, p);
      var audio :| audio in audios && Related(txt, audio) && p == (PathJoin(folder, txt), PathJoin(folder, audio));
    }
    if exists txt, audio :: txt in txts && audio in audios && Related(txt, audio) &&
        p == (PathJoin(folder, txt), PathJoin(folder, audio)) {
      var txt, audio :| txt in txts && audio in audios && Related(txt, audio) &&
        p == (PathJoin(folder, txt), PathJoin(folder, audio));
      PairsForMember(folder, txt, audios, p);
      assert p in f(txt);
    }
  }

  /** `scan_folder` returns a pair exactly when it joins a lyric file and an
      audio file of the listing whose base names contain one another. */
  lemma MatchesMember(folder: string, entries: seq<string>, p: (string, string))
    ensures p in Matches(folder, entries) <==>
      exists txt, audio :: txt in entries && audio in entries &&
        IsLyricName(txt) && IsAudioName(audio) && Related(txt, audio) &&
        p == (PathJoin(folder, txt), PathJoin(folder, audio))
  {
    AllPairsMember(folder, Filter(entries, IsLyricName), Filter(entries, IsAudioName), p);
    forall x
      ensures x in Filter(entries, IsLyricName) <==> x in entries && IsLyricName(x)
      ensures x in Filter(entries, IsAudioName) <==> x in entries && IsAudioName(x)
    {
      FilterMember(entries, IsLyricName, x);
      FilterMember(entries, IsAudioName, x);
    }
  }

  /** Lyric files contribute their pairs in listing order. */
  lemma AllPairsAppend(folder: string, txts1: seq<string>, txts2: seq<string>, audios: seq<string>)
    ensures AllPairs(folder, txts1 + txts2, audios) == AllPairs(folder, txts1, audios) + AllPairs(folder, txts2, audios)
  {
    FlatMapAppend(PairsWith(folder, audios), txts1, txts2);
  }

  /** For one lyric file, audio files contribute their pairs in listing
      order. */
  lemma PairsForAppend(folder: string, txt: string, audios1: seq<string>, audios2: seq<string>)
    ensures PairsFor(folder, txt, audios1 + audios2) == PairsFor(folder, txt, audios1) + PairsFor(folder, txt, audios2)
  {
    FlatMapAppend(PairIfRelated(folder, txt), audios1, audios2);
  }
}
