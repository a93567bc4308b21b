/** What the mirror makes of paths that are not numbered data files (daemon/mirror_engine.cpp:52-55, 227-286): TOF
    files, run logs, and names with no marker or half of one. */
module NameClasses {
  import opened Basics
  import opened Names

  /** The TOF directory, and a path that ends in it. */
  ghost predicate InTof(path: string) {
    || Contains(path, "/tof_data/")
    || exists base: string :: path == base + "/tof_data"
  }

  lemma TofPathIff(path: string)
    ensures IsTofPath(path) <==> InTof(path)
  {
    var dir: string := "/tof_data";
    if |path| >= 9 && path[|path| - 9..] == dir {
      assert path == path[..|path| - 9] + dir;
    }
    forall base: string | path == base + dir ensures |path| >= 9 && path[|path| - 9..] == dir {}
  }

  /** Every file below a TOF directory gets the TOF run, whatever its name looks like. */
  lemma TofFileIsUnranked(base: string, rest: string, disk: nat)
    ensures ParseFileMeta(base + "/tof_data/" + rest, disk) == FileMeta(UINT32_MAX, disk, 9, 0)
  {
    var dir: string := "/tof_data/";
    var path := base + dir + rest;
    assert path[|base|..|base| + |dir|] == dir;
    assert Occurs(path, dir, |base|);
    TofPathIff(path);
  }

  ghost predicate Unmarked(path: string) {
    !Contains(path, KNOWN_TRIGGER) && !Contains(path, KNOWN_PPS) && !Contains(path, KNOWN_LOG)
  }

  /** A path with no marker gets the TOF run too. */
  lemma UnmarkedFileIsUnranked(path: string, disk: nat)
    requires Unmarked(path) && !Contains(path, KNOWN_READOUT)
    ensures ParseFileMeta(path, disk) == FileMeta(UINT32_MAX, disk, 9, 0)
  {
  }

  lemma HalfName(path: string, at: nat, run: nat, e: nat)
    requires Occurs(path, KNOWN_READOUT, at) && forall k :: 0 <= k < at ==> !Occurs(path, KNOWN_READOUT, k)
    requires Digits(path, at + |KNOWN_READOUT|, e)
    requires run == Value(path[at + |KNOWN_READOUT|..e]) % TWO_TO_64 && run <= UINT32_MAX
    ensures ReadoutRun(path) == Some((run, e))
  {
    ParseUintIff(path, at + |KNOWN_READOUT|, run, e);
    assert Find(path, KNOWN_READOUT, 0) == Some(at);
  }

  /** A number behind the first readout marker that no underscore follows gives the run, but no rank. */
  lemma HalfReadoutNameIsUnranked(path: string, at: nat, run: nat, e: nat, disk: nat)
    requires !IsTofPath(path) && Unmarked(path)
    requires Occurs(path, KNOWN_READOUT, at) && forall k :: 0 <= k < at ==> !Occurs(path, KNOWN_READOUT, k)
    requires Digits(path, at + |KNOWN_READOUT|, e) && (e < |path| ==> path[e] != '_')
    requires run == Value(path[at + |KNOWN_READOUT|..e]) % TWO_TO_64 && run <= UINT32_MAX
    ensures ParseFileMeta(path, disk) == FileMeta(run, disk, 9, 0)
  {
    HalfName(path, at, run, e);
    NoOtherMarker(path, disk, run);
  }

  lemma NoOtherMarker(path: string, disk: nat, run: nat)
    requires Unmarked(path)
    ensures ParseOther(path, disk, run) == FileMeta(run, disk, 9, 0)
  {
  }

  // ---------------------------------------------------------------- run logs

  const LOG_DIR := "/config_logs"

  /** The log marker starts no earlier than behind the log directory. */
  lemma LogMarkerIsBehindDir(base: string, tail: string, k: int)
    requires !Contains(base, KNOWN_LOG) && Occurs(base + LOG_DIR + tail, KNOWN_LOG, k)
    ensures k >= |base| + |LOG_DIR|
  {
    var path := base + LOG_DIR + tail;
    var rest := LOG_DIR + tail;
    Assoc(base, LOG_DIR, tail);
    OccursAt(path, KNOWN_LOG, k, 0);
    OccursAt(path, KNOWN_LOG, k, 1);
    assert forall j :: |base| <= j < |base| + |LOG_DIR| ==> path[j] == LOG_DIR[j - |base|];
    if k + |KNOWN_LOG| <= |base| {
      OccursInPrefix(base, rest, KNOWN_LOG, k);
    } else if k < |base| {
      OccursAt(path, KNOWN_LOG, k, |base| - k);
    }
  }

  lemma LogMarkerIsFound(path: string, base: string, post: string)
    requires path == base + LOG_DIR + KNOWN_LOG + post && !Contains(base, KNOWN_LOG)
    ensures Find(path, KNOWN_LOG, 0) == Some(|base| + |LOG_DIR|)
  {
    forall k | Occurs(path, KNOWN_LOG, k) ensures k >= |base + LOG_DIR| {
      Assoc(base + LOG_DIR, KNOWN_LOG, post);
      LogMarkerIsBehindDir(base, KNOWN_LOG + post, k);
    }
    FindsMarker(base + LOG_DIR, KNOWN_LOG, post);
  }

  /** What the log names are made of. */
  predicate LogLetters(s: string) {
    'G' !in s && 'w' !in s && 'p' !in s && 'd' !in s
  }

  lemma DirHasLogLetters()
    ensures LogLetters(LOG_DIR) && LogLetters(KNOWN_LOG)
  {
  }

  lemma MarkersHaveOthers()
    ensures KNOWN_READOUT[1] == 'G' && KNOWN_TRIGGER[10] == 'w' && KNOWN_PPS[0] == 'p'
    ensures '/' !in KNOWN_READOUT && '/' !in KNOWN_TRIGGER && '/' !in KNOWN_PPS
  {
  }

  /** An ending that no number runs into and no TOF path ends in. */
  predicate LogEnding(ext: string) {
    LogLetters(ext) && ext != [] && !IsDigit(ext[0]) && ext[|ext| - 1] != 'a'
  }

  lemma EndingsAreLogEndings()
    ensures LogEnding(".json") && LogEnding("_storage.log")
  {
  }

  lemma DigitsHaveLogLetters(s: string)
    requires AllDigits(s)
    ensures LogLetters(s)
  {
  }

  /** The name of a run log: LOG_DIR, the marker, the run and an ending. */
  function LogName(base: string, run: nat, ext: string): string {
    base + LOG_DIR + KNOWN_LOG + Decimal(run) + ext
  }

  lemma LogTail(base: string, run: nat, ext: string)
    requires LogEnding(ext)
    ensures var tail := LOG_DIR + KNOWN_LOG + Decimal(run) + ext;
      && LogName(base, run, ext) == base + tail
      && LogLetters(tail) && |tail| >= 9 && tail[0] == '/' && tail[|tail| - 1] != 'a'
  {
    DirHasLogLetters();
    DigitsHaveLogLetters(Decimal(run));
    Assoc(base, LOG_DIR, KNOWN_LOG);
    Assoc(base, LOG_DIR + KNOWN_LOG, Decimal(run));
    Assoc(base, LOG_DIR + KNOWN_LOG + Decimal(run), ext);
  }

  ghost predicate PlainBase(base: string) {
    && !IsTofPath(base) && !Contains(base, KNOWN_READOUT)
    && Unmarked(base)
  }

  lemma OnlyLogMarker(base: string, tail: string)
    requires PlainBase(base) && LogLetters(tail) && |tail| >= 9 && tail[0] == '/' && tail[|tail| - 1] != 'a'
    ensures var path := base + tail;
      && !IsTofPath(path) && Find(path, KNOWN_READOUT, 0) == None
      && Find(path, KNOWN_TRIGGER, 0) == None && Find(path, KNOWN_PPS, 0) == None
  {
    MarkersHaveOthers();
    NotTof(base, tail, 5);
    Nowhere(base, tail, KNOWN_READOUT, 1);
    Nowhere(base, tail, KNOWN_TRIGGER, 10);
    Nowhere(base, tail, KNOWN_PPS, 0);
  }

  lemma LogNumberIsParsed(path: string, pre: string, run: nat, ext: string, e: nat)
    requires path == pre + Decimal(run) + ext && e == |pre| + |Decimal(run)|
    requires LogEnding(ext) && run <= UINT32_MAX
    ensures ParseUint(path, |pre|) == Some((run, e))
  {
    PrintedNumberIsParsed(path, pre, run, ext);
  }

  lemma RankedByLog(path: string, run: nat, at: nat, e: nat, disk: nat)
    requires !IsTofPath(path) && Find(path, KNOWN_READOUT, 0) == None
    requires Find(path, KNOWN_TRIGGER, 0) == None && Find(path, KNOWN_PPS, 0) == None
    requires Find(path, KNOWN_LOG, 0) == Some(at) && ParseUint(path, at + |KNOWN_LOG|) == Some((run, e))
    ensures ParseFileMeta(path, disk) == FileMeta(run, disk, 4, 0)
  {
  }

  lemma LogIsRanked(path: string, pre: string, run: nat, ext: string, at: nat, disk: nat)
    requires path == pre + Decimal(run) + ext && |pre| == at + |KNOWN_LOG|
    requires LogEnding(ext) && run <= UINT32_MAX && !IsTofPath(path)
    requires Find(path, KNOWN_READOUT, 0) == None && Find(path, KNOWN_TRIGGER, 0) == None
    requires Find(path, KNOWN_PPS, 0) == None && Find(path, KNOWN_LOG, 0) == Some(at)
    ensures ParseFileMeta(path, disk) == FileMeta(run, disk, 4, 0)
  {
    var e := |pre| + |Decimal(run)|;
    LogNumberIsParsed(path, pre, run, ext, e);
    RankedByLog(path, run, at, e, disk);
  }

  lemma LogIsParsed(base: string, run: nat, ext: string, disk: nat)
    requires run <= UINT32_MAX && LogEnding(ext) && PlainBase(base)
    ensures ParseFileMeta(LogName(base, run, ext), disk) == FileMeta(run, disk, 4, 0)
  {
    LogTail(base, run, ext);
    OnlyLogMarker(base, LOG_DIR + KNOWN_LOG + Decimal(run) + ext);
    LogMarkerStands(base, run, ext);
    LogIsRanked(LogName(base, run, ext), base + LOG_DIR + KNOWN_LOG, run, ext, |base| + |LOG_DIR|, disk);
  }

  lemma LogMarkerStands(base: string, run: nat, ext: string)
    requires !Contains(base, KNOWN_LOG)
    ensures Find(LogName(base, run, ext), KNOWN_LOG, 0) == Some(|base| + |LOG_DIR|)
  {
    Assoc(base + LOG_DIR + KNOWN_LOG, Decimal(run), ext);
    LogMarkerIsFound(LogName(base, run, ext), base, Decimal(run) + ext);
  }

  /** The configuration log and the storage log of a run are parsed back to their run, with the last rank. */
  lemma LogRoundTrip(base: string, run: nat, disk: nat)
    requires run <= UINT32_MAX && PlainBase(base)
    ensures ParseFileMeta(LogName(base, run, ".json"), disk) == FileMeta(run, disk, 4, 0)
    ensures ParseFileMeta(LogName(base, run, "_storage.log"), disk) == FileMeta(run, disk, 4, 0)
  {
    EndingsAreLogEndings();
    LogIsParsed(base, run, ".json", disk);
    LogIsParsed(base, run, "_storage.log", disk);
  }

  // ---------------------------------------------------------------- where the mirror looks

  /** kWatchSubdirs (:48-50), below each disk. */
  const WATCHED: seq<string> := ["readout_data", "trigger_data", "pps_data", "config_logs", "logs", "tof_data"]

  /** `path` is a file directly in the `i`-th watched directory of a disk. */
  ghost predicate IsWatched(path: string, base: string, i: nat) {
    i < |WATCHED| && exists file: string :: '/' !in file && path == base + ("/" + WATCHED[i] + "/") + file
  }

  lemma WatchedDirs()
    ensures "/" + WATCHED[0] + "/" == READOUT_DIR && "/" + WATCHED[1] + "/" == TRIGGER_DIR
    ensures "/" + WATCHED[2] + "/" == PPS_DIR
  {
  }

  lemma NumberedHasNoSlash(marker: string, run: nat, k: nat, ext: string)
    requires '/' !in marker && '/' !in ext
    ensures '/' !in marker + NumberedTail(run, k, ext) && '/' !in marker + (Decimal(run) + ext)
  {
  }

  lemma FileInDir(path: string, base: string, dir: string, file: string, i: nat)
    requires path == base + dir + file && '/' !in file && i < |WATCHED| && dir == "/" + WATCHED[i] + "/"
    ensures IsWatched(path, base, i)
  {
  }

  lemma EndingsHaveNoSlash()
    ensures '/' !in ".dat" && '/' !in ".bin"
  {
  }

  /** Every readout file is put where the mirror looks for it. */
  lemma ReadoutFilesAreWatched(base: string, run: nat, file: nat)
    ensures IsWatched(ReadoutName(base, run, file), base, 0)
  {
    var rest := NumberedTail(run, file, ".dat");
    MarkersHaveOthers();
    EndingsHaveNoSlash();
    WatchedDirs();
    NumberedHasTail(ReadoutStem(base), run, file, ".dat");
    NumberedHasNoSlash(READOUT_MARKER, run, file, ".dat");
    Assoc(base + READOUT_DIR, READOUT_MARKER, rest);
    FileInDir(ReadoutName(base, run, file), base, READOUT_DIR, READOUT_MARKER + rest, 0);
  }

  lemma SegmentFileIsWatched(base: string, dir: string, marker: string, run: nat, segment: nat, i: nat)
    requires '/' !in marker && i < |WATCHED| && dir == "/" + WATCHED[i] + "/"
    ensures IsWatched(SegmentName(base + dir + marker, run, segment), base, i)
  {
    var stem, rest := base + dir + marker, SegmentTail(run, segment);
    EndingsHaveNoSlash();
    SegmentNameHasTail(stem, run, segment);
    NumberedHasNoSlash(marker, run, segment, ".bin");
    Assoc(base + dir, marker, rest);
    FileInDir(SegmentName(stem, run, segment), base, dir, marker + rest, i);
  }

  /** And every trigger and PPS file. */
  lemma SegmentFilesAreWatched(base: string, run: nat, segment: nat)
    ensures IsWatched(SegmentName(TriggerStem(base), run, segment), base, 1)
    ensures IsWatched(SegmentName(PpsStem(base), run, segment), base, 2)
  {
    MarkersHaveOthers();
    MarkersAgree();
    WatchedDirs();
    SegmentFileIsWatched(base, TRIGGER_DIR, TRIGGER_MARKER, run, segment, 1);
    SegmentFileIsWatched(base, PPS_DIR, PPS_MARKER, run, segment, 2);
  }
}
