/**
 * scripts/compress_og_banner.py: compress_image, which moves the banner to
 * a backup and overwrites it with smaller and smaller encodings until one
 * fits the budget, and main, which runs it on the site's banner.
 */
module CompressOgBanner {
  import opened Wrappers
  import opened Paths
  import opened Images
  import opened Errors
  import opened FileSystems
  import opened Ladder

  /**
   * compress_image. It performs exactly the operations of the Compress
   * specification, in order, and returns or raises what Compress says; the
   * lemmas of module LadderProperties state what that means.
   */
  method CompressImage(fs: FileSystem, input: Path, budgetKb: int, enc: Encoder) returns (r: Result<Compressed, Error>)
    requires fs.Valid()
    modifies fs
    ensures fs.Valid() && fs.initial == old(fs.initial)
    ensures r == Compress(old(fs.files), input, budgetKb, enc).result
    ensures fs.log == old(fs.log) + Compress(old(fs.files), input, budgetKb, enc).ops
  {
    ghost var files0, log0 := fs.files, fs.log;
    var loaded := fs.Open(input);
    if loaded.Failure? {
      return Failure(loaded.error);
    }
    ghost var original := loaded.value;
    var img := Flatten(loaded.value);

    var backupPath := BackupPath(input);
    if backupPath.None? {
      return Failure(PathValueError);
    }
    var backup := backupPath.value;
    BackupIsSiblingNotSelf(input);
    CompressAfterBackup(files0, input, budgetKb, enc, original, backup);
    ghost var spec := LadderFrom(input, original, budgetKb, enc);
    FinishOps(log0, input, backup, spec);

    fs.Rename(input, backup);
    var outcome := RunLadder(fs, input, backup, original, img, budgetKb, enc);
    match outcome
    case Accepted(_, bytes) =>
      return Success(Compressed(input, bytes));
    case Raised(_, e) =>
      return Failure(e);
  }

  /**
   * Lines 38-82 of compress_image, once the banner has been moved to the
   * backup: the lossless PNG first, then the JPEG ladder. It performs the
   * saves of LadderFrom, then the unlink of the backup when a stage
   * accepts, and ends as LadderFrom does.
   */
  method RunLadder(fs: FileSystem, input: Path, backup: Path, ghost original: Image, img: Image, budgetKb: int, enc: Encoder)
    returns (outcome: Outcome)
    requires fs.Valid() && input != backup && input !in fs.files && backup in fs.files
    requires Decode(fs.files[backup]) == Some(original) && img == Flatten(original)
    modifies fs
    ensures fs.Valid() && fs.initial == old(fs.initial)
    ensures var l := LadderFrom(input, original, budgetKb, enc);
      && outcome == l.outcome
      && fs.log == old(fs.log) + l.writes + Cleanup(outcome, backup)
  {
    ghost var log0 := fs.log;
    var ok := fs.Save(input, OptimizedPng, img, enc);
    if !ok {
      return Raised(Lossless, SaveFailed(OptimizedPng));
    }
    ghost var png := Write(input, Encode(OptimizedPng, img, enc).value);
    var pngBytes := fs.Size(input);
    if Fits(pngBytes, budgetKb) {
      fs.Unlink(backup);
      return Accepted(Lossless, pngBytes);
    }
    ghost var rest := QualityLadder(input, original, QUALITIES, budgetKb, enc);
    outcome := JpegLadder(fs, input, backup, original, img, QUALITIES, budgetKb, enc);
    Regroup(log0, [png], rest.writes, Cleanup(outcome, backup));
  }

  /**
   * Lines 52-82 of compress_image: each JPEG quality, best first, saved over
   * the banner until one fits; then the last resort. It performs the saves
   * of QualityLadder over all the qualities, then the unlink of the backup
   * when a stage accepts, and ends as that ladder does.
   */
  method JpegLadder(fs: FileSystem, input: Path, backup: Path, ghost original: Image, img: Image, qualities: seq<nat>, budgetKb: int, enc: Encoder)
    returns (outcome: Outcome)
    requires fs.Valid() && input != backup && input in fs.files && backup in fs.files
    requires Decode(fs.files[backup]) == Some(original) && img == Flatten(original)
    modifies fs
    ensures fs.Valid() && fs.initial == old(fs.initial)
    ensures var l := QualityLadder(input, original, qualities, budgetKb, enc);
      && outcome == l.outcome
      && fs.log == old(fs.log) + l.writes + Cleanup(outcome, backup)
  {
    ghost var log0, stored := fs.log, fs.files[backup];
    ghost var spec := QualityLadder(input, original, qualities, budgetKb, enc);
    ghost var writes: seq<Op> := [];
    assert qualities[0..] == qualities;

    for i := 0 to |qualities|
      invariant fs.Valid() && fs.initial == old(fs.initial)
      invariant fs.log == log0 + writes
      invariant input in fs.files && backup in fs.files && fs.files[backup] == stored
      invariant spec == Then(writes, QualityLadder(input, original, qualities[i..], budgetKb, enc))
    {
      ghost var rung := QualityLadder(input, original, qualities[i..], budgetKb, enc);
      ghost var w;
      var done;
      done, w := QualityRung(fs, input, backup, original, img, qualities[i..], budgetKb, enc);
      if done.Some? {
        Regroup(log0, writes, rung.writes, Cleanup(done.value, backup));
        return done.value;
      }
      assert qualities[i..][1..] == qualities[i + 1..];
      ThenAssoc(writes, w, QualityLadder(input, original, qualities[i + 1..], budgetKb, enc));
      writes := writes + [w];
    }

    assert qualities[|qualities|..] == [];
    ghost var last := DownscaleStage(input, original, enc);
    assert spec == Then(writes, last);
    outcome := LastResort(fs, input, backup, enc);
    Regroup(log0, writes, last.writes, Cleanup(outcome, backup));
  }

  /**
   * One pass of the JPEG loop of compress_image, at quality qs[0]: save over
   * the banner, then stop when the save raised, or delete the backup and
   * stop when the file fits the budget. It performs the save of
   * QualityLadder's first rung; when it stops, the outcome is the ladder's,
   * and when it goes on, the ladder goes on from qs[1..] after the write w.
   */
  method QualityRung(fs: FileSystem, input: Path, backup: Path, ghost original: Image, img: Image, qs: seq<nat>, budgetKb: int, enc: Encoder)
    returns (done: Option<Outcome>, ghost w: Op)
    requires fs.Valid() && input != backup && input in fs.files && backup in fs.files
    requires img == Flatten(original) && qs != []
    modifies fs
    ensures fs.Valid() && fs.initial == old(fs.initial)
    ensures done.None? ==> input in fs.files && backup in fs.files && fs.files[backup] == old(fs.files)[backup]
    ensures var l := QualityLadder(input, original, qs, budgetKb, enc);
      && (done.Some? ==> done.value == l.outcome && fs.log == old(fs.log) + l.writes + Cleanup(l.outcome, backup))
      && (done.None? ==>
            fs.log == old(fs.log) + [w] && l == Then([w], QualityLadder(input, original, qs[1..], budgetKb, enc)))
  {
    QualityStep(input, original, qs, budgetKb, enc);
    var quality := qs[0];
    var ok := fs.Save(input, Jpeg(quality), img, enc);
    w := Write(input, if ok then Encode(Jpeg(quality), img, enc).value else TRUNCATED);
    if !ok {
      return Some(Raised(Quality(quality), SaveFailed(Jpeg(quality)))), w;
    }
    var jpegBytes := fs.Size(input);
    if Fits(jpegBytes, budgetKb) {
      fs.Unlink(backup);
      return Some(Accepted(Quality(quality), jpegBytes)), w;
    }
    return None, w;
  }

  /**
   * The last resort of compress_image: reload the original from the
   * backup, flatten it, scale it to four fifths and save it once as a JPEG,
   * then delete the backup. It performs the saves of DownscaleStage, then
   * the unlink when that stage accepts.
   */
  method LastResort(fs: FileSystem, input: Path, backup: Path, enc: Encoder) returns (outcome: Outcome)
    requires fs.Valid() && input != backup && input in fs.files && backup in fs.files
    requires Decode(fs.files[backup]).Some?
    modifies fs
    ensures fs.Valid() && fs.initial == old(fs.initial)
    ensures var stage := DownscaleStage(input, Decode(old(fs.files)[backup]).value, enc);
      && outcome == stage.outcome
      && fs.log == old(fs.log) + stage.writes + Cleanup(outcome, backup)
  {
    var reopened := fs.Open(backup);
    var img := Flatten(reopened.value);
    var newWidth := ScaleDim(Width(img));
    var newHeight := ScaleDim(Height(img));
    var resized := Resize(img, newWidth, newHeight);
    if resized.None? {
      return Raised(Downscale, ResizeFailed);
    }
    var ok := fs.Save(input, Jpeg(DOWNSCALE_QUALITY), resized.value, enc);
    if !ok {
      return Raised(Downscale, SaveFailed(Jpeg(DOWNSCALE_QUALITY)));
    }
    var finalBytes := fs.Size(input);
    fs.Unlink(backup);
    return Accepted(Downscale, finalBytes);
  }

  /** The unlink of the backup that follows the ladder's saves when a stage accepted. */
  function Cleanup(outcome: Outcome, backup: Path): seq<Op>
  {
    if outcome.Accepted? then [Op.Unlink(backup)] else []
  }

  /** Regrouping a log: the saves of two stages read as the saves of the ladder they make up. */
  lemma Regroup(log: seq<Op>, first: seq<Op>, rest: seq<Op>, tail: seq<Op>)
    ensures log + first + rest + tail == log + (first + rest) + tail
  {
  }

  lemma ThenAssoc(ws: seq<Op>, w: Op, rest: LadderRun)
    ensures Then(ws, Then([w], rest)) == Then(ws + [w], rest)
  {
    assert ws + ([w] + rest.writes) == (ws + [w]) + rest.writes;
  }

  /**
   * A run after the open: the rename, the ladder's saves, and the unlink
   * when the ladder accepted; the result is the ladder's outcome.
   */
  lemma FinishOps(log: seq<Op>, input: Path, backup: Path, l: LadderRun)
    ensures log + [Op.Rename(input, backup)] + l.writes + Cleanup(l.outcome, backup)
      == log + Finish(input, backup, l).ops
    ensures Finish(input, backup, l).result
      == if l.outcome.Accepted? then Success(Compressed(input, l.outcome.bytes)) else Failure(l.outcome.error)
  {
    var tail := Cleanup(l.outcome, backup);
    assert Finish(input, backup, l).ops == [Op.Rename(input, backup)] + l.writes + tail;
    assert log + [Op.Rename(input, backup)] + l.writes + tail == log + ([Op.Rename(input, backup)] + l.writes + tail);
  }

  /** main's "WhatsApp compatible" verdict, `final_size < 300`, is the budget test at 300 KB. */
  function WhatsAppCompatible(bytes: nat): (r: bool)
    ensures r <==> Fits(bytes, DEFAULT_BUDGET_KB)
  {
    SizeKb(bytes) < 300.0
  }

  /**
   * main, on the banner path it is given: exit code 1 without touching the
   * disk when the banner is missing; otherwise compress_image with the
   * 300 KB budget, exit code 0 and the verdict when it returns, exit code 1
   * when it raises.
   */
  method CompressBanner(fs: FileSystem, banner: Path, enc: Encoder) returns (code: int, compatible: Option<bool>)
    requires fs.Valid()
    modifies fs
    ensures fs.Valid() && fs.initial == old(fs.initial)
    ensures banner !in old(fs.files) ==>
      code == 1 && compatible == None && fs.files == old(fs.files) && fs.log == old(fs.log)
    ensures banner in old(fs.files) ==>
      var run := Compress(old(fs.files), banner, DEFAULT_BUDGET_KB, enc);
      && fs.log == old(fs.log) + run.ops
      && fs.files == Replay(old(fs.files), run.ops)
      && (code == 0 <==> run.result.Success?)
      && (code == 1 <==> run.result.Failure?)
      && compatible == (if run.result.Success? then Some(WhatsAppCompatible(run.result.value.bytes)) else None)
  {
    var found := fs.Exists(banner);
    if !found {
      return 1, None;
    }
    ghost var initial0, log0 := fs.initial, fs.log;
    var r := CompressImage(fs, banner, DEFAULT_BUDGET_KB, enc);
    ReplayAppend(initial0, log0, Compress(old(fs.files), banner, DEFAULT_BUDGET_KB, enc).ops);
    match r
    case Success(c) =>
      return 0, Some(WhatsAppCompatible(c.bytes));
    case Failure(_) =>
      return 1, None;
  }
}
