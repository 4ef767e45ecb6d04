/**
 * What `compress_image` does, as a function of the filesystem it starts
 * from, the budget and the encoder: the operations it performs in order
 * and what it returns or raises. The ladder is
 * Lossless -> Quality(95) -> ... -> Quality(45) -> Downscale.
 */
module Ladder {
  import opened Wrappers
  import opened Paths
  import opened Images
  import opened Errors
  import opened FileSystems

  /** The budget main passes, and compress_image's default. */
  const DEFAULT_BUDGET_KB: int := 300
  /** The JPEG qualities tried, best first. */
  const QUALITIES: seq<nat> := [95, 85, 75, 65, 55, 45]
  /** The single quality of the last-resort downscaled JPEG. */
  const DOWNSCALE_QUALITY: nat := 85

  /** A byte count in the script's kilobytes (1024 bytes each). */
  function SizeKb(bytes: nat): real {
    bytes as real / 1024.0
  }

  /** The acceptance test `size_kb < max_size_kb`, on whole bytes: strict, so a size equal to the budget fails. */
  function Fits(bytes: nat, budgetKb: int): bool {
    bytes < budgetKb * 1024
  }

  /** Fits is the script's comparison of kilobytes as reals. */
  lemma FitsIsKilobyteComparison(bytes: nat, budgetKb: int)
    ensures Fits(bytes, budgetKb) <==> SizeKb(bytes) < budgetKb as real
  {
  }

  datatype Stage = Lossless | Quality(quality: nat) | Downscale

  /** How the ladder ends: a save that was accepted, or an exception. */
  datatype Outcome = Accepted(stage: Stage, bytes: nat) | Raised(stage: Stage, error: Error)

  /** The saves that reached the disk, and how the ladder ended. */
  datatype LadderRun = LadderRun(writes: seq<Op>, outcome: Outcome)

  function Then(ws: seq<Op>, rest: LadderRun): LadderRun {
    LadderRun(ws + rest.writes, rest.outcome)
  }

  /** The encoding each stage saves with. */
  function StageEncoding(s: Stage): Encoding {
    match s
    case Lossless => OptimizedPng
    case Quality(q) => Jpeg(q)
    case Downscale => Jpeg(DOWNSCALE_QUALITY)
  }

  /** The image of the last resort: the flattened original, scaled to four fifths. */
  function DownscaledImage(original: Image): Option<Image> {
    var img := Flatten(original);
    Resize(img, ScaleDim(Width(img)), ScaleDim(Height(img)))
  }

  /**
   * The ladder after the backup is made: the flattened original as an
   * optimized PNG, accepted if under budget, else the JPEG qualities. The
   * banner path is empty after the rename, so a raising PNG save leaves
   * nothing there.
   */
  function LadderFrom(input: Path, original: Image, budgetKb: int, enc: Encoder): LadderRun {
    match Encode(OptimizedPng, Flatten(original), enc)
    case None => LadderRun([], Raised(Lossless, SaveFailed(OptimizedPng)))
    case Some(png) =>
      if Fits(png.bytes, budgetKb) then LadderRun([Write(input, png)], Accepted(Lossless, png.bytes))
      else Then([Write(input, png)], QualityLadder(input, original, QUALITIES, budgetKb, enc))
  }

  /**
   * The JPEG qualities qs in order, each overwriting input; the first under
   * budget is accepted. A raising save truncates the file at input.
   */
  function QualityLadder(input: Path, original: Image, qs: seq<nat>, budgetKb: int, enc: Encoder): LadderRun
    decreases |qs|
  {
    if qs == [] then DownscaleStage(input, original, enc)
    else match Encode(Jpeg(qs[0]), Flatten(original), enc)
      case None => LadderRun([Write(input, TRUNCATED)], Raised(Quality(qs[0]), SaveFailed(Jpeg(qs[0]))))
      case Some(f) =>
        if Fits(f.bytes, budgetKb) then LadderRun([Write(input, f)], Accepted(Quality(qs[0]), f.bytes))
        else Then([Write(input, f)], QualityLadder(input, original, qs[1..], budgetKb, enc))
  }

  /**
   * The last resort, from the image reloaded from the backup: flatten,
   * scale to four fifths, save once as JPEG, accept whatever the size. A
   * raising save truncates the last JPEG at input.
   */
  function DownscaleStage(input: Path, reloaded: Image, enc: Encoder): LadderRun {
    match DownscaledImage(reloaded)
    case None => LadderRun([], Raised(Downscale, ResizeFailed))
    case Some(small) =>
      match Encode(Jpeg(DOWNSCALE_QUALITY), small, enc)
      case None => LadderRun([Write(input, TRUNCATED)], Raised(Downscale, SaveFailed(Jpeg(DOWNSCALE_QUALITY))))
      case Some(f) => LadderRun([Write(input, f)], Accepted(Downscale, f.bytes))
  }

  /** What compress_image returns: the banner path and its size (in bytes here). */
  datatype Compressed = Compressed(path: Path, bytes: nat)

  /** One call of compress_image: the operations it performed and its result. */
  datatype Run = Run(ops: seq<Op>, result: Result<Compressed, Error>)

  /** The backup rename, the ladder's saves, and the unlink of the backup when the ladder accepted. */
  function Finish(input: Path, backup: Path, l: LadderRun): Run {
    match l.outcome
    case Accepted(_, bytes) =>
      Run([Op.Rename(input, backup)] + l.writes + [Op.Unlink(backup)], Success(Compressed(input, bytes)))
    case Raised(_, e) =>
      Run([Op.Rename(input, backup)] + l.writes, Failure(e))
  }

  /**
   * compress_image(input, budgetKb): open the banner, derive the backup
   * path, then move the banner to the backup and run the ladder.
   */
  function Compress(files: Files, input: Path, budgetKb: int, enc: Encoder): Run {
    if input !in files then Run([], Failure(FileNotFound))
    else match Decode(files[input])
      case None => Run([], Failure(UnidentifiedImage))
      case Some(original) =>
        match BackupPath(input)
        case None => Run([], Failure(PathValueError))
        case Some(backup) => Finish(input, backup, LadderFrom(input, original, budgetKb, enc))
  }

  /** Compress once the banner has been opened and the backup path derived. */
  lemma CompressAfterBackup(files: Files, input: Path, budgetKb: int, enc: Encoder, original: Image, backup: Path)
    requires input in files && Decode(files[input]) == Some(original) && BackupPath(input) == Some(backup)
    ensures Compress(files, input, budgetKb, enc) == Finish(input, backup, LadderFrom(input, original, budgetKb, enc))
  {
  }

  /** One rung of the JPEG ladder. */
  lemma QualityStep(input: Path, original: Image, qs: seq<nat>, budgetKb: int, enc: Encoder)
    requires qs != []
    ensures Encode(Jpeg(qs[0]), Flatten(original), enc).None? ==>
      QualityLadder(input, original, qs, budgetKb, enc)
        == LadderRun([Write(input, TRUNCATED)], Raised(Quality(qs[0]), SaveFailed(Jpeg(qs[0]))))
    ensures Encode(Jpeg(qs[0]), Flatten(original), enc).Some? ==>
      var f := Encode(Jpeg(qs[0]), Flatten(original), enc).value;
      QualityLadder(input, original, qs, budgetKb, enc) ==
        if Fits(f.bytes, budgetKb) then LadderRun([Write(input, f)], Accepted(Quality(qs[0]), f.bytes))
        else Then([Write(input, f)], QualityLadder(input, original, qs[1..], budgetKb, enc))
  {
  }
}
