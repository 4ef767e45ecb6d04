/**
 * What compress_image promises, proved of the Compress specification that
 * CompressImage is verified against.
 */
module LadderProperties {
  import opened Wrappers
  import opened Paths
  import opened Images
  import opened Errors
  import opened FileSystems
  import opened Ladder

  /** An image the ladder may save: the flattened original, or that scaled to four fifths. */
  predicate FromOriginal(img: Image, original: Image) {
    img == Flatten(original) || DownscaledImage(original) == Some(img)
  }

  /**
   * A file the ladder may leave at input: a save of an image made from the
   * original, or what a raising save leaves of the file it overwrote.
   */
  predicate SavedFromOriginal(f: File, original: Image) {
    f == TRUNCATED || (f.content.Saved? && FromOriginal(f.content.image, original))
  }

  /** Every operation is a write to input of a file the ladder may leave there. */
  predicate SavesOf(ws: seq<Op>, input: Path, original: Image) {
    forall i :: 0 <= i < |ws| ==> ws[i].Write? && ws[i].path == input && SavedFromOriginal(ws[i].file, original)
  }

  /** The last operation truncated the file at its path. */
  predicate EndsTruncated(ws: seq<Op>) {
    ws != [] && ws[|ws| - 1].Write? && ws[|ws| - 1].file == TRUNCATED
  }

  /**
   * The shape of every ladder run: all writes go to input, and all but the
   * last are completed saves; an accepted run ends with the accepted file,
   * in its stage's encoding, and only the downscale may be accepted over
   * budget; a raising run ends with a truncated file exactly when a JPEG
   * save raised.
   */
  predicate WellShaped(l: LadderRun, input: Path, original: Image, budgetKb: int) {
    && SavesOf(l.writes, input, original)
    && (forall i :: 0 <= i < |l.writes| - 1 ==> l.writes[i].file.content.Saved?)
    && (l.outcome.Accepted? ==>
          && l.writes != []
          && l.writes[|l.writes| - 1].file.content.Saved?
          && l.writes[|l.writes| - 1].file.bytes == l.outcome.bytes
          && l.writes[|l.writes| - 1].file.content.encoding == StageEncoding(l.outcome.stage)
          && (l.outcome.stage != Downscale ==> Fits(l.outcome.bytes, budgetKb)))
    && (l.outcome.Raised? ==>
          (EndsTruncated(l.writes) <==> l.outcome.error.SaveFailed? && l.outcome.stage != Lossless))
  }

  lemma PrependSave(w: Op, rest: LadderRun, input: Path, original: Image, budgetKb: int)
    requires w.Write? && w.path == input && w.file.content.Saved? && FromOriginal(w.file.content.image, original)
    requires WellShaped(rest, input, original, budgetKb)
    ensures WellShaped(Then([w], rest), input, original, budgetKb)
  {
    var ws := [w] + rest.writes;
    forall i | 0 <= i < |ws|
      ensures ws[i].Write? && ws[i].path == input && SavedFromOriginal(ws[i].file, original)
      ensures i < |ws| - 1 ==> ws[i].file.content.Saved?
    {
      if i > 0 {
        assert ws[i] == rest.writes[i - 1];
      }
    }
    assert ws[|ws| - 1] == if rest.writes == [] then w else rest.writes[|rest.writes| - 1];
    assert TRUNCATED.content.Foreign?;
  }

  lemma {:induction false} QualityLadderWellShaped(input: Path, original: Image, qs: seq<nat>, budgetKb: int, enc: Encoder)
    ensures WellShaped(QualityLadder(input, original, qs, budgetKb, enc), input, original, budgetKb)
    decreases |qs|
  {
    if qs != [] {
      var saved := Encode(Jpeg(qs[0]), Flatten(original), enc);
      if saved.Some? && !Fits(saved.value.bytes, budgetKb) {
        QualityLadderWellShaped(input, original, qs[1..], budgetKb, enc);
        PrependSave(Write(input, saved.value), QualityLadder(input, original, qs[1..], budgetKb, enc), input, original, budgetKb);
      }
    } else {
      assert TRUNCATED.content.Foreign?;
    }
  }

  /** The whole ladder is well shaped. */
  lemma LadderWellShaped(input: Path, original: Image, budgetKb: int, enc: Encoder)
    ensures WellShaped(LadderFrom(input, original, budgetKb, enc), input, original, budgetKb)
  {
    var png := Encode(OptimizedPng, Flatten(original), enc);
    if png.Some? && !Fits(png.value.bytes, budgetKb) {
      QualityLadderWellShaped(input, original, QUALITIES, budgetKb, enc);
      PrependSave(Write(input, png.value), QualityLadder(input, original, QUALITIES, budgetKb, enc), input, original, budgetKb);
    }
  }

  /**
   * Every image the ladder encodes was flattened first: no file it writes
   * holds an RGBA image. A write that is not a save is what a raising save
   * left of the file it overwrote.
   */
  lemma SavedImagesHaveNoAlpha(input: Path, original: Image, budgetKb: int, enc: Encoder)
    ensures forall op | op in LadderFrom(input, original, budgetKb, enc).writes ::
      op.Write? && (op.file == TRUNCATED || (op.file.content.Saved? && Mode(op.file.content.image) != RGBA))
  {
    var l := LadderFrom(input, original, budgetKb, enc);
    LadderWellShaped(input, original, budgetKb, enc);
    FlattenRemovesAlpha(original);
    forall op | op in l.writes
      ensures op.Write? && (op.file == TRUNCATED || (op.file.content.Saved? && Mode(op.file.content.image) != RGBA))
    {
      var i :| 0 <= i < |l.writes| && l.writes[i] == op;
    }
  }

  // ---------------------------------------------------------------- the ladder

  /** A save of img with e that succeeds but is not under budget. */
  predicate OverBudget(e: Encoding, img: Image, budgetKb: int, enc: Encoder) {
    enc(e, img).Some? && !Fits(enc(e, img).value, budgetKb)
  }

  /** qs[k] is the first quality whose JPEG fits, at the given size, and every earlier one saved over budget. */
  predicate FirstFitAt(qs: seq<nat>, k: int, img: Image, budgetKb: int, enc: Encoder, bytes: nat) {
    && 0 <= k < |qs|
    && (forall j :: 0 <= j < k ==> OverBudget(Jpeg(qs[j]), img, budgetKb, enc))
    && enc(Jpeg(qs[k]), img) == Some(bytes) && Fits(bytes, budgetKb)
  }

  /** A first fit at k is accepted. */
  lemma {:induction false} QualityLadderAcceptsFirstFit(input: Path, original: Image, qs: seq<nat>, budgetKb: int, enc: Encoder, k: int, bytes: nat)
    requires FirstFitAt(qs, k, Flatten(original), budgetKb, enc, bytes)
    ensures QualityLadder(input, original, qs, budgetKb, enc).outcome == Accepted(Quality(qs[k]), bytes)
    decreases |qs|
  {
    var img := Flatten(original);
    if k > 0 {
      assert OverBudget(Jpeg(qs[0]), img, budgetKb, enc);
      assert FirstFitAt(qs[1..], k - 1, img, budgetKb, enc, bytes) by {
        forall j | 0 <= j < k - 1 ensures OverBudget(Jpeg(qs[1..][j]), img, budgetKb, enc) {
          assert qs[1..][j] == qs[j + 1];
        }
      }
      QualityLadderAcceptsFirstFit(input, original, qs[1..], budgetKb, enc, k - 1, bytes);
    }
  }

  /** An accepted quality is a first fit. */
  lemma {:induction false} QualityLadderAcceptsOnlyFirstFit(input: Path, original: Image, qs: seq<nat>, budgetKb: int, enc: Encoder, q: nat, bytes: nat)
    requires QualityLadder(input, original, qs, budgetKb, enc).outcome == Accepted(Quality(q), bytes)
    ensures exists k :: FirstFitAt(qs, k, Flatten(original), budgetKb, enc, bytes) && qs[k] == q
    decreases |qs|
  {
    var img := Flatten(original);
    if OverBudget(Jpeg(qs[0]), img, budgetKb, enc) {
      QualityLadderAcceptsOnlyFirstFit(input, original, qs[1..], budgetKb, enc, q, bytes);
      var k :| FirstFitAt(qs[1..], k, img, budgetKb, enc, bytes) && qs[1..][k] == q;
      assert FirstFitAt(qs, k + 1, img, budgetKb, enc, bytes) by {
        forall j | 0 <= j < k + 1 ensures OverBudget(Jpeg(qs[j]), img, budgetKb, enc) {
          if j > 0 { assert qs[j] == qs[1..][j - 1]; }
        }
      }
    } else {
      assert FirstFitAt(qs, 0, img, budgetKb, enc, bytes);
    }
  }

  /**
   * The JPEG quality accepted is the first of 95, 85, 75, 65, 55, 45 whose
   * file is under budget, reached only after the PNG and every better
   * quality were saved at or over budget; and conversely.
   */
  lemma AcceptedQualityIsFirstFit(input: Path, original: Image, budgetKb: int, enc: Encoder, q: nat, bytes: nat)
    ensures LadderFrom(input, original, budgetKb, enc).outcome == Accepted(Quality(q), bytes)
      <==> && OverBudget(OptimizedPng, Flatten(original), budgetKb, enc)
           && exists k :: FirstFitAt(QUALITIES, k, Flatten(original), budgetKb, enc, bytes) && QUALITIES[k] == q
  {
    var l := LadderFrom(input, original, budgetKb, enc);
    var png := Encode(OptimizedPng, Flatten(original), enc);
    if l.outcome == Accepted(Quality(q), bytes) {
      QualityLadderNeverLossless(input, original, QUALITIES, budgetKb, enc);
      QualityLadderAcceptsOnlyFirstFit(input, original, QUALITIES, budgetKb, enc, q, bytes);
    }
    if OverBudget(OptimizedPng, Flatten(original), budgetKb, enc)
       && exists k :: FirstFitAt(QUALITIES, k, Flatten(original), budgetKb, enc, bytes) && QUALITIES[k] == q
    {
      var k :| FirstFitAt(QUALITIES, k, Flatten(original), budgetKb, enc, bytes) && QUALITIES[k] == q;
      QualityLadderAcceptsFirstFit(input, original, QUALITIES, budgetKb, enc, k, bytes);
    }
  }

  /**
   * The PNG is accepted exactly when it saves under budget; then it is the
   * only save, and no JPEG is written.
   */
  lemma LosslessFitIsFinal(input: Path, original: Image, budgetKb: int, enc: Encoder)
    ensures LadderFrom(input, original, budgetKb, enc).outcome.Accepted?
            && LadderFrom(input, original, budgetKb, enc).outcome.stage == Lossless
      <==> enc(OptimizedPng, Flatten(original)).Some? && Fits(enc(OptimizedPng, Flatten(original)).value, budgetKb)
    ensures enc(OptimizedPng, Flatten(original)).Some? && Fits(enc(OptimizedPng, Flatten(original)).value, budgetKb) ==>
      LadderFrom(input, original, budgetKb, enc).writes
        == [Write(input, File(enc(OptimizedPng, Flatten(original)).value, Saved(OptimizedPng, Flatten(original))))]
  {
    var l := LadderFrom(input, original, budgetKb, enc);
    if l.outcome.Accepted? && l.outcome.stage == Lossless {
      var png := Encode(OptimizedPng, Flatten(original), enc);
      if png.Some? && !Fits(png.value.bytes, budgetKb) {
        QualityLadderNeverLossless(input, original, QUALITIES, budgetKb, enc);
      }
    }
  }

  /** A stage raises only what its own save raises, or, for the downscale, what the resize raises. */
  predicate StageRaisesOwnError(o: Outcome) {
    o.Raised? ==> o.error == SaveFailed(StageEncoding(o.stage)) || (o.stage == Downscale && o.error == ResizeFailed)
  }

  lemma {:induction false} QualityLadderNeverLossless(input: Path, original: Image, qs: seq<nat>, budgetKb: int, enc: Encoder)
    ensures QualityLadder(input, original, qs, budgetKb, enc).outcome.stage != Lossless
    ensures StageRaisesOwnError(QualityLadder(input, original, qs, budgetKb, enc).outcome)
    decreases |qs|
  {
    if qs != [] {
      QualityLadderNeverLossless(input, original, qs[1..], budgetKb, enc);
    }
  }

  /** Every exception of the ladder comes from the stage that raised it. */
  lemma LadderRaisesOwnError(input: Path, original: Image, budgetKb: int, enc: Encoder)
    ensures StageRaisesOwnError(LadderFrom(input, original, budgetKb, enc).outcome)
  {
    QualityLadderNeverLossless(input, original, QUALITIES, budgetKb, enc);
  }

  /** The ladder writes nothing exactly when its first save, the PNG, raises. */
  lemma EmptyLadderMeansPngRaised(input: Path, original: Image, budgetKb: int, enc: Encoder)
    ensures LadderFrom(input, original, budgetKb, enc).writes == []
      <==> LadderFrom(input, original, budgetKb, enc).outcome == Raised(Lossless, SaveFailed(OptimizedPng))
    ensures LadderFrom(input, original, budgetKb, enc).writes == [] <==> enc(OptimizedPng, Flatten(original)).None?
    ensures LadderFrom(input, original, budgetKb, enc).writes == []
      <==> LadderFrom(input, original, budgetKb, enc).outcome.Raised?
           && LadderFrom(input, original, budgetKb, enc).outcome.error == SaveFailed(OptimizedPng)
  {
    var png := Encode(OptimizedPng, Flatten(original), enc);
    if png.Some? && !Fits(png.value.bytes, budgetKb) {
      QualityLadderNeverLossless(input, original, QUALITIES, budgetKb, enc);
    }
  }

  /**
   * Acceptance is strict: a PNG of exactly the budget is rejected and the
   * ladder goes on to quality 95.
   */
  lemma SizeAtBudgetIsRejected(input: Path, original: Image, budgetKb: nat, enc: Encoder)
    requires enc(OptimizedPng, Flatten(original)) == Some(budgetKb * 1024)
    ensures !Fits(budgetKb * 1024, budgetKb)
    ensures LadderFrom(input, original, budgetKb, enc).outcome.stage != Lossless
    ensures LadderFrom(input, original, budgetKb, enc).writes[0]
      == Write(input, File(budgetKb * 1024, Saved(OptimizedPng, Flatten(original))))
    ensures enc(Jpeg(95), Flatten(original)).Some? ==>
      |LadderFrom(input, original, budgetKb, enc).writes| >= 2
      && LadderFrom(input, original, budgetKb, enc).writes[1].file.content == Saved(Jpeg(95), Flatten(original))
  {
    QualityLadderNeverLossless(input, original, QUALITIES, budgetKb, enc);
  }

  lemma {:induction false} QualityLadderExhausted(input: Path, original: Image, qs: seq<nat>, budgetKb: int, enc: Encoder)
    requires forall j :: 0 <= j < |qs| ==> OverBudget(Jpeg(qs[j]), Flatten(original), budgetKb, enc)
    ensures QualityLadder(input, original, qs, budgetKb, enc).outcome == DownscaleStage(input, original, enc).outcome
    ensures |QualityLadder(input, original, qs, budgetKb, enc).writes| == |qs| + |DownscaleStage(input, original, enc).writes|
    decreases |qs|
  {
    if qs != [] {
      QualityLadderExhausted(input, original, qs[1..], budgetKb, enc);
    }
  }

  lemma {:induction false} QualityLadderReachesDownscale(input: Path, original: Image, qs: seq<nat>, budgetKb: int, enc: Encoder)
    requires QualityLadder(input, original, qs, budgetKb, enc).outcome.stage == Downscale
    ensures forall j :: 0 <= j < |qs| ==> OverBudget(Jpeg(qs[j]), Flatten(original), budgetKb, enc)
    decreases |qs|
  {
    if qs != [] {
      QualityLadderReachesDownscale(input, original, qs[1..], budgetKb, enc);
      forall j | 0 < j < |qs| ensures OverBudget(Jpeg(qs[j]), Flatten(original), budgetKb, enc) {
        assert qs[j] == qs[1..][j - 1];
      }
    }
  }

  /**
   * The downscale is reached exactly when the PNG and all six JPEGs saved
   * over budget.
   */
  lemma DownscaleOnlyWhenNothingFits(input: Path, original: Image, budgetKb: int, enc: Encoder)
    ensures LadderFrom(input, original, budgetKb, enc).outcome.stage == Downscale
      <==> && OverBudget(OptimizedPng, Flatten(original), budgetKb, enc)
           && forall j :: 0 <= j < |QUALITIES| ==> OverBudget(Jpeg(QUALITIES[j]), Flatten(original), budgetKb, enc)
  {
    var l := LadderFrom(input, original, budgetKb, enc);
    if l.outcome.stage == Downscale {
      var png := Encode(OptimizedPng, Flatten(original), enc);
      assert png.Some? && !Fits(png.value.bytes, budgetKb);
      QualityLadderReachesDownscale(input, original, QUALITIES, budgetKb, enc);
    }
    if OverBudget(OptimizedPng, Flatten(original), budgetKb, enc)
       && forall j :: 0 <= j < |QUALITIES| ==> OverBudget(Jpeg(QUALITIES[j]), Flatten(original), budgetKb, enc)
    {
      QualityLadderExhausted(input, original, QUALITIES, budgetKb, enc);
    }
  }

  /**
   * Once nothing fits, the PNG and all six JPEGs have been written, then
   * the original, flattened and scaled to int(w * 0.8) x int(h * 0.8), is
   * saved once as a quality-85 JPEG and accepted whatever its size; a
   * dimension that scales to zero raises instead, and a raising save
   * leaves the file at input truncated.
   */
  lemma DownscaleAcceptsAnySize(input: Path, original: Image, budgetKb: int, enc: Encoder, bytes: nat)
    requires OverBudget(OptimizedPng, Flatten(original), budgetKb, enc)
    requires forall j :: 0 <= j < |QUALITIES| ==> OverBudget(Jpeg(QUALITIES[j]), Flatten(original), budgetKb, enc)
    ensures var w, h := ScaleDim(Width(original)), ScaleDim(Height(original));
      var small := Resized(Flatten(original), w, h);
      var l := LadderFrom(input, original, budgetKb, enc);
      && |l.writes| == 7 + |DownscaleStage(input, original, enc).writes|
      && (w == 0 || h == 0 ==> l.outcome == Raised(Downscale, ResizeFailed))
      && (w > 0 && h > 0 && enc(Jpeg(DOWNSCALE_QUALITY), small) == Some(bytes) ==>
            && l.outcome == Accepted(Downscale, bytes)
            && l.writes[|l.writes| - 1] == Write(input, File(bytes, Saved(Jpeg(DOWNSCALE_QUALITY), small))))
      && (w > 0 && h > 0 && enc(Jpeg(DOWNSCALE_QUALITY), small).None? ==>
            && l.outcome == Raised(Downscale, SaveFailed(Jpeg(DOWNSCALE_QUALITY)))
            && l.writes[|l.writes| - 1] == Write(input, TRUNCATED))
  {
    FlattenRemovesAlpha(original);
    QualityLadderExhausted(input, original, QUALITIES, budgetKb, enc);
    var l := LadderFrom(input, original, budgetKb, enc);
    var q := QualityLadder(input, original, QUALITIES, budgetKb, enc);
    var png := Encode(OptimizedPng, Flatten(original), enc).value;
    assert l == Then([Write(input, png)], q);
    QualityLadderSuffix(input, original, QUALITIES, budgetKb, enc);
  }

  /** Once every quality is over budget, the ladder's writes end with those of the downscale. */
  lemma {:induction false} QualityLadderSuffix(input: Path, original: Image, qs: seq<nat>, budgetKb: int, enc: Encoder)
    requires forall j :: 0 <= j < |qs| ==> OverBudget(Jpeg(qs[j]), Flatten(original), budgetKb, enc)
    ensures var d := DownscaleStage(input, original, enc).writes;
      var ws := QualityLadder(input, original, qs, budgetKb, enc).writes;
      |ws| >= |d| && ws[|ws| - |d|..] == d
    decreases |qs|
  {
    if qs != [] {
      QualityLadderSuffix(input, original, qs[1..], budgetKb, enc);
      var rest := QualityLadder(input, original, qs[1..], budgetKb, enc).writes;
      var f := Encode(Jpeg(qs[0]), Flatten(original), enc).value;
      var d := DownscaleStage(input, original, enc).writes;
      var ws := [Write(input, f)] + rest;
      assert ws[|ws| - |d|..] == rest[|rest| - |d|..];
    }
  }

  // ------------------------------------------------------- the whole call

  /** How Compress ends once the banner opened and the backup path exists. */
  lemma CompressSteps(files: Files, input: Path, budgetKb: int, enc: Encoder)
    requires input in files && Decode(files[input]).Some? && input.name != ""
    ensures BackupPath(input).Some? && BackupPath(input).value != input
    ensures var backup := BackupPath(input).value;
      var l := LadderFrom(input, Decode(files[input]).value, budgetKb, enc);
      Compress(files, input, budgetKb, enc) == Finish(input, backup, l)
  {
    BackupIsSiblingNotSelf(input);
  }

  /** Replaying the rename and the ladder's saves. */
  lemma ReplayLadder(files: Files, input: Path, backup: Path, l: LadderRun, original: Image, budgetKb: int)
    requires input in files && input != backup && WellShaped(l, input, original, budgetKb)
    ensures var moved := (files - {input})[backup := files[input]];
      Replay(files, [Op.Rename(input, backup)] + l.writes)
        == if l.writes == [] then moved else moved[input := l.writes[|l.writes| - 1].file]
  {
    ReplayAppend(files, [Op.Rename(input, backup)], l.writes);
    ReplaySnoc(files, [], Op.Rename(input, backup));
    assert [] + [Op.Rename(input, backup)] == [Op.Rename(input, backup)];
    ReplayWrites(Replay(files, [Op.Rename(input, backup)]), l.writes, input);
  }

  /**
   * After a normal return: the banner exists and holds a file the ladder
   * saved, of exactly the size returned; the backup is gone; no other path
   * changed.
   */
  lemma SuccessLeavesBannerWithoutBackup(files: Files, input: Path, budgetKb: int, enc: Encoder)
    requires Compress(files, input, budgetKb, enc).result.Success?
    ensures input in files && Decode(files[input]).Some? && BackupPath(input).Some?
    ensures var run := Compress(files, input, budgetKb, enc);
      var after := Replay(files, run.ops);
      var backup := BackupPath(input).value;
      && run.result.value.path == input
      && input in after && after[input].bytes == run.result.value.bytes && after[input].content.Saved?
      && backup !in after
      && forall p :: p != input && p != backup ==> (p in after <==> p in files) && (p in files ==> after[p] == files[p])
  {
    CompressSteps(files, input, budgetKb, enc);
    var original := Decode(files[input]).value;
    LadderWellShaped(input, original, budgetKb, enc);
    AcceptedLadderState(files, input, BackupPath(input).value, LadderFrom(input, original, budgetKb, enc), original, budgetKb);
  }

  lemma AcceptedLadderState(files: Files, input: Path, backup: Path, l: LadderRun, original: Image, budgetKb: int)
    requires input in files && input != backup && WellShaped(l, input, original, budgetKb) && l.outcome.Accepted?
    ensures var run := Finish(input, backup, l);
      var after := Replay(files, run.ops);
      && run.result == Success(Compressed(input, l.outcome.bytes))
      && input in after && after[input] == l.writes[|l.writes| - 1].file
      && backup !in after
      && forall p :: p != input && p != backup ==> (p in after <==> p in files) && (p in files ==> after[p] == files[p])
  {
    ReplayLadder(files, input, backup, l, original, budgetKb);
    ReplaySnoc(files, [Op.Rename(input, backup)] + l.writes, Op.Unlink(backup));
    MovedFrame(files, input, backup, Some(l.writes[|l.writes| - 1].file));
  }

  /**
   * An exception raised before the rename (no banner, not a picture, a
   * name with no stem) leaves the disk as it was.
   */
  lemma EarlyFailureChangesNothing(files: Files, input: Path, budgetKb: int, enc: Encoder)
    ensures Compress(files, input, budgetKb, enc).ops == []
      <==> Compress(files, input, budgetKb, enc).result.Failure?
           && Compress(files, input, budgetKb, enc).result.error in {FileNotFound, UnidentifiedImage, PathValueError}
    ensures Compress(files, input, budgetKb, enc).ops == [] ==> Replay(files, Compress(files, input, budgetKb, enc).ops) == files
  {
    if input in files && Decode(files[input]).Some? && input.name != "" {
      CompressSteps(files, input, budgetKb, enc);
      LadderRaisesOwnError(input, Decode(files[input]).value, budgetKb, enc);
    }
  }

  /**
   * An exception raised after the rename leaves the original in the
   * backup. The banner path then holds nothing if the PNG save raised; a
   * truncated file if a JPEG save raised, since that save had opened the
   * last JPEG for writing; and the quality-45 JPEG if the downscale's
   * resize raised. No other path changed.
   */
  lemma LateFailureKeepsBackup(files: Files, input: Path, budgetKb: int, enc: Encoder)
    requires input in files && Decode(files[input]).Some? && input.name != ""
    requires Compress(files, input, budgetKb, enc).result.Failure?
    ensures BackupPath(input).Some?
    ensures var run := Compress(files, input, budgetKb, enc);
      var after := Replay(files, run.ops);
      var backup := BackupPath(input).value;
      var error := run.result.error;
      && backup in after && after[backup] == files[input]
      && (error == SaveFailed(OptimizedPng) ==> input !in after)
      && (error.SaveFailed? && error != SaveFailed(OptimizedPng) ==> input in after && after[input] == TRUNCATED)
      && (error == ResizeFailed ==>
            var img := Flatten(Decode(files[input]).value);
            && enc(Jpeg(45), img).Some?
            && input in after && after[input] == File(enc(Jpeg(45), img).value, Saved(Jpeg(45), img)))
      && forall p :: p != input && p != backup ==> (p in after <==> p in files) && (p in files ==> after[p] == files[p])
  {
    CompressSteps(files, input, budgetKb, enc);
    var original := Decode(files[input]).value;
    var l := LadderFrom(input, original, budgetKb, enc);
    LadderWellShaped(input, original, budgetKb, enc);
    LadderRaisesOwnError(input, original, budgetKb, enc);
    EmptyLadderMeansPngRaised(input, original, budgetKb, enc);
    RaisedLadderState(files, input, BackupPath(input).value, l, original, budgetKb);
    if l.outcome.error == ResizeFailed {
      ResizeFailureFollowsQuality45(input, original, budgetKb, enc);
    }
  }

  /** The resize raises only after every quality was saved, so the quality-45 JPEG is the last write. */
  lemma ResizeFailureFollowsQuality45(input: Path, original: Image, budgetKb: int, enc: Encoder)
    requires LadderFrom(input, original, budgetKb, enc).outcome == Raised(Downscale, ResizeFailed)
    ensures var ws := LadderFrom(input, original, budgetKb, enc).writes;
      var img := Flatten(original);
      && enc(Jpeg(45), img).Some?
      && ws != [] && ws[|ws| - 1] == Write(input, File(enc(Jpeg(45), img).value, Saved(Jpeg(45), img)))
  {
    var png := Encode(OptimizedPng, Flatten(original), enc).value;
    var q := QualityLadder(input, original, QUALITIES, budgetKb, enc);
    assert LadderFrom(input, original, budgetKb, enc) == Then([Write(input, png)], q);
    QualityLadderEndsWithLastQuality(input, original, QUALITIES, budgetKb, enc);
  }

  /** A ladder whose resize raised ends with the save of its last quality. */
  lemma {:induction false} QualityLadderEndsWithLastQuality(input: Path, original: Image, qs: seq<nat>, budgetKb: int, enc: Encoder)
    requires qs != []
    requires QualityLadder(input, original, qs, budgetKb, enc).outcome == Raised(Downscale, ResizeFailed)
    ensures var ws := QualityLadder(input, original, qs, budgetKb, enc).writes;
      var img := Flatten(original);
      var last := qs[|qs| - 1];
      && enc(Jpeg(last), img).Some?
      && ws != [] && ws[|ws| - 1] == Write(input, File(enc(Jpeg(last), img).value, Saved(Jpeg(last), img)))
    decreases |qs|
  {
    var f := Encode(Jpeg(qs[0]), Flatten(original), enc).value;
    var rest := QualityLadder(input, original, qs[1..], budgetKb, enc);
    assert QualityLadder(input, original, qs, budgetKb, enc) == Then([Write(input, f)], rest);
    if |qs| == 1 {
      assert qs[1..] == [];
    } else {
      QualityLadderEndsWithLastQuality(input, original, qs[1..], budgetKb, enc);
      assert qs[1..][|qs| - 2] == qs[|qs| - 1];
    }
  }

  lemma RaisedLadderState(files: Files, input: Path, backup: Path, l: LadderRun, original: Image, budgetKb: int)
    requires input in files && input != backup && WellShaped(l, input, original, budgetKb)
    requires l.outcome.Raised? && StageRaisesOwnError(l.outcome)
    requires l.writes == [] <==> l.outcome.error == SaveFailed(OptimizedPng)
    ensures var run := Finish(input, backup, l);
      var after := Replay(files, run.ops);
      var error := l.outcome.error;
      && run.result == Failure(error)
      && backup in after && after[backup] == files[input]
      && (error == SaveFailed(OptimizedPng) ==> input !in after)
      && (error.SaveFailed? && error != SaveFailed(OptimizedPng) ==> input in after && after[input] == TRUNCATED)
      && (error == ResizeFailed ==> input in after && after[input].content.Saved?)
      && (l.writes != [] ==> input in after && after[input] == l.writes[|l.writes| - 1].file)
      && forall p :: p != input && p != backup ==> (p in after <==> p in files) && (p in files ==> after[p] == files[p])
  {
    ReplayLadder(files, input, backup, l, original, budgetKb);
    if l.writes == [] {
      MovedFrame(files, input, backup, None);
    } else {
      var last := l.writes[|l.writes| - 1];
      assert last.Write? && SavedFromOriginal(last.file, original);
      assert TRUNCATED.content.Foreign?;
      MovedFrame(files, input, backup, Some(last.file));
    }
  }

  /** The banner moved to the backup, and perhaps a new file saved at the banner's path. */
  lemma MovedFrame(files: Files, input: Path, backup: Path, saved: Option<File>)
    requires input in files && input != backup
    ensures var moved := (files - {input})[backup := files[input]];
      var after := if saved.None? then moved else moved[input := saved.value];
      && backup in after && after[backup] == files[input]
      && (input in after <==> saved.Some?)
      && (saved.Some? ==> after[input] == saved.value)
      && forall p :: p != input && p != backup ==> (p in after <==> p in files) && (p in files ==> after[p] == files[p])
  {
  }

  /**
   * The first operation moves the banner to the backup, so that the banner
   * path is empty until the PNG is saved there; any stale backup is
   * replaced.
   */
  lemma RenameComesFirst(files: Files, input: Path, budgetKb: int, enc: Encoder)
    requires input in files && Decode(files[input]).Some? && input.name != ""
    ensures var run := Compress(files, input, budgetKb, enc);
      var backup := BackupPath(input).value;
      var moved := Replay(files, run.ops[..1]);
      && run.ops[0] == Op.Rename(input, backup)
      && input !in moved && backup in moved && moved[backup] == files[input]
      && (|run.ops| > 1 ==>
            var img := Flatten(Decode(files[input]).value);
            enc(OptimizedPng, img).Some? && run.ops[1] == Write(input, File(enc(OptimizedPng, img).value, Saved(OptimizedPng, img))))
  {
    CompressSteps(files, input, budgetKb, enc);
    var run := Compress(files, input, budgetKb, enc);
    var backup := BackupPath(input).value;
    var original := Decode(files[input]).value;
    assert run.ops[..1] == [] + [Op.Rename(input, backup)];
    ReplaySnoc(files, [], Op.Rename(input, backup));
    var l := LadderFrom(input, original, budgetKb, enc);
    if |run.ops| > 1 {
      if l.writes == [] {
        assert l.outcome.Accepted?;
        LadderWellShaped(input, original, budgetKb, enc);
      }
      EmptyLadderMeansPngRaised(input, original, budgetKb, enc);
      assert run.ops[1] == l.writes[0];
    }
  }

  /**
   * A result over budget can only come from the downscale: every earlier
   * stage is accepted only under budget. So main's verdict is "NO" only
   * after the downscale.
   */
  lemma OverBudgetOnlyAfterDownscale(files: Files, input: Path, budgetKb: int, enc: Encoder)
    requires Compress(files, input, budgetKb, enc).result.Success?
    requires !Fits(Compress(files, input, budgetKb, enc).result.value.bytes, budgetKb)
    ensures input in files && Decode(files[input]).Some?
    ensures LadderFrom(input, Decode(files[input]).value, budgetKb, enc).outcome.stage == Downscale
  {
    CompressSteps(files, input, budgetKb, enc);
    LadderWellShaped(input, Decode(files[input]).value, budgetKb, enc);
  }

  // ---------------------------------------------------------- running twice

  /**
   * Running again on a banner that the first run left as a PNG repeats the
   * PNG save, accepts it at once, and leaves the disk as the first run did.
   */
  lemma PngResultIsStable(files: Files, input: Path, budgetKb: int, enc: Encoder)
    requires input in files && Decode(files[input]).Some? && input.name != ""
    requires var png := enc(OptimizedPng, Flatten(Decode(files[input]).value));
      png.Some? && Fits(png.value, budgetKb)
    ensures var first := Compress(files, input, budgetKb, enc);
      var after := Replay(files, first.ops);
      var second := Compress(after, input, budgetKb, enc);
      && second.result == first.result
      && second.ops == first.ops
      && Replay(after, second.ops) == after
  {
    var original := Decode(files[input]).value;
    var img := Flatten(original);
    FlattenIdempotent(original);
    CompressSteps(files, input, budgetKb, enc);
    var backup := BackupPath(input).value;
    var first := Compress(files, input, budgetKb, enc);
    var l := LadderFrom(input, original, budgetKb, enc);
    var pngFile := File(enc(OptimizedPng, img).value, Saved(OptimizedPng, img));
    assert l.writes == [Write(input, pngFile)];
    LadderWellShaped(input, original, budgetKb, enc);
    ReplayLadder(files, input, backup, l, original, budgetKb);
    ReplaySnoc(files, [Op.Rename(input, backup)] + l.writes, Op.Unlink(backup));
    var after := Replay(files, first.ops);
    assert after == ((files - {input})[backup := files[input]])[input := pngFile] - {backup};
    assert input in after && after[input] == pngFile;
    assert Decode(pngFile) == Some(img);
    CompressSteps(after, input, budgetKb, enc);
    var l2 := LadderFrom(input, img, budgetKb, enc);
    assert l2 == l;
    ReplayLadder(after, input, backup, l2, img, budgetKb);
    ReplaySnoc(after, [Op.Rename(input, backup)] + l2.writes, Op.Unlink(backup));
    assert Replay(after, first.ops) == ((after - {input})[backup := after[input]])[input := pngFile] - {backup};
  }

  /**
   * Encoder sizes for a 1200 x 630 opaque banner: the optimized PNG is
   * 320 KB, quality 95 is 310 KB and every lower quality 280 KB.
   */
  function ScenarioSizes(e: Encoding, img: Image): Option<nat> {
    if e == OptimizedPng then Some(327_680)
    else if e == Jpeg(95) then Some(317_440)
    else Some(286_720)
  }

  /** Under ScenarioSizes and a 300 KB budget, the PNG and quality 95 are over, quality 85 is accepted. */
  lemma ScenarioLadder(input: Path, img: Image)
    requires Mode(img) == RGB
    ensures LadderFrom(input, img, 300, ScenarioSizes) ==
      LadderRun([Write(input, File(327_680, Saved(OptimizedPng, img))),
                 Write(input, File(317_440, Saved(Jpeg(95), img))),
                 Write(input, File(286_720, Saved(Jpeg(85), img)))],
                Accepted(Quality(85), 286_720))
  {
    assert Flatten(img) == img;
    assert QUALITIES[0] == 95 && QUALITIES[1..][0] == 85;
  }

  /** One run under ScenarioSizes on a banner that decodes to an RGB picture. */
  lemma ScenarioRun(files: Files, input: Path, backup: Path, img: Image)
    requires input in files && Decode(files[input]) == Some(img) && Mode(img) == RGB
    requires BackupPath(input) == Some(backup)
    ensures var run := Compress(files, input, 300, ScenarioSizes);
      var after := Replay(files, run.ops);
      && run.result == Success(Compressed(input, 286_720))
      && input in after && after[input] == File(286_720, Saved(Jpeg(85), img))
      && backup !in after
  {
    CompressSteps(files, input, 300, ScenarioSizes);
    ScenarioLadder(input, img);
    LadderWellShaped(input, img, 300, ScenarioSizes);
    AcceptedLadderState(files, input, backup, LadderFrom(input, img, 300, ScenarioSizes), img, 300);
  }

  /**
   * The worked example: a 450 KB opaque 1200 x 630 PNG banner whose PNG
   * re-encode is 320 KB and quality-95 JPEG 310 KB ends as a quality-85
   * JPEG of 280 KB, with the backup deleted.
   */
  lemma BannerScenario(dir: seq<Name>, id: nat)
    ensures var input := Path(dir, BANNER);
      var original := Decoded(id, 1200, 630, RGB);
      var files := map[input := File(460_800, Foreign(Some(original)))];
      var run := Compress(files, input, 300, ScenarioSizes);
      var after := Replay(files, run.ops);
      && run.result == Success(Compressed(input, 286_720))
      && SizeKb(286_720) == 280.0
      && input in after && after[input].content == Saved(Jpeg(85), original)
      && Path(dir, BANNER_BACKUP) !in after
  {
    var input := Path(dir, BANNER);
    var original := Decoded(id, 1200, 630, RGB);
    BannerBackupName(dir);
    ScenarioRun(map[input := File(460_800, Foreign(Some(original)))], input, Path(dir, BANNER_BACKUP), original);
  }

  /**
   * Running again on a banner that the first run left as a JPEG does not
   * stop at the lossless stage, although that banner is under budget: in
   * the worked example the second run re-encodes the 280 KB JPEG as a
   * 320 KB PNG, then walks the JPEG ladder again and writes a quality-85
   * JPEG of what it read back.
   */
  lemma JpegResultIsNotStable(dir: seq<Name>, id: nat)
    ensures var input := Path(dir, BANNER);
      var original := Decoded(id, 1200, 630, RGB);
      var files := map[input := File(460_800, Foreign(Some(original)))];
      var first := Compress(files, input, 300, ScenarioSizes);
      var after := Replay(files, first.ops);
      var second := Compress(after, input, 300, ScenarioSizes);
      && input in after && Fits(after[input].bytes, 300)
      && Decode(after[input]).Some?
      && LadderFrom(input, Decode(after[input]).value, 300, ScenarioSizes).outcome.stage != Lossless
      && input in Replay(after, second.ops)
      && Replay(after, second.ops)[input].content == Saved(Jpeg(85), JpegDecoded(original, 85))
      && Replay(after, second.ops)[input] != after[input]
  {
    var input := Path(dir, BANNER);
    var backup := Path(dir, BANNER_BACKUP);
    var original := Decoded(id, 1200, 630, RGB);
    var files := map[input := File(460_800, Foreign(Some(original)))];
    BannerBackupName(dir);
    ScenarioRun(files, input, backup, original);
    var after := Replay(files, Compress(files, input, 300, ScenarioSizes).ops);
    SecondRunOnJpeg(after, input, backup, original);
  }

  /** The second run of JpegResultIsNotStable, on any banner holding the quality-85 JPEG of an RGB picture. */
  lemma SecondRunOnJpeg(after: Files, input: Path, backup: Path, original: Image)
    requires input in after && after[input] == File(286_720, Saved(Jpeg(85), original)) && Mode(original) == RGB
    requires BackupPath(input) == Some(backup)
    ensures Fits(after[input].bytes, 300) && Decode(after[input]) == Some(JpegDecoded(original, 85))
    ensures LadderFrom(input, JpegDecoded(original, 85), 300, ScenarioSizes).outcome.stage != Lossless
    ensures var second := Compress(after, input, 300, ScenarioSizes);
      var final := Replay(after, second.ops);
      && input in final && final[input] == File(286_720, Saved(Jpeg(85), JpegDecoded(original, 85)))
      && final[input] != after[input]
  {
    ScenarioRun(after, input, backup, JpegDecoded(original, 85));
    ScenarioLadder(input, JpegDecoded(original, 85));
    JpegReadBackDiffers(original, 85);
  }

  /**
   * Encoder sizes under which nothing at full size fits 300 KB: the
   * optimized PNG is 400 KB, every JPEG of the full-size picture exactly
   * 300 KB, and a JPEG of a resized picture 250 KB.
   */
  function DownscaleSizes(e: Encoding, img: Image): Option<nat> {
    if e == OptimizedPng then Some(409_600)
    else if img.Resized? then Some(256_000)
    else Some(307_200)
  }

  /**
   * The last resort on the banner: when the PNG and every quality down to
   * 45 are at or over 300 KB, the 1200 x 630 picture is scaled to 960 x 504
   * and saved at quality 85; that 250 KB JPEG is returned, after ten
   * operations, with the backup deleted.
   */
  lemma DownscaleScenario(dir: seq<Name>, id: nat)
    ensures var input := Path(dir, BANNER);
      var original := Decoded(id, 1200, 630, RGB);
      var files := map[input := File(460_800, Foreign(Some(original)))];
      var run := Compress(files, input, 300, DownscaleSizes);
      var after := Replay(files, run.ops);
      && !Fits(DownscaleSizes(Jpeg(45), original).value, 300)
      && run.result == Success(Compressed(input, 256_000))
      && |run.ops| == 10
      && input in after && after[input].content == Saved(Jpeg(85), Resized(original, 960, 504))
      && Path(dir, BANNER_BACKUP) !in after
  {
    var input := Path(dir, BANNER);
    var backup := Path(dir, BANNER_BACKUP);
    var original := Decoded(id, 1200, 630, RGB);
    var files := map[input := File(460_800, Foreign(Some(original)))];
    BannerBackupName(dir);
    assert Flatten(original) == original;
    assert ScaleDim(1200) == 960 && ScaleDim(630) == 504;
    DownscaleAcceptsAnySize(input, original, 300, DownscaleSizes, 256_000);
    CompressSteps(files, input, 300, DownscaleSizes);
    LadderWellShaped(input, original, 300, DownscaleSizes);
    AcceptedLadderState(files, input, backup, LadderFrom(input, original, 300, DownscaleSizes), original, 300);
  }
}
