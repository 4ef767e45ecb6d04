# OG banner compressor, modelled in Dafny

`scripts/compress_og_banner.py` shrinks the site's Open Graph banner
(`public/og-banner.png`) below a size budget, 300 KB by default, so that
WhatsApp shows it in link previews. `compress_image` opens the banner
and flattens an RGBA image onto white. It then moves the banner to a
sibling backup (`og-banner.backup.png`) and saves the flattened image
over the banner path as an optimized PNG. If that is not under budget, it
saves JPEGs at qualities 95, 85, 75, 65, 55 and 45. If none is under
budget, it reloads the original from the backup, flattens it again and
scales it to four fifths. It saves that once as a quality-85 JPEG and
accepts it whatever its size. The backup is deleted once a stage is
accepted. `main` checks that the banner exists, runs `compress_image`
with a 300 KB budget and reports whether the result is "WhatsApp
compatible".

The project has these modules:

- `Paths` (`paths.dfy`): the part of `pathlib` the script uses: stem,
  suffix, and `with_suffix('.backup.png')`, under the Python 3.14 rules
  the script's first line asks for. A path component never holds the
  separator and is never `.`.
- `Images` (`images.dfy`): PIL kept abstract. An image is known by how
  it was made. An encoder is a parameter that gives the byte size of each
  save, or says that the save raised.
- `Errors` (`errors.dfy`): the exceptions `compress_image` can raise.
- `FileSystems` (`filesystem.dfy`): the disk as a map from paths to
  files. The class `FileSystem` performs open, stat, rename, save and
  unlink. Each change is appended to a ghost log, and the files are
  always the log replayed on the initial disk.
- `Ladder` (`ladder.dfy`): `Compress`, a function that gives what
  `compress_image` does on a given disk. That is the operations, in order,
  and the value it returns or the exception it raises.
- `CompressOgBanner` (`compress.dfy`): `compress_image` as imperative
  methods, one per part of the script: the open and the rename
  (`CompressImage`), the PNG attempt (`RunLadder`), the loop over the
  qualities (`JpegLadder`, one pass of it in `QualityRung`) and the last
  resort (`LastResort`). Each is proved to perform exactly the operations
  of its part of `Compress`, so `CompressImage` performs those of
  `Compress` and returns its result. `JpegLadder` takes the list of
  qualities as a parameter; `RunLadder` passes the script's
  95, 85, 75, 65, 55, 45. `main` is also here.
- `LadderProperties` (`properties.dfy`): what that behaviour guarantees.
  The first fit is chosen, the PNG is preferred, and the comparison is
  strict. The downscale is the last resort. The backup is gone after a
  success and holds the original after a failure past the rename. A
  second run on a PNG result changes nothing, and a second run on a JPEG
  result is not stable.

Three behaviours of the code follow from its text:

- Acceptance is `size < budget` at every stage (lines 44 and 57). A file
  of exactly the budget is rejected (`SizeAtBudgetIsRejected`).
- Running the compressor again on its own output is stable only when that
  output is a PNG (`PngResultIsStable`). A JPEG result under budget is
  decoded and re-encoded as a PNG by the second run. That PNG can be over
  budget even though the JPEG was not, so the second run goes down the
  JPEG ladder again and re-encodes an already lossy image
  (`JpegResultIsNotStable`, on the worked example of a 320 KB PNG).
- `Image.save` opens its target for writing before it encodes, and when
  encoding raises it deletes the target only if the save created it. So
  after an exception raised later than the rename, the banner path is
  empty if the PNG save raised (the rename had emptied it), holds a
  truncated file if a JPEG save raised, and still holds the quality-45
  JPEG if the resize raised (`LateFailureKeepsBackup`). The backup still
  holds the original in every case.

## Model

| member | source | states |
|---|---|---|
| Paths.Stem | scripts/compress_og_banner.py:34 | the definition of `PurePath.stem` in Python 3.14: the name up to its last dot when that part holds a character other than a dot, else the whole name |
| Paths.StemIsName | scripts/compress_og_banner.py:34 | the stem of a path component holds no separator and is not `.` |
| Paths.LastDot | scripts/compress_og_banner.py:34 | the index of the last dot of a name, or -1; no dot after it |
| Paths.StemCutsAtLastDot | scripts/compress_og_banner.py:34 | the stem is a prefix of the name, empty only for an empty name, and when shorter stops at the name's last dot |
| Paths.Suffix | scripts/compress_og_banner.py:34 | stem followed by suffix is the name |
| Paths.WithSuffix | scripts/compress_og_banner.py:34 | `with_suffix` succeeds exactly for a non-empty name and a suffix that is empty or starts with a dot and holds no separator; the result is the stem plus the new suffix, in the same directory |
| Paths.BackupPath | scripts/compress_og_banner.py:34 | the backup path exists exactly when the banner's name is non-empty (otherwise ValueError) |
| Paths.BackupIsSiblingNotSelf | scripts/compress_og_banner.py:34-35 | the backup is in the banner's directory, is never the banner itself, and its name is longer than `.backup.png` |
| Paths.BannerBackupName | scripts/compress_og_banner.py:34 | the backup of `og-banner.png` is `og-banner.backup.png` |
| Images.Flatten | scripts/compress_og_banner.py:27-31 | the definition of the RGBA branch: an RGBA image is composited onto white as RGB, any other image is kept |
| Images.FlattenRemovesAlpha | scripts/compress_og_banner.py:27-31 | flattening keeps width and height and leaves no RGBA image: RGBA becomes RGB, any other mode is unchanged |
| Images.FlattenIdempotent | scripts/compress_og_banner.py:66-70 | flattening an already flattened image changes nothing |
| Images.ScaleDim | scripts/compress_og_banner.py:72-74 | the definition of `int(n * 0.8)` as the whole part of 4n/5 |
| Images.ScaleDimTruncates | scripts/compress_og_banner.py:72-74 | the scaled dimension is the whole part of n times 0.8 |
| Images.Resize | scripts/compress_og_banner.py:75 | resizing succeeds exactly when both target dimensions are positive, and gives those dimensions |
| Images.Decode | scripts/compress_og_banner.py:20 | the definition of `Image.open` on a file: its picture, none for a file that is not a picture, and the lossy read-back for a saved JPEG |
| Images.Encode | scripts/compress_og_banner.py:40-77 | the definition of the file `Image.save` writes: none when the encoder raises, otherwise a file of the encoder's size holding the image in that encoding |
| Images.PngRoundTrip | scripts/compress_og_banner.py:40 | reading back a saved PNG gives the image saved |
| Images.JpegReadBackDiffers | scripts/compress_og_banner.py:53 | reading back a saved JPEG never gives the image saved |
| FileSystems.Apply | scripts/compress_og_banner.py:35-46 | the definition of the effect of a rename, a save and an unlink on the disk |
| FileSystems.ApplyEffect | scripts/compress_og_banner.py:35-46 | rename moves the file and replaces the target, save creates or overwrites, unlink removes; no other path changes |
| FileSystems.ReplaySnoc | scripts/compress_og_banner.py:35-81 | replaying one more operation applies it to the replayed disk |
| FileSystems.ReplayAppend | scripts/compress_og_banner.py:35-81 | replaying two runs of operations in turn is replaying their concatenation |
| FileSystems.ReplayWrites | scripts/compress_og_banner.py:52-53 | repeated saves to one path leave only the last file there and no other path changed |
| FileSystems.FileSystem.Exists | scripts/compress_og_banner.py:90 | true exactly when the path holds a file |
| FileSystems.FileSystem.Open | scripts/compress_og_banner.py:20 | FileNotFound for a missing path, UnidentifiedImage for a file that is not a picture, otherwise the decoded image |
| FileSystems.FileSystem.Size | scripts/compress_og_banner.py:41 | the byte size of the file at the path |
| FileSystems.FileSystem.Perform | scripts/compress_og_banner.py:35-81 | the disk becomes the operation applied to it, and the operation is logged |
| FileSystems.FileSystem.Rename | scripts/compress_og_banner.py:35 | the file moves to the target, replacing whatever was there; logged |
| FileSystems.FileSystem.Save | scripts/compress_og_banner.py:40 | when the encoder succeeds the path holds the new file; when it raises, a path that held a file holds an empty truncated file and a path that held none stays empty; every change is logged |
| FileSystems.FileSystem.Unlink | scripts/compress_og_banner.py:46 | the path no longer holds a file; logged |
| Ladder.SizeKb | scripts/compress_og_banner.py:41 | the definition of `st_size / 1024`, the size in kilobytes that the script compares and prints (also at lines 54, 78 and 105) |
| Ladder.Fits | scripts/compress_og_banner.py:44-57 | the definition of the acceptance test, strict, on whole bytes |
| Ladder.FitsIsKilobyteComparison | scripts/compress_og_banner.py:41-44 | the byte test used by the model is exactly `size / 1024 < budget` |
| Ladder.Compress | scripts/compress_og_banner.py:9-82 | the definition of a call of `compress_image`: the operations it performs in order and its result or exception |
| Ladder.LadderFrom | scripts/compress_og_banner.py:38-62 | the definition of the ladder after the rename: the PNG, accepted under budget, else the JPEG qualities |
| Ladder.QualityLadder | scripts/compress_og_banner.py:52-62 | the definition of the JPEG loop: the first quality under budget is accepted, a raising save truncates the banner and stops, and after the last quality comes the downscale |
| Ladder.DownscaledImage | scripts/compress_og_banner.py:67-75 | the definition of the last resort's picture: the reloaded original flattened again, then resized to `int(w * 0.8)` x `int(h * 0.8)` |
| Ladder.DownscaleStage | scripts/compress_og_banner.py:64-82 | the definition of the last resort: flatten, scale to four fifths, save once at quality 85, accept whatever the size |
| Ladder.Finish | scripts/compress_og_banner.py:35-82 | the definition of a run after the open: the rename, the ladder's writes, and the unlink of the backup with the return when the ladder accepted |
| Ladder.CompressAfterBackup | scripts/compress_og_banner.py:20-35 | an unfolding of `Compress` used by `CompressImage`: once the banner opened and the backup path exists, the run is the rename followed by the ladder |
| Ladder.QualityStep | scripts/compress_og_banner.py:52-62 | an unfolding of `QualityLadder` used by `QualityRung`, one quality: a raising save truncates the banner and stops the ladder, a save under budget is accepted, a save over budget goes on to the next quality |
| CompressOgBanner.CompressImage | scripts/compress_og_banner.py:9-82 | performs exactly the operations of `Compress`, in order, and returns or raises what `Compress` gives; the disk stays the log replayed |
| CompressOgBanner.RunLadder | scripts/compress_og_banner.py:38-82 | after the rename, performs exactly the writes of `LadderFrom`, then the unlink of the backup when a stage accepts, and ends as `LadderFrom` does |
| CompressOgBanner.JpegLadder | scripts/compress_og_banner.py:52-82 | performs exactly the writes of `QualityLadder` over the given qualities, then the unlink when a stage accepts, and ends as that ladder does |
| CompressOgBanner.QualityRung | scripts/compress_og_banner.py:52-62 | one pass of the loop: when it stops, its outcome and operations are those of the ladder from that quality; when it goes on, the ladder goes on from the next quality after its one write |
| CompressOgBanner.LastResort | scripts/compress_og_banner.py:64-82 | performs exactly the write of `DownscaleStage` on the picture in the backup, then the unlink when it accepts, and ends as that stage does |
| CompressOgBanner.WhatsAppCompatible | scripts/compress_og_banner.py:105 | the verdict `final_size < 300` is the budget test at 300 KB |
| CompressOgBanner.CompressBanner | scripts/compress_og_banner.py:85-118 | a missing banner gives exit code 1 and no change; otherwise the disk becomes the replay of `Compress`'s operations, with exit code 0 and the verdict on success, exit code 1 on an exception |
| LadderProperties.PrependSave | scripts/compress_og_banner.py:52-62 | a save to the banner before a well-shaped rest of the ladder keeps it well shaped |
| LadderProperties.QualityLadderWellShaped | scripts/compress_og_banner.py:52-82 | every write goes to the banner path and all but the last are completed saves; an accepted step is the last save, in its own encoding, and is under budget unless it is the downscale; a raising run ends with a truncated file exactly when a JPEG save raised |
| LadderProperties.LadderWellShaped | scripts/compress_og_banner.py:38-82 | the same for the whole ladder from the PNG on |
| LadderProperties.SavedImagesHaveNoAlpha | scripts/compress_og_banner.py:27-70 | no image the ladder saves is RGBA; a write that is not a save leaves a truncated file |
| LadderProperties.QualityLadderAcceptsFirstFit | scripts/compress_og_banner.py:52-60 | when quality k is the first to fit, it is accepted at its size |
| LadderProperties.QualityLadderAcceptsOnlyFirstFit | scripts/compress_og_banner.py:52-62 | an accepted quality is the first that fits, after every earlier one saved over budget |
| LadderProperties.AcceptedQualityIsFirstFit | scripts/compress_og_banner.py:44-62 | a JPEG quality is accepted exactly when the PNG was over budget and it is the first of 95..45 under budget |
| LadderProperties.LosslessFitIsFinal | scripts/compress_og_banner.py:40-47 | the PNG is accepted exactly when it is under budget, and then it is the only save |
| LadderProperties.QualityLadderNeverLossless | scripts/compress_og_banner.py:52-82 | after the PNG, no stage is the lossless one, and every exception comes from its own stage |
| LadderProperties.LadderRaisesOwnError | scripts/compress_og_banner.py:40-77 | an exception is the raising save's own, or the resize's at the downscale |
| LadderProperties.EmptyLadderMeansPngRaised | scripts/compress_og_banner.py:40 | the ladder writes nothing exactly when the PNG save raises |
| LadderProperties.SizeAtBudgetIsRejected | scripts/compress_og_banner.py:44-53 | a PNG of exactly the budget is rejected and quality 95 is saved next |
| LadderProperties.QualityLadderExhausted | scripts/compress_og_banner.py:52-82 | when every quality is over budget, the ladder ends as the downscale does, after one save per quality |
| LadderProperties.QualityLadderReachesDownscale | scripts/compress_og_banner.py:52-65 | the downscale is reached only after every quality saved over budget |
| LadderProperties.DownscaleOnlyWhenNothingFits | scripts/compress_og_banner.py:44-65 | the downscale is reached exactly when the PNG and all six JPEGs were over budget |
| LadderProperties.DownscaleAcceptsAnySize | scripts/compress_og_banner.py:66-82 | then exactly seven files were saved before the downscale's own write; the original is flattened, scaled to four fifths and saved once at quality 85, and accepted whatever its size; a dimension that scales to zero raises; a raising save leaves the banner truncated |
| LadderProperties.QualityLadderSuffix | scripts/compress_og_banner.py:52-82 | when every quality is over budget, the ladder's writes end with those of the downscale |
| LadderProperties.CompressSteps | scripts/compress_og_banner.py:20-35 | for an openable banner with a name, the backup path exists, differs from the banner, and the run is the rename then the ladder |
| LadderProperties.ReplayLadder | scripts/compress_og_banner.py:35-77 | after the rename and the saves, the original is at the backup and the last save at the banner |
| LadderProperties.SuccessLeavesBannerWithoutBackup | scripts/compress_og_banner.py:44-82 | after a return, the banner holds a saved file of the size returned, the backup is gone, and no other path changed |
| LadderProperties.AcceptedLadderState | scripts/compress_og_banner.py:46-81 | an accepted ladder leaves its last save at the banner and no backup |
| LadderProperties.EarlyFailureChangesNothing | scripts/compress_og_banner.py:20-34 | no operation is performed exactly when the banner is missing, is not a picture, or has no name, and then the disk is unchanged |
| LadderProperties.LateFailureKeepsBackup | scripts/compress_og_banner.py:35-77 | after an exception raised later than the rename, the backup holds the original; the banner path is empty if the PNG save raised, holds a truncated file if a JPEG save raised, and holds the quality-45 JPEG of the flattened original if the resize raised; no other path changed |
| LadderProperties.RaisedLadderState | scripts/compress_og_banner.py:35-77 | a ladder that raised leaves the original at the backup and, at the banner, nothing, a truncated file or a saved file according to what raised; the banner holds the ladder's last write whenever there was one |
| LadderProperties.ResizeFailureFollowsQuality45 | scripts/compress_og_banner.py:52-75 | when the resize raises, the ladder's last write is the completed quality-45 save of the flattened original |
| LadderProperties.QualityLadderEndsWithLastQuality | scripts/compress_og_banner.py:52-75 | when the resize raises, the JPEG loop's last write is the completed save at its last quality |
| LadderProperties.MovedFrame | scripts/compress_og_banner.py:35 | moving the banner to the backup and saving at the banner touches no other path |
| LadderProperties.RenameComesFirst | scripts/compress_og_banner.py:34-40 | the first operation moves the banner to the backup, replacing any stale backup, and leaves the banner path empty; the next, if any, is the completed PNG save of the flattened picture |
| LadderProperties.OverBudgetOnlyAfterDownscale | scripts/compress_og_banner.py:72-82 | a result over budget comes only from the downscale |
| LadderProperties.PngResultIsStable | scripts/compress_og_banner.py:40-47 | a second run on a PNG result saves the same PNG, returns the same result and leaves the disk as it was |
| LadderProperties.ScenarioLadder | scripts/compress_og_banner.py:38-60 | with a 320 KB PNG and a 310 KB quality 95, quality 85 at 280 KB is accepted after three saves |
| LadderProperties.ScenarioRun | scripts/compress_og_banner.py:9-60 | that run returns 280 KB, the banner is a quality-85 JPEG and the backup is gone |
| LadderProperties.BannerScenario | scripts/compress_og_banner.py:9-60 | the worked example on `og-banner.png`: 450 KB in, a quality-85 JPEG of 280 KB out, no `og-banner.backup.png` left |
| LadderProperties.JpegResultIsNotStable | scripts/compress_og_banner.py:38-60 | a second run on that 280 KB JPEG does not stop at the PNG, and overwrites it with a JPEG of its lossy read-back |
| LadderProperties.SecondRunOnJpeg | scripts/compress_og_banner.py:38-60 | on a banner holding that quality-85 JPEG, the second run saves a quality-85 JPEG of its read-back, a different file |
| LadderProperties.DownscaleScenario | scripts/compress_og_banner.py:9-82 | with a 400 KB PNG and every JPEG at exactly 300 KB (quality 45 included), a 1200 x 630 banner is scaled to 960 x 504 and saved at quality 85; that 250 KB JPEG is returned after ten operations and the backup is gone |

## Left out

- `scripts/generate_og_banner.py` (drawing the banner) is not part of this model.
- Printing, the progress messages and the traceback in `main` are left out. So is the `original_size` that is only printed.
- Pixels, compositing, Lanczos resampling and the PNG and JPEG codecs are left out. An image is symbolic, and the encoder is a parameter giving each save's byte size or an exception.
- FileSystems.FileSystem.Save: a save that raises over an existing file is modelled as leaving it empty and holding no picture. Bytes Pillow may have written before the encoder raised are not modelled.
- `Image.open` reads lazily in Pillow. The model decodes at once, so reading pixels from a file that has since been renamed is not modelled.
- Sizes are whole bytes. The script's float kilobytes and their display rounding are left out; `Ladder.FitsIsKilobyteComparison` shows the comparison is the same.
- Floating point: `int(n * 0.8)` is modelled as the whole part of 4n/5. The double nearest 0.8 is larger by about 4.4e-17, too little to move the floor for any image size Pillow can hold, so the two agree.
- Python 3.13 and earlier compute the stem differently, and the model follows Python 3.14. The versions agree on names made only of dots. They disagree on a name ending in a dot (`foo.`: `foo..backup.png` before 3.14, `foo.backup.png` here) and on a name starting with dots (`..foo`: `..backup.png` before 3.14, `..foo.backup.png` here).
- Images.JpegReadBackDiffers: that every JPEG read back is a different image is an assumption of the model, which gives each read-back a new `JpegDecoded` image. A real JPEG of flat content can decode to exactly the pixels saved.
- `CompressOgBanner.CompressBanner`: takes the banner path as a parameter. Resolving it from `__file__` is left out.
- `CompressOgBanner.CompressBanner`: only the exceptions that `compress_image` itself raises are modelled. Failures of `exists`, `rename` or `unlink` at the operating-system level (permissions, races with other processes) are left out, and so is concurrency.
- `FileSystems.Apply`: renaming or unlinking a missing path leaves the map as it is. The `FileSystem` methods require the path to exist, as the script's own order of operations ensures.
- `FileSystems.Apply`: POSIX `rename` is assumed, which silently replaces an existing target. On Windows, `Path.rename` raises over a stale `og-banner.backup.png`, and it cannot move a banner that the lazily loaded image still holds open; neither is modelled.
