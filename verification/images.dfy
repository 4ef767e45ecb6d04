/**
 * The PIL side of the compressor, kept abstract: an image is known by how
 * it was made (decoded from a file, flattened, resized, decoded back from
 * a JPEG), and an encoder is an oracle that says how many bytes a save
 * writes, or that the save raised.
 */
module Images {
  import opened Wrappers

  const RGBA: string := "RGBA"
  const RGB: string := "RGB"

  datatype Image =
    | Decoded(id: nat, w: nat, h: nat, mode: string)         // read from a file the compressor did not write
    | Flattened(source: Image)                               // pasted onto an opaque white RGB canvas
    | Resized(source: Image, newWidth: nat, newHeight: nat)  // Lanczos resampling
    | JpegDecoded(source: Image, quality: nat)               // what reading back a JPEG gives: lossy

  function Width(img: Image): nat {
    match img
    case Decoded(_, w, _, _) => w
    case Flattened(src) => Width(src)
    case Resized(_, w, _) => w
    case JpegDecoded(src, _) => Width(src)
  }

  function Height(img: Image): nat {
    match img
    case Decoded(_, _, h, _) => h
    case Flattened(src) => Height(src)
    case Resized(_, _, h) => h
    case JpegDecoded(src, _) => Height(src)
  }

  function Mode(img: Image): string {
    match img
    case Decoded(_, _, _, m) => m
    case Flattened(_) => RGB
    case Resized(src, _, _) => Mode(src)
    case JpegDecoded(src, _) => Mode(src)
  }

  /**
   * The RGBA branch of the compressor: an image with an alpha channel is
   * composited onto white and becomes RGB of the same size; any other mode
   * is left as it is.
   */
  function Flatten(img: Image): Image {
    if Mode(img) == RGBA then Flattened(img) else img
  }

  /**
   * Flattening keeps the size and leaves no alpha channel: an RGBA image
   * becomes RGB, any other image is unchanged.
   */
  lemma FlattenRemovesAlpha(img: Image)
    ensures Width(Flatten(img)) == Width(img) && Height(Flatten(img)) == Height(img)
    ensures Mode(Flatten(img)) != RGBA
    ensures Mode(img) == RGBA ==> Mode(Flatten(img)) == RGB
    ensures Mode(img) != RGBA ==> Flatten(img) == img
  {
  }

  /** Flattening twice is flattening once. */
  lemma FlattenIdempotent(img: Image)
    ensures Flatten(Flatten(img)) == Flatten(img)
  {
  }

  /** `int(n * 0.8)`: the largest whole number not above four fifths of n. */
  function ScaleDim(n: nat): nat {
    (4 * n) / 5
  }

  /** ScaleDim(n) is `int(n * 0.8)`: the whole part of four fifths of n. */
  lemma ScaleDimTruncates(n: nat)
    ensures ScaleDim(n) as real <= n as real * 0.8 < ScaleDim(n) as real + 1.0
  {
  }

  /**
   * `Image.resize`: None stands for the ValueError Pillow raises when a
   * target dimension is zero.
   */
  function Resize(img: Image, w: nat, h: nat): (r: Option<Image>)
    ensures r.Some? <==> w > 0 && h > 0
    ensures r.Some? ==> Width(r.value) == w && Height(r.value) == h
  {
    if w == 0 || h == 0 then None else Some(Resized(img, w, h))
  }

  /** The two ways the compressor saves: optimized PNG at level 9, optimized JPEG at a quality. */
  datatype Encoding = OptimizedPng | Jpeg(quality: nat)

  /** How many bytes saving an image with an encoding writes; None when the save raises. */
  type Encoder = (Encoding, Image) -> Option<nat>

  /** A file's content: one the compressor found, which may or may not decode, or one it saved. */
  datatype Content = Foreign(picture: Option<Image>) | Saved(encoding: Encoding, image: Image)

  datatype File = File(bytes: nat, content: Content)

  /**
   * What a raising `Image.save` leaves at a path that already held a file:
   * Pillow opens the target for writing before it encodes, so the file is
   * cut to nothing and holds no picture.
   */
  const TRUNCATED: File := File(0, Foreign(None))

  /** `Image.open`: None stands for the UnidentifiedImageError of a file that is not a picture. */
  function Decode(f: File): Option<Image> {
    match f.content
    case Foreign(pic) => pic
    case Saved(OptimizedPng, img) => Some(img)
    case Saved(Jpeg(q), img) => Some(JpegDecoded(img, q))
  }

  /** The file `Image.save` writes, sized by the encoder; None when the save raises. */
  function Encode(e: Encoding, img: Image, enc: Encoder): Option<File>
  {
    match enc(e, img)
    case None => None
    case Some(bytes) => Some(File(bytes, Saved(e, img)))
  }

  /** PNG is lossless: decoding a saved PNG gives back exactly the image that was saved. */
  lemma PngRoundTrip(img: Image, enc: Encoder)
    requires enc(OptimizedPng, img).Some?
    ensures Decode(Encode(OptimizedPng, img, enc).value) == Some(img)
  {
  }

  /** JPEG is lossy: reading back a saved JPEG never gives the image that was saved. */
  lemma {:induction false} JpegReadBackDiffers(img: Image, q: nat)
    ensures JpegDecoded(img, q) != img
  {
    if img.JpegDecoded? {
      JpegReadBackDiffers(img.source, img.quality);
    }
  }
}
