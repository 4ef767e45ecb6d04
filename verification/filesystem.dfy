/**
 * The filesystem as the compressor sees it: a map from paths to files,
 * the operations that change it (rename, save, unlink), and a class whose
 * methods perform them one at a time and log each.
 */
module FileSystems {
  import opened Wrappers
  import opened Paths
  import opened Images
  import opened Errors

  type Files = map<Path, File>

  /** An operation that changes the filesystem. */
  datatype Op =
    | Rename(src: Path, dst: Path)   // os.rename: replaces any file at dst
    | Write(path: Path, file: File)  // Image.save: creates or overwrites path
    | Unlink(path: Path)             // Path.unlink

  /** The paths an operation may change. */
  function Touched(op: Op): set<Path> {
    match op
    case Rename(src, dst) => {src, dst}
    case Write(p, _) => {p}
    case Unlink(p) => {p}
  }

  /**
   * The effect of one operation. Renaming or unlinking a missing path
   * raises in the operating system; the model leaves the map as it is, and
   * the FileSystem methods below require the path to exist.
   */
  function Apply(files: Files, op: Op): Files
  {
    match op
    case Rename(src, dst) => if src in files then (files - {src})[dst := files[src]] else files
    case Write(p, f) => files[p := f]
    case Unlink(p) => files - {p}
  }

  /** What each operation does to the paths it touches, and that it leaves every other path alone. */
  lemma ApplyEffect(files: Files, op: Op)
    ensures forall p :: p !in Touched(op) ==> (p in Apply(files, op) <==> p in files)
    ensures forall p :: p !in Touched(op) && p in files ==> Apply(files, op)[p] == files[p]
    ensures op.Write? ==> op.path in Apply(files, op) && Apply(files, op)[op.path] == op.file
    ensures op.Unlink? ==> op.path !in Apply(files, op)
    ensures op.Rename? && op.src in files ==> op.dst in Apply(files, op) && Apply(files, op)[op.dst] == files[op.src]
    ensures op.Rename? && op.src in files && op.src != op.dst ==> op.src !in Apply(files, op)
  {
  }

  /** The effect of a sequence of operations, in order. */
  function Replay(files: Files, ops: seq<Op>): Files
    decreases |ops|
  {
    if ops == [] then files else Apply(Replay(files, ops[..|ops| - 1]), ops[|ops| - 1])
  }

  lemma ReplaySnoc(files: Files, ops: seq<Op>, op: Op)
    ensures Replay(files, ops + [op]) == Apply(Replay(files, ops), op)
  {
    assert (ops + [op])[..|ops|] == ops;
  }

  /** Replaying two sequences one after the other is replaying their concatenation. */
  lemma {:induction false} ReplayAppend(files: Files, a: seq<Op>, b: seq<Op>)
    ensures Replay(files, a + b) == Replay(Replay(files, a), b)
    decreases |b|
  {
    if b == [] {
      assert a + b == a;
    } else {
      var init := b[..|b| - 1];
      var last := b[|b| - 1];
      assert a + b == (a + init) + [last];
      assert b == init + [last];
      ReplaySnoc(files, a + init, last);
      ReplayAppend(files, a, init);
      ReplaySnoc(Replay(files, a), init, last);
    }
  }

  /** Every operation in ops is a write to p. */
  predicate AllWritesTo(ops: seq<Op>, p: Path) {
    forall i :: 0 <= i < |ops| ==> ops[i].Write? && ops[i].path == p
  }

  /**
   * Overwriting one path again and again leaves the last file written at
   * that path and every other path as it was.
   */
  lemma {:induction false} ReplayWrites(files: Files, ops: seq<Op>, p: Path)
    requires AllWritesTo(ops, p)
    ensures ops == [] ==> Replay(files, ops) == files
    ensures ops != [] ==> Replay(files, ops) == files[p := ops[|ops| - 1].file]
    decreases |ops|
  {
    if ops != [] {
      var init := ops[..|ops| - 1];
      assert AllWritesTo(init, p) by {
        forall i | 0 <= i < |init| ensures init[i].Write? && init[i].path == p {
          assert init[i] == ops[i];
        }
      }
      ReplayWrites(files, init, p);
    }
  }

  /**
   * Files on disk, with a log of every change made through this object:
   * the files are always what replaying the log on the initial files gives.
   */
  class FileSystem {
    var files: Files
    ghost var initial: Files
    ghost var log: seq<Op>

    ghost predicate Valid()
      reads this
    {
      files == Replay(initial, log)
    }

    constructor (start: Files)
      ensures Valid() && files == start && log == []
    {
      files := start;
      initial := start;
      log := [];
    }

    /** `Path.exists`. */
    method Exists(p: Path) returns (b: bool)
      ensures b <==> p in files
    {
      b := p in files;
    }

    /** `Image.open`: fails on a missing path or on a file that is not a picture. */
    method Open(p: Path) returns (r: Result<Image, Error>)
      ensures p !in files ==> r == Failure(FileNotFound)
      ensures p in files && Decode(files[p]).None? ==> r == Failure(UnidentifiedImage)
      ensures p in files && Decode(files[p]).Some? ==> r == Success(Decode(files[p]).value)
    {
      if p !in files {
        return Failure(FileNotFound);
      }
      var d := Decode(files[p]);
      if d.None? {
        return Failure(UnidentifiedImage);
      }
      return Success(d.value);
    }

    /** `Path.stat().st_size`. */
    method Size(p: Path) returns (bytes: nat)
      requires p in files
      ensures bytes == files[p].bytes
    {
      bytes := files[p].bytes;
    }

    /** Performs op and logs it. */
    method Perform(op: Op)
      requires Valid()
      modifies this
      ensures Valid() && initial == old(initial)
      ensures files == Apply(old(files), op) && log == old(log) + [op]
    {
      ReplaySnoc(initial, log, op);
      files := Apply(files, op);
      log := log + [op];
    }

    /** `Path.rename`: moves the file, replacing whatever was at dst. */
    method Rename(src: Path, dst: Path)
      requires Valid() && src in files
      modifies this
      ensures Valid() && initial == old(initial)
      ensures files == (old(files) - {src})[dst := old(files)[src]]
      ensures log == old(log) + [Op.Rename(src, dst)]
    {
      Perform(Op.Rename(src, dst));
    }

    /**
     * `Image.save`: ok is false when the encoder raised. Pillow opens the
     * target for writing before it encodes; when encoding raises it removes
     * a target it created, and leaves a target that already existed
     * truncated.
     */
    method Save(p: Path, e: Encoding, img: Image, enc: Encoder) returns (ok: bool)
      requires Valid()
      modifies this
      ensures Valid() && initial == old(initial)
      ensures ok <==> Encode(e, img, enc).Some?
      ensures ok ==> files == old(files)[p := Encode(e, img, enc).value]
      ensures ok ==> log == old(log) + [Write(p, Encode(e, img, enc).value)]
      ensures !ok && p in old(files) ==> files == old(files)[p := TRUNCATED] && log == old(log) + [Write(p, TRUNCATED)]
      ensures !ok && p !in old(files) ==> files == old(files) && log == old(log)
    {
      var f := Encode(e, img, enc);
      ok := f.Some?;
      if ok {
        Perform(Write(p, f.value));
      } else if p in files {
        Perform(Write(p, TRUNCATED));
      }
    }

    /** `Path.unlink`. */
    method Unlink(p: Path)
      requires Valid() && p in files
      modifies this
      ensures Valid() && initial == old(initial)
      ensures files == old(files) - {p}
      ensures log == old(log) + [Op.Unlink(p)]
    {
      Perform(Op.Unlink(p));
    }
  }
}
