/**
 * The part of `pathlib.PurePath` that the compressor uses: the final
 * component of a path, its stem and suffix, and `with_suffix`, which
 * derives the backup path from the banner path.
 */
module Paths {
  import opened Wrappers

  /** A final component as pathlib keeps it: never holding the separator, never ".". */
  type Name = s: string | '/' !in s && s != "."

  /** A path as pathlib sees it: the directory components and the final component. */
  datatype Path = Path(dir: seq<Name>, name: Name)

  /** The suffix the compressor gives to the backup of the banner. */
  const BACKUP_SUFFIX: string := ".backup.png"

  /** `str.rfind('.')`: the index of the last dot, or -1 when there is none. */
  function LastDot(s: string): (r: int)
    ensures -1 <= r < |s|
    ensures 0 <= r ==> s[r] == '.'
    ensures forall k :: r < k < |s| ==> s[k] != '.'
  {
    if s == [] then -1
    else if s[|s| - 1] == '.' then |s| - 1
    else LastDot(s[..|s| - 1])
  }

  /** `s.lstrip('.') != ''`: s holds a character other than a dot. */
  predicate HasNonDot(s: string) {
    s != [] && (s[0] != '.' || HasNonDot(s[1..]))
  }

  /**
   * `PurePath.stem` (Python 3.14): the name up to its last dot, provided
   * that part holds something other than dots; otherwise the whole name.
   */
  function Stem(name: string): string {
    var i := LastDot(name);
    if 0 <= i && HasNonDot(name[..i]) then name[..i] else name
  }

  /**
   * The stem is a prefix of the name, empty only for an empty name; when it
   * is shorter than the name, it stops at the name's last dot.
   */
  lemma StemCutsAtLastDot(name: string)
    ensures Stem(name) <= name
    ensures Stem(name) == "" <==> name == ""
    ensures Stem(name) != name ==>
      name[|Stem(name)|] == '.' && forall k :: |Stem(name)| < k < |name| ==> name[k] != '.'
    ensures Stem(name) != name ==> HasNonDot(Stem(name))
  {
    var i := LastDot(name);
    if 0 <= i && HasNonDot(name[..i]) {
      assert name[..i] != [];
    }
  }

  /** The stem of a name is itself a name: it holds no separator and is not ".". */
  lemma StemIsName(name: Name)
    ensures '/' !in Stem(name) && Stem(name) != "."
  {
    assert !HasNonDot(".");
    StemCutsAtLastDot(name);
    var stem := Stem(name);
    forall i | 0 <= i < |stem| ensures stem[i] != '/' {
      assert stem[i] == name[i];
    }
  }

  /** `PurePath.suffix`: what the stem leaves of the name. */
  function Suffix(name: string): (r: string)
    ensures Stem(name) + r == name
  {
    StemCutsAtLastDot(name);
    name[|Stem(name)|..]
  }

  /**
   * `PurePath.with_suffix`: None stands for the ValueError it raises on an
   * empty name, on a non-empty suffix that does not start with a dot, and,
   * through `with_name`, on a new name that holds the separator or is ".".
   */
  function WithSuffix(p: Path, suffix: string): (r: Option<Path>)
    ensures r.Some? <==> p.name != "" && (suffix == "" || suffix[0] == '.') && '/' !in suffix
    ensures r.Some? ==> r.value.dir == p.dir && r.value.name == Stem(p.name) + suffix
  {
    var stem := Stem(p.name);
    StemCutsAtLastDot(p.name);
    StemIsName(p.name);
    var name := stem + suffix;
    if stem == "" then None
    else if suffix != "" && suffix[0] != '.' then None
    else if '/' in name || name == "." then None
    else Some(Path(p.dir, name))
  }

  /** `input_path.with_suffix('.backup.png')`. */
  function BackupPath(p: Path): (r: Option<Path>)
    ensures r.Some? <==> p.name != ""
  {
    WithSuffix(p, BACKUP_SUFFIX)
  }

  /**
   * The backup is a sibling of the banner and never the banner itself, so
   * the rename really moves the file away: the old suffix holds at most one
   * dot, and ".backup.png" holds two.
   */
  lemma BackupIsSiblingNotSelf(p: Path)
    requires p.name != ""
    ensures BackupPath(p).Some?
    ensures BackupPath(p).value.dir == p.dir
    ensures BackupPath(p).value != p
    ensures |BackupPath(p).value.name| > |BACKUP_SUFFIX|
  {
    var stem := Stem(p.name);
    StemCutsAtLastDot(p.name);
    var b := BackupPath(p).value;
    assert b.name == stem + BACKUP_SUFFIX;
    if stem != p.name && |b.name| == |p.name| {
      // the dot inside ".backup.png" would have to be a dot after the last one
      assert b.name[|stem| + 7] == '.';
      assert b.name[|stem| + 7] != p.name[|stem| + 7];
    }
  }

  /** The file name of the banner main compresses, and that of its backup. */
  const BANNER: Name := "og-banner.png"
  const BANNER_BACKUP: Name := "og-banner.backup.png"

  /** The banner the script compresses gets the backup name the script prints. */
  lemma BannerBackupName(dir: seq<Name>)
    ensures BackupPath(Path(dir, BANNER)) == Some(Path(dir, BANNER_BACKUP))
  {
    var name := BANNER;
    assert LastDot(name[..10]) == 9;
    assert name[..11][..10] == name[..10];
    assert LastDot(name[..11]) == 9;
    assert name[..12][..11] == name[..11];
    assert LastDot(name[..12]) == 9;
    assert name[..12] == name[..|name| - 1];
    assert LastDot(name) == 9;
    assert name[..9][0] != '.';
    assert Stem(name) == "og-banner";
    assert "og-banner" + BACKUP_SUFFIX == BANNER_BACKUP;
  }
}
