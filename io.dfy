/**
 * Backing up a file before it is overwritten: find the first free name of the
 * form `<base>.backup-<n><ext>` and copy the file there. The file system is a
 * finite map from paths to contents.
 */
module FileIo {
  import opened Common
  import opened Strings

  type Path = string
  type Bytes = seq<bv8>

  datatype IoError = FileNotFound(path: Path)

  /** The position of the last `c` in `s`, or -1 (`str.rfind`). */
  function LastIndexOf(s: string, c: char): (i: int)
    ensures -1 <= i < |s|
    ensures i >= 0 ==> s[i] == c
    ensures forall j :: i < j < |s| ==> s[j] != c
  {
    if s == [] then -1
    else if s[|s| - 1] == c then |s| - 1
    else LastIndexOf(s[..|s| - 1], c)
  }

  predicate AllDots(s: string) {
    forall i :: 0 <= i < |s| ==> s[i] == '.'
  }

  /**
   * `os.path.splitext` on a POSIX path: the extension starts at the last `.`
   * of the last path component, unless the component has nothing but dots
   * before it (so `.bashrc` has no extension).
   */
  function SplitExt(p: Path): (parts: (string, string))
    ensures parts.0 + parts.1 == p
  {
    var sepIndex := LastIndexOf(p, '/');
    var dotIndex := LastIndexOf(p, '.');
    if dotIndex > sepIndex && !AllDots(p[sepIndex + 1..dotIndex]) then
      (p[..dotIndex], p[dotIndex..])
    else
      (p, "")
  }

  /**
   * The extension is empty or a dot followed by neither a dot nor a `/`, and it
   * is preceded in the last component by something other than dots.
   */
  lemma SplitExtExtension(p: Path)
    ensures var (base, ext) := SplitExt(p);
      && (ext != [] ==> ext[0] == '.' && |base| > 0 && base[|base| - 1] != '/')
      && (forall k :: 0 <= k < |ext| ==> ext[k] != '/')
      && (forall k :: 1 <= k < |ext| ==> ext[k] != '.')
  {
    var sepIndex := LastIndexOf(p, '/');
    var dotIndex := LastIndexOf(p, '.');
    if dotIndex > sepIndex && !AllDots(p[sepIndex + 1..dotIndex]) {
      var base, ext := p[..dotIndex], p[dotIndex..];
      assert SplitExt(p) == (base, ext);
      assert dotIndex - 1 > sepIndex;
      assert base[|base| - 1] == p[dotIndex - 1] != '/';
      assert ext[0] == p[dotIndex] == '.';
      forall k | 0 <= k < |ext|
        ensures ext[k] != '/' && (k >= 1 ==> ext[k] != '.')
      {
        assert ext[k] == p[dotIndex + k];
      }
    } else {
      assert SplitExt(p) == (p, "");
    }
  }

  /** `f'{base}.backup-{n}{ext}'`. */
  function BackupName(base: string, ext: string, n: nat): Path {
    base + ".backup-" + DecimalString(n) + ext
  }

  /** The path looked at by the n-th test of the search loop: the original, then its backup names. */
  function Attempt(original: Path, n: nat): Path {
    if n == 0 then original else BackupName(SplitExt(original).0, SplitExt(original).1, n)
  }

  lemma BackupNameInjective(base: string, ext: string, m: nat, n: nat)
    requires BackupName(base, ext, m) == BackupName(base, ext, n)
    ensures m == n
  {
    var s := BackupName(base, ext, m);
    var lo := |base| + |".backup-"|;
    assert s[lo..|s| - |ext|] == DecimalString(m);
    assert BackupName(base, ext, n)[lo..|s| - |ext|] == DecimalString(n);
    DecimalInjective(m, n);
  }

  /** The search never looks at the same path twice. */
  lemma AttemptInjective(original: Path, m: nat, n: nat)
    requires m != n
    ensures Attempt(original, m) != Attempt(original, n)
  {
    var (base, ext) := SplitExt(original);
    if m == 0 {
      assert |Attempt(original, n)| > |original|;
    } else if n == 0 {
      assert |Attempt(original, m)| > |original|;
    } else if BackupName(base, ext, m) == BackupName(base, ext, n) {
      BackupNameInjective(base, ext, m, n);
    }
  }

  /**
   * `p` is `<base>.backup-<n><ext>` for the smallest n >= 1 whose name is not
   * in `existing`.
   */
  ghost predicate SmallestFreeBackup(existing: set<Path>, original: Path, p: Path) {
    exists n: nat :: n >= 1 && p == Attempt(original, n) && p !in existing
      && forall m: nat :: 1 <= m < n ==> Attempt(original, m) in existing
  }

  /**
   * The search loop of `backup_existing_file`: while the current name exists,
   * try the next backup name. It stops at a name that does not exist, which is
   * the original itself when the original does not exist.
   */
  method NextFreePath(existing: set<Path>, original: Path) returns (newPath: Path)
    ensures newPath !in existing
    ensures original !in existing ==> newPath == original
    ensures original in existing ==> newPath != original && SmallestFreeBackup(existing, original, newPath)
  {
    var counter := 0;
    newPath := original;
    var (base, ext) := SplitExt(original);
    ghost var tried: set<Path> := {};
    while newPath in existing
      invariant newPath == Attempt(original, counter)
      invariant forall m: nat :: m < counter ==> Attempt(original, m) in existing
      invariant forall m: nat :: m >= counter ==> Attempt(original, m) !in tried
      invariant |tried| == counter && tried <= existing
      decreases |existing| - |tried|
    {
      forall m: nat | m > counter
        ensures Attempt(original, m) != newPath
      {
        AttemptInjective(original, m, counter);
      }
      tried := tried + {newPath};
      SubsetSize(tried, existing);
      counter := counter + 1;
      newPath := base + ".backup-" + DecimalString(counter) + ext;
    }
    if original in existing {
      AttemptInjective(original, 0, counter);
    }
  }

  lemma SubsetSize<T>(a: set<T>, b: set<T>)
    requires a <= b
    ensures |a| <= |b|
  {
    assert b == a + (b - a);
  }

  /** A file system: the files that exist and what each one holds. */
  class FileSystem {
    var files: map<Path, Bytes>

    constructor (files: map<Path, Bytes>)
      ensures this.files == files
    {
      this.files := files;
    }

    /**
     * `backup_existing_file`: copy (never move) the file at `original` to the
     * first free backup name and return that name. A missing original fails
     * the copy with `FileNotFoundError` and changes nothing.
     */
    method BackupExistingFile(original: Path) returns (r: Result<Path, IoError>)
      modifies this
      ensures original !in old(files) ==> r == Failure(FileNotFound(original)) && files == old(files)
      ensures original in old(files) ==>
        && r.Success?
        && r.value != original
        && r.value !in old(files)
        && SmallestFreeBackup(old(files).Keys, original, r.value)
        && files == old(files)[r.value := old(files)[original]]
    {
      var newPath := NextFreePath(files.Keys, original);
      if original !in files {
        return Failure(FileNotFound(original));
      }
      files := files[newPath := files[original]];
      r := Success(newPath);
    }
  }
}
