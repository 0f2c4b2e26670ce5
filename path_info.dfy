/**
 * Path information for one conversion (src/path_info_for_conversion.rs): the source path is
 * the original folder with the basename appended; the destination path is the converted
 * folder with the basename appended and the extension of that final segment replaced.
 *
 * Paths are `/`-separated strings. `Push` is `PathBuf::push` of a relative name, and
 * `SetExtension` is `PathBuf::set_extension`, both as Rust performs them on Unix.
 */
module PathInfo {
  import opened Wrappers

  /** The index of the last occurrence of `c` in `s`, or -1 when there is none. */
  function LastIndexOf(s: string, c: char): (r: int)
    ensures -1 <= r < |s|
    ensures r >= 0 ==> s[r] == c
  {
    if s == [] then -1
    else if s[|s| - 1] == c then |s| - 1
    else LastIndexOf(s[..|s| - 1], c)
  }

  /** No occurrence of `c` follows the one `LastIndexOf` finds. */
  lemma {:induction false} LastIndexOfIsLast(s: string, c: char)
    ensures forall k :: LastIndexOf(s, c) < k < |s| ==> s[k] != c
  {
    if s != [] && s[|s| - 1] != c {
      LastIndexOfIsLast(s[..|s| - 1], c);
    }
  }

  /** A basename that names one file inside a folder: a single non-empty segment that is
      neither `.` nor `..`. */
  predicate ValidBasename(name: string) {
    name != [] && '/' !in name && name != "." && name != ".."
  }

  /** `Path::file_name` of a path that ends in a normal segment: the text after the last `/`. */
  function FileName(path: string): string {
    path[LastIndexOf(path, '/') + 1..]
  }

  /** Everything up to and including the last `/`. */
  function DirPart(path: string): string {
    path[..LastIndexOf(path, '/') + 1]
  }

  /** The folder text `Push` puts before the pushed name: a `/` is added unless the folder
      is empty or already ends in one. */
  function FolderPrefix(folder: string): (r: string)
    ensures r == [] || r[|r| - 1] == '/'
    ensures r == folder || r == folder + "/"
    ensures r == folder <==> (folder == [] || folder[|folder| - 1] == '/')
  {
    if folder == [] || folder[|folder| - 1] == '/' then folder else folder + "/"
  }

  /** The last `/` of `prefix + name`, with `prefix` empty or ending in `/` and `name`
      free of `/`, is the end of `prefix`. */
  lemma LastSlashAfterPrefix(prefix: string, name: string)
    requires prefix == [] || prefix[|prefix| - 1] == '/'
    requires '/' !in name
    ensures LastIndexOf(prefix + name, '/') == |prefix| - 1
  {
    var s := prefix + name;
    var r := LastIndexOf(s, '/');
    LastIndexOfIsLast(s, '/');
    forall k | |prefix| <= k < |s| ensures s[k] != '/' {
      assert s[k] == name[k - |prefix|];
    }
    if prefix != [] {
      assert s[|prefix| - 1] == '/';
    }
  }

  /** `PathBuf::push(name)` for a relative name: the name becomes the final segment. */
  function Push(folder: string, name: string): string {
    FolderPrefix(folder) + name
  }

  /** The pushed name ends the path, and when it is a single segment it is the path's
      file name, with the folder (and a separating `/`) before it. */
  lemma PushSpec(folder: string, name: string)
    ensures var r := Push(folder, name);
      && |r| >= |name| && r[|r| - |name|..] == name
      && ('/' !in name ==> FileName(r) == name && DirPart(r) == FolderPrefix(folder))
  {
    if '/' !in name {
      LastSlashAfterPrefix(FolderPrefix(folder), name);
    }
  }

  /** The length of `Path::file_stem` of a file name: the name up to its last `.`, or the
      whole name when it has no `.` or only a leading one. */
  function StemLength(name: string): (n: nat)
    ensures n <= |name|
  {
    var dot := LastIndexOf(name, '.');
    if dot <= 0 then |name| else dot
  }

  /** `Path::file_stem`. */
  function FileStem(name: string): string {
    name[..StemLength(name)]
  }

  /** `Path::extension`: the text after the last `.`, unless that `.` is the first character. */
  function Extension(name: string): Option<string> {
    var dot := LastIndexOf(name, '.');
    if dot <= 0 then None else Some(name[dot + 1..])
  }

  /** What `set_extension(extension)` makes of a file name: the stem, then `.` and the
      extension unless the extension is empty. */
  function WithExtension(name: string, extension: string): string {
    FileStem(name) + (if extension == [] then [] else "." + extension)
  }

  /** `PathBuf::set_extension` on a path whose final segment is a valid basename. */
  function SetExtension(path: string, extension: string): string
    requires ValidBasename(FileName(path))
  {
    DirPart(path) + WithExtension(FileName(path), extension)
  }

  /** Setting the extension of a pushed path only rewrites the pushed segment. */
  lemma SetExtensionOfPush(folder: string, name: string, extension: string)
    requires ValidBasename(name)
    ensures ValidBasename(FileName(Push(folder, name)))
    ensures SetExtension(Push(folder, name), extension) == Push(folder, WithExtension(name, extension))
  {
    PushSpec(folder, name);
  }

  /** The stem of `stem + "." + extension`, for a non-empty stem and a dot-free extension,
      is `stem` and its extension is `extension`. */
  lemma SplitAtAddedDot(stem: string, extension: string)
    requires stem != [] && '.' !in extension
    ensures FileStem(stem + "." + extension) == stem
    ensures Extension(stem + "." + extension) == Some(extension)
  {
    var s := stem + "." + extension;
    var dot := LastIndexOf(s, '.');
    LastIndexOfIsLast(s, '.');
    forall k | |stem| < k < |s| ensures s[k] != '.' {
      assert s[k] == extension[k - |stem| - 1];
    }
    assert s[|stem|] == '.';
    assert dot == |stem|;
  }

  /** A file stem is never empty for a valid basename. */
  lemma StemNotEmpty(name: string)
    requires ValidBasename(name)
    ensures FileStem(name) != []
  {
  }

  /** Replacing the extension keeps the stem and gives the new extension; with no
      extension to start with, `.` and the new extension are appended. */
  lemma WithExtensionReplaces(name: string, extension: string)
    requires ValidBasename(name) && extension != [] && '.' !in extension
    ensures FileStem(WithExtension(name, extension)) == FileStem(name)
    ensures Extension(WithExtension(name, extension)) == Some(extension)
    ensures Extension(name).None? ==> WithExtension(name, extension) == name + "." + extension
  {
    StemNotEmpty(name);
    assert WithExtension(name, extension) == FileStem(name) + "." + extension;
    SplitAtAddedDot(FileStem(name), extension);
  }

  /** An empty extension removes the old one, dot included. */
  lemma WithEmptyExtensionDropsIt(name: string)
    requires ValidBasename(name)
    ensures WithExtension(name, "") == FileStem(name)
    ensures Extension(name).Some? ==> name == FileStem(name) + "." + Extension(name).value
  {
    var dot := LastIndexOf(name, '.');
    if dot > 0 {
      assert name == name[..dot] + [name[dot]] + name[dot + 1..];
    }
  }

  /** The stored paths. `get_original_file_pathname` is `originalFilePathname`;
      `get_converted_file_path` and `get_converted_file_pathname` both read
      `convertedFilePathname`. */
  datatype PathInfoForConversion = PathInfoForConversion(originalFilePathname: string, convertedFilePathname: string)
  {
    /** `get_original_file_basename`: the final segment of the original path. */
    function GetOriginalFileBasename(): (r: string)
      ensures '/' !in r
      ensures |r| <= |originalFilePathname| && originalFilePathname[|originalFilePathname| - |r|..] == r
      ensures |r| == |originalFilePathname| || originalFilePathname[|originalFilePathname| - |r| - 1] == '/'
    {
      var slash := LastIndexOf(originalFilePathname, '/');
      var r := FileName(originalFilePathname);
      LastIndexOfIsLast(originalFilePathname, '/');
      assert forall k :: 0 <= k < |r| ==> r[k] == originalFilePathname[slash + 1 + k];
      r
    }
  }

  /** `PathInfoForConversion::new`. */
  method New(originalFolderPathname: string, convertedFolderPathname: string,
             originalFileBasename: string, convertedExtension: string)
    returns (info: PathInfoForConversion)
    requires ValidBasename(originalFileBasename)
    ensures info.originalFilePathname == Push(originalFolderPathname, originalFileBasename)
    ensures info.GetOriginalFileBasename() == originalFileBasename
    ensures info.convertedFilePathname
         == Push(convertedFolderPathname, WithExtension(originalFileBasename, convertedExtension))
  {
    var originalFilePathBuf := originalFolderPathname;
    originalFilePathBuf := Push(originalFilePathBuf, originalFileBasename);
    PushSpec(originalFolderPathname, originalFileBasename);
    assert FileName(originalFilePathBuf) == originalFileBasename;

    var convertedFilePathBuf := convertedFolderPathname;
    convertedFilePathBuf := Push(convertedFilePathBuf, originalFileBasename);
    SetExtensionOfPush(convertedFolderPathname, originalFileBasename, convertedExtension);
    convertedFilePathBuf := SetExtension(convertedFilePathBuf, convertedExtension);

    info := PathInfoForConversion(originalFilePathBuf, convertedFilePathBuf);
    assert info.GetOriginalFileBasename() == FileName(originalFilePathBuf);
  }
}
