/**
 * `updatePhotoPathByNewFilename` (web/lib/api/fileManager.ts): the sibling path of an
 * uploaded photo with its base name replaced, keeping the directory and the extension.
 * The file-system operations of that file are not part of this model.
 */
module FileManager {

  /** `s.lastIndexOf(c)`: the last position of `c`, or -1. */
  function LastIndexOf(s: string, c: char): (r: int)
    ensures -1 <= r < |s|
    ensures r == -1 <==> c !in s
    ensures r >= 0 ==> s[r] == c && forall j :: r < j < |s| ==> s[j] != c
  {
    LastIndexBefore(s, c, |s|)
  }

  /** The last position of `c` among the first `n` characters, or -1. */
  function LastIndexBefore(s: string, c: char, n: nat): (r: int)
    requires n <= |s|
    ensures -1 <= r < n
    ensures r == -1 ==> forall j :: 0 <= j < n ==> s[j] != c
    ensures r >= 0 ==> s[r] == c && forall j :: r < j < n ==> s[j] != c
  {
    if n == 0 then -1
    else if s[n - 1] == c then n - 1
    else LastIndexBefore(s, c, n - 1)
  }

  /**
   * `updatePhotoPathByNewFilename(originalPath, newFilename)`: the empty string when the
   * path has no `/` or no `.`, else everything up to and including the last `/`, the new
   * name, and everything from the last `.` on. Its declared result type admits
   * `undefined`, but every path returns a string.
   */
  function UpdatePhotoPathByNewFilename(originalPath: string, newFilename: string): string {
    var lastSlashIndex := LastIndexOf(originalPath, '/');
    var lastDotIndex := LastIndexOf(originalPath, '.');
    if lastSlashIndex == -1 || lastDotIndex == -1 then ""
    else
      var directory := originalPath[..lastSlashIndex + 1];
      var fileType := originalPath[lastDotIndex..];
      directory + newFilename + fileType
  }

  /**
   * The result is empty when the path lacks a `/` or a `.`. Otherwise it is the directory
   * part up to and including the last `/`, then the new name, then the tail of the path
   * from its last `.` (even when that `.` lies before the last `/`), so its length is
   * (lastSlash + 1) + |newFilename| + (|path| - lastDot).
   */
  lemma UpdatePhotoPathSpec(originalPath: string, newFilename: string)
    ensures var r := UpdatePhotoPathByNewFilename(originalPath, newFilename);
      && ('/' !in originalPath || '.' !in originalPath ==> r == "")
      && ('/' in originalPath && '.' in originalPath ==>
            var lastSlash := LastIndexOf(originalPath, '/');
            var lastDot := LastIndexOf(originalPath, '.');
            && |r| == (lastSlash + 1) + |newFilename| + (|originalPath| - lastDot)
            && r[..lastSlash + 1] == originalPath[..lastSlash + 1]
            && r[lastSlash + 1..lastSlash + 1 + |newFilename|] == newFilename
            && r[lastSlash + 1 + |newFilename|..] == originalPath[lastDot..])
  {
  }

  /** The last occurrence is the occurrence with no occurrence after it. */
  lemma LastIndexOfIs(s: string, c: char, r: int)
    requires 0 <= r < |s| && s[r] == c
    requires forall j :: r < j < |s| ==> s[j] != c
    ensures LastIndexOf(s, c) == r
  {
  }

  /** Where the last `/` lies after one rename. */
  lemma SlashAfterRename(dir: string, first: string, ext: string)
    requires |dir| > 0 && dir[|dir| - 1] == '/'
    requires '/' !in first && '/' !in ext
    ensures LastIndexOf(dir + first + ext, '/') == |dir| - 1
  {
    var p := dir + first + ext;
    forall j | |dir| <= j < |p| ensures p[j] != '/' {
      if j < |dir| + |first| { assert p[j] == first[j - |dir|]; } else { assert p[j] == ext[j - |dir| - |first|]; }
    }
    LastIndexOfIs(p, '/', |dir| - 1);
  }

  /** Where the last `.` lies after one rename. */
  lemma DotAfterRename(dir: string, first: string, ext: string)
    requires |ext| > 0 && ext[0] == '.' && '.' !in ext[1..]
    ensures LastIndexOf(dir + first + ext, '.') == |dir| + |first|
  {
    var p := dir + first + ext;
    forall j | |dir| + |first| < j < |p| ensures p[j] != '.' {
      var k := j - |dir| - |first|;
      assert p[j] == ext[k];
      assert ext[k] == ext[1..][k - 1];
    }
    assert p[|dir| + |first|] == '.';
    LastIndexOfIs(p, '.', |dir| + |first|);
  }

  /** The rename in terms of the two positions, once they are known. */
  lemma RenameAt(path: string, name: string, slash: int, dot: int)
    requires 0 <= slash < |path| && 0 <= dot < |path|
    requires LastIndexOf(path, '/') == slash && LastIndexOf(path, '.') == dot
    ensures UpdatePhotoPathByNewFilename(path, name) == path[..slash + 1] + name + path[dot..]
  {
  }

  /**
   * Renaming twice is renaming once with the second name: for a path whose extension
   * follows its last `/`, and a first name with neither `/` nor `.` (a generated hex
   * name), the second rename finds the same directory and extension again.
   */
  lemma RenameTwice(originalPath: string, first: string, second: string)
    requires '/' in originalPath && '.' in originalPath
    requires LastIndexOf(originalPath, '.') > LastIndexOf(originalPath, '/')
    requires '/' !in first && '.' !in first
    ensures UpdatePhotoPathByNewFilename(UpdatePhotoPathByNewFilename(originalPath, first), second)
         == UpdatePhotoPathByNewFilename(originalPath, second)
  {
    var lastSlash := LastIndexOf(originalPath, '/');
    var lastDot := LastIndexOf(originalPath, '.');
    var dir, ext := originalPath[..lastSlash + 1], originalPath[lastDot..];
    assert '/' !in ext by {
      forall j | 0 <= j < |ext| ensures ext[j] != '/' { assert ext[j] == originalPath[lastDot + j]; }
    }
    assert '.' !in ext[1..] by {
      forall j | 1 <= j < |ext| ensures ext[j] != '.' { assert ext[j] == originalPath[lastDot + j]; }
    }
    SlashAfterRename(dir, first, ext);
    DotAfterRename(dir, first, ext);
    RenameAt(originalPath, first, lastSlash, lastDot);
    RenameAt(originalPath, second, lastSlash, lastDot);
    var p := dir + first + ext;
    RenameAt(p, second, |dir| - 1, |dir| + |first|);
    assert p[..|dir|] == dir;
    assert p[|dir| + |first|..] == ext;
  }

  /**
   * When the last `.` comes before the last `/` (a dot in a directory name and none in
   * the file name), the "extension" kept is the tail from that dot, slashes included.
   */
  lemma DotInDirectory()
    ensures UpdatePhotoPathByNewFilename("a.b/c", "x") == "a.b/x.b/c"
  {
    var p := "a.b/c";
    assert LastIndexOf(p, '/') == 3 by { assert p[3] == '/' && p[4] != '/'; }
    assert LastIndexOf(p, '.') == 1 by { assert p[1] == '.' && p[2] != '.' && p[3] != '.' && p[4] != '.'; }
  }
}
