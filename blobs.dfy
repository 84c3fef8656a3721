/** The temporary-file blob store: `_save_large_blob` writes a text file under a fresh name,
    `_read_blob` reads it back. The file system is a map from path to file contents. */
module Blobs {

  /** What reading a file in Python's text mode yields: universal newlines turn "\r\n" and a
      lone "\r" into "\n". */
  function ReadNewlines(s: string): (r: string)
    ensures |r| <= |s|
    ensures '\r' !in r
  {
    if s == [] then []
    else if s[0] == '\r' then
      if |s| > 1 && s[1] == '\n' then "\n" + ReadNewlines(s[2..]) else "\n" + ReadNewlines(s[1..])
    else [s[0]] + ReadNewlines(s[1..])
  }

  /** Text without a carriage return reads back unchanged. */
  lemma {:induction false} ReadNewlinesIdentity(s: string)
    requires '\r' !in s
    ensures ReadNewlines(s) == s
  {
    if s != [] {
      assert '\r' !in s[1..] by {
        assert forall c :: c in s[1..] ==> c in s;
      }
      ReadNewlinesIdentity(s[1..]);
    }
  }

  /** POSIX `os.path.join(dir, name)` for a relative `name`. */
  function JoinPath(dir: string, name: string): (path: string)
    ensures |path| >= |dir| + |name| && path[..|dir|] == dir && path[|path| - |name|..] == name
    ensures dir == [] || dir[|dir| - 1] == '/' ==> |path| == |dir| + |name|
    ensures dir != [] && dir[|dir| - 1] != '/' ==> |path| == |dir| + 1 + |name| && path[|dir|] == '/'
  {
    if dir == [] || dir[|dir| - 1] == '/' then dir + name else dir + "/" + name
  }

  /** The path `_save_large_blob` writes to: `<prefix>-<token>.txt` in the temporary directory,
      where `token` is the hex form of a fresh random UUID. */
  function BlobPath(dir: string, prefix: string, token: string): (path: string)
    ensures path != ""
    ensures |path| >= 4 && path[|path| - 4..] == ".txt"
  {
    JoinPath(dir, prefix + "-" + token + ".txt")
  }

  /** `_read_blob(path)`: the file's text, or "" for an empty path or a missing file. */
  function ReadBlob(files: map<string, string>, path: string): (text: string)
    ensures path == "" || path !in files ==> text == ""
    ensures '\r' !in text
  {
    if path == "" then ""
    else if path in files then ReadNewlines(files[path])
    else ""
  }

  /** The file system the blobs live in. */
  class BlobStore {
    var files: map<string, string>

    constructor (files: map<string, string>)
      ensures this.files == files
    {
      this.files := files;
    }

    /** `_save_large_blob(prefix, content)`: creates (or truncates) the file and returns its path;
        reading that path back gives the content with its newlines normalised, and exactly the
        content when it has no carriage return. */
    method Save(dir: string, prefix: string, token: string, content: string) returns (path: string)
      modifies this
      ensures path == BlobPath(dir, prefix, token)
      ensures files == old(files)[path := content]
      ensures ReadBlob(files, path) == ReadNewlines(content)
      ensures '\r' !in content ==> ReadBlob(files, path) == content
    {
      path := BlobPath(dir, prefix, token);
      files := files[path := content];
      if '\r' !in content {
        ReadNewlinesIdentity(content);
      }
    }
  }
}
