/** The string side of the file helpers: changing and reading a file
    extension, the directory that `forceDirectories` creates, and the path
    that `readDirStats` walks.  File-system calls are not modelled. */
module FileUtils {
  import opened Wrappers
  import opened Text

  /** `fileExt`: the lower-cased text after the last `.`, or the whole
      lower-cased name. */
  function FileExt(filename: string): (ext: string)
    ensures |ext| <= |filename|
    ensures ext == Lower(filename[|filename| - |ext|..])
    ensures '.' !in ext
    ensures '.' in filename ==> |ext| < |filename| && filename[|filename| - |ext| - 1] == '.'
    ensures '.' !in filename ==> ext == Lower(filename)
  {
    var last := LastPart(filename, '.');
    LowerKeepsDots(last);
    Lower(last)
  }

  /** Lower-casing neither adds nor removes a `.`. */
  lemma LowerKeepsDots(s: string)
    ensures |Lower(s)| == |s|
    ensures '.' in Lower(s) <==> '.' in s
  {
    if '.' in Lower(s) {
      var i :| 0 <= i < |s| && Lower(s)[i] == '.';
      assert s[i] == '.';
    }
    if '.' in s {
      var i :| 0 <= i < |s| && s[i] == '.';
      assert Lower(s)[i] == '.';
    }
  }

  /** `changeFileExt(filename, ext)`: the last `.` piece becomes `ext`, or
      gets a `~` in front when `ext` is empty; an empty name is returned as
      it is. */
  method ChangeFileExt(filename: string, ext: string) returns (r: string)
    ensures filename == "" ==> r == ""
    ensures filename != "" ==>
      var last := LastPart(filename, '.');
      r == filename[..|filename| - |last|] + (if ext != "" then ext else "~" + last)
    ensures filename != "" && '.' !in ext ==>
      var parts := Split(filename, '.');
      var last := LastPart(filename, '.');
      Split(r, '.') == parts[..|parts| - 1] + [if ext != "" then ext else "~" + last]
    ensures filename != "" && ext != "" && '.' !in ext ==> FileExt(r) == Lower(ext)
  {
    if filename == "" {
      return filename;
    }
    var parts := Split(filename, '.');
    var extension := parts[|parts| - 1];
    parts := parts[..|parts| - 1];
    if ext != "" {
      extension := ext;
    } else {
      extension := "~" + extension;
    }
    parts := parts + [extension];
    r := Join(parts, '.');
    ReplaceLastPiece(filename, extension);
    if '.' !in extension {
      ReplacedPieceSplits(filename, extension);
    }
  }

  /** Popping the last `.` piece and pushing `piece` in its place replaces
      exactly the text after the last `.`. */
  lemma ReplaceLastPiece(filename: string, piece: string)
    ensures var parts := Split(filename, '.');
      Join(parts[..|parts| - 1] + [piece], '.') ==
        filename[..|filename| - |LastPart(filename, '.')|] + piece
  {
    var parts := Split(filename, '.');
    var front := parts[..|parts| - 1];
    var cut := |filename| - |LastPart(filename, '.')|;
    if '.' in filename {
      assert |front| >= 1 by { SplitSingle(filename, '.'); }
      assert Join(front + [piece], '.') == Join(front, '.') + ['.'] + piece by {
        JoinSnoc(front, piece, '.');
      }
      assert Join(front, '.') == filename[..cut - 1] by { DropLastPart(filename, '.'); }
      assert filename[..cut] == filename[..cut - 1] + ['.'];
    } else {
      assert |parts| == 1 by { SplitSingle(filename, '.'); }
      assert front + [piece] == [piece];
    }
  }

  /** A `.`-free piece pushed in place of the last one splits back as the
      old front pieces followed by itself. */
  lemma ReplacedPieceSplits(filename: string, piece: string)
    requires '.' !in piece
    ensures var parts := Split(filename, '.');
      Split(Join(parts[..|parts| - 1] + [piece], '.'), '.') == parts[..|parts| - 1] + [piece]
  {
    var parts := Split(filename, '.');
    var pieces := parts[..|parts| - 1] + [piece];
    assert forall i :: 0 <= i < |pieces| ==> '.' !in pieces[i] by {
      forall i | 0 <= i < |pieces|
        ensures '.' !in pieces[i]
      {
        if i < |parts| - 1 {
          assert pieces[i] == parts[i];
        }
      }
    }
    SplitJoin(pieces, '.');
  }


  /** What `forceDirectories` does with its argument. */
  datatype DirStep =
    | NoPath(message: string)
    | MakeDirectory(path: string)

  const NoPathMessage := "No path supplied to forceDirectories"

  /** The path step of `forceDirectories`: the last `/` piece is dropped
      when it is empty or looks like a file name (contains a `.`). */
  method ForceDirectoriesPath(path: string) returns (step: DirStep)
    ensures path == "" <==> step == NoPath(NoPathMessage)
    ensures path != "" ==> step.MakeDirectory?
    ensures path != "" ==>
      var last := LastPart(path, '/');
      && (last != "" && '.' !in last ==> step.path == path)
      && (last == "" || '.' in last ==>
            step.path == if '/' in path then path[..|path| - |last| - 1] else "")
  {
    if path == "" {
      return NoPath(NoPathMessage);
    }
    var parts := Split(path, '/');
    var item := parts[|parts| - 1];
    parts := parts[..|parts| - 1];
    if item != "" && '.' !in item {
      parts := parts + [item];
      assert parts == Split(path, '/');
      JoinSplit(path, '/');
    } else {
      DropLastPart(path, '/');
    }
    step := MakeDirectory(Join(parts, '/'));
  }

  /** `path.replace(/\/+$/, '')`: the path without its trailing slashes. */
  function TrimTrailingSlashes(path: string): (trimmed: string)
    ensures |trimmed| <= |path| && path[..|trimmed|] == trimmed
    ensures forall i :: |trimmed| <= i < |path| ==> path[i] == '/'
    ensures trimmed == "" || trimmed[|trimmed| - 1] != '/'
  {
    if path != "" && path[|path| - 1] == '/' then TrimTrailingSlashes(path[..|path| - 1])
    else path
  }

  const NoDirMessage := "readDirStats must be called with a path"

  /** The path check at the head of `readDirStats`: a path made only of
      slashes (or empty) is refused with the message it throws. */
  function ReadDirStatsPath(path: string): (r: Result<string, string>)
    ensures r.Err? <==> forall i :: 0 <= i < |path| ==> path[i] == '/'
    ensures r.Err? ==> r.error == NoDirMessage
    ensures r.Ok? ==> r.value != "" && r.value[|r.value| - 1] != '/'
    ensures r.Ok? ==> |r.value| <= |path| && path[..|r.value|] == r.value
    ensures r.Ok? ==> forall i :: |r.value| <= i < |path| ==> path[i] == '/'
  {
    var trimmed := TrimTrailingSlashes(path);
    if trimmed == "" then Err(NoDirMessage) else
      assert path[|trimmed| - 1] != '/';
      Ok(trimmed)
  }
}
