/** `clone_repo`: which files of a repository archive are copied, and where to. */
module RepoArchive {
  import opened Prelude
  import opened Paths

  const MAX_FILE_BYTES: nat := 4 * 1024 * 1024
  const MAX_TOTAL_BYTES: nat := 64 * 1024 * 1024
  const MAX_FILES: nat := 2000

  type Bytes = seq<bv8>

  datatype Kind = Directory | Link | Regular | Special

  /** An archive member; `data` is what extracting it yields, if anything. */
  datatype Member = Member(name: string, kind: Kind, size: nat, data: Option<Bytes>)

  datatype File = File(path: string, data: Bytes)

  datatype ArchiveError =
    | UnsafePath | SeveralRoots | UnsafeRepositoryPath | LinkMember | NotRegular | FileTooLarge
    | NotExtracted | TotalTooLarge | TooManyFiles

  datatype DestError = NotRelative | OutsideWorkspace

  /** `_safe_relative_dest`. */
  function SafeDest(dest: string): Result<string, DestError> {
    if NUL in dest || Absolute(dest) then Err(NotRelative)
    else
      var normal := NormPath(dest);
      if normal == "" || normal == "." || normal == ".." || StartsWith(normal, "../") then Err(OutsideWorkspace)
      else Ok(normal)
  }

  /** `posixpath.join` of several parts. */
  function JoinAll(a: string, rest: seq<string>): string
    decreases |rest|
  {
    if rest == [] then a else JoinAll(Join(a, rest[0]), rest[1..])
  }

  /** What the loop does with a member once the root is known: skip it, or copy a file. */
  function Examine(m: Member, parts: seq<string>): Result<Option<File>, ArchiveError>
    requires |parts| > 1
  {
    var rel := NormPath(JoinAll(parts[1], parts[2..]));
    if rel == "." || StartsWith(rel, "../") || StartsWith(rel, "/") then Err(UnsafeRepositoryPath)
    else if m.kind.Directory? then Ok(None)
    else if m.kind.Link? then Err(LinkMember)
    else if !m.kind.Regular? then Err(NotRegular)
    else if m.size > MAX_FILE_BYTES then Err(FileTooLarge)
    else if m.data.None? then Err(NotExtracted)
    else if |m.data.value| > MAX_FILE_BYTES then Err(FileTooLarge)
    else Ok(Some(File(rel, m.data.value)))
  }

  /** One turn of the loop: the new root, and the file to copy if there is one. */
  function Admit(root: Option<string>, m: Member): Result<(string, Option<File>), ArchiveError> {
    var normal := NormPath(m.name);
    if Absolute(m.name) || normal == ".." || StartsWith(normal, "../") then Err(UnsafePath)
    else
      var parts := Split(normal);
      var root' := if root.Some? then root.value else parts[0];
      if parts[0] != root' then Err(SeveralRoots)
      else if |parts| == 1 then Ok((root', None))
      else
        match Examine(m, parts)
        case Err(e) => Err(e)
        case Ok(file) => Ok((root', file))
  }

  function TotalBytes(files: seq<File>): nat {
    if files == [] then 0 else TotalBytes(files[..|files| - 1]) + |files[|files| - 1].data|
  }

  /** The files of the remaining members, after those already taken. */
  function Collect(root: Option<string>, files: seq<File>, members: seq<Member>): Result<seq<File>, ArchiveError>
    decreases |members|
  {
    if members == [] then Ok(files)
    else
      match Admit(root, members[0])
      case Err(e) => Err(e)
      case Ok((root', None)) => Collect(Some(root'), files, members[1..])
      case Ok((root', Some(file))) =>
        if TotalBytes(files + [file]) > MAX_TOTAL_BYTES then Err(TotalTooLarge)
        else if |files + [file]| > MAX_FILES then Err(TooManyFiles)
        else Collect(Some(root'), files + [file], members[1..])
  }

  /** `_safe_files_from_github_tarball`, from the archive's members on. */
  method SafeFiles(members: seq<Member>) returns (r: Result<seq<File>, ArchiveError>)
    ensures r == Collect(None, [], members)
  {
    var files: seq<File>, totalBytes := [], 0;
    var root: Option<string> := None;
    var i := 0;
    assert members[0..] == members;
    while i < |members|
      invariant 0 <= i <= |members|
      invariant totalBytes == TotalBytes(files)
      invariant Collect(None, [], members) == Collect(root, files, members[i..])
    {
      var member := members[i];
      assert members[i..][1..] == members[i + 1..];
      var normal := NormPath(member.name);
      if Absolute(member.name) || normal == ".." || StartsWith(normal, "../") { return Err(UnsafePath); }
      var parts := Split(normal);
      if root == None { root := Some(parts[0]); }
      if parts[0] != root.value { return Err(SeveralRoots); }
      if |parts| > 1 {
        match Examine(member, parts) {
          case Err(e) => return Err(e);
          case Ok(None) =>
          case Ok(Some(file)) =>
            assert (files + [file])[..|files|] == files;
            totalBytes := totalBytes + |file.data|;
            if totalBytes > MAX_TOTAL_BYTES { return Err(TotalTooLarge); }
            files := files + [file];
            if |files| > MAX_FILES { return Err(TooManyFiles); }
        }
      }
      i := i + 1;
    }
    return Ok(files);
  }
}
