/** The local file system as the loader sees it: a map from full paths to
    files, each holding bytes or a manifest document and possibly locked by
    another process, plus the set of paths this process may not write. The
    three file operations the loader performs are atomic: each either
    completes or fails without changing anything. */
module FileSystem {
  import opened Common
  import opened Xml

  datatype Content = Bytes(data: seq<byte>) | Document(root: Element)

  /** A file; a locked file is held open by another process (a loaded plugin). */
  datatype FileEntry = FileEntry(content: Content, locked: bool)

  type Files = map<string, FileEntry>

  /** File.Exists: false for the empty path. */
  predicate FileExists(files: Files, path: string) {
    path != [] && path in files
  }

  /** How one attempt of an action ends: completed, one of the three
      exceptions the loader recovers from (FileNotFoundException,
      UnauthorizedAccessException, IOException), or the ArgumentException
      an empty path raises. */
  datatype Outcome = Completed | NotFound | Denied | Busy | Rejected

  /** The delegates the loader passes to PerformIOAction. */
  datatype IOAction =
    | Delete                           // File.Delete(path)
    | WriteAllBytes(bytes: seq<byte>)  // File.WriteAllBytes(path, bytes)
    | CopyFrom(source: string)         // File.Copy(source, path, true)

  datatype Attempt = Attempt(outcome: Outcome, files: Files)

  /** One attempt of an action on a path. File.Delete of a missing file does
      nothing; File.Copy checks both paths, then reads its source before it
      opens its target. */
  function Apply(action: IOAction, path: string, files: Files, denied: set<string>): (a: Attempt)
    ensures a.outcome != Completed ==> a.files == files
    ensures a.outcome == Denied ==> path in denied
    ensures a.outcome == Completed ==> path !in denied && path != []
    ensures a.outcome == NotFound ==> action.CopyFrom? && !FileExists(files, action.source)
    ensures a.outcome == Completed ==> forall p :: p != path ==> (p in a.files <==> p in files)
    ensures a.outcome == Completed ==> forall p :: p != path && p in files ==> a.files[p] == files[p]
  {
    match action
    case Delete =>
      if path == [] then Attempt(Rejected, files)
      else if path in denied then Attempt(Denied, files)
      else if path in files && files[path].locked then Attempt(Busy, files)
      else Attempt(Completed, files - {path})
    case WriteAllBytes(bytes) =>
      if path == [] then Attempt(Rejected, files)
      else if path in denied then Attempt(Denied, files)
      else if path in files && files[path].locked then Attempt(Busy, files)
      else Attempt(Completed, files[path := FileEntry(Bytes(bytes), false)])
    case CopyFrom(source) =>
      if source == [] || path == [] then Attempt(Rejected, files)
      else if source !in files then Attempt(NotFound, files)
      else if files[source].locked then Attempt(Busy, files)
      else if path in denied then Attempt(Denied, files)
      else if path in files && files[path].locked then Attempt(Busy, files)
      else Attempt(Completed, files[path := FileEntry(files[source].content, false)])
  }

  /** What a completed action leaves at its path. */
  lemma ApplyEffect(action: IOAction, path: string, files: Files, denied: set<string>)
    requires Apply(action, path, files, denied).outcome == Completed
    ensures var after := Apply(action, path, files, denied).files;
      match action
      case Delete => path !in after
      case WriteAllBytes(bytes) => path in after && after[path] == FileEntry(Bytes(bytes), false)
      case CopyFrom(source) =>
        source in files && path in after && after[path] == FileEntry(files[source].content, false)
  {
  }
}
