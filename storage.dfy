/** The storage medium as the engine sees it: paths that name either a file
    (its bytes) or a directory (its entry names, in listing order). The card
    driver is not modelled; opening, reading and listing are read off this
    map. */
module Storage {
  import opened Common
  import opened Text

  datatype Node = File(bytes: seq<char>) | Directory(names: seq<string>)

  type FileSystem = map<string, Node>

  /** An open file: the entry name it was opened under and the bytes not
      yet read from it. */
  datatype Handle = Handle(name: string, unread: seq<char>)

  /** open(path) followed by reads: a missing path gives an invalid handle.
      A directory opens; the model gives it an empty byte stream (the card
      driver would hand back its raw 32-byte directory entries, which the
      engine never reads as text). */
  function Open(fs: FileSystem, path: string): Option<seq<char>>
  {
    if path !in fs then None
    else match fs[path]
      case File(bytes) => Some(bytes)
      case Directory(_) => Some([])
  }

  function Contents(fs: FileSystem, path: string): seq<char>
  {
    match Open(fs, path)
    case None => []
    case Some(bytes) => bytes
  }

  /** open(path) of a directory and the files openNextFile would hand out,
      in order, each freshly opened at its first byte. A plain file opens
      but lists nothing. */
  function OpenDir(fs: FileSystem, path: string): Option<seq<Handle>>
  {
    if path !in fs then None
    else match fs[path]
      case File(_) => Some([])
      case Directory(names) =>
        Some(seq(|names|, i requires 0 <= i < |names| =>
          Handle(names[i], Contents(fs, path + "/" + names[i]))))
  }

  /** A FAT volume resolves paths whatever the case of their letters: two
      spellings that lower-case alike name the same node. The map itself is
      case-sensitive; this predicate says when it behaves like the card. */
  ghost predicate CaseInsensitive(fs: FileSystem)
  {
    forall p, q :: p in fs && LowerAll(p) == LowerAll(q) ==> q in fs && fs[q] == fs[p]
  }

  /** On such a volume a path read under another spelling gives the same
      bytes. */
  lemma SameSpellingContents(fs: FileSystem, p: string, q: string)
    requires CaseInsensitive(fs) && p in fs && LowerAll(p) == LowerAll(q)
    ensures Contents(fs, q) == Contents(fs, p)
  {
    assert q in fs && fs[q] == fs[p];
  }
}
