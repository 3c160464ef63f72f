/** File discovery: the loops that build the work list before any conversion
    starts, over `os.listdir` (direct children only) or `os.walk` (the whole
    subtree). The filesystem is an input: the entries a walk reports. */
module Discovery {
  import opened Paths

  /** What a listed name is: a directory, a regular file, or something else
      that is not a directory (a broken link, a socket, ...). */
  datatype EntryKind = Directory | RegularFile | OtherFile

  /** One name seen under the input root: the folder that holds it, relative
      to the root, its name and its kind. */
  datatype Entry = Entry(sub: seq<string>, name: string, kind: EntryKind)

  /** The input root as the filesystem shows it: not a listable directory, or
      the entries of its subtree in the order the walk visits them. The
      direct children are the entries whose `sub` is empty. */
  datatype Listing = NotADirectory | Tree(entries: seq<Entry>)

  /** The end of discovery: the files found, or the listing raised. */
  datatype Found = Found(files: seq<FilePath>) | ListingError

  /** Whether discovery keeps an entry. `os.walk` reports every
      non-directory name at any depth; `os.listdir` mode keeps only direct
      children for which `os.path.isfile` holds. Either way, a kept entry
      passes the filter and is not a directory. */
  predicate Selected(e: Entry, recursive: bool)
    ensures Selected(e, recursive) ==> Qualifies(e.name) && e.kind != Directory
  {
    if recursive then e.kind != Directory && Qualifies(e.name)
    else e.sub == [] && e.kind == RegularFile && Qualifies(e.name)
  }

  /** The work list: the kept entries, joined to the root, in listing order.
      Each entry yields at most one file, and every file passes the filter. */
  function Discovered(root: Dir, entries: seq<Entry>, recursive: bool): (r: seq<FilePath>)
    ensures |r| <= |entries|
    ensures forall k :: 0 <= k < |r| ==> Qualifies(r[k].name)
  {
    if entries == [] then []
    else
      var e := entries[|entries| - 1];
      Discovered(root, entries[..|entries| - 1], recursive)
        + (if Selected(e, recursive) then [FilePath(root + e.sub, e.name)] else [])
  }

  /** The files a run works on; empty when the root cannot be listed. */
  function FilesOf(root: Dir, listing: Listing, recursive: bool): seq<FilePath>
  {
    match listing
    case NotADirectory => []
    case Tree(entries) => Discovered(root, entries, recursive)
  }

  /** The discovery loops of the run's preparation step. A root that is not a
      directory makes `os.listdir` raise, while `os.walk` quietly reports
      nothing. */
  method CollectFiles(root: Dir, listing: Listing, recursive: bool) returns (found: Found)
    ensures listing.NotADirectory? && !recursive ==> found == ListingError
    ensures listing.NotADirectory? && recursive ==> found == Found([])
    ensures listing.Tree? ==> found == Found(Discovered(root, listing.entries, recursive))
  {
    if listing.NotADirectory? {
      if recursive {
        return Found([]);
      }
      return ListingError;
    }
    var entries := listing.entries;
    var files: seq<FilePath> := [];
    for i := 0 to |entries|
      invariant files == Discovered(root, entries[..i], recursive)
    {
      var e := entries[i];
      assert entries[..i + 1][..i] == entries[..i];
      if recursive {
        if e.kind != Directory && Lower(Extension(e.name)) in SupportedExts {
          files := files + [FilePath(root + e.sub, e.name)];
        }
      } else {
        if e.sub == [] && e.kind == RegularFile && Lower(Extension(e.name)) in SupportedExts {
          files := files + [FilePath(root + e.sub, e.name)];
        }
      }
    }
    assert entries[..|entries|] == entries;
    return Found(files);
  }

  /** A file is found exactly when some kept entry names it. */
  lemma {:induction false} DiscoveredIff(root: Dir, entries: seq<Entry>, recursive: bool, f: FilePath)
    ensures f in Discovered(root, entries, recursive) <==>
      exists e :: e in entries && Selected(e, recursive) && f == FilePath(root + e.sub, e.name)
  {
    if entries != [] {
      var init := entries[..|entries| - 1];
      DiscoveredIff(root, init, recursive, f);
      assert entries == init + [entries[|entries| - 1]];
    }
  }

  /** Every found file lies under the root; without recursion it is a
      direct child of the root. */
  lemma {:induction false} DiscoveredShape(root: Dir, entries: seq<Entry>, recursive: bool, f: FilePath)
    requires f in Discovered(root, entries, recursive)
    ensures Under(f.dir, root)
    ensures !recursive ==> f.dir == root
  {
    DiscoveredIff(root, entries, recursive, f);
    var e :| e in entries && Selected(e, recursive) && f == FilePath(root + e.sub, e.name);
    assert f.dir[..|root|] == root;
  }

  /** Recursion only adds files: everything the listing mode finds, the walk finds too. */
  lemma NonRecursiveIncluded(root: Dir, entries: seq<Entry>, f: FilePath)
    requires f in Discovered(root, entries, false)
    ensures f in Discovered(root, entries, true)
  {
    DiscoveredIff(root, entries, false, f);
    DiscoveredIff(root, entries, true, f);
  }

  /** The walk finds a qualifying non-directory name at any depth. */
  lemma RecursiveFindsNested(root: Dir, entries: seq<Entry>, e: Entry)
    requires e in entries && e.kind != Directory && Qualifies(e.name)
    ensures FilePath(root + e.sub, e.name) in Discovered(root, entries, true)
  {
    DiscoveredIff(root, entries, true, FilePath(root + e.sub, e.name));
  }
}
