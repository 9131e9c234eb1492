/**
 * Directory listings shown by the file browser: the remote listing built
 * from an SFTP `read_dir` reply, the local listing built from the local
 * file system's entries, and the order both are shown in (directories
 * first, then names compared case-insensitively).
 */
module Listing {
  import opened Common
  import opened Paths
  import opened Sorting

  /** One row of a listing. */
  datatype FileEntry = FileEntry(
    name: string,
    path: string,
    isDir: bool,
    size: nat,
    modified: Option<nat>,
    permissions: nat,
    isSymlink: bool)

  datatype DirectoryListing = DirectoryListing(
    path: string,
    entries: seq<FileEntry>,
    parentPath: Option<string>)

  /** One entry of an SFTP `read_dir` reply: its name, file type and optional attributes. */
  datatype RemoteEntry = RemoteEntry(
    name: string,
    isDir: bool,
    isSymlink: bool,
    size: Option<nat>,
    mtime: Option<nat>,
    permissions: Option<nat>)

  /** What the local file system reports for one entry's metadata. */
  datatype LocalMeta = LocalMeta(isDir: bool, len: nat, modified: Option<nat>, isSymlink: bool)

  /** One step of the local directory iterator: an unreadable entry, or a name with its metadata lookup. */
  datatype LocalItem =
    | Unreadable(reason: string)
    | Item(name: string, meta: Result<LocalMeta>)

  /** Permission bits every local entry is given. */
  const LocalPermissions: nat := 0x1ED  // 0o755

  /**
   * The listing order as "at most": a directory precedes a non-directory;
   * within the same kind, lower-cased names in text order.
   */
  predicate EntryLe(a: FileEntry, b: FileEntry): (le: bool)
    ensures a.isDir && !b.isDir ==> le
    ensures !a.isDir && b.isDir ==> !le
    ensures a.isDir == b.isDir ==> (le <==> LexLe(Lower(a.name), Lower(b.name)))
  {
    if a.isDir != b.isDir then a.isDir else LexLe(Lower(a.name), Lower(b.name))
  }

  lemma EntryLeTotalPreorder()
    ensures TotalPreorder(EntryLe)
  {
    forall a: FileEntry, b: FileEntry ensures EntryLe(a, b) || EntryLe(b, a) {
      LexLeTotal(Lower(a.name), Lower(b.name));
    }
    forall a: FileEntry, b: FileEntry, c: FileEntry | EntryLe(a, b) && EntryLe(b, c)
      ensures EntryLe(a, c)
    {
      if a.isDir == b.isDir && b.isDir == c.isDir {
        LexLeTransitive(Lower(a.name), Lower(b.name), Lower(c.name));
      }
    }
  }

  /** The listing's sort. */
  function SortEntries(entries: seq<FileEntry>): (r: seq<FileEntry>)
    ensures multiset(r) == multiset(entries)
    ensures forall i, j :: 0 <= i < j < |r| && r[j].isDir ==> r[i].isDir
    ensures forall i, j :: 0 <= i < j < |r| && r[i].isDir == r[j].isDir ==>
      LexLe(Lower(r[i].name), Lower(r[j].name))
  {
    EntryLeTotalPreorder();
    var r := SortBy(entries, EntryLe);
    assert forall i, j :: 0 <= i < j < |r| ==> EntryLe(r[i], r[j]);
    r
  }

  // ----- Remote listing -----

  /** The row a remote entry becomes when `dir` is listed. */
  function RemoteRow(dir: string, e: RemoteEntry): (f: FileEntry)
    ensures f.name == e.name && f.path == EntryPath(dir, e.name)
    ensures f.isDir == e.isDir && f.isSymlink == e.isSymlink
    ensures f.size == e.size.GetOr(0) && f.modified == e.mtime && f.permissions == e.permissions.GetOr(0)
  {
    var path := if dir == "/" then "/" + e.name else TrimEndSlashes(dir) + "/" + e.name;
    FileEntry(e.name, path, e.isDir, e.size.GetOr(0), e.mtime, e.permissions.GetOr(0), e.isSymlink)
  }

  /** The rows collected from a reply, in reply order, "." and ".." skipped. */
  function Kept(dir: string, reply: seq<RemoteEntry>): (rows: seq<FileEntry>)
    ensures |rows| <= |reply|
    ensures forall i :: 0 <= i < |rows| ==> !IsDotName(rows[i].name)
  {
    if reply == [] then []
    else
      var last := reply[|reply| - 1];
      Kept(dir, reply[..|reply| - 1]) + if IsDotName(last.name) then [] else [RemoteRow(dir, last)]
  }

  /** Kept rows are exactly the rows of the reply's entries other than "." and "..". */
  lemma {:induction false} KeptMembers(dir: string, reply: seq<RemoteEntry>, f: FileEntry)
    ensures f in Kept(dir, reply) <==> exists e :: e in reply && !IsDotName(e.name) && f == RemoteRow(dir, e)
  {
    if reply != [] {
      var init, last := reply[..|reply| - 1], reply[|reply| - 1];
      assert reply == init + [last];
      KeptMembers(dir, init, f);
      if f in Kept(dir, init) {
        var e :| e in init && !IsDotName(e.name) && f == RemoteRow(dir, e);
        assert e in reply;
      }
    }
  }

  /** No kept row is "." or "..", and each row's path is the directory joined with its name. */
  lemma {:induction false} KeptRows(dir: string, reply: seq<RemoteEntry>)
    ensures |Kept(dir, reply)| <= |reply|
    ensures forall f :: f in Kept(dir, reply) ==> !IsDotName(f.name) && f.path == EntryPath(dir, f.name)
  {
    if reply != [] {
      KeptRows(dir, reply[..|reply| - 1]);
    }
  }

  /** The remote listing for a `read_dir` reply, or the error it reports. */
  function RemoteListing(path: string, reply: Result<seq<RemoteEntry>>): (r: Result<DirectoryListing>)
    ensures r.Ok? <==> reply.Ok?
    ensures reply.Err? ==> r.error == "Failed to read directory: " + reply.error
    ensures r.Ok? ==> r.value.path == NormalizeRemote(path) && r.value.parentPath == GetParentPath(r.value.path)
    ensures r.Ok? ==> |r.value.entries| <= |reply.value|
  {
    var dir := NormalizeRemote(path);
    match reply
    case Err(e) => Err("Failed to read directory: " + e)
    case Ok(entries) => Ok(DirectoryListing(dir, SortEntries(Kept(dir, entries)), GetParentPath(dir)))
  }

  /**
   * `sftp_list_dir` after the connection lookup: normalise the path, collect
   * the reply's rows, sort them, attach the parent.
   */
  method ListRemote(path: string, reply: Result<seq<RemoteEntry>>) returns (r: Result<DirectoryListing>)
    ensures r == RemoteListing(path, reply)
  {
    var dir := NormalizeRemote(path);
    if reply.Err? {
      return Err("Failed to read directory: " + reply.error);
    }
    var entries := CollectRemote(dir, reply.value);
    r := Ok(DirectoryListing(dir, SortEntries(entries), GetParentPath(dir)));
  }

  /** The loop of `sftp_list_dir`: one row per reply entry, "." and ".." skipped. */
  method CollectRemote(dir: string, raw: seq<RemoteEntry>) returns (entries: seq<FileEntry>)
    ensures entries == Kept(dir, raw)
  {
    entries := [];
    for i := 0 to |raw|
      invariant entries == Kept(dir, raw[..i])
    {
      assert raw[..i + 1][..i] == raw[..i];
      var e := raw[i];
      if !IsDotName(e.name) {
        var full := if dir == "/" then "/" + e.name else TrimEndSlashes(dir) + "/" + e.name;
        entries := entries + [FileEntry(e.name, full, e.isDir, e.size.GetOr(0), e.mtime, e.permissions.GetOr(0), e.isSymlink)];
      }
    }
    assert raw[..|raw|] == raw;
  }

  /**
   * What a remote listing promises: its path is the normalised request, its
   * parent is that path's parent, its rows are the reply's rows other than
   * "." and ".." (each as often as in the reply), each row's path is the
   * directory joined with the row's name, and the rows are in listing order.
   */
  lemma RemoteListingFacts(path: string, entries: seq<RemoteEntry>)
    ensures var r := RemoteListing(path, Ok(entries));
      && r.Ok?
      && r.value.path == NormalizeRemote(path)
      && r.value.parentPath == GetParentPath(NormalizeRemote(path))
      && multiset(r.value.entries) == multiset(Kept(NormalizeRemote(path), entries))
      && (forall f :: f in r.value.entries ==>
            !IsDotName(f.name) && f.path == EntryPath(NormalizeRemote(path), f.name))
      && (forall i, j :: 0 <= i < j < |r.value.entries| && r.value.entries[j].isDir ==> r.value.entries[i].isDir)
  {
    var dir := NormalizeRemote(path);
    var kept := Kept(dir, entries);
    KeptRows(dir, entries);
    var sorted := SortEntries(kept);
    forall f | f in sorted ensures f in kept {
      assert f in multiset(sorted);
    }
  }

  // ----- Local listing -----

  /** The row a local item becomes, or the error that stops the listing. */
  function LocalRow(dir: string, item: LocalItem): (r: Result<FileEntry>)
    ensures item.Unreadable? ==> r == Err("Failed to read entry: " + item.reason)
    ensures item.Item? && item.meta.Err? ==> r == Err("Failed to get metadata: " + item.meta.error)
    ensures item.Item? && item.meta.Ok? ==> r.Ok?
    ensures r.Ok? ==>
      && item.Item? && item.meta.Ok? && r.value.name == item.name
      && r.value.path == LocalJoin(dir, item.name) && r.value.permissions == LocalPermissions
      && r.value.isDir == item.meta.value.isDir && r.value.size == item.meta.value.len
      && r.value.modified == item.meta.value.modified && r.value.isSymlink == item.meta.value.isSymlink
  {
    match item
    case Unreadable(reason) => Err("Failed to read entry: " + reason)
    case Item(name, meta) =>
      match meta
      case Err(e) => Err("Failed to get metadata: " + e)
      case Ok(m) => Ok(FileEntry(name, LocalJoin(dir, name), m.isDir, m.len, m.modified, LocalPermissions, m.isSymlink))
  }

  /** The rows of the first items, or the error of the first item that fails. */
  function LocalRows(dir: string, items: seq<LocalItem>): (r: Result<seq<FileEntry>>)
    ensures r.Ok? ==> |r.value| == |items|
  {
    if items == [] then Ok([])
    else
      match LocalRows(dir, items[..|items| - 1])
      case Err(e) => Err(e)
      case Ok(rows) =>
        match LocalRow(dir, items[|items| - 1])
        case Err(e) => Err(e)
        case Ok(f) => Ok(rows + [f])
  }

  /** Local rows succeed only when every item does. */
  lemma {:induction false} LocalRowsOk(dir: string, items: seq<LocalItem>)
    requires LocalRows(dir, items).Ok?
    ensures forall i :: 0 <= i < |items| ==> LocalRow(dir, items[i]).Ok?
  {
    if items != [] {
      var init := items[..|items| - 1];
      LocalRowsOk(dir, init);
      forall i | 0 <= i < |items| ensures LocalRow(dir, items[i]).Ok? {
        if i < |init| {
          assert items[i] == init[i];
        }
      }
    }
  }

  /** Local rows succeed when every item does, with one row per item, in order. */
  lemma {:induction false} LocalRowsValues(dir: string, items: seq<LocalItem>)
    requires forall i :: 0 <= i < |items| ==> LocalRow(dir, items[i]).Ok?
    ensures LocalRows(dir, items).Ok?
    ensures |LocalRows(dir, items).value| == |items|
    ensures forall i :: 0 <= i < |items| ==> LocalRows(dir, items).value[i] == LocalRow(dir, items[i]).value
  {
    if items != [] {
      var init := items[..|items| - 1];
      LocalRowsValues(dir, init);
      assert forall i :: 0 <= i < |init| ==> init[i] == items[i];
      var rows := LocalRows(dir, init).value;
      assert LocalRows(dir, items).value == rows + [LocalRow(dir, items[|items| - 1]).value];
    }
  }

  /** A failed local listing reports the first item that failed. */
  lemma {:induction false} LocalRowsFirstError(dir: string, items: seq<LocalItem>)
    requires LocalRows(dir, items).Err?
    ensures exists k ::
      && 0 <= k < |items| && LocalRow(dir, items[k]).Err?
      && (forall i :: 0 <= i < k ==> LocalRow(dir, items[i]).Ok?)
      && LocalRows(dir, items).error == LocalRow(dir, items[k]).error
  {
    var init := items[..|items| - 1];
    var k := |items| - 1;
    assert forall i :: 0 <= i < |init| ==> init[i] == items[i];
    if LocalRows(dir, init).Err? {
      LocalRowsFirstError(dir, init);
    } else {
      LocalRowsOk(dir, init);
      assert LocalRow(dir, items[k]).Err?;
    }
  }

  /** The local listing for the items of `dir`, or the error it reports. */
  function LocalListing(path: string, home: Option<string>, reply: Result<seq<LocalItem>>): (r: Result<DirectoryListing>)
    ensures reply.Err? ==> r == Err("Failed to read directory: " + reply.error)
    ensures reply.Ok? ==> (r.Ok? <==> LocalRows(ExpandHome(path, home), reply.value).Ok?)
    ensures r.Ok? ==> r.value.path == ExpandHome(path, home) && r.value.parentPath == GetParentPath(r.value.path)
    ensures r.Ok? ==> |r.value.entries| == |reply.value|
  {
    var dir := ExpandHome(path, home);
    match reply
    case Err(e) => Err("Failed to read directory: " + e)
    case Ok(items) =>
      match LocalRows(dir, items)
      case Err(e) => Err(e)
      case Ok(rows) => Ok(DirectoryListing(dir, SortEntries(rows), GetParentPath(dir)))
  }

  /**
   * `local_list_dir`: expand the home directory, collect one row per item,
   * sort, attach the parent.
   */
  method ListLocal(path: string, home: Option<string>, reply: Result<seq<LocalItem>>) returns (r: Result<DirectoryListing>)
    ensures r == LocalListing(path, home, reply)
  {
    var dir := ExpandHome(path, home);
    if reply.Err? {
      return Err("Failed to read directory: " + reply.error);
    }
    var rows := CollectLocal(dir, reply.value);
    if rows.Err? {
      return Err(rows.error);
    }
    r := Ok(DirectoryListing(dir, SortEntries(rows.value), GetParentPath(dir)));
  }

  /**
   * The loop of `local_list_dir`: one row per item; the first unreadable
   * item or failed metadata lookup ends the listing with its error.
   */
  method CollectLocal(dir: string, items: seq<LocalItem>) returns (r: Result<seq<FileEntry>>)
    ensures r == LocalRows(dir, items)
  {
    var entries: seq<FileEntry> := [];
    for i := 0 to |items|
      invariant LocalRows(dir, items[..i]) == Ok(entries)
    {
      assert items[..i + 1][..i] == items[..i];
      match items[i]
      case Unreadable(reason) =>
        LocalErrorStays(dir, items, i + 1);
        return Err("Failed to read entry: " + reason);
      case Item(name, meta) =>
        if meta.Err? {
          LocalErrorStays(dir, items, i + 1);
          return Err("Failed to get metadata: " + meta.error);
        }
        var m := meta.value;
        entries := entries + [FileEntry(name, LocalJoin(dir, name), m.isDir, m.len, m.modified, LocalPermissions, m.isSymlink)];
    }
    assert items[..|items|] == items;
    r := Ok(entries);
  }

  /** Once the rows of a prefix fail, the rows of the whole fail with the same error. */
  lemma {:induction false} LocalErrorStays(dir: string, items: seq<LocalItem>, n: nat)
    requires n <= |items| && LocalRows(dir, items[..n]).Err?
    ensures LocalRows(dir, items) == LocalRows(dir, items[..n])
    decreases |items| - n
  {
    if n < |items| {
      assert items[..n + 1][..n] == items[..n];
      LocalErrorStays(dir, items, n + 1);
    } else {
      assert items[..n] == items;
    }
  }

  /**
   * What a local listing promises: its path is the expanded request, one row
   * per item with the path joined onto it, rows in listing order.
   */
  lemma LocalListingFacts(path: string, home: Option<string>, items: seq<LocalItem>)
    requires forall i :: 0 <= i < |items| ==> LocalRow(ExpandHome(path, home), items[i]).Ok?
    ensures var r := LocalListing(path, home, Ok(items));
      && r.Ok?
      && r.value.path == ExpandHome(path, home)
      && r.value.parentPath == GetParentPath(ExpandHome(path, home))
      && |r.value.entries| == |items|
      && multiset(r.value.entries) == multiset(LocalRows(ExpandHome(path, home), items).value)
      && (forall f :: f in r.value.entries ==> f.path == LocalJoin(ExpandHome(path, home), f.name))
      && (forall i, j :: 0 <= i < j < |r.value.entries| && r.value.entries[j].isDir ==> r.value.entries[i].isDir)
  {
    var dir := ExpandHome(path, home);
    LocalRowsValues(dir, items);
    var rows := LocalRows(dir, items).value;
    var sorted := SortEntries(rows);
    forall f | f in sorted ensures f.path == LocalJoin(dir, f.name) {
      assert f in multiset(sorted);
      assert f in rows;
      var i :| 0 <= i < |rows| && rows[i] == f;
    }
  }
}
