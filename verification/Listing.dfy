/** `list_entries`: what one directory shows, folders first. */
module Listing {
  import opened Basics

  /** The type of a raw directory entry; a link carries whether it resolves to a directory, if it resolves at all. */
  datatype FileType = Directory | RegularFile | Symlink(target: Option<bool>)

  /** One entry as the file system yields it; its type may be unreadable. */
  datatype RawEntry = RawEntry(name: string, path: Path, fileType: Option<FileType>)

  datatype Entry = Entry(name: string, path: Path, isDir: bool)

  function IsDirectory(t: FileType): bool {
    match t
    case Directory => true
    case RegularFile => false
    case Symlink(target) => target == Some(true)
  }

  /** The row of a raw entry: none for an unreadable type, a hidden name, or a file nobody asked for. */
  function Row(raw: RawEntry, includeFiles: bool): Option<Entry> {
    if raw.fileType.None? then None
    else
      var isDir := IsDirectory(raw.fileType.value);
      if !isDir && !includeFiles then None
      else if raw.name != "" && raw.name[0] == '.' then None
      else Some(Entry(raw.name, raw.path, isDir))
  }

  function Visible(raw: seq<RawEntry>, includeFiles: bool): seq<Entry> {
    if raw == [] then []
    else
      var row := Row(raw[|raw| - 1], includeFiles);
      Visible(raw[..|raw| - 1], includeFiles) + if row.Some? then [row.value] else []
  }

  // ----- the order -----

  /** Lexicographic order of strings. */
  predicate StringLe(a: string, b: string) {
    a == "" || (b != "" && (a[0] < b[0] || (a[0] == b[0] && StringLe(a[1..], b[1..]))))
  }

  lemma {:induction false} StringLeTotal(a: string, b: string)
    ensures StringLe(a, b) || StringLe(b, a)
    ensures StringLe(a, b) && StringLe(b, a) ==> a == b
  {
    if a == "" || b == "" {
    } else {
      StringLeTotal(a[1..], b[1..]);
      if a[0] == b[0] && a[1..] == b[1..] { assert a == [a[0]] + a[1..] && b == [b[0]] + b[1..]; }
    }
  }

  lemma {:induction false} StringLeTransitive(a: string, b: string, c: string)
    requires StringLe(a, b) && StringLe(b, c)
    ensures StringLe(a, c)
  {
    if a == "" || a[0] != b[0] || b[0] != c[0] {
    } else {
      StringLeTransitive(a[1..], b[1..], c[1..]);
    }
  }

  /** Folders first, then by lower-cased name, then by name. */
  predicate Le(l: Entry, r: Entry, lower: string -> string) {
    if l.isDir != r.isDir then l.isDir
    else if lower(l.name) != lower(r.name) then StringLe(lower(l.name), lower(r.name))
    else StringLe(l.name, r.name)
  }

  lemma LeTotal(l: Entry, r: Entry, lower: string -> string)
    ensures Le(l, r, lower) || Le(r, l, lower)
  {
    StringLeTotal(lower(l.name), lower(r.name));
    StringLeTotal(l.name, r.name);
  }

  lemma LeTransitive(a: Entry, b: Entry, c: Entry, lower: string -> string)
    requires Le(a, b, lower) && Le(b, c, lower)
    ensures Le(a, c, lower)
  {
    if a.isDir == b.isDir == c.isDir {
      var x, y, z := lower(a.name), lower(b.name), lower(c.name);
      if x != y && y != z { StringLeTransitive(x, y, z); StringLeTotal(x, y); }
      if x == y && y == z { StringLeTransitive(a.name, b.name, c.name); }
    }
  }

  function Insert(e: Entry, sorted: seq<Entry>, lower: string -> string): seq<Entry> {
    if sorted == [] || Le(e, sorted[0], lower) then [e] + sorted
    else [sorted[0]] + Insert(e, sorted[1..], lower)
  }

  function Sorted(entries: seq<Entry>, lower: string -> string): seq<Entry> {
    if entries == [] then [] else Insert(entries[0], Sorted(entries[1..], lower), lower)
  }

  ghost predicate Ordered(s: seq<Entry>, lower: string -> string) {
    forall i, j :: 0 <= i < j < |s| ==> Le(s[i], s[j], lower)
  }

  lemma {:induction false} InsertPermutes(e: Entry, sorted: seq<Entry>, lower: string -> string)
    ensures multiset(Insert(e, sorted, lower)) == multiset{e} + multiset(sorted)
    decreases |sorted|
  {
    hide Le;
    if sorted == [] || Le(e, sorted[0], lower) {
    } else {
      InsertPermutes(e, sorted[1..], lower);
      assert sorted == [sorted[0]] + sorted[1..];
    }
  }

  lemma {:induction false} InsertedFrom(e: Entry, sorted: seq<Entry>, lower: string -> string, j: nat)
    requires j < |Insert(e, sorted, lower)|
    ensures Insert(e, sorted, lower)[j] == e || Insert(e, sorted, lower)[j] in sorted
    decreases |sorted|
  {
    hide Le;
    if sorted == [] || Le(e, sorted[0], lower) || j == 0 {
    } else {
      InsertedFrom(e, sorted[1..], lower, j - 1);
    }
  }

  lemma {:induction false} InsertOrders(e: Entry, sorted: seq<Entry>, lower: string -> string)
    requires Ordered(sorted, lower)
    ensures Ordered(Insert(e, sorted, lower), lower)
    decreases |sorted|
  {
    hide Le;
    if sorted == [] || Le(e, sorted[0], lower) {
      forall j | 0 <= j < |sorted|
        ensures Le(e, sorted[j], lower)
      {
        if j > 0 { LeTransitive(e, sorted[0], sorted[j], lower); }
      }
    } else {
      var head, rest := sorted[0], sorted[1..];
      InsertOrders(e, rest, lower);
      LeTotal(e, head, lower);
      forall j | 0 <= j < |Insert(e, rest, lower)|
        ensures Le(head, Insert(e, rest, lower)[j], lower)
      {
        InsertedFrom(e, rest, lower, j);
      }
    }
  }

  lemma {:induction false} SortedKeeps(entries: seq<Entry>, lower: string -> string)
    ensures Ordered(Sorted(entries, lower), lower) && multiset(Sorted(entries, lower)) == multiset(entries)
    decreases |entries|
  {
    hide Insert, Le;
    if entries == [] {
    } else {
      SortedKeeps(entries[1..], lower);
      InsertOrders(entries[0], Sorted(entries[1..], lower), lower);
      InsertPermutes(entries[0], Sorted(entries[1..], lower), lower);
      assert entries == [entries[0]] + entries[1..];
    }
  }

  // ----- the listing -----

  method ListEntries(raw: seq<RawEntry>, includeFiles: bool, lower: string -> string) returns (entries: seq<Entry>)
    ensures entries == Sorted(Visible(raw, includeFiles), lower)
  {
    entries := [];
    for i := 0 to |raw|
      invariant entries == Visible(raw[..i], includeFiles)
    {
      var entry := raw[i];
      assert raw[..i + 1][..i] == raw[..i];
      if entry.fileType.None? {
        continue;
      }
      var isDir := IsDirectory(entry.fileType.value);
      if !isDir && !includeFiles {
        continue;
      }
      if entry.name != "" && entry.name[0] == '.' {
        continue;
      }
      entries := entries + [Entry(entry.name, entry.path, isDir)];
    }
    assert raw[..|raw|] == raw;
    entries := Sorted(entries, lower);
  }

  lemma {:induction false} VisibleFrom(raw: seq<RawEntry>, includeFiles: bool, e: Entry)
    ensures e in Visible(raw, includeFiles) <==> exists r :: r in raw && Row(r, includeFiles) == Some(e)
    decreases |raw|
  {
    if raw == [] {
    } else {
      var init, last := raw[..|raw| - 1], raw[|raw| - 1];
      VisibleFrom(init, includeFiles, e);
      assert raw == init + [last];
    }
  }

  lemma FoldersFirst(rows: seq<Entry>, lower: string -> string)
    requires Ordered(rows, lower)
    ensures forall i, j :: 0 <= i < j < |rows| && rows[j].isDir ==> rows[i].isDir
  {
  }

  /** The listing shows exactly the readable entries that are not hidden, files only when asked for, in order. */
  lemma ListingShows(raw: seq<RawEntry>, includeFiles: bool, lower: string -> string)
    ensures var rows := Sorted(Visible(raw, includeFiles), lower);
            && Ordered(rows, lower)
            && (forall e :: e in rows <==> exists r :: r in raw && Row(r, includeFiles) == Some(e))
            && (forall e :: e in rows ==> (e.isDir || includeFiles) && !(e.name != "" && e.name[0] == '.'))
            && (forall i, j :: 0 <= i < j < |rows| && rows[j].isDir ==> rows[i].isDir)
  {
    hide Le, Sorted, Visible;
    var shown := Visible(raw, includeFiles);
    var rows := Sorted(shown, lower);
    SortedKeeps(shown, lower);
    FoldersFirst(rows, lower);
    forall e
      ensures e in rows <==> exists r :: r in raw && Row(r, includeFiles) == Some(e)
    {
      VisibleFrom(raw, includeFiles, e);
      assert e in rows <==> e in multiset(rows);
      assert e in shown <==> e in multiset(shown);
    }
  }

  /** The same row by row: an entry is listed exactly when its type is known, its name is not hidden, and it is a
      directory, directly or through a link, or files are asked for. */
  lemma ListedIff(raw: seq<RawEntry>, includeFiles: bool, lower: string -> string, e: Entry)
    ensures e in Sorted(Visible(raw, includeFiles), lower) <==>
            exists r :: && r in raw && r.name == e.name && r.path == e.path && r.fileType.Some?
                        && (e.isDir <==> r.fileType.value == Directory || r.fileType.value == Symlink(Some(true)))
                        && (e.isDir || includeFiles) && !(e.name != "" && e.name[0] == '.')
  {
    hide Sorted, Visible;
    ListingShows(raw, includeFiles, lower);
    if e in Sorted(Visible(raw, includeFiles), lower) {
      var r :| r in raw && Row(r, includeFiles) == Some(e);
    }
    if r :| && r in raw && r.name == e.name && r.path == e.path && r.fileType.Some?
            && (e.isDir <==> r.fileType.value == Directory || r.fileType.value == Symlink(Some(true)))
            && (e.isDir || includeFiles) && !(e.name != "" && e.name[0] == '.')
    {
      assert Row(r, includeFiles) == Some(e);
    }
  }

  /** The order of strings: a prefix comes first, otherwise the smaller character at the first difference. */
  lemma {:induction false} StringLeMeans(a: string, b: string)
    ensures StringLe(a, b) <==>
            exists k :: 0 <= k <= |a| && k <= |b| && a[..k] == b[..k] && (k == |a| || (k < |b| && a[k] < b[k]))
  {
    if a == "" || b == "" {
      assert a[..0] == b[..0];
    } else {
      var a', b' := a[1..], b[1..];
      StringLeMeans(a', b');
      if StringLe(a, b) {
        if a[0] < b[0] {
          assert a[..0] == b[..0];
        } else {
          var k :| 0 <= k <= |a'| && k <= |b'| && a'[..k] == b'[..k] && (k == |a'| || (k < |b'| && a'[k] < b'[k]));
          assert a[..k + 1] == [a[0]] + a'[..k] && b[..k + 1] == [b[0]] + b'[..k];
        }
      }
      if k :| 0 <= k <= |a| && k <= |b| && a[..k] == b[..k] && (k == |a| || (k < |b| && a[k] < b[k])) {
        if k > 0 {
          assert a[0] == a[..k][0] == b[..k][0] == b[0];
          assert a'[..k - 1] == a[..k][1..] == b[..k][1..] == b'[..k - 1];
        }
      }
    }
  }

  /** Within the folders and within the files, rows go by lower-cased name, and by name where that is the same. */
  lemma RowsByName(raw: seq<RawEntry>, includeFiles: bool, lower: string -> string, i: nat, j: nat)
    requires i < j < |Sorted(Visible(raw, includeFiles), lower)|
    ensures var l, r := Sorted(Visible(raw, includeFiles), lower)[i], Sorted(Visible(raw, includeFiles), lower)[j];
            && (r.isDir ==> l.isDir)
            && (l.isDir == r.isDir ==> StringLe(lower(l.name), lower(r.name)))
            && (l.isDir == r.isDir && lower(l.name) == lower(r.name) ==> StringLe(l.name, r.name))
  {
    hide Sorted, Visible;
    SortedKeeps(Visible(raw, includeFiles), lower);
    var l, r := Sorted(Visible(raw, includeFiles), lower)[i], Sorted(Visible(raw, includeFiles), lower)[j];
    StringLeTotal(lower(l.name), lower(r.name));
  }

  /** A broken link is missing from the listing if and only if files are not asked for or its name is hidden: a listing
      with files shows it as a file. */
  lemma BrokenLinkListed(raw: seq<RawEntry>, includeFiles: bool, lower: string -> string, link: RawEntry)
    requires link in raw && link.fileType == Some(Symlink(None))
    requires forall other :: other in raw && other.path == link.path ==> other == link
    ensures var rows := Sorted(Visible(raw, includeFiles), lower);
            && ((forall e :: e in rows ==> e.path != link.path)
                <==> !includeFiles || (link.name != "" && link.name[0] == '.'))
            && (forall e :: e in rows && e.path == link.path ==> e == Entry(link.name, link.path, false))
  {
    hide Sorted, Visible;
    var rows := Sorted(Visible(raw, includeFiles), lower);
    ListingShows(raw, includeFiles, lower);
    forall e | e in rows && e.path == link.path
      ensures Row(link, includeFiles) == Some(e)
    {
      var r :| r in raw && Row(r, includeFiles) == Some(e);
      assert r.path == link.path;
    }
    if Row(link, includeFiles).Some? {
      assert Row(link, includeFiles).value in rows;
    }
  }
}
