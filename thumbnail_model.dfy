/** The ordering of file names: QString::localeAwareCompare stands here for
    the lexicographic order of character codes, a strict total order. */
module FileNames {

  /** `a.localeAwareCompare(b) < 0`. */
  predicate NameLess(a: string, b: string)
    decreases |a|
  {
    if a == [] then b != []
    else if b == [] then false
    else if a[0] != b[0] then a[0] < b[0]
    else NameLess(a[1..], b[1..])
  }

  lemma {:induction false} NameLessIrreflexive(a: string)
    ensures !NameLess(a, a)
    decreases |a|
  {
    if a != [] {
      NameLessIrreflexive(a[1..]);
    }
  }

  lemma {:induction false} NameLessTransitive(a: string, b: string, c: string)
    requires NameLess(a, b) && NameLess(b, c)
    ensures NameLess(a, c)
    decreases |a|
  {
    if a != [] && b != [] && c != [] && a[0] == b[0] && b[0] == c[0] {
      NameLessTransitive(a[1..], b[1..], c[1..]);
    }
  }

  /** Two different names are ordered one way or the other. */
  lemma {:induction false} NameLessTotal(a: string, b: string)
    requires a != b
    ensures NameLess(a, b) || NameLess(b, a)
    decreases |a|
  {
    if a != [] && b != [] && a[0] == b[0] {
      assert a == [a[0]] + a[1..] && b == [b[0]] + b[1..];
      NameLessTotal(a[1..], b[1..]);
    }
  }

  lemma {:induction false} NameLessAsymmetric(a: string, b: string)
    requires NameLess(a, b)
    ensures !NameLess(b, a)
    decreases |a|
  {
    if a != [] && b != [] && a[0] == b[0] {
      NameLessAsymmetric(a[1..], b[1..]);
    }
  }
}

/** The thumbnail list (ThumbnailModel in thumbnailmodel.cpp): the entries of
    one directory as FileItem rows, sorted directories first and then newest
    first, a path-to-row index for the asynchronous thumbnail results, and a
    token that tells results of an earlier listing from current ones. */
module Thumbnails {
  import opened Wrappers
  import opened FileItems
  import opened FileNames

  // ---------- the sort comparator of loadDirectory ----------

  /** The comparator handed to std::sort: directories before files, then the
      later modification time, then the later creation time, then the larger
      size, then the name in ascending order. */
  predicate Before(a: FileItem, b: FileItem) {
    var aDir := a.kind == Directory;
    var bDir := b.kind == Directory;
    if aDir != bDir then aDir
    else if !SameTime(a.modified, b.modified) then Earlier(b.modified, a.modified)
    else if !SameTime(a.created, b.created) then Earlier(b.created, a.created)
    else if a.sizeBytes != b.sizeBytes then a.sizeBytes > b.sizeBytes
    else NameLess(a.fileName, b.fileName)
  }

  /** Two items the comparator cannot tell apart: equal on every key. */
  predicate SameKeys(a: FileItem, b: FileItem) {
    (a.kind == Directory <==> b.kind == Directory)
    && SameTime(a.modified, b.modified) && SameTime(a.created, b.created)
    && a.sizeBytes == b.sizeBytes && a.fileName == b.fileName
  }

  lemma BeforeIrreflexive(a: FileItem)
    ensures !Before(a, a)
  {
    NameLessIrreflexive(a.fileName);
  }

  lemma BeforeAsymmetric(a: FileItem, b: FileItem)
    requires Before(a, b)
    ensures !Before(b, a)
  {
    if (a.kind == Directory) == (b.kind == Directory) && SameTime(a.modified, b.modified)
      && SameTime(a.created, b.created) && a.sizeBytes == b.sizeBytes {
      NameLessAsymmetric(a.fileName, b.fileName);
    }
  }

  lemma BeforeTransitive(a: FileItem, b: FileItem, c: FileItem)
    requires Before(a, b) && Before(b, c)
    ensures Before(a, c)
  {
    if NameLess(a.fileName, b.fileName) && NameLess(b.fileName, c.fileName) {
      NameLessTransitive(a.fileName, b.fileName, c.fileName);
    }
  }

  /** Neither item comes first exactly when the two agree on every key: the
      comparator orders all items that differ in a key. */
  lemma BeforeTotal(a: FileItem, b: FileItem)
    ensures !Before(a, b) && !Before(b, a) <==> SameKeys(a, b)
  {
    if a.fileName != b.fileName {
      NameLessTotal(a.fileName, b.fileName);
    } else {
      NameLessIrreflexive(a.fileName);
    }
  }

  /** Tied items can stand in for each other on the left of the comparator. */
  lemma SameKeysBefore(a: FileItem, b: FileItem, c: FileItem)
    requires SameKeys(a, b)
    ensures Before(a, c) <==> Before(b, c)
    ensures Before(c, a) <==> Before(c, b)
  {
  }

  /** Incomparability is transitive, so the comparator is a strict weak
      order as std::sort requires: if b does not precede a and c does not
      precede b, c does not precede a. */
  lemma BeforeNegTransitive(a: FileItem, b: FileItem, c: FileItem)
    requires !Before(b, a) && !Before(c, b)
    ensures !Before(c, a)
  {
    if Before(c, a) {
      BeforeTotal(a, b);
      if SameKeys(a, b) {
        SameKeysBefore(a, b, c);
      } else {
        BeforeTransitive(c, a, b);
      }
    }
  }

  /** Ascending under the comparator: no row comes before an earlier one. */
  predicate Sorted(s: seq<FileItem>) {
    forall i, j :: 0 <= i < j < |s| ==> !Before(s[j], s[i])
  }

  /** `x` inserted into a sorted sequence in front of the first item that
      does not come before it. */
  function Insert(x: FileItem, s: seq<FileItem>): (r: seq<FileItem>)
    ensures |r| == |s| + 1
    ensures multiset(r) == multiset(s) + multiset{x}
    decreases |s|
  {
    if s == [] then [x]
    else if Before(s[0], x) then
      assert s == [s[0]] + s[1..];
      [s[0]] + Insert(x, s[1..])
    else [x] + s
  }

  lemma {:induction false} InsertSorted(x: FileItem, s: seq<FileItem>)
    requires Sorted(s)
    ensures Sorted(Insert(x, s))
    decreases |s|
  {
    if s == [] {
    } else if Before(s[0], x) {
      InsertSorted(x, s[1..]);
      InsertBehind(x, s);
    } else {
      InsertInFront(x, s);
    }
  }

  /** The step where `x` goes behind the head: the head stays first. */
  lemma InsertBehind(x: FileItem, s: seq<FileItem>)
    requires Sorted(s) && s != [] && Before(s[0], x)
    requires Sorted(Insert(x, s[1..]))
    ensures Sorted(Insert(x, s))
  {
    var t := Insert(x, s[1..]);
    forall j | 0 <= j < |t|
      ensures !Before(t[j], s[0])
    {
      assert t[j] in multiset(t);
      HeadNotAfter(x, s, t[j]);
    }
    ConsSorted(s[0], t);
    assert Insert(x, s) == [s[0]] + t;
  }

  /** A head that nothing in a sorted tail comes before keeps the whole sorted. */
  lemma ConsSorted(h: FileItem, t: seq<FileItem>)
    requires Sorted(t)
    requires forall j :: 0 <= j < |t| ==> !Before(t[j], h)
    ensures Sorted([h] + t)
  {
    var r := [h] + t;
    forall i, j | 0 <= i < j < |r|
      ensures !Before(r[j], r[i])
    {
      assert r[j] == t[j - 1];
      if i > 0 {
        assert r[i] == t[i - 1];
        SortedAt(t, i - 1, j - 1);
      }
    }
  }

  /** Nothing of what goes behind the head comes before it. */
  lemma HeadNotAfter(x: FileItem, s: seq<FileItem>, y: FileItem)
    requires Sorted(s) && s != [] && Before(s[0], x)
    requires y in multiset(s[1..]) + multiset{x}
    ensures !Before(y, s[0])
  {
    if y == x {
      BeforeAsymmetric(s[0], x);
    } else {
      assert y in s[1..];
      var k :| 0 <= k < |s[1..]| && s[1..][k] == y;
      assert s[k + 1] == y;
    }
  }

  /** The step where `x` goes in front. */
  lemma InsertInFront(x: FileItem, s: seq<FileItem>)
    requires Sorted(s) && s != [] && !Before(s[0], x)
    ensures Sorted(Insert(x, s))
  {
    var r := [x] + s;
    assert Insert(x, s) == r;
    forall i, j | 0 <= i < j < |r|
      ensures !Before(r[j], r[i])
    {
      assert r[j] == s[j - 1];
      if i == 0 {
        if j > 1 {
          SortedAt(s, 0, j - 1);
          BeforeNegTransitive(x, s[0], s[j - 1]);
        }
      } else {
        assert r[i] == s[i - 1];
        SortedAt(s, i - 1, j - 1);
      }
    }
  }

  lemma SortedAt(s: seq<FileItem>, i: int, j: int)
    requires Sorted(s) && 0 <= i < j < |s|
    ensures !Before(s[j], s[i])
  {
  }

  /** std::sort with the comparator, as an insertion sort: a sorted
      permutation of its input. */
  function SortItems(s: seq<FileItem>): (r: seq<FileItem>)
    ensures |r| == |s|
    ensures multiset(r) == multiset(s)
    decreases |s|
  {
    if s == [] then []
    else
      assert s == [s[0]] + s[1..];
      Insert(s[0], SortItems(s[1..]))
  }

  lemma {:induction false} SortItemsSorted(s: seq<FileItem>)
    ensures Sorted(SortItems(s))
    decreases |s|
  {
    if s != [] {
      SortItemsSorted(s[1..]);
      InsertSorted(s[0], SortItems(s[1..]));
    }
  }

  /** In a sorted list every directory row comes before every file row, and
      between two directories or two files the earlier row is modified no
      earlier, and if at the same time, created no earlier. */
  lemma SortedMeaning(s: seq<FileItem>, i: int, j: int)
    requires Sorted(s) && 0 <= i < j < |s|
    ensures s[j].kind == Directory ==> s[i].kind == Directory
    ensures (s[i].kind == Directory <==> s[j].kind == Directory) ==> !Earlier(s[i].modified, s[j].modified)
    ensures (s[i].kind == Directory <==> s[j].kind == Directory) && SameTime(s[i].modified, s[j].modified)
      ==> !Earlier(s[i].created, s[j].created)
  {
    assert !Before(s[j], s[i]);
  }

  // ---------- building the rows ----------

  /** One entry of the directory listing, with what loadDirectory looks up
      for it: the icon the icon provider gives, the tags the store holds for
      the path (None when it has none) and the tags of the `.ts/<name>.json`
      sidecar (None when that file does not exist). */
  datatype DirEntry = DirEntry(
    info: FileInfo,
    icon: Icon,
    storeTags: Option<seq<string>>,
    sidecarTags: Option<seq<string>>)

  /** bestEffortCreatedTime: the birth time when valid, else the metadata
      change time when valid, else the modification time. */
  function BestEffortCreatedTime(fi: FileInfo): (t: DateTime)
    ensures fi.birthTime.ValidDateTime? ==> t == fi.birthTime
    ensures fi.birthTime.InvalidDateTime? && fi.metadataChangeTime.ValidDateTime? ==> t == fi.metadataChangeTime
    ensures fi.birthTime.InvalidDateTime? && fi.metadataChangeTime.InvalidDateTime? ==> t == fi.lastModified
  {
    if fi.birthTime.ValidDateTime? then fi.birthTime
    else if fi.metadataChangeTime.ValidDateTime? then fi.metadataChangeTime
    else fi.lastModified
  }

  /** The tags of a file row: looked up only when a store is set; the
      store's tags first, else the sidecar's, else none. */
  function FileTags(e: DirEntry, hasStore: bool): (tags: seq<string>)
    ensures !hasStore ==> tags == []
    ensures hasStore && e.storeTags.Some? ==> tags == e.storeTags.value
    ensures hasStore && e.storeTags.None? && e.sidecarTags.Some? ==> tags == e.sidecarTags.value
    ensures hasStore && e.storeTags.None? && e.sidecarTags.None? ==> tags == []
  {
    if !hasStore then []
    else if e.storeTags.Some? then e.storeTags.value
    else if e.sidecarTags.Some? then e.sidecarTags.value
    else []
  }

  /** The FileItem loadDirectory builds for one listing entry. */
  function MakeItem(e: DirEntry, hasStore: bool): (it: FileItem)
    ensures it.absolutePath == e.info.absoluteFilePath
    ensures it.fileName == FileNameOf(e.info.absoluteFilePath)
    ensures it.kind == ClassifyFileKind(e.info)
    ensures it.modified == e.info.lastModified && it.created == BestEffortCreatedTime(e.info)
    ensures it.icon == e.icon && it.thumbIcon == NullIcon
    ensures it.kind == Directory ==> it.sizeBytes == 0 && it.thumbStatus == Unavailable && it.tags == []
    ensures it.kind != Directory ==> it.sizeBytes == e.info.size && it.thumbStatus == Loading
    ensures it.kind != Directory ==> it.tags == FileTags(e, hasStore)
  {
    var kind := ClassifyFileKind(e.info);
    var isDir := kind == Directory;
    FileItem(
      e.info.absoluteFilePath,
      FileNameOf(e.info.absoluteFilePath),
      e.icon,
      NullIcon,
      if isDir then Unavailable else Loading,
      kind,
      e.info.lastModified,
      BestEffortCreatedTime(e.info),
      if isDir then 0 else e.info.size,
      if isDir then [] else FileTags(e, hasStore))
  }

  /** The rows in listing order, before sorting. */
  function MakeItems(entries: seq<DirEntry>, hasStore: bool): (r: seq<FileItem>)
    ensures |r| == |entries|
    ensures forall i :: 0 <= i < |r| ==> r[i] == MakeItem(entries[i], hasStore)
  {
    seq(|entries|, i requires 0 <= i < |entries| => MakeItem(entries[i], hasStore))
  }

  /** The rows of one more entry: those of the entries before it, then its own. */
  lemma MakeItemsSnoc(entries: seq<DirEntry>, k: int, hasStore: bool)
    requires 0 <= k < |entries|
    ensures MakeItems(entries[..k + 1], hasStore) == MakeItems(entries[..k], hasStore) + [MakeItem(entries[k], hasStore)]
  {
    var a := MakeItems(entries[..k + 1], hasStore);
    var b := MakeItems(entries[..k], hasStore) + [MakeItem(entries[k], hasStore)];
    assert |a| == |b|;
    forall i | 0 <= i < |a|
      ensures a[i] == b[i]
    {
      assert entries[..k + 1][i] == entries[i];
      if i < k {
        assert entries[..k][i] == entries[i];
      }
    }
  }

  // ---------- the path-to-row index ----------

  /** m_rowByPath as the loop after the sort leaves it: each row's path
      inserted in row order, so a later row overwrites an earlier one. */
  function RowIndex(s: seq<FileItem>): map<string, int>
    decreases |s|
  {
    if s == [] then map[]
    else RowIndex(s[..|s| - 1])[s[|s| - 1].absolutePath := |s| - 1]
  }

  /** The index holds exactly the paths of the rows, each mapped to the last
      row with that path. */
  lemma {:induction false} RowIndexMeaning(s: seq<FileItem>, p: string)
    ensures p in RowIndex(s) <==> exists i :: 0 <= i < |s| && s[i].absolutePath == p
    ensures p in RowIndex(s) ==> 0 <= RowIndex(s)[p] < |s| && s[RowIndex(s)[p]].absolutePath == p
    ensures p in RowIndex(s) ==> forall j :: RowIndex(s)[p] < j < |s| ==> s[j].absolutePath != p
    decreases |s|
  {
    if s != [] {
      var u := s[..|s| - 1];
      RowIndexMeaning(u, p);
      if p != s[|s| - 1].absolutePath && p in RowIndex(u) {
        assert forall j :: RowIndex(u)[p] < j < |u| ==> u[j] == s[j];
      }
      if exists i :: 0 <= i < |s| && s[i].absolutePath == p {
        var i :| 0 <= i < |s| && s[i].absolutePath == p;
        if i < |u| {
          assert u[i] == s[i];
        }
      }
    }
  }

  /** No two rows share a path. */
  predicate DistinctPaths(s: seq<FileItem>) {
    forall i, j :: 0 <= i < j < |s| ==> s[i].absolutePath != s[j].absolutePath
  }

  /** With distinct paths, the index maps every row's path to that row. */
  lemma RowIndexOfRow(s: seq<FileItem>, i: int)
    requires DistinctPaths(s) && 0 <= i < |s|
    ensures s[i].absolutePath in RowIndex(s) && RowIndex(s)[s[i].absolutePath] == i
  {
    RowIndexMeaning(s, s[i].absolutePath);
  }

  /** The index depends on the paths only. */
  lemma {:induction false} RowIndexSamePaths(s: seq<FileItem>, t: seq<FileItem>)
    requires |s| == |t|
    requires forall i :: 0 <= i < |s| ==> s[i].absolutePath == t[i].absolutePath
    ensures RowIndex(s) == RowIndex(t)
    decreases |s|
  {
    if s != [] {
      RowIndexSamePaths(s[..|s| - 1], t[..|t| - 1]);
    }
  }

  /** Sorting keeps the paths: distinct paths stay distinct. */
  lemma PermutationKeepsDistinctPaths(s: seq<FileItem>, t: seq<FileItem>)
    requires multiset(s) == multiset(t) && DistinctPaths(s)
    ensures DistinctPaths(t)
  {
    forall i, j | 0 <= i < j < |t|
      ensures t[i].absolutePath != t[j].absolutePath
    {
      if t[i].absolutePath == t[j].absolutePath {
        assert t[i] in multiset(s) && t[j] in multiset(s);
        var a :| 0 <= a < |s| && s[a] == t[i];
        var b :| 0 <= b < |s| && s[b] == t[j];
        if a == b {
          assert t[i] == t[j];
          CountTwice(t, i, j);
          assert multiset(s)[t[i]] >= 2;
          CountOnce(s, a);
        }
      }
    }
  }

  /** An element at two positions occurs at least twice. */
  lemma CountTwice(t: seq<FileItem>, i: int, j: int)
    requires 0 <= i < j < |t| && t[i] == t[j]
    ensures multiset(t)[t[i]] >= 2
  {
    assert t == t[..i] + [t[i]] + t[i + 1..j] + [t[j]] + t[j + 1..];
  }

  /** With distinct paths, every row occurs once. */
  lemma CountOnce(s: seq<FileItem>, a: int)
    requires DistinctPaths(s) && 0 <= a < |s|
    ensures multiset(s)[s[a]] == 1
  {
    assert s == s[..a] + [s[a]] + s[a + 1..];
    assert s[a] !in s[..a];
    assert s[a] !in s[a + 1..];
  }

  /** A file row, as neighborFile looks for. */
  predicate IsFileAt(s: seq<FileItem>, m: int) {
    0 <= m < |s| && s[m].kind != Directory
  }

  class ThumbnailModel {
    /** m_items, the rows in display order. */
    var items: seq<FileItem>
    /** m_rowByPath. */
    var rowByPath: map<string, int>
    /** m_token, increased on every listing and every clear. */
    var token: int
    /** m_dir, the directory shown. */
    var dir: string
    /** Whether a tag store is set (m_store is not null). */
    var hasStore: bool

    /** The index agrees with the rows. */
    ghost predicate Valid()
      reads this
    {
      rowByPath == RowIndex(items)
    }

    constructor()
      ensures items == [] && rowByPath == map[] && token == 0 && dir == [] && !hasStore
      ensures Valid()
    {
      items, rowByPath, token, dir, hasStore := [], map[], 0, [], false;
    }

    method SetStore(store: bool)
      modifies this`hasStore
      ensures hasStore == store
    {
      hasStore := store;
    }

    /** rowCount for the (invalid) top-level parent. */
    function RowCount(): nat
      reads this
    {
      |items|
    }

    /** itemAt: the row, or the default item when out of range. */
    function ItemAt(row: int): (it: FileItem)
      reads this
      ensures 0 <= row < RowCount() ==> it == items[row]
      ensures !(0 <= row < RowCount()) ==> it == DefaultItem
    {
      if row < 0 || row >= |items| then DefaultItem else items[row]
    }

    /** `m_rowByPath.value(path, -1)`. */
    function RowOf(path: string): (r: int)
      reads this
      ensures path in rowByPath ==> r == rowByPath[path]
      ensures path !in rowByPath ==> r == -1
    {
      if path in rowByPath then rowByPath[path] else -1
    }

    /** setDirectory: the empty path clears the model and starts a new
        token; the directory already shown is not listed again; any other
        directory is listed from `entries`. */
    method SetDirectory(dirPath: string, entries: seq<DirEntry>)
      modifies this
      ensures hasStore == old(hasStore)
      ensures dirPath == [] ==>
        items == [] && rowByPath == map[] && dir == [] && token == old(token) + 1
      ensures dirPath != [] && dirPath == old(dir) ==>
        items == old(items) && rowByPath == old(rowByPath) && dir == old(dir) && token == old(token)
      ensures dirPath != [] && dirPath != old(dir) ==>
        dir == dirPath && token == old(token) + 1
        && Sorted(items) && multiset(items) == multiset(MakeItems(entries, hasStore))
      ensures old(Valid()) ==> Valid()
      ensures dirPath != old(dir) ==> Valid()
    {
      if dirPath == [] {
        items := [];
        rowByPath := map[];
        dir := [];
        token := token + 1;
        return;
      }
      if dir == dirPath {
        return;
      }
      LoadDirectory(dirPath, entries);
    }

    /** loadDirectory: a new token, one row per listing entry, sorted with
        the comparator, then the index rebuilt from the sorted rows. */
    method LoadDirectory(dirPath: string, entries: seq<DirEntry>)
      modifies this
      ensures hasStore == old(hasStore)
      ensures dir == dirPath && token == old(token) + 1
      ensures Sorted(items) && multiset(items) == multiset(MakeItems(entries, hasStore))
      ensures Valid()
    {
      items := [];
      rowByPath := map[];
      dir := dirPath;
      token := token + 1;
      items := BuildItems(entries, hasStore);
      SortItemsSorted(items);
      items := SortItems(items);
      RebuildRowIndex();
    }

    /** The listing loop of loadDirectory: one row per entry, in listing order. */
    static method BuildItems(entries: seq<DirEntry>, hasStore: bool) returns (r: seq<FileItem>)
      ensures r == MakeItems(entries, hasStore)
    {
      r := [];
      var k := 0;
      while k < |entries|
        invariant 0 <= k <= |entries|
        invariant r == MakeItems(entries[..k], hasStore)
      {
        MakeItemsSnoc(entries, k, hasStore);
        r := r + [MakeItem(entries[k], hasStore)];
        k := k + 1;
      }
      assert entries[..k] == entries;
    }

    /** The loop after the sort that inserts every row's path with its row. */
    method RebuildRowIndex()
      requires rowByPath == map[]
      modifies this`rowByPath
      ensures Valid()
    {
      var i := 0;
      while i < |items|
        invariant 0 <= i <= |items|
        invariant rowByPath == RowIndex(items[..i])
      {
        assert items[..i + 1][..i] == items[..i];
        rowByPath := rowByPath[items[i].absolutePath := i];
        i := i + 1;
      }
      assert items[..i] == items;
    }

    /** Whether a result for `path` with token `tok` reaches a row: the token
        is current, the path is indexed and its row is in range. */
    predicate Accepts(path: string, tok: int)
      reads this
    {
      tok == token && path in rowByPath && 0 <= rowByPath[path] < |items|
    }

    /** The `ready` handler: a current result stores the thumbnail on its
        row and marks it Ready; nothing else changes. */
    method OnReady(path: string, pix: nat, tok: int)
      modifies this`items
      ensures !old(Accepts(path, tok)) ==> items == old(items)
      ensures old(Accepts(path, tok)) ==>
        var row := rowByPath[path];
        items == old(items)[row := old(items)[row].(thumbIcon := PixmapIcon(pix), thumbStatus := Ready)]
      ensures old(Valid()) ==> Valid()
    {
      if tok != token { return; }
      if path !in rowByPath { return; }
      var row := rowByPath[path];
      if row < 0 || row >= |items| { return; }
      var before := items;
      items := items[row := items[row].(thumbIcon := PixmapIcon(pix), thumbStatus := Ready)];
      RowIndexSamePaths(before, items);
    }

    /** The `unavailable` handler: a current result marks its row Unavailable;
        nothing else changes. */
    method OnUnavailable(path: string, tok: int)
      modifies this`items
      ensures !old(Accepts(path, tok)) ==> items == old(items)
      ensures old(Accepts(path, tok)) ==>
        var row := rowByPath[path];
        items == old(items)[row := old(items)[row].(thumbStatus := Unavailable)]
      ensures old(Valid()) ==> Valid()
    {
      if tok != token { return; }
      if path !in rowByPath { return; }
      var row := rowByPath[path];
      if row < 0 || row >= |items| { return; }
      var before := items;
      items := items[row := items[row].(thumbStatus := Unavailable)];
      RowIndexSamePaths(before, items);
    }

    /** neighborFile: the nearest file row strictly after the row of
        `currentPath` (direction >= 0) or strictly before it (direction < 0),
        stepping over directories; None for an empty path, an empty list, an
        unindexed path, or when there is no such row. */
    method NeighborFile(currentPath: string, direction: int) returns (r: Option<int>)
      ensures r.Some? ==> currentPath != [] && RowOf(currentPath) >= 0 && IsFileAt(items, r.value)
      ensures r.Some? && direction >= 0 ==>
        RowOf(currentPath) < r.value && forall m :: RowOf(currentPath) < m < r.value ==> !IsFileAt(items, m)
      ensures r.Some? && direction < 0 ==>
        r.value < RowOf(currentPath) && forall m :: r.value < m < RowOf(currentPath) ==> !IsFileAt(items, m)
      ensures r.None? <==>
        currentPath == [] || items == [] || RowOf(currentPath) < 0
        || (direction >= 0 && forall m :: RowOf(currentPath) < m ==> !IsFileAt(items, m))
        || (direction < 0 && (RowOf(currentPath) > |items|
                              || forall m :: m < RowOf(currentPath) ==> !IsFileAt(items, m)))
    {
      if currentPath == [] || items == [] {
        return None;
      }
      var row := RowOf(currentPath);
      if row < 0 {
        return None;
      }
      var step := if direction >= 0 then 1 else -1;
      var i := row + step;
      while 0 <= i < |items|
        invariant direction >= 0 ==> row < i && forall m :: row < m < i ==> !IsFileAt(items, m)
        invariant direction < 0 ==> i < row && forall m :: i < m < row ==> !IsFileAt(items, m)
        invariant direction < 0 && row <= |items| ==> i < |items|
        invariant direction < 0 && row > |items| ==> i == row - 1
        decreases if direction >= 0 then |items| - i else i
      {
        if items[i].kind == Directory {
          i := i + step;
          continue;
        }
        assert IsFileAt(items, i);
        return Some(i);
      }
      if direction >= 0 {
        assert forall m :: i <= m ==> !IsFileAt(items, m);
      } else if row <= |items| {
        assert forall m :: m <= i ==> !IsFileAt(items, m);
      }
      return None;
    }
  }

  /** With the index valid, an indexed path names a row in range, so the
      `row > |items|` case of neighborFile does not arise. */
  lemma IndexedRowInRange(m: ThumbnailModel, path: string)
    requires m.Valid() && path in m.rowByPath
    ensures 0 <= m.rowByPath[path] < |m.items| && m.items[m.rowByPath[path]].absolutePath == path
  {
    RowIndexMeaning(m.items, path);
  }

  /** After a load from a listing with distinct paths, every row's path is
      indexed to that row. */
  lemma LoadedIndexFindsRows(m: ThumbnailModel, entries: seq<DirEntry>, i: int)
    requires m.Valid() && multiset(m.items) == multiset(MakeItems(entries, m.hasStore))
    requires DistinctPaths(MakeItems(entries, m.hasStore))
    requires 0 <= i < |m.items|
    ensures m.items[i].absolutePath in m.rowByPath && m.rowByPath[m.items[i].absolutePath] == i
  {
    PermutationKeepsDistinctPaths(MakeItems(entries, m.hasStore), m.items);
    RowIndexOfRow(m.items, i);
  }
}
