/** The file record every other component consumes (fileitem.h): the kind and
    thumbnail-status enums, the record with its defaults, and the
    classification of a directory entry. */
module FileItems {
  import opened QtText

  datatype ThumbStatus = NotRequested | Loading | Ready | Unavailable

  datatype FileKind = Directory | Picture | Video | GenericFile

  /** `static_cast<int>(kind)`: the enum's underlying value. */
  function KindOrdinal(k: FileKind): (n: int)
    ensures 0 <= n <= 3
    ensures n == 0 <==> k == Directory
    ensures n == 3 <==> k == GenericFile
  {
    match k
    case Directory => 0
    case Picture => 1
    case Video => 2
    case GenericFile => 3
  }

  /** `static_cast<FileKind>(n)` for the values the model itself stored. */
  function KindFromOrdinal(n: int): (k: FileKind)
    requires 0 <= n <= 3
    ensures KindOrdinal(k) == n
  {
    if n == 0 then Directory else if n == 1 then Picture else if n == 2 then Video else GenericFile
  }

  /** The int cast and back loses nothing, so a kind read through the
      FileKindRole data role is the kind that was stored. */
  lemma KindOrdinalRoundTrip(k: FileKind)
    ensures KindFromOrdinal(KindOrdinal(k)) == k
  {
  }

  /** QDateTime reduced to what is read from it: validity, the instant (for
      comparisons) and its calendar year. */
  datatype DateTime = InvalidDateTime | ValidDateTime(msecs: int, year: int)

  /** QDateTime equality: two invalid values are equal, valid ones compare instants. */
  predicate SameTime(a: DateTime, b: DateTime) {
    (a.InvalidDateTime? && b.InvalidDateTime?)
    || (a.ValidDateTime? && b.ValidDateTime? && a.msecs == b.msecs)
  }

  /** QDateTime operator<: an invalid value is earlier than every valid one. */
  predicate Earlier(a: DateTime, b: DateTime) {
    (a.InvalidDateTime? && b.ValidDateTime?)
    || (a.ValidDateTime? && b.ValidDateTime? && a.msecs < b.msecs)
  }

  /** Stand-in for a QIcon: none, or one built from a decoded pixmap. */
  datatype Icon = NullIcon | PixmapIcon(pixmap: nat)

  datatype FileItem = FileItem(
    absolutePath: string,
    fileName: string,
    icon: Icon,
    thumbIcon: Icon,
    thumbStatus: ThumbStatus,
    kind: FileKind,
    modified: DateTime,
    created: DateTime,
    sizeBytes: int,
    tags: seq<string>)

  /** `FileItem{}`. */
  const DefaultItem: FileItem :=
    FileItem("", "", NullIcon, NullIcon, NotRequested, GenericFile,
             InvalidDateTime, InvalidDateTime, 0, [])

  lemma DefaultItemFields()
    ensures DefaultItem.kind == GenericFile && DefaultItem.thumbStatus == NotRequested
    ensures DefaultItem.sizeBytes == 0 && DefaultItem.tags == []
    ensures DefaultItem.modified == InvalidDateTime && DefaultItem.thumbIcon == NullIcon
  {
  }

  /** The part of `s` after the last `c`; all of `s` when it has no `c`. */
  function AfterLast(s: string, c: char): (r: string)
    ensures c !in r
    ensures |r| <= |s| && r == s[|s| - |r|..]
    ensures |r| < |s| ==> s[|s| - |r| - 1] == c
    decreases |s|
  {
    if s == [] then []
    else if s[|s| - 1] == c then []
    else AfterLast(s[..|s| - 1], c) + [s[|s| - 1]]
  }

  lemma {:induction false} AfterLastAppend(s: string, t: string, c: char)
    requires c !in t
    ensures AfterLast(s + t, c) == AfterLast(s, c) + t
    decreases |t|
  {
    if t != [] {
      var u := t[..|t| - 1];
      assert (s + t)[..|s + t| - 1] == s + u;
      AfterLastAppend(s, u, c);
      assert AfterLast(s, c) + u + [t[|t| - 1]] == AfterLast(s, c) + t;
    } else {
      assert s + t == s;
    }
  }

  lemma AfterLastAfterSep(s: string, t: string, c: char)
    requires c !in t
    ensures AfterLast(s + [c] + t, c) == t
  {
    AfterLastAppend(s + [c], t, c);
  }

  /** QFileInfo::fileName: the last path component. */
  function FileNameOf(path: string): (r: string)
    ensures '/' !in r
  {
    AfterLast(path, '/')
  }

  /** QFileInfo::suffix: what follows the last '.' of the file name, or "". */
  function Suffix(path: string): (r: string)
    ensures '.' !in r && '/' !in r
  {
    var name := FileNameOf(path);
    if '.' in name then AfterLast(name, '.') else ""
  }

  const VideoExts: set<string> :=
    {"mp4", "webm", "mov", "m4v", "mkv", "avi", "flv", "wmv", "mpg", "mpeg", "3gp"}

  /** The extension test of isVideoExt, on the suffix alone. */
  predicate IsVideoSuffix(ext: string) {
    Lower(ext) in VideoExts
  }

  /** isVideoExt: the lower-cased suffix is a known video extension. */
  predicate IsVideoExt(path: string) {
    IsVideoSuffix(Suffix(path))
  }

  /** The suffix of a path ending in ".ext" is `ext`. */
  lemma FileNameOfDotExt(base: string, ext: string)
    requires '/' !in ext
    ensures FileNameOf(base + "." + ext) == FileNameOf(base) + "." + ext
  {
    var tail := "." + ext;
    AppendAssoc(base, ".", ext);
    AfterLastAppend(base, tail, '/');
    AppendAssoc(FileNameOf(base), ".", ext);
  }

  lemma SuffixOfDotExt(base: string, ext: string)
    requires '.' !in ext && '/' !in ext
    ensures Suffix(base + "." + ext) == ext
  {
    FileNameOfDotExt(base, ext);
    var prefix := FileNameOf(base);
    var name := prefix + "." + ext;
    assert name == FileNameOf(base + "." + ext);
    assert name[|prefix|] == '.';
    assert '.' in name;
    AfterLastAfterSep(prefix, ext, '.');
    assert AfterLast(name, '.') == ext;
  }

  /** A path ending in ".ext" is a video path exactly when `ext`, lower-cased,
      is one of the eleven video extensions. */
  lemma IsVideoExtOfName(base: string, ext: string)
    requires '.' !in ext && '/' !in ext
    ensures IsVideoExt(base + "." + ext) <==> Lower(ext) in VideoExts
  {
    SuffixOfDotExt(base, ext);
  }

  /** A path without any '.' in its file name has no suffix and is no video. */
  lemma NoDotNoVideo(path: string)
    requires '.' !in FileNameOf(path)
    ensures !IsVideoExt(path)
  {
    EmptyIsNoVideoSuffix(Suffix(path));
  }

  lemma EmptyIsNoVideoSuffix(ext: string)
    requires ext == []
    ensures !IsVideoSuffix(ext)
  {
    assert |Lower(ext)| == 0;
  }

  /** What loadDirectory reads from a QFileInfo; `imageReadable` stands for
      QImageReader(path).canRead(). */
  datatype FileInfo = FileInfo(
    absoluteFilePath: string,
    isDir: bool,
    imageReadable: bool,
    lastModified: DateTime,
    birthTime: DateTime,
    metadataChangeTime: DateTime,
    size: int)

  /** classifyFileKind: Directory first, then Picture when an image reader
      accepts the file, then Video by extension, otherwise GenericFile. */
  function ClassifyFileKind(fi: FileInfo): (k: FileKind)
    ensures k == Directory <==> fi.isDir
    ensures k == Picture <==> !fi.isDir && fi.imageReadable
    ensures k == Video <==> !fi.isDir && !fi.imageReadable && IsVideoExt(fi.absoluteFilePath)
    ensures k == GenericFile <==> !fi.isDir && !fi.imageReadable && !IsVideoExt(fi.absoluteFilePath)
  {
    if fi.isDir then Directory
    else if fi.imageReadable then Picture
    else if IsVideoExt(fi.absoluteFilePath) then Video
    else GenericFile
  }

  /** The order of the checks matters: a readable image named like a video is
      a Picture, and a directory named like a video is a Directory. */
  lemma ReadableVideoIsPicture(fi: FileInfo)
    requires !fi.isDir && fi.imageReadable && IsVideoExt(fi.absoluteFilePath)
    ensures ClassifyFileKind(fi) == Picture
  {
  }
}
