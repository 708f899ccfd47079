/** The tag editor of the details tab (FileDetailsTab in filedetailstab.cpp):
    tags are shown joined by ", ", the edited text is normalised back into a
    tag list, and the list is saved to the tag store by path and, once the
    file's hash is known, by hash. */
module TagEditing {
  import opened QtText

  // ---------- removeDuplicates ----------

  /** QStringList::removeDuplicates: each string kept at its first
      occurrence, in order. */
  function RemoveDuplicates(s: seq<string>): (r: seq<string>)
    ensures |r| <= |s|
    ensures forall x :: x in r <==> x in s
    decreases |s|
  {
    if s == [] then []
    else
      var p := s[..|s| - 1];
      var x := s[|s| - 1];
      assert forall y :: y in s <==> y in p || y == x;
      RemoveDuplicates(p) + (if x in p then [] else [x])
  }

  /** No string occurs twice. */
  predicate Distinct(s: seq<string>) {
    forall i, j :: 0 <= i < j < |s| ==> s[i] != s[j]
  }

  lemma {:induction false} RemoveDuplicatesDistinct(s: seq<string>)
    ensures Distinct(RemoveDuplicates(s))
    decreases |s|
  {
    if s != [] {
      var p := s[..|s| - 1];
      RemoveDuplicatesDistinct(p);
    }
  }

  /** A list without duplicates is left as it is. */
  lemma {:induction false} RemoveDuplicatesOfDistinct(s: seq<string>)
    requires Distinct(s)
    ensures RemoveDuplicates(s) == s
    decreases |s|
  {
    if s != [] {
      var p := s[..|s| - 1];
      assert Distinct(p);
      RemoveDuplicatesOfDistinct(p);
      assert s[|s| - 1] !in p;
      assert p + [s[|s| - 1]] == s;
    }
  }

  /** The first occurrences stay in input order: a string that occurs before
      another's first occurrence is kept before it. */
  lemma {:induction false} RemoveDuplicatesKeepsOrder(s: seq<string>, i: int, j: int)
    requires 0 <= i < j < |s| && s[j] !in s[..j]
    ensures exists a, b :: (0 <= a < b < |RemoveDuplicates(s)|
                            && RemoveDuplicates(s)[a] == s[i] && RemoveDuplicates(s)[b] == s[j])
    decreases |s|
  {
    var p := s[..|s| - 1];
    var rp := RemoveDuplicates(p);
    var r := RemoveDuplicates(s);
    assert r == rp + (if s[|s| - 1] in p then [] else [s[|s| - 1]]);
    if j < |s| - 1 {
      assert p[i] == s[i] && p[j] == s[j] && p[..j] == s[..j];
      RemoveDuplicatesKeepsOrder(p, i, j);
      var a, b :| 0 <= a < b < |rp| && rp[a] == s[i] && rp[b] == s[j];
      assert r[a] == rp[a] && r[b] == rp[b];
    } else {
      assert p == s[..j];
      assert s[i] in p;
      var a :| 0 <= a < |rp| && rp[a] == s[i];
      assert r[a] == s[i] && r[|rp|] == s[j];
    }
  }

  // ---------- normalize ----------

  /** The trimmed parts that are not empty, in order. */
  function TrimmedParts(parts: seq<string>): (r: seq<string>)
    ensures forall k :: 0 <= k < |r| ==> r[k] != [] && IsTrimmed(r[k])
    decreases |parts|
  {
    if parts == [] then []
    else
      var t := Trim(parts[|parts| - 1]);
      TrimmedParts(parts[..|parts| - 1]) + (if t == [] then [] else [t])
  }

  /** The normalize lambda: split at commas dropping empty parts, trim each
      part, drop the parts that trim to nothing, then remove duplicates. */
  function NormalizeTags(text: string): seq<string> {
    RemoveDuplicates(TrimmedParts(SplitSkipEmpty(text, ',')))
  }

  /** A tag list as normalize produces it: every tag non-empty, trimmed and
      comma-free, and no duplicates. */
  predicate WellFormedTags(tags: seq<string>) {
    (forall k :: 0 <= k < |tags| ==> tags[k] != [] && IsTrimmed(tags[k]) && ',' !in tags[k])
    && Distinct(tags)
  }

  /** Trimming takes characters off the ends only. */
  lemma TrimKeepsAbsent(s: string, c: char)
    requires c !in s
    ensures c !in Trim(s)
  {
    TrimStartShape(s);
    TrimEndShape(TrimStart(s));
  }

  lemma {:induction false} TrimmedPartsCommaFree(parts: seq<string>)
    requires forall k :: 0 <= k < |parts| ==> ',' !in parts[k]
    ensures forall k :: 0 <= k < |TrimmedParts(parts)| ==> ',' !in TrimmedParts(parts)[k]
    decreases |parts|
  {
    if parts != [] {
      TrimmedPartsCommaFree(parts[..|parts| - 1]);
      TrimKeepsAbsent(parts[|parts| - 1], ',');
    }
  }

  /** Whatever the text, the tags are non-empty, trimmed, comma-free and
      distinct. */
  lemma NormalizeWellFormed(text: string)
    ensures WellFormedTags(NormalizeTags(text))
  {
    var parts := SplitSkipEmpty(text, ',');
    var ts := TrimmedParts(parts);
    TrimmedPartsCommaFree(parts);
    RemoveDuplicatesDistinct(ts);
    var r := NormalizeTags(text);
    forall k | 0 <= k < |r|
      ensures r[k] != [] && IsTrimmed(r[k]) && ',' !in r[k]
    {
      assert r[k] in ts;
    }
  }

  /** The normalize lambda as written: a loop over the parts, then
      removeDuplicates. */
  method Normalize(text: string) returns (out: seq<string>)
    ensures out == NormalizeTags(text)
  {
    var parts := SplitSkipEmpty(text, ',');
    out := [];
    var k := 0;
    while k < |parts|
      invariant 0 <= k <= |parts|
      invariant out == TrimmedParts(parts[..k])
    {
      assert parts[..k + 1][..k] == parts[..k];
      var t := Trim(parts[k]);
      if t != [] {
        out := out + [t];
      }
      k := k + 1;
    }
    assert parts[..k] == parts;
    out := RemoveDuplicates(out);
  }

  // ---------- the round trip through the text box ----------

  /** The text the tag box is filled with: the tags joined by ", ". */
  function DisplayText(tags: seq<string>): string {
    Join(tags, ", ")
  }

  /** The parts a joined list splits into at commas: the first tag, then each
      further tag behind the space of its separator. */
  function JoinedParts(tags: seq<string>): (r: seq<string>)
    requires tags != []
    ensures |r| == |tags| && r[0] == tags[0]
    ensures forall i :: 0 < i < |r| ==> r[i] == [' '] + tags[i]
  {
    seq(|tags|, i requires 0 <= i < |tags| => if i == 0 then tags[0] else [' '] + tags[i])
  }

  lemma {:induction false} SplitJoin(tags: seq<string>, sep: string)
    requires tags != [] && sep == [',', ' ']
    requires forall k :: 0 <= k < |tags| ==> ',' !in tags[k]
    ensures Split(Join(tags, sep), ',') == JoinedParts(tags)
    decreases |tags|
  {
    if |tags| == 1 {
      SplitNoSep(tags[0], ',');
    } else {
      var rest := tags[1..];
      var j := Join(rest, sep);
      SplitJoin(rest, sep);
      assert Join(tags, sep) == tags[0] + ([','] + ([' '] + j));
      SplitPrefix(tags[0], [','] + ([' '] + j), ',');
      SplitAfterSeparator(j);
      var parts := Split(Join(tags, sep), ',');
      var jp := JoinedParts(tags);
      assert Split(j, ',') == JoinedParts(rest);
      assert |parts| == |jp|;
      forall i | 0 <= i < |parts|
        ensures parts[i] == jp[i]
      {
        if i == 0 {
          assert tags[0] + [] == tags[0];
        }
      }
    }
  }

  /** Behind ", " the split starts with an empty part, then the next part
      carries the space. */
  lemma SplitAfterSeparator(j: string)
    ensures Split([','] + ([' '] + j), ',') == [""] + ([[' '] + Split(j, ',')[0]] + Split(j, ',')[1..])
  {
    assert ([','] + ([' '] + j))[1..] == [' '] + j;
    SplitPrefix([' '], j, ',');
  }

  /** Parts that are all non-empty survive SkipEmptyParts unchanged. */
  lemma {:induction false} NonEmptyPartsOfNonEmpty(parts: seq<string>)
    requires forall k :: 0 <= k < |parts| ==> parts[k] != []
    ensures NonEmptyParts(parts) == parts
    decreases |parts|
  {
    if parts != [] {
      NonEmptyPartsOfNonEmpty(parts[1..]);
      assert [parts[0]] + parts[1..] == parts;
    }
  }

  /** Parts that trim to the tags, none to nothing, give exactly the tags. */
  lemma {:induction false} TrimmedPartsOfPadded(parts: seq<string>, tags: seq<string>)
    requires |parts| == |tags|
    requires forall k :: 0 <= k < |parts| ==> Trim(parts[k]) == tags[k] && tags[k] != []
    ensures TrimmedParts(parts) == tags
    decreases |parts|
  {
    if parts != [] {
      TrimmedPartsOfPadded(parts[..|parts| - 1], tags[..|tags| - 1]);
      assert tags[..|tags| - 1] + [tags[|tags| - 1]] == tags;
    }
  }

  /** A space in front of a trimmed tag trims away. */
  lemma TrimSpaced(t: string)
    requires IsTrimmed(t)
    ensures Trim([' '] + t) == t
  {
    assert AllSpace([' ']) && AllSpace([]);
    TrimPadded([' '], t, []);
    assert [' '] + t + [] == [' '] + t;
  }

  /** Showing a well-formed tag list and normalising the text it shows gives
      the list back. */
  lemma NormalizeDisplayRoundTrip(tags: seq<string>)
    requires WellFormedTags(tags)
    ensures NormalizeTags(DisplayText(tags)) == tags
  {
    if tags == [] {
      assert Split(DisplayText(tags), ',') == [""];
    } else {
      var parts := JoinedParts(tags);
      SplitJoin(tags, ", ");
      NonEmptyPartsOfNonEmpty(parts);
      forall k | 0 <= k < |parts|
        ensures Trim(parts[k]) == tags[k]
      {
        if k > 0 {
          TrimSpaced(tags[k]);
        }
      }
      TrimmedPartsOfPadded(parts, tags);
      RemoveDuplicatesOfDistinct(tags);
    }
  }

  /** Normalising twice changes nothing more. */
  lemma NormalizeIdempotent(text: string)
    ensures NormalizeTags(DisplayText(NormalizeTags(text))) == NormalizeTags(text)
  {
    NormalizeWellFormed(text);
    NormalizeDisplayRoundTrip(NormalizeTags(text));
  }

  // ---------- saving ----------

  /** A write the tab asks the tag store for. */
  datatype StoreWrite =
    | ByPath(path: string, tags: seq<string>)     // upsertTagsByPath
    | ByHash(hash: string, tags: seq<string>)     // upsertTagsByHash

  /** The saving part of the tab: whether a store and a hasher are set, the
      path of the file shown, the last saved tags, and what was sent to the
      store and to the hasher. */
  class FileDetailsTab {
    var hasStore: bool
    var hasHasher: bool
    var itemPath: string
    var currentTags: seq<string>
    var writes: seq<StoreWrite>
    var hashRequests: seq<string>

    /** What was sent is what normalize produces, for this tab's file, and no
        hash write carries an empty list. */
    ghost predicate Valid()
      reads this
    {
      WellFormedTags(currentTags)
      && forall k :: 0 <= k < |writes| ==>
           WellFormedTags(writes[k].tags)
           && (writes[k].ByPath? ==> writes[k].path == itemPath)
           && (writes[k].ByHash? ==> writes[k].tags != [])
    }

    constructor(store: bool, hasher: bool, path: string)
      ensures hasStore == store && hasHasher == hasher && itemPath == path
      ensures currentTags == [] && writes == [] && hashRequests == []
      ensures Valid()
    {
      hasStore, hasHasher, itemPath := store, hasher, path;
      currentTags, writes, hashRequests := [], [], [];
    }

    /** The save timer's timeout: nothing without a store; otherwise the
        text is normalised into the current tags, written by path, and the
        file's hash requested when a hasher is set. */
    method SaveTimeout(text: string)
      requires Valid()
      modifies this
      ensures Valid()
      ensures hasStore == old(hasStore) && hasHasher == old(hasHasher) && itemPath == old(itemPath)
      ensures !hasStore ==> currentTags == old(currentTags) && writes == old(writes)
                            && hashRequests == old(hashRequests)
      ensures hasStore ==> currentTags == NormalizeTags(text)
                           && writes == old(writes) + [ByPath(itemPath, currentTags)]
      ensures hasStore && hasHasher ==> hashRequests == old(hashRequests) + [itemPath]
      ensures hasStore && !hasHasher ==> hashRequests == old(hashRequests)
    {
      if !hasStore {
        return;
      }
      currentTags := Normalize(text);
      NormalizeWellFormed(text);
      writes := writes + [ByPath(itemPath, currentTags)];
      if hasHasher {
        hashRequests := hashRequests + [itemPath];
      }
    }

    /** hashReady: the handler exists only when a hasher is set; the current
        tags are written under the hash only with a store, for this tab's
        file, and when there are tags. */
    method HashReady(path: string, hash: string)
      requires Valid()
      modifies this`writes
      ensures Valid()
      ensures hasHasher && hasStore && path == itemPath && currentTags != [] ==>
        writes == old(writes) + [ByHash(hash, currentTags)]
      ensures !(hasHasher && hasStore && path == itemPath && currentTags != []) ==> writes == old(writes)
    {
      if !hasHasher {
        // without a hasher the handler is never connected
        return;
      }
      if !hasStore {
        return;
      }
      if path != itemPath {
        return;
      }
      if currentTags == [] {
        return;
      }
      writes := writes + [ByHash(hash, currentTags)];
    }
  }
}
