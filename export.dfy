/**
 * `handleBatchDownload`: the completed items are selected, each result is
 * fetched, named from the item's id and the blob's content type, and added
 * to a zip archive; a single failed fetch means no archive at all.
 */
module Export {

  import opened Wrappers
  import opened Seqs
  import opened Text
  import opened Items

  /** A fetched result: its declared content type and its bytes. */
  datatype Blob = Blob(contentType: string, bytes: seq<bv8>)

  /** What `fetch(url)` followed by `.blob()` gives. */
  datatype Fetched = Fetched(blob: Blob) | FetchFailed

  /** One file of the archive. */
  datatype Entry = Entry(name: string, blob: Blob)

  datatype ExportResult =
    | NothingToExport       // no completed item: the handler returns at once
    | ExportFailed          // some fetch failed: the error is logged, no archive is generated
    | Archive(entries: seq<Entry>)

  /** `img.status === 'completed' && img.processedUrl` (an empty URL is falsy). */
  predicate Exportable(it: Item)
  {
    it.status == Completed && it.processedUrl.Some? && it.processedUrl.value != ""
  }

  /** `images.filter(...)` over `Exportable`. */
  function Selection(items: seq<Item>): seq<Item>
  {
    Filter(items, Exportable)
  }

  function ResultUrl(it: Item): string
  {
    match it.processedUrl
    case Some(u) => u
    case None => ""
  }

  const FallbackExtension: string := "png"

  /** `contentType.split('/')[1] || 'png'` */
  function Extension(contentType: string): (ext: string)
    ensures ext != "" && '/' !in ext
  {
    var parts := Split(contentType, '/');
    if |parts| > 1 && parts[1] != "" then parts[1] else FallbackExtension
  }

  /** A `type/subtype` content type gives its subtype. */
  lemma ExtensionOfMime(mediaType: string, subtype: string)
    requires '/' !in mediaType && '/' !in subtype && subtype != ""
    ensures Extension(mediaType + "/" + subtype) == subtype
  {
    var parts := [mediaType, subtype];
    assert Join(parts, '/') == mediaType + "/" + subtype by {
      assert parts[1..] == [subtype];
    }
    SplitJoin(parts, '/');
  }

  /** A content type without a slash, or ending in its only slash, gives "png". */
  lemma ExtensionFallback(contentType: string)
    requires '/' !in contentType || (exists a :: '/' !in a && contentType == a + "/")
    ensures Extension(contentType) == FallbackExtension
  {
    if '/' !in contentType {
      SplitJoin([contentType], '/');
    } else {
      var a :| '/' !in a && contentType == a + "/";
      var parts := [a, ""];
      assert Join(parts, '/') == contentType by {
        assert parts[1..] == [""];
        assert a + "/" + "" == contentType;
      }
      SplitJoin(parts, '/');
    }
  }

  /** Any content type with a slash, `a/b/...`, gives its second segment `b`, or "png" when that segment is empty. */
  lemma ExtensionSecondSegment(a: string, b: string, rest: seq<string>)
    requires '/' !in a && '/' !in b
    requires forall k :: 0 <= k < |rest| ==> '/' !in rest[k]
    ensures Extension(Join([a, b] + rest, '/')) == if b != "" then b else FallbackExtension
  {
    var parts := [a, b] + rest;
    forall k | 0 <= k < |parts|
      ensures '/' !in parts[k]
    {
      if k >= 2 {
        assert parts[k] == rest[k - 2];
      }
    }
    SplitJoin(parts, '/');
  }

  const EntryPrefix: string := "gemini-edit-"

  /** `` `gemini-edit-${id}.${ext}` `` */
  function EntryName(id: string, ext: string): string
  {
    EntryPrefix + id + "." + ext
  }

  /** A name determines its id and extension when ids contain no dot (`Math.random` base-36 ids do not). */
  lemma EntryNameInjective(id1: string, ext1: string, id2: string, ext2: string)
    requires '.' !in id1 && '.' !in id2
    requires EntryName(id1, ext1) == EntryName(id2, ext2)
    ensures id1 == id2 && ext1 == ext2
  {
    var s1, s2 := id1 + "." + ext1, id2 + "." + ext2;
    assert EntryName(id1, ext1) == EntryPrefix + s1;
    assert EntryName(id2, ext2) == EntryPrefix + s2;
    assert s1 == (EntryPrefix + s1)[|EntryPrefix|..];
    assert s2 == (EntryPrefix + s2)[|EntryPrefix|..];
    assert s1[|id1|] == '.' && s2[|id2|] == '.';
    assert id1 == s1[..|id1|] && id2 == s2[..|id2|];
    assert ext1 == s1[|id1| + 1..] && ext2 == s2[|id2| + 1..];
  }

  /** `zip.file(name, blob)`: an entry of the same name is replaced where it stands, a new name is appended. */
  function Put(files: seq<Entry>, e: Entry): (r: seq<Entry>)
    ensures e in r
    ensures (forall k :: 0 <= k < |files| ==> files[k].name != e.name) ==> r == files + [e]
  {
    if files == [] then [e]
    else if files[0].name == e.name then [e] + files[1..]
    else [files[0]] + Put(files[1..], e)
  }

  /** A name already present: its first entry is replaced where it stands, and every other entry is kept. */
  lemma {:induction false} PutReplaces(files: seq<Entry>, e: Entry, j: int)
    requires 0 <= j < |files| && files[j].name == e.name
    requires forall k :: 0 <= k < j ==> files[k].name != e.name
    ensures Put(files, e) == files[..j] + [e] + files[j + 1..]
  {
    if j == 0 {
      assert files[..0] == [];
    } else {
      PutReplaces(files[1..], e, j - 1);
      assert files[1..][..j - 1] == files[1..j];
      assert files[1..][j..] == files[j + 1..];
      assert [files[0]] + (files[1..j] + [e] + files[j + 1..]) == files[..j] + [e] + files[j + 1..];
    }
  }

  /** The entry the zip gets for one item whose result fetched as `b`. */
  function EntryFor(it: Item, b: Blob): Entry
  {
    Entry(EntryName(it.id, Extension(b.contentType)), b)
  }

  /** The archive's files after fetching every selected result, or `None` if any fetch failed. */
  function Zipped(sel: seq<Item>, fetch: string -> Fetched): Option<seq<Entry>>
    decreases |sel|
  {
    if sel == [] then Some([])
    else
      match Zipped(sel[..|sel| - 1], fetch)
      case None => None
      case Some(files) =>
        match fetch(ResultUrl(sel[|sel| - 1]))
        case FetchFailed => None
        case Fetched(b) => Some(Put(files, EntryFor(sel[|sel| - 1], b)))
  }

  /** The whole handler. */
  function ExportOf(items: seq<Item>, fetch: string -> Fetched): ExportResult
  {
    var sel := Selection(items);
    if sel == [] then NothingToExport
    else
      match Zipped(sel, fetch)
      case None => ExportFailed
      case Some(files) => Archive(files)
  }

  /** All or nothing: the archive is missing exactly when some selected result fails to fetch. */
  lemma {:induction false} ZippedFails(sel: seq<Item>, fetch: string -> Fetched)
    ensures Zipped(sel, fetch).None? <==> exists k :: 0 <= k < |sel| && fetch(ResultUrl(sel[k])).FetchFailed?
    decreases |sel|
  {
    if sel != [] {
      var prefix := sel[..|sel| - 1];
      ZippedFails(prefix, fetch);
      if exists k :: 0 <= k < |prefix| && fetch(ResultUrl(prefix[k])).FetchFailed? {
        var k :| 0 <= k < |prefix| && fetch(ResultUrl(prefix[k])).FetchFailed?;
        assert sel[k] == prefix[k];
      }
      if exists k :: 0 <= k < |sel| && fetch(ResultUrl(sel[k])).FetchFailed? {
        var k :| 0 <= k < |sel| && fetch(ResultUrl(sel[k])).FetchFailed?;
        if k < |sel| - 1 {
          assert prefix[k] == sel[k];
        }
      }
    }
  }

  /** The selected items' ids are distinct and dot-free. */
  predicate DistinctDotFreeIds(sel: seq<Item>)
  {
    && UniqueIds(sel)
    && forall k :: 0 <= k < |sel| ==> '.' !in sel[k].id
  }

  /**
   * With distinct, dot-free ids and every fetch succeeding, the archive has
   * one entry per selected item, in selection order, each named from that
   * item's id and its blob's content type.
   */
  lemma {:induction false} ZippedEntries(sel: seq<Item>, fetch: string -> Fetched)
    requires DistinctDotFreeIds(sel)
    requires forall k :: 0 <= k < |sel| ==> fetch(ResultUrl(sel[k])).Fetched?
    ensures Zipped(sel, fetch).Some?
    ensures |Zipped(sel, fetch).value| == |sel|
    ensures forall k :: 0 <= k < |sel| ==>
              Zipped(sel, fetch).value[k] == EntryFor(sel[k], fetch(ResultUrl(sel[k])).blob)
    decreases |sel|
  {
    if sel != [] {
      var n := |sel|;
      var prefix := sel[..n - 1];
      assert DistinctDotFreeIds(prefix) by {
        forall a, b | 0 <= a < |prefix| && 0 <= b < |prefix| && Ids(prefix)[a] == Ids(prefix)[b]
          ensures a == b
        {
          assert Ids(sel)[a] == Ids(sel)[b];
        }
      }
      ZippedEntries(prefix, fetch);
      var files := Zipped(prefix, fetch).value;
      var e := EntryFor(sel[n - 1], fetch(ResultUrl(sel[n - 1])).blob);
      forall k | 0 <= k < |files|
        ensures files[k].name != e.name
      {
        assert Ids(sel)[k] != Ids(sel)[n - 1];
        NamesDiffer(sel[k], fetch(ResultUrl(sel[k])).blob, sel[n - 1], e.blob);
      }
      assert Zipped(sel, fetch) == Some(Put(files, e));
      assert Put(files, e) == files + [e];
      forall k | 0 <= k < n
        ensures (files + [e])[k] == EntryFor(sel[k], fetch(ResultUrl(sel[k])).blob)
      {
        if k < n - 1 {
          assert prefix[k] == sel[k];
        }
      }
    }
  }

  lemma NamesDiffer(a: Item, ba: Blob, b: Item, bb: Blob)
    requires '.' !in a.id && '.' !in b.id && a.id != b.id
    ensures EntryFor(a, ba).name != EntryFor(b, bb).name
  {
    if EntryFor(a, ba).name == EntryFor(b, bb).name {
      EntryNameInjective(a.id, Extension(ba.contentType), b.id, Extension(bb.contentType));
    }
  }

  /**
   * The export handler's outcome: nothing when no item is exportable, a
   * failure exactly when some selected result fails to fetch, and otherwise
   * the archive of the selected items.
   */
  lemma ExportCases(items: seq<Item>, fetch: string -> Fetched)
    ensures ExportOf(items, fetch).NothingToExport? <==> forall k :: 0 <= k < |items| ==> !Exportable(items[k])
    ensures ExportOf(items, fetch).ExportFailed? <==>
              exists k :: 0 <= k < |Selection(items)| && fetch(ResultUrl(Selection(items)[k])).FetchFailed?
    ensures ExportOf(items, fetch).Archive? ==>
              Selection(items) != [] && ExportOf(items, fetch).entries == Zipped(Selection(items), fetch).value
  {
    var sel := Selection(items);
    ZippedFails(sel, fetch);
    if sel != [] {
      assert sel[0] in items && Exportable(sel[0]);
    }
  }

  /**
   * For a gallery with unique, dot-free ids whose results all fetch, the
   * export is an archive with one entry per completed item, in gallery order.
   */
  lemma ExportArchive(items: seq<Item>, fetch: string -> Fetched)
    requires UniqueIds(items) && forall k :: 0 <= k < |items| ==> '.' !in items[k].id
    requires forall k :: 0 <= k < |items| && Exportable(items[k]) ==> fetch(ResultUrl(items[k])).Fetched?
    requires exists k :: 0 <= k < |items| && Exportable(items[k])
    ensures ExportOf(items, fetch).Archive?
    ensures var sel := Selection(items);
      && |ExportOf(items, fetch).entries| == |sel|
      && forall k :: 0 <= k < |sel| ==> ExportOf(items, fetch).entries[k] == EntryFor(sel[k], fetch(ResultUrl(sel[k])).blob)
  {
    var sel := Selection(items);
    var j :| 0 <= j < |items| && Exportable(items[j]);
    assert items[j] in sel;
    FilterKeepsUniqueIds(items, Exportable);
    forall k | 0 <= k < |sel|
      ensures '.' !in sel[k].id && fetch(ResultUrl(sel[k])).Fetched?
    {
      var m :| 0 <= m < |items| && items[m] == sel[k];
    }
    ZippedEntries(sel, fetch);
  }

  /** The archive a zip object holds, updated in place as files are added. */
  class Zip {
    var files: seq<Entry>

    constructor ()
      ensures files == []
    {
      files := [];
    }

    /** `zip.file(name, blob)` */
    method File(name: string, blob: Blob)
      modifies this
      ensures files == Put(old(files), Entry(name, blob))
    {
      files := Put(files, Entry(name, blob));
    }
  }

  /**
   * Fetches every selected result in turn and adds it to a fresh zip; the
   * first failed fetch abandons the archive.
   */
  method BuildArchive(sel: seq<Item>, fetch: string -> Fetched) returns (r: Option<seq<Entry>>)
    ensures r == Zipped(sel, fetch)
  {
    var zip := new Zip();
    for i := 0 to |sel|
      invariant Zipped(sel[..i], fetch) == Some(zip.files)
    {
      assert sel[..i + 1][..i] == sel[..i];
      match fetch(ResultUrl(sel[i]))
      case FetchFailed =>
        ZippedFails(sel, fetch);
        return None;
      case Fetched(blob) =>
        zip.File(EntryName(sel[i].id, Extension(blob.contentType)), blob);
    }
    assert sel[..|sel|] == sel;
    r := Some(zip.files);
  }
}
