/** The media library page (`src/pages/admin/MediaLibrary.tsx`): the type
    filter and text search over the media list, and the upload handler that
    stores a file and records it in the `media_library` table. */
module MediaLibrary {
  import opened Common
  import opened Storage

  /** A row of the `media_library` table. */
  datatype MediaItem = MediaItem(
    id: string,
    filename: string,
    url: string,
    fileType: Option<string>,
    fileSize: Option<int>,
    altTextEn: Option<string>,
    altTextVi: Option<string>)

  datatype Filter = All | Image | Video

  function FilterWord(filter: Filter): string {
    match filter
    case All => "all"
    case Image => "image"
    case Video => "video"
  }

  /** `filter === 'all' || item.file_type?.startsWith(filter)` */
  predicate MatchesFilter(item: MediaItem, filter: Filter) {
    filter == All || (item.fileType.Some? && StartsWith(item.fileType.value, FilterWord(filter)))
  }

  /** `field?.toLowerCase().includes(query.toLowerCase())`, false for null. */
  predicate FieldMatches(field: Option<string>, query: string) {
    field.Some? && Contains(ToLower(field.value), ToLower(query))
  }

  /** The search: an empty query matches everything, otherwise the file name
      or either alternative text must contain it, ignoring case. */
  predicate MatchesSearch(item: MediaItem, query: string) {
    query == "" || FieldMatches(Some(item.filename), query) ||
    FieldMatches(item.altTextEn, query) || FieldMatches(item.altTextVi, query)
  }

  predicate Matches(item: MediaItem, filter: Filter, query: string) {
    MatchesFilter(item, filter) && MatchesSearch(item, query)
  }

  /** `filteredMedia` */
  function FilteredMedia(media: seq<MediaItem>, filter: Filter, query: string): (r: seq<MediaItem>)
    ensures |r| <= |media|
  {
    if media == [] then []
    else (if Matches(media[0], filter, query) then [media[0]] else []) + FilteredMedia(media[1..], filter, query)
  }

  /** Filtering distributes over concatenation: the result keeps the
      list's order. */
  lemma {:induction false} FilteredMediaAppend(a: seq<MediaItem>, b: seq<MediaItem>, filter: Filter, query: string)
    ensures FilteredMedia(a + b, filter, query) == FilteredMedia(a, filter, query) + FilteredMedia(b, filter, query)
  {
    if a == [] {
      assert a + b == b;
    } else {
      var head := if Matches(a[0], filter, query) then [a[0]] else [];
      var ab := a + b;
      assert ab[0] == a[0] && ab[1..] == a[1..] + b;
      assert FilteredMedia(ab, filter, query) == head + FilteredMedia(a[1..] + b, filter, query);
      FilteredMediaAppend(a[1..], b, filter, query);
      ConcatAssoc(head, FilteredMedia(a[1..], filter, query), FilteredMedia(b, filter, query));
    }
  }

  /** An item is shown exactly when it is in the list and passes both tests. */
  lemma {:induction false} FilteredMediaMembership(media: seq<MediaItem>, filter: Filter, query: string, item: MediaItem)
    ensures item in FilteredMedia(media, filter, query) <==> item in media && Matches(item, filter, query)
  {
    if media != [] {
      FilteredMediaMembership(media[1..], filter, query, item);
      assert media == [media[0]] + media[1..];
    }
  }

  /** With filter `all` and an empty query the whole list is shown. */
  lemma {:induction false} ShowAllIsIdentity(media: seq<MediaItem>)
    ensures FilteredMedia(media, All, "") == media
  {
    if media != [] {
      ShowAllIsIdentity(media[1..]);
    }
  }

  /** An item without a type is shown only under `all`; under `image` or
      `video` the type must start with that word. */
  lemma NullTypeOnlyUnderAll(item: MediaItem, filter: Filter)
    ensures item.fileType.None? && filter != All ==> !MatchesFilter(item, filter)
    ensures filter == Image ==> (MatchesFilter(item, filter) <==>
              item.fileType.Some? && StartsWith(item.fileType.value, "image"))
  {
  }

  lemma {:induction false} ToLowerIdempotent(s: string)
    ensures ToLower(ToLower(s)) == ToLower(s)
  {
    var t := ToLower(s);
    assert forall i :: 0 <= i < |s| ==> ToLower(t)[i] == t[i];
  }

  /** The search ignores the case of the query. */
  lemma SearchIgnoresQueryCase(item: MediaItem, query: string)
    ensures MatchesSearch(item, ToLower(query)) == MatchesSearch(item, query)
  {
    ToLowerIdempotent(query);
  }

  /** A name matching the query somewhere, ignoring case, is enough. */
  lemma {:induction false} FilenameOccurrenceMatches(item: MediaItem, query: string, at: int)
    requires OccursAt(ToLower(item.filename), ToLower(query), at)
    ensures MatchesSearch(item, query)
  {
    ContainsIffOccurs(ToLower(item.filename), ToLower(query));
  }

  /** The row `createMediaItem` inserts after an upload. */
  datatype NewMedia = NewMedia(filename: string, url: string, fileType: string, fileSize: int)

  datatype UploadOutcome = NoFile | TooLarge | UploadFailed(path: string) | RecordFailed(path: string) | Uploaded(path: string)

  /** The 10 MB ceiling of the page. */
  const MaxUploadMB := 10

  class MediaLibraryPage {
    var uploading: bool
    var created: seq<NewMedia>

    constructor ()
      ensures !uploading && created == []
    {
      uploading := false;
      created := [];
    }

    /** `createMediaItem` while the upload is in progress; `ok` is false
        when the insert throws. */
    method CreateRecord(item: NewMedia, ok: bool)
      requires uploading
      modifies this
      ensures created == if ok then old(created) + [item] else old(created)
      ensures uploading
    {
      if ok {
        created := created + [item];
      }
    }

    /** `handleUpload`. `stem` stands for the random and time part of the
        stored name, `uploadOk` and `createOk` for the outcomes of the two
        backend calls, `publicUrl` for what `getPublicUrl` returns. The
        `finally` clause clears `uploading` on every path, the early
        returns included. */
    method HandleUpload(bucket: Bucket, file: Option<File>, stem: string, uploadOk: bool,
                        publicUrl: string, createOk: bool) returns (outcome: UploadOutcome)
      modifies this, bucket
      ensures !uploading
      ensures file.None? ==> outcome == NoFile && bucket.paths == old(bucket.paths) && created == old(created)
      ensures file.Some? && ExceedsLimit(file.value.size, MaxUploadMB) ==>
        outcome == TooLarge && bucket.paths == old(bucket.paths) && created == old(created)
      ensures file.Some? && !ExceedsLimit(file.value.size, MaxUploadMB) ==>
        var path := StoragePath(stem, file.value.name);
        && bucket.paths == (if uploadOk then old(bucket.paths) + [path] else old(bucket.paths))
        && created == (if uploadOk && createOk
                       then old(created) + [NewMedia(file.value.name, publicUrl, file.value.mimeType, file.value.size)]
                       else old(created))
        && outcome == (if !uploadOk then UploadFailed(path)
                       else if !createOk then RecordFailed(path)
                       else Uploaded(path))
    {
      if file.None? {
        uploading := false;
        return NoFile;
      }
      var f := file.value;
      if ExceedsLimit(f.size, MaxUploadMB) {
        uploading := false;
        return TooLarge;
      }
      uploading := true;
      var path := StoragePath(stem, f.name);
      bucket.Upload(path, uploadOk);
      if !uploadOk {
        uploading := false;
        return UploadFailed(path);
      }
      CreateRecord(NewMedia(f.name, publicUrl, f.mimeType, f.size), createOk);
      outcome := if createOk then Uploaded(path) else RecordFailed(path);
      uploading := false;
    }
  }

  /** A record that fails after a successful upload leaves the file in the
      bucket with no row pointing at it. */
  method OrphanedUpload(file: File, stem: string, publicUrl: string) returns (bucket: Bucket, page: MediaLibraryPage)
    requires !ExceedsLimit(file.size, MaxUploadMB)
    ensures bucket.paths == [StoragePath(stem, file.name)] && page.created == []
  {
    bucket := new Bucket();
    page := new MediaLibraryPage();
    var outcome := page.HandleUpload(bucket, Some(file), stem, true, publicUrl, false);
    assert outcome == RecordFailed(StoragePath(stem, file.name));
  }
}
