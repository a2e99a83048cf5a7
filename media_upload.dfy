/** The upload field (`src/components/admin/MediaUpload.tsx`): its preview,
    the size ceiling, the upload handler that reports the new URL through
    `onChange`, the remove button and the video test on the preview. */
module MediaUpload {
  import opened Common
  import opened Storage

  /** `url.includes('.mp4') || url.includes('.webm') || url.includes('.mov')` */
  predicate LooksLikeVideo(url: string) {
    Contains(url, ".mp4") || Contains(url, ".webm") || Contains(url, ".mov")
  }

  /** A text contains whatever it ends with. */
  lemma {:induction false} ContainsSuffix(front: string, needle: string)
    ensures Contains(front + needle, needle)
  {
    var url := front + needle;
    assert url[|front|..|front| + |needle|] == needle;
    assert OccursAt(url, needle, |front|);
    ContainsIffOccurs(url, needle);
  }

  /** A URL ending in a video extension is seen as a video. */
  lemma {:induction false} VideoSuffixDetected(front: string, ext: string)
    requires ext == "mp4" || ext == "webm" || ext == "mov"
    ensures LooksLikeVideo(front + ("." + ext))
  {
    if ext == "mp4" {
      assert "." + ext == ".mp4";
      ContainsSuffix(front, ".mp4");
    } else if ext == "webm" {
      assert "." + ext == ".webm";
      ContainsSuffix(front, ".webm");
    } else {
      assert "." + ext == ".mov";
      ContainsSuffix(front, ".mov");
    }
  }

  /** A stored path with a video extension is seen as a video, whatever URL
      prefix the bucket puts in front of it. */
  lemma {:induction false} VideoPathDetected(prefix: string, stem: string, ext: string)
    requires ext == "mp4" || ext == "webm" || ext == "mov"
    ensures LooksLikeVideo(prefix + (stem + "." + ext))
  {
    assert prefix + (stem + "." + ext) == (prefix + stem) + ("." + ext);
    VideoSuffixDetected(prefix + stem, ext);
  }

  /** A stored file whose name had a video extension is seen as a video. */
  lemma VideoExtensionDetected(prefix: string, stem: string, name: string)
    requires FileExtension(name) == "mp4" || FileExtension(name) == "webm" || FileExtension(name) == "mov"
    ensures LooksLikeVideo(prefix + StoragePath(stem, name))
  {
    VideoPathDetected(prefix, stem, FileExtension(name));
  }

  /** The test is a substring test, not an extension test: an image whose
      name has `.mov` inside it is shown as a video, and so is one whose
      name merely begins a longer word with it. */
  lemma {:induction false} SubstringFalsePositive()
    ensures LooksLikeVideo("a.movie.png")
    ensures FileExtension("a.movie.png") == "png"
  {
    assert OccursAt("a.movie.png", ".mov", 1);
    ContainsIffOccurs("a.movie.png", ".mov");
    ExtensionRoundTrip("a.movie", "png");
    assert "a.movie" + "." + "png" == "a.movie.png";
  }

  /** `value || null` */
  function InitialPreview(value: Option<string>): (r: Option<string>)
    ensures r != Some("")
    ensures value.Some? && value.value != "" ==> r == value
  {
    if value.Some? && value.value != "" then value else None
  }

  datatype UploadOutcome = NoFile | TooLarge | UploadFailed(path: string) | Uploaded(path: string, url: string)

  /** Where `handleUpload` ends: no file, a file over `maxMB` megabytes, an
      upload that reported an error, or a stored file and its public URL. */
  function UploadResult(file: Option<File>, maxMB: int, stem: string, uploadOk: bool, publicUrl: string): UploadOutcome {
    if file.None? then NoFile
    else if ExceedsLimit(file.value.size, maxMB) then TooLarge
    else if !uploadOk then UploadFailed(StoragePath(stem, file.value.name))
    else Uploaded(StoragePath(stem, file.value.name), publicUrl)
  }

  /** Nothing over the ceiling is ever stored, and what is stored keeps the
      file's extension. */
  lemma UploadGuards(file: Option<File>, maxMB: int, stem: string, uploadOk: bool, publicUrl: string)
    ensures var o := UploadResult(file, maxMB, stem, uploadOk, publicUrl);
      && (o.Uploaded? ==> file.Some? && !ExceedsLimit(file.value.size, maxMB) && uploadOk)
      && (o.Uploaded? ==> o.url == publicUrl && FileExtension(o.path) == FileExtension(file.value.name))
      && (file.Some? && file.value.size > maxMB * 1048576 ==> o == TooLarge)
  {
  }

  class MediaUploadField {
    /** The `maxSizeMB` property; no handler changes it. */
    var maxSizeMB: int
    var preview: Option<string>
    var uploading: bool
    /** The arguments passed to `onChange`, oldest first. */
    var emitted: seq<string>

    /** Mounting with the `value` and `maxSizeMB` properties (10 by default). */
    constructor (value: Option<string>, maxSizeMB: Option<int>)
      ensures this.maxSizeMB == maxSizeMB.GetOr(10)
      ensures preview == InitialPreview(value) && !uploading && emitted == []
    {
      this.maxSizeMB := maxSizeMB.GetOr(10);
      preview := InitialPreview(value);
      uploading := false;
      emitted := [];
    }

    /** `isVideo` */
    predicate IsVideo()
      reads this
    {
      preview.Some? && LooksLikeVideo(preview.value)
    }

    /** `handleUpload`: `stem` stands for the random and time part of the
        stored name, `uploadOk` for the outcome of the upload call and
        `publicUrl` for what `getPublicUrl` returns. On success the preview
        and the value reported through `onChange` are the same URL; on
        every path `finally` clears `uploading`. */
    method HandleUpload(bucket: Bucket, file: Option<File>, stem: string, uploadOk: bool, publicUrl: string)
      returns (outcome: UploadOutcome)
      modifies this, bucket
      ensures outcome == UploadResult(file, old(maxSizeMB), stem, uploadOk, publicUrl)
      ensures outcome.Uploaded? ==>
        bucket.paths == old(bucket.paths) + [outcome.path] &&
        preview == Some(publicUrl) && emitted == old(emitted) + [publicUrl]
      ensures !outcome.Uploaded? ==>
        bucket.paths == old(bucket.paths) && preview == old(preview) && emitted == old(emitted)
      ensures !uploading && maxSizeMB == old(maxSizeMB)
    {
      if file.None? {
        uploading := false;
        return NoFile;
      }
      if ExceedsLimit(file.value.size, maxSizeMB) {
        uploading := false;
        return TooLarge;
      }
      uploading := true;
      var path := StoragePath(stem, file.value.name);
      bucket.Upload(path, uploadOk);
      if uploadOk {
        preview := Some(publicUrl);
        emitted := emitted + [publicUrl];
        outcome := Uploaded(path, publicUrl);
      } else {
        outcome := UploadFailed(path);
      }
      uploading := false;
    }

    /** `handleRemove` */
    method HandleRemove()
      modifies this
      ensures preview.None? && emitted == old(emitted) + [""]
      ensures uploading == old(uploading) && maxSizeMB == old(maxSizeMB)
    {
      preview := None;
      emitted := emitted + [""];
    }
  }
}
