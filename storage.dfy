/** The upload steps that `src/pages/admin/MediaLibrary.tsx` and
    `src/components/admin/MediaUpload.tsx` both perform: the size ceiling,
    the extension taken from the file name, the stored path, and the
    `portfolio-media` bucket the file is written to. */
module Storage {
  import opened Common

  /** The part of a browser `File` the upload reads. */
  datatype File = File(name: string, size: int, mimeType: string)

  /** `maxMB * 1024 * 1024` */
  function MaxBytes(maxMB: int): int {
    maxMB * 1048576
  }

  /** `file.size > maxMB * 1024 * 1024`: the ceiling itself is allowed. */
  predicate ExceedsLimit(size: int, maxMB: int) {
    size > MaxBytes(maxMB)
  }

  /** With the 10 MB ceiling, exactly 10 485 760 bytes pass and one more
      byte does not. */
  lemma TenMegabyteBoundary()
    ensures MaxBytes(10) == 10485760
    ensures !ExceedsLimit(10485760, 10) && ExceedsLimit(10485761, 10)
  {
  }

  /** `name.split('.').pop()`: the text after the last `.`, or the whole
      name when it has none (and `""` when it ends with `.`). */
  function FileExtension(name: string): (ext: string)
    ensures '.' !in ext
    ensures |ext| <= |name|
  {
    if name == [] then []
    else if name[|name| - 1] == '.' then []
    else FileExtension(name[..|name| - 1]) + [name[|name| - 1]]
  }

  /** The extension is what the name ends with, and unless it is the whole
      name, a dot stands right before it. */
  lemma {:induction false} ExtensionIsSuffix(name: string)
    ensures var ext := FileExtension(name);
      && name[|name| - |ext|..] == ext
      && (|ext| < |name| ==> name[|name| - |ext| - 1] == '.')
  {
    if name != [] && name[|name| - 1] != '.' {
      var front := name[..|name| - 1];
      ExtensionIsSuffix(front);
      var e := FileExtension(front);
      assert FileExtension(name) == e + [name[|name| - 1]];
      assert name == front + [name[|name| - 1]];
    }
  }

  /** A name without a dot is its own extension. */
  lemma {:induction false} NoDotWholeName(name: string)
    requires '.' !in name
    ensures FileExtension(name) == name
  {
    if name != [] {
      var front := name[..|name| - 1];
      assert '.' !in front by {
        forall i | 0 <= i < |front| ensures front[i] != '.' {
          assert front[i] == name[i];
        }
      }
      NoDotWholeName(front);
      assert name == front + [name[|name| - 1]];
    }
  }

  /** Splitting at the last dot and joining back: the extension of
      `base + "." + ext` is `ext` whenever `ext` has no dot. */
  lemma {:induction false} ExtensionRoundTrip(base: string, ext: string)
    requires '.' !in ext
    ensures FileExtension(base + "." + ext) == ext
  {
    var name := base + "." + ext;
    ExtensionIsSuffix(name);
    assert name[|name| - |ext|..] == ext;
    assert name[|name| - |ext| - 1] == '.';
  }

  /** The stored path `${random}-${time}.${ext}`; the random and time part
      is the caller's `stem`. */
  function StoragePath(stem: string, name: string): (path: string)
    ensures FileExtension(path) == FileExtension(name)
  {
    ExtensionRoundTrip(stem, FileExtension(name));
    stem + "." + FileExtension(name)
  }

  /** The `portfolio-media` bucket: the paths written so far, in order. */
  class Bucket {
    var paths: seq<string>

    constructor ()
      ensures paths == []
    {
      paths := [];
    }

    /** `upload(path, file)`; `ok` is false when the call reports an error,
        which leaves the bucket as it was. */
    method Upload(path: string, ok: bool)
      modifies this
      ensures paths == if ok then old(paths) + [path] else old(paths)
    {
      if ok {
        paths := paths + [path];
      }
    }
  }
}
