/** The upload surface: the `image/` filter applied to dropped or picked
    files, the rule for when a selection is forwarded at all, and the
    `isDragging` flag the drag handlers set. */
module FileUploader {
  import opened JsRuntime
  import opened Types

  const ImagePrefix := "image/"

  predicate IsImage(f: ImageFile) {
    StartsWith(f.mimeType, ImagePrefix)
  }

  /** `Array.from(files).filter(file => file.type.startsWith('image/'))` */
  function ImagesOnly(files: seq<ImageFile>): (r: seq<ImageFile>)
    ensures |r| <= |files|
    ensures forall i :: 0 <= i < |r| ==> IsImage(r[i])
  {
    if |files| == 0 then []
    else if IsImage(files[0]) then [files[0]] + ImagesOnly(files[1..])
    else ImagesOnly(files[1..])
  }

  /** `a` is `b` with some elements left out, the rest in their order. */
  predicate IsSubsequence<T(==)>(a: seq<T>, b: seq<T>)
    decreases |b|
  {
    if |a| == 0 then true
    else if |b| == 0 then false
    else if a[0] == b[0] then IsSubsequence(a[1..], b[1..])
    else IsSubsequence(a, b[1..])
  }

  /** The filter keeps the relative order of what it keeps. */
  lemma {:induction false} ImagesOnlyIsSubsequence(files: seq<ImageFile>)
    ensures IsSubsequence(ImagesOnly(files), files)
  {
    if |files| > 0 {
      ImagesOnlyIsSubsequence(files[1..]);
      var rest := ImagesOnly(files[1..]);
      if IsImage(files[0]) {
        assert ([files[0]] + rest)[1..] == rest;
      } else if |rest| > 0 {
        assert IsImage(rest[0]) && rest[0] != files[0];
      }
    }
  }

  /** A file survives the filter exactly when it was offered and is an image. */
  lemma {:induction false} ImagesOnlyMembership(files: seq<ImageFile>, f: ImageFile)
    ensures f in ImagesOnly(files) <==> f in files && IsImage(f)
  {
    if |files| > 0 {
      ImagesOnlyMembership(files[1..], f);
      assert files == [files[0]] + files[1..];
    }
  }

  /** The filter keeps every copy of an image and no copy of anything else. */
  lemma {:induction false} ImagesOnlyCount(files: seq<ImageFile>, f: ImageFile)
    ensures multiset(ImagesOnly(files))[f] == if IsImage(f) then multiset(files)[f] else 0
  {
    if |files| > 0 {
      ImagesOnlyCount(files[1..], f);
      assert files == [files[0]] + files[1..];
    }
  }

  /** Filtering a concatenation filters each part. */
  lemma {:induction false} ImagesOnlyAppend(a: seq<ImageFile>, b: seq<ImageFile>)
    ensures ImagesOnly(a + b) == ImagesOnly(a) + ImagesOnly(b)
  {
    if |a| > 0 {
      ImagesOnlyAppend(a[1..], b);
      assert (a + b)[0] == a[0] && (a + b)[1..] == a[1..] + b;
    } else {
      assert a + b == b;
    }
  }

  /** Filtering twice is filtering once. */
  lemma {:induction false} ImagesOnlyIdempotent(files: seq<ImageFile>)
    ensures ImagesOnly(ImagesOnly(files)) == ImagesOnly(files)
  {
    if |files| > 0 {
      ImagesOnlyIdempotent(files[1..]);
    }
  }

  /** What the drop and change handlers pass to `onFilesSelected`: nothing
      when the incoming list is absent or empty, otherwise the images among
      it (possibly none). */
  function Accepted(incoming: Option<seq<ImageFile>>): (forwarded: Option<seq<ImageFile>>)
    ensures forwarded.None? <==> incoming.None? || |incoming.value| == 0
    ensures forwarded.Some? ==> forwarded.value == ImagesOnly(incoming.value)
  {
    if incoming.Some? && |incoming.value| > 0 then Some(ImagesOnly(incoming.value)) else None
  }

  /** The drop zone's own state. */
  class DropZone {
    var isDragging: bool

    constructor ()
      ensures !isDragging
    {
      isDragging := false;
    }

    /** `handleDragIn`: turns the highlight on only when items are dragged. */
    method DragEnter(itemCount: Option<nat>)
      modifies this
      ensures isDragging == (old(isDragging) || (itemCount.Some? && itemCount.value > 0))
    {
      if itemCount.Some? && itemCount.value > 0 {
        isDragging := true;
      }
    }

    /** `handleDragOut` */
    method DragLeave()
      modifies this
      ensures !isDragging
    {
      isDragging := false;
    }

    /** `handleDrag`, bound to drag-over: only suppresses the browser default. */
    method DragOver()
      ensures unchanged(this)
    {
    }

    /** `handleDrop`: clears the highlight and forwards the accepted files. */
    method Drop(files: Option<seq<ImageFile>>) returns (forwarded: Option<seq<ImageFile>>)
      modifies this
      ensures !isDragging
      ensures forwarded == Accepted(files)
    {
      isDragging := false;
      forwarded := Accepted(files);
    }
  }
}
