/** The profile-image sheet: its preview URL, status and progress as the file-change and
    delete handlers move them, and the loading and button guards. The library call inside
    each handler is represented by the events it causes (progress callbacks) and by its
    outcome, which the caller supplies. */
module ImageUploadWidget {
  import opened Common
  import AvatarUpload

  datatype UploadStatus = Idle | Compressing | Uploading | Deleting

  /** A file chosen in the picker: its declared MIME type and its local preview URL. */
  datatype SelectedFile = SelectedFile(mimeType: string, previewUrl: string)

  /** `file.type.startsWith('image/')`. */
  predicate IsImageType(mimeType: string)
    ensures IsImageType(mimeType) <==> |mimeType| >= 6 && mimeType[..6] == "image/"
  {
    "image/" <= mimeType
  }

  /** The bar while compressing: `Math.round(p * 0.5)` for compression progress p. */
  function CompressBand(p: int): (r: int)
    requires 0 <= p <= 100
    ensures 0 <= r <= 50
    ensures 2 * r - 1 <= p < 2 * r + 1   // r is p / 2 rounded half up
  {
    (p + 1) / 2
  }

  /** The bar while uploading: `50 + Math.round(p * 0.5)` for upload progress p. */
  function UploadBand(p: int): (r: int)
    requires 0 <= p <= 100
    ensures 50 <= r <= 100
    ensures 2 * (r - 50) - 1 <= p < 2 * (r - 50) + 1
  {
    50 + (p + 1) / 2
  }

  predicate InPercent(s: seq<int>) {
    forall i :: 0 <= i < |s| ==> 0 <= s[i] <= 100
  }

  /** The bar values shown for a compression trace followed by an upload trace. */
  function BarTrace(compress: seq<int>, upload: seq<int>): (r: seq<int>)
    requires InPercent(compress) && InPercent(upload)
    ensures |r| == |compress| + |upload|
    ensures forall i :: 0 <= i < |compress| ==> r[i] == CompressBand(compress[i])
    ensures forall i :: 0 <= i < |upload| ==> r[|compress| + i] == UploadBand(upload[i])
  {
    seq(|compress|, i requires 0 <= i < |compress| => CompressBand(compress[i]))
      + seq(|upload|, i requires 0 <= i < |upload| => UploadBand(upload[i]))
  }

  /** The two bands split the bar: for non-decreasing library traces the bar never moves
      back, compression fills the first half, the upload the second, and the bar reads 100
      once the upload library reports everything loaded. */
  lemma {:induction false} BarTraceProgresses(compress: seq<int>, events: seq<AvatarUpload.ProgressEvent>, total: nat)
    requires InPercent(compress) && AvatarUpload.NonDecreasing(compress)
    requires AvatarUpload.OneUpload(events, total)
    ensures forall i :: 0 <= i < |events| ==> AvatarUpload.WellFormedEvent(events[i])
    ensures var upload := AvatarUpload.ReportedTrace(events);
      && InPercent(upload)
      && AvatarUpload.NonDecreasing(BarTrace(compress, upload))
      && (forall i :: 0 <= i < |compress| ==> BarTrace(compress, upload)[i] <= 50)
      && (forall i :: |compress| <= i < |compress| + |upload| ==> 50 <= BarTrace(compress, upload)[i])
      && (|events| > 0 && events[|events| - 1].lengthComputable && events[|events| - 1].loaded == total
          ==> |upload| > 0 && BarTrace(compress, upload)[|compress| + |upload| - 1] == 100)
  {
    AvatarUpload.ReportedTraceProgresses(events, total);
    var upload := AvatarUpload.ReportedTrace(events);
    var bar := BarTrace(compress, upload);
    forall i, j | 0 <= i < j < |bar| ensures bar[i] <= bar[j] {
      if j < |compress| {
        assert compress[i] <= compress[j];
      } else if i >= |compress| {
        assert upload[i - |compress|] <= upload[j - |compress|];
      }
    }
  }

  class ProfileImageUpload {
    /** The `currentImageUrl` prop. */
    var currentImageUrl: Option<string>
    var imageUrl: Option<string>
    var status: UploadStatus
    var progress: int
    /** Calls made to the upload library, and to the delete library. */
    var uploadsStarted: nat
    var deletesStarted: nat

    /** The bar is always a percentage; idle shows an empty bar, compression the first
        half and the upload the second. */
    ghost predicate Valid()
      reads this
    {
      && 0 <= progress <= 100
      && (status == Idle || status == Deleting ==> progress == 0)
      && (status == Compressing ==> progress <= 50)
      && (status == Uploading ==> 50 <= progress)
    }

    /** `isLoading`: anything but idle. */
    predicate IsLoading()
      reads this
    {
      status != Idle
    }

    /** Both action buttons carry `disabled={isLoading}`. */
    predicate ActionsDisabled()
      reads this
    {
      IsLoading()
    }

    /** The delete button is rendered only while there is an image. */
    predicate DeleteOffered()
      reads this
    {
      imageUrl.Some?
    }

    constructor (currentImageUrl: Option<string>)
      ensures Valid()
      ensures this.currentImageUrl == currentImageUrl && imageUrl == currentImageUrl
      ensures status == Idle && progress == 0 && uploadsStarted == 0 && deletesStarted == 0
    {
      this.currentImageUrl := currentImageUrl;
      imageUrl := currentImageUrl;
      status := Idle;
      progress := 0;
      uploadsStarted := 0;
      deletesStarted := 0;
    }

    /** The effect on a new `currentImageUrl` prop. */
    method SyncCurrentImage(url: Option<string>)
      requires Valid()
      modifies this
      ensures Valid()
      ensures currentImageUrl == url && imageUrl == url
      ensures status == old(status) && progress == old(progress)
      ensures uploadsStarted == old(uploadsStarted) && deletesStarted == old(deletesStarted)
    {
      currentImageUrl := url;
      imageUrl := url;
    }

    /** `handleFileChange` up to the library call. The picker is opened by a button that is
        disabled while loading, so this runs only when idle. */
    method HandleFileChange(file: Option<SelectedFile>) returns (started: bool)
      requires Valid() && !IsLoading()
      modifies this
      ensures Valid()
      ensures started <==> file.Some? && IsImageType(file.value.mimeType)
      ensures currentImageUrl == old(currentImageUrl) && status == old(status)
      ensures deletesStarted == old(deletesStarted)
      // no file or a non-image: nothing changes and nothing is uploaded
      ensures !started ==> imageUrl == old(imageUrl) && progress == old(progress) && uploadsStarted == old(uploadsStarted)
      // an image: the preview is shown, the bar is reset and the upload starts
      ensures started ==> imageUrl == Some(file.value.previewUrl) && progress == 0 && uploadsStarted == old(uploadsStarted) + 1
    {
      if file.None? {
        return false;
      }
      if !IsImageType(file.value.mimeType) {
        return false;
      }
      imageUrl := Some(file.value.previewUrl);
      progress := 0;
      uploadsStarted := uploadsStarted + 1;
      return true;
    }

    /** The compression progress callback. */
    method OnCompressProgress(p: int)
      requires Valid() && 0 <= p <= 100
      modifies this
      ensures Valid()
      ensures status == Compressing && progress == CompressBand(p)
      ensures imageUrl == old(imageUrl) && currentImageUrl == old(currentImageUrl)
      ensures uploadsStarted == old(uploadsStarted) && deletesStarted == old(deletesStarted)
    {
      status := Compressing;
      progress := CompressBand(p);
    }

    /** The upload progress callback. */
    method OnUploadProgress(p: int)
      requires Valid() && 0 <= p <= 100
      modifies this
      ensures Valid()
      ensures status == Uploading && progress == UploadBand(p)
      ensures imageUrl == old(imageUrl) && currentImageUrl == old(currentImageUrl)
      ensures uploadsStarted == old(uploadsStarted) && deletesStarted == old(deletesStarted)
    {
      status := Uploading;
      progress := UploadBand(p);
    }

    /** The library call settles: show the stored image, or revert the preview to
        `capturedImageUrl`, the `currentImageUrl` prop of the render whose handler started
        the upload (a newer prop value is not seen by the handler's closure). */
    method FinishUpload<E>(result: Result<string, E>, capturedImageUrl: Option<string>)
      requires Valid()
      modifies this
      ensures Valid()
      ensures status == Idle && progress == 0
      ensures result.Success? ==> imageUrl == Some(result.value)
      ensures result.Failure? ==> imageUrl == capturedImageUrl
      ensures currentImageUrl == old(currentImageUrl)
      ensures uploadsStarted == old(uploadsStarted) && deletesStarted == old(deletesStarted)
    {
      if result.Success? {
        imageUrl := Some(result.value);
      } else {
        imageUrl := capturedImageUrl;
      }
      status := Idle;
      progress := 0;
    }

    /** `handleDelete` up to the library call; the button exists only while there is an
        image and is disabled while loading. */
    method HandleDelete()
      requires Valid() && !IsLoading() && DeleteOffered()
      modifies this
      ensures Valid()
      ensures status == Deleting && IsLoading()
      ensures imageUrl == old(imageUrl) && progress == old(progress) && currentImageUrl == old(currentImageUrl)
      ensures uploadsStarted == old(uploadsStarted) && deletesStarted == old(deletesStarted) + 1
    {
      status := Deleting;
      deletesStarted := deletesStarted + 1;
    }

    /** The delete call started by `HandleDelete` settles: clear the image, or keep it. */
    method FinishDelete<E>(result: Result<(), E>)
      requires Valid() && status == Deleting
      modifies this
      ensures Valid()
      ensures status == Idle
      ensures imageUrl == if result.Success? then None else old(imageUrl)
      ensures progress == old(progress) && currentImageUrl == old(currentImageUrl)
      ensures uploadsStarted == old(uploadsStarted) && deletesStarted == old(deletesStarted)
    {
      if result.Success? {
        imageUrl := None;
      }
      status := Idle;
    }
  }
}
