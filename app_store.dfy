/** The application store (src/state/appStore.ts): the image being worked on,
    the URL of its upload, the cached history and two busy flags, each with a
    setter that overwrites that field alone. */
module AppStore {
  import opened Wrappers

  /** A processed image waiting for upload, as the upload page keeps it. */
  datatype ProcessedImage = ProcessedImage(
    tempId: string,
    previewBase64: string,
    sizeInfo: string,
    originalName: string)

  /** A history entry, as the frontend declares it. */
  datatype HistoryItem = HistoryItem(
    id: string,
    provider: string,
    originalName: string,
    url: string,
    createdAt: int,
    thumbnailBase64: string)

  /** No two entries share an id. */
  predicate UniqueIds(items: seq<HistoryItem>) {
    forall i, j :: 0 <= i < j < |items| ==> items[i].id != items[j].id
  }

  /** The five fields of the store as one value. */
  datatype Fields = Fields(
    processedImage: Option<ProcessedImage>,
    uploadedUrl: Option<string>,
    history: seq<HistoryItem>,
    isProcessing: bool,
    isUploading: bool)

  /** The store's initial value: nothing processed, no URL, no history, idle. */
  const Initial := Fields(None, None, [], false, false)

  /** What `resetUploadState` leaves: no image and no URL; history and busy
      flags as they were. */
  function ResetUpload(f: Fields): (r: Fields)
    ensures r.processedImage.None? && r.uploadedUrl.None?
    ensures r.history == f.history && r.isProcessing == f.isProcessing && r.isUploading == f.isUploading
  {
    f.(processedImage := None, uploadedUrl := None)
  }

  /** Resetting twice is resetting once. */
  lemma ResetUploadIdempotent(f: Fields)
    ensures ResetUpload(ResetUpload(f)) == ResetUpload(f)
  {
  }

  class Store {
    var processedImage: Option<ProcessedImage>
    var uploadedUrl: Option<string>
    var history: seq<HistoryItem>
    var isProcessing: bool
    var isUploading: bool

    /** The current value of all five fields. */
    function Snapshot(): Fields
      reads this
    {
      Fields(processedImage, uploadedUrl, history, isProcessing, isUploading)
    }

    constructor ()
      ensures Snapshot() == Initial
    {
      processedImage := None;
      uploadedUrl := None;
      history := [];
      isProcessing := false;
      isUploading := false;
    }

    method SetProcessedImage(image: Option<ProcessedImage>)
      modifies this
      ensures Snapshot() == old(Snapshot()).(processedImage := image)
    {
      processedImage := image;
    }

    method SetUploadedUrl(url: Option<string>)
      modifies this
      ensures Snapshot() == old(Snapshot()).(uploadedUrl := url)
    {
      uploadedUrl := url;
    }

    /** Replaces the list wholesale: nothing of the old list is kept. */
    method SetHistory(items: seq<HistoryItem>)
      modifies this
      ensures Snapshot() == old(Snapshot()).(history := items)
    {
      history := items;
    }

    method SetIsProcessing(b: bool)
      modifies this
      ensures Snapshot() == old(Snapshot()).(isProcessing := b)
    {
      isProcessing := b;
    }

    method SetIsUploading(b: bool)
      modifies this
      ensures Snapshot() == old(Snapshot()).(isUploading := b)
    {
      isUploading := b;
    }

    method ResetUploadState()
      modifies this
      ensures Snapshot() == ResetUpload(old(Snapshot()))
    {
      processedImage := None;
      uploadedUrl := None;
    }
  }
}
