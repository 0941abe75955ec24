/** The records the backend commands exchange (src-tauri/src/models.rs). */
module Models {

  /** An octet; image data is a sequence of them (`Vec<u8>`). */
  type byte = x: int | 0 <= x < 256
  type Bytes = seq<byte>

  /** A row of the uploads table and an element of the `get_history` reply. */
  datatype HistoryItem = HistoryItem(
    id: string,
    provider: string,
    originalName: string,
    url: string,
    createdAt: int,
    thumbnailBase64: string)

  /** What both processing commands return. */
  datatype ProcessedImageResult = ProcessedImageResult(
    previewBase64: string,
    sizeInfo: string,
    tempId: string)

  /** What `upload_image` returns. */
  datatype UploadResult = UploadResult(url: string)

  /** The settings the modelled commands read from the saved configuration: only
      the R2 public domain enters a computation here; the other settings are
      handed to collaborators that are not part of this model. */
  datatype Config = Config(r2PublicDomain: string)
}
