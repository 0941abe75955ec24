# OptiBridge image hand-off, modelled in Dafny

OptiBridge is a desktop tool (a Tauri backend in Rust with a React frontend) that
optimises an image and uploads it to Cloudinary or Cloudflare R2. This project
models the hand-off between the two halves:

- the backend keeps processed WebP bytes in an in-memory cache, keyed by a temp id;
- the upload page holds that temp id in the application store, and sends it back to upload;
- the backend uploads the cached bytes, writes a row to the `uploads` table, and only then drops the cache entry;
- the history page lists that table, copies URLs and deletes rows.

One Dafny module stands for each source file:

| module | models |
|---|---|
| `State` | `src-tauri/src/state.rs`: the image cache |
| `ImageCmds` | `src-tauri/src/commands/image_cmds.rs`: processing from a file or the clipboard, `greet` |
| `UploadCmds` | `src-tauri/src/commands/upload_cmds.rs`: `upload_image` |
| `Database` | `src-tauri/src/modules/database.rs`: the `uploads` table |
| `HistoryCmds` | `src-tauri/src/commands/history_cmds.rs` |
| `R2` | `src-tauri/src/uploaders/r2.rs`: object key and public URL |
| `AppStore` | `src/state/appStore.ts`: the zustand store |
| `UploadPage` | `src/pages/UploadView.tsx` |
| `HistoryPage` | `src/pages/HistoryView.tsx` |
| `Models` | the records of `src-tauri/src/models.rs` |
| `Wire` | how those records are serialized for the frontend |
| `Base64` | the standard alphabet with padding, section 4 of RFC 4648 |
| `Text` | the string splitting the sources rely on |

Stateful parts are classes whose methods change their fields:
- `AppStore.Store`;
- `State.AppState`;
- `Database.Database`, whose table is a `seq` of rows with the primary key as its `Valid()` invariant;
- the two page components, which hold their local state and references to the shared store, cache and table.

A command's collaborators are parameters. Each command receives what they answer for one run as a value:
- loading the configuration;
- the image processor;
- the clipboard;
- the Cloudinary client and the S3 `put_object` call;
- opening SQLite and SQLite's own failures;
- the UUID generator;
- the clock.

Each frontend handler runs to completion and calls the command's method directly.

The central property is the hand-off invariant `UploadPage.UploadView.HandOff`: while the upload page shows its ready screen, the temp id of the image it shows is in the backend cache. Every handler preserves it, with one exception. An upload that succeeds with an empty URL leaves the page on the ready screen after the cache entry is gone. R2 URLs are never empty (`UploadPage.R2UrlIsTruthy`). Cloudinary's URL comes from outside the model.

Some behaviour of the code worth knowing:
- The history page has no paging. It draws every row (`HistoryPage.RenderPage`).
- The history page does not discard stale responses. Each load replaces the list.
- The upload page has no cancel state beyond `handleReset`.
- After a successful upload the store keeps `processedImage`; `handleUpload` only sets `uploadedUrl` (`UploadPage.AfterUpload`).
- `delete_history_item` deletes the local row only. It accepts `url` and `provider` and ignores them.
- The history page is modelled with the serialization fix of "## Findings" applied (`Wire.Receive`). As written, its cards lack three of their fields.

## Model

| member | source | states |
|---|---|---|
| State.AppState.constructor | src-tauri/src/state.rs:9-13 | the cache starts empty |
| ImageCmds.ProcessedFromFile | src-tauri/src/commands/image_cmds.rs:17-22 | the processed bytes when configuration and processing succeed; otherwise the first of their errors, unchanged |
| ImageCmds.ProcessedFromClipboard | src-tauri/src/commands/image_cmds.rs:48-78 | each clipboard failure gives its own message in order (access, no image, buffer smaller than width*height*4, PNG encoding); when all succeed the outcome is the file route's |
| ImageCmds.FitsRgba | src-tauri/src/commands/image_cmds.rs:60-61 | `from_raw` accepts the buffer exactly when it holds width*height whole four-byte pixels |
| ImageCmds.Reply | src-tauri/src/commands/image_cmds.rs:35-39 | the reply carries the temp id and size text, and a preview that decodes to the processed bytes |
| ImageCmds.StoreProcessed | src-tauri/src/commands/image_cmds.rs:24-39 | on success the cache gains exactly `tempId -> bytes` and the reply carries the base64 preview, size text and temp id; on failure the cache is untouched |
| ImageCmds.ProcessImageFromFile | src-tauri/src/commands/image_cmds.rs:10-40 | reply and new cache in terms of `ProcessedFromFile` |
| ImageCmds.ProcessImageFromClipboard | src-tauri/src/commands/image_cmds.rs:42-96 | reply and new cache in terms of `ProcessedFromClipboard` |
| ImageCmds.FreshInsertKeepsEntries | src-tauri/src/commands/image_cmds.rs:31-33 | inserting under a fresh id adds one entry and keeps every other entry |
| ImageCmds.PreviewDecodesToCachedBytes | src-tauri/src/commands/image_cmds.rs:25-39 | the preview decodes to exactly the bytes put in the cache |
| ImageCmds.Greet | src-tauri/src/commands/image_cmds.rs:98-101 | the greeting is the fixed prefix, the name, and the fixed suffix |
| ImageCmds.GreetInjective | src-tauri/src/commands/image_cmds.rs:98-101 | different names give different greetings |
| Base64.Encode | src-tauri/src/commands/image_cmds.rs:25 | output length is 4 * ceil(n/3) |
| Base64.DecodeEncode | src-tauri/src/commands/image_cmds.rs:25 | decoding the encoding gives back the bytes |
| Base64.EncodeInjective | src-tauri/src/commands/image_cmds.rs:25 | different byte strings have different encodings |
| UploadCmds.ProviderUrl | src-tauri/src/commands/upload_cmds.rs:34-54 | "cloudinary" gives Cloudinary's answer; "r2" gives the R2 upload of `image.webp`; any other name gives "Invalid provider" |
| UploadCmds.HistoryRow | src-tauri/src/commands/upload_cmds.rs:62-69 | the row has the drawn id, the provider, the name `image.webp`, the URL and the clock's time, and a thumbnail that decodes to the thumbnail bytes |
| UploadCmds.UploadReply | src-tauri/src/commands/upload_cmds.rs:20-80 | a cache miss gives "Image not found in cache"; a configuration error is passed on; an unknown provider is refused; success happens exactly when every step succeeds and the row id is new; the URL is the provider's |
| UploadCmds.UploadImage | src-tauri/src/commands/upload_cmds.rs:13-81 | on success the table gains the row (provider, `image.webp`, URL, time, thumbnail) and the cache loses the temp id; on any failure both are unchanged, so the same temp id can be retried |
| Database.Database.constructor | src-tauri/src/modules/database.rs:24-35 | the table starts empty and satisfies the key |
| Database.Database.InsertHistory | src-tauri/src/modules/database.rs:40-57 | succeeds exactly when SQLite does not fail and the id is new (PRIMARY KEY, line 26); then appends the row, otherwise changes nothing and reports "Failed to insert history: " and the cause |
| Database.Database.GetHistory | src-tauri/src/modules/database.rs:59-81 | all rows, newest first, as a permutation of the table; or the prepare/query/collect error with its prefix |
| Database.Database.DeleteHistory | src-tauri/src/modules/database.rs:83-89 | removes the row with the id (an absent id is not an error); on a fault changes nothing and reports "Failed to delete history: " |
| Database.QueryFaultMessage | src-tauri/src/modules/database.rs:63-78 | the message ends with SQLite's text, and its prefix names the failed stage: prepare, query or collect |
| Database.OrderByCreatedDesc | src-tauri/src/modules/database.rs:62 | `ORDER BY created_at DESC`: sorted newest first, a permutation of the rows, ids stay unique |
| Database.WithoutId | src-tauri/src/modules/database.rs:85 | `DELETE ... WHERE id = ?1`: keeps exactly the rows with other ids; leaves the rows alone when the id is absent |
| Database.DeleteIdempotent | src-tauri/src/modules/database.rs:83-89 | deleting twice is deleting once |
| Database.DeleteRemovesOneRow | src-tauri/src/modules/database.rs:83-89 | under the key, deleting a present id removes exactly one row |
| Database.InsertedRowIsListed | src-tauri/src/modules/database.rs:40-81 | an inserted row appears in the next listing |
| HistoryCmds.GetHistory | src-tauri/src/commands/history_cmds.rs:5-8 | an open error, or the table's listing unchanged |
| HistoryCmds.DeleteHistoryItem | src-tauri/src/commands/history_cmds.rs:11-25 | an open error or the delete's result; only the local row goes; an absent id changes nothing |
| R2.Extension | src-tauri/src/uploaders/r2.rs:33 | `split('.').last()` is the text after the last dot (the whole name when there is none) |
| R2.ObjectKey | src-tauri/src/uploaders/r2.rs:33-34 | the key is the UUID, a dot, then the file name's text after its last dot |
| R2.KeyHasNoSlash | src-tauri/src/uploaders/r2.rs:33-34 | a key built from a slash-free UUID and file name holds no slash |
| R2.TrimEndSlashes | src-tauri/src/uploaders/r2.rs:69 | the longest prefix that does not end in '/'; only slashes are removed |
| R2.PublicUrl | src-tauri/src/uploaders/r2.rs:69 | trimmed domain, one '/', then the key |
| R2.Upload | src-tauri/src/uploaders/r2.rs:31-72 | on a failed `put_object`, "Upload failed: " and the cause; otherwise the public URL of `<uuid>.<extension>` |
| R2.ExtensionFromName | src-tauri/src/uploaders/r2.rs:33 | the extension holds only characters of the file name |
| R2.UrlEndsWithKey | src-tauri/src/uploaders/r2.rs:33-34 | the text after the URL's last '/' is the object key |
| Text.JoinSplit | src-tauri/src/uploaders/r2.rs:33 | joining the split pieces with the separator restores the string |
| Text.LastPieceIsAfterLast | src-tauri/src/uploaders/r2.rs:33 | the last split piece is the separator-free tail of the string |
| Text.AfterLast | src/pages/UploadView.tsx:148 | the tail holds no separator and is the whole string or follows a separator |
| AppStore.Store.constructor | src/state/appStore.ts:34-39 | nothing processed, no URL, empty history, idle |
| AppStore.Store.SetProcessedImage | src/state/appStore.ts:41 | sets that field and keeps the other four |
| AppStore.Store.SetUploadedUrl | src/state/appStore.ts:42 | sets that field and keeps the other four |
| AppStore.Store.SetHistory | src/state/appStore.ts:43 | replaces the list wholesale and keeps the other fields |
| AppStore.Store.SetIsProcessing | src/state/appStore.ts:44 | sets that flag and keeps the other fields |
| AppStore.Store.SetIsUploading | src/state/appStore.ts:45 | sets that flag and keeps the other fields |
| AppStore.Store.ResetUploadState | src/state/appStore.ts:46 | the new store is `ResetUpload` of the old one |
| AppStore.ResetUpload | src/state/appStore.ts:46 | clears the image and the URL; keeps history and both busy flags |
| AppStore.ResetUploadIdempotent | src/state/appStore.ts:46 | resetting twice is resetting once |
| UploadPage.SelectView | src/pages/UploadView.tsx:185-283 | completed screen exactly when the URL is truthy; ready screen exactly when it is not and an image is held; otherwise the drop zone |
| UploadPage.DisplayName | src/pages/UploadView.tsx:148 | the text after the last '/' or '\\', or "unknown" when that is empty |
| UploadPage.DisplayNameIsFileName | src/pages/UploadView.tsx:148 | the name holds no slash of either kind and ends the path; a path not ending in a slash shows its own tail |
| UploadPage.PickedPath | src/pages/UploadView.tsx:147 | only a single, non-empty picked path goes on to processing |
| UploadPage.DropTarget | src/pages/UploadView.tsx:160-168 | the first dropped file, and only when its path is truthy |
| UploadPage.DropIgnoresLaterFiles | src/pages/UploadView.tsx:161-162 | files after the first make no difference |
| UploadPage.AfterProcessing | src/pages/UploadView.tsx:29-55 | processing ends idle. On success the store holds the new temp id, size text and name, and the preview decodes to the cached bytes. On failure the previous image is kept. |
| UploadPage.ProcessingToast | src/pages/UploadView.tsx:43-52 | "Image processed"/"Ready to upload" on success; otherwise the destructive "Processing failed" toast with the backend's error |
| UploadPage.AfterUpload | src/pages/UploadView.tsx:93-112 | the upload ends idle. On success the URL is set; on failure the previous URL is kept. The processed image is kept either way. |
| UploadPage.UploadToast | src/pages/UploadView.tsx:101-110 | "Upload successful" on success; otherwise the destructive "Upload failed" toast with the backend's error |
| UploadPage.UploadMovesToCompleted | src/pages/UploadView.tsx:99-185 | a successful upload with a non-empty URL shows the completed screen; a failure leaves the screen as it was |
| UploadPage.ResetShowsIdle | src/pages/UploadView.tsx:180-183 | starting over always shows the drop zone |
| UploadPage.R2UrlIsTruthy | src-tauri/src/uploaders/r2.rs:69 | an R2 URL that comes back is never empty |
| UploadPage.UploadView.HandOff | src/pages/UploadView.tsx:89-97 | the hand-off invariant: it holds trivially with no image or with a truthy URL; on the ready screen it means the held temp id is in the backend cache, which `upload_image` looks up (upload_cmds.rs:21-27) |
| UploadPage.UploadView.constructor | src/pages/UploadView.tsx:24-25 | the provider starts as "cloudinary" and nothing is copied |
| UploadPage.UploadView.FinishProcessing | src/pages/UploadView.tsx:36-52 | stores the reply's temp id, preview and size text under the given name, or raises the failure toast |
| UploadPage.UploadView.HandleProcessImage | src/pages/UploadView.tsx:27-56 | the store is `AfterProcessing` of the backend's outcome, and the cache gains the entry exactly on success; preserves the hand-off invariant |
| UploadPage.UploadView.HandleProcessClipboard | src/pages/UploadView.tsx:58-87 | the same as processing a file, with the clipboard outcome and the name "clipboard"; preserves the hand-off invariant |
| UploadPage.UploadView.HandleUpload | src/pages/UploadView.tsx:89-114 | with no image, nothing happens. Otherwise the store is `AfterUpload` of `upload_image`'s reply for the held temp id and the chosen provider, and the table and cache change as `upload_image` says. A failure, or a success with a non-empty URL, preserves the hand-off invariant. |
| UploadPage.UploadView.HandleCopyUrl | src/pages/UploadView.tsx:116-135 | with a falsy URL, nothing happens. A successful write sets the check mark, starts a timer and raises "Copied". A failed write raises "Copy failed". |
| UploadPage.UploadView.CopyTimerElapsed | src/pages/UploadView.tsx:122 | the check mark goes |
| UploadPage.UploadView.HandleReset | src/pages/UploadView.tsx:180-183 | the store is `ResetUpload` of the old one and the mark goes; the drop zone shows and the invariant holds; the cache is not touched |
| UploadPage.UploadView.SelectProvider | src/pages/UploadView.tsx:239-258 | the provider is one of the two choices |
| UploadPage.UploadView.HandleFileDialog | src/pages/UploadView.tsx:137-158 | a dialog error raises "Error". A cancel or a non-string answer does nothing. A picked path is processed under its display name, and the cache changes as processing says. |
| UploadPage.UploadView.OnDrop | src/pages/UploadView.tsx:160-169 | the drop target is processed under the file's own name, and the cache changes as processing says; otherwise nothing changes |
| HistoryPage.ListingMirrorsTable | src/pages/HistoryView.tsx:17-20 | the stored list shows exactly the table's ids, one entry per row, with ids unique |
| HistoryPage.ProviderLabel | src/pages/HistoryView.tsx:93 | "Cloudinary" exactly for "cloudinary"; any other name reads "Cloudflare R2" |
| HistoryPage.RenderCard | src/pages/HistoryView.tsx:79-126 | a card shows its entry's id, name, URL and time in milliseconds. It has a thumbnail exactly when one is non-empty, and a check mark exactly when its id is the copied one. |
| HistoryPage.RenderCards | src/pages/HistoryView.tsx:78-127 | one card per entry, in order |
| HistoryPage.RenderPage | src/pages/HistoryView.tsx:67-130 | the empty message exactly for an empty list; otherwise every entry, in order, as a card |
| HistoryPage.AtMostOneCopied | src/pages/HistoryView.tsx:111-115 | with unique ids, at most one card shows the check mark |
| HistoryPage.LoadFailedToast | src/pages/HistoryView.tsx:22-26 | a failed load raises the destructive "Failed to load history" toast with the backend's error |
| HistoryPage.DeleteError | src-tauri/src/commands/history_cmds.rs:18-19 | the open error as is, or "Failed to delete history: " and SQLite's message |
| HistoryPage.HistoryView.constructor | src/pages/HistoryView.tsx:13-15 | mounting loads the history once, as `LoadHistory` does |
| HistoryPage.HistoryView.LoadHistory | src/pages/HistoryView.tsx:17-28 | on success the stored list is the table's listing; on failure the list is kept and "Failed to load history" is raised |
| HistoryPage.HistoryView.HandleCopy | src/pages/HistoryView.tsx:30-47 | a successful write marks the entry, starts a timer and raises "Copied"; a failed one raises "Copy failed" |
| HistoryPage.HistoryView.CopyTimerElapsed | src/pages/HistoryView.tsx:34 | the mark is cleared whichever entry holds it, even a newer copy's |
| HistoryPage.HistoryView.HandleDelete | src/pages/HistoryView.tsx:49-65 | a failed delete changes nothing and raises "Delete failed". Otherwise the row goes, the list is reloaded and "Deleted" is raised, even after a failed reload. After a full success the list no longer shows the id. |
| Wire.SerializeHistoryItem | src-tauri/src/models.rs:46-54 | the keys serde writes are the Rust field names |
| Wire.SerializeHistoryItemCamel | src-tauri/src/models.rs:46-54 | with camelCase renaming, the keys are the frontend's property names |
| Wire.ReadHistoryItem | src/state/appStore.ts:10-17 | an object is a frontend entry exactly when every declared property is present with its type |
| Wire.AsWrittenPropertiesUndefined | src/pages/HistoryView.tsx:80-96 | as written, `originalName`, `createdAt` and `thumbnailBase64` are undefined on the received object; `id` and `url` arrive |
| Wire.CamelRoundTrip | src/state/appStore.ts:10-17 | with camelCase renaming, the frontend reads back all six fields |
| Wire.Receive | src/pages/HistoryView.tsx:19-20 | with the camelCase fix applied, the stored list has one entry per row, in order, with the row's values |
| Wire.ReceiveKeepsIdsUnique | src/pages/HistoryView.tsx:78-79 | receiving keeps ids unique, so React keys stay distinct |

## Left out

- The image codec (decode, resize, WebP encode, thumbnail) and the size text: their results are inputs of each command, because the model has no images or floating point.
- Configuration loading (`config_manager.rs`): only its outcome is modelled, and only the R2 public domain of its contents.
- The Cloudinary uploader: its answer is an input. Its network and signing code is not part of this model.
- The S3 client and its credentials: only `put_object`'s success or failure is modelled.
- UUIDs and the clock are inputs, so nothing stops two draws from colliding. A repeated row id is modelled as the primary-key failure.
- The cache's `Mutex` and the interleaving of async commands and handlers: each handler runs to completion. The `isProcessing`/`isUploading` flags are modelled only as the values they end with.
- Disabled buttons are not modelled: every handler may be called at any time.
- The `as u32` casts of the clipboard dimensions at image_cmds.rs:60 are not modelled. Widths are unbounded naturals, so a wrap-around on huge images is not captured.
- Database opening: its failures (directory, file, table creation) are one input, the message passed on.
- Insert failures other than the primary key (a locked or read-only file) are an input.
- The order of rows with equal `created_at` is SQLite's choice. The model keeps insertion order for ties.
- IPC failures of `invoke` itself are not modelled. A command's `Err(String)` reaches the page as that string.
- The react-dropzone accept filter and the dialog's extension filter are not modelled; they are user-interface filtering outside the hand-off.
- The dropzone's `multiple: false` (src/pages/UploadView.tsx:176) is not modelled. With it, react-dropzone rejects a drop of several files, so `acceptedFiles` holds at most one. `UploadPage.DropIgnoresLaterFiles` therefore describes the handler, not what a user who drops two files sees.
- Dates are kept as milliseconds and are not formatted with `toLocaleString`.
- Toasts are a list kept by each page. The toast component, `Toaster.tsx`, is not part of this model.
- The settings page, `config_cmds.rs`, `main.rs` and the command registration are not part of this model.
- Wire.Receive: models the history reply with `#[serde(rename_all = "camelCase")]` applied to `HistoryItem` (the corrected half of "## Findings"). As written, the page stores objects without `originalName`, `createdAt` and `thumbnailBase64`. That as-written path is stated only by `Wire.AsWrittenPropertiesUndefined`, not carried through the page.
- HistoryPage.Listing: built on `Wire.Receive`, so `HistoryPage.HistoryView.LoadHistory`, `HandleDelete`, the constructor and `RenderCard` all run on the corrected serialization. As written, the cards show no name, "Invalid Date" and no thumbnail.

## Findings

| source | as written | input that shows it | evidently intended | confidence | as-written member | corrected member |
|---|---|---|---|---|---|---|
| src-tauri/src/models.rs:46-54 with src/pages/HistoryView.tsx:80-96 | `HistoryItem` derives `Serialize` with no `rename_all`, so `get_history` sends `original_name`, `created_at`, `thumbnail_base64`; the page reads `item.originalName`, `item.createdAt`, `item.thumbnailBase64` | any uploaded row, e.g. id "a", provider "r2", created_at 1700000000: the card shows no name, "Invalid Date" and no thumbnail | `#[serde(rename_all = "camelCase")]` on `HistoryItem`, so all six fields arrive | not executed | Wire.AsWrittenPropertiesUndefined | Wire.CamelRoundTrip |
