/** The upload page (src/pages/UploadView.tsx): pick or drop or paste an image,
    have the backend process it, choose a provider, upload, copy the URL, start
    over. Each handler runs to completion; a backend call is the command's
    method on the shared cache and table. */
module UploadPage {
  import opened Wrappers
  import opened Models
  import opened Toasts
  import Text
  import Base64
  import R2
  import AppStore
  import State
  import Database
  import ImageCmds
  import UploadCmds

  /** The provider chosen when the page opens. */
  const DefaultProvider := "cloudinary"

  /** The characters the page cuts a path at: both slash kinds. */
  const PathSeparators: set<char> := {'/', '\\'}

  /** JavaScript truthiness of a `string | null`: present and not empty. */
  predicate Truthy(s: Option<string>) {
    s.Some? && s.value != ""
  }

  /** The three screens of the page. */
  datatype View = IdleView | ReadyView | CompletedView

  /** Lines 185, 214 and 283: a truthy URL shows the completed screen whatever
      else is set; otherwise a processed image shows the ready screen; otherwise
      the drop zone. */
  function SelectView(processedImage: Option<AppStore.ProcessedImage>, uploadedUrl: Option<string>): (v: View)
    ensures v == CompletedView <==> Truthy(uploadedUrl)
    ensures v == ReadyView <==> !Truthy(uploadedUrl) && processedImage.Some?
    ensures v == IdleView <==> !Truthy(uploadedUrl) && processedImage.None?
  {
    if Truthy(uploadedUrl) then CompletedView
    else if processedImage.Some? then ReadyView
    else IdleView
  }

  /** Line 148: the last piece of the path cut at either slash, or `"unknown"`
      when that piece is empty. */
  function DisplayName(path: string): (name: string)
    ensures name != ""
    ensures var a := Text.AfterLast(path, PathSeparators); name == if a == "" then "unknown" else a
  {
    var pieces := Text.Split(path, PathSeparators);
    var last := pieces[|pieces| - 1];
    Text.LastPieceIsAfterLast(path, PathSeparators);
    assert last == Text.AfterLast(path, PathSeparators);
    if last == "" then "unknown" else last
  }

  /** The display name is the file name proper: it holds no slash of either
      kind and ends the path; only a path ending in a slash (or empty) gives
      `"unknown"`. */
  lemma DisplayNameIsFileName(path: string)
    ensures var name := DisplayName(path);
      && (name == "unknown" <==> Text.AfterLast(path, PathSeparators) == "" || Text.AfterLast(path, PathSeparators) == "unknown")
      && (name != "unknown" ==> Text.NoSep(name, PathSeparators) && path[|path| - |name|..] == name)
      && (path != [] && path[|path| - 1] !in PathSeparators ==> name == Text.AfterLast(path, PathSeparators))
  {
    var a := Text.AfterLast(path, PathSeparators);
    if path != [] && path[|path| - 1] !in PathSeparators {
      assert a == Text.AfterLast(path[..|path| - 1], PathSeparators) + [path[|path| - 1]];
    }
  }

  /** What the file dialog answers. */
  datatype DialogResult = Cancelled | Picked(path: string) | PickedMany(paths: seq<string>) | DialogFailed(error: string)

  /** Line 147: only a single non-empty path goes on to processing. */
  function PickedPath(d: DialogResult): (r: Option<string>)
    ensures r.Some? <==> d.Picked? && d.path != ""
    ensures r.Some? ==> r.value == d.path
  {
    if d.Picked? && d.path != "" then Some(d.path) else None
  }

  /** A dropped file: its name and the path Tauri attaches, if any. */
  datatype DroppedFile = DroppedFile(name: string, path: Option<string>)

  /** Lines 161-166: the first dropped file, when it has a non-empty path. */
  function DropTarget(files: seq<DroppedFile>): (r: Option<(string, string)>)
    ensures r.Some? <==> |files| > 0 && Truthy(files[0].path)
    ensures r.Some? ==> r.value == (files[0].path.value, files[0].name)
  {
    if |files| > 0 && Truthy(files[0].path) then Some((files[0].path.value, files[0].name)) else None
  }

  /** Files after the first are ignored. */
  lemma DropIgnoresLaterFiles(files: seq<DroppedFile>, more: seq<DroppedFile>)
    requires |files| > 0
    ensures DropTarget(files + more) == DropTarget(files)
  {
    assert (files + more)[0] == files[0];
  }

  /** The store after a processing run whose backend outcome is `outcome`. */
  function AfterProcessing(before: AppStore.Fields, outcome: Result<Bytes, string>, env: ImageCmds.ProcessEnv,
                           originalName: string): (after: AppStore.Fields)
    ensures !after.isProcessing
    ensures after.uploadedUrl == before.uploadedUrl && after.history == before.history
    ensures after.isUploading == before.isUploading
    ensures outcome.Failure? ==> after.processedImage == before.processedImage
    ensures outcome.Success? ==>
      && after.processedImage.Some?
      && after.processedImage.value.tempId == env.tempId
      && after.processedImage.value.sizeInfo == env.sizeInfo
      && after.processedImage.value.originalName == originalName
      && Base64.Decode(after.processedImage.value.previewBase64) == Some(outcome.value)
  {
    match outcome
    case Success(bytes) =>
      Base64.DecodeEncode(bytes);
      var reply := ImageCmds.Reply(bytes, env);
      before.(processedImage := Some(AppStore.ProcessedImage(reply.tempId, reply.previewBase64, reply.sizeInfo, originalName)),
              isProcessing := false)
    case Failure(_) =>
      before.(isProcessing := false)
  }

  /** The toast a processing run ends with. */
  function ProcessingToast(outcome: Result<Bytes, string>): (t: Toast)
    ensures t.variant == Plain <==> outcome.Success?
    ensures outcome.Success? ==> t == Toast("Image processed", "Ready to upload", Plain)
    ensures outcome.Failure? ==> t == Toast("Processing failed", outcome.error, Destructive)
  {
    if outcome.Success? then Toast("Image processed", "Ready to upload", Plain)
    else Toast("Processing failed", outcome.error, Destructive)
  }

  /** The store after an upload whose backend reply is `reply`. The processed
      image is kept in both cases. */
  function AfterUpload(before: AppStore.Fields, reply: Result<string, string>): (after: AppStore.Fields)
    ensures !after.isUploading
    ensures after.processedImage == before.processedImage
    ensures after.history == before.history && after.isProcessing == before.isProcessing
    ensures reply.Success? ==> after.uploadedUrl == Some(reply.value)
    ensures reply.Failure? ==> after.uploadedUrl == before.uploadedUrl
  {
    match reply
    case Success(url) => before.(uploadedUrl := Some(url), isUploading := false)
    case Failure(_) => before.(isUploading := false)
  }

  /** The toast an upload ends with. */
  function UploadToast(reply: Result<string, string>): (t: Toast)
    ensures t.variant == Plain <==> reply.Success?
    ensures reply.Success? ==> t == Toast("Upload successful", "Image uploaded to cloud", Plain)
    ensures reply.Failure? ==> t == Toast("Upload failed", reply.error, Destructive)
  {
    if reply.Success? then Toast("Upload successful", "Image uploaded to cloud", Plain)
    else Toast("Upload failed", reply.error, Destructive)
  }

  /** A successful upload with a non-empty URL moves the page to the completed
      screen; a failed one leaves the screen as it was. */
  lemma UploadMovesToCompleted(before: AppStore.Fields, reply: Result<string, string>)
    ensures reply.Success? && reply.value != "" ==>
      SelectView(AfterUpload(before, reply).processedImage, AfterUpload(before, reply).uploadedUrl) == CompletedView
    ensures reply.Failure? ==>
      SelectView(AfterUpload(before, reply).processedImage, AfterUpload(before, reply).uploadedUrl)
        == SelectView(before.processedImage, before.uploadedUrl)
  {
  }

  /** Starting over always returns to the drop zone. */
  lemma ResetShowsIdle(f: AppStore.Fields)
    ensures SelectView(AppStore.ResetUpload(f).processedImage, AppStore.ResetUpload(f).uploadedUrl) == IdleView
  {
  }

  /** An R2 upload that succeeds has a non-empty URL, so the page leaves the
      ready screen. */
  lemma R2UrlIsTruthy(config: Config, env: UploadCmds.UploadEnv)
    ensures var r := UploadCmds.ProviderUrl("r2", config, env); r.Success? ==> r.value != ""
  {
    var r := UploadCmds.ProviderUrl("r2", config, env);
    if r.Success? {
      var key := R2.ObjectKey(env.r2KeyId, UploadCmds.UploadFileName);
      assert |r.value| == |R2.TrimEndSlashes(config.r2PublicDomain)| + 1 + |key|;
    }
  }

  class UploadView {
    const store: AppStore.Store
    const state: State.AppState
    const db: Database.Database
    var selectedProvider: string
    var copied: bool
    /** Copy-indicator timers started and not yet fired. */
    var pendingCopyTimers: nat
    var toasts: seq<Toast>

    /** The table keeps its key and the provider is one of the two choices. */
    ghost predicate Valid()
      reads this, db
    {
      db.Valid() && (selectedProvider == "cloudinary" || selectedProvider == "r2")
    }

    /** The hand-off invariant: while the ready screen shows an image, its temp
        id is still in the backend cache, so "Upload to Cloud" can find it. */
    ghost predicate HandOff()
      reads this, store, state
      ensures store.processedImage.None? ==> HandOff()
      ensures Truthy(store.uploadedUrl) ==> HandOff()
      ensures !Truthy(store.uploadedUrl) && store.processedImage.Some? ==>
        (HandOff() <==> store.processedImage.value.tempId in state.imageCache)
    {
      SelectView(store.processedImage, store.uploadedUrl) == ReadyView ==>
        store.processedImage.value.tempId in state.imageCache
    }

    /** The page mounted on the shared store, cache and table. */
    constructor (store: AppStore.Store, state: State.AppState, db: Database.Database)
      requires db.Valid()
      ensures Valid()
      ensures this.store == store && this.state == state && this.db == db
      ensures selectedProvider == DefaultProvider && !copied && pendingCopyTimers == 0 && toasts == []
    {
      this.store := store;
      this.state := state;
      this.db := db;
      selectedProvider := DefaultProvider;
      copied := false;
      pendingCopyTimers := 0;
      toasts := [];
    }

    /** Records a processing reply in the store and raises its toast. */
    method FinishProcessing(reply: Result<ProcessedImageResult, string>, originalName: string)
      modifies this, store
      ensures selectedProvider == old(selectedProvider) && copied == old(copied)
      ensures pendingCopyTimers == old(pendingCopyTimers)
      ensures reply.Success? ==>
        && store.Snapshot() == old(store.Snapshot()).(processedImage :=
             Some(AppStore.ProcessedImage(reply.value.tempId, reply.value.previewBase64, reply.value.sizeInfo, originalName)))
        && toasts == old(toasts) + [Toast("Image processed", "Ready to upload", Plain)]
      ensures reply.Failure? ==>
        && store.Snapshot() == old(store.Snapshot())
        && toasts == old(toasts) + [Toast("Processing failed", reply.error, Destructive)]
    {
      match reply {
        case Success(result) =>
          store.SetProcessedImage(Some(AppStore.ProcessedImage(result.tempId, result.previewBase64, result.sizeInfo, originalName)));
          toasts := toasts + [Toast("Image processed", "Ready to upload", Plain)];
        case Failure(e) =>
          toasts := toasts + [Toast("Processing failed", e, Destructive)];
      }
    }

    /** `handleProcessImage`: process the file at `filePath` and show it under
        `fileName`. */
    method HandleProcessImage(filePath: string, fileName: string, env: ImageCmds.ProcessEnv)
      requires Valid()
      modifies this, store, state
      ensures Valid()
      ensures selectedProvider == old(selectedProvider) && copied == old(copied)
      ensures pendingCopyTimers == old(pendingCopyTimers)
      ensures var outcome := ImageCmds.ProcessedFromFile(env);
        && store.Snapshot() == AfterProcessing(old(store.Snapshot()), outcome, env, fileName)
        && toasts == old(toasts) + [ProcessingToast(outcome)]
        && (outcome.Success? ==> state.imageCache == old(state.imageCache)[env.tempId := outcome.value])
        && (outcome.Failure? ==> state.imageCache == old(state.imageCache))
      ensures old(HandOff()) ==> HandOff()
    {
      store.SetIsProcessing(true);
      var reply := ImageCmds.ProcessImageFromFile(state, filePath, env);
      FinishProcessing(reply, fileName);
      store.SetIsProcessing(false);
    }

    /** `handleProcessClipboard`: process the clipboard's image, named
        `"clipboard"`. */
    method HandleProcessClipboard(clip: ImageCmds.ClipboardEnv, env: ImageCmds.ProcessEnv)
      requires Valid()
      modifies this, store, state
      ensures Valid()
      ensures selectedProvider == old(selectedProvider) && copied == old(copied)
      ensures pendingCopyTimers == old(pendingCopyTimers)
      ensures var outcome := ImageCmds.ProcessedFromClipboard(clip, env);
        && store.Snapshot() == AfterProcessing(old(store.Snapshot()), outcome, env, "clipboard")
        && toasts == old(toasts) + [ProcessingToast(outcome)]
        && (outcome.Success? ==> state.imageCache == old(state.imageCache)[env.tempId := outcome.value])
        && (outcome.Failure? ==> state.imageCache == old(state.imageCache))
      ensures old(HandOff()) ==> HandOff()
    {
      store.SetIsProcessing(true);
      var reply := ImageCmds.ProcessImageFromClipboard(state, clip, env);
      FinishProcessing(reply, "clipboard");
      store.SetIsProcessing(false);
    }

    /** `handleUpload`: with no processed image, nothing; otherwise upload its
        temp id to the selected provider. */
    method HandleUpload(env: UploadCmds.UploadEnv)
      requires Valid()
      modifies this, store, state, db
      ensures Valid()
      ensures selectedProvider == old(selectedProvider) && copied == old(copied)
      ensures pendingCopyTimers == old(pendingCopyTimers)
      ensures old(store.processedImage).None? ==>
        && store.Snapshot() == old(store.Snapshot()) && toasts == old(toasts)
        && state.imageCache == old(state.imageCache) && db.rows == old(db.rows)
      ensures old(store.processedImage).Some? ==>
        var tempId := old(store.processedImage).value.tempId;
        var reply := UploadCmds.UploadReply(old(state.imageCache), old(db.rows), tempId, selectedProvider, env);
        && store.Snapshot() == AfterUpload(old(store.Snapshot()), reply)
        && toasts == old(toasts) + [UploadToast(reply)]
        && (reply.Success? ==>
             && db.rows == old(db.rows) + [UploadCmds.HistoryRow(selectedProvider, reply.value, env)]
             && state.imageCache == old(state.imageCache) - {tempId})
        && (reply.Failure? ==> db.rows == old(db.rows) && state.imageCache == old(state.imageCache))
      ensures old(HandOff()) && old(store.processedImage).Some? ==>
        var reply := UploadCmds.UploadReply(old(state.imageCache), old(db.rows),
                                            old(store.processedImage).value.tempId, selectedProvider, env);
        reply.Success? ==> reply.value != "" ==> HandOff()
      ensures old(HandOff()) && old(store.processedImage).Some? ==>
        var reply := UploadCmds.UploadReply(old(state.imageCache), old(db.rows),
                                            old(store.processedImage).value.tempId, selectedProvider, env);
        reply.Failure? ==> HandOff()
    {
      if store.processedImage.None? {
        return;
      }
      var tempId := store.processedImage.value.tempId;
      store.SetIsUploading(true);
      var r := UploadCmds.UploadImage(state, db, tempId, selectedProvider, env);
      match r {
        case Success(result) =>
          store.SetUploadedUrl(Some(result.url));
          toasts := toasts + [Toast("Upload successful", "Image uploaded to cloud", Plain)];
        case Failure(e) =>
          toasts := toasts + [Toast("Upload failed", e, Destructive)];
      }
      store.SetIsUploading(false);
    }

    /** `handleCopyUrl`: with a truthy URL, write it to the clipboard (`writeFault`
        is the clipboard's refusal, if any); on success show the check mark and
        start a timer that clears it. */
    method HandleCopyUrl(writeFault: Option<string>)
      modifies this
      ensures selectedProvider == old(selectedProvider) && unchanged(store, state, db)
      ensures !Truthy(store.uploadedUrl) ==>
        copied == old(copied) && pendingCopyTimers == old(pendingCopyTimers) && toasts == old(toasts)
      ensures Truthy(store.uploadedUrl) && writeFault.None? ==>
        && copied && pendingCopyTimers == old(pendingCopyTimers) + 1
        && toasts == old(toasts) + [Toast("Copied", "URL copied to clipboard", Plain)]
      ensures Truthy(store.uploadedUrl) && writeFault.Some? ==>
        && copied == old(copied) && pendingCopyTimers == old(pendingCopyTimers)
        && toasts == old(toasts) + [Toast("Copy failed", writeFault.value, Destructive)]
    {
      if !Truthy(store.uploadedUrl) {
        return;
      }
      if writeFault.None? {
        copied := true;
        pendingCopyTimers := pendingCopyTimers + 1;
        toasts := toasts + [Toast("Copied", "URL copied to clipboard", Plain)];
      } else {
        toasts := toasts + [Toast("Copy failed", writeFault.value, Destructive)];
      }
    }

    /** One of the 2-second copy timers fires: the check mark goes. */
    method CopyTimerElapsed()
      requires pendingCopyTimers > 0
      modifies this
      ensures !copied && pendingCopyTimers == old(pendingCopyTimers) - 1
      ensures selectedProvider == old(selectedProvider) && toasts == old(toasts)
    {
      copied := false;
      pendingCopyTimers := pendingCopyTimers - 1;
    }

    /** `handleReset` ("Upload Another Image" or "Cancel"): clear the image and
        the URL and the check mark. The backend cache is not touched. */
    method HandleReset()
      requires Valid()
      modifies this, store
      ensures Valid()
      ensures store.Snapshot() == AppStore.ResetUpload(old(store.Snapshot()))
      ensures !copied && selectedProvider == old(selectedProvider)
      ensures pendingCopyTimers == old(pendingCopyTimers) && toasts == old(toasts)
      ensures SelectView(store.processedImage, store.uploadedUrl) == IdleView
      ensures HandOff()
    {
      store.ResetUploadState();
      copied := false;
    }

    /** A radio button picks the provider. */
    method SelectProvider(p: string)
      requires Valid()
      requires p == "cloudinary" || p == "r2"
      modifies this
      ensures Valid() && selectedProvider == p
      ensures copied == old(copied) && pendingCopyTimers == old(pendingCopyTimers) && toasts == old(toasts)
    {
      selectedProvider := p;
    }

    /** `handleFileDialog`: a picked path is processed under its display name; a
        cancelled or multiple answer does nothing; a dialog error is shown. */
    method HandleFileDialog(dialog: DialogResult, env: ImageCmds.ProcessEnv)
      requires Valid()
      modifies this, store, state
      ensures Valid()
      ensures selectedProvider == old(selectedProvider) && copied == old(copied)
      ensures pendingCopyTimers == old(pendingCopyTimers)
      ensures dialog.DialogFailed? ==>
        && store.Snapshot() == old(store.Snapshot()) && state.imageCache == old(state.imageCache)
        && toasts == old(toasts) + [Toast("Error", dialog.error, Destructive)]
      ensures !dialog.DialogFailed? && PickedPath(dialog).None? ==>
        store.Snapshot() == old(store.Snapshot()) && state.imageCache == old(state.imageCache) && toasts == old(toasts)
      ensures PickedPath(dialog).Some? ==>
        var outcome := ImageCmds.ProcessedFromFile(env);
        && store.Snapshot() == AfterProcessing(old(store.Snapshot()), outcome, env, DisplayName(dialog.path))
        && toasts == old(toasts) + [ProcessingToast(outcome)]
        && (outcome.Success? ==> state.imageCache == old(state.imageCache)[env.tempId := outcome.value])
        && (outcome.Failure? ==> state.imageCache == old(state.imageCache))
      ensures old(HandOff()) ==> HandOff()
    {
      if dialog.DialogFailed? {
        toasts := toasts + [Toast("Error", dialog.error, Destructive)];
        return;
      }
      var path := PickedPath(dialog);
      if path.Some? {
        HandleProcessImage(path.value, DisplayName(path.value), env);
      }
    }

    /** `onDrop`: the first dropped file with a path is processed under its
        own name. */
    method OnDrop(files: seq<DroppedFile>, env: ImageCmds.ProcessEnv)
      requires Valid()
      modifies this, store, state
      ensures Valid()
      ensures selectedProvider == old(selectedProvider) && copied == old(copied)
      ensures pendingCopyTimers == old(pendingCopyTimers)
      ensures DropTarget(files).None? ==>
        store.Snapshot() == old(store.Snapshot()) && state.imageCache == old(state.imageCache) && toasts == old(toasts)
      ensures DropTarget(files).Some? ==>
        var outcome := ImageCmds.ProcessedFromFile(env);
        && store.Snapshot() == AfterProcessing(old(store.Snapshot()), outcome, env, files[0].name)
        && toasts == old(toasts) + [ProcessingToast(outcome)]
        && (outcome.Success? ==> state.imageCache == old(state.imageCache)[env.tempId := outcome.value])
        && (outcome.Failure? ==> state.imageCache == old(state.imageCache))
      ensures old(HandOff()) ==> HandOff()
    {
      var target := DropTarget(files);
      if target.Some? {
        HandleProcessImage(target.value.0, target.value.1, env);
      }
    }
  }
}
