/** The processing commands (src-tauri/src/commands/image_cmds.rs): turn an image
    from a file or from the clipboard into WebP bytes, keep them in the cache
    under a fresh temp id, and return that id with a preview. The image codec,
    the configuration file, the clipboard and the UUID generator are
    collaborators: their answers are the fields of `ProcessEnv` and
    `ClipboardEnv`. */
module ImageCmds {
  import opened Wrappers
  import opened Models
  import Base64
  import State

  /** Answers of the collaborators for one run: loading the configuration, the
      image processor (decode, resize, WebP encode) on the input, the size text
      it reports for the result, and the UUID drawn for the temp id. */
  datatype ProcessEnv = ProcessEnv(
    config: Result<Config, string>,
    processed: Result<Bytes, string>,
    sizeInfo: string,
    tempId: string)

  /** What the clipboard hands over: dimensions and raw RGBA bytes. */
  datatype ClipboardImage = ClipboardImage(width: nat, height: nat, rgba: Bytes)

  /** Answers of the clipboard and of the PNG encoder for one clipboard run. */
  datatype ClipboardEnv = ClipboardEnv(
    access: Option<string>,
    image: Result<ClipboardImage, string>,
    pngEncode: Result<Bytes, string>)

  /** `RgbaImage::from_raw` accepts the buffer only when it holds four bytes for
      every pixel. */
  predicate FitsRgba(img: ClipboardImage)
    ensures FitsRgba(img) <==> img.width * img.height <= |img.rgba| / 4
  {
    img.width * img.height * 4 <= |img.rgba|
  }

  /** Lines 17-22: load the configuration, then process the file. */
  function ProcessedFromFile(env: ProcessEnv): (r: Result<Bytes, string>)
    ensures r.Success? <==> env.config.Success? && env.processed.Success?
    ensures r.Success? ==> r.value == env.processed.value
    ensures env.config.Failure? ==> r == Failure(env.config.error)
    ensures env.config.Success? && env.processed.Failure? ==> r == Failure(env.processed.error)
  {
    if env.config.Failure? then Failure(env.config.error)
    else if env.processed.Failure? then Failure(env.processed.error)
    else Success(env.processed.value)
  }

  /** Lines 48-78: reach the clipboard, take its image, rebuild it from the raw
      RGBA buffer, encode it as PNG, then continue as the file route does. */
  function ProcessedFromClipboard(clip: ClipboardEnv, env: ProcessEnv): (r: Result<Bytes, string>)
    ensures clip.access.Some? ==> r == Failure("Failed to access clipboard: " + clip.access.value)
    ensures clip.access.None? && clip.image.Failure? ==> r == Failure("No image in clipboard: " + clip.image.error)
    ensures clip.access.None? && clip.image.Success? && !FitsRgba(clip.image.value) ==>
      r == Failure("Failed to create image from clipboard data")
    ensures clip.access.None? && clip.image.Success? && FitsRgba(clip.image.value) && clip.pngEncode.Failure? ==>
      r == Failure("Failed to encode clipboard image: " + clip.pngEncode.error)
    ensures r.Success? <==>
      clip.access.None? && clip.image.Success? && FitsRgba(clip.image.value) && clip.pngEncode.Success? &&
      ProcessedFromFile(env).Success?
    ensures r.Success? ==> r == ProcessedFromFile(env)
  {
    if clip.access.Some? then Failure("Failed to access clipboard: " + clip.access.value)
    else if clip.image.Failure? then Failure("No image in clipboard: " + clip.image.error)
    else if !FitsRgba(clip.image.value) then Failure("Failed to create image from clipboard data")
    else if clip.pngEncode.Failure? then Failure("Failed to encode clipboard image: " + clip.pngEncode.error)
    else ProcessedFromFile(env)
  }

  /** The reply for processed bytes: base64 preview, size text, temp id. */
  function Reply(bytes: Bytes, env: ProcessEnv): (r: ProcessedImageResult)
    ensures r.tempId == env.tempId && r.sizeInfo == env.sizeInfo
    ensures Base64.Decode(r.previewBase64) == Some(bytes)
  {
    Base64.DecodeEncode(bytes);
    ProcessedImageResult(Base64.Encode(bytes), env.sizeInfo, env.tempId)
  }

  /** The common tail of both commands (lines 24-39 and 80-95): encode the
      preview, draw the id, insert into the cache, answer. */
  method StoreProcessed(state: State.AppState, outcome: Result<Bytes, string>, env: ProcessEnv)
    returns (r: Result<ProcessedImageResult, string>)
    modifies state
    ensures outcome.Failure? ==> r == Failure(outcome.error) && state.imageCache == old(state.imageCache)
    ensures outcome.Success? ==>
      && r == Success(Reply(outcome.value, env))
      && state.imageCache == old(state.imageCache)[env.tempId := outcome.value]
  {
    if outcome.Failure? {
      return Failure(outcome.error);
    }
    var processedBytes := outcome.value;
    var previewBase64 := Base64.Encode(processedBytes);
    var sizeInfo := env.sizeInfo;
    var tempId := env.tempId;
    state.imageCache := state.imageCache[tempId := processedBytes];
    r := Success(ProcessedImageResult(previewBase64, sizeInfo, tempId));
  }

  /** `process_image_from_file`. `path` is what the image processor opens; its
      answer is `env.processed`. */
  method ProcessImageFromFile(state: State.AppState, path: string, env: ProcessEnv)
    returns (r: Result<ProcessedImageResult, string>)
    modifies state
    ensures ProcessedFromFile(env).Failure? ==>
      r == Failure(ProcessedFromFile(env).error) && state.imageCache == old(state.imageCache)
    ensures ProcessedFromFile(env).Success? ==>
      && r == Success(Reply(env.processed.value, env))
      && state.imageCache == old(state.imageCache)[env.tempId := env.processed.value]
  {
    r := StoreProcessed(state, ProcessedFromFile(env), env);
  }

  /** `process_image_from_clipboard`. */
  method ProcessImageFromClipboard(state: State.AppState, clip: ClipboardEnv, env: ProcessEnv)
    returns (r: Result<ProcessedImageResult, string>)
    modifies state
    ensures ProcessedFromClipboard(clip, env).Failure? ==>
      r == Failure(ProcessedFromClipboard(clip, env).error) && state.imageCache == old(state.imageCache)
    ensures ProcessedFromClipboard(clip, env).Success? ==>
      && r == Success(Reply(env.processed.value, env))
      && state.imageCache == old(state.imageCache)[env.tempId := env.processed.value]
  {
    r := StoreProcessed(state, ProcessedFromClipboard(clip, env), env);
  }

  /** Inserting under an id the cache does not hold adds exactly one entry and
      keeps every other entry as it was. */
  lemma FreshInsertKeepsEntries(cache: map<string, Bytes>, tempId: string, bytes: Bytes)
    requires tempId !in cache
    ensures var after := cache[tempId := bytes];
      && after.Keys == cache.Keys + {tempId}
      && |after| == |cache| + 1
      && forall k :: k in cache ==> after[k] == cache[k]
  {
  }

  /** The preview decodes to the bytes stored in the cache. */
  lemma PreviewDecodesToCachedBytes(bytes: Bytes, env: ProcessEnv)
    ensures Base64.Decode(Reply(bytes, env).previewBase64) == Some(bytes)
  {
    Base64.DecodeEncode(bytes);
  }

  /** `greet`. */
  function Greet(name: string): (r: string)
    ensures |r| == |name| + 31
    ensures r[..7] == "Hello, " && r[7..7 + |name|] == name && r[7 + |name|..] == "! Welcome to OptiBridge."
  {
    "Hello, " + name + "! Welcome to OptiBridge."
  }

  /** Different names give different greetings. */
  lemma GreetInjective(a: string, b: string)
    requires Greet(a) == Greet(b)
    ensures a == b
  {
    assert a == Greet(a)[7..7 + |a|];
  }
}
