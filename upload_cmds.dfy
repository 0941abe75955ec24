/** The upload command (src-tauri/src/commands/upload_cmds.rs): take the cached
    image for a temp id, send it to the chosen provider, record the upload in
    the history table, and only then drop the cache entry. */
module UploadCmds {
  import opened Wrappers
  import opened Models
  import Base64
  import R2
  import State
  import Database

  /** The file name the command hands to the uploaders and stores in history. */
  const UploadFileName := "image.webp"

  /** Answers of the collaborators for one upload: the configuration, the
      Cloudinary uploader, the UUID for the R2 key and `put_object`'s failure
      (if any), the thumbnail maker, opening the database and SQLite's own
      failure on insert (if any), the UUID for the history row, and the clock. */
  datatype UploadEnv = UploadEnv(
    config: Result<Config, string>,
    cloudinary: Result<string, string>,
    r2KeyId: string,
    r2PutFault: Option<string>,
    thumbnail: Result<Bytes, string>,
    dbOpen: Option<string>,
    insertFault: Option<string>,
    rowId: string,
    now: int)

  /** Lines 34-54: the URL the named provider gives, or its error;
      any other name is refused. */
  function ProviderUrl(provider: string, config: Config, env: UploadEnv): (r: Result<string, string>)
    ensures provider == "cloudinary" ==> r == env.cloudinary
    ensures provider == "r2" ==>
      r == R2.Upload(config.r2PublicDomain, env.r2KeyId, UploadFileName, env.r2PutFault)
    ensures provider != "cloudinary" && provider != "r2" ==> r == Failure("Invalid provider")
  {
    match provider
    case "cloudinary" => env.cloudinary
    case "r2" => R2.Upload(config.r2PublicDomain, env.r2KeyId, UploadFileName, env.r2PutFault)
    case _ => Failure("Invalid provider")
  }

  /** The history row written for a successful upload. */
  function HistoryRow(provider: string, url: string, env: UploadEnv): (row: HistoryItem)
    requires env.thumbnail.Success?
    ensures row.id == env.rowId && row.provider == provider && row.url == url && row.createdAt == env.now
    ensures row.originalName == UploadFileName
    ensures Base64.Decode(row.thumbnailBase64) == Some(env.thumbnail.value)
  {
    Base64.DecodeEncode(env.thumbnail.value);
    HistoryItem(env.rowId, provider, UploadFileName, url, env.now, Base64.Encode(env.thumbnail.value))
  }

  /** Everything the upload needs goes right. */
  predicate Succeeds(cache: map<string, Bytes>, rows: seq<HistoryItem>, tempId: string, provider: string, env: UploadEnv) {
    && tempId in cache
    && env.config.Success?
    && ProviderUrl(provider, env.config.value, env).Success?
    && env.thumbnail.Success?
    && env.dbOpen.None?
    && env.insertFault.None?
    && !Database.HasId(rows, env.rowId)
  }

  /** What `upload_image` answers, given the cache and table it starts from:
      the URL, or the first error met. */
  function UploadReply(cache: map<string, Bytes>, rows: seq<HistoryItem>, tempId: string, provider: string, env: UploadEnv)
    : (r: Result<string, string>)
    ensures tempId !in cache ==> r == Failure("Image not found in cache")
    ensures tempId in cache && env.config.Failure? ==> r == Failure(env.config.error)
    ensures tempId in cache && env.config.Success? && provider != "cloudinary" && provider != "r2" ==>
      r == Failure("Invalid provider")
    ensures r.Success? <==> Succeeds(cache, rows, tempId, provider, env)
    ensures r.Success? ==> Success(r.value) == ProviderUrl(provider, env.config.value, env)
  {
    if tempId !in cache then Failure("Image not found in cache")
    else if env.config.Failure? then Failure(env.config.error)
    else match ProviderUrl(provider, env.config.value, env)
      case Failure(e) => Failure(e)
      case Success(url) =>
        if env.thumbnail.Failure? then Failure(env.thumbnail.error)
        else if env.dbOpen.Some? then Failure(env.dbOpen.value)
        else if env.insertFault.Some? then Failure("Failed to insert history: " + env.insertFault.value)
        else if Database.HasId(rows, env.rowId) then Failure("Failed to insert history: " + Database.PrimaryKeyViolation)
        else Success(url)
  }

  /** `upload_image`. A failure at any step leaves the cache entry and the table
      as they were, so the same temp id can be sent again; on success the row
      is in the table before the entry leaves the cache. */
  method UploadImage(state: State.AppState, db: Database.Database, tempId: string, provider: string, env: UploadEnv)
    returns (r: Result<UploadResult, string>)
    requires db.Valid()
    modifies state, db
    ensures db.Valid()
    ensures var reply := UploadReply(old(state.imageCache), old(db.rows), tempId, provider, env);
      && (reply.Success? ==>
           && r == Success(UploadResult(reply.value))
           && db.rows == old(db.rows) + [HistoryRow(provider, reply.value, env)]
           && state.imageCache == old(state.imageCache) - {tempId})
      && (reply.Failure? ==>
           && r == Failure(reply.error)
           && db.rows == old(db.rows)
           && state.imageCache == old(state.imageCache))
  {
    if tempId !in state.imageCache {
      return Failure("Image not found in cache");
    }
    var imageData := state.imageCache[tempId];
    if env.config.Failure? {
      return Failure(env.config.error);
    }
    var config := env.config.value;
    var uploaded := ProviderUrl(provider, config, env);
    if uploaded.Failure? {
      return Failure(uploaded.error);
    }
    var url := uploaded.value;
    if env.thumbnail.Failure? {
      return Failure(env.thumbnail.error);
    }
    var historyItem := HistoryRow(provider, url, env);
    if env.dbOpen.Some? {
      return Failure(env.dbOpen.value);
    }
    var inserted := db.InsertHistory(historyItem, env.insertFault);
    if inserted.Failure? {
      return Failure(inserted.error);
    }
    state.imageCache := state.imageCache - {tempId};
    r := Success(UploadResult(url));
  }
}
