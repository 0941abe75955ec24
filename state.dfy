/** The backend's shared state (src-tauri/src/state.rs): the cache of processed
    images waiting for upload, keyed by temp id. */
module State {
  import opened Models

  class AppState {
    var imageCache: map<string, Bytes>

    constructor ()
      ensures imageCache == map[]
    {
      imageCache := map[];
    }
  }
}
