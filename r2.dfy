/** The string work of the R2 uploader (src-tauri/src/uploaders/r2.rs): the
    object key made from a fresh UUID and the file's extension, and the public
    URL made from the configured domain and that key. The S3 client and its
    `put_object` call are a collaborator whose only contribution is success or
    an error message. */
module R2 {
  import opened Wrappers
  import Text

  /** The default `unwrap_or` would use if `split('.')` had no last piece. */
  const FallbackExtension := "webp"

  /** The last element of a list, if any (`Iterator::last`). */
  function Last(pieces: seq<string>): (r: Option<string>)
    ensures r.Some? <==> |pieces| > 0
    ensures r.Some? ==> r.value == pieces[|pieces| - 1]
  {
    if pieces == [] then None else Some(pieces[|pieces| - 1])
  }

  /** `filename.split('.').last().unwrap_or("webp")`: the text after the last
      `.`, or the whole name when it has none. The fallback is never taken,
      because splitting always yields a piece. */
  function Extension(filename: string): (ext: string)
    ensures ext == Text.AfterLast(filename, {'.'})
  {
    Text.LastPieceIsAfterLast(filename, {'.'});
    match Last(Text.Split(filename, {'.'}))
    case Some(e) => e
    case None => FallbackExtension
  }

  /** The object key: the UUID, a dot, the extension. */
  function ObjectKey(keyId: string, filename: string): (key: string)
    ensures |key| > |keyId| && key[..|keyId|] == keyId && key[|keyId|] == '.'
    ensures key[|keyId| + 1..] == Text.AfterLast(filename, {'.'})
  {
    var ext := Extension(filename);
    JoinedParts(keyId, '.', ext);
    keyId + "." + ext
  }

  /** The parts of `a`, `c`, `b` put together can be read back. */
  lemma JoinedParts(a: string, c: char, b: string)
    ensures var j := a + [c] + b; |j| == |a| + 1 + |b| && j[..|a|] == a && j[|a|] == c && j[|a| + 1..] == b
  {
    var j := a + [c] + b;
    assert j[..|a|] == a;
    assert j[|a| + 1..] == b;
  }

  /** `trim_end_matches('/')`: `s` without its trailing slashes. */
  function TrimEndSlashes(s: string): (r: string)
    ensures |r| <= |s| && r == s[..|r|]
    ensures r == [] || r[|r| - 1] != '/'
    ensures forall k :: |r| <= k < |s| ==> s[k] == '/'
    decreases |s|
  {
    if s != [] && s[|s| - 1] == '/' then TrimEndSlashes(s[..|s| - 1]) else s
  }

  /** The public URL: the domain without trailing slashes, one slash, the key.
      Exactly one slash separates the two however many the domain ended with. */
  function PublicUrl(publicDomain: string, key: string): (url: string)
    ensures |url| == |TrimEndSlashes(publicDomain)| + 1 + |key|
    ensures url[|url| - |key|..] == key && url[|url| - |key| - 1] == '/'
    ensures url[..|url| - |key| - 1] == TrimEndSlashes(publicDomain)
    ensures |url| - |key| - 1 == 0 || url[|url| - |key| - 2] != '/'
    ensures publicDomain == url[..|url| - |key| - 1] + publicDomain[|url| - |key| - 1..]
  {
    TrimEndSlashes(publicDomain) + "/" + key
  }

  /** `R2Uploader::upload`: the key's public URL, or `"Upload failed: "` and the
      client's message when `put_object` fails (`putFault`). */
  function Upload(publicDomain: string, keyId: string, filename: string, putFault: Option<string>): (r: Result<string, string>)
    ensures putFault.Some? ==> r == Failure("Upload failed: " + putFault.value)
    ensures putFault.None? ==> r == Success(PublicUrl(publicDomain, ObjectKey(keyId, filename)))
  {
    if putFault.Some? then Failure("Upload failed: " + putFault.value)
    else Success(PublicUrl(publicDomain, ObjectKey(keyId, filename)))
  }

  /** Characters of the extension come from the file name. */
  lemma ExtensionFromName(filename: string, c: char)
    requires c !in filename
    ensures c !in Extension(filename)
  {
    var ext := Extension(filename);
    forall k | 0 <= k < |ext| ensures ext[k] != c {
      assert ext[k] == filename[|filename| - |ext| + k];
    }
  }

  /** The last `/`-separated segment of the URL is the stored object key, as
      long as neither the UUID nor the file name holds a slash. */
  lemma UrlEndsWithKey(publicDomain: string, keyId: string, filename: string)
    requires '/' !in keyId && '/' !in filename
    ensures Text.AfterLast(PublicUrl(publicDomain, ObjectKey(keyId, filename)), {'/'}) == ObjectKey(keyId, filename)
  {
    var key := ObjectKey(keyId, filename);
    KeyHasNoSlash(keyId, filename);
    Text.AfterLastUnique(PublicUrl(publicDomain, key), {'/'}, key);
  }

  /** A key built from a slash-free UUID and file name holds no slash. */
  lemma KeyHasNoSlash(keyId: string, filename: string)
    requires '/' !in keyId && '/' !in filename
    ensures Text.NoSep(ObjectKey(keyId, filename), {'/'})
  {
    var ext := Extension(filename);
    ExtensionFromName(filename, '/');
    var key := keyId + "." + ext;
    assert key == ObjectKey(keyId, filename);
    forall k | 0 <= k < |key| ensures key[k] != '/' {
      if k < |keyId| {
        assert key[k] == keyId[k];
      } else if k > |keyId| {
        assert key[k] == ext[k - |keyId| - 1];
      }
    }
  }
}
