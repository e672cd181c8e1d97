/**
 * The logic of the `CloudStorage` client (storage.js): storage
 * identifiers `gs://bucket/path`, the public URL built from them, the
 * handling of the `src` argument of `copy`, the upload headers, the
 * decisions that turn a storage reply into a callback outcome, and the
 * lazily created auth object shared by `copy` and `remove`.
 *
 * The file system, the HTTP transfers, the token exchange and the MIME
 * table are not modelled: their results are parameters.
 */
module Storage {
  import opened Wrappers
  import opened JsStrings

  // ---------------------------------------------------------------------
  // Storage identifiers and public URLs
  // ---------------------------------------------------------------------

  /** The `{bucket, path}` record built by `_parseGcsUrl`. */
  datatype ObjectId = ObjectId(bucket: string, path: string)

  const GcsScheme: string := "gs://"

  /**
   * `url.replace('gs://', '')`: the first `gs://` is removed wherever it
   * stands, not only at the start; a string without one is unchanged.
   */
  function StripScheme(url: string): (r: string)
    ensures (forall j: nat :: !OccursAt(url, GcsScheme, j)) ==> r == url
    ensures forall i: nat :: IsFirstOccurrence(url, GcsScheme, i) ==> r == url[..i] + url[i + |GcsScheme|..]
  {
    ReplaceFirst(url, GcsScheme, "")
  }

  /**
   * `_parseGcsUrl`: split the stripped string on `/`, shift the first
   * piece off as the bucket and join the rest back with `/` as the path.
   * The bucket is the text before the first `/`; without a `/` it is the
   * whole string and the path is empty.
   */
  function ParseGcsUrl(url: string): (id: ObjectId)
    ensures '/' !in id.bucket
    ensures var s := StripScheme(url);
            && ('/' in s ==> s == id.bucket + "/" + id.path)
            && ('/' !in s ==> id.bucket == s && id.path == "")
  {
    var s := StripScheme(url);
    var bits := Split(s, '/');
    ShiftJoin(s, '/');
    ObjectId(bits[0], Join(bits[1..], "/"))
  }

  /**
   * Cutting at the first `/` is unambiguous: two ways of writing a string
   * as a `/`-free prefix, a `/` and a rest are the same.
   */
  lemma SlashCutUnique(b1: string, p1: string, b2: string, p2: string)
    requires '/' !in b1 && '/' !in b2
    requires b1 + "/" + p1 == b2 + "/" + p2
    ensures b1 == b2 && p1 == p2
  {
    var s := b1 + "/" + p1;
    assert s[|b1|] == '/' && forall k :: 0 <= k < |b1| ==> s[k] == b1[k];
    assert s[|b2|] == '/' && forall k :: 0 <= k < |b2| ==> s[k] == b2[k];
    assert |b1| == |b2|;
    assert b1 == s[..|b1|] == b2;
    assert p1 == s[|b1| + 1..] == p2;
  }

  /** The identifier an `ObjectId` is written as. */
  function GcsUrl(id: ObjectId): string {
    GcsScheme + id.bucket + "/" + id.path
  }

  /**
   * Parsing `gs://bucket/path` gives back bucket and path whenever the
   * bucket has no `/`; every `/` of the path is kept.
   */
  lemma ParseGcsUrlRoundTrip(id: ObjectId)
    requires '/' !in id.bucket
    ensures ParseGcsUrl(GcsUrl(id)) == id
  {
    var u := GcsUrl(id);
    assert OccursAt(u, GcsScheme, 0);
    assert IsFirstOccurrence(u, GcsScheme, 0);
    var s := StripScheme(u);
    assert s == id.bucket + "/" + id.path;
    assert s[|id.bucket|] == '/';
    var r := ParseGcsUrl(u);
    SlashCutUnique(r.bucket, r.path, id.bucket, id.path);
  }

  /** Parsing is idempotent: re-parsing a parsed identifier changes nothing. */
  lemma ParseGcsUrlIdempotent(url: string)
    ensures ParseGcsUrl(GcsUrl(ParseGcsUrl(url))) == ParseGcsUrl(url)
  {
    ParseGcsUrlRoundTrip(ParseGcsUrl(url));
  }

  /**
   * The scheme is removed wherever it first occurs: `gs://` behind text
   * that holds no `g` is the occurrence `StripScheme` cuts out.
   */
  lemma SchemeFoundAfter(pre: string, rest: string)
    requires 'g' !in pre
    ensures StripScheme(pre + GcsScheme + rest) == pre + rest
  {
    var u := pre + GcsScheme + rest;
    assert u[|pre|..|pre| + 5] == GcsScheme;
    forall j | 0 <= j < |pre| ensures !OccursAt(u, GcsScheme, j) {
      assert u[j] == pre[j];
    }
    assert IsFirstOccurrence(u, GcsScheme, |pre|);
    assert u[..|pre|] == pre && u[|pre| + 5..] == rest;
  }

  /**
   * A `gs://` in the middle of the string is the one removed, so a
   * directory in front of an identifier becomes the bucket and the whole
   * identifier the path: `data/gs://a/b` names object `a/b` of bucket `data`.
   */
  lemma SchemeRemovedMidString(dir: string, id: ObjectId)
    requires 'g' !in dir && '/' !in dir
    ensures ParseGcsUrl(dir + "/" + GcsUrl(id)) == ObjectId(dir, id.bucket + "/" + id.path)
  {
    var pre := dir + "/";
    var rest := id.bucket + "/" + id.path;
    assert dir + "/" + GcsUrl(id) == pre + GcsScheme + rest;
    SchemeFoundAfter(pre, rest);
    var s := StripScheme(pre + GcsScheme + rest);
    assert s == dir + "/" + rest;
    assert s[|dir|] == '/';
    var r := ParseGcsUrl(dir + "/" + GcsUrl(id));
    SlashCutUnique(r.bucket, r.path, dir, rest);
  }

  const PublicHostSuffix: string := ".storage.googleapis.com/"

  /** `getUrl`: the public HTTP URL of a storage identifier. */
  function GetUrl(gcsUrl: string): string {
    var id := ParseGcsUrl(gcsUrl);
    "http://" + id.bucket + PublicHostSuffix + id.path
  }

  /** The public URL of `gs://bucket/path` serves `path` from the bucket's host. */
  lemma GetUrlOfIdentifier(bucket: string, path: string)
    requires '/' !in bucket
    ensures GetUrl("gs://" + bucket + "/" + path) == "http://" + bucket + ".storage.googleapis.com/" + path
  {
    ParseGcsUrlRoundTrip(ObjectId(bucket, path));
  }

  /** An example identifier: `gs://my-bucket/a/b/c.txt`. */
  lemma ParseExample(u: string)
    requires u == "gs://my-bucket/a/b/c.txt"
    ensures ParseGcsUrl(u) == ObjectId("my-bucket", "a/b/c.txt")
  {
    var id := ObjectId("my-bucket", "a/b/c.txt");
    assert u == GcsUrl(id);
    ParseGcsUrlRoundTrip(id);
  }

  // ---------------------------------------------------------------------
  // The `src` argument of `copy`
  // ---------------------------------------------------------------------

  /** A protocol-relative `src` (`//host/...`) is given the `http:` scheme. */
  function NormalizeSrc(src: string): (r: string)
    ensures HasPrefix(src, "//") ==> r == "http:" + src
    ensures !HasPrefix(src, "//") ==> r == src
  {
    if IndexOf(src, "//") == Some(0) then "http:" + src else src
  }

  /** `/^https?:\/\//`: "http", an optional "s", then "://". */
  predicate IsRemote(src: string) {
    && HasPrefix(src, "http")
    && var rest := src[4..];
       var afterS := if HasPrefix(rest, "s") then rest[1..] else rest;
       HasPrefix(afterS, "://")
  }

  /** The regular expression accepts exactly the two schemes. */
  lemma IsRemoteIffHttpScheme(src: string)
    ensures IsRemote(src) <==> HasPrefix(src, "http://") || HasPrefix(src, "https://")
  {
    if HasPrefix(src, "http://") {
      assert src[..4] == src[..7][..4];
      assert src[4..][..3] == src[..7][4..];
      assert src[4..][0] == ':';
    } else if HasPrefix(src, "https://") {
      assert src[..4] == src[..8][..4];
      assert src[4..][..1] == src[..8][4..5];
      assert src[4..][1..][..3] == src[..8][5..];
    }
  }

  /** A protocol-relative source is always fetched over plain HTTP. */
  lemma ProtocolRelativeIsRemote(src: string)
    requires HasPrefix(src, "//")
    ensures IsRemote(NormalizeSrc(src))
  {
    var u := NormalizeSrc(src);
    assert u[..7] == "http:" + src[..2];
    IsRemoteIffHttpScheme(u);
  }

  /**
   * `url.split('/').pop()` in `_download`: the local file a download is
   * written to is named after the text after the last `/` of the URL.
   */
  function TmpPath(url: string): (r: string)
    ensures '/' !in r
    ensures |r| <= |url| && url[|url| - |r|..] == r
    ensures |r| < |url| ==> url[|url| - |r| - 1] == '/'
  {
    var bits := Split(url, '/');
    SplitLast(url, '/');
    SplitPieces(url, '/');
    bits[|bits| - 1]
  }

  /** The reply to the HEAD request of `_download`. */
  datatype HeadReply = HeadReply(err: Option<string>, statusCode: int)

  const RemoteNotValid: string := "Remote file is not valid"

  /**
   * `_download`: a transport error is passed on, a status of 400 or more
   * is reported as an invalid remote file, otherwise the body goes to a
   * temp file named by `TmpPath`.
   */
  function Download(url: string, head: HeadReply): (r: Result<string, string>)
    ensures r.Success? <==> head.err.None? && head.statusCode < 400
    ensures r.Success? ==> r.value == TmpPath(url)
    ensures r.Success? ==> '/' !in r.value && |r.value| <= |url| && url[|url| - |r.value|..] == r.value
    ensures r.Failure? ==> r.error == (if head.err.Some? then head.err.value else RemoteNotValid)
  {
    if head.err.Some? then Failure(head.err.value)
    else if head.statusCode >= 400 then Failure(RemoteNotValid)
    else Success(TmpPath(url))
  }

  /** The local file `_onFileReady` receives, and whether it was downloaded. */
  datatype LocalFile = LocalFile(path: string, downloaded: bool)

  /**
   * The first stage of `copy`: normalise `src`; a remote one is
   * downloaded, anything else is taken as a local path. Only a remote
   * source can fail here.
   */
  function ResolveSource(src: string, head: HeadReply): (r: Result<LocalFile, string>)
    ensures r.Failure? ==> IsRemote(NormalizeSrc(src))
    ensures r.Success? ==> (r.value.downloaded <==> IsRemote(NormalizeSrc(src)))
    ensures r.Success? && !r.value.downloaded ==> r.value.path == NormalizeSrc(src)
    ensures r.Success? && r.value.downloaded ==> r.value.path == TmpPath(NormalizeSrc(src)) && '/' !in r.value.path
    ensures r.Failure? ==> r.error == if head.err.Some? then head.err.value else RemoteNotValid
    ensures IsRemote(NormalizeSrc(src)) ==> (r.Success? <==> head.err.None? && head.statusCode < 400)
  {
    var url := NormalizeSrc(src);
    if IsRemote(url) then
      match Download(url, head)
      case Failure(e) => Failure(e)
      case Success(tmp) => Success(LocalFile(tmp, true))
    else Success(LocalFile(url, false))
  }

  // ---------------------------------------------------------------------
  // Upload headers
  // ---------------------------------------------------------------------

  type Headers = map<string, string>

  const ContentLength: string := "Content-Length"
  const ContentType: string := "Content-Type"
  const CacheControl: string := "Cache-Control"
  const GoogAcl: string := "X-Goog-Acl"
  const MetaPrefix: string := "X-Goog-Meta-"

  const DefaultCacheControl: string := "public, max-age=3600, no-transform"
  const DefaultAcl: string := "public-read"

  const DefaultHeaderNames: set<string> := {ContentLength, ContentType, CacheControl, GoogAcl}

  /** The character of a decimal digit. */
  function DigitChar(d: nat): (c: char)
    requires d < 10
    ensures '0' <= c <= '9'
  {
    (('0' as int) + d) as char
  }

  /** Whether every character of `s` is a decimal digit. */
  predicate AllDigits(s: string) {
    forall i :: 0 <= i < |s| ==> '0' <= s[i] <= '9'
  }

  /** The number a string of decimal digits denotes, read left to right. */
  function DecimalValue(s: string): nat
    requires AllDigits(s)
  {
    if |s| == 0 then 0
    else DecimalValue(s[..|s| - 1]) * 10 + ((s[|s| - 1] as int) - ('0' as int))
  }

  /**
   * A non-negative number as JavaScript writes it: decimal digits that
   * denote the number, with no leading zero.
   */
  function NatToDecimal(n: nat): (s: string)
    ensures |s| >= 1 && AllDigits(s)
    ensures DecimalValue(s) == n
    ensures n > 0 ==> s[0] != '0'
    ensures n == 0 ==> s == "0"
  {
    if n < 10 then [DigitChar(n)]
    else
      var s := NatToDecimal(n / 10) + [DigitChar(n % 10)];
      assert s[..|s| - 1] == NatToDecimal(n / 10);
      s
  }

  /** The four headers every upload starts from. */
  function DefaultHeaders(size: nat, contentType: string): Headers {
    map[ContentLength := NatToDecimal(size),
        ContentType := contentType,
        CacheControl := DefaultCacheControl,
        GoogAcl := DefaultAcl]
  }

  /**
   * The defaults name exactly the four headers: the size in decimal, the
   * content type, a one-hour public cache and a public-read ACL.
   */
  lemma DefaultHeadersContents(size: nat, contentType: string)
    ensures var h := DefaultHeaders(size, contentType);
            && h.Keys == DefaultHeaderNames
            && AllDigits(h[ContentLength]) && DecimalValue(h[ContentLength]) == size
            && h[ContentType] == contentType
            && h[CacheControl] == DefaultCacheControl && h[GoogAcl] == DefaultAcl
  {
  }

  /** An option object that is absent reads as an empty one. */
  function Given(m: Option<Headers>): Headers {
    m.GetOr(map[])
  }

  /** The header name a metadata entry is sent under. */
  function MetaKey(key: string): string {
    MetaPrefix + key
  }

  /** `name` is the header name of an entry of `metadata`. */
  predicate IsMetaName(name: string, metadata: Headers) {
    HasPrefix(name, MetaPrefix) && name[|MetaPrefix|..] in metadata
  }

  /** Every metadata entry as a header named `X-Goog-Meta-` + key. */
  function MetaHeaders(metadata: Headers): (m: Headers)
    ensures forall name :: name in m <==> IsMetaName(name, metadata)
    ensures forall name :: name in m ==> IsMetaName(name, metadata) && m[name] == metadata[name[|MetaPrefix|..]]
  {
    var m := map name | name in (set key | key in metadata :: MetaKey(key)) :: metadata[name[|MetaPrefix|..]];
    assert forall name :: IsMetaName(name, metadata) ==> name in m by {
      forall name | IsMetaName(name, metadata) ensures name in m {
        var key := name[|MetaPrefix|..];
        assert name == MetaKey(key);
      }
    }
    m
  }

  /** The header name of a metadata entry carries that entry's value. */
  lemma MetaHeaderOf(metadata: Headers, key: string)
    requires key in metadata
    ensures IsMetaName(MetaKey(key), metadata)
    ensures MetaKey(key) in MetaHeaders(metadata) && MetaHeaders(metadata)[MetaKey(key)] == metadata[key]
  {
    assert MetaKey(key)[|MetaPrefix|..] == key;
  }

  /** Adding one more metadata entry adds its header and nothing else. */
  lemma MetaHeadersStep(meta: Headers, pending: set<string>, key: string)
    requires key in pending && pending <= meta.Keys
    ensures MetaHeaders(meta - (pending - {key})) == MetaHeaders(meta - pending)[MetaKey(key) := meta[key]]
  {
    var after := meta - (pending - {key});
    MetaHeaderOf(after, key);
    assert MetaKey(key)[|MetaPrefix|..] == key;
  }

  /** Writing a key after a union is writing it into the right operand. */
  lemma UnionUpdate(a: Headers, b: Headers, k: string, v: string)
    ensures (a + b)[k := v] == a + b[k := v]
  {
  }

  /** No default header name carries the metadata prefix. */
  lemma DefaultsAreNotMetaNames(metadata: Headers)
    ensures forall name :: name in DefaultHeaderNames ==> !IsMetaName(name, metadata)
  {
    assert ContentLength[0] != MetaPrefix[0];
    assert ContentType[0] != MetaPrefix[0];
    assert CacheControl[0] != MetaPrefix[0];
    assert |GoogAcl| < |MetaPrefix|;
  }

  /**
   * The header set `_copy` uploads with: the defaults, overlaid by every
   * entry of `options.headers`, then every `options.metadata` entry under
   * its prefixed name. Its names are exactly those three groups; a given
   * header replaces the default of that name; a metadata entry wins over a
   * given header of the same name; a default nobody names keeps its
   * value; with neither option the result is the defaults.
   */
  function UploadHeaders(size: nat, contentType: string, headers: Option<Headers>, metadata: Option<Headers>): (r: Headers)
    ensures forall name :: name in r <==>
              name in DefaultHeaderNames || name in Given(headers) || IsMetaName(name, Given(metadata))
    ensures forall key :: key in Given(metadata) ==> MetaKey(key) in r && r[MetaKey(key)] == Given(metadata)[key]
    ensures forall name :: name in Given(headers) && !IsMetaName(name, Given(metadata)) ==> r[name] == Given(headers)[name]
    ensures forall name :: name in DefaultHeaderNames && name !in Given(headers) ==> r[name] == DefaultHeaders(size, contentType)[name]
    ensures r[GoogAcl] == if GoogAcl in Given(headers) then Given(headers)[GoogAcl] else DefaultAcl
    ensures headers.None? && metadata.None? ==> r == DefaultHeaders(size, contentType)
  {
    var meta := Given(metadata);
    DefaultsAreNotMetaNames(meta);
    forall key | key in meta
      ensures MetaKey(key) in MetaHeaders(meta) && MetaHeaders(meta)[MetaKey(key)] == meta[key]
    {
      MetaHeaderOf(meta, key);
    }
    DefaultHeaders(size, contentType) + Given(headers) + MetaHeaders(meta)
  }

  /** Copying one more entry of `given` over `base`. */
  lemma OverlayStep(base: Headers, given: Headers, pending: set<string>, key: string)
    requires key in pending && pending <= given.Keys
    ensures (base + (given - pending))[key := given[key]] == base + (given - (pending - {key}))
  {
  }

  /**
   * The first `for…in` loop of `_copy`: every own entry of
   * `options.headers` is written into the headers object.
   */
  method OverlayHeaders(h0: Headers, given: Headers) returns (h: Headers)
    ensures h == h0 + given
  {
    h := h0;
    var pending := given.Keys;
    assert given - pending == map[];
    while pending != {}
      invariant pending <= given.Keys
      invariant h == h0 + (given - pending)
      decreases pending
    {
      var key :| key in pending;
      OverlayStep(h0, given, pending, key);
      h := h[key := given[key]];
      pending := pending - {key};
    }
    assert given - {} == given;
  }

  /**
   * The second `for…in` loop of `_copy`: every own entry of
   * `options.metadata` is written under its `X-Goog-Meta-` name.
   */
  method AddMetadata(h0: Headers, meta: Headers) returns (h: Headers)
    ensures h == h0 + MetaHeaders(meta)
  {
    h := h0;
    var pending := meta.Keys;
    assert meta - pending == map[];
    assert MetaHeaders(map[]) == map[];
    while pending != {}
      invariant pending <= meta.Keys
      invariant h == h0 + MetaHeaders(meta - pending)
      decreases pending
    {
      var key :| key in pending;
      MetaHeadersStep(meta, pending, key);
      UnionUpdate(h0, MetaHeaders(meta - pending), MetaKey(key), meta[key]);
      h := h[MetaKey(key) := meta[key]];
      pending := pending - {key};
    }
    assert meta - {} == meta;
  }

  /**
   * The headers object `_copy` builds: the defaults, then the loop over
   * `options.headers` if that option is present, then the loop over
   * `options.metadata` if that one is.
   */
  method BuildHeaders(size: nat, contentType: string, headers: Option<Headers>, metadata: Option<Headers>)
    returns (h: Headers)
    ensures h == UploadHeaders(size, contentType, headers, metadata)
  {
    h := DefaultHeaders(size, contentType);
    if headers.Some? {
      h := OverlayHeaders(h, headers.value);
    } else {
      assert h + Given(headers) == h;
    }
    if metadata.Some? {
      h := AddMetadata(h, metadata.value);
    } else {
      assert MetaHeaders(Given(metadata)) == map[];
    }
  }

  // ---------------------------------------------------------------------
  // Replies of the storage service and what the callbacks make of them
  // ---------------------------------------------------------------------

  /** The `(err, res, body)` of a `putStream` or `deleteFile` callback. */
  datatype Reply = Reply(err: Option<string>, statusCode: int, body: string)

  /** What `copy` hands its callback: an error, or the object's URL. */
  datatype CopyResult = CopyFailed(error: string) | Copied(url: string)

  /**
   * The `putStream` callback of `_copy`: a transport error is passed on,
   * a status of 400 or more fails with the response body, anything else
   * succeeds with the public URL of the destination.
   */
  function UploadOutcome(reply: Reply, destination: string): (r: CopyResult)
    ensures r.Copied? <==> reply.err.None? && reply.statusCode < 400
    ensures r.Copied? ==> r.url == GetUrl(destination)
    ensures r.CopyFailed? ==> r.error == if reply.err.Some? then reply.err.value else reply.body
  {
    if reply.err.Some? then CopyFailed(reply.err.value)
    else if reply.statusCode >= 400 then CopyFailed(reply.body)
    else Copied(GetUrl(destination))
  }

  /** What `remove` hands its callback: an error if any, and success. */
  datatype RemoveResult = RemoveResult(error: Option<string>, removed: bool)

  /**
   * The `deleteFile` callback of `_remove`: `true` only with no error and
   * a status below 400; otherwise the error or the body, and `false`.
   */
  function RemoveOutcome(reply: Reply): (r: RemoveResult)
    ensures r.removed <==> reply.err.None? && reply.statusCode < 400
    ensures r.removed <==> r.error.None?
    ensures !r.removed ==> r.error.value == if reply.err.Some? then reply.err.value else reply.body
  {
    if reply.err.Some? then RemoveResult(reply.err, false)
    else if reply.statusCode >= 400 then RemoveResult(Some(reply.body), false)
    else RemoveResult(None, true)
  }

  // ---------------------------------------------------------------------
  // The client object
  // ---------------------------------------------------------------------

  const DefaultScope: string := "https://www.googleapis.com/auth/devstorage.full_control"

  /** The options the client hands to the token module. */
  datatype GapiOptions = GapiOptions(iss: string, scope: string, keyFile: string)

  /** The request `putStream` is asked to make. */
  datatype UploadRequest = UploadRequest(bucket: string, objectPath: string, headers: Headers)

  /** The request `deleteFile` is asked to make. */
  datatype DeleteRequest = DeleteRequest(bucket: string, objectPath: string)

  /**
   * What the outside world answers during one `copy`: the HEAD reply for
   * a remote source, the result of `fs.stat` (size or error), the error of
   * the token exchange if any, the upload reply, and `mime.lookup`.
   */
  datatype CopyEnv = CopyEnv(head: HeadReply, stat: Result<nat, string>, authErr: Option<string>,
                             upload: Reply, mimeLookup: string -> string)

  /**
   * One `copy` call: the value its callback receives, the upload it
   * started (if it got that far) and the local file it unlinked (if any).
   */
  datatype CopyRun = CopyRun(result: CopyResult, upload: Option<UploadRequest>, unlinked: Option<string>)

  /** One `remove` call: its callback's values and the delete it started. */
  datatype RemoveRun = RemoveRun(result: RemoveResult, delete: Option<DeleteRequest>)

  /** The `options` object of `copy`, which `copy` updates in place. */
  class CopyOptions {
    var headers: Option<Headers>
    var metadata: Option<Headers>
    var removeAfterCopy: bool

    constructor (headers: Option<Headers>, metadata: Option<Headers>, removeAfterCopy: bool)
      ensures this.headers == headers && this.metadata == metadata
      ensures this.removeAfterCopy == removeAfterCopy
    {
      this.headers := headers;
      this.metadata := metadata;
      this.removeAfterCopy := removeAfterCopy;
    }
  }

  class CloudStorage {
    const gapiOptions: GapiOptions
    /** Whether `this.gapi` holds an auth object. */
    var gapi: bool
    /** How many token acquisitions this client has started. */
    ghost var acquisitions: nat

    /** The auth object exists exactly when one acquisition was started. */
    ghost predicate Valid()
      reads this
    {
      acquisitions == if gapi then 1 else 0
    }

    /** A new client has no auth object; an empty or missing scope means full control. */
    constructor (accessId: string, scope: Option<string>, privateKey: string)
      ensures Valid() && !gapi
      ensures gapiOptions.iss == accessId && gapiOptions.keyFile == privateKey
      ensures gapiOptions.scope == if scope.Some? && scope.value != "" then scope.value else DefaultScope
    {
      gapiOptions := GapiOptions(accessId, if scope.Some? && scope.value != "" then scope.value else DefaultScope, privateKey);
      gapi := false;
      acquisitions := 0;
    }

    /**
     * `if (!self.gapi) self.gapi = new GAPI(...)`: a token acquisition is
     * started only when there is no auth object yet. The object is stored
     * before the exchange reports, so a failed exchange is not retried by
     * later calls. The result is the error this call must report.
     */
    method EnsureAuth(authErr: Option<string>) returns (failure: Option<string>)
      requires Valid()
      modifies this
      ensures Valid() && gapi
      ensures acquisitions == old(acquisitions) + if old(gapi) then 0 else 1
      ensures failure == if old(gapi) then None else authErr
    {
      if !gapi {
        gapi := true;
        acquisitions := acquisitions + 1;
        failure := authErr;
      } else {
        failure := None;
      }
    }

    /**
     * `copy(src, destination, options, callback)`: resolve the source,
     * stat the local file, make sure of the auth object, upload with the
     * assembled headers and report. A downloaded source sets
     * `options.removeAfterCopy`, and with that flag the local file is
     * unlinked after a successful upload. A failure before the upload
     * stage starts no upload, and one before the auth stage no token
     * acquisition.
     */
    method Copy(src: string, destination: string, options: CopyOptions, env: CopyEnv) returns (run: CopyRun)
      requires Valid()
      modifies this, options
      ensures Valid()
      ensures options.headers == old(options.headers) && options.metadata == old(options.metadata)
      ensures var r := ResolveSource(src, env.head);
              options.removeAfterCopy == (old(options.removeAfterCopy) || (r.Success? && r.value.downloaded))
      ensures var r := ResolveSource(src, env.head);
              var acquiring := r.Success? && env.stat.Success? && !old(gapi);
              && gapi == (old(gapi) || acquiring)
              && acquisitions == old(acquisitions) + if acquiring then 1 else 0
      ensures var r := ResolveSource(src, env.head);
              run.upload.Some? <==> r.Success? && env.stat.Success? && (old(gapi) || env.authErr.None?)
      ensures var r := ResolveSource(src, env.head);
              r.Failure? ==> run.result == CopyFailed(r.error)
      ensures var r := ResolveSource(src, env.head);
              r.Success? && env.stat.Failure? ==> run.result == CopyFailed(env.stat.error)
      ensures var r := ResolveSource(src, env.head);
              r.Success? && env.stat.Success? && !old(gapi) && env.authErr.Some? ==>
                run.result == CopyFailed(env.authErr.value)
      ensures var r := ResolveSource(src, env.head);
              var dest := ParseGcsUrl(destination);
              run.upload.Some? ==>
                && run.upload.value == UploadRequest(dest.bucket, "/" + dest.path,
                     UploadHeaders(env.stat.value, env.mimeLookup(r.value.path), options.headers, options.metadata))
                && run.result == UploadOutcome(env.upload, destination)
      ensures run.result.Copied? ==> run.result.url == GetUrl(destination)
      ensures run.unlinked.Some? <==> run.result.Copied? && options.removeAfterCopy
      ensures var r := ResolveSource(src, env.head);
              run.unlinked.Some? ==> r.Success? && run.unlinked.value == r.value.path
    {
      var resolved := ResolveSource(src, env.head);
      if resolved.Failure? {
        return CopyRun(CopyFailed(resolved.error), None, None);
      }
      var file := resolved.value;
      if file.downloaded {
        options.removeAfterCopy := true;
      }
      if env.stat.Failure? {
        return CopyRun(CopyFailed(env.stat.error), None, None);
      }
      var size := env.stat.value;
      var authFailure := EnsureAuth(env.authErr);
      if authFailure.Some? {
        return CopyRun(CopyFailed(authFailure.value), None, None);
      }
      var headers := BuildHeaders(size, env.mimeLookup(file.path), options.headers, options.metadata);
      var dest := ParseGcsUrl(destination);
      var request := UploadRequest(dest.bucket, "/" + dest.path, headers);
      var result := UploadOutcome(env.upload, destination);
      var unlinked := if result.Copied? && options.removeAfterCopy then Some(file.path) else None;
      run := CopyRun(result, Some(request), unlinked);
    }

    /**
     * `remove(path, callback)`: make sure of the auth object, then delete
     * the parsed object and report. A failed token exchange reports its
     * error with `false` and deletes nothing.
     */
    method Remove(path: string, authErr: Option<string>, reply: Reply) returns (run: RemoveRun)
      requires Valid()
      modifies this
      ensures Valid() && gapi
      ensures acquisitions == old(acquisitions) + if old(gapi) then 0 else 1
      ensures !old(gapi) && authErr.Some? ==> run == RemoveRun(RemoveResult(authErr, false), None)
      ensures old(gapi) || authErr.None? ==>
                run == RemoveRun(RemoveOutcome(reply),
                                 Some(DeleteRequest(ParseGcsUrl(path).bucket, "/" + ParseGcsUrl(path).path)))
      ensures run.result.removed ==> run.delete.Some?
    {
      var authFailure := EnsureAuth(authErr);
      if authFailure.Some? {
        return RemoveRun(RemoveResult(authFailure, false), None);
      }
      var id := ParseGcsUrl(path);
      run := RemoveRun(RemoveOutcome(reply), Some(DeleteRequest(id.bucket, "/" + id.path)));
    }
  }

  /** One call on a client, with what the outside world answers to it. */
  datatype Call =
    | CopyCall(src: string, destination: string, options: CopyOptions, env: CopyEnv)
    | RemoveCall(path: string, authErr: Option<string>, reply: Reply)

  function OptionsOf(calls: seq<Call>): set<CopyOptions> {
    set i | 0 <= i < |calls| && calls[i].CopyCall? :: calls[i].options
  }

  /**
   * Any sequence of `copy` and `remove` calls on one client, one after
   * the other: the client starts at most one token acquisition in all,
   * and none at all if it already had an auth object.
   */
  method RunCalls(client: CloudStorage, calls: seq<Call>)
    requires client.Valid()
    modifies client, OptionsOf(calls)
    ensures client.Valid()
    ensures client.acquisitions <= 1
    ensures old(client.gapi) ==> client.gapi && client.acquisitions == old(client.acquisitions)
  {
    var i := 0;
    while i < |calls|
      invariant 0 <= i <= |calls|
      invariant client.Valid()
      invariant old(client.gapi) ==> client.gapi
    {
      match calls[i] {
        case CopyCall(src, destination, options, env) =>
          var _ := client.Copy(src, destination, options, env);
        case RemoveCall(path, authErr, reply) =>
          var _ := client.Remove(path, authErr, reply);
      }
      i := i + 1;
    }
  }
}
