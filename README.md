# Cloud storage client — a Dafny model

`storage.js` is a small Node.js client for Google Cloud Storage. It exports one
constructor, `CloudStorage`, with three operations:

- `getUrl(gcsUrl)` turns a storage identifier `gs://bucket/path` into the
  object's public HTTP URL.
- `copy(src, destination, options, callback)` uploads a local file, or a remote
  `http(s)` file after downloading it to a temporary file, to the identifier
  `destination`. It then reports the public URL.
- `remove(path, callback)` deletes an object.

The client fetches its OAuth token object (`gapi`) lazily, on the first call
that needs it.

The model has three modules:

- `Wrappers` (`wrappers.dfy`) holds the `Option` and `Result` datatypes.
- `JsStrings` (`js_strings.dfy`) models the JavaScript string built-ins the
  client relies on: `indexOf`, `replace` with a string pattern and a plain
  replacement (which replaces only the first occurrence), `split` on one
  character and `join`. It proves
  that `split` followed by `join` gives back the string, and what the first and
  last pieces of a split are.
- `Storage` (`storage.dfy`) covers the rest:
  - identifier parsing and `getUrl`;
  - normalising the `copy` source, recognising a remote one, and downloading it;
  - building the upload headers, as a specification function plus the two
    `for…in` loops as methods proved against it;
  - what the `putStream` and `deleteFile` callbacks report;
  - the client itself. `CloudStorage` is a class with a `gapi` field and a
    ghost count of token acquisitions. `CopyOptions` is a class because `copy`
    writes `options.removeAfterCopy` in place.

The outside world is passed in as parameters:

- the HEAD reply for a remote source;
- the result of `fs.stat`;
- the error of the token exchange;
- the upload or delete reply;
- `mime.lookup`.

The model then states what each call reports and which requests it makes.

A few behaviours of the code are easy to misread; the model follows the code:

- `_parseGcsUrl` removes the first `gs://` wherever it stands, not only a
  leading one (`Storage.SchemeRemovedMidString`).
- `copy` always reports the public URL. It has no signed URLs, no
  `forceExtension` and no progress reporting.
- A download sets `options.removeAfterCopy` itself, so after a successful
  upload the temporary file is unlinked even if the caller did not ask for it.
- The flag is written into the caller's `options` object. If that object is
  reused for a later `copy` of a local file, that local file is unlinked after
  its upload too. `Storage.CloudStorage.Copy` states the write and the unlink
  in terms of the object's state, so its contract carries this aliasing.
- The size of a downloaded source comes from `fs.stat` of the temporary file,
  not from a length header.
- Errors are passed on unchanged. There is no error taxonomy. The model
  represents every error as a string.

## Model

| member | source | states |
|---|---|---|
| JsStrings.IndexOf | storage.js:69 | `indexOf`: the result is the first index where the pattern occurs, and nothing means it occurs nowhere |
| JsStrings.ReplaceFirst | storage.js:8 | `replace` with a string pattern: without an occurrence the string is unchanged; otherwise only the first occurrence is replaced |
| JsStrings.Split | storage.js:10 | `split` on one character gives at least one piece; `SplitFirst`, `SplitPieces`, `SplitLast` and `JoinSplit` state what the pieces are |
| JsStrings.Join | storage.js:13 | `join`; no contract of its own; `JoinSplit` and `ShiftJoin` state that it rebuilds what `Split` cut |
| JsStrings.SplitFirst | storage.js:10-12 | the first piece of `split` is the text before the first separator, and the rest is the split of the text after it |
| JsStrings.SplitPieces | storage.js:10 | no piece of `split` contains the separator |
| JsStrings.ShiftJoin | storage.js:10-13 | `bits.shift()` is the text before the first separator; joining the remaining bits gives the text after it, or "" when there is no separator |
| JsStrings.JoinSplit | storage.js:10-13 | joining the pieces of a split with the separator gives back the string |
| JsStrings.SplitLast | storage.js:31 | the last piece of a split ends the string, and unless it is the whole string a separator stands right before it |
| Storage.StripScheme | storage.js:8 | `url.replace('gs://', '')` removes exactly the first `gs://`, wherever it stands, and nothing else |
| Storage.ParseGcsUrl | storage.js:7-16 | the bucket has no `/`; the bucket, then `/`, then the path rebuild the scheme-stripped URL; with no `/` the whole of it is the bucket and the path is "" |
| Storage.SlashCutUnique | storage.js:10-13 | a string has only one cut into a `/`-free bucket, `/` and path, which is why parsing is determined |
| Storage.ParseGcsUrlRoundTrip | storage.js:7-16 | parsing `gs://bucket/path` gives back bucket and path for every `/`-free bucket, with every `/` of the path kept |
| Storage.ParseGcsUrlIdempotent | storage.js:7-16 | re-parsing the identifier rebuilt from a parse gives the same bucket and path |
| Storage.SchemeFoundAfter | storage.js:8 | behind text that holds no `g`, the `gs://` is the occurrence removed, leaving the text before and after it |
| Storage.SchemeRemovedMidString | storage.js:7-16 | for every `dir` holding neither `/` nor `g`, `dir/gs://bucket/path` parses to bucket `dir` and path `bucket/path`: a `gs://` in mid-string is removed |
| Storage.ParseExample | storage.js:7-16 | `gs://my-bucket/a/b/c.txt` names `a/b/c.txt` in bucket `my-bucket` |
| Storage.GetUrl | storage.js:51-54 | `getUrl`; no contract of its own; `GetUrlOfIdentifier` states its result for every identifier, and `UploadOutcome` reports it |
| Storage.GetUrlOfIdentifier | storage.js:51-54 | the URL of `gs://bucket/path` is `http://bucket.storage.googleapis.com/path` for every `/`-free bucket |
| Storage.NormalizeSrc | storage.js:68-71 | a source starting with `//` gets `http:` in front; any other source is unchanged |
| Storage.IsRemote | storage.js:164 | the regular expression `/^https?:\/\//` written as prefix tests; no contract of its own; `IsRemoteIffHttpScheme` states what it accepts |
| Storage.IsRemoteIffHttpScheme | storage.js:164 | `/^https?:\/\//` accepts exactly the strings that start with `http://` or `https://` |
| Storage.ProtocolRelativeIsRemote | storage.js:68-71 | a protocol-relative source is downloaded after normalisation |
| Storage.TmpPath | storage.js:31 | the temporary file name is the `/`-free tail of the URL after its last `/` (the whole URL when it has no `/`) |
| Storage.Download | storage.js:19-35 | succeeds exactly when the HEAD request has no error and a status below 400; the error is passed on, or "Remote file is not valid"; on success the result is the `TmpPath` name of the URL, a `/`-free suffix of it |
| Storage.ResolveSource | storage.js:68-86 | only a remote source can fail, and it fails exactly when its HEAD request has an error or a status of 400 or more, with that error or "Remote file is not valid"; a downloaded file is marked as such and is the `TmpPath` name of the normalised source; a local source is used as its normalised path |
| Storage.NatToDecimal | storage.js:114 | `Content-Length` is written as a non-empty string of decimal digits whose value, read by `DecimalValue`, is the size, with no leading zero (`0` is written `"0"`) |
| Storage.DefaultHeaders | storage.js:113-118 | the four default headers; no contract of its own; `DefaultHeadersContents` states them |
| Storage.DefaultHeadersContents | storage.js:113-118 | the defaults name exactly `Content-Length` (the size in decimal), `Content-Type` (the looked-up type), `Cache-Control` (`public, max-age=3600, no-transform`) and `X-Goog-Acl` (`public-read`) |
| Storage.MetaHeaders | storage.js:129-135 | the metadata headers are exactly the `X-Goog-Meta-` + key names of the metadata entries, and each carries its entry's value |
| Storage.MetaHeaderOf | storage.js:132 | each metadata key has the header `X-Goog-Meta-` + key, carrying its value |
| Storage.MetaHeadersStep | storage.js:130-133 | one more iteration of the metadata loop adds exactly the header of that key |
| Storage.DefaultsAreNotMetaNames | storage.js:113-118 | no default header name is a metadata header name |
| Storage.UploadHeaders | storage.js:113-135 | the names are exactly the four defaults, the given headers and the metadata names; metadata wins; a given header replaces the default; an unnamed default keeps its value; `X-Goog-Acl` is the given value or `public-read`; with neither option the result is the defaults |
| Storage.OverlayHeaders | storage.js:120-127 | the `options.headers` loop writes every given entry over the headers, giving exactly the overlay of the two maps |
| Storage.AddMetadata | storage.js:129-135 | the `options.metadata` loop adds exactly the metadata headers over the headers |
| Storage.BuildHeaders | storage.js:113-135 | the header object `_copy` builds equals `UploadHeaders` for every size, content type and option |
| Storage.UploadOutcome | storage.js:140-158 | `copy` succeeds exactly with no transport error and a status below 400, with `getUrl(destination)`; otherwise it fails with the error or the response body |
| Storage.RemoveOutcome | storage.js:178-189 | `remove` reports `true` exactly with no transport error and a status below 400, and then no error; otherwise it reports the error or the body with `false` |
| Storage.CopyOptions.constructor | storage.js:64-66 | an options object holds the given headers, metadata and flag |
| Storage.CloudStorage.constructor | storage.js:38-49 | a new client has no token object; its token options carry the access id and key file; a missing or empty scope becomes the full-control scope |
| Storage.CloudStorage.EnsureAuth | storage.js:94-104 | a token acquisition starts only when there is no token object; the object is stored whether or not the exchange fails; only the call that starts it reports its error; at most one acquisition is ever counted |
| Storage.CloudStorage.Copy | storage.js:56-170 | the stages run in order and the first failure is reported; a download sets `removeAfterCopy`; a token is acquired only once the stat succeeds and only if none exists; the upload goes to the parsed bucket and `/`+path with `UploadHeaders`; the result is `UploadOutcome` with the public URL; the local file is unlinked exactly after a successful upload with `removeAfterCopy` set |
| Storage.CloudStorage.Remove | storage.js:172-206 | acquires the token object if it is missing; a failed exchange reports its error with `false` and deletes nothing; otherwise it deletes the parsed bucket and `/`+path and reports `RemoveOutcome` |
| Storage.RunCalls | storage.js:94-104 | over any sequence of `copy` and `remove` calls on one client, at most one token acquisition is ever started, and none if the client already had its token object |

## Left out

- File and network I/O are not modelled: the read and write streams, `request`, `fs.stat`, `fs.unlink`, `putStream` and `deleteFile`. The results of the HEAD request, `fs.stat`, `putStream` and `deleteFile` are parameters. The model records the upload and delete requests and the unlink. It does not record the GET of a download (see `Storage.Download` below).
- Storage.Download: the GET that fills the temporary file (storage.js:32-34) and the write of that file are assumed to succeed once the HEAD request passes. In the source, neither the request nor the write stream has an `'error'` listener, so a failed GET or write (for example `createWriteStream("")` for a URL ending in `/`) throws an unhandled error and `copy` never calls back. The GET's status is not checked either, so an error page served to the GET after a successful HEAD is uploaded as the file.
- The token exchange with Google (`node-gcs`'s `gapitoken`) is not modelled. Only its error, if any, is a parameter.
- `mime.lookup` is not modelled. It is a function parameter of the copy environment.
- The argument shuffling of `copy` (storage.js:59-66) is not modelled: a missing `options` is passed as an empty `CopyOptions`.
- Concurrency is not modelled. Calls run one after the other, each with its callbacks completing before the next starts. In the source, a call that starts while the token exchange is still pending uses the token object before it is ready.
- Storage.UploadOutcome: the extra `res, body` arguments that accompany a transport error (storage.js:142) are not modelled.
- JsStrings.ReplaceFirst: the `$&`, `$$`, `` $` `` and `$'` patterns that JavaScript expands in a replacement string are not modelled. The replacement is inserted literally. The client's one call replaces with `""`, which holds no such pattern.
- JavaScript truthiness is not modelled. `err` is an `Option`, so an empty-string error counts as an error. An upload with status 400 or more fails with the body even when the body is empty.
- Storage.NatToDecimal: `Content-Length` is modelled as the decimal string that the number is sent as, rather than as a JavaScript number.
- Storage.CloudStorage.Copy: the result of `fs.unlink` is ignored, as in the source.
- Storage.CloudStorage.EnsureAuth: a failed token acquisition is never retried, because the source stores the token object before the exchange reports. Later calls go ahead with that object.
- Storage.ResolveSource: `storage.js` has no redirect handling of its own (the `@todo` at storage.js:18). The model takes the HEAD reply as the `request` library delivers it, after whatever redirects that library follows.
- `getUrl` (Storage.GetUrl) has no contract of its own. Its meaning is stated by Storage.GetUrlOfIdentifier and by `UploadOutcome`.
- Signed URLs, `forceExtension`, progress reporting and stream sources are not part of this model. `storage.js` does not implement them.
