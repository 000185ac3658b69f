# Capture cache of the Deep Downloader proxy, in Dafny

The proxy serves web pages through a single endpoint, `POST /capture`. It
takes an address and then does one of two things. If a snapshot of that page
was captured before, it serves that snapshot from local storage. Otherwise it
renders the page in a headless browser, reads back the page's HTML, stores
it and serves it. This
project models the core of that handler in `server.js`:

- `url.dfy`, module `Url`: the address normalisation. An address that does
  not begin with `http` gets `https://` in front of it.
- `path_mapper.dfy`, module `PathMapper`: the cache key and the snapshot's
  place on disk. The host name and the path are sanitised separately, so
  that every character other than an ASCII letter or digit becomes `_`. The
  snapshot is stored at `storageRoot/safeHost/safePath/index.html`. The
  module models `path.join` as segments joined by `/`, and it proves that
  splitting the joined path gives the segments back.
- `capture.dfy`, module `Capture`: one request. The store is a
  `map<Key, string>`. A key is present when its snapshot file exists, and
  its value is what that file holds. The handler itself is `Handle`. The
  browser launch, the page render and the file write are opaque
  collaborators, described by an `Effects` value. The handler's reply is a
  `Response`: either a page (`html`, `fromCache`, `path`) or an error. What
  the handler does is recorded as a trace of events (browser launched, render
  requested, snapshot written, browser closed). The trace ends before the
  reply is sent.
- `session.dfy`, module `Session`: a series of requests served one after
  another against the same store.

Facts about the code that the model follows:

- The prefix test is case-sensitive and literal. `HTTPS://x` becomes
  `https://HTTPS://x`, and a bare host such as `httpbin.org` gets no scheme.
- The leading `/` of the path is sanitised too. The comment at server.js
  line 85 says `crazygames.com/game-name` is stored under
  `crazygames_com/game_name`, but the code produces `crazygames_com/_game_name`.
- A write failure becomes an error reply (status 500), because
  `writeFileSync` throws inside the `try`. The handler does not fall back
  to serving the unsaved page. A page is served as fresh only after it has
  been stored.
- `writeFileSync` creates or truncates the file before it writes. A write
  that fails part-way therefore leaves an empty or partial `index.html`
  behind. The model lets a failed write leave such a document. The store
  then holds it, and later requests for that key are hits that serve it.
- The handler installs click handlers on the page's links (server.js
  lines 116-125) and then reads `outerHTML`. The handlers are properties of
  the live elements, not attributes, so `outerHTML` does not carry them: the
  stored and served HTML has no link interception. The model treats the
  document as opaque, so this does not affect any contract.
- When the browser launch itself fails, `browser` is still undefined. The
  handler then closes nothing.
- Sanitisation works on UTF-16 code units in JavaScript and on `char`s
  here. Host names and paths coming out of the URL parser are ASCII
  (punycode and percent-encoding), so the two agree.

## Model

| member | source | states |
|---|---|---|
| Url.Normalize | server.js:80 | the result starts with `http`; it equals the input exactly when the input starts with `http`, and otherwise it is `https://` followed by the input |
| Url.NormalizeKeepsAddress | server.js:80 | the submitted address is always kept intact at the end of the normalised one |
| Url.NormalizeIdempotent | server.js:80 | normalising twice gives the same address as normalising once |
| Url.NormalizeUpperCaseScheme | server.js:80 | the prefix test is case-sensitive: `HTTPS://x` gets a second scheme |
| Url.NormalizeHttpNamedHost | server.js:80 | a bare host whose name begins with `http` is left without a scheme |
| Url.NormalizeBareHost | server.js:80 | `example.com/play` becomes `https://example.com/play` |
| PathMapper.Sanitize | server.js:86-87 | the length is preserved; every ASCII letter or digit stays at its position; every other character becomes `_`; only `[A-Za-z0-9_]` remains |
| PathMapper.SanitizeFixedPoints | server.js:86-87 | a string is unchanged by sanitising if and only if it already consists of `[A-Za-z0-9_]` |
| PathMapper.SanitizeIdempotent | server.js:86-87 | sanitising twice is the same as sanitising once |
| PathMapper.SanitizedSegmentIsPlain | server.js:86-88 | a sanitised segment contains no `/` and no `.`, so it is neither `.` nor `..` |
| PathMapper.SanitizeCollision | server.js:86-87 | two strings sanitise alike if and only if they have the same length and agree at every position where either holds a letter or digit |
| PathMapper.DeriveKey | server.js:86-87 | both key segments are safe, and each is as long as the host name or path it came from |
| PathMapper.SameKey | server.js:86-89 | two addresses share a key if and only if their host names agree on letters and digits and so do their paths; protocol, query and fragment have no influence |
| PathMapper.PunctuationCollides | server.js:87 | `/a-b` and `/a_b` map to the same key, with path segment `_a_b` |
| PathMapper.Join | server.js:88-89 | `path.join` modelled as joining with `/`: the result starts with the first segment, followed by a separator when more segments come |
| PathMapper.SplitJoin | server.js:88-89 | splitting a joined path at `/` gives back the segments, when no segment contains `/` |
| PathMapper.SiteDir | server.js:88 | the site directory starts with the storage root and a separator, and is as long as root, host and path segments plus two separators |
| PathMapper.SiteFile | server.js:89 | the snapshot file is `index.html` inside the key's site directory, so it starts with the storage root and a separator |
| PathMapper.SiteFileIsRootThenRelative | server.js:88-89 | the snapshot file is the storage root, `/`, then `safeHost/safePath/index.html`; the site directory is the root, `/`, then `safeHost/safePath` |
| PathMapper.SiteFileUnderRoot | server.js:86-89 | for every address, the snapshot file is the root followed by exactly three segments (safe host, safe path, `index.html`), none of them `.` or `..`, so it lies below the storage root |
| PathMapper.SiteFileInjective | server.js:86-89 | under one root, two addresses have the same snapshot file if and only if they have the same key |
| PathMapper.SiteFileIsNoSiteDir | server.js:88-89 | no key's snapshot file is the site directory of any key |
| PathMapper.ExampleLayout | server.js:86-89 | host `example.com` and path `/play` give the key `(example_com, _play)` and the file `saved_sites/example_com/_play/index.html` |
| PathMapper.CommentExampleLayout | server.js:84-89 | the comment's example `crazygames.com/game-name` gives the key `(crazygames_com, _game_name)` and the file `saved_sites/crazygames_com/_game_name/index.html`; the path segment is not the `game_name` the comment names |
| Capture.Handle | server.js:78-138 | stored snapshots are never replaced or removed, and at most the request's key is added; a reply comes from cache exactly when the key was present, and a hit changes nothing; a fresh page is stored exactly as served under a key that was absent; a served page is what the store holds for its key afterwards, with the raw path; the store changes only through a recorded write; no browser is left open |
| Capture.HitServesSnapshot | server.js:92-96 | on a hit, the reply is the stored HTML verbatim with `fromCache` true and the raw path; the store is unchanged and nothing else happens |
| Capture.HitIgnoresCollaborators | server.js:92-96 | on a hit, the outcome does not depend on what the browser, the renderer or the file system would do |
| Capture.MissRendersNormalizedUrl | server.js:99-131 | on a miss with a launched browser, the renderer is asked exactly once, for the normalised address, and the browser is closed last |
| Capture.MissStoresRendered | server.js:127-132 | a successful miss maps the key to exactly the rendered HTML and leaves all other keys unchanged; the reply is that HTML with `fromCache` false and the raw path; the steps are launch, render, write of that HTML, close |
| Capture.ServedKeyIsHit | server.js:92-132 | once a request leaves a snapshot for its key (a served page, or what a failed write left), a later request with the same key (the same address, or one that collides) is a hit that serves that snapshot, changes nothing and renders nothing; after a served page the HTML is identical |
| Capture.LaunchFailureReported | server.js:100-136 | a failed launch gives an error reply with its message; nothing is written and nothing needs closing |
| Capture.RenderFailureReported | server.js:101-136 | a render failure gives an error reply with its message; nothing is written and the browser is closed |
| Capture.WriteFailureReported | server.js:127-136 | a write failure gives an error reply with its message, not a success; the store gains exactly what the failed write left in the file, if anything; the steps are launch, render, that leftover's write if any, close |
| Capture.FailureWritesOnlyLeftover | server.js:101-137 | an error reply comes only on a miss, and it changes the store at most by adding the request's own key |
| Capture.EarlyFailureWritesNothing | server.js:100-136 | a launch or render failure leaves the store as it was and writes nothing |
| Capture.BrowserClosedBeforeReply | server.js:99-136 | a browser is launched exactly when the trace ends by closing it, so the close comes after everything else the handler does |
| Capture.WriteRecordsStored | server.js:127-132 | a recorded write is for the request's own, previously absent key, and the store afterwards is the old store plus exactly that content; if a page is served it is that content, fresh |
| Session.Serve | server.js:78-138 | requests handled one after another, one reply per request; a request whose key was stored before the run is served that snapshot from cache |
| Session.HandleWrites | server.js:127-129 | a request writes one snapshot, for its own key, exactly when it changes the store, and otherwise writes none |
| Session.HandleAddsWritten | server.js:92-129 | the keys after a request are exactly the keys before it plus the key it wrote, if any, and a written key was absent before |
| Session.ServeKeepsSnapshots | server.js:92-132 | over any run, existing snapshots keep their content |
| Session.ServeAddsWrittenKeys | server.js:127-129 | the final store of a run holds exactly the initial keys plus the keys written during it |
| Session.ServeWritesEachKeyOnce | server.js:92-129 | over any run, each key is written at most once, and never when a snapshot for it already existed |
| Session.ServeConsistent | server.js:92-132 | every page served during a run equals the snapshot its key holds at the end of the run |
| Session.SameKeySameHtml | server.js:92-132 | two pages served during a run for addresses with the same key carry identical HTML |
| Session.ServeReleasesBrowsers | server.js:131-135 | after any run, no browser is left open |

## Left out

- Express routing, JSON body parsing, status codes and `app.listen` (server.js:1-8, 140-142): these are framework I/O. The reply is the `Response` datatype.
- A request body without a string `url` (server.js:79-80): `startsWith` then throws before the `try`. The handler is `async` (server.js:78), so the throw rejects its promise: the rejection escapes the handler; whether that means no reply, a process exit, or a framework 500 depends on the Express and Node versions and is not modelled. `Request.url` is always a string in the model.
- Parsing with `new URL` (server.js:82): this is a WHATWG URL library call, and its throw on a malformed address happens outside the `try`, so here too the rejection escapes the handler; whether that means no reply, a process exit, or a framework 500 depends on the Express and Node versions and is not modelled. `Request.parts` holds the host name and path the parser produced; the model does not check that they come from `Request.url`.
- A failing `readFileSync` on a hit (server.js:94): this also happens outside the `try`, and again the rejection escapes the handler; whether that means no reply, a process exit, or a framework 500 depends on the Express and Node versions and is not modelled. The model's read always returns the stored value.
- The viewer page (server.js:13-76): it is presentation only.
- The browser launch options, `setBypassCSP`, `goto` with `networkidle2` and the 60-second timeout (server.js:102-114): these belong to an external process. The browser is modelled as an opaque `Rendered`/`RenderFailed` result for the normalised address.
- The click handlers installed on the page's links (server.js:116-125): they live in the browser's page and end with it. `outerHTML` (server.js:124) serialises attributes only, so the stored and served HTML carries none of them. The renderer's output is an opaque document.
- A `browser.close()` that throws or hangs (server.js:131, 135): closing is modelled as always succeeding.
- Which part of a document a failed `writeFileSync` leaves behind (server.js:129): the model takes the leftover file's content as an opaque input, with no link to the rendered document. A failure before the file is opened (for example in `mkdirSync`) leaves no file, and the store is unchanged.
- Capture.ServedKeyIsHit: "identical HTML" is about Dafny strings, which hold only Unicode scalar values. The snapshot is written as UTF-8 (server.js:129) and read back as UTF-8 (server.js:94). A rendered document with an unpaired UTF-16 surrogate would be stored as U+FFFD, so the fresh reply and later cached replies would differ.
- Session.ServeConsistent: a fresh reply equals the stored snapshot only as Dafny strings. A rendered document with an unpaired UTF-16 surrogate is written as UTF-8 with U+FFFD in its place (server.js:129), so the snapshot read back later (server.js:94) differs from the fresh reply.
- Session.SameKeySameHtml: identical HTML for one key holds only for documents without unpaired UTF-16 surrogates, for the same UTF-8 round-trip reason.
- PathMapper.SiteFileInjective: proved for segments joined by `/`. Node's `path.join` drops empty segments. An empty host name (possible for non-special schemes) followed by path `/a` and a host sanitised to `_a` followed by an empty path would both land on `root/_a/index.html`.
- Capture.Handle: the store is keyed by `Key`, not by file name, so `key in store` stands for `fs.existsSync(siteFile)` only where distinct keys have distinct files. Because of the `path.join` collapse above, after `Key("", "_a")` is stored, a request for `Key("_a", "")` is a hit in the source and a miss in the model.
- Creating the storage directory at start-up (server.js:10-11): this is configuration. The storage root is a parameter.
- Logging (server.js:93, 99): it has no effect on the result.
- Concurrent requests for the same key: two concurrent misses can both render and both write. The model serves requests one after another and does not cover this race.
