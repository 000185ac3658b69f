/**
 One request to the `/capture` handler (server.js lines 78-138), after the
 address has been parsed.

 The snapshot store is a map from keys to the documents in their snapshot
 files: a key is present when `fs.existsSync(siteFile)` holds for it, and
 its value is what `fs.readFileSync` returns. Keying by `Key` rather than by
 file name relies on distinct keys naming distinct files, which holds for
 segments joined by `/` (`SiteFileInjective`). The collaborators the handler
 cannot see into (the browser launch, the page render, the directory
 creation and file write) are given as an `Effects`
 value describing how each behaves during this request. What the handler
 does with them is recorded as a trace of events, in order; the trace ends
 before the JSON reply is sent.
 */
module Capture {
  import opened Url
  import opened PathMapper

  /** Stored snapshots by key. */
  type Store = map<Key, string>

  datatype Option<T> = None | Some(value: T)

  /** The outcome of `puppeteer.launch`. */
  datatype Launch = Launched | LaunchFailed(message: string)

  /** What the browser gives back for a page: the `outerHTML` of the loaded
      document, or the message of the error thrown on the way (by `newPage`,
      `setBypassCSP`, a failed `goto` or its 60 second timeout, `evaluate`).
      The click handlers `evaluate` installs are properties of the live
      elements, not attributes, so `outerHTML` does not carry them; the
      document is opaque here either way. */
  datatype Rendering = Rendered(html: string) | RenderFailed(message: string)

  /** The outcome of `mkdirSync` and `writeFileSync`. `writeFileSync`
      creates or truncates the file before writing, so a failure can leave
      a file behind: `left` is what that file then holds (possibly nothing,
      possibly part of the document), or `None` when the failure came before
      the file was opened. */
  datatype Write = Stored | WriteFailed(message: string, left: Option<string>)

  /** How the collaborators behave during one request. */
  datatype Effects = Effects(
    launch: Launch,                   // puppeteer.launch (line 102)
    render: string -> Rendering,      // newPage .. evaluate (lines 112-125)
    write: (Key, string) -> Write)    // mkdirSync and writeFileSync (lines 128-129)

  /** The submitted address, and the host name and path `new URL` found
      in its normalised form. */
  datatype Request = Request(url: string, parts: UrlParts)

  /** The JSON reply: `{html, fromCache, path}` with status 200, or
      `{error}` with status 500. */
  datatype Response =
    | Page(html: string, fromCache: bool, path: string)
    | Error(message: string)

  /** Observable steps of the handler. `RenderRequested` marks the hand-over
      to the browser for an address (lines 112-125), whether or not the
      render then gets as far as `goto`. `SnapshotWritten` records what the
      key's snapshot file holds once the write is over, whether or not the
      write succeeded. */
  datatype Event =
    | BrowserLaunched
    | RenderRequested(url: string)
    | SnapshotWritten(key: Key, html: string)
    | BrowserClosed

  datatype Outcome = Outcome(response: Response, store: Store, trace: seq<Event>)

  function KeyOf(req: Request): Key {
    DeriveKey(req.parts)
  }

  /** Whether a browser is left open after `trace`, given whether one was
      open before it. */
  function OpenAfter(open: bool, trace: seq<Event>): bool
    decreases |trace|
  {
    if |trace| == 0 then open
    else
      var next := match trace[0]
        case BrowserLaunched => true
        case BrowserClosed => false
        case _ => open;
      OpenAfter(next, trace[1..])
  }

  /** The handler. A present snapshot is served as it is; otherwise the page
      is rendered, written and served, and any exception thrown on the way
      closes the browser (when one was launched) and becomes an error reply. */
  function Handle(store: Store, req: Request, fx: Effects): (o: Outcome)
    // stored snapshots are never replaced or removed; only the request's
    // own key can be added
    ensures forall k :: k in store ==> k in o.store && o.store[k] == store[k]
    ensures o.store.Keys <= store.Keys + {KeyOf(req)}
    // served from cache exactly when the key was present before, and a hit
    // changes nothing
    ensures o.response.Page? && o.response.fromCache <==> KeyOf(req) in store
    ensures KeyOf(req) in store ==> o.store == store
    // a fresh page is stored, exactly as served, under a key that was absent
    ensures o.response.Page? && !o.response.fromCache ==>
      KeyOf(req) !in store && o.store == store[KeyOf(req) := o.response.html]
    // whatever page is served is what the store holds for its key afterwards
    ensures o.response.Page? ==>
      && KeyOf(req) in o.store
      && o.store[KeyOf(req)] == o.response.html
      && o.response.path == req.parts.pathname
    // the store changes only through a recorded write
    ensures o.store != store ==>
      SnapshotWritten(KeyOf(req), o.store[KeyOf(req)]) in o.trace
    // no browser is left open when the reply is sent
    ensures !OpenAfter(false, o.trace)
  {
    var key := KeyOf(req);
    if key in store then
      Outcome(Page(store[key], true, req.parts.pathname), store, [])
    else
      match fx.launch
      case LaunchFailed(m) =>
        // `browser` is still undefined, so the handler closes nothing
        Outcome(Error(m), store, [])
      case Launched =>
        var target := Normalize(req.url);
        match fx.render(target)
        case RenderFailed(m) =>
          var t := [BrowserLaunched, RenderRequested(target), BrowserClosed];
          OpenAfterClosedLast(false, t);
          Outcome(Error(m), store, t)
        case Rendered(html) =>
          match fx.write(key, html)
          case WriteFailed(m, None) =>
            var t := [BrowserLaunched, RenderRequested(target), BrowserClosed];
            OpenAfterClosedLast(false, t);
            Outcome(Error(m), store, t)
          case WriteFailed(m, Some(left)) =>
            var t := [BrowserLaunched, RenderRequested(target), SnapshotWritten(key, left), BrowserClosed];
            OpenAfterClosedLast(false, t);
            Outcome(Error(m), store[key := left], t)
          case Stored =>
            var t := [BrowserLaunched, RenderRequested(target), SnapshotWritten(key, html), BrowserClosed];
            OpenAfterClosedLast(false, t);
            Outcome(Page(html, false, req.parts.pathname), store[key := html], t)
  }

  /** Closing the browser last leaves none open, whatever came before. */
  lemma {:induction false} OpenAfterClosedLast(open: bool, trace: seq<Event>)
    requires |trace| > 0 && trace[|trace| - 1] == BrowserClosed
    ensures !OpenAfter(open, trace)
    decreases |trace|
  {
    var next := match trace[0]
      case BrowserLaunched => true
      case BrowserClosed => false
      case _ => open;
    if |trace| > 1 {
      OpenAfterClosedLast(next, trace[1..]);
    } else {
      assert trace[1..] == [];
    }
  }

  /** A hit serves the stored document verbatim, marked as cached, with the
      raw request path; it changes nothing and does nothing else. */
  lemma HitServesSnapshot(store: Store, req: Request, fx: Effects)
    requires KeyOf(req) in store
    ensures Handle(store, req, fx)
      == Outcome(Page(store[KeyOf(req)], true, req.parts.pathname), store, [])
  {
  }

  /** On a hit the collaborators are never consulted: the outcome is the
      same whatever the browser, the renderer or the file system would do. */
  lemma HitIgnoresCollaborators(store: Store, req: Request, fx1: Effects, fx2: Effects)
    requires KeyOf(req) in store
    ensures Handle(store, req, fx1) == Handle(store, req, fx2)
  {
  }

  /** On a miss with a launched browser, the renderer is asked for the
      normalised address, exactly once, and the browser is closed last. */
  lemma MissRendersNormalizedUrl(store: Store, req: Request, fx: Effects)
    requires KeyOf(req) !in store && fx.launch.Launched?
    ensures var t := Handle(store, req, fx).trace;
      && |t| >= 3
      && t[0] == BrowserLaunched
      && t[1] == RenderRequested(Normalize(req.url))
      && t[|t| - 1] == BrowserClosed
      && forall i :: 0 <= i < |t| && t[i].RenderRequested? ==> i == 1
  {
    var key, target := KeyOf(req), Normalize(req.url);
    match fx.render(target)
    case RenderFailed(m) =>
      RenderFailureReported(store, req, fx, m);
      MissTraceShape(Handle(store, req, fx).trace, target);
    case Rendered(html) =>
      match fx.write(key, html)
      case Stored =>
        MissStoresRendered(store, req, fx, html);
        MissTraceShape(Handle(store, req, fx).trace, target);
      case WriteFailed(m, left) =>
        WriteFailureReported(store, req, fx, html, m, left);
        MissTraceShape(Handle(store, req, fx).trace, target);
  }

  /** A miss's trace starts with the launch and the request to render,
      may hold one write, and ends with the close; the request to render
      is then the second event and the only one. */
  lemma MissTraceShape(t: seq<Event>, target: string)
    requires |t| == 3 || |t| == 4
    requires t[0] == BrowserLaunched && t[1] == RenderRequested(target)
    requires |t| == 4 ==> t[2].SnapshotWritten?
    requires t[|t| - 1] == BrowserClosed
    ensures forall i :: 0 <= i < |t| && t[i].RenderRequested? ==> i == 1
  {
  }

  /** A successful miss stores exactly the rendered document under the key,
      leaves every other key alone, and serves that same document fresh. */
  lemma MissStoresRendered(store: Store, req: Request, fx: Effects, html: string)
    requires KeyOf(req) !in store && fx.launch.Launched?
    requires fx.render(Normalize(req.url)) == Rendered(html)
    requires fx.write(KeyOf(req), html).Stored?
    ensures var o := Handle(store, req, fx);
      && o.response == Page(html, false, req.parts.pathname)
      && o.store.Keys == store.Keys + {KeyOf(req)}
      && o.store[KeyOf(req)] == html
      && (forall k :: k in store ==> o.store[k] == store[k])
      && o.trace == [BrowserLaunched, RenderRequested(Normalize(req.url)),
                     SnapshotWritten(KeyOf(req), html), BrowserClosed]
  {
  }

  /** Once a request leaves a snapshot for its key (a served page, or what a
      failed write left behind), a later request for an address with the
      same key is a hit that serves that snapshot and renders nothing; after
      a served page it is identical HTML. */
  lemma ServedKeyIsHit(store: Store, req: Request, fx: Effects, req2: Request, fx2: Effects)
    requires KeyOf(req) in Handle(store, req, fx).store
    requires KeyOf(req2) == KeyOf(req)
    ensures var o := Handle(store, req, fx);
      var o2 := Handle(o.store, req2, fx2);
      && o2.response == Page(o.store[KeyOf(req)], true, req2.parts.pathname)
      && (o.response.Page? ==> o2.response.html == o.response.html)
      && o2.store == o.store
      && o2.trace == []
  {
  }

  /** A failed launch is reported with its message; no browser exists, so
      none is closed. */
  lemma LaunchFailureReported(store: Store, req: Request, fx: Effects)
    requires KeyOf(req) !in store && fx.launch.LaunchFailed?
    ensures Handle(store, req, fx) == Outcome(Error(fx.launch.message), store, [])
  {
  }

  /** A render failure is reported with its message, writes nothing, and
      closes the browser. */
  lemma RenderFailureReported(store: Store, req: Request, fx: Effects, m: string)
    requires KeyOf(req) !in store && fx.launch.Launched?
    requires fx.render(Normalize(req.url)) == RenderFailed(m)
    ensures Handle(store, req, fx)
      == Outcome(Error(m), store, [BrowserLaunched, RenderRequested(Normalize(req.url)), BrowserClosed])
  {
  }

  /** A write failure is an error reply too, not a success with unsaved
      content, and the browser is still closed. Whatever the failed write
      left in the snapshot file is in the store afterwards. */
  lemma WriteFailureReported(store: Store, req: Request, fx: Effects, html: string,
                             m: string, left: Option<string>)
    requires KeyOf(req) !in store && fx.launch.Launched?
    requires fx.render(Normalize(req.url)) == Rendered(html)
    requires fx.write(KeyOf(req), html) == WriteFailed(m, left)
    ensures var o := Handle(store, req, fx);
      && o.response == Error(m)
      && o.store == (if left.Some? then store[KeyOf(req) := left.value] else store)
      && o.trace == (if left.Some?
        then [BrowserLaunched, RenderRequested(Normalize(req.url)),
              SnapshotWritten(KeyOf(req), left.value), BrowserClosed]
        else [BrowserLaunched, RenderRequested(Normalize(req.url)), BrowserClosed])
  {
  }

  /** An error reply writes at most one thing: the remains of a failed write
      to the request's own key, which was absent before. */
  lemma FailureWritesOnlyLeftover(store: Store, req: Request, fx: Effects)
    requires Handle(store, req, fx).response.Error?
    ensures var o := Handle(store, req, fx);
      && KeyOf(req) !in store
      && (o.store == store || o.store == store[KeyOf(req) := o.store[KeyOf(req)]])
  {
  }

  /** Launch and render failures write nothing at all. */
  lemma EarlyFailureWritesNothing(store: Store, req: Request, fx: Effects)
    requires fx.launch.LaunchFailed? || fx.render(Normalize(req.url)).RenderFailed?
    ensures var o := Handle(store, req, fx);
      && o.store == store
      && forall i :: 0 <= i < |o.trace| ==> !o.trace[i].SnapshotWritten?
  {
    var o := Handle(store, req, fx);
    if KeyOf(req) !in store && fx.launch.Launched? {
      assert o.trace == [BrowserLaunched, RenderRequested(Normalize(req.url)), BrowserClosed];
    }
  }

  /** A browser is launched exactly when the trace ends by closing it: the
      close comes after everything else the handler does, before the reply. */
  lemma BrowserClosedBeforeReply(store: Store, req: Request, fx: Effects)
    ensures var t := Handle(store, req, fx).trace;
      BrowserLaunched in t <==> |t| > 0 && t[|t| - 1] == BrowserClosed
  {
    var t := Handle(store, req, fx).trace;
    if KeyOf(req) !in store && fx.launch.Launched? {
      assert t[0] == BrowserLaunched;
    } else {
      assert t == [];
    }
  }

  /** A write records the request's own, previously absent key and the
      content now stored for it; if a page is served it is that content,
      fresh. */
  lemma WriteRecordsStored(store: Store, req: Request, fx: Effects, k: Key, h: string)
    requires SnapshotWritten(k, h) in Handle(store, req, fx).trace
    ensures var o := Handle(store, req, fx);
      && k == KeyOf(req)
      && k !in store
      && o.store == store[k := h]
      && (o.response.Page? ==> o.response == Page(h, false, req.parts.pathname))
  {
    var o := Handle(store, req, fx);
    var key := KeyOf(req);
    assert key !in store && fx.launch.Launched?;
    var target := Normalize(req.url);
    var rendering := fx.render(target);
    assert rendering.Rendered?;
    var write := fx.write(key, rendering.html);
    assert write.Stored? || write.left.Some?;
    if write.Stored? {
      assert o.trace == [BrowserLaunched, RenderRequested(target), SnapshotWritten(key, rendering.html), BrowserClosed];
    } else {
      assert o.trace == [BrowserLaunched, RenderRequested(target), SnapshotWritten(key, write.left.value), BrowserClosed];
    }
  }
}
