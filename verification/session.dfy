/**
 A sequence of `/capture` requests served one after another against the
 same storage tree. Each request sees the store the previous one left; the
 collaborators may behave differently on every request.
 */
module Session {
  import opened Url
  import opened PathMapper
  import opened Capture

  /** One request together with how the collaborators behave during it. */
  datatype Call = Call(req: Request, fx: Effects)

  /** The store after a run, everything done during it, and the replies. */
  datatype Run = Run(store: Store, trace: seq<Event>, responses: seq<Response>)

  /** The requests handled in order, each against the store the previous
      one left. */
  function Serve(store: Store, calls: seq<Call>): (r: Run)
    ensures |r.responses| == |calls|
    // a request for a key stored before the run is served from cache
    ensures forall i :: 0 <= i < |calls| && KeyOf(calls[i].req) in store ==>
      r.responses[i] == Page(store[KeyOf(calls[i].req)], true, calls[i].req.parts.pathname)
    decreases |calls|
  {
    if |calls| == 0 then Run(store, [], [])
    else
      var o := Handle(store, calls[0].req, calls[0].fx);
      var rest := Serve(o.store, calls[1..]);
      Run(rest.store, o.trace + rest.trace, [o.response] + rest.responses)
  }

  /** The keys written by a trace, in order. */
  function Written(trace: seq<Event>): seq<Key>
    decreases |trace|
  {
    if |trace| == 0 then []
    else
      (if trace[0].SnapshotWritten? then [trace[0].key] else [])
      + Written(trace[1..])
  }

  lemma {:induction false} WrittenAppend(a: seq<Event>, b: seq<Event>)
    ensures Written(a + b) == Written(a) + Written(b)
    decreases |a|
  {
    if |a| > 0 {
      assert (a + b)[0] == a[0];
      assert (a + b)[1..] == a[1..] + b;
      WrittenAppend(a[1..], b);
    } else {
      assert a + b == b;
    }
  }

  lemma WrittenNothing(target: string)
    ensures Written([BrowserLaunched, RenderRequested(target), BrowserClosed]) == []
  {
    var t := [BrowserLaunched, RenderRequested(target), BrowserClosed];
    assert Written(t[3..]) == [];
    assert t[2..][1..] == t[3..];
    assert Written(t[2..]) == [];
    assert t[1..][1..] == t[2..];
    assert Written(t[1..]) == [];
  }

  lemma WrittenOne(target: string, k: Key, h: string)
    ensures Written([BrowserLaunched, RenderRequested(target), SnapshotWritten(k, h), BrowserClosed]) == [k]
  {
    var t := [BrowserLaunched, RenderRequested(target), SnapshotWritten(k, h), BrowserClosed];
    assert Written(t[4..]) == [];
    assert t[3..][1..] == t[4..];
    assert Written(t[3..]) == [];
    assert t[2..][1..] == t[3..];
    assert Written(t[2..]) == [k];
    assert t[1..][1..] == t[2..];
    assert Written(t[1..]) == [k];
  }

  /** One request writes at most its own key, and only when the key was
      absent and is present afterwards. */
  lemma HandleWrites(store: Store, req: Request, fx: Effects)
    ensures var o := Handle(store, req, fx);
      Written(o.trace) == (if o.store == store then [] else [KeyOf(req)])
  {
    var o := Handle(store, req, fx);
    var key := KeyOf(req);
    if key !in store && fx.launch.Launched? {
      var target := Normalize(req.url);
      match fx.render(target)
      case RenderFailed(_) =>
        WrittenNothing(target);
      case Rendered(html) =>
        match fx.write(key, html)
        case WriteFailed(_, None) =>
          WrittenNothing(target);
        case WriteFailed(_, Some(left)) =>
          WrittenOne(target, key, left);
          assert key in o.store;
        case Stored =>
          WrittenOne(target, key, html);
          assert key in o.store;
    }
  }

  /** Stored snapshots survive every run unchanged. */
  lemma {:induction false} ServeKeepsSnapshots(store: Store, calls: seq<Call>)
    ensures var r := Serve(store, calls);
      forall k :: k in store ==> k in r.store && r.store[k] == store[k]
    decreases |calls|
  {
    if |calls| > 0 {
      var o := Handle(store, calls[0].req, calls[0].fx);
      ServeKeepsSnapshots(o.store, calls[1..]);
    }
  }

  /** One request adds exactly the key it writes, if any, and that key was
      absent before. */
  lemma HandleAddsWritten(store: Store, req: Request, fx: Effects)
    ensures var o := Handle(store, req, fx);
      var w := Written(o.trace);
      && (forall k :: k in o.store <==> k in store || k in w)
      && (w == [] || (w == [KeyOf(req)] && KeyOf(req) !in store))
  {
    HandleWrites(store, req, fx);
  }

  /** A run adds exactly the keys it wrote to the store. */
  lemma {:induction false} ServeAddsWrittenKeys(store: Store, calls: seq<Call>)
    ensures var r := Serve(store, calls);
      forall k :: k in r.store <==> k in store || k in Written(r.trace)
    decreases |calls|
  {
    if |calls| > 0 {
      var o := Handle(store, calls[0].req, calls[0].fx);
      var rest := Serve(o.store, calls[1..]);
      var r := Serve(store, calls);
      assert r.store == rest.store && r.trace == o.trace + rest.trace;
      ServeAddsWrittenKeys(o.store, calls[1..]);
      HandleAddsWritten(store, calls[0].req, calls[0].fx);
      WrittenAppend(o.trace, rest.trace);
      var wr := Written(rest.trace);
      assert wr == Written(Serve(o.store, calls[1..]).trace);
      AddsKeysStep(store, o.store, rest.store, Written(o.trace), wr, Written(r.trace));
    }
  }

  /** The step of `ServeAddsWrittenKeys`: one request that adds the keys it
      wrote, followed by a run that adds the keys it wrote. */
  lemma AddsKeysStep(store: Store, mid: Store, final: Store, w0: seq<Key>, wr: seq<Key>, w: seq<Key>)
    requires forall k :: k in mid <==> k in store || k in w0
    requires forall k :: k in final <==> k in mid || k in wr
    requires w == w0 + wr
    ensures forall k :: k in final <==> k in store || k in w
  {
  }

  /** Each key is written at most once over a whole run, and never when a
      snapshot for it was already stored: snapshots are write-once. */
  lemma {:induction false} ServeWritesEachKeyOnce(store: Store, calls: seq<Call>)
    ensures var w := Written(Serve(store, calls).trace);
      && (forall i :: 0 <= i < |w| ==> w[i] !in store)
      && (forall i, j :: 0 <= i < j < |w| ==> w[i] != w[j])
    decreases |calls|
  {
    if |calls| > 0 {
      var o := Handle(store, calls[0].req, calls[0].fx);
      var rest := Serve(o.store, calls[1..]);
      var r := Serve(store, calls);
      assert r.trace == o.trace + rest.trace;
      ServeWritesEachKeyOnce(o.store, calls[1..]);
      HandleAddsWritten(store, calls[0].req, calls[0].fx);
      WrittenAppend(o.trace, rest.trace);
      var wr := Written(rest.trace);
      assert wr == Written(Serve(o.store, calls[1..]).trace);
      WriteOnceStep(store, o.store, KeyOf(calls[0].req), Written(o.trace), wr, Written(r.trace));
    }
  }

  /** The step of `ServeWritesEachKeyOnce`: a request that writes at most its
      own, absent key, followed by a run that writes only keys absent after
      it, each once. */
  lemma WriteOnceStep(store: Store, mid: Store, key: Key, w0: seq<Key>, wr: seq<Key>, w: seq<Key>)
    requires forall k :: k in mid <==> k in store || k in w0
    requires w0 == [] || (w0 == [key] && key !in store)
    requires forall i :: 0 <= i < |wr| ==> wr[i] !in mid
    requires forall i, j :: 0 <= i < j < |wr| ==> wr[i] != wr[j]
    requires w == w0 + wr
    ensures forall i :: 0 <= i < |w| ==> w[i] !in store
    ensures forall i, j :: 0 <= i < j < |w| ==> w[i] != w[j]
  {
    if w0 != [] {
      assert key in mid;
      forall i, j | 0 <= i < j < |w|
        ensures w[i] != w[j]
      {
        assert w[j] == wr[j - 1];
        if i > 0 {
          assert w[i] == wr[i - 1];
        }
      }
    }
  }

  /** Every page a run serves is the snapshot its key holds at the end of
      the run: all replies for one key carry identical HTML, fresh or cached. */
  lemma {:induction false} ServeConsistent(store: Store, calls: seq<Call>)
    ensures var r := Serve(store, calls);
      forall i :: 0 <= i < |calls| && r.responses[i].Page? ==>
        && KeyOf(calls[i].req) in r.store
        && r.store[KeyOf(calls[i].req)] == r.responses[i].html
    decreases |calls|
  {
    if |calls| > 0 {
      var o := Handle(store, calls[0].req, calls[0].fx);
      var rest := Serve(o.store, calls[1..]);
      ServeConsistent(o.store, calls[1..]);
      ServeKeepsSnapshots(o.store, calls[1..]);
      var r := Serve(store, calls);
      forall i | 0 <= i < |calls| && r.responses[i].Page?
        ensures KeyOf(calls[i].req) in r.store
        ensures r.store[KeyOf(calls[i].req)] == r.responses[i].html
      {
        if i > 0 {
          assert r.responses[i] == rest.responses[i - 1];
          assert calls[i] == calls[1..][i - 1];
        }
      }
    }
  }

  /** Two replies of one run for addresses with the same key serve the same
      HTML. */
  lemma SameKeySameHtml(store: Store, calls: seq<Call>, i: nat, j: nat)
    requires i < |calls| && j < |calls|
    requires KeyOf(calls[i].req) == KeyOf(calls[j].req)
    requires Serve(store, calls).responses[i].Page?
    requires Serve(store, calls).responses[j].Page?
    ensures Serve(store, calls).responses[i].html == Serve(store, calls).responses[j].html
  {
    ServeConsistent(store, calls);
  }

  /** No browser is left open at any point between requests. */
  lemma {:induction false} ServeReleasesBrowsers(store: Store, calls: seq<Call>)
    ensures !OpenAfter(false, Serve(store, calls).trace)
    decreases |calls|
  {
    if |calls| > 0 {
      var o := Handle(store, calls[0].req, calls[0].fx);
      var rest := Serve(o.store, calls[1..]);
      ServeReleasesBrowsers(o.store, calls[1..]);
      OpenAfterAppend(false, o.trace, rest.trace);
    }
  }

  lemma {:induction false} OpenAfterAppend(open: bool, a: seq<Event>, b: seq<Event>)
    ensures OpenAfter(open, a + b) == OpenAfter(OpenAfter(open, a), b)
    decreases |a|
  {
    if |a| > 0 {
      assert (a + b)[0] == a[0];
      assert (a + b)[1..] == a[1..] + b;
      var next := match a[0]
        case BrowserLaunched => true
        case BrowserClosed => false
        case _ => open;
      OpenAfterAppend(next, a[1..], b);
    } else {
      assert a + b == b;
    }
  }
}
