/**
 * The gateway's request handler: basic-auth gate, then either the local WebDAV
 * engine alone (no next server configured), or both backends for PROPFIND with
 * the multistatus answers merged, or the local engine with a fall-through to
 * the next server when it answers "not found".
 *
 * The local engine and the reverse proxy to the next server are not modelled
 * inside: each is a `Backend`, the calls it makes on the response writer it is
 * given for a request.
 */
module Gateway {
  import opened Wrappers
  import opened Text
  import opened Writers
  import opened Multistatus

  const StatusMultiStatus: int := 207
  const StatusUnauthorized: int := 401
  const MethodPropfind: string := "PROPFIND"

  datatype Credentials = Credentials(username: string, password: string)

  /** An inbound request; `auth` is its decoded basic-auth pair, if it has one. */
  datatype Request = Request(httpMethod: string, path: string, auth: Option<Credentials>, header: Header, body: string)

  /** The next server's URL: its host and the user information embedded in it ("" when absent). */
  datatype NextUrl = NextUrl(host: string, username: string, password: string)

  /** A collaborator that answers requests: the writer calls it makes for a request. */
  type Backend = Request -> seq<Call>

  /** The handler's configuration; `proxy` is only used when `next` is present. */
  datatype Handler = Handler(dav: Backend, username: string, password: string, next: Option<NextUrl>, proxy: Backend)

  /** The route a request takes. */
  datatype Route =
    | Denied                            // 401, no backend
    | LocalOnly                         // no next server: the local engine answers directly
    | Passthrough                       // PROPFIND, neither answer is 207: the local answer, copied
    | Merge(local: bool, remote: bool)  // PROPFIND: the 207 answers merged, local first
    | Answered                          // other method: the local engine answered, not with 404
    | Fallback                          // other method: the local engine said 404, the next server answers

  predicate LocalInvoked(route: Route)
  {
    route != Denied
  }

  predicate RemoteInvoked(route: Route)
  {
    route.Passthrough? || route.Merge? || route.Fallback?
  }

  /**
   * The routing decision, from the facts the handler inspects in turn: whether
   * a gateway user is configured, whether the request's credentials match,
   * whether a next server is configured, whether the method is PROPFIND, and the
   * status each backend recorded.
   */
  function Decide(authConfigured: bool, credentialsMatch: bool, nextConfigured: bool,
                  isPropfind: bool, localStatus: int, remoteStatus: int): (route: Route)
    ensures route == Denied <==> authConfigured && !credentialsMatch
    ensures LocalInvoked(route) <==> !(authConfigured && !credentialsMatch)
    ensures RemoteInvoked(route) <==>
      && LocalInvoked(route) && nextConfigured
      && (isPropfind || localStatus == StatusNotFound)
    ensures route == Passthrough <==>
      && LocalInvoked(route) && nextConfigured && isPropfind
      && localStatus != StatusMultiStatus && remoteStatus != StatusMultiStatus
    ensures route == LocalOnly <==> LocalInvoked(route) && !nextConfigured
    ensures route.Merge? <==>
      && LocalInvoked(route) && nextConfigured && isPropfind
      && (localStatus == StatusMultiStatus || remoteStatus == StatusMultiStatus)
    ensures route.Merge? ==>
      route.local == (localStatus == StatusMultiStatus) && route.remote == (remoteStatus == StatusMultiStatus)
    ensures route == Fallback <==>
      LocalInvoked(route) && nextConfigured && !isPropfind && localStatus == StatusNotFound
    ensures route == Answered <==>
      LocalInvoked(route) && nextConfigured && !isPropfind && localStatus != StatusNotFound
  {
    if authConfigured && !credentialsMatch then Denied
    else if !nextConfigured then LocalOnly
    else if isPropfind then
      if localStatus != StatusMultiStatus && remoteStatus != StatusMultiStatus then Passthrough
      else Merge(localStatus == StatusMultiStatus, remoteStatus == StatusMultiStatus)
    else if localStatus == StatusNotFound then Fallback
    else Answered
  }

  /** `r.BasicAuth()`: the request's pair, or two empty strings. */
  function BasicAuth(r: Request): (c: Credentials)
    ensures r.auth.Some? ==> c == r.auth.value
    ensures r.auth.None? ==> c.username == "" && c.password == ""
  {
    if r.auth.Some? then r.auth.value else Credentials("", "")
  }

  /** The gate lets a request through exactly when both its username and its password equal the configured ones. */
  predicate CredentialsMatch(h: Handler, r: Request): (ok: bool)
    ensures ok <==> BasicAuth(r).username == h.username && BasicAuth(r).password == h.password
  {
    BasicAuth(r) == Credentials(h.username, h.password)
  }

  /** The request the local engine gets: the next server's credentials, when it has a user, replace the client's. */
  function LocalRequest(h: Handler, r: Request): (r1: Request)
    ensures r1 == r.(auth := r1.auth)
    ensures h.next.Some? && |h.next.value.username| > 0 ==>
      r1.auth == Some(Credentials(h.next.value.username, h.next.value.password))
    ensures !(h.next.Some? && |h.next.value.username| > 0) ==> r1 == r
  {
    if h.next.Some? && |h.next.value.username| > 0
    then r.(auth := Some(Credentials(h.next.value.username, h.next.value.password)))
    else r
  }

  /** The request the next server gets: the local one, with its Host header set to the next server's host. */
  function RemoteRequest(h: Handler, r: Request): (r2: Request)
    ensures r2 == LocalRequest(h, r).(header := r2.header)
    ensures h.next.Some? ==> "Host" in r2.header && r2.header["Host"] == [h.next.value.host]
    ensures forall name :: name != "Host" ==>
      (name in r2.header <==> name in r.header) && (name in r.header ==> r2.header[name] == r.header[name])
  {
    var r1 := LocalRequest(h, r);
    var host := if h.next.Some? then h.next.value.host else "";
    r1.(header := r1.header["Host" := [host]])
  }

  function LocalStatus(h: Handler, r: Request): int
  {
    LastStatus(0, h.dav(LocalRequest(h, r)))
  }

  function RemoteStatus(h: Handler, r: Request): int
  {
    LastStatus(0, h.proxy(RemoteRequest(h, r)))
  }

  /** The answer to a request whose credentials do not match. */
  const Unauthorized: seq<Call> := [
    SetHeader("WWW-Authenticate", ["Basic realm=Dav Server"]),
    WriteHeader(StatusUnauthorized),
    Write("unauthorized")
  ]

  /** The elements of a captured answer that take part in the merge: all of them if it is 207, none otherwise. */
  function Contribution(c: Captured): (es: seq<Entry>)
    ensures c.status != StatusMultiStatus ==> es == []
    ensures c.status == StatusMultiStatus ==>
      |es| == |Fragments(c.body, 0)| && forall i :: 0 <= i < |es| ==> es[i].element == Fragments(c.body, 0)[i]
  {
    if c.status == StatusMultiStatus then Entries(Fragments(c.body, 0)) else []
  }

  /** The merger's table after the local answer and then the remote one. */
  function MergedItems(local: Captured, remote: Captured): Items
  {
    InsertAll(InsertAll(map[], Contribution(local)), Contribution(remote))
  }

  /**
   * The merged listing names every resource that either 207 answer names; a
   * resource the local answer names is described as the local answer
   * describes it first; any other as the remote answer describes it first.
   */
  lemma MergeLocalWins(local: Captured, remote: Captured, k: string)
    ensures k in MergedItems(local, remote) <==> k in KeysOf(Contribution(local)) + KeysOf(Contribution(remote))
    ensures k in KeysOf(Contribution(local)) ==>
      MergedItems(local, remote)[k] == FirstWithKey(Contribution(local), k)
    ensures k !in KeysOf(Contribution(local)) && k in KeysOf(Contribution(remote)) ==>
      MergedItems(local, remote)[k] == FirstWithKey(Contribution(remote), k)
  {
    FirstDocumentWins(Contribution(local), Contribution(remote), k);
  }

  /** When only one backend answers 207, the merged listing is that answer's alone. */
  lemma MergeOneSided(local: Captured, remote: Captured)
    ensures local.status != StatusMultiStatus ==> MergedItems(local, remote) == InsertAll(map[], Contribution(remote))
    ensures remote.status != StatusMultiStatus ==> MergedItems(local, remote) == InsertAll(map[], Contribution(local))
  {
  }

  /** `for k, v := range src { dst[k] = v }` */
  method CopyHeader(dst: HeaderMap, src: Header)
    modifies dst
    ensures dst.entries == old(dst.entries) + src
  {
    var rest := src.Keys;
    while rest != {}
      invariant rest <= src.Keys
      invariant dst.entries.Keys == old(dst.entries).Keys + (src.Keys - rest)
      invariant forall k :: k in dst.entries ==>
        dst.entries[k] == if k in src && k !in rest then src[k] else old(dst.entries)[k]
      decreases |rest|
    {
      var k :| k in rest;
      dst.Put(k, src[k]);
      rest := rest - {k};
    }
  }

  /** The client's writer went from `before` to `after` by receiving a copy of the captured answer `c`. */
  ghost predicate PassedThrough(before: Emitted, after: Emitted, c: Captured)
  {
    after == Emitted(before.header + c.header, before.statuses + [c.status], before.body + c.body)
  }

  /**
   * The client's writer went from `before` to `after` by receiving a merged
   * multistatus answer for `items`, written in the order `order`: content
   * type and length headers, status 207, the document.
   */
  ghost predicate MergedAnswer(before: Emitted, after: Emitted, items: Items, order: seq<string>)
  {
    && Enumerates(order, items.Keys)
    && var doc := Prolog + Concat(items, order) + Epilog;
       after == Emitted(
         before.header["Content-Type" := ["text/xml; charset=utf-8"]]["Content-Length" := [Decimal(|doc|)]],
         before.statuses + [StatusMultiStatus],
         before.body + doc)
  }

  /** The 401 answer. */
  method Deny(w: Recorder)
    modifies w, w.header
    ensures w.State() == Emit(old(w.State()), Unauthorized)
  {
    ghost var e0 := w.State();
    var hm := w.Header();
    hm.Set("WWW-Authenticate", "Basic realm=Dav Server");
    assert w.State() == EmitOne(e0, Unauthorized[0]);
    w.WriteHeader(StatusUnauthorized);
    assert w.State() == EmitOne(EmitOne(e0, Unauthorized[0]), Unauthorized[1]);
    var _ := w.Write("unauthorized");
    assert Emit(e0, Unauthorized[..1]) == EmitOne(e0, Unauthorized[0]) by {
      assert Unauthorized[..1][..0] == [];
    }
    assert Unauthorized[..2][..1] == Unauthorized[..1];
  }

  /** Merges the 207 answers among `local` and `remote`, local first, and writes the merged document to `w`. */
  method WriteMerged(local: Captured, remote: Captured, w: Recorder) returns (ghost order: seq<string>)
    modifies w, w.header
    ensures MergedAnswer(old(w.State()), w.State(), MergedItems(local, remote), order)
  {
    var propfind := new Propfind();
    if local.status == StatusMultiStatus {
      propfind.Append(local.body);
    }
    if remote.status == StatusMultiStatus {
      propfind.Append(remote.body);
    }
    ghost var items := propfind.items;
    assert items == MergedItems(local, remote);
    ghost var e0 := w.State();
    var buffer, _ := propfind.WriteTo();
    var hm := w.Header();
    hm.Set("Content-Type", "text/xml; charset=utf-8");
    hm.Set("Content-Length", Decimal(|buffer|));
    w.WriteHeader(StatusMultiStatus);
    var doc;
    doc, order := propfind.WriteTo();
    assert |doc| == |buffer|;
    var _ := w.Write(doc);
    assert w.State() == Emitted(
      e0.header["Content-Type" := ["text/xml; charset=utf-8"]]["Content-Length" := [Decimal(|doc|)]],
      e0.statuses + [StatusMultiStatus],
      e0.body + doc);
  }

  /** The PROPFIND branch: both backends into CacheWriters, then the local answer copied or the 207 answers merged. */
  method ServePropfind(h: Handler, r1: Request, r2: Request, w: Recorder) returns (route: Route, ghost order: seq<string>)
    modifies w, w.header
    ensures var local, remote := Capture(h.dav(r1)), Capture(h.proxy(r2));
      && route == Decide(false, true, true, true, local.status, remote.status)
      && (route == Passthrough ==> PassedThrough(old(w.State()), w.State(), local))
      && (route.Merge? ==> MergedAnswer(old(w.State()), w.State(), MergedItems(local, remote), order))
  {
    order := [];
    var localWriter := new CacheWriter();
    var remoteWriter := new CacheWriter();
    localWriter.Play(h.dav(r1));
    remoteWriter.Play(h.proxy(r2));
    var local := Captured(localWriter.statusCode, localWriter.h.entries, localWriter.b);
    var remote := Captured(remoteWriter.statusCode, remoteWriter.h.entries, remoteWriter.b);
    assert local == Capture(h.dav(r1)) && remote == Capture(h.proxy(r2));
    if local.status != StatusMultiStatus && remote.status != StatusMultiStatus {
      CopyHeader(w.header, local.header);
      w.WriteHeader(local.status);
      var _ := w.Write(local.body);
      route := Passthrough;
      return;
    }
    order := WriteMerged(local, remote, w);
    route := Merge(local.status == StatusMultiStatus, remote.status == StatusMultiStatus);
  }

  /** Any other method: the local engine through an InterceptWriter, the next server if it said 404. */
  method ServeIntercepted(h: Handler, r1: Request, r2: Request, w: Recorder) returns (route: Route)
    modifies w, w.header
    ensures route == Decide(false, true, true, false, LastStatus(0, h.dav(r1)), 0)
    ensures route == Answered ==> w.State() == Emit(old(w.State()), Forwarded(0, h.dav(r1)))
    ensures route == Fallback ==>
      w.State() == Emit(Emit(old(w.State()), Forwarded(0, h.dav(r1))), h.proxy(r2))
  {
    var writer := new InterceptWriter(w);
    writer.Play(h.dav(r1));
    if writer.statusCode != StatusNotFound {
      route := Answered;
      return;
    }
    w.Play(h.proxy(r2));
    route := Fallback;
  }

  /**
   * ServeHTTP. `w` is the client-facing writer. The route is returned so that
   * the contract can say which backends were asked; `order` is the order in
   * which the merged elements were written.
   */
  method ServeHTTP(h: Handler, r: Request, w: Recorder) returns (route: Route, ghost order: seq<string>)
    modifies w, w.header
    ensures route == Decide(|h.username| > 0, CredentialsMatch(h, r), h.next.Some?,
                            r.httpMethod == MethodPropfind, LocalStatus(h, r), RemoteStatus(h, r))
    ensures route == Denied ==> w.State() == Emit(old(w.State()), Unauthorized)
    ensures route == LocalOnly ==> w.State() == Emit(old(w.State()), h.dav(r))
    ensures route == Answered ==>
      w.State() == Emit(old(w.State()), Forwarded(0, h.dav(LocalRequest(h, r))))
    ensures route == Fallback ==>
      w.State() == Emit(Emit(old(w.State()), Forwarded(0, h.dav(LocalRequest(h, r)))), h.proxy(RemoteRequest(h, r)))
    ensures route == Passthrough ==>
      PassedThrough(old(w.State()), w.State(), Capture(h.dav(LocalRequest(h, r))))
    ensures route.Merge? ==>
      MergedAnswer(old(w.State()), w.State(),
                   MergedItems(Capture(h.dav(LocalRequest(h, r))), Capture(h.proxy(RemoteRequest(h, r)))), order)
  {
    order := [];
    if |h.username| > 0 {
      var creds := BasicAuth(r);
      if creds.username != h.username || creds.password != h.password {
        Deny(w);
        route := Denied;
        return;
      }
    }
    if h.next.None? {
      w.Play(h.dav(r));
      route := LocalOnly;
      return;
    }
    var r1 := LocalRequest(h, r);
    var r2 := RemoteRequest(h, r);
    if r.httpMethod == MethodPropfind {
      CaptureRecords(h.dav(r1));
      CaptureRecords(h.proxy(r2));
      route, order := ServePropfind(h, r1, r2, w);
      return;
    }
    route := ServeIntercepted(h, r1, r2, w);
  }

  /**
   * Fall-through: when the local engine answers "not found" before anything
   * else and does not change its mind, the client receives exactly what the
   * next server sends, and nothing of the local attempt.
   */
  lemma FallbackIsRemoteAlone(h: Handler, r: Request, e: Emitted)
    requires var calls := h.dav(LocalRequest(h, r));
      |calls| > 0 && calls[0] == WriteHeader(StatusNotFound) && StaysNotFound(calls[1..])
    ensures LocalStatus(h, r) == StatusNotFound
    ensures Emit(Emit(e, Forwarded(0, h.dav(LocalRequest(h, r)))), h.proxy(RemoteRequest(h, r)))
         == Emit(e, h.proxy(RemoteRequest(h, r)))
  {
    NotFoundFirstForwardsNothing(h.dav(LocalRequest(h, r)));
  }

  /**
   * The Content-Length of a merged answer is the number of bytes of the
   * document that follows it: the prolog, every kept element once, the
   * closing tag, whatever order the table is walked in.
   */
  lemma MergedLengthIsOrderFree(items: Items, order1: seq<string>, order2: seq<string>)
    requires Enumerates(order1, items.Keys) && Enumerates(order2, items.Keys)
    ensures |Prolog + Concat(items, order1) + Epilog| == |Prolog + Concat(items, order2) + Epilog|
  {
    ConcatLength(items, order1);
    ConcatLength(items, order2);
  }
}
