# davnext gateway — a Dafny model

davnext is a small WebDAV server that can chain to a second ("next") WebDAV
server. This model covers the core of its request handling:

- **The basic-auth gate.** It sits in front of everything.
- **The read-only guard.** It wraps the served directory and refuses to create, remove or rename unless modification is enabled.
- **Three response writers:**
  - the client-facing writer;
  - `CacheWriter`, which only records;
  - `InterceptWriter`, which hides a local "not found" answer.
- **The routing of `ServeHTTP`:**
  - with no next server, the local WebDAV engine answers alone;
  - for PROPFIND, both servers are asked and their `207 Multi-Status` answers are merged;
  - for any other method, the local engine answers, and the next server answers only when the local engine says 404.
- **The multistatus merger `Propfind`.** It cuts every `<D:response>…</D:response>` element out of a document. It keeps each element under the trimmed text of its first `<D:href>`, and the first element seen for a key wins. It serialises the kept elements inside one `<D:multistatus>` root.

Files:

- `wrappers.dfy`: `Option`.
- `text.dfy`: the text operations the merger relies on:
  - substring search;
  - the non-greedy `(?Us)<open>.*<close>` match, written as two searches;
  - `TrimPrefix`, `TrimSuffix` and `TrimSpace`;
  - decimal rendering of the Content-Length.
- `writers.dfy`: the writers as classes, and the specification of their effects.
- `multistatus.dfy`: the merger, as a class with the specification functions and lemmas beside it.
- `readonly_dir.dfy`: the read-only guard over an abstract store.
- `gateway.dfy`: the routing decision and `ServeHTTP`.

Backends are not modelled inside. The local WebDAV engine and the reverse proxy to the next server are each a `Backend`: a function from a request to the writer calls (`Call`) that the backend makes for it. Each writer class has a `Play` method that replays such calls. This stands in for Go's dispatch through the `http.ResponseWriter` interface.

Some behaviours of the code that are easy to miss:

- An element with no complete `<D:href>` is not dropped. It is kept under the key "".
- The merger's table is a Go map, so `WriteTo` writes the elements in an unspecified order, not in insertion order. `WriteTo` returns that order as a ghost value. The document's length is proved independent of the order.
- `InterceptWriter` only starts swallowing at the 404. A header a handler sets before `WriteHeader(404)` has already reached the client's header map (`HeaderBeforeNotFoundIsForwarded`), and body bytes written before it have already reached the client (`WriteBeforeNotFoundIsForwarded`). A later `WriteHeader` with any other status turns forwarding back on.
- When the next server has a user, `r.SetBasicAuth` runs before both clones are taken, so the request to the local engine and the request to the next server both carry the next server's credentials. Only the request to the next server gets the `Host` header.

## Model

| member | source | states |
|---|---|---|
| Text.IndexFrom | davnext.go:271-272 | the result is the leftmost occurrence of the pattern at or after the start index, or None exactly when there is none |
| Text.FindSpan | davnext.go:271-272 | the non-greedy match starts at the first opener and ends right after the first closer that follows the opener's end; None exactly when no opener is followed by a closer |
| Text.FindString | davnext.go:278 | exactly the text of the leftmost non-greedy match when there is one, and "" when there is none; a non-empty result starts with the opening tag and ends with the closing tag |
| Text.TrimPrefix | davnext.go:279 | when the prefix is present, prefix + result is the input; otherwise the input is unchanged |
| Text.TrimSuffix | davnext.go:280 | when the suffix is present, result + suffix is the input; otherwise the input is unchanged |
| Text.TrimSpace | davnext.go:281 | the result is an infix of the input; everything outside it is white space; it neither starts nor ends with white space |
| Text.LeadingSpaces | davnext.go:281 | counts exactly the maximal run of leading white space |
| Text.TrailingSpaces | davnext.go:281 | counts exactly the maximal run of trailing white space |
| Text.Decimal | davnext.go:233 | `%v` of a length is a non-empty run of digits with no leading zero |
| Text.DecimalRoundTrip | davnext.go:233 | reading the rendered Content-Length value gives back the length |
| Multistatus.Fragments | davnext.go:271-277 | every element the scanner hands to the callback begins with `<D:response>` and ends with the first `</D:response>` after it |
| Multistatus.SpanIsFragment | davnext.go:271 | what one leftmost non-greedy response match cuts out is a response element |
| Multistatus.FragmentsInOrder | davnext.go:271-277 | the elements are successive non-overlapping matches: each is the document's text at its start position, at or after the scan's start, and each ends at or before the next one starts |
| Multistatus.FragmentsDisjoint | davnext.go:277 | their total length is at most the length of the scanned text |
| Multistatus.UnclosedContributesNothing | davnext.go:271-277 | an opening tag with no closing tag after it contributes no element |
| Multistatus.HrefKeyWithHref | davnext.go:272-281 | an element with a complete href is kept under the white-space-trimmed text between its first `<D:href>` and the next `</D:href>` |
| Multistatus.HrefKeyWithoutHref | davnext.go:278-281 | an element with no complete href is kept under "" |
| Multistatus.FirstWithKey | davnext.go:282-284 | the element named is the first element of the document carrying the key: no earlier element has that key |
| Multistatus.HrefKey | davnext.go:278-281 | a non-empty key neither starts nor ends with white space |
| Multistatus.EntryKey | davnext.go:278-281 | each element of a document is paired with its own href key |
| Multistatus.InsertAllKeys | davnext.go:282-284 | after an append the table's keys are the old keys plus the keys of the document's elements |
| Multistatus.InsertAllKeeps | davnext.go:282-284 | an append never removes or overwrites a key already in the table |
| Multistatus.InsertAllFirstSeenWins | davnext.go:282-284 | a new key holds the first element of the document that carries it (first seen wins within a document) |
| Multistatus.InsertAllPresent | davnext.go:282-284 | appending elements whose keys are all taken leaves the table as it was |
| Multistatus.InsertAllIdempotent | davnext_test.go:12-13 | appending the same document twice leaves the table exactly as appending it once |
| Multistatus.FirstDocumentWins | davnext.go:223-229 | after two documents appended to an empty table, the table names exactly the keys of both; the first document's element wins for a key it has, otherwise the second's first element for the key |
| Multistatus.MergedKeysOrderFree | davnext.go:223-229 | the set of keys after two documents is the union of their keys, in either order |
| Multistatus.InsertAllOrigin | davnext.go:282-284 | every element in the table after an append was either kept before under the same key or is an element of the document carrying that key |
| Multistatus.ConcatLength | davnext.go:289-296 | the elements written in any order that lists every key once total the same length |
| Multistatus.Propfind.constructor | davnext.go:268-274 | a new merger has an empty table |
| Multistatus.Propfind.Keep | davnext.go:277-285 | one callback: the element is stored under its key exactly when the key was not yet taken; the table stays well keyed |
| Multistatus.Propfind.Append | davnext.go:276-287 | the table after an append is the old table with the document's elements inserted left to right, first seen wins; the table stays well keyed |
| Multistatus.Propfind.WriteTo | davnext.go:289-296 | the output is the prolog, every kept element exactly once in some order, then `</D:multistatus>`; its length is the prolog's plus the elements' plus the closing tag's |
| Writers.HeaderMap.Set | davnext.go:179 | the header map after `Set` holds exactly the one value under the name |
| Writers.CaptureRecords | davnext.go:99-109 | a CacheWriter's status is the last status passed (0 if none), and its body is every write, concatenated in order |
| Writers.CacheWriter.constructor | davnext.go:91-97 | a new CacheWriter has status 0, an empty private header map and an empty buffer |
| Writers.CacheWriter.Header | davnext.go:99-101 | Header always returns the same private map |
| Writers.CacheWriter.Write | davnext.go:103-105 | Write appends to the buffer, reports every byte and leaves the status alone |
| Writers.CacheWriter.WriteHeader | davnext.go:107-109 | WriteHeader records the status and forwards it nowhere |
| Writers.CacheWriter.Play | davnext.go:99-109 | after any sequence of calls, the writer holds exactly their capture |
| Writers.InterceptWriter.constructor | davnext.go:238 | a new InterceptWriter wraps the client's writer with no status recorded |
| Writers.InterceptWriter.Header | davnext.go:62-67 | while 404 is recorded, Header is a fresh empty map; otherwise it is the client's map |
| Writers.InterceptWriter.Write | davnext.go:69-75 | Write always reports every byte; the bytes reach the client only when the recorded status is not 404 |
| Writers.InterceptWriter.WriteHeader | davnext.go:77-83 | WriteHeader records the status and passes it on unless it is 404 |
| Writers.InterceptWriter.Receive | davnext.go:62-83 | one call reaches the client as the forwarding rule for the recorded status says |
| Writers.InterceptWriter.Play | davnext.go:62-83 | after any sequence of calls, the recorded status is the last one and the client has received exactly the forwarded calls |
| Writers.SuppressedAfterNotFound | davnext.go:62-83 | once 404 is recorded, nothing reaches the client until another status is recorded, and the status stays 404 |
| Writers.TransparentUnlessNotFound | davnext.go:62-83 | an InterceptWriter that never sees 404 passes every call through unchanged and in order |
| Writers.NotFoundFirstForwardsNothing | davnext.go:77-83 | a handler that answers 404 first, and never another status, leaves the client's writer untouched |
| Writers.HeaderBeforeNotFoundIsForwarded | davnext.go:62-81 | a header set before the 404 has already reached the client's header map |
| Writers.WriteBeforeNotFoundIsForwarded | davnext.go:69-81 | body bytes written before the 404 have already reached the client |
| Writers.EmitRecords | davnext.go:185-187 | the client-facing writer's statuses are the old ones followed by every status passed, in order, and its body is the old body followed by every write |
| Writers.EmitAppend | davnext.go:238-244 | receiving one call sequence and then another is receiving their concatenation |
| Writers.LastStatusAppend | davnext.go:78 | the status recorded after two call sequences is the second's last one, or the first's when the second records none |
| Writers.Recorder.Play | davnext.go:185-187 | the client's writer has received exactly the calls made on it, in order |
| ReadOnlyDir.Mkdir | davnext.go:124-131 | read-only: the permission error and the store unchanged; writable: exactly the store's own result |
| ReadOnlyDir.RemoveAll | davnext.go:132-139 | read-only: the permission error and the store unchanged; writable: exactly the store's own result |
| ReadOnlyDir.Rename | davnext.go:140-147 | read-only: the permission error and the store unchanged; writable: exactly the store's own result |
| ReadOnlyDir.ReadOnlyChangesNothing | davnext.go:124-147 | through a read-only guard, any sequence of mutations leaves the store as it was, and each mutation reports the permission error |
| ReadOnlyDir.WritableIsTransparent | davnext.go:124-147 | with modification enabled, any sequence of mutations has exactly the results it has on the store itself |
| Gateway.Decide | davnext.go:175-244 | the routing table, each route with an if-and-only-if: 401 exactly when a user is configured and the credentials do not match; local alone exactly when allowed and no next server; merge exactly for PROPFIND with some 207 answer; local copied exactly for PROPFIND with neither answer 207; fallback to the next server exactly for another method with a local 404; the local answer stands exactly for another method without a 404 |
| Gateway.BasicAuth | davnext.go:176 | the credentials the request carries, or empty user name and password when it carries none |
| Gateway.CredentialsMatch | davnext.go:176-177 | the gate opens exactly when both the user name and the password equal the configured ones |
| Gateway.LocalRequest | davnext.go:189-198 | the local request differs from the client's only in its credentials, which are the next server's when it has a user, and is the client's request otherwise |
| Gateway.RemoteRequest | davnext.go:199-203 | the request to the next server is the local request with `Host` set to the next server's host and every other header kept |
| Gateway.Contribution | davnext.go:224-229 | a PROPFIND answer contributes its elements, one for each, exactly when its status is 207, and nothing otherwise |
| Gateway.MergeLocalWins | davnext.go:223-229 | the merged listing names exactly the resources of the 207 answers; local elements win on a collision |
| Gateway.MergeOneSided | davnext.go:224-229 | when only one answer is 207, the merged listing is that answer's alone |
| Gateway.CopyHeader | davnext.go:216-218 | the client's header map gains every header of the local answer |
| Gateway.Deny | davnext.go:179-182 | the client receives the `WWW-Authenticate: Basic realm=Dav Server` header, status 401 and the body "unauthorized" |
| Gateway.WriteMerged | davnext.go:223-235 | the client receives the content type, a Content-Length equal to the merged document's length, status 207, and the merged document |
| Gateway.ServePropfind | davnext.go:204-236 | PROPFIND: with neither answer 207, the local status, headers and body are copied; otherwise the merged answer, local first |
| Gateway.ServeIntercepted | davnext.go:238-244 | any other method: the local answer passes through the intercepting writer, and the next server answers only after a recorded 404 |
| Gateway.ServeHTTP | davnext.go:173-245 | the route taken is the routing table's, and on each route the client's writer receives exactly that route's answer |
| Gateway.FallbackIsRemoteAlone | davnext.go:238-244 | when the local engine answers 404 first and never changes its status, the client receives exactly what the next server sends |
| Gateway.MergedLengthIsOrderFree | davnext.go:230-235 | the Content-Length taken from the first serialisation equals the length of the second, whatever order each uses |

## Left out

- `main` is not modelled: flag parsing, URL parsing and the listener are configuration and network I/O.
- The reverse proxy's construction and its director are not modelled. The only effect kept is the `Host` value given to the next server.
- The WebDAV engine and the reverse proxy are not modelled inside. Each is a function from a request to the writer calls it makes, so a backend that reads the header map back, or keeps a `Header()` result across a status change, is not captured.
- The debug echo of bodies to standard output and every log line are left out, because they are side-channel I/O.
- The basic-auth header is not encoded or decoded. A request carries its decoded credentials directly.
- Request cloning, body buffering and `BodyReader` are left out. The body is one string that both backends receive unchanged.
- Go's regular-expression engine is not modelled in general. Only the two fixed non-greedy patterns are modelled, as explicit searches.
- Bodies are `seq<char>`, one character per byte, with no UTF-8 decoding.
- Text.TrimSpace: removes Go's ASCII white space (space, tab, newline, carriage return, vertical tab, form feed) byte by byte. The multi-byte UTF-8 spaces that Go's `strings.TrimSpace` also removes (U+0085, U+00A0, U+2000 and the others, encoded as C2 85, C2 A0, E2 80 80 …) are not trimmed, so an href padded with them gets a different key here.
- `Header.Set` does not canonicalise keys, and the request's other headers are not modelled beyond a map.
- Multi-valued header semantics are left out: a header name maps to the list of values it was last assigned.
- Multistatus.Propfind.WriteTo: the `(n, err)` results are always `(0, nil)` in the source and no caller reads them, so they are not modelled. The several writes it makes are collapsed into one string that is written once.
- Writers.Recorder: it records everything it receives. net/http's rules for the wire are not modelled: only the first status is sent, a status written after the body is ignored, and headers set after the status are not sent.
- ReadOnlyDir: `OpenFile`, `Stat` and every other store operation are inherited unguarded in the source. They are not modelled, because the guard does not touch them.
- ReadOnlyDir.Mkdir: the request context is not modelled, and the permission is a natural number rather than a file mode.
