/**
 * The three response writers of the gateway.
 *
 * A handler talks to a response writer through three calls: take the header
 * map and assign a header in it, record a status code, write body bytes. A
 * backend's behaviour for one request is modelled as the sequence of such calls
 * it makes (`Call`), and `Play` replays a sequence on a writer.
 *
 *  - `Recorder` stands for the client-facing writer that net/http hands to the
 *    gateway: it keeps every header assignment, every status and every byte it
 *    receives (what net/http then puts on the wire is not modelled).
 *  - `CacheWriter` only records: the last status, a private header map, a body
 *    buffer that only grows.
 *  - `InterceptWriter` forwards to a `Recorder` until the status it records is
 *    404 ("not found"); while that is the recorded status it swallows headers,
 *    body and status.
 */
module Writers {

  /** An HTTP header set: field name to its values. */
  type Header = map<string, seq<string>>

  const StatusNotFound: int := 404

  /** One call a handler makes on a response writer. */
  datatype Call =
    | SetHeader(name: string, values: seq<string>)  // Header()[name] = values
    | WriteHeader(code: int)
    | Write(data: string)

  /** A header map; Go's http.Header is a reference type, so it is an object here. */
  class HeaderMap {
    var entries: Header

    constructor()
      ensures entries == map[]
    {
      entries := map[];
    }

    /** `h[name] = values` */
    method Put(name: string, values: seq<string>)
      modifies this
      ensures entries == old(entries)[name := values]
    {
      entries := entries[name := values];
    }

    /** `h.Set(name, value)`; key canonicalisation is not modelled. */
    method Set(name: string, value: string)
      modifies this
      ensures entries == old(entries)[name := [value]]
    {
      entries := entries[name := [value]];
    }
  }

  // ---------------------------------------------------------------------------
  // Specification of the calls' effects
  // ---------------------------------------------------------------------------

  /** The code of the last WriteHeader in `calls`, or `s0` when there is none. */
  function LastStatus(s0: int, calls: seq<Call>): int
  {
    if calls == [] then s0
    else match calls[|calls| - 1]
      case WriteHeader(code) => code
      case _ => LastStatus(s0, calls[..|calls| - 1])
  }

  /** The concatenation of the data of every Write in `calls`. */
  function Written(calls: seq<Call>): string
  {
    if calls == [] then ""
    else match calls[|calls| - 1]
      case Write(data) => Written(calls[..|calls| - 1]) + data
      case _ => Written(calls[..|calls| - 1])
  }

  /** The codes of the WriteHeader calls in `calls`, in order. */
  function Statuses(calls: seq<Call>): seq<int>
  {
    if calls == [] then []
    else match calls[|calls| - 1]
      case WriteHeader(code) => Statuses(calls[..|calls| - 1]) + [code]
      case _ => Statuses(calls[..|calls| - 1])
  }

  /** No WriteHeader in `calls` records a status other than 404. */
  predicate StaysNotFound(calls: seq<Call>)
  {
    forall i :: 0 <= i < |calls| ==> !(calls[i].WriteHeader? && calls[i].code != StatusNotFound)
  }

  /** Everything a client-facing writer has received. */
  datatype Emitted = Emitted(header: Header, statuses: seq<int>, body: string)

  function EmitOne(e: Emitted, call: Call): Emitted
  {
    match call
    case SetHeader(name, values) => e.(header := e.header[name := values])
    case WriteHeader(code) => e.(statuses := e.statuses + [code])
    case Write(data) => e.(body := e.body + data)
  }

  /** `e` after a client-facing writer has received `calls`, in order. */
  function Emit(e: Emitted, calls: seq<Call>): Emitted
  {
    if calls == [] then e else EmitOne(Emit(e, calls[..|calls| - 1]), calls[|calls| - 1])
  }

  /** What a CacheWriter holds: the last status, its header map, its buffer. */
  datatype Captured = Captured(status: int, header: Header, body: string)

  function CaptureOne(c: Captured, call: Call): Captured
  {
    match call
    case SetHeader(name, values) => c.(header := c.header[name := values])
    case WriteHeader(code) => c.(status := code)
    case Write(data) => c.(body := c.body + data)
  }

  /** `c` after a CacheWriter has received `calls`, in order. */
  function CaptureAll(c: Captured, calls: seq<Call>): Captured
  {
    if calls == [] then c else CaptureOne(CaptureAll(c, calls[..|calls| - 1]), calls[|calls| - 1])
  }

  /** What a fresh CacheWriter holds after a handler made `calls` on it. */
  function Capture(calls: seq<Call>): Captured
  {
    CaptureAll(Captured(0, map[], ""), calls)
  }

  /** The calls an InterceptWriter whose recorded status is `status` passes on for `call`. */
  function ForwardOne(status: int, call: Call): seq<Call>
  {
    match call
    case SetHeader(_, _) => if status == StatusNotFound then [] else [call]
    case WriteHeader(code) => if code == StatusNotFound then [] else [call]
    case Write(_) => if status == StatusNotFound then [] else [call]
  }

  /** The calls an InterceptWriter starting with status `s0` passes on to its base for `calls`. */
  function Forwarded(s0: int, calls: seq<Call>): seq<Call>
  {
    if calls == [] then []
    else
      var init := calls[..|calls| - 1];
      Forwarded(s0, init) + ForwardOne(LastStatus(s0, init), calls[|calls| - 1])
  }

  // ---------------------------------------------------------------------------
  // Lemmas about the writers' effects
  // ---------------------------------------------------------------------------

  /**
   * A CacheWriter is a complete record of the calls it received: its status is
   * the last one passed (0 if none), its body is every write in order.
   */
  lemma {:induction false} CaptureRecords(calls: seq<Call>)
    ensures Capture(calls).status == LastStatus(0, calls)
    ensures Capture(calls).body == Written(calls)
  {
    if calls != [] {
      CaptureRecords(calls[..|calls| - 1]);
    }
  }

  /** A client-facing writer appends every write to its body and every status to its statuses. */
  lemma {:induction false} EmitRecords(e: Emitted, calls: seq<Call>)
    ensures Emit(e, calls).body == e.body + Written(calls)
    ensures Emit(e, calls).statuses == e.statuses + Statuses(calls)
  {
    if calls != [] {
      EmitRecords(e, calls[..|calls| - 1]);
    }
  }

  /** Receiving `a` and then `b` is receiving `a + b`. */
  lemma {:induction false} EmitAppend(e: Emitted, a: seq<Call>, b: seq<Call>)
    ensures Emit(Emit(e, a), b) == Emit(e, a + b)
    decreases |b|
  {
    if b != [] {
      var b' := b[..|b| - 1];
      EmitAppend(e, a, b');
      assert (a + b)[..|a + b| - 1] == a + b';
      assert (a + b)[|a + b| - 1] == b[|b| - 1];
    } else {
      assert a + b == a;
    }
  }

  /** The status recorded after `pre + post` is that after `pre` unless `post` records one. */
  lemma {:induction false} LastStatusAppend(s0: int, pre: seq<Call>, post: seq<Call>)
    ensures LastStatus(s0, pre + post) == LastStatus(LastStatus(s0, pre), post)
    decreases |post|
  {
    if post != [] {
      var post' := post[..|post| - 1];
      LastStatusAppend(s0, pre, post');
      assert (pre + post)[..|pre + post| - 1] == pre + post';
      assert (pre + post)[|pre + post| - 1] == post[|post| - 1];
    } else {
      assert pre + post == pre;
    }
  }

  /** One more call: the status and what reaches the base, from those before it. */
  lemma ForwardStep(s0: int, e: Emitted, calls: seq<Call>, i: nat)
    requires i < |calls|
    ensures LastStatus(s0, calls[..i + 1]) == LastStatus(LastStatus(s0, calls[..i]), [calls[i]])
    ensures Emit(e, Forwarded(s0, calls[..i + 1]))
         == Emit(Emit(e, Forwarded(s0, calls[..i])), ForwardOne(LastStatus(s0, calls[..i]), calls[i]))
  {
    assert calls[..i + 1][..i] == calls[..i];
    LastStatusAppend(s0, calls[..i], [calls[i]]);
    assert calls[..i] + [calls[i]] == calls[..i + 1];
    EmitAppend(e, Forwarded(s0, calls[..i]), ForwardOne(LastStatus(s0, calls[..i]), calls[i]));
  }

  /**
   * Suppression: once an InterceptWriter has recorded 404, nothing reaches its
   * base (no header, no byte, no status) for as long as no other status is
   * recorded, and its recorded status stays 404.
   */
  lemma {:induction false} SuppressedAfterNotFound(s0: int, pre: seq<Call>, post: seq<Call>)
    requires LastStatus(s0, pre) == StatusNotFound
    requires StaysNotFound(post)
    ensures Forwarded(s0, pre + post) == Forwarded(s0, pre)
    ensures LastStatus(s0, pre + post) == StatusNotFound
    decreases |post|
  {
    if post != [] {
      var post' := post[..|post| - 1];
      SuppressedAfterNotFound(s0, pre, post');
      assert (pre + post)[..|pre + post| - 1] == pre + post';
      assert (pre + post)[|pre + post| - 1] == post[|post| - 1];
    } else {
      assert pre + post == pre;
    }
  }

  /**
   * Transparency: an InterceptWriter that never records 404 passes every call
   * on to its base, unchanged and in order.
   */
  lemma {:induction false} TransparentUnlessNotFound(s0: int, calls: seq<Call>)
    requires s0 != StatusNotFound
    requires forall i :: 0 <= i < |calls| ==> calls[i] != WriteHeader(StatusNotFound)
    ensures Forwarded(s0, calls) == calls
    ensures LastStatus(s0, calls) != StatusNotFound
  {
    if calls != [] {
      var init := calls[..|calls| - 1];
      TransparentUnlessNotFound(s0, init);
      assert init + [calls[|calls| - 1]] == calls;
    }
  }

  /**
   * A handler that answers "not found" before doing anything else, and never
   * changes its mind, leaves the base writer untouched.
   */
  lemma NotFoundFirstForwardsNothing(calls: seq<Call>)
    requires |calls| > 0 && calls[0] == WriteHeader(StatusNotFound)
    requires StaysNotFound(calls[1..])
    ensures Forwarded(0, calls) == []
    ensures LastStatus(0, calls) == StatusNotFound
  {
    var pre := [calls[0]];
    assert pre[..0] == [];
    assert Forwarded(0, pre) == [];
    SuppressedAfterNotFound(0, pre, calls[1..]);
    assert pre + calls[1..] == calls;
  }

  /**
   * Suppression starts at the 404: a header a handler assigns before it
   * records 404 has already reached the base writer.
   */
  lemma HeaderBeforeNotFoundIsForwarded(name: string, values: seq<string>)
    ensures Forwarded(0, [SetHeader(name, values), WriteHeader(StatusNotFound)])
         == [SetHeader(name, values)]
  {
    var calls := [SetHeader(name, values), WriteHeader(StatusNotFound)];
    assert calls[..1] == [SetHeader(name, values)];
    assert calls[..1][..0] == [];
    assert Forwarded(0, calls[..1]) == [SetHeader(name, values)];
    assert LastStatus(0, calls[..1]) == 0;
  }

  /** Body bytes a handler writes before it records 404 have already reached the base writer. */
  lemma WriteBeforeNotFoundIsForwarded(data: string)
    ensures Forwarded(0, [Write(data), WriteHeader(StatusNotFound)]) == [Write(data)]
  {
    var calls := [Write(data), WriteHeader(StatusNotFound)];
    assert calls[..1] == [Write(data)];
    assert calls[..1][..0] == [];
    assert Forwarded(0, calls[..1]) == [Write(data)];
    assert LastStatus(0, calls[..1]) == 0;
  }

  // ---------------------------------------------------------------------------
  // The writers
  // ---------------------------------------------------------------------------

  /** The client-facing response writer: it receives and keeps everything. */
  class Recorder {
    const header: HeaderMap
    var statuses: seq<int>
    var body: string

    ghost function State(): Emitted
      reads this, header
    {
      Emitted(header.entries, statuses, body)
    }

    constructor()
      ensures fresh(header)
      ensures State() == Emitted(map[], [], "")
    {
      header := new HeaderMap();
      statuses := [];
      body := "";
    }

    method Header() returns (h: HeaderMap)
      ensures h == header
    {
      h := header;
    }

    method WriteHeader(code: int)
      modifies this
      ensures statuses == old(statuses) + [code]
      ensures body == old(body)
    {
      statuses := statuses + [code];
    }

    method Write(data: string) returns (n: nat)
      modifies this
      ensures body == old(body) + data
      ensures statuses == old(statuses)
      ensures n == |data|
    {
      body := body + data;
      n := |data|;
    }

    /** The writer receives `calls`, in order. */
    method Play(calls: seq<Call>)
      modifies this, header
      ensures State() == Emit(old(State()), calls)
    {
      var i := 0;
      while i < |calls|
        invariant 0 <= i <= |calls|
        invariant State() == Emit(old(State()), calls[..i])
      {
        match calls[i] {
          case SetHeader(name, values) =>
            var h := Header();
            h.Put(name, values);
          case WriteHeader(code) =>
            WriteHeader(code);
          case Write(data) =>
            var _ := Write(data);
        }
        assert calls[..i + 1][..i] == calls[..i];
        i := i + 1;
      }
      assert calls[..i] == calls;
    }
  }

  /** A writer that only records, so that the caller can inspect the response. */
  class CacheWriter {
    var statusCode: int
    const h: HeaderMap
    var b: string

    ghost function Snapshot(): Captured
      reads this, h
    {
      Captured(statusCode, h.entries, b)
    }

    constructor()
      ensures fresh(h)
      ensures Snapshot() == Captured(0, map[], "")
    {
      statusCode := 0;
      h := new HeaderMap();
      b := "";
    }

    /** Always the same private map. */
    method Header() returns (hm: HeaderMap)
      ensures hm == h
    {
      hm := h;
    }

    /** Appends to the buffer; never fails. */
    method Write(data: string) returns (n: nat)
      modifies this
      ensures b == old(b) + data
      ensures statusCode == old(statusCode)
      ensures n == |data|
    {
      b := b + data;
      n := |data|;
    }

    /** Records the status; forwards it nowhere. */
    method WriteHeader(code: int)
      modifies this
      ensures statusCode == code
      ensures b == old(b)
    {
      statusCode := code;
    }

    /** The writer receives `calls`, in order. */
    method Play(calls: seq<Call>)
      modifies this, h
      ensures Snapshot() == CaptureAll(old(Snapshot()), calls)
    {
      var i := 0;
      while i < |calls|
        invariant 0 <= i <= |calls|
        invariant Snapshot() == CaptureAll(old(Snapshot()), calls[..i])
      {
        match calls[i] {
          case SetHeader(name, values) =>
            var hm := Header();
            hm.Put(name, values);
          case WriteHeader(code) =>
            WriteHeader(code);
          case Write(data) =>
            var _ := Write(data);
        }
        assert calls[..i + 1][..i] == calls[..i];
        i := i + 1;
      }
      assert calls[..i] == calls;
    }
  }

  /** A writer that hides a "not found" answer from the client so that another backend can answer. */
  class InterceptWriter {
    const base: Recorder
    var statusCode: int

    /** `&InterceptWriter{Base: w}`: no status recorded yet. */
    constructor(base: Recorder)
      ensures this.base == base
      ensures statusCode == 0
    {
      this.base := base;
      statusCode := 0;
    }

    /** While the recorded status is 404, a fresh map that nobody reads; otherwise the base's map. */
    method Header() returns (hm: HeaderMap)
      ensures statusCode == StatusNotFound ==> fresh(hm) && hm.entries == map[]
      ensures statusCode != StatusNotFound ==> hm == base.header
    {
      if statusCode == StatusNotFound {
        hm := new HeaderMap();
      } else {
        hm := base.Header();
      }
    }

    /** While the recorded status is 404, reports every byte written and writes none. */
    method Write(data: string) returns (n: nat)
      modifies base
      ensures n == |data|
      ensures base.statuses == old(base.statuses)
      ensures base.body == if statusCode == StatusNotFound then old(base.body) else old(base.body) + data
    {
      if statusCode == StatusNotFound {
        n := |data|;
      } else {
        n := base.Write(data);
      }
    }

    /** Records the status, and passes it on unless it is 404. */
    method WriteHeader(code: int)
      modifies this, base
      ensures statusCode == code
      ensures base.statuses == if code == StatusNotFound then old(base.statuses) else old(base.statuses) + [code]
      ensures base.body == old(base.body)
    {
      statusCode := code;
      if statusCode == StatusNotFound {
        return;
      }
      base.WriteHeader(code);
    }

    /** The writer receives one call. */
    method Receive(call: Call)
      modifies this, base, base.header
      ensures statusCode == LastStatus(old(statusCode), [call])
      ensures base.State() == Emit(old(base.State()), ForwardOne(old(statusCode), call))
    {
      match call {
        case SetHeader(name, values) =>
          var hm := Header();
          hm.Put(name, values);
        case WriteHeader(code) =>
          WriteHeader(code);
        case Write(data) =>
          var _ := Write(data);
      }
      assert [call][..0] == [];
    }

    /** The writer receives `calls`, in order. */
    method Play(calls: seq<Call>)
      modifies this, base, base.header
      ensures statusCode == LastStatus(old(statusCode), calls)
      ensures base.State() == Emit(old(base.State()), Forwarded(old(statusCode), calls))
    {
      ghost var s0, e0 := statusCode, base.State();
      var i := 0;
      while i < |calls|
        invariant 0 <= i <= |calls|
        invariant statusCode == LastStatus(s0, calls[..i])
        invariant base.State() == Emit(e0, Forwarded(s0, calls[..i]))
      {
        Receive(calls[i]);
        ForwardStep(s0, e0, calls, i);
        i := i + 1;
      }
      assert calls[..i] == calls;
    }
  }
}
