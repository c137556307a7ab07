/**
 * The PROPFIND multistatus merger.
 *
 * `Append` cuts every `<D:response>...</D:response>` element out of a
 * multistatus document, left to right, and keeps it under the trimmed text of
 * its first `<D:href>`, unless an element with that href is already kept.
 * `WriteTo` serialises the kept elements inside one `<D:multistatus>` root, in
 * an unspecified order (the table is a Go map).
 */
module Multistatus {
  import opened Wrappers
  import opened Text

  const ResponseOpen: string := "<D:response>"
  const ResponseClose: string := "</D:response>"
  const HrefOpen: string := "<D:href>"
  const HrefClose: string := "</D:href>"
  const Prolog: string := "<?xml version=\"1.0\" encoding=\"UTF-8\"?><D:multistatus xmlns:D=\"DAV:\">"
  const Epilog: string := "</D:multistatus>"

  /** The merger's table: href key to the response element kept for it. */
  type Items = map<string, string>

  // ---------------------------------------------------------------------------
  // Cutting a document into response elements
  // ---------------------------------------------------------------------------

  /**
   * A response element as the scanner cuts it: it starts with `<D:response>`,
   * ends with `</D:response>`, and that closing tag is the first one after the
   * opening tag.
   */
  predicate IsFragment(f: string)
  {
    && |ResponseOpen| + |ResponseClose| <= |f|
    && f[..|ResponseOpen|] == ResponseOpen
    && f[|f| - |ResponseClose|..] == ResponseClose
    && forall j :: |ResponseOpen| <= j < |f| - |ResponseClose| ==> !IsAt(f, j, ResponseClose)
  }

  /** A slice of a slice is a slice of the whole. */
  lemma SubSlice(s: string, a: nat, b: nat, i: nat, k: nat)
    requires a <= b <= |s| && i <= k <= b - a
    ensures s[a..b][i..k] == s[a + i..a + k]
  {
    var x, y := s[a..b][i..k], s[a + i..a + k];
    forall t | 0 <= t < k - i ensures x[t] == y[t] {
      assert x[t] == s[a + i + t];
    }
  }

  /** Adjacent slices concatenate. */
  lemma SliceConcat(s: string, i: nat, j: nat, k: nat)
    requires i <= j <= k <= |s|
    ensures s[i..k] == s[i..j] + s[j..k]
  {
    var x, y := s[i..k], s[i..j] + s[j..k];
    forall t | 0 <= t < k - i ensures x[t] == y[t] {
      if t < j - i {
        assert y[t] == s[i..j][t];
      } else {
        assert y[t] == s[j..k][t - (j - i)];
      }
    }
  }

  /** Searching in a slice is searching in the whole at the shifted index. */
  lemma SliceIsAt(s: string, a: nat, b: nat, j: nat, pat: string)
    requires a <= b <= |s| && j + |pat| <= b - a
    ensures IsAt(s[a..b], j, pat) <==> IsAt(s, a + j, pat)
  {
    SubSlice(s, a, b, j, j + |pat|);
  }

  /** A text delimited by a response opening tag and the first closing tag after it is a response element. */
  lemma DelimitedIsFragment(doc: string, start: nat, end: nat)
    requires start + |ResponseOpen| <= end - |ResponseClose| && end <= |doc|
    requires IsAt(doc, start, ResponseOpen) && IsAt(doc, end - |ResponseClose|, ResponseClose)
    requires forall j :: start + |ResponseOpen| <= j < end - |ResponseClose| ==> !IsAt(doc, j, ResponseClose)
    ensures IsFragment(doc[start..end])
  {
    var f := doc[start..end];
    SubSlice(doc, start, end, 0, |ResponseOpen|);
    SubSlice(doc, start, end, |f| - |ResponseClose|, |f|);
    forall j | |ResponseOpen| <= j < |f| - |ResponseClose|
      ensures !IsAt(f, j, ResponseClose)
    {
      SliceIsAt(doc, start, end, j, ResponseClose);
    }
  }

  /** What FindSpan cuts out for the response pattern is a response element. */
  lemma SpanIsFragment(doc: string, from: nat, sp: Span)
    requires FindSpan(doc, ResponseOpen, ResponseClose, from) == Some(sp)
    ensures IsFragment(doc[sp.start..sp.end])
  {
    DelimitedIsFragment(doc, sp.start, sp.end);
  }

  /**
   * The response elements of `doc[from..]`, in document order: what Go's
   * `ReplaceAllStringFunc` hands to its callback for the pattern
   * `(?Us)<D:response>.*</D:response>`. Each match starts at the leftmost
   * remaining `<D:response>` and ends with the first `</D:response>` after it;
   * the search resumes where the match ended.
   */
  function Fragments(doc: string, from: nat): (fs: seq<string>)
    decreases |doc| - from
    ensures forall i :: 0 <= i < |fs| ==> IsFragment(fs[i])
  {
    match FindSpan(doc, ResponseOpen, ResponseClose, from)
    case None => []
    case Some(sp) =>
      SpanIsFragment(doc, from, sp);
      [doc[sp.start..sp.end]] + Fragments(doc, sp.end)
  }

  function SumLengths(fs: seq<string>): nat
  {
    if fs == [] then 0 else |fs[0]| + SumLengths(fs[1..])
  }

  /** The elements do not overlap: together they are no longer than the text they came from. */
  lemma {:induction false} FragmentsDisjoint(doc: string, from: nat)
    requires from <= |doc|
    ensures SumLengths(Fragments(doc, from)) <= |doc| - from
    decreases |doc| - from
  {
    match FindSpan(doc, ResponseOpen, ResponseClose, from)
    case None =>
    case Some(sp) =>
      var fs := Fragments(doc, from);
      FragmentsDisjoint(doc, sp.end);
      assert fs[1..] == Fragments(doc, sp.end);
  }

  /** Where each element of `Fragments(doc, from)` starts in `doc`. */
  function MatchStarts(doc: string, from: nat): (ps: seq<nat>)
    decreases |doc| - from
  {
    match FindSpan(doc, ResponseOpen, ResponseClose, from)
    case None => []
    case Some(sp) => [sp.start] + MatchStarts(doc, sp.end)
  }

  /**
   * `fs` lie in `doc` at the positions `ps`, in order and without overlap: each
   * is the text of `doc` at its position, at or after `from`, and each ends at
   * or before the position of the next.
   */
  predicate Placed(doc: string, from: nat, fs: seq<string>, ps: seq<nat>)
  {
    && |ps| == |fs|
    && (forall i :: 0 <= i < |ps| ==>
          from <= ps[i] && ps[i] + |fs[i]| <= |doc| && doc[ps[i]..ps[i] + |fs[i]|] == fs[i])
    && (forall i :: 0 <= i < |ps| - 1 ==> ps[i] + |fs[i]| <= ps[i + 1])
  }

  /** A match in front of matches placed after it keeps them placed. */
  lemma PlacedCons(doc: string, from: nat, a: nat, b: nat, fs: seq<string>, ps: seq<nat>)
    requires from <= a <= b <= |doc|
    requires Placed(doc, b, fs, ps)
    ensures Placed(doc, from, [doc[a..b]] + fs, [a] + ps)
  {
    var fs', ps' := [doc[a..b]] + fs, [a] + ps;
    forall i | 0 <= i < |ps'|
      ensures from <= ps'[i] && ps'[i] + |fs'[i]| <= |doc| && doc[ps'[i]..ps'[i] + |fs'[i]|] == fs'[i]
    {
      if i > 0 {
        assert ps'[i] == ps[i - 1] && fs'[i] == fs[i - 1];
      }
    }
    forall i | 0 <= i < |ps'| - 1
      ensures ps'[i] + |fs'[i]| <= ps'[i + 1]
    {
      if i > 0 {
        assert ps'[i] == ps[i - 1] && fs'[i] == fs[i - 1] && ps'[i + 1] == ps[i];
      }
    }
  }

  /**
   * The elements are successive non-overlapping matches of `doc[from..]`,
   * found at the positions `MatchStarts(doc, from)`.
   */
  lemma {:induction false} FragmentsInOrder(doc: string, from: nat)
    requires from <= |doc|
    ensures Placed(doc, from, Fragments(doc, from), MatchStarts(doc, from))
    decreases |doc| - from
  {
    match FindSpan(doc, ResponseOpen, ResponseClose, from)
    case None =>
    case Some(sp) =>
      FragmentsInOrder(doc, sp.end);
      PlacedCons(doc, from, sp.start, sp.end, Fragments(doc, sp.end), MatchStarts(doc, sp.end));
  }

  /** An opening tag that no closing tag follows contributes nothing. */
  lemma UnclosedContributesNothing(doc: string, from: nat)
    requires forall j :: from <= j ==> !IsAt(doc, j, ResponseClose)
    ensures Fragments(doc, from) == []
  {
    match FindSpan(doc, ResponseOpen, ResponseClose, from)
    case None =>
    case Some(sp) =>
      assert false;
  }

  // ---------------------------------------------------------------------------
  // The key of an element
  // ---------------------------------------------------------------------------

  /**
   * The key under which an element is kept: the leftmost `<D:href>.*</D:href>`
   * match (non-greedy), stripped of its tags, trimmed of white space. "" when
   * the element has no complete href.
   */
  function HrefKey(f: string): (k: string)
    ensures k != "" ==> !IsSpace(k[0]) && !IsSpace(k[|k| - 1])
  {
    var href := FindString(f, HrefOpen, HrefClose);
    var inner := TrimSuffix(TrimPrefix(href, HrefOpen), HrefClose);
    TrimSpace(inner)
  }

  /** Stripping the href tags from a complete href leaves the text between them. */
  lemma StripHrefTags(text: string)
    ensures TrimSuffix(TrimPrefix(HrefOpen + text + HrefClose, HrefOpen), HrefClose) == text
  {
    var tail := text + HrefClose;
    var href := HrefOpen + tail;
    assert HrefOpen + text + HrefClose == href;
    assert href[..|HrefOpen|] == HrefOpen && href[|HrefOpen|..] == tail;
    assert tail[|tail| - |HrefClose|..] == HrefClose && tail[..|tail| - |HrefClose|] == text;
  }

  /** A text that starts with `open` and ends with `close` is `open`, what lies between, and `close`. */
  lemma SplitAtTags(f: string, start: nat, end: nat, open: string, close: string)
    requires start + |open| <= end - |close| && end <= |f|
    requires IsAt(f, start, open) && IsAt(f, end - |close|, close)
    ensures f[start..end] == open + f[start + |open|..end - |close|] + close
  {
    SliceConcat(f, start, start + |open|, end);
    SliceConcat(f, start + |open|, end - |close|, end);
  }

  /** An element with no complete href is kept under "". */
  lemma HrefKeyWithoutHref(f: string)
    requires FindSpan(f, HrefOpen, HrefClose, 0).None?
    ensures HrefKey(f) == ""
  {
    assert FindString(f, HrefOpen, HrefClose) == "";
    assert TrimSuffix(TrimPrefix("", HrefOpen), HrefClose) == "";
    assert TrimSpace("") == "";
  }

  /** A complete href match is the opening tag, the text, the closing tag. */
  lemma HrefMatch(f: string, sp: Span)
    requires FindSpan(f, HrefOpen, HrefClose, 0) == Some(sp)
    ensures sp.start + |HrefOpen| <= sp.end - |HrefClose|
    ensures FindString(f, HrefOpen, HrefClose) == HrefOpen + f[sp.start + |HrefOpen|..sp.end - |HrefClose|] + HrefClose
  {
    SplitAtTags(f, sp.start, sp.end, HrefOpen, HrefClose);
  }

  /** The key of an element whose href match encloses `text` is `text` trimmed. */
  lemma KeyOfHref(f: string, text: string)
    requires FindString(f, HrefOpen, HrefClose) == HrefOpen + text + HrefClose
    ensures HrefKey(f) == TrimSpace(text)
  {
    StripHrefTags(text);
  }

  /** An element with a complete href is kept under the trimmed text between the tags. */
  lemma HrefKeyWithHref(f: string, sp: Span)
    requires FindSpan(f, HrefOpen, HrefClose, 0) == Some(sp)
    ensures sp.start + |HrefOpen| <= sp.end - |HrefClose|
    ensures HrefKey(f) == TrimSpace(f[sp.start + |HrefOpen|..sp.end - |HrefClose|])
  {
    HrefMatch(f, sp);
    KeyOfHref(f, f[sp.start + |HrefOpen|..sp.end - |HrefClose|]);
  }

  // ---------------------------------------------------------------------------
  // Insertion, first seen wins
  // ---------------------------------------------------------------------------

  /** A response element together with the key it is kept under. */
  datatype Entry = Entry(key: string, element: string)

  /** The elements of a document, each with its key, in document order. */
  function Entries(fs: seq<string>): (es: seq<Entry>)
    ensures |es| == |fs|
    ensures forall i :: 0 <= i < |fs| ==> es[i].element == fs[i]
  {
    if fs == [] then [] else [Entry(HrefKey(fs[0]), fs[0])] + Entries(fs[1..])
  }

  /** Each entry carries its element's key. */
  lemma {:induction false} EntryKey(fs: seq<string>, i: nat)
    requires i < |fs|
    ensures Entries(fs)[i] == Entry(HrefKey(fs[i]), fs[i])
    decreases |fs|
  {
    if i > 0 {
      EntryKey(fs[1..], i - 1);
      assert Entries(fs)[i] == Entries(fs[1..])[i - 1];
    }
  }

  /** One callback of Append: keep the element unless its key is taken. */
  function Insert(items: Items, e: Entry): Items
  {
    if e.key in items then items else items[e.key := e.element]
  }

  /** The table after inserting `es` in order. */
  function InsertAll(items: Items, es: seq<Entry>): Items
    decreases |es|
  {
    if es == [] then items else InsertAll(Insert(items, es[0]), es[1..])
  }

  /** The keys of a sequence of entries. */
  function KeysOf(es: seq<Entry>): set<string>
  {
    set i | 0 <= i < |es| :: es[i].key
  }

  /** The element of the first entry of `es` whose key is `k`. */
  function FirstWithKey(es: seq<Entry>, k: string): (f: string)
    requires k in KeysOf(es)
    ensures exists i :: 0 <= i < |es| && es[i] == Entry(k, f) && forall j :: 0 <= j < i ==> es[j].key != k
  {
    if es[0].key == k then es[0].element
    else
      assert k in KeysOf(es[1..]) by {
        var i :| 0 <= i < |es| && es[i].key == k;
        assert es[1..][i - 1] == es[i];
      }
      FirstWithKey(es[1..], k)
  }

  /** The keys of a non-empty sequence: the first one's and the rest's. */
  lemma KeysOfCons(es: seq<Entry>)
    requires es != []
    ensures KeysOf(es) == {es[0].key} + KeysOf(es[1..])
  {
    forall k | k in KeysOf(es) ensures k in {es[0].key} + KeysOf(es[1..]) {
      var i :| 0 <= i < |es| && es[i].key == k;
      if i > 0 { assert es[1..][i - 1] == es[i]; }
    }
    forall k | k in KeysOf(es[1..]) ensures k in KeysOf(es) {
      var i :| 0 <= i < |es[1..]| && es[1..][i].key == k;
      assert es[i + 1] == es[1..][i];
    }
  }

  /** Inserting adds exactly the keys of `es`. */
  lemma {:induction false} InsertAllKeys(items: Items, es: seq<Entry>)
    decreases |es|
    ensures InsertAll(items, es).Keys == items.Keys + KeysOf(es)
  {
    if es != [] {
      InsertAllKeys(Insert(items, es[0]), es[1..]);
      KeysOfCons(es);
    }
  }

  /** First seen wins, for the table: inserting never removes or replaces a kept element. */
  lemma {:induction false} InsertAllKeeps(items: Items, es: seq<Entry>, k: string)
    requires k in items
    decreases |es|
    ensures k in InsertAll(items, es) && InsertAll(items, es)[k] == items[k]
  {
    if es != [] {
      InsertAllKeeps(Insert(items, es[0]), es[1..], k);
    }
  }

  /** First seen wins, within `es`: a new key holds the first element of `es` that carries it. */
  lemma {:induction false} InsertAllFirstSeenWins(items: Items, es: seq<Entry>, k: string)
    requires k in KeysOf(es) && k !in items
    decreases |es|
    ensures k in InsertAll(items, es) && InsertAll(items, es)[k] == FirstWithKey(es, k)
  {
    var next := Insert(items, es[0]);
    if es[0].key == k {
      InsertAllKeeps(next, es[1..], k);
    } else {
      KeysOfCons(es);
      InsertAllFirstSeenWins(next, es[1..], k);
    }
  }

  /** Inserting entries whose keys are all taken changes nothing. */
  lemma {:induction false} InsertAllPresent(items: Items, es: seq<Entry>)
    requires KeysOf(es) <= items.Keys
    ensures InsertAll(items, es) == items
    decreases |es|
  {
    if es != [] {
      KeysOfCons(es);
      InsertAllPresent(items, es[1..]);
    }
  }

  /** Inserting the same entries twice leaves the table as inserting them once. */
  lemma InsertAllIdempotent(items: Items, es: seq<Entry>)
    ensures InsertAll(InsertAll(items, es), es) == InsertAll(items, es)
  {
    InsertAllKeys(items, es);
    InsertAllPresent(InsertAll(items, es), es);
  }

  /**
   * Two documents appended to an empty table, `a` first: the table names
   * exactly the keys of both; a key of `a` holds `a`'s first element for it,
   * any other key `b`'s first element for it.
   */
  lemma FirstDocumentWins(a: seq<Entry>, b: seq<Entry>, k: string)
    ensures k in InsertAll(InsertAll(map[], a), b) <==> k in KeysOf(a) + KeysOf(b)
    ensures k in KeysOf(a) ==> InsertAll(InsertAll(map[], a), b)[k] == FirstWithKey(a, k)
    ensures k !in KeysOf(a) && k in KeysOf(b) ==> InsertAll(InsertAll(map[], a), b)[k] == FirstWithKey(b, k)
  {
    var first := InsertAll(map[], a);
    InsertAllKeys(map[], a);
    InsertAllKeys(first, b);
    if k in KeysOf(a) {
      InsertAllFirstSeenWins(map[], a, k);
      InsertAllKeeps(first, b, k);
    } else if k in KeysOf(b) {
      InsertAllFirstSeenWins(first, b, k);
    }
  }

  /** The set of keys after two documents does not depend on their order; only the elements kept do. */
  lemma MergedKeysOrderFree(items: Items, a: seq<Entry>, b: seq<Entry>)
    ensures InsertAll(InsertAll(items, a), b).Keys == InsertAll(InsertAll(items, b), a).Keys
    ensures InsertAll(InsertAll(items, a), b).Keys == items.Keys + KeysOf(a) + KeysOf(b)
  {
    InsertAllKeys(items, a);
    InsertAllKeys(InsertAll(items, a), b);
    InsertAllKeys(items, b);
    InsertAllKeys(InsertAll(items, b), a);
  }

  /** Inserting an entry and then others is inserting them all. */
  lemma InsertAllCons(items: Items, e: Entry, es: seq<Entry>)
    ensures InsertAll(items, [e] + es) == InsertAll(Insert(items, e), es)
  {
    assert ([e] + es)[1..] == es;
  }

  /** One step of the scan: the leftmost match, as an entry, followed by the entries of the rest. */
  lemma ScanStep(doc: string, from: nat, sp: Span)
    requires FindSpan(doc, ResponseOpen, ResponseClose, from) == Some(sp)
    ensures IsFragment(doc[sp.start..sp.end])
    ensures Entries(Fragments(doc, from))
         == [Entry(HrefKey(doc[sp.start..sp.end]), doc[sp.start..sp.end])] + Entries(Fragments(doc, sp.end))
  {
    var f, rest := doc[sp.start..sp.end], Fragments(doc, sp.end);
    SpanIsFragment(doc, from, sp);
    assert Fragments(doc, from) == [f] + rest;
    assert ([f] + rest)[1..] == rest;
  }

  /** Every kept element is a response element kept under its own key. */
  ghost predicate WellKeyed(items: Items)
  {
    forall k :: k in items ==> IsFragment(items[k]) && HrefKey(items[k]) == k
  }

  /**
   * Every element of the table after inserting `es` was either already kept
   * under its key or is the element of an entry of `es` with that key.
   */
  lemma {:induction false} InsertAllOrigin(items: Items, es: seq<Entry>, k: string)
    requires k in InsertAll(items, es)
    ensures (k in items && InsertAll(items, es)[k] == items[k]) || Entry(k, InsertAll(items, es)[k]) in es
    decreases |es|
  {
    if es != [] {
      var next := Insert(items, es[0]);
      InsertAllOrigin(next, es[1..], k);
      if k in next && InsertAll(next, es[1..])[k] == next[k] {
        if k !in items || next[k] != items[k] {
          assert Entry(k, next[k]) == es[0];
        }
      } else {
        assert Entry(k, InsertAll(items, es)[k]) in es[1..];
      }
    }
  }

  // ---------------------------------------------------------------------------
  // Serialisation in an unspecified order
  // ---------------------------------------------------------------------------

  /** `order` lists every key of `keys` exactly once. */
  ghost predicate Enumerates(order: seq<string>, keys: set<string>)
  {
    && (forall i, j :: 0 <= i < j < |order| ==> order[i] != order[j])
    && (forall k :: k in order <==> k in keys)
  }

  /** The kept elements, concatenated in the order `order`. */
  function Concat(items: Items, order: seq<string>): string
    requires forall k :: k in order ==> k in items
  {
    if order == [] then ""
    else Concat(items, order[..|order| - 1]) + items[order[|order| - 1]]
  }

  ghost function Pick(items: Items): string
    requires items != map[]
  {
    var k :| k in items; k
  }

  /** The total length of the kept elements. */
  ghost function TotalLength(items: Items): nat
    decreases |items|
  {
    if items == map[] then 0
    else
      var k := Pick(items);
      assert (items - {k}).Keys < items.Keys;
      |items[k]| + TotalLength(items - {k})
  }

  /** The total length counts each element once, whichever is taken out first. */
  lemma {:induction false} TotalLengthRemove(items: Items, k: string)
    requires k in items
    ensures TotalLength(items) == |items[k]| + TotalLength(items - {k})
    decreases |items|
  {
    var p := Pick(items);
    if p != k {
      assert (items - {p}).Keys < items.Keys;
      assert (items - {k}).Keys < items.Keys;
      TotalLengthRemove(items - {p}, k);
      TotalLengthRemove(items - {k}, p);
      assert items - {p} - {k} == items - {k} - {p};
    }
  }

  /** Listing one more key appends its element. */
  lemma ConcatSnoc(items: Items, order: seq<string>, k: string)
    requires forall x :: x in order ==> x in items
    requires k in items
    ensures Concat(items, order + [k]) == Concat(items, order) + items[k]
  {
    assert (order + [k])[..|order|] == order;
  }

  /** Concatenating only reads the kept elements that are listed. */
  lemma {:induction false} ConcatFrame(items: Items, other: Items, order: seq<string>)
    requires forall k :: k in order ==> k in items && k in other && items[k] == other[k]
    ensures Concat(items, order) == Concat(other, order)
  {
    if order != [] {
      ConcatFrame(items, other, order[..|order| - 1]);
    }
  }

  /**
   * Whatever the order, the serialised elements have the same total length;
   * so the Content-Length taken from one serialisation fits any other.
   */
  lemma {:induction false} ConcatLength(items: Items, order: seq<string>)
    requires Enumerates(order, items.Keys)
    ensures |Concat(items, order)| == TotalLength(items)
  {
    if order != [] {
      var k := order[|order| - 1];
      var init := order[..|order| - 1];
      var rest := items - {k};
      assert Enumerates(init, rest.Keys) by {
        forall x ensures x in init <==> x in rest.Keys {
          if x in init {
            var i :| 0 <= i < |init| && init[i] == x;
            assert order[i] == x;
          }
          if x in rest.Keys {
            var i :| 0 <= i < |order| && order[i] == x;
            assert i < |order| - 1;
            assert init[i] == x;
          }
        }
      }
      ConcatFrame(items, rest, init);
      ConcatLength(rest, init);
      TotalLengthRemove(items, k);
    } else {
      assert items.Keys == {};
      assert items == map[];
    }
  }

  // ---------------------------------------------------------------------------
  // The merger object
  // ---------------------------------------------------------------------------

  class Propfind {
    var items: Items

    ghost predicate Valid()
      reads this
    {
      WellKeyed(items)
    }

    /** NewPropfind: an empty table. */
    constructor()
      ensures Valid()
      ensures items == map[]
    {
      items := map[];
    }

    /** The callback for one response element `s`: keep it under its key unless the key is taken. */
    method Keep(s: string)
      requires Valid() && IsFragment(s)
      modifies this
      ensures Valid()
      ensures items == Insert(old(items), Entry(HrefKey(s), s))
    {
      var href := HrefKey(s);
      if href !in items {
        items := items[href := s];
      }
    }

    /** Keeps every response element of `data` whose key is not yet taken. */
    method Append(data: string)
      requires Valid()
      modifies this
      ensures Valid()
      ensures items == InsertAll(old(items), Entries(Fragments(data, 0)))
    {
      var pos: nat := 0;
      while true
        invariant pos <= |data|
        invariant Valid()
        invariant InsertAll(items, Entries(Fragments(data, pos))) == InsertAll(old(items), Entries(Fragments(data, 0)))
        decreases |data| - pos
      {
        var m := FindSpan(data, ResponseOpen, ResponseClose, pos);
        if m.None? {
          break;
        }
        var s := data[m.value.start..m.value.end];
        ScanStep(data, pos, m.value);
        InsertAllCons(items, Entry(HrefKey(s), s), Entries(Fragments(data, m.value.end)));
        Keep(s);
        pos := m.value.end;
      }
    }

    /**
     * The serialised document: the prolog and root opening tag, every kept
     * element exactly once in some order `order`, the closing tag.
     */
    method WriteTo() returns (out: string, ghost order: seq<string>)
      ensures Enumerates(order, items.Keys)
      ensures out == Prolog + Concat(items, order) + Epilog
      ensures |out| == |Prolog| + TotalLength(items) + |Epilog|
    {
      out := Prolog;
      order := [];
      var rest := items.Keys;
      while rest != {}
        invariant rest <= items.Keys
        invariant forall i, j :: 0 <= i < j < |order| ==> order[i] != order[j]
        invariant forall k :: k in order <==> k in items.Keys - rest
        invariant out == Prolog + Concat(items, order)
        decreases |rest|
      {
        var k :| k in rest;
        out := out + items[k];
        ConcatSnoc(items, order, k);
        assert k !in order;
        order := order + [k];
        rest := rest - {k};
      }
      out := out + Epilog;
      ConcatLength(items, order);
    }
  }
}
