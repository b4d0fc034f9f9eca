/**
 The encoder half of `http_codec`, and the serialisation of a header multimap.
 */
module HttpEncoder {
  import opened Ascii
  import opened HeaderLines
  import opened ChunkedCoding

  datatype EncoderState = ZERO | HEADER | BODY | TRAILER

  const TERMINATION: string := "0\r\n"

  function BodyText(chunked: bool, d: string): string {
    if d == "" then "" else if chunked then Chunk(d) else d
  }

  /** A trailer line; the last-chunk line is printed before every one of them. */
  function TrailerText(k: string, v: string): string { TERMINATION + k + ": " + v + CRLF }

  function TrailersText(ts: Pairs): string {
    if ts == [] then "" else TrailersText(ts[..|ts| - 1]) + TrailerText(ts[|ts| - 1].0, ts[|ts| - 1].1)
  }

  function EomText(chunked: bool, s: EncoderState): string
    requires !s.ZERO?
  {
    if !chunked then "" else if s.TRAILER? then CRLF else TERMINATION + CRLF
  }

  /** The assertions of the source are the preconditions here. */
  class Encoder {
    var state: EncoderState
    var chunked: bool

    constructor ()
      ensures state == ZERO && !chunked
    {
      state, chunked := ZERO, false;
    }

    /** `encode_header`, given the serialised head. */
    method EncodeHeader(head: string, isChunked: bool) returns (msg: string)
      requires state == ZERO
      modifies this
      ensures state == HEADER && chunked == isChunked && msg == head
    {
      state, chunked := HEADER, isChunked;
      msg := head;
    }

    method EncodeBody(data: string) returns (msg: string)
      requires state == HEADER || state == BODY
      modifies this`state
      ensures state == BODY && msg == BodyText(chunked, data)
    {
      state := BODY;
      if data == "" { return ""; }
      if chunked {
        msg := ToHex(|data|) + CRLF + data + CRLF;
      } else {
        msg := data;
      }
    }

    method EncodeTrailer(key: string, data: string) returns (msg: string)
      requires state == BODY || state == TRAILER
      modifies this`state
      ensures state == TRAILER && msg == TrailerText(key, data)
    {
      state := TRAILER;
      msg := TERMINATION + key + ": " + data + CRLF;
    }

    method EncodeEom() returns (msg: string)
      requires state != ZERO
      modifies this`state
      ensures state == ZERO && msg == EomText(chunked, old(state))
    {
      msg := "";
      if chunked {
        if state == HEADER || state == BODY { msg := msg + TERMINATION; }
        msg := msg + CRLF;
      }
      state := ZERO;
    }
  }

  /* ---- header multimap ------------------------------------------------ */

  function Separator(k: string): string { if k == "cookie" then "; " else ", " }

  /** Entries of one key, which are adjacent in a multimap, joined into one field. */
  function Grouped(h: Pairs): Pairs
    decreases |h|
  {
    if h == [] then []
    else
      var g := Grouped(h[..|h| - 1]);
      var (k, v) := h[|h| - 1];
      if g != [] && g[|g| - 1].0 == k then g[..|g| - 1] + [(k, g[|g| - 1].1 + Separator(k) + v)]
      else g + [(k, v)]
  }

  /** The text of some lines whose last line end is still to come. */
  function OpenLines(ps: Pairs): string
    requires ps != []
  {
    var (k, v) := ps[|ps| - 1];
    Lines(ps[..|ps| - 1]) + (k + ": " + v)
  }

  lemma {:induction false} LinesClose(ps: Pairs)
    requires ps != []
    ensures Lines(ps) == OpenLines(ps) + CRLF
    decreases |ps|
  {
    var n := |ps| - 1;
    var first := ps[0].0 + ": " + ps[0].1 + CRLF;
    if n == 0 {
      assert ps[..0] == [] && ps[1..] == [];
      assert Lines(ps) == first + "";
    } else {
      LinesClose(ps[1..]);
      assert ps[1..][..n - 1] == ps[..n][1..] && ps[1..][n - 1] == ps[n];
      assert Lines(ps[..n]) == first + Lines(ps[..n][1..]);
    }
  }

  /** A first entry of its key starts a line. */
  lemma OpenNew(g: Pairs, k: string, v: string)
    ensures OpenLines(g + [(k, v)]) == Lines(g) + (k + ": " + v)
  {
    assert (g + [(k, v)])[..|g|] == g;
  }

  /** A further entry of the same key continues the line. */
  lemma OpenMore(g: Pairs, k: string, v: string)
    requires g != [] && g[|g| - 1].0 == k
    ensures
      OpenLines(g[..|g| - 1] + [(k, g[|g| - 1].1 + Separator(k) + v)]) == OpenLines(g) + Separator(k) + v
  {
    var a, gv := g[..|g| - 1], g[|g| - 1].1;
    OpenNew(a, k, gv + Separator(k) + v);
    assert k + ": " + (gv + Separator(k) + v) == k + ": " + gv + Separator(k) + v;
    assert Lines(a) + (k + ": " + gv + Separator(k) + v) == Lines(a) + (k + ": " + gv) + Separator(k) + v;
  }

  /** How one more entry changes the groups. */
  lemma GroupedStep(h: Pairs, i: nat)
    requires i < |h|
    ensures
      var g := Grouped(h[..i]);
      Grouped(h[..i + 1]) ==
        if g != [] && g[|g| - 1].0 == h[i].0
        then g[..|g| - 1] + [(h[i].0, g[|g| - 1].1 + Separator(h[i].0) + h[i].1)]
        else g + [h[i]]
    ensures Grouped(h[..i + 1]) != [] && Grouped(h[..i + 1])[|Grouped(h[..i + 1])| - 1].0 == h[i].0
  {
    assert h[..i + 1][..i] == h[..i] && h[..i + 1][i] == h[i];
  }

  /** `http_structured_data::serialize`. */
  method Serialize(headers: Pairs) returns (msg: string)
    requires headers != [] && forall i :: 0 <= i < |headers| ==> headers[i].0 != ""
    ensures msg == Lines(Grouped(headers)) + CRLF
  {
    hide Lines, OpenLines, Separator;
    msg := "";
    var lastKey := "";
    var notFirst := false;
    var i := 0;
    while i < |headers|
      invariant 0 <= i <= |headers| && notFirst == (i > 0)
      invariant notFirst ==> lastKey == headers[i - 1].0
      invariant notFirst ==> Grouped(headers[..i]) != []
      invariant notFirst ==> Grouped(headers[..i])[|Grouped(headers[..i])| - 1].0 == lastKey
      invariant notFirst ==> msg == OpenLines(Grouped(headers[..i]))
      invariant !notFirst ==> msg == ""
    {
      ghost var g := Grouped(headers[..i]);
      var (k, v) := headers[i];
      GroupedStep(headers, i);
      assert !notFirst ==> headers[..i] == [];
      if notFirst && k == lastKey {
        OpenMore(g, k, v);
        msg := msg + Separator(k);
      } else {
        if notFirst { msg := msg + CRLF; }
        OpenStarts(g, msg, k, v);
        lastKey := k;
        msg := msg + (k + ": ");
      }
      if v != "" { msg := msg + v; }
      notFirst := true;
      i := i + 1;
    }
    assert headers[..i] == headers;
    LinesClose(Grouped(headers));
    if lastKey != "" { msg := msg + CRLF; }
    msg := msg + CRLF;
  }

  /** The text of a line that is started where `msg` ends. */
  lemma OpenStarts(g: Pairs, msg: string, k: string, v: string)
    requires if g == [] then msg == "" else msg == OpenLines(g) + CRLF
    ensures OpenLines(g + [(k, v)]) == msg + (k + ": ") + v
    ensures v == "" ==> OpenLines(g + [(k, v)]) == msg + (k + ": ")
  {
    OpenNew(g, k, v);
    if g != [] { LinesClose(g); }
    assert msg + (k + ": " + v) == msg + (k + ": ") + v;
    if v == "" { assert k + ": " + v == k + ": "; }
  }

  /* ---- what the groups are -------------------------------------------- */

  /** A multimap: entries of one key stand together. */
  predicate IsMultimap(h: Pairs) {
    forall i, j, k :: 0 <= i < j < k < |h| && h[i].0 == h[k].0 ==> h[j].0 == h[i].0
  }

  function ValuesOf(h: Pairs, key: string): seq<string> {
    if h == [] then []
    else
      var n := |h| - 1;
      if h[n].0 == key then ValuesOf(h[..n], key) + [h[n].1] else ValuesOf(h[..n], key)
  }

  function JoinWith(separator: string, vs: seq<string>): string {
    if vs == [] then ""
    else if |vs| == 1 then vs[0]
    else JoinWith(separator, vs[..|vs| - 1]) + separator + vs[|vs| - 1]
  }

  /** All values of a key, in one text (section 3.2.2 of RFC 7230, section 5.4 of RFC 6265). */
  function JoinedValues(h: Pairs, key: string): string {
    JoinWith(if key == "cookie" then "; " else ", ", ValuesOf(h, key))
  }

  /** One field per key, with all its values joined in order; in the order of the map. */
  predicate OnePerKey(g: Pairs, h: Pairs) {
    && (forall i, j :: 0 <= i < j < |g| ==> g[i].0 != g[j].0)
    && (forall i :: 0 <= i < |g| ==>
          ValuesOf(h, g[i].0) != [] && g[i].1 == JoinedValues(h, g[i].0))
    && (h != [] ==> g != [] && g[|g| - 1].0 == h[|h| - 1].0)
  }

  lemma {:induction false} KeyHasValue(h: Pairs, key: string)
    ensures ValuesOf(h, key) != [] <==> exists i :: 0 <= i < |h| && h[i].0 == key
    decreases |h|
  {
    if h != [] {
      var n := |h| - 1;
      KeyHasValue(h[..n], key);
      if ValuesOf(h[..n], key) != [] {
        var i :| 0 <= i < n && h[..n][i].0 == key;
        assert h[i].0 == key;
      }
      if i :| 0 <= i < |h| && h[i].0 == key {
        if i < n { assert h[..n][i].0 == key; }
      }
    }
  }

  lemma JoinMore(separator: string, vs: seq<string>, v: string)
    requires vs != []
    ensures JoinWith(separator, vs + [v]) == JoinWith(separator, vs) + separator + v
  {
    assert (vs + [v])[..|vs|] == vs;
  }

  /** The values of a key after one more entry. */
  lemma ValuesNext(h: Pairs, key: string)
    requires h != []
    ensures
      var n := |h| - 1;
      ValuesOf(h, key) == if h[n].0 == key then ValuesOf(h[..n], key) + [h[n].1] else ValuesOf(h[..n], key)
  {
  }

  /** If the last key has come before, it came just before. */
  lemma Together(h: Pairs)
    requires IsMultimap(h)
    ensures forall j :: 0 <= j < |h| - 1 && h[j].0 == h[|h| - 1].0 ==> h[|h| - 2].0 == h[|h| - 1].0
  {
    forall j | 0 <= j < |h| - 1 && h[j].0 == h[|h| - 1].0 ensures h[|h| - 2].0 == h[|h| - 1].0 {
      assert j < |h| - 2 ==> h[|h| - 2].0 == h[j].0;
    }
  }

  /** A further value for the last key. */
  lemma SameKey(h: Pairs, g: Pairs)
    requires h != [] && g != [] && OnePerKey(g, h[..|h| - 1]) && g[|g| - 1].0 == h[|h| - 1].0
    ensures
      var (k, v) := h[|h| - 1];
      OnePerKey(g[..|g| - 1] + [(k, g[|g| - 1].1 + Separator(k) + v)], h)
  {
    hide ValuesOf, JoinWith;
    var (k, v) := h[|h| - 1];
    var r := g[..|g| - 1] + [(k, g[|g| - 1].1 + Separator(k) + v)];
    JoinMore(Separator(k), ValuesOf(h[..|h| - 1], k), v);
    forall i | 0 <= i < |r|
      ensures ValuesOf(h, r[i].0) != [] && r[i].1 == JoinedValues(h, r[i].0)
    {
      ValuesNext(h, r[i].0);
      assert r[i].0 == g[i].0;
    }
  }

  /** The first value of a new key. */
  lemma NewKey(h: Pairs, g: Pairs)
    requires IsMultimap(h) && h != [] && OnePerKey(g, h[..|h| - 1]) && (g == [] || g[|g| - 1].0 != h[|h| - 1].0)
    requires |h| > 1 ==> g != []
    ensures OnePerKey(g + [h[|h| - 1]], h)
  {
    hide ValuesOf, JoinWith;
    var n := |h| - 1;
    var (k, v) := h[n];
    var r := g + [(k, v)];
    Together(h);
    assert n > 0 ==> h[..n][n - 1] == h[n - 1];
    KeyHasValue(h[..n], k);
    assert forall j :: 0 <= j < n ==> h[..n][j].0 == h[j].0 != k;
    forall i | 0 <= i < |g| ensures g[i].0 != k { KeyHasValue(h[..n], g[i].0); }
    OneValue("; ", v);
    OneValue(", ", v);
    forall i | 0 <= i < |r|
      ensures ValuesOf(h, r[i].0) != [] && r[i].1 == JoinedValues(h, r[i].0)
    {
      ValuesNext(h, r[i].0);
    }
  }

  lemma OneValue(separator: string, v: string)
    ensures JoinWith(separator, [] + [v]) == v
  {
  }

  /** `serialize` prints one field for each key of the multimap. */
  lemma {:induction false} GroupedMeans(h: Pairs)
    requires IsMultimap(h)
    ensures OnePerKey(Grouped(h), h)
    decreases |h|
  {
    hide Separator, ValuesOf, JoinWith, OnePerKey;
    if h == [] {
      NoKeys();
    } else {
      var n := |h| - 1;
      var g := Grouped(h[..n]);
      GroupedMeans(h[..n]);
      GroupsExist(h[..n], g);
      assert (h[n].0, h[n].1) == h[n];
      if g != [] && g[|g| - 1].0 == h[n].0 { SameKey(h, g); } else { NewKey(h, g); }
    }
  }

  lemma NoKeys()
    ensures OnePerKey([], [])
  {
  }

  lemma GroupsExist(h: Pairs, g: Pairs)
    requires OnePerKey(g, h)
    ensures h != [] ==> g != []
  {
  }

  /** How many times the key changes up to the last entry. */
  function Changes(h: Pairs): nat
    requires h != []
    decreases |h|
  {
    var n := |h| - 1;
    if n == 0 then 0 else Changes(h[..n]) + (if h[n].0 == h[n - 1].0 then 0 else 1)
  }

  /** One more entry: the fields before it keep their keys, and the last field is its own. */
  lemma KeysStep(h: Pairs)
    requires h != []
    ensures
      var n := |h| - 1;
      var g, f := Grouped(h[..n]), Grouped(h);
      && (n == 0 ==> g == [])
      && |f| == |g| + (if g != [] && g[|g| - 1].0 == h[n].0 then 0 else 1)
      && f[|f| - 1].0 == h[n].0 && forall j :: 0 <= j < |g| ==> f[j].0 == g[j].0
  {
    hide Separator;
    assert (h[|h| - 1].0, h[|h| - 1].1) == h[|h| - 1];
  }

  lemma ChangesStep(h: Pairs)
    requires |h| > 1
    ensures
      var n := |h| - 1;
      Changes(h) == Changes(h[..n]) + (if h[n].0 == h[n - 1].0 then 0 else 1)
  {
  }

  lemma OneEntry(h: Pairs)
    requires |h| == 1
    ensures Changes(h) == 0
  {
  }

  /** Every entry of the map is in a field, and the fields stand in the order of the map. */
  lemma {:induction false} EntriesInOrder(h: Pairs, i: nat)
    requires i < |h|
    ensures
      var at := Changes(h[..i + 1]);
      && at < |Grouped(h)| && Grouped(h)[at].0 == h[i].0
      && (i == |h| - 1 ==> at == |Grouped(h)| - 1)
    decreases |h|
  {
    hide Grouped, Changes;
    var n := |h| - 1;
    KeysStep(h);
    if i < n {
      EntriesInOrder(h[..n], i);
      assert h[..n][..i + 1] == h[..i + 1];
    } else {
      assert h[..i + 1] == h;
      if n == 0 {
        OneEntry(h);
      } else {
        ChangesStep(h);
        EntriesInOrder(h[..n], n - 1);
        assert h[..n][..n - 1 + 1] == h[..n] && h[..n][n - 1] == h[n - 1];
      }
    }
  }
}
