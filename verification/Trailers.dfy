/**
 More than one trailer: the encoder prints a last-chunk line before every one of
 them, and the parser reads only one.
 */
module Trailers {
  import opened Ascii
  import opened ParserTypes
  import opened ParserStep
  import opened ParserMachine
  import opened ParserWords
  import opened HeaderLines
  import opened HttpEncoder
  import opened RoundTrip

  /** What is printed after the bodies of a chunked message with these trailers. */
  function TrailerPart(ts: Pairs): string { TrailersText(ts) + EomText(true, if ts == [] then BODY else TRAILER) }

  /** Every trailer on its own is well formed. */
  predicate AllClean(ts: Pairs) { forall i :: 0 <= i < |ts| ==> CleanTrailer(Some(ts[i])) }

  lemma {:induction false} TrailersFirst(ts: Pairs)
    requires ts != []
    ensures TrailersText(ts) == TrailerText(ts[0].0, ts[0].1) + TrailersText(ts[1..])
    decreases |ts|
  {
    hide TrailerText;
    var n := |ts| - 1;
    var last := TrailerText(ts[n].0, ts[n].1);
    if n == 0 {
      assert ts[..0] == [] && ts[1..] == [] && "" + last == last + "";
    } else {
      TrailersFirst(ts[..n]);
      assert ts[..n][1..] == ts[1..][..n - 1] && ts[1..][n - 1] == ts[n];
      var a, b := TrailerText(ts[0].0, ts[0].1), TrailersText(ts[1..][..n - 1]);
      assert a + b + last == a + (b + last);
    }
  }

  /** What is read after an accepted part decides. */
  lemma {:induction false} OverRun(m: Machine, a: string, w: Machine, b: string)
    requires Over(m, a, w)
    ensures Run(m, a + b).m == Run(w, b).m
    decreases |a|
  {
    hide Transition, Step;
    if a == "" {
      assert a + b == b;
    } else {
      assert (a + b)[0] == a[0] && (a + b)[1..] == a[1..] + b;
      OverRun(Step(m, a[0]), a[1..], w, b);
    }
  }

  lemma RunTwo(m: Machine, x: char, y: char, rest: string)
    requires m.core.errno.Ok? && Step(m, x).core.errno.Ok? && !Step(Step(m, x), y).core.errno.Ok?
    ensures Run(m, [x, y] + rest).m == Step(Step(m, x), y)
  {
    hide Transition, Step;
    var s := [x, y] + rest;
    assert s[0] == x && s[1..] == [y] + rest && s[1..][0] == y;
    assert Run(Step(m, x), s[1..]).m == Step(Step(m, x), y);
  }

  lemma NoName(m: Machine)
    requires m.core.errno.Ok? && m.core.state.HeaderField?
    ensures Step(m, CR).core.errno == InvalidHeaderToken
  {
    hide StartStep, StatusLineStep, UrlPhaseStep, RequestVersionStep, BodyStep, Emit, Interpret, FieldByte;
  }

  /** A line that begins like a last-chunk line is no header line. */
  lemma LastChunkIsNoField(m: Machine, rest: string)
    requires m.core.errno.Ok? && BetweenLines(m.core.state)
    ensures Run(m, TERMINATION + rest).m.core.errno == InvalidHeaderToken
  {
    hide Transition, Step, Run, Emit, TokenFlags;
    var s, w := TERMINATION + rest, Settle(m);
    assert s == ['0', CR] + ([LF] + rest);
    SettledRun(m, s);
    NameFirst(w, '0');
    NoName(Step(w, '0'));
    RunTwo(w, '0', CR, [LF] + rest);
  }

  /** The second trailer is refused, whatever comes after it. */
  lemma SecondIsRefused(m: Machine, bodies: seq<string>, t: (string, string), rest: string)
    requires m.core.errno.Ok? && m.core.state.ChunkSizeStart? && !m.core.m.flags.contentLength
    requires Storable(bodies) && CleanTrailer(Some(t))
    ensures Run(m, BodiesText(true, bodies) + (TrailerText(t.0, t.1) + (TERMINATION + rest))).m.core.errno
      == InvalidHeaderToken
  {
    hide Over, Transition, Step, Run, BodiesText, ChunksEvents, Storable, LineMatcher, CleanKey, CleanValue, Emit,
      Lawful, AsRead, Trimmed;
    var a := ChunksOver(m, bodies);
    var b := LastChunkOver(a);
    var line := t.0 + ": " + t.1 + CRLF;
    LineFraming(b.core.m, t.0, Trimmed(t.1));
    var c := LineOver(b, t.0, t.1);
    LineEndsWell(b, line, c);
    OverTrans(a, TERMINATION, b, line, c);
    OverTrans(m, BodiesText(true, bodies), a, TERMINATION + line, c);
    LastChunkIsNoField(c, rest);
    OverRun(m, BodiesText(true, bodies) + (TERMINATION + line), c, TERMINATION + rest);
    assert TERMINATION + line == TrailerText(t.0, t.1);
    assert BodiesText(true, bodies) + (TERMINATION + line) + (TERMINATION + rest)
        == BodiesText(true, bodies) + (TrailerText(t.0, t.1) + (TERMINATION + rest));
  }

  lemma LineEndsWell(m: Machine, s: string, w: Machine)
    requires Over(m, s, w)
    ensures w.core.errno.Ok?
  {
  }

  /**
   A chunked message is read back exactly when it has at most one trailer: with
   more, the parser takes the second last-chunk line for a header line and stops.
   */
  lemma AtMostOneTrailer(m: Machine, bodies: seq<string>, ts: Pairs)
    requires m.core.errno.Ok? && m.core.state.ChunkSizeStart? && m.core.resets && !m.core.m.flags.contentLength
    requires Storable(bodies) && AllClean(ts)
    ensures Run(m, BodiesText(true, bodies) + TrailerPart(ts)).m.core.errno.Ok? <==> |ts| <= 1
    ensures |ts| > 1 ==> Run(m, BodiesText(true, bodies) + TrailerPart(ts)).m.core.errno == InvalidHeaderToken
  {
    hide Over, Transition, Step, Run, BodiesText, Storable, CleanTrailer, TrailerText, TrailersText;
    if |ts| <= 1 {
      var t := if ts == [] then None else Some(ts[0]);
      assert CleanTrailer(t) by { NoTrailer(); }
      var w := ChunkedOver(m, bodies, t);
      OverRun(m, ChunkedText(bodies, t), w, "");
      ShortPart(ts, t);
      OneIsRead(m, ChunkedText(bodies, t), w);
      assert ChunkedText(bodies, t) == BodiesText(true, bodies) + TrailerPart(ts);
    } else {
      TrailersFirst(ts);
      TrailersFirst(ts[1..]);
      var rest := SecondPart(ts[1]) + TrailersText(ts[2..]) + CRLF;
      assert ts[1..][1..] == ts[2..] && ts[1..][0] == ts[1];
      SecondStarts(ts[1]);
      SecondIsRefused(m, bodies, ts[0], rest);
      assert TrailerPart(ts) == TrailerText(ts[0].0, ts[0].1) + (TERMINATION + rest);
    }
  }

  /** A trailer line without the last-chunk line in front of it. */
  function SecondPart(t: (string, string)): string { t.0 + ": " + t.1 + CRLF }

  lemma SecondStarts(t: (string, string))
    ensures TrailerText(t.0, t.1) == TERMINATION + SecondPart(t)
  {
    assert TERMINATION + t.0 + ": " + t.1 + CRLF == TERMINATION + (t.0 + ": " + t.1 + CRLF);
  }

  lemma NoTrailer()
    ensures CleanTrailer(None)
  {
  }

  lemma ShortPart(ts: Pairs, t: Trailer)
    requires |ts| <= 1 && t == if ts == [] then None else Some(ts[0])
    ensures TrailerPart(ts) == TERMINATION + TrailerLine(t) + CRLF
  {
    if ts == [] {
      assert TERMINATION + "" + CRLF == "" + (TERMINATION + CRLF);
    } else {
      assert ts[..0] == [];
      SecondStarts(ts[0]);
      assert TrailersText(ts) == "" + TrailerText(ts[0].0, ts[0].1) == TrailerText(ts[0].0, ts[0].1);
      assert TERMINATION + SecondPart(ts[0]) + CRLF == TERMINATION + TrailerLine(t) + CRLF;
    }
  }

  lemma OneIsRead(m: Machine, s: string, w: Machine)
    requires Over(m, s, w)
    ensures Run(m, s).m.core.errno.Ok?
  {
  }
}
